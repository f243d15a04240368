/** `GET` and `POST` of `/api/projects` (src/app/api/projects/route.ts), over an
    abstract store given as the set of slugs already taken. */
module ProjectsRoute {
  import opened Optional
  import opened Media
  import opened Http
  import opened Ordering

  /** The fields `POST` destructures from the JSON body; `None` is a field that
      is absent. `year` is kept as the text handed to `parseInt`. */
  datatype CreateBody = CreateBody(
    title: Option<string>,
    slug: Option<string>,
    category: Option<string>,
    year: Option<string>,
    thumbnail: Option<string>,
    description: Option<string>,
    images: Option<seq<ImageRef>>)

  /** What `request.json()` produced: a body, or a parse failure (it throws). */
  datatype JsonPayload = Unparsable | Json(body: CreateBody)

  /** An image row as created alongside a project. */
  datatype ImageRow = ImageRow(url: string, alt: string, order: int)

  /** The project row `prisma.project.create` inserts. */
  datatype NewProject = NewProject(
    title: string,
    slug: string,
    category: string,
    year: string,
    thumbnail: string,
    description: string,
    images: seq<ImageRow>)

  /** The reply together with the slug store after the call and whether the
      duplicate-slug lookup ran. */
  datatype CreateOutcome = CreateOutcome(reply: Reply<NewProject>, store: set<string>, lookedUp: bool)

  const Unauthorized := "Unauthorized"
  const MissingFields := "Missing required fields"
  const SlugTaken := "Slug already exists"
  const CreateFailed := "Failed to create project"

  /** A JavaScript string field is truthy when present and non-empty. */
  predicate Truthy(f: Option<string>) {
    f.Some? && f.value != ""
  }

  predicate HasRequiredFields(b: CreateBody) {
    && Truthy(b.title) && Truthy(b.slug) && Truthy(b.category)
    && Truthy(b.year) && Truthy(b.thumbnail) && Truthy(b.description)
  }

  /** `img.alt || ""`. */
  function AltOrEmpty(alt: Option<string>): (r: string)
    ensures alt.Some? && alt.value != "" ==> r == alt.value
    ensures alt.None? || alt.value == "" ==> r == ""
  {
    match alt
    case Some(text) => text
    case None => ""
  }

  /** The image rows created for `images?.length ? images.map(...) : undefined`. */
  function ImageRows(images: Option<seq<ImageRef>>): (r: seq<ImageRow>)
    ensures images.None? ==> r == []
    ensures images.Some? ==> |r| == |images.value|
    ensures images.Some? ==> forall i :: 0 <= i < |r| ==>
              r[i] == ImageRow(images.value[i].url, AltOrEmpty(images.value[i].alt), i)
  {
    match images
    case None => []
    case Some(imgs) => seq(|imgs|, i requires 0 <= i < |imgs| => ImageRow(imgs[i].url, AltOrEmpty(imgs[i].alt), i))
  }

  /** The created rows are numbered 0..n-1 in the order given, so they are
      already in the order `GET` lists them, and they carry the given URLs. */
  lemma ImageRowsOrdered(images: seq<ImageRef>)
    ensures SortedBy(ImageRows(Some(images)), (row: ImageRow) => row.order)
    ensures forall i, j :: 0 <= i < j < |images| ==> ImageRows(Some(images))[i].order < ImageRows(Some(images))[j].order
    ensures forall i :: 0 <= i < |images| ==> ImageRows(Some(images))[i].url == images[i].url
  {
  }

  /** `POST /api/projects`: auth, then body parsing, then required fields, then
      the duplicate-slug lookup; the first failing step decides the reply. */
  function Post(signedIn: bool, payload: JsonPayload, store: set<string>): (r: CreateOutcome)
    ensures r.reply.status == 401 <==> !signedIn
    ensures r.reply.status == 201 <==>
              && signedIn && payload.Json? && HasRequiredFields(payload.body)
              && payload.body.slug.value !in store
    ensures r.reply.status == 400 && r.reply.body == ErrorMessage(MissingFields) <==>
              signedIn && payload.Json? && !HasRequiredFields(payload.body)
    ensures r.reply.status == 400 && r.reply.body == ErrorMessage(SlugTaken) <==>
              && signedIn && payload.Json? && HasRequiredFields(payload.body)
              && payload.body.slug.value in store
    ensures r.reply.status == 500 <==> signedIn && payload.Unparsable?
    ensures r.lookedUp <==> signedIn && payload.Json? && HasRequiredFields(payload.body)
    ensures r.reply.status != 201 ==> r.store == store
    ensures r.reply.status == 201 ==>
              && r.store == store + {payload.body.slug.value}
              && payload.body.slug.value !in store
              && r.reply.body.Payload?
              && r.reply.body.value.slug == payload.body.slug.value
              && r.reply.body.value.title == payload.body.title.value
              && r.reply.body.value.category == payload.body.category.value
              && r.reply.body.value.year == payload.body.year.value
              && r.reply.body.value.thumbnail == payload.body.thumbnail.value
              && r.reply.body.value.description == payload.body.description.value
              && r.reply.body.value.images == ImageRows(payload.body.images)
  {
    if !signedIn then CreateOutcome(Fail(401, Unauthorized), store, false)
    else match payload
      case Unparsable => CreateOutcome(Fail(500, CreateFailed), store, false)
      case Json(b) =>
        if !HasRequiredFields(b) then CreateOutcome(Fail(400, MissingFields), store, false)
        else if b.slug.value in store then CreateOutcome(Fail(400, SlugTaken), store, true)
        else
          var project := NewProject(
            b.title.value, b.slug.value, b.category.value, b.year.value,
            b.thumbnail.value, b.description.value, ImageRows(b.images));
          CreateOutcome(Reply(201, Payload(project)), store + {b.slug.value}, true)
  }

  /** Creating the same project twice: the second request is refused as a
      duplicate and the store keeps exactly one copy of the slug. */
  lemma PostTwiceRefusesDuplicate(payload: JsonPayload, store: set<string>)
    requires Post(true, payload, store).reply.status == 201
    ensures var first := Post(true, payload, store);
            var second := Post(true, payload, first.store);
            second.reply == Fail(400, SlugTaken) && second.store == first.store
  {
  }

  // ---------------------------------------------------------------------------
  // GET

  /** A stored project as `GET` reads it. */
  datatype StoredProject = StoredProject(slug: string, order: int, published: bool, images: seq<ImageRow>)

  function ProjectOrder(p: StoredProject): int { p.order }

  function RowOrder(row: ImageRow): int { row.order }

  /** A project as `include: { images: { orderBy: { order: "asc" } } }` returns it. */
  function WithSortedImages(p: StoredProject): (q: StoredProject)
    ensures q.slug == p.slug && q.order == p.order && q.published == p.published
    ensures SortedBy(q.images, RowOrder) && multiset(q.images) == multiset(p.images)
  {
    p.(images := SortBy(p.images, RowOrder))
  }

  /** The published projects, each with its images sorted, in store order. */
  function PublishedView(projects: seq<StoredProject>): (r: seq<StoredProject>)
    ensures forall q :: q in r <==> exists p :: p in projects && p.published && q == WithSortedImages(p)
    ensures forall i :: 0 <= i < |r| ==> r[i].published && SortedBy(r[i].images, RowOrder)
    ensures |r| <= |projects|
  {
    if |projects| == 0 then []
    else
      var rest := PublishedView(projects[1..]);
      assert forall p :: p in projects[1..] ==> p in projects;
      assert forall p :: p in projects ==> p == projects[0] || p in projects[1..];
      if projects[0].published then [WithSortedImages(projects[0])] + rest else rest
  }

  /** The view is taken row by row: each stored project contributes at most
      its own entry, in store order, so none is listed twice. */
  lemma {:induction false} PublishedViewAppend(a: seq<StoredProject>, b: seq<StoredProject>)
    ensures PublishedView(a + b) == PublishedView(a) + PublishedView(b)
  {
    if |a| == 0 {
      assert a + b == b;
    } else {
      assert (a + b)[1..] == a[1..] + b;
      PublishedViewAppend(a[1..], b);
    }
  }

  lemma SameMultisetSameMembers<T>(a: seq<T>, b: seq<T>)
    requires multiset(a) == multiset(b)
    ensures forall x :: x in a <==> x in b
  {
    forall x ensures x in a <==> x in b {
      assert x in a <==> x in multiset(a);
      assert x in b <==> x in multiset(b);
    }
  }

  /** `GET /api/projects`: only published projects, ascending by `order`, each
      with its images ascending by `order`. */
  function Get(projects: seq<StoredProject>): (r: Reply<seq<StoredProject>>)
    ensures r.status == 200 && r.body.Payload?
    ensures SortedBy(r.body.value, ProjectOrder)
    ensures multiset(r.body.value) == multiset(PublishedView(projects))
    ensures |r.body.value| <= |projects|
    ensures forall q :: q in r.body.value <==> exists p :: p in projects && p.published && q == WithSortedImages(p)
    ensures forall i :: 0 <= i < |r.body.value| ==>
              r.body.value[i].published && SortedBy(r.body.value[i].images, RowOrder)
  {
    var view := PublishedView(projects);
    var listed := SortBy(view, ProjectOrder);
    assert |listed| == |view| <= |projects|;
    SameMultisetSameMembers(listed, view);
    assert forall i :: 0 <= i < |listed| ==> listed[i] in view;
    Reply(200, Payload(listed))
  }
}
