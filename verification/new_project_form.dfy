/** The new-project form: slug derivation from the title, the title handler and
    the thumbnail fallback applied on submit (src/app/admin/projects/new/page.tsx). */
module NewProjectForm {
  import opened Optional
  import opened Ascii
  import opened Media
  import ProjectsRoute

  /** The controlled fields of the form. */
  datatype Form = Form(
    title: string,
    slug: string,
    category: string,
    year: string,
    description: string,
    thumbnail: string)

  // ---------------------------------------------------------------------------
  // What a slug looks like

  predicate IsSlugChar(c: char) {
    IsLowerAlnum(c) || c == '-'
  }

  predicate NoDoubleDash(s: string) {
    forall i :: 0 <= i < |s| - 1 ==> !(s[i] == '-' && s[i + 1] == '-')
  }

  /** Only `[a-z0-9-]`, no `--`, and no dash at either end. */
  predicate IsSlug(s: string) {
    && (forall i :: 0 <= i < |s| ==> IsSlugChar(s[i]))
    && NoDoubleDash(s)
    && (|s| > 0 ==> s[0] != '-' && s[|s| - 1] != '-')
  }

  /** The letters and digits of `s`, in order. */
  function Alnums(s: string): (r: string)
    ensures |r| <= |s|
    ensures forall i :: 0 <= i < |r| ==> IsLowerAlnum(r[i])
  {
    if |s| == 0 then []
    else if IsLowerAlnum(s[0]) then [s[0]] + Alnums(s[1..])
    else Alnums(s[1..])
  }

  lemma {:induction false} AlnumsAppend(a: string, b: string)
    ensures Alnums(a + b) == Alnums(a) + Alnums(b)
  {
    if |a| == 0 {
      assert a + b == b;
    } else {
      assert (a + b)[1..] == a[1..] + b;
      AlnumsAppend(a[1..], b);
    }
  }

  lemma {:induction false} AlnumsEmptyIff(s: string)
    ensures Alnums(s) == [] <==> forall i :: 0 <= i < |s| ==> !IsLowerAlnum(s[i])
  {
    if |s| > 0 {
      AlnumsEmptyIff(s[1..]);
      assert forall i :: 1 <= i < |s| ==> s[i] == s[1..][i - 1];
    }
  }

  // ---------------------------------------------------------------------------
  // The transformation

  /** `.replace(/[^a-z0-9]+/g, "-")`: every maximal run of characters outside
      `[a-z0-9]` becomes a single dash. `inRun` says the previous character
      already belonged to such a run, whose dash has been emitted. */
  function Collapse(s: string, inRun: bool): (r: string)
    ensures forall i :: 0 <= i < |r| ==> IsSlugChar(r[i])
    ensures NoDoubleDash(r)
    ensures inRun && |r| > 0 ==> r[0] != '-'
  {
    if |s| == 0 then []
    else if IsLowerAlnum(s[0]) then [s[0]] + Collapse(s[1..], false)
    else if inRun then Collapse(s[1..], true)
    else ['-'] + Collapse(s[1..], true)
  }

  lemma {:induction false} CollapseKeepsAlnums(s: string, inRun: bool)
    ensures Alnums(Collapse(s, inRun)) == Alnums(s)
  {
    if |s| > 0 {
      CollapseKeepsAlnums(s[1..], IsLowerAlnum(s[0]) == false);
      var rest := Collapse(s[1..], !IsLowerAlnum(s[0]));
      if IsLowerAlnum(s[0]) {
        AlnumsAppend([s[0]], rest);
      } else if !inRun {
        AlnumsAppend(['-'], rest);
      }
    }
  }

  /** Whether `Collapse` is inside a run after reading `a` from state `inRun`. */
  function RunAfter(a: string, inRun: bool): bool {
    if |a| == 0 then inRun else !IsLowerAlnum(a[|a| - 1])
  }

  /** The run replacement works piecewise: the text after `a` is processed in
      the state `a` left behind. */
  lemma {:induction false} CollapseAppend(a: string, b: string, inRun: bool)
    ensures Collapse(a + b, inRun) == Collapse(a, inRun) + Collapse(b, RunAfter(a, inRun))
  {
    if |a| > 0 {
      assert (a + b)[0] == a[0] && (a + b)[1..] == a[1..] + b;
      var next := !IsLowerAlnum(a[0]);
      CollapseAppend(a[1..], b, next);
      assert RunAfter(a[1..], next) == RunAfter(a, inRun);
      var tail := Collapse(a[1..], next);
      var rest := Collapse(b, RunAfter(a, inRun));
      var head := if IsLowerAlnum(a[0]) then [a[0]] else if inRun then [] else ['-'];
      assert Collapse(a + b, inRun) == head + Collapse(a[1..] + b, next);
      assert Collapse(a, inRun) == head + tail;
      assert head + (tail + rest) == (head + tail) + rest;
    } else {
      assert a + b == b;
    }
  }

  /** A non-empty run of other characters becomes one dash, or nothing when a
      run was already in progress. */
  lemma {:induction false} CollapseRun(run: string, inRun: bool)
    requires forall i :: 0 <= i < |run| ==> !IsLowerAlnum(run[i])
    ensures Collapse(run, inRun) == if inRun || |run| == 0 then "" else "-"
    ensures RunAfter(run, inRun) == (inRun || |run| > 0)
  {
    if |run| > 0 {
      CollapseRun(run[1..], true);
    }
  }

  /** Letters and digits pass through the run replacement and end any run. */
  lemma CollapseWord(w: string, inRun: bool)
    requires forall i :: 0 <= i < |w| ==> IsLowerAlnum(w[i])
    ensures Collapse(w, inRun) == w
    ensures |w| > 0 ==> !RunAfter(w, inRun)
  {
    CollapseFixesSlugBody(w, inRun);
  }

  /** A single dash when `present`, otherwise nothing. */
  function Dash(present: bool): string {
    if present then "-" else ""
  }

  /** `.replace(/^-|-$/g, "")`: the input is the result with at most one dash
      put back at each end, a leading one exactly when the input starts with a
      dash and a trailing one exactly when a further dash ends it. */
  function Trim(s: string): (r: string)
    ensures var lead := |s| > 0 && s[0] == '-';
            var trail := |s| > (if lead then 1 else 0) && s[|s| - 1] == '-';
            s == Dash(lead) + r + Dash(trail)
    ensures Alnums(r) == Alnums(s)
  {
    var a := if |s| > 0 && s[0] == '-' then s[1..] else s;
    assert Alnums(s) == Alnums(a) by {
      if a != s {
        assert s == ['-'] + a;
        AlnumsAppend(['-'], a);
      }
    }
    var b := if |a| > 0 && a[|a| - 1] == '-' then a[..|a| - 1] else a;
    assert Alnums(a) == Alnums(b) by {
      if b != a {
        assert a == b + ['-'];
        AlnumsAppend(b, ['-']);
      }
    }
    b
  }

  /** The slug `handleTitleChange` derives from a title. */
  function Slugify(title: string): (r: string)
    ensures IsSlug(r)
    ensures Alnums(r) == Alnums(Lower(title))
  {
    var c := Collapse(Lower(title), false);
    CollapseKeepsAlnums(Lower(title), false);
    TrimMakesSlug(c);
    Trim(c)
  }

  /** Trimming a collapsed string leaves a well-formed slug. */
  lemma TrimMakesSlug(c: string)
    requires forall i :: 0 <= i < |c| ==> IsSlugChar(c[i])
    requires NoDoubleDash(c)
    ensures IsSlug(Trim(c))
  {
    var r := Trim(c);
    var lead := |c| > 0 && c[0] == '-';
    var trail := |c| > (if lead then 1 else 0) && c[|c| - 1] == '-';
    var lo := |Dash(lead)|;
    var hi := |c| - |Dash(trail)|;
    assert r == c[lo..hi] by {
      assert c == Dash(lead) + r + Dash(trail);
    }
    SliceKeepsSlugChars(c, lo, hi);
    if |r| > 0 {
      assert r[0] == c[lo] && r[|r| - 1] == c[hi - 1];
      assert lead ==> c[0] == '-' && lo == 1;
      assert trail ==> c[|c| - 1] == '-' && hi == |c| - 1;
    }
  }

  lemma SliceKeepsSlugChars(s: string, i: nat, j: nat)
    requires i <= j <= |s|
    requires forall k :: 0 <= k < |s| ==> IsSlugChar(s[k])
    requires NoDoubleDash(s)
    ensures forall k :: 0 <= k < j - i ==> IsSlugChar(s[i..j][k])
    ensures NoDoubleDash(s[i..j])
  {
    assert forall k :: 0 <= k < j - i ==> s[i..j][k] == s[i + k];
  }

  // ---------------------------------------------------------------------------
  // Properties of the slug

  /** The slug is empty exactly when the title has no ASCII letter or digit. */
  lemma {:induction false} SlugEmptyIff(title: string)
    ensures Slugify(title) == [] <==> forall i :: 0 <= i < |title| ==> !IsAlnum(title[i])
  {
    var r := Slugify(title);
    var low := Lower(title);
    AlnumsEmptyIff(low);
    AlnumsEmptyIff(r);
    assert (forall i :: 0 <= i < |title| ==> !IsAlnum(title[i])) <==> (forall i :: 0 <= i < |low| ==> !IsLowerAlnum(low[i]));
    assert |r| > 0 ==> IsLowerAlnum(r[0]);
  }

  /** `Collapse` leaves a string of slug characters without `--` alone. */
  lemma {:induction false} CollapseFixesSlugBody(s: string, inRun: bool)
    requires forall i :: 0 <= i < |s| ==> IsSlugChar(s[i])
    requires NoDoubleDash(s)
    requires inRun && |s| > 0 ==> s[0] != '-'
    ensures Collapse(s, inRun) == s
  {
    if |s| > 0 {
      assert s == [s[0]] + s[1..];
      CollapseFixesSlugBody(s[1..], !IsLowerAlnum(s[0]));
    }
  }

  /** Every well-formed slug is its own slug. */
  lemma SlugifyFixesSlugs(s: string)
    requires IsSlug(s)
    ensures Slugify(s) == s
  {
    LowerFixesLowerCase(s);
    CollapseFixesSlugBody(s, false);
  }

  /** Slugifying a slug changes nothing. */
  lemma SlugifyIdempotent(title: string)
    ensures Slugify(Slugify(title)) == Slugify(title)
  {
    SlugifyFixesSlugs(Slugify(title));
  }

  /** The fixed points of `Slugify` are exactly the well-formed slugs. */
  lemma SlugifyFixedPointIff(s: string)
    ensures Slugify(s) == s <==> IsSlug(s)
  {
    if IsSlug(s) {
      SlugifyFixesSlugs(s);
    }
  }

  predicate IsWord(w: string) {
    |w| > 0 && forall i :: 0 <= i < |w| ==> IsLowerAlnum(w[i])
  }

  predicate IsSeparator(run: string) {
    forall i :: 0 <= i < |run| ==> !IsAlnum(run[i])
  }

  lemma LowerSeparator(run: string)
    requires IsSeparator(run)
    ensures forall i :: 0 <= i < |Lower(run)| ==> !IsLowerAlnum(Lower(run)[i])
  {
  }

  lemma LowerAppend(a: string, b: string)
    ensures Lower(a + b) == Lower(a) + Lower(b)
  {
  }

  /** The lower-cased title: separators stay free of letters and digits and
      the words are unchanged. */
  lemma LowerOfJoin(pre: string, w1: string, sep: string, w2: string, post: string)
    requires IsWord(w1) && IsWord(w2)
    ensures Lower(pre + w1 + sep + w2 + post) == Lower(pre) + w1 + Lower(sep) + w2 + Lower(post)
  {
    LowerFixesLowerCase(w1);
    LowerFixesLowerCase(w2);
    LowerAppend(pre, w1);
    LowerAppend(pre + w1, sep);
    LowerAppend(pre + w1 + sep, w2);
    LowerAppend(pre + w1 + sep + w2, post);
  }

  lemma LastOfAppend(a: string, b: string)
    requires |b| > 0
    ensures (a + b)[|a + b| - 1] == b[|b| - 1]
  {
  }

  lemma CollapseOfJoin(P: string, w1: string, S: string, w2: string, Q: string)
    requires forall i :: 0 <= i < |P| ==> !IsLowerAlnum(P[i])
    requires forall i :: 0 <= i < |S| ==> !IsLowerAlnum(S[i])
    requires forall i :: 0 <= i < |Q| ==> !IsLowerAlnum(Q[i])
    requires |S| > 0 && IsWord(w1) && IsWord(w2)
    ensures Collapse(P + w1 + S + w2 + Q, false) == Dash(|P| > 0) + w1 + "-" + w2 + Dash(|Q| > 0)
  {
    CollapseRun(P, false);
    CollapseWord(w1, |P| > 0);
    CollapseRun(S, false);
    CollapseWord(w2, true);
    CollapseRun(Q, false);
    CollapseAppend(P, w1, false);
    CollapseAppend(P + w1, S, false);
    LastOfAppend(P, w1);
    CollapseAppend(P + w1 + S, w2, false);
    LastOfAppend(P + w1, S);
    CollapseAppend(P + w1 + S + w2, Q, false);
    LastOfAppend(P + w1 + S, w2);
  }

  lemma TrimOfJoin(lead: bool, body: string, trail: bool)
    requires |body| > 0 && body[0] != '-' && body[|body| - 1] != '-'
    ensures Trim(Dash(lead) + body + Dash(trail)) == body
  {
    var c := Dash(lead) + body + Dash(trail);
    var r := Trim(c);
    var l := |c| > 0 && c[0] == '-';
    assert l == lead;
    var t := |c| > (if l then 1 else 0) && c[|c| - 1] == '-';
    assert t == trail;
    assert c == Dash(lead) + r + Dash(trail);
    assert |r| == |body|;
    assert r == c[|Dash(lead)|..|c| - |Dash(trail)|] == body;
  }

  /** Where the dashes go: two words separated by a run of other characters,
      with optional runs before and after, become the words joined by exactly
      one dash and nothing at the ends. */
  lemma SlugJoinsWords(pre: string, w1: string, sep: string, w2: string, post: string)
    requires IsSeparator(pre) && IsSeparator(sep) && IsSeparator(post) && |sep| > 0
    requires IsWord(w1) && IsWord(w2)
    ensures Slugify(pre + w1 + sep + w2 + post) == w1 + "-" + w2
  {
    var title := pre + w1 + sep + w2 + post;
    var body := w1 + "-" + w2;
    var c := Dash(|pre| > 0) + body + Dash(|post| > 0);
    assert Collapse(Lower(title), false) == c by {
      LowerSeparator(pre);
      LowerSeparator(sep);
      LowerSeparator(post);
      LowerOfJoin(pre, w1, sep, w2, post);
      CollapseOfJoin(Lower(pre), w1, Lower(sep), w2, Lower(post));
    }
    assert body[0] == w1[0] && body[|body| - 1] == w2[|w2| - 1];
    TrimOfJoin(|pre| > 0, body, |post| > 0);
  }

  // ---------------------------------------------------------------------------
  // Form handlers

  /** `handleTitleChange`: stores the title verbatim, derives the slug and keeps
      every other field. */
  function HandleTitleChange(form: Form, title: string): (r: Form)
    ensures r.title == title && r.slug == Slugify(title)
    ensures IsSlug(r.slug) && Alnums(r.slug) == Alnums(Lower(title))
    ensures r.category == form.category && r.year == form.year
    ensures r.description == form.description && r.thumbnail == form.thumbnail
  {
    form.(title := title, slug := Slugify(title))
  }

  /** `formData.thumbnail || images[0]?.url || ""`. */
  function SubmittedThumbnail(thumbnail: string, images: seq<ImageRef>): (r: string)
    ensures thumbnail != "" ==> r == thumbnail
    ensures thumbnail == "" && |images| > 0 && images[0].url != "" ==> r == images[0].url
    ensures thumbnail == "" && (|images| == 0 || images[0].url == "") ==> r == ""
  {
    if thumbnail != "" then thumbnail
    else if |images| > 0 && images[0].url != "" then images[0].url
    else ""
  }

  /** The submitted thumbnail is missing only when neither the explicit
      thumbnail nor the first image supplies one. */
  lemma ThumbnailPresentIff(thumbnail: string, images: seq<ImageRef>)
    ensures SubmittedThumbnail(thumbnail, images) != "" <==>
            thumbnail != "" || (|images| > 0 && images[0].url != "")
  {
  }

  /** The JSON body `handleSubmit` posts to `/api/projects`. */
  function SubmitBody(form: Form, images: seq<ImageRef>): (r: ProjectsRoute.CreateBody)
    ensures r.title == Some(form.title) && r.slug == Some(form.slug)
    ensures r.category == Some(form.category) && r.year == Some(form.year)
    ensures r.description == Some(form.description)
    ensures r.thumbnail == Some(SubmittedThumbnail(form.thumbnail, images))
    ensures r.images == Some(images)
  {
    ProjectsRoute.CreateBody(
      Some(form.title), Some(form.slug), Some(form.category), Some(form.year),
      Some(SubmittedThumbnail(form.thumbnail, images)), Some(form.description),
      Some(images))
  }

  /** A submitted form passes the server's required-field check exactly when its
      title, slug, category, year and description are non-empty and a thumbnail
      is available either explicitly or from the first image. */
  lemma SubmitPassesRequiredFieldsIff(form: Form, images: seq<ImageRef>)
    ensures ProjectsRoute.HasRequiredFields(SubmitBody(form, images)) <==>
            && form.title != "" && form.slug != "" && form.category != ""
            && form.year != "" && form.description != ""
            && (form.thumbnail != "" || (|images| > 0 && images[0].url != ""))
  {
    ThumbnailPresentIff(form.thumbnail, images);
  }

  /** After typing a title, the slug part of the required-field check passes
      exactly when the title holds an ASCII letter or digit. */
  lemma {:induction false} TitleGivesSlugIff(form: Form, title: string)
    ensures HandleTitleChange(form, title).slug != "" <==> exists i :: 0 <= i < |title| && IsAlnum(title[i])
  {
    SlugEmptyIff(title);
  }
}
