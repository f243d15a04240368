/** The static product catalogue (lib/products.ts) and its lookup by slug. */
module Products {
  import opened Optional

  /** A catalogue entry. Prices are whole dollars in the catalogue, kept as
      integers. */
  datatype Product = Product(
    slug: string,
    title: string,
    price: int,
    image: string,
    description: string,
    specs: Option<map<string, string>>,
    tags: Option<seq<string>>,
    inStock: Option<bool>)

  const PRODUCTS: seq<Product> := [
    Product("1", "Aurora Canvas Print", 49, "/1.webp",
      "High‑resolution canvas print inspired by the first gallery image. Matte finish with vibrant color reproduction.",
      Some(map["Material" := "Premium cotton canvas", "Size" := "40 × 30 cm", "Frame" := "Optional (black / oak)"]),
      Some(["canvas", "wall-art", "limited"]), Some(true)),
    Product("2", "Noir Photo Poster", 29, "/2.webp",
      "Museum‑grade photo poster with deep blacks and crisp detail.",
      Some(map["Paper" := "200 gsm matte", "Size" := "A2"]), Some(["poster", "photo"]), Some(true)),
    Product("3", "Sunlit Print", 39, "/3.webp",
      "Archival print capturing warm highlights and soft gradients.",
      Some(map["Paper" := "Luster", "Size" := "30 × 40 cm"]), Some(["print"]), None),
    Product("4", "Minimal Study", 35, "/4.webp", "Minimal composition print.", None, Some(["minimal"]), None),
    Product("5", "Urban Geometry", 45, "/5.webp", "Geometric urban landscape print.", None, Some(["architecture"]), None),
    Product("6", "Pastel Flow", 32, "/6.webp", "Soft pastel colorway poster.", None, Some(["pastel", "poster"]), None),
    Product("7", "Coastal Breeze", 42, "/7.webp", "Coastal themed fine‑art print.", None, Some(["nature"]), None),
    Product("8", "Night Drive", 38, "/8.webp", "Moody, cinematic night scene.", None, Some(["cinematic"]), None)
  ]

  predicate SlugsDistinct(catalogue: seq<Product>) {
    forall i, j :: 0 <= i < j < |catalogue| ==> catalogue[i].slug != catalogue[j].slug
  }

  /** `catalogue.find((p) => p.slug === slug)`: the first entry with that slug. */
  function FindBySlug(catalogue: seq<Product>, slug: string): (r: Option<Product>)
    ensures r.Some? ==> r.value.slug == slug
    ensures r.None? <==> forall i :: 0 <= i < |catalogue| ==> catalogue[i].slug != slug
    ensures r.Some? ==> exists i :: 0 <= i < |catalogue| && catalogue[i] == r.value
                          && forall j :: 0 <= j < i ==> catalogue[j].slug != slug
  {
    if |catalogue| == 0 then None
    else if catalogue[0].slug == slug then Some(catalogue[0])
    else
      var r := FindBySlug(catalogue[1..], slug);
      assert forall i :: 1 <= i < |catalogue| ==> catalogue[i] == catalogue[1..][i - 1];
      r
  }

  /** With distinct slugs, every entry is found by its own slug. */
  lemma FindEveryEntry(catalogue: seq<Product>, i: nat)
    requires SlugsDistinct(catalogue) && i < |catalogue|
    ensures FindBySlug(catalogue, catalogue[i].slug) == Some(catalogue[i])
  {
  }

  /** The catalogue's slugs are pairwise distinct and its prices positive. */
  lemma CatalogueWellFormed()
    ensures SlugsDistinct(PRODUCTS)
    ensures forall i :: 0 <= i < |PRODUCTS| ==> PRODUCTS[i].price > 0
  {
  }

  /** `getProductBySlug`. */
  function GetProductBySlug(slug: string): (r: Option<Product>)
    ensures r.Some? ==> r.value.slug == slug && r.value in PRODUCTS
    ensures r.None? <==> forall i :: 0 <= i < |PRODUCTS| ==> PRODUCTS[i].slug != slug
  {
    FindBySlug(PRODUCTS, slug)
  }

  /** `allProducts`: the whole catalogue in order, each entry reachable by its slug. */
  function AllProducts(): (r: seq<Product>)
    ensures r == PRODUCTS && |r| == 8
    ensures forall i :: 0 <= i < |r| ==> GetProductBySlug(r[i].slug) == Some(r[i]) && r[i].price > 0
  {
    CatalogueWellFormed();
    forall i | 0 <= i < |PRODUCTS| ensures GetProductBySlug(PRODUCTS[i].slug) == Some(PRODUCTS[i]) {
      FindEveryEntry(PRODUCTS, i);
    }
    PRODUCTS
  }
}
