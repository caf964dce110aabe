/** The static product catalog of the hammock shop: seven products, each
    offered in the same four colours, each colour with its own image path. */
module Catalog {

  /** A catalog entry. The localized names and descriptions are display text
      and are not modelled; the price is kept in whole currency units. */
  datatype Product = Product(
    id: string,
    basePrice: nat,
    colors: seq<string>,
    images: map<string, string>
  )

  /** The colour palette every product is offered in, in display order. */
  const ColorPalette: seq<string> := ["tabaco", "marfil", "negro", "blanco"]

  /** The directory the product images live under. */
  const ImageBase: string := "/products"

  /** The product ids, in catalog order. */
  const CatalogIds: seq<string> :=
    ["matrimonial", "unipersonal", "familiar", "hamacasilla", "chino", "montanera", "ninos"]

  /** The image path of product `id` in colour `c`: `/products/<id>/<c>.jpg`. */
  function ImagePath(id: string, c: string): string
  {
    ImageBase + "/" + id + "/" + c + ".jpg"
  }

  /** The dictionary `{c: ImagePath(id, c) for c in cs}`. Every key gets the
      same value whichever occurrence of it is inserted last, so the order of
      insertion does not matter here. */
  function ImageMap(id: string, cs: seq<string>): map<string, string>
  {
    map c | c in cs :: ImagePath(id, c)
  }

  /** One catalog entry: every product shares the palette and builds its
      images from it. */
  function MakeProduct(id: string, basePrice: nat): Product
  {
    Product(id, basePrice, ColorPalette, ImageMap(id, ColorPalette))
  }

  /** Every entry built by MakeProduct keeps the structural invariant. */
  lemma MakeProductWellFormed(id: string, basePrice: nat)
    ensures WellFormed(MakeProduct(id, basePrice))
  {
  }

  /** The structural invariant every catalog entry is built to satisfy:
      the palette as colours, and exactly one image per colour, at the
      product's own path. */
  ghost predicate WellFormed(p: Product)
  {
    && p.colors == ColorPalette
    && p.images.Keys == set c | c in p.colors
    && (forall c :: c in p.images ==> p.images[c] == ImagePath(p.id, c))
  }

  /** The catalog, in its fixed order. */
  function BuildProducts(): (ps: seq<Product>)
    ensures |ps| == |CatalogIds| == 7
    ensures forall i :: 0 <= i < |ps| ==> ps[i].id == CatalogIds[i]
  {
    [
      MakeProduct("matrimonial", 220),
      MakeProduct("unipersonal", 140),
      MakeProduct("familiar", 280),
      MakeProduct("hamacasilla", 160),
      MakeProduct("chino", 180),
      MakeProduct("montanera", 200),
      MakeProduct("ninos", 110)
    ]
  }

  /** Every catalog entry has the palette as its colours and exactly one
      image per colour, at `/products/<id>/<colour>.jpg`. */
  lemma CatalogWellFormed()
    ensures forall i :: 0 <= i < |BuildProducts()| ==> WellFormed(BuildProducts()[i])
  {
  }

  /** No two entries of `ps` share an id. */
  ghost predicate DistinctIds(ps: seq<Product>)
  {
    forall i, j :: 0 <= i < j < |ps| ==> ps[i].id != ps[j].id
  }

  /** The dictionary `{p.id: p for p in ps}`, built as Python builds it:
      one insertion per product, from left to right, a later entry replacing
      an earlier one with the same id. */
  function IndexById(ps: seq<Product>): (m: map<string, Product>)
    ensures m.Keys == set p | p in ps :: p.id
    ensures forall id :: id in m ==> m[id] in ps && m[id].id == id
  {
    if ps == [] then map[]
    else IndexById(ps[..|ps| - 1])[ps[|ps| - 1].id := ps[|ps| - 1]]
  }

  /** The catalog ids are pairwise distinct. */
  lemma CatalogIdsDistinct()
    ensures DistinctIds(BuildProducts())
  {
  }

  /** When ids are distinct, indexing by id loses no product: the index has
      one entry per product, and each id leads back to its own product. */
  lemma {:induction false} IndexByIdKeepsAll(ps: seq<Product>)
    requires DistinctIds(ps)
    ensures |IndexById(ps)| == |ps|
    ensures forall i :: 0 <= i < |ps| ==> IndexById(ps)[ps[i].id] == ps[i]
  {
    if ps != [] {
      var init, last := ps[..|ps| - 1], ps[|ps| - 1];
      assert forall k :: 0 <= k < |init| ==> init[k] == ps[k];
      IndexByIdKeepsAll(init);
      var m := IndexById(init);
      assert IndexById(ps) == m[last.id := last];
      assert forall k :: 0 <= k < |init| ==> init[k].id != last.id;
      assert last.id !in m;
      forall i | 0 <= i < |ps| ensures IndexById(ps)[ps[i].id] == ps[i] {
        if i < |ps| - 1 {
          assert init[i] == ps[i];
          assert ps[i].id != last.id;
        }
      }
    }
  }

  /** Indexing the catalog by id keeps all seven products. */
  lemma CatalogIndex()
    ensures IndexById(BuildProducts()).Keys == set i | i in CatalogIds
    ensures |IndexById(BuildProducts())| == 7
    ensures forall i :: 0 <= i < 7 ==> IndexById(BuildProducts())[CatalogIds[i]] == BuildProducts()[i]
  {
    var ps := BuildProducts();
    CatalogIdsDistinct();
    IndexByIdKeepsAll(ps);
    forall id | id in CatalogIds ensures id in IndexById(ps) {
      var i :| 0 <= i < |CatalogIds| && CatalogIds[i] == id;
      assert ps[i] in ps;
    }
  }

  /** In `id + "/" + rest`, with no `/` inside `id`, the first `/` is the
      one right after `id`. */
  lemma SlashEndsId(id: string, rest: string)
    requires '/' !in id
    ensures (id + "/" + rest)[|id|] == '/'
    ensures forall k :: 0 <= k < |id + "/" + rest| && (id + "/" + rest)[k] == '/' ==> |id| <= k
  {
  }

  /** An image path determines the product and the colour it shows, for
      any product id without a `/` in it. */
  lemma ImagePathInjective(id1: string, c1: string, id2: string, c2: string)
    requires '/' !in id1 && '/' !in id2
    requires ImagePath(id1, c1) == ImagePath(id2, c2)
    ensures id1 == id2 && c1 == c2
  {
    var r := ImagePath(id1, c1);
    var n := |ImageBase + "/"|;
    assert r == (ImageBase + "/") + (id1 + "/" + c1 + ".jpg");
    assert r == (ImageBase + "/") + (id2 + "/" + c2 + ".jpg");
    var t1, t2 := id1 + "/" + c1 + ".jpg", id2 + "/" + c2 + ".jpg";
    assert t1 == r[n..] == t2;
    SlashEndsId(id1, c1 + ".jpg");
    SlashEndsId(id2, c2 + ".jpg");
    // The first `/` of t1 == t2 sits right after id1 and right after id2.
    assert t2[|id1|] == t1[|id1|] == '/';
    assert t1[|id2|] == t2[|id2|] == '/';
    assert id1 == t1[..|id1|] == t2[..|id2|] == id2;
    assert c1 == t1[|id1| + 1..|t1| - 4] == t2[|id2| + 1..|t2| - 4] == c2;
  }

  /** In a catalog of well-formed entries with distinct, slash-free ids,
      every image shows exactly one product in one colour: two (entry,
      colour) pairs with the same image path are the same pair. */
  lemma ImagesDistinct(ps: seq<Product>, i: nat, j: nat, c: string, d: string)
    requires DistinctIds(ps)
    requires forall k :: 0 <= k < |ps| ==> WellFormed(ps[k]) && '/' !in ps[k].id
    requires i < |ps| && j < |ps|
    requires c in ps[i].images && d in ps[j].images
    requires ps[i].images[c] == ps[j].images[d]
    ensures i == j && c == d
  {
    ImagePathInjective(ps[i].id, c, ps[j].id, d);
  }

  /** No catalog id contains a `/`. */
  lemma CatalogIdsSlashFree()
    ensures forall k :: 0 <= k < |BuildProducts()| ==> '/' !in BuildProducts()[k].id
  {
  }

  /** No two of the catalog's 28 images share a path: an image path names
      one product and one colour. */
  lemma CatalogImagesDistinct(i: nat, j: nat, c: string, d: string)
    requires i < |BuildProducts()| && j < |BuildProducts()|
    requires c in BuildProducts()[i].images && d in BuildProducts()[j].images
    requires BuildProducts()[i].images[c] == BuildProducts()[j].images[d]
    ensures i == j && c == d
  {
    CatalogIdsDistinct();
    CatalogWellFormed();
    CatalogIdsSlashFree();
    ImagesDistinct(BuildProducts(), i, j, c, d);
  }
}
