/** The product records of the rodent-product catalog and the fixed, ordered
    list of six products the page is built from. The list is an immutable
    value: nothing in the page creates, updates or deletes a product. */
module Catalog {

  /** One catalog entry. The three facet fields are plain strings, as in the
      page's `Product` interface; the display-only fields (price, image,
      description) are not modelled. */
  datatype Product = Product(
    id: int,
    name: string,
    category: string,
    size: string,
    material: string
  )

  /** The ids of a list of products, in order: how the concrete scenarios
      name a result. */
  function Ids(ps: seq<Product>): (r: seq<int>)
    ensures |r| == |ps|
    ensures forall k :: 0 <= k < |ps| ==> r[k] == ps[k].id
  {
    if ps == [] then [] else [ps[0].id] + Ids(ps[1..])
  }

  /** The page's literal product list, in declaration order: six products
      whose ids run from 1 to 6 in that order. */
  function Products(): (r: seq<Product>)
    ensures |r| == 6
    ensures forall k :: 0 <= k < |r| ==> r[k].id == k + 1
  {
    [
      Product(1, "Элегантный домик", "houses", "medium", "wood"),
      Product(2, "Игрушка Nature", "toys", "small", "wood"),
      Product(3, "Керамическая миска Luxe", "accessories", "small", "ceramic"),
      Product(4, "Премиум домик XL", "houses", "large", "wood"),
      Product(5, "Набор игрушек", "toys", "medium", "wood"),
      Product(6, "Керамический набор", "accessories", "medium", "ceramic")
    ]
  }

  /** The gallery shows `slice(0, 6)` of the product list: the first six
      products, or the whole list when it is shorter (a JavaScript slice
      clamps its end to the length). */
  function Gallery(ps: seq<Product>): (r: seq<Product>)
    ensures |r| == if |ps| < 6 then |ps| else 6
    ensures r <= ps
  {
    if |ps| < 6 then ps else ps[..6]
  }

  /** On the six-item literal the gallery is the whole catalog, in order. */
  lemma GalleryShowsWholeCatalog()
    ensures Gallery(Products()) == Products()
  {
  }

  /** Product ids in the literal are pairwise distinct. */
  lemma ProductIdsUnique()
    ensures forall i, j :: 0 <= i < j < |Products()| ==> Products()[i].id != Products()[j].id
  {
  }
}
