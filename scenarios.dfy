/** The filter applied to the page's own six-product list. */
module CatalogScenarios {
  import opened Catalog
  import opened ProductFilter

  /** Category "houses" shows products 1 and 4, in that order. */
  lemma HousesShowsOneAndFour()
    ensures Ids(Filter(Products(), Selection(Houses, AllSizes, AllMaterials))) == [1, 4]
  {
  }

  /** Size "small" shows products 2 and 3, in that order. */
  lemma SmallShowsTwoAndThree()
    ensures Ids(Filter(Products(), Selection(AllCategories, Small, AllMaterials))) == [2, 3]
  {
  }

  /** No product is a small ceramic toy. */
  lemma SmallCeramicToysShowNothing()
    ensures Filter(Products(), Selection(Toys, Small, Ceramic)) == []
  {
  }

  /** No product is made of fabric, although the material row offers it. */
  lemma FabricShowsNothing()
    ensures Filter(Products(), Selection(AllCategories, AllSizes, Fabric)) == []
  {
  }
}
