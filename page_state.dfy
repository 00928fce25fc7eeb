/** The catalog page's component state: the active navigation section and
    the three facet selections. Each is overwritten by its own setter, one
    field at a time; the product list is a separate immutable value. */
module PageState {
  import opened Catalog
  import opened ProductFilter

  /** Mounting the page: its state over the page's literal product list,
      which it shows in full. */
  method MountIndexPage() returns (page: IndexPage)
    ensures fresh(page)
    ensures page.catalog == Products()
    ensures page.activeSection == "home" && page.CurrentSelection() == ShowAll
    ensures page.Visible() == Products()
  {
    page := new IndexPage(Products());
  }

  class IndexPage {
    /** The page's product list; a `const`, so no operation can change it. */
    const catalog: seq<Product>
    var activeSection: string
    var categoryFilter: Category
    var sizeFilter: Size
    var materialFilter: Material

    /** The three facet selections as one value. */
    function CurrentSelection(): Selection
      reads this
    {
      Selection(categoryFilter, sizeFilter, materialFilter)
    }

    /** `filteredProducts`: the products the current selection shows, in
        catalog order; a product is shown exactly when every facet is the
        wildcard or equals its field. */
    function Visible(): (r: seq<Product>)
      reads this
      ensures IsSubsequence(r, catalog)
      ensures forall p :: p in r <==> p in catalog && Admits(p, CurrentSelection())
    {
      FilterIsSubsequence(catalog, CurrentSelection());
      FilterKeepsExactlyAdmitted(catalog, CurrentSelection());
      Filter(catalog, CurrentSelection())
    }

    /** The initial state over a product list: section "home", every facet
        on the wildcard, so the whole list is shown. */
    constructor (products: seq<Product>)
      ensures catalog == products
      ensures activeSection == "home"
      ensures CurrentSelection() == ShowAll
      ensures Visible() == catalog
    {
      catalog := products;
      activeSection := "home";
      categoryFilter := AllCategories;
      sizeFilter := AllSizes;
      materialFilter := AllMaterials;
      new;
      FilterShowAllIsIdentity(catalog);
    }

    /** A button of the category row: sets the category facet only. */
    method SetCategoryFilter(cat: Category)
      modifies this`categoryFilter
      ensures CurrentSelection() == old(CurrentSelection()).(category := cat)
      ensures old(categoryFilter) == AllCategories ==>
        IsSubsequence(Visible(), old(Visible())) && |Visible()| <= |old(Visible())|
    {
      ghost var before := CurrentSelection();
      categoryFilter := cat;
      SetOneFacetNeverEnlarges(catalog, before, cat, before.size, before.material);
    }

    /** A button of the size row: sets the size facet only. */
    method SetSizeFilter(size: Size)
      modifies this`sizeFilter
      ensures CurrentSelection() == old(CurrentSelection()).(size := size)
      ensures old(sizeFilter) == AllSizes ==>
        IsSubsequence(Visible(), old(Visible())) && |Visible()| <= |old(Visible())|
    {
      ghost var before := CurrentSelection();
      sizeFilter := size;
      SetOneFacetNeverEnlarges(catalog, before, before.category, size, before.material);
    }

    /** A button of the material row: sets the material facet only. */
    method SetMaterialFilter(mat: Material)
      modifies this`materialFilter
      ensures CurrentSelection() == old(CurrentSelection()).(material := mat)
      ensures old(materialFilter) == AllMaterials ==>
        IsSubsequence(Visible(), old(Visible())) && |Visible()| <= |old(Visible())|
    {
      ghost var before := CurrentSelection();
      materialFilter := mat;
      SetOneFacetNeverEnlarges(catalog, before, before.category, before.size, mat);
    }

    /** `scrollToSection`: records the section as active and leaves the
        filter untouched. Scrolling the document is not modelled. */
    method ScrollToSection(section: string)
      modifies this`activeSection
      ensures activeSection == section
      ensures CurrentSelection() == old(CurrentSelection())
    {
      activeSection := section;
    }
  }
}
