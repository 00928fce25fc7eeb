/** The catalog's three-facet filter: a selection of one value per facet
    (category, size, material), each of which may be the wildcard `all`, and
    the order-preserving filter that keeps exactly the products every facet
    admits. */
module ProductFilter {
  import opened Catalog

  /** The category facet: the wildcard or one of the three categories. */
  datatype Category = AllCategories | Houses | Toys | Accessories {
    /** The string the page compares a product's `category` field with. */
    function Literal(): string {
      match this
      case AllCategories => "all"
      case Houses => "houses"
      case Toys => "toys"
      case Accessories => "accessories"
    }
  }

  /** The size facet: the wildcard or one of the three sizes. */
  datatype Size = AllSizes | Small | Medium | Large {
    function Literal(): string {
      match this
      case AllSizes => "all"
      case Small => "small"
      case Medium => "medium"
      case Large => "large"
    }
  }

  /** The material facet: the wildcard or one of the three materials. */
  datatype Material = AllMaterials | Wood | Ceramic | Fabric {
    function Literal(): string {
      match this
      case AllMaterials => "all"
      case Wood => "wood"
      case Ceramic => "ceramic"
      case Fabric => "fabric"
    }
  }

  /** The three facet selections taken together. */
  datatype Selection = Selection(category: Category, size: Size, material: Material)

  /** The page's initial selection: every facet on the wildcard. */
  const ShowAll := Selection(AllCategories, AllSizes, AllMaterials)

  /** Reference reading of the rule: for each facet, the selection is the
      wildcard or names the product's value, and all three must hold. */
  predicate Admits(p: Product, sel: Selection) {
    && (sel.category == AllCategories || p.category == sel.category.Literal())
    && (sel.size == AllSizes || p.size == sel.size.Literal())
    && (sel.material == AllMaterials || p.material == sel.material.Literal())
  }

  /** The filter callback as the page writes it: reject the product as soon
      as a facet is set (its literal is not "all") and differs from the
      product's field; otherwise keep it. */
  predicate Matches(p: Product, sel: Selection) {
    if sel.category.Literal() != "all" && p.category != sel.category.Literal() then false
    else if sel.size.Literal() != "all" && p.size != sel.size.Literal() then false
    else if sel.material.Literal() != "all" && p.material != sel.material.Literal() then false
    else true
  }

  /** `products.filter(...)`: the products the callback keeps, in catalog
      order. */
  function Filter(c: seq<Product>, sel: Selection): (r: seq<Product>)
    ensures |r| <= |c|
    ensures forall p :: p in r ==> p in c && Matches(p, sel)
  {
    if c == [] then []
    else if Matches(c[0], sel) then [c[0]] + Filter(c[1..], sel)
    else Filter(c[1..], sel)
  }

  /** `r` can be obtained from `c` by deleting elements, keeping the order
      of those that remain. */
  predicate IsSubsequence<T(==)>(r: seq<T>, c: seq<T>)
    decreases |c|
  {
    || r == []
    || (c != [] && ((r[0] == c[0] && IsSubsequence(r[1..], c[1..])) || IsSubsequence(r, c[1..])))
  }

  /** `fine` keeps a subset of what `coarse` keeps: every facet `coarse`
      constrains, `fine` constrains to the same value. */
  predicate Narrows(fine: Selection, coarse: Selection) {
    && (coarse.category == AllCategories || coarse.category == fine.category)
    && (coarse.size == AllSizes || coarse.size == fine.size)
    && (coarse.material == AllMaterials || coarse.material == fine.material)
  }

  // ---------------------------------------------------------------------
  // The facet literals

  /** Only the wildcard of each facet carries the literal "all", and distinct
      facet values carry distinct literals, so comparing literals is
      comparing selections. */
  lemma LiteralsDistinct(c1: Category, c2: Category, s1: Size, s2: Size, m1: Material, m2: Material)
    ensures c1.Literal() == "all" <==> c1 == AllCategories
    ensures s1.Literal() == "all" <==> s1 == AllSizes
    ensures m1.Literal() == "all" <==> m1 == AllMaterials
    ensures c1.Literal() == c2.Literal() ==> c1 == c2
    ensures s1.Literal() == s2.Literal() ==> s1 == s2
    ensures m1.Literal() == m2.Literal() ==> m1 == m2
  {
  }

  /** The early-return callback keeps a product exactly when the conjunction
      of the three per-facet checks holds. */
  lemma MatchesIffAdmits(p: Product, sel: Selection)
    ensures Matches(p, sel) <==> Admits(p, sel)
  {
    LiteralsDistinct(sel.category, sel.category, sel.size, sel.size, sel.material, sel.material);
  }

  // ---------------------------------------------------------------------
  // Properties of the filter

  /** Filtering a concatenation filters each part. */
  lemma {:induction false} FilterAppend(a: seq<Product>, b: seq<Product>, sel: Selection)
    ensures Filter(a + b, sel) == Filter(a, sel) + Filter(b, sel)
  {
    if a == [] {
      assert a + b == b;
    } else {
      assert (a + b)[1..] == a[1..] + b;
      FilterAppend(a[1..], b, sel);
    }
  }

  /** With every facet on the wildcard the result is the whole catalog, in
      the same order. */
  lemma {:induction false} FilterShowAllIsIdentity(c: seq<Product>)
    ensures Filter(c, ShowAll) == c
  {
    if c != [] {
      FilterShowAllIsIdentity(c[1..]);
    }
  }

  /** A product is shown exactly when it is in the catalog and, for each
      facet, the selection is the wildcard or equals the product's field. */
  lemma {:induction false} FilterMembership(c: seq<Product>, sel: Selection, p: Product)
    ensures p in Filter(c, sel) <==> p in c && Admits(p, sel)
  {
    MatchesIffAdmits(p, sel);
    if c != [] {
      FilterMembership(c[1..], sel, p);
      assert p in c <==> p == c[0] || p in c[1..];
    }
  }

  /** With all three facets set to specific values, a product is shown
      exactly when its category, size and material all equal the selected
      ones. */
  lemma {:induction false} SpecificSelectionMembership(c: seq<Product>, sel: Selection, p: Product)
    requires sel.category != AllCategories && sel.size != AllSizes && sel.material != AllMaterials
    ensures p in Filter(c, sel) <==>
      && p in c
      && p.category == sel.category.Literal()
      && p.size == sel.size.Literal()
      && p.material == sel.material.Literal()
  {
    FilterMembership(c, sel, p);
  }

  /** `FilterMembership` for every product at once. */
  lemma FilterKeepsExactlyAdmitted(c: seq<Product>, sel: Selection)
    ensures forall p :: p in Filter(c, sel) <==> p in c && Admits(p, sel)
  {
    forall p {
      FilterMembership(c, sel, p);
    }
  }

  /** Nothing is duplicated, invented or dropped: a product occurs in the
      result as often as in the catalog when the selection admits it, and
      not at all otherwise. */
  lemma {:induction false} FilterCounts(c: seq<Product>, sel: Selection, p: Product)
    ensures multiset(Filter(c, sel))[p] == if Admits(p, sel) then multiset(c)[p] else 0
  {
    MatchesIffAdmits(p, sel);
    if c != [] {
      FilterCounts(c[1..], sel, p);
      MatchesIffAdmits(c[0], sel);
      assert c == [c[0]] + c[1..];
      assert multiset(c) == multiset{c[0]} + multiset(c[1..]);
    }
  }

  /** The result is a subsequence of the catalog: nothing is reordered. */
  lemma {:induction false} FilterIsSubsequence(c: seq<Product>, sel: Selection)
    ensures IsSubsequence(Filter(c, sel), c)
  {
    if c != [] {
      FilterIsSubsequence(c[1..], sel);
      var r := Filter(c, sel);
      if Matches(c[0], sel) {
        assert r[0] == c[0] && r[1..] == Filter(c[1..], sel);
      }
    }
  }

  /** Filtering with a narrower selection is the same as first filtering
      with the coarser one and then with the narrower one; hence the narrower
      result is a subsequence of the coarser one and never longer. */
  lemma {:induction false} FilterNarrowing(c: seq<Product>, fine: Selection, coarse: Selection)
    requires Narrows(fine, coarse)
    ensures Filter(Filter(c, coarse), fine) == Filter(c, fine)
    ensures IsSubsequence(Filter(c, fine), Filter(c, coarse))
    ensures |Filter(c, fine)| <= |Filter(c, coarse)|
  {
    if c != [] {
      FilterNarrowing(c[1..], fine, coarse);
      MatchesIffAdmits(c[0], fine);
      MatchesIffAdmits(c[0], coarse);
      if Matches(c[0], coarse) {
        assert Filter(c, coarse) == [c[0]] + Filter(c[1..], coarse);
      }
    }
    FilterIsSubsequence(Filter(c, coarse), fine);
  }

  /** Moving one facet from the wildcard to a specific value, with the other
      two fixed, never enlarges the result: the new result is a subsequence
      of the old one, hence no longer. */
  lemma {:induction false} SetOneFacetNeverEnlarges(c: seq<Product>, sel: Selection, cat: Category, size: Size, mat: Material)
    ensures IsSubsequence(Filter(c, sel.(category := cat)), Filter(c, sel.(category := AllCategories)))
    ensures IsSubsequence(Filter(c, sel.(size := size)), Filter(c, sel.(size := AllSizes)))
    ensures IsSubsequence(Filter(c, sel.(material := mat)), Filter(c, sel.(material := AllMaterials)))
    ensures |Filter(c, sel.(category := cat))| <= |Filter(c, sel.(category := AllCategories))|
    ensures |Filter(c, sel.(size := size))| <= |Filter(c, sel.(size := AllSizes))|
    ensures |Filter(c, sel.(material := mat))| <= |Filter(c, sel.(material := AllMaterials))|
  {
    FilterNarrowing(c, sel.(category := cat), sel.(category := AllCategories));
    FilterNarrowing(c, sel.(size := size), sel.(size := AllSizes));
    FilterNarrowing(c, sel.(material := mat), sel.(material := AllMaterials));
  }

  /** Filtering the filtered list again with the same selection changes
      nothing. */
  lemma {:induction false} FilterIdempotent(c: seq<Product>, sel: Selection)
    ensures Filter(Filter(c, sel), sel) == Filter(c, sel)
  {
    FilterNarrowing(c, sel, sel);
  }
}
