# Rodent-product catalog filter

A Dafny model of the only behaviour in the single-page catalog site for a
premium rodent-product brand. The page's catalog section shows a fixed,
ordered list of six products. Three rows of buttons filter it by category,
size and material. Each row offers a wildcard, `all`, and three specific
values. A product is shown when every facet is either `all` or equal to the
product's own field, and the shown products keep their catalog order.

Files:

- `catalog.dfy` (module `Catalog`) has the `Product` record, the six-item
  literal product list and the gallery's `slice(0, 6)`.
- `filter.dfy` (module `ProductFilter`) has the three facet types with the
  string literal each value compares as, the `Selection` of all three, the
  filter callback exactly as the page writes it (`Matches`, three early
  returns), a conjunction reading of the rule (`Admits`), the filter itself
  (`Filter`, the model of `Array.filter`) and the lemmas about them.
- `page_state.dfy` (module `PageState`) has class `IndexPage`, the page's
  component state: the product list it closes over, `activeSection` and the
  three facet selections. Each setter overwrites one field. `Visible()` is
  `filteredProducts` for the current state. `MountIndexPage` builds the
  initial state over the literal product list.
- `scenarios.dfy` (module `CatalogScenarios`) has the filter applied to the
  literal product list.

The product list is a `const` field of `IndexPage`, so no operation can
change it. The filter is a pure function of it and of the selection. The
setters' `modifies` clauses name a single field each.

The page's `Product` interface types `category`, `size` and `material` as
plain `string` (src/pages/Index.tsx:17-19), not as the facet unions. The
model keeps them as strings and compares them with the selected value's
literal, as `!==` does.

## Model

| member | source | states |
|---|---|---|
| Catalog.Products | src/pages/Index.tsx:24-85 | the page's product list: six records whose ids run from 1 to 6 in declaration order |
| Catalog.Gallery | src/pages/Index.tsx:317 | the gallery list is a prefix of the product list, of length six or the whole list when it is shorter (slice clamps) |
| Catalog.GalleryShowsWholeCatalog | src/pages/Index.tsx:317 | on the six-item literal the gallery shows the whole catalog in order |
| Catalog.ProductIdsUnique | src/pages/Index.tsx:24-85 | the literal products have pairwise distinct ids (they serve as card keys) |
| ProductFilter.LiteralsDistinct | src/pages/Index.tsx:9-11 | in each facet only the wildcard has the literal `all`, and distinct values have distinct literals |
| ProductFilter.MatchesIffAdmits | src/pages/Index.tsx:94-97 | the early-return callback keeps a product iff each facet is the wildcard or equals the product's field, all three together |
| ProductFilter.Filter | src/pages/Index.tsx:93-98 | the result is no longer than the catalog and holds only catalog products the callback accepts |
| ProductFilter.FilterAppend | src/pages/Index.tsx:93-98 | filtering a concatenation is the concatenation of the filtered parts |
| ProductFilter.FilterShowAllIsIdentity | src/pages/Index.tsx:93-98 | with all three facets `all` the result is the catalog itself, in the same order |
| ProductFilter.FilterMembership | src/pages/Index.tsx:93-98 | a product is in the result iff it is in the catalog and each facet is `all` or equals its field |
| ProductFilter.SpecificSelectionMembership | src/pages/Index.tsx:94-96 | with no facet on `all`, a product is shown iff its category, size and material all equal the selected ones |
| ProductFilter.FilterCounts | src/pages/Index.tsx:93-98 | each admitted product occurs in the result exactly as often as in the catalog, and others never: nothing duplicated, invented or dropped |
| ProductFilter.FilterIsSubsequence | src/pages/Index.tsx:93 | the result is an order-preserving subsequence of the catalog |
| ProductFilter.FilterNarrowing | src/pages/Index.tsx:94-96 | for a narrower selection, filtering equals filtering first by the coarser one; the narrower result is a subsequence of the coarser one and never longer |
| ProductFilter.SetOneFacetNeverEnlarges | src/pages/Index.tsx:94-96 | moving any one facet from `all` to a value, the others fixed, gives a subsequence of the previous result, never longer |
| ProductFilter.FilterIdempotent | src/pages/Index.tsx:93-98 | filtering the filtered list again with the same selection returns it unchanged |
| PageState.MountIndexPage | src/pages/Index.tsx:87-98 | the page mounts over the literal product list, on section `home` with every facet `all`, and shows that whole list in order |
| PageState.IndexPage.constructor | src/pages/Index.tsx:88-91 | over any product list, the state starts on section `home` with every facet `all` and shows the whole list |
| PageState.IndexPage.Visible | src/pages/Index.tsx:93-98 | the shown list is an order-preserving subsequence of the product list and holds exactly the products every current facet admits |
| PageState.IndexPage.SetCategoryFilter | src/pages/Index.tsx:180 | sets the category facet and leaves size, material and section unchanged; from `all` the shown list becomes a subsequence of the old one and is never longer |
| PageState.IndexPage.SetSizeFilter | src/pages/Index.tsx:199 | sets the size facet and leaves category, material and section unchanged; from `all` the shown list becomes a subsequence of the old one and is never longer |
| PageState.IndexPage.SetMaterialFilter | src/pages/Index.tsx:218 | sets the material facet and leaves category, size and section unchanged; from `all` the shown list becomes a subsequence of the old one and is never longer |
| PageState.IndexPage.ScrollToSection | src/pages/Index.tsx:100-104 | records the argument as the active section and leaves the facet selections unchanged |
| CatalogScenarios.HousesShowsOneAndFour | src/pages/Index.tsx:24-85 | category `houses` shows products 1 and 4, in that order |
| CatalogScenarios.SmallShowsTwoAndThree | src/pages/Index.tsx:24-85 | size `small` shows products 2 and 3, in that order |
| CatalogScenarios.SmallCeramicToysShowNothing | src/pages/Index.tsx:24-85 | `toys`/`small`/`ceramic` shows nothing |
| CatalogScenarios.FabricShowsNothing | src/pages/Index.tsx:24-85 | material `fabric` shows nothing, although its button exists |

## Left out

- Rendering: the JSX markup, CSS classes, the card animation delay, images and icons. These are presentation only.
- The `price`, `image` and `description` product fields. They are display text that no logic reads.
- Scrolling the document in `scrollToSection`. This is DOM I/O; only the update of `activeSection` is modelled.
- React's `useState` re-rendering. The state is modelled as plain fields, and `Visible()` is recomputed from them on demand.
- The Russian display labels of sections, facet buttons and product badges. They are cosmetic string literals.
- The contact form. It has no submit handler, so it has no behaviour.
- The blog entries, footer and the imported UI components (`@/components/ui/*`). They are static content or code that is not part of this model.
