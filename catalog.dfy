/** Catalog resolution: a human category name becomes the upstream catalog
    filter. "All" means no filter; any other name is looked up in a fixed table. */
module Catalog {
  import opened Wrappers

  /** The category table. "All" is the only name without a catalog id. */
  const CategoryMap: map<string, Option<int>> := map[
    "All" := None,
    "Electronics" := Some(3),
    "Women" := Some(1904),
    "Men" := Some(1905),
    "Kids" := Some(1906),
    "Home" := Some(5),
    "Books & Entertainment" := Some(16),
    "Pets" := Some(2107)
  ]

  /** What a request says about the category: nothing, or one catalog id. */
  datatype CatalogFilter = NoFilter | CatalogId(id: int)

  /** Resolves a category name. "All" is recognised by name and never looked
      up; every other name is looked up, and an unknown one is a KeyError. */
  function Resolve(category: string): (r: Result<CatalogFilter, KeyError>)
    ensures r.Failure? <==> category !in CategoryMap
    ensures r.Failure? ==> r.error == KeyError(category)
    ensures r == Success(NoFilter) <==> category == "All"
    ensures r.Success? && r.value.CatalogId? ==> CategoryMap[category] == Some(r.value.id)
  {
    if category == "All" then Success(NoFilter)
    else if category in CategoryMap then
      match CategoryMap[category]
      case Some(id) => Success(CatalogId(id))
      case None => Success(NoFilter)
    else Failure(KeyError(category))
  }

  /** Distinct category names resolve to distinct filters: the ids in the
      category table are pairwise different, so choosing another category
      always sends another `catalog_ids` (or none, for "All"), and a request's
      filter names its category unambiguously. A sanity property of the table. */
  lemma ResolveInjective(a: string, b: string)
    requires a in CategoryMap && b in CategoryMap && a != b
    ensures Resolve(a) != Resolve(b)
  {
  }
}
