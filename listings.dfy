/** Normalisation of one raw upstream item into the fixed listing record. */
module Listings {
  import opened Wrappers

  /** The site every listing link is rooted at. */
  const SiteRoot: string := "https://www.vinted.fr"

  /** The condition table: upstream status codes 1..5 and their labels. */
  const ConditionMap: map<int, string> := map[
    1 := "New with tag",
    2 := "New without tag",
    3 := "Very good",
    4 := "Good",
    5 := "Satisfactory"
  ]

  /** The `brand` object of a raw item; its `title` key may be absent. */
  datatype RawBrand = RawBrand(title: Option<string>)

  /** One item of an upstream page. `None` stands for a key absent from the JSON object. */
  datatype RawItem = RawItem(
    id: Option<int>,
    title: Option<string>,
    price: Option<string>,
    brand: Option<RawBrand>,
    statusId: Option<int>,
    url: Option<string>,
    createdAt: Option<string>)

  /** The normalised record (one row of the result table). `created` stays the upstream string. */
  datatype Listing = Listing(
    id: int,
    title: string,
    price: string,
    brand: string,
    condition: string,
    link: string,
    created: string)

  /** The keys a raw item must have, in the order the record literal reads them. */
  const RequiredKeys: seq<string> := ["id", "title", "price", "url"]

  /** Whether the raw item has the `k`-th required key of `RequiredKeys`. */
  predicate HasKey(item: RawItem, k: int) {
    if k == 0 then item.id.Some?
    else if k == 1 then item.title.Some?
    else if k == 2 then item.price.Some?
    else if k == 3 then item.url.Some?
    else true
  }

  /** Brand: the brand object's title, or "Unknown" when the object or its title is absent. */
  function BrandName(brand: Option<RawBrand>): (name: string)
    ensures brand.Some? && brand.value.title.Some? ==> name == brand.value.title.value
    ensures brand.None? || brand.value.title.None? ==> name == "Unknown"
  {
    brand.GetOr(RawBrand(None)).title.GetOr("Unknown")
  }

  /** Condition: the label of the status code; a missing code reads as 0, and
      every code outside the table gives "Unknown". */
  function ConditionLabel(status: Option<int>): (name: string)
    ensures name != "Unknown" <==> status.Some? && 1 <= status.value <= 5
    ensures status.Some? && status.value in ConditionMap ==> name == ConditionMap[status.value]
    ensures name == "Unknown" || name in ConditionMap.Values
  {
    var code := status.GetOr(0);
    if code in ConditionMap then ConditionMap[code] else "Unknown"
  }

  /** Normalises one raw item. A missing id, title, price or url is a KeyError
      naming the first missing one in that order. */
  function Normalise(item: RawItem): (r: Result<Listing, KeyError>)
    ensures r.Success? <==> forall k :: 0 <= k < |RequiredKeys| ==> HasKey(item, k)
    ensures r.Failure? ==>
      exists k :: 0 <= k < |RequiredKeys| && r.error == KeyError(RequiredKeys[k]) && !HasKey(item, k)
        && forall j :: 0 <= j < k ==> HasKey(item, j)
  {
    if item.id.None? then
      assert !HasKey(item, 0);
      Failure(KeyError("id"))
    else if item.title.None? then
      assert HasKey(item, 0) && !HasKey(item, 1);
      Failure(KeyError("title"))
    else if item.price.None? then
      assert HasKey(item, 0) && HasKey(item, 1) && !HasKey(item, 2);
      Failure(KeyError("price"))
    else if item.url.None? then
      assert HasKey(item, 0) && HasKey(item, 1) && HasKey(item, 2) && !HasKey(item, 3);
      Failure(KeyError("url"))
    else
      Success(Listing(
        item.id.value,
        item.title.value,
        item.price.value,
        BrandName(item.brand),
        ConditionLabel(item.statusId),
        SiteRoot + item.url.value,
        item.createdAt.GetOr("")))
  }

  /** The fields of a normalised record: id, title and price copied, brand and
      condition by their defaults, the link rooted at the site, and the creation
      date as given or empty. */
  lemma NormaliseFields(item: RawItem)
    ensures var r := Normalise(item);
      r.Success? ==>
      && item.id.Some? && item.title.Some? && item.price.Some? && item.url.Some?
      && r.value.id == item.id.value
      && r.value.title == item.title.value
      && r.value.price == item.price.value
      && r.value.brand == BrandName(item.brand)
      && r.value.condition == ConditionLabel(item.statusId)
      && |r.value.link| == |SiteRoot| + |item.url.value|
      && r.value.link[..|SiteRoot|] == SiteRoot
      && r.value.link[|SiteRoot|..] == item.url.value
      && r.value.created == item.createdAt.GetOr("")
  {
  }
}
