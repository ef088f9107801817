/** The product list page: its search box and its add-to-cart quantity.
    Prices are whole numbers here, shown in decimal. */
module ProductCatalog {

  import opened Wrappers
  import opened Seqs
  import opened Text
  import ListSearch

  type ProductId = string

  /** A product's categories as the API returns them: a list, or a single
      (possibly missing) string. */
  datatype Categories = CategoryList(items: seq<string>) | CategoryText(text: Option<string>)

  datatype Product = Product(
    id: ProductId,
    name: Option<string>,
    description: Option<string>,
    price: Option<int>,
    categories: Categories)

  /** `parts.join(", ")`. */
  function JoinComma(parts: seq<string>): string
    decreases |parts|
  {
    if |parts| == 0 then ""
    else if |parts| == 1 then parts[0]
    else parts[0] + ", " + JoinComma(parts[1..])
  }

  /** Every category occurs in the joined text. */
  lemma {:induction false} JoinCommaHoldsParts(parts: seq<string>)
    ensures forall k :: 0 <= k < |parts| ==> Includes(JoinComma(parts), parts[k])
    decreases |parts|
  {
    if |parts| == 1 {
      IncludesSelf(parts[0]);
    } else if |parts| > 1 {
      var rest := JoinComma(parts[1..]);
      var whole := JoinComma(parts);
      JoinCommaHoldsParts(parts[1..]);
      assert whole[..|parts[0]|] == parts[0];
      assert OccursAt(whole, rest, |parts[0]| + 2);
      IncludesIff(whole, rest);
      forall k | 1 <= k < |parts|
        ensures Includes(whole, parts[k])
      {
        assert parts[1..][k - 1] == parts[k];
        IncludesTransitive(parts[k], rest, whole);
      }
    }
  }

  /** The lower-cased categories text: the list joined with ", ", or the
      single string, or empty. */
  function CategoriesText(c: Categories): string
  {
    match c
    case CategoryList(items) => ToLower(JoinComma(items))
    case CategoryText(t) => ToLower(t.GetOr(""))
  }

  /** The four texts the search looks in: lower-cased name and description,
      the price in decimal, and the categories; a missing field is empty. */
  function SearchFields(p: Product): (fs: seq<string>)
    ensures |fs| == 4
  {
    [ToLower(p.name.GetOr("")), ToLower(p.description.GetOr("")),
     if p.price.Some? then IntString(p.price.value) else "",
     CategoriesText(p.categories)]
  }

  /** `handleSearch`: the products with the query in one of their fields,
      in list order. */
  function Search(all: seq<Product>, query: string): (r: seq<Product>)
    ensures IsSubseq(r, all)
    ensures forall i :: 0 <= i < |r| ==> ListSearch.AnyIncludes(SearchFields(r[i]), ToLower(query))
    ensures forall i :: 0 <= i < |all| && ListSearch.AnyIncludes(SearchFields(all[i]), ToLower(query)) ==> all[i] in r
  {
    ListSearch.SearchBy(all, SearchFields, query)
  }

  /** An empty query lists every product; the query's case is ignored; and
      a longer query never lists more. */
  lemma {:induction false} SearchLaws(all: seq<Product>, query: string, longer: string)
    ensures Search(all, "") == all
    ensures Search(all, ToLower(query)) == Search(all, query)
    ensures Includes(longer, query) ==> IsSubseq(Search(all, longer), Search(all, query))
  {
    ListSearch.EmptyQueryKeepsAll(all, SearchFields);
    ListSearch.CaseInsensitive(all, SearchFields, query);
    if Includes(longer, query) {
      ListSearch.Narrowing(all, SearchFields, query, longer);
    }
  }

  /** A query found in any one category of a category list finds the
      product, whatever the other categories are. */
  lemma {:induction false} CategoryFound(all: seq<Product>, i: nat, k: nat, query: string)
    requires i < |all| && all[i].categories.CategoryList? && k < |all[i].categories.items|
    requires Includes(ToLower(all[i].categories.items[k]), ToLower(query))
    ensures all[i] in Search(all, query)
  {
    var items := all[i].categories.items;
    JoinCommaHoldsParts(items);
    IncludesLower(JoinComma(items), items[k]);
    IncludesTransitive(ToLower(query), ToLower(items[k]), ToLower(JoinComma(items)));
    assert Includes(SearchFields(all[i])[3], ToLower(query));
  }

  /** Searching for a product's price, written out as its text, finds it. */
  lemma {:induction false} PriceFound(all: seq<Product>, i: nat)
    requires i < |all| && all[i].price.Some?
    ensures all[i] in Search(all, IntString(all[i].price.value))
  {
    var t := IntString(all[i].price.value);
    IntStringValue(all[i].price.value);
    assert forall k :: 0 <= k < |t| ==> !('A' <= t[k] <= 'Z') by {
      forall k | 0 <= k < |t| ensures !('A' <= t[k] <= 'Z') {
        if all[i].price.value < 0 && k > 0 {
          assert t[k] == t[1..][k - 1];
        }
      }
    }
    assert ToLower(t) == t;
    IncludesSelf(t);
    assert Includes(SearchFields(all[i])[2], ToLower(t));
  }

  /** A product with every field missing is found only by the empty query. */
  lemma {:induction false} BlankProductMatchesOnlyEmpty(p: Product, query: string)
    requires p.name.None? && p.description.None? && p.price.None? && p.categories == CategoryText(None)
    ensures Search([p], query) == [p] <==> ToLower(query) == ""
  {
    assert SearchFields(p) == ["", "", "", ""];
    IncludedInEmpty(ToLower(query));
    if ToLower(query) == "" {
      assert query == "";
      SearchLaws([p], query, query);
    } else {
      assert !ListSearch.AnyIncludes(SearchFields(p), ToLower(query));
      assert p !in Search([p], query);
    }
  }

  /** The quantity typed per product; `None` is an entry that did not parse
      as a number. */
  type Quantities = map<ProductId, Option<int>>

  /** `quantities[id] || 1`: the quantity shown and sent for a product. A
      missing, unparsable or zero entry falls back to 1. */
  function CartQuantity(quantities: Quantities, id: ProductId): (n: int)
    ensures n != 0
    ensures id !in quantities || quantities[id].None? || quantities[id].value == 0 ==> n == 1
    ensures id in quantities && quantities[id].Some? && quantities[id].value != 0 ==> n == quantities[id].value
  {
    if id in quantities && quantities[id].Some? && quantities[id].value != 0 then quantities[id].value else 1
  }

  /** Typing a quantity for one product changes what is sent for it alone. */
  lemma {:induction false} SetQuantity(quantities: Quantities, id: ProductId, typed: Option<int>, other: ProductId)
    requires other != id
    ensures CartQuantity(quantities[id := typed], other) == CartQuantity(quantities, other)
    ensures typed.Some? && typed.value != 0 ==> CartQuantity(quantities[id := typed], id) == typed.value
  {
  }
}
