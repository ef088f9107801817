/** The search box of the admin lists: an item stays when the lower-cased
    query occurs in at least one of its searchable fields. Each list says
    which fields it searches and how it renders them (`fields`). */
module ListSearch {

  import opened Seqs
  import opened Text

  /** Some field contains the needle. */
  predicate AnyIncludes(fields: seq<string>, needle: string)
  {
    exists k :: 0 <= k < |fields| && Includes(fields[k], needle)
  }

  function Hit<T>(fields: T -> seq<string>, query: string): T -> bool
  {
    (x: T) => AnyIncludes(fields(x), ToLower(query))
  }

  /** `items.filter(...)` with the lower-cased query. */
  function SearchBy<T>(items: seq<T>, fields: T -> seq<string>, query: string): (r: seq<T>)
    ensures IsSubseq(r, items)
    ensures forall i :: 0 <= i < |r| ==> AnyIncludes(fields(r[i]), ToLower(query))
    ensures forall i :: 0 <= i < |items| && AnyIncludes(fields(items[i]), ToLower(query)) ==> items[i] in r
  {
    FilterIsSubseq(items, Hit(fields, query));
    Filter(items, Hit(fields, query))
  }

  /** The empty query keeps every item that has at least one field. */
  lemma {:induction false} EmptyQueryKeepsAll<T>(items: seq<T>, fields: T -> seq<string>)
    requires forall i :: 0 <= i < |items| ==> |fields(items[i])| > 0
    ensures SearchBy(items, fields, "") == items
  {
    forall i | 0 <= i < |items|
      ensures Hit(fields, "")(items[i])
    {
      IncludesEmpty(fields(items[i])[0]);
    }
    FilterKeepsAll(items, Hit(fields, ""));
  }

  /** The query's letter case does not matter. */
  lemma {:induction false} CaseInsensitive<T>(items: seq<T>, fields: T -> seq<string>, query: string)
    ensures SearchBy(items, fields, ToLower(query)) == SearchBy(items, fields, query)
  {
    ToLowerIdempotent(query);
    FilterAgree(items, Hit(fields, ToLower(query)), Hit(fields, query));
  }

  /** Typing more narrows the list: when `query` occurs in `longer`, what
      `longer` keeps is a subsequence of what `query` keeps. */
  lemma {:induction false} Narrowing<T>(items: seq<T>, fields: T -> seq<string>, query: string, longer: string)
    requires Includes(longer, query)
    ensures IsSubseq(SearchBy(items, fields, longer), SearchBy(items, fields, query))
  {
    IncludesLower(longer, query);
    forall i | 0 <= i < |items| && Hit(fields, longer)(items[i])
      ensures Hit(fields, query)(items[i])
    {
      var fs := fields(items[i]);
      var k :| 0 <= k < |fs| && Includes(fs[k], ToLower(longer));
      IncludesTransitive(ToLower(query), ToLower(longer), fs[k]);
    }
    FilterMonotone(items, Hit(fields, longer), Hit(fields, query));
  }
}
