/** The search box every list page of the portal has: an item is shown when one
    of its text fields, lower-cased, contains the lower-cased search term. */
module Search {
  import opened Text
  import Seqs

  /** `fields.some(f => f.toLowerCase().includes(term.toLowerCase()))`, written
      out as the pages write it, with `||` between the fields. */
  function Matches(fields: seq<string>, term: string): (b: bool)
    ensures b <==> exists i :: 0 <= i < |fields| && Includes(ToLower(fields[i]), ToLower(term))
  {
    if fields == [] then false
    else Includes(ToLower(fields[0]), ToLower(term)) || Matches(fields[1..], term)
  }

  /** The items a search term keeps, in their order. */
  function SearchFilter<T>(items: seq<T>, fieldsOf: T -> seq<string>, term: string): (r: seq<T>)
    ensures |r| <= |items|
    ensures forall x :: x in r ==> x in items && Matches(fieldsOf(x), term)
  {
    Seqs.Filter(items, x => Matches(fieldsOf(x), term))
  }

  /** An item is kept exactly when it is in the list and one of its fields
      contains the term, ignoring case. */
  lemma SearchFilterMembership<T>(items: seq<T>, fieldsOf: T -> seq<string>, term: string, x: T)
    ensures x in SearchFilter(items, fieldsOf, term) <==>
              x in items && exists i :: 0 <= i < |fieldsOf(x)| && Includes(ToLower(fieldsOf(x)[i]), ToLower(term))
  {
    Seqs.FilterMembership(items, x => Matches(fieldsOf(x), term), x);
  }

  /** The empty term keeps every item that has a field at all. */
  lemma SearchFilterEmptyTerm<T>(items: seq<T>, fieldsOf: T -> seq<string>)
    requires forall i :: 0 <= i < |items| ==> fieldsOf(items[i]) != []
    ensures SearchFilter(items, fieldsOf, "") == items
  {
    forall i | 0 <= i < |items| ensures Matches(fieldsOf(items[i]), "") {
      IncludesEmpty(ToLower(fieldsOf(items[i])[0]));
    }
    Seqs.FilterKeepsAll(items, x => Matches(fieldsOf(x), ""));
  }

  /** Searching a list split in two searches each part: the kept items keep
      their relative order. */
  lemma SearchFilterAppend<T>(a: seq<T>, b: seq<T>, fieldsOf: T -> seq<string>, term: string)
    ensures SearchFilter(a + b, fieldsOf, term) == SearchFilter(a, fieldsOf, term) + SearchFilter(b, fieldsOf, term)
  {
    Seqs.FilterAppend(a, b, x => Matches(fieldsOf(x), term));
  }

  /** The case of the term does not matter. */
  lemma SearchFilterIgnoresCase<T>(items: seq<T>, fieldsOf: T -> seq<string>, term: string)
    ensures SearchFilter(items, fieldsOf, term) == SearchFilter(items, fieldsOf, ToLower(term))
  {
    ToLowerIdempotent(term);
    Seqs.FilterAgreeing(items, x => Matches(fieldsOf(x), term), x => Matches(fieldsOf(x), ToLower(term)));
  }
}
