/** The measurement entry, the one entity of the tracker, and the two invariants
    the collection of entries is meant to keep. */
module Entries {
  import opened Wrappers

  /** A calendar day. It stands for a well-formed `YYYY-MM-DD` date string: on such
      strings `===` and the order of the parsed `Date`s agree with `==` and `<` here. */
  type Day = int

  /** One dated measurement record. Every number may be `null`. */
  datatype Entry = Entry(
    date: Day,
    weight: Option<real>,
    waist: Option<real>,
    neck: Option<real>,
    bodyFatPercentage: Option<real>,
    fatFreeMass: Option<real>)

  /** A nullable number as a JavaScript condition sees it: `null` and `0` are falsy.
      The value is kept exactly when it is truthy. */
  function Truthy(o: Option<real>): (r: Option<real>)
    ensures r == None <==> (o == None || o == Some(0.0))
    ensures r != None ==> r == o
  {
    if o == Some(0.0) then None else o
  }

  /** Ascending by date. */
  predicate Sorted(s: seq<Entry>)
  {
    forall i, j :: 0 <= i < j < |s| ==> s[i].date <= s[j].date
  }

  /** No two entries share a date. */
  predicate UniqueDates(s: seq<Entry>)
  {
    forall i, j :: 0 <= i < j < |s| ==> s[i].date != s[j].date
  }
}
