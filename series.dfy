/** The three parallel chart series rebuilt from the collection. */
module Series {
  import opened Wrappers
  import opened Entries

  /** Element `k` of each series mirrors entry `k`: its date, and its body-fat percentage and
      fat-free mass with a null mapped to 0 (`entry.x || 0`). */
  predicate Mirrors(s: seq<Entry>, dates: seq<Day>, bodyFat: seq<real>, fatFree: seq<real>)
  {
    && |dates| == |s| && |bodyFat| == |s| && |fatFree| == |s|
    && forall k :: 0 <= k < |s| ==>
         && dates[k] == s[k].date
         && bodyFat[k] == s[k].bodyFatPercentage.GetOr(0.0)
         && fatFree[k] == s[k].fatFreeMass.GetOr(0.0)
  }

  /** The `forEach` that refills the emptied series from the collection. */
  method BuildSeries(s: seq<Entry>) returns (dates: seq<Day>, bodyFat: seq<real>, fatFree: seq<real>)
    ensures Mirrors(s, dates, bodyFat, fatFree)
  {
    dates, bodyFat, fatFree := [], [], [];
    var i := 0;
    while i < |s|
      invariant i <= |s|
      invariant Mirrors(s[..i], dates, bodyFat, fatFree)
    {
      var entry := s[i];
      dates := dates + [entry.date];
      bodyFat := bodyFat + [entry.bodyFatPercentage.GetOr(0.0)];
      fatFree := fatFree + [entry.fatFreeMass.GetOr(0.0)];
      i := i + 1;
      assert s[..i] == s[..i - 1] + [entry];
    }
    assert s[..i] == s;
  }
}
