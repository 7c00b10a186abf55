/** The tracker's state: the entry collection and the three chart series, which the page's
    event handlers update in place. */
module Tracker {
  import opened Wrappers
  import opened Entries
  import opened Derivation
  import opened Collection
  import opened Series

  class Store {
    var entries: seq<Entry>
    var dates: seq<Day>
    var bodyFatPercentages: seq<real>
    var fatFreeMasses: seq<real>

    /** The chart series show the collection. */
    ghost predicate Valid()
      reads this
    {
      Mirrors(entries, dates, bodyFatPercentages, fatFreeMasses)
    }

    /** Holds in every state the page reaches: the series are refilled only at load and on a
        successful submit, and a delete or an edit only shortens the collection. */
    ghost predicate Reachable()
      reads this
    {
      |dates| >= |entries|
    }

    /** Page load: the collection read back from storage, and the series filled from it. */
    constructor (stored: seq<Entry>)
      ensures Valid() && Reachable() && entries == stored
    {
      var d, b, f := BuildSeries(stored);
      entries, dates, bodyFatPercentages, fatFreeMasses := stored, d, b, f;
    }

    /** `sortEntries`. */
    method SortEntries()
      modifies this`entries
      ensures entries == SortByDate(old(entries))
    {
      entries := SortByDate(entries);
    }

    /** Truncating the three series and refilling them from the collection. */
    method RebuildSeries()
      modifies this`dates, this`bodyFatPercentages, this`fatFreeMasses
      ensures Valid()
    {
      dates, bodyFatPercentages, fatFreeMasses := BuildSeries(entries);
    }

    /** `handleFormSubmit`: a form whose date is already taken is refused and changes nothing;
        otherwise the derived entry is added, the collection re-sorted and the series rebuilt. */
    method HandleFormSubmit(input: FormInput, navy: BodyFatFormula) returns (added: bool)
      modifies this
      ensures added ==> Valid() && Reachable()
      ensures Add(old(entries), Derive(input, navy)) == if added then Success(entries) else Failure(DuplicateDate)
      ensures !added ==> unchanged(this)
      ensures added ==> |entries| == |old(entries)| + 1 && Derive(input, navy) in entries && Sorted(entries)
      ensures UniqueDates(old(entries)) ==> UniqueDates(entries)
    {
      if HasDate(entries, input.date) {
        return false;
      }
      var entry := Derive(input, navy);
      entries := entries + [entry];
      SortEntries();
      RebuildSeries();
      added := true;
      AddGrowsByOne(old(entries), entry);
    }

    /** `deleteEntry` with the series rebuilt: entry `index` goes, the collection stays in
        date order and the chart shows what is left. */
    method DeleteEntry(index: nat)
      modifies this
      ensures Valid()
      ensures entries == Delete(old(entries), index)
      ensures Sorted(entries)
      ensures UniqueDates(old(entries)) ==> UniqueDates(entries)
    {
      entries := Splice(entries, index);
      SortEntries();
      RebuildSeries();
      SortByDateSortsAndPermutes(Splice(old(entries), index));
      if UniqueDates(old(entries)) {
        if index < |old(entries)| { DeleteRemovesOne(old(entries), index); } else { SortByDateUnique(old(entries)); }
      }
    }

    /** `deleteEntry` as written: the series are not rebuilt, so after removing an entry the
        chart no longer shows the collection. */
    method DeleteEntryAsWritten(index: nat)
      requires Reachable()
      modifies this`entries
      ensures Reachable()
      ensures entries == Delete(old(entries), index)
      ensures index < |old(entries)| ==> !Valid()
    {
      entries := Splice(entries, index);
      SortEntries();
      if index < |old(entries)| {
        DeleteRemovesOne(old(entries), index);
      } else {
        SortByDateSortsAndPermutes(old(entries));
      }
    }

    /** `editEntry` with the series rebuilt and the form left holding the edited entry:
        the collection changes exactly as by `DeleteEntry`, and the entry's date, weight,
        waist and neck are handed back for the form. */
    method EditEntry(index: nat) returns (form: FormFields)
      requires index < |entries|
      modifies this
      ensures form == FormOf(old(entries)[index])
      ensures Valid()
      ensures entries == Delete(old(entries), index)
      ensures Sorted(entries)
      ensures UniqueDates(old(entries)) ==> UniqueDates(entries)
    {
      form := FormOf(entries[index]);
      DeleteEntry(index);
    }

    /** `editEntry` as written: the series are not rebuilt, and `prefillForm` replaces the
        form's fields with those of the latest remaining entry. */
    method EditEntryAsWritten(index: nat) returns (form: FormFields)
      requires Reachable() && index < |entries|
      modifies this`entries
      ensures Reachable()
      ensures form == FormAfterEditAsWritten(old(entries), index)
      ensures entries == Delete(old(entries), index)
      ensures !Valid()
    {
      form := FormOf(entries[index]);
      DeleteEntryAsWritten(index);
      if |entries| > 0 {
        form := FormOf(entries[|entries| - 1]);
      }
    }
  }

  /** Series that mirrored a collection no longer mirror it once an entry is deleted. */
  lemma StaleSeriesAfterDelete(s: seq<Entry>, i: nat, dates: seq<Day>, bodyFat: seq<real>, fatFree: seq<real>)
    requires Mirrors(s, dates, bodyFat, fatFree) && i < |s|
    ensures !Mirrors(Delete(s, i), dates, bodyFat, fatFree)
  {
    DeleteRemovesOne(s, i);
  }
}
