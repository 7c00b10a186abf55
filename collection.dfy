/** The entry collection as values: the duplicate check, the sort, and what adding,
    deleting and editing do to a sequence of entries. */
module Collection {
  import opened Wrappers
  import opened Entries
  import opened Derivation

  /** The only way an add is refused. */
  datatype Error = DuplicateDate

  /** `isDateDuplicate`: some entry already has date `d`. */
  function HasDate(s: seq<Entry>, d: Day): (b: bool)
    ensures b <==> exists k :: 0 <= k < |s| && s[k].date == d
  {
    |s| > 0 && (s[0].date == d || HasDate(s[1..], d))
  }

  /** Places `e` before the first entry whose date is not earlier than its own. */
  function Insert(e: Entry, s: seq<Entry>): seq<Entry>
  {
    if s == [] || e.date <= s[0].date then [e] + s else [s[0]] + Insert(e, s[1..])
  }

  /** `sortEntries`: the stable sort of `Array.prototype.sort` with the by-date comparator. */
  function SortByDate(s: seq<Entry>): seq<Entry>
  {
    if s == [] then [] else Insert(s[0], SortByDate(s[1..]))
  }

  /** The entries of `s` dated `d`, in order. */
  function OnDate(s: seq<Entry>, d: Day): seq<Entry>
  {
    if s == [] then [] else (if s[0].date == d then [s[0]] else []) + OnDate(s[1..], d)
  }

  lemma SortedCons(a: Entry, t: seq<Entry>)
    requires Sorted(t)
    requires forall x :: x in t ==> a.date <= x.date
    ensures Sorted([a] + t)
  {
    var s := [a] + t;
    forall i, j | 0 <= i < j < |s| ensures s[i].date <= s[j].date {
      if i == 0 { assert s[j] == t[j - 1]; } else { assert s[i] == t[i - 1] && s[j] == t[j - 1]; }
    }
  }

  lemma UniqueCons(a: Entry, t: seq<Entry>)
    ensures UniqueDates([a] + t) <==> UniqueDates(t) && !HasDate(t, a.date)
  {
    var s := [a] + t;
    if UniqueDates(s) {
      forall i, j | 0 <= i < j < |t| ensures t[i].date != t[j].date {
        assert t[i] == s[i + 1] && t[j] == s[j + 1];
      }
      forall k | 0 <= k < |t| ensures t[k].date != a.date {
        assert s[0] == a && t[k] == s[k + 1];
      }
    }
    if UniqueDates(t) && !HasDate(t, a.date) {
      forall i, j | 0 <= i < j < |s| ensures s[i].date != s[j].date {
        if i == 0 { assert s[j] == t[j - 1]; } else { assert s[i] == t[i - 1] && s[j] == t[j - 1]; }
      }
    }
  }

  /** A date occurs in a sequence exactly when it occurs in any permutation of it. */
  lemma HasDatePermutation(a: seq<Entry>, b: seq<Entry>, d: Day)
    requires multiset(a) == multiset(b)
    ensures HasDate(a, d) == HasDate(b, d)
  {
    if HasDate(a, d) {
      var k :| 0 <= k < |a| && a[k].date == d;
      assert a[k] in multiset(b);
      var m :| 0 <= m < |b| && b[m] == a[k];
    }
    if HasDate(b, d) {
      var k :| 0 <= k < |b| && b[k].date == d;
      assert b[k] in multiset(a);
      var m :| 0 <= m < |a| && a[m] == b[k];
    }
  }

  lemma {:induction false} InsertPermutes(e: Entry, s: seq<Entry>)
    ensures multiset(Insert(e, s)) == multiset(s) + multiset{e}
    ensures |Insert(e, s)| == |s| + 1
  {
    if s != [] && s[0].date < e.date {
      InsertPermutes(e, s[1..]);
      assert s == [s[0]] + s[1..];
    }
  }

  lemma {:induction false} InsertSorted(e: Entry, s: seq<Entry>)
    requires Sorted(s)
    ensures Sorted(Insert(e, s))
  {
    if s == [] || e.date <= s[0].date {
      forall x | x in s ensures e.date <= x.date {
        var k :| 0 <= k < |s| && s[k] == x;
      }
      SortedCons(e, s);
    } else {
      var t := Insert(e, s[1..]);
      InsertSorted(e, s[1..]);
      InsertPermutes(e, s[1..]);
      forall x | x in t ensures s[0].date <= x.date {
        assert x in multiset(t);
        if x != e {
          var k :| 0 <= k < |s[1..]| && s[1..][k] == x;
          assert s[k + 1] == x;
        }
      }
      SortedCons(s[0], t);
    }
  }

  lemma {:induction false} InsertUnique(e: Entry, s: seq<Entry>)
    requires UniqueDates(s) && !HasDate(s, e.date)
    ensures UniqueDates(Insert(e, s))
  {
    if s == [] || e.date <= s[0].date {
      UniqueCons(e, s);
    } else {
      assert s == [s[0]] + s[1..];
      UniqueCons(s[0], s[1..]);
      assert !HasDate(s[1..], e.date) by {
        forall k | 0 <= k < |s[1..]| ensures s[1..][k].date != e.date { assert s[1..][k] == s[k + 1]; }
      }
      InsertUnique(e, s[1..]);
      InsertPermutes(e, s[1..]);
      assert multiset(Insert(e, s[1..])) == multiset([e] + s[1..]);
      HasDatePermutation(Insert(e, s[1..]), [e] + s[1..], s[0].date);
      assert !HasDate([e] + s[1..], s[0].date) by {
        assert s[0].date != e.date;
        UniqueCons(e, s[1..]);
        forall k | 0 <= k < |[e] + s[1..]| ensures ([e] + s[1..])[k].date != s[0].date {
          if k > 0 { assert ([e] + s[1..])[k] == s[1..][k - 1]; }
        }
      }
      UniqueCons(s[0], Insert(e, s[1..]));
    }
  }

  lemma {:induction false} InsertOnDate(e: Entry, s: seq<Entry>, d: Day)
    ensures OnDate(Insert(e, s), d) == (if e.date == d then [e] else []) + OnDate(s, d)
  {
    var here := if e.date == d then [e] else [];
    if s == [] || e.date <= s[0].date {
      OnDateCons(e, s, d);
    } else {
      var first := if s[0].date == d then [s[0]] else [];
      InsertOnDate(e, s[1..], d);
      OnDateCons(s[0], Insert(e, s[1..]), d);
      assert s == [s[0]] + s[1..];
      OnDateCons(s[0], s[1..], d);
      assert first + here == here + first;
      calc {
        OnDate(Insert(e, s), d);
        first + OnDate(Insert(e, s[1..]), d);
        first + (here + OnDate(s[1..], d));
        (here + first) + OnDate(s[1..], d);
        here + (first + OnDate(s[1..], d));
        here + OnDate(s, d);
      }
    }
  }

  lemma OnDateCons(x: Entry, t: seq<Entry>, d: Day)
    ensures OnDate([x] + t, d) == (if x.date == d then [x] else []) + OnDate(t, d)
  {
    assert ([x] + t)[0] == x && ([x] + t)[1..] == t;
  }

  /** `sortEntries` yields a permutation of the collection that is ascending by date. */
  lemma {:induction false} SortByDateSortsAndPermutes(s: seq<Entry>)
    ensures Sorted(SortByDate(s))
    ensures multiset(SortByDate(s)) == multiset(s)
    ensures |SortByDate(s)| == |s|
  {
    if s != [] {
      SortByDateSortsAndPermutes(s[1..]);
      InsertSorted(s[0], SortByDate(s[1..]));
      InsertPermutes(s[0], SortByDate(s[1..]));
      assert s == [s[0]] + s[1..];
    }
  }

  /** The sort is stable: the entries sharing a date keep their relative order. */
  lemma {:induction false} SortByDateStable(s: seq<Entry>, d: Day)
    ensures OnDate(SortByDate(s), d) == OnDate(s, d)
  {
    if s != [] {
      SortByDateStable(s[1..], d);
      InsertOnDate(s[0], SortByDate(s[1..]), d);
    }
  }

  /** Sorting a collection that is already in date order leaves it as it is. */
  lemma {:induction false} SortByDateOfSorted(s: seq<Entry>)
    requires Sorted(s)
    ensures SortByDate(s) == s
  {
    if s != [] {
      assert Sorted(s[1..]) by {
        forall i, j | 0 <= i < j < |s[1..]| ensures s[1..][i].date <= s[1..][j].date {
          assert s[1..][i] == s[i + 1] && s[1..][j] == s[j + 1];
        }
      }
      SortByDateOfSorted(s[1..]);
      assert s == [s[0]] + s[1..];
    }
  }

  /** Sorting keeps the dates unique. */
  lemma {:induction false} SortByDateUnique(s: seq<Entry>)
    requires UniqueDates(s)
    ensures UniqueDates(SortByDate(s))
  {
    if s != [] {
      assert s == [s[0]] + s[1..];
      UniqueCons(s[0], s[1..]);
      SortByDateUnique(s[1..]);
      SortByDateSortsAndPermutes(s[1..]);
      HasDatePermutation(SortByDate(s[1..]), s[1..], s[0].date);
      InsertUnique(s[0], SortByDate(s[1..]));
    }
  }

  lemma SortedTail(s: seq<Entry>)
    requires Sorted(s) && s != []
    ensures Sorted(s[1..])
  {
    forall i, j | 0 <= i < j < |s| - 1 ensures s[1..][i].date <= s[1..][j].date {
      assert s[1..][i] == s[i + 1] && s[1..][j] == s[j + 1];
    }
  }

  lemma UniqueTail(s: seq<Entry>)
    requires UniqueDates(s) && s != []
    ensures UniqueDates(s[1..])
  {
    forall i, j | 0 <= i < j < |s| - 1 ensures s[1..][i].date != s[1..][j].date {
      assert s[1..][i] == s[i + 1] && s[1..][j] == s[j + 1];
    }
  }

  /** The two sequences start with the same entry: the earliest one. */
  lemma SameFirst(a: seq<Entry>, b: seq<Entry>)
    requires Sorted(a) && Sorted(b) && UniqueDates(a) && a != []
    requires multiset(a) == multiset(b)
    ensures b != [] && b[0] == a[0]
  {
    assert a[0] in multiset(b);
    var m :| 0 <= m < |b| && b[m] == a[0];
    assert b[0] in multiset(a);
    var k :| 0 <= k < |a| && a[k] == b[0];
    assert a[0].date <= a[k].date == b[0].date <= b[m].date == a[0].date;
    assert k == 0;
  }

  /** Two date-ordered sequences with unique dates and the same entries are equal. */
  lemma {:induction false} SortedUniqueEqual(a: seq<Entry>, b: seq<Entry>)
    requires Sorted(a) && Sorted(b) && UniqueDates(a)
    requires multiset(a) == multiset(b)
    ensures a == b
  {
    if a == [] {
      assert |b| == |multiset(b)| == 0;
    } else {
      SameFirst(a, b);
      assert a == [a[0]] + a[1..] && b == [b[0]] + b[1..];
      assert multiset(a[1..]) == multiset(b[1..]) by {
        assert multiset(a) == multiset{a[0]} + multiset(a[1..]);
        assert multiset(b) == multiset{a[0]} + multiset(b[1..]);
        assert multiset(a[1..]) == multiset(a) - multiset{a[0]};
        assert multiset(b[1..]) == multiset(b) - multiset{a[0]};
      }
      SortedTail(a);
      SortedTail(b);
      UniqueTail(a);
      SortedUniqueEqual(a[1..], b[1..]);
    }
  }

  /** The submit path of `handleFormSubmit` on a built entry: refused when an entry already has
      its date, otherwise the entry is appended and the collection re-sorted. */
  function Add(s: seq<Entry>, e: Entry): (r: Result<seq<Entry>, Error>)
    ensures r.Failure? <==> exists k :: 0 <= k < |s| && s[k].date == e.date
  {
    if HasDate(s, e.date) then Failure(DuplicateDate) else Success(SortByDate(s + [e]))
  }

  /** A successful add grows the collection by exactly the new entry, loses nothing,
      leaves it in date order and keeps the dates unique. */
  lemma AddGrowsByOne(s: seq<Entry>, e: Entry)
    requires Add(s, e).Success?
    ensures var r := Add(s, e).value;
      && |r| == |s| + 1
      && e in r
      && multiset(r) == multiset(s) + multiset{e}
      && (forall x :: x in s ==> x in r)
      && Sorted(r)
      && (UniqueDates(s) ==> UniqueDates(r))
  {
    var r := Add(s, e).value;
    SortByDateSortsAndPermutes(s + [e]);
    assert multiset(r) == multiset(s) + multiset{e};
    assert e in multiset(r);
    forall x | x in s ensures x in r {
      assert x in multiset(r);
    }
    if UniqueDates(s) {
      assert UniqueDates(s + [e]) by {
        forall i, j | 0 <= i < j < |s| + 1 ensures (s + [e])[i].date != (s + [e])[j].date {
          if j == |s| { assert (s + [e])[i] == s[i]; }
        }
      }
      SortByDateUnique(s + [e]);
    }
  }

  /** `entries.splice(i, 1)`: removes the entry at `i`, or nothing when `i` is past the end. */
  function Splice(s: seq<Entry>, i: nat): (r: seq<Entry>)
    ensures i < |s| ==> r == s[..i] + s[i + 1..]
    ensures i < |s| ==> |r| == |s| - 1 && multiset(r) == multiset(s) - multiset{s[i]}
    ensures i >= |s| ==> r == s
  {
    if i < |s| then
      assert s == s[..i] + [s[i]] + s[i + 1..];
      s[..i] + s[i + 1..]
    else s
  }

  /** `deleteEntry(i)`: the splice followed by the re-sort. */
  function Delete(s: seq<Entry>, i: nat): seq<Entry>
  {
    SortByDate(Splice(s, i))
  }

  /** Deleting entry `i` removes exactly that entry and leaves the collection in date order;
      on a date-ordered collection the others keep their order, and unique dates stay unique. */
  lemma DeleteRemovesOne(s: seq<Entry>, i: nat)
    requires i < |s|
    ensures |Delete(s, i)| == |s| - 1
    ensures multiset(Delete(s, i)) == multiset(s) - multiset{s[i]}
    ensures Sorted(Delete(s, i))
    ensures Sorted(s) ==> Delete(s, i) == s[..i] + s[i + 1..]
    ensures UniqueDates(s) ==> UniqueDates(Delete(s, i))
  {
    var t := Splice(s, i);
    SortByDateSortsAndPermutes(t);
    if Sorted(s) {
      assert Sorted(t) by {
        forall a, b | 0 <= a < b < |t| ensures t[a].date <= t[b].date {
          var a', b' := if a < i then a else a + 1, if b < i then b else b + 1;
          assert t[a] == s[a'] && t[b] == s[b'];
        }
      }
      SortByDateOfSorted(t);
    }
    if UniqueDates(s) {
      assert UniqueDates(t) by {
        forall a, b | 0 <= a < b < |t| ensures t[a].date != t[b].date {
          var a', b' := if a < i then a else a + 1, if b < i then b else b + 1;
          assert t[a] == s[a'] && t[b] == s[b'];
        }
      }
      SortByDateUnique(t);
    }
  }

  /** With unique dates, the deleted entry's date is no longer in the collection. */
  lemma DeletedDateIsGone(s: seq<Entry>, i: nat)
    requires i < |s|
    ensures UniqueDates(s) ==> !HasDate(Delete(s, i), s[i].date)
  {
    if UniqueDates(s) {
      var t := Splice(s, i);
      assert !HasDate(t, s[i].date) by {
        forall k | 0 <= k < |t| ensures t[k].date != s[i].date {
          assert t[k] == s[if k < i then k else k + 1];
        }
      }
      SortByDateSortsAndPermutes(t);
      HasDatePermutation(Delete(s, i), t, s[i].date);
    }
  }

  /** Re-adding a deleted entry restores a date-ordered collection with unique dates:
      deleting is undone by adding. */
  lemma AddUndoesDelete(s: seq<Entry>, i: nat)
    requires Sorted(s) && UniqueDates(s) && i < |s|
    ensures Add(Delete(s, i), s[i]) == Success(s)
  {
    var t := Delete(s, i);
    DeleteRemovesOne(s, i);
    DeletedDateIsGone(s, i);
    SortByDateSortsAndPermutes(t + [s[i]]);
    assert multiset(t + [s[i]]) == multiset(s);
    SortedUniqueEqual(s, SortByDate(t + [s[i]]));
  }

  /** Adding is undone by deleting the new entry where it landed. */
  lemma DeleteUndoesAdd(s: seq<Entry>, e: Entry)
    requires Sorted(s) && UniqueDates(s) && Add(s, e).Success?
    ensures var r := Add(s, e).value;
      exists j :: 0 <= j < |r| && r[j] == e && Delete(r, j) == s
  {
    var r := Add(s, e).value;
    AddGrowsByOne(s, e);
    var j :| 0 <= j < |r| && r[j] == e;
    DeleteRemovesOne(r, j);
    assert multiset(Delete(r, j)) == multiset(s);
    SortedUniqueEqual(s, Delete(r, j));
  }

  /** Editing entry `i` and submitting the form unchanged restores the collection, when the
      entry was built by the form and the form receives its fields. */
  lemma EditThenResubmitRestores(s: seq<Entry>, i: nat, input: FormInput, navy: BodyFatFormula)
    requires Sorted(s) && UniqueDates(s) && i < |s|
    requires s[i] == Derive(input, navy)
    ensures Add(Delete(s, i), Derive(Resubmit(FormOf(s[i])), navy)) == Success(s)
  {
    ResubmitRederives(input, navy);
    AddUndoesDelete(s, i);
  }

  /** What the form holds after `editEntry(i)` as written: it is filled from entry `i`, and then
      `prefillForm` overwrites it with the latest remaining entry, if there is one. */
  function FormAfterEditAsWritten(s: seq<Entry>, i: nat): (f: FormFields)
    requires i < |s|
    ensures |s| == 1 ==> f == FormOf(s[i])
    ensures 2 <= |s| ==> |Delete(s, i)| == |s| - 1 && f == FormOf(Delete(s, i)[|s| - 2])
    ensures 2 <= |s| && UniqueDates(s) ==> f.date != s[i].date
  {
    DeleteRemovesOne(s, i);
    DeletedDateIsGone(s, i);
    var rest := Delete(s, i);
    if |rest| > 0 then FormOf(rest[|rest| - 1]) else FormOf(s[i])
  }

  /** With two or more entries, resubmitting the form that `editEntry` as written leaves behind
      is refused: its date is that of an entry still in the collection. */
  lemma EditAsWrittenResubmitIsRefused(s: seq<Entry>, i: nat, navy: BodyFatFormula)
    requires 2 <= |s| && i < |s|
    ensures Add(Delete(s, i), Derive(Resubmit(FormAfterEditAsWritten(s, i)), navy)) == Failure(DuplicateDate)
  {
    DeleteRemovesOne(s, i);
  }
}
