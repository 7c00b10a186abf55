/** The rows `downloadData` builds: the fixed header and one row per entry. */
module Csv {
  import opened Wrappers
  import opened Entries

  /** One field of a row. `Fixed(v, n)` stands for `v.toFixed(n)`; `DateText(d)` for the
      entry's date string. */
  datatype Cell = Text(s: string) | DateText(d: Day) | Fixed(v: real, digits: nat)

  const Header: seq<Cell> := [
    Text("Date"), Text("Weight (kg)"), Text("Waist (cm)"),
    Text("Neck (cm)"), Text("Body Fat %"), Text("Fat-Free Mass (kg)")]

  /** `entry.x ? entry.x.toFixed(digits) : ''`. */
  function NumberCell(o: Option<real>, digits: nat): (c: Cell)
    ensures c == Text("") <==> (o == None || o == Some(0.0))
    ensures c != Text("") ==> c == Fixed(o.value, digits)
  {
    if Truthy(o) == None then Text("") else Fixed(o.value, digits)
  }

  /** The number a cell shows, if any. */
  function CellValue(c: Cell): Option<real>
  {
    match c
    case Fixed(v, _) => Some(v)
    case _ => None
  }

  /** The row of one entry: date, then weight, waist and neck to one decimal, then the
      body-fat percentage and the fat-free mass to two. */
  function Row(e: Entry): seq<Cell>
  {
    [DateText(e.date), NumberCell(e.weight, 1), NumberCell(e.waist, 1),
     NumberCell(e.neck, 1), NumberCell(e.bodyFatPercentage, 2), NumberCell(e.fatFreeMass, 2)]
  }

  /** A row has the header's six fields, a cell is empty exactly for a null or zero value,
      and every other cell shows the entry's own value. */
  lemma {:induction false} RowShowsEntry(e: Entry)
    ensures |Row(e)| == |Header| == 6
    ensures Row(e)[0] == DateText(e.date)
    ensures forall k :: 1 <= k < 6 ==> ((Row(e)[k] == Text("")) <==> (CellValue(Row(e)[k]) == None))
    ensures CellValue(Row(e)[1]) == Truthy(e.weight)
    ensures CellValue(Row(e)[2]) == Truthy(e.waist)
    ensures CellValue(Row(e)[3]) == Truthy(e.neck)
    ensures CellValue(Row(e)[4]) == Truthy(e.bodyFatPercentage)
    ensures CellValue(Row(e)[5]) == Truthy(e.fatFreeMass)
    ensures Row(e)[1] == Text("") <==> e.weight == None || e.weight == Some(0.0)
    ensures Row(e)[4] == Text("") <==> e.bodyFatPercentage == None || e.bodyFatPercentage == Some(0.0)
  {
  }

  /** The loop that accumulates `csvRows`: the header, then one row per entry in collection order. */
  method CsvRows(s: seq<Entry>) returns (rows: seq<seq<Cell>>)
    ensures |rows| == |s| + 1
    ensures rows[0] == Header
    ensures forall k :: 0 <= k < |s| ==> rows[k + 1] == Row(s[k])
  {
    rows := [Header];
    var i := 0;
    while i < |s|
      invariant i <= |s|
      invariant |rows| == i + 1 && rows[0] == Header
      invariant forall k :: 0 <= k < i ==> rows[k + 1] == Row(s[k])
    {
      rows := rows + [Row(s[i])];
      i := i + 1;
    }
  }
}
