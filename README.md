# Body-fat tracker: the entry collection

This project models the decision logic of a browser-based body-composition tracker
(`script.js`). The user submits a dated measurement form (weight, waist, neck). The page
builds an entry with two derived values, the body-fat percentage and the fat-free mass. It
keeps all entries in one collection ordered by date, refuses a second entry for a date
already present, and lets a table row delete or edit an entry. The page also rebuilds the
three chart series (dates, body-fat percentages, fat-free masses) and exports the collection
as CSV rows.

Modules, one per concern of `script.js`:

- `Wrappers`: `Option` (JavaScript `null` is `None`) and `Result`.
- `Entries`: the `Entry` datatype, JavaScript truthiness of a nullable number (`null` and `0`
  are falsy), and the invariants `Sorted` and `UniqueDates`.
- `Derivation`: lenient parsing (`parseFloat(..) || null`), the derivation of the body-fat
  percentage and the fat-free mass, and the form fields that an edit hands back.
- `Collection`: the duplicate check and the stable sort by date, plus add, splice, delete and
  edit as functions on sequences of entries, with the lemmas about them.
- `Series`: the loop that rebuilds the three chart series.
- `Csv`: the loop that builds the export rows, and the cells of one row.
- `Tracker`: the class `Store`. It holds the collection and the series that the page's
  handlers update in place. Its methods are stated against the functions of `Collection`.

Representation choices:

- A date is a `Day` (an `int`). It stands for a well-formed `YYYY-MM-DD` string, on which
  `===` and the order of the parsed `Date`s agree with `==` and `<` on days.
- Numbers are `real`.
- What `parseFloat` returns for a field is an input (`Parsed`: `NaN` or a number). The
  parsing of the string itself is not part of this model.
- The body-fat formula is the parameter `navy` of type `(waist, neck) -> real`. The model
  records when the formula is applied, not what it computes.
- The fat-free mass is `weight * (1 - bodyFat / 100)`, computed exactly in `real`.
- `Array.prototype.sort` is stable, so `SortByDate` is a stable insertion sort. It is proved
  to be sorted and a permutation of its input. It is also proved stable (`OnDate`), and to
  leave a collection already in date order unchanged.

What the code does and does not do, as the model follows it:

- The body-fat formula applies `log10` to the waist-minus-neck difference in centimetres,
  with the height fixed at 188. There is no conversion to inches.
- There is no update, merge or import operation. An edit removes the entry and refills the
  form; the next submit adds a new entry.
- Adding an entry returns nothing.
- The chart series are refilled only at page load and after a successful submit. In every
  state the page reaches they are at least as long as the collection (`Store.Reachable`).
  They show the collection exactly (`Store.Valid`) only after a load or a successful submit.

## Model

| member | source | states |
|---|---|---|
| `Derivation.OrNull` | script.js:131-133 | a parsed field is absent exactly when it is NaN or 0; otherwise it is the parsed number, which is non-zero |
| `Derivation.Derive` | script.js:130-149 | the entry keeps the form's date and the three parsed measurements; the body-fat percentage is null iff waist or neck is absent, and otherwise is the formula applied to them; the fat-free mass is null iff the weight is absent or the body-fat percentage is null, and otherwise is weight × (1 − body fat / 100) |
| `Derivation.DerivedMeasurementsAreTruthy` | script.js:131-133 | no measurement of a submitted entry is a present zero |
| `Derivation.FatFreeMassNeedsAllThree` | script.js:141-147 | a submitted entry has a fat-free mass exactly when weight, waist and neck all parsed to non-zero numbers |
| `Derivation.FormOf` | script.js:177-180 | the form receives the entry's date, and parsing its weight, waist and neck fields again gives back exactly the entry's truthy measurements (a null or 0 comes back absent) |
| `Derivation.Reparse` | script.js:131-133 | re-parsing a form field gives NaN exactly for the empty field, and otherwise gives back the field's number |
| `Derivation.ResubmitRederives` | script.js:175-180 | putting a submitted entry back in the form and submitting it unchanged derives the same entry |
| `Collection.HasDate` | script.js:123-125 | true exactly when some entry of the collection has the given date |
| `Collection.SortByDateSortsAndPermutes` | script.js:119-121 | the sort yields a permutation of the collection (same multiset, same length) that is ascending by date |
| `Collection.SortByDateStable` | script.js:120 | entries that share a date keep their relative order through the sort |
| `Collection.SortByDateOfSorted` | script.js:119-121 | sorting a collection already in date order leaves it unchanged |
| `Collection.SortByDateUnique` | script.js:119-121 | sorting keeps the dates unique |
| `Collection.Add` | script.js:135-151 | the submission is refused with `DuplicateDate` exactly when an entry already has the new entry's date |
| `Collection.AddGrowsByOne` | script.js:149-152 | a successful add grows the collection by one; the new entry is in it, no prior entry is lost (multiset of old entries plus the new one), the result is in date order, and unique dates stay unique |
| `Collection.DeleteUndoesAdd` | script.js:149-151 | on a date-ordered collection with unique dates, the added entry sits at some index `j`, and deleting index `j` gives back the original collection |
| `Collection.Splice` | script.js:191 | `splice(i, 1)` removes exactly the entry at `i` and keeps the others in their order (length minus one, multiset minus that entry), or removes nothing when `i` is past the end |
| `Collection.DeleteRemovesOne` | script.js:190-192 | deleting entry `i` removes exactly that entry and leaves the collection in date order; on a date-ordered collection the result is the others in their old order; unique dates stay unique |
| `Collection.DeletedDateIsGone` | script.js:190-192 | with unique dates, the deleted entry's date no longer occurs in the collection |
| `Collection.AddUndoesDelete` | script.js:190-192 | on a date-ordered collection with unique dates, adding the deleted entry back succeeds and restores the collection |
| `Collection.EditThenResubmitRestores` | script.js:175-184 | editing entry `i` and submitting the form it should receive, unchanged, restores the collection |
| `Collection.FormAfterEditAsWritten` | script.js:175-187 | as written, with a single entry the form holds the edited entry's fields; with two or more it holds the fields of the latest remaining entry, and with unique dates its date is never the edited entry's |
| `Collection.EditAsWrittenResubmitIsRefused` | script.js:175-187 | as written, with two or more entries, resubmitting the form left by an edit is refused as a duplicate date |
| `Series.BuildSeries` | script.js:154-162 | the three series have the collection's length, and element `k` is entry `k`'s date, body-fat percentage and fat-free mass, with null mapped to 0 |
| `Csv.NumberCell` | script.js:100-104 | a cell is empty exactly when the value is null or 0, and otherwise shows that value with the given number of decimals |
| `Csv.RowShowsEntry` | script.js:99-106 | a row has the header's six fields; the first is the date; each other field shows the entry's truthy value, or is empty when the value is null or 0 |
| `Csv.CsvRows` | script.js:93-107 | the output is the fixed header followed by exactly one row per entry, in collection order |
| `Tracker.Store.constructor` | script.js:199-203 | at page load the collection is the stored one and the series show it (so the state is reachable) |
| `Tracker.Store.SortEntries` | script.js:119-121 | the collection becomes its sort by date; nothing else changes |
| `Tracker.Store.RebuildSeries` | script.js:154-162 | the series show the collection; the collection is untouched |
| `Tracker.Store.HandleFormSubmit` | script.js:127-162 | callable in any state, stale series included; a taken date is refused and changes nothing; otherwise the collection becomes the successful `Add` of the derived entry (one longer, contains the entry, in date order, unique dates kept) and the series are rebuilt to show it |
| `Tracker.Store.DeleteEntry` | script.js:190-192 | the collection becomes `Delete(old, index)`, is in date order, keeps unique dates, and the series show it |
| `Tracker.Store.DeleteEntryAsWritten` | script.js:190-196 | as written, from any reachable state (stale series included) the collection becomes `Delete(old, index)` but the series stay as they were, so after an in-range delete they no longer show the collection; the state stays reachable |
| `Tracker.StaleSeriesAfterDelete` | script.js:190-196 | series that showed a collection no longer show it after any entry is deleted |
| `Tracker.Store.EditEntry` | script.js:175-184 | the collection changes exactly as by `DeleteEntry`, and the form receives entry `index`'s date, weight, waist and neck |
| `Tracker.Store.EditEntryAsWritten` | script.js:175-187 | as written, from any reachable state the collection changes as by `Delete`, the series do not show it afterwards, the form is what `FormAfterEditAsWritten` says, and the state stays reachable |

## Left out

- The body-fat formula (`86.010 * log10(waist - neck) - 70.041 * log10(188) + 36.76`) is the `navy` parameter. Its floating-point value is not modelled, nor are the NaN and −Infinity it gives when waist ≤ neck.
- The fat-free mass is computed in exact `real` arithmetic. 64-bit rounding is not modelled.
- String-to-number parsing by `parseFloat` is not modelled; its outcome (a number or NaN) is the input. `Infinity` results are not modelled either.
- `toFixed` rounding is kept symbolic as `Fixed(value, digits)` cells.
- The CSV text is not modelled: joining cells with `,`, joining rows with a newline, and the Blob, object-URL and anchor-click download.
- Malformed or empty date strings are not modelled; dates are well-formed keys. With a malformed date the comparator returns NaN.
- Negative `splice` indices are not modelled; indices are natural numbers. The table only passes valid indices. An index past the end is modelled (nothing is removed). For `editEntry` an index past the end makes `entry.date` throw a TypeError (script.js:176-177); `Store.EditEntry` and `Store.EditEntryAsWritten` exclude that case with `requires index < |entries|`, so the thrown error is not modelled.
- `updateTable` and its `N/A` cells, the Plotly chart layout and rendering in `updateChart`, `alert`, and the form reset are DOM work, not modelled.
- `prefillForm` after a submit, a delete or the page load is not modelled. Its effect inside `editEntry` is modelled, since it decides what the edit leaves in the form.
- `saveEntries` and the `localStorage` load are not modelled. The stored collection is the constructor's argument and is trusted as is.
- The `window.editEntry` and `window.deleteEntry` globals are not modelled; these operations are methods of `Store`.

## Findings

| source | as written | input that shows it | evidently intended | confidence | as-written member | corrected member |
|---|---|---|---|---|---|---|
| script.js:190-196 | `deleteEntry` splices and re-sorts the collection, then redraws the chart, but never rebuilds `dates`, `bodyFatPercentages` or `fatFreeMasses` | a collection of one entry; `deleteEntry(0)` leaves the collection empty while the chart still plots that entry | the series are rebuilt from the collection after every change, as `handleFormSubmit` does | high, not executed | `Tracker.Store.DeleteEntryAsWritten`, with `Tracker.StaleSeriesAfterDelete` | `Tracker.Store.DeleteEntry` |
| script.js:175-187 | `editEntry` fills the form from entry `index`, then calls `prefillForm`, which overwrites every field with the latest remaining entry; it also never rebuilds the series | two entries dated d1 < d2; `editEntry(0)` leaves d2's fields in the form, and resubmitting is refused as a duplicate | the form keeps the edited entry's fields, so that submitting it unchanged restores the collection | high, not executed | `Collection.FormAfterEditAsWritten`, with `Collection.EditAsWrittenResubmitIsRefused` and `Tracker.Store.EditEntryAsWritten` | `Tracker.Store.EditEntry`, with `Collection.EditThenResubmitRestores` |
