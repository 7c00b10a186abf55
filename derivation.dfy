/** Turning the form's fields into an entry: lenient parsing, then the two derived values. */
module Derivation {
  import opened Wrappers
  import opened Entries

  /** What `parseFloat` returns for one form field: a number or `NaN`. */
  datatype Parsed = NaN | Number(v: real)

  /** The submitted form: the date and what `parseFloat` made of the three measurements. */
  datatype FormInput = FormInput(date: Day, weight: Parsed, waist: Parsed, neck: Parsed)

  /** The body-fat formula applied to waist and neck, both in centimetres (the Navy-style
      `log10` formula with the height fixed at 188). Its floating-point value is not
      modelled: the model only follows when it is applied. */
  type BodyFatFormula = (real, real) -> real

  /** `parseFloat(..) || null`: a `NaN` or a `0` becomes absent, any other number stays. */
  function OrNull(p: Parsed): (r: Option<real>)
    ensures r == None <==> (p == NaN || p == Number(0.0))
    ensures r != None ==> p == Number(r.value) && r.value != 0.0
  {
    match p
    case NaN => None
    case Number(v) => if v == 0.0 then None else Some(v)
  }

  /** The entry the form builds: the three parsed measurements, the body-fat percentage when
      waist and neck are both present, and the fat-free mass when the weight is present and
      the body-fat percentage is not null. */
  function Derive(input: FormInput, navy: BodyFatFormula): (e: Entry)
    ensures e.date == input.date
    ensures e.weight == OrNull(input.weight) && e.waist == OrNull(input.waist) && e.neck == OrNull(input.neck)
    ensures e.bodyFatPercentage == None <==> (e.waist == None || e.neck == None)
    ensures e.fatFreeMass == None <==> (e.weight == None || e.bodyFatPercentage == None)
    ensures e.bodyFatPercentage != None ==> e.bodyFatPercentage.value == navy(e.waist.value, e.neck.value)
    ensures e.fatFreeMass != None ==>
      e.fatFreeMass.value == e.weight.value * (1.0 - e.bodyFatPercentage.value / 100.0)
  {
    var weight, waist, neck := OrNull(input.weight), OrNull(input.waist), OrNull(input.neck);
    var bodyFat := if waist.Some? && neck.Some? then Some(navy(waist.value, neck.value)) else None;
    var fatFree := if weight.Some? && bodyFat.Some? then Some(weight.value * (1.0 - bodyFat.value / 100.0)) else None;
    Entry(input.date, weight, waist, neck, bodyFat, fatFree)
  }

  /** No measurement of a derived entry is ever a present zero. */
  lemma DerivedMeasurementsAreTruthy(input: FormInput, navy: BodyFatFormula)
    ensures var e := Derive(input, navy);
      Truthy(e.weight) == e.weight && Truthy(e.waist) == e.waist && Truthy(e.neck) == e.neck
  {
  }

  /** The fat-free mass of a derived entry is present exactly when all three measurements are. */
  lemma FatFreeMassNeedsAllThree(input: FormInput, navy: BodyFatFormula)
    ensures Derive(input, navy).fatFreeMass != None <==>
      OrNull(input.weight) != None && OrNull(input.waist) != None && OrNull(input.neck) != None
  {
  }

  /** What the form holds after its date, weight, waist and neck fields are set from an entry
      (`entry.x || ''`): `None` is the empty field. */
  datatype FormFields = FormFields(date: Day, weight: Option<real>, waist: Option<real>, neck: Option<real>)

  /** The form fields `editEntry` and `prefillForm` write for `e`: parsing them again gives
      back the entry's date and its truthy measurements. */
  function FormOf(e: Entry): (f: FormFields)
    ensures f.date == e.date
    ensures OrNull(Reparse(f.weight)) == Truthy(e.weight)
    ensures OrNull(Reparse(f.waist)) == Truthy(e.waist)
    ensures OrNull(Reparse(f.neck)) == Truthy(e.neck)
  {
    FormFields(e.date, Truthy(e.weight), Truthy(e.waist), Truthy(e.neck))
  }

  /** What `parseFloat` makes of a form field on the next submission: the empty field is `NaN`. */
  function Reparse(o: Option<real>): (p: Parsed)
    ensures p == NaN <==> o == None
    ensures o.Some? ==> p == Number(o.value)
  {
    match o
    case None => NaN
    case Some(v) => Number(v)
  }

  /** The form input a resubmission of `f` produces. */
  function Resubmit(f: FormFields): FormInput
  {
    FormInput(f.date, Reparse(f.weight), Reparse(f.waist), Reparse(f.neck))
  }

  /** Putting a derived entry back in the form and submitting it unchanged derives the same entry. */
  lemma {:induction false} ResubmitRederives(input: FormInput, navy: BodyFatFormula)
    ensures Derive(Resubmit(FormOf(Derive(input, navy))), navy) == Derive(input, navy)
  {
    var e := Derive(input, navy);
    var again := Derive(Resubmit(FormOf(e)), navy);
    assert again.weight == e.weight;
    assert again.waist == e.waist;
    assert again.neck == e.neck;
  }
}
