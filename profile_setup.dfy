/** The profile setup page: the input sanitiser, the condition for showing a BMI, the submit checks
    and the position of the BMI gauge's marker. */
module ProfileForm {
  import opened Wrappers
  import opened Records
  import opened Text

  /** The inputs `handleChange` treats as numbers. */
  datatype NumericField = Age | Height | Weight | GoalSteps | GoalCalories

  /** The other inputs, stored verbatim. */
  datatype TextField = Name | Gender | ActivityLevel

  /** One input event: the field and the value the input holds. A numeric input holds '' (Blank) or
      the number `Number(value)` reads. */
  datatype Change =
    | NumericChange(numeric: NumericField, number: NumberField)
    | TextChange(text: TextField, value: string)

  function NumericOf(p: Profile, f: NumericField): NumberField {
    match f
    case Age => p.age
    case Height => p.height
    case Weight => p.weight
    case GoalSteps => p.goalSteps
    case GoalCalories => p.goalCalories
  }

  function TextOf(p: Profile, f: TextField): string {
    match f
    case Name => p.name
    case Gender => p.gender
    case ActivityLevel => p.activityLevel
  }

  /** `{ ...prev, [name]: v }` for a numeric field. */
  function WithNumeric(p: Profile, f: NumericField, v: NumberField): (r: Profile)
    ensures NumericOf(r, f) == v
    ensures forall g :: g != f ==> NumericOf(r, g) == NumericOf(p, g)
    ensures forall t :: TextOf(r, t) == TextOf(p, t)
    ensures r.joinedDate == p.joinedDate
  {
    match f
    case Age => p.(age := v)
    case Height => p.(height := v)
    case Weight => p.(weight := v)
    case GoalSteps => p.(goalSteps := v)
    case GoalCalories => p.(goalCalories := v)
  }

  /** `{ ...prev, [name]: v }` for a text field. */
  function WithText(p: Profile, f: TextField, v: string): (r: Profile)
    ensures TextOf(r, f) == v
    ensures forall g :: g != f ==> TextOf(r, g) == TextOf(p, g)
    ensures forall n :: NumericOf(r, n) == NumericOf(p, n)
    ensures r.joinedDate == p.joinedDate
  {
    match f
    case Name => p.(name := v)
    case Gender => p.(gender := v)
    case ActivityLevel => p.(activityLevel := v)
  }

  /** `handleChange(e)`: a cleared numeric input stores '', a negative number is ignored, another
      number is stored; a text input is stored as typed. */
  function HandleChange(p: Profile, c: Change): (r: Profile)
    ensures c.NumericChange? && c.number.Blank? ==> r == WithNumeric(p, c.numeric, Blank)
    ensures c.NumericChange? && c.number.Num? && c.number.value < 0.0 ==> r == p
    ensures c.NumericChange? && c.number.Num? && c.number.value >= 0.0 ==> r == WithNumeric(p, c.numeric, c.number)
    ensures c.TextChange? ==> r == WithText(p, c.text, c.value)
  {
    match c
    case NumericChange(f, Blank) => WithNumeric(p, f, Blank)
    case NumericChange(f, Num(x)) => if x < 0.0 then p else WithNumeric(p, f, Num(x))
    case TextChange(f, v) => WithText(p, f, v)
  }

  /** No numeric field holds a negative number. */
  predicate NoNegatives(p: Profile) {
    forall f :: AsNumber(NumericOf(p, f)) >= 0.0
  }

  /** The sanitiser keeps every numeric field free of negative numbers, and changes only its own field. */
  lemma HandleChangeKeepsNoNegatives(p: Profile, c: Change)
    requires NoNegatives(p)
    ensures NoNegatives(HandleChange(p, c))
    ensures c.NumericChange? ==> forall g :: g != c.numeric ==> NumericOf(HandleChange(p, c), g) == NumericOf(p, g)
    ensures c.NumericChange? ==> forall t :: TextOf(HandleChange(p, c), t) == TextOf(p, t)
    ensures c.TextChange? ==> forall n :: NumericOf(HandleChange(p, c), n) == NumericOf(p, n)
  {
    var r := HandleChange(p, c);
    forall f ensures AsNumber(NumericOf(r, f)) >= 0.0 {
      assert AsNumber(NumericOf(p, f)) >= 0.0;
    }
  }

  /** Repeating an input event changes nothing more. */
  lemma HandleChangeIdempotent(p: Profile, c: Change)
    ensures HandleChange(HandleChange(p, c), c) == HandleChange(p, c)
  {
  }

  /** `height > 0 && weight > 0`: the BMI is computed only then; '' compares as 0. */
  predicate BmiEnabled(p: Profile) {
    AsNumber(p.height) > 0.0 && AsNumber(p.weight) > 0.0
  }

  /** `bmiResult`: `calculateBMI(height, weight)` when enabled, null otherwise. The formula itself is
      the parameter `calculate`. */
  function BmiResult(p: Profile, calculate: (real, real) -> real): (r: Option<real>)
    ensures r.Some? <==> BmiEnabled(p)
    ensures r.Some? ==> r.value == calculate(AsNumber(p.height), AsNumber(p.weight))
  {
    if AsNumber(p.height) > 0.0 && AsNumber(p.weight) > 0.0 then Some(calculate(AsNumber(p.height), AsNumber(p.weight)))
    else None
  }

  /** The outcome of `handleSubmit`. */
  datatype Submit = NameMissing | InvalidNumbers | Saved

  function SubmitMessage(s: Submit): string {
    match s
    case NameMissing => "Please enter your name"
    case InvalidNumbers => "Please enter valid positive numbers for Age, Height, and Weight."
    case Saved => "Profile saved successfully!"
  }

  /** `handleSubmit`: a blank name is reported first, then an age, height or weight below 1; only a
      form passing both is saved. */
  function HandleSubmit(p: Profile): (r: Submit)
    ensures r == NameMissing <==> IsBlank(p.name)
    ensures r == InvalidNumbers <==>
              !IsBlank(p.name) && (AsNumber(p.age) < 1.0 || AsNumber(p.height) < 1.0 || AsNumber(p.weight) < 1.0)
    ensures r == Saved <==>
              !IsBlank(p.name) && AsNumber(p.age) >= 1.0 && AsNumber(p.height) >= 1.0 && AsNumber(p.weight) >= 1.0
  {
    if IsBlank(p.name) then NameMissing
    else if AsNumber(p.age) < 1.0 || AsNumber(p.height) < 1.0 || AsNumber(p.weight) < 1.0 then InvalidNumbers
    else Saved
  }

  /** A profile that is saved always shows a BMI. */
  lemma SavedProfileHasBmi(p: Profile, calculate: (real, real) -> real)
    requires HandleSubmit(p) == Saved
    ensures BmiResult(p, calculate).Some?
  {
  }

  /** `getBmiPosition()`: the marker for BMI 15 to 40 in percent along the gauge, clamped to [0, 100],
      and 0 without a result. */
  function BmiPosition(bmi: Option<real>): (r: real)
    ensures 0.0 <= r <= 100.0
    ensures bmi.None? ==> r == 0.0
    ensures bmi.Some? && 15.0 <= bmi.value <= 40.0 ==> r == (bmi.value - 15.0) * 4.0
    ensures bmi.Some? && bmi.value <= 15.0 ==> r == 0.0
    ensures bmi.Some? && bmi.value >= 40.0 ==> r == 100.0
  {
    if bmi.None? then 0.0
    else
      var pos := (bmi.value - 15.0) / (40.0 - 15.0) * 100.0;
      Max(0.0, Min(100.0, pos))
  }

  function Max(a: real, b: real): real { if a >= b then a else b }
  function Min(a: real, b: real): real { if a <= b then a else b }

  /** A higher BMI never moves the marker left. */
  lemma BmiPositionMonotone(a: real, b: real)
    requires a <= b
    ensures BmiPosition(Some(a)) <= BmiPosition(Some(b))
  {
  }
}
