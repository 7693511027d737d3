/** The dosage field of the medication form: the normalisation of dosage
    texts, the dosage validator with its warnings in the order the form
    checks them, and the food-timing defaults filled in when a drug is
    picked from the suggestions. */
module MedicationForm {
  import opened Text
  import opened Seqs
  import opened Types
  import opened DrugDatabase

  /** The unit words whose presence anywhere in the dosage counts as a unit.
      The list is only ever searched as a whole, so its order does not
      matter and it is a type of its own. */
  datatype ListedUnit =
    | Mg | G | Mcg | Ml | L | Tablet | Tablets | Capsule | Capsules | Drop | Drops
    | Puff | Puffs | UnitWord | Units | Iu | Cc | Tsp | Tbsp | Oz
    | ArMg | ArG | ArMl | ArTablet | ArTablets | ArCapsule | ArCapsules
    | ArDrop | ArDrops | ArUnit | ArUnits

  function UnitText(u: ListedUnit): string
  {
    match u
    case Mg => "mg"
    case G => "g"
    case Mcg => "mcg"
    case Ml => "ml"
    case L => "l"
    case Tablet => "tablet"
    case Tablets => "tablets"
    case Capsule => "capsule"
    case Capsules => "capsules"
    case Drop => "drop"
    case Drops => "drops"
    case Puff => "puff"
    case Puffs => "puffs"
    case UnitWord => "unit"
    case Units => "units"
    case Iu => "iu"
    case Cc => "cc"
    case Tsp => "tsp"
    case Tbsp => "tbsp"
    case Oz => "oz"
    case ArMg => "ملغ"
    case ArG => "غ"
    case ArMl => "مل"
    case ArTablet => "قرص"
    case ArTablets => "أقراص"
    case ArCapsule => "كبسولة"
    case ArCapsules => "كبسولات"
    case ArDrop => "قطرة"
    case ArDrops => "قطرات"
    case ArUnit => "وحدة"
    case ArUnits => "وحدات"
  }

  /** The units of the fallback pattern "digits, optional white space, unit":
      mg, g, ml, tablet, capsule and their Arabic tablet and capsule, all of
      them listed units. */
  predicate InPattern(u: ListedUnit)
  {
    u.Mg? || u.G? || u.Ml? || u.Tablet? || u.Capsule? || u.ArTablet? || u.ArCapsule?
  }

  /** The groups of unit spellings treated as the same unit. */
  datatype UnitGroup = MgGroup | GGroup | McgGroup | MlGroup | UnitsGroup | IuGroup

  function Spellings(g: UnitGroup): seq<string>
  {
    match g
    case MgGroup => ["mg", "ملغ", "ملجم"]
    case GGroup => ["g", "غ", "جرام"]
    case McgGroup => ["mcg", "مcg"]
    case MlGroup => ["ml", "مل"]
    case UnitsGroup => ["unit", "units", "وحدة", "وحدات"]
    case IuGroup => ["iu", "units", "وحدات"]
  }

  // ---------------------------------------------------------------- scanning

  /** The end of the longest run of characters satisfying p from index i. */
  function RunEnd(s: string, i: nat, p: char -> bool): (j: nat)
    requires i <= |s|
    ensures i <= j <= |s|
    ensures forall k :: i <= k < j ==> p(s[k])
    ensures j == |s| || !p(s[j])
    decreases |s| - i
  {
    if i < |s| && p(s[i]) then RunEnd(s, i + 1, p) else i
  }

  /** A letter of the class `[a-z؀-ۿ]` under the `i` flag. */
  predicate IsUnitLetter(c: char)
  {
    ('a' <= c <= 'z') || ('A' <= c <= 'Z') || ('؀' <= c <= 'ۿ')
  }

  // ---------------------------------------------------------------- normalising

  /** The dose-form word the text starts with, trying the words of the
      alternation `tablet|tablets|capsule|capsules|pill|pills|قرص|أقراص|كبسولة|كبسولات`
      in that order. */
  function LeadingForm(s: string): (r: Option<string>)
    ensures r.Some? ==> 0 < |r.value| && StartsWith(s, r.value)
    ensures r.Some? ==> forall k :: 0 <= k < |r.value| ==> !IsDigit(r.value[k])
  {
    if StartsWith(s, "tablet") then Some("tablet")
    else if StartsWith(s, "tablets") then Some("tablets")
    else if StartsWith(s, "capsule") then Some("capsule")
    else if StartsWith(s, "capsules") then Some("capsules")
    else if StartsWith(s, "pill") then Some("pill")
    else if StartsWith(s, "pills") then Some("pills")
    else if StartsWith(s, "قرص") then Some("قرص")
    else if StartsWith(s, "أقراص") then Some("أقراص")
    else if StartsWith(s, "كبسولة") then Some("كبسولة")
    else if StartsWith(s, "كبسولات") then Some("كبسولات")
    else None
  }

  /** The length of a match of `\s*(tablet|tablets|...)\s*` at the start of
      s: white space, the first dose-form word it is followed by, and the
      white space after that word. */
  function FormMatchLength(s: string): (r: Option<nat>)
    ensures r.Some? ==> 0 < r.value <= |s|
  {
    var a := RunEnd(s, 0, IsSpace);
    match LeadingForm(s[a..])
    case None => None
    case Some(w) => Some(RunEnd(s, a + |w|, IsSpace))
  }

  /** The global replacement of that pattern by nothing: scanning from the
      left, each match is dropped and the scan resumes after it. */
  function StripForms(s: string): (r: string)
    ensures |r| <= |s|
    decreases |s|
  {
    if s == [] then []
    else match FormMatchLength(s)
      case Some(n) => StripForms(s[n..])
      case None => [s[0]] + StripForms(s[1..])
  }

  /** `normalizeDosage`: lower-case, collapse white space, trim, strip the
      dose-form words with the white space around them, trim again. */
  function NormalizeDosage(dosage: string): string
  {
    Trim(StripForms(Trim(CollapseSpaces(Lower(dosage)))))
  }

  /** Stripping only drops characters: what is left keeps every digit, in
      order. */
  lemma {:induction false} StripFormsKeepsDigits(s: string)
    ensures Filter(StripForms(s), IsDigit) == Filter(s, IsDigit)
    decreases |s|
  {
    if s != [] {
      match FormMatchLength(s)
      case Some(n) =>
        StripFormsKeepsDigits(s[n..]);
        MatchDropsNoDigit(s, n);
      case None =>
        StripFormsKeepsDigits(s[1..]);
        KeptCharFilter(s, StripForms(s[1..]));
    }
  }

  /** Dropping a dose-form match drops no digit. */
  lemma MatchDropsNoDigit(s: string, n: nat)
    requires FormMatchLength(s) == Some(n)
    ensures Filter(s[n..], IsDigit) == Filter(s, IsDigit)
  {
    FormMatchHasNoDigit(s);
    assert s == s[..n] + s[n..];
    FilterConcat(s[..n], s[n..], IsDigit);
    FilterNone(s[..n], IsDigit);
  }

  /** Keeping the first character and replacing the rest by a text with the
      same digits keeps the digits. */
  lemma KeptCharFilter(s: string, rest: string)
    requires s != [] && Filter(rest, IsDigit) == Filter(s[1..], IsDigit)
    ensures Filter([s[0]] + rest, IsDigit) == Filter(s, IsDigit)
  {
    var t := [s[0]] + rest;
    assert t[0] == s[0] && t[1..] == rest;
    var head := if IsDigit(s[0]) then [s[0]] else [];
    assert Filter(t, IsDigit) == head + Filter(rest, IsDigit);
    assert Filter(s, IsDigit) == head + Filter(s[1..], IsDigit);
  }

  /** A dose-form match is white space and letters only. */
  lemma FormMatchHasNoDigit(s: string)
    requires FormMatchLength(s).Some?
    ensures forall k :: 0 <= k < FormMatchLength(s).value ==> !IsDigit(s[k])
  {
    var a := RunEnd(s, 0, IsSpace);
    var w := LeadingForm(s[a..]).value;
    forall k | a <= k < a + |w|
      ensures !IsDigit(s[k])
    {
      assert s[k] == s[a..][k - a] == w[k - a];
    }
  }

  /** The singular is tried before the plural, so a plural word loses only
      its singular part: "tablets" leaves "s" behind. */
  lemma PluralLeavesS()
    ensures StripForms("tablets") == "s"
  {
    var s := "tablets";
    assert RunEnd(s, 0, IsSpace) == 0;
    assert LeadingForm(s) == Some("tablet");
    assert RunEnd(s, 6, IsSpace) == 6;
    assert s[6..] == "s";
    assert RunEnd("s", 0, IsSpace) == 0;
    assert LeadingForm("s") == None;
    assert StripForms("s") == "s";
  }

  // ---------------------------------------------------------------- numbers

  /** The value of the digits after the decimal point. */
  function FractionValue(f: string): (r: real)
    requires AllDigits(f)
    ensures 0.0 <= r < 1.0
    ensures r == 0.0 <==> forall k :: 0 <= k < |f| ==> f[k] == '0'
  {
    if f == [] then 0.0
    else
      var d := DigitValue(f[0]);
      var rest := FractionValue(f[1..]);
      assert forall k :: 1 <= k < |f| ==> f[k] == f[1..][k - 1];
      assert d == 0 <==> f[0] == '0';
      (d as real + rest) / 10.0
  }

  /** A match of `\d+\.?\d*`: the digits before the point and after it. */
  datatype Decimal = Decimal(whole: string, frac: string)

  predicate ValidDecimal(d: Decimal)
  {
    |d.whole| > 0 && AllDigits(d.whole) && AllDigits(d.frac)
  }

  /** `parseFloat` of the match, read as an exact decimal. */
  function DecimalValue(d: Decimal): (r: real)
    requires ValidDecimal(d)
    ensures 0.0 <= r
  {
    DigitsValue(d.whole) as real + FractionValue(d.frac)
  }

  /** The number starting at a digit: the longest digit run, then a point and
      the digits after it when a point follows. */
  function NumberAt(s: string, i: nat): (r: Decimal)
    requires i < |s| && IsDigit(s[i])
    ensures ValidDecimal(r)
  {
    var e := RunEnd(s, i, IsDigit);
    if e < |s| && s[e] == '.' then Decimal(s[i..e], s[e + 1..RunEnd(s, e + 1, IsDigit)])
    else Decimal(s[i..e], "")
  }

  /** Where that number ends. */
  function NumberEnd(s: string, i: nat): (j: nat)
    requires i < |s| && IsDigit(s[i])
    ensures i < j <= |s|
  {
    var e := RunEnd(s, i, IsDigit);
    if e < |s| && s[e] == '.' then RunEnd(s, e + 1, IsDigit) else e
  }

  /** A value above 5000 is a whole part above 5000, or exactly 5000 with a
      non-zero digit after the point. */
  lemma DecimalAbove5000(d: Decimal)
    requires ValidDecimal(d)
    ensures DecimalValue(d) > 5000.0 <==>
              DigitsValue(d.whole) > 5000 || (DigitsValue(d.whole) == 5000 && exists k :: 0 <= k < |d.frac| && d.frac[k] != '0')
  {
  }

  /** A zero value is a number made of zeros only. */
  lemma DecimalZero(d: Decimal)
    requires ValidDecimal(d)
    ensures DecimalValue(d) == 0.0 <==>
              DigitsValue(d.whole) == 0 && forall k :: 0 <= k < |d.frac| ==> d.frac[k] == '0'
  {
  }

  /** A number and the unit word written after it. */
  datatype Quantity = Quantity(amount: Decimal, unit: string)

  /** A match of `(\d+\.?\d*)\s*([a-z؀-ۿ]+)?` with the `i` flag:
      the first number, and the letters after it and optional white space,
      lower-cased, or the empty unit when no letter follows. */
  function QuantityOf(s: string): (r: Option<Quantity>)
    ensures r.None? <==> forall k :: 0 <= k < |s| ==> !IsDigit(s[k])
    ensures r.Some? ==> ValidDecimal(r.value.amount)
  {
    var i := FindIndex(s, IsDigit);
    if i == -1 then None
    else
      var e := NumberEnd(s, i);
      var f := RunEnd(s, e, IsSpace);
      var g := RunEnd(s, f, IsUnitLetter);
      Some(Quantity(NumberAt(s, i), Lower(s[f..g])))
  }

  // ---------------------------------------------------------------- validating

  datatype DosageWarning =
    | MissingNumber
    | UnusuallyHigh
    | MissingUnit
    | ZeroDosage
    | NotStandard(value: string, drugName: string, standardDosages: seq<string>)

  /** `value.trim().toLowerCase()`. */
  function Cleaned(value: string): string
  {
    Lower(Trim(value))
  }

  /** Some listed unit occurs anywhere in the text. */
  predicate HasUnit(s: string)
  {
    exists u: ListedUnit :: Contains(s, UnitText(u))
  }

  /** The text has digits, then optional white space, then one of the
      pattern's units. */
  predicate CommonPattern(s: string)
  {
    exists k | 0 <= k <= |s| :: DigitsThenSpaces(s, k) && PatternUnitAt(s, k)
  }

  /** One of the pattern's units occurs at k. */
  predicate PatternUnitAt(s: string, k: int)
  {
    exists u: ListedUnit :: InPattern(u) && OccursAt(s, UnitText(u), k)
  }

  /** Some non-empty digit run followed by white space ends at k. */
  predicate DigitsThenSpaces(s: string, k: int)
  {
    exists i, j | 0 <= i < j <= k <= |s| :: AllIn(s, i, j, IsDigit) && AllIn(s, j, k, IsSpace)
  }

  predicate AllIn(s: string, i: int, j: int, p: char -> bool)
    requires 0 <= i <= j <= |s|
  {
    forall m :: i <= m < j ==> p(s[m])
  }

  /** Both units are spellings in one group of the unit table. */
  predicate EquivalentUnits(a: string, b: string)
  {
    exists g: UnitGroup :: a in Spellings(g) && b in Spellings(g)
  }

  /** One normalised standard dosage accepts the normalised input: equal
      texts, or an equal number with no unit on either side, the same unit,
      or units of one group. */
  predicate StandardAccepts(input: string, q: Quantity, standard: string)
    requires ValidDecimal(q.amount)
  {
    || input == standard
    || match QuantityOf(standard)
       case None => false
       case Some(sq) =>
         && DecimalValue(q.amount) == DecimalValue(sq.amount)
         && (|| (q.unit == "" && sq.unit == "")
             || (q.unit != "" && sq.unit != "" && q.unit == sq.unit)
             || EquivalentUnits(q.unit, sq.unit))
  }

  function AcceptsInput(input: string, q: Quantity): string -> bool
    requires ValidDecimal(q.amount)
  {
    (standard: string) => StandardAccepts(input, q, standard)
  }

  /** The comparison with the drug's standard dosages, which are non-empty. */
  function CheckStandards(value: string, drug: DrugInstruction, standards: seq<string>, isArabic: bool): (r: Option<DosageWarning>)
    ensures r.None? || r == Some(NotStandard(value, if isArabic then drug.nameAr else drug.name, standards))
  {
    var input := NormalizeDosage(value);
    match QuantityOf(input)
    case None => None
    case Some(q) =>
      if Exists(Map(standards, NormalizeDosage), AcceptsInput(input, q)) then None
      else Some(NotStandard(value, if isArabic then drug.nameAr else drug.name, standards))
  }

  /** The first number of the text, when it has a digit: what the form
      compares with 5000 and with zero. */
  function FirstNumber(t: string): (r: Option<real>)
    ensures r.None? <==> !HasDigit(t)
    ensures r.Some? ==> 0.0 <= r.value
  {
    var i := FindIndex(t, IsDigit);
    if i == -1 then None else Some(DecimalValue(NumberAt(t, i)))
  }

  /** The comparison with the standard dosages, made only for a selected
      drug that has some. */
  function StandardsWarning(value: string, drug: Option<DrugInstruction>, isArabic: bool): (r: Option<DosageWarning>)
    ensures r.None? || r.value.NotStandard?
  {
    if drug.Some? && drug.value.standardDosages.Some? && |drug.value.standardDosages.value| > 0 then
      CheckStandards(value, drug.value, drug.value.standardDosages.value, isArabic)
    else None
  }

  /** `validateDosage`: no warning for a blank dosage; otherwise, in this
      order, a missing number, a first number above 5000, no unit, a zero
      number, and a dosage that none of the selected drug's standard
      dosages accepts. */
  function ValidateDosage(value: string, drug: Option<DrugInstruction>, isArabic: bool): Option<DosageWarning>
  {
    if Trim(value) == "" then None
    else
      var t := Cleaned(value);
      match FirstNumber(t)
      case None => Some(MissingNumber)
      case Some(numericValue) =>
        if numericValue > 5000.0 then Some(UnusuallyHigh)
        else if !HasUnit(t) && !CommonPattern(t) then Some(MissingUnit)
        else if numericValue == 0.0 then Some(ZeroDosage)
        else StandardsWarning(value, drug, isArabic)
  }

  // ---------------------------------------------------------------- what the warnings mean

  predicate HasDigit(s: string)
  {
    exists k :: 0 <= k < |s| && IsDigit(s[k])
  }

  /** Trimming keeps every character that is not white space, at its place
      after the removed front. */
  lemma TrimKeepsNonSpace(s: string, k: int)
    requires 0 <= k < |s| && !IsSpace(s[k])
    ensures var d := |s| - |TrimStart(s)|; d <= k && k - d < |Trim(s)| && Trim(s)[k - d] == s[k]
  {
    var a := TrimStart(s);
    var d := |s| - |a|;
    TrimStartKeeps(s, k);
    assert a[k - d] == s[k];
    TrimEndKeeps(a, k - d);
  }

  /** Every character of the trimmed text comes from the text. */
  lemma TrimFrom(s: string, k: int)
    requires 0 <= k < |Trim(s)|
    ensures var d := |s| - |TrimStart(s)|; k + d < |s| && Trim(s)[k] == s[k + d]
  {
    var a := TrimStart(s);
    assert Trim(s)[k] == a[k];
  }

  lemma LowerDigit(c: char)
    ensures IsDigit(LowerChar(c)) <==> IsDigit(c)
  {
  }

  /** Trimming and lower-casing neither add nor remove a digit. */
  lemma CleanedDigits(value: string)
    ensures HasDigit(Cleaned(value)) <==> HasDigit(value)
  {
    if HasDigit(value) {
      var k :| 0 <= k < |value| && IsDigit(value[k]);
      DigitNotSpace(value[k]);
      TrimKeepsNonSpace(value, k);
      var j := k - (|value| - |TrimStart(value)|);
      LowerDigit(Trim(value)[j]);
      assert IsDigit(Cleaned(value)[j]);
    }
    if HasDigit(Cleaned(value)) {
      var k :| 0 <= k < |Cleaned(value)| && IsDigit(Cleaned(value)[k]);
      LowerDigit(Trim(value)[k]);
      TrimFrom(value, k);
    }
  }

  /** A blank dosage gets no warning. */
  lemma BlankHasNoWarning(value: string, drug: Option<DrugInstruction>, isArabic: bool)
    requires forall k :: 0 <= k < |value| ==> IsSpace(value[k])
    ensures ValidateDosage(value, drug, isArabic) == None
  {
    TrimEmpty(value);
  }

  /** The missing-number warning is given exactly to a dosage that is not
      blank and has no digit. */
  lemma MissingNumberMeaning(value: string, drug: Option<DrugInstruction>, isArabic: bool)
    ensures ValidateDosage(value, drug, isArabic) == Some(MissingNumber) <==>
              (exists k :: 0 <= k < |value| && !IsSpace(value[k])) && !HasDigit(value)
  {
    TrimEmpty(value);
    CleanedDigits(value);
    var t := Cleaned(value);
    var r := ValidateDosage(value, drug, isArabic);
    if Trim(value) != "" && FirstNumber(t).Some? {
      var w := StandardsWarning(value, drug, isArabic);
      assert w.None? || w.value.NotStandard?;
      var n := FirstNumber(t).value;
      assert r == if n > 5000.0 then Some(UnusuallyHigh)
                  else if !HasUnit(t) && !CommonPattern(t) then Some(MissingUnit)
                  else if n == 0.0 then Some(ZeroDosage)
                  else w;
    }
  }

  /** The high-dose warning is given exactly when the first number, of a
      dosage that has one, is above 5000, whatever the unit. */
  lemma UnusuallyHighMeaning(value: string, drug: Option<DrugInstruction>, isArabic: bool)
    ensures ValidateDosage(value, drug, isArabic) == Some(UnusuallyHigh) <==>
              FirstNumber(Cleaned(value)).Some? && FirstNumber(Cleaned(value)).value > 5000.0
  {
    var t := Cleaned(value);
    var r := ValidateDosage(value, drug, isArabic);
    if Trim(value) == "" {
      assert t == "";
      assert r == None;
    } else if FirstNumber(t).Some? && FirstNumber(t).value <= 5000.0 {
      var w := StandardsWarning(value, drug, isArabic);
      assert w.None? || w.value.NotStandard?;
      var n := FirstNumber(t).value;
      assert r == if !HasUnit(t) && !CommonPattern(t) then Some(MissingUnit)
                  else if n == 0.0 then Some(ZeroDosage)
                  else w;
    }
  }

  /** Digits followed by a pattern unit contain that unit. */
  lemma PatternImpliesUnit(s: string)
    requires CommonPattern(s)
    ensures HasUnit(s)
  {
    var k :| 0 <= k <= |s| && DigitsThenSpaces(s, k) && PatternUnitAt(s, k);
    var u :| InPattern(u) && OccursAt(s, UnitText(u), k);
    assert Contains(s, UnitText(u));
  }

  /** The unit suggestion is given exactly to a dosage with a first number
      of at most 5000 and no listed unit anywhere: the fallback pattern
      never rescues a dosage without a unit. */
  lemma MissingUnitMeaning(value: string, drug: Option<DrugInstruction>, isArabic: bool)
    ensures ValidateDosage(value, drug, isArabic) == Some(MissingUnit) <==>
              FirstNumber(Cleaned(value)).Some? && FirstNumber(Cleaned(value)).value <= 5000.0 && !HasUnit(Cleaned(value))
  {
    var t := Cleaned(value);
    var r := ValidateDosage(value, drug, isArabic);
    if Trim(value) == "" {
      assert t == "";
      assert r == None;
    } else {
      match FirstNumber(t)
      case None =>
        assert r == Some(MissingNumber);
      case Some(n) =>
        if n > 5000.0 {
          assert r == Some(UnusuallyHigh);
        } else if !HasUnit(t) {
          if CommonPattern(t) {
            PatternImpliesUnit(t);
          }
          assert r == Some(MissingUnit);
        } else {
          var w := StandardsWarning(value, drug, isArabic);
          assert w.None? || w.value.NotStandard?;
          assert r == (if n == 0.0 then Some(ZeroDosage) else w);
        }
    }
  }

  /** The zero warning is given exactly to a dosage with a unit whose first
      number is zero. */
  lemma ZeroDosageMeaning(value: string, drug: Option<DrugInstruction>, isArabic: bool)
    ensures ValidateDosage(value, drug, isArabic) == Some(ZeroDosage) <==>
              FirstNumber(Cleaned(value)).Some? && FirstNumber(Cleaned(value)).value == 0.0 && HasUnit(Cleaned(value))
  {
    var t := Cleaned(value);
    var r := ValidateDosage(value, drug, isArabic);
    if CommonPattern(t) {
      PatternImpliesUnit(t);
    }
    if Trim(value) == "" {
      assert t == "";
      assert r == None;
    } else if FirstNumber(t).Some? {
      var w := StandardsWarning(value, drug, isArabic);
      assert w.None? || w.value.NotStandard?;
      var n := FirstNumber(t).value;
      assert r == if n > 5000.0 then Some(UnusuallyHigh)
                  else if !HasUnit(t) then Some(MissingUnit)
                  else if n == 0.0 then Some(ZeroDosage)
                  else w;
    }
  }

  /** Every listed unit starts with a letter. */
  lemma UnitsStartWithLetter(u: ListedUnit)
    ensures |UnitText(u)| > 0 && !IsDigit(UnitText(u)[0]) && !IsSpace(UnitText(u)[0]) && UnitText(u)[0] != '.'
  {
  }

  /** A character of a bare number: a digit, white space or a point. */
  predicate IsBareChar(c: char)
  {
    IsDigit(c) || IsSpace(c) || c == '.'
  }

  lemma LowerBareChar(c: char)
    requires IsBareChar(c)
    ensures LowerChar(c) == c
  {
  }

  /** A dosage of digits, white space and points only, such as "0", gets the
      unit suggestion before the zero check is reached. */
  lemma BareNumberNeedsUnit(value: string, drug: Option<DrugInstruction>, isArabic: bool)
    requires FirstNumber(Cleaned(value)).Some? && FirstNumber(Cleaned(value)).value <= 5000.0
    requires forall k :: 0 <= k < |value| ==> IsBareChar(value[k])
    ensures ValidateDosage(value, drug, isArabic) == Some(MissingUnit)
  {
    CleanedBare(value);
    BareHasNoUnit(Cleaned(value));
    MissingUnitMeaning(value, drug, isArabic);
  }

  lemma CleanedBare(value: string)
    requires forall k :: 0 <= k < |value| ==> IsBareChar(value[k])
    ensures forall k :: 0 <= k < |Cleaned(value)| ==> IsBareChar(Cleaned(value)[k])
  {
    var t := Cleaned(value);
    forall k | 0 <= k < |t|
      ensures IsBareChar(t[k])
    {
      TrimFrom(value, k);
      LowerBareChar(Trim(value)[k]);
    }
  }

  /** No listed unit occurs in a text of bare-number characters. */
  lemma BareHasNoUnit(t: string)
    requires forall k :: 0 <= k < |t| ==> IsBareChar(t[k])
    ensures !HasUnit(t)
  {
    forall v: ListedUnit, i | 0 <= i <= |t|
      ensures !OccursAt(t, UnitText(v), i)
    {
      var u := UnitText(v);
      UnitsStartWithLetter(v);
      if i + |u| <= |t| {
        assert t[i..i + |u|][0] == t[i] != u[0];
      }
    }
  }

  /** Stripping the dose forms keeps a digit that was there. */
  lemma StripFormsKeepsDigit(s: string)
    requires HasDigit(s)
    ensures HasDigit(StripForms(s))
  {
    StripFormsKeepsDigits(s);
    FilterEmpty(s, IsDigit);
    FilterEmpty(StripForms(s), IsDigit);
  }

  lemma {:induction false} CollapseKeepsDigit(s: string)
    requires HasDigit(s)
    ensures HasDigit(CollapseSpaces(s))
    decreases |s|
  {
    if IsDigit(s[0]) {
      assert CollapseSpaces(s)[0] == s[0];
    } else if IsSpace(s[0]) {
      TailKeepsDigit(s);
      TrimStartKeepsDigit(s[1..]);
      CollapseKeepsDigit(TrimStart(s[1..]));
      PrefixedDigit(" ", CollapseSpaces(TrimStart(s[1..])));
    } else {
      TailKeepsDigit(s);
      CollapseKeepsDigit(s[1..]);
      PrefixedDigit([s[0]], CollapseSpaces(s[1..]));
    }
  }

  lemma TailKeepsDigit(s: string)
    requires HasDigit(s) && !IsDigit(s[0])
    ensures HasDigit(s[1..])
  {
    var k :| 0 <= k < |s| && IsDigit(s[k]);
    assert s[1..][k - 1] == s[k];
  }

  lemma TrimStartKeepsDigit(s: string)
    requires HasDigit(s)
    ensures HasDigit(TrimStart(s))
  {
    var k :| 0 <= k < |s| && IsDigit(s[k]);
    DigitNotSpace(s[k]);
    TrimStartKeeps(s, k);
    assert TrimStart(s)[k - (|s| - |TrimStart(s)|)] == s[k];
  }

  lemma PrefixedDigit(a: string, c: string)
    requires HasDigit(c)
    ensures HasDigit(a + c)
  {
    var j :| 0 <= j < |c| && IsDigit(c[j]);
    assert (a + c)[|a| + j] == c[j];
  }

  lemma TrimKeepsDigit(s: string)
    requires HasDigit(s)
    ensures HasDigit(Trim(s))
  {
    var k :| 0 <= k < |s| && IsDigit(s[k]);
    DigitNotSpace(s[k]);
    TrimKeepsNonSpace(s, k);
  }

  lemma LowerKeepsDigit(s: string)
    requires HasDigit(s)
    ensures HasDigit(Lower(s))
  {
    var k :| 0 <= k < |s| && IsDigit(s[k]);
    assert IsDigit(Lower(s)[k]);
  }

  /** The normalised dosage keeps a digit of the dosage, so its number is
      always found and the branch that skips the standard-dosage check for
      an unreadable input is never taken. */
  lemma NormalizedKeepsNumber(value: string)
    requires HasDigit(value)
    ensures QuantityOf(NormalizeDosage(value)).Some?
  {
    LowerKeepsDigit(value);
    CollapseKeepsDigit(Lower(value));
    TrimKeepsDigit(CollapseSpaces(Lower(value)));
    StripFormsKeepsDigit(Trim(CollapseSpaces(Lower(value))));
    TrimKeepsDigit(StripForms(Trim(CollapseSpaces(Lower(value)))));
  }

  /** A dosage that passes the earlier checks: a first number in (0, 5000]
      and a unit. */
  predicate PassesBasicChecks(value: string)
  {
    && FirstNumber(Cleaned(value)).Some?
    && 0.0 < FirstNumber(Cleaned(value)).value <= 5000.0
    && HasUnit(Cleaned(value))
  }

  /** A dosage that passes the earlier checks gets the verdict of the
      comparison with the standard dosages. */
  lemma PassingDosageIsCompared(value: string, drug: Option<DrugInstruction>, isArabic: bool)
    requires PassesBasicChecks(value)
    ensures ValidateDosage(value, drug, isArabic) == StandardsWarning(value, drug, isArabic)
  {
    assert |Cleaned(value)| > 0;
    assert Trim(value) != "";
  }

  /** The normalised dosage always has a number, and no standard dosage
      accepts it exactly when the comparison warns. */
  lemma CheckStandardsMeaning(value: string, drug: DrugInstruction, standards: seq<string>, isArabic: bool)
    requires HasDigit(value)
    ensures QuantityOf(NormalizeDosage(value)).Some?
    ensures var input := NormalizeDosage(value);
            var q := QuantityOf(input).value;
            CheckStandards(value, drug, standards, isArabic).None? <==>
              exists k :: 0 <= k < |standards| && StandardAccepts(input, q, NormalizeDosage(standards[k]))
  {
    NormalizedKeepsNumber(value);
    var input := NormalizeDosage(value);
    var q := QuantityOf(input).value;
    var m := Map(standards, NormalizeDosage);
    assert CheckStandards(value, drug, standards, isArabic).None? <==> Exists(m, AcceptsInput(input, q));
    assert forall k :: 0 <= k < |standards| ==>
      AcceptsInput(input, q)(m[k]) == StandardAccepts(input, q, NormalizeDosage(standards[k]));
  }

  /** For a drug with standard dosages, a dosage passing the earlier checks
      is warned about exactly when no standard accepts it, and the warning
      names the dosage, the drug in the form's language and the standards. */
  lemma NotStandardMeaning(value: string, drug: DrugInstruction, isArabic: bool)
    requires drug.standardDosages.Some? && |drug.standardDosages.value| > 0
    requires PassesBasicChecks(value)
    ensures QuantityOf(NormalizeDosage(value)).Some?
    ensures var input := NormalizeDosage(value);
            var q := QuantityOf(input).value;
            var standards := drug.standardDosages.value;
            var r := ValidateDosage(value, Some(drug), isArabic);
            && (r == None <==> exists k :: 0 <= k < |standards| && StandardAccepts(input, q, NormalizeDosage(standards[k])))
            && (r != None ==> r == Some(NotStandard(value, if isArabic then drug.nameAr else drug.name, standards)))
  {
    CleanedDigits(value);
    PassingDosageIsCompared(value, Some(drug), isArabic);
    CheckStandardsMeaning(value, drug, drug.standardDosages.value, isArabic);
  }

  /** Without a selected drug with standard dosages, a dosage passing the
      earlier checks gets no warning. */
  lemma NoStandardsNoWarning(value: string, drug: Option<DrugInstruction>, isArabic: bool)
    requires drug.None? || drug.value.standardDosages.None? || |drug.value.standardDosages.value| == 0
    requires PassesBasicChecks(value)
    ensures ValidateDosage(value, drug, isArabic) == None
  {
    PassingDosageIsCompared(value, drug, isArabic);
  }

  // ---------------------------------------------------------------- picking a suggestion

  /** The food defaults a drug's food timing fills in: with or after food
      sets "with food"; an empty stomach or before a meal clears it and
      picks the empty-stomach time; any other timing keeps both. */
  function FoodDefaults(timing: FoodTiming, withFood: bool, pref: TimePreference): (r: (bool, TimePreference))
    ensures r.0 <==> (timing.TimingWithFood? || timing.TimingAfterMeal? || (withFood && timing.TimingAny?))
    ensures r.1 == (if timing.TimingEmptyStomach? || timing.TimingBeforeMeal? then EmptyStomach else pref)
  {
    if timing == TimingWithFood || timing == TimingAfterMeal then (true, pref)
    else if timing == TimingEmptyStomach || timing == TimingBeforeMeal then (false, EmptyStomach)
    else (withFood, pref)
  }

  /** Picking the same drug twice fills in nothing more. */
  lemma FoodDefaultsIdempotent(timing: FoodTiming, withFood: bool, pref: TimePreference)
    ensures var r := FoodDefaults(timing, withFood, pref);
            FoodDefaults(timing, r.0, r.1) == r
  {
  }

  /** The part of the form's state that picking a suggestion changes. */
  class FormState {
    var name: string
    var selectedDrug: Option<DrugInstruction>
    var showSuggestions: bool
    var withFood: bool
    var timePreference: TimePreference

    constructor (name: string, withFood: bool, timePreference: TimePreference)
      ensures this.name == name && selectedDrug == None && !showSuggestions
      ensures this.withFood == withFood && this.timePreference == timePreference
    {
      this.name := name;
      selectedDrug := None;
      showSuggestions := false;
      this.withFood := withFood;
      this.timePreference := timePreference;
    }

    /** `handleSelectDrug`: the name in the form's language, the drug
        selected, the suggestions hidden and the food defaults filled in. */
    method SelectDrug(drug: DrugInstruction, isArabic: bool)
      modifies this
      ensures name == (if isArabic then drug.nameAr else drug.name)
      ensures selectedDrug == Some(drug) && !showSuggestions
      ensures (withFood, timePreference) == FoodDefaults(drug.foodTiming, old(withFood), old(timePreference))
    {
      name := if isArabic then drug.nameAr else drug.name;
      selectedDrug := Some(drug);
      showSuggestions := false;
      if drug.foodTiming == TimingWithFood || drug.foodTiming == TimingAfterMeal {
        withFood := true;
      } else if drug.foodTiming == TimingEmptyStomach || drug.foodTiming == TimingBeforeMeal {
        withFood := false;
        timePreference := EmptyStomach;
      }
    }
  }
}
