/** The point tables of the status page (src/pages/Page3.jsx): attribute
    points and cap, skill points and cap, all read from the sheet's
    `nivel`, `biotipo-Pericias` and `atributo-INT` fields with JavaScript's
    coercions, and the header the skill section shows. */
module LevelTables {
  import opened JsText
  import opened JsValues

  /** `userData.nivel || 1`: an unset, empty or zero level counts as 1. */
  function EffectiveLevel(data: Fields): Value
  {
    Or(Get(data, "nivel"), Num(1))
  }

  /** `v < n` against a number: false whenever `v` converts to NaN. */
  predicate LessThan(v: Value, n: int)
  {
    ToNumber(v).Some? && ToNumber(v).value < n
  }

  /** `calculateAttributesPoints`. */
  function AttributesPoints(data: Fields): (p: int)
    ensures 9 <= p <= 13
  {
    var nivel := EffectiveLevel(data);
    if LessThan(nivel, 4) then 9
    else if LessThan(nivel, 10) then 10
    else if LessThan(nivel, 16) then 11
    else if LessThan(nivel, 19) then 12
    else 13
  }

  /** `calculateAttributesCap`. */
  function AttributesCap(data: Fields): (c: int)
    ensures 3 <= c <= 5
  {
    var nivel := EffectiveLevel(data);
    if LessThan(nivel, 4) then 3
    else if LessThan(nivel, 10) then 4
    else 5
  }

  /** `calculatePericiasCap`: the stored level when it is truthy, else 1;
      never falsy. */
  function PericiasCap(data: Fields): (c: Value)
    ensures Truthy(c)
    ensures Truthy(Get(data, "nivel")) ==> c == Get(data, "nivel")
    ensures !Truthy(Get(data, "nivel")) ==> c == Num(1)
  {
    EffectiveLevel(data)
  }

  /** The attribute points of a numeric level, band by band. */
  lemma AttributesPointsByLevel(data: Fields, level: int)
    requires Get(data, "nivel") == Num(level) && level != 0
    ensures level < 4 ==> AttributesPoints(data) == 9
    ensures 4 <= level < 10 ==> AttributesPoints(data) == 10
    ensures 10 <= level < 16 ==> AttributesPoints(data) == 11
    ensures 16 <= level < 19 ==> AttributesPoints(data) == 12
    ensures 19 <= level ==> AttributesPoints(data) == 13
    ensures level < 4 ==> AttributesCap(data) == 3
    ensures 4 <= level < 10 ==> AttributesCap(data) == 4
    ensures 10 <= level ==> AttributesCap(data) == 5
    ensures PericiasCap(data) == Num(level)
  {
  }

  /** Raising a numeric level never lowers the attribute points or cap. */
  lemma {:induction false} TablesMonotone(lower: Fields, higher: Fields, a: int, b: int)
    requires Get(lower, "nivel") == Num(a) && Get(higher, "nivel") == Num(b)
    requires a <= b
    ensures AttributesPoints(lower) <= AttributesPoints(higher)
    ensures AttributesCap(lower) <= AttributesCap(higher)
  {
    var x := if a == 0 then 1 else a;
    var y := if b == 0 then 1 else b;
    assert ToNumber(EffectiveLevel(lower)) == Some(x);
    assert ToNumber(EffectiveLevel(higher)) == Some(y);
    if a == 0 {
      // Level 0 reads as 1, below every band but the first.
      assert x < 4;
    }
  }

  /** A missing, empty, zero or NaN level gives every table its level-1
      value, and the skill cap is 1. */
  lemma UnsetLevelIsOne(data: Fields, one: Fields)
    requires !Truthy(Get(data, "nivel"))
    requires Get(one, "nivel") == Num(1)
    ensures AttributesPoints(data) == AttributesPoints(one) == 9
    ensures AttributesCap(data) == AttributesCap(one) == 3
    ensures PericiasCap(data) == PericiasCap(one) == Num(1)
  {
  }

  /** A truthy level that is not a number compares false with every
      threshold and so falls through to the top of both tables. */
  lemma NonNumericLevel(data: Fields)
    requires Truthy(Get(data, "nivel")) && ToNumber(Get(data, "nivel")).None?
    ensures AttributesPoints(data) == 13
    ensures AttributesCap(data) == 5
  {
  }

  // ---------------------------------------------------------------------
  // Skill points

  /** `base + v` for a number `base`: numeric addition, or string
      concatenation when `v` is a string, an array or an object. */
  function PlusNumber(base: int, v: Value): Value
  {
    match v
    case Undefined => NaN
    case Null => Num(base)
    case Bool(b) => Num(base + if b then 1 else 0)
    case Num(n) => Num(base + n)
    case NaN => NaN
    case Str(s) => Str(IntToString(base) + s)
    case Arr(_) => Str(IntToString(base) + StringOf(v))
    case Obj(_) => Str(IntToString(base) + StringOf(v))
  }

  /** `a * b`; `None` is NaN. */
  function Times(a: Value, b: Value): Option<int>
  {
    if ToNumber(a).Some? && ToNumber(b).Some? then Some(ToNumber(a).value * ToNumber(b).value) else None
  }

  /** `((base + aInt) * nivel) + (nivel * 2)`; `None` is NaN. */
  function PericiasFormula(base: int, aInt: Value, nivel: Value): Option<int>
  {
    var left := Times(PlusNumber(base, aInt), nivel);
    var right := Times(nivel, Num(2));
    if left.Some? && right.Some? then Some(left.value + right.value) else None
  }

  /** `calculatePericiasPoints`; `None` is NaN. */
  function PericiasPoints(data: Fields): Option<int>
  {
    var nivel := EffectiveLevel(data);
    var bPericias := Or(Get(data, "biotipo-Pericias"), Num(0));
    var aInt := Or(Get(data, "atributo-INT"), Num(0));
    if StrictEquals(bPericias, Num(0)) || StrictEquals(aInt, Num(0)) then Some(0)
    else if StrictEquals(bPericias, Num(1)) then PericiasFormula(3, aInt, nivel)
    else if StrictEquals(bPericias, Num(2)) then PericiasFormula(5, aInt, nivel)
    else if StrictEquals(bPericias, Num(3)) then PericiasFormula(7, aInt, nivel)
    else Some(-1)
  }

  /** With numeric fields, biotype `b` in 1..3 gives `(2b + 1 + INT)` points
      per level plus two per level, the level being the effective one. */
  lemma PericiasPointsNumeric(data: Fields, level: int, b: int, intel: int)
    requires Get(data, "nivel") == Num(level)
    requires Get(data, "biotipo-Pericias") == Num(b) && 1 <= b <= 3
    requires Get(data, "atributo-INT") == Num(intel) && intel != 0
    ensures var l := if level == 0 then 1 else level;
      PericiasPoints(data) == Some((2 * b + 1 + intel) * l + 2 * l)
  {
  }

  /** Skill points are 0 whenever the biotype value or INT is unset or 0. */
  lemma PericiasPointsUnset(data: Fields)
    requires !Truthy(Get(data, "biotipo-Pericias")) || !Truthy(Get(data, "atributo-INT"))
    ensures PericiasPoints(data) == Some(0)
  {
  }

  /** Any set biotype value other than the numbers 1, 2 and 3 (a string
      "1" included, as the comparison is strict) gives -1. */
  lemma PericiasPointsInvalid(data: Fields)
    requires Truthy(Get(data, "biotipo-Pericias")) && Truthy(Get(data, "atributo-INT"))
    requires Get(data, "biotipo-Pericias") !in {Num(1), Num(2), Num(3)}
    ensures PericiasPoints(data) == Some(-1)
  {
  }

  // ---------------------------------------------------------------------
  // periciaHeaderValue

  datatype Header =
    | CheckLevel     // "Verifique seu nivel"
    | Points(n: int) // the number itself
    | FillIn         // "Preencha Biotipo e Atributos"
    | Invalid        // "Biotipo invalido"

  /** `periciaHeaderValue`. */
  function PericiaHeader(data: Fields): Header
  {
    var nivel := Get(data, "nivel");
    if !Truthy(nivel) || StrictEquals(nivel, Str("")) || nivel.NaN? then CheckLevel
    else
      var p := PericiasPoints(data);
      if p.Some? && p.value > 0 then Points(p.value)
      else if p.Some? && p.value == 0 then FillIn
      else Invalid
  }

  /** The header asks for the level exactly when the level is falsy (the
      empty-string and NaN tests add nothing); otherwise it shows the
      points when positive, the fill-in hint at 0, and the invalid-biotype
      message when negative or NaN. */
  lemma PericiaHeaderSpec(data: Fields)
    ensures PericiaHeader(data) == CheckLevel <==> !Truthy(Get(data, "nivel"))
    ensures Truthy(Get(data, "nivel")) ==>
      match PericiasPoints(data)
      case Some(p) =>
        (p > 0 ==> PericiaHeader(data) == Points(p))
        && (p == 0 ==> PericiaHeader(data) == FillIn)
        && (p < 0 ==> PericiaHeader(data) == Invalid)
      case None => PericiaHeader(data) == Invalid
  {
  }
}
