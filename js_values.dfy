/** JavaScript values as the character-sheet code sees them after
    `JSON.parse` or a document-store read, with the coercions it applies to
    them: truthiness, `Number(v)`, `String(v)`, object spread and
    `Object.values`. */
module JsValues {
  import opened JsText

  datatype Option<+T> = None | Some(value: T)

  /** A JavaScript value. Numbers are integers; every non-finite number
      (NaN, plus or minus Infinity) is `NaN`. */
  datatype Value =
    | Undefined
    | Null
    | Bool(b: bool)
    | Num(n: int)
    | NaN
    | Str(s: string)
    | Arr(elems: seq<Value>)
    | Obj(fields: map<string, Value>)

  /** The own properties of a plain object. */
  type Fields = map<string, Value>

  /** `obj[k]`: a missing property reads as `undefined`. */
  function Get(f: Fields, k: string): Value
  {
    if k in f then f[k] else Undefined
  }

  /** `v?.[k]` for the property names used here: only plain objects carry them. */
  function Member(v: Value, k: string): Value
  {
    if v.Obj? then Get(v.fields, k) else Undefined
  }

  /** `Boolean(v)`. */
  predicate Truthy(v: Value)
  {
    match v
    case Undefined => false
    case Null => false
    case Bool(b) => b
    case Num(n) => n != 0
    case NaN => false
    case Str(s) => s != ""
    case Arr(_) => true
    case Obj(_) => true
  }

  /** `isObject`: a plain object, neither `null` nor an array. */
  predicate IsObject(v: Value)
  {
    v.Obj?
  }

  predicate IsNullish(v: Value)
  {
    v.Undefined? || v.Null?
  }

  /** `a || b`. */
  function Or(a: Value, b: Value): Value
  {
    if Truthy(a) then a else b
  }

  /** `a ?? b`. */
  function Coalesce(a: Value, b: Value): Value
  {
    if IsNullish(a) then b else a
  }

  /** `a === b`; NaN is unequal to itself. */
  predicate StrictEquals(a: Value, b: Value)
  {
    a == b && !a.NaN?
  }

  /** `Number(t)` for an already trimmed string: the empty string is 0, an
      optionally signed run of decimal digits is its value, anything else
      is not a finite integer. */
  function ParseNumber(t: string): Option<int>
  {
    if t == "" then Some(0)
    else if |t| > 1 && (t[0] == '+' || t[0] == '-') && AllDigits(t[1..]) then
      Some(if t[0] == '-' then 0 - DigitsValue(t[1..]) as int else DigitsValue(t[1..]))
    else if AllDigits(t) then Some(DigitsValue(t))
    else None
  }

  /** `String(e)` for an element of an array being joined: `null` and
      `undefined` render as the empty string. */
  function ElementString(e: Value): string
  {
    if IsNullish(e) then "" else StringOf(e)
  }

  /** `String(v)`. */
  function StringOf(v: Value): string
  {
    match v
    case Undefined => "undefined"
    case Null => "null"
    case Bool(b) => if b then "true" else "false"
    case Num(n) => IntToString(n)
    case NaN => "NaN"
    case Str(s) => s
    case Arr(es) =>
      Join(seq(|es|, i requires 0 <= i < |es| => if IsNullish(es[i]) then "" else StringOf(es[i])), ',')
    case Obj(_) => "[object Object]"
  }

  /** `Number(v)`: `Some(n)` for a finite result, `None` for NaN or an infinity. */
  function ToNumber(v: Value): Option<int>
  {
    match v
    case Undefined => None
    case Null => Some(0)
    case Bool(b) => Some(if b then 1 else 0)
    case Num(n) => Some(n)
    case NaN => None
    case Str(s) => ParseNumber(Trim(s))
    case Arr(es) =>
      if |es| == 0 then Some(0)
      else if |es| == 1 then ParseNumber(Trim(ElementString(es[0])))
      else None
    case Obj(_) => None
  }

  /** The own enumerable properties of `v`, as `{...v}` and `Object.keys(v)`
      see them: an array or a string contributes its indices. */
  function OwnEntries(v: Value): (f: Fields)
    ensures v.Obj? ==> f == v.fields
    ensures !v.Obj? && !v.Arr? && !v.Str? ==> f == map[]
  {
    NatToStringIsInjective();
    match v
    case Obj(fields) => fields
    case Arr(es) => map i | 0 <= i < |es| :: NatToString(i) := es[i]
    case Str(s) => map i | 0 <= i < |s| :: NatToString(i) := Str([s[i]])
    case _ => map[]
  }

  /** A property name that is not an index reads the same through `{...v}`
      as through `v[k]`. */
  lemma NamedEntry(v: Value, k: string)
    requires k != "" && !('0' <= k[0] <= '9')
    ensures Get(OwnEntries(v), k) == Member(v, k)
  {
    assert forall n: nat :: NatToString(n) != k by {
      forall n: nat ensures NatToString(n) != k {
        assert '0' <= NatToString(n)[0] <= '9';
      }
    }
  }

  /** `Object.values(f)` when the properties are enumerated in the order
      `keys`. JavaScript lists an object's own properties in insertion order
      (integer-like keys first), which `Fields` does not record, so a caller
      whose result depends on that order takes it as a parameter; names in
      `keys` that `f` lacks are skipped. */
  function ValuesInOrder(f: Fields, keys: seq<string>): (vs: seq<Value>)
    ensures |vs| <= |keys|
    ensures forall v | v in vs :: v in f.Values
  {
    if keys == [] then []
    else (if keys[0] in f then [f[keys[0]]] else []) + ValuesInOrder(f, keys[1..])
  }

  /** Every property whose name the order lists has its value listed. */
  lemma {:induction false} ValueListed(f: Fields, keys: seq<string>, k: string)
    requires k in f && k in keys
    ensures f[k] in ValuesInOrder(f, keys)
  {
    if keys[0] != k {
      ValueListed(f, keys[1..], k);
    }
  }

  /** An order that names every property lists every value. */
  lemma ValuesInOrderComplete(f: Fields, keys: seq<string>)
    requires forall k | k in f :: k in keys
    ensures forall v :: v in ValuesInOrder(f, keys) <==> v in f.Values
  {
    forall v | v in f.Values ensures v in ValuesInOrder(f, keys) {
      var k :| k in f && f[k] == v;
      ValueListed(f, keys, k);
    }
  }

  /** `Object.values(f)`, listing the properties in ascending key order. */
  function ObjectValues(f: Fields): (vs: seq<Value>)
    ensures |vs| == |f.Keys|
    ensures forall v :: v in vs <==> v in f.Values
  {
    var ks := SortedKeys(f.Keys);
    var vs := seq(|ks|, i requires 0 <= i < |ks| => f[ks[i]]);
    assert forall v | v in f.Values :: v in vs by {
      forall v | v in f.Values ensures v in vs {
        var k :| k in f && f[k] == v;
        var i :| 0 <= i < |ks| && ks[i] == k;
        assert vs[i] == v;
      }
    }
    vs
  }
}
