/** Share codes for skills and items (src/assets/systems/shareUtils.js).
    A record is normalised to its kind's field list, compacted to short
    keys with default values left out, wrapped in a `{v, type, data}`
    payload, serialised, compressed and prefixed with `TMW2:<type>:`.
    Parsing undoes each step. The JSON and LZ-string layers are the opaque
    functions of a `Codec`. */
module ShareCodes {
  import opened JsText
  import opened JsValues

  datatype Kind = Skill | Item

  const SHARE_PREFIX: string := "TMW2"
  const INVALID_CODE: string := "Codigo de compartilhamento invalido."
  const INVALID_TYPE: string := "Tipo de compartilhamento invalido."
  const UNRECOGNISED: string := "Formato de compartilhamento nao reconhecido."

  /** The `type` string a kind is shared under. */
  function TypeName(k: Kind): string
  {
    match k
    case Skill => "SKILL"
    case Item => "ITEM"
  }

  const SKILL_FIELDS: seq<string> := [
    "title", "domain", "content", "circle", "type", "execution", "range",
    "target", "duration", "resistance", "area", "spent", "image"]

  const ITEM_FIELDS: seq<string> := ["title", "content", "type", "image", "quantity"]

  /** `SKILL_KEYS` and `ITEM_KEYS` in their declaration order, which is the
      order `Object.keys` lists them in: (full name, short key). */
  const SKILL_KEYS: seq<(string, string)> := [
    ("title", "t"), ("domain", "d"), ("content", "c"), ("circle", "ci"),
    ("type", "ty"), ("execution", "e"), ("range", "r"), ("target", "ta"),
    ("duration", "du"), ("resistance", "re"), ("area", "a"), ("spent", "s"),
    ("image", "i")]

  const ITEM_KEYS: seq<(string, string)> := [
    ("title", "t"), ("content", "c"), ("type", "ty"), ("image", "i"), ("quantity", "q")]

  function FieldList(k: Kind): seq<string>
  {
    match k
    case Skill => SKILL_FIELDS
    case Item => ITEM_FIELDS
  }

  function KeyMap(k: Kind): seq<(string, string)>
  {
    match k
    case Skill => SKILL_KEYS
    case Item => ITEM_KEYS
  }

  /** `SKILL_DEFAULTS[field]` and `ITEM_DEFAULTS[field]` for the fields of
      the kind ("" for any other name, which never occurs). */
  function Default(k: Kind, field: string): string
  {
    match k
    case Skill =>
      if field == "title" then "Skill compartilhada"
      else if field == "circle" || field == "type" || field == "execution" || field == "range" then "1"
      else ""
    case Item =>
      if field == "title" then "Item compartilhado" else ""
  }

  /** `asText(value, fallback)`. */
  function AsText(v: Value, fallback: string): string
  {
    if IsNullish(v) then fallback else StringOf(v)
  }

  /** The object `pickFields(source, fields)` accumulates: every listed
      field, holding `source?.[field]`. */
  function Picked(source: Value, fields: seq<string>): (acc: Fields)
    ensures acc.Keys == set f | f in fields
    ensures forall f | f in acc :: acc[f] == Member(source, f)
    decreases |fields|
  {
    if fields == [] then map[]
    else
      var last := fields[|fields| - 1];
      Picked(source, fields[..|fields| - 1])[last := Member(source, last)]
  }

  /** `pickFields(source, fields)`, one field per step of the `reduce`. */
  method PickFields(source: Value, fields: seq<string>) returns (acc: Fields)
    ensures acc == Picked(source, fields)
    ensures acc.Keys == set f | f in fields
  {
    acc := map[];
    for i := 0 to |fields|
      invariant acc == Picked(source, fields[..i])
    {
      PickedStep(source, fields, i);
      acc := acc[fields[i] := Member(source, fields[i])];
    }
    assert fields[..|fields|] == fields;
  }

  /** One more field adds one more property. */
  lemma PickedStep(source: Value, fields: seq<string>, i: nat)
    requires i < |fields|
    ensures Picked(source, fields[..i + 1]) == Picked(source, fields[..i])[fields[i] := Member(source, fields[i])]
  {
    var p := fields[..i + 1];
    assert p[..|p| - 1] == fields[..i] && p[|p| - 1] == fields[i];
  }

  /** `normalizeSkill` and `normalizeItem`: exactly the kind's fields, each a
      string, the default standing in for `null` and `undefined`. */
  function Normalize(k: Kind, source: Value): (r: Fields)
    ensures r.Keys == set f | f in FieldList(k)
    ensures forall f | f in r :: r[f].Str?
    ensures forall f | f in r && IsNullish(Member(source, f)) :: r[f] == Str(Default(k, f))
    ensures forall f | f in r && !IsNullish(Member(source, f)) :: r[f] == Str(StringOf(Member(source, f)))
  {
    var raw := Picked(source, FieldList(k));
    map f | f in FieldList(k) :: Str(AsText(raw[f], Default(k, f)))
  }

  /** The normaliser as the source writes it: pick the fields, then build
      the record. */
  method NormalizeRecord(k: Kind, source: Value) returns (r: Fields)
    ensures r == Normalize(k, source)
  {
    var raw := PickFields(source, FieldList(k));
    r := map f | f in FieldList(k) :: Str(AsText(raw[f], Default(k, f)));
  }

  /** A normalised record is its own normal form. */
  lemma NormalizeIdempotent(k: Kind, source: Value)
    ensures Normalize(k, Obj(Normalize(k, source))) == Normalize(k, source)
  {
    var n := Normalize(k, source);
    NormalizeRestores(k, n, n);
  }

  // ---------------------------------------------------------------------
  // compactObject

  /** The three tests after which `compactObject` leaves a field out. */
  predicate Omitted(value: Value, default: Value)
  {
    value.Undefined?
    || StrictEquals(value, default)
    || (StrictEquals(value, Str("")) && StrictEquals(default, Str("")))
  }

  /** `compactObject` keeps `field` of `data`. */
  predicate Kept(data: Fields, field: string, k: Kind)
  {
    !Omitted(Get(data, field), Str(Default(k, field)))
  }

  /** The object `compactObject` has built after visiting `pairs`. */
  function CompactedFrom(data: Fields, pairs: seq<(string, string)>, k: Kind): Fields
    decreases |pairs|
  {
    if pairs == [] then map[]
    else
      var acc := CompactedFrom(data, pairs[..|pairs| - 1], k);
      var last := pairs[|pairs| - 1];
      if Kept(data, last.0, k) then acc[last.1 := Get(data, last.0)] else acc
  }

  /** `compactObject(data, keyMap, defaults)` for the kind's maps. */
  function Compacted(data: Fields, k: Kind): Fields
  {
    CompactedFrom(data, KeyMap(k), k)
  }

  /** `compactObject`, one key-map entry per iteration of the `forEach`. */
  method CompactObject(data: Fields, k: Kind) returns (compacted: Fields)
    ensures compacted == Compacted(data, k)
  {
    var pairs := KeyMap(k);
    compacted := map[];
    for i := 0 to |pairs|
      invariant compacted == CompactedFrom(data, pairs[..i], k)
    {
      CompactedStep(data, pairs, i, k);
      var field := pairs[i].0;
      var value := Get(data, field);
      if value.Undefined? {
        continue;
      }
      if StrictEquals(value, Str(Default(k, field))) {
        continue;
      }
      if StrictEquals(value, Str("")) && StrictEquals(Str(Default(k, field)), Str("")) {
        continue;
      }
      compacted := compacted[pairs[i].1 := value];
    }
    assert pairs[..|pairs|] == pairs;
  }

  /** One more pair adds its short key exactly when the field is kept. */
  lemma CompactedStep(data: Fields, pairs: seq<(string, string)>, i: nat, k: Kind)
    requires i < |pairs|
    ensures CompactedFrom(data, pairs[..i + 1], k) ==
      if Kept(data, pairs[i].0, k)
      then CompactedFrom(data, pairs[..i], k)[pairs[i].1 := Get(data, pairs[i].0)]
      else CompactedFrom(data, pairs[..i], k)
  {
    var p := pairs[..i + 1];
    assert p[..|p| - 1] == pairs[..i] && p[|p| - 1] == pairs[i];
  }

  predicate DistinctShorts(pairs: seq<(string, string)>)
  {
    forall i, j | 0 <= i < j < |pairs| :: pairs[i].1 != pairs[j].1
  }

  predicate DistinctFulls(pairs: seq<(string, string)>)
  {
    forall i, j | 0 <= i < j < |pairs| :: pairs[i].0 != pairs[j].0
  }

  /** Every key of the compacted object is a short key of the map. */
  lemma {:induction false} CompactedKeys(data: Fields, pairs: seq<(string, string)>, k: Kind)
    ensures forall s | s in CompactedFrom(data, pairs, k) :: exists i | 0 <= i < |pairs| :: pairs[i].1 == s
    decreases |pairs|
  {
    if pairs != [] {
      var init := pairs[..|pairs| - 1];
      CompactedKeys(data, init, k);
      forall s | s in CompactedFrom(data, pairs, k)
        ensures exists i | 0 <= i < |pairs| :: pairs[i].1 == s
      {
        if s != pairs[|pairs| - 1].1 {
          assert s in CompactedFrom(data, init, k);
          var i :| 0 <= i < |init| && init[i].1 == s;
          assert pairs[i].1 == s;
        }
      }
    }
  }

  /** With distinct short keys, the compacted object holds the short key of
      exactly the kept fields, each with the field's value. */
  lemma {:induction false} CompactedLookup(data: Fields, pairs: seq<(string, string)>, k: Kind)
    requires DistinctShorts(pairs)
    ensures forall i | 0 <= i < |pairs| :: pairs[i].1 in CompactedFrom(data, pairs, k) <==> Kept(data, pairs[i].0, k)
    ensures forall i | 0 <= i < |pairs| && pairs[i].1 in CompactedFrom(data, pairs, k) ::
      CompactedFrom(data, pairs, k)[pairs[i].1] == Get(data, pairs[i].0)
    decreases |pairs|
  {
    if pairs != [] {
      var init := pairs[..|pairs| - 1];
      assert forall i | 0 <= i < |init| :: init[i] == pairs[i];
      CompactedLookup(data, init, k);
      CompactedKeys(data, init, k);
      assert forall i | 0 <= i < |init| :: pairs[i].1 != pairs[|pairs| - 1].1;
    }
  }

  // ---------------------------------------------------------------------
  // expandObject

  /** The `reverseMap` the `reduce` builds: short key to full name. */
  function ReverseFrom(pairs: seq<(string, string)>): map<string, string>
    decreases |pairs|
  {
    if pairs == [] then map[]
    else ReverseFrom(pairs[..|pairs| - 1])[pairs[|pairs| - 1].1 := pairs[|pairs| - 1].0]
  }

  /** `reverseMap[key] || key`. */
  function FullKey(reverse: map<string, string>, key: string): string
  {
    if key in reverse && reverse[key] != "" then reverse[key] else key
  }

  /** The properties `Object.keys(data || {})` enumerates and `data[key]`
      reads. */
  function Enumerable(data: Value): Fields
  {
    if Truthy(data) then OwnEntries(data) else map[]
  }

  /** A plain object enumerates its own properties. */
  lemma EnumerableObject(f: Fields)
    ensures Enumerable(Obj(f)) == f
  {
    assert OwnEntries(Obj(f)) == f;
  }

  /** The object `expandObject` has built after visiting the keys `order`. */
  function ExpandedFrom(data: Fields, order: seq<string>, reverse: map<string, string>): Fields
    decreases |order|
  {
    if order == [] then map[]
    else
      var key := order[|order| - 1];
      ExpandedFrom(data, order[..|order| - 1], reverse)[FullKey(reverse, key) := Get(data, key)]
  }

  /** `expandObject(data, keyMap)` when `Object.keys` lists the properties
      of `data` in the order `order`. */
  function Expanded(data: Value, order: seq<string>, k: Kind): Fields
  {
    ExpandedFrom(Enumerable(data), order, ReverseFrom(KeyMap(k)))
  }

  /** `expandObject`: build the reverse map, then copy each property under
      its full name. */
  method ExpandObject(data: Value, order: seq<string>, k: Kind) returns (expanded: Fields)
    ensures expanded == Expanded(data, order, k)
  {
    var pairs := KeyMap(k);
    var reverse: map<string, string> := map[];
    for i := 0 to |pairs|
      invariant reverse == ReverseFrom(pairs[..i])
    {
      assert pairs[..i + 1][..i] == pairs[..i];
      reverse := reverse[pairs[i].1 := pairs[i].0];
    }
    assert pairs[..|pairs|] == pairs;
    var source := Enumerable(data);
    expanded := map[];
    for i := 0 to |order|
      invariant expanded == ExpandedFrom(source, order[..i], reverse)
    {
      assert order[..i + 1][..i] == order[..i];
      expanded := expanded[FullKey(reverse, order[i]) := Get(source, order[i])];
    }
    assert order[..|order|] == order;
  }

  /** With distinct short keys the reverse map sends each short key back to
      its full name. */
  lemma {:induction false} ReverseLookup(pairs: seq<(string, string)>)
    requires DistinctShorts(pairs)
    ensures forall i | 0 <= i < |pairs| :: pairs[i].1 in ReverseFrom(pairs) && ReverseFrom(pairs)[pairs[i].1] == pairs[i].0
    decreases |pairs|
  {
    if pairs != [] {
      var init := pairs[..|pairs| - 1];
      assert forall i | 0 <= i < |init| :: init[i] == pairs[i];
      ReverseLookup(init);
    }
  }

  /** Every full name in the expanded object comes from a listed key. */
  lemma {:induction false} ExpandedKeys(data: Fields, order: seq<string>, reverse: map<string, string>)
    ensures forall f | f in ExpandedFrom(data, order, reverse) :: exists key | key in order :: FullKey(reverse, key) == f
    decreases |order|
  {
    if order != [] {
      var init := order[..|order| - 1];
      ExpandedKeys(data, init, reverse);
      forall f | f in ExpandedFrom(data, order, reverse)
        ensures exists key | key in order :: FullKey(reverse, key) == f
      {
        if f != FullKey(reverse, order[|order| - 1]) {
          assert f in ExpandedFrom(data, init, reverse);
          var key :| key in init && FullKey(reverse, key) == f;
          assert key in order;
        }
      }
    }
  }

  /** When no two listed keys expand to the same full name, every listed
      key's value lands under its full name. */
  lemma {:induction false} ExpandedLookup(data: Fields, order: seq<string>, reverse: map<string, string>)
    requires forall a, b | a in order && b in order && FullKey(reverse, a) == FullKey(reverse, b) :: a == b
    ensures forall key | key in order ::
      FullKey(reverse, key) in ExpandedFrom(data, order, reverse)
      && ExpandedFrom(data, order, reverse)[FullKey(reverse, key)] == Get(data, key)
    decreases |order|
  {
    if order != [] {
      var init := order[..|order| - 1];
      assert forall key | key in init :: key in order;
      ExpandedLookup(data, init, reverse);
    }
  }

  // ---------------------------------------------------------------------
  // The round trip on records

  /** A key map whose short keys and full names are each distinct and
      whose full names are non-empty: what makes expansion undo compaction. */
  predicate Invertible(pairs: seq<(string, string)>)
  {
    DistinctShorts(pairs) && DistinctFulls(pairs) && forall i | 0 <= i < |pairs| :: pairs[i].0 != ""
  }

  lemma SkillShortsDistinct()
    ensures DistinctShorts(SKILL_KEYS)
  {
  }

  lemma SkillFullsDistinct()
    ensures DistinctFulls(SKILL_KEYS)
  {
  }

  lemma SkillKeysInvertible()
    ensures Invertible(SKILL_KEYS)
  {
    SkillShortsDistinct();
    SkillFullsDistinct();
  }

  lemma ItemKeysInvertible()
    ensures Invertible(ITEM_KEYS)
  {
  }

  /** The key maps are invertible and list the kind's fields in order. */
  lemma KeyMapShape(k: Kind)
    ensures Invertible(KeyMap(k))
    ensures |KeyMap(k)| == |FieldList(k)|
    ensures forall i | 0 <= i < |KeyMap(k)| :: KeyMap(k)[i].0 == FieldList(k)[i]
  {
    if k == Skill {
      SkillKeysInvertible();
    } else {
      ItemKeysInvertible();
    }
  }

  /** Expanding a compacted object through an invertible key map gives back,
      under its full name, exactly each field that compaction kept. */
  lemma ExpandCompactedFrom(data: Fields, pairs: seq<(string, string)>, k: Kind, order: seq<string>)
    requires Invertible(pairs)
    requires forall key :: key in order <==> key in CompactedFrom(data, pairs, k)
    ensures var e := ExpandedFrom(CompactedFrom(data, pairs, k), order, ReverseFrom(pairs));
      forall i | 0 <= i < |pairs| ::
        (pairs[i].0 in e <==> Kept(data, pairs[i].0, k))
        && (pairs[i].0 in e ==> e[pairs[i].0] == Get(data, pairs[i].0))
  {
    var c := CompactedFrom(data, pairs, k);
    var reverse := ReverseFrom(pairs);
    CompactedKeys(data, pairs, k);
    CompactedLookup(data, pairs, k);
    ReverseLookup(pairs);
    // Each key of the compacted object is the short key of one field and
    // expands back to that field.
    forall key | key in order
      ensures exists i | 0 <= i < |pairs| :: pairs[i].1 == key && FullKey(reverse, key) == pairs[i].0
    {
      var i :| 0 <= i < |pairs| && pairs[i].1 == key;
      assert FullKey(reverse, key) == pairs[i].0;
    }
    forall a, b | a in order && b in order && FullKey(reverse, a) == FullKey(reverse, b)
      ensures a == b
    {
      var i :| 0 <= i < |pairs| && pairs[i].1 == a && FullKey(reverse, a) == pairs[i].0;
      var j :| 0 <= j < |pairs| && pairs[j].1 == b && FullKey(reverse, b) == pairs[j].0;
      assert i == j;
    }
    ExpandedKeys(c, order, reverse);
    ExpandedLookup(c, order, reverse);
    var e := ExpandedFrom(c, order, reverse);
    forall i | 0 <= i < |pairs|
      ensures pairs[i].0 in e <==> Kept(data, pairs[i].0, k)
      ensures pairs[i].0 in e ==> e[pairs[i].0] == Get(data, pairs[i].0)
    {
      if pairs[i].1 in c {
        assert FullKey(reverse, pairs[i].1) == pairs[i].0;
        assert pairs[i].1 in order;
      }
      if pairs[i].0 in e {
        var key :| key in order && FullKey(reverse, key) == pairs[i].0;
        var j :| 0 <= j < |pairs| && pairs[j].1 == key && FullKey(reverse, key) == pairs[j].0;
        assert i == j;
      }
    }
  }

  /** A field of a normalised record that compaction drops holds its
      default. */
  lemma DroppedIsDefault(n: Fields, k: Kind, f: string)
    requires f in n && n[f].Str?
    requires !Kept(n, f, k)
    ensures n[f] == Str(Default(k, f))
  {
  }

  /** Through an invertible key map, the expanded object holds each field
      of a normalised record that compaction kept, and every other field
      of the record holds its default. */
  lemma RestoredFields(n: Fields, e: Fields, pairs: seq<(string, string)>, k: Kind)
    requires forall f | f in n :: n[f].Str? && exists i | 0 <= i < |pairs| :: pairs[i].0 == f
    requires forall i | 0 <= i < |pairs| ::
      (pairs[i].0 in e <==> Kept(n, pairs[i].0, k))
      && (pairs[i].0 in e ==> e[pairs[i].0] == Get(n, pairs[i].0))
    ensures forall f | f in n && f in e :: e[f] == n[f]
    ensures forall f | f in n && f !in e :: n[f] == Str(Default(k, f))
  {
    forall f | f in n && f !in e
      ensures n[f] == Str(Default(k, f))
    {
      var i :| 0 <= i < |pairs| && pairs[i].0 == f;
      DroppedIsDefault(n, k, f);
    }
  }

  /** Through an invertible key map listing the record's fields, the
      expanded compaction holds each field compaction kept, and every other
      field holds its default. */
  lemma ExpandCompactedThrough(n: Fields, pairs: seq<(string, string)>, fields: seq<string>, k: Kind, order: seq<string>)
    requires Invertible(pairs)
    requires |pairs| == |fields| && forall i | 0 <= i < |pairs| :: pairs[i].0 == fields[i]
    requires n.Keys == set f | f in fields
    requires forall f | f in n :: n[f].Str?
    requires forall key :: key in order <==> key in CompactedFrom(n, pairs, k)
    ensures var e := ExpandedFrom(CompactedFrom(n, pairs, k), order, ReverseFrom(pairs));
      (forall f | f in n && f in e :: e[f] == n[f])
      && (forall f | f in n && f !in e :: n[f] == Str(Default(k, f)))
  {
    ExpandCompactedFrom(n, pairs, k, order);
    forall f | f in n
      ensures exists i | 0 <= i < |pairs| :: pairs[i].0 == f
    {
      var i :| 0 <= i < |fields| && fields[i] == f;
      assert pairs[i].0 == f;
    }
    RestoredFields(n, ExpandedFrom(CompactedFrom(n, pairs, k), order, ReverseFrom(pairs)), pairs, k);
  }

  /** For a record of string fields over the kind's field list, the
      expanded compaction holds each field compaction kept, and every other
      field holds its default. */
  lemma ExpandCompacted(n: Fields, k: Kind, order: seq<string>)
    requires n.Keys == set f | f in FieldList(k)
    requires forall f | f in n :: n[f].Str?
    requires forall key :: key in order <==> key in Compacted(n, k)
    ensures var e := Expanded(Obj(Compacted(n, k)), order, k);
      (forall f | f in n && f in e :: e[f] == n[f])
      && (forall f | f in n && f !in e :: n[f] == Str(Default(k, f)))
  {
    KeyMapShape(k);
    EnumerableObject(Compacted(n, k));
    ExpandCompactedThrough(n, KeyMap(k), FieldList(k), k, order);
  }

  /** Normalising an object that holds some fields of a record of strings
      and leaves out only fields at their defaults gives back the record. */
  lemma NormalizeRestores(k: Kind, n: Fields, e: Fields)
    requires n.Keys == set f | f in FieldList(k)
    requires forall f | f in n :: n[f].Str?
    requires forall f | f in n && f in e :: e[f] == n[f]
    requires forall f | f in n && f !in e :: n[f] == Str(Default(k, f))
    ensures Normalize(k, Obj(e)) == n
  {
    var m := Normalize(k, Obj(e));
    forall f | f in n
      ensures m[f] == n[f]
    {
      assert Member(Obj(e), f) == Get(e, f);
    }
  }

  /** `normalize(expand(compact(normalize(x)))) == normalize(x)`: sharing a
      record loses nothing once it is normalised. */
  lemma RecordRoundTrip(k: Kind, x: Value, order: seq<string>)
    requires forall key :: key in order <==> key in Compacted(Normalize(k, x), k)
    ensures Normalize(k, Obj(Expanded(Obj(Compacted(Normalize(k, x), k)), order, k))) == Normalize(k, x)
  {
    var n := Normalize(k, x);
    ExpandCompacted(n, k, order);
    NormalizeRestores(k, n, Expanded(Obj(Compacted(n, k)), order, k));
  }

  // ---------------------------------------------------------------------
  // buildShareCode and parseShareCode

  /** The opaque layers: `JSON.stringify`, `JSON.parse` (`None` where it
      throws), LZ-string's URI-component codec (the empty string standing
      for a failed decompression) and the order in which `Object.keys`
      lists a parsed object's properties. */
  datatype Codec = Codec(
    stringify: Value -> string,
    parse: string -> Option<Value>,
    compress: string -> string,
    decompress: string -> string,
    keys: Fields -> seq<string>)

  datatype Parsed =
    | NoCode                                   // `null`
    | Shared(kind: Option<Kind>, data: Value)  // `{ type, data }`
    | Rejected(message: string)                // an `Error` with this message
    | Malformed                                // `JSON.parse` threw

  /** `TMW2:<type>:`. */
  function Header(k: Kind): string
  {
    SHARE_PREFIX + ":" + TypeName(k) + ":"
  }

  /** What the group `(.+)` of `SHARE_PATTERN` accepts. */
  predicate Captures(s: string)
  {
    |s| >= 1 && forall i | 0 <= i < |s| :: !IsLineTerminator(s[i])
  }

  /** `SHARE_PATTERN.exec(t)`: the type and the compressed payload. */
  function MatchShare(t: string): Option<(Kind, string)>
  {
    if StartsWith(t, Header(Skill)) && Captures(t[|Header(Skill)|..]) then Some((Skill, t[|Header(Skill)|..]))
    else if StartsWith(t, Header(Item)) && Captures(t[|Header(Item)|..]) then Some((Item, t[|Header(Item)|..]))
    else None
  }

  /** The pattern matches exactly a header followed by a capturable payload. */
  lemma MatchShareSpec(t: string, k: Kind, payload: string)
    ensures MatchShare(t) == Some((k, payload)) <==> t == Header(k) + payload && Captures(payload)
  {
    if t == Header(k) + payload {
      assert t[..|Header(k)|] == Header(k);
      assert t[|Header(k)|..] == payload;
      if k == Item {
        assert t[5] == 'I';
      }
    }
    if MatchShare(t) == Some((k, payload)) {
      assert t == t[..|Header(k)|] + t[|Header(k)|..];
    }
  }

  /** The characters of LZ-string's URI-component alphabet. */
  predicate UriSafe(c: char)
  {
    'A' <= c <= 'Z' || 'a' <= c <= 'z' || '0' <= c <= '9' || c == '+' || c == '-' || c == '$'
  }

  /** The payload `buildShareCode` serialises. */
  function SharePayload(typ: string, compacted: Fields): Value
  {
    Obj(map["v" := Num(2), "type" := Str(typ), "data" := Obj(compacted)])
  }

  /** The kind `buildShareCode` normalises as: items for "ITEM", skills
      for anything else. */
  function BuildKind(typ: string): Kind
  {
    if typ == "ITEM" then Item else Skill
  }

  /** `buildShareCode(type, data)`. */
  function BuildShareCode(typ: string, data: Value, codec: Codec): string
  {
    var k := BuildKind(typ);
    var payload := SharePayload(typ, Compacted(Normalize(k, data), k));
    SHARE_PREFIX + ":" + typ + ":" + codec.compress(codec.stringify(payload))
  }

  /** `parseShareCode(text)`. */
  function ParseShareCode(text: string, codec: Codec): (r: Parsed)
    ensures r.NoCode? <==> text == ""
    ensures r.Shared? && r.kind.Some? ==>
      r.data.Obj? && Normalize(r.kind.value, r.data) == r.data.fields
  {
    if text == "" then NoCode
    else
      var trimmed := Trim(text);
      match MatchShare(trimmed)
      case Some((k, compressed)) =>
        var json := codec.decompress(compressed);
        if json == "" then Rejected(INVALID_CODE)
        else (
          match codec.parse(json)
          case None => Malformed
          case Some(payload) =>
            var payloadType := Member(payload, "type");
            if Truthy(payloadType) && !StrictEquals(payloadType, Str(TypeName(k))) then Rejected(INVALID_TYPE)
            else
              var rawData := Coalesce(Member(payload, "data"), payload);
              var expanded := Expanded(rawData, codec.keys(Enumerable(rawData)), k);
              NormalizeIdempotent(k, Obj(expanded));
              Shared(Some(k), Obj(Normalize(k, Obj(expanded)))))
      case None =>
        if StartsWith(trimmed, "{") || StartsWith(trimmed, "[") then (
          match codec.parse(trimmed)
          case None => Malformed
          case Some(data) =>
            var raw := Coalesce(Member(data, "data"), data);
            if StrictEquals(Member(data, "type"), Str("ITEM")) then
              NormalizeIdempotent(Item, raw);
              Shared(Some(Item), Obj(Normalize(Item, raw)))
            else if StrictEquals(Member(data, "type"), Str("SKILL")) then
              NormalizeIdempotent(Skill, raw);
              Shared(Some(Skill), Obj(Normalize(Skill, raw)))
            else Shared(None, raw))
        else Rejected(UNRECOGNISED)
  }

  /** A header followed by LZ-string output is already trimmed, and the
      output is what the pattern's group captures. */
  lemma HeaderedTrimmed(k: Kind, compressed: string)
    requires compressed != [] && forall i | 0 <= i < |compressed| :: UriSafe(compressed[i])
    ensures IsTrimmed(Header(k) + compressed) && Captures(compressed)
  {
    var code := Header(k) + compressed;
    assert code[0] == 'T';
    assert code[|code| - 1] == compressed[|compressed| - 1];
  }

  /** A code built for a kind starts with that kind's header, and the share
      pattern recovers the kind and the compressed payload from it. */
  lemma BuiltCodeMatches(k: Kind, data: Value, codec: Codec)
    requires var payload := SharePayload(TypeName(k), Compacted(Normalize(k, data), k));
      var compressed := codec.compress(codec.stringify(payload));
      compressed != "" && forall i | 0 <= i < |compressed| :: UriSafe(compressed[i])
    ensures var payload := SharePayload(TypeName(k), Compacted(Normalize(k, data), k));
      var code := BuildShareCode(TypeName(k), data, codec);
      Trim(code) == code && MatchShare(code) == Some((k, codec.compress(codec.stringify(payload))))
  {
    var payload := SharePayload(TypeName(k), Compacted(Normalize(k, data), k));
    var compressed := codec.compress(codec.stringify(payload));
    var code := BuildShareCode(TypeName(k), data, codec);
    assert BuildKind(TypeName(k)) == k;
    assert code == Header(k) + compressed;
    HeaderedTrimmed(k, compressed);
    TrimmedFixed(code);
    MatchShareSpec(code, k, compressed);
  }

  /** The fields of the payload a code carries. */
  lemma SharePayloadRead(typ: string, compacted: Fields)
    ensures Member(SharePayload(typ, compacted), "type") == Str(typ)
    ensures Member(SharePayload(typ, compacted), "data") == Obj(compacted)
  {
  }

  /** `parseShareCode` on a code the pattern matches, whose payload
      decompresses and parses, and whose type agrees. */
  lemma ParseMatched(text: string, codec: Codec, k: Kind, compressed: string, payload: Value)
    requires text != "" && MatchShare(Trim(text)) == Some((k, compressed))
    requires codec.decompress(compressed) != ""
    requires codec.parse(codec.decompress(compressed)) == Some(payload)
    requires Member(payload, "type") == Str(TypeName(k))
    ensures var rawData := Coalesce(Member(payload, "data"), payload);
      ParseShareCode(text, codec)
      == Shared(Some(k), Obj(Normalize(k, Obj(Expanded(rawData, codec.keys(Enumerable(rawData)), k)))))
  {
  }

  /** `parseShareCode(buildShareCode(type, x))` gives back the normalised
      record under the same type, whenever the serialiser and compressor
      undo each other on the payload, the compressor writes URI-safe text
      and `Object.keys` lists the compacted record's keys. */
  lemma BuildParseRoundTrip(k: Kind, data: Value, codec: Codec)
    requires var compacted := Compacted(Normalize(k, data), k);
      var json := codec.stringify(SharePayload(TypeName(k), compacted));
      var compressed := codec.compress(json);
      json != "" && codec.decompress(compressed) == json
      && codec.parse(json) == Some(SharePayload(TypeName(k), compacted))
      && compressed != "" && (forall i | 0 <= i < |compressed| :: UriSafe(compressed[i]))
      && (forall key :: key in codec.keys(compacted) <==> key in compacted)
    ensures ParseShareCode(BuildShareCode(TypeName(k), data, codec), codec) == Shared(Some(k), Obj(Normalize(k, data)))
  {
    var compacted := Compacted(Normalize(k, data), k);
    ParseBuilt(k, data, codec);
    RecordRoundTrip(k, data, codec.keys(compacted));
  }

  /** `parseShareCode(buildShareCode(type, x))` expands the compacted
      record it finds and normalises it. */
  lemma ParseBuilt(k: Kind, data: Value, codec: Codec)
    requires var compacted := Compacted(Normalize(k, data), k);
      var json := codec.stringify(SharePayload(TypeName(k), compacted));
      var compressed := codec.compress(json);
      json != "" && codec.decompress(compressed) == json
      && codec.parse(json) == Some(SharePayload(TypeName(k), compacted))
      && compressed != "" && (forall i | 0 <= i < |compressed| :: UriSafe(compressed[i]))
    ensures var compacted := Compacted(Normalize(k, data), k);
      ParseShareCode(BuildShareCode(TypeName(k), data, codec), codec)
      == Shared(Some(k), Obj(Normalize(k, Obj(Expanded(Obj(compacted), codec.keys(compacted), k)))))
  {
    var compacted := Compacted(Normalize(k, data), k);
    var payload := SharePayload(TypeName(k), compacted);
    var code := BuildShareCode(TypeName(k), data, codec);
    BuiltCodeMatches(k, data, codec);
    SharePayloadRead(TypeName(k), compacted);
    ParseMatched(code, codec, k, codec.compress(codec.stringify(payload)), payload);
    var rawData := Coalesce(Member(payload, "data"), payload);
    assert rawData == Obj(compacted);
    EnumerableObject(compacted);
  }

  /** The error and fall-back paths of `parseShareCode`. */
  lemma ParseFallbacks(text: string, codec: Codec)
    requires text != ""
    ensures var t := Trim(text); var r := ParseShareCode(text, codec);
      (MatchShare(t).None? && !StartsWith(t, "{") && !StartsWith(t, "[") ==> r == Rejected(UNRECOGNISED))
      && (MatchShare(t).Some? && codec.decompress(MatchShare(t).value.1) == "" ==> r == Rejected(INVALID_CODE))
      && (MatchShare(t).Some? && codec.decompress(MatchShare(t).value.1) != ""
          && codec.parse(codec.decompress(MatchShare(t).value.1)).Some? ==>
            var payloadType := Member(codec.parse(codec.decompress(MatchShare(t).value.1)).value, "type");
            (Truthy(payloadType) && payloadType != Str(TypeName(MatchShare(t).value.0)) <==> r == Rejected(INVALID_TYPE)))
      && (MatchShare(t).None? && StartsWith(t, "{") && codec.parse(t).Some?
          && Member(codec.parse(t).value, "type") != Str("ITEM")
          && Member(codec.parse(t).value, "type") != Str("SKILL") ==>
            r == Shared(None, Coalesce(Member(codec.parse(t).value, "data"), codec.parse(t).value)))
  {
  }
}
