/** The sheet record of the workspace repository and `normalizeSheetData`,
    which turns any stored or client-supplied value into one
    (src/services/sheetRepository.js). */
module SheetNormalizer {
  import opened JsText
  import opened JsValues

  const DEFAULT_SHEET_NAME: string := "Ficha principal"
  const UNNAMED_SHEET: string := "Ficha sem nome"

  /** The five properties the repository owns; every other property of a
      sheet is an opaque payload. */
  const RESERVED: set<string> := {"sheetCode", "nome", "nivel", "createdAt", "updatedAt"}

  /** A normalised character sheet: the five repository-owned properties,
      and the remaining properties in `extra`. */
  datatype Sheet = Sheet(
    sheetCode: string,
    nome: string,
    nivel: int,
    createdAt: int,
    updatedAt: int,
    extra: Fields)

  /** What one repository operation reads from its surroundings: the legacy
      decompression collaborator, the clock (one reading per operation) and
      the identifier generator. `defaultCode` is the identifier the default
      sheet of an empty workspace gets, `newCode` the one the operation
      itself asks for (a created or duplicated sheet, a replacement default
      sheet), and `mint(j)` the one handed to the j-th entry of a list that
      is normalised without a code of its own when the document is read.
      The incoming list of `replaceInactiveSheets` is normalised in a
      later pass, whose `uuidv4()` calls give further identifiers:
      `replaceMint(j)` is the one its j-th entry gets. */
  datatype Env = Env(hydrator: Fields -> Fields, now: int, defaultCode: string, newCode: string,
                     mint: nat -> string, replaceMint: nat -> string)

  /** The clock reads a positive time and generated identifiers are never blank. */
  ghost predicate ValidEnv(env: Env)
  {
    && env.now > 0
    && NonBlank(env.defaultCode)
    && NonBlank(env.newCode)
    && (forall j: nat :: NonBlank(env.mint(j)))
    && (forall j: nat :: NonBlank(env.replaceMint(j)))
  }

  /** The hypothesis that the decompression collaborator leaves a sheet
      the repository writes as it is. `decompressData` does not always do
      so: it rewrites a string that starts with "[LZ]" or that survives an
      LZ-UTF16 round trip, and parses a "[...]" string under
      `skillsArray`, `annotationsArray`, `itemsArray` or `sheetCode`; a
      sheet holding such a string is read back changed. */
  ghost predicate FixesSheets(hydrator: Fields -> Fields)
  {
    forall s: Sheet | Canonical(s) :: hydrator(SheetFields(s)) == SheetFields(s)
  }

  /** The sheet as the plain object the store holds. */
  function SheetFields(s: Sheet): Fields
  {
    s.extra + map[
      "sheetCode" := Str(s.sheetCode),
      "nome" := Str(s.nome),
      "nivel" := Num(s.nivel),
      "createdAt" := Num(s.createdAt),
      "updatedAt" := Num(s.updatedAt)]
  }

  function SheetValue(s: Sheet): Value
  {
    Obj(SheetFields(s))
  }

  function SheetValues(ss: seq<Sheet>): (vs: seq<Value>)
    ensures |vs| == |ss|
    ensures forall i | 0 <= i < |ss| :: vs[i] == SheetValue(ss[i])
  {
    seq(|ss|, i requires 0 <= i < |ss| => SheetValue(ss[i]))
  }

  lemma SheetValuesAppend(a: seq<Sheet>, b: seq<Sheet>)
    ensures SheetValues(a + b) == SheetValues(a) + SheetValues(b)
  {
    var l := SheetValues(a + b);
    var r := SheetValues(a) + SheetValues(b);
    forall i | 0 <= i < |l| ensures l[i] == r[i] {
      if i < |a| {
        assert (a + b)[i] == a[i];
      } else {
        assert (a + b)[i] == b[i - |a|];
      }
    }
  }

  /** The shape every normalised sheet has: a non-blank code, a trimmed
      non-empty name, set timestamps, and a payload disjoint from the
      repository-owned properties. */
  predicate Canonical(s: Sheet)
  {
    && NonBlank(s.sheetCode)
    && s.nome != ""
    && IsTrimmed(s.nome)
    && s.createdAt != 0
    && s.updatedAt != 0
    && s.extra.Keys !! RESERVED
  }

  predicate AllCanonical(ss: seq<Sheet>)
  {
    forall s | s in ss :: Canonical(s)
  }

  /** `safeName`: the trimmed string, or the placeholder for a non-string or
      blank value. */
  function SafeName(v: Value): (r: string)
    ensures r != "" && IsTrimmed(r)
    ensures v.Str? && NonBlank(v.s) ==> r == Trim(v.s)
    ensures !(v.Str? && NonBlank(v.s)) ==> r == UNNAMED_SHEET
  {
    if !v.Str? then UNNAMED_SHEET
    else
      var normalized := Trim(v.s);
      TrimIsTrimmed(v.s);
      if normalized != "" then normalized else UNNAMED_SHEET
  }

  /** `toFiniteNumber`: `Number(v)` when finite, else the fallback. */
  function ToFiniteNumber(v: Value, fallback: int): (r: int)
    ensures ToNumber(v).Some? ==> r == ToNumber(v).value
    ensures ToNumber(v).None? ==> r == fallback
    ensures v.Num? ==> r == v.n
    ensures v == Null || v == Str("") || v == Bool(false) || v == Arr([]) ==> r == 0
    ensures v == Bool(true) ==> r == 1
    ensures v == Undefined || v == NaN || v.Obj? ==> r == fallback
  {
    match ToNumber(v)
    case Some(n) => n
    case None => fallback
  }

  /** Under this model's `Number`, which reads only an optionally signed run
      of digits, a string holding a character that is neither white space,
      a digit nor a sign gives the fallback. */
  lemma NonNumericFallsBack(s: string, k: nat, fallback: int)
    requires k < |s| && !IsSpace(s[k]) && !('0' <= s[k] <= '9') && s[k] != '+' && s[k] != '-'
    ensures ToFiniteNumber(Str(s), fallback) == fallback
  {
    var i := |s| - |TrimStart(s)|;
    InsideTrim(s, k);
    NotANumber(Trim(s), k - i);
  }

  lemma NotANumber(t: string, m: nat)
    requires m < |t| && !('0' <= t[m] <= '9') && t[m] != '+' && t[m] != '-'
    ensures ParseNumber(t) == None
  {
    assert !AllDigits(t);
    if m > 0 {
      assert t[1..][m - 1] == t[m];
    }
  }

  /** The object normalisation starts from: a plain object, decompressed
      when asked to, or `{}` for anything else. */
  function Hydrated(raw: Value, hydrate: bool, hydrator: Fields -> Fields): Fields
  {
    if raw.Obj? then (if hydrate then hydrator(raw.fields) else raw.fields) else map[]
  }

  /** The stored code of a hydrated object, when it is a non-blank string. */
  function StoredCode(h: Fields): Option<string>
  {
    var c := Get(h, "sheetCode");
    if c.Str? && NonBlank(c.s) then Some(c.s) else None
  }

  /** `normalizeSheetData(raw, forced || null, {hydrate})`; `forced == ""`
      stands for an absent forced code, `freshId` for the identifier the
      generator would hand out and `now` for the clock. */
  function NormalizeSheetData(raw: Value, forced: string, hydrate: bool, hydrator: Fields -> Fields,
                              freshId: string, now: int): (r: Sheet)
    ensures forced != "" ==> r.sheetCode == forced
    ensures forced == "" ==>
      (r.sheetCode == match StoredCode(Hydrated(raw, hydrate, hydrator)) case Some(c) => c case None => freshId)
    ensures r.nome == SafeName(Get(Hydrated(raw, hydrate, hydrator), "nome"))
    ensures r.nivel == ToFiniteNumber(Get(Hydrated(raw, hydrate, hydrator), "nivel"), 0)
    ensures now != 0 ==> r.createdAt != 0 && r.updatedAt != 0
    ensures r.extra == Hydrated(raw, hydrate, hydrator) - RESERVED
    ensures (forced == "" || NonBlank(forced)) && NonBlank(freshId) && now != 0 ==> Canonical(r)
  {
    var hydrated := Hydrated(raw, hydrate, hydrator);
    var fallbackCode := if forced != "" then forced else freshId;
    var sheetCode := match StoredCode(hydrated) case Some(c) => c case None => fallbackCode;
    var existingCreatedAt := ToFiniteNumber(Get(hydrated, "createdAt"), 0);
    var existingUpdatedAt := ToFiniteNumber(Get(hydrated, "updatedAt"), existingCreatedAt);
    var baseTimestamp :=
      if existingUpdatedAt != 0 then existingUpdatedAt
      else if existingCreatedAt != 0 then existingCreatedAt
      else now;
    Sheet(
      if forced != "" then forced else sheetCode,
      SafeName(Get(hydrated, "nome")),
      ToFiniteNumber(Get(hydrated, "nivel"), 0),
      if existingCreatedAt != 0 then existingCreatedAt else baseTimestamp,
      if existingUpdatedAt != 0 then existingUpdatedAt else baseTimestamp,
      hydrated - RESERVED)
  }

  /** The timestamps `normalizeSheetData` settles on: a missing `updatedAt`
      falls back to `createdAt`, a missing `createdAt` to `updatedAt`, and
      only when both are missing does the clock supply both. */
  lemma NormalizeTimestamps(raw: Value, forced: string, hydrate: bool, hydrator: Fields -> Fields,
                            freshId: string, now: int)
    ensures var h := Hydrated(raw, hydrate, hydrator);
            var c := ToFiniteNumber(Get(h, "createdAt"), 0);
            var u := ToFiniteNumber(Get(h, "updatedAt"), 0);
            var r := NormalizeSheetData(raw, forced, hydrate, hydrator, freshId, now);
            && (c != 0 ==> r.createdAt == c)
            && (u != 0 ==> r.updatedAt == u)
            && (c != 0 && u == 0 ==> r.updatedAt == c)
            && (c == 0 && u != 0 ==> r.createdAt == u)
            && (c == 0 && u == 0 ==> r.createdAt == now && r.updatedAt == now)
  {
  }

  /** Reading back the repository-owned properties of a stored sheet. */
  lemma SheetFieldsRead(s: Sheet)
    requires s.extra.Keys !! RESERVED
    ensures Get(SheetFields(s), "sheetCode") == Str(s.sheetCode)
    ensures Get(SheetFields(s), "nome") == Str(s.nome)
    ensures Get(SheetFields(s), "nivel") == Num(s.nivel)
    ensures Get(SheetFields(s), "createdAt") == Num(s.createdAt)
    ensures Get(SheetFields(s), "updatedAt") == Num(s.updatedAt)
    ensures SheetFields(s) - RESERVED == s.extra
  {
    var h := SheetFields(s);
    forall k ensures k in h - RESERVED <==> k in s.extra {
    }
    forall k | k in s.extra ensures h[k] == s.extra[k] {
      assert k !in RESERVED;
    }
  }

  /** A canonical sheet is a fixed point of normalisation (with
      decompression too, when that leaves the sheet alone): the repository
      can re-normalise what it produced without changing it. */
  lemma NormalizeCanonical(s: Sheet, forced: string, hydrate: bool, hydrator: Fields -> Fields,
                           freshId: string, now: int)
    requires Canonical(s)
    requires forced == "" || forced == s.sheetCode
    requires hydrate ==> hydrator(SheetFields(s)) == SheetFields(s)
    ensures NormalizeSheetData(SheetValue(s), forced, hydrate, hydrator, freshId, now) == s
  {
    SheetFieldsRead(s);
    NormalizeOfStored(SheetValue(s), SheetFields(s), s, forced, hydrate, hydrator, freshId, now);
  }

  /** Normalising a record whose hydrated properties hold a canonical
      sheet's code, name, level, timestamps and extra fields gives that
      sheet. */
  lemma NormalizeOfStored(raw: Value, h: Fields, s: Sheet, forced: string, hydrate: bool,
                          hydrator: Fields -> Fields, freshId: string, now: int)
    requires Canonical(s)
    requires forced == "" || forced == s.sheetCode
    requires Hydrated(raw, hydrate, hydrator) == h
    requires Get(h, "sheetCode") == Str(s.sheetCode) && Get(h, "nome") == Str(s.nome)
    requires Get(h, "nivel") == Num(s.nivel)
    requires Get(h, "createdAt") == Num(s.createdAt) && Get(h, "updatedAt") == Num(s.updatedAt)
    requires h - RESERVED == s.extra
    ensures NormalizeSheetData(raw, forced, hydrate, hydrator, freshId, now) == s
  {
    TrimmedFixed(s.nome);
    var r := NormalizeSheetData(raw, forced, hydrate, hydrator, freshId, now);
    assert StoredCode(h) == Some(s.sheetCode);
    assert r.sheetCode == s.sheetCode;
    assert r.nome == s.nome;
    assert r.nivel == s.nivel;
    assert r.createdAt == s.createdAt;
    assert r.updatedAt == s.updatedAt;
  }

  /** Normalisation is idempotent. */
  lemma NormalizeIdempotent(raw: Value, hydrate: bool, hydrator: Fields -> Fields, freshId: string, freshId2: string,
                            now: int, now2: int)
    requires NonBlank(freshId) && now != 0
    ensures var once := NormalizeSheetData(raw, "", hydrate, hydrator, freshId, now);
            NormalizeSheetData(SheetValue(once), "", false, hydrator, freshId2, now2) == once
  {
    NormalizeCanonical(NormalizeSheetData(raw, "", hydrate, hydrator, freshId, now), "", false, hydrator, freshId2, now2);
  }

  /** Normalising `{...f, createdAt, updatedAt}` under a forced code: the
      code, both timestamps as given, and the name, level and payload of
      `f`. */
  lemma NormalizeStamped(f: Fields, forced: string, created: int, now: int, hydrator: Fields -> Fields,
                         freshId: string)
    requires NonBlank(forced) && NonBlank(freshId) && created != 0 && now != 0
    ensures var r := NormalizeSheetData(Obj(f + map["createdAt" := Num(created), "updatedAt" := Num(now)]),
                                        forced, false, hydrator, freshId, now);
      && Canonical(r)
      && r.sheetCode == forced
      && r.createdAt == created && r.updatedAt == now
      && r.nome == SafeName(Get(f, "nome"))
      && r.nivel == ToFiniteNumber(Get(f, "nivel"), 0)
      && r.extra == f - RESERVED
  {
    var g := f + map["createdAt" := Num(created), "updatedAt" := Num(now)];
    StampedRead(f, created, now);
    assert Hydrated(Obj(g), false, hydrator) == g;
    NormalizeTimestamps(Obj(g), forced, false, hydrator, freshId, now);
  }

  /** What `{...f, createdAt, updatedAt}` reads back. */
  lemma StampedRead(f: Fields, created: int, now: int)
    ensures var g := f + map["createdAt" := Num(created), "updatedAt" := Num(now)];
      && g - RESERVED == f - RESERVED
      && Get(g, "nome") == Get(f, "nome")
      && Get(g, "nivel") == Get(f, "nivel")
      && Get(g, "createdAt") == Num(created)
      && Get(g, "updatedAt") == Num(now)
  {
    var g := f + map["createdAt" := Num(created), "updatedAt" := Num(now)];
    assert g - RESERVED == f - RESERVED;
  }

  /** Normalising an object that carries its own non-blank code and one
      non-zero time as both timestamps keeps all three, with the name, level
      and payload of the object. */
  lemma NormalizeFresh(g: Fields, code: string, t: int, hydrator: Fields -> Fields, freshId: string)
    requires Get(g, "sheetCode") == Str(code) && NonBlank(code) && NonBlank(freshId) && t != 0
    requires Get(g, "createdAt") == Num(t) && Get(g, "updatedAt") == Num(t)
    ensures var r := NormalizeSheetData(Obj(g), "", false, hydrator, freshId, t);
      && Canonical(r)
      && r.sheetCode == code
      && r.createdAt == t && r.updatedAt == t
      && r.nome == SafeName(Get(g, "nome"))
      && r.nivel == ToFiniteNumber(Get(g, "nivel"), 0)
      && r.extra == g - RESERVED
  {
  }

  /** An object whose `sheetCode` is not strictly the string `other`
      normalises, without a forced code and with a different generated
      identifier, to a sheet whose code is not `other`. */
  lemma NormalizeAvoids(raw: Value, other: string, hydrator: Fields -> Fields, freshId: string, now: int)
    requires raw.Obj? && !StrictEquals(Get(raw.fields, "sheetCode"), Str(other))
    requires NonBlank(freshId) && freshId != other && now != 0
    ensures var r := NormalizeSheetData(raw, "", false, hydrator, freshId, now);
      Canonical(r) && r.sheetCode != other
  {
    assert Hydrated(raw, false, hydrator) == raw.fields;
  }

  /** `makeDefaultSheet`. */
  function DefaultSheet(code: string, now: int): (s: Sheet)
    ensures NonBlank(code) && now != 0 ==> Canonical(s)
    ensures s.nome == DEFAULT_SHEET_NAME && s.nivel == 0 && s.extra == map[]
  {
    Sheet(code, DEFAULT_SHEET_NAME, 0, now, now, map[])
  }
}
