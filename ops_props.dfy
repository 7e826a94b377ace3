/** What each operation of src/services/sheetRepository.js (lines 167-340)
    does to the user's workspace: the sheet it builds, the workspace it
    persists and the document it leaves behind. */
module OperationProperties {
  import opened JsText
  import opened JsValues
  import opened Seqs
  import opened SheetNormalizer
  import opened SheetCollections
  import opened Workspaces
  import opened WorkspaceProperties

  // ---------------------------------------------------------------------
  // Lists of sheets with distinct codes
  // ---------------------------------------------------------------------

  /** In a list with distinct codes a code names at most one sheet. */
  lemma SameCode(ss: seq<Sheet>, a: Sheet, b: Sheet)
    requires DistinctCodes(ss) && a in ss && b in ss && a.sheetCode == b.sheetCode
    ensures a == b
  {
    var i :| 0 <= i < |ss| && ss[i] == a;
    var j :| 0 <= j < |ss| && ss[j] == b;
    assert i == j;
  }

  lemma InCodes(ss: seq<Sheet>, x: Sheet)
    requires x in ss
    ensures x.sheetCode in Codes(ss)
  {
    var k :| 0 <= k < |ss| && ss[k] == x;
    assert Codes(ss)[k] == x.sheetCode;
  }

  lemma AppendDistinct(all: seq<Sheet>, x: Sheet)
    requires DistinctCodes(all) && x.sheetCode !in Codes(all)
    ensures DistinctCodes(all + [x])
    ensures forall c :: c in Codes(all + [x]) <==> c == x.sheetCode || c in Codes(all)
  {
    var l := all + [x];
    forall i, j | 0 <= i < j < |l| ensures l[i].sheetCode != l[j].sheetCode {
      assert l[i] == all[i];
      if j == |all| {
        assert Codes(all)[i] == l[i].sheetCode;
      } else {
        assert l[j] == all[j];
      }
    }
    CodesAppend(all, [x]);
    assert Codes([x]) == [x.sheetCode];
  }

  /** `upsertSheet` on canonical sheets with distinct codes. */
  lemma UpsertValid(all: seq<Sheet>, next: Sheet)
    requires DistinctCodes(all) && AllCanonical(all) && Canonical(next)
    ensures var l := Upsert(all, next);
      && l != []
      && DistinctCodes(l)
      && AllCanonical(l)
      && next in l
      && (forall c :: c in Codes(l) <==> c == next.sheetCode || c in Codes(all))
      && (forall x | x in all && x.sheetCode != next.sheetCode :: x in l)
      && (forall x | x in l :: x == next || x in all)
  {
    var rest := WithoutCode(all, next.sheetCode);
    WithoutCodeDistinct(all, next.sheetCode);
    AppendDistinct(rest, next);
  }

  /** Persisting canonical sheets with distinct codes under one of their
      codes keeps exactly those sheets, makes the sheet with that code
      active and the others inactive. */
  lemma PersistDistinct(store: Store, uid: string, all: seq<Sheet>, id: string, env: Env, migrated: bool)
    requires all != [] && AllCanonical(all) && DistinctCodes(all) && id in Codes(all)
    ensures var p := Persist(store, uid, all, id, env, migrated);
      && WsValid(p.result)
      && multiset(p.result.allSheets) == multiset(all)
      && p.result.activeSheetId == id
      && p.result.activeSheet == FindByCode(all, id).value
      && multiset(p.result.inactiveSheets) == multiset(WithoutCode(all, id))
  {
    var w := Persist(store, uid, all, id, env, migrated).result;
    PersistValid(store, uid, all, id, env, migrated);
    var a := FindByCode(all, id).value;
    assert w.activeSheet in all by {
      assert w.activeSheet in multiset(w.allSheets);
    }
    SameCode(all, w.activeSheet, a);
    SplitOut(all, a);
    Partition(w);
    MultisetCancel(a, w.inactiveSheets, WithoutCode(all, id));
  }

  // ---------------------------------------------------------------------
  // The sheets the operations build
  // ---------------------------------------------------------------------

  /** The edited sheet `saveActiveSheet` stores: the active code, the
      active sheet's creation time, the clock as update time, and the name,
      level and payload of the edited data. */
  lemma SavedSheetProps(data: Value, w: Workspace, env: Env)
    requires WsValid(w) && ValidEnv(env)
    ensures var s := SavedSheet(data, w, env);
      && Canonical(s)
      && s.sheetCode == w.activeSheetId
      && s.createdAt == w.activeSheet.createdAt
      && s.updatedAt == env.now
      && s.nome == SafeName(Get(OwnEntries(data), "nome"))
      && s.nivel == ToFiniteNumber(Get(OwnEntries(data), "nivel"), 0)
      && s.extra == OwnEntries(data) - RESERVED
  {
    assert Canonical(w.activeSheet) by {
      assert w.activeSheet in w.allSheets;
    }
    NormalizeStamped(OwnEntries(data), w.activeSheetId, w.activeSheet.createdAt, env.now, env.hydrator,
                     env.newCode);
  }

  /** The object `createSheet` normalises, read property by property. */
  lemma NewSheetRead(name: Value, code: string, t: int)
    ensures var f := map[
      "sheetCode" := Str(code),
      "nome" := name,
      "nivel" := Num(0),
      "createdAt" := Num(t),
      "updatedAt" := Num(t)];
      && Get(f, "sheetCode") == Str(code)
      && Get(f, "nome") == name
      && Get(f, "nivel") == Num(0)
      && Get(f, "createdAt") == Num(t)
      && Get(f, "updatedAt") == Num(t)
      && f - RESERVED == map[]
  {
  }

  /** The sheet `createSheet(name)` adds: the generated code, the safe
      name, level 0, created and updated now, and nothing else. */
  lemma CreatedSheetProps(name: Value, env: Env)
    requires ValidEnv(env)
    ensures var s := CreatedSheet(name, env);
      && Canonical(s)
      && s.sheetCode == env.newCode
      && s.nome == SafeName(name)
      && s.nivel == 0
      && s.createdAt == env.now && s.updatedAt == env.now
      && s.extra == map[]
  {
    var f := map[
      "sheetCode" := Str(env.newCode),
      "nome" := name,
      "nivel" := Num(0),
      "createdAt" := Num(env.now),
      "updatedAt" := Num(env.now)];
    NewSheetRead(name, env.newCode, env.now);
    NormalizeFresh(f, env.newCode, env.now, env.hydrator, env.newCode);
  }

  /** The names `buildDuplicatedName` makes from a trimmed, non-empty base
      are trimmed and non-empty too, so `safeName` leaves them alone. */
  lemma DuplicatedNameShape(base: string, existing: set<string>)
    requires base != "" && IsTrimmed(base)
    ensures var r := DuplicatedName(base, existing);
      r != "" && IsTrimmed(r) && SafeName(Str(r)) == r
  {
    var r := DuplicatedName(base, existing);
    var root := base + " (copia)";
    assert root[0] == base[0] && root[|root| - 1] == ')';
    if r != root {
      var n :| 2 <= n && r == Numbered(root, n);
      NumberedTrimmed(root, n);
    }
    TrimmedFixed(r);
  }

  /** `${root} ${n}` starts like `root` and ends in a digit. */
  lemma NumberedTrimmed(root: string, n: nat)
    requires root != ""
    ensures var r := Numbered(root, n);
      r != "" && r[0] == root[0] && !IsSpace(r[|r| - 1])
  {
    var digits := NatToString(n);
    var r := Numbered(root, n);
    assert r == root + (" " + digits);
    assert r[|r| - 1] == digits[|digits| - 1];
  }

  /** The object `duplicateSheet` normalises, read property by property. */
  lemma CopyRead(source: Sheet, code: string, name: string, t: int)
    requires source.extra.Keys !! RESERVED
    ensures var f := CopyFields(source, code, name, t);
      && Get(f, "sheetCode") == Str(code)
      && Get(f, "nome") == Str(name)
      && Get(f, "nivel") == Num(source.nivel)
      && Get(f, "createdAt") == Num(t)
      && Get(f, "updatedAt") == Num(t)
      && f - RESERVED == source.extra
  {
    SheetFieldsRead(source);
    var f := CopyFields(source, code, name, t);
    assert f - RESERVED == SheetFields(source) - RESERVED;
  }

  /** The copy `duplicateSheet` makes: the generated code, the picked name,
      created and updated now, and the source's level and payload. */
  lemma DuplicatedSheetProps(source: Sheet, name: string, env: Env)
    requires Canonical(source) && ValidEnv(env) && name != "" && IsTrimmed(name)
    ensures var s := DuplicatedSheet(source, name, env);
      && Canonical(s)
      && s.sheetCode == env.newCode
      && s.nome == name
      && s.nivel == source.nivel
      && s.createdAt == env.now && s.updatedAt == env.now
      && s.extra == source.extra
  {
    TrimmedSafe(name);
    assert NonBlank(env.newCode);
    CopyRead(source, env.newCode, name, env.now);
    CopyNormalized(CopyFields(source, env.newCode, name, env.now), source, name, env.newCode, env.now, env.hydrator);
  }

  /** The normalisation step of `duplicateSheet`, on the object it builds. */
  lemma CopyNormalized(g: Fields, source: Sheet, name: string, code: string, t: int, hydrator: Fields -> Fields)
    requires Get(g, "sheetCode") == Str(code) && Get(g, "nome") == Str(name)
    requires Get(g, "nivel") == Num(source.nivel)
    requires Get(g, "createdAt") == Num(t) && Get(g, "updatedAt") == Num(t)
    requires g - RESERVED == source.extra && SafeName(Str(name)) == name
    requires NonBlank(code) && t != 0
    ensures var r := NormalizeSheetData(Obj(g), "", false, hydrator, code, t);
      && Canonical(r)
      && r.sheetCode == code
      && r.nome == name
      && r.nivel == source.nivel
      && r.createdAt == t && r.updatedAt == t
      && r.extra == source.extra
  {
    NormalizeFresh(g, code, t, hydrator, code);
  }

  // ---------------------------------------------------------------------
  // The operations
  // ---------------------------------------------------------------------

  /** A signed-out caller gets `null` (or `[]`) and nothing is written. */
  lemma SignedOut(store: Store, data: Value, code: string, env: Env)
    ensures GetWorkspace(store, "", env) == Step(store, None)
    ensures SaveActiveSheet(store, "", data, env) == Step(store, None)
    ensures SwitchActiveSheet(store, "", code, data, env) == Step(store, None)
    ensures CreateSheet(store, "", data, env) == Step(store, None)
    ensures DuplicateSheet(store, "", code, env) == Step(store, None)
    ensures DeleteSheet(store, "", code, env) == Step(store, None)
    ensures ReplaceInactiveSheets(store, "", data, env) == Step(store, [])
  {
  }

  /** `saveActiveSheet(data)` replaces the active sheet by the edited one
      (see `SavedSheetProps`), keeps it active and keeps every other sheet;
      the document's `data` is the edited sheet. */
  lemma SaveProps(store: Store, uid: string, data: Value, env: Env)
    requires uid != "" && ValidEnv(env)
    ensures var w := Ensure(store, uid, env).result;
      var r := SaveActiveSheet(store, uid, data, env);
      && r.result.Some?
      && WsValid(r.result.value)
      && r.result.value.activeSheetId == w.activeSheetId
      && r.result.value.activeSheet == SavedSheet(data, w, env)
      && (forall c :: c in Codes(r.result.value.allSheets) <==> c in Codes(w.allSheets))
      && (forall x | x in w.allSheets && x.sheetCode != w.activeSheetId :: x in r.result.value.allSheets)
      && uid in r.store
      && r.store[uid]["activeSheetId"] == Str(w.activeSheetId)
      && r.store[uid]["data"] == SheetValue(SavedSheet(data, w, env))
  {
    var e := Ensure(store, uid, env);
    var w := e.result;
    EnsureValid(store, uid, env);
    var next := SavedSheet(data, w, env);
    SavedSheetProps(data, w, env);
    var l := Upsert(w.allSheets, next);
    UpsertValid(w.allSheets, next);
    assert w.activeSheetId in Codes(l);
    PersistDistinct(e.store, uid, l, next.sheetCode, env, false);
    FindUnique(l, next.sheetCode, next);
    var p := Persist(e.store, uid, l, next.sheetCode, env, false);
    MultisetCodes(p.result.allSheets, l);
    forall x | x in w.allSheets && x.sheetCode != w.activeSheetId ensures x in p.result.allSheets {
      assert x in multiset(l);
    }
    PersistDocument(e.store, uid, l, next.sheetCode, env, false);
  }

  /** The list `switchActiveSheet` persists keeps valid sheets with the same
      codes. */
  lemma SwitchedSheetsValid(current: Value, w: Workspace, env: Env)
    requires WsValid(w) && ValidEnv(env)
    ensures var l := SwitchedSheets(current, w, env);
      && l != [] && DistinctCodes(l) && AllCanonical(l)
      && (forall c :: c in Codes(l) <==> c in Codes(w.allSheets))
      && (forall x | x in w.allSheets && x.sheetCode != w.activeSheetId :: x in l)
      && (IsObject(current) ==> SavedSheet(current, w, env) in l)
      && (!IsObject(current) ==> l == w.allSheets)
  {
    if IsObject(current) {
      var next := SavedSheet(current, w, env);
      SavedSheetProps(current, w, env);
      UpsertValid(w.allSheets, next);
      InCodes(w.allSheets, w.activeSheet);
    }
  }

  lemma InSheetValues(ss: seq<Sheet>, x: Sheet)
    requires x in ss
    ensures SheetValue(x) in SheetValues(ss)
  {
    var k :| 0 <= k < |ss| && ss[k] == x;
    assert SheetValues(ss)[k] == SheetValue(x);
  }

  /** What `switchActiveSheet` persists for a known target. */
  lemma SwitchPersist(store: Store, uid: string, target: string, current: Value, w: Workspace, env: Env)
    requires WsValid(w) && ValidEnv(env) && target in Codes(w.allSheets)
    ensures var p := Persist(store, uid, SwitchedSheets(current, w, env), target, env, false);
      var a := p.result.activeSheet;
      && a.sheetCode == target
      && ((target != w.activeSheetId || !IsObject(current)) ==> a == FindByCode(w.allSheets, target).value)
      && ((target == w.activeSheetId && IsObject(current)) ==> a == SavedSheet(current, w, env))
      && uid in p.store
      && p.store[uid]["activeSheetId"] == Str(target)
      && p.store[uid]["data"] == SheetValue(a)
      && ((target != w.activeSheetId && IsObject(current)) ==>
            p.store[uid]["sheets"].Arr?
            && SheetValue(SavedSheet(current, w, env)) in p.store[uid]["sheets"].elems)
  {
    var l := SwitchedSheets(current, w, env);
    SwitchedSheetsValid(current, w, env);
    PersistDistinct(store, uid, l, target, env, false);
    var p := Persist(store, uid, l, target, env, false);
    PersistDocument(store, uid, l, target, env, false);
    if target != w.activeSheetId || !IsObject(current) {
      FindUnique(l, target, FindByCode(w.allSheets, target).value);
    } else {
      FindUnique(l, target, SavedSheet(current, w, env));
    }
    if target != w.activeSheetId && IsObject(current) {
      var saved := SavedSheet(current, w, env);
      SavedSheetProps(current, w, env);
      assert saved in p.result.allSheets by {
        assert saved in multiset(l);
      }
      assert saved in p.result.inactiveSheets;
      InSheetValues(p.result.inactiveSheets, saved);
    }
  }

  /** `switchActiveSheet(target, current)`: `null` and no write beyond the
      migration for an unknown target; otherwise the target becomes the
      active sheet of the document and is returned as stored, and the
      current data, when it is an object, is first saved as the previously
      active sheet, which stays among the stored sheets. */
  lemma SwitchProps(store: Store, uid: string, target: string, current: Value, env: Env)
    requires uid != "" && ValidEnv(env)
    ensures var e := Ensure(store, uid, env);
      var w := e.result;
      var r := SwitchActiveSheet(store, uid, target, current, env);
      && (target !in Codes(w.allSheets) ==> r == Step(e.store, None))
      && (target in Codes(w.allSheets) ==>
            && r.result.Some?
            && r.result.value.sheetCode == target
            && ((target != w.activeSheetId || !IsObject(current)) ==>
                  r.result.value == FindByCode(w.allSheets, target).value)
            && ((target == w.activeSheetId && IsObject(current)) ==>
                  r.result.value == SavedSheet(current, w, env))
            && uid in r.store
            && r.store[uid]["activeSheetId"] == Str(target)
            && r.store[uid]["data"] == SheetValue(r.result.value)
            && ((target != w.activeSheetId && IsObject(current)) ==>
                  r.store[uid]["sheets"].Arr?
                  && SheetValue(SavedSheet(current, w, env)) in r.store[uid]["sheets"].elems))
  {
    var e := Ensure(store, uid, env);
    var w := e.result;
    EnsuredValid(store, uid, env);
    if target in Codes(w.allSheets) {
      var p := Persist(e.store, uid, SwitchedSheets(current, w, env), target, env, false);
      assert SwitchActiveSheet(store, uid, target, current, env) == Step(p.store, Some(p.result.activeSheet));
      SwitchPersist(e.store, uid, target, current, w, env);
    }
  }

  /** Persisting a valid workspace with one new sheet appended keeps the
      active sheet, stores every sheet once more plus the new one, and
      stores the new one among the inactive sheets. */
  lemma AppendPersist(store: Store, uid: string, w: Workspace, c: Sheet, env: Env)
    requires WsValid(w) && Canonical(c) && c.sheetCode !in Codes(w.allSheets)
    ensures var p := Persist(store, uid, w.allSheets + [c], w.activeSheetId, env, false);
      && WsValid(p.result)
      && multiset(p.result.allSheets) == multiset(w.allSheets) + multiset{c}
      && p.result.activeSheet == w.activeSheet
      && c in p.result.inactiveSheets
      && uid in p.store
      && p.store[uid]["activeSheetId"] == Str(w.activeSheetId)
      && p.store[uid]["data"] == SheetValue(w.activeSheet)
      && p.store[uid]["sheets"].Arr?
      && SheetValue(c) in p.store[uid]["sheets"].elems
  {
    var l := w.allSheets + [c];
    AppendedList(w.allSheets, w.activeSheet, c);
    PersistDistinct(store, uid, l, w.activeSheetId, env, false);
    var p := Persist(store, uid, l, w.activeSheetId, env, false);
    PersistDocument(store, uid, l, w.activeSheetId, env, false);
    assert c in p.result.allSheets by {
      assert c in multiset(l);
    }
    InSheetValues(p.result.inactiveSheets, c);
  }

  /** Canonical sheets with distinct codes and a canonical sheet of a new
      code appended: canonical, distinct codes, and the sheet `a` of the
      list still found by its code. */
  lemma AppendedList(all: seq<Sheet>, a: Sheet, c: Sheet)
    requires AllCanonical(all) && DistinctCodes(all) && a in all
    requires Canonical(c) && c.sheetCode !in Codes(all)
    ensures var l := all + [c];
      && AllCanonical(l) && DistinctCodes(l)
      && a.sheetCode in Codes(l)
      && FindByCode(l, a.sheetCode) == Some(a)
      && c.sheetCode != a.sheetCode
  {
    var l := all + [c];
    AppendDistinct(all, c);
    AppendCanonical(all, c);
    InCodes(all, a);
    assert a in l;
    FindUnique(l, a.sheetCode, a);
  }

  /** `createSheet(name)` returns the new sheet (see `CreatedSheetProps`),
      keeps the active sheet and every existing sheet, and stores the new
      one among the inactive sheets, provided the generated code is new. */
  lemma CreateProps(store: Store, uid: string, name: Value, env: Env)
    requires uid != "" && ValidEnv(env)
    requires env.newCode !in Codes(Ensure(store, uid, env).result.allSheets)
    ensures var e := Ensure(store, uid, env);
      var w := e.result;
      var c := CreatedSheet(name, env);
      var r := CreateSheet(store, uid, name, env);
      var p := Persist(e.store, uid, w.allSheets + [c], w.activeSheetId, env, false);
      && r.result == Some(c)
      && r.store == p.store
      && WsValid(p.result)
      && multiset(p.result.allSheets) == multiset(w.allSheets) + multiset{c}
      && p.result.activeSheet == w.activeSheet
      && uid in r.store
      && r.store[uid]["activeSheetId"] == Str(w.activeSheetId)
      && r.store[uid]["sheets"].Arr?
      && SheetValue(c) in r.store[uid]["sheets"].elems
  {
    var e := Ensure(store, uid, env);
    EnsureValid(store, uid, env);
    CreatedSheetProps(name, env);
    AppendPersist(e.store, uid, e.result, CreatedSheet(name, env), env);
  }

  /** The copy `duplicateSheet` makes of a sheet of a valid workspace. */
  lemma CopyProps(source: Sheet, w: Workspace, env: Env)
    requires WsValid(w) && ValidEnv(env) && source in w.allSheets
    ensures var copy := CopyOf(source, w.allSheets, env);
      && Canonical(copy)
      && copy.sheetCode == env.newCode
      && copy.nome == DuplicatedName(source.nome, ExistingNames(w.allSheets))
      && copy.nome !in ExistingNames(w.allSheets)
      && copy.nivel == source.nivel
      && copy.extra == source.extra
      && copy.createdAt == env.now && copy.updatedAt == env.now
  {
    assert Canonical(source);
    var base := SafeName(Str(source.nome));
    CanonicalName(source);
    var name := DuplicatedName(base, ExistingNames(w.allSheets));
    DuplicatedNameShape(base, ExistingNames(w.allSheets));
    DuplicatedSheetProps(source, name, env);
  }

  /** `safeName` leaves the name of a canonical sheet alone. */
  lemma CanonicalName(s: Sheet)
    requires Canonical(s)
    ensures SafeName(Str(s.nome)) == s.nome
  {
    TrimmedSafe(s.nome);
  }

  /** `safeName` leaves a trimmed, non-empty name alone. */
  lemma TrimmedSafe(name: string)
    requires name != "" && IsTrimmed(name)
    ensures SafeName(Str(name)) == name
  {
    TrimmedFixed(name);
    assert NonBlank(name);
  }

  /** `duplicateSheet(code)`: `null` for an unknown code; otherwise a copy
      of the sheet with that code under the generated code and a name no
      sheet has, keeping the source's level and payload, stored among the
      inactive sheets while the active sheet stays. */
  lemma DuplicateProps(store: Store, uid: string, code: string, env: Env)
    requires uid != "" && ValidEnv(env)
    requires env.newCode !in Codes(Ensure(store, uid, env).result.allSheets)
    ensures var e := Ensure(store, uid, env);
      var w := e.result;
      var r := DuplicateSheet(store, uid, code, env);
      && (code !in Codes(w.allSheets) ==> r == Step(e.store, None))
      && (code in Codes(w.allSheets) ==>
            var source := FindByCode(w.allSheets, code).value;
            && r.result.Some?
            && r.result.value.sheetCode == env.newCode
            && r.result.value.nome == DuplicatedName(source.nome, ExistingNames(w.allSheets))
            && r.result.value.nome !in ExistingNames(w.allSheets)
            && r.result.value.nivel == source.nivel
            && r.result.value.extra == source.extra
            && r.result.value.createdAt == env.now && r.result.value.updatedAt == env.now
            && uid in r.store
            && r.store[uid]["activeSheetId"] == Str(w.activeSheetId)
            && r.store[uid]["data"] == SheetValue(w.activeSheet)
            && r.store[uid]["sheets"].Arr?
            && SheetValue(r.result.value) in r.store[uid]["sheets"].elems)
  {
    var e := Ensure(store, uid, env);
    var w := e.result;
    EnsureValid(store, uid, env);
    if code in Codes(w.allSheets) {
      var source := FindByCode(w.allSheets, code).value;
      CopyProps(source, w, env);
      AppendPersist(e.store, uid, w, CopyOf(source, w.allSheets, env), env);
    }
  }

  /** The list `deleteSheet` keeps for a code of a valid workspace: sorted,
      canonical, distinct codes; the other sheets when there are any, else
      a default sheet. */
  lemma RemainingProps(w: Workspace, code: string, env: Env)
    requires WsValid(w) && ValidEnv(env) && code in Codes(w.allSheets)
    ensures var sorted := Remaining(w.allSheets, code, env);
      && sorted != [] && DistinctCodes(sorted) && AllCanonical(sorted) && SortedDesc(sorted)
      && (|w.allSheets| > 1 ==>
            && multiset(sorted) == multiset(WithoutCode(w.allSheets, code))
            && (forall c :: c in Codes(sorted) <==> c != code && c in Codes(w.allSheets)))
      && (|w.allSheets| == 1 ==> sorted == [DefaultSheet(env.newCode, env.now)])
      && (code != w.activeSheetId ==> w.activeSheet in sorted)
  {
    var all := w.allSheets;
    var rest := WithoutCode(all, code);
    WithoutCodeDistinct(all, code);
    var s := FindByCode(all, code).value;
    SplitOut(all, s);
    MultisetLength([s] + rest, all);
    if rest != [] {
      var sorted := SortByUpdatedAtDesc(rest);
      SortCodes(rest);
      SortSorted(rest);
      MultisetCodes(sorted, rest);
      forall x | x in sorted ensures Canonical(x) {
        assert x in multiset(rest);
      }
      if code != w.activeSheetId {
        assert w.activeSheet in rest;
        assert w.activeSheet in multiset(sorted);
      }
    } else {
      var d := DefaultSheet(env.newCode, env.now);
      assert SortedDesc([d]);
      SortOfSorted([d]);
      assert w.activeSheet.sheetCode == code || w.activeSheet in rest;
    }
  }

  /** What `deleteSheet` persists for a code of a valid workspace. */
  lemma DeletePersist(store: Store, uid: string, w: Workspace, code: string, env: Env)
    requires WsValid(w) && ValidEnv(env) && code in Codes(w.allSheets)
    ensures var sorted := Remaining(w.allSheets, code, env);
      var nextActive := if w.activeSheetId == code then sorted[0].sheetCode else w.activeSheetId;
      var p := Persist(store, uid, sorted, nextActive, env, false);
      && WsValid(p.result)
      && p.result.allSheets == sorted
      && (code != w.activeSheetId ==> p.result.activeSheet == w.activeSheet)
      && (code == w.activeSheetId ==> p.result.activeSheet == sorted[0])
      && (code == w.activeSheetId ==>
            forall x | x in p.result.allSheets :: x.updatedAt <= p.result.activeSheet.updatedAt)
      && uid in p.store
      && p.store[uid]["activeSheetId"] == Str(p.result.activeSheetId)
      && p.store[uid]["data"] == SheetValue(p.result.activeSheet)
  {
    var sorted := Remaining(w.allSheets, code, env);
    RemainingProps(w, code, env);
    var nextActive := if w.activeSheetId == code then sorted[0].sheetCode else w.activeSheetId;
    if code == w.activeSheetId {
      InCodes(sorted, sorted[0]);
      FindUnique(sorted, nextActive, sorted[0]);
      SortedHeadLatest(sorted);
    } else {
      InCodes(sorted, w.activeSheet);
      FindUnique(sorted, nextActive, w.activeSheet);
    }
    PersistDistinct(store, uid, sorted, nextActive, env, false);
    DedupeCanonical(sorted, env);
    SortOfSorted(sorted);
    PersistDocument(store, uid, sorted, nextActive, env, false);
  }

  /** `deleteSheet(code)`: the unchanged workspace for an unknown code;
      otherwise every other sheet stays (a default sheet replaces the last
      one), the active sheet stays unless it was deleted, and then the most
      recently updated remaining sheet becomes active. */
  lemma DeleteProps(store: Store, uid: string, code: string, env: Env)
    requires uid != "" && ValidEnv(env)
    ensures var e := Ensure(store, uid, env);
      var w := e.result;
      var r := DeleteSheet(store, uid, code, env);
      && (code !in Codes(w.allSheets) ==> r == Step(e.store, Some(w)))
      && (code in Codes(w.allSheets) ==>
            && r.result.Some?
            && WsValid(r.result.value)
            && (|w.allSheets| > 1 ==>
                  && multiset(r.result.value.allSheets) == multiset(WithoutCode(w.allSheets, code))
                  && (forall c :: c in Codes(r.result.value.allSheets) <==> c != code && c in Codes(w.allSheets)))
            && (|w.allSheets| == 1 ==> r.result.value.allSheets == [DefaultSheet(env.newCode, env.now)])
            && (code != w.activeSheetId ==> r.result.value.activeSheet == w.activeSheet)
            && (code == w.activeSheetId ==>
                  forall x | x in r.result.value.allSheets :: x.updatedAt <= r.result.value.activeSheet.updatedAt)
            && uid in r.store
            && r.store[uid]["activeSheetId"] == Str(r.result.value.activeSheetId)
            && r.store[uid]["data"] == SheetValue(r.result.value.activeSheet))
  {
    var e := Ensure(store, uid, env);
    var w := e.result;
    EnsureValid(store, uid, env);
    if code in Codes(w.allSheets) {
      RemainingProps(w, code, env);
      DeletePersist(e.store, uid, w, code, env);
    }
  }

  /** Normalising the incoming entries one by one gives canonical sheets
      none of which takes the active code. */
  lemma NormalizeEachAvoids(vs: seq<Value>, activeId: string, env: Env)
    requires ValidEnv(env) && forall j: nat :: env.replaceMint(j) != activeId
    requires forall v | v in vs :: IsObject(v) && !StrictEquals(Member(v, "sheetCode"), Str(activeId))
    ensures AllCanonical(NormalizeEach(vs, env))
    ensures activeId !in Codes(NormalizeEach(vs, env))
  {
    var normalized := NormalizeEach(vs, env);
    forall j | 0 <= j < |normalized|
      ensures Canonical(normalized[j]) && normalized[j].sheetCode != activeId
    {
      assert vs[j] in vs;
      NormalizeAvoids(vs[j], activeId, env.hydrator, env.replaceMint(j), env.now);
    }
    assert forall j | 0 <= j < |normalized| :: Codes(normalized)[j] != activeId;
  }

  /** The sheets `replaceInactiveSheets` keeps from the incoming list are
      canonical, have distinct codes and never take the active code, as
      long as no generated identifier is the active code. */
  lemma ReplacementProps(inactive: Value, activeId: string, env: Env)
    requires ValidEnv(env) && forall j: nat :: env.replaceMint(j) != activeId
    ensures var rs := ReplacementSheets(inactive, activeId, env);
      AllCanonical(rs) && DistinctCodes(rs) && activeId !in Codes(rs)
  {
    var normalized := NormalizeEach(Incoming(inactive, activeId), env);
    NormalizeEachAvoids(Incoming(inactive, activeId), activeId, env);
    NormalizeAllCanonical(normalized, false, env);
    CollectCodes(normalized);
    CollectSubset(normalized);
  }

  /** What `replaceInactiveSheets` persists: the active sheet stays, and the
      inactive sheets are exactly the replacement sheets. */
  lemma ReplacePersist(store: Store, uid: string, w: Workspace, rs: seq<Sheet>, env: Env)
    requires WsValid(w) && AllCanonical(rs) && DistinctCodes(rs) && w.activeSheetId !in Codes(rs)
    ensures var p := Persist(store, uid, [w.activeSheet] + rs, w.activeSheetId, env, false);
      && WsValid(p.result)
      && p.result.activeSheet == w.activeSheet
      && multiset(p.result.inactiveSheets) == multiset(rs)
      && DistinctCodes(p.result.inactiveSheets)
      && w.activeSheetId !in Codes(p.result.inactiveSheets)
      && uid in p.store
      && p.store[uid]["activeSheetId"] == Str(w.activeSheetId)
      && p.store[uid]["data"] == SheetValue(w.activeSheet)
      && p.store[uid]["sheets"] == Arr(SheetValues(p.result.inactiveSheets))
  {
    var l := [w.activeSheet] + rs;
    ConsDistinct(w.activeSheet, rs);
    assert AllCanonical(l);
    InCodes(l, w.activeSheet);
    PersistDistinct(store, uid, l, w.activeSheetId, env, false);
    FindUnique(l, w.activeSheetId, w.activeSheet);
    WithoutCodeCons(l, w.activeSheetId);
    assert l[1..] == rs;
    WithoutAbsentCode(rs, w.activeSheetId);
    PersistDocument(store, uid, l, w.activeSheetId, env, false);
    var p := Persist(store, uid, l, w.activeSheetId, env, false);
    WithoutCodeDistinct(p.result.allSheets, w.activeSheetId);
  }

  /** `replaceInactiveSheets(list)`: the active sheet and pointer stay, and
      the stored and returned inactive sheets are the incoming objects
      without the active code, normalised and de-duplicated. */
  lemma ReplaceProps(store: Store, uid: string, inactive: Value, env: Env)
    requires uid != "" && ValidEnv(env)
    requires forall j: nat :: env.replaceMint(j) != Ensure(store, uid, env).result.activeSheetId
    ensures var e := Ensure(store, uid, env);
      var w := e.result;
      var r := ReplaceInactiveSheets(store, uid, inactive, env);
      var rs := ReplacementSheets(inactive, w.activeSheetId, env);
      && multiset(r.result) == multiset(rs)
      && DistinctCodes(r.result)
      && w.activeSheetId !in Codes(r.result)
      && uid in r.store
      && r.store[uid]["activeSheetId"] == Str(w.activeSheetId)
      && r.store[uid]["data"] == SheetValue(w.activeSheet)
      && r.store[uid]["sheets"] == Arr(SheetValues(r.result))
  {
    var e := Ensure(store, uid, env);
    var w := e.result;
    EnsureValid(store, uid, env);
    var rs := ReplacementSheets(inactive, w.activeSheetId, env);
    ReplacementProps(inactive, w.activeSheetId, env);
    ReplacePersist(e.store, uid, w, rs, env);
  }
}
