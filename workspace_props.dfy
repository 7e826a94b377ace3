/** What the workspace repository guarantees about the view it builds and
    the document it writes (src/services/sheetRepository.js:82-160). */
module WorkspaceProperties {
  import opened JsText
  import opened JsValues
  import opened Seqs
  import opened SheetNormalizer
  import opened SheetCollections
  import opened Workspaces

  /** The shape of every workspace the repository hands out: a non-empty,
      sorted list of canonical sheets with distinct codes; the active sheet
      is one of them and the inactive ones are exactly the others. */
  predicate WsValid(w: Workspace)
  {
    && w.allSheets != []
    && DistinctCodes(w.allSheets)
    && AllCanonical(w.allSheets)
    && SortedDesc(w.allSheets)
    && w.activeSheet in w.allSheets
    && w.activeSheetId == w.activeSheet.sheetCode
    && w.inactiveSheets == WithoutCode(w.allSheets, w.activeSheetId)
  }

  /** Taking the sheet with code `a.sheetCode` out of a list with distinct
      codes leaves exactly the other sheets. */
  lemma {:induction false} SplitOut(all: seq<Sheet>, a: Sheet)
    requires DistinctCodes(all) && a in all
    ensures multiset([a] + WithoutCode(all, a.sheetCode)) == multiset(all)
    decreases |all|, 1
  {
    var c := a.sheetCode;
    var h, t := all[0], all[1..];
    assert all == [h] + t;
    DistinctTail(h, t);
    WithoutCodeCons(all, c);
    if h == a {
      WithoutAbsentCode(t, c);
    } else {
      SplitOutLater(h, t, a);
    }
  }

  /** The inductive step of `SplitOut`: `a` sits somewhere after the head. */
  lemma {:induction false} SplitOutLater(h: Sheet, t: seq<Sheet>, a: Sheet)
    requires DistinctCodes(t) && h.sheetCode !in Codes(t)
    requires h != a && a in [h] + t
    ensures multiset([a] + WithoutCode([h] + t, a.sheetCode)) == multiset([h] + t)
    decreases |t| + 1, 0
  {
    var c := a.sheetCode;
    assert a in t;
    assert h.sheetCode != c by {
      var k :| 0 <= k < |t| && t[k] == a;
      assert Codes(t)[k] == c;
    }
    WithoutCodeCons([h] + t, c);
    assert ([h] + t)[1..] == t;
    SplitOut(t, a);
    MultisetConsSwap(a, h, WithoutCode(t, c), t);
  }

  /** Putting `h` in front of both sides of a multiset equation whose left
      side starts with `a`. */
  lemma MultisetConsSwap<T>(a: T, h: T, rest: seq<T>, t: seq<T>)
    requires multiset([a] + rest) == multiset(t)
    ensures multiset([a] + ([h] + rest)) == multiset([h] + t)
  {
    assert [a] + ([h] + rest) == [a, h] + rest;
    assert [h] + ([a] + rest) == [h, a] + rest;
    assert multiset([a, h]) == multiset([h, a]);
  }

  /** In a valid workspace the active sheet and the inactive sheets together
      are exactly all sheets, and no inactive sheet has the active code. */
  lemma Partition(w: Workspace)
    requires WsValid(w)
    ensures multiset([w.activeSheet] + w.inactiveSheets) == multiset(w.allSheets)
    ensures w.activeSheetId !in Codes(w.inactiveSheets)
    ensures |w.inactiveSheets| == |w.allSheets| - 1
    ensures DistinctCodes([w.activeSheet] + w.inactiveSheets)
  {
    SplitOut(w.allSheets, w.activeSheet);
    WithoutCodeDistinct(w.allSheets, w.activeSheetId);
    MultisetLength([w.activeSheet] + w.inactiveSheets, w.allSheets);
    ConsDistinct(w.activeSheet, w.inactiveSheets);
  }

  lemma MultisetLength<T>(a: seq<T>, b: seq<T>)
    requires multiset(a) == multiset(b)
    ensures |a| == |b|
  {
    assert |multiset(a)| == |a| && |multiset(b)| == |b|;
  }

  /** The list `persistWorkspace` keeps, for canonical input: canonical,
      sorted, distinct codes, the same codes as the input, and (when the
      input had distinct codes already) the same sheets. */
  lemma PersistedSheetsValid(all: seq<Sheet>, env: Env)
    requires all != [] && AllCanonical(all)
    ensures var ps := PersistedSheets(all, env);
      && ps != []
      && DistinctCodes(ps)
      && AllCanonical(ps)
      && SortedDesc(ps)
      && (forall c :: c in Codes(ps) <==> c in Codes(all))
      && (DistinctCodes(all) ==> multiset(ps) == multiset(all))
  {
    NormalizeAllCanonical(all, false, env);
    var d := Collect(all);
    assert Deduplicated(SheetValues(all), false, env) == d;
    CollectCodes(all);
    CollectSubset(all);
    SortSorted(d);
    SortCodes(d);
    DedupeNonEmpty(all, env);
    var ps := SortByUpdatedAtDesc(d);
    forall x | x in ps ensures Canonical(x) {
      assert x in multiset(ps);
    }
    if DistinctCodes(all) {
      CollectOfDistinct(all);
    }
  }

  /** `persistWorkspace` of canonical sheets returns a valid workspace that
      honours the requested active code when it names a sheet and keeps
      the codes (and the sheets, when their codes were distinct). */
  lemma PersistValid(store: Store, uid: string, all: seq<Sheet>, id: string, env: Env, migrated: bool)
    requires all != [] && AllCanonical(all)
    ensures var p := Persist(store, uid, all, id, env, migrated);
      && WsValid(p.result)
      && (id in Codes(all) ==> p.result.activeSheetId == id)
      && (forall c :: c in Codes(p.result.allSheets) <==> c in Codes(all))
      && (DistinctCodes(all) ==> multiset(p.result.allSheets) == multiset(all))
  {
    PersistedSheetsValid(all, env);
  }

  lemma PatchRead(w: Workspace, now: int, migrated: bool)
    ensures var patch := PersistPatch(w, now, migrated);
      && patch["schemaVersion"] == Num(SCHEMA_VERSION)
      && patch["sheetsMap"] == Null
      && patch["activeSheetId"] == Str(w.activeSheetId)
      && patch["data"] == SheetValue(w.activeSheet)
      && patch["sheets"] == Arr(SheetValues(w.inactiveSheets))
      && patch["updatedAt"] == Num(now)
      && (migrated ==> patch["migratedAt"] == Num(now))
  {
  }

  /** The properties the repository reads back from the document it wrote. */
  lemma WrittenDoc(store: Store, uid: string, w: Workspace, now: int, migrated: bool)
    ensures var d := Doc(Write(store, uid, PersistPatch(w, now, migrated)), uid);
      && Get(d, "schemaVersion") == Num(SCHEMA_VERSION)
      && Get(d, "activeSheetId") == Str(w.activeSheetId)
      && Get(d, "data") == SheetValue(w.activeSheet)
      && Get(d, "sheets") == Arr(SheetValues(w.inactiveSheets))
  {
    PatchRead(w, now, migrated);
  }

  /** The document `persistWorkspace` writes: schema 2, no `sheetsMap`, the
      active pointer, the active sheet as `data` and the others as
      `sheets`; no other user's document changes. */
  lemma PersistDocument(store: Store, uid: string, all: seq<Sheet>, id: string, env: Env, migrated: bool)
    requires all != []
    ensures var p := Persist(store, uid, all, id, env, migrated);
      && uid in p.store
      && p.store[uid]["schemaVersion"] == Num(SCHEMA_VERSION)
      && p.store[uid]["sheetsMap"] == Null
      && p.store[uid]["activeSheetId"] == Str(p.result.activeSheetId)
      && p.store[uid]["data"] == SheetValue(p.result.activeSheet)
      && p.store[uid]["sheets"] == Arr(SheetValues(p.result.inactiveSheets))
      && (migrated ==> p.store[uid]["migratedAt"] == Num(env.now))
      && (forall u | u in store && u != uid :: u in p.store && p.store[u] == store[u])
  {
    DedupeNonEmpty(all, env);
    var w := BuildWorkspace(PersistedSheets(all, env), id);
    assert Persist(store, uid, all, id, env, migrated) == Step(Write(store, uid, PersistPatch(w, env.now, migrated)), w);
    WrittenPatch(store, uid, w, env.now, migrated);
  }

  /** The document written for a workspace, read property by property. */
  lemma WrittenPatch(store: Store, uid: string, w: Workspace, now: int, migrated: bool)
    ensures var r := Write(store, uid, PersistPatch(w, now, migrated));
      && uid in r
      && r[uid]["schemaVersion"] == Num(SCHEMA_VERSION)
      && r[uid]["sheetsMap"] == Null
      && r[uid]["activeSheetId"] == Str(w.activeSheetId)
      && r[uid]["data"] == SheetValue(w.activeSheet)
      && r[uid]["sheets"] == Arr(SheetValues(w.inactiveSheets))
      && (migrated ==> r[uid]["migratedAt"] == Num(now))
      && (forall u | u in store && u != uid :: u in r && r[u] == store[u])
  {
    PatchRead(w, now, migrated);
  }

  /** Persisting a valid workspace returns it unchanged. */
  lemma PersistOfValid(store: Store, uid: string, w: Workspace, env: Env, migrated: bool)
    requires WsValid(w)
    ensures Persist(store, uid, w.allSheets, w.activeSheetId, env, migrated).result == w
  {
    DedupeCanonical(w.allSheets, env);
    SortOfSorted(w.allSheets);
    FindUnique(w.allSheets, w.activeSheetId, w.activeSheet);
  }

  /** The sheets read from any document are canonical when the clock and
      the identifier generator behave. */
  lemma SheetsFromPayloadCanonical(payload: Fields, env: Env)
    requires ValidEnv(env)
    ensures AllCanonical(SheetsFromPayload(payload, env))
    ensures DistinctCodes(SheetsFromPayload(payload, env))
  {
    var preferred := PreferredSource(payload);
    var src := if |preferred| > 0 then preferred else MapSource(payload);
    NormalizeAllCanonicalResult(src, true, env);
    CollectSubset(NormalizeAll(src, true, env));
    CollectCodes(NormalizeAll(src, true, env));
  }

  /** `getSheetsFromPayload` reads `sheetsMap` only when `data` and
      `sheets` hold no object: a document with such an object reads the same
      whatever its `sheetsMap` holds. */
  lemma SheetsMapIgnored(payload: Fields, legacy: Value, env: Env)
    requires PreferredSource(payload) != []
    ensures SheetsFromPayload(payload["sheetsMap" := legacy], env) == SheetsFromPayload(payload, env)
  {
    var p' := payload["sheetsMap" := legacy];
    assert Get(p', "data") == Get(payload, "data");
    assert Get(p', "sheets") == Get(payload, "sheets");
    assert PreferredSource(p') == PreferredSource(payload);
  }

  /** The view `ensureWorkspace` builds is valid; its active sheet is the
      stored `activeSheetId` when that names a sheet, else `data.sheetCode`
      when that names one, else the most recently updated sheet. */
  lemma EnsuredViewValid(payload: Fields, env: Env)
    requires ValidEnv(env)
    ensures var w := EnsuredView(payload, env);
      var stored := Get(payload, "activeSheetId");
      var dataCode := Member(Get(payload, "data"), "sheetCode");
      && WsValid(w)
      && (IsCandidate(stored) && stored.s in Codes(w.allSheets) ==> w.activeSheetId == stored.s)
      && ((!(IsCandidate(stored) && stored.s in Codes(w.allSheets))
           && IsCandidate(dataCode) && dataCode.s in Codes(w.allSheets)) ==> w.activeSheetId == dataCode.s)
      && ((!(IsCandidate(stored) && stored.s in Codes(w.allSheets))
           && !(IsCandidate(dataCode) && dataCode.s in Codes(w.allSheets))) ==> w.activeSheet == w.allSheets[0])
  {
    SheetsFromPayloadCanonical(payload, env);
    var init := InitialSheets(payload, env);
    assert AllCanonical(init);
    PersistedSheetsValid(init, env);
  }

  /** The workspace `ensureWorkspace` returns is valid. */
  lemma EnsuredValid(store: Store, uid: string, env: Env)
    requires ValidEnv(env)
    ensures WsValid(Ensure(store, uid, env).result)
  {
    EnsureValid(store, uid, env);
  }

  /** `ensureWorkspace` returns the view it built, writes the document only
      when it needs normalising (then as a migration), and leaves a
      schema-2 document whose active pointer is the returned one; other
      users' documents do not change. */
  lemma EnsureValid(store: Store, uid: string, env: Env)
    requires ValidEnv(env)
    ensures var e := Ensure(store, uid, env);
      var payload := Doc(store, uid);
      && WsValid(e.result)
      && e.result == EnsuredView(payload, env)
      && (!NeedsNormalization(payload, e.result) ==> e.store == store)
      && (NeedsNormalization(payload, e.result) ==>
            e.store == Write(store, uid, PersistPatch(e.result, env.now, true)))
      && uid in e.store
      && e.store[uid]["schemaVersion"] == Num(SCHEMA_VERSION)
      && e.store[uid]["activeSheetId"] == Str(e.result.activeSheetId)
      && (forall u | u in store && u != uid :: u in e.store && e.store[u] == store[u])
  {
    var payload := Doc(store, uid);
    var w := EnsuredView(payload, env);
    EnsuredViewValid(payload, env);
    PersistOfValid(store, uid, w, env, true);
    if NeedsNormalization(payload, w) {
      PersistDocument(store, uid, w.allSheets, w.activeSheetId, env, true);
    } else {
      assert Get(payload, "schemaVersion") == Num(SCHEMA_VERSION);
      assert Get(payload, "activeSheetId") == Str(w.activeSheetId);
    }
  }

  /** A document whose `data` and `sheets` hold a valid workspace's active
      and inactive sheets reads back as exactly those sheets, active first. */
  lemma StoredSheetsRead(payload: Fields, w: Workspace, env: Env)
    requires WsValid(w) && FixesSheets(env.hydrator)
    requires Get(payload, "data") == SheetValue(w.activeSheet)
    requires Get(payload, "sheets") == Arr(SheetValues(w.inactiveSheets))
    ensures SheetsFromPayload(payload, env) == [w.activeSheet] + w.inactiveSheets
  {
    var l := [w.activeSheet] + w.inactiveSheets;
    PreferredOfStored(payload, w.activeSheet, w.inactiveSheets);
    CanonicalParts(w);
    DedupeStored(l, env);
  }

  /** The canonical fields of a document holding `a` and `inactive`. */
  lemma PreferredOfStored(payload: Fields, a: Sheet, inactive: seq<Sheet>)
    requires Get(payload, "data") == SheetValue(a)
    requires Get(payload, "sheets") == Arr(SheetValues(inactive))
    ensures PreferredSource(payload) == SheetValues([a] + inactive)
  {
    SheetValuesAppend([a], inactive);
    assert SheetValues([a]) == [SheetValue(a)];
    FilterAll(SheetValues(inactive), IsObject);
  }

  /** The active sheet followed by the inactive ones: canonical sheets
      with distinct codes. */
  lemma CanonicalParts(w: Workspace)
    requires WsValid(w)
    ensures AllCanonical([w.activeSheet] + w.inactiveSheets)
    ensures DistinctCodes([w.activeSheet] + w.inactiveSheets)
  {
    Partition(w);
    var l := [w.activeSheet] + w.inactiveSheets;
    forall x | x in l ensures Canonical(x) {
      assert x in multiset(l);
    }
  }

  /** Sheets the repository wrote read back, decompressed and
      de-duplicated, as themselves. */
  lemma DedupeStored(l: seq<Sheet>, env: Env)
    requires AllCanonical(l) && DistinctCodes(l) && FixesSheets(env.hydrator)
    ensures Deduplicated(SheetValues(l), true, env) == l
  {
    NormalizeAllCanonical(l, true, env);
    CollectOfDistinct(l);
  }

  /** The view built from a document that holds a valid workspace's
      sheets and active pointer has the same active sheet and the same
      sheets. */
  lemma ReadBackView(payload: Fields, w: Workspace, env: Env)
    requires WsValid(w) && FixesSheets(env.hydrator)
    requires Get(payload, "data") == SheetValue(w.activeSheet)
    requires Get(payload, "sheets") == Arr(SheetValues(w.inactiveSheets))
    requires Get(payload, "activeSheetId") == Str(w.activeSheetId)
    ensures var w2 := EnsuredView(payload, env);
      && WsValid(w2)
      && w2.activeSheetId == w.activeSheetId
      && w2.activeSheet == w.activeSheet
      && multiset(w2.allSheets) == multiset(w.allSheets)
      && multiset(w2.inactiveSheets) == multiset(w.inactiveSheets)
  {
    StoredSheetsRead(payload, w, env);
    var l := [w.activeSheet] + w.inactiveSheets;
    Partition(w);
    assert InitialSheets(payload, env) == l;
    assert AllCanonical(l);
    DedupeCanonical(l, env);
    var all2 := SortByUpdatedAtDesc(l);
    assert PersistedSheets(l, env) == all2;
    SortCodes(l);
    SortSorted(l);
    assert multiset(all2) == multiset(w.allSheets);
    assert w.activeSheet in all2 by {
      assert w.activeSheet in multiset(w.allSheets);
    }
    assert w.activeSheetId in Codes(all2) by {
      MultisetCodes(all2, w.allSheets);
    }
    assert ResolveActiveSheetId(payload, all2) == Some(w.activeSheetId);
    FindUnique(all2, w.activeSheetId, w.activeSheet);
    assert AllCanonical(all2) by {
      forall x | x in all2 ensures Canonical(x) {
        assert x in multiset(w.allSheets);
      }
    }
    var w2 := EnsuredView(payload, env);
    Partition(w2);
    MultisetCancel(w.activeSheet, w2.inactiveSheets, w.inactiveSheets);
  }

  /** Reading back the document `persistWorkspace` wrote for a valid
      workspace needs no migration and gives the same active sheet, the same
      sheets and the same inactive sheets; only sheets that are equally
      recent may come back in another order. */
  lemma ReadBack(store: Store, uid: string, w: Workspace, now: int, migrated: bool, env: Env)
    requires WsValid(w) && FixesSheets(env.hydrator)
    ensures var written := Write(store, uid, PersistPatch(w, now, migrated));
      var w2 := EnsuredView(Doc(written, uid), env);
      && Ensure(written, uid, env) == Step(written, w2)
      && w2.activeSheetId == w.activeSheetId
      && w2.activeSheet == w.activeSheet
      && multiset(w2.allSheets) == multiset(w.allSheets)
      && multiset(w2.inactiveSheets) == multiset(w.inactiveSheets)
      && WsValid(w2)
  {
    var written := Write(store, uid, PersistPatch(w, now, migrated));
    var payload := Doc(written, uid);
    WrittenDoc(store, uid, w, now, migrated);
    ReadBackView(payload, w, env);
  }

  lemma MultisetCancel<T>(a: T, x: seq<T>, y: seq<T>)
    requires multiset([a] + x) == multiset([a] + y)
    ensures multiset(x) == multiset(y)
  {
    assert multiset([a] + x) == multiset{a} + multiset(x);
    assert multiset([a] + y) == multiset{a} + multiset(y);
    forall z ensures multiset(x)[z] == multiset(y)[z] {
      assert (multiset{a} + multiset(x))[z] == (multiset{a} + multiset(y))[z];
    }
  }

  /** What `persistWorkspace` writes reads back, under any later clock and
      generator, without a migration and as the workspace it returned (up to
      the order of equally recent sheets). */
  lemma PersistReadBack(store: Store, uid: string, all: seq<Sheet>, id: string, env: Env, env2: Env,
                        migrated: bool)
    requires all != [] && AllCanonical(all) && FixesSheets(env2.hydrator)
    ensures var p := Persist(store, uid, all, id, env, migrated);
      var e := Ensure(p.store, uid, env2);
      && e.store == p.store
      && e.result.activeSheetId == p.result.activeSheetId
      && e.result.activeSheet == p.result.activeSheet
      && multiset(e.result.allSheets) == multiset(p.result.allSheets)
      && multiset(e.result.inactiveSheets) == multiset(p.result.inactiveSheets)
  {
    var p := Persist(store, uid, all, id, env, migrated);
    PersistValid(store, uid, all, id, env, migrated);
    assert p.store == Write(store, uid, PersistPatch(p.result, env.now, migrated));
    ReadBack(store, uid, p.result, env.now, migrated, env2);
  }

  /** `ensureWorkspace` settles a document: running it again (with the same
      surroundings, or after it migrated the document) writes nothing and
      returns the same active sheet and the same sheets. */
  lemma EnsureIdempotent(store: Store, uid: string, env: Env, env2: Env)
    requires ValidEnv(env) && FixesSheets(env2.hydrator)
    requires NeedsNormalization(Doc(store, uid), EnsuredView(Doc(store, uid), env)) || env2 == env
    ensures var e1 := Ensure(store, uid, env);
      var e2 := Ensure(e1.store, uid, env2);
      && e2.store == e1.store
      && e2.result.activeSheetId == e1.result.activeSheetId
      && e2.result.activeSheet == e1.result.activeSheet
      && multiset(e2.result.allSheets) == multiset(e1.result.allSheets)
  {
    var e1 := Ensure(store, uid, env);
    EnsureValid(store, uid, env);
    if NeedsNormalization(Doc(store, uid), e1.result) {
      ReadBack(store, uid, e1.result, env.now, true, env2);
    }
  }

  /** A call of `ensureWorkspace` that writes nothing leaves a document
      that any later call, under any clock and ids, leaves alone exactly
      when that call's view still holds a sheet with the active code; then
      it keeps that active sheet. When the active sheet's code was minted
      on read (its stored sheet has none), the later call mints another one
      and migrates the document again. */
  lemma EnsureSettled(store: Store, uid: string, env: Env, env2: Env)
    requires ValidEnv(env) && ValidEnv(env2)
    requires !NeedsNormalization(Doc(store, uid), EnsuredView(Doc(store, uid), env))
    ensures var e1 := Ensure(store, uid, env);
      var e2 := Ensure(e1.store, uid, env2);
      && e1.store == store
      && (e2.store == store <==> e1.result.activeSheetId in Codes(e2.result.allSheets))
      && (e1.result.activeSheetId in Codes(e2.result.allSheets) ==> e2.result.activeSheetId == e1.result.activeSheetId)
  {
    var payload := Doc(store, uid);
    var w1 := EnsuredView(payload, env);
    var w2 := EnsuredView(payload, env2);
    EnsureValid(store, uid, env);
    EnsureValid(store, uid, env2);
    EnsuredViewValid(payload, env2);
    assert Get(payload, "activeSheetId") == Str(w1.activeSheetId);
    assert IsCandidate(Str(w1.activeSheetId));
    if w1.activeSheetId in Codes(w2.allSheets) {
      assert w2.activeSheetId == w1.activeSheetId;
      assert !NeedsNormalization(payload, w2);
    } else {
      assert w2.activeSheetId != w1.activeSheetId;
      var e2 := Ensure(store, uid, env2);
      assert e2.store[uid]["activeSheetId"] == Str(w2.activeSheetId);
      assert uid in store ==> store[uid]["activeSheetId"] == Str(w1.activeSheetId);
    }
  }
}
