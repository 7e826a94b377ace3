/** The per-user workspace of src/services/sheetRepository.js as functions
    on the document store: how a stored document is read
    (`getSheetsFromPayload`, `resolveActiveSheetId`, `buildWorkspace`), how
    it is written back (`persistWorkspace`), the read-and-migrate step every
    operation starts with (`ensureWorkspace`) and the six operations. */
module Workspaces {
  import opened JsText
  import opened JsValues
  import opened Seqs
  import opened SheetNormalizer
  import opened SheetCollections

  const SCHEMA_VERSION: int := 2

  /** The document store: one plain-object document per user id. */
  type Store = map<string, Fields>

  /** The canonical view of a user's sheets. */
  datatype Workspace = Workspace(
    activeSheetId: string,
    activeSheet: Sheet,
    inactiveSheets: seq<Sheet>,
    allSheets: seq<Sheet>)

  /** The store after an operation, and what the operation returns. */
  datatype Step<T> = Step(store: Store, result: T)

  /** The document of `uid`, or `{}` when there is none. */
  function Doc(store: Store, uid: string): Fields
  {
    if uid in store then store[uid] else map[]
  }

  /** `setDoc(ref, patch, {merge: true})`: a top-level merge into the user's
      document. */
  function Write(store: Store, uid: string, patch: Fields): (r: Store)
    ensures r.Keys == store.Keys + {uid}
    ensures r[uid].Keys == Doc(store, uid).Keys + patch.Keys
    ensures forall u | u in store && u != uid :: r[u] == store[u]
    ensures forall k | k in patch :: r[uid][k] == patch[k]
    ensures forall k | k in Doc(store, uid) && k !in patch :: r[uid][k] == Doc(store, uid)[k]
  {
    store[uid := Doc(store, uid) + patch]
  }

  // ---------------------------------------------------------------------
  // Reading a stored document
  // ---------------------------------------------------------------------

  /** The sheets of the canonical layout, `data` plus the objects of
      `sheets`, in that order. */
  function PreferredSource(payload: Fields): seq<Value>
  {
    var data := Get(payload, "data");
    var sheets := Get(payload, "sheets");
    (if IsObject(data) then [data] else [])
      + (if sheets.Arr? then Filter(sheets.elems, IsObject) else [])
  }

  /** The objects among the values of the legacy `sheetsMap`. */
  function MapSource(payload: Fields): seq<Value>
  {
    var sheetsMap := Get(payload, "sheetsMap");
    if IsObject(sheetsMap) then Filter(ObjectValues(sheetsMap.fields), IsObject) else []
  }

  /** `getSheetsFromPayload`: the de-duplicated sheets of the canonical
      layout, or of `sheetsMap` when the canonical layout holds none. */
  function SheetsFromPayload(payload: Fields, env: Env): (ss: seq<Sheet>)
  {
    var preferred := PreferredSource(payload);
    if |preferred| > 0 then Deduplicated(preferred, true, env)
    else Deduplicated(MapSource(payload), true, env)
  }

  /** An id `resolveActiveSheetId` considers: a non-blank string. */
  predicate IsCandidate(v: Value)
  {
    v.Str? && NonBlank(v.s)
  }

  /** `resolveActiveSheetId`: none for an empty list; otherwise the first of
      the stored `activeSheetId` and `data.sheetCode` that is a non-blank
      string naming a sheet of the list, else the first sheet's code. */
  function ResolveActiveSheetId(payload: Fields, sheets: seq<Sheet>): (id: Option<string>)
    ensures id.None? <==> sheets == []
    ensures id.Some? ==> id.value in Codes(sheets)
  {
    if sheets == [] then None
    else
      var stored := Get(payload, "activeSheetId");
      var dataCode := Member(Get(payload, "data"), "sheetCode");
      if IsCandidate(stored) && stored.s in Codes(sheets) then Some(stored.s)
      else if IsCandidate(dataCode) && dataCode.s in Codes(sheets) then Some(dataCode.s)
      else Some(sheets[0].sheetCode)
  }

  /** `buildWorkspace`: the sheet with the requested code (or the first
      sheet) is active and every sheet with another code is inactive. */
  function BuildWorkspace(all: seq<Sheet>, id: string): (w: Workspace)
    requires all != []
    ensures w.allSheets == all
    ensures w.activeSheet in all && w.activeSheetId == w.activeSheet.sheetCode
    ensures id in Codes(all) ==> w.activeSheetId == id
    ensures id !in Codes(all) ==> w.activeSheet == all[0]
    ensures w.inactiveSheets == WithoutCode(all, w.activeSheetId)
  {
    var active := match FindByCode(all, id) case Some(s) => s case None => all[0];
    Workspace(active.sheetCode, active, WithoutCode(all, active.sheetCode), all)
  }

  // ---------------------------------------------------------------------
  // Writing a workspace back
  // ---------------------------------------------------------------------

  /** The fields `persistWorkspace` writes, with `migratedAt` when the write
      is a migration. */
  function PersistPatch(w: Workspace, now: int, migrated: bool): Fields
  {
    map[
      "schemaVersion" := Num(SCHEMA_VERSION),
      "activeSheetId" := Str(w.activeSheetId),
      "data" := SheetValue(w.activeSheet),
      "sheets" := Arr(SheetValues(w.inactiveSheets)),
      "sheetsMap" := Null,
      "updatedAt" := Num(now)]
    + (if migrated then map["migratedAt" := Num(now)] else map[])
  }

  /** The list `persistWorkspace` keeps: de-duplicated without decompression,
      most recently updated first. */
  function PersistedSheets(all: seq<Sheet>, env: Env): seq<Sheet>
  {
    SortByUpdatedAtDesc(Deduplicated(SheetValues(all), false, env))
  }

  /** `persistWorkspace(uid, {allSheets: all, activeSheetId: id}, extra)`. */
  function Persist(store: Store, uid: string, all: seq<Sheet>, id: string, env: Env, migrated: bool): Step<Workspace>
    requires all != []
  {
    DedupeNonEmpty(all, env);
    var w := BuildWorkspace(PersistedSheets(all, env), id);
    Step(Write(store, uid, PersistPatch(w, env.now, migrated)), w)
  }

  /** The sheets `ensureWorkspace` starts from: those of the stored
      document, or a default sheet when it holds none. */
  function InitialSheets(payload: Fields, env: Env): (ss: seq<Sheet>)
    ensures ss != []
  {
    var fromPayload := SheetsFromPayload(payload, env);
    if fromPayload == [] then [DefaultSheet(env.defaultCode, env.now)] else fromPayload
  }

  /** The workspace `ensureWorkspace` builds before deciding to migrate. */
  function EnsuredView(payload: Fields, env: Env): Workspace
  {
    var init := InitialSheets(payload, env);
    DedupeNonEmpty(init, env);
    var all := PersistedSheets(init, env);
    var id := ResolveActiveSheetId(payload, all);
    BuildWorkspace(all, id.value)
  }

  /** The stored document needs migrating: an old schema, or a stored active
      pointer that differs from the resolved one. */
  predicate NeedsNormalization(payload: Fields, w: Workspace)
  {
    !StrictEquals(Get(payload, "schemaVersion"), Num(SCHEMA_VERSION))
    || !StrictEquals(Get(payload, "activeSheetId"), Str(w.activeSheetId))
  }

  /** `ensureWorkspace(uid)`: read the document, build the canonical view and
      write it back, marked as migrated, when the document needs it. */
  function Ensure(store: Store, uid: string, env: Env): Step<Workspace>
  {
    var payload := Doc(store, uid);
    var w := EnsuredView(payload, env);
    if NeedsNormalization(payload, w) then Persist(store, uid, w.allSheets, w.activeSheetId, env, true)
    else Step(store, w)
  }

  // ---------------------------------------------------------------------
  // The operations; uid "" is a signed-out caller.
  // ---------------------------------------------------------------------

  /** `getWorkspace` (and `ensureUserWorkspace`). */
  function GetWorkspace(store: Store, uid: string, env: Env): Step<Option<Workspace>>
  {
    if uid == "" then Step(store, None)
    else
      var e := Ensure(store, uid, env);
      Step(e.store, Some(e.result))
  }

  /** `{...data, createdAt: activeSheet.createdAt || now, updatedAt: now}`,
      the edited sheet `saveActiveSheet` and `switchActiveSheet` store. */
  function Stamped(data: Value, active: Sheet, now: int): Value
  {
    var created := if active.createdAt != 0 then active.createdAt else now;
    Obj(OwnEntries(data) + map["createdAt" := Num(created), "updatedAt" := Num(now)])
  }

  /** The active sheet `saveActiveSheet` stores for `data`. */
  function SavedSheet(data: Value, w: Workspace, env: Env): Sheet
  {
    NormalizeSheetData(Stamped(data, w.activeSheet, env.now), w.activeSheetId, false, env.hydrator,
                       env.newCode, env.now)
  }

  /** `saveActiveSheet(data)`. */
  function SaveActiveSheet(store: Store, uid: string, data: Value, env: Env): Step<Option<Workspace>>
  {
    if uid == "" then Step(store, None)
    else
      var e := Ensure(store, uid, env);
      var w := e.result;
      var next := SavedSheet(data, w, env);
      var p := Persist(e.store, uid, Upsert(w.allSheets, next), next.sheetCode, env, false);
      Step(p.store, Some(p.result))
  }

  /** The list `switchActiveSheet` persists: the current data, when it is an
      object, is stored under the previous active code first. */
  function SwitchedSheets(current: Value, w: Workspace, env: Env): (ss: seq<Sheet>)
    ensures w.allSheets != [] ==> ss != []
  {
    if IsObject(current) then Upsert(w.allSheets, SavedSheet(current, w, env)) else w.allSheets
  }

  /** `switchActiveSheet(target, current)`: null for an unknown target. */
  function SwitchActiveSheet(store: Store, uid: string, target: string, current: Value, env: Env)
    : Step<Option<Sheet>>
  {
    if uid == "" then Step(store, None)
    else
      var e := Ensure(store, uid, env);
      var w := e.result;
      if target !in Codes(w.allSheets) then Step(e.store, None)
      else
        var next := SwitchedSheets(current, w, env);
        var p := Persist(e.store, uid, next, target, env, false);
        Step(p.store, Some(p.result.activeSheet))
  }

  /** The sheet `createSheet(name)` adds. */
  function CreatedSheet(name: Value, env: Env): Sheet
  {
    NormalizeSheetData(
      Obj(map[
        "sheetCode" := Str(env.newCode),
        "nome" := name,
        "nivel" := Num(0),
        "createdAt" := Num(env.now),
        "updatedAt" := Num(env.now)]),
      "", false, env.hydrator, env.newCode, env.now)
  }

  /** `createSheet(name)`: returns the new sheet. */
  function CreateSheet(store: Store, uid: string, name: Value, env: Env): Step<Option<Sheet>>
  {
    if uid == "" then Step(store, None)
    else
      var e := Ensure(store, uid, env);
      var created := CreatedSheet(name, env);
      var p := Persist(e.store, uid, e.result.allSheets + [created], e.result.activeSheetId, env, false);
      Step(p.store, Some(created))
  }

  /** The names `duplicateSheet` avoids. */
  function ExistingNames(all: seq<Sheet>): set<string>
  {
    set s | s in all :: SafeName(Str(s.nome))
  }

  /** The copy `duplicateSheet` makes of `source`, given the name picked for it. */
  function DuplicatedSheet(source: Sheet, name: string, env: Env): Sheet
  {
    NormalizeSheetData(Obj(CopyFields(source, env.newCode, name, env.now)),
      "", false, env.hydrator, env.newCode, env.now)
  }

  /** The object `duplicateSheet` builds: the source's properties with a new
      code, the picked name and both timestamps set to `t`. */
  function CopyFields(source: Sheet, code: string, name: string, t: int): Fields
  {
    SheetFields(source) + map[
      "sheetCode" := Str(code),
      "nome" := Str(name),
      "createdAt" := Num(t),
      "updatedAt" := Num(t)]
  }

  /** The copy of `source` `duplicateSheet` adds to `all`, named after the
      source and unlike every name in `all`. */
  function CopyOf(source: Sheet, all: seq<Sheet>, env: Env): Sheet
  {
    DuplicatedSheet(source, DuplicatedName(SafeName(Str(source.nome)), ExistingNames(all)), env)
  }

  /** `duplicateSheet(code)`: null for an unknown code, else the copy. */
  function DuplicateSheet(store: Store, uid: string, code: string, env: Env): Step<Option<Sheet>>
  {
    if uid == "" then Step(store, None)
    else
      var e := Ensure(store, uid, env);
      var w := e.result;
      match FindByCode(w.allSheets, code)
      case None => Step(e.store, None)
      case Some(source) =>
        var copy := CopyOf(source, w.allSheets, env);
        var p := Persist(e.store, uid, w.allSheets + [copy], w.activeSheetId, env, false);
        Step(p.store, Some(copy))
  }

  /** The list `deleteSheet` keeps: the other sheets, or a new default sheet
      when none is left, most recently updated first. */
  function Remaining(all: seq<Sheet>, code: string, env: Env): (r: seq<Sheet>)
    ensures r != []
  {
    var rest := WithoutCode(all, code);
    var next := if rest == [] then [DefaultSheet(env.newCode, env.now)] else rest;
    SortByUpdatedAtDesc(next)
  }

  /** `deleteSheet(code)`: the unchanged workspace for an unknown code. */
  function DeleteSheet(store: Store, uid: string, code: string, env: Env): Step<Option<Workspace>>
  {
    if uid == "" then Step(store, None)
    else
      var e := Ensure(store, uid, env);
      var w := e.result;
      if code !in Codes(w.allSheets) then Step(e.store, Some(w))
      else
        var sorted := Remaining(w.allSheets, code, env);
        var nextActive := if w.activeSheetId == code then sorted[0].sheetCode else w.activeSheetId;
        var p := Persist(e.store, uid, sorted, nextActive, env, false);
        Step(p.store, Some(p.result))
  }

  /** An incoming entry `replaceInactiveSheets` keeps: an object whose
      `sheetCode` is not the active code. */
  predicate KeptIncoming(v: Value, activeId: string)
  {
    IsObject(v) && !StrictEquals(Member(v, "sheetCode"), Str(activeId))
  }

  /** The incoming entries `replaceInactiveSheets` keeps: of an array, in
      their order, exactly the objects whose `sheetCode` is not the active
      code; nothing of anything else. */
  function Incoming(inactive: Value, activeId: string): (vs: seq<Value>)
    ensures !inactive.Arr? ==> vs == []
    ensures inactive.Arr? ==> IsSubseq(vs, inactive.elems)
    ensures inactive.Arr? ==> forall v :: v in vs <==> v in inactive.elems && KeptIncoming(v, activeId)
    ensures inactive.Arr? ==> vs == Filter(inactive.elems, v => KeptIncoming(v, activeId))
  {
    var list := if inactive.Arr? then inactive.elems else [];
    var notActive := (v: Value) => !StrictEquals(Member(v, "sheetCode"), Str(activeId));
    var kept := (v: Value) => KeptIncoming(v, activeId);
    FilterFilter(list, IsObject, notActive, kept);
    FilterIsSubseq(list, kept);
    Filter(Filter(list, IsObject), notActive)
  }

  /** `.map((sheet) => normalizeSheetData(sheet, null, {hydrate: false}))`:
      the j-th entry, when it has no code of its own, gets
      `env.replaceMint(j)`, an identifier of this pass and not of the read. */
  function NormalizeEach(vs: seq<Value>, env: Env): (ss: seq<Sheet>)
    ensures |ss| == |vs|
    ensures forall j | 0 <= j < |vs| ::
      ss[j] == NormalizeSheetData(vs[j], "", false, env.hydrator, env.replaceMint(j), env.now)
  {
    seq(|vs|, j requires 0 <= j < |vs| => NormalizeSheetData(vs[j], "", false, env.hydrator, env.replaceMint(j), env.now))
  }

  /** The incoming entries normalised one by one and then de-duplicated. */
  function ReplacementSheets(inactive: Value, activeId: string, env: Env): seq<Sheet>
  {
    Deduplicated(SheetValues(NormalizeEach(Incoming(inactive, activeId), env)), false, env)
  }

  /** `replaceInactiveSheets(list)`: returns the persisted inactive sheets. */
  function ReplaceInactiveSheets(store: Store, uid: string, inactive: Value, env: Env): Step<seq<Sheet>>
  {
    if uid == "" then Step(store, [])
    else
      var e := Ensure(store, uid, env);
      var w := e.result;
      var p := Persist(e.store, uid, [w.activeSheet] + ReplacementSheets(inactive, w.activeSheetId, env),
                       w.activeSheetId, env, false);
      Step(p.store, p.result.inactiveSheets)
  }

  // ---------------------------------------------------------------------
  // Non-emptiness facts the definitions rely on
  // ---------------------------------------------------------------------

  lemma {:induction false} NormalizeAllLength(vals: seq<Value>, hydrate: bool, env: Env)
    requires forall v | v in vals :: Truthy(v)
    ensures |NormalizeAll(vals, hydrate, env)| == |vals|
  {
    if vals != [] {
      var j := |vals| - 1;
      assert vals[j] in vals;
      assert forall v | v in vals[..j] :: v in vals;
      NormalizeAllLength(vals[..j], hydrate, env);
    }
  }

  lemma CollectNonEmpty(s: seq<Sheet>)
    requires s != []
    ensures Collect(s) != []
  {
    var init := s[..|s| - 1];
    var m := Collect(init);
    var i := IndexOfCode(m, s[|s| - 1].sheetCode);
    if 0 <= i {
      assert m[i] in m;
    }
  }

  /** De-duplicating a non-empty list of sheets never empties it. */
  lemma DedupeNonEmpty(all: seq<Sheet>, env: Env)
    requires all != []
    ensures Deduplicated(SheetValues(all), false, env) != []
    ensures PersistedSheets(all, env) != []
  {
    var vals := SheetValues(all);
    assert forall v | v in vals :: Truthy(v);
    NormalizeAllLength(vals, false, env);
    CollectNonEmpty(NormalizeAll(vals, false, env));
  }
}
