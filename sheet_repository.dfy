/** The repository of src/services/sheetRepository.js as an object over the
    document store: each exported operation is a method that reads and
    writes `docs` step by step, as the source does, and is proved to leave
    the store and return the result the functional model in `Workspaces`
    describes. `uid` is the signed-in user's id, "" when nobody is signed
    in; `env` is what the operation reads from the clock and the identifier
    generator. */
module SheetRepository {
  import opened JsValues
  import opened SheetNormalizer
  import opened SheetCollections
  import opened Workspaces
  import opened WorkspaceProperties
  import opened OperationProperties

  class Repository {
    /** The `userData` collection: one document per user id. */
    var docs: Store

    constructor(initial: Store)
      ensures docs == initial
    {
      docs := initial;
    }

    /** `persistWorkspace(uid, {allSheets, activeSheetId}, extraPatch)`. */
    method PersistWorkspace(uid: string, all: seq<Sheet>, id: string, env: Env, migrated: bool)
      returns (w: Workspace)
      requires all != []
      modifies this
      ensures var p := Persist(old(docs), uid, all, id, env, migrated);
        docs == p.store && w == p.result
      ensures AllCanonical(all) ==> WsValid(w)
      ensures AllCanonical(all) && id in Codes(all) ==> w.activeSheetId == id
    {
      DedupeNonEmpty(all, env);
      var deduped := DedupeByLatestUpdate(SheetValues(all), false, env);
      var normalized := SortByUpdatedAtDesc(deduped);
      w := BuildWorkspace(normalized, id);
      docs := Write(docs, uid, PersistPatch(w, env.now, migrated));
      if AllCanonical(all) {
        PersistValid(old(docs), uid, all, id, env, migrated);
      }
    }

    /** `ensureWorkspace(uid)`: read the document, build the canonical view
        and persist it as a migration when the document needs it. */
    method EnsureWorkspace(uid: string, env: Env) returns (w: Workspace)
      modifies this
      ensures var e := Ensure(old(docs), uid, env);
        docs == e.store && w == e.result
      ensures ValidEnv(env) ==>
        (WsValid(w) && uid in docs
         && docs[uid]["schemaVersion"] == Num(SCHEMA_VERSION)
         && docs[uid]["activeSheetId"] == Str(w.activeSheetId))
    {
      var payload := Doc(docs, uid);
      var preferred := PreferredSource(payload);
      var fromPayload: seq<Sheet>;
      if |preferred| > 0 {
        fromPayload := DedupeByLatestUpdate(preferred, true, env);
      } else {
        fromPayload := DedupeByLatestUpdate(MapSource(payload), true, env);
      }
      var all := if fromPayload == [] then [DefaultSheet(env.defaultCode, env.now)] else fromPayload;
      DedupeNonEmpty(all, env);
      var deduped := DedupeByLatestUpdate(SheetValues(all), false, env);
      var sorted := SortByUpdatedAtDesc(deduped);
      var id := ResolveActiveSheetId(payload, sorted);
      w := BuildWorkspace(sorted, id.value);
      if NeedsNormalization(payload, w) {
        w := PersistWorkspace(uid, w.allSheets, w.activeSheetId, env, true);
      }
      if ValidEnv(env) {
        EnsureValid(old(docs), uid, env);
      }
    }

    /** `getWorkspace()` and `ensureUserWorkspace()`. */
    method GetWorkspace(uid: string, env: Env) returns (r: Option<Workspace>)
      modifies this
      ensures var s := Workspaces.GetWorkspace(old(docs), uid, env);
        docs == s.store && r == s.result
      ensures uid == "" <==> r.None?
    {
      if uid == "" {
        return None;
      }
      var w := EnsureWorkspace(uid, env);
      r := Some(w);
    }

    /** `saveActiveSheet(data)`. */
    method SaveActiveSheet(uid: string, data: Value, env: Env) returns (r: Option<Workspace>)
      modifies this
      ensures var s := Workspaces.SaveActiveSheet(old(docs), uid, data, env);
        docs == s.store && r == s.result
      ensures uid != "" && ValidEnv(env) ==>
        (r.Some? && WsValid(r.value) && r.value.activeSheet.updatedAt == env.now)
    {
      if uid == "" {
        return None;
      }
      var w := EnsureWorkspace(uid, env);
      var next := SavedSheet(data, w, env);
      var nextSheets := Upsert(w.allSheets, next);
      var persisted := PersistWorkspace(uid, nextSheets, next.sheetCode, env, false);
      r := Some(persisted);
      if ValidEnv(env) {
        SaveProps(old(docs), uid, data, env);
        SavedSheetProps(data, w, env);
      }
    }

    /** `switchActiveSheet(targetSheetCode, currentActiveData)`. */
    method SwitchActiveSheet(uid: string, target: string, current: Value, env: Env) returns (r: Option<Sheet>)
      modifies this
      ensures var s := Workspaces.SwitchActiveSheet(old(docs), uid, target, current, env);
        docs == s.store && r == s.result
    {
      if uid == "" {
        return None;
      }
      var w := EnsureWorkspace(uid, env);
      if FindByCode(w.allSheets, target).None? {
        return None;
      }
      var nextSheets := w.allSheets;
      if IsObject(current) {
        var snapshot := SavedSheet(current, w, env);
        nextSheets := Upsert(nextSheets, snapshot);
      }
      var persisted := PersistWorkspace(uid, nextSheets, target, env, false);
      r := Some(persisted.activeSheet);
    }

    /** `createSheet(name)`. */
    method CreateSheet(uid: string, name: Value, env: Env) returns (r: Option<Sheet>)
      modifies this
      ensures var s := Workspaces.CreateSheet(old(docs), uid, name, env);
        docs == s.store && r == s.result
    {
      if uid == "" {
        return None;
      }
      var w := EnsureWorkspace(uid, env);
      var newSheet := CreatedSheet(name, env);
      var _ := PersistWorkspace(uid, w.allSheets + [newSheet], w.activeSheetId, env, false);
      r := Some(newSheet);
    }

    /** `duplicateSheet(sheetCode)`. */
    method DuplicateSheet(uid: string, code: string, env: Env) returns (r: Option<Sheet>)
      modifies this
      ensures var s := Workspaces.DuplicateSheet(old(docs), uid, code, env);
        docs == s.store && r == s.result
    {
      if uid == "" {
        return None;
      }
      var w := EnsureWorkspace(uid, env);
      var source := FindByCode(w.allSheets, code);
      if source.None? {
        return None;
      }
      var existingNames := ExistingNames(w.allSheets);
      var name := BuildDuplicatedName(SafeName(Str(source.value.nome)), existingNames);
      var duplicated := DuplicatedSheet(source.value, name, env);
      var _ := PersistWorkspace(uid, w.allSheets + [duplicated], w.activeSheetId, env, false);
      r := Some(duplicated);
    }

    /** `deleteSheet(sheetCode)`. */
    method DeleteSheet(uid: string, code: string, env: Env) returns (r: Option<Workspace>)
      modifies this
      ensures var s := Workspaces.DeleteSheet(old(docs), uid, code, env);
        docs == s.store && r == s.result
      ensures uid != "" && ValidEnv(env) ==> (r.Some? && WsValid(r.value))
    {
      if uid == "" {
        return None;
      }
      var w := EnsureWorkspace(uid, env);
      if code !in Codes(w.allSheets) {
        return Some(w);
      }
      var sorted := Remaining(w.allSheets, code, env);
      var nextActiveSheetId := if w.activeSheetId == code then sorted[0].sheetCode else w.activeSheetId;
      var persisted := PersistWorkspace(uid, sorted, nextActiveSheetId, env, false);
      r := Some(persisted);
      if ValidEnv(env) {
        DeleteProps(old(docs), uid, code, env);
      }
    }

    /** `replaceInactiveSheets(inactiveSheets)`. */
    method ReplaceInactiveSheets(uid: string, inactive: Value, env: Env) returns (r: seq<Sheet>)
      modifies this
      ensures var s := Workspaces.ReplaceInactiveSheets(old(docs), uid, inactive, env);
        docs == s.store && r == s.result
    {
      if uid == "" {
        return [];
      }
      var w := EnsureWorkspace(uid, env);
      var incoming := Incoming(inactive, w.activeSheetId);
      var normalizedInactive := DedupeByLatestUpdate(SheetValues(NormalizeEach(incoming, env)), false, env);
      var persisted := PersistWorkspace(uid, [w.activeSheet] + normalizedInactive, w.activeSheetId, env, false);
      r := persisted.inactiveSheets;
    }
  }
}
