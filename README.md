# Character-sheet workspace and record lists, modelled in Dafny

This project models the core of a tabletop character-sheet web application.

**The sheet workspace repository.** Each signed-in user owns one stored
document. The repository reads it in any of its three historical layouts:

- schema 2;
- a bare `data` plus a `sheets` array;
- the legacy `sheetsMap`.

It normalises every sheet record and keeps, per `sheetCode`, the most
recently updated copy. It sorts the sheets newest first, resolves which sheet
is active and writes the document back once as a migration. The repository
offers six operations, each a read–modify–write of that document:

- save the active sheet;
- switch to another sheet;
- create a sheet;
- duplicate a sheet;
- delete a sheet;
- replace all inactive sheets.

**Around it:**

- the share codes for skills and items: normalise, compact, wrap and parse;
- the level tables of the attributes page;
- the list updaters of the inventory, skills and annotations pages: append,
  paste, edit by id, delete by id, search filters and the comma-separated
  category and domain lists.

**How the JavaScript is modelled.**

- Values are the datatype `JsValues.Value`. Numbers are integers, and every
  non-finite number is `NaN`.
- Truthiness, `Number(v)`, `String(v)`, object spread and `Object.values` are
  written out as functions.
- A callback that would throw a `TypeError` makes the enclosing operation
  return `None`.
- The document store is a `map` from user id to document. A write of
  `setDoc(..., {merge: true})` is modelled as a shallow merge: each field of
  the patch replaces the stored field. See "Left out" for nested maps.
- The user id `""` stands for a signed-out caller.
- Everything nondeterministic comes in through an `Env` value:
  - the clock reading (`now`);
  - the ids the operation's `uuidv4()` calls return. They are abstract strings, and a lemma that needs two of them to differ says so in its `requires`:
    - `defaultCode` for the default sheet of an empty document;
    - `newCode` for a created or duplicated sheet;
    - `mint(j)` for the j-th record without a code when the document is read;
    - `replaceMint(j)` for the j-th incoming record without a code in the later pass of `replaceInactiveSheets`;
  - `decompressData` (`hydrator`).

**How the repository is built.** The repository is the class
`SheetRepository.Repository`. Its field `docs` is the store, and its methods
follow the source step by step. Each method is proved to leave the store and
return the result that the functional model in `Workspaces` describes. The
properties of that model are proved in `WorkspaceProperties` and
`OperationProperties`.

**Loops and accumulators.**

- The `Map` fold of `dedupeByLatestUpdate` is the method
  `SheetCollections.DedupeByLatestUpdate`.
- The `while` loop of `buildDuplicatedName` is the method
  `SheetCollections.BuildDuplicatedName`.
- The `reduce`/`forEach` accumulators of the share codes are the methods
  `ShareCodes.PickFields`, `ShareCodes.CompactObject` and
  `ShareCodes.ExpandObject`.

Each of these is proved equal to a specification function, and the
properties are proved about that function.

**Behaviour of the source worth knowing:**

- `calculateAttributesPoints` and `calculateAttributesCap` use
  `userData.nivel || 1`, so a level that is a non-numeric string compares as
  `NaN`. Every `<` test fails, and the functions fall through to the top tier,
  13 points and a cap of 5 (`LevelTables.NonNumericLevel`).
- `filteredSkills` calls `skill.domain.split`, which has no fallback. One
  skill whose domain is not a string makes the filter throw
  (`Skills.FilteredSkillsSpec`).
- Unlike the other list updaters, the two `handleDelete` updaters call
  `.filter` on the stored array without a `|| []` fallback.
- The skills page spreads the stored list inside the state updater, outside
  its `try`. A stored `skillsArray` that cannot be spread makes the paste
  throw instead of being ignored (`Skills.PasteSkill`). The inventory page
  spreads inside its `try`, so there the failure is caught.
- The search of the skills and annotations pages calls `value.toString()`
  on every property value until one matches. A `null` or `undefined` value
  reached before a match throws, so the outcome depends on the order of the
  record's properties (`RecordLists.MatchesSearchSpec`).

## Model

| member | source | states |
|---|---|---|
| SheetNormalizer.SafeName | src/services/sheetRepository.js:21-25 | the name is never empty and always trimmed: the trimmed string for a non-blank string, "Ficha sem nome" otherwise |
| SheetNormalizer.ToFiniteNumber | src/services/sheetRepository.js:27-30 | a number gives itself; `null`, `""`, `false` and `[]` give 0 and `true` 1; `undefined`, `NaN` and any object give the fallback; any other value gives what `Number(v)` reads when finite, else the fallback |
| SheetNormalizer.NonNumericFallsBack | src/services/sheetRepository.js:27-30 | under the model's integer-only `Number`, a string holding a character that is neither white space, a digit nor a sign gives the fallback |
| SheetNormalizer.NormalizeSheetData | src/services/sheetRepository.js:32-53 | a forced code always wins; otherwise a non-blank stored code is kept, else the fresh id; the name and level come from SafeName and ToFiniteNumber; timestamps are non-zero once the clock is; every other field passes through; the result is canonical |
| SheetNormalizer.NormalizeTimestamps | src/services/sheetRepository.js:41-51 | stored timestamps are kept; a missing `updatedAt` falls back to `createdAt` and the reverse; with neither, both are the clock reading |
| SheetNormalizer.SheetFieldsRead | src/services/sheetRepository.js:45-52 | the stored object of a sheet reads back its code, name, level, timestamps and extra fields |
| SheetNormalizer.NormalizeCanonical | src/services/sheetRepository.js:32-53 | normalising the stored form of a canonical sheet gives the same sheet |
| SheetNormalizer.NormalizeIdempotent | src/services/sheetRepository.js:32-53 | normalising a normalised sheet again changes nothing, whatever fresh id and clock the second call gets |
| SheetNormalizer.NormalizeStamped | src/services/sheetRepository.js:32-53 | a record re-stamped with a forced code and both timestamps normalises to exactly that code, those timestamps and its own name, level and extra fields |
| SheetNormalizer.NormalizeFresh | src/services/sheetRepository.js:32-53 | a record that already carries a non-blank code and equal timestamps keeps them |
| SheetNormalizer.NormalizeAvoids | src/services/sheetRepository.js:37-47 | a record whose stored code is not `other`, normalised with a fresh id other than `other`, does not get the code `other` |
| SheetNormalizer.DefaultSheet | src/services/sheetRepository.js:71-80 | the default sheet is "Ficha principal" at level 0 with no extra fields, and is canonical |
| SheetCollections.IndexOfCode | src/services/sheetRepository.js:112 | the first index holding the code, or -1 exactly when no sheet has it |
| SheetCollections.FindByCode | src/services/sheetRepository.js:112 | `find` by code: nothing exactly when the code is absent, else a sheet of the list with that code |
| SheetCollections.FindUnique | src/services/sheetRepository.js:112 | with distinct codes, the sheet found is the only one with the code |
| SheetCollections.NormalizeAllStep | src/services/sheetRepository.js:58-59 | falsy entries are dropped and every other entry is normalised in order |
| SheetCollections.CollectStep | src/services/sheetRepository.js:60-63 | one step of the fold is one `Map` update |
| SheetCollections.DedupeByLatestUpdate | src/services/sheetRepository.js:55-66 | the `forEach` over the entries computes the specification `Deduplicated` |
| SheetCollections.CollectCodes | src/services/sheetRepository.js:55-66 | the de-duplicated list has pairwise distinct codes and exactly the codes of the input |
| SheetCollections.KeepCodes | src/services/sheetRepository.js:60-63 | one `Map.set` keeps codes distinct and adds exactly the new code |
| SheetCollections.LatestExtendSame | src/services/sheetRepository.js:61 | because of `>=`, a later copy with an equal or larger `updatedAt` replaces the kept one |
| SheetCollections.CollectLatest | src/services/sheetRepository.js:55-66 | every kept copy has the largest `updatedAt` among the copies of its code |
| SheetCollections.CollectOfDistinct | src/services/sheetRepository.js:55-66 | a list with distinct codes passes through the fold unchanged |
| SheetCollections.NormalizeAllCanonical | src/services/sheetRepository.js:58-59 | re-normalising canonical sheets gives them back |
| SheetCollections.NormalizeAllCanonicalResult | src/services/sheetRepository.js:58-59 | every normalised entry is canonical |
| SheetCollections.DedupeCanonical | src/services/sheetRepository.js:55-66 | canonical sheets with distinct codes come back unchanged |
| SheetCollections.CollectSubset | src/services/sheetRepository.js:65 | the fold only returns entries it was given |
| SheetCollections.SortByUpdatedAtDesc | src/services/sheetRepository.js:68-69 | the sort is a permutation of its input |
| SheetCollections.InsertByUpdatedAt | src/services/sheetRepository.js:68-69 | one insertion step adds exactly the element |
| SheetCollections.SortSorted | src/services/sheetRepository.js:68-69 | the result is ordered by `updatedAt`, newest first |
| SheetCollections.SortOfSorted | src/services/sheetRepository.js:68-69 | an already sorted list is left as it is, because the sort is stable |
| SheetCollections.SortedHeadLatest | src/services/sheetRepository.js:68-69 | the head of a sorted list is the most recently updated sheet |
| SheetCollections.SortCodes | src/services/sheetRepository.js:68-69 | sorting keeps the codes and their distinctness |
| SheetCollections.WithoutCode | src/services/sheetRepository.js:113 | the filter keeps, in order, exactly the sheets with another code |
| SheetCollections.WithoutAbsentCode | src/services/sheetRepository.js:113 | filtering out a code nobody has changes nothing |
| SheetCollections.WithoutCodeDistinct | src/services/sheetRepository.js:113 | filtering keeps codes distinct and removes exactly that code |
| SheetCollections.UpsertProperties | src/services/sheetRepository.js:162-165 | the upsert holds one copy per code, the new sheet last, and every other sheet of the list |
| SheetCollections.Upsert | src/services/sheetRepository.js:162-165 | every sheet with the newcomer's code dropped, then the newcomer appended; properties in SheetCollections.UpsertProperties |
| SheetCollections.NumberedInjective | src/services/sheetRepository.js:258-267 | different counters give different names |
| SheetCollections.FreeIndex | src/services/sheetRepository.js:261-265 | the smallest counter from `n` whose numbered name is free |
| SheetCollections.DuplicatedName | src/services/sheetRepository.js:258-267 | never an existing name: "X (copia)" when free, else "X (copia) N" for the smallest free N from 2 |
| SheetCollections.BuildDuplicatedName | src/services/sheetRepository.js:258-267 | the `while` loop computes DuplicatedName |
| Workspaces.Write | src/services/sheetRepository.js:128-136 | the merge sets the patched fields, keeps the document's other fields and leaves every other user's document alone |
| Workspaces.ResolveActiveSheetId | src/services/sheetRepository.js:96-109 | no id exactly when there are no sheets; otherwise always the code of one of the sheets |
| Workspaces.BuildWorkspace | src/services/sheetRepository.js:111-120 | the requested sheet is active when it exists, else the first; the active sheet's code is `activeSheetId`; inactive sheets are the others in order |
| Workspaces.InitialSheets | src/services/sheetRepository.js:144-146 | never empty: a default sheet stands in for an empty document |
| Workspaces.SwitchedSheets | src/services/sheetRepository.js:218-224 | never empty |
| Workspaces.Remaining | src/services/sheetRepository.js:306-309 | never empty: deleting the last sheet leaves a default one |
| Workspaces.Incoming | src/services/sheetRepository.js:325-329 | of an array, exactly the objects whose code is not the active one, in their order (a filter of the array); nothing of any other value |
| Workspaces.SheetsFromPayload | src/services/sheetRepository.js:82-94 | the de-duplicated sheets of `data` and `sheets`, or of `sheetsMap` when those hold none; properties in WorkspaceProperties.SheetsFromPayloadCanonical and SheetsMapIgnored |
| Workspaces.Persist | src/services/sheetRepository.js:122-139 | the de-duplicated sheets, newest first, built into a workspace and written as one merge patch; properties in WorkspaceProperties.PersistValid and PersistDocument |
| Workspaces.Ensure | src/services/sheetRepository.js:141-160 | the view of the stored document, written back as a migration only when the schema or the active pointer differs; properties in WorkspaceProperties.EnsureValid |
| Workspaces.GetWorkspace | src/services/sheetRepository.js:167-177 | nothing for a signed-out caller, else the ensured workspace; properties in OperationProperties.SignedOut and SheetRepository.Repository.GetWorkspace |
| Workspaces.SaveActiveSheet | src/services/sheetRepository.js:179-202 | the re-stamped active sheet upserted and persisted; properties in OperationProperties.SaveProps and SavedSheetProps |
| Workspaces.SwitchActiveSheet | src/services/sheetRepository.js:204-234 | an unknown target gives nothing; otherwise the current sheet is snapshotted and the target persisted as active; properties in OperationProperties.SwitchProps and SwitchPersist |
| Workspaces.CreateSheet | src/services/sheetRepository.js:236-256 | a new sheet with the fresh code appended as an inactive sheet; the active pointer is unchanged; properties in OperationProperties.CreateProps and CreatedSheetProps |
| Workspaces.DuplicateSheet | src/services/sheetRepository.js:269-293 | an unknown source gives nothing; otherwise a renamed copy with the fresh code is appended as an inactive sheet; the active pointer is unchanged; properties in OperationProperties.DuplicateProps and CopyProps |
| Workspaces.DeleteSheet | src/services/sheetRepository.js:295-318 | an unknown code changes nothing; otherwise the sheet is removed and the newest remaining sheet becomes active if it was; properties in OperationProperties.DeleteProps and DeletePersist |
| Workspaces.ReplaceInactiveSheets | src/services/sheetRepository.js:320-340 | the active sheet plus the normalised, de-duplicated incoming sheets, persisted; properties in OperationProperties.ReplaceProps and ReplacePersist |
| Workspaces.DedupeNonEmpty | src/services/sheetRepository.js:122-126 | de-duplicating a non-empty list leaves a non-empty list |
| WorkspaceProperties.Partition | src/services/sheetRepository.js:111-120 | the active sheet plus the inactive ones are exactly all the sheets; the active code is not inactive |
| WorkspaceProperties.PersistedSheetsValid | src/services/sheetRepository.js:122-126 | the written list is non-empty, has distinct codes, is canonical and sorted, keeps every code, and is a permutation of distinct input |
| WorkspaceProperties.PersistValid | src/services/sheetRepository.js:122-139 | the written workspace is valid, keeps the requested active sheet when it exists and keeps every code |
| WorkspaceProperties.PatchRead | src/services/sheetRepository.js:128-136 | the patch holds schema 2, `sheetsMap: null`, the active id, the active sheet, the inactive sheets and the timestamps |
| WorkspaceProperties.WrittenDoc | src/services/sheetRepository.js:128-136 | after the merge the document reads back schema 2, the active id, the active sheet and the inactive sheets |
| WorkspaceProperties.PersistDocument | src/services/sheetRepository.js:122-139 | the written document has schema 2, no `sheetsMap`, the returned workspace's pointer and sheets, and other users' documents are untouched |
| WorkspaceProperties.PersistOfValid | src/services/sheetRepository.js:122-139 | persisting a valid workspace returns that same workspace |
| WorkspaceProperties.SheetsFromPayloadCanonical | src/services/sheetRepository.js:82-94 | the sheets read from any document are canonical and have distinct codes |
| WorkspaceProperties.SheetsMapIgnored | src/services/sheetRepository.js:85-93 | `sheetsMap` is not consulted when `data` or `sheets` yield an object |
| WorkspaceProperties.EnsuredViewValid | src/services/sheetRepository.js:96-109 | the view is valid; the stored pointer wins when it names a sheet, then `data.sheetCode`, then the newest sheet |
| WorkspaceProperties.EnsureValid | src/services/sheetRepository.js:141-160 | the returned workspace is valid; the document is written, as a migration, exactly when it needs normalising; afterwards it has schema 2 and the returned pointer |
| WorkspaceProperties.ReadBackView | src/services/sheetRepository.js:82-120 | reading back a written workspace gives the same active sheet and a permutation of the same sheets |
| WorkspaceProperties.ReadBack | src/services/sheetRepository.js:141-160 | `ensureWorkspace` right after a write performs no write and returns the same active sheet |
| WorkspaceProperties.PersistReadBack | src/services/sheetRepository.js:122-160 | after any persist, `ensureWorkspace` leaves the store alone and finds the persisted active sheet |
| WorkspaceProperties.EnsureIdempotent | src/services/__tests__/sheetSystem.e2e.test.js:63-82 | a second `ensureWorkspace` writes nothing and returns the same active sheet and a permutation of the same sheets |
| WorkspaceProperties.EnsureSettled | src/services/sheetRepository.js:141-160 | after a call that writes nothing, a later call under any clock and ids writes nothing exactly when its view still has a sheet with the active code, and then keeps that active sheet |
| OperationProperties.UpsertValid | src/services/sheetRepository.js:162-165 | the upsert keeps codes distinct and sheets canonical; it holds the new sheet and every sheet with another code |
| OperationProperties.PersistDistinct | src/services/sheetRepository.js:122-139 | persisting distinct canonical sheets keeps them all and makes the requested sheet active |
| OperationProperties.SavedSheetProps | src/services/sheetRepository.js:179-202 | the saved sheet keeps the active code and `createdAt` whatever the data says, and gets the clock as `updatedAt` |
| OperationProperties.SaveProps | src/services/sheetRepository.js:179-202 | saving never changes the active identity or the set of codes, and stores the saved sheet as `data` |
| OperationProperties.SignedOut | src/services/sheetRepository.js:173-340 | a signed-out caller gets null (or an empty list) and the store is unchanged |
| OperationProperties.SwitchedSheetsValid | src/services/sheetRepository.js:218-224 | the snapshot upsert keeps one copy per code and every other sheet |
| OperationProperties.SwitchPersist | src/services/sheetRepository.js:204-234 | the target becomes active; the snapshot of the old active sheet is stored among the inactive ones |
| OperationProperties.SwitchProps | src/services/sheetRepository.js:204-234 | an unknown target gives null; otherwise the target is active and stored as `data`, and the current data, saved under the previous active id, is among the stored inactive sheets |
| OperationProperties.CreatedSheetProps | src/services/sheetRepository.js:236-256 | a created sheet has the fresh code, the safe name, level 0 and both timestamps at the clock |
| OperationProperties.AppendPersist | src/services/sheetRepository.js:245-254 | appending a sheet with a fresh code adds exactly it as an inactive sheet and keeps the active one |
| OperationProperties.CreateProps | src/services/sheetRepository.js:236-256 | with an unused fresh code, create adds exactly one sheet as an inactive sheet and leaves the active pointer unchanged |
| OperationProperties.DuplicatedNameShape | src/services/sheetRepository.js:258-267 | a duplicated name is non-blank and trimmed, so normalisation keeps it |
| OperationProperties.DuplicatedSheetProps | src/services/sheetRepository.js:279-289 | the copy has the fresh code, the given name, the source's level and extra fields and new timestamps |
| OperationProperties.CopyProps | src/services/sheetRepository.js:269-293 | the copy's name is not taken by any sheet |
| OperationProperties.DuplicateProps | src/services/sheetRepository.js:269-293 | an unknown source gives null; otherwise exactly the copy is appended and the active pointer is unchanged |
| OperationProperties.RemainingProps | src/services/sheetRepository.js:295-318 | deleting leaves every other sheet, or a default sheet when none is left, sorted newest first |
| OperationProperties.DeletePersist | src/services/sheetRepository.js:306-316 | deleting the active sheet makes the most recently updated remaining sheet active; otherwise the active sheet stays |
| OperationProperties.DeleteProps | src/services/sheetRepository.js:295-318 | an unknown code returns the workspace unchanged; otherwise exactly that sheet goes, with the pointer rules of DeletePersist |
| OperationProperties.NormalizeEachAvoids | src/services/sheetRepository.js:325-331 | no incoming sheet gets the active code |
| OperationProperties.ReplacementProps | src/services/sheetRepository.js:325-332 | the replacement sheets are canonical, distinct and never carry the active code |
| OperationProperties.ReplacePersist | src/services/sheetRepository.js:333-339 | the active sheet is untouched and the inactive sheets are exactly the replacements |
| OperationProperties.ReplaceProps | src/services/sheetRepository.js:320-340 | when no id of the replace pass is the active code, legacy documents with a codeless active sheet included: bulk replace drops incoming entries with the active code, keeps the active sheet and returns the stored inactive sheets |
| SheetRepository.Repository.constructor | src/services/sheetRepository.js:19 | the store starts as given |
| SheetRepository.Repository.PersistWorkspace | src/services/sheetRepository.js:122-139 | the new store and the result are those Persist describes; for canonical sheets the result is valid and keeps the requested active sheet |
| SheetRepository.Repository.EnsureWorkspace | src/services/sheetRepository.js:141-160 | the new store and the result are those Ensure describes; the result is valid and the document then has schema 2 and the returned pointer |
| SheetRepository.Repository.GetWorkspace | src/services/sheetRepository.js:167-177 | the new store and the result are those GetWorkspace describes; null exactly for a signed-out caller |
| SheetRepository.Repository.SaveActiveSheet | src/services/sheetRepository.js:179-202 | the new store and the result are those SaveActiveSheet describes; a signed-in save returns a valid workspace whose active sheet carries the clock |
| SheetRepository.Repository.SwitchActiveSheet | src/services/sheetRepository.js:204-234 | the new store and the result are those SwitchActiveSheet describes (their meaning is SwitchProps) |
| SheetRepository.Repository.CreateSheet | src/services/sheetRepository.js:236-256 | the new store and the result are those CreateSheet describes (their meaning is CreateProps) |
| SheetRepository.Repository.DuplicateSheet | src/services/sheetRepository.js:269-293 | the new store and the result are those DuplicateSheet describes (their meaning is DuplicateProps) |
| SheetRepository.Repository.DeleteSheet | src/services/sheetRepository.js:295-318 | the new store and the result are those DeleteSheet describes; a signed-in delete returns a valid workspace |
| SheetRepository.Repository.ReplaceInactiveSheets | src/services/sheetRepository.js:320-340 | the new store and the result are those ReplaceInactiveSheets describes (their meaning is ReplaceProps) |
| JsText.TrimIsTrimmed | src/services/sheetRepository.js:23 | `trim` leaves no white space at either end |
| JsText.TrimIdempotent | src/services/sheetRepository.js:23 | trimming twice is trimming once |
| JsText.JoinSplit | src/pages/Page6.jsx:111-116 | `split` loses nothing: joining the pieces gives the text back |
| JsText.SortedKeys | src/services/sheetRepository.js:92 | `Object.values` lists every property exactly once |
| JsValues.ObjectValues | src/services/sheetRepository.js:92 | the values listed are exactly the object's values |
| JsValues.ValuesInOrder | src/pages/Page4.jsx:74 | `Object.values` in a given property order lists only the object's values, at most one per listed name |
| JsValues.ValuesInOrderComplete | src/pages/Page4.jsx:74 | an order that names every property lists exactly the object's values |
| JsValues.NamedEntry | src/pages/Page6.jsx:102 | spreading a value keeps its named properties |
| ShareCodes.Picked | src/assets/systems/shareUtils.js:8-11 | the accumulated object has exactly the listed fields, each holding the source's value |
| ShareCodes.PickFields | src/assets/systems/shareUtils.js:8-11 | the `reduce` computes Picked |
| ShareCodes.Normalize | src/assets/systems/shareUtils.js:85-113 | exactly the kind's fields, each a string: the default for null or undefined, `String(value)` otherwise |
| ShareCodes.NormalizeRecord | src/assets/systems/shareUtils.js:85-113 | picking then building the record computes Normalize |
| ShareCodes.NormalizeIdempotent | src/assets/systems/shareUtils.js:85-113 | a normalised record is its own normal form |
| ShareCodes.CompactObject | src/assets/systems/shareUtils.js:115-125 | the `forEach` computes the compacted object |
| ShareCodes.CompactedKeys | src/assets/systems/shareUtils.js:115-125 | every key of the compacted object is a short key |
| ShareCodes.CompactedLookup | src/assets/systems/shareUtils.js:115-125 | a field's short key is present exactly when the field is not undefined and not its default, and holds the field's value |
| ShareCodes.ExpandObject | src/assets/systems/shareUtils.js:127-138 | building the reverse map then copying each key computes the expanded object |
| ShareCodes.ReverseLookup | src/assets/systems/shareUtils.js:128-131 | the reverse map sends each short key to its full name |
| ShareCodes.ExpandedKeys | src/assets/systems/shareUtils.js:132-137 | every expanded key comes from a listed key, unknown keys passing through |
| ShareCodes.ExpandedLookup | src/assets/systems/shareUtils.js:132-137 | each listed key's value lands under its full name |
| ShareCodes.SkillKeysInvertible | src/assets/systems/shareUtils.js:37-51 | the skill key map is injective both ways |
| ShareCodes.ItemKeysInvertible | src/assets/systems/shareUtils.js:53-59 | the item key map is injective both ways |
| ShareCodes.KeyMapShape | src/assets/systems/shareUtils.js:13-59 | each key map lists its kind's fields in order |
| ShareCodes.ExpandCompactedFrom | src/assets/systems/shareUtils.js:115-138 | expansion gives back, under its full name, exactly each field compaction kept |
| ShareCodes.DroppedIsDefault | src/assets/systems/shareUtils.js:115-125 | a string field compaction drops holds its default |
| ShareCodes.ExpandCompacted | src/assets/systems/shareUtils.js:115-138 | expanding a compacted record restores every kept field, and every dropped field is at its default |
| ShareCodes.NormalizeRestores | src/assets/systems/shareUtils.js:85-113 | normalising restores the dropped defaults |
| ShareCodes.RecordRoundTrip | src/assets/systems/shareUtils.js:85-138 | `normalize(expand(compact(normalize(x)))) == normalize(x)` for both kinds |
| ShareCodes.MatchShareSpec | src/assets/systems/shareUtils.js:4 | the pattern matches exactly a `TMW2:<type>:` header followed by a payload its capture group accepts |
| ShareCodes.ParseShareCode | src/assets/systems/shareUtils.js:151-181 | no code exactly for empty text; a record of a recognised type is always in normal form |
| ShareCodes.BuildShareCode | src/assets/systems/shareUtils.js:140-149 | the prefix, the type and the compressed JSON of `{v: 2, type, data}` with the normalised, compacted record; the round trip is ShareCodes.BuildParseRoundTrip |
| ShareCodes.HeaderedTrimmed | src/assets/systems/shareUtils.js:148 | a built code is already trimmed and its payload is one line |
| ShareCodes.BuiltCodeMatches | src/assets/systems/shareUtils.js:140-157 | the pattern recovers the built type and payload from a built code |
| ShareCodes.SharePayloadRead | src/assets/systems/shareUtils.js:145 | the payload carries the type and the compacted data |
| ShareCodes.ParseMatched | src/assets/systems/shareUtils.js:153-170 | a matched code with the right type parses to the normalised expansion of its data |
| ShareCodes.BuildParseRoundTrip | src/assets/systems/shareUtils.js:140-170 | parsing a built code gives the normalised record back |
| ShareCodes.ParseFallbacks | src/assets/systems/shareUtils.js:151-181 | unrecognised text, an empty payload and a type mismatch are errors; JSON without ITEM or SKILL gives no type and the raw data |
| LevelTables.AttributesPoints | src/pages/Page3.jsx:61-68 | attribute points always lie in 9..13 |
| LevelTables.AttributesCap | src/pages/Page3.jsx:70-75 | the attribute cap always lies in 3..5 |
| LevelTables.AttributesPointsByLevel | src/pages/Page3.jsx:61-89 | 9, 10, 11, 12 or 13 points and a cap of 3, 4 or 5 by level band; the skill cap is the level |
| LevelTables.TablesMonotone | src/pages/Page3.jsx:61-75 | points and cap never decrease as the level grows |
| LevelTables.UnsetLevelIsOne | src/pages/Page3.jsx:62-89 | an unset or zero level behaves as level 1 in every table |
| LevelTables.NonNumericLevel | src/pages/Page3.jsx:61-75 | a truthy non-numeric level falls through to 13 points and a cap of 5 |
| LevelTables.PericiasCap | src/pages/Page3.jsx:89 | the stored level when truthy, else 1; never falsy |
| LevelTables.PericiasPointsNumeric | src/pages/Page3.jsx:77-87 | `(base + INT)·nivel + 2·nivel` with base 3, 5 or 7 for biotype 1, 2 or 3 |
| LevelTables.PericiasPointsUnset | src/pages/Page3.jsx:77-87 | 0 when biotype or INT is unset |
| LevelTables.PericiasPointsInvalid | src/pages/Page3.jsx:77-87 | -1 for any other biotype value |
| LevelTables.PericiasPoints | src/pages/Page3.jsx:77-87 | the skill points by biotype and INT, `None` for NaN; its cases are LevelTables.PericiasPointsNumeric, PericiasPointsUnset and PericiasPointsInvalid |
| LevelTables.PericiaHeaderSpec | src/pages/Page3.jsx:239-245 | "check your level" exactly when the level is falsy; otherwise the points when positive, the fill-in text at 0, "invalid" when negative |
| LevelTables.PericiaHeader | src/pages/Page3.jsx:239-245 | the header shown above the skills; its cases are LevelTables.PericiaHeaderSpec |
| RecordLists.Prop | src/pages/Page4.jsx:41-43 | reading a property throws exactly on null and undefined |
| RecordLists.AppendedTo | src/pages/Page4.jsx:100-103 | `[...(list \|\| []), x]` succeeds exactly when the list spreads, and is that list plus x |
| RecordLists.WithList | src/pages/Page4.jsx:41-44 | `{...data, [key]: list}` replaces that property only |
| RecordLists.WithFreshId | src/pages/Page4.jsx:56 | the pasted record keeps its fields and gets the fresh id |
| RecordLists.Pasted | src/pages/Page6.jsx:97-106 | with the spread inside the handler's `try`: a bad code or an unspreadable list changes nothing; otherwise exactly one record, with the fresh id, is appended |
| RecordLists.EditedLocal | src/pages/Page4.jsx:109 | the open copy gets the edited field and keeps the others |
| RecordLists.SelectedId | src/pages/Page4.jsx:112 | `selected?.id` is undefined without a selection |
| RecordLists.MergedUnique | src/pages/Page4.jsx:109-112 | a spread merge has one result |
| RecordLists.TryFilter | src/pages/Page4.jsx:43 | a filter fails exactly when a callback throws, and otherwise keeps the accepted elements |
| RecordLists.TryFilterSpec | src/pages/Page4.jsx:43 | a filter keeps a subsequence, exactly the accepted elements, all of them when all are accepted |
| RecordLists.TryMap | src/pages/Page4.jsx:112 | a map fails exactly when a callback throws, and otherwise has one result per element |
| RecordLists.RemovedByIdSpec | src/pages/Page4.jsx:43 | deleting by id fails exactly on a missing element, keeps the rest in order and removes exactly the matching ones |
| RecordLists.RemovedIn | src/pages/Page4.jsx:41-44 | the property holds the list without exactly the matching records |
| RecordLists.RemoveAppended | src/pages/Page4.jsx:43 | removing the record just appended under a fresh id gives the old list back |
| RecordLists.UpdatedByIdSpec | src/pages/Page4.jsx:112 | editing by id keeps length and order and merges the patch into exactly the matching records |
| RecordLists.UpdatedIn | src/pages/Page4.jsx:111-114 | the property holds the list with the patch merged into exactly the matching records |
| RecordLists.UpdatedByIdTwice | src/pages/Page4.jsx:112 | the same edit applied twice gives the same list as once |
| RecordLists.TrimEachSpec | src/pages/Page4.jsx:69 | the trimmed pieces are trimmed and comma-free, and are exactly the trimmed parts |
| RecordLists.SplitTrimmedShape | src/pages/Page4.jsx:69 | every piece is non-empty, trimmed and free of commas |
| RecordLists.SomeIncludes | src/pages/Page4.jsx:74 | a match is a present value containing the term; with no null or undefined value the search does not throw |
| RecordLists.SomeIncludesSpec | src/pages/Page4.jsx:74 | a match exactly when a value containing the term comes before any null or undefined value; a throw exactly when a null or undefined value comes before any such value; no match exactly when every value is present and none contains the term |
| RecordLists.MatchesSearch | src/pages/Page4.jsx:74 | the empty search matches everything; a null or undefined record throws; a throw means some value is null or undefined; a match means some value contains the search |
| RecordLists.MatchesSearchSpec | src/pages/Page4.jsx:74 | in the record's property order, a match exactly when a value containing the search comes before any null or undefined value, a throw exactly when one of those comes first; with an order naming every property, no match exactly when every value is present and none contains the search |
| RecordLists.HasList | src/pages/Page4.jsx:68 | throws exactly on a missing record or a truthy non-string; true exactly for a non-blank string |
| RecordLists.AllLists | src/pages/Page4.jsx:69 | the flattened pieces are exactly the pieces of some record |
| RecordLists.UniqueListsSpec | src/pages/Page4.jsx:66-71 | no duplicates, in the order of first occurrence, exactly the pieces of the records with a non-blank list, each non-empty, trimmed and comma-free |
| RecordLists.UniqueLists | src/pages/Page4.jsx:66-71 | the distinct pieces of the records with a non-blank list; properties in RecordLists.UniqueListsSpec |
| Seqs.Distinct | src/pages/Page4.jsx:70 | `Array.from(new Set(s))` has no duplicates and exactly the values of `s` |
| Seqs.DistinctFirstOrder | src/pages/Page4.jsx:70 | the distinct values come in the order of their first occurrence in `s` |
| Inventory.BlankItem | src/pages/Page6.jsx:64 | a new item's content, type, image and quantity are empty |
| Inventory.NewItem | src/pages/Page6.jsx:62-64 | the title is the trimmed input or "Novo item"; the id is fresh; every other field is empty |
| Inventory.AddItem | src/pages/Page6.jsx:61-66 | exactly one new item is appended to the rendered list |
| Inventory.UpdateItem | src/pages/Page6.jsx:68-75 | length and order kept; only items with the id get the patch |
| Inventory.InputChange | src/pages/Page6.jsx:77-85 | without an open item nothing changes; otherwise the copy and the stored items with its id get the field |
| Inventory.InputChangeInSync | src/pages/Page6.jsx:77-85 | the edited copy and the edited stored item are the same object |
| Inventory.DeleteItem | src/pages/Page6.jsx:87-91 | no-op without a selection; otherwise exactly the items with the selected id are removed, the rest kept in order |
| Inventory.PasteItem | src/pages/Page6.jsx:97-106 | a failure changes nothing; otherwise exactly the pasted item, with a fresh id, is appended |
| Inventory.IsConsumableTypeSpec | src/pages/Page6.jsx:108 | true exactly when the trimmed, lower-cased text is "consumivel" or "consumiveis" |
| Inventory.IsConsumableType | src/pages/Page6.jsx:108 | the whole-text, case-insensitive test for "consumivel" or "consumiveis"; properties in Inventory.IsConsumableTypeSpec |
| Inventory.MatchedIsTrimmedWord | src/pages/Page6.jsx:108 | a match is one of the words once trimmed |
| Inventory.TrimmedWordMatches | src/pages/Page6.jsx:108 | text whose trimmed form is one of the words matches |
| Inventory.NothingSplit | src/pages/Page6.jsx:112-115 | the empty text has no categories |
| Inventory.ExtractCategories | src/pages/Page6.jsx:111-116 | throws exactly on a truthy non-string; an absent type has no categories |
| Inventory.ExtractCategoriesSpec | src/pages/Page6.jsx:111-116 | the categories are exactly the non-empty trimmed parts, each free of commas |
| Inventory.FilteredItemsSpec | src/pages/Page6.jsx:118-125 | a subsequence of the items, exactly those shown; the whole list for a blank search with no active category |
| Inventory.FilteredItems | src/pages/Page6.jsx:118-125 | the items the search and the active categories accept; properties in Inventory.FilteredItemsSpec |
| Inventory.UniqueCategories | src/pages/Page6.jsx:127-132 | exactly the categories of the items with a non-blank type, each once, in the order of first occurrence; each non-empty, trimmed and comma-free |
| Inventory.TextSnippet | src/pages/Page6.jsx:153-157 | for string content: "" for empty text, the text when it fits, else exactly its first `max` characters trimmed plus "...", at most `max` + 3 long |
| Inventory.GetSnippet | src/pages/Page6.jsx:153-157 | for any content a pasted item can hold: "" for a falsy value, TextSnippet for a string, the value itself when its `length` fits, and a throw (`None`) exactly when a truthy non-string value has no fitting `length` |
| Skills.BlankSkill | src/pages/Page4.jsx:84-98 | a created skill has an empty domain and no image field |
| Skills.NewSkill | src/pages/Page4.jsx:84-98 | the trimmed title, the fresh id, circle, type, execution and range 1, every other field empty |
| Skills.CreateSkill | src/pages/Page4.jsx:80-105 | a blank name changes nothing; otherwise exactly the new skill is appended and existing skills are kept |
| Skills.DeleteSkill | src/pages/Page4.jsx:39-46 | no-op without a selection; otherwise exactly the skills with the selected id are removed, the rest kept in order |
| Skills.CreateThenDelete | src/pages/Page4.jsx:39-105 | deleting a skill just created gives the user data back |
| Skills.PasteSkill | src/pages/Page4.jsx:52-64 | a bad clipboard code changes nothing; a stored list that cannot be spread makes the updater throw; otherwise the skill, its fields kept and a fresh id set, is appended after the stored skills |
| Skills.InputChange | src/pages/Page4.jsx:107-115 | the copy gets the field; only skills whose id equals the selected id get it, length and order kept |
| Skills.InputChangeInSync | src/pages/Page4.jsx:107-115 | the edited copy and the edited stored skill are the same object |
| Skills.UniqueDomains | src/pages/Page4.jsx:66-71 | exactly the domains of the skills with a non-blank domain, each once, in the order of first occurrence; each non-empty, trimmed and comma-free |
| Skills.FilteredSkillsSpec | src/pages/Page4.jsx:73-78 | a subsequence of the skills, exactly those shown; fails exactly when a skill is missing, its domain is not a string or its search throws; all skills for an empty search with no active domain, unless a domain is not a string |
| Skills.FilteredSkills | src/pages/Page4.jsx:73-78 | the skills the search and the active domains accept, each record's properties searched in a given order; properties in Skills.FilteredSkillsSpec |
| Annotations.NewAnnotation | src/pages/Page5.jsx:69 | `{title, content: '', id}` |
| Annotations.CreateAnnotation | src/pages/Page5.jsx:65-75 | a blank title changes nothing; otherwise exactly the new annotation is appended |
| Annotations.DeleteAnnotation | src/pages/Page5.jsx:47-54 | no-op without a selection; otherwise exactly the annotations with the selected id are removed |
| Annotations.CreateThenDelete | src/pages/Page5.jsx:47-75 | deleting an annotation just created gives the user data back |
| Annotations.InputChange | src/pages/Page5.jsx:77-85 | the field changes only on annotations with the selected id; length and order kept |
| Annotations.InputChangeInSync | src/pages/Page5.jsx:77-85 | the edited copy and the edited stored annotation are the same object |
| Annotations.FilteredAnnotationsSpec | src/pages/Page5.jsx:60-63 | a subsequence of the annotations, exactly the matches; fails exactly when the search throws on some annotation; all of them for an empty search; no failure when nothing is null or undefined |
| Annotations.FilteredAnnotations | src/pages/Page5.jsx:60-63 | the annotations the search accepts, each record's properties searched in a given order; properties in Annotations.FilteredAnnotationsSpec |

## Left out

- The document store's plumbing is not modelled: the Firestore calls and `auth.currentUser` (src/services/sheetRepository.js:1-19). Nor are `async` scheduling and store failures. The store is a map, and the user id is a parameter.
- `decompressData` (src/assets/systems/SaveLoad.jsx) is not part of this model. It is the opaque `hydrator` of `Env`. Read-back and idempotence require that it leaves canonical sheets alone (`FixesSheets`).
- SheetNormalizer.FixesSheets is a hypothesis that `decompressData` does not always meet. It rewrites a string that starts with "[LZ]" or survives an LZ-UTF16 round trip, and it parses a "[...]" string stored under `skillsArray`, `annotationsArray`, `itemsArray` or `sheetCode`. A sheet named "[LZ]x", or with the code "[1]", reads back changed, so the read-back lemmas do not cover it.
- Workspaces.Write: Firestore's `setDoc` with `{merge: true}` merges nested maps field by field, and the model replaces them whole. Only `data` is a nested map in the patch. In the real store, keys of the previously stored `data` that the new active sheet lacks stay in `data`, so after a switch the active sheet can read back with fields of the sheet that was active before. The read-back lemmas do not cover that.
- LZ-string and `JSON.stringify`/`JSON.parse` in the share codes are the opaque functions of `ShareCodes.Codec`. The round trip requires that they invert each other. `Object.keys` order on parsed data is the codec's `keys`.
- `uuidv4()` and `Date.now()` are the fields of `Env`. Each operation reads the clock once.
- Numbers are integers; floating point is not modelled. `Number(string)` accepts only an optionally signed run of digits after trimming.
- SheetNormalizer.ToFiniteNumber, SheetNormalizer.NonNumericFallsBack: JavaScript's `Number` also reads exponents ("1e3" is 1000), hexadecimal, binary and octal literals ("0x10" is 16, "0b1" is 1, "0o7" is 7), decimals ("1.5", ".5") and "Infinity". The model gives the fallback for all of them, so a `level` stored in one of these forms is read differently. NonNumericFallsBack is a fact about the model's `Number` only.
- `Object.values` on the legacy `sheetsMap` lists values in ascending key order. This is the order in which the store returns map fields.
- Equality of objects is structural where JavaScript compares references. The only `===` comparisons modelled are on ids and field values.
- WorkspaceProperties.ReadBackView: read-back gives a permutation of the written sheets, not the same order. The sort is stable, but sheets with equal `updatedAt` may come back in another order.
- WorkspaceProperties.EnsureIdempotent: proved when the first call migrated, or when both calls see the same clock and ids. A schema-2 document whose sheets lack codes or timestamps gets fresh ones minted on every read, and they are not written back unless the active pointer changes. When the first call wrote nothing, WorkspaceProperties.EnsureSettled gives the exact condition for a later call under another clock and ids: it writes nothing exactly when its view still has the active code. A minted active code fails that condition.
- RecordLists.MatchesSearch, Skills.FilteredSkills, Annotations.FilteredAnnotations: the property order of each record is a parameter (`KeyOrder`). JavaScript uses insertion order, which depends on how the record was built, and the model does not track it. Whether the search throws depends on that order, because the first null or undefined value before a hit throws.
- Inventory.GetSnippet: the card hands the result to React. React renders an array's elements and throws on a plain object, and that rendering is not modelled.
- Inventory.GetSnippet, Inventory.TextSnippet: lengths and slices count Unicode characters, while JavaScript counts UTF-16 code units. A text with characters outside the Basic Multilingual Plane is cut elsewhere in JavaScript, possibly inside a surrogate pair. For three emoji and `max` 4, JavaScript counts 6 units and returns two emoji plus "...", while the model counts 3 characters and returns the text unchanged.
- JsText.ToLower, RecordLists.MatchesSearch: lower-casing covers only the ASCII and Latin-1 upper-case letters. JavaScript's `toLowerCase` covers all of Unicode, including letters that map to more than one character, so a search for a term with other upper-case letters can match in JavaScript and not in the model.
- Dice rolling, `calculateTotalPoints` (src/pages/Page3.jsx:27-41, 91-231) and the vitals of Page1 are left out: they rely on `Math.random` and floating-point division.
- Debounced saves and the race between two writers of one document are left out. They are timers and concurrency.
- Rendering, routing, clipboard access, `localStorage`, image upload and the sheet-selection page are left out. They are user-interface code.
- React's handling of an exception thrown inside a state updater is not modelled. Such an updater returns `None`.
