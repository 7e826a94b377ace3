/** The annotations page (src/pages/Page5.jsx): the updaters that create,
    edit and delete annotations in `annotationsArray`, and the search
    filter. `data` is the user data an updater receives; `shown` is the
    `userData.annotationsArray` the page rendered with; `selected` and
    `local` are the annotation open in the modal and its edited copy. */
module Annotations {
  import opened JsText
  import opened JsValues
  import opened Seqs
  import opened RecordLists

  const ANNOTATIONS := "annotationsArray"

  /** The annotation `handleCreateAnnotation` appends: a title, empty
      content and an id. */
  function NewAnnotation(title: string, id: string): (r: Value)
    ensures r.Obj? && r.fields.Keys == {"title", "content", "id"}
    ensures Member(r, "title") == Str(title) && Member(r, "content") == Str("") && Member(r, "id") == Str(id)
  {
    Obj(map["title" := Str(title), "content" := Str(""), "id" := Str(id)])
  }

  /** `handleCreateAnnotation`: a title that trims to nothing changes
      nothing; otherwise the annotation with the trimmed title is appended
      to the stored list, which fails only when that list cannot be
      spread. */
  function CreateAnnotation(data: Fields, createTitle: string, id: string): (r: Option<Fields>)
    ensures !NonBlank(createTitle) ==> r == Some(data)
    ensures NonBlank(createTitle) ==> (r.Some? <==> SpreadOr(Get(data, ANNOTATIONS)).Some?)
    ensures NonBlank(createTitle) && r.Some? ==>
      Replaced(r.value, data, ANNOTATIONS, SpreadOr(Get(data, ANNOTATIONS)).value + [NewAnnotation(Trim(createTitle), id)])
  {
    var trimmed := Trim(createTitle);
    if trimmed == "" then Some(data)
    else AppendedTo(data, ANNOTATIONS, Get(data, ANNOTATIONS), NewAnnotation(trimmed, id))
  }

  /** `handleDelete`: without a selection nothing changes; otherwise the
      stored list, which has no fallback and must be an array, loses
      exactly the annotations carrying the selected id. */
  function DeleteAnnotation(data: Fields, selected: Value): (r: Option<Fields>)
    ensures !Truthy(selected) ==> r == Some(data)
    ensures Truthy(selected) ==>
      (r.Some? <==> Get(data, ANNOTATIONS).Arr? && AllPresent(Get(data, ANNOTATIONS).elems))
    ensures Truthy(selected) && r.Some? ==>
      Replaced(r.value, data, ANNOTATIONS, ListAt(r.value, ANNOTATIONS))
      && RemovedList(ListAt(r.value, ANNOTATIONS), Get(data, ANNOTATIONS).elems, Member(selected, "id"))
  {
    if !Truthy(selected) then Some(data)
    else
      var list := ArrayOf(Get(data, ANNOTATIONS));
      if list.None? then None else RemovedIn(data, ANNOTATIONS, list.value, Member(selected, "id"))
  }

  /** Deleting an annotation just created under an id no other annotation
      carries gives back the user data as it was. */
  lemma CreateThenDelete(data: Fields, createTitle: string, id: string)
    requires ANNOTATIONS in data && data[ANNOTATIONS].Arr? && AllPresent(data[ANNOTATIONS].elems)
    requires forall x | x in data[ANNOTATIONS].elems :: !StrictEquals(Member(x, "id"), Str(id))
    requires NonBlank(createTitle)
    ensures CreateAnnotation(data, createTitle, id).Some?
    ensures DeleteAnnotation(CreateAnnotation(data, createTitle, id).value, NewAnnotation(Trim(createTitle), id)) == Some(data)
  {
    var note := NewAnnotation(Trim(createTitle), id);
    var list := data[ANNOTATIONS].elems;
    AppendThenRemove(data, ANNOTATIONS, note, Str(id));
    var created := data[ANNOTATIONS := Arr(list + [note])];
    assert CreateAnnotation(data, createTitle, id) == Some(created);
    assert DeleteAnnotation(created, note) == RemovedIn(created, ANNOTATIONS, list + [note], Str(id));
  }

  /** `handleInputChange`: the open copy gets the field, and every stored
      annotation carrying the selected id gets the same one-field patch. */
  function InputChange(local: Value, selected: Value, data: Fields, name: string, value: string): (r: Change)
    ensures MergedInto(r.local, local, map[name := Str(value)])
    ensures r.data.Some? <==> ArrayOr(Get(data, ANNOTATIONS)).Some? && AllPresent(ArrayOr(Get(data, ANNOTATIONS)).value)
    ensures r.data.Some? ==>
      Replaced(r.data.value, data, ANNOTATIONS, ListAt(r.data.value, ANNOTATIONS))
      && UpdatedList(ListAt(r.data.value, ANNOTATIONS), ArrayOr(Get(data, ANNOTATIONS)).value, SelectedId(selected), map[name := Str(value)])
  {
    Change(EditedLocal(local, name, value), UpdatedIn(data, ANNOTATIONS, SelectedId(selected), map[name := Str(value)]))
  }

  /** When the open copy is the selected annotation, stored at index `i`,
      the edited copy and the edited stored annotation are the same
      object. */
  lemma InputChangeInSync(note: Value, data: Fields, name: string, value: string, i: nat)
    requires ANNOTATIONS in data && data[ANNOTATIONS].Arr? && AllPresent(data[ANNOTATIONS].elems)
    requires i < |data[ANNOTATIONS].elems| && data[ANNOTATIONS].elems[i] == note
    requires note.Obj? && !Member(note, "id").NaN?
    ensures var r := InputChange(note, note, data, name, value);
      r.data.Some? && i < |ListAt(r.data.value, ANNOTATIONS)| && ListAt(r.data.value, ANNOTATIONS)[i] == r.local
  {
    var r := InputChange(note, note, data, name, value);
    var list := data[ANNOTATIONS].elems;
    assert StrictEquals(Member(list[i], "id"), SelectedId(note));
    MergedUnique(ListAt(r.data.value, ANNOTATIONS)[i], r.local, note, map[name := Str(value)]);
  }

  /** `filteredAnnotations`; `order` gives each annotation's property order. */
  function FilteredAnnotations(shown: Value, searchTerm: string, order: KeyOrder): Option<seq<Value>>
  {
    var list := ArrayOr(shown);
    if list.None? then None
    else TryFilter(list.value, note => MatchesSearch(note, searchTerm, order))
  }

  /** The filtered annotations are a subsequence of the list, exactly the
      annotations the search matches; the filter fails exactly when the
      search throws on some annotation; an empty search keeps the whole
      list, and the filter succeeds whenever no annotation and no property
      of one is `null` or `undefined`. */
  lemma FilteredAnnotationsSpec(shown: Value, searchTerm: string, order: KeyOrder)
    ensures FilteredAnnotations(shown, searchTerm, order).Some? ==>
      ArrayOr(shown).Some?
      && var r := FilteredAnnotations(shown, searchTerm, order).value;
      IsSubseq(r, ArrayOr(shown).value)
      && forall x :: x in r <==> x in ArrayOr(shown).value && MatchesSearch(x, searchTerm, order) == Some(true)
    ensures ArrayOr(shown).Some? ==>
      (FilteredAnnotations(shown, searchTerm, order).Some? <==>
         forall x | x in ArrayOr(shown).value :: MatchesSearch(x, searchTerm, order).Some?)
    ensures ArrayOr(shown).Some? && searchTerm == "" ==>
      FilteredAnnotations(shown, searchTerm, order) == Some(ArrayOr(shown).value)
    ensures ArrayOr(shown).Some?
      && (forall x | x in ArrayOr(shown).value :: !IsNullish(x) && forall v | v in OwnEntries(x).Values :: !IsNullish(v))
      ==> FilteredAnnotations(shown, searchTerm, order).Some?
  {
    var list := ArrayOr(shown);
    if list.Some? {
      var keep := note => MatchesSearch(note, searchTerm, order);
      if TryFilter(list.value, keep).Some? {
        TryFilterSpec(list.value, keep);
      }
    }
  }
}
