/** The skills page (src/pages/Page4.jsx): the updaters that create, paste,
    edit and delete skills in `skillsArray`, the domain list and the skill
    filter. `data` is the user data an updater receives; `shown` is the
    `userData.skillsArray` the page rendered with; `selected` and `local`
    are the skill open in the modal and its edited copy. */
module Skills {
  import opened JsText
  import opened JsValues
  import opened Seqs
  import opened RecordLists

  const SKILLS := "skillsArray"

  /** The properties a created skill starts with besides its title and id:
      empty texts and the numeric level 1 for circle, type, execution and
      range. */
  const BLANK_SKILL: Fields := map[
    "domain" := Str(""), "content" := Str(""), "circle" := Num(1), "type" := Num(1),
    "execution" := Num(1), "range" := Num(1), "target" := Str(""), "duration" := Str(""),
    "resistance" := Str(""), "area" := Str(""), "spent" := Str("")]

  lemma BlankSkill()
    ensures "title" !in BLANK_SKILL && "id" !in BLANK_SKILL && "image" !in BLANK_SKILL
    ensures BLANK_SKILL["domain"] == Str("")
  {
  }

  /** The skill `handleCreateSkill` appends. */
  function NewSkill(title: string, id: string): (r: Value)
    ensures r.Obj? && r.fields.Keys == BLANK_SKILL.Keys + {"title", "id"}
    ensures Member(r, "title") == Str(title) && Member(r, "id") == Str(id)
    ensures forall k | k in BLANK_SKILL :: r.fields[k] == BLANK_SKILL[k]
  {
    BlankSkill();
    Obj(BLANK_SKILL["title" := Str(title)]["id" := Str(id)])
  }

  /** `handleCreateSkill`: a name that trims to nothing changes nothing;
      otherwise the skill titled with the trimmed name is appended to the
      stored list, which fails only when that list cannot be spread. */
  function CreateSkill(data: Fields, createSkill: string, id: string): (r: Option<Fields>)
    ensures !NonBlank(createSkill) ==> r == Some(data)
    ensures NonBlank(createSkill) ==> (r.Some? <==> SpreadOr(Get(data, SKILLS)).Some?)
    ensures NonBlank(createSkill) && r.Some? ==>
      Replaced(r.value, data, SKILLS, SpreadOr(Get(data, SKILLS)).value + [NewSkill(Trim(createSkill), id)])
  {
    var trimmed := Trim(createSkill);
    if trimmed == "" then Some(data)
    else AppendedTo(data, SKILLS, Get(data, SKILLS), NewSkill(trimmed, id))
  }

  /** `handleDelete`: without a selection nothing changes; otherwise the
      stored list, which has no fallback and must be an array, loses
      exactly the skills carrying the selected id. */
  function DeleteSkill(data: Fields, selected: Value): (r: Option<Fields>)
    ensures !Truthy(selected) ==> r == Some(data)
    ensures Truthy(selected) ==>
      (r.Some? <==> Get(data, SKILLS).Arr? && AllPresent(Get(data, SKILLS).elems))
    ensures Truthy(selected) && r.Some? ==>
      Replaced(r.value, data, SKILLS, ListAt(r.value, SKILLS))
      && RemovedList(ListAt(r.value, SKILLS), Get(data, SKILLS).elems, Member(selected, "id"))
  {
    if !Truthy(selected) then Some(data)
    else
      var list := ArrayOf(Get(data, SKILLS));
      if list.None? then None else RemovedIn(data, SKILLS, list.value, Member(selected, "id"))
  }

  /** Deleting a skill just created under an id no other skill carries
      gives back the user data as it was. */
  lemma CreateThenDelete(data: Fields, createSkill: string, id: string)
    requires SKILLS in data && data[SKILLS].Arr? && AllPresent(data[SKILLS].elems)
    requires forall x | x in data[SKILLS].elems :: !StrictEquals(Member(x, "id"), Str(id))
    requires NonBlank(createSkill)
    ensures CreateSkill(data, createSkill, id).Some?
    ensures DeleteSkill(CreateSkill(data, createSkill, id).value, NewSkill(Trim(createSkill), id)) == Some(data)
  {
    var skill := NewSkill(Trim(createSkill), id);
    AppendThenRemove(data, SKILLS, skill, Str(id));
    CreatedSkill(data, createSkill, id);
    DeletedSkill(data[SKILLS := Arr(data[SKILLS].elems + [skill])], skill);
  }

  lemma CreatedSkill(data: Fields, createSkill: string, id: string)
    requires SKILLS in data && data[SKILLS].Arr? && NonBlank(createSkill)
    ensures CreateSkill(data, createSkill, id) == AppendedTo(data, SKILLS, data[SKILLS], NewSkill(Trim(createSkill), id))
  {
  }

  lemma DeletedSkill(data: Fields, skill: Value)
    requires SKILLS in data && data[SKILLS].Arr? && skill.Obj?
    ensures DeleteSkill(data, skill) == RemovedIn(data, SKILLS, data[SKILLS].elems, Member(skill, "id"))
  {
  }

  /** `handlePaste`: `parsed` is `JSON.parse` of the clipboard text, `None`
      when it throws, which the handler catches, leaving the data as it was.
      The list is spread later, inside the state updater and outside the
      `try`, so a stored list that cannot be spread makes the update itself
      throw (`None`). Otherwise the skill, with a fresh id, is appended. */
  function PasteSkill(data: Fields, parsed: Option<Value>, id: string): (r: Option<Fields>)
    ensures parsed.None? ==> r == Some(data)
    ensures parsed.Some? ==> (r.Some? <==> SpreadOr(Get(data, SKILLS)).Some?)
    ensures parsed.Some? && r.Some? ==>
      var list := ListAt(r.value, SKILLS);
      Replaced(r.value, data, SKILLS, list) && |list| == |SpreadOr(Get(data, SKILLS)).value| + 1
      && list[..|list| - 1] == SpreadOr(Get(data, SKILLS)).value
      && MergedInto(list[|list| - 1], parsed.value, map["id" := Str(id)])
  {
    if parsed.None? then Some(data)
    else
      var current := SpreadOr(Get(data, SKILLS));
      var added := AppendedTo(data, SKILLS, Get(data, SKILLS), WithFreshId(parsed.value, id));
      if added.None? then None
      else
        assert (current.value + [WithFreshId(parsed.value, id)])[..|current.value|] == current.value;
        added
  }

  /** `handleInputChange`: the open copy gets the field, and every stored
      skill carrying the selected id gets the same one-field patch. */
  function InputChange(local: Value, selected: Value, data: Fields, name: string, value: string): (r: Change)
    ensures MergedInto(r.local, local, map[name := Str(value)])
    ensures r.data.Some? <==> ArrayOr(Get(data, SKILLS)).Some? && AllPresent(ArrayOr(Get(data, SKILLS)).value)
    ensures r.data.Some? ==>
      Replaced(r.data.value, data, SKILLS, ListAt(r.data.value, SKILLS))
      && UpdatedList(ListAt(r.data.value, SKILLS), ArrayOr(Get(data, SKILLS)).value, SelectedId(selected), map[name := Str(value)])
  {
    Change(EditedLocal(local, name, value), UpdatedIn(data, SKILLS, SelectedId(selected), map[name := Str(value)]))
  }

  /** When the open copy is the selected skill, stored at index `i`, the
      edited copy and the edited stored skill are the same object. */
  lemma InputChangeInSync(skill: Value, data: Fields, name: string, value: string, i: nat)
    requires SKILLS in data && data[SKILLS].Arr? && AllPresent(data[SKILLS].elems)
    requires i < |data[SKILLS].elems| && data[SKILLS].elems[i] == skill
    requires skill.Obj? && !Member(skill, "id").NaN?
    ensures var r := InputChange(skill, skill, data, name, value);
      r.data.Some? && i < |ListAt(r.data.value, SKILLS)| && ListAt(r.data.value, SKILLS)[i] == r.local
  {
    var r := InputChange(skill, skill, data, name, value);
    var list := data[SKILLS].elems;
    assert StrictEquals(Member(list[i], "id"), SelectedId(skill));
    MergedUnique(ListAt(r.data.value, SKILLS)[i], r.local, skill, map[name := Str(value)]);
  }

  /** `uniqueDomains`: exactly the domains of the skills with a non-blank
      domain, each once, in the order of first occurrence; each is
      non-empty, trimmed and free of commas. */
  function UniqueDomains(shown: Value): (r: Option<seq<string>>)
    ensures r.Some? <==> ArrayOr(shown).Some? && forall x | x in ArrayOr(shown).value :: HasList(x, "domain").Some?
    ensures r.Some? ==> NoDuplicates(r.value) && forall c | c in r.value :: c != "" && IsTrimmed(c) && ',' !in c
    ensures r.Some? ==> forall c :: c in r.value <==>
      exists x | x in ArrayOr(shown).value && HasList(x, "domain") == Some(true) :: c in ListOf(x, "domain")
    ensures r.Some? ==>
      var all := AllLists(Listed(ArrayOr(shown).value, "domain").value, "domain");
      (forall c | c in r.value :: c in all)
      && forall i, j | 0 <= i < j < |r.value| :: FirstIndex(all, r.value[i]) < FirstIndex(all, r.value[j])
  {
    UniqueListsSpec(shown, "domain");
    var r := UniqueLists(shown, "domain");
    if r.Some? then
      var list := ArrayOr(shown).value;
      assert r.value == Distinct(AllLists(Listed(list, "domain").value, "domain"));
      r
    else r
  }

  /** The callback of `filteredSkills`: the search match, then
      `skill.domain.split(',')`, which throws unless the domain is a
      string, against the active domains. */
  function SkillShown(skill: Value, searchTerm: string, active: seq<string>, order: KeyOrder): Option<bool>
  {
    var search := MatchesSearch(skill, searchTerm, order);
    var domain := Prop(skill, "domain");
    if search.None? || domain.None? || !domain.value.Str? then None
    else Some(search.value && (active == [] || exists d | d in active :: d in SplitTrimmed(domain.value.s)))
  }

  /** `filteredSkills`; `order` gives each skill's property order. */
  function FilteredSkills(shown: Value, searchTerm: string, active: seq<string>, order: KeyOrder): Option<seq<Value>>
  {
    var list := ArrayOr(shown);
    if list.None? then None
    else TryFilter(list.value, skill => SkillShown(skill, searchTerm, active, order))
  }

  /** The filtered skills are a subsequence of the list, exactly the skills
      the callback accepts; the filter fails exactly when a skill is
      missing, its domain is not a string or its search throws; with an
      empty search and no active domain it keeps every skill. */
  lemma FilteredSkillsSpec(shown: Value, searchTerm: string, active: seq<string>, order: KeyOrder)
    ensures FilteredSkills(shown, searchTerm, active, order).Some? ==>
      ArrayOr(shown).Some?
      && var r := FilteredSkills(shown, searchTerm, active, order).value;
      IsSubseq(r, ArrayOr(shown).value)
      && forall x :: x in r <==> x in ArrayOr(shown).value && SkillShown(x, searchTerm, active, order) == Some(true)
    ensures ArrayOr(shown).Some? ==>
      (FilteredSkills(shown, searchTerm, active, order).Some? <==>
         forall x | x in ArrayOr(shown).value ::
           !IsNullish(x) && Member(x, "domain").Str? && MatchesSearch(x, searchTerm, order).Some?)
    ensures ArrayOr(shown).Some? && searchTerm == "" && active == [] ==>
      var list := ArrayOr(shown).value;
      (FilteredSkills(shown, searchTerm, active, order).Some? <==>
         forall x | x in list :: !IsNullish(x) && Member(x, "domain").Str?)
      && (FilteredSkills(shown, searchTerm, active, order).Some? ==> FilteredSkills(shown, searchTerm, active, order).value == list)
  {
    var list := ArrayOr(shown);
    if list.Some? {
      var keep := skill => SkillShown(skill, searchTerm, active, order);
      if TryFilter(list.value, keep).Some? {
        TryFilterSpec(list.value, keep);
      }
    }
  }
}
