/** The inventory page (src/pages/Page6.jsx): the updaters that add, edit,
    paste and delete items in `itemsArray`, the category and search
    filters, the consumable test and the card snippet. `data` is the user
    data an updater receives; `shown` is the `userData.itemsArray` the
    handler closed over when the page last rendered. */
module Inventory {
  import opened JsText
  import opened JsValues
  import opened Seqs
  import opened RecordLists

  const ITEMS := "itemsArray"
  const NEW_ITEM_TITLE := "Novo item"
  /** The default `max` of `getSnippet`. */
  const SNIPPET_MAX: nat := 90

  // ---------------------------------------------------------------------
  // Updaters

  /** The properties a new item starts with empty. */
  const BLANK_ITEM: Fields := map["content" := Str(""), "type" := Str(""), "image" := Str(""), "quantity" := Str("")]

  lemma BlankItem()
    ensures "id" !in BLANK_ITEM && "title" !in BLANK_ITEM
    ensures forall k | k in BLANK_ITEM :: BLANK_ITEM[k] == Str("")
  {
  }

  /** The item `addItem` appends: the trimmed input or the default title,
      empty content, type, image and quantity, and a fresh id. */
  function NewItem(createItem: string, id: string): (r: Fields)
    ensures r.Keys == BLANK_ITEM.Keys + {"title", "id"}
    ensures r["title"] == Str(if NonBlank(createItem) then Trim(createItem) else NEW_ITEM_TITLE)
    ensures r["id"] == Str(id)
    ensures forall k | k in BLANK_ITEM :: r[k] == Str("")
  {
    var title := Or(Str(Trim(createItem)), Str(NEW_ITEM_TITLE));
    NewItemTitle(createItem);
    NewItemFields(title, id);
    BLANK_ITEM["id" := Str(id)]["title" := title]
  }

  /** `createItem.trim() || 'Novo item'`. */
  lemma NewItemTitle(createItem: string)
    ensures Or(Str(Trim(createItem)), Str(NEW_ITEM_TITLE))
      == Str(if NonBlank(createItem) then Trim(createItem) else NEW_ITEM_TITLE)
  {
  }

  lemma NewItemFields(title: Value, id: string)
    ensures var r := BLANK_ITEM["id" := Str(id)]["title" := title];
      && r.Keys == BLANK_ITEM.Keys + {"title", "id"}
      && r["title"] == title && r["id"] == Str(id)
      && forall k | k in BLANK_ITEM :: r[k] == Str("")
  {
    BlankItem();
  }

  /** `addItem`: the rendered list with one new item at its end. */
  function AddItem(data: Fields, shown: Value, createItem: string, id: string): (r: Option<Fields>)
    ensures r.Some? <==> SpreadOr(shown).Some?
    ensures shown.Arr? ==> r.Some? && Replaced(r.value, data, ITEMS, shown.elems + [Obj(NewItem(createItem, id))])
    ensures !Truthy(shown) ==> r.Some? && Replaced(r.value, data, ITEMS, [Obj(NewItem(createItem, id))])
  {
    AppendedTo(data, ITEMS, shown, Obj(NewItem(createItem, id)))
  }

  /** The updater of `updateItem(itemId, patch)`. */
  function UpdateItem(data: Fields, itemId: Value, patch: Fields): (r: Option<Fields>)
    ensures r.Some? <==> ArrayOr(Get(data, ITEMS)).Some? && AllPresent(ArrayOr(Get(data, ITEMS)).value)
    ensures r.Some? ==>
      Replaced(r.value, data, ITEMS, ListAt(r.value, ITEMS))
      && UpdatedList(ListAt(r.value, ITEMS), ArrayOr(Get(data, ITEMS)).value, itemId, patch)
  {
    UpdatedIn(data, ITEMS, itemId, patch)
  }

  /** `handleInputChange`: with no item open nothing changes; otherwise the
      copy gets the field and the stored list gets the same one-field
      patch, by the copy's id. */
  function InputChange(local: Value, data: Fields, name: string, value: string): (r: Change)
    ensures !Truthy(local) ==> r == Change(local, Some(data))
    ensures Truthy(local) ==>
      MergedInto(r.local, local, map[name := Str(value)])
      && r.data == UpdateItem(data, Member(local, "id"), map[name := Str(value)])
  {
    if !Truthy(local) then Change(local, Some(data))
    else Change(EditedLocal(local, name, value), UpdateItem(data, Member(local, "id"), map[name := Str(value)]))
  }

  /** When the open copy is the stored item at index `i`, the edited copy
      and the edited stored item are the same object. */
  lemma InputChangeInSync(local: Value, data: Fields, name: string, value: string, i: nat)
    requires ITEMS in data && data[ITEMS].Arr? && AllPresent(data[ITEMS].elems)
    requires i < |data[ITEMS].elems| && data[ITEMS].elems[i] == local
    requires local.Obj? && !Member(local, "id").NaN?
    ensures var r := InputChange(local, data, name, value);
      r.data.Some? && i < |ListAt(r.data.value, ITEMS)| && ListAt(r.data.value, ITEMS)[i] == r.local
  {
    var r := InputChange(local, data, name, value);
    var list := data[ITEMS].elems;
    assert StrictEquals(Member(list[i], "id"), Member(local, "id"));
    MergedUnique(ListAt(r.data.value, ITEMS)[i], r.local, local, map[name := Str(value)]);
  }

  /** `deleteItem`: without a selection nothing changes; otherwise the
      rendered list loses exactly the items carrying the selected id. */
  function DeleteItem(data: Fields, shown: Value, selected: Value): (r: Option<Fields>)
    ensures !Truthy(selected) ==> r == Some(data)
    ensures Truthy(selected) ==> (r.Some? <==> ArrayOr(shown).Some? && AllPresent(ArrayOr(shown).value))
    ensures Truthy(selected) && r.Some? ==>
      Replaced(r.value, data, ITEMS, ListAt(r.value, ITEMS))
      && RemovedList(ListAt(r.value, ITEMS), ArrayOr(shown).value, Member(selected, "id"))
  {
    if !Truthy(selected) then Some(data)
    else
      var list := ArrayOr(shown);
      if list.None? then None else RemovedIn(data, ITEMS, list.value, Member(selected, "id"))
  }

  /** `pasteItemCode`: `parsed` is `JSON.parse` of the trimmed clipboard
      text, `None` when it throws. The handler catches every failure, so a
      bad code or a list that cannot be spread leaves the data as it was. */
  function PasteItem(data: Fields, shown: Value, parsed: Option<Value>, id: string): (r: Fields)
    ensures parsed.None? || SpreadOr(shown).None? ==> r == data
    ensures parsed.Some? && SpreadOr(shown).Some? ==>
      var list := ListAt(r, ITEMS);
      Replaced(r, data, ITEMS, list) && |list| == |SpreadOr(shown).value| + 1
      && list[..|list| - 1] == SpreadOr(shown).value
      && MergedInto(list[|list| - 1], parsed.value, map["id" := Str(id)])
  {
    Pasted(data, ITEMS, shown, parsed, id)
  }

  // ---------------------------------------------------------------------
  // Consumables

  const CONSUMABLE_WORDS: set<string> := {"consumivel", "consumiveis"}

  /** `/^\s*(consumivel|consumiveis)\s*$/i.test(s)`: white space, one of the
      two words with its letters in any case, white space. */
  predicate MatchesConsumable(s: string)
  {
    MatchesWordOf(s, IsConsumableWord)
  }

  /** One of the two words, with its letters in any case. */
  predicate IsConsumableWord(w: string)
  {
    ToLower(w) in CONSUMABLE_WORDS
  }

  /** White space, a word `isWord` accepts, white space. */
  predicate MatchesWordOf(s: string, isWord: string -> bool)
  {
    exists i, j | 0 <= i <= j <= |s| :: AllSpace(s[..i]) && AllSpace(s[j..]) && isWord(s[i..j])
  }

  /** `isConsumableType(value)`: the test runs on `String(value || '')`. */
  predicate IsConsumableType(value: Value)
  {
    MatchesConsumable(StringOf(Or(value, Str(""))))
  }

  /** White space is not a letter and `toLowerCase` leaves it alone. */
  lemma SpaceUnchanged(c: char)
    requires IsSpace(c)
    ensures LowerChar(c) == c
  {
  }

  /** The words begin and end with characters that are not white space. */
  lemma WordEnds(w: string)
    requires ToLower(w) in CONSUMABLE_WORDS
    ensures |w| >= 1 && !IsSpace(w[0]) && !IsSpace(w[|w| - 1])
  {
    var lw := ToLower(w);
    assert lw[0] == 'c' && (lw[|lw| - 1] == 'l' || lw[|lw| - 1] == 's');
    if IsSpace(w[0]) {
      SpaceUnchanged(w[0]);
    }
    if IsSpace(w[|w| - 1]) {
      SpaceUnchanged(w[|w| - 1]);
    }
  }

  /** A match is one of the words once trimmed. */
  lemma MatchedIsTrimmedWord(s: string)
    requires MatchesConsumable(s)
    ensures ToLower(Trim(s)) in CONSUMABLE_WORDS
  {
    var i, j :| 0 <= i <= j <= |s| && AllSpace(s[..i]) && AllSpace(s[j..]) && ToLower(s[i..j]) in CONSUMABLE_WORDS;
    WordEnds(s[i..j]);
    TrimBetweenSpaces(s, i, j);
  }

  /** Text whose trimmed form is one of the words matches. */
  lemma TrimmedWordMatches(s: string)
    requires ToLower(Trim(s)) in CONSUMABLE_WORDS
    ensures MatchesConsumable(s)
  {
    TrimmedWordMatchesOf(s, IsConsumableWord);
  }

  lemma {:induction false} TrimmedWordMatchesOf(s: string, isWord: string -> bool)
    requires isWord(Trim(s))
    ensures MatchesWordOf(s, isWord)
  {
    TrimSlice(s);
    MatchesTrimmed(s, isWord);
  }

  /** The trimmed text, between the white space `trim` cuts off, is a word. */
  lemma {:induction false} MatchesTrimmed(s: string, isWord: string -> bool)
    requires var i := |s| - |TrimStart(s)|;
      i + |Trim(s)| <= |s| && s[i..i + |Trim(s)|] == Trim(s)
      && AllSpace(s[..i]) && AllSpace(s[i + |Trim(s)|..])
    requires isWord(Trim(s))
    ensures MatchesWordOf(s, isWord)
  {
    var i := |s| - |TrimStart(s)|;
    MatchesAt(s, i, i + |Trim(s)|, Trim(s), isWord);
  }

  /** A word between white space at `i` and `j` is a match. */
  lemma {:induction false} MatchesAt(s: string, i: nat, j: nat, w: string, isWord: string -> bool)
    requires i <= j <= |s| && AllSpace(s[..i]) && AllSpace(s[j..])
    requires s[i..j] == w && isWord(w)
    ensures MatchesWordOf(s, isWord)
  {
  }

  /** The consumable test is the case-insensitive comparison of the
      trimmed text with the two words. */
  lemma IsConsumableTypeSpec(value: Value)
    ensures IsConsumableType(value) <==> ToLower(Trim(StringOf(Or(value, Str(""))))) in CONSUMABLE_WORDS
  {
    var s := StringOf(Or(value, Str("")));
    if MatchesConsumable(s) {
      MatchedIsTrimmedWord(s);
    }
    if ToLower(Trim(s)) in CONSUMABLE_WORDS {
      TrimmedWordMatches(s);
    }
  }

  // ---------------------------------------------------------------------
  // Categories and filters

  /** The empty text has no categories. */
  lemma NothingSplit()
    ensures SplitTrimmed("") == []
  {
    assert Split("", ',') == [""];
    assert TrimEach([""]) == [""];
  }

  /** `extractCategories(value)`: `None` where `(value || '').split` throws,
      i.e. on a truthy value that is not a string. A falsy value splits as
      `''`, which has no categories (`NothingSplit`). */
  function ExtractCategories(value: Value): (r: Option<seq<string>>)
    ensures r.None? <==> Truthy(value) && !value.Str?
    ensures !Truthy(value) ==> r == Some([])
  {
    if !Truthy(value) then Some([])
    else if value.Str? then Some(SplitTrimmed(value.s))
    else None
  }

  /** The categories of a type are its comma-separated pieces, trimmed, the
      empty ones dropped: each is non-empty, trimmed and free of commas. */
  lemma ExtractCategoriesSpec(kind: string)
    requires kind != ""
    ensures ExtractCategories(Str(kind)).Some?
    ensures forall c | c in ExtractCategories(Str(kind)).value :: c != "" && IsTrimmed(c) && ',' !in c
    ensures forall c :: c in ExtractCategories(Str(kind)).value <==>
      c != "" && exists p | p in Split(kind, ',') :: Trim(p) == c
  {
    SplitTrimmedShape(kind);
    TrimEachSpec(Split(kind, ','));
  }

  /** `normalizedSearch === '' || Object.values(item).some((value) =>
      String(value ?? '').toLowerCase().includes(normalizedSearch))`. */
  function ItemMatchesSearch(item: Value, term: string): Option<bool>
  {
    if term == "" then Some(true)
    else if IsNullish(item) then None
    else Some(exists v | v in OwnEntries(item).Values :: Contains(ToLower(StringOf(Coalesce(v, Str("")))), term))
  }

  /** The callback of `filteredItems`: the search match, then
      `extractCategories(item.type)` against the active categories. */
  function ItemShown(item: Value, term: string, active: seq<string>): Option<bool>
  {
    var search := ItemMatchesSearch(item, term);
    var kind := Prop(item, "type");
    if search.None? || kind.None? then None
    else
      var categories := ExtractCategories(kind.value);
      if categories.None? then None
      else Some(search.value && (active == [] || exists c | c in active :: c in categories.value))
  }

  /** `filteredItems`. */
  function FilteredItems(shown: Value, searchTerm: string, active: seq<string>): Option<seq<Value>>
  {
    var list := ArrayOr(shown);
    if list.None? then None
    else TryFilter(list.value, item => ItemShown(item, ToLower(Trim(searchTerm)), active))
  }

  /** The filtered items are a subsequence of the list, exactly the items
      the callback accepts; with a blank search and no active category the
      filter keeps every item, and it fails only on a missing item or a
      truthy non-string type. */
  lemma FilteredItemsSpec(shown: Value, searchTerm: string, active: seq<string>)
    ensures FilteredItems(shown, searchTerm, active).Some? ==>
      ArrayOr(shown).Some?
      && var r := FilteredItems(shown, searchTerm, active).value;
      IsSubseq(r, ArrayOr(shown).value)
      && forall x :: x in r <==> x in ArrayOr(shown).value && ItemShown(x, ToLower(Trim(searchTerm)), active) == Some(true)
    ensures ArrayOr(shown).Some? && !NonBlank(searchTerm) && active == [] ==>
      var list := ArrayOr(shown).value;
      (FilteredItems(shown, searchTerm, active).Some? <==>
         forall x | x in list :: !IsNullish(x) && (!Truthy(Member(x, "type")) || Member(x, "type").Str?))
      && (FilteredItems(shown, searchTerm, active).Some? ==> FilteredItems(shown, searchTerm, active).value == list)
  {
    var term := ToLower(Trim(searchTerm));
    var list := ArrayOr(shown);
    if list.Some? {
      var keep := item => ItemShown(item, term, active);
      if TryFilter(list.value, keep).Some? {
        TryFilterSpec(list.value, keep);
      }
    }
  }

  /** `uniqueCategories`: exactly the categories of the items with a
      non-blank type, each once, in the order of first occurrence; each is
      non-empty, trimmed and free of commas. */
  function UniqueCategories(shown: Value): (r: Option<seq<string>>)
    ensures r.Some? <==> ArrayOr(shown).Some? && forall x | x in ArrayOr(shown).value :: HasList(x, "type").Some?
    ensures r.Some? ==> NoDuplicates(r.value) && forall c | c in r.value :: c != "" && IsTrimmed(c) && ',' !in c
    ensures r.Some? ==> forall c :: c in r.value <==>
      exists x | x in ArrayOr(shown).value && HasList(x, "type") == Some(true) :: c in ListOf(x, "type")
    ensures r.Some? ==>
      var all := AllLists(Listed(ArrayOr(shown).value, "type").value, "type");
      (forall c | c in r.value :: c in all)
      && forall i, j | 0 <= i < j < |r.value| :: FirstIndex(all, r.value[i]) < FirstIndex(all, r.value[j])
  {
    UniqueListsSpec(shown, "type");
    var r := UniqueLists(shown, "type");
    if r.Some? then
      var list := ArrayOr(shown).value;
      assert r.value == Distinct(AllLists(Listed(list, "type").value, "type"));
      r
    else r
  }

  // ---------------------------------------------------------------------
  // Card snippet

  /** `getSnippet(text, max)` for a string `text`: empty text gives "",
      text that fits is kept, longer text is cut to its first `max`
      characters, trimmed, and marked with "...". */
  function TextSnippet(text: string, max: nat): (r: string)
    ensures |r| <= max + 3
    ensures text == "" ==> r == ""
    ensures |text| <= max ==> r == text
    ensures |text| > max ==> r == Trim(text[..max]) + "..."
    ensures |text| > max ==>
      |r| >= 3 && r[|r| - 3..] == "..." && IsTrimmed(r[..|r| - 3])
      && Contains(text[..max], r[..|r| - 3])
  {
    if text == "" then ""
    else if |text| <= max then text
    else
      var head := text[..max];
      TrimIsTrimmed(head);
      TrimSlice(head);
      var r := Trim(head) + "...";
      assert r[..|r| - 3] == Trim(head);
      assert OccursAt(head, Trim(head), |head| - |TrimStart(head)|);
      r
  }

  /** `text.length <= max` for a truthy value that is not a string: an
      array compares its length; an object its own `length` property,
      converted by `Number`; anything else has no `length`, and
      `undefined <= max` is false. */
  predicate LengthAtMost(text: Value, max: nat)
  {
    match text
    case Arr(es) => |es| <= max
    case Obj(f) => var n := ToNumber(Get(f, "length")); n.Some? && n.value <= max
    case _ => false
  }

  /** `getSnippet(item.content)` on whatever a pasted item holds. A falsy
      value gives "". A string is cut as TextSnippet says. Any other value
      whose `length` fits comes back unchanged. Otherwise `text.slice(0,
      max).trim()` names a method that a number, a boolean, an array's
      slice or a parsed object does not have, and the call throws
      (`None`). */
  function GetSnippet(text: Value, max: nat): (r: Option<Value>)
    ensures !Truthy(text) ==> r == Some(Str(""))
    ensures text.Str? ==> r == Some(Str(TextSnippet(text.s, max)))
    ensures r.None? <==> Truthy(text) && !text.Str? && !LengthAtMost(text, max)
    ensures Truthy(text) && !text.Str? && LengthAtMost(text, max) ==> r == Some(text)
  {
    if !Truthy(text) then Some(Str(""))
    else if text.Str? then Some(Str(TextSnippet(text.s, max)))
    else if LengthAtMost(text, max) then Some(text)
    else None
  }
}
