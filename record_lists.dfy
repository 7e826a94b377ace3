/** The list operations the inventory, skills and annotations pages
    (src/pages/Page4.jsx, Page5.jsx, Page6.jsx) run inside their state
    updaters: appending to a possibly missing array, `filter` and `map`
    whose callbacks read `item.id` or call string methods, and the
    comma-separated category lists. A callback that throws a `TypeError`
    (a property read on `null` or `undefined`, a method the value lacks)
    makes the whole operation fail; `None` stands for that. */
module RecordLists {
  import opened JsText
  import opened JsValues
  import opened Seqs

  /** `v.key`: `None` where reading it throws, i.e. on `null` and `undefined`. */
  function Prop(v: Value, key: string): (r: Option<Value>)
    ensures r.None? <==> IsNullish(v)
  {
    if IsNullish(v) then None else Some(Member(v, key))
  }

  /** The elements `[...(v || [])]` spreads: a string spreads into its
      characters, anything else that is not an array throws. */
  function SpreadOr(v: Value): Option<seq<Value>>
  {
    if !Truthy(v) then Some([])
    else match v
      case Arr(es) => Some(es)
      case Str(s) => Some(seq(|s|, i requires 0 <= i < |s| => Str([s[i]])))
      case _ => None
  }

  /** The receiver of `(v || []).map(...)`: only arrays have the method. */
  function ArrayOr(v: Value): Option<seq<Value>>
  {
    if !Truthy(v) then Some([]) else if v.Arr? then Some(v.elems) else None
  }

  /** The receiver of `v.filter(...)` with no fallback. */
  function ArrayOf(v: Value): Option<seq<Value>>
  {
    if v.Arr? then Some(v.elems) else None
  }

  /** `{ ...data, [key]: list }`: the property `key` holds the new list and
      every other property is kept. */
  predicate Replaced(r: Fields, data: Fields, key: string, list: seq<Value>)
  {
    key in r && r[key] == Arr(list) && r.Keys == data.Keys + {key}
    && forall k | k in data && k != key :: k in r && r[k] == data[k]
  }

  /** The array a result holds under `key`. */
  function ListAt(r: Fields, key: string): seq<Value>
  {
    if key in r && r[key].Arr? then r[key].elems else []
  }

  /** `{ ...data, [key]: Arr(list) }` when the new list exists. */
  function WithList(data: Fields, key: string, list: Option<seq<Value>>): (r: Option<Fields>)
    ensures r.Some? <==> list.Some?
    ensures r.Some? ==> Replaced(r.value, data, key, list.value) && ListAt(r.value, key) == list.value
  {
    if list.Some? then Some(data[key := Arr(list.value)]) else None
  }

  /** `{ ...data, [key]: [...(current || []), item] }`. */
  function AppendedTo(data: Fields, key: string, current: Value, item: Value): (r: Option<Fields>)
    ensures r.Some? <==> SpreadOr(current).Some?
    ensures r.Some? ==> Replaced(r.value, data, key, SpreadOr(current).value + [item])
    ensures current.Arr? ==> r.Some? && Replaced(r.value, data, key, current.elems + [item])
    ensures !Truthy(current) ==> r.Some? && Replaced(r.value, data, key, [item])
  {
    var list := SpreadOr(current);
    if list.None? then None else WithList(data, key, Some(list.value + [item]))
  }

  /** `{ ...item, ...patch }` as a property-by-property statement: the
      result has the properties of both, the patch winning. */
  predicate MergedInto(r: Value, item: Value, patch: Fields)
  {
    r.Obj? && r.fields.Keys == OwnEntries(item).Keys + patch.Keys
    && (forall k | k in patch :: r.fields[k] == patch[k])
    && (forall k | k in OwnEntries(item) && k !in patch :: r.fields[k] == OwnEntries(item)[k])
  }

  /** Two results of the same merge are the same object. */
  lemma MergedUnique(a: Value, b: Value, item: Value, patch: Fields)
    requires MergedInto(a, item, patch) && MergedInto(b, item, patch)
    ensures a == b
  {
    assert a.fields == b.fields;
  }

  /** `{ ...item, id: uuidv4() }`: a pasted record with a fresh id. */
  function WithFreshId(item: Value, id: string): (r: Value)
    ensures MergedInto(r, item, map["id" := Str(id)])
    ensures Member(r, "id") == Str(id)
  {
    Obj(OwnEntries(item)["id" := Str(id)])
  }

  /** A paste whose list spread runs inside the handler's `try`: `parsed`
      is `JSON.parse` of the clipboard text, `None` when it throws, and the
      result of `{ ...data, [key]: [...(current || []), { ...parsed, id }] }`
      is kept only when nothing throws, since the handler catches every
      failure. */
  function Pasted(data: Fields, key: string, current: Value, parsed: Option<Value>, id: string): (r: Fields)
    ensures parsed.None? || SpreadOr(current).None? ==> r == data
    ensures parsed.Some? && SpreadOr(current).Some? ==>
      var list := ListAt(r, key);
      Replaced(r, data, key, list) && |list| == |SpreadOr(current).value| + 1
      && list[..|list| - 1] == SpreadOr(current).value
      && MergedInto(list[|list| - 1], parsed.value, map["id" := Str(id)])
  {
    if parsed.None? then data
    else
      var added := AppendedTo(data, key, current, WithFreshId(parsed.value, id));
      if added.None? then data
      else
        assert (SpreadOr(current).value + [WithFreshId(parsed.value, id)])[..|SpreadOr(current).value|] == SpreadOr(current).value;
        added.value
  }

  /** `setLocalItem((prev) => ({ ...prev, [name]: value }))`. */
  function EditedLocal(local: Value, name: string, value: string): (r: Value)
    ensures MergedInto(r, local, map[name := Str(value)])
  {
    Obj(OwnEntries(local)[name := Str(value)])
  }

  /** `selected?.id`. */
  function SelectedId(selected: Value): (r: Value)
    ensures IsNullish(selected) ==> r == Undefined
    ensures selected.Obj? ==> r == Get(selected.fields, "id")
  {
    if IsNullish(selected) then Undefined else Member(selected, "id")
  }

  // ---------------------------------------------------------------------
  // filter and map with callbacks that may throw

  /** `list.filter(keep)` where `keep(x)` is `None` when the callback throws. */
  function TryFilter(list: seq<Value>, keep: Value -> Option<bool>): (r: Option<seq<Value>>)
    ensures r.Some? <==> forall x | x in list :: keep(x).Some?
    ensures r.Some? ==> r.value == Filter(list, x => keep(x) == Some(true))
  {
    if list == [] then Some([])
    else
      var rest := TryFilter(list[1..], keep);
      assert forall x | x in list[1..] :: x in list;
      if keep(list[0]).None? || rest.None? then None
      else if keep(list[0]).value then Some([list[0]] + rest.value)
      else rest
  }

  /** A successful filter keeps a subsequence, exactly the elements the
      callback accepts, and everything when it accepts everything. */
  lemma TryFilterSpec(list: seq<Value>, keep: Value -> Option<bool>)
    requires TryFilter(list, keep).Some?
    ensures var r := TryFilter(list, keep).value;
      IsSubseq(r, list)
      && (forall x :: x in r <==> x in list && keep(x) == Some(true))
      && ((forall x | x in list :: keep(x) == Some(true)) ==> r == list)
  {
    FilterIsSubseq(list, x => keep(x) == Some(true));
    if forall x | x in list :: keep(x) == Some(true) {
      FilterAll(list, x => keep(x) == Some(true));
    }
  }

  /** `list.map(f)` where `f(x)` is `None` when the callback throws. */
  function TryMap(list: seq<Value>, f: Value -> Option<Value>): (r: Option<seq<Value>>)
    ensures r.Some? <==> forall i | 0 <= i < |list| :: f(list[i]).Some?
    ensures r.Some? ==> |r.value| == |list| && forall i | 0 <= i < |list| :: r.value[i] == f(list[i]).value
  {
    if list == [] then Some([])
    else
      var rest := TryMap(list[1..], f);
      if f(list[0]).None? || rest.None? then None
      else Some([f(list[0]).value] + rest.value)
  }

  // ---------------------------------------------------------------------
  // Selecting by id

  /** `item.id === id`. */
  function SameId(item: Value, id: Value): Option<bool>
  {
    var own := Prop(item, "id");
    if own.None? then None else Some(StrictEquals(own.value, id))
  }

  /** No element is `null` or `undefined`: the lists the pages build. */
  predicate AllPresent(list: seq<Value>)
  {
    forall x | x in list :: !IsNullish(x)
  }

  /** `list.filter((item) => item.id !== id)`. */
  function RemovedById(list: seq<Value>, id: Value): Option<seq<Value>>
  {
    TryFilter(list, item => var same := SameId(item, id); if same.None? then None else Some(!same.value))
  }

  /** `r` is `list` without exactly the elements whose id is `id`, the
      others kept in order. */
  ghost predicate RemovedList(r: seq<Value>, list: seq<Value>, id: Value)
  {
    IsSubseq(r, list)
    && (forall x :: x in r <==> x in list && !StrictEquals(Member(x, "id"), id))
    && ((forall x | x in list :: !StrictEquals(Member(x, "id"), id)) ==> r == list)
  }

  /** Deleting by id succeeds on a list of present elements, keeps the
      others in order and removes exactly those carrying the id; with no
      such element it changes nothing. */
  lemma RemovedByIdSpec(list: seq<Value>, id: Value)
    ensures RemovedById(list, id).Some? <==> AllPresent(list)
    ensures AllPresent(list) ==> RemovedList(RemovedById(list, id).value, list, id)
  {
    var keep := item => var same := SameId(item, id); if same.None? then None else Some(!same.value);
    if AllPresent(list) {
      TryFilterSpec(list, keep);
    }
  }

  /** The updated element: `{ ...item, ...patch }` for a match. */
  function Patched(item: Value, id: Value, patch: Fields): Option<Value>
  {
    var same := SameId(item, id);
    if same.None? then None
    else if same.value then Some(Obj(OwnEntries(item) + patch))
    else Some(item)
  }

  /** `list.map((item) => item.id === id ? { ...item, ...patch } : item)`. */
  function UpdatedById(list: seq<Value>, id: Value, patch: Fields): Option<seq<Value>>
  {
    TryMap(list, item => Patched(item, id, patch))
  }

  /** `r` is `list` with `patch` merged into exactly the elements whose id
      is `id`: same length and order, the others untouched. */
  predicate UpdatedList(r: seq<Value>, list: seq<Value>, id: Value, patch: Fields)
  {
    |r| == |list|
    && (forall i | 0 <= i < |list| && StrictEquals(Member(list[i], "id"), id) :: MergedInto(r[i], list[i], patch))
    && (forall i | 0 <= i < |list| && !StrictEquals(Member(list[i], "id"), id) :: r[i] == list[i])
  }

  /** Updating by id succeeds on a list of present elements and merges the
      patch into exactly the elements carrying the id. */
  lemma UpdatedByIdSpec(list: seq<Value>, id: Value, patch: Fields)
    ensures UpdatedById(list, id, patch).Some? <==> AllPresent(list)
    ensures AllPresent(list) ==> UpdatedList(UpdatedById(list, id, patch).value, list, id, patch)
  {
    if AllPresent(list) {
      forall i | 0 <= i < |list|
        ensures Patched(list[i], id, patch).Some?
        ensures StrictEquals(Member(list[i], "id"), id) ==> MergedInto(Patched(list[i], id, patch).value, list[i], patch)
        ensures !StrictEquals(Member(list[i], "id"), id) ==> Patched(list[i], id, patch).value == list[i]
      {
        assert list[i] in list;
        PatchedSpec(list[i], id, patch);
      }
    } else {
      var x :| x in list && IsNullish(x);
      var i :| 0 <= i < |list| && list[i] == x;
      assert Patched(list[i], id, patch).None?;
    }
  }

  /** A present element gets the patch exactly when it carries the id. */
  lemma PatchedSpec(item: Value, id: Value, patch: Fields)
    requires !IsNullish(item)
    ensures Patched(item, id, patch).Some?
    ensures StrictEquals(Member(item, "id"), id) ==> MergedInto(Patched(item, id, patch).value, item, patch)
    ensures !StrictEquals(Member(item, "id"), id) ==> Patched(item, id, patch).value == item
  {
  }

  /** `{ ...data, [key]: (data[key] || []).map((item) => item.id === id ?
      { ...item, ...patch } : item) }`: the edit updaters of the pages. */
  function UpdatedIn(data: Fields, key: string, id: Value, patch: Fields): (r: Option<Fields>)
    ensures r.Some? <==> ArrayOr(Get(data, key)).Some? && AllPresent(ArrayOr(Get(data, key)).value)
    ensures r.Some? ==>
      Replaced(r.value, data, key, ListAt(r.value, key))
      && UpdatedList(ListAt(r.value, key), ArrayOr(Get(data, key)).value, id, patch)
  {
    var list := ArrayOr(Get(data, key));
    if list.None? then None
    else
      UpdatedByIdSpec(list.value, id, patch);
      WithList(data, key, UpdatedById(list.value, id, patch))
  }

  /** `{ ...data, [key]: list.filter((item) => item.id !== id) }`: the
      delete updaters of the pages. */
  function RemovedIn(data: Fields, key: string, list: seq<Value>, id: Value): (r: Option<Fields>)
    ensures r.Some? <==> AllPresent(list)
    ensures r.Some? ==> Replaced(r.value, data, key, ListAt(r.value, key)) && RemovedList(ListAt(r.value, key), list, id)
  {
    RemovedByIdSpec(list, id);
    WithList(data, key, RemovedById(list, id))
  }

  /** A filter that keeps every element of `list` and drops `item` gives
      back `list` from `list + [item]`. */
  lemma {:induction false} TryFilterDropLast(list: seq<Value>, item: Value, keep: Value -> Option<bool>)
    requires forall x | x in list :: keep(x) == Some(true)
    requires keep(item) == Some(false)
    ensures TryFilter(list + [item], keep) == Some(list)
  {
    if list != [] {
      assert (list + [item])[1..] == list[1..] + [item];
      assert forall x | x in list[1..] :: x in list;
      TryFilterDropLast(list[1..], item, keep);
      assert [list[0]] + list[1..] == list;
    }
  }

  /** Removing by id an element just appended, whose id no other element
      carries, gives back the list it was appended to. */
  lemma RemoveAppended(list: seq<Value>, item: Value, id: Value)
    requires AllPresent(list) && !IsNullish(item)
    requires StrictEquals(Member(item, "id"), id)
    requires forall x | x in list :: !StrictEquals(Member(x, "id"), id)
    ensures RemovedById(list + [item], id) == Some(list)
  {
    TryFilterDropLast(list, item, item => var same := SameId(item, id); if same.None? then None else Some(!same.value));
  }

  /** Removing by its id an item just appended to a stored list, whose id
      no other element carries, gives back the data as it was. */
  lemma AppendThenRemove(data: Fields, key: string, item: Value, id: Value)
    requires key in data && data[key].Arr? && AllPresent(data[key].elems)
    requires !IsNullish(item) && StrictEquals(Member(item, "id"), id)
    requires forall x | x in data[key].elems :: !StrictEquals(Member(x, "id"), id)
    ensures AppendedTo(data, key, data[key], item) == Some(data[key := Arr(data[key].elems + [item])])
    ensures RemovedIn(data[key := Arr(data[key].elems + [item])], key, data[key].elems + [item], id) == Some(data)
  {
    var list := data[key].elems;
    RemoveAppended(list, item, id);
    assert data[key := Arr(list + [item])][key := Arr(list)] == data;
  }

  /** The open record's copy and the user data after an input event. */
  datatype Change = Change(local: Value, data: Option<Fields>)

  /** A patch without an `id` leaves every element's id as it was, so
      applying it a second time changes the same elements again, to the
      same result. */
  lemma UpdatedByIdTwice(list: seq<Value>, id: Value, patch: Fields)
    requires AllPresent(list) && "id" !in patch
    ensures UpdatedById(list, id, patch).Some?
    ensures var once := UpdatedById(list, id, patch).value;
      (forall i | 0 <= i < |list| :: Member(once[i], "id") == Member(list[i], "id"))
      && AllPresent(once)
      && UpdatedById(once, id, patch) == Some(once)
  {
    UpdatedByIdSpec(list, id, patch);
    var once := UpdatedById(list, id, patch).value;
    UpdatedKeepsIds(once, list, id, patch);
    UpdatedByIdSpec(once, id, patch);
    var twice := UpdatedById(once, id, patch).value;
    UpdatedAgainSame(twice, once, id, patch);
  }

  /** A patch without `id` keeps every element's id, and every element
      present. */
  lemma UpdatedKeepsIds(once: seq<Value>, list: seq<Value>, id: Value, patch: Fields)
    requires AllPresent(list) && "id" !in patch && UpdatedList(once, list, id, patch)
    ensures forall i | 0 <= i < |list| :: Member(once[i], "id") == Member(list[i], "id")
    ensures AllPresent(once)
  {
    forall i | 0 <= i < |list|
      ensures Member(once[i], "id") == Member(list[i], "id") && !IsNullish(once[i])
    {
      assert list[i] in list;
      if StrictEquals(Member(list[i], "id"), id) {
        NamedEntry(list[i], "id");
      }
    }
  }

  /** Merging the patch again into elements that already hold it changes
      nothing. */
  lemma UpdatedAgainSame(twice: seq<Value>, once: seq<Value>, id: Value, patch: Fields)
    requires UpdatedList(twice, once, id, patch)
    requires forall i | 0 <= i < |once| && StrictEquals(Member(once[i], "id"), id) ::
      once[i].Obj? && forall k | k in patch :: k in once[i].fields && once[i].fields[k] == patch[k]
    ensures twice == once
  {
    forall i | 0 <= i < |once|
      ensures twice[i] == once[i]
    {
      if StrictEquals(Member(once[i], "id"), id) {
        assert once[i].Obj? && OwnEntries(once[i]) == once[i].fields;
        assert twice[i].fields == once[i].fields;
      }
    }
  }

  // ---------------------------------------------------------------------
  // Comma-separated categories and domains

  /** Each piece of a list, trimmed. */
  function TrimEach(parts: seq<string>): (r: seq<string>)
    ensures |r| == |parts| && forall i | 0 <= i < |parts| :: r[i] == Trim(parts[i])
  {
    seq(|parts|, i requires 0 <= i < |parts| => Trim(parts[i]))
  }

  /** Trimmed pieces of comma-free pieces are trimmed and comma-free. */
  lemma TrimEachSpec(parts: seq<string>)
    requires forall p | p in parts :: ',' !in p
    ensures forall c | c in TrimEach(parts) :: IsTrimmed(c) && ',' !in c
    ensures forall c :: c in TrimEach(parts) <==> exists p | p in parts :: Trim(p) == c
  {
    var trimmed := TrimEach(parts);
    forall c | c in trimmed
      ensures IsTrimmed(c) && ',' !in c && exists p | p in parts :: Trim(p) == c
    {
      var i :| 0 <= i < |parts| && trimmed[i] == c;
      assert parts[i] in parts;
      TrimIsTrimmed(parts[i]);
      TrimSubstring(parts[i]);
    }
    forall c | (exists p | p in parts :: Trim(p) == c)
      ensures c in trimmed
    {
      var p :| p in parts && Trim(p) == c;
      var i :| 0 <= i < |parts| && parts[i] == p;
      assert trimmed[i] == c;
    }
  }

  predicate NonEmpty(c: string)
  {
    c != ""
  }

  /** `s.split(',').map((p) => p.trim()).filter((p) => p !== '')`. */
  function SplitTrimmed(s: string): (r: seq<string>)
    ensures forall c :: c in r <==> c != "" && c in TrimEach(Split(s, ','))
  {
    Filter(TrimEach(Split(s, ',')), NonEmpty)
  }

  /** Every category is non-empty, trimmed and free of commas. */
  lemma SplitTrimmedShape(s: string)
    ensures forall c | c in SplitTrimmed(s) :: c != "" && IsTrimmed(c) && ',' !in c
  {
    var t := TrimEach(Split(s, ','));
    TrimEachSpec(Split(s, ','));
    forall c | c in SplitTrimmed(s)
      ensures c != "" && IsTrimmed(c) && ',' !in c
    {
      assert c in t && NonEmpty(c);
    }
  }

  /** `trim` only removes characters. */
  lemma TrimSubstring(s: string)
    ensures forall c | c in Trim(s) :: c in s
  {
    var t := TrimStart(s);
    forall c | c in Trim(s)
      ensures c in s
    {
      var i :| 0 <= i < |Trim(s)| && Trim(s)[i] == c;
      assert c == t[i];
      assert c == s[|s| - |t| + i];
    }
  }

  // ---------------------------------------------------------------------
  // Search

  /** A value the search callback accepts: present, and containing the
      term once rendered and lower-cased. */
  predicate Hit(v: Value, term: string)
  {
    !IsNullish(v) && Contains(ToLower(StringOf(v)), term)
  }

  /** Some value is a hit and no `null` or `undefined` comes before it. */
  predicate HitReached(values: seq<Value>, term: string)
  {
    exists j | 0 <= j < |values| :: Hit(values[j], term) && forall i | 0 <= i < j :: !IsNullish(values[i])
  }

  /** Some value is `null` or `undefined` and no hit comes before it. */
  predicate NullishReached(values: seq<Value>, term: string)
  {
    exists j | 0 <= j < |values| :: IsNullish(values[j]) && forall i | 0 <= i < j :: !Hit(values[i], term)
  }

  /** `values.some((v) => v.toString().toLowerCase().includes(term))`,
      stopping at the first hit: `None` when a `null` or `undefined`
      value is reached first. */
  function SomeIncludes(values: seq<Value>, term: string): (r: Option<bool>)
    ensures r == Some(true) ==> exists v | v in values :: Hit(v, term)
    ensures (forall v | v in values :: !IsNullish(v)) ==> r.Some?
  {
    if values == [] then Some(false)
    else if IsNullish(values[0]) then None
    else if Contains(ToLower(StringOf(values[0])), term) then Some(true)
    else
      assert forall v | v in values[1..] :: v in values;
      SomeIncludes(values[1..], term)
  }

  /** The search succeeds exactly when a hit comes before any missing
      value, throws exactly when a missing value comes before any hit, and
      finds nothing exactly when every value is present and none is a hit. */
  lemma SomeIncludesSpec(values: seq<Value>, term: string)
    ensures SomeIncludes(values, term) == Some(true) <==> HitReached(values, term)
    ensures SomeIncludes(values, term).None? <==> NullishReached(values, term)
    ensures SomeIncludes(values, term) == Some(false) <==> forall v | v in values :: !IsNullish(v) && !Hit(v, term)
  {
    SomeIncludesHit(values, term);
    SomeIncludesThrows(values, term);
  }

  lemma {:induction false} SomeIncludesHit(values: seq<Value>, term: string)
    ensures SomeIncludes(values, term) == Some(true) <==> HitReached(values, term)
  {
    if values == [] {
    } else if IsNullish(values[0]) {
    } else if Hit(values[0], term) {
      assert HitReached(values, term);
    } else {
      SomeIncludesHit(values[1..], term);
      HitReachedTail(values, term);
    }
  }

  lemma {:induction false} SomeIncludesThrows(values: seq<Value>, term: string)
    ensures SomeIncludes(values, term).None? <==> NullishReached(values, term)
  {
    if values == [] {
    } else if IsNullish(values[0]) {
      assert NullishReached(values, term);
    } else if Hit(values[0], term) {
    } else {
      SomeIncludesThrows(values[1..], term);
      NullishReachedTail(values, term);
    }
  }

  /** Past a present value that is not a hit, a hit is reached exactly when
      it is reached in the rest. */
  lemma HitReachedTail(values: seq<Value>, term: string)
    requires values != [] && !IsNullish(values[0]) && !Hit(values[0], term)
    ensures HitReached(values, term) <==> HitReached(values[1..], term)
  {
    var rest := values[1..];
    if HitReached(rest, term) {
      var j :| 0 <= j < |rest| && Hit(rest[j], term) && forall i | 0 <= i < j :: !IsNullish(rest[i]);
      assert values[j + 1] == rest[j];
      assert forall i | 1 <= i < j + 1 :: values[i] == rest[i - 1];
    }
    if HitReached(values, term) {
      var j :| 0 <= j < |values| && Hit(values[j], term) && forall i | 0 <= i < j :: !IsNullish(values[i]);
      assert rest[j - 1] == values[j];
      assert forall i | 0 <= i < j - 1 :: rest[i] == values[i + 1];
    }
  }

  /** Past a present value that is not a hit, a missing value is reached
      exactly when it is reached in the rest. */
  lemma NullishReachedTail(values: seq<Value>, term: string)
    requires values != [] && !IsNullish(values[0]) && !Hit(values[0], term)
    ensures NullishReached(values, term) <==> NullishReached(values[1..], term)
  {
    var rest := values[1..];
    if NullishReached(rest, term) {
      var j :| 0 <= j < |rest| && IsNullish(rest[j]) && forall i | 0 <= i < j :: !Hit(rest[i], term);
      assert values[j + 1] == rest[j];
      assert forall i | 1 <= i < j + 1 :: values[i] == rest[i - 1];
    }
    if NullishReached(values, term) {
      var j :| 0 <= j < |values| && IsNullish(values[j]) && forall i | 0 <= i < j :: !Hit(values[i], term);
      assert rest[j - 1] == values[j];
      assert forall i | 0 <= i < j - 1 :: rest[i] == values[i + 1];
    }
  }

  /** The order in which `Object.values` lists an object's properties,
      given the object: JavaScript's insertion order, which the model does
      not record. */
  type KeyOrder = Fields -> seq<string>

  /** `Object.values(item)`, in the order `order` gives: `None` on `null`
      and `undefined`. */
  function ValuesOf(item: Value, order: KeyOrder): Option<seq<Value>>
  {
    if IsNullish(item) then None else Some(ValuesInOrder(OwnEntries(item), order(OwnEntries(item))))
  }

  /** `search === '' || Object.values(item).some((v) =>
      v.toString().toLowerCase().includes(search.toLowerCase()))`. */
  function MatchesSearch(item: Value, search: string, order: KeyOrder): (r: Option<bool>)
    ensures search == "" ==> r == Some(true)
    ensures search != "" && IsNullish(item) ==> r.None?
    ensures r.None? ==> IsNullish(item) || exists v | v in OwnEntries(item).Values :: IsNullish(v)
    ensures search != "" && r == Some(true) ==> exists v | v in OwnEntries(item).Values :: Hit(v, ToLower(search))
  {
    if search == "" then Some(true)
    else
      var vs := ValuesOf(item, order);
      if vs.None? then None else SomeIncludes(vs.value, ToLower(search))
  }

  /** For a present item and a non-empty search: the item matches exactly
      when, in property order, a value containing the search comes before
      any `null` or `undefined` value, and the search throws exactly when
      such a value comes first. When the order names every property, the
      item fails to match without throwing exactly when every value is
      present and none contains the search. */
  lemma MatchesSearchSpec(item: Value, search: string, order: KeyOrder)
    requires !IsNullish(item) && search != ""
    ensures var vs := ValuesInOrder(OwnEntries(item), order(OwnEntries(item)));
      (MatchesSearch(item, search, order) == Some(true) <==> HitReached(vs, ToLower(search)))
      && (MatchesSearch(item, search, order).None? <==> NullishReached(vs, ToLower(search)))
    ensures (forall k | k in OwnEntries(item) :: k in order(OwnEntries(item))) ==>
      (MatchesSearch(item, search, order) == Some(false) <==>
         forall v | v in OwnEntries(item).Values :: !IsNullish(v) && !Hit(v, ToLower(search)))
  {
    var f := OwnEntries(item);
    var vs := ValuesInOrder(f, order(f));
    SomeIncludesSpec(vs, ToLower(search));
    if forall k | k in f :: k in order(f) {
      ValuesInOrderComplete(f, order(f));
    }
  }

  // ---------------------------------------------------------------------
  // The distinct entries of a comma-separated property

  /** `item.key && item.key.trim() !== ''`: `None` where it throws, on a
      missing item and on a truthy value that has no `trim`. */
  function HasList(item: Value, key: string): (r: Option<bool>)
    ensures r.None? <==> IsNullish(item) || (Truthy(Member(item, key)) && !Member(item, key).Str?)
    ensures r == Some(true) <==> !IsNullish(item) && Member(item, key).Str? && NonBlank(Member(item, key).s)
  {
    var v := Prop(item, key);
    if v.None? then None
    else if !Truthy(v.value) then Some(false)
    else if v.value.Str? then Some(NonBlank(v.value.s))
    else None
  }

  /** The pieces of `item.key` for an item that `HasList` keeps. */
  function ListOf(item: Value, key: string): seq<string>
  {
    var v := Member(item, key);
    if v.Str? then SplitTrimmed(v.s) else []
  }

  /** `list.filter((item) => item.key && item.key.trim() !== '')`. */
  function Listed(list: seq<Value>, key: string): Option<seq<Value>>
  {
    TryFilter(list, x => HasList(x, key))
  }

  /** `.flatMap((item) => pieces of item.key)`. */
  function AllLists(list: seq<Value>, key: string): (r: seq<string>)
    ensures forall c :: c in r <==> exists x | x in list :: c in ListOf(x, key)
  {
    if list == [] then []
    else
      var rest := AllLists(list[1..], key);
      assert forall x | x in list :: x == list[0] || x in list[1..];
      ListOf(list[0], key) + rest
  }

  /** `Array.from(new Set((items || []).filter(...).flatMap(...)))`. */
  function UniqueLists(items: Value, key: string): Option<seq<string>>
  {
    var list := ArrayOr(items);
    if list.None? then None
    else
      var kept := Listed(list.value, key);
      if kept.None? then None else Some(Distinct(AllLists(kept.value, key)))
  }

  /** The distinct entries are computed unless an item is missing or holds
      a truthy non-string; they have no duplicates, keep the order of first
      occurrence, and are exactly the pieces of the kept items' lists, each
      non-empty, trimmed and free of commas. */
  lemma UniqueListsSpec(items: Value, key: string)
    ensures UniqueLists(items, key).Some? <==>
      ArrayOr(items).Some? && forall x | x in ArrayOr(items).value :: HasList(x, key).Some?
    ensures UniqueLists(items, key).Some? ==>
      var r := UniqueLists(items, key).value;
      var list := ArrayOr(items).value;
      NoDuplicates(r)
      && IsSubseq(r, AllLists(Listed(list, key).value, key))
      && (forall i, j | 0 <= i < j < |r| ::
            FirstIndex(AllLists(Listed(list, key).value, key), r[i]) < FirstIndex(AllLists(Listed(list, key).value, key), r[j]))
      && (forall c :: c in r <==> exists x | x in list && HasList(x, key) == Some(true) :: c in ListOf(x, key))
      && (forall c | c in r :: c != "" && IsTrimmed(c) && ',' !in c)
  {
    var list := ArrayOr(items);
    if list.Some? && Listed(list.value, key).Some? {
      var kept := Listed(list.value, key).value;
      TryFilterSpec(list.value, x => HasList(x, key));
      var all := AllLists(kept, key);
      DistinctIsSubseq(all);
      DistinctFirstOrder(all);
      forall c | c in Distinct(all)
        ensures c != "" && IsTrimmed(c) && ',' !in c
      {
        var x :| x in kept && c in ListOf(x, key);
        SplitTrimmedShape(Member(x, key).s);
      }
    }
  }
}
