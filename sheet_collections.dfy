/** Lists of sheets in the workspace repository: de-duplication by code
    (`dedupeByLatestUpdate`), the descending sort on `updatedAt`,
    `upsertSheet`, lookup by code and `buildDuplicatedName`
    (src/services/sheetRepository.js). */
module SheetCollections {
  import opened JsText
  import opened JsValues
  import opened Seqs
  import opened SheetNormalizer

  function Codes(ss: seq<Sheet>): (cs: seq<string>)
    ensures |cs| == |ss|
    ensures forall i | 0 <= i < |ss| :: cs[i] == ss[i].sheetCode
  {
    seq(|ss|, i requires 0 <= i < |ss| => ss[i].sheetCode)
  }

  /** No two sheets of the list share a code. */
  predicate DistinctCodes(ss: seq<Sheet>)
  {
    forall i, j | 0 <= i < j < |ss| :: ss[i].sheetCode != ss[j].sheetCode
  }

  /** Putting `a` in front of a list with distinct codes that lacks `a`'s
      code keeps the codes distinct. */
  lemma ConsDistinct(a: Sheet, rest: seq<Sheet>)
    requires DistinctCodes(rest) && a.sheetCode !in Codes(rest)
    ensures DistinctCodes([a] + rest)
  {
    var l := [a] + rest;
    forall i, j | 0 <= i < j < |l| ensures l[i].sheetCode != l[j].sheetCode {
      assert l[j] == rest[j - 1];
      if i == 0 {
        assert Codes(rest)[j - 1] == l[j].sheetCode;
      } else {
        assert l[i] == rest[i - 1];
      }
    }
  }

  /** The tail of a list with distinct codes has distinct codes, none of
      them the head's. */
  lemma DistinctTail(a: Sheet, rest: seq<Sheet>)
    requires DistinctCodes([a] + rest)
    ensures DistinctCodes(rest) && a.sheetCode !in Codes(rest)
  {
    var l := [a] + rest;
    forall i, j | 0 <= i < j < |rest| ensures rest[i].sheetCode != rest[j].sheetCode {
      assert l[i + 1] == rest[i] && l[j + 1] == rest[j];
    }
    forall k | 0 <= k < |rest| ensures Codes(rest)[k] != a.sheetCode {
      assert l[0] == a && l[k + 1] == rest[k];
      assert l[0].sheetCode != l[k + 1].sheetCode;
    }
  }

  lemma CodesAppend(a: seq<Sheet>, b: seq<Sheet>)
    ensures Codes(a + b) == Codes(a) + Codes(b)
  {
  }

  /** The position of the first sheet with code `c`, or -1. */
  function IndexOfCode(ss: seq<Sheet>, c: string): (i: int)
    ensures -1 <= i < |ss|
    ensures 0 <= i ==> ss[i].sheetCode == c && forall j | 0 <= j < i :: ss[j].sheetCode != c
    ensures i < 0 <==> c !in Codes(ss)
  {
    if ss == [] then -1
    else if ss[0].sheetCode == c then 0
    else
      var k := IndexOfCode(ss[1..], c);
      assert Codes(ss) == [ss[0].sheetCode] + Codes(ss[1..]);
      if k < 0 then -1 else k + 1
  }

  /** `allSheets.find((sheet) => sheet.sheetCode === c)`. */
  function FindByCode(ss: seq<Sheet>, c: string): (r: Option<Sheet>)
    ensures r.None? <==> c !in Codes(ss)
    ensures r.Some? ==> r.value in ss && r.value.sheetCode == c
  {
    var i := IndexOfCode(ss, c);
    if i < 0 then None else Some(ss[i])
  }

  /** In a list with distinct codes, the sheet found for a code is the only
      one carrying it. */
  lemma FindUnique(ss: seq<Sheet>, c: string, s: Sheet)
    requires DistinctCodes(ss)
    requires s in ss && s.sheetCode == c
    ensures FindByCode(ss, c) == Some(s)
  {
  }

  // ---------------------------------------------------------------------
  // dedupeByLatestUpdate
  // ---------------------------------------------------------------------

  /** One step of the `forEach` in `dedupeByLatestUpdate` on the `Map` from
      code to sheet, kept as its list of entries in insertion order: a new
      code is appended; a known code is replaced in place when the
      newcomer's `updatedAt` is at least the kept one's. */
  function Keep(m: seq<Sheet>, x: Sheet): seq<Sheet>
  {
    var i := IndexOfCode(m, x.sheetCode);
    if i < 0 then m + [x]
    else if x.updatedAt >= m[i].updatedAt then m[i := x]
    else m
  }

  /** The `Map`'s values after all of `s` went through `Keep`. */
  function Collect(s: seq<Sheet>): seq<Sheet>
  {
    if s == [] then [] else Keep(Collect(s[..|s| - 1]), s[|s| - 1])
  }

  /** The truthy entries of `vals`, normalised; the j-th entry, when it has
      no code of its own, gets the generated identifier `env.mint(j)`. */
  function NormalizeAll(vals: seq<Value>, hydrate: bool, env: Env): (ss: seq<Sheet>)
    ensures |ss| <= |vals|
  {
    if vals == [] then []
    else
      var j := |vals| - 1;
      var init := NormalizeAll(vals[..j], hydrate, env);
      if Truthy(vals[j]) then
        init + [NormalizeSheetData(vals[j], "", hydrate, env.hydrator, env.mint(j), env.now)]
      else init
  }

  /** What `dedupeByLatestUpdate(vals, {hydrate})` returns. */
  function Deduplicated(vals: seq<Value>, hydrate: bool, env: Env): seq<Sheet>
  {
    Collect(NormalizeAll(vals, hydrate, env))
  }

  lemma NormalizeAllStep(vals: seq<Value>, i: nat, hydrate: bool, env: Env)
    requires i < |vals|
    ensures NormalizeAll(vals[..i + 1], hydrate, env) ==
      NormalizeAll(vals[..i], hydrate, env)
        + (if Truthy(vals[i])
           then [NormalizeSheetData(vals[i], "", hydrate, env.hydrator, env.mint(i), env.now)]
           else [])
  {
    assert vals[..i + 1][..i] == vals[..i];
  }

  lemma CollectStep(s: seq<Sheet>, x: Sheet)
    ensures Collect(s + [x]) == Keep(Collect(s), x)
  {
    assert (s + [x])[..|s|] == s;
  }

  /** One more entry either leaves the collected sheets alone or goes
      through `Keep` once normalised. */
  lemma CollectNext(vals: seq<Value>, i: nat, hydrate: bool, env: Env)
    requires i < |vals|
    ensures Collect(NormalizeAll(vals[..i + 1], hydrate, env)) ==
      if Truthy(vals[i])
      then Keep(Collect(NormalizeAll(vals[..i], hydrate, env)),
                NormalizeSheetData(vals[i], "", hydrate, env.hydrator, env.mint(i), env.now))
      else Collect(NormalizeAll(vals[..i], hydrate, env))
  {
    var before := NormalizeAll(vals[..i], hydrate, env);
    NormalizeAllStep(vals, i, hydrate, env);
    if Truthy(vals[i]) {
      CollectStep(before, NormalizeSheetData(vals[i], "", hydrate, env.hydrator, env.mint(i), env.now));
    } else {
      assert before + [] == before;
    }
  }

  /** `dedupeByLatestUpdate`: normalise the truthy entries one by one and
      keep, per code, the copy with the latest `updatedAt`. */
  method DedupeByLatestUpdate(vals: seq<Value>, hydrate: bool, env: Env) returns (r: seq<Sheet>)
    ensures r == Deduplicated(vals, hydrate, env)
  {
    var byCode: seq<Sheet> := [];
    var i := 0;
    while i < |vals|
      invariant 0 <= i <= |vals|
      invariant byCode == Collect(NormalizeAll(vals[..i], hydrate, env))
    {
      CollectNext(vals, i, hydrate, env);
      var sheet := vals[i];
      if Truthy(sheet) {
        var normalized := NormalizeSheetData(sheet, "", hydrate, env.hydrator, env.mint(i), env.now);
        ghost var kept := Keep(byCode, normalized);
        var previous := IndexOfCode(byCode, normalized.sheetCode);
        if previous < 0 {
          byCode := byCode + [normalized];
        } else if normalized.updatedAt >= byCode[previous].updatedAt {
          byCode := byCode[previous := normalized];
        }
        assert byCode == kept;
      }
      i := i + 1;
    }
    assert vals[..i] == vals;
    r := byCode;
  }

  /** `Keep` keeps the codes distinct and adds exactly the newcomer's code. */
  lemma KeepCodes(m: seq<Sheet>, x: Sheet)
    requires DistinctCodes(m)
    ensures DistinctCodes(Keep(m, x))
    ensures forall c :: c in Codes(Keep(m, x)) <==> c == x.sheetCode || c in Codes(m)
  {
    var i := IndexOfCode(m, x.sheetCode);
    if i < 0 {
      CodesAppend(m, [x]);
      assert Codes([x]) == [x.sheetCode];
      forall j | 0 <= j < |m| ensures m[j].sheetCode != x.sheetCode {
        assert Codes(m)[j] == m[j].sheetCode;
      }
    } else if x.updatedAt >= m[i].updatedAt {
      assert Codes(m[i := x]) == Codes(m);
    }
  }

  /** The de-duplicated list has pairwise distinct codes, and exactly the
      codes of the input. */
  lemma {:induction false} CollectCodes(s: seq<Sheet>)
    ensures DistinctCodes(Collect(s))
    ensures forall c :: c in Codes(Collect(s)) <==> c in Codes(s)
  {
    if s != [] {
      var init := s[..|s| - 1];
      CollectCodes(init);
      KeepCodes(Collect(init), s[|s| - 1]);
      assert s == init + [s[|s| - 1]];
      CodesAppend(init, [s[|s| - 1]]);
    }
  }

  /** `s[i]` is the copy `dedupeByLatestUpdate` keeps for its code: no copy
      has a later `updatedAt`, and every later copy an earlier one (the
      `>=` lets the last of equally recent copies win). */
  predicate IsLatestCopy(s: seq<Sheet>, i: int)
    requires 0 <= i < |s|
  {
    forall j | 0 <= j < |s| && s[j].sheetCode == s[i].sheetCode ::
      s[j].updatedAt <= s[i].updatedAt && (i < j ==> s[j].updatedAt < s[i].updatedAt)
  }

  predicate AllLatest(m: seq<Sheet>, s: seq<Sheet>)
  {
    forall k | 0 <= k < |m| :: exists i | 0 <= i < |s| :: s[i] == m[k] && IsLatestCopy(s, i)
  }

  lemma LatestExtendOther(s: seq<Sheet>, x: Sheet, i: int)
    requires 0 <= i < |s| && IsLatestCopy(s, i) && x.sheetCode != s[i].sheetCode
    ensures IsLatestCopy(s + [x], i)
  {
  }

  lemma LatestExtendSame(s: seq<Sheet>, x: Sheet, i: int)
    requires 0 <= i < |s| && IsLatestCopy(s, i) && x.sheetCode == s[i].sheetCode
    ensures x.updatedAt < s[i].updatedAt ==> IsLatestCopy(s + [x], i)
    ensures x.updatedAt >= s[i].updatedAt ==> IsLatestCopy(s + [x], |s|)
  {
  }

  lemma LatestExtendNew(s: seq<Sheet>, x: Sheet)
    requires x.sheetCode !in Codes(s)
    ensures IsLatestCopy(s + [x], |s|)
  {
    forall j | 0 <= j < |s| ensures s[j].sheetCode != x.sheetCode {
      assert Codes(s)[j] == s[j].sheetCode;
    }
  }

  lemma {:induction false} KeepLatest(m: seq<Sheet>, s: seq<Sheet>, x: Sheet)
    requires DistinctCodes(m) && AllLatest(m, s)
    requires forall c :: c in Codes(m) <==> c in Codes(s)
    ensures AllLatest(Keep(m, x), s + [x])
  {
    var s' := s + [x];
    var i := IndexOfCode(m, x.sheetCode);
    if i < 0 {
      LatestExtendNew(s, x);
      forall k | 0 <= k < |m| ensures exists i' | 0 <= i' < |s'| :: s'[i'] == m[k] && IsLatestCopy(s', i') {
        var i' :| 0 <= i' < |s| && s[i'] == m[k] && IsLatestCopy(s, i');
        LatestExtendOther(s, x, i');
        assert s'[i'] == m[k];
      }
      assert s'[|s|] == x;
    } else {
      var i0 :| 0 <= i0 < |s| && s[i0] == m[i] && IsLatestCopy(s, i0);
      LatestExtendSame(s, x, i0);
      var m' := Keep(m, x);
      forall k | 0 <= k < |m'| ensures exists i' | 0 <= i' < |s'| :: s'[i'] == m'[k] && IsLatestCopy(s', i') {
        if k == i {
          if x.updatedAt >= m[i].updatedAt {
            assert s'[|s|] == m'[k];
          } else {
            assert s'[i0] == m'[k];
          }
        } else {
          var i' :| 0 <= i' < |s| && s[i'] == m[k] && IsLatestCopy(s, i');
          LatestExtendOther(s, x, i');
          assert s'[i'] == m'[k];
        }
      }
    }
  }

  /** Every kept sheet is the latest copy of its code in the input. */
  lemma {:induction false} CollectLatest(s: seq<Sheet>)
    ensures AllLatest(Collect(s), s)
  {
    if s != [] {
      var init := s[..|s| - 1];
      CollectLatest(init);
      CollectCodes(init);
      KeepLatest(Collect(init), init, s[|s| - 1]);
      assert init + [s[|s| - 1]] == s;
    }
  }

  /** A list whose codes are already distinct comes out unchanged. */
  lemma {:induction false} CollectOfDistinct(s: seq<Sheet>)
    requires DistinctCodes(s)
    ensures Collect(s) == s
  {
    if s != [] {
      var init := s[..|s| - 1];
      CollectOfDistinct(init);
      var x := s[|s| - 1];
      assert x.sheetCode !in Codes(init) by {
        forall j | 0 <= j < |init| ensures Codes(init)[j] != x.sheetCode {
        }
      }
      assert init + [x] == s;
    }
  }

  /** Normalising canonical sheets again, without decompression, gives
      them back. */
  lemma {:induction false} NormalizeAllCanonical(ss: seq<Sheet>, hydrate: bool, env: Env)
    requires AllCanonical(ss)
    requires hydrate ==> forall s | s in ss :: env.hydrator(SheetFields(s)) == SheetFields(s)
    ensures NormalizeAll(SheetValues(ss), hydrate, env) == ss
  {
    if ss != [] {
      var j := |ss| - 1;
      assert ss == ss[..j] + [ss[j]];
      var vals := SheetValues(ss);
      var n := NormalizeSheetData(vals[j], "", hydrate, env.hydrator, env.mint(j), env.now);
      assert vals[..j] == SheetValues(ss[..j]);
      assert NormalizeAll(vals[..j], hydrate, env) == ss[..j] by {
        NormalizeAllCanonical(ss[..j], hydrate, env);
      }
      assert n == ss[j] by {
        assert ss[j] in ss;
        NormalizeCanonical(ss[j], "", hydrate, env.hydrator, env.mint(j), env.now);
      }
      assert NormalizeAll(vals, hydrate, env) == NormalizeAll(vals[..j], hydrate, env) + [n] by {
        assert Truthy(vals[j]);
      }
    }
  }

  /** The normalised entries are canonical when the clock and the identifier
      generator behave. */
  lemma {:induction false} NormalizeAllCanonicalResult(vals: seq<Value>, hydrate: bool, env: Env)
    requires ValidEnv(env)
    ensures AllCanonical(NormalizeAll(vals, hydrate, env))
  {
    if vals != [] {
      var j := |vals| - 1;
      var init := NormalizeAll(vals[..j], hydrate, env);
      NormalizeAllCanonicalResult(vals[..j], hydrate, env);
      if Truthy(vals[j]) {
        var n := NormalizeSheetData(vals[j], "", hydrate, env.hydrator, env.mint(j), env.now);
        assert Canonical(n) by {
          assert NonBlank(env.mint(j));
        }
        assert NormalizeAll(vals, hydrate, env) == init + [n];
        AppendCanonical(init, n);
      }
    }
  }

  lemma AppendCanonical(init: seq<Sheet>, n: Sheet)
    requires AllCanonical(init) && Canonical(n)
    ensures AllCanonical(init + [n])
  {
    forall x | x in init + [n] ensures Canonical(x) {
      if x != n {
        assert x in init;
      }
    }
  }

  /** `dedupeByLatestUpdate` on sheets it produced itself changes nothing. */
  lemma DedupeCanonical(ss: seq<Sheet>, env: Env)
    requires AllCanonical(ss) && DistinctCodes(ss)
    ensures Deduplicated(SheetValues(ss), false, env) == ss
  {
    NormalizeAllCanonical(ss, false, env);
    CollectOfDistinct(ss);
  }

  /** Every kept sheet is a normalised input, so de-duplication preserves
      canonical form. */
  lemma CollectSubset(s: seq<Sheet>)
    ensures forall x | x in Collect(s) :: x in s
  {
    CollectLatest(s);
    forall x | x in Collect(s) ensures x in s {
      var k :| 0 <= k < |Collect(s)| && Collect(s)[k] == x;
      var i :| 0 <= i < |s| && s[i] == Collect(s)[k] && IsLatestCopy(s, i);
    }
  }

  // ---------------------------------------------------------------------
  // sortByUpdatedAtDesc
  // ---------------------------------------------------------------------

  predicate SortedDesc(s: seq<Sheet>)
  {
    forall i, j | 0 <= i < j < |s| :: s[i].updatedAt >= s[j].updatedAt
  }

  /** The first sheet of a list sorted by `SortedDesc` is a most recently
      updated one. */
  lemma SortedHeadLatest(s: seq<Sheet>)
    requires s != [] && SortedDesc(s)
    ensures forall x | x in s :: x.updatedAt <= s[0].updatedAt
  {
    forall x | x in s ensures x.updatedAt <= s[0].updatedAt {
      var k :| 0 <= k < |s| && s[k] == x;
      assert k == 0 || s[0].updatedAt >= s[k].updatedAt;
    }
  }

  /** Insert `x` before the first element that is not more recent than it,
      which keeps equally recent sheets in their original order. */
  function InsertByUpdatedAt(x: Sheet, t: seq<Sheet>): (r: seq<Sheet>)
    ensures |r| == |t| + 1
    ensures multiset(r) == multiset(t) + multiset{x}
  {
    if t == [] || x.updatedAt >= t[0].updatedAt then [x] + t
    else
      assert t == [t[0]] + t[1..];
      [t[0]] + InsertByUpdatedAt(x, t[1..])
  }

  /** `[...sheets].sort((a, b) => b.updatedAt - a.updatedAt)`, a stable sort. */
  function SortByUpdatedAtDesc(s: seq<Sheet>): (r: seq<Sheet>)
    ensures |r| == |s|
    ensures multiset(r) == multiset(s)
  {
    if s == [] then []
    else
      assert s == [s[0]] + s[1..];
      InsertByUpdatedAt(s[0], SortByUpdatedAtDesc(s[1..]))
  }

  lemma {:induction false} InsertSorted(x: Sheet, t: seq<Sheet>)
    requires SortedDesc(t)
    ensures SortedDesc(InsertByUpdatedAt(x, t))
  {
    if t != [] && x.updatedAt < t[0].updatedAt {
      InsertSorted(x, t[1..]);
      var r := InsertByUpdatedAt(x, t[1..]);
      assert multiset(r) == multiset(t[1..]) + multiset{x};
      forall k | 0 <= k < |r| ensures t[0].updatedAt >= r[k].updatedAt {
        assert r[k] in multiset(r);
        if r[k] != x {
          assert r[k] in t[1..];
        }
      }
    }
  }

  /** The sorted list runs from the most to the least recently updated sheet. */
  lemma {:induction false} SortSorted(s: seq<Sheet>)
    ensures SortedDesc(SortByUpdatedAtDesc(s))
  {
    if s != [] {
      SortSorted(s[1..]);
      InsertSorted(s[0], SortByUpdatedAtDesc(s[1..]));
    }
  }

  /** An already sorted list is left as it is. */
  lemma {:induction false} SortOfSorted(s: seq<Sheet>)
    requires SortedDesc(s)
    ensures SortByUpdatedAtDesc(s) == s
  {
    if s != [] {
      SortOfSorted(s[1..]);
      assert s == [s[0]] + s[1..];
    }
  }

  lemma MultisetCodes(a: seq<Sheet>, b: seq<Sheet>)
    requires multiset(a) == multiset(b)
    ensures forall c :: c in Codes(a) <==> c in Codes(b)
  {
    forall c | c in Codes(a) ensures c in Codes(b) {
      var i :| 0 <= i < |a| && Codes(a)[i] == c;
      assert a[i] in multiset(b);
      var j :| 0 <= j < |b| && b[j] == a[i];
      assert Codes(b)[j] == c;
    }
    forall c | c in Codes(b) ensures c in Codes(a) {
      var i :| 0 <= i < |b| && Codes(b)[i] == c;
      assert b[i] in multiset(a);
      var j :| 0 <= j < |a| && a[j] == b[i];
      assert Codes(a)[j] == c;
    }
  }

  lemma InsertCodes(x: Sheet, t: seq<Sheet>)
    ensures forall c :: c in Codes(InsertByUpdatedAt(x, t)) <==> c == x.sheetCode || c in Codes(t)
  {
    MultisetCodes(InsertByUpdatedAt(x, t), [x] + t);
    assert Codes([x] + t) == [x.sheetCode] + Codes(t);
  }

  lemma {:induction false} InsertKeepsDistinct(x: Sheet, t: seq<Sheet>)
    requires DistinctCodes(t) && x.sheetCode !in Codes(t)
    ensures DistinctCodes(InsertByUpdatedAt(x, t))
  {
    if t == [] || x.updatedAt >= t[0].updatedAt {
      ConsDistinct(x, t);
    } else {
      var h, t' := t[0], t[1..];
      assert t == [h] + t';
      DistinctTail(h, t');
      assert x.sheetCode != h.sheetCode by {
        assert Codes(t)[0] == h.sheetCode;
      }
      assert x.sheetCode !in Codes(t') by {
        forall k | 0 <= k < |t'| ensures Codes(t')[k] != x.sheetCode {
          assert Codes(t)[k + 1] == t'[k].sheetCode;
        }
      }
      InsertKeepsDistinct(x, t');
      var r' := InsertByUpdatedAt(x, t');
      assert InsertByUpdatedAt(x, t) == [h] + r';
      InsertCodes(x, t');
      assert h.sheetCode !in Codes(r');
      ConsDistinct(h, r');
    }
  }

  /** Sorting keeps the codes, and keeps them distinct. */
  lemma {:induction false} SortCodes(s: seq<Sheet>)
    requires DistinctCodes(s)
    ensures DistinctCodes(SortByUpdatedAtDesc(s))
    ensures forall c :: c in Codes(SortByUpdatedAtDesc(s)) <==> c in Codes(s)
  {
    MultisetCodes(SortByUpdatedAtDesc(s), s);
    if s != [] {
      var h, t := s[0], s[1..];
      assert s == [h] + t;
      DistinctTail(h, t);
      SortCodes(t);
      var st := SortByUpdatedAtDesc(t);
      assert h.sheetCode !in Codes(st);
      InsertKeepsDistinct(h, st);
      assert SortByUpdatedAtDesc(s) == InsertByUpdatedAt(h, st);
    }
  }

  // ---------------------------------------------------------------------
  // upsertSheet
  // ---------------------------------------------------------------------

  /** `allSheets.filter((sheet) => sheet.sheetCode !== c)`. */
  function WithoutCode(ss: seq<Sheet>, c: string): (r: seq<Sheet>)
    ensures forall x | x in r :: x in ss && x.sheetCode != c
    ensures forall x | x in ss && x.sheetCode != c :: x in r
    ensures c !in Codes(r)
    ensures IsSubseq(r, ss)
  {
    FilterIsSubseq(ss, (x: Sheet) => x.sheetCode != c);
    var r := Filter(ss, (x: Sheet) => x.sheetCode != c);
    assert forall i | 0 <= i < |r| :: Codes(r)[i] != c by {
      forall i | 0 <= i < |r| ensures Codes(r)[i] != c {
        assert r[i] in r;
      }
    }
    r
  }

  lemma WithoutCodeCons(ss: seq<Sheet>, c: string)
    requires ss != []
    ensures WithoutCode(ss, c) ==
      if ss[0].sheetCode != c then [ss[0]] + WithoutCode(ss[1..], c) else WithoutCode(ss[1..], c)
  {
  }

  /** Dropping a code nobody has changes nothing. */
  lemma {:induction false} WithoutAbsentCode(ss: seq<Sheet>, c: string)
    requires c !in Codes(ss)
    ensures WithoutCode(ss, c) == ss
  {
    if ss != [] {
      assert Codes(ss) == [ss[0].sheetCode] + Codes(ss[1..]);
      WithoutCodeCons(ss, c);
      WithoutAbsentCode(ss[1..], c);
    }
  }

  lemma {:induction false} WithoutCodeDistinct(ss: seq<Sheet>, c: string)
    requires DistinctCodes(ss)
    ensures DistinctCodes(WithoutCode(ss, c))
    ensures forall d :: d in Codes(WithoutCode(ss, c)) <==> d != c && d in Codes(ss)
  {
    WithoutCodeKeepsDistinct(ss, c);
    WithoutCodeCodes(ss, c);
  }

  lemma {:induction false} WithoutCodeKeepsDistinct(ss: seq<Sheet>, c: string)
    requires DistinctCodes(ss)
    ensures DistinctCodes(WithoutCode(ss, c))
  {
    if ss != [] {
      var h, t := ss[0], ss[1..];
      assert ss == [h] + t;
      DistinctTail(h, t);
      WithoutCodeKeepsDistinct(t, c);
      WithoutCodeCons(ss, c);
      if h.sheetCode != c {
        var rest := WithoutCode(t, c);
        forall k | 0 <= k < |rest| ensures Codes(rest)[k] != h.sheetCode {
          assert rest[k] in t;
        }
        ConsDistinct(h, rest);
      }
    }
  }

  lemma WithoutCodeCodes(ss: seq<Sheet>, c: string)
    ensures forall d :: d in Codes(WithoutCode(ss, c)) <==> d != c && d in Codes(ss)
  {
    var r := WithoutCode(ss, c);
    forall k | 0 <= k < |r| ensures Codes(r)[k] != c && Codes(r)[k] in Codes(ss) {
      assert r[k] in ss;
      var m :| 0 <= m < |ss| && ss[m] == r[k];
      assert Codes(ss)[m] == Codes(r)[k];
    }
    forall m | 0 <= m < |ss| && Codes(ss)[m] != c ensures Codes(ss)[m] in Codes(r) {
      assert ss[m] in r;
      var k :| 0 <= k < |r| && r[k] == ss[m];
      assert Codes(r)[k] == Codes(ss)[m];
    }
  }

  /** `upsertSheet`: drop every sheet with the newcomer's code, then append it. */
  function Upsert(all: seq<Sheet>, next: Sheet): seq<Sheet>
  {
    WithoutCode(all, next.sheetCode) + [next]
  }

  /** After an upsert the newcomer is the last sheet and the only one with
      its code, the other sheets are kept in order, and the code set gains
      exactly the newcomer's code. */
  lemma UpsertProperties(all: seq<Sheet>, next: Sheet)
    requires DistinctCodes(all)
    ensures var r := Upsert(all, next);
      && DistinctCodes(r)
      && r[|r| - 1] == next
      && IsSubseq(r[..|r| - 1], all)
      && (forall x | x in all && x.sheetCode != next.sheetCode :: x in r)
      && (forall c :: c in Codes(r) <==> c == next.sheetCode || c in Codes(all))
  {
    var w := WithoutCode(all, next.sheetCode);
    var r := w + [next];
    WithoutCodeDistinct(all, next.sheetCode);
    assert DistinctCodes(r) by {
      forall i, j | 0 <= i < j < |r| ensures r[i].sheetCode != r[j].sheetCode {
        assert r[i] == w[i];
        if j < |w| {
          assert r[j] == w[j];
        } else {
          assert Codes(w)[i] == w[i].sheetCode;
        }
      }
    }
    assert r[..|w|] == w;
    UpsertCodes(w, next, all);
  }

  lemma UpsertCodes(w: seq<Sheet>, next: Sheet, all: seq<Sheet>)
    requires w == WithoutCode(all, next.sheetCode)
    ensures forall c :: c in Codes(w + [next]) <==> c == next.sheetCode || c in Codes(all)
  {
    CodesAppend(w, [next]);
    assert Codes([next]) == [next.sheetCode];
    WithoutCodeCodes(all, next.sheetCode);
    forall c ensures c in Codes(w + [next]) <==> c == next.sheetCode || c in Codes(all) {
      assert c in Codes(w) + [next.sheetCode] <==> c in Codes(w) || c == next.sheetCode;
    }
  }

  // ---------------------------------------------------------------------
  // buildDuplicatedName
  // ---------------------------------------------------------------------

  /** The template `${root} ${n}`. */
  function Numbered(root: string, n: nat): string
  {
    root + " " + NatToString(n)
  }

  lemma NumberedInjective(root: string, a: nat, b: nat)
    requires Numbered(root, a) == Numbered(root, b)
    ensures a == b
  {
    var p := |root| + 1;
    assert NatToString(a) == Numbered(root, a)[p..];
    assert NatToString(b) == Numbered(root, b)[p..];
    NatToStringInjective(a, b);
  }

  /** The numbered names below `n` that the loop has already found taken. */
  ghost function NumberedBelow(root: string, n: nat): set<string>
  {
    set j: nat | 2 <= j < n :: Numbered(root, j)
  }

  lemma NumberedBelowStep(root: string, n: nat)
    requires 2 <= n
    ensures NumberedBelow(root, n + 1) == NumberedBelow(root, n) + {Numbered(root, n)}
    ensures Numbered(root, n) !in NumberedBelow(root, n)
  {
    if Numbered(root, n) in NumberedBelow(root, n) {
      var j: nat :| 2 <= j < n && Numbered(root, j) == Numbered(root, n);
      NumberedInjective(root, j, n);
    }
    forall y ensures y in NumberedBelow(root, n + 1) <==> y in NumberedBelow(root, n) + {Numbered(root, n)} {
      if y in NumberedBelow(root, n + 1) {
        var j: nat :| 2 <= j < n + 1 && y == Numbered(root, j);
        if j < n {
          assert y in NumberedBelow(root, n);
        }
      }
      if y == Numbered(root, n) {
        assert y in NumberedBelow(root, n + 1);
      }
      if y in NumberedBelow(root, n) {
        var j: nat :| 2 <= j < n && y == Numbered(root, j);
        assert y in NumberedBelow(root, n + 1);
      }
    }
  }

  /** The first index from `n` on whose numbered name is free. */
  function FreeIndex(root: string, existing: set<string>, n: nat): (k: nat)
    requires 2 <= n
    ensures n <= k && Numbered(root, k) !in existing
    ensures forall j | n <= j < k :: Numbered(root, j) in existing
    decreases existing - NumberedBelow(root, n)
  {
    if Numbered(root, n) in existing then
      NumberedBelowStep(root, n);
      FreeIndex(root, existing, n + 1)
    else n
  }

  /** The name `buildDuplicatedName` picks: "X (copia)" when free, otherwise
      "X (copia) N" for the smallest free N from 2 on; never an existing name. */
  function DuplicatedName(baseName: string, existing: set<string>): (r: string)
    ensures r !in existing
    ensures var root := baseName + " (copia)";
      && (root !in existing ==> r == root)
      && (root in existing ==>
            exists n: nat | 2 <= n :: r == Numbered(root, n)
              && forall j | 2 <= j < n :: Numbered(root, j) in existing)
  {
    var root := baseName + " (copia)";
    if root !in existing then root
    else
      var n := FreeIndex(root, existing, 2);
      Numbered(root, n)
  }

  /** `buildDuplicatedName`: count up from 2 until the numbered name is free. */
  method BuildDuplicatedName(baseName: string, existing: set<string>) returns (name: string)
    ensures name == DuplicatedName(baseName, existing)
  {
    var root := baseName + " (copia)";
    if root !in existing {
      return root;
    }
    var index := 2;
    while Numbered(root, index) in existing
      invariant 2 <= index
      invariant FreeIndex(root, existing, index) == FreeIndex(root, existing, 2)
      decreases existing - NumberedBelow(root, index)
    {
      NumberedBelowStep(root, index);
      index := index + 1;
    }
    name := Numbered(root, index);
  }
}
