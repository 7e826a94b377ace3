/** String operations of the JavaScript runtime that the character-sheet
    code relies on: `trim`, `toLowerCase`, `includes`, `split(',')`,
    `join(',')`, decimal rendering of integers and the code-unit order
    used for object keys. */
module JsText {

  /** The characters JavaScript's `trim` and the regular-expression class
      `\s` treat as white space: WhiteSpace plus LineTerminator. */
  predicate IsSpace(c: char)
  {
    c == ' ' || c == '\t' || c == '\n' || c == '\U{000B}' || c == '\U{000C}' || c == '\r'
    || c == '\U{00A0}' || c == '\U{1680}' || ('\U{2000}' <= c <= '\U{200A}')
    || c == '\U{2028}' || c == '\U{2029}' || c == '\U{202F}' || c == '\U{205F}'
    || c == '\U{3000}' || c == '\U{FEFF}'
  }

  /** A line terminator: the characters the regular-expression `.` does not match. */
  predicate IsLineTerminator(c: char)
  {
    c == '\n' || c == '\r' || c == '\U{2028}' || c == '\U{2029}'
  }

  function TrimStart(s: string): (r: string)
    ensures |r| <= |s| && r == s[|s| - |r|..]
    ensures r == [] || !IsSpace(r[0])
  {
    if s != [] && IsSpace(s[0]) then TrimStart(s[1..]) else s
  }

  function TrimEnd(s: string): (r: string)
    ensures |r| <= |s| && r == s[..|r|]
    ensures r == [] || !IsSpace(r[|r| - 1])
  {
    if s != [] && IsSpace(s[|s| - 1]) then TrimEnd(s[..|s| - 1]) else s
  }

  /** `String.prototype.trim`. */
  function Trim(s: string): (r: string)
  {
    TrimEnd(TrimStart(s))
  }

  /** A string is trimmed exactly when it neither starts nor ends with white space. */
  predicate IsTrimmed(s: string)
  {
    s == [] || (!IsSpace(s[0]) && !IsSpace(s[|s| - 1]))
  }

  lemma TrimmedFixed(s: string)
    requires IsTrimmed(s)
    ensures Trim(s) == s
  {
  }

  lemma {:induction false} TrimIsTrimmed(s: string)
    ensures IsTrimmed(Trim(s))
  {
    var t := TrimStart(s);
    var r := TrimEnd(t);
    if r != [] {
      assert r[0] == t[0];
    }
  }

  lemma TrimIdempotent(s: string)
    ensures Trim(Trim(s)) == Trim(s)
  {
    TrimIsTrimmed(s);
    TrimmedFixed(Trim(s));
  }

  /** Every character is white space. */
  predicate AllSpace(s: string)
  {
    forall i | 0 <= i < |s| :: IsSpace(s[i])
  }

  /** `trim` cuts a white-space run from each end. */
  lemma TrimSlice(s: string)
    ensures var i := |s| - |TrimStart(s)|;
      i + |Trim(s)| <= |s| && s[i..i + |Trim(s)|] == Trim(s)
      && AllSpace(s[..i]) && AllSpace(s[i + |Trim(s)|..])
  {
    TrimIsSlice(s);
    LeadingSpace(s);
    TrailingSpace(s);
  }

  /** A character that is not white space survives `trim`, at its
      position less the leading white space. */
  lemma InsideTrim(s: string, k: nat)
    requires k < |s| && !IsSpace(s[k])
    ensures var i := |s| - |TrimStart(s)|;
      i <= k < i + |Trim(s)| && Trim(s)[k - i] == s[k]
  {
    var i := |s| - |TrimStart(s)|;
    KeptByTrimStart(s, k);
    KeptByTrimEnd(TrimStart(s), k - i);
  }

  /** `trimStart` stops at or before the first character that is not white space. */
  lemma {:induction false} KeptByTrimStart(s: string, k: nat)
    requires k < |s| && !IsSpace(s[k])
    ensures |s| - |TrimStart(s)| <= k
  {
    if s != [] && IsSpace(s[0]) {
      KeptByTrimStart(s[1..], k - 1);
    }
  }

  /** `trimEnd` keeps every character up to the last one that is not white space. */
  lemma {:induction false} KeptByTrimEnd(t: string, m: nat)
    requires m < |t| && !IsSpace(t[m])
    ensures m < |TrimEnd(t)|
    decreases |t|
  {
    if t != [] && IsSpace(t[|t| - 1]) {
      KeptByTrimEnd(t[..|t| - 1], m);
    }
  }

  lemma TrimIsSlice(s: string)
    ensures var i := |s| - |TrimStart(s)|;
      i + |Trim(s)| <= |s| && s[i..i + |Trim(s)|] == Trim(s)
  {
    var t := TrimStart(s);
    var r := TrimEnd(t);
    SuffixPrefix(s, t, r);
  }

  /** A prefix `r` of a suffix `t` of `s` is the slice of `s` that starts
      where `t` does. */
  lemma SuffixPrefix<T>(s: seq<T>, t: seq<T>, r: seq<T>)
    requires |t| <= |s| && t == s[|s| - |t|..]
    requires |r| <= |t| && r == t[..|r|]
    ensures |s| - |t| + |r| <= |s| && s[|s| - |t|..|s| - |t| + |r|] == r
  {
    assert s[|s| - |t|..][..|r|] == s[|s| - |t|..|s| - |t| + |r|];
  }

  /** What `trimStart` cuts off is white space. */
  lemma {:induction false} LeadingSpace(s: string)
    ensures AllSpace(s[..|s| - |TrimStart(s)|])
  {
    if s != [] && IsSpace(s[0]) {
      var u := s[1..];
      LeadingSpace(u);
      var k := |s| - |TrimStart(s)|;
      var p := s[..k];
      var q := u[..k - 1];
      forall j | 0 <= j < k ensures IsSpace(p[j]) {
        if j > 0 {
          assert p[j] == q[j - 1];
        }
      }
    }
  }

  /** What `trimEnd` cuts off is white space. */
  lemma {:induction false} TrimEndSpaces(t: string)
    ensures AllSpace(t[|TrimEnd(t)|..])
    decreases |t|
  {
    if t != [] && IsSpace(t[|t| - 1]) {
      var u := t[..|t| - 1];
      TrimEndSpaces(u);
      var m := |TrimEnd(t)|;
      var p := t[m..];
      var q := u[m..];
      forall j | 0 <= j < |p| ensures IsSpace(p[j]) {
        if j < |q| {
          assert p[j] == q[j];
        }
      }
    }
  }

  lemma TrailingSpace(s: string)
    ensures var i := |s| - |TrimStart(s)|;
      i + |Trim(s)| <= |s| && AllSpace(s[i + |Trim(s)|..])
  {
    var t := TrimStart(s);
    var i := |s| - |t|;
    var m := |TrimEnd(t)|;
    TrimEndSpaces(t);
    SuffixOfSuffix(s, t, m);
  }

  /** The part of a suffix `t` of `s` from `m` on is the part of `s` from
      where `t` starts plus `m` on. */
  lemma SuffixOfSuffix<T>(s: seq<T>, t: seq<T>, m: nat)
    requires |t| <= |s| && t == s[|s| - |t|..] && m <= |t|
    ensures s[|s| - |t| + m..] == t[m..]
  {
  }

  /** `trimStart` stops at the first character that is not white space. */
  lemma {:induction false} TrimStartAfterSpaces(s: string, i: nat)
    requires i < |s| && AllSpace(s[..i]) && !IsSpace(s[i])
    ensures TrimStart(s) == s[i..]
  {
    if i > 0 {
      assert s[..i][0] == s[0];
      var u := s[1..];
      var p, w := u[..i - 1], s[..i];
      forall q | 0 <= q < i - 1 ensures IsSpace(p[q]) {
        assert p[q] == w[q + 1];
      }
      assert u[i - 1] == s[i];
      TrimStartAfterSpaces(u, i - 1);
      assert u[i - 1..] == s[i..];
    }
  }

  /** `trimEnd` stops at the last character that is not white space. */
  lemma {:induction false} TrimEndBeforeSpaces(t: string, m: nat)
    requires 0 < m <= |t| && AllSpace(t[m..]) && !IsSpace(t[m - 1])
    ensures TrimEnd(t) == t[..m]
    decreases |t|
  {
    if m < |t| {
      assert t[m..][|t| - 1 - m] == t[|t| - 1];
      var u := t[..|t| - 1];
      var p, w := u[m..], t[m..];
      forall q | 0 <= q < |p| ensures IsSpace(p[q]) {
        assert p[q] == w[q];
      }
      TrimEndBeforeSpaces(u, m);
      assert u[..m] == t[..m];
    }
  }

  /** A word between white-space runs is what `trim` leaves. */
  lemma TrimBetweenSpaces(s: string, i: nat, j: nat)
    requires i < j <= |s| && AllSpace(s[..i]) && AllSpace(s[j..])
    requires !IsSpace(s[i]) && !IsSpace(s[j - 1])
    ensures Trim(s) == s[i..j]
  {
    var t := s[i..];
    TrimStartAfterSpaces(s, i);
    SliceOfSuffix(s, i, j);
    assert AllSpace(t[j - i..]) && !IsSpace(t[j - i - 1]);
    TrimEndBeforeSpaces(t, j - i);
    assert Trim(s) == TrimEnd(t);
  }

  /** The two pieces of the suffix `s[i..]` split at `j`. */
  lemma SliceOfSuffix<T>(s: seq<T>, i: nat, j: nat)
    requires i < j <= |s|
    ensures s[i..][j - i..] == s[j..] && s[i..][..j - i] == s[i..j] && s[i..][j - i - 1] == s[j - 1]
  {
  }

  /** A string that `trim` leaves non-empty. */
  predicate NonBlank(s: string)
  {
    Trim(s) != ""
  }

  /** `toLowerCase` on the ASCII and Latin-1 upper-case letters. */
  function LowerChar(c: char): char
  {
    if 'A' <= c <= 'Z' || ('\U{00C0}' <= c <= '\U{00DE}' && c != '\U{00D7}') then
      (c as int + 32) as char
    else
      c
  }

  function ToLower(s: string): (r: string)
    ensures |r| == |s|
    ensures forall i | 0 <= i < |s| :: r[i] == LowerChar(s[i])
  {
    seq(|s|, i requires 0 <= i < |s| => LowerChar(s[i]))
  }

  predicate StartsWith(s: string, prefix: string)
  {
    |prefix| <= |s| && s[..|prefix|] == prefix
  }

  predicate OccursAt(s: string, sub: string, i: int)
  {
    0 <= i <= |s| - |sub| && s[i..i + |sub|] == sub
  }

  /** `s.includes(sub)`. */
  predicate Contains(s: string, sub: string)
  {
    exists i | 0 <= i <= |s| - |sub| :: OccursAt(s, sub, i)
  }

  lemma ContainsEmpty(s: string)
    ensures Contains(s, "")
  {
    assert OccursAt(s, "", 0);
  }

  /** `s.split(sep)` for a one-character separator: never empty, and the
      pieces are the maximal separator-free runs, empty ones included. */
  function Split(s: string, sep: char): (parts: seq<string>)
    ensures |parts| >= 1
    ensures forall p | p in parts :: sep !in p
  {
    if s == [] then [""]
    else
      var rest := Split(s[1..], sep);
      if s[0] == sep then [""] + rest
      else [[s[0]] + rest[0]] + rest[1..]
  }

  /** `parts.join(sep)`. */
  function Join(parts: seq<string>, sep: char): string
  {
    if parts == [] then ""
    else if |parts| == 1 then parts[0]
    else parts[0] + [sep] + Join(parts[1..], sep)
  }

  /** Splitting and re-joining on the same separator gives back the string. */
  lemma {:induction false} JoinSplit(s: string, sep: char)
    ensures Join(Split(s, sep), sep) == s
  {
    if s != [] {
      var rest := Split(s[1..], sep);
      JoinSplit(s[1..], sep);
      if s[0] == sep {
        assert Split(s, sep) == [""] + rest;
        assert ([""] + rest)[1..] == rest;
      } else {
        var parts := [[s[0]] + rest[0]] + rest[1..];
        assert Split(s, sep) == parts;
        if |rest| == 1 {
          assert Join(parts, sep) == [s[0]] + rest[0];
        } else {
          assert parts[1..] == rest[1..];
          assert Join(rest, sep) == rest[0] + [sep] + Join(rest[1..], sep);
        }
      }
    }
  }

  /** A string without the separator splits into itself alone. */
  lemma {:induction false} SplitNoSeparator(s: string, sep: char)
    requires sep !in s
    ensures Split(s, sep) == [s]
  {
    if s != [] {
      SplitNoSeparator(s[1..], sep);
      assert [s[0]] + s[1..] == s;
    }
  }

  function DigitChar(d: nat): char
    requires d < 10
  {
    "0123456789"[d]
  }

  /** Decimal rendering of a natural number, as `String(n)`. */
  function NatToString(n: nat): (r: string)
    ensures |r| >= 1
    ensures n < 10 <==> |r| == 1
    ensures forall i | 0 <= i < |r| :: '0' <= r[i] <= '9'
  {
    if n < 10 then [DigitChar(n)] else NatToString(n / 10) + [DigitChar(n % 10)]
  }

  lemma {:induction false} NatToStringInjective(a: nat, b: nat)
    requires NatToString(a) == NatToString(b)
    ensures a == b
  {
    if a >= 10 && b >= 10 {
      var sa, sb := NatToString(a), NatToString(b);
      assert sa[..|sa| - 1] == NatToString(a / 10);
      assert sb[..|sb| - 1] == NatToString(b / 10);
      NatToStringInjective(a / 10, b / 10);
      assert DigitChar(a % 10) == sa[|sa| - 1] == sb[|sb| - 1] == DigitChar(b % 10);
    }
  }

  lemma NatToStringIsInjective()
    ensures forall a: nat, b: nat :: NatToString(a) == NatToString(b) ==> a == b
  {
    forall a: nat, b: nat | NatToString(a) == NatToString(b) ensures a == b {
      NatToStringInjective(a, b);
    }
  }

  /** Decimal rendering of an integer, as `String(i)`. */
  function IntToString(i: int): string
  {
    if i < 0 then "-" + NatToString(-i) else NatToString(i)
  }

  function DigitValue(c: char): nat
    requires '0' <= c <= '9'
  {
    c as int - '0' as int
  }

  predicate AllDigits(s: string)
  {
    forall i | 0 <= i < |s| :: '0' <= s[i] <= '9'
  }

  /** The value of a non-empty run of decimal digits. */
  function DigitsValue(s: string): nat
    requires AllDigits(s)
  {
    if s == [] then 0 else DigitsValue(s[..|s| - 1]) * 10 + DigitValue(s[|s| - 1])
  }

  lemma {:induction false} DigitsOfNat(n: nat)
    ensures DigitsValue(NatToString(n)) == n
  {
    var s := NatToString(n);
    var d := n % 10;
    DigitCharValue(d);
    if n >= 10 {
      var init := NatToString(n / 10);
      assert s == init + [DigitChar(d)];
      assert s[..|s| - 1] == init;
      DigitsOfNat(n / 10);
      assert DigitsValue(s) == DigitsValue(init) * 10 + d;
    } else {
      assert s[..|s| - 1] == [];
    }
  }

  lemma DigitCharValue(d: nat)
    requires d < 10
    ensures '0' <= DigitChar(d) <= '9' && DigitValue(DigitChar(d)) == d
  {
  }

  /** Lexicographic order on UTF-16 code units, the order of JavaScript's
      default string comparison. */
  predicate LexLe(a: string, b: string)
  {
    if a == [] then true
    else if b == [] then false
    else if a[0] != b[0] then a[0] < b[0]
    else LexLe(a[1..], b[1..])
  }

  lemma {:induction false} LexAntisymmetric(a: string, b: string)
    requires LexLe(a, b) && LexLe(b, a)
    ensures a == b
  {
    if a != [] && b != [] && a[0] == b[0] {
      LexAntisymmetric(a[1..], b[1..]);
    }
  }

  lemma {:induction false} LexTotal(a: string, b: string)
    ensures LexLe(a, b) || LexLe(b, a)
  {
    if a != [] && b != [] && a[0] == b[0] {
      LexTotal(a[1..], b[1..]);
    }
  }

  lemma {:induction false} LexTransitive(a: string, b: string, c: string)
    requires LexLe(a, b) && LexLe(b, c)
    ensures LexLe(a, c)
  {
    if a != [] && b != [] && c != [] && a[0] == b[0] && b[0] == c[0] {
      LexTransitive(a[1..], b[1..], c[1..]);
    }
  }

  /** `k` is in `keys` and precedes every key of `keys`. */
  predicate IsLeastKey(k: string, keys: set<string>)
  {
    k in keys && forall k' | k' in keys :: LexLe(k, k')
  }

  lemma {:induction false} LeastKeyExists(keys: set<string>)
    requires keys != {}
    ensures exists k :: IsLeastKey(k, keys)
  {
    var x :| x in keys;
    if keys == {x} {
      LeastOfSingleton(x);
    } else {
      var rest := keys - {x};
      LeastKeyExists(rest);
      var m :| IsLeastKey(m, rest);
      assert keys == rest + {x};
      LeastOfAdded(rest, x, m);
    }
  }

  lemma LeastOfSingleton(x: string)
    ensures IsLeastKey(x, {x})
  {
    LexTotal(x, x);
  }

  /** The least of `rest + {x}` is `x` or the least of `rest`. */
  lemma LeastOfAdded(rest: set<string>, x: string, m: string)
    requires IsLeastKey(m, rest)
    ensures exists k :: IsLeastKey(k, rest + {x})
  {
    LexTotal(m, x);
    var keys := rest + {x};
    if LexLe(m, x) {
      assert IsLeastKey(m, keys);
    } else {
      LexTotal(x, x);
      forall k' | k' in keys ensures LexLe(x, k') {
        if k' != x {
          LexTransitive(x, m, k');
        }
      }
      assert IsLeastKey(x, keys);
    }
  }

  /** The least key of a non-empty set of keys. */
  function LeastKey(keys: set<string>): (k: string)
    requires keys != {}
    ensures k in keys && forall k' | k' in keys :: LexLe(k, k')
  {
    LeastKeyExists(keys);
    assert forall a, b | a in keys && b in keys && LexLe(a, b) && LexLe(b, a) :: a == b by {
      forall a, b | a in keys && b in keys && LexLe(a, b) && LexLe(b, a) ensures a == b {
        LexAntisymmetric(a, b);
      }
    }
    var k :| IsLeastKey(k, keys);
    k
  }

  /** The keys of a set in ascending order. */
  function SortedKeys(keys: set<string>): (r: seq<string>)
    ensures |r| == |keys|
    ensures forall k :: k in r <==> k in keys
    decreases |keys|
  {
    if keys == {} then []
    else
      var k := LeastKey(keys);
      [k] + SortedKeys(keys - {k})
  }
}
