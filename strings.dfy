/** The parts of the JavaScript string runtime that the components rely on:
    `trim`, `startsWith`/`endsWith`/`includes`, `split` on one character and its
    inverse `join`, ASCII case mapping, and the lazy search `.*?X` of a regular
    expression (which may not cross a line terminator). Strings are sequences of
    characters; JavaScript's UTF-16 code units are not modelled separately. */
module Strings {
  import opened Wrappers

  /** The characters that `String.prototype.trim` removes and that `\s` matches. */
  predicate IsWhitespace(c: char) {
    || c == ' ' || c == '\t' || c == '\n' || c == '\r' || c == '\U{B}' || c == '\U{C}'
    || c == '\U{A0}' || c == '\U{1680}' || ('\U{2000}' <= c <= '\U{200A}')
    || c == '\U{2028}' || c == '\U{2029}' || c == '\U{202F}' || c == '\U{205F}'
    || c == '\U{3000}' || c == '\U{FEFF}'
  }

  /** The characters that `.` does not match in a regular expression. */
  predicate IsLineTerminator(c: char) {
    c == '\n' || c == '\r' || c == '\U{2028}' || c == '\U{2029}'
  }

  predicate IsBlank(s: string) {
    forall i | 0 <= i < |s| :: IsWhitespace(s[i])
  }

  predicate NoLineBreak(s: string) {
    forall i | 0 <= i < |s| :: !IsLineTerminator(s[i])
  }

  predicate IsDigit(c: char) {
    '0' <= c <= '9'
  }

  predicate AllDigits(s: string) {
    forall i | 0 <= i < |s| :: IsDigit(s[i])
  }

  /** The length of the run of digits that `s` starts with: the greedy `\d*`. */
  function DigitRun(s: string): (n: nat)
    ensures n <= |s|
  {
    if s != [] && IsDigit(s[0]) then 1 + DigitRun(s[1..]) else 0
  }

  /** A run of digits ends where the first non-digit starts. */
  lemma {:induction false} DigitRunOf(a: string, b: string)
    requires AllDigits(a) && (b == [] || !IsDigit(b[0]))
    ensures DigitRun(a + b) == |a|
    decreases |a|
  {
    if a != [] {
      assert (a + b)[1..] == a[1..] + b;
      DigitRunOf(a[1..], b);
    } else {
      assert a + b == b;
    }
  }

  /** The length of the run of whitespace that `t` starts with: the greedy `\s*`. */
  function WsRun(t: string): (n: nat)
    ensures n <= |t| && IsBlank(t[..n])
    ensures n == |t| || !IsWhitespace(t[n])
  {
    if t != [] && IsWhitespace(t[0]) then
      var n := 1 + WsRun(t[1..]);
      assert forall i | 1 <= i < n :: t[..n][i] == t[1..][..n - 1][i - 1];
      n
    else 0
  }

  // ---------------------------------------------------------------- trim

  function TrimStart(s: string): string {
    if s != [] && IsWhitespace(s[0]) then TrimStart(s[1..]) else s
  }

  function TrimEnd(s: string): string {
    if s != [] && IsWhitespace(s[|s| - 1]) then TrimEnd(s[..|s| - 1]) else s
  }

  /** `TrimStart` drops a blank prefix and stops at the first other character. (Stated
      as a lemma rather than on the function, so that a mere mention of a trimmed text
      does not bring these facts into every proof.) */
  lemma {:induction false} TrimStartShape(s: string)
    ensures var r := TrimStart(s);
      && |r| <= |s| && r == s[|s| - |r|..]
      && (r == [] || !IsWhitespace(r[0]))
      && IsBlank(s[..|s| - |r|])
    decreases |s|
  {
    if s != [] && IsWhitespace(s[0]) {
      TrimStartShape(s[1..]);
      var r := TrimStart(s);
      assert s[1..][|s| - 1 - |r|..] == s[|s| - |r|..];
      var k := |s| - |r|;
      forall i | 1 <= i < k ensures IsWhitespace(s[..k][i]) {
        assert s[..k][i] == s[1..][..k - 1][i - 1];
      }
    }
  }

  /** `TrimEnd` drops a blank suffix and stops at the last other character. */
  lemma {:induction false} TrimEndShape(s: string)
    ensures var r := TrimEnd(s);
      && |r| <= |s| && r == s[..|r|]
      && (r == [] || !IsWhitespace(r[|r| - 1]))
      && IsBlank(s[|r|..])
    decreases |s|
  {
    if s != [] && IsWhitespace(s[|s| - 1]) {
      TrimEndShape(s[..|s| - 1]);
      var r := TrimEnd(s);
      assert s[..|s| - 1][..|r|] == s[..|r|];
      forall i | 0 <= i < |s| - 1 - |r| ensures IsWhitespace(s[|r|..][i]) {
        assert s[|r|..][i] == s[..|s| - 1][|r|..][i];
      }
    }
  }

  /** `String.prototype.trim`. */
  function Trim(s: string): string {
    TrimStart(TrimEnd(s))
  }

  /** A string trims to nothing exactly when it is all whitespace
      (`s.trim().length > 0` is the source's test for "not blank"). */
  lemma TrimEmptyIffBlank(s: string)
    ensures Trim(s) == [] <==> IsBlank(s)
  {
    var e := TrimEnd(s);
    TrimEndShape(s);
    TrimStartShape(e);
    if Trim(s) == [] {
      assert e[..|e| - 0] == e;
      assert e == [];
      assert s[|e|..] == s;
    } else {
      var t := Trim(s);
      assert t[0] == s[|e| - |t|];
      assert !IsWhitespace(s[|e| - |t|]);
    }
  }

  /** Trimming leaves a string alone when it neither starts nor ends with whitespace. */
  lemma TrimKeepsTrimmed(s: string)
    requires s == [] || (!IsWhitespace(s[0]) && !IsWhitespace(s[|s| - 1]))
    ensures Trim(s) == s
  {
  }

  /** Trimming twice is trimming once. */
  lemma TrimIdempotent(s: string)
    ensures Trim(Trim(s)) == Trim(s)
  {
    var t := Trim(s);
    var e := TrimEnd(s);
    TrimEndShape(s);
    TrimStartShape(e);
    if t != [] {
      assert t == e[|e| - |t|..];
      assert t[|t| - 1] == e[|e| - 1];
    }
    TrimKeepsTrimmed(t);
  }

  // ---------------------------------------------------------------- search

  predicate StartsWith(s: string, p: string) {
    |p| <= |s| && s[..|p|] == p
  }

  predicate EndsWith(s: string, p: string) {
    |p| <= |s| && s[|s| - |p|..] == p
  }

  /** `p` occurs in `s` at index `i`. */
  predicate OccursAt(s: string, p: string, i: nat) {
    i + |p| <= |s| && s[i..i + |p|] == p
  }

  /** `String.prototype.includes`. */
  predicate Contains(s: string, p: string) {
    exists i | 0 <= i <= |s| - |p| :: OccursAt(s, p, i)
  }

  lemma StartsWithOccurs(s: string, p: string)
    requires StartsWith(s, p)
    ensures OccursAt(s, p, 0) && Contains(s, p)
  {
    assert s[0..|p|] == s[..|p|];
    assert OccursAt(s, p, 0);
  }

  /** Slicing a suffix is slicing the whole at shifted bounds. */
  lemma SliceOfSuffix<T>(x: seq<T>, a: nat, b: nat, c: nat)
    requires a <= |x| && b <= c <= |x| - a
    ensures x[a..][b..c] == x[a + b..a + c]
  {
    var l, w := x[a..][b..c], x[a + b..a + c];
    assert |l| == |w|;
    forall k | 0 <= k < |l|
      ensures l[k] == w[k]
    {
      assert l[k] == x[a..][b + k] == x[a + b + k];
    }
  }

  lemma DropOfSuffix<T>(x: seq<T>, a: nat, b: nat)
    requires a <= |x| && b <= |x| - a
    ensures x[a..][b..] == x[a + b..]
  {
    var l, w := x[a..][b..], x[a + b..];
    assert |l| == |w|;
    forall k | 0 <= k < |l|
      ensures l[k] == w[k]
    {
      assert l[k] == x[a..][b + k] == x[a + b + k];
    }
  }

  lemma TakeOfSuffix<T>(x: seq<T>, a: nat, b: nat)
    requires a <= |x| && b <= |x| - a
    ensures x[a..][..b] == x[a..a + b]
  {
    var l, w := x[a..][..b], x[a..a + b];
    assert |l| == |w|;
    forall k | 0 <= k < |l|
      ensures l[k] == w[k]
    {
      assert l[k] == x[a..][k] == x[a + k];
    }
  }

  /** The first `n` elements of `[c] + x` are `c` and the first `n - 1` of `x`. */
  lemma ConsPrefix<T>(c: T, x: seq<T>, n: nat)
    requires 0 < n <= |x| + 1
    ensures ([c] + x)[..n] == [c] + x[..n - 1]
    ensures ([c] + x)[..n][1..] == x[..n - 1]
  {
    var l, w := ([c] + x)[..n], [c] + x[..n - 1];
    assert |l| == |w|;
    forall k | 0 <= k < n
      ensures l[k] == w[k]
    {
      if k > 0 {
        assert l[k] == x[k - 1];
      }
    }
    assert l == w;
    assert w[1..] == x[..n - 1];
  }

  /** Concatenation regrouped, for the steps that split a result into its pieces. */
  lemma Regroup<T>(a: seq<T>, b: seq<T>, c: seq<T>, d: seq<T>)
    ensures a + (b + c + d) == (a + b + c) + d
  {
  }

  /** A string that differs from `p` at a position of `p` does not start with `p`. */
  lemma DiffersAt(s: string, p: string, k: nat)
    requires k < |p| && k < |s| && s[k] != p[k]
    ensures !StartsWith(s, p)
  {
    if |p| <= |s| {
      assert s[..|p|][k] == s[k];
    }
  }

  /** The empty string is found in every string (`"abc".includes("")` is true). */
  lemma ContainsEmpty(s: string)
    ensures Contains(s, [])
  {
    assert OccursAt(s, [], 0);
  }

  /** An occurrence in a part is an occurrence in the whole. */
  lemma ContainsInfix(a: string, p: string, b: string)
    ensures Contains(a + p + b, p)
  {
    assert (a + p + b)[|a|..|a| + |p|] == p;
    assert OccursAt(a + p + b, p, |a|);
  }

  /** No occurrence of `q` can start inside `a`, whatever text follows `a`: wherever
      `a` holds the first character of `q`, the next character of `a` differs from
      the second character of `q`. */
  predicate NoStartIn(a: string, q: string)
    requires |q| >= 2
  {
    forall i | 0 <= i < |a| :: a[i] == q[0] ==> i + 1 < |a| && a[i + 1] != q[1]
  }

  lemma NoStartInConcat(a: string, b: string, q: string)
    requires |q| >= 2 && NoStartIn(a, q) && NoStartIn(b, q)
    ensures NoStartIn(a + b, q)
  {
    forall i | 0 <= i < |a + b| && (a + b)[i] == q[0]
      ensures i + 1 < |a + b| && (a + b)[i + 1] != q[1]
    {
      if i < |a| {
        assert a[i] == q[0];
      } else {
        assert b[i - |a|] == q[0];
      }
    }
  }

  /** Text that no occurrence can start in does not create one in front of text that has none. */
  lemma NoOccurrenceAfter(a: string, b: string, q: string)
    requires |q| >= 2 && NoStartIn(a, q) && !Contains(b, q)
    ensures !Contains(a + b, q)
  {
    forall i | 0 <= i <= |a + b| - |q|
      ensures !OccursAt(a + b, q, i)
    {
      if i < |a| {
        if a[i] == q[0] {
          assert (a + b)[i..i + |q|][1] == a[i + 1] != q[1];
        } else {
          assert (a + b)[i..i + |q|][0] == a[i] != q[0];
        }
      } else {
        assert !OccursAt(b, q, i - |a|);
        assert (a + b)[i..i + |q|] == b[i - |a|..i - |a| + |q|];
      }
    }
  }

  /** The first occurrence of `d` in `t` that is not preceded by a line terminator:
      the lazy `(.*?)d` of a regular expression, `.` not matching line terminators. */
  function FindOnLine(t: string, d: string): (r: Option<nat>)
    requires d != []
    ensures r.Some? ==> OccursAt(t, d, r.value) && NoLineBreak(t[..r.value])
    ensures r.Some? ==> forall j | 0 <= j < r.value :: !OccursAt(t, d, j)
  {
    if StartsWith(t, d) then Some(0)
    else if t == [] || IsLineTerminator(t[0]) then None
    else
      match FindOnLine(t[1..], d)
      case Some(k) =>
        OccursShift(t, d);
        LineShift(t, k);
        Some(k + 1)
      case None => None
  }

  /** An occurrence at `j >= 1` is an occurrence at `j - 1` in the tail. */
  lemma OccursShift(t: string, d: string)
    requires t != []
    ensures forall j | 1 <= j <= |t| :: OccursAt(t, d, j) <==> OccursAt(t[1..], d, j - 1)
    ensures OccursAt(t, d, 0) ==> StartsWith(t, d)
  {
    forall j | 1 <= j <= |t|
      ensures OccursAt(t, d, j) <==> OccursAt(t[1..], d, j - 1)
    {
      if j + |d| <= |t| {
        SliceOfSuffix(t, 1, j - 1, j - 1 + |d|);
      }
    }
    if OccursAt(t, d, 0) {
      assert t[0..|d|] == t[..|d|];
    }
  }

  lemma LineShift(t: string, k: nat)
    requires t != [] && k + 1 <= |t| && !IsLineTerminator(t[0]) && NoLineBreak(t[1..][..k])
    ensures NoLineBreak(t[..k + 1])
  {
    assert t[..k + 1] == [t[0]] + t[1..][..k];
  }

  /** If `d` occurs with no line terminator before it, the lazy search finds something. */
  lemma {:induction false} FindOnLineComplete(t: string, d: string, k: nat)
    requires d != [] && OccursAt(t, d, k) && NoLineBreak(t[..k])
    ensures FindOnLine(t, d).Some?
    decreases k
  {
    if !StartsWith(t, d) {
      assert k > 0 && t[0] == t[..k][0];
      assert OccursAt(t[1..], d, k - 1);
      assert t[1..][..k - 1] == t[1..k];
      FindOnLineComplete(t[1..], d, k - 1);
    }
  }

  /** The first occurrence of `d` in `t`: the lazy `([\s\S]*?)d` of a regular expression. */
  function FindFirst(t: string, d: string): (r: Option<nat>)
    requires d != []
    ensures r.Some? ==> OccursAt(t, d, r.value)
    ensures r.Some? ==> forall j | 0 <= j < r.value :: !OccursAt(t, d, j)
    ensures r.None? ==> !Contains(t, d)
  {
    if StartsWith(t, d) then Some(0)
    else if t == [] then None
    else
      match FindFirst(t[1..], d)
      case Some(k) =>
        OccursShift(t, d);
        Some(k + 1)
      case None =>
        OccursShift(t, d);
        None
  }

  /** In `x + [c, c] + y`, where `x` holds no `cc` and does not end in `c`, the first
      `cc` is the one right after `x`. */
  lemma FirstPairAfter(x: string, c: char, y: string)
    requires !Contains(x, [c, c]) && (x == [] || x[|x| - 1] != c)
    ensures OccursAt(x + [c, c] + y, [c, c], |x|)
    ensures forall j | 0 <= j < |x| :: !OccursAt(x + [c, c] + y, [c, c], j)
  {
    var t := x + [c, c] + y;
    assert t[|x|..|x| + 2] == [c, c];
    forall j | 0 <= j < |x|
      ensures !OccursAt(t, [c, c], j)
    {
      if j + 1 < |x| {
        assert !OccursAt(x, [c, c], j);
        assert t[j..j + 2] == x[j..j + 2];
      } else {
        assert t[j..j + 2][0] == x[|x| - 1];
      }
    }
  }

  // ---------------------------------------------------------------- split and join

  /** `s.split(c)` for a one-character separator: never empty, and `[""]` for `""`. */
  function SplitOn(s: string, c: char): (parts: seq<string>)
    ensures |parts| >= 1
    ensures forall k | 0 <= k < |parts| :: c !in parts[k]
    ensures JoinWith(parts, c) == s
  {
    if s == [] then [[]]
    else
      var rest := SplitOn(s[1..], c);
      if s[0] == c then
        assert ([[]] + rest)[1..] == rest;
        [[]] + rest
      else
        var parts := [[s[0]] + rest[0]] + rest[1..];
        assert |rest| > 1 ==> JoinWith(rest, c) == rest[0] + [c] + JoinWith(rest[1..], c);
        assert |rest| > 1 ==> parts[1..] == rest[1..];
        parts
  }

  /** `parts.join(c)`. */
  function JoinWith(parts: seq<string>, c: char): string
    requires |parts| >= 1
  {
    if |parts| == 1 then parts[0] else parts[0] + [c] + JoinWith(parts[1..], c)
  }

  lemma {:induction false} SplitNoSeparator(s: string, c: char)
    requires c !in s
    ensures SplitOn(s, c) == [s]
  {
    if s != [] {
      SplitNoSeparator(s[1..], c);
    }
  }

  lemma {:induction false} SplitAtFirst(x: string, y: string, c: char)
    requires c !in x
    ensures SplitOn(x + [c] + y, c) == [x] + SplitOn(y, c)
  {
    if x == [] {
      assert ([c] + y)[1..] == y;
    } else {
      assert (x + [c] + y)[1..] == x[1..] + [c] + y;
      SplitAtFirst(x[1..], y, c);
      assert [x[0]] + x[1..] == x;
    }
  }

  /** Splitting a joined list gives the list back, when no part holds the separator;
      with the `ensures` of `SplitOn`, split and join are inverse to each other. */
  lemma {:induction false} SplitJoin(parts: seq<string>, c: char)
    requires |parts| >= 1
    requires forall k | 0 <= k < |parts| :: c !in parts[k]
    ensures SplitOn(JoinWith(parts, c), c) == parts
    decreases |parts|
  {
    if |parts| == 1 {
      SplitNoSeparator(parts[0], c);
    } else {
      SplitJoin(parts[1..], c);
      SplitAtFirst(parts[0], JoinWith(parts[1..], c), c);
    }
  }

  /** `s.split(c)[0]`: everything before the first `c`. */
  function Before(s: string, c: char): (r: string)
    ensures c !in r && StartsWith(s, r)
    ensures c !in s ==> r == s
  {
    var parts := SplitOn(s, c);
    assert |parts| > 1 ==> s == parts[0] + [c] + JoinWith(parts[1..], c);
    assert c !in s ==> parts == [s] by {
      if c !in s { SplitNoSeparator(s, c); }
    }
    parts[0]
  }

  /** `s.replace(/c/g, '')` for a single character `c`. */
  function Without(s: string, c: char): (r: string)
    ensures |r| <= |s|
  {
    if s == [] then [] else (if s[0] == c then [] else [s[0]]) + Without(s[1..], c)
  }

  /** `Without` removes every `c` and keeps only characters of `s`; text without `c`
      is left as it is. */
  lemma {:induction false} WithoutRemoves(s: string, c: char)
    ensures c !in Without(s, c)
    ensures forall x | x in Without(s, c) :: x in s
    ensures c !in s ==> Without(s, c) == s
  {
    if s != [] {
      WithoutRemoves(s[1..], c);
      var head: string := if s[0] == c then [] else [s[0]];
      assert Without(s, c) == head + Without(s[1..], c);
      forall x | x in Without(s, c)
        ensures x in s
      {
        if x !in head {
          assert x in Without(s[1..], c);
          assert x in s[1..];
        }
      }
      if c !in s {
        assert c !in s[1..];
        assert s == [s[0]] + s[1..];
      }
    }
  }

  lemma {:induction false} WithoutConcat(a: string, b: string, c: char)
    ensures Without(a + b, c) == Without(a, c) + Without(b, c)
  {
    if a != [] {
      assert (a + b)[1..] == a[1..] + b;
      WithoutConcat(a[1..], b, c);
    } else {
      assert a + b == b;
    }
  }

  // ---------------------------------------------------------------- case mapping

  function UpperChar(c: char): char {
    if 'a' <= c <= 'z' then (c as int - 32) as char else c
  }

  function LowerChar(c: char): char {
    if 'A' <= c <= 'Z' then (c as int + 32) as char else c
  }

  /** `toUpperCase`, on ASCII letters. */
  function Upper(s: string): (r: string)
    ensures |r| == |s| && forall i | 0 <= i < |s| :: r[i] == UpperChar(s[i])
  {
    seq(|s|, i requires 0 <= i < |s| => UpperChar(s[i]))
  }

  /** `toLowerCase`, on ASCII letters. */
  function Lower(s: string): (r: string)
    ensures |r| == |s| && forall i | 0 <= i < |s| :: r[i] == LowerChar(s[i])
  {
    seq(|s|, i requires 0 <= i < |s| => LowerChar(s[i]))
  }
}
