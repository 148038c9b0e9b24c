/** `String.prototype.replace` with a global regular expression: the text is
    scanned left to right; where the pattern matches, the match is replaced and the
    scan resumes after it; elsewhere one character is copied and the scan moves on.
    A replacement is never scanned again. The pattern is a `Rule`: given the rest of
    the text, it says whether a match starts here, how long it is, and what replaces
    it. None of the source's patterns can match the empty string. */
module Replacing {
  import opened Wrappers
  import opened Strings

  datatype Hit = Hit(len: nat, replacement: string)

  type Rule = string -> Option<Hit>

  /** Every match consumes at least one character of the text it was given. */
  ghost predicate Consumes(rule: Rule) {
    forall t :: rule(t).Some? ==> 0 < rule(t).value.len <= |t|
  }

  /** Every replacement starts with the character `m`. */
  ghost predicate Marked(rule: Rule, m: char) {
    forall t :: rule(t).Some? ==> rule(t).value.replacement != [] && rule(t).value.replacement[0] == m
  }

  /** No occurrence of `q` can start inside a replacement. */
  ghost predicate StartsNoneIn(rule: Rule, q: string)
    requires |q| >= 2
  {
    forall t :: rule(t).Some? ==> NoStartIn(rule(t).value.replacement, q)
  }

  function ReplaceAll(s: string, rule: Rule): string
    requires Consumes(rule)
    decreases |s|
  {
    if s == [] then []
    else
      match rule(s)
      case Some(h) => h.replacement + ReplaceAll(s[h.len..], rule)
      case None => [s[0]] + ReplaceAll(s[1..], rule)
  }

  /** The literal pattern `p` (a regular expression without metacharacters) replaced by `r`. */
  function Literal(p: string, r: string): Rule {
    t => if StartsWith(t, p) then Some(Hit(|p|, r)) else None
  }

  lemma LiteralConsumes(p: string, r: string)
    requires p != []
    ensures Consumes(Literal(p, r))
  {
  }

  /** Text before the first place the pattern matches is copied unchanged. */
  lemma {:induction false} CopiesUpToFirstHit(s: string, rule: Rule, j: nat)
    requires Consumes(rule)
    requires j <= |s|
    requires forall i | 0 <= i < j :: rule(s[i..]).None?
    ensures ReplaceAll(s, rule) == s[..j] + ReplaceAll(s[j..], rule)
    decreases j
  {
    if j > 0 {
      assert s[0..] == s;
      NoHitShifted(s, rule, j);
      CopiesUpToFirstHit(s[1..], rule, j - 1);
      ConsSlices(s, j);
      assert ReplaceAll(s, rule) == [s[0]] + ReplaceAll(s[1..], rule);
      CopyJoin(ReplaceAll(s, rule), s[0], ReplaceAll(s[1..], rule), s[1..][..j - 1], ReplaceAll(s[j..], rule), s[..j]);
    }
  }

  /** One copied character in front of a copied prefix and the rest. */
  lemma CopyJoin(whole: string, c: char, tail: string, copied: string, rest: string, front: string)
    requires whole == [c] + tail && tail == copied + rest && front == [c] + copied
    ensures whole == front + rest
  {
    Regroup([], [c], copied, rest);
  }

  lemma NoHitShifted(s: string, rule: Rule, j: nat)
    requires 0 < j <= |s|
    requires forall i | 0 <= i < j :: rule(s[i..]).None?
    ensures forall i | 0 <= i < j - 1 :: rule(s[1..][i..]).None?
  {
    forall i | 0 <= i < j - 1
      ensures rule(s[1..][i..]).None?
    {
      assert s[1..][i..] == s[i + 1..];
    }
  }

  lemma ConsSlices(s: string, j: nat)
    requires 0 < j <= |s|
    ensures s[1..][j - 1..] == s[j..] && s[..j] == [s[0]] + s[1..][..j - 1]
  {
  }

  /** Up to the first replacement, the output agrees with the input; so any prefix
      of the output either is a prefix of the input or holds the marker `m`. */
  lemma {:induction false} PrefixKept(s: string, rule: Rule, m: char, n: nat)
    requires Consumes(rule) && Marked(rule, m)
    requires n <= |ReplaceAll(s, rule)|
    ensures (n <= |s| && ReplaceAll(s, rule)[..n] == s[..n]) || m in ReplaceAll(s, rule)[..n]
    decreases |s|
  {
    if n > 0 && s != [] {
      var out := ReplaceAll(s, rule);
      match rule(s)
      case Some(h) =>
        assert out[..n][0] == h.replacement[0] == m;
      case None =>
        var rest := ReplaceAll(s[1..], rule);
        assert out == [s[0]] + rest;
        PrefixKept(s[1..], rule, m, n - 1);
        ConsPrefix(s[0], rest, n);
        if n - 1 <= |s[1..]| && rest[..n - 1] == s[1..][..n - 1] {
          assert s == [s[0]] + s[1..];
          ConsPrefix(s[0], s[1..], n);
        } else {
          assert m in rest[..n - 1];
        }
    }
  }

  /** The hypothesis "every occurrence of `q` is matched" survives dropping a prefix. */
  lemma OccurrencesMatchedInTail(s: string, rule: Rule, q: string, k: nat)
    requires k <= |s|
    requires forall i: nat :: OccursAt(s, q, i) ==> rule(s[i..]).Some?
    ensures forall i: nat :: OccursAt(s[k..], q, i) ==> rule(s[k..][i..]).Some?
  {
    forall i: nat | OccursAt(s[k..], q, i)
      ensures rule(s[k..][i..]).Some?
    {
      assert s[k + i..k + i + |q|] == s[k..][i..i + |q|];
      assert OccursAt(s, q, k + i);
      assert s[k..][i..] == s[k + i..];
    }
  }

  /** `q` cannot occur in `x` when it occurs neither at its start nor in `x[1..]`. */
  lemma NoOccurrenceFromStart(x: string, q: string)
    requires x != [] && !OccursAt(x, q, 0) && !Contains(x[1..], q)
    ensures !Contains(x, q)
  {
    forall i | 1 <= i <= |x| - |q|
      ensures !OccursAt(x, q, i)
    {
      assert !OccursAt(x[1..], q, i - 1);
      SliceOfSuffix(x, 1, i - 1, i - 1 + |q|);
    }
  }

  /** Where a character is copied, no `q` starts in the output: it would have to be a
      `q` of the input (which the pattern would have matched) or run into a marker. */
  lemma NoOccurrenceAtCopy(s: string, rule: Rule, m: char, q: string)
    requires Consumes(rule) && Marked(rule, m)
    requires s != [] && rule(s).None? && q != [] && m !in q
    requires forall i: nat :: OccursAt(s, q, i) ==> rule(s[i..]).Some?
    ensures !OccursAt([s[0]] + ReplaceAll(s[1..], rule), q, 0)
  {
    var tail := s[1..];
    var rest := ReplaceAll(tail, rule);
    var out := [s[0]] + rest;
    if |q| <= |out| {
      PrefixKept(tail, rule, m, |q| - 1);
      if |q| - 1 <= |tail| && rest[..|q| - 1] == tail[..|q| - 1] {
        assert s[0..] == s;
        assert !OccursAt(s, q, 0);
        SameStart(s, rest, |q|);
      } else {
        MarkerInStart(s[0], rest, q, m);
      }
    }
  }

  /** A copied first character followed by a copy of the input keeps the input's start. */
  lemma SameStart(s: string, rest: string, n: nat)
    requires 0 < n <= |s| && n - 1 <= |rest| && rest[..n - 1] == s[1..][..n - 1]
    ensures ([s[0]] + rest)[0..n] == s[0..n]
  {
    ConsPrefix(s[0], rest, n);
    assert s == [s[0]] + s[1..];
    ConsPrefix(s[0], s[1..], n);
  }

  /** A start holding a character that `q` lacks is not `q`. */
  lemma MarkerInStart(c: char, rest: string, q: string, m: char)
    requires 0 < |q| <= |rest| + 1 && m in rest[..|q| - 1] && m !in q
    ensures !OccursAt([c] + rest, q, 0)
  {
    var out := [c] + rest;
    ConsPrefix(c, rest, |q|);
    assert out[0..|q|] == out[..|q|];
    var k :| 0 <= k < |q| - 1 && rest[..|q| - 1][k] == m;
    assert out[..|q|][k + 1] == m;
  }

  /** Replacing never creates an occurrence of `q` that was not matched away:
      if every occurrence of `q` in the input is where the pattern matches, no `q`
      remains in the output, provided no occurrence can start inside a replacement
      and every replacement starts with a marker that `q` does not hold (so an
      occurrence can neither start inside a replacement nor run into one). */
  lemma {:induction false} LeavesNoOccurrence(s: string, rule: Rule, m: char, q: string)
    requires Consumes(rule) && Marked(rule, m)
    requires |q| >= 2 && StartsNoneIn(rule, q) && m !in q
    requires forall i: nat :: OccursAt(s, q, i) ==> rule(s[i..]).Some?
    ensures !Contains(ReplaceAll(s, rule), q)
    decreases |s|
  {
    if s != [] {
      match rule(s)
      case Some(h) =>
        OccurrencesMatchedInTail(s, rule, q, h.len);
        LeavesNoOccurrence(s[h.len..], rule, m, q);
        NoOccurrenceAfter(h.replacement, ReplaceAll(s[h.len..], rule), q);
      case None =>
        OccurrencesMatchedInTail(s, rule, q, 1);
        LeavesNoOccurrence(s[1..], rule, m, q);
        NoOccurrenceAtCopy(s, rule, m, q);
        var out := [s[0]] + ReplaceAll(s[1..], rule);
        assert out[1..] == ReplaceAll(s[1..], rule);
        NoOccurrenceFromStart(out, q);
    }
  }

  /** Text in which the pattern matches nowhere is returned unchanged. */
  lemma NoHitKeeps(s: string, rule: Rule)
    requires Consumes(rule)
    requires forall i | 0 <= i < |s| :: rule(s[i..]).None?
    ensures ReplaceAll(s, rule) == s
  {
    CopiesUpToFirstHit(s, rule, |s|);
    assert s[|s|..] == [];
    assert s[..|s|] == s;
  }

  /** Where the pattern matches at the start, its replacement is emitted and the scan
      resumes after the match. */
  lemma ReplacesHit(s: string, rule: Rule)
    requires Consumes(rule) && rule(s).Some?
    ensures ReplaceAll(s, rule) == rule(s).value.replacement + ReplaceAll(s[rule(s).value.len..], rule)
  {
  }

  /** Text in which the pattern does not match is kept up to the first match, which
      is replaced. */
  lemma CopiesThenHit(a: string, t: string, rule: Rule)
    requires Consumes(rule) && rule(t).Some?
    requires forall i | 0 <= i < |a| :: rule((a + t)[i..]).None?
    ensures ReplaceAll(a + t, rule) == a + rule(t).value.replacement + ReplaceAll(t[rule(t).value.len..], rule)
  {
    CopiesUpToFirstHit(a + t, rule, |a|);
    assert (a + t)[..|a|] == a;
    assert (a + t)[|a|..] == t;
    ReplacesHit(t, rule);
  }

  /** The same, for a match of length `n` replaced by `r` and followed by `b`. */
  lemma CopiesThenHitAt(a: string, t: string, rule: Rule, n: nat, r: string, b: string)
    requires Consumes(rule) && rule(t) == Some(Hit(n, r)) && n <= |t| && t[n..] == b
    requires forall i | 0 <= i < |a| :: rule((a + t)[i..]).None?
    ensures ReplaceAll(a + t, rule) == a + r + ReplaceAll(b, rule)
  {
    CopiesThenHit(a, t, rule);
  }

  /** Text without the literal's first character is kept, and the first occurrence of
      the literal after it is replaced. */
  lemma LiteralAtFirst(a: string, p: string, r: string, b: string)
    requires p != [] && p[0] !in a
    ensures ReplaceAll(a + p + b, Literal(p, r)) == a + r + ReplaceAll(b, Literal(p, r))
  {
    var rule := Literal(p, r);
    LiteralConsumes(p, r);
    var pb := p + b;
    var s := a + pb;
    assert s == a + p + b;
    forall i | 0 <= i < |a|
      ensures rule(s[i..]).None?
    {
      assert s[i..][0] == a[i] != p[0];
      if |p| <= |s[i..]| {
        assert s[i..][..|p|][0] == s[i..][0];
      }
    }
    CopiesUpToFirstHit(s, rule, |a|);
    assert s[..|a|] == a;
    assert s[|a|..] == pb;
    assert pb[..|p|] == p;
    ReplacesHit(pb, rule);
    assert pb[|p|..] == b;
  }

  /** A string the literal pattern cannot match in is returned unchanged. */
  lemma {:induction false} LiteralAbsent(s: string, p: string, r: string)
    requires p != [] && !Contains(s, p)
    ensures ReplaceAll(s, Literal(p, r)) == s
    decreases |s|
  {
    LiteralConsumes(p, r);
    if s != [] {
      AbsentHere(s, p, r);
      AbsentInTail(s, p);
      LiteralAbsent(s[1..], p, r);
      assert s == [s[0]] + s[1..];
    }
  }

  lemma AbsentHere(s: string, p: string, r: string)
    requires s != [] && !Contains(s, p)
    ensures Literal(p, r)(s).None?
  {
    if |p| <= |s| {
      assert !OccursAt(s, p, 0);
      assert s[0..|p|] == s[..|p|];
    }
  }

  /** What does not occur in `s` does not occur in its tail. */
  lemma AbsentInTail(s: string, p: string)
    requires s != [] && !Contains(s, p)
    ensures !Contains(s[1..], p)
  {
    forall i | 0 <= i <= |s[1..]| - |p|
      ensures !OccursAt(s[1..], p, i)
    {
      assert !OccursAt(s, p, i + 1);
      SliceOfSuffix(s, 1, i, i + |p|);
    }
  }
}
