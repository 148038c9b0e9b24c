/** The first stage of `renderMarkdownBlocks`: the processed content is cut at every
    match of the global pattern `/```mermaid\s*\n([\s\S]*?)\n```/g` into text parts
    (dropped when blank) and diagram parts (the captured chart source). */
module Mermaid {
  import opened Wrappers
  import opened Strings

  datatype Part = Text(content: string) | Diagram(chart: string)

  const Fence: string := "```mermaid"

  /** What closes a chart: a newline and three backticks. */
  const Close: string := "\n```"

  /** `\s*\n([\s\S]*?)\n```` after the fence, the `\s*` taking `w` characters and giving
      them back one at a time until a newline follows and the lazy body finds a close.
      The result is the start and the end of the body within `t`. */
  function TryNewline(t: string, w: nat): (r: Option<(nat, nat)>)
    requires w <= |t|
    ensures r.Some? ==> 0 < r.value.0 <= r.value.1 && r.value.1 + 4 <= |t|
    decreases w
  {
    var b := w + 1;
    if w < |t| && t[w] == '\n' && FindFirst(t[b..], Close).Some? then
      Some((b, b + FindFirst(t[b..], Close).value))
    else if w == 0 then None
    else TryNewline(t, w - 1)
  }

  /** What a pattern tried at the start of a text gives: no match, or the start and the
      end of the chart it captures. */
  datatype Capture = NoMatch | Capture(bodyStart: int, bodyEnd: int)

  /** The pattern matched at the very start of `t`: the start and end of the chart. */
  function MatchHere(t: string): (r: Capture)
    ensures r.Capture? ==> StartsWith(t, Fence) && 10 < r.bodyStart <= r.bodyEnd && r.bodyEnd + 4 <= |t|
  {
    if StartsWith(t, Fence) then
      var rest := t[10..];
      match TryNewline(rest, WsRun(rest))
      case Some((b, e)) => Capture(10 + b, 10 + e)
      case None => NoMatch
    else NoMatch
  }

  /** A matcher tried at the start of a text: the start and the end of the chart it
      captures. The mermaid pattern is `MatchHere`; the exec loop below works for any. */
  type Matcher = string -> Capture

  /** `m` matches at the start of `x`: its chart starts after at least one character
      and the four characters of a close follow it within `x`. */
  predicate Fits(x: string, m: Matcher) {
    m(x).Capture? && 0 < m(x).bodyStart <= m(x).bodyEnd && m(x).bodyEnd + 4 <= |x|
  }

  /** The search of `mermaidRegex.exec` from `lastIndex` = `i`: the first position from
      `i` on where the pattern matches. */
  function SearchFrom(t: string, i: nat, m: Matcher): Option<nat>
    requires i <= |t|
    decreases |t| - i
  {
    if Fits(t[i..], m) then Some(i)
    else if i == |t| then None
    else SearchFrom(t, i + 1, m)
  }

  /** What the search finds is a position from `i` on where the pattern matches. */
  lemma {:induction false} SearchFromFits(t: string, i: nat, m: Matcher)
    requires i <= |t| && SearchFrom(t, i, m).Some?
    ensures i <= SearchFrom(t, i, m).value <= |t| && Fits(t[SearchFrom(t, i, m).value..], m)
    decreases |t| - i
  {
    if !Fits(t[i..], m) {
      SearchFromFits(t, i + 1, m);
    }
  }

  /** The search finds the leftmost position where the pattern matches, or none. */
  lemma {:induction false} SearchFromLeftmost(t: string, i: nat, m: Matcher)
    requires i <= |t|
    ensures SearchFrom(t, i, m).Some? ==>
      SearchFrom(t, i, m).value <= |t| && forall j | i <= j < SearchFrom(t, i, m).value :: !Fits(t[j..], m)
    ensures SearchFrom(t, i, m).None? ==> forall j | i <= j <= |t| :: !Fits(t[j..], m)
    decreases |t| - i
  {
    if SearchFrom(t, i, m).Some? {
      SearchFromFits(t, i, m);
    }
    if !Fits(t[i..], m) && i < |t| {
      SearchFromLeftmost(t, i + 1, m);
    }
  }


  /** The text `x` as a part when it passes `keep`, and nothing otherwise. */
  function KeepText(x: string, keep: string -> bool): seq<Part> {
    if keep(x) then [Text(x)] else []
  }

  /** The parts of `x`, in order: the text up to the first match, its chart, and the
      parts of what follows the match's closing backticks. */
  function PartsOf(x: string, m: Matcher, keep: string -> bool): seq<Part>
    decreases |x|
  {
    match SearchFrom(x, 0, m)
    case Some(r) =>
      SearchFromFits(x, 0, m);
      var h := m(x[r..]);
      KeepText(x[..r], keep) + [Diagram(x[r + h.bodyStart..r + h.bodyEnd])] + PartsOf(x[r + h.bodyEnd + 4..], m, keep)
    case None => KeepText(x, keep)
  }

  /** The loop itself, for the pattern `m` and the test `keep` on the text between
      matches. */
  method SplitBlocks(content: string, m: Matcher, keep: string -> bool) returns (parts: seq<Part>)
    ensures parts == PartsOf(content, m, keep)
  {
    parts := [];
    var lastIndex := 0;
    while SearchFrom(content, lastIndex, m).Some?
      invariant lastIndex <= |content|
      invariant parts + PartsOf(content[lastIndex..], m, keep) == PartsOf(content, m, keep)
      decreases |content| - lastIndex
    {
      parts, lastIndex := TakeMatch(parts, content, lastIndex, m, keep);
    }
    PartsEnd(parts, content, lastIndex, m, keep);
    parts := PushText(parts, content[lastIndex..], keep);
  }

  /** The body of the loop: the text before the match found from `lastIndex`, then its
      chart; the search goes on after the close. */
  method TakeMatch(parts: seq<Part>, content: string, lastIndex: nat, m: Matcher, keep: string -> bool)
    returns (parts': seq<Part>, next: nat)
    requires lastIndex <= |content| && SearchFrom(content, lastIndex, m).Some?
    requires parts + PartsOf(content[lastIndex..], m, keep) == PartsOf(content, m, keep)
    ensures lastIndex < next <= |content|
    ensures parts' + PartsOf(content[next..], m, keep) == PartsOf(content, m, keep)
  {
    SearchFromFits(content, lastIndex, m);
    SuffixSearch(content, lastIndex, m);
    var start := SearchFrom(content, lastIndex, m).value;
    var h := m(content[start..]);
    var bodyStart, bodyEnd := h.bodyStart, h.bodyEnd;
    PartsStep(parts, content, lastIndex, start, bodyStart, bodyEnd, m, keep, PartsOf(content, m, keep));
    parts' := PushText(parts, content[lastIndex..start], keep);
    parts' := parts' + [Diagram(content[start + bodyStart..start + bodyEnd])];
    next := start + bodyEnd + 4;
  }

  /** Appends `x` as a text part when it passes the keep test. */
  method PushText(parts: seq<Part>, x: string, keep: string -> bool) returns (r: seq<Part>)
    ensures r == parts + KeepText(x, keep)
  {
    r := parts;
    if keep(x) {
      r := r + [Text(x)];
    }
  }

  /** One turn of the loop: the parts from `i` on are the text up to the match at `r`
      found from `i`, its chart `t[r + s..r + e]`, and the parts after its close. */
  lemma PartsStep(done: seq<Part>, t: string, i: nat, r: nat, s: nat, e: nat, m: Matcher, keep: string -> bool, whole: seq<Part>)
    requires i <= r <= |t| && SearchFrom(t[i..], 0, m) == Some(r - i)
    requires m(t[r..]).Capture? && m(t[r..]).bodyStart == s && m(t[r..]).bodyEnd == e
    requires s <= e && r + e + 4 <= |t|
    requires done + PartsOf(t[i..], m, keep) == whole
    ensures (done + KeepText(t[i..r], keep)) + [Diagram(t[r + s..r + e])] + PartsOf(t[r + e + 4..], m, keep) == whole
  {
    SuffixChart(t, i, r, s, e, m);
    ChartAt(t[i..], r - i, s, e, t[i..r], t[r + s..r + e], t[r + e + 4..], m, keep);
    RegroupStep(done, PartsOf(t[i..], m, keep), KeepText(t[i..r], keep), [Diagram(t[r + s..r + e])], PartsOf(t[r + e + 4..], m, keep), whole);
  }

  /** The match found from `i` in `t` is the first match in `t[i..]`. */
  lemma SuffixSearch(t: string, i: nat, m: Matcher)
    requires i <= |t| && SearchFrom(t, i, m).Some?
    ensures SearchFrom(t[i..], 0, m) == Some(SearchFrom(t, i, m).value - i)
  {
    SearchFromSuffix(t, i, 0, m);
  }

  /** Where the pieces of `t[r..]` lie within `t[i..]`. */
  lemma SuffixChart(t: string, i: nat, r: nat, s: nat, e: nat, m: Matcher)
    requires i <= r <= |t| && m(t[r..]).Capture? && m(t[r..]).bodyStart == s && m(t[r..]).bodyEnd == e
    requires s <= e && r + e + 4 <= |t|
    ensures r - i <= |t[i..]|
    ensures m(t[i..][r - i..]).Capture? && m(t[i..][r - i..]).bodyStart == s && m(t[i..][r - i..]).bodyEnd == e
    ensures r - i + e + 4 <= |t[i..]| && t[i..][..r - i] == t[i..r]
    ensures t[i..][r - i + s..r - i + e] == t[r + s..r + e] && t[i..][r - i + e + 4..] == t[r + e + 4..]
  {
    DropOfSuffix(t, i, r - i);
    TakeOfSuffix(t, i, r - i);
    SliceOfSuffix(t, i, r - i + s, r - i + e);
    DropOfSuffix(t, i, r - i + e + 4);
  }

  /** After the loop: no match is left, so the rest is at most one text part. */
  lemma PartsEnd(done: seq<Part>, t: string, i: nat, m: Matcher, keep: string -> bool)
    requires i <= |t| && SearchFrom(t, i, m).None?
    requires done + PartsOf(t[i..], m, keep) == PartsOf(t, m, keep)
    ensures done + KeepText(t[i..], keep) == PartsOf(t, m, keep)
  {
    SearchFromSuffix(t, i, 0, m);
  }

  lemma RegroupStep(done: seq<Part>, rest: seq<Part>, text: seq<Part>, chart: seq<Part>, after: seq<Part>, whole: seq<Part>)
    requires done + rest == whole && rest == text + chart + after
    ensures (done + text) + chart + after == whole
  {
    assert done + (text + chart + after) == (done + text) + chart + after;
  }

  /** The search from `k + i` in `t` is the search from `i` in `t[k..]`, shifted by `k`. */
  lemma {:induction false} SearchFromSuffix(t: string, k: nat, i: nat, m: Matcher)
    requires k + i <= |t|
    ensures SearchFrom(t, k + i, m).Some? <==> SearchFrom(t[k..], i, m).Some?
    ensures SearchFrom(t, k + i, m).Some? ==> SearchFrom(t, k + i, m).value == k + SearchFrom(t[k..], i, m).value
    decreases |t| - k - i
  {
    assert t[k + i..] == t[k..][i..];
    if !Fits(t[k + i..], m) && k + i < |t| {
      SearchFromSuffix(t, k, i + 1, m);
    }
  }

  /** When no position from `i` up to `k` fits and `k` does, the search from `i` finds `k`. */
  lemma {:induction false} SearchFindsFirst(t: string, i: nat, k: nat, m: Matcher)
    requires i <= k <= |t| && (forall j | i <= j < k :: !Fits(t[j..], m)) && Fits(t[k..], m)
    ensures SearchFrom(t, i, m) == Some(k)
    decreases k - i
  {
    if i < k {
      SearchFindsFirst(t, i + 1, k, m);
    }
  }

  /** No match anywhere: the text is one part, or nothing when it fails `keep`. */
  lemma NoMatchIsText(t: string, m: Matcher, keep: string -> bool)
    requires forall j | 0 <= j <= |t| :: !Fits(t[j..], m)
    ensures PartsOf(t, m, keep) == KeepText(t, keep)
  {
    if SearchFrom(t, 0, m).Some? {
      SearchFromFits(t, 0, m);
    }
  }

  /** Every text part passes `keep`, and a chart holds no close when the matcher never
      captures one. */
  lemma {:induction false} PartsOfShape(t: string, m: Matcher, keep: string -> bool)
    ensures forall p | p in PartsOf(t, m, keep) :: p.Text? ==> keep(p.content)
    ensures (forall x | Fits(x, m) :: !Contains(x[m(x).bodyStart..m(x).bodyEnd], Close)) ==>
      forall p | p in PartsOf(t, m, keep) :: p.Diagram? ==> !Contains(p.chart, Close)
    decreases |t|
  {
    match SearchFrom(t, 0, m)
    case Some(r) =>
      SearchFromFits(t, 0, m);
      var u := t[r..];
      var h := m(u);
      assert u[h.bodyStart..h.bodyEnd] == t[r + h.bodyStart..r + h.bodyEnd];
      PartsOfShape(t[r + h.bodyEnd + 4..], m, keep);
    case None =>
  }

  /** The parts of `t` when the pattern first matches at `k`, capturing the chart
      `t[k + s..k + e]`: the text before it, the chart, then the parts after its close. */
  lemma PartsOfAt(t: string, k: nat, s: nat, e: nat, m: Matcher, keep: string -> bool)
    requires k <= |t| && SearchFrom(t, 0, m) == Some(k)
    requires m(t[k..]).Capture? && m(t[k..]).bodyStart == s && m(t[k..]).bodyEnd == e && s <= e && k + e + 4 <= |t|
    ensures PartsOf(t, m, keep) == KeepText(t[..k], keep) + [Diagram(t[k + s..k + e])] + PartsOf(t[k + e + 4..], m, keep)
  {
  }

  /** `PartsOfAt` with the pieces named: the text `a` before the chart, its `body` and
      the `rest` after its close. */
  lemma ChartAt(t: string, k: nat, s: nat, e: nat, a: string, body: string, rest: string, m: Matcher, keep: string -> bool)
    requires k <= |t| && SearchFrom(t, 0, m) == Some(k)
    requires m(t[k..]).Capture? && m(t[k..]).bodyStart == s && m(t[k..]).bodyEnd == e
    requires s <= e && k + e + 4 <= |t| && t[..k] == a && t[k + s..k + e] == body && t[k + e + 4..] == rest
    ensures PartsOf(t, m, keep) == KeepText(a, keep) + [Diagram(body)] + PartsOf(rest, m, keep)
  {
    PartsOfAt(t, k, s, e, m, keep);
  }

  /** `x.trim().length > 0`: the test a text part must pass to be kept. */
  predicate NonBlank(x: string) {
    |Trim(x)| > 0
  }

  /** The parts of the whole processed content. */
  function Parts(t: string): seq<Part> {
    PartsOf(t, MatchHere, NonBlank)
  }

  /** The `while ((match = mermaidRegex.exec(processedContent)) !== null)` loop and the
      trailing text after it. */
  method SplitMermaidBlocks(content: string) returns (parts: seq<Part>)
    ensures parts == Parts(content)
  {
    parts := SplitBlocks(content, MatchHere, NonBlank);
  }

  /** A chart ends at a close and holds none: the lazy body stops at the first one. */
  lemma {:induction false} TryNewlineChart(t: string, w: nat)
    requires w <= |t| && TryNewline(t, w).Some?
    ensures OccursAt(t, Close, TryNewline(t, w).value.1)
    ensures !Contains(t[TryNewline(t, w).value.0..TryNewline(t, w).value.1], Close)
    decreases w
  {
    var b := w + 1;
    if w < |t| && t[w] == '\n' && FindFirst(t[b..], Close).Some? {
      var k := FindFirst(t[b..], Close).value;
      assert t[b..][k..k + 4] == t[b + k..b + k + 4];
      NothingBeforeFirst(t[b..], Close, k);
      assert t[b..][..k] == t[b..b + k];
    } else {
      TryNewlineChart(t, w - 1);
    }
  }

  /** The mermaid pattern's chart is followed by a close and holds none. */
  lemma MatchHereChart(t: string)
    requires MatchHere(t).Capture?
    ensures OccursAt(t, Close, MatchHere(t).bodyEnd)
    ensures !Contains(t[MatchHere(t).bodyStart..MatchHere(t).bodyEnd], Close)
  {
    var rest := t[10..];
    TryNewlineChart(rest, WsRun(rest));
    var (b, e) := TryNewline(rest, WsRun(rest)).value;
    assert rest[e..e + 4] == t[10 + e..10 + e + 4];
    assert rest[b..e] == t[10 + b..10 + e];
  }

  /** Text parts of the processed content are never blank, and no chart holds the
      closing newline and backticks. */
  lemma PartsShape(t: string)
    ensures forall p | p in Parts(t) :: p.Text? ==> Trim(p.content) != []
    ensures forall p | p in Parts(t) :: p.Diagram? ==> !Contains(p.chart, Close)
  {
    forall x | Fits(x, MatchHere)
      ensures !Contains(x[MatchHere(x).bodyStart..MatchHere(x).bodyEnd], Close)
    {
      MatchHereChart(x);
    }
    PartsOfShape(t, MatchHere, NonBlank);
  }

  /** No occurrence lies wholly before the first one. */
  lemma NothingBeforeFirst(t: string, d: string, k: nat)
    requires d != [] && k <= |t| && forall j | 0 <= j < k :: !OccursAt(t, d, j)
    ensures !Contains(t[..k], d)
  {
    forall j | 0 <= j <= k - |d|
      ensures !OccursAt(t[..k], d, j)
    {
      assert !OccursAt(t, d, j);
      assert t[..k][j..j + |d|] == t[j..j + |d|];
    }
  }

  /** Without a fence the pattern matches nowhere. */
  lemma NoFenceNoMatch(t: string)
    requires !Contains(t, Fence)
    ensures forall i | 0 <= i <= |t| :: !StartsWith(t[i..], Fence)
  {
    forall i | 0 <= i <= |t|
      ensures !StartsWith(t[i..], Fence)
    {
      if |t[i..]| >= 10 {
        assert !OccursAt(t, Fence, i);
        assert t[i..][..10] == t[i..i + 10];
      }
    }
  }

  /** Content without a fence is a single text part, or nothing when it is blank. */
  lemma NoFenceIsText(t: string)
    requires !Contains(t, Fence)
    ensures Parts(t) == KeepText(t, NonBlank)
  {
    NoFenceNoMatch(t);
    forall i | 0 <= i <= |t|
      ensures MatchHere(t[i..]).NoMatch?
    {
      assert !StartsWith(t[i..], Fence);
    }
    NoMatchIsText(t, MatchHere, NonBlank);
  }

  /** The first `\n```` of `body + "\n```" + b` is the one right after `body` when `body`
      holds none: a close cannot start inside `body` and run into the next one, whose
      newline stands where the close would need a backtick. */
  lemma FirstCloseAfter(body: string, b: string)
    requires !Contains(body, Close)
    ensures FindFirst(body + Close + b, Close) == Some(|body|)
  {
    var t := body + Close + b;
    assert t[|body|..|body| + 4] == Close;
    assert OccursAt(t, Close, |body|);
    forall j | 0 <= j < |body|
      ensures !OccursAt(t, Close, j)
    {
      if j + 4 <= |body| {
        assert !OccursAt(body, Close, j);
        assert t[j..j + 4] == body[j..j + 4];
      } else if j + 4 <= |t| {
        assert t[j..j + 4][|body| - j] == '\n';
      }
    }
    var v := FindFirst(t, Close).value;
    assert OccursAt(t, Close, v);
  }

  /** A fenced chart whose first character is not whitespace and that holds no close is
      cut out exactly: the text before it (when not blank), the chart, then the parts
      of what follows. A first text without backticks cannot hold an earlier fence. */
  lemma FencedChart(a: string, body: string, b: string)
    requires '`' !in a
    requires body != [] && !IsWhitespace(body[0]) && !Contains(body, Close)
    ensures Parts(a + Fence + "\n" + body + Close + b) == KeepText(a, NonBlank) + [Diagram(body)] + Parts(b)
  {
    var t := a + (Fence + "\n" + body + Close + b);
    FenceShape(a, body, b);
    FencedChartMatches(a, body, b);
    SearchFindsFirst(t, 0, |a|, MatchHere);
    ChartAt(t, |a|, 11, 11 + |body|, a, body, b, MatchHere, NonBlank);
  }

  /** Where the pattern matches in a fenced chart preceded by text without backticks. */
  lemma FencedChartMatches(a: string, body: string, b: string)
    requires '`' !in a
    requires body != [] && !IsWhitespace(body[0]) && !Contains(body, Close)
    ensures forall i | 0 <= i < |a| :: !Fits((a + (Fence + "\n" + body + Close + b))[i..], MatchHere)
    ensures Fits((a + (Fence + "\n" + body + Close + b))[|a|..], MatchHere)
    ensures MatchHere((a + (Fence + "\n" + body + Close + b))[|a|..]) == Capture(11, 11 + |body|)
  {
    var u := Fence + "\n" + body + Close + b;
    var t := a + u;
    forall i | 0 <= i < |a|
      ensures MatchHere(t[i..]).NoMatch?
    {
      assert t[i..][0] == a[i];
      if |t[i..]| >= 10 {
        assert t[i..][..10][0] == t[i..][0];
      }
    }
    ChartAtStart(body, b);
    assert t[|a|..] == u;
  }

  /** Where the parts of a fenced chart lie in the text. */
  lemma FenceShape(a: string, body: string, b: string)
    ensures |a + (Fence + "\n" + body + Close + b)| == |a| + 11 + |body| + 4 + |b|
    ensures a + Fence + "\n" + body + Close + b == a + (Fence + "\n" + body + Close + b)
    ensures (a + (Fence + "\n" + body + Close + b))[0..|a|] == a
    ensures (a + (Fence + "\n" + body + Close + b))[|a| + 11..|a| + 11 + |body|] == body
    ensures (a + (Fence + "\n" + body + Close + b))[|a| + 11 + |body| + 4..] == b
  {
  }

  /** A chart right at the start is matched with its body exactly. */
  lemma ChartAtStart(body: string, b: string)
    requires body != [] && !IsWhitespace(body[0]) && !Contains(body, Close)
    ensures MatchHere(Fence + "\n" + body + Close + b) == Capture(11, 11 + |body|)
  {
    var u := Fence + "\n" + body + Close + b;
    assert u[..10] == Fence;
    var v := u[10..];
    assert v == "\n" + body + Close + b;
    assert v[1] == body[0];
    assert WsRun(v) == 1 by {
      assert WsRun(v[1..]) == 0;
    }
    assert v[1..] == body + Close + b;
    FirstCloseAfter(body, b);
    assert TryNewline(v, 0) == Some((1, 1 + |body|));
  }
}
