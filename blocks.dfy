/** The second stage of `renderMarkdownBlocks`: each text part is cut into lines; lines
    that start with `|` (after trimming) are gathered into a table, every other non-blank
    line becomes one block (list item, numbered item, quote, third- or second-level
    heading, paragraph). Then the whole renderer: substitution first, then the mermaid
    split, then the blocks of every text part. */
module Blocks {
  import opened Wrappers
  import opened Strings
  import opened Replacing
  import opened Types
  import opened Substitution
  import opened Mermaid
  import opened Fragments

  datatype Align = Left | Center | Right

  datatype Block =
    | ListItem(html: string)
    | Numbered(number: string, text: string)
    | Quote(html: string)
    | Heading3(html: string)
    | Heading2(html: string)
    | Paragraph(html: string)
    | Table(header: Option<seq<string>>, alignments: seq<Align>, body: seq<seq<string>>)

  /** A part of the rendered section: a chart handed to the diagram renderer, or the
      blocks of a text part. */
  datatype RenderedPart = Chart(chart: string) | TextBlocks(blocks: seq<Block>)

  /** `s.substring(k)`: the text from `k` on, and nothing when `k` lies past the end. */
  function From(s: string, k: nat): string {
    if k <= |s| then s[k..] else []
  }

  // ---------------------------------------------------------------- **bold**

  const StrongOpen: string := "<strong>"
  const StrongClose: string := "</strong>"

  /** The pattern `\*\*(.*?)\*\*`: the shortest text on one line up to the next `**`. */
  function BoldMatch(t: string): Option<Hit> {
    if StartsWith(t, "**") then
      match FindOnLine(t[2..], "**")
      case Some(k) => Some(Hit(2 + k + 2, StrongOpen + t[2..][..k] + StrongClose))
      case None => None
    else None
  }

  function BoldRule(): Rule {
    t => BoldMatch(t)
  }

  lemma BoldRuleConsumes()
    ensures Consumes(BoldRule())
  {
    forall t | BoldRule()(t).Some?
      ensures 0 < BoldRule()(t).value.len <= |t|
    {
      var k := FindOnLine(t[2..], "**").value;
      assert OccursAt(t[2..], "**", k);
    }
  }

  // `s.replace(/\*\*(.*?)\*\*/g, '<strong>$1</strong>')`: every bold span rendered.
  function Bold(s: string): string {
    BoldRuleConsumes();
    ReplaceAll(s, BoldRule())
  }

  /** Text in which no `**` starts is kept as it is: bold markup only starts at `**`. */
  lemma BoldKeepsPrefix(p: string, r: string)
    requires NoStartIn(p, "**")
    ensures Bold(p + r) == p + Bold(r)
  {
    BoldRuleConsumes();
    var s := p + r;
    forall i | 0 <= i < |p|
      ensures BoldRule()(s[i..]).None?
    {
      NoBoldAt(p, r, i);
    }
    CopiesUpToFirstHit(s, BoldRule(), |p|);
    assert s[..|p|] == p;
    assert s[|p|..] == r;
  }

  lemma NoBoldAt(p: string, r: string, i: nat)
    requires NoStartIn(p, "**") && i < |p|
    ensures BoldRule()((p + r)[i..]).None?
  {
    var t := (p + r)[i..];
    assert t[0] == p[i];
    if |t| >= 2 {
      assert t[..2][0] == t[0];
      assert t[..2][1] == t[1];
      if p[i] == '*' {
        assert t[1] == p[i + 1];
      }
    }
  }

  // ---------------------------------------------------------------- table rows

  /** `row.replace(/^\||\|$/g, '')`: one `|` at the start and one at the end are removed;
      a lone `|` is removed once. */
  function StripPipes(s: string): (r: string)
    ensures |r| <= |s|
  {
    var a := if StartsWith(s, "|") then s[1..] else s;
    if a != [] && a[|a| - 1] == '|' then a[..|a| - 1] else a
  }

  /** `Trim` of every string of the list. */
  function TrimAll(parts: seq<string>): (r: seq<string>)
    ensures |r| == |parts| && forall i {:trigger r[i]} | 0 <= i < |parts| :: r[i] == Trim(parts[i])
  {
    seq(|parts|, i requires 0 <= i < |parts| => Trim(parts[i]))
  }

  /** The columns of a row: trimmed, outer pipes removed, split on `|`. */
  function Columns(row: string): (cols: seq<string>)
    ensures |cols| >= 1 && forall k | 0 <= k < |cols| :: '|' !in cols[k]
  {
    SplitOn(StripPipes(Trim(row)), '|')
  }

  /** The cells of a row, each trimmed. */
  function Cells(row: string): seq<string> {
    TrimAll(Columns(row))
  }

  /** The alignment a separator column asks for: `:---:` centres, `---:` aligns right,
      anything else aligns left. */
  function AlignOf(col: string): Align {
    var c := Trim(col);
    if StartsWith(c, ":") && EndsWith(c, ":") then Center
    else if EndsWith(c, ":") then Right
    else Left
  }

  /** The alignment of every column of a separator row. */
  function Alignments(row: string): (r: seq<Align>)
    ensures |r| == |Columns(row)| && forall i | 0 <= i < |r| :: r[i] == AlignOf(Columns(row)[i])
  {
    var cols := Columns(row);
    seq(|cols|, i requires 0 <= i < |cols| => AlignOf(cols[i]))
  }

  /** `alignments[i] || 'left'`: a column past the separator's is aligned left. */
  function CellAlign(alignments: seq<Align>, i: nat): (a: Align)
    ensures i < |alignments| ==> a == alignments[i]
    ensures i >= |alignments| ==> a == Left
  {
    if i < |alignments| then alignments[i] else Left
  }

  /** Whether the buffered rows have a header: at least two rows, the second holding `---`. */
  predicate HasHeader(buffer: seq<string>) {
    |buffer| >= 2 && Contains(buffer[1], "---")
  }

  /** Each cell is shown with its bold markup rendered. */
  function BoldCells(cells: seq<string>): (r: seq<string>)
    ensures |r| == |cells| && forall i {:trigger r[i]} | 0 <= i < |cells| :: r[i] == Bold(cells[i])
  {
    seq(|cells|, i requires 0 <= i < |cells| => Bold(cells[i]))
  }

  /** Every buffered row split into its cells, each trimmed and bold-rendered. */
  function RowsOf(buffer: seq<string>): (rows: seq<seq<string>>)
    ensures |rows| == |buffer| && forall i {:trigger rows[i]} | 0 <= i < |buffer| :: rows[i] == BoldCells(Cells(buffer[i]))
  {
    seq(|buffer|, i requires 0 <= i < |buffer| => BoldCells(Cells(buffer[i])))
  }

  /** The table the buffered rows make. */
  function TableOf(buffer: seq<string>): Block {
    var rows := RowsOf(buffer);
    if HasHeader(buffer) then Table(Some(rows[0]), Alignments(buffer[1]), rows[2..])
    else Table(None, [], rows)
  }

  /** `flushTable`: nothing for an empty buffer, otherwise one table. */
  function FlushTable(buffer: seq<string>): seq<Block> {
    if buffer == [] then [] else [TableOf(buffer)]
  }

  // ---------------------------------------------------------------- one line

  /** The length of the text up to the first line terminator: the greedy `.*`. */
  function LineRun(s: string): (n: nat)
    ensures n <= |s| && NoLineBreak(s[..n])
    ensures n == |s| || IsLineTerminator(s[n])
  {
    if s != [] && !IsLineTerminator(s[0]) then
      var n := 1 + LineRun(s[1..]);
      assert forall i | 1 <= i < n :: s[..n][i] == s[1..][..n - 1][i - 1];
      n
    else 0
  }

  /** `/^\d+\.\s/` tested and `/^(\d+)\.\s+(.*)/` matched: the number and the text after
      the whitespace, up to a line terminator. */
  function NumberedItem(t: string): (r: Option<(string, string)>)
    ensures r.Some? ==> r.value.0 != [] && AllDigits(r.value.0) && StartsWith(t, r.value.0 + ".")
  {
    var d := DigitRun(t);
    if 0 < d && d + 1 < |t| && t[d] == '.' && IsWhitespace(t[d + 1]) then
      DigitRunIsDigits(t);
      var rest := t[d + 1..];
      var body := rest[WsRun(rest)..];
      assert t[..d + 1] == t[..d] + ".";
      Some((t[..d], body[..LineRun(body)]))
    else None
  }

  lemma {:induction false} DigitRunIsDigits(s: string)
    ensures AllDigits(s[..DigitRun(s)])
    ensures DigitRun(s) == |s| || !IsDigit(s[DigitRun(s)])
  {
    if s != [] && IsDigit(s[0]) {
      DigitRunIsDigits(s[1..]);
      assert forall i | 1 <= i < DigitRun(s) :: s[..DigitRun(s)][i] == s[1..][..DigitRun(s) - 1][i - 1];
    }
  }

  /** The block of one trimmed line that does not start with `|`: nothing for a blank
      line, else the first of list item (`- `, `* `), numbered item, quote (`> `),
      `### `, `## ` and paragraph that fits. Bold markup is rendered everywhere except
      in a numbered item, whose parts are taken from the line as it was. */
  function Classify(t: string): seq<Block> {
    if t == [] then []
    else
      var html := Bold(t);
      if StartsWith(t, "- ") || StartsWith(t, "* ") then [ListItem(From(html, 2))]
      else if NumberedItem(t).Some? then [Numbered(NumberedItem(t).value.0, NumberedItem(t).value.1)]
      else if StartsWith(t, "> ") then [Quote(From(html, 2))]
      else if StartsWith(t, "### ") then [Heading3(From(html, 4))]
      else if StartsWith(t, "## ") then [Heading2(From(html, 3))]
      else [Paragraph(html)]
  }

  // ---------------------------------------------------------------- the lines of a part

  predicate IsTableLine(line: string) {
    StartsWith(Trim(line), "|")
  }

  /** The blocks of `lines` when `buffer` holds the table rows gathered so far. */
  function RenderFrom(lines: seq<string>, buffer: seq<string>): seq<Block> {
    Walk(lines, buffer, FlushTable)
  }

  /** The line loop with the flushing of the table buffer left as a parameter, so that
      the way lines group into tables can be reasoned about apart from how a table is
      built. */
  function Walk(lines: seq<string>, buffer: seq<string>, flush: seq<string> -> seq<Block>): seq<Block>
    decreases |lines|
  {
    if lines == [] then flush(buffer)
    else
      var t := Trim(lines[0]);
      if StartsWith(t, "|") then Walk(lines[1..], buffer + [t], flush)
      else flush(buffer) + Classify(t) + Walk(lines[1..], [], flush)
  }

  /** The blocks of a text part's lines. */
  function RenderLines(lines: seq<string>): seq<Block> {
    RenderFrom(lines, [])
  }

  /** `flushTable` on the component's `elements` and `tableBuffer`. */
  method Flush(elements: seq<Block>, tableBuffer: seq<string>) returns (elements': seq<Block>, tableBuffer': seq<string>)
    ensures elements' == elements + FlushTable(tableBuffer) && tableBuffer' == []
  {
    elements', tableBuffer' := elements, tableBuffer;
    if |tableBuffer'| == 0 {
      return;
    }
    var hasHeader := |tableBuffer'| >= 2 && Contains(tableBuffer'[1], "---");
    var rows := RowsOf(tableBuffer');
    var alignments := if hasHeader then Alignments(tableBuffer'[1]) else [];
    var headerRow := if hasHeader then Some(rows[0]) else None;
    var bodyRows := if hasHeader then rows[2..] else rows;
    elements' := elements' + [Table(headerRow, alignments, bodyRows)];
    tableBuffer' := [];
  }

  /** One line of the loop: a table line is buffered, any other line flushes the buffer
      and adds its own block. */
  lemma RenderStep(lines: seq<string>, i: nat, buffer: seq<string>)
    requires i < |lines|
    ensures var t := Trim(lines[i]);
      RenderFrom(lines[i..], buffer) ==
        if StartsWith(t, "|") then RenderFrom(lines[i + 1..], buffer + [t])
        else FlushTable(buffer) + Classify(t) + RenderFrom(lines[i + 1..], [])
  {
    assert lines[i..][1..] == lines[i + 1..];
  }

  /** The body of `lines.forEach` for line `i`: a table line is pushed onto the buffer;
      any other line flushes the buffer and then adds its own block. */
  method RenderLine(elements: seq<Block>, tableBuffer: seq<string>, lines: seq<string>, i: nat)
    returns (elements': seq<Block>, tableBuffer': seq<string>)
    requires i < |lines|
    ensures elements' + RenderFrom(lines[i + 1..], tableBuffer') == elements + RenderFrom(lines[i..], tableBuffer)
  {
    var trimmed := Trim(lines[i]);
    RenderStep(lines, i, tableBuffer);
    if StartsWith(trimmed, "|") {
      elements', tableBuffer' := elements, tableBuffer + [trimmed];
    } else {
      elements', tableBuffer' := Flush(elements, tableBuffer);
      elements' := elements' + Classify(trimmed);
      Regroup(elements, FlushTable(tableBuffer), Classify(trimmed), RenderFrom(lines[i + 1..], []));
    }
  }

  /** The `lines.forEach` of a text part and the final `flushTable()`. */
  method RenderText(content: string) returns (elements: seq<Block>)
    ensures elements == RenderLines(SplitOn(content, '\n'))
  {
    var lines := SplitOn(content, '\n');
    elements := [];
    var tableBuffer: seq<string> := [];
    var i := 0;
    while i < |lines|
      invariant 0 <= i <= |lines|
      invariant elements + RenderFrom(lines[i..], tableBuffer) == RenderLines(lines)
    {
      elements, tableBuffer := RenderLine(elements, tableBuffer, lines, i);
      i := i + 1;
    }
    assert lines[i..] == [];
    elements, tableBuffer := Flush(elements, tableBuffer);
  }

  // ---------------------------------------------------------------- what the parser does

  /** A row written as `|c1|c2|…|cn|` gives back its cells, each trimmed: reading a
      table row inverts writing one. */
  lemma CellsOfRow(cells: seq<string>)
    requires |cells| >= 1 && forall k | 0 <= k < |cells| :: '|' !in cells[k]
    ensures Columns("|" + JoinWith(cells, '|') + "|") == cells
    ensures Cells("|" + JoinWith(cells, '|') + "|") == TrimAll(cells)
    ensures Alignments("|" + JoinWith(cells, '|') + "|") == seq(|cells|, i requires 0 <= i < |cells| => AlignOf(cells[i]))
  {
    var row := "|" + JoinWith(cells, '|') + "|";
    RowColumns(cells);
    assert Alignments(row) == seq(|cells|, i requires 0 <= i < |cells| => AlignOf(cells[i]));
  }

  lemma RowColumns(cells: seq<string>)
    requires |cells| >= 1 && forall k | 0 <= k < |cells| :: '|' !in cells[k]
    ensures Columns("|" + JoinWith(cells, '|') + "|") == cells
  {
    var inner := JoinWith(cells, '|');
    Wrapped(inner);
    SplitJoin(cells, '|');
  }

  /** A text between two pipes is trimmed already and loses exactly the two pipes. */
  lemma Wrapped(inner: string)
    ensures Trim("|" + inner + "|") == "|" + inner + "|"
    ensures StripPipes("|" + inner + "|") == inner
  {
    var row := "|" + inner + "|";
    assert row[0] == '|' && row[|row| - 1] == '|';
    TrimKeepsTrimmed(row);
    assert row[1..] == inner + "|";
    assert (inner + "|")[..|inner + "|"| - 1] == inner;
  }

  /** A separator column of dashes asks for centre with a colon on both sides, right with
      one on the right only, and left otherwise. */
  lemma AlignOfMarkers(dashes: string)
    requires dashes != [] && forall k | 0 <= k < |dashes| :: dashes[k] == '-'
    ensures AlignOf(":" + dashes + ":") == Center
    ensures AlignOf(dashes + ":") == Right
    ensures AlignOf(":" + dashes) == Left
    ensures AlignOf(dashes) == Left
  {
    var c, r, l := ":" + dashes + ":", dashes + ":", ":" + dashes;
    TrimKeepsTrimmed(c);
    TrimKeepsTrimmed(r);
    assert l[|l| - 1] == dashes[|dashes| - 1];
    TrimKeepsTrimmed(l);
    TrimKeepsTrimmed(dashes);
    assert c[..1] == ":" && c[|c| - 1..] == ":";
    assert r[|r| - 1..] == ":" && r[..1] != ":";
    assert l[|l| - 1..] != ":";
    assert dashes[|dashes| - 1..] != ":";
  }

  predicate AllTableLines(rows: seq<string>) {
    forall k | 0 <= k < |rows| :: IsTableLine(rows[k])
  }

  /** Table lines are only buffered: a run of them adds its trimmed rows to the buffer. */
  lemma BufferRun(rows: seq<string>, rest: seq<string>, buffer: seq<string>, flush: seq<string> -> seq<Block>)
    requires AllTableLines(rows)
    ensures Walk(rows + rest, buffer, flush) == Walk(rest, buffer + TrimAll(rows), flush)
  {
    WalkIsWalkWith(rows + rest, buffer, flush);
    WalkIsWalkWith(rest, buffer + TrimAll(rows), flush);
    WalkWithRun(rows, TrimAll(rows), rest, buffer, flush, Classify, Trim);
  }

  /** A run of table lines ended by another line (or by the end of the text) is one
      table of those rows; the line that ends it is classified on its own. */
  lemma TableRun(rows: seq<string>, rest: seq<string>)
    requires rows != [] && AllTableLines(rows)
    ensures rest == [] ==> RenderLines(rows + rest) == [TableOf(TrimAll(rows))]
    ensures rest != [] && !IsTableLine(rest[0]) ==>
      RenderLines(rows + rest) == [TableOf(TrimAll(rows))] + Classify(Trim(rest[0])) + RenderLines(rest[1..])
  {
    BufferRun(rows, rest, [], FlushTable);
    assert [] + TrimAll(rows) == TrimAll(rows);
    if rest != [] && !IsTableLine(rest[0]) {
      assert Walk(rest, TrimAll(rows), FlushTable) ==
        FlushTable(TrimAll(rows)) + Classify(Trim(rest[0])) + Walk(rest[1..], [], FlushTable);
    }
  }

  /** A line that is not a table line gives its own block, or nothing when blank. */
  lemma OtherLine(line: string, rest: seq<string>)
    requires !IsTableLine(line)
    ensures RenderLines([line] + rest) == Classify(Trim(line)) + RenderLines(rest)
    ensures IsBlank(line) ==> RenderLines([line] + rest) == RenderLines(rest)
  {
    OtherLineBlocks(line, rest);
    if IsBlank(line) {
      BlankLineSkipped(line, rest);
    }
  }

  lemma OtherLineBlocks(line: string, rest: seq<string>)
    requires !IsTableLine(line)
    ensures RenderLines([line] + rest) == Classify(Trim(line)) + RenderLines(rest)
  {
    var lines := [line] + rest;
    assert lines[0] == line && lines[1..] == rest;
    WalkOther(lines, [], FlushTable);
  }

  lemma BlankLineSkipped(line: string, rest: seq<string>)
    requires !IsTableLine(line) && IsBlank(line)
    ensures RenderLines([line] + rest) == RenderLines(rest)
  {
    OtherLineBlocks(line, rest);
    BlankLineGivesNothing(line);
  }

  lemma BlankLineGivesNothing(line: string)
    requires IsBlank(line)
    ensures Classify(Trim(line)) == []
  {
    TrimEmptyIffBlank(line);
  }

  lemma WalkOther(lines: seq<string>, buffer: seq<string>, flush: seq<string> -> seq<Block>)
    requires lines != [] && !IsTableLine(lines[0])
    ensures Walk(lines, buffer, flush) == flush(buffer) + Classify(Trim(lines[0])) + Walk(lines[1..], [], flush)
  {
    WalkIsWalkWith(lines, buffer, flush);
    WalkIsWalkWith(lines[1..], [], flush);
    WalkWithOther(lines, buffer, flush, Classify, Trim);
  }

  /** `Walk` with the trimming and the classifying of a line left as parameters too: the
      grouping argument below needs nothing about either. */
  function WalkWith(lines: seq<string>, buffer: seq<string>, flush: seq<string> -> seq<Block>,
                    classify: string -> seq<Block>, trim: string -> string): seq<Block>
    decreases |lines|
  {
    if lines == [] then flush(buffer)
    else
      var t := trim(lines[0]);
      if StartsWith(t, "|") then WalkWith(lines[1..], buffer + [t], flush, classify, trim)
      else flush(buffer) + classify(t) + WalkWith(lines[1..], [], flush, classify, trim)
  }

  lemma {:induction false} WalkIsWalkWith(lines: seq<string>, buffer: seq<string>, flush: seq<string> -> seq<Block>)
    ensures Walk(lines, buffer, flush) == WalkWith(lines, buffer, flush, Classify, Trim)
    decreases |lines|
  {
    if lines != [] {
      WalkIsWalkWith(lines[1..], buffer + [Trim(lines[0])], flush);
      WalkIsWalkWith(lines[1..], [], flush);
    }
  }

  lemma {:induction false} WalkWithRun(rows: seq<string>, trimmed: seq<string>, rest: seq<string>, buffer: seq<string>,
                                       flush: seq<string> -> seq<Block>, classify: string -> seq<Block>, trim: string -> string)
    requires |trimmed| == |rows| && forall k | 0 <= k < |rows| :: trimmed[k] == trim(rows[k]) && StartsWith(trimmed[k], "|")
    ensures WalkWith(rows + rest, buffer, flush, classify, trim) == WalkWith(rest, buffer + trimmed, flush, classify, trim)
    decreases |rows|
  {
    if rows == [] {
      assert rows + rest == rest;
      assert buffer + trimmed == buffer;
    } else {
      var lines := rows + rest;
      assert lines[0] == rows[0] && lines[1..] == rows[1..] + rest;
      assert forall k | 0 <= k < |rows[1..]| :: trimmed[1..][k] == trim(rows[1..][k]) && StartsWith(trimmed[1..][k], "|") by {
        forall k | 0 <= k < |rows[1..]| ensures trimmed[1..][k] == trim(rows[1..][k]) && StartsWith(trimmed[1..][k], "|") {
          assert trimmed[1..][k] == trimmed[k + 1] && rows[1..][k] == rows[k + 1];
        }
      }
      WalkWithRun(rows[1..], trimmed[1..], rest, buffer + [trimmed[0]], flush, classify, trim);
      assert buffer + [trimmed[0]] + trimmed[1..] == buffer + trimmed;
    }
  }

  lemma WalkWithOther(lines: seq<string>, buffer: seq<string>, flush: seq<string> -> seq<Block>,
                      classify: string -> seq<Block>, trim: string -> string)
    requires lines != [] && !StartsWith(trim(lines[0]), "|")
    ensures WalkWith(lines, buffer, flush, classify, trim)
      == flush(buffer) + classify(trim(lines[0])) + WalkWith(lines[1..], [], flush, classify, trim)
  {
  }

  lemma {:induction false} WalkWithConcat(a: seq<string>, b: seq<string>, buffer: seq<string>, flush: seq<string> -> seq<Block>,
                                          classify: string -> seq<Block>, trim: string -> string)
    requires a != [] && !StartsWith(trim(a[|a| - 1]), "|") && flush([]) == []
    ensures WalkWith(a + b, buffer, flush, classify, trim)
      == WalkWith(a, buffer, flush, classify, trim) + WalkWith(b, [], flush, classify, trim)
    decreases |a|
  {
    var lines := a + b;
    assert lines[0] == a[0] && lines[1..] == a[1..] + b;
    if |a| > 1 {
      assert a[1..][|a[1..]| - 1] == a[|a| - 1];
      if StartsWith(trim(a[0]), "|") {
        WalkWithConcat(a[1..], b, buffer + [trim(a[0])], flush, classify, trim);
      } else {
        WalkWithConcat(a[1..], b, [], flush, classify, trim);
      }
    } else {
      assert a[1..] == [] && a[1..] + b == b;
    }
  }

  /** A text cut after a line that is not a table line renders as its two halves: no
      table spans such a line. */
  lemma WalkConcat(a: seq<string>, b: seq<string>, buffer: seq<string>, flush: seq<string> -> seq<Block>)
    requires a != [] && !IsTableLine(a[|a| - 1]) && flush([]) == []
    ensures Walk(a + b, buffer, flush) == Walk(a, buffer, flush) + Walk(b, [], flush)
  {
    WalkIsWalkWith(a + b, buffer, flush);
    WalkIsWalkWith(a, buffer, flush);
    WalkIsWalkWith(b, [], flush);
    WalkWithConcat(a, b, buffer, flush, Classify, Trim);
  }

  lemma RenderConcat(a: seq<string>, b: seq<string>)
    requires a == [] || !IsTableLine(a[|a| - 1])
    ensures RenderLines(a + b) == RenderLines(a) + RenderLines(b)
  {
    if a == [] {
      assert a + b == b;
    } else {
      WalkConcat(a, b, [], FlushTable);
    }
  }

  /** The table of a non-empty buffer: a header exactly when the second row holds `---`,
      taken from the first row, with the alignments read off the second row and the body
      made of the rows after it; otherwise every row is a body row and no column is
      aligned. Every cell is trimmed and has its bold markup rendered. */
  lemma TableOfShape(b: seq<string>)
    requires b != []
    ensures var t := TableOf(b);
      && t.Table?
      && (t.header.Some? <==> |b| >= 2 && Contains(b[1], "---"))
      && (|b| >= 2 && Contains(b[1], "---") ==>
            && t.header == Some(BoldCells(Cells(b[0])))
            && |t.alignments| == |Columns(b[1])|
            && (forall k | 0 <= k < |Columns(b[1])| :: t.alignments[k] == AlignOf(Columns(b[1])[k]))
            && |t.body| == |b| - 2
            && (forall k | 0 <= k < |b| - 2 :: t.body[k] == BoldCells(Cells(b[k + 2]))))
      && (!(|b| >= 2 && Contains(b[1], "---")) ==>
            && t.alignments == []
            && |t.body| == |b|
            && (forall k | 0 <= k < |b| :: t.body[k] == BoldCells(Cells(b[k]))))
  {
    var rows := RowsOf(b);
    if HasHeader(b) {
      forall k | 0 <= k < |b| - 2
        ensures rows[2..][k] == BoldCells(Cells(b[k + 2]))
      {
        assert rows[2..][k] == rows[k + 2];
      }
    }
  }

  /** A row written out as `|c1|…|cn|`. */
  function Row(cells: seq<string>): string
    requires |cells| >= 1
  {
    "|" + JoinWith(cells, '|') + "|"
  }

  /** A table written out row by row, with a separator row holding `---`, is read back
      as its header cells, the alignment of each separator column and its body cells. */
  lemma TableRoundTrip(header: seq<string>, separator: seq<string>, rows: seq<seq<string>>)
    requires |header| >= 1 && forall k | 0 <= k < |header| :: '|' !in header[k]
    requires |separator| >= 1 && forall k | 0 <= k < |separator| :: '|' !in separator[k]
    requires forall i | 0 <= i < |rows| :: |rows[i]| >= 1 && forall k | 0 <= k < |rows[i]| :: '|' !in rows[i][k]
    requires Contains(Row(separator), "---")
    ensures TableOf([Row(header), Row(separator)] + seq(|rows|, i requires 0 <= i < |rows| => Row(rows[i])))
      == Table(Some(BoldCells(TrimAll(header))),
               seq(|separator|, k requires 0 <= k < |separator| => AlignOf(separator[k])),
               seq(|rows|, i requires 0 <= i < |rows| => BoldCells(TrimAll(rows[i]))))
  {
    var written := seq(|rows|, i requires 0 <= i < |rows| => Row(rows[i]));
    var b := [Row(header), Row(separator)] + written;
    assert b[0] == Row(header) && b[1] == Row(separator) && b[2..] == written;
    HeaderTable(b);
    CellsOfRow(header);
    CellsOfRow(separator);
    RowsRoundTrip(rows);
  }

  /** A table with a header, built from the header row, the separator and the rows after. */
  lemma HeaderTable(b: seq<string>)
    requires |b| >= 2 && Contains(b[1], "---")
    ensures TableOf(b) == Table(Some(BoldCells(Cells(b[0]))), Alignments(b[1]), RowsOf(b[2..]))
  {
    var rows := RowsOf(b);
    assert rows[2..] == RowsOf(b[2..]) by {
      forall k | 0 <= k < |b| - 2
        ensures rows[2..][k] == RowsOf(b[2..])[k]
      {
        assert rows[2..][k] == rows[k + 2] && b[2..][k] == b[k + 2];
      }
    }
  }

  /** Rows written out one by one read back as their trimmed, bold-rendered cells. */
  lemma RowsRoundTrip(rows: seq<seq<string>>)
    requires forall i | 0 <= i < |rows| :: |rows[i]| >= 1 && forall k | 0 <= k < |rows[i]| :: '|' !in rows[i][k]
    ensures RowsOf(seq(|rows|, i requires 0 <= i < |rows| => Row(rows[i])))
      == seq(|rows|, i requires 0 <= i < |rows| => BoldCells(TrimAll(rows[i])))
  {
    var written := seq(|rows|, i requires 0 <= i < |rows| => Row(rows[i]));
    forall i | 0 <= i < |rows|
      ensures RowsOf(written)[i] == BoldCells(TrimAll(rows[i]))
    {
      CellsOfRow(rows[i]);
    }
  }

  /** A line that is not blank and carries none of the markers is a paragraph with its
      bold markup rendered. */
  lemma ClassifyParagraph(t: string)
    requires t != []
    requires !StartsWith(t, "- ") && !StartsWith(t, "* ") && NumberedItem(t).None?
    requires !StartsWith(t, "> ") && !StartsWith(t, "### ") && !StartsWith(t, "## ")
    ensures Classify(t) == [Paragraph(Bold(t))]
  {
  }

  /** The markers of the line kinds: the block holds the rest of the line with its bold
      markup rendered; a numbered item keeps its number and the text as written. */
  lemma ClassifyMarkers(r: string)
    ensures Classify("- " + r) == [ListItem(Bold(r))]
    ensures Classify("* " + r) == [ListItem(Bold(r))]
    ensures Classify("> " + r) == [Quote(Bold(r))]
    ensures Classify("### " + r) == [Heading3(Bold(r))]
    ensures Classify("## " + r) == [Heading2(Bold(r))]
  {
    MarkerLine("- ", r);
    MarkerLine("* ", r);
    MarkerLine("> ", r);
    MarkerLine("### ", r);
    MarkerLine("## ", r);
    DiffersAt("* " + r, "- ", 0);
    DiffersAt("> " + r, "- ", 0);
    DiffersAt("> " + r, "* ", 0);
    DiffersAt("### " + r, "- ", 0);
    DiffersAt("### " + r, "* ", 0);
    DiffersAt("### " + r, "> ", 0);
    DiffersAt("## " + r, "- ", 0);
    DiffersAt("## " + r, "* ", 0);
    DiffersAt("## " + r, "> ", 0);
    DiffersAt("## " + r, "### ", 2);
  }

  /** A numbered line gives its number and the text after the dot and the space. */
  lemma NumberedLine(digits: string, r: string)
    requires digits != [] && AllDigits(digits) && NoLineBreak(r)
    requires r == [] || !IsWhitespace(r[0])
    ensures Classify(digits + ". " + r) == [Numbered(digits, r)]
  {
    var t := digits + ". " + r;
    DigitRunOf(digits, ". " + r);
    assert t == digits + (". " + r);
    var d := |digits|;
    assert t[d] == '.' && t[d + 1] == ' ';
    var rest := t[d + 1..];
    assert rest == " " + r;
    assert WsRun(rest) == 1 by {
      assert rest[1..] == r;
    }
    assert rest[1..] == r;
    LineRunOf(r);
    assert t[..d] == digits;
    assert r[..LineRun(r)] == r;
    assert NumberedItem(t) == Some((digits, r));
    assert t[0] == digits[0] && IsDigit(t[0]);
    assert !StartsWith(t, "- ") && !StartsWith(t, "* ") by {
      assert t[..2][0] == t[0];
    }
    assert t != [];
  }

  lemma {:induction false} LineRunOf(r: string)
    requires NoLineBreak(r)
    ensures LineRun(r) == |r|
  {
    if r != [] {
      LineRunOf(r[1..]);
    }
  }

  lemma MarkerLine(m: string, r: string)
    requires m in ["- ", "* ", "> ", "### ", "## "]
    ensures StartsWith(m + r, m) && !IsDigit((m + r)[0]) && NumberedItem(m + r).None?
    ensures From(Bold(m + r), |m|) == Bold(r)
  {
    assert (m + r)[..|m|] == m;
    BoldKeepsPrefix(m, r);
    assert (m + r)[0] == m[0];
    assert (m + r)[|m|..] == r;
  }

  // ---------------------------------------------------------------- the whole renderer

  /** `parts.map(...)`: a chart goes to the diagram view; a text part becomes its blocks. */
  function RenderPart(p: Part): RenderedPart {
    match p
    case Diagram(chart) => Chart(chart)
    case Text(x) => TextBlocks(RenderLines(SplitOn(x, '\n')))
  }

  /** What `renderMarkdownBlocks` shows for a section's content. */
  function RenderedSection(content: string, profile: Option<VariableProfile>, docs: seq<Document>): (r: seq<RenderedPart>)
    ensures var parts := Parts(ProcessedContent(content, profile, docs));
      |r| == |parts| && forall i | 0 <= i < |r| :: r[i] == RenderPart(parts[i])
  {
    var parts := Parts(ProcessedContent(content, profile, docs));
    seq(|parts|, i requires 0 <= i < |parts| => RenderPart(parts[i]))
  }

  /** `renderMarkdownBlocks`: substitution first, then the split around charts, then the
      line loop over every text part. */
  method RenderMarkdownBlocks(content: string, profile: Option<VariableProfile>, docs: seq<Document>)
    returns (rendered: seq<RenderedPart>)
    ensures rendered == RenderedSection(content, profile, docs)
  {
    var processed := ProcessContent(content, profile, docs);
    var parts := SplitMermaidBlocks(processed);
    rendered := RenderParts(parts);
  }

  /** `parts.map(...)`: each part rendered in turn. */
  method RenderParts(parts: seq<Part>) returns (rendered: seq<RenderedPart>)
    ensures |rendered| == |parts| && forall k | 0 <= k < |parts| :: rendered[k] == RenderPart(parts[k])
  {
    rendered := [];
    var i := 0;
    while i < |parts|
      invariant 0 <= i <= |parts|
      invariant |rendered| == i && forall k | 0 <= k < i :: rendered[k] == RenderPart(parts[k])
    {
      var part := RenderOne(parts[i]);
      rendered := rendered + [part];
      i := i + 1;
    }
  }

  /** The callback of `parts.map`. */
  method RenderOne(p: Part) returns (r: RenderedPart)
    ensures r == RenderPart(p)
  {
    match p
    case Diagram(chart) =>
      r := Chart(chart);
    case Text(x) =>
      var blocks := RenderText(x);
      r := TextBlocks(blocks);
  }

  /** Content without references or charts, shown without a profile, is one text part
      holding the blocks of its lines; blank content shows nothing at all. */
  lemma PlainSection(content: string, docs: seq<Document>)
    requires !Contains(content, RefStart) && !Contains(content, Fence)
    ensures IsBlank(content) ==> RenderedSection(content, None, docs) == []
    ensures !IsBlank(content) ==>
      RenderedSection(content, None, docs) == [TextBlocks(RenderLines(SplitOn(content, '\n')))]
  {
    PlainParts(content, docs);
    TrimEmptyIffBlank(content);
    if IsBlank(content) {
      PartlessSection(content, docs);
    } else {
      OnePartSection(content, docs, Text(content));
    }
  }

  /** Without references the content is not rewritten, and without fences it is at most
      one text part. */
  lemma PlainParts(content: string, docs: seq<Document>)
    requires !Contains(content, RefStart) && !Contains(content, Fence)
    ensures Parts(ProcessedContent(content, None, docs)) == KeepText(content, NonBlank)
  {
    ProcessedContentBasics(content, docs);
    if content == [] {
      assert ProcessedContent(content, None, docs) == content;
    }
    NoFenceIsText(content);
  }

  /** A chart fenced between two pieces of text shows as the blocks of the text before
      it, the chart handed to the diagram renderer, and the blocks of the text after it. */
  lemma RenderedFencedSection(a: string, body: string, b: string, docs: seq<Document>)
    requires '`' !in a && NonBlank(a) && NonBlank(b) && !Contains(b, Fence)
    requires body != [] && !IsWhitespace(body[0]) && !Contains(body, Close)
    requires !Contains(a + Fence + "\n" + body + Close + b, RefStart)
    ensures RenderedSection(a + Fence + "\n" + body + Close + b, None, docs)
      == [TextBlocks(RenderLines(SplitOn(a, '\n'))), Chart(body), TextBlocks(RenderLines(SplitOn(b, '\n')))]
  {
    FencedChart(a, body, b);
    NoFenceIsText(b);
    FencedParts(a + Fence + "\n" + body + Close + b, a, body, b, docs);
  }

  /** Without references the content is not rewritten, so its parts are those of the
      content itself. */
  lemma FencedParts(content: string, a: string, body: string, b: string, docs: seq<Document>)
    requires content != [] && !Contains(content, RefStart)
    requires NonBlank(a) && NonBlank(b)
    requires Parts(content) == KeepText(a, NonBlank) + [Diagram(body)] + KeepText(b, NonBlank)
    ensures RenderedSection(content, None, docs)
      == [TextBlocks(RenderLines(SplitOn(a, '\n'))), Chart(body), TextBlocks(RenderLines(SplitOn(b, '\n')))]
  {
    assert Parts(content) == [Text(a), Diagram(body), Text(b)];
    ProcessedContentBasics(content, docs);
    ThreePartSection(content, docs, Text(a), Diagram(body), Text(b));
  }

  lemma ThreePartSection(content: string, docs: seq<Document>, p: Part, q: Part, r: Part)
    requires Parts(ProcessedContent(content, None, docs)) == [p, q, r]
    ensures RenderedSection(content, None, docs) == [RenderPart(p), RenderPart(q), RenderPart(r)]
  {
    ThreeRendered(Parts(ProcessedContent(content, None, docs)), RenderedSection(content, None, docs), p, q, r);
  }

  lemma ThreeRendered(parts: seq<Part>, shown: seq<RenderedPart>, p: Part, q: Part, r: Part)
    requires parts == [p, q, r]
    requires |shown| == |parts| && forall i | 0 <= i < |shown| :: shown[i] == RenderPart(parts[i])
    ensures shown == [RenderPart(p), RenderPart(q), RenderPart(r)]
  {
    assert shown[0] == RenderPart(p) && shown[1] == RenderPart(q) && shown[2] == RenderPart(r);
  }

  lemma PartlessSection(content: string, docs: seq<Document>)
    requires Parts(ProcessedContent(content, None, docs)) == []
    ensures RenderedSection(content, None, docs) == []
  {
  }

  lemma OnePartSection(content: string, docs: seq<Document>, p: Part)
    requires Parts(ProcessedContent(content, None, docs)) == [p]
    ensures RenderedSection(content, None, docs) == [RenderPart(p)]
  {
  }
}
