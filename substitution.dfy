/** `processContent` of the document renderer: every `{{KEY}}` of the active variable
    profile becomes a highlighted span showing the value (or the key when the value is
    empty), then every `[[REF:id]]` becomes a span naming the referenced document, or
    the `[未連結文件]` marker when no document has that id. */
module Substitution {
  import opened Wrappers
  import opened Strings
  import opened Replacing
  import opened Types
  import opened Fragments

  // ---------------------------------------------------------------- the HTML fragments

  /** What a `{{KEY}}` token becomes. */
  function VarFragment(shown: string): string {
    VarOpen + shown + SpanClose
  }

  /** What a `[[REF:id]]` token of a known document becomes: its title and number. */
  function RefFragment(doc: Document): string {
    RefOpen + "\n" + "          " + doc.title + " (" + doc.docNumber + ")" + "\n" + "        " + SpanClose
  }

  // ---------------------------------------------------------------- variables

  function Token(key: string): string {
    "{{" + key + "}}"
  }

  /** `value || key`: an empty value shows the key itself. */
  function Shown(key: string, value: string): string {
    if value == "" then key else value
  }

  function VarRule(key: string, value: string): Rule {
    Literal(Token(key), VarFragment(Shown(key, value)))
  }

  /** One step of the `forEach`: every `{{key}}` of `s` replaced. */
  function SubstituteVar(s: string, key: string, value: string): string {
    ReplaceAll(s, VarRule(key, value))
  }

  /** The profile's entries applied one after another, in their order. */
  function SubstituteVars(s: string, vars: Vars): string
    decreases |vars|
  {
    if vars == [] then s else SubstituteVars(SubstituteVar(s, vars[0].0, vars[0].1), vars[1..])
  }

  // ---------------------------------------------------------------- references

  /** `allDocuments.find(d => d.id === id)`. */
  function FindDoc(docs: seq<Document>, id: string): (r: Option<Document>)
    ensures r.Some? ==> r.value in docs && r.value.id == id
    ensures r.None? <==> forall d | d in docs :: d.id != id
  {
    if docs == [] then None
    else if docs[0].id == id then Some(docs[0])
    else FindDoc(docs[1..], id)
  }

  function Resolve(docs: seq<Document>, id: string): string {
    match FindDoc(docs, id)
    case Some(doc) => RefFragment(doc)
    case None => Unlinked()
  }

  /** The pattern `\[\[REF:(.*?)\]\]`: the id is the shortest text up to the first `]]`,
      and may not cross a line terminator. */
  function RefMatch(docs: seq<Document>, t: string): Option<Hit> {
    if StartsWith(t, RefStart) then
      match FindOnLine(t[6..], "]]")
      case Some(k) => Some(Hit(6 + k + 2, Resolve(docs, t[6..][..k])))
      case None => None
    else None
  }

  function RefRule(docs: seq<Document>): Rule {
    t => RefMatch(docs, t)
  }

  lemma RefRuleConsumes(docs: seq<Document>)
    ensures Consumes(RefRule(docs))
  {
    forall t | RefRule(docs)(t).Some?
      ensures 0 < RefRule(docs)(t).value.len <= |t|
    {
      var k := FindOnLine(t[6..], "]]").value;
      assert OccursAt(t[6..], "]]", k);
    }
  }

  function ResolveRefs(s: string, docs: seq<Document>): string {
    RefRuleConsumes(docs);
    ReplaceAll(s, RefRule(docs))
  }

  /** `processContent` as a function of the content, the active profile and the documents. */
  function ProcessedContent(content: string, profile: Option<VariableProfile>, docs: seq<Document>): string {
    if content == [] then []
    else
      var substituted := match profile
        case Some(p) => SubstituteVars(content, p.variables)
        case None => content;
      ResolveRefs(substituted, docs)
  }

  /** `processContent`: the `forEach` over the profile's entries, then the reference pass. */
  method ProcessContent(content: string, profile: Option<VariableProfile>, docs: seq<Document>) returns (processed: string)
    ensures processed == ProcessedContent(content, profile, docs)
  {
    if content == [] {
      return [];
    }
    processed := content;
    if profile.Some? {
      var entries := profile.value.variables;
      var i := 0;
      while i < |entries|
        invariant 0 <= i <= |entries|
        invariant SubstituteVars(processed, entries[i..]) == SubstituteVars(content, entries)
      {
        assert entries[i..][1..] == entries[i + 1..];
        processed := SubstituteVar(processed, entries[i].0, entries[i].1);
        i := i + 1;
      }
    }
    processed := ResolveRefs(processed, docs);
  }

  // ---------------------------------------------------------------- facts about the fragments

  lemma VarFragmentChars(shown: string)
    ensures VarFragment(shown)[0] == '<'
    ensures '{' !in shown ==> '{' !in VarFragment(shown)
    ensures '[' !in shown ==> '[' !in VarFragment(shown)
  {
    VarOpenChars();
    SpanCloseChars();
  }

  lemma RefFragmentChars(doc: Document)
    ensures RefFragment(doc)[0] == '<'
    ensures '{' !in doc.title && '{' !in doc.docNumber ==> '{' !in RefFragment(doc)
    ensures '[' !in doc.title && '[' !in doc.docNumber ==> '[' !in RefFragment(doc)
  {
    RefOpenChars();
    SpanCloseChars();
  }

  /** A known document's fragment shows its title followed by its number in parentheses. */
  lemma RefFragmentNamesDocument(doc: Document)
    ensures Contains(RefFragment(doc), doc.title + " (" + doc.docNumber + ")")
  {
    var a := RefOpen + "\n" + "          ";
    var b := "\n" + "        " + SpanClose;
    ThreeParts(RefOpen, "\n", "          ", doc.title, " (", doc.docNumber, ")", "\n", "        ", SpanClose);
    ContainsInfix(a, doc.title + " (" + doc.docNumber + ")", b);
  }

  lemma ThreeParts(a1: string, a2: string, a3: string, x1: string, x2: string, x3: string, x4: string,
                   b1: string, b2: string, b3: string)
    ensures a1 + a2 + a3 + x1 + x2 + x3 + x4 + b1 + b2 + b3
      == (a1 + a2 + a3) + (x1 + x2 + x3 + x4) + (b1 + b2 + b3)
  {
  }

  // ---------------------------------------------------------------- substitution lemmas

  /** Every occurrence of `{{key}}` is replaced and none remains, provided the fragment
      cannot form a new one (no `{` in the value or key, no `<` in the key). */
  lemma SubstituteVarLeavesNoToken(s: string, key: string, value: string)
    requires '{' !in key && '<' !in key && '{' !in value
    ensures !Contains(SubstituteVar(s, key, value), Token(key))
  {
    KeepsOtherTokensAbsent(s, key, value, key);
  }

  /** Replacing one key neither creates `{{other}}` nor lets `{{key}}` survive. */
  lemma KeepsOtherTokensAbsent(s: string, key: string, value: string, other: string)
    requires '{' !in key && '{' !in value && '<' !in other
    requires other == key || !Contains(s, Token(other))
    ensures !Contains(SubstituteVar(s, key, value), Token(other))
  {
    var rule := VarRule(key, value);
    var q := Token(other);
    var shown := Shown(key, value);
    VarFragmentChars(shown);
    assert '{' !in VarFragment(shown);
    assert StartsNoneIn(rule, q);
    assert Marked(rule, '<');
    assert '<' !in q by {
      assert q == "{{" + other + "}}";
    }
    if other == key {
      forall i: nat | OccursAt(s, q, i)
        ensures rule(s[i..]).Some?
      {
        assert s[i..][..|q|] == s[i..i + |q|];
      }
    }
    LeavesNoOccurrence(s, rule, '<', q);
  }

  /** After the whole profile has been applied, no `{{key}}` of any of its entries remains. */
  lemma {:induction false} SubstituteVarsLeavesNoToken(s: string, vars: Vars, done: set<string>)
    requires forall e | e in vars :: '{' !in e.0 && '<' !in e.0 && '{' !in e.1
    requires forall k | k in done :: '<' !in k && !Contains(s, Token(k))
    ensures forall k | k in done :: !Contains(SubstituteVars(s, vars), Token(k))
    ensures forall e | e in vars :: !Contains(SubstituteVars(s, vars), Token(e.0))
    decreases |vars|
  {
    if vars != [] {
      var (key, value) := vars[0];
      var next := SubstituteVar(s, key, value);
      forall k | k in done + {key}
        ensures '<' !in k && !Contains(next, Token(k))
      {
        if k == key {
          SubstituteVarLeavesNoToken(s, key, value);
        } else {
          KeepsOtherTokensAbsent(s, key, value, k);
        }
      }
      forall e | e in vars[1..] ensures e in vars { }
      SubstituteVarsLeavesNoToken(next, vars[1..], done + {key});
    }
  }

  /** Text before the first `{{key}}` is kept and the token itself becomes the fragment
      showing the value, or the key when the value is empty. */
  lemma SubstituteVarAtToken(a: string, key: string, value: string, b: string)
    requires '{' !in a
    ensures SubstituteVar(a + Token(key) + b, key, value)
      == a + VarFragment(Shown(key, value)) + SubstituteVar(b, key, value)
  {
    LiteralAtFirst(a, Token(key), VarFragment(Shown(key, value)), b);
  }

  // ---------------------------------------------------------------- reference lemmas

  lemma RefMatchMisses(t: string, docs: seq<Document>)
    requires !StartsWith(t, RefStart)
    ensures RefRule(docs)(t).None?
  {
  }

  /** The reference pattern does not match where the text starts with another character than `[`. */
  lemma RefRuleMissesAt(t: string, docs: seq<Document>)
    requires t != [] && t[0] != '['
    ensures RefRule(docs)(t).None?
  {
    if |t| >= 6 {
      assert t[..6][0] == t[0];
    }
  }

  /** The reference pattern matches a whole closed token and resolves exactly its id. */
  lemma RefRuleAtToken(id: string, b: string, docs: seq<Document>)
    requires NoLineBreak(id) && !Contains(id, "]]") && (id == [] || id[|id| - 1] != ']')
    ensures RefRule(docs)(RefStart + id + "]]" + b) == Some(Hit(6 + |id| + 2, Resolve(docs, id)))
  {
    var t := RefStart + id + "]]" + b;
    assert t[..6] == RefStart;
    assert t[6..] == id + "]]" + b;
    CloseAfterId(id, b);
  }

  /** The first `]]` after an id that holds none (and does not end in `]`) is the one
      right after it. */
  lemma CloseAfterId(id: string, b: string)
    requires NoLineBreak(id) && !Contains(id, "]]") && (id == [] || id[|id| - 1] != ']')
    ensures FindOnLine(id + "]]" + b, "]]") == Some(|id|) && (id + "]]" + b)[..|id|] == id
  {
    var rest := id + "]]" + b;
    assert rest[|id|..|id| + 2] == "]]";
    assert rest[..|id|] == id;
    FindOnLineComplete(rest, "]]", |id|);
    FirstPairAfter(id, ']', b);
    var v := FindOnLine(rest, "]]").value;
    assert OccursAt(rest, "]]", |id|);
    assert OccursAt(rest, "]]", v);
  }

  /** A `[[REF:id]]` token whose id stays on one line and holds no `]]` (nor ends in `]`)
      is replaced by the resolution of exactly that id; text before it without `[` is kept. */
  lemma ResolveRefsAtToken(a: string, id: string, b: string, docs: seq<Document>)
    requires '[' !in a && NoLineBreak(id) && !Contains(id, "]]") && (id == [] || id[|id| - 1] != ']')
    ensures ResolveRefs(a + RefStart + id + "]]" + b, docs) == a + Resolve(docs, id) + ResolveRefs(b, docs)
  {
    RefRuleConsumes(docs);
    var t := RefStart + id + "]]" + b;
    TokenShape(a, id, b);
    NoRefBefore(a, t, docs);
    RefRuleAtToken(id, b, docs);
    TokenShape([], id, b);
    CopiesThenHitAt(a, t, RefRule(docs), 6 + |id| + 2, Resolve(docs, id), b);
  }

  lemma TokenShape(a: string, id: string, b: string)
    ensures a + RefStart + id + "]]" + b == a + (RefStart + id + "]]" + b)
    ensures (RefStart + id + "]]" + b)[6 + |id| + 2..] == b
  {
  }

  /** The reference pattern matches nowhere in text without `[`. */
  lemma NoRefBefore(a: string, t: string, docs: seq<Document>)
    requires '[' !in a
    ensures forall i | 0 <= i < |a| :: RefRule(docs)((a + t)[i..]).None?
  {
    forall i | 0 <= i < |a|
      ensures RefRule(docs)((a + t)[i..]).None?
    {
      assert (a + t)[i..][0] == a[i];
      RefRuleMissesAt((a + t)[i..], docs);
    }
  }

  /** A reference to a known id shows that document's title and number; to an unknown id,
      the unlinked marker. */
  lemma ResolveMeaning(docs: seq<Document>, id: string)
    ensures (exists d :: d in docs && d.id == id) ==>
      exists d :: d in docs && d.id == id && Resolve(docs, id) == RefFragment(d)
        && Contains(Resolve(docs, id), d.title + " (" + d.docNumber + ")")
    ensures (forall d | d in docs :: d.id != id) ==> Resolve(docs, id) == Unlinked()
  {
    match FindDoc(docs, id)
    case Some(d) => RefFragmentNamesDocument(d);
    case None =>
  }

  /** Every replacement of the reference pattern starts with `<`, and no `[[REF:` can
      start inside one when no document title or number holds `[`. */
  lemma RefRuleReplacements(docs: seq<Document>)
    requires forall d | d in docs :: '[' !in d.title && '[' !in d.docNumber
    ensures Marked(RefRule(docs), '<') && StartsNoneIn(RefRule(docs), RefStart)
  {
    UnlinkedChars();
    forall t | RefRule(docs)(t).Some?
      ensures NoStartIn(RefRule(docs)(t).value.replacement, RefStart)
      ensures RefRule(docs)(t).value.replacement != [] && RefRule(docs)(t).value.replacement[0] == '<'
    {
      var k := FindOnLine(t[6..], "]]").value;
      match FindDoc(docs, t[6..][..k])
      case Some(d) =>
        RefFragmentChars(d);
        BracketFreeNoStart(RefFragment(d));
      case None =>
    }
  }

  lemma BracketFreeNoStart(a: string)
    requires '[' !in a
    ensures NoStartIn(a, RefStart)
  {
  }

  /** Where `[[REF:` is closed on its line, the reference pattern matches. */
  lemma RefRuleMatchesClosed(s: string, docs: seq<Document>)
    requires forall i: nat | OccursAt(s, RefStart, i) :: FindOnLine(s[i + 6..], "]]").Some?
    ensures forall i: nat :: OccursAt(s, RefStart, i) ==> RefRule(docs)(s[i..]).Some?
  {
    forall i: nat | OccursAt(s, RefStart, i)
      ensures RefRule(docs)(s[i..]).Some?
    {
      assert s[i..][..6] == s[i..i + 6];
      assert s[i..][6..] == s[i + 6..];
    }
  }

  /** No `[[REF:` survives the reference pass, provided every `[[REF:` of the text is
      closed by `]]` on its line and no document title or number holds `[`. */
  lemma ResolveRefsLeavesNoToken(s: string, docs: seq<Document>)
    requires forall d | d in docs :: '[' !in d.title && '[' !in d.docNumber
    requires forall i: nat | OccursAt(s, RefStart, i) :: FindOnLine(s[i + 6..], "]]").Some?
    ensures !Contains(ResolveRefs(s, docs), RefStart)
  {
    RefRuleConsumes(docs);
    RefRuleReplacements(docs);
    RefRuleMatchesClosed(s, docs);
    RefStartUnmarked();
    LeavesNoOccurrence(s, RefRule(docs), '<', RefStart);
  }

  lemma NoRefStartAnywhere(s: string)
    requires !Contains(s, RefStart)
    ensures forall i | 0 <= i < |s| :: !StartsWith(s[i..], RefStart)
  {
    forall i | 0 <= i < |s|
      ensures !StartsWith(s[i..], RefStart)
    {
      if |s[i..]| >= 6 {
        assert !OccursAt(s, RefStart, i);
        assert s[i..i + 6] == s[i..][..6];
      }
    }
  }

  /** Text without `[[REF:` is left as it is by the reference pass. */
  lemma ResolveRefsWithoutTokens(s: string, docs: seq<Document>)
    requires !Contains(s, RefStart)
    ensures ResolveRefs(s, docs) == s
  {
    RefRuleConsumes(docs);
    NoRefStartAnywhere(s);
    forall i | 0 <= i < |s|
      ensures RefRule(docs)(s[i..]).None?
    {
      RefMatchMisses(s[i..], docs);
    }
    NoHitKeeps(s, RefRule(docs));
  }

  // ---------------------------------------------------------------- processContent lemmas

  /** Empty content renders as the empty string; without an active profile the
      `{{…}}` tokens are left as they are, and text without references is unchanged. */
  lemma ProcessedContentBasics(content: string, docs: seq<Document>)
    ensures ProcessedContent([], None, docs) == []
    ensures !Contains(content, RefStart) ==> ProcessedContent(content, None, docs) == content
  {
    if !Contains(content, RefStart) {
      ResolveRefsWithoutTokens(content, docs);
    }
  }
}
