/** The document editor: the draft it holds, the lock an approved document is under,
    the section edits, the variable and reference pickers, the AI refinement dialog and
    the AI draft, and the label of the revise button. */
module Editor {
  import opened Wrappers
  import opened Strings
  import opened Types
  import opened Filtering
  import opened Fragments
  import Substitution
  import Versions
  import App

  datatype Field = TitleField | ContentField

  datatype RefineMode = Replace | Append

  /** The metadata inputs of the settings dialog and the title input. */
  datatype MetaEdit =
    | SetDocNumber(docNumber: string)
    | SetCategory(category: string)
    | SetLevel(level: Level)
    | SetDepartment(department: string)
    | SetTitle(title: string)

  /** `isLocked`: an approved document is read-only. */
  predicate Locked(doc: Document) {
    doc.status == Approved
  }

  // ---------------------------------------------------------------- sections

  function WithField(s: Section, field: Field, value: string): Section {
    match field
    case TitleField => s.(title := value)
    case ContentField => s.(content := value)
  }

  /** `sections.map(s => s.id === id ? { ...s, [field]: value } : s)`. */
  function UpdateSections(sections: seq<Section>, id: string, field: Field, value: string): (r: seq<Section>)
    ensures |r| == |sections|
    ensures forall i {:trigger r[i]} | 0 <= i < |r| :: r[i].id == sections[i].id
  {
    seq(|sections|, i requires 0 <= i < |sections| =>
      if sections[i].id == id then WithField(sections[i], field, value) else sections[i])
  }

  /** An edit sets the named field of every section with the id, keeps its other field,
      and leaves every other section as it was; an unknown id changes nothing. */
  lemma UpdateSectionsEffect(sections: seq<Section>, id: string, field: Field, value: string)
    ensures var r := UpdateSections(sections, id, field, value);
      forall i | 0 <= i < |r| ::
        if sections[i].id == id then
          && (field == TitleField ==> r[i].title == value && r[i].content == sections[i].content)
          && (field == ContentField ==> r[i].content == value && r[i].title == sections[i].title)
        else r[i] == sections[i]
    ensures (forall s | s in sections :: s.id != id) ==> UpdateSections(sections, id, field, value) == sections
  {
  }

  /** Of two edits of the same field of the same section, the later one wins. */
  lemma LastEditWins(sections: seq<Section>, id: string, field: Field, v1: string, v2: string)
    ensures UpdateSections(UpdateSections(sections, id, field, v1), id, field, v2)
      == UpdateSections(sections, id, field, v2)
  {
  }

  /** `sections.find(s => s.id === id)`. */
  function FindSection(sections: seq<Section>, id: string): (r: Option<Section>)
    ensures r.Some? ==> r.value in sections && r.value.id == id
    ensures r.None? <==> forall s | s in sections :: s.id != id
  {
    if sections == [] then None
    else if sections[0].id == id then Some(sections[0])
    else FindSection(sections[1..], id)
  }

  /** The search returns the first section carrying the id. */
  lemma {:induction false} FindSectionFirst(sections: seq<Section>, id: string, i: nat)
    requires i < |sections| && sections[i].id == id
    requires forall j | 0 <= j < i :: sections[j].id != id
    ensures FindSection(sections, id) == Some(sections[i])
  {
    if i > 0 {
      assert forall j | 0 <= j < i - 1 :: sections[1..][j] == sections[j + 1];
      FindSectionFirst(sections[1..], id, i - 1);
    }
  }

  /** The delete button: `sections.filter(sec => sec.id !== id)`. */
  function RemoveSection(sections: seq<Section>, id: string): seq<Section> {
    Filter(sections, (s: Section) => s.id != id)
  }

  /** Deleting removes every section with the id and keeps every other one. */
  lemma RemoveSectionRemoves(sections: seq<Section>, id: string, s: Section)
    ensures s in RemoveSection(sections, id) <==> s in sections && s.id != id
  {
    FilterMembers(sections, (x: Section) => x.id != id, s);
  }

  const NewSectionTitle: string := "新增章節單元"

  /** The add button appends an empty section under the placeholder title. */
  function AddSection(sections: seq<Section>, newId: string): seq<Section> {
    sections + [Section(newId, NewSectionTitle, "")]
  }

  /** The sections an AI draft produces, each under a fresh id. */
  function GeneratedSections(generated: seq<(string, string)>, ids: seq<string>): (r: seq<Section>)
    requires |ids| == |generated|
    ensures |r| == |generated|
    ensures forall i {:trigger r[i]} | 0 <= i < |r| ::
      r[i].id == ids[i] && r[i].title == generated[i].0 && r[i].content == generated[i].1
  {
    seq(|generated|, i requires 0 <= i < |generated| => Section(ids[i], generated[i].0, generated[i].1))
  }

  // ---------------------------------------------------------------- guarded edits

  /** `handleSectionChange`: ignored when the document is locked. */
  function SectionChanged(doc: Document, id: string, field: Field, value: string): Document {
    if Locked(doc) then doc else doc.(sections := UpdateSections(doc.sections, id, field, value))
  }

  /** The metadata inputs: each is ignored when the document is locked. */
  function MetaEdited(doc: Document, edit: MetaEdit): Document {
    if Locked(doc) then doc
    else match edit
      case SetDocNumber(n) => doc.(docNumber := n)
      case SetCategory(c) => doc.(category := c)
      case SetLevel(l) => doc.(level := l)
      case SetDepartment(d) => doc.(department := d)
      case SetTitle(t) => doc.(title := t)
  }

  /** `{{key}}`, the token the variable picker inserts. */
  function VariableToken(key: string): string {
    Substitution.Token(key)
  }

  /** `[[REF:id]]`, the token the reference picker inserts. */
  function ReferenceToken(id: string): string {
    RefStart + id + "]]"
  }

  /** `insertVariable` / `insertReference` on the document: the token is appended to the
      content of the first section with the id; an unknown id changes nothing. */
  function Inserted(doc: Document, sectionId: string, token: string): Document {
    match FindSection(doc.sections, sectionId)
    case None => doc
    case Some(s) => SectionChanged(doc, sectionId, ContentField, s.content + token)
  }

  /** Inserting into an editable document appends the token to the section's content and
      nothing else: the title is kept, and so is every other section. */
  lemma InsertAppends(doc: Document, sectionId: string, token: string, i: nat)
    requires !Locked(doc)
    requires i < |doc.sections| && doc.sections[i].id == sectionId
    requires forall j | 0 <= j < |doc.sections| && j != i :: doc.sections[j].id != sectionId
    ensures var r := Inserted(doc, sectionId, token).sections;
      && |r| == |doc.sections|
      && r[i] == Section(sectionId, doc.sections[i].title, doc.sections[i].content + token)
      && EndsWith(r[i].content, token) && StartsWith(r[i].content, doc.sections[i].content)
      && forall j | 0 <= j < |r| && j != i :: r[j] == doc.sections[j]
  {
    FindSectionFirst(doc.sections, sectionId, i);
    var c := doc.sections[i].content + token;
    assert c[|c| - |token|..] == token;
    assert c[..|doc.sections[i].content|] == doc.sections[i].content;
  }

  /** An inserted variable token renders as the variable's value: content without a `{`
      followed by `{{key}}` becomes that content followed by the value's fragment. */
  lemma InsertedVariableRenders(content: string, key: string, value: string)
    requires '{' !in content
    ensures Substitution.SubstituteVar(content + VariableToken(key), key, value)
      == content + Substitution.VarFragment(Substitution.Shown(key, value))
  {
    Substitution.SubstituteVarAtToken(content, key, value, []);
    assert content + VariableToken(key) + [] == content + VariableToken(key);
    assert Substitution.SubstituteVar([], key, value) == [];
  }

  /** An inserted reference token renders as the resolution of the referenced id. */
  lemma InsertedReferenceRenders(content: string, id: string, docs: seq<Document>)
    requires '[' !in content && NoLineBreak(id) && !Contains(id, "]]") && (id == [] || id[|id| - 1] != ']')
    ensures Substitution.ResolveRefs(content + ReferenceToken(id), docs)
      == content + Substitution.Resolve(docs, id)
  {
    var whole := content + RefStart + id + "]]" + [];
    assert whole == content + ReferenceToken(id) by {
      assert whole == content + RefStart + id + "]]";
      assert content + RefStart + id + "]]" == content + (RefStart + id + "]]");
    }
    assert Substitution.ResolveRefs([], docs) == [];
    Substitution.ResolveRefsAtToken(content, id, [], docs);
  }

  /** `handleAIAutoFill`: with a prompt and an editable document, the draft's sections
      replace the old ones and the prompt becomes the title. `generated` is the
      service's answer, `None` when it failed. */
  function AutoFilled(doc: Document, prompt: string, generated: Option<seq<(string, string)>>, ids: seq<string>): Document
    requires generated.Some? ==> |ids| == |generated.value|
  {
    if prompt == [] || Locked(doc) || generated.None? then doc
    else doc.(title := prompt, sections := GeneratedSections(generated.value, ids))
  }

  /** An AI draft accepted for an editable document gives it the prompt as its title and
      one section per generated pair, in order, under the fresh ids; nothing else of the
      document changes. Without a prompt, on a locked document or when the service
      failed, the document is left as it is. */
  lemma AutoFilledEffect(doc: Document, prompt: string, generated: Option<seq<(string, string)>>, ids: seq<string>)
    requires generated.Some? ==> |ids| == |generated.value|
    ensures prompt == [] || Locked(doc) || generated.None? ==> AutoFilled(doc, prompt, generated, ids) == doc
    ensures prompt != [] && !Locked(doc) && generated.Some? ==>
      var r := AutoFilled(doc, prompt, generated, ids);
      && r.title == prompt
      && |r.sections| == |generated.value|
      && (forall i | 0 <= i < |r.sections| ::
            && r.sections[i].id == ids[i]
            && r.sections[i].title == generated.value[i].0
            && r.sections[i].content == generated.value[i].1)
      && r.(title := doc.title, sections := doc.sections) == doc
  {
  }

  /** A locked document is left exactly as it is by every guarded handler. */
  lemma LockedIsFrozen(doc: Document, id: string, field: Field, value: string, edit: MetaEdit, token: string,
                       prompt: string, generated: Option<seq<(string, string)>>, ids: seq<string>)
    requires Locked(doc)
    requires generated.Some? ==> |ids| == |generated.value|
    ensures SectionChanged(doc, id, field, value) == doc
    ensures MetaEdited(doc, edit) == doc
    ensures Inserted(doc, id, token) == doc
    ensures AutoFilled(doc, prompt, generated, ids) == doc
  {
  }

  /** No editor change touches the status, so a document stays locked or editable as it
      was opened. */
  lemma EditsKeepStatus(doc: Document, id: string, field: Field, value: string, edit: MetaEdit, token: string,
                        prompt: string, generated: Option<seq<(string, string)>>, ids: seq<string>)
    requires generated.Some? ==> |ids| == |generated.value|
    ensures SectionChanged(doc, id, field, value).status == doc.status
    ensures MetaEdited(doc, edit).status == doc.status
    ensures Inserted(doc, id, token).status == doc.status
    ensures AutoFilled(doc, prompt, generated, ids).status == doc.status
  {
  }

  /** An editable document takes every metadata edit, and only the field edited changes. */
  lemma MetaEditTakes(doc: Document, edit: MetaEdit)
    requires !Locked(doc)
    ensures var r := MetaEdited(doc, edit);
      && r.sections == doc.sections && r.version == doc.version && r.status == doc.status
      && (edit.SetDocNumber? ==> r.docNumber == edit.docNumber && r == doc.(docNumber := edit.docNumber))
      && (edit.SetCategory? ==> r.category == edit.category && r == doc.(category := edit.category))
      && (edit.SetLevel? ==> r.level == edit.level && r == doc.(level := edit.level))
      && (edit.SetDepartment? ==> r.department == edit.department && r == doc.(department := edit.department))
      && (edit.SetTitle? ==> r.title == edit.title && r == doc.(title := edit.title))
  {
  }

  // ---------------------------------------------------------------- refinement and suggestions

  /** `!x` on a `string | null`: null and the empty string are both falsy. */
  predicate Truthy(x: Option<string>) {
    x.Some? && x.value != []
  }

  /** `handleRefine` goes on only for a section that exists and holds more than whitespace. */
  predicate Refinable(sections: seq<Section>, id: string) {
    FindSection(sections, id).Some? && Trim(FindSection(sections, id).value.content) != []
  }

  /** The content `applyRefinement` writes: the answer alone, or appended after a blank line. */
  function Refined(content: string, answer: string, mode: RefineMode): (r: string)
    ensures mode == Append ==> StartsWith(r, content) && EndsWith(r, answer)
    ensures mode == Replace ==> r == answer
  {
    match mode
    case Replace => answer
    case Append =>
      var r := content + "\n\n" + answer;
      assert r[..|content|] == content;
      assert r[|r| - |answer|..] == answer;
      r
  }

  /** The content input opens the picker when the text now ends with `{{` or `[[`. */
  predicate OpensSuggestions(value: string) {
    EndsWith(value, "{{") || EndsWith(value, "[[")
  }

  /** Typing the opening braces of a token opens the picker; the finished token closes it. */
  lemma SuggestionsFollowTyping(content: string, key: string, id: string)
    ensures OpensSuggestions(content + "{{") && OpensSuggestions(content + "[[")
    ensures !OpensSuggestions(content + VariableToken(key)) && !OpensSuggestions(content + ReferenceToken(id))
  {
    var a := content + "{{";
    assert a[|a| - 2..] == "{{";
    var b := content + "[[";
    assert b[|b| - 2..] == "[[";
    var v := content + VariableToken(key);
    assert v[|v| - 1] == '}';
    assert v[|v| - 2..][1] == v[|v| - 1];
    var w := content + ReferenceToken(id);
    assert w[|w| - 1] == ']';
    assert w[|w| - 2..][1] == w[|w| - 1];
  }

  /** The reference picker offers every document but the one being edited. */
  function ReferenceCandidates(all: seq<Document>, doc: Document): seq<Document> {
    Filter(all, (d: Document) => d.id != doc.id)
  }

  lemma ReferenceCandidatesExcludeSelf(all: seq<Document>, doc: Document, d: Document)
    ensures d in ReferenceCandidates(all, doc) <==> d in all && d.id != doc.id
  {
    FilterMembers(all, (x: Document) => x.id != doc.id, d);
  }

  // ---------------------------------------------------------------- the revise button

  /** The label the revise button should carry: the version `handleCreateRevision` gives
      the new draft. */
  function ReviseLabel(doc: Document): string {
    Versions.MajorVersion(doc.version)
  }

  /** The corrected label names the version the revision creates, for every document. */
  lemma ReviseLabelNamesRevision(doc: Document, stamp: string, now: string)
    ensures ReviseLabel(doc) == App.Revise(doc, App.Major, stamp, now).version
  {
    App.ReviseShape(doc, App.Major, stamp, now);
  }

  /** The label as written misnames the revision of the seeded document `A.0`: it shows
      `NaN` where the new draft is `1.0`. */
  lemma ReviseLabelAsWrittenMisnames(stamp: string, now: string)
    ensures Versions.ReviseLabelAsWritten(App.SeedDocument().version) == "NaN"
    ensures App.Revise(App.SeedDocument(), App.Major, stamp, now).version == "1.0"
    ensures ReviseLabel(App.SeedDocument()) == "1.0"
  {
    Versions.LabelOfNonNumber();
    ReviseLabelNamesRevision(App.SeedDocument(), stamp, now);
  }

  // ---------------------------------------------------------------- the editor

  /** The editor's state: the draft and the dialogs' selections. */
  class DocumentEditor {
    var doc: Document
    var aiPrompt: string
    var activeSuggestionSection: Option<string>
    var refiningSectionId: Option<string>
    var refineResult: Option<string>

    constructor(initial: Document)
      ensures doc == initial && aiPrompt == []
      ensures activeSuggestionSection.None? && refiningSectionId.None? && refineResult.None?
    {
      doc := initial;
      aiPrompt := [];
      activeSuggestionSection := None;
      refiningSectionId := None;
      refineResult := None;
    }

    /** `handleSectionChange`, as the title and content inputs call it. */
    method SectionChange(id: string, field: Field, value: string)
      modifies this
      ensures doc == SectionChanged(old(doc), id, field, value)
      ensures aiPrompt == old(aiPrompt) && activeSuggestionSection == old(activeSuggestionSection)
      ensures refiningSectionId == old(refiningSectionId) && refineResult == old(refineResult)
    {
      if !Locked(doc) {
        doc := doc.(sections := UpdateSections(doc.sections, id, field, value));
      }
    }

    /** The content input: the change, then the picker opens when the text ends with the
        opening of a token and closes otherwise. */
    method ContentTyped(id: string, value: string)
      modifies this
      ensures doc == SectionChanged(old(doc), id, ContentField, value)
      ensures activeSuggestionSection == (if OpensSuggestions(value) then Some(id) else None)
      ensures aiPrompt == old(aiPrompt)
      ensures refiningSectionId == old(refiningSectionId) && refineResult == old(refineResult)
    {
      SectionChange(id, ContentField, value);
      if OpensSuggestions(value) {
        activeSuggestionSection := Some(id);
      } else {
        activeSuggestionSection := None;
      }
    }

    /** The picker button: it closes the picker open on this section, or opens it here. */
    method ToggleSuggestions(id: string)
      modifies this
      ensures activeSuggestionSection == (if old(activeSuggestionSection) == Some(id) then None else Some(id))
      ensures doc == old(doc) && aiPrompt == old(aiPrompt)
      ensures refiningSectionId == old(refiningSectionId) && refineResult == old(refineResult)
    {
      if activeSuggestionSection == Some(id) {
        activeSuggestionSection := None;
      } else {
        activeSuggestionSection := Some(id);
      }
    }

    /** The token is appended to the section's content through `handleSectionChange`, so
        a locked document keeps its content; the picker closes in either case. An unknown
        section changes nothing. */
    method InsertToken(sectionId: string, token: string)
      modifies this
      ensures doc == Inserted(old(doc), sectionId, token)
      ensures activeSuggestionSection
        == (if FindSection(old(doc).sections, sectionId).None? then old(activeSuggestionSection) else None)
      ensures aiPrompt == old(aiPrompt)
      ensures refiningSectionId == old(refiningSectionId) && refineResult == old(refineResult)
    {
      var section := FindSection(doc.sections, sectionId);
      if section.Some? {
        SectionChange(sectionId, ContentField, section.value.content + token);
        activeSuggestionSection := None;
      }
    }

    /** `insertVariable`. */
    method InsertVariable(sectionId: string, key: string)
      modifies this
      ensures doc == Inserted(old(doc), sectionId, VariableToken(key))
      ensures activeSuggestionSection
        == (if FindSection(old(doc).sections, sectionId).None? then old(activeSuggestionSection) else None)
      ensures aiPrompt == old(aiPrompt)
      ensures refiningSectionId == old(refiningSectionId) && refineResult == old(refineResult)
    {
      InsertToken(sectionId, VariableToken(key));
    }

    /** `insertReference`. */
    method InsertReference(sectionId: string, docId: string)
      modifies this
      ensures doc == Inserted(old(doc), sectionId, ReferenceToken(docId))
      ensures activeSuggestionSection
        == (if FindSection(old(doc).sections, sectionId).None? then old(activeSuggestionSection) else None)
      ensures aiPrompt == old(aiPrompt)
      ensures refiningSectionId == old(refiningSectionId) && refineResult == old(refineResult)
    {
      InsertToken(sectionId, ReferenceToken(docId));
    }

    /** `handleRefine`: a section that exists and holds more than whitespace is marked
        for refinement and the service's answer, when there is one, is kept for the
        dialog. `answer` is that answer, `None` when the call failed. */
    method Refine(sectionId: string, answer: Option<string>)
      modifies this
      ensures !Refinable(old(doc).sections, sectionId) ==>
        refiningSectionId == old(refiningSectionId) && refineResult == old(refineResult)
      ensures Refinable(old(doc).sections, sectionId) ==>
        refiningSectionId == Some(sectionId) && refineResult == (if answer.Some? then answer else old(refineResult))
      ensures doc == old(doc) && aiPrompt == old(aiPrompt) && activeSuggestionSection == old(activeSuggestionSection)
    {
      if Refinable(doc.sections, sectionId) {
        refiningSectionId := Some(sectionId);
        if answer.Some? {
          refineResult := answer;
        }
      }
    }

    /** `applyRefinement`: with a marked section that still exists and a non-empty answer,
        the section's content becomes the refined content and the dialog closes;
        otherwise nothing changes. */
    method ApplyRefinement(mode: RefineMode)
      modifies this
      ensures
        if !Truthy(old(refiningSectionId)) || !Truthy(old(refineResult))
          || FindSection(old(doc).sections, old(refiningSectionId).value).None? then
          && doc == old(doc)
          && refiningSectionId == old(refiningSectionId) && refineResult == old(refineResult)
        else
          && doc == SectionChanged(old(doc), old(refiningSectionId).value, ContentField,
               Refined(FindSection(old(doc).sections, old(refiningSectionId).value).value.content, old(refineResult).value, mode))
          && refiningSectionId.None? && refineResult.None?
      ensures aiPrompt == old(aiPrompt) && activeSuggestionSection == old(activeSuggestionSection)
    {
      if !Truthy(refiningSectionId) || !Truthy(refineResult) {
        return;
      }
      var id := refiningSectionId.value;
      var section := FindSection(doc.sections, id);
      if section.None? {
        return;
      }
      var newContent := if mode == Replace then refineResult.value else section.value.content + "\n\n" + refineResult.value;
      SectionChange(id, ContentField, newContent);
      refineResult := None;
      refiningSectionId := None;
    }

    /** Closing the refinement dialog discards the answer. */
    method CancelRefinement()
      modifies this
      ensures refiningSectionId.None? && refineResult.None?
      ensures doc == old(doc) && aiPrompt == old(aiPrompt) && activeSuggestionSection == old(activeSuggestionSection)
    {
      refineResult := None;
      refiningSectionId := None;
    }

    /** The prompt input. */
    method SetPrompt(prompt: string)
      modifies this
      ensures aiPrompt == prompt
      ensures doc == old(doc) && activeSuggestionSection == old(activeSuggestionSection)
      ensures refiningSectionId == old(refiningSectionId) && refineResult == old(refineResult)
    {
      aiPrompt := prompt;
    }

    /** `handleAIAutoFill`; `ids` are the random ids the new sections receive. */
    method AIAutoFill(generated: Option<seq<(string, string)>>, ids: seq<string>)
      requires generated.Some? ==> |ids| == |generated.value|
      modifies this
      ensures doc == AutoFilled(old(doc), old(aiPrompt), generated, ids)
      ensures aiPrompt == old(aiPrompt) && activeSuggestionSection == old(activeSuggestionSection)
      ensures refiningSectionId == old(refiningSectionId) && refineResult == old(refineResult)
    {
      if aiPrompt == [] || Locked(doc) || generated.None? {
        return;
      }
      doc := doc.(title := aiPrompt, sections := GeneratedSections(generated.value, ids));
    }

    /** The metadata inputs and the title input. */
    method EditMetadata(edit: MetaEdit)
      modifies this
      ensures doc == MetaEdited(old(doc), edit)
      ensures aiPrompt == old(aiPrompt) && activeSuggestionSection == old(activeSuggestionSection)
      ensures refiningSectionId == old(refiningSectionId) && refineResult == old(refineResult)
    {
      doc := MetaEdited(doc, edit);
    }

    /** The delete button of a section. The handler itself does not consult the lock;
        the button is only shown on an editable document. */
    method DeleteSection(id: string)
      modifies this
      ensures doc == old(doc).(sections := RemoveSection(old(doc).sections, id))
      ensures aiPrompt == old(aiPrompt) && activeSuggestionSection == old(activeSuggestionSection)
      ensures refiningSectionId == old(refiningSectionId) && refineResult == old(refineResult)
    {
      doc := doc.(sections := RemoveSection(doc.sections, id));
    }

    /** The add button; `newId` is the random id of the new section. Like deletion, it is
        only offered on an editable document. */
    method AddNewSection(newId: string)
      modifies this
      ensures doc == old(doc).(sections := AddSection(old(doc).sections, newId))
      ensures aiPrompt == old(aiPrompt) && activeSuggestionSection == old(activeSuggestionSection)
      ensures refiningSectionId == old(refiningSectionId) && refineResult == old(refineResult)
    {
      doc := doc.(sections := AddSection(doc.sections, newId));
    }
  }
}
