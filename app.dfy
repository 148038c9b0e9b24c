/** The document records of the application shell: a new draft from a template, a new
    version of an approved document, saving into the document list, saving a copy as a
    template, and the category registry; then the shell itself, whose collections the
    handlers replace. Ids and clock readings are parameters. */
module App {
  import opened Wrappers
  import opened Types
  import opened Versions
  import opened Filtering
  import opened Substitution

  // ---------------------------------------------------------------- a new draft

  /** The fields of a `Partial<ISODocument>` that a new draft takes from its template;
      the gallery's blank choice passes `{}`. */
  datatype TemplateDraft = TemplateDraft(
    title: Option<string>,
    docNumber: Option<string>,
    level: Option<Level>,
    category: Option<string>,
    department: Option<string>,
    sections: Option<seq<Section>>)

  const Blank: TemplateDraft := TemplateDraft(None, None, None, None, None, None)

  /** The two sections a draft starts with when the template has none. */
  const DefaultSections: seq<Section> := [
    Section("1", "1.0 目的", "請在此輸入文件目的..."),
    Section("2", "2.0 範圍", "請在此輸入適用範圍...")
  ]

  /** `template?.field || fallback` for a string field: a missing or empty string falls
      back. */
  function OrElse(field: Option<string>, fallback: string): (r: string)
    ensures field.Some? && field.value != [] ==> r == field.value
    ensures field.None? || field.value == [] ==> r == fallback
  {
    if field.Some? && field.value != [] then field.value else fallback
  }

  /** `handleCreateNew`. Without a category in the template the draft is filed under the
      first registered category; with no category registered that lookup fails
      (`categories[0].id` on an empty list throws), which is `None` here. */
  function NewDocument(template: TemplateDraft, categories: seq<CategoryDef>, id: string, now: string): (r: Option<Document>)
    ensures r.None? <==> OrElse(template.category, "") == [] && categories == []
  {
    if OrElse(template.category, "") == [] && categories == [] then None
    else
      Some(Document(
        id := id,
        title := OrElse(template.title, "新文件草案"),
        docNumber := OrElse(template.docNumber, "DOC-TEMP"),
        version := "1.0",
        level := template.level.GetOr(Level2),
        category := OrElse(template.category, if categories == [] then "" else categories[0].id),
        department := OrElse(template.department, "未分類"),
        author := "使用者",
        reviewerEmail := None,
        createdAt := now,
        status := Draft,
        reviewers := [],
        finalApprover := FinalApprover("管理代表", Pending, None, None),
        sections := template.sections.GetOr(DefaultSections),
        revisions := [],
        approvalLog := None,
        lockedContentSnapshot := None,
        isTemplate := None))
  }

  /** A new draft is a pending first version with no history: its template's sections
      (an empty list included) or the two default sections, its template's non-empty
      fields and the defaults for the rest. */
  lemma NewDocumentShape(template: TemplateDraft, categories: seq<CategoryDef>, id: string, now: string)
    requires NewDocument(template, categories, id, now).Some?
    ensures var d := NewDocument(template, categories, id, now).value;
      && d.status == Draft && d.version == "1.0" && d.reviewers == [] && d.revisions == []
      && d.approvalLog.None? && d.finalApprover.status == Pending
      && d.sections == (if template.sections.Some? then template.sections.value else DefaultSections)
      && d.title != [] && d.docNumber != [] && d.department != []
      && d.id == id && d.createdAt == now && d.author == "使用者" && d.reviewerEmail.None?
      && d.finalApprover.name == "管理代表"
      && d.title == (if template.title.Some? && template.title.value != [] then template.title.value else "新文件草案")
      && d.docNumber == (if template.docNumber.Some? && template.docNumber.value != [] then template.docNumber.value else "DOC-TEMP")
      && d.department == (if template.department.Some? && template.department.value != [] then template.department.value else "未分類")
      && d.level == (if template.level.Some? then template.level.value else Level2)
      && (template.category.Some? && template.category.value != [] ==> d.category == template.category.value)
      && (template.category.None? || template.category.value == [] ==> d.category == categories[0].id)
  {
  }

  /** The gallery's blank choice gives the default draft. */
  lemma BlankDraft(categories: seq<CategoryDef>, id: string, now: string)
    requires categories != []
    ensures var d := NewDocument(Blank, categories, id, now);
      && d.Some? && d.value.title == "新文件草案" && d.value.docNumber == "DOC-TEMP"
      && d.value.level == Level2 && d.value.category == categories[0].id
      && d.value.department == "未分類" && d.value.sections == DefaultSections
  {
  }

  // ---------------------------------------------------------------- a new version

  datatype RevisionKind = Major | Minor

  /** The line a new version adds to the revision history. */
  function RevisionDescription(kind: RevisionKind, oldVersion: string): string {
    match kind
    case Minor => "行政勘誤 / Typo Correction"
    case Major => "基於版本 " + oldVersion + " 建立之修訂版"
  }

  /** `handleCreateRevision`: a deep copy of the old document with a new id and creation
      time, the next version, no approval, no reviewers, the approver's name kept and
      reset to pending, and the old version recorded in the history. `stamp` is
      `Date.now()`, `now` is the ISO timestamp. */
  function Revise(oldDoc: Document, kind: RevisionKind, stamp: string, now: string): (r: Document)
    ensures r.revisions == oldDoc.revisions
      + [RevisionEntry(stamp + "-rev", oldDoc.version, Strings.Before(now, 'T'), RevisionDescription(kind, oldDoc.version), "使用者")]
  {
    oldDoc.(
      id := stamp,
      version := if kind == Major then MajorVersion(oldDoc.version) else MinorVersion(oldDoc.version),
      status := if kind == Major then Draft else Approving,
      createdAt := now,
      approvalLog := None,
      reviewers := [],
      finalApprover := FinalApprover(oldDoc.finalApprover.name, Pending, None, None),
      revisions := oldDoc.revisions
        + [RevisionEntry(stamp + "-rev", oldDoc.version, Strings.Before(now, 'T'), RevisionDescription(kind, oldDoc.version), "使用者")])
  }

  /** A new version keeps the content and filing of the old one, starts its approval
      afresh, and grows the history by exactly one entry naming the old version. */
  lemma ReviseShape(oldDoc: Document, kind: RevisionKind, stamp: string, now: string)
    ensures var r := Revise(oldDoc, kind, stamp, now);
      && r.title == oldDoc.title && r.docNumber == oldDoc.docNumber && r.sections == oldDoc.sections
      && r.level == oldDoc.level && r.category == oldDoc.category && r.department == oldDoc.department
      && r.author == oldDoc.author && r.reviewerEmail == oldDoc.reviewerEmail
      && r.reviewers == [] && r.approvalLog.None?
      && r.finalApprover == FinalApprover(oldDoc.finalApprover.name, Pending, None, None)
      && |r.revisions| == |oldDoc.revisions| + 1
      && r.revisions[..|oldDoc.revisions|] == oldDoc.revisions
      && r.revisions[|oldDoc.revisions|].version == oldDoc.version
    ensures kind == Major ==>
      Revise(oldDoc, kind, stamp, now).status == Draft && Revise(oldDoc, kind, stamp, now).version == MajorVersion(oldDoc.version)
    ensures kind == Minor ==>
      Revise(oldDoc, kind, stamp, now).status == Approving && Revise(oldDoc, kind, stamp, now).version == MinorVersion(oldDoc.version)
  {
    var r := Revise(oldDoc, kind, stamp, now);
    assert r.revisions[..|oldDoc.revisions|] == oldDoc.revisions;
  }

  /** The seeded document, version `A.0`, whose first major revision is `1.0`. */
  function SeedDocument(): Document {
    Document(
      id := "1",
      title := "品質管理手冊",
      docNumber := "QM-01",
      version := "A.0",
      level := Level1,
      category := "iso",
      department := "管理部",
      author := "Admin",
      reviewerEmail := None,
      createdAt := "2023-10-01",
      status := Approved,
      reviewers := [Reviewer("r1", "陳經理", Signed, Some("2023-10-02"), Some("Email 確認 OK"))],
      finalApprover := FinalApprover("吳總經理", Signed, Some("2023-10-03"), Some("簽呈核准")),
      sections := [
        Section("s1", "範圍", "本手冊涵蓋 {{COMPANY_NAME}} 所有產品之生產與銷售流程。"),
        Section("s2", "引用標準", "ISO 9001:2015 品質管理系統。")
      ],
      revisions := [RevisionEntry("r1", "A.0", "2023-10-01", "初版發行", "Admin")],
      approvalLog := None,
      lockedContentSnapshot := None,
      isTemplate := None)
  }

  /** Revising the seeded document reads its version `A.0` as 0, so the new version is
      `1.0` and the history records `A.0`. */
  lemma SeedRevision(stamp: string, now: string)
    ensures var r := Revise(SeedDocument(), Major, stamp, now);
      r.version == "1.0" && r.status == Draft && |r.revisions| == 2 && r.revisions[1].version == "A.0"
  {
    MajorOfNonNumber();
  }

  // ---------------------------------------------------------------- saving

  predicate HasId(docs: seq<Document>, id: string) {
    exists i | 0 <= i < |docs| :: docs[i].id == id
  }

  /** `handleSave`: a document whose id is already listed replaces every entry with that
      id in place; a new one goes to the front. */
  function Upsert(docs: seq<Document>, doc: Document): (r: seq<Document>)
    ensures HasId(docs, doc.id) ==>
      |r| == |docs| && forall i | 0 <= i < |docs| :: r[i] == (if docs[i].id == doc.id then doc else docs[i])
    ensures !HasId(docs, doc.id) ==> r == [doc] + docs
  {
    if FindDoc(docs, doc.id).Some? then
      seq(|docs|, i requires 0 <= i < |docs| => if docs[i].id == doc.id then doc else docs[i])
    else [doc] + docs
  }

  /** After saving, looking the id up finds the saved document, and every document with
      another id is still there, at the same place when the id was known. */
  lemma UpsertFinds(docs: seq<Document>, doc: Document)
    ensures FindDoc(Upsert(docs, doc), doc.id) == Some(doc)
    ensures forall d | d in docs && d.id != doc.id :: d in Upsert(docs, doc)
    ensures forall d | d in Upsert(docs, doc) :: d == doc || d in docs
  {
    var r := Upsert(docs, doc);
    if HasId(docs, doc.id) {
      var k := FirstWithId(docs, doc.id);
      FindFirstWithId(r, doc.id, k);
      forall d | d in docs && d.id != doc.id ensures d in r {
        var i :| 0 <= i < |docs| && docs[i] == d;
        assert r[i] == d;
      }
    } else {
      assert r[0] == doc;
    }
  }

  /** The position of the first document with the id. */
  lemma {:induction false} FirstWithId(docs: seq<Document>, id: string) returns (k: nat)
    requires HasId(docs, id)
    ensures k < |docs| && docs[k].id == id && forall j | 0 <= j < k :: docs[j].id != id
  {
    if docs[0].id == id {
      k := 0;
    } else {
      assert HasId(docs[1..], id) by {
        var i :| 0 <= i < |docs| && docs[i].id == id;
        assert docs[1..][i - 1].id == id;
      }
      var k' := FirstWithId(docs[1..], id);
      k := k' + 1;
      assert forall j | 1 <= j < k :: docs[j] == docs[1..][j - 1];
    }
  }

  lemma {:induction false} FindFirstWithId(docs: seq<Document>, id: string, k: nat)
    requires k < |docs| && docs[k].id == id && forall j | 0 <= j < k :: docs[j].id != id
    ensures FindDoc(docs, id) == Some(docs[k])
  {
    if k > 0 {
      FindFirstWithId(docs[1..], id, k - 1);
    }
  }

  /** Saving the same document twice is saving it once. */
  lemma UpsertIdempotent(docs: seq<Document>, doc: Document)
    ensures Upsert(Upsert(docs, doc), doc) == Upsert(docs, doc)
  {
    var r := Upsert(docs, doc);
    if !HasId(docs, doc.id) {
      assert r[0].id == doc.id;
    }
    assert HasId(r, doc.id) by {
      if HasId(docs, doc.id) {
        var i :| 0 <= i < |docs| && docs[i].id == doc.id;
        assert r[i].id == doc.id;
      } else {
        assert r[0].id == doc.id;
      }
    }
  }

  predicate DistinctIds(docs: seq<Document>) {
    forall i, j | 0 <= i < j < |docs| :: docs[i].id != docs[j].id
  }

  /** Saving keeps the ids of the list distinct. */
  lemma UpsertKeepsDistinct(docs: seq<Document>, doc: Document)
    requires DistinctIds(docs)
    ensures DistinctIds(Upsert(docs, doc))
  {
    var r := Upsert(docs, doc);
    if !HasId(docs, doc.id) {
      forall i, j | 0 <= i < j < |r| ensures r[i].id != r[j].id {
        if i == 0 {
          assert r[j] == docs[j - 1];
        } else {
          assert r[i] == docs[i - 1] && r[j] == docs[j - 1];
        }
      }
    }
  }

  /** `handleSaveAsTemplate`: a shallow copy marked as a template, a draft again, with a
      fresh id and creation time, no history and no approval. */
  function TemplateCopy(doc: Document, stamp: string, now: string): (t: Document)
    ensures t.id == "tpl-" + stamp && t.isTemplate == Some(true) && t.status == Draft
    ensures t.revisions == [] && t.approvalLog.None? && t.createdAt == now
  {
    doc.(id := "tpl-" + stamp, isTemplate := Some(true), status := Draft, createdAt := now,
         revisions := [], approvalLog := None)
  }

  /** The copy keeps the content, filing and roster of the document it was taken from. */
  lemma TemplateCopyKeeps(doc: Document, stamp: string, now: string)
    ensures var t := TemplateCopy(doc, stamp, now);
      && t.title == doc.title && t.docNumber == doc.docNumber && t.version == doc.version
      && t.level == doc.level && t.category == doc.category && t.department == doc.department
      && t.sections == doc.sections && t.reviewers == doc.reviewers && t.finalApprover == doc.finalApprover
      && t == doc.(id := t.id, isTemplate := t.isTemplate, status := t.status, createdAt := t.createdAt,
                   revisions := t.revisions, approvalLog := t.approvalLog)
  {
  }

  // ---------------------------------------------------------------- categories

  /** `prev.filter(c => c.id !== id)`. */
  function WithoutCategory(categories: seq<CategoryDef>, id: string): seq<CategoryDef> {
    Filter(categories, (c: CategoryDef) => c.id != id)
  }

  /** Deleting a category removes exactly the categories with that id. */
  lemma WithoutCategoryRemoves(categories: seq<CategoryDef>, id: string, c: CategoryDef)
    ensures c in WithoutCategory(categories, id) <==> c in categories && c.id != id
  {
    FilterMembers(categories, (c: CategoryDef) => c.id != id, c);
  }

  // ---------------------------------------------------------------- the shell

  const SeedCategories: seq<CategoryDef> := [
    CategoryDef("iso", "品質文件 (ISO)", Blue, System),
    CategoryDef("hr", "人事規章 (HR)", Purple, System),
    CategoryDef("admin", "行政發文 (Admin)", Slate, System)
  ]

  const SeedProfile: VariableProfile := VariableProfile("default", "預設公司",
    [("COMPANY_NAME", "範例科技有限公司"), ("TAX_ID", "88888888"), ("CEO", "王大明")])

  /** The collections the shell owns and replaces through its handlers. */
  class AppState {
    var documents: seq<Document>
    var categories: seq<CategoryDef>
    var userTemplates: seq<Document>
    var editingDoc: Option<Document>
    var variableProfiles: seq<VariableProfile>
    var activeProfileId: string

    /** Listed documents never share an id. */
    ghost predicate Valid()
      reads this
    {
      DistinctIds(documents)
    }

    constructor()
      ensures Valid()
      ensures documents == [SeedDocument()] && categories == SeedCategories && userTemplates == []
      ensures editingDoc.None? && variableProfiles == [SeedProfile] && activeProfileId == "default"
    {
      documents := [SeedDocument()];
      categories := SeedCategories;
      userTemplates := [];
      editingDoc := None;
      variableProfiles := [SeedProfile];
      activeProfileId := "default";
    }

    /** `handleEdit`. */
    method Edit(doc: Document)
      modifies this
      ensures editingDoc == Some(doc)
      ensures documents == old(documents) && categories == old(categories) && userTemplates == old(userTemplates)
      ensures variableProfiles == old(variableProfiles) && activeProfileId == old(activeProfileId)
    {
      editingDoc := Some(doc);
    }

    /** `handleCreateNew`: the new draft goes to the editor; it is not listed until saved.
        When no category can be found the handler throws and nothing changes. */
    method CreateNew(template: TemplateDraft, id: string, now: string)
      modifies this
      ensures NewDocument(template, old(categories), id, now).Some? ==>
        editingDoc == NewDocument(template, old(categories), id, now)
      ensures NewDocument(template, old(categories), id, now).None? ==> editingDoc == old(editingDoc)
      ensures documents == old(documents) && categories == old(categories) && userTemplates == old(userTemplates)
      ensures variableProfiles == old(variableProfiles) && activeProfileId == old(activeProfileId)
    {
      var d := NewDocument(template, categories, id, now);
      if d.Some? {
        editingDoc := d;
      }
    }

    /** `handleCreateRevision`: the new version goes to the editor; the listed old
        version is untouched. */
    method CreateRevision(oldDoc: Document, kind: RevisionKind, stamp: string, now: string)
      modifies this
      ensures editingDoc == Some(Revise(oldDoc, kind, stamp, now))
      ensures documents == old(documents) && categories == old(categories) && userTemplates == old(userTemplates)
      ensures variableProfiles == old(variableProfiles) && activeProfileId == old(activeProfileId)
    {
      editingDoc := Some(Revise(oldDoc, kind, stamp, now));
    }

    /** `handleSave`. */
    method Save(doc: Document)
      requires Valid()
      modifies this
      ensures Valid()
      ensures documents == Upsert(old(documents), doc)
      ensures categories == old(categories) && userTemplates == old(userTemplates) && editingDoc == old(editingDoc)
      ensures variableProfiles == old(variableProfiles) && activeProfileId == old(activeProfileId)
    {
      UpsertKeepsDistinct(documents, doc);
      documents := Upsert(documents, doc);
    }

    /** `handleSaveAsTemplate`: the copy goes to the front of the user templates. */
    method SaveAsTemplate(doc: Document, stamp: string, now: string)
      modifies this
      ensures userTemplates == [TemplateCopy(doc, stamp, now)] + old(userTemplates)
      ensures documents == old(documents) && categories == old(categories) && editingDoc == old(editingDoc)
      ensures variableProfiles == old(variableProfiles) && activeProfileId == old(activeProfileId)
    {
      userTemplates := [TemplateCopy(doc, stamp, now)] + userTemplates;
    }

    /** `handleAddCategory`. */
    method AddCategory(cat: CategoryDef)
      modifies this
      ensures categories == old(categories) + [cat]
      ensures documents == old(documents) && userTemplates == old(userTemplates) && editingDoc == old(editingDoc)
      ensures variableProfiles == old(variableProfiles) && activeProfileId == old(activeProfileId)
    {
      categories := categories + [cat];
    }

    /** `handleDeleteCategory`. */
    method DeleteCategory(id: string)
      modifies this
      ensures categories == WithoutCategory(old(categories), id)
      ensures documents == old(documents) && userTemplates == old(userTemplates) && editingDoc == old(editingDoc)
      ensures variableProfiles == old(variableProfiles) && activeProfileId == old(activeProfileId)
    {
      categories := WithoutCategory(categories, id);
    }

    /** `onUpdateProfiles={setVariableProfiles}`: the settings screen hands back the
        whole profile list. */
    method SetProfiles(profiles: seq<VariableProfile>)
      modifies this
      ensures variableProfiles == profiles
      ensures documents == old(documents) && categories == old(categories) && userTemplates == old(userTemplates)
      ensures editingDoc == old(editingDoc) && activeProfileId == old(activeProfileId)
    {
      variableProfiles := profiles;
    }
  }
}
