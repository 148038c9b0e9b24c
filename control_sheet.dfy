/** The control sheet on the first page of a rendered document: the label of its tier,
    the company initial and name in the logo box, the approval date and the three
    signature rows. */
module ControlSheet {
  import opened Wrappers
  import opened Strings
  import opened Types

  const QualityManualLabel: string := "Quality Manual / 品質手冊"
  const ProcedureLabel: string := "Standard Operating Procedure / 程序書"
  const WorkInstructionLabel: string := "Work Instruction / 作業指導書"
  const FormLabel: string := "Form / Record / 表單與紀錄"
  const FallbackLabel: string := "Standard Document / 標準文件"

  /** `getDocTypeLabel`: the first of `Level 1` … `Level 4` the level's name contains
      picks the label; a name holding none of them gets the generic label. */
  function DocTypeLabel(level: Level): string {
    var name := level.Name();
    if Contains(name, "Level 1") then QualityManualLabel
    else if Contains(name, "Level 2") then ProcedureLabel
    else if Contains(name, "Level 3") then WorkInstructionLabel
    else if Contains(name, "Level 4") then FormLabel
    else FallbackLabel
  }

  /** Every level gets its own label, so the generic label is never shown for a stored
      document. */
  lemma DocTypeLabels()
    ensures DocTypeLabel(Level1) == QualityManualLabel
    ensures DocTypeLabel(Level2) == ProcedureLabel
    ensures DocTypeLabel(Level3) == WorkInstructionLabel
    ensures DocTypeLabel(Level4) == FormLabel
  {
    forall level: Level, k: char | k in "1234"
      ensures Contains(level.Name(), "Level " + [k]) <==> level.Tier() == k
    {
      CaptionHasNoL(level);
      OnlyOwnTier(level.Tier(), level.Caption(), k);
    }
    assert "Level 1" == "Level " + ['1'];
    assert "Level 2" == "Level " + ['2'];
    assert "Level 3" == "Level " + ['3'];
    assert "Level 4" == "Level " + ['4'];
  }

  /** No caption holds an `L`. */
  lemma CaptionHasNoL(level: Level)
    ensures 'L' !in level.Caption()
  {
    var c := level.Caption();
    forall i | 0 <= i < |c| ensures c[i] != 'L' {
      match level
      case Level1 => assert c == ": Quality Manual (政策與手冊)";
      case Level2 => assert c == ": Procedures (程序書)";
      case Level3 => assert c == ": Work Instructions (作業指導書)";
      case Level4 => assert c == ": Records/Forms (表單與紀錄)";
    }
  }

  /** `Level k` occurs in `Level d…` (with no other `L` after the digit) only when k is d. */
  lemma OnlyOwnTier(d: char, tail: string, k: char)
    requires 'L' !in tail && d != 'L'
    ensures Contains("Level " + [d] + tail, "Level " + [k]) <==> d == k
  {
    var s := "Level " + [d] + tail;
    var p := "Level " + [k];
    if d == k {
      assert s == p + tail;
      StartsWithOccurs(s, p);
    } else {
      forall i | 0 <= i <= |s| - |p| ensures !OccursAt(s, p, i) {
        if i == 0 {
          assert s[i..i + |p|][6] == d != p[6];
        } else {
          assert s[i..i + |p|][0] == s[i];
          assert s[i] != 'L' by {
            if i < 6 {
              assert s[i] == "Level "[i];
            } else if i == 6 {
              assert s[i] == d;
            } else {
              assert s[i] == tail[i - 7];
            }
          }
        }
      }
    }
  }

  /** `approvalLog.timestamp.split('T')[0]` when the document carries a non-empty
      approval timestamp, `---` otherwise. */
  function ApprovalDate(doc: Document): string {
    match doc.approvalLog
    case Some(log) => if log.timestamp != [] then Before(log.timestamp, 'T') else "---"
    case None => "---"
  }

  /** The approval date is the calendar date of an ISO timestamp, and the placeholder
      for a document nobody has signed. */
  lemma ApprovalDateOf(doc: Document, date: string, time: string)
    requires 'T' !in date
    ensures doc.approvalLog.None? ==> ApprovalDate(doc) == "---"
    ensures doc.approvalLog.Some? && doc.approvalLog.value.timestamp == date + "T" + time ==>
      ApprovalDate(doc) == date
  {
    if doc.approvalLog.Some? && doc.approvalLog.value.timestamp == date + "T" + time {
      assert date + "T" + time == date + ['T'] + time;
      SplitAtFirst(date, time, 'T');
    }
  }

  /** `activeProfile?.profileName ? profileName.charAt(0).toUpperCase() : "I"`. */
  function CompanyInitial(profile: Option<VariableProfile>): (r: string)
    ensures |r| == 1
  {
    if profile.Some? && profile.value.profileName != [] then Upper([profile.value.profileName[0]])
    else "I"
  }

  /** `activeProfile?.profileName || 'YourCompany'`. */
  function CompanyName(profile: Option<VariableProfile>): string {
    if profile.Some? && profile.value.profileName != [] then profile.value.profileName
    else "YourCompany"
  }

  /** The logo box shows the capitalised first letter of the name printed beneath it,
      and `I` over the placeholder name when no profile name is set. */
  lemma LogoAgreesWithName(profile: Option<VariableProfile>)
    ensures profile.Some? && profile.value.profileName != [] ==>
      CompanyInitial(profile) == [UpperChar(CompanyName(profile)[0])]
    ensures profile.None? || profile.value.profileName == [] ==>
      CompanyInitial(profile) == "I" && CompanyName(profile) == "YourCompany"
  {
  }

  datatype Signature = Signature(role: string, name: string, date: string, isSigned: bool)

  /** The three rows of the signature table: the author, who is always shown as signed
      on the creation date; the reviewer and the approver, signed exactly when the
      document carries an approval log, and dated with the approval date. */
  function Signatures(doc: Document): (rows: seq<Signature>)
    ensures |rows| == 3
  {
    var signed := doc.approvalLog.Some?;
    var reviewer :=
      if signed then doc.approvalLog.value.reviewerName
      else if doc.reviewerEmail.Some? && doc.reviewerEmail.value != [] then doc.reviewerEmail.value
      else "---";
    [ Signature("制定 (Author)", doc.author, Before(doc.createdAt, 'T'), true),
      Signature("審核 (Reviewer)", reviewer, ApprovalDate(doc), signed),
      Signature("核准 (Approver)", if signed then "Management" else "---", ApprovalDate(doc), signed) ]
  }

  /** A document without an approval log shows its review and approval rows as pending,
      with placeholders for date and approver; one with a log shows both signed, the
      signer named on the review row and `Management` on the approval row. */
  lemma SignatureRows(doc: Document)
    ensures var rows := Signatures(doc);
      rows[0].isSigned && rows[0].name == doc.author && 'T' !in rows[0].date
      && StartsWith(doc.createdAt, rows[0].date)
    ensures var rows := Signatures(doc);
      doc.approvalLog.None? ==>
        && !rows[1].isSigned && !rows[2].isSigned
        && rows[1].date == "---" && rows[2].date == "---" && rows[2].name == "---"
        && (rows[1].name == "---" <==> doc.reviewerEmail.None? || doc.reviewerEmail.value == [] || doc.reviewerEmail.value == "---")
    ensures var rows := Signatures(doc);
      doc.approvalLog.Some? ==>
        && rows[1].isSigned && rows[2].isSigned
        && rows[1].name == doc.approvalLog.value.reviewerName && rows[2].name == "Management"
        && rows[1].date == rows[2].date == ApprovalDate(doc)
  {
  }
}
