/** The records of an ISO document: its sections, revision history, review roster
    and approval, the variable profiles that fill `{{KEY}}` placeholders, and the
    categories documents are filed under; plus the standard PDF file name. */
module Types {
  import opened Wrappers
  import opened Strings

  /** The four tiers of the ISO document pyramid. */
  datatype Level = Level1 | Level2 | Level3 | Level4 {
    /** The string value of the enumeration member: `Level `, the tier's digit and
        the tier's caption. */
    function Name(): string {
      "Level " + [Tier()] + Caption()
    }

    function Tier(): char {
      match this
      case Level1 => '1'
      case Level2 => '2'
      case Level3 => '3'
      case Level4 => '4'
    }

    function Caption(): string {
      match this
      case Level1 => ": Quality Manual (政策與手冊)"
      case Level2 => ": Procedures (程序書)"
      case Level3 => ": Work Instructions (作業指導書)"
      case Level4 => ": Records/Forms (表單與紀錄)"
    }
  }

  /** `draft`, `review`, `approving` (a minor revision sent straight to final
      approval) and `approved`. */
  datatype Status = Draft | Review | Approving | Approved

  /** A signer's decision: `pending` until signed, then `approved`. */
  datatype Decision = Pending | Signed

  datatype Reviewer = Reviewer(id: string, name: string, status: Decision, date: Option<string>, note: Option<string>)

  datatype FinalApprover = FinalApprover(name: string, status: Decision, date: Option<string>, note: Option<string>)

  datatype Section = Section(id: string, title: string, content: string)

  datatype RevisionEntry = RevisionEntry(id: string, version: string, date: string, description: string, author: string)

  datatype Action = Approve | Reject

  datatype ApprovalLog = ApprovalLog(reviewerName: string, reviewerEmail: string, action: Action, timestamp: string, integrityHash: string)

  datatype Document = Document(
    id: string,
    title: string,
    docNumber: string,
    version: string,
    level: Level,
    category: string,
    department: string,
    author: string,
    reviewerEmail: Option<string>,
    createdAt: string,
    status: Status,
    reviewers: seq<Reviewer>,
    finalApprover: FinalApprover,
    sections: seq<Section>,
    revisions: seq<RevisionEntry>,
    approvalLog: Option<ApprovalLog>,
    lockedContentSnapshot: Option<string>,
    isTemplate: Option<bool>)

  /** A profile's variables, in the insertion order of the JavaScript object. */
  type Vars = seq<(string, string)>

  datatype VariableProfile = VariableProfile(id: string, profileName: string, variables: Vars)

  datatype Color = Blue | Purple | Emerald | Amber | Rose | Slate

  datatype CategoryKind = System | Custom

  datatype CategoryDef = CategoryDef(id: string, name: string, color: Color, kind: CategoryKind)

  // ---------------------------------------------------------------- file name

  /** The date of an ISO timestamp without its dashes: `"2024-03-05T…"` gives `"20240305"`. */
  function DateStamp(iso: string): string {
    Without(Before(iso, 'T'), '-')
  }

  /** `getStandardFilename`, the current time given as an ISO timestamp. */
  function StandardFilename(doc: Document, now: string): string {
    doc.docNumber + "_" + doc.title + "_v" + doc.version + "_" + DateStamp(now) + ".pdf"
  }


  /** For a timestamp `YYYY-MM-DDThh:mm…` the date part is the eight digits `YYYYMMDD`. */
  lemma DateStampDigits(y: string, m: string, d: string, rest: string)
    requires |y| == 4 && |m| == 2 && |d| == 2 && AllDigits(y) && AllDigits(m) && AllDigits(d)
    ensures DateStamp(y + "-" + m + "-" + d + "T" + rest) == y + m + d
    ensures |DateStamp(y + "-" + m + "-" + d + "T" + rest)| == 8
    ensures AllDigits(DateStamp(y + "-" + m + "-" + d + "T" + rest))
  {
    var day := y + "-" + m + "-" + d;
    DayHasNoT(y, m, d);
    assert y + "-" + m + "-" + d + "T" + rest == day + ['T'] + rest;
    SplitAtFirst(day, rest, 'T');
    DayWithoutDashes(y, m, d);
    assert AllDigits(y + m + d) by {
      forall i | 0 <= i < 8 ensures IsDigit((y + m + d)[i]) {
        if i < 4 { assert (y + m + d)[i] == y[i]; }
        else if i < 6 { assert (y + m + d)[i] == m[i - 4]; }
        else { assert (y + m + d)[i] == d[i - 6]; }
      }
    }
  }

  lemma DayHasNoT(y: string, m: string, d: string)
    requires AllDigits(y) && AllDigits(m) && AllDigits(d)
    ensures 'T' !in y + "-" + m + "-" + d
  {
    var day := y + "-" + m + "-" + d;
    forall i | 0 <= i < |day| ensures day[i] != 'T' {
      if i < |y| { assert day[i] == y[i]; }
      else if i == |y| || i == |y| + |m| + 1 { }
      else if i < |y| + |m| + 1 { assert day[i] == m[i - |y| - 1]; }
      else { assert day[i] == d[i - |y| - |m| - 2]; }
    }
  }

  lemma DayWithoutDashes(y: string, m: string, d: string)
    requires AllDigits(y) && AllDigits(m) && AllDigits(d)
    ensures Without(y + "-" + m + "-" + d, '-') == y + m + d
  {
    var dash: string := ['-'];
    assert Without(dash, '-') == [] by { assert dash[1..] == []; }
    DashFree(y);
    DashFree(m);
    DashFree(d);
    var t1 := dash + d;
    WithoutConcat(dash, d, '-');
    assert Without(t1, '-') == d;
    var t2 := m + t1;
    WithoutConcat(m, t1, '-');
    assert Without(t2, '-') == m + d;
    var t3 := dash + t2;
    WithoutConcat(dash, t2, '-');
    assert Without(t3, '-') == m + d;
    WithoutConcat(y, t3, '-');
    assert Without(y + t3, '-') == y + (m + d);
    DayShape(y, m, d);
    SumShape(y, m, d);
  }

  lemma DayShape(y: string, m: string, d: string)
    ensures y + "-" + m + "-" + d == y + (['-'] + (m + (['-'] + d)))
  {
  }

  lemma SumShape(y: string, m: string, d: string)
    ensures y + (m + d) == y + m + d
  {
  }

  lemma DashFree(s: string)
    requires AllDigits(s)
    ensures Without(s, '-') == s
  {
    WithoutRemoves(s, '-');
    assert '-' !in s by {
      forall i | 0 <= i < |s| ensures s[i] != '-' { assert IsDigit(s[i]); }
    }
  }

  /** The name starts with the document number and ends with `.pdf`; when the number,
      title and version hold no `_`, splitting the name on `_` gives its fields back. */
  lemma StandardFilenameFields(doc: Document, now: string)
    ensures StartsWith(StandardFilename(doc, now), doc.docNumber)
    ensures EndsWith(StandardFilename(doc, now), ".pdf")
    ensures '_' !in doc.docNumber && '_' !in doc.title && '_' !in doc.version && '_' !in now ==>
      SplitOn(StandardFilename(doc, now), '_') == [doc.docNumber, doc.title, "v" + doc.version, DateStamp(now) + ".pdf"]
  {
    var name := StandardFilename(doc, now);
    var parts := [doc.docNumber, doc.title, "v" + doc.version, DateStamp(now) + ".pdf"];
    assert name[..|doc.docNumber|] == doc.docNumber;
    assert name[|name| - 4..] == ".pdf";
    if '_' !in doc.docNumber && '_' !in doc.title && '_' !in doc.version && '_' !in now {
      JoinFour(parts);
      FilenameShape(doc.docNumber, doc.title, doc.version, DateStamp(now));
      assert "v" + doc.version == ['v'] + doc.version;
      assert '_' !in "v" + doc.version;
      DateStampChars(now);
    assert '_' !in DateStamp(now) + ".pdf";
      SplitJoin(parts, '_');
    }
  }

  /** Every character of the date stamp comes from the timestamp. */
  lemma DateStampChars(now: string)
    ensures forall x | x in DateStamp(now) :: x in now
  {
    var day := Before(now, 'T');
    WithoutRemoves(day, '-');
    forall x | x in day
      ensures x in now
    {
      var i :| 0 <= i < |day| && day[i] == x;
      assert now[..|day|] == day;
      assert now[i] == x;
    }
  }

  lemma JoinFour(parts: seq<string>)
    requires |parts| == 4
    ensures JoinWith(parts, '_') == parts[0] + "_" + (parts[1] + "_" + (parts[2] + "_" + parts[3]))
  {
    assert JoinWith(parts[3..], '_') == parts[3];
    assert JoinWith(parts[2..], '_') == parts[2] + "_" + parts[3] by {
      assert parts[2..][1..] == parts[3..];
    }
    assert JoinWith(parts[1..], '_') == parts[1] + "_" + (parts[2] + "_" + parts[3]) by {
      assert parts[1..][1..] == parts[2..];
    }
  }

  lemma FilenameShape(number: string, title: string, version: string, day: string)
    ensures number + "_" + title + "_v" + version + "_" + day + ".pdf"
      == number + "_" + (title + "_" + (("v" + version) + "_" + (day + ".pdf")))
  {
  }
}
