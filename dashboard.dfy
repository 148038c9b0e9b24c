/** The dashboard: the three status cards with their counts, the status filter the
    cards toggle, the category tabs, the filtered document list, the category badge and
    the revise button offered on approved documents. */
module Dashboard {
  import opened Wrappers
  import opened Strings
  import opened Types
  import opened Filtering
  import Editor

  predicate IsDraft(d: Document) { d.status == Draft }
  predicate InReview(d: Document) { d.status == Review }
  predicate IsApproved(d: Document) { d.status == Approved }
  predicate IsApproving(d: Document) { d.status == Approving }

  datatype Funnel = Funnel(drafts: nat, pending: nat, approved: nat)

  /** `funnelStats`: drafts, documents in review, approved documents. */
  function FunnelStats(docs: seq<Document>): Funnel {
    Funnel(Count(docs, IsDraft), Count(docs, InReview), Count(docs, IsApproved))
  }

  /** Every document is counted on at most one card; the documents awaiting final
      approval are counted on none, and with them the cards account for the whole list. */
  lemma {:induction false} FunnelPartition(docs: seq<Document>)
    ensures var f := FunnelStats(docs);
      f.drafts + f.pending + f.approved + Count(docs, IsApproving) == |docs|
  {
    if docs != [] {
      FunnelPartition(docs[1..]);
    }
  }

  /** The filter the status cards set. */
  datatype StatusFilter = AnyStatus | DraftOnly | ReviewOnly | ApprovedOnly

  predicate Selects(f: StatusFilter, s: Status) {
    match f
    case AnyStatus => true
    case DraftOnly => s == Draft
    case ReviewOnly => s == Review
    case ApprovedOnly => s == Approved
  }

  /** A card click: clicking the active card clears the filter, any other sets it. */
  function Toggle(current: StatusFilter, card: StatusFilter): (r: StatusFilter)
    ensures card != AnyStatus ==> (r == card <==> current != card)
    ensures r == AnyStatus <==> current == card || card == AnyStatus
  {
    if current == card then AnyStatus else card
  }

  /** Clicking a card twice from an unfiltered list leaves it unfiltered. */
  lemma ToggleTwice(card: StatusFilter)
    requires card != AnyStatus
    ensures Toggle(Toggle(AnyStatus, card), card) == AnyStatus
  {
  }

  /** The tab `all` or a category id, then the status filter. */
  predicate Listed(d: Document, tab: string, f: StatusFilter) {
    (tab == "all" || d.category == tab) && Selects(f, d.status)
  }

  /** `filteredDocs`. */
  function FilteredDocs(docs: seq<Document>, tab: string, f: StatusFilter): seq<Document> {
    Filter(docs, (d: Document) => Listed(d, tab, f))
  }

  /** A document is listed exactly when its category is the tab (or the tab is `all`) and
      the filter selects its status. */
  lemma FilteredDocsMembers(docs: seq<Document>, tab: string, f: StatusFilter, d: Document)
    ensures d in FilteredDocs(docs, tab, f) <==> d in docs && (tab == "all" || d.category == tab) && Selects(f, d.status)
  {
    FilterMembers(docs, (x: Document) => Listed(x, tab, f), d);
  }

  /** Under the `all` tab, clicking a card lists as many documents as the card shows. */
  lemma CardsCountTheirList(docs: seq<Document>)
    ensures |FilteredDocs(docs, "all", DraftOnly)| == FunnelStats(docs).drafts
    ensures |FilteredDocs(docs, "all", ReviewOnly)| == FunnelStats(docs).pending
    ensures |FilteredDocs(docs, "all", ApprovedOnly)| == FunnelStats(docs).approved
    ensures FilteredDocs(docs, "all", AnyStatus) == docs
  {
    FilterSame(docs, (d: Document) => Listed(d, "all", DraftOnly), IsDraft);
    FilterLength(docs, IsDraft);
    FilterSame(docs, (d: Document) => Listed(d, "all", ReviewOnly), InReview);
    FilterLength(docs, InReview);
    FilterSame(docs, (d: Document) => Listed(d, "all", ApprovedOnly), IsApproved);
    FilterLength(docs, IsApproved);
    FilterAllOrNone(docs, (d: Document) => Listed(d, "all", AnyStatus));
  }

  /** The revise button is offered on approved documents only: the same condition under
      which the editor locks a document. */
  predicate OffersRevise(d: Document) {
    d.status == Approved
  }

  lemma ReviseOfferedWhenLocked(d: Document)
    ensures OffersRevise(d) <==> Editor.Locked(d)
  {
  }

  /** The category badge: the category's colour and the first word of its name; a
      document whose category is not registered shows none. */
  function CategoryBadge(categories: seq<CategoryDef>, id: string): (r: Option<(Color, string)>)
    ensures r.None? <==> forall c | c in categories :: c.id != id
  {
    if categories == [] then None
    else if categories[0].id == id then Some((categories[0].color, SplitOn(categories[0].name, ' ')[0]))
    else CategoryBadge(categories[1..], id)
  }

  /** The badge of a registered category shows the colour and the first word of the
      name of the first category with the id. */
  lemma {:induction false} CategoryBadgeFirst(categories: seq<CategoryDef>, id: string, k: nat)
    requires k < |categories| && categories[k].id == id
    requires forall j | 0 <= j < k :: categories[j].id != id
    ensures CategoryBadge(categories, id) == Some((categories[k].color, SplitOn(categories[k].name, ' ')[0]))
  {
    if k > 0 {
      assert forall j | 0 <= j < k - 1 :: categories[1..][j] == categories[j + 1];
      CategoryBadgeFirst(categories[1..], id, k - 1);
    }
  }

  /** The badge text is the name up to its first space. */
  lemma BadgeIsFirstWord(name: string)
    ensures var w := SplitOn(name, ' ')[0];
      ' ' !in w && StartsWith(name, w)
  {
    var parts := SplitOn(name, ' ');
    if |parts| > 1 {
      assert name == parts[0] + ([' '] + JoinWith(parts[1..], ' '));
    }
    assert name[..|parts[0]|] == parts[0];
  }
}
