/** The template gallery: the built-in templates followed by the user's saved templates,
    narrowed by a search text and by the filter chosen in the sidebar. */
module Gallery {
  import opened Wrappers
  import opened Strings
  import opened Types
  import opened Filtering
  import App

  /** A built-in template, as the gallery's catalogue lists it. */
  datatype SystemTemplate = SystemTemplate(title: string, category: string, description: string, level: Level, sections: seq<Section>)

  /** A card of the gallery. */
  datatype Entry = Entry(id: string, title: string, category: string, description: string, level: Level, sections: seq<Section>, isSystem: bool)

  /** A built-in template's card: its title is its id. */
  function SystemEntry(t: SystemTemplate): Entry {
    Entry(t.title, t.title, t.category, t.description, t.level, t.sections, true)
  }

  /** A saved template's card, described by its document number. */
  function UserEntry(d: Document): Entry {
    Entry(d.id, d.title, d.category, "使用者範本: " + d.docNumber, d.level, d.sections, false)
  }

  /** `allTemplates`: the built-in cards, then the saved ones. */
  function AllTemplates(system: seq<SystemTemplate>, user: seq<Document>): (r: seq<Entry>)
    ensures |r| == |system| + |user|
  {
    seq(|system|, i requires 0 <= i < |system| => SystemEntry(system[i]))
      + seq(|user|, i requires 0 <= i < |user| => UserEntry(user[i]))
  }

  /** Built-in cards come first, marked as such and keyed by their title; each saved
      template follows with its own id, title, category, level and sections, described
      by its document number. */
  lemma AllTemplatesOrder(system: seq<SystemTemplate>, user: seq<Document>)
    ensures var r := AllTemplates(system, user);
      && (forall i | 0 <= i < |system| ::
            && r[i].isSystem && r[i].id == system[i].title && r[i].title == system[i].title
            && r[i].category == system[i].category && r[i].description == system[i].description
            && r[i].level == system[i].level && r[i].sections == system[i].sections)
      && (forall i | 0 <= i < |user| ::
            && !r[|system| + i].isSystem
            && r[|system| + i].description == "使用者範本: " + user[i].docNumber
            && r[|system| + i].id == user[i].id && r[|system| + i].title == user[i].title
            && r[|system| + i].category == user[i].category && r[|system| + i].level == user[i].level
            && r[|system| + i].sections == user[i].sections)
  {
  }

  /** The search box: the text, lower-cased, occurs in the lower-cased title or
      description. */
  predicate MatchesSearch(e: Entry, query: string) {
    Contains(Lower(e.title), Lower(query)) || Contains(Lower(e.description), Lower(query))
  }

  /** The filter names the sidebar uses besides category ids. */
  predicate Reserved(filter: string) {
    filter in ["all", "custom", "level1", "level2", "level3", "level4"]
  }

  /** The `switch (activeFilter)`: every card, only saved ones, one level, or else the
      cards whose category id is the filter. */
  predicate PassesFilter(e: Entry, filter: string) {
    if filter == "all" then true
    else if filter == "custom" then !e.isSystem
    else if filter == "level1" then e.level == Level1
    else if filter == "level2" then e.level == Level2
    else if filter == "level3" then e.level == Level3
    else if filter == "level4" then e.level == Level4
    else e.category == filter
  }

  predicate Shown(e: Entry, filter: string, query: string) {
    MatchesSearch(e, query) && PassesFilter(e, filter)
  }

  /** `filteredTemplates`. */
  function FilteredTemplates(all: seq<Entry>, filter: string, query: string): seq<Entry> {
    Filter(all, (e: Entry) => Shown(e, filter, query))
  }

  /** A card is shown exactly when it matches the search and passes the filter; the
      shown cards keep the gallery's order (`Filter`). */
  lemma FilteredMembers(all: seq<Entry>, filter: string, query: string, e: Entry)
    ensures e in FilteredTemplates(all, filter, query) <==> e in all && MatchesSearch(e, query) && PassesFilter(e, filter)
  {
    FilterMembers(all, (x: Entry) => Shown(x, filter, query), e);
  }

  /** A category id that is not one of the reserved filter names selects exactly the
      cards of that category. */
  lemma CategoryFilter(e: Entry, category: string)
    requires !Reserved(category)
    ensures PassesFilter(e, category) <==> e.category == category
  {
  }

  /** An empty search matches every card. */
  lemma EmptySearchMatches(e: Entry)
    ensures MatchesSearch(e, "")
  {
    ContainsEmpty(Lower(e.title));
  }

  /** With no search text, `all` shows the whole gallery and `custom` shows exactly the
      user's saved templates, in their order. */
  lemma UnfilteredGallery(system: seq<SystemTemplate>, user: seq<Document>)
    ensures FilteredTemplates(AllTemplates(system, user), "all", "") == AllTemplates(system, user)
    ensures FilteredTemplates(AllTemplates(system, user), "custom", "")
      == seq(|user|, i requires 0 <= i < |user| => UserEntry(user[i]))
  {
    var all := AllTemplates(system, user);
    var sys := seq(|system|, i requires 0 <= i < |system| => SystemEntry(system[i]));
    var usr := seq(|user|, i requires 0 <= i < |user| => UserEntry(user[i]));
    forall i | 0 <= i < |all| ensures Shown(all[i], "all", "") {
      EmptySearchMatches(all[i]);
    }
    FilterAllOrNone(all, (e: Entry) => Shown(e, "all", ""));
    var custom := (e: Entry) => Shown(e, "custom", "");
    assert all == sys + usr;
    FilterConcat(sys, usr, custom);
    FilterAllOrNone(sys, custom);
    forall i | 0 <= i < |usr| ensures custom(usr[i]) {
      EmptySearchMatches(usr[i]);
    }
    FilterAllOrNone(usr, custom);
  }

  /** The draft a chosen card hands to `handleCreateNew`: its title, category, level and
      sections; the blank card hands nothing. */
  function DraftOf(e: Entry): App.TemplateDraft {
    App.TemplateDraft(Some(e.title), None, Some(e.level), Some(e.category), None, Some(e.sections))
  }

  /** A card with a category starts a draft carrying its sections, level and category,
      and its title unless that is empty. */
  lemma ChosenCardStartsDraft(e: Entry, categories: seq<CategoryDef>, id: string, now: string)
    requires e.category != []
    ensures var d := App.NewDocument(DraftOf(e), categories, id, now);
      && d.Some? && d.value.sections == e.sections && d.value.level == e.level
      && d.value.category == e.category
      && (e.title != [] ==> d.value.title == e.title)
      && d.value.docNumber == "DOC-TEMP" && d.value.version == "1.0" && d.value.status == Draft
  {
    App.NewDocumentShape(DraftOf(e), categories, id, now);
  }
}
