# ISODraft document core in Dafny

ISODraft is a browser application for writing ISO management-system documents. These
include quality manuals, procedures, work instructions and forms. This project models the
core of that application and proves properties of it:

- **Rendering a document** (`components/ISODocumentRenderer.tsx`).
  - Content processing (`processContent`) replaces every `{{KEY}}` variable token with the
    active company profile's value. It then replaces every `[[REF:id]]` cross-reference
    with the referenced document's title and number, or with an "unlinked document"
    marker. Both passes follow JavaScript's global `String.replace`.
  - The markdown renderer (`renderMarkdownBlocks`) first splits the processed content
    around fenced mermaid charts. It then walks each text part line by line. A run of `|`
    lines becomes a table with an optional header and column alignments. Other lines
    become list items, numbered items, quotes, headings or paragraphs, with `**bold**`
    rendered.
  - The control sheet shows the document-type label of the ISO level, the approval date,
    the company initial in the logo box, and the three signature rows.
- **The application's records** (`App.tsx`).
  - Creating a draft from a template or from nothing.
  - Creating a major or minor revision.
  - Saving a document by id, and saving a copy as a user template.
  - Adding and deleting categories.
  - `App.AppState` is a class holding the document list, categories, user templates and
    profiles. Its methods keep document ids distinct.
- **The editor** (`components/DocumentEditor.tsx`).
  - `Editor.DocumentEditor` is a class whose methods edit the document.
  - Every edit is ignored while the document is approved (locked).
  - Variable and reference tokens are appended to a section.
  - An AI-drafted or AI-refined text is applied.
  - The label of the revise button is computed.
- **The settings screen** (`components/Settings.tsx`).
  - `Settings.SettingsScreen` is a class managing categories and variable profiles.
  - New variable keys are sanitised: trimmed, upper-cased, whitespace runs turned into `_`.
  - The last remaining profile cannot be deleted.
- **The template gallery** (`components/TemplateGallery.tsx`): built-in cards followed by
  the user's templates, narrowed by a search text and a sidebar filter.
- **The dashboard** (`components/Dashboard.tsx`).
  - The status counts on the three cards.
  - The card toggle, the category tabs and the filtered list.
  - Category badges, and where the revise button is offered.
- **The standard PDF file name** (`types.ts`).

Numbers in version strings are exact decimals (`Versions.JsNumber`). The model never uses
binary floating point. JavaScript objects used as dictionaries are ordered association
lists. Clocks, random ids and the AI service's answers are parameters.

Modules: `Wrappers`, `Strings` (the JavaScript string operations used), `Replacing`
(global `String.replace` with a rule that matches at a position), `Filtering`, `Types`,
`Versions`, `Substitution`, `Fragments`, `Mermaid`, `Blocks`, `ControlSheet`, `App`,
`Editor`, `Settings`, `Gallery`, `Dashboard`.

## Model

| member | source | states |
|---|---|---|
| Substitution.ProcessContent | components/ISODocumentRenderer.tsx:62-82 | The loop over the profile's entries, followed by the reference pass, yields `ProcessedContent`. Empty content stays empty; without a profile only references are resolved. |
| Substitution.ProcessedContent | components/ISODocumentRenderer.tsx:62-82 | What `processContent` returns: `""` for empty content, otherwise the profile's variables substituted and then the references resolved. Its properties are stated by `ProcessContent` (the loop computes it) and `ProcessedContentBasics`. |
| Substitution.SubstituteVar | components/ISODocumentRenderer.tsx:67-68 | One variable's global replace of `{{KEY}}` by its fragment. It is characterised by `SubstituteVarAtToken`, `SubstituteVarLeavesNoToken` and `KeepsOtherTokensAbsent`. |
| Substitution.SubstituteVars | components/ISODocumentRenderer.tsx:66-69 | The profile's entries replaced one after another, in order. It is characterised by `SubstituteVarsLeavesNoToken`. |
| Substitution.Resolve | components/ISODocumentRenderer.tsx:72-80 | The replacement of one reference: the document's title and number, or the unlinked marker. It is characterised by `ResolveMeaning`. |
| Substitution.ResolveRefs | components/ISODocumentRenderer.tsx:71-80 | The global replace of `[[REF:id]]` tokens. It is characterised by `ResolveRefsAtToken`, `ResolveRefsLeavesNoToken` and `ResolveRefsWithoutTokens`. |
| Substitution.FindDoc | components/ISODocumentRenderer.tsx:73 | `allDocuments.find`: a found document is listed and has the id; nothing is found exactly when no document has the id. |
| Substitution.SubstituteVarLeavesNoToken | components/ISODocumentRenderer.tsx:67-68 | After one variable's global replace, no `{{KEY}}` token of that key remains. |
| Substitution.KeepsOtherTokensAbsent | components/ISODocumentRenderer.tsx:66-69 | Replacing one variable never creates another variable's token. |
| Substitution.SubstituteVarsLeavesNoToken | components/ISODocumentRenderer.tsx:65-70 | After the whole `forEach`, no token of any profile key remains, and keys already absent stay absent. |
| Substitution.SubstituteVarAtToken | components/ISODocumentRenderer.tsx:67-68 | A token after brace-free text becomes the value's fragment, or the key itself when the value is empty (`value \|\| key`). The rest is processed the same way. |
| Substitution.RefFragmentNamesDocument | components/ISODocumentRenderer.tsx:75-77 | A resolved reference shows `title (docNumber)` of the document. |
| Substitution.ResolveMeaning | components/ISODocumentRenderer.tsx:72-80 | A known id resolves to a listed document with that id, showing its title and number. An unknown id resolves to the unlinked-document marker. |
| Substitution.RefRuleAtToken | components/ISODocumentRenderer.tsx:71 | `\[\[REF:(.*?)\]\]` at a token captures exactly its id: the shortest text on one line up to the first `]]`. |
| Substitution.ResolveRefsAtToken | components/ISODocumentRenderer.tsx:71-80 | Bracket-free text followed by a token keeps the text, replaces the token by its resolution, and continues after `]]`. |
| Substitution.ResolveRefsLeavesNoToken | components/ISODocumentRenderer.tsx:71-80 | When every `[[REF:` is closed on its line, no `[[REF:` remains after resolution. |
| Substitution.ResolveRefsWithoutTokens | components/ISODocumentRenderer.tsx:71-80 | Content without `[[REF:` is left unchanged by the reference pass. |
| Substitution.ProcessedContentBasics | components/ISODocumentRenderer.tsx:63-81 | Empty content gives `""`; without a profile, content without references is unchanged. |
| Replacing.LeavesNoOccurrence | components/ISODocumentRenderer.tsx:67-72 | A global replace whose pattern matches every occurrence of a text, and whose replacements cannot start that text, leaves none of it. |
| Replacing.LiteralAbsent | components/ISODocumentRenderer.tsx:67-68 | Replacing a literal that does not occur changes nothing. |
| Replacing.LiteralAtFirst | components/ISODocumentRenderer.tsx:67-68 | The first occurrence of a literal is replaced, the text before it is kept, and the search resumes after it. |
| Replacing.CopiesUpToFirstHit | components/ISODocumentRenderer.tsx:72 | Text before the first position where the pattern matches is copied unchanged. |
| Replacing.NoHitKeeps | components/ISODocumentRenderer.tsx:72 | A pattern matching nowhere leaves the text unchanged. |
| Mermaid.SplitMermaidBlocks | components/ISODocumentRenderer.tsx:86-99 | The `exec` loop with `lastIndex` and the trailing text yields `Parts`: the non-blank text before each chart, the chart, and the parts after it. |
| Mermaid.MatchHere | components/ISODocumentRenderer.tsx:86 | A match of `` ```mermaid\s*\n([\s\S]*?)\n``` `` starts with the fence, and its capture lies inside the text before the closing backticks. |
| Mermaid.SearchFromLeftmost | components/ISODocumentRenderer.tsx:92 | `exec` finds the leftmost match from `lastIndex`; nothing before it matches. |
| Mermaid.MatchHereChart | components/ISODocumentRenderer.tsx:86 | The lazy capture ends at the first closing fence (a newline and three backticks) after the opening one, and the chart contains no closing fence. |
| Mermaid.PartsShape | components/ISODocumentRenderer.tsx:94-99 | Every text part has non-blank content (`trim().length > 0`), and no chart contains a closing fence. |
| Mermaid.NoFenceIsText | components/ISODocumentRenderer.tsx:92-99 | Content without a mermaid fence is one text part when it is not blank, and nothing otherwise. |
| Mermaid.FencedChart | components/ISODocumentRenderer.tsx:86-99 | Text, a fenced chart and more text split into the text part, the chart's body and the parts of the rest. |
| Blocks.RenderMarkdownBlocks | components/ISODocumentRenderer.tsx:84-203 | Each part is rendered in order: a chart as a diagram, a text part as the blocks of its lines. |
| Blocks.RenderedFencedSection | components/ISODocumentRenderer.tsx:84-202 | Text, a fenced chart and more text, without references or a profile, render as the blocks of the first text, the chart handed to the diagram renderer, and the blocks of the second text, in that order. |
| Blocks.RenderText | components/ISODocumentRenderer.tsx:107-199 | The `forEach` over the lines with `tableBuffer`, and the final flush, yields `RenderLines` of the lines split on `\n`. |
| Blocks.RenderLine | components/ISODocumentRenderer.tsx:165-198 | One line step keeps the loop invariant: the elements so far, followed by the rendering of the remaining lines, never change. |
| Blocks.Flush | components/ISODocumentRenderer.tsx:111-163 | `flushTable` adds no element for an empty buffer, otherwise one table, and then empties the buffer. |
| Blocks.RenderStep | components/ISODocumentRenderer.tsx:165-197 | A trimmed line starting with `\|` is buffered. Any other line flushes the buffer and is classified. |
| Blocks.TableRun | components/ISODocumentRenderer.tsx:165-199 | A run of table lines becomes one table of the trimmed rows. It ends at the end of the part, or at a non-table line, which is then classified. |
| Blocks.BufferRun | components/ISODocumentRenderer.tsx:169-170 | Table lines are only buffered, trimmed, in order. |
| Blocks.OtherLine | components/ISODocumentRenderer.tsx:171-196 | A non-table line is classified from its trimmed text, and a blank line adds nothing. |
| Blocks.RenderConcat | components/ISODocumentRenderer.tsx:165-199 | Lines that end with a non-table line render independently of the lines after them. |
| Blocks.CellsOfRow | components/ISODocumentRenderer.tsx:119-129 | A row `\|a\|b\|…\|` gives exactly its columns. Cells are the trimmed columns, and each column's alignment comes from its own text. |
| Blocks.TableOf | components/ISODocumentRenderer.tsx:111-163 | The table that `flushTable` builds from the buffered rows. It is characterised by `TableOfShape` and `TableRoundTrip`. |
| Blocks.TableOfShape | components/ISODocumentRenderer.tsx:115-131 | A non-empty buffer has a header exactly when it has two rows and the second contains `---`. With a header, the header is the first row's bold-rendered cells, there is one alignment per separator column (read from that column), and the body holds the rows after the separator. Without one, every row is a body row and no column is aligned. |
| Blocks.TableRoundTrip | components/ISODocumentRenderer.tsx:115-131 | A table written out as `\|`-delimited rows, with a separator row containing `---`, reads back as its trimmed header cells, each separator column's alignment and its trimmed body cells, all bold-rendered. |
| Blocks.FlushTable | components/ISODocumentRenderer.tsx:110-163 | An empty buffer adds nothing, and any other buffer adds its one table. It is characterised by `Flush` and `TableRun`. |
| Blocks.Columns | components/ISODocumentRenderer.tsx:120 | Stripping one outer pipe and splitting on `\|` gives at least one column, none containing `\|`. |
| Blocks.AlignOfMarkers | components/ISODocumentRenderer.tsx:124-129 | `:---:` centres, `---:` aligns right, and `:---` and `---` align left. |
| Blocks.BoldKeepsPrefix | components/ISODocumentRenderer.tsx:176 | Text in which no `**` starts is kept by the bold replace. |
| Blocks.ClassifyMarkers | components/ISODocumentRenderer.tsx:179-192 | `- ` and `* ` give a list item; `> ` a quote; `### ` and `## ` headings. Each shows the bold-rendered text after its marker. |
| Blocks.ClassifyParagraph | components/ISODocumentRenderer.tsx:193-196 | A non-blank line with no list, number, quote or heading marker is a paragraph of its bold-rendered text. |
| Blocks.Classify | components/ISODocumentRenderer.tsx:173-196 | The block of one trimmed non-table line. It is characterised by `ClassifyMarkers`, `NumberedLine`, `ClassifyParagraph` and `OtherLine`. |
| Blocks.MarkerLine | components/ISODocumentRenderer.tsx:176-192 | A marker line is not numbered, and cutting the marker from the bold-rendered line equals rendering the text after it. |
| Blocks.NumberedLine | components/ISODocumentRenderer.tsx:181-183 | `12. text` is a numbered item with number `12` and the text after the whitespace. |
| Blocks.NumberedItem | components/ISODocumentRenderer.tsx:181-182 | A recognised number is a non-empty run of digits that the line starts with, followed by `.`. |
| Blocks.LineRun | components/ISODocumentRenderer.tsx:182 | The greedy `(.*)` stops at the first line terminator. |
| Blocks.PlainSection | components/ISODocumentRenderer.tsx:84-101 | Content without references or charts renders as nothing when blank, and as one text part of its lines otherwise. |
| ControlSheet.DocTypeLabels | components/ISODocumentRenderer.tsx:51-57 | Each of the four levels gets its own label; the generic label is never shown for a stored level. |
| ControlSheet.OnlyOwnTier | components/ISODocumentRenderer.tsx:52-55 | A level's name includes `Level k` only for its own tier k. |
| ControlSheet.DocTypeLabel | components/ISODocumentRenderer.tsx:51-57 | `getDocTypeLabel`. It is characterised by `DocTypeLabels` and `OnlyOwnTier`. |
| ControlSheet.ApprovalDate | components/ISODocumentRenderer.tsx:48 | The approval date shown on the sheet. It is characterised by `ApprovalDateOf`. |
| ControlSheet.ApprovalDateOf | components/ISODocumentRenderer.tsx:48 | `---` without an approval log; the calendar date before `T` of the log's timestamp otherwise. |
| ControlSheet.CompanyInitial | components/ISODocumentRenderer.tsx:60 | The logo initial is a single character. |
| ControlSheet.LogoAgreesWithName | components/ISODocumentRenderer.tsx:60 | A named profile shows the upper-cased first letter of the name printed under the logo (line 219). Otherwise the logo shows `I` over `YourCompany`. |
| ControlSheet.Signatures | components/ISODocumentRenderer.tsx:205-209 | There are exactly three signature rows. |
| ControlSheet.SignatureRows | components/ISODocumentRenderer.tsx:205-209 | The author row is always signed, dated by the day of `createdAt`. Without an approval log the reviewer and approver rows are unsigned: the reviewer shows the reviewer e-mail or `---`, the approver `---`. With one, both rows are signed on the approval date, by the logged reviewer and by `Management`. |
| Types.DateStampDigits | types.ts:66 | The date stamp of an ISO timestamp is its `YYYYMMDD` digits. |
| Types.DateStampChars | types.ts:66 | The date stamp only holds characters of the timestamp. |
| Types.DateStamp | types.ts:66 | The `YYYYMMDD` stamp of an ISO timestamp. It is characterised by `DateStampDigits` and `DateStampChars`. |
| Types.StandardFilename | types.ts:65-68 | `getStandardFilename`, with the current time given as an ISO timestamp. It is characterised by `StandardFilenameFields`. |
| Types.StandardFilenameFields | types.ts:65-68 | The file name starts with the document number and ends in `.pdf`. When no field contains `_`, splitting on `_` gives back the number, the title, `v` + version and the date stamp + `.pdf`. |
| Versions.ParseFormatTenths | App.tsx:98-106 | `parseFloat` reads back exactly what `toFixed(1)` wrote. |
| Versions.ParseFloat | App.tsx:98 | `parseFloat`: leading whitespace and an optional sign are skipped, then `Infinity` or digits with an optional fraction are read, and trailing text is ignored. Anything else is `NaN`. It is characterised by `ParseFormatTenths` and `MajorOfNonNumber`. |
| Versions.ToFixed1 | App.tsx:103 | `toFixed(1)`: the number rounded to one decimal, with `NaN` and the infinities written out. It is characterised by `ParseFormatTenths`. |
| Versions.MajorVersion | App.tsx:98-103 | `(Math.floor(parseFloat(v) \|\| 0) + 1).toFixed(1)`. It is characterised by `MajorVersionReadsBack`, `MajorOfNonNumber` and `MajorOfFraction`. |
| Versions.MinorVersion | App.tsx:98-106 | `((parseFloat(v) \|\| 0) + 0.1).toFixed(1)`. It is characterised by `MinorVersionAddsTenth` and `MinorOfWhole`. |
| Versions.ReviseLabelAsWritten | components/DocumentEditor.tsx:288 | The revise button's label as the source computes it. It is characterised by `LabelAgreesOnWholeVersions`, `LabelOfNonNumber` and `LabelOfFraction`. |
| Versions.MajorVersionReadsBack | App.tsx:98-103 | A major revision's version is one more than the floor of the current number, with one decimal. |
| Versions.MinorVersionAddsTenth | App.tsx:98-106 | A minor revision of a version with at most one decimal adds exactly one tenth. |
| Versions.MajorOfNonNumber | App.tsx:98-103 | A version that is not a number counts as 0 (`\|\| 0`), so `A.0` becomes `1.0`. |
| Versions.MajorOfFraction | App.tsx:103 | `1.5` becomes `2.0`. |
| Versions.MinorOfWhole | App.tsx:106 | `1.0` becomes `1.1`. |
| Versions.LabelAgreesOnWholeVersions | components/DocumentEditor.tsx:288 | On whole-number versions, the revise button's own formula gives the same text as a major revision. |
| Versions.LabelOfNonNumber | components/DocumentEditor.tsx:288 | The button's formula shows `NaN` for `A.0`, where a major revision produces `1.0`. |
| Versions.LabelOfFraction | components/DocumentEditor.tsx:288 | The button's formula shows `2.5` for `1.5`, where a major revision produces `2.0`. |
| App.OrElse | App.tsx:76-81 | `field \|\| fallback`: the field when it is present and non-empty, the fallback when it is missing or empty. |
| App.NewDocument | App.tsx:73-95 | A draft exists unless no category can be found: neither the template's nor a first registered one. |
| App.NewDocumentShape | App.tsx:73-95 | A new document is a draft `1.0` under the given id and time, by `使用者`. It has no reviewers, revisions, reviewer e-mail or approval log, and its final approver is `管理代表`, pending. It takes the template's sections, or the two default sections. A non-empty template title, number, department and category win. Otherwise the fallbacks are `新文件草案`, `DOC-TEMP`, `未分類` and the first registered category. The level is the template's, or level 2. |
| App.BlankDraft | App.tsx:76-90 | The blank choice gives `新文件草案`, `DOC-TEMP`, level 2, the first category, `未分類` and the default sections. |
| App.Revise | App.tsx:110-129 | A revision keeps the old history as its prefix. |
| App.ReviseShape | App.tsx:97-132 | A revision keeps the content and metadata. It resets the reviewers and the approval log and keeps only the approver's name, now pending. It appends one history entry naming the old version. A major revision is a draft at `MajorVersion`; a minor one goes to approval at `MinorVersion`. |
| App.SeedRevision | App.tsx:97-132 | The first major revision of the seeded `A.0` document (line 39) is draft `1.0` with two history entries. |
| App.Upsert | App.tsx:134-141 | Saving a listed id replaces every entry with that id in place; a new id goes to the front. |
| App.UpsertFinds | App.tsx:134-141 | After saving, the id finds the saved document. No other document is lost and none is invented. |
| App.UpsertIdempotent | App.tsx:134-141 | Saving the same document twice equals saving it once. |
| App.UpsertKeepsDistinct | App.tsx:134-141 | Saving keeps document ids distinct. |
| App.TemplateCopy | App.tsx:144-153 | A template copy is a draft with id `tpl-<stamp>`, marked as template, with an empty history, no approval log and a new creation time. |
| App.TemplateCopyKeeps | App.tsx:144-153 | Every other field of the document is kept. |
| App.WithoutCategoryRemoves | App.tsx:162-164 | Deleting a category keeps exactly the categories with another id. |
| App.WithoutCategory | App.tsx:163 | `prev.filter(c => c.id !== id)`. It is characterised by `WithoutCategoryRemoves`. |
| App.AppState.constructor | App.tsx:14-66 | The seeded categories, profile and document, no user templates, nothing in the editor, and profile `default`. |
| App.AppState.Edit | App.tsx:68-71 | `handleEdit` puts the document in the editor and changes nothing else. |
| App.AppState.CreateNew | App.tsx:73-95 | `handleCreateNew` puts the new draft in the editor. |
| App.AppState.CreateRevision | App.tsx:97-132 | `handleCreateRevision` puts the revision in the editor. |
| App.AppState.Save | App.tsx:134-142 | `handleSave` upserts into the document list and keeps ids distinct. |
| App.AppState.SaveAsTemplate | App.tsx:144-156 | `handleSaveAsTemplate` puts the copy in front of the user templates. |
| App.AppState.AddCategory | App.tsx:158-160 | The category is appended. |
| App.AppState.DeleteCategory | App.tsx:162-164 | Every category with the id is removed. |
| App.AppState.SetProfiles | App.tsx:194 | The settings screen's profile list replaces the app's. |
| Editor.UpdateSections | components/DocumentEditor.tsx:94 | The section list keeps its length and its ids. |
| Editor.UpdateSectionsEffect | components/DocumentEditor.tsx:92-95 | The named field of every section with the id takes the value and its other field is kept. Every other section is unchanged, and an unknown id changes nothing. |
| Editor.LastEditWins | components/DocumentEditor.tsx:92-95 | Two edits of one field of one section equal the last one alone. |
| Editor.FindSection | components/DocumentEditor.tsx:98 | A found section is listed and has the id; nothing is found exactly when no section has it. The same lookup is at lines 105, 112 and 130. |
| Editor.FindSectionFirst | components/DocumentEditor.tsx:98 | `find` returns the first section with the id. |
| Editor.RemoveSectionRemoves | components/DocumentEditor.tsx:433 | Deleting keeps exactly the sections with another id. |
| Editor.GeneratedSections | components/DocumentEditor.tsx:83-87 | One section per generated section, in order. Each is under its fresh id and has the generated title and content. |
| Editor.AutoFilled | components/DocumentEditor.tsx:78-90 | `handleAIAutoFill`, the service's answer given as a parameter. It is characterised by `AutoFilledEffect`. |
| Editor.AutoFilledEffect | components/DocumentEditor.tsx:78-90 | With a prompt, an editable document and an answer, the title becomes the prompt and the sections become the generated ones, in order, with their titles and contents; no other field changes. Without a prompt, on a locked document or after a failure, the document is unchanged. |
| Editor.SectionChanged | components/DocumentEditor.tsx:92-95 | `handleSectionChange`. It is characterised by `UpdateSectionsEffect`, `LockedIsFrozen` and `EditsKeepStatus`. |
| Editor.MetaEdited | components/DocumentEditor.tsx:228-246 | The metadata inputs. It is characterised by `MetaEditTakes` and `LockedIsFrozen`. |
| Editor.Inserted | components/DocumentEditor.tsx:97-109 | The common step of `insertVariable` and `insertReference`. It is characterised by `InsertAppends`. |
| Editor.InsertAppends | components/DocumentEditor.tsx:97-109 | In an editable document, inserting appends the token to that section's content only; its title and every other section are kept. |
| Editor.InsertedVariableRenders | components/DocumentEditor.tsx:100 | An inserted `{{key}}` renders as the variable's value. |
| Editor.InsertedReferenceRenders | components/DocumentEditor.tsx:107 | An inserted `[[REF:id]]` renders as the referenced document, or as the unlinked marker. |
| Editor.LockedIsFrozen | components/DocumentEditor.tsx:76-95 | An approved document is unchanged by section edits, metadata edits, insertions and AI drafts. |
| Editor.EditsKeepStatus | components/DocumentEditor.tsx:78-109 | No edit changes the document's status. |
| Editor.MetaEditTakes | components/DocumentEditor.tsx:228-246 | An editable document takes each metadata edit, and only the edited field changes. |
| Editor.Refined | components/DocumentEditor.tsx:133-135 | Replace gives the answer; append keeps the old content in front and ends with the answer. |
| Editor.SuggestionsFollowTyping | components/DocumentEditor.tsx:448-452 | Typing `{{` or `[[` opens the picker; a completed token does not. |
| Editor.ReferenceCandidatesExcludeSelf | components/DocumentEditor.tsx:506 | The reference picker lists every other document and never the one being edited. |
| Editor.ReviseLabelNamesRevision | components/DocumentEditor.tsx:285-288 | The corrected revise label is the version the major revision will have. |
| Editor.ReviseLabel | components/DocumentEditor.tsx:288 | The corrected revise label. It is characterised by `ReviseLabelNamesRevision`. |
| Editor.ReviseLabelAsWrittenMisnames | components/DocumentEditor.tsx:288 | For the seeded `A.0` document the label as written shows `NaN`, while the revision and the corrected label give `1.0`. |
| Editor.DocumentEditor.constructor | components/DocumentEditor.tsx:60-72 | The editor starts on the given document with an empty prompt, no picker, and no refinement. |
| Editor.DocumentEditor.SectionChange | components/DocumentEditor.tsx:92-95 | `handleSectionChange` applies the edit unless the document is locked. |
| Editor.DocumentEditor.ContentTyped | components/DocumentEditor.tsx:445-453 | The content edit is applied, and the picker opens for that section exactly when the text ends in `{{` or `[[`. |
| Editor.DocumentEditor.ToggleSuggestions | components/DocumentEditor.tsx:476 | The picker button closes the section's picker if it is open and opens it otherwise. |
| Editor.DocumentEditor.InsertToken | components/DocumentEditor.tsx:97-109 | The token is appended to an existing section and the picker closes. An unknown section changes nothing. |
| Editor.DocumentEditor.InsertVariable | components/DocumentEditor.tsx:97-102 | `insertVariable` appends `{{key}}`. |
| Editor.DocumentEditor.InsertReference | components/DocumentEditor.tsx:104-109 | `insertReference` appends `[[REF:id]]`. |
| Editor.DocumentEditor.Refine | components/DocumentEditor.tsx:111-125 | Only an existing section with non-blank content is marked for refinement; the answer is kept when the service gave one. |
| Editor.DocumentEditor.ApplyRefinement | components/DocumentEditor.tsx:127-140 | With a marked section that still exists and a non-empty answer, the section takes the refined content and the dialog closes. Otherwise nothing changes. |
| Editor.DocumentEditor.CancelRefinement | components/DocumentEditor.tsx:203 | Closing the dialog discards the answer and the mark. |
| Editor.DocumentEditor.SetPrompt | components/DocumentEditor.tsx:328 | The prompt input sets the prompt only. |
| Editor.DocumentEditor.AIAutoFill | components/DocumentEditor.tsx:78-90 | With a prompt, an unlocked document and an answer, the title becomes the prompt and the sections the generated ones. Otherwise nothing changes. |
| Editor.DocumentEditor.EditMetadata | components/DocumentEditor.tsx:228-246 | A metadata input edits the document unless it is locked. |
| Editor.DocumentEditor.DeleteSection | components/DocumentEditor.tsx:433 | Every section with the id is removed. |
| Editor.DocumentEditor.AddNewSection | components/DocumentEditor.tsx:522 | An empty section titled `新增章節單元` is appended under the new id. |
| Settings.RunsCollapsed | components/Settings.tsx:79 | `replace(/\s+/g, '_')` gives an empty result only for empty text. Every character is `_` or a non-whitespace character of the input. |
| Settings.NoRunsKept | components/Settings.tsx:79 | Text without whitespace is unchanged by the replace. |
| Settings.SanitizedKeyShape | components/Settings.tsx:78-79 | A sanitised key holds no whitespace and no lower-case letter; it is empty exactly when the typed key is blank. |
| Settings.SanitizeKeyIdempotent | components/Settings.tsx:79 | Sanitising a sanitised key changes nothing. |
| Settings.SanitizeKey | components/Settings.tsx:79 | `trim().toUpperCase().replace(/\s+/g, '_')`. It is characterised by `SanitizedKeyShape` and `SanitizeKeyIdempotent`. |
| Settings.Lookup | components/Settings.tsx:83 | `variables[key]` is undefined exactly when the key is absent, and otherwise the key's value. |
| Settings.SetVar | components/Settings.tsx:214 | `{ ...vars, [key]: value }` keeps an existing key's place and appends a new key (also used for a new key at line 87). |
| Settings.SetVarReadsBack | components/Settings.tsx:214 | After setting, the key reads back the value and every other key its old value. |
| Settings.SetVarKeepsDistinct | components/Settings.tsx:214 | Setting keeps keys distinct. |
| Settings.RemoveVarRemoves | components/Settings.tsx:97-98 | `delete vars[key]` removes the key and keeps every other key's value. |
| Settings.RemoveVarKeepsDistinct | components/Settings.tsx:97-98 | Deleting keeps keys distinct. |
| Settings.RemoveVar | components/Settings.tsx:97-98 | `delete newVars[key]` on a copy. It is characterised by `RemoveVarRemoves`. |
| Settings.UpdateProfiles | components/Settings.tsx:70-75 | `updateProfile` keeps the number of profiles and their ids. |
| Settings.UpdateProfilesEffect | components/Settings.tsx:70-75 | A rename gives every profile with the id the new name and keeps its variables. New variables replace theirs and keep the name. Every other profile is unchanged, and an unknown id changes nothing. |
| Settings.UpdatedReadBack | components/Settings.tsx:70-80 | Looking up the id after an update finds the profile found before, updated, and nothing when there was none. |
| Settings.RenameReadBack | components/Settings.tsx:70-80 | After renaming an existing profile, looking it up gives the new name. After replacing its variables, it gives the new variables. |
| Settings.FindProfile | components/Settings.tsx:80 | A found profile is listed and has the id; nothing is found exactly when no profile has it. The same lookup is at lines 95 and 103. |
| Settings.FindProfileFirst | components/Settings.tsx:80 | `find` returns the first profile with the id, even when later profiles share it. `submitNewVar`, the value inputs and `handleRemoveVar` (lines 95 and 103) therefore act on that first profile. |
| Settings.DeleteKeepsOne | components/Settings.tsx:60-68 | Deleting one of at least two profiles removes it and leaves one to select. |
| Settings.UpdateKeepsKeysDistinct | components/Settings.tsx:70-75 | Updating a profile keeps every profile's keys distinct. |
| Settings.WithoutKeepsKeysDistinct | components/Settings.tsx:65 | Removing a profile keeps every profile's keys distinct. |
| Settings.BuiltInCategoriesStay | components/Settings.tsx:257 | Built-in categories offer no delete button; new custom ones do. |
| Settings.SettingsScreen.constructor | components/Settings.tsx:32-36 | The first profile is selected (`variableProfiles[0]?.id \|\| null`), and the inputs are empty and closed. |
| Settings.SettingsScreen.AddCategory | components/Settings.tsx:38-48 | A non-blank name is appended as a custom blue category `cat-<stamp>` and the input is cleared; a blank name changes nothing. |
| Settings.SettingsScreen.AddProfile | components/Settings.tsx:50-58 | The new profile is appended and selected. |
| Settings.SettingsScreen.DeleteProfile | components/Settings.tsx:60-68 | Refused while only one profile is left. Otherwise the profile is removed and the first remaining one is selected. |
| Settings.SettingsScreen.RenameProfile | components/Settings.tsx:161 | The profile with the id takes the name. |
| Settings.SettingsScreen.SubmitNewVar | components/Settings.tsx:77-93 | The key is sanitised and added with an empty value to the selected profile, and the input is cleared and closed. Nothing changes for a blank key, no selection, an unknown profile or a key it already has. |
| Settings.SettingsScreen.SetValue | components/Settings.tsx:213-216 | The selected profile's key takes the value. |
| Settings.SettingsScreen.RemoveVariable | components/Settings.tsx:94-101 | The key is removed from the profile with the id; an unknown profile changes nothing. |
| Settings.SettingsScreen.SelectProfile | components/Settings.tsx:138 | The clicked profile is selected. |
| Settings.SettingsScreen.EditNewVar | components/Settings.tsx:191-195 | The key input and its open state are set. |
| Settings.SettingsScreen.EditNewCategory | components/Settings.tsx:271 | The category name input is set. |
| Gallery.AllTemplates | components/TemplateGallery.tsx:142-156 | One card per built-in template and per saved template. |
| Gallery.AllTemplatesOrder | components/TemplateGallery.tsx:142-156 | Built-in cards come first, marked as such, with their title as id and their own title, category, description, level and sections. Each saved template follows with its own id, title, category, level and sections, described as `使用者範本: ` followed by its document number. |
| Gallery.FilteredMembers | components/TemplateGallery.tsx:158-176 | A card is shown exactly when it matches the search and passes the filter. |
| Gallery.CategoryFilter | components/TemplateGallery.tsx:165-173 | A category id that is not a reserved filter name selects exactly that category's cards. |
| Gallery.EmptySearchMatches | components/TemplateGallery.tsx:160-161 | An empty search matches every card. |
| Gallery.MatchesSearch | components/TemplateGallery.tsx:160-161 | The case-insensitive search on title and description. It is characterised by `FilteredMembers` and `EmptySearchMatches`. |
| Gallery.PassesFilter | components/TemplateGallery.tsx:165-174 | The sidebar filter. It is characterised by `FilteredMembers`, `CategoryFilter` and `UnfilteredGallery`. |
| Gallery.UnfilteredGallery | components/TemplateGallery.tsx:158-176 | With no search, `all` shows the whole gallery and `custom` exactly the saved templates, in order. |
| Gallery.ChosenCardStartsDraft | components/TemplateGallery.tsx:279 | A chosen card starts a `DOC-TEMP` draft `1.0` with its sections, level and category, and its title when non-empty. |
| Dashboard.FunnelPartition | components/Dashboard.tsx:30-34 | The three cards together with the documents awaiting final approval count every document exactly once. |
| Dashboard.FunnelStats | components/Dashboard.tsx:30-34 | The three counts of the funnel cards. It is characterised by `FunnelPartition` and `CardsCountTheirList`. |
| Dashboard.Toggle | components/Dashboard.tsx:73-83 | Clicking the active card clears the filter; clicking another card sets it. |
| Dashboard.ToggleTwice | components/Dashboard.tsx:73-83 | Two clicks on one card from an unfiltered list leave it unfiltered. |
| Dashboard.FilteredDocsMembers | components/Dashboard.tsx:36-42 | A document is listed exactly when its category is the tab (or the tab is `all`) and the filter selects its status. |
| Dashboard.CardsCountTheirList | components/Dashboard.tsx:30-42 | Under `all`, each card's count is the length of the list its click shows, and no filter shows everything. |
| Dashboard.ReviseOfferedWhenLocked | components/Dashboard.tsx:131 | The revise button is offered exactly on documents the editor locks. |
| Dashboard.CategoryBadge | components/Dashboard.tsx:49-54 | No badge exactly when no registered category has the id. |
| Dashboard.CategoryBadgeFirst | components/Dashboard.tsx:50-53 | The badge of a registered category shows the colour and `name.split(' ')[0]` of the first category with the id. |
| Dashboard.BadgeIsFirstWord | components/Dashboard.tsx:53 | The badge text is a prefix of the name and contains no space. |

## Left out

- `components/Layout.tsx`, `components/SyntaxGuide.tsx` and the `MermaidDiagram` component are not part of this model. They are presentation only.
- The PDF export is not modelled: it is browser I/O.
- Alerts and confirmation messages are not modelled; a branch that only alerts leaves the state unchanged.
- The AI service (`services/geminiService.ts`) is not part of this model. Its answers are parameters of `Editor.DocumentEditor.AIAutoFill` and `Editor.DocumentEditor.Refine`, with `None` for a failed call. The tone and the chosen action are not modelled.
- `Date.now()`, `new Date().toISOString()` and `Math.random()` ids are parameters. Where a handler calls the same one twice (`handleCreateRevision` calls `Date.now()` at App.tsx:112 and 122, and `toISOString()` at App.tsx:115 and 124), one parameter stands for both calls. The model therefore does not capture the two calls returning different values.
- The text of the built-in template catalogue (`components/TemplateGallery.tsx:35-140`) is a parameter of `Gallery.AllTemplates`.
- Versions: numbers are exact decimals. Binary floating-point error and the tie-breaking of `toFixed` on inexact values are not modelled. Exponent notation is not parsed.
- Variable keys are assumed to hold no regular-expression metacharacters (`RegExp` is built from the raw key). `$` patterns in replacement strings are not interpreted.
- Case mapping (`toUpperCase`, `toLowerCase`) covers ASCII only; Unicode case mapping is not modelled.
- Strings are sequences of characters, not of JavaScript's UTF-16 code units. For a character outside the Basic Multilingual Plane, `charAt(0)` (the logo initial, `ControlSheet.CompanyInitial`) returns half a surrogate pair in the source, but the whole character in the model.
- JavaScript objects order integer-like keys first; the model keeps plain insertion order.
- `JSON.parse(JSON.stringify(...))` deep copies are plain value copies, because the model has no aliasing.
- HTML escaping and the JSX markup around the rendered blocks are not modelled. The wrapper spans are kept as literal strings.
- The section-number badge (`components/ISODocumentRenderer.tsx:265`) is not modelled.
- Review and sign-off transitions (`review` → `approved`, the approval log and its hash) happen outside these files and are not modelled.
- Editor.DocumentEditor.DeleteSection: the lock check lives in the JSX, which hides the button on locked documents (`components/DocumentEditor.tsx:433`). The handler itself does not check it, so neither does the method.
- Editor.DocumentEditor.AddNewSection: likewise, the lock check is only the hidden button (`components/DocumentEditor.tsx:521`).
- Editor.DocumentEditor.Refine: the source does not check the lock here, and the method follows it. The loading flag is not modelled.
- Gallery.PassesFilter: a category whose id is `all`, `custom` or `level1` to `level4` is shadowed by the reserved filter of that name. `Gallery.CategoryFilter` states the behaviour for every other id.
- The preview toggle, the settings and syntax-guide dialogs, and the profile selector in the editor are presentation state and are not modelled.

## Findings

| source | as written | input that shows it | evidently intended | confidence | as-written member | corrected member |
|---|---|---|---|---|---|---|
| components/DocumentEditor.tsx:288 | The revise button shows `(parseFloat(doc.version) + 1).toFixed(1)`: no `\|\| 0` and no `Math.floor`, unlike the revision it starts (App.tsx:98-103) | `A.0` (the seeded document): the button shows `vNaN` but the revision is `1.0`. `1.5`: the button shows `v2.5` but the revision is `2.0`. | The button names the version the major revision will create | not executed | Versions.ReviseLabelAsWritten (exhibited by Versions.LabelOfNonNumber, Versions.LabelOfFraction and Editor.ReviseLabelAsWrittenMisnames) | Editor.ReviseLabel (proved by Editor.ReviseLabelNamesRevision) |
