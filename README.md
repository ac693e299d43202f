# Trilium core, modelled in Dafny

This project models four pieces of the Trilium note-taking application and
proves properties of them.

- **The calendar generator** (`src/services/date_notes.js`) takes a
  `YYYY-MM-DD` date string. It finds or creates the chain calendar root →
  year → month → day note. Every level is looked up first by a label, then
  by a child whose title starts with the key, and is created only when both
  fail. It is modelled twice:
  - as functions of an abstract note store (`NoteStore`: notes, branches,
    labels);
  - as the class `DateNotes.Database`, whose methods follow the source
    statement by statement and are proved equal to those functions.

  The title templates and the start-of-the-week arithmetic sit beside it.
  Days are integers, with day 0 a Sunday.
- **The repository write path** (`src/services/repository.js`) is
  `updateEntity`:
  - it runs the `beforeSaving` hook;
  - it writes a clone of the entity without `jsonContent`, upserted by
    table and primary key;
  - in the same transaction it appends a sync entry, unless the row is an
    `options` row whose `isSynced` is falsy.

  `Repository.Save` models it as one atomic step over (tables, sync log),
  and the class `Repository.Repo` models it as a method. The getters
  `getEntity`, `getEntities`, `getNote` … `getOption` read the same state.
- **The clipboard** (`src/public/javascripts/services/clipboard.js`) is
  the module state (ids and mode) held by the class `Clipboard.Board`.
  - `copy` and `cut` set that state.
  - The paste operations log the tree and cloning calls they make.
  - The invariant "no mode ⇒ no ids" is preserved by every operation, and
    rules out both error branches. The `pasteInto` error branch names an
    undefined variable `mode`. It is modelled as the `ReferenceError` it
    would raise, and is proved unreachable under the invariant.
- **The tree context menu**
  (`src/public/javascripts/services/tree_context_menu.js`) has three parts:
  - the menu as a decision table over input flags (hoisting, note types,
    selection, clipboard);
  - the `baseCmd + "_" + type` submenu encoding and its `split("_")[1]`
    decoding;
  - the command dispatch of `selectContextMenuItem`. It is a pure
    `Dispatch` from a command to the one service call made, and a class
    whose method appends that call to a log.

Called without a root note, `getMonthNote` throws when it has to create
the month note. The model follows the code; see "## Findings".

Modules: `Wrappers` (Option, Result), `JsString` (`substr`, `startsWith`,
global `replace`, `split`), `NoteStore`, `DateNotes`, `Repository`,
`Clipboard`, `TreeContextMenu`.

## Model

| member | source | states |
|---|---|---|
| `DateNotes.NoteStartingWith` | src/services/date_notes.js:25-30 | A found child is live, unprotected, titled with the prefix, and placed under exactly that parent by a live branch. Nothing is found iff no branch qualifies. |
| `DateNotes.ChildOrNewSpec` | src/services/date_notes.js:62-66 | A child that matches the prefix is reused and nothing changes. Otherwise exactly one unprotected note is created under the parent, with the next id. |
| `DateNotes.LabelledSpec` | src/services/date_notes.js:68-69 | Labelling adds the level's label (and `sorted`) and nothing else, and the label lookup then finds that note. |
| `DateNotes.LevelSpec` | src/services/date_notes.js:59-70 | A level not found by label is placed under the parent by a live branch. It is the matching child, with no note or branch added, or else a new note with the next id and the level's title, under a new branch to the parent. Exactly its own label and `sorted` are added, and it is then found by its label. |
| `DateNotes.ChildOrNewPlaced` | src/services/date_notes.js:62-66 | The reused child and the created note both sit under the parent by a live branch. |
| `DateNotes.RootCalendarSpec` | src/services/date_notes.js:33-49 | An existing `calendarRoot` note is returned with the store untouched. Otherwise exactly one note titled 日历 is created under the tree root and labelled `calendarRoot` and `sorted`. Either way the lookup then finds it. |
| `DateNotes.NewCalendarRoot` | src/services/date_notes.js:37-46 | The creating branch: the new note, its branch and its two labels, exactly. |
| `DateNotes.RootCalendarIdempotent` | src/services/date_notes.js:35-48 | A second call returns the same note and changes nothing. |
| `DateNotes.YearNoteSpec` | src/services/date_notes.js:52-73 | The year note carries `yearNote=<first 4 characters>` and the calendar root keeps its label. At most one note is created (two without a root note), and only calendar labels are added. |
| `DateNotes.YearNoteIdempotent` | src/services/date_notes.js:57-72 | Another date of the same year returns the same year note and changes nothing. |
| `DateNotes.YearNotePlacement` | src/services/date_notes.js:59-70 | A year note not found by label is the root note's child whose title starts with the year, or else a new note titled with the year. Either way it sits under the root note and gets exactly `yearNote=<year>` and `sorted`. |
| `DateNotes.YearNoteReusesChild` | src/services/date_notes.js:61-66 | A year note found by title prefix is reused. No note or branch is added; only its two labels are. |
| `DateNotes.DefaultMonthTitle` | src/services/date_notes.js:75-82 | With the default pattern the title is the month number, " - " and `MONTHS[month]`. |
| `DateNotes.MonthTitleOfTemplate` | src/services/date_notes.js:75-82 | For any pattern made of literal text without `{` and brace tokens, the title fills every `{monthNumberPadded}` with the month number and every `{month}` with `MONTHS[month]`. The text and other tokens are kept. |
| `DateNotes.DateTitleOfTemplate` | src/services/date_notes.js:111-120 | For any such pattern, the title fills `{dayInMonthPadded}`, `{weekDay}`, `{weekDay3}` and `{weekDay2}` with the day of the month, `DAYS[weekday]` and its first three and two characters. The text and other tokens are kept. |
| `DateNotes.TitleTokens` | src/services/date_notes.js:13-14 | The six pattern tokens are brace tokens, and no month or day name holds `{`. |
| `JsString.ReplaceAllFills` | src/services/date_notes.js:79-81 | A global replace of a brace token in a pattern of text and tokens replaces exactly that token's slots. |
| `JsString.TokenNotPrefix` | src/services/date_notes.js:115-119 | Two different brace tokens never begin at the same place, so `{weekDay}` never matches inside `{weekDay3}` and the reverse. |
| `DateNotes.MonthNoteSpec` | src/services/date_notes.js:85-109 | If the month label (first 7 characters) is found, the store is untouched. Otherwise the year note is resolved and the month note is reused or created and labelled. With a root note the call succeeds. A failure happens only without one, with the error `rootNote` undefined, leaving the store as the year level left it. |
| `DateNotes.MonthUnderSpec` | src/services/date_notes.js:94-105 | Under the year note the month is scanned by characters 5-6. The call fails iff there is no root note and no matching child. |
| `DateNotes.MonthUnderPlacement` | src/services/date_notes.js:94-105 | A month note the level yields is the year note's child whose title starts with characters 5-6. Otherwise it is a new note titled by `getMonthNoteTitle` on the root note's pattern. Either way it sits under the year note and gets exactly `monthNote=<first 7 characters>` and `sorted`. |
| `DateNotes.MonthNoteChain` | src/services/date_notes.js:91-105 | A month note not found by label sits under the year note. A year note not found by label sits under the root note. |
| `DateNotes.MonthNoteIdempotent` | src/services/date_notes.js:86-108 | After a successful call, another date of the same month returns the same result and changes nothing, whatever root note is passed. |
| `DateNotes.MonthNoteWithoutRootThrows` | src/services/date_notes.js:92-99 | On a store holding only the root note, `getMonthNote("2024-03-15")` with no root note creates the calendar root and the year note, then throws. |
| `DateNotes.MonthNoteResolvingRootSpec` | src/services/date_notes.js:85-109 | Corrected month level: it always succeeds, labels the month note, creates at most three notes and adds only calendar labels. |
| `DateNotes.MonthNoteResolvingRootChain` | src/services/date_notes.js:85-109 | Corrected month level: a month note not found by label sits under the year note, which sits under the root note when not found by label. A calendar root it created sits under the tree root. |
| `DateNotes.MonthNoteResolvingRootCreates` | src/services/date_notes.js:92-105 | In the scenario where the as-written call throws, the corrected one creates note 3 titled `03 - ` and the month's name. It sits under the year note 2, which sits under the calendar root 1. Its `monthNote` label `2024-03` finds it. |
| `DateNotes.OnlyRootMonthUnder` | src/services/date_notes.js:94-105 | The month level of that scenario: exactly that note, its branch and its label. |
| `DateNotes.OnlyRootYearReady` | src/services/date_notes.js:89-99 | In that scenario the year level leaves no month label, no child of the year note and no `monthPattern` label. |
| `DateNotes.OnlyRootYearHasNoPattern` | src/services/date_notes.js:76 | In that scenario the root note has no pattern label, so the default pattern applies. |
| `DateNotes.MonthNoteResolvingRootAgrees` | src/services/date_notes.js:92 | Given a root note, the corrected month level is the one as written. |
| `DateNotes.WeekDay` | src/services/date_notes.js:150 | `getDay()` lies in 0..6. |
| `DateNotes.DefaultDateTitle` | src/services/date_notes.js:111-120 | With the default pattern the title is the day number, " - " and `DAYS[weekday]`. The `{weekDay3}`/`{weekDay2}` passes change nothing. |
| `DateNotes.DayUnderSpec` | src/services/date_notes.js:133-143 | The day note is the month note's child whose title starts with characters 8-9, or else a new note under the month note titled by `getDateNoteTitle`. It sits under the month note, at most one note is created, and exactly one `dateNote` label is added, holding the first 10 characters. For dates of at most 10 characters the lookup then finds the day note. |
| `DateNotes.DateNoteUnderMiss` | src/services/date_notes.js:130-144 | After a day-label miss, the month level and then the day level run. The result is a live day note, at most three new notes and only calendar labels. |
| `DateNotes.DateNoteUnderSpec` | src/services/date_notes.js:128-146 | Below the calendar root the day note is always produced, whether found by label or not. When not found by label it hangs below the root note (`DateChain`): day under month, a month not found by label under the year, a year not found by label under the root. |
| `DateNotes.DateNoteChain` | src/services/date_notes.js:130-143 | After a day-label miss the day, month and year notes are linked by live branches as `DateChain` states. |
| `DateNotes.DateNoteSpec` | src/services/date_notes.js:123-147 | `getDateNote` always yields a live note. It creates at most four notes, adds only calendar labels and keeps the calendar root's label. For a `YYYY-MM-DD` string the day note is then found by its label. A day note not found by label hangs day → month → year → calendar root as `DateChain` states. A calendar root that had to be created sits under the tree root. |
| `DateNotes.DateNoteIdempotent` | src/services/date_notes.js:128-143 | For strings of at most 10 characters a second call returns the same note and changes nothing. |
| `DateNotes.StartOfTheWeek` | src/services/date_notes.js:149-164 | Both conventions are handled. `monday` gives a Monday 0-6 days at or before the day, and a Sunday goes back 6. `sunday` gives the Sunday 0-6 days at or before it. Any other convention fails with the source's message. |
| `DateNotes.StartOfTheWeekUnique` | src/services/date_notes.js:153-158 | The week start is the only day of the right weekday within six days before the date. |
| `DateNotes.GetStartOfTheWeek` | src/services/date_notes.js:149-164 | It moves the `Date` argument itself to the week start and returns a fresh date with the same day. An unknown convention leaves the argument alone and fails. |
| `DateNotes.WeekNoteSpec` | src/services/date_notes.js:166-174 | The convention defaults to `monday`. A known convention yields the day note of a week start at most six days earlier. An unknown one fails with the store untouched. |
| `DateNotes.WeekNoteSameWeek` | src/services/date_notes.js:166-173 | Two dates of the same Monday-to-Sunday week get the same week note. |
| `DateNotes.Database.CreateNewNote` | src/services/date_notes.js:16-23 | An unprotected note titled as given, with a new branch under the parent. |
| `DateNotes.Database.CreateLabel` | src/services/date_notes.js:44-45 | Exactly one label is appended. |
| `DateNotes.Database.GetRootCalendarNote` | src/services/date_notes.js:33-49 | It returns the note and leaves the state described by `RootCalendarSpec`. |
| `DateNotes.Database.GetYearNote` | src/services/date_notes.js:52-73 | It returns the note and leaves the state described by `YearNoteSpec`. |
| `DateNotes.Database.GetMonthNote` | src/services/date_notes.js:85-109 | It returns the result and leaves the state described by `MonthNoteSpec`, including the throw. |
| `DateNotes.Database.GetDateNote` | src/services/date_notes.js:123-147 | It returns the result and leaves the state described by `DateNoteSpec`. |
| `DateNotes.Database.GetWeekNote` | src/services/date_notes.js:166-174 | It returns the result and leaves the state described by `WeekNoteSpec`. |
| `NoteStore.FindChild` | src/services/date_notes.js:26-29 | Some accepted branch's note (the query has no `ORDER BY`; the model takes the first), or none iff no branch is accepted. |
| `NoteStore.PlacedUnderExtended` | src/services/date_notes.js:59-70 | A parent link stays once made, since later levels only append branches. |
| `NoteStore.NoteWithLabelAfterAdd` | src/services/date_notes.js:68 | A label attached after a failed lookup is what the lookup finds from then on. |
| `Repository.Persisted` | src/services/repository.js:61-63 | The clone has the entity's fields and values except `jsonContent`. |
| `Repository.Replace` | src/services/repository.js:66 | After the upsert the row under the key is the written clone. The sync log is unchanged. |
| `Repository.SaveSpec` | src/services/repository.js:56-74 | The write is atomic. On failure the database is unchanged and the error is reported. On success the row under the entity's key is the clone and no other row or table changes. Exactly one sync entry (table, key) is appended for a synced row, and none for an `options` row with falsy `isSynced`. |
| `Repository.UpdateEntitySpec` | src/services/repository.js:56-74 | `updateEntity` fails iff the hook, the replacement or the sync entry of a synced row throws, and then leaves the database unchanged and passes the error on. A throwing hook is reached before the transaction. Otherwise the entity holds the hook's result; the clone of it is upserted, other tables are untouched, and the sync entry is appended iff the row is synced. |
| `Repository.GetEntities` | src/services/repository.js:12-16 | One constructed entity per row, in row order. |
| `Repository.GetEntity` | src/services/repository.js:18-26 | `null` iff the query yields no row; otherwise the first row, constructed. |
| `Repository.GetByKey` | src/services/repository.js:28-54 | Each getter yields an entity iff its table holds a row under the (non-null) id, and that entity is the row constructed. |
| `Repository.ReadYourWrite` | src/services/repository.js:61-68 | After a committed write, the getter of that table returns the written clone under the entity's key. |
| `Repository.WriteLeavesOtherKeys` | src/services/repository.js:65-66 | A committed or failed write leaves what every getter reads under every other (getter, key) as it was. |
| `Repository.WriteLeavesOtherRows` | src/services/repository.js:66 | A write leaves every row of another table or key as it was. |
| `Repository.SameRowSameRead` | src/services/repository.js:18-26 | A getter's result depends only on its table's row under the id. |
| `Repository.SaveUpdateSyncLog` | src/services/repository.js:56-72 | One call appends its entry exactly when it commits a synced row; a throwing hook commits nothing. |
| `Repository.SaveAllSyncLog` | src/services/repository.js:65-73 | Over any sequence of calls, the sync log records exactly the committed writes of synced rows, in call order. |
| `Repository.Repo.UpdateEntity` | src/services/repository.js:56-74 | The hook runs first and its changes stay on the entity, which keeps its `jsonContent`. A throwing hook returns the error before anything is written. The database, the outcome and the entity's fields are those of `UpdateEntityOn`, whose properties `UpdateEntitySpec` states. |
| `Clipboard.NoteIds` | src/public/javascripts/services/clipboard.js:62 | The nodes' note ids, in order. |
| `Clipboard.Keys` | src/public/javascripts/services/clipboard.js:69 | The nodes' keys, in order. |
| `Clipboard.ClonesAfter` | src/public/javascripts/services/clipboard.js:19-21 | One `cloneNoteAfter(id, branchId)` per id, in order. |
| `Clipboard.ClonesTo` | src/public/javascripts/services/clipboard.js:45-47 | One `cloneNoteTo(id, noteId)` per id, in order. |
| `Clipboard.InvPreserved` | src/public/javascripts/services/clipboard.js:6-73 | The initial state, `copy`, `cut` and both pastes keep "no mode ⇒ no ids". |
| `Clipboard.InvRulesOutErrors` | src/public/javascripts/services/clipboard.js:25-30 | Under the invariant neither paste reaches its error branch. |
| `Clipboard.ErrorOnlyOutsideInv` | src/public/javascripts/services/clipboard.js:53-58 | Outside the invariant, `pasteAfter` throws the unknown-mode message and `pasteInto` raises the `ReferenceError` on `mode`. The state is unchanged. |
| `Clipboard.CopyThenPasteAfter` | src/public/javascripts/services/clipboard.js:18-24 | After `copy(nodes)`, `pasteAfter` clones each copied note after the target's branch, in order, and keeps the clipboard. |
| `Clipboard.CopyThenPasteInto` | src/public/javascripts/services/clipboard.js:44-51 | After `copy(nodes)`, `pasteInto` clones each copied note under the target's note, in order, then expands the target, and keeps the clipboard. |
| `Clipboard.CutThenPaste` | src/public/javascripts/services/clipboard.js:10-16 | After `cut(nodes)`, one paste moves all keys in one call and empties the clipboard. A paste on an empty clipboard does nothing. |
| `Clipboard.PasteKeepsOrEmpties` | src/public/javascripts/services/clipboard.js:9-59 | A paste keeps or empties the clipboard; in cut mode it empties it. |
| `Clipboard.Board.PasteAfter` | src/public/javascripts/services/clipboard.js:9-31 | The loop issues the clone calls. The new state and the calls are those of `PasteAfterResult`. |
| `Clipboard.Board.PasteInto` | src/public/javascripts/services/clipboard.js:33-59 | The loop issues the clone calls, then the expansion. The new state and the calls are those of `PasteIntoResult`. |
| `Clipboard.Board.Copy` | src/public/javascripts/services/clipboard.js:61-66 | The ids become the nodes' note ids and the mode becomes `copy`. |
| `Clipboard.Board.Cut` | src/public/javascripts/services/clipboard.js:68-73 | The ids become the nodes' keys and the mode becomes `cut`. |
| `Clipboard.Board.IsEmpty` | src/public/javascripts/services/clipboard.js:75-77 | True iff there are no ids. |
| `TreeContextMenu.NoteTypeItemsDecode` | src/public/javascripts/services/tree_context_menu.js:20-28 | Exactly five items with commands `b_text` … `b_render`, titles and icons as in the source. Each decodes back to its type. |
| `TreeContextMenu.CommandType` | src/public/javascripts/services/tree_context_menu.js:95 | A command without `_` has an undefined type. |
| `TreeContextMenu.CommandTypeRoundTrip` | src/public/javascripts/services/tree_context_menu.js:95 | `split("_")[1]` of `b + "_" + t` is `t` when neither part holds `_`. |
| `TreeContextMenu.FilterNulls` | src/public/javascripts/services/tree_context_menu.js:83 | Exactly the non-null entries survive. |
| `TreeContextMenu.FilterNullsAppend` | src/public/javascripts/services/tree_context_menu.js:83 | The filter keeps order: filtering two parts is filtering each and concatenating. |
| `TreeContextMenu.FilterNullsCounts` | src/public/javascripts/services/tree_context_menu.js:83 | Each item survives as many times as it is present. |
| `TreeContextMenu.RawItemCommands` | src/public/javascripts/services/tree_context_menu.js:47-83 | The 23 entries of the literal and the command each one carries (none for separators). |
| `TreeContextMenu.EntryFor` | src/public/javascripts/services/tree_context_menu.js:47-83 | After filtering, a command is offered iff its entry is not null. Its `enabled` field and submenu are that entry's. |
| `TreeContextMenu.InsertNoteAfterItem` | src/public/javascripts/services/tree_context_menu.js:44-51 | Enabled iff the note is not root, not hoisted, its parent is not a search and nothing else is selected. The submenu is present iff the first three hold. |
| `TreeContextMenu.InsertChildNoteItem` | src/public/javascripts/services/tree_context_menu.js:45-54 | Enabled iff the note is not a search and nothing else is selected. The submenu is present iff the note is not a search. |
| `TreeContextMenu.DeleteItem` | src/public/javascripts/services/tree_context_menu.js:55-56 | Enabled iff the note is not root, not hoisted and its parent is not a search. |
| `TreeContextMenu.HoistItem` | src/public/javascripts/services/tree_context_menu.js:58 | Offered iff the note is not hoisted; enabled iff nothing else is selected. |
| `TreeContextMenu.UnhoistItem` | src/public/javascripts/services/tree_context_menu.js:59 | Offered iff the note is hoisted and not root. It has no `enabled` field. |
| `TreeContextMenu.CopyItem` | src/public/javascripts/services/tree_context_menu.js:66-67 | Enabled iff not root. |
| `TreeContextMenu.CutItem` | src/public/javascripts/services/tree_context_menu.js:68-69 | Enabled iff not root. |
| `TreeContextMenu.PasteIntoItem` | src/public/javascripts/services/tree_context_menu.js:70-71 | Enabled iff the clipboard is non-empty, the note is not a search and nothing else is selected. |
| `TreeContextMenu.PasteAfterItem` | src/public/javascripts/services/tree_context_menu.js:72-73 | Enabled iff the clipboard is non-empty, the note is not root, its parent is not a search and nothing else is selected. |
| `TreeContextMenu.PrefixesExclusive` | src/public/javascripts/services/tree_context_menu.js:92-102 | No command starts with both `insertNoteAfter` and `insertChildNote`. |
| `TreeContextMenu.ParseCommand` | src/public/javascripts/services/tree_context_menu.js:86-157 | Any command starting with either note-creating prefix selects that command, with the type decoded from its suffix. |
| `TreeContextMenu.SubmenuCreatesNote` | src/public/javascripts/services/tree_context_menu.js:92-109 | A submenu entry under `insertNoteAfter` creates a note of its type `'after'` the node, under the node's parent, protected as the parent is. One under `insertChildNote` creates it `'into'` the node, protected as the node is. |
| `TreeContextMenu.InsertWithoutSuffixHasNoType` | src/public/javascripts/services/tree_context_menu.js:92-109 | A prefixed command without `_` creates a note with an undefined type. |
| `TreeContextMenu.UnknownCommandsExactly` | src/public/javascripts/services/tree_context_menu.js:86-157 | A command is unknown iff it is none of the 16 exact commands and starts with neither prefix. |
| `TreeContextMenu.UnknownCommandLogs` | src/public/javascripts/services/tree_context_menu.js:155-157 | The dispatch logs an error iff the command is unknown, and the message is "Unknown command: " + cmd. Every other command makes its service call. |
| `TreeContextMenu.TreeContextMenu.constructor` | src/public/javascripts/services/tree_context_menu.js:16-18 | The menu holds its node and has issued nothing. |
| `TreeContextMenu.TreeContextMenu.SelectContextMenuItem` | src/public/javascripts/services/tree_context_menu.js:86-158 | Each chosen command appends exactly its one service call, `Dispatch(node, cmd)`. |

## Left out

- The title-prefix query is a SQL `LIKE 'prefix%'`. It is modelled as a case-sensitive `startsWith`. SQL's case folding and the wildcard meaning of `%`/`_` inside the interpolated prefix are not modelled.
- JavaScript `Date`, time zones, `dateUtils.parseLocalDate` and `dateUtils.utcDateStr` are not modelled. The two functions are parameters (`DateNotes.DateUtils`), and dates are day numbers with `getDay()` as `day % 7`.
- `getMonthNoteTitle` and `getDateNoteTitle` read the pattern labels through `rootNote.getLabelValue`. This is modelled as the first label of that name on the root note (`NoteStore.LabelValue`); an empty value falls back to the default, as `||` does.
- `noteService`, `attributeService`, the tree cache, the hoisting service, the cloning and tree-changes services, the dialogs, `treeUtils.getNotePath`, `getParentProtectedStatus` and `getSelectedOrActiveNodes` are not modelled. They are inputs (`TreeContextMenu.MenuInputs`, `TreeContextMenu.Services`), abstract store operations (`NoteStore`), or logged calls (`Clipboard.Action`, `TreeContextMenu.Effect`).
- The selection test compares node keys rather than node object identity.
- The internals of `sql.transactional`, `sql.replace` and the sync table are not modelled. The transaction is one atomic step, and a throwing step is a `Repository.Fault` parameter. The sync entry's `syncId` and source id are not modelled.
- `setEntityConstructor` is not modelled. The entity constructor is a function parameter of the getters.
- The getters assume that each table's primary-key column is the key the table is indexed by.
- Async/await interleaving is not modelled: every operation runs to completion before the next starts.
- The toasts of `copy` and `cut` (`infoService.showMessage`) are not modelled.
- The enablement of "openInTab", "editBranchPrefix", "protectSubtree", "unprotectSubtree", "export", "importIntoNote", "collapseSubtree", "forceNoteSync" and "sortAlphabetically" has no lemma of its own. `TreeContextMenu.EntryFor` gives each of them from its entry in `RawEntry`.
- `DateNotes.MonthTitleOfTemplate` and `DateNotes.DateTitleOfTemplate` cover patterns written as literal text without `{` plus brace tokens, and a month number or day of the month without `{`. A pattern with a stray `{` (where a replacement could complete a token for a later pass) is covered only by the definitions themselves.
- `Repository.UpdateEntityOn`: a hook that changes some fields and then throws leaves those changes on the entity in the source. The model keeps the fields as they were, since the hook is a function of the fields and its partial effects are not modelled.
- `NoteStore.FindChild`: the query has no `ORDER BY`, so which of several qualifying children SQLite returns is not fixed. The model takes the first in branch order, and the level lemmas promise only that it is a qualifying child.

## Findings

| source | as written | input that shows it | evidently intended | confidence | as-written member | corrected member |
|---|---|---|---|---|---|---|
| src/services/date_notes.js:99 | `getMonthNote(dateStr)` called without `rootNote` resolves the calendar root only inside `getYearNote`. It then passes the undefined `rootNote` to `getMonthNoteTitle`, whose `rootNote.getLabelValue` throws a TypeError, after the calendar root and year note have already been created. | A store holding only the note `root`; `getMonthNote("2024-03-15")` with no root note | Resolve the calendar root first, as `getYearNote` does, so that the month note is created under the year note with the root's title pattern | not executed | `DateNotes.MonthNoteWithoutRootThrows` | `DateNotes.MonthNoteResolvingRootSpec` |

The corrected month level (`DateNotes.MonthNoteResolvingRoot`) is the one
`DateNotes.DateNote` uses. `getDateNote` always passes a root note, so there
both versions agree (`DateNotes.MonthNoteResolvingRootAgrees`).
