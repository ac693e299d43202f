/** The calendar generator: for a `YYYY-MM-DD` date string it finds or
    creates the chain calendar root, year, month, day. Every level is looked
    up by a label first, then by a child whose title starts with the key,
    and only then created; whatever was not found by label is labelled
    afterwards, so the next lookup finds it directly.

    Dates are day numbers with day 0 a Sunday, so the day of the week is
    `day % 7` as JavaScript's `getDay()` numbers it. Parsing and printing of
    date strings are the caller's `DateUtils`. */
module DateNotes {
  import opened Wrappers
  import opened JsString
  import opened NoteStore

  const CalendarRootLabel := "calendarRoot"
  const YearLabel := "yearNote"
  const MonthLabel := "monthNote"
  const DateLabel := "dateNote"
  const SortedLabel := "sorted"
  const CalendarTitle := "日历"

  /** Day names indexed by day of the week, Sunday first. */
  const Days: seq<string> := ["星期日", "星期一", "星期二", "星期三", "星期四", "星期五", "星期六"]
  /** Month names indexed by `getMonth()`, January first. */
  const Months: seq<string> := ["一月", "二月", "三月", "四月", "五月", "六月", "七月", "八月", "九月", "十月", "十一月", "十二月"]

  const DefaultMonthPattern := "{monthNumberPadded} - {month}"
  const DefaultDatePattern := "{dayInMonthPadded} - {weekDay}"

  /** The error `rootNote.getLabelValue(...)` raises when `getMonthNote` is
      given no root note. The engine words this message itself; the text
      here only stands for it, and only the failure is modelled. */
  const RootNoteMissing := "TypeError: Cannot read property 'getLabelValue' of undefined"

  type MonthIndex = m: int | 0 <= m < 12

  /** What the generator reads off a parsed date: the day it denotes,
      counted from a Sunday, and its zero-based month. */
  datatype LocalDate = LocalDate(epochDay: int, month: MonthIndex)

  /** The date utilities the generator calls: `parseLocalDate` and `utcDateStr`. */
  datatype DateUtils = DateUtils(parseLocalDate: string -> LocalDate, utcDateStr: int -> string)

  /** The outcome of a level that can throw, with the store as the throw leaves it. */
  datatype Attempt = Attempt(store: Store, result: Result<Note, string>)

  /** `getDay()`: 0 for Sunday up to 6 for Saturday. */
  function WeekDay(day: int): (d: int)
    ensures 0 <= d < 7
  {
    day % 7
  }

  // ---------------------------------------------------------------------
  // Titles

  /** `getMonthNoteTitle`: the pattern with every `{monthNumberPadded}` and
      then every `{month}` replaced. */
  function MonthNoteTitle(pattern: string, monthNumber: string, month: MonthIndex): string {
    ReplaceAll(ReplaceAll(pattern, "{monthNumberPadded}", monthNumber), "{month}", Months[month])
  }

  /** `getDateNoteTitle`: the pattern with `{dayInMonthPadded}`, `{weekDay}`,
      `{weekDay3}` and `{weekDay2}` replaced in that order. */
  function DateNoteTitle(pattern: string, dayInMonth: string, weekDay: int): string
    requires 0 <= weekDay < 7
  {
    var name := Days[weekDay];
    var withDay := ReplaceAll(pattern, "{dayInMonthPadded}", dayInMonth);
    var withName := ReplaceAll(withDay, "{weekDay}", name);
    var withName3 := ReplaceAll(withName, "{weekDay3}", Substr(name, 0, 3));
    ReplaceAll(withName3, "{weekDay2}", Substr(name, 0, 2))
  }

  /** `await rootNote.getLabelValue(name) || default`: a missing or empty
      label value falls back to the default pattern. */
  function PatternOf(s: Store, rootNote: Note, name: string, default: string): string {
    match LabelValue(s.labels, rootNote.noteId, name)
    case Some(v) => if v != "" then v else default
    case None => default
  }

  /** Nothing that starts in `x + " - "` can be a token of the `{...}` kind
      when `x` has at most two characters. */
  lemma NoTokenBeforeSeparator(x: string, rest: string, token: string)
    requires |x| <= 2 && |token| >= 3 && token[0] == '{' && token[1] != ' ' && token[2] != ' '
    ensures forall i :: 0 <= i < |x| + 3 ==> !OccursAt(x + " - " + rest, token, i)
  {
    var s := x + " - " + rest;
    forall i | 0 <= i < |x| + 3 ensures !OccursAt(s, token, i) {
      if i < |x| {
        var k := |x| - i;
        assert s[i..][k] == s[|x|] == ' ' != token[k];
      } else {
        assert s[i..][0] == s[i] != '{';
      }
    }
  }

  /** A pattern that is a token followed by a shorter text: the token is
      replaced and the text kept. */
  lemma ReplaceLeadingToken(token: string, rest: string, rep: string)
    requires token != "" && |rest| < |token|
    ensures ReplaceAll(token + rest, token, rep) == rep + rest
  {
    ReplaceAllLeading(token, rest, rep);
    ReplaceAllShort(rest, token, rep);
  }

  /** `x + " - " + token` with a short `x`: only the trailing token is replaced. */
  lemma ReplaceTokenAfterSeparator(x: string, token: string, rep: string)
    requires |x| <= 2 && |token| >= 3 && token[0] == '{' && token[1] != ' ' && token[2] != ' '
    ensures ReplaceAll(x + " - " + token, token, rep) == x + " - " + rep
  {
    var a := x + " - ";
    assert x + " - " + token == a + token;
    NoTokenBeforeSeparator(x, token, token);
    ReplaceAllCopiesPrefix(a, token, token, rep);
    assert token == token + "";
    ReplaceAllLeading(token, "", rep);
  }

  /** `x + " - " + name` with a short `x` and a name without braces holds
      no token of the `{...}` kind. */
  lemma NoTokenInTitle(x: string, name: string, token: string, rep: string)
    requires |x| <= 2 && '{' !in name && |token| >= 3 && token[0] == '{' && token[1] != ' ' && token[2] != ' '
    ensures ReplaceAll(x + " - " + name, token, rep) == x + " - " + name
  {
    var s := x + " - " + name;
    NoTokenBeforeSeparator(x, name, token);
    forall i | |x| + 3 <= i <= |s| ensures !OccursAt(s, token, i) {
      if i < |s| {
        assert s[i] == name[i - |x| - 3];
        assert s[i..][0] == s[i];
      }
    }
    ReplaceAllAbsent(s, token, rep);
  }

  /** A pattern of the shape `first + " - " + second` with two tokens: the
      first is replaced by a short `x`, then the second by `rep`. */
  lemma ReplaceBothTokens(pattern: string, first: string, second: string, x: string, rep: string)
    requires pattern == first + " - " + second
    requires |x| <= 2 && first != "" && |second| + 3 < |first|
    requires |second| >= 3 && second[0] == '{' && second[1] != ' ' && second[2] != ' '
    ensures ReplaceAll(ReplaceAll(pattern, first, x), second, rep) == x + " - " + rep
  {
    assert pattern == first + (" - " + second);
    ReplaceLeadingToken(first, " - " + second, x);
    assert x + (" - " + second) == x + " - " + second;
    ReplaceTokenAfterSeparator(x, second, rep);
  }

  /** With the default pattern a month title is the month number, " - " and
      the month's name. */
  lemma DefaultMonthTitle(monthNumber: string, month: MonthIndex)
    requires |monthNumber| <= 2
    ensures MonthNoteTitle(DefaultMonthPattern, monthNumber, month) == monthNumber + " - " + Months[month]
  {
    ReplaceBothTokens(DefaultMonthPattern, "{monthNumberPadded}", "{month}", monthNumber, Months[month]);
  }

  /** With the default pattern a day title is the day number, " - " and the
      day's name. */
  lemma DefaultDateTitle(dayInMonth: string, w: int)
    requires |dayInMonth| <= 2 && 0 <= w < 7
    ensures DateNoteTitle(DefaultDatePattern, dayInMonth, w) == dayInMonth + " - " + Days[w]
  {
    var name := Days[w];
    ReplaceBothTokens(DefaultDatePattern, "{dayInMonthPadded}", "{weekDay}", dayInMonth, name);
    assert '{' !in name;
    NoTokenInTitle(dayInMonth, name, "{weekDay3}", Substr(name, 0, 3));
    NoTokenInTitle(dayInMonth, name, "{weekDay2}", Substr(name, 0, 2));
  }

  /** The tokens of the month and date patterns are brace tokens, and the
      month and day names hold no `{`. */
  lemma TitleTokens()
    ensures IsToken("{monthNumberPadded}") && IsToken("{month}")
    ensures IsToken("{dayInMonthPadded}") && IsToken("{weekDay}") && IsToken("{weekDay3}") && IsToken("{weekDay2}")
    ensures forall m :: 0 <= m < 12 ==> '{' !in Months[m]
    ensures forall w :: 0 <= w < 7 ==> '{' !in Days[w]
  {
  }

  /** A month title from any pattern written as literal text and tokens:
      every `{monthNumberPadded}` holds the month number, every `{month}`
      the month's name, and the text and any other token are kept. */
  lemma MonthTitleOfTemplate(pieces: seq<Piece>, monthNumber: string, month: MonthIndex)
    requires IsTemplate(pieces) && '{' !in monthNumber
    ensures MonthNoteTitle(Join(pieces), monthNumber, month)
         == Join(Fill(Fill(pieces, "{monthNumberPadded}", monthNumber), "{month}", Months[month]))
  {
    TitleTokens();
    ReplaceAllFills(pieces, "{monthNumberPadded}", monthNumber);
    FillKeepsTemplate(pieces, "{monthNumberPadded}", monthNumber);
    ReplaceAllFills(Fill(pieces, "{monthNumberPadded}", monthNumber), "{month}", Months[month]);
  }

  /** A day title from any pattern written as literal text and tokens:
      `{dayInMonthPadded}` holds the day of the month, `{weekDay}` the day's
      name, `{weekDay3}` and `{weekDay2}` its first three and two
      characters, and the text and any other token are kept. */
  lemma DateTitleOfTemplate(pieces: seq<Piece>, dayInMonth: string, w: int)
    requires IsTemplate(pieces) && '{' !in dayInMonth && 0 <= w < 7
    ensures var name := Days[w];
      DateNoteTitle(Join(pieces), dayInMonth, w)
      == Join(Fill(Fill(Fill(Fill(pieces, "{dayInMonthPadded}", dayInMonth), "{weekDay}", name),
                             "{weekDay3}", Substr(name, 0, 3)), "{weekDay2}", Substr(name, 0, 2)))
  {
    var name := Days[w];
    TitleTokens();
    var p1 := Fill(pieces, "{dayInMonthPadded}", dayInMonth);
    ReplaceAllFills(pieces, "{dayInMonthPadded}", dayInMonth);
    FillKeepsTemplate(pieces, "{dayInMonthPadded}", dayInMonth);
    var p2 := Fill(p1, "{weekDay}", name);
    ReplaceAllFills(p1, "{weekDay}", name);
    FillKeepsTemplate(p1, "{weekDay}", name);
    var three := Substr(name, 0, 3);
    assert '{' !in three by {
      forall i | 0 <= i < |three| ensures three[i] != '{' {
        assert three[i] == name[i];
      }
    }
    ReplaceAllFills(p2, "{weekDay3}", three);
    FillKeepsTemplate(p2, "{weekDay3}", three);
    ReplaceAllFills(Fill(p2, "{weekDay3}", three), "{weekDay2}", Substr(name, 0, 2));
  }

  // ---------------------------------------------------------------------
  // The levels, as functions of the store

  /** `getNoteStartingWith(parentNoteId, prefix)`: a live, unprotected note
      that a live branch places under the parent and whose title starts with
      the prefix. */
  function NoteStartingWith(s: Store, parentId: NoteId, prefix: string): (r: Option<Note>)
    ensures r.Some? ==>
      && !r.value.isDeleted && !r.value.isProtected && StartsWith(r.value.title, prefix)
      && exists i :: 0 <= i < |s.branches| && s.branches[i].parentNoteId == parentId && !s.branches[i].isDeleted
                     && s.branches[i].noteId in s.notes && s.notes[s.branches[i].noteId] == r.value
    ensures r.None? <==> forall i :: 0 <= i < |s.branches| ==> !ChildMatches(s, s.branches[i], parentId, prefix)
  {
    FindChild(s, s.branches, parentId, prefix)
  }

  /** The title-prefix fallback and the creation fallback of one level. */
  function ChildOrNew(s: Store, parentId: NoteId, prefix: string, title: string): Resolved {
    match NoteStartingWith(s, parentId, prefix)
    case Some(child) => Resolved(s, child)
    case None => CreateNote(s, parentId, title)
  }

  /** The labels a level attaches to a note it did not find by label. */
  function Labelled(found: Resolved, labelName: string, labelValue: string, sorted: bool): Resolved {
    var id := found.note.noteId;
    var withKey := AddLabel(found.store, id, labelName, labelValue);
    Resolved(if sorted then AddLabel(withKey, id, SortedLabel, "") else withKey, found.note)
  }

  /** `getRootCalendarNote()`. */
  function RootCalendar(s: Store): Resolved {
    match NoteWithLabel(s, CalendarRootLabel, None)
    case Some(rootNote) => Resolved(s, rootNote)
    case None => Labelled(CreateNote(s, RootNoteId, CalendarTitle), CalendarRootLabel, "", true)
  }

  /** The root note a level works under: the one passed, else the calendar root. */
  function CalendarRootFor(s: Store, rootNote: Option<Note>): Resolved {
    if rootNote.Some? then Resolved(s, rootNote.value) else RootCalendar(s)
  }

  /** `getYearNote(dateStr, rootNote)`; `None` is an absent root note. */
  function YearNote(s: Store, dateStr: string, rootNote: Option<Note>): Resolved {
    var root := CalendarRootFor(s, rootNote);
    var yearStr := Substr(dateStr, 0, 4);
    match NoteWithLabel(root.store, YearLabel, Some(yearStr))
    case Some(yearNote) => Resolved(root.store, yearNote)
    case None => Labelled(ChildOrNew(root.store, root.note.noteId, yearStr, yearStr), YearLabel, yearStr, true)
  }

  /** `getMonthNote(dateStr, rootNote)` as written: the title of a new month
      note is read from `rootNote`, so without a root note creating one
      throws (after the year note has been resolved). */
  function MonthNote(s: Store, dateStr: string, du: DateUtils, rootNote: Option<Note>): Attempt {
    match NoteWithLabel(s, MonthLabel, Some(Substr(dateStr, 0, 7)))
    case Some(monthNote) => Attempt(s, Success(monthNote))
    case None => MonthUnder(YearNote(s, dateStr, rootNote), dateStr, du, rootNote)
  }

  /** The month level of `getMonthNote`, once the year note is known. */
  function MonthUnder(year: Resolved, dateStr: string, du: DateUtils, rootNote: Option<Note>): Attempt {
    var monthStr := Substr(dateStr, 0, 7);
    var monthNumber := Substr(dateStr, 5, 2);
    match NoteStartingWith(year.store, year.note.noteId, monthNumber)
    case Some(child) =>
      var monthNote := Labelled(Resolved(year.store, child), MonthLabel, monthStr, true);
      Attempt(monthNote.store, Success(monthNote.note))
    case None =>
      match rootNote
      case None => Attempt(year.store, Failure(RootNoteMissing))
      case Some(root) =>
        var pattern := PatternOf(year.store, root, "monthPattern", DefaultMonthPattern);
        var title := MonthNoteTitle(pattern, monthNumber, du.parseLocalDate(dateStr).month);
        var monthNote := Labelled(CreateNote(year.store, year.note.noteId, title), MonthLabel, monthStr, true);
        Attempt(monthNote.store, Success(monthNote.note))
  }

  /** `getMonthNote` as evidently intended: an absent root note is resolved
      with `getRootCalendarNote()` before the year note is, so that the
      month title can be read from it. */
  function MonthNoteResolvingRoot(s: Store, dateStr: string, du: DateUtils, rootNote: Option<Note>): Attempt {
    match NoteWithLabel(s, MonthLabel, Some(Substr(dateStr, 0, 7)))
    case Some(monthNote) => Attempt(s, Success(monthNote))
    case None =>
      var root := CalendarRootFor(s, rootNote);
      MonthNote(root.store, dateStr, du, Some(root.note))
  }

  /** `getDateNote(dateStr)`. The label is looked up with the whole string
      but attached with its first ten characters. */
  function DateNote(s: Store, dateStr: string, du: DateUtils): Attempt {
    DateNoteUnder(RootCalendar(s), dateStr, du)
  }

  /** `getDateNote` once the calendar root note is resolved. */
  function DateNoteUnder(root: Resolved, dateStr: string, du: DateUtils): Attempt {
    match NoteWithLabel(root.store, DateLabel, Some(dateStr))
    case Some(dateNote) => Attempt(root.store, Success(dateNote))
    case None =>
      var month := MonthNoteResolvingRoot(root.store, dateStr, du, Some(root.note));
      match month.result
      case Failure(_) => month
      case Success(monthNote) =>
        var dateNote := DayUnder(month.store, root.note, monthNote, dateStr, du);
        Attempt(dateNote.store, Success(dateNote.note))
  }

  /** The day level of `getDateNote`, once the month note is known. */
  function DayUnder(s: Store, rootNote: Note, monthNote: Note, dateStr: string, du: DateUtils): Resolved {
    var dayInMonth := Substr(dateStr, 8, 2);
    var pattern := PatternOf(s, rootNote, "datePattern", DefaultDatePattern);
    var title := DateNoteTitle(pattern, dayInMonth, WeekDay(du.parseLocalDate(dateStr).epochDay));
    Labelled(ChildOrNew(s, monthNote.noteId, dayInMonth, title), DateLabel, Substr(dateStr, 0, 10), false)
  }

  /** `getStartOfTheWeek(date, startOfTheWeek)` on day numbers: the Monday
      (or Sunday) that begins the week holding `day`; any other convention
      throws. */
  function StartOfTheWeek(day: int, startOfTheWeek: string): (r: Result<int, string>)
    ensures r.Success? <==> startOfTheWeek == "monday" || startOfTheWeek == "sunday"
    ensures startOfTheWeek == "monday" ==> WeekDay(r.value) == 1 && r.value <= day <= r.value + 6
    ensures startOfTheWeek == "monday" && WeekDay(day) == 0 ==> r.value == day - 6
    ensures startOfTheWeek == "sunday" ==> WeekDay(r.value) == 0 && r.value <= day <= r.value + 6
    ensures r.Failure? ==> r.error == "Unrecognized start of the week " + startOfTheWeek
  {
    var weekDay := WeekDay(day);
    assert day == 7 * (day / 7) + weekDay;
    if startOfTheWeek == "monday" then
      Success(day - weekDay + (if weekDay == 0 then -6 else 1))
    else if startOfTheWeek == "sunday" then
      Success(day - weekDay)
    else
      Failure("Unrecognized start of the week " + startOfTheWeek)
  }

  /** `options.startOfTheWeek || "monday"`. */
  function WeekConvention(startOfTheWeek: Option<string>): string {
    if startOfTheWeek.Some? && startOfTheWeek.value != "" then startOfTheWeek.value else "monday"
  }

  /** `getWeekNote(dateStr, options)`: the day note of the first day of the week. */
  function WeekNote(s: Store, dateStr: string, du: DateUtils, startOfTheWeek: Option<string>): Attempt {
    match StartOfTheWeek(du.parseLocalDate(dateStr).epochDay, WeekConvention(startOfTheWeek))
    case Failure(e) => Attempt(s, Failure(e))
    case Success(start) => DateNote(s, du.utcDateStr(start), du)
  }

  // ---------------------------------------------------------------------
  // What the levels leave in the store

  /** The prefix-match fallback returns a note the store holds. */
  lemma NoteStartingWithHolds(s: Store, parentId: NoteId, prefix: string)
    requires Valid(s) && NoteStartingWith(s, parentId, prefix).Some?
    ensures Holds(s, NoteStartingWith(s, parentId, prefix).value)
  {
    var note := NoteStartingWith(s, parentId, prefix).value;
    var i :| 0 <= i < |s.branches| && s.branches[i].noteId in s.notes && s.notes[s.branches[i].noteId] == note;
    assert s.notes[s.branches[i].noteId].noteId == s.branches[i].noteId;
  }

  /** A level's fallback either reuses the matching child, touching nothing,
      or creates exactly one note under the parent. */
  lemma ChildOrNewSpec(s: Store, parentId: NoteId, prefix: string, title: string)
    requires Valid(s)
    ensures var r := ChildOrNew(s, parentId, prefix, title);
      && Valid(r.store) && Extends(s, r.store) && Holds(r.store, r.note) && r.store.labels == s.labels
      && r.store.nextId <= s.nextId + 1
      && (NoteStartingWith(s, parentId, prefix).Some? ==> r == Resolved(s, NoteStartingWith(s, parentId, prefix).value))
      && (NoteStartingWith(s, parentId, prefix).None? ==>
            && r.note == Note(s.nextId, title, false, false)
            && r.store.branches == s.branches + [Branch(s.nextId, parentId, false)])
  {
    if NoteStartingWith(s, parentId, prefix).Some? {
      NoteStartingWithHolds(s, parentId, prefix);
    } else {
      CreateNoteExtends(s, parentId, title);
    }
  }

  /** Labelling a note makes the label lookup find it, and adds only the
      level's own label (and `sorted`). */
  lemma LabelledSpec(found: Resolved, labelName: string, labelValue: string, sorted: bool)
    requires Valid(found.store) && Holds(found.store, found.note)
    requires NoteWithLabel(found.store, labelName, Some(labelValue)).None?
    ensures var r := Labelled(found, labelName, labelValue, sorted);
      && Valid(r.store) && Extends(found.store, r.store) && r.note == found.note && Holds(r.store, r.note)
      && r.store.notes == found.store.notes && r.store.branches == found.store.branches
      && r.store.nextId == found.store.nextId
      && r.store.labels == found.store.labels + [Label(found.note.noteId, labelName, labelValue)]
                           + (if sorted then [Label(found.note.noteId, SortedLabel, "")] else [])
      && NewLabelsNamed(found.store, r.store, {labelName, SortedLabel})
      && NoteWithLabel(r.store, labelName, Some(labelValue)) == Some(found.note)
  {
    var s := found.store;
    var id := found.note.noteId;
    var withKey := AddLabel(s, id, labelName, labelValue);
    AddLabelExtends(s, id, labelName, labelValue);
    NoteWithLabelAfterAdd(s, id, labelName, labelValue, Some(labelValue));
    if sorted {
      var t := AddLabel(withKey, id, SortedLabel, "");
      AddLabelExtends(withKey, id, SortedLabel, "");
      NoteWithLabelExtended(withKey, t, labelName, Some(labelValue));
      ExtendsTransitive(s, withKey, t);
    }
    var r := Labelled(found, labelName, labelValue, sorted);
    forall i | |s.labels| <= i < |r.store.labels|
      ensures r.store.labels[i].name in {labelName, SortedLabel}
    {
      if i == |s.labels| {
        assert r.store.labels[i] == Label(id, labelName, labelValue);
      } else {
        assert r.store.labels[i] == Label(id, SortedLabel, "");
      }
    }
  }

  /** The calendar's label names are distinct; the sets of names the
      levels add, accumulated from the calendar root down. */
  lemma CalendarLabelNames()
    ensures YearLabel !in {CalendarRootLabel, SortedLabel}
    ensures MonthLabel !in {CalendarRootLabel, SortedLabel}
    ensures MonthLabel !in {CalendarRootLabel, SortedLabel, YearLabel}
    ensures DateLabel !in {CalendarRootLabel, SortedLabel, YearLabel, MonthLabel}
    ensures {CalendarRootLabel, SortedLabel} + {YearLabel, SortedLabel} == {CalendarRootLabel, SortedLabel, YearLabel}
    ensures {CalendarRootLabel, SortedLabel, YearLabel} + {MonthLabel, SortedLabel}
         == {CalendarRootLabel, SortedLabel, YearLabel, MonthLabel}
    ensures {CalendarRootLabel, SortedLabel, YearLabel, MonthLabel} + {DateLabel}
         == {CalendarRootLabel, SortedLabel, YearLabel, MonthLabel, DateLabel}
    ensures {CalendarRootLabel, SortedLabel} + {CalendarRootLabel, SortedLabel, YearLabel, MonthLabel}
         == {CalendarRootLabel, SortedLabel, YearLabel, MonthLabel}
    ensures {CalendarRootLabel, SortedLabel} + {CalendarRootLabel, SortedLabel, YearLabel, MonthLabel, DateLabel}
         == {CalendarRootLabel, SortedLabel, YearLabel, MonthLabel, DateLabel}
  {
  }

  /** Where a level not found by its label leaves its note `r`: the live
      child of `parent` whose title starts with `prefix`, touching no note
      or branch, or else a new live note under `parent`; either way placed
      under `parent` by a live branch and given the level's label (and
      `sorted`), and no other label. */
  ghost predicate PlacedLevel(parent: Resolved, prefix: string, labelName: string, labelValue: string, sorted: bool, r: Resolved) {
    var s := parent.store;
    var child := NoteStartingWith(s, parent.note.noteId, prefix);
    && PlacedUnder(r.store, r.note.noteId, parent.note.noteId)
    && r.store.labels == s.labels + [Label(r.note.noteId, labelName, labelValue)]
                         + (if sorted then [Label(r.note.noteId, SortedLabel, "")] else [])
    && (child.Some? ==> r.note == child.value && r.store.notes == s.notes && r.store.branches == s.branches)
    && (child.None? ==>
          && r.note == Note(s.nextId, r.note.title, false, false)
          && r.store.branches == s.branches + [Branch(s.nextId, parent.note.noteId, false)])
  }

  /** A level not found by its label: the child found by title prefix, or
      a new note, labelled so that the label lookup finds it. */
  lemma LevelSpec(s: Store, parentId: NoteId, prefix: string, title: string, labelName: string, labelValue: string)
    requires Valid(s) && NoteWithLabel(s, labelName, Some(labelValue)).None?
    ensures var r := Labelled(ChildOrNew(s, parentId, prefix, title), labelName, labelValue, true);
      && Valid(r.store) && Extends(s, r.store) && Holds(r.store, r.note)
      && r.store.nextId <= s.nextId + 1
      && NewLabelsNamed(s, r.store, {labelName, SortedLabel})
      && NoteWithLabel(r.store, labelName, Some(labelValue)) == Some(r.note)
      && PlacedUnder(r.store, r.note.noteId, parentId)
      && r.store.labels == s.labels + [Label(r.note.noteId, labelName, labelValue)] + [Label(r.note.noteId, SortedLabel, "")]
      && (NoteStartingWith(s, parentId, prefix).Some? ==>
            && r.note == NoteStartingWith(s, parentId, prefix).value
            && r.store.notes == s.notes && r.store.branches == s.branches && r.store.nextId == s.nextId)
      && (NoteStartingWith(s, parentId, prefix).None? ==>
            && r.note == Note(s.nextId, title, false, false) && r.store.nextId == s.nextId + 1
            && r.store.branches == s.branches + [Branch(s.nextId, parentId, false)])
  {
    var found := ChildOrNew(s, parentId, prefix, title);
    ChildOrNewSpec(s, parentId, prefix, title);
    ChildOrNewPlaced(s, parentId, prefix, title);
    NoteWithLabelExtended(s, found.store, labelName, Some(labelValue));
    LabelledSpec(found, labelName, labelValue, true);
    ExtendsTransitive(s, found.store, Labelled(found, labelName, labelValue, true).store);
  }

  /** The note a level's fallback yields sits under the parent: the child
      by its own branch, a new note by the branch created with it. */
  lemma ChildOrNewPlaced(s: Store, parentId: NoteId, prefix: string, title: string)
    requires Valid(s)
    ensures var r := ChildOrNew(s, parentId, prefix, title);
      PlacedUnder(r.store, r.note.noteId, parentId)
  {
    var r := ChildOrNew(s, parentId, prefix, title);
    if NoteStartingWith(s, parentId, prefix).Some? {
      var child := NoteStartingWith(s, parentId, prefix).value;
      var i :| 0 <= i < |s.branches| && s.branches[i].parentNoteId == parentId && !s.branches[i].isDeleted
               && s.branches[i].noteId in s.notes && s.notes[s.branches[i].noteId] == child;
      assert s.notes[s.branches[i].noteId].noteId == s.branches[i].noteId;
      assert r.store.branches[i] == Branch(r.note.noteId, parentId, false);
    } else {
      assert r.store.branches[|s.branches|] == Branch(r.note.noteId, parentId, false);
    }
  }

  /** `getRootCalendarNote`: the calendar root is the note labelled
      `calendarRoot`; if there is none, one note titled 日历 is created under
      the tree root and labelled `calendarRoot` and `sorted`. */
  lemma RootCalendarSpec(s: Store)
    requires Valid(s)
    ensures var r := RootCalendar(s);
      && Valid(r.store) && Extends(s, r.store) && Holds(r.store, r.note)
      && NewLabelsNamed(s, r.store, {CalendarRootLabel, SortedLabel})
      && NoteWithLabel(r.store, CalendarRootLabel, None) == Some(r.note)
      && (NoteWithLabel(s, CalendarRootLabel, None).Some? ==> r.store == s)
      && (NoteWithLabel(s, CalendarRootLabel, None).None? ==>
            && r.note == Note(s.nextId, CalendarTitle, false, false)
            && r.store.nextId == s.nextId + 1
            && r.store.branches == s.branches + [Branch(s.nextId, RootNoteId, false)]
            && r.store.labels == s.labels + [Label(s.nextId, CalendarRootLabel, "")] + [Label(s.nextId, SortedLabel, "")])
  {
    if NoteWithLabel(s, CalendarRootLabel, None).Some? {
      NoteWithLabelHolds(s, CalendarRootLabel, None);
    } else {
      NewCalendarRoot(s);
    }
  }

  /** The creating branch of `RootCalendarSpec`. */
  lemma NewCalendarRoot(s: Store)
    requires Valid(s) && NoteWithLabel(s, CalendarRootLabel, None).None?
    ensures var r := RootCalendar(s);
      && Valid(r.store) && Extends(s, r.store) && Holds(r.store, r.note)
      && NewLabelsNamed(s, r.store, {CalendarRootLabel, SortedLabel})
      && NoteWithLabel(r.store, CalendarRootLabel, None) == Some(r.note)
      && r.note == Note(s.nextId, CalendarTitle, false, false)
      && r.store.nextId == s.nextId + 1
      && r.store.branches == s.branches + [Branch(s.nextId, RootNoteId, false)]
      && r.store.labels == s.labels + [Label(s.nextId, CalendarRootLabel, "")] + [Label(s.nextId, SortedLabel, "")]
  {
    var created := CreateNote(s, RootNoteId, CalendarTitle);
    var id := created.note.noteId;
    assert RootCalendar(s) == Labelled(created, CalendarRootLabel, "", true);
    CreateNoteExtends(s, RootNoteId, CalendarTitle);
    NoteWithLabelExtended(s, created.store, CalendarRootLabel, None);
    assert created.store.labels[|s.labels|..] == [];
    LabelledSpec(created, CalendarRootLabel, "", true);
    ExtendsTransitive(s, created.store, RootCalendar(s).store);
    var withKey := AddLabel(created.store, id, CalendarRootLabel, "");
    NoteWithLabelAfterAdd(created.store, id, CalendarRootLabel, "", None);
    AddLabelExtends(created.store, id, CalendarRootLabel, "");
    NoteWithLabelExtended(withKey, RootCalendar(s).store, CalendarRootLabel, None);
  }

  /** Resolving the calendar root twice resolves the same note and changes
      nothing the second time. */
  lemma RootCalendarIdempotent(s: Store)
    requires Valid(s)
    ensures RootCalendar(RootCalendar(s).store) == RootCalendar(s)
  {
    RootCalendarSpec(s);
  }

  /** `getYearNote`: the year note carries the label `yearNote` with the
      first four characters of the date; at most the calendar root and the
      year note are created; only the three calendar labels are added, and
      the calendar root keeps its label. */
  lemma YearNoteSpec(s: Store, dateStr: string, rootNote: Option<Note>)
    requires Valid(s)
    ensures var r := YearNote(s, dateStr, rootNote);
      && Valid(r.store) && Extends(s, r.store) && Holds(r.store, r.note)
      && NoteWithLabel(r.store, YearLabel, Some(Substr(dateStr, 0, 4))) == Some(r.note)
      && r.store.nextId <= s.nextId + (if rootNote.Some? then 1 else 2)
      && NewLabelsNamed(s, r.store, {CalendarRootLabel, SortedLabel, YearLabel})
      && (rootNote.None? ==> NoteWithLabel(r.store, CalendarRootLabel, None) == Some(RootCalendar(s).note))
      && (NoteWithLabel(s, YearLabel, Some(Substr(dateStr, 0, 4))).Some? && rootNote.Some? ==> r.store == s)
  {
    var root := CalendarRootFor(s, rootNote);
    var yearStr := Substr(dateStr, 0, 4);
    if rootNote.None? {
      RootCalendarSpec(s);
    }
    var r := YearNote(s, dateStr, rootNote);
    if NoteWithLabel(root.store, YearLabel, Some(yearStr)).Some? {
      NoteWithLabelHolds(root.store, YearLabel, Some(yearStr));
    } else {
      LevelSpec(root.store, root.note.noteId, yearStr, yearStr, YearLabel, yearStr);
      ExtendsTransitive(s, root.store, r.store);
      NewLabelsNamedTransitive(s, root.store, r.store, {CalendarRootLabel, SortedLabel}, {YearLabel, SortedLabel});
      CalendarLabelNames();
      if rootNote.None? {
        NoteWithLabelExtended(root.store, r.store, CalendarRootLabel, None);
      }
    }
  }

  /** A year note not found by its label is the root note's child whose
      title starts with the year, or a new note titled with the year under
      the root note, labelled `yearNote` and `sorted`. */
  lemma YearNotePlacement(s: Store, dateStr: string, rootNote: Option<Note>)
    requires Valid(s)
    ensures var root := CalendarRootFor(s, rootNote);
      var yearStr := Substr(dateStr, 0, 4);
      var r := YearNote(s, dateStr, rootNote);
      NoteWithLabel(root.store, YearLabel, Some(yearStr)).None? ==>
        && PlacedLevel(root, yearStr, YearLabel, yearStr, true, r)
        && (NoteStartingWith(root.store, root.note.noteId, yearStr).None? ==> r.note.title == yearStr)
  {
    var root := CalendarRootFor(s, rootNote);
    var yearStr := Substr(dateStr, 0, 4);
    if rootNote.None? {
      RootCalendarSpec(s);
    }
    if NoteWithLabel(root.store, YearLabel, Some(yearStr)).None? {
      LevelSpec(root.store, root.note.noteId, yearStr, yearStr, YearLabel, yearStr);
    }
  }

  /** Asking again for a date of the same year returns the same year note
      and changes nothing. */
  lemma YearNoteIdempotent(s: Store, dateStr: string, otherDateStr: string, rootNote: Option<Note>)
    requires Valid(s) && Substr(otherDateStr, 0, 4) == Substr(dateStr, 0, 4)
    ensures var r := YearNote(s, dateStr, rootNote);
      YearNote(r.store, otherDateStr, rootNote) == r
  {
    var r := YearNote(s, dateStr, rootNote);
    YearNoteSpec(s, dateStr, rootNote);
    if rootNote.None? {
      assert RootCalendar(r.store) == Resolved(r.store, RootCalendar(s).note);
    }
  }

  /** A year note found by title prefix is reused: no note is created. */
  lemma YearNoteReusesChild(s: Store, dateStr: string, rootNote: Note)
    requires Valid(s) && NoteWithLabel(s, YearLabel, Some(Substr(dateStr, 0, 4))).None?
    requires NoteStartingWith(s, rootNote.noteId, Substr(dateStr, 0, 4)).Some?
    ensures var r := YearNote(s, dateStr, Some(rootNote));
      && r.note == NoteStartingWith(s, rootNote.noteId, Substr(dateStr, 0, 4)).value
      && r.store.notes == s.notes && r.store.branches == s.branches && r.store.nextId == s.nextId
      && r.store.labels == s.labels + [Label(r.note.noteId, YearLabel, Substr(dateStr, 0, 4)), Label(r.note.noteId, SortedLabel, "")]
  {
    var yearStr := Substr(dateStr, 0, 4);
    ChildOrNewSpec(s, rootNote.noteId, yearStr, yearStr);
    LabelledSpec(ChildOrNew(s, rootNote.noteId, yearStr, yearStr), YearLabel, yearStr, true);
  }

  /** `getMonthNote`: a month note found by its `monthNote` label is
      returned with the store untouched; otherwise the year note is
      resolved and the month note is reused or created under it and
      labelled. With a root note it always succeeds; without one it fails
      exactly when the month note would have to be created. */
  lemma MonthNoteSpec(s: Store, dateStr: string, du: DateUtils, rootNote: Option<Note>)
    requires Valid(s)
    ensures var r := MonthNote(s, dateStr, du, rootNote);
      && Valid(r.store) && Extends(s, r.store)
      && r.store.nextId <= s.nextId + 2
      && NewLabelsNamed(s, r.store, {CalendarRootLabel, SortedLabel, YearLabel, MonthLabel})
      && (rootNote.Some? ==> r.result.Success?)
      && (r.result.Success? ==>
            && Holds(r.store, r.result.value)
            && NoteWithLabel(r.store, MonthLabel, Some(Substr(dateStr, 0, 7))) == Some(r.result.value))
      && (NoteWithLabel(s, MonthLabel, Some(Substr(dateStr, 0, 7))).Some? ==> r.store == s)
      && (r.result.Failure? ==>
            && rootNote.None? && r.result.error == RootNoteMissing
            && r.store == YearNote(s, dateStr, None).store)
  {
    var monthStr := Substr(dateStr, 0, 7);
    if NoteWithLabel(s, MonthLabel, Some(monthStr)).Some? {
      NoteWithLabelHolds(s, MonthLabel, Some(monthStr));
    } else {
      var y := YearNote(s, dateStr, rootNote);
      YearNoteSpec(s, dateStr, rootNote);
      CalendarLabelNames();
      NoteWithLabelStillMissing(s, y.store, MonthLabel, Some(monthStr), {CalendarRootLabel, SortedLabel, YearLabel});
      MonthUnderSpec(y, dateStr, du, rootNote);
      var r := MonthUnder(y, dateStr, du, rootNote);
      assert MonthNote(s, dateStr, du, rootNote) == r;
      ExtendsTransitive(s, y.store, r.store);
      NewLabelsNamedTransitive(s, y.store, r.store, {CalendarRootLabel, SortedLabel, YearLabel}, {MonthLabel, SortedLabel});
    }
  }

  /** A month note `getMonthNote` did not find by label sits under the year
      note, and a year note it did not find by label sits under the root
      note. */
  lemma MonthNoteChain(s: Store, dateStr: string, du: DateUtils, rootNote: Option<Note>)
    requires Valid(s) && NoteWithLabel(s, MonthLabel, Some(Substr(dateStr, 0, 7))).None?
    ensures var root := CalendarRootFor(s, rootNote);
      var y := YearNote(s, dateStr, rootNote);
      var r := MonthNote(s, dateStr, du, rootNote);
      r.result.Success? ==>
        && PlacedUnder(r.store, r.result.value.noteId, y.note.noteId)
        && (NoteWithLabel(root.store, YearLabel, Some(Substr(dateStr, 0, 4))).None? ==>
              PlacedUnder(r.store, y.note.noteId, root.note.noteId))
  {
    var y := YearNote(s, dateStr, rootNote);
    var root := CalendarRootFor(s, rootNote);
    YearNoteSpec(s, dateStr, rootNote);
    YearNotePlacement(s, dateStr, rootNote);
    CalendarLabelNames();
    NoteWithLabelStillMissing(s, y.store, MonthLabel, Some(Substr(dateStr, 0, 7)), {CalendarRootLabel, SortedLabel, YearLabel});
    MonthUnderSpec(y, dateStr, du, rootNote);
    MonthUnderPlacement(y, dateStr, du, rootNote);
    var r := MonthUnder(y, dateStr, du, rootNote);
    assert MonthNote(s, dateStr, du, rootNote) == r;
    if NoteWithLabel(root.store, YearLabel, Some(Substr(dateStr, 0, 4))).None? {
      assert PlacedUnder(y.store, y.note.noteId, root.note.noteId);
      PlacedUnderExtended(y.store, r.store, y.note.noteId, root.note.noteId);
    }
  }

  /** The month level under a resolved year note: the child found by its
      month number or a new note, labelled; without a root note only the
      creation fails, leaving the store as it was. */
  lemma MonthUnderSpec(year: Resolved, dateStr: string, du: DateUtils, rootNote: Option<Note>)
    requires Valid(year.store) && NoteWithLabel(year.store, MonthLabel, Some(Substr(dateStr, 0, 7))).None?
    ensures var r := MonthUnder(year, dateStr, du, rootNote);
      && Valid(r.store) && Extends(year.store, r.store)
      && r.store.nextId <= year.store.nextId + 1
      && NewLabelsNamed(year.store, r.store, {MonthLabel, SortedLabel})
      && (r.result.Failure? <==> rootNote.None? && NoteStartingWith(year.store, year.note.noteId, Substr(dateStr, 5, 2)).None?)
      && (r.result.Success? ==>
            && Holds(r.store, r.result.value)
            && NoteWithLabel(r.store, MonthLabel, Some(Substr(dateStr, 0, 7))) == Some(r.result.value))
      && (r.result.Failure? ==> r.result.error == RootNoteMissing && r.store == year.store)
  {
    var monthStr := Substr(dateStr, 0, 7);
    var monthNumber := Substr(dateStr, 5, 2);
    var title := if rootNote.Some?
      then MonthNoteTitle(PatternOf(year.store, rootNote.value, "monthPattern", DefaultMonthPattern),
                          monthNumber, du.parseLocalDate(dateStr).month)
      else "";
    if NoteStartingWith(year.store, year.note.noteId, monthNumber).Some? || rootNote.Some? {
      LevelSpec(year.store, year.note.noteId, monthNumber, title, MonthLabel, monthStr);
      var level := Labelled(ChildOrNew(year.store, year.note.noteId, monthNumber, title), MonthLabel, monthStr, true);
      assert MonthUnder(year, dateStr, du, rootNote) == Attempt(level.store, Success(level.note));
    }
  }

  /** A month note the month level yields is the year note's child whose
      title starts with the month number, or a new note under the year note
      titled by the month pattern read from the root note, labelled
      `monthNote` and `sorted`. */
  lemma MonthUnderPlacement(year: Resolved, dateStr: string, du: DateUtils, rootNote: Option<Note>)
    requires Valid(year.store)
    ensures var r := MonthUnder(year, dateStr, du, rootNote);
      r.result.Success? ==>
        && PlacedLevel(year, Substr(dateStr, 5, 2), MonthLabel, Substr(dateStr, 0, 7), true, Resolved(r.store, r.result.value))
        && (NoteStartingWith(year.store, year.note.noteId, Substr(dateStr, 5, 2)).None? ==>
              && rootNote.Some?
              && r.result.value.title == MonthNoteTitle(PatternOf(year.store, rootNote.value, "monthPattern", DefaultMonthPattern),
                                                        Substr(dateStr, 5, 2), du.parseLocalDate(dateStr).month))
  {
    var monthStr := Substr(dateStr, 0, 7);
    var monthNumber := Substr(dateStr, 5, 2);
    var title := if rootNote.Some?
      then MonthNoteTitle(PatternOf(year.store, rootNote.value, "monthPattern", DefaultMonthPattern),
                          monthNumber, du.parseLocalDate(dateStr).month)
      else "";
    var found := ChildOrNew(year.store, year.note.noteId, monthNumber, title);
    if NoteStartingWith(year.store, year.note.noteId, monthNumber).Some? || rootNote.Some? {
      ChildOrNewSpec(year.store, year.note.noteId, monthNumber, title);
      ChildOrNewPlaced(year.store, year.note.noteId, monthNumber, title);
      var level := Labelled(found, MonthLabel, monthStr, true);
      assert MonthUnder(year, dateStr, du, rootNote) == Attempt(level.store, Success(level.note));
    }
  }

  /** Asking again for a date of the same month returns the same month note
      and changes nothing, whatever root note is passed the second time. */
  lemma MonthNoteIdempotent(s: Store, dateStr: string, otherDateStr: string, du: DateUtils,
                            rootNote: Option<Note>, otherRootNote: Option<Note>)
    requires Valid(s) && MonthNote(s, dateStr, du, rootNote).result.Success?
    requires Substr(otherDateStr, 0, 7) == Substr(dateStr, 0, 7)
    ensures var r := MonthNote(s, dateStr, du, rootNote);
      MonthNote(r.store, otherDateStr, du, otherRootNote) == r
  {
    MonthNoteSpec(s, dateStr, du, rootNote);
  }

  /** A database holding only the tree root. */
  const OnlyRoot := Store(map[RootNoteId := Note(RootNoteId, "root", false, false)], [], [], 1)

  /** On that database the calendar root is created as note 1. */
  lemma OnlyRootCalendar()
    ensures var root := RootCalendar(OnlyRoot);
      && Valid(root.store) && Extends(OnlyRoot, root.store)
      && NewLabelsNamed(OnlyRoot, root.store, {CalendarRootLabel, SortedLabel})
      && root.note.noteId == 1 && root.store.nextId == 2
      && root.store.branches == [Branch(1, RootNoteId, false)]
  {
    assert NoteWithLabel(OnlyRoot, CalendarRootLabel, None).None?;
    RootCalendarSpec(OnlyRoot);
  }

  /** On that database, `getYearNote("2024-03-15")` creates the calendar
      root as note 1 and the year note as note 2 under it. */
  lemma OnlyRootYearNote()
    ensures var y := YearNote(OnlyRoot, "2024-03-15", None);
      && y == YearNote(RootCalendar(OnlyRoot).store, "2024-03-15", Some(RootCalendar(OnlyRoot).note))
      && Valid(y.store) && y.note.noteId == 2 && y.store.nextId == 3
      && y.store.branches == [Branch(1, RootNoteId, false), Branch(2, 1, false)]
      && Extends(OnlyRoot, y.store)
      && NewLabelsNamed(OnlyRoot, y.store, {CalendarRootLabel, SortedLabel, YearLabel})
  {
    var root := RootCalendar(OnlyRoot);
    OnlyRootCalendar();
    CalendarLabelNames();
    assert Substr("2024-03-15", 0, 4) == "2024";
    assert NoteWithLabel(OnlyRoot, YearLabel, Some("2024")).None?;
    NoteWithLabelStillMissing(OnlyRoot, root.store, YearLabel, Some("2024"), {CalendarRootLabel, SortedLabel});
    var y := YearNote(OnlyRoot, "2024-03-15", None);
    assert y == Labelled(ChildOrNew(root.store, 1, "2024", "2024"), YearLabel, "2024", true);
    assert !ChildMatches(root.store, root.store.branches[0], 1, "2024");
    LevelSpec(root.store, 1, "2024", "2024", YearLabel, "2024");
    ExtendsTransitive(OnlyRoot, root.store, y.store);
    NewLabelsNamedTransitive(OnlyRoot, root.store, y.store, {CalendarRootLabel, SortedLabel}, {YearLabel, SortedLabel});
  }

  /** ... and the new year note has no children yet. */
  lemma OnlyRootYearIsEmpty(prefix: string)
    ensures NoteStartingWith(YearNote(OnlyRoot, "2024-03-15", None).store, 2, prefix).None?
  {
    OnlyRootYearNote();
    var y := YearNote(OnlyRoot, "2024-03-15", None);
    assert !ChildMatches(y.store, y.store.branches[0], 2, prefix);
    assert !ChildMatches(y.store, y.store.branches[1], 2, prefix);
  }

  /** The call `getMonthNote("2024-03-15")` with no root note on that
      database: the calendar root and the year note are created, then the
      month title is read from the absent root note and the call throws. */
  lemma MonthNoteWithoutRootThrows(du: DateUtils)
    ensures var r := MonthNote(OnlyRoot, "2024-03-15", du, None);
      && r.result == Failure(RootNoteMissing)
      && r.store.nextId == 3
  {
    OnlyRootYearNote();
    var y := YearNote(OnlyRoot, "2024-03-15", None);
    assert Substr("2024-03-15", 0, 7) == "2024-03";
    assert NoteWithLabel(OnlyRoot, MonthLabel, Some("2024-03")).None?;
    OnlyRootYearIsEmpty(Substr("2024-03-15", 5, 2));
    assert MonthNote(OnlyRoot, "2024-03-15", du, None) == MonthUnder(y, "2024-03-15", du, None);
  }

  /** The corrected `getMonthNote` always succeeds and labels the month
      note; with a root note it is the function as written. */
  lemma MonthNoteResolvingRootSpec(s: Store, dateStr: string, du: DateUtils, rootNote: Option<Note>)
    requires Valid(s)
    ensures var r := MonthNoteResolvingRoot(s, dateStr, du, rootNote);
      && r.result.Success?
      && Valid(r.store) && Extends(s, r.store) && Holds(r.store, r.result.value)
      && NoteWithLabel(r.store, MonthLabel, Some(Substr(dateStr, 0, 7))) == Some(r.result.value)
      && r.store.nextId <= s.nextId + (if rootNote.Some? then 2 else 3)
      && NewLabelsNamed(s, r.store, {CalendarRootLabel, SortedLabel, YearLabel, MonthLabel})
  {
    if NoteWithLabel(s, MonthLabel, Some(Substr(dateStr, 0, 7))).Some? {
      NoteWithLabelHolds(s, MonthLabel, Some(Substr(dateStr, 0, 7)));
    } else {
      var root := if rootNote.Some? then Resolved(s, rootNote.value) else RootCalendar(s);
      if rootNote.None? {
        RootCalendarSpec(s);
      }
      MonthNoteSpec(root.store, dateStr, du, Some(root.note));
      var r := MonthNote(root.store, dateStr, du, Some(root.note));
      ExtendsTransitive(s, root.store, r.store);
      NewLabelsNamedTransitive(s, root.store, r.store, {CalendarRootLabel, SortedLabel},
                               {CalendarRootLabel, SortedLabel, YearLabel, MonthLabel});
      CalendarLabelNames();
    }
  }

  /** The corrected `getMonthNote`: a month note not found by label sits
      under the year note, a year note not found by label under the root
      note, and a calendar root it had to create under the tree root. */
  lemma MonthNoteResolvingRootChain(s: Store, dateStr: string, du: DateUtils, rootNote: Option<Note>)
    requires Valid(s) && NoteWithLabel(s, MonthLabel, Some(Substr(dateStr, 0, 7))).None?
    ensures var root := CalendarRootFor(s, rootNote);
      var y := YearNote(root.store, dateStr, Some(root.note));
      var r := MonthNoteResolvingRoot(s, dateStr, du, rootNote);
      && r.result.Success?
      && PlacedUnder(r.store, r.result.value.noteId, y.note.noteId)
      && (NoteWithLabel(root.store, YearLabel, Some(Substr(dateStr, 0, 4))).None? ==>
            PlacedUnder(r.store, y.note.noteId, root.note.noteId))
      && (rootNote.None? && NoteWithLabel(s, CalendarRootLabel, None).None? ==>
            PlacedUnder(r.store, root.note.noteId, RootNoteId))
  {
    var root := CalendarRootFor(s, rootNote);
    if rootNote.None? {
      RootCalendarSpec(s);
      CalendarLabelNames();
      NoteWithLabelStillMissing(s, root.store, MonthLabel, Some(Substr(dateStr, 0, 7)), {CalendarRootLabel, SortedLabel});
    }
    MonthNoteSpec(root.store, dateStr, du, Some(root.note));
    MonthNoteChain(root.store, dateStr, du, Some(root.note));
    var r := MonthNote(root.store, dateStr, du, Some(root.note));
    if rootNote.None? && NoteWithLabel(s, CalendarRootLabel, None).None? {
      assert root.store.branches[|s.branches|] == Branch(root.note.noteId, RootNoteId, false);
      PlacedUnderExtended(root.store, r.store, root.note.noteId, RootNoteId);
    }
  }

  /** In the scenario where the as-written call throws, the corrected one
      creates the month note as note 3 under the year note, titled by the
      default pattern, and labels it `monthNote` with `2024-03`. */
  lemma MonthNoteResolvingRootCreates(du: DateUtils)
    ensures var month: MonthIndex := du.parseLocalDate("2024-03-15").month;
      var r := MonthNoteResolvingRoot(OnlyRoot, "2024-03-15", du, None);
      && r.result == Success(Note(3, "03" + " - " + Months[month], false, false))
      && r.store.nextId == 4
      && r.store.branches == [Branch(1, RootNoteId, false), Branch(2, 1, false), Branch(3, 2, false)]
      && NoteWithLabel(r.store, MonthLabel, Some("2024-03")) == Some(r.result.value)
  {
    OnlyRootYearNote();
    OnlyRootCalendar();
    var root := RootCalendar(OnlyRoot);
    var y := YearNote(OnlyRoot, "2024-03-15", None);
    assert Substr("2024-03-15", 0, 7) == "2024-03";
    assert NoteWithLabel(OnlyRoot, MonthLabel, Some("2024-03")).None?;
    CalendarLabelNames();
    NoteWithLabelStillMissing(OnlyRoot, root.store, MonthLabel, Some("2024-03"), {CalendarRootLabel, SortedLabel});
    OnlyRootYearIsEmpty(Substr("2024-03-15", 5, 2));
    assert MonthNoteResolvingRoot(OnlyRoot, "2024-03-15", du, None) == MonthUnder(y, "2024-03-15", du, Some(root.note));
    OnlyRootMonthUnder(du);
  }

  /** The month level of that scenario, under the new year note. */
  lemma OnlyRootMonthUnder(du: DateUtils)
    ensures var month: MonthIndex := du.parseLocalDate("2024-03-15").month;
      var y := YearNote(OnlyRoot, "2024-03-15", None);
      var r := MonthUnder(y, "2024-03-15", du, Some(RootCalendar(OnlyRoot).note));
      && r.result == Success(Note(3, "03" + " - " + Months[month], false, false))
      && r.store.nextId == 4
      && r.store.branches == [Branch(1, RootNoteId, false), Branch(2, 1, false), Branch(3, 2, false)]
      && NoteWithLabel(r.store, MonthLabel, Some("2024-03")) == Some(r.result.value)
  {
    var root := RootCalendar(OnlyRoot);
    var y := YearNote(OnlyRoot, "2024-03-15", None);
    OnlyRootYearReady();
    DefaultMonthTitle("03", du.parseLocalDate("2024-03-15").month);
    MonthUnderSpec(y, "2024-03-15", du, Some(root.note));
    MonthUnderPlacement(y, "2024-03-15", du, Some(root.note));
  }

  /** What the month level of that scenario finds in the year note's store:
      no month label, no child, no month pattern. */
  lemma OnlyRootYearReady()
    ensures var y := YearNote(OnlyRoot, "2024-03-15", None);
      && Valid(y.store) && y.note.noteId == 2 && y.store.nextId == 3
      && y.store.branches == [Branch(1, RootNoteId, false), Branch(2, 1, false)]
      && Substr("2024-03-15", 0, 7) == "2024-03" && Substr("2024-03-15", 5, 2) == "03"
      && NoteWithLabel(y.store, MonthLabel, Some("2024-03")).None?
      && NoteStartingWith(y.store, 2, "03").None?
      && PatternOf(y.store, RootCalendar(OnlyRoot).note, "monthPattern", DefaultMonthPattern) == DefaultMonthPattern
  {
    OnlyRootYearNote();
    OnlyRootCalendar();
    var y := YearNote(OnlyRoot, "2024-03-15", None);
    assert Substr("2024-03-15", 0, 7) == "2024-03";
    assert Substr("2024-03-15", 5, 2) == "03";
    CalendarLabelNames();
    assert NoteWithLabel(OnlyRoot, MonthLabel, Some("2024-03")).None?;
    NoteWithLabelStillMissing(OnlyRoot, y.store, MonthLabel, Some("2024-03"), {CalendarRootLabel, SortedLabel, YearLabel});
    OnlyRootYearIsEmpty("03");
    assert "monthPattern" !in {CalendarRootLabel, SortedLabel, YearLabel};
    OnlyRootYearHasNoPattern("monthPattern");
  }

  /** ... and that year note's store has no pattern labels. */
  lemma OnlyRootYearHasNoPattern(name: string)
    requires name !in {CalendarRootLabel, SortedLabel, YearLabel}
    ensures LabelValue(YearNote(OnlyRoot, "2024-03-15", None).store.labels, 1, name).None?
  {
    OnlyRootYearNote();
    var labels := YearNote(OnlyRoot, "2024-03-15", None).store.labels;
    assert forall i :: 0 <= i < |labels| ==> labels[i].name != name;
  }

  /** The day level: the child of the month note whose title starts with
      the day of the month, or a new note under the month note titled by
      the date pattern; it gets one `dateNote` label holding the first ten
      characters of the date string, and, when that is the whole date
      string, the label lookup finds the day note. */
  lemma DayUnderSpec(s: Store, rootNote: Note, monthNote: Note, dateStr: string, du: DateUtils)
    requires Valid(s)
    requires |dateStr| <= 10 ==> NoteWithLabel(s, DateLabel, Some(dateStr)).None?
    ensures var r := DayUnder(s, rootNote, monthNote, dateStr, du);
      && Valid(r.store) && Extends(s, r.store) && Holds(r.store, r.note)
      && r.store.nextId <= s.nextId + 1
      && NewLabelsNamed(s, r.store, {DateLabel})
      && PlacedLevel(Resolved(s, monthNote), Substr(dateStr, 8, 2), DateLabel, Substr(dateStr, 0, 10), false, r)
      && (NoteStartingWith(s, monthNote.noteId, Substr(dateStr, 8, 2)).None? ==>
            r.note.title == DateNoteTitle(PatternOf(s, rootNote, "datePattern", DefaultDatePattern), Substr(dateStr, 8, 2),
                                          WeekDay(du.parseLocalDate(dateStr).epochDay)))
      && (|dateStr| <= 10 ==> NoteWithLabel(r.store, DateLabel, Some(dateStr)) == Some(r.note))
  {
    var dayInMonth := Substr(dateStr, 8, 2);
    var pattern := PatternOf(s, rootNote, "datePattern", DefaultDatePattern);
    var title := DateNoteTitle(pattern, dayInMonth, WeekDay(du.parseLocalDate(dateStr).epochDay));
    var found := ChildOrNew(s, monthNote.noteId, dayInMonth, title);
    ChildOrNewSpec(s, monthNote.noteId, dayInMonth, title);
    ChildOrNewPlaced(s, monthNote.noteId, dayInMonth, title);
    var value := Substr(dateStr, 0, 10);
    AddLabelExtends(found.store, found.note.noteId, DateLabel, value);
    ExtendsTransitive(s, found.store, AddLabel(found.store, found.note.noteId, DateLabel, value));
    if |dateStr| <= 10 {
      assert value == dateStr;
      NoteWithLabelExtended(s, found.store, DateLabel, Some(dateStr));
      NoteWithLabelAfterAdd(found.store, found.note.noteId, DateLabel, dateStr, Some(dateStr));
    }
  }

  /** Below the calendar root, `getDateNote` yields a live day note,
      creates at most three notes and adds only calendar labels. */
  lemma DateNoteUnderSpec(root: Resolved, dateStr: string, du: DateUtils)
    requires Valid(root.store)
    ensures var r := DateNoteUnder(root, dateStr, du);
      && r.result.Success?
      && Valid(r.store) && Extends(root.store, r.store) && Holds(r.store, r.result.value)
      && r.store.nextId <= root.store.nextId + 3
      && NewLabelsNamed(root.store, r.store, {CalendarRootLabel, SortedLabel, YearLabel, MonthLabel, DateLabel})
      && (|dateStr| <= 10 ==> NoteWithLabel(r.store, DateLabel, Some(dateStr)) == Some(r.result.value))
      && (NoteWithLabel(root.store, DateLabel, Some(dateStr)).None? ==> DateChain(r.store, root, dateStr, du, r.result.value))
  {
    if NoteWithLabel(root.store, DateLabel, Some(dateStr)).Some? {
      NoteWithLabelHolds(root.store, DateLabel, Some(dateStr));
    } else {
      DateNoteUnderMiss(root, dateStr, du);
      DateNoteChain(root, dateStr, du);
    }
  }

  /** The miss branch of `DateNoteUnderSpec`: the month level, then the day level. */
  lemma DateNoteUnderMiss(root: Resolved, dateStr: string, du: DateUtils)
    requires Valid(root.store) && NoteWithLabel(root.store, DateLabel, Some(dateStr)).None?
    ensures var r := DateNoteUnder(root, dateStr, du);
      && r.result.Success?
      && Valid(r.store) && Extends(root.store, r.store) && Holds(r.store, r.result.value)
      && r.store.nextId <= root.store.nextId + 3
      && NewLabelsNamed(root.store, r.store, {CalendarRootLabel, SortedLabel, YearLabel, MonthLabel, DateLabel})
      && (|dateStr| <= 10 ==> NoteWithLabel(r.store, DateLabel, Some(dateStr)) == Some(r.result.value))
  {
    var month := MonthNoteResolvingRoot(root.store, dateStr, du, Some(root.note));
    MonthNoteResolvingRootSpec(root.store, dateStr, du, Some(root.note));
    var sofar := {CalendarRootLabel, SortedLabel, YearLabel, MonthLabel};
    CalendarLabelNames();
    NoteWithLabelStillMissing(root.store, month.store, DateLabel, Some(dateStr), sofar);
    var day := DayUnder(month.store, root.note, month.result.value, dateStr, du);
    DayUnderSpec(month.store, root.note, month.result.value, dateStr, du);
    assert DateNoteUnder(root, dateStr, du) == Attempt(day.store, Success(day.note));
    ExtendsTransitive(root.store, month.store, day.store);
    NewLabelsNamedTransitive(root.store, month.store, day.store, sofar, {DateLabel});
  }

  /** The parent links `getDateNote` leaves below the root note `root`: the
      day note `day` under the month note; a month note not found by label
      under the year note; a year note not found by label under `root`. */
  ghost predicate DateChain(t: Store, root: Resolved, dateStr: string, du: DateUtils, day: Note) {
    var month := MonthNoteResolvingRoot(root.store, dateStr, du, Some(root.note));
    var year := YearNote(root.store, dateStr, Some(root.note));
    && month.result.Success?
    && PlacedUnder(t, day.noteId, month.result.value.noteId)
    && (NoteWithLabel(root.store, MonthLabel, Some(Substr(dateStr, 0, 7))).None? ==>
          && PlacedUnder(t, month.result.value.noteId, year.note.noteId)
          && (NoteWithLabel(root.store, YearLabel, Some(Substr(dateStr, 0, 4))).None? ==>
                PlacedUnder(t, year.note.noteId, root.note.noteId)))
  }

  /** A day note `getDateNote` did not find by label hangs below the root
      note through the month and year notes. */
  lemma DateNoteChain(root: Resolved, dateStr: string, du: DateUtils)
    requires Valid(root.store) && NoteWithLabel(root.store, DateLabel, Some(dateStr)).None?
    ensures var r := DateNoteUnder(root, dateStr, du);
      r.result.Success? && DateChain(r.store, root, dateStr, du, r.result.value)
  {
    var month := MonthNoteResolvingRoot(root.store, dateStr, du, Some(root.note));
    MonthNoteResolvingRootAgrees(root.store, dateStr, du, root.note);
    MonthNoteSpec(root.store, dateStr, du, Some(root.note));
    var monthNote := month.result.value;
    var dayInMonth := Substr(dateStr, 8, 2);
    var title := DateNoteTitle(PatternOf(month.store, root.note, "datePattern", DefaultDatePattern), dayInMonth,
                               WeekDay(du.parseLocalDate(dateStr).epochDay));
    var found := ChildOrNew(month.store, monthNote.noteId, dayInMonth, title);
    ChildOrNewSpec(month.store, monthNote.noteId, dayInMonth, title);
    ChildOrNewPlaced(month.store, monthNote.noteId, dayInMonth, title);
    var day := DayUnder(month.store, root.note, monthNote, dateStr, du);
    assert day.store.branches == found.store.branches;
    assert DateNoteUnder(root, dateStr, du) == Attempt(day.store, Success(day.note));
    if NoteWithLabel(root.store, MonthLabel, Some(Substr(dateStr, 0, 7))).None? {
      var year := YearNote(root.store, dateStr, Some(root.note));
      MonthNoteChain(root.store, dateStr, du, Some(root.note));
      PlacedUnderExtended(month.store, day.store, monthNote.noteId, year.note.noteId);
      if NoteWithLabel(root.store, YearLabel, Some(Substr(dateStr, 0, 4))).None? {
        PlacedUnderExtended(month.store, day.store, year.note.noteId, root.note.noteId);
      }
    }
  }

  /** `getDateNote`: always yields a live day note; at most four notes are
      created (calendar root, year, month, day); the calendar root keeps its
      label; and for a date string of at most ten characters (the length of
      `YYYY-MM-DD`) the day note is then found by its `dateNote` label. */
  lemma DateNoteSpec(s: Store, dateStr: string, du: DateUtils)
    requires Valid(s)
    ensures var r := DateNote(s, dateStr, du);
      && r.result.Success?
      && Valid(r.store) && Extends(s, r.store) && Holds(r.store, r.result.value)
      && r.store.nextId <= s.nextId + 4
      && NewLabelsNamed(s, r.store, {CalendarRootLabel, SortedLabel, YearLabel, MonthLabel, DateLabel})
      && NoteWithLabel(r.store, CalendarRootLabel, None) == Some(RootCalendar(s).note)
      && (|dateStr| <= 10 ==> NoteWithLabel(r.store, DateLabel, Some(dateStr)) == Some(r.result.value))
    ensures var root := RootCalendar(s);
      var r := DateNote(s, dateStr, du);
      && (NoteWithLabel(s, CalendarRootLabel, None).None? ==> PlacedUnder(r.store, root.note.noteId, RootNoteId))
      && (NoteWithLabel(root.store, DateLabel, Some(dateStr)).None? ==> DateChain(r.store, root, dateStr, du, r.result.value))
  {
    var root := RootCalendar(s);
    RootCalendarSpec(s);
    DateNoteUnderSpec(root, dateStr, du);
    if NoteWithLabel(s, CalendarRootLabel, None).None? {
      assert root.store.branches[|s.branches|] == Branch(root.note.noteId, RootNoteId, false);
      PlacedUnderExtended(root.store, DateNoteUnder(root, dateStr, du).store, root.note.noteId, RootNoteId);
    }
    if NoteWithLabel(root.store, DateLabel, Some(dateStr)).None? {
      DateNoteChain(root, dateStr, du);
    }
    var r := DateNoteUnder(root, dateStr, du);
    ExtendsTransitive(s, root.store, r.store);
    NewLabelsNamedTransitive(s, root.store, r.store, {CalendarRootLabel, SortedLabel},
                             {CalendarRootLabel, SortedLabel, YearLabel, MonthLabel, DateLabel});
    CalendarLabelNames();
    NoteWithLabelExtended(root.store, r.store, CalendarRootLabel, None);
  }

  /** Asking again for the same date returns the same day note and changes
      nothing. */
  lemma DateNoteIdempotent(s: Store, dateStr: string, du: DateUtils)
    requires Valid(s) && |dateStr| <= 10
    ensures var r := DateNote(s, dateStr, du);
      DateNote(r.store, dateStr, du) == r
  {
    var r := DateNote(s, dateStr, du);
    DateNoteSpec(s, dateStr, du);
    assert RootCalendar(r.store) == Resolved(r.store, RootCalendar(s).note);
  }

  /** The start of a week is the only day of the convention's first weekday
      that lies at most six days before the given day. */
  lemma StartOfTheWeekUnique(day: int, startOfTheWeek: string, start: int)
    requires startOfTheWeek == "monday" || startOfTheWeek == "sunday"
    requires WeekDay(start) == (if startOfTheWeek == "monday" then 1 else 0)
    requires start <= day <= start + 6
    ensures StartOfTheWeek(day, startOfTheWeek) == Success(start)
  {
    var other := StartOfTheWeek(day, startOfTheWeek).value;
    assert start == 7 * (start / 7) + WeekDay(start);
    assert other == 7 * (other / 7) + WeekDay(other);
    assert -7 < other - start < 7;
    assert other / 7 == start / 7;
  }

  /** `getWeekNote`: with a known convention the week note is the day note
      of the week's first day; anything else fails with the store untouched. */
  lemma WeekNoteSpec(s: Store, dateStr: string, du: DateUtils, startOfTheWeek: Option<string>)
    requires Valid(s)
    ensures var conv := WeekConvention(startOfTheWeek);
      var day := du.parseLocalDate(dateStr).epochDay;
      var r := WeekNote(s, dateStr, du, startOfTheWeek);
      && (r.result.Success? <==> conv == "monday" || conv == "sunday")
      && (r.result.Failure? ==> r.store == s && r.result.error == "Unrecognized start of the week " + conv)
      && (r.result.Success? ==>
            exists start :: WeekDay(start) == (if conv == "monday" then 1 else 0) && start <= day <= start + 6
                            && r == DateNote(s, du.utcDateStr(start), du))
  {
    var conv := WeekConvention(startOfTheWeek);
    var day := du.parseLocalDate(dateStr).epochDay;
    var start := StartOfTheWeek(day, conv);
    if start.Success? {
      DateNoteSpec(s, du.utcDateStr(start.value), du);
    }
  }

  /** Two dates in the same Monday-to-Sunday week have the same week note
      under the default convention. */
  lemma WeekNoteSameWeek(s: Store, dateStr: string, otherDateStr: string, du: DateUtils, monday: int)
    requires WeekDay(monday) == 1
    requires monday <= du.parseLocalDate(dateStr).epochDay <= monday + 6
    requires monday <= du.parseLocalDate(otherDateStr).epochDay <= monday + 6
    ensures WeekNote(s, dateStr, du, None) == WeekNote(s, otherDateStr, du, None)
  {
    StartOfTheWeekUnique(du.parseLocalDate(dateStr).epochDay, "monday", monday);
    StartOfTheWeekUnique(du.parseLocalDate(otherDateStr).epochDay, "monday", monday);
  }

  /** Given a root note, the corrected `getMonthNote` is the one as written. */
  lemma MonthNoteResolvingRootAgrees(s: Store, dateStr: string, du: DateUtils, rootNote: Note)
    ensures MonthNoteResolvingRoot(s, dateStr, du, Some(rootNote)) == MonthNote(s, dateStr, du, Some(rootNote))
  {
  }

  // ---------------------------------------------------------------------
  // The services, as a mutable database

  /** A `Date` object, reduced to the day it denotes. */
  class JsDate {
    var epochDay: int

    constructor (epochDay: int)
      ensures this.epochDay == epochDay
    {
      this.epochDay := epochDay;
    }
  }

  /** `getStartOfTheWeek(date, startOfTheWeek)`: moves `date` itself to the
      start of its week (`setDate`) and returns a new date equal to it. */
  method GetStartOfTheWeek(date: JsDate, startOfTheWeek: string) returns (r: Result<JsDate, string>)
    modifies date
    ensures StartOfTheWeek(old(date.epochDay), startOfTheWeek).Failure? ==>
      && r == Failure(StartOfTheWeek(old(date.epochDay), startOfTheWeek).error)
      && date.epochDay == old(date.epochDay)
    ensures StartOfTheWeek(old(date.epochDay), startOfTheWeek).Success? ==>
      && r.Success? && fresh(r.value)
      && r.value.epochDay == date.epochDay == StartOfTheWeek(old(date.epochDay), startOfTheWeek).value
  {
    var day := WeekDay(date.epochDay);
    var diff: int;
    if startOfTheWeek == "monday" {
      diff := date.epochDay - day + (if day == 0 then -6 else 1);
    } else if startOfTheWeek == "sunday" {
      diff := date.epochDay - day;
    } else {
      return Failure("Unrecognized start of the week " + startOfTheWeek);
    }
    date.epochDay := diff;
    var copy := new JsDate(date.epochDay);
    r := Success(copy);
  }

  /** The notes, branches and labels tables, with the note and label
      services `date_notes.js` calls. */
  class Database {
    var notes: map<NoteId, Note>
    var branches: seq<Branch>
    var labels: seq<Label>
    var nextId: NoteId

    function State(): Store
      reads this
    {
      Store(notes, branches, labels, nextId)
    }

    constructor (s: Store)
      ensures State() == s
    {
      notes, branches, labels, nextId := s.notes, s.branches, s.labels, s.nextId;
    }

    /** `noteService.createNewNote(parentNoteId, {title, target: 'into', isProtected: false})`. */
    method CreateNewNote(parentNoteId: NoteId, title: string) returns (note: Note)
      modifies this
      ensures Resolved(State(), note) == CreateNote(old(State()), parentNoteId, title)
    {
      note := Note(nextId, title, false, false);
      notes := notes[nextId := note];
      branches := branches + [Branch(nextId, parentNoteId, false)];
      nextId := nextId + 1;
    }

    /** `attributeService.createLabel(noteId, name, value)`. */
    method CreateLabel(noteId: NoteId, name: string, value: string)
      modifies this
      ensures State() == AddLabel(old(State()), noteId, name, value)
    {
      labels := labels + [Label(noteId, name, value)];
    }

    method GetRootCalendarNote() returns (rootNote: Note)
      modifies this
      ensures Resolved(State(), rootNote) == RootCalendar(old(State()))
    {
      var found := NoteWithLabel(State(), CalendarRootLabel, None);
      if found.Some? {
        return found.value;
      }
      rootNote := CreateNewNote(RootNoteId, CalendarTitle);
      CreateLabel(rootNote.noteId, CalendarRootLabel, "");
      CreateLabel(rootNote.noteId, SortedLabel, "");
    }

    method GetYearNote(dateStr: string, rootNote: Option<Note>) returns (yearNote: Note)
      modifies this
      ensures Resolved(State(), yearNote) == YearNote(old(State()), dateStr, rootNote)
    {
      var root: Note;
      if rootNote.Some? {
        root := rootNote.value;
      } else {
        root := GetRootCalendarNote();
      }
      var yearStr := Substr(dateStr, 0, 4);
      var found := NoteWithLabel(State(), YearLabel, Some(yearStr));
      if found.Some? {
        return found.value;
      }
      var child := NoteStartingWith(State(), root.noteId, yearStr);
      if child.Some? {
        yearNote := child.value;
      } else {
        yearNote := CreateNewNote(root.noteId, yearStr);
      }
      CreateLabel(yearNote.noteId, YearLabel, yearStr);
      CreateLabel(yearNote.noteId, SortedLabel, "");
    }

    method GetMonthNote(dateStr: string, du: DateUtils, rootNote: Option<Note>) returns (r: Result<Note, string>)
      modifies this
      ensures Attempt(State(), r) == MonthNote(old(State()), dateStr, du, rootNote)
    {
      var monthStr := Substr(dateStr, 0, 7);
      var monthNumber := Substr(dateStr, 5, 2);
      var found := NoteWithLabel(State(), MonthLabel, Some(monthStr));
      if found.Some? {
        return Success(found.value);
      }
      var yearNote := GetYearNote(dateStr, rootNote);
      var monthNote: Note;
      var child := NoteStartingWith(State(), yearNote.noteId, monthNumber);
      if child.Some? {
        monthNote := child.value;
      } else {
        if rootNote.None? {
          return Failure(RootNoteMissing);
        }
        var pattern := PatternOf(State(), rootNote.value, "monthPattern", DefaultMonthPattern);
        var title := MonthNoteTitle(pattern, monthNumber, du.parseLocalDate(dateStr).month);
        monthNote := CreateNewNote(yearNote.noteId, title);
      }
      CreateLabel(monthNote.noteId, MonthLabel, monthStr);
      CreateLabel(monthNote.noteId, SortedLabel, "");
      r := Success(monthNote);
    }

    method GetDateNote(dateStr: string, du: DateUtils) returns (r: Result<Note, string>)
      modifies this
      ensures Attempt(State(), r) == DateNote(old(State()), dateStr, du)
    {
      var rootNote := GetRootCalendarNote();
      var dayInMonth := Substr(dateStr, 8, 2);
      var found := NoteWithLabel(State(), DateLabel, Some(dateStr));
      if found.Some? {
        return Success(found.value);
      }
      MonthNoteResolvingRootAgrees(State(), dateStr, du, rootNote);
      var month := GetMonthNote(dateStr, du, Some(rootNote));
      if month.Failure? {
        return month;
      }
      var monthNote := month.value;
      var dateNote: Note;
      var child := NoteStartingWith(State(), monthNote.noteId, dayInMonth);
      if child.Some? {
        dateNote := child.value;
      } else {
        var pattern := PatternOf(State(), rootNote, "datePattern", DefaultDatePattern);
        var title := DateNoteTitle(pattern, dayInMonth, WeekDay(du.parseLocalDate(dateStr).epochDay));
        dateNote := CreateNewNote(monthNote.noteId, title);
      }
      CreateLabel(dateNote.noteId, DateLabel, Substr(dateStr, 0, 10));
      r := Success(dateNote);
    }

    method GetWeekNote(dateStr: string, du: DateUtils, startOfTheWeek: Option<string>) returns (r: Result<Note, string>)
      modifies this
      ensures Attempt(State(), r) == WeekNote(old(State()), dateStr, du, startOfTheWeek)
    {
      var convention := WeekConvention(startOfTheWeek);
      var date := new JsDate(du.parseLocalDate(dateStr).epochDay);
      var start := GetStartOfTheWeek(date, convention);
      if start.Failure? {
        return Failure(start.error);
      }
      r := GetDateNote(du.utcDateStr(start.value.epochDay), du);
    }
  }
}
