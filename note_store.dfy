/** The slice of the note database that the calendar generator reads and
    writes: notes, the branches that place a note under a parent, and the
    labels attached to notes. The note, attribute and branch services of the
    application are modelled by the store operations below: create a note
    under a parent, attach a label, find a note by label, find a child by
    title prefix. */
module NoteStore {
  import opened Wrappers
  import opened JsString

  /** Note ids are handed out in increasing order and never reused. */
  type NoteId = nat

  /** The id of the note called 'root', the top of the outline. */
  const RootNoteId: NoteId := 0

  datatype Note = Note(noteId: NoteId, title: string, isProtected: bool, isDeleted: bool)

  /** One placement of note `noteId` under note `parentNoteId`. */
  datatype Branch = Branch(noteId: NoteId, parentNoteId: NoteId, isDeleted: bool)

  /** A label attribute; a label created without a value has value "". */
  datatype Label = Label(noteId: NoteId, name: string, value: string)

  /** Rows in insertion order; `nextId` is the id the next created note gets. */
  datatype Store = Store(notes: map<NoteId, Note>, branches: seq<Branch>, labels: seq<Label>, nextId: NoteId)

  /** A note together with the store as it is once the note has been found or made. */
  datatype Resolved = Resolved(store: Store, note: Note)

  /** Every id the store mentions has been handed out already, each stored
      note carries its own id, and the root's id is taken. */
  ghost predicate Valid(s: Store) {
    && RootNoteId < s.nextId
    && (forall id :: id in s.notes ==> id < s.nextId && s.notes[id].noteId == id)
    && (forall i :: 0 <= i < |s.branches| ==> s.branches[i].noteId < s.nextId)
    && (forall i :: 0 <= i < |s.labels| ==> s.labels[i].noteId < s.nextId)
  }

  predicate IsLive(s: Store, id: NoteId) {
    id in s.notes && !s.notes[id].isDeleted
  }

  /** `value == None` stands for a lookup without a value, which matches any value. */
  predicate LabelMatches(s: Store, l: Label, name: string, value: Option<string>) {
    l.name == name && (value.None? || l.value == value.value) && IsLive(s, l.noteId)
  }

  /** The note of the first label in `labels` that matches. */
  function FindLabel(s: Store, labels: seq<Label>, name: string, value: Option<string>): (r: Option<Note>)
    ensures r.None? <==> forall i :: 0 <= i < |labels| ==> !LabelMatches(s, labels[i], name, value)
    ensures r.Some? ==> exists i :: 0 <= i < |labels| && LabelMatches(s, labels[i], name, value)
                                 && r.value == s.notes[labels[i].noteId]
                                 && forall j :: 0 <= j < i ==> !LabelMatches(s, labels[j], name, value)
    decreases |labels|
  {
    if labels == [] then None
    else if LabelMatches(s, labels[0], name, value) then Some(s.notes[labels[0].noteId])
    else
      var r := FindLabel(s, labels[1..], name, value);
      assert forall i :: 1 <= i < |labels| ==> labels[i] == labels[1..][i - 1];
      r
  }

  /** The attribute service's `getNoteWithLabel(name, value)`: the first
      live note carrying such a label, in label creation order. */
  function NoteWithLabel(s: Store, name: string, value: Option<string>): Option<Note> {
    FindLabel(s, s.labels, name, value)
  }

  /** The value of the first label called `name` on note `noteId`. */
  function LabelValue(labels: seq<Label>, noteId: NoteId, name: string): (r: Option<string>)
    ensures r.Some? ==> exists i :: 0 <= i < |labels| && labels[i].noteId == noteId && labels[i].name == name
                                 && labels[i].value == r.value
    ensures r.None? ==> forall i :: 0 <= i < |labels| ==> !(labels[i].noteId == noteId && labels[i].name == name)
    decreases |labels|
  {
    if labels == [] then None
    else if labels[0].noteId == noteId && labels[0].name == name then Some(labels[0].value)
    else
      var r := LabelValue(labels[1..], noteId, name);
      assert forall i :: 1 <= i < |labels| ==> labels[i] == labels[1..][i - 1];
      r
  }

  /** A branch that the title-prefix query accepts: a live branch under
      `parentId` whose note is live, unprotected and titled with the prefix. */
  predicate ChildMatches(s: Store, b: Branch, parentId: NoteId, prefix: string) {
    && b.parentNoteId == parentId && !b.isDeleted
    && IsLive(s, b.noteId) && !s.notes[b.noteId].isProtected
    && StartsWith(s.notes[b.noteId].title, prefix)
  }

  /** The note of an accepted branch in `branches`. The query behind it has
      no `ORDER BY`, so which accepted branch is not promised; this model
      takes the first. */
  function FindChild(s: Store, branches: seq<Branch>, parentId: NoteId, prefix: string): (r: Option<Note>)
    ensures r.None? <==> forall i :: 0 <= i < |branches| ==> !ChildMatches(s, branches[i], parentId, prefix)
    ensures r.Some? ==> exists i :: 0 <= i < |branches| && ChildMatches(s, branches[i], parentId, prefix)
                                 && r.value == s.notes[branches[i].noteId]
    decreases |branches|
  {
    if branches == [] then None
    else if ChildMatches(s, branches[0], parentId, prefix) then Some(s.notes[branches[0].noteId])
    else
      var r := FindChild(s, branches[1..], parentId, prefix);
      assert forall i :: 1 <= i < |branches| ==> branches[i] == branches[1..][i - 1];
      r
  }

  /** `noteService.createNewNote(parentId, {title, target: 'into', isProtected: false})`:
      a fresh, unprotected note placed under the parent by a new branch. */
  function CreateNote(s: Store, parentId: NoteId, title: string): Resolved {
    var note := Note(s.nextId, title, false, false);
    Resolved(Store(s.notes[s.nextId := note], s.branches + [Branch(s.nextId, parentId, false)], s.labels, s.nextId + 1), note)
  }

  /** `attributeService.createLabel(noteId, name, value)`. */
  function AddLabel(s: Store, noteId: NoteId, name: string, value: string): Store {
    s.(labels := s.labels + [Label(noteId, name, value)])
  }

  /** `t` and `s` hold the same notes under every id below `n`. */
  ghost predicate NotesAgreeBelow(s: Store, t: Store, n: nat) {
    forall id :: id < n ==> (id in s.notes <==> id in t.notes) && (id in s.notes ==> s.notes[id] == t.notes[id])
  }

  /** `t` is `s` with new notes, branches and labels added and nothing
      already present altered. */
  ghost predicate Extends(s: Store, t: Store) {
    && s.nextId <= t.nextId
    && NotesAgreeBelow(s, t, s.nextId)
    && s.branches <= t.branches
    && s.labels <= t.labels
  }

  /** A live branch places note `noteId` under `parentId`. */
  ghost predicate PlacedUnder(s: Store, noteId: NoteId, parentId: NoteId) {
    exists i :: 0 <= i < |s.branches| && s.branches[i] == Branch(noteId, parentId, false)
  }

  /** Every label that `t` has beyond those of `s` is named in `names`. */
  ghost predicate NewLabelsNamed(s: Store, t: Store, names: set<string>)
    requires s.labels <= t.labels
  {
    forall i :: |s.labels| <= i < |t.labels| ==> t.labels[i].name in names
  }

  /** `note` is stored, live, under its own id. */
  ghost predicate Holds(s: Store, note: Note) {
    note.noteId in s.notes && s.notes[note.noteId] == note && !note.isDeleted
  }

  lemma ExtendsTransitive(s: Store, t: Store, u: Store)
    requires Extends(s, t) && Extends(t, u)
    ensures Extends(s, u)
  {
  }

  lemma CreateNoteExtends(s: Store, parentId: NoteId, title: string)
    requires Valid(s)
    ensures var r := CreateNote(s, parentId, title);
      && Valid(r.store) && Extends(s, r.store) && r.store.labels == s.labels
      && Holds(r.store, r.note) && r.note.noteId == s.nextId && r.store.nextId == s.nextId + 1
  {
  }

  lemma AddLabelExtends(s: Store, noteId: NoteId, name: string, value: string)
    requires Valid(s) && noteId < s.nextId
    ensures Valid(AddLabel(s, noteId, name, value)) && Extends(s, AddLabel(s, noteId, name, value))
  {
  }

  /** Lookup in a concatenation: the first part wins if it matches at all. */
  lemma {:induction false} FindLabelAppend(s: Store, a: seq<Label>, b: seq<Label>, name: string, value: Option<string>)
    ensures FindLabel(s, a + b, name, value) == if FindLabel(s, a, name, value).Some? then FindLabel(s, a, name, value) else FindLabel(s, b, name, value)
    decreases |a|
  {
    if a != [] {
      assert (a + b)[0] == a[0];
      assert (a + b)[1..] == a[1..] + b;
      FindLabelAppend(s, a[1..], b, name, value);
    } else {
      assert a + b == b;
    }
  }

  /** Labels that only mention ids below `n` are looked up alike in two
      stores that agree below `n`. */
  lemma {:induction false} FindLabelAgree(s: Store, t: Store, n: nat, labels: seq<Label>, name: string, value: Option<string>)
    requires NotesAgreeBelow(s, t, n)
    requires forall i :: 0 <= i < |labels| ==> labels[i].noteId < n
    ensures FindLabel(s, labels, name, value) == FindLabel(t, labels, name, value)
    decreases |labels|
  {
    if labels != [] {
      assert labels[0].noteId < n;
      FindLabelAgree(s, t, n, labels[1..], name, value);
    }
  }

  /** How a lookup changes as the store grows: a hit stays the same hit, and
      a miss depends only on the labels added since. */
  lemma NoteWithLabelExtended(s: Store, t: Store, name: string, value: Option<string>)
    requires Valid(s) && Extends(s, t)
    ensures NoteWithLabel(t, name, value) ==
      if NoteWithLabel(s, name, value).Some? then NoteWithLabel(s, name, value)
      else FindLabel(t, t.labels[|s.labels|..], name, value)
  {
    var added := t.labels[|s.labels|..];
    assert t.labels == s.labels + added;
    FindLabelAppend(t, s.labels, added, name, value);
    FindLabelAgree(s, t, s.nextId, s.labels, name, value);
  }

  /** A lookup that finds nothing keeps finding nothing while only labels of
      other names are added. */
  lemma NoteWithLabelStillMissing(s: Store, t: Store, name: string, value: Option<string>, names: set<string>)
    requires Valid(s) && Extends(s, t) && NewLabelsNamed(s, t, names) && name !in names
    requires NoteWithLabel(s, name, value).None?
    ensures NoteWithLabel(t, name, value).None?
  {
    NoteWithLabelExtended(s, t, name, value);
    var added := t.labels[|s.labels|..];
    forall i | 0 <= i < |added| ensures !LabelMatches(t, added[i], name, value) {
      assert added[i] == t.labels[|s.labels| + i];
    }
  }

  /** A label attached to a live note after a failed lookup is what the
      lookup finds from then on, whether it asks for the label's value or
      for any value. */
  lemma NoteWithLabelAfterAdd(s: Store, noteId: NoteId, name: string, value: string, lookup: Option<string>)
    requires lookup.None? || lookup == Some(value)
    requires Valid(s) && IsLive(s, noteId) && NoteWithLabel(s, name, lookup).None?
    ensures NoteWithLabel(AddLabel(s, noteId, name, value), name, lookup) == Some(s.notes[noteId])
  {
    var t := AddLabel(s, noteId, name, value);
    FindLabelAppend(t, s.labels, [Label(noteId, name, value)], name, lookup);
    FindLabelAgree(s, t, s.nextId, s.labels, name, lookup);
  }

  lemma NewLabelsNamedTransitive(s: Store, t: Store, u: Store, a: set<string>, b: set<string>)
    requires s.labels <= t.labels <= u.labels && NewLabelsNamed(s, t, a) && NewLabelsNamed(t, u, b)
    ensures s.labels <= u.labels && NewLabelsNamed(s, u, a + b)
  {
  }

  /** A note found by label is stored under its own id and is live. */
  lemma NoteWithLabelHolds(s: Store, name: string, value: Option<string>)
    requires Valid(s) && NoteWithLabel(s, name, value).Some?
    ensures Holds(s, NoteWithLabel(s, name, value).value)
  {
  }

  /** A placement stays when branches are only appended. */
  lemma PlacedUnderExtended(s: Store, t: Store, noteId: NoteId, parentId: NoteId)
    requires s.branches <= t.branches && PlacedUnder(s, noteId, parentId)
    ensures PlacedUnder(t, noteId, parentId)
  {
    var i :| 0 <= i < |s.branches| && s.branches[i] == Branch(noteId, parentId, false);
    assert t.branches[i] == s.branches[i];
  }
}
