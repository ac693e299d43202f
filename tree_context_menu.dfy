/** The note tree's context menu (`tree_context_menu.js`): which items it
    offers and enables for a node, the note-type submenus and their command
    encoding, and the dispatch of a chosen command. */
module TreeContextMenu {
  import opened Wrappers
  import opened JsString

  /** A fancytree node and the `node.data` fields the menu reads. */
  datatype MenuNode = MenuNode(key: string, noteId: string, branchId: string, parentNoteId: string, isProtected: bool)

  /** A menu entry; absent fields are `undefined` in the source's literals. */
  datatype MenuItem = MenuItem(title: string, cmd: Option<string>, uiIcon: Option<string>,
                               enabled: Option<bool>, items: Option<seq<MenuItem>>)

  const Separator := MenuItem("----", None, None, None, None)

  /** What `getContextMenuItems` reads from the caches, the hoisting service,
      the tree selection and the clipboard. */
  datatype MenuInputs = MenuInputs(node: MenuNode, noteType: string, parentNoteType: string,
                                   hoistedNoteId: string, selectedKeys: seq<string>, clipboardEmpty: bool)

  const RootNoteId := "root"
  const SearchType := "search"

  /** The five note types of the submenus, with their titles and icons. */
  const NoteTypes: seq<string> := ["text", "code", "search", "relation-map", "render"]
  const NoteTypeTitles: seq<string> := ["文本", "代码", "保存搜索", "关系图", "HTML笔记"]
  const NoteTypeIcons: seq<string> := ["file", "terminal", "search-folder", "map", "play"]

  /** `getNoteTypeItems(baseCmd)`. */
  function NoteTypeItems(baseCmd: string): seq<MenuItem> {
    seq(5, i requires 0 <= i < 5 =>
      MenuItem(NoteTypeTitles[i], Some(baseCmd + "_" + NoteTypes[i]), Some(NoteTypeIcons[i]), None, None))
  }

  predicate IsNotRoot(ctx: MenuInputs) {
    ctx.node.noteId != RootNoteId
  }

  predicate IsHoisted(ctx: MenuInputs) {
    ctx.node.noteId == ctx.hoistedNoteId
  }

  /** No selection, or only the right-clicked node selected. */
  predicate NoSelectedNotes(ctx: MenuInputs) {
    |ctx.selectedKeys| == 0 || (|ctx.selectedKeys| == 1 && ctx.selectedKeys[0] == ctx.node.key)
  }

  predicate InsertNoteAfterEnabled(ctx: MenuInputs) {
    IsNotRoot(ctx) && !IsHoisted(ctx) && ctx.parentNoteType != SearchType
  }

  predicate InsertChildNoteEnabled(ctx: MenuInputs) {
    ctx.noteType != SearchType
  }

  function Item(title: string, cmd: string, uiIcon: string, enabled: bool): MenuItem {
    MenuItem(title, Some(cmd), Some(uiIcon), Some(enabled), None)
  }

  /** Entry `k` of the array literal of `getContextMenuItems`, before
      `.filter`: `None` is a `null` entry. */
  function RawEntry(ctx: MenuInputs, k: nat): Option<MenuItem>
    requires k < 23
  {
    var noSel := NoSelectedNotes(ctx);
    var notRoot := IsNotRoot(ctx);
    var hoisted := IsHoisted(ctx);
    var afterOn := InsertNoteAfterEnabled(ctx);
    var childOn := InsertChildNoteEnabled(ctx);
    match k
    case 0 => Some(Item("在新页签中打开", "openInTab", "empty", noSel))
    case 1 => Some(MenuItem("新同级笔记 <kbd>Ctrl+O</kbd>", Some("insertNoteAfter"), Some("plus"), Some(afterOn && noSel),
                            if afterOn then Some(NoteTypeItems("insertNoteAfter")) else None))
    case 2 => Some(MenuItem("新子级笔记 <kbd>Ctrl+P</kbd>", Some("insertChildNote"), Some("plus"), Some(childOn && noSel),
                            if childOn then Some(NoteTypeItems("insertChildNote")) else None))
    case 3 => Some(Item("删除 <kbd>Delete</kbd>", "delete", "trash", notRoot && !hoisted && ctx.parentNoteType != SearchType))
    case 4 => Some(Separator)
    case 5 => if hoisted then None else Some(Item("提升笔记 <kbd>Ctrl-H</kbd>", "hoist", "empty", noSel))
    case 6 => if !hoisted || !notRoot then None else Some(MenuItem("降级笔记 <kbd>Ctrl-H</kbd>", Some("unhoist"), Some("arrow-up"), None, None))
    case 7 => Some(Item("编辑分支前缀 <kbd>F2</kbd>", "editBranchPrefix", "empty", notRoot && ctx.parentNoteType != SearchType && noSel))
    case 8 => Some(Separator)
    case 9 => Some(Item("保护子树", "protectSubtree", "shield-check", noSel))
    case 10 => Some(Item("取消保护子树", "unprotectSubtree", "shield-close", noSel))
    case 11 => Some(Separator)
    case 12 => Some(Item("复制/克隆 <kbd>Ctrl+C</kbd>", "copy", "files", notRoot))
    case 13 => Some(Item("剪切 <kbd>Ctrl+X</kbd>", "cut", "scissors", notRoot))
    case 14 => Some(Item("粘贴(子级) <kbd>Ctrl+V</kbd>", "pasteInto", "clipboard", !ctx.clipboardEmpty && ctx.noteType != SearchType && noSel))
    case 15 => Some(Item("粘贴(同级)", "pasteAfter", "clipboard", !ctx.clipboardEmpty && notRoot && ctx.parentNoteType != SearchType && noSel))
    case 16 => Some(Separator)
    case 17 => Some(Item("导出", "export", "empty", ctx.noteType != SearchType && noSel))
    case 18 => Some(Item("导入", "importIntoNote", "empty", ctx.noteType != SearchType && noSel))
    case 19 => Some(Separator)
    case 20 => Some(Item("折叠子树 <kbd>Alt+-</kbd>", "collapseSubtree", "align-justify", noSel))
    case 21 => Some(Item("强制同步", "forceNoteSync", "refresh", noSel))
    case _ => Some(Item("按字母顺序排序 <kbd>Alt+S</kbd>", "sortAlphabetically", "empty", noSel))
  }

  /** The array literal of `getContextMenuItems`, before `.filter`. */
  function RawItems(ctx: MenuInputs): seq<Option<MenuItem>> {
    seq(23, k requires 0 <= k < 23 => RawEntry(ctx, k))
  }

  /** `.filter(row => row !== null)`: the present entries, in order. */
  function FilterNulls(raw: seq<Option<MenuItem>>): (items: seq<MenuItem>)
    ensures |items| <= |raw|
    ensures forall it :: it in items <==> Some(it) in raw
  {
    if raw == [] then []
    else
      var rest := FilterNulls(raw[1..]);
      assert forall o :: o in raw <==> o == raw[0] || o in raw[1..];
      if raw[0].Some? then [raw[0].value] + rest else rest
  }

  /** Each item survives the filter as often as it is present. */
  lemma {:induction false} FilterNullsCounts(raw: seq<Option<MenuItem>>, it: MenuItem)
    ensures multiset(FilterNulls(raw))[it] == multiset(raw)[Some(it)]
    decreases |raw|
  {
    if raw != [] {
      FilterNullsCounts(raw[1..], it);
      assert raw == [raw[0]] + raw[1..];
      var head := if raw[0].Some? then [raw[0].value] else [];
      assert FilterNulls(raw) == head + FilterNulls(raw[1..]);
    }
  }

  /** Filtering keeps the order of what survives: the filter of two parts
      is the filter of the first followed by the filter of the second. */
  lemma {:induction false} FilterNullsAppend(a: seq<Option<MenuItem>>, b: seq<Option<MenuItem>>)
    ensures FilterNulls(a + b) == FilterNulls(a) + FilterNulls(b)
    decreases |a|
  {
    if a == [] {
      assert a + b == b;
    } else {
      assert (a + b)[0] == a[0];
      assert (a + b)[1..] == a[1..] + b;
      FilterNullsAppend(a[1..], b);
      var head := if a[0].Some? then [a[0].value] else [];
      assert FilterNulls(a) == head + FilterNulls(a[1..]);
      assert FilterNulls(a + b) == head + (FilterNulls(a[1..]) + FilterNulls(b));
    }
  }

  /** `getContextMenuItems()`. */
  function MenuItems(ctx: MenuInputs): seq<MenuItem> {
    FilterNulls(RawItems(ctx))
  }

  /** The menu offers `cmd`. */
  predicate Offers(items: seq<MenuItem>, cmd: string) {
    exists it :: it in items && it.cmd == Some(cmd)
  }

  /** Every entry of the menu for `cmd` has the given `enabled` field. */
  predicate EnabledAs(items: seq<MenuItem>, cmd: string, enabled: Option<bool>) {
    forall it :: it in items && it.cmd == Some(cmd) ==> it.enabled == enabled
  }

  /** Every entry of the menu for `cmd` has the given submenu. */
  predicate SubmenuAs(items: seq<MenuItem>, cmd: string, sub: Option<seq<MenuItem>>) {
    forall it :: it in items && it.cmd == Some(cmd) ==> it.items == sub
  }

  // ---------------------------------------------------------------------
  // Command encoding

  /** `cmd.split("_")[1]`: `undefined` when there is no underscore. */
  function CommandType(cmd: string): (t: Option<string>)
    ensures '_' !in cmd ==> t.None?
  {
    var parts := Split(cmd, '_');
    if |parts| > 1 then Some(parts[1]) else None
  }

  /** A submenu command decodes to its own type, since no type holds `_`. */
  lemma {:induction false} CommandTypeRoundTrip(baseCmd: string, noteType: string)
    requires '_' !in baseCmd && '_' !in noteType
    ensures CommandType(baseCmd + "_" + noteType) == Some(noteType)
  {
    assert baseCmd + "_" + noteType == baseCmd + ['_'] + noteType;
    SplitAtFirst(baseCmd, '_', noteType);
  }

  /** `getNoteTypeItems(b)`: five items whose commands are `b_<type>`, each
      decoding back to its type, with the source's titles and icons. */
  lemma NoteTypeItemsDecode(baseCmd: string)
    requires '_' !in baseCmd
    ensures var items := NoteTypeItems(baseCmd);
      && |items| == 5
      && forall i :: 0 <= i < 5 ==>
           && items[i].cmd == Some(baseCmd + "_" + NoteTypes[i])
           && CommandType(items[i].cmd.value) == Some(NoteTypes[i])
           && items[i].title == NoteTypeTitles[i] && items[i].uiIcon == Some(NoteTypeIcons[i])
  {
    forall i | 0 <= i < 5
      ensures CommandType(baseCmd + "_" + NoteTypes[i]) == Some(NoteTypes[i])
    {
      assert '_' !in NoteTypes[i];
      CommandTypeRoundTrip(baseCmd, NoteTypes[i]);
    }
  }

  // ---------------------------------------------------------------------
  // Enablement

  /** The command of each entry of `RawItems`, `""` for a separator. */
  const RawCommands: seq<string> :=
    [ "openInTab", "insertNoteAfter", "insertChildNote", "delete", "", "hoist", "unhoist", "editBranchPrefix", "",
      "protectSubtree", "unprotectSubtree", "", "copy", "cut", "pasteInto", "pasteAfter", "",
      "export", "importIntoNote", "", "collapseSubtree", "forceNoteSync", "sortAlphabetically" ]

  lemma RawItemCommands(ctx: MenuInputs)
    ensures |RawItems(ctx)| == |RawCommands|
    ensures forall k :: 0 <= k < |RawCommands| && RawItems(ctx)[k].Some? ==>
      RawItems(ctx)[k].value.cmd == if RawCommands[k] == "" then None else Some(RawCommands[k])
  {
    forall k | 0 <= k < |RawCommands| && RawItems(ctx)[k].Some?
      ensures RawItems(ctx)[k].value.cmd == if RawCommands[k] == "" then None else Some(RawCommands[k])
    {
      assert RawItems(ctx)[k] == RawEntry(ctx, k);
      if k < 6 {
      } else if k < 12 {
      } else if k < 18 {
      } else {
      }
    }
  }

  /** An entry whose command appears once among the entries' commands is,
      if present, the only item with that command once nulls are filtered. */
  lemma FilteredEntry(raw: seq<Option<MenuItem>>, cmds: seq<string>, cmd: string, k: nat)
    requires |raw| == |cmds| && k < |cmds| && cmds[k] == cmd && cmd != ""
    requires forall j :: 0 <= j < |cmds| && raw[j].Some? ==> raw[j].value.cmd == if cmds[j] == "" then None else Some(cmds[j])
    requires forall j :: 0 <= j < |cmds| && cmds[j] == cmd ==> j == k
    ensures raw[k].Some? <==> Offers(FilterNulls(raw), cmd)
    ensures forall it :: it in FilterNulls(raw) && it.cmd == Some(cmd) ==> Some(it) == raw[k]
  {
    forall it | it in FilterNulls(raw) && it.cmd == Some(cmd)
      ensures Some(it) == raw[k]
    {
      var j :| 0 <= j < |raw| && raw[j] == Some(it);
    }
    if raw[k].Some? {
      assert raw[k].value in FilterNulls(raw);
    }
  }

  /** No command names two entries. */
  lemma RawCommandsDistinct()
    ensures forall j, k :: 0 <= j < k < |RawCommands| && RawCommands[j] != "" ==> RawCommands[j] != RawCommands[k]
  {
  }

  /** The same for the menu: entry `k` decides whether `cmd` is offered and
      what its `enabled` field and submenu are. */
  lemma EntryFor(ctx: MenuInputs, cmd: string, k: nat)
    requires k < |RawCommands| && RawCommands[k] == cmd && cmd != ""
    ensures RawEntry(ctx, k).Some? <==> Offers(MenuItems(ctx), cmd)
    ensures RawEntry(ctx, k).Some? ==> EnabledAs(MenuItems(ctx), cmd, RawEntry(ctx, k).value.enabled)
    ensures RawEntry(ctx, k).Some? ==> SubmenuAs(MenuItems(ctx), cmd, RawEntry(ctx, k).value.items)
  {
    RawItemCommands(ctx);
    RawCommandsDistinct();
    assert forall j :: 0 <= j < |RawCommands| && RawCommands[j] == cmd ==> j == k by {
      forall j | 0 <= j < |RawCommands| && RawCommands[j] == cmd
        ensures j == k
      {
        if j < k {
        } else if k < j {
        }
      }
    }
    FilteredEntry(RawItems(ctx), RawCommands, cmd, k);
    assert RawItems(ctx)[k] == RawEntry(ctx, k);
  }

  /** "insertNoteAfter" needs a non-root, non-hoisted note whose parent is
      not a saved search, and no other selection; its type submenu is there
      exactly when the first three conditions hold. */
  lemma InsertNoteAfterItem(ctx: MenuInputs)
    ensures Offers(MenuItems(ctx), "insertNoteAfter")
    ensures EnabledAs(MenuItems(ctx), "insertNoteAfter",
                      Some(ctx.node.noteId != RootNoteId && ctx.node.noteId != ctx.hoistedNoteId && ctx.parentNoteType != SearchType
                           && NoSelectedNotes(ctx)))
    ensures SubmenuAs(MenuItems(ctx), "insertNoteAfter",
                      if ctx.node.noteId != RootNoteId && ctx.node.noteId != ctx.hoistedNoteId && ctx.parentNoteType != SearchType
                      then Some(NoteTypeItems("insertNoteAfter")) else None)
  {
    assert RawEntry(ctx, 1).value.enabled == Some(ctx.node.noteId != RootNoteId && ctx.node.noteId != ctx.hoistedNoteId && ctx.parentNoteType != SearchType
                           && NoSelectedNotes(ctx));
    assert RawEntry(ctx, 1).value.items == if ctx.node.noteId != RootNoteId && ctx.node.noteId != ctx.hoistedNoteId && ctx.parentNoteType != SearchType
                                              then Some(NoteTypeItems("insertNoteAfter")) else None;
    EntryFor(ctx, "insertNoteAfter", 1);
  }

  /** "delete" needs a non-root, non-hoisted note whose parent is not a
      saved search (a multi-selection does not disable it). */
  lemma DeleteItem(ctx: MenuInputs)
    ensures Offers(MenuItems(ctx), "delete")
    ensures EnabledAs(MenuItems(ctx), "delete",
                      Some(ctx.node.noteId != RootNoteId && ctx.node.noteId != ctx.hoistedNoteId && ctx.parentNoteType != SearchType))
  {
    assert RawEntry(ctx, 3).value.enabled == Some(ctx.node.noteId != RootNoteId && ctx.node.noteId != ctx.hoistedNoteId && ctx.parentNoteType != SearchType);
    EntryFor(ctx, "delete", 3);
  }

  /** "insertChildNote" needs a note that is not a saved search and no other
      selection; its type submenu is there exactly when the note is not a
      saved search. */
  lemma InsertChildNoteItem(ctx: MenuInputs)
    ensures Offers(MenuItems(ctx), "insertChildNote")
    ensures EnabledAs(MenuItems(ctx), "insertChildNote", Some(ctx.noteType != SearchType && NoSelectedNotes(ctx)))
    ensures SubmenuAs(MenuItems(ctx), "insertChildNote",
                      if ctx.noteType != SearchType then Some(NoteTypeItems("insertChildNote")) else None)
  {
    assert RawEntry(ctx, 2).value.enabled == Some(ctx.noteType != SearchType && NoSelectedNotes(ctx));
    assert RawEntry(ctx, 2).value.items == if ctx.noteType != SearchType then Some(NoteTypeItems("insertChildNote")) else None;
    EntryFor(ctx, "insertChildNote", 2);
  }

  /** "hoist" is offered exactly when the note is not hoisted. */
  lemma HoistItem(ctx: MenuInputs)
    ensures Offers(MenuItems(ctx), "hoist") <==> ctx.node.noteId != ctx.hoistedNoteId
    ensures EnabledAs(MenuItems(ctx), "hoist", Some(NoSelectedNotes(ctx)))
  {
    EntryFor(ctx, "hoist", 5);
  }

  /** "unhoist" is offered exactly when the note is hoisted and not the
      root, and carries no `enabled` field. */
  lemma UnhoistItem(ctx: MenuInputs)
    ensures Offers(MenuItems(ctx), "unhoist") <==> ctx.node.noteId == ctx.hoistedNoteId && ctx.node.noteId != RootNoteId
    ensures EnabledAs(MenuItems(ctx), "unhoist", None)
  {
    EntryFor(ctx, "unhoist", 6);
  }

  /** Copy needs a non-root note. */
  lemma CopyItem(ctx: MenuInputs)
    ensures Offers(MenuItems(ctx), "copy")
    ensures EnabledAs(MenuItems(ctx), "copy", Some(ctx.node.noteId != RootNoteId))
  {
    assert RawEntry(ctx, 12).value.enabled == Some(ctx.node.noteId != RootNoteId);
    EntryFor(ctx, "copy", 12);
  }

  /** Cut needs a non-root note. */
  lemma CutItem(ctx: MenuInputs)
    ensures Offers(MenuItems(ctx), "cut")
    ensures EnabledAs(MenuItems(ctx), "cut", Some(ctx.node.noteId != RootNoteId))
  {
    assert RawEntry(ctx, 13).value.enabled == Some(ctx.node.noteId != RootNoteId);
    EntryFor(ctx, "cut", 13);
  }

  /** Pasting into a note needs a non-empty clipboard, a note that is not a
      saved search, and no other selection. */
  lemma PasteIntoItem(ctx: MenuInputs)
    ensures Offers(MenuItems(ctx), "pasteInto")
    ensures EnabledAs(MenuItems(ctx), "pasteInto",
                      Some(!ctx.clipboardEmpty && ctx.noteType != SearchType && NoSelectedNotes(ctx)))
  {
    assert RawEntry(ctx, 14).value.enabled == Some(!ctx.clipboardEmpty && ctx.noteType != SearchType && NoSelectedNotes(ctx));
    EntryFor(ctx, "pasteInto", 14);
  }

  /** Pasting after a note needs a non-empty clipboard, a non-root note whose
      parent is not a saved search, and no other selection. */
  lemma PasteAfterItem(ctx: MenuInputs)
    ensures Offers(MenuItems(ctx), "pasteAfter")
    ensures EnabledAs(MenuItems(ctx), "pasteAfter",
                      Some(!ctx.clipboardEmpty && ctx.node.noteId != RootNoteId && ctx.parentNoteType != SearchType
                           && NoSelectedNotes(ctx)))
  {
    assert RawEntry(ctx, 15).value.enabled == Some(!ctx.clipboardEmpty && ctx.node.noteId != RootNoteId && ctx.parentNoteType != SearchType
                                                   && NoSelectedNotes(ctx));
    EntryFor(ctx, "pasteAfter", 15);
  }

  // ---------------------------------------------------------------------
  // Command dispatch

  /** The commands `selectContextMenuItem` recognises; the two note-creating
      ones carry the type decoded from their suffix. */
  datatype Command =
    | OpenInTabCommand
    | InsertNoteAfterCommand(noteType: Option<string>)
    | InsertChildNoteCommand(noteType: Option<string>)
    | EditBranchPrefixCommand
    | ProtectSubtreeCommand(protect: bool)
    | CopyCommand
    | CutCommand
    | PasteAfterCommand
    | PasteIntoCommand
    | DeleteCommand
    | ExportCommand
    | ImportIntoNoteCommand
    | CollapseSubtreeCommand
    | ForceNoteSyncCommand
    | SortAlphabeticallyCommand
    | HoistCommand
    | UnhoistCommand
    | UnknownCommand

  /** The commands matched by equality, in the order they are tested. */
  const ExactCommands: seq<string> :=
    [ "openInTab", "editBranchPrefix", "protectSubtree", "unprotectSubtree", "copy", "cut", "pasteAfter",
      "pasteInto", "delete", "export", "importIntoNote", "collapseSubtree", "forceNoteSync",
      "sortAlphabetically", "hoist", "unhoist" ]

  const InsertNoteAfterPrefix := "insertNoteAfter"
  const InsertChildNotePrefix := "insertChildNote"

  /** No command starts with both note-creating prefixes. */
  lemma PrefixesExclusive(cmd: string)
    ensures StartsWith(cmd, InsertNoteAfterPrefix) ==> !StartsWith(cmd, InsertChildNotePrefix)
  {
    if StartsWith(cmd, InsertNoteAfterPrefix) {
      assert cmd[6] == InsertNoteAfterPrefix[6] == 'N';
    }
  }

  /** The tests of `selectContextMenuItem`, in its order: equality with
      "openInTab", then the two `startsWith` prefixes, then equality with
      each remaining command. */
  function ParseCommand(cmd: string): (c: Command)
    ensures StartsWith(cmd, InsertNoteAfterPrefix) ==> c == InsertNoteAfterCommand(CommandType(cmd))
    ensures StartsWith(cmd, InsertChildNotePrefix) ==> c == InsertChildNoteCommand(CommandType(cmd))
  {
    if cmd == "openInTab" then OpenInTabCommand
    else if StartsWith(cmd, InsertNoteAfterPrefix) then
      PrefixesExclusive(cmd);
      InsertNoteAfterCommand(CommandType(cmd))
    else if StartsWith(cmd, InsertChildNotePrefix) then InsertChildNoteCommand(CommandType(cmd))
    else if cmd == "editBranchPrefix" then EditBranchPrefixCommand
    else if cmd == "protectSubtree" then ProtectSubtreeCommand(true)
    else if cmd == "unprotectSubtree" then ProtectSubtreeCommand(false)
    else if cmd == "copy" then CopyCommand
    else if cmd == "cut" then CutCommand
    else if cmd == "pasteAfter" then PasteAfterCommand
    else if cmd == "pasteInto" then PasteIntoCommand
    else if cmd == "delete" then DeleteCommand
    else if cmd == "export" then ExportCommand
    else if cmd == "importIntoNote" then ImportIntoNoteCommand
    else if cmd == "collapseSubtree" then CollapseSubtreeCommand
    else if cmd == "forceNoteSync" then ForceNoteSyncCommand
    else if cmd == "sortAlphabetically" then SortAlphabeticallyCommand
    else if cmd == "hoist" then HoistCommand
    else if cmd == "unhoist" then UnhoistCommand
    else UnknownCommand
  }

  /** Where `createNote` puts the new note. */
  datatype Target = After | Into

  /** The service call a command makes, recorded rather than performed. */
  datatype Effect =
    | OpenInTab(notePath: string)
    | CreateNote(node: MenuNode, parentNoteId: string, target: Target, noteType: Option<string>, isProtected: bool)
    | ShowBranchPrefixDialog(node: MenuNode)
    | ProtectSubtree(noteId: string, protect: bool)
    | ClipboardCopy(nodes: seq<MenuNode>)
    | ClipboardCut(nodes: seq<MenuNode>)
    | ClipboardPasteAfter(node: MenuNode)
    | ClipboardPasteInto(node: MenuNode)
    | DeleteNodes(nodes: seq<MenuNode>)
    | ShowExportDialog(node: MenuNode, scope: string)
    | ShowImportDialog(node: MenuNode)
    | CollapseTree(node: MenuNode)
    | ForceNoteSync(noteId: string)
    | SortAlphabetically(noteId: string)
    | SetHoistedNoteId(noteId: string)
    | Unhoist
    | LogError(message: string)

  /** What the dispatch reads from other services: the note path of the
      node, its parent's protection status and `getSelectedOrActiveNodes`. */
  datatype Services = Services(notePath: string, parentProtected: bool, selectedOrActive: seq<MenuNode>)

  /** The service call for a parsed command on `node`. */
  function EffectOf(node: MenuNode, cmd: string, c: Command, env: Services): Effect {
    match c
    case OpenInTabCommand => OpenInTab(env.notePath)
    case InsertNoteAfterCommand(t) => CreateNote(node, node.parentNoteId, After, t, env.parentProtected)
    case InsertChildNoteCommand(t) => CreateNote(node, node.noteId, Into, t, node.isProtected)
    case EditBranchPrefixCommand => ShowBranchPrefixDialog(node)
    case ProtectSubtreeCommand(protect) => ProtectSubtree(node.noteId, protect)
    case CopyCommand => ClipboardCopy(env.selectedOrActive)
    case CutCommand => ClipboardCut(env.selectedOrActive)
    case PasteAfterCommand => ClipboardPasteAfter(node)
    case PasteIntoCommand => ClipboardPasteInto(node)
    case DeleteCommand => DeleteNodes(env.selectedOrActive)
    case ExportCommand => ShowExportDialog(node, "subtree")
    case ImportIntoNoteCommand => ShowImportDialog(node)
    case CollapseSubtreeCommand => CollapseTree(node)
    case ForceNoteSyncCommand => ForceNoteSync(node.noteId)
    case SortAlphabeticallyCommand => SortAlphabetically(node.noteId)
    case HoistCommand => SetHoistedNoteId(node.noteId)
    case UnhoistCommand => Unhoist
    case UnknownCommand => LogError("Unknown command: " + cmd)
  }

  /** The service call `selectContextMenuItem(event, cmd)` makes. */
  function Dispatch(node: MenuNode, cmd: string, env: Services): Effect {
    EffectOf(node, cmd, ParseCommand(cmd), env)
  }

  /** A type-submenu entry under "insertNoteAfter" creates a note of that
      type after the node, under the node's parent, protected as the parent
      is; one under "insertChildNote" creates it inside the node, protected
      as the node is. */
  lemma SubmenuCreatesNote(node: MenuNode, env: Services, i: nat)
    requires i < 5
    ensures Dispatch(node, NoteTypeItems(InsertNoteAfterPrefix)[i].cmd.value, env)
            == CreateNote(node, node.parentNoteId, After, Some(NoteTypes[i]), env.parentProtected)
    ensures Dispatch(node, NoteTypeItems(InsertChildNotePrefix)[i].cmd.value, env)
            == CreateNote(node, node.noteId, Into, Some(NoteTypes[i]), node.isProtected)
  {
    NoteTypeItemsDecode(InsertNoteAfterPrefix);
    NoteTypeItemsDecode(InsertChildNotePrefix);
    var after := InsertNoteAfterPrefix + "_" + NoteTypes[i];
    var child := InsertChildNotePrefix + "_" + NoteTypes[i];
    assert StartsWith(after, InsertNoteAfterPrefix) by {
      assert after[..|InsertNoteAfterPrefix|] == InsertNoteAfterPrefix;
    }
    assert StartsWith(child, InsertChildNotePrefix) by {
      assert child[..|InsertChildNotePrefix|] == InsertChildNotePrefix;
    }
  }

  /** A note-creating command without an underscore, such as the parent
      entry "insertNoteAfter" or "insertChildNote" itself, creates a note
      with an undefined type. */
  lemma InsertWithoutSuffixHasNoType(node: MenuNode, cmd: string, env: Services)
    requires '_' !in cmd
    ensures StartsWith(cmd, InsertNoteAfterPrefix) ==>
      Dispatch(node, cmd, env) == CreateNote(node, node.parentNoteId, After, None, env.parentProtected)
    ensures StartsWith(cmd, InsertChildNotePrefix) ==>
      Dispatch(node, cmd, env) == CreateNote(node, node.noteId, Into, None, node.isProtected)
  {
  }

  /** A command is unknown exactly when it is none of the exact commands
      and starts with neither note-creating prefix. */
  lemma UnknownCommandsExactly(cmd: string)
    ensures ParseCommand(cmd) == UnknownCommand <==>
      cmd !in ExactCommands && !StartsWith(cmd, InsertNoteAfterPrefix) && !StartsWith(cmd, InsertChildNotePrefix)
  {
    if StartsWith(cmd, InsertNoteAfterPrefix) || StartsWith(cmd, InsertChildNotePrefix) {
    } else if cmd in ExactCommands {
      assert ParseCommand(cmd) != UnknownCommand;
    } else {
      assert ParseCommand(cmd) == UnknownCommand;
    }
  }

  /** An unknown command only logs an error naming it; every other command
      makes a service call. */
  lemma UnknownCommandLogs(node: MenuNode, cmd: string, env: Services)
    ensures Dispatch(node, cmd, env).LogError? <==>
      cmd !in ExactCommands && !StartsWith(cmd, InsertNoteAfterPrefix) && !StartsWith(cmd, InsertChildNotePrefix)
    ensures Dispatch(node, cmd, env).LogError? ==> Dispatch(node, cmd, env) == LogError("Unknown command: " + cmd)
  {
    UnknownCommandsExactly(cmd);
    var c := ParseCommand(cmd);
    assert Dispatch(node, cmd, env) == EffectOf(node, cmd, c, env);
    match c
    case UnknownCommand =>
    case _ =>
  }

  /** The context menu of one node: the dispatch issues each chosen
      command's service call, appended to a log. */
  class TreeContextMenu {
    const node: MenuNode
    var issued: seq<Effect>

    constructor(node: MenuNode)
      ensures this.node == node && issued == []
    {
      this.node := node;
      issued := [];
    }

    /** `selectContextMenuItem(event, cmd)`: one service call per chosen
        command. */
    method SelectContextMenuItem(cmd: string, env: Services)
      modifies this
      ensures issued == old(issued) + [Dispatch(node, cmd, env)]
    {
      var effect := Dispatch(node, cmd, env);
      issued := issued + [effect];
    }
  }
}
