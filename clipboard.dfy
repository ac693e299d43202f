/** The note-tree clipboard (`clipboard.js`): the clipboard ids and mode, and
    the tree operations a paste issues, recorded as a log of actions. */
module Clipboard {

  /** A tree node: its key, and the note and branch it shows (`node.data`). */
  datatype TreeNode = TreeNode(key: string, noteId: string, branchId: string)

  /** `clipboardMode`: `null`, `'copy'` or `'cut'`. */
  datatype Mode = NoMode | CopyMode | CutMode

  /** The calls a paste makes into the tree, cloning and message services. */
  datatype Action =
    | MoveAfterNode(nodeKeys: seq<string>, target: TreeNode)
    | MoveToNode(nodeKeys: seq<string>, target: TreeNode)
    | CloneNoteAfter(noteId: string, afterBranchId: string)
    | CloneNoteTo(noteId: string, parentNoteId: string)
    | SetExpanded(target: TreeNode)
    | ThrowError(message: string)
    | ReferenceError(name: string)

  predicate IsError(a: Action) {
    a.ThrowError? || a.ReferenceError?
  }

  datatype ClipState = ClipState(ids: seq<string>, mode: Mode)

  datatype Pasted = Pasted(state: ClipState, actions: seq<Action>)

  const Empty := ClipState([], NoMode)

  /** `"无法识别的剪贴板 模式=" + clipboardMode` with the mode `null`. */
  const UnknownModeMessage := "无法识别的剪贴板 模式=null"

  /** What the module keeps true: with no mode there are no ids. */
  predicate Inv(st: ClipState) {
    st.mode.NoMode? ==> st.ids == []
  }

  function NoteIds(nodes: seq<TreeNode>): (ids: seq<string>)
    ensures |ids| == |nodes| && forall i :: 0 <= i < |nodes| ==> ids[i] == nodes[i].noteId
  {
    if nodes == [] then [] else [nodes[0].noteId] + NoteIds(nodes[1..])
  }

  function Keys(nodes: seq<TreeNode>): (keys: seq<string>)
    ensures |keys| == |nodes| && forall i :: 0 <= i < |nodes| ==> keys[i] == nodes[i].key
  {
    if nodes == [] then [] else [nodes[0].key] + Keys(nodes[1..])
  }

  /** One `cloneNoteAfter(noteId, branchId)` per id, in order. */
  function ClonesAfter(ids: seq<string>, branchId: string): (actions: seq<Action>)
    ensures |actions| == |ids| && forall i :: 0 <= i < |ids| ==> actions[i] == CloneNoteAfter(ids[i], branchId)
  {
    if ids == [] then [] else [CloneNoteAfter(ids[0], branchId)] + ClonesAfter(ids[1..], branchId)
  }

  /** One `cloneNoteTo(noteId, parentNoteId)` per id, in order. */
  function ClonesTo(ids: seq<string>, parentNoteId: string): (actions: seq<Action>)
    ensures |actions| == |ids| && forall i :: 0 <= i < |ids| ==> actions[i] == CloneNoteTo(ids[i], parentNoteId)
  {
    if ids == [] then [] else [CloneNoteTo(ids[0], parentNoteId)] + ClonesTo(ids[1..], parentNoteId)
  }

  /** `copy(nodes)`. */
  function CopyState(nodes: seq<TreeNode>): ClipState {
    ClipState(NoteIds(nodes), CopyMode)
  }

  /** `cut(nodes)`. */
  function CutState(nodes: seq<TreeNode>): ClipState {
    ClipState(Keys(nodes), CutMode)
  }

  /** `pasteAfter(node)`. */
  function PasteAfterResult(st: ClipState, node: TreeNode): Pasted {
    match st.mode
    case CutMode => Pasted(Empty, [MoveAfterNode(st.ids, node)])
    case CopyMode => Pasted(st, ClonesAfter(st.ids, node.branchId))
    case NoMode => if st.ids == [] then Pasted(st, []) else Pasted(st, [ThrowError(UnknownModeMessage)])
  }

  /** `pasteInto(node)`; its error branch names a variable `mode` that does
      not exist, so it would throw a `ReferenceError`. */
  function PasteIntoResult(st: ClipState, node: TreeNode): Pasted {
    match st.mode
    case CutMode => Pasted(Empty, [MoveToNode(st.ids, node), SetExpanded(node)])
    case CopyMode => Pasted(st, ClonesTo(st.ids, node.noteId) + [SetExpanded(node)])
    case NoMode => if st.ids == [] then Pasted(st, []) else Pasted(st, [ReferenceError("mode")])
  }

  // ---------------------------------------------------------------------
  // Properties

  /** Every operation keeps the invariant, starting from the empty clipboard. */
  lemma InvPreserved(st: ClipState, nodes: seq<TreeNode>, node: TreeNode)
    ensures Inv(Empty) && Inv(CopyState(nodes)) && Inv(CutState(nodes))
    ensures Inv(st) ==> Inv(PasteAfterResult(st, node).state) && Inv(PasteIntoResult(st, node).state)
  {
  }

  /** Under the invariant neither paste reaches its error branch. */
  lemma InvRulesOutErrors(st: ClipState, node: TreeNode)
    requires Inv(st)
    ensures forall a :: a in PasteAfterResult(st, node).actions ==> !IsError(a)
    ensures forall a :: a in PasteIntoResult(st, node).actions ==> !IsError(a)
  {
    if st.mode.CopyMode? {
      var after := ClonesAfter(st.ids, node.branchId);
      var into := ClonesTo(st.ids, node.noteId);
      forall a | a in after ensures !IsError(a) {
        var i :| 0 <= i < |after| && after[i] == a;
      }
      forall a | a in into + [SetExpanded(node)] ensures !IsError(a) {
        var i :| 0 <= i < |into + [SetExpanded(node)]| && (into + [SetExpanded(node)])[i] == a;
        if i < |into| {
          assert (into + [SetExpanded(node)])[i] == into[i];
        }
      }
    }
  }

  /** The error branch is only reached from a state that breaks the invariant. */
  lemma ErrorOnlyOutsideInv(st: ClipState, node: TreeNode)
    requires !Inv(st)
    ensures PasteAfterResult(st, node) == Pasted(st, [ThrowError(UnknownModeMessage)])
    ensures PasteIntoResult(st, node) == Pasted(st, [ReferenceError("mode")])
  {
  }

  /** After a copy, pasting clones each copied note after the target's
      branch, in order, and keeps the clipboard, so it can be repeated. */
  lemma CopyThenPasteAfter(nodes: seq<TreeNode>, node: TreeNode)
    ensures var p := PasteAfterResult(CopyState(nodes), node);
      && p.state == CopyState(nodes)
      && |p.actions| == |nodes|
      && forall i :: 0 <= i < |nodes| ==> p.actions[i] == CloneNoteAfter(nodes[i].noteId, node.branchId)
  {
  }

  /** After a copy, pasting into a node clones each copied note under the
      node's note, in order, expands the node, and keeps the clipboard. */
  lemma CopyThenPasteInto(nodes: seq<TreeNode>, node: TreeNode)
    ensures var p := PasteIntoResult(CopyState(nodes), node);
      && p.state == CopyState(nodes)
      && |p.actions| == |nodes| + 1
      && (forall i :: 0 <= i < |nodes| ==> p.actions[i] == CloneNoteTo(nodes[i].noteId, node.noteId))
      && p.actions[|nodes|] == SetExpanded(node)
  {
    var clones := ClonesTo(NoteIds(nodes), node.noteId);
    forall i | 0 <= i < |nodes|
      ensures PasteIntoResult(CopyState(nodes), node).actions[i] == CloneNoteTo(nodes[i].noteId, node.noteId)
    {
      assert (clones + [SetExpanded(node)])[i] == clones[i];
    }
  }

  /** After a cut, the first paste moves all cut nodes in one call and
      empties the clipboard; a second paste does nothing. */
  lemma CutThenPaste(nodes: seq<TreeNode>, node: TreeNode, other: TreeNode)
    ensures PasteAfterResult(CutState(nodes), node) == Pasted(Empty, [MoveAfterNode(Keys(nodes), node)])
    ensures PasteIntoResult(CutState(nodes), node) == Pasted(Empty, [MoveToNode(Keys(nodes), node), SetExpanded(node)])
    ensures PasteAfterResult(Empty, other) == Pasted(Empty, []) && PasteIntoResult(Empty, other) == Pasted(Empty, [])
  {
  }

  /** A paste either keeps the clipboard or empties it. */
  lemma PasteKeepsOrEmpties(st: ClipState, node: TreeNode)
    ensures PasteAfterResult(st, node).state in {st, Empty}
    ensures PasteIntoResult(st, node).state in {st, Empty}
    ensures PasteAfterResult(st, node).state == Empty <== st.mode.CutMode?
  {
  }

  // ---------------------------------------------------------------------
  // The module state

  class Board {
    var clipboardIds: seq<string>
    var clipboardMode: Mode
    /** The calls issued so far. */
    var emitted: seq<Action>

    function State(): ClipState
      reads this
    {
      ClipState(clipboardIds, clipboardMode)
    }

    constructor ()
      ensures State() == Empty && emitted == []
    {
      clipboardIds, clipboardMode, emitted := [], NoMode, [];
    }

    method PasteAfter(node: TreeNode)
      modifies this
      ensures State() == PasteAfterResult(old(State()), node).state
      ensures emitted == old(emitted) + PasteAfterResult(old(State()), node).actions
    {
      if clipboardMode == CutMode {
        emitted := emitted + [MoveAfterNode(clipboardIds, node)];
        clipboardIds := [];
        clipboardMode := NoMode;
      } else if clipboardMode == CopyMode {
        for i := 0 to |clipboardIds|
          invariant clipboardIds == old(clipboardIds) && clipboardMode == old(clipboardMode)
          invariant |emitted| == |old(emitted)| + i
          invariant emitted[..|old(emitted)|] == old(emitted)
          invariant forall k :: 0 <= k < i ==> emitted[|old(emitted)| + k] == CloneNoteAfter(clipboardIds[k], node.branchId)
        {
          emitted := emitted + [CloneNoteAfter(clipboardIds[i], node.branchId)];
        }
        assert emitted == old(emitted) + ClonesAfter(clipboardIds, node.branchId);
      } else if |clipboardIds| == 0 {
      } else {
        emitted := emitted + [ThrowError(UnknownModeMessage)];
      }
    }

    method PasteInto(node: TreeNode)
      modifies this
      ensures State() == PasteIntoResult(old(State()), node).state
      ensures emitted == old(emitted) + PasteIntoResult(old(State()), node).actions
    {
      if clipboardMode == CutMode {
        emitted := emitted + [MoveToNode(clipboardIds, node)];
        emitted := emitted + [SetExpanded(node)];
        clipboardIds := [];
        clipboardMode := NoMode;
      } else if clipboardMode == CopyMode {
        for i := 0 to |clipboardIds|
          invariant clipboardIds == old(clipboardIds) && clipboardMode == old(clipboardMode)
          invariant |emitted| == |old(emitted)| + i
          invariant emitted[..|old(emitted)|] == old(emitted)
          invariant forall k :: 0 <= k < i ==> emitted[|old(emitted)| + k] == CloneNoteTo(clipboardIds[k], node.noteId)
        {
          emitted := emitted + [CloneNoteTo(clipboardIds[i], node.noteId)];
        }
        assert emitted == old(emitted) + ClonesTo(clipboardIds, node.noteId);
        emitted := emitted + [SetExpanded(node)];
      } else if |clipboardIds| == 0 {
      } else {
        emitted := emitted + [ReferenceError("mode")];
      }
    }

    method Copy(nodes: seq<TreeNode>)
      modifies this
      ensures State() == CopyState(nodes) && emitted == old(emitted)
    {
      clipboardIds := NoteIds(nodes);
      clipboardMode := CopyMode;
    }

    method Cut(nodes: seq<TreeNode>)
      modifies this
      ensures State() == CutState(nodes) && emitted == old(emitted)
    {
      clipboardIds := Keys(nodes);
      clipboardMode := CutMode;
    }

    method IsEmpty() returns (empty: bool)
      ensures empty <==> |clipboardIds| == 0
    {
      empty := |clipboardIds| == 0;
    }
  }
}
