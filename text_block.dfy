/** A free text block on a page (components/pdf-editor/text-block.tsx): a frame
    that is dragged by its border, a textarea that edits the block's text, and a
    delete button shown while the block is active. The widget's own state is the
    drag flag and the grab offset; everything else goes out through callbacks,
    which the document viewer (components/pdf-editor/pdf-viewer.tsx) turns into
    store actions or into a change of the active block. */
module TextBlockView {
  import opened Types
  import opened ArrayOps
  import opened EditorContext

  /** What a page-level widget asks of the viewer: a store action, or a new
      active text block (`onSelect`, which the viewer keeps outside the store). */
  datatype Callback = Dispatch(action: EditorAction) | SelectTextBlock(selection: Option<Id>)

  /** The store together with the viewer's active text block. */
  datatype ViewerState = ViewerState(store: EditorState, active: Option<Id>)

  /** How the viewer handles one callback: actions go to the reducer, and
      deleting the active block also clears the active block. */
  function Deliver(v: ViewerState, c: Callback): ViewerState {
    match c
    case SelectTextBlock(sel) => v.(active := sel)
    case Dispatch(a) =>
      var active := if a.DeleteTextBlock? && v.active == Some(a.id) then None else v.active;
      ViewerState(Step(v.store, a), active)
  }

  function DeliverAll(v: ViewerState, cs: seq<Callback>): ViewerState
    decreases |cs|
  {
    if cs == [] then v else DeliverAll(Deliver(v, cs[0]), cs[1..])
  }

  /** `Math.max(0, v)`: a coordinate a drag may produce. */
  function ClampToPage(v: real): (r: real)
    ensures r >= 0.0 && r >= v
    ensures r == v || r == 0.0
  {
    if v >= 0.0 then v else 0.0
  }

  /** The patch one drag step sends: the new position and nothing else. */
  function MovePatch(x: real, y: real): TextBlockPatch {
    EmptyPatch.(x := Some(ClampToPage(x)), y := Some(ClampToPage(y)))
  }

  /** The widget's mutable state: whether a drag is in progress and where inside
      the frame the pointer grabbed it. */
  class TextBlockWidget {
    var isDragging: bool
    var dragOffset: Point

    constructor()
      ensures !isDragging && dragOffset == Point(0.0, 0.0)
    {
      isDragging := false;
      dragOffset := Point(0.0, 0.0);
    }

    /** `handleMouseDown`: a press on the textarea is left to the textarea; a
        press on the frame selects the block, starts a drag and records the grab
        point relative to the frame's corner. */
    method MouseDown(block: TextBlock, onTextarea: bool, clientX: real, clientY: real,
                     frameLeft: real, frameTop: real)
      returns (callback: Option<Callback>)
      modifies this
      ensures onTextarea ==>
        callback == None && isDragging == old(isDragging) && dragOffset == old(dragOffset)
      ensures !onTextarea ==>
        && callback == Some(SelectTextBlock(Some(block.id)))
        && isDragging
        && dragOffset == Point(clientX - frameLeft, clientY - frameTop)
    {
      if onTextarea {
        return None;
      }
      callback := Some(SelectTextBlock(Some(block.id)));
      isDragging := true;
      dragOffset := Point(clientX - frameLeft, clientY - frameTop);
    }

    /** The window `mousemove` listener, which exists only while dragging: the
        frame's corner follows the pointer minus the grab offset, relative to the
        parent, and is clamped to the parent's top-left edges. A frame without a
        parent element moves nothing. */
    method MouseMove(block: TextBlock, hasParent: bool, clientX: real, clientY: real,
                     parentLeft: real, parentTop: real)
      returns (callback: Option<Callback>)
      ensures callback.Some? <==> isDragging && hasParent
      ensures callback.Some? ==> callback.value.Dispatch?
      ensures callback.Some? ==>
        var a := callback.value.action;
        && a.UpdateTextBlock? && a.id == block.id
        && a.updates.x == Some(ClampToPage(clientX - parentLeft - dragOffset.x))
        && a.updates.y == Some(ClampToPage(clientY - parentTop - dragOffset.y))
        && a.updates.(x := None, y := None) == EmptyPatch
    {
      if !isDragging || !hasParent {
        return None;
      }
      var x := clientX - parentLeft - dragOffset.x;
      var y := clientY - parentTop - dragOffset.y;
      callback := Some(Dispatch(UpdateTextBlock(block.id, MovePatch(x, y))));
    }

    /** The window `mouseup` listener: the drag ends. */
    method MouseUp()
      modifies this
      ensures !isDragging && dragOffset == old(dragOffset)
    {
      isDragging := false;
    }
  }

  /** A whole drag on a fresh widget: the frame sits at `(blockX, blockY)` inside a parent
      whose corner is at `(px, py)` on screen; the user grabs it at `(gx, gy)`
      inside the frame and moves the pointer by `(dx, dy)`. The block is asked to
      move by exactly that amount, clamped at zero, and the drag has ended. */
  method DragBy(block: TextBlock, px: real, py: real, blockX: real, blockY: real,
                gx: real, gy: real, dx: real, dy: real)
    returns (down: Option<Callback>, move: Option<Callback>)
    ensures down == Some(SelectTextBlock(Some(block.id)))
    ensures move == Some(Dispatch(UpdateTextBlock(block.id, MovePatch(blockX + dx, blockY + dy))))
  {
    var w := new TextBlockWidget();
    var frameLeft, frameTop := px + blockX, py + blockY;
    down := w.MouseDown(block, false, frameLeft + gx, frameTop + gy, frameLeft, frameTop);
    move := w.MouseMove(block, true, frameLeft + gx + dx, frameTop + gy + dy, px, py);
    assert (frameLeft + gx + dx) - px - w.dragOffset.x == blockX + dx;
    assert (frameTop + gy + dy) - py - w.dragOffset.y == blockY + dy;
    w.MouseUp();
  }

  /** After a drag step the dragged block lies at non-negative coordinates, keeps
      every other field, and no other block moves. */
  lemma DragNeverNegative(s: EditorState, id: Id, x: real, y: real)
    ensures var r := Step(s, UpdateTextBlock(id, MovePatch(x, y)));
      && |r.textBlocks| == |s.textBlocks|
      && (forall k :: 0 <= k < |r.textBlocks| && s.textBlocks[k].id == id ==>
            && r.textBlocks[k].x >= 0.0 && r.textBlocks[k].y >= 0.0
            && r.textBlocks[k].x >= x && r.textBlocks[k].y >= y
            && r.textBlocks[k].(x := 0.0, y := 0.0) == s.textBlocks[k].(x := 0.0, y := 0.0))
      && (forall k :: 0 <= k < |r.textBlocks| && s.textBlocks[k].id != id ==>
            r.textBlocks[k] == s.textBlocks[k])
  {
    UpdateTextBlockPatches(s, id, MovePatch(x, y));
  }

  /** `handleKeyDown`: Backspace in an empty block deletes it; every other key,
      and Backspace in a block with text, is left to the textarea. */
  function KeyDown(block: TextBlock, key: string): Option<Callback> {
    if key == "Backspace" && block.text == "" then Some(Dispatch(DeleteTextBlock(block.id)))
    else None
  }

  /** Backspace deletes the block exactly when its text is empty: afterwards no
      block with its id remains and it is no longer active; otherwise nothing
      changes. */
  lemma BackspaceDeletesEmpty(v: ViewerState, block: TextBlock, key: string)
    ensures var c := KeyDown(block, key);
      c.Some? <==> key == "Backspace" && block.text == ""
    ensures var c := KeyDown(block, key);
      c.Some? ==>
        var w := Deliver(v, c.value);
        && (forall b :: b in w.store.textBlocks <==> b in v.store.textBlocks && b.id != block.id)
        && w.store.(textBlocks := v.store.textBlocks) == v.store
        && w.active != Some(block.id)
        && (v.active != Some(block.id) ==> w.active == v.active)
  {
    if key == "Backspace" && block.text == "" {
      DeleteTextBlockRemoves(v.store, block.id);
    }
  }

  /** The textarea's `onChange`: one text update for this block. */
  function TextChange(block: TextBlock, value: string): Callback {
    Dispatch(UpdateTextBlock(block.id, EmptyPatch.(text := Some(value))))
  }

  /** Typing sets the text of every block with this id and changes nothing else. */
  lemma TextChangeSetsText(v: ViewerState, block: TextBlock, value: string)
    ensures var w := Deliver(v, TextChange(block, value));
      && w.active == v.active
      && |w.store.textBlocks| == |v.store.textBlocks|
      && (forall k :: 0 <= k < |v.store.textBlocks| && v.store.textBlocks[k].id == block.id ==>
            w.store.textBlocks[k] == v.store.textBlocks[k].(text := value))
      && (forall k :: 0 <= k < |v.store.textBlocks| && v.store.textBlocks[k].id != block.id ==>
            w.store.textBlocks[k] == v.store.textBlocks[k])
      && w.store.(textBlocks := v.store.textBlocks) == v.store
  {
    UpdateTextBlockPatches(v.store, block.id, EmptyPatch.(text := Some(value)));
  }

  /** A click on the frame selects the block. */
  function FrameClick(block: TextBlock): Callback {
    SelectTextBlock(Some(block.id))
  }

  /** The delete button exists only while the block is active. */
  function DeleteButton(block: TextBlock, isActive: bool): Option<Callback> {
    if isActive then Some(Dispatch(DeleteTextBlock(block.id))) else None
  }

  /** Clicking the frame makes the block active, and the delete button it then
      shows removes the block and leaves no block active. */
  lemma SelectThenDelete(v: ViewerState, block: TextBlock)
    ensures Deliver(v, FrameClick(block)).active == Some(block.id)
    ensures Deliver(v, FrameClick(block)).store == v.store
    ensures var u := Deliver(v, FrameClick(block));
      var w := Deliver(u, DeleteButton(block, u.active == Some(block.id)).value);
      && w.active == None
      && (forall b :: b in w.store.textBlocks <==> b in v.store.textBlocks && b.id != block.id)
      && w.store.(textBlocks := v.store.textBlocks) == v.store
    ensures DeleteButton(block, false) == None
  {
    DeleteTextBlockRemoves(v.store, block.id);
  }
}
