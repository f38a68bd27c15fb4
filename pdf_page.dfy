/** One rendered page (components/pdf-editor/pdf-page.tsx): a click on the page
    either deselects or, with the text tool, places a new text block; and each
    render of the page's canvas records the page's display dimensions once it
    completes. The page's layers are modelled in their own modules. */
module PdfPage {
  import opened Types
  import opened ArrayOps
  import opened EditorContext
  import opened TextBlockView

  const NewBlockWidth: real := 200.0
  const NewBlockFontFamily: string := "Helvetica, sans-serif"

  /** The block a text-tool click creates, at the click's offset in the page. */
  function NewTextBlock(id: Id, pageIndex: int, x: real, y: real, color: string, fontSize: real): TextBlock {
    TextBlock(id, pageIndex, x, y, NewBlockWidth, "", fontSize, NewBlockFontFamily, color, false, false)
  }

  /** `handlePageClick`, as the callbacks it issues in order. The click is at
      `(clientX, clientY)` on screen and the page's corner at `(left, top)`;
      `newId` is the id the random generator returns. */
  function PageClick(tool: Tool, pageIndex: int, color: string, fontSize: real,
                     clientX: real, clientY: real, left: real, top: real, newId: Id): seq<Callback>
  {
    [Dispatch(SelectExtractedText(None))] +
    if tool != Text then
      [SelectTextBlock(None)]
    else
      var block := NewTextBlock(newId, pageIndex, clientX - left, clientY - top, color, fontSize);
      [Dispatch(AddTextBlock(block)), SelectTextBlock(Some(block.id))]
  }

  /** Every click clears the extracted-text selection. With any tool but the text
      tool it also clears the active block and changes nothing else. With the text
      tool it appends exactly one block, on this page at the click offset, with
      empty text, width 200, a plain Helvetica face and the current colour and size,
      and makes that block active. */
  lemma PageClickEffects(v: ViewerState, tool: Tool, pageIndex: int, color: string, fontSize: real,
                         clientX: real, clientY: real, left: real, top: real, newId: Id)
    ensures var w := DeliverAll(v, PageClick(tool, pageIndex, color, fontSize, clientX, clientY, left, top, newId));
      w.store.selectedExtractedTextId == None
    ensures var w := DeliverAll(v, PageClick(tool, pageIndex, color, fontSize, clientX, clientY, left, top, newId));
      tool != Text ==> w.active == None && w.store == v.store.(selectedExtractedTextId := None)
    ensures var w := DeliverAll(v, PageClick(tool, pageIndex, color, fontSize, clientX, clientY, left, top, newId));
      tool == Text ==>
        && |w.store.textBlocks| == |v.store.textBlocks| + 1
        && w.store.textBlocks[..|v.store.textBlocks|] == v.store.textBlocks
        && var b := w.store.textBlocks[|v.store.textBlocks|];
        && b.id == newId && b.pageIndex == pageIndex
        && b.x == clientX - left && b.y == clientY - top
        && b.text == "" && b.width == 200.0
        && b.fontFamily == "Helvetica, sans-serif" && !b.bold && !b.italic
        && b.color == color && b.fontSize == fontSize
        && w.active == Some(newId)
        && w.store.(textBlocks := v.store.textBlocks) == v.store.(selectedExtractedTextId := None)
  {
    var cs := PageClick(tool, pageIndex, color, fontSize, clientX, clientY, left, top, newId);
    var u := Deliver(v, cs[0]);
    assert u == ViewerState(v.store.(selectedExtractedTextId := None), v.active);
    if tool != Text {
      assert cs[1..] == [SelectTextBlock(None)];
      assert DeliverAll(v, cs) == DeliverAll(u, cs[1..]);
    } else {
      var block := NewTextBlock(newId, pageIndex, clientX - left, clientY - top, color, fontSize);
      assert cs[1..] == [Dispatch(AddTextBlock(block)), SelectTextBlock(Some(newId))];
      var u2 := Deliver(u, cs[1]);
      assert u2.store.textBlocks == v.store.textBlocks + [block];
      assert cs[1..][1..] == [SelectTextBlock(Some(newId))];
      assert DeliverAll(v, cs) == DeliverAll(u2, cs[1..][1..]);
      assert DeliverAll(u2, cs[1..][1..]) == u2.(active := Some(newId));
    }
  }

  /** The viewport scale of a render: 1.5 times the zoom, kept in hundredths. */
  function RenderScale(zoom: int): (scale: real)
    ensures zoom > 0 ==> scale > 0.0
    ensures zoom == 100 ==> scale == 1.5
  {
    1.5 * (zoom as real) / 100.0
  }

  /** The action a completed render reports through `onSetPageDimensions`. */
  function RecordedDimensions(pageIndex: int, zoom: int, width: real, height: real): EditorAction {
    SetPageDimensions(pageIndex, PageDimensions(width, height, RenderScale(zoom)))
  }

  /** Recording a completed render sets this page's entry to the viewport's size
      and scale, leaves every other page's entry alone and changes nothing else. */
  lemma RecordedDimensionsUpsert(s: EditorState, pageIndex: int, zoom: int, width: real, height: real)
    ensures var r := Step(s, RecordedDimensions(pageIndex, zoom, width, height));
      && pageIndex in r.pageDimensions
      && r.pageDimensions[pageIndex] == PageDimensions(width, height, 1.5 * (zoom as real) / 100.0)
      && (forall p :: p != pageIndex ==>
            (p in r.pageDimensions <==> p in s.pageDimensions)
            && (p in s.pageDimensions ==> r.pageDimensions[p] == s.pageDimensions[p]))
      && r.(pageDimensions := s.pageDimensions) == s
  {
    SetPageDimensionsUpserts(s, pageIndex, PageDimensions(width, height, RenderScale(zoom)));
  }

  /** The WebIDL `unsigned long` conversion an assignment to `canvas.width` or
      `canvas.height` makes: truncation toward zero, then wrap-around modulo 2^32. */
  function ToUnsignedLong(v: real): (n: nat)
    ensures n < 0x1_0000_0000
    ensures 0.0 <= v < 4294967296.0 ==> n == v.Floor && n as real <= v < n as real + 1.0
  {
    var t := if v >= 0.0 then v.Floor else -((-v).Floor);
    t % 0x1_0000_0000
  }

  /** The largest value a reflected non-negative integer attribute keeps. */
  const MaxReflected := 0x7FFF_FFFF

  /** Setting `canvas.width` (default 300) or `canvas.height` (default 150): the
      `unsigned long` conversion, then HTML's reflection, which stores the default
      instead of any converted value above 2^31 - 1. */
  function CanvasSize(v: real, default: nat): (n: nat)
    requires default <= MaxReflected
    ensures n <= MaxReflected
    ensures ToUnsignedLong(v) <= MaxReflected ==> n == ToUnsignedLong(v)
    ensures ToUnsignedLong(v) > MaxReflected ==> n == default
    ensures 0.0 <= v < 2147483648.0 ==> n == v.Floor
    ensures -2147483648.0 < v <= -1.0 ==> n == default
  {
    var u := ToUnsignedLong(v);
    if u <= MaxReflected then u else default
  }

  /** A fractional viewport size loses its fraction on the canvas: a 612-point page
      at zoom 1.25 renders at scale 1.875 to a viewport 1147.5 wide, and the canvas
      becomes 1147 wide. A size of 2^31, or of -1, leaves the canvas at its default. */
  lemma CanvasTruncatesExample()
    ensures RenderScale(125) == 1.875
    ensures CanvasSize(612.0 * RenderScale(125), 300) == 1147
    ensures CanvasSize(2147483648.0, 300) == 300
    ensures CanvasSize(-1.0, 150) == 150
  {
    assert 612.0 * 1.875 == 1147.5;
    assert 1147.5.Floor == 1147;
  }

  /** The page's render bookkeeping (`renderPage`): the canvas size, the render
      tasks started so far with the dimensions each will report, the current task
      (`renderTaskRef`), and which tasks have been cancelled or have settled.
      pdf.js itself is outside the model: a task's completion or failure arrives
      as a call to `Settle`. */
  class PageRenderer {
    const pageIndex: int
    var canvasWidth: nat
    var canvasHeight: nat
    var tasks: seq<PageDimensions>
    var renderTask: Option<nat>
    var cancelled: set<nat>
    var settled: set<nat>

    /** Only the latest task is current, and every earlier task has settled or
        been cancelled, so at most one render can still report. */
    predicate Valid()
      reads this
    {
      && renderTask == (if tasks == [] then None else Some(|tasks| - 1))
      && (forall t :: t in cancelled ==> t < |tasks|)
      && (forall t :: t in settled ==> t < |tasks|)
      && (forall t: nat :: t + 1 < |tasks| ==> t in cancelled || t in settled)
    }

    /** A page starts with no render task and a canvas of the HTML default size, 300 by 150. */
    constructor(pageIndex: int)
      ensures Valid()
      ensures this.pageIndex == pageIndex && tasks == [] && cancelled == {} && settled == {}
      ensures canvasWidth == 300 && canvasHeight == 150
    {
      this.pageIndex := pageIndex;
      canvasWidth, canvasHeight := 300, 150;
      tasks := [];
      renderTask := None;
      cancelled, settled := {}, {};
    }

    /** The synchronous part of `renderPage`: without a canvas nothing happens;
        otherwise the current task is cancelled if it is still running, the canvas
        takes the viewport's size, and a new task becomes current. `width` and
        `height` are the viewport pdf.js computes at `RenderScale(zoom)`. */
    method StartRender(hasCanvas: bool, zoom: int, width: real, height: real)
      returns (task: Option<nat>)
      requires Valid()
      modifies this
      ensures Valid()
      ensures !hasCanvas ==> task == None && unchanged(this)
      ensures hasCanvas ==>
        && task == Some(|old(tasks)|)
        && tasks == old(tasks) + [PageDimensions(width, height, RenderScale(zoom))]
        && canvasWidth == CanvasSize(width, 300) && canvasHeight == CanvasSize(height, 150)
        && settled == old(settled)
        && cancelled == old(cancelled) +
             (if old(renderTask).Some? && old(renderTask).value !in old(settled)
              then {old(renderTask).value} else {})
    {
      if !hasCanvas {
        return None;
      }
      if renderTask.Some? && renderTask.value !in settled {
        cancelled := cancelled + {renderTask.value};
      }
      canvasWidth, canvasHeight := CanvasSize(width, 300), CanvasSize(height, 150);
      task := Some(|tasks|);
      tasks := tasks + [PageDimensions(width, height, RenderScale(zoom))];
      renderTask := task;
    }

    /** The awaited part of `renderPage`: a task settles once. A task that was
        cancelled, or whose render failed, reports nothing; a task that completes
        reports its own dimensions. */
    method Settle(task: nat, completed: bool) returns (recorded: Option<EditorAction>)
      requires Valid()
      requires task < |tasks| && task !in settled
      modifies this
      ensures Valid()
      ensures settled == old(settled) + {task}
      ensures tasks == old(tasks) && cancelled == old(cancelled) && renderTask == old(renderTask)
      ensures canvasWidth == old(canvasWidth) && canvasHeight == old(canvasHeight)
      ensures recorded.Some? <==> completed && task !in cancelled
      ensures recorded.Some? ==> recorded == Some(SetPageDimensions(pageIndex, tasks[task]))
      ensures recorded.Some? ==> renderTask == Some(task)
    {
      settled := settled + {task};
      if completed && task !in cancelled {
        recorded := Some(SetPageDimensions(pageIndex, tasks[task]));
      } else {
        recorded := None;
      }
    }
  }

  /** A zoom change while a render is running: the first render is cancelled by
      the second, so only the second, at the new zoom, records dimensions. */
  method RerenderOnZoom(pageIndex: int, zoom1: int, w1: real, h1: real,
                        zoom2: int, w2: real, h2: real)
    returns (first: Option<EditorAction>, second: Option<EditorAction>)
    ensures first == None
    ensures second == Some(RecordedDimensions(pageIndex, zoom2, w2, h2))
  {
    var r := new PageRenderer(pageIndex);
    var t1 := r.StartRender(true, zoom1, w1, h1);
    var t2 := r.StartRender(true, zoom2, w2, h2);
    first := r.Settle(t1.value, true);
    second := r.Settle(t2.value, true);
  }

  /** The text blocks the page shows: none while a drawing tool is active,
      otherwise those on this page in store order. */
  function ShownTextBlocks(tool: Tool, pageIndex: int, blocks: seq<TextBlock>): (r: seq<TextBlock>)
    ensures tool == Draw || tool == Highlight ==> r == []
    ensures tool != Draw && tool != Highlight ==>
      forall b :: b in r <==> b in blocks && b.pageIndex == pageIndex
    ensures |r| <= |blocks|
  {
    if tool == Draw || tool == Highlight then []
    else Filter(blocks, (b: TextBlock) => b.pageIndex == pageIndex)
  }
}
