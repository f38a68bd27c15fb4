/** components/pdf-editor/drawing-canvas.tsx: the freehand stroke state machine of
    one page's ink canvas and the eraser's hit test. The component's props (tool,
    colour, stroke width, page index, the drawings list) are passed to each handler;
    the callbacks `onAddDrawing` and `onDeleteDrawing` become returned values. */
module DrawingCanvas {
  import opened Types
  import opened ArrayOps
  import EditorContext

  /** The eraser's reach beyond half the stroke width, in display pixels. */
  const EraserThreshold: real := 12.0

  const HighlightColor: string := "#FFEB3B"

  predicate IsDrawTool(tool: Tool) {
    tool == Draw || tool == Highlight
  }

  /** The canvas takes pointer events only for the draw, highlight and eraser tools. */
  predicate IsCanvasActive(tool: Tool) {
    IsDrawTool(tool) || tool == Eraser
  }

  function Square(v: real): real {
    v * v
  }

  /** The eraser at `e` touches the stroke point `p` of a stroke of the given width:
      strictly inside the circle of radius 12 plus half the width. */
  predicate Touches(p: Point, e: Point, width: real) {
    Square(p.x - e.x) + Square(p.y - e.y) < Square(EraserThreshold + width / 2.0)
  }

  /** Some point of the drawing is touched. */
  predicate Hit(d: DrawingPath, e: Point) {
    exists k :: 0 <= k < |d.points| && Touches(d.points[k], e, d.width)
  }

  function DrawingOnPage(page: int): DrawingPath -> bool {
    (d: DrawingPath) => d.pageIndex == page
  }

  /** What one drawing contributes to an erase: its id once if hit, else nothing. */
  function HitId(e: Point): DrawingPath -> seq<Id> {
    (d: DrawingPath) => if Hit(d, e) then [d.id] else []
  }

  /** The ids `eraseAt` deletes, in order. */
  function ErasedIds(drawings: seq<DrawingPath>, page: int, e: Point): seq<Id> {
    FlatMap(Filter(drawings, DrawingOnPage(page)), HitId(e))
  }

  /** The inner loop of `eraseAt`: scan the drawing's points and stop at the first
      one within reach of the eraser. */
  method TouchesAny(drawing: DrawingPath, point: Point) returns (found: bool)
    ensures found <==> Hit(drawing, point)
  {
    found := false;
    for j := 0 to |drawing.points|
      invariant !found
      invariant forall m :: 0 <= m < j ==> !Touches(drawing.points[m], point, drawing.width)
    {
      var p := drawing.points[j];
      var dx := p.x - point.x;
      var dy := p.y - point.y;
      var reach := EraserThreshold + drawing.width / 2.0;
      if dx * dx + dy * dy < reach * reach {
        assert Touches(p, point, drawing.width);
        found := true;
        break;
      }
    }
  }

  /** `eraseAt`: for each drawing of the page, scan its points and delete it at the
      first one touched, then move on to the next drawing. */
  method EraseAt(drawings: seq<DrawingPath>, pageIndex: int, point: Point) returns (deleted: seq<Id>)
    ensures deleted == ErasedIds(drawings, pageIndex, point)
  {
    var pageDrawings := Filter(drawings, DrawingOnPage(pageIndex));
    deleted := [];
    for i := 0 to |pageDrawings|
      invariant deleted == FlatMap(pageDrawings[..i], HitId(point))
    {
      var drawing := pageDrawings[i];
      var found := TouchesAny(drawing, point);
      if found {
        deleted := deleted + [drawing.id];
      }
      FlatMapSnoc(pageDrawings[..i], drawing, HitId(point));
      assert pageDrawings[..i + 1] == pageDrawings[..i] + [drawing];
    }
    assert pageDrawings[..|pageDrawings|] == pageDrawings;
  }

  function Ids(ds: seq<DrawingPath>): seq<Id> {
    seq(|ds|, k requires 0 <= k < |ds| => ds[k].id)
  }

  function HitOnPage(page: int, e: Point): DrawingPath -> bool {
    (d: DrawingPath) => d.pageIndex == page && Hit(d, e)
  }

  lemma IdsConcat(a: seq<DrawingPath>, b: seq<DrawingPath>)
    ensures Ids(a + b) == Ids(a) + Ids(b)
  {
  }

  /** What the first drawing of the list contributes, on both sides. */
  lemma ErasedHead(d: DrawingPath, page: int, e: Point)
    ensures FlatMap(if d.pageIndex == page then [d] else [], HitId(e))
         == Ids(if HitOnPage(page, e)(d) then [d] else [])
  {
    if d.pageIndex == page {
      assert FlatMap([d], HitId(e)) == HitId(e)(d) + FlatMap([d][1..], HitId(e));
    }
  }

  /** The erased ids are the ids of the page's hit drawings, one per drawing, in
      list order. */
  lemma {:induction false} ErasedIdsAreHitDrawings(drawings: seq<DrawingPath>, page: int, e: Point)
    ensures ErasedIds(drawings, page, e) == Ids(Filter(drawings, HitOnPage(page, e)))
  {
    if drawings != [] {
      var d := drawings[0];
      var rest := drawings[1..];
      ErasedIdsAreHitDrawings(rest, page, e);
      var onPage := if d.pageIndex == page then [d] else [];
      var hits := if HitOnPage(page, e)(d) then [d] else [];
      var restOnPage := Filter(rest, DrawingOnPage(page));
      var restHits := Filter(rest, HitOnPage(page, e));
      assert Filter(drawings, DrawingOnPage(page)) == onPage + restOnPage;
      assert Filter(drawings, HitOnPage(page, e)) == hits + restHits;
      FlatMapConcat(onPage, restOnPage, HitId(e));
      ErasedHead(d, page, e);
      IdsConcat(hits, restHits);
    }
  }

  /** A drawing is erased exactly when it lies on the page and one of its points is
      touched; drawings of other pages are never erased, and no drawing more than once. */
  lemma ErasedIdsMembers(drawings: seq<DrawingPath>, page: int, e: Point, id: Id)
    ensures id in ErasedIds(drawings, page, e)
        <==> exists d :: d in drawings && d.pageIndex == page && Hit(d, e) && d.id == id
    ensures |ErasedIds(drawings, page, e)| <= |Filter(drawings, DrawingOnPage(page))|
  {
    ErasedIdsAreHitDrawings(drawings, page, e);
    var hits := Filter(drawings, HitOnPage(page, e));
    if id in Ids(hits) {
      var k :| 0 <= k < |hits| && Ids(hits)[k] == id;
      assert hits[k] in hits;
    }
    if exists d :: d in drawings && d.pageIndex == page && Hit(d, e) && d.id == id {
      var d :| d in drawings && d.pageIndex == page && Hit(d, e) && d.id == id;
      assert d in hits;
      var k :| 0 <= k < |hits| && hits[k] == d;
      assert Ids(hits)[k] == id;
    }
    HitsWithinPage(drawings, page, e);
  }

  lemma {:induction false} HitsWithinPage(drawings: seq<DrawingPath>, page: int, e: Point)
    ensures |Filter(drawings, HitOnPage(page, e))| <= |Filter(drawings, DrawingOnPage(page))|
  {
    if drawings != [] {
      HitsWithinPage(drawings[1..], page, e);
    }
  }

  /** A stroke of side 40 drawn from the origin: erasing at its first point deletes
      it, erasing at (100, 100) does not. */
  lemma EraserExample()
    ensures var d := DrawingPath("d1", 0, [Point(0.0, 0.0), Point(40.0, 0.0), Point(40.0, 40.0), Point(0.0, 40.0)],
                                 "#000000", 3.0, 1.0);
      && ErasedIds([d], 0, Point(0.0, 0.0)) == ["d1"]
      && ErasedIds([d], 0, Point(100.0, 100.0)) == []
      && ErasedIds([d], 1, Point(0.0, 0.0)) == []
  {
    var d := DrawingPath("d1", 0, [Point(0.0, 0.0), Point(40.0, 0.0), Point(40.0, 40.0), Point(0.0, 40.0)],
                         "#000000", 3.0, 1.0);
    assert Touches(d.points[0], Point(0.0, 0.0), 3.0);
    assert Hit(d, Point(0.0, 0.0));
    assert Filter([d], DrawingOnPage(0)) == [d];
    assert FlatMap([d], HitId(Point(0.0, 0.0))) == ["d1"] + FlatMap([d][1..], HitId(Point(0.0, 0.0)));
    assert !Hit(d, Point(100.0, 100.0)) by {
      forall k | 0 <= k < |d.points| ensures !Touches(d.points[k], Point(100.0, 100.0), 3.0) { }
    }
    assert FlatMap([d], HitId(Point(100.0, 100.0))) == [] + FlatMap([d][1..], HitId(Point(100.0, 100.0)));
    assert Filter([d], DrawingOnPage(1)) == [];
  }

  /** The `DELETE_DRAWING` actions of one erase, in order. */
  function DeleteActions(ids: seq<Id>): seq<EditorAction> {
    seq(|ids|, k requires 0 <= k < |ids| => DeleteDrawing(ids[k]))
  }

  lemma {:induction false} RunDeletes(s: EditorState, ids: seq<Id>)
    ensures forall d :: d in EditorContext.Run(s, DeleteActions(ids)).drawings <==> d in s.drawings && d.id !in ids
    decreases |ids|
  {
    if ids != [] {
      var s' := EditorContext.Step(s, DeleteDrawing(ids[0]));
      EditorContext.DeleteDrawingRemoves(s, ids[0]);
      assert DeleteActions(ids)[1..] == DeleteActions(ids[1..]);
      RunDeletes(s', ids[1..]);
      assert forall x :: x in ids <==> x == ids[0] || x in ids[1..];
    }
  }

  /** Once the reducer has applied an erase, no drawing of the page is hit at that
      point, and every drawing that was not hit is still there. */
  lemma EraseClearsHits(s: EditorState, page: int, e: Point)
    ensures var r := EditorContext.Run(s, DeleteActions(ErasedIds(s.drawings, page, e)));
      && (forall d :: d in r.drawings ==> !(d.pageIndex == page && Hit(d, e)))
      && (forall d :: d in s.drawings && !(d.pageIndex == page && Hit(d, e))
            && (forall h :: h in s.drawings && h.pageIndex == page && Hit(h, e) ==> h.id != d.id)
            ==> d in r.drawings)
  {
    var ids := ErasedIds(s.drawings, page, e);
    RunDeletes(s, ids);
    forall d | d in s.drawings
      ensures d.id in ids <==> exists h :: h in s.drawings && h.pageIndex == page && Hit(h, e) && h.id == d.id
    {
      ErasedIdsMembers(s.drawings, page, e, d.id);
    }
  }

  /** The drawing a release commits; a highlight gets the fixed yellow, three times
      the stroke width and opacity 0.35. Any other tool draws with the current
      colour and width, fully opaque. */
  function CommittedStroke(id: Id, pageIndex: int, points: seq<Point>, tool: Tool,
                           color: string, strokeWidth: real): (d: DrawingPath)
    ensures d.points == points && d.id == id && d.pageIndex == pageIndex
    ensures tool == Highlight ==> d.color == HighlightColor && d.width == 3.0 * strokeWidth && d.opacity == 0.35
    ensures tool != Highlight ==> d.color == color && d.width == strokeWidth && d.opacity == 1.0
  {
    DrawingPath(id, pageIndex, points,
                if tool == Highlight then HighlightColor else color,
                if tool == Highlight then strokeWidth * 3.0 else strokeWidth,
                if tool == Highlight then 0.35 else 1.0)
  }

  /** The canvas's refs: whether a gesture is in progress and the stroke so far. */
  class StrokeCanvas {
    var isDrawing: bool
    var currentPath: seq<Point>

    constructor()
      ensures !isDrawing && currentPath == []
    {
      isDrawing := false;
      currentPath := [];
    }

    /** `handleMouseDown`: inactive tools do nothing; draw and highlight start a new
        path at the point; the eraser erases there. Returns the ids to delete. */
    method MouseDown(tool: Tool, point: Point, pageIndex: int, drawings: seq<DrawingPath>)
      returns (deleted: seq<Id>)
      modifies this
      ensures !IsCanvasActive(tool) ==> isDrawing == old(isDrawing) && currentPath == old(currentPath) && deleted == []
      ensures IsCanvasActive(tool) ==> isDrawing
      ensures IsDrawTool(tool) ==> currentPath == [point] && deleted == []
      ensures tool == Eraser ==> currentPath == old(currentPath) && deleted == ErasedIds(drawings, pageIndex, point)
    {
      deleted := [];
      if !IsCanvasActive(tool) {
        return;
      }
      isDrawing := true;
      if tool == Eraser {
        deleted := EraseAt(drawings, pageIndex, point);
      } else {
        currentPath := [point];
      }
    }

    /** `handleMouseMove`: ignored unless a gesture is in progress on an active
        canvas; then the eraser erases, and a drawing tool appends exactly one point. */
    method MouseMove(tool: Tool, point: Point, pageIndex: int, drawings: seq<DrawingPath>)
      returns (deleted: seq<Id>)
      modifies this
      ensures isDrawing == old(isDrawing)
      ensures !old(isDrawing) || !IsCanvasActive(tool) ==> currentPath == old(currentPath) && deleted == []
      ensures old(isDrawing) && tool == Eraser ==>
        currentPath == old(currentPath) && deleted == ErasedIds(drawings, pageIndex, point)
      ensures old(isDrawing) && IsDrawTool(tool) ==> currentPath == old(currentPath) + [point] && deleted == []
    {
      deleted := [];
      if !isDrawing || !IsCanvasActive(tool) {
        return;
      }
      if tool == Eraser {
        deleted := EraseAt(drawings, pageIndex, point);
        return;
      }
      currentPath := currentPath + [point];
    }

    /** `handleMouseUp`, also bound to mouse-leave: ends the gesture. Outside eraser
        mode it commits the path when it has at least two points and clears it. The
        release itself does not check that the tool is a drawing tool. */
    method MouseUp(tool: Tool, color: string, strokeWidth: real, pageIndex: int, newId: Id)
      returns (committed: Option<DrawingPath>)
      modifies this
      ensures !isDrawing
      ensures !old(isDrawing) || tool == Eraser ==> currentPath == old(currentPath) && committed == None
      ensures old(isDrawing) && tool != Eraser ==> currentPath == []
      ensures old(isDrawing) && tool != Eraser ==> (committed.Some? <==> |old(currentPath)| >= 2)
      ensures committed.Some? ==>
        committed.value == CommittedStroke(newId, pageIndex, old(currentPath), tool, color, strokeWidth)
    {
      committed := None;
      if !isDrawing {
        return;
      }
      isDrawing := false;
      if tool == Eraser {
        return;
      }
      if |currentPath| >= 2 {
        committed := Some(CommittedStroke(newId, pageIndex, currentPath, tool, color, strokeWidth));
      }
      currentPath := [];
    }
  }

  /** A whole gesture with a drawing tool on a fresh canvas: press, `moves`, release.
      It commits the stroke through every point exactly when the pointer moved at
      least once, and leaves the canvas idle with an empty path. */
  method DrawGesture(tool: Tool, start: Point, moves: seq<Point>, color: string, strokeWidth: real,
                     pageIndex: int, drawings: seq<DrawingPath>, newId: Id)
    returns (committed: Option<DrawingPath>)
    requires IsDrawTool(tool)
    ensures |moves| == 0 ==> committed == None
    ensures |moves| >= 1 ==>
      committed == Some(CommittedStroke(newId, pageIndex, [start] + moves, tool, color, strokeWidth))
  {
    var canvas := new StrokeCanvas();
    var _ := canvas.MouseDown(tool, start, pageIndex, drawings);
    for k := 0 to |moves|
      invariant canvas.isDrawing && canvas.currentPath == [start] + moves[..k]
    {
      var _ := canvas.MouseMove(tool, moves[k], pageIndex, drawings);
      assert moves[..k + 1] == moves[..k] + [moves[k]];
    }
    assert moves[..|moves|] == moves;
    committed := canvas.MouseUp(tool, color, strokeWidth, pageIndex, newId);
  }
}
