/** The annotation store of lib/editor-context.tsx: its initial state and the
    reducer `editorReducer`, a pure and total function of (state, action). */
module EditorContext {
  import opened Types
  import opened ArrayOps

  /** `initialState`. It declares no `pagination` field, so that field is absent. */
  const InitialState := EditorState(
    None, "", 0, Tool.Select, "#000000", 16.0, 3.0, [], [], [], map[], 100, None, None)

  /** `{ ...b, ...updates }` on a text block. */
  function ApplyPatch(b: TextBlock, p: TextBlockPatch): TextBlock {
    TextBlock(
      p.id.GetOr(b.id), p.pageIndex.GetOr(b.pageIndex), p.x.GetOr(b.x), p.y.GetOr(b.y),
      p.width.GetOr(b.width), p.text.GetOr(b.text), p.fontSize.GetOr(b.fontSize),
      p.fontFamily.GetOr(b.fontFamily), p.color.GetOr(b.color), p.bold.GetOr(b.bold),
      p.italic.GetOr(b.italic))
  }

  /** Later spread wins: the patch's field when present, else the earlier one. */
  function Over<T>(later: Option<T>, earlier: Option<T>): Option<T> {
    if later.Some? then later else earlier
  }

  /** `{ ...t.styleEdits, ...edits }`; spreading `null` contributes no field. */
  function MergeStyleEdits(previous: Option<StyleEdits>, edits: StyleEdits): StyleEdits {
    var base := previous.GetOr(NoStyleEdits);
    StyleEdits(
      Over(edits.fontSize, base.fontSize), Over(edits.isBold, base.isBold),
      Over(edits.isItalic, base.isItalic), Over(edits.color, base.color),
      Over(edits.cssFontFamily, base.cssFontFamily))
  }

  function UpdateBlocks(blocks: seq<TextBlock>, id: Id, p: TextBlockPatch): seq<TextBlock> {
    seq(|blocks|, k requires 0 <= k < |blocks| =>
      if blocks[k].id == id then ApplyPatch(blocks[k], p) else blocks[k])
  }

  function SetEditedStr(texts: seq<ExtractedText>, id: Id, str: string): seq<ExtractedText> {
    seq(|texts|, k requires 0 <= k < |texts| =>
      if texts[k].id == id then texts[k].(editedStr := Some(str)) else texts[k])
  }

  function MergeStyles(texts: seq<ExtractedText>, id: Id, edits: StyleEdits): seq<ExtractedText> {
    seq(|texts|, k requires 0 <= k < |texts| =>
      if texts[k].id == id
      then texts[k].(styleEdits := Some(MergeStyleEdits(texts[k].styleEdits, edits)))
      else texts[k])
  }

  /** The filter callbacks of the three removing actions. */
  function BlockIdIsNot(id: Id): TextBlock -> bool { (b: TextBlock) => b.id != id }
  function DrawingIdIsNot(id: Id): DrawingPath -> bool { (d: DrawingPath) => d.id != id }
  function DrawingOffPage(page: int): DrawingPath -> bool { (d: DrawingPath) => d.pageIndex != page }

  /** `editorReducer`. The four pagination actions have no case and fall to `default`. */
  function Step(s: EditorState, a: EditorAction): EditorState {
    match a
    case SetPdf(data, name, n) => InitialState.(pdfData := Some(data), fileName := name, numPages := n)
    case SetTool(t) => s.(currentTool := t, selectedExtractedTextId := None)
    case SetColor(c) => s.(color := c)
    case SetFontSize(size) => s.(fontSize := size)
    case SetStrokeWidth(w) => s.(strokeWidth := w)
    case AddTextBlock(b) => s.(textBlocks := s.textBlocks + [b])
    case UpdateTextBlock(id, p) => s.(textBlocks := UpdateBlocks(s.textBlocks, id, p))
    case DeleteTextBlock(id) => s.(textBlocks := Filter(s.textBlocks, BlockIdIsNot(id)))
    case AddDrawing(d) => s.(drawings := s.drawings + [d])
    case DeleteDrawing(id) => s.(drawings := Filter(s.drawings, DrawingIdIsNot(id)))
    case ClearPageDrawings(page) => s.(drawings := Filter(s.drawings, DrawingOffPage(page)))
    case SetPageDimensions(page, dims) => s.(pageDimensions := s.pageDimensions[page := dims])
    case SetExtractedTexts(texts) => s.(extractedTexts := s.extractedTexts + texts)
    case UpdateExtractedText(id, str) => s.(extractedTexts := SetEditedStr(s.extractedTexts, id, str))
    case UpdateExtractedTextStyle(id, edits) =>
      s.(extractedTexts := MergeStyles(s.extractedTexts, id, edits))
    case SelectExtractedText(sel) => s.(selectedExtractedTextId := sel)
    case SetZoom(z) => s.(zoom := z)
    case Reset => InitialState
    case SetPaginationEnabled(_) => s
    case SetPaginationFormat(_) => s
    case SetPaginationPosition(_) => s
    case SetPaginationFontSize(_) => s
  }

  /** Dispatching a sequence of actions, first to last. */
  function Run(s: EditorState, actions: seq<EditorAction>): EditorState
    decreases |actions|
  {
    if actions == [] then s else Run(Step(s, actions[0]), actions[1..])
  }

  // ---------------------------------------------------------------------------
  // One lemma per action: what changes, and that nothing else does.

  /** Loading a document discards everything but the new bytes, name and page count. */
  lemma SetPdfResets(s: EditorState, data: Bytes, name: string, n: int)
    ensures var r := Step(s, SetPdf(data, name, n));
      && r.pdfData == Some(data) && r.fileName == name && r.numPages == n
      && r.textBlocks == [] && r.drawings == [] && r.extractedTexts == []
      && r.pageDimensions == map[] && r.selectedExtractedTextId == None
      && r.zoom == 100 && r.currentTool == Tool.Select
      && r.color == "#000000" && r.fontSize == 16.0 && r.strokeWidth == 3.0
    ensures forall s' :: Step(s', SetPdf(data, name, n)) == Step(s, SetPdf(data, name, n))
  {
  }

  /** Switching tools always clears the extracted-text selection. */
  lemma SetToolDeselects(s: EditorState, t: Tool)
    ensures Step(s, SetTool(t)).currentTool == t
    ensures Step(s, SetTool(t)).selectedExtractedTextId == None
    ensures Step(s, SetTool(t)) == s.(currentTool := t, selectedExtractedTextId := None)
  {
  }

  /** The three default-setting actions touch only their own field. */
  lemma SetDefaultsOnly(s: EditorState, c: string, size: real, w: real)
    ensures Step(s, SetColor(c)) == s.(color := c)
    ensures Step(s, SetFontSize(size)) == s.(fontSize := size)
    ensures Step(s, SetStrokeWidth(w)) == s.(strokeWidth := w)
  {
  }

  /** Adding a text block appends exactly one element and keeps the prefix. */
  lemma AddTextBlockAppends(s: EditorState, b: TextBlock)
    ensures var r := Step(s, AddTextBlock(b)).textBlocks;
      |r| == |s.textBlocks| + 1 && r[..|s.textBlocks|] == s.textBlocks && r[|s.textBlocks|] == b
    ensures Step(s, AddTextBlock(b)).(textBlocks := s.textBlocks) == s
  {
  }

  /** Adding a drawing appends exactly one element and keeps the prefix. */
  lemma AddDrawingAppends(s: EditorState, d: DrawingPath)
    ensures var r := Step(s, AddDrawing(d)).drawings;
      |r| == |s.drawings| + 1 && r[..|s.drawings|] == s.drawings && r[|s.drawings|] == d
    ensures Step(s, AddDrawing(d)).(drawings := s.drawings) == s
  {
  }

  /** A patch overwrites exactly the fields it carries. */
  lemma PatchOverwrites(b: TextBlock, p: TextBlockPatch)
    ensures var r := ApplyPatch(b, p);
      && (p.x.Some? ==> r.x == p.x.value) && (p.x.None? ==> r.x == b.x)
      && (p.y.Some? ==> r.y == p.y.value) && (p.y.None? ==> r.y == b.y)
      && (p.text.Some? ==> r.text == p.text.value) && (p.text.None? ==> r.text == b.text)
      && (p.id.Some? ==> r.id == p.id.value) && (p.id.None? ==> r.id == b.id)
      && (p.pageIndex.Some? ==> r.pageIndex == p.pageIndex.value) && (p.pageIndex.None? ==> r.pageIndex == b.pageIndex)
      && (p.width.Some? ==> r.width == p.width.value) && (p.width.None? ==> r.width == b.width)
      && (p.fontSize.Some? ==> r.fontSize == p.fontSize.value) && (p.fontSize.None? ==> r.fontSize == b.fontSize)
      && (p.fontFamily.Some? ==> r.fontFamily == p.fontFamily.value) && (p.fontFamily.None? ==> r.fontFamily == b.fontFamily)
      && (p.color.Some? ==> r.color == p.color.value) && (p.color.None? ==> r.color == b.color)
      && (p.bold.Some? ==> r.bold == p.bold.value) && (p.bold.None? ==> r.bold == b.bold)
      && (p.italic.Some? ==> r.italic == p.italic.value) && (p.italic.None? ==> r.italic == b.italic)
    ensures ApplyPatch(b, EmptyPatch) == b
  {
  }

  /** Applying the same patch a second time changes nothing more. */
  lemma PatchIdempotent(b: TextBlock, p: TextBlockPatch)
    ensures ApplyPatch(ApplyPatch(b, p), p) == ApplyPatch(b, p)
  {
    var r := ApplyPatch(b, p);
    var r2 := ApplyPatch(r, p);
    assert r2.id == r.id && r2.pageIndex == r.pageIndex && r2.x == r.x && r2.y == r.y;
    assert r2.width == r.width && r2.text == r.text && r2.fontSize == r.fontSize;
    assert r2.fontFamily == r.fontFamily && r2.color == r.color && r2.bold == r.bold;
    assert r2.italic == r.italic;
  }

  /** Updating a text block patches every block with that id and no other;
      the list keeps its length, and an unknown id changes nothing. */
  lemma UpdateTextBlockPatches(s: EditorState, id: Id, p: TextBlockPatch)
    ensures var r := Step(s, UpdateTextBlock(id, p));
      && |r.textBlocks| == |s.textBlocks|
      && (forall k :: 0 <= k < |s.textBlocks| && s.textBlocks[k].id == id ==>
            r.textBlocks[k] == ApplyPatch(s.textBlocks[k], p))
      && (forall k :: 0 <= k < |s.textBlocks| && s.textBlocks[k].id != id ==>
            r.textBlocks[k] == s.textBlocks[k])
      && r.(textBlocks := s.textBlocks) == s
    ensures (forall k :: 0 <= k < |s.textBlocks| ==> s.textBlocks[k].id != id) ==>
      Step(s, UpdateTextBlock(id, p)) == s
  {
    var r := Step(s, UpdateTextBlock(id, p));
    if forall k :: 0 <= k < |s.textBlocks| ==> s.textBlocks[k].id != id {
      assert r.textBlocks == s.textBlocks;
    }
  }

  /** Deleting a text block removes exactly the blocks with that id and keeps the
      others in order; an unknown id changes nothing. */
  lemma DeleteTextBlockRemoves(s: EditorState, id: Id)
    ensures var r := Step(s, DeleteTextBlock(id));
      && (forall b :: b in r.textBlocks <==> b in s.textBlocks && b.id != id)
      && r.(textBlocks := s.textBlocks) == s
    ensures forall pre, post :: s.textBlocks == pre + post ==>
      Step(s, DeleteTextBlock(id)).textBlocks
        == Filter(pre, BlockIdIsNot(id)) + Filter(post, BlockIdIsNot(id))
    ensures (forall k :: 0 <= k < |s.textBlocks| ==> s.textBlocks[k].id != id) ==>
      Step(s, DeleteTextBlock(id)) == s
  {
    forall pre, post | s.textBlocks == pre + post
      ensures Filter(s.textBlocks, BlockIdIsNot(id))
        == Filter(pre, BlockIdIsNot(id)) + Filter(post, BlockIdIsNot(id))
    {
      FilterConcat(pre, post, BlockIdIsNot(id));
    }
    if forall k :: 0 <= k < |s.textBlocks| ==> s.textBlocks[k].id != id {
      FilterKeepsAll(s.textBlocks, BlockIdIsNot(id));
    }
  }

  /** Deleting a drawing removes exactly the drawings with that id and keeps the
      others in order; an unknown id changes nothing. */
  lemma DeleteDrawingRemoves(s: EditorState, id: Id)
    ensures var r := Step(s, DeleteDrawing(id));
      && (forall d :: d in r.drawings <==> d in s.drawings && d.id != id)
      && r.(drawings := s.drawings) == s
    ensures forall pre, post :: s.drawings == pre + post ==>
      Step(s, DeleteDrawing(id)).drawings
        == Filter(pre, DrawingIdIsNot(id)) + Filter(post, DrawingIdIsNot(id))
    ensures (forall k :: 0 <= k < |s.drawings| ==> s.drawings[k].id != id) ==>
      Step(s, DeleteDrawing(id)) == s
  {
    forall pre, post | s.drawings == pre + post
      ensures Filter(s.drawings, DrawingIdIsNot(id))
        == Filter(pre, DrawingIdIsNot(id)) + Filter(post, DrawingIdIsNot(id))
    {
      FilterConcat(pre, post, DrawingIdIsNot(id));
    }
    if forall k :: 0 <= k < |s.drawings| ==> s.drawings[k].id != id {
      FilterKeepsAll(s.drawings, DrawingIdIsNot(id));
    }
  }

  /** Clearing a page leaves no drawing on it and keeps every other drawing, in order. */
  lemma ClearPageDrawingsEmptiesPage(s: EditorState, page: int)
    ensures var r := Step(s, ClearPageDrawings(page));
      && (forall d :: d in r.drawings ==> d.pageIndex != page)
      && (forall d :: d in s.drawings && d.pageIndex != page ==> d in r.drawings)
      && r.(drawings := s.drawings) == s
    ensures forall pre, post :: s.drawings == pre + post ==>
      Step(s, ClearPageDrawings(page)).drawings
        == Filter(pre, DrawingOffPage(page)) + Filter(post, DrawingOffPage(page))
  {
    forall pre, post | s.drawings == pre + post
      ensures Filter(s.drawings, DrawingOffPage(page))
        == Filter(pre, DrawingOffPage(page)) + Filter(post, DrawingOffPage(page))
    {
      FilterConcat(pre, post, DrawingOffPage(page));
    }
  }

  /** Page dimensions are upserted: the page gets the new value, other pages keep theirs. */
  lemma SetPageDimensionsUpserts(s: EditorState, page: int, dims: PageDimensions)
    ensures var m := Step(s, SetPageDimensions(page, dims)).pageDimensions;
      && page in m && m[page] == dims
      && m.Keys == s.pageDimensions.Keys + {page}
      && (forall q :: q in s.pageDimensions && q != page ==> m[q] == s.pageDimensions[q])
    ensures Step(s, SetPageDimensions(page, dims)).(pageDimensions := s.pageDimensions) == s
  {
  }

  /** Extracted runs are only ever appended, never replaced. */
  lemma SetExtractedTextsAppends(s: EditorState, texts: seq<ExtractedText>)
    ensures var r := Step(s, SetExtractedTexts(texts)).extractedTexts;
      |r| == |s.extractedTexts| + |texts| && r[..|s.extractedTexts|] == s.extractedTexts
      && r[|s.extractedTexts|..] == texts
    ensures Step(s, SetExtractedTexts(texts)).(extractedTexts := s.extractedTexts) == s
  {
  }

  /** Editing a run's text sets `editedStr` on the runs with that id and nothing else. */
  lemma UpdateExtractedTextSets(s: EditorState, id: Id, str: string)
    ensures var r := Step(s, UpdateExtractedText(id, str)).extractedTexts;
      && |r| == |s.extractedTexts|
      && (forall k :: 0 <= k < |r| && s.extractedTexts[k].id == id ==>
            r[k] == s.extractedTexts[k].(editedStr := Some(str)))
      && (forall k :: 0 <= k < |r| && s.extractedTexts[k].id != id ==> r[k] == s.extractedTexts[k])
    ensures Step(s, UpdateExtractedText(id, str)).(extractedTexts := s.extractedTexts) == s
  {
  }

  /** The style patch is a shallow merge: a field it carries wins, a field it lacks
      keeps the earlier value, and a missing record becomes exactly the patch. */
  lemma MergeStyleEditsShallow(previous: Option<StyleEdits>, edits: StyleEdits)
    ensures var m := MergeStyleEdits(previous, edits);
      && (edits.fontSize.Some? ==> m.fontSize == edits.fontSize)
      && (edits.color.Some? ==> m.color == edits.color)
      && (edits.isBold.Some? ==> m.isBold == edits.isBold)
      && (edits.isItalic.Some? ==> m.isItalic == edits.isItalic)
      && (edits.cssFontFamily.Some? ==> m.cssFontFamily == edits.cssFontFamily)
      && (previous.Some? && edits.fontSize.None? ==> m.fontSize == previous.value.fontSize)
      && (previous.Some? && edits.isBold.None? ==> m.isBold == previous.value.isBold)
      && (previous.Some? && edits.isItalic.None? ==> m.isItalic == previous.value.isItalic)
      && (previous.Some? && edits.color.None? ==> m.color == previous.value.color)
      && (previous.Some? && edits.cssFontFamily.None? ==> m.cssFontFamily == previous.value.cssFontFamily)
    ensures previous.None? ==> MergeStyleEdits(previous, edits) == edits
    ensures MergeStyleEdits(Some(MergeStyleEdits(previous, edits)), edits) == MergeStyleEdits(previous, edits)
    ensures previous.Some? ==> MergeStyleEdits(previous, NoStyleEdits) == previous.value
  {
  }

  /** Applying two style patches in turn equals applying their merge once. */
  lemma MergeStyleEditsCompose(previous: Option<StyleEdits>, e1: StyleEdits, e2: StyleEdits)
    ensures MergeStyleEdits(Some(MergeStyleEdits(previous, e1)), e2)
         == MergeStyleEdits(previous, MergeStyleEdits(Some(e1), e2))
  {
  }

  /** A style update leaves a non-null merged record on the runs with that id and
      changes no other run and no other field. */
  lemma UpdateExtractedTextStyleMerges(s: EditorState, id: Id, edits: StyleEdits)
    ensures var r := Step(s, UpdateExtractedTextStyle(id, edits)).extractedTexts;
      && |r| == |s.extractedTexts|
      && (forall k :: 0 <= k < |r| && s.extractedTexts[k].id == id ==>
            r[k].styleEdits == Some(MergeStyleEdits(s.extractedTexts[k].styleEdits, edits))
            && r[k].(styleEdits := s.extractedTexts[k].styleEdits) == s.extractedTexts[k])
      && (forall k :: 0 <= k < |r| && s.extractedTexts[k].id != id ==> r[k] == s.extractedTexts[k])
    ensures Step(s, UpdateExtractedTextStyle(id, edits)).(extractedTexts := s.extractedTexts) == s
  {
  }

  /** Selection and zoom set their own field only. */
  lemma SelectAndZoomOnly(s: EditorState, sel: Option<Id>, z: int)
    ensures Step(s, SelectExtractedText(sel)) == s.(selectedExtractedTextId := sel)
    ensures Step(s, SetZoom(z)) == s.(zoom := z)
  {
  }

  /** The pagination actions reach `default` and return the state unchanged;
      `RESET` returns the initial state whatever came before. */
  lemma UnhandledAndReset(s: EditorState, a: EditorAction)
    requires a.SetPaginationEnabled? || a.SetPaginationFormat? || a.SetPaginationPosition?
      || a.SetPaginationFontSize?
    ensures Step(s, a) == s
    ensures Step(s, Reset) == InitialState
  {
  }

  // ---------------------------------------------------------------------------
  // Properties of whole runs of the reducer.

  /** No action ever defines `pagination`: it stays absent from the initial state on. */
  lemma {:induction false} PaginationStaysAbsent(s: EditorState, actions: seq<EditorAction>)
    requires s.pagination == None
    ensures Run(s, actions).pagination == None
    decreases |actions|
  {
    if actions != [] {
      PaginationStaysAbsent(Step(s, actions[0]), actions[1..]);
    }
  }

  /** A run's document-derived fields, which only loading or resetting may drop. */
  function Baseline(t: ExtractedText): ExtractedText {
    t.(editedStr := None, styleEdits := None)
  }

  /** Runs already extracted keep their position, size and font across any step
      other than loading a document or resetting; only overrides change. */
  predicate KeepsBaselines(before: seq<ExtractedText>, after: seq<ExtractedText>) {
    |before| <= |after| && forall k :: 0 <= k < |before| ==> Baseline(after[k]) == Baseline(before[k])
  }

  lemma StepKeepsBaselines(s: EditorState, a: EditorAction)
    requires !a.SetPdf? && !a.Reset?
    ensures KeepsBaselines(s.extractedTexts, Step(s, a).extractedTexts)
  {
  }

  lemma {:induction false} RunKeepsBaselines(s: EditorState, actions: seq<EditorAction>)
    requires forall k :: 0 <= k < |actions| ==> !actions[k].SetPdf? && !actions[k].Reset?
    ensures KeepsBaselines(s.extractedTexts, Run(s, actions).extractedTexts)
    decreases |actions|
  {
    if actions != [] {
      StepKeepsBaselines(s, actions[0]);
      RunKeepsBaselines(Step(s, actions[0]), actions[1..]);
    }
  }
}
