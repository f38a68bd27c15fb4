# pdf-plume core, in Dafny

pdf-plume is a browser PDF annotator. It loads a document and lets the user do four things:
- place free text blocks on a page;
- draw and highlight freehand strokes, and erase them;
- retype or restyle the document's own text runs;
- download a copy of the document with all of this burned in.

This project models the logic behind those features and proves what it promises:

- **The annotation store** (`lib/editor-context.tsx`, module `EditorContext`):
  - `initialState`, and the reducer `editorReducer` as a total function `Step(state, action)`;
  - one lemma per action, saying what it changes and that nothing else changes;
  - lemmas about whole runs of actions.
- **Overrides over extracted text** (module `Overlay`):
  - an extracted run's effective style, each attribute the user's override if present, else the document's baseline;
  - the two "is edited" tests (the compiler's, and the on-screen one).
- **The compiler** (`lib/pdf-utils.ts`, module `PdfUtils`):
  - colour parsing, font choice and font-family classification;
  - the `compilePdf` page loop, as a method that emits abstract drawing operations (rectangle, text, image) per page;
  - the download file name.
- **The ink canvas** (`components/pdf-editor/drawing-canvas.tsx`, module `DrawingCanvas`):
  - the stroke state machine as a class with the canvas's two refs;
  - the eraser's nested hit-test loop as a method proved against a specification function.
- **The text layer** (`components/pdf-editor/text-layer.tsx`, module `TextLayer`):
  - font-data resolution;
  - record extraction, behind its once-only latch;
  - the inline editor's click and key rules;
  - screen placement of the runs.
- **The toolbar** (`components/pdf-editor/toolbar.tsx`, module `Toolbar`):
  - the selected run's merged style, and the format buttons;
  - the zoom step guard;
  - the edit counter;
  - the family-label classifier;
  - the `isExporting` flag around the download.
- **The page and the text-block widget** (`components/pdf-editor/pdf-page.tsx` and `text-block.tsx`, modules `PdfPage` and `TextBlockView`):
  - a page click;
  - render bookkeeping, which records page dimensions only for renders that complete and were not superseded;
  - dragging, typing, Backspace-to-delete and the delete button of a text block.
  - The viewer's active text block (`components/pdf-editor/pdf-viewer.tsx:116-120`) is modelled with them, because deleting the active block clears it.

Supporting modules:
- `Types` holds the records of `lib/types.ts`.
- `ArrayOps` holds `filter` and a flat-map for `for…of` loops that push.
- `JsString` holds `toLowerCase`, `includes`, `trim`, `split` and number printing.

Zoom is kept in integer hundredths (a zoom of 1 is `100`), so the source's rounding to two decimals is exact.

The state type declares pagination settings, but nothing reads or writes them:
- The footer "Page i / n" is stamped on every page that has recorded dimensions, unconditionally. There is no pagination setting in the compiler.
- `initialState` has no `pagination` field, although the state type declares one. No reducer case ever sets it: the four `SET_PAGINATION_*` actions fall through to `default` and return the state unchanged.

## Model

| member | source | states |
|---|---|---|
| ArrayOps.Filter | lib/editor-context.tsx:48-64 | the filtered list is no longer than the input and holds exactly the elements that satisfy the predicate |
| ArrayOps.FilterConcat | lib/editor-context.tsx:48-64 | filtering distributes over concatenation, so the surviving elements keep their relative order |
| ArrayOps.FilterKeepsAll | lib/editor-context.tsx:48-59 | a filter that rejects nothing returns the list unchanged |
| ArrayOps.FlatMapMember | lib/pdf-utils.ts:84-135 | an operation is emitted by a loop exactly when some element's iteration emits it |
| JsString.ToLowerIdempotent | lib/pdf-utils.ts:29 | lower-casing leaves no upper-case letter and a second lower-casing changes nothing |
| JsString.IncludesAt | lib/pdf-utils.ts:30-31 | `includes` holds exactly when some window of the string equals the needle |
| JsString.BlankIffAllWhitespace | lib/pdf-utils.ts:96 | `!s.trim()` holds exactly when every character is white space or a line terminator |
| JsString.JoinSplit | lib/pdf-utils.ts:125 | joining the pieces of `split("\n")` with the separator rebuilds the block text, so no text is lost between lines |
| JsString.SplitPiecesFree | lib/pdf-utils.ts:125 | no line of a split contains the separator |
| JsString.DecimalRoundTrip | lib/pdf-utils.ts:151 | the digits printed into the footer denote the page number and page count |
| EditorContext.SetPdfResets | lib/editor-context.tsx:6-30 | loading a document yields the initial state with the new bytes, name and page count: no blocks, drawings, runs, dimensions or selection, zoom 1, the select tool; the result does not depend on the previous state |
| EditorContext.SetToolDeselects | lib/editor-context.tsx:31-32 | switching tools sets the tool, always clears the extracted-text selection, and changes nothing else |
| EditorContext.SetDefaultsOnly | lib/editor-context.tsx:33-38 | colour, font size and stroke width each set their own field only |
| EditorContext.AddTextBlockAppends | lib/editor-context.tsx:39-40 | the block list grows by exactly one, keeps its prefix and ends with the new block; no other field changes |
| EditorContext.AddDrawingAppends | lib/editor-context.tsx:53-54 | the drawing list grows by exactly one, keeps its prefix and ends with the new drawing; no other field changes |
| EditorContext.PatchOverwrites | lib/editor-context.tsx:45 | a partial patch overwrites each of the eleven fields it carries with the carried value and keeps every field it lacks; the empty patch is the identity |
| EditorContext.PatchIdempotent | lib/editor-context.tsx:45 | applying the same patch twice equals applying it once |
| EditorContext.UpdateTextBlockPatches | lib/editor-context.tsx:41-47 | every block with the id is patched, every other block is untouched, the length is kept, and an unknown id leaves the state equal |
| EditorContext.DeleteTextBlockRemoves | lib/editor-context.tsx:48-52 | exactly the blocks with the id disappear, the rest keep their order (filter splits over any cut of the list), and an unknown id is a no-op |
| EditorContext.DeleteDrawingRemoves | lib/editor-context.tsx:55-59 | exactly the drawings with the id disappear, the rest keep their order, and an unknown id is a no-op |
| EditorContext.ClearPageDrawingsEmptiesPage | lib/editor-context.tsx:60-64 | no drawing of the page remains and every drawing of another page survives, in order |
| EditorContext.SetPageDimensionsUpserts | lib/editor-context.tsx:65-69 | the page maps to the new dimensions, the key set gains only that page, and other pages keep theirs |
| EditorContext.SetExtractedTextsAppends | lib/editor-context.tsx:70-71 | extracted runs are appended after the existing ones, never replacing them |
| EditorContext.UpdateExtractedTextSets | lib/editor-context.tsx:72-78 | runs with the id get the edited string, all other runs and fields are unchanged |
| EditorContext.MergeStyleEditsShallow | lib/editor-context.tsx:84 | the style merge is shallow: each of the five fields in the patch wins, a field absent from it keeps the earlier value, a null record becomes exactly the patch; merging the same patch again and merging an empty patch change nothing |
| EditorContext.MergeStyleEditsCompose | lib/editor-context.tsx:84 | two style patches in turn equal one patch that is their merge |
| EditorContext.UpdateExtractedTextStyleMerges | lib/editor-context.tsx:79-87 | runs with the id get a non-null merged style record and keep every other field; other runs and fields are unchanged |
| EditorContext.SelectAndZoomOnly | lib/editor-context.tsx:88-91 | selecting a run and setting the zoom touch only their own field |
| EditorContext.UnhandledAndReset | lib/editor-context.tsx:92-95 | the pagination actions reach `default` and return the same state; `RESET` returns the initial state whatever the state was |
| EditorContext.PaginationStaysAbsent | lib/editor-context.tsx:6-20 | starting without a `pagination` field, no sequence of actions ever creates one |
| EditorContext.StepKeepsBaselines | lib/editor-context.tsx:22-97 | any action except loading and resetting keeps every existing run's document-derived fields, changing at most its overrides, and never shortens the run list |
| EditorContext.RunKeepsBaselines | lib/editor-context.tsx:22-97 | the same holds for any sequence of actions that neither loads nor resets |
| Overlay.EffectivePrecedence | lib/pdf-utils.ts:97-101 | each effective attribute is the override when one is present and the extracted baseline otherwise, and with no record the effective style is the baseline |
| Overlay.OnlyColorOverridden | components/pdf-editor/toolbar.tsx:58-67 | a record that overrides only the colour leaves size, weight, slant and family at their baselines |
| Overlay.PatchOverEffective | lib/editor-context.tsx:79-87 | dispatching a style patch changes the effective style by laying the patch over the previous effective style |
| Overlay.EditedImpliesShown | components/pdf-editor/text-layer.tsx:204 | every run the compiler redraws is shown as edited on screen, but an edited string equal to the original shows as edited without being redrawn |
| PdfUtils.MatchHexColor | lib/pdf-utils.ts:5 | the pattern matches exactly a `#` followed by six hex digits, or six hex digits alone; the captured digits are the string without its `#` |
| PdfUtils.HexToRgb | lib/pdf-utils.ts:4-12 | every channel lies in [0, 1]; a matched string gives each digit pair's value divided by 255, and a string the pattern rejects gives black |
| PdfUtils.HexColorRoundTrip | lib/pdf-utils.ts:4-12 | parsing the `#rrggbb` spelling of any three bytes, or the same digits without `#`, gives those bytes back, and the colour channels byte/255 |
| PdfUtils.OtherLengthsAreBlack | lib/pdf-utils.ts:5-6 | a string of any length but 6 or 7, the `#abc` shorthand included, gives black |
| PdfUtils.MalformedColoursAreBlack | lib/pdf-utils.ts:5-6 | strings of the right length that break the pattern (`x123456`, `#12345g`, `12345g`) give black |
| PdfUtils.HexColorIgnoresCase | lib/pdf-utils.ts:5 | the colour pattern is case-insensitive: lower-casing the input changes nothing |
| PdfUtils.PickFont | lib/pdf-utils.ts:21-26 | the chosen face is bold exactly when asked for bold and italic exactly when asked for italic |
| PdfUtils.PickFontExhaustive | lib/pdf-utils.ts:21-26 | every face is reached by exactly its own pair of flags |
| PdfUtils.EmbeddedFontBijective | lib/pdf-utils.ts:45-64 | the twelve embedded fonts are a bijection with (family, face) pairs |
| PdfUtils.DetectFontFamilyRules | lib/pdf-utils.ts:28-33 | classification ignores case; the family is monospace exactly when the lower-cased name contains courier, mono or consolas; it is serif exactly when it contains none of those and contains times, georgia, or serif without sans; otherwise it is sans-serif |
| PdfUtils.OcclusionRect | lib/pdf-utils.ts:85-93 | the white box pads the run by a fifth of the extracted font size on each side and spans from 0.3 sizes below the baseline to 1.1 sizes above it |
| PdfUtils.OcclusionIgnoresOverrides | lib/pdf-utils.ts:85-93 | text edits and style overrides never move or resize the white box |
| PdfUtils.ToDocumentRoundTrip | lib/pdf-utils.ts:121-123 | mapping a block to document space and back recovers its display position and font size |
| PdfUtils.ToDocumentFlipsY | lib/pdf-utils.ts:123 | with a positive vertical scale, a block lower on screen gets a lower baseline in the document |
| PdfUtils.FooterOp | lib/pdf-utils.ts:150-162 | the footer reads `Page i+1 / n`, grey Helvetica of size 10 at height 14, centred so that its midpoint is the page's midpoint |
| PdfUtils.RedrawRun | lib/pdf-utils.ts:85-113 | one edited run adds its white box, then its current string in its effective style unless that string is blank |
| PdfUtils.DrawEditedRuns | lib/pdf-utils.ts:84-114 | the run loop emits each run's operations in list order |
| PdfUtils.DrawBlockLines | lib/pdf-utils.ts:120-134 | line k of a block is drawn at the block's document anchor, k line heights of 1.2 font sizes lower |
| PdfUtils.DrawTextBlocks | lib/pdf-utils.ts:116-135 | the block loop emits each non-blank block's lines in list order, and nothing for blank blocks |
| PdfUtils.DrawPage | lib/pdf-utils.ts:72-162 | a page with dimensions gets its edited runs, then its text blocks, then the ink image if any, then the footer |
| PdfUtils.CompilePdf | lib/pdf-utils.ts:35-166 | the output has one operation list per page, each equal to the page's specified operations |
| PdfUtils.PageWithoutDimensionsSkipped | lib/pdf-utils.ts:70-71 | a page without recorded dimensions gets nothing: no edits, no ink, no footer |
| PdfUtils.FooterAlwaysLast | lib/pdf-utils.ts:150-162 | every other page ends with its footer, whatever the pagination settings |
| PdfUtils.InkCoversPage | lib/pdf-utils.ts:137-148 | the only image on a page is the ink layer covering the whole page, present exactly when the page has an ink canvas |
| PdfUtils.OcclusionsAreEditedRuns | lib/pdf-utils.ts:78-93 | the white boxes on a page are exactly those of the page's runs that are edited (a different string, or any style record) |
| PdfUtils.RedrawOpsRules | lib/pdf-utils.ts:85-112 | an edited run always gets its white box; the replacement text follows exactly when the current string is not blank |
| PdfUtils.ReplacementTextDrawn | lib/pdf-utils.ts:78-112 | every edited run of the page with a non-blank current string has its text drawn on the page at its origin, in its effective size, family, face and colour |
| PdfUtils.BlockLinesDrawn | lib/pdf-utils.ts:116-134 | every line of every non-blank block of the page appears at its line offset |
| PdfUtils.DownloadName | lib/pdf-utils.ts:173 | the download name always ends in `_edited.pdf` |
| PdfUtils.DownloadNameRules | lib/pdf-utils.ts:173 | one trailing `.pdf`, in any letter case, is replaced by `_edited.pdf`; a name without it is kept whole |
| DrawingCanvas.TouchesAny | components/pdf-editor/drawing-canvas.tsx:90-97 | the point scan stops with a hit exactly when some point lies strictly within 12 plus half the stroke width of the eraser |
| DrawingCanvas.EraseAt | components/pdf-editor/drawing-canvas.tsx:85-101 | the ids deleted are those of the page's drawings that are hit, in list order |
| DrawingCanvas.ErasedIdsAreHitDrawings | components/pdf-editor/drawing-canvas.tsx:88-97 | the erased ids are the ids of the page's hit drawings, one per drawing, thanks to the `break` |
| DrawingCanvas.ErasedIdsMembers | components/pdf-editor/drawing-canvas.tsx:85-101 | an id is erased exactly when a drawing with it lies on the page and is hit; drawings of other pages never are, and no more ids than the page's drawings |
| DrawingCanvas.EraserExample | components/pdf-editor/drawing-canvas.tsx:93 | a square stroke is erased at its own corner, and not at a far point or on another page |
| DrawingCanvas.RunDeletes | components/pdf-editor/drawing-canvas.tsx:94 | the delete actions of one erase remove exactly the drawings with those ids |
| DrawingCanvas.EraseClearsHits | components/pdf-editor/drawing-canvas.tsx:85-101 | after the store applies an erase, no drawing of the page is hit at that point, and every drawing not hit (and sharing no id with a hit one) remains |
| DrawingCanvas.CommittedStroke | components/pdf-editor/drawing-canvas.tsx:158-165 | a highlight is `#FFEB3B`, three times the stroke width and opacity 0.35; any other stroke has the current colour, width and opacity 1 |
| DrawingCanvas.StrokeCanvas.constructor | components/pdf-editor/drawing-canvas.tsx:33-34 | the canvas starts idle with an empty path |
| DrawingCanvas.StrokeCanvas.MouseDown | components/pdf-editor/drawing-canvas.tsx:103-114 | inactive tools do nothing; draw and highlight start the path at the point; the eraser erases there |
| DrawingCanvas.StrokeCanvas.MouseMove | components/pdf-editor/drawing-canvas.tsx:116-126 | outside a gesture nothing happens; during one the eraser erases and a drawing tool appends exactly one point |
| DrawingCanvas.StrokeCanvas.MouseUp | components/pdf-editor/drawing-canvas.tsx:151-168 | the gesture always ends; outside eraser mode the path is committed exactly when it has two points or more, and then cleared |
| DrawingCanvas.DrawGesture | components/pdf-editor/drawing-canvas.tsx:103-168 | a press, moves and release commit the stroke through every point exactly when the pointer moved at least once |
| TextLayer.FontDataRules | components/pdf-editor/text-layer.tsx:33-70 | bold is the flag or a bold/black/heavy token in the name, italic the flag or an italic/oblique token, in any letter case; a non-object, a failed lookup or the timeout gives the plain unnamed fallback |
| TextLayer.CssFontFamilyOf | components/pdf-editor/text-layer.tsx:100-101 | the family is never empty: it is the style entry's when that is present and non-empty, and `sans-serif` in every other case |
| TextLayer.RecordsRules | components/pdf-editor/text-layer.tsx:95-123 | a record exists exactly for each non-blank text run; each is on the page, at the transform's origin, black, with no edits |
| TextLayer.RecordsCount | components/pdf-editor/text-layer.tsx:95-123 | there is one record per non-blank run and none for blank runs or marked content |
| TextLayer.TextLayerInstance.constructor | components/pdf-editor/text-layer.tsx:83-84 | a layer starts unextracted and not editing |
| TextLayer.TextLayerInstance.Extract | components/pdf-editor/text-layer.tsx:86-131 | the latch makes a second extraction do nothing; the first reports the page's records, and only when there is at least one |
| TextLayer.TextLayerInstance.Click | components/pdf-editor/text-layer.tsx:169-177 | with the select tool a click selects the run and opens its editor; other tools do nothing |
| TextLayer.TextLayerInstance.Blur | components/pdf-editor/text-layer.tsx:179-181 | leaving the editor closes it and keeps the selection |
| TextLayer.TextLayerInstance.KeyDown | components/pdf-editor/text-layer.tsx:183-195 | Escape closes the editor and clears the selection, Enter only closes it, other keys change nothing |
| TextLayer.ScreenItemOf | components/pdf-editor/text-layer.tsx:141-165 | the screen box uses the merged style; its height is the larger of 1.2 screen font sizes and the scaled run height, its width at least 20, and its bottom edge sits at the converted baseline |
| TextLayer.ScreenItems | components/pdf-editor/text-layer.tsx:135-167 | one screen item per run of this page, in list order: item k lays out the page's k-th run, which is a run of the list on this page |
| TextLayer.ScreenItemsCoverPage | components/pdf-editor/text-layer.tsx:135-167 | a run gets a screen item exactly when it is on this page |
| Toolbar.LabelAgreesWithCompiler | components/pdf-editor/toolbar.tsx:42-47 | the active family button always names the family the compiler will embed |
| Toolbar.PresetsRoundTrip | components/pdf-editor/toolbar.tsx:25-29 | each preset's CSS string is classified back to its own label, by the toolbar and by the compiler |
| Toolbar.FindById | components/pdf-editor/toolbar.tsx:55 | `find` returns a run of the list with the id, and returns nothing exactly when no run has it |
| Toolbar.FindByIdFirst | components/pdf-editor/toolbar.tsx:55 | the run `find` returns is the first with the id: every run before it has another id |
| Toolbar.MergedStyle | components/pdf-editor/toolbar.tsx:58-67 | a merged style exists exactly when a run is selected, and it is that run's effective style |
| Toolbar.UpdateStyleOverlays | components/pdf-editor/toolbar.tsx:69-72 | with no selection nothing is dispatched; otherwise the merged style changes exactly by the patch |
| Toolbar.JsRoundBounds | components/pdf-editor/toolbar.tsx:414 | `Math.round` is within one half of its argument and keeps integers |
| Toolbar.DecreaseSize | components/pdf-editor/toolbar.tsx:414 | the decreased size is one below the rounded size but never below 4 |
| Toolbar.IncreaseSize | components/pdf-editor/toolbar.tsx:429 | the increased size is one above the rounded size but never above 200 |
| Toolbar.SizeStepsInverse | components/pdf-editor/toolbar.tsx:414-429 | inside the clamps the two size buttons undo each other |
| Toolbar.FormatButtonEffects | components/pdf-editor/toolbar.tsx:365-463 | bold and italic negate the merged value; family, size and colour set one attribute; nothing else in the merged style changes |
| Toolbar.BoldTwiceRestores | components/pdf-editor/toolbar.tsx:365 | pressing bold twice restores the merged style |
| Toolbar.ZoomBy | components/pdf-editor/toolbar.tsx:92-97 | the stepped zoom is dispatched exactly when it lies in [0.5, 3], and what is dispatched is the current zoom plus the step |
| Toolbar.ZoomStaysInRange | components/pdf-editor/toolbar.tsx:92-97 | a zoom starting in [0.5, 3] stays there under any button presses, and nothing else in the state changes |
| Toolbar.ZoomExamples | components/pdf-editor/toolbar.tsx:298-313 | four steps in from 1 reach 2; a step out at 0.5 and a step in at 3 are refused |
| Toolbar.EditCountExample | components/pdf-editor/toolbar.tsx:99-102 | two blocks, three drawings and one edited run count 6 |
| Toolbar.EditCountChanges | components/pdf-editor/toolbar.tsx:99-102 | adding a block or a drawing adds one; loading or resetting gives 0; the count never exceeds runs plus blocks plus drawings |
| Toolbar.EditCountOnTextEdit | components/pdf-editor/toolbar.tsx:99-102 | the first edit that makes a run's text differ from the original raises the count by one |
| Toolbar.ExportButton.constructor | components/pdf-editor/toolbar.tsx:51 | the button starts not exporting |
| Toolbar.ExportButton.BeginDownload | components/pdf-editor/toolbar.tsx:74-76 | an export starts exactly when a document is loaded, and the button is then disabled |
| Toolbar.ExportButton.FinishDownload | components/pdf-editor/toolbar.tsx:86-89 | the flag always comes down, and only a successful compile is saved, under the download name |
| Toolbar.ExportOnce | components/pdf-editor/toolbar.tsx:74-90 | a loaded document whose compile succeeds is saved under a name ending in `_edited.pdf`, and the button is usable again exactly when a document is loaded |
| PdfPage.PageClickEffects | components/pdf-editor/pdf-page.tsx:92-119 | every click clears the run selection; other tools also clear the active block and add nothing; the text tool adds exactly one block at the click offset with empty text, width 200, plain Helvetica and the current colour and size, and makes it active |
| PdfPage.RenderScale | components/pdf-editor/pdf-page.tsx:73 | the render scale is positive for a positive zoom and 1.5 at zoom 1 |
| PdfPage.RecordedDimensionsUpsert | components/pdf-editor/pdf-viewer.tsx:44-49 | a completed render sets this page's dimensions to the viewport and scale and leaves every other page and field alone |
| PdfPage.PageRenderer.constructor | components/pdf-editor/pdf-page.tsx:62-63 | a page starts with no render task and a canvas of the HTML default size, 300 by 150 |
| PdfPage.ToUnsignedLong | components/pdf-editor/pdf-page.tsx:74-75 | the `unsigned long` conversion of an assigned size is an integer below 2^32; for a size in [0, 2^32) it is the size with its fraction dropped |
| PdfPage.CanvasSize | components/pdf-editor/pdf-page.tsx:74-75 | the canvas keeps at most 2^31 - 1: a size in [0, 2^31) becomes its integer part, and a converted value above 2^31 - 1, every size in (-2^31, -1] included, leaves the attribute's default |
| PdfPage.CanvasTruncatesExample | components/pdf-editor/pdf-page.tsx:73-75 | a 612-point page at zoom 1.25 has a 1147.5-wide viewport and a 1147-wide canvas; a width of 2^31 leaves 300 and a height of -1 leaves 150 |
| PdfPage.PageRenderer.StartRender | components/pdf-editor/pdf-page.tsx:65-78 | without a canvas nothing happens; otherwise a still-running task is cancelled, the canvas takes the viewport size as the browser stores it (`CanvasSize`, default 300 wide and 150 high), the task will report the untruncated viewport size, and a new task becomes current |
| PdfPage.PageRenderer.Settle | components/pdf-editor/pdf-page.tsx:80-85 | a task records its dimensions exactly when it completed and was not cancelled, and then it is the current task |
| PdfPage.RerenderOnZoom | components/pdf-editor/pdf-page.tsx:65-90 | when a zoom change starts a second render before the first settles, only the second records dimensions |
| PdfPage.ShownTextBlocks | components/pdf-editor/pdf-page.tsx:157-171 | no text block is shown under the draw and highlight tools; otherwise exactly the page's blocks |
| TextBlockView.ClampToPage | components/pdf-editor/text-block.tsx:48 | a dragged coordinate is never negative, and is the pointer's unless that was negative |
| TextBlockView.TextBlockWidget.constructor | components/pdf-editor/text-block.tsx:17-18 | a block starts not dragging |
| TextBlockView.TextBlockWidget.MouseDown | components/pdf-editor/text-block.tsx:26-37 | a press on the textarea is ignored; a press on the frame selects the block, starts a drag and records the grab offset |
| TextBlockView.TextBlockWidget.MouseMove | components/pdf-editor/text-block.tsx:42-49 | while dragging, and only then, one move patches only x and y, to the pointer less the grab offset, clamped at zero |
| TextBlockView.TextBlockWidget.MouseUp | components/pdf-editor/text-block.tsx:51 | releasing ends the drag |
| TextBlockView.DragBy | components/pdf-editor/text-block.tsx:26-59 | a whole drag selects the block and moves it by exactly the pointer's displacement, clamped at zero |
| TextBlockView.DragNeverNegative | components/pdf-editor/text-block.tsx:42-49 | after a drag step the block lies at non-negative coordinates and keeps every other field; no other block moves |
| TextBlockView.BackspaceDeletesEmpty | components/pdf-editor/text-block.tsx:61-66 | Backspace deletes the block exactly when its text is empty; the block then leaves the store and stops being active |
| TextBlockView.TextChangeSetsText | components/pdf-editor/text-block.tsx:101-102 | typing sets the text of this block and changes nothing else |
| TextBlockView.SelectThenDelete | components/pdf-editor/text-block.tsx:85-131 | clicking the frame makes the block active; the delete button it then shows removes the block and leaves no block active; an inactive block has no button |

## Left out

- Floating point: coordinates, sizes and colour channels are exact reals.
  - The `/255` channels of `hexToRgb` and the scale divisions are exact quotients.
  - `Math.hypot` for a run's font size is a parameter.
  - Zoom is integer hundredths, so the `Math.round(... * 100) / 100` of `setZoom` needs no model.
- JsString.ToLower: lowers the ASCII letters A-Z only and keeps every other character. JavaScript's `toLowerCase` also maps non-ASCII capitals, for example U+212A KELVIN SIGN to `k` and `É` to `é`. So a font name such as `BLAC\u212A` is bold in the source (`TextLayer.FontDataRules`) but not in the model. Family detection and the download name are unaffected:
  - No family token contains a `k`. The only other capital that lowers to ASCII, U+0130, yields `i` followed by U+0307, and no token ends in `i`.
  - The `/\.pdf$/i` of the download name has no `u` flag, so it folds ASCII letters only, as the model does.
- pdf-lib:
  - Loading, font embedding, PNG embedding and saving are outside the model.
  - Drawing calls are emitted as abstract operations.
  - `widthOfTextAtSize` is a parameter of the footer placement.
  - The ink canvas's PNG snapshot is reduced to "this page has an ink canvas" (`inkPages`).
- pdf.js:
  - Text content, `styles`, `commonObjs.get`, `getViewport` and `convertToViewportPoint` are inputs.
  - A render task's outcome arrives as a call to `PageRenderer.Settle`.
- Asynchrony:
  - The 3000 ms timeout of `getFontData` is the `TimedOut` lookup outcome.
  - A lookup that throws twice is `LookupFailed`.
  - The interleaving of the awaited extraction with other events is not modelled.
  - The `cancelled` flag of the viewer's `loadPdf` is not modelled.
- `generateId` is random; every id it would return is a parameter.
- The `drawings` argument of `compilePdf` is accepted and never read, as in the source.
- CompilePdf requires nonzero recorded page dimensions (`ValidDimensions`). The source would divide by zero and draw at infinite coordinates. A rendered page never reports a zero size.
- DOM and canvas work is not modelled, apart from the size a page's canvas is given before a render:
  - the canvas `redraw` and the live preview stroke;
  - `autoResize`, focus, `preventDefault`/`stopPropagation`;
  - the Blob and anchor download (`downloadPdf` apart from its file name);
  - canvas registration in the viewer.
- The viewer's `loadPdf`, the upload zone, the theme toggle, branding, the app pages and the site metadata are presentation or configuration.
- Pagination settings are not modelled beyond the state field: the compiler never reads them, and the reducer never handles their actions.
