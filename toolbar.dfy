/** components/pdf-editor/toolbar.tsx: what the toolbar derives from the editor
    state (the selected run, its merged style, the export badge's edit count) and
    the actions its buttons dispatch (style patches, zoom steps). Zoom is counted
    in hundredths, as in the state. */
module Toolbar {
  import opened Types
  import opened ArrayOps
  import opened JsString
  import opened Overlay
  import PdfUtils
  import EditorContext

  // ---------------------------------------------------------------------------
  // Font family presets

  datatype FontPreset = FontPreset(name: string, css: string)

  const SansPreset := FontPreset("Sans", "Helvetica, Arial, sans-serif")
  const SerifPreset := FontPreset("Serif", "Times New Roman, Times, serif")
  const MonoPreset := FontPreset("Mono", "Courier New, Courier, monospace")

  /** `FONT_FAMILIES`, in button order. */
  const FontFamilies: seq<FontPreset> := [SansPreset, SerifPreset, MonoPreset]

  /** `detectFontFamilyLabel`: which preset button shows as active. */
  function DetectFontFamilyLabel(css: string): string {
    var lower := ToLower(css);
    if Includes(lower, "courier") || Includes(lower, "mono") || Includes(lower, "consolas") then "Mono"
    else if Includes(lower, "times") || Includes(lower, "georgia")
      || (Includes(lower, "serif") && !Includes(lower, "sans")) then "Serif"
    else "Sans"
  }

  function FamilyLabel(f: PdfUtils.FontFamily): string {
    match f
    case Sans => "Sans"
    case Serif => "Serif"
    case Mono => "Mono"
  }

  /** The toolbar's label and the compiler's font family always agree, so the active
      button names the family the export will embed. */
  lemma LabelAgreesWithCompiler(css: string)
    ensures DetectFontFamilyLabel(css) == FamilyLabel(PdfUtils.DetectFontFamily(css))
  {
  }

  // One string fact per lemma: each is a small search over a literal.

  lemma SansPresetLower()
    ensures ToLower("Helvetica, Arial, sans-serif") == "helvetica, arial, sans-serif"
  {
  }

  lemma SansPresetNotCourier()
    ensures !Includes("helvetica, arial, sans-serif", "courier")
  {
    NotIncludesChar("helvetica, arial, sans-serif", "courier", 1);
  }

  lemma SansPresetNotMono()
    ensures !Includes("helvetica, arial, sans-serif", "mono")
  {
    NotIncludesChar("helvetica, arial, sans-serif", "mono", 0);
  }

  lemma SansPresetNotConsolas()
    ensures !Includes("helvetica, arial, sans-serif", "consolas")
  {
    NotIncludesChar("helvetica, arial, sans-serif", "consolas", 1);
  }

  lemma SansPresetNotTimes()
    ensures !Includes("helvetica, arial, sans-serif", "times")
  {
    NotIncludesChar("helvetica, arial, sans-serif", "times", 2);
  }

  lemma SansPresetNotGeorgia()
    ensures !Includes("helvetica, arial, sans-serif", "georgia")
  {
    NotIncludesChar("helvetica, arial, sans-serif", "georgia", 0);
  }

  lemma SansPresetSaysSans()
    ensures Includes("helvetica, arial, sans-serif", "sans")
  {
    IncludesWitness("helvetica, arial, sans-serif", "sans", 18);
  }

  lemma SerifPresetLower()
    ensures ToLower("Times New Roman, Times, serif") == "times new roman, times, serif"
  {
  }

  lemma SerifPresetNotCourier()
    ensures !Includes("times new roman, times, serif", "courier")
  {
    NotIncludesChar("times new roman, times, serif", "courier", 0);
  }

  lemma SerifPresetNotMono()
    ensures !Includes("times new roman, times, serif", "mono")
  {
    NotIncludesPair("times new roman, times, serif", "mono");
  }

  lemma SerifPresetNotConsolas()
    ensures !Includes("times new roman, times, serif", "consolas")
  {
    NotIncludesChar("times new roman, times, serif", "consolas", 0);
  }

  lemma SerifPresetSaysTimes()
    ensures Includes("times new roman, times, serif", "times")
  {
    IncludesWitness("times new roman, times, serif", "times", 0);
  }

  lemma MonoPresetLower()
    ensures ToLower("Courier New, Courier, monospace") == "courier new, courier, monospace"
  {
  }

  lemma MonoPresetSaysCourier()
    ensures Includes("courier new, courier, monospace", "courier")
  {
    IncludesWitness("courier new, courier, monospace", "courier", 0);
  }

  /** Each preset's CSS string is classified back to its own label, by the toolbar
      and by the compiler alike. */
  lemma SansPresetRoundTrip()
    ensures DetectFontFamilyLabel(SansPreset.css) == SansPreset.name
  {
    SansPresetLower();
    SansPresetNotCourier();
    SansPresetNotMono();
    SansPresetNotConsolas();
    SansPresetNotTimes();
    SansPresetNotGeorgia();
    SansPresetSaysSans();
  }

  lemma SerifPresetRoundTrip()
    ensures DetectFontFamilyLabel(SerifPreset.css) == SerifPreset.name
  {
    SerifPresetLower();
    SerifPresetNotCourier();
    SerifPresetNotMono();
    SerifPresetNotConsolas();
    SerifPresetSaysTimes();
  }

  lemma MonoPresetRoundTrip()
    ensures DetectFontFamilyLabel(MonoPreset.css) == MonoPreset.name
  {
    MonoPresetLower();
    MonoPresetSaysCourier();
  }

  /** Each preset's CSS string is classified back to its own label, by the toolbar
      and by the compiler alike. */
  lemma PresetsRoundTrip(k: nat)
    requires k < |FontFamilies|
    ensures DetectFontFamilyLabel(FontFamilies[k].css) == FontFamilies[k].name
    ensures FamilyLabel(PdfUtils.DetectFontFamily(FontFamilies[k].css)) == FontFamilies[k].name
  {
    if k == 0 {
      SansPresetRoundTrip();
    } else if k == 1 {
      SerifPresetRoundTrip();
    } else {
      MonoPresetRoundTrip();
    }
    LabelAgreesWithCompiler(FontFamilies[k].css);
  }

  // ---------------------------------------------------------------------------
  // Selection and merged style

  /** `find` by id: the first run with that id. */
  function FindById(texts: seq<ExtractedText>, id: Id): (r: Option<ExtractedText>)
    ensures r.Some? ==> r.value in texts && r.value.id == id
    ensures r.None? <==> forall t :: t in texts ==> t.id != id
  {
    if texts == [] then None
    else if texts[0].id == id then Some(texts[0])
    else FindById(texts[1..], id)
  }

  /** The run found is the first with that id: every earlier run has another id. */
  lemma {:induction false} FindByIdFirst(texts: seq<ExtractedText>, id: Id)
    ensures FindById(texts, id).Some? ==>
      exists k :: 0 <= k < |texts| && texts[k] == FindById(texts, id).value
        && forall j :: 0 <= j < k ==> texts[j].id != id
  {
    if texts != [] && texts[0].id != id && FindById(texts, id).Some? {
      FindByIdFirst(texts[1..], id);
      var k :| 0 <= k < |texts[1..]| && texts[1..][k] == FindById(texts[1..], id).value
        && forall j :: 0 <= j < k ==> texts[1..][j].id != id;
      assert texts[k + 1] == FindById(texts, id).value;
      assert forall j :: 0 <= j < k + 1 ==> texts[j].id != id by {
        forall j | 0 <= j < k + 1 ensures texts[j].id != id {
          if j > 0 { assert texts[j] == texts[1..][j - 1]; }
        }
      }
    } else if texts != [] && texts[0].id == id {
      assert texts[0] == FindById(texts, id).value;
    }
  }

  /** The selection counts only when the id is present and non-empty (JavaScript
      truthiness). */
  predicate HasSelection(s: EditorState) {
    s.selectedExtractedTextId.Some? && s.selectedExtractedTextId.value != ""
  }

  /** `selectedText` */
  function SelectedText(s: EditorState): Option<ExtractedText> {
    if HasSelection(s) then FindById(s.extractedTexts, s.selectedExtractedTextId.value) else None
  }

  /** `mergedStyle`: the effective style of the selected run. */
  function MergedStyle(s: EditorState): (m: Option<Style>)
    ensures m.Some? <==> SelectedText(s).Some?
    ensures m.Some? ==> m.value == Effective(SelectedText(s).value)
  {
    match SelectedText(s)
    case None => None
    case Some(t) => Some(Effective(t))
  }

  /** `updateStyle`: a style patch for the selected id, or nothing without a selection. */
  function UpdateStyle(s: EditorState, edits: StyleEdits): Option<EditorAction> {
    if HasSelection(s) then Some(UpdateExtractedTextStyle(s.selectedExtractedTextId.value, edits)) else None
  }

  /** The patch laid over a style: its fields where present, the style's elsewhere. */
  function Overlaid(edits: StyleEdits, m: Style): Style {
    Style(edits.fontSize.GetOr(m.fontSize), edits.isBold.GetOr(m.isBold), edits.isItalic.GetOr(m.isItalic),
          edits.color.GetOr(m.color), edits.cssFontFamily.GetOr(m.cssFontFamily))
  }

  lemma {:induction false} FindAfterMerge(texts: seq<ExtractedText>, id: Id, edits: StyleEdits)
    ensures var r := FindById(EditorContext.MergeStyles(texts, id, edits), id);
      var t := FindById(texts, id);
      r.Some? == t.Some?
      && (t.Some? ==> r.value == t.value.(styleEdits := Some(EditorContext.MergeStyleEdits(t.value.styleEdits, edits))))
  {
    if texts != [] {
      var merged := EditorContext.MergeStyles(texts, id, edits);
      assert merged[1..] == EditorContext.MergeStyles(texts[1..], id, edits);
      FindAfterMerge(texts[1..], id, edits);
    }
  }

  /** Dispatching the toolbar's patch changes the merged style exactly by the patch,
      and with no selection nothing is dispatched. */
  lemma UpdateStyleOverlays(s: EditorState, edits: StyleEdits)
    ensures UpdateStyle(s, edits).None? <==> !HasSelection(s)
    ensures SelectedText(s).Some? ==>
      MergedStyle(EditorContext.Step(s, UpdateStyle(s, edits).value)) == Some(Overlaid(edits, MergedStyle(s).value))
  {
    if SelectedText(s).Some? {
      var id := s.selectedExtractedTextId.value;
      FindAfterMerge(s.extractedTexts, id, edits);
      PatchOverEffective(SelectedText(s).value, edits);
    }
  }

  // ---------------------------------------------------------------------------
  // Format buttons

  /** `Math.round` */
  function JsRound(x: real): int {
    (x + 0.5).Floor
  }

  /** Rounds to the nearest integer, halves upward; integers are kept. */
  lemma JsRoundBounds(x: real, n: int)
    ensures x - 0.5 < JsRound(x) as real <= x + 0.5
    ensures JsRound(n as real) == n
  {
  }

  /** The decrease button's size: one below the rounded size, never below 4. */
  function DecreaseSize(fontSize: real): (n: int)
    ensures n >= 4 && n >= JsRound(fontSize) - 1
    ensures n == 4 || n == JsRound(fontSize) - 1
  {
    if JsRound(fontSize) - 1 >= 4 then JsRound(fontSize) - 1 else 4
  }

  /** The increase button's size: one above the rounded size, never above 200. */
  function IncreaseSize(fontSize: real): (n: int)
    ensures n <= 200 && n <= JsRound(fontSize) + 1
    ensures n == 200 || n == JsRound(fontSize) + 1
  {
    if JsRound(fontSize) + 1 <= 200 then JsRound(fontSize) + 1 else 200
  }

  /** Inside the clamps the two buttons undo each other. */
  lemma SizeStepsInverse(n: int)
    ensures 5 <= n <= 200 ==> IncreaseSize(DecreaseSize(n as real) as real) == n
    ensures 4 <= n <= 199 ==> DecreaseSize(IncreaseSize(n as real) as real) == n
  {
    JsRoundBounds(n as real, n);
    JsRoundBounds((n - 1) as real, n - 1);
    JsRoundBounds((n + 1) as real, n + 1);
  }

  datatype FormatButton =
    | BoldButton
    | ItalicButton
    | FamilyButton(preset: FontPreset)
    | DecreaseSizeButton
    | IncreaseSizeButton
    | ColorButton(color: string)

  /** The patch each button of the format row sends, given the merged style. */
  function ButtonEdits(m: Style, button: FormatButton): StyleEdits {
    match button
    case BoldButton => NoStyleEdits.(isBold := Some(!m.isBold))
    case ItalicButton => NoStyleEdits.(isItalic := Some(!m.isItalic))
    case FamilyButton(p) => NoStyleEdits.(cssFontFamily := Some(p.css))
    case DecreaseSizeButton => NoStyleEdits.(fontSize := Some(DecreaseSize(m.fontSize) as real))
    case IncreaseSizeButton => NoStyleEdits.(fontSize := Some(IncreaseSize(m.fontSize) as real))
    case ColorButton(c) => NoStyleEdits.(color := Some(c))
  }

  /** A press of a format button; the row is shown only while a run is selected. */
  function PressFormatButton(s: EditorState, button: FormatButton): Option<EditorAction> {
    match MergedStyle(s)
    case None => None
    case Some(m) => UpdateStyle(s, ButtonEdits(m, button))
  }

  /** What each format button does to the selected run's merged style: the bold and
      italic buttons negate the merged value (an override, not the baseline), the
      others set one attribute, and nothing else changes. */
  lemma FormatButtonEffects(s: EditorState, button: FormatButton)
    requires SelectedText(s).Some?
    ensures PressFormatButton(s, button).Some?
    ensures MergedStyle(EditorContext.Step(s, PressFormatButton(s, button).value)).Some?
    ensures var m := MergedStyle(s).value;
      var after := MergedStyle(EditorContext.Step(s, PressFormatButton(s, button).value)).value;
      match button
      case BoldButton => after == m.(isBold := !m.isBold)
      case ItalicButton => after == m.(isItalic := !m.isItalic)
      case FamilyButton(p) => after == m.(cssFontFamily := p.css)
      case DecreaseSizeButton => after == m.(fontSize := DecreaseSize(m.fontSize) as real) && after.fontSize >= 4.0
      case IncreaseSizeButton => after == m.(fontSize := IncreaseSize(m.fontSize) as real) && after.fontSize <= 200.0
      case ColorButton(c) => after == m.(color := c)
  {
    UpdateStyleOverlays(s, ButtonEdits(MergedStyle(s).value, button));
  }

  /** Pressing bold twice restores the merged style. */
  lemma BoldTwiceRestores(s: EditorState)
    requires SelectedText(s).Some?
    ensures var s1 := EditorContext.Step(s, PressFormatButton(s, BoldButton).value);
      SelectedText(s1).Some?
      && MergedStyle(EditorContext.Step(s1, PressFormatButton(s1, BoldButton).value)) == MergedStyle(s)
  {
    FormatButtonEffects(s, BoldButton);
    var s1 := EditorContext.Step(s, PressFormatButton(s, BoldButton).value);
    FormatButtonEffects(s1, BoldButton);
  }

  // ---------------------------------------------------------------------------
  // Zoom

  const MinZoom: int := 50
  const MaxZoom: int := 300
  const ZoomStep: int := 25

  /** `setZoom(delta)`: dispatches the stepped zoom only when it stays within
      [0.5, 3]. On hundredths the source's rounding to two decimals is exact. */
  function ZoomBy(s: EditorState, delta: int): (a: Option<EditorAction>)
    ensures a.Some? ==> a.value.SetZoom? && MinZoom <= a.value.zoom <= MaxZoom
    ensures a.Some? <==> MinZoom <= s.zoom + delta <= MaxZoom
    ensures a.Some? ==> a.value == SetZoom(s.zoom + delta)
  {
    var next := s.zoom + delta;
    if MinZoom <= next <= MaxZoom then Some(SetZoom(next)) else None
  }

  /** Presses of the zoom buttons, each dispatched only if `setZoom` dispatches. */
  function ZoomPresses(s: EditorState, deltas: seq<int>): EditorState
    decreases |deltas|
  {
    if deltas == [] then s
    else
      var a := ZoomBy(s, deltas[0]);
      ZoomPresses(if a.Some? then EditorContext.Step(s, a.value) else s, deltas[1..])
  }

  /** A zoom that starts within [0.5, 3] stays there, whatever buttons are pressed,
      and a press that would leave the range changes nothing. */
  lemma {:induction false} ZoomStaysInRange(s: EditorState, deltas: seq<int>)
    requires MinZoom <= s.zoom <= MaxZoom
    ensures MinZoom <= ZoomPresses(s, deltas).zoom <= MaxZoom
    ensures ZoomPresses(s, deltas).(zoom := s.zoom) == s
    decreases |deltas|
  {
    if deltas != [] {
      var a := ZoomBy(s, deltas[0]);
      var s' := if a.Some? then EditorContext.Step(s, a.value) else s;
      ZoomStaysInRange(s', deltas[1..]);
    }
  }

  /** From the initial 100 %, four steps in reach 200 % and a step out from 50 % is refused. */
  lemma ZoomExamples(s: EditorState)
    ensures s.zoom == 100 ==> ZoomPresses(s, [ZoomStep, ZoomStep, ZoomStep, ZoomStep]).zoom == 200
    ensures s.zoom == MinZoom ==> ZoomBy(s, -ZoomStep) == None
    ensures s.zoom == MaxZoom ==> ZoomBy(s, ZoomStep) == None
  {
    if s.zoom == 100 {
      var deltas := [ZoomStep, ZoomStep, ZoomStep, ZoomStep];
      var s1 := s.(zoom := 125);
      var s2 := s.(zoom := 150);
      var s3 := s.(zoom := 175);
      var s4 := s.(zoom := 200);
      assert ZoomPresses(s4, deltas[4..]) == s4;
      assert ZoomPresses(s3, deltas[3..]) == ZoomPresses(s4, deltas[4..]);
      assert ZoomPresses(s2, deltas[2..]) == ZoomPresses(s3, deltas[2..][1..]);
      assert deltas[2..][1..] == deltas[3..];
      assert ZoomPresses(s1, deltas[1..]) == ZoomPresses(s2, deltas[1..][1..]);
      assert deltas[1..][1..] == deltas[2..];
      assert ZoomPresses(s, deltas) == ZoomPresses(s1, deltas[1..]);
    }
  }

  // ---------------------------------------------------------------------------
  // Edit count

  function EditedRun(): ExtractedText -> bool {
    (t: ExtractedText) => IsEdited(t)
  }

  /** The export button's badge. */
  function EditCount(s: EditorState): nat {
    |Filter(s.extractedTexts, EditedRun())| + |s.textBlocks| + |s.drawings|
  }

  /** Two blocks, three drawings and one edited run give 6. */
  lemma EditCountExample(s: EditorState, edited: ExtractedText, plain: ExtractedText)
    requires |s.textBlocks| == 2 && |s.drawings| == 3
    requires s.extractedTexts == [edited, plain] && IsEdited(edited) && !IsEdited(plain)
    ensures EditCount(s) == 6
  {
    assert Filter(s.extractedTexts, EditedRun()) == [edited] + Filter([plain], EditedRun());
  }

  /** Each added block or drawing adds one edit; a new document or a reset clears
      the count; edits never exceed runs plus blocks plus drawings. */
  lemma EditCountChanges(s: EditorState, b: TextBlock, d: DrawingPath, data: Bytes, name: string, n: int)
    ensures EditCount(EditorContext.Step(s, AddTextBlock(b))) == EditCount(s) + 1
    ensures EditCount(EditorContext.Step(s, AddDrawing(d))) == EditCount(s) + 1
    ensures EditCount(EditorContext.Step(s, Reset)) == 0
    ensures EditCount(EditorContext.Step(s, SetPdf(data, name, n))) == 0
    ensures EditCount(s) <= |s.extractedTexts| + |s.textBlocks| + |s.drawings|
  {
  }

  /** Replacing one element that the filter drops by one it keeps adds one to the
      filtered length. */
  lemma {:induction false} FilterReplaceOne<T(!new)>(xs: seq<T>, ys: seq<T>, k: nat, keep: T -> bool)
    requires |xs| == |ys| && k < |xs| && !keep(xs[k]) && keep(ys[k])
    requires forall j :: 0 <= j < |xs| && j != k ==> xs[j] == ys[j]
    ensures |Filter(ys, keep)| == |Filter(xs, keep)| + 1
  {
    if k == 0 {
      assert xs[1..] == ys[1..];
    } else {
      FilterReplaceOne(xs[1..], ys[1..], k - 1, keep);
    }
  }

  /** Typing into a run raises the count by one the first time its text differs. */
  lemma EditCountOnTextEdit(s: EditorState, k: nat, str: string)
    requires k < |s.extractedTexts| && !IsEdited(s.extractedTexts[k])
    requires str != s.extractedTexts[k].originalStr
    requires forall j :: 0 <= j < |s.extractedTexts| && j != k ==> s.extractedTexts[j].id != s.extractedTexts[k].id
    ensures EditCount(EditorContext.Step(s, UpdateExtractedText(s.extractedTexts[k].id, str))) == EditCount(s) + 1
  {
    var ts := s.extractedTexts;
    var r := EditorContext.SetEditedStr(ts, ts[k].id, str);
    assert IsEdited(r[k]);
    FilterReplaceOne(ts, r, k, EditedRun());
  }

  // ---------------------------------------------------------------------------
  // Export

  /** The toolbar's `isExporting` flag around `handleDownload`. The compile is
      `PdfUtils.CompilePdf`; serialising the document and handing it to the browser
      are outside the model, so a finished export is reported by the name the
      file is saved under. */
  class ExportButton {
    var isExporting: bool

    constructor()
      ensures !isExporting
    {
      isExporting := false;
    }

    /** The button is disabled while an export runs and when no document is loaded. */
    predicate Enabled(s: EditorState)
      reads this
    {
      !isExporting && s.pdfData.Some?
    }

    /** The start of `handleDownload`: without a document nothing happens;
        otherwise the flag goes up before the compile is awaited. */
    method BeginDownload(s: EditorState) returns (started: bool)
      modifies this
      ensures started <==> s.pdfData.Some?
      ensures started ==> isExporting && !Enabled(s)
      ensures !started ==> isExporting == old(isExporting)
    {
      if s.pdfData.None? {
        return false;
      }
      isExporting := true;
      started := true;
    }

    /** The `finally` of `handleDownload`: the flag comes down whether the compile
        succeeded or threw, and only a successful compile is downloaded. */
    method FinishDownload(s: EditorState, succeeded: bool) returns (savedAs: Option<string>)
      modifies this
      ensures !isExporting
      ensures savedAs == (if succeeded then Some(PdfUtils.DownloadName(s.fileName)) else None)
    {
      isExporting := false;
      savedAs := if succeeded then Some(PdfUtils.DownloadName(s.fileName)) else None;
    }
  }

  /** One click on an idle button: a loaded document is saved under a name ending
      in `_edited.pdf` and the button is usable again afterwards; without a
      document nothing is saved. */
  method ExportOnce(s: EditorState, succeeded: bool) returns (savedAs: Option<string>, enabledAfter: bool)
    ensures savedAs.Some? <==> s.pdfData.Some? && succeeded
    ensures savedAs.Some? ==> savedAs.value == PdfUtils.DownloadName(s.fileName)
    ensures savedAs.Some? ==> savedAs.value[|savedAs.value| - 11..] == "_edited.pdf"
    ensures enabledAfter <==> s.pdfData.Some?
  {
    var button := new ExportButton();
    var started := button.BeginDownload(s);
    savedAs := None;
    if started {
      savedAs := button.FinishDownload(s, succeeded);
    }
    enabledAfter := button.Enabled(s);
  }
}
