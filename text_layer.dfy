/** components/pdf-editor/text-layer.tsx: how a page's text runs become editable
    records (style resolution from the font object, the blank-run filter, field
    defaults, the once-only latch), where each record is placed on screen, and the
    click and key rules of the inline editor. pdf.js is outside the model: the text
    content, the font lookups, `Math.hypot` and the viewport mapping are inputs. */
module TextLayer {
  import opened Types
  import opened ArrayOps
  import opened JsString
  import opened Overlay

  // ---------------------------------------------------------------------------
  // Font data

  /** What the font lookup hands over: anything that is not an object, or an object
      whose `bold`/`italic` properties are or are not exactly `true` and whose
      `name` is a string or not. */
  datatype FontObject =
    | NotAnObject
    | FontRecord(boldIsTrue: bool, italicIsTrue: bool, name: Option<string>)

  /** How the lookup ended: with an object (synchronously or through the callback),
      by throwing twice, or by the 3-second timer firing first. */
  datatype FontLookup = Resolved(obj: FontObject) | LookupFailed | TimedOut

  datatype FontData = FontData(bold: bool, italic: bool, name: string)

  const Fallback := FontData(false, false, "")

  predicate NameSaysBold(lower: string) {
    Includes(lower, "bold") || Includes(lower, "black") || Includes(lower, "heavy")
  }

  predicate NameSaysItalic(lower: string) {
    Includes(lower, "italic") || Includes(lower, "oblique")
  }

  /** `processFont`: the flags, raised by the lower-cased name's tokens. */
  function ProcessFont(obj: FontObject): FontData {
    match obj
    case NotAnObject => Fallback
    case FontRecord(boldIsTrue, italicIsTrue, nameValue) =>
      var name := nameValue.GetOr("");
      var n := ToLower(name);
      FontData(boldIsTrue || (name != "" && NameSaysBold(n)),
               italicIsTrue || (name != "" && NameSaysItalic(n)),
               name)
  }

  /** `getFontData` */
  function GetFontData(lookup: FontLookup): FontData {
    match lookup
    case Resolved(obj) => ProcessFont(obj)
    case LookupFailed => Fallback
    case TimedOut => Fallback
  }

  /** Bold is the flag or a bold/black/heavy token in the name, in any letter case;
      italic is the flag or an italic/oblique token; anything but a font object
      gives plain, unnamed face data. */
  lemma FontDataRules(lookup: FontLookup)
    ensures var fd := GetFontData(lookup);
      match lookup
      case Resolved(FontRecord(b, i, n)) =>
        && fd.name == n.GetOr("")
        && (fd.bold <==> b || NameSaysBold(ToLower(n.GetOr(""))))
        && (fd.italic <==> i || NameSaysItalic(ToLower(n.GetOr(""))))
      case _ => fd == Fallback
    ensures forall name: string :: (GetFontData(Resolved(FontRecord(false, false, Some(name))))
      == GetFontData(Resolved(FontRecord(false, false, Some(ToLower(name))))).(name := name))
  {
    if lookup.Resolved? && lookup.obj.FontRecord? {
      var n := lookup.obj.name.GetOr("");
      if n == "" {
        assert ToLower(n) == "";
        NotIncludesChar("", "bold", 0);
        NotIncludesChar("", "black", 0);
        NotIncludesChar("", "heavy", 0);
        NotIncludesChar("", "italic", 0);
        NotIncludesChar("", "oblique", 0);
      }
    }
    forall name: string ensures GetFontData(Resolved(FontRecord(false, false, Some(name))))
      == GetFontData(Resolved(FontRecord(false, false, Some(ToLower(name))))).(name := name)
    {
      ToLowerIdempotent(name);
      assert name == "" <==> ToLower(name) == "";
    }
  }

  // ---------------------------------------------------------------------------
  // Extraction

  /** An entry of `content.items`: a text run, or a marked-content item without `str`. */
  datatype TextItem =
    | TextRun(str: string, transform: Matrix, width: real, height: real, fontName: string)
    | MarkedContent

  /** `styles[fontName]?.fontFamily || "sans-serif"` */
  function CssFontFamilyOf(styles: map<string, string>, fontName: string): (css: string)
    ensures css != ""
    ensures fontName in styles && styles[fontName] != "" ==> css == styles[fontName]
    ensures !(fontName in styles && styles[fontName] != "") ==> css == "sans-serif"
  {
    if fontName in styles && styles[fontName] != "" then styles[fontName] else "sans-serif"
  }

  /** The record one item yields: none for a non-run or a blank run. */
  function RecordOf(pageIndex: int, styles: map<string, string>, fontLookup: string -> FontLookup,
                    hypot: (real, real) -> real, item: TextItem, id: Id): seq<ExtractedText> {
    if !item.TextRun? || IsBlank(item.str) then []
    else
      var t := item.transform;
      var fd := GetFontData(fontLookup(item.fontName));
      [ExtractedText(id, pageIndex, item.str, None, t.e, t.f, hypot(t.a, t.b), item.width, item.height,
                     item.fontName, CssFontFamilyOf(styles, item.fontName), fd.bold, fd.italic,
                     "#000000", t, None)]
  }

  function RecordFor(pageIndex: int, styles: map<string, string>, fontLookup: string -> FontLookup,
                     hypot: (real, real) -> real): ((TextItem, Id)) -> seq<ExtractedText> {
    (p: (TextItem, Id)) => RecordOf(pageIndex, styles, fontLookup, hypot, p.0, p.1)
  }

  /** Each item paired with the id `generateId` would give it. */
  function Keyed(items: seq<TextItem>, ids: seq<Id>): seq<(TextItem, Id)>
    requires |ids| == |items|
  {
    seq(|items|, k requires 0 <= k < |items| => (items[k], ids[k]))
  }

  /** The records of a page, in item order. */
  function Records(pageIndex: int, items: seq<TextItem>, styles: map<string, string>,
                   fontLookup: string -> FontLookup, hypot: (real, real) -> real, ids: seq<Id>): seq<ExtractedText>
    requires |ids| == |items|
  {
    FlatMap(Keyed(items, ids), RecordFor(pageIndex, styles, fontLookup, hypot))
  }

  /** Every record comes from a non-blank run of the page, sits at the run's transform
      origin, and starts black with no edits; every non-blank run yields one. */
  lemma RecordsRules(pageIndex: int, items: seq<TextItem>, styles: map<string, string>,
                     fontLookup: string -> FontLookup, hypot: (real, real) -> real, ids: seq<Id>, r: ExtractedText)
    requires |ids| == |items|
    ensures r in Records(pageIndex, items, styles, fontLookup, hypot, ids) <==>
      exists k :: 0 <= k < |items| && items[k].TextRun? && !IsBlank(items[k].str)
        && r == RecordOf(pageIndex, styles, fontLookup, hypot, items[k], ids[k])[0]
    ensures r in Records(pageIndex, items, styles, fontLookup, hypot, ids) ==>
      && r.pageIndex == pageIndex && r.editedStr == None && r.styleEdits == None && r.color == "#000000"
      && !IsBlank(r.originalStr) && r.cssFontFamily != ""
      && r.pdfX == r.transform.e && r.pdfY == r.transform.f
  {
    var kd := Keyed(items, ids);
    var f := RecordFor(pageIndex, styles, fontLookup, hypot);
    FlatMapMember(kd, f, r);
    if exists k :: 0 <= k < |kd| && r in f(kd[k]) {
      var k :| 0 <= k < |kd| && r in f(kd[k]);
      assert kd[k] == (items[k], ids[k]);
    }
    if exists k :: 0 <= k < |items| && items[k].TextRun? && !IsBlank(items[k].str)
        && r == RecordOf(pageIndex, styles, fontLookup, hypot, items[k], ids[k])[0] {
      var k :| 0 <= k < |items| && items[k].TextRun? && !IsBlank(items[k].str)
        && r == RecordOf(pageIndex, styles, fontLookup, hypot, items[k], ids[k])[0];
      assert r in f(kd[k]);
    }
  }

  /** One record per non-blank run, none for the rest. */
  function CountRuns(items: seq<TextItem>): nat {
    if items == [] then 0
    else (if items[0].TextRun? && !IsBlank(items[0].str) then 1 else 0) + CountRuns(items[1..])
  }

  lemma {:induction false} RecordsCount(pageIndex: int, items: seq<TextItem>, styles: map<string, string>,
                                        fontLookup: string -> FontLookup, hypot: (real, real) -> real, ids: seq<Id>)
    requires |ids| == |items|
    ensures |Records(pageIndex, items, styles, fontLookup, hypot, ids)| == CountRuns(items)
  {
    if items != [] {
      RecordsCount(pageIndex, items[1..], styles, fontLookup, hypot, ids[1..]);
      assert Keyed(items, ids)[1..] == Keyed(items[1..], ids[1..]);
    }
  }

  /** The per-page component: the extraction latch and the id being edited inline. */
  class TextLayerInstance {
    var extracted: bool
    var editingId: Option<Id>

    constructor()
      ensures !extracted && editingId == None
    {
      extracted := false;
      editingId := None;
    }

    /** The extraction effect. The latch is set before any work, so a second run of
        the effect does nothing; the records reach `onTextsExtracted` only when
        there is at least one. The result is that callback's argument, if called. */
    method Extract(pageIndex: int, items: seq<TextItem>, styles: map<string, string>,
                   fontLookup: string -> FontLookup, hypot: (real, real) -> real, ids: seq<Id>)
      returns (reported: Option<seq<ExtractedText>>)
      requires |ids| == |items|
      modifies this
      ensures extracted && editingId == old(editingId)
      ensures old(extracted) ==> reported == None
      ensures !old(extracted) ==>
        var records := Records(pageIndex, items, styles, fontLookup, hypot, ids);
        reported == (if records == [] then None else Some(records))
    {
      reported := None;
      if extracted {
        return;
      }
      extracted := true;
      var texts: seq<ExtractedText> := [];
      ghost var kd := Keyed(items, ids);
      ghost var f := RecordFor(pageIndex, styles, fontLookup, hypot);
      for i := 0 to |items|
        invariant extracted && editingId == old(editingId)
        invariant texts == FlatMap(kd[..i], f)
      {
        var item := items[i];
        assert kd[..i + 1] == kd[..i] + [kd[i]];
        FlatMapSnoc(kd[..i], kd[i], f);
        if !item.TextRun? || IsBlank(item.str) {
          continue;
        }
        var t := item.transform;
        var fontSize := hypot(t.a, t.b);
        var cssFontFamily := if item.fontName in styles && styles[item.fontName] != "" then styles[item.fontName]
                             else "sans-serif";
        var fontData := GetFontData(fontLookup(item.fontName));
        texts := texts + [ExtractedText(ids[i], pageIndex, item.str, None, t.e, t.f, fontSize,
                                        item.width, item.height, item.fontName, cssFontFamily,
                                        fontData.bold, fontData.italic, "#000000", t, None)];
      }
      assert kd[..|items|] == kd;
      if |texts| > 0 {
        reported := Some(texts);
      }
    }

    /** `handleClick`: with the select tool, selects the run and opens its editor. */
    method Click(tool: Tool, id: Id) returns (dispatched: Option<EditorAction>)
      modifies this
      ensures extracted == old(extracted)
      ensures tool != Select ==> editingId == old(editingId) && dispatched == None
      ensures tool == Select ==> editingId == Some(id) && dispatched == Some(SelectExtractedText(Some(id)))
    {
      dispatched := None;
      if tool != Select {
        return;
      }
      dispatched := Some(SelectExtractedText(Some(id)));
      editingId := Some(id);
    }

    /** `handleBlur`: closes the editor and keeps the selection. */
    method Blur()
      modifies this
      ensures editingId == None && extracted == old(extracted)
    {
      editingId := None;
    }

    /** `handleKeyDown`: Escape closes the editor and clears the selection, Enter only
        closes the editor, other keys change nothing. */
    method KeyDown(key: string) returns (dispatched: Option<EditorAction>)
      modifies this
      ensures extracted == old(extracted)
      ensures key == "Escape" ==> editingId == None && dispatched == Some(SelectExtractedText(None))
      ensures key == "Enter" ==> editingId == None && dispatched == None
      ensures key != "Escape" && key != "Enter" ==> editingId == old(editingId) && dispatched == None
    {
      dispatched := None;
      if key == "Escape" {
        editingId := None;
        dispatched := Some(SelectExtractedText(None));
      } else if key == "Enter" {
        editingId := None;
      }
    }
  }

  // ---------------------------------------------------------------------------
  // Screen items

  /** A run as laid out on screen, with its merged attributes. */
  datatype ScreenItem = ScreenItem(
    text: ExtractedText,
    screenX: real,
    screenY: real,
    screenWidth: real,
    screenHeight: real,
    screenFontSize: real,
    merged: Style)

  function Max(a: real, b: real): real {
    if a >= b then a else b
  }

  /** Placement of one run at the viewport's scale; `toViewport` is the viewport's
      point conversion. */
  function ScreenItemOf(t: ExtractedText, scale: real, toViewport: (real, real) -> (real, real)): (item: ScreenItem)
    ensures item.text == t && item.merged == Effective(t)
    ensures item.screenFontSize == Effective(t).fontSize * scale
    ensures item.screenHeight >= 1.2 * item.screenFontSize && item.screenHeight >= t.pdfHeight * scale
    ensures item.screenHeight == 1.2 * item.screenFontSize || item.screenHeight == t.pdfHeight * scale
    ensures item.screenWidth >= 20.0 && item.screenWidth >= t.pdfWidth * scale
    ensures item.screenWidth == 20.0 || item.screenWidth == t.pdfWidth * scale
    ensures item.screenX == toViewport(t.pdfX, t.pdfY).0
    ensures item.screenY + item.screenHeight == toViewport(t.pdfX, t.pdfY).1
  {
    var merged := Effective(t);
    var (screenX, screenY) := toViewport(t.pdfX, t.pdfY);
    var screenFontSize := merged.fontSize * scale;
    var screenWidth := t.pdfWidth * scale;
    var screenHeight := Max(screenFontSize * 1.2, t.pdfHeight * scale);
    ScreenItem(t, screenX, screenY - screenHeight, Max(screenWidth, 20.0), screenHeight, screenFontSize, merged)
  }

  function OnPage(pageIndex: int): ExtractedText -> bool {
    (t: ExtractedText) => t.pageIndex == pageIndex
  }

  /** `screenItems`: the runs of this page, in order, laid out. */
  function ScreenItems(texts: seq<ExtractedText>, pageIndex: int, scale: real,
                       toViewport: (real, real) -> (real, real)): (items: seq<ScreenItem>)
    ensures |items| == |Filter(texts, OnPage(pageIndex))|
    ensures forall k :: 0 <= k < |items| ==> items[k].text.pageIndex == pageIndex && items[k].text in texts
    ensures forall k :: 0 <= k < |items| ==>
      items[k] == ScreenItemOf(Filter(texts, OnPage(pageIndex))[k], scale, toViewport)
  {
    var pageTexts := Filter(texts, OnPage(pageIndex));
    assert forall k :: 0 <= k < |pageTexts| ==> pageTexts[k] in pageTexts;
    seq(|pageTexts|, k requires 0 <= k < |pageTexts| => ScreenItemOf(pageTexts[k], scale, toViewport))
  }

  /** Every run of the page gets a screen item; runs of other pages get none. */
  lemma ScreenItemsCoverPage(texts: seq<ExtractedText>, pageIndex: int, scale: real,
                             toViewport: (real, real) -> (real, real), t: ExtractedText)
    ensures (exists k :: 0 <= k < |ScreenItems(texts, pageIndex, scale, toViewport)|
                && ScreenItems(texts, pageIndex, scale, toViewport)[k].text == t)
        <==> t in texts && t.pageIndex == pageIndex
  {
    var pageTexts := Filter(texts, OnPage(pageIndex));
    if t in texts && t.pageIndex == pageIndex {
      assert t in pageTexts;
      var k :| 0 <= k < |pageTexts| && pageTexts[k] == t;
      assert ScreenItems(texts, pageIndex, scale, toViewport)[k].text == t;
    }
  }
}
