/** lib/pdf-utils.ts: colour parsing, font choice, the per-page drawing rules of
    `compilePdf` (emitted as abstract drawing operations instead of PDF bytes) and
    the download file name. */
module PdfUtils {
  import opened Types
  import opened ArrayOps
  import opened JsString
  import opened Overlay

  // ---------------------------------------------------------------------------
  // Colours

  /** A pdf-lib `rgb(r, g, b)` colour. */
  datatype Rgb = Rgb(r: real, g: real, b: real)

  const Black := Rgb(0.0, 0.0, 0.0)
  const White := Rgb(1.0, 1.0, 1.0)
  const FooterGray := Rgb(0.45, 0.45, 0.45)

  /** `[a-f\d]` under the `i` flag. */
  predicate IsHexDigit(c: char) {
    '0' <= c <= '9' || 'a' <= c <= 'f' || 'A' <= c <= 'F'
  }

  predicate AllHexDigits(s: string) {
    forall i :: 0 <= i < |s| ==> IsHexDigit(s[i])
  }

  function HexDigitValue(c: char): (v: int)
    requires IsHexDigit(c)
    ensures 0 <= v < 16
  {
    if '0' <= c <= '9' then c as int - '0' as int
    else if 'a' <= c <= 'f' then c as int - 'a' as int + 10
    else c as int - 'A' as int + 10
  }

  /** The six digits captured by `/^#?([a-f\d]{2})([a-f\d]{2})([a-f\d]{2})$/i`, if it matches. */
  function MatchHexColor(s: string): (m: Option<string>)
    ensures m.Some? <==> (|s| == 7 && s[0] == '#' && AllHexDigits(s[1..])) || (|s| == 6 && AllHexDigits(s))
    ensures m.Some? ==> |m.value| == 6 && AllHexDigits(m.value)
    ensures m.Some? ==> s == m.value || s == "#" + m.value
  {
    if |s| == 7 && s[0] == '#' && AllHexDigits(s[1..]) then Some(s[1..])
    else if |s| == 6 && AllHexDigits(s) then Some(s)
    else None
  }

  /** `parseInt(pair, 16)` on the two digits at `i`. */
  function ByteAt(d: string, i: nat): (n: int)
    requires i + 1 < |d| && IsHexDigit(d[i]) && IsHexDigit(d[i + 1])
    ensures 0 <= n <= 255
  {
    16 * HexDigitValue(d[i]) + HexDigitValue(d[i + 1])
  }

  /** The three channel bytes of a colour string, or nothing when it does not match. */
  function ParseHexColor(s: string): Option<(int, int, int)> {
    match MatchHexColor(s)
    case None => None
    case Some(d) => Some((ByteAt(d, 0), ByteAt(d, 2), ByteAt(d, 4)))
  }

  /** `hexToRgb`: each channel is its byte divided by 255; black when the pattern fails. */
  function HexToRgb(s: string): (c: Rgb)
    ensures 0.0 <= c.r <= 1.0 && 0.0 <= c.g <= 1.0 && 0.0 <= c.b <= 1.0
    ensures MatchHexColor(s).None? ==> c == Black
    ensures MatchHexColor(s).Some? ==>
      var d := MatchHexColor(s).value;
      c == Rgb(ByteAt(d, 0) as real / 255.0, ByteAt(d, 2) as real / 255.0, ByteAt(d, 4) as real / 255.0)
  {
    match ParseHexColor(s)
    case None => Black
    case Some((r, g, b)) => Rgb(r as real / 255.0, g as real / 255.0, b as real / 255.0)
  }

  function HexChar(d: int): char
    requires 0 <= d < 16
  {
    if d < 10 then ('0' as int + d) as char else ('a' as int + d - 10) as char
  }

  lemma HexCharValue(d: int)
    requires 0 <= d < 16
    ensures IsHexDigit(HexChar(d)) && HexDigitValue(HexChar(d)) == d
  {
  }

  /** The `#rrggbb` spelling of three channel bytes. */
  function ToHexColor(r: int, g: int, b: int): string
    requires 0 <= r <= 255 && 0 <= g <= 255 && 0 <= b <= 255
  {
    ['#', HexChar(r / 16), HexChar(r % 16), HexChar(g / 16), HexChar(g % 16), HexChar(b / 16), HexChar(b % 16)]
  }

  /** Reading back a spelled colour, with or without its `#`, gives its bytes, and
      channels byte/255. */
  lemma HexColorRoundTrip(r: int, g: int, b: int)
    requires 0 <= r <= 255 && 0 <= g <= 255 && 0 <= b <= 255
    ensures ParseHexColor(ToHexColor(r, g, b)) == Some((r, g, b))
    ensures ParseHexColor(ToHexColor(r, g, b)[1..]) == Some((r, g, b))
    ensures HexToRgb(ToHexColor(r, g, b)) == Rgb(r as real / 255.0, g as real / 255.0, b as real / 255.0)
    ensures HexToRgb(ToHexColor(r, g, b)[1..]) == Rgb(r as real / 255.0, g as real / 255.0, b as real / 255.0)
  {
    var s := ToHexColor(r, g, b);
    var d := s[1..];
    HexCharValue(r / 16);
    HexCharValue(r % 16);
    HexCharValue(g / 16);
    HexCharValue(g % 16);
    HexCharValue(b / 16);
    HexCharValue(b % 16);
    assert AllHexDigits(d);
    assert ByteAt(d, 0) == r && ByteAt(d, 2) == g && ByteAt(d, 4) == b;
  }

  /** Only a six-digit form can match: the three-digit shorthand `#abc` and every
      other length give black. */
  lemma OtherLengthsAreBlack(s: string)
    requires |s| != 6 && |s| != 7
    ensures ParseHexColor(s) == None && HexToRgb(s) == Black
  {
  }

  /** A string of the right length that breaks the pattern is black too: a
      seven-character string must start with `#`, and every digit must be hex. */
  lemma MalformedColoursAreBlack()
    ensures HexToRgb("x123456") == Black
    ensures HexToRgb("#12345g") == Black
    ensures HexToRgb("12345g") == Black
  {
    assert !IsHexDigit("x123456"[0]);
    assert !IsHexDigit("#12345g"[1..][5]);
    assert !IsHexDigit("12345g"[5]);
  }

  lemma LowerHexDigit(c: char)
    ensures IsHexDigit(LowerChar(c)) == IsHexDigit(c)
    ensures IsHexDigit(c) ==> HexDigitValue(LowerChar(c)) == HexDigitValue(c)
  {
  }

  /** Six digits read the same in either case. */
  lemma LowerSixDigits(d: string)
    requires |d| == 6
    ensures AllHexDigits(ToLower(d)) == AllHexDigits(d)
    ensures AllHexDigits(d) ==>
      ByteAt(ToLower(d), 0) == ByteAt(d, 0) && ByteAt(ToLower(d), 2) == ByteAt(d, 2)
      && ByteAt(ToLower(d), 4) == ByteAt(d, 4)
  {
    forall i | 0 <= i < 6
      ensures IsHexDigit(ToLower(d)[i]) == IsHexDigit(d[i])
      ensures IsHexDigit(d[i]) ==> HexDigitValue(ToLower(d)[i]) == HexDigitValue(d[i])
    {
      LowerHexDigit(d[i]);
    }
  }

  /** The match ignores letter case. */
  lemma {:induction false} HexColorIgnoresCase(s: string)
    ensures ParseHexColor(ToLower(s)) == ParseHexColor(s)
  {
    if |s| == 7 {
      assert ToLower(s)[1..] == ToLower(s[1..]);
      assert ToLower(s)[0] == '#' <==> s[0] == '#';
      LowerSixDigits(s[1..]);
    } else if |s| == 6 {
      LowerSixDigits(s);
    }
  }

  // ---------------------------------------------------------------------------
  // Fonts

  datatype FontStyle = Regular | Bold | Italic | BoldItalic {
    predicate IsBold() { this == Bold || this == BoldItalic }
    predicate IsItalic() { this == Italic || this == BoldItalic }
  }

  /** `pickFont`: the face whose weight and slant are exactly the flags given. */
  function PickFont(isBold: bool, isItalic: bool): (st: FontStyle)
    ensures st.IsBold() == isBold && st.IsItalic() == isItalic
  {
    if isBold && isItalic then BoldItalic
    else if isBold then Bold
    else if isItalic then Italic
    else Regular
  }

  /** Every face is chosen by exactly one pair of flags. */
  lemma PickFontExhaustive(st: FontStyle)
    ensures PickFont(st.IsBold(), st.IsItalic()) == st
  {
  }

  datatype FontFamily = Sans | Serif | Mono

  /** The twelve standard fonts the compiler embeds. */
  datatype StandardFont =
    | Helvetica | HelveticaBold | HelveticaOblique | HelveticaBoldOblique
    | TimesRoman | TimesRomanBold | TimesRomanItalic | TimesRomanBoldItalic
    | Courier | CourierBold | CourierOblique | CourierBoldOblique

  /** The `fonts` table: family and style to embedded font. */
  function EmbeddedFont(family: FontFamily, style: FontStyle): StandardFont {
    match (family, style)
    case (Sans, Regular) => Helvetica
    case (Sans, Bold) => HelveticaBold
    case (Sans, Italic) => HelveticaOblique
    case (Sans, BoldItalic) => HelveticaBoldOblique
    case (Serif, Regular) => TimesRoman
    case (Serif, Bold) => TimesRomanBold
    case (Serif, Italic) => TimesRomanItalic
    case (Serif, BoldItalic) => TimesRomanBoldItalic
    case (Mono, Regular) => Courier
    case (Mono, Bold) => CourierBold
    case (Mono, Italic) => CourierOblique
    case (Mono, BoldItalic) => CourierBoldOblique
  }

  function FamilyOf(f: StandardFont): FontFamily {
    if f.Helvetica? || f.HelveticaBold? || f.HelveticaOblique? || f.HelveticaBoldOblique? then Sans
    else if f.TimesRoman? || f.TimesRomanBold? || f.TimesRomanItalic? || f.TimesRomanBoldItalic? then Serif
    else Mono
  }

  function StyleOf(f: StandardFont): FontStyle {
    if f.Helvetica? || f.TimesRoman? || f.Courier? then Regular
    else if f.HelveticaBold? || f.TimesRomanBold? || f.CourierBold? then Bold
    else if f.HelveticaOblique? || f.TimesRomanItalic? || f.CourierOblique? then Italic
    else BoldItalic
  }

  /** The table is a bijection: no two (family, style) pairs share a font. */
  lemma EmbeddedFontBijective(family: FontFamily, style: FontStyle, f: StandardFont)
    ensures FamilyOf(EmbeddedFont(family, style)) == family && StyleOf(EmbeddedFont(family, style)) == style
    ensures EmbeddedFont(FamilyOf(f), StyleOf(f)) == f
  {
  }

  /** `detectFontFamily`, on the lower-cased family string. */
  function DetectFontFamily(cssFontFamily: string): FontFamily {
    var lower := ToLower(cssFontFamily);
    if Includes(lower, "courier") || Includes(lower, "mono") || Includes(lower, "consolas") then Mono
    else if Includes(lower, "times") || Includes(lower, "georgia")
      || (Includes(lower, "serif") && !Includes(lower, "sans")) then Serif
    else Sans
  }

  /** The classification ignores case, and the monospace test is made first: a
      family is monospace exactly when its lower-cased name mentions courier, mono or
      consolas, serif exactly when it does not and mentions times or georgia, or serif
      without sans, and sans-serif in every other case. */
  lemma DetectFontFamilyRules(css: string)
    ensures DetectFontFamily(ToLower(css)) == DetectFontFamily(css)
    ensures DetectFontFamily(css) == Mono <==>
      Includes(ToLower(css), "courier") || Includes(ToLower(css), "mono") || Includes(ToLower(css), "consolas")
    ensures DetectFontFamily(css) == Serif <==>
      !(Includes(ToLower(css), "courier") || Includes(ToLower(css), "mono") || Includes(ToLower(css), "consolas"))
      && (Includes(ToLower(css), "times") || Includes(ToLower(css), "georgia")
          || (Includes(ToLower(css), "serif") && !Includes(ToLower(css), "sans")))
    ensures Includes(ToLower(css), "mono") ==> DetectFontFamily(css) == Mono
    ensures DetectFontFamily(css) == Serif ==>
      !Includes(ToLower(css), "mono") && !Includes(ToLower(css), "courier")
      && (Includes(ToLower(css), "serif") || Includes(ToLower(css), "times") || Includes(ToLower(css), "georgia"))
    ensures DetectFontFamily(css) == Sans ==> !Includes(ToLower(css), "serif") || Includes(ToLower(css), "sans")
  {
    ToLowerIdempotent(css);
  }

  // ---------------------------------------------------------------------------
  // Drawing operations of the compiler

  datatype PageSize = PageSize(width: real, height: real)

  /** One call on a pdf-lib page: `drawRectangle`, `drawText` or `drawImage`. */
  datatype DrawOp =
    | DrawRectangle(x: real, y: real, width: real, height: real, color: Rgb)
    | DrawText(text: string, x: real, y: real, size: real, font: StandardFont, color: Rgb)
    | DrawImage(x: real, y: real, width: real, height: real)

  /** The white box painted over an edited run. Its size comes from the extracted
      font size, never from an override: it pads the run by a fifth of the size on
      each side, and runs from 0.3 sizes below the baseline to 1.1 sizes above it. */
  function OcclusionRect(t: ExtractedText): (op: DrawOp)
    ensures op.DrawRectangle? && op.color == White
    ensures op.x == t.pdfX - t.pdfFontSize / 5.0 && op.x + op.width == t.pdfX + t.pdfWidth + t.pdfFontSize / 5.0
    ensures op.y == t.pdfY - 0.3 * t.pdfFontSize && op.y + op.height == t.pdfY + 1.1 * t.pdfFontSize
  {
    var padding := t.pdfFontSize * 0.2;
    DrawRectangle(t.pdfX - padding, t.pdfY - t.pdfFontSize * 0.3, t.pdfWidth + padding * 2.0, t.pdfFontSize * 1.4, White)
  }

  /** Style overrides and text edits never move or resize the white box. */
  lemma OcclusionIgnoresOverrides(t: ExtractedText, edits: Option<StyleEdits>, edited: Option<string>)
    ensures OcclusionRect(t.(styleEdits := edits, editedStr := edited)) == OcclusionRect(t)
  {
  }

  /** The replacement text of an edited run, drawn with its effective attributes. */
  function ReplacementText(t: ExtractedText): DrawOp {
    var st := Effective(t);
    DrawText(CurrentString(t), t.pdfX, t.pdfY, st.fontSize,
         EmbeddedFont(DetectFontFamily(st.cssFontFamily), PickFont(st.isBold, st.isItalic)),
         HexToRgb(st.color))
  }

  /** What one edited run adds to its page: the white box, then the text if not blank. */
  function RedrawOps(t: ExtractedText): seq<DrawOp> {
    [OcclusionRect(t)] + (if IsBlank(CurrentString(t)) then [] else [ReplacementText(t)])
  }

  /** The compiler's run filter for page `page`. */
  function RedrawnOn(page: int): ExtractedText -> bool {
    (t: ExtractedText) => t.pageIndex == page && IsEdited(t)
  }

  function BlockOnPage(page: int): TextBlock -> bool {
    (b: TextBlock) => b.pageIndex == page
  }

  /** A position and size in document space. */
  datatype Anchor = Anchor(x: real, y: real, size: real)

  /** Display to document space for a text block: x and size scale by `scaleX`,
      y flips about the page height and drops by one font size to the baseline. */
  function ToDocument(b: TextBlock, scaleX: real, scaleY: real, pdfHeight: real): Anchor {
    var size := b.fontSize * scaleX;
    Anchor(b.x * scaleX, pdfHeight - b.y * scaleY - size, size)
  }

  /** The inverse mapping, from a document anchor back to display x, y and font size. */
  function ToDisplay(a: Anchor, scaleX: real, scaleY: real, pdfHeight: real): (real, real, real)
    requires scaleX != 0.0 && scaleY != 0.0
  {
    (a.x / scaleX, (pdfHeight - a.y - a.size) / scaleY, a.size / scaleX)
  }

  lemma ScaleCancels(v: real, scale: real)
    requires scale != 0.0
    ensures (v * scale) / scale == v
  {
  }

  lemma ScaleMonotone(v: real, w: real, scale: real)
    requires scale > 0.0 && v < w
    ensures v * scale < w * scale
  {
    assert w * scale - v * scale == (w - v) * scale;
  }

  /** Mapping to the document and back recovers the block's display position and size. */
  lemma ToDocumentRoundTrip(b: TextBlock, scaleX: real, scaleY: real, pdfHeight: real)
    requires scaleX != 0.0 && scaleY != 0.0
    ensures ToDisplay(ToDocument(b, scaleX, scaleY, pdfHeight), scaleX, scaleY, pdfHeight) == (b.x, b.y, b.fontSize)
  {
    var a := ToDocument(b, scaleX, scaleY, pdfHeight);
    var x, y, size := b.x * scaleX, b.y * scaleY, b.fontSize * scaleX;
    ScaleCancels(b.x, scaleX);
    ScaleCancels(b.y, scaleY);
    ScaleCancels(b.fontSize, scaleX);
    assert a == Anchor(x, pdfHeight - y - size, size);
    assert pdfHeight - a.y - a.size == y;
    assert ToDisplay(a, scaleX, scaleY, pdfHeight) == (x / scaleX, y / scaleY, size / scaleX);
    assert x / scaleX == b.x;
    assert y / scaleY == b.y;
    assert size / scaleX == b.fontSize;
  }

  /** With a positive vertical scale, moving a block down the screen moves its
      baseline down the page. */
  lemma ToDocumentFlipsY(b1: TextBlock, b2: TextBlock, scaleX: real, scaleY: real, pdfHeight: real)
    requires scaleY > 0.0 && b1.fontSize == b2.fontSize && b1.y < b2.y
    ensures ToDocument(b1, scaleX, scaleY, pdfHeight).y > ToDocument(b2, scaleX, scaleY, pdfHeight).y
  {
    var y1, y2, size := b1.y * scaleY, b2.y * scaleY, b1.fontSize * scaleX;
    ScaleMonotone(b1.y, b2.y, scaleY);
    assert ToDocument(b1, scaleX, scaleY, pdfHeight).y == pdfHeight - y1 - size;
    assert ToDocument(b2, scaleX, scaleY, pdfHeight).y == pdfHeight - y2 - size;
  }

  /** Line `k` of a block: one line height (1.2 font sizes) per line below the first. */
  function LineOp(line: string, k: int, a: Anchor, font: StandardFont, color: Rgb): DrawOp {
    DrawText(line, a.x, a.y - (k as real) * a.size * 1.2, a.size, font, color)
  }

  function BlockLines(b: TextBlock, scaleX: real, scaleY: real, pdfHeight: real): seq<DrawOp> {
    var a := ToDocument(b, scaleX, scaleY, pdfHeight);
    var lines := Split(b.text, '\n');
    var font := EmbeddedFont(Sans, PickFont(b.bold, b.italic));
    seq(|lines|, k requires 0 <= k < |lines| => LineOp(lines[k], k, a, font, HexToRgb(b.color)))
  }

  /** What one text block of the page adds: nothing when blank, else one text per line. */
  function BlockOps(b: TextBlock, scaleX: real, scaleY: real, pdfHeight: real): seq<DrawOp> {
    if IsBlank(b.text) then [] else BlockLines(b, scaleX, scaleY, pdfHeight)
  }

  function BlockOpsAt(scaleX: real, scaleY: real, pdfHeight: real): TextBlock -> seq<DrawOp> {
    (b: TextBlock) => BlockOps(b, scaleX, scaleY, pdfHeight)
  }

  /** The footer `Page {i+1} / {n}`. */
  function FooterText(i: nat, n: nat): string {
    "Page " + NatToString(i + 1) + " / " + NatToString(n)
  }

  /** The footer in grey Helvetica of size 10 at height 14, centred on the page. */
  function FooterOp(i: nat, n: nat, pdfWidth: real, widthOfText: (string, real) -> real): (op: DrawOp)
    ensures op.DrawText? && op.text == FooterText(i, n) && op.size == 10.0 && op.y == 14.0
    ensures op.font == Helvetica && op.color == FooterGray
    ensures op.x + widthOfText(op.text, op.size) / 2.0 == pdfWidth / 2.0
  {
    var text := FooterText(i, n);
    DrawText(text, (pdfWidth - widthOfText(text, 10.0)) / 2.0, 14.0, 10.0, Helvetica, FooterGray)
  }

  /** Recorded display sizes are nonzero, so the scale factors are defined. */
  predicate ValidDimensions(dims: map<int, PageDimensions>) {
    forall p :: p in dims ==> dims[p].width != 0.0 && dims[p].height != 0.0
  }

  /** Everything drawn on page `i`, in order: edited runs, text blocks, ink, footer.
      A page without recorded dimensions gets nothing at all. */
  function PageOps(i: nat, pages: seq<PageSize>, blocks: seq<TextBlock>, texts: seq<ExtractedText>,
                   dims: map<int, PageDimensions>, inkPages: set<int>,
                   widthOfText: (string, real) -> real): seq<DrawOp>
    requires i < |pages| && ValidDimensions(dims)
  {
    if i !in dims then []
    else
      var pdfWidth, pdfHeight := pages[i].width, pages[i].height;
      var scaleX, scaleY := pdfWidth / dims[i].width, pdfHeight / dims[i].height;
      FlatMap(Filter(texts, RedrawnOn(i)), RedrawOps)
      + FlatMap(Filter(blocks, BlockOnPage(i)), BlockOpsAt(scaleX, scaleY, pdfHeight))
      + (if i in inkPages then [DrawImage(0.0, 0.0, pdfWidth, pdfHeight)] else [])
      + [FooterOp(i, |pages|, pdfWidth, widthOfText)]
  }

  /** One edited run: a white box padded by a fifth of the font size, then the
      run's current string in its effective style unless that string is blank. */
  method RedrawRun(et: ExtractedText) returns (added: seq<DrawOp>)
    ensures added == RedrawOps(et)
  {
    var padding := et.pdfFontSize * 0.2;
    added := [DrawRectangle(et.pdfX - padding, et.pdfY - et.pdfFontSize * 0.3,
                            et.pdfWidth + padding * 2.0, et.pdfFontSize * 1.4, White)];
    var textToDraw := et.editedStr.GetOr(et.originalStr);
    if !IsBlank(textToDraw) {
      var st := Effective(et);
      var font := EmbeddedFont(DetectFontFamily(st.cssFontFamily), PickFont(st.isBold, st.isItalic));
      added := added + [DrawText(textToDraw, et.pdfX, et.pdfY, st.fontSize, font, HexToRgb(st.color))];
    }
  }

  /** The first loop of a page: a white box over each edited run, then its text. */
  method DrawEditedRuns(editedTexts: seq<ExtractedText>) returns (ops: seq<DrawOp>)
    ensures ops == FlatMap(editedTexts, RedrawOps)
  {
    ops := [];
    for j := 0 to |editedTexts|
      invariant ops == FlatMap(editedTexts[..j], RedrawOps)
    {
      var et := editedTexts[j];
      var added := RedrawRun(et);
      ops := ops + added;
      FlatMapSnoc(editedTexts[..j], et, RedrawOps);
      assert editedTexts[..j + 1] == editedTexts[..j] + [et];
    }
    assert editedTexts[..|editedTexts|] == editedTexts;
  }

  /** The inner loop over the lines of one non-blank text block. */
  method DrawBlockLines(block: TextBlock, scaleX: real, scaleY: real, pdfHeight: real) returns (ops: seq<DrawOp>)
    ensures ops == BlockLines(block, scaleX, scaleY, pdfHeight)
  {
    var font := EmbeddedFont(Sans, PickFont(block.bold, block.italic));
    var pdfFontSize := block.fontSize * scaleX;
    var pdfX := block.x * scaleX;
    var pdfY := pdfHeight - block.y * scaleY - pdfFontSize;
    var lines := Split(block.text, '\n');
    ghost var a := Anchor(pdfX, pdfY, pdfFontSize);
    ops := [];
    for lineIndex := 0 to |lines|
      invariant |ops| == lineIndex
      invariant forall m :: 0 <= m < lineIndex ==> ops[m] == LineOp(lines[m], m, a, font, HexToRgb(block.color))
    {
      ops := ops + [DrawText(lines[lineIndex], pdfX, pdfY - (lineIndex as real) * pdfFontSize * 1.2,
                             pdfFontSize, font, HexToRgb(block.color))];
    }
    assert a == ToDocument(block, scaleX, scaleY, pdfHeight);
  }

  /** The second loop of a page: the lines of each non-blank text block. */
  method DrawTextBlocks(pageTextBlocks: seq<TextBlock>, scaleX: real, scaleY: real, pdfHeight: real)
    returns (ops: seq<DrawOp>)
    ensures ops == FlatMap(pageTextBlocks, BlockOpsAt(scaleX, scaleY, pdfHeight))
  {
    ops := [];
    for j := 0 to |pageTextBlocks|
      invariant ops == FlatMap(pageTextBlocks[..j], BlockOpsAt(scaleX, scaleY, pdfHeight))
    {
      var block := pageTextBlocks[j];
      FlatMapSnoc(pageTextBlocks[..j], block, BlockOpsAt(scaleX, scaleY, pdfHeight));
      assert pageTextBlocks[..j + 1] == pageTextBlocks[..j] + [block];
      if IsBlank(block.text) {
        continue;
      }
      var lineOps := DrawBlockLines(block, scaleX, scaleY, pdfHeight);
      ops := ops + lineOps;
    }
    assert pageTextBlocks[..|pageTextBlocks|] == pageTextBlocks;
  }

  /** `compilePdf`: walks the pages and emits each page's drawing operations.
      `drawings` is accepted and never read, as in the source: ink reaches the
      output only through the pages' canvas snapshots (`inkPages`). */
  method CompilePdf(pages: seq<PageSize>, textBlocks: seq<TextBlock>, drawings: seq<DrawingPath>,
                    extractedTexts: seq<ExtractedText>, pageDimensions: map<int, PageDimensions>,
                    inkPages: set<int>, widthOfText: (string, real) -> real)
    returns (output: seq<seq<DrawOp>>)
    requires ValidDimensions(pageDimensions)
    ensures |output| == |pages|
    ensures forall i :: 0 <= i < |pages| ==>
      output[i] == PageOps(i, pages, textBlocks, extractedTexts, pageDimensions, inkPages, widthOfText)
  {
    output := [];
    for i := 0 to |pages|
      invariant |output| == i
      invariant forall k :: 0 <= k < i ==>
        output[k] == PageOps(k, pages, textBlocks, extractedTexts, pageDimensions, inkPages, widthOfText)
    {
      if i !in pageDimensions {
        PageWithoutDimensionsSkipped(i, pages, textBlocks, extractedTexts, pageDimensions, inkPages, widthOfText);
        output := output + [[]];
        continue;
      }
      var page := DrawPage(i, pages, textBlocks, extractedTexts, pageDimensions, inkPages, widthOfText);
      output := output + [page];
    }
  }

  /** The body of the page loop for a page with recorded dimensions: the scale from
      display to document units, then runs, blocks, ink and footer in that order. */
  method DrawPage(i: nat, pages: seq<PageSize>, textBlocks: seq<TextBlock>,
                  extractedTexts: seq<ExtractedText>, pageDimensions: map<int, PageDimensions>,
                  inkPages: set<int>, widthOfText: (string, real) -> real)
    returns (page: seq<DrawOp>)
    requires i < |pages| && ValidDimensions(pageDimensions) && i in pageDimensions
    ensures page == PageOps(i, pages, textBlocks, extractedTexts, pageDimensions, inkPages, widthOfText)
  {
    var dims := pageDimensions[i];
    var pdfWidth, pdfHeight := pages[i].width, pages[i].height;
    var scaleX, scaleY := pdfWidth / dims.width, pdfHeight / dims.height;
    page := DrawEditedRuns(Filter(extractedTexts, RedrawnOn(i)));
    var blockOps := DrawTextBlocks(Filter(textBlocks, BlockOnPage(i)), scaleX, scaleY, pdfHeight);
    page := page + blockOps;
    if i in inkPages {
      page := page + [DrawImage(0.0, 0.0, pdfWidth, pdfHeight)];
    }
    page := page + [FooterOp(i, |pages|, pdfWidth, widthOfText)];
  }

  // ---------------------------------------------------------------------------
  // What a compiled page contains

  /** A page without recorded dimensions is left untouched: no edits, ink or footer. */
  lemma PageWithoutDimensionsSkipped(i: nat, pages: seq<PageSize>, blocks: seq<TextBlock>,
                                     texts: seq<ExtractedText>, dims: map<int, PageDimensions>,
                                     inkPages: set<int>, widthOfText: (string, real) -> real)
    requires i < |pages| && ValidDimensions(dims) && i !in dims
    ensures PageOps(i, pages, blocks, texts, dims, inkPages, widthOfText) == []
  {
  }

  /** Every other page ends with the footer, whatever the pagination settings. */
  lemma FooterAlwaysLast(i: nat, pages: seq<PageSize>, blocks: seq<TextBlock>,
                         texts: seq<ExtractedText>, dims: map<int, PageDimensions>,
                         inkPages: set<int>, widthOfText: (string, real) -> real)
    requires i < |pages| && ValidDimensions(dims) && i in dims
    ensures var ops := PageOps(i, pages, blocks, texts, dims, inkPages, widthOfText);
      |ops| >= 1 && ops[|ops| - 1] == FooterOp(i, |pages|, pages[i].width, widthOfText)
      && ops[|ops| - 1].text == FooterText(i, |pages|)
  {
  }

  lemma RedrawOpsHaveNoImage(t: ExtractedText)
    ensures forall op :: op in RedrawOps(t) ==> !op.DrawImage?
  {
  }

  lemma BlockOpsAreText(b: TextBlock, scaleX: real, scaleY: real, pdfHeight: real)
    ensures forall op :: op in BlockOps(b, scaleX, scaleY, pdfHeight) ==> op.DrawText?
  {
    if !IsBlank(b.text) {
      var ops := BlockLines(b, scaleX, scaleY, pdfHeight);
      forall op | op in ops ensures op.DrawText? {
        var k :| 0 <= k < |ops| && ops[k] == op;
      }
    }
  }

  /** The only image on a compiled page is the ink layer, covering the whole page,
      and it is there exactly when the page has an ink canvas. */
  lemma InkCoversPage(i: nat, pages: seq<PageSize>, blocks: seq<TextBlock>,
                      texts: seq<ExtractedText>, dims: map<int, PageDimensions>,
                      inkPages: set<int>, widthOfText: (string, real) -> real)
    requires i < |pages| && ValidDimensions(dims) && i in dims
    ensures var ops := PageOps(i, pages, blocks, texts, dims, inkPages, widthOfText);
      var full := DrawImage(0.0, 0.0, pages[i].width, pages[i].height);
      && (full in ops <==> i in inkPages)
      && (forall op :: op in ops && op.DrawImage? ==> op == full)
  {
    var pdfWidth, pdfHeight := pages[i].width, pages[i].height;
    var scaleX, scaleY := pdfWidth / dims[i].width, pdfHeight / dims[i].height;
    var runs := Filter(texts, RedrawnOn(i));
    var bs := Filter(blocks, BlockOnPage(i));
    var f: TextBlock -> seq<DrawOp> := BlockOpsAt(scaleX, scaleY, pdfHeight);
    forall op: DrawOp | op in FlatMap(runs, RedrawOps) ensures !op.DrawImage? {
      FlatMapMember(runs, RedrawOps, op);
      var k :| 0 <= k < |runs| && op in RedrawOps(runs[k]);
      RedrawOpsHaveNoImage(runs[k]);
    }
    forall op: DrawOp | op in FlatMap(bs, f) ensures !op.DrawImage? {
      FlatMapMember(bs, f, op);
      var k :| 0 <= k < |bs| && op in f(bs[k]);
      BlockOpsAreText(bs[k], scaleX, scaleY, pdfHeight);
    }
  }

  /** An operation of a page with dimensions comes from one of its four parts. */
  lemma PageOpsParts(i: nat, pages: seq<PageSize>, blocks: seq<TextBlock>,
                     texts: seq<ExtractedText>, dims: map<int, PageDimensions>,
                     inkPages: set<int>, widthOfText: (string, real) -> real, op: DrawOp)
    requires i < |pages| && ValidDimensions(dims) && i in dims
    ensures var pdfHeight := pages[i].height;
      var f: TextBlock -> seq<DrawOp> := BlockOpsAt(pages[i].width / dims[i].width, pdfHeight / dims[i].height, pdfHeight);
      (op in PageOps(i, pages, blocks, texts, dims, inkPages, widthOfText) <==>
        || op in FlatMap(Filter(texts, RedrawnOn(i)), RedrawOps)
        || op in FlatMap(Filter(blocks, BlockOnPage(i)), f)
        || (i in inkPages && op == DrawImage(0.0, 0.0, pages[i].width, pdfHeight))
        || op == FooterOp(i, |pages|, pages[i].width, widthOfText))
  {
  }

  /** The rectangles the run loop draws are the white boxes of its runs. */
  lemma RunRectangles(runs: seq<ExtractedText>, op: DrawOp)
    requires op.DrawRectangle?
    ensures op in FlatMap(runs, RedrawOps) <==> exists t :: t in runs && op == OcclusionRect(t)
  {
    FlatMapMember(runs, RedrawOps, op);
    if op in FlatMap(runs, RedrawOps) {
      var k :| 0 <= k < |runs| && op in RedrawOps(runs[k]);
      assert runs[k] in runs;
    }
    if exists t :: t in runs && op == OcclusionRect(t) {
      var t :| t in runs && op == OcclusionRect(t);
      var k :| 0 <= k < |runs| && runs[k] == t;
      assert op in RedrawOps(runs[k]);
    }
  }

  /** The block loop draws no rectangle. */
  lemma BlockLoopHasNoRectangle(bs: seq<TextBlock>, f: TextBlock -> seq<DrawOp>,
                                scaleX: real, scaleY: real, pdfHeight: real, op: DrawOp)
    requires f == BlockOpsAt(scaleX, scaleY, pdfHeight) && op.DrawRectangle?
    ensures op !in FlatMap(bs, f)
  {
    FlatMapMember(bs, f, op);
    if op in FlatMap(bs, f) {
      var k :| 0 <= k < |bs| && op in f(bs[k]);
      BlockOpsAreText(bs[k], scaleX, scaleY, pdfHeight);
    }
  }

  /** The white boxes on a compiled page are exactly those of the page's edited runs. */
  lemma OcclusionsAreEditedRuns(i: nat, pages: seq<PageSize>, blocks: seq<TextBlock>,
                                texts: seq<ExtractedText>, dims: map<int, PageDimensions>,
                                inkPages: set<int>, widthOfText: (string, real) -> real, op: DrawOp)
    requires i < |pages| && ValidDimensions(dims) && i in dims && op.DrawRectangle?
    ensures op in PageOps(i, pages, blocks, texts, dims, inkPages, widthOfText)
        <==> exists t :: t in texts && t.pageIndex == i && IsEdited(t) && op == OcclusionRect(t)
  {
    var pdfHeight := pages[i].height;
    var scaleX, scaleY := pages[i].width / dims[i].width, pdfHeight / dims[i].height;
    var f: TextBlock -> seq<DrawOp> := BlockOpsAt(scaleX, scaleY, pdfHeight);
    var runs := Filter(texts, RedrawnOn(i));
    PageOpsParts(i, pages, blocks, texts, dims, inkPages, widthOfText, op);
    BlockLoopHasNoRectangle(Filter(blocks, BlockOnPage(i)), f, scaleX, scaleY, pdfHeight, op);
    RunRectangles(runs, op);
    assert forall t :: t in runs <==> t in texts && t.pageIndex == i && IsEdited(t);
  }

  /** An edited run always gets its white box; its text follows only when the
      current string is not blank. */
  lemma RedrawOpsRules(t: ExtractedText)
    ensures IsBlank(CurrentString(t)) ==> RedrawOps(t) == [OcclusionRect(t)]
    ensures !IsBlank(CurrentString(t)) ==> RedrawOps(t) == [OcclusionRect(t), ReplacementText(t)]
  {
  }

  /** An edited run of the page whose current string is not blank has its
      replacement text, in its effective style, drawn on the page. */
  lemma ReplacementTextDrawn(i: nat, pages: seq<PageSize>, blocks: seq<TextBlock>,
                             texts: seq<ExtractedText>, dims: map<int, PageDimensions>,
                             inkPages: set<int>, widthOfText: (string, real) -> real, t: ExtractedText)
    requires i < |pages| && ValidDimensions(dims) && i in dims
    requires t in texts && t.pageIndex == i && IsEdited(t) && !IsBlank(CurrentString(t))
    ensures ReplacementText(t) in PageOps(i, pages, blocks, texts, dims, inkPages, widthOfText)
  {
    var runs := Filter(texts, RedrawnOn(i));
    var op := ReplacementText(t);
    assert t in runs;
    var j :| 0 <= j < |runs| && runs[j] == t;
    assert op in RedrawOps(runs[j]);
    FlatMapMember(runs, RedrawOps, op);
    PageOpsParts(i, pages, blocks, texts, dims, inkPages, widthOfText, op);
  }

  /** Each line of a non-blank block on the page is drawn at its line offset. */
  lemma BlockLinesDrawn(i: nat, pages: seq<PageSize>, blocks: seq<TextBlock>,
                        texts: seq<ExtractedText>, dims: map<int, PageDimensions>,
                        inkPages: set<int>, widthOfText: (string, real) -> real, b: TextBlock, k: nat)
    requires i < |pages| && ValidDimensions(dims) && i in dims
    requires b in blocks && b.pageIndex == i && !IsBlank(b.text) && k < |Split(b.text, '\n')|
    ensures var a := ToDocument(b, pages[i].width / dims[i].width, pages[i].height / dims[i].height, pages[i].height);
      LineOp(Split(b.text, '\n')[k], k, a, EmbeddedFont(Sans, PickFont(b.bold, b.italic)), HexToRgb(b.color))
        in PageOps(i, pages, blocks, texts, dims, inkPages, widthOfText)
  {
    var pdfWidth, pdfHeight := pages[i].width, pages[i].height;
    var scaleX, scaleY := pdfWidth / dims[i].width, pdfHeight / dims[i].height;
    var bs := Filter(blocks, BlockOnPage(i));
    var f: TextBlock -> seq<DrawOp> := BlockOpsAt(scaleX, scaleY, pdfHeight);
    var a := ToDocument(b, scaleX, scaleY, pdfHeight);
    var op := BlockLines(b, scaleX, scaleY, pdfHeight)[k];
    assert b in bs;
    var j :| 0 <= j < |bs| && bs[j] == b;
    assert op in f(bs[j]);
    FlatMapMember(bs, f, op);
  }

  // ---------------------------------------------------------------------------
  // Download name

  /** `fileName.replace(/\.pdf$/i, "")` */
  function StripPdfSuffix(name: string): string {
    if |name| >= 4 && ToLower(name[|name| - 4..]) == ".pdf" then name[..|name| - 4] else name
  }

  /** The name the download is saved under. */
  function DownloadName(fileName: string): (r: string)
    ensures |r| >= 11 && r[|r| - 11..] == "_edited.pdf"
  {
    StripPdfSuffix(fileName) + "_edited.pdf"
  }

  /** One trailing `.pdf`, in any letter case, is replaced; anything else is kept whole. */
  lemma DownloadNameRules(base: string, ext: string)
    requires |ext| == 4 && ToLower(ext) == ".pdf"
    ensures DownloadName(base + ext) == base + "_edited.pdf"
    ensures DownloadName(base + ".PDF") == base + "_edited.pdf"
    ensures !(|base| >= 4 && ToLower(base[|base| - 4..]) == ".pdf") ==> DownloadName(base) == base + "_edited.pdf"
  {
    var n := base + ext;
    assert n[|n| - 4..] == ext && n[..|n| - 4] == base;
    var m := base + ".PDF";
    assert m[|m| - 4..] == ".PDF" && m[..|m| - 4] == base;
    assert ToLower(".PDF") == ".pdf";
  }
}
