/** The editor's records (lib/types.ts). Every optional or nullable field of the
    source is an `Option`; coordinates and sizes are reals; strings are `seq<char>`. */
module Types {

  datatype Option<+T> = None | Some(value: T) {
    /** `x ?? d` */
    function GetOr(default: T): T {
      match this
      case Some(v) => v
      case None => default
    }
  }

  type Id = string
  type Bytes = seq<bv8>

  datatype Tool = Select | Text | Draw | Highlight | Eraser

  /** A free text annotation placed by the user, in display coordinates. */
  datatype TextBlock = TextBlock(
    id: Id,
    pageIndex: int,
    x: real,
    y: real,
    width: real,
    text: string,
    fontSize: real,
    fontFamily: string,
    color: string,
    bold: bool,
    italic: bool)

  datatype Point = Point(x: real, y: real)

  /** A committed freehand or highlight stroke, in display coordinates. */
  datatype DrawingPath = DrawingPath(
    id: Id,
    pageIndex: int,
    points: seq<Point>,
    color: string,
    width: real,
    opacity: real)

  /** `Partial<ExtractedTextStyleEdits>`: every field may be absent. */
  datatype StyleEdits = StyleEdits(
    fontSize: Option<real>,
    isBold: Option<bool>,
    isItalic: Option<bool>,
    color: Option<string>,
    cssFontFamily: Option<string>)

  /** The six entries of a text run's transform matrix. */
  datatype Matrix = Matrix(a: real, b: real, c: real, d: real, e: real, f: real)

  /** One run of the document's own text, with the user's overrides. */
  datatype ExtractedText = ExtractedText(
    id: Id,
    pageIndex: int,
    originalStr: string,
    editedStr: Option<string>,
    pdfX: real,
    pdfY: real,
    pdfFontSize: real,
    pdfWidth: real,
    pdfHeight: real,
    fontName: string,
    cssFontFamily: string,
    isBold: bool,
    isItalic: bool,
    color: string,
    transform: Matrix,
    styleEdits: Option<StyleEdits>)

  datatype PageDimensions = PageDimensions(width: real, height: real, scale: real)

  datatype PaginationFormat = PageXOfY
  datatype PaginationPosition = BottomCenter | BottomRight
  datatype PaginationSettings = PaginationSettings(
    enabled: bool,
    format: PaginationFormat,
    position: PaginationPosition,
    fontSize: real)

  /** The store's state. `zoom` is kept in hundredths (100 is a zoom of 1).
      `pagination` is `None` when the field is absent from the object. */
  datatype EditorState = EditorState(
    pdfData: Option<Bytes>,
    fileName: string,
    numPages: int,
    currentTool: Tool,
    color: string,
    fontSize: real,
    strokeWidth: real,
    textBlocks: seq<TextBlock>,
    drawings: seq<DrawingPath>,
    extractedTexts: seq<ExtractedText>,
    pageDimensions: map<int, PageDimensions>,
    zoom: int,
    selectedExtractedTextId: Option<Id>,
    pagination: Option<PaginationSettings>)

  /** `Partial<TextBlock>`: every field may be absent, the id included. */
  datatype TextBlockPatch = TextBlockPatch(
    id: Option<Id>,
    pageIndex: Option<int>,
    x: Option<real>,
    y: Option<real>,
    width: Option<real>,
    text: Option<string>,
    fontSize: Option<real>,
    fontFamily: Option<string>,
    color: Option<string>,
    bold: Option<bool>,
    italic: Option<bool>)

  const EmptyPatch := TextBlockPatch(None, None, None, None, None, None, None, None, None, None, None)
  const NoStyleEdits := StyleEdits(None, None, None, None, None)

  datatype EditorAction =
    | SetPdf(data: Bytes, fileName: string, numPages: int)
    | SetTool(tool: Tool)
    | SetColor(color: string)
    | SetFontSize(size: real)
    | SetStrokeWidth(width: real)
    | AddTextBlock(block: TextBlock)
    | UpdateTextBlock(id: Id, updates: TextBlockPatch)
    | DeleteTextBlock(id: Id)
    | AddDrawing(drawing: DrawingPath)
    | DeleteDrawing(id: Id)
    | ClearPageDrawings(pageIndex: int)
    | SetPageDimensions(pageIndex: int, dimensions: PageDimensions)
    | SetExtractedTexts(texts: seq<ExtractedText>)
    | UpdateExtractedText(id: Id, editedStr: string)
    | UpdateExtractedTextStyle(id: Id, edits: StyleEdits)
    | SelectExtractedText(selection: Option<Id>)
    | SetZoom(zoom: int)
    | SetPaginationEnabled(enabled: bool)
    | SetPaginationFormat(format: PaginationFormat)
    | SetPaginationPosition(position: PaginationPosition)
    | SetPaginationFontSize(paginationFontSize: real)
    | Reset
}
