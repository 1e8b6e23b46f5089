/** The abstract presentation the analyzer inspects, in place of python-pptx
    objects, the OCR engine as an oracle, and the analyzer's fixed settings. */
module Slides {

  datatype Option<+T> = None | Some(value: T)

  /** `self.settings` of `PresentationAnalyzer` (analyzer.py:89-96). */
  const MinTextLengthForOcr: nat := 3
  const MaxTextChars: nat := 1000
  const MinImageAreaFraction: real := 0.7
  const OcrAlternateMinConfidence: real := 35.0
  const MaxOcrTextLength: nat := 5000
  const OcrMaxImagesPerSlide: nat := 6

  /** `Inches(10)` and `Inches(7.5)` in slide units (914400 per inch), used when the
      slide object reports no size. */
  const DefaultSlideWidth: int := 9144000
  const DefaultSlideHeight: int := 6858000

  /** Shapes narrower or lower than this (in slide units) are not sent to OCR. */
  const MinOcrShapeSide: int := 50

  /** Position and size of a shape, in slide units. */
  datatype Box = Box(left: int, top: int, width: int, height: int) {
    function Right(): int { left + width }
    function Bottom(): int { top + height }
  }

  /** The fore colour of a fill: an RGB triple, or a colour that has no `.rgb`
      (a theme colour). */
  datatype Color = Rgb(r: int, g: int, b: int) | NoRgb

  /** python-pptx's solid fill type code (MSO_FILL.SOLID). */
  const SolidFillType: int := 1

  /** A fill: its type code (`None` when the library reports no type) and the
      fore colour that is read when the type is solid. */
  datatype Fill = Fill(fillType: Option<int>, foreColor: Color)

  /** `slide.background`: falsy, a fill, or one whose fill cannot be read. The
      falsy case follows the guard in the code; python-pptx always gives a truthy
      background, and an inherited one reads as a fill of type 5 (no fill). */
  datatype Background = NoBackground | BackgroundFill(fill: Fill) | BackgroundUnreadable

  /** A text frame: its text and the font name of each run (`None` where a run
      names no font). */
  datatype TextFrame = TextFrame(text: string, runFonts: seq<Option<string>>)

  /** The picture of a picture shape: its file extension and raw bytes. */
  datatype Image = Image(ext: string, blob: seq<bv8>)

  /** A shape of the slide tree. `geometry` is `None` when the shape's position or
      size cannot be read (python-pptx reports `None`). A group carries the shapes
      nested in it; a leaf may carry a fill, a text frame and a picture. */
  datatype Shape =
    | Group(geometry: Option<Box>, fill: Option<Fill>, children: seq<Shape>)
    | Leaf(geometry: Option<Box>, fill: Option<Fill>, textFrame: Option<TextFrame>, image: Option<Image>)

  /** One slide: its top-level shapes, background, the size the slide object reports
      (`None` when it has none) and its serialized markup (`slide.element.xml`). */
  datatype Slide = Slide(
    shapes: seq<Shape>,
    background: Background,
    width: Option<int>,
    height: Option<int>,
    markup: string)

  /** The deck file: unreadable, or the slides it holds. */
  datatype Document = Unreadable | Deck(slides: seq<Slide>)

  /** The two preprocessing variants applied to an image before OCR. */
  datatype Preprocess = Standard | HighContrast

  /** A word's confidence as the engine reports it: a number, or the text "-1". */
  datatype WordConf = Score(value: real) | MinusOneText

  datatype OcrWord = OcrWord(text: string, conf: WordConf)

  /** One OCR attempt: it failed (the preprocessing produced nothing or the engine
      raised), or the engine returned its words. */
  datatype OcrRun = NoRun | Words(words: seq<OcrWord>)

  /** The OCR engine: image bytes, preprocessing variant and configuration string to
      the words found. */
  type Oracle = (seq<bv8>, Preprocess, string) -> OcrRun

  /** What the analyzer knows about OCR: whether the run enabled it, whether the
      engine is installed, its language string and the engine itself. */
  datatype OcrSetup = OcrSetup(enabled: bool, available: bool, languages: string, engine: Oracle)
}
