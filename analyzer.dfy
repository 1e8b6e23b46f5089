/** The `PresentationAnalyzer` object (utils/analyzer.py:78-155, 283-379, 710-744):
    it parses the slide selection, builds one row per selected slide, collects
    the fonts it meets and runs the font pass over every row it holds. Its
    `results` and `used_fonts` are never reset, so they accumulate over calls. */
module Analyzer {
  import opened Strings
  import opened Slides
  import opened RangeSelector
  import opened Inspectors
  import opened TextOnImage
  import opened Rows
  import Scorer

  // ---------------------------------------------------------------------------
  // Slide lookup
  // ---------------------------------------------------------------------------

  /** `xs[k]` with Python's negative indices; `None` where Python raises
      `IndexError`. */
  function PyIndex<T>(xs: seq<T>, k: int): (r: Option<T>)
    ensures r.Some? <==> -|xs| <= k < |xs|
    ensures 0 <= k < |xs| ==> r == Some(xs[k])
    ensures -|xs| <= k < 0 ==> r == Some(xs[|xs| + k])
  {
    if 0 <= k < |xs| then Some(xs[k])
    else if -|xs| <= k < 0 then Some(xs[|xs| + k])
    else None
  }

  /** `prs.slides[slide_num - 1]`. */
  function SlideAt(slides: seq<Slide>, num: int): Option<Slide> {
    PyIndex(slides, num - 1)
  }

  /** Slide numbers `1..total` designate their slide; number 0, which a range such
      as "0-2" lets through, designates the LAST slide, and fails only on an empty
      deck. */
  lemma {:induction false} SlideNumbers(slides: seq<Slide>, num: int)
    requires 0 <= num <= |slides|
    ensures 1 <= num ==> SlideAt(slides, num) == Some(slides[num - 1])
    ensures num == 0 && slides != [] ==> SlideAt(slides, num) == Some(slides[|slides| - 1])
    ensures SlideAt(slides, num).None? <==> num == 0 && slides == []
  {
  }

  /** Every selected number designates a slide. */
  predicate AllFound(slides: seq<Slide>, nums: seq<int>) {
    forall i :: 0 <= i < |nums| ==> SlideAt(slides, nums[i]).Some?
  }

  // ---------------------------------------------------------------------------
  // What one analysis computes
  // ---------------------------------------------------------------------------

  /** `analyze_slide` as a function value. */
  function SlideAnalysis(setup: OcrSetup): (Slide, int) -> Row {
    (slide, num) => SlideRow(setup, slide, num)
  }

  /** `rowOf` is the analysis of one slide. Only a row actually computed brings
      the definition of that row into a proof. */
  ghost predicate Analyzes(setup: OcrSetup, rowOf: (Slide, int) -> Row) {
    forall slide, num {:trigger SlideRow(setup, slide, num)} :: rowOf(slide, num) == SlideRow(setup, slide, num)
  }

  lemma {:induction false} SlideAnalysisAnalyzes(setup: OcrSetup)
    ensures Analyzes(setup, SlideAnalysis(setup))
  {
  }

  /** The rows `rowOf` gives the selected numbers, in order. */
  function RowsOf(rowOf: (Slide, int) -> Row, slides: seq<Slide>, nums: seq<int>): seq<Row>
    requires AllFound(slides, nums)
  {
    if nums == [] then []
    else
      var n := nums[|nums| - 1];
      RowsOf(rowOf, slides, nums[..|nums| - 1]) + [rowOf(SlideAt(slides, n).value, n)]
  }

  /** The rows `analyze_slide` builds for the selected numbers, in order. */
  function SelectedRows(setup: OcrSetup, slides: seq<Slide>, nums: seq<int>): seq<Row>
    requires AllFound(slides, nums)
  {
    RowsOf(SlideAnalysis(setup), slides, nums)
  }

  /** The fonts `collect_fonts` meets on the selected slides. */
  function SelectedFonts(slides: seq<Slide>, nums: seq<int>): set<string>
    requires AllFound(slides, nums)
  {
    if nums == [] then {}
    else SelectedFonts(slides, nums[..|nums| - 1]) + ShapesFonts(SlideAt(slides, nums[|nums| - 1]).value.shapes)
  }

  predicate HasOcrText(r: Row) { r.ocrText != "" }

  predicate HasTransitions(slides: seq<Slide>) {
    exists i :: 0 <= i < |slides| && HasTransitionMarker(slides[i].markup)
  }

  /** The `stats` dict of one analysis: counters over the rows of this call,
      the font count over everything collected so far. */
  function StatsOf(rows: seq<Row>, hasTransitions: bool, fontsCount: nat, range: string,
                   selected: nat, total: nat, tesseract: bool, ocrEnabled: bool): Stats {
    Stats(Count(rows, AnimationsFail) > 0, hasTransitions, fontsCount,
      Count(rows, BackgroundFails), Count(rows, HasTextOnImage), TotalImages(rows),
      Count(rows, HasOcrText) > 0, Count(rows, HasTextOnImage), OcrCharacters(rows),
      selected, range, total, tesseract, ocrEnabled)
  }

  /** What a call returns and the analyzer's state after it. */
  datatype Outcome = Outcome(rows: seq<Row>, stats: Option<Stats>, results: seq<Row>,
                             usedFonts: set<string>, selectedRange: string)

  /** `analyze_selected_slides(range)` from the given state (analyzer.py:101-155).
      An unreadable file, an empty selection and a slide number the deck cannot
      index give `([], {})`, modelled as `None`. */
  function Analysis(document: Document, setup: OcrSetup, results: seq<Row>,
                    usedFonts: set<string>, range: string): Outcome {
    match document
    case Unreadable => Outcome([], None, results, usedFonts, range)
    case Deck(slides) =>
      var sel := SelectSlides(range, |slides|);
      var selected := if sel.resetToAll then "all" else range;
      if sel.slides == [] || !AllFound(slides, sel.slides) then
        Outcome([], None, results, usedFonts, selected)
      else
        var newRows := SelectedRows(setup, slides, sel.slides);
        var fonts := usedFonts + SelectedFonts(slides, sel.slides);
        var all := PatchRows(results + newRows, |Filtered(fonts)|);
        Outcome(all, Some(StatsOf(newRows, HasTransitions(slides), |fonts|, range, |sel.slides|, |slides|,
                                      setup.available, setup.enabled)),
          all, fonts, selected)
  }

  lemma {:induction false} SelectedStep(rowOf: (Slide, int) -> Row, slides: seq<Slide>, nums: seq<int>, i: nat, slide: Slide)
    requires i < |nums| && AllFound(slides, nums[..i]) && SlideAt(slides, nums[i]) == Some(slide)
    ensures AllFound(slides, nums[..i + 1])
    ensures RowsOf(rowOf, slides, nums[..i + 1]) == RowsOf(rowOf, slides, nums[..i]) + [rowOf(slide, nums[i])]
    ensures SelectedFonts(slides, nums[..i + 1]) == SelectedFonts(slides, nums[..i]) + ShapesFonts(slide.shapes)
  {
    assert nums[..i + 1][..i] == nums[..i];
  }

  /** The counters of `analyze_selected_slides` after one more row. */
  lemma {:induction false} CountersStep(rows: seq<Row>, r: Row)
    ensures Count(rows + [r], AnimationsFail) == Count(rows, AnimationsFail) + (if AnimationsFail(r) then 1 else 0)
    ensures Count(rows + [r], BackgroundFails) == Count(rows, BackgroundFails) + (if BackgroundFails(r) then 1 else 0)
    ensures Count(rows + [r], HasTextOnImage) == Count(rows, HasTextOnImage) + (if HasTextOnImage(r) then 1 else 0)
    ensures Count(rows + [r], HasOcrText) == Count(rows, HasOcrText) + (if HasOcrText(r) then 1 else 0)
    ensures TotalImages(rows + [r]) == TotalImages(rows) + r.imageCount
    ensures OcrCharacters(rows + [r]) == OcrCharacters(rows) + |r.ocrText|
  {
    assert (rows + [r])[..|rows|] == rows;
  }

  lemma {:induction false} ShapesFontsStep(shapes: seq<Shape>, i: nat)
    requires i < |shapes|
    ensures ShapesFonts(shapes[..i + 1]) == ShapesFonts(shapes[..i])
      + (if shapes[i].Leaf? && shapes[i].textFrame.Some? then RunFonts(shapes[i].textFrame.value.runFonts) else {})
  {
    assert shapes[..i + 1][..i] == shapes[..i];
  }

  lemma {:induction false} RunFontsStep(runs: seq<Option<string>>, j: nat)
    requires j < |runs|
    ensures RunFonts(runs[..j + 1]) == RunFonts(runs[..j])
      + (if runs[j].Some? && Strip(runs[j].value) != "" then {Strip(runs[j].value)} else {})
  {
    assert runs[..j + 1][..j] == runs[..j];
  }

  /** The outcome of a call that analyzes every selected slide. */
  lemma {:induction false} AnalysisOfDeck(slides: seq<Slide>, setup: OcrSetup, results: seq<Row>,
                                          usedFonts: set<string>, range: string)
    requires var sel := SelectSlides(range, |slides|).slides; sel != [] && AllFound(slides, sel)
    ensures var sel := SelectSlides(range, |slides|);
      var newRows := SelectedRows(setup, slides, sel.slides);
      var fonts := usedFonts + SelectedFonts(slides, sel.slides);
      var all := PatchRows(results + newRows, |Filtered(fonts)|);
      Analysis(Deck(slides), setup, results, usedFonts, range)
        == Outcome(all, Some(StatsOf(newRows, HasTransitions(slides), |fonts|, range, |sel.slides|, |slides|,
                                     setup.available, setup.enabled)),
                   all, fonts, if sel.resetToAll then "all" else range)
  {
  }

  /** The outcome of a call that stops before analyzing anything. */
  lemma {:induction false} AnalysisStops(slides: seq<Slide>, setup: OcrSetup, results: seq<Row>,
                                         usedFonts: set<string>, range: string)
    requires var sel := SelectSlides(range, |slides|).slides; sel == [] || !AllFound(slides, sel)
    ensures Analysis(Deck(slides), setup, results, usedFonts, range)
         == Outcome([], None, results, usedFonts, if SelectSlides(range, |slides|).resetToAll then "all" else range)
  {
  }

  /** The rows follow the selected numbers one for one, in order. */
  lemma {:induction false} RowsOfEach(rowOf: (Slide, int) -> Row, slides: seq<Slide>, nums: seq<int>)
    requires AllFound(slides, nums)
    ensures |RowsOf(rowOf, slides, nums)| == |nums|
    ensures forall k :: 0 <= k < |nums| ==>
      RowsOf(rowOf, slides, nums)[k] == rowOf(SlideAt(slides, nums[k]).value, nums[k])
  {
    if nums != [] {
      var init := nums[..|nums| - 1];
      assert AllFound(slides, init) by {
        forall k | 0 <= k < |init| ensures SlideAt(slides, init[k]).Some? {
          assert init[k] == nums[k];
        }
      }
      RowsOfEach(rowOf, slides, init);
      forall k | 0 <= k < |init| ensures init[k] == nums[k] { }
    }
  }

  /** Every row `rowOf` builds carries the number it was built for. */
  ghost predicate Numbered(rowOf: (Slide, int) -> Row) {
    forall slide, num :: rowOf(slide, num).slide == num
  }

  lemma {:induction false} SlideAnalysisNumbered(setup: OcrSetup)
    ensures Numbered(SlideAnalysis(setup))
  {
    forall slide, num ensures SlideAnalysis(setup)(slide, num).slide == num {
      assert SlideAnalysis(setup)(slide, num) == SlideRow(setup, slide, num);
    }
  }

  /** The rows of a call after the font pass: the earlier rows, then one row per
      selected number, in order. */
  lemma {:induction false} PatchedRowsShape(rowOf: (Slide, int) -> Row, slides: seq<Slide>, nums: seq<int>,
                                            results: seq<Row>, n: nat)
    requires AllFound(slides, nums) && Numbered(rowOf)
    ensures var all := PatchRows(results + RowsOf(rowOf, slides, nums), n);
      && |all| == |results| + |nums|
      && (forall k :: 0 <= k < |results| ==> all[k].slide == results[k].slide)
      && (forall k :: 0 <= k < |nums| ==> all[|results| + k].slide == nums[k])
  {
    var newRows := RowsOf(rowOf, slides, nums);
    RowsOfEach(rowOf, slides, nums);
    var all := PatchRows(results + newRows, n);
    forall k | 0 <= k < |results| ensures all[k].slide == results[k].slide {
      assert (results + newRows)[k] == results[k];
    }
    forall k | 0 <= k < |nums| ensures all[|results| + k].slide == nums[k] {
      assert (results + newRows)[|results| + k] == newRows[k];
    }
  }

  /** What a call leaves behind. A call that stops returns nothing and leaves the
      state as it was. A call that analyzes returns everything held so far: the
      earlier rows, then one row per selected slide, in order, each carrying the
      number it was selected by. Its `stats` count only this call's rows, so they
      never exceed the rows returned, and `fonts_count` counts every font
      collected so far. */
  lemma {:induction false} AnalysisShape(document: Document, setup: OcrSetup, results: seq<Row>,
                                         usedFonts: set<string>, range: string)
    ensures var o := Analysis(document, setup, results, usedFonts, range);
      && (o.stats.None? ==> o.rows == [] && o.results == results && o.usedFonts == usedFonts)
      && (o.stats.Some? ==>
            var sel := SelectSlides(range, |document.slides|).slides;
            && o.rows == o.results && usedFonts <= o.usedFonts
            && |o.rows| == |results| + |sel| && o.stats.value.selectedSlidesCount == |sel|
            && (forall k :: 0 <= k < |results| ==> o.rows[k].slide == results[k].slide)
            && (forall k :: 0 <= k < |sel| ==> o.rows[|results| + k].slide == sel[k])
            && o.stats.value.backgroundIssues <= |o.rows| && o.stats.value.textOnImages <= |o.rows|
            && o.stats.value.fontsCount == |o.usedFonts|)
  {
    if document.Deck? {
      var slides := document.slides;
      var sel := SelectSlides(range, |slides|).slides;
      if sel != [] && AllFound(slides, sel) {
        AnalysisOfDeck(slides, setup, results, usedFonts, range);
        var fonts := usedFonts + SelectedFonts(slides, sel);
        SlideAnalysisNumbered(setup);
        PatchedRowsShape(SlideAnalysis(setup), slides, sel, results, |Filtered(fonts)|);
        RowsOfEach(SlideAnalysis(setup), slides, sel);
      } else {
        AnalysisStops(slides, setup, results, usedFonts, range);
      }
    }
  }

  /** Whatever a call returns can be scored: the conformance percentage of its
      rows and `stats` is in [0, 100], and the deck is sendable exactly from 57. */
  lemma {:induction false} AnalysisScorable(document: Document, setup: OcrSetup, results: seq<Row>,
                                            usedFonts: set<string>, range: string)
    ensures var o := Analysis(document, setup, results, usedFonts, range);
      var r := Scorer.Conformance(o.rows, o.stats);
      0.0 <= r.percentage <= 100.0 && (r.canSend <==> r.percentage >= 57.0)
  {
    var o := Analysis(document, setup, results, usedFonts, range);
    AnalysisShape(document, setup, results, usedFonts, range);
    Scorer.ReportProperties(o.rows, o.stats);
  }

  /** A strictly increasing list of integers spans at least its length. */
  lemma {:induction false} IncreasingSpread(xs: seq<int>)
    requires Increasing(xs) && xs != []
    ensures xs[|xs| - 1] >= xs[0] + |xs| - 1
  {
    if |xs| > 1 {
      IncreasingSpread(xs[..|xs| - 1]);
    }
  }

  /** Only slide 0 of an empty deck has no slide, and it is then the whole
      selection: a failing lookup happens before any row is appended. */
  lemma {:induction false} OnlyFirstCanFail(slides: seq<Slide>, nums: seq<int>, i: nat)
    requires Increasing(nums) && forall k :: 0 <= k < |nums| ==> 0 <= nums[k] <= |slides|
    requires i < |nums| && SlideAt(slides, nums[i]).None?
    ensures i == 0 && nums == [0] && slides == []
  {
    SlideNumbers(slides, nums[i]);
    IncreasingSpread(nums);
  }

  /** The counters of `stats` agree with the rows analyzed so far. */
  predicate Tallies(st: Stats, rows: seq<Row>) {
    && st.hasAnimations == (Count(rows, AnimationsFail) > 0)
    && st.backgroundIssues == Count(rows, BackgroundFails)
    && st.textOnImages == Count(rows, HasTextOnImage)
    && st.totalImages == TotalImages(rows)
    && st.ocrUsed == (Count(rows, HasOcrText) > 0)
    && st.ocrTextFound == Count(rows, HasTextOnImage)
    && st.totalOcrCharacters == OcrCharacters(rows)
  }

  /** The fields of `stats` that the loop does not count. */
  predicate SameSettings(a: Stats, b: Stats) {
    && a.hasTransitions == b.hasTransitions && a.fontsCount == b.fontsCount
    && a.selectedSlidesCount == b.selectedSlidesCount && a.selectedSlidesRange == b.selectedSlidesRange
    && a.totalSlidesInPresentation == b.totalSlidesInPresentation
    && a.tesseractAvailable == b.tesseractAvailable && a.ocrEnabled == b.ocrEnabled
  }

  /** The counter updates of one row (analyzer.py:135-146). */
  method TallyRow(ghost rows: seq<Row>, st: Stats, r: Row) returns (next: Stats)
    requires Tallies(st, rows)
    ensures Tallies(next, rows + [r]) && SameSettings(next, st)
  {
    CountersStep(rows, r);
    var hasAnimations, backgroundIssues, textOnImages, ocrTextFound := st.hasAnimations, st.backgroundIssues, st.textOnImages, st.ocrTextFound;
    var totalImages, totalOcrCharacters, ocrUsed := st.totalImages, st.totalOcrCharacters, st.ocrUsed;
    if !r.animationsOk {
      hasAnimations := true;
    }
    if !r.backgroundOk {
      backgroundIssues := backgroundIssues + 1;
    }
    if r.textOnImage {
      textOnImages := textOnImages + 1;
      ocrTextFound := ocrTextFound + 1;
    }
    if r.imageCount > 0 {
      totalImages := totalImages + r.imageCount;
    }
    if r.ocrText != "" {
      totalOcrCharacters := totalOcrCharacters + |r.ocrText|;
      ocrUsed := true;
    }
    next := st.(hasAnimations := hasAnimations, backgroundIssues := backgroundIssues, textOnImages := textOnImages,
      ocrTextFound := ocrTextFound, totalImages := totalImages, totalOcrCharacters := totalOcrCharacters, ocrUsed := ocrUsed);
  }

  /** Counters that agree with the rows, with the settings of the call, are the
      `stats` of the specification. */
  lemma {:induction false} TalliedStats(st: Stats, rows: seq<Row>)
    requires Tallies(st, rows)
    ensures st == StatsOf(rows, st.hasTransitions, st.fontsCount, st.selectedSlidesRange, st.selectedSlidesCount,
                          st.totalSlidesInPresentation, st.tesseractAvailable, st.ocrEnabled)
  {
  }

  // ---------------------------------------------------------------------------
  // The analyzer object
  // ---------------------------------------------------------------------------

  /** `any(s in f.lower() for s in system_fonts)`. */
  method IsSystem(f: string) returns (b: bool)
    ensures b == IsSystemFont(f)
  {
    var fl := Lower(f);
    b := false;
    for k := 0 to |SystemFonts|
      invariant b <==> exists m :: 0 <= m < k && Contains(fl, SystemFonts[m])
    {
      if Contains(fl, SystemFonts[k]) {
        b := true;
      }
    }
  }

  /** The OCR columns of a row (analyzer.py:364-368): the merged text cut to
      `max_ocr_text_length` characters, its confidence, method and picture count,
      or the initial values when nothing was read. */
  method OcrFields(ocr: Option<OcrSummary>) returns (text: string, confidence: real, methodName: string, imagesWithText: nat)
    ensures text == (if ocr.Some? then Truncate(ocr.value.text, MaxOcrTextLength) else "")
    ensures confidence == (if ocr.Some? then ocr.value.confidence else 0.0)
    ensures methodName == (if ocr.Some? then ocr.value.methodName else "")
    ensures imagesWithText == (if ocr.Some? then ocr.value.imagesWithText else 0)
  {
    text, confidence, methodName, imagesWithText := "", 0.0, "", 0;
    if ocr.Some? {
      text := ocr.value.text;
      if |text| > MaxOcrTextLength {
        text := text[..MaxOcrTextLength];
      }
      confidence := ocr.value.confidence;
      methodName := ocr.value.methodName;
      imagesWithText := ocr.value.imagesWithText;
    }
  }

  class PresentationAnalyzer {
    /** The file at `pptx_path`, as read by `Presentation(...)`. */
    const document: Document
    /** `enable_ocr` and the module-level Tesseract detection. */
    const setup: OcrSetup
    var results: seq<Row>
    var usedFonts: set<string>
    var selectedRange: string

    constructor (document: Document, setup: OcrSetup)
      ensures this.document == document && this.setup == setup
      ensures results == [] && usedFonts == {} && selectedRange == "all"
    {
      this.document := document;
      this.setup := setup;
      results := [];
      usedFonts := {};
      selectedRange := "all";
    }

    /** `parse_slides_range`: the selection, resetting the recorded range to "all"
        when it falls back to the whole deck. */
    method ParseSlidesRange(range: string, total: nat) returns (slides: seq<int>)
      modifies this`selectedRange
      ensures slides == SelectSlides(range, total).slides
      ensures selectedRange == if SelectSlides(range, total).resetToAll then "all" else old(selectedRange)
    {
      var resetToAll;
      slides, resetToAll := ParseSlides(range, total);
      if resetToAll {
        selectedRange := "all";
      }
    }

    /** `collect_fonts`: adds the stripped, non-blank run fonts of the slide's
        text frames. */
    method CollectFonts(slide: Slide)
      modifies this`usedFonts
      ensures usedFonts == old(usedFonts) + ShapesFonts(slide.shapes)
    {
      var shapes := slide.shapes;
      for i := 0 to |shapes|
        invariant usedFonts == old(usedFonts) + ShapesFonts(shapes[..i])
      {
        ShapesFontsStep(shapes, i);
        var s := shapes[i];
        if s.Leaf? && s.textFrame.Some? {
          var runs := s.textFrame.value.runFonts;
          for j := 0 to |runs|
            invariant usedFonts == old(usedFonts) + ShapesFonts(shapes[..i]) + RunFonts(runs[..j])
          {
            RunFontsStep(runs, j);
            var name := runs[j];
            if name.Some? && Strip(name.value) != "" {
              usedFonts := usedFonts + {Strip(name.value)};
            }
          }
          assert runs[..|runs|] == runs;
        }
      }
      assert shapes[..|shapes|] == shapes;
    }

    /** `analyze_slide`: runs the checks in order, recording a tag for each that
        fails, then collects the slide's fonts. */
    method AnalyzeSlide(slide: Slide, num: int) returns (r: Row)
      modifies this`usedFonts
      ensures r == SlideRow(setup, slide, num)
      ensures usedFonts == old(usedFonts) + ShapesFonts(slide.shapes)
    {
      var violations: seq<string> := [];
      var backgroundOk := CheckBackground(slide);
      if !backgroundOk {
        violations := violations + [BackgroundTag];
      }
      var overload, count := CheckText(slide);
      var textDetail := NatToString(count) + " симв.";
      if overload {
        violations := violations + [TextTag(count)];
      }
      var animations := CheckAnimations(slide);
      if animations {
        violations := violations + [AnimationTag];
      }
      var v := CheckImagesEnhanced(setup, slide);
      var ocrText, ocrConfidence, ocrMethod, ocrImagesWithText := OcrFields(v.ocr);
      if v.textOnImages {
        violations := violations + [TextOnImageTag];
      }
      CollectFonts(slide);
      var status := "OK";
      if violations != [] {
        status := Join(violations, ", ");
      }
      r := Row(num, status, violations, true, !overload, !animations, true, backgroundOk,
        v.imageCount, v.textOnImages, textDetail, |slide.shapes|,
        ocrText, ocrConfidence, ocrMethod, ocrImagesWithText);
    }

    /** `analyze_fonts`: counts the collected fonts that are not system fonts and,
        when more than two count, marks every row held so far. */
    method AnalyzeFonts()
      modifies this`results
      ensures results == PatchRows(old(results), |Filtered(usedFonts)|)
    {
      var remaining := usedFonts;
      var filtered: set<string> := {};
      while remaining != {}
        invariant results == old(results) && remaining <= usedFonts
        invariant filtered == Filtered(usedFonts - remaining)
        decreases |remaining|
      {
        var f :| f in remaining;
        var system := IsSystem(f);
        if !system {
          filtered := filtered + {f};
        }
        remaining := remaining - {f};
      }
      assert usedFonts - remaining == usedFonts;
      assert filtered == Filtered(usedFonts);
      var fontCount := |filtered|;
      var rows := results;
      for i := 0 to |rows|
        invariant results == old(results) && |rows| == |results|
        invariant forall k :: 0 <= k < i ==> rows[k] == PatchRow(results[k], fontCount)
        invariant forall k :: i <= k < |rows| ==> rows[k] == results[k]
      {
        if fontCount > 2 {
          var r := rows[i].(fontsOk := false);
          if FontGuard !in r.violations {
            var v := r.violations + [FontTag(fontCount)];
            r := r.(violations := v, status := Join(v, ", "));
          }
          rows := rows[i := r];
        }
      }
      assert rows == PatchRows(results, fontCount);
      results := rows;
    }

    /** One pass of the loop of `analyze_selected_slides` (analyzer.py:130-146):
        the row of the slide is appended, its fonts collected and its counters
        added to `stats`. */
    method AppendRow(slide: Slide, num: int, ghost rowOf: (Slide, int) -> Row, ghost rows: seq<Row>, st: Stats)
      returns (next: Stats)
      requires Analyzes(setup, rowOf) && Tallies(st, rows)
      modifies this`results, this`usedFonts
      ensures results == old(results) + [rowOf(slide, num)]
      ensures usedFonts == old(usedFonts) + ShapesFonts(slide.shapes)
      ensures Tallies(next, rows + [rowOf(slide, num)]) && SameSettings(next, st)
    {
      var r := AnalyzeSlide(slide, num);
      results := results + [r];
      next := TallyRow(rows, st, r);
    }

    /** The pass for the `i`-th selected number extends what the earlier passes
        did by one slide. */
    method AnalyzeNumber(slides: seq<Slide>, nums: seq<int>, i: nat, slide: Slide, st: Stats,
                         ghost rowOf: (Slide, int) -> Row, ghost prior: seq<Row>, ghost priorFonts: set<string>)
      returns (next: Stats)
      requires i < |nums| && AllFound(slides, nums[..i]) && SlideAt(slides, nums[i]) == Some(slide)
      requires Analyzes(setup, rowOf)
      requires results == prior + RowsOf(rowOf, slides, nums[..i])
      requires usedFonts == priorFonts + SelectedFonts(slides, nums[..i])
      requires Tallies(st, RowsOf(rowOf, slides, nums[..i]))
      modifies this`results, this`usedFonts
      ensures AllFound(slides, nums[..i + 1])
      ensures results == prior + RowsOf(rowOf, slides, nums[..i + 1])
      ensures usedFonts == priorFonts + SelectedFonts(slides, nums[..i + 1])
      ensures Tallies(next, RowsOf(rowOf, slides, nums[..i + 1])) && SameSettings(next, st)
    {
      SelectedStep(rowOf, slides, nums, i, slide);
      next := AppendRow(slide, nums[i], rowOf, RowsOf(rowOf, slides, nums[..i]), st);
    }

    /** The loop of `analyze_selected_slides` (analyzer.py:130-146): a row per
        selected number, appended to `results`, its fonts collected and its
        counters tallied. `ok` is false when a number has no slide (the
        `IndexError` the caller catches); that is only slide 0 of an empty deck,
        and the state is then as it was. */
    method AnalyzeEach(slides: seq<Slide>, nums: seq<int>, st: Stats, ghost rowOf: (Slide, int) -> Row)
      returns (ok: bool, next: Stats)
      requires Increasing(nums) && forall k :: 0 <= k < |nums| ==> 0 <= nums[k] <= |slides|
      requires Analyzes(setup, rowOf) && Tallies(st, [])
      modifies this`results, this`usedFonts
      ensures ok <==> AllFound(slides, nums)
      ensures ok ==> && results == old(results) + RowsOf(rowOf, slides, nums)
                     && usedFonts == old(usedFonts) + SelectedFonts(slides, nums)
                     && Tallies(next, RowsOf(rowOf, slides, nums)) && SameSettings(next, st)
      ensures !ok ==> results == old(results) && usedFonts == old(usedFonts)
    {
      next := st;
      for i := 0 to |nums|
        invariant AllFound(slides, nums[..i])
        invariant results == old(results) + RowsOf(rowOf, slides, nums[..i])
        invariant usedFonts == old(usedFonts) + SelectedFonts(slides, nums[..i])
        invariant Tallies(next, RowsOf(rowOf, slides, nums[..i])) && SameSettings(next, st)
      {
        var num := nums[i];
        var slide := SlideAt(slides, num);
        if slide.None? {
          // IndexError: only slide 0 of an empty deck, which is selected alone
          OnlyFirstCanFail(slides, nums, i);
          return false, st;
        }
        next := AnalyzeNumber(slides, nums, i, slide.value, next, rowOf, old(results), old(usedFonts));
      }
      assert nums[..|nums|] == nums;
      ok := true;
    }

    /** The part of `analyze_selected_slides` after a non-empty selection
        (analyzer.py:111-151): the initial `stats`, the transition check, the loop,
        the font pass and the font count. */
    method AnalyzeDeck(slides: seq<Slide>, range: string, nums: seq<int>, ghost rowOf: (Slide, int) -> Row)
      returns (rows: seq<Row>, stats: Option<Stats>)
      requires nums == SelectSlides(range, |slides|).slides && nums != []
      requires Analyzes(setup, rowOf)
      modifies this`results, this`usedFonts
      ensures stats.Some? <==> AllFound(slides, nums)
      ensures stats.None? ==> rows == [] && results == old(results) && usedFonts == old(usedFonts)
      ensures stats.Some? ==>
        var newRows := RowsOf(rowOf, slides, nums);
        && usedFonts == old(usedFonts) + SelectedFonts(slides, nums)
        && rows == results == PatchRows(old(results) + newRows, |Filtered(usedFonts)|)
        && stats.value == StatsOf(newRows, HasTransitions(slides), |usedFonts|, range, |nums|, |slides|,
                                  setup.available, setup.enabled)
    {
      SelectionBounded(range, |slides|);
      var st := Stats(false, false, 0, 0, 0, 0, false, 0, 0, |nums|, range, |slides|, setup.available, setup.enabled);
      var hasTransitions := CheckPresentationTransitions(slides);
      st := st.(hasTransitions := hasTransitions);
      var ok;
      ok, st := AnalyzeEach(slides, nums, st, rowOf);
      if !ok {
        return [], None;
      }
      AnalyzeFonts();
      st := st.(fontsCount := |usedFonts|);
      TalliedStats(st, RowsOf(rowOf, slides, nums));
      rows, stats := results, Some(st);
    }

    /** `analyze_selected_slides`. */
    method AnalyzeSelectedSlides(range: string) returns (rows: seq<Row>, stats: Option<Stats>)
      modifies this
      ensures Outcome(rows, stats, results, usedFonts, selectedRange)
           == Analysis(document, setup, old(results), old(usedFonts), range)
    {
      selectedRange := range;
      if document.Unreadable? {
        return [], None;
      }
      var slides := document.slides;
      var nums := ParseSlidesRange(range, |slides|);
      if nums == [] {
        AnalysisStops(slides, setup, old(results), old(usedFonts), range);
        return [], None;
      }
      SlideAnalysisAnalyzes(setup);
      rows, stats := AnalyzeDeck(slides, range, nums, SlideAnalysis(setup));
      if stats.None? {
        AnalysisStops(slides, setup, old(results), old(usedFonts), range);
      } else {
        AnalysisOfDeck(slides, setup, old(results), old(usedFonts), range);
      }
    }
  }
}
