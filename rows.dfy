/** One report row per analyzed slide (`analyze_slide`, analyzer.py:327-379), the
    deferred font pass (`collect_fonts`/`analyze_fonts`, analyzer.py:710-744) and
    the deck statistics gathered from the rows (analyzer.py:111-149). */
module Rows {
  import opened Strings
  import opened Slides
  import opened Inspectors
  import opened TextOnImage

  // ---------------------------------------------------------------------------
  // Violation tags
  // ---------------------------------------------------------------------------

  const BackgroundTag: string := "ФОН"
  const AnimationTag: string := "АНИМАЦИИ"
  const TextOnImageTag: string := "ТЕКСТ_НА_ИЗОБР"
  /** The exact string the font pass looks for before adding its tag
      (analyzer.py:740); no tag is ever equal to it. */
  const FontGuard: string := "ШРИФТЫ"

  /** `f"ТЕКСТ({char_count})"`. */
  function TextTag(count: nat): string {
    "ТЕКСТ(" + NatToString(count) + ")"
  }

  /** `f"ШРИФТЫ({font_count})"`. */
  function FontTag(count: nat): string {
    "ШРИФТЫ(" + NatToString(count) + ")"
  }

  predicate StartsWith(s: string, prefix: string) {
    |prefix| <= |s| && s[..|prefix|] == prefix
  }

  /** Where a tag stands in the fixed order of the checks; 5 for a string that is
      not a tag. */
  function TagRank(t: string): nat {
    if t == BackgroundTag then 0
    else if StartsWith(t, "ТЕКСТ(") then 1
    else if t == AnimationTag then 2
    else if t == TextOnImageTag then 3
    else if StartsWith(t, "ШРИФТЫ(") then 4
    else 5
  }

  lemma {:induction false} TagRanks(count: nat)
    ensures TagRank(BackgroundTag) == 0 && TagRank(TextTag(count)) == 1
    ensures TagRank(AnimationTag) == 2 && TagRank(TextOnImageTag) == 3
    ensures TagRank(FontTag(count)) == 4
  {
    var t := TextTag(count);
    assert t[..6] == "ТЕКСТ(";
    assert t != BackgroundTag by { assert |BackgroundTag| == 3 < |t|; }
    var f := FontTag(count);
    assert f[..7] == "ШРИФТЫ(";
    assert !StartsWith(TextOnImageTag, "ТЕКСТ(") by { assert TextOnImageTag[5] == '_'; }
    assert !StartsWith(f, "ТЕКСТ(") by { assert f[0] == 'Ш'; }
    assert f != BackgroundTag && f != AnimationTag && f != TextOnImageTag by {
      assert f[0] == 'Ш';
    }
  }

  /** Tags appear in the order of their ranks, each rank at most once. */
  predicate RanksIncrease(tags: seq<string>) {
    forall i, j :: 0 <= i < j < |tags| ==> TagRank(tags[i]) < TagRank(tags[j])
  }

  /** Every entry is one of the analyzer's tags. */
  predicate AllTags(tags: seq<string>) {
    forall i :: 0 <= i < |tags| ==> TagRank(tags[i]) < 5
  }

  /** `r["Нарушения"].append(tag)` when the check failed. */
  function AddIf<T>(tags: seq<T>, failed: bool, tag: T): seq<T> {
    if failed then tags + [tag] else tags
  }

  lemma {:induction false} AddIfIn<T>(xs: seq<T>, cond: bool, x: T, y: T)
    ensures y in AddIf(xs, cond, x) <==> y in xs || (cond && y == x)
  {
  }

  /** Every tag ranks below `bound`. */
  predicate TagsBelow(tags: seq<string>, bound: nat) {
    forall i :: 0 <= i < |tags| ==> TagRank(tags[i]) < bound
  }

  lemma {:induction false} AddIfRanks(tags: seq<string>, failed: bool, tag: string)
    requires RanksIncrease(tags) && TagsBelow(tags, TagRank(tag))
    ensures RanksIncrease(AddIf(tags, failed, tag)) && TagsBelow(AddIf(tags, failed, tag), TagRank(tag) + 1)
  {
  }

  // ---------------------------------------------------------------------------
  // The row
  // ---------------------------------------------------------------------------

  /** The dict built by `analyze_slide`. The ✓/✗ and Да/Нет columns are booleans
      (true = ✓, resp. true = Да); `Переходы` is always ✓. */
  datatype Row = Row(
    slide: int,               // Слайд
    status: string,           // Статус
    violations: seq<string>,  // Нарушения
    fontsOk: bool,            // Шрифты
    textOk: bool,             // Текст
    animationsOk: bool,       // Анимации
    transitionsOk: bool,      // Переходы
    backgroundOk: bool,       // Фон
    imageCount: nat,          // Изображения
    textOnImage: bool,        // Текст_на_изобр
    textDetail: string,       // Текст_дет
    elements: nat,            // Элементы
    ocrText: string,          // OCR_текст
    ocrConfidence: real,      // OCR_уверенность
    ocrMethod: string,        // OCR_метод
    ocrImagesWithText: nat)   // OCR_изображений_с_текстом

  /** `"OK"`, or `", ".join(violations)`. */
  function StatusOf(tags: seq<string>): string {
    if tags == [] then "OK" else Join(tags, ", ")
  }

  /** The row invariant: the status is "OK" exactly when there is no violation,
      and otherwise the violations joined by ", ". */
  predicate StatusConsistent(r: Row) {
    r.status == StatusOf(r.violations)
  }

  /** The violations `analyze_slide` records, in the order the checks run. */
  function SlideTags(backgroundOk: bool, overload: bool, count: nat, animations: bool, textOnImage: bool): seq<string> {
    AddIf(AddIf(AddIf(AddIf([], !backgroundOk, BackgroundTag), overload, TextTag(count)),
      animations, AnimationTag), textOnImage, TextOnImageTag)
  }

  /** `(ocr_data.get("text") or "")[:max_ocr_text_length]`. */
  function Truncate(s: string, n: nat): (r: string)
    ensures |r| <= n && |r| <= |s| && r == s[..|r|] && (|s| <= n ==> r == s)
    ensures |r| == if |s| <= n then |s| else n
  {
    if |s| <= n then s else s[..n]
  }

  /** The row of one slide (analyzer.py:327-379); `Шрифты` is left ✓ for the font
      pass to settle. */
  function SlideRow(setup: OcrSetup, slide: Slide, num: int): Row {
    var bgOk := BackgroundOk(slide);
    var count := TextChars(slide.shapes);
    var overload := count > MaxTextChars;
    var animations := HasAnimationMarker(slide.markup);
    var v := ImagesVerdict(setup, slide);
    var tags := SlideTags(bgOk, overload, count, animations, v.textOnImages);
    Row(num, StatusOf(tags), tags, true, !overload, !animations, true, bgOk,
      v.imageCount, v.textOnImages, NatToString(count) + " симв.", |slide.shapes|,
      if v.ocr.Some? then Truncate(v.ocr.value.text, MaxOcrTextLength) else "",
      if v.ocr.Some? then v.ocr.value.confidence else 0.0,
      if v.ocr.Some? then v.ocr.value.methodName else "",
      if v.ocr.Some? then v.ocr.value.imagesWithText else 0)
  }

  /** The tags of a slide are in check order, each for a failed check. */
  lemma {:induction false} SlideTagsOrdered(backgroundOk: bool, overload: bool, count: nat, animations: bool, textOnImage: bool)
    ensures var tags := SlideTags(backgroundOk, overload, count, animations, textOnImage);
      RanksIncrease(tags) && AllTags(tags) && forall i :: 0 <= i < |tags| ==> TagRank(tags[i]) < 4
  {
    TagRanks(count);
    var t0 := AddIf([], !backgroundOk, BackgroundTag);
    assert RanksIncrease(t0) && TagsBelow(t0, 1) by {
      AddIfRanks([], !backgroundOk, BackgroundTag);
    }
    var t1 := AddIf(t0, overload, TextTag(count));
    assert RanksIncrease(t1) && TagsBelow(t1, 2) by {
      AddIfRanks(t0, overload, TextTag(count));
    }
    var t2 := AddIf(t1, animations, AnimationTag);
    assert RanksIncrease(t2) && TagsBelow(t2, 3) by {
      AddIfRanks(t1, animations, AnimationTag);
    }
    var tags := AddIf(t2, textOnImage, TextOnImageTag);
    assert RanksIncrease(tags) && TagsBelow(tags, 4) by {
      AddIfRanks(t2, textOnImage, TextOnImageTag);
    }
  }

  /** A tag is in the list exactly when its check failed. */
  lemma {:induction false} SlideTagsHold(backgroundOk: bool, overload: bool, count: nat, animations: bool,
                                         textOnImage: bool, t: string)
    ensures t in SlideTags(backgroundOk, overload, count, animations, textOnImage) <==>
      || (t == BackgroundTag && !backgroundOk) || (t == TextTag(count) && overload)
      || (t == AnimationTag && animations) || (t == TextOnImageTag && textOnImage)
  {
    var t0 := AddIf([], !backgroundOk, BackgroundTag);
    var t1 := AddIf(t0, overload, TextTag(count));
    var t2 := AddIf(t1, animations, AnimationTag);
    AddIfIn([], !backgroundOk, BackgroundTag, t);
    AddIfIn(t0, overload, TextTag(count), t);
    AddIfIn(t1, animations, AnimationTag, t);
    AddIfIn(t2, textOnImage, TextOnImageTag, t);
  }

  /** Each tag is present exactly when its check failed, so there are as many tags
      as failed checks. */
  lemma {:induction false} SlideTagsExact(backgroundOk: bool, overload: bool, count: nat, animations: bool, textOnImage: bool)
    ensures var tags := SlideTags(backgroundOk, overload, count, animations, textOnImage);
      && (BackgroundTag in tags <==> !backgroundOk)
      && (TextTag(count) in tags <==> overload)
      && (AnimationTag in tags <==> animations)
      && (TextOnImageTag in tags <==> textOnImage)
      && |tags| == (if backgroundOk then 0 else 1) + (if overload then 1 else 0)
                   + (if animations then 1 else 0) + (if textOnImage then 1 else 0)
  {
    TagRanks(count);
    SlideTagsHold(backgroundOk, overload, count, animations, textOnImage, BackgroundTag);
    SlideTagsHold(backgroundOk, overload, count, animations, textOnImage, TextTag(count));
    SlideTagsHold(backgroundOk, overload, count, animations, textOnImage, AnimationTag);
    SlideTagsHold(backgroundOk, overload, count, animations, textOnImage, TextOnImageTag);
  }

  /** A row of `analyze_slide` keeps the status invariant, lists its violations
      in check order, and records each failed check by its tag. */
  lemma {:induction false} SlideRowWellFormed(setup: OcrSetup, slide: Slide, num: int)
    ensures var r := SlideRow(setup, slide, num);
      && StatusConsistent(r) && RanksIncrease(r.violations) && AllTags(r.violations)
      && r.fontsOk && r.transitionsOk
      && (BackgroundTag in r.violations <==> !r.backgroundOk)
      && (TextTag(TextChars(slide.shapes)) in r.violations <==> !r.textOk)
      && (AnimationTag in r.violations <==> !r.animationsOk)
      && (TextOnImageTag in r.violations <==> r.textOnImage)
      && (r.violations == [] <==> r.backgroundOk && r.textOk && r.animationsOk && !r.textOnImage)
  {
    var v := ImagesVerdict(setup, slide);
    var count := TextChars(slide.shapes);
    SlideTagsOrdered(BackgroundOk(slide), count > MaxTextChars, count, HasAnimationMarker(slide.markup), v.textOnImages);
    SlideTagsExact(BackgroundOk(slide), count > MaxTextChars, count, HasAnimationMarker(slide.markup), v.textOnImages);
  }

  /** Joining starts with the first part. */
  lemma {:induction false} JoinStartsWithFirst(parts: seq<string>, sep: string)
    requires parts != []
    ensures |Join(parts, sep)| >= |parts[0]| && Join(parts, sep)[..|parts[0]|] == parts[0]
  {
    if |parts| > 1 {
      var j := Join(parts, sep);
      assert j == parts[0] + (sep + Join(parts[1..], sep));
    }
  }

  /** With tags only from the analyzer, "OK" can never be a joined status: the
      status is "OK" if and only if the row has no violation. */
  lemma {:induction false} StatusOkIff(r: Row)
    requires StatusConsistent(r) && AllTags(r.violations)
    ensures r.status == "OK" <==> r.violations == []
  {
    if r.violations != [] {
      JoinStartsWithFirst(r.violations, ", ");
      var t := r.violations[0];
      assert TagRank(t) < 5;
      assert t != [] && t[0] != 'O' by {
        TagStartsCyrillic(t);
      }
      assert r.status[0] == t[0];
    }
  }

  lemma {:induction false} TagStartsCyrillic(t: string)
    requires TagRank(t) < 5
    ensures t != [] && t[0] != 'O'
  {
    if StartsWith(t, "ТЕКСТ(") {
      assert t[0] == t[..6][0];
    } else if StartsWith(t, "ШРИФТЫ(") {
      assert t[0] == t[..7][0];
    }
  }

  // ---------------------------------------------------------------------------
  // Fonts
  // ---------------------------------------------------------------------------

  /** The font names of a text frame's runs that are set and not blank, stripped
      (analyzer.py:716-718). */
  function RunFonts(runs: seq<Option<string>>): set<string> {
    if runs == [] then {}
    else
      var n := runs[|runs| - 1];
      RunFonts(runs[..|runs| - 1]) + (if n.Some? && Strip(n.value) != "" then {Strip(n.value)} else {})
  }

  /** What `collect_fonts` adds for a slide: the run fonts of its top-level shapes
      with a text frame (groups have none). */
  function ShapesFonts(shapes: seq<Shape>): set<string> {
    if shapes == [] then {}
    else
      var s := shapes[|shapes| - 1];
      ShapesFonts(shapes[..|shapes| - 1]) + (if s.Leaf? && s.textFrame.Some? then RunFonts(s.textFrame.value.runFonts) else {})
  }

  /** Every collected name is stripped and not empty. */
  lemma {:induction false} ShapesFontsTrimmed(shapes: seq<Shape>)
    ensures forall f :: f in ShapesFonts(shapes) ==> f != "" && Trimmed(f)
  {
    if shapes != [] {
      ShapesFontsTrimmed(shapes[..|shapes| - 1]);
      var s := shapes[|shapes| - 1];
      if s.Leaf? && s.textFrame.Some? {
        RunFontsTrimmed(s.textFrame.value.runFonts);
      }
    }
  }

  lemma {:induction false} RunFontsTrimmed(runs: seq<Option<string>>)
    ensures forall f :: f in RunFonts(runs) ==> f != "" && Trimmed(f)
  {
    if runs != [] {
      RunFontsTrimmed(runs[..|runs| - 1]);
      var n := runs[|runs| - 1];
      if n.Some? {
        StripIsTrimmed(n.value);
      }
    }
  }

  /** The system and theme fonts `analyze_fonts` does not count (analyzer.py:725-729). */
  const SystemFonts: seq<string> := [
    "+mj-lt", "+mn-lt", "calibri", "tahoma", "arial",
    "times", "verdana", "cambria", "segoe ui", "consolas",
    "courier new", "georgia", "impact", "trebuchet ms"
  ]

  /** `any(s in f.lower() for s in system_fonts)`. */
  predicate IsSystemFont(f: string) {
    exists k :: 0 <= k < |SystemFonts| && Contains(Lower(f), SystemFonts[k])
  }

  /** The fonts that count. */
  function Filtered(used: set<string>): (r: set<string>)
    ensures r <= used && forall f :: f in used ==> (f in r <==> !IsSystemFont(f))
  {
    set f | f in used && !IsSystemFont(f)
  }

  /** Collecting more fonts never lowers the number of fonts that count, and the
      filter keeps no system font. */
  lemma {:induction false} FilteredMonotone(a: set<string>, b: set<string>)
    requires a <= b
    ensures Filtered(a) <= Filtered(b) && |Filtered(a)| <= |Filtered(b)|
    ensures forall f :: f in Filtered(b) ==> !IsSystemFont(f)
  {
    var fa, fb := Filtered(a), Filtered(b);
    assert fb == fa + (fb - fa);
  }

  /** The font pass on one row when `count` fonts count (analyzer.py:737-742). */
  function PatchRow(r: Row, count: nat): Row {
    if count > 2 then
      if FontGuard !in r.violations then
        var v := r.violations + [FontTag(count)];
        r.(fontsOk := false, violations := v, status := Join(v, ", "))
      else r.(fontsOk := false)
    else r
  }

  function PatchRows(rows: seq<Row>, count: nat): (r: seq<Row>)
    ensures |r| == |rows| && forall i :: 0 <= i < |rows| ==> r[i] == PatchRow(rows[i], count)
  {
    seq(|rows|, i requires 0 <= i < |rows| => PatchRow(rows[i], count))
  }

  /** The font pass over well-formed rows keeps every row well-formed and in
      place; with more than two fonts no row keeps `Шрифты` ✓, and otherwise
      nothing changes. */
  lemma {:induction false} PatchRowsInvariant(rows: seq<Row>, count: nat)
    requires forall i :: 0 <= i < |rows| ==> StatusConsistent(rows[i]) && AllTags(rows[i].violations)
    ensures var p := PatchRows(rows, count);
      && |p| == |rows|
      && (forall i :: 0 <= i < |p| ==> StatusConsistent(p[i]) && AllTags(p[i].violations))
      && (forall i :: 0 <= i < |p| ==> p[i].slide == rows[i].slide)
      && (count > 2 ==> forall i :: 0 <= i < |p| ==> !p[i].fontsOk)
      && (count <= 2 ==> p == rows)
  {
    var p := PatchRows(rows, count);
    forall i | 0 <= i < |rows|
      ensures StatusConsistent(p[i]) && AllTags(p[i].violations) && p[i].slide == rows[i].slide
      ensures count > 2 ==> !p[i].fontsOk
      ensures count <= 2 ==> p[i] == rows[i]
    {
      PatchRowEffect(rows[i], count);
    }
  }

  /** The guard never matches a tag of the analyzer. */
  lemma {:induction false} GuardNeverMatches(tags: seq<string>)
    requires AllTags(tags)
    ensures FontGuard !in tags
  {
    assert |FontGuard| == 6 && FontGuard[0] == 'Ш';
    assert !StartsWith(FontGuard, "ТЕКСТ(") by { assert "ТЕКСТ("[0] == 'Т'; }
    assert TagRank(FontGuard) == 5;
  }

  /** Two or fewer counted fonts leave every row as it was; more mark every row
      non-compliant on fonts and append the count tag, keeping the status
      invariant and the tag order (the guard never matches, so the tag is
      appended even when one is there already). */
  lemma {:induction false} PatchRowEffect(r: Row, count: nat)
    requires StatusConsistent(r) && AllTags(r.violations)
    ensures var p := PatchRow(r, count);
      && (count <= 2 ==> p == r)
      && (count > 2 ==>
            && !p.fontsOk && p.violations == r.violations + [FontTag(count)]
            && p == r.(fontsOk := false, violations := p.violations, status := p.status))
      && StatusConsistent(p) && AllTags(p.violations)
  {
    GuardNeverMatches(r.violations);
    TagRanks(count);
  }

  /** A row of `analyze_slide` keeps its tag order through the font pass. */
  lemma {:induction false} PatchRowOrdered(r: Row, count: nat)
    requires RanksIncrease(r.violations) && forall i :: 0 <= i < |r.violations| ==> TagRank(r.violations[i]) < 4
    ensures RanksIncrease(PatchRow(r, count).violations)
  {
    GuardNeverMatches(r.violations);
    TagRanks(count);
  }

  /** Running the font pass twice with more than two fonts appends the tag twice. */
  lemma {:induction false} PatchTwiceDuplicates(r: Row, count: nat)
    requires StatusConsistent(r) && AllTags(r.violations) && count > 2
    ensures PatchRow(PatchRow(r, count), count).violations == r.violations + [FontTag(count), FontTag(count)]
  {
    PatchRowEffect(r, count);
    PatchRowEffect(PatchRow(r, count), count);
  }

  // ---------------------------------------------------------------------------
  // Deck statistics
  // ---------------------------------------------------------------------------

  /** The `stats` dict of `analyze_selected_slides`. */
  datatype Stats = Stats(
    hasAnimations: bool,
    hasTransitions: bool,
    fontsCount: nat,
    backgroundIssues: nat,
    textOnImages: nat,
    totalImages: nat,
    ocrUsed: bool,
    ocrTextFound: nat,
    totalOcrCharacters: nat,
    selectedSlidesCount: nat,
    selectedSlidesRange: string,
    totalSlidesInPresentation: nat,
    tesseractAvailable: bool,
    ocrEnabled: bool)

  /** The number of rows with the property. */
  function Count(rows: seq<Row>, p: Row -> bool): (n: nat)
    ensures n <= |rows|
  {
    if rows == [] then 0 else Count(rows[..|rows| - 1], p) + (if p(rows[|rows| - 1]) then 1 else 0)
  }

  predicate BackgroundFails(r: Row) { !r.backgroundOk }
  predicate TextFails(r: Row) { !r.textOk }
  predicate AnimationsFail(r: Row) { !r.animationsOk }
  predicate HasTextOnImage(r: Row) { r.textOnImage }

  /** A row meeting all five per-slide criteria (analyzer.py:206-213). */
  predicate Compliant(r: Row) {
    r.backgroundOk && r.fontsOk && r.textOk && !r.textOnImage && r.animationsOk
  }

  function TotalImages(rows: seq<Row>): nat {
    if rows == [] then 0 else TotalImages(rows[..|rows| - 1]) + rows[|rows| - 1].imageCount
  }

  function OcrCharacters(rows: seq<Row>): nat {
    if rows == [] then 0 else OcrCharacters(rows[..|rows| - 1]) + |rows[|rows| - 1].ocrText|
  }

  lemma {:induction false} CountZeroIff(rows: seq<Row>, p: Row -> bool)
    ensures Count(rows, p) == 0 <==> forall i :: 0 <= i < |rows| ==> !p(rows[i])
  {
    if rows != [] {
      var n := |rows| - 1;
      CountZeroIff(rows[..n], p);
      assert forall i :: 0 <= i < n ==> rows[..n][i] == rows[i];
    }
  }

  /** The counters depend on the rows only through the five verdicts, the picture
      count and the OCR text, so the font pass does not change them. */
  lemma {:induction false} CountsIgnoreFontPass(rows: seq<Row>, count: nat)
    ensures var p := PatchRows(rows, count);
      && Count(p, BackgroundFails) == Count(rows, BackgroundFails)
      && Count(p, TextFails) == Count(rows, TextFails)
      && Count(p, AnimationsFail) == Count(rows, AnimationsFail)
      && Count(p, HasTextOnImage) == Count(rows, HasTextOnImage)
      && (count <= 2 ==> Count(p, Compliant) == Count(rows, Compliant))
      && (count > 2 ==> Count(p, Compliant) == 0)
  {
    if rows != [] {
      var n := |rows| - 1;
      CountsIgnoreFontPass(rows[..n], count);
      assert PatchRows(rows, count)[..n] == PatchRows(rows[..n], count);
    }
  }
}
