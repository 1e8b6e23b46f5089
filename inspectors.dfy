/** The per-slide inspectors of `PresentationAnalyzer`: background
    (analyzer.py:391-439), text volume (441-451), animation markers (453-467),
    deck transitions (381-389) and rectangle overlap (583-589). */
module Inspectors {
  import opened Strings
  import opened Slides

  // ---------------------------------------------------------------------------
  // Background
  // ---------------------------------------------------------------------------

  predicate IsWhite(c: Color) {
    c.Rgb? && c.r == 255 && c.g == 255 && c.b == 255
  }

  /** A solid fill whose colour has an RGB value other than pure white; a solid
      fill with a theme colour (no `.rgb`) is not one. */
  predicate SolidNonWhite(f: Fill) {
    f.fillType == Some(SolidFillType) && f.foreColor.Rgb? && !IsWhite(f.foreColor)
  }

  /** Check 1 on a readable slide background (analyzer.py:393-404): a solid fill
      must be white; any other fill passes only with type code 0. */
  predicate BackgroundFillOk(f: Fill) {
    if f.fillType == Some(SolidFillType) then !SolidNonWhite(f) else f.fillType == Some(0)
  }

  /** `slide_width * slide_height`, with 10 by 7.5 inches when the slide reports no size. */
  function SlideArea(slide: Slide): int {
    var w := if slide.width.Some? then slide.width.value else DefaultSlideWidth;
    var h := if slide.height.Some? then slide.height.value else DefaultSlideHeight;
    w * h
  }

  /** Check 2 on one shape (analyzer.py:412-425): a shape covering more than 70% of
      the slide area with a solid non-white fill. A shape whose size cannot be read
      is skipped. */
  predicate LargeNonWhite(shape: Shape, slideArea: int) {
    && shape.geometry.Some?
    && (shape.geometry.value.width * shape.geometry.value.height) as real > slideArea as real * MinImageAreaFraction
    && shape.fill.Some?
    && SolidNonWhite(shape.fill.value)
  }

  predicate IsLowerHex(c: char) {
    ('0' <= c <= '9') || ('a' <= c <= 'f')
  }

  predicate HexTokenAt(s: string, i: nat) {
    i + 7 <= |s| && s[i] == '#' && forall k :: i < k < i + 7 ==> IsLowerHex(s[k])
  }

  /** `re.findall(r"#[0-9a-f]{6}", s)`: the non-overlapping colour tokens, scanned
      left to right. */
  function HexTokens(s: string): (r: seq<string>)
    ensures forall k :: 0 <= k < |r| ==> |r[k]| == 7 && r[k][0] == '#'
    decreases |s|
  {
    if |s| < 7 then []
    else if HexTokenAt(s, 0) then [s[..7]] + HexTokens(s[7..])
    else HexTokens(s[1..])
  }

  /** The colour tokens check 3 accepts (analyzer.py:432). */
  const AllowedHex: seq<string> := ["#ffffff", "#ffffff00"]

  /** Check 3 (analyzer.py:429-435): every colour token of the lower-cased markup is
      accepted. */
  predicate MarkupColoursOk(markup: string) {
    var tokens := HexTokens(Lower(markup));
    forall k :: 0 <= k < |tokens| ==> tokens[k] in AllowedHex
  }

  /** `check_background_comprehensive`: a background that cannot be read fails the
      slide; otherwise all three checks must pass. */
  predicate BackgroundOk(slide: Slide) {
    && !slide.background.BackgroundUnreadable?
    && (slide.background.BackgroundFill? ==> BackgroundFillOk(slide.background.fill))
    && (forall i :: 0 <= i < |slide.shapes| ==> !LargeNonWhite(slide.shapes[i], SlideArea(slide)))
    && MarkupColoursOk(slide.markup)
  }

  /** The eight-character "transparent white" token can never be found, so check 3
      passes exactly when every token is `#ffffff`. */
  lemma {:induction false} TransparentWhiteNeverMatches(markup: string)
    ensures MarkupColoursOk(markup) <==> OnlyWhiteTokens(HexTokens(Lower(markup)))
  {
    var tokens := HexTokens(Lower(markup));
    forall k | 0 <= k < |tokens|
      ensures tokens[k] in AllowedHex <==> tokens[k] == "#ffffff"
    {
      assert tokens[k] != "#ffffff00" by {
        assert |tokens[k]| == 7;
      }
    }
  }

  predicate OnlyWhiteTokens(tokens: seq<string>) {
    forall k :: 0 <= k < |tokens| ==> tokens[k] == "#ffffff"
  }

  /** Every token found is a `#` followed by six lower-case hex digits taken from the
      markup, so the check never reports a colour that is not there. */
  lemma {:induction false} HexTokensWellFormed(s: string)
    ensures forall t :: t in HexTokens(s) ==> exists i: nat :: HexTokenAt(s, i) && s[i..i + 7] == t
    decreases |s|
  {
    if |s| >= 7 {
      if HexTokenAt(s, 0) {
        HexTokensWellFormed(s[7..]);
        forall t | t in HexTokens(s)
          ensures exists i: nat :: HexTokenAt(s, i) && s[i..i + 7] == t
        {
          if t == s[..7] {
            assert HexTokenAt(s, 0) && s[0..7] == t;
          } else {
            assert t in HexTokens(s[7..]);
            var i: nat :| HexTokenAt(s[7..], i) && s[7..][i..i + 7] == t;
            assert s[7..][i..i + 7] == s[i + 7..i + 14];
            assert HexTokenAt(s, i + 7);
          }
        }
      } else {
        HexTokensWellFormed(s[1..]);
        forall t | t in HexTokens(s)
          ensures exists i: nat :: HexTokenAt(s, i) && s[i..i + 7] == t
        {
          var i: nat :| HexTokenAt(s[1..], i) && s[1..][i..i + 7] == t;
          assert s[1..][i..i + 7] == s[i + 1..i + 8];
          assert HexTokenAt(s, i + 1);
        }
      }
    }
  }

  /** Every occurrence of a colour token in the text is found: a hex digit is
      never `#`, so two occurrences never overlap and the scan misses none. */
  lemma {:induction false} HexTokensComplete(s: string, i: nat)
    requires HexTokenAt(s, i)
    ensures s[i..i + 7] in HexTokens(s)
    decreases |s|
  {
    if HexTokenAt(s, 0) {
      assert i == 0 || i >= 7 by { assert !IsLowerHex('#'); }
      if i == 0 {
        assert HexTokens(s)[0] == s[..7];
      } else {
        var t := s[7..];
        assert HexTokenAt(t, i - 7) by {
          forall k | i - 7 <= k < i ensures t[k] == s[k + 7] { }
        }
        assert t[i - 7..i] == s[i..i + 7];
        HexTokensComplete(t, i - 7);
        assert HexTokens(s) == [s[..7]] + HexTokens(t);
      }
    } else {
      var t := s[1..];
      assert HexTokenAt(t, i - 1) by {
        forall k | i - 1 <= k < i + 6 ensures t[k] == s[k + 1] { }
      }
      assert t[i - 1..i + 6] == s[i..i + 7];
      HexTokensComplete(t, i - 1);
    }
  }

  /** Check 3 in terms of the markup itself: it passes exactly when every
      occurrence of `#` and six lower-case hex digits in the lower-cased markup
      is `#ffffff`. */
  lemma {:induction false} ColourCheckIff(markup: string)
    ensures MarkupColoursOk(markup) <==>
      forall i: nat :: HexTokenAt(Lower(markup), i) ==> Lower(markup)[i..i + 7] == "#ffffff"
  {
    var m := Lower(markup);
    var tokens := HexTokens(m);
    TransparentWhiteNeverMatches(markup);
    if MarkupColoursOk(markup) {
      forall i: nat | HexTokenAt(m, i)
        ensures m[i..i + 7] == "#ffffff"
      {
        HexTokensComplete(m, i);
        var k :| 0 <= k < |tokens| && tokens[k] == m[i..i + 7];
      }
    } else {
      var k :| 0 <= k < |tokens| && tokens[k] != "#ffffff";
      HexTokensWellFormed(m);
      assert tokens[k] in tokens;
      var i: nat :| HexTokenAt(m, i) && m[i..i + 7] == tokens[k];
    }
  }

  /** Any colour other than white written in the markup fails the slide. */
  lemma {:induction false} ForeignColourFails(slide: Slide, i: nat)
    requires HexTokenAt(Lower(slide.markup), i) && Lower(slide.markup)[i..i + 7] != "#ffffff"
    ensures !BackgroundOk(slide)
  {
    ColourCheckIff(slide.markup);
  }

  /** A background that cannot be read fails the slide whatever the other checks
      would say (fail-closed), while a falsy background leaves the verdict to
      checks 2 and 3. */
  lemma {:induction false} UnreadableBackgroundFails(slide: Slide)
    ensures slide.background.BackgroundUnreadable? ==> !BackgroundOk(slide)
    ensures slide.background.NoBackground? ==>
      (BackgroundOk(slide) <==>
        (forall i :: 0 <= i < |slide.shapes| ==> !LargeNonWhite(slide.shapes[i], SlideArea(slide)))
        && MarkupColoursOk(slide.markup))
  {
  }

  /** A background of any fill type other than solid (1) or background (0),
      such as no fill (5), fails the slide. */
  lemma {:induction false} OtherFillTypeFails(slide: Slide, t: int, c: Color)
    requires slide.background == BackgroundFill(Fill(Some(t), c)) && t != 0 && t != SolidFillType
    ensures !BackgroundOk(slide)
  {
  }

  /** A white solid background, shapes without solid non-white fills and markup
      whose only colour is white pass. */
  lemma {:induction false} WhiteSlidePasses(slide: Slide)
    requires slide.background == BackgroundFill(Fill(Some(SolidFillType), Rgb(255, 255, 255)))
    requires forall i :: 0 <= i < |slide.shapes| ==> slide.shapes[i].fill.None? || !SolidNonWhite(slide.shapes[i].fill.value)
    requires forall t :: t in HexTokens(Lower(slide.markup)) ==> t == "#ffffff"
    ensures BackgroundOk(slide)
  {
    var tokens := HexTokens(Lower(slide.markup));
    assert forall k :: 0 <= k < |tokens| ==> tokens[k] in tokens;
  }

  /** `check_background_comprehensive`, with its two scanning loops. */
  method CheckBackground(slide: Slide) returns (ok: bool)
    ensures ok == BackgroundOk(slide)
  {
    match slide.background {
      case BackgroundUnreadable => return false;
      case BackgroundFill(f) =>
        if !BackgroundFillOk(f) {
          return false;
        }
      case NoBackground =>
    }
    var area := SlideArea(slide);
    var i := 0;
    while i < |slide.shapes|
      invariant 0 <= i <= |slide.shapes|
      invariant forall k :: 0 <= k < i ==> !LargeNonWhite(slide.shapes[k], area)
    {
      if LargeNonWhite(slide.shapes[i], area) {
        return false;
      }
      i := i + 1;
    }
    var tokens := HexTokens(Lower(slide.markup));
    var j := 0;
    while j < |tokens|
      invariant 0 <= j <= |tokens|
      invariant forall k :: 0 <= k < j ==> tokens[k] in AllowedHex
    {
      if tokens[j] !in AllowedHex {
        return false;
      }
      j := j + 1;
    }
    return true;
  }

  // ---------------------------------------------------------------------------
  // Text volume
  // ---------------------------------------------------------------------------

  /** What one text contributes (analyzer.py:445-448): nothing when it is empty or
      strips to at most one character, else the length of the stripped text with
      whitespace runs collapsed. */
  function TextCount(text: string): nat {
    if text == "" then 0
    else
      var t := Strip(text);
      if t != "" && |t| > 1 then |Collapse(t)| else 0
  }

  /** The text frame's text of a top-level shape; groups and shapes without a text
      frame have none. */
  function ShapeText(shape: Shape): string {
    if shape.Leaf? && shape.textFrame.Some? then shape.textFrame.value.text else ""
  }

  function TextChars(shapes: seq<Shape>): nat {
    if shapes == [] then 0
    else TextChars(shapes[..|shapes| - 1]) + TextCount(ShapeText(shapes[|shapes| - 1]))
  }

  lemma {:induction false} TextCharsStep(shapes: seq<Shape>, i: nat)
    requires i < |shapes|
    ensures TextChars(shapes[..i + 1]) == TextChars(shapes[..i]) + TextCount(ShapeText(shapes[i]))
  {
    assert shapes[..i + 1][..i] == shapes[..i];
  }

  /** `check_text_improved`: the overload flag and the character count. */
  method CheckText(slide: Slide) returns (overload: bool, count: nat)
    ensures count == TextChars(slide.shapes)
    ensures overload <==> count > MaxTextChars
  {
    count := 0;
    var i := 0;
    while i < |slide.shapes|
      invariant 0 <= i <= |slide.shapes|
      invariant count == TextChars(slide.shapes[..i])
    {
      var shape := slide.shapes[i];
      var added := 0;
      if shape.Leaf? && shape.textFrame.Some? && shape.textFrame.value.text != "" {
        var text := Strip(shape.textFrame.value.text);
        if text != "" && |text| > 1 {
          added := |Collapse(text)|;
        }
      }
      assert count + added == TextChars(slide.shapes[..i + 1]) by {
        assert added == TextCount(ShapeText(shape));
        TextCharsStep(slide.shapes, i);
      }
      count := count + added;
      i := i + 1;
    }
    assert slide.shapes[..i] == slide.shapes;
    overload := count > MaxTextChars;
  }

  /** The count of a text depends only on its whitespace-normalised form: a text
      counts as its collapsed, stripped length when that exceeds one character. */
  lemma {:induction false} TextCountNormalized(text: string)
    ensures var n := Strip(Collapse(text));
      TextCount(text) == if |n| > 1 then |n| else 0
  {
    var t := Strip(text);
    CollapseStrip(text);
    StripIsTrimmed(text);
    CollapseLongIff(t);
  }

  lemma {:induction false} CollapseLongIff(t: string)
    requires t == [] || !IsSpace(t[0])
    ensures |Collapse(t)| > 1 <==> |t| > 1
  {
    if t != [] {
      assert Collapse(t) == [t[0]] + Collapse(t[1..]);
    }
  }

  /** Making a whitespace run of a text longer, anywhere in the text, does not change
      its count. */
  lemma {:induction false} WideningRunKeepsCount(text: string, i: nat, c: char)
    requires i < |text| && IsSpace(text[i]) && IsSpace(c)
    ensures TextCount(text[..i] + [c] + text[i..]) == TextCount(text)
  {
    CollapseWidenRun(text, i, c);
    TextCountNormalized(text);
    TextCountNormalized(text[..i] + [c] + text[i..]);
  }

  /** The slide count is the sum of the shape counts: replacing one shape by one
      whose text counts the same keeps the slide count. */
  lemma {:induction false} TextCharsUpdate(shapes: seq<Shape>, k: nat, s: Shape)
    requires k < |shapes| && TextCount(ShapeText(s)) == TextCount(ShapeText(shapes[k]))
    ensures TextChars(shapes[k := s]) == TextChars(shapes)
  {
    var n := |shapes| - 1;
    var b := shapes[k := s];
    var last := TextCount(ShapeText(shapes[n]));
    assert TextChars(shapes) == TextChars(shapes[..n]) + last;
    if k < n {
      assert b[..n] == shapes[..n][k := s] && b[n] == shapes[n];
      TextCharsUpdate(shapes[..n], k, s);
      assert TextChars(b) == TextChars(b[..n]) + last;
    } else {
      assert b[..n] == shapes[..n] && b[n] == s;
      assert TextChars(b) == TextChars(b[..n]) + TextCount(ShapeText(s));
    }
  }

  /** Widening a whitespace run in the text of one shape leaves the slide's
      character count, and so its overload verdict, unchanged. */
  lemma {:induction false} WideningRunKeepsSlideCount(shapes: seq<Shape>, k: nat, frame: TextFrame, i: nat, c: char)
    requires k < |shapes| && shapes[k].Leaf? && shapes[k].textFrame == Some(frame)
    requires i < |frame.text| && IsSpace(frame.text[i]) && IsSpace(c)
    ensures var widened := TextFrame(frame.text[..i] + [c] + frame.text[i..], frame.runFonts);
      TextChars(shapes[k := shapes[k].(textFrame := Some(widened))]) == TextChars(shapes)
  {
    var widened := TextFrame(frame.text[..i] + [c] + frame.text[i..], frame.runFonts);
    WideningRunKeepsCount(frame.text, i, c);
    TextCharsUpdate(shapes, k, shapes[k].(textFrame := Some(widened)));
  }

  // ---------------------------------------------------------------------------
  // Animation and transition markers
  // ---------------------------------------------------------------------------

  /** One element of a marker pattern: a literal character, `\s`, or `['"]`. */
  datatype PatElem = Lit(c: char) | AnySpace | AnyQuote

  predicate ElemMatches(e: PatElem, c: char) {
    match e
    case Lit(x) => c == x
    case AnySpace => IsSpace(c)
    case AnyQuote => c == '\'' || c == '"'
  }

  function Lits(s: string): (p: seq<PatElem>)
    ensures |p| == |s| && forall k :: 0 <= k < |s| ==> p[k] == Lit(s[k])
  {
    seq(|s|, k requires 0 <= k < |s| => Lit(s[k]))
  }

  /** The animation patterns of analyzer.py:456-461, in their order. */
  const AnimationPatterns: seq<seq<PatElem>> := [
    Lits("<p:anim") + [AnySpace], Lits("p:ctn"), Lits("p:seq"), Lits("p:par"),
    Lits("dur=") + [AnyQuote], Lits("accel=") + [AnyQuote], Lits("decel=") + [AnyQuote],
    Lits("<p:custanim") + [AnySpace], Lits("<p:set") + [AnySpace], Lits("animate") + [AnySpace],
    Lits("animation") + [AnySpace], Lits("animbullet") + [AnySpace], Lits("animeffect") + [AnySpace]
  ]

  predicate MatchesAt(s: string, i: nat, p: seq<PatElem>) {
    i + |p| <= |s| && forall k :: 0 <= k < |p| ==> ElemMatches(p[k], s[i + k])
  }

  /** `re.search(p, s)` for one of these fixed-length patterns. */
  function Search(p: seq<PatElem>, s: string): (r: bool)
    ensures r <==> exists i: nat :: MatchesAt(s, i, p)
    decreases |s|
  {
    if |p| > |s| then false
    else if MatchesAt(s, 0, p) then true
    else if s == [] then false
    else
      var r := Search(p, s[1..]);
      assert r ==> exists i: nat :: MatchesAt(s, i, p) by {
        if r {
          var i: nat :| MatchesAt(s[1..], i, p);
          assert MatchesAt(s, i + 1, p);
        }
      }
      assert (exists i: nat :: MatchesAt(s, i, p)) ==> r by {
        if exists i: nat :: MatchesAt(s, i, p) {
          var i: nat :| MatchesAt(s, i, p);
          assert i > 0;
          assert MatchesAt(s[1..], i - 1, p);
        }
      }
      r
  }

  /** The slide markup shows an animation construct. */
  predicate HasAnimationMarker(markup: string) {
    exists k :: 0 <= k < |AnimationPatterns| && Search(AnimationPatterns[k], Lower(markup))
  }

  /** `check_animations_improved`: try each pattern in order, stop at the first hit. */
  method CheckAnimations(slide: Slide) returns (found: bool)
    ensures found <==> HasAnimationMarker(slide.markup)
  {
    var xml := Lower(slide.markup);
    var k := 0;
    while k < |AnimationPatterns|
      invariant 0 <= k <= |AnimationPatterns|
      invariant forall j :: 0 <= j < k ==> !Search(AnimationPatterns[j], xml)
    {
      if Search(AnimationPatterns[k], xml) {
        return true;
      }
      k := k + 1;
    }
    return false;
  }

  /** A literal pattern is found exactly when its text is a substring. */
  lemma {:induction false} SearchLiteral(w: string, s: string)
    ensures Search(Lits(w), s) <==> Contains(s, w)
  {
    forall i: nat ensures MatchesAt(s, i, Lits(w)) <==> OccursAt(s, w, i) {
      if i + |w| <= |s| {
        if MatchesAt(s, i, Lits(w)) {
          assert forall k :: 0 <= k < |w| ==> s[i..i + |w|][k] == w[k];
        }
        if OccursAt(s, w, i) {
          forall k | 0 <= k < |w|
            ensures ElemMatches(Lits(w)[k], s[i + k])
          {
            assert s[i..i + |w|][k] == s[i + k];
          }
        }
      }
    }
  }

  /** Timing containers alone mark a slide as animated. */
  lemma {:induction false} TimingContainerIsAnimation(markup: string)
    requires Contains(Lower(markup), "p:ctn")
    ensures HasAnimationMarker(markup)
  {
    SearchLiteral("p:ctn", Lower(markup));
    assert AnimationPatterns[1] == Lits("p:ctn");
  }

  /** The transition test of analyzer.py:385. */
  predicate HasTransitionMarker(markup: string) {
    var xml := Lower(markup);
    Contains(xml, "p:transition") || Contains(xml, "transition")
  }

  /** Its first alternative is subsumed by the second: the test is plain
      substring search for "transition". */
  lemma {:induction false} TransitionMarkerIsSubstring(markup: string)
    ensures HasTransitionMarker(markup) <==> Contains(Lower(markup), "transition")
  {
    var xml := Lower(markup);
    if Contains(xml, "p:transition") {
      var i: nat :| OccursAt(xml, "p:transition", i);
      assert xml[i + 2..i + 12] == xml[i..i + 12][2..];
      assert OccursAt(xml, "transition", i + 2);
    }
  }

  /** `check_presentation_transitions`: any slide of the whole deck. */
  method CheckPresentationTransitions(slides: seq<Slide>) returns (found: bool)
    ensures found <==> exists i :: 0 <= i < |slides| && HasTransitionMarker(slides[i].markup)
  {
    var i := 0;
    while i < |slides|
      invariant 0 <= i <= |slides|
      invariant forall k :: 0 <= k < i ==> !HasTransitionMarker(slides[k].markup)
    {
      if HasTransitionMarker(slides[i].markup) {
        return true;
      }
      i := i + 1;
    }
    return false;
  }

  // ---------------------------------------------------------------------------
  // Rectangle overlap
  // ---------------------------------------------------------------------------

  /** `shapes_overlap`: both axes overlap strictly. */
  predicate Overlap(a: Box, b: Box) {
    && !(a.Right() <= b.left || a.left >= b.Right())
    && !(a.Bottom() <= b.top || a.top >= b.Bottom())
  }

  lemma {:induction false} OverlapSymmetric(a: Box, b: Box)
    ensures Overlap(a, b) <==> Overlap(b, a)
  {
  }

  /** Rectangles that only share an edge do not overlap. */
  lemma {:induction false} SharedEdgeNoOverlap(a: Box, b: Box)
    requires a.Right() == b.left || a.Bottom() == b.top
    ensures !Overlap(a, b) && !Overlap(b, a)
  {
  }

  predicate Inside(r: Box, x: real, y: real) {
    r.left as real < x < r.Right() as real && r.top as real < y < r.Bottom() as real
  }

  /** For rectangles of positive size, overlap means a common interior point. */
  lemma {:induction false} OverlapIffCommonPoint(a: Box, b: Box)
    requires a.width > 0 && a.height > 0 && b.width > 0 && b.height > 0
    ensures Overlap(a, b) <==> exists x: real, y: real :: Inside(a, x, y) && Inside(b, x, y)
  {
    if Overlap(a, b) {
      var lo := if a.left >= b.left then a.left else b.left;
      var hi := if a.Right() <= b.Right() then a.Right() else b.Right();
      var bot := if a.top >= b.top then a.top else b.top;
      var ceil := if a.Bottom() <= b.Bottom() then a.Bottom() else b.Bottom();
      var x := (lo as real + hi as real) / 2.0;
      var y := (bot as real + ceil as real) / 2.0;
      assert Inside(a, x, y) && Inside(b, x, y);
    }
  }
}
