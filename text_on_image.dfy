/** The text-on-image decision of `PresentationAnalyzer.check_images_enhanced`
    (analyzer.py:472-581) with the per-image OCR selection of
    `check_images_with_multiple_ocr_methods` and `try_multiple_ocr_methods`
    (analyzer.py:591-646). */
module TextOnImage {
  import opened Strings
  import opened Slides
  import opened Inspectors
  import opened OcrText

  // ---------------------------------------------------------------------------
  // Flattening the shape tree
  // ---------------------------------------------------------------------------

  /** An entry of `image_info`: the picture shape's box and its picture. */
  datatype ImageInfo = ImageInfo(box: Box, image: Image)

  /** An entry of `text_shapes`: the box, the stripped text and its length. */
  datatype TextInfo = TextInfo(box: Box, text: string, charCount: nat)

  /** The pictures `process_shape` records for one shape: those of a group's members,
      in order, or the shape's own picture when its geometry can be read. */
  function ShapeImages(shape: Shape): seq<ImageInfo>
    decreases shape, 1
  {
    match shape
    case Group(_, _, children) => ImagesOf(children)
    case Leaf(geometry, _, _, image) =>
      if image.Some? && geometry.Some? then [ImageInfo(geometry.value, image.value)] else []
  }

  function ImagesOf(shapes: seq<Shape>): seq<ImageInfo>
    decreases shapes, 0
  {
    if shapes == [] then []
    else ImagesOf(shapes[..|shapes| - 1]) + ShapeImages(shapes[|shapes| - 1])
  }

  /** The text entry `process_shape` records for one shape: none for a group itself,
      none after a picture whose geometry fails, and otherwise one for a text frame
      whose stripped text is non-empty, when the geometry can be read. */
  function ShapeTexts(shape: Shape): seq<TextInfo>
    decreases shape, 1
  {
    match shape
    case Group(_, _, children) => TextsOf(children)
    case Leaf(geometry, _, frame, image) =>
      if image.Some? && geometry.None? then []
      else if frame.Some? && Strip(frame.value.text) != "" && geometry.Some? then
        var t := Strip(frame.value.text);
        [TextInfo(geometry.value, t, |t|)]
      else []
  }

  function TextsOf(shapes: seq<Shape>): seq<TextInfo>
    decreases shapes, 0
  {
    if shapes == [] then []
    else TextsOf(shapes[..|shapes| - 1]) + ShapeTexts(shapes[|shapes| - 1])
  }

  lemma {:induction false} ImagesOfAppend(a: seq<Shape>, b: seq<Shape>)
    ensures ImagesOf(a + b) == ImagesOf(a) + ImagesOf(b)
  {
    if b != [] {
      assert (a + b)[..|a + b| - 1] == a + b[..|b| - 1];
      ImagesOfAppend(a, b[..|b| - 1]);
    } else {
      assert a + b == a;
    }
  }

  lemma {:induction false} TextsOfAppend(a: seq<Shape>, b: seq<Shape>)
    ensures TextsOf(a + b) == TextsOf(a) + TextsOf(b)
  {
    if b != [] {
      var b0, last := b[..|b| - 1], b[|b| - 1];
      assert TextsOf(a + b) == TextsOf(a + b0) + ShapeTexts(last) by {
        assert (a + b)[..|a + b| - 1] == a + b0;
      }
      assert TextsOf(b) == TextsOf(b0) + ShapeTexts(last);
      TextsOfAppend(a, b0);
    } else {
      assert a + b == a;
    }
  }

  /** Grouping is transparent: a group contributes exactly what its members would
      contribute at its place in the slide. */
  lemma {:induction false} GroupIsTransparent(before: seq<Shape>, geometry: Option<Box>, fill: Option<Fill>, children: seq<Shape>, after: seq<Shape>)
    ensures ImagesOf(before + [Group(geometry, fill, children)] + after) == ImagesOf(before + children + after)
    ensures TextsOf(before + [Group(geometry, fill, children)] + after) == TextsOf(before + children + after)
  {
    var g := Group(geometry, fill, children);
    ImagesOfAppend(before + [g], after);
    ImagesOfAppend(before, [g]);
    ImagesOfAppend(before + children, after);
    ImagesOfAppend(before, children);
    TextsOfAppend(before + [g], after);
    TextsOfAppend(before, [g]);
    TextsOfAppend(before + children, after);
    TextsOfAppend(before, children);
    assert ImagesOf([g]) == ImagesOf(children) by { assert [g][..0] == []; }
    assert TextsOf([g]) == TextsOf(children) by { assert [g][..0] == []; }
  }

  /** Every text entry carries a non-empty stripped text and its length. */
  lemma {:induction false} TextsWellFormed(shapes: seq<Shape>)
    ensures forall t :: t in TextsOf(shapes) ==> t.text != "" && Trimmed(t.text) && t.charCount == |t.text|
    decreases shapes, 0
  {
    if shapes != [] {
      TextsWellFormed(shapes[..|shapes| - 1]);
      ShapeTextsWellFormed(shapes[|shapes| - 1]);
    }
  }

  lemma {:induction false} ShapeTextsWellFormed(shape: Shape)
    ensures forall t :: t in ShapeTexts(shape) ==> t.text != "" && Trimmed(t.text) && t.charCount == |t.text|
    decreases shape, 1
  {
    match shape
    case Group(_, _, children) => TextsWellFormed(children);
    case Leaf(geometry, _, frame, image) =>
      if frame.Some? && geometry.Some? {
        var t := Strip(frame.value.text);
        assert Trimmed(t) by { StripIsTrimmed(frame.value.text); }
        assert ShapeTexts(shape) == [] || ShapeTexts(shape) == [TextInfo(geometry.value, t, |t|)];
      } else {
        assert ShapeTexts(shape) == [];
      }
  }

  // ---------------------------------------------------------------------------
  // Geometric pre-filter
  // ---------------------------------------------------------------------------

  /** Only texts of at least `min_text_length_for_ocr` characters are tested. */
  predicate Eligible(t: TextInfo) {
    t.charCount >= MinTextLengthForOcr
  }

  predicate AnyOverlap(texts: seq<TextInfo>, images: seq<ImageInfo>) {
    exists i, j :: 0 <= i < |texts| && 0 <= j < |images| && Eligible(texts[i]) && Overlap(texts[i].box, images[j].box)
  }

  /** The pre-filter loop of analyzer.py:522-531: is some eligible text over some
      picture? */
  method FindOverlap(texts: seq<TextInfo>, images: seq<ImageInfo>) returns (found: bool)
    ensures found <==> AnyOverlap(texts, images)
  {
    found := false;
    var i := 0;
    while i < |texts|
      invariant 0 <= i <= |texts|
      invariant forall p, q :: 0 <= p < i && 0 <= q < |images| && Eligible(texts[p]) ==> !Overlap(texts[p].box, images[q].box)
    {
      if Eligible(texts[i]) {
        var j := 0;
        while j < |images|
          invariant 0 <= j <= |images|
          invariant forall q :: 0 <= q < j ==> !Overlap(texts[i].box, images[q].box)
        {
          if Overlap(texts[i].box, images[j].box) {
            return true;
          }
          j := j + 1;
        }
      }
      i := i + 1;
    }
  }

  /** A short text over a picture is not a sign of text on the picture. */
  lemma {:induction false} ShortTextsIgnored(texts: seq<TextInfo>, images: seq<ImageInfo>)
    requires forall i :: 0 <= i < |texts| ==> texts[i].charCount < MinTextLengthForOcr
    ensures !AnyOverlap(texts, images)
  {
  }

  // ---------------------------------------------------------------------------
  // One OCR attempt
  // ---------------------------------------------------------------------------

  /** One configuration of `try_multiple_ocr_methods`. */
  datatype OcrMethod = OcrMethod(name: string, psm: nat, pre: Preprocess)

  const OcrMethods: seq<OcrMethod> := [
    OcrMethod("PSM6", 6, Standard), OcrMethod("PSM3", 3, Standard), OcrMethod("PSM11", 11, HighContrast)
  ]

  /** `f"--oem 3 --psm {psm} -l {languages}"`. */
  function Config(psm: nat, languages: string): string {
    "--oem 3 --psm " + NatToString(psm) + " -l " + languages
  }

  /** The words of an engine result, each stripped. */
  function Tokens(words: seq<OcrWord>): (r: seq<string>)
    ensures |r| == |words|
  {
    seq(|words|, k requires 0 <= k < |words| => Strip(words[k].text))
  }

  /** The tokens longer than one character, in order. */
  function Parts(tokens: seq<string>): seq<string> {
    if tokens == [] then []
    else
      var t := tokens[|tokens| - 1];
      Parts(tokens[..|tokens| - 1]) + (if |t| > 1 then [t] else [])
  }

  /** The confidences of the kept tokens, except those reported as the text "-1". A
      confidence reported as the number -1 is kept: it differs from the text. */
  function Confs(tokens: seq<string>, words: seq<OcrWord>): seq<real>
    requires |tokens| == |words|
  {
    if tokens == [] then []
    else
      var n := |tokens| - 1;
      Confs(tokens[..n], words[..n]) + (if |tokens[n]| > 1 && words[n].conf.Score? then [words[n].conf.value] else [])
  }

  /** Every kept token is stripped and longer than one character. */
  lemma {:induction false} PartsWellFormed(tokens: seq<string>)
    requires forall k :: 0 <= k < |tokens| ==> Trimmed(tokens[k])
    ensures forall k :: 0 <= k < |Parts(tokens)| ==> |Parts(tokens)[k]| > 1 && Trimmed(Parts(tokens)[k])
  {
    if tokens != [] {
      PartsWellFormed(tokens[..|tokens| - 1]);
    }
  }

  lemma {:induction false} TokensTrimmed(words: seq<OcrWord>)
    ensures forall k :: 0 <= k < |words| ==> Trimmed(Tokens(words)[k])
  {
    forall k | 0 <= k < |words| {
      StripIsTrimmed(words[k].text);
    }
  }

  /** There is one confidence per kept token at most: the mean is over at most as
      many values as there are kept tokens. */
  lemma {:induction false} ConfsAtMostParts(tokens: seq<string>, words: seq<OcrWord>)
    requires |tokens| == |words|
    ensures |Confs(tokens, words)| <= |Parts(tokens)|
  {
    if tokens != [] {
      var n := |tokens| - 1;
      ConfsAtMostParts(tokens[..n], words[..n]);
    }
  }

  function Sum(xs: seq<real>): real {
    if xs == [] then 0.0 else Sum(xs[..|xs| - 1]) + xs[|xs| - 1]
  }

  /** What one attempt yields: nothing (the preprocessing or the engine failed, or
      no token was kept), or a cleaned text with its mean confidence. */
  datatype Attempt = Skipped | Candidate(text: string, conf: real)

  function AttemptOf(run: OcrRun): Attempt {
    match run
    case NoRun => Skipped
    case Words(words) =>
      var tokens := Tokens(words);
      var parts := Parts(tokens);
      var confs := Confs(tokens, words);
      if parts == [] then Skipped
      else Candidate(Clean(Join(parts, " ")), if confs == [] then 0.0 else Sum(confs) / |confs| as real)
  }

  /** Reads one engine result with the token loop of analyzer.py:626-636. */
  method ReadAttempt(run: OcrRun) returns (a: Attempt)
    ensures a == AttemptOf(run)
  {
    if run.NoRun? {
      return Skipped;
    }
    var tokens := Tokens(run.words);
    var parts, confs, total := ReadWords(tokens, run.words);
    if parts == [] {
      return Skipped;
    }
    var conf := if confs == [] then 0.0 else total / |confs| as real;
    return Candidate(Clean(Join(parts, " ")), conf);
  }

  /** The token loop itself: the kept tokens, their confidences and their sum. */
  method ReadWords(tokens: seq<string>, words: seq<OcrWord>) returns (parts: seq<string>, confs: seq<real>, total: real)
    requires |tokens| == |words|
    ensures parts == Parts(tokens) && confs == Confs(tokens, words) && total == Sum(confs)
  {
    parts := [];
    confs := [];
    total := 0.0;
    var j := 0;
    while j < |tokens|
      invariant 0 <= j <= |tokens|
      invariant parts == Parts(tokens[..j]) && confs == Confs(tokens[..j], words[..j]) && total == Sum(confs)
    {
      var t := tokens[j];
      if |t| > 1 {
        parts := parts + [t];
        if words[j].conf.Score? {
          assert (confs + [words[j].conf.value])[..|confs|] == confs;
          confs := confs + [words[j].conf.value];
          total := total + words[j].conf.value;
        }
      }
      assert tokens[..j + 1][..j] == tokens[..j] && words[..j + 1][..j] == words[..j];
      j := j + 1;
    }
    assert tokens[..j] == tokens && words[..j] == words;
  }

  // ---------------------------------------------------------------------------
  // Best of the three attempts
  // ---------------------------------------------------------------------------

  /** `best_text, best_conf, best_method`. */
  datatype Best = Best(text: string, conf: real, methodName: string)

  const NoBest: Best := Best("", 0.0, "")

  /** An attempt that may replace the best so far: a non-empty text passing the
      quality gate. The gate is a parameter here; the analyzer's is
      `OcrText.Quality`, which `ImagesVerdict` supplies. */
  predicate Acceptable(a: Attempt, quality: (string, real) -> bool) {
    a.Candidate? && a.text != "" && quality(a.text, a.conf)
  }

  function Step(b: Best, a: Attempt, name: string, quality: (string, real) -> bool): Best {
    if Acceptable(a, quality) && a.conf > b.conf then Best(a.text, a.conf, name) else b
  }

  /** The best after the given attempts, in order. */
  function BestAfter(attempts: seq<Attempt>, names: seq<string>, quality: (string, real) -> bool): Best
    requires |attempts| == |names|
  {
    if attempts == [] then NoBest
    else
      var n := |attempts| - 1;
      Step(BestAfter(attempts[..n], names[..n], quality), attempts[n], names[n], quality)
  }

  /** The engine results of the three configurations. */
  function Attempts(setup: OcrSetup, blob: seq<bv8>): (r: seq<Attempt>)
    ensures |r| == |OcrMethods|
  {
    seq(|OcrMethods|, k requires 0 <= k < |OcrMethods| =>
      AttemptOf(setup.engine(blob, OcrMethods[k].pre, Config(OcrMethods[k].psm, setup.languages))))
  }

  function MethodNames(): (r: seq<string>)
    ensures |r| == |OcrMethods| && forall k :: 0 <= k < |r| ==> r[k] == OcrMethods[k].name
  {
    seq(|OcrMethods|, k requires 0 <= k < |OcrMethods| => OcrMethods[k].name)
  }

  /** The best-of result of one image: text, confidence and configuration name. */
  datatype OcrResult = OcrResult(text: string, conf: real, methodName: string)

  function Outcome(b: Best): Option<OcrResult> {
    if b.text != "" && b.conf > OcrAlternateMinConfidence then Some(OcrResult(b.text, b.conf, b.methodName)) else None
  }

  function BestOcr(setup: OcrSetup, blob: seq<bv8>, quality: (string, real) -> bool): Option<OcrResult> {
    Outcome(BestAfter(Attempts(setup, blob), MethodNames(), quality))
  }

  /** The selection is an arg-max with the earliest attempt winning ties: either
      nothing was taken (and no acceptable attempt had a positive confidence), or
      the attempt taken is acceptable, no acceptable attempt has a higher
      confidence, and every earlier acceptable one has a lower confidence. */
  lemma {:induction false} BestIsEarliestMax(attempts: seq<Attempt>, names: seq<string>, quality: (string, real) -> bool)
    requires |attempts| == |names|
    ensures var b := BestAfter(attempts, names, quality);
      || (b == NoBest && forall j :: 0 <= j < |attempts| && Acceptable(attempts[j], quality) ==> attempts[j].conf <= 0.0)
      || IsEarliestMax(attempts, names, quality, b)
  {
    if attempts != [] {
      var n := |attempts| - 1;
      var pa, pn := attempts[..n], names[..n];
      BestIsEarliestMax(pa, pn, quality);
      var prev := BestAfter(pa, pn, quality);
      var a := attempts[n];
      assert forall j :: 0 <= j < n ==> attempts[j] == pa[j];
      if Acceptable(a, quality) && a.conf > prev.conf {
        assert BestAfter(attempts, names, quality) == Best(a.text, a.conf, names[n]);
        if prev != NoBest {
          var k :| EarliestMaxAt(pa, pn, quality, prev, k);
        }
        assert EarliestMaxAt(attempts, names, quality, Best(a.text, a.conf, names[n]), n);
      } else {
        assert BestAfter(attempts, names, quality) == prev;
        if prev != NoBest {
          var k :| EarliestMaxAt(pa, pn, quality, prev, k);
          assert names[k] == pn[k];
          assert EarliestMaxAt(attempts, names, quality, prev, k);
        }
      }
    }
  }

  /** Attempt `k` is acceptable with a positive confidence, `b` records it, no
      acceptable attempt is better and every earlier acceptable one is worse. */
  ghost predicate EarliestMaxAt(attempts: seq<Attempt>, names: seq<string>, quality: (string, real) -> bool, b: Best, k: int)
    requires |attempts| == |names|
  {
    && 0 <= k < |attempts| && Acceptable(attempts[k], quality) && attempts[k].conf > 0.0
    && b == Best(attempts[k].text, attempts[k].conf, names[k])
    && (forall j :: 0 <= j < |attempts| && Acceptable(attempts[j], quality) ==> attempts[j].conf <= attempts[k].conf)
    && (forall j :: 0 <= j < k && Acceptable(attempts[j], quality) ==> attempts[j].conf < attempts[k].conf)
  }

  ghost predicate IsEarliestMax(attempts: seq<Attempt>, names: seq<string>, quality: (string, real) -> bool, b: Best)
    requires |attempts| == |names|
  {
    exists k :: EarliestMaxAt(attempts, names, quality, b, k)
  }

  /** A returned result has a text that passed the quality gate and a confidence
      above 35. */
  lemma {:induction false} OutcomeAccepted(attempts: seq<Attempt>, names: seq<string>, quality: (string, real) -> bool)
    requires |attempts| == |names|
    ensures var r := Outcome(BestAfter(attempts, names, quality));
      r.Some? ==> r.value.text != "" && r.value.conf > OcrAlternateMinConfidence && quality(r.value.text, r.value.conf)
  {
    BestIsEarliestMax(attempts, names, quality);
    var b := BestAfter(attempts, names, quality);
    if b != NoBest && b.conf > 0.0 {
      var k :| EarliestMaxAt(attempts, names, quality, b, k);
    }
  }

  /** `try_multiple_ocr_methods`, with its loop over the three configurations. */
  method TryMultipleOcrMethods(setup: OcrSetup, blob: seq<bv8>, quality: (string, real) -> bool) returns (r: Option<OcrResult>)
    ensures r == BestOcr(setup, blob, quality)
  {
    var attempts := Attempts(setup, blob);
    var names := MethodNames();
    var best := NoBest;
    var k := 0;
    while k < |OcrMethods|
      invariant 0 <= k <= |OcrMethods|
      invariant best == BestAfter(attempts[..k], names[..k], quality)
    {
      var m := OcrMethods[k];
      var a := ReadAttempt(setup.engine(blob, m.pre, Config(m.psm, setup.languages)));
      assert a == attempts[k];
      assert names[k] == m.name;
      assert BestAfter(attempts[..k + 1], names[..k + 1], quality)
          == Step(BestAfter(attempts[..k], names[..k], quality), a, m.name, quality) by {
        assert attempts[..k + 1][..k] == attempts[..k] && attempts[..k + 1][k] == a;
        assert names[..k + 1][..k] == names[..k] && names[..k + 1][k] == m.name;
      }
      if Acceptable(a, quality) && a.conf > best.conf {
        best := Best(a.text, a.conf, m.name);
      }
      k := k + 1;
    }
    assert attempts[..k] == attempts && names[..k] == names;
    r := Outcome(best);
  }

  // ---------------------------------------------------------------------------
  // OCR over the pictures of a slide
  // ---------------------------------------------------------------------------

  /** Pictures narrower or lower than 50 slide units are not read. */
  predicate LargeEnough(img: ImageInfo) {
    img.box.width >= MinOcrShapeSide && img.box.height >= MinOcrShapeSide
  }

  /** `check_images_with_multiple_ocr_methods`: the results of the pictures that
      were read and gave a result, in picture order. */
  function OcrResults(setup: OcrSetup, images: seq<ImageInfo>, quality: (string, real) -> bool): seq<OcrResult> {
    if images == [] then []
    else
      var img := images[|images| - 1];
      var r := if LargeEnough(img) then BestOcr(setup, img.image.blob, quality) else None;
      OcrResults(setup, images[..|images| - 1], quality) + (if r.Some? then [r.value] else [])
  }

  method OcrImages(setup: OcrSetup, images: seq<ImageInfo>, quality: (string, real) -> bool) returns (results: seq<OcrResult>)
    ensures results == OcrResults(setup, images, quality)
  {
    results := [];
    var i := 0;
    while i < |images|
      invariant 0 <= i <= |images|
      invariant results == OcrResults(setup, images[..i], quality)
    {
      var img := images[i];
      if LargeEnough(img) {
        var best := TryMultipleOcrMethods(setup, img.image.blob, quality);
        if best.Some? {
          results := results + [best.value];
        }
      }
      assert images[..i + 1][..i] == images[..i];
      i := i + 1;
    }
    assert images[..i] == images;
  }

  /** There is at most one result per picture read, and each comes from a best-of
      selection over a picture large enough to be read. */
  lemma {:induction false} OcrResultsFromImages(setup: OcrSetup, images: seq<ImageInfo>, quality: (string, real) -> bool)
    ensures |OcrResults(setup, images, quality)| <= |images|
    ensures forall r :: r in OcrResults(setup, images, quality) ==>
      exists i :: 0 <= i < |images| && LargeEnough(images[i]) && BestOcr(setup, images[i].image.blob, quality) == Some(r)
  {
    if images != [] {
      var n := |images| - 1;
      OcrResultsFromImages(setup, images[..n], quality);
      forall r | r in OcrResults(setup, images, quality)
        ensures exists i :: 0 <= i < |images| && LargeEnough(images[i]) && BestOcr(setup, images[i].image.blob, quality) == Some(r)
      {
        if r in OcrResults(setup, images[..n], quality) {
          var i :| 0 <= i < n && LargeEnough(images[..n][i]) && BestOcr(setup, images[..n][i].image.blob, quality) == Some(r);
          assert images[..n][i] == images[i];
        } else {
          assert LargeEnough(images[n]) && BestOcr(setup, images[n].image.blob, quality) == Some(r);
        }
      }
    }
  }

  // ---------------------------------------------------------------------------
  // Merging the per-picture results
  // ---------------------------------------------------------------------------

  /** The `ocr` entry of the verdict. */
  datatype OcrSummary = OcrSummary(text: string, confidence: real, methodName: string, imagesWithText: nat)

  const ResultSeparator: string := "\n\n---\n"

  /** A result the merge keeps: meaningful text and a confidence above 35. The
      test for meaningful text is a parameter here; the analyzer's is
      `OcrText.Meaningful`, which `ImagesVerdict` supplies. */
  predicate Kept(r: OcrResult, meaningful: string -> bool) {
    meaningful(r.text) && r.conf > OcrAlternateMinConfidence
  }

  function KeptOf(results: seq<OcrResult>, meaningful: string -> bool): (r: seq<OcrResult>)
    ensures |r| <= |results|
    ensures forall k :: 0 <= k < |r| ==> Kept(r[k], meaningful)
    ensures forall k :: 0 <= k < |results| && Kept(results[k], meaningful) ==> results[k] in r
  {
    if results == [] then []
    else
      var last := results[|results| - 1];
      KeptOf(results[..|results| - 1], meaningful) + (if Kept(last, meaningful) then [last] else [])
  }

  function Texts(results: seq<OcrResult>): (r: seq<string>)
    ensures |r| == |results| && forall k :: 0 <= k < |r| ==> r[k] == results[k].text
  {
    seq(|results|, k requires 0 <= k < |results| => results[k].text)
  }

  function Confidences(results: seq<OcrResult>): (r: seq<real>)
    ensures |r| == |results| && forall k :: 0 <= k < |r| ==> r[k] == results[k].conf
  {
    seq(|results|, k requires 0 <= k < |results| => results[k].conf)
  }

  /** The method of the first result with the strictly highest confidence, or the
      empty string when no result has a positive confidence. */
  datatype Leader = Leader(conf: real, methodName: string)

  function BestMethod(results: seq<OcrResult>): Leader {
    if results == [] then Leader(0.0, "")
    else
      var b := BestMethod(results[..|results| - 1]);
      var r := results[|results| - 1];
      if r.conf > b.conf then Leader(r.conf, r.methodName) else b
  }

  /** The running values of the merge loop: the joined text, the confidence sum,
      the count and the leading method. */
  datatype Tally = Tally(combined: string, total: real, count: nat, best: Leader)

  function TallyOf(kept: seq<OcrResult>): Tally {
    Tally(Join(Texts(kept), ResultSeparator), Sum(Confidences(kept)), |kept|, BestMethod(kept))
  }

  /** The merge of analyzer.py:557-575 as one value. */
  function Merge(results: seq<OcrResult>, meaningful: string -> bool): Option<OcrSummary> {
    var kept := KeptOf(results, meaningful);
    if kept == [] then None
    else
      var t := TallyOf(kept);
      Some(OcrSummary(t.combined, t.total / t.count as real,
                      if t.best.methodName == "" then "multiple" else t.best.methodName, t.count))
  }

  /** The merge loop: counts, sums, joins and tracks the best method as it goes. */
  method MergeResults(results: seq<OcrResult>, meaningful: string -> bool) returns (summary: Option<OcrSummary>)
    requires forall r :: meaningful(r) ==> r != ""
    ensures summary == Merge(results, meaningful)
  {
    var combined := "";
    var total := 0.0;
    var count := 0;
    var best := Leader(0.0, "");
    ghost var kept: seq<OcrResult> := [];
    var i := 0;
    while i < |results|
      invariant 0 <= i <= |results|
      invariant kept == KeptOf(results[..i], meaningful)
      invariant Tally(combined, total, count, best) == TallyOf(kept)
    {
      var r := results[i];
      if Kept(r, meaningful) {
        TallyStep(kept, r);
        count := count + 1;
        total := total + r.conf;
        if combined != "" {
          combined := combined + ResultSeparator;
        }
        combined := combined + r.text;
        if r.conf > best.conf {
          best := Leader(r.conf, r.methodName);
        }
        kept := kept + [r];
      }
      KeptOfStep(results, i, meaningful);
      i := i + 1;
    }
    assert results[..i] == results;
    JoinEmptyIff(Texts(kept), ResultSeparator);
    if combined == "" {
      return None;
    }
    var avg := total / count as real;
    summary := Some(OcrSummary(combined, avg, if best.methodName == "" then "multiple" else best.methodName, count));
  }

  /** Keeping distributes over concatenation, so the kept results appear in the
      order they were met. */
  lemma {:induction false} KeptOfAppend(a: seq<OcrResult>, b: seq<OcrResult>, meaningful: string -> bool)
    ensures KeptOf(a + b, meaningful) == KeptOf(a, meaningful) + KeptOf(b, meaningful)
    decreases |b|
  {
    if b != [] {
      var b0, last := b[..|b| - 1], b[|b| - 1];
      assert (a + b)[..|a + b| - 1] == a + b0;
      KeptOfAppend(a, b0, meaningful);
    } else {
      assert a + b == a;
    }
  }

  lemma {:induction false} KeptOfStep(results: seq<OcrResult>, i: nat, meaningful: string -> bool)
    requires i < |results|
    ensures KeptOf(results[..i + 1], meaningful)
      == KeptOf(results[..i], meaningful) + (if Kept(results[i], meaningful) then [results[i]] else [])
  {
    assert results[..i + 1][..i] == results[..i];
  }

  /** One kept result updates the running values as the loop body does. */
  lemma {:induction false} TallyStep(kept: seq<OcrResult>, r: OcrResult)
    requires forall k :: 0 <= k < |kept| ==> kept[k].text != ""
    ensures var t := TallyOf(kept);
      TallyOf(kept + [r]) == Tally(
        (if t.combined != "" then t.combined + ResultSeparator else t.combined) + r.text,
        t.total + r.conf,
        t.count + 1,
        if r.conf > t.best.conf then Leader(r.conf, r.methodName) else t.best)
  {
    JoinTexts(kept, r);
    JoinEmptyIff(Texts(kept), ResultSeparator);
    assert Confidences(kept + [r])[..|kept|] == Confidences(kept);
    assert (kept + [r])[..|kept|] == kept;
  }

  lemma {:induction false} JoinTexts(kept: seq<OcrResult>, r: OcrResult)
    ensures Texts(kept + [r]) == Texts(kept) + [r.text]
    ensures kept != [] ==> Join(Texts(kept + [r]), ResultSeparator) == Join(Texts(kept), ResultSeparator) + ResultSeparator + r.text
    ensures kept == [] ==> Join(Texts(kept + [r]), ResultSeparator) == r.text
  {
    assert Texts(kept + [r]) == Texts(kept) + [r.text];
    if kept != [] {
      JoinAppend(Texts(kept), r.text, ResultSeparator);
    } else {
      assert Texts(kept + [r]) == [r.text];
    }
  }

  /** Joining non-empty texts gives the empty string only when there are none. */
  lemma {:induction false} JoinEmptyIff(parts: seq<string>, sep: string)
    requires forall k :: 0 <= k < |parts| ==> parts[k] != ""
    ensures Join(parts, sep) == "" <==> parts == []
  {
    if |parts| > 1 {
      assert |Join(parts, sep)| >= |parts[0]|;
    }
  }

  /** Meaningful text is never empty, as the merge loop relies on. */
  lemma {:induction false} MeaningfulNonEmpty()
    ensures forall r :: Meaningful(r) ==> r != ""
  {
  }

  /** The summary's confidence is the mean of the kept results' confidences, so it
      lies above 35 like each of them. */
  lemma {:induction false} MergedConfidenceAbove(results: seq<OcrResult>, meaningful: string -> bool)
    ensures var m := Merge(results, meaningful);
      m.Some? ==> m.value.confidence > OcrAlternateMinConfidence && m.value.imagesWithText > 0
  {
    var kept := KeptOf(results, meaningful);
    if kept != [] {
      var m := Merge(results, meaningful);
      assert m.value.confidence == Sum(Confidences(kept)) / |kept| as real;
      SumAbove(Confidences(kept), OcrAlternateMinConfidence);
      MeanAbove(Sum(Confidences(kept)), |kept|, OcrAlternateMinConfidence);
    }
  }

  lemma {:induction false} MeanAbove(sum: real, n: nat, lo: real)
    requires n > 0 && sum > lo * n as real
    ensures sum / n as real > lo
  {
    var q := sum / n as real;
    assert q * n as real == sum;
    assert (q - lo) * n as real > 0.0;
  }

  lemma {:induction false} SumAbove(xs: seq<real>, lo: real)
    requires forall k :: 0 <= k < |xs| ==> xs[k] > lo
    ensures xs != [] ==> Sum(xs) > lo * |xs| as real
    ensures xs == [] ==> Sum(xs) == 0.0
  {
    if xs != [] {
      SumAbove(xs[..|xs| - 1], lo);
      assert xs[|xs| - 1] > lo;
      assert lo * |xs| as real == lo * (|xs| - 1) as real + lo;
    }
  }

  /** The method label is that of the first kept result with the highest
      confidence. Since every kept confidence exceeds 35, some result is always
      taken, and the "multiple" default appears only when that result names no
      configuration. */
  lemma {:induction false} BestMethodIsEarliestMax(results: seq<OcrResult>)
    requires forall k :: 0 <= k < |results| ==> results[k].conf > 0.0
    ensures results != [] ==> exists k :: LeaderAt(results, BestMethod(results), k)
  {
    if |results| > 1 {
      var n := |results| - 1;
      var p := results[..n];
      BestMethodIsEarliestMax(p);
      assert forall j :: 0 <= j < n ==> results[j] == p[j];
      var b := BestMethod(p);
      var k :| LeaderAt(p, b, k);
      if results[n].conf > b.conf {
        assert LeaderAt(results, BestMethod(results), n);
      } else {
        assert LeaderAt(results, BestMethod(results), k);
      }
    } else if |results| == 1 {
      assert results[..0] == [];
      assert LeaderAt(results, BestMethod(results), 0);
    }
  }

  /** Result `k` is the first with the highest confidence, and `b` records it. */
  ghost predicate LeaderAt(results: seq<OcrResult>, b: Leader, k: int) {
    && 0 <= k < |results| && b.methodName == results[k].methodName && b.conf == results[k].conf
    && (forall j :: 0 <= j < |results| ==> results[j].conf <= results[k].conf)
    && (forall j :: 0 <= j < k ==> results[j].conf < results[k].conf)
  }

  // ---------------------------------------------------------------------------
  // The verdict
  // ---------------------------------------------------------------------------

  /** `(has_text_on_images, image_count, ocr_info)`. */
  datatype ImageVerdict = ImageVerdict(textOnImages: bool, imageCount: nat, ocr: Option<OcrSummary>)

  /** The pictures sent to OCR: the first `ocr_max_images_per_slide`. */
  function ForOcr(images: seq<ImageInfo>): (r: seq<ImageInfo>)
    ensures |r| <= OcrMaxImagesPerSlide && |r| <= |images| && r == images[..|r|]
  {
    if |images| <= OcrMaxImagesPerSlide then images else images[..OcrMaxImagesPerSlide]
  }

  function ImagesVerdict(setup: OcrSetup, slide: Slide): ImageVerdict {
    var images := ImagesOf(slide.shapes);
    var texts := TextsOf(slide.shapes);
    if images == [] then ImageVerdict(false, 0, None)
    else
      var overlap := AnyOverlap(texts, images);
      if !setup.enabled then ImageVerdict(overlap, |images|, None)
      else if !overlap then ImageVerdict(false, |images|, None)
      else if !setup.available then ImageVerdict(true, |images|, None)
      else ImageVerdict(true, |images|, Merge(OcrResults(setup, ForOcr(images), Quality), Meaningful))
  }

  /** `check_images_enhanced`. */
  method CheckImagesEnhanced(setup: OcrSetup, slide: Slide) returns (v: ImageVerdict)
    ensures v == ImagesVerdict(setup, slide)
  {
    var images := ImagesOf(slide.shapes);
    var texts := TextsOf(slide.shapes);
    if images == [] {
      return ImageVerdict(false, 0, None);
    }
    var overlap := FindOverlap(texts, images);
    if !setup.enabled {
      return ImageVerdict(overlap, |images|, None);
    }
    if !overlap {
      return ImageVerdict(false, |images|, None);
    }
    if !setup.available {
      return ImageVerdict(true, |images|, None);
    }
    var results := OcrImages(setup, ForOcr(images), Quality);
    MeaningfulNonEmpty();
    var summary := MergeResults(results, Meaningful);
    return ImageVerdict(true, |images|, summary);
  }

  /** The decision by case: no pictures gives `(False, 0, None)`; the picture count
      is always the number of pictures found; with OCR off the verdict is the
      overlap flag; with OCR on it is the overlap flag too, whatever OCR reads, and
      OCR text is reported only when it ran. */
  lemma {:induction false} VerdictCases(setup: OcrSetup, slide: Slide)
    ensures var v := ImagesVerdict(setup, slide);
      var images := ImagesOf(slide.shapes);
      var overlap := AnyOverlap(TextsOf(slide.shapes), images);
      && (images == [] ==> v == ImageVerdict(false, 0, None))
      && v.imageCount == |images|
      && (images != [] ==> v.textOnImages == overlap)
      && (v.ocr.Some? ==> setup.enabled && setup.available && overlap)
  {
  }

  /** At most six pictures are read, and only the first ones. */
  lemma {:induction false} AtMostSixRead(setup: OcrSetup, slide: Slide)
    ensures var images := ImagesOf(slide.shapes);
      |ForOcr(images)| <= 6 && ForOcr(images) == images[..|ForOcr(images)|]
      && |OcrResults(setup, ForOcr(images), Quality)| <= 6
  {
    OcrResultsFromImages(setup, ForOcr(ImagesOf(slide.shapes)), Quality);
  }
}
