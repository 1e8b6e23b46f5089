# Presentation compliance analyzer — a Dafny model

This project models `PresentationAnalyzer` from `utils/analyzer.py`. The
analyzer checks a PowerPoint deck against a design guide before the deck goes
to designers. For each selected slide it checks four things:

- that the background is white;
- that the slide holds at most 1000 characters of text;
- that the slide has no animation;
- that no text lies over a picture. Where the OCR engine is available, the
  pictures are read with it.

It collects the fonts it meets and marks every row once more than two
non-system fonts are in use. It then scores the deck on seven weighted
criteria, with a readiness tier, a "can send to designers" flag and a list of
recommendations.

The model has nine modules:

| module | what it holds |
|---|---|
| `Slides` | the abstract deck: shapes with boxes, fills, text frames and pictures; slide backgrounds; markup strings. It also holds the analyzer's fixed settings and the OCR engine as an oracle. |
| `Strings` | Python's `strip`, `re.sub(r"\s+", " ", …)`, `isdigit`/`int`, `lower`, `split`, `join`, `in`, and decimal formatting |
| `RangeSelector` | `parse_slides_range` |
| `Inspectors` | the background, text, animation, transition and overlap checks |
| `OcrText` | `clean_ocr_text`, `quick_text_quality_check`, `is_meaningful_text` |
| `TextOnImage` | the tree walk of `check_images_enhanced`, the overlap pre-filter, the per-image best-of-three OCR selection and the merge of OCR results |
| `Rows` | the row of `analyze_slide` and its violation tags, the deferred font pass, and the counters taken over rows |
| `Scorer` | `calculate_conformance_percentage` |
| `Analyzer` | the `PresentationAnalyzer` class |

**The `Analyzer` module.** The `PresentationAnalyzer` class keeps three fields
that the source updates in place: `results`, `usedFonts` and `selectedRange`.
Its methods are proved against a pure specification, `Analysis`. That function
gives what one call returns and the state the call leaves behind.

**The loops.** These loops of the source are Dafny methods with loop
invariants, each proved equal to a function defined by recursion:

- the loops that build the selection and sort it;
- the background scans, the text counter and the marker searches;
- the overlap pre-filter;
- the OCR token loop, the best-of selection and the per-image loop;
- the merge;
- the system-font test, the font collection and the font pass;
- the statistics loop and the compliance count of the scorer.

Other iteration is modelled only by recursive functions:

- the shape walk with its group recursion (`ImagesOf`, `TextsOf`);
- the generator counts (`Count`, `RussianCount`, `LetterCount`);
- `re.findall`, `split`, `join`, `strip` and the whitespace collapse.

**Bare slide numbers.** A bare number outside 1..total, such as "10" on a
six-slide deck, gives an empty selection (`utils/analyzer.py:290-292`,
`RangeSelector.BareNumber`). `analyze_selected_slides` then returns empty
results (`utils/analyzer.py:108-109`, `Analyzer.AnalysisStops`).

**Behaviour kept as written:**

- `stats["fonts_count"]` counts every collected font, system fonts included.
  Rows, by contrast, are judged on the filtered count.
- A sub-range may start at 0. Slide 0 is then `prs.slides[-1]`, the last slide.
- The quality gate counts only Cyrillic letters.
- The 50-unit size limit for OCR applies to the shape's size in slide units.
- The guard `"ШРИФТЫ" not in …` never matches a tag. A second font pass over
  the same rows therefore appends the font tag again.
- `results` and `used_fonts` are never reset, so they accumulate over calls.
- The slide record keeps every branch the code guards against. Two of them
  never arise from python-pptx:
  - Its background object is always truthy, so `NoBackground` does not occur.
  - A slide object has no size, so `width` and `height` are always `None`.
    Check 2 then uses the 10 × 7.5 inch default (9144000 × 6858000 units).
- A slide that inherits its background reads `background.fill` as a fresh
  no-fill, which is `BackgroundFill(Fill(Some(5), NoRgb))`. Check 1 then fails
  the slide (`Inspectors.OtherFillTypeFails`).

## Model

| member | source | states |
|---|---|---|
| `Analyzer.PresentationAnalyzer.constructor` | utils/analyzer.py:79-96 | a new analyzer holds no rows and no fonts, and its range is "all" |
| `Analyzer.PresentationAnalyzer.AnalyzeSelectedSlides` | utils/analyzer.py:101-155 | the rows, the statistics and the new `results`, `used_fonts` and recorded range are exactly those of `Analysis` from the old state |
| `Analyzer.PresentationAnalyzer.AnalyzeDeck` | utils/analyzer.py:111-151 | the statistics exist exactly when every selected number has a slide. If one is missing, nothing changes. Otherwise `results` is the old rows plus one row per selected slide, after the font pass; `used_fonts` gains the slides' fonts; `stats` counts this call's rows, with `fonts_count` equal to the number of collected fonts |
| `Analyzer.PresentationAnalyzer.AnalyzeEach` | utils/analyzer.py:130-146 | the loop succeeds exactly when every number designates a slide. It appends the selected slides' rows in order, adds their fonts and tallies their counters. A failed lookup changes nothing |
| `Analyzer.PresentationAnalyzer.AnalyzeNumber` | utils/analyzer.py:130-146 | one pass extends the rows, the fonts and the counters of the earlier passes by one slide |
| `Analyzer.PresentationAnalyzer.AppendRow` | utils/analyzer.py:132-146 | the slide's row is appended, its fonts are collected, and the counters then agree with one more row |
| `Analyzer.PresentationAnalyzer.ParseSlidesRange` | utils/analyzer.py:283-322 | returns the selection of `SelectSlides`; the recorded range becomes "all" when the parser falls back to the whole deck, and is otherwise left as it was |
| `Analyzer.PresentationAnalyzer.AnalyzeSlide` | utils/analyzer.py:327-379 | the row equals `SlideRow` of the slide, and the slide's fonts are added to `used_fonts` |
| `Analyzer.PresentationAnalyzer.CollectFonts` | utils/analyzer.py:710-720 | `used_fonts` gains exactly the stripped, non-blank run fonts of the slide's text frames |
| `Analyzer.PresentationAnalyzer.AnalyzeFonts` | utils/analyzer.py:722-744 | every held row becomes `PatchRow` of itself, using the number of collected fonts that are not system fonts |
| `Analyzer.IsSystem` | utils/analyzer.py:730-733 | a font is a system font exactly when its lower-cased name contains one of the fourteen listed names |
| `Analyzer.OcrFields` | utils/analyzer.py:364-368 | with OCR data, the row takes its text cut to 5000 characters, its confidence, method and picture count; without it, "", 0, "" and 0 |
| `Analyzer.TallyRow` | utils/analyzer.py:135-146 | counters that agree with the earlier rows agree with one more row afterwards, and the settings fields are untouched |
| `Analyzer.CountersStep` | utils/analyzer.py:135-146 | one more row adds exactly its own contribution to each counter |
| `Analyzer.TalliedStats` | utils/analyzer.py:111-149 | counters that agree with the rows, together with the call's settings, are exactly the `stats` dict of the specification |
| `Analyzer.SlideNumbers` | utils/analyzer.py:131 | numbers 1..total designate slide `num - 1`; number 0 designates the last slide; the lookup fails only for 0 on an empty deck |
| `Analyzer.OnlyFirstCanFail` | utils/analyzer.py:130-133 | an increasing selection within 0..total can fail a lookup only at its first and only number 0 of an empty deck, so no row was appended before the failure |
| `Analyzer.RowsOfEach` | utils/analyzer.py:130-133 | the new rows are one per selected number, in selection order |
| `Analyzer.AnalysisOfDeck` | utils/analyzer.py:111-151 | when every selected number has a slide, the outcome is the patched old-plus-new rows with the statistics of the new rows |
| `Analyzer.AnalysisStops` | utils/analyzer.py:107-155 | an empty selection, or a failed lookup, returns nothing and leaves rows and fonts as they were |
| `Analyzer.AnalysisShape` | utils/analyzer.py:101-155 | see below the table |
| `Analyzer.AnalysisScorable` | utils/analyzer.py:101-155 | whatever a call returns, scoring it gives a percentage in [0, 100] that is sendable exactly from 57 |
| `RangeSelector.ParseSlides` | utils/analyzer.py:283-322 | the numbers and the fallback flag are those of `SelectSlides` |
| `RangeSelector.CollectRequested` | utils/analyzer.py:294-311 | the list built before sorting is `Requested`, for both the comma form and the single-dash form |
| `RangeSelector.SortedUnique` | utils/analyzer.py:313 | for requested numbers within 0..total, `sorted(set(…))` holds exactly the requested numbers, strictly ascending |
| `RangeSelector.SortedBelow` | utils/analyzer.py:313 | the result holds exactly the members of the input within bounds, strictly ascending |
| `RangeSelector.AllSlidesMembers` | utils/analyzer.py:287 | the whole deck is every slide number from 1 to total, each once, in ascending order |
| `RangeSelector.Interval` | utils/analyzer.py:302 | `range(a, b + 1)` holds exactly the integers from a to b |
| `RangeSelector.AllSelectsWholeDeck` | utils/analyzer.py:286-287 | "", "all" or "ALL" select every slide, with no fallback |
| `RangeSelector.BareNumber` | utils/analyzer.py:289-292 | a bare number n selects `[n]` when `1 <= n <= total`, otherwise nothing, with no fallback |
| `RangeSelector.OtherForms` | utils/analyzer.py:294-316 | see below the table |
| `RangeSelector.RequestedBounded` | utils/analyzer.py:294-311 | every requested number lies in 0..total |
| `RangeSelector.RequestedSelected` | utils/analyzer.py:294-313 | every requested number within the deck is selected |
| `RangeSelector.ZeroStartIncluded` | utils/analyzer.py:307-311 | a range "0-m" selects slide 0, because the start is not bounds-checked |
| `RangeSelector.SelectionBounded` | utils/analyzer.py:286-322 | every selection is strictly increasing, with members in 0..total |
| `RangeSelector.IncreasingUnique` | utils/analyzer.py:313 | two strictly increasing lists with the same members are equal, so the sorted set is unique |
| `Inspectors.CheckBackground` | utils/analyzer.py:391-439 | the verdict is `BackgroundOk`: an unreadable background fails; otherwise a slide fill, when present, must pass the fill check, no shape may cover over 70% of the slide with a solid non-white fill, and every colour token in the markup must be an allowed white |
| `Inspectors.UnreadableBackgroundFails` | utils/analyzer.py:391-439 | an unreadable background fails the slide whatever the other checks say; the guard for a falsy background, kept from the code, leaves the verdict to the shape and colour checks |
| `Inspectors.OtherFillTypeFails` | utils/analyzer.py:393-404 | a background whose fill type is neither solid (1) nor 0, such as no fill (5), fails the slide |
| `Inspectors.WhiteSlidePasses` | utils/analyzer.py:391-437 | a solid white slide with no solid non-white shape and only `#ffffff` tokens passes |
| `Inspectors.HexTokens` | utils/analyzer.py:431 | every token found is `#` and six more characters |
| `Inspectors.HexTokensWellFormed` | utils/analyzer.py:431 | every token found is a match of `#[0-9a-f]{6}` somewhere in the markup |
| `Inspectors.HexTokensComplete` | utils/analyzer.py:431 | every occurrence of `#` and six lower-case hex digits is among the tokens found, so `findall` misses none |
| `Inspectors.ColourCheckIff` | utils/analyzer.py:429-435 | check 3 passes exactly when every `#xxxxxx` occurrence in the lower-cased markup is `#ffffff` |
| `Inspectors.ForeignColourFails` | utils/analyzer.py:429-435 | a non-white `#xxxxxx` colour anywhere in the markup fails the slide |
| `Inspectors.TransparentWhiteNeverMatches` | utils/analyzer.py:429-435 | the colour check passes exactly when every token is `#ffffff`; the allowed `#ffffff00` is never matched |
| `Inspectors.CheckText` | utils/analyzer.py:441-451 | the count is the sum over text frames of the collapsed, stripped text length, counting only stripped texts longer than one character; overload holds exactly when the count exceeds 1000 |
| `Inspectors.TextCountNormalized` | utils/analyzer.py:445-448 | a frame's count is the length of its collapsed-and-stripped text when that is over one character, else 0 |
| `Inspectors.WideningRunKeepsCount` | utils/analyzer.py:445-448 | lengthening a whitespace run in a text never changes its count |
| `Inspectors.WideningRunKeepsSlideCount` | utils/analyzer.py:441-449 | lengthening a whitespace run in one shape's text never changes the slide's count |
| `Inspectors.Search` | utils/analyzer.py:462-464 | `re.search` succeeds exactly when the pattern matches at some position |
| `Inspectors.SearchLiteral` | utils/analyzer.py:457-463 | a pattern of literal characters is found exactly when it is a substring |
| `Inspectors.CheckAnimations` | utils/analyzer.py:453-467 | the slide is animated exactly when one of the thirteen patterns occurs in its lower-cased markup |
| `Inspectors.TimingContainerIsAnimation` | utils/analyzer.py:457 | any markup containing `p:ctn` counts as animated |
| `Inspectors.TransitionMarkerIsSubstring` | utils/analyzer.py:385 | the transition test reduces to "transition" occurring in the lower-cased markup |
| `Inspectors.CheckPresentationTransitions` | utils/analyzer.py:381-389 | the deck has transitions exactly when some slide's markup carries the marker |
| `Inspectors.OverlapSymmetric` | utils/analyzer.py:583-587 | overlap is symmetric |
| `Inspectors.SharedEdgeNoOverlap` | utils/analyzer.py:585-586 | rectangles that only share an edge do not overlap |
| `Inspectors.OverlapIffCommonPoint` | utils/analyzer.py:583-587 | non-degenerate rectangles overlap exactly when they have a common interior point |
| `OcrText.FoldCharsFolded` | utils/analyzer.py:681-683 | after the replacement chain none of ё Ё — – « » „ “ ” remains |
| `OcrText.FoldCharIdempotent` | utils/analyzer.py:681-683 | folding twice is folding once, and folding never turns whitespace into non-whitespace or back |
| `OcrText.Clean` | utils/analyzer.py:677-685 | cleaning never lengthens the text |
| `OcrText.CleanNormalForm` | utils/analyzer.py:677-685 | the cleaned text has no whitespace at either end, every whitespace is a lone ' ', and none of ё Ё — – « » „ “ ” remains |
| `OcrText.CleanIdempotent` | utils/analyzer.py:677-685 | cleaning a cleaned text changes nothing |
| `OcrText.RussianCount` | utils/analyzer.py:690 | the Cyrillic count is at most the length |
| `OcrText.LetterCount` | utils/analyzer.py:691 | the letter count is at most the length |
| `OcrText.RussianAtMostLetters` | utils/analyzer.py:690-691 | every counted Cyrillic character is a letter |
| `OcrText.QualityGate` | utils/analyzer.py:687-699 | the gate accepts exactly when all four hold: the text has at least 10 characters; it has a letter; the Cyrillic share is at least 0.35; and the share is at least 0.6 or the confidence is at least 50 |
| `OcrText.LetterShareGate` | utils/analyzer.py:692-698 | the ratio tests are the same as the cross-multiplied comparisons |
| `OcrText.RatioBelow` | utils/analyzer.py:694-698 | `russian / letters < k` exactly when `russian < k * letters` |
| `OcrText.NoRussianRejected` | utils/analyzer.py:690-697 | a text with no Cyrillic letter, such as all-Latin text, is rejected whatever its confidence |
| `OcrText.AllRussianAccepted` | utils/analyzer.py:688-699 | a text of at least 10 characters with at least one letter, all of whose letters are Cyrillic, is accepted whatever its confidence |
| `OcrText.MeaningfulOfClean` | utils/analyzer.py:701-705 | a text is meaningful exactly when its cleaned form is, and a meaningful text has at least 20 characters |
| `TextOnImage.ImagesOfAppend` | utils/analyzer.py:477-516 | the pictures of consecutive shapes are collected in order |
| `TextOnImage.TextsOfAppend` | utils/analyzer.py:477-516 | the texts of consecutive shapes are collected in order |
| `TextOnImage.GroupIsTransparent` | utils/analyzer.py:479-482 | a group contributes exactly its children, in place |
| `TextOnImage.TextsWellFormed` | utils/analyzer.py:500-511 | every collected text is stripped and non-empty, and its `char_count` is its length |
| `TextOnImage.FindOverlap` | utils/analyzer.py:522-531 | the loop finds an overlap exactly when some text of at least 3 characters overlaps some picture |
| `TextOnImage.ShortTextsIgnored` | utils/analyzer.py:524-525 | texts under 3 characters never trigger the pre-filter |
| `TextOnImage.Tokens` | utils/analyzer.py:626 | one token per word reported by the engine |
| `TextOnImage.PartsWellFormed` | utils/analyzer.py:626-628 | the kept tokens are stripped and longer than one character |
| `TextOnImage.ConfsAtMostParts` | utils/analyzer.py:624-630 | there are never more confidences than kept tokens |
| `TextOnImage.ReadWords` | utils/analyzer.py:624-630 | the token loop keeps the tokens longer than one character, and the confidences of those not reported as the text "-1", with their sum |
| `TextOnImage.ReadAttempt` | utils/analyzer.py:617-636 | one attempt yields nothing, or the cleaned joined tokens with their mean confidence (0 when there is none) |
| `TextOnImage.Attempts` | utils/analyzer.py:610-622 | one attempt per method: PSM6, PSM3, PSM11 |
| `TextOnImage.BestIsEarliestMax` | utils/analyzer.py:616-639 | either no acceptable attempt had a positive confidence, or the choice is acceptable, no acceptable attempt beats it, and every earlier acceptable one is strictly lower, so ties keep the earlier method |
| `TextOnImage.OutcomeAccepted` | utils/analyzer.py:638-646 | a returned result is non-empty, passes the quality gate and has confidence above 35 |
| `TextOnImage.TryMultipleOcrMethods` | utils/analyzer.py:607-646 | the selection loop returns `BestOcr` |
| `TextOnImage.OcrImages` | utils/analyzer.py:591-605 | the per-image loop returns `OcrResults`, skipping pictures under 50 units wide or high |
| `TextOnImage.OcrResultsFromImages` | utils/analyzer.py:591-605 | at most one result per picture, each the best OCR of a large-enough picture |
| `TextOnImage.KeptOf` | utils/analyzer.py:557-559 | a result is kept exactly when it is meaningful with confidence above 35: every kept result qualifies and every qualifying result is kept |
| `TextOnImage.KeptOfAppend` | utils/analyzer.py:557-559 | keeping distributes over concatenation, so the kept results stay in encounter order |
| `TextOnImage.MergeResults` | utils/analyzer.py:551-575 | the merge loop returns `Merge`: the kept texts are joined with "\n\n---\n" in encounter order, their confidences averaged and counted, and the method is taken from the best, or "multiple" |
| `TextOnImage.MergedConfidenceAbove` | utils/analyzer.py:557-575 | a merged result has an average confidence above 35 and at least one picture |
| `TextOnImage.BestMethodIsEarliestMax` | utils/analyzer.py:564-566 | for results of positive confidence, the method label is that of a result with the highest confidence, the earliest one on ties |
| `TextOnImage.ForOcr` | utils/analyzer.py:547 | at most 6 pictures, taken from the front |
| `TextOnImage.CheckImagesEnhanced` | utils/analyzer.py:472-581 | the verdict is `ImagesVerdict` |
| `TextOnImage.VerdictCases` | utils/analyzer.py:518-578 | see below the table |
| `TextOnImage.AtMostSixRead` | utils/analyzer.py:547-549 | at most 6 pictures are sent to OCR, and at most 6 results come back |
| `Rows.Truncate` | utils/analyzer.py:365 | the result is the first n characters of the text, or the whole text when it has at most n |
| `Rows.SlideTagsOrdered` | utils/analyzer.py:347-372 | the tags are valid tags in strictly increasing check order (background, text, animations, text on images), all ranked before the font tag |
| `Rows.SlideTagsHold` | utils/analyzer.py:347-372 | a string is a tag of the slide exactly when it is the tag of a failed check |
| `Rows.SlideTagsExact` | utils/analyzer.py:347-372 | each tag is present exactly when its check fails, and there is no other tag |
| `Rows.SlideRowWellFormed` | utils/analyzer.py:327-379 | see below the table |
| `Rows.StatusOkIff` | utils/analyzer.py:376-377 | the status is "OK" exactly when there is no violation |
| `Rows.ShapesFontsTrimmed` | utils/analyzer.py:712-718 | every collected font name is stripped and non-empty |
| `Rows.FilteredMonotone` | utils/analyzer.py:724-736 | no system font counts, and collecting more fonts never lowers the number of fonts that count |
| `Rows.PatchRowsInvariant` | utils/analyzer.py:737-742 | the font pass keeps every row in place and status-consistent; with more than two fonts no row keeps Шрифты ✓, and otherwise nothing changes |
| `Rows.GuardNeverMatches` | utils/analyzer.py:740 | no tag equals "ШРИФТЫ", so the guard never holds |
| `Rows.PatchRowEffect` | utils/analyzer.py:737-742 | with more than two fonts a row gets Шрифты ✗ and a ШРИФТЫ(k) tag and stays status-consistent; otherwise it is unchanged |
| `Rows.PatchRowOrdered` | utils/analyzer.py:737-742 | the font tag goes last, after the slide's own tags |
| `Rows.PatchTwiceDuplicates` | utils/analyzer.py:737-742 | a second pass with more than two fonts appends the font tag a second time |
| `Rows.Count` | utils/analyzer.py:188 | a count of rows never exceeds the number of rows |
| `Rows.CountZeroIff` | utils/analyzer.py:188 | a count is zero exactly when no row qualifies |
| `Rows.CountsIgnoreFontPass` | utils/analyzer.py:188-213 | the font pass changes no issue count; with more than two fonts no slide is compliant any more |
| `Scorer.Round1Close` | utils/analyzer.py:218 | rounding to one decimal moves a value by at most 0.05 |
| `Scorer.Round1Monotone` | utils/analyzer.py:218 | rounding is monotone |
| `Scorer.Round1Tenths` | utils/analyzer.py:218 | a value already in tenths is unchanged by rounding |
| `Scorer.ProportionalProperties` | utils/analyzer.py:175-198 | see below the table |
| `Scorer.ComplianceProperties` | utils/analyzer.py:204-215 | the compliance score lies in [0, 20] and never decreases as compliant slides increase |
| `Scorer.PercentageBounds` | utils/analyzer.py:172-218 | the possible total is 100, so the percentage is the rounded achieved score, in [0, 100] |
| `Scorer.PercentageMonotone` | utils/analyzer.py:174-218 | a deck that is no better on any criterion never scores higher |
| `Scorer.TierMonotone` | utils/analyzer.py:220-229 | a higher percentage never gives a worse tier |
| `Scorer.SendableInsideNeedsWork` | utils/analyzer.py:220-231 | a deck can be sendable yet "needs work" (58), and every tier from "satisfactory" up is sendable |
| `Scorer.NoRecommendationsIff` | utils/analyzer.py:233-247 | there is no recommendation exactly when the deck is sendable and no criterion has an issue |
| `Scorer.AdvicesOrdered` | utils/analyzer.py:233-247 | the advice comes in the fixed order: rework, background, fonts, text, text on images, animations, transitions |
| `Scorer.AdvicesHold` | utils/analyzer.py:233-247 | an advice is given exactly when its condition holds, quoting its count |
| `Scorer.AdvicesPresent` | utils/analyzer.py:233-247 | each criterion's advice is present exactly when its count is non-zero (fonts: above 2), and rework exactly below 57 |
| `Scorer.AdvicesQuoteCounts` | utils/analyzer.py:236-245 | no advice other than the seven, with their counts, is ever given |
| `Scorer.AdviceCount` | utils/analyzer.py:233-247 | the number of recommendations is the number of conditions that hold |
| `Scorer.ReworkFirst` | utils/analyzer.py:233-235 | the rework advice is given exactly below 57, and it then comes first |
| `Scorer.CountsOfPlausible` | utils/analyzer.py:162-213 | when the background and text-on-image counts of the statistics do not exceed the rows, the counts given to the scorer are plausible: no issue count exceeds the number of slides |
| `Scorer.ReportProperties` | utils/analyzer.py:160-278 | the percentage lies in [0, 100]; the deck is sendable exactly from 57; it is "excellent" exactly from 90 and "critically low" exactly below 40 |
| `Scorer.CleanDeckScoresFull` | utils/analyzer.py:174-247 | a deck with no issue, at most two fonts and no transition scores 100.0: excellent, sendable, with no recommendation |
| `Scorer.ThreeSlideExample` | utils/analyzer.py:176-189 | one background issue in three slides scores 10.0; one text issue scores 6.7 after rounding |
| `Scorer.CalculateConformance` | utils/analyzer.py:160-278 | the accumulating computation returns `Conformance` of the rows and statistics |
| `Strings.StripLeft` | utils/analyzer.py:446 | `lstrip` drops exactly a leading whitespace run and leaves a non-space first character |
| `Strings.StripRight` | utils/analyzer.py:446 | `rstrip` drops exactly a trailing whitespace run and leaves a non-space last character |
| `Strings.StripIsTrimmed` | utils/analyzer.py:446 | a stripped string has no whitespace at either end |
| `Strings.Collapse` | utils/analyzer.py:448 | collapsing never lengthens, keeps emptiness, and keeps whether the first and the last character are whitespace |
| `Strings.CollapseSingleSpaced` | utils/analyzer.py:684 | after collapsing, every whitespace is a lone ' ' |
| `Strings.CollapseOfSingleSpaced` | utils/analyzer.py:684 | collapsing a single-spaced string changes nothing |
| `Strings.CollapseStrip` | utils/analyzer.py:684 | collapsing and stripping commute |
| `Strings.CollapseWidenRun` | utils/analyzer.py:448 | lengthening a whitespace run does not change the collapsed string |
| `Strings.CollapseChars` | utils/analyzer.py:448 | collapsing introduces no character other than ' ' |
| `Strings.Contains` | utils/analyzer.py:296 | `needle in hay` holds exactly when the needle occurs at some position |
| `Strings.LowerNormalizes` | utils/analyzer.py:286 | `lower()` leaves no ASCII capital, changes no other character, and is idempotent |
| `Strings.NatToString` | utils/analyzer.py:352 | the decimal rendering is a digit string |
| `Strings.ParseNatToString` | utils/analyzer.py:290-291 | `int` of the rendering of n is n |
| `Strings.RemoveChar` | utils/analyzer.py:294 | the result has no blank, and every other character of the input survives |
| `Strings.Split` | utils/analyzer.py:297 | `split` gives at least one piece, and no piece contains the separator |
| `Strings.SplitJoin` | utils/analyzer.py:297 | joining the pieces with the separator gives the string back |
| `Strings.JoinAppend` | utils/analyzer.py:377 | joining one more part appends the separator and the part |

Rows whose states cell says "see below the table":

- `Analyzer.AnalysisShape`. A call that stops returns nothing and leaves the
  state as it was. Otherwise it returns all held rows and does four things:
  - it keeps the earlier rows first, with their slide numbers;
  - it appends one row per selected number, in order;
  - it counts only this call's rows in `stats`, so no count exceeds the rows
    returned;
  - it reports every collected font in `fonts_count`.
- `RangeSelector.OtherForms`. Any other form gives a strictly increasing
  selection within 0..total. The parser falls back to the whole deck exactly
  when nothing was requested. Otherwise the members are exactly those
  requested.
- `TextOnImage.VerdictCases`. No picture gives (false, 0, none). The picture
  count is always the number of pictures, and the verdict equals the overlap
  flag whenever there is a picture. OCR data appears only when OCR is enabled,
  the engine is available and there is an overlap.
- `Rows.SlideRowWellFormed`. Every row has `Статус` "OK" exactly when
  `Нарушения` is empty, and otherwise the tags joined by ", ". The tags are in
  check order, and each tag is present exactly when its check fails.
- `Scorer.ProportionalProperties`. A proportional score lies in
  [0, weight] when the issues do not exceed N. It is the whole weight when
  N = 0 or there is no issue. It never increases with the issues.

## Left out

- Tesseract discovery, `TESSDATA_PREFIX` and the language negotiation
  (utils/analyzer.py:21-75) are not modelled. Whether the engine is available,
  its language string and the engine itself are the fields of `OcrSetup`.
- `preprocess_for_ocr` (PIL image processing) and `pytesseract.image_to_data`
  are not modelled. OCR is an oracle from image bytes, preprocessing variant
  and configuration to the words found; the token filter and the averaging
  around it are modelled.
- python-pptx loading and `slide.element.xml` serialisation are not modelled.
  A slide is an abstract record holding its shapes, background, size and
  markup string. A file that cannot be opened is `Unreadable`.
- Scores and confidences are exact reals. `round(x, 1)` rounds the exact value
  half to even. Python rounds the binary float, which can differ at a tie.
- The readiness colour, the emoji and `user_message` are presentation strings
  and are not modelled. The tier carries its label.
- `generate_word_report` (utils/analyzer.py:749-776), `utils/generator.py`,
  `streamlit_app.py` and `utils/__init__.py` are not part of this model.
- Logging and `analysis_timestamp` are not modelled.
- `pptx_path` is replaced by the document it names.
- The blanket `except` handlers appear only as the fail-open or fail-closed
  values they return. `calculate_conformance_percentage` raises on no input
  the model can build, so its `None` return is not modelled.
- `analyze_selected_slides` returns the live `self.results` list, and a later
  font pass mutates those dicts in place. The model returns a value copy, so
  this aliasing is not captured.
- `str.isdigit` and `int` accept only ASCII digits, and `lower` maps only
  ASCII letters. `isalpha` covers the Latin, Latin-1, Latin Extended and
  Cyrillic letters. Other Unicode digits and letters are not modelled.
- `OcrText.Clean`: its own contract states only that the text never grows.
  The normal form and idempotence are stated by `OcrText.CleanNormalForm` and
  `OcrText.CleanIdempotent`.
- `Strings.RemoveChar`: the contract does not state that the surviving
  characters keep their order. The function's definition fixes that order.
