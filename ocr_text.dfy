/** Post-processing of recognised text (analyzer.py:677-705): normalisation,
    the plausibility test for Russian text, and the "meaningful" threshold. */
module OcrText {
  import opened Strings

  /** The single-character replacements of `clean_ocr_text`: `ё`/`Ё` to `е`/`Е`,
      em and en dashes to `-`, and the typographic quotes `«`, `»`, `„`, `“`, `”`
      to `"`. Each replaced character maps to one that no later replacement
      touches, so the chain of `replace` calls is this one character map. */
  function FoldChar(c: char): char {
    if c == 'ё' then 'е'
    else if c == 'Ё' then 'Е'
    else if c == '—' || c == '–' then '-'
    else if c == '«' || c == '»' || c == '„' || c == '“' || c == '”' then '"'
    else c
  }

  function FoldChars(s: string): (r: string)
    ensures |r| == |s| && forall i :: 0 <= i < |s| ==> r[i] == FoldChar(s[i])
  {
    seq(|s|, i requires 0 <= i < |s| => FoldChar(s[i]))
  }

  /** `clean_ocr_text`. */
  function Clean(text: string): (r: string)
    ensures |r| <= |text|
  {
    if text == "" then "" else Strip(Collapse(FoldChars(Strip(text))))
  }

  /** No character of the string is one that the replacements would change. */
  predicate Folded(s: string) {
    forall i :: 0 <= i < |s| ==> FoldChar(s[i]) == s[i]
  }

  lemma {:induction false} FoldCharIdempotent(c: char)
    ensures FoldChar(FoldChar(c)) == FoldChar(c)
    ensures IsSpace(FoldChar(c)) <==> IsSpace(c)
  {
  }

  /** Cleaned text has no whitespace at its ends, no whitespace but single blanks,
      and none of the replaced characters. */
  lemma {:induction false} CleanNormalForm(text: string)
    ensures Trimmed(Clean(text)) && SingleSpaced(Clean(text)) && Folded(Clean(text))
  {
    if text != "" {
      var f := FoldChars(Strip(text));
      StripIsTrimmed(Collapse(f));
      CollapseSingleSpaced(f);
      StripSingleSpaced(Collapse(f));
      FoldCharsFolded(Strip(text));
      CollapseFolded(f);
      StripFolded(Collapse(f));
    }
  }

  lemma {:induction false} CollapseFolded(f: string)
    requires Folded(f)
    ensures Folded(Collapse(f))
  {
    var c := Collapse(f);
    CollapseChars(f);
    forall i | 0 <= i < |c|
      ensures FoldChar(c[i]) == c[i]
    {
      if c[i] != ' ' {
        assert c[i] in f;
      }
    }
  }

  lemma {:induction false} FoldCharsFolded(s: string)
    ensures Folded(FoldChars(s))
  {
    forall i | 0 <= i < |s| {
      FoldCharIdempotent(s[i]);
    }
  }

  lemma {:induction false} SliceFolded(s: string, a: nat, b: nat)
    requires Folded(s) && a <= b <= |s|
    ensures Folded(s[a..b])
  {
    assert forall i :: 0 <= i < b - a ==> s[a..b][i] == s[a + i];
  }

  lemma {:induction false} StripFolded(s: string)
    requires Folded(s)
    ensures Folded(Strip(s))
  {
    var l := StripLeft(s);
    SliceFolded(s, |s| - |l|, |s|);
    SliceFolded(l, 0, |StripRight(l)|);
  }

  /** Cleaning is idempotent. */
  lemma {:induction false} CleanIdempotent(text: string)
    ensures Clean(Clean(text)) == Clean(text)
  {
    var c := Clean(text);
    if c != "" {
      CleanNormalForm(text);
      StripTrimmed(c);
      assert FoldChars(c) == c;
      CollapseOfSingleSpaced(c);
      StripTrimmed(c);
    }
  }

  /** `"а" <= c.lower() <= "я" or c in "ёе"`: the 32 basic Cyrillic letters in
      either case, and `ё`. Capital `Ё` lowers to `ё`, which lies above `я`, and so
      is not counted. */
  predicate IsRussian(c: char) {
    ('а' <= c <= 'я') || ('А' <= c <= 'Я') || c == 'ё'
  }

  /** `str.isalpha()` on the Latin and Cyrillic blocks: ASCII letters, the letters of
      Latin-1 and Latin Extended-A/B, and the Cyrillic letters. */
  predicate IsAlpha(c: char) {
    ('A' <= c <= 'Z') || ('a' <= c <= 'z') || c == 'ª' || c == 'µ' || c == 'º'
    || ('À' <= c <= 'Ö') || ('Ø' <= c <= 'ö') || ('ø' <= c <= 'ɏ')
    || ('Ѐ' <= c <= 'ҁ') || ('Ҋ' <= c <= 'ԯ')
  }

  function RussianCount(s: string): (n: nat)
    ensures n <= |s|
  {
    if s == [] then 0 else RussianCount(s[..|s| - 1]) + (if IsRussian(s[|s| - 1]) then 1 else 0)
  }

  function LetterCount(s: string): (n: nat)
    ensures n <= |s|
  {
    if s == [] then 0 else LetterCount(s[..|s| - 1]) + (if IsAlpha(s[|s| - 1]) then 1 else 0)
  }

  /** `quick_text_quality_check`. */
  predicate Quality(text: string, confidence: real) {
    if text == "" || |text| < 10 then false
    else LetterShareOk(LetterCount(text), RussianCount(text), confidence)
  }

  /** The letter-share part of the check: some letter, and a large enough share
      of Russian letters for the confidence. */
  predicate LetterShareOk(letters: nat, russian: nat, confidence: real) {
    if letters == 0 then false
    else
      var ratio := Ratio(russian, letters);
      if confidence < 50.0 && ratio < 0.6 then false
      else if ratio < 0.35 then false
      else true
  }

  /** Every counted Russian letter is a letter, so the ratio never exceeds 1. */
  lemma {:induction false} RussianAtMostLetters(s: string)
    ensures RussianCount(s) <= LetterCount(s)
  {
    if s != [] {
      RussianAtMostLetters(s[..|s| - 1]);
    }
  }

  /** The gate as a single condition: at least ten characters, some letter, at
      least 35% Russian letters, and 60% when the confidence is below 50. */
  lemma {:induction false} QualityGate(text: string, confidence: real)
    ensures Quality(text, confidence) <==>
      && |text| >= 10
      && LetterCount(text) > 0
      && RussianCount(text) as real >= 0.35 * LetterCount(text) as real
      && (confidence >= 50.0 || RussianCount(text) as real >= 0.6 * LetterCount(text) as real)
  {
    LetterShareGate(LetterCount(text), RussianCount(text), confidence);
  }

  lemma {:induction false} LetterShareGate(letters: nat, russian: nat, confidence: real)
    ensures LetterShareOk(letters, russian, confidence) <==>
      && letters > 0
      && russian as real >= 0.35 * letters as real
      && (confidence >= 50.0 || russian as real >= 0.6 * letters as real)
  {
    if letters > 0 {
      RatioBelow(russian, letters, 0.35);
      RatioBelow(russian, letters, 0.6);
    }
  }

  /** `russian_letters / total_letters`. */
  function Ratio(russian: nat, letters: nat): real
    requires letters > 0
  {
    russian as real / letters as real
  }

  lemma {:induction false} RatioBelow(russian: nat, letters: nat, k: real)
    requires letters > 0
    ensures Ratio(russian, letters) < k <==> russian as real < k * letters as real
  {
    var x, l := russian as real, letters as real;
    var q := x / l;
    assert q * l == x;
    if q < k {
      assert (k - q) * l > 0.0;
    } else {
      assert (q - k) * l >= 0.0;
    }
  }

  /** With no Russian letter the text is rejected whatever the confidence. */
  lemma {:induction false} NoRussianRejected(text: string, confidence: real)
    requires RussianCount(text) == 0
    ensures !Quality(text, confidence)
  {
    QualityGate(text, confidence);
  }

  /** Text whose letters are all Russian passes once it has ten characters and one
      letter, whatever the confidence. */
  lemma {:induction false} AllRussianAccepted(text: string, confidence: real)
    requires |text| >= 10 && LetterCount(text) > 0 && RussianCount(text) == LetterCount(text)
    ensures Quality(text, confidence)
  {
    QualityGate(text, confidence);
  }

  /** `is_meaningful_text`. */
  predicate Meaningful(text: string) {
    text != "" && |Clean(text)| >= 20
  }

  /** Whether a text is meaningful depends only on its cleaned form, and needs at
      least 20 characters of input. */
  lemma {:induction false} MeaningfulOfClean(text: string)
    ensures Meaningful(text) <==> Meaningful(Clean(text))
    ensures Meaningful(text) ==> |text| >= 20
  {
    var c := Clean(text);
    CleanIdempotent(text);
    assert Meaningful(c) <==> c != "" && |c| >= 20;
  }
}
