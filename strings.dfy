/** Python string primitives the analyzer relies on: whitespace as `str.isspace()`
    and the regular expression `\s` see it, `strip()`, `re.sub(r"\s+", " ", s)`,
    `isdigit()`/`int()` on ASCII digits, `split`, `join`, `in` on strings and
    decimal formatting of integers. */
module Strings {

  /** The characters Python's `str.isspace()` accepts; `strip()` removes them and
      the regular expression `\s` matches them. */
  predicate IsSpace(c: char) {
    c == ' ' || ('\t' <= c <= '\r') || ('\U{1C}' <= c <= '\U{1F}')
    || c == '\U{85}' || c == '\U{A0}' || c == '\U{1680}'
    || ('\U{2000}' <= c <= '\U{200A}') || c == '\U{2028}' || c == '\U{2029}'
    || c == '\U{202F}' || c == '\U{205F}' || c == '\U{3000}'
  }

  predicate AllSpace(s: string) {
    forall i :: 0 <= i < |s| ==> IsSpace(s[i])
  }

  predicate HasNonSpace(s: string) {
    exists i :: 0 <= i < |s| && !IsSpace(s[i])
  }

  /** `s.lstrip()`: the suffix left after dropping leading whitespace. */
  function StripLeft(s: string): (r: string)
    ensures |r| <= |s| && r == s[|s| - |r|..]
    ensures AllSpace(s[..|s| - |r|])
    ensures r == [] || !IsSpace(r[0])
  {
    if |s| > 0 && IsSpace(s[0]) then
      var r := StripLeft(s[1..]);
      assert s[..|s| - |r|] == [s[0]] + s[1..][..|s| - 1 - |r|];
      r
    else s
  }

  /** `s.rstrip()`: the prefix left after dropping trailing whitespace. */
  function StripRight(s: string): (r: string)
    ensures |r| <= |s| && r == s[..|r|]
    ensures AllSpace(s[|r|..])
    ensures r == [] || !IsSpace(r[|r| - 1])
  {
    if |s| > 0 && IsSpace(s[|s| - 1]) then
      var r := StripRight(s[..|s| - 1]);
      assert s[|r|..] == s[..|s| - 1][|r|..] + [s[|s| - 1]];
      r
    else s
  }

  /** `s.strip()`. */
  function Strip(s: string): string {
    StripRight(StripLeft(s))
  }

  /** A string with no whitespace at either end. */
  predicate Trimmed(s: string) {
    s == [] || (!IsSpace(s[0]) && !IsSpace(s[|s| - 1]))
  }

  lemma {:induction false} StripIsTrimmed(s: string)
    ensures Trimmed(Strip(s))
  {
    var l := StripLeft(s);
    var r := StripRight(l);
    if r != [] {
      assert r[0] == l[0];
    }
  }

  /** Stripping an already trimmed string changes nothing. */
  lemma {:induction false} StripTrimmed(s: string)
    requires Trimmed(s)
    ensures Strip(s) == s
  {
  }

  /** `re.sub(r"\s+", " ", s)`: every maximal run of whitespace becomes one space. */
  function Collapse(s: string): (r: string)
    ensures |r| <= |s|
    ensures s == [] <==> r == []
    ensures r != [] ==> (IsSpace(r[0]) <==> IsSpace(s[0]))
    ensures r != [] ==> (IsSpace(r[|r| - 1]) <==> IsSpace(s[|s| - 1]))
    decreases |s|
  {
    if s == [] then []
    else if IsSpace(s[0]) then
      var t := StripLeft(s);
      assert t == [] ==> AllSpace(s);
      assert t != [] ==> t[|t| - 1] == s[|s| - 1];
      var c := Collapse(t);
      assert c != [] ==> ([' '] + c)[|c|] == c[|c| - 1];
      [' '] + c
    else
      var c := Collapse(s[1..]);
      assert c != [] ==> ([s[0]] + c)[|c|] == c[|c| - 1];
      [s[0]] + c
  }

  /** Every whitespace character is a single ' ' that is not followed by
      another whitespace character. */
  ghost predicate SingleSpaced(s: string) {
    && (forall i :: 0 <= i < |s| && IsSpace(s[i]) ==> s[i] == ' ')
    && (forall i, j :: 0 <= i < j < |s| && j == i + 1 ==> !IsSpace(s[i]) || !IsSpace(s[j]))
  }

  lemma {:induction false} CollapseSingleSpaced(s: string)
    ensures SingleSpaced(Collapse(s))
    decreases |s|
  {
    if s == [] {
    } else if IsSpace(s[0]) {
      var t := StripLeft(s);
      CollapseSingleSpaced(t);
      ConsSingleSpaced(' ', Collapse(t));
    } else {
      CollapseSingleSpaced(s[1..]);
      ConsSingleSpaced(s[0], Collapse(s[1..]));
    }
  }

  /** A character put in front of a single-spaced string keeps it single-spaced
      unless it is whitespace other than ' ' or lands next to whitespace. */
  lemma {:induction false} ConsSingleSpaced(c: char, r: string)
    requires SingleSpaced(r)
    requires IsSpace(c) ==> c == ' ' && (r == [] || !IsSpace(r[0]))
    ensures SingleSpaced([c] + r)
  {
    var s := [c] + r;
    forall i | 0 <= i < |s| && IsSpace(s[i])
      ensures s[i] == ' '
    {
      if i > 0 {
        assert s[i] == r[i - 1];
      }
    }
    forall i, j | 0 <= i < j < |s| && j == i + 1
      ensures !IsSpace(s[i]) || !IsSpace(s[j])
    {
      if i > 0 {
        assert s[i] == r[i - 1] && s[j] == r[j - 1];
      }
    }
  }

  lemma {:induction false} CollapseOfSingleSpaced(s: string)
    requires SingleSpaced(s)
    ensures Collapse(s) == s
    decreases |s|
  {
    if s != [] {
      SliceSingleSpaced(s, 1, |s|);
      CollapseOfSingleSpaced(s[1..]);
      if IsSpace(s[0]) {
        assert s[0] == ' ';
        assert |s| > 1 ==> !IsSpace(s[0]) || !IsSpace(s[1]);
        SpaceHeadFixed(s);
      } else {
        NonSpaceHeadFixed(s);
      }
    }
  }

  lemma {:induction false} NonSpaceHeadFixed(s: string)
    requires s != [] && !IsSpace(s[0]) && Collapse(s[1..]) == s[1..]
    ensures Collapse(s) == s
  {
    CollapseNonSpaceHead(s);
  }

  lemma {:induction false} SpaceHeadFixed(s: string)
    requires s != [] && s[0] == ' ' && (|s| == 1 || !IsSpace(s[1])) && Collapse(s[1..]) == s[1..]
    ensures Collapse(s) == s
  {
    assert StripLeft(s) == s[1..] by { LoneSpaceStrip(s); }
    assert Collapse(s) == [' '] + Collapse(StripLeft(s)) by { CollapseSpaceHead(s); }
    assert s == [' '] + s[1..];
  }

  lemma {:induction false} CollapseSpaceHead(s: string)
    requires s != [] && s[0] == ' '
    ensures Collapse(s) == [' '] + Collapse(StripLeft(s))
  {
  }

  lemma {:induction false} CollapseNonSpaceHead(s: string)
    requires s != [] && !IsSpace(s[0])
    ensures Collapse(s) == [s[0]] + Collapse(s[1..])
  {
  }

  lemma {:induction false} LoneSpaceStrip(s: string)
    requires s != [] && IsSpace(s[0]) && (|s| == 1 || !IsSpace(s[1]))
    ensures StripLeft(s) == s[1..]
  {
    assert StripLeft(s) == StripLeft(s[1..]);
    if |s| > 1 {
      assert s[1..][0] == s[1];
    }
  }

  lemma {:induction false} SliceSingleSpaced(s: string, i: nat, j: nat)
    requires SingleSpaced(s) && i <= j <= |s|
    ensures SingleSpaced(s[i..j])
  {
    var t := s[i..j];
    assert forall k :: 0 <= k < |t| ==> t[k] == s[i + k];
  }

  lemma {:induction false} StripSingleSpaced(s: string)
    requires SingleSpaced(s)
    ensures SingleSpaced(Strip(s))
  {
    var l := StripLeft(s);
    SliceSingleSpaced(s, |s| - |l|, |s|);
    SliceSingleSpaced(l, 0, |StripRight(l)|);
  }

  /** Leading whitespace contributes nothing once a run of it is about to be
      collapsed. */
  lemma {:induction false} StripLeftOfSpaces(p: string, q: string)
    requires AllSpace(p)
    ensures StripLeft(p + q) == StripLeft(q)
    decreases |p|
  {
    if p != [] {
      assert (p + q)[1..] == p[1..] + q;
      StripLeftOfSpaces(p[1..], q);
    } else {
      assert p + q == q;
    }
  }

  lemma {:induction false} StripRightOfSpaces(p: string, q: string)
    requires AllSpace(q)
    ensures StripRight(p + q) == StripRight(p)
    decreases |q|
  {
    if q == [] {
      assert p + q == p;
    } else {
      assert (p + q)[..|p + q| - 1] == p + q[..|q| - 1];
      StripRightOfSpaces(p, q[..|q| - 1]);
    }
  }

  lemma {:induction false} StripRightKeepsPrefix(p: string, q: string)
    requires HasNonSpace(q)
    ensures StripRight(p + q) == p + StripRight(q)
    decreases |q|
  {
    var i :| 0 <= i < |q| && !IsSpace(q[i]);
    if IsSpace(q[|q| - 1]) {
      assert (p + q)[..|p + q| - 1] == p + q[..|q| - 1];
      assert q[..|q| - 1][i] == q[i];
      StripRightKeepsPrefix(p, q[..|q| - 1]);
    }
  }

  lemma {:induction false} CollapseStripRight(s: string)
    ensures Collapse(StripRight(s)) == StripRight(Collapse(s))
    decreases |s|
  {
    if s == [] {
    } else if !IsSpace(s[0]) {
      if AllSpace(s[1..]) {
        CollapseStripRightSpacesTail(s);
      } else {
        CollapseStripRight(s[1..]);
        CollapseStripRightWordHead(s);
      }
    } else {
      var d := StripLeft(s);
      if d == [] {
        assert StripRight(s) == [] by { StripRightOfSpaces([], s); }
        AllSpaceCollapse(s);
      } else {
        CollapseStripRight(d);
        CollapseStripRightSpaceHead(s);
      }
    }
  }

  lemma {:induction false} CollapseStripRightSpacesTail(s: string)
    requires s != [] && !IsSpace(s[0]) && AllSpace(s[1..])
    ensures Collapse(StripRight(s)) == StripRight(Collapse(s))
  {
    assert StripRight(s) == [s[0]] by {
      assert s == [s[0]] + s[1..];
      StripRightOfSpaces([s[0]], s[1..]);
    }
    AllSpaceCollapse(s[1..]);
    var c := Collapse(s[1..]);
    assert Collapse(s) == [s[0]] + c;
    if c != [] {
      assert StripRight([s[0]] + [' ']) == [s[0]];
    }
  }

  lemma {:induction false} CollapseStripRightWordHead(s: string)
    requires s != [] && !IsSpace(s[0]) && !AllSpace(s[1..])
    requires Collapse(StripRight(s[1..])) == StripRight(Collapse(s[1..]))
    ensures Collapse(StripRight(s)) == StripRight(Collapse(s))
  {
    var x, u := s[0], s[1..];
    assert s == [x] + u;
    assert HasNonSpace(u);
    StripRightKeepsPrefix([x], u);
    ConsWord(x, StripRight(u));
    ConsWord(x, u);
    NonSpaceSurvivesCollapse(u);
    StripRightKeepsPrefix([x], Collapse(u));
  }

  /** A non-whitespace character in front is kept as it is by `Collapse`. */
  lemma {:induction false} ConsWord(x: char, t: string)
    requires !IsSpace(x)
    ensures Collapse([x] + t) == [x] + Collapse(t)
  {
    assert ([x] + t)[1..] == t;
  }

  lemma {:induction false} CollapseStripRightSpaceHead(s: string)
    requires s != [] && IsSpace(s[0]) && StripLeft(s) != []
    requires Collapse(StripRight(StripLeft(s))) == StripRight(Collapse(StripLeft(s)))
    ensures Collapse(StripRight(s)) == StripRight(Collapse(s))
  {
    var d := StripLeft(s);
    var sp := s[..|s| - |d|];
    var t := StripRight(d);
    var c := Collapse(d);
    calc {
      Collapse(StripRight(s));
      { SpaceHeadStripRight(s); }
      Collapse(sp + t);
      { SpacesBeforeWord(sp, t); }
      [' '] + Collapse(t);
      [' '] + StripRight(c);
      { NonSpaceSurvivesCollapse(d); StripRightKeepsPrefix([' '], c); }
      StripRight([' '] + c);
      { assert Collapse(s) == [' '] + c; }
      StripRight(Collapse(s));
    }
  }

  lemma {:induction false} SpaceHeadStripRight(s: string)
    requires StripLeft(s) != []
    ensures StripRight(s) == s[..|s| - |StripLeft(s)|] + StripRight(StripLeft(s))
  {
    var d := StripLeft(s);
    var sp := s[..|s| - |d|];
    assert s == sp + d;
    assert HasNonSpace(d) by { assert !IsSpace(d[0]); }
    StripRightKeepsPrefix(sp, d);
  }

  lemma {:induction false} SpacesBeforeWord(sp: string, t: string)
    requires sp != [] && AllSpace(sp) && (t == [] || !IsSpace(t[0]))
    ensures Collapse(sp + t) == [' '] + Collapse(t)
  {
    assert (sp + t)[0] == sp[0];
    StripLeftOfSpaces(sp, t);
    assert StripLeft(t) == t;
  }

  lemma {:induction false} AllSpaceCollapse(s: string)
    requires AllSpace(s)
    ensures Collapse(s) == if s == [] then [] else [' ']
  {
  }

  lemma {:induction false} NonSpaceSurvivesCollapse(s: string)
    requires HasNonSpace(s)
    ensures HasNonSpace(Collapse(s))
    decreases |s|
  {
    if !IsSpace(s[0]) {
      assert Collapse(s)[0] == s[0];
    } else {
      var t := StripLeft(s);
      var i :| 0 <= i < |s| && !IsSpace(s[i]);
      assert Collapse(s) == [' '] + Collapse(t);
      assert Collapse(t)[0] == t[0];
      assert Collapse(s)[1] == t[0];
    }
  }

  lemma {:induction false} CollapseStripLeft(s: string)
    ensures Collapse(StripLeft(s)) == StripLeft(Collapse(s))
  {
    if s != [] && IsSpace(s[0]) {
      var t := StripLeft(s);
      assert StripLeft(t) == t;
      assert Collapse(s) == [' '] + Collapse(t);
      var c := Collapse(t);
      assert StripLeft([' '] + c) == StripLeft(c) by {
        assert ([' '] + c)[1..] == c;
      }
      assert c == [] || !IsSpace(c[0]);
    } else if s != [] {
      assert StripLeft(Collapse(s)) == Collapse(s);
    }
  }

  /** Collapsing whitespace and stripping commute: `re.sub(r"\s+", " ", t.strip())`
      is the collapsed text without its one leading and one trailing space. */
  lemma {:induction false} CollapseStrip(s: string)
    ensures Collapse(Strip(s)) == Strip(Collapse(s))
  {
    CollapseStripRight(StripLeft(s));
    CollapseStripLeft(s);
  }

  /** Inserting one more whitespace character next to an existing one (making a
      run longer) does not change the collapsed string. */
  lemma {:induction false} CollapseWidenRun(s: string, i: nat, c: char)
    requires i < |s| && IsSpace(s[i]) && IsSpace(c)
    ensures Collapse(s[..i] + [c] + s[i..]) == Collapse(s)
    decreases |s|, 1
  {
    if i == 0 {
      WidenAtHead(s, c);
    } else if !IsSpace(s[0]) {
      WidenAfterWord(s, i, c);
    } else {
      WidenAfterLeadingRun(s, i, c);
    }
  }

  lemma {:induction false} WidenAtHead(s: string, c: char)
    requires s != [] && IsSpace(s[0]) && IsSpace(c)
    ensures Collapse(s[..0] + [c] + s[0..]) == Collapse(s)
  {
    assert s[..0] + [c] + s[0..] == [c] + s;
    StripLeftOfSpaces([c], s);
  }

  lemma {:induction false} WidenAfterWord(s: string, i: nat, c: char)
    requires 0 < i < |s| && IsSpace(s[i]) && IsSpace(c) && !IsSpace(s[0])
    ensures Collapse(s[..i] + [c] + s[i..]) == Collapse(s)
    decreases |s|, 0
  {
    var x, u := s[0], s[1..];
    var v := u[..i - 1] + [c] + u[i - 1..];
    assert s[..i] + [c] + s[i..] == [x] + v by {
      InsertAfterPrefix(s, 1, i, c);
      assert s[..1] == [x];
    }
    assert s == [x] + u;
    assert Collapse([x] + v) == Collapse([x] + u) by {
      CollapseWidenRun(u, i - 1, c);
      ConsWordAlike(x, v, u);
    }
  }

  /** Words in front of two strings that collapse alike keep them alike. */
  lemma {:induction false} ConsWordAlike(x: char, u: string, v: string)
    requires !IsSpace(x) && Collapse(u) == Collapse(v)
    ensures Collapse([x] + u) == Collapse([x] + v)
  {
    ConsWord(x, u);
    ConsWord(x, v);
  }

  lemma {:induction false} WidenAfterLeadingRun(s: string, i: nat, c: char)
    requires 0 < i < |s| && IsSpace(s[i]) && IsSpace(c) && IsSpace(s[0])
    ensures Collapse(s[..i] + [c] + s[i..]) == Collapse(s)
    decreases |s|, 0
  {
    var w := s[..i] + [c] + s[i..];
    var d := StripLeft(s);
    var j := |s| - |d|;
    assert w[0] == s[0];
    if i < j {
      WidenInsideLeadingRun(s, i, c);
    } else {
      var k := WidenPastLeadingRun(s, i, c);
      CollapseWidenRun(d, k, c);
    }
  }

  /** Widening inside the leading whitespace run leaves `lstrip()` unchanged. */
  lemma {:induction false} WidenInsideLeadingRun(s: string, i: nat, c: char)
    requires 0 < i < |s| - |StripLeft(s)| && IsSpace(c)
    ensures StripLeft(s[..i] + [c] + s[i..]) == StripLeft(s)
  {
    var d := StripLeft(s);
    var p := s[..|s| - |d|];
    assert s == p + d;
    assert s[..i] + [c] + s[i..] == p[..i] + [c] + p[i..] + d by {
      assert s[..i] == p[..i];
      assert s[i..] == p[i..] + d;
    }
    assert StripLeft(p[..i] + [c] + p[i..] + d) == StripLeft(p + d) by {
      InsertIntoSpaces(p, d, i, c);
    }
  }

  lemma {:induction false} InsertIntoSpaces(p: string, d: string, i: nat, c: char)
    requires AllSpace(p) && i <= |p| && IsSpace(c)
    ensures StripLeft(p[..i] + [c] + p[i..] + d) == StripLeft(p + d)
  {
    InsertSpace(p, i, c);
    StripLeftOfSpaces(p[..i] + [c] + p[i..], d);
    StripLeftOfSpaces(p, d);
  }

  lemma {:induction false} InsertSpace(p: string, i: nat, c: char)
    requires AllSpace(p) && i <= |p| && IsSpace(c)
    ensures AllSpace(p[..i] + [c] + p[i..])
  {
    var lead := p[..i] + [c] + p[i..];
    forall k | 0 <= k < |lead| ensures IsSpace(lead[k]) {
      if k < i { assert lead[k] == p[k]; }
      else if k > i { assert lead[k] == p[k - 1]; }
    }
  }

  /** Widening a later run widens the same run of the `lstrip()` result. */
  lemma {:induction false} WidenPastLeadingRun(s: string, i: nat, c: char) returns (k: nat)
    requires |s| - |StripLeft(s)| <= i < |s| && IsSpace(s[i]) && IsSpace(c)
    ensures k < |StripLeft(s)| && IsSpace(StripLeft(s)[k])
    ensures StripLeft(s[..i] + [c] + s[i..]) == StripLeft(s)[..k] + [c] + StripLeft(s)[k..]
  {
    var d := StripLeft(s);
    var j := |s| - |d|;
    k := i - j;
    InsertAfterPrefix(s, j, i, c);
    assert d[k] == s[i];
    assert k != 0;
    var d' := d[..k] + [c] + d[k..];
    assert StripLeft(d') == d' by {
      assert d'[0] == d[0];
    }
    StripLeftOfSpaces(s[..j], d');
  }

  lemma {:induction false} InsertAfterPrefix(s: string, j: nat, i: nat, c: char)
    requires j <= i < |s|
    ensures var d := s[j..];
      s[..i] + [c] + s[i..] == s[..j] + (d[..i - j] + [c] + d[i - j..])
  {
    var d := s[j..];
    assert d[..i - j] == s[j..i];
    assert d[i - j..] == s[i..];
    assert s[..i] == s[..j] + s[j..i];
  }

  /** `c in s` for a character. */
  predicate HasChar(s: string, c: char) {
    exists i :: 0 <= i < |s| && s[i] == c
  }

  /** `needle in hay` for strings: `needle` occurs at some position of `hay`. */
  predicate OccursAt(hay: string, needle: string, i: nat) {
    i + |needle| <= |hay| && hay[i..i + |needle|] == needle
  }

  function Contains(hay: string, needle: string): (r: bool)
    ensures r <==> exists i: nat :: OccursAt(hay, needle, i)
    decreases |hay|
  {
    if |needle| > |hay| then false
    else if hay[..|needle|] == needle then
      assert OccursAt(hay, needle, 0);
      true
    else if hay == [] then false
    else
      var r := Contains(hay[1..], needle);
      assert r ==> exists i: nat :: OccursAt(hay, needle, i) by {
        if r {
          var i: nat :| OccursAt(hay[1..], needle, i);
          assert hay[1..][i..i + |needle|] == hay[i + 1..i + 1 + |needle|];
          assert OccursAt(hay, needle, i + 1);
        }
      }
      assert (exists i: nat :: OccursAt(hay, needle, i)) ==> r by {
        if exists i: nat :: OccursAt(hay, needle, i) {
          var i: nat :| OccursAt(hay, needle, i);
          assert i != 0;
          assert hay[1..][i - 1..i - 1 + |needle|] == hay[i..i + |needle|];
          assert OccursAt(hay[1..], needle, i - 1);
        }
      }
      r
  }

  /** `str.lower()` on ASCII letters; all other characters are kept. */
  function LowerChar(c: char): char {
    if 'A' <= c <= 'Z' then (c as int + 32) as char else c
  }

  function Lower(s: string): (r: string)
    ensures |r| == |s| && forall i :: 0 <= i < |s| ==> r[i] == LowerChar(s[i])
  {
    seq(|s|, i requires 0 <= i < |s| => LowerChar(s[i]))
  }

  /** Lower-casing leaves no ASCII capital, changes nothing else, and is
      idempotent. */
  lemma {:induction false} LowerNormalizes(s: string)
    ensures forall i :: 0 <= i < |s| ==> !('A' <= Lower(s)[i] <= 'Z')
    ensures forall i :: 0 <= i < |s| && !('A' <= s[i] <= 'Z') ==> Lower(s)[i] == s[i]
    ensures Lower(Lower(s)) == Lower(s)
  {
  }

  predicate IsDigit(c: char) {
    '0' <= c <= '9'
  }

  /** `s.isdigit()`: non-empty and made of digits only. */
  predicate IsDigits(s: string) {
    |s| > 0 && forall i :: 0 <= i < |s| ==> IsDigit(s[i])
  }

  /** `int(s)` for a string of decimal digits. */
  function ParseNat(s: string): nat
    requires forall i :: 0 <= i < |s| ==> IsDigit(s[i])
  {
    if s == [] then 0
    else
      var d := s[|s| - 1];
      assert IsDigit(d);
      ParseNat(s[..|s| - 1]) * 10 + (d as int - '0' as int)
  }

  function DigitChar(d: nat): char
    requires d < 10
  {
    ('0' as int + d) as char
  }

  /** Decimal rendering of a natural number, as `f"{n}"` does. */
  function NatToString(n: nat): (r: string)
    ensures IsDigits(r)
  {
    if n < 10 then [DigitChar(n)] else NatToString(n / 10) + [DigitChar(n % 10)]
  }

  lemma {:induction false} ParseNatToString(n: nat)
    ensures ParseNat(NatToString(n)) == n
  {
    if n >= 10 {
      var s := NatToString(n);
      assert s[..|s| - 1] == NatToString(n / 10);
      ParseNatToString(n / 10);
    }
  }

  /** `s.replace(c, "")`. */
  function RemoveChar(s: string, c: char): (r: string)
    ensures !HasChar(r, c)
    ensures forall i :: 0 <= i < |s| && s[i] != c ==> HasChar(r, s[i])
  {
    if s == [] then []
    else
      var rest := RemoveChar(s[1..], c);
      assert forall i :: 1 <= i < |s| ==> s[i] == s[1..][i - 1];
      if s[0] == c then rest
      else
        assert ([s[0]] + rest)[0] == s[0];
        assert forall k :: 0 <= k < |rest| ==> ([s[0]] + rest)[k + 1] == rest[k];
        [s[0]] + rest
  }

  /** Index of the first occurrence of `c` in `s`. */
  function IndexOf(s: string, c: char): (i: nat)
    requires HasChar(s, c)
    ensures i < |s| && s[i] == c && forall k :: 0 <= k < i ==> s[k] != c
  {
    if s[0] == c then 0
    else
      assert HasChar(s[1..], c) by {
        var k :| 0 <= k < |s| && s[k] == c;
        assert s[1..][k - 1] == c;
      }
      1 + IndexOf(s[1..], c)
  }

  /** `s.split(c)` for a one-character separator. */
  function Split(s: string, c: char): (parts: seq<string>)
    ensures |parts| > 0
    ensures forall k :: 0 <= k < |parts| ==> !HasChar(parts[k], c)
    decreases |s|
  {
    if HasChar(s, c) then
      var i := IndexOf(s, c);
      [s[..i]] + Split(s[i + 1..], c)
    else [s]
  }

  /** Joining the pieces of `s.split(c)` with `c` gives `s` back. */
  lemma {:induction false} SplitJoin(s: string, c: char)
    ensures Join(Split(s, c), [c]) == s
    decreases |s|
  {
    if HasChar(s, c) {
      var i := IndexOf(s, c);
      var rest := Split(s[i + 1..], c);
      SplitJoin(s[i + 1..], c);
      var parts := [s[..i]] + rest;
      assert parts[0] == s[..i] && parts[1..] == rest;
      assert s == s[..i] + [c] + s[i + 1..];
    }
  }

  /** `s.join(parts)`. */
  function Join(parts: seq<string>, sep: string): string {
    if parts == [] then ""
    else if |parts| == 1 then parts[0]
    else parts[0] + sep + Join(parts[1..], sep)
  }

  lemma {:induction false} JoinAppend(parts: seq<string>, x: string, sep: string)
    requires parts != []
    ensures Join(parts + [x], sep) == Join(parts, sep) + sep + x
  {
    if |parts| == 1 {
      assert parts + [x] == [parts[0], x];
    } else {
      assert (parts + [x])[1..] == parts[1..] + [x];
      JoinAppend(parts[1..], x, sep);
    }
  }

  /** Collapsing whitespace introduces no character other than a blank. */
  lemma {:induction false} CollapseChars(s: string)
    ensures forall i :: 0 <= i < |Collapse(s)| ==> Collapse(s)[i] == ' ' || Collapse(s)[i] in s
    decreases |s|
  {
    if s != [] {
      if IsSpace(s[0]) {
        var t := StripLeft(s);
        CollapseChars(t);
        assert forall c :: c in t ==> c in s;
      } else {
        CollapseChars(s[1..]);
        assert forall c :: c in s[1..] ==> c in s;
      }
    }
  }
}
