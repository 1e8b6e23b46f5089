/** `PresentationAnalyzer.parse_slides_range` (analyzer.py:283-322): a lenient
    parser from a slide-selection string to the slide numbers to analyze. */
module RangeSelector {
  import opened Strings

  /** The outcome of parsing: the slide numbers, and whether the parser fell back
      to the whole deck (and so records the range as "all"). */
  datatype Selection = Selection(slides: seq<int>, resetToAll: bool)

  /** `not slides_range or str(slides_range).lower() == "all"`; `None` is modelled
      as the empty string. */
  predicate MeansAll(range: string) {
    range == "" || Lower(range) == "all"
  }

  /** `list(range(1, total + 1))`. */
  function AllSlides(total: nat): (r: seq<int>)
    ensures |r| == total && forall i :: 0 <= i < total ==> r[i] == i + 1
  {
    seq(total, i => i + 1)
  }

  /** The whole deck is every slide number once, in ascending order. */
  lemma {:induction false} AllSlidesMembers(total: nat)
    ensures Increasing(AllSlides(total))
    ensures forall k :: k in AllSlides(total) <==> 1 <= k <= total
  {
    var r := AllSlides(total);
    forall k | 1 <= k <= total
      ensures k in r
    {
      assert r[k - 1] == k;
    }
  }

  /** `list(range(lo, hi + 1))`. */
  function Interval(lo: int, hi: int): (r: seq<int>)
    ensures forall k :: k in r <==> lo <= k <= hi
    decreases hi - lo
  {
    if lo > hi then [] else [lo] + Interval(lo + 1, hi)
  }

  function Min(a: int, b: int): int {
    if a <= b then a else b
  }

  /** `a, b = part.split("-", 1)`: the text before and after the first dash. */
  function BeforeDash(part: string): string
    requires HasChar(part, '-')
  {
    part[..IndexOf(part, '-')]
  }

  function AfterDash(part: string): string
    requires HasChar(part, '-')
  {
    part[IndexOf(part, '-') + 1..]
  }

  /** A sub-range `a-b` of digit strings: slides `a` to `min(b, total)`; the start
      is not checked against 1 or the deck (analyzer.py:298-302, 307-311). */
  function DashSlides(part: string, total: nat): seq<int>
    requires HasChar(part, '-')
  {
    var a := BeforeDash(part);
    var b := AfterDash(part);
    if IsDigits(a) && IsDigits(b) then Interval(ParseNat(a), Min(ParseNat(b), total)) else []
  }

  /** What one comma-separated part adds (analyzer.py:298-306). */
  function PartSlides(part: string, total: nat): seq<int> {
    if HasChar(part, '-') then DashSlides(part, total)
    else if IsDigits(part) then
      var n := ParseNat(part);
      if 1 <= n <= total then [n] else []
    else []
  }

  /** The numbers the parts of a comma list contribute, in order. */
  function PartsSlides(parts: seq<string>, total: nat): seq<int> {
    if parts == [] then []
    else PartsSlides(parts[..|parts| - 1], total) + PartSlides(parts[|parts| - 1], total)
  }

  /** The list built at analyzer.py:294-311, before `sorted(set(...))`, for a
      stripped string that is not a bare number. */
  function Requested(stripped: string, total: nat): seq<int> {
    var compact := RemoveChar(stripped, ' ');
    if HasChar(compact, ',') then PartsSlides(Split(compact, ','), total)
    else if HasChar(compact, '-') then DashSlides(compact, total)
    else []
  }

  /** The members of `xs` below `n`, ascending and without repetition. */
  function SortedBelow(xs: seq<int>, n: nat): (r: seq<int>)
    ensures forall k :: k in r <==> k in xs && 0 <= k < n
    ensures forall i, j :: 0 <= i < j < |r| ==> r[i] < r[j]
  {
    if n == 0 then []
    else
      var prev := SortedBelow(xs, n - 1);
      MembersBelow(prev, n - 1);
      prev + (if n - 1 in xs then [n - 1] else [])
  }

  lemma {:induction false} MembersBelow(xs: seq<int>, bound: int)
    requires forall k :: k in xs ==> k < bound
    ensures forall i :: 0 <= i < |xs| ==> xs[i] < bound
  {
    forall i | 0 <= i < |xs|
      ensures xs[i] < bound
    {
      assert xs[i] in xs;
    }
  }

  /** The whole parser (analyzer.py:286-322). */
  function SelectSlides(range: string, total: nat): Selection {
    if MeansAll(range) then Selection(AllSlides(total), false)
    else
      var stripped := Strip(range);
      if IsDigits(stripped) then
        var n := ParseNat(stripped);
        Selection(if 1 <= n <= total then [n] else [], false)
      else
        var sorted := SortedBelow(Requested(stripped, total), total + 1);
        if sorted == [] then Selection(AllSlides(total), true) else Selection(sorted, false)
  }

  lemma {:induction false} RequestedBounded(stripped: string, total: nat)
    ensures forall k :: k in Requested(stripped, total) ==> 0 <= k <= total
  {
    var compact := RemoveChar(stripped, ' ');
    if HasChar(compact, ',') {
      PartsBounded(Split(compact, ','), total);
    }
  }

  lemma {:induction false} PartsBounded(parts: seq<string>, total: nat)
    ensures forall k :: k in PartsSlides(parts, total) ==> 0 <= k <= total
  {
    if parts != [] {
      PartsBounded(parts[..|parts| - 1], total);
    }
  }

  /** "all", the empty string (and `None`) select the whole deck, in order. */
  lemma {:induction false} AllSelectsWholeDeck(range: string, total: nat)
    requires MeansAll(range)
    ensures SelectSlides(range, total) == Selection(AllSlides(total), false)
  {
  }

  /** A bare number selects exactly that slide when it is in the deck and nothing
      otherwise; there is no fallback for it. */
  lemma {:induction false} BareNumber(range: string, total: nat)
    requires !MeansAll(range) && IsDigits(Strip(range))
    ensures var n := ParseNat(Strip(range));
      SelectSlides(range, total) == Selection(if 1 <= n <= total then [n] else [], false)
  {
  }

  /** Any other form yields a strictly increasing list of numbers in `0..total`;
      if nothing was selected the whole deck is taken and the range is reset. */
  lemma {:induction false} OtherForms(range: string, total: nat)
    requires !MeansAll(range) && !IsDigits(Strip(range))
    ensures var sel := SelectSlides(range, total);
      var req := Requested(Strip(range), total);
      && (forall i, j :: 0 <= i < j < |sel.slides| ==> sel.slides[i] < sel.slides[j])
      && (forall i :: 0 <= i < |sel.slides| ==> 0 <= sel.slides[i] <= total)
      && (sel.resetToAll <==> req == [])
      && (sel.resetToAll ==> sel.slides == AllSlides(total))
      && (!sel.resetToAll ==> forall k :: k in sel.slides <==> k in req)
  {
    var req := Requested(Strip(range), total);
    assert SelectSlides(range, total) == SortedOrAll(req, total);
    RequestedBounded(Strip(range), total);
    SortedOrAllProperties(req, total);
  }

  /** The last step of the parser: the sorted selection, or the whole deck when it
      is empty. */
  function SortedOrAll(req: seq<int>, total: nat): Selection {
    var sorted := SortedBelow(req, total + 1);
    if sorted == [] then Selection(AllSlides(total), true) else Selection(sorted, false)
  }

  lemma {:induction false} SortedOrAllProperties(req: seq<int>, total: nat)
    requires forall k :: k in req ==> 0 <= k <= total
    ensures var sel := SortedOrAll(req, total);
      && (forall i, j :: 0 <= i < j < |sel.slides| ==> sel.slides[i] < sel.slides[j])
      && (forall i :: 0 <= i < |sel.slides| ==> 0 <= sel.slides[i] <= total)
      && (sel.resetToAll <==> req == [])
      && (sel.resetToAll ==> sel.slides == AllSlides(total))
      && (!sel.resetToAll ==> forall k :: k in sel.slides <==> k in req)
  {
    var sorted := SortedBelow(req, total + 1);
    SortedEmptyIff(req, total + 1);
    if sorted != [] {
      assert forall i :: 0 <= i < |sorted| ==> sorted[i] in sorted;
    }
  }

  lemma {:induction false} SortedEmptyIff(xs: seq<int>, n: nat)
    requires forall k :: k in xs ==> 0 <= k < n
    ensures SortedBelow(xs, n) == [] <==> xs == []
  {
    var r := SortedBelow(xs, n);
    if xs != [] {
      assert xs[0] in r;
    }
    if r != [] {
      assert r[0] in r;
    }
  }

  /** Whatever the input, the selection is strictly increasing and every selected
      number lies in `0..total`. */
  lemma {:induction false} SelectionBounded(range: string, total: nat)
    ensures var sel := SelectSlides(range, total).slides;
      Increasing(sel) && forall i :: 0 <= i < |sel| ==> 0 <= sel[i] <= total
  {
    if MeansAll(range) {
      assert SelectSlides(range, total).slides == AllSlides(total);
    } else if IsDigits(Strip(range)) {
      var n := ParseNat(Strip(range));
      assert SelectSlides(range, total).slides == if 1 <= n <= total then [n] else [];
    } else {
      OtherForms(range, total);
    }
  }

  /** A sub-range may start at 0: `0-b` requests slide 0, which is not checked
      against the deck and survives sorting into the selection. */
  lemma {:induction false} ZeroStartIncluded(range: string, total: nat)
    requires !MeansAll(range) && !IsDigits(Strip(range))
    requires var compact := RemoveChar(Strip(range), ' ');
      !HasChar(compact, ',') && HasChar(compact, '-')
      && BeforeDash(compact) == "0" && IsDigits(AfterDash(compact))
    ensures 0 in SelectSlides(range, total).slides
  {
    ZeroRequested(Strip(range), total);
    RequestedSelected(range, total, 0);
  }

  lemma {:induction false} ZeroRequested(stripped: string, total: nat)
    requires var compact := RemoveChar(stripped, ' ');
      !HasChar(compact, ',') && HasChar(compact, '-')
      && BeforeDash(compact) == "0" && IsDigits(AfterDash(compact))
    ensures 0 in Requested(stripped, total)
  {
    var compact := RemoveChar(stripped, ' ');
    assert ParseNat("0") == 0;
    assert Requested(stripped, total) == Interval(0, Min(ParseNat(AfterDash(compact)), total));
  }

  /** A requested number within `0..total` is selected: the list is then not empty
      and there is no fallback. */
  lemma {:induction false} RequestedSelected(range: string, total: nat, k: int)
    requires !MeansAll(range) && !IsDigits(Strip(range))
    requires k in Requested(Strip(range), total) && 0 <= k <= total
    ensures k in SelectSlides(range, total).slides
  {
    var sorted := SortedBelow(Requested(Strip(range), total), total + 1);
    assert k in sorted;
    assert SelectSlides(range, total) == Selection(sorted, false);
  }

  predicate Increasing(xs: seq<int>) {
    forall i, j :: 0 <= i < j < |xs| ==> xs[i] < xs[j]
  }

  /** A strictly increasing list is determined by its members: the result of
      `sorted(set(...))` depends only on which numbers were requested. */
  lemma {:induction false} IncreasingUnique(a: seq<int>, b: seq<int>)
    requires Increasing(a) && Increasing(b)
    requires forall k :: k in a <==> k in b
    ensures a == b
  {
    assert a != [] ==> a[0] in a;
    assert b != [] ==> b[0] in b;
    if a != [] {
      IncreasingHead(a);
      IncreasingHead(b);
      assert a[0] == b[0];
      forall k
        ensures k in a[1..] <==> k in b[1..]
      {
        assert k in a[1..] <==> k in a && k > a[0];
        assert k in b[1..] <==> k in b && k > b[0];
      }
      IncreasingUnique(a[1..], b[1..]);
      assert a == [a[0]] + a[1..];
      assert b == [b[0]] + b[1..];
    }
  }

  /** The head of an increasing list is its least element, and the tail holds
      exactly the greater ones. */
  lemma {:induction false} IncreasingHead(xs: seq<int>)
    requires Increasing(xs) && xs != []
    ensures forall k :: k in xs ==> xs[0] <= k
    ensures forall k :: k in xs[1..] <==> k in xs && k > xs[0]
  {
    forall k | k in xs
      ensures xs[0] <= k
    {
      var i :| 0 <= i < |xs| && xs[i] == k;
    }
    forall k
      ensures k in xs[1..] <==> k in xs && k > xs[0]
    {
      if k in xs && k > xs[0] {
        var i :| 0 <= i < |xs| && xs[i] == k;
        assert xs[1..][i - 1] == k;
      }
    }
  }

  /** Parses a selection string as `parse_slides_range` does, with its loops. */
  method ParseSlides(range: string, total: nat) returns (slides: seq<int>, resetToAll: bool)
    ensures Selection(slides, resetToAll) == SelectSlides(range, total)
  {
    if MeansAll(range) {
      return AllSlides(total), false;
    }
    var stripped := Strip(range);
    if IsDigits(stripped) {
      var n := ParseNat(stripped);
      return (if 1 <= n <= total then [n] else []), false;
    }
    var acc := CollectRequested(stripped, total);
    RequestedBounded(stripped, total);
    slides := SortedUnique(acc, total);
    resetToAll := slides == [];
    if resetToAll {
      slides := AllSlides(total);
    }
  }

  /** The list built by the `extend`/`append` loop of analyzer.py:294-311. */
  method CollectRequested(stripped: string, total: nat) returns (acc: seq<int>)
    ensures acc == Requested(stripped, total)
  {
    var compact := RemoveChar(stripped, ' ');
    acc := [];
    if HasChar(compact, ',') {
      var parts := Split(compact, ',');
      var i := 0;
      while i < |parts|
        invariant 0 <= i <= |parts|
        invariant acc == PartsSlides(parts[..i], total)
      {
        var part := parts[i];
        assert PartsSlides(parts[..i + 1], total) == PartsSlides(parts[..i], total) + PartSlides(part, total) by {
          assert parts[..i + 1][..i] == parts[..i];
        }
        if HasChar(part, '-') {
          var a, b := BeforeDash(part), AfterDash(part);
          if IsDigits(a) && IsDigits(b) {
            acc := acc + Interval(ParseNat(a), Min(ParseNat(b), total));
          }
        } else if IsDigits(part) {
          var n := ParseNat(part);
          if 1 <= n <= total {
            acc := acc + [n];
          }
        }
        i := i + 1;
      }
      assert parts[..|parts|] == parts;
    } else if HasChar(compact, '-') {
      var a, b := BeforeDash(compact), AfterDash(compact);
      if IsDigits(a) && IsDigits(b) {
        acc := Interval(ParseNat(a), Min(ParseNat(b), total));
      }
    }
  }

  /** `sorted(set(acc))` for a list whose members lie in `0..total`: a scan of
      `0..total` that keeps each member once, in ascending order. */
  method SortedUnique(acc: seq<int>, total: nat) returns (slides: seq<int>)
    requires forall k :: k in acc ==> 0 <= k <= total
    ensures slides == SortedBelow(acc, total + 1)
    ensures Increasing(slides) && forall k :: k in slides <==> k in acc
  {
    slides := [];
    var k := 0;
    while k <= total
      invariant 0 <= k <= total + 1
      invariant slides == SortedBelow(acc, k)
    {
      if k in acc {
        slides := slides + [k];
      }
      k := k + 1;
    }
  }
}
