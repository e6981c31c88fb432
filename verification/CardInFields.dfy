/** The pieces of the card's ring, told in shares of the portfolio. */
module CardInFields {
  import opened Prelude
  import opened AllocationRing

  /** Less than two percent of the portfolio. */
  predicate UnderTwoPercent(holdings: seq<Slice>, i: nat) {
    i < |holdings| && 50.0 * holdings[i].value < Worth(holdings)
  }

  lemma SmallIsUnderTwoPercent(s: Slice, total: real)
    requires total > 0.0
    ensures IsSmall(s, total) <==> 50.0 * s.value < total
    ensures MIN_SPAN == 11.5
  {
    assert s.value == s.value / total * total;
    if 50.0 * s.value < total {
      QuotientBelow(s.value, total);
    }
  }

  lemma QuotientBelow(x: real, total: real)
    requires total > 0.0 && 50.0 * x < total
    ensures x / total < 0.02
  {
    var q := x / total;
    assert q * total == x;
    assert (q - 0.02) * total < 0.0;
  }

  /** A single holding under two percent stays; two or more become one piece of their own, last and grey. */
  lemma PiecesOfTheCard(holdings: seq<Slice>, other: string, i: nat, j: nat)
    requires AllPositive(holdings) && i < |holdings| && j < |holdings|
    ensures !UnderTwoPercent(holdings, i) ==> holdings[i] in RingSlices(holdings, other)
    ensures i != j && UnderTwoPercent(holdings, i) && UnderTwoPercent(holdings, j) ==>
              var pieces := RingSlices(holdings, other);
              && pieces != [] && pieces[|pieces| - 1].color == "#8A9BA8" && pieces[|pieces| - 1].name == other
              && pieces[|pieces| - 1].value > 0.0
              && forall k :: 0 <= k < |pieces| - 1 ==> pieces[k] in holdings && 50.0 * pieces[k].value >= Worth(holdings)
  {
    var total := Worth(holdings);
    WorthIsPositive(holdings);
    forall s: Slice
      ensures IsSmall(s, total) <==> 50.0 * s.value < total
    {
      SmallIsUnderTwoPercent(s, total);
    }
    hide IsSmall;
    var isSmall, isLarge := (s: Slice) => IsSmall(s, total), (s: Slice) => !IsSmall(s, total);
    var small, large := Filter(holdings, isSmall), Filter(holdings, isLarge);
    if i != j && UnderTwoPercent(holdings, i) && UnderTwoPercent(holdings, j) {
      FilterKeepsBoth(holdings, isSmall, if i < j then i else j, if i < j then j else i);
      FilterIsPositive(holdings, isSmall);
      WorthIsPositive(small);
      forall k | 0 <= k < |large|
        ensures large[k] in holdings && 50.0 * large[k].value >= total
      {
        assert large[k] in large;
      }
    }
    if !UnderTwoPercent(holdings, i) {
      assert holdings[i] in large;
    }
  }

  lemma LonePieceStays(holdings: seq<Slice>, other: string, i: nat)
    requires AllPositive(holdings) && UnderTwoPercent(holdings, i)
    requires forall j :: 0 <= j < |holdings| && j != i ==> !UnderTwoPercent(holdings, j)
    ensures RingSlices(holdings, other) == holdings
  {
    var total := Worth(holdings);
    WorthIsPositive(holdings);
    forall j | 0 <= j < |holdings|
      ensures IsSmall(holdings[j], total) <==> j == i
    {
      SmallIsUnderTwoPercent(holdings[j], total);
      assert UnderTwoPercent(holdings, j) <==> j == i;
    }
    hide IsSmall;
    FilterKeepsOne(holdings, (s: Slice) => IsSmall(s, total), i);
  }

  lemma {:induction false} FilterKeepsOne<T(!new)>(xs: seq<T>, keep: T -> bool, i: nat)
    requires i < |xs| && forall j :: 0 <= j < |xs| ==> (keep(xs[j]) <==> j == i)
    ensures |Filter(xs, keep)| == 1
  {
    if i == 0 {
      FilterKeepsNone(xs[1..], keep);
    } else {
      FilterKeepsOne(xs[1..], keep, i - 1);
    }
  }

  lemma {:induction false} FilterKeepsNone<T(!new)>(xs: seq<T>, keep: T -> bool)
    requires forall j :: 0 <= j < |xs| ==> !keep(xs[j])
    ensures Filter(xs, keep) == []
  {
    if xs != [] {
      FilterKeepsNone(xs[1..], keep);
    }
  }
}
