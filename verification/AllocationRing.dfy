/** The ring a portfolio is drawn as: what each slice is given of the circumference, and which slices are drawn. */
module AllocationRing {
  import opened Prelude

  const MIN_SHARE: real := 0.02
  const MIN_SPAN: real := 4.5 + 7.0
  const NEUTRAL_COLOR: string := "#8A9BA8"

  datatype Slice = Slice(value: real, color: string, name: string)

  /** A slice drawn, and its share of the ring. */
  datatype Place = Place(index: nat, span: real)

  function Worth(slices: seq<Slice>): real {
    if slices == [] then 0.0 else slices[0].value + Worth(slices[1..])
  }

  function Values(slices: seq<Slice>): (values: seq<real>)
    ensures |values| == |slices| && forall i :: 0 <= i < |slices| ==> values[i] == slices[i].value
  {
    seq(|slices|, i requires 0 <= i < |slices| => slices[i].value)
  }

  function Greater(a: real, b: real): real {
    if a >= b then a else b
  }

  /** The part of the circumference that x is of the total. */
  function Part(x: real, total: real, circumference: real): real
    requires total > 0.0
  {
    x / total * circumference
  }

  /** What a slice's share of the ring deserves, and never less than a dot needs. */
  function SpanOf(value: real, total: real, circumference: real, minSpan: real): (span: real)
    requires total > 0.0
    ensures span >= minSpan
  {
    Greater(Part(value, total, circumference), minSpan)
  }

  function Spans(slices: seq<Slice>, circumference: real, minSpan: real): (spans: seq<real>)
    requires Worth(slices) > 0.0
    ensures |spans| == |slices|
    ensures forall i :: 0 <= i < |slices| ==> spans[i] == SpanOf(slices[i].value, Worth(slices), circumference, minSpan)
  {
    seq(|slices|, i requires 0 <= i < |slices| => SpanOf(slices[i].value, Worth(slices), circumference, minSpan))
  }

  /** A way of queueing the slices, largest first. */
  ghost predicate LargestFirst(slices: seq<Slice>, order: seq<nat>) {
    && Distinct(order) && (forall i :: i in order <==> 0 <= i < |slices|)
    && (forall k :: 0 <= k < |order| ==> order[k] < |slices|)
    && (forall j, k :: 0 <= j < k < |order| ==> slices[order[j]].value >= slices[order[k]].value)
  }

  /** What the first k of the queue use up. */
  function Used(spans: seq<real>, order: seq<nat>, k: nat): real
    requires k <= |order| && forall j :: 0 <= j < |order| ==> order[j] < |spans|
  {
    if k == 0 then 0.0 else Used(spans, order, k - 1) + spans[order[k - 1]]
  }

  /** How many are placed before the ring is more than full. */
  ghost predicate StopsAt(spans: seq<real>, order: seq<nat>, circumference: real, k: nat)
    requires forall j :: 0 <= j < |order| ==> order[j] < |spans|
  {
    && k <= |order|
    && (forall j :: 0 <= j < k ==> Used(spans, order, j) <= circumference)
    && (k < |order| ==> Used(spans, order, k) > circumference)
  }

  /** The slices placed once the first k of the queue are. */
  ghost function Placed(order: seq<nat>, k: nat): set<nat>
    requires k <= |order|
  {
    set i | i in order[..k]
  }

  /** The number placed: there is always one, and only one. */
  ghost function Stop(spans: seq<real>, order: seq<nat>, circumference: real): (k: nat)
    requires forall j :: 0 <= j < |order| ==> order[j] < |spans|
    ensures StopsAt(spans, order, circumference, k)
  {
    StopFrom(spans, order, circumference, 0)
  }

  ghost function StopFrom(spans: seq<real>, order: seq<nat>, circumference: real, n: nat): (k: nat)
    requires n <= |order| && (forall j :: 0 <= j < |order| ==> order[j] < |spans|)
    requires forall j :: 0 <= j < n ==> Used(spans, order, j) <= circumference
    ensures StopsAt(spans, order, circumference, k)
    decreases |order| - n
  {
    if n == |order| || Used(spans, order, n) > circumference then n else StopFrom(spans, order, circumference, n + 1)
  }

  lemma StopsOnce(spans: seq<real>, order: seq<nat>, circumference: real, k: nat)
    requires forall j :: 0 <= j < |order| ==> order[j] < |spans|
    requires StopsAt(spans, order, circumference, k)
    ensures k == Stop(spans, order, circumference)
  {
    var stop := Stop(spans, order, circumference);
    assert !(k < stop) && !(stop < k);
  }

  function Squeezed(span: real, scale: real): real {
    span * scale
  }

  /** The placed ones among the first n slices, in the order given, all scaled alike. */
  ghost function Fitted(spans: seq<real>, placed: set<nat>, scale: real, n: nat): seq<Place>
    requires n <= |spans|
  {
    if n == 0 then []
    else
      Fitted(spans, placed, scale, n - 1) + if n - 1 in placed then [Place(n - 1, Squeezed(spans[n - 1], scale))] else []
  }

  lemma PlacedNext(order: seq<nat>, k: nat)
    requires k < |order|
    ensures Placed(order, k + 1) == Placed(order, k) + {order[k]}
  {
    assert order[..k + 1] == order[..k] + [order[k]];
  }

  lemma IndicesBelow(slices: seq<Slice>, order: seq<nat>)
    requires LargestFirst(slices, order)
    ensures forall k :: 0 <= k < |order| ==> order[k] < |slices|
  {
  }

  /** Places from the queue until the ring is full, and then one more. */
  method PlaceQueue(slices: seq<Slice>, order: seq<nat>, circumference: real, minSpan: real)
      returns (spans: map<nat, real>, used: real)
    requires LargestFirst(slices, order) && Worth(slices) > 0.0
    ensures var expected := Spans(slices, circumference, minSpan);
            var k := Stop(expected, order, circumference);
            && used == Used(expected, order, k) && spans.Keys == Placed(order, k)
            && forall i :: i in spans ==> i < |slices| && spans[i] == expected[i]
  {
    hide SpanOf, Spans, Worth, LargestFirst;
    var total := Worth(slices);
    IndicesBelow(slices, order);
    ghost var expected := Spans(slices, circumference, minSpan);
    spans, used := map[], 0.0;
    var n := 0;
    while n < |order| && !(used > circumference)
      invariant n <= |order| && used == Used(expected, order, n)
      invariant forall j :: 0 <= j < n ==> Used(expected, order, j) <= circumference
      invariant forall i :: i in spans <==> i in Placed(order, n)
      invariant forall i :: i in spans ==> i < |slices| && spans[i] == expected[i]
    {
      var index := order[n];
      var span := SpanOf(slices[index].value, total, circumference, minSpan);
      PlacedNext(order, n);
      spans := spans[index := span];
      used := used + span;
      n := n + 1;
    }
    StopsOnce(expected, order, circumference, n);
  }

  /** Nothing for an empty portfolio, else the slices placed, each scaled so that together they go once around. */
  ghost function Drawn(slices: seq<Slice>, order: seq<nat>, circumference: real, minSpan: real): seq<Place>
    requires LargestFirst(slices, order) && circumference > 0.0 && minSpan > 0.0
  {
    if Worth(slices) <= 0.0 then []
    else
      var spans := Spans(slices, circumference, minSpan);
      var k := Stop(spans, order, circumference);
      SomethingIsPlaced(slices, order, circumference, minSpan, k);
      Fitted(spans, Placed(order, k), circumference / Used(spans, order, k), |slices|)
  }

  method RingPlaces(slices: seq<Slice>, order: seq<nat>, circumference: real,
                    minSpan: real) returns (places: seq<Place>)
    requires LargestFirst(slices, order) && circumference > 0.0 && minSpan > 0.0
    ensures places == Drawn(slices, order, circumference, minSpan)
  {
    places := [];
    if Worth(slices) > 0.0 {
      var spans, used := PlaceQueue(slices, order, circumference, minSpan);
      ghost var expected := Spans(slices, circumference, minSpan);
      ghost var k := Stop(expected, order, circumference);
      SomethingIsPlaced(slices, order, circumference, minSpan, k);
      hide Spans, StopsAt, Stop, Used, Fitted, Placed, Worth, LargestFirst;
      places := Fit(spans, expected, Placed(order, k), circumference / used, |slices|);
    }
  }

  /** Gives up the same fraction of every span, in the order given. */
  method Fit(spans: map<nat, real>, ghost expected: seq<real>, ghost placed: set<nat>, scale: real,
             n: nat) returns (places: seq<Place>)
    requires n == |expected| && spans.Keys == placed && forall i :: i in spans ==> i < n && spans[i] == expected[i]
    ensures places == Fitted(expected, placed, scale, n)
  {
    places := [];
    for i := 0 to n
      invariant places == Fitted(expected, placed, scale, i)
    {
      FittedNext(expected, placed, scale, i);
      assert i in spans.Keys <==> i in placed;
      if i in spans {
        places := places + [Place(i, Squeezed(spans[i], scale))];
      }
    }
  }

  lemma FittedNext(spans: seq<real>, placed: set<nat>, scale: real, i: nat)
    requires i < |spans|
    ensures i in placed ==>
              Fitted(spans, placed, scale, i + 1) == Fitted(spans, placed, scale, i) + [Place(i, Squeezed(spans[i], scale))]
    ensures i !in placed ==> Fitted(spans, placed, scale, i + 1) == Fitted(spans, placed, scale, i)
  {
  }

  lemma SomethingIsPlaced(slices: seq<Slice>, order: seq<nat>, circumference: real, minSpan: real, k: nat)
    requires LargestFirst(slices, order) && Worth(slices) > 0.0 && circumference > 0.0 && minSpan > 0.0
    requires StopsAt(Spans(slices, circumference, minSpan), order, circumference, k)
    ensures k > 0 && Used(Spans(slices, circumference, minSpan), order, k) > 0.0
  {
    assert slices != [] && 0 in order;
    UsedByEach(Spans(slices, circumference, minSpan), order, minSpan, k);
  }

  lemma {:induction false} UsedByEach(spans: seq<real>, order: seq<nat>, minSpan: real, k: nat)
    requires k <= |order| && forall j :: 0 <= j < |order| ==> order[j] < |spans|
    requires forall i :: 0 <= i < |spans| ==> spans[i] >= minSpan
    ensures Used(spans, order, k) >= (k as real) * minSpan
  {
    if k > 0 {
      UsedByEach(spans, order, minSpan, k - 1);
      assert (k as real) * minSpan == ((k - 1) as real) * minSpan + minSpan;
    }
  }

  // ---- sums over the slices placed -----------------------------------------------------------------

  function SumIn(xs: seq<real>, chosen: set<nat>, n: nat): real
    requires n <= |xs|
  {
    if n == 0 then 0.0 else SumIn(xs, chosen, n - 1) + if n - 1 in chosen then xs[n - 1] else 0.0
  }

  lemma {:induction false} SumInAdds(xs: seq<real>, chosen: set<nat>, i: nat, n: nat)
    requires n <= |xs| && i !in chosen && i < |xs|
    ensures SumIn(xs, chosen + {i}, n) == SumIn(xs, chosen, n) + if i < n then xs[i] else 0.0
  {
    if n > 0 {
      SumInAdds(xs, chosen, i, n - 1);
    }
  }

  lemma PlacedEarlier(order: seq<nat>, k: nat)
    requires k <= |order|
    ensures forall j :: 0 <= j < k ==> order[j] in Placed(order, k)
  {
    assert forall j :: 0 <= j < k ==> order[..k][j] == order[j];
  }

  lemma NotYetPlaced(order: seq<nat>, k: nat)
    requires k < |order| && Distinct(order)
    ensures order[k] !in Placed(order, k)
  {
    assert forall j :: 0 <= j < k ==> order[..k][j] == order[j];
  }

  /** What the queue uses does not depend on its order. */
  lemma {:induction false} UsedIsSum(xs: seq<real>, order: seq<nat>, k: nat)
    requires k <= |order| && Distinct(order) && forall j :: 0 <= j < |order| ==> order[j] < |xs|
    ensures Used(xs, order, k) == SumIn(xs, Placed(order, k), |xs|)
  {
    if k == 0 {
      assert Placed(order, 0) == {};
      SumInNothing(xs, |xs|);
    } else {
      UsedIsSum(xs, order, k - 1);
      PlacedNext(order, k - 1);
      NotYetPlaced(order, k - 1);
      SumInAdds(xs, Placed(order, k - 1), order[k - 1], |xs|);
    }
  }

  lemma {:induction false} SumInNothing(xs: seq<real>, n: nat)
    requires n <= |xs|
    ensures SumIn(xs, {}, n) == 0.0
  {
    if n > 0 {
      SumInNothing(xs, n - 1);
    }
  }

  function SpanTotal(places: seq<Place>): real {
    if places == [] then 0.0 else SpanTotal(places[..|places| - 1]) + places[|places| - 1].span
  }

  lemma SqueezedSum(x: real, y: real, scale: real)
    ensures Squeezed(x, scale) + Squeezed(y, scale) == Squeezed(x + y, scale)
    ensures Squeezed(0.0, scale) == 0.0
  {
  }

  lemma SpanTotalNext(places: seq<Place>, place: Place)
    ensures SpanTotal(places + [place]) == SpanTotal(places) + place.span
  {
    assert (places + [place])[..|places|] == places;
  }

  /** What is drawn sums to what was placed, scaled. */
  lemma {:induction false} FittedTotal(spans: seq<real>, placed: set<nat>, scale: real, n: nat)
    requires n <= |spans|
    ensures SpanTotal(Fitted(spans, placed, scale, n)) == Squeezed(SumIn(spans, placed, n), scale)
  {
    hide Squeezed, SpanTotal, Fitted;
    if n == 0 {
      NothingFitted(spans, placed, scale);
    } else {
      FittedTotal(spans, placed, scale, n - 1);
      FittedNext(spans, placed, scale, n - 1);
      if n - 1 in placed {
        SpanTotalNext(Fitted(spans, placed, scale, n - 1), Place(n - 1, Squeezed(spans[n - 1], scale)));
        SqueezedSum(SumIn(spans, placed, n - 1), spans[n - 1], scale);
      }
    }
  }

  lemma NothingFitted(spans: seq<real>, placed: set<nat>, scale: real)
    ensures SpanTotal(Fitted(spans, placed, scale, 0)) == Squeezed(0.0, scale)
  {
  }

  // ---- what a ring comes to ------------------------------------------------------------------------

  lemma SqueezedToFit(used: real, circumference: real)
    requires used > 0.0
    ensures Squeezed(used, circumference / used) == circumference
  {
  }

  /** The spans drawn go exactly once around. */
  lemma {:induction false} SpansFillTheRing(spans: seq<real>, order: seq<nat>, circumference: real, k: nat)
    requires k <= |order| && Distinct(order) && forall j :: 0 <= j < |order| ==> order[j] < |spans|
    requires Used(spans, order, k) > 0.0
    ensures SpanTotal(Fitted(spans, Placed(order, k), circumference / Used(spans, order, k), |spans|)) == circumference
  {
    hide Squeezed, Used, SumIn, Fitted, SpanTotal;
    var used := Used(spans, order, k);
    UsedIsSum(spans, order, k);
    FittedTotal(spans, Placed(order, k), circumference / used, |spans|);
    SqueezedToFit(used, circumference);
  }

  /** Whatever is not placed is worth no more than anything on it. */
  lemma OnlyTheSmallestAreDropped(slices: seq<Slice>, order: seq<nat>, k: nat, on: nat, off: nat)
    requires LargestFirst(slices, order) && k <= |order|
    requires on in Placed(order, k) && off < |slices| && off !in Placed(order, k)
    ensures slices[on].value >= slices[off].value
  {
    assert off in order;
    PlacedEarlier(order, k);
    var i :| 0 <= i < |order[..k]| && order[..k][i] == on;
    var j :| 0 <= j < |order| && order[j] == off;
    assert slices[order[i]].value >= slices[order[j]].value;
  }

  lemma Divide(x: real, m: real, c: real)
    requires m > 0.0 && x * m <= c
    ensures x <= c / m
  {
    var q := c / m;
    assert q * m == c;
    assert (q - x) * m >= 0.0;
  }

  /** No more than fit at their least, and the one that fills the ring. */
  lemma FewArePlaced(spans: seq<real>, order: seq<nat>, circumference: real, minSpan: real, k: nat)
    requires minSpan > 0.0 && circumference > 0.0
    requires forall j :: 0 <= j < |order| ==> order[j] < |spans|
    requires forall i :: 0 <= i < |spans| ==> spans[i] >= minSpan
    requires StopsAt(spans, order, circumference, k)
    ensures (k as real) <= circumference / minSpan + 1.0
  {
    if k > 0 {
      UsedByEach(spans, order, minSpan, k - 1);
      Divide((k - 1) as real, minSpan, circumference);
    }
  }

  // ---- which slices are drawn ----------------------------------------------------------------------

  lemma {:induction false} FittedAreAscending(places: seq<Place>, spans: seq<real>, placed: set<nat>, scale: real,
                                              n: nat)
    requires n <= |spans| && places == Fitted(spans, placed, scale, n)
    ensures forall i :: 0 <= i < |places| ==> places[i].index < n && places[i].index in placed
    ensures forall i :: 0 <= i < |places| ==> places[i].span == Squeezed(spans[places[i].index], scale)
    ensures forall i, j :: 0 <= i < j < |places| ==> places[i].index < places[j].index
    decreases n
  {
    if n > 0 {
      FittedAreAscending(Fitted(spans, placed, scale, n - 1), spans, placed, scale, n - 1);
    }
  }

  lemma {:induction false} FittedHasEach(spans: seq<real>, placed: set<nat>, scale: real, n: nat, i: nat)
    requires i < n <= |spans| && i in placed
    ensures Place(i, Squeezed(spans[i], scale)) in Fitted(spans, placed, scale, n)
  {
    var before := Fitted(spans, placed, scale, n - 1);
    if i < n - 1 {
      FittedHasEach(spans, placed, scale, n - 1, i);
    } else {
      assert Fitted(spans, placed, scale, n)[|before|] == Place(i, Squeezed(spans[i], scale));
    }
  }

  lemma DrawnAreSlices(slices: seq<Slice>, order: seq<nat>, circumference: real, minSpan: real)
    requires LargestFirst(slices, order) && circumference > 0.0 && minSpan > 0.0
    ensures var places := Drawn(slices, order, circumference, minSpan); forall i :: 0 <= i < |places| ==>
              places[i].index < |slices|
  {
    if Worth(slices) > 0.0 {
      var places, spans := Drawn(slices, order, circumference, minSpan), Spans(slices, circumference, minSpan);
      var k := Stop(spans, order, circumference);
      SomethingIsPlaced(slices, order, circumference, minSpan, k);
      FittedAreAscending(places, spans, Placed(order, k), circumference / Used(spans, order, k), |slices|);
    }
  }

  /** What is drawn goes once around, in the order given, and is what the queue placed. */
  lemma DrawnOnceAround(slices: seq<Slice>, order: seq<nat>, circumference: real, minSpan: real)
    requires LargestFirst(slices, order) && Worth(slices) > 0.0 && circumference > 0.0 && minSpan > 0.0
    ensures var places := Drawn(slices, order, circumference, minSpan);
            var k := Stop(Spans(slices, circumference, minSpan), order, circumference);
            && SpanTotal(places) == circumference
            && (forall i :: 0 <= i < |places| ==> places[i].index in Placed(order, k) && places[i].span > 0.0)
            && (forall i, j :: 0 <= i < j < |places| ==> places[i].index < places[j].index)
            && (forall i :: i in Placed(order, k) ==> exists p :: p in places && p.index == i)
            && (k as real) <= circumference / minSpan + 1.0
  {
    var spans := Spans(slices, circumference, minSpan);
    var k := Stop(spans, order, circumference);
    SomethingIsPlaced(slices, order, circumference, minSpan, k);
    PlacedAreSlices(slices, order, k);
    SpansFillTheRing(spans, order, circumference, k);
    FewArePlaced(spans, order, circumference, minSpan, k);
    ScaleIsPositive(circumference, Used(spans, order, k));
    FittedIsWhatWasPlaced(spans, Placed(order, k), circumference / Used(spans, order, k), minSpan);
  }

  lemma PlacedAreSlices(slices: seq<Slice>, order: seq<nat>, k: nat)
    requires LargestFirst(slices, order) && k <= |order|
    ensures forall i :: i in Placed(order, k) ==> i < |slices|
  {
    assert forall i :: i in Placed(order, k) ==> i in order;
  }

  lemma FittedIsWhatWasPlaced(spans: seq<real>, placed: set<nat>, scale: real, minSpan: real)
    requires scale > 0.0 && minSpan > 0.0 && (forall i :: 0 <= i < |spans| ==> spans[i] >= minSpan)
    requires forall i :: i in placed ==> i < |spans|
    ensures var places := Fitted(spans, placed, scale, |spans|);
            && (forall i :: 0 <= i < |places| ==> places[i].index in placed && places[i].span > 0.0)
            && (forall i, j :: 0 <= i < j < |places| ==> places[i].index < places[j].index)
            && (forall i :: i in placed ==> exists p :: p in places && p.index == i)
  {
    var places := Fitted(spans, placed, scale, |spans|);
    FittedAreAscending(places, spans, placed, scale, |spans|);
    forall i | 0 <= i < |places|
      ensures places[i].span > 0.0
    {
      var index := places[i].index;
      assert index < |spans| && places[i].span == Squeezed(spans[index], scale);
      ProductIsPositive(spans[index], scale);
    }
    forall i | i in placed
      ensures exists p :: p in places && p.index == i
    {
      FittedHasEach(spans, placed, scale, |spans|, i);
      assert Place(i, Squeezed(spans[i], scale)) in places;
    }
  }

  lemma ProductIsPositive(x: real, y: real)
    requires x > 0.0 && y > 0.0
    ensures x * y > 0.0
  {
  }

  lemma ScaleIsPositive(x: real, y: real)
    requires x > 0.0 && y > 0.0
    ensures x / y > 0.0
  {
  }

  // ---- the card's ring -----------------------------------------------------------------------------

  predicate IsSmall(slice: Slice, total: real)
    requires total > 0.0
  {
    slice.value / total < MIN_SHARE
  }

  /** The pieces of a portfolio: `holdings` are its holdings of positive value, largest first. */
  function RingSlices(holdings: seq<Slice>, other: string): seq<Slice> {
    var total := Worth(holdings);
    if !(total > 0.0) then []
    else
      var small := Filter(holdings, (s: Slice) => IsSmall(s, total));
      var large := Filter(holdings, (s: Slice) => !IsSmall(s, total));
      if |small| == 1 then holdings
      else
        var folded := Worth(small);
        large + if folded > 0.0 then [Slice(folded, NEUTRAL_COLOR, other)] else []
  }

  ghost predicate AllPositive(slices: seq<Slice>) {
    forall i :: 0 <= i < |slices| ==> slices[i].value > 0.0
  }

  lemma {:induction false} WorthOfParts(slices: seq<Slice>, keep: Slice -> bool)
    ensures Worth(slices) == Worth(Filter(slices, keep)) + Worth(Filter(slices, s => !keep(s)))
  {
    if slices != [] {
      WorthOfParts(slices[1..], keep);
      var rest := if keep(slices[0]) then Filter(slices[1..], keep) else Filter(slices[1..], s => !keep(s));
      assert ([slices[0]] + rest)[1..] == rest;
    }
  }

  lemma {:induction false} WorthOfJoin(a: seq<Slice>, b: seq<Slice>)
    ensures Worth(a + b) == Worth(a) + Worth(b)
  {
    if a == [] {
      assert a + b == b;
    } else {
      WorthOfJoin(a[1..], b);
      assert (a + b)[1..] == a[1..] + b;
    }
  }

  lemma {:induction false} WorthIsPositive(slices: seq<Slice>)
    requires AllPositive(slices)
    ensures Worth(slices) >= 0.0 && (slices != [] ==> Worth(slices) > 0.0)
  {
    if slices != [] {
      WorthIsPositive(slices[1..]);
    }
  }

  /** Two that pass are two that are kept. */
  lemma {:induction false} FilterKeepsBoth<T(!new)>(xs: seq<T>, keep: T -> bool, i: nat, j: nat)
    requires i < j < |xs| && keep(xs[i]) && keep(xs[j])
    ensures |Filter(xs, keep)| >= 2
  {
    if i == 0 {
      assert xs[j] == xs[1..][j - 1] && xs[j] in xs[1..];
      assert xs[j] in Filter(xs[1..], keep);
    } else {
      FilterKeepsBoth(xs[1..], keep, i - 1, j - 1);
    }
  }

  /** At most one slice has less than the least share. */
  ghost predicate OneSmallAtMost(slices: seq<Slice>)
    requires Worth(slices) > 0.0
  {
    forall i, j :: 0 <= i < |slices| && 0 <= j < |slices|
                   && IsSmall(slices[i], Worth(slices)) && IsSmall(slices[j], Worth(slices))
      ==> i == j
  }

  /** A single small holding keeps its place. */
  lemma LoneSmallStays(holdings: seq<Slice>, total: real)
    requires total > 0.0 && total == Worth(holdings) && |Filter(holdings, (s: Slice) => IsSmall(s, total))| == 1
    ensures OneSmallAtMost(holdings)
  {
    var isSmall := (s: Slice) => IsSmall(s, total);
    forall i, j | 0 <= i < j < |holdings| && isSmall(holdings[i])
      ensures !isSmall(holdings[j])
    {
      if isSmall(holdings[j]) {
        FilterKeepsBoth(holdings, isSmall, i, j);
      }
    }
    assert forall i, j :: 0 <= i < j < |holdings| && IsSmall(holdings[i], total) ==> !IsSmall(holdings[j], total);
  }

  lemma FilterIsPositive(holdings: seq<Slice>, keep: Slice -> bool)
    requires AllPositive(holdings)
    ensures AllPositive(Filter(holdings, keep))
  {
    var kept := Filter(holdings, keep);
    forall i | 0 <= i < |kept|
      ensures kept[i].value > 0.0
    {
      assert kept[i] in kept;
    }
  }

  /** The tail in one piece beside the rest. */
  lemma FoldedTail(large: seq<Slice>, folded: real, other: string, total: real)
    requires AllPositive(large) && folded >= 0.0 && total > 0.0 && Worth(large) + folded == total
    requires forall i :: 0 <= i < |large| ==> !IsSmall(large[i], total)
    ensures var slices := large + if folded > 0.0 then [Slice(folded, NEUTRAL_COLOR, other)] else [];
            AllPositive(slices) && Worth(slices) == total && OneSmallAtMost(slices)
  {
    var rest := if folded > 0.0 then [Slice(folded, NEUTRAL_COLOR, other)] else [];
    WorthOfJoin(large, rest);
    assert Worth(rest) == folded;
  }

  /** Folding keeps what the portfolio is worth, and leaves at most one piece under the least share. */
  lemma FoldingKeepsWorth(holdings: seq<Slice>, other: string)
    requires AllPositive(holdings) && holdings != []
    ensures var slices := RingSlices(holdings, other);
            AllPositive(slices) && Worth(slices) == Worth(holdings) > 0.0 && OneSmallAtMost(slices)
  {
    WorthIsPositive(holdings);
    var total := Worth(holdings);
    var isSmall, isLarge := (s: Slice) => IsSmall(s, total), (s: Slice) => !IsSmall(s, total);
    var small, large := Filter(holdings, isSmall), Filter(holdings, isLarge);
    if |small| == 1 {
      LoneSmallStays(holdings, total);
    } else {
      WorthOfParts(holdings, isSmall);
      FilterAlike(holdings, s => !isSmall(s), isLarge);
      FilterIsPositive(holdings, isSmall);
      FilterIsPositive(holdings, isLarge);
      WorthIsPositive(small);
      assert forall i :: 0 <= i < |large| ==> large[i] in large;
      FoldedTail(large, Worth(small), other, total);
    }
  }

  // ---- how far a span can be squeezed --------------------------------------------------------------

  /** A slice is worth no more than all of them. */
  lemma {:induction false} OneIsWorthAtMost(slices: seq<Slice>, i: nat)
    requires AllPositive(slices) && i < |slices|
    ensures slices[i].value <= Worth(slices)
  {
    WorthIsPositive(slices[1..]);
    if i > 0 {
      OneIsWorthAtMost(slices[1..], i - 1);
    }
  }

  lemma SpansAreAtMostTheRing(slices: seq<Slice>, circumference: real, minSpan: real)
    requires AllPositive(slices) && Worth(slices) > 0.0 && circumference >= minSpan > 0.0
    ensures forall i :: 0 <= i < |slices| ==> minSpan <= Spans(slices, circumference, minSpan)[i] <= circumference
  {
    forall i | 0 <= i < |slices|
      ensures minSpan <= Spans(slices, circumference, minSpan)[i] <= circumference
    {
      OneIsWorthAtMost(slices, i);
      PartsInOrder(slices[i].value, Worth(slices), Worth(slices), circumference);
    }
  }

  lemma HalfAtLeast(x: real, used: real, circumference: real, minSpan: real)
    requires x >= minSpan > 0.0 && 0.0 < used <= 2.0 * circumference
    ensures Squeezed(x, circumference / used) >= minSpan / 2.0
  {
    var scale := circumference / used;
    SqueezedToFit(used, circumference);
    assert used * (scale - 0.5) >= 0.0;
    assert scale >= 0.5;
    assert (x - minSpan) * scale >= 0.0;
    assert minSpan * (scale - 0.5) >= 0.0;
  }

  /** The ring overruns by at most one span, and a span is at most the ring: no span loses more than half. */
  lemma SqueezedByHalfAtMost(slices: seq<Slice>, order: seq<nat>, circumference: real, minSpan: real, n: nat)
    requires LargestFirst(slices, order) && AllPositive(slices) && circumference >= minSpan > 0.0
    requires n < |Drawn(slices, order, circumference, minSpan)|
    ensures Drawn(slices, order, circumference, minSpan)[n].span >= minSpan / 2.0
  {
    var places, spans := Drawn(slices, order, circumference, minSpan), Spans(slices, circumference, minSpan);
    var k := Stop(spans, order, circumference);
    SomethingIsPlaced(slices, order, circumference, minSpan, k);
    SpansAreAtMostTheRing(slices, circumference, minSpan);
    var used := Used(spans, order, k);
    assert used <= 2.0 * circumference;
    FittedAreAscending(places, spans, Placed(order, k), circumference / used, |slices|);
    HalfAtLeast(spans[places[n].index], used, circumference, minSpan);
  }

  // ---- nothing is dropped from it ------------------------------------------------------------------

  /** What the queue uses when nothing in it is lifted: its share of the circumference. */
  lemma {:induction false} UsedByShare(slices: seq<Slice>, order: seq<nat>, circumference: real, minSpan: real, k: nat)
    requires LargestFirst(slices, order) && Worth(slices) > 0.0 && k <= |order|
    requires forall j :: 0 <= j < k ==> Part(slices[order[j]].value, Worth(slices), circumference) >= minSpan
    ensures Used(Spans(slices, circumference, minSpan), order, k) ==
            Part(Used(Values(slices), order, k), Worth(slices), circumference)
  {
    if k > 0 {
      UsedByShare(slices, order, circumference, minSpan, k - 1);
      hide Part, Worth;
      PartOfSum(Used(Values(slices), order, k - 1), slices[order[k - 1]].value, Worth(slices), circumference);
    }
  }

  lemma PartOfSum(x: real, y: real, total: real, circumference: real)
    requires total > 0.0
    ensures Part(x + y, total, circumference) == Part(x, total, circumference) + Part(y, total, circumference)
  {
    assert (x + y) / total == x / total + y / total;
  }

  lemma {:induction false} SumInIsAtMost(xs: seq<real>, chosen: set<nat>, n: nat, all: set<nat>)
    requires n <= |xs| && chosen <= all && forall i :: 0 <= i < |xs| ==> xs[i] >= 0.0
    ensures SumIn(xs, chosen, n) <= SumIn(xs, all, n)
  {
    if n > 0 {
      SumInIsAtMost(xs, chosen, n - 1, all);
    }
  }

  lemma {:induction false} WorthIsSum(slices: seq<Slice>, all: set<nat>, n: nat)
    requires n <= |slices| && forall i :: 0 <= i < |slices| ==> i in all
    ensures SumIn(Values(slices), all, n) == Worth(slices[..n])
  {
    if n > 0 {
      WorthIsSum(slices, all, n - 1);
      WorthOfJoin(slices[..n - 1], [slices[n - 1]]);
      assert slices[..n] == slices[..n - 1] + [slices[n - 1]];
    }
  }

  /** A queue's slices are worth no more than all of them. */
  lemma QueueIsWorthAtMost(slices: seq<Slice>, order: seq<nat>, k: nat)
    requires LargestFirst(slices, order) && AllPositive(slices) && k <= |order|
    ensures Used(Values(slices), order, k) <= Worth(slices)
  {
    var all := set i | i in order;
    UsedIsSum(Values(slices), order, k);
    SumInIsAtMost(Values(slices), Placed(order, k), |slices|, all);
    WorthIsSum(slices, all, |slices|);
    assert slices[..|slices|] == slices;
  }

  lemma PartsInOrder(x: real, y: real, total: real, circumference: real)
    requires total > 0.0 && x <= y && circumference > 0.0
    ensures Part(x, total, circumference) <= Part(y, total, circumference)
    ensures Part(total, total, circumference) == circumference
  {
    assert x / total <= y / total;
    assert (y / total - x / total) * circumference >= 0.0;
  }

  lemma BeforeTheLastNoneIsLifted(slices: seq<Slice>, order: seq<nat>, circumference: real, minSpan: real, k: nat)
    requires LargestFirst(slices, order) && Worth(slices) > 0.0 && OneSmallAtMost(slices) && k < |order|
    requires circumference > 0.0 && MIN_SHARE * circumference >= minSpan
    ensures forall j :: 0 <= j < k ==> Part(slices[order[j]].value, Worth(slices), circumference) >= minSpan
  {
    forall j | 0 <= j < k
      ensures Part(slices[order[j]].value, Worth(slices), circumference) >= minSpan
    {
      NotSmallWhenNotLast(slices, order, j, k);
      LargeIsNotLifted(slices[order[j]], Worth(slices), circumference, minSpan);
    }
  }

  lemma NotSmallWhenNotLast(slices: seq<Slice>, order: seq<nat>, j: nat, k: nat)
    requires LargestFirst(slices, order) && Worth(slices) > 0.0 && OneSmallAtMost(slices) && j < k < |order|
    ensures !IsSmall(slices[order[j]], Worth(slices))
  {
    SmallerShare(slices[order[k]].value, slices[order[j]].value, Worth(slices));
    assert order[j] != order[k];
  }

  lemma LargeIsNotLifted(slice: Slice, total: real, circumference: real, minSpan: real)
    requires total > 0.0 && !IsSmall(slice, total) && circumference > 0.0 && MIN_SHARE * circumference >= minSpan
    ensures Part(slice.value, total, circumference) >= minSpan
  {
    assert (slice.value / total - MIN_SHARE) * circumference >= 0.0;
  }

  lemma SmallerShare(x: real, y: real, total: real)
    requires total > 0.0 && x <= y
    ensures x / total <= y / total
  {
  }

  /** With at most one small piece, and room enough for the least share, the ring is not full before the last. */
  lemma RoomUntilTheLast(slices: seq<Slice>, order: seq<nat>, circumference: real, minSpan: real, k: nat)
    requires LargestFirst(slices, order) && AllPositive(slices) && Worth(slices) > 0.0 && OneSmallAtMost(slices)
    requires k < |order|
    requires circumference > 0.0 && MIN_SHARE * circumference >= minSpan
    ensures Used(Spans(slices, circumference, minSpan), order, k) <= circumference
  {
    hide Part, Spans, Used, Worth, OneSmallAtMost;
    BeforeTheLastNoneIsLifted(slices, order, circumference, minSpan, k);
    UsedByShare(slices, order, circumference, minSpan, k);
    QueueIsWorthAtMost(slices, order, k);
    PartsInOrder(Used(Values(slices), order, k), Worth(slices), Worth(slices), circumference);
  }

  lemma AllArePlaced(slices: seq<Slice>, order: seq<nat>, circumference: real, minSpan: real)
    requires LargestFirst(slices, order) && AllPositive(slices) && Worth(slices) > 0.0 && OneSmallAtMost(slices)
    requires circumference > 0.0 && MIN_SHARE * circumference >= minSpan
    ensures Stop(Spans(slices, circumference, minSpan), order, circumference) == |order|
    ensures forall i :: 0 <= i < |slices| ==> i in Placed(order, |order|)
  {
    hide Spans, Used, Worth, OneSmallAtMost, Stop;
    var k := Stop(Spans(slices, circumference, minSpan), order, circumference);
    if k < |order| {
      RoomUntilTheLast(slices, order, circumference, minSpan, k);
    }
    assert order[..|order|] == order;
  }

  lemma AllAreDrawn(slices: seq<Slice>, order: seq<nat>, circumference: real, minSpan: real, i: nat)
    requires LargestFirst(slices, order) && AllPositive(slices) && Worth(slices) > 0.0 && OneSmallAtMost(slices)
    requires i < |slices|
    requires circumference > 0.0 && minSpan > 0.0 && MIN_SHARE * circumference >= minSpan
    ensures exists p :: p in Drawn(slices, order, circumference, minSpan) && p.index == i
  {
    hide Spans, Used, Worth, OneSmallAtMost, Stop, Drawn, Placed;
    AllArePlaced(slices, order, circumference, minSpan);
    DrawnOnceAround(slices, order, circumference, minSpan);
    assert i in Placed(order, Stop(Spans(slices, circumference, minSpan), order, circumference));
  }

  /** The card's own figures: whatever the portfolio, every piece of it is drawn. */
  lemma CardDropsNothing(holdings: seq<Slice>, other: string, order: seq<nat>, pi: real, i: nat)
    requires 3.14 < pi < 3.15 && AllPositive(holdings) && holdings != []
    requires LargestFirst(RingSlices(holdings, other), order) && i < |RingSlices(holdings, other)|
    ensures exists p :: p in Drawn(RingSlices(holdings, other), order, 2.0 * pi * 100.0, MIN_SPAN) && p.index == i
  {
    hide RingSlices, Drawn, LargestFirst, AllPositive, Worth, OneSmallAtMost;
    FoldingKeepsWorth(holdings, other);
    AllAreDrawn(RingSlices(holdings, other), order, 2.0 * pi * 100.0, MIN_SPAN, i);
  }

  // ---- when the ring is not squeezed ---------------------------------------------------------------

  /** A queue uses at least its share, and more when something in it is lifted. */
  lemma {:induction false} LiftingOverruns(slices: seq<Slice>, order: seq<nat>, circumference: real, minSpan: real,
                                           k: nat)
    requires LargestFirst(slices, order) && Worth(slices) > 0.0 && k <= |order|
    ensures var used := Used(Spans(slices, circumference, minSpan), order, k);
            var share := Part(Used(Values(slices), order, k), Worth(slices), circumference);
            && used >= share
            && (used == share <==> forall j :: 0 <= j < k ==>
                 Part(slices[order[j]].value, Worth(slices), circumference) >= minSpan)
  {
    if k > 0 {
      LiftingOverruns(slices, order, circumference, minSpan, k - 1);
      hide Part, Worth;
      PartOfSum(Used(Values(slices), order, k - 1), slices[order[k - 1]].value, Worth(slices), circumference);
    } else {
      assert Part(0.0, Worth(slices), circumference) == 0.0;
    }
  }

  lemma WholeQueueIsWorth(slices: seq<Slice>, order: seq<nat>)
    requires LargestFirst(slices, order)
    ensures Used(Values(slices), order, |order|) == Worth(slices)
  {
    UsedIsSum(Values(slices), order, |order|);
    assert order[..|order|] == order;
    WorthIsSum(slices, Placed(order, |order|), |slices|);
    assert slices[..|slices|] == slices;
  }

  /** With every slice placed the scale is 1 exactly when none was lifted. */
  lemma ScaleIsOneExactlyWhen(slices: seq<Slice>, order: seq<nat>, circumference: real, minSpan: real)
    requires LargestFirst(slices, order) && Worth(slices) > 0.0 && circumference > 0.0
    ensures Used(Spans(slices, circumference, minSpan), order, |order|) == circumference <==>
            forall i :: 0 <= i < |slices| ==> Part(slices[i].value, Worth(slices), circumference) >= minSpan
  {
    LiftingOverruns(slices, order, circumference, minSpan, |order|);
    WholeQueueIsWorth(slices, order);
    PartsInOrder(Worth(slices), Worth(slices), Worth(slices), circumference);
    hide Part, Worth, Used, Spans;
    if forall j :: 0 <= j < |order| ==> Part(slices[order[j]].value, Worth(slices), circumference) >= minSpan {
      forall i | 0 <= i < |slices|
        ensures Part(slices[i].value, Worth(slices), circumference) >= minSpan
      {
        assert i in order;
      }
    }
  }

  /** A portfolio of a large holding and a lone one of one percent. */
  function LoneSmallHolding(): (holdings: seq<Slice>) {
    [Slice(99.0, "#000000", "A"), Slice(1.0, "#FFFFFF", "B")]
  }

  lemma LoneSmallHoldingRing(pi: real)
    requires 3.14 < pi < 3.15
    ensures var holdings := LoneSmallHolding();
            && RingSlices(holdings, "other") == holdings && LargestFirst(holdings, [0, 1])
            && AllPositive(holdings) && OneSmallAtMost(holdings) && Worth(holdings) == 100.0
            && Part(1.0, 100.0, 2.0 * pi * 100.0) < MIN_SPAN
  {
    var holdings := LoneSmallHolding();
    var b := holdings[1];
    assert holdings[1..] == [b] && Worth([b]) == 1.0 && Worth(holdings) == 100.0;
    assert Filter([b], (s: Slice) => IsSmall(s, 100.0)) == [b];
    assert Filter(holdings, (s: Slice) => IsSmall(s, 100.0)) == [b];
    assert [0, 1][0] in [0, 1] && [0, 1][1] in [0, 1];
  }

  /** The card's ring can be squeezed too: a lone holding of one percent is lifted to a dot. */
  lemma CardCanBeSqueezed(pi: real)
    requires 3.14 < pi < 3.15
    ensures RingSlices(LoneSmallHolding(), "other") == LoneSmallHolding()
    ensures LargestFirst(LoneSmallHolding(), [0, 1]) && Worth(LoneSmallHolding()) > 0.0
    ensures Used(Spans(LoneSmallHolding(), 2.0 * pi * 100.0, MIN_SPAN), [0, 1], 2) > 2.0 * pi * 100.0
  {
    var holdings, circumference := LoneSmallHolding(), 2.0 * pi * 100.0;
    LoneSmallHoldingRing(pi);
    LiftingOverruns(holdings, [0, 1], circumference, MIN_SPAN, 2);
    WholeQueueIsWorth(holdings, [0, 1]);
    PartsInOrder(100.0, 100.0, 100.0, circumference);
    hide Used, Spans, Part, RingSlices;
    assert Part(holdings[[0, 1][1]].value, Worth(holdings), circumference) < MIN_SPAN;
  }

  /** Its dot is drawn, in less than the least span. */
  lemma CardDotIsSqueezed(pi: real)
    requires 3.14 < pi < 3.15
    ensures LargestFirst(LoneSmallHolding(), [0, 1])
    ensures var places := Drawn(LoneSmallHolding(), [0, 1], 2.0 * pi * 100.0, MIN_SPAN);
            |places| == 2 && places[1].index == 1 && places[1].span < MIN_SPAN
  {
    var holdings, circumference := LoneSmallHolding(), 2.0 * pi * 100.0;
    LoneSmallHoldingRing(pi);
    CardCanBeSqueezed(pi);
    AllArePlaced(holdings, [0, 1], circumference, MIN_SPAN);
    var spans := Spans(holdings, circumference, MIN_SPAN);
    var used := Used(spans, [0, 1], 2);
    assert Drawn(holdings, [0, 1], circumference, MIN_SPAN) == Fitted(spans, Placed([0, 1], 2), circumference / used, 2);
    assert 0 in Placed([0, 1], 2) && 1 in Placed([0, 1], 2) && spans[1] == MIN_SPAN;
    hide Drawn, Spans, Used, Placed;
    FittedNext(spans, Placed([0, 1], 2), circumference / used, 0);
    FittedNext(spans, Placed([0, 1], 2), circumference / used, 1);
    SqueezedWhenOverrun(MIN_SPAN, used, circumference);
  }

  lemma SqueezedWhenOverrun(x: real, used: real, circumference: real)
    requires x > 0.0 && used > circumference > 0.0
    ensures Squeezed(x, circumference / used) < x
  {
    var scale := circumference / used;
    SqueezedToFit(used, circumference);
    BelowOne(used, scale);
    ProductIsPositive(x, 1.0 - scale);
  }

  lemma BelowOne(x: real, scale: real)
    requires x > 0.0 && Squeezed(x, scale) < x
    ensures scale < 1.0
  {
  }
}
