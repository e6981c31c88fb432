/** The arcs a ring's slices are drawn as, and where each stands in its own span. */
module RingArcs {
  import opened AllocationRing

  /** An arc from one point of the ring to a later one. */
  datatype Arc = Arc(slice: Slice, from: real, length: real)

  function Walked(places: seq<Place>, start: real, n: nat): real
    requires n <= |places|
  {
    if n == 0 then start else Walked(places, start, n - 1) + places[n - 1].span
  }

  function ArcAt(slices: seq<Slice>, places: seq<Place>, minSpan: real, start: real, n: nat): Arc
    requires n < |places| && places[n].index < |slices|
  {
    Arc(slices[places[n].index], Walked(places, start, n) + minSpan / 2.0, Greater(places[n].span - minSpan, 0.0))
  }

  method DashedRing(slices: seq<Slice>, order: seq<nat>, circumference: real, minSpan: real,
                    start: real) returns (arcs: seq<Arc>)
    requires LargestFirst(slices, order) && circumference > 0.0 && minSpan > 0.0
    ensures var places := Drawn(slices, order, circumference, minSpan);
            && |arcs| == |places|
            && forall i :: 0 <= i < |arcs| ==>
                 places[i].index < |slices| && arcs[i] == ArcAt(slices, places, minSpan, start, i)
    ensures Apart(arcs, circumference)
  {
    var places := RingPlaces(slices, order, circumference, minSpan);
    DrawnAreSlices(slices, order, circumference, minSpan);
    ArcsOfTheRingAreApart(slices, order, circumference, minSpan, start);
    hide Drawn, LargestFirst, ArcAt;
    arcs := Walk(slices, places, minSpan, start);
    assert arcs == ArcsOf(slices, places, minSpan, start);
  }

  /** One arc after another, each half a least span into its own. */
  method Walk(slices: seq<Slice>, places: seq<Place>, minSpan: real, start: real) returns (arcs: seq<Arc>)
    requires forall i :: 0 <= i < |places| ==> places[i].index < |slices|
    ensures |arcs| == |places| && forall i :: 0 <= i < |arcs| ==> arcs[i] == ArcAt(slices, places, minSpan, start, i)
  {
    var walked := start;
    arcs := [];
    for i := 0 to |places|
      invariant walked == Walked(places, start, i) && |arcs| == i
      invariant forall j :: 0 <= j < i ==> arcs[j] == ArcAt(slices, places, minSpan, start, j)
    {
      arcs := arcs + [Arc(slices[places[i].index], walked + minSpan / 2.0, Greater(places[i].span - minSpan, 0.0))];
      walked := walked + places[i].span;
    }
  }

  lemma {:induction false} WalkedIsTotal(places: seq<Place>, start: real, n: nat)
    requires n <= |places|
    ensures Walked(places, start, n) == start + SpanTotal(places[..n])
  {
    if n > 0 {
      WalkedIsTotal(places, start, n - 1);
      assert places[..n][..n - 1] == places[..n - 1];
    }
  }

  function End(arc: Arc): real {
    arc.from + arc.length
  }

  // ---- arcs keep apart -----------------------------------------------------------------------------

  /** No arc reaches a later one, nor the last the first a turn later. */
  ghost predicate Apart(arcs: seq<Arc>, circumference: real) {
    && (forall i, j :: 0 <= i < j < |arcs| ==> End(arcs[i]) < arcs[j].from)
    && (arcs != [] ==> End(arcs[|arcs| - 1]) < arcs[0].from + circumference)
  }

  ghost function ArcsOf(slices: seq<Slice>, places: seq<Place>, minSpan: real, start: real): (arcs: seq<Arc>)
    requires forall i :: 0 <= i < |places| ==> places[i].index < |slices|
    ensures |arcs| == |places| && forall i :: 0 <= i < |arcs| ==> arcs[i] == ArcAt(slices, places, minSpan, start, i)
  {
    seq(|places|, i requires 0 <= i < |places| => ArcAt(slices, places, minSpan, start, i))
  }

  /** Between one arc and the next lies the least span, or all of a span squeezed below it. */
  lemma GapAfter(slices: seq<Slice>, places: seq<Place>, minSpan: real, start: real, n: nat)
    requires n < |places| && forall i :: 0 <= i < |places| ==> places[i].index < |slices|
    ensures Walked(places, start, n + 1) + minSpan / 2.0 - End(ArcAt(slices, places, minSpan, start, n)) ==
            if places[n].span >= minSpan then minSpan else places[n].span
  {
  }

  /** No arc reaches where a later span begins to be drawn. */
  lemma {:induction false} ArcsDoNotMeet(slices: seq<Slice>, places: seq<Place>, minSpan: real, start: real, i: nat,
                                         j: nat)
    requires i < j <= |places| && minSpan > 0.0
    requires forall n :: 0 <= n < |places| ==> places[n].index < |slices| && places[n].span > 0.0
    ensures End(ArcAt(slices, places, minSpan, start, i)) < Walked(places, start, j) + minSpan / 2.0
    ensures j < |places| ==>
              End(ArcAt(slices, places, minSpan, start, i)) < ArcAt(slices, places, minSpan, start, j).from
  {
    if j > i + 1 {
      ArcsDoNotMeet(slices, places, minSpan, start, i, j - 1);
    }
  }

  /** The arcs of a whole ring, whatever the slices and from wherever it is walked. */
  lemma ArcsOfTheRingAreApart(slices: seq<Slice>, order: seq<nat>, circumference: real, minSpan: real, start: real)
    requires LargestFirst(slices, order) && circumference > 0.0 && minSpan > 0.0
    ensures var places := Drawn(slices, order, circumference, minSpan);
            && (forall i :: 0 <= i < |places| ==> places[i].index < |slices|)
            && Apart(ArcsOf(slices, places, minSpan, start), circumference)
  {
    DrawnAreSlices(slices, order, circumference, minSpan);
    var places := Drawn(slices, order, circumference, minSpan);
    if Worth(slices) > 0.0 {
      DrawnOnceAround(slices, order, circumference, minSpan);
      hide Drawn, LargestFirst;
      PositiveSpansAreApart(slices, places, minSpan, start, circumference);
    }
  }

  lemma {:induction false} PositiveSpansAreApart(slices: seq<Slice>, places: seq<Place>, minSpan: real, start: real,
                                                 circumference: real)
    requires minSpan > 0.0 && SpanTotal(places) == circumference
    requires forall n :: 0 <= n < |places| ==> places[n].index < |slices| && places[n].span > 0.0
    ensures Apart(ArcsOf(slices, places, minSpan, start), circumference)
  {
    var arcs, n := ArcsOf(slices, places, minSpan, start), |places|;
    forall i, j | 0 <= i < j < n
      ensures End(arcs[i]) < arcs[j].from
    {
      ArcsDoNotMeet(slices, places, minSpan, start, i, j);
    }
    if n > 0 {
      ArcsDoNotMeet(slices, places, minSpan, start, n - 1, n);
      WalkedIsTotal(places, start, n);
      assert places[..n] == places;
    }
  }

  // ---- each arc in its own span --------------------------------------------------------------------

  /** The arc lies between the ends of its span. */
  ghost predicate Within(slices: seq<Slice>, places: seq<Place>, minSpan: real, start: real, n: nat)
    requires n < |places| && places[n].index < |slices|
  {
    var arc := ArcAt(slices, places, minSpan, start, n);
    Walked(places, start, n) <= arc.from && End(arc) <= Walked(places, start, n + 1)
  }

  /** At least half of a least span lies free between the arc and either end of its span. */
  ghost predicate Clear(slices: seq<Slice>, places: seq<Place>, minSpan: real, start: real, n: nat)
    requires n < |places| && places[n].index < |slices|
  {
    var arc := ArcAt(slices, places, minSpan, start, n);
    Walked(places, start, n) + minSpan / 2.0 <= arc.from && End(arc) <= Walked(places, start, n + 1) - minSpan / 2.0
  }

  /** An arc stands clear of both ends exactly when its span was not squeezed below the least. */
  lemma ClearExactlyWhen(slices: seq<Slice>, places: seq<Place>, minSpan: real, start: real, n: nat)
    requires n < |places| && places[n].index < |slices|
    ensures Clear(slices, places, minSpan, start, n) <==> places[n].span >= minSpan
  {
  }

  lemma HalfASpanIsEnough(slices: seq<Slice>, places: seq<Place>, minSpan: real, start: real, n: nat)
    requires n < |places| && places[n].index < |slices| && minSpan > 0.0
    ensures Within(slices, places, minSpan, start, n) <==> places[n].span >= minSpan / 2.0
  {
  }

  /** Every arc of a ring of positive slices lies in its own span, squeezed or not. */
  lemma ArcsStayInTheirSpans(slices: seq<Slice>, order: seq<nat>, circumference: real, minSpan: real, start: real,
                             n: nat)
    requires LargestFirst(slices, order) && AllPositive(slices) && circumference >= minSpan > 0.0
    requires n < |Drawn(slices, order, circumference, minSpan)|
    ensures var places := Drawn(slices, order, circumference, minSpan);
            places[n].index < |slices| && Within(slices, places, minSpan, start, n)
  {
    DrawnAreSlices(slices, order, circumference, minSpan);
    SqueezedByHalfAtMost(slices, order, circumference, minSpan, n);
    HalfASpanIsEnough(slices, Drawn(slices, order, circumference, minSpan), minSpan, start, n);
  }

  /** The card's dot of a lone small holding lies in its span, but not clear of its end. */
  lemma CardDotIsNotClear(pi: real, start: real)
    requires 3.14 < pi < 3.15
    ensures LargestFirst(LoneSmallHolding(), [0, 1])
    ensures var places := Drawn(LoneSmallHolding(), [0, 1], 2.0 * pi * 100.0, MIN_SPAN);
            && |places| == 2 && (forall n :: 0 <= n < 2 ==> places[n].index < 2)
            && !Clear(LoneSmallHolding(), places, MIN_SPAN, start, 1)
  {
    CardDotIsSqueezed(pi);
    var places := Drawn(LoneSmallHolding(), [0, 1], 2.0 * pi * 100.0, MIN_SPAN);
    DrawnAreSlices(LoneSmallHolding(), [0, 1], 2.0 * pi * 100.0, MIN_SPAN);
    hide Drawn;
    ClearExactlyWhen(LoneSmallHolding(), places, MIN_SPAN, start, 1);
  }
}
