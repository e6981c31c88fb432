/** Any sequence of safe calls, carrying the legs of several conversions and whatever else, converges. */
module DustCalls {
  import opened Prelude
  import opened LedgerRows
  import opened LedgerStore
  import opened DustConvergence
  import opened DustStrangers

  // ---- calls ---------------------------------------------------------------------------------------

  /** An entry of a call: one source's copy of a leg, or something else. */
  datatype Entry = Copy(v: nat, fromApi: bool, out: bool) | Other(e: Item)

  /** One call of `store!`: its entries in order. */
  type Call = seq<Entry>

  ghost predicate ValidEntry(ds: seq<Dust>, x: Entry) {
    match x
    case Copy(v, _, _) => v < |ds|
    case Other(e) => forall v :: 0 <= v < |ds| ==> Stranger(ds[v], e)
  }

  function ItemOf(ds: seq<Dust>, x: Entry): Item
    requires x.Copy? ==> x.v < |ds|
  {
    match x
    case Copy(v, fromApi, out) => Leg(ds[v], fromApi, out)
    case Other(e) => e
  }

  /** Legs of these conversions, each once and each conversion's from one source, among any strangers. */
  ghost predicate ValidCall(ds: seq<Dust>, c: Call) {
    && (forall i :: 0 <= i < |c| ==> ValidEntry(ds, c[i]))
    && (forall i, j :: 0 <= i < j < |c| && c[i].Copy? ==> c[i] != c[j])
    && (forall i, j :: 0 <= i < |c| && 0 <= j < |c| && c[i].Copy? && c[j].Copy? && c[i].v == c[j].v ==>
          c[i].fromApi == c[j].fromApi)
    && (forall i, j :: 0 <= i < j < |c| && c[j].Copy? && !c[j].fromApi ==>
          KeyOf(ItemOf(ds, c[i])) != KeyOf(ItemOf(ds, c[j])))
  }

  ghost function Batch(ds: seq<Dust>, c: Call): (batch: seq<Item>)
    requires ValidCall(ds, c)
    ensures |batch| == |c| && forall i :: 0 <= i < |batch| ==> batch[i] == ItemOf(ds, c[i])
  {
    seq(|c|, i requires 0 <= i < |c| => ItemOf(ds, c[i]))
  }

  ghost predicate ValidCalls(ds: seq<Dust>, calls: seq<Call>) {
    forall c :: c in calls ==> ValidCall(ds, c)
  }

  ghost function Calls(ds: seq<Dust>, l: Ledger, calls: seq<Call>): Ledger
    requires ValidCalls(ds, calls)
  {
    if calls == [] then l
    else Store(Calls(ds, l, calls[..|calls| - 1]), Batch(ds, calls[|calls| - 1])).ledger
  }

  predicate Shows(c: Call, v: nat, fromApi: bool) {
    Copy(v, fromApi, true) in c || Copy(v, fromApi, false) in c
  }

  /** The leg came from that source in one of the calls. */
  predicate SeenLeg(calls: seq<Call>, v: nat, fromApi: bool, out: bool) {
    exists c :: c in calls && Copy(v, fromApi, out) in c
  }

  predicate SeenBy(calls: seq<Call>, v: nat, fromApi: bool) {
    SeenLeg(calls, v, fromApi, true) || SeenLeg(calls, v, fromApi, false)
  }

  /**
   Before the second source shows a conversion, the first has shown both its legs; and an export that comes second
   shows both in the call in which it first shows one.
   */
  predicate SafeNext(calls: seq<Call>, c: Call, v: nat, fromApi: bool) {
    Shows(c, v, fromApi) && SeenBy(calls, v, !fromApi) && !SeenBy(calls, v, fromApi) ==>
      && SeenLeg(calls, v, !fromApi, true) && SeenLeg(calls, v, !fromApi, false)
      && (!fromApi ==> Copy(v, false, true) in c && Copy(v, false, false) in c)
  }

  ghost predicate SafeCalls(calls: seq<Call>) {
    calls == [] || (
      var n := |calls| - 1;
      SafeCalls(calls[..n]) && forall v, fromApi :: SafeNext(calls[..n], calls[n], v, fromApi))
  }

  /** Calls that show each conversion whole, if at all, are safe. */
  lemma {:induction false} WholeCallsAreSafe(calls: seq<Call>)
    requires forall c, v, fromApi, out :: c in calls && Copy(v, fromApi, out) in c ==> Copy(v, fromApi, !out) in c
    ensures SafeCalls(calls)
  {
    if calls != [] {
      var n := |calls| - 1;
      assert forall c :: c in calls[..n] ==> c in calls;
      assert calls[n] in calls;
      WholeCallsAreSafe(calls[..n]);
      forall v, fromApi
        ensures SafeNext(calls[..n], calls[n], v, fromApi)
      {
      }
    }
  }

  // ---- which copy came first -----------------------------------------------------------------------

  /** The first copy of a conversion that came. */
  datatype Lead = Lead(fromApi: bool, out: bool)

  function Led(before: Option<Lead>, fromApi: bool, out: bool): Option<Lead> {
    if before.Some? then before else Some(Lead(fromApi, out))
  }

  /** After the first n entries of a call, given the copy that came first before it. */
  function LeadIn(before: Option<Lead>, c: Call, n: nat, v: nat): Option<Lead>
    requires n <= |c|
  {
    if n == 0 then before
    else
      var lead := LeadIn(before, c, n - 1, v);
      if c[n - 1].Copy? && c[n - 1].v == v then Led(lead, c[n - 1].fromApi, c[n - 1].out) else lead
  }

  function LeadOf(calls: seq<Call>, v: nat): Option<Lead> {
    if calls == [] then None
    else
      var n := |calls| - 1;
      LeadIn(LeadOf(calls[..n], v), calls[n], |calls[n]|, v)
  }

  predicate ByApi(s: Status) {
    s in {Taken, ApiOnly} || s.Marked?
  }

  predicate ByFile(s: Status) {
    s in {FileOnly, Taken} || s.Marked?
  }

  /** The copies held are those of the source that came first, and its first leg stands before the other. */
  predicate LedBy(h: Held, lead: Option<Lead>) {
    match lead
    case None => h.s == Unseen
    case Some(x) =>
      && x.out in h.at && (h.s in {FileOnly, Taken} <==> !x.fromApi) && h.s != Unseen
      && (Whole(h) ==> h.at[x.out] < h.at[!x.out])
  }

  lemma LedByNext(d: Dust, l: Ledger, h: Held, lead: Option<Lead>, fromApi: bool, out: bool)
    requires Described(d) && Tracks(d, l, h) && LedBy(h, lead)
    ensures LedBy(Arrived(d, h, fromApi, out, |l.rows|), Led(lead, fromApi, out))
  {
    hide RowOf, Described, Clashes;
  }

  // ---- one call ------------------------------------------------------------------------------------

  /** What the first n entries of a call change in how a conversion is held. */
  predicate Grown(c: Call, n: nat, v: nat, base: nat, h: Held, h': Held)
    requires n <= |c|
  {
    && (ByApi(h'.s) <==> ByApi(h.s) || Shows(c[..n], v, true))
    && (ByFile(h'.s) <==> ByFile(h.s) || Shows(c[..n], v, false))
    && (forall out :: out in h'.at <==> out in h.at || Copy(v, true, out) in c[..n] || Copy(v, false, out) in c[..n])
    && (forall out :: out in h.at && out in h'.at ==> h'.at[out] == h.at[out])
    && (forall out :: out in h'.at && out !in h.at ==> h'.at[out] >= base)
  }

  /** How a conversion is held before a call, given the calls before it. */
  predicate Told(calls: seq<Call>, v: nat, h: Held) {
    && (ByApi(h.s) <==> SeenBy(calls, v, true)) && (ByFile(h.s) <==> SeenBy(calls, v, false))
    && (forall out :: out in h.at <==> SeenLeg(calls, v, true, out) || SeenLeg(calls, v, false, out))
    && LedBy(h, LeadOf(calls, v))
  }

  lemma ShownNext(c: Call, m: nat, x: Entry)
    requires m < |c|
    ensures x in c[..m + 1] <==> x in c[..m] || x == c[m]
  {
    assert c[..m + 1] == c[..m] + [c[m]];
  }

  lemma GrowsByOther(c: Call, m: nat, v: nat, base: nat, h: Held, h1: Held)
    requires m < |c| && Grown(c, m, v, base, h, h1) && (c[m].Copy? ==> c[m].v != v)
    ensures Grown(c, m + 1, v, base, h, h1)
  {
    forall fromApi, out
      ensures Copy(v, fromApi, out) in c[..m + 1] <==> Copy(v, fromApi, out) in c[..m]
    {
      ShownNext(c, m, Copy(v, fromApi, out));
    }
  }

  lemma ShowsNext(c: Call, m: nat, v: nat, fromApi: bool)
    requires m < |c| && c[m].Copy? && c[m].v == v
    ensures Shows(c[..m + 1], v, fromApi) <==> Shows(c[..m], v, fromApi) || c[m].fromApi == fromApi
  {
    ShownNext(c, m, Copy(v, fromApi, true));
    ShownNext(c, m, Copy(v, fromApi, false));
    assert c[m] == Copy(v, c[m].fromApi, c[m].out);
  }

  lemma GrowsByCopy(d: Dust, c: Call, m: nat, v: nat, base: nat, h: Held, h1: Held, n: nat)
    requires Described(d) && m < |c| && Grown(c, m, v, base, h, h1) && base <= n && c[m].Copy? && c[m].v == v
    ensures Grown(c, m + 1, v, base, h, Arrived(d, h1, c[m].fromApi, c[m].out, n))
  {
    hide Described, Shows;
    forall fromApi, out
      ensures Copy(v, fromApi, out) in c[..m + 1] <==> Copy(v, fromApi, out) in c[..m] || Copy(v, fromApi, out) == c[m]
    {
      ShownNext(c, m, Copy(v, fromApi, out));
    }
    ShowsNext(c, m, v, true);
    ShowsNext(c, m, v, false);
  }

  lemma FirstOfItsKey(ds: seq<Dust>, l: Ledger, c: Call, m: nat)
    requires ValidCall(ds, c) && m < |c| && c[m].Copy? && !c[m].fromApi
    ensures Repeat(After(l, Batch(ds, c), m), Batch(ds, c)[m]) == 0
  {
    hide KnownId, KeyOf, After;
    var batch := Batch(ds, c);
    forall j | 0 <= j < m
      ensures KeyOf(batch[j]) != KeyOf(batch[m])
    {
      assert batch[j] == ItemOf(ds, c[j]) && batch[m] == ItemOf(ds, c[m]);
    }
    if KeyOf(batch[m]) in After(l, batch, m).repeats {
      RepeatsComeFromBatch(l, batch, m, KeyOf(batch[m]));
    }
  }

  /** Where an entry stands in a call. */
  lemma PlaceOf(c: Call, x: Entry) returns (i: nat)
    requires x in c
    ensures i < |c| && c[i] == x
  {
    i :| 0 <= i < |c| && c[i] == x;
  }

  /** No other entry of the call could be one of the conversion's export legs. */
  lemma GroupIsShown(ds: seq<Dust>, c: Call, v: nat) returns (g: Legs)
    requires World(ds) && ValidCall(ds, c) && v < |ds| && Copy(v, false, true) in c && Copy(v, false, false) in c
    ensures GroupShown(ds[v], Batch(ds, c), g)
  {
    hide FreeDustLeg, Described, ClashesFile;
    var x := PlaceOf(c, Copy(v, false, true));
    var y := PlaceOf(c, Copy(v, false, false));
    g := Legs(x, y);
    var d, batch := ds[v], Batch(ds, c);
    assert Described(d);
    ApiLegIsAlike(d, true);
    OnlyTwo(ds, c, v, x, y);
    forall i | 0 <= i < |batch| && i != x && i != y
      ensures !FreeDustLeg(ConversionOf(d.apiOut.raw), d.apiOut.at.value, Stored(batch[i]))
    {
      assert ValidEntry(ds, c[i]);
    }
  }

  lemma OnlyTwo(ds: seq<Dust>, c: Call, v: nat, x: nat, y: nat)
    requires ValidCall(ds, c) && x < |c| && y < |c| && c[x] == Copy(v, false, true) && c[y] == Copy(v, false, false)
    ensures forall i :: 0 <= i < |c| && i != x && i != y ==> !(c[i].Copy? && c[i].v == v)
  {
    forall i | 0 <= i < |c| && c[i].Copy? && c[i].v == v
      ensures i == x || i == y
    {
      assert c[i].fromApi == c[x].fromApi;
      assert c[i] == c[x] || c[i] == c[y];
    }
  }

  /** In a safe call each leg finds what it needs. */
  lemma LegIsReady(ds: seq<Dust>, l: Ledger, calls: seq<Call>, c: Call, m: nat, h: Held, h1: Held)
    requires World(ds) && ValidCall(ds, c) && m < |c| && c[m].Copy? && c[m].v < |ds|
    requires Told(calls, c[m].v, h) && SafeNext(calls, c, c[m].v, c[m].fromApi)
    requires Grown(c, m, c[m].v, |l.rows|, h, h1) && LedBy(h1, LeadIn(LeadOf(calls, c[m].v), c, m, c[m].v))
    requires forall out :: out in h.at ==> h.at[out] < |l.rows|
    ensures var batch := Batch(ds, c);
            Ready(ds[c[m].v], h1, |l.rows|, batch, c[m].fromApi, c[m].out, Repeat(After(l, batch, m), batch[m]))
  {
    hide World, After, Repeat, GroupShown;
    var v, fromApi := c[m].v, c[m].fromApi;
    NotShownByOther(ds, c, m);
    assert c[m] in c && Shows(c, v, fromApi);
    if !fromApi {
      FirstOfItsKey(ds, l, c, m);
      if h1.s == ApiOnly {
        var g := GroupIsShown(ds, c, v);
      }
    }
  }

  /** Until the m-th entry comes, the call has shown neither it nor anything of its conversion from the other source. */
  lemma NotShownByOther(ds: seq<Dust>, c: Call, m: nat)
    requires ValidCall(ds, c) && m < |c| && c[m].Copy?
    ensures c[m] !in c[..m] && !Shows(c, c[m].v, !c[m].fromApi) && !Shows(c[..m], c[m].v, !c[m].fromApi)
  {
  }

  // ---- the ledger and all the conversions ----------------------------------------------------------

  ghost predicate AllTracked(ds: seq<Dust>, l: Ledger, hs: seq<Held>) {
    |hs| == |ds| && forall v :: 0 <= v < |ds| ==> Tracks(ds[v], l, hs[v])
  }

  predicate OneHas(ats: seq<map<bool, nat>>, i: nat) {
    exists v :: 0 <= v < |ats| && HasRow(ats[v], i)
  }

  predicate OneOwns(hs: seq<Held>, i: nat) {
    exists v :: 0 <= v < |hs| && Owns(hs[v], i)
  }

  /** Among legs alone nothing but the conversions' rows changes, and nothing else is added. */
  ghost predicate OnlyTheirs(before: seq<Item>, after: seq<Item>, hs: seq<Held>) {
    && |before| <= |after|
    && (forall i :: 0 <= i < |before| && !OneOwns(hs, i) ==> after[i] == before[i])
    && (forall i :: |before| <= i < |after| ==> OneOwns(hs, i))
  }

  ghost predicate OnlyCopies(c: Call, n: nat)
    requires n <= |c|
  {
    forall m :: 0 <= m < n ==> c[m].Copy?
  }

  // ---- one call, all the conversions ---------------------------------------------------------------

  /** How the conversions are held after the first n entries of a call. */
  ghost predicate CallTold(ds: seq<Dust>, calls: seq<Call>, c: Call, n: nat, base: nat, hs: seq<Held>, hs': seq<Held>)
    requires n <= |c|
  {
    && |hs| == |hs'| == |ds|
    && forall v :: 0 <= v < |ds| ==>
         Grown(c, n, v, base, hs[v], hs'[v]) && LedBy(hs'[v], LeadIn(LeadOf(calls, v), c, n, v))
  }

  /** How they are held before it, and that its first n entries may come. */
  ghost predicate CallReady(ds: seq<Dust>, calls: seq<Call>, c: Call, n: nat, hs: seq<Held>)
    requires n <= |c|
  {
    && |hs| == |ds|
    && (forall v :: 0 <= v < |ds| ==> Told(calls, v, hs[v]))
    && (forall m :: 0 <= m < n && c[m].Copy? ==> SafeNext(calls, c, c[m].v, c[m].fromApi))
  }

  lemma NothingGrown(ds: seq<Dust>, l: Ledger, calls: seq<Call>, c: Call, hs: seq<Held>)
    requires CallReady(ds, calls, c, 0, hs)
    ensures CallTold(ds, calls, c, 0, |l.rows|, hs, hs) && OnlyTheirs(l.rows, l.rows, hs)
  {
  }

  function Updated(ds: seq<Dust>, hs: seq<Held>, x: Entry, n: nat): seq<Held>
    requires |hs| == |ds| && x.Copy? && x.v < |ds| && Described(ds[x.v])
  {
    hs[x.v := Arrived(ds[x.v], hs[x.v], x.fromApi, x.out, n)]
  }

  lemma TrackedAt(ds: seq<Dust>, l: Ledger, hs: seq<Held>, v: nat)
    requires AllTracked(ds, l, hs) && v < |ds|
    ensures |hs| == |ds| && Tracks(ds[v], l, hs[v]) && forall out :: out in hs[v].at ==> hs[v].at[out] < |l.rows|
  {
  }

  lemma IsDescribed(ds: seq<Dust>, v: nat)
    requires World(ds) && v < |ds|
    ensures Described(ds[v])
  {
  }

  lemma IsStranger(ds: seq<Dust>, c: Call, m: nat, v: nat)
    requires World(ds) && ValidCall(ds, c) && m < |c| && v < |ds| && (c[m].Copy? ==> c[m].v != v)
    ensures Stranger(ds[v], Batch(ds, c)[m])
  {
    assert ValidEntry(ds, c[m]);
  }

  /** A leg of one conversion writes on that one's rows alone. */
  lemma CopyArrives(ds: seq<Dust>, l: Ledger, calls: seq<Call>, hs: seq<Held>, c: Call, m: nat, hs1: seq<Held>)
    requires World(ds) && AllTracked(ds, l, hs) && ValidCall(ds, c) && m < |c| && CallReady(ds, calls, c, m + 1, hs)
    requires c[m].Copy? && c[m].v < |ds| && Described(ds[c[m].v])
    requires CallTold(ds, calls, c, m, |l.rows|, hs, hs1)
    requires AllTracked(ds, After(l, Batch(ds, c), m).ledger, hs1)
    ensures var p, v := After(l, Batch(ds, c), m), c[m].v;
            && Tracks(ds[v], p.ledger, hs1[v])
            && After(l, Batch(ds, c), m + 1).ledger == LegStored(ds[v], p.ledger, hs1[v], c[m].fromApi, c[m].out)
            && AllTracked(ds, After(l, Batch(ds, c), m + 1).ledger, Updated(ds, hs1, c[m], |p.ledger.rows|))
            && CallTold(ds, calls, c, m + 1, |l.rows|, hs, Updated(ds, hs1, c[m], |p.ledger.rows|))
  {
    hide World, Tracks, Described, ValidCall, Step, Stranger, Ready, Told, SafeNext, Grown, LedBy, LegStored, LeadOf;
    var batch, v := Batch(ds, c), c[m].v;
    var p := After(l, batch, m);
    TrackedAt(ds, l, hs, v);
    TrackedAt(ds, p.ledger, hs1, v);
    LegIsReady(ds, l, calls, c, m, hs[v], hs1[v]);
    LegArrives(ds[v], p, hs1[v], |l.rows|, batch, m, c[m].fromApi, c[m].out);
    GrowsByCopy(ds[v], c, m, v, |l.rows|, hs[v], hs1[v], |p.ledger.rows|);
    LedByNext(ds[v], p.ledger, hs1[v], LeadIn(LeadOf(calls, v), c, m, v), c[m].fromApi, c[m].out);
    forall w | 0 <= w < |ds| && w != v
      ensures Tracks(ds[w], Step(p, |l.rows|, batch, m).ledger, hs1[w]) && Grown(c, m + 1, w, |l.rows|, hs[w], hs1[w])
    {
      IsStranger(ds, c, m, w);
      IsDescribed(ds, w);
      StrangerArrives(ds[w], p, hs1[w], |l.rows|, batch, m);
      GrowsByOther(c, m, w, |l.rows|, hs[w], hs1[w]);
    }
  }

  lemma OtherArrives(ds: seq<Dust>, l: Ledger, calls: seq<Call>, hs: seq<Held>, c: Call, m: nat, hs1: seq<Held>)
    requires World(ds) && AllTracked(ds, l, hs) && ValidCall(ds, c) && m < |c| && c[m].Other?
    requires CallTold(ds, calls, c, m, |l.rows|, hs, hs1)
    requires AllTracked(ds, After(l, Batch(ds, c), m).ledger, hs1)
    ensures AllTracked(ds, After(l, Batch(ds, c), m + 1).ledger, hs1)
    ensures CallTold(ds, calls, c, m + 1, |l.rows|, hs, hs1)
  {
    hide World, Tracks, Described, ValidCall, Step, Stranger, Grown, LedBy, LeadOf;
    var batch := Batch(ds, c);
    var p := After(l, batch, m);
    forall w | 0 <= w < |ds|
      ensures Tracks(ds[w], Step(p, |l.rows|, batch, m).ledger, hs1[w]) && Grown(c, m + 1, w, |l.rows|, hs[w], hs1[w])
    {
      IsStranger(ds, c, m, w);
      IsDescribed(ds, w);
      StrangerArrives(ds[w], p, hs1[w], |l.rows|, batch, m);
      GrowsByOther(c, m, w, |l.rows|, hs[w], hs1[w]);
    }
  }

  lemma OnlyTheirsNext(ds: seq<Dust>, before: seq<Item>, l: Ledger, hs: seq<Held>, x: Entry)
    requires |hs| == |ds| && x.Copy? && x.v < |ds| && Described(ds[x.v]) && Tracks(ds[x.v], l, hs[x.v])
    requires OnlyTheirs(before, l.rows, hs)
    ensures OnlyTheirs(before, LegStored(ds[x.v], l, hs[x.v], x.fromApi, x.out).rows, Updated(ds, hs, x, |l.rows|))
  {
    hide Described, RowOf, Clashes, Arrive;
    var v, hs' := x.v, Updated(ds, hs, x, |l.rows|);
    var rows := LegStored(ds[v], l, hs[v], x.fromApi, x.out).rows;
    assert forall i :: Owns(hs[v], i) ==> Owns(hs'[v], i);
    assert forall w :: 0 <= w < |hs| && w != v ==> hs'[w] == hs[w];
    forall i | OneOwns(hs, i)
      ensures OneOwns(hs', i)
    {
      var w :| 0 <= w < |hs| && Owns(hs[w], i);
      assert Owns(hs'[w], i);
    }
    forall i | 0 <= i < |rows| && !OneOwns(hs', i)
      ensures i < |l.rows| && rows[i] == l.rows[i]
    {
      assert !Owns(hs'[v], i);
    }
  }

  /** Every prefix of a safe call leaves each conversion held as the legs shown so far say. */
  lemma {:induction false} CallTracks(ds: seq<Dust>, l: Ledger, calls: seq<Call>, hs: seq<Held>, c: Call, n: nat)
    returns (hs': seq<Held>)
    requires World(ds) && AllTracked(ds, l, hs) && ValidCall(ds, c) && n <= |c| && CallReady(ds, calls, c, n, hs)
    ensures AllTracked(ds, After(l, Batch(ds, c), n).ledger, hs')
    ensures CallTold(ds, calls, c, n, |l.rows|, hs, hs')
    ensures OnlyCopies(c, n) ==> OnlyTheirs(l.rows, After(l, Batch(ds, c), n).ledger.rows, hs')
  {
    hide World, AllTracked, Described, Tracks, ValidCall, Step, CallReady, CallTold, OnlyTheirs, LegStored, Arrived;
    if n == 0 {
      hs' := hs;
      NothingGrown(ds, l, calls, c, hs);
    } else {
      var m := n - 1;
      FewerReady(ds, calls, c, n, hs);
      var hs1 := CallTracks(ds, l, calls, hs, c, m);
      if c[m].Copy? {
        SizesOf(ds, After(l, Batch(ds, c), m).ledger, hs1, c, m);
        var rows := After(l, Batch(ds, c), m).ledger.rows;
        CopyArrives(ds, l, calls, hs, c, m, hs1);
        hs' := Updated(ds, hs1, c[m], |rows|);
        if OnlyCopies(c, n) {
          OnlyTheirsNext(ds, l.rows, After(l, Batch(ds, c), m).ledger, hs1, c[m]);
        }
      } else {
        OtherArrives(ds, l, calls, hs, c, m, hs1);
        hs' := hs1;
      }
    }
  }

  lemma FewerReady(ds: seq<Dust>, calls: seq<Call>, c: Call, n: nat, hs: seq<Held>)
    requires 0 < n <= |c| && CallReady(ds, calls, c, n, hs)
    ensures CallReady(ds, calls, c, n - 1, hs)
  {
  }

  lemma SizesOf(ds: seq<Dust>, l: Ledger, hs: seq<Held>, c: Call, m: nat)
    requires World(ds) && AllTracked(ds, l, hs) && ValidCall(ds, c) && m < |c| && c[m].Copy?
    ensures |hs| == |ds| && c[m].v < |ds| && Described(ds[c[m].v])
  {
    assert ValidEntry(ds, c[m]);
  }

  // ---- any sequence of calls -----------------------------------------------------------------------

  /** How every conversion is held after some calls; its rows came after those that were there. */
  ghost predicate AllTold(ds: seq<Dust>, first: nat, calls: seq<Call>, l: Ledger, hs: seq<Held>) {
    && AllTracked(ds, l, hs)
    && (forall v :: 0 <= v < |ds| ==> Told(calls, v, hs[v]))
    && (forall v, out :: 0 <= v < |ds| && out in hs[v].at ==> hs[v].at[out] >= first)
  }

  lemma SeenLast(calls: seq<Call>, v: nat, fromApi: bool, out: bool)
    requires calls != []
    ensures var n := |calls| - 1;
            SeenLeg(calls, v, fromApi, out) <==>
              SeenLeg(calls[..n], v, fromApi, out) || Copy(v, fromApi, out) in calls[n]
  {
    var n := |calls| - 1;
    assert calls[n] in calls && forall d :: d in calls <==> d in calls[..n] || d == calls[n];
  }

  lemma ToldNext(calls: seq<Call>, v: nat, base: nat, h: Held, h': Held)
    requires calls != []
    requires var n := |calls| - 1;
             Told(calls[..n], v, h) && Grown(calls[n], |calls[n]|, v, base, h, h')
             && LedBy(h', LeadIn(LeadOf(calls[..n], v), calls[n], |calls[n]|, v))
    ensures Told(calls, v, h')
  {
    hide LedBy;
    var c := calls[|calls| - 1];
    assert c[..|c|] == c;
    forall fromApi, out
      ensures SeenLeg(calls, v, fromApi, out) <==>
                SeenLeg(calls[..|calls| - 1], v, fromApi, out) || Copy(v, fromApi, out) in c
    {
      SeenLast(calls, v, fromApi, out);
    }
  }

  lemma AllToldNext(ds: seq<Dust>, first: nat, calls: seq<Call>, before: Ledger, after: Ledger, hs: seq<Held>,
                    hs': seq<Held>)
    requires calls != [] && first <= |before.rows| && AllTold(ds, first, calls[..|calls| - 1], before, hs)
    requires var c := calls[|calls| - 1];
             CallTold(ds, calls[..|calls| - 1], c, |c|, |before.rows|, hs, hs') && AllTracked(ds, after, hs')
    ensures AllTold(ds, first, calls, after, hs')
  {
    hide Told, Tracks, LedBy;
    forall v | 0 <= v < |ds|
      ensures Told(calls, v, hs'[v])
    {
      ToldNext(calls, v, |before.rows|, hs[v], hs'[v]);
    }
    forall v, out | 0 <= v < |ds| && out in hs'[v].at
      ensures hs'[v].at[out] >= first
    {
      assert Grown(calls[|calls| - 1], |calls[|calls| - 1]|, v, |before.rows|, hs[v], hs'[v]);
    }
  }

  lemma NothingTold(ds: seq<Dust>, l: Ledger) returns (hs: seq<Held>)
    requires forall v :: 0 <= v < |ds| ==> Foreign(l, ds[v])
    ensures AllTold(ds, |l.rows|, [], l, hs) && OnlyTheirs(l.rows, l.rows, hs)
  {
    hs := seq(|ds|, _ => Held(Unseen, map[]));
  }

  lemma IsReady(ds: seq<Dust>, first: nat, calls: seq<Call>, l: Ledger, hs: seq<Held>)
    requires calls != [] && SafeCalls(calls) && AllTold(ds, first, calls[..|calls| - 1], l, hs)
    ensures SafeCalls(calls[..|calls| - 1]) && AllTracked(ds, l, hs)
    ensures var c := calls[|calls| - 1]; CallReady(ds, calls[..|calls| - 1], c, |c|, hs)
  {
    hide Told, SafeNext, Tracks;
  }

  lemma OwnedLater(ds: seq<Dust>, calls: seq<Call>, c: Call, base: nat, hs: seq<Held>, hs': seq<Held>, i: nat)
    requires CallTold(ds, calls, c, |c|, base, hs, hs') && OneOwns(hs, i)
    ensures OneOwns(hs', i)
  {
    hide LedBy, LeadIn;
    var v :| 0 <= v < |hs| && Owns(hs[v], i);
    assert Grown(c, |c|, v, base, hs[v], hs'[v]);
    assert Owns(hs'[v], i);
  }

  lemma OnlyTheirsOn(first: seq<Item>, before: seq<Item>, after: seq<Item>, hs: seq<Held>, hs': seq<Held>)
    requires OnlyTheirs(first, before, hs) && OnlyTheirs(before, after, hs')
    requires forall i :: OneOwns(hs, i) ==> OneOwns(hs', i)
    ensures OnlyTheirs(first, after, hs')
  {
    hide OneOwns;
  }

  lemma RowsOnlyGrow(l: Ledger, batch: seq<Item>)
    ensures |Store(l, batch).ledger.rows| >= |l.rows| && Store(l, batch).ledger == After(l, batch, |batch|).ledger
  {
  }

  ghost predicate LegsAlone(calls: seq<Call>) {
    forall c :: c in calls ==> OnlyCopies(c, |c|)
  }

  lemma {:induction false} CallsTell(ds: seq<Dust>, l: Ledger, calls: seq<Call>) returns (hs: seq<Held>)
    requires World(ds) && ValidCalls(ds, calls) && SafeCalls(calls)
    requires forall v :: 0 <= v < |ds| ==> Foreign(l, ds[v])
    ensures AllTold(ds, |l.rows|, calls, Calls(ds, l, calls), hs) && |Calls(ds, l, calls).rows| >= |l.rows|
    ensures LegsAlone(calls) ==> OnlyTheirs(l.rows, Calls(ds, l, calls).rows, hs)
  {
    hide World, AllTold, AllTracked, Foreign, ValidCall, SafeNext, SafeCalls, Store, CallReady, CallTold, OnlyTheirs,
         OneOwns, OnlyCopies;
    if calls == [] {
      hs := NothingTold(ds, l);
    } else {
      var n := |calls| - 1;
      var c := calls[n];
      assert c in calls && forall d :: d in calls[..n] ==> d in calls;
      NoUnsafePrefix(calls);
      var hs0 := CallsTell(ds, l, calls[..n]);
      var before := Calls(ds, l, calls[..n]);
      IsReady(ds, |l.rows|, calls, before, hs0);
      hs := CallTracks(ds, before, calls[..n], hs0, c, |c|);
      RowsOnlyGrow(before, Batch(ds, c));
      AllToldNext(ds, |l.rows|, calls, before, Calls(ds, l, calls), hs0, hs);
      if LegsAlone(calls) {
        forall i: nat | OneOwns(hs0, i)
          ensures OneOwns(hs, i)
        {
          OwnedLater(ds, calls[..n], c, |before.rows|, hs0, hs, i);
        }
        OnlyTheirsOn(l.rows, before.rows, Calls(ds, l, calls).rows, hs0, hs);
      }
    }
  }

  lemma NoUnsafePrefix(calls: seq<Call>)
    requires SafeCalls(calls) && calls != []
    ensures SafeCalls(calls[..|calls| - 1])
  {
  }

  // ---- what that comes to --------------------------------------------------------------------------

  /** Once both sources have come: the first source's copy, carrying the other's id or date. */
  predicate Paired(d: Dust, fromApi: bool, out: bool, stamp: Option<Time>, r: Item) {
    if fromApi then
      stamp in {d.fileOut.at, d.fileIn.at} && stamp.Some? && r == Stamped(Stored(Leg(d, true, out)), stamp.value)
    else r == WithId(Stored(Leg(d, false, out)), IdOf(d, out))
  }

  /** Both rows carry the pairing, and one date where it is a date. */
  predicate BothPaired(d: Dust, fromApi: bool, rows: seq<Item>, at: map<bool, nat>) {
    && true in at && false in at && at[true] < |rows| && at[false] < |rows|
    && var stamp := rows[at[true]].raw.twin;
       Paired(d, fromApi, true, stamp, rows[at[true]]) && Paired(d, fromApi, false, stamp, rows[at[false]])
  }

  /**
   From row `first` on there is one row for each leg seen, the copy of the source that came first, in the order in
   which its legs came; and once both sources have come there are both, and both carry the pairing.
   */
  predicate OneRowEach(d: Dust, calls: seq<Call>, v: nat, rows: seq<Item>, first: nat, at: map<bool, nat>) {
    && (forall out :: out in at <==> SeenLeg(calls, v, true, out) || SeenLeg(calls, v, false, out))
    && (forall out :: out in at ==> first <= at[out] < |rows|)
    && (true in at && false in at ==> at[true] != at[false])
    && match LeadOf(calls, v)
       case None => at == map[]
       case Some(x) =>
         && (true in at && false in at ==> at[x.out] < at[!x.out])
         && if SeenBy(calls, v, true) && SeenBy(calls, v, false) then BothPaired(d, x.fromApi, rows, at)
            else forall out :: out in at ==> rows[at[out]] == Stored(Leg(d, x.fromApi, out))
  }

  lemma HeldIsOneRowEach(d: Dust, calls: seq<Call>, v: nat, l: Ledger, first: nat, h: Held)
    requires Described(d) && Tracks(d, l, h) && Told(calls, v, h) && forall out :: out in h.at ==> h.at[out] >= first
    ensures OneRowEach(d, calls, v, l.rows, first, h.at)
  {
    hide Described, Clashes, SeenLeg, Stored, Leg, IdOf, LeadOf, Paired, BothPaired;
    if LeadOf(calls, v).Some? {
      if SeenBy(calls, v, true) && SeenBy(calls, v, false) {
        HeldIsPaired(d, l, h, LeadOf(calls, v).value);
      }
    } else {
      assert h.at == map[];
    }
  }

  lemma HeldIsPaired(d: Dust, l: Ledger, h: Held, x: Lead)
    requires Tracks(d, l, h) && LedBy(h, Some(x)) && ByApi(h.s) && ByFile(h.s)
    ensures BothPaired(d, x.fromApi, l.rows, h.at)
  {
    hide Clashes, Stored, Leg, IdOf;
  }

  /** A conversion's own row could be taken for one of its copies, so it is no other conversion's. */
  lemma OwnClashes(d: Dust, s: Status, own: bool)
    requires Described(d) && s != Unseen
    ensures Clashes(d, RowOf(d, s, own))
  {
    OwnIsFree(d, s, own);
    RowNames(d, s, own, own);
  }

  lemma RowIsAStrangerToo(d: Dust, u: Dust, s: Status, own: bool)
    requires Described(u) && s != Unseen && Stranger(d, Leg(u, true, own)) && Stranger(d, Leg(u, false, own))
    ensures !Clashes(d, RowOf(u, s, own))
  {
    hide Described, Clashes, Stored, ConversionId;
    match s
    case FileOnly =>
    case ApiOnly =>
    case Marked(at) => StampedStands(d, Stored(Leg(u, true, own)), at);
    case Taken =>
      FileLegHasNoId(u, own);
      ApiLegIsAlike(u, own);
      StrangerNamesNone(d, Leg(u, true, own));
      WithIdStands(d, Stored(Leg(u, false, own)), IdOf(u, own), IdsOf(Leg(u, true, own)));
  }

  lemma NoSharedRow(ds: seq<Dust>, l: Ledger, hs: seq<Held>, v: nat, w: nat, i: nat)
    requires World(ds) && AllTracked(ds, l, hs) && v < |ds| && w < |ds| && v != w && Owns(hs[v], i)
    ensures !Owns(hs[w], i)
  {
    hide Described, Clashes, RowOf, Stranger;
    IsDescribed(ds, v);
    IsDescribed(ds, w);
    if Owns(hs[w], i) {
      var x := OwnIsRow(ds[v], l, hs[v], i);
      var y := OwnIsRow(ds[w], l, hs[w], i);
      OwnClashes(ds[v], hs[v].s, x);
      RowIsAStrangerToo(ds[v], ds[w], hs[w].s, y);
    }
  }

  /** The rows of all the conversions, no row of two of them, and no other row that could be taken for one of theirs. */
  ghost predicate AllApart(ds: seq<Dust>, calls: seq<Call>, rows: seq<Item>, first: nat, ats: seq<map<bool, nat>>) {
    && |ats| == |ds|
    && (forall v :: 0 <= v < |ds| ==> OneRowEach(ds[v], calls, v, rows, first, ats[v]))
    && (forall v, w, i: nat :: 0 <= v < |ds| && 0 <= w < |ds| && HasRow(ats[v], i) && HasRow(ats[w], i) ==> v == w)
    && (forall v, i :: 0 <= v < |ds| && 0 <= i < |rows| && !HasRow(ats[v], i) ==> !Clashes(ds[v], rows[i]))
  }

  lemma ToldIsApart(ds: seq<Dust>, calls: seq<Call>, l: Ledger, first: nat, hs: seq<Held>, ats: seq<map<bool, nat>>)
    requires World(ds) && AllTold(ds, first, calls, l, hs)
    requires |ats| == |hs| && forall v :: 0 <= v < |hs| ==> ats[v] == hs[v].at
    ensures AllApart(ds, calls, l.rows, first, ats)
  {
    hide World, Told, Described, Clashes, RowOf, OneRowEach;
    forall v | 0 <= v < |ds|
      ensures OneRowEach(ds[v], calls, v, l.rows, first, ats[v])
    {
      IsDescribed(ds, v);
      HeldIsOneRowEach(ds[v], calls, v, l, first, hs[v]);
    }
    forall v, w, i: nat | 0 <= v < |ds| && 0 <= w < |ds| && HasRow(ats[v], i) && HasRow(ats[w], i)
      ensures v == w
    {
      if v != w {
        NoSharedRow(ds, l, hs, v, w, i);
      }
    }
    forall v, i | 0 <= v < |ds| && 0 <= i < |l.rows| && !HasRow(ats[v], i)
      ensures !Clashes(ds[v], l.rows[i])
    {
      OthersStand(ds[v], l, hs[v], i);
    }
  }

  /**
   Any safe calls, in any order and with any repeats, carrying the legs of several conversions and whatever else is
   no leg of them, on any ledger that holds nothing of them: each leg seen has exactly one row, each conversion that
   both sources have shown is two, paired whole, and no other row could be taken for one of theirs. Where calls carry
   nothing else, nothing else is added and the rows that were there are as they were.
   */
  lemma Converges(ds: seq<Dust>, l: Ledger, calls: seq<Call>)
    requires World(ds) && ValidCalls(ds, calls) && SafeCalls(calls)
    requires forall v :: 0 <= v < |ds| ==> Foreign(l, ds[v])
    ensures var end := Calls(ds, l, calls).rows;
            exists ats :: AllApart(ds, calls, end, |l.rows|, ats) &&
              (LegsAlone(calls) ==>
                |l.rows| <= |end| && end[..|l.rows|] == l.rows && forall i :: |l.rows| <= i < |end| ==> OneHas(ats, i))
  {
    hide World, Calls, AllApart, Told, Tracks;
    var hs := CallsTell(ds, l, calls);
    var end, ats := Calls(ds, l, calls).rows, seq(|hs|, v requires 0 <= v < |hs| => hs[v].at);
    ToldIsApart(ds, calls, Calls(ds, l, calls), |l.rows|, hs, ats);
    if LegsAlone(calls) {
      forall i | 0 <= i < |l.rows|
        ensures !OneOwns(hs, i)
      {
      }
      forall i | |l.rows| <= i < |end|
        ensures OneHas(ats, i)
      {
        assert OneOwns(hs, i);
        var v :| 0 <= v < |hs| && Owns(hs[v], i);
        assert HasRow(ats[v], i);
      }
    }
    assert AllApart(ds, calls, end, |l.rows|, ats);
  }
}
