/** Exactly which calls converge: those in which no source shows a conversion while it stands one leg short. */
module DustExactly {
  import opened Prelude
  import opened LedgerRows
  import opened LedgerStore
  import opened DustConvergence
  import opened DustStrangers
  import opened DustCalls

  // ---- rows stay -----------------------------------------------------------------------------------

  /** A stored row only ever gains an id, if it has none, or a stamp. */
  predicate Kept(r: Item, r': Item) {
    && r' == r.(txId := r'.txId, raw := r.raw.(twin := r'.raw.twin))
    && (r.txId.Some? ==> r'.txId == r.txId)
  }

  ghost predicate RowsKept(rows: seq<Item>, rows': seq<Item>) {
    |rows| <= |rows'| && forall i :: 0 <= i < |rows| ==> Kept(rows[i], rows'[i])
  }

  lemma RowsKeptOn(a: seq<Item>, b: seq<Item>, c: seq<Item>)
    requires RowsKept(a, b) && RowsKept(b, c)
    ensures RowsKept(a, c)
  {
    forall i | 0 <= i < |a|
      ensures Kept(a[i], c[i])
    {
      assert Kept(a[i], b[i]) && Kept(b[i], c[i]);
    }
  }

  lemma ApiDustKeeps(rows: seq<Item>, base: nat, e: Item, tx: string, repeat: nat)
    requires base <= |rows|
    ensures RowsKept(rows, ApiDustTwin(rows, base, e, tx, repeat).rows)
  {
    hide Counted, FreeDustLeg, ConversionOf, TakeBoth, ConversionId;
    if e.at.Some? && |FreeDust(rows, e)| == 1 {
      var l := FreeDust(rows, e)[0];
      assert l in FreeDust(rows, e);
      FreeLegs(rows, e, l);
      TakeKeeps(rows, l, ConversionId(tx));
    }
  }

  lemma TakeKeeps(rows: seq<Item>, l: Legs, id: string)
    requires l.out < |rows| && l.into < |rows| && l.out != l.into && rows[l.out].txId.None? && rows[l.into].txId.None?
    ensures RowsKept(rows, TakeBoth(rows, l, id))
  {
  }

  lemma ApiTransferKeeps(rows: seq<Item>, base: nat, e: Item, tx: string, repeat: nat)
    requires base <= |rows|
    ensures RowsKept(rows, ApiTransferTwin(rows, base, e, tx, repeat).rows)
  {
    hide Counted, Pairs;
    var free := FreeFileRows(rows, e);
    if |free| == 1 {
      assert free[0] in free && FreeFileRow(e, rows[free[0]]);
    }
  }

  lemma FileDustKeeps(rows: seq<Item>, base: nat, batch: seq<Item>, i: nat, repeat: nat)
    requires base <= |rows| && i < |batch|
    ensures RowsKept(rows, FileDustTwin(rows, base, batch, i, repeat).rows)
  {
    hide Counted, ConversionTwinned, TheConversion, TheGroup;
  }

  lemma FileTransferKeeps(rows: seq<Item>, base: nat, batch: seq<Item>, i: nat, repeat: nat)
    requires base <= |rows| && i < |batch|
    ensures RowsKept(rows, FileTransferTwin(rows, base, batch, i, repeat).rows)
  {
    hide Counted, Twinned, ApiRowFor, Rivals;
    var free := FreeApiRows(rows, batch[i]);
    if |free| == 1 {
      assert free[0] in free;
    }
  }

  lemma StepKeeps(p: Progress, base: nat, batch: seq<Item>, i: nat)
    requires base <= |p.ledger.rows| && i < |batch|
    ensures RowsKept(p.ledger.rows, Step(p, base, batch, i).ledger.rows)
  {
    hide ApiDustTwin, ApiTransferTwin, FileDustTwin, FileTransferTwin, KnownId, Counted, SettledByOldReading, Stored,
         Saves, ApiDust, ApiTransfer, FileDust, FileTransfer;
    var l, e, repeat := p.ledger, batch[i], Repeat(p, batch[i]);
    if Present(e.txId) {
      ApiDustKeeps(l.rows, base, e, e.txId.value, repeat);
      ApiTransferKeeps(l.rows, base, e, e.txId.value, repeat);
    } else {
      FileDustKeeps(l.rows, base, batch, i, repeat);
      FileTransferKeeps(l.rows, base, batch, i, repeat);
    }
    var v := Duplicate(l, base, batch, i, repeat);
    assert RowsKept(l.rows, v.rows) && |v.rows| == |l.rows|;
  }

  lemma {:induction false} RunKeeps(l: Ledger, batch: seq<Item>, m: nat, n: nat)
    requires m <= n <= |batch|
    ensures RowsKept(After(l, batch, m).ledger.rows, After(l, batch, n).ledger.rows)
  {
    hide Step;
    if m < n {
      RunKeeps(l, batch, m, n - 1);
      StepKeeps(After(l, batch, n - 1), |l.rows|, batch, n - 1);
      RowsKeptOn(After(l, batch, m).ledger.rows, After(l, batch, n - 1).ledger.rows, After(l, batch, n).ledger.rows);
    }
  }

  // ---- a leg that pairs with nothing ---------------------------------------------------------------

  /** A stored leg stays one of the conversion's, whatever comes. */
  lemma KeptClashes(d: Dust, fromApi: bool, out: bool, r: Item)
    requires Described(d) && Kept(Stored(Leg(d, fromApi, out)), r)
    ensures Clashes(d, r) && (r.raw.transfered.Some? <==> fromApi)
  {
    if fromApi {
      ApiLegIsAlike(d, out);
    } else {
      KeptFileClashes(d, out, r);
    }
  }

  lemma KeptFileClashes(d: Dust, out: bool, r: Item)
    requires Described(d) && Kept(Stored(Leg(d, false, out)), r)
    ensures Clashes(d, r) && r.raw.transfered.None?
  {
    hide FreeDustLeg, ConversionOf;
    FileLegHasNoId(d, out);
    assert NearBy(Leg(d, false, out), r) by {
      FileLegIsAlike(d, out);
    }
  }

  lemma PairedIsOfOneSource(d: Dust, fromApi: bool, rows: seq<Item>, at: map<bool, nat>, i: nat)
    requires Described(d) && BothPaired(d, fromApi, rows, at) && HasRow(at, i)
    ensures i < |rows| && (rows[i].raw.transfered.Some? <==> fromApi)
  {
  }

  /** With a row from each source the conversion has not converged, whichever rows are taken for its own. */
  lemma TwoSourcesAreNotOne(d: Dust, calls: seq<Call>, v: nat, rows: seq<Item>, first: nat, at: map<bool, nat>, p: nat,
                            q: nat)
    requires Described(d) && p < |rows| && q < |rows| && Clashes(d, rows[p]) && Clashes(d, rows[q])
    requires rows[p].raw.transfered.Some? && rows[q].raw.transfered.None?
    requires SeenBy(calls, v, true) && SeenBy(calls, v, false) && OneRowEach(d, calls, v, rows, first, at)
    ensures !(HasRow(at, p) && HasRow(at, q))
  {
    hide Described, Clashes, SeenBy, BothPaired, Stored, Leg;
    if HasRow(at, p) && HasRow(at, q) {
      PairedIsOfOneSource(d, LeadOf(calls, v).value.fromApi, rows, at, p);
      PairedIsOfOneSource(d, LeadOf(calls, v).value.fromApi, rows, at, q);
    }
  }

  /** After the first k calls each leg seen has its row, and no other row could be one of theirs. */
  ghost predicate ConvergedAfter(ds: seq<Dust>, l: Ledger, calls: seq<Call>, k: nat)
    requires k <= |calls|
  {
    ValidCalls(ds, calls[..k]) && exists ats :: AllApart(ds, calls[..k], Calls(ds, l, calls[..k]).rows, |l.rows|, ats)
  }

  /** The second source's leg at m is the first of its conversion in the call, and may not come. */
  ghost predicate UnsafeAt(calls: seq<Call>, c: Call, m: nat) {
    && m < |c| && c[m].Copy? && !SafeNext(calls, c, c[m].v, c[m].fromApi)
    && forall j :: 0 <= j < m && c[j].Copy? ==> SafeNext(calls, c, c[j].v, c[j].fromApi)
  }

  lemma {:induction false} FirstUnsafe(calls: seq<Call>, c: Call, n: nat) returns (m: nat)
    requires n < |c| && c[n].Copy? && !SafeNext(calls, c, c[n].v, c[n].fromApi)
    ensures UnsafeAt(calls, c, m)
  {
    if j :| 0 <= j < n && c[j].Copy? && !SafeNext(calls, c, c[j].v, c[j].fromApi) {
      m := FirstUnsafe(calls, c, j);
    } else {
      m := n;
    }
  }

  /** Until it comes, the call has shown nothing of its conversion. */
  lemma NothingShownYet(ds: seq<Dust>, calls: seq<Call>, c: Call, m: nat, base: nat, h: Held, h1: Held)
    requires ValidCall(ds, c) && UnsafeAt(calls, c, m) && Grown(c, m, c[m].v, base, h, h1)
    ensures (ByApi(h1.s) <==> ByApi(h.s)) && (ByFile(h1.s) <==> ByFile(h.s))
    ensures forall out :: out in h1.at <==> out in h.at
  {
    NotShownByOther(ds, c, m);
    var v, fromApi := c[m].v, c[m].fromApi;
    forall out
      ensures Copy(v, fromApi, out) !in c[..m]
    {
      forall j | 0 <= j < m
        ensures c[j] != Copy(v, fromApi, out)
      {
      }
    }
  }

  /** The batch holds no export leg of the conversion but the one at m. */
  lemma OnlyThisLeg(ds: seq<Dust>, c: Call, m: nat, own: bool)
    requires World(ds) && ValidCall(ds, c) && m < |c| && c[m].Copy? && !c[m].fromApi && c[m].v < |ds|
    requires Copy(c[m].v, false, !c[m].out) !in c
    ensures forall j :: 0 <= j < |c| && BatchLeg(RowOf(ds[c[m].v], ApiOnly, own), Batch(ds, c)[j]) ==>
              Batch(ds, c)[j] == Batch(ds, c)[m]
  {
    var v := c[m].v;
    forall j | 0 <= j < |c| && BatchLeg(RowOf(ds[v], ApiOnly, own), Batch(ds, c)[j])
      ensures Batch(ds, c)[j] == Batch(ds, c)[m]
    {
      if c[j].Copy? && c[j].v == v {
        assert c[j].fromApi == c[m].fromApi && c[j] in c;
        assert c[j] == Copy(v, false, c[m].out);
      } else {
        IsStranger(ds, c, j, v);
        IsDescribed(ds, v);
        StrangerIsNoBatchLeg(ds[v], Batch(ds, c)[j], own);
      }
    }
  }

  lemma StrangerIsNoBatchLeg(d: Dust, e: Item, own: bool)
    requires Described(d) && Stranger(d, e)
    ensures !BatchLeg(RowOf(d, ApiOnly, own), e)
  {
    ApiLegIsAlike(d, own);
  }

  /** So it is stored beside the other source's row. */
  lemma UnsafeLegIsStored(ds: seq<Dust>, l: Ledger, calls: seq<Call>, c: Call, m: nat, h: Held, h1: Held)
    requires World(ds) && ValidCall(ds, c) && UnsafeAt(calls, c, m) && c[m].v < |ds| && Told(calls, c[m].v, h)
    requires Grown(c, m, c[m].v, |l.rows|, h, h1) && Tracks(ds[c[m].v], After(l, Batch(ds, c), m).ledger, h1)
    ensures var d, p := ds[c[m].v], After(l, Batch(ds, c), m).ledger;
            && After(l, Batch(ds, c), m + 1).ledger.rows == p.rows + [Stored(Leg(d, c[m].fromApi, c[m].out))]
            && h1.s == (if c[m].fromApi then FileOnly else ApiOnly) && (true in h1.at || false in h1.at)
  {
    hide Described, Tracks, Grown, World, LedBy, ValidCall, Duplicate, Stored;
    var v, fromApi, out := c[m].v, c[m].fromApi, c[m].out;
    var d, batch := ds[v], Batch(ds, c);
    var p := After(l, batch, m);
    IsDescribed(ds, v);
    NothingShownYet(ds, calls, c, m, |l.rows|, h, h1);
    HeldByOther(calls, c, m, h, h1);
    if !Whole(h1) {
      OneLegPairsWithNothing(d, p.ledger, h1, |l.rows|, batch, m, fromApi, out, Repeat(p, batch[m]));
    } else {
      ShowsOne(c, m);
      OnlyThisLeg(ds, c, m, true);
      OnlyThisLeg(ds, c, m, false);
      LoneExportLegIsStored(d, p.ledger, h1, |l.rows|, batch, m, out, Repeat(p, batch[m]));
    }
    ApiLegIsAlike(d, out);
    FileLegIsAlike(d, out);
  }

  lemma HeldByOther(calls: seq<Call>, c: Call, m: nat, h: Held, h1: Held)
    requires UnsafeAt(calls, c, m) && Told(calls, c[m].v, h)
    requires (ByApi(h1.s) <==> ByApi(h.s)) && (ByFile(h1.s) <==> ByFile(h.s))
    requires forall out :: out in h1.at <==> out in h.at
    ensures h1.s == (if c[m].fromApi then FileOnly else ApiOnly) && (true in h1.at || false in h1.at)
    ensures Whole(h1) ==> !c[m].fromApi && !(Copy(c[m].v, false, true) in c && Copy(c[m].v, false, false) in c)
  {
    hide LedBy;
  }

  lemma ShowsOne(c: Call, m: nat)
    requires m < |c| && c[m].Copy? && !c[m].fromApi
    requires !(Copy(c[m].v, false, true) in c && Copy(c[m].v, false, false) in c)
    ensures Copy(c[m].v, false, !c[m].out) !in c
  {
    assert c[m] == Copy(c[m].v, false, c[m].out) && c[m] in c;
  }

  // ---- exactly when --------------------------------------------------------------------------------

  /** The first n entries of a safe call, or of a call that is safe so far, after safe calls. */
  lemma PrefixTold(ds: seq<Dust>, l: Ledger, calls: seq<Call>, c: Call, n: nat) returns (hs: seq<Held>, hs': seq<Held>)
    requires World(ds) && ValidCalls(ds, calls) && SafeCalls(calls) && ValidCall(ds, c) && n <= |c|
    requires forall v :: 0 <= v < |ds| ==> Foreign(l, ds[v])
    requires forall m :: 0 <= m < n && c[m].Copy? ==> SafeNext(calls, c, c[m].v, c[m].fromApi)
    ensures var l0 := Calls(ds, l, calls);
            && |hs| == |ds| && (forall v :: 0 <= v < |ds| ==> Told(calls, v, hs[v]))
            && AllTracked(ds, After(l0, Batch(ds, c), n).ledger, hs')
            && CallTold(ds, calls, c, n, |l0.rows|, hs, hs')
  {
    hide World, Tracks, Told, SafeNext, SafeCalls, ValidCall, Foreign, Store, Calls, OnlyTheirs, CallTold;
    hs := CallsTell(ds, l, calls);
    hs' := CallTracks(ds, Calls(ds, l, calls), calls, hs, c, n);
  }

  lemma CallsAppend(ds: seq<Dust>, l: Ledger, calls: seq<Call>, c: Call)
    requires ValidCalls(ds, calls + [c])
    ensures ValidCalls(ds, calls) && ValidCall(ds, c)
    ensures Calls(ds, l, calls + [c]) == After(Calls(ds, l, calls), Batch(ds, c), |c|).ledger
  {
    hide ValidCall;
    var all := calls + [c];
    assert all[..|all| - 1] == calls && all[|all| - 1] == c && c in all;
    assert forall d :: d in calls ==> d in all;
  }

  lemma KeptAt(rows: seq<Item>, rows': seq<Item>, i: nat)
    requires RowsKept(rows, rows') && i < |rows|
    ensures i < |rows'| && Kept(rows[i], rows'[i])
  {
  }

  /** Both sources' rows stand there after an unsafe call. */
  lemma BothSourcesStand(ds: seq<Dust>, l: Ledger, calls: seq<Call>, c: Call, m: nat) returns (p: nat, q: nat)
    requires World(ds) && ValidCalls(ds, calls + [c]) && SafeCalls(calls) && UnsafeAt(calls, c, m)
    requires forall v :: 0 <= v < |ds| ==> Foreign(l, ds[v])
    ensures c[m].v < |ds|
    ensures var d, rows := ds[c[m].v], Calls(ds, l, calls + [c]).rows;
            && p < |rows| && q < |rows| && Clashes(d, rows[p]) && Clashes(d, rows[q])
            && rows[p].raw.transfered.Some? && rows[q].raw.transfered.None?
  {
    hide World, Described, Tracks, Told, SafeNext, SafeCalls, ValidCall, Foreign, Calls, Clashes, Kept, Stored, Leg,
         RowsKept, Step;
    CallsAppend(ds, l, calls, c);
    EntryInRange(ds, c, m);
    var v, fromApi, out := c[m].v, c[m].fromApi, c[m].out;
    IsDescribed(ds, v);
    var d, l0, batch := ds[v], Calls(ds, l, calls), Batch(ds, c);
    var hs, hs1 := PrefixTold(ds, l, calls, c, m);
    TrackedAt(ds, After(l0, batch, m).ledger, hs1, v);
    UnsafeLegIsStored(ds, l0, calls, c, m, hs[v], hs1[v]);
    RunKeeps(l0, batch, m + 1, |c|);
    var before, rows := After(l0, batch, m + 1).ledger.rows, Calls(ds, l, calls + [c]).rows;
    var n := After(l0, batch, m).ledger.rows;
    var x := true in hs1[v].at;
    var i := hs1[v].at[x];
    OwnRowAt(d, After(l0, batch, m).ledger, hs1[v], x);
    assert before[i] == n[i] && before[|n|] == Stored(Leg(d, fromApi, out));
    KeptAt(before, rows, i);
    KeptAt(before, rows, |n|);
    KeptClashes(d, !fromApi, x, rows[i]);
    KeptClashes(d, fromApi, out, rows[|n|]);
    p, q := if fromApi then |n| else i, if fromApi then i else |n|;
  }

  lemma OwnRowAt(d: Dust, l: Ledger, h: Held, x: bool)
    requires Tracks(d, l, h) && x in h.at && h.s in {FileOnly, ApiOnly}
    ensures h.at[x] < |l.rows| && l.rows[h.at[x]] == Stored(Leg(d, h.s == ApiOnly, x))
  {
    hide Clashes;
  }

  lemma EntryInRange(ds: seq<Dust>, c: Call, m: nat)
    requires ValidCall(ds, c) && m < |c| && c[m].Copy?
    ensures c[m].v < |ds|
  {
    assert ValidEntry(ds, c[m]);
  }

  lemma UnsafeIsSeenByBoth(calls: seq<Call>, c: Call, m: nat)
    requires UnsafeAt(calls, c, m)
    ensures SeenBy(calls + [c], c[m].v, true) && SeenBy(calls + [c], c[m].v, false)
  {
    var all, v, fromApi := calls + [c], c[m].v, c[m].fromApi;
    assert all[..|all| - 1] == calls && all[|all| - 1] == c;
    assert c[m] in c && c[m] == Copy(v, fromApi, c[m].out);
    forall from, out
      ensures SeenLeg(all, v, from, out) <==> SeenLeg(calls, v, from, out) || Copy(v, from, out) in c
    {
      SeenLast(all, v, from, out);
    }
  }

  /** After an unsafe call a conversion has a row from each source. */
  lemma UnsafeCallStoresBoth(ds: seq<Dust>, l: Ledger, calls: seq<Call>, c: Call, m: nat, ats: seq<map<bool, nat>>)
    requires World(ds) && ValidCalls(ds, calls + [c]) && SafeCalls(calls) && UnsafeAt(calls, c, m)
    requires forall v :: 0 <= v < |ds| ==> Foreign(l, ds[v])
    ensures !AllApart(ds, calls + [c], Calls(ds, l, calls + [c]).rows, |l.rows|, ats)
  {
    hide World, Described, SafeNext, SafeCalls, ValidCalls, Foreign, Calls, Clashes, OneRowEach, SeenBy, HasRow;
    var p, q := BothSourcesStand(ds, l, calls, c, m);
    UnsafeIsSeenByBoth(calls, c, m);
    var v, rows := c[m].v, Calls(ds, l, calls + [c]).rows;
    IsDescribed(ds, v);
    if AllApart(ds, calls + [c], rows, |l.rows|, ats) {
      assert OneRowEach(ds[v], calls + [c], v, rows, |l.rows|, ats[v]);
      TwoSourcesAreNotOne(ds[v], calls + [c], v, rows, |l.rows|, ats[v], p, q);
    }
  }

  lemma {:induction false} FirstUnsafeCall(calls: seq<Call>) returns (k: nat, m: nat)
    requires !SafeCalls(calls)
    ensures k < |calls| && SafeCalls(calls[..k]) && UnsafeAt(calls[..k], calls[k], m)
  {
    hide SafeNext;
    var n := |calls| - 1;
    if !SafeCalls(calls[..n]) {
      k, m := FirstUnsafeCall(calls[..n]);
      assert calls[..n][..k] == calls[..k];
    } else {
      k := n;
      var v, fromApi :| !SafeNext(calls[..n], calls[n], v, fromApi);
      m := UnsafeEntry(calls[..n], calls[n], v, fromApi);
    }
  }

  lemma UnsafeEntry(calls: seq<Call>, c: Call, v: nat, fromApi: bool) returns (m: nat)
    requires !SafeNext(calls, c, v, fromApi)
    ensures UnsafeAt(calls, c, m)
  {
    var j := PlaceOf(c, Copy(v, fromApi, Copy(v, fromApi, true) in c));
    m := FirstUnsafe(calls, c, j);
  }

  lemma {:induction false} SafePrefix(calls: seq<Call>, k: nat)
    requires SafeCalls(calls) && k <= |calls|
    ensures SafeCalls(calls[..k])
  {
    hide SafeNext;
    var n := |calls| - 1;
    if k == |calls| {
      assert calls[..k] == calls;
    } else {
      SafePrefix(calls[..n], k);
      assert calls[..n][..k] == calls[..k];
    }
  }

  lemma ValidPrefix(ds: seq<Dust>, calls: seq<Call>, k: nat)
    requires ValidCalls(ds, calls) && k <= |calls|
    ensures ValidCalls(ds, calls[..k])
  {
    hide ValidCall;
    assert forall c :: c in calls[..k] ==> c in calls;
  }

  /**
   From any ledger that holds nothing of them, the conversions have one row for each leg seen, paired once both
   sources have come, after every one of a sequence of calls, if and only if all the calls are safe.
   */
  lemma ConvergesExactlyWhen(ds: seq<Dust>, l: Ledger, calls: seq<Call>)
    requires World(ds) && ValidCalls(ds, calls) && forall v :: 0 <= v < |ds| ==> Foreign(l, ds[v])
    ensures (forall k :: 0 <= k <= |calls| ==> ConvergedAfter(ds, l, calls, k)) <==> SafeCalls(calls)
  {
    hide World, ValidCalls, SafeCalls, Foreign, AllApart, Calls, UnsafeAt, ValidCall;
    if SafeCalls(calls) {
      forall k | 0 <= k <= |calls|
        ensures ConvergedAfter(ds, l, calls, k)
      {
        ValidPrefix(ds, calls, k);
        SafePrefix(calls, k);
        Converges(ds, l, calls[..k]);
      }
    } else {
      var k, m := FirstUnsafeCall(calls);
      ValidPrefix(ds, calls, k + 1);
      var some := calls[..k + 1];
      assert some == calls[..k] + [calls[k]];
      forall ats
        ensures !AllApart(ds, some, Calls(ds, l, some).rows, |l.rows|, ats)
      {
        UnsafeCallStoresBoth(ds, l, calls[..k], calls[k], m, ats);
      }
      assert !ConvergedAfter(ds, l, calls, k + 1);
    }
  }
}
