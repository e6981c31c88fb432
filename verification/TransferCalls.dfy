/** Any sequence of safe calls over such transfers and strangers converges. */
module TransferCalls {
  import opened Prelude
  import opened LedgerRows
  import opened LedgerStore
  import opened TransferConvergence

  // ---- strangers -----------------------------------------------------------------------------------

  /** A stamp says nothing of whose row it is. */
  lemma StampedClashes(t: Transfer, r: Item, at: Time)
    ensures Clashes(t, Stamped(r, at)) <==> Clashes(t, r)
  {
  }

  /** Nor does an id, unless it is the transfer's. */
  lemma WithIdClashes(t: Transfer, r: Item, id: string)
    requires !Clashes(t, r) && r.txId.None? && NamesNone(t, {id})
    ensures !Clashes(t, WithId(r, id))
  {
  }

  lemma StampedStands(events: seq<Transfer>, r: Item, at: Time)
    requires Bystander(events, r)
    ensures Bystander(events, Stamped(r, at))
  {
    forall v | 0 <= v < |events|
      ensures !Clashes(events[v], Stamped(r, at))
    {
      StampedClashes(events[v], r, at);
    }
  }

  lemma WithIdStands(events: seq<Transfer>, r: Item, id: string, ids: set<string>)
    requires Bystander(events, r) && r.txId.None? && id in ids
    requires forall v :: 0 <= v < |events| ==> NamesNone(events[v], ids)
    ensures Bystander(events, WithId(r, id))
  {
    forall v | 0 <= v < |events|
      ensures !Clashes(events[v], WithId(r, id))
    {
      WithIdClashes(events[v], r, id);
    }
  }

  /** A row of a transfer is no swap leg. */
  lemma LegsAreNotTracked(events: seq<Transfer>, l: Ledger, st: seq<Status>, at: map<nat, nat>, i: nat)
    requires World(events) && Tracks(events, l, st, at) && i < |l.rows| && IsDustLeg(l.rows[i].kind)
    ensures i !in at.Values
  {
    if i in at.Values {
      var v :| v in at && at[v] == i;
      RowIsATransfer(events[v], st[v]);
    }
  }

  lemma RowIsATransfer(t: Transfer, s: Status)
    requires Agrees(t) && s != Unseen && Fits(t, s)
    ensures !IsDustLeg(RowOf(t, s).kind)
  {
  }

  /** Two bystanders change at once. */
  lemma LegsChanged(events: seq<Transfer>, l: Ledger, st: seq<Status>, at: map<nat, nat>, i: nat, j: nat, r: Item,
                    q: Item)
    requires World(events) && Tracks(events, l, st, at) && i < |l.rows| && j < |l.rows|
    requires i !in at.Values && j !in at.Values && Bystander(events, r) && Bystander(events, q)
    ensures Tracks(events, l.(rows := l.rows[i := r][j := q]), st, at)
  {
    hide Tracks, Bystander;
    BystanderChanged(events, l, st, at, i, r);
    BystanderChanged(events, l.(rows := l.rows[i := r]), st, at, j, q);
  }

  lemma UntrackedStands(events: seq<Transfer>, l: Ledger, st: seq<Status>, at: map<nat, nat>, i: nat)
    requires World(events) && Tracks(events, l, st, at) && i < |l.rows| && i !in at.Values
    ensures Bystander(events, l.rows[i])
  {
  }

  lemma StrangerTakesDust(events: seq<Transfer>, l: Ledger, st: seq<Status>, at: map<nat, nat>, base: nat, e: Item,
                          repeat: nat)
    requires World(events) && Tracks(events, l, st, at) && Stranger(events, e) && Present(e.txId) && base <= |l.rows|
    ensures Tracks(events, l.(rows := ApiDustTwin(l.rows, base, e, e.txId.value, repeat).rows), st, at)
  {
    hide Tracks, Bystander, Counted, FreeDustLeg;
    var id := ConversionId(e.txId.value);
    if e.at.Some? && |FreeDust(l.rows, e)| == 1 && !HasId(l.rows, id + "-out") && !HasId(l.rows, id + "-in") {
      var legs := FreeDust(l.rows, e)[0];
      assert legs in FreeDust(l.rows, e);
      FreeLegsAreIdLess(l.rows, e, legs);
      LegsAreNotTracked(events, l, st, at, legs.out);
      LegsAreNotTracked(events, l, st, at, legs.into);
      UntrackedStands(events, l, st, at, legs.out);
      UntrackedStands(events, l, st, at, legs.into);
      StrangerNamesNone(events, e);
      WithIdStands(events, l.rows[legs.out], id + "-out", IdsOf(e));
      WithIdStands(events, l.rows[legs.into], id + "-in", IdsOf(e));
      LegsChanged(events, l, st, at, legs.out, legs.into,
                  WithId(l.rows[legs.out], id + "-out"), WithId(l.rows[legs.into], id + "-in"));
    }
  }

  lemma FreeLegsAreIdLess(rows: seq<Item>, e: Item, l: Legs)
    requires e.at.Some? && l in FreeDust(rows, e)
    ensures l.out < |rows| && l.into < |rows| && rows[l.out].txId.None? && rows[l.into].txId.None?
    ensures rows[l.out].kind == SwapOut && rows[l.into].kind == SwapIn
  {
  }

  lemma StrangerNamesNone(events: seq<Transfer>, e: Item)
    requires Stranger(events, e)
    ensures forall v :: 0 <= v < |events| ==> NamesNone(events[v], IdsOf(e)) && NamesNone(events[v], e.raw.mergedIds)
  {
    assert forall v :: 0 <= v < |events| ==> NamesNone(events[v], e.raw.mergedIds + IdsOf(e));
  }

  lemma StrangerStampsDust(events: seq<Transfer>, l: Ledger, st: seq<Status>, at: map<nat, nat>,
                           base: nat, batch: seq<Item>, i: nat, repeat: nat)
    requires World(events) && Tracks(events, l, st, at) && base <= |l.rows| && i < |batch|
    ensures Tracks(events, l.(rows := FileDustTwin(l.rows, base, batch, i, repeat).rows), st, at)
  {
    hide Tracks, Bystander, Counted, ConversionTwinned, TheGroup, TheConversion;
    var e := batch[i];
    if e.at.Some? && TheConversion(l.rows, e).Some? {
      var legs := TheConversion(l.rows, e).value;
      TheConversionIsWhole(l.rows, e);
      LegsAreNotTracked(events, l, st, at, legs.out);
      LegsAreNotTracked(events, l, st, at, legs.into);
      UntrackedStands(events, l, st, at, legs.out);
      UntrackedStands(events, l, st, at, legs.into);
      StampedStands(events, l.rows[legs.out], e.at.value);
      StampedStands(events, l.rows[legs.into], e.at.value);
      LegsChanged(events, l, st, at, legs.out, legs.into,
                  Stamped(l.rows[legs.out], e.at.value), Stamped(l.rows[legs.into], e.at.value));
    }
  }

  /** A transfer that is none of these takes no row of theirs. */
  lemma StrangerFindsNoFile(t: Transfer, s: Status, e: Item)
    requires Agrees(t) && s != Unseen && Fits(t, s) && ApiTransfer(e) && !Clashes(t, Stored(e))
    ensures !FreeFileRow(e, RowOf(t, s))
  {
    StoredPairs(e);
  }

  lemma StrangerFindsNoApi(t: Transfer, s: Status, e: Item)
    requires Agrees(t) && s != Unseen && Fits(t, s) && FileTransfer(e) && !Clashes(t, Stored(e))
    ensures !ApiRowFor(e, RowOf(t, s))
  {
    StoredPairs(e);
  }

  lemma StrangerTakesTransfer(events: seq<Transfer>, l: Ledger, st: seq<Status>, at: map<nat, nat>, base: nat, e: Item,
                              repeat: nat)
    requires World(events) && Tracks(events, l, st, at) && Stranger(events, e) && ApiTransfer(e) && base <= |l.rows|
    ensures Tracks(events, l.(rows := ApiTransferTwin(l.rows, base, e, e.txId.value, repeat).rows), st, at)
  {
    hide Counted, FreeFileRow, Clashes, RowOf;
    var free := FreeFileRows(l.rows, e);
    if |free| == 1 {
      var i := free[0];
      assert i in free;
      if i in at.Values {
        var v :| v in at && at[v] == i;
        StrangerFindsNoFile(events[v], st[v], e);
      }
      StrangerNamesNone(events, e);
      FreeIsIdLess(e, l.rows[i]);
      WithIdStands(events, l.rows[i], e.txId.value, IdsOf(e));
      BystanderChanged(events, l, st, at, i, WithId(l.rows[i], e.txId.value));
    }
  }

  lemma FreeIsIdLess(e: Item, r: Item)
    requires FreeFileRow(e, r)
    ensures r.txId.None?
  {
  }

  lemma StrangerStampsTransfer(events: seq<Transfer>, l: Ledger, st: seq<Status>, at: map<nat, nat>,
                               base: nat, batch: seq<Item>, i: nat, repeat: nat)
    requires World(events) && Tracks(events, l, st, at) && base <= |l.rows| && i < |batch|
    requires Stranger(events, batch[i]) && FileTransfer(batch[i])
    ensures Tracks(events, l.(rows := FileTransferTwin(l.rows, base, batch, i, repeat).rows), st, at)
  {
    hide Counted, ApiRowFor, Clashes, RowOf, Rivals;
    var e, free := batch[i], FreeApiRows(l.rows, batch[i]);
    if e.at.Some? && |free| == 1 {
      var j := free[0];
      assert j in free;
      if j in at.Values {
        var v :| v in at && at[v] == j;
        StrangerFindsNoApi(events[v], st[v], e);
      }
      StampedStands(events, l.rows[j], e.at.value);
      BystanderChanged(events, l, st, at, j, Stamped(l.rows[j], e.at.value));
    }
  }

  lemma StrangerVerdict(events: seq<Transfer>, l: Ledger, st: seq<Status>, at: map<nat, nat>,
                        base: nat, batch: seq<Item>, i: nat, repeat: nat)
    requires World(events) && Tracks(events, l, st, at) && base <= |l.rows| && i < |batch| && Stranger(events, batch[i])
    ensures Tracks(events, l.(rows := Duplicate(l, base, batch, i, repeat).rows), st, at)
  {
    hide Tracks, Stranger, ApiDustTwin, FileDustTwin, ApiTransferTwin, FileTransferTwin, KnownId;
    var e := batch[i];
    assert l.(rows := l.rows) == l;
    if Presence(e.txId).None? {
      if FileDust(e) {
        StrangerStampsDust(events, l, st, at, base, batch, i, repeat);
      } else if FileTransfer(e) {
        StrangerStampsTransfer(events, l, st, at, base, batch, i, repeat);
      }
    } else if !KnownId(l, e.txId) {
      if ApiDust(e) {
        StrangerTakesDust(events, l, st, at, base, e, repeat);
      } else if ApiTransfer(e) {
        StrangerTakesTransfer(events, l, st, at, base, e, repeat);
      }
    }
  }

  /** A stranger leaves every transfer's row where and as it is, and adds no row of theirs. */
  lemma StrangerArrives(events: seq<Transfer>, p: Progress, st: seq<Status>, at: map<nat, nat>, base: nat,
                        batch: seq<Item>, i: nat)
    requires World(events) && Tracks(events, p.ledger, st, at) && base <= |p.ledger.rows| && i < |batch|
    requires Stranger(events, batch[i])
    ensures Tracks(events, Step(p, base, batch, i).ledger, st, at)
  {
    hide Tracks, Duplicate, Clashes;
    var e, v := batch[i], Duplicate(p.ledger, base, batch, i, Repeat(p, batch[i]));
    StrangerVerdict(events, p.ledger, st, at, base, batch, i, Repeat(p, e));
    if !v.duplicate && Saves(e) {
      StrangerNamesNone(events, e);
      BystanderAdded(events, p.ledger.(rows := v.rows), st, at, Stored(e), e.raw.mergedIds);
    }
  }

  // ---- one call ------------------------------------------------------------------------------------

  predicate ByApi(s: Status) {
    s in {Taken, ApiOnly, Marked}
  }

  predicate ByFile(s: Status) {
    s in {FileOnly, Taken, Marked}
  }

  /** What the first n entries of a call change: the transfers they showed are seen from their source. */
  ghost predicate Grown(events: seq<Transfer>, c: Call, n: nat, base: nat, st: seq<Status>, at: map<nat, nat>,
                        st': seq<Status>, at': map<nat, nat>)
    requires n <= |c|
  {
    && |st| == |st'| == |events|
    && (forall v :: 0 <= v < |events| ==>
          && ByApi(st'[v]) == (ByApi(st[v]) || Copy(true, v) in c[..n])
          && ByFile(st'[v]) == (ByFile(st[v]) || Copy(false, v) in c[..n])
          && (st[v] in {FileOnly, Taken} ==> st'[v] in {FileOnly, Taken}))
    && (forall v :: v in at ==> v in at' && at'[v] == at[v])
    && (forall v :: v in at' && v !in at ==> at'[v] >= base)
  }

  /** No two export copies share a key, nor an export copy and a stranger, nor, in a safe call, it and an API copy before it. */
  lemma FreshKey(events: seq<Transfer>, c: Call, j: nat, n: nat)
    requires World(events) && ValidCall(events, c) && j < n < |c| && c[n].Copy? && !c[n].fromApi
    requires c[j].Copy? && c[j].fromApi ==> KeyOf(ItemOf(events, c[j])) != KeyOf(ItemOf(events, c[n]))
    ensures KeyOf(Batch(events, c)[j]) != KeyOf(Batch(events, c)[n])
  {
    assert ValidEntry(events, c[j]) && ValidEntry(events, c[n]);
    var w := c[n].v;
    if c[j].Copy? && !c[j].fromApi {
      var v := c[j].v;
      assert v != w;
      assert Apart(events[v], events[w]) && Agrees(events[v]) && Agrees(events[w]);
    }
  }

  /** No API copy before position n looks like the export copy there. */
  ghost predicate SafeAt(events: seq<Transfer>, c: Call, n: nat)
    requires ValidCall(events, c) && n < |c|
  {
    c[n].Copy? && !c[n].fromApi ==>
      forall i :: 0 <= i < n && c[i].Copy? && c[i].fromApi ==>
        KeyOf(ItemOf(events, c[i])) != KeyOf(ItemOf(events, c[n]))
  }

  lemma FirstOfItsKind(events: seq<Transfer>, l: Ledger, c: Call, n: nat)
    requires World(events) && ValidCall(events, c) && n < |c| && c[n].Copy? && !c[n].fromApi && SafeAt(events, c, n)
    ensures KeyOf(Batch(events, c)[n]) !in After(l, Batch(events, c), n).repeats
  {
    hide World, ValidCall;
    var batch := Batch(events, c);
    if KeyOf(batch[n]) in After(l, batch, n).repeats {
      RepeatsComeFromBatch(l, batch, n, KeyOf(batch[n]));
      var j :| 0 <= j < n && KeyOf(batch[n]) == KeyOf(batch[j]);
      FreshKey(events, c, j, n);
    }
  }

  lemma OthersDoNotPair(events: seq<Transfer>, c: Call, n: nat)
    requires World(events) && ValidCall(events, c) && n < |c| && c[n].Copy? && !c[n].fromApi
    ensures ValidEntry(events, c[n]) && NoRival(events[c[n].v], Batch(events, c), n)
  {
    var t := events[c[n].v];
    assert ValidEntry(events, c[n]);
    if t.api.Some? {
      forall j | 0 <= j < |c| && j != n && !Present(Batch(events, c)[j].txId) && FileTransfer(Batch(events, c)[j])
        ensures !Pairs(t.api.value, Batch(events, c)[j])
      {
        OtherDoesNotPair(events, c, n, j);
      }
    }
  }

  lemma OtherDoesNotPair(events: seq<Transfer>, c: Call, n: nat, j: nat)
    requires World(events) && ValidCall(events, c) && n < |c| && j < |c| && j != n && c[n].Copy? && !c[n].fromApi
    requires ValidEntry(events, c[n]) && events[c[n].v].api.Some?
    requires var e := Batch(events, c)[j]; !Present(e.txId) && FileTransfer(e)
    ensures !Pairs(events[c[n].v].api.value, Batch(events, c)[j])
  {
    var v := c[n].v;
    assert ValidEntry(events, c[j]);
    match c[j]
    case Copy(fromApi, w) =>
      assert Agrees(events[w]) && (fromApi || v != w);
      assert v != w ==> Apart(events[v], events[w]);
    case Other(e) =>
      assert !Clashes(events[v], Stored(e));
      StoredPairs(e);
  }

  lemma SeenNext(c: Call, m: nat, x: Entry)
    requires m < |c|
    ensures x in c[..m + 1] <==> x in c[..m] || x == c[m]
  {
    assert c[..m + 1] == c[..m] + [c[m]];
  }

  lemma GrowsByCopy(events: seq<Transfer>, c: Call, m: nat, base: nat, st: seq<Status>, at: map<nat, nat>,
                    st1: seq<Status>, at1: map<nat, nat>, n: nat)
    requires m < |c| && c[m].Copy? && c[m].v < |events| && Grown(events, c, m, base, st, at, st1, at1) && base <= n
    requires st1[c[m].v] == Unseen ==> c[m].v !in at1
    ensures var v, fromApi := c[m].v, c[m].fromApi;
            Grown(events, c, m + 1, base, st, at, st1[v := Arrive(st1[v], fromApi)], Placed(at1, st1[v], v, n))
  {
    forall w, fromApi
      ensures Copy(fromApi, w) in c[..m + 1] <==> Copy(fromApi, w) in c[..m] || Copy(fromApi, w) == c[m]
    {
      SeenNext(c, m, Copy(fromApi, w));
    }
  }

  lemma GrowsByOther(events: seq<Transfer>, c: Call, m: nat, base: nat, st: seq<Status>, at: map<nat, nat>,
                     st1: seq<Status>, at1: map<nat, nat>)
    requires m < |c| && c[m].Other? && Grown(events, c, m, base, st, at, st1, at1)
    ensures Grown(events, c, m + 1, base, st, at, st1, at1)
  {
    forall w, fromApi
      ensures Copy(fromApi, w) in c[..m + 1] <==> Copy(fromApi, w) in c[..m]
    {
      SeenNext(c, m, Copy(fromApi, w));
    }
  }

  /** A copy whose export twin was seen has a row from before the call, unless the twin came with the call itself. */
  lemma SeenFileIsOld(events: seq<Transfer>, l: Ledger, c: Call, m: nat, base: nat, st: seq<Status>, at: map<nat, nat>,
                      st1: seq<Status>, at1: map<nat, nat>)
    requires World(events) && ValidCall(events, c) && m < |c| && c[m].Copy? && !c[m].fromApi && ValidEntry(events, c[m])
    requires Grown(events, c, m, base, st, at, st1, at1) && Tracks(events, l, st, at) && |l.rows| == base
    ensures st1[c[m].v] in {FileOnly, Taken} ==> c[m].v in at1 && at1[c[m].v] < base
  {
    assert c[m] !in c[..m];
  }

  /** Among copies alone nothing but their rows changes, and nothing but their rows is added. */
  ghost predicate OnlyTheirs(before: seq<Item>, after: seq<Item>, at: map<nat, nat>) {
    && |before| <= |after|
    && (forall i :: 0 <= i < |before| && i !in at.Values ==> after[i] == before[i])
    && (forall i :: |before| <= i < |after| ==> i in at.Values)
  }

  ghost predicate OnlyCopies(c: Call, n: nat)
    requires n <= |c|
  {
    forall m :: 0 <= m < n ==> c[m].Copy?
  }

  lemma OnlyTheirsNext(before: seq<Item>, rows: seq<Item>, rows': seq<Item>, at: map<nat, nat>, s: Status, v: nat)
    requires OnlyTheirs(before, rows, at) && (s == Unseen ==> v !in at)
    requires |rows'| == |rows| + (if s == Unseen then 1 else 0)
    requires forall j :: 0 <= j < |rows| && j !in at.Values ==> rows'[j] == rows[j]
    ensures OnlyTheirs(before, rows', Placed(at, s, v, |rows|))
  {
    var at' := Placed(at, s, v, |rows|);
    assert forall w :: w in at ==> at'[w] == at[w];
    assert forall i :: i in at.Values ==> i in at'.Values;
    assert s == Unseen ==> at'[v] == |rows| && |rows| in at'.Values;
  }

  /** Every prefix of a call leaves each transfer it showed with one row, as long as the call is safe so far. */
  lemma {:induction false} CallTracks(events: seq<Transfer>, l: Ledger, st: seq<Status>, at: map<nat, nat>, c: Call,
                                      n: nat)
    returns (st': seq<Status>, at': map<nat, nat>)
    requires World(events) && Tracks(events, l, st, at)
    requires ValidCall(events, c) && n <= |c| && forall m :: 0 <= m < n ==> SafeAt(events, c, m)
    ensures Tracks(events, After(l, Batch(events, c), n).ledger, st', at')
    ensures Grown(events, c, n, |l.rows|, st, at, st', at')
    ensures OnlyCopies(c, n) ==> OnlyTheirs(l.rows, After(l, Batch(events, c), n).ledger.rows, at')
  {
    hide Step, World, Tracks, ValidCall, SafeAt, ItemOf, NoRival, OnlyTheirs;
    if n == 0 {
      st', at' := st, at;
      NothingGrown(events, l, c, st, at);
    } else {
      var batch, m := Batch(events, c), n - 1;
      var st1, at1 := CallTracks(events, l, st, at, c, m);
      var p := After(l, batch, m);
      EntryIsValid(events, c, m);
      SizesOf(events, p.ledger, st1, at1);
      if c[m].Copy? {
        var v, fromApi := c[m].v, c[m].fromApi;
        if !fromApi {
          FirstOfItsKind(events, l, c, m);
          OthersDoNotPair(events, c, m);
          SeenFileIsOld(events, l, c, m, |l.rows|, st, at, st1, at1);
        }
        CopyArrives(events, p, st1, at1, |l.rows|, batch, m, fromApi, v);
        if OnlyCopies(c, n) {
          OnlyTheirsNext(l.rows, p.ledger.rows, Step(p, |l.rows|, batch, m).ledger.rows, at1, st1[v], v);
        }
        GrowsByCopy(events, c, m, |l.rows|, st, at, st1, at1, |p.ledger.rows|);
        st', at' := st1[v := Arrive(st1[v], fromApi)], Placed(at1, st1[v], v, |p.ledger.rows|);
      } else {
        OtherIsItself(events, c[m]);
        StrangerArrives(events, p, st1, at1, |l.rows|, batch, m);
        GrowsByOther(events, c, m, |l.rows|, st, at, st1, at1);
        st', at' := st1, at1;
      }
    }
  }

  lemma NothingGrown(events: seq<Transfer>, l: Ledger, c: Call, st: seq<Status>, at: map<nat, nat>)
    requires World(events) && Tracks(events, l, st, at)
    ensures Grown(events, c, 0, |l.rows|, st, at, st, at) && OnlyTheirs(l.rows, l.rows, at)
  {
  }

  lemma EntryIsValid(events: seq<Transfer>, c: Call, m: nat)
    requires ValidCall(events, c) && m < |c|
    ensures ValidEntry(events, c[m])
  {
  }

  lemma OtherIsItself(events: seq<Transfer>, x: Entry)
    requires ValidEntry(events, x) && x.Other?
    ensures ItemOf(events, x) == x.e && Stranger(events, x.e)
  {
  }

  lemma SizesOf(events: seq<Transfer>, l: Ledger, st: seq<Status>, at: map<nat, nat>)
    requires World(events) && Tracks(events, l, st, at)
    ensures |st| == |events| && forall v :: 0 <= v < |events| && st[v] == Unseen ==> v !in at
  {
  }

  // ---- any sequence of calls -----------------------------------------------------------------------

  /** The row of a transfer seen from the given sources. */
  predicate Holds(t: Transfer, r: Item, byApi: bool, byFile: bool) {
    && (byApi ==> t.api.Some? && t.api.value.txId.Some?) && (byFile ==> t.file.Some? && t.file.value.at.Some?)
    && if byApi && byFile then
         || r == WithId(Stored(t.file.value), t.api.value.txId.value)
         || r == Stamped(Stored(t.api.value), t.file.value.at.value)
       else if byApi then r == Stored(t.api.value)
       else byFile && r == Stored(t.file.value)
  }

  /** From row `n` on there is one row for each transfer seen, and no other row could be taken for one of theirs. */
  ghost predicate OneRowEach(events: seq<Transfer>, calls: seq<Call>, rows: seq<Item>, n: nat, at: map<nat, nat>) {
    && (forall v: nat :: v in at <==> SeenIn(calls, true, v) || SeenIn(calls, false, v))
    && (forall v :: v in at ==>
          && v < |events| && n <= at[v] < |rows|
          && Holds(events[v], rows[at[v]], SeenIn(calls, true, v), SeenIn(calls, false, v)))
    && (forall v, w :: v in at && w in at && at[v] == at[w] ==> v == w)
    && (forall i :: 0 <= i < |rows| && i !in at.Values ==> Bystander(events, rows[i]))
  }

  lemma SeenInLast(calls: seq<Call>, fromApi: bool, v: nat)
    requires calls != []
    ensures var n := |calls| - 1;
            SeenIn(calls, fromApi, v) <==> SeenIn(calls[..n], fromApi, v) || Copy(fromApi, v) in calls[n]
  {
    var n := |calls| - 1;
    assert calls[n] in calls && forall d :: d in calls <==> d in calls[..n] || d == calls[n];
  }

  lemma SafeIsSafeAt(events: seq<Transfer>, c: Call)
    requires ValidCall(events, c) && SafeCall(events, c)
    ensures forall m :: 0 <= m < |c| ==> SafeAt(events, c, m)
  {
  }

  /** The statuses and rows after some calls. */
  ghost predicate Told(events: seq<Transfer>, l: Ledger, calls: seq<Call>, rows: Ledger, st: seq<Status>,
                       at: map<nat, nat>)
    requires World(events)
  {
    && Tracks(events, rows, st, at) && |st| == |events|
    && (forall v :: 0 <= v < |events| ==>
         ByApi(st[v]) == SeenIn(calls, true, v) && ByFile(st[v]) == SeenIn(calls, false, v))
    && (forall v :: v in at ==> at[v] >= |l.rows|)
  }

  lemma NothingTold(events: seq<Transfer>, l: Ledger) returns (st: seq<Status>, at: map<nat, nat>)
    requires World(events) && Foreign(l, events)
    ensures Told(events, l, [], l, st, at)
  {
    st, at := seq(|events|, _ => Unseen), map[];
    assert forall i :: i !in at.Values;
  }

  lemma ToldNext(events: seq<Transfer>, l: Ledger, calls: seq<Call>, c: Call, n: nat, before: Ledger, after: Ledger,
                 st: seq<Status>, at: map<nat, nat>, st': seq<Status>, at': map<nat, nat>)
    requires World(events) && Told(events, l, calls, before, st, at) && |before.rows| >= |l.rows| && n <= |c|
    requires Tracks(events, after, st', at') && Grown(events, c, n, |before.rows|, st, at, st', at')
    ensures Told(events, l, calls + [c[..n]], after, st', at')
  {
    var all := calls + [c[..n]];
    assert all[..|all| - 1] == calls;
    forall v: nat, fromApi
      ensures SeenIn(all, fromApi, v) <==> SeenIn(calls, fromApi, v) || Copy(fromApi, v) in c[..n]
    {
      SeenInLast(all, fromApi, v);
    }
  }

  lemma {:induction false} RowsOnlyGrow(l: Ledger, batch: seq<Item>, n: nat)
    requires n <= |batch|
    ensures |After(l, batch, n).ledger.rows| >= |l.rows|
  {
  }

  lemma {:induction false} CallsTell(events: seq<Transfer>, l: Ledger, calls: seq<Call>)
    returns (st: seq<Status>, at: map<nat, nat>)
    requires World(events) && Foreign(l, events) && ValidCalls(events, calls) && SafeCalls(events, calls)
    ensures Told(events, l, calls, Calls(events, l, calls), st, at) && |Calls(events, l, calls).rows| >= |l.rows|
    ensures (forall c :: c in calls ==> OnlyCopies(c, |c|)) ==> OnlyTheirs(l.rows, Calls(events, l, calls).rows, at)
  {
    hide World, Told, Foreign, SafeCall, ValidCall, Store, OnlyTheirs, OnlyCopies, Tracks, Grown, SafeAt, ValidEntry;
    if calls == [] {
      st, at := NothingTold(events, l);
      assert OnlyTheirs(l.rows, l.rows, at) by {
        NothingAdded(l.rows, at);
      }
    } else {
      var n := |calls| - 1;
      var c := calls[n];
      assert c in calls;
      var st0, at0 := CallsTell(events, l, calls[..n]);
      var before := Calls(events, l, calls[..n]);
      ToldTracks(events, l, calls[..n], before, st0, at0);
      SafeIsSafeAt(events, c);
      st, at := CallTracks(events, before, st0, at0, c, |c|);
      assert c[..|c|] == c && calls == calls[..n] + [c];
      RowsOnlyGrow(before, Batch(events, c), |c|);
      StoreIsAfter(before, Batch(events, c));
      if forall d :: d in calls ==> OnlyCopies(d, |d|) {
        GrownExtends(events, c, |c|, |before.rows|, st0, at0, st, at);
        OnlyTheirsOn(l.rows, before.rows, Calls(events, l, calls).rows, at0, at);
      }
      ToldNext(events, l, calls[..n], c, |c|, before, Calls(events, l, calls), st0, at0, st, at);
    }
  }

  lemma NothingAdded(rows: seq<Item>, at: map<nat, nat>)
    ensures OnlyTheirs(rows, rows, at)
  {
  }

  lemma GrownExtends(events: seq<Transfer>, c: Call, n: nat, base: nat, st: seq<Status>, at: map<nat, nat>,
                     st': seq<Status>, at': map<nat, nat>)
    requires n <= |c| && Grown(events, c, n, base, st, at, st', at')
    ensures at.Values <= at'.Values
  {
    forall i | i in at.Values
      ensures i in at'.Values
    {
      var v :| v in at && at[v] == i;
      assert at'[v] == i;
    }
  }

  lemma OnlyTheirsOn(first: seq<Item>, before: seq<Item>, after: seq<Item>, at: map<nat, nat>, at': map<nat, nat>)
    requires OnlyTheirs(first, before, at) && OnlyTheirs(before, after, at') && at.Values <= at'.Values
    ensures OnlyTheirs(first, after, at')
  {
  }

  lemma StoreIsAfter(l: Ledger, batch: seq<Item>)
    ensures Store(l, batch).ledger == After(l, batch, |batch|).ledger
  {
  }

  lemma ToldTracks(events: seq<Transfer>, l: Ledger, calls: seq<Call>, rows: Ledger, st: seq<Status>, at: map<nat, nat>)
    requires World(events) && Told(events, l, calls, rows, st, at)
    ensures Tracks(events, rows, st, at)
  {
  }

  lemma RowHolds(t: Transfer, s: Status)
    requires Agrees(t) && s != Unseen && Fits(t, s)
    ensures Holds(t, RowOf(t, s), ByApi(s), ByFile(s))
  {
  }

  lemma {:induction false} SeenShows(events: seq<Transfer>, calls: seq<Call>, fromApi: bool, v: nat)
    requires ValidCalls(events, calls) && SeenIn(calls, fromApi, v)
    ensures v < |events|
  {
    var c :| c in calls && Copy(fromApi, v) in c;
    var i :| 0 <= i < |c| && c[i] == Copy(fromApi, v);
    assert ValidEntry(events, c[i]);
  }

  /** What the statuses say is one row each. */
  lemma ToldIsOneRowEach(events: seq<Transfer>, l: Ledger, calls: seq<Call>, rows: Ledger, st: seq<Status>,
                         at: map<nat, nat>)
    requires World(events) && ValidCalls(events, calls) && Told(events, l, calls, rows, st, at)
    ensures OneRowEach(events, calls, rows.rows, |l.rows|, at)
  {
    hide RowOf, Clashes, Holds, Apart;
    forall v: nat
      ensures v in at <==> SeenIn(calls, true, v) || SeenIn(calls, false, v)
    {
      if SeenIn(calls, true, v) {
        SeenShows(events, calls, true, v);
      } else if SeenIn(calls, false, v) {
        SeenShows(events, calls, false, v);
      }
    }
    forall v | v in at
      ensures Holds(events[v], rows.rows[at[v]], SeenIn(calls, true, v), SeenIn(calls, false, v))
    {
      RowHolds(events[v], st[v]);
    }
  }

  /**
   Any safe calls, in any order and with any repeats, carrying whatever strangers, on any ledger in which none of
   the transfers has a row: after the rows that were there stands exactly one row for each transfer seen, the first
   copy's, carrying the pairing once both copies came, and no other row is one of theirs. Where calls carry nothing
   else, nothing else is added and the rows that were there are as they were.
   */
  lemma Converges(events: seq<Transfer>, l: Ledger, calls: seq<Call>)
    requires World(events) && Foreign(l, events) && ValidCalls(events, calls) && SafeCalls(events, calls)
    ensures var end := Calls(events, l, calls).rows;
            exists at ::
              && OneRowEach(events, calls, end, |l.rows|, at)
              && ((forall c :: c in calls ==> OnlyCopies(c, |c|)) ==>
                    |l.rows| <= |end| && end[..|l.rows|] == l.rows && forall i :: |l.rows| <= i < |end| ==>
                      i in at.Values)
  {
    hide World, Told, Calls;
    var st, at := CallsTell(events, l, calls);
    var end := Calls(events, l, calls);
    ToldIsOneRowEach(events, l, calls, end, st, at);
    if forall c :: c in calls ==> OnlyCopies(c, |c|) {
      assert forall i :: 0 <= i < |l.rows| ==> i !in at.Values;
    }
    hide OneRowEach;
    assert OneRowEach(events, calls, end.rows, |l.rows|, at);
  }
}
