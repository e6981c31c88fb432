/** Importing the same id-less rows again adds nothing, and identical rows are counted one for one. */
module Reimport {
  import opened Prelude
  import opened LedgerRows
  import opened LedgerStore

  predicate IdLessBatch(batch: seq<Item>) {
    forall i :: 0 <= i < |batch| ==> !Present(batch[i].txId)
  }

  /** A leg of an export conversion that no API conversion describes: BNB is what a sweep brings in. */
  predicate Unpairable(e: Item) {
    FileDust(e) && e.kind == SwapIn && e.currency != "BNB"
  }

  predicate Governed(e: Item) {
    FileDust(e) || FileTransfer(e)
  }

  /**
   Whatever settles `f` settles an identical `e` after it: both are described the same way, as a transfer, as a dust
   leg or plainly, or `f` is a leg that can be settled by nothing but a count, which is all a plain entry needs.
   */
  predicate Covers(f: Item, e: Item) {
    (FileDust(f) == FileDust(e) && FileTransfer(f) == FileTransfer(e)) || (!Governed(e) && Unpairable(f))
  }

  /** Each entry that saves is covered by the identical ones before it. */
  predicate OneShapePerKey(batch: seq<Item>) {
    forall i, j :: 0 <= i < j < |batch| && KeyOf(batch[i]) == KeyOf(batch[j]) && Saves(batch[j]) ==>
      Covers(batch[i], batch[j])
  }

  /** No entry that saves is settled by a rule for rows that an older reading stored differently. */
  ghost predicate NoOldReading(l: Ledger, batch: seq<Item>) {
    forall i :: 0 <= i < |batch| && Saves(batch[i]) ==>
      var p := After(l, batch, i);
      !SettledByOldReading(p.ledger.rows, |l.rows|, batch, i, Repeat(p, batch[i]))
  }

  /** How many of the first `n` entries have this key. */
  function Occurrences(batch: seq<Item>, n: nat, key: EventKey): nat
    requires n <= |batch|
  {
    if n == 0 then 0 else Occurrences(batch, n - 1, key) + if KeyOf(batch[n - 1]) == key then 1 else 0
  }

  lemma {:induction false} RepeatIsOccurrences(l: Ledger, batch: seq<Item>, n: nat, key: EventKey)
    requires IdLessBatch(batch) && n <= |batch|
    ensures Seen(After(l, batch, n).repeats, key) == Occurrences(batch, n, key)
  {
    hide Duplicate, KeyOf, Stored, Saves;
    if n > 0 {
      RepeatIsOccurrences(l, batch, n - 1, key);
      TallyOfIdLess(After(l, batch, n - 1), batch[n - 1], key);
    }
  }

  lemma TallyOfIdLess(p: Progress, e: Item, key: EventKey)
    requires !Present(e.txId)
    ensures Seen(Tally(p, e), key) == Seen(p.repeats, key) + if KeyOf(e) == key then 1 else 0
  {
  }

  // ---- how rows change while an id-less batch is stored --------------------------------------------

  /** Unchanged, or stamped for the first time. */
  predicate OnlyStamped(r: Item, r': Item) {
    r' == r || (r.raw.twin.None? && r'.raw.twin.Some? && r' == Stamped(r, r'.raw.twin.value))
  }

  /** Rows stay in place, at most stamped, and the rows added carry no id. */
  ghost predicate Evolves(rows: seq<Item>, rows': seq<Item>) {
    && |rows| <= |rows'|
    && (forall i :: 0 <= i < |rows| ==> OnlyStamped(rows[i], rows'[i]))
    && (forall i :: |rows| <= i < |rows'| ==> rows'[i].txId.None?)
  }

  lemma StepEvolves(p: Progress, base: nat, batch: seq<Item>, i: nat)
    requires base <= |p.ledger.rows| && i < |batch| && !Present(batch[i].txId)
    ensures Evolves(p.ledger.rows, Step(p, base, batch, i).ledger.rows)
  {
    var e, l, repeat := batch[i], p.ledger, Repeat(p, batch[i]);
    if FileDust(e) {
      DustEvolves(l.rows, base, batch, i, repeat);
    } else if FileTransfer(e) {
      TransferEvolves(l.rows, base, batch, i, repeat);
    }
    var v := Duplicate(l, base, batch, i, repeat);
    assert Evolves(l.rows, v.rows) && |v.rows| == |l.rows|;
    assert Step(p, base, batch, i) == Settle(p, e, v);
  }

  lemma DustEvolves(rows: seq<Item>, base: nat, batch: seq<Item>, i: nat, repeat: nat)
    requires base <= |rows| && i < |batch|
    ensures var v := FileDustTwin(rows, base, batch, i, repeat); Evolves(rows, v.rows) && |v.rows| == |rows|
  {
    hide TheConversion, TheGroup, ConversionTwinned, Counted;
    if batch[i].at.Some? && TheConversion(rows, batch[i]).Some? {
      var l := TheConversion(rows, batch[i]).value;
      assert Evolves(rows, StampBoth(rows, l, batch[i].at.value));
    }
  }

  lemma TransferEvolves(rows: seq<Item>, base: nat, batch: seq<Item>, i: nat, repeat: nat)
    requires base <= |rows| && i < |batch|
    ensures var v := FileTransferTwin(rows, base, batch, i, repeat); Evolves(rows, v.rows) && |v.rows| == |rows|
  {
    var free := FreeApiRows(rows, batch[i]);
    assert free != [] ==> free[0] in free;
  }

  lemma EvolvesOn(a: seq<Item>, b: seq<Item>, c: seq<Item>)
    requires Evolves(a, b) && Evolves(b, c)
    ensures Evolves(a, c)
  {
    forall i | 0 <= i < |a|
      ensures OnlyStamped(a[i], c[i])
    {
      assert OnlyStamped(a[i], b[i]) && OnlyStamped(b[i], c[i]);
    }
    forall i | |a| <= i < |c|
      ensures c[i].txId.None?
    {
      if i < |b| {
        assert OnlyStamped(b[i], c[i]);
      }
    }
  }

  lemma {:induction false} RunEvolves(l: Ledger, batch: seq<Item>, m: nat, n: nat)
    requires IdLessBatch(batch) && m <= n <= |batch|
    ensures Evolves(After(l, batch, m).ledger.rows, After(l, batch, n).ledger.rows)
  {
    hide Step;
    if m < n {
      RunEvolves(l, batch, m, n - 1);
      StepEvolves(After(l, batch, n - 1), |l.rows|, batch, n - 1);
      EvolvesOn(After(l, batch, m).ledger.rows, After(l, batch, n - 1).ledger.rows, After(l, batch, n).ledger.rows);
    }
  }

  // ---- what decides about an entry depends on its key and shape ------------------------------------

  function EvidenceFor(e: Item): Evidence {
    if FileDust(e) then NotApiDust else if FileTransfer(e) then NotApiTransfer else AnyRow
  }

  /** The pairing of the entry with an API row, or an API conversion, is written down. */
  ghost predicate PairedOff(rows: seq<Item>, e: Item) {
    && e.at.Some?
    && if FileDust(e) then ConversionTwinned(rows, e) else FileTransfer(e) && Twinned(rows, e)
  }

  predicate Alike(e: Item, f: Item) {
    KeyOf(e) == KeyOf(f) && FileDust(e) == FileDust(f) && FileTransfer(e) == FileTransfer(f)
    && !Present(e.txId) && !Present(f.txId)
  }

  lemma {:induction false} CountAlike(rows: seq<Item>, e: Item, f: Item, ev: Evidence)
    requires Alike(e, f)
    ensures Count(rows, e, ev) == Count(rows, f, ev)
  {
    if rows != [] {
      CountAlike(rows[..|rows| - 1], e, f, ev);
      CountsAlike(e, f, ev, rows[|rows| - 1]);
    }
  }

  lemma CountsAlike(e: Item, f: Item, ev: Evidence, r: Item)
    requires Alike(e, f)
    ensures Counts(e, ev, r) == Counts(f, ev, r)
  {
  }

  lemma CountsStamped(e: Item, ev: Evidence, r: Item, r': Item)
    requires OnlyStamped(r, r')
    ensures Counts(e, ev, r') == Counts(e, ev, r)
  {
  }

  lemma {:induction false} CountEvolves(rows: seq<Item>, rows': seq<Item>, n: nat, e: Item, ev: Evidence)
    requires Evolves(rows, rows') && n <= |rows|
    ensures Count(rows'[..n], e, ev) == Count(rows[..n], e, ev)
  {
    hide Counts, OnlyStamped;
    if n > 0 {
      CountEvolves(rows, rows', n - 1, e, ev);
      assert rows'[..n][..n - 1] == rows'[..n - 1] && rows[..n][..n - 1] == rows[..n - 1];
      CountsStamped(e, ev, rows[n - 1], rows'[n - 1]);
    }
  }

  lemma {:induction false} CountGrows(rows: seq<Item>, n: nat, e: Item, ev: Evidence)
    requires n <= |rows|
    ensures Count(rows[..n], e, ev) <= Count(rows, e, ev)
  {
    if n < |rows| {
      var m := |rows| - 1;
      CountGrows(rows[..m], n, e, ev);
      assert rows[..m][..n] == rows[..n];
    } else {
      assert rows[..n] == rows;
    }
  }

  lemma LegsAlike(rows: seq<Item>, e: Item, f: Item, l: Legs)
    requires Alike(e, f) && e.at.Some?
    ensures ApiLegs(rows, e, l) <==> ApiLegs(rows, f, l)
  {
  }

  lemma PairedOffAlike(rows: seq<Item>, e: Item, f: Item)
    requires Alike(e, f) && PairedOff(rows, e)
    ensures PairedOff(rows, f)
  {
    if FileDust(e) {
      forall l
        ensures ApiLegs(rows, e, l) <==> ApiLegs(rows, f, l)
      {
        LegsAlike(rows, e, f, l);
      }
      var l :| l in WholeConversions(rows, e) && (TwinNear(rows[l.out], e.at.value) || TwinNear(rows[l.into], e.at.value));
      assert IsWhole(rows, e, l) && IsWhole(rows, f, l);
    } else {
      var i :| 0 <= i < |rows| && ApiRowFor(e, rows[i]) && TwinNear(rows[i], e.at.value);
      assert ApiRowFor(f, rows[i]);
    }
  }

  lemma PairedOffStays(rows: seq<Item>, rows': seq<Item>, e: Item)
    requires Evolves(rows, rows') && PairedOff(rows, e)
    ensures PairedOff(rows', e)
  {
    hide Evolves, Twinned, ConversionTwinned;
    if FileDust(e) {
      ConversionStaysTwinned(rows, rows', e);
    } else {
      StaysTwinned(rows, rows', e);
    }
  }

  lemma StaysTwinned(rows: seq<Item>, rows': seq<Item>, e: Item)
    requires Evolves(rows, rows') && Twinned(rows, e)
    ensures Twinned(rows', e)
  {
    var i :| 0 <= i < |rows| && ApiRowFor(e, rows[i]) && TwinNear(rows[i], e.at.value);
    assert OnlyStamped(rows[i], rows'[i]) && ApiRowFor(e, rows'[i]);
  }

  lemma ConversionStaysTwinned(rows: seq<Item>, rows': seq<Item>, e: Item)
    requires Evolves(rows, rows') && e.at.Some? && ConversionTwinned(rows, e)
    ensures ConversionTwinned(rows', e)
  {
    var l :| l in WholeConversions(rows, e) && (TwinNear(rows[l.out], e.at.value) || TwinNear(rows[l.into], e.at.value));
    WholeEvolves(rows, rows', e, l);
    NearStays(rows[l.out], rows'[l.out], e.at.value);
    NearStays(rows[l.into], rows'[l.into], e.at.value);
    hide ApiLegs, IsWhole, OnlyStamped, TwinNear;
  }

  lemma NearStays(r: Item, r': Item, at: Time)
    requires OnlyStamped(r, r')
    ensures TwinNear(r, at) ==> TwinNear(r', at)
  {
  }

  lemma WholeEvolves(rows: seq<Item>, rows': seq<Item>, e: Item, l: Legs)
    requires Evolves(rows, rows') && e.at.Some? && IsWhole(rows, e, l)
    ensures IsWhole(rows', e, l)
  {
    LegsEvolve(rows, rows', e, l);
    forall m | ApiLegs(rows', e, m) && rows'[m.out].groupId == rows'[l.out].groupId
      ensures m == l
    {
      LegsEvolve(rows, rows', e, m);
      assert OnlyStamped(rows[m.out], rows'[m.out]) && OnlyStamped(rows[l.out], rows'[l.out]);
    }
  }

  lemma LegsEvolve(rows: seq<Item>, rows': seq<Item>, e: Item, l: Legs)
    requires Evolves(rows, rows') && e.at.Some?
    ensures ApiLegs(rows', e, l) <==> ApiLegs(rows, e, l)
  {
    if l.out < |rows| && l.into < |rows| {
      assert OnlyStamped(rows[l.out], rows'[l.out]) && OnlyStamped(rows[l.into], rows'[l.into]);
    }
  }

  // ---- one entry of the first run ------------------------------------------------------------------

  /**
   In a run no entry of which is settled by an older reading, an entry that saves is counted against
   rows from before the run, paired off, or stored.
   */
  lemma Settles(p: Progress, base: nat, batch: seq<Item>, i: nat)
    requires base <= |p.ledger.rows| && i < |batch| && !Present(batch[i].txId) && Saves(batch[i])
    requires !SettledByOldReading(p.ledger.rows, base, batch, i, Repeat(p, batch[i]))
    ensures var e, rows := batch[i], Step(p, base, batch, i).ledger.rows;
            || Counted(p.ledger.rows, base, e, EvidenceFor(e), Repeat(p, e))
            || PairedOff(rows, e)
            || rows == p.ledger.rows + [Stored(e)]
  {
    var e, l := batch[i], p.ledger;
    var v := Duplicate(l, base, batch, i, Repeat(p, e));
    if v.duplicate && !Counted(l.rows, base, e, EvidenceFor(e), Repeat(p, e)) {
      if FileDust(e) {
        if !ConversionTwinned(l.rows, e) {
          TheConversionIsWhole(l.rows, e);
          StampedIsPaired(l.rows, e, TheConversion(l.rows, e).value);
        }
      } else if !Twinned(l.rows, e) {
        var free := FreeApiRows(l.rows, e);
        assert free[0] in free;
        StampedTransferIsPaired(l.rows, e, free[0]);
      }
    }
  }

  lemma StampedIsPaired(rows: seq<Item>, e: Item, api: Legs)
    requires e.at.Some? && FileDust(e) && IsWhole(rows, e, api)
    requires rows[api.out].raw.twin.None? && rows[api.into].raw.twin.None?
    ensures PairedOff(StampBoth(rows, api, e.at.value), e)
  {
    var rows' := StampBoth(rows, api, e.at.value);
    WholeEvolves(rows, rows', e, api);
    assert api in WholeConversions(rows', e) && TwinNear(rows'[api.out], e.at.value);
  }

  lemma StampedTransferIsPaired(rows: seq<Item>, e: Item, i: nat)
    requires e.at.Some? && FileTransfer(e) && !FileDust(e) && i < |rows| && ApiRowFor(e, rows[i])
    ensures PairedOff(rows[i := Stamped(rows[i], e.at.value)], e)
  {
    var rows' := rows[i := Stamped(rows[i], e.at.value)];
    assert ApiRowFor(e, rows'[i]) && TwinNear(rows'[i], e.at.value);
  }

  /** The same event as `e` before it, and covering it. */
  predicate CoversAs(f: Item, e: Item) {
    KeyOf(f) == KeyOf(e) && Covers(f, e) && !Present(f.txId) && !Present(e.txId)
  }

  lemma {:induction false} CountCovers(rows: seq<Item>, f: Item, e: Item)
    requires CoversAs(f, e)
    ensures Count(rows, f, EvidenceFor(f)) <= Count(rows, e, EvidenceFor(e))
  {
    if rows != [] {
      CountCovers(rows[..|rows| - 1], f, e);
      CountsCovers(f, e, rows[|rows| - 1]);
    }
  }

  lemma CountsCovers(f: Item, e: Item, r: Item)
    requires CoversAs(f, e)
    ensures Counts(f, EvidenceFor(f), r) ==> Counts(e, EvidenceFor(e), r)
  {
  }

  lemma PairedOffCovers(rows: seq<Item>, f: Item, e: Item)
    requires CoversAs(f, e) && PairedOff(rows, f)
    ensures PairedOff(rows, e)
  {
    if Alike(f, e) {
      PairedOffAlike(rows, f, e);
    } else {
      UnpairableIsNotPairedOff(rows, f);
    }
  }

  lemma UnpairableIsNotPairedOff(rows: seq<Item>, f: Item)
    requires Unpairable(f)
    ensures !PairedOff(rows, f)
  {
    hide IsWhole;
    if f.at.Some? {
      forall l | l in WholeConversions(rows, f)
        ensures false
      {
        assert IsWhole(rows, f, l);
        UnpairableHasNoLegs(rows, f, l);
      }
    }
  }

  lemma UnpairableHasNoLegs(rows: seq<Item>, f: Item, l: Legs)
    requires Unpairable(f) && f.at.Some?
    ensures !IsWhole(rows, f, l)
  {
  }

  /** Until it is paired off, every identical entry that came is matched by a row of its own. */
  lemma {:induction false} RowForEach(l: Ledger, batch: seq<Item>, n: nat, e: Item)
    requires IdLessBatch(batch) && NoOldReading(l, batch) && n <= |batch|
    requires !Present(e.txId) && Saves(e)
    requires forall i :: 0 <= i < n && KeyOf(batch[i]) == KeyOf(e) ==> Covers(batch[i], e)
    ensures var rows := After(l, batch, n).ledger.rows;
            PairedOff(rows, e) || Occurrences(batch, n, KeyOf(e)) <= Count(rows, e, EvidenceFor(e))
  {
    hide Step, SettledByOldReading, PairedOff, EvidenceFor, Counts, Evolves, Covers;
    if n > 0 {
      var p, f := After(l, batch, n - 1), batch[n - 1];
      var rows, rows' := p.ledger.rows, After(l, batch, n).ledger.rows;
      RowForEach(l, batch, n - 1, e);
      StepEvolves(p, |l.rows|, batch, n - 1);
      if PairedOff(rows, e) {
        PairedOffStays(rows, rows', e);
      } else {
        assert rows[..|rows|] == rows;
        CountEvolves(rows, rows', |rows|, e, EvidenceFor(e));
        CountGrows(rows', |rows|, e, EvidenceFor(e));
        if KeyOf(f) == KeyOf(e) {
          OneMore(l, batch, n, e);
        }
      }
    }
  }

  lemma StoredCounts(e: Item, f: Item)
    requires KeyOf(f) == KeyOf(e) && !Present(f.txId) && !Present(e.txId) && Saves(e)
    ensures Counts(e, EvidenceFor(e), Stored(f))
  {
  }

  lemma OneMore(l: Ledger, batch: seq<Item>, n: nat, e: Item)
    requires IdLessBatch(batch) && NoOldReading(l, batch) && 0 < n <= |batch|
    requires Saves(e) && CoversAs(batch[n - 1], e)
    requires Occurrences(batch, n - 1, KeyOf(e)) <= Count(After(l, batch, n - 1).ledger.rows, e, EvidenceFor(e))
    ensures var rows := After(l, batch, n).ledger.rows;
            PairedOff(rows, e) || Occurrences(batch, n, KeyOf(e)) <= Count(rows, e, EvidenceFor(e))
  {
    hide Step, SettledByOldReading, PairedOff, Counts, Evolves, Tally, OnlyStamped, Count, Counted, Covers, EvidenceFor;
    var p, f, base := After(l, batch, n - 1), batch[n - 1], |l.rows|;
    var rows, rows' := p.ledger.rows, After(l, batch, n).ledger.rows;
    SaveAlike(f, e);
    Settles(p, base, batch, n - 1);
    RepeatIsOccurrences(l, batch, n - 1, KeyOf(e));
    if PairedOff(rows', f) {
      PairedOffCovers(rows', f, e);
    } else if Counted(rows, base, f, EvidenceFor(f), Repeat(p, f)) {
      StepEvolves(p, base, batch, n - 1);
      CountedStill(rows, rows', base, e, f, Repeat(p, f));
    } else {
      StoredIsOneMore(rows, e, f);
    }
  }

  lemma SaveAlike(f: Item, e: Item)
    requires KeyOf(f) == KeyOf(e)
    ensures Saves(f) <==> Saves(e)
  {
  }

  lemma CountedStill(rows: seq<Item>, rows': seq<Item>, base: nat, e: Item, f: Item, repeat: nat)
    requires Evolves(rows, rows') && base <= |rows| && CoversAs(f, e) && Counted(rows, base, f, EvidenceFor(f), repeat)
    ensures repeat < Count(rows', e, EvidenceFor(e))
  {
    hide Counts, Count, OnlyStamped, EvidenceFor, Covers;
    CountCovers(rows[..base], f, e);
    CountEvolves(rows, rows', base, e, EvidenceFor(e));
    CountGrows(rows', base, e, EvidenceFor(e));
  }

  lemma StoredIsOneMore(rows: seq<Item>, e: Item, f: Item)
    requires KeyOf(f) == KeyOf(e) && !Present(f.txId) && !Present(e.txId) && Saves(e)
    ensures Count(rows + [Stored(f)], e, EvidenceFor(e)) == Count(rows, e, EvidenceFor(e)) + 1
  {
    StoredCounts(e, f);
    assert (rows + [Stored(f)])[..|rows|] == rows;
  }

  // ---- the second run ------------------------------------------------------------------------------

  /** An entry of the second run, given that the first run left it matched or paired off. */
  lemma SecondStep(p: Progress, base: nat, batch: seq<Item>, i: nat, n: nat)
    requires base <= |p.ledger.rows| && i < |batch| && !Present(batch[i].txId)
    requires Saves(batch[i]) ==>
               PairedOff(p.ledger.rows, batch[i]) || Repeat(p, batch[i]) < Count(p.ledger.rows[..base], batch[i], EvidenceFor(batch[i]))
    ensures var q := Step(p, base, batch, i);
            && |q.ledger.rows| == |p.ledger.rows| && q.ledger.merged == p.ledger.merged
            && q.outcome.imported == p.outcome.imported && (Saves(batch[i]) ==> q.ledger == p.ledger)
  {
  }

  /** What the first run leaves for an entry: its pairing, or a row for it and for each identical one before it. */
  lemma FirstRunSettles(l: Ledger, batch: seq<Item>, i: nat)
    requires IdLessBatch(batch) && OneShapePerKey(batch) && NoOldReading(l, batch) && i < |batch| && Saves(batch[i])
    ensures var rows, e := Store(l, batch).ledger.rows, batch[i];
            PairedOff(rows, e) || Occurrences(batch, i, KeyOf(e)) < Count(rows, e, EvidenceFor(e))
  {
    hide Step, SettledByOldReading, PairedOff, EvidenceFor, Counts, Evolves;
    var e, rows, rows' := batch[i], After(l, batch, i + 1).ledger.rows, Store(l, batch).ledger.rows;
    RowForEach(l, batch, i + 1, e);
    RunEvolves(l, batch, i + 1, |batch|);
    if PairedOff(rows, e) {
      PairedOffStays(rows, rows', e);
    } else {
      EvolvedCountGrows(rows, rows', e, EvidenceFor(e));
    }
  }

  lemma EvolvedCountGrows(rows: seq<Item>, rows': seq<Item>, e: Item, ev: Evidence)
    requires Evolves(rows, rows')
    ensures Count(rows, e, ev) <= Count(rows', e, ev)
  {
    hide Counts, OnlyStamped;
    assert rows[..|rows|] == rows;
    CountEvolves(rows, rows', |rows|, e, ev);
    CountGrows(rows', |rows|, e, ev);
  }

  /** Every entry finds itself matched: nothing is stored, and a batch whose entries all save changes nothing at all. */
  lemma {:induction false} SecondRun(l: Ledger, batch: seq<Item>, n: nat)
    requires IdLessBatch(batch) && OneShapePerKey(batch) && NoOldReading(l, batch) && n <= |batch|
    ensures var l1 := Store(l, batch).ledger;
            var q := After(l1, batch, n);
            && q.outcome.imported == 0 && |q.ledger.rows| == |l1.rows| && q.ledger.merged == l1.merged
            && ((forall i :: 0 <= i < n ==> Saves(batch[i])) ==> q.ledger == l1)
  {
    hide Step, SettledByOldReading, PairedOff, EvidenceFor, Counts, Evolves;
    if n > 0 {
      var l1, i := Store(l, batch).ledger, n - 1;
      SecondRun(l, batch, i);
      var p, e, base := After(l1, batch, i), batch[i], |l1.rows|;
      if Saves(e) {
        FirstRunSettles(l, batch, i);
        RepeatIsOccurrences(l1, batch, i, KeyOf(e));
        RunEvolves(l1, batch, 0, i);
        assert l1.rows[..base] == l1.rows;
        CountEvolves(l1.rows, p.ledger.rows, base, e, EvidenceFor(e));
        if PairedOff(l1.rows, e) {
          PairedOffStays(l1.rows, p.ledger.rows, e);
        }
      }
      SecondStep(p, base, batch, i, n);
    }
  }

  /** Storing an id-less batch again stores no row. */
  lemma ReimportAddsNothing(l: Ledger, batch: seq<Item>)
    requires IdLessBatch(batch) && OneShapePerKey(batch) && NoOldReading(l, batch)
    ensures var l1 := Store(l, batch).ledger;
            var q := Store(l1, batch);
            && q.outcome.imported == 0 && |q.ledger.rows| == |l1.rows|
            && ((forall i :: 0 <= i < |batch| ==> Saves(batch[i])) ==> q.ledger == l1)
  {
    SecondRun(l, batch, |batch|);
  }

  // ---- identical plain rows, one for one -----------------------------------------------------------

  function RowsWithKey(rows: seq<Item>, key: EventKey): nat {
    if rows == [] then 0
    else RowsWithKey(rows[..|rows| - 1], key) + if KeyOf(rows[|rows| - 1]) == key then 1 else 0
  }

  lemma NoRows(key: EventKey)
    ensures RowsWithKey([], key) == 0
  {
  }

  lemma {:induction false} RowsWithKeyEvolve(rows: seq<Item>, rows': seq<Item>, key: EventKey)
    requires |rows| == |rows'| && forall i :: 0 <= i < |rows| ==> OnlyStamped(rows[i], rows'[i])
    ensures RowsWithKey(rows', key) == RowsWithKey(rows, key)
  {
    if rows != [] {
      var n := |rows| - 1;
      RowsWithKeyEvolve(rows[..n], rows'[..n], key);
      assert OnlyStamped(rows[n], rows'[n]);
    }
  }

  /** One entry adds one row of its own key, or none of any key. */
  lemma StepAdds(p: Progress, base: nat, batch: seq<Item>, i: nat, key: EventKey)
    requires base <= |p.ledger.rows| && i < |batch| && !Present(batch[i].txId)
    ensures var d := Duplicate(p.ledger, base, batch, i, Repeat(p, batch[i])).duplicate;
            RowsWithKey(Step(p, base, batch, i).ledger.rows[base..], key)
            == RowsWithKey(p.ledger.rows[base..], key) + if !d && Saves(batch[i]) && KeyOf(batch[i]) == key then 1 else 0
  {
    hide Duplicate;
    var e, rows := batch[i], p.ledger.rows;
    var v := Duplicate(p.ledger, base, batch, i, Repeat(p, e));
    StepEvolves(p, base, batch, i);
    var rows' := Step(p, base, batch, i).ledger.rows;
    RowsWithKeyEvolve(rows[base..], rows'[base..|rows|], key);
    if !v.duplicate && Saves(e) {
      NewRowIsLast(p, base, batch, i);
      assert rows'[base..] == rows[base..] + [Stored(e)];
      assert (rows[base..] + [Stored(e)])[..|rows| - base] == rows[base..];
    } else {
      SameLength(p, base, batch, i);
      assert rows'[base..|rows|] == rows'[base..];
    }
  }

  lemma NewRowIsLast(p: Progress, base: nat, batch: seq<Item>, i: nat)
    requires base <= |p.ledger.rows| && i < |batch| && !Present(batch[i].txId) && Saves(batch[i])
    requires !Duplicate(p.ledger, base, batch, i, Repeat(p, batch[i])).duplicate
    ensures Step(p, base, batch, i).ledger.rows == p.ledger.rows + [Stored(batch[i])]
  {
  }

  lemma SameLength(p: Progress, base: nat, batch: seq<Item>, i: nat)
    requires base <= |p.ledger.rows| && i < |batch| && !Present(batch[i].txId)
    requires Duplicate(p.ledger, base, batch, i, Repeat(p, batch[i])).duplicate || !Saves(batch[i])
    ensures |Step(p, base, batch, i).ledger.rows| == |p.ledger.rows|
  {
    hide Duplicate;
    KeepsLength(p.ledger, base, batch, i, Repeat(p, batch[i]));
  }

  lemma KeepsLength(l: Ledger, base: nat, batch: seq<Item>, i: nat, repeat: nat)
    requires base <= |l.rows| && i < |batch|
    ensures |Duplicate(l, base, batch, i, repeat).rows| == |l.rows|
  {
  }

  /** Nothing but the count decides about a plain entry. */
  lemma PlainIsCounted(l: Ledger, base: nat, batch: seq<Item>, i: nat, repeat: nat)
    requires base <= |l.rows| && i < |batch| && !Present(batch[i].txId)
    requires !FileDust(batch[i]) && !FileTransfer(batch[i]) && !SettledByOldReading(l.rows, base, batch, i, repeat)
    ensures Duplicate(l, base, batch, i, repeat).duplicate <==> Counted(l.rows, base, batch[i], AnyRow, repeat)
  {
  }

  /**
   Of the plain entries of one key in an id-less batch, exactly those in excess of the matching rows that
   were there before the run are stored: `max(0, n - m)` of `n` entries against `m` rows.
   */
  lemma {:induction false} ExactlyTheExcess(l: Ledger, batch: seq<Item>, n: nat, e: Item)
    requires IdLessBatch(batch) && NoOldReading(l, batch) && n <= |batch|
    requires !Present(e.txId) && Saves(e) && !FileDust(e) && !FileTransfer(e)
    requires forall i :: 0 <= i < |batch| && KeyOf(batch[i]) == KeyOf(e) ==> Alike(batch[i], e)
    ensures RowsWithKey(After(l, batch, n).ledger.rows[|l.rows|..], KeyOf(e))
         == Max(0, Occurrences(batch, n, KeyOf(e)) - Count(l.rows, e, AnyRow))
  {
    hide Step, Duplicate, Count, RowsWithKey, Alike, NoOldReading;
    if n > 0 {
      ExactlyTheExcess(l, batch, n - 1, e);
      StepAdds(After(l, batch, n - 1), |l.rows|, batch, n - 1, KeyOf(e));
      if KeyOf(batch[n - 1]) == KeyOf(e) {
        StoredBeyondTheCount(l, batch, n - 1, e);
      }
    } else {
      NoRows(KeyOf(e));
      assert l.rows[|l.rows|..] == [];
    }
  }

  /** A plain entry is stored once as many identical ones came as rows were there before the run. */
  lemma StoredBeyondTheCount(l: Ledger, batch: seq<Item>, i: nat, e: Item)
    requires IdLessBatch(batch) && NoOldReading(l, batch) && i < |batch|
    requires !FileDust(e) && !FileTransfer(e) && Saves(e) && Alike(batch[i], e)
    ensures var p := After(l, batch, i);
            Duplicate(p.ledger, |l.rows|, batch, i, Repeat(p, batch[i])).duplicate
            <==> Occurrences(batch, i, KeyOf(e)) < Count(l.rows, e, AnyRow)
  {
    hide Duplicate, SettledByOldReading, Count, Step;
    var p, f, base := After(l, batch, i), batch[i], |l.rows|;
    RepeatIsOccurrences(l, batch, i, KeyOf(e));
    CountStays(l, batch, i, e);
    PlainIsCounted(p.ledger, base, batch, i, Repeat(p, f));
  }

  /** The rows from before the run count for as much all through it. */
  lemma CountStays(l: Ledger, batch: seq<Item>, i: nat, e: Item)
    requires IdLessBatch(batch) && i < |batch| && Alike(batch[i], e)
    ensures Count(After(l, batch, i).ledger.rows[..|l.rows|], batch[i], AnyRow) == Count(l.rows, e, AnyRow)
  {
    hide Step, Evolves, Counts, Count;
    var rows, base := After(l, batch, i).ledger.rows, |l.rows|;
    RunEvolves(l, batch, 0, i);
    CountEvolves(l.rows, rows, base, e, AnyRow);
    CountAlike(rows[..base], e, batch[i], AnyRow);
    assert l.rows[..base] == l.rows;
  }

  // ---- where it fails ------------------------------------------------------------------------------

  const PLAIN_RAW: Raw := Raw("", false, Absent, 1.0, 0.0, "", None, 0.0, {}, None)

  function DepositAt(id: Option<string>, raw: Raw): Item {
    Item(Deposit, "BTC", 1.0, None, None, None, None, Some(0), id, "", raw)
  }

  function ApiDeposit(id: string): Item {
    DepositAt(Some(id), PLAIN_RAW.(hasInsertTime := true))
  }

  /** Cash paid in, which the export writes under a name of its own. */
  function PlainDeposit(): Item {
    DepositAt(None, PLAIN_RAW.(operation := "Fiat Deposit"))
  }

  function ExportDeposit(): Item {
    DepositAt(None, PLAIN_RAW.(operation := "Deposit"))
  }

  /**
   Two entries that look identical, one written as the export writes a transfer and one not, against two API
   deposits either could be: the second import stores the transfer once more.
   */
  lemma MixedShapesAreStoredAgain()
    ensures var l, batch := Ledger([ApiDeposit("1"), ApiDeposit("2")], {}), [PlainDeposit(), ExportDeposit()];
            && IdLessBatch(batch) && !OneShapePerKey(batch)
            && |Store(l, batch).ledger.rows| == 3
            && |Store(Store(l, batch).ledger, batch).ledger.rows| == 4
  {
    hide Store, Covers, Saves, FileDust, FileTransfer, PlainDeposit, ExportDeposit;
    var l, batch := Ledger([ApiDeposit("1"), ApiDeposit("2")], {}), [PlainDeposit(), ExportDeposit()];
    var again := Store(l, batch).ledger;
    TheirShapes();
    MixedShapesStore(l, []);
    assert l.rows + [] == l.rows;
    MixedShapesStore(again, [ExportDeposit()]);
    assert KeyOf(batch[0]) == KeyOf(batch[1]) && Saves(batch[1]) && !Covers(batch[0], batch[1]);
  }

  lemma TheirShapes()
    ensures !FileDust(PlainDeposit()) && !FileTransfer(PlainDeposit()) && !FileDust(ExportDeposit())
    ensures FileTransfer(ExportDeposit())
    ensures Saves(ExportDeposit()) && Stored(ExportDeposit()) == ExportDeposit()
    ensures !Covers(PlainDeposit(), ExportDeposit())
    ensures KeyOf(PlainDeposit()) == KeyOf(ExportDeposit()) && !Present(PlainDeposit().txId)
    ensures !Present(ExportDeposit().txId)
    ensures ApiTransfer(ApiDeposit("1")) && ApiTransfer(ApiDeposit("2"))
  {
    assert "1"[0] == '1' && "2"[0] == '2' && "BTC"[0] == 'B';
  }

  lemma CountMore(rows: seq<Item>, r: Item, e: Item, ev: Evidence)
    ensures Count(rows + [r], e, ev) == Count(rows, e, ev) + if Counts(e, ev, r) then 1 else 0
  {
    assert (rows + [r])[..|rows|] == rows;
  }

  lemma TheirCounts(more: seq<Item>)
    requires more == [] || more == [ExportDeposit()]
    ensures Count([ApiDeposit("1"), ApiDeposit("2")] + more, PlainDeposit(), AnyRow) >= 2
    ensures Count([ApiDeposit("1"), ApiDeposit("2")] + more, ExportDeposit(), NotApiTransfer) <= 1
  {
    var one, two := ApiDeposit("1"), ApiDeposit("2");
    TheirShapes();
    var both := [one] + [two];
    assert both == [one, two] && [] + [one] == [one];
    CountMore([], one, PlainDeposit(), AnyRow);
    CountMore([one], two, PlainDeposit(), AnyRow);
    CountMore([], one, ExportDeposit(), NotApiTransfer);
    CountMore([one], two, ExportDeposit(), NotApiTransfer);
    if more == [] {
      assert [one, two] + more == both;
    } else {
      CountMore(both, ExportDeposit(), PlainDeposit(), AnyRow);
      CountMore(both, ExportDeposit(), ExportDeposit(), NotApiTransfer);
    }
  }

  lemma PlainIsSettled(l: Ledger, more: seq<Item>)
    requires (more == [] || more == [ExportDeposit()]) && l.rows == [ApiDeposit("1"), ApiDeposit("2")] + more
    ensures Duplicate(l, |l.rows|, [PlainDeposit(), ExportDeposit()], 0, 0) == Verdict(true, l.rows)
  {
    TheirShapes();
    TheirCounts(more);
    assert l.rows[..|l.rows|] == l.rows;
  }

  lemma ExportIsStored(l: Ledger, more: seq<Item>)
    requires (more == [] || more == [ExportDeposit()]) && l.rows == [ApiDeposit("1"), ApiDeposit("2")] + more
    ensures Duplicate(l, |l.rows|, [PlainDeposit(), ExportDeposit()], 1, 1) == Verdict(false, l.rows)
  {
    hide Count, SameEvent, Blank;
    TheirShapes();
    TheirCounts(more);
    assert l.rows[..|l.rows|] == l.rows;
    var free := FreeApiRows(l.rows, ExportDeposit());
    assert ApiRowFor(ExportDeposit(), l.rows[0]) && ApiRowFor(ExportDeposit(), l.rows[1]);
    assert 0 in free && 1 in free;
    assert |free| != 1;
    assert forall i :: 0 <= i < |l.rows| ==> !TwinNear(l.rows[i], 0);
    assert !Twinned(l.rows, ExportDeposit());
  }

  lemma MixedShapesStore(l: Ledger, more: seq<Item>)
    requires (more == [] || more == [ExportDeposit()]) && l.rows == [ApiDeposit("1"), ApiDeposit("2")] + more
    ensures Store(l, [PlainDeposit(), ExportDeposit()]).ledger.rows == l.rows + [ExportDeposit()]
  {
    var batch := [PlainDeposit(), ExportDeposit()];
    TheirShapes();
    PlainIsSettled(l, more);
    ExportIsStored(l, more);
    hide Duplicate, Stored, Saves;
    var none := After(l, batch, 0);
    assert none.ledger == l && Repeat(none, batch[0]) == 0;
    var first := After(l, batch, 1);
    assert first == Step(none, |l.rows|, batch, 0);
    assert first.ledger == l && Repeat(first, batch[1]) == 1;
    assert After(l, batch, 2) == Step(first, |l.rows|, batch, 1);
  }
}
