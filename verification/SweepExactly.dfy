/** When the legs of one sweep from one source add no rows beside the other source's, told in their fields. */
module SweepExactly {
  import opened Prelude
  import opened LedgerRows
  import opened LedgerStore
  import opened DustConvergence
  import opened DustStrangers
  import opened PairingExactly

  /** The API's two rows of one coin: one detail, gross and charge beside each other. */
  predicate SweepByApi(id: string, o: Item, n: Item) {
    && id != "" && '0' <= id[|id| - 1] <= '9' && "dust-" <= id
    && o.kind == SwapOut && n.kind == SwapIn && o.txId == Some(id + "-out") && n.txId == Some(id + "-in")
    && o.groupId == n.groupId && o.raw == n.raw && o.raw.transfered.Some? && o.raw.twin.None? && o.at == n.at
    && o.raw.mergedIds == {}
    && Complete(o) && Complete(n)
  }

  /** The export's two rows of one coin: one group, no ids. */
  predicate SweepByExport(o: Item, n: Item) {
    && o.kind == SwapOut && n.kind == SwapIn && o.txId.None? && n.txId.None?
    && o.groupId == n.groupId && "dustcsv" <= o.groupId && o.raw.transfered.None? && n.raw.transfered.None?
    && Complete(o) && Complete(n)
  }

  /** The coin and amount out, the BNB in net of the charge to a unit of the 8th decimal, within a second. */
  predicate OneSweep(a: Item, o: Item, n: Item) {
    && a.at.Some? && o.at.Some? && n.at.Some? && a.raw.transfered.Some?
    && o.currency == a.raw.fromAsset && o.amount == a.raw.amount
    && n.currency == "BNB"
    && -0.00000001 <= n.amount - (a.raw.transfered.value - a.raw.serviceCharge) <= 0.00000001
    && -1_000_000 <= o.at.value - a.at.value <= 1_000_000 && -1_000_000 <= n.at.value - a.at.value <= 1_000_000
  }

  /** One source's two legs, either leg first. */
  function Pair(o: Item, n: Item, outFirst: bool): seq<Item> {
    if outFirst then [o, n] else [n, o]
  }

  function First(o: Item, n: Item, outFirst: bool): Item {
    if outFirst then o else n
  }

  function At(outFirst: bool): Legs {
    if outFirst then Legs(0, 1) else Legs(1, 0)
  }

  /** Two entries of different kinds, one after the other. */
  lemma TwoEntries(l: Ledger, e: Item, f: Item)
    requires Complete(e) && Complete(f) && e.kind != f.kind
    ensures var v := Duplicate(l, |l.rows|, [e, f], 0, 0);
            var l1 := if v.duplicate then Ledger(v.rows, l.merged) else Ledger(v.rows + [Stored(e)], l.merged + e.raw.mergedIds);
            var w := Duplicate(l1, |l.rows|, [e, f], 1, 0);
            Store(l, [e, f]).ledger.rows == if w.duplicate then w.rows else w.rows + [Stored(f)]
  {
    hide Duplicate, Stored;
    SaysIsPresent(e.currency);
    SaysIsPresent(f.currency);
    var batch := [e, f];
    assert After(l, batch, 0).ledger == l && Repeat(After(l, batch, 0), e) == 0;
    assert After(l, batch, 1) == Step(After(l, batch, 0), |l.rows|, batch, 0);
    assert Repeat(After(l, batch, 1), f) == 0;
    assert After(l, batch, 2) == Step(After(l, batch, 1), |l.rows|, batch, 1);
  }

  // ---- the API's rows first ------------------------------------------------------------------------

  /** The export leg finds the API's two rows exactly when it is a leg of theirs. */
  predicate LegOf(a: Item, e: Item, out: bool) {
    && a.at.Some? && e.at.Some? && a.raw.transfered.Some? && -1_000_000 <= e.at.value - a.at.value <= 1_000_000
    && if out then e.currency == a.raw.fromAsset && e.amount == a.raw.amount
       else
         && e.currency == "BNB"
         && -0.00000001 <= e.amount - (a.raw.transfered.value - a.raw.serviceCharge) <= 0.00000001
  }

  lemma ApiRowIs(a: Item, e: Item, out: bool)
    requires SweptByApi(a) && a.at.Some? && e.at.Some? && e.kind == if out then SwapOut else SwapIn
    ensures ApiDustRowFor(e, e.at.value, a) <==> LegOf(a, e, out)
  {
  }

  /** The rows, and whatever export legs were stored after them. */
  predicate Begins(rows: seq<Item>, id: string, o: Item, n: Item, outFirst: bool) {
    SweepByApi(id, o, n) && |rows| >= 2 && rows[..2] == Pair(o, n, outFirst)
      && forall i :: 2 <= i < |rows| ==> rows[i].txId.None?
  }

  lemma TheRows(rows: seq<Item>, id: string, o: Item, n: Item, outFirst: bool)
    requires Begins(rows, id, o, n, outFirst)
    ensures rows[At(outFirst).out] == o && rows[At(outFirst).into] == n
    ensures SweptByApi(o) && SweptByApi(n)
  {
    assert rows[0] == rows[..2][0] && rows[1] == rows[..2][1];
    assert "dust-" <= id + "-out" && "dust-" <= id + "-in";
  }

  lemma ConversionFound(rows: seq<Item>, id: string, o: Item, n: Item, outFirst: bool, e: Item, out: bool)
    requires Begins(rows, id, o, n, outFirst) && e.at.Some? && e.kind == if out then SwapOut else SwapIn
    ensures TheConversion(rows, e) == if LegOf(o, e, out) then Some(At(outFirst)) else None
    ensures !ConversionTwinned(rows, e)
  {
    TheRows(rows, id, o, n, outFirst);
    ApiRowIs(o, e, out);
    ApiRowIs(n, e, out);
    hide LegOf, Complete, SweptByApi;
    assert LegOf(o, e, out) <==> LegOf(n, e, out) by {
      SameDetail(o, n, e, out);
    }
    forall i | 2 <= i < |rows|
      ensures !ApiDustRowFor(e, e.at.value, rows[i])
    {
    }
    hide ApiDustRowFor;
    if LegOf(o, e, out) {
      TheLegPair(rows, (r: Item) => ApiDustRowFor(e, e.at.value, r), At(outFirst));
      assert AllApiLegs(rows, e) == [At(outFirst)];
      OnlyWhole(rows, e, At(outFirst));
      UnstampedIsFree(rows, e, At(outFirst));
    } else {
      NoLegPair(rows, (r: Item) => ApiDustRowFor(e, e.at.value, r), SwapOut);
      assert AllApiLegs(rows, e) == [];
      assert WholeConversions(rows, e) == [];
    }
  }

  lemma SameDetail(o: Item, n: Item, e: Item, out: bool)
    requires o.raw == n.raw && o.at == n.at
    ensures LegOf(o, e, out) <==> LegOf(n, e, out)
  {
  }

  lemma GroupFound(o: Item, n: Item, outFirst: bool, a: Item)
    requires SweepByExport(o, n) && SweptByApi(a) && a.at.Some?
    ensures TheGroup(Pair(o, n, outFirst), a) == if OneSweep(a, o, n) then Some(o.groupId) else None
  {
    var batch := Pair(o, n, outFirst);
    assert BatchLeg(a, o) <==> LegOf(a, o, true);
    assert BatchLeg(a, n) <==> LegOf(a, n, false);
    hide BatchLeg, Complete;
    if OneSweep(a, o, n) {
      TheLegPair(batch, (other: Item) => BatchLeg(a, other), At(outFirst));
      assert BatchLegs(batch, a) == [At(outFirst)];
    } else if !LegOf(a, o, true) {
      NoLegPair(batch, (other: Item) => BatchLeg(a, other), SwapOut);
      assert BatchLegs(batch, a) == [];
    } else {
      NoLegPair(batch, (other: Item) => BatchLeg(a, other), SwapIn);
      assert BatchLegs(batch, a) == [];
    }
  }

  lemma ApiRowsAreNoEvidence(rows: seq<Item>, id: string, o: Item, n: Item, outFirst: bool, e: Item)
    requires Begins(rows, id, o, n, outFirst) && e.at.Some?
    ensures !Counted(rows, 2, e, NotApiDust, 0)
  {
    TheRows(rows, id, o, n, outFirst);
    assert forall i :: 0 <= i < 2 ==> rows[..2][i] == rows[i];
    CountZero(rows[..2], e, NotApiDust);
  }

  /** While the API's rows are not marked, an export leg marks both exactly when the sweeps are one. */
  lemma ExportLegVerdict(l: Ledger, id: string, o: Item, n: Item, outFirst: bool, p: Item, q: Item, legFirst: bool, i: nat)
    requires Begins(l.rows, id, o, n, outFirst) && SweepByExport(p, q) && i < 2
    ensures var batch := Pair(p, q, legFirst);
            Duplicate(l, 2, batch, i, 0)
            == if OneSweep(o, p, q) then Verdict(true, StampBoth(l.rows, At(outFirst), batch[i].at.value))
               else Verdict(false, l.rows)
  {
    hide Begins, SweepByExport, OneSweep, LegOf, TheConversion, TheGroup, ConversionTwinned, Counted, StampBoth, FileDust,
         Present, SweptByApi;
    var batch := Pair(p, q, legFirst);
    var e, out := batch[i], if legFirst then i == 0 else i == 1;
    LegFacts(p, q, legFirst, i, o);
    RowFacts(l.rows, id, o, n, outFirst);
    ApiRowsAreNoEvidence(l.rows, id, o, n, outFirst, e);
    ConversionFound(l.rows, id, o, n, outFirst, e, out);
    GroupFound(p, q, legFirst, l.rows[0]);
    SameSweep(o, n, p, q);
  }

  lemma LegFacts(p: Item, q: Item, legFirst: bool, i: nat, o: Item)
    requires SweepByExport(p, q) && i < 2
    ensures var e, out := Pair(p, q, legFirst)[i], if legFirst then i == 0 else i == 1;
            && FileDust(e) && !Present(e.txId) && e.at.Some? && e.kind == (if out then SwapOut else SwapIn)
            && e.groupId == p.groupId && (OneSweep(o, p, q) ==> LegOf(o, e, out))
  {
  }

  lemma RowFacts(rows: seq<Item>, id: string, o: Item, n: Item, outFirst: bool)
    requires Begins(rows, id, o, n, outFirst)
    ensures |rows| >= 2 && (rows[0] == o || rows[0] == n) && SweptByApi(rows[0]) && rows[0].at.Some?
    ensures o.raw == n.raw && o.at == n.at
  {
    TheRows(rows, id, o, n, outFirst);
  }

  lemma SameSweep(o: Item, n: Item, p: Item, q: Item)
    requires o.raw == n.raw && o.at == n.at
    ensures OneSweep(o, p, q) <==> OneSweep(n, p, q)
  {
  }

  /** The two rows, marked. */
  function Marked(rows: seq<Item>, at: Time): seq<Item>
    requires |rows| == 2
  {
    [rows[0].(raw := rows[0].raw.(twin := Some(at))), rows[1].(raw := rows[1].raw.(twin := Some(at)))]
  }

  /** Once they are, the other leg is known to within a second of the one that marked them. */
  lemma MarkedVerdict(merged: set<string>, id: string, o: Item, n: Item, outFirst: bool, p: Item, q: Item,
                      legFirst: bool, at: Time)
    requires SweepByApi(id, o, n) && SweepByExport(p, q) && OneSweep(o, p, q)
    ensures var batch, rows := Pair(p, q, legFirst), Marked(Pair(o, n, outFirst), at);
            Duplicate(Ledger(rows, merged), 2, batch, 1, 0)
            == Verdict(-1_000_000 < at - batch[1].at.value < 1_000_000, rows)
  {
    var batch, rows := Pair(p, q, legFirst), Marked(Pair(o, n, outFirst), at);
    var e, out := batch[1], !legFirst;
    assert "dust-" <= id + "-out" && "dust-" <= id + "-in";
    ApiRowIs(rows[0], e, out);
    ApiRowIs(rows[1], e, out);
    assert LegOf(rows[0], e, out) && LegOf(rows[1], e, out);
    assert rows[..2] == rows;
    CountZero(rows[..2], e, NotApiDust);
    TheLegPair(rows, (r: Item) => ApiDustRowFor(e, e.at.value, r), At(outFirst));
    assert AllApiLegs(rows, e) == [At(outFirst)];
    OnlyWhole(rows, e, At(outFirst));
    assert rows[0].raw.twin == Some(at) && rows[1].raw.twin == Some(at);
    LegFacts(p, q, legFirst, 1, o);
    MarkedIsTwinned(rows, e, At(outFirst), at);
    hide *;
    TwinDecides(merged, rows, batch);
  }

  lemma TwinDecides(merged: set<string>, rows: seq<Item>, batch: seq<Item>)
    requires |rows| == |batch| == 2 && batch[1].at.Some? && FileDust(batch[1]) && !Present(batch[1].txId)
    requires !Counted(rows, 2, batch[1], NotApiDust, 0) && TheConversion(rows, batch[1]) == None
    ensures Duplicate(Ledger(rows, merged), 2, batch, 1, 0) == Verdict(ConversionTwinned(rows, batch[1]), rows)
  {
    hide Counted, TheConversion, ConversionTwinned, FileDust, Present;
  }

  lemma MarkedIsTwinned(rows: seq<Item>, e: Item, l: Legs, at: Time)
    requires e.at.Some? && WholeConversions(rows, e) == [l] && l.out < |rows| && l.into < |rows|
    requires rows[l.out].raw.twin == Some(at) && rows[l.into].raw.twin == Some(at)
    ensures ConversionTwinned(rows, e) <==> -1_000_000 < at - e.at.value < 1_000_000
    ensures TheConversion(rows, e) == None
  {
    hide IsWhole, ApiLegs, WholeConversions;
    assert [l][0] in WholeConversions(rows, e);
    SomeIn(FreeConversions(rows, e));
  }

  /**
   The export's two legs beside the API's two rows: both are marked on them exactly when the sweeps are one and the
   export dates its legs less than a second apart.
   */
  lemma ExportSweepAfterApi(id: string, o: Item, n: Item, outFirst: bool, p: Item, q: Item, legFirst: bool)
    requires SweepByApi(id, o, n) && SweepByExport(p, q)
    ensures var api, batch := Pair(o, n, outFirst), Pair(p, q, legFirst);
            var first, second := batch[0], batch[1];
            Store(Ledger(api, {}), batch).ledger.rows
            == if !OneSweep(o, p, q) then api + [Stored(first), Stored(second)]
               else if -1_000_000 < first.at.value - second.at.value < 1_000_000 then Marked(api, first.at.value)
               else Marked(api, first.at.value) + [Stored(second)]
  {
    hide Duplicate, OneSweep, StampBoth;
    var api, batch := Pair(o, n, outFirst), Pair(p, q, legFirst);
    var l := Ledger(api, {});
    assert api[..2] == api;
    ExportLegVerdict(l, id, o, n, outFirst, p, q, legFirst, 0);
    assert [batch[0], batch[1]] == batch;
    TwoEntries(l, batch[0], batch[1]);
    if OneSweep(o, p, q) {
      MarkedVerdict({}, id, o, n, outFirst, p, q, legFirst, batch[0].at.value);
      StampedRows(api, outFirst, batch[0].at.value);
    } else {
      var l1 := Ledger(api + [Stored(batch[0])], {} + batch[0].raw.mergedIds);
      assert l1.rows[..2] == api;
      ExportLegVerdict(l1, id, o, n, outFirst, p, q, legFirst, 1);
      assert api + [Stored(batch[0]), Stored(batch[1])] == l1.rows + [Stored(batch[1])];
    }
    hide SweepByApi, SweepByExport, Stored, Marked;
  }

  lemma StampedRows(api: seq<Item>, outFirst: bool, at: Time)
    requires |api| == 2
    ensures StampBoth(api, At(outFirst), at) == Marked(api, at)
  {
  }

  // ---- the export's rows first ---------------------------------------------------------------------

  lemma ExportRowIs(a: Item, r: Item, out: bool)
    requires a.at.Some? && a.raw.transfered.Some? && r.txId.None? && "dustcsv" <= r.groupId && r.at.Some?
    requires r.kind == if out then SwapOut else SwapIn
    ensures FreeDustLeg(ConversionOf(a.raw), a.at.value, r) <==> LegOf(a, r, out)
  {
  }

  lemma LegsFound(rows: seq<Item>, p: Item, q: Item, outFirst: bool, a: Item)
    requires SweepByExport(p, q) && SweptByApi(a) && a.at.Some?
    requires |rows| >= 2 && rows[..2] == Pair(p, q, outFirst) && forall i :: 2 <= i < |rows| ==> rows[i].txId.Some?
    ensures FreeDust(rows, a) == if OneSweep(a, p, q) then [At(outFirst)] else []
  {
    assert rows[0] == rows[..2][0] && rows[1] == rows[..2][1];
    ExportRowIs(a, p, true);
    ExportRowIs(a, q, false);
    forall i | 2 <= i < |rows|
      ensures !FreeDustLeg(ConversionOf(a.raw), a.at.value, rows[i])
    {
    }
    hide FreeDustLeg, Complete;
    if OneSweep(a, p, q) {
      TheLegPair(rows, (r: Item) => FreeDustLeg(ConversionOf(a.raw), a.at.value, r), At(outFirst));
    } else if !LegOf(a, p, true) {
      NoLegPair(rows, (r: Item) => FreeDustLeg(ConversionOf(a.raw), a.at.value, r), SwapOut);
    } else {
      NoLegPair(rows, (r: Item) => FreeDustLeg(ConversionOf(a.raw), a.at.value, r), SwapIn);
    }
  }

  /** An API leg whose id is not known takes both export rows exactly when the sweeps are one. */
  lemma ApiLegVerdict(l: Ledger, id: string, o: Item, n: Item, p: Item, q: Item, outFirst: bool, a: Item,
                      batch: seq<Item>, i: nat)
    requires SweepByApi(id, o, n) && SweepByExport(p, q) && a in {o, n} && i < |batch| && batch[i] == a
    requires |l.rows| >= 2 && l.rows[..2] == Pair(p, q, outFirst) && !KnownId(l, a.txId)
    requires forall j :: 2 <= j < |l.rows| ==> l.rows[j].txId.Some?
    ensures Duplicate(l, 2, batch, i, 0)
         == if OneSweep(o, p, q) then Verdict(true, TakeBoth(l.rows, At(outFirst), id)) else Verdict(false, l.rows)
  {
    hide SweepByExport, OneSweep, KnownId, TakeBoth, Counted, FreeDust, ConversionId;
    ApiLegFacts(id, o, n, a);
    ExportRowsAreNoEvidence(l.rows, p, q, outFirst, a);
    LegsFound(l.rows, p, q, outFirst, a);
    assert OneSweep(a, p, q) <==> OneSweep(o, p, q) by {
      SameSweep(o, n, p, q);
    }
    hide SweepByApi, SweptByApi, ApiDust, Present;
  }

  lemma ApiLegFacts(id: string, o: Item, n: Item, a: Item)
    requires SweepByApi(id, o, n) && a in {o, n}
    ensures SweptByApi(a) && ApiDust(a) && a.at.Some? && Present(a.txId) && a.raw == o.raw && a.at == o.at
    ensures ConversionId(a.txId.value) == id
  {
    LegIdsUnravel(id);
    assert (id + "-out")[0] == 'd' && (id + "-in")[0] == 'd';
    assert "dust-" <= id + "-out" && "dust-" <= id + "-in";
  }

  lemma ExportRowsAreNoEvidence(rows: seq<Item>, p: Item, q: Item, outFirst: bool, a: Item)
    requires SweepByExport(p, q) && |rows| >= 2 && rows[..2] == Pair(p, q, outFirst)
    ensures !Counted(rows, 2, a, IdLessNotFileDust, 0)
  {
    CountZero(rows[..2], a, IdLessNotFileDust);
  }

  /** The two rows, with their ids. */
  function Identified(p: Item, q: Item, outFirst: bool, id: string): seq<Item> {
    Pair(p.(txId := Some(id + "-out")), q.(txId := Some(id + "-in")), outFirst)
  }

  lemma TakenRows(id: string, p: Item, q: Item, outFirst: bool)
    requires SweepByExport(p, q)
    ensures TakeBoth(Pair(p, q, outFirst), At(outFirst), id) == Identified(p, q, outFirst, id)
  {
  }

  lemma BothKnown(id: string, o: Item, n: Item, p: Item, q: Item, outFirst: bool, a: Item, batch: seq<Item>, i: nat)
    requires SweepByApi(id, o, n) && a in {o, n} && i < |batch| && batch[i] == a
    ensures Duplicate(Ledger(Identified(p, q, outFirst, id), {}), 2, batch, i, 0)
         == Verdict(true, Identified(p, q, outFirst, id))
  {
    ApiLegFacts(id, o, n, a);
    var rows := Identified(p, q, outFirst, id);
    assert rows[0].txId == a.txId || rows[1].txId == a.txId;
    hide ApiDustTwin, ApiTransferTwin, Counted;
  }

  lemma NotYetKnown(id: string, o: Item, n: Item, p: Item, q: Item, outFirst: bool, apiFirst: bool)
    requires SweepByApi(id, o, n) && SweepByExport(p, q)
    ensures var batch, rows := Pair(o, n, apiFirst), Pair(p, q, outFirst);
            !KnownId(Ledger(rows, {}), batch[0].txId)
            && !KnownId(Ledger(rows + [Stored(batch[0])], {} + batch[0].raw.mergedIds), batch[1].txId)
  {
    assert (id + "-out")[|id| + 1] == 'o' && (id + "-in")[|id| + 1] == 'i';
  }

  /** The API's two legs beside the export's two rows: both take their ids exactly when the sweeps are one. */
  lemma ApiSweepAfterExport(id: string, o: Item, n: Item, apiFirst: bool, p: Item, q: Item, outFirst: bool)
    requires SweepByApi(id, o, n) && SweepByExport(p, q)
    ensures var rows, batch := Pair(p, q, outFirst), Pair(o, n, apiFirst);
            Store(Ledger(rows, {}), batch).ledger.rows
            == if OneSweep(o, p, q) then Identified(p, q, outFirst, id)
               else rows + [Stored(batch[0]), Stored(batch[1])]
  {
    var rows, batch := Pair(p, q, outFirst), Pair(o, n, apiFirst);
    var l := Ledger(rows, {});
    assert rows[..2] == rows && [batch[0], batch[1]] == batch;
    NotYetKnown(id, o, n, p, q, outFirst, apiFirst);
    ApiLegVerdict(l, id, o, n, p, q, outFirst, batch[0], batch, 0);
    TwoEntries(l, batch[0], batch[1]);
    if OneSweep(o, p, q) {
      TakenRows(id, p, q, outFirst);
      BothKnown(id, o, n, p, q, outFirst, batch[1], batch, 1);
    } else {
      ApiLegFacts(id, o, n, batch[0]);
      var l1 := Ledger(rows + [Stored(batch[0])], {} + batch[0].raw.mergedIds);
      assert l1.rows[..2] == rows;
      ApiLegVerdict(l1, id, o, n, p, q, outFirst, batch[1], batch, 1);
      assert rows + [Stored(batch[0]), Stored(batch[1])] == l1.rows + [Stored(batch[1])];
    }
    hide Duplicate, SweepByApi, SweepByExport, OneSweep, Stored, TakeBoth, Identified;
  }
}
