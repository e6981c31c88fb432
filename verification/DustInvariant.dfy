/** At every ledger the sync can reach, dust conversions are paired whole: both legs or neither. */
module DustInvariant {
  import opened Prelude
  import opened LedgerRows
  import opened LedgerStore

  /** What the sources promise: no adapter writes a pairing, and an export leg has neither an id nor an API's amounts. */
  predicate Sourced(e: Item) {
    e.raw.twin.None? && (FileDust(e) ==> !Present(e.txId) && e.raw.transfered.None?)
  }

  predicate SourcedBatch(batch: seq<Item>) {
    forall i :: 0 <= i < |batch| ==> Sourced(batch[i])
  }

  predicate OppositeLegs(rows: seq<Item>, l: Legs) {
    && l.out < |rows| && l.into < |rows| && rows[l.out].kind == SwapOut && rows[l.into].kind == SwapIn
    && rows[l.out].groupId == rows[l.into].groupId
  }

  /** Two export legs of one group that hold the two ids of one API conversion. */
  predicate TakenPair(rows: seq<Item>, l: Legs, id: string) {
    && OppositeLegs(rows, l) && FileDust(rows[l.out]) && FileDust(rows[l.into])
    && rows[l.out].txId == Some(id + "-out") && rows[l.into].txId == Some(id + "-in")
  }

  /** Two rows of one API conversion stamped with one export date. */
  predicate StampedPair(rows: seq<Item>, l: Legs, at: Time) {
    && OppositeLegs(rows, l) && ApiDust(rows[l.out]) && ApiDust(rows[l.into])
    && rows[l.out].raw.twin == Some(at) && rows[l.into].raw.twin == Some(at)
  }

  ghost predicate InTakenPair(rows: seq<Item>, i: nat) {
    exists l, id :: TakenPair(rows, l, id) && (l.out == i || l.into == i)
  }

  ghost predicate InStampedPair(rows: seq<Item>, i: nat) {
    exists l, at :: StampedPair(rows, l, at) && (l.out == i || l.into == i)
  }

  ghost predicate RowWhole(rows: seq<Item>, i: nat)
    requires i < |rows|
  {
    && (FileDust(rows[i]) ==> rows[i].raw.transfered.None?)
    && (FileDust(rows[i]) && rows[i].txId.Some? ==> InTakenPair(rows, i))
    && (ApiDust(rows[i]) && rows[i].raw.twin.Some? ==> InStampedPair(rows, i))
  }

  /** No half-paired conversion: an export leg with an id, and an API leg with a stamp, each has its opposite. */
  ghost predicate PairedWhole(rows: seq<Item>) {
    forall i :: 0 <= i < |rows| ==> RowWhole(rows, i)
  }

  /** A row that is no dust leg with a pairing of its own: kept as it was, or new. */
  predicate Harmless(rows: seq<Item>, rows': seq<Item>, i: nat)
    requires i < |rows'|
  {
    || (i < |rows| && rows'[i] == rows[i])
    || (!IsDustLeg(rows'[i].kind) && (i < |rows| ==> !IsDustLeg(rows[i].kind)))
    || (i >= |rows| && rows'[i].raw.twin.None?
        && (FileDust(rows'[i]) ==> rows'[i].txId.None? && rows'[i].raw.transfered.None?))
  }

  lemma HarmlessKeeps(rows: seq<Item>, rows': seq<Item>)
    requires PairedWhole(rows) && |rows| <= |rows'|
    requires forall i :: 0 <= i < |rows'| ==> Harmless(rows, rows', i)
    ensures PairedWhole(rows')
  {
    forall i | 0 <= i < |rows'|
      ensures RowWhole(rows', i)
    {
      assert Harmless(rows, rows', i) && (i < |rows| ==> RowWhole(rows, i));
      if FileDust(rows'[i]) && rows'[i].txId.Some? {
        var l, id :| TakenPair(rows, l, id) && (l.out == i || l.into == i);
        assert Harmless(rows, rows', l.out) && Harmless(rows, rows', l.into);
        assert TakenPair(rows', l, id);
      }
      if ApiDust(rows'[i]) && rows'[i].raw.twin.Some? {
        var l, at :| StampedPair(rows, l, at) && (l.out == i || l.into == i);
        assert Harmless(rows, rows', l.out) && Harmless(rows, rows', l.into);
        assert StampedPair(rows', l, at);
      }
    }
  }

  // ---- the four pairings ---------------------------------------------------------------------------

  lemma ApiTransferKeeps(rows: seq<Item>, base: nat, e: Item, tx: string, repeat: nat)
    requires PairedWhole(rows) && base <= |rows|
    ensures PairedWhole(ApiTransferTwin(rows, base, e, tx, repeat).rows)
  {
    var rows' := ApiTransferTwin(rows, base, e, tx, repeat).rows;
    var free := FreeFileRows(rows, e);
    assert free != [] ==> free[0] in free;
    HarmlessKeeps(rows, rows');
  }

  lemma FileTransferKeeps(rows: seq<Item>, base: nat, batch: seq<Item>, i: nat, repeat: nat)
    requires PairedWhole(rows) && base <= |rows| && i < |batch| && FileTransfer(batch[i])
    ensures PairedWhole(FileTransferTwin(rows, base, batch, i, repeat).rows)
  {
    var rows' := FileTransferTwin(rows, base, batch, i, repeat).rows;
    var free := FreeApiRows(rows, batch[i]);
    assert free != [] ==> free[0] in free;
    HarmlessKeeps(rows, rows');
  }

  /** Pairing two rows that were not paired leaves every other row as whole as it was. */
  lemma OthersStayWhole(rows: seq<Item>, rows': seq<Item>, l: Legs, i: nat)
    requires OppositeLegs(rows, l) && |rows'| == |rows| && i < |rows| && i != l.out && i != l.into
    requires forall k :: 0 <= k < |rows| && k != l.out && k != l.into ==> rows'[k] == rows[k]
    requires forall k :: k in {l.out, l.into} ==>
               (FileDust(rows[k]) ==> rows[k].txId.None?) && (ApiDust(rows[k]) ==> rows[k].raw.twin.None?)
    requires RowWhole(rows, i)
    ensures RowWhole(rows', i)
  {
    if FileDust(rows[i]) && rows[i].txId.Some? {
      var m, id :| TakenPair(rows, m, id) && (m.out == i || m.into == i);
      assert TakenPair(rows', m, id);
    }
    if ApiDust(rows[i]) && rows[i].raw.twin.Some? {
      var m, at :| StampedPair(rows, m, at) && (m.out == i || m.into == i);
      assert StampedPair(rows', m, at);
    }
  }

  lemma TakeBothKeeps(rows: seq<Item>, l: Legs, id: string)
    requires PairedWhole(rows) && OppositeLegs(rows, l)
    requires FileDust(rows[l.out]) && FileDust(rows[l.into]) && rows[l.out].txId.None? && rows[l.into].txId.None?
    ensures PairedWhole(TakeBoth(rows, l, id))
  {
    var rows' := TakeBoth(rows, l, id);
    if rows' != rows {
      assert RowWhole(rows, l.out) && RowWhole(rows, l.into);
      assert TakenPair(rows', l, id) && RowWhole(rows', l.out) && RowWhole(rows', l.into);
      forall i | 0 <= i < |rows'| && i != l.out && i != l.into
        ensures RowWhole(rows', i)
      {
        OthersStayWhole(rows, rows', l, i);
      }
    }
  }

  lemma StampBothKeeps(rows: seq<Item>, l: Legs, at: Time)
    requires PairedWhole(rows) && OppositeLegs(rows, l)
    requires ApiDust(rows[l.out]) && ApiDust(rows[l.into]) && rows[l.out].raw.twin.None? && rows[l.into].raw.twin.None?
    ensures PairedWhole(StampBoth(rows, l, at))
  {
    var rows' := StampBoth(rows, l, at);
    assert RowWhole(rows, l.out) && RowWhole(rows, l.into);
    assert StampedPair(rows', l, at) && RowWhole(rows', l.out) && RowWhole(rows', l.into);
    forall i | 0 <= i < |rows'| && i != l.out && i != l.into
      ensures RowWhole(rows', i)
    {
      OthersStayWhole(rows, rows', l, i);
    }
  }

  lemma ApiDustKeeps(rows: seq<Item>, base: nat, e: Item, tx: string, repeat: nat)
    requires PairedWhole(rows) && base <= |rows|
    ensures PairedWhole(ApiDustTwin(rows, base, e, tx, repeat).rows)
  {
    hide PairedWhole;
    if e.at.Some? {
      var legs := FreeDust(rows, e);
      if |legs| == 1 {
        assert legs[0] in legs;
        TakeBothKeeps(rows, legs[0], ConversionId(tx));
      }
    }
  }

  lemma FileDustKeeps(rows: seq<Item>, base: nat, batch: seq<Item>, i: nat, repeat: nat)
    requires PairedWhole(rows) && base <= |rows| && i < |batch|
    ensures PairedWhole(FileDustTwin(rows, base, batch, i, repeat).rows)
  {
    hide PairedWhole, TheGroup, TheConversion, ConversionTwinned, Counted;
    var e := batch[i];
    if e.at.Some? && TheConversion(rows, e).Some? {
      TheConversionIsWhole(rows, e);
      StampBothKeeps(rows, TheConversion(rows, e).value, e.at.value);
    }
  }

  // ---- every run -----------------------------------------------------------------------------------

  lemma DuplicateKeeps(l: Ledger, base: nat, batch: seq<Item>, i: nat, repeat: nat)
    requires PairedWhole(l.rows) && base <= |l.rows| && i < |batch|
    ensures PairedWhole(Duplicate(l, base, batch, i, repeat).rows)
  {
    hide PairedWhole, ApiTransferTwin, FileTransferTwin, ApiDustTwin, FileDustTwin;
    var e := batch[i];
    var tx := Presence(e.txId);
    if tx.None? {
      if FileDust(e) {
        FileDustKeeps(l.rows, base, batch, i, repeat);
      } else if FileTransfer(e) {
        FileTransferKeeps(l.rows, base, batch, i, repeat);
      }
    } else if ApiDust(e) {
      ApiDustKeeps(l.rows, base, e, tx.value, repeat);
    } else if ApiTransfer(e) {
      ApiTransferKeeps(l.rows, base, e, tx.value, repeat);
    }
  }

  lemma SettleKeeps(p: Progress, e: Item, v: Verdict)
    requires PairedWhole(v.rows) && Sourced(e)
    ensures PairedWhole(Settle(p, e, v).ledger.rows)
  {
    HarmlessKeeps(v.rows, Settle(p, e, v).ledger.rows);
  }

  /** Every row a batch writes, in whatever order its entries come, leaves the conversions paired whole. */
  lemma {:induction false} StoreKeepsConversionsWhole(l: Ledger, batch: seq<Item>, n: nat)
    requires PairedWhole(l.rows) && SourcedBatch(batch) && n <= |batch|
    ensures PairedWhole(After(l, batch, n).ledger.rows)
  {
    hide PairedWhole, Duplicate, Settle;
    if n > 0 {
      StoreKeepsConversionsWhole(l, batch, n - 1);
      var p := After(l, batch, n - 1);
      var repeat := Repeat(p, batch[n - 1]);
      DuplicateKeeps(p.ledger, |l.rows|, batch, n - 1, repeat);
      SettleKeeps(p, batch[n - 1], Duplicate(p.ledger, |l.rows|, batch, n - 1, repeat));
    }
  }

  ghost function StoreMany(l: Ledger, batches: seq<seq<Item>>): Ledger {
    if batches == [] then l else Store(StoreMany(l, batches[..|batches| - 1]), batches[|batches| - 1]).ledger
  }

  /** From an empty ledger, whatever the two sources send and in whatever batches. */
  lemma {:induction false} EveryLedgerIsPairedWhole(merged: set<string>, batches: seq<seq<Item>>)
    requires forall b :: b in batches ==> SourcedBatch(b)
    ensures PairedWhole(StoreMany(Ledger([], merged), batches).rows)
  {
    if batches != [] {
      var n := |batches| - 1;
      assert batches[n] in batches;
      EveryLedgerIsPairedWhole(merged, batches[..n]);
      StoreKeepsConversionsWhole(StoreMany(Ledger([], merged), batches[..n]), batches[n], |batches[n]|);
    }
  }

  /** An export group of two legs: both carry an API id, or neither does. */
  lemma ExportGroupWholeOrNot(rows: seq<Item>, l: Legs)
    requires PairedWhole(rows) && OppositeLegs(rows, l) && FileDust(rows[l.out]) && FileDust(rows[l.into])
    requires forall k :: 0 <= k < |rows| && FileDust(rows[k]) && rows[k].groupId == rows[l.out].groupId ==>
              k == l.out || k == l.into
    ensures rows[l.out].txId.Some? <==> rows[l.into].txId.Some?
  {
    assert RowWhole(rows, l.out) && RowWhole(rows, l.into);
    if rows[l.out].txId.Some? {
      var m, id :| TakenPair(rows, m, id) && (m.out == l.out || m.into == l.out);
    }
    if rows[l.into].txId.Some? {
      var m, id :| TakenPair(rows, m, id) && (m.out == l.into || m.into == l.into);
    }
  }

  /** An API conversion of two rows: both are stamped with one date, or neither is stamped. */
  lemma ApiConversionWholeOrNot(rows: seq<Item>, l: Legs)
    requires PairedWhole(rows) && OppositeLegs(rows, l) && ApiDust(rows[l.out]) && ApiDust(rows[l.into])
    requires forall k :: 0 <= k < |rows| && ApiDust(rows[k]) && rows[k].groupId == rows[l.out].groupId ==>
              k == l.out || k == l.into
    ensures rows[l.out].raw.twin == rows[l.into].raw.twin
  {
    assert RowWhole(rows, l.out) && RowWhole(rows, l.into);
    if rows[l.out].raw.twin.Some? {
      var m, at :| StampedPair(rows, m, at) && (m.out == l.out || m.into == l.out);
    }
    if rows[l.into].raw.twin.Some? {
      var m, at :| StampedPair(rows, m, at) && (m.out == l.into || m.into == l.into);
    }
  }
}
