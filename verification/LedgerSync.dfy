/** The object that writes ledger entries for one key, updating its rows in place. */
module LedgerSync {
  import opened Prelude
  import opened LedgerRows
  import opened LedgerStore

  const OVERLAP: int := 25 * HOUR

  // ---- the window of one sync ----------------------------------------------------------------------

  /** From when a sync reads; nothing means the full history. `window` is how far back a venue can be asked. */
  function StartTime(last: Option<Time>, started: Time, window: Option<int>): Option<Time> {
    if last.None? then None
    else
      var overlapped := Min(last.value, started) - OVERLAP;
      Some(if window.Some? then Max(overlapped, started - window.value) else overlapped)
  }

  /** The latest date among the entries. */
  function LatestDate(entries: seq<Item>): Option<Time> {
    if entries == [] then None
    else
      var before := LatestDate(entries[..|entries| - 1]);
      var at := entries[|entries| - 1].at;
      if before.None? then at else if at.None? then before else Some(Max(before.value, at.value))
  }

  /** Where the watermark stands after a run that fetched `entries`. */
  function Watermark(last: Option<Time>, entries: seq<Item>, minSkipped: Option<Time>, started: Time): Option<Time> {
    var seen := EarliestOf(LatestDate(entries), minSkipped);
    var mark := if seen.Some? then seen else last;
    if mark.Some? then Some(Min(mark.value, started)) else None
  }

  // ---- the sync object -----------------------------------------------------------------------------

  datatype Claim = Claimed | Missed | NotUnique

  class AccountTransactionSync {
    var rows: seq<Item>
    var merged: set<string>
    var storedIds: set<nat>
    var repeat: nat
    var batch: seq<Item>
    var outcome: Outcome
    var lastSyncedAt: Option<Time>
    const ledgerWindow: Option<int>

    constructor (rows: seq<Item>, merged: set<string>, lastSyncedAt: Option<Time>, ledgerWindow: Option<int>)
      ensures this.rows == rows && this.merged == merged
      ensures this.lastSyncedAt == lastSyncedAt && this.ledgerWindow == ledgerWindow
    {
      this.rows, this.merged, this.lastSyncedAt, this.ledgerWindow := rows, merged, lastSyncedAt, ledgerWindow;
      storedIds, repeat, batch, outcome := {}, 0, [], Outcome(0, 0, 0, None);
    }

    function Contents(): Ledger
      reads this
    {
      Ledger(rows, merged)
    }

    /** The rows past `base` are exactly those this run stored. */
    ghost predicate InRun(base: nat)
      reads this
    {
      base <= |rows| && forall i :: i in storedIds <==> base <= i < |rows|
    }

    /** Compare-and-set of a row's empty id; the unique index refuses an id another row holds. */
    method Take(i: nat, id: string) returns (claim: Claim)
      requires i < |rows|
      modifies this`rows
      ensures rows == if claim == Claimed then old(rows)[i := WithId(old(rows)[i], id)] else old(rows)
      ensures claim == if old(rows)[i].txId.Some? then Missed else if HasId(old(rows), id) then NotUnique else Claimed
    {
      if rows[i].txId.Some? {
        claim := Missed;
      } else if HasId(rows, id) {
        claim := NotUnique;
      } else {
        rows := rows[i := WithId(rows[i], id)];
        claim := Claimed;
      }
    }

    /** Writes the date of the export row an API row was paired with, once. */
    method Stamp(i: nat, at: Time) returns (stamped: bool)
      requires i < |rows|
      modifies this`rows
      ensures stamped <==> old(rows)[i].raw.twin.None?
      ensures rows == if stamped then old(rows)[i := Stamped(old(rows)[i], at)] else old(rows)
    {
      stamped := rows[i].raw.twin.None?;
      if stamped {
        rows := rows[i := Stamped(rows[i], at)];
      }
    }

    /** Rows this run did not store, counted one for one against the repeats of the entry in the batch. */
    method SameEventStored(e: Item, ev: Evidence, ghost base: nat) returns (same: bool)
      requires InRun(base)
      ensures same == Counted(rows, base, e, ev, repeat)
    {
      if e.at.None? {
        return false;
      }
      var found := 0;
      var i := 0;
      while i < |rows|
        invariant 0 <= i <= |rows|
        invariant found == Count(rows[..Min(i, base)], e, ev)
      {
        if SameEvent(e, rows[i]) && i !in storedIds && Admits(ev, rows[i]) {
          found := found + 1;
        }
        assert i < base ==> rows[..i + 1][..i] == rows[..i];
        i := i + 1;
      }
      same := found > repeat;
    }

    method TakeTransfer(e: Item, tx: string, ghost base: nat) returns (duplicate: bool)
      requires InRun(base) && !HasId(rows, tx)
      modifies this`rows
      ensures |rows| == |old(rows)|
      ensures Verdict(duplicate, rows) == ApiTransferTwin(old(rows), base, e, tx, repeat)
    {
      var same := SameEventStored(e, IdLessNotFileTransfer, base);
      if same {
        return true;
      }
      if FileSide(e).None? {
        SelectNone(rows, (r: Item) => FreeFileRow(e, r));
        assert FreeFileRows(rows, e) == [];
        return false;
      }
      var free := FreeFileRows(rows, e);
      if |free| != 1 {
        return false;
      }
      assert free[0] in free;
      var claim := Take(free[0], tx);
      duplicate := claim != Missed;
    }

    method StampTransfer(i: nat, ghost base: nat) returns (duplicate: bool)
      requires InRun(base) && i < |batch|
      modifies this`rows
      ensures |rows| == |old(rows)|
      ensures Verdict(duplicate, rows) == FileTransferTwin(old(rows), base, batch, i, repeat)
    {
      var e := batch[i];
      if e.at.None? {
        return false;
      }
      var same := SameEventStored(e, NotApiTransfer, base);
      if same || Twinned(rows, e) {
        return true;
      }
      var free := FreeApiRows(rows, e);
      if |free| != 1 {
        return false;
      }
      assert free[0] in free;
      var rivals := 0;
      for j := 0 to |batch|
        invariant rivals == Rivals(rows, batch, j, i, rows[free[0]])
      {
        var other := batch[j];
        if !Present(other.txId) && FileTransfer(other) && Pairs(rows[free[0]], other) && (j == i || !Paired(rows, other)) {
          rivals := rivals + 1;
        }
      }
      if rivals != 1 {
        return false;
      }
      duplicate := Stamp(free[0], e.at.value);
    }

    method TakeDust(e: Item, tx: string, ghost base: nat) returns (duplicate: bool)
      requires InRun(base)
      modifies this`rows
      ensures |rows| == |old(rows)|
      ensures Verdict(duplicate, rows) == ApiDustTwin(old(rows), base, e, tx, repeat)
    {
      if e.at.None? {
        return false;
      }
      var same := SameEventStored(e, IdLessNotFileDust, base);
      if same {
        return true;
      }
      var legs := FreeDust(rows, e);
      if |legs| != 1 {
        return false;
      }
      assert legs[0] in legs;
      var l, id := legs[0], ConversionId(tx);
      var before := rows;
      var first := Take(l.out, id + "-out");
      if first == Claimed {
        OtherIdsKept(before, l.out, id + "-out", id + "-in");
        var second := Take(l.into, id + "-in");
        if second != Claimed {
          rows := before; // both legs or neither
        }
      }
      return true;
    }

    method StampDust(i: nat, ghost base: nat) returns (duplicate: bool)
      requires InRun(base) && i < |batch|
      modifies this`rows
      ensures |rows| == |old(rows)|
      ensures Verdict(duplicate, rows) == FileDustTwin(old(rows), base, batch, i, repeat)
    {
      var e := batch[i];
      if e.at.None? {
        return false;
      }
      var same := SameEventStored(e, NotApiDust, base);
      if same || ConversionTwinned(rows, e) {
        return true;
      }
      duplicate := StampGroup(e);
    }

    method StampGroup(e: Item) returns (duplicate: bool)
      requires e.at.Some?
      modifies this`rows
      ensures |rows| == |old(rows)|
      ensures Verdict(duplicate, rows) == PairDust(old(rows), batch, e)
    {
      hide TheConversion, TheGroup;
      var api := TheConversion(rows, e);
      if api.None? || TheGroup(batch, rows[Min(api.value.out, api.value.into)]) != Some(e.groupId) {
        return false;
      }
      duplicate := StampWhole(api.value, e.at.value);
    }

    /** Both rows of a conversion are stamped, or neither is. */
    method StampWhole(l: Legs, at: Time) returns (stamped: bool)
      requires l.out < |rows| && l.into < |rows| && l.out != l.into
      modifies this`rows
      ensures stamped <==> old(rows)[l.out].raw.twin.None? && old(rows)[l.into].raw.twin.None?
      ensures rows == if stamped then StampBoth(old(rows), l, at) else old(rows)
    {
      var before := rows;
      stamped := Stamp(l.out, at);
      if stamped {
        stamped := Stamp(l.into, at);
      }
      if !stamped {
        rows := before;
      }
    }

    method IsDuplicate(i: nat, ghost base: nat) returns (duplicate: bool)
      requires InRun(base) && i < |batch|
      modifies this`rows
      ensures |rows| == |old(rows)|
      ensures Verdict(duplicate, rows) == Duplicate(old(Contents()), base, batch, i, repeat)
    {
      var e := batch[i];
      var tx := Presence(e.txId);
      if tx.None? {
        if FileDust(e) {
          duplicate := StampDust(i, base);
        } else if FileTransfer(e) {
          duplicate := StampTransfer(i, base);
        } else {
          duplicate := SameEventStored(e, AnyRow, base);
          if !duplicate {
            duplicate := ReplacedTrade(rows, batch, e);
          }
          if !duplicate && e.kind == Airdrop && e.raw.operation == LEGACY_TOKEN_SWAP {
            duplicate := SameEventStored(e.(kind := OtherIncome), OldTokenSwap, base);
          }
        }
      } else if tx.value in merged || HasId(rows, tx.value) {
        duplicate := true;
      } else if ApiDust(e) {
        duplicate := TakeDust(e, tx.value, base);
      } else if ApiTransfer(e) {
        duplicate := TakeTransfer(e, tx.value, base);
      } else {
        duplicate := SameEventStored(e, IdLess, base);
      }
    }

    /** A duplicate is counted, a row that does not save is skipped, and any other becomes a row. */
    method Save(e: Item, duplicate: bool, ghost p: Progress, ghost base: nat) returns (o: Outcome)
      requires InRun(base) && p.ledger.merged == merged && p.outcome == outcome
      modifies this`rows, this`merged, this`storedIds
      ensures InRun(base)
      ensures var q := Settle(p, e, Verdict(duplicate, old(rows))); Contents() == q.ledger && o == q.outcome
    {
      o := outcome;
      if duplicate {
        o := o.(duplicates := o.duplicates + 1);
      } else if Saves(e) {
        storedIds := storedIds + {|rows|};
        rows := rows + [Stored(e)];
        merged := merged + e.raw.mergedIds;
        o := o.(imported := o.imported + 1);
      } else {
        o := o.(skipped := o.skipped + 1, minSkipped := EarliestOf(o.minSkipped, e.at));
      }
    }

    /** How often an identical entry came before, remembered for the ones after it. */
    method CountRepeat(e: Item, repeats: map<EventKey, nat>) returns (repeats': map<EventKey, nat>)
      modifies this`repeat
      ensures repeats' == Tally(Progress(Contents(), repeats, outcome), e)
      ensures repeat == Repeat(Progress(Contents(), repeats, outcome), e)
    {
      var tx := Presence(e.txId);
      if tx.Some? && (tx.value in merged || HasId(rows, tx.value)) {
        repeat, repeats' := 0, repeats;
      } else {
        repeat := Seen(repeats, KeyOf(e));
        repeats' := repeats[KeyOf(e) := repeat + 1];
      }
    }

    /** One entry of the batch, after those before it. */
    method StoreEntry(index: nat, repeats: map<EventKey, nat>, ghost p: Progress, ghost base: nat)
      returns (repeats': map<EventKey, nat>)
      requires InRun(base) && index < |batch| && p == Progress(Contents(), repeats, outcome)
      modifies this`rows, this`merged, this`storedIds, this`repeat, this`outcome
      ensures InRun(base)
      ensures Progress(Contents(), repeats', outcome) == Step(p, base, batch, index)
    {
      var e := batch[index];
      repeats' := CountRepeat(e, repeats);
      var duplicate := IsDuplicate(index, base);
      ghost var v := Verdict(duplicate, rows);
      assert Step(p, base, batch, index) == Settle(p, e, v);
      outcome := Save(e, duplicate, p, base);
    }

    /** Writes a batch to the ledger: dedup, pair, save. */
    method StoreAll(entries: seq<Item>)
      modifies this
      ensures Contents() == Store(old(Contents()), entries).ledger
      ensures outcome == Store(old(Contents()), entries).outcome
      ensures lastSyncedAt == old(lastSyncedAt)
    {
      ghost var l, base := Contents(), |rows|;
      batch, storedIds, outcome := entries, {}, Outcome(0, 0, 0, None);
      var repeats: map<EventKey, nat> := map[];
      for index := 0 to |entries|
        invariant batch == entries && InRun(base) && lastSyncedAt == old(lastSyncedAt)
        invariant Progress(Contents(), repeats, outcome) == After(l, entries, index)
      {
        repeats := StoreEntry(index, repeats, After(l, entries, index), base);
      }
    }

    /**
     One sync: read the venue's ledger from the watermark less the overlap, store what came, and move the
     watermark. `venue` answers a start time with the entries from then on, or with a failure.
     */
    method Sync(started: Time, venue: Option<Time> -> Option<seq<Item>>) returns (imported: Option<nat>)
      modifies this
      ensures var fetched := venue(StartTime(old(lastSyncedAt), started, ledgerWindow));
              if fetched.None? then
                imported == None && Contents() == old(Contents()) && lastSyncedAt == old(lastSyncedAt)
              else
                var run := Store(old(Contents()), fetched.value);
                && imported == Some(run.outcome.imported) && Contents() == run.ledger
                && lastSyncedAt == Watermark(old(lastSyncedAt), fetched.value, run.outcome.minSkipped, started)
    {
      var startTime := None;
      if lastSyncedAt.Some? {
        var overlapped := (if lastSyncedAt.value <= started then lastSyncedAt.value else started) - OVERLAP;
        startTime := Some(overlapped);
        if ledgerWindow.Some? && overlapped < started - ledgerWindow.value {
          startTime := Some(started - ledgerWindow.value);
        }
      }
      var result := venue(startTime);
      if result.None? {
        return None;
      }
      var entries := result.value;
      StoreAll(entries);
      var maxSeen: Option<Time> := None;
      for i := 0 to |entries|
        invariant maxSeen == LatestDate(entries[..i])
        invariant Contents() == Store(old(Contents()), entries).ledger
        invariant outcome == Store(old(Contents()), entries).outcome
        invariant lastSyncedAt == old(lastSyncedAt)
      {
        if entries[i].at.Some? && (maxSeen.None? || maxSeen.value < entries[i].at.value) {
          maxSeen := entries[i].at;
        }
        assert entries[..i + 1][..i] == entries[..i];
      }
      assert entries[..|entries|] == entries;
      var watermark := EarliestOf(maxSeen, outcome.minSkipped);
      if watermark.None? {
        watermark := lastSyncedAt;
      }
      lastSyncedAt := if watermark.Some? && started < watermark.value then Some(started) else watermark;
      imported := Some(outcome.imported);
    }
  }

  /** Giving one row an id leaves every other id as it was. */
  lemma OtherIdsKept(rows: seq<Item>, i: nat, given: string, id: string)
    requires i < |rows| && rows[i].txId.None? && given != id
    ensures HasId(rows[i := WithId(rows[i], given)], id) == HasId(rows, id)
  {
    var after := rows[i := WithId(rows[i], given)];
    forall k | 0 <= k < |rows|
      ensures (after[k].txId == Some(id)) == (rows[k].txId == Some(id))
    {
    }
    if HasId(rows, id) {
      var k :| 0 <= k < |rows| && rows[k].txId == Some(id);
      assert after[k].txId == Some(id);
    }
  }
}
