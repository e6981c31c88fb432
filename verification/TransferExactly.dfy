/** Exactly which calls converge, when one call may carry copies of both sources. */
module TransferExactly {
  import opened Prelude
  import opened LedgerRows
  import opened LedgerStore
  import opened TransferConvergence
  import opened TransferCalls

  // ---- exactly which calls -------------------------------------------------------------------------

  /** After the calls before and the first n entries of this one, each transfer seen has one row. */
  ghost predicate ConvergedAfter(events: seq<Transfer>, l: Ledger, before: seq<Call>, c: Call, n: nat)
    requires n <= |c|
  {
    var calls := before + [c[..n]];
    ValidCalls(events, calls) && exists at :: OneRowEach(events, calls, Calls(events, l, calls).rows, |l.rows|, at)
  }

  /** The call converges from every ledger that safe calls can lead to, however many of its entries have come. */
  ghost predicate AlwaysConverges(events: seq<Transfer>, c: Call) {
    forall l, before, n ::
      && Foreign(l, events) && ValidCalls(events, before) && SafeCalls(events, before) && 0 <= n <= |c|
      ==> ConvergedAfter(events, l, before, c, n)
  }

  lemma PrefixIsValid(events: seq<Transfer>, c: Call, n: nat)
    requires ValidCall(events, c) && n <= |c|
    ensures ValidCall(events, c[..n]) && (SafeCall(events, c) ==> SafeCall(events, c[..n]))
  {
  }

  lemma SafePrefixConverges(events: seq<Transfer>, l: Ledger, before: seq<Call>, c: Call, n: nat)
    requires World(events) && Foreign(l, events) && ValidCalls(events, before) && SafeCalls(events, before)
    requires ValidCall(events, c) && SafeCall(events, c) && n <= |c|
    ensures ConvergedAfter(events, l, before, c, n)
  {
    hide World, Foreign, ValidCall, SafeCall, OneRowEach;
    PrefixIsValid(events, c, n);
    Converges(events, l, before + [c[..n]]);
  }

  lemma {:induction false} CountAtMost(rows: seq<Item>, e: Item, ev: Evidence)
    ensures Count(rows, e, ev) <= |rows|
  {
    if rows != [] {
      CountAtMost(rows[..|rows| - 1], e, ev);
    }
  }

  lemma {:induction false} RepeatsGrow(l: Ledger, batch: seq<Item>, m: nat, n: nat, key: EventKey)
    requires m <= n <= |batch|
    ensures Seen(After(l, batch, m).repeats, key) <= Seen(After(l, batch, n).repeats, key)
  {
    hide Duplicate, KeyOf;
    if m < n {
      RepeatsGrow(l, batch, m, n - 1, key);
    }
  }

  /** One export copy in an empty ledger is its only row. */
  lemma ExportFirst(events: seq<Transfer>, w: nat) returns (st: seq<Status>, at: map<nat, nat>)
    requires World(events) && Shows(events, false, w)
    ensures var l, before := Ledger([], {}), [[Copy(false, w)]];
            && Foreign(l, events) && ValidCalls(events, before) && SafeCalls(events, before)
            && Told(events, l, before, Calls(events, l, before), st, at)
            && |Calls(events, l, before).rows| == 1 && st[w] == FileOnly && forall v :: 0 <= v < |events| ==>
                 !ByApi(st[v])
  {
    var l, before := Ledger([], {}), [[Copy(false, w)]];
    hide World, Told, Foreign, OnlyTheirs;
    ExportAloneIsSafe(events, w);
    st, at := CallsTell(events, l, before);
    OnlyExportTold(events, l, Calls(events, l, before), st, at, w);
  }

  lemma ExportAloneIsSafe(events: seq<Transfer>, w: nat)
    requires Shows(events, false, w)
    ensures Foreign(Ledger([], {}), events) && ValidCalls(events, [[Copy(false, w)]])
    ensures SafeCalls(events, [[Copy(false, w)]])
    ensures forall c :: c in [[Copy(false, w)]] ==> OnlyCopies(c, |c|)
  {
  }

  lemma OnlyExportSeen(w: nat, fromApi: bool, v: nat)
    ensures SeenIn([[Copy(false, w)]], fromApi, v) <==> v == w && !fromApi
  {
    var before := [[Copy(false, w)]];
    assert before[0] in before && before[0][0] == Copy(false, w);
  }

  lemma OnlyExportTold(events: seq<Transfer>, l: Ledger, rows: Ledger, st: seq<Status>, at: map<nat, nat>, w: nat)
    requires World(events) && w < |events| && l.rows == [] && Told(events, l, [[Copy(false, w)]], rows, st, at)
    requires OnlyTheirs(l.rows, rows.rows, at)
    ensures |rows.rows| == 1 && |st| == |events| && st[w] == FileOnly && forall v :: 0 <= v < |events| ==> !ByApi(st[v])
  {
    hide World, RowOf, Bystander, Clashes, NamesNone, SeenIn;
    forall v | 0 <= v < |events|
      ensures !ByApi(st[v]) && (ByFile(st[v]) <==> v == w)
    {
      OnlyExportSeen(w, true, v);
      OnlyExportSeen(w, false, v);
    }
    assert forall v :: v in at ==> v == w;
    OneIndex(|rows.rows|, at[w], at.Values);
  }

  lemma OneIndex(n: nat, i: nat, indices: set<nat>)
    requires (forall j :: j in indices ==> j == i) && forall j :: 0 <= j < n ==> j in indices
    ensures n <= 1
  {
    assert n > 0 ==> 0 in indices;
    assert n > 1 ==> 1 in indices;
  }

  /** An API copy whose transfer no API copy showed before is counted among the identical entries. */
  lemma ApiCopyIsCounted(events: seq<Transfer>, l: Ledger, st: seq<Status>, at: map<nat, nat>, c: Call, i: nat, n: nat)
    requires World(events) && Tracks(events, l, st, at) && ValidCall(events, c) && i < n <= |c|
    requires forall m :: 0 <= m < i ==> SafeAt(events, c, m)
    requires c[i].Copy? && c[i].fromApi && c[i].v < |events| && !ByApi(st[c[i].v])
    ensures Seen(After(l, Batch(events, c), n).repeats, KeyOf(Batch(events, c)[i])) >= 1
  {
    hide World, Tracks, SafeAt, Duplicate, KeyOf, Agrees, Step, Present;
    var batch, v := Batch(events, c), c[i].v;
    var st1, at1 := CallTracks(events, l, st, at, c, i);
    var p := After(l, batch, i);
    EntryIsValid(events, c, i);
    NotYetSeen(c, i);
    assert !ByApi(st1[v]);
    SizesOf(events, p.ledger, st1, at1);
    ApiKnown(events, p.ledger, st1, at1, v);
    AgreesOf(events, v);
    ApiCopyHasId(events[v]);
    hide KnownId, ByApi, Grown, ItemOf;
    UnknownIsCounted(p, |l.rows|, batch, i);
    assert After(l, batch, i + 1) == Step(p, |l.rows|, batch, i);
    RepeatsGrow(l, batch, i + 1, n, KeyOf(batch[i]));
  }

  lemma UnknownIsCounted(p: Progress, base: nat, batch: seq<Item>, i: nat)
    requires base <= |p.ledger.rows| && i < |batch| && !KnownId(p.ledger, Presence(batch[i].txId))
    ensures Seen(Step(p, base, batch, i).repeats, KeyOf(batch[i])) >= 1
  {
    hide Duplicate, KnownId, KeyOf;
  }

  lemma NotYetSeen(c: Call, i: nat)
    requires i < |c| && forall j :: 0 <= j < i ==> c[j] != c[i]
    ensures c[i] !in c[..i]
  {
  }

  lemma ApiCopyHasId(t: Transfer)
    requires t.api.Some?
    ensures Agrees(t) ==> Presence(t.api.value.txId) == t.api.value.txId
  {
  }

  /** An export copy whose row has its own form, behind an identical API copy: it is stored a second time. */
  lemma SecondExportRow(events: seq<Transfer>, l: Ledger, st: seq<Status>, at: map<nat, nat>, c: Call, i: nat, j: nat)
    returns (st1: seq<Status>, at1: map<nat, nat>)
    requires World(events) && Tracks(events, l, st, at) && ValidCall(events, c) && i < j < |c| && |l.rows| == 1
    requires forall m :: 0 <= m < j ==> SafeAt(events, c, m)
    requires c[i].Copy? && c[i].fromApi && c[i].v < |events| && !ByApi(st[c[i].v])
    requires c[j].Copy? && !c[j].fromApi && c[j].v < |events| && st[c[j].v] in {FileOnly, Taken}
    requires KeyOf(Batch(events, c)[i]) == KeyOf(Batch(events, c)[j])
    ensures var p := After(l, Batch(events, c), j).ledger;
            && Tracks(events, p, st1, at1) && st1[c[j].v] in {FileOnly, Taken}
            && After(l, Batch(events, c), j + 1).ledger.rows == p.rows + [Stored(Batch(events, c)[j])]
  {
    hide World, Tracks, SafeAt, ValidCall, Agrees, RowOf, FileTransfer, FileDust, Duplicate, Stored, Saves;
    var batch, w := Batch(events, c), c[j].v;
    st1, at1 := CallTracks(events, l, st, at, c, j);
    var p, e := After(l, batch, j), batch[j];
    ApiCopyIsCounted(events, l, st, at, c, i, j);
    EntryIsValid(events, c, j);
    SizesOf(events, p.ledger, st1, at1);
    RowsOnlyGrow(l, batch, j);
    AgreesOf(events, w);
    ExportIsATransfer(events[w]);
    ExportIsUnmatched(events, p.ledger, st1, at1, batch, j, w, Repeat(p, e));
    assert After(l, batch, j + 1) == Step(p, 1, batch, j);
    CopySaves(events[w], false);
  }

  lemma AgreesOf(events: seq<Transfer>, v: nat)
    requires World(events) && v < |events|
    ensures Agrees(events[v])
  {
  }

  /** Against one row from before the run, an export copy that is not the first of its kind finds nothing. */
  lemma ExportIsUnmatched(events: seq<Transfer>, l: Ledger, st: seq<Status>, at: map<nat, nat>, batch: seq<Item>,
                          j: nat, w: nat, repeat: nat)
    requires World(events) && Tracks(events, l, st, at) && Shows(events, false, w) && j < |batch|
    requires batch[j] == events[w].file.value
    requires 1 <= |l.rows| && st[w] in {FileOnly, Taken} && repeat >= 1
    ensures Duplicate(l, 1, batch, j, repeat) == Verdict(false, l.rows)
  {
    hide ApiRowFor, Tracks, Clashes;
    var e := batch[j];
    AgreesOf(events, w);
    forall i | 0 <= i < |l.rows|
      ensures !ApiRowFor(e, l.rows[i])
    {
      FileFindsApi(events, l, st, at, w, i);
    }
    CountAtMost(l.rows[..1], e, NotApiTransfer);
    SelectNone(l.rows, (r: Item) => ApiRowFor(e, r) && r.raw.twin.None?);
    assert FreeApiRows(l.rows, e) == [];
    ExportIsATransfer(events[w]);
  }

  lemma ExportIsATransfer(t: Transfer)
    requires Agrees(t) && t.file.Some?
    ensures FileTransfer(t.file.value) && !FileDust(t.file.value) && Presence(t.file.value.txId).None?
  {
  }

  lemma OwnRowClashes(t: Transfer, s: Status)
    requires Agrees(t) && s in {FileOnly, Taken} && Fits(t, s)
    ensures Clashes(t, RowOf(t, s))
  {
  }

  /** A row in the form of one transfer is in the form of no other. */
  lemma FormIsOwn(t: Transfer, u: Transfer, s: Status, byApi: bool, byFile: bool)
    requires Agrees(t) && Agrees(u) && Apart(t, u) && s in {FileOnly, Taken} && Fits(t, s)
    ensures !Holds(u, RowOf(t, s), byApi, byFile)
  {
  }

  lemma TwoRowsAreNotOne(events: seq<Transfer>, calls: seq<Call>, rows: seq<Item>, n: nat, at: map<nat, nat>, w: nat,
                         i: nat, j: nat, s: Status)
    requires World(events) && w < |events| && i < j < |rows| && s in {FileOnly, Taken} && Fits(events[w], s)
    requires Fits(events[w], FileOnly)
    requires Agrees(events[w]) && rows[i] == RowOf(events[w], s) && rows[j] == RowOf(events[w], FileOnly)
    ensures !OneRowEach(events, calls, rows, n, at)
  {
    if OneRowEach(events, calls, rows, n, at) {
      var x := IsRowOf(events, calls, rows, n, at, w, i, s);
      var y := IsRowOf(events, calls, rows, n, at, w, j, FileOnly);
    }
  }

  lemma IsRowOf(events: seq<Transfer>, calls: seq<Call>, rows: seq<Item>, n: nat, at: map<nat, nat>, w: nat, i: nat,
                s: Status) returns (x: nat)
    requires World(events) && OneRowEach(events, calls, rows, n, at) && w < |events| && i < |rows|
    requires s in {FileOnly, Taken} && Fits(events[w], s) && Agrees(events[w]) && rows[i] == RowOf(events[w], s)
    ensures x == w && x in at && at[x] == i
  {
    OwnRowClashes(events[w], s);
    assert i in at.Values;
    x :| x in at && at[x] == i;
    if x != w {
      FormIsOwn(events[w], events[x], s, SeenIn(calls, true, x), SeenIn(calls, false, x));
    }
  }

  lemma {:induction false} FirstUnsafe(events: seq<Transfer>, c: Call, n: nat) returns (j: nat)
    requires ValidCall(events, c) && n < |c| && !SafeAt(events, c, n)
    ensures j <= n && !SafeAt(events, c, j) && forall m :: 0 <= m < j ==> SafeAt(events, c, m)
  {
    if m :| 0 <= m < n && !SafeAt(events, c, m) {
      j := FirstUnsafe(events, c, m);
    } else {
      j := n;
    }
  }

  lemma UnsafeAtSomewhere(events: seq<Transfer>, c: Call) returns (j: nat)
    requires ValidCall(events, c) && !SafeCall(events, c)
    ensures j < |c| && !SafeAt(events, c, j)
  {
    var i, k :| 0 <= i < k < |c| && c[i].Copy? && c[i].fromApi && c[k].Copy? && !c[k].fromApi
      && KeyOf(ItemOf(events, c[i])) == KeyOf(ItemOf(events, c[k]));
    j := k;
  }

  lemma PrefixIsSafeAt(events: seq<Transfer>, c: Call, n: nat, m: nat)
    requires ValidCall(events, c) && m < n <= |c| && ValidCall(events, c[..n])
    ensures SafeAt(events, c[..n], m) <==> SafeAt(events, c, m)
  {
    assert c[..n][m] == c[m];
    assert forall i :: 0 <= i < m ==> c[..n][i] == c[i];
  }

  /** An unsafe call: with its export copy stored before, that copy's row is stored again. */
  lemma UnsafeCallStoresTwice(events: seq<Transfer>, c: Call) returns (before: seq<Call>, n: nat)
    requires World(events) && ValidCall(events, c) && !SafeCall(events, c)
    ensures n <= |c| && Foreign(Ledger([], {}), events) && ValidCalls(events, before) && SafeCalls(events, before)
    ensures !ConvergedAfter(events, Ledger([], {}), before, c, n)
  {
    hide World, OneRowEach, SafeCall, ValidCall, Told, Foreign, ConvergedAfter;
    var k := UnsafeAtSomewhere(events, c);
    var j := FirstUnsafe(events, c, k);
    n := j + 1;
    var i := UnsafePair(events, c, j);
    EntryIsValid(events, c, j);
    ExportAloneIsSafe(events, c[j].v);
    before := [[Copy(false, c[j].v)]];
    UnsafePrefixStoresTwice(events, c, i, j);
  }

  lemma UnsafePrefixStoresTwice(events: seq<Transfer>, c: Call, i: nat, j: nat)
    requires World(events) && ValidCall(events, c) && i < j < |c| && forall m :: 0 <= m < j ==> SafeAt(events, c, m)
    requires c[j].Copy? && !c[j].fromApi && c[i].Copy? && c[i].fromApi
    requires KeyOf(ItemOf(events, c[i])) == KeyOf(ItemOf(events, c[j]))
    ensures !ConvergedAfter(events, Ledger([], {}), [[Copy(false, c[j].v)]], c, j + 1)
  {
    hide World, OneRowEach, Told, KeyOf, SafeAt, Tracks, Stranger, After, Store;
    var l, w, d := Ledger([], {}), c[j].v, c[..j + 1];
    PrefixIsValid(events, c, j + 1);
    EntryIsValid(events, c, i);
    EntryIsValid(events, c, j);
    var st, at := ExportFirst(events, w);
    var before := [[Copy(false, w)]];
    var l0 := Calls(events, l, before);
    ToldTracks(events, l, before, l0, st, at);
    SizesOf(events, l0, st, at);
    forall m | 0 <= m < j
      ensures SafeAt(events, d, m)
    {
      PrefixIsSafeAt(events, c, j + 1, m);
    }
    var st1, at1 := SecondExportRow(events, l0, st, at, d, i, j);
    assert |d| == j + 1 && d[j] == Copy(false, w) && ItemOf(events, d[j]) == events[w].file.value;
    assert Batch(events, d)[j] == events[w].file.value;
    StoredTwice(events, l, before, l0, d, w, st1, at1);
  }

  lemma UnsafePair(events: seq<Transfer>, c: Call, j: nat) returns (i: nat)
    requires ValidCall(events, c) && j < |c| && !SafeAt(events, c, j)
    ensures i < j && c[j].Copy? && !c[j].fromApi && c[i].Copy? && c[i].fromApi
    ensures KeyOf(ItemOf(events, c[i])) == KeyOf(ItemOf(events, c[j]))
  {
    i :| 0 <= i < j && c[i].Copy? && c[i].fromApi && KeyOf(ItemOf(events, c[i])) == KeyOf(ItemOf(events, c[j]));
  }

  lemma StoredTwice(events: seq<Transfer>, l: Ledger, before: seq<Call>, l0: Ledger, d: Call, w: nat, st1: seq<Status>,
                    at1: map<nat, nat>)
    requires World(events) && ValidCalls(events, before) && ValidCall(events, d) && l0 == Calls(events, l, before)
    requires d != [] && Shows(events, false, w) && d[|d| - 1] == Copy(false, w)
    requires var p := After(l0, Batch(events, d), |d| - 1).ledger;
             && Tracks(events, p, st1, at1) && st1[w] in {FileOnly, Taken}
             && After(l0, Batch(events, d), |d|).ledger.rows == p.rows + [Stored(events[w].file.value)]
    ensures ValidCalls(events, before + [d])
    ensures forall at: map<nat, nat> :: !OneRowEach(events, before + [d], Calls(events, l, before + [d]).rows, |l.rows|, at)
  {
    hide OneRowEach, Clashes, Bystander;
    var calls, p := before + [d], After(l0, Batch(events, d), |d| - 1).ledger;
    assert calls[..|calls| - 1] == before;
    StoreIsAfter(l0, Batch(events, d));
    var rows := Calls(events, l, calls).rows;
    assert rows == p.rows + [Stored(events[w].file.value)];
    AgreesOf(events, w);
    CopySaves(events[w], false);
    forall at: map<nat, nat>
      ensures !OneRowEach(events, calls, rows, |l.rows|, at)
    {
      TwoRowsAreNotOne(events, calls, rows, |l.rows|, at, w, at1[w], |p.rows|, st1[w]);
    }
  }

  /**
   Exactly which calls converge, whatever safe calls came before and from whatever ledger: those in which no export
   copy comes after an API copy that looks identical. Every call of a single source is one.
   */
  lemma ConvergesExactlyWhen(events: seq<Transfer>, c: Call)
    requires World(events) && ValidCall(events, c)
    ensures AlwaysConverges(events, c) <==> SafeCall(events, c)
  {
    hide World, ValidCall, SafeCall, ConvergedAfter, Foreign, Stranger;
    if SafeCall(events, c) {
      forall l, before, n | Foreign(l, events) && ValidCalls(events, before) && SafeCalls(events, before) && 0 <= n <= |c|
        ensures ConvergedAfter(events, l, before, c, n)
      {
        SafePrefixConverges(events, l, before, c, n);
      }
    } else {
      var before, n := UnsafeCallStoresTwice(events, c);
    }
  }

  lemma OneSourceIsSafe(events: seq<Transfer>, c: Call, fromApi: bool)
    requires ValidCall(events, c) && forall i :: 0 <= i < |c| && c[i].Copy? ==> c[i].fromApi == fromApi
    ensures SafeCall(events, c)
  {
  }

  // ---- one such call, row by row -------------------------------------------------------------------

  /** The export copy alone, in an empty ledger. */
  lemma FileAlone(t: Transfer)
    requires Agrees(t) && t.file.Some?
    ensures Store(Ledger([], {}), [t.file.value]).ledger == Ledger([Stored(t.file.value)], {})
  {
    var l, batch := Ledger([], {}), [t.file.value];
    ExportIsATransfer(t);
    CopySaves(t, false);
    SelectNone([], (r: Item) => ApiRowFor(batch[0], r) && r.raw.twin.None?);
    assert FreeApiRows([], batch[0]) == [];
    assert Duplicate(l, 0, batch, 0, 0) == Verdict(false, []);
    assert After(l, batch, 1) == Step(After(l, batch, 0), 0, batch, 0);
  }

  /** The API copy next, in one batch with the export copy again: it takes the row. */
  lemma ThenApi(t: Transfer)
    requires Agrees(t) && t.api.Some? && t.file.Some?
    ensures var taken := WithId(Stored(t.file.value), t.api.value.txId.value);
            After(Ledger([Stored(t.file.value)], {}), [t.api.value, t.file.value], 1)
            == Progress(Ledger([taken], {}), map[KeyOf(t.api.value) := 1], Outcome(0, 1, 0, None))
  {
    var l, api, row := Ledger([Stored(t.file.value)], {}), t.api.value, Stored(t.file.value);
    var batch := [api, t.file.value];
    var p := Progress(l, map[], Outcome(0, 0, 0, None));
    ApiTakes(t);
    assert !HasId(l.rows, api.txId.value);
    var v := Duplicate(l, 1, batch, 0, 0);
    assert v == ApiTransferTwin([row], 1, api, api.txId.value, 0);
    assert Tally(p, api) == map[KeyOf(api) := 1];
    assert After(l, batch, 1) == Settle(p, api, v);
  }

  lemma ApiTakes(t: Transfer)
    requires Agrees(t) && t.api.Some? && t.file.Some?
    ensures var row := Stored(t.file.value);
            ApiTransferTwin([row], 1, t.api.value, t.api.value.txId.value, 0)
            == Verdict(true, [WithId(row, t.api.value.txId.value)])
  {
    var api, row := t.api.value, Stored(t.file.value);
    assert [row][..1] == [row];
    CountZero([row], api, IdLessNotFileTransfer);
    SelectOne([row], (r: Item) => FreeFileRow(api, r), 0);
    assert FreeFileRows([row], api) == [0];
  }

  /** The row that took the API id counts once, which is not more than one entry before it. */
  lemma SecondOfItsKind(t: Transfer)
    requires Agrees(t) && t.api.Some? && t.file.Some?
    ensures var taken := WithId(Stored(t.file.value), t.api.value.txId.value);
            FileTransferTwin([taken], 1, [t.api.value, t.file.value], 1, 1) == Verdict(false, [taken])
  {
    var file := t.file.value;
    var taken := WithId(Stored(file), t.api.value.txId.value);
    assert [taken][..1] == [taken] && [taken][..0] == [];
    assert Count([taken], file, NotApiTransfer) <= 1 by {
      assert Count([], file, NotApiTransfer) == 0;
    }
    SelectNone([taken], (r: Item) => ApiRowFor(file, r) && r.raw.twin.None?);
    assert FreeApiRows([taken], file) == [];
  }

  /**
   The two copies share the count of identical entries, so in one call that carries both, where the API dates the
   deposit at the very instant the export does, the export's copy no longer finds the row its pairing was written
   on, and the transfer is stored twice.
   */
  lemma MixedCallStoresTwice(t: Transfer)
    requires Agrees(t) && t.api.Some? && t.file.Some? && KeyOf(t.api.value) == KeyOf(t.file.value)
    ensures var l := Store(Ledger([], {}), [t.file.value]).ledger;
            Store(l, [t.api.value, t.file.value]).ledger.rows
            == [WithId(Stored(t.file.value), t.api.value.txId.value), Stored(t.file.value)]
  {
    var file := t.file.value;
    var l, batch := Ledger([Stored(file)], {}), [t.api.value, file];
    FileAlone(t);
    ThenApi(t);
    SecondOfItsKind(t);
    var q := After(l, batch, 1);
    var v := Duplicate(q.ledger, 1, batch, 1, 1);
    assert v == FileTransferTwin(q.ledger.rows, 1, batch, 1, 1);
    assert After(l, batch, 2) == Settle(q, file, v);
  }
}
