/**
 Transfers described by both sources converge: whatever calls are made, in whatever order and however often, and
 whatever else they carry, the ledger holds exactly one row for every transfer either source has shown it.
 */
module TransferConvergence {
  import opened Prelude
  import opened LedgerRows
  import opened LedgerStore

  /** One transfer, as the API and as the export describe it; either may never show it. */
  datatype Transfer = Transfer(api: Option<Item>, file: Option<Item>)

  predicate ApiShaped(e: Item) {
    ApiTransfer(e) && Saves(e) && e.raw.twin.None? && e.raw.mergedIds == {}
  }

  predicate FileShaped(e: Item) {
    && FileTransfer(e) && !Present(e.txId) && Saves(e) && e.raw.mergedIds == {}
    && !e.raw.hasInsertTime && e.raw.completion.Absent?
  }

  /** The two copies pair by the venue's rule, and a withdrawal was requested before it completed. */
  predicate Agrees(t: Transfer) {
    && (t.api.Some? ==> ApiShaped(t.api.value))
    && (t.file.Some? ==> FileShaped(t.file.value))
    && (t.api.Some? && t.file.Some? ==>
          && Pairs(t.api.value, t.file.value)
          && (t.api.value.kind == Withdrawal ==>
                t.api.value.at.Some? && t.api.value.at.value < t.file.value.at.value + SECOND))
  }

  /** No two transfers can be taken for each other. */
  predicate Apart(t: Transfer, u: Transfer) {
    && (t.api.Some? && u.api.Some? ==> t.api.value.txId != u.api.value.txId)
    && (t.api.Some? && u.file.Some? ==> !Pairs(t.api.value, u.file.value))
    && (t.file.Some? && u.file.Some? ==>
          var f, g := t.file.value, u.file.value;
          f.kind == g.kind && f.currency == g.currency && f.amount == g.amount && f.at.Some? && g.at.Some?
          ==> Gap(f.at.value, g.at.value) > SECOND)
  }

  ghost predicate World(events: seq<Transfer>) {
    && (forall v :: 0 <= v < |events| ==> Agrees(events[v]))
    && (forall v, w :: 0 <= v < |events| && 0 <= w < |events| && v != w ==> Apart(events[v], events[w]))
  }

  // ---- whatever else there is ----------------------------------------------------------------------

  /** Described as the API describes a transfer, with or without an id. */
  predicate ApiSide(r: Item) {
    (r.kind == Deposit && r.raw.hasInsertTime) || (r.kind == Withdrawal && !r.raw.completion.Absent?)
  }

  /** The row could be taken for a copy of the transfer: by its id, as the same event, or as the other half of a pair. */
  predicate Clashes(t: Transfer, r: Item) {
    || (t.api.Some? && (r.txId == t.api.value.txId
                        || (if FileTransfer(r) then Pairs(t.api.value, r) else r.txId.None? && NearBy(t.api.value, r))))
    || (t.file.Some? && ((!ApiTransfer(r) && NearBy(t.file.value, r)) || (ApiSide(r) && Pairs(r, t.file.value))))
  }

  /** The row has nothing to do with any of the transfers. */
  ghost predicate Bystander(events: seq<Transfer>, r: Item) {
    forall v :: 0 <= v < |events| ==> !Clashes(events[v], r)
  }

  predicate NamesNone(t: Transfer, ids: set<string>) {
    t.api.Some? && t.api.value.txId.Some? ==> t.api.value.txId.value !in ids
  }

  /** An entry that is no copy of any of the transfers, nor identical to an export copy. */
  ghost predicate Stranger(events: seq<Transfer>, e: Item) {
    && Bystander(events, Stored(e))
    && forall v :: 0 <= v < |events| ==>
         NamesNone(events[v], e.raw.mergedIds + IdsOf(e)) && (events[v].file.Some? ==>
           KeyOf(e) != KeyOf(events[v].file.value))
  }

  /** A ledger in which none of the transfers has a row yet. */
  ghost predicate Foreign(l: Ledger, events: seq<Transfer>) {
    && (forall i :: 0 <= i < |l.rows| ==> Bystander(events, l.rows[i]))
    && (forall v :: 0 <= v < |events| ==> NamesNone(events[v], l.merged))
  }

  // ---- calls ---------------------------------------------------------------------------------------

  /** An entry of a call: one source's copy of a transfer, or something else. */
  datatype Entry = Copy(fromApi: bool, v: nat) | Other(e: Item)

  /** One call of `store!`: its entries in order. */
  type Call = seq<Entry>

  predicate Shows(events: seq<Transfer>, fromApi: bool, v: nat) {
    v < |events| && if fromApi then events[v].api.Some? else events[v].file.Some?
  }

  ghost predicate ValidEntry(events: seq<Transfer>, x: Entry) {
    match x
    case Copy(fromApi, v) => Shows(events, fromApi, v)
    case Other(e) => Stranger(events, e)
  }

  /** Copies of these transfers, each once, among any strangers. */
  ghost predicate ValidCall(events: seq<Transfer>, c: Call) {
    && (forall i :: 0 <= i < |c| ==> ValidEntry(events, c[i]))
    && (forall i, j :: 0 <= i < j < |c| && c[i].Copy? ==> c[i] != c[j])
  }

  ghost function ItemOf(events: seq<Transfer>, x: Entry): Item
    requires ValidEntry(events, x)
  {
    match x
    case Copy(fromApi, v) => if fromApi then events[v].api.value else events[v].file.value
    case Other(e) => e
  }

  ghost function Batch(events: seq<Transfer>, c: Call): (batch: seq<Item>)
    requires ValidCall(events, c)
    ensures |batch| == |c| && forall i :: 0 <= i < |batch| ==> batch[i] == ItemOf(events, c[i])
  {
    seq(|c|, i requires 0 <= i < |c| => ItemOf(events, c[i]))
  }

  /** No export copy comes after an API copy that looks identical: of either source alone, any call does. */
  ghost predicate SafeCall(events: seq<Transfer>, c: Call)
    requires ValidCall(events, c)
  {
    forall i, j :: 0 <= i < j < |c| && c[i].Copy? && c[i].fromApi && c[j].Copy? && !c[j].fromApi ==>
      KeyOf(ItemOf(events, c[i])) != KeyOf(ItemOf(events, c[j]))
  }

  ghost predicate ValidCalls(events: seq<Transfer>, calls: seq<Call>) {
    forall c :: c in calls ==> ValidCall(events, c)
  }

  ghost predicate SafeCalls(events: seq<Transfer>, calls: seq<Call>)
    requires ValidCalls(events, calls)
  {
    forall c :: c in calls ==> SafeCall(events, c)
  }

  ghost function Calls(events: seq<Transfer>, l: Ledger, calls: seq<Call>): Ledger
    requires ValidCalls(events, calls)
  {
    if calls == [] then l
    else Store(Calls(events, l, calls[..|calls| - 1]), Batch(events, calls[|calls| - 1])).ledger
  }

  ghost predicate SeenIn(calls: seq<Call>, fromApi: bool, v: nat) {
    exists c :: c in calls && Copy(fromApi, v) in c
  }

  // ---- what the ledger holds of each transfer ------------------------------------------------------

  datatype Status = Unseen | FileOnly | Taken | ApiOnly | Marked

  predicate Fits(t: Transfer, s: Status) {
    match s
    case Unseen => true
    case FileOnly => t.file.Some?
    case ApiOnly => t.api.Some?
    case _ => t.api.Some? && t.file.Some?
  }

  /** The transfer's row: whichever copy came first, with the pairing written down once both came. */
  function RowOf(t: Transfer, s: Status): Item
    requires s != Unseen && Fits(t, s) && Agrees(t)
  {
    match s
    case FileOnly => Stored(t.file.value)
    case Taken => WithId(Stored(t.file.value), t.api.value.txId.value)
    case ApiOnly => Stored(t.api.value)
    case Marked => Stamped(Stored(t.api.value), t.file.value.at.value)
  }

  function Arrive(s: Status, fromApi: bool): Status {
    match s
    case Unseen => if fromApi then ApiOnly else FileOnly
    case FileOnly => if fromApi then Taken else FileOnly
    case ApiOnly => if fromApi then ApiOnly else Marked
    case _ => s
  }

  /** `at` says where each transfer seen has its row; every other row is a bystander. */
  ghost predicate Tracks(events: seq<Transfer>, l: Ledger, st: seq<Status>, at: map<nat, nat>)
    requires World(events)
  {
    && |st| == |events|
    && (forall v :: 0 <= v < |events| ==> Fits(events[v], st[v]) && (st[v] != Unseen <==> v in at))
    && (forall v :: v in at ==> v < |events| && at[v] < |l.rows| && l.rows[at[v]] == RowOf(events[v], st[v]))
    && (forall v, w :: v in at && w in at && at[v] == at[w] ==> v == w)
    && (forall i :: 0 <= i < |l.rows| && i !in at.Values ==> Bystander(events, l.rows[i]))
    && (forall v :: 0 <= v < |events| ==> NamesNone(events[v], l.merged))
  }

  // ---- rivals --------------------------------------------------------------------------------------

  lemma {:induction false} OneRival(rows: seq<Item>, batch: seq<Item>, n: nat, i: nat, api: Item)
    requires i < |batch| && n <= |batch|
    requires Rival(rows, api, batch[i], true)
    requires forall j :: 0 <= j < |batch| && j != i && !Present(batch[j].txId) && FileTransfer(batch[j]) ==>
              !Pairs(api, batch[j])
    ensures Rivals(rows, batch, n, i, api) == if i < n then 1 else 0
  {
    if n > 0 {
      OneRival(rows, batch, n - 1, i, api);
    }
  }

  // ---- one arrival from the API --------------------------------------------------------------------

  lemma ApiNotCounted(events: seq<Transfer>, l: Ledger, st: seq<Status>, at: map<nat, nat>, v: nat, base: nat)
    requires World(events) && Tracks(events, l, st, at)
    requires Shows(events, true, v) && base <= |l.rows|
    ensures forall repeat: nat :: !Counted(l.rows, base, events[v].api.value, IdLessNotFileTransfer, repeat)
  {
    var e := events[v].api.value;
    forall i | 0 <= i < base
      ensures !Counts(e, IdLessNotFileTransfer, l.rows[i])
    {
      if i in at.Values {
        var w :| w in at && at[w] == i;
        assert Agrees(events[w]);
      } else {
        assert !Clashes(events[v], l.rows[i]);
      }
    }
    CountZero(l.rows[..base], e, IdLessNotFileTransfer);
  }

  /** An API id is known exactly when the transfer's row carries it. */
  lemma ApiKnown(events: seq<Transfer>, l: Ledger, st: seq<Status>, at: map<nat, nat>, v: nat)
    requires World(events) && Tracks(events, l, st, at) && Shows(events, true, v)
    ensures KnownId(l, events[v].api.value.txId) <==> st[v] !in {Unseen, FileOnly}
  {
    var id := events[v].api.value.txId;
    assert Agrees(events[v]) && NamesNone(events[v], l.merged);
    if st[v] != Unseen && st[v] != FileOnly {
      assert l.rows[at[v]].txId == id;
    } else {
      forall i | 0 <= i < |l.rows|
        ensures l.rows[i].txId != Some(id.value)
      {
        RowNamesItsOwn(events, l, st, at, v, i);
      }
    }
  }

  lemma RowNamesItsOwn(events: seq<Transfer>, l: Ledger, st: seq<Status>, at: map<nat, nat>, v: nat, i: nat)
    requires World(events) && Tracks(events, l, st, at) && Shows(events, true, v) && i < |l.rows|
    requires st[v] in {Unseen, FileOnly}
    ensures l.rows[i].txId != events[v].api.value.txId
  {
    if i in at.Values {
      var w :| w in at && at[w] == i;
      assert Agrees(events[w]) && Agrees(events[v]);
      assert w != v ==> Apart(events[v], events[w]);
    } else {
      assert !Clashes(events[v], l.rows[i]);
    }
  }

  lemma OwnFileRow(t: Transfer, s: Status)
    requires Agrees(t) && t.api.Some? && s != Unseen && Fits(t, s)
    ensures FreeFileRow(t.api.value, RowOf(t, s)) <==> s == FileOnly
  {
  }

  lemma OtherFileRow(t: Transfer, u: Transfer, s: Status)
    requires Agrees(t) && Agrees(u) && Apart(t, u) && t.api.Some? && s != Unseen && Fits(u, s)
    ensures !FreeFileRow(t.api.value, RowOf(u, s))
  {
  }

  lemma ApiFindsFile(events: seq<Transfer>, l: Ledger, st: seq<Status>, at: map<nat, nat>, v: nat, i: nat)
    requires World(events) && Tracks(events, l, st, at) && Shows(events, true, v) && i < |l.rows|
    ensures FreeFileRow(events[v].api.value, l.rows[i]) <==> v in at && at[v] == i && st[v] == FileOnly
  {
    hide RowOf, FreeFileRow, Agrees, Apart;
    if i in at.Values {
      var w :| w in at && at[w] == i;
      if w == v {
        OwnFileRow(events[v], st[v]);
      } else {
        OtherFileRow(events[v], events[w], st[w]);
      }
    } else {
      BystanderIsFree(events[v], l.rows[i]);
    }
  }

  lemma BystanderIsFree(t: Transfer, r: Item)
    requires !Clashes(t, r)
    ensures t.api.Some? ==> !FreeFileRow(t.api.value, r)
    ensures t.file.Some? ==> !ApiRowFor(t.file.value, r)
  {
  }

  // ---- one arrival from the export -----------------------------------------------------------------

  lemma FileCounted(events: seq<Transfer>, l: Ledger, st: seq<Status>, at: map<nat, nat>, v: nat, base: nat)
    requires World(events) && Tracks(events, l, st, at) && Shows(events, false, v)
    requires v in at && at[v] < base <= |l.rows| && st[v] in {FileOnly, Taken}
    ensures Counted(l.rows, base, events[v].file.value, NotApiTransfer, 0)
  {
    assert Agrees(events[v]) && l.rows[..base][at[v]] == RowOf(events[v], st[v]);
    CountSome(l.rows[..base], events[v].file.value, NotApiTransfer, at[v]);
  }

  lemma FileNotCounted(events: seq<Transfer>, l: Ledger, st: seq<Status>, at: map<nat, nat>, v: nat, base: nat)
    requires World(events) && Tracks(events, l, st, at)
    requires Shows(events, false, v) && base <= |l.rows| && st[v] in {Unseen, ApiOnly}
    ensures !Counted(l.rows, base, events[v].file.value, NotApiTransfer, 0)
  {
    var e := events[v].file.value;
    forall i | 0 <= i < base
      ensures !Counts(e, NotApiTransfer, l.rows[i])
    {
      if i in at.Values {
        var w :| w in at && at[w] == i;
        assert Agrees(events[w]) && Agrees(events[v]);
        assert w != v ==> Apart(events[v], events[w]);
      } else {
        assert !Clashes(events[v], l.rows[i]);
      }
    }
    CountZero(l.rows[..base], e, NotApiTransfer);
  }

  lemma OwnApiRow(t: Transfer, s: Status)
    requires Agrees(t) && t.file.Some? && s != Unseen && Fits(t, s)
    ensures ApiRowFor(t.file.value, RowOf(t, s)) <==> s in {ApiOnly, Marked}
  {
  }

  lemma OtherApiRow(t: Transfer, u: Transfer, s: Status)
    requires Agrees(t) && Agrees(u) && Apart(u, t) && t.file.Some? && s != Unseen && Fits(u, s)
    ensures !ApiRowFor(t.file.value, RowOf(u, s))
  {
  }

  lemma FileFindsApi(events: seq<Transfer>, l: Ledger, st: seq<Status>, at: map<nat, nat>, v: nat, i: nat)
    requires World(events) && Tracks(events, l, st, at) && Shows(events, false, v) && i < |l.rows|
    ensures ApiRowFor(events[v].file.value, l.rows[i]) <==> v in at && at[v] == i && st[v] in {ApiOnly, Marked}
  {
    hide RowOf, ApiRowFor, Agrees, Apart;
    if i in at.Values {
      var w :| w in at && at[w] == i;
      if w == v {
        OwnApiRow(events[v], st[v]);
      } else {
        OtherApiRow(events[v], events[w], st[w]);
      }
    } else {
      BystanderIsFree(events[v], l.rows[i]);
    }
  }

  // ---- rows added and changed ----------------------------------------------------------------------

  /** A transfer seen for the first time becomes the last row. */
  lemma TracksNew(events: seq<Transfer>, l: Ledger, st: seq<Status>, at: map<nat, nat>, v: nat, s: Status)
    requires World(events) && Tracks(events, l, st, at)
    requires v < |events| && st[v] == Unseen && s != Unseen && Fits(events[v], s)
    ensures Tracks(events, l.(rows := l.rows + [RowOf(events[v], s)]), st[v := s], at[v := |l.rows|])
  {
    hide RowOf, Bystander, NamesNone, Agrees, Apart;
    var at' := at[v := |l.rows|];
    assert forall i :: i in at'.Values <==> i == |l.rows| || i in at.Values by {
      assert forall w :: w in at ==> at'[w] == at[w];
      assert at'[v] == |l.rows|;
    }
  }

  /** A transfer's own row takes its next form in place. */
  lemma TracksChange(events: seq<Transfer>, l: Ledger, st: seq<Status>, at: map<nat, nat>, v: nat, s: Status)
    requires World(events) && Tracks(events, l, st, at)
    requires v in at && s != Unseen && Fits(events[v], s)
    ensures Tracks(events, l.(rows := l.rows[at[v] := RowOf(events[v], s)]), st[v := s], at)
  {
    hide RowOf, Bystander, NamesNone, Agrees, Apart;
    assert at[v] in at.Values;
  }

  lemma BystanderAdded(events: seq<Transfer>, l: Ledger, st: seq<Status>, at: map<nat, nat>, r: Item, ids: set<string>)
    requires World(events) && Tracks(events, l, st, at) && Bystander(events, r)
    requires forall v :: 0 <= v < |events| ==> NamesNone(events[v], ids)
    ensures Tracks(events, Ledger(l.rows + [r], l.merged + ids), st, at)
  {
  }

  lemma BystanderChanged(events: seq<Transfer>, l: Ledger, st: seq<Status>, at: map<nat, nat>, i: nat, r: Item)
    requires World(events) && Tracks(events, l, st, at) && i < |l.rows| && i !in at.Values && Bystander(events, r)
    ensures Tracks(events, l.(rows := l.rows[i := r]), st, at)
  {
    hide RowOf, Bystander, NamesNone, Agrees, Apart;
    assert forall v :: v in at ==> at[v] in at.Values;
  }

  // ---- one copy ------------------------------------------------------------------------------------

  lemma ApiVerdictNew(events: seq<Transfer>, l: Ledger, st: seq<Status>, at: map<nat, nat>, base: nat, e: Item, v: nat,
                      repeat: nat)
    requires World(events) && Tracks(events, l, st, at)
    requires Shows(events, true, v) && base <= |l.rows| && e == events[v].api.value && st[v] == Unseen
    ensures ApiTransferTwin(l.rows, base, e, e.txId.value, repeat) == Verdict(false, l.rows)
  {
    hide FreeFileRow, Counted, RowOf;
    ApiNotCounted(events, l, st, at, v, base);
    forall j | 0 <= j < |l.rows|
      ensures !FreeFileRow(e, l.rows[j])
    {
      ApiFindsFile(events, l, st, at, v, j);
    }
    SelectNone(l.rows, (r: Item) => FreeFileRow(e, r));
    assert FreeFileRows(l.rows, e) == [];
  }

  lemma ApiVerdictTake(events: seq<Transfer>, l: Ledger, st: seq<Status>, at: map<nat, nat>, base: nat, e: Item, v: nat,
                       repeat: nat)
    requires World(events) && Tracks(events, l, st, at)
    requires Shows(events, true, v) && base <= |l.rows| && e == events[v].api.value && st[v] == FileOnly
    ensures Agrees(events[v]) && Fits(events[v], Taken) && v in at && at[v] < |l.rows|
    ensures ApiTransferTwin(l.rows, base, e, e.txId.value, repeat) == Verdict(true, l.rows[at[v] := RowOf(events[v], Taken)])
  {
    hide FreeFileRow, Counted;
    ApiNotCounted(events, l, st, at, v, base);
    forall j | 0 <= j < |l.rows|
      ensures FreeFileRow(e, l.rows[j]) <==> j == at[v]
    {
      ApiFindsFile(events, l, st, at, v, j);
    }
    SelectOne(l.rows, (r: Item) => FreeFileRow(e, r), at[v]);
    assert FreeFileRows(l.rows, e) == [at[v]];
  }

  lemma FileVerdictNew(events: seq<Transfer>, l: Ledger, st: seq<Status>, at: map<nat, nat>, base: nat,
                       batch: seq<Item>, i: nat, v: nat)
    requires World(events) && Tracks(events, l, st, at)
    requires Shows(events, false, v) && base <= |l.rows| && i < |batch| && batch[i] == events[v].file.value
    requires st[v] == Unseen
    ensures FileTransferTwin(l.rows, base, batch, i, 0) == Verdict(false, l.rows)
  {
    hide ApiRowFor, Counted, RowOf;
    var e := batch[i];
    forall j | 0 <= j < |l.rows|
      ensures !ApiRowFor(e, l.rows[j])
    {
      FileFindsApi(events, l, st, at, v, j);
    }
    FileNotCounted(events, l, st, at, v, base);
    SelectNone(l.rows, (r: Item) => ApiRowFor(e, r) && r.raw.twin.None?);
    assert FreeApiRows(l.rows, e) == [];
  }

  /** No other entry of the call could take the API row that this one pairs with. */
  predicate NoRival(t: Transfer, batch: seq<Item>, i: nat) {
    t.api.Some? ==>
      forall j :: 0 <= j < |batch| && j != i && !Present(batch[j].txId) && FileTransfer(batch[j]) ==>
        !Pairs(t.api.value, batch[j])
  }

  lemma FileVerdictStamp(events: seq<Transfer>, l: Ledger, st: seq<Status>, at: map<nat, nat>, base: nat,
                         batch: seq<Item>, i: nat, v: nat)
    requires World(events) && Tracks(events, l, st, at)
    requires Shows(events, false, v) && base <= |l.rows| && i < |batch| && batch[i] == events[v].file.value
    requires st[v] == ApiOnly
    requires NoRival(events[v], batch, i)
    ensures Agrees(events[v]) && Fits(events[v], Marked) && v in at && at[v] < |l.rows|
    ensures FileTransferTwin(l.rows, base, batch, i, 0) == Verdict(true, l.rows[at[v] := RowOf(events[v], Marked)])
  {
    hide ApiRowFor, Counted, Pairs;
    var e, t := batch[i], events[v];
    assert Agrees(t) && l.rows[at[v]] == Stored(t.api.value);
    forall j | 0 <= j < |l.rows|
      ensures ApiRowFor(e, l.rows[j]) <==> j == at[v]
    {
      FileFindsApi(events, l, st, at, v, j);
    }
    FileNotCounted(events, l, st, at, v, base);
    SelectOne(l.rows, (r: Item) => ApiRowFor(e, r) && r.raw.twin.None?, at[v]);
    assert FreeApiRows(l.rows, e) == [at[v]];
    StoredPairs(t.api.value);
    OneRival(l.rows, batch, |batch|, i, l.rows[at[v]]);
  }

  /** A stored copy pairs as the copy does. */
  lemma StoredPairs(e: Item)
    ensures forall f: Item :: Pairs(Stored(e), f) <==> Pairs(e, f)
    ensures forall a: Item :: Pairs(a, Stored(e)) <==> Pairs(a, e)
  {
  }

  lemma FileVerdictKnown(events: seq<Transfer>, l: Ledger, st: seq<Status>, at: map<nat, nat>, base: nat,
                         batch: seq<Item>, i: nat, v: nat)
    requires World(events) && Tracks(events, l, st, at)
    requires Shows(events, false, v) && base <= |l.rows| && i < |batch| && batch[i] == events[v].file.value
    requires st[v] in {FileOnly, Taken, Marked} && (st[v] != Marked ==> at[v] < base)
    ensures FileTransferTwin(l.rows, base, batch, i, 0) == Verdict(true, l.rows)
  {
    assert Agrees(events[v]) && l.rows[at[v]] == RowOf(events[v], st[v]);
    if st[v] == Marked {
      FileFindsApi(events, l, st, at, v, at[v]);
      assert TwinNear(l.rows[at[v]], batch[i].at.value);
    } else {
      FileCounted(events, l, st, at, v, base);
    }
  }

  /** What a copy does to the rows: nothing, a new row, or the pairing written on the row already there. */
  lemma CopyVerdict(events: seq<Transfer>, l: Ledger, st: seq<Status>, at: map<nat, nat>,
                    base: nat, batch: seq<Item>, i: nat, fromApi: bool, v: nat, repeat: nat)
    requires World(events) && Tracks(events, l, st, at)
    requires Shows(events, fromApi, v) && base <= |l.rows| && i < |batch|
    requires batch[i] == ItemOf(events, Copy(fromApi, v))
    requires !fromApi ==> repeat == 0 && NoRival(events[v], batch, i) && (st[v] in {FileOnly, Taken} ==> at[v] < base)
    ensures var s := Arrive(st[v], fromApi);
            && Agrees(events[v]) && Fits(events[v], s) && s != Unseen
            && Duplicate(l, base, batch, i, repeat)
            == if st[v] == Unseen then Verdict(false, l.rows)
               else if s == st[v] then Verdict(true, l.rows)
               else Verdict(true, l.rows[at[v] := RowOf(events[v], s)])
  {
    hide ApiTransferTwin, FileTransferTwin, Clashes, RowOf, NoRival;
    assert Agrees(events[v]);
    if fromApi {
      ApiKnown(events, l, st, at, v);
      if st[v] == Unseen {
        ApiVerdictNew(events, l, st, at, base, batch[i], v, repeat);
      } else if st[v] == FileOnly {
        ApiVerdictTake(events, l, st, at, base, batch[i], v, repeat);
      }
    } else {
      if st[v] == Unseen {
        FileVerdictNew(events, l, st, at, base, batch, i, v);
      } else if st[v] == ApiOnly {
        FileVerdictStamp(events, l, st, at, base, batch, i, v);
      } else {
        FileVerdictKnown(events, l, st, at, base, batch, i, v);
      }
    }
  }

  /** Where the rows are once a copy has come. */
  function Placed(at: map<nat, nat>, s: Status, v: nat, n: nat): map<nat, nat> {
    if s == Unseen then at[v := n] else at
  }

  /** The ledger once a copy has come. */
  function CopyStored(l: Ledger, t: Transfer, s: Status, fromApi: bool, i: nat): Ledger
    requires Agrees(t) && Fits(t, Arrive(s, fromApi)) && Arrive(s, fromApi) != Unseen && (s != Unseen ==> i < |l.rows|)
  {
    if s == Unseen then l.(rows := l.rows + [RowOf(t, Arrive(s, fromApi))])
    else if s == Arrive(s, fromApi) then l
    else l.(rows := l.rows[i := RowOf(t, Arrive(s, fromApi))])
  }

  lemma CopyStep(events: seq<Transfer>, p: Progress, st: seq<Status>, at: map<nat, nat>,
                 base: nat, batch: seq<Item>, i: nat, fromApi: bool, v: nat)
    requires World(events) && Tracks(events, p.ledger, st, at)
    requires Shows(events, fromApi, v) && base <= |p.ledger.rows| && i < |batch|
    requires batch[i] == ItemOf(events, Copy(fromApi, v))
    requires !fromApi ==> KeyOf(batch[i]) !in p.repeats && NoRival(events[v], batch, i)
    requires !fromApi && st[v] in {FileOnly, Taken} ==> at[v] < base
    ensures Agrees(events[v]) && Fits(events[v], Arrive(st[v], fromApi)) && Arrive(st[v], fromApi) != Unseen
    ensures Step(p, base, batch, i).ledger == CopyStored(p.ledger, events[v], st[v], fromApi, if v in at then at[v] else 0)
  {
    hide Clashes, RowOf, NoRival, Duplicate;
    var e, l := batch[i], p.ledger;
    CopyVerdict(events, l, st, at, base, batch, i, fromApi, v, Repeat(p, e));
    CopySaves(events[v], fromApi);
    assert l.merged + {} == l.merged;
  }

  lemma CopyArrives(events: seq<Transfer>, p: Progress, st: seq<Status>, at: map<nat, nat>,
                    base: nat, batch: seq<Item>, i: nat, fromApi: bool, v: nat)
    requires World(events) && Tracks(events, p.ledger, st, at)
    requires Shows(events, fromApi, v) && base <= |p.ledger.rows| && i < |batch|
    requires batch[i] == ItemOf(events, Copy(fromApi, v))
    requires !fromApi ==> KeyOf(batch[i]) !in p.repeats && NoRival(events[v], batch, i)
    requires !fromApi && st[v] in {FileOnly, Taken} ==> at[v] < base
    ensures Tracks(events, Step(p, base, batch, i).ledger, st[v := Arrive(st[v], fromApi)], Placed(at, st[v], v, |p.ledger.rows|))
    ensures var rows, rows' := p.ledger.rows, Step(p, base, batch, i).ledger.rows;
            && |rows'| == |rows| + (if st[v] == Unseen then 1 else 0)
            && forall j :: 0 <= j < |rows| && j !in at.Values ==> rows'[j] == rows[j]
  {
    hide Clashes, RowOf, NoRival, Step, Bystander, Apart;
    CopyStep(events, p, st, at, base, batch, i, fromApi, v);
    var s := Arrive(st[v], fromApi);
    if st[v] == Unseen {
      TracksNew(events, p.ledger, st, at, v, s);
    } else if s != st[v] {
      TracksChange(events, p.ledger, st, at, v, s);
      assert at[v] in at.Values;
    } else {
      assert st[v := s] == st;
    }
  }

  lemma CopySaves(t: Transfer, fromApi: bool)
    requires Agrees(t) && (if fromApi then t.api.Some? else t.file.Some?)
    ensures var e := if fromApi then t.api.value else t.file.value;
            && Saves(e) && e.raw.mergedIds == {}
            && Stored(e) == RowOf(t, if fromApi then ApiOnly else FileOnly)
  {
  }
}
