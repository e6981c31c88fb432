/** What a batch leaves in the ledger, told in fields: plain entries one for one, and where every entry went. */
module PlainExactly {
  import opened Prelude
  import opened LedgerRows
  import opened LedgerStore
  import opened Reimport
  import opened PairingExactly

  // ---- counting in fields --------------------------------------------------------------------------

  /** The rows that are the same thing as the entry, have no id, and stand at most a second away. */
  function MatchesWithoutId(rows: seq<Item>, e: Item): set<nat> {
    set i: nat | i < |rows| && rows[i].txId.None? && AlikeWithin(e, rows[i], 1_000_000)
  }

  /** The rows that are the same thing as an entry without an id: less than a second away, or a second from one with an id. */
  function Matches(rows: seq<Item>, e: Item): set<nat> {
    set i: nat | i < |rows| && AlikeWithin(e, rows[i], if rows[i].txId.Some? then 1_000_000 else 999_999)
  }

  predicate SameKey(e: Item, f: Item) {
    e.kind == f.kind && e.currency == f.currency && e.amount == f.amount && e.at == f.at
  }

  function WithKey(xs: seq<Item>, from: nat, e: Item): set<nat> {
    set i: nat | from <= i < |xs| && SameKey(xs[i], e)
  }

  lemma OneMore(all: set<nat>, before: set<nat>, n: nat, also: bool)
    requires n !in before && forall i :: i in all <==> i in before || (also && i == n)
    ensures |all| == |before| + if also then 1 else 0
  {
    assert all == before + if also then {n} else {};
  }

  lemma NextWithoutId(rows: seq<Item>, e: Item)
    requires rows != []
    ensures var n := |rows| - 1;
            |MatchesWithoutId(rows, e)| == |MatchesWithoutId(rows[..n], e)|
            + if rows[n].txId.None? && AlikeWithin(e, rows[n], 1_000_000) then 1 else 0
  {
    hide AlikeWithin;
    var n := |rows| - 1;
    assert forall i :: 0 <= i < n ==> rows[..n][i] == rows[i];
    OneMore(MatchesWithoutId(rows, e), MatchesWithoutId(rows[..n], e), n,
            rows[n].txId.None? && AlikeWithin(e, rows[n], 1_000_000));
  }

  lemma NextMatch(rows: seq<Item>, e: Item)
    requires rows != []
    ensures var n := |rows| - 1;
            |Matches(rows, e)| == |Matches(rows[..n], e)|
            + if AlikeWithin(e, rows[n], if rows[n].txId.Some? then 1_000_000 else 999_999) then 1 else 0
  {
    hide AlikeWithin;
    var n := |rows| - 1;
    assert forall i :: 0 <= i < n ==> rows[..n][i] == rows[i];
    OneMore(Matches(rows, e), Matches(rows[..n], e), n,
            AlikeWithin(e, rows[n], if rows[n].txId.Some? then 1_000_000 else 999_999));
  }

  lemma {:induction false} CountIsMatches(rows: seq<Item>, e: Item)
    requires SaysId(e) && e.at.Some?
    ensures Count(rows, e, IdLess) == |MatchesWithoutId(rows, e)|
  {
    hide Counts, AlikeWithin, SaysId;
    if rows == [] {
      assert MatchesWithoutId(rows, e) == {};
    } else {
      hide MatchesWithoutId, Matches;
      CountIsMatches(rows[..|rows| - 1], e);
      CountsInFields(rows[|rows| - 1], e);
      NextWithoutId(rows, e);
    }
  }

  lemma CountsInFields(r: Item, e: Item)
    requires SaysId(e) && e.at.Some?
    ensures Counts(e, IdLess, r) <==> r.txId.None? && AlikeWithin(e, r, 1_000_000)
  {
    SaysIsPresent(e.txId.value);
  }

  lemma {:induction false} AnyCountIsMatches(rows: seq<Item>, e: Item)
    requires !SaysId(e) && e.at.Some?
    ensures Count(rows, e, AnyRow) == |Matches(rows, e)|
  {
    hide Counts, AlikeWithin, SaysId;
    if rows == [] {
      assert Matches(rows, e) == {};
    } else {
      hide MatchesWithoutId, Matches;
      AnyCountIsMatches(rows[..|rows| - 1], e);
      AnyCountsInFields(rows[|rows| - 1], e);
      NextMatch(rows, e);
    }
  }

  lemma AnyCountsInFields(r: Item, e: Item)
    requires !SaysId(e) && e.at.Some?
    ensures Counts(e, AnyRow, r) <==> AlikeWithin(e, r, if r.txId.Some? then 1_000_000 else 999_999)
  {
  }

  // ---- entries with ids ----------------------------------------------------------------------------

  /** Neither a transfer nor a sweep of the API. */
  predicate PlainWithId(e: Item) {
    && SaysId(e) && Complete(e)
    && !("dust-" <= e.txId.value && (e.kind == SwapIn || e.kind == SwapOut) && e.raw.transfered.Some?)
    && !(e.kind == Deposit && e.raw.hasInsertTime) && !(e.kind == Withdrawal && e.raw.completion != Absent)
  }

  /** No row and no merged leg has the id. */
  predicate NewId(l: Ledger, id: Option<string>) {
    id.Some? && id.value !in l.merged && forall i :: 0 <= i < |l.rows| ==> l.rows[i].txId != id
  }

  /** The entries with this key whose ids are new, among the first n. */
  function NewWithKey(l: Ledger, batch: seq<Item>, n: nat, e: Item): set<nat> {
    set i: nat | i < |batch| && i < n && SameKey(batch[i], e) && NewId(l, batch[i].txId)
  }

  /** Plain entries with ids, and no entry names a new one that another of this key is given. */
  ghost predicate FreshIds(l: Ledger, batch: seq<Item>, e: Item) {
    && (forall i :: 0 <= i < |batch| ==> PlainWithId(batch[i]))
    && (forall i, j :: 0 <= i < |batch| && 0 <= j < |batch| && SameKey(batch[i], e) && NewId(l, batch[i].txId) ==>
          (i != j ==> batch[j].txId != batch[i].txId) && batch[i].txId.value !in batch[j].raw.mergedIds)
  }

  /** After the first n entries: the old rows as they were, and of the new ones with this key as many as exceed them. */
  ghost predicate Exceeds(l: Ledger, batch: seq<Item>, n: nat, e: Item, p: Progress)
    requires n <= |batch|
  {
    && |l.rows| <= |p.ledger.rows| && p.ledger.rows[..|l.rows|] == l.rows && l.merged <= p.ledger.merged
    && (forall i :: n <= i < |batch| && SameKey(batch[i], e) && NewId(l, batch[i].txId) ==>
          NewId(p.ledger, batch[i].txId))
    && Seen(p.repeats, KeyOf(e)) == |NewWithKey(l, batch, n, e)|
    && |WithKey(p.ledger.rows, |l.rows|, e)|
       == Max(0, |NewWithKey(l, batch, n, e)| - |MatchesWithoutId(l.rows, e)|)
  }

  lemma OneMoreNew(l: Ledger, batch: seq<Item>, n: nat, e: Item)
    requires n < |batch|
    ensures |NewWithKey(l, batch, n + 1, e)|
         == |NewWithKey(l, batch, n, e)| + if SameKey(batch[n], e) && NewId(l, batch[n].txId) then 1 else 0
  {
    hide SameKey, NewId;
    OneMore(NewWithKey(l, batch, n + 1, e), NewWithKey(l, batch, n, e), n, SameKey(batch[n], e) && NewId(l, batch[n].txId));
  }

  /** An id that was not new is known all through the run. */
  lemma StaysKnown(l: Ledger, now: Ledger, id: Option<string>)
    requires id.Some? && !NewId(l, id) && |l.rows| <= |now.rows| && now.rows[..|l.rows|] == l.rows && l.merged <= now.merged
    ensures KnownId(now, id)
  {
    if id.value !in l.merged {
      var i :| 0 <= i < |l.rows| && l.rows[i].txId == id;
      assert now.rows[..|l.rows|][i] == now.rows[i];
    }
  }

  lemma NoneWithKey(xs: seq<Item>, from: nat, e: Item)
    requires from >= |xs|
    ensures WithKey(xs, from, e) == {}
  {
  }

  lemma OneMoreWithKey(xs: seq<Item>, from: nat, x: Item, e: Item)
    requires from <= |xs|
    ensures |WithKey(xs + [x], from, e)| == |WithKey(xs, from, e)| + if SameKey(x, e) then 1 else 0
  {
    var all := xs + [x];
    assert forall i :: 0 <= i < |xs| ==> all[i] == xs[i];
    assert WithKey(all, from, e) == WithKey(xs, from, e) + if SameKey(x, e) then {|xs|} else {};
  }

  /** One such entry is a duplicate when its id is known, or it is settled by the rows without ids. */
  lemma PlainVerdict(l: Ledger, base: nat, batch: seq<Item>, i: nat, repeat: nat)
    requires base <= |l.rows| && i < |batch| && PlainWithId(batch[i])
    ensures Duplicate(l, base, batch, i, repeat)
         == Verdict(KnownId(l, batch[i].txId) || |MatchesWithoutId(l.rows[..base], batch[i])| > repeat, l.rows)
  {
    var e := batch[i];
    SaysIsPresent(e.txId.value);
    CountIsMatches(l.rows[..base], e);
    hide Count, MatchesWithoutId, KnownId, SaysId, Complete;
  }

  lemma ExcessStep(l: Ledger, batch: seq<Item>, n: nat, e: Item, p: Progress)
    requires n < |batch| && FreshIds(l, batch, e) && Complete(e) && Exceeds(l, batch, n, e, p)
    ensures Exceeds(l, batch, n + 1, e, Step(p, |l.rows|, batch, n))
  {
    hide MatchesWithoutId, WithKey, NewWithKey;
    var x, q := batch[n], Step(p, |l.rows|, batch, n);
    var repeat := Repeat(p, x);
    assert PlainWithId(x);
    PlainVerdict(p.ledger, |l.rows|, batch, n, repeat);
    assert q == Settle(p, x, Duplicate(p.ledger, |l.rows|, batch, n, repeat));
    hide Duplicate;
    SaysIsPresent(x.currency);
    SaysIsPresent(x.txId.value);
    OneMoreNew(l, batch, n, e);
    OneMoreWithKey(p.ledger.rows, |l.rows|, Stored(x), e);
    if SameKey(x, e) {
      SameMatches(l.rows, x, e);
      if !NewId(l, x.txId) {
        StaysKnown(l, p.ledger, x.txId);
      }
    }
  }

  lemma SameMatches(rows: seq<Item>, x: Item, e: Item)
    requires SameKey(x, e)
    ensures MatchesWithoutId(rows, x) == MatchesWithoutId(rows, e)
  {
  }

  lemma {:induction false} ExcessAfter(l: Ledger, batch: seq<Item>, n: nat, e: Item)
    requires n <= |batch| && FreshIds(l, batch, e) && Complete(e)
    ensures Exceeds(l, batch, n, e, After(l, batch, n))
  {
    hide Step, FreshIds;
    if n == 0 {
      NothingYet(l, batch, e);
    } else {
      ExcessAfter(l, batch, n - 1, e);
      ExcessStep(l, batch, n - 1, e, After(l, batch, n - 1));
    }
  }

  lemma NothingYet(l: Ledger, batch: seq<Item>, e: Item)
    requires FreshIds(l, batch, e)
    ensures Exceeds(l, batch, 0, e, After(l, batch, 0))
  {
    assert NewWithKey(l, batch, 0, e) == {};
    NoneWithKey(l.rows, |l.rows|, e);
  }

  /**
   Of n entries with new ids that look alike, against m rows without ids that are the same thing at most a second
   away, exactly max(0, n - m) are stored. Entries whose ids are known already, and any other plain ones, change
   nothing about that.
   */
  lemma ExactlyTheExcessWithIds(l: Ledger, batch: seq<Item>, e: Item)
    requires FreshIds(l, batch, e) && Complete(e)
    ensures var rows := Store(l, batch).ledger.rows;
            && |WithKey(rows, |l.rows|, e)|
               == Max(0, |NewWithKey(l, batch, |batch|, e)| - |MatchesWithoutId(l.rows, e)|)
            && |l.rows| <= |rows| && rows[..|l.rows|] == l.rows
  {
    ExcessAfter(l, batch, |batch|, e);
  }

  // ---- entries without ids -------------------------------------------------------------------------

  /** Neither a transfer nor a sweep of the export. */
  predicate PlainWithoutId(e: Item) {
    && !SaysId(e) && Complete(e)
    && !("dustcsv" <= e.groupId && (e.kind == SwapIn || e.kind == SwapOut))
    && !(e.kind == Deposit && e.raw.operation == "Deposit") && !(e.kind == Withdrawal && e.raw.operation == "Withdraw")
  }

  lemma {:induction false} OccurrencesAreWithKey(batch: seq<Item>, n: nat, e: Item)
    requires n <= |batch|
    ensures Occurrences(batch, n, KeyOf(e)) == |WithKey(batch[..n], 0, e)|
  {
    if n == 0 {
      NoneWithKey(batch[..0], 0, e);
    } else {
      OccurrencesAreWithKey(batch, n - 1, e);
      assert batch[..n] == batch[..n - 1] + [batch[n - 1]];
      OneMoreWithKey(batch[..n - 1], 0, batch[n - 1], e);
    }
  }

  lemma {:induction false} RowsWithKeyAreWithKey(rows: seq<Item>, from: nat, n: nat, e: Item)
    requires from <= n <= |rows|
    ensures RowsWithKey(rows[from..n], KeyOf(e)) == |WithKey(rows[..n], from, e)|
  {
    if n == from {
      NoneWithKey(rows[..n], from, e);
      assert rows[from..n] == [];
    } else {
      RowsWithKeyAreWithKey(rows, from, n - 1, e);
      assert rows[from..n] == rows[from..n - 1] + [rows[n - 1]];
      assert rows[from..n][..n - from - 1] == rows[from..n - 1];
      assert rows[..n] == rows[..n - 1] + [rows[n - 1]];
      OneMoreWithKey(rows[..n - 1], from, rows[n - 1], e);
    }
  }

  /** The same of entries without ids, none of them settled by an older reading. */
  lemma ExactlyTheExcessWithoutIds(l: Ledger, batch: seq<Item>, e: Item)
    requires NoOldReading(l, batch) && PlainWithoutId(e)
    requires forall i :: 0 <= i < |batch| ==> !SaysId(batch[i]) && (SameKey(batch[i], e) ==> PlainWithoutId(batch[i]))
    ensures |WithKey(Store(l, batch).ledger.rows, |l.rows|, e)|
         == Max(0, |WithKey(batch, 0, e)| - |Matches(l.rows, e)|)
  {
    hide Duplicate, NoOldReading, Count, Step;
    forall i | 0 <= i < |batch|
      ensures !Present(batch[i].txId) && (KeyOf(batch[i]) == KeyOf(e) ==> Alike(batch[i], e))
    {
      assert SameKey(batch[i], e) <==> KeyOf(batch[i]) == KeyOf(e);
    }
    SaysIsPresent(e.currency);
    ExactlyTheExcess(l, batch, |batch|, e);
    OccurrencesAreWithKey(batch, |batch|, e);
    assert batch[..|batch|] == batch;
    AnyCountIsMatches(l.rows, e);
    var rows := Store(l, batch).ledger.rows;
    RowsWithKeyAreWithKey(rows, |l.rows|, |rows|, e);
    assert rows[..|rows|] == rows && rows[|l.rows|..|rows|] == rows[|l.rows|..];
  }

  // ---- where every entry went ----------------------------------------------------------------------

  /** Every entry is a new row, a duplicate or skipped; rows are only added, and one for each imported. */
  lemma {:induction false} EveryEntryIsAccountedFor(l: Ledger, batch: seq<Item>, n: nat)
    requires n <= |batch|
    ensures var p := After(l, batch, n);
            && p.outcome.imported + p.outcome.duplicates + p.outcome.skipped == n
            && |p.ledger.rows| == |l.rows| + p.outcome.imported
  {
    hide Duplicate;
    if n > 0 {
      EveryEntryIsAccountedFor(l, batch, n - 1);
    }
  }

  /** A row as it is stored: a blank id is none, and a fee of nothing is none. */
  lemma NewRowIs(r: Item, e: Item)
    requires Complete(e) && |Rows(r, e)| == 2
    ensures var fee := e.feeAmount.Some? && e.feeAmount.value != 0.0;
            var q := Rows(r, e)[1];
            && q.kind == e.kind && q.currency == e.currency && q.amount == e.amount && q.at == e.at
            && q.quoteCurrency == e.quoteCurrency && q.quoteAmount == e.quoteAmount
            && q.groupId == e.groupId && q.raw == e.raw
            && (if SaysId(e) then q.txId == e.txId else q.txId == None)
            && (if fee then q.feeAmount == e.feeAmount && q.feeCurrency == e.feeCurrency
                else q.feeAmount == None && q.feeCurrency == None)
  {
    hide Duplicate;
    OneStep(r, e);
  }

  /**
   An entry without a date or a currency is never stored; without a date it is skipped, unless its id is known or it
   is a withdrawal of the API, which pairs by its completion.
   */
  lemma IncompleteIsNotStored(l: Ledger, e: Item)
    requires !Complete(e)
    ensures var p := Store(l, [e]);
            && |p.ledger.rows| == |l.rows| && p.outcome.imported == 0
            && (e.at.None? && !(SaysId(e) && e.kind == Withdrawal) && !(SaysId(e) && !NewId(l, e.txId)) ==>
                  p.ledger == l && p.outcome == Outcome(0, 0, 1, None))
  {
    hide Duplicate;
    SaysIsPresent(e.currency);
    var p := After(l, [e], 0);
    assert After(l, [e], 1) == Step(p, |l.rows|, [e], 0);
    if e.at.None? && !(SaysId(e) && e.kind == Withdrawal) && !(SaysId(e) && !NewId(l, e.txId)) {
      Undated(l, e, Repeat(p, e));
    }
  }

  lemma Undated(l: Ledger, e: Item, repeat: nat)
    requires e.at.None? && !(SaysId(e) && e.kind == Withdrawal) && !(SaysId(e) && !NewId(l, e.txId))
    ensures Duplicate(l, |l.rows|, [e], 0, repeat) == Verdict(false, l.rows)
  {
    if SaysId(e) {
      SaysIsPresent(e.txId.value);
      if ApiTransfer(e) {
        SelectNone(l.rows, (r: Item) => FreeFileRow(e, r));
        assert FreeFileRows(l.rows, e) == [];
      }
    }
  }

  /** An id that was merged into an adjustment is not stored again; what an adjustment merges is remembered. */
  lemma MergedIdsAreKnown(l: Ledger, e: Item, f: Item)
    requires Complete(e) && !SaysId(e) && SaysId(f) && f.txId.value in l.merged + e.raw.mergedIds
    requires forall i :: 0 <= i < |l.rows| ==> l.rows[i].txId != f.txId
    requires Store(l, [e]).outcome.imported == 1
    ensures Store(Store(l, [e]).ledger, [f]).ledger == Store(l, [e]).ledger
  {
    hide Duplicate;
    var l1 := Store(l, [e]).ledger;
    assert After(l, [e], 1) == Step(After(l, [e], 0), |l.rows|, [e], 0);
    SaysIsPresent(e.currency);
    assert f.txId.value in l1.merged;
    KnownIsDuplicate(l1, f);
    assert After(l1, [f], 1) == Step(After(l1, [f], 0), |l1.rows|, [f], 0);
  }

  lemma KnownIsDuplicate(l: Ledger, f: Item)
    requires SaysId(f) && f.txId.value in l.merged
    ensures forall repeat: nat :: Duplicate(l, |l.rows|, [f], 0, repeat) == Verdict(true, l.rows)
  {
    SaysIsPresent(f.txId.value);
    hide ApiDustTwin, ApiTransferTwin, Counted;
  }

  // ---- older readings ------------------------------------------------------------------------------

  /** The trade a swap pair of the export used to be read as. */
  predicate OldTrade(r: Item, into: Item, out: Item) {
    || (r.kind == Buy && r.currency == into.currency && r.amount == into.amount
        && r.quoteCurrency == Some(out.currency) && r.quoteAmount == Some(out.amount))
    || (r.kind == Sell && r.currency == out.currency && r.amount == out.amount
        && r.quoteCurrency == Some(into.currency) && r.quoteAmount == Some(into.amount))
  }

  /** The pair is one of the export's, a swap in and a swap out, and the trade is what it used to be read as. */
  predicate WasRead(r: Item, a: Item, b: Item) {
    && "swapcsv_" <= a.groupId && r.at.Some? && a.at.Some? && -1_000_000 < r.at.value - a.at.value < 1_000_000
    && ((a.kind == SwapIn && b.kind == SwapOut && OldTrade(r, a, b))
        || (a.kind == SwapOut && b.kind == SwapIn && OldTrade(r, b, a)))
  }

  /** Two plain entries of one group and moment, neither of them the trade's own kind. */
  predicate PairBeside(r: Item, a: Item, b: Item) {
    && r.kind != a.kind && r.kind != b.kind && r.txId.None? && r.at.Some?
    && PlainWithoutId(a) && PlainWithoutId(b) && a.kind != Airdrop && b.kind != Airdrop
    && a.groupId == b.groupId && a.at == b.at
  }

  lemma BothLegs(a: Item, b: Item)
    requires a.groupId == b.groupId
    ensures Select([a, b], (other: Item) => other.groupId == a.groupId) == [0, 1]
  {
    var keep := (other: Item) => other.groupId == a.groupId;
    assert [a, b][..1] == [a] && [a][..0] == [];
    assert Select([a], keep) == [0] by {
      SelectOne([a], keep, 0);
    }
  }

  lemma TheTradeIsStored(r: Item, e: Item, into: Item, out: Item, rows: seq<Item>)
    requires e.at.Some? && !SaysId(e) && r.at.Some? && r.txId.None? && rows != [] && rows[0] == r
    requires forall i :: 1 <= i < |rows| ==> rows[i].kind == SwapOut || rows[i].kind == SwapIn
    ensures TradeStored(rows, e, into, out) <==>
              OldTrade(r, into, out) && -1_000_000 < r.at.value - e.at.value < 1_000_000
  {
    assert TradeOf(r, into, out) <==> OldTrade(r, into, out);
    assert rows[0] == r;
  }

  lemma ReplacedExactlyWhen(r: Item, a: Item, b: Item, rows: seq<Item>, i: nat)
    requires PairBeside(r, a, b) && i < 2 && (rows == [r] || rows == [r, Stored(a)])
    ensures ReplacedTrade(rows, [a, b], [a, b][i]) <==> WasRead(r, a, b)
  {
    BothLegs(a, b);
    var e := [a, b][i];
    if (a.kind == SwapIn && b.kind == SwapOut) || (a.kind == SwapOut && b.kind == SwapIn) {
      TheTradeIsStored(r, e, a, b, rows);
      TheTradeIsStored(r, e, b, a, rows);
    }
    hide TradeStored, OldTrade, PlainWithoutId;
  }

  lemma PairVerdict(r: Item, a: Item, b: Item, rows: seq<Item>, i: nat, merged: set<string>, repeat: nat)
    requires PairBeside(r, a, b) && i < 2 && (rows == [r] || rows == [r, Stored(a)])
    ensures Duplicate(Ledger(rows, merged), 1, [a, b], i, repeat) == Verdict(WasRead(r, a, b), rows)
  {
    var e := [a, b][i];
    ReplacedExactlyWhen(r, a, b, rows, i);
    assert rows[..1] == [r];
    CountOne(r, e, AnyRow);
    assert !OldTokenSwapStored(rows, 1, e, repeat) && !Counted(rows, 1, e, AnyRow, repeat);
    assert !FileDust(e) && !FileTransfer(e) && !Present(e.txId);
    hide ReplacedTrade, OldTokenSwapStored, Counted, WasRead, PairBeside, FileDust, FileTransfer, Present;
  }

  /**
   Two entries of one group against one trade without an id: neither is stored exactly when they are the export's swap
   pair of which that trade was the older reading, less than a second away. In any other case both are.
   */
  lemma SwapPairOnATrade(r: Item, a: Item, b: Item)
    requires PairBeside(r, a, b)
    ensures |Store(Ledger([r], {}), [a, b]).ledger.rows| == if WasRead(r, a, b) then 1 else 3
  {
    var l, batch := Ledger([r], {}), [a, b];
    SaysIsPresent(a.currency);
    SaysIsPresent(b.currency);
    var p := After(l, batch, 0);
    PairVerdict(r, a, b, [r], 0, {}, Repeat(p, a));
    hide Duplicate, WasRead;
    assert p.ledger == l && After(l, batch, 1) == Step(p, 1, batch, 0);
    var q := After(l, batch, 1);
    assert q.ledger.rows == if WasRead(r, a, b) then [r] else [r, Stored(a)];
    PairVerdict(r, a, b, q.ledger.rows, 1, q.ledger.merged, Repeat(q, b));
    assert After(l, batch, 2) == Step(q, 1, batch, 1);
  }

  /** A leg of such a pair on its own is stored all the same. */
  lemma LoneSwapLeg(r: Item, e: Item)
    requires r.kind != e.kind && (e.kind == SwapIn || e.kind == SwapOut) && "swapcsv_" <= e.groupId
    requires !SaysId(e) && Complete(e)
    ensures |Rows(r, e)| == 2
  {
    assert e.groupId[0] == 's' && "dustcsv"[0] == 'd';
    PlainExportEntry(r, e);
  }
}
