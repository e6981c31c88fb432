/** When importing a batch again adds nothing, whatever the ledger: exactly when each entry is covered by those like it. */
module ReimportExactly {
  import opened Prelude
  import opened LedgerRows
  import opened LedgerStore
  import opened Reimport

  // ---- a ledger that tells two shapes of one key apart ---------------------------------------------

  /** Of two shapes of one key, which the ledger settles: plain entries, or those a pairing governs. */
  datatype Scene = PlainSettled | GovernedSettled

  /** A saving entry of the key that comes in two shapes. */
  predicate MixedKey(c: Scene, k: Item) {
    && Saves(k) && !Present(k.txId) && k.kind in {Deposit, Withdrawal, SwapIn, SwapOut}
    && (c.GovernedSettled? ==> !(k.kind == SwapIn && k.currency != "BNB"))
  }

  function ApiRow(k: Item, id: string, kind: Kind, amount: real, at: Time, twin: Option<Time>): Item
    requires k.at.Some?
  {
    var raw := Raw("", true, CompletedAt(k.at.value), k.amount, 0.0, k.currency, Some(k.amount), 0.0, {}, twin);
    Item(kind, k.currency, amount, None, None, None, None, Some(at), Some(id), "conversion", raw)
  }

  /** API rows that count for every plain entry and pair with none, or one paired already that counts for none. */
  function ApiRows(c: Scene, k: Item, n: nat): (rows: seq<Item>)
    requires k.at.Some?
    ensures forall i :: 0 <= i < |rows| ==> rows[i].txId.Some?
  {
    var at := k.at.value;
    match c
    case PlainSettled =>
      seq(n + 1, m requires 0 <= m => ApiRow(k, "dust-" + Decimal(m), k.kind, k.amount, at, None))
    case GovernedSettled =>
      if IsDustLeg(k.kind) then
        [ApiRow(k, "dust-0-out", SwapOut, k.amount + 1.0, at, Some(at)),
         ApiRow(k, "dust-0-in", SwapIn, k.amount + 1.0, at, Some(at))]
      else [ApiRow(k, "dust-0", k.kind, k.amount, at - CREDIT_LAG / 2, Some(at))]
  }

  /** A row that counts for this entry, and for no entry of the key. */
  function Blocker(e: Item, k: Item): Item
    requires e.at.Some? && k.at.Some?
  {
    var near := e.kind == k.kind && e.currency == k.currency && e.amount == k.amount && Gap(e.at.value, k.at.value) < SECOND;
    var at := if !near then e.at.value else if e.at.value > k.at.value then k.at.value + SECOND else k.at.value - SECOND;
    Item(e.kind, e.currency, e.amount, None, None, None, None, Some(at), None, "", PLAIN_RAW)
  }

  predicate IsOther(e: Item, k: Item) {
    KeyOf(e) != KeyOf(k) && e.at.Some?
  }

  /** More blockers for each other entry than the batch has entries. */
  function Blockers(batch: seq<Item>, k: Item, m: nat): (rows: seq<Item>)
    requires m <= |batch| && k.at.Some?
  {
    if m == 0 then []
    else Blockers(batch, k, m - 1) + if IsOther(batch[m - 1], k) then Copies(Blocker(batch[m - 1], k), |batch| + 1) else []
  }

  function Copies(r: Item, n: nat): (rows: seq<Item>)
    ensures |rows| == n && forall i :: 0 <= i < n ==> rows[i] == r
  {
    seq(n, _ => r)
  }

  lemma {:induction false} BlockersAre(batch: seq<Item>, k: Item, m: nat, i: nat) returns (j: nat)
    requires m <= |batch| && k.at.Some? && i < |Blockers(batch, k, m)|
    ensures j < m && IsOther(batch[j], k) && Blockers(batch, k, m)[i] == Blocker(batch[j], k)
  {
    if i < |Blockers(batch, k, m - 1)| {
      j := BlockersAre(batch, k, m - 1, i);
    } else {
      j := m - 1;
    }
  }

  function FirstRows(c: Scene, batch: seq<Item>, k: Item): seq<Item>
    requires k.at.Some?
  {
    ApiRows(c, k, |batch|) + Blockers(batch, k, |batch|)
  }

  function FirstLedger(c: Scene, batch: seq<Item>, k: Item): Ledger
    requires k.at.Some?
  {
    Ledger(FirstRows(c, batch, k), {})
  }

  /** An entry of the key in the shape the ledger does not settle. */
  predicate Fresh(c: Scene, k: Item, e: Item) {
    KeyOf(e) == KeyOf(k) && (Governed(e) <==> c.PlainSettled?)
  }

  /** Those rows, and id-less rows of the key's kind after them. */
  ghost predicate Built(c: Scene, batch: seq<Item>, k: Item, rows: seq<Item>)
    requires k.at.Some?
  {
    var first := FirstRows(c, batch, k);
    && first <= rows
    && forall i :: |first| <= i < |rows| ==> rows[i].txId.None? && rows[i].kind == k.kind
  }

  // ---- what counts for what ------------------------------------------------------------------------

  lemma {:induction false} CountJoined(a: seq<Item>, b: seq<Item>, e: Item, ev: Evidence)
    ensures Count(a + b, e, ev) == Count(a, e, ev) + Count(b, e, ev)
  {
    if b == [] {
      assert a + b == a;
    } else {
      var n := |b| - 1;
      CountJoined(a, b[..n], e, ev);
      assert (a + b)[..|a + b| - 1] == a + b[..n];
    }
  }

  lemma {:induction false} CountAll(rows: seq<Item>, e: Item, ev: Evidence)
    requires forall i :: 0 <= i < |rows| ==> Counts(e, ev, rows[i])
    ensures Count(rows, e, ev) == |rows|
  {
    if rows != [] {
      CountAll(rows[..|rows| - 1], e, ev);
    }
  }

  lemma BlockerBlocks(e: Item, k: Item)
    requires IsOther(e, k) && k.at.Some? && !Present(e.txId)
    ensures Counts(e, EvidenceFor(e), Blocker(e, k))
  {
  }

  lemma BlockerSparesKey(e: Item, k: Item, f: Item, ev: Evidence)
    requires IsOther(e, k) && k.at.Some? && KeyOf(f) == KeyOf(k) && !Present(f.txId)
    ensures !Counts(f, ev, Blocker(e, k))
  {
  }

  lemma {:induction false} OthersAreBlocked(batch: seq<Item>, k: Item, m: nat, i: nat)
    requires i < m <= |batch| && k.at.Some? && IsOther(batch[i], k) && !Present(batch[i].txId)
    ensures Count(Blockers(batch, k, m), batch[i], EvidenceFor(batch[i])) > |batch|
  {
    hide Counts, Count, Blocker, EvidenceFor;
    var e, before := batch[i], Blockers(batch, k, m - 1);
    var more := if IsOther(batch[m - 1], k) then Copies(Blocker(batch[m - 1], k), |batch| + 1) else [];
    assert Blockers(batch, k, m) == before + more;
    CountJoined(before, more, e, EvidenceFor(e));
    if i < m - 1 {
      OthersAreBlocked(batch, k, m - 1, i);
    } else {
      BlockerBlocks(e, k);
      CountAll(more, e, EvidenceFor(e));
    }
  }

  lemma CountOfPrefix(rows: seq<Item>, base: nat, first: seq<Item>, e: Item, ev: Evidence)
    requires first <= rows && |first| <= base <= |rows|
    ensures Count(first, e, ev) <= Count(rows[..base], e, ev)
  {
    CountGrows(rows[..base], |first|, e, ev);
    assert rows[..base][..|first|] == first;
  }

  /** Every entry of another key is counted, in either run. */
  lemma OthersAreCounted(c: Scene, batch: seq<Item>, k: Item, rows: seq<Item>, base: nat, i: nat, repeat: nat)
    requires k.at.Some? && Built(c, batch, k, rows) && |FirstRows(c, batch, k)| <= base <= |rows| && repeat <= |batch|
    requires i < |batch| && IsOther(batch[i], k) && !Present(batch[i].txId)
    ensures Counted(rows, base, batch[i], EvidenceFor(batch[i]), repeat)
  {
    var e, ev := batch[i], EvidenceFor(batch[i]);
    OthersAreBlocked(batch, k, |batch|, i);
    CountJoined(ApiRows(c, k, |batch|), Blockers(batch, k, |batch|), e, ev);
    CountOfPrefix(rows, base, FirstRows(c, batch, k), e, ev);
  }

  /** None of the first rows counts for a fresh entry. */
  lemma FreshIsUncounted(c: Scene, batch: seq<Item>, k: Item, e: Item)
    requires MixedKey(c, k) && Fresh(c, k, e) && !Present(e.txId)
    ensures Count(FirstRows(c, batch, k), e, EvidenceFor(e)) == 0
  {
    var api, more, ev := ApiRows(c, k, |batch|), Blockers(batch, k, |batch|), EvidenceFor(e);
    forall i | 0 <= i < |more|
      ensures !Counts(e, ev, more[i])
    {
      var j := BlockersAre(batch, k, |batch|, i);
      BlockerSparesKey(batch[j], k, e, ev);
    }
    CountZero(more, e, ev);
    forall i | 0 <= i < |api|
      ensures !Counts(e, ev, api[i])
    {
      ApiRowSparesFresh(c, k, e, |batch|, i);
    }
    CountZero(api, e, ev);
    CountJoined(api, more, e, ev);
  }

  lemma ApiRowSparesFresh(c: Scene, k: Item, e: Item, n: nat, i: nat)
    requires MixedKey(c, k) && Fresh(c, k, e) && !Present(e.txId) && i < |ApiRows(c, k, n)|
    ensures !Counts(e, EvidenceFor(e), ApiRows(c, k, n)[i])
  {
    var r := ApiRows(c, k, n)[i];
    if c.PlainSettled? {
      assert r.txId.value[0] == 'd' && "dust-" <= r.txId.value;
    }
  }

  /** Enough API rows count for every plain entry of the key. */
  lemma PlainIsCounted(batch: seq<Item>, k: Item, rows: seq<Item>, base: nat, e: Item, repeat: nat)
    requires MixedKey(PlainSettled, k) && Built(PlainSettled, batch, k, rows)
    requires |FirstRows(PlainSettled, batch, k)| <= base <= |rows| && repeat <= |batch|
    requires KeyOf(e) == KeyOf(k) && !Governed(e) && !Present(e.txId)
    ensures Counted(rows, base, e, EvidenceFor(e), repeat)
  {
    var api, more := ApiRows(PlainSettled, k, |batch|), Blockers(batch, k, |batch|);
    CountAll(api, e, AnyRow);
    CountJoined(api, more, e, AnyRow);
    CountOfPrefix(rows, base, FirstRows(PlainSettled, batch, k), e, AnyRow);
  }

  // ---- what becomes of an entry on such rows -------------------------------------------------------

  /** What a count settles is a duplicate, and changes nothing. */
  lemma CountedIsDuplicate(l: Ledger, base: nat, batch: seq<Item>, i: nat, repeat: nat)
    requires base <= |l.rows| && i < |batch| && !Present(batch[i].txId)
    requires Counted(l.rows, base, batch[i], EvidenceFor(batch[i]), repeat)
    ensures Duplicate(l, base, batch, i, repeat) == Verdict(true, l.rows)
    ensures !SettledByOldReading(l.rows, base, batch, i, repeat)
  {
  }

  lemma UndatedIsSkipped(l: Ledger, base: nat, batch: seq<Item>, i: nat, repeat: nat)
    requires base <= |l.rows| && i < |batch| && !Present(batch[i].txId) && batch[i].at.None?
    ensures Duplicate(l, base, batch, i, repeat) == Verdict(false, l.rows) && !Saves(batch[i])
  {
  }

  /** The rows an API id can be on are the first. */
  lemma ApiIdsComeFirst(c: Scene, batch: seq<Item>, k: Item, rows: seq<Item>, i: nat)
    requires k.at.Some? && Built(c, batch, k, rows) && i < |rows| && rows[i].txId.Some?
    ensures i < |ApiRows(c, k, |batch|)| && rows[i] == ApiRows(c, k, |batch|)[i]
  {
    var first, api := FirstRows(c, batch, k), ApiRows(c, k, |batch|);
    if i < |first| {
      assert rows[i] == first[i];
      if i >= |api| {
        var j := BlockersAre(batch, k, |batch|, i - |api|);
      }
    }
  }

  lemma ApiRowsAreFirst(c: Scene, batch: seq<Item>, k: Item, rows: seq<Item>, i: nat)
    requires k.at.Some? && Built(c, batch, k, rows) && i < |ApiRows(c, k, |batch|)|
    ensures i < |rows| && rows[i] == ApiRows(c, k, |batch|)[i]
  {
    assert FirstRows(c, batch, k)[i] == rows[i];
  }

  /** Two API rows, and more, could take the transfer: it is paired with none of them. */
  lemma TransferIsUnpaired(batch: seq<Item>, k: Item, l: Ledger, base: nat, i: nat, repeat: nat)
    requires MixedKey(PlainSettled, k) && Built(PlainSettled, batch, k, l.rows) && base <= |l.rows|
    requires i < |batch| && 1 <= |batch| && KeyOf(batch[i]) == KeyOf(k) && FileTransfer(batch[i])
    requires !Present(batch[i].txId)
    requires !Counted(l.rows, base, batch[i], EvidenceFor(batch[i]), repeat)
    ensures Duplicate(l, base, batch, i, repeat) == Verdict(false, l.rows)
  {
    var e, free := batch[i], FreeApiRows(l.rows, batch[i]);
    ApiRowsAreFirst(PlainSettled, batch, k, l.rows, 0);
    ApiRowsAreFirst(PlainSettled, batch, k, l.rows, 1);
    ApiRowPairs(PlainSettled, k, e, |batch|, 0);
    ApiRowPairs(PlainSettled, k, e, |batch|, 1);
    assert 0 in free && 1 in free;
    assert |free| != 1;
    forall j | 0 <= j < |l.rows| && l.rows[j].txId.Some?
      ensures l.rows[j].raw.twin.None?
    {
      ApiIdsComeFirst(PlainSettled, batch, k, l.rows, j);
    }
    assert !Twinned(l.rows, e);
  }

  lemma ApiRowPairs(c: Scene, k: Item, e: Item, n: nat, i: nat)
    requires MixedKey(c, k) && KeyOf(e) == KeyOf(k) && FileTransfer(e) && i < |ApiRows(c, k, n)|
    ensures ApiRowFor(e, ApiRows(c, k, n)[i])
  {
    var r := ApiRows(c, k, n)[i];
    assert r.txId.value[0] == 'd';
  }

  /** No API conversion is whole: the leg is paired with none. */
  lemma LegIsUnpaired(batch: seq<Item>, k: Item, l: Ledger, base: nat, i: nat, repeat: nat)
    requires MixedKey(PlainSettled, k) && Built(PlainSettled, batch, k, l.rows) && base <= |l.rows|
    requires i < |batch| && KeyOf(batch[i]) == KeyOf(k) && FileDust(batch[i]) && !Present(batch[i].txId)
    requires !Counted(l.rows, base, batch[i], EvidenceFor(batch[i]), repeat)
    ensures Duplicate(l, base, batch, i, repeat) == Verdict(false, l.rows)
  {
    var e := batch[i];
    forall m
      ensures !ApiLegs(l.rows, e, m)
    {
      if ApiLegs(l.rows, e, m) {
        ApiIdsComeFirst(PlainSettled, batch, k, l.rows, m.out);
        ApiIdsComeFirst(PlainSettled, batch, k, l.rows, m.into);
      }
    }
    NoWholeConversions(l.rows, e);
  }

  lemma NoWholeConversions(rows: seq<Item>, e: Item)
    requires e.at.Some? && forall m :: !ApiLegs(rows, e, m)
    ensures !ConversionTwinned(rows, e) && TheConversion(rows, e).None?
  {
    hide ApiLegs, FreeConversions, WholeConversions;
    var whole, free := WholeConversions(rows, e), FreeConversions(rows, e);
    forall l: Legs
      ensures l !in whole
    {
      assert l in whole <==> IsWhole(rows, e, l);
    }
    NoMembers(whole);
    assert |free| <= |whole|;
  }

  lemma NoMembers<T>(xs: seq<T>)
    requires forall x :: x !in xs
    ensures xs == []
  {
    if xs != [] {
      var x := FirstOf(xs);
    }
  }

  lemma FirstOf<T>(xs: seq<T>) returns (x: T)
    requires xs != []
    ensures x in xs
  {
    x := xs[0];
  }

  /** What is paired off is a duplicate, and changes nothing. */
  lemma PairedOffIsDuplicate(l: Ledger, base: nat, batch: seq<Item>, i: nat, repeat: nat)
    requires base <= |l.rows| && i < |batch| && !Present(batch[i].txId) && PairedOff(l.rows, batch[i])
    ensures Duplicate(l, base, batch, i, repeat) == Verdict(true, l.rows)
  {
  }

  lemma GovernedIsPairedOff(batch: seq<Item>, k: Item, rows: seq<Item>, e: Item)
    requires MixedKey(GovernedSettled, k) && Built(GovernedSettled, batch, k, rows)
    requires KeyOf(e) == KeyOf(k) && Governed(e)
    ensures PairedOff(rows, e)
  {
    var c, n := GovernedSettled, |batch|;
    if FileTransfer(e) {
      ApiRowsAreFirst(c, batch, k, rows, 0);
      ApiRowPairs(c, k, e, n, 0);
      assert TwinNear(rows[0], e.at.value);
    } else {
      ApiRowsAreFirst(c, batch, k, rows, 0);
      ApiRowsAreFirst(c, batch, k, rows, 1);
      var l := Legs(0, 1);
      assert rows[0].txId.value[..5] == "dust-" && rows[1].txId.value[..5] == "dust-";
      assert ApiLegs(rows, e, l);
      forall m | ApiLegs(rows, e, m)
        ensures m == l
      {
        ApiIdsComeFirst(c, batch, k, rows, m.out);
        ApiIdsComeFirst(c, batch, k, rows, m.into);
      }
      assert IsWhole(rows, e, l) && TwinNear(rows[0], e.at.value);
    }
  }

  /** No row there is a trade stored by an older reading. */
  lemma NothingOldIsStored(c: Scene, batch: seq<Item>, k: Item, rows: seq<Item>, base: nat, i: nat, repeat: nat)
    requires MixedKey(c, k) && Built(c, batch, k, rows) && base <= |rows| && i < |batch| && KeyOf(batch[i]) == KeyOf(k)
    ensures !SettledByOldReading(rows, base, batch, i, repeat)
  {
    forall r, into, out | 0 <= r < |rows| && rows[r].txId.None?
      ensures !TradeOf(rows[r], into, out)
    {
      IdLessRowsAreNoTrades(c, batch, k, rows, r);
    }
  }

  lemma IdLessRowsAreNoTrades(c: Scene, batch: seq<Item>, k: Item, rows: seq<Item>, r: nat)
    requires MixedKey(c, k) && Built(c, batch, k, rows) && r < |rows| && rows[r].txId.None?
    ensures rows[r].kind == k.kind || (rows[r].quoteCurrency.None? && rows[r].quoteAmount.None?)
  {
    var first, api := FirstRows(c, batch, k), ApiRows(c, k, |batch|);
    ApiRowsHaveIds(c, batch, k, rows);
    if r < |first| {
      assert rows[r] == first[r];
      var j := BlockersAre(batch, k, |batch|, r - |api|);
    }
  }

  lemma ApiRowsHaveIds(c: Scene, batch: seq<Item>, k: Item, rows: seq<Item>)
    requires k.at.Some? && Built(c, batch, k, rows)
    ensures forall r :: 0 <= r < |ApiRows(c, k, |batch|)| ==> r < |rows| && rows[r].txId.Some?
  {
    forall r | 0 <= r < |ApiRows(c, k, |batch|)|
      ensures r < |rows| && rows[r].txId.Some?
    {
      ApiRowsAreFirst(c, batch, k, rows, r);
    }
  }

  // ---- one entry -----------------------------------------------------------------------------------

  /**
   On such rows a fresh entry of the key is settled by its count alone, every other entry that saves is a
   duplicate, and none changes a row or is settled by an older reading.
   */
  lemma EachEntry(c: Scene, batch: seq<Item>, k: Item, l: Ledger, base: nat, i: nat, repeat: nat)
    requires MixedKey(c, k) && IdLessBatch(batch) && Built(c, batch, k, l.rows)
    requires |FirstRows(c, batch, k)| <= base <= |l.rows| && i < |batch| && repeat <= |batch|
    ensures var e, v := batch[i], Duplicate(l, base, batch, i, repeat);
            && v.rows == l.rows
            && (if Fresh(c, k, e) then v.duplicate <==> Counted(l.rows, base, e, EvidenceFor(e), repeat)
                else v.duplicate || !Saves(e))
            && (Saves(e) ==> !SettledByOldReading(l.rows, base, batch, i, repeat))
  {
    hide Built, MixedKey, Duplicate, SettledByOldReading, Counted, PairedOff;
    var e := batch[i];
    if e.at.None? {
      NeverFresh(c, k, e);
      UndatedIsSkipped(l, base, batch, i, repeat);
    } else if KeyOf(e) != KeyOf(k) {
      SavesHasTime(c, k);
      OthersAreCounted(c, batch, k, l.rows, base, i, repeat);
      CountedIsDuplicate(l, base, batch, i, repeat);
    } else {
      EachOfTheKey(c, batch, k, l, base, i, repeat);
    }
  }

  lemma SavesHasTime(c: Scene, k: Item)
    requires MixedKey(c, k)
    ensures k.at.Some?
  {
  }

  lemma NeverFresh(c: Scene, k: Item, e: Item)
    requires MixedKey(c, k) && e.at.None?
    ensures !Fresh(c, k, e)
  {
  }

  lemma EachOfTheKey(c: Scene, batch: seq<Item>, k: Item, l: Ledger, base: nat, i: nat, repeat: nat)
    requires MixedKey(c, k) && IdLessBatch(batch) && Built(c, batch, k, l.rows)
    requires |FirstRows(c, batch, k)| <= base <= |l.rows| && i < |batch| && repeat <= |batch|
    requires KeyOf(batch[i]) == KeyOf(k)
    ensures var e, v := batch[i], Duplicate(l, base, batch, i, repeat);
            && v.rows == l.rows
            && (if Fresh(c, k, e) then v.duplicate <==>
                      Counted(l.rows, base, e, EvidenceFor(e), repeat) else v.duplicate)
            && !SettledByOldReading(l.rows, base, batch, i, repeat)
  {
    hide Built, MixedKey, Duplicate, SettledByOldReading, Counted, PairedOff;
    var e := batch[i];
    NothingOldIsStored(c, batch, k, l.rows, base, i, repeat);
    if Counted(l.rows, base, e, EvidenceFor(e), repeat) {
      CountedIsDuplicate(l, base, batch, i, repeat);
    } else if !Governed(e) {
      if c.PlainSettled? {
        PlainIsCounted(batch, k, l.rows, base, e, repeat);
      } else {
        PlainIsUnsettled(l, base, batch, i, repeat);
      }
    } else if c.GovernedSettled? {
      GovernedIsPairedOff(batch, k, l.rows, e);
      PairedOffIsDuplicate(l, base, batch, i, repeat);
    } else if FileDust(e) {
      LegIsUnpaired(batch, k, l, base, i, repeat);
    } else {
      TransferIsUnpaired(batch, k, l, base, i, repeat);
    }
  }

  lemma PlainIsUnsettled(l: Ledger, base: nat, batch: seq<Item>, i: nat, repeat: nat)
    requires base <= |l.rows| && i < |batch| && !Present(batch[i].txId) && !Governed(batch[i])
    requires !Counted(l.rows, base, batch[i], EvidenceFor(batch[i]), repeat)
    requires !SettledByOldReading(l.rows, base, batch, i, repeat)
    ensures Duplicate(l, base, batch, i, repeat) == Verdict(false, l.rows)
  {
  }

  // ---- both runs -----------------------------------------------------------------------------------

  /** The fresh entries among the first n, as they are stored. */
  function FreshRows(c: Scene, k: Item, batch: seq<Item>, n: nat): (rows: seq<Item>)
    requires n <= |batch|
  {
    if n == 0 then []
    else FreshRows(c, k, batch, n - 1) + if Fresh(c, k, batch[n - 1]) then [Stored(batch[n - 1])] else []
  }

  /** One step of either run. */
  lemma EachStep(c: Scene, batch: seq<Item>, k: Item, p: Progress, base: nat, i: nat)
    requires MixedKey(c, k) && IdLessBatch(batch) && Built(c, batch, k, p.ledger.rows)
    requires |FirstRows(c, batch, k)| <= base <= |p.ledger.rows| && i < |batch| && Repeat(p, batch[i]) <= |batch|
    ensures var e, rows, rows' := batch[i], p.ledger.rows, Step(p, base, batch, i).ledger.rows;
            && rows' == (if Fresh(c, k, e) && !Counted(rows, base, e, EvidenceFor(e), Repeat(p, e))
                         then rows + [Stored(e)] else rows)
            && Built(c, batch, k, rows')
            && (Saves(e) ==> !SettledByOldReading(rows, base, batch, i, Repeat(p, e)))
  {
    hide Duplicate, SettledByOldReading, Counted, FirstRows;
    EachEntry(c, batch, k, p.ledger, base, i, Repeat(p, batch[i]));
    if Fresh(c, k, batch[i]) {
      SaveAlike(batch[i], k);
    }
  }

  lemma RepeatIsBounded(l: Ledger, batch: seq<Item>, i: nat)
    requires IdLessBatch(batch) && i < |batch|
    ensures Repeat(After(l, batch, i), batch[i]) == Occurrences(batch, i, KeyOf(batch[i])) <= |batch|
  {
    hide Step;
    RepeatIsOccurrences(l, batch, i, KeyOf(batch[i]));
    OccurrencesAtMost(batch, i, KeyOf(batch[i]));
  }

  lemma {:induction false} OccurrencesAtMost(batch: seq<Item>, n: nat, key: EventKey)
    requires n <= |batch|
    ensures Occurrences(batch, n, key) <= n
  {
    if n > 0 {
      OccurrencesAtMost(batch, n - 1, key);
    }
  }

  lemma FirstIsBuilt(c: Scene, batch: seq<Item>, k: Item)
    requires k.at.Some?
    ensures Built(c, batch, k, FirstRows(c, batch, k))
  {
  }

  lemma FirstRowsCountNone(c: Scene, batch: seq<Item>, k: Item, rows: seq<Item>, e: Item, repeat: nat)
    requires MixedKey(c, k) && Fresh(c, k, e) && !Present(e.txId) && k.at.Some? && FirstRows(c, batch, k) <= rows
    ensures !Counted(rows, |FirstRows(c, batch, k)|, e, EvidenceFor(e), repeat)
  {
    hide Count, FirstRows, MixedKey;
    FreshIsUncounted(c, batch, k, e);
    assert rows[..|FirstRows(c, batch, k)|] == FirstRows(c, batch, k);
  }

  /** The first run stores every fresh entry and nothing else. */
  lemma {:induction false} FirstRunStoresFresh(c: Scene, batch: seq<Item>, k: Item, n: nat)
    requires MixedKey(c, k) && IdLessBatch(batch) && n <= |batch|
    ensures var rows := After(FirstLedger(c, batch, k), batch, n).ledger.rows;
            rows == FirstRows(c, batch, k) + FreshRows(c, k, batch, n) && Built(c, batch, k, rows)
  {
    hide Step, SettledByOldReading, FirstRows, EvidenceFor, Count, Counted, Repeat, MixedKey, Built, Stored, Fresh;
    SavesHasTime(c, k);
    var l, first := FirstLedger(c, batch, k), FirstRows(c, batch, k);
    if n == 0 {
      assert first + [] == first;
      FirstIsBuilt(c, batch, k);
    } else {
      FirstRunStoresFresh(c, batch, k, n - 1);
      FirstRunStep(c, batch, k, n - 1, After(l, batch, n - 1));
      assert After(l, batch, n) == Step(After(l, batch, n - 1), |first|, batch, n - 1);
    }
  }

  /** One step of it. */
  lemma FirstRunStep(c: Scene, batch: seq<Item>, k: Item, i: nat, p: Progress)
    requires MixedKey(c, k) && IdLessBatch(batch) && i < |batch| && p == After(FirstLedger(c, batch, k), batch, i)
    requires p.ledger.rows == FirstRows(c, batch, k) + FreshRows(c, k, batch, i) && Built(c, batch, k, p.ledger.rows)
    ensures var rows := Step(p, |FirstRows(c, batch, k)|, batch, i).ledger.rows;
            rows == FirstRows(c, batch, k) + FreshRows(c, k, batch, i + 1) && Built(c, batch, k, rows)
    ensures Saves(batch[i]) ==>
              !SettledByOldReading(p.ledger.rows, |FirstRows(c, batch, k)|, batch, i, Repeat(p, batch[i]))
  {
    hide Step, SettledByOldReading, FirstRows, EvidenceFor, Count, Counted, Repeat, MixedKey, Built, Stored, Fresh,
         After, Saves;
    SavesHasTime(c, k);
    var first, e := FirstRows(c, batch, k), batch[i];
    RepeatIsBounded(FirstLedger(c, batch, k), batch, i);
    EachStep(c, batch, k, p, |first|, i);
    if Fresh(c, k, e) {
      FirstRowsCountNone(c, batch, k, p.ledger.rows, e, Repeat(p, e));
      assert first + FreshRows(c, k, batch, i + 1) == p.ledger.rows + [Stored(e)];
    } else {
      assert first + FreshRows(c, k, batch, i + 1) == p.ledger.rows;
    }
  }

  /** And nothing of it is settled by an older reading. */
  lemma FirstRunReadsNothingOld(c: Scene, batch: seq<Item>, k: Item)
    requires MixedKey(c, k) && IdLessBatch(batch)
    ensures forall i :: 0 <= i < |batch| && Saves(batch[i]) ==>
              var p := After(FirstLedger(c, batch, k), batch, i);
              !SettledByOldReading(p.ledger.rows, |FirstRows(c, batch, k)|, batch, i, Repeat(p, batch[i]))
  {
    hide Step, SettledByOldReading, FirstRows, Repeat, MixedKey, Built, Stored, Fresh, Saves;
    SavesHasTime(c, k);
    forall i | 0 <= i < |batch| && Saves(batch[i])
      ensures var p := After(FirstLedger(c, batch, k), batch, i);
              !SettledByOldReading(p.ledger.rows, |FirstRows(c, batch, k)|, batch, i, Repeat(p, batch[i]))
    {
      FirstRunStoresFresh(c, batch, k, i);
      FirstRunStep(c, batch, k, i, After(FirstLedger(c, batch, k), batch, i));
    }
  }

  // ---- the second run ------------------------------------------------------------------------------

  function FreshCount(c: Scene, k: Item, batch: seq<Item>, n: nat): nat
    requires n <= |batch|
  {
    if n == 0 then 0 else FreshCount(c, k, batch, n - 1) + if Fresh(c, k, batch[n - 1]) then 1 else 0
  }

  /** Of the rows after the first run, those that count for a fresh entry are the fresh ones stored. */
  lemma {:induction false} FreshRowsCount(c: Scene, batch: seq<Item>, k: Item, n: nat, e: Item)
    requires MixedKey(c, k) && IdLessBatch(batch) && n <= |batch| && Fresh(c, k, e) && !Present(e.txId)
    ensures Count(FirstRows(c, batch, k) + FreshRows(c, k, batch, n), e, EvidenceFor(e)) == FreshCount(c, k, batch, n)
  {
    hide Count, EvidenceFor, FirstRows, MixedKey;
    SavesHasTime(c, k);
    var first := FirstRows(c, batch, k);
    if n == 0 {
      FreshIsUncounted(c, batch, k, e);
      assert first + [] == first;
    } else {
      FreshRowsCount(c, batch, k, n - 1, e);
      var before := first + FreshRows(c, k, batch, n - 1);
      if Fresh(c, k, batch[n - 1]) {
        KeySaves(c, k, e);
        StoredIsOneMore(before, e, batch[n - 1]);
        assert first + FreshRows(c, k, batch, n) == before + [Stored(batch[n - 1])];
      } else {
        assert first + FreshRows(c, k, batch, n) == before;
      }
    }
  }

  lemma KeySaves(c: Scene, k: Item, e: Item)
    requires MixedKey(c, k) && Fresh(c, k, e)
    ensures Saves(e)
  {
  }

  /** The second run keeps the rows it found, and adds no other kind. */
  lemma {:induction false} SecondRunBuilds(c: Scene, batch: seq<Item>, k: Item, l: Ledger, n: nat)
    requires MixedKey(c, k) && IdLessBatch(batch) && Built(c, batch, k, l.rows) && n <= |batch|
    ensures var rows := After(l, batch, n).ledger.rows; Built(c, batch, k, rows) && l.rows <= rows
  {
    hide Step, SettledByOldReading, FirstRows, EvidenceFor, Count, Repeat, MixedKey;
    SavesHasTime(c, k);
    if n > 0 {
      var i := n - 1;
      SecondRunBuilds(c, batch, k, l, i);
      RepeatIsBounded(l, batch, i);
      EachStep(c, batch, k, After(l, batch, i), |l.rows|, i);
      assert After(l, batch, n) == Step(After(l, batch, i), |l.rows|, batch, i);
    }
  }

  lemma {:induction false} LastFresh(c: Scene, batch: seq<Item>, k: Item, n: nat, some: nat) returns (j: nat)
    requires some < n <= |batch| && Fresh(c, k, batch[some])
    ensures some <= j < n && Fresh(c, k, batch[j]) && FreshCount(c, k, batch, n) == FreshCount(c, k, batch, j) + 1
  {
    if Fresh(c, k, batch[n - 1]) {
      j := n - 1;
    } else {
      j := LastFresh(c, batch, k, n - 1, some);
    }
  }

  lemma {:induction false} FreshAndSettled(c: Scene, batch: seq<Item>, k: Item, n: nat)
    requires n <= |batch|
    ensures FreshCount(c, k, batch, n) <= Occurrences(batch, n, KeyOf(k))
    ensures (exists s :: 0 <= s < n && KeyOf(batch[s]) == KeyOf(k) && !Fresh(c, k, batch[s])) ==>
              FreshCount(c, k, batch, n) < Occurrences(batch, n, KeyOf(k))
  {
    if n > 0 {
      FreshAndSettled(c, batch, k, n - 1);
    }
  }

  /** The last fresh entry finds fewer rows than identical entries came before it: it is stored again. */
  lemma LastFreshIsStoredAgain(c: Scene, batch: seq<Item>, k: Item, s: nat, j: nat)
    requires MixedKey(c, k) && IdLessBatch(batch) && s < j < |batch|
    requires KeyOf(batch[s]) == KeyOf(k) && !Fresh(c, k, batch[s]) && Fresh(c, k, batch[j])
    requires FreshCount(c, k, batch, |batch|) == FreshCount(c, k, batch, j) + 1
    ensures var l1 := Store(FirstLedger(c, batch, k), batch).ledger;
            |After(l1, batch, j + 1).ledger.rows| > |l1.rows|
  {
    hide Step, SettledByOldReading, FirstRows, EvidenceFor, Count, Repeat, MixedKey, Built;
    SavesHasTime(c, k);
    FirstRunStoresFresh(c, batch, k, |batch|);
    var l1, e := Store(FirstLedger(c, batch, k), batch).ledger, batch[j];
    var p := After(l1, batch, j);
    SecondRunBuilds(c, batch, k, l1, j);
    RepeatIsBounded(l1, batch, j);
    FreshAndSettled(c, batch, k, j);
    FreshRowsCount(c, batch, k, |batch|, e);
    assert p.ledger.rows[..|l1.rows|] == l1.rows;
    BuiltIsLong(c, batch, k, l1.rows);
    EachStep(c, batch, k, p, |l1.rows|, j);
    assert After(l1, batch, j + 1) == Step(p, |l1.rows|, batch, j);
  }

  lemma BuiltIsLong(c: Scene, batch: seq<Item>, k: Item, rows: seq<Item>)
    requires k.at.Some? && Built(c, batch, k, rows)
    ensures |FirstRows(c, batch, k)| <= |rows|
  {
  }

  /**
   A key of two shapes, the settled one first: on that ledger no entry is of an older reading, and the second
   import stores a row.
   */
  lemma MixedKeyIsStoredAgain(c: Scene, batch: seq<Item>, k: Item, s: nat, f: nat)
    requires MixedKey(c, k) && IdLessBatch(batch) && s < f < |batch|
    requires KeyOf(batch[s]) == KeyOf(k) && !Fresh(c, k, batch[s]) && Fresh(c, k, batch[f])
    ensures var l := FirstLedger(c, batch, k);
            var l1 := Store(l, batch).ledger;
            NoOldReading(l, batch) && |Store(l1, batch).ledger.rows| > |l1.rows|
  {
    hide Step, SettledByOldReading, FirstRows, Built, Repeat, MixedKey;
    SavesHasTime(c, k);
    var l := FirstLedger(c, batch, k);
    FirstRunReadsNothingOld(c, batch, k);
    var j := LastFresh(c, batch, k, |batch|, f);
    LastFreshIsStoredAgain(c, batch, k, s, j);
    RunEvolves(Store(l, batch).ledger, batch, j + 1, |batch|);
  }

  // ---- exactly when --------------------------------------------------------------------------------

  /** From every ledger, a second import adds no row. */
  ghost predicate NeverAddsAgain(batch: seq<Item>) {
    forall l {:trigger NoOldReading(l, batch)} :: NoOldReading(l, batch) ==>
      var l1 := Store(l, batch).ledger; |Store(l1, batch).ledger.rows| == |l1.rows|
  }

  lemma UncoveredIsMixed(batch: seq<Item>, i: nat, j: nat) returns (c: Scene)
    requires IdLessBatch(batch) && i < j < |batch|
    requires KeyOf(batch[i]) == KeyOf(batch[j]) && Saves(batch[j]) && !Covers(batch[i], batch[j])
    ensures MixedKey(c, batch[j]) && !Fresh(c, batch[j], batch[i]) && Fresh(c, batch[j], batch[j])
  {
    c := if Governed(batch[j]) then PlainSettled else GovernedSettled;
  }

  /**
   A batch without ids can be imported again from every ledger without adding a row exactly when each entry that
   saves is covered by the identical ones before it.
   */
  lemma ReimportExactlyWhen(batch: seq<Item>)
    requires IdLessBatch(batch)
    ensures NeverAddsAgain(batch) <==> OneShapePerKey(batch)
  {
    hide Store, Covers, Saves, MixedKey, Fresh, NoOldReading;
    if OneShapePerKey(batch) {
      forall l | NoOldReading(l, batch)
        ensures var l1 := Store(l, batch).ledger; |Store(l1, batch).ledger.rows| == |l1.rows|
      {
        ReimportAddsNothing(l, batch);
      }
    } else {
      var i, j :| 0 <= i < j < |batch| && KeyOf(batch[i]) == KeyOf(batch[j]) && Saves(batch[j]) && !Covers(batch[i], batch[j]);
      var c := UncoveredIsMixed(batch, i, j);
      SavesHasTime(c, batch[j]);
      MixedKeyIsStoredAgain(c, batch, batch[j], i, j);
    }
  }
}
