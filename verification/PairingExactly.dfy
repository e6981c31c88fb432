/**
 When an arriving entry adds no row, told in the fields of the entry and of the row it meets: one row against one
 entry of each shape, and one dust conversion against the other source's.
 */
module PairingExactly {
  import opened Prelude
  import opened LedgerRows
  import opened LedgerStore

  /** What a text must hold to identify anything. */
  predicate Says(s: string) {
    exists i :: 0 <= i < |s| && s[i] != ' ' && s[i] != '\t' && s[i] != '\n' && s[i] != '\r'
  }

  /** The entry has a date and a currency. */
  predicate Complete(e: Item) {
    e.at.Some? && Says(e.currency)
  }

  predicate SaysId(e: Item) {
    e.txId.Some? && Says(e.txId.value)
  }

  /** What stands in the ledger once the entry has come to a ledger of one row. */
  function Rows(r: Item, e: Item): seq<Item> {
    Store(Ledger([r], {}), [e]).ledger.rows
  }

  predicate AlikeWithin(e: Item, r: Item, reach: int) {
    && r.kind == e.kind && r.currency == e.currency && r.amount == e.amount
    && e.at.Some? && r.at.Some? && -reach <= r.at.value - e.at.value <= reach
  }

  // ---- one entry against one row -------------------------------------------------------------------

  lemma SaysIsPresent(s: string)
    ensures Says(s) <==> !Blank(s)
  {
  }

  /** A batch of one. */
  lemma OneOf(l: Ledger, e: Item)
    requires Complete(e)
    ensures var v := Duplicate(l, |l.rows|, [e], 0, 0);
            Store(l, [e]).ledger.rows == if v.duplicate then v.rows else v.rows + [Stored(e)]
  {
    hide Duplicate, Stored;
    SaysIsPresent(e.currency);
    assert After(l, [e], 0).ledger == l && Repeat(After(l, [e], 0), e) == 0;
    assert After(l, [e], 1) == Step(After(l, [e], 0), |l.rows|, [e], 0);
  }

  lemma OneStep(r: Item, e: Item)
    requires Complete(e)
    ensures var v := Duplicate(Ledger([r], {}), 1, [e], 0, 0);
            Rows(r, e) == if v.duplicate then v.rows else v.rows + [Stored(e)]
  {
    hide Duplicate, Stored;
    OneOf(Ledger([r], {}), e);
  }

  lemma CountOne(r: Item, e: Item, ev: Evidence)
    ensures Count([r][..1], e, ev) == if Counts(e, ev, r) then 1 else 0
  {
    assert [r][..1] == [r] && [r][..0] == [];
    assert Count([], e, ev) == 0;
  }

  /** An entry without an id that is no transfer or sweep of the export: the same thing less than a second away. */
  lemma PlainExportEntry(r: Item, e: Item)
    requires Complete(e) && !SaysId(e)
    requires !("dustcsv" <= e.groupId && (e.kind == SwapIn || e.kind == SwapOut))
    requires !(e.kind == Deposit && e.raw.operation == "Deposit")
    requires !(e.kind == Withdrawal && e.raw.operation == "Withdraw")
    ensures |Rows(r, e)| == 1 <==>
              || AlikeWithin(e, r, 999_999)
              || (r.txId.Some? && AlikeWithin(e, r, 1_000_000))
              || (e.kind == Airdrop && e.raw.operation == r.raw.operation == "Token Swap - Distribution"
                  && AlikeWithin(e.(kind := OtherIncome), r, if r.txId.Some? then 1_000_000 else 999_999))
    ensures |Rows(r, e)| <= 2 && Rows(r, e)[0] == r
  {
    OneStep(r, e);
    CountOne(r, e, AnyRow);
    CountOne(r, e.(kind := OtherIncome), OldTokenSwap);
    assert |Select([e], (other: Item) => other.groupId == e.groupId)| <= 1 by {
      SelectOne([e], (other: Item) => other.groupId == e.groupId, 0);
    }
  }

  /** An entry with an id of its own that is no transfer or sweep of the API: its id, or the same thing without one. */
  lemma PlainApiEntry(r: Item, e: Item)
    requires Complete(e) && SaysId(e)
    requires !("dust-" <= e.txId.value && (e.kind == SwapIn || e.kind == SwapOut) && e.raw.transfered.Some?)
    requires !(e.kind == Deposit && e.raw.hasInsertTime) && !(e.kind == Withdrawal && e.raw.completion != Absent)
    ensures |Rows(r, e)| == 1 <==> r.txId == e.txId || (r.txId.None? && AlikeWithin(e, r, 1_000_000))
    ensures |Rows(r, e)| <= 2 && Rows(r, e)[0] == r
  {
    OneStep(r, e);
    SaysIsPresent(e.txId.value);
    CountOne(r, e, IdLess);
  }

  /** The fields of a sweep's row from the API. */
  predicate SweptByApi(r: Item) {
    r.txId.Some? && "dust-" <= r.txId.value && (r.kind == SwapIn || r.kind == SwapOut) && r.raw.transfered.Some?
  }

  predicate SweptByExport(r: Item) {
    "dustcsv" <= r.groupId && (r.kind == SwapIn || r.kind == SwapOut)
  }

  /** A lone leg of a sweep pairs with no row of the other source; anything else of the same kind is the same thing. */
  lemma LoneExportLeg(r: Item, e: Item)
    requires Complete(e) && !SaysId(e) && SweptByExport(e)
    ensures |Rows(r, e)| == 1 <==>
              !SweptByApi(r) && AlikeWithin(e, r, if r.txId.Some? then 1_000_000 else 999_999)
    ensures |Rows(r, e)| <= 2 && Rows(r, e)[0] == r
  {
    OneStep(r, e);
    CountOne(r, e, NotApiDust);
    NoLegs([r], e);
  }

  lemma SomeIn(legs: seq<Legs>)
    ensures legs == [] || exists l :: l in legs
  {
    if legs != [] {
      assert legs[0] in legs;
    }
  }

  lemma NoLegs(rows: seq<Item>, e: Item)
    requires e.at.Some? && |rows| == 1
    ensures TheConversion(rows, e) == None && !ConversionTwinned(rows, e)
  {
    hide ApiLegs, IsWhole;
    forall l
      ensures l !in AllApiLegs(rows, e)
    {
      OneRowOneLeg(rows, e, l);
    }
    SomeIn(AllApiLegs(rows, e));
    assert WholeConversions(rows, e) == [];
  }

  lemma OneRowOneLeg(rows: seq<Item>, e: Item, l: Legs)
    requires e.at.Some? && |rows| == 1
    ensures !ApiLegs(rows, e, l)
  {
  }

  lemma NoFreeDust(r: Item, e: Item)
    requires e.at.Some?
    ensures FreeDust([r], e) == []
  {
    SomeIn(FreeDust([r], e));
  }

  lemma LoneApiLeg(r: Item, e: Item)
    requires Complete(e) && SaysId(e) && SweptByApi(e)
    ensures |Rows(r, e)| == 1 <==>
              r.txId == e.txId || (r.txId.None? && !SweptByExport(r) && AlikeWithin(e, r, 1_000_000))
    ensures |Rows(r, e)| <= 2 && Rows(r, e)[0] == r
  {
    OneStep(r, e);
    SaysIsPresent(e.txId.value);
    CountOne(r, e, IdLessNotFileDust);
    NoFreeDust(r, e);
    hide FreeDust, FreeDustLeg, ConversionId, TakeBoth, Stored;
  }

  // ---- one transfer --------------------------------------------------------------------------------

  /** The API's withdrawal: net, with the fee beside it, and when it completed. */
  predicate WithdrawnByApi(a: Item, done: Time) {
    a.kind == Withdrawal && SaysId(a) && a.raw.completion == CompletedAt(done)
  }

  predicate WithdrawnByExport(f: Item) {
    f.kind == Withdrawal && !SaysId(f) && f.raw.operation == "Withdraw"
  }

  predicate DepositedByApi(a: Item) {
    a.kind == Deposit && SaysId(a) && a.raw.hasInsertTime && a.at.Some?
  }

  predicate DepositedByExport(f: Item) {
    f.kind == Deposit && !SaysId(f) && f.raw.operation == "Deposit"
  }

  /** The export writes a withdrawal gross, less than a second from when it completed. */
  predicate OneWithdrawal(a: Item, f: Item, done: Time) {
    && f.currency == a.currency && f.amount == a.raw.amount + a.raw.transactionFee
    && f.at.Some? && -1_000_000 < f.at.value - done < 1_000_000
  }

  /** The export dates a deposit when it was credited, up to ten minutes after the API does. */
  predicate OneDeposit(a: Item, f: Item) {
    && f.currency == a.currency && f.amount == a.raw.amount
    && a.at.Some? && f.at.Some? && a.at.value <= f.at.value <= a.at.value + 600_000_000
  }

  /** The row as it stands once the export's copy was paired with it. */
  function Named(a: Item, f: Item): Item {
    a.(raw := a.raw.(twin := f.at))
  }

  lemma ExportFindsOne(a: Item, f: Item, met: bool)
    requires f.at.Some? && !Counted([a], 1, f, NotApiTransfer, 0) && a.raw.twin.None?
    requires met <==> ApiRowFor(f, a)
    requires met ==> Rival([a], a, f, true)
    ensures FileTransferTwin([a], 1, [f], 0, 0) == if met then Verdict(true, [Named(a, f)]) else Verdict(false, [a])
  {
    hide ApiRowFor, Rival, Counted;
    assert Rivals([a], [f], 1, 0, a) == Rivals([a], [f], 0, 0, a) + if Rival([a], a, f, true) then 1 else 0;
    if met {
      SelectOne([a], (r: Item) => ApiRowFor(f, r) && r.raw.twin.None?, 0);
      assert FreeApiRows([a], f) == [0];
    } else {
      SelectNone([a], (r: Item) => ApiRowFor(f, r) && r.raw.twin.None?);
      assert FreeApiRows([a], f) == [];
    }
  }

  lemma ApiFindsOne(a: Item, f: Item, id: string, met: bool)
    requires !Counted([f], 1, a, IdLessNotFileTransfer, 0)
    requires met <==> FreeFileRow(a, f)
    ensures ApiTransferTwin([f], 1, a, id, 0) == if met then Verdict(true, [f.(txId := Some(id))]) else Verdict(false, [f])
  {
    hide FreeFileRow, Counted;
    if met {
      SelectOne([f], (r: Item) => FreeFileRow(a, r), 0);
      assert FreeFileRows([f], a) == [0];
    } else {
      SelectNone([f], (r: Item) => FreeFileRow(a, r));
      assert FreeFileRows([f], a) == [];
    }
  }

  /** The export's withdrawal after the API's adds no row exactly when the two are one; then the row is marked. */
  lemma ExportWithdrawalAfterApi(a: Item, f: Item, done: Time)
    requires WithdrawnByApi(a, done) && WithdrawnByExport(f) && Complete(f) && a.at.Some? && a.raw.twin.None?
    ensures var met := OneWithdrawal(a, f, done) && a.at.value < f.at.value + 1_000_000;
            if met then Rows(a, f) == [Named(a, f)] else |Rows(a, f)| == 2 && Rows(a, f)[0] == a
  {
    OneStep(a, f);
    CountOne(a, f, NotApiTransfer);
    ExportFindsOne(a, f, OneWithdrawal(a, f, done) && a.at.value < f.at.value + 1_000_000);
    hide FileTransferTwin, Stored, ApiRowFor, Rivals, FreeApiRows;
  }

  lemma ExportDepositAfterApi(a: Item, f: Item)
    requires DepositedByApi(a) && DepositedByExport(f) && Complete(f) && a.raw.twin.None?
    ensures if OneDeposit(a, f) then Rows(a, f) == [Named(a, f)] else |Rows(a, f)| == 2 && Rows(a, f)[0] == a
  {
    OneStep(a, f);
    CountOne(a, f, NotApiTransfer);
    ExportFindsOne(a, f, OneDeposit(a, f));
  }

  /** The API's withdrawal after the export's adds no row exactly when the two are one; then the row takes its id. */
  lemma ApiWithdrawalAfterExport(a: Item, f: Item, done: Time)
    requires WithdrawnByApi(a, done) && WithdrawnByExport(f) && Complete(a) && f.txId.None?
    ensures if OneWithdrawal(a, f, done) then Rows(f, a) == [f.(txId := a.txId)]
            else |Rows(f, a)| == 2 && Rows(f, a)[0] == f
  {
    OneStep(f, a);
    CountOne(f, a, IdLessNotFileTransfer);
    ApiFindsOne(a, f, a.txId.value, OneWithdrawal(a, f, done));
  }

  lemma ApiDepositAfterExport(a: Item, f: Item)
    requires DepositedByApi(a) && DepositedByExport(f) && Complete(a) && f.txId.None?
    ensures if OneDeposit(a, f) then Rows(f, a) == [f.(txId := a.txId)] else |Rows(f, a)| == 2 && Rows(f, a)[0] == f
  {
    OneStep(f, a);
    CountOne(f, a, IdLessNotFileTransfer);
    ApiFindsOne(a, f, a.txId.value, OneDeposit(a, f));
  }

  /** A withdrawal whose completion cannot be read pairs with nothing, whichever came first. */
  lemma UnreadableBeforeExport(a: Item, f: Item)
    requires a.kind == Withdrawal && SaysId(a) && a.raw.completion == Unreadable && a.raw.twin.None?
    requires WithdrawnByExport(f) && Complete(f)
    ensures |Rows(a, f)| == 2 && Rows(a, f)[0] == a
  {
    OneStep(a, f);
    CountOne(a, f, NotApiTransfer);
    ExportFindsOne(a, f, false);
    hide FileTransferTwin, Stored, ApiRowFor;
  }

  lemma UnreadableAfterExport(a: Item, f: Item)
    requires a.kind == Withdrawal && SaysId(a) && a.raw.completion == Unreadable && Complete(a)
    requires WithdrawnByExport(f) && f.txId.None?
    ensures |Rows(f, a)| == 2 && Rows(f, a)[0] == f
  {
    OneStep(f, a);
    CountOne(f, a, IdLessNotFileTransfer);
    ApiFindsOne(a, f, a.txId.value, false);
    hide ApiTransferTwin, Stored, FreeFileRow;
  }

  /** A transfer of one source against a row that is no transfer of the other: the same thing, as for any entry. */
  lemma ExportTransferMeetsAnother(r: Item, f: Item)
    requires Complete(f) && (WithdrawnByExport(f) || DepositedByExport(f))
    requires !(r.kind == Deposit && SaysId(r) && r.raw.hasInsertTime)
    requires !(r.kind == Withdrawal && SaysId(r) && r.raw.completion != Absent)
    ensures |Rows(r, f)| == 1 <==> AlikeWithin(f, r, if r.txId.Some? then 1_000_000 else 999_999)
    ensures |Rows(r, f)| <= 2 && Rows(r, f)[0] == r
  {
    OneStep(r, f);
    CountOne(r, f, NotApiTransfer);
    NoFreeApiRow(r, f);
    hide FreeApiRows, ApiRowFor, Rivals, Stored;
  }

  lemma NoFreeApiRow(r: Item, f: Item)
    requires !(r.kind == Deposit && SaysId(r) && r.raw.hasInsertTime)
    requires !(r.kind == Withdrawal && SaysId(r) && r.raw.completion != Absent)
    ensures FreeApiRows([r], f) == [] && !Twinned([r], f)
  {
    assert !ApiRowFor(f, r);
    SelectNone([r], (q: Item) => ApiRowFor(f, q) && q.raw.twin.None?);
  }

  lemma ApiTransferMeetsAnother(r: Item, a: Item)
    requires Complete(a) && SaysId(a)
    requires (a.kind == Deposit && a.raw.hasInsertTime) || (a.kind == Withdrawal && a.raw.completion != Absent)
    requires !(r.kind == Deposit && r.raw.operation == "Deposit")
    requires !(r.kind == Withdrawal && r.raw.operation == "Withdraw")
    ensures |Rows(r, a)| == 1 <==> r.txId == a.txId || (r.txId.None? && AlikeWithin(a, r, 1_000_000))
    ensures |Rows(r, a)| <= 2 && Rows(r, a)[0] == r
  {
    OneStep(r, a);
    SaysIsPresent(a.txId.value);
    CountOne(r, a, IdLessNotFileTransfer);
    SelectNone([r], (q: Item) => FreeFileRow(a, q));
    assert FreeFileRows([r], a) == [];
  }

  // ---- copies already paired, and more than one candidate ------------------------------------------

  /** What an export row marked on the API's is not stored again for: itself, to within a second. */
  lemma MarkedOnce(a: Item, f: Item, t: Time)
    requires DepositedByApi(a) && DepositedByExport(f) && Complete(f) && a.raw.twin == Some(t)
    ensures if OneDeposit(a, f) && -1_000_000 < t - f.at.value < 1_000_000 then Rows(a, f) == [a]
            else |Rows(a, f)| == 2 && Rows(a, f)[0] == a
  {
    OneStep(a, f);
    CountOne(a, f, NotApiTransfer);
    SelectNone([a], (r: Item) => ApiRowFor(f, r) && r.raw.twin.None?);
    assert FreeApiRows([a], f) == [];
    assert ApiRowFor(f, a) <==> OneDeposit(a, f);
    assert [a][0] == a;
    assert Twinned([a], f) <==> ApiRowFor(f, a) && TwinNear(a, f.at.value);
    hide ApiRowFor, Rivals, FreeApiRows, Stored;
  }

  /** Two deposits of the API that one of the export could be: it is stored, and neither is marked. */
  lemma TwoApiCandidates(a: Item, b: Item, f: Item)
    requires DepositedByApi(a) && DepositedByApi(b) && DepositedByExport(f) && Complete(f)
    requires a.raw.twin.None? && b.raw.twin.None? && OneDeposit(a, f) && OneDeposit(b, f)
    ensures var rows := Store(Ledger([a, b], {}), [f]).ledger.rows; rows == [a, b, Stored(f)]
  {
    var l, batch := Ledger([a, b], {}), [f];
    assert [a, b][..2] == [a, b] && [a, b][..1] == [a];
    assert Count([a, b], f, NotApiTransfer) == 0 by {
      CountZero([a, b], f, NotApiTransfer);
    }
    var free := FreeApiRows(l.rows, f);
    assert 0 in free && 1 in free;
    assert |free| >= 2;
    assert !Twinned(l.rows, f);
    hide ApiRowFor, Rivals, FreeApiRows, Twinned, Stored, Count;
    OneOf(l, f);
  }

  /** Two of the export in one batch that one of the API could be: both are stored, and it is not marked. */
  lemma TwoRivals(a: Item, f: Item, g: Item)
    requires DepositedByApi(a) && DepositedByExport(f) && DepositedByExport(g) && Complete(f) && Complete(g)
    requires a.raw.twin.None? && OneDeposit(a, f) && OneDeposit(a, g)
    ensures Store(Ledger([a], {}), [f, g]).ledger.rows == [a, Stored(f), Stored(g)]
  {
    hide Duplicate, Stored;
    var l, batch := Ledger([a], {}), [f, g];
    SaysIsPresent(f.currency);
    SaysIsPresent(g.currency);
    RivalsStayFree(a, f, g, [a], 0);
    assert After(l, batch, 0).ledger == l;
    assert After(l, batch, 1) == Step(After(l, batch, 0), 1, batch, 0);
    assert After(l, batch, 1).ledger == Ledger([a, Stored(f)], f.raw.mergedIds) by {
      assert l.merged + f.raw.mergedIds == f.raw.mergedIds;
    }
    RivalsStayFree(a, f, g, [a, Stored(f)], 1);
    assert After(l, batch, 2) == Step(After(l, batch, 1), 1, batch, 1);
  }

  lemma RivalsStayFree(a: Item, f: Item, g: Item, rows: seq<Item>, i: nat)
    requires DepositedByApi(a) && DepositedByExport(f) && DepositedByExport(g) && Complete(f) && Complete(g)
    requires a.raw.twin.None? && OneDeposit(a, f) && OneDeposit(a, g) && i < 2
    requires rows == [a] || rows == [a, Stored(f)]
    ensures forall merged, repeat: nat :: Duplicate(Ledger(rows, merged), 1, [f, g], i, repeat) == Verdict(false, rows)
  {
    hide Counted, Rivals, FreeApiRows, Twinned, Stored, DepositedByApi, DepositedByExport, OneDeposit;
    var e := [f, g][i];
    OnlyOneIsFree(a, f, rows, e);
    BothAreRivals(a, f, g, rows, i);
    assert FileTransfer(e) && !FileDust(e) && !Present(e.txId) by {
      TransferOfTheExport(e);
    }
  }

  lemma TransferOfTheExport(f: Item)
    requires DepositedByExport(f)
    ensures FileTransfer(f) && !FileDust(f) && !Present(f.txId)
  {
  }

  lemma OnlyOneIsFree(a: Item, f: Item, rows: seq<Item>, e: Item)
    requires DepositedByApi(a) && DepositedByExport(f) && DepositedByExport(e) && Complete(e)
    requires a.raw.twin.None? && OneDeposit(a, e) && (rows == [a] || rows == [a, Stored(f)])
    ensures FreeApiRows(rows, e) == [0] && !Twinned(rows, e) && !Paired(rows, e)
    ensures forall repeat: nat :: !Counted(rows, 1, e, NotApiTransfer, repeat)
  {
    assert rows[..1] == [a];
    CountOne(a, e, NotApiTransfer);
    assert ApiRowFor(e, a) && !Counts(e, NotApiTransfer, a);
    assert |rows| == 2 ==> rows[1] == Stored(f) && rows[1].txId.None?;
    OnlyFirstHasId(a, rows, e);
    hide ApiRowFor, Counts, DepositedByApi, DepositedByExport, OneDeposit, Stored, Complete;
  }

  lemma OnlyFirstHasId(a: Item, rows: seq<Item>, e: Item)
    requires |rows| >= 1 && rows[0] == a && e.at.Some? && ApiRowFor(e, a) && a.raw.twin.None? && ApiTransfer(a)
    requires forall i :: 1 <= i < |rows| ==> rows[i].txId.None?
    ensures FreeApiRows(rows, e) == [0] && !Twinned(rows, e) && !Paired(rows, e)
  {
    forall i | 1 <= i < |rows|
      ensures !ApiRowFor(e, rows[i])
    {
    }
    hide ApiRowFor, ApiTransfer;
    SelectOne(rows, (r: Item) => ApiRowFor(e, r) && r.raw.twin.None?, 0);
  }

  lemma BothAreRivals(a: Item, f: Item, g: Item, rows: seq<Item>, i: nat)
    requires DepositedByApi(a) && DepositedByExport(f) && DepositedByExport(g) && Complete(f) && Complete(g)
    requires a.raw.twin.None? && OneDeposit(a, f) && OneDeposit(a, g) && i < 2
    requires rows == [a] || rows == [a, Stored(f)]
    ensures Rivals(rows, [f, g], 2, i, a) == 2
  {
    OnlyOneIsFree(a, f, rows, f);
    OnlyOneIsFree(a, f, rows, g);
    assert Rival(rows, a, f, false) && Rival(rows, a, g, false);
    hide Rival, Stored, OneDeposit;
    assert Rivals(rows, [f, g], 0, i, a) == 0;
    assert Rivals(rows, [f, g], 1, i, a) == 1 by {
      ItselfToo(rows, a, f);
    }
    ItselfToo(rows, a, g);
  }

  lemma ItselfToo(rows: seq<Item>, a: Item, f: Item)
    requires Rival(rows, a, f, false)
    ensures Rival(rows, a, f, true)
  {
  }

  /** Two of the export that one of the API could be: it is stored, and neither takes its id. */
  lemma TwoExportCandidates(f: Item, g: Item, a: Item)
    requires DepositedByApi(a) && DepositedByExport(f) && DepositedByExport(g) && Complete(a)
    requires f.txId.None? && g.txId.None? && OneDeposit(a, f) && OneDeposit(a, g)
    ensures var rows := Store(Ledger([f, g], {}), [a]).ledger.rows; rows == [f, g, Stored(a)]
  {
    var l := Ledger([f, g], {});
    assert [f, g][..2] == [f, g];
    assert Count([f, g], a, IdLessNotFileTransfer) == 0 by {
      CountZero([f, g], a, IdLessNotFileTransfer);
    }
    var free := FreeFileRows(l.rows, a);
    assert 0 in free && 1 in free;
    assert |free| >= 2;
    OneOf(l, a);
  }
}
