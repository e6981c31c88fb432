/** Which entries of a batch stand in each other's way for one API row: those not paired elsewhere. */
module RivalsExactly {
  import opened Prelude
  import opened LedgerRows
  import opened LedgerStore
  import opened PairingExactly

  /** Two entries of which the first changes nothing, and the second what it is said to. */
  lemma KnownThen(l: Ledger, f: Item, g: Item, rows: seq<Item>)
    requires KeyOf(f) != KeyOf(g) && !Present(f.txId) && !Present(g.txId)
    requires Duplicate(l, |l.rows|, [f, g], 0, 0) == Verdict(true, l.rows)
    requires Duplicate(l, |l.rows|, [f, g], 1, 0) == Verdict(true, rows)
    ensures Store(l, [f, g]).ledger.rows == rows
  {
    hide Duplicate;
    var batch := [f, g];
    assert After(l, batch, 0).ledger == l && Repeat(After(l, batch, 0), f) == 0;
    assert After(l, batch, 1) == Step(After(l, batch, 0), |l.rows|, batch, 0);
    assert After(l, batch, 1).ledger == l && Repeat(After(l, batch, 1), g) == 0;
    assert After(l, batch, 2) == Step(After(l, batch, 1), |l.rows|, batch, 1);
  }

  lemma OneRivalOfTwo(rows: seq<Item>, f: Item, g: Item, a: Item)
    requires !Rival(rows, a, f, false) && Rival(rows, a, g, true)
    ensures Rivals(rows, [f, g], 2, 1, a) == 1
  {
    hide Rival;
    assert Rivals(rows, [f, g], 0, 1, a) == 0;
    assert Rivals(rows, [f, g], 1, 1, a) == 0;
  }

  /** The second entry marks the second row, when the first is paired elsewhere. */
  lemma SecondIsMarked(r: Item, a: Item, f: Item, g: Item)
    requires DepositedByApi(a) && a.raw.twin.None? && DepositedByExport(f) && DepositedByExport(g) && Complete(g)
    requires OneDeposit(a, g) && Paired([r, a], f) && !ApiRowFor(g, r) && !Counts(g, NotApiTransfer, r)
    ensures Duplicate(Ledger([r, a], {}), 2, [f, g], 1, 0) == Verdict(true, [r, Named(a, g)])
  {
    var rows := [r, a];
    assert rows[..2] == rows && ApiRowFor(g, a) && !Counts(g, NotApiTransfer, a);
    CountZero(rows, g, NotApiTransfer);
    assert !Twinned(rows, g);
    assert !Rival(rows, a, f, false) && Rival(rows, a, g, true);
    assert FileTransfer(g) && !FileDust(g) && !Present(g.txId);
    hide ApiRowFor, Rival, Counts, Twinned, Paired, DepositedByApi, DepositedByExport, OneDeposit, FileTransfer, FileDust,
         Present, Complete;
    OneRivalOfTwo(rows, f, g, a);
    SelectOne(rows, (q: Item) => ApiRowFor(g, q) && q.raw.twin.None?, 1);
    assert FreeApiRows(rows, g) == [1];
  }

  /** An export deposit that is stored with an id of its own stands in no other's way. */
  lemma StoredIsNoRival(r: Item, a: Item, f: Item, g: Item)
    requires DepositedByApi(a) && a.raw.twin.None? && DepositedByExport(f) && DepositedByExport(g)
    requires Complete(f) && Complete(g) && OneDeposit(a, f) && OneDeposit(a, g)
    requires r.txId.Some? && !r.raw.hasInsertTime && AlikeWithin(f, r, 1_000_000) && !AlikeWithin(g, r, 1_000_000)
    ensures Store(Ledger([r, a], {}), [f, g]).ledger.rows == [r, Named(a, g)]
  {
    var l := Ledger([r, a], {});
    assert l.rows[..2] == l.rows && Counts(f, NotApiTransfer, l.rows[0]);
    CountSome(l.rows, f, NotApiTransfer, 0);
    assert Duplicate(l, 2, [f, g], 0, 0) == Verdict(true, l.rows);
    assert l.rows[0].txId.Some? && SameEvent(f, l.rows[0]) && !ApiTransfer(l.rows[0]);
    SecondIsMarked(r, a, f, g);
    assert KeyOf(f) != KeyOf(g) && !Present(f.txId) && !Present(g.txId);
    hide Duplicate, KeyOf, Present, OneDeposit, AlikeWithin, DepositedByApi, DepositedByExport;
    KnownThen(l, f, g, [r, Named(a, g)]);
  }

  /** Nor does one that is marked on another API row. */
  lemma MarkedIsNoRival(b: Item, a: Item, f: Item, g: Item, t: Time)
    requires DepositedByApi(a) && DepositedByApi(b) && a.raw.twin.None? && b.raw.twin == Some(t)
    requires DepositedByExport(f) && DepositedByExport(g) && Complete(f) && Complete(g)
    requires OneDeposit(a, f) && OneDeposit(a, g) && OneDeposit(b, f) && !OneDeposit(b, g)
    requires -1_000_000 < t - f.at.value < 1_000_000
    ensures Store(Ledger([b, a], {}), [f, g]).ledger.rows == [b, Named(a, g)]
  {
    var l := Ledger([b, a], {});
    assert l.rows[0] == b && ApiRowFor(f, l.rows[0]) && TwinNear(l.rows[0], f.at.value);
    assert Twinned(l.rows, f);
    assert Duplicate(l, 2, [f, g], 0, 0) == Verdict(true, l.rows);
    SecondIsMarked(b, a, f, g);
    assert KeyOf(f) != KeyOf(g) && !Present(f.txId) && !Present(g.txId);
    hide Duplicate, KeyOf, Present, OneDeposit, DepositedByApi, DepositedByExport, Twinned, ApiRowFor;
    KnownThen(l, f, g, [b, Named(a, g)]);
  }

  lemma NoneOfTheirs(r: Item, a: Item, f: Item)
    requires DepositedByApi(a) && a.raw.twin.None? && DepositedByExport(f) && Complete(f) && OneDeposit(a, f)
    requires r.kind != Deposit || r.currency != a.currency || (r.amount != f.amount && !r.raw.hasInsertTime)
    ensures ApiRowFor(f, a) && !ApiRowFor(f, r) && !Counts(f, NotApiTransfer, a) && !Counts(f, NotApiTransfer, r)
    ensures !Twinned([r, a], f) && !Paired([r, a], f)
  {
    assert ApiRowFor(f, a) && !ApiRowFor(f, r);
    assert !SameEvent(f, r);
    assert ApiTransfer(a);
    hide ApiRowFor, SameEvent, ApiTransfer, DepositedByApi, DepositedByExport, OneDeposit, Complete;
  }

  /** Two that are paired with nothing do, whatever other rows there are. */
  lemma UnpairedAreRivals(r: Item, a: Item, f: Item, g: Item)
    requires DepositedByApi(a) && a.raw.twin.None? && DepositedByExport(f) && DepositedByExport(g)
    requires Complete(f) && Complete(g) && OneDeposit(a, f) && OneDeposit(a, g)
    requires r.kind != Deposit || r.currency != a.currency || (r.amount != f.amount && !r.raw.hasInsertTime)
    ensures Duplicate(Ledger([r, a], {}), 2, [f, g], 1, 0) == Verdict(false, [r, a])
  {
    var rows := [r, a];
    assert rows[..2] == rows;
    NoneOfTheirs(r, a, f);
    NoneOfTheirs(r, a, g);
    CountZero(rows, g, NotApiTransfer);
    assert Rival(rows, a, f, false) && Rival(rows, a, g, true);
    assert FileTransfer(g) && !FileDust(g) && !Present(g.txId);
    hide ApiRowFor, Rival, Counts, Twinned, Paired, DepositedByApi, DepositedByExport, OneDeposit, FileTransfer, FileDust,
         Present, Complete;
    assert Rivals(rows, [f, g], 0, 1, a) == 0;
    assert Rivals(rows, [f, g], 1, 1, a) == 1;
    assert Rivals(rows, [f, g], 2, 1, a) == 2;
    SelectOne(rows, (q: Item) => ApiRowFor(g, q) && q.raw.twin.None?, 1);
    assert FreeApiRows(rows, g) == [1];
  }
}
