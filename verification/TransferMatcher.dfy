/** Links each withdrawal to the deposit it arrived as, greedily in id order. */
module TransferMatcher {
  import opened Prelude

  type Time = int

  const WINDOW: Time := 72 * 3600 * 1_000_000
  const TOLERANCE: real := 0.02

  datatype Kind = Withdrawal | Deposit | Other

  datatype Row = Row(id: int, user: int, kind: Kind, currency: string, at: Time, amount: real, linked: Option<int>, rejected: bool)

  /** What the model checks before a link is saved. */
  predicate LinkIsValid(w: Row, d: Row) {
    && d.user == w.user && d.currency == w.currency
    && w.kind == Withdrawal && d.kind == Deposit
    && d.at >= w.at && d.amount <= w.amount
  }

  /** The rows in id order; a link names a row of the same user, and no row is named twice. */
  ghost predicate Valid(rows: seq<Row>) {
    && (forall i, j :: 0 <= i < j < |rows| ==> rows[i].id < rows[j].id)
    && (forall i, j :: 0 <= i < j < |rows| && rows[i].linked.Some? ==> rows[i].linked != rows[j].linked)
    && (forall i :: 0 <= i < |rows| && rows[i].linked.Some? ==> Names(rows, i))
  }

  ghost predicate Names(rows: seq<Row>, i: nat)
    requires i < |rows|
  {
    exists k :: 0 <= k < |rows| && rows[i].linked == Some(rows[k].id) && rows[k].user == rows[i].user
  }

  /** A withdrawal the run looks at. */
  predicate Open(w: Row, user: int) {
    w.user == user && w.kind == Withdrawal && w.linked.None? && !w.rejected
  }

  /** A deposit that looks like this withdrawal arriving. */
  predicate Candidate(w: Row, d: Row) {
    && d.user == w.user && d.kind == Deposit && d.currency == w.currency
    && w.at <= d.at <= w.at + WINDOW
    && w.amount * (1.0 - TOLERANCE) <= d.amount <= w.amount
  }

  function Claims(rows: seq<Row>, user: int): (claims: set<int>)
    ensures forall id :: id in claims <==>
              exists i :: 0 <= i < |rows| && rows[i].user == user && rows[i].linked == Some(id)
  {
    set i | 0 <= i < |rows| && rows[i].user == user && rows[i].linked.Some? :: rows[i].linked.value
  }

  /** The link a row was given by the run. */
  ghost predicate Given(was: seq<Row>, now: seq<Row>, i: nat, k: nat)
    requires i < |was| == |now| && k < |was|
  {
    && was[i].linked.None? && Candidate(was[i], was[k])
    && now[i] == was[i].(linked := Some(was[k].id))
  }

  /** Spoken for before withdrawal i had its turn: by a link already there, or by an earlier withdrawal. */
  ghost predicate Taken(was: seq<Row>, now: seq<Row>, k: nat, i: nat)
    requires |was| == |now| && k < |was|
  {
    exists j :: 0 <= j < |now| && now[j].linked == Some(was[k].id) && (was[j].linked.Some? || j < i)
  }

  /** Withdrawal i has the earliest candidate still free at its turn, or nothing when none was. */
  ghost predicate Served(was: seq<Row>, now: seq<Row>, i: nat)
    requires i < |was| == |now|
  {
    || (now[i] == was[i] && forall k :: 0 <= k < |was| && Candidate(was[i], was[k]) ==> Taken(was, now, k, i))
    || exists d :: 0 <= d < |was| && Given(was, now, i, d)
         && forall k :: 0 <= k < |was| && Candidate(was[i], was[k]) && was[k].at < was[d].at ==> Taken(was, now, k, i)
  }

  /** The first n rows have had their turn, and nothing else has changed. */
  ghost predicate Linked(was: seq<Row>, now: seq<Row>, user: int, n: nat) {
    && |now| == |was|
    && (forall i :: 0 <= i < |was| ==> if i < n && Open(was[i], user) then Served(was, now, i) else now[i] == was[i])
  }

  class Ledger {
    var rows: seq<Row>

    /** Links what can be linked. */
    method Run(user: int)
      requires Valid(rows)
      modifies this
      ensures Valid(rows) && Linked(old(rows), rows, user, |rows|)
    {
      hide Valid, Candidate, Served, Claims;
      ghost var was := rows;
      var claimed := Claims(rows, user);
      for i := 0 to |rows|
        invariant |rows| == |was| && Valid(rows) && Linked(was, rows, user, i)
        invariant claimed == Claims(rows, user)
      {
        var w := rows[i];
        if Open(w, user) {
          var free := Select(rows, (d: Row) => Candidate(w, d) && d.id !in claimed);
          if free != [] {
            EarliestExists(rows, free);
            var k :| k in free && forall m :: m in free ==> rows[k].at <= rows[m].at;
            LinkServes(was, rows, user, i, k, free);
            rows := rows[i := w.(linked := Some(rows[k].id))];
            claimed := claimed + {rows[k].id};
          } else {
            NothingServes(was, rows, user, i);
          }
        }
      }
    }
  }

  /** Rows keep everything but their links. */
  lemma SameButLinks(was: seq<Row>, now: seq<Row>, user: int, n: nat)
    requires Linked(was, now, user, n)
    ensures forall i :: 0 <= i < |was| ==> was[i].(linked := now[i].linked) == now[i]
    ensures forall i :: 0 <= i < |was| && (i >= n || was[i].linked.Some? || !Open(was[i], user)) ==> now[i] == was[i]
  {
  }

  /** What the user's links name was taken before this turn. */
  lemma ClaimedIsTaken(was: seq<Row>, now: seq<Row>, user: int, i: nat, k: nat)
    requires Linked(was, now, user, i) && k < |was| && now[k].id in Claims(now, user)
    ensures Taken(was, now, k, i)
  {
    SameButLinks(was, now, user, i);
    var j :| 0 <= j < |now| && now[j].user == user && now[j].linked == Some(now[k].id);
    assert was[j].linked.Some? || j < i;
  }

  lemma NothingServes(was: seq<Row>, now: seq<Row>, user: int, i: nat)
    requires Linked(was, now, user, i) && i < |was| && Open(now[i], user)
    requires forall k :: 0 <= k < |now| && Candidate(now[i], now[k]) ==> now[k].id in Claims(now, user)
    ensures Linked(was, now, user, i + 1)
  {
    SameButLinks(was, now, user, i);
    forall k | 0 <= k < |was| && Candidate(was[i], was[k])
      ensures Taken(was, now, k, i)
    {
      assert Candidate(now[i], now[k]);
      ClaimedIsTaken(was, now, user, i, k);
    }
  }

  /** A link leaves what was taken taken. */
  lemma TakenStays(was: seq<Row>, now: seq<Row>, now': seq<Row>, k: nat, i: nat, m: nat)
    requires |was| == |now| == |now'| && k < |was| && m < |was| && i <= m
    requires now[m].linked.None? && now' == now[m := now'[m]] && Taken(was, now, k, i)
    ensures Taken(was, now', k, i)
  {
    var j :| 0 <= j < |now| && now[j].linked == Some(was[k].id) && (was[j].linked.Some? || j < i);
    assert now'[j].linked == Some(was[k].id);
  }

  lemma ServedStays(was: seq<Row>, now: seq<Row>, now': seq<Row>, i: nat, m: nat)
    requires |was| == |now| == |now'| && i < m < |was|
    requires now[m].linked.None? && now' == now[m := now'[m]] && Served(was, now, i)
    ensures Served(was, now', i)
  {
    forall k | 0 <= k < |was| && Taken(was, now, k, i)
      ensures Taken(was, now', k, i)
    {
      TakenStays(was, now, now', k, i, m);
    }
    if now[i] != was[i] {
      var d :| 0 <= d < |was| && Given(was, now, i, d)
        && forall k :: 0 <= k < |was| && Candidate(was[i], was[k]) && was[k].at < was[d].at ==> Taken(was, now, k, i);
      assert Given(was, now', i, d);
    }
  }

  lemma LinkIsNew(now: seq<Row>, user: int, i: nat, k: nat)
    requires Valid(now) && i < |now| && k < |now| && Open(now[i], user) && now[k].user == user
    requires now[k].id !in Claims(now, user)
    ensures var now' := now[i := now[i].(linked := Some(now[k].id))];
            Valid(now') && Claims(now', user) == Claims(now, user) + {now[k].id}
  {
    var now' := now[i := now[i].(linked := Some(now[k].id))];
    forall j | 0 <= j < |now|
      ensures now[j].linked != Some(now[k].id)
      ensures j != i && now'[j].linked.Some? ==> Names(now', j)
    {
      if j != i && now[j].linked.Some? {
        var m :| 0 <= m < |now| && now[j].linked == Some(now[m].id) && now[m].user == now[j].user;
        assert now'[m].id == now[m].id && now'[m].user == now[m].user;
      }
    }
    assert now'[k].id == now[k].id && now'[k].user == user;
    assert Names(now', i);
    forall id
      ensures id in Claims(now', user) <==> id in Claims(now, user) + {now[k].id}
    {
      if j :| 0 <= j < |now| && now[j].user == user && now[j].linked == Some(id) {
        assert now'[j].linked == Some(id);
      }
      assert now'[i].linked == Some(now[k].id);
    }
  }

  lemma LinkServes(was: seq<Row>, now: seq<Row>, user: int, i: nat, k: nat, free: seq<nat>)
    requires Linked(was, now, user, i) && Valid(now) && i < |was| && Open(now[i], user)
    requires forall m :: m in free <==> 0 <= m < |now| && Candidate(now[i], now[m]) && now[m].id !in Claims(now, user)
    requires k in free && forall m :: m in free ==> now[k].at <= now[m].at
    ensures var now' := now[i := now[i].(linked := Some(now[k].id))];
            Linked(was, now', user, i + 1) && Valid(now') && Claims(now', user) == Claims(now, user) + {now[k].id}
  {
    var now' := now[i := now[i].(linked := Some(now[k].id))];
    SameButLinks(was, now, user, i);
    LinkIsNew(now, user, i, k);
    assert Candidate(was[i], was[k]) && Given(was, now', i, k);
    forall m | 0 <= m < |was| && Candidate(was[i], was[m]) && was[m].at < was[k].at
      ensures Taken(was, now', m, i)
    {
      assert Candidate(now[i], now[m]) && m !in free;
      ClaimedIsTaken(was, now, user, i, m);
      TakenStays(was, now, now', m, i, i);
    }
    forall j | 0 <= j < i && Open(was[j], user)
      ensures Served(was, now', j)
    {
      ServedStays(was, now, now', j, i);
    }
  }

  lemma {:induction false} EarliestExists(rows: seq<Row>, free: seq<nat>)
    requires free != [] && forall k :: k in free ==> k < |rows|
    ensures exists k :: k in free && forall m :: m in free ==> rows[k].at <= rows[m].at
  {
    var n := |free| - 1;
    var last := free[n];
    assert free == free[..n] + [last];
    assert last in free && forall m :: m in free[..n] ==> m in free;
    if n > 0 {
      EarliestExists(rows, free[..n]);
      var k :| k in free[..n] && forall m :: m in free[..n] ==> rows[k].at <= rows[m].at;
      var first := if rows[last].at < rows[k].at then last else k;
      assert forall m :: m in free ==> m in free[..n] || m == last;
      assert first in free && forall m :: m in free ==> rows[first].at <= rows[m].at;
    } else {
      assert forall m :: m in free ==> rows[last].at <= rows[m].at;
    }
  }

  // ---- what a run comes to -------------------------------------------------------------------------

  /** Every link the run gave passes the model's own validation; every other row is untouched. */
  lemma NewLinksAreValid(was: seq<Row>, now: seq<Row>, user: int, i: nat)
    requires Linked(was, now, user, |was|) && i < |was| && now[i] != was[i]
    ensures Open(was[i], user)
    ensures exists d :: 0 <= d < |was| && Given(was, now, i, d) && LinkIsValid(now[i], was[d]) && was[d].amount >= 0.98 * now[i].amount
  {
    var d :| 0 <= d < |was| && Given(was, now, i, d);
    assert LinkIsValid(now[i], was[d]);
  }

  /**
   What a run may change and what it may not, in the fields of the rows: only an unlinked withdrawal of the user that
   was not unlinked by hand, and of it only the link, which names a deposit that arrived within 72 hours.
   */
  lemma OnlyOpenWithdrawalsChange(was: seq<Row>, now: seq<Row>, user: int, i: nat)
    requires Linked(was, now, user, |was|) && i < |was|
    ensures was[i].rejected || was[i].user != user || was[i].kind != Withdrawal || was[i].linked.Some? ==> now[i] == was[i]
    ensures now[i] == was[i].(linked := now[i].linked)
    ensures now[i] != was[i] ==> exists d ::
              && 0 <= d < |was| && now[i].linked == Some(was[d].id)
              && was[d].kind == Deposit && was[d].user == user && was[d].currency == was[i].currency
              && was[i].at <= was[d].at <= was[i].at + 259_200_000_000
              && 0.98 * was[i].amount <= was[d].amount <= was[i].amount
  {
    SameButLinks(was, now, user, |was|);
    if now[i] != was[i] {
      var d :| 0 <= d < |was| && Given(was, now, i, d);
      assert now[i].linked == Some(was[d].id);
    }
  }

  /** And what it must link: of a withdrawal it left unlinked, every deposit it could be is some other row's. */
  lemma WhatCouldBeLinkedIs(was: seq<Row>, now: seq<Row>, user: int, i: nat, k: nat)
    requires Linked(was, now, user, |was|) && i < |was| && k < |was|
    requires !was[i].rejected && was[i].user == user && was[i].kind == Withdrawal && now[i].linked.None?
    requires was[k].kind == Deposit && was[k].user == user && was[k].currency == was[i].currency
    requires was[i].at <= was[k].at <= was[i].at + 259_200_000_000
    requires 0.98 * was[i].amount <= was[k].amount <= was[i].amount
    ensures exists j :: 0 <= j < |now| && now[j].linked == Some(was[k].id)
  {
    SameButLinks(was, now, user, |was|);
    assert now[k].id == was[k].id;
    NoPairIsLeft(was, now, user, i, k);
  }

  /** A deposit given to a withdrawal is its earliest of those that no other row already had. */
  lemma EarliestIsGiven(was: seq<Row>, now: seq<Row>, user: int, i: nat, d: nat, k: nat)
    requires Valid(now) && Linked(was, now, user, |was|) && i < |was| && d < |was| && k < |was|
    requires now[i] != was[i] && now[i].linked == Some(was[d].id)
    requires was[k].kind == Deposit && was[k].user == user && was[k].currency == was[i].currency
    requires was[i].at <= was[k].at < was[d].at && 0.98 * was[i].amount <= was[k].amount <= was[i].amount
    ensures exists j :: 0 <= j < |now| && now[j].linked == Some(was[k].id) && (was[j].linked.Some? || j < i)
  {
    SameButLinks(was, now, user, |was|);
    var e :| 0 <= e < |was| && Given(was, now, i, e)
      && forall m :: 0 <= m < |was| && Candidate(was[i], was[m]) && was[m].at < was[e].at ==> Taken(was, now, m, i);
    assert now[e].id == was[e].id && now[d].id == was[d].id;
    assert e == d;
    assert Candidate(was[i], was[k]);
    assert Taken(was, now, k, i);
  }

  /** No withdrawal and deposit that could still be linked are left. */
  lemma NoPairIsLeft(was: seq<Row>, now: seq<Row>, user: int, i: nat, k: nat)
    requires Linked(was, now, user, |was|) && i < |was| && k < |was|
    requires Open(now[i], user) && Candidate(now[i], now[k])
    ensures exists j :: 0 <= j < |now| && now[j].linked == Some(now[k].id)
  {
    SameButLinks(was, now, user, |was|);
    assert Candidate(was[i], was[k]) && Served(was, now, i);
    assert Taken(was, now, k, i);
  }

  /** A second run changes nothing. */
  lemma SecondRunChangesNothing(was: seq<Row>, now: seq<Row>, again: seq<Row>, user: int)
    requires Linked(was, now, user, |was|) && Linked(now, again, user, |now|) && Valid(again)
    ensures again == now
  {
    SameButLinks(was, now, user, |was|);
    forall i | 0 <= i < |now|
      ensures again[i] == now[i]
    {
      if again[i] != now[i] {
        NewLinksAreValid(now, again, user, i);
        var d :| 0 <= d < |now| && Given(now, again, i, d);
        NotGivenTwice(was, now, again, user, i, d);
      }
    }
  }

  lemma NotGivenTwice(was: seq<Row>, now: seq<Row>, again: seq<Row>, user: int, i: nat, d: nat)
    requires Linked(was, now, user, |was|) && Linked(now, again, user, |now|) && Valid(again)
    requires i < |now| && d < |now| && Open(now[i], user) && Candidate(now[i], now[d])
    ensures again[i].linked != Some(now[d].id)
  {
    NoPairIsLeft(was, now, user, i, d);
    var j :| 0 <= j < |now| && now[j].linked == Some(now[d].id);
    assert again[j].linked == now[j].linked && j != i;
  }

  /** Two deposits of one user in one currency never share a moment. */
  ghost predicate DepositsApart(rows: seq<Row>) {
    forall i, j ::
      && 0 <= i < |rows| && 0 <= j < |rows| && rows[i].kind == Deposit && rows[j].kind == Deposit
      && rows[i].user == rows[j].user && rows[i].currency == rows[j].currency && rows[i].at == rows[j].at
      ==> i == j
  }

  /** Then there is one way to link. */
  lemma {:induction false} OneOutcome(was: seq<Row>, a: seq<Row>, b: seq<Row>, user: int, n: nat)
    requires DepositsApart(was) && Valid(a) && Valid(b) && n <= |was|
    requires Linked(was, a, user, |was|) && Linked(was, b, user, |was|)
    ensures a[..n] == b[..n]
  {
    if n > 0 {
      var i := n - 1;
      OneOutcome(was, a, b, user, i);
      assert forall j :: 0 <= j < i ==> a[j] == a[..i][j] && b[j] == b[..i][j];
      if a[i] != was[i] {
        SameService(was, a, b, user, i);
      } else if b[i] != was[i] {
        SameService(was, b, a, user, i);
      }
      assert a[..n] == a[..i] + [a[i]] && b[..n] == b[..i] + [b[i]];
    }
  }

  /** What one outcome gave this withdrawal nobody had before it in the other. */
  lemma NotTaken(was: seq<Row>, a: seq<Row>, b: seq<Row>, user: int, i: nat, d: nat)
    requires Valid(a) && i < |was| && d < |was|
    requires Linked(was, a, user, |was|) && Linked(was, b, user, |was|) && Given(was, a, i, d)
    requires forall j :: 0 <= j < i ==> a[j] == b[j]
    ensures !Taken(was, b, d, i)
  {
    SameButLinks(was, a, user, |was|);
    SameButLinks(was, b, user, |was|);
    forall j | 0 <= j < |b| && (was[j].linked.Some? || j < i)
      ensures b[j].linked != Some(was[d].id)
    {
      assert a[j] == b[j] && j != i;
    }
  }

  /** The other outcome gave this withdrawal something at least as early. */
  lemma NoLater(was: seq<Row>, a: seq<Row>, b: seq<Row>, user: int, i: nat, d: nat)
    requires Valid(a) && i < |was| && d < |was|
    requires Linked(was, a, user, |was|) && Linked(was, b, user, |was|) && Given(was, a, i, d)
    requires forall j :: 0 <= j < i ==> a[j] == b[j]
    ensures exists e :: 0 <= e < |was| && Given(was, b, i, e) && was[e].at <= was[d].at
  {
    NotTaken(was, a, b, user, i, d);
    assert Open(was[i], user) && Served(was, b, i);
  }

  lemma SameService(was: seq<Row>, a: seq<Row>, b: seq<Row>, user: int, i: nat)
    requires DepositsApart(was) && Valid(a) && Valid(b) && i < |was|
    requires Linked(was, a, user, |was|) && Linked(was, b, user, |was|) && a[i] != was[i]
    requires forall j :: 0 <= j < i ==> a[j] == b[j]
    ensures a[i] == b[i]
  {
    var d :| 0 <= d < |was| && Given(was, a, i, d);
    NoLater(was, a, b, user, i, d);
    var e :| 0 <= e < |was| && Given(was, b, i, e) && was[e].at <= was[d].at;
    NoLater(was, b, a, user, i, e);
    var f :| 0 <= f < |was| && Given(was, a, i, f) && was[f].at <= was[e].at;
    SameButLinks(was, a, user, |was|);
    assert was[f].id == was[d].id && a[f].id == a[d].id;
    assert f == d;
  }

  // ---- how much of what was sent arrived -----------------------------------------------------------

  function AmountOf(rows: seq<Row>, id: int): real {
    if rows == [] then 0.0
    else if rows[|rows| - 1].id == id then rows[|rows| - 1].amount
    else AmountOf(rows[..|rows| - 1], id)
  }

  /** What the withdrawals among the first n that the run linked sent, and what their deposits received. */
  function Sent(was: seq<Row>, now: seq<Row>, n: nat): real
    requires n <= |was| == |now|
  {
    if n == 0 then 0.0 else Sent(was, now, n - 1) + if now[n - 1].linked != was[n - 1].linked then now[n - 1].amount else 0.0
  }

  function Received(was: seq<Row>, now: seq<Row>, n: nat): real
    requires n <= |was| == |now|
  {
    if n == 0 then 0.0
    else Received(was, now, n - 1) +
         if now[n - 1].linked != was[n - 1].linked && now[n - 1].linked.Some? then AmountOf(now, now[n - 1].linked.value) else 0.0
  }

  lemma {:induction false} AmountOfRow(rows: seq<Row>, k: nat)
    requires k < |rows| && forall i, j :: 0 <= i < j < |rows| ==> rows[i].id < rows[j].id
    ensures AmountOf(rows, rows[k].id) == rows[k].amount
  {
    if k < |rows| - 1 {
      AmountOfRow(rows[..|rows| - 1], k);
    }
  }

  /** Of all that the linked withdrawals sent, between 98 and 100 percent arrived. */
  lemma {:induction false} FeesAreSmall(was: seq<Row>, now: seq<Row>, user: int, n: nat)
    requires Valid(now) && Linked(was, now, user, |was|) && n <= |was|
    ensures 0.98 * Sent(was, now, n) <= Received(was, now, n) <= Sent(was, now, n)
  {
    if n > 0 {
      FeesAreSmall(was, now, user, n - 1);
      if now[n - 1].linked != was[n - 1].linked {
        SameButLinks(was, now, user, |was|);
        var d :| 0 <= d < |was| && Given(was, now, n - 1, d);
        AmountOfRow(now, d);
        assert now[d].amount == was[d].amount && now[d].id == was[d].id;
      }
    }
  }
}
