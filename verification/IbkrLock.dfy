/** A lock row per key, shared by every thread of every process, that expires by itself. */
module IbkrLock {
  import opened Prelude

  type Time = int

  datatype Lock = Lock(owner: nat, expires: Time)

  type Rows = map<string, Lock>

  function Reclaimed(rows: Rows, key: string, now: Time): Rows {
    if key in rows && rows[key].expires < now then rows - {key} else rows
  }

  function Released(rows: Rows, key: string, owner: nat): Rows {
    if key in rows && rows[key].owner == owner then rows - {key} else rows
  }

  // ---- the table and its statements ----------------------------------------------------------------

  /** One try of the acquire loop: the wall clock it reads, and the monotonic clock after it fails. */
  datatype Try = Try(wall: Time, monotonic: Time)

  class LockTable {
    var rows: Rows

    constructor ()
      ensures rows == map[]
    {
      rows := map[];
    }

    method ReclaimStale(key: string, now: Time)
      modifies this
      ensures rows == Reclaimed(old(rows), key, now)
      ensures key in rows <==> key in old(rows) && now <= old(rows)[key].expires
      ensures forall other :: other != key ==>
                (other in rows <==> other in old(rows)) && (other in rows ==> rows[other] == old(rows)[other])
    {
      if key in rows && rows[key].expires < now {
        rows := rows - {key};
      }
    }

    /** The unique index on the key decides. */
    method Create(key: string, lock: Lock) returns (created: bool)
      modifies this
      ensures created <==> key !in old(rows)
      ensures rows == if created then old(rows)[key := lock] else old(rows)
    {
      created := key !in rows;
      if created {
        rows := rows[key := lock];
      }
    }

    method Release(key: string, owner: nat)
      modifies this
      ensures rows == Released(old(rows), key, owner)
      ensures key in rows <==> key in old(rows) && old(rows)[key].owner != owner
      ensures forall other :: other in rows ==> other in old(rows) && rows[other] == old(rows)[other]
      ensures forall other :: other in old(rows) && other != key ==> other in rows
    {
      if key in rows && rows[key].owner == owner {
        rows := rows - {key};
      }
    }

    /** Tries until the row is gone or has run out, or the wait is over. */
    method Acquire(key: string, owner: nat, ttl: Time, deadline: Time, tries: seq<Try>) returns (won: Option<nat>)
      requires tries != [] && tries[|tries| - 1].monotonic >= deadline
      modifies this
      ensures match won
              case Some(n) =>
                && n < |tries| && (key in old(rows) ==> old(rows)[key].expires < tries[n].wall)
                && rows == old(rows)[key := Lock(owner, tries[n].wall + ttl)]
                && (forall i :: 0 <= i < n ==> tries[i].monotonic < deadline)
                && (n > 0 ==> key in old(rows) && forall i :: 0 <= i < n ==> tries[i].wall <= old(rows)[key].expires)
              case None =>
                && rows == old(rows) && key in rows
                && exists n :: 0 <= n < |tries| && tries[n].monotonic >= deadline
                               && forall i :: 0 <= i <= n ==> tries[i].wall <= rows[key].expires
    {
      var i := 0;
      while i < |tries|
        invariant i <= |tries| && rows == old(rows)
        invariant forall j :: 0 <= j < i ==> tries[j].monotonic < deadline
        invariant i > 0 ==> key in rows && forall j :: 0 <= j < i ==> tries[j].wall <= rows[key].expires
      {
        ReclaimStale(key, tries[i].wall);
        var created := Create(key, Lock(owner, tries[i].wall + ttl));
        if created {
          assert rows == old(rows)[key := Lock(owner, tries[i].wall + ttl)];
          assert key !in old(rows) || old(rows)[key].expires < tries[i].wall;
          return Some(i);
        }
        if tries[i].monotonic >= deadline {
          assert forall j :: 0 <= j <= i ==> tries[j].wall <= rows[key].expires;
          return None;
        }
        i := i + 1;
      }
      return None;
    }
  }

  // ---- any number of threads, interleaved ----------------------------------------------------------

  /** One `with_lock` block on a thread's stack: the hold it took, or nothing when the thread already held the key. */
  datatype Frame = Frame(key: string, hold: Option<Lock>)

  /** What a thread is doing between two statements. */
  datatype Doing = Working | Acquiring(key: string, owner: nat, ttl: Time, read: Time) | Releasing(key: string, owner: nat)

  datatype Thread = Thread(held: map<string, nat>, frames: seq<Frame>, doing: Doing)

  /** Owners are drawn in order, standing for identifiers that never repeat. */
  datatype State = State(rows: Rows, threads: seq<Thread>, drawn: nat, clock: Time)

  datatype Step =
    | Enter(who: nat, key: string, ttl: Time)  // with_lock is called
    | Read(who: nat)                           // reads the clock for the next statement
    | Reclaim(who: nat)                        // deletes the row that had run out at that reading
    | Insert(who: nat)                         // inserts a row that lasts from that reading
    | TimeOut(who: nat)                        // gives up waiting
    | Leave(who: nat)                          // the block ends
    | Delete(who: nat)                         // deletes its own row
    | Abandon(who: nat)                        // the delete failed: left to run out
    | Tick(to: Time)

  predicate Enabled(s: State, step: Step) {
    match step
    case Tick(to) => s.clock <= to
    case Enter(who, _, _) => who < |s.threads| && s.threads[who].doing.Working?
    case Leave(who) => who < |s.threads| && s.threads[who].doing.Working? && s.threads[who].frames != []
    case Read(who) => who < |s.threads| && s.threads[who].doing.Acquiring?
    case Reclaim(who) => who < |s.threads| && s.threads[who].doing.Acquiring?
    case Insert(who) => who < |s.threads| && s.threads[who].doing.Acquiring?
    case TimeOut(who) => who < |s.threads| && s.threads[who].doing.Acquiring?
    case Delete(who) => who < |s.threads| && s.threads[who].doing.Releasing?
    case Abandon(who) => who < |s.threads| && s.threads[who].doing.Releasing?
  }

  function Entered(th: Thread, key: string, ttl: Time, owner: nat, now: Time): Thread {
    if key in th.held then th.(frames := th.frames + [Frame(key, None)])
    else th.(doing := Acquiring(key, owner, ttl, now))
  }

  function Granted(th: Thread, lock: Lock): Thread
    requires th.doing.Acquiring?
  {
    th.(held := th.held[th.doing.key := lock.owner], frames := th.frames + [Frame(th.doing.key, Some(lock))], doing := Working)
  }

  function Left(th: Thread): Thread
    requires th.frames != []
  {
    var top := th.frames[|th.frames| - 1];
    var popped := th.(frames := th.frames[..|th.frames| - 1]);
    if top.hold.None? then popped
    else popped.(held := th.held - {top.key}, doing := Releasing(top.key, top.hold.value.owner))
  }

  function Apply(s: State, step: Step): State
    requires Enabled(s, step)
  {
    match step
    case Tick(to) => s.(clock := to)
    case Enter(who, key, ttl) =>
      s.(threads := s.threads[who := Entered(s.threads[who], key, ttl, s.drawn, s.clock)], drawn := s.drawn + 1)
    case Read(who) =>
      s.(threads := s.threads[who := s.threads[who].(doing := s.threads[who].doing.(read := s.clock))])
    case Reclaim(who) =>
      s.(rows := Reclaimed(s.rows, s.threads[who].doing.key, s.threads[who].doing.read))
    case Insert(who) =>
      var doing := s.threads[who].doing;
      var lock := Lock(doing.owner, doing.read + doing.ttl);
      if doing.key in s.rows then s
      else s.(rows := s.rows[doing.key := lock], threads := s.threads[who := Granted(s.threads[who], lock)])
    case TimeOut(who) => s.(threads := s.threads[who := s.threads[who].(doing := Working)])
    case Leave(who) => s.(threads := s.threads[who := Left(s.threads[who])])
    case Delete(who) =>
      var doing := s.threads[who].doing;
      s.(rows := Released(s.rows, doing.key, doing.owner), threads := s.threads[who := s.threads[who].(doing := Working)])
    case Abandon(who) => s.(threads := s.threads[who := s.threads[who].(doing := Working)])
  }

  predicate Legal(s: State, steps: seq<Step>)
    decreases |steps|
  {
    steps == [] || (Enabled(s, steps[0]) && Legal(Apply(s, steps[0]), steps[1..]))
  }

  function Run(s: State, steps: seq<Step>): State
    requires Legal(s, steps)
    decreases |steps|
  {
    if steps == [] then s else Run(Apply(s, steps[0]), steps[1..])
  }

  /** Nobody is in a block; any rows may be left over from before. */
  ghost predicate Start(s: State) {
    && (forall th :: th in s.threads ==> th == Thread(map[], [], Working))
  }

  /** Some run from such a start ends here. */
  ghost predicate Reachable(s: State) {
    exists start, steps :: Start(start) && Legal(start, steps) && Run(start, steps) == s
  }

  // ---- what every run keeps ------------------------------------------------------------------------

  /** The thread is inside a block for the key. */
  ghost predicate Inside(th: Thread, key: string) {
    exists f :: f in th.frames && f.key == key
  }

  /** The hold a thread's blocks for this key rest on. */
  ghost predicate Holds(th: Thread, key: string, lock: Lock) {
    Frame(key, Some(lock)) in th.frames
  }

  /** Block i is the one that took the key: every other block for it is nested inside and took nothing. */
  ghost predicate Outermost(frames: seq<Frame>, held: map<string, nat>, key: string, i: nat) {
    && i < |frames| && key in held
    && frames[i].key == key && frames[i].hold.Some? && frames[i].hold.value.owner == held[key]
    && forall j :: 0 <= j < |frames| && j != i && frames[j].key == key ==> i < j && frames[j].hold.None?
  }

  /** What a thread holds is exactly what its outermost blocks took. */
  ghost predicate Nested(th: Thread) {
    && (forall i :: 0 <= i < |th.frames| ==> th.frames[i].key in th.held)
    && (forall key :: key in th.held ==> exists i: nat :: Outermost(th.frames, th.held, key, i))
    && (!th.doing.Working? ==> th.doing.key !in th.held)
  }

  /** The thread has this owner: in a hold, a try or a release. */
  ghost predicate Owns(th: Thread, owner: nat) {
    || (exists f :: f in th.frames && f.hold.Some? && f.hold.value.owner == owner)
    || (!th.doing.Working? && th.doing.owner == owner)
  }

  /** No owner belongs to two threads. */
  ghost predicate OwnersApart(threads: seq<Thread>, drawn: nat) {
    && (forall t, owner: nat :: 0 <= t < |threads| && Owns(threads[t], owner) ==> owner < drawn)
    && (forall t, u, owner: nat ::
          0 <= t < |threads| && 0 <= u < |threads| && Owns(threads[t], owner) && Owns(threads[u], owner) ==> t == u)
  }

  ghost predicate Sound(th: Thread, clock: Time) {
    Nested(th) && (th.doing.Acquiring? ==> th.doing.read <= clock)
  }

  /** A hold that has not run out has its row. */
  ghost predicate Backed(th: Thread, rows: Rows, clock: Time) {
    forall key, lock :: Holds(th, key, lock) && clock <= lock.expires ==> key in rows && rows[key] == lock
  }

  ghost predicate Inv(s: State) {
    && OwnersApart(s.threads, s.drawn)
    && (forall t :: 0 <= t < |s.threads| ==> Sound(s.threads[t], s.clock))
    && (forall t :: 0 <= t < |s.threads| ==> Backed(s.threads[t], s.rows, s.clock))
  }

  // ---- a thread's stack ----------------------------------------------------------------------------

  lemma EnteredIsNested(th: Thread, key: string, ttl: Time, owner: nat, now: Time)
    requires Nested(th) && th.doing.Working?
    ensures var after := Entered(th, key, ttl, owner, now);
            && Nested(after)
            && (forall k, lock :: Holds(after, k, lock) ==> Holds(th, k, lock))
            && (forall o: nat :: Owns(after, o) ==> o == owner || Owns(th, o))
  {
    if key in th.held {
      var after := Entered(th, key, ttl, owner, now);
      assert forall f :: f in after.frames ==> f in th.frames || f.hold.None?;
      forall k | k in after.held
        ensures exists i: nat :: Outermost(after.frames, after.held, k, i)
      {
        var i: nat :| Outermost(th.frames, th.held, k, i);
        assert Outermost(after.frames, after.held, k, i);
      }
    }
  }

  lemma GrantedIsNested(th: Thread, lock: Lock)
    requires Nested(th) && th.doing.Acquiring? && lock.owner == th.doing.owner
    ensures Nested(Granted(th, lock))
    ensures forall k, l :: Holds(Granted(th, lock), k, l) <==> Holds(th, k, l) || (k == th.doing.key && l == lock)
    ensures forall o: nat :: Owns(Granted(th, lock), o) ==> Owns(th, o)
  {
    var after := Granted(th, lock);
    assert forall f :: f in after.frames <==> f in th.frames || f == Frame(th.doing.key, Some(lock));
    forall k | k in after.held
      ensures exists i: nat :: Outermost(after.frames, after.held, k, i)
    {
      if k == th.doing.key {
        assert Outermost(after.frames, after.held, k, |th.frames|);
      } else {
        var i: nat :| Outermost(th.frames, th.held, k, i);
        assert Outermost(after.frames, after.held, k, i);
      }
    }
  }

  lemma LeftIsNested(th: Thread)
    requires Nested(th) && th.doing.Working? && th.frames != []
    ensures Nested(Left(th))
    ensures forall k, lock :: Holds(Left(th), k, lock) ==> Holds(th, k, lock)
    ensures forall o: nat :: Owns(Left(th), o) ==> Owns(th, o)
  {
    var after := Left(th);
    var n := |th.frames| - 1;
    var top := th.frames[n];
    var own: nat :| Outermost(th.frames, th.held, top.key, own);
    forall k | k in after.held
      ensures exists i: nat :: Outermost(after.frames, after.held, k, i)
    {
      var i: nat :| Outermost(th.frames, th.held, k, i);
      assert Outermost(after.frames, after.held, k, i);
    }
  }

  // ---- one step ------------------------------------------------------------------------------------

  /** A thread that draws no owner but a new one, or gives some up, leaves the owners apart. */
  lemma OwnersStayApart(threads: seq<Thread>, who: nat, th: Thread, drawn: nat, drawn': nat)
    requires OwnersApart(threads, drawn) && who < |threads| && drawn <= drawn'
    requires forall o: nat :: Owns(th, o) ==> Owns(threads[who], o) || drawn <= o < drawn'
    ensures OwnersApart(threads[who := th], drawn')
  {
  }

  /** The rows may lose what is not an unexpired hold. */
  lemma StaysBacked(threads: seq<Thread>, rows: Rows, rows': Rows, clock: Time)
    requires forall t :: 0 <= t < |threads| ==> Backed(threads[t], rows, clock)
    requires forall t, key, lock ::
               0 <= t < |threads| && Holds(threads[t], key, lock) && clock <= lock.expires && key in rows && rows[key] == lock ==>
               key in rows' && rows'[key] == lock
    ensures forall t :: 0 <= t < |threads| ==> Backed(threads[t], rows', clock)
  {
  }

  lemma ThreadStep(s: State, who: nat, th: Thread, drawn: nat)
    requires Inv(s) && who < |s.threads| && s.drawn <= drawn
    requires Sound(th, s.clock)
    requires forall o: nat :: Owns(th, o) ==> Owns(s.threads[who], o) || s.drawn <= o < drawn
    requires forall k, lock :: Holds(th, k, lock) ==> Holds(s.threads[who], k, lock)
    ensures Inv(s.(threads := s.threads[who := th], drawn := drawn))
  {
    OwnersStayApart(s.threads, who, th, s.drawn, drawn);
    assert Backed(th, s.rows, s.clock) by {
      assert Backed(s.threads[who], s.rows, s.clock);
    }
  }

  lemma ReclaimSpares(s: State, who: nat)
    requires Inv(s) && Enabled(s, Reclaim(who))
    ensures Inv(Apply(s, Reclaim(who)))
  {
    assert Sound(s.threads[who], s.clock);
    StaysBacked(s.threads, s.rows, Apply(s, Reclaim(who)).rows, s.clock);
  }

  /** A key without a row has no unexpired hold, so a new row takes none away. */
  lemma InsertIsBacked(s: State, who: nat)
    requires Inv(s) && Enabled(s, Insert(who))
    ensures Inv(Apply(s, Insert(who)))
  {
    var th := s.threads[who];
    if th.doing.key !in s.rows {
      var lock := Lock(th.doing.owner, th.doing.read + th.doing.ttl);
      assert Sound(th, s.clock);
      GrantedIsNested(th, lock);
      OwnersStayApart(s.threads, who, Granted(th, lock), s.drawn, s.drawn);
      forall t | 0 <= t < |s.threads|
        ensures Backed(s.threads[t], s.rows[th.doing.key := lock], s.clock)
      {
        InsertedBacks(s.threads[t], s.rows, th.doing.key, lock, s.clock);
      }
      GrantedIsBacked(th, lock, s.rows[th.doing.key := lock], s.clock);
      hide Nested, Holds, Backed, Owns, OwnersApart, Granted;
      var after := Apply(s, Insert(who));
      assert after.threads == s.threads[who := Granted(th, lock)];
    }
  }

  lemma InsertedBacks(th: Thread, rows: Rows, key: string, lock: Lock, clock: Time)
    requires Backed(th, rows, clock) && key !in rows
    ensures Backed(th, rows[key := lock], clock)
  {
  }

  lemma GrantedIsBacked(th: Thread, lock: Lock, rows: Rows, clock: Time)
    requires th.doing.Acquiring? && Backed(th, rows, clock) && th.doing.key in rows && rows[th.doing.key] == lock
    ensures Backed(Granted(th, lock), rows, clock)
  {
    forall k, l | Holds(Granted(th, lock), k, l)
      ensures Holds(th, k, l) || (k == th.doing.key && l == lock)
    {
    }
  }

  /** A release, however late, leaves every other hold's row. */
  lemma DeleteSparesOthers(s: State, who: nat)
    requires Inv(s) && Enabled(s, Delete(who))
    ensures forall t, key, lock ::
              0 <= t < |s.threads| && Holds(s.threads[t], key, lock) && key in s.rows && s.rows[key] == lock ==>
              key in Apply(s, Delete(who)).rows && Apply(s, Delete(who)).rows[key] == lock
  {
    var doing := s.threads[who].doing;
    forall t, key, lock | 0 <= t < |s.threads| && Holds(s.threads[t], key, lock) && key in s.rows && s.rows[key] == lock
      ensures key != doing.key || lock.owner != doing.owner
    {
      assert Owns(s.threads[t], lock.owner);
      assert Owns(s.threads[who], doing.owner);
      assert Sound(s.threads[who], s.clock);
    }
  }

  lemma DeleteKeepsInv(s: State, who: nat)
    requires Inv(s) && Enabled(s, Delete(who))
    ensures Inv(Apply(s, Delete(who)))
  {
    DeleteSparesOthers(s, who);
    StaysBacked(s.threads, s.rows, Apply(s, Delete(who)).rows, s.clock);
    var mid := s.(rows := Apply(s, Delete(who)).rows);
    assert Sound(s.threads[who], s.clock);
    ThreadStep(mid, who, s.threads[who].(doing := Working), s.drawn);
  }

  lemma StepKeepsInv(s: State, step: Step)
    requires Inv(s) && Enabled(s, step)
    ensures Inv(Apply(s, step))
  {
    match step
    case Tick(_) =>
    case Enter(who, key, ttl) =>
      EnteredIsNested(s.threads[who], key, ttl, s.drawn, s.clock);
      ThreadStep(s, who, Entered(s.threads[who], key, ttl, s.drawn, s.clock), s.drawn + 1);
    case Read(who) =>
      assert Sound(s.threads[who], s.clock);
      ThreadStep(s, who, s.threads[who].(doing := s.threads[who].doing.(read := s.clock)), s.drawn);
    case Reclaim(who) => ReclaimSpares(s, who);
    case Insert(who) => InsertIsBacked(s, who);
    case TimeOut(who) => ThreadStep(s, who, s.threads[who].(doing := Working), s.drawn);
    case Leave(who) =>
      LeftIsNested(s.threads[who]);
      ThreadStep(s, who, Left(s.threads[who]), s.drawn);
    case Delete(who) => DeleteKeepsInv(s, who);
    case Abandon(who) => ThreadStep(s, who, s.threads[who].(doing := Working), s.drawn);
  }

  lemma {:induction false} RunKeepsInv(s: State, steps: seq<Step>)
    requires Inv(s) && Legal(s, steps)
    ensures Inv(Run(s, steps))
    decreases |steps|
  {
    if steps != [] {
      StepKeepsInv(s, steps[0]);
      RunKeepsInv(Apply(s, steps[0]), steps[1..]);
    }
  }

  lemma ReachableKeepsInv(s: State)
    requires Reachable(s)
    ensures Inv(s)
  {
    var start, steps :| Start(start) && Legal(start, steps) && Run(start, steps) == s;
    forall t | 0 <= t < |start.threads|
      ensures start.threads[t] == Thread(map[], [], Working)
    {
      assert start.threads[t] in start.threads;
    }
    RunKeepsInv(start, steps);
  }

  // ---- what that comes to --------------------------------------------------------------------------

  /** Two threads inside blocks for one key: one of them has outlived its hold. */
  lemma MutualExclusion(s: State, t: nat, u: nat, key: string)
    requires Reachable(s) && t < |s.threads| && u < |s.threads| && t != u
    requires Inside(s.threads[t], key) && Inside(s.threads[u], key)
    ensures exists who, lock :: (who == t || who == u) && Holds(s.threads[who], key, lock) && lock.expires < s.clock
  {
    ReachableKeepsInv(s);
    assert Sound(s.threads[t], s.clock) && Sound(s.threads[u], s.clock);
    var k := InsideHolds(s.threads[t], key);
    var l := InsideHolds(s.threads[u], key);
    assert Owns(s.threads[t], k.owner) && Owns(s.threads[u], l.owner);
    assert Backed(s.threads[t], s.rows, s.clock) && Backed(s.threads[u], s.rows, s.clock);
    assert k.owner != l.owner;
    hide Inv;
    if s.clock <= k.expires {
      assert Holds(s.threads[u], key, l) && l.expires < s.clock;
    } else {
      assert Holds(s.threads[t], key, k) && k.expires < s.clock;
    }
  }

  lemma InsideHolds(th: Thread, key: string) returns (lock: Lock)
    requires Nested(th) && Inside(th, key)
    ensures Holds(th, key, lock) && key in th.held && th.held[key] == lock.owner
  {
    var f :| f in th.frames && f.key == key;
    assert key in th.held;
    var i: nat :| Outermost(th.frames, th.held, key, i);
    lock := th.frames[i].hold.value;
    assert th.frames[i] == Frame(key, Some(lock));
  }

  /** Leaving a nested block releases nothing: the thread is still inside, on the same hold. */
  lemma NestedLeaveReleasesNothing(s: State, who: nat)
    requires Reachable(s) && Enabled(s, Leave(who)) && s.threads[who].frames[|s.threads[who].frames| - 1].hold.None?
    ensures var th, after := s.threads[who], Apply(s, Leave(who));
            && after.rows == s.rows && after.threads[who].held == th.held && after.threads[who].doing == Working
            && Inside(after.threads[who], th.frames[|th.frames| - 1].key)
            && (forall k, lock :: Holds(after.threads[who], k, lock) <==> Holds(th, k, lock))
  {
    ReachableKeepsInv(s);
    assert Sound(s.threads[who], s.clock);
    hide Inv, Reachable;
    InnerIsInside(s.threads[who]);
  }

  lemma InnerIsInside(th: Thread)
    requires Nested(th) && th.frames != [] && th.frames[|th.frames| - 1].hold.None?
    ensures Inside(Left(th), th.frames[|th.frames| - 1].key)
    ensures forall k, lock :: Holds(Left(th), k, lock) <==> Holds(th, k, lock)
  {
    var n := |th.frames| - 1;
    var i: nat :| Outermost(th.frames, th.held, th.frames[n].key, i);
    assert th.frames[..n][i] == th.frames[i];
    assert th.frames == th.frames[..n] + [th.frames[n]];
  }

  /** No release in any run, however late, takes a row that another hold rests on. */
  lemma LateReleaseIsSafe(s: State, who: nat, t: nat, key: string, lock: Lock)
    requires Reachable(s) && Enabled(s, Delete(who))
    requires t < |s.threads| && Holds(s.threads[t], key, lock) && key in s.rows && s.rows[key] == lock
    ensures var after := Apply(s, Delete(who)); key in after.rows && after.rows[key] == lock
  {
    ReachableKeepsInv(s);
    DeleteSparesOthers(s, who);
  }

  /** Whatever became of its holder, a row keeps the key from others only until it runs out. */
  lemma ExpiredGivesWay(s: State, who: nat)
    requires Enabled(s, Read(who))
    requires var key := s.threads[who].doing.key; key in s.rows ==> s.rows[key].expires < s.clock
    ensures var steps, doing := [Read(who), Reclaim(who), Insert(who)], s.threads[who].doing;
            && Legal(s, steps)
            && var after := Run(s, steps);
               who < |after.threads| && Holds(after.threads[who], doing.key, Lock(doing.owner, s.clock + doing.ttl))
  {
    var s1 := Apply(s, Read(who));
    var s2 := Apply(s1, Reclaim(who));
    var s3 := Apply(s2, Insert(who));
    assert Legal(s3, []) && Run(s3, []) == s3;
    assert [Insert(who)][1..] == [];
    assert Legal(s2, [Insert(who)]) && Run(s2, [Insert(who)]) == s3;
    assert [Reclaim(who), Insert(who)][1..] == [Insert(who)];
    assert Legal(s1, [Reclaim(who), Insert(who)]) && Run(s1, [Reclaim(who), Insert(who)]) == s3;
    assert [Read(who), Reclaim(who), Insert(who)][1..] == [Reclaim(who), Insert(who)];
  }

  /** A release that finds its own row frees the key, and only it. */
  lemma ReleaseFreesTheKey(s: State, who: nat)
    requires Enabled(s, Delete(who))
    requires var doing := s.threads[who].doing; doing.key in s.rows && s.rows[doing.key].owner == doing.owner
    ensures var key, after := s.threads[who].doing.key, Apply(s, Delete(who));
            && key !in after.rows && after.threads[who].doing == Working && after.clock == s.clock
            && forall other :: other != key ==>
                 (other in after.rows <==> other in s.rows) && (other in s.rows ==> after.rows[other] == s.rows[other])
  {
  }

  /** So whoever is waiting gets the key with its next try, long before the row would have run out. */
  lemma ReleasedIsTakenAtOnce(s: State, who: nat, other: nat)
    requires Enabled(s, Delete(who)) && Enabled(s, Read(other)) && other != who
    requires var doing := s.threads[who].doing; doing.key in s.rows && s.rows[doing.key].owner == doing.owner
    requires s.threads[other].doing.key == s.threads[who].doing.key
    ensures var steps, doing := [Delete(who), Read(other), Reclaim(other), Insert(other)], s.threads[other].doing;
            && Legal(s, steps)
            && var after := Run(s, steps);
               other < |after.threads| && Holds(after.threads[other], doing.key, Lock(doing.owner, s.clock + doing.ttl))
  {
    var s1 := Apply(s, Delete(who));
    ReleaseFreesTheKey(s, who);
    ExpiredGivesWay(s1, other);
    assert [Delete(who), Read(other), Reclaim(other), Insert(other)][1..] == [Read(other), Reclaim(other), Insert(other)];
  }

  /** The block that took the key gives its row back: leaving it and releasing frees the key. */
  lemma BlockGivesTheKeyBack(s: State, who: nat, key: string, lock: Lock)
    requires Reachable(s) && Enabled(s, Leave(who))
    requires s.threads[who].frames[|s.threads[who].frames| - 1] == Frame(key, Some(lock))
    requires key in s.rows && s.rows[key] == lock
    ensures Legal(s, [Leave(who), Delete(who)])
    ensures var after := Run(s, [Leave(who), Delete(who)]);
            key !in after.rows && who < |after.threads| && !Inside(after.threads[who], key) && key !in after.threads[who].held
  {
    ReachableKeepsInv(s);
    assert Sound(s.threads[who], s.clock);
    var s1 := Apply(s, Leave(who));
    var s2 := Apply(s1, Delete(who));
    assert [Leave(who), Delete(who)][1..] == [Delete(who)] && [Delete(who)][1..] == [];
    assert Legal(s2, []) && Run(s2, []) == s2;
    assert Legal(s1, [Delete(who)]) && Run(s1, [Delete(who)]) == s2;
    NothingInsideNow(s.threads[who], key, lock);
    ReleaseFreesTheKey(s1, who);
  }

  lemma NothingInsideNow(th: Thread, key: string, lock: Lock)
    requires Nested(th) && th.doing.Working? && th.frames != [] && th.frames[|th.frames| - 1] == Frame(key, Some(lock))
    ensures !Inside(Left(th), key) && key !in Left(th).held && Left(th).doing == Releasing(key, lock.owner)
  {
    var i: nat :| Outermost(th.frames, th.held, key, i);
    assert i == |th.frames| - 1;
    forall f | f in Left(th).frames
      ensures f.key != key
    {
      var j :| 0 <= j < |th.frames| - 1 && th.frames[..|th.frames| - 1][j] == f;
      assert th.frames[j] == f;
    }
  }
}
