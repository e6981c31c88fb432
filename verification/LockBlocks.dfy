/** One `with_lock` block from call to end, statement by statement. */
module LockBlocks {
  import opened Prelude
  import opened IbkrLock

  lemma RunNext(s: State, step: Step, rest: seq<Step>)
    requires Enabled(s, step)
    ensures Legal(s, [step] + rest) <==> Legal(Apply(s, step), rest)
    ensures Legal(Apply(s, step), rest) ==> Run(s, [step] + rest) == Run(Apply(s, step), rest)
  {
    assert ([step] + rest)[1..] == rest;
  }

  lemma RunNothing(s: State)
    ensures Legal(s, []) && Run(s, []) == s
  {
  }

  /** The thread is between two statements and can make one. */
  predicate Idle(s: State, who: nat) {
    who < |s.threads| && s.threads[who].doing == Working
  }

  /** A try on a key that is free or has run out puts the thread inside, with a row that lasts its time from the clock. */
  lemma TryOnAFreeKey(s: State, who: nat)
    requires who < |s.threads| && s.threads[who].doing.Acquiring? && s.threads[who].doing.read == s.clock
    requires var key := s.threads[who].doing.key; key in s.rows ==> s.rows[key].expires < s.clock
    ensures Legal(s, [Read(who), Reclaim(who), Insert(who)])
    ensures var th := s.threads[who];
            var lock := Lock(th.doing.owner, s.clock + th.doing.ttl);
            Run(s, [Read(who), Reclaim(who), Insert(who)])
            == s.(rows := s.rows[th.doing.key := lock], threads := s.threads[who := Granted(th, lock)])
  {
    var th := s.threads[who];
    var lock := Lock(th.doing.owner, s.clock + th.doing.ttl);
    ReadNow(s, who);
    var s1 := s.(rows := s.rows - {th.doing.key});
    ReclaimedIs(s, who);
    var s2 := s.(rows := s.rows[th.doing.key := lock], threads := s.threads[who := Granted(th, lock)]);
    assert s1.rows[th.doing.key := lock] == s.rows[th.doing.key := lock];
    InsertedIs(s1, who);
    hide Granted, Apply, Enabled;
    RunNothing(s2);
    Chained(s, Read(who), s, [Reclaim(who), Insert(who)]);
    Chained(s, Reclaim(who), s1, [Insert(who)]);
    Chained(s1, Insert(who), s2, []);
  }

  lemma ReclaimedIs(s: State, who: nat)
    requires Enabled(s, Reclaim(who)) && s.threads[who].doing.read == s.clock
    requires var key := s.threads[who].doing.key; key in s.rows ==> s.rows[key].expires < s.clock
    ensures Apply(s, Reclaim(who)) == s.(rows := s.rows - {s.threads[who].doing.key})
  {
    var key := s.threads[who].doing.key;
    assert key !in s.rows ==> s.rows - {key} == s.rows;
  }

  lemma InsertedIs(s: State, who: nat)
    requires Enabled(s, Insert(who)) && s.threads[who].doing.key !in s.rows
    ensures var th := s.threads[who];
            var lock := Lock(th.doing.owner, th.doing.read + th.doing.ttl);
            Apply(s, Insert(who))
            == s.(rows := s.rows[th.doing.key := lock], threads := s.threads[who := Granted(th, lock)])
  {
    hide Granted;
  }

  /** Reading the clock again in the same moment changes nothing. */
  lemma ReadNow(s: State, who: nat)
    requires who < |s.threads| && s.threads[who].doing.Acquiring? && s.threads[who].doing.read == s.clock
    ensures Enabled(s, Read(who)) && Apply(s, Read(who)) == s
  {
    assert s.threads[who].(doing := s.threads[who].doing.(read := s.clock)) == s.threads[who];
  }

  lemma Chained(s: State, step: Step, next: State, rest: seq<Step>)
    requires Enabled(s, step) && Apply(s, step) == next
    ensures Legal(s, [step] + rest) <==> Legal(next, rest)
    ensures Legal(next, rest) ==> Run(s, [step] + rest) == Run(next, rest)
  {
    RunNext(s, step, rest);
  }

  /** So a block for such a key is inside at once. */
  lemma BlockTakesAFreeKey(s: State, who: nat, key: string, ttl: Time)
    requires Idle(s, who) && key !in s.threads[who].held && (key in s.rows ==> s.rows[key].expires < s.clock)
    ensures Enabled(s, Enter(who, key, ttl))
    ensures var s1, lock, th := Apply(s, Enter(who, key, ttl)), Lock(s.drawn, s.clock + ttl), s.threads[who];
            && Legal(s1, [Read(who), Reclaim(who), Insert(who)])
            && Run(s1, [Read(who), Reclaim(who), Insert(who)])
               == State(s.rows[key := lock],
                        s.threads[who := Thread(th.held[key := s.drawn], th.frames + [Frame(key, Some(lock))], Working)],
                        s.drawn + 1, s.clock)
  {
    var s1 := Apply(s, Enter(who, key, ttl));
    assert s1.threads[who].doing == Acquiring(key, s.drawn, ttl, s.clock);
    TryOnAFreeKey(s1, who);
  }

  /** A try on a key that another holds changes nothing. */
  lemma TryOnAHeldKey(s: State, who: nat)
    requires who < |s.threads| && s.threads[who].doing.Acquiring? && s.threads[who].doing.read == s.clock
    requires var key := s.threads[who].doing.key; key in s.rows && s.clock <= s.rows[key].expires
    ensures Legal(s, [Read(who), Reclaim(who), Insert(who)]) && Run(s, [Read(who), Reclaim(who), Insert(who)]) == s
  {
    ReadNow(s, who);
    assert Apply(s, Reclaim(who)) == s && Apply(s, Insert(who)) == s;
    RunNothing(s);
    RunNext(s, Insert(who), []);
    RunNext(s, Reclaim(who), [Insert(who)]);
    RunNext(s, Read(who), [Reclaim(who), Insert(who)]);
    assert [Read(who), Reclaim(who), Insert(who)] == [Read(who)] + [Reclaim(who), Insert(who)];
    assert [Reclaim(who), Insert(who)] == [Reclaim(who)] + [Insert(who)] && [Insert(who)] == [Insert(who)] + [];
  }

  /** So a block for it waits, and giving up leaves everything as it was but the owner drawn for it. */
  lemma BlockWaits(s: State, who: nat, key: string, ttl: Time)
    requires Idle(s, who) && key !in s.threads[who].held && key in s.rows && s.clock <= s.rows[key].expires
    ensures Enabled(s, Enter(who, key, ttl))
    ensures var s1 := Apply(s, Enter(who, key, ttl));
            && s1.rows == s.rows && s1.clock == s.clock && |s1.threads| == |s.threads|
            && s1.threads[who].doing == Acquiring(key, s.drawn, ttl, s.clock)
            && Legal(s1, [Read(who), Reclaim(who), Insert(who)]) && Run(s1, [Read(who), Reclaim(who), Insert(who)]) == s1
            && Enabled(s1, TimeOut(who)) && Apply(s1, TimeOut(who)) == s.(drawn := s.drawn + 1)
  {
    var s1 := Apply(s, Enter(who, key, ttl));
    TryOnAHeldKey(s1, who);
    assert Apply(s1, TimeOut(who)).threads == s.threads;
  }

  /** A block for a key the thread holds already is inside at once, and ends without a release. */
  lemma NestedBlock(s: State, who: nat, key: string, ttl: Time)
    requires Idle(s, who) && key in s.threads[who].held
    ensures Legal(s, [Enter(who, key, ttl), Leave(who)])
    ensures var th := s.threads[who];
            && Run(s, [Enter(who, key, ttl)])
               == s.(threads := s.threads[who := th.(frames := th.frames + [Frame(key, None)])], drawn := s.drawn + 1)
            && Run(s, [Enter(who, key, ttl), Leave(who)]) == s.(drawn := s.drawn + 1)
  {
    var th := s.threads[who];
    var s1 := Apply(s, Enter(who, key, ttl));
    assert s1.threads[who].frames == th.frames + [Frame(key, None)];
    var s2 := Apply(s1, Leave(who));
    assert (th.frames + [Frame(key, None)])[..|th.frames|] == th.frames;
    assert s2.threads == s.threads;
    RunNothing(s1);
    RunNothing(s2);
    RunNext(s1, Leave(who), []);
    RunNext(s, Enter(who, key, ttl), []);
    RunNext(s, Enter(who, key, ttl), [Leave(who)]);
    assert [Leave(who)] == [Leave(who)] + [] && [Enter(who, key, ttl)] == [Enter(who, key, ttl)] + [];
    assert [Enter(who, key, ttl), Leave(who)] == [Enter(who, key, ttl)] + [Leave(who)];
  }

  /** A release that cannot be made leaves the row to run out, and the thread goes on. */
  lemma AbandonedRelease(s: State, who: nat)
    requires who < |s.threads| && s.threads[who].doing.Releasing?
    ensures Enabled(s, Abandon(who))
    ensures Apply(s, Abandon(who)) == s.(threads := s.threads[who := s.threads[who].(doing := Working)])
  {
  }

  /** Time only passes forward, and changes nothing else. */
  lemma TimePasses(s: State, to: Time)
    ensures Enabled(s, Tick(to)) <==> s.clock <= to
    ensures s.clock <= to ==> Apply(s, Tick(to)) == s.(clock := to)
  {
  }
}
