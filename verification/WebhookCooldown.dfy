/**
 The claim a webhook call takes on its rule and hands back when it cannot be kept. The row is shared by
 every request; each statement on it is atomic, and anything may happen between two of them.
 */
module WebhookCooldown {
  import opened Prelude

  type Time = int

  const COOLDOWN: Time := 30_000_000

  /** The condition of the claiming UPDATE. */
  predicate Lapsed(last: Option<Time>, now: Time) {
    last.None? || last.value <= now - COOLDOWN
  }

  // ---- the rule's record in one request ------------------------------------------------------------

  /** The stored row. */
  class RuleRow {
    var last: Option<Time>

    constructor (last: Option<Time>)
      ensures this.last == last
    {
      this.last := last;
    }
  }

  datatype Response = Accepted | Ignored | Unavailable

  /** The record one request loaded, with its own copy of the column. */
  class BotSignal {
    const row: RuleRow
    var last: Option<Time>

    constructor (row: RuleRow)
      ensures this.row == row && last == row.last
    {
      this.row, last := row, row.last;
    }

    method ClaimTrigger(now: Time) returns (claimed: bool)
      modifies row`last, this`last
      ensures claimed <==> Lapsed(old(row.last), now)
      ensures if claimed then row.last == last == Some(now) else row.last == old(row.last) && last == old(last)
    {
      claimed := Lapsed(row.last, now);
      if claimed {
        row.last, last := Some(now), Some(now);
      }
    }

    method ReleaseTrigger(previous: Option<Time>) returns (released: bool)
      modifies row`last, this`last
      ensures released <==> old(row.last) == old(last)
      ensures if released then row.last == last == previous else row.last == old(row.last) && last == old(last)
    {
      released := row.last == last;
      if released {
        row.last, last := previous, previous;
      }
    }
  }

  /** One call from start to end with nobody else on the rule: a call that was not kept leaves no trace. */
  method Create(row: RuleRow, now: Time, runnable: bool, enqueues: bool) returns (response: Response)
    modifies row`last
    ensures response == Ignored <==> !Lapsed(old(row.last), now) || !runnable
    ensures response == Accepted <==> Lapsed(old(row.last), now) && runnable && enqueues
    ensures row.last == if Lapsed(old(row.last), now) && response != Unavailable then Some(now) else old(row.last)
  {
    var signal := new BotSignal(row);
    var previous := signal.last;
    var claimed := signal.ClaimTrigger(now);
    if !claimed || !runnable {
      return Ignored;
    }
    if enqueues {
      return Accepted;
    }
    var released := signal.ReleaseTrigger(previous);
    return Unavailable;
  }

  // ---- any number of requests, interleaved ---------------------------------------------------------

  datatype Phase = Loaded | Stamped | Refused | Claimed | Kept | GivenUp

  /** `stamp` is the now of the claim, `written` the moment its UPDATE ran. */
  datatype Request = Request(previous: Option<Time>, read: Time, stamp: Time, written: Time, phase: Phase)

  datatype State = State(last: Option<Time>, requests: seq<Request>, clock: Time)

  datatype Step =
    | Load(at: Time)
    | Stamp(who: nat, at: Time)
    | Claim(who: nat, at: Time)
    | Keep(who: nat, at: Time)
    | Release(who: nat, at: Time)

  predicate Live(r: Request) {
    r.phase == Claimed || r.phase == Kept
  }

  predicate InPhase(s: State, who: nat, phase: Phase) {
    who < |s.requests| && s.requests[who].phase == phase
  }

  /** `reading` bounds the time from a request's load to its UPDATE, `stamping` the time from its now to it. */
  predicate Enabled(s: State, step: Step, reading: Time, stamping: Time) {
    && s.clock <= step.at
    && match step
       case Load(_) => true
       case Stamp(who, _) => InPhase(s, who, Loaded)
       case Claim(who, at) =>
         InPhase(s, who, Stamped) && at - s.requests[who].read <= reading && at - s.requests[who].stamp <= stamping
       case Keep(who, _) => InPhase(s, who, Claimed)
       case Release(who, _) => InPhase(s, who, Claimed)
  }

  function Apply(s: State, step: Step, reading: Time, stamping: Time): State
    requires Enabled(s, step, reading, stamping)
  {
    var now := s.(clock := step.at);
    match step
    case Load(at) => now.(requests := s.requests + [Request(s.last, at, at, at, Loaded)])
    case Stamp(who, at) => now.(requests := s.requests[who := s.requests[who].(stamp := at, phase := Stamped)])
    case Claim(who, at) =>
      var r := s.requests[who].(written := at);
      if Lapsed(s.last, r.stamp) then
        now.(last := Some(r.stamp), requests := s.requests[who := r.(phase := Claimed)])
      else
        now.(requests := s.requests[who := r.(phase := Refused)])
    case Keep(who, _) => now.(requests := s.requests[who := s.requests[who].(phase := Kept)])
    case Release(who, _) =>
      var r := s.requests[who];
      now.(last := if s.last == Some(r.stamp) then r.previous else s.last,
           requests := s.requests[who := r.(phase := GivenUp)])
  }

  predicate Legal(s: State, steps: seq<Step>, reading: Time, stamping: Time)
    decreases |steps|
  {
    || steps == []
    || (Enabled(s, steps[0], reading, stamping)
        && Legal(Apply(s, steps[0], reading, stamping), steps[1..], reading, stamping))
  }

  function Run(s: State, steps: seq<Step>, reading: Time, stamping: Time): State
    requires Legal(s, steps, reading, stamping)
    decreases |steps|
  {
    if steps == [] then s else Run(Apply(s, steps[0], reading, stamping), steps[1..], reading, stamping)
  }

  /** One request alone, statement by statement: what it loads, its claim and what becomes of that. */
  lemma OneRequest(s: State, at: Time)
    requires s.requests == [] && s.clock <= at
    ensures Legal(s, [Load(at), Stamp(0, at), Claim(0, at)], 0, 0)
    ensures var lapsed, claimed := s.last.None? || s.last.value + 30_000_000 <= at, Run(s, [Load(at), Stamp(0, at), Claim(0, at)], 0, 0);
            && claimed == State(if lapsed then Some(at) else s.last,
                                [Request(s.last, at, at, at, if lapsed then Claimed else Refused)], at)
            && (Enabled(claimed, Keep(0, at), 0, 0) <==> lapsed) && (Enabled(claimed, Release(0, at), 0, 0) <==> lapsed)
            && (lapsed ==> Apply(claimed, Keep(0, at), 0, 0) == State(Some(at), [Request(s.last, at, at, at, Kept)], at))
            && (lapsed ==> Apply(claimed, Release(0, at), 0, 0) == State(s.last, [Request(s.last, at, at, at, GivenUp)], at))
  {
    var s1 := Apply(s, Load(at), 0, 0);
    var s2 := Apply(s1, Stamp(0, at), 0, 0);
    var s3 := Apply(s2, Claim(0, at), 0, 0);
    assert [Load(at), Stamp(0, at), Claim(0, at)][1..] == [Stamp(0, at), Claim(0, at)];
    assert [Stamp(0, at), Claim(0, at)][1..] == [Claim(0, at)] && [Claim(0, at)][1..] == [];
    assert Legal(s3, [], 0, 0) && Run(s3, [], 0, 0) == s3;
    assert Legal(s2, [Claim(0, at)], 0, 0) && Run(s2, [Claim(0, at)], 0, 0) == s3;
    assert Legal(s1, [Stamp(0, at), Claim(0, at)], 0, 0) && Run(s1, [Stamp(0, at), Claim(0, at)], 0, 0) == s3;
  }

  /** No two claims that were not handed back are closer than 30 seconds. */
  ghost predicate Apart(s: State) {
    forall i, j :: 0 <= i < j < |s.requests| && Live(s.requests[i]) && Live(s.requests[j]) ==>
      Gap(s.requests[i].stamp, s.requests[j].stamp) >= 30_000_000
  }

  /** A claim not handed back still turns away every call within 30 seconds of it. */
  ghost predicate Protected(s: State, reading: Time, stamping: Time) {
    forall i, j, at ::
      && 0 <= i < |s.requests| && 0 <= j < |s.requests| && Live(s.requests[i]) && Enabled(s, Claim(j, at), reading, stamping)
      && Gap(s.requests[i].stamp, s.requests[j].stamp) < 30_000_000
      ==> !Lapsed(s.last, s.requests[j].stamp)
  }

  // ---- when the cooldown holds ---------------------------------------------------------------------

  /** The value still covers this claim, or no call can be early enough to care. */
  predicate Covers(value: Option<Time>, claim: Time, clock: Time, stamping: Time) {
    (value.Some? && value.value >= claim) || clock >= claim + COOLDOWN + stamping
  }

  ghost predicate Timed(r: Request, clock: Time, reading: Time, stamping: Time) {
    && r.read <= clock
    && (r.phase != Loaded ==> r.read <= r.stamp <= clock)
    && (Live(r) ==> r.stamp <= r.written <= clock && r.written - r.read <= reading && r.written - r.stamp <= stamping)
  }

  ghost predicate Inv(s: State, reading: Time, stamping: Time) {
    && Apart(s)
    && (forall r :: r in s.requests ==>
          Timed(r, s.clock, reading, stamping) && (Live(r) ==> Covers(s.last, r.stamp, s.clock, stamping)))
    && (forall a, r :: a in s.requests && r in s.requests && Live(a) && a.written < r.read ==>
         Covers(r.previous, a.stamp, s.clock, stamping))
  }

  lemma Wait(s: State, at: Time, reading: Time, stamping: Time)
    requires Inv(s, reading, stamping) && s.clock <= at
    ensures Inv(s.(clock := at), reading, stamping)
  {
  }

  /** A request may move on as long as it does not become a claim. */
  lemma MoveOn(s: State, who: nat, r: Request, reading: Time, stamping: Time)
    requires Inv(s, reading, stamping) && who < |s.requests|
    requires r.previous == s.requests[who].previous && r.read == s.requests[who].read
    requires Timed(r, s.clock, reading, stamping)
    requires Live(r) ==>
              Live(s.requests[who]) && r.stamp == s.requests[who].stamp && r.written == s.requests[who].written
    ensures Inv(s.(requests := s.requests[who := r]), reading, stamping)
  {
    assert s.requests[who] in s.requests;
    assert forall x :: x in s.requests[who := r] ==> x == r || x in s.requests;
  }

  lemma LoadKeepsInv(s: State, reading: Time, stamping: Time)
    requires Inv(s, reading, stamping)
    ensures Inv(s.(requests := s.requests + [Request(s.last, s.clock, s.clock, s.clock, Loaded)]), reading, stamping)
  {
  }

  /** A call that wins its claim comes a cooldown after every claim not handed back. */
  lemma ClaimIsLate(s: State, who: nat, at: Time, reading: Time, stamping: Time)
    requires Inv(s, reading, stamping) && Enabled(s, Claim(who, at), reading, stamping)
    requires Lapsed(s.last, s.requests[who].stamp)
    ensures forall a :: a in s.requests && Live(a) ==> s.requests[who].stamp >= a.stamp + COOLDOWN
  {
    assert forall a :: a in s.requests && Live(a) ==> Covers(s.last, a.stamp, s.clock, stamping);
  }

  lemma ClaimKeepsInv(s: State, who: nat, reading: Time, stamping: Time)
    requires Inv(s, reading, stamping) && Enabled(s, Claim(who, s.clock), reading, stamping)
    requires Lapsed(s.last, s.requests[who].stamp)
    ensures var r := s.requests[who].(written := s.clock, phase := Claimed);
            Inv(State(Some(r.stamp), s.requests[who := r], s.clock), reading, stamping)
  {
    var r := s.requests[who].(written := s.clock, phase := Claimed);
    assert s.requests[who] in s.requests;
    ClaimIsLate(s, who, s.clock, reading, stamping);
    assert forall x :: x in s.requests[who := r] ==> x == r || x in s.requests;
    assert forall i :: 0 <= i < |s.requests| ==> s.requests[i] in s.requests;
  }

  /** What a call hands back still covers every other claim. */
  lemma PreviousCovers(s: State, who: nat, a: Request, reading: Time, stamping: Time)
    requires stamping == 0 || reading + stamping < COOLDOWN
    requires Inv(s, reading, stamping) && InPhase(s, who, Claimed) && s.last == Some(s.requests[who].stamp)
    requires a in s.requests && Live(a) && Gap(a.stamp, s.requests[who].stamp) >= COOLDOWN
    ensures Covers(s.requests[who].previous, a.stamp, s.clock, stamping)
  {
    var r := s.requests[who];
    assert r in s.requests;
    assert Covers(s.last, a.stamp, s.clock, stamping);
    assert Timed(r, s.clock, reading, stamping) && Timed(a, s.clock, reading, stamping);
  }

  lemma ReleaseKeepsInv(s: State, who: nat, reading: Time, stamping: Time)
    requires stamping == 0 || reading + stamping < COOLDOWN
    requires Inv(s, reading, stamping) && InPhase(s, who, Claimed) && s.last == Some(s.requests[who].stamp)
    ensures var r := s.requests[who];
            Inv(State(r.previous, s.requests[who := r.(phase := GivenUp)], s.clock), reading, stamping)
  {
    var r := s.requests[who];
    var rs := s.requests[who := r.(phase := GivenUp)];
    assert Timed(r, s.clock, reading, stamping) by {
      assert r in s.requests;
    }
    MoveOn(s, who, r.(phase := GivenUp), reading, stamping);
    forall a | a in rs && Live(a)
      ensures Covers(r.previous, a.stamp, s.clock, stamping)
    {
      var i :| 0 <= i < |rs| && rs[i] == a;
      assert Gap(a.stamp, r.stamp) >= COOLDOWN;
      PreviousCovers(s, who, a, reading, stamping);
    }
  }

  lemma AnswerKeepsInv(s: State, who: nat, reading: Time, stamping: Time)
    requires Inv(s, reading, stamping) && Enabled(s, Claim(who, s.clock), reading, stamping)
    ensures Inv(Apply(s, Claim(who, s.clock), reading, stamping), reading, stamping)
  {
    if Lapsed(s.last, s.requests[who].stamp) {
      ClaimKeepsInv(s, who, reading, stamping);
    } else {
      assert s.requests[who] in s.requests;
      MoveOn(s, who, s.requests[who].(written := s.clock, phase := Refused), reading, stamping);
    }
  }

  lemma HandBackKeepsInv(s: State, who: nat, reading: Time, stamping: Time)
    requires stamping == 0 || reading + stamping < COOLDOWN
    requires Inv(s, reading, stamping) && InPhase(s, who, Claimed)
    ensures Inv(Apply(s, Release(who, s.clock), reading, stamping), reading, stamping)
  {
    if s.last == Some(s.requests[who].stamp) {
      ReleaseKeepsInv(s, who, reading, stamping);
    } else {
      assert s.requests[who] in s.requests;
      MoveOn(s, who, s.requests[who].(phase := GivenUp), reading, stamping);
    }
  }

  lemma StepKeepsInv(s: State, step: Step, reading: Time, stamping: Time)
    requires stamping == 0 || reading + stamping < COOLDOWN
    requires Inv(s, reading, stamping) && Enabled(s, step, reading, stamping)
    ensures Inv(Apply(s, step, reading, stamping), reading, stamping)
  {
    Wait(s, step.at, reading, stamping);
    var now := s.(clock := step.at);
    match step
    case Load(_) => LoadKeepsInv(now, reading, stamping);
    case Stamp(who, at) =>
      assert s.requests[who] in now.requests;
      MoveOn(now, who, s.requests[who].(stamp := at, phase := Stamped), reading, stamping);
    case Claim(who, at) =>
      hide Inv;
      AnswerKeepsInv(now, who, reading, stamping);
    case Keep(who, _) =>
      assert s.requests[who] in now.requests;
      MoveOn(now, who, s.requests[who].(phase := Kept), reading, stamping);
    case Release(who, _) =>
      hide Inv;
      HandBackKeepsInv(now, who, reading, stamping);
  }

  lemma {:induction false} RunKeepsInv(s: State, steps: seq<Step>, reading: Time, stamping: Time)
    requires stamping == 0 || reading + stamping < COOLDOWN
    requires Inv(s, reading, stamping) && Legal(s, steps, reading, stamping)
    ensures Inv(Run(s, steps, reading, stamping), reading, stamping)
    decreases |steps|
  {
    if steps != [] {
      StepKeepsInv(s, steps[0], reading, stamping);
      RunKeepsInv(Apply(s, steps[0], reading, stamping), steps[1..], reading, stamping);
    }
  }

  lemma InvProtects(s: State, reading: Time, stamping: Time)
    requires Inv(s, reading, stamping)
    ensures Protected(s, reading, stamping)
  {
    forall i, j, at |
      && 0 <= i < |s.requests| && 0 <= j < |s.requests| && Live(s.requests[i]) && Enabled(s, Claim(j, at), reading, stamping)
      && Gap(s.requests[i].stamp, s.requests[j].stamp) < COOLDOWN
      ensures !Lapsed(s.last, s.requests[j].stamp)
    {
      if Lapsed(s.last, s.requests[j].stamp) {
        ClaimIsLate(s, j, at, reading, stamping);
      }
    }
  }

  /** Every run from a rule nobody is calling keeps its claims apart. */
  ghost predicate AlwaysApart(reading: Time, stamping: Time) {
    forall last, clock, steps :: Legal(State(last, [], clock), steps, reading, stamping) ==>
      Apart(Run(State(last, [], clock), steps, reading, stamping))
  }

  /** A quick enough request always keeps the cooldown, and no release uncovers another's claim. */
  lemma CooldownHolds(s: State, steps: seq<Step>, reading: Time, stamping: Time)
    requires stamping == 0 || reading + stamping < COOLDOWN
    requires s.requests == [] && Legal(s, steps, reading, stamping)
    ensures Apart(Run(s, steps, reading, stamping)) && Protected(Run(s, steps, reading, stamping), reading, stamping)
  {
    RunKeepsInv(s, steps, reading, stamping);
    InvProtects(Run(s, steps, reading, stamping), reading, stamping);
  }

  // ---- when it does not ----------------------------------------------------------------------------

  /**
   The first call's UPDATE runs late; a second, which loaded before it, claims once the cooldown is over and
   hands back the value it had loaded; a third, stamped before that, then finds the rule free.
   */
  function StaleRelease(late: Time): seq<Step> {
    [Load(0), Stamp(0, 0), Load(late), Claim(0, late), Load(COOLDOWN - 1), Stamp(2, COOLDOWN - 1),
     Stamp(1, COOLDOWN), Claim(1, COOLDOWN), Release(1, COOLDOWN), Claim(2, COOLDOWN)]
  }

  lemma OneStep(s: State, step: Step, rest: seq<Step>, reading: Time, stamping: Time)
    requires Enabled(s, step, reading, stamping)
    ensures Legal(s, [step] + rest, reading, stamping) <==>
              Legal(Apply(s, step, reading, stamping), rest, reading, stamping)
    ensures Legal(s, [step] + rest, reading, stamping) ==>
              Run(s, [step] + rest, reading, stamping) == Run(Apply(s, step, reading, stamping), rest, reading, stamping)
  {
    assert ([step] + rest)[1..] == rest;
  }

  /** Up to the claim that will be handed back: the first claim stands, and the second loaded before it. */
  lemma FirstClaimLate(late: Time, rest: seq<Step>, reading: Time, stamping: Time)
    requires 0 < late < COOLDOWN && late <= stamping <= reading
    ensures var s, t := State(None, [], 0), MidStale(late);
            var steps := [Load(0), Stamp(0, 0), Load(late), Claim(0, late), Load(COOLDOWN - 1), Stamp(2, COOLDOWN - 1)] + rest;
            && (Legal(s, steps, reading, stamping) <==> Legal(t, rest, reading, stamping))
            && (Legal(s, steps, reading, stamping) ==>
                 Run(s, steps, reading, stamping) == Run(t, rest, reading, stamping))
  {
    var s0 := State(None, [], 0);
    var s1 := State(None, [Request(None, 0, 0, 0, Loaded)], 0);
    var s2 := State(None, [Request(None, 0, 0, 0, Stamped)], 0);
    var s3 := State(None, s2.requests + [Request(None, late, late, late, Loaded)], late);
    var s4 := State(Some(0), [Request(None, 0, 0, late, Claimed), Request(None, late, late, late, Loaded)], late);
    var s5 := State(Some(0), s4.requests + [Request(Some(0), COOLDOWN - 1, COOLDOWN - 1, COOLDOWN - 1, Loaded)], COOLDOWN - 1);
    var r5 := [Stamp(2, COOLDOWN - 1)] + rest;
    var r4 := [Load(COOLDOWN - 1)] + r5;
    var r3 := [Claim(0, late)] + r4;
    var r2 := [Load(late)] + r3;
    var r1 := [Stamp(0, 0)] + r2;
    assert Apply(s0, Load(0), reading, stamping) == s1;
    assert Apply(s1, Stamp(0, 0), reading, stamping) == s2;
    assert Apply(s2, Load(late), reading, stamping) == s3;
    assert Apply(s3, Claim(0, late), reading, stamping) == s4;
    assert Apply(s4, Load(COOLDOWN - 1), reading, stamping) == s5;
    assert Apply(s5, Stamp(2, COOLDOWN - 1), reading, stamping) == MidStale(late);
    OneStep(s5, Stamp(2, COOLDOWN - 1), rest, reading, stamping);
    OneStep(s4, Load(COOLDOWN - 1), r5, reading, stamping);
    OneStep(s3, Claim(0, late), r4, reading, stamping);
    OneStep(s2, Load(late), r3, reading, stamping);
    OneStep(s1, Stamp(0, 0), r2, reading, stamping);
    OneStep(s0, Load(0), r1, reading, stamping);
    assert [Load(0), Stamp(0, 0), Load(late), Claim(0, late), Load(COOLDOWN - 1), Stamp(2, COOLDOWN - 1)] + rest == [Load(0)] + r1;
  }

  function MidStale(late: Time): State {
    State(Some(0), [Request(None, 0, 0, late, Claimed), Request(None, late, late, late, Loaded),
                    Request(Some(0), COOLDOWN - 1, COOLDOWN - 1, COOLDOWN - 1, Stamped)], COOLDOWN - 1)
  }

  function EndStale(late: Time): State {
    State(Some(COOLDOWN - 1), [Request(None, 0, 0, late, Claimed), Request(None, late, COOLDOWN, COOLDOWN, GivenUp),
                               Request(Some(0), COOLDOWN - 1, COOLDOWN - 1, COOLDOWN, Claimed)], COOLDOWN)
  }

  /** The second claims, hands back the nothing it loaded, and the third finds the rule free. */
  lemma ThirdClaimEarly(late: Time, reading: Time, stamping: Time)
    requires 0 < late < COOLDOWN && late <= stamping <= reading && reading + late >= COOLDOWN
    ensures var steps := [Stamp(1, COOLDOWN), Claim(1, COOLDOWN), Release(1, COOLDOWN), Claim(2, COOLDOWN)];
            Legal(MidStale(late), steps, reading, stamping) && Run(MidStale(late), steps, reading, stamping) == EndStale(late)
  {
    var s0 := MidStale(late);
    var s1 := s0.(requests := s0.requests[1 := Request(None, late, COOLDOWN, late, Stamped)], clock := COOLDOWN);
    var s2 := s1.(last := Some(COOLDOWN), requests := s1.requests[1 := Request(None, late, COOLDOWN, COOLDOWN, Claimed)]);
    var s3 := s2.(last := None, requests := s2.requests[1 := Request(None, late, COOLDOWN, COOLDOWN, GivenUp)]);
    assert Apply(s3, Claim(2, COOLDOWN), reading, stamping) == EndStale(late);
    OneStep(s3, Claim(2, COOLDOWN), [], reading, stamping);
    OneStep(s2, Release(1, COOLDOWN), [Claim(2, COOLDOWN)], reading, stamping);
    OneStep(s1, Claim(1, COOLDOWN), [Release(1, COOLDOWN), Claim(2, COOLDOWN)], reading, stamping);
    OneStep(s0, Stamp(1, COOLDOWN), [Claim(1, COOLDOWN), Release(1, COOLDOWN), Claim(2, COOLDOWN)], reading, stamping);
    assert [Stamp(1, COOLDOWN), Claim(1, COOLDOWN), Release(1, COOLDOWN), Claim(2, COOLDOWN)] ==
           [Stamp(1, COOLDOWN)] + [Claim(1, COOLDOWN), Release(1, COOLDOWN), Claim(2, COOLDOWN)];
    assert [Claim(1, COOLDOWN), Release(1, COOLDOWN), Claim(2, COOLDOWN)] ==
           [Claim(1, COOLDOWN)] + [Release(1, COOLDOWN), Claim(2, COOLDOWN)];
    assert [Release(1, COOLDOWN), Claim(2, COOLDOWN)] == [Release(1, COOLDOWN)] + [Claim(2, COOLDOWN)];
    assert [Claim(2, COOLDOWN)] == [Claim(2, COOLDOWN)] + [];
  }

  lemma SlowRequestsMeet(late: Time, reading: Time, stamping: Time)
    requires 0 < late < COOLDOWN && late <= stamping <= reading && reading + late >= COOLDOWN
    ensures Legal(State(None, [], 0), StaleRelease(late), reading, stamping)
    ensures !Apart(Run(State(None, [], 0), StaleRelease(late), reading, stamping))
  {
    var rest := [Stamp(1, COOLDOWN), Claim(1, COOLDOWN), Release(1, COOLDOWN), Claim(2, COOLDOWN)];
    assert StaleRelease(late) ==
           [Load(0), Stamp(0, 0), Load(late), Claim(0, late), Load(COOLDOWN - 1), Stamp(2, COOLDOWN - 1)] + rest;
    FirstClaimLate(late, rest, reading, stamping);
    ThirdClaimEarly(late, reading, stamping);
    var end := EndStale(late);
    assert Live(end.requests[0]) && Live(end.requests[2]) && Gap(end.requests[0].stamp, end.requests[2].stamp) == COOLDOWN - 1;
  }

  /** Exactly how slow requests may be. The now is taken after the load, so `stamping` is the shorter bound. */
  lemma ApartExactlyWhen(reading: Time, stamping: Time)
    requires 0 <= stamping <= reading
    ensures AlwaysApart(reading, stamping) <==> stamping == 0 || reading + stamping < 30_000_000
  {
    if stamping == 0 || reading + stamping < COOLDOWN {
      forall last, clock, steps | Legal(State(last, [], clock), steps, reading, stamping)
        ensures Apart(Run(State(last, [], clock), steps, reading, stamping))
      {
        CooldownHolds(State(last, [], clock), steps, reading, stamping);
      }
    } else {
      SlowRequestsMeet(Min(stamping, COOLDOWN - 1), reading, stamping);
    }
  }
}
