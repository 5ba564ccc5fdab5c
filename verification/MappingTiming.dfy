/**
 What the hold bound of MappingTimely needs and why it is needed: the client's own timeouts and bounds
 on the two unbounded phases imply it, a competing claim is granted exactly when the holder has
 overstayed, a run with an overstaying holder does overlap and clear a claim that is not its own, and
 a lost reply is retried at once.
 */
module MappingTiming {
  import opened GoText
  import opened Processes
  import opened ReapMapping
  import opened MappingRuns
  import MappingTimely

  const REQUEST_TIMEOUT: nat := 10 * SECOND
  const RELEASE_TIMEOUT: nat := 5 * SECOND

  /**
   Each phase of a holder of v's claim lasts no longer than its bound. The code bounds the call and
   the release; nothing in it bounds the delay before the call and the time a record takes.
   */
  ghost predicate Punctual(s: State, v: string, sendDelay: nat, recordTime: nat) {
    forall p :: p in s.creates && s.creates[p].pk == v ==> InPhase(s.creates[p], s.clock, sendDelay, recordTime)
  }

  predicate InPhase(c: CreateProc, now: nat, sendDelay: nat, recordTime: nat) {
    match c
    case Granted(_, at) => now <= at + sendDelay
    case Calling(_, _, since) => now <= since + REQUEST_TIMEOUT
    case Releasing(_, _, since) => now <= since + RELEASE_TIMEOUT
    case Recording(_, _, since, _) => now <= since + recordTime
    case _ => true
  }

  /** Later phases began no later than the bounds of the earlier ones allow. */
  ghost predicate PhasesOk(s: State, v: string, sendDelay: nat) {
    forall p :: p in s.creates && s.creates[p].pk == v ==> PhaseOk(s.creates[p], sendDelay)
  }

  predicate PhaseOk(c: CreateProc, sendDelay: nat) {
    match c
    case Calling(_, at, since) => since <= at + sendDelay
    case Releasing(_, at, since) => since <= at + sendDelay + REQUEST_TIMEOUT
    case Recording(_, at, since, _) => since <= at + sendDelay + REQUEST_TIMEOUT
    case _ => true
  }

  lemma CreatePhaseStep(s: State, p: Pid, e: CreateStep, sendDelay: nat, recordTime: nat)
    requires CreateEnabled(s, p, e)
    ensures var s' := ApplyCreate(s, p, e);
      && p in s'.creates && s'.creates == s.creates[p := s'.creates[p]]
      && (p in s.creates ==> s'.creates[p].pk == s.creates[p].pk)
      && ((p in s.creates ==> InPhase(s.creates[p], s.clock, sendDelay, recordTime) && PhaseOk(s.creates[p], sendDelay))
          ==> PhaseOk(s'.creates[p], sendDelay))
  {
    match e
    case Begin(_) =>
    case Claim(fault) =>
      var r := ClaimReapUserCreate(s.rows, s.creates[p].pk, s.clock);
      assert ApplyCreate(s, p, e).creates == s.creates[p := AfterClaim(s.creates[p].pk, s.clock, fault, r.affected)];
    case Look(_) =>
    case Send =>
    case Reply(answer) =>
      assert ApplyCreate(s, p, e).creates == s.creates[p := AfterReply(s.creates[p], s.clock, answer)];
    case Release(_) =>
    case Record(_) =>
    case Crash =>
  }

  lemma PhaseStep(s: State, e: Step, v: string, sendDelay: nat, recordTime: nat)
    requires PhasesOk(s, v, sendDelay) && Punctual(s, v, sendDelay, recordTime) && Enabled(s, e)
    ensures PhasesOk(Apply(s, e), v, sendDelay)
  {
    if e.Create? {
      CreatePhaseStep(s, e.p, e.create, sendDelay, recordTime);
    }
  }

  lemma {:induction false} PhasesOkInRun(states: seq<State>, steps: seq<Step>, i: nat, v: string, sendDelay: nat,
                                         recordTime: nat)
    requires IsRun(states, steps) && i < |states|
    requires forall k :: 0 <= k < i ==> Punctual(states[k], v, sendDelay, recordTime)
    ensures PhasesOk(states[i], v, sendDelay)
  {
    if i == 0 {
    } else {
      PhasesOkInRun(states, steps, i - 1, v, sendDelay, recordTime);
      PhaseStep(states[i - 1], steps[i - 1], v, sendDelay, recordTime);
    }
  }

  /**
   The 10 s request timeout and the 5 s release timeout fit the one-minute window with room for a
   delayed send and a slow record: where each phase keeps its bound, the holders are timely.
   */
  lemma TimeoutsImplyTimely(states: seq<State>, steps: seq<Step>, n: nat, v: string, sendDelay: nat, recordTime: nat)
    requires IsRun(states, steps) && n <= |states|
    requires sendDelay + 10_000_000 + recordTime <= 60_000_000
    requires sendDelay + 10_000_000 + 5_000_000 <= 60_000_000
    requires forall k :: 0 <= k < n ==> Punctual(states[k], v, sendDelay, recordTime)
    ensures TimelyBefore(states, v, n)
  {
    forall i | 0 <= i < n ensures Timely(states[i], v) {
      PhasesOkInRun(states, steps, i, v, sendDelay, recordTime);
      assert Punctual(states[i], v, sendDelay, recordTime);
      forall p | p in states[i].creates && Holding(states[i].creates[p]) && states[i].creates[p].pk == v
        ensures states[i].clock <= states[i].creates[p].at + STALE_AFTER
      {
        assert PhaseOk(states[i].creates[p], sendDelay);
        assert InPhase(states[i].creates[p], states[i].clock, sendDelay, recordTime);
      }
    }
  }

  /** With p holding the vault's claim, q's claim is granted exactly when p has overstayed. */
  lemma GrantedIffOverstayed(s: State, p: Pid, q: Pid)
    requires p in s.creates && Holding(s.creates[p]) && MappingTimely.Inv(s, s.creates[p].pk)
    requires q in s.creates && s.creates[q] == Claiming(s.creates[p].pk)
    ensures Apply(s, Create(q, Claim(NoFault))).creates[q].Granted? <==> s.clock > s.creates[p].at + STALE_AFTER
  {
    assert MappingTimely.HolderOk(s, p, s.creates[p], s.creates[p].pk);
  }

  function ClaimedRow(startedAt: Option<nat>): Table {
    map["v" := BLANK.(createStartedAt := startedAt)]
  }

  /** Request 0 has been calling since time 0; it is now one microsecond past the window. */
  function Overstayed(): State {
    INIT.(rows := ClaimedRow(Some(0)), clock := STALE_AFTER + 1, claimedBy := map["v" := 0],
          creates := map[0 := Calling("v", 0, 0)], calls := [Sent(0, "v", 0, 0)])
  }

  function Overlapping(): State {
    var late := STALE_AFTER + 1;
    Overstayed().(rows := ClaimedRow(Some(late)), claimedBy := map["v" := 1],
                  creates := map[0 := Calling("v", 0, 0), 1 := Calling("v", late, late)],
                  calls := [Sent(0, "v", 0, 0), Sent(1, "v", late, late)])
  }

  lemma OverstayRun() returns (states: seq<State>, steps: seq<Step>)
    ensures IsRun(states, steps) && states[|steps|] == Overstayed()
  {
    states, steps := [INIT], [];
    var s1 := INIT.(creates := map[0 := Claiming("v")]);
    ExtendRun(states, steps, Create(0, Begin("v")), s1);
    states, steps := states + [s1], steps + [Create(0, Begin("v"))];
    var s2 := s1.(rows := ClaimedRow(Some(0)), claimedBy := map["v" := 0], creates := map[0 := Granted("v", 0)]);
    ExtendRun(states, steps, Create(0, Claim(NoFault)), s2);
    states, steps := states + [s2], steps + [Create(0, Claim(NoFault))];
    var s3 := s2.(creates := map[0 := Calling("v", 0, 0)], calls := [Sent(0, "v", 0, 0)]);
    ExtendRun(states, steps, Create(0, Send), s3);
    states, steps := states + [s3], steps + [Create(0, Send)];
    ExtendRun(states, steps, Tick(STALE_AFTER + 1), Overstayed());
    states, steps := states + [Overstayed()], steps + [Tick(STALE_AFTER + 1)];
  }

  lemma OverlapRun() returns (states: seq<State>, steps: seq<Step>)
    ensures IsRun(states, steps) && states[|steps|] == Overlapping()
  {
    states, steps := OverstayRun();
    var late := STALE_AFTER + 1;
    var s1 := Overstayed().(creates := map[0 := Calling("v", 0, 0), 1 := Claiming("v")]);
    ExtendRun(states, steps, Create(1, Begin("v")), s1);
    states, steps := states + [s1], steps + [Create(1, Begin("v"))];
    var s2 := s1.(rows := ClaimedRow(Some(late)), claimedBy := map["v" := 1],
                  creates := map[0 := Calling("v", 0, 0), 1 := Granted("v", late)]);
    ExtendRun(states, steps, Create(1, Claim(NoFault)), s2);
    states, steps := states + [s2], steps + [Create(1, Claim(NoFault))];
    ExtendRun(states, steps, Create(1, Send), Overlapping());
    states, steps := states + [Overlapping()], steps + [Create(1, Send)];
  }

  /**
   Without the bound exclusion fails: there is a run in which two creates for one vault overlap and
   the first request's late release then clears the second one's claim while it is still calling.
   */
  lemma WindowIsNeeded() returns (states: seq<State>, steps: seq<Step>, i: nat)
    ensures IsRun(states, steps) && i + 2 == |steps|
    ensures forall p :: p == 0 || p == 1 ==>
      p in states[i].creates && states[i].creates[p].Calling? && states[i].creates[p].pk == "v"
    ensures steps[i + 1] == Create(0, Release(NoFault))
    ensures states[i + 1].claimedBy == map["v" := 1] && states[i + 2].rows == ClaimedRow(None)
    ensures 1 in states[i + 2].creates && states[i + 2].creates[1].Calling?
  {
    states, steps := OverlapRun();
    i := |steps|;
    var late := STALE_AFTER + 1;
    var s1 := Overlapping().(creates := map[0 := Releasing("v", 0, late), 1 := Calling("v", late, late)],
                               calls := Overlapping().calls + [Unconfirmed(0, "v")]);
    ExtendRun(states, steps, Create(0, Reply(CallFailed)), s1);
    states, steps := states + [s1], steps + [Create(0, Reply(CallFailed))];
    var s2 := s1.(rows := ClaimedRow(None),
                  creates := map[0 := Finished("v", PassedThrough), 1 := Calling("v", late, late)]);
    ExtendRun(states, steps, Create(0, Release(NoFault)), s2);
    states, steps := states + [s2], steps + [Create(0, Release(NoFault))];
  }

  /** Request 0's create went unanswered and its claim was given back, all at time 0. */
  function GivenBack(): State {
    INIT.(rows := ClaimedRow(None), claimedBy := map["v" := 0],
          creates := map[0 := Finished("v", PassedThrough)], calls := [Sent(0, "v", 0, 0), Unconfirmed(0, "v")])
  }

  function Retried(): State {
    GivenBack().(rows := ClaimedRow(Some(0)), claimedBy := map["v" := 1],
                 creates := map[0 := Finished("v", PassedThrough), 1 := Calling("v", 0, 0)],
                 calls := GivenBack().calls + [Sent(1, "v", 0, 0)])
  }

  ghost predicate AtZero(states: seq<State>) {
    forall i :: 0 <= i < |states| ==> states[i].clock == 0
  }

  lemma AtZeroIsTimely(states: seq<State>)
    requires AtZero(states)
    ensures forall v :: TimelyBefore(states, v, |states|)
  {}

  lemma GivenBackRun() returns (states: seq<State>, steps: seq<Step>)
    ensures IsRun(states, steps) && states[|steps|] == GivenBack() && AtZero(states)
  {
    states, steps := [INIT], [];
    var s1 := INIT.(creates := map[0 := Claiming("v")]);
    ExtendRun(states, steps, Create(0, Begin("v")), s1);
    states, steps := states + [s1], steps + [Create(0, Begin("v"))];
    var s2 := s1.(rows := ClaimedRow(Some(0)), claimedBy := map["v" := 0], creates := map[0 := Granted("v", 0)]);
    ExtendRun(states, steps, Create(0, Claim(NoFault)), s2);
    states, steps := states + [s2], steps + [Create(0, Claim(NoFault))];
    var s3 := s2.(creates := map[0 := Calling("v", 0, 0)], calls := [Sent(0, "v", 0, 0)]);
    ExtendRun(states, steps, Create(0, Send), s3);
    states, steps := states + [s3], steps + [Create(0, Send)];
    var s4 := s3.(creates := map[0 := Releasing("v", 0, 0)], calls := GivenBack().calls);
    ExtendRun(states, steps, Create(0, Reply(CallFailed)), s4);
    states, steps := states + [s4], steps + [Create(0, Reply(CallFailed))];
    ExtendRun(states, steps, Create(0, Release(NoFault)), GivenBack());
    states, steps := states + [GivenBack()], steps + [Create(0, Release(NoFault))];
  }

  /**
   A lost reply is retried at once: in a run whose holders are all timely a second create is sent at
   the very time of the first, which REAP may have carried out.
   */
  lemma LostReplyIsRetried() returns (states: seq<State>, steps: seq<Step>)
    ensures IsRun(states, steps) && (forall v :: TimelyBefore(states, v, |states|))
    ensures states[|steps|].calls == [Sent(0, "v", 0, 0), Unconfirmed(0, "v"), Sent(1, "v", 0, 0)]
  {
    states, steps := GivenBackRun();
    var s1 := GivenBack().(creates := map[0 := Finished("v", PassedThrough), 1 := Claiming("v")]);
    ExtendRun(states, steps, Create(1, Begin("v")), s1);
    states, steps := states + [s1], steps + [Create(1, Begin("v"))];
    var s2 := s1.(rows := ClaimedRow(Some(0)), claimedBy := map["v" := 1],
                  creates := map[0 := Finished("v", PassedThrough), 1 := Granted("v", 0)]);
    ExtendRun(states, steps, Create(1, Claim(NoFault)), s2);
    states, steps := states + [s2], steps + [Create(1, Claim(NoFault))];
    ExtendRun(states, steps, Create(1, Send), Retried());
    states, steps := states + [Retried()], steps + [Create(1, Send)];
    AtZeroIsTimely(states);
  }
}
