/**
 What a CreateUser request's answer to its caller means, in every run: each request reaches REAP at
 most once, refused requests never do, and the reported outcomes agree with the table for ever.
 */
module MappingOutcomes {
  import opened GoText
  import opened Processes
  import opened ReapMapping
  import opened MappingRuns
  import MappingSafety
  import MappingTimely
  import MappingTiming

  /** Has the request sent its create, as far as its phase or outcome tells? */
  predicate MaySend(c: CreateProc) {
    c.Claiming? || c.Looking? || c.Granted?
  }

  predicate Refused(c: CreateProc) {
    c.Finished? && (c.outcome.UserExists? || c.outcome.CreateInFlight?)
  }

  ghost predicate OutcomeOk(t: Table, c: CreateProc) {
    match c
    case Finished(pk, UserExists) => GetReapUserID(t, pk) != ""
    case Finished(pk, UserRecorded(id)) => id != "" && MapsTo(t, pk, id)
    case Recording(_, _, _, id) => id != ""
    case _ => true
  }

  ghost predicate OutcomesOk(t: Table, creates: map<Pid, CreateProc>) {
    forall p :: p in creates ==> OutcomeOk(t, creates[p])
  }

  ghost predicate SentOk(creates: map<Pid, CreateProc>, calls: seq<CallEvent>) {
    forall i :: 0 <= i < |calls| && calls[i].Sent? ==>
      calls[i].p in creates && !MaySend(creates[calls[i].p]) && !Refused(creates[calls[i].p])
  }

  ghost predicate SentOnce(calls: seq<CallEvent>) {
    forall i, j :: 0 <= i < j < |calls| && calls[i].Sent? && calls[j].Sent? ==> calls[i].p != calls[j].p
  }

  ghost predicate Inv(s: State) {
    OutcomesOk(s.rows, s.creates) && SentOk(s.creates, s.calls) && SentOnce(s.calls)
  }

  lemma OutcomesStable(t: Table, t': Table, creates: map<Pid, CreateProc>)
    requires OutcomesOk(t, creates) && Evolves(t, t')
    ensures OutcomesOk(t', creates)
  {
    forall p | p in creates ensures OutcomeOk(t', creates[p]) {
      assert OutcomeOk(t, creates[p]);
    }
  }

  /** The request moves to c over a table that has only grown; calls other than Sent may be added. */
  lemma MoveKeeps(s: State, s': State, p: Pid, c: CreateProc)
    requires Inv(s) && Evolves(s.rows, s'.rows)
    requires s'.creates == s.creates[p := c] && OutcomeOk(s'.rows, c)
    requires s'.calls == s.calls || (|s'.calls| == |s.calls| + 1 && s.calls <= s'.calls && !s'.calls[|s.calls|].Sent?)
    requires p in s.creates && !MaySend(s.creates[p]) ==> !MaySend(c) && !Refused(c)
    ensures Inv(s')
  {
    OutcomesStable(s.rows, s'.rows, s.creates);
    assert forall i :: 0 <= i < |s.calls| ==> s'.calls[i] == s.calls[i];
  }

  lemma SendKeeps(s: State, p: Pid)
    requires Inv(s) && p in s.creates && s.creates[p].Granted?
    ensures Inv(ApplySend(s, p))
  {
    var s' := ApplySend(s, p);
    assert forall i :: 0 <= i < |s.calls| ==> s'.calls[i] == s.calls[i];
    assert forall i :: 0 <= i < |s.calls| && s.calls[i].Sent? ==> s.calls[i].p != p;
  }

  lemma ClaimKeeps(s: State, p: Pid, fault: Fault)
    requires Inv(s) && p in s.creates && s.creates[p].Claiming?
    requires Evolves(s.rows, ApplyClaim(s, p, fault).rows)
    ensures Inv(ApplyClaim(s, p, fault))
  {
    var pk := s.creates[p].pk;
    MoveKeeps(s, ApplyClaim(s, p, fault), p,
              AfterClaim(pk, s.clock, fault, ClaimReapUserCreate(s.rows, pk, s.clock).affected));
  }

  lemma ReplyKeeps(s: State, p: Pid, answer: Answer)
    requires Inv(s) && p in s.creates && s.creates[p].Calling?
    ensures Inv(ApplyReply(s, p, answer))
  {
    MoveKeeps(s, ApplyReply(s, p, answer), p, AfterReply(s.creates[p], s.clock, answer));
  }

  lemma RecordKeeps(s: State, p: Pid, fault: Fault)
    requires Inv(s) && p in s.creates && s.creates[p].Recording?
    requires Evolves(s.rows, ApplyRecord(s, p, fault).rows)
    ensures Inv(ApplyRecord(s, p, fault))
  {
    var c := s.creates[p];
    assert OutcomeOk(s.rows, c);
    var r := SetReapUserID(s.rows, c.pk, c.id);
    MoveKeeps(s, ApplyRecord(s, p, fault), p, Finished(c.pk, AfterRecord(fault, r, c.id)));
  }

  lemma CreateStepKeeps(s: State, p: Pid, e: CreateStep)
    requires Inv(s) && CreateEnabled(s, p, e) && Evolves(s.rows, ApplyCreate(s, p, e).rows)
    ensures Inv(ApplyCreate(s, p, e))
  {
    match e
    case Begin(pk) => MoveKeeps(s, ApplyCreate(s, p, e), p, Claiming(pk));
    case Claim(fault) => ClaimKeeps(s, p, fault);
    case Look(fault) =>
      var pk := s.creates[p].pk;
      MoveKeeps(s, ApplyLook(s, p, fault), p, Finished(pk, AfterLook(s.rows, pk, fault)));
    case Send => SendKeeps(s, p);
    case Reply(answer) => ReplyKeeps(s, p, answer);
    case Release(fault) => MoveKeeps(s, ApplyRelease(s, p, fault), p, Finished(s.creates[p].pk, PassedThrough));
    case Record(fault) => RecordKeeps(s, p, fault);
    case Crash => MoveKeeps(s, ApplyCreate(s, p, e), p, Finished(s.creates[p].pk, Crashed));
  }

  lemma AuthStepKeeps(s: State, p: Pid, e: AuthStep)
    requires Inv(s) && AuthEnabled(s, p, e) && Evolves(s.rows, ApplyAuth(s, p, e).rows)
    ensures Inv(ApplyAuth(s, p, e))
  {
    var s' := ApplyAuth(s, p, e);
    OutcomesStable(s.rows, s'.rows, s.creates);
    assert s'.creates == s.creates && s'.calls == s.calls;
  }

  lemma StepKeeps(s: State, e: Step)
    requires Inv(s) && Enabled(s, e) && Evolves(s.rows, Apply(s, e).rows)
    ensures Inv(Apply(s, e))
  {
    match e
    case Tick(_) =>
    case Create(p, create) => CreateStepKeeps(s, p, create);
    case Auth(p, auth) => AuthStepKeeps(s, p, auth);
  }

  lemma {:induction false} RunKeeps(states: seq<State>, steps: seq<Step>, i: nat)
    requires IsRun(states, steps) && i < |states|
    ensures Inv(states[i])
  {
    if i == 0 {
    } else {
      RunKeeps(states, steps, i - 1);
      MappingSafety.RunKeeps(states, steps, i - 1);
      MappingSafety.StepKeeps(states[i - 1], steps[i - 1]);
      StepKeeps(states[i - 1], steps[i - 1]);
    }
  }

  /** A request reaches REAP at most once, and a refused one never has. */
  lemma ReachesReapAtMostOnce(states: seq<State>, steps: seq<Step>, n: nat, i: nat, j: nat)
    requires IsRun(states, steps) && n < |states|
    requires i < |states[n].calls| && j < |states[n].calls| && states[n].calls[i].Sent? && states[n].calls[j].Sent?
    requires states[n].calls[i].p == states[n].calls[j].p
    ensures i == j
    ensures states[n].calls[i].p in states[n].creates && !Refused(states[n].creates[states[n].calls[i].p])
  {
    RunKeeps(states, steps, n);
    assert forall a, b :: 0 <= a < b < |states[n].calls| && states[n].calls[a].Sent? && states[n].calls[b].Sent? ==>
      states[n].calls[a].p != states[n].calls[b].p;
  }

  /** "Already exists" and "recorded" are true of the table from then on. */
  lemma OutcomesStayTrue(states: seq<State>, steps: seq<Step>, i: nat, j: nat, p: Pid)
    requires IsRun(states, steps) && i <= j < |states|
    requires p in states[i].creates && states[i].creates[p].Finished?
    ensures var c := states[i].creates[p];
      && (c.outcome.UserExists? ==> GetReapUserID(states[j].rows, c.pk) != "")
      && (c.outcome.UserRecorded? ==> GetReapUserID(states[j].rows, c.pk) == c.outcome.id != "")
  {
    RunKeeps(states, steps, i);
    MappingSafety.WriteOnce(states, steps, i, j);
    OutcomesStable(states[i].rows, states[j].rows, states[i].creates);
    assert OutcomeOk(states[j].rows, states[i].creates[p]);
  }

  // ---------- where a recorded ID comes from ----------

  /** REAP answered a create of this vault with a 2xx and this ID. */
  ghost predicate Returned(calls: seq<CallEvent>, pk: string, id: string) {
    exists p: Pid, t: nat :: Accepted(p, pk, t, id) in calls
  }

  ghost predicate RowsReturned(t: Table, calls: seq<CallEvent>) {
    forall pk, id :: MapsTo(t, pk, id) ==> Returned(calls, pk, id)
  }

  ghost predicate ProcReturned(c: CreateProc, calls: seq<CallEvent>) {
    c.Recording? ==> Returned(calls, c.pk, c.id)
  }

  ghost predicate Provenance(s: State) {
    RowsReturned(s.rows, s.calls) && forall p :: p in s.creates ==> ProcReturned(s.creates[p], s.calls)
  }

  /** The request moves to c, calls are added, and no row gets an ID. */
  lemma MoveReturned(s: State, s': State, p: Pid, c: CreateProc)
    requires Provenance(s) && s.calls <= s'.calls
    requires s'.creates == s.creates[p := c] && ProcReturned(c, s'.calls)
    requires forall pk, id :: MapsTo(s'.rows, pk, id) ==> MapsTo(s.rows, pk, id) || Returned(s'.calls, pk, id)
    ensures Provenance(s')
  {
    assert forall e :: e in s.calls ==> e in s'.calls;
    assert forall pk, id :: Returned(s.calls, pk, id) ==> Returned(s'.calls, pk, id);
    assert forall q :: q in s.creates ==> ProcReturned(s.creates[q], s'.calls);
  }

  lemma RecordReturned(s: State, p: Pid, fault: Fault)
    requires Provenance(s) && p in s.creates && s.creates[p].Recording?
    ensures Provenance(ApplyRecord(s, p, fault))
  {
    var c, s' := s.creates[p], ApplyRecord(s, p, fault);
    assert ProcReturned(c, s.calls);
    assert Returned(s'.calls, c.pk, c.id);
    MoveReturned(s, s', p, s'.creates[p]);
  }

  lemma ReplyReturned(s: State, p: Pid, answer: Answer)
    requires Provenance(s) && p in s.creates && s.creates[p].Calling?
    ensures Provenance(ApplyReply(s, p, answer))
  {
    var c, s' := s.creates[p], ApplyReply(s, p, answer);
    var next := AfterReply(c, s.clock, answer);
    if next.Recording? {
      assert s'.calls[|s.calls|] == Accepted(p, c.pk, c.at, answer.id);
      assert Returned(s'.calls, c.pk, answer.id);
    }
    MoveReturned(s, s', p, next);
  }

  lemma ClaimReturned(s: State, p: Pid, fault: Fault)
    requires Provenance(s) && p in s.creates && s.creates[p].Claiming?
    ensures Provenance(ApplyClaim(s, p, fault))
  {
    var s' := ApplyClaim(s, p, fault);
    MoveReturned(s, s', p, s'.creates[p]);
  }

  lemma CreateStepReturned(s: State, p: Pid, e: CreateStep)
    requires Provenance(s) && CreateEnabled(s, p, e)
    ensures Provenance(ApplyCreate(s, p, e))
  {
    match e
    case Begin(pk) => MoveReturned(s, ApplyCreate(s, p, e), p, Claiming(pk));
    case Claim(fault) => ClaimReturned(s, p, fault);
    case Look(fault) =>
      MoveReturned(s, ApplyLook(s, p, fault), p, Finished(s.creates[p].pk, AfterLook(s.rows, s.creates[p].pk, fault)));
    case Send => MoveReturned(s, ApplySend(s, p), p, Calling(s.creates[p].pk, s.creates[p].at, s.clock));
    case Reply(answer) => ReplyReturned(s, p, answer);
    case Release(fault) => MoveReturned(s, ApplyRelease(s, p, fault), p, Finished(s.creates[p].pk, PassedThrough));
    case Record(fault) => RecordReturned(s, p, fault);
    case Crash => MoveReturned(s, ApplyCreate(s, p, e), p, Finished(s.creates[p].pk, Crashed));
  }

  lemma AuthStepReturned(s: State, p: Pid, e: AuthStep)
    requires Provenance(s) && AuthEnabled(s, p, e)
    ensures Provenance(ApplyAuth(s, p, e))
  {
    var s' := ApplyAuth(s, p, e);
    assert s'.calls == s.calls && s'.creates == s.creates;
    assert forall pk, id :: MapsTo(s'.rows, pk, id) ==> MapsTo(s.rows, pk, id);
  }

  lemma {:induction false} RunReturned(states: seq<State>, steps: seq<Step>, i: nat)
    requires IsRun(states, steps) && i < |states|
    ensures Provenance(states[i])
  {
    if i == 0 {
    } else {
      RunReturned(states, steps, i - 1);
      match steps[i - 1]
      case Tick(_) =>
      case Create(p, create) => CreateStepReturned(states[i - 1], p, create);
      case Auth(p, auth) => AuthStepReturned(states[i - 1], p, auth);
    }
  }

  /** A vault's REAP user is one REAP returned with a 2xx to a create of that same vault. */
  lemma RecordedIdWasReturned(states: seq<State>, steps: seq<Step>, i: nat, pk: string)
    returns (p: Pid, claimedAt: nat)
    requires IsRun(states, steps) && i < |states| && GetReapUserID(states[i].rows, pk) != ""
    ensures Accepted(p, pk, claimedAt, GetReapUserID(states[i].rows, pk)) in states[i].calls
  {
    RunReturned(states, steps, i);
    var id := GetReapUserID(states[i].rows, pk);
    assert MapsTo(states[i].rows, pk, id);
    p, claimedAt :| Accepted(p, pk, claimedAt, id) in states[i].calls;
  }

  // ---------- success without the record ----------

  ghost predicate HasUser(t: Table, pk: string) {
    pk in t && t[pk].userId.Some?
  }

  /** A vault has a REAP user exactly when some request's record took effect. */
  ghost predicate Logged(t: Table, calls: seq<CallEvent>) {
    forall pk :: HasUser(t, pk) <==> Recorded(pk) in calls
  }

  lemma SameUsersLogged(t: Table, t': Table, calls: seq<CallEvent>, calls': seq<CallEvent>)
    requires Logged(t, calls) && forall pk :: HasUser(t, pk) <==> HasUser(t', pk)
    requires calls' == calls || (exists e: CallEvent :: !e.Recorded? && calls' == calls + [e])
    ensures Logged(t', calls')
  {}

  lemma RecordLogged(s: State, p: Pid, fault: Fault)
    requires Logged(s.rows, s.calls) && p in s.creates && s.creates[p].Recording?
    ensures Logged(ApplyRecord(s, p, fault).rows, ApplyRecord(s, p, fault).calls)
  {
    var c, s' := s.creates[p], ApplyRecord(s, p, fault);
    if s'.calls != s.calls {
      assert s'.calls == s.calls + [Recorded(c.pk)];
      assert forall pk :: HasUser(s'.rows, pk) <==> HasUser(s.rows, pk) || pk == c.pk;
    }
  }

  lemma CreateStepLogged(s: State, p: Pid, e: CreateStep)
    requires Logged(s.rows, s.calls) && CreateEnabled(s, p, e)
    ensures Logged(ApplyCreate(s, p, e).rows, ApplyCreate(s, p, e).calls)
  {
    if e.Record? {
      RecordLogged(s, p, e.fault);
    } else {
      SameUsers(s, p, e);
      SameUsersLogged(s.rows, ApplyCreate(s, p, e).rows, s.calls, ApplyCreate(s, p, e).calls);
    }
  }

  lemma SameUsers(s: State, p: Pid, e: CreateStep)
    requires CreateEnabled(s, p, e) && !e.Record?
    ensures forall pk :: HasUser(s.rows, pk) <==> HasUser(ApplyCreate(s, p, e).rows, pk)
    ensures var calls' := ApplyCreate(s, p, e).calls;
      calls' == s.calls || (exists event: CallEvent :: !event.Recorded? && calls' == s.calls + [event])
  {
    match e
    case Begin(_) =>
    case Claim(_) =>
    case Look(_) =>
    case Send => assert ApplyCreate(s, p, e).calls == s.calls + [Sent(p, s.creates[p].pk, s.creates[p].at, s.clock)];
    case Reply(answer) =>
      var c := s.creates[p];
      var event := if Succeeded(answer) then Accepted(p, c.pk, c.at, answer.id) else Unconfirmed(p, c.pk);
      assert ApplyCreate(s, p, e).calls == s.calls + [event];
    case Release(_) =>
    case Crash =>
  }

  lemma AuthStepLogged(s: State, p: Pid, e: AuthStep)
    requires Logged(s.rows, s.calls) && AuthEnabled(s, p, e)
    ensures Logged(ApplyAuth(s, p, e).rows, ApplyAuth(s, p, e).calls)
  {
    var s' := ApplyAuth(s, p, e);
    assert forall pk :: HasUser(s.rows, pk) <==> HasUser(s'.rows, pk);
    SameUsersLogged(s.rows, s'.rows, s.calls, s'.calls);
  }

  lemma {:induction false} RunLogged(states: seq<State>, steps: seq<Step>, i: nat)
    requires IsRun(states, steps) && i < |states|
    ensures Logged(states[i].rows, states[i].calls)
  {
    if i == 0 {
    } else {
      RunLogged(states, steps, i - 1);
      match steps[i - 1]
      case Tick(_) =>
      case Create(p, create) => CreateStepLogged(states[i - 1], p, create);
      case Auth(p, auth) => AuthStepLogged(states[i - 1], p, auth);
    }
  }

  /**
   How an undisturbed record ends, in every run: with another ID already there exactly when some
   request's record took effect before, with an error exactly when another vault has this ID, and
   otherwise with this ID recorded.
   */
  lemma RecordEndsExactly(states: seq<State>, steps: seq<Step>, i: nat, p: Pid)
    requires IsRun(states, steps) && i < |steps| && steps[i] == Create(p, Record(NoFault))
    ensures p in states[i].creates && states[i].creates[p].Recording? && p in states[i + 1].creates
    ensures var c := states[i].creates[p];
      var earlier := Recorded(c.pk) in states[i].calls;
      var next := states[i + 1].creates[p];
      && next.Finished?
      && (next.outcome == OtherIdRecorded <==> earlier)
      && (next.outcome == StoreError <==> !earlier && Taken(states[i].rows, c.pk, c.id))
      && (next.outcome == UserRecorded(c.id) <==> !earlier && !Taken(states[i].rows, c.pk, c.id))
  {
    RunLogged(states, steps, i);
    var c := states[i].creates[p];
    assert HasUser(states[i].rows, c.pk) <==> Recorded(c.pk) in states[i].calls;
  }

  /** The vault's row once request 1's ID is recorded. */
  function RecordedRow(): Table {
    map["v" := BLANK.(userId := Some("a"))]
  }

  /** Request 1 overtook the stale request 0 and recorded "a". */
  function Overtaken(): State {
    var late := STALE_AFTER + 1;
    MappingTiming.Overlapping().(
      rows := RecordedRow(),
      creates := map[0 := Calling("v", 0, 0), 1 := Finished("v", UserRecorded("a"))],
      calls := MappingTiming.Overlapping().calls + [Accepted(1, "v", late, "a"), Recorded("v")])
  }

  lemma OvertakenRun() returns (states: seq<State>, steps: seq<Step>)
    ensures IsRun(states, steps) && states[|steps|] == Overtaken()
  {
    states, steps := MappingTiming.OverlapRun();
    var late := STALE_AFTER + 1;
    var s0 := MappingTiming.Overlapping();
    var reply, record := Create(1, Reply(Response(200, "a"))), Create(1, Record(NoFault));
    var s1 := s0.(creates := map[0 := Calling("v", 0, 0), 1 := Recording("v", late, late, "a")],
                  calls := s0.calls + [Accepted(1, "v", late, "a")]);
    ExtendRun(states, steps, reply, s1);
    states, steps := states + [s1], steps + [reply];
    FirstRecord(s1);
    ExtendRun(states, steps, record, Overtaken());
    states, steps := states + [Overtaken()], steps + [record];
  }

  lemma FirstRecord(s: State)
    requires 1 in s.creates && s.creates[1].Recording? && s.creates[1].pk == "v" && s.creates[1].id == "a"
    requires s.rows == MappingTiming.ClaimedRow(Some(STALE_AFTER + 1))
    ensures ApplyRecord(s, 1, NoFault)
         == s.(rows := RecordedRow(), creates := s.creates[1 := Finished("v", UserRecorded("a"))],
               calls := s.calls + [Recorded("v")])
  {
    assert !Taken(s.rows, "v", "a");
  }

  /**
   Success need not mean recorded: there is a run that answers request 0's caller with REAP's user
   "b" while "a" is the vault's REAP user, and stays so.
   */
  lemma SuccessWithoutRecord() returns (states: seq<State>, steps: seq<Step>)
    ensures IsRun(states, steps) && |steps| > 1 && steps[|steps| - 1] == Create(0, Record(NoFault))
    ensures steps[|steps| - 2] == Create(0, Reply(Response(200, "b")))
    ensures 0 in states[|steps|].creates && states[|steps|].creates[0] == Finished("v", OtherIdRecorded)
    ensures GetReapUserID(states[|steps|].rows, "v") == "a"
  {
    states, steps := OvertakenRun();
    var s0, late := Overtaken(), STALE_AFTER + 1;
    var reply, record := Create(0, Reply(Response(200, "b"))), Create(0, Record(NoFault));
    var s1 := s0.(creates := map[0 := Recording("v", 0, late, "b"), 1 := Finished("v", UserRecorded("a"))],
                  calls := s0.calls + [Accepted(0, "v", 0, "b")]);
    ExtendRun(states, steps, reply, s1);
    states, steps := states + [s1], steps + [reply];
    var s2 := s1.(creates := map[0 := Finished("v", OtherIdRecorded), 1 := Finished("v", UserRecorded("a"))]);
    ExtendRun(states, steps, record, s2);
    states, steps := states + [s2], steps + [record];
  }

  /**
   While the holders of the vault's claim are timely, success means the ID was recorded, and the ID
   REAP returned is the vault's REAP user from then on.
   */
  lemma SuccessMeansRecorded(states: seq<State>, steps: seq<Step>, i: nat, j: nat, p: Pid)
    requires IsRun(states, steps) && i <= j < |states|
    requires p in states[i].creates && states[i].creates[p].Finished?
    requires TimelyBefore(states, states[i].creates[p].pk, i)
    requires states[i].creates[p].outcome.UserRecorded? || states[i].creates[p].outcome.OtherIdRecorded?
    ensures var c := states[i].creates[p];
      c.outcome.UserRecorded? && GetReapUserID(states[j].rows, c.pk) == c.outcome.id != ""
  {
    MappingTimely.NeverAnotherId(states, steps, i, p);
    OutcomesStayTrue(states, steps, i, j, p);
  }
}
