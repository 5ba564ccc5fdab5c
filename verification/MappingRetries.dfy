/**
 When a vault's create can be sent again early, that is within the stale window of the claim it was
 sent under: exactly when CreateUser did not receive a 2xx, whatever REAP did.
 */
module MappingRetries {
  import opened GoText
  import opened Processes
  import opened ReapMapping
  import opened MappingRuns
  import MappingTimely

  // ---------- calls are only ever added ----------

  lemma NextCalls(s: State, e: Step)
    requires Enabled(s, e)
    ensures s.calls <= Apply(s, e).calls
  {
    match e
    case Tick(_) =>
    case Create(p, create) => CreateCalls(s, p, create);
    case Auth(p, auth) => assert ApplyAuth(s, p, auth).calls == s.calls;
  }

  lemma CreateCalls(s: State, p: Pid, e: CreateStep)
    requires CreateEnabled(s, p, e)
    ensures s.calls <= ApplyCreate(s, p, e).calls
  {
    match e
    case Begin(_) =>
    case Claim(_) =>
    case Look(_) =>
    case Send =>
    case Reply(_) =>
    case Release(_) =>
    case Record(_) =>
    case Crash =>
  }

  lemma {:induction false} CallsGrow(states: seq<State>, steps: seq<Step>, i: nat, j: nat)
    requires IsRun(states, steps) && i <= j < |states|
    ensures states[i].calls <= states[j].calls
    decreases j - i
  {
    if i == j {
    } else {
      CallsGrow(states, steps, i, j - 1);
      NextCalls(states[j - 1], steps[j - 1]);
    }
  }

  // ---------- a failure seen can be retried at once ----------

  /** p has given its claim back and q has sent another create, all at one clock reading. */
  function Retried(s: State, p: Pid, q: Pid, v: string): State
    requires v in s.rows
  {
    s.(rows := s.rows[v := s.rows[v].(createStartedAt := Some(s.clock))],
       creates := s.creates[p := Finished(v, PassedThrough)][q := Calling(v, s.clock, s.clock)],
       claimedBy := s.claimedBy[v := q],
       calls := s.calls + [Sent(q, v, s.clock, s.clock)])
  }

  function GivenBack(s: State, p: Pid, v: string): State
    requires v in s.rows
  {
    s.(rows := s.rows[v := s.rows[v].(createStartedAt := None)],
       creates := s.creates[p := Finished(v, PassedThrough)])
  }

  lemma TimelyMove(s: State, s': State, p: Pid, v: string)
    requires Timely(s, v) && s'.clock == s.clock && p in s'.creates && s'.creates == s.creates[p := s'.creates[p]]
    requires Holding(s'.creates[p]) ==> s'.creates[p].at == s.clock
    ensures Timely(s', v)
  {}

  lemma TimelyExtend(states: seq<State>, s: State, v: string)
    requires TimelyBefore(states, v, |states|) && Timely(s, v)
    ensures TimelyBefore(states + [s], v, |states| + 1)
  {}

  lemma ReleaseStep(states: seq<State>, steps: seq<Step>, p: Pid, v: string)
    returns (states': seq<State>, steps': seq<Step>)
    requires IsRun(states, steps) && TimelyBefore(states, v, |states|)
    requires var s := states[|steps|]; p in s.creates && s.creates[p].Releasing? && s.creates[p].pk == v
    ensures v in states[|steps|].rows && states[|steps|].rows[v].userId.None?
    ensures IsRun(states', steps') && |states'| == |states| + 1 && states <= states' && steps <= steps'
    ensures TimelyBefore(states', v, |states'|) && states'[|steps'|] == GivenBack(states[|steps|], p, v)
  {
    var s := states[|steps|];
    MappingTimely.RunKeeps(states, steps, |steps|, v);
    assert MappingTimely.HolderOk(s, p, s.creates[p], v);
    states', steps' := ContinueRun(states, steps, Create(p, Release(NoFault)));
    TimelyMove(s, states'[|steps'|], p, v);
    TimelyExtend(states, states'[|steps'|], v);
  }

  function Began(s: State, q: Pid, v: string): State {
    s.(creates := s.creates[q := Claiming(v)])
  }

  function Claimed(s: State, q: Pid, v: string): State
    requires v in s.rows
  {
    s.(rows := s.rows[v := s.rows[v].(createStartedAt := Some(s.clock))],
       creates := s.creates[q := Granted(v, s.clock)],
       claimedBy := s.claimedBy[v := q])
  }

  /** A new request on a row that is free claims it and sends. */
  lemma SendSteps(states: seq<State>, steps: seq<Step>, q: Pid, v: string)
    returns (states': seq<State>, steps': seq<Step>)
    requires IsRun(states, steps) && TimelyBefore(states, v, |states|)
    requires var s := states[|steps|];
      q !in s.creates && v in s.rows && s.rows[v].userId.None? && s.rows[v].createStartedAt.None?
    ensures IsRun(states', steps') && |states'| == |states| + 3 && states <= states' && steps <= steps'
    ensures TimelyBefore(states', v, |states'|)
    ensures states'[|steps'|] == ApplySend(Claimed(states[|steps|], q, v), q)
  {
    var s := states[|steps|];
    var states1, steps1 := ContinueRun(states, steps, Create(q, Begin(v)));
    TimelyMove(s, Began(s, q, v), q, v);
    TimelyExtend(states, Began(s, q, v), v);
    var states2, steps2 := ContinueRun(states1, steps1, Create(q, Claim(NoFault)));
    assert states2[|steps2|] == Claimed(s, q, v);
    TimelyMove(Began(s, q, v), Claimed(s, q, v), q, v);
    TimelyExtend(states1, Claimed(s, q, v), v);
    states', steps' := ContinueRun(states2, steps2, Create(q, Send));
    TimelyMove(Claimed(s, q, v), states'[|steps'|], q, v);
    TimelyExtend(states2, states'[|steps'|], v);
  }

  /** Whenever a request is about to give its claim back, a second create can follow at the same instant. */
  lemma RetryAfterFailure(states: seq<State>, steps: seq<Step>, p: Pid, v: string)
    returns (states': seq<State>, steps': seq<Step>, q: Pid)
    requires IsRun(states, steps) && TimelyBefore(states, v, |states|)
    requires var s := states[|steps|]; p in s.creates && s.creates[p].Releasing? && s.creates[p].pk == v
    ensures IsRun(states', steps') && |states'| == |states| + 4 && states <= states' && steps <= steps'
    ensures TimelyBefore(states', v, |states'|)
    ensures v in states[|steps|].rows && states'[|steps'|] == Retried(states[|steps|], p, q, v)
  {
    var s := states[|steps|];
    var states1, steps1 := ReleaseStep(states, steps, p, v);
    q := FreshPid(states1[|steps1|].creates.Keys);
    states', steps' := SendSteps(states1, steps1, q, v);
    assert states'[|steps'|] == Retried(s, p, q, v);
  }

  // ---------- the exact condition ----------

  function LastCalls(states: seq<State>): seq<CallEvent>
    requires states != []
  {
    states[|states| - 1].calls
  }

  /** calls[j] comes after the earlier calls and is a create for c's vault within the window of c's claim. */
  predicate SentInWindow(earlier: seq<CallEvent>, calls: seq<CallEvent>, j: int, c: CreateProc)
    requires c.Calling?
  {
    |earlier| <= j < |calls| && calls[j].Sent? && calls[j].pk == c.pk && calls[j].at <= c.at + STALE_AFTER
  }

  /** The run goes on, with timely holders of c's vault, and sends another create in c's window. */
  ghost predicate SendsInWindow(states: seq<State>, states': seq<State>, steps': seq<Step>, c: CreateProc)
    requires c.Calling? && states != []
  {
    && IsRun(states', steps') && states <= states' && TimelyBefore(states', c.pk, |states'|)
    && exists j :: SentInWindow(LastCalls(states), LastCalls(states'), j, c)
  }

  /** The last step of the run is a reply to p. */
  ghost predicate EndsInReply(states: seq<State>, steps: seq<Step>, p: Pid, answer: Answer) {
    IsRun(states, steps) && |steps| > 0 && steps[|steps| - 1] == Create(p, Reply(answer))
  }

  /** The request p before that reply. */
  function Replied(states: seq<State>, p: Pid): CreateProc
    requires |states| > 1 && p in states[|states| - 2].creates
  {
    states[|states| - 2].creates[p]
  }

  lemma NoneAfterSuccess(states: seq<State>, steps: seq<Step>, p: Pid, answer: Answer, states': seq<State>,
                         steps': seq<Step>)
    requires EndsInReply(states, steps, p, answer) && Succeeded(answer)
    ensures !SendsInWindow(states, states', steps', Replied(states, p))
  {
    var s, c := states[|steps| - 1], Replied(states, p);
    if SendsInWindow(states, states', steps', c) {
      var calls := LastCalls(states');
      var j :| SentInWindow(LastCalls(states), calls, j, c);
      assert states[|steps|].calls == s.calls + [Accepted(p, c.pk, c.at, answer.id)];
      CallsGrow(states', steps', |steps|, |steps'|);
      assert calls[|s.calls|] == Accepted(p, c.pk, c.at, answer.id);
      MappingTimely.NoEarlyRetry(states', steps', |steps'|, |s.calls|, j);
      assert false;
    }
  }

  lemma SomeAfterFailure(states: seq<State>, steps: seq<Step>, p: Pid, answer: Answer)
    returns (states': seq<State>, steps': seq<Step>)
    requires EndsInReply(states, steps, p, answer) && !Succeeded(answer)
    requires TimelyBefore(states, Replied(states, p).pk, |states|)
    ensures SendsInWindow(states, states', steps', Replied(states, p))
  {
    var c, s := Replied(states, p), states[|steps|];
    assert s.creates[p] == Releasing(c.pk, c.at, s.clock);
    assert Timely(s, c.pk);
    var q;
    states', steps', q := RetryAfterFailure(states, steps, p, c.pk);
    assert SentInWindow(LastCalls(states), LastCalls(states'), |s.calls|, c);
  }

  /**
   After a reply, another create for the vault can be sent within the window of the claim exactly
   when the reply is not a 2xx: a transport error counts, though REAP may have created the user.
   */
  lemma EarlyRetryExactly(states: seq<State>, steps: seq<Step>, p: Pid, answer: Answer)
    requires EndsInReply(states, steps, p, answer)
    requires TimelyBefore(states, Replied(states, p).pk, |states|)
    ensures (exists states', steps' :: SendsInWindow(states, states', steps', Replied(states, p)))
       <==> !Succeeded(answer)
  {
    if Succeeded(answer) {
      forall states', steps' ensures !SendsInWindow(states, states', steps', Replied(states, p)) {
        NoneAfterSuccess(states, steps, p, answer, states', steps');
      }
    } else {
      var states', steps' := SomeAfterFailure(states, steps, p, answer);
    }
  }
}
