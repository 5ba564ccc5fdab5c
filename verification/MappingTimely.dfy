/**
 What the create claim guarantees for a vault v while every holder of its claim has kept to the stale
 window: the holder is unique and owns the row, REAP creates for v never overlap, a release clears
 only the releaser's claim, and nothing is sent again too early unless a reply was lost or refused.
 Nothing is assumed of other vaults' requests.
 */
module MappingTimely {
  import opened GoText
  import opened Processes
  import opened ReapMapping
  import opened MappingRuns

  // ---------- the invariant ----------

  /** p, holding since c.at, is the row's last claimant and the row is still as p claimed it. */
  ghost predicate Held(s: State, p: Pid, c: CreateProc)
    requires Holding(c)
  {
    && c.pk in s.rows
    && s.rows[c.pk].createStartedAt == Some(c.at)
    && s.rows[c.pk].userId.None?
    && c.pk in s.claimedBy
    && s.claimedBy[c.pk] == p
    && c.at <= s.clock
  }

  predicate PastSending(c: CreateProc) {
    !c.Claiming? && !c.Looking? && !c.Granted?
  }

  /** A holder of v's claim owns the row; one that gives the claim up knows of no 2xx. */
  ghost predicate HolderOk(s: State, p: Pid, c: CreateProc, v: string) {
    Holding(c) && c.pk == v ==> Held(s, p, c) && (c.Releasing? ==> Unconfirmed(p, v) in s.calls)
  }

  ghost predicate HoldersOk(s: State, v: string) {
    forall p :: p in s.creates ==> HolderOk(s, p, s.creates[p], v)
  }

  /** After a claim of p at t: the window has passed, an ID is recorded, or the claim stands. */
  ghost predicate Settled(s: State, p: Pid, pk: string, t: nat) {
    || s.clock > t + STALE_AFTER
    || (pk in s.rows && s.rows[pk].userId.Some?)
    || (pk in s.rows && s.rows[pk].createStartedAt == Some(t) && pk in s.claimedBy && s.claimedBy[pk] == p)
  }

  ghost predicate EventOk(s: State, e: CallEvent) {
    match e
    case Sent(p, pk, t, _) =>
      && p in s.creates && s.creates[p].pk == pk && PastSending(s.creates[p])
      && (Unconfirmed(p, pk) in s.calls || Settled(s, p, pk, t))
    case Accepted(p, pk, t, _) =>
      && p in s.creates && s.creates[p].pk == pk && (s.creates[p].Recording? || s.creates[p].Finished?)
      && Settled(s, p, pk, t)
    case Unconfirmed(p, pk) => p in s.creates && s.creates[p].pk == pk && PastSending(s.creates[p])
    case Recorded(pk) => pk in s.rows && s.rows[pk].userId.Some?
  }

  ghost predicate EventsOk(s: State, v: string) {
    forall e :: e in s.calls && e.pk == v ==> EventOk(s, e)
  }

  /** May `later` come after `earlier` and the other events before it? */
  ghost predicate MayFollow(before: seq<CallEvent>, earlier: CallEvent, later: CallEvent) {
    later.Sent? && later.pk == earlier.pk ==>
      match earlier
      case Sent(p, pk, t, _) => later.at > t + STALE_AFTER || Unconfirmed(p, pk) in before
      case Accepted(_, _, t, _) => later.at > t + STALE_AFTER
      case Unconfirmed(p, _) => p != later.p
      case Recorded(_) => false
  }

  ghost predicate Ordered(calls: seq<CallEvent>, v: string) {
    forall i, j :: 0 <= i < j < |calls| && calls[j].pk == v ==> MayFollow(calls[..j], calls[i], calls[j])
  }

  ghost predicate NeverOrphaned(s: State, v: string) {
    forall p :: p in s.creates ==> s.creates[p] != Finished(v, OtherIdRecorded)
  }

  ghost predicate Inv(s: State, v: string) {
    HoldersOk(s, v) && EventsOk(s, v) && Ordered(s.calls, v) && NeverOrphaned(s, v)
  }

  // ---------- one step ----------

  /** Nothing of the claim protocol moves: clock ticks and nonce claims. */
  ghost predicate ClaimColumnsKept(t: Table, t': Table) {
    forall pk :: pk in t ==>
      pk in t' && t'[pk].createStartedAt == t[pk].createStartedAt && t'[pk].userId == t[pk].userId
  }

  lemma OtherStepKeeps(s: State, s': State, v: string)
    requires Inv(s, v) && ClaimColumnsKept(s.rows, s'.rows)
    requires s'.creates == s.creates && s'.claimedBy == s.claimedBy && s'.calls == s.calls && s'.clock >= s.clock
    ensures Inv(s', v)
  {
    forall e | e in s'.calls && e.pk == v ensures EventOk(s', e) {
      assert EventOk(s, e);
    }
    forall p | p in s'.creates ensures HolderOk(s', p, s'.creates[p], v) {
      assert HolderOk(s, p, s.creates[p], v);
    }
  }

  lemma AuthStepKeeps(s: State, p: Pid, e: AuthStep, v: string)
    requires Inv(s, v) && AuthEnabled(s, p, e)
    ensures Inv(ApplyAuth(s, p, e), v)
  {
    OtherStepKeeps(s, ApplyAuth(s, p, e), v);
  }

  /** The request moves on within its claim, or gives it up, without a write; no event is added. */
  lemma MoveKeeps(s: State, p: Pid, c: CreateProc, v: string)
    requires Inv(s, v) && HolderOk(s, p, c, v) && c != Finished(v, OtherIdRecorded)
    requires p in s.creates ==>
      && s.creates[p].pk == c.pk
      && (PastSending(s.creates[p]) ==> PastSending(c))
      && (s.creates[p].Recording? || s.creates[p].Finished? ==> c.Finished?)
    ensures Inv(s.(creates := s.creates[p := c]), v)
  {
    var s' := s.(creates := s.creates[p := c]);
    forall e | e in s'.calls && e.pk == v ensures EventOk(s', e) {
      assert EventOk(s, e);
    }
    forall q | q in s'.creates ensures HolderOk(s', q, s'.creates[q], v) {
      assert q != p ==> HolderOk(s, q, s.creates[q], v);
    }
  }

  lemma OrderedAppend(calls: seq<CallEvent>, e: CallEvent, v: string)
    requires Ordered(calls, v)
    requires e.pk == v ==> forall d :: d in calls ==> MayFollow(calls, d, e)
    ensures Ordered(calls + [e], v)
  {
    var calls' := calls + [e];
    forall i, j | 0 <= i < j < |calls'| && calls'[j].pk == v ensures MayFollow(calls'[..j], calls'[i], calls'[j]) {
      assert calls'[..j] == calls[..j];
      assert j == |calls| ==> calls'[..j] == calls;
      assert j < |calls| ==> MayFollow(calls[..j], calls[i], calls[j]);
    }
  }

  /** Appending an event that fits the state and may follow everything before it. */
  lemma EventKeeps(s: State, e: CallEvent, v: string)
    requires Inv(s, v) && (e.pk == v ==> EventOk(s, e))
    requires e.pk == v ==> forall d :: d in s.calls ==> MayFollow(s.calls, d, e)
    ensures Inv(s.(calls := s.calls + [e]), v)
  {
    var s' := s.(calls := s.calls + [e]);
    forall d | d in s'.calls && d.pk == v ensures EventOk(s', d) {
      assert d != e ==> d in s.calls;
      assert d in s.calls ==> EventOk(s, d);
    }
    forall p | p in s'.creates ensures HolderOk(s', p, s'.creates[p], v) {
      assert HolderOk(s, p, s.creates[p], v);
    }
    OrderedAppend(s.calls, e, v);
  }

  /** The claim statement took effect: no one else held the row. */
  lemma ClaimTaken(s: State, p: Pid, v: string)
    requires Inv(s, v) && Timely(s, v) && p in s.creates && s.creates[p].Claiming?
    requires ClaimReapUserCreate(s.rows, s.creates[p].pk, s.clock).affected
    ensures var pk := s.creates[p].pk;
      var s' := s.(rows := ClaimReapUserCreate(s.rows, pk, s.clock).table, claimedBy := s.claimedBy[pk := p]);
      Inv(s', v) && Held(s', p, Granted(pk, s.clock))
  {
    var pk := s.creates[p].pk;
    var s' := s.(rows := ClaimReapUserCreate(s.rows, pk, s.clock).table, claimedBy := s.claimedBy[pk := p]);
    forall q | q in s'.creates ensures HolderOk(s', q, s'.creates[q], v) {
      assert HolderOk(s, q, s.creates[q], v);
    }
    forall e | e in s'.calls && e.pk == v ensures EventOk(s', e) {
      assert EventOk(s, e);
    }
  }

  lemma ClaimKeeps(s: State, p: Pid, fault: Fault, v: string)
    requires Inv(s, v) && Timely(s, v) && p in s.creates && s.creates[p].Claiming?
    ensures Inv(ApplyClaim(s, p, fault), v)
  {
    var pk := s.creates[p].pk;
    var r := ClaimReapUserCreate(s.rows, pk, s.clock);
    var next := AfterClaim(pk, s.clock, fault, r.affected);
    if r.affected && !fault.NotApplied? {
      ClaimTaken(s, p, v);
      var s' := s.(rows := r.table, claimedBy := s.claimedBy[pk := p]);
      MoveKeeps(s', p, next, v);
    } else {
      MoveKeeps(s, p, next, v);
    }
  }

  /** A holder about to send may follow everything its vault has seen. */
  lemma SendFollows(s: State, p: Pid, d: CallEvent)
    requires p in s.creates && s.creates[p].Granted? && Inv(s, s.creates[p].pk) && d in s.calls
    ensures MayFollow(s.calls, d, Sent(p, s.creates[p].pk, s.creates[p].at, s.clock))
  {
    var c := s.creates[p];
    assert HolderOk(s, p, c, c.pk);
    assert d.pk == c.pk ==> EventOk(s, d);
  }

  lemma SendKeeps(s: State, p: Pid, v: string)
    requires Inv(s, v) && p in s.creates && s.creates[p].Granted?
    ensures Inv(ApplySend(s, p), v)
  {
    var c := s.creates[p];
    var next := Calling(c.pk, c.at, s.clock);
    assert HolderOk(s, p, c, v);
    if c.pk == v {
      forall d | d in s.calls ensures MayFollow(s.calls, d, Sent(p, c.pk, c.at, s.clock)) {
        SendFollows(s, p, d);
      }
    }
    MoveKeeps(s, p, next, v);
    EventKeeps(s.(creates := s.creates[p := next]), Sent(p, c.pk, c.at, s.clock), v);
  }

  lemma ReplyKeeps(s: State, p: Pid, answer: Answer, v: string)
    requires Inv(s, v) && p in s.creates && s.creates[p].Calling?
    ensures Inv(ApplyReply(s, p, answer), v)
  {
    var c := s.creates[p];
    var next := AfterReply(c, s.clock, answer);
    assert HolderOk(s, p, c, v);
    if Succeeded(answer) {
      MoveKeeps(s, p, next, v);
      EventKeeps(s.(creates := s.creates[p := next]), Accepted(p, c.pk, c.at, answer.id), v);
    } else {
      EventKeeps(s, Unconfirmed(p, c.pk), v);
      MoveKeeps(s.(calls := s.calls + [Unconfirmed(p, c.pk)]), p, next, v);
    }
  }

  /** A holder giving its claim back clears nobody else's and unsettles no earlier 2xx. */
  lemma ReleaseKeeps(s: State, p: Pid, fault: Fault, v: string)
    requires Inv(s, v) && p in s.creates && s.creates[p].Releasing?
    ensures Inv(ApplyRelease(s, p, fault), v)
  {
    var c := s.creates[p];
    assert HolderOk(s, p, c, v);
    MoveKeeps(s, p, Finished(c.pk, PassedThrough), v);
    if !fault.NotApplied? {
      var s' := ApplyRelease(s, p, fault);
      forall q | q in s'.creates ensures HolderOk(s', q, s'.creates[q], v) {
        assert HolderOk(s, q, s.creates[q], v);
      }
      forall e | e in s'.calls && e.pk == v ensures EventOk(s', e) {
        assert EventOk(s, e);
      }
    }
  }

  /** The row and the request after an ID was recorded. */
  function AfterRecording(s: State, p: Pid, t: Table, o: CreateOutcome): State
    requires p in s.creates
  {
    s.(rows := t, creates := s.creates[p := Finished(s.creates[p].pk, o)])
  }

  lemma RecordTaken(s: State, p: Pid, o: CreateOutcome, v: string)
    requires Inv(s, v) && p in s.creates && s.creates[p].Recording? && o != OtherIdRecorded
    requires var r := SetReapUserID(s.rows, s.creates[p].pk, s.creates[p].id); r.Ran? && r.affected
    ensures Inv(AfterRecording(s, p, SetReapUserID(s.rows, s.creates[p].pk, s.creates[p].id).table, o), v)
  {
    var c := s.creates[p];
    var s' := AfterRecording(s, p, SetReapUserID(s.rows, c.pk, c.id).table, o);
    assert HolderOk(s, p, c, v);
    forall q | q in s'.creates ensures HolderOk(s', q, s'.creates[q], v) {
      assert HolderOk(s, q, s.creates[q], v);
    }
    forall e | e in s'.calls && e.pk == v ensures EventOk(s', e) {
      assert EventOk(s, e);
    }
  }

  lemma RecordKeeps(s: State, p: Pid, fault: Fault, v: string)
    requires Inv(s, v) && p in s.creates && s.creates[p].Recording?
    ensures Inv(ApplyRecord(s, p, fault), v)
  {
    var c := s.creates[p];
    assert HolderOk(s, p, c, v);
    var r := SetReapUserID(s.rows, c.pk, c.id);
    var o := AfterRecord(fault, r, c.id);
    if r.Ran? && r.affected && !fault.NotApplied? {
      RecordTaken(s, p, o, v);
      EventKeeps(AfterRecording(s, p, r.table, o), Recorded(c.pk), v);
    } else {
      MoveKeeps(s, p, Finished(c.pk, o), v);
    }
  }

  lemma CreateStepKeeps(s: State, p: Pid, e: CreateStep, v: string)
    requires Inv(s, v) && Timely(s, v) && CreateEnabled(s, p, e)
    ensures Inv(ApplyCreate(s, p, e), v)
  {
    match e
    case Begin(pk) => MoveKeeps(s, p, Claiming(pk), v);
    case Claim(fault) => ClaimKeeps(s, p, fault, v);
    case Look(fault) => MoveKeeps(s, p, Finished(s.creates[p].pk, AfterLook(s.rows, s.creates[p].pk, fault)), v);
    case Send => SendKeeps(s, p, v);
    case Reply(answer) => ReplyKeeps(s, p, answer, v);
    case Release(fault) => ReleaseKeeps(s, p, fault, v);
    case Record(fault) => RecordKeeps(s, p, fault, v);
    case Crash => MoveKeeps(s, p, Finished(s.creates[p].pk, Crashed), v);
  }

  lemma StepKeeps(s: State, e: Step, v: string)
    requires Inv(s, v) && Timely(s, v) && Enabled(s, e)
    ensures Inv(Apply(s, e), v)
  {
    match e
    case Tick(_) => OtherStepKeeps(s, Apply(s, e), v);
    case Create(p, create) => CreateStepKeeps(s, p, create, v);
    case Auth(p, auth) => AuthStepKeeps(s, p, auth, v);
  }

  lemma {:induction false} RunKeeps(states: seq<State>, steps: seq<Step>, i: nat, v: string)
    requires IsRun(states, steps) && i < |states| && TimelyBefore(states, v, i)
    ensures Inv(states[i], v)
  {
    if i == 0 {
    } else {
      RunKeeps(states, steps, i - 1, v);
      StepKeeps(states[i - 1], steps[i - 1], v);
    }
  }

  // ---------- what timely holders of a vault's claim guarantee ----------

  /** At most one request holds a vault's claim, so two REAP creates for a vault never overlap. */
  lemma ClaimExclusion(states: seq<State>, steps: seq<Step>, i: nat, p: Pid, q: Pid)
    requires IsRun(states, steps) && i < |states|
    requires p in states[i].creates && q in states[i].creates
    requires Holding(states[i].creates[p]) && Holding(states[i].creates[q])
    requires states[i].creates[p].pk == states[i].creates[q].pk
    requires TimelyBefore(states, states[i].creates[p].pk, i)
    ensures p == q
  {
    var v := states[i].creates[p].pk;
    RunKeeps(states, steps, i, v);
    assert HolderOk(states[i], p, states[i].creates[p], v);
    assert HolderOk(states[i], q, states[i].creates[q], v);
  }

  /** A release finds the releaser's own claim in the row, and the releaser is its last claimant. */
  lemma ReleaseClearsOwnClaim(states: seq<State>, steps: seq<Step>, i: nat, p: Pid, fault: Fault)
    requires IsRun(states, steps) && i < |steps|
    requires steps[i] == Create(p, Release(fault)) && TimelyBefore(states, states[i].creates[p].pk, i)
    ensures var s := states[i];
      var c := s.creates[p];
      && c.pk in s.rows && s.rows[c.pk].createStartedAt == Some(c.at)
      && c.pk in s.claimedBy && s.claimedBy[c.pk] == p
  {
    var v := states[i].creates[p].pk;
    RunKeeps(states, steps, i, v);
    assert HolderOk(states[i], p, states[i].creates[p], v);
  }

  /** The branch that logs an already recorded ID is unreachable. */
  lemma NeverAnotherId(states: seq<State>, steps: seq<Step>, i: nat, p: Pid)
    requires IsRun(states, steps) && i < |states|
    requires p in states[i].creates && states[i].creates[p].Finished?
    requires TimelyBefore(states, states[i].creates[p].pk, i)
    ensures states[i].creates[p].outcome != OtherIdRecorded
  {
    RunKeeps(states, steps, i, states[i].creates[p].pk);
    var c := states[i].creates[p];
    assert c != Finished(c.pk, OtherIdRecorded);
  }

  /**
   Once CreateUser has received a 2xx, no create for that vault is sent until the stale window of
   that claim has passed, and none ever is once an ID is recorded.
   */
  lemma NoEarlyRetry(states: seq<State>, steps: seq<Step>, n: nat, i: nat, j: nat)
    requires IsRun(states, steps) && n < |states| && i < j < |states[n].calls|
    requires states[n].calls[j].Sent? && states[n].calls[i].pk == states[n].calls[j].pk
    requires TimelyBefore(states, states[n].calls[j].pk, n)
    ensures states[n].calls[i].Accepted? ==>
      states[n].calls[j].at > states[n].calls[i].claimedAt + STALE_AFTER
    ensures !states[n].calls[i].Recorded?
  {
    RunKeeps(states, steps, n, states[n].calls[j].pk);
    assert MayFollow(states[n].calls[..j], states[n].calls[i], states[n].calls[j]);
  }

  /**
   Whatever REAP did with a create: another one for the vault within the window of its claim is sent
   only after CreateUser saw the first one fail, and that failure lies between the two.
   */
  lemma EarlyRetryAfterFailure(states: seq<State>, steps: seq<Step>, n: nat, i: nat, j: nat) returns (k: nat)
    requires IsRun(states, steps) && n < |states| && i < j < |states[n].calls|
    requires states[n].calls[i].Sent? && states[n].calls[j].Sent? && states[n].calls[i].pk == states[n].calls[j].pk
    requires states[n].calls[j].at <= states[n].calls[i].claimedAt + STALE_AFTER
    requires TimelyBefore(states, states[n].calls[j].pk, n)
    ensures i < k < j && states[n].calls[k] == Unconfirmed(states[n].calls[i].p, states[n].calls[i].pk)
  {
    var calls := states[n].calls;
    RunKeeps(states, steps, n, calls[j].pk);
    assert MayFollow(calls[..j], calls[i], calls[j]);
    k :| 0 <= k < |calls[..j]| && calls[..j][k] == Unconfirmed(calls[i].p, calls[i].pk);
    assert k < i ==> MayFollow(calls[..i], calls[k], calls[i]);
  }
}
