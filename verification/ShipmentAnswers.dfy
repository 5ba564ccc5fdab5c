/**
 What one shipment request comes to when nothing runs in between, exactly, in terms of the ownership
 table, the shipment's members and REAP's replies: which outcome, and what is left of the shipments.
 */
module ShipmentAnswers {
  import opened Processes
  import opened Ownership
  import opened ShipmentRuns

  // ---------- the request's remaining steps ----------

  /** REAP's side: whether the fetch and the action succeed, the new member's ID, the new shipment. */
  datatype Replies = Replies(fetched: bool, applied: bool, memberId: string, id: string, stored: seq<Member>)

  predicate MayReply(s: State, r: Replies, members: seq<string>) {
    r.applied ==> r.id !in s.creator && CardIds(r.stored) == members
  }

  predicate Answerable(s: State, c: Proc, r: Replies) {
    match c
    case CheckingMembers(_, members, next) => next < |members| && MayReply(s, r, members)
    case Creating(_, members) => MayReply(s, r, members)
    case CheckingCards(_, _, _, cards, next) => next < |cards|
    case _ => true
  }

  function Next(c: Proc, r: Replies): Step
    requires !c.Done?
  {
    match c
    case CheckingMembers(_, _, _) => CheckMember(NoFault)
    case Creating(_, _) => PerformCreate(r.id, r.stored, r.applied)
    case Fetching(_, _, _) => FetchReply(r.fetched)
    case CheckingCards(_, _, _, _, _) => CheckCard(NoFault)
    case CheckingNewCard(_, _, _) => CheckNewCard(NoFault)
    case Acting(_, _, _) => Perform(r.applied, r.memberId)
    case Returning(_, _) => Return
  }

  function Phase(c: Proc): nat {
    match c
    case Fetching(_, _, _) => 4
    case CheckingCards(_, _, _, _, _) => 3
    case CheckingMembers(_, _, _) => 3
    case CheckingNewCard(_, _, _) => 2
    case Done(_) => 0
    case _ => 1
  }

  function Left(c: Proc): nat {
    match c
    case CheckingCards(_, _, _, cards, next) => if next < |cards| then |cards| - next else 0
    case CheckingMembers(_, members, next) => if next < |members| then |members| - next else 0
    case _ => 0
  }

  /** The request is on its way from c to c'. */
  predicate Closer(c: Proc, c': Proc) {
    Phase(c') < Phase(c) || (Phase(c') == Phase(c) && Left(c') < Left(c))
  }

  lemma CheckProgress(cards: Table, s: State, c: Proc, r: Replies)
    requires (c.CheckingMembers? || c.CheckingCards?) && Answerable(s, c, r)
    ensures var c' := if c.CheckingMembers? then AfterMember(cards, c, NoFault) else AfterCard(cards, c, NoFault);
      Closer(c, c') && Answerable(s, c', r)
  {}

  lemma FetchProgress(s: State, c: Proc, r: Replies)
    requires c.Fetching?
    ensures Closer(c, AfterFetch(s, c, r.fetched)) && Answerable(s, AfterFetch(s, c, r.fetched), r)
  {}

  /** The next step leaves a request that is closer to its end. */
  predicate Onward(cards: Table, s: State, p: Pid, r: Replies)
    requires p in s.procs && !s.procs[p].Done? && Enabled(s, p, Next(s.procs[p], r))
  {
    var s' := Apply(cards, s, p, Next(s.procs[p], r));
    p in s'.procs && Answerable(s', s'.procs[p], r) && Closer(s.procs[p], s'.procs[p])
  }

  lemma ChecksOnward(cards: Table, s: State, p: Pid, r: Replies)
    requires p in s.procs && Answerable(s, s.procs[p], r)
    requires s.procs[p].CheckingMembers? || s.procs[p].CheckingCards? || s.procs[p].Fetching?
    ensures Enabled(s, p, Next(s.procs[p], r)) && Onward(cards, s, p, r)
  {
    var c := s.procs[p];
    if c.Fetching? {
      FetchProgress(s, c, r);
    } else {
      CheckProgress(cards, s, c, r);
    }
  }

  lemma ActsOnward(cards: Table, s: State, p: Pid, r: Replies)
    requires p in s.procs && Answerable(s, s.procs[p], r)
    requires s.procs[p].Creating? || s.procs[p].CheckingNewCard? || s.procs[p].Acting? || s.procs[p].Returning?
    ensures Enabled(s, p, Next(s.procs[p], r)) && Onward(cards, s, p, r)
  {}

  lemma Progress(cards: Table, s: State, p: Pid, r: Replies)
    requires p in s.procs && !s.procs[p].Done? && Answerable(s, s.procs[p], r)
    ensures Enabled(s, p, Next(s.procs[p], r)) && Onward(cards, s, p, r)
  {
    if s.procs[p].CheckingMembers? || s.procs[p].CheckingCards? || s.procs[p].Fetching? {
      ChecksOnward(cards, s, p, r);
    } else {
      ActsOnward(cards, s, p, r);
    }
  }

  function Finish(cards: Table, s: State, p: Pid, r: Replies): State
    requires p in s.procs && Answerable(s, s.procs[p], r)
    decreases Phase(s.procs[p]), Left(s.procs[p])
  {
    if s.procs[p].Done? then s
    else
      Progress(cards, s, p, r);
      Finish(cards, Apply(cards, s, p, Next(s.procs[p], r)), p, r)
  }

  /** The request p in phase c, all else as in s. */
  function At(s: State, p: Pid, c: Proc): State {
    s.(procs := s.procs[p := c])
  }

  // ---------- operations on a shipment ----------

  predicate Owns(cards: Table, pk: string, card: string) {
    card in cards && cards[card] == pk
  }

  /** Some member names a card. */
  ghost predicate SomeCard(members: seq<Member>) {
    exists i :: 0 <= i < |members| && members[i].cardId != ""
  }

  /** Every card that a member names is pk's. */
  ghost predicate AllTheirs(cards: Table, pk: string, members: seq<Member>) {
    forall i :: 0 <= i < |members| && members[i].cardId != "" ==> Owns(cards, pk, members[i].cardId)
  }

  /** What REAP does on each operation. */
  ghost predicate Changed(t: map<string, seq<Member>>, t': map<string, seq<Member>>, id: string, op: Op,
                          memberId: string)
    requires id in t
  {
    match op
    case Delete => t' == t - {id}
    case Add(card) => t' == t[id := t[id] + [Member(memberId, card)]]
    case Remove(gone) =>
      && t'.Keys == t.Keys && (forall other :: other in t && other != id ==> t'[other] == t[other])
      && forall m :: m in t'[id] <==> m in t[id] && m.id != gone
    case _ => t' == t
  }

  /**
   The fetched body must name cards, all the caller's; Get hands it over, Add wants a card of the
   caller's own, and only then is REAP asked to act.
   */
  ghost predicate OpDone(cards: Table, t: map<string, seq<Member>>, t': map<string, seq<Member>>, pk: string,
                         id: string, op: Op, r: Replies, outcome: Outcome)
  {
    if !r.fetched || id !in t then outcome == PassedOn && t' == t
    else if !SomeCard(t[id]) then outcome == NoCardsInReply && t' == t
    else if !AllTheirs(cards, pk, t[id]) then outcome == NotOwned && t' == t
    else if op.Get? then outcome == ReturnedToCaller && t' == t
    else if op.Add? && op.cardId == "" then outcome == MissingScope && t' == t
    else if op.Add? && !Owns(cards, pk, op.cardId) then outcome == NotOwned && t' == t
    else if !r.applied then outcome == PassedOn && t' == t
    else outcome == Performed && Changed(t, t', id, op, r.memberId)
  }

  lemma Unfold(cards: Table, s: State, p: Pid, r: Replies)
    requires p in s.procs && !s.procs[p].Done? && Answerable(s, s.procs[p], r)
    ensures Enabled(s, p, Next(s.procs[p], r))
    ensures var s' := Apply(cards, s, p, Next(s.procs[p], r));
      && p in s'.procs && Answerable(s', s'.procs[p], r) && Finish(cards, s, p, r) == Finish(cards, s', p, r)
  {
    Progress(cards, s, p, r);
  }

  lemma {:induction false} CardsEnd(cards: Table, s: State, p: Pid, r: Replies)
    requires p in s.procs && s.procs[p].CheckingCards? && Answerable(s, s.procs[p], r)
    ensures var c := s.procs[p];
      var next := AfterOwned(c.pk, c.id, c.op);
      if forall i :: c.next <= i < |c.cards| ==> Owns(cards, c.pk, c.cards[i])
      then Finish(cards, s, p, r) == Finish(cards, At(s, p, next), p, r)
      else Finish(cards, s, p, r) == At(s, p, Done(NotOwned))
    decreases Left(s.procs[p])
  {
    var c := s.procs[p];
    Unfold(cards, s, p, r);
    var s' := Apply(cards, s, p, CheckCard(NoFault));
    if Owns(cards, c.pk, c.cards[c.next]) && c.next + 1 < |c.cards| {
      CardsEnd(cards, s', p, r);
      assert At(s', p, AfterOwned(c.pk, c.id, c.op)) == At(s, p, AfterOwned(c.pk, c.id, c.op));
      assert At(s', p, Done(NotOwned)) == At(s, p, Done(NotOwned));
    } else {
      assert !Owns(cards, c.pk, c.cards[c.next]) ==> s' == At(s, p, Done(NotOwned));
    }
  }

  lemma ActingEnds(cards: Table, s: State, p: Pid, r: Replies)
    requires p in s.procs && s.procs[p].Acting? && s.procs[p].id in s.shipments
    ensures var c, s' := s.procs[p], Finish(cards, s, p, r);
      && p in s'.procs && s'.procs[p] == Done(if r.applied then Performed else PassedOn)
      && (r.applied ==> Changed(s.shipments, s'.shipments, c.id, c.op, r.memberId))
      && (!r.applied ==> s'.shipments == s.shipments)
  {
    Unfold(cards, s, p, r);
  }

  lemma OwnedEnds(cards: Table, s: State, p: Pid, pk: string, id: string, op: Op, r: Replies)
    requires p in s.procs && id in s.shipments && s.procs[p] == AfterOwned(pk, id, op)
    requires r.fetched && SomeCard(s.shipments[id]) && AllTheirs(cards, pk, s.shipments[id])
    ensures var s' := Finish(cards, s, p, r);
      && p in s'.procs && s'.procs[p].Done?
      && OpDone(cards, s.shipments, s'.shipments, pk, id, op, r, s'.procs[p].outcome)
  {
    if s.procs[p].Acting? {
      ActingEnds(cards, s, p, r);
    } else if s.procs[p].CheckingNewCard? {
      Unfold(cards, s, p, r);
      var s' := Apply(cards, s, p, CheckNewCard(NoFault));
      if s'.procs[p].Acting? {
        ActingEnds(cards, s', p, r);
      }
    } else if s.procs[p].Returning? {
      Unfold(cards, s, p, r);
    }
  }

  lemma NonEmptyCards(members: seq<Member>)
    ensures NonEmpty(CardIds(members)) == [] <==> !SomeCard(members)
    ensures forall cards, pk ::
      AllTheirs(cards, pk, members) <==>
        forall i :: 0 <= i < |NonEmpty(CardIds(members))| ==> Owns(cards, pk, NonEmpty(CardIds(members))[i])
  {
    var ids := CardIds(members);
    var named := NonEmpty(ids);
    if SomeCard(members) {
      var i :| 0 <= i < |members| && members[i].cardId != "";
      assert ids[i] in named;
    }
    if named != [] {
      assert named[0] in ids;
      var i :| 0 <= i < |ids| && ids[i] == named[0];
      assert members[i].cardId != "";
    }
    forall cards, pk
      ensures AllTheirs(cards, pk, members) <==> forall i :: 0 <= i < |named| ==> Owns(cards, pk, named[i])
    {
      if AllTheirs(cards, pk, members) {
        forall i | 0 <= i < |named| ensures Owns(cards, pk, named[i]) {
          var j :| 0 <= j < |ids| && ids[j] == named[i];
          assert members[j].cardId == named[i];
        }
      }
      if forall i :: 0 <= i < |named| ==> Owns(cards, pk, named[i]) {
        forall j | 0 <= j < |members| && members[j].cardId != "" ensures Owns(cards, pk, members[j].cardId) {
          assert ids[j] in named;
        }
      }
    }
  }

  /** A shipment operation that nothing interrupts. */
  lemma LoneOpExactly(cards: Table, s: State, p: Pid, pk: string, id: string, op: Op, r: Replies)
    requires p !in s.procs
    ensures var s' := Finish(cards, Apply(cards, s, p, BeginOp(pk, id, op)), p, r);
      && p in s'.procs && s'.procs[p].Done?
      && OpDone(cards, s.shipments, s'.shipments, pk, id, op, r, s'.procs[p].outcome)
  {
    var s1 := Apply(cards, s, p, BeginOp(pk, id, op));
    Unfold(cards, s1, p, r);
    var s2 := Apply(cards, s1, p, FetchReply(r.fetched));
    if r.fetched && id in s.shipments {
      NonEmptyCards(s.shipments[id]);
      if s2.procs[p].CheckingCards? {
        CardsEnd(cards, s2, p, r);
        assert AllTheirs(cards, pk, s.shipments[id]) <==>
          forall i :: 0 <= i < |s2.procs[p].cards| ==> Owns(cards, pk, s2.procs[p].cards[i]);
        if AllTheirs(cards, pk, s.shipments[id]) {
          OwnedEnds(cards, At(s2, p, AfterOwned(pk, id, op)), p, pk, id, op, r);
        }
      }
    }
  }

  // ---------- creating a shipment ----------

  /** Member i is the first that names no card or another's. */
  ghost predicate FirstFaulty(cards: Table, pk: string, members: seq<string>, i: nat) {
    && i < |members| && (members[i] == "" || !Owns(cards, pk, members[i]))
    && forall j :: 0 <= j < i ==> members[j] != "" && Owns(cards, pk, members[j])
  }

  /** REAP is asked for a shipment exactly of the caller's own cards, at least one. */
  ghost predicate CreateDone(cards: Table, s: State, s': State, pk: string, members: seq<string>, r: Replies,
                             outcome: Outcome)
  {
    if members == [] then outcome == MissingScope && s'.shipments == s.shipments && s'.creator == s.creator
    else if exists i: nat :: FirstFaulty(cards, pk, members, i) then
      && s'.shipments == s.shipments && s'.creator == s.creator
      && exists i: nat :: FirstFaulty(cards, pk, members, i)
                          && outcome == if members[i] == "" then MissingScope else NotOwned
    else if !r.applied then outcome == PassedOn && s'.shipments == s.shipments && s'.creator == s.creator
    else
      outcome == Performed && s'.shipments == s.shipments[r.id := r.stored] && s'.creator == s.creator[r.id := pk]
  }

  lemma {:induction false} MembersEnd(cards: Table, s: State, p: Pid, r: Replies)
    requires p in s.procs && s.procs[p].CheckingMembers? && Answerable(s, s.procs[p], r)
    requires var c := s.procs[p];
      forall j :: 0 <= j < c.next ==> c.members[j] != "" && Owns(cards, c.pk, c.members[j])
    ensures var c, s' := s.procs[p], Finish(cards, s, p, r);
      && p in s'.procs && s'.procs[p].Done?
      && CreateDone(cards, s, s', c.pk, c.members, r, s'.procs[p].outcome)
    decreases Left(s.procs[p])
  {
    var c := s.procs[p];
    var member := c.members[c.next];
    Unfold(cards, s, p, r);
    var s' := Apply(cards, s, p, CheckMember(NoFault));
    if member == "" || !Owns(cards, c.pk, member) {
      assert FirstFaulty(cards, c.pk, c.members, c.next);
    } else if c.next + 1 < |c.members| {
      MembersEnd(cards, s', p, r);
    } else {
      assert forall i: nat :: !FirstFaulty(cards, c.pk, c.members, i);
      Unfold(cards, s', p, r);
    }
  }

  /** A creation that nothing interrupts. */
  lemma LoneCreateExactly(cards: Table, s: State, p: Pid, pk: string, members: seq<string>, r: Replies)
    requires p !in s.procs && MayReply(s, r, members)
    ensures var s' := Finish(cards, Apply(cards, s, p, BeginCreate(pk, members)), p, r);
      && p in s'.procs && s'.procs[p].Done?
      && CreateDone(cards, s, s', pk, members, r, s'.procs[p].outcome)
  {
    var s1 := Apply(cards, s, p, BeginCreate(pk, members));
    if members != [] {
      MembersEnd(cards, s1, p, r);
    }
  }

  /** A failed ownership lookup ends the request, unless the member is empty and none is made. */
  lemma FaultsEnd(cards: Table, s: State, p: Pid, fault: Fault)
    requires p in s.procs && !fault.NoFault?
    ensures s.procs[p].CheckingCards? && s.procs[p].next < |s.procs[p].cards| ==>
      Apply(cards, s, p, CheckCard(fault)) == At(s, p, Done(Failure))
    ensures s.procs[p].CheckingNewCard? ==> Apply(cards, s, p, CheckNewCard(fault)) == At(s, p, Done(Failure))
    ensures s.procs[p].CheckingMembers? && s.procs[p].next < |s.procs[p].members| ==>
      Apply(cards, s, p, CheckMember(fault))
        == At(s, p, Done(if s.procs[p].members[s.procs[p].next] == "" then MissingScope else Failure))
  {}
}
