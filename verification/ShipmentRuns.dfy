/**
 Interleaved runs of CardShipmentService against REAP's shipments. Each ownership check is its own
 statement and each REAP call its own instant, so other requests run between a request's fetch, its
 checks and its action. The card-ownership table is an argument that grows under the requests.
 REAP changes a shipment's members only through these operations and never reuses a shipment ID.
 */
module ShipmentRuns {
  import opened Ownership
  import opened Processes

  datatype Member = Member(id: string, cardId: string)

  datatype Op = Get | Delete | Update | Add(cardId: string) | Remove(memberId: string) | Submit

  datatype Outcome = MissingScope | NotOwned | PassedOn | NoCardsInReply | Failure | Performed | ReturnedToCaller

  datatype Proc =
    | CheckingMembers(pk: string, members: seq<string>, next: nat)
    | Creating(pk: string, members: seq<string>)
    | Fetching(pk: string, id: string, op: Op)
    | CheckingCards(pk: string, id: string, op: Op, cards: seq<string>, next: nat)
    | CheckingNewCard(pk: string, id: string, card: string)
    | Acting(pk: string, id: string, op: Op)
    | Returning(pk: string, id: string)
    | Done(outcome: Outcome)

  /** REAP's shipments and the requests, with history: the vault whose request created each shipment. */
  datatype State = State(
    shipments: map<string, seq<Member>>,
    creator: map<string, string>,
    procs: map<Pid, Proc>)

  const INIT := State(map[], map[], map[])

  datatype Step =
    | BeginCreate(pk: string, members: seq<string>)
    | CheckMember(fault: Fault)
    | PerformCreate(id: string, stored: seq<Member>, applied: bool)
    | BeginOp(pk: string, id: string, op: Op)
    | FetchReply(ok: bool)
    | CheckCard(fault: Fault)
    | CheckNewCard(fault: Fault)
    | Perform(applied: bool, memberId: string)
    | Return
    | Crash

  function CardIds(members: seq<Member>): seq<string> {
    seq(|members|, i requires 0 <= i < |members| => members[i].cardId)
  }

  /** The non-empty card IDs of a shipment body, in order. */
  function NonEmpty(ids: seq<string>): (r: seq<string>)
    ensures forall i :: 0 <= i < |r| ==> r[i] != "" && r[i] in ids
    ensures forall i :: 0 <= i < |ids| && ids[i] != "" ==> ids[i] in r
  {
    if ids == [] then []
    else if ids[|ids| - 1] != "" then NonEmpty(ids[..|ids| - 1]) + [ids[|ids| - 1]]
    else NonEmpty(ids[..|ids| - 1])
  }

  /** They come in the order of the body. */
  lemma {:induction false} NonEmptyInOrder(a: seq<string>, b: seq<string>)
    ensures NonEmpty(a + b) == NonEmpty(a) + NonEmpty(b)
  {
    if b == [] {
      assert a + b == a;
    } else {
      var n := |b| - 1;
      NonEmptyInOrder(a, b[..n]);
      assert (a + b)[..|a + b| - 1] == a + b[..n];
    }
  }

  lemma NonEmptyOne(id: string)
    ensures NonEmpty([id]) == if id == "" then [] else [id]
  {
    assert [id][..0] == [];
  }

  function Without(members: seq<Member>, memberId: string): (r: seq<Member>)
    ensures forall m :: m in r <==> m in members && m.id != memberId
  {
    if members == [] then []
    else if members[0].id == memberId then Without(members[1..], memberId)
    else [members[0]] + Without(members[1..], memberId)
  }

  predicate Enabled(s: State, p: Pid, e: Step) {
    match e
    case BeginCreate(_, _) => p !in s.procs
    case CheckMember(_) => p in s.procs && s.procs[p].CheckingMembers? && s.procs[p].next < |s.procs[p].members|
    case PerformCreate(id, stored, applied) =>
      p in s.procs && s.procs[p].Creating? &&
      (applied ==> id !in s.creator && CardIds(stored) == s.procs[p].members)
    case BeginOp(_, _, _) => p !in s.procs
    case FetchReply(_) => p in s.procs && s.procs[p].Fetching?
    case CheckCard(_) => p in s.procs && s.procs[p].CheckingCards? && s.procs[p].next < |s.procs[p].cards|
    case CheckNewCard(_) => p in s.procs && s.procs[p].CheckingNewCard?
    case Perform(_, _) => p in s.procs && s.procs[p].Acting?
    case Return => p in s.procs && s.procs[p].Returning?
    case Crash => p in s.procs && !s.procs[p].Done?
  }

  function AfterBegin(pk: string, members: seq<string>): Proc {
    if members == [] then Done(MissingScope) else CheckingMembers(pk, members, 0)
  }

  /** checkShipmentMembers, one member: an empty ID is refused before the table is asked. */
  function AfterMember(cards: Table, c: Proc, fault: Fault): Proc
    requires c.CheckingMembers? && c.next < |c.members|
  {
    var card := c.members[c.next];
    if card == "" then Done(MissingScope)
    else if !fault.NoFault? then Done(Failure)
    else if !IsOwner(cards, c.pk, card) then Done(NotOwned)
    else if c.next + 1 < |c.members| then CheckingMembers(c.pk, c.members, c.next + 1)
    else Creating(c.pk, c.members)
  }

  function AfterFetch(s: State, c: Proc, ok: bool): Proc
    requires c.Fetching?
  {
    if !ok || c.id !in s.shipments then Done(PassedOn)
    else
      var cardIds := NonEmpty(CardIds(s.shipments[c.id]));
      if cardIds == [] then Done(NoCardsInReply) else CheckingCards(c.pk, c.id, c.op, cardIds, 0)
  }

  /** The request is past fetchOwnedShipment. */
  function AfterOwned(pk: string, id: string, op: Op): Proc {
    if op.Get? then Returning(pk, id)
    else if op.Add? then (if op.cardId == "" then Done(MissingScope) else CheckingNewCard(pk, id, op.cardId))
    else Acting(pk, id, op)
  }

  function AfterCard(cards: Table, c: Proc, fault: Fault): Proc
    requires c.CheckingCards? && c.next < |c.cards|
  {
    if !fault.NoFault? then Done(Failure)
    else if !IsOwner(cards, c.pk, c.cards[c.next]) then Done(NotOwned)
    else if c.next + 1 < |c.cards| then CheckingCards(c.pk, c.id, c.op, c.cards, c.next + 1)
    else AfterOwned(c.pk, c.id, c.op)
  }

  function AfterNewCard(cards: Table, c: Proc, fault: Fault): Proc
    requires c.CheckingNewCard?
  {
    if !fault.NoFault? then Done(Failure)
    else if !IsOwner(cards, c.pk, c.card) then Done(NotOwned)
    else Acting(c.pk, c.id, Add(c.card))
  }

  /** REAP carries out op on the shipment as it is now, which may differ from what was fetched. */
  function MembersAfter(shipments: map<string, seq<Member>>, id: string, op: Op, memberId: string):
    map<string, seq<Member>>
  {
    if id !in shipments then shipments
    else match op
      case Delete => shipments - {id}
      case Add(card) => shipments[id := shipments[id] + [Member(memberId, card)]]
      case Remove(gone) => shipments[id := Without(shipments[id], gone)]
      case _ => shipments
  }

  function Apply(cards: Table, s: State, p: Pid, e: Step): State
    requires Enabled(s, p, e)
  {
    match e
    case BeginCreate(pk, members) => s.(procs := s.procs[p := AfterBegin(pk, members)])
    case CheckMember(fault) => s.(procs := s.procs[p := AfterMember(cards, s.procs[p], fault)])
    case PerformCreate(id, stored, applied) =>
      s.(shipments := if applied then s.shipments[id := stored] else s.shipments,
         creator := if applied then s.creator[id := s.procs[p].pk] else s.creator,
         procs := s.procs[p := Done(if applied then Performed else PassedOn)])
    case BeginOp(pk, id, op) => s.(procs := s.procs[p := Fetching(pk, id, op)])
    case FetchReply(ok) => s.(procs := s.procs[p := AfterFetch(s, s.procs[p], ok)])
    case CheckCard(fault) => s.(procs := s.procs[p := AfterCard(cards, s.procs[p], fault)])
    case CheckNewCard(fault) => s.(procs := s.procs[p := AfterNewCard(cards, s.procs[p], fault)])
    case Perform(applied, memberId) =>
      s.(shipments := if applied then MembersAfter(s.shipments, s.procs[p].id, s.procs[p].op, memberId)
                      else s.shipments,
         procs := s.procs[p := Done(if applied then Performed else PassedOn)])
    case Return => s.(procs := s.procs[p := Done(ReturnedToCaller)])
    case Crash => s.(procs := s.procs[p := Done(Failure)])
  }

  // ---------- the invariant ----------

  ghost predicate AllOwned(cards: Table, owner: string, ids: seq<string>) {
    forall i :: 0 <= i < |ids| ==> ids[i] != "" && IsOwner(cards, owner, ids[i])
  }

  /** Every member card of every shipment is owned by the vault that created the shipment. */
  ghost predicate SingleOwner(cards: Table, s: State) {
    forall id :: id in s.shipments ==> id in s.creator && AllOwned(cards, s.creator[id], CardIds(s.shipments[id]))
  }

  ghost predicate ProcOk(cards: Table, creator: map<string, string>, c: Proc) {
    match c
    case CheckingMembers(pk, members, next) => next < |members| && AllOwned(cards, pk, members[..next])
    case Creating(pk, members) => AllOwned(cards, pk, members)
    case CheckingCards(pk, id, _, ids, next) =>
      && next < |ids| && id in creator
      && AllOwned(cards, creator[id], ids) && AllOwned(cards, pk, ids[..next])
    case CheckingNewCard(pk, id, card) => IsOwner(creator, pk, id) && card != ""
    case Acting(pk, id, op) =>
      IsOwner(creator, pk, id) && (op.Add? ==> op.cardId != "" && IsOwner(cards, pk, op.cardId))
    case Returning(pk, id) => IsOwner(creator, pk, id)
    case _ => true
  }

  ghost predicate ProcsOk(cards: Table, creator: map<string, string>, procs: map<Pid, Proc>) {
    forall p :: p in procs ==> ProcOk(cards, creator, procs[p])
  }

  ghost predicate Inv(cards: Table, s: State) {
    SingleOwner(cards, s) && ProcsOk(cards, s.creator, s.procs)
  }

  lemma AllOwnedStable(cards: Table, cards': Table, owner: string, ids: seq<string>)
    requires AllOwned(cards, owner, ids) && Grows(cards, cards')
    ensures AllOwned(cards', owner, ids)
  {
    forall i | 0 <= i < |ids| ensures ids[i] != "" && IsOwner(cards', owner, ids[i]) {
      assert IsOwner(cards, owner, ids[i]);
    }
  }

  lemma ProcOkStable(cards: Table, cards': Table, creator: map<string, string>, creator': map<string, string>, c: Proc)
    requires ProcOk(cards, creator, c) && Grows(cards, cards') && Grows(creator, creator')
    ensures ProcOk(cards', creator', c)
  {
    match c
    case CheckingMembers(pk, members, next) => AllOwnedStable(cards, cards', pk, members[..next]);
    case Creating(pk, members) => AllOwnedStable(cards, cards', pk, members);
    case CheckingCards(pk, id, _, ids, next) =>
      AllOwnedStable(cards, cards', creator[id], ids);
      AllOwnedStable(cards, cards', pk, ids[..next]);
    case _ =>
  }

  /** New card-ownership rows keep the invariant. */
  lemma CardsGrowKeeps(cards: Table, cards': Table, s: State)
    requires Inv(cards, s) && Grows(cards, cards')
    ensures Inv(cards', s)
  {
    forall id | id in s.shipments ensures AllOwned(cards', s.creator[id], CardIds(s.shipments[id])) {
      AllOwnedStable(cards, cards', s.creator[id], CardIds(s.shipments[id]));
    }
    forall p | p in s.procs ensures ProcOk(cards', s.creator, s.procs[p]) {
      ProcOkStable(cards, cards', s.creator, s.creator, s.procs[p]);
    }
  }

  lemma ProcsMove(cards: Table, creator: map<string, string>, creator': map<string, string>, procs: map<Pid, Proc>,
                  p: Pid, c: Proc)
    requires ProcsOk(cards, creator, procs) && Grows(creator, creator') && ProcOk(cards, creator', c)
    ensures ProcsOk(cards, creator', procs[p := c])
  {
    var procs' := procs[p := c];
    forall q | q in procs' ensures ProcOk(cards, creator', procs'[q]) {
      if q != p {
        ProcOkStable(cards, cards, creator, creator', procs[q]);
      }
    }
  }

  // ---------- one step ----------

  /** A card owned by the caller and by the shipment's creator makes them the same vault. */
  lemma FetchedByCreator(cards: Table, creator: map<string, string>, c: Proc, fault: Fault)
    requires ProcOk(cards, creator, c) && c.CheckingCards? && c.next < |c.cards|
    ensures ProcOk(cards, creator, AfterCard(cards, c, fault))
  {
    assert IsOwner(cards, creator[c.id], c.cards[c.next]);
    assert c.cards[..c.next + 1] == c.cards[..c.next] + [c.cards[c.next]];
  }

  lemma MemberChecked(cards: Table, creator: map<string, string>, c: Proc, fault: Fault)
    requires ProcOk(cards, creator, c) && c.CheckingMembers? && c.next < |c.members|
    ensures ProcOk(cards, creator, AfterMember(cards, c, fault))
  {
    assert c.members[..c.next + 1] == c.members[..c.next] + [c.members[c.next]];
    assert c.next + 1 == |c.members| ==> c.members[..c.next + 1] == c.members;
  }

  lemma FetchKeeps(cards: Table, s: State, c: Proc, ok: bool)
    requires SingleOwner(cards, s) && c.Fetching?
    ensures ProcOk(cards, s.creator, AfterFetch(s, c, ok))
  {
    if c.id in s.shipments {
      var all := CardIds(s.shipments[c.id]);
      var ids := NonEmpty(all);
      assert AllOwned(cards, s.creator[c.id], all);
      forall i | 0 <= i < |ids| ensures ids[i] != "" && IsOwner(cards, s.creator[c.id], ids[i]) {
        var j :| 0 <= j < |all| && all[j] == ids[i];
      }
    }
  }

  /** Checks and fetches only move the request. */
  lemma CheckStepKeeps(cards: Table, s: State, p: Pid, e: Step)
    requires Inv(cards, s) && Enabled(s, p, e) && !e.PerformCreate? && !e.Perform?
    ensures Inv(cards, Apply(cards, s, p, e))
    ensures Apply(cards, s, p, e) == s.(procs := s.procs[p := Apply(cards, s, p, e).procs[p]])
  {
    match e
    case BeginCreate(pk, members) =>
      ProcsMove(cards, s.creator, s.creator, s.procs, p, AfterBegin(pk, members));
    case CheckMember(fault) =>
      assert ProcOk(cards, s.creator, s.procs[p]);
      MemberChecked(cards, s.creator, s.procs[p], fault);
      ProcsMove(cards, s.creator, s.creator, s.procs, p, AfterMember(cards, s.procs[p], fault));
    case BeginOp(pk, id, op) =>
      ProcsMove(cards, s.creator, s.creator, s.procs, p, Fetching(pk, id, op));
    case FetchReply(ok) =>
      FetchKeeps(cards, s, s.procs[p], ok);
      ProcsMove(cards, s.creator, s.creator, s.procs, p, AfterFetch(s, s.procs[p], ok));
    case CheckCard(fault) =>
      assert ProcOk(cards, s.creator, s.procs[p]);
      FetchedByCreator(cards, s.creator, s.procs[p], fault);
      ProcsMove(cards, s.creator, s.creator, s.procs, p, AfterCard(cards, s.procs[p], fault));
    case CheckNewCard(fault) =>
      assert ProcOk(cards, s.creator, s.procs[p]);
      ProcsMove(cards, s.creator, s.creator, s.procs, p, AfterNewCard(cards, s.procs[p], fault));
    case Return =>
      ProcsMove(cards, s.creator, s.creator, s.procs, p, Done(ReturnedToCaller));
    case Crash =>
      ProcsMove(cards, s.creator, s.creator, s.procs, p, Done(Failure));
  }

  lemma PerformCreateKeeps(cards: Table, s: State, p: Pid, e: Step)
    requires Inv(cards, s) && Enabled(s, p, e) && e.PerformCreate?
    ensures Inv(cards, Apply(cards, s, p, e)) && Grows(s.creator, Apply(cards, s, p, e).creator)
  {
    var s' := Apply(cards, s, p, e);
    assert ProcOk(cards, s.creator, s.procs[p]);
    ProcsMove(cards, s.creator, s'.creator, s.procs, p, s'.procs[p]);
  }

  /** The action of a request that passed its checks fits the shipment's creator, as the shipment is now. */
  lemma PerformedOwned(cards: Table, owner: string, members: seq<Member>, op: Op, memberId: string)
    requires AllOwned(cards, owner, CardIds(members))
    requires op.Add? ==> op.cardId != "" && IsOwner(cards, owner, op.cardId)
    ensures op.Add? ==> AllOwned(cards, owner, CardIds(members + [Member(memberId, op.cardId)]))
    ensures op.Remove? ==> AllOwned(cards, owner, CardIds(Without(members, op.memberId)))
  {
    if op.Add? {
      assert CardIds(members + [Member(memberId, op.cardId)]) == CardIds(members) + [op.cardId];
    }
    if op.Remove? {
      var rest := Without(members, op.memberId);
      forall i | 0 <= i < |rest| ensures rest[i].cardId != "" && IsOwner(cards, owner, rest[i].cardId) {
        assert rest[i] in members;
        var j :| 0 <= j < |members| && members[j] == rest[i];
        assert CardIds(members)[j] == rest[i].cardId;
      }
    }
  }

  lemma PerformKeeps(cards: Table, s: State, p: Pid, e: Step)
    requires Inv(cards, s) && Enabled(s, p, e) && e.Perform?
    ensures Inv(cards, Apply(cards, s, p, e)) && Apply(cards, s, p, e).creator == s.creator
  {
    var c, s' := s.procs[p], Apply(cards, s, p, e);
    assert ProcOk(cards, s.creator, c);
    if c.id in s.shipments {
      PerformedOwned(cards, c.pk, s.shipments[c.id], c.op, e.memberId);
    }
    ProcsMove(cards, s.creator, s.creator, s.procs, p, s'.procs[p]);
  }

  lemma StepKeeps(cards: Table, s: State, p: Pid, e: Step)
    requires Inv(cards, s) && Enabled(s, p, e)
    ensures Inv(cards, Apply(cards, s, p, e)) && Grows(s.creator, Apply(cards, s, p, e).creator)
  {
    if e.PerformCreate? {
      PerformCreateKeeps(cards, s, p, e);
    } else if e.Perform? {
      PerformKeeps(cards, s, p, e);
    } else {
      CheckStepKeeps(cards, s, p, e);
    }
  }

  /** A request acts on a shipment, or hands its body to the caller, only for the vault that created it. */
  lemma ActsForCreator(cards: Table, s: State, p: Pid)
    requires Inv(cards, s) && p in s.procs && (s.procs[p].Acting? || s.procs[p].Returning?)
    ensures IsOwner(s.creator, s.procs[p].pk, s.procs[p].id)
  {
    assert ProcOk(cards, s.creator, s.procs[p]);
  }
}
