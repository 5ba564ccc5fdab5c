/**
 Interleaved runs of AccountService.CreateAccount and CardService.CreateCard over the account, card
 and user-card tables. The mapping table is an argument: it changes under the feet of a request by
 the steps of other services. REAP answers arbitrarily, but hands an ID only to creates for one user.
 */
module CardRuns {
  import ReapMapping
  import opened Ownership
  import opened Processes

  datatype Outcome =
    | NoReapUser | NotOwned | PassedOn | NoIdInReply | Failure
    | AccountCreated(pk: string, id: string)
    | CardCreated(pk: string, id: string)

  datatype Proc =
    | ResolvingForAccount(pk: string)
    | CreatingAccount(pk: string, user: string)
    | RecordingAccount(pk: string, user: string, id: string)
    | ResolvingForCard(pk: string, account: string)
    | CheckingAccount(pk: string, user: string, account: string)
    | CreatingCard(pk: string, user: string, account: string)
    | RecordingCard(pk: string, user: string, id: string)
    | RecordingUserCard(pk: string, user: string, id: string)
    | Done(outcome: Outcome)

  /** The tables and requests, with history: the REAP user each card or account ID was handed out for. */
  datatype State = State(
    accounts: Table,
    cards: Table,
    userCards: Table,
    issuedAccounts: Table,
    issuedCards: Table,
    procs: map<Pid, Proc>)

  const INIT := State(map[], map[], map[], map[], map[], map[])

  datatype Step =
    | BeginAccount(pk: string)
    | BeginCard(pk: string, account: string)
    | Resolve(fault: Fault)
    | CheckAccount(fault: Fault)
    | ReplyAccount(answer: Answer)
    | ReplyCard(answer: Answer)
    | StoreAccount(fault: Fault)
    | StoreCard(fault: Fault)
    | StoreUserCard(fault: Fault)
    | Crash

  /** REAP's promise: an ID already handed out for one user is never handed out for another. */
  predicate MayIssue(issued: Table, user: string, answer: Answer) {
    Succeeded(answer) && answer.id in issued ==> issued[answer.id] == user
  }

  function Issue(issued: Table, user: string, answer: Answer): Table {
    if Succeeded(answer) && answer.id != "" then Record(issued, user, answer.id) else issued
  }

  predicate Enabled(s: State, p: Pid, e: Step) {
    match e
    case BeginAccount(_) => p !in s.procs
    case BeginCard(_, _) => p !in s.procs
    case Resolve(_) => p in s.procs && (s.procs[p].ResolvingForAccount? || s.procs[p].ResolvingForCard?)
    case CheckAccount(_) => p in s.procs && s.procs[p].CheckingAccount?
    case ReplyAccount(a) =>
      p in s.procs && s.procs[p].CreatingAccount? && MayIssue(s.issuedAccounts, s.procs[p].user, a)
    case ReplyCard(a) => p in s.procs && s.procs[p].CreatingCard? && MayIssue(s.issuedCards, s.procs[p].user, a)
    case StoreAccount(_) => p in s.procs && s.procs[p].RecordingAccount?
    case StoreCard(_) => p in s.procs && s.procs[p].RecordingCard?
    case StoreUserCard(_) => p in s.procs && s.procs[p].RecordingUserCard?
    case Crash => p in s.procs && !s.procs[p].Done?
  }

  function AfterResolve(rows: ReapMapping.Table, c: Proc, fault: Fault): Proc
    requires c.ResolvingForAccount? || c.ResolvingForCard?
  {
    var user := ReapMapping.GetReapUserID(rows, c.pk);
    if !fault.NoFault? then Done(Failure)
    else if user == "" then Done(NoReapUser)
    else if c.ResolvingForAccount? then CreatingAccount(c.pk, user)
    else CheckingAccount(c.pk, user, c.account)
  }

  function AfterCheck(accounts: Table, c: Proc, fault: Fault): Proc
    requires c.CheckingAccount?
  {
    if !fault.NoFault? then Done(Failure)
    else if !IsOwner(accounts, c.pk, c.account) then Done(NotOwned)
    else CreatingCard(c.pk, c.user, c.account)
  }

  function AfterReply(c: Proc, answer: Answer): Proc
    requires c.CreatingAccount? || c.CreatingCard?
  {
    if !Succeeded(answer) then Done(PassedOn)
    else if answer.id == "" then Done(NoIdInReply)
    else if c.CreatingAccount? then RecordingAccount(c.pk, c.user, answer.id)
    else RecordingCard(c.pk, c.user, answer.id)
  }

  function AfterStore(c: Proc, fault: Fault): Proc
    requires c.RecordingAccount? || c.RecordingCard? || c.RecordingUserCard?
  {
    if !fault.NoFault? then Done(Failure)
    else if c.RecordingAccount? then Done(AccountCreated(c.pk, c.id))
    else if c.RecordingCard? then RecordingUserCard(c.pk, c.user, c.id)
    else Done(CardCreated(c.pk, c.id))
  }

  function Stored(t: Table, owner: string, id: string, fault: Fault): Table {
    if fault.NotApplied? then t else Record(t, owner, id)
  }

  function Apply(rows: ReapMapping.Table, s: State, p: Pid, e: Step): State
    requires Enabled(s, p, e)
  {
    match e
    case BeginAccount(pk) => s.(procs := s.procs[p := ResolvingForAccount(pk)])
    case BeginCard(pk, account) => s.(procs := s.procs[p := ResolvingForCard(pk, account)])
    case Resolve(fault) => s.(procs := s.procs[p := AfterResolve(rows, s.procs[p], fault)])
    case CheckAccount(fault) => s.(procs := s.procs[p := AfterCheck(s.accounts, s.procs[p], fault)])
    case ReplyAccount(answer) =>
      s.(issuedAccounts := Issue(s.issuedAccounts, s.procs[p].user, answer),
         procs := s.procs[p := AfterReply(s.procs[p], answer)])
    case ReplyCard(answer) =>
      s.(issuedCards := Issue(s.issuedCards, s.procs[p].user, answer),
         procs := s.procs[p := AfterReply(s.procs[p], answer)])
    case StoreAccount(fault) =>
      s.(accounts := Stored(s.accounts, s.procs[p].pk, s.procs[p].id, fault),
         procs := s.procs[p := AfterStore(s.procs[p], fault)])
    case StoreCard(fault) =>
      s.(cards := Stored(s.cards, s.procs[p].pk, s.procs[p].id, fault),
         procs := s.procs[p := AfterStore(s.procs[p], fault)])
    case StoreUserCard(fault) =>
      s.(userCards := Stored(s.userCards, s.procs[p].user, s.procs[p].id, fault),
         procs := s.procs[p := AfterStore(s.procs[p], fault)])
    case Crash => s.(procs := s.procs[p := Done(Failure)])
  }

  // ---------- the invariant ----------

  /** Every recorded owner of an ID is the vault of the REAP user the ID was handed out for. */
  ghost predicate VaultsOfUsers(rows: ReapMapping.Table, owners: Table, issued: Table) {
    forall id :: id in owners ==> id in issued && ReapMapping.MapsTo(rows, owners[id], issued[id])
  }

  ghost predicate UserCardsOk(cards: Table, userCards: Table, issued: Table) {
    forall id :: id in userCards ==> id in cards && id in issued && userCards[id] == issued[id]
  }

  ghost predicate ProcOk(rows: ReapMapping.Table, s: State, c: Proc) {
    match c
    case CreatingAccount(pk, user) => ReapMapping.MapsTo(rows, pk, user)
    case RecordingAccount(pk, user, id) => ReapMapping.MapsTo(rows, pk, user) && IsOwner(s.issuedAccounts, user, id)
    case CheckingAccount(pk, user, _) => ReapMapping.MapsTo(rows, pk, user)
    case CreatingCard(pk, user, account) => ReapMapping.MapsTo(rows, pk, user) && IsOwner(s.accounts, pk, account)
    case RecordingCard(pk, user, id) => ReapMapping.MapsTo(rows, pk, user) && IsOwner(s.issuedCards, user, id)
    case RecordingUserCard(pk, user, id) =>
      ReapMapping.MapsTo(rows, pk, user) && IsOwner(s.issuedCards, user, id) && IsOwner(s.cards, pk, id)
    case Done(AccountCreated(pk, id)) => IsOwner(s.accounts, pk, id)
    case Done(CardCreated(pk, id)) => IsOwner(s.cards, pk, id) && id in s.userCards
    case _ => true
  }

  ghost predicate ProcsOk(rows: ReapMapping.Table, s: State) {
    forall p :: p in s.procs ==> ProcOk(rows, s, s.procs[p])
  }

  ghost predicate Inv(rows: ReapMapping.Table, s: State) {
    && VaultsOfUsers(rows, s.accounts, s.issuedAccounts)
    && VaultsOfUsers(rows, s.cards, s.issuedCards)
    && "" !in s.issuedAccounts && "" !in s.issuedCards
    && UserCardsOk(s.cards, s.userCards, s.issuedCards)
    && ProcsOk(rows, s)
  }

  /** All five tables keep what they hold. */
  ghost predicate Evolves(s: State, s': State) {
    && Grows(s.accounts, s'.accounts) && Grows(s.cards, s'.cards) && Grows(s.userCards, s'.userCards)
    && Grows(s.issuedAccounts, s'.issuedAccounts) && Grows(s.issuedCards, s'.issuedCards)
  }

  /** A request's facts survive every growth of the tables. */
  lemma ProcOkStable(rows: ReapMapping.Table, rows': ReapMapping.Table, s: State, s': State, c: Proc)
    requires ProcOk(rows, s, c) && ReapMapping.Evolves(rows, rows') && Evolves(s, s')
    ensures ProcOk(rows', s', c)
  {}

  /** Steps of other services on the mapping table keep the invariant. */
  lemma MappingStepKeeps(rows: ReapMapping.Table, rows': ReapMapping.Table, s: State)
    requires Inv(rows, s) && ReapMapping.Evolves(rows, rows')
    ensures Inv(rows', s)
  {
    forall p | p in s.procs ensures ProcOk(rows', s, s.procs[p]) {
      ProcOkStable(rows, rows', s, s, s.procs[p]);
    }
  }

  /** A request moves to c while the tables grow around it. */
  lemma ProcsMove(rows: ReapMapping.Table, s: State, s': State, p: Pid, c: Proc)
    requires ProcsOk(rows, s) && Evolves(s, s') && s'.procs == s.procs[p := c] && ProcOk(rows, s', c)
    ensures ProcsOk(rows, s')
  {
    forall q | q in s'.procs ensures ProcOk(rows, s', s'.procs[q]) {
      if q != p {
        ProcOkStable(rows, rows, s, s', s.procs[q]);
      }
    }
  }

  /** The first writer of an ID is the only vault it can be recorded for. */
  lemma RecordedForVault(rows: ReapMapping.Table, owners: Table, issued: Table, pk: string, user: string, id: string)
    requires ReapMapping.Unique(rows) && VaultsOfUsers(rows, owners, issued)
    requires ReapMapping.MapsTo(rows, pk, user) && IsOwner(issued, user, id)
    ensures VaultsOfUsers(rows, Record(owners, pk, id), issued)
    ensures IsOwner(Record(owners, pk, id), pk, id)
  {
    if id in owners {
      assert ReapMapping.MapsTo(rows, owners[id], user);
    }
  }

  lemma StoreAccountKeeps(rows: ReapMapping.Table, s: State, p: Pid, fault: Fault)
    requires ReapMapping.Unique(rows) && Inv(rows, s) && Enabled(s, p, StoreAccount(fault))
    ensures var s' := Apply(rows, s, p, StoreAccount(fault)); Inv(rows, s') && Evolves(s, s')
  {
    var c, s' := s.procs[p], Apply(rows, s, p, StoreAccount(fault));
    assert ProcOk(rows, s, c);
    RecordedForVault(rows, s.accounts, s.issuedAccounts, c.pk, c.user, c.id);
    ProcsMove(rows, s, s', p, AfterStore(c, fault));
  }

  lemma StoreCardKeeps(rows: ReapMapping.Table, s: State, p: Pid, fault: Fault)
    requires ReapMapping.Unique(rows) && Inv(rows, s) && Enabled(s, p, StoreCard(fault))
    ensures var s' := Apply(rows, s, p, StoreCard(fault)); Inv(rows, s') && Evolves(s, s')
  {
    var c, s' := s.procs[p], Apply(rows, s, p, StoreCard(fault));
    assert ProcOk(rows, s, c);
    RecordedForVault(rows, s.cards, s.issuedCards, c.pk, c.user, c.id);
    ProcsMove(rows, s, s', p, AfterStore(c, fault));
  }

  lemma StoreUserCardKeeps(rows: ReapMapping.Table, s: State, p: Pid, fault: Fault)
    requires Inv(rows, s) && Enabled(s, p, StoreUserCard(fault))
    ensures var s' := Apply(rows, s, p, StoreUserCard(fault)); Inv(rows, s') && Evolves(s, s')
  {
    var c, s' := s.procs[p], Apply(rows, s, p, StoreUserCard(fault));
    assert ProcOk(rows, s, c);
    ProcsMove(rows, s, s', p, AfterStore(c, fault));
  }

  lemma ReplyKeeps(rows: ReapMapping.Table, s: State, p: Pid, e: Step)
    requires Inv(rows, s) && Enabled(s, p, e)
    requires e.ReplyAccount? || e.ReplyCard?
    ensures Inv(rows, Apply(rows, s, p, e)) && Evolves(s, Apply(rows, s, p, e))
  {
    var s' := Apply(rows, s, p, e);
    assert ProcOk(rows, s, s.procs[p]);
    ProcsMove(rows, s, s', p, s'.procs[p]);
  }

  lemma LookKeeps(rows: ReapMapping.Table, s: State, p: Pid, e: Step)
    requires Inv(rows, s) && Enabled(s, p, e)
    requires e.BeginAccount? || e.BeginCard? || e.Resolve? || e.CheckAccount? || e.Crash?
    ensures Inv(rows, Apply(rows, s, p, e)) && Evolves(s, Apply(rows, s, p, e))
  {
    var s' := Apply(rows, s, p, e);
    assert p in s.procs ==> ProcOk(rows, s, s.procs[p]);
    ProcsMove(rows, s, s', p, s'.procs[p]);
  }

  lemma StepKeeps(rows: ReapMapping.Table, s: State, p: Pid, e: Step)
    requires ReapMapping.Unique(rows) && Inv(rows, s) && Enabled(s, p, e)
    ensures Inv(rows, Apply(rows, s, p, e)) && Evolves(s, Apply(rows, s, p, e))
  {
    if e.StoreAccount? {
      StoreAccountKeeps(rows, s, p, e.fault);
    } else if e.StoreCard? {
      StoreCardKeeps(rows, s, p, e.fault);
    } else if e.StoreUserCard? {
      StoreUserCardKeeps(rows, s, p, e.fault);
    } else if e.ReplyAccount? || e.ReplyCard? {
      ReplyKeeps(rows, s, p, e);
    } else {
      LookKeeps(rows, s, p, e);
    }
  }

  /** Each user-card row has a card row whose vault maps to that user. */
  lemma TablesAgree(rows: ReapMapping.Table, s: State, id: string)
    requires Inv(rows, s) && id in s.userCards
    ensures id in s.cards && ReapMapping.MapsTo(rows, s.cards[id], s.userCards[id])
  {}
}
