/**
 CardService.CreateCard and the check loops of CardShipmentService as the Go code runs them, on the
 store objects, with nothing else running in between.
 */
module CardServices {
  import opened GoText
  import opened Processes
  import Ownership
  import ReapMapping
  import CardRuns
  import ShipmentRuns

  // ---------- what one creation comes to ----------

  predicate Got2xx(answer: Answer) {
    answer.Response? && 200 <= answer.status <= 299
  }

  /** The vault's REAP user is recorded as user. */
  predicate HasUser(rows: ReapMapping.Table, pk: string, user: string) {
    user != "" && pk in rows && rows[pk].userId == Some(user)
  }

  /** A row that stays if it is there, and is the owner's otherwise. */
  predicate Kept(t: Ownership.Table, t': Ownership.Table, id: string, owner: string) {
    t' == if id in t then t else t[id := owner]
  }

  /**
   A card is recorded, for the vault and for its REAP user, exactly when the vault has a user, owns
   the account and REAP returns a card ID; nothing is recorded otherwise.
   */
  ghost predicate CardDone(rows: ReapMapping.Table, accounts: Ownership.Table, cards: Ownership.Table,
                           cards': Ownership.Table, userCards: Ownership.Table, userCards': Ownership.Table, pk: string,
                           account: string, answer: Answer, outcome: CardRuns.Outcome)
  {
    if (forall user :: !HasUser(rows, pk, user)) then
      outcome == CardRuns.NoReapUser && cards' == cards && userCards' == userCards
    else if account !in accounts || accounts[account] != pk then
      outcome == CardRuns.NotOwned && cards' == cards && userCards' == userCards
    else if !Got2xx(answer) then outcome == CardRuns.PassedOn && cards' == cards && userCards' == userCards
    else if answer.id == "" then outcome == CardRuns.NoIdInReply && cards' == cards && userCards' == userCards
    else
      && outcome == CardRuns.CardCreated(pk, answer.id)
      && Kept(cards, cards', answer.id, pk)
      && forall user :: HasUser(rows, pk, user) ==> Kept(userCards, userCards', answer.id, user)
  }

  /** An account is recorded exactly when the vault has a user and REAP returns an account ID. */
  ghost predicate AccountDone(rows: ReapMapping.Table, accounts: Ownership.Table, accounts': Ownership.Table,
                              pk: string, answer: Answer, outcome: CardRuns.Outcome)
  {
    if (forall user :: !HasUser(rows, pk, user)) then outcome == CardRuns.NoReapUser && accounts' == accounts
    else if !Got2xx(answer) then outcome == CardRuns.PassedOn && accounts' == accounts
    else if answer.id == "" then outcome == CardRuns.NoIdInReply && accounts' == accounts
    else outcome == CardRuns.AccountCreated(pk, answer.id) && Kept(accounts, accounts', answer.id, pk)
  }

  lemma UserDecides(rows: ReapMapping.Table, pk: string)
    ensures var user := ReapMapping.GetReapUserID(rows, pk);
      && (user == "" ==> forall other :: !HasUser(rows, pk, other))
      && (user != "" ==> HasUser(rows, pk, user) && forall other :: HasUser(rows, pk, other) ==> other == user)
  {}

  method CreateCard(mapping: ReapMapping.Store, accounts: Ownership.Store, cards: Ownership.Store,
                    userCards: Ownership.Store, pk: string, account: string, answer: Answer)
    returns (outcome: CardRuns.Outcome)
    requires cards != userCards
    modifies cards, userCards
    ensures CardDone(mapping.rows, old(accounts.owners), old(cards.owners), cards.owners, old(userCards.owners),
                     userCards.owners, pk, account, answer, outcome)
  {
    UserDecides(mapping.rows, pk);
    var reapUserID := ReapMapping.GetReapUserID(mapping.rows, pk);
    if reapUserID == "" {
      return CardRuns.NoReapUser;
    }
    var owned := accounts.IsOwnerStmt(pk, account);
    if !owned {
      return CardRuns.NotOwned;
    }
    if !Succeeded(answer) {
      return CardRuns.PassedOn;
    }
    if answer.id == "" {
      return CardRuns.NoIdInReply;
    }
    cards.RecordStmt(pk, answer.id);
    userCards.RecordStmt(reapUserID, answer.id);
    outcome := CardRuns.CardCreated(pk, answer.id);
  }

  method CreateAccount(mapping: ReapMapping.Store, accounts: Ownership.Store, pk: string, answer: Answer)
    returns (outcome: CardRuns.Outcome)
    modifies accounts
    ensures AccountDone(mapping.rows, old(accounts.owners), accounts.owners, pk, answer, outcome)
  {
    UserDecides(mapping.rows, pk);
    var reapUserID := ReapMapping.GetReapUserID(mapping.rows, pk);
    if reapUserID == "" {
      return CardRuns.NoReapUser;
    }
    if !Succeeded(answer) {
      return CardRuns.PassedOn;
    }
    if answer.id == "" {
      return CardRuns.NoIdInReply;
    }
    accounts.RecordStmt(pk, answer.id);
    outcome := CardRuns.AccountCreated(pk, answer.id);
  }

  // ---------- the model's request on its own ----------

  /** REAP may give this answer when the request gets there. */
  predicate Answerable(rows: ReapMapping.Table, s: CardRuns.State, c: CardRuns.Proc, answer: Answer) {
    match c
    case ResolvingForAccount(pk) =>
      CardRuns.MayIssue(s.issuedAccounts, ReapMapping.GetReapUserID(rows, pk), answer)
    case ResolvingForCard(pk, _) => CardRuns.MayIssue(s.issuedCards, ReapMapping.GetReapUserID(rows, pk), answer)
    case CreatingAccount(_, user) => CardRuns.MayIssue(s.issuedAccounts, user, answer)
    case CheckingAccount(_, user, _) => CardRuns.MayIssue(s.issuedCards, user, answer)
    case CreatingCard(_, user, _) => CardRuns.MayIssue(s.issuedCards, user, answer)
    case _ => true
  }

  function Next(c: CardRuns.Proc, answer: Answer): CardRuns.Step
    requires !c.Done?
  {
    match c
    case ResolvingForAccount(_) => CardRuns.Resolve(NoFault)
    case ResolvingForCard(_, _) => CardRuns.Resolve(NoFault)
    case CheckingAccount(_, _, _) => CardRuns.CheckAccount(NoFault)
    case CreatingAccount(_, _) => CardRuns.ReplyAccount(answer)
    case CreatingCard(_, _, _) => CardRuns.ReplyCard(answer)
    case RecordingAccount(_, _, _) => CardRuns.StoreAccount(NoFault)
    case RecordingCard(_, _, _) => CardRuns.StoreCard(NoFault)
    case RecordingUserCard(_, _, _) => CardRuns.StoreUserCard(NoFault)
  }

  function Rank(c: CardRuns.Proc): nat {
    match c
    case ResolvingForCard(_, _) => 5
    case CheckingAccount(_, _, _) => 4
    case CreatingCard(_, _, _) => 3
    case ResolvingForAccount(_) => 3
    case RecordingCard(_, _, _) => 2
    case CreatingAccount(_, _) => 2
    case Done(_) => 0
    case _ => 1
  }

  /** The request c in state s moves on, to something closer to its end. */
  predicate Onward(rows: ReapMapping.Table, s: CardRuns.State, p: Pid, answer: Answer) {
    && p in s.procs && !s.procs[p].Done? && CardRuns.Enabled(s, p, Next(s.procs[p], answer))
    && var s' := CardRuns.Apply(rows, s, p, Next(s.procs[p], answer));
       p in s'.procs && Answerable(rows, s', s'.procs[p], answer) && Rank(s'.procs[p]) < Rank(s.procs[p])
  }

  lemma ResolvesOnward(rows: ReapMapping.Table, s: CardRuns.State, p: Pid, answer: Answer)
    requires p in s.procs && Answerable(rows, s, s.procs[p], answer)
    requires s.procs[p].ResolvingForAccount? || s.procs[p].ResolvingForCard?
    ensures Onward(rows, s, p, answer)
  {}

  lemma ChecksOnward(rows: ReapMapping.Table, s: CardRuns.State, p: Pid, answer: Answer)
    requires p in s.procs && Answerable(rows, s, s.procs[p], answer) && s.procs[p].CheckingAccount?
    ensures Onward(rows, s, p, answer)
  {}

  lemma RepliesOnward(rows: ReapMapping.Table, s: CardRuns.State, p: Pid, answer: Answer)
    requires p in s.procs && Answerable(rows, s, s.procs[p], answer)
    requires s.procs[p].CreatingAccount? || s.procs[p].CreatingCard?
    ensures Onward(rows, s, p, answer)
  {}

  lemma StoresOnward(rows: ReapMapping.Table, s: CardRuns.State, p: Pid, answer: Answer)
    requires p in s.procs && Answerable(rows, s, s.procs[p], answer)
    requires s.procs[p].RecordingAccount? || s.procs[p].RecordingCard? || s.procs[p].RecordingUserCard?
    ensures Onward(rows, s, p, answer)
  {}

  lemma Progress(rows: ReapMapping.Table, s: CardRuns.State, p: Pid, answer: Answer)
    requires p in s.procs && !s.procs[p].Done? && Answerable(rows, s, s.procs[p], answer)
    ensures Onward(rows, s, p, answer)
  {
    match s.procs[p]
    case ResolvingForAccount(_) => ResolvesOnward(rows, s, p, answer);
    case ResolvingForCard(_, _) => ResolvesOnward(rows, s, p, answer);
    case CheckingAccount(_, _, _) => ChecksOnward(rows, s, p, answer);
    case CreatingAccount(_, _) => RepliesOnward(rows, s, p, answer);
    case CreatingCard(_, _, _) => RepliesOnward(rows, s, p, answer);
    case _ => StoresOnward(rows, s, p, answer);
  }

  /** p's remaining steps, uninterrupted and without faults. */
  function Finish(rows: ReapMapping.Table, s: CardRuns.State, p: Pid, answer: Answer): CardRuns.State
    requires p in s.procs && Answerable(rows, s, s.procs[p], answer)
    decreases Rank(s.procs[p])
  {
    if s.procs[p].Done? then s
    else
      Progress(rows, s, p, answer);
      Finish(rows, CardRuns.Apply(rows, s, p, Next(s.procs[p], answer)), p, answer)
  }

  /** What a phase of a card request ends in, from there. */
  lemma CardStoresEnd(rows: ReapMapping.Table, s: CardRuns.State, p: Pid, answer: Answer)
    requires p in s.procs && s.procs[p].RecordingCard?
    ensures var c, s' := s.procs[p], Finish(rows, s, p, answer);
      && p in s'.procs && s'.procs[p] == CardRuns.Done(CardRuns.CardCreated(c.pk, c.id))
      && Kept(s.cards, s'.cards, c.id, c.pk) && Kept(s.userCards, s'.userCards, c.id, c.user)
  {
    var s1 := CardRuns.Apply(rows, s, p, CardRuns.StoreCard(NoFault));
    var s2 := CardRuns.Apply(rows, s1, p, CardRuns.StoreUserCard(NoFault));
    assert Finish(rows, s, p, answer) == Finish(rows, s1, p, answer) == Finish(rows, s2, p, answer) == s2;
  }

  /** A card creation that nothing interrupts comes to what CreateCard comes to. */
  lemma LoneCardDone(rows: ReapMapping.Table, s: CardRuns.State, p: Pid, pk: string, account: string, answer: Answer)
    requires p !in s.procs && Answerable(rows, s, CardRuns.ResolvingForCard(pk, account), answer)
    ensures var s' := Finish(rows, CardRuns.Apply(rows, s, p, CardRuns.BeginCard(pk, account)), p, answer);
      && p in s'.procs && s'.procs[p].Done?
      && CardDone(rows, s.accounts, s.cards, s'.cards, s.userCards, s'.userCards, pk, account, answer,
                  s'.procs[p].outcome)
  {
    UserDecides(rows, pk);
    var s1 := CardRuns.Apply(rows, s, p, CardRuns.BeginCard(pk, account));
    var s2 := CardRuns.Apply(rows, s1, p, CardRuns.Resolve(NoFault));
    assert Finish(rows, s1, p, answer) == Finish(rows, s2, p, answer);
    if s2.procs[p].CheckingAccount? {
      CardCheckEnds(rows, s2, p, answer);
    }
  }

  lemma CardCheckEnds(rows: ReapMapping.Table, s: CardRuns.State, p: Pid, answer: Answer)
    requires p in s.procs && s.procs[p].CheckingAccount? && Answerable(rows, s, s.procs[p], answer)
    requires HasUser(rows, s.procs[p].pk, s.procs[p].user)
    ensures var c, s' := s.procs[p], Finish(rows, s, p, answer);
      && p in s'.procs && s'.procs[p].Done?
      && CardDone(rows, s.accounts, s.cards, s'.cards, s.userCards, s'.userCards, c.pk, c.account, answer,
                  s'.procs[p].outcome)
  {
    var s1 := CardRuns.Apply(rows, s, p, CardRuns.CheckAccount(NoFault));
    assert Finish(rows, s, p, answer) == Finish(rows, s1, p, answer);
    if s1.procs[p].CreatingCard? {
      CardReplyEnds(rows, s1, p, answer);
    }
  }

  lemma CardReplyEnds(rows: ReapMapping.Table, s: CardRuns.State, p: Pid, answer: Answer)
    requires p in s.procs && s.procs[p].CreatingCard? && Answerable(rows, s, s.procs[p], answer)
    ensures var c, s' := s.procs[p], Finish(rows, s, p, answer);
      && p in s'.procs
      && if Got2xx(answer) && answer.id != "" then
           && s'.procs[p] == CardRuns.Done(CardRuns.CardCreated(c.pk, answer.id))
           && Kept(s.cards, s'.cards, answer.id, c.pk) && Kept(s.userCards, s'.userCards, answer.id, c.user)
         else
           && s'.procs[p] == CardRuns.Done(if Got2xx(answer) then CardRuns.NoIdInReply else CardRuns.PassedOn)
           && s'.cards == s.cards && s'.userCards == s.userCards
  {
    var s1 := CardRuns.Apply(rows, s, p, CardRuns.ReplyCard(answer));
    assert Finish(rows, s, p, answer) == Finish(rows, s1, p, answer);
    if s1.procs[p].RecordingCard? {
      CardStoresEnd(rows, s1, p, answer);
    }
  }

  /** An account creation that nothing interrupts comes to what CreateAccount comes to. */
  lemma LoneAccountDone(rows: ReapMapping.Table, s: CardRuns.State, p: Pid, pk: string, answer: Answer)
    requires p !in s.procs && Answerable(rows, s, CardRuns.ResolvingForAccount(pk), answer)
    ensures var s' := Finish(rows, CardRuns.Apply(rows, s, p, CardRuns.BeginAccount(pk)), p, answer);
      && p in s'.procs && s'.procs[p].Done?
      && AccountDone(rows, s.accounts, s'.accounts, pk, answer, s'.procs[p].outcome)
  {
    UserDecides(rows, pk);
    var s1 := CardRuns.Apply(rows, s, p, CardRuns.BeginAccount(pk));
    var s2 := CardRuns.Apply(rows, s1, p, CardRuns.Resolve(NoFault));
    assert Finish(rows, s1, p, answer) == Finish(rows, s2, p, answer);
    if s2.procs[p].CreatingAccount? {
      AccountReplyEnds(rows, s2, p, answer);
    }
  }

  lemma AccountReplyEnds(rows: ReapMapping.Table, s: CardRuns.State, p: Pid, answer: Answer)
    requires p in s.procs && s.procs[p].CreatingAccount? && Answerable(rows, s, s.procs[p], answer)
    requires HasUser(rows, s.procs[p].pk, s.procs[p].user)
    ensures var c, s' := s.procs[p], Finish(rows, s, p, answer);
      && p in s'.procs && s'.procs[p].Done?
      && AccountDone(rows, s.accounts, s'.accounts, c.pk, answer, s'.procs[p].outcome)
  {
    var s1 := CardRuns.Apply(rows, s, p, CardRuns.ReplyAccount(answer));
    assert Finish(rows, s, p, answer) == Finish(rows, s1, p, answer);
    if s1.procs[p].RecordingAccount? {
      var s2 := CardRuns.Apply(rows, s1, p, CardRuns.StoreAccount(NoFault));
      assert Finish(rows, s1, p, answer) == Finish(rows, s2, p, answer) == s2;
    }
  }

  /** A statement whose caller sees an error ends the request; it changes all or nothing of its table. */
  lemma FaultsEnd(rows: ReapMapping.Table, s: CardRuns.State, p: Pid, answer: Answer, e: CardRuns.Step, fault: Fault)
    requires p in s.procs && !s.procs[p].Done? && CardRuns.Enabled(s, p, e) && !fault.NoFault?
    requires e == CardRuns.Resolve(fault) || e == CardRuns.CheckAccount(fault) || e == CardRuns.StoreAccount(fault)
             || e == CardRuns.StoreCard(fault) || e == CardRuns.StoreUserCard(fault)
    ensures var c, s' := s.procs[p], CardRuns.Apply(rows, s, p, e);
      && p in s'.procs && s'.procs[p] == CardRuns.Done(CardRuns.Failure)
      && (if c.RecordingAccount? && fault.NotAcknowledged? then Kept(s.accounts, s'.accounts, c.id, c.pk)
          else s'.accounts == s.accounts)
      && (if c.RecordingCard? && fault.NotAcknowledged? then Kept(s.cards, s'.cards, c.id, c.pk)
          else s'.cards == s.cards)
      && (if c.RecordingUserCard? && fault.NotAcknowledged? then Kept(s.userCards, s'.userCards, c.id, c.user)
          else s'.userCards == s.userCards)
  {}

  // ---------- shipment checks ----------

  /** shipmentCardIDs: the non-empty card IDs of a body; an error when it is unreadable or has none. */
  method ShipmentCardIDs(body: Option<seq<string>>) returns (ids: seq<string>, err: bool)
    ensures err <==> body.None? || forall i :: 0 <= i < |body.value| ==> body.value[i] == ""
    ensures body.Some? ==> ids == ShipmentRuns.NonEmpty(body.value) && err == (ids == [])
  {
    ids := [];
    if body.None? {
      return ids, true;
    }
    var cards := body.value;
    for i := 0 to |cards|
      invariant ids == ShipmentRuns.NonEmpty(cards[..i])
    {
      assert cards[..i + 1][..i] == cards[..i];
      if cards[i] != "" {
        ids := ids + [cards[i]];
      }
    }
    assert cards[..|cards|] == cards;
    err := |ids| == 0;
    if !err {
      assert ids[0] in cards;
    }
  }

  datatype Check = Passed | MissingScopeFilter | ResourceNotOwned

  /** Member i is the first at fault, and r says how. */
  ghost predicate FirstFault(owners: Ownership.Table, pk: string, members: seq<string>, i: nat, r: Check) {
    && i < |members|
    && (forall j :: 0 <= j < i ==> members[j] != "" && members[j] in owners && owners[members[j]] == pk)
    && (members[i] == "" || members[i] !in owners || owners[members[i]] != pk)
    && r == if members[i] == "" then MissingScopeFilter else ResourceNotOwned
  }

  /** checkShipmentMembers: the first member that fails decides the error. */
  method CheckShipmentMembers(cards: Ownership.Store, pk: string, members: seq<string>) returns (r: Check)
    ensures r.Passed? <==>
      && members != []
      && forall i :: 0 <= i < |members| ==>
           members[i] != "" && members[i] in cards.owners && cards.owners[members[i]] == pk
    ensures members == [] ==> r.MissingScopeFilter?
    ensures !r.Passed? && members != [] ==> exists i: nat :: FirstFault(cards.owners, pk, members, i, r)
  {
    if |members| == 0 {
      return MissingScopeFilter;
    }
    for i := 0 to |members|
      invariant ShipmentRuns.AllOwned(cards.owners, pk, members[..i])
    {
      if members[i] == "" {
        assert FirstFault(cards.owners, pk, members, i, MissingScopeFilter);
        return MissingScopeFilter;
      }
      var owned := cards.IsOwnerStmt(pk, members[i]);
      if !owned {
        assert FirstFault(cards.owners, pk, members, i, ResourceNotOwned);
        return ResourceNotOwned;
      }
    }
    assert members[..|members|] == members;
    r := Passed;
  }

  datatype Fetch = Owned | PassedOn | NoCards | OtherOwner

  /**
   fetchOwnedShipment on REAP's reply (None when not 2xx): passes exactly when every non-empty card
   of a readable body with at least one such card is the caller's, and says what else it found.
   */
  method FetchOwnedShipment(cards: Ownership.Store, pk: string, reply: Option<Option<seq<string>>>)
    returns (r: Fetch)
    ensures r.PassedOn? <==> reply.None?
    ensures r.NoCards? <==> reply.Some? && (reply.value.None? || ShipmentRuns.NonEmpty(reply.value.value) == [])
    ensures r.Owned? <==>
      && reply.Some? && reply.value.Some?
      && ShipmentRuns.NonEmpty(reply.value.value) != []
      && ShipmentRuns.AllOwned(cards.owners, pk, ShipmentRuns.NonEmpty(reply.value.value))
  {
    if reply.None? {
      return PassedOn;
    }
    var ids, err := ShipmentCardIDs(reply.value);
    if err {
      return NoCards;
    }
    for i := 0 to |ids|
      invariant ShipmentRuns.AllOwned(cards.owners, pk, ids[..i])
    {
      var owned := cards.IsOwnerStmt(pk, ids[i]);
      if !owned {
        return OtherOwner;
      }
    }
    assert ids[..|ids|] == ids;
    r := Owned;
  }
}
