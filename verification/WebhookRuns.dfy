/**
 Interleaved runs of WebhookService.HandleEvent over the event table and the notification queue.
 REAP may deliver an event any number of times, concurrently and with different bodies; anyone may
 deliver anything with any header, and WebhookSignature decides. The mapping and ownership tables are
 arguments that grow under the requests.
 */
module WebhookRuns {
  import opened GoText
  import ReapMapping
  import Ownership
  import opened Processes
  import WebhookSignature

  /** The fields of a webhook's data that identify its subject; an absent field is "". */
  datatype Data = Malformed | Data(id: string, cardId: string, accountId: string, cards: seq<string>)

  datatype Envelope = Envelope(id: string, eventType: string, data: Data)

  /** An accepted delivery as stored: the event type, the raw body, and the data it carries. */
  datatype Event = Event(eventType: string, body: string, data: Data)

  datatype Notification = Notification(eventId: string, vault: string, chainCode: string)

  datatype Subject = Card(id: string) | Account(id: string) | User(id: string) | NoSubject

  /** eventSubjectIDs. */
  function SubjectOf(eventType: string, data: Data): (r: Subject)
    ensures !r.NoSubject? ==> r.id != ""
  {
    if data.Malformed? then NoSubject
    else
      var first := if data.cardId == "" && |data.cards| > 0 then data.cards[0] else data.cardId;
      var card := if first == "" && eventType == "CARD_STATUS_UPDATED" then data.id else first;
      var account :=
        if data.accountId == "" && eventType == "ACCOUNT_STATUS_UPDATED" then data.id else data.accountId;
      if card != "" then Card(card)
      else if account != "" then Account(account)
      else if eventType == "USER_APPLICATION_STATUS_UPDATED" && data.id != "" then User(data.id)
      else NoSubject
  }

  datatype Tables = Tables(rows: ReapMapping.Table, cards: Ownership.Table, accounts: Ownership.Table)

  ghost function ResolveVault(t: Tables, eventType: string, data: Data): string {
    match SubjectOf(eventType, data)
    case Card(id) => Ownership.OwnerOf(t.cards, id)
    case Account(id) => Ownership.OwnerOf(t.accounts, id)
    case User(id) => ReapMapping.GetPublicKeyByReapUserID(t.rows, id)
    case NoSubject => ""
  }

  // ---------- whom an event concerns ----------

  /** The event names no card in its first two places: no cardId and no first shipped card. */
  predicate NoCardGiven(data: Data) {
    data.Data? && data.cardId == "" && (|data.cards| == 0 || data.cards[0] == "")
  }

  /** id is the event's card: its cardId, else its first shipped card, else a card event's own ID. */
  predicate NamesCard(eventType: string, data: Data, id: string) {
    data.Data? && id != "" &&
    (|| data.cardId == id
     || (data.cardId == "" && |data.cards| > 0 && data.cards[0] == id)
     || (NoCardGiven(data) && eventType == "CARD_STATUS_UPDATED" && data.id == id))
  }

  predicate NamesNoCard(eventType: string, data: Data) {
    NoCardGiven(data) && (eventType != "CARD_STATUS_UPDATED" || data.id == "")
  }

  /** id is the account of an event without a card: its accountId, else an account event's own ID. */
  predicate NamesAccount(eventType: string, data: Data, id: string) {
    NamesNoCard(eventType, data) && id != "" &&
    (data.accountId == id || (data.accountId == "" && eventType == "ACCOUNT_STATUS_UPDATED" && data.id == id))
  }

  /** id is the user of an event without a card and an account: a user event's own ID. */
  predicate NamesUser(eventType: string, data: Data, id: string) {
    && NamesNoCard(eventType, data) && data.accountId == ""
    && eventType == "USER_APPLICATION_STATUS_UPDATED" && data.id == id != ""
  }

  /** The event is v's: v owns its card, or its account, or has its user, in the respective table. */
  ghost predicate Concerns(t: Tables, eventType: string, data: Data, v: string) {
    || (exists id :: NamesCard(eventType, data, id) && id in t.cards && t.cards[id] == v)
    || (exists id :: NamesAccount(eventType, data, id) && id in t.accounts && t.accounts[id] == v)
    || (exists id :: NamesUser(eventType, data, id) && v in t.rows && t.rows[v].userId == Some(id))
  }

  /** An event resolves to exactly the vault it concerns. */
  lemma ResolvesExactly(t: Tables, eventType: string, data: Data, v: string)
    requires ReapMapping.Unique(t.rows) && v != ""
    ensures ResolveVault(t, eventType, data) == v <==> Concerns(t, eventType, data, v)
  {
    var subject := SubjectOf(eventType, data);
    match subject
    case Card(id) =>
      assert NamesCard(eventType, data, id) && forall other :: NamesCard(eventType, data, other) ==> other == id;
    case Account(id) =>
      assert NamesAccount(eventType, data, id) && forall other :: NamesAccount(eventType, data, other) ==> other == id;
    case User(id) =>
      assert NamesUser(eventType, data, id) && forall other :: NamesUser(eventType, data, other) ==> other == id;
      assert forall pk :: ReapMapping.MapsTo(t.rows, pk, id) <==> pk in t.rows && t.rows[pk].userId == Some(id);
    case NoSubject =>
  }

  ghost predicate TablesEvolve(t: Tables, t': Tables) {
    && ReapMapping.Evolves(t.rows, t'.rows)
    && ReapMapping.Unique(t'.rows)
    && Ownership.Grows(t.cards, t'.cards)
    && Ownership.Grows(t.accounts, t'.accounts)
  }

  /** Once an event resolves to a vault, it resolves to that vault for ever. */
  lemma StableResolution(t: Tables, t': Tables, eventType: string, data: Data)
    requires TablesEvolve(t, t') && ResolveVault(t, eventType, data) != ""
    ensures ResolveVault(t', eventType, data) == ResolveVault(t, eventType, data)
  {
    var subject := SubjectOf(eventType, data);
    if subject.User? {
      ReapMapping.ReverseLookupStable(t.rows, t'.rows, subject.id);
    }
  }

  lemma StableChainCode(t: Tables, t': Tables, vault: string)
    requires TablesEvolve(t, t') && ReapMapping.GetHexChainCode(t.rows, vault) != ""
    ensures ReapMapping.GetHexChainCode(t'.rows, vault) == ReapMapping.GetHexChainCode(t.rows, vault)
  {}

  datatype Outcome =
    | BadSignature | BadPayload | Duplicate | Failure | NotResolved | NoChainCode | Pushed | NotConfigured

  datatype Proc =
    | Recording(env: Envelope, body: string)
    | Resolving(eventId: string, eventType: string, data: Data)
    | ReadingCode(eventId: string, vault: string)
    | Notifying(eventId: string, vault: string, chainCode: string)
    | Done(outcome: Outcome)

  /** Whether a notification client exists, the signing secret, HMAC-SHA256, and how a body is read. */
  datatype Config = Config(
    notifies: bool,
    secret: string,
    hmac: (string, string) -> seq<byte>,
    parse: string -> Option<Envelope>)

  /** recordedBy is history. */
  datatype State = State(
    config: Config,
    events: map<string, Event>,
    queue: seq<Notification>,
    procs: map<Pid, Proc>,
    recordedBy: map<string, Pid>)

  ghost predicate IsInit(s: State) {
    s.events == map[] && s.queue == [] && s.procs == map[] && s.recordedBy == map[]
  }

  /** A delivery is any body with any signature header, at any time `now`. */
  datatype Step =
    | Deliver(body: string, header: string, now: int)
    | Store(fault: Fault)
    | Resolve(fault: Fault)
    | ReadCode(fault: Fault)
    | Push(fault: Fault)
    | Crash

  predicate Enabled(s: State, p: Pid, e: Step) {
    match e
    case Deliver(_, _, _) => p !in s.procs
    case Store(_) => p in s.procs && s.procs[p].Recording?
    case Resolve(_) => p in s.procs && s.procs[p].Resolving?
    case ReadCode(_) => p in s.procs && s.procs[p].ReadingCode?
    case Push(_) => p in s.procs && s.procs[p].Notifying?
    case Crash => p in s.procs && !s.procs[p].Done?
  }

  function AfterDeliver(config: Config, body: string, header: string, now: int): Proc {
    var env := config.parse(body);
    if !WebhookSignature.Accepts(config.hmac, config.secret, body, header, now) then Done(BadSignature)
    else if env.None? || env.value.id == "" || env.value.eventType == "" then Done(BadPayload)
    else Recording(env.value, body)
  }

  function AfterStore(s: State, c: Proc, fault: Fault): Proc
    requires c.Recording?
  {
    if !fault.NoFault? then Done(Failure)
    else if c.env.id in s.events then Done(Duplicate)
    else if s.config.notifies then Resolving(c.env.id, c.env.eventType, c.env.data)
    else Done(NotConfigured)
  }

  ghost function AfterResolve(t: Tables, c: Proc, fault: Fault): Proc
    requires c.Resolving?
  {
    var vault := ResolveVault(t, c.eventType, c.data);
    if !fault.NoFault? then Done(Failure)
    else if vault == "" then Done(NotResolved)
    else ReadingCode(c.eventId, vault)
  }

  function AfterReadCode(t: Tables, c: Proc, fault: Fault): Proc
    requires c.ReadingCode?
  {
    var code := ReapMapping.GetHexChainCode(t.rows, c.vault);
    if !fault.NoFault? then Done(Failure)
    else if code == "" then Done(NoChainCode)
    else Notifying(c.eventId, c.vault, code)
  }

  ghost function Apply(t: Tables, s: State, p: Pid, e: Step): State
    requires Enabled(s, p, e)
  {
    match e
    case Deliver(body, header, now) => s.(procs := s.procs[p := AfterDeliver(s.config, body, header, now)])
    case Store(fault) =>
      var c := s.procs[p];
      var inserted := c.env.id !in s.events && !fault.NotApplied?;
      s.(events := if inserted then s.events[c.env.id := Event(c.env.eventType, c.body, c.env.data)] else s.events,
         recordedBy := if inserted then s.recordedBy[c.env.id := p] else s.recordedBy,
         procs := s.procs[p := AfterStore(s, c, fault)])
    case Resolve(fault) => s.(procs := s.procs[p := AfterResolve(t, s.procs[p], fault)])
    case ReadCode(fault) => s.(procs := s.procs[p := AfterReadCode(t, s.procs[p], fault)])
    case Push(fault) =>
      var c := s.procs[p];
      s.(queue := if fault.NotApplied? then s.queue else s.queue + [Notification(c.eventId, c.vault, c.chainCode)],
         procs := s.procs[p := Done(if fault.NoFault? then Pushed else Failure)])
    case Crash => s.(procs := s.procs[p := Done(Failure)])
  }

  // ---------- the invariant ----------

  predicate Pending(c: Proc) {
    c.Resolving? || c.ReadingCode? || c.Notifying?
  }

  /** vault is where the recorded event resolves. */
  ghost predicate Addressed(t: Tables, events: map<string, Event>, eventId: string, vault: string) {
    && eventId in events
    && vault != ""
    && ResolveVault(t, events[eventId].eventType, events[eventId].data) == vault
  }

  /** code is the vault's recorded chain code. */
  ghost predicate CodeOf(t: Tables, vault: string, code: string) {
    code != "" && ReapMapping.GetHexChainCode(t.rows, vault) == code
  }

  ghost predicate Queued(queue: seq<Notification>, eventId: string) {
    exists i :: 0 <= i < |queue| && queue[i].eventId == eventId
  }

  /** Only the request that inserted the row goes on to notify, and it has not done so yet. */
  ghost predicate ProcOk(t: Tables, s: State, p: Pid, c: Proc) {
    && (Pending(c) ==>
          && c.eventId in s.events && c.eventId in s.recordedBy && s.recordedBy[c.eventId] == p
          && !Queued(s.queue, c.eventId))
    && (c.Resolving? ==> s.events[c.eventId].eventType == c.eventType && s.events[c.eventId].data == c.data)
    && (c.ReadingCode? || c.Notifying? ==> Addressed(t, s.events, c.eventId, c.vault))
    && (c.Notifying? ==> CodeOf(t, c.vault, c.chainCode))
  }

  ghost predicate ProcsOk(t: Tables, s: State) {
    forall p :: p in s.procs ==> ProcOk(t, s, p, s.procs[p])
  }

  ghost predicate QueueOk(t: Tables, s: State) {
    && (forall n :: n in s.queue ==> Addressed(t, s.events, n.eventId, n.vault) && CodeOf(t, n.vault, n.chainCode))
    && (forall i, j :: 0 <= i < j < |s.queue| ==> s.queue[i].eventId != s.queue[j].eventId)
  }

  ghost predicate Inv(t: Tables, s: State) {
    s.recordedBy.Keys == s.events.Keys && ProcsOk(t, s) && QueueOk(t, s)
  }

  /** Recorded events are never changed. */
  ghost predicate EventsKept(s: State, s': State) {
    && s'.config == s.config
    && forall id :: id in s.events ==> id in s'.events && s'.events[id] == s.events[id]
  }

  lemma AddressedStable(t: Tables, t': Tables, events: map<string, Event>, eventId: string, vault: string)
    requires Addressed(t, events, eventId, vault) && TablesEvolve(t, t')
    ensures Addressed(t', events, eventId, vault)
  {
    StableResolution(t, t', events[eventId].eventType, events[eventId].data);
  }

  /** Growth of the tables keeps every request and every notification correctly addressed. */
  lemma TablesEvolveKeeps(t: Tables, t': Tables, s: State)
    requires Inv(t, s) && TablesEvolve(t, t')
    ensures Inv(t', s)
  {
    forall p | p in s.procs ensures ProcOk(t', s, p, s.procs[p]) {
      var c := s.procs[p];
      assert ProcOk(t, s, p, c);
      if c.ReadingCode? || c.Notifying? {
        AddressedStable(t, t', s.events, c.eventId, c.vault);
      }
    }
    forall n | n in s.queue ensures Addressed(t', s.events, n.eventId, n.vault) && CodeOf(t', n.vault, n.chainCode) {
      AddressedStable(t, t', s.events, n.eventId, n.vault);
    }
  }

  /** A request moves to c; nothing else changes. */
  lemma MoveKeeps(t: Tables, s: State, p: Pid, c: Proc)
    requires Inv(t, s) && ProcOk(t, s, p, c)
    ensures Inv(t, s.(procs := s.procs[p := c]))
  {
    var s' := s.(procs := s.procs[p := c]);
    forall q | q in s'.procs ensures ProcOk(t, s', q, s'.procs[q]) {
      assert q != p ==> ProcOk(t, s, q, s.procs[q]);
    }
  }

  lemma ResolveKeeps(t: Tables, s: State, p: Pid, fault: Fault)
    requires Inv(t, s) && Enabled(s, p, Resolve(fault))
    ensures Inv(t, Apply(t, s, p, Resolve(fault)))
  {
    assert ProcOk(t, s, p, s.procs[p]);
    MoveKeeps(t, s, p, AfterResolve(t, s.procs[p], fault));
  }

  lemma ReadCodeKeeps(t: Tables, s: State, p: Pid, fault: Fault)
    requires Inv(t, s) && Enabled(s, p, ReadCode(fault))
    ensures Inv(t, Apply(t, s, p, ReadCode(fault)))
  {
    assert ProcOk(t, s, p, s.procs[p]);
    MoveKeeps(t, s, p, AfterReadCode(t, s.procs[p], fault));
  }

  /** An inserted row is new to every request and to the queue. */
  lemma StoreKeeps(t: Tables, s: State, p: Pid, fault: Fault)
    requires Inv(t, s) && Enabled(s, p, Store(fault))
    ensures var s' := Apply(t, s, p, Store(fault)); Inv(t, s') && EventsKept(s, s')
  {
    var c, s' := s.procs[p], Apply(t, s, p, Store(fault));
    if c.env.id in s.events || fault.NotApplied? {
      MoveKeeps(t, s, p, AfterStore(s, c, fault));
    } else {
      assert !Queued(s.queue, c.env.id) by {
        assert forall n :: n in s.queue ==> n.eventId in s.events;
      }
      forall q | q in s'.procs ensures ProcOk(t, s', q, s'.procs[q]) {
        assert q != p ==> ProcOk(t, s, q, s.procs[q]);
      }
    }
  }

  lemma PushKeeps(t: Tables, s: State, p: Pid, fault: Fault)
    requires Inv(t, s) && Enabled(s, p, Push(fault))
    ensures Inv(t, Apply(t, s, p, Push(fault)))
  {
    var c, s' := s.procs[p], Apply(t, s, p, Push(fault));
    assert ProcOk(t, s, p, c);
    forall q | q in s'.procs ensures ProcOk(t, s', q, s'.procs[q]) {
      assert q != p ==> ProcOk(t, s, q, s.procs[q]);
    }
    assert forall i :: 0 <= i < |s.queue| ==> s.queue[i].eventId != c.eventId;
  }

  lemma StepKeeps(t: Tables, s: State, p: Pid, e: Step)
    requires Inv(t, s) && Enabled(s, p, e)
    ensures Inv(t, Apply(t, s, p, e)) && EventsKept(s, Apply(t, s, p, e))
  {
    match e
    case Deliver(body, header, now) => MoveKeeps(t, s, p, AfterDeliver(s.config, body, header, now));
    case Store(fault) => StoreKeeps(t, s, p, fault);
    case Resolve(fault) => ResolveKeeps(t, s, p, fault);
    case ReadCode(fault) => ReadCodeKeeps(t, s, p, fault);
    case Push(fault) => PushKeeps(t, s, p, fault);
    case Crash => MoveKeeps(t, s, p, Done(Failure));
  }

  // ---------- where events come from ----------

  /** body came with a header that passed verification. */
  ghost predicate Signed(config: Config, body: string) {
    exists header, now :: WebhookSignature.Accepts(config.hmac, config.secret, body, header, now)
  }

  /** The event is what a signed body says. */
  ghost predicate Genuine(config: Config, id: string, event: Event) {
    Signed(config, event.body) && config.parse(event.body) == Some(Envelope(id, event.eventType, event.data))
  }

  ghost predicate ProcGenuine(config: Config, c: Proc) {
    c.Recording? ==> Genuine(config, c.env.id, Event(c.env.eventType, c.body, c.env.data))
  }

  ghost predicate EventsGenuine(config: Config, events: map<string, Event>) {
    forall id :: id in events ==> Genuine(config, id, events[id])
  }

  ghost predicate ProcsGenuine(config: Config, procs: map<Pid, Proc>) {
    forall p :: p in procs ==> ProcGenuine(config, procs[p])
  }

  /** Every recorded event, and every one about to be, comes from a signed body. */
  ghost predicate Sourced(s: State) {
    EventsGenuine(s.config, s.events) && ProcsGenuine(s.config, s.procs)
  }

  lemma EventAdded(config: Config, events: map<string, Event>, id: string, event: Event)
    requires EventsGenuine(config, events) && Genuine(config, id, event)
    ensures EventsGenuine(config, events[id := event])
  {}

  lemma ProcMoved(config: Config, procs: map<Pid, Proc>, p: Pid, c: Proc)
    requires ProcsGenuine(config, procs) && ProcGenuine(config, c)
    ensures ProcsGenuine(config, procs[p := c])
  {}

  lemma DeliverGenuine(config: Config, body: string, header: string, now: int)
    ensures ProcGenuine(config, AfterDeliver(config, body, header, now))
  {
    assert WebhookSignature.Accepts(config.hmac, config.secret, body, header, now) ==> Signed(config, body);
  }

  lemma StoreSourced(t: Tables, s: State, p: Pid, fault: Fault)
    requires Sourced(s) && Enabled(s, p, Store(fault))
    ensures Sourced(Apply(t, s, p, Store(fault)))
  {
    var c := s.procs[p];
    assert ProcGenuine(s.config, c);
    EventAdded(s.config, s.events, c.env.id, Event(c.env.eventType, c.body, c.env.data));
    ProcMoved(s.config, s.procs, p, AfterStore(s, c, fault));
  }

  /** Every step but a store only moves its request. */
  lemma OtherStepMoves(t: Tables, s: State, p: Pid, e: Step)
    requires Enabled(s, p, e) && !e.Store?
    ensures var s' := Apply(t, s, p, e);
      && s'.events == s.events && s'.config == s.config
      && p in s'.procs && s'.procs == s.procs[p := s'.procs[p]]
      && (e.Deliver? ==> s'.procs[p] == AfterDeliver(s.config, e.body, e.header, e.now))
      && (!e.Deliver? ==> !s'.procs[p].Recording?)
  {}

  lemma StepSourced(t: Tables, s: State, p: Pid, e: Step)
    requires Sourced(s) && Enabled(s, p, e)
    ensures Sourced(Apply(t, s, p, e))
  {
    if e.Store? {
      StoreSourced(t, s, p, e.fault);
    } else {
      OtherStepMoves(t, s, p, e);
      if e.Deliver? {
        DeliverGenuine(s.config, e.body, e.header, e.now);
      }
      ProcMoved(s.config, s.procs, p, Apply(t, s, p, e).procs[p]);
    }
  }

  /** A recorded event's body was signed with the secret under some accepted timestamp text. */
  lemma EventSigned(s: State, id: string) returns (timestamp: string, signature: string)
    requires Sourced(s) && id in s.events
    ensures ParseInt(timestamp).Some?
    ensures HexDecode(signature)
         == Some(s.config.hmac(s.config.secret, WebhookSignature.Preimage(timestamp, s.events[id].body)))
    ensures s.config.parse(s.events[id].body) == Some(Envelope(id, s.events[id].eventType, s.events[id].data))
  {
    var event := s.events[id];
    assert Genuine(s.config, id, event);
    var header, now :| WebhookSignature.Accepts(s.config.hmac, s.config.secret, event.body, header, now);
    var i, j := WebhookSignature.AcceptedHeaderSigned(s.config.hmac, s.config.secret, event.body, header, now);
    timestamp, signature := Split(header, ',')[i][2..], Split(header, ',')[j][3..];
  }

  // ---------- the code's own form ----------

  /** eventSubjectIDs as written: three result variables filled branch by branch, at most one set. */
  method EventSubjectIDs(eventType: string, data: Data) returns (cardID: string, accountID: string, userID: string)
    ensures SubjectOf(eventType, data)
         == if cardID != "" then Card(cardID) else if accountID != "" then Account(accountID)
            else if userID != "" then User(userID) else NoSubject
    ensures cardID != "" ==> accountID == "" && userID == ""
    ensures accountID != "" ==> userID == ""
  {
    cardID, accountID, userID := "", "", "";
    if data.Malformed? {
      return;
    }
    cardID := data.cardId;
    if cardID == "" && |data.cards| > 0 {
      cardID := data.cards[0];
    }
    if cardID == "" && eventType == "CARD_STATUS_UPDATED" {
      cardID := data.id;
    }
    if cardID != "" {
      return;
    }
    accountID := data.accountId;
    if accountID == "" && eventType == "ACCOUNT_STATUS_UPDATED" {
      accountID := data.id;
    }
    if accountID != "" {
      return;
    }
    if eventType == "USER_APPLICATION_STATUS_UPDATED" && data.id != "" {
      userID := data.id;
    }
  }
}
