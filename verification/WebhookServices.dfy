/**
 WebhookService.HandleEvent as the Go code runs it, on the store objects and with nothing else running
 in between: what one delivery comes to, in terms of the tables and the event's fields, for the code
 and for the interleaving model alike.
 */
module WebhookServices {
  import opened GoText
  import opened Processes
  import opened WebhookRuns
  import ReapMapping
  import Ownership
  import WebhookSignature

  // ---------- what one delivery comes to ----------

  /** The vault's recorded chain code is code. */
  predicate HasCode(t: Tables, v: string, code: string) {
    code != "" && v in t.rows && t.rows[v].chainCode == Some(code)
  }

  ghost predicate NobodyConcerned(t: Tables, eventType: string, data: Data) {
    forall v :: v != "" ==> !Concerns(t, eventType, data, v)
  }

  /** After a new event was recorded: it is pushed to the vault it concerns, if that has a chain code. */
  ghost predicate Notified(t: Tables, config: Config, env: Envelope, queue: seq<Notification>,
                           queue': seq<Notification>, outcome: Outcome)
  {
    match outcome
    case NotConfigured => !config.notifies && queue' == queue
    case NotResolved => config.notifies && NobodyConcerned(t, env.eventType, env.data) && queue' == queue
    case NoChainCode =>
      && config.notifies && queue' == queue
      && exists v :: v != "" && Concerns(t, env.eventType, env.data, v) && forall code :: !HasCode(t, v, code)
    case Pushed =>
      && config.notifies
      && exists v, code :: v != "" && Concerns(t, env.eventType, env.data, v) && HasCode(t, v, code)
                           && queue' == queue + [Notification(env.id, v, code)]
    case _ => false
  }

  /** A body with a header that fits it, that is an envelope, is recorded if its ID is new. */
  ghost predicate Handled(t: Tables, config: Config, events: map<string, Event>, events': map<string, Event>,
                          queue: seq<Notification>, queue': seq<Notification>, body: string, header: string, now: int,
                          outcome: Outcome)
  {
    var env := config.parse(body);
    if !WebhookSignature.SomeFit(config.hmac, config.secret, body, Split(header, ','), now) then
      outcome == BadSignature && events' == events && queue' == queue
    else if env.None? || env.value.id == "" || env.value.eventType == "" then
      outcome == BadPayload && events' == events && queue' == queue
    else if env.value.id in events then
      outcome == Duplicate && events' == events && queue' == queue
    else
      && events' == events[env.value.id := Event(env.value.eventType, body, env.value.data)]
      && Notified(t, config, env.value, queue, queue', outcome)
  }

  lemma ResolutionDecides(t: Tables, eventType: string, data: Data)
    requires ReapMapping.Unique(t.rows)
    ensures var v := ResolveVault(t, eventType, data);
      && (v == "" ==> NobodyConcerned(t, eventType, data))
      && (v != "" ==> Concerns(t, eventType, data, v))
  {
    forall v | v != "" ensures ResolveVault(t, eventType, data) == v <==> Concerns(t, eventType, data, v) {
      ResolvesExactly(t, eventType, data, v);
    }
  }

  // ---------- the service ----------

  /** reapwebhookevent: the recorded events. */
  class EventStore {
    var events: map<string, Event>

    constructor ()
      ensures events == map[]
    {
      events := map[];
    }

    method RecordStmt(id: string, event: Event) returns (inserted: bool)
      modifies this
      ensures inserted <==> id !in old(events)
      ensures events == if id in old(events) then old(events) else old(events)[id := event]
    {
      inserted := id !in events;
      if inserted {
        events := events[id := event];
      }
    }
  }

  /** The notification queue. */
  class Queue {
    var sent: seq<Notification>

    constructor ()
      ensures sent == []
    {
      sent := [];
    }

    method Notify(n: Notification)
      modifies this
      ensures sent == old(sent) + [n]
    {
      sent := sent + [n];
    }
  }

  method ResolveVaultStmt(mapping: ReapMapping.Store, cards: Ownership.Store, accounts: Ownership.Store,
                          eventType: string, data: Data)
    returns (v: string)
    requires ReapMapping.Unique(mapping.rows)
    ensures var t := Tables(mapping.rows, cards.owners, accounts.owners);
      && (v == "" ==> NobodyConcerned(t, eventType, data))
      && (v != "" ==> Concerns(t, eventType, data, v))
  {
    ResolutionDecides(Tables(mapping.rows, cards.owners, accounts.owners), eventType, data);
    var cardID, accountID, userID := EventSubjectIDs(eventType, data);
    if cardID != "" {
      v := cards.OwnerOfStmt(cardID);
    } else if accountID != "" {
      v := accounts.OwnerOfStmt(accountID);
    } else if userID != "" {
      v := mapping.GetPublicKeyByReapUserIDStmt(userID);
    } else {
      v := "";
    }
  }

  method NotifyVault(mapping: ReapMapping.Store, cards: Ownership.Store, accounts: Ownership.Store, queue: Queue,
                     config: Config, env: Envelope)
    returns (outcome: Outcome)
    requires ReapMapping.Unique(mapping.rows)
    modifies queue
    ensures Notified(Tables(mapping.rows, cards.owners, accounts.owners), config, env, old(queue.sent), queue.sent,
                     outcome)
  {
    if !config.notifies {
      return NotConfigured;
    }
    var vault := ResolveVaultStmt(mapping, cards, accounts, env.eventType, env.data);
    if vault == "" {
      return NotResolved;
    }
    var code := ReapMapping.GetHexChainCode(mapping.rows, vault);
    if code == "" {
      return NoChainCode;
    }
    queue.Notify(Notification(env.id, vault, code));
    outcome := Pushed;
  }

  method HandleEvent(mapping: ReapMapping.Store, cards: Ownership.Store, accounts: Ownership.Store, store: EventStore,
                     queue: Queue, config: Config, body: string, header: string, now: int)
    returns (outcome: Outcome)
    requires ReapMapping.Unique(mapping.rows)
    modifies store, queue
    ensures Handled(Tables(mapping.rows, cards.owners, accounts.owners), config, old(store.events), store.events,
                    old(queue.sent), queue.sent, body, header, now, outcome)
  {
    var valid := WebhookSignature.VerifyWebhookSignature(config.hmac, config.secret, body, header, now);
    if !valid {
      return BadSignature;
    }
    var env := config.parse(body);
    if env.None? || env.value.id == "" || env.value.eventType == "" {
      return BadPayload;
    }
    var inserted := store.RecordStmt(env.value.id, Event(env.value.eventType, body, env.value.data));
    if !inserted {
      return Duplicate;
    }
    outcome := NotifyVault(mapping, cards, accounts, queue, config, env.value);
  }

  // ---------- the model's request on its own ----------

  function Rank(c: Proc): nat {
    match c
    case Recording(_, _) => 4
    case Resolving(_, _, _) => 3
    case ReadingCode(_, _) => 2
    case Notifying(_, _, _) => 1
    case Done(_) => 0
  }

  function Next(c: Proc): Step
    requires !c.Done?
  {
    match c
    case Recording(_, _) => Store(NoFault)
    case Resolving(_, _, _) => Resolve(NoFault)
    case ReadingCode(_, _) => ReadCode(NoFault)
    case Notifying(_, _, _) => Push(NoFault)
  }

  lemma Progress(t: Tables, s: State, p: Pid)
    requires p in s.procs && !s.procs[p].Done?
    ensures Enabled(s, p, Next(s.procs[p]))
    ensures var s' := Apply(t, s, p, Next(s.procs[p])); p in s'.procs && Rank(s'.procs[p]) < Rank(s.procs[p])
  {}

  /** p's remaining steps, uninterrupted and without faults. */
  ghost function Finish(t: Tables, s: State, p: Pid): State
    requires p in s.procs
    decreases Rank(s.procs[p])
  {
    if s.procs[p].Done? then s
    else
      Progress(t, s, p);
      Finish(t, Apply(t, s, p, Next(s.procs[p])), p)
  }

  lemma CodeDecides(t: Tables, v: string)
    ensures var code := ReapMapping.GetHexChainCode(t.rows, v);
      && (code == "" ==> forall other :: !HasCode(t, v, other))
      && (code != "" ==> HasCode(t, v, code))
  {}

  lemma NotifyingEnds(t: Tables, s: State, p: Pid)
    requires p in s.procs && s.procs[p].Notifying?
    ensures var c, s' := s.procs[p], Finish(t, s, p);
      && p in s'.procs && s'.procs[p] == Done(Pushed)
      && s'.events == s.events && s'.queue == s.queue + [Notification(c.eventId, c.vault, c.chainCode)]
  {
    var s' := Apply(t, s, p, Push(NoFault));
    assert Finish(t, s, p) == Finish(t, s', p) == s';
  }

  lemma ReadingEnds(t: Tables, s: State, p: Pid)
    requires p in s.procs && s.procs[p].ReadingCode?
    ensures var c, s' := s.procs[p], Finish(t, s, p);
      var code := ReapMapping.GetHexChainCode(t.rows, c.vault);
      && p in s'.procs && s'.events == s.events
      && s'.procs[p] == Done(if code == "" then NoChainCode else Pushed)
      && s'.queue == if code == "" then s.queue else s.queue + [Notification(c.eventId, c.vault, code)]
  {
    var s' := Apply(t, s, p, ReadCode(NoFault));
    assert Finish(t, s, p) == Finish(t, s', p);
    if s'.procs[p].Notifying? {
      NotifyingEnds(t, s', p);
    }
  }

  lemma ResolvingEnds(t: Tables, s: State, p: Pid)
    requires ReapMapping.Unique(t.rows) && p in s.procs && s.procs[p].Resolving? && s.config.notifies
    ensures var c, s' := s.procs[p], Finish(t, s, p);
      && p in s'.procs && s'.procs[p].Done? && s'.events == s.events
      && Notified(t, s.config, Envelope(c.eventId, c.eventType, c.data), s.queue, s'.queue, s'.procs[p].outcome)
  {
    var c, s' := s.procs[p], Apply(t, s, p, Resolve(NoFault));
    assert Finish(t, s, p) == Finish(t, s', p);
    ResolutionDecides(t, c.eventType, c.data);
    var v := ResolveVault(t, c.eventType, c.data);
    CodeDecides(t, v);
    if v != "" {
      ReadingEnds(t, s', p);
    }
  }

  lemma RecordingEnds(t: Tables, s: State, p: Pid)
    requires ReapMapping.Unique(t.rows) && p in s.procs && s.procs[p].Recording?
    ensures var c, s' := s.procs[p], Finish(t, s, p);
      && p in s'.procs && s'.procs[p].Done?
      && if c.env.id in s.events then
           s'.procs[p] == Done(Duplicate) && s'.events == s.events && s'.queue == s.queue
         else
           && s'.events == s.events[c.env.id := Event(c.env.eventType, c.body, c.env.data)]
           && Notified(t, s.config, c.env, s.queue, s'.queue, s'.procs[p].outcome)
  {
    var c, s' := s.procs[p], Apply(t, s, p, Store(NoFault));
    assert Finish(t, s, p) == Finish(t, s', p);
    if s'.procs[p].Resolving? {
      ResolvingEnds(t, s', p);
      assert Envelope(c.env.id, c.env.eventType, c.env.data) == c.env;
    }
  }

  /** A delivery that nothing interrupts comes to what HandleEvent comes to. */
  lemma LoneDeliveryHandled(t: Tables, s: State, p: Pid, body: string, header: string, now: int)
    requires ReapMapping.Unique(t.rows) && p !in s.procs
    ensures Enabled(s, p, Deliver(body, header, now))
    ensures var s' := Finish(t, Apply(t, s, p, Deliver(body, header, now)), p);
      && p in s'.procs && s'.procs[p].Done?
      && Handled(t, s.config, s.events, s'.events, s.queue, s'.queue, body, header, now, s'.procs[p].outcome)
  {
    WebhookSignature.AcceptsExactly(s.config.hmac, s.config.secret, body, header, now);
    var s1 := Apply(t, s, p, Deliver(body, header, now));
    if s1.procs[p].Recording? {
      RecordingEnds(t, s1, p);
    }
  }

  /**
   A statement whose caller sees an error ends the delivery; it records the event or queues the
   notification all the same exactly when it was only unacknowledged.
   */
  lemma FaultsEnd(t: Tables, s: State, p: Pid, fault: Fault)
    requires p in s.procs && !fault.NoFault?
    ensures s.procs[p].Recording? ==>
      var c, s' := s.procs[p], Apply(t, s, p, Store(fault));
      && p in s'.procs && s'.procs[p] == Done(Failure) && s'.queue == s.queue
      && s'.events == if fault.NotAcknowledged? && c.env.id !in s.events
                      then s.events[c.env.id := Event(c.env.eventType, c.body, c.env.data)] else s.events
    ensures s.procs[p].Resolving? ==>
      var s' := Apply(t, s, p, Resolve(fault));
      p in s'.procs && s'.procs[p] == Done(Failure) && s'.queue == s.queue && s'.events == s.events
    ensures s.procs[p].ReadingCode? ==>
      var s' := Apply(t, s, p, ReadCode(fault));
      p in s'.procs && s'.procs[p] == Done(Failure) && s'.queue == s.queue && s'.events == s.events
    ensures s.procs[p].Notifying? ==>
      var c, s' := s.procs[p], Apply(t, s, p, Push(fault));
      && p in s'.procs && s'.procs[p] == Done(Failure) && s'.events == s.events
      && s'.queue == if fault.NotAcknowledged? then s.queue + [Notification(c.eventId, c.vault, c.chainCode)]
                     else s.queue
  {}
}
