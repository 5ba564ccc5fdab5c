/**
 The whole backend: the mapping, card, shipment and webhook services running interleaved over shared
 tables. Each service's steps keep its own invariant; every other service relies only on tables
 growing the way those steps make them grow. The theorems speak of whole runs from empty tables.
 */
module Backend {
  import opened GoText
  import opened Processes
  import ReapMapping
  import Ownership
  import MappingRuns
  import MappingSafety
  import MappingTimely
  import CardRuns
  import ShipmentRuns
  import WebhookRuns
  import WebhookSignature
  import ListFilters

  datatype State = State(
    mapping: MappingRuns.State,
    card: CardRuns.State,
    shipment: ShipmentRuns.State,
    webhook: WebhookRuns.State)

  datatype Step =
    | Mapping(m: MappingRuns.Step)
    | Card(p: Pid, c: CardRuns.Step)
    | Shipment(p: Pid, s: ShipmentRuns.Step)
    | Webhook(p: Pid, w: WebhookRuns.Step)

  function TablesOf(s: State): WebhookRuns.Tables {
    WebhookRuns.Tables(s.mapping.rows, s.card.cards, s.card.accounts)
  }

  predicate Enabled(s: State, e: Step) {
    match e
    case Mapping(m) => MappingRuns.Enabled(s.mapping, m)
    case Card(p, c) => CardRuns.Enabled(s.card, p, c)
    case Shipment(p, h) => ShipmentRuns.Enabled(s.shipment, p, h)
    case Webhook(p, w) => WebhookRuns.Enabled(s.webhook, p, w)
  }

  ghost function Apply(s: State, e: Step): State
    requires Enabled(s, e)
  {
    match e
    case Mapping(m) => s.(mapping := MappingRuns.Apply(s.mapping, m))
    case Card(p, c) => s.(card := CardRuns.Apply(s.mapping.rows, s.card, p, c))
    case Shipment(p, h) => s.(shipment := ShipmentRuns.Apply(s.card.cards, s.shipment, p, h))
    case Webhook(p, w) => s.(webhook := WebhookRuns.Apply(TablesOf(s), s.webhook, p, w))
  }

  ghost predicate IsInit(s: State) {
    && s.mapping == MappingRuns.INIT && s.card == CardRuns.INIT && s.shipment == ShipmentRuns.INIT
    && WebhookRuns.IsInit(s.webhook)
  }

  ghost predicate IsRun(states: seq<State>, steps: seq<Step>) {
    && |states| == |steps| + 1
    && IsInit(states[0])
    && forall i {:trigger steps[i]} :: 0 <= i < |steps| ==>
         Enabled(states[i], steps[i]) && states[i + 1] == Apply(states[i], steps[i])
  }

  ghost predicate Inv(s: State) {
    && MappingSafety.Inv(s.mapping)
    && CardRuns.Inv(s.mapping.rows, s.card)
    && ShipmentRuns.Inv(s.card.cards, s.shipment)
    && WebhookRuns.Inv(TablesOf(s), s.webhook) && WebhookRuns.Sourced(s.webhook)
  }

  /** What later states keep of earlier ones. */
  ghost predicate Evolves(s: State, s': State) {
    && WebhookRuns.TablesEvolve(TablesOf(s), TablesOf(s'))
    && CardRuns.Evolves(s.card, s'.card)
    && Ownership.Grows(s.shipment.creator, s'.shipment.creator)
    && WebhookRuns.EventsKept(s.webhook, s'.webhook)
  }

  lemma MappingStepKeeps(s: State, m: MappingRuns.Step)
    requires Inv(s) && MappingRuns.Enabled(s.mapping, m)
    ensures Inv(Apply(s, Mapping(m))) && Evolves(s, Apply(s, Mapping(m)))
  {
    var s' := Apply(s, Mapping(m));
    MappingSafety.StepKeeps(s.mapping, m);
    CardRuns.MappingStepKeeps(s.mapping.rows, s'.mapping.rows, s.card);
    WebhookRuns.TablesEvolveKeeps(TablesOf(s), TablesOf(s'), s.webhook);
  }

  lemma CardStepKeeps(s: State, p: Pid, c: CardRuns.Step)
    requires Inv(s) && CardRuns.Enabled(s.card, p, c)
    ensures Inv(Apply(s, Card(p, c))) && Evolves(s, Apply(s, Card(p, c)))
  {
    var s' := Apply(s, Card(p, c));
    CardRuns.StepKeeps(s.mapping.rows, s.card, p, c);
    ShipmentRuns.CardsGrowKeeps(s.card.cards, s'.card.cards, s.shipment);
    WebhookRuns.TablesEvolveKeeps(TablesOf(s), TablesOf(s'), s.webhook);
  }

  lemma ShipmentStepKeeps(s: State, p: Pid, h: ShipmentRuns.Step)
    requires Inv(s) && ShipmentRuns.Enabled(s.shipment, p, h)
    ensures Inv(Apply(s, Shipment(p, h))) && Evolves(s, Apply(s, Shipment(p, h)))
  {
    ShipmentRuns.StepKeeps(s.card.cards, s.shipment, p, h);
  }

  lemma WebhookStepKeeps(s: State, p: Pid, w: WebhookRuns.Step)
    requires Inv(s) && WebhookRuns.Enabled(s.webhook, p, w)
    ensures Inv(Apply(s, Webhook(p, w))) && Evolves(s, Apply(s, Webhook(p, w)))
  {
    var t := TablesOf(s);
    assert TablesOf(Apply(s, Webhook(p, w))) == t;
    WebhookRuns.StepKeeps(t, s.webhook, p, w);
    WebhookRuns.StepSourced(t, s.webhook, p, w);
  }

  /** Every step of every service keeps the whole invariant and only extends the tables. */
  lemma StepKeeps(s: State, e: Step)
    requires Inv(s) && Enabled(s, e)
    ensures Inv(Apply(s, e)) && Evolves(s, Apply(s, e))
  {
    match e
    case Mapping(m) => MappingStepKeeps(s, m);
    case Card(p, c) => CardStepKeeps(s, p, c);
    case Shipment(p, h) => ShipmentStepKeeps(s, p, h);
    case Webhook(p, w) => WebhookStepKeeps(s, p, w);
  }

  lemma {:induction false} RunKeeps(states: seq<State>, steps: seq<Step>, i: nat)
    requires IsRun(states, steps) && i < |states|
    ensures Inv(states[i])
  {
    if i == 0 {
      MappingSafety.InitOk();
    } else {
      RunKeeps(states, steps, i - 1);
      StepKeeps(states[i - 1], steps[i - 1]);
    }
  }

  lemma EvolvesTransitive(a: State, b: State, c: State)
    requires Evolves(a, b) && Evolves(b, c)
    ensures Evolves(a, c)
  {}

  lemma NextEvolves(states: seq<State>, steps: seq<Step>, k: nat)
    requires IsRun(states, steps) && k < |steps|
    ensures Evolves(states[k], states[k + 1])
  {
    RunKeeps(states, steps, k);
    StepKeeps(states[k], steps[k]);
  }

  lemma SelfEvolves(s: State)
    requires Inv(s)
    ensures Evolves(s, s)
  {}

  lemma {:induction false} RunEvolves(states: seq<State>, steps: seq<Step>, i: nat, j: nat)
    requires IsRun(states, steps) && i <= j < |states|
    ensures Evolves(states[i], states[j])
    decreases j - i
  {
    if i == j {
      RunKeeps(states, steps, i);
      SelfEvolves(states[i]);
    } else {
      RunEvolves(states, steps, i, j - 1);
      NextEvolves(states, steps, j - 1);
      EvolvesTransitive(states[i], states[j - 1], states[j]);
    }
  }

  /** The other services do not disturb the create claim of a vault whose holders are timely. */
  lemma {:induction false} TimelyRunKeeps(states: seq<State>, steps: seq<Step>, i: nat, v: string)
    requires IsRun(states, steps) && i < |states|
    requires forall k :: 0 <= k < i ==> MappingRuns.Timely(states[k].mapping, v)
    ensures MappingTimely.Inv(states[i].mapping, v)
  {
    if i == 0 {
    } else {
      TimelyRunKeeps(states, steps, i - 1, v);
      if steps[i - 1].Mapping? {
        MappingTimely.StepKeeps(states[i - 1].mapping, steps[i - 1].m, v);
      }
    }
  }

  // ---------- theorems ----------

  /**
   While the holders of a vault's claim have so far kept to the stale window, no two create requests
   for it are at REAP together, whatever other vaults' requests and the other services do.
   */
  lemma CreatesNeverOverlap(states: seq<State>, steps: seq<Step>, i: nat, p: Pid, q: Pid)
    requires IsRun(states, steps) && i < |states|
    requires p in states[i].mapping.creates && q in states[i].mapping.creates
    requires states[i].mapping.creates[p].Calling? && states[i].mapping.creates[q].Calling?
    requires states[i].mapping.creates[p].pk == states[i].mapping.creates[q].pk
    requires var v := states[i].mapping.creates[p].pk;
      forall k :: 0 <= k < i ==> MappingRuns.Timely(states[k].mapping, v)
    ensures p == q
  {
    var s := states[i].mapping;
    var v := s.creates[p].pk;
    TimelyRunKeeps(states, steps, i, v);
    assert MappingTimely.HolderOk(s, p, s.creates[p], v) && MappingTimely.HolderOk(s, q, s.creates[q], v);
  }

  /**
   In every reachable state each user-card row has a card row, and that row's vault has the row's
   REAP user as its own; so no other vault has that user, now or later.
   */
  lemma TwoTableAgreement(states: seq<State>, steps: seq<Step>, i: nat, j: nat, card: string, vault: string)
    requires IsRun(states, steps) && i <= j < |states|
    requires card in states[i].card.userCards
    ensures card in states[i].card.cards
    ensures var user := states[i].card.userCards[card];
      ReapMapping.MapsTo(states[j].mapping.rows, vault, user) <==> vault == states[i].card.cards[card]
  {
    RunKeeps(states, steps, i);
    CardRuns.TablesAgree(states[i].mapping.rows, states[i].card, card);
    RunEvolves(states, steps, i, j);
    var user := states[i].card.userCards[card];
    assert ReapMapping.MapsTo(states[j].mapping.rows, states[i].card.cards[card], user);
  }

  /** A create that reported success belongs to its caller in both tables, for ever. */
  lemma CreatedCardIsOwned(states: seq<State>, steps: seq<Step>, i: nat, j: nat, p: Pid, pk: string, card: string)
    requires IsRun(states, steps) && i <= j < |states|
    requires p in states[i].card.procs && states[i].card.procs[p] == CardRuns.Done(CardRuns.CardCreated(pk, card))
    ensures Ownership.IsOwner(states[j].card.cards, pk, card)
    ensures card in states[j].card.userCards
    ensures ReapMapping.MapsTo(states[j].mapping.rows, pk, states[j].card.userCards[card])
  {
    RunKeeps(states, steps, i);
    assert CardRuns.ProcOk(states[i].mapping.rows, states[i].card, states[i].card.procs[p]);
    RunEvolves(states, steps, i, j);
    RunKeeps(states, steps, j);
    CardRuns.TablesAgree(states[j].mapping.rows, states[j].card, card);
  }

  /**
   In every reachable state the values ListActivities forwards under a key are all the caller's
   exactly when the key's first value is non-empty or the key has no values.
   */
  lemma ActivityFiltersOwned(states: seq<State>, steps: seq<Step>, i: nat, pk: string, q: ListFilters.Params)
    requires IsRun(states, steps) && i < |states|
    requires ListFilters.ActivityAllowed(states[i].card.cards, states[i].card.accounts, pk, q)
    ensures var f := ListFilters.ActivityQuery(q);
      && (ListFilters.AllChecked(states[i].card.cards, pk, ListFilters.ValuesOf(f, "cardId")) <==>
            ListFilters.Get(q, "cardId") != "" || ListFilters.ValuesOf(q, "cardId") == [])
      && (ListFilters.AllChecked(states[i].card.accounts, pk, ListFilters.ValuesOf(f, "accountId")) <==>
            ListFilters.Get(q, "accountId") != "" || ListFilters.ValuesOf(q, "accountId") == [])
  {
    RunKeeps(states, steps, i);
    ListFilters.ForwardedValuesChecked(states[i].card.cards, states[i].card.accounts, pk, q);
  }

  /**
   In every reachable state with a card of another vault, a caller that owns any account has an
   allowed activity query that forwards that card.
   */
  lemma HiddenCardReachable(states: seq<State>, steps: seq<Step>, i: nat, pk: string, account: string, card: string)
    requires IsRun(states, steps) && i < |states|
    requires Ownership.IsOwner(states[i].card.accounts, pk, account)
    requires card in states[i].card.cards && states[i].card.cards[card] != pk
    ensures var q := ListFilters.HiddenCardQuery(account, card);
      && ListFilters.ActivityAllowed(states[i].card.cards, states[i].card.accounts, pk, q)
      && card in ListFilters.ValuesOf(ListFilters.ActivityQuery(q), "cardId")
  {
    RunKeeps(states, steps, i);
    assert account in states[i].card.issuedAccounts;
    ListFilters.HiddenCardForwarded(states[i].card.cards, states[i].card.accounts, pk, account, card);
  }

  /** Every card of every shipment is owned by the one vault that created the shipment. */
  lemma ShipmentSingleOwner(states: seq<State>, steps: seq<Step>, i: nat, id: string, k: nat)
    requires IsRun(states, steps) && i < |states|
    requires id in states[i].shipment.shipments && k < |states[i].shipment.shipments[id]|
    ensures id in states[i].shipment.creator
    ensures Ownership.IsOwner(states[i].card.cards, states[i].shipment.creator[id],
                              states[i].shipment.shipments[id][k].cardId)
  {
    RunKeeps(states, steps, i);
    var ids := ShipmentRuns.CardIds(states[i].shipment.shipments[id]);
    assert ShipmentRuns.AllOwned(states[i].card.cards, states[i].shipment.creator[id], ids);
    assert ids[k] == states[i].shipment.shipments[id][k].cardId;
  }

  /** A step that changes an existing shipment is taken for the vault that created it. */
  lemma OnlyCreatorChanges(states: seq<State>, steps: seq<Step>, i: nat, id: string)
    requires IsRun(states, steps) && i < |steps| && id in states[i].shipment.shipments
    requires id in states[i + 1].shipment.shipments ==>
      states[i + 1].shipment.shipments[id] != states[i].shipment.shipments[id]
    ensures steps[i].Shipment? && steps[i].s.Perform?
    ensures var c := states[i].shipment.procs[steps[i].p];
      c.id == id && id in states[i].shipment.creator && states[i].shipment.creator[id] == c.pk
  {
    RunKeeps(states, steps, i);
    var s, e := states[i], steps[i];
    assert id in s.shipment.creator;
    ShipmentChange(s, e, id);
    ShipmentRuns.ActsForCreator(s.card.cards, s.shipment, e.p);
  }

  lemma ShipmentChange(s: State, e: Step, id: string)
    requires Inv(s) && Enabled(s, e) && id in s.shipment.shipments && id in s.shipment.creator
    requires id in Apply(s, e).shipment.shipments ==>
      Apply(s, e).shipment.shipments[id] != s.shipment.shipments[id]
    ensures e.Shipment? && e.s.Perform? && e.p in s.shipment.procs && s.shipment.procs[e.p].Acting?
    ensures s.shipment.procs[e.p].id == id
  {
    if e.Shipment? && !e.s.Perform? && !e.s.PerformCreate? {
      ShipmentRuns.CheckStepKeeps(s.card.cards, s.shipment, e.p, e.s);
    }
  }

  /** A recorded event is never changed. */
  lemma FirstDeliveryKept(states: seq<State>, steps: seq<Step>, i: nat, j: nat, eventId: string)
    requires IsRun(states, steps) && i <= j < |states| && eventId in states[i].webhook.events
    ensures eventId in states[j].webhook.events
    ensures states[j].webhook.events[eventId] == states[i].webhook.events[eventId]
  {
    RunEvolves(states, steps, i, j);
  }

  /**
   Every recorded event, at any time, says what a body says that was signed with the webhook secret:
   some accepted timestamp text, a dot and the body have the HMAC its header carried.
   */
  lemma EventsAreSigned(states: seq<State>, steps: seq<Step>, i: nat, eventId: string)
    returns (timestamp: string, signature: string)
    requires IsRun(states, steps) && i < |states| && eventId in states[i].webhook.events
    ensures var config, event := states[i].webhook.config, states[i].webhook.events[eventId];
      && config == states[0].webhook.config
      && config.parse(event.body) == Some(WebhookRuns.Envelope(eventId, event.eventType, event.data))
      && ParseInt(timestamp).Some?
      && HexDecode(signature) == Some(config.hmac(config.secret, WebhookSignature.Preimage(timestamp, event.body)))
  {
    RunKeeps(states, steps, i);
    RunEvolves(states, steps, 0, i);
    timestamp, signature := WebhookRuns.EventSigned(states[i].webhook, eventId);
  }

  /** Over any deliveries: at most one notification per event ID, and none without its row. */
  lemma AtMostOneNotification(states: seq<State>, steps: seq<Step>, i: nat, m: nat, n: nat)
    requires IsRun(states, steps) && i < |states|
    requires m < |states[i].webhook.queue| && n < |states[i].webhook.queue|
    requires states[i].webhook.queue[m].eventId == states[i].webhook.queue[n].eventId
    ensures m == n
    ensures states[i].webhook.queue[m].eventId in states[i].webhook.events
  {
    RunKeeps(states, steps, i);
    var q := states[i].webhook.queue;
    assert q[m] in q;
    assert forall a, b :: 0 <= a < b < |q| ==> q[a].eventId != q[b].eventId;
  }

  /**
   Once an event concerns a vault, in the tables as they are then, it concerns that vault and no
   other in every later state, and resolves to it.
   */
  lemma ResolutionIsStable(states: seq<State>, steps: seq<Step>, i: nat, j: nat, eventType: string,
                           data: WebhookRuns.Data, v: string, w: string)
    requires IsRun(states, steps) && i <= j < |states|
    requires v != "" && w != "" && WebhookRuns.Concerns(TablesOf(states[i]), eventType, data, v)
    ensures WebhookRuns.Concerns(TablesOf(states[j]), eventType, data, w) <==> w == v
    ensures WebhookRuns.ResolveVault(TablesOf(states[j]), eventType, data) == v
  {
    RunKeeps(states, steps, i);
    RunKeeps(states, steps, j);
    RunEvolves(states, steps, i, j);
    WebhookRuns.ResolvesExactly(TablesOf(states[i]), eventType, data, v);
    WebhookRuns.ResolvesExactly(TablesOf(states[j]), eventType, data, w);
    WebhookRuns.StableResolution(TablesOf(states[i]), TablesOf(states[j]), eventType, data);
  }

  /**
   A queued notification names the vault its recorded event concerns, by the card, account or user
   table, and the chain code recorded for that vault, now and for ever.
   */
  lemma NotificationAddressed(states: seq<State>, steps: seq<Step>, i: nat, j: nat, n: nat)
    requires IsRun(states, steps) && i <= j < |states| && n < |states[i].webhook.queue|
    ensures var note, rows := states[i].webhook.queue[n], states[j].mapping.rows;
      && note.vault != "" && note.chainCode != ""
      && note.eventId in states[j].webhook.events
      && (var event := states[j].webhook.events[note.eventId];
          WebhookRuns.Concerns(TablesOf(states[j]), event.eventType, event.data, note.vault))
      && note.vault in rows && rows[note.vault].chainCode == Some(note.chainCode)
  {
    RunKeeps(states, steps, i);
    RunKeeps(states, steps, j);
    RunEvolves(states, steps, i, j);
    var note := states[i].webhook.queue[n];
    assert note in states[i].webhook.queue;
    var event := states[i].webhook.events[note.eventId];
    WebhookRuns.StableResolution(TablesOf(states[i]), TablesOf(states[j]), event.eventType, event.data);
    WebhookRuns.StableChainCode(TablesOf(states[i]), TablesOf(states[j]), note.vault);
    WebhookRuns.ResolvesExactly(TablesOf(states[j]), event.eventType, event.data, note.vault);
  }
}
