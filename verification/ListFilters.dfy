/**
 The list services that rewrite a caller's query before forwarding it: ListFraudAlerts,
 ListCardShipments, ListCards and ListActivities. url.Values is a map from keys to value lists.
 */
module ListFilters {
  import Ownership
  import ReapMapping

  type Params = map<string, seq<string>>

  function Get(q: Params, key: string): string {
    if key in q && |q[key]| > 0 then q[key][0] else ""
  }

  /** Every value under key; none when the key is absent. */
  function ValuesOf(q: Params, key: string): seq<string> {
    if key in q then q[key] else []
  }

  /** The query object a request carries; the services change it in place. */
  class Query {
    var params: Params

    constructor (q: Params)
      ensures params == q
    {
      params := q;
    }

    method Set(key: string, value: string)
      modifies this
      ensures params == old(params)[key := [value]]
    {
      params := params[key := [value]];
    }

    method Del(key: string)
      modifies this
      ensures params == old(params) - {key}
    {
      params := params - {key};
    }
  }

  datatype Verdict = Forward | MissingScopeFilter | ResourceNotOwned | NoReapUser | LookupFailed

  /** Reply of GetCardTransaction: the transaction's card, "" when REAP gave none. */
  type CardLookup = string -> string

  /** Every filter but those named is passed on as it came. */
  ghost predicate OthersKept(q: Params, q': Params, named: set<string>) {
    forall key :: key !in named ==> ValuesOf(q', key) == ValuesOf(q, key)
  }

  /** Forwards exactly the one checked card and no transactionId; every other filter is untouched. */
  method ListFraudAlerts(query: Query, cards: Ownership.Store, pk: string, transactionCard: CardLookup)
    returns (v: Verdict)
    modifies query
    ensures Get(old(query.params), "cardId") != "" ==>
      var card := Get(old(query.params), "cardId");
      && (v.Forward? <==> card in cards.owners && cards.owners[card] == pk)
      && (v.Forward? ==> ValuesOf(query.params, "cardId") == [card])
      && (!v.Forward? ==> v.ResourceNotOwned?)
    ensures Get(old(query.params), "cardId") == "" && Get(old(query.params), "transactionId") != "" ==>
      var card := transactionCard(Get(old(query.params), "transactionId"));
      && (v.Forward? <==> card != "" && card in cards.owners && cards.owners[card] == pk)
      && (v.Forward? ==> ValuesOf(query.params, "cardId") == [card])
      && (v.LookupFailed? <==> card == "")
      && (v.ResourceNotOwned? <==> card != "" && (card !in cards.owners || cards.owners[card] != pk))
    ensures Get(old(query.params), "cardId") == "" && Get(old(query.params), "transactionId") == "" ==>
      v.MissingScopeFilter?
    ensures v.Forward? ==>
      && "transactionId" !in query.params
      && OthersKept(old(query.params), query.params, {"cardId", "transactionId"})
    ensures !v.Forward? ==> query.params == old(query.params)
  {
    var cardID := Get(query.params, "cardId");
    if cardID == "" {
      var transactionID := Get(query.params, "transactionId");
      if transactionID == "" {
        return MissingScopeFilter;
      }
      cardID := transactionCard(transactionID);
      if cardID == "" {
        return LookupFailed;
      }
    }
    var owned := cards.IsOwnerStmt(pk, cardID);
    if !owned {
      return ResourceNotOwned;
    }
    query.Del("transactionId");
    query.Set("cardId", cardID);
    v := Forward;
  }

  method ListCardShipments(query: Query, cards: Ownership.Store, pk: string) returns (v: Verdict)
    modifies query
    ensures v.Forward? <==>
      Get(old(query.params), "cardId") != "" && Ownership.IsOwner(cards.owners, pk, Get(old(query.params), "cardId"))
    ensures v.MissingScopeFilter? <==> Get(old(query.params), "cardId") == ""
    ensures v.Forward? ==>
      && ValuesOf(query.params, "cardId") == [Get(old(query.params), "cardId")]
      && OthersKept(old(query.params), query.params, {"cardId"})
  {
    var cardID := Get(query.params, "cardId");
    if cardID == "" {
      return MissingScopeFilter;
    }
    var owned := cards.IsOwnerStmt(pk, cardID);
    if !owned {
      return ResourceNotOwned;
    }
    query.Set("cardId", cardID);
    v := Forward;
  }

  /** The userId filter is replaced by the caller's own REAP user. */
  method ListCards(query: Query, mapping: ReapMapping.Store, pk: string) returns (v: Verdict)
    requires ReapMapping.Unique(mapping.rows)
    modifies query
    ensures v.Forward? <==> ReapMapping.GetReapUserID(mapping.rows, pk) != ""
    ensures v.Forward? ==>
      && ValuesOf(query.params, "userId") == [ReapMapping.GetReapUserID(mapping.rows, pk)]
      && OthersKept(old(query.params), query.params, {"userId"})
      && (pk != "" ==> ReapMapping.GetPublicKeyByReapUserID(mapping.rows, query.params["userId"][0]) == pk)
    ensures !v.Forward? ==> query.params == old(query.params)
  {
    var user := ReapMapping.GetReapUserID(mapping.rows, pk);
    if user == "" {
      return NoReapUser;
    }
    query.Set("userId", user);
    if pk != "" {
      ReapMapping.LookupsInverse(mapping.rows, pk, user);
    }
    v := Forward;
  }

  // ---------- ListActivities ----------

  /** The query ListActivities forwards: a repeated key is collapsed when its first value is non-empty. */
  function ActivityQuery(q: Params): Params {
    var dropped := q - {"userId", "ownerId"};
    var cardID, accountID := Get(dropped, "cardId"), Get(dropped, "accountId");
    var scoped := if cardID != "" then dropped["cardId" := [cardID]] else dropped;
    if accountID != "" then scoped["accountId" := [accountID]] else scoped
  }

  predicate ActivityAllowed(cards: Ownership.Table, accounts: Ownership.Table, pk: string, q: Params) {
    var cardID, accountID := Get(q, "cardId"), Get(q, "accountId");
    && (cardID != "" || accountID != "")
    && (cardID != "" ==> Ownership.IsOwner(cards, pk, cardID))
    && (accountID != "" ==> Ownership.IsOwner(accounts, pk, accountID))
  }

  /** The rewriting half of ListActivities: unsupported filters dropped, repeated scope filters collapsed. */
  method RewriteActivityQuery(query: Query) returns (cardID: string, accountID: string)
    modifies query
    ensures query.params == ActivityQuery(old(query.params))
    ensures cardID == Get(old(query.params), "cardId") && accountID == Get(old(query.params), "accountId")
  {
    query.Del("userId");
    query.Del("ownerId");
    assert query.params == old(query.params) - {"userId", "ownerId"};
    accountID := Get(query.params, "accountId");
    cardID := Get(query.params, "cardId");
    if cardID != "" {
      query.Set("cardId", cardID);
    }
    if accountID != "" {
      query.Set("accountId", accountID);
    }
  }

  method ListActivities(query: Query, cards: Ownership.Store, accounts: Ownership.Store, pk: string)
    returns (v: Verdict)
    modifies query
    ensures v.Forward? <==> ActivityAllowed(cards.owners, accounts.owners, pk, old(query.params))
    ensures v.MissingScopeFilter? <==>
      Get(old(query.params), "cardId") == "" && Get(old(query.params), "accountId") == ""
    ensures query.params == ActivityQuery(old(query.params))
    ensures OthersKept(old(query.params), query.params, {"cardId", "accountId", "userId", "ownerId"})
  {
    var cardID, accountID := RewriteActivityQuery(query);
    if accountID == "" && cardID == "" {
      return MissingScopeFilter;
    }
    if cardID != "" {
      var owned := cards.IsOwnerStmt(pk, cardID);
      if !owned {
        return ResourceNotOwned;
      }
    }
    if accountID != "" {
      var owned := accounts.IsOwnerStmt(pk, accountID);
      if !owned {
        return ResourceNotOwned;
      }
    }
    v := Forward;
  }

  /** All forwarded values of key belong to the caller. */
  ghost predicate AllChecked(owners: Ownership.Table, pk: string, values: seq<string>) {
    forall i :: 0 <= i < |values| ==> Ownership.IsOwner(owners, pk, values[i])
  }

  /** What ListActivities forwards under a key: its first value if that names something, else all. */
  lemma ForwardedValues(q: Params, key: string)
    requires key == "cardId" || key == "accountId"
    ensures ValuesOf(ActivityQuery(q), key) == if Get(q, key) != "" then [Get(q, key)] else ValuesOf(q, key)
  {
    var dropped := q - {"userId", "ownerId"};
    assert Get(dropped, "cardId") == Get(q, "cardId") && Get(dropped, "accountId") == Get(q, "accountId");
  }

  /**
   When an allowed query is forwarded, the values under a key all belong to the caller exactly when
   the key's first value is non-empty or the key has no values. No resource has the empty ID.
   */
  lemma ForwardedValuesChecked(cards: Ownership.Table, accounts: Ownership.Table, pk: string, q: Params)
    requires ActivityAllowed(cards, accounts, pk, q) && "" !in cards && "" !in accounts
    ensures var f := ActivityQuery(q);
      && "userId" !in f && "ownerId" !in f
      && OthersKept(q, f, {"cardId", "accountId", "userId", "ownerId"})
      && (AllChecked(cards, pk, ValuesOf(f, "cardId")) <==> Get(q, "cardId") != "" || ValuesOf(q, "cardId") == [])
      && (AllChecked(accounts, pk, ValuesOf(f, "accountId")) <==>
            Get(q, "accountId") != "" || ValuesOf(q, "accountId") == [])
  {
    ForwardedValues(q, "cardId");
    ForwardedValues(q, "accountId");
    if Get(q, "cardId") == "" && ValuesOf(q, "cardId") != [] {
      UncheckedValue(cards, pk, q, "cardId");
    }
    if Get(q, "accountId") == "" && ValuesOf(q, "accountId") != [] {
      UncheckedValue(accounts, pk, q, "accountId");
    }
  }

  /** Values that start with the empty one are forwarded with that one, which is nobody's. */
  lemma UncheckedValue(owners: Ownership.Table, pk: string, q: Params, key: string)
    requires "" !in owners && Get(q, key) == "" && ValuesOf(q, key) != []
    ensures !AllChecked(owners, pk, ValuesOf(q, key))
  {
    assert ValuesOf(q, key)[0] == "" && !Ownership.IsOwner(owners, pk, "");
  }

  /** A query the comment of ListActivities rules out: allowed by its account, it also names a card. */
  function HiddenCardQuery(account: string, card: string): Params {
    map["accountId" := [account], "cardId" := ["", card]]
  }

  /** That query is allowed whatever the card, and the card is forwarded though it is another's. */
  lemma HiddenCardForwarded(cards: Ownership.Table, accounts: Ownership.Table, pk: string, account: string,
                            card: string)
    requires account != "" && Ownership.IsOwner(accounts, pk, account) && !Ownership.IsOwner(cards, pk, card)
    ensures var q := HiddenCardQuery(account, card);
      && ActivityAllowed(cards, accounts, pk, q)
      && card in ValuesOf(ActivityQuery(q), "cardId")
      && !AllChecked(cards, pk, ValuesOf(ActivityQuery(q), "cardId"))
  {
    var q := HiddenCardQuery(account, card);
    ForwardedValues(q, "cardId");
    assert Get(q, "cardId") == "" && ValuesOf(q, "cardId")[1] == card;
  }
}
