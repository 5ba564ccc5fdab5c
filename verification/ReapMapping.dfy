/**
 The vultisig_reap_mappings table: one row per vault public key, carrying a nonce counter, a
 write-once chain code, a create-in-flight claim and a write-once REAP user ID. Each SQL statement
 is one atomic function on the table; the class below is the store the services call.
 */
module ReapMapping {
  import opened GoText

  /** Clock readings and durations are in microseconds, the resolution of TIMESTAMPTZ. */
  const SECOND: nat := 1_000_000
  const STALE_AFTER: nat := 60 * SECOND

  datatype Row = Row(nonce: int64, chainCode: Option<string>, userId: Option<string>, createStartedAt: Option<nat>)

  /** The column defaults of a row inserted without them. */
  const BLANK := Row(0, None, None, None)

  type Table = map<string, Row>

  /** A statement either fails and changes nothing, or reports whether it affected a row. */
  datatype Exec = Failed | Ran(table: Table, affected: bool)

  // ---------- reads ----------

  function GetNonce(t: Table, pk: string): int64 {
    if pk in t then t[pk].nonce else 0
  }

  function GetReapUserID(t: Table, pk: string): string {
    if pk in t && t[pk].userId.Some? then t[pk].userId.value else ""
  }

  function GetHexChainCode(t: Table, pk: string): string {
    if pk in t && t[pk].chainCode.Some? then t[pk].chainCode.value else ""
  }

  ghost predicate MapsTo(t: Table, pk: string, id: string) {
    pk in t && t[pk].userId == Some(id)
  }

  ghost function GetPublicKeyByReapUserID(t: Table, id: string): string {
    if exists pk :: MapsTo(t, pk, id) then
      var pk :| MapsTo(t, pk, id);
      pk
    else ""
  }

  // ---------- writes ----------

  function NormalizeChainCode(cc: string): string {
    ToLower(TrimPrefix(cc, "0x"))
  }

  /** What verifySignature demands of a chain code before anything else. */
  predicate AcceptedChainCode(cc: string) {
    var bytes := HexDecode(TrimPrefix(cc, "0x"));
    bytes.Some? && |bytes.value| == 32
  }

  /** The UNIQUE constraint on reap_user_id: would writing id to pk's row duplicate it? */
  ghost predicate Taken(t: Table, pk: string, id: string) {
    exists other :: MapsTo(t, other, id) && other != pk
  }

  ghost function SetReapUserID(t: Table, pk: string, id: string): Exec {
    if pk in t && t[pk].userId.Some? then Ran(t, false)
    else if Taken(t, pk, id) then Failed
    else if pk !in t then Ran(t[pk := BLANK.(userId := Some(id))], true)
    else Ran(t[pk := t[pk].(userId := Some(id), createStartedAt := None)], true)
  }

  /** The inserted value expected + 1 is computed first and fails when it leaves BIGINT. */
  function ClaimNonce(t: Table, pk: string, expected: int64, cc: string): Exec {
    var code := NormalizeChainCode(cc);
    if expected == MAX_INT64 then Failed
    else if pk !in t then Ran(t[pk := BLANK.(nonce := expected + 1, chainCode := Some(code))], true)
    else if t[pk].nonce == expected && (t[pk].chainCode.None? || t[pk].chainCode == Some(code)) then
      Ran(t[pk := t[pk].(nonce := expected + 1, chainCode := Some(code))], true)
    else Ran(t, false)
  }

  /** Older than STALE_AFTER, strictly, at time now. */
  predicate IsStale(startedAt: nat, now: nat) {
    startedAt + STALE_AFTER < now
  }

  function ClaimReapUserCreate(t: Table, pk: string, now: nat): Exec {
    if pk !in t then Ran(t[pk := BLANK.(createStartedAt := Some(now))], true)
    else if t[pk].userId.None? && (t[pk].createStartedAt.None? || IsStale(t[pk].createStartedAt.value, now)) then
      Ran(t[pk := t[pk].(createStartedAt := Some(now))], true)
    else Ran(t, false)
  }

  function ReleaseReapUserCreate(t: Table, pk: string): Table {
    if pk in t && t[pk].userId.None? then t[pk := t[pk].(createStartedAt := None)] else t
  }

  // ---------- what every statement keeps ----------

  /** No two vaults share a REAP user ID. */
  ghost predicate Unique(t: Table) {
    forall pk, pk', id :: MapsTo(t, pk, id) && MapsTo(t, pk', id) ==> pk == pk'
  }

  /** Rows stay, nonces only grow, chain codes and user IDs are written once. */
  ghost predicate Evolves(t: Table, t': Table) {
    forall pk :: pk in t ==>
      && pk in t'
      && t[pk].nonce <= t'[pk].nonce
      && (t[pk].chainCode.Some? ==> t'[pk].chainCode == t[pk].chainCode)
      && (t[pk].userId.Some? ==> t'[pk].userId == t[pk].userId)
  }

  lemma EvolvesTransitive(a: Table, b: Table, c: Table)
    requires Evolves(a, b) && Evolves(b, c)
    ensures Evolves(a, c)
  {}

  lemma SetReapUserIDKeeps(t: Table, pk: string, id: string)
    requires Unique(t)
    ensures var r := SetReapUserID(t, pk, id);
      r.Ran? ==>
        && Unique(r.table) && Evolves(t, r.table)
        && (r.affected ==> MapsTo(r.table, pk, id) && r.table[pk].createStartedAt.None?)
  {
    var r := SetReapUserID(t, pk, id);
    if r.Ran? && r.affected {
      forall a, b, x | MapsTo(r.table, a, x) && MapsTo(r.table, b, x) ensures a == b {
        assert a != pk ==> MapsTo(t, a, x);
        assert b != pk ==> MapsTo(t, b, x);
      }
    }
  }

  /** Replacing one row without touching its user ID keeps the IDs unique. */
  lemma UniqueUnderUpdate(t: Table, pk: string, row: Row)
    requires Unique(t)
    requires row.userId == (if pk in t then t[pk].userId else None)
    ensures Unique(t[pk := row])
  {
    var t' := t[pk := row];
    forall a, b, x | MapsTo(t', a, x) && MapsTo(t', b, x) ensures a == b {
      assert MapsTo(t, a, x) && MapsTo(t, b, x);
    }
  }

  /** The reverse lookup inverts the forward one, both ways, wherever IDs are unique. */
  lemma LookupsInverse(t: Table, pk: string, id: string)
    requires Unique(t) && id != "" && pk != ""
    ensures GetReapUserID(t, pk) == id <==> GetPublicKeyByReapUserID(t, id) == pk
  {
    if GetReapUserID(t, pk) == id {
      assert MapsTo(t, pk, id);
    }
  }

  /** A non-empty reverse lookup never changes again. */
  lemma ReverseLookupStable(t: Table, t': Table, id: string)
    requires Unique(t') && Evolves(t, t') && GetPublicKeyByReapUserID(t, id) != ""
    ensures GetPublicKeyByReapUserID(t', id) == GetPublicKeyByReapUserID(t, id)
  {
    var pk :| MapsTo(t, pk, id) && pk == GetPublicKeyByReapUserID(t, id);
    assert MapsTo(t', pk, id);
  }

  /** A released claim can be taken again at once; a held one is refused until it is stale. */
  lemma ClaimAdmission(t: Table, pk: string, claimedAt: nat, now: nat)
    requires ClaimReapUserCreate(t, pk, claimedAt).affected
    ensures var held := ClaimReapUserCreate(t, pk, claimedAt).table;
      && ClaimReapUserCreate(ReleaseReapUserCreate(held, pk), pk, now).affected
      && (ClaimReapUserCreate(held, pk, now).affected <==> now > claimedAt + 60_000_000)
  {}

  // ---------- the store object ----------

  /** Row mutations as the Go functions issue them; `err` is the returned error. */
  class Store {
    var rows: Table

    constructor ()
      ensures rows == map[]
    {
      rows := map[];
    }

    method ClaimNonceStmt(pk: string, expected: int64, hexChainCode: string) returns (claimed: bool, err: bool)
      modifies this
      ensures var r := ClaimNonce(old(rows), pk, expected, hexChainCode);
        && err == r.Failed?
        && (err ==> rows == old(rows) && !claimed)
        && (!err ==> rows == r.table && claimed == r.affected)
      ensures Evolves(old(rows), rows)
    {
      claimed, err := false, false;
      var code := ToLower(TrimPrefix(hexChainCode, "0x"));
      if expected == MAX_INT64 {
        err := true;
      } else if pk !in rows {
        rows := rows[pk := BLANK.(nonce := expected + 1, chainCode := Some(code))];
        claimed := true;
      } else {
        var row := rows[pk];
        if row.nonce == expected && (row.chainCode.None? || row.chainCode.value == code) {
          var kept := if row.chainCode.None? then code else row.chainCode.value;
          rows := rows[pk := row.(nonce := row.nonce + 1, chainCode := Some(kept))];
          claimed := true;
        }
      }
    }

    method ClaimReapUserCreateStmt(pk: string, now: nat) returns (claimed: bool)
      modifies this
      ensures var r := ClaimReapUserCreate(old(rows), pk, now);
        rows == r.table && claimed == r.affected
      ensures Evolves(old(rows), rows)
    {
      var row := if pk in rows then rows[pk] else BLANK;
      claimed := row.userId.None? &&
        (row.createStartedAt.None? || row.createStartedAt.value + STALE_AFTER < now);
      if claimed {
        rows := rows[pk := row.(createStartedAt := Some(now))];
      }
    }

    method ReleaseReapUserCreateStmt(pk: string)
      modifies this
      ensures rows == ReleaseReapUserCreate(old(rows), pk)
      ensures Evolves(old(rows), rows)
    {
      if pk in rows && rows[pk].userId.None? {
        rows := rows[pk := rows[pk].(createStartedAt := None)];
      }
    }

    method SetReapUserIDStmt(pk: string, id: string) returns (ok: bool, err: bool)
      requires Unique(rows)
      modifies this
      ensures var r := SetReapUserID(old(rows), pk, id);
        && err == r.Failed?
        && (err ==> rows == old(rows) && !ok)
        && (!err ==> rows == r.table && ok == r.affected)
      ensures Unique(rows) && Evolves(old(rows), rows)
    {
      ok, err := false, false;
      var row := if pk in rows then rows[pk] else BLANK;
      if row.userId.None? {
        var owner := FindUser(id);
        SetReapUserIDKeeps(rows, pk, id);
        if owner.Some? {
          assert Taken(rows, pk, id);
          err := true;
        } else {
          rows := rows[pk := row.(userId := Some(id), createStartedAt := None)];
          ok := true;
        }
      }
    }

    /** The index scan behind the UNIQUE constraint and the reverse lookup. */
    method FindUser(id: string) returns (owner: Option<string>)
      requires Unique(rows)
      ensures owner.Some? ==> MapsTo(rows, owner.value, id)
      ensures owner.None? ==> forall pk :: !MapsTo(rows, pk, id)
    {
      var pending := rows.Keys;
      while pending != {}
        invariant pending <= rows.Keys
        invariant forall pk :: MapsTo(rows, pk, id) ==> pk in pending
        decreases pending
      {
        var pk :| pk in pending;
        if rows[pk].userId == Some(id) {
          return Some(pk);
        }
        pending := pending - {pk};
      }
      owner := None;
    }

    method GetPublicKeyByReapUserIDStmt(id: string) returns (pk: string)
      requires Unique(rows)
      ensures pk == GetPublicKeyByReapUserID(rows, id)
    {
      var owner := FindUser(id);
      pk := if owner.Some? then owner.value else "";
    }
  }
}
