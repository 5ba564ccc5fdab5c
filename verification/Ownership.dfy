/**
 The three ownership tables, which share one shape: card to vault, account to vault and card to
 REAP user. Rows are inserted ON CONFLICT DO NOTHING and never updated or deleted.
 */
module Ownership {
  type Table = map<string, string>

  function Record(t: Table, owner: string, id: string): Table {
    if id in t then t else t[id := owner]
  }

  predicate IsOwner(t: Table, owner: string, id: string) {
    id in t && t[id] == owner
  }

  /** "" when id has no record. */
  function OwnerOf(t: Table, id: string): string {
    if id in t then t[id] else ""
  }

  /** The first writer of an id keeps it. */
  ghost predicate Grows(t: Table, t': Table) {
    forall id :: id in t ==> id in t' && t'[id] == t[id]
  }

  class Store {
    var owners: Table

    constructor ()
      ensures owners == map[]
    {
      owners := map[];
    }

    method RecordStmt(owner: string, id: string)
      modifies this
      ensures owners == Record(old(owners), owner, id)
      ensures Grows(old(owners), owners)
      ensures id in owners && (id !in old(owners) ==> owners[id] == owner)
    {
      if id !in owners {
        owners := owners[id := owner];
      }
    }

    method OwnerOfStmt(id: string) returns (owner: string)
      ensures id in owners ==> owner == owners[id]
      ensures id !in owners ==> owner == ""
    {
      owner := OwnerOf(owners, id);
    }

    method IsOwnerStmt(owner: string, id: string) returns (owned: bool)
      ensures owned <==> id in owners && owners[id] == owner
      ensures owned == IsOwner(owners, owner, id)
      ensures owned && owner != "" ==> OwnerOf(owners, id) == owner
    {
      var found := OwnerOf(owners, id);
      owned := id in owners && found == owner;
    }
  }
}
