/** The identity half of a boot as the calls of pkg/starterapp/bootstrap.go make it when no
    other statement comes between: Boot has the same statements one by one. */
module BootLedger {
  import opened Boot
  import opened Options
  import Seed

  /** Where a boot stands once its identity is resolved or refused: three statements when the
      ledger has a row, four when it has none. */
  function Resolution(d: Database, p: Seed.Params): Point {
    if d.ledgerTable && d.ledger.Some? then Iterate(d, p, Opened, 3).1 else Iterate(d, p, Opened, 4).1
  }

  class IdentityLedger {
    var database: Database

    constructor (database: Database)
      ensures this.database == database
    {
      this.database := database;
    }

    method UserTenant(userID: string) returns (tenantID: Option<string>)
      ensures tenantID == Boot.UserTenant(database, userID)
    {
      if userID in database.accounts.users {
        return Some(database.accounts.users[userID].tenantID);
      }
      return None;
    }

    method ResolveBootstrapIdentity(ghost p: Seed.Params) returns (result: Point)
      ensures result == Resolution(database, p)
      ensures result.Resolved? || result.Refused?
    {
      if database.ledgerTable && database.ledger.Some? {
        var recorded := database.ledger.value;
        if recorded.tenantID == "" || recorded.userID == "" {
          return Refused(EmptyIdentity);
        }
        var tenantID := UserTenant(recorded.userID);
        if tenantID.Some? && tenantID.value != recorded.tenantID {
          return Refused(MovedAdministrator);
        }
        return Resolved(recorded);
      }
      var tenantExists := Seed.TENANT_ID in database.accounts.tenants;
      var userTenantID := UserTenant(Seed.USER_ID);
      if tenantExists || userTenantID.Some? {
        return Refused(Collision);
      }
      return Resolved(Identity(Seed.TENANT_ID, Seed.USER_ID));
    }

    /** The transaction works on a copy that is committed at the end. */
    method RecordBootstrapIdentity(identity: Identity) returns (result: Point)
      modifies this
      ensures (database, result) == Record(old(database), identity)
      ensures result.Recorded? ==> database.ledger == Some(identity) && database.accounts == old(database).accounts
      ensures !result.Recorded? ==> database == old(database)
    {
      if identity.tenantID == "" || identity.userID == "" {
        return Aborted;
      }
      var tx := database;
      tx := tx.(ledgerTable := true);
      if tx.ledger.None? {
        tx := tx.(ledger := Some(identity));
      }
      if tx.ledger.value != identity {
        return Refused(LedgerMismatch);
      }
      database := tx;
      return Recorded(identity);
    }
  }

  /** An identity is refused exactly when the ledger is unusable, or when there is none and
      the reserved identifiers exist already. */
  lemma RefusedWhen(d: Database, p: Seed.Params)
    ensures Resolution(d, p).Refused? <==>
              if d.ledgerTable && d.ledger.Some? then
                var id := d.ledger.value;
                id.tenantID == "" || id.userID == ""
                    || (UserTenant(d, id.userID) != None && UserTenant(d, id.userID) != Some(id.tenantID))
              else RESERVED.tenantID in d.accounts.tenants || RESERVED.userID in d.accounts.users
    ensures !Resolution(d, p).Refused? ==>
              Resolution(d, p) == Resolved(if d.ledgerTable && d.ledger.Some? then d.ledger.value else RESERVED)
  {
  }

  /** What recording committed, every later resolution returns, as long as the administrator
      stays in the tenant: a boot that comes back finds its own identity. */
  lemma RecordedIsResolved(d: Database, id: Identity, d': Database, p: Seed.Params)
    requires Record(d, id).1.Recorded?
    requires d'.ledgerTable && d'.ledger == Record(d, id).0.ledger
    ensures Resolution(d', p) == Resolved(id) <==>
              UserTenant(d', id.userID) == None || UserTenant(d', id.userID) == Some(id.tenantID)
  {
    RefusedWhen(d', p);
  }
}
