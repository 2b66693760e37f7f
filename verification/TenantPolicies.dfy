/** Row-security DDL: which tables carry the isolation policy after start-up, and why the loop runs in
    one transaction. */
module TenantPolicies {
  import opened TenantPool

  datatype Table = Table(name: string, hasOrg: bool)
  // ENABLE, FORCE, and the policy itself.
  datatype Security = Security(enabled: bool, forced: bool, policy: bool)
  datatype AppRole = NoRole | AppRole(superuser: bool, bypassRls: bool)

  const IDENTITY_TABLES := {"users", "user_organizations", "api_tokens"}

  predicate Lower(c: char) { 'a' <= c <= 'z' || c == '_' }
  predicate LowerOrDigit(c: char) { Lower(c) || '0' <= c <= '9' }

  // `^[a-z_][a-z0-9_]*$`, whose `$` also accepts one newline at the end.
  predicate SafeIdent(s: string) {
    s != [] && Lower(s[0]) && forall i | 0 < i < |s| :: LowerOrDigit(s[i]) || (i == |s| - 1 && s[i] == '\n')
  }

  // The data plane by design: every table with an organization_id bar the identity plane.
  predicate DataPlane(t: Table) { t.hasOrg && t.name !in IDENTITY_TABLES }

  predicate Selected(t: Table) { DataPlane(t) && SafeIdent(t.name) }

  function TenantTables(ts: seq<Table>): seq<string> {
    if ts == [] then [] else TenantTables(ts[..|ts|-1]) + if Selected(ts[|ts|-1]) then [ts[|ts|-1].name] else []
  }

  lemma {:induction false} TenantTablesAre(ts: seq<Table>, n: string)
    ensures n in TenantTables(ts) <==> exists t :: t in ts && t.name == n && Selected(t)
  {
    if ts != [] {
      var k := |ts| - 1;
      TenantTablesAre(ts[..k], n);
      assert ts == ts[..k] + [ts[k]];
    }
  }

  /** Postgres's answer for one row: no row security, or a role exempt from it, sees everything; row
      security without a policy denies everything. */
  predicate Readable(sec: Security, c: Conn, r: Row) {
    !c.appRole || !sec.enabled || (sec.policy && (c.bypass || (c.org != "" && r.org == c.org)))
  }

  function Rewritten(hit: bool, now: Security, before: Security): Security { if hit then now else before }

  class Schema {
    const tables: seq<Table>
    const fails: nat -> bool
    var statements: nat
    var security: map<string, Security>

    ghost predicate Valid() reads this { forall t | t in tables :: t.name in security }

    // One table's four statements; the first that raises ends it.
    method Protect(t: string) returns (raised: bool)
      requires t in security
      modifies this
      ensures security.Keys == old(security).Keys && old(statements) < statements
      ensures forall u | u in security && u != t :: security[u] == old(security)[u]
      ensures !raised ==> security[t] == Security(true, true, true)
    {
      raised := Issue();
      if raised { return; }
      security := security[t := security[t].(enabled := true)];
      raised := Issue();
      if raised { return; }
      security := security[t := security[t].(forced := true)];
      raised := Issue();
      if raised { return; }
      security := security[t := security[t].(policy := false)];
      raised := Issue();
      if raised { return; }
      security := security[t := security[t].(policy := true)];
    }

    method Unprotect(t: string) returns (raised: bool)
      requires t in security
      modifies this
      ensures security.Keys == old(security).Keys && old(statements) < statements
      ensures forall u | u in security && u != t :: security[u] == old(security)[u]
      ensures !raised ==> security[t] == Security(false, false, false)
    {
      raised := Issue();
      if raised { return; }
      security := security[t := security[t].(policy := false)];
      raised := Issue();
      if raised { return; }
      security := security[t := security[t].(forced := false)];
      raised := Issue();
      if raised { return; }
      security := security[t := security[t].(enabled := false)];
    }

    method Issue() returns (raised: bool)
      modifies this`statements
      ensures statements == old(statements) + 1 && raised == fails(old(statements))
    {
      raised := fails(statements);
      statements := statements + 1;
    }

    /** All or nothing: afterwards either every tenant table enforces and no other table has changed, or
        a statement raised and the previous policies stand. */
    method ApplyPolicies() returns (raised: bool, applied: seq<string>)
      requires Valid()
      modifies this
      ensures Valid()
      ensures raised ==> security == old(security)
      ensures !raised ==> applied == TenantTables(tables)
      ensures !raised ==> security.Keys == old(security).Keys
      ensures !raised ==> forall t | t in security :: security[t] == Rewritten(t in applied, Security(true, true, true), old(security)[t])
    {
      var saved := security;
      raised, applied := false, [];
      var names := TenantTables(tables);
      NamesKnown();
      var i := 0;
      while i < |names|
        invariant i <= |names| && applied == names[..i] && Valid() && !raised
        invariant security.Keys == old(security).Keys
        invariant forall t | t in security :: security[t] == Rewritten(t in applied, Security(true, true, true), old(security)[t])
      {
        raised := Protect(names[i]);
        if raised { security := saved; return; }
        applied := applied + [names[i]];
        i := i + 1;
      }
    }

    method DropPolicies() returns (raised: bool, dropped: seq<string>)
      requires Valid()
      modifies this
      ensures Valid()
      ensures raised ==> security == old(security)
      ensures !raised ==> dropped == TenantTables(tables)
      ensures !raised ==> security.Keys == old(security).Keys
      ensures !raised ==> forall t | t in security :: security[t] == Rewritten(t in dropped, Security(false, false, false), old(security)[t])
    {
      var saved := security;
      raised, dropped := false, [];
      var names := TenantTables(tables);
      NamesKnown();
      var i := 0;
      while i < |names|
        invariant i <= |names| && dropped == names[..i] && Valid() && !raised
        invariant security.Keys == old(security).Keys
        invariant forall t | t in security :: security[t] == Rewritten(t in dropped, Security(false, false, false), old(security)[t])
      {
        raised := Unprotect(names[i]);
        if raised { security := saved; return; }
        dropped := dropped + [names[i]];
        i := i + 1;
      }
    }

    lemma NamesKnown()
      requires Valid()
      ensures forall n | n in TenantTables(tables) :: n in security
    {
      forall n | n in TenantTables(tables) ensures n in security { TenantTablesAre(tables, n); }
    }

    function ProtectedTables(): set<string>
      reads this
    {
      set t | t in security && security[t].policy && security[t].enabled && security[t].forced
    }

    /** Start-up passes exactly when the role exists, is subject to row security, and every selected
        table enforces. */
    method AssertEnforcing(role: AppRole) returns (ok: bool)
      requires Valid()
      ensures ok <==> role == AppRole(false, false) &&
                      forall t | t in tables && Selected(t) :: security[t.name] == Security(true, true, true)
    {
      forall n ensures n in TenantTables(tables) <==> exists t :: t in tables && t.name == n && Selected(t) {
        TenantTablesAre(tables, n);
      }
      if role.NoRole? || role.superuser || role.bypassRls { return false; }
      var missing := (set t | t in TenantTables(tables)) - ProtectedTables();
      ok := missing == {};
      if ok {
        forall t | t in tables && Selected(t) ensures security[t.name] == Security(true, true, true) {
          assert t.name in TenantTables(tables);
          assert t.name !in missing;
        }
      } else {
        var n :| n in missing;
        var t :| t in tables && t.name == n && Selected(t);
      }
    }

    /** The row-security step of start-up; `role` is what the catalog holds once the role has been made.  With a
        role that is subject to row security only a statement can raise, and then nothing has changed. */
    method InitSchema(rls: bool, role: AppRole) returns (raised: bool)
      requires Valid()
      modifies this
      ensures Valid()
      ensures !raised && rls ==> role == AppRole(false, false)
      ensures raised && (!rls || role == AppRole(false, false)) ==> security == old(security)
      ensures !raised ==> if rls then Enforcing(tables, old(security), security) else NothingHidden(tables, security)
    {
      hide Enforcing, NothingHidden, TenantTables;
      var names;
      if rls {
        raised, names := ApplyPolicies();
        if raised { return; }
        AppliedEnforces(tables, old(security), security);
        forall t | t in tables && Selected(t) ensures security[t.name] == Security(true, true, true) {
          TenantTablesAre(tables, t.name);
        }
        var ok := AssertEnforcing(role);
        raised := !ok;
      } else {
        raised, names := DropPolicies();
        if !raised { DroppedOpens(tables, old(security), security); }
      }
    }
  }

  // The organisations' tables as the pool model sees them once the policies are applied.
  function AppliedTo(ts: seq<Table>): Setup { Setup(true, set n | n in TenantTables(ts)) }

  ghost predicate Unambiguous(ts: seq<Table>, t: Table) { t in ts && forall u | u in ts && u.name == t.name :: u == t }

  /** What start-up with row security on leaves behind: every data-plane table enforces that did before or whose
      name passes the check; and wherever security was off on the tables the check leaves out, the database
      decides on every row and connection as the pool model does. */
  ghost predicate Enforcing(ts: seq<Table>, before: map<string, Security>, now: map<string, Security>) {
    && now.Keys == before.Keys
    && (forall t | Unambiguous(ts, t) && DataPlane(t) && t.name in now ::
          now[t.name] == Security(true, true, true) <==> SafeIdent(t.name) || before[t.name] == Security(true, true, true))
    && (forall c: Conn, r: Row | r.table in now && (r.table in TenantTables(ts) || !before[r.table].enabled) ::
          Readable(now[r.table], c, r) == Allowed(AppliedTo(ts), c, r))
  }

  // ... and with it off: no table the check selects hides a row.
  ghost predicate NothingHidden(ts: seq<Table>, now: map<string, Security>) {
    forall c: Conn, r: Row | r.table in now && r.table in TenantTables(ts) :: Readable(now[r.table], c, r)
  }

  lemma AppliedEnforces(ts: seq<Table>, before: map<string, Security>, now: map<string, Security>)
    requires now.Keys == before.Keys
    requires forall t | t in now :: now[t] == Rewritten(t in TenantTables(ts), Security(true, true, true), before[t])
    ensures Enforcing(ts, before, now)
  {
    forall t | Unambiguous(ts, t) && DataPlane(t) && t.name in now
      ensures now[t.name] == Security(true, true, true) <==> SafeIdent(t.name) || before[t.name] == Security(true, true, true)
    {
      DataPlaneCoveredIff(ts, t, before[t.name], now[t.name]);
    }
    forall c: Conn, r: Row | r.table in now && (r.table in TenantTables(ts) || !before[r.table].enabled)
      ensures Readable(now[r.table], c, r) == Allowed(AppliedTo(ts), c, r)
    {
      PolicyIsAllowed(AppliedTo(ts), now, c, r);
    }
  }

  lemma DroppedOpens(ts: seq<Table>, before: map<string, Security>, now: map<string, Security>)
    requires forall t | t in now && t in before :: now[t] == Rewritten(t in TenantTables(ts), Security(false, false, false), before[t])
    requires now.Keys == before.Keys
    ensures NothingHidden(ts, now)
  {}

  lemma PolicyIsAllowed(setup: Setup, sec: map<string, Security>, c: Conn, r: Row)
    requires r.table in sec && sec[r.table].enabled == (r.table in setup.policed)
    requires sec[r.table].enabled ==> sec[r.table].policy
    ensures Readable(sec[r.table], c, r) == Allowed(setup, c, r)
  {}

  /** Between its DROP and its CREATE a table denies every row to the application role; the statements
      before and after do not. */
  lemma GapDeniesEverything(sec: Security, c: Conn, r: Row)
    requires sec == Security(true, true, true) && c.appRole
    ensures !Readable(sec.(policy := false), c, r)
    ensures c.org != "" && r.org == c.org ==> Readable(sec, c, r)
  {}

  /** After `apply_policies` a data-plane table enforces if and only if it did before or its name is a
      plain lower-case identifier: the name check, which guards the DDL, also leaves tables out. */
  lemma DataPlaneCoveredIff(ts: seq<Table>, t: Table, before: Security, after: Security)
    requires t in ts && DataPlane(t) && forall u | u in ts && u.name == t.name :: u == t
    requires after == if t.name in TenantTables(ts) then Security(true, true, true) else before
    ensures after == Security(true, true, true) <==> SafeIdent(t.name) || before == Security(true, true, true)
  {
    TenantTablesAre(ts, t.name);
  }

  lemma UppercaseTableIsLeftOut()
    ensures DataPlane(Table("Vendors", true)) && TenantTables([Table("Vendors", true)]) == []
  {
    assert [Table("Vendors", true)][..0] == [];
    assert "Vendors"[0] == 'V';
  }
}
