/** Many tasks over one connection pool: contexts change, connections are acquired, used and released
    in any interleaving, and every statement runs under the row-security policy.

    Rows carry the organisation text their policy compares; a table without a policy (the identity
    plane, or no organization_id column) is open.  A statement is any function of the rows it may see.
    Statements do not set session variables themselves. */
module TenantPool {
  import opened Options
  import opened TenantContext

  type Task = nat
  type ConnId = nat
  type RowId = nat

  datatype Row = Row(table: string, org: string, data: string)
  type Rows = map<RowId, Row>

  // Session settings, role and holder; `as` is the context the holder acquired it in.
  datatype Conn = Conn(org: string, bypass: bool, appRole: bool, holder: Option<Task>, acquiredIn: Ctx)

  // What a statement asks for, given the rows it sees.
  datatype Effect = Effect(result: string, deletes: set<RowId>, updates: Rows, inserts: Rows)
  type Statement = Rows -> Effect

  datatype Setup = Setup(rls: bool, policed: set<string>)

  // `used` holds every row id ever handed out.
  datatype State = State(rows: Rows, used: set<RowId>, conns: map<ConnId, Conn>, ctxs: map<Task, Ctx>)

  datatype Label =
    | SetContext(task: Task, ctx: Ctx)
    | Acquire(task: Task, conn: ConnId)
    | Run(task: Task, conn: ConnId, stmt: Statement)
    | Release(task: Task, conn: ConnId)

  /** `prepare_connection`: both settings are stamped and the role is set in one direction or the other,
      whatever the connection carried before. */
  function Stamped(setup: Setup, c: Conn, task: Task, ctx: Ctx): Conn {
    Conn(ctx.org, ctx.bypass, setup.rls && !ctx.bypass, Some(task), ctx)
  }

  // RESET ALL on release clears the settings and leaves the role.
  function ResetAll(c: Conn): Conn { Conn("", false, c.appRole, None, c.acquiredIn) }

  /** The policy: USING and WITH CHECK are the same expression, and only the unprivileged role is
      subject to it. */
  predicate Allowed(setup: Setup, c: Conn, r: Row) {
    !c.appRole || r.table !in setup.policed || c.bypass || (c.org != "" && r.org == c.org)
  }

  function Visible(setup: Setup, c: Conn, rows: Rows): Rows {
    map i | i in rows && Allowed(setup, c, rows[i]) :: rows[i]
  }

  // The statement's effect on the rows it saw: updates and deletes reach no other row.
  function Asked(setup: Setup, c: Conn, rows: Rows, stmt: Statement): Effect {
    var seen := Visible(setup, c, rows);
    var e := stmt(seen);
    Effect(e.result, set i | i in e.deletes && i in seen, map i | i in e.updates && i in seen :: e.updates[i], e.inserts)
  }

  // WITH CHECK on every row written.
  predicate PassesCheck(setup: Setup, c: Conn, e: Effect) {
    (forall i | i in e.updates :: Allowed(setup, c, e.updates[i])) &&
    (forall i | i in e.inserts :: Allowed(setup, c, e.inserts[i]))
  }

  const VIOLATION := "new row violates row-level security policy"

  function ResultOf(setup: Setup, c: Conn, rows: Rows, stmt: Statement): string {
    var e := Asked(setup, c, rows, stmt);
    if PassesCheck(setup, c, e) then e.result else VIOLATION
  }

  function Apply(e: Effect, rows: Rows): Rows { ((rows + e.updates) - e.deletes) + e.inserts }

  function RowsAfter(setup: Setup, c: Conn, rows: Rows, stmt: Statement): Rows {
    var e := Asked(setup, c, rows, stmt);
    if PassesCheck(setup, c, e) then Apply(e, rows) else rows
  }

  predicate Holds(s: State, task: Task, conn: ConnId) {
    conn in s.conns && s.conns[conn].holder == Some(task)
  }

  /** A step is possible.  New rows get ids that were never handed out before. */
  predicate Enabled(setup: Setup, s: State, l: Label) {
    match l
    case SetContext(task, ctx) => true
    case Acquire(task, conn) => conn in s.conns && s.conns[conn].holder.None? && task in s.ctxs
    case Run(task, conn, stmt) =>
      Holds(s, task, conn) && Asked(setup, s.conns[conn], s.rows, stmt).inserts.Keys !! s.used + s.rows.Keys
    case Release(task, conn) => Holds(s, task, conn)
  }

  function Next(setup: Setup, s: State, l: Label): State
    requires Enabled(setup, s, l)
  {
    match l
    case SetContext(task, ctx) => s.(ctxs := s.ctxs[task := ctx])
    case Acquire(task, conn) => s.(conns := s.conns[conn := Stamped(setup, s.conns[conn], task, s.ctxs[task])])
    case Run(task, conn, stmt) =>
      s.(rows := RowsAfter(setup, s.conns[conn], s.rows, stmt),
         used := s.used + Asked(setup, s.conns[conn], s.rows, stmt).inserts.Keys)
    case Release(task, conn) => s.(conns := s.conns[conn := ResetAll(s.conns[conn])])
  }

  /*************** one statement ***************/

  // The rows an organisation may know of: its own, and those of tables without a policy.
  function Known(setup: Setup, org: string, rows: Rows): Rows {
    map i | i in rows && (rows[i].table !in setup.policed || (org != "" && rows[i].org == org)) :: rows[i]
  }

  // A connection stamped from an enforced context of `org`.
  predicate EnforcedFor(c: Conn, org: string) { c.appRole && !c.bypass && c.org == org }

  /** Whatever the connection last carried, acquiring it in an enforced context of `org` makes exactly
      that organisation's rows visible; with no organisation, no row of a policed table is. */
  lemma AcquireScopes(setup: Setup, c: Conn, task: Task, ctx: Ctx, rows: Rows)
    requires setup.rls && !ctx.bypass
    ensures EnforcedFor(Stamped(setup, c, task, ctx), ctx.org)
    ensures Visible(setup, Stamped(setup, c, task, ctx), rows) == Known(setup, ctx.org, rows)
    ensures ctx.org == "" ==> forall i | i in Visible(setup, Stamped(setup, c, task, ctx), rows) :: rows[i].table !in setup.policed
  {}

  /** A statement on such a connection changes no row outside what its organisation may know, before or
      after. */
  lemma WritesStayInside(setup: Setup, c: Conn, org: string, rows: Rows, stmt: Statement)
    requires EnforcedFor(c, org)
    requires Asked(setup, c, rows, stmt).inserts.Keys !! rows.Keys
    ensures var after := RowsAfter(setup, c, rows, stmt);
            && (forall i | i in rows && i !in Known(setup, org, rows) :: i in after && after[i] == rows[i])
            && (forall i | i in after && i !in Known(setup, org, after) :: i in rows && after[i] == rows[i] && i !in Known(setup, org, rows))
  {}

  /** Its result, and what it makes of its organisation's rows, depend on those rows alone: in any two
      databases that agree on them, on any two connections so stamped, it does the same. */
  lemma SameViewSameEffect(setup: Setup, c: Conn, d: Conn, org: string, rows: Rows, rows': Rows, stmt: Statement)
    requires EnforcedFor(c, org) && EnforcedFor(d, org) && Known(setup, org, rows) == Known(setup, org, rows')
    requires Asked(setup, c, rows, stmt).inserts.Keys !! rows.Keys
    requires Asked(setup, d, rows', stmt).inserts.Keys !! rows'.Keys
    ensures Asked(setup, c, rows, stmt) == Asked(setup, d, rows', stmt)
    ensures ResultOf(setup, c, rows, stmt) == ResultOf(setup, d, rows', stmt)
    ensures Known(setup, org, RowsAfter(setup, c, rows, stmt)) == Known(setup, org, RowsAfter(setup, d, rows', stmt))
  {
    VisibleIsKnown(setup, c, org, rows);
    VisibleIsKnown(setup, d, org, rows');
    var e := Asked(setup, c, rows, stmt);
    assert e == Asked(setup, d, rows', stmt);
    assert PassesCheck(setup, c, e) <==> PassesCheck(setup, d, e);
    if PassesCheck(setup, c, e) {
      KnownAfter(setup, c, org, rows, e);
      KnownAfter(setup, d, org, rows', e);
    }
  }

  // What an organisation may write: a row of a table without a policy, or one of its own.
  predicate MayWrite(setup: Setup, org: string, r: Row) { r.table !in setup.policed || (org != "" && r.org == org) }

  // The rows once the statement's updates, deletes and inserts among `seen` are made.
  ghost predicate Written(e: Effect, seen: Rows, rows: Rows, after: Rows) {
    && (forall i :: i in after <==> i in e.inserts || (i in rows && !(i in seen && i in e.deletes)))
    && (forall i | i in after :: after[i] == if i in e.inserts then e.inserts[i]
                                             else if i in seen && i in e.updates then e.updates[i] else rows[i])
  }

  /** A tenant's own writes go through, and no others.  A statement on such a connection sees the organisation's rows
      and those of tables without a policy.  If and only if every row it writes, by update or insert, is one of
      those, it takes effect exactly as asked; otherwise it is refused and nothing changes. */
  lemma TakesEffectIff(setup: Setup, c: Conn, org: string, rows: Rows, stmt: Statement)
    requires EnforcedFor(c, org)
    requires var seen := map i | i in rows && (rows[i].table !in setup.policed || (org != "" && rows[i].org == org)) :: rows[i];
             stmt(seen).inserts.Keys !! rows.Keys
    ensures var seen := map i | i in rows && (rows[i].table !in setup.policed || (org != "" && rows[i].org == org)) :: rows[i];
            var (e, after) := (stmt(seen), RowsAfter(setup, c, rows, stmt));
            if (forall i | i in e.updates && i in seen :: MayWrite(setup, org, e.updates[i])) &&
               (forall i | i in e.inserts :: MayWrite(setup, org, e.inserts[i]))
            then ResultOf(setup, c, rows, stmt) == e.result && Written(e, seen, rows, after)
            else ResultOf(setup, c, rows, stmt) == VIOLATION && after == rows
  {
    VisibleIsKnown(setup, c, org, rows);
    var seen := Known(setup, org, rows);
    var (e, asked) := (stmt(seen), Asked(setup, c, rows, stmt));
    assert asked.inserts == e.inserts;
    assert forall i :: i in asked.updates <==> i in e.updates && i in seen;
    assert forall i | i in asked.updates :: asked.updates[i] == e.updates[i];
  }

  /** A statement on a connection stamped from a bypassing context, or with row security switched off, is never refused:
      it sees every row and takes effect exactly as asked. */
  lemma BypassTakesEffect(setup: Setup, c: Conn, task: Task, ctx: Ctx, rows: Rows, stmt: Statement)
    requires (ctx.bypass || !setup.rls) && stmt(rows).inserts.Keys !! rows.Keys
    ensures var d := Stamped(setup, c, task, ctx);
            ResultOf(setup, d, rows, stmt) == stmt(rows).result && Written(stmt(rows), rows, rows, RowsAfter(setup, d, rows, stmt))
  {
    var d := Stamped(setup, c, task, ctx);
    assert Visible(setup, d, rows) == rows;
    var (e, asked) := (stmt(rows), Asked(setup, d, rows, stmt));
    assert forall i :: i in asked.updates <==> i in e.updates && i in rows;
  }

  lemma VisibleIsKnown(setup: Setup, c: Conn, org: string, rows: Rows)
    requires EnforcedFor(c, org)
    ensures Visible(setup, c, rows) == Known(setup, org, rows)
  {}

  lemma KnownAfter(setup: Setup, c: Conn, org: string, rows: Rows, e: Effect)
    requires EnforcedFor(c, org) && PassesCheck(setup, c, e) && e.inserts.Keys !! rows.Keys
    requires e.updates.Keys <= Known(setup, org, rows).Keys && e.deletes <= Known(setup, org, rows).Keys
    ensures Known(setup, org, Apply(e, rows)) == Apply(e, Known(setup, org, rows))
  {
    var a, b := Known(setup, org, Apply(e, rows)), Apply(e, Known(setup, org, rows));
    assert forall i :: i in a <==> i in b;
    assert forall i | i in a :: a[i] == b[i];
  }

  /*************** whole runs ***************/

  predicate CanRun(setup: Setup, s: State, ls: seq<Label>)
    decreases |ls|
  {
    ls == [] || (Enabled(setup, s, ls[0]) && CanRun(setup, Next(setup, s, ls[0]), ls[1..]))
  }

  function End(setup: Setup, s: State, ls: seq<Label>): State
    requires CanRun(setup, s, ls)
    decreases |ls|
  {
    if ls == [] then s else End(setup, Next(setup, s, ls[0]), ls[1..])
  }

  /** A held connection carries exactly the stamp of the context it was acquired in. */
  predicate StampsHold(setup: Setup, s: State) {
    forall c | c in s.conns && s.conns[c].holder.Some? ::
      s.conns[c] == Stamped(setup, s.conns[c], s.conns[c].holder.value, s.conns[c].acquiredIn)
  }

  /** In every run, from any pool: every statement runs under the context in force when its connection
      was acquired, whatever the acquirer's context has become since. */
  lemma {:induction false} StampsHoldInEveryRun(setup: Setup, s: State, ls: seq<Label>)
    requires StampsHold(setup, s) && CanRun(setup, s, ls)
    ensures StampsHold(setup, End(setup, s, ls))
    decreases |ls|
  {
    if ls != [] { StampsHoldInEveryRun(setup, Next(setup, s, ls[0]), ls[1..]); }
  }

  /* The enforced organisation a step acts for.  A context change acts for nobody; a step with the bypass on acts
     for the system, whatever organisation its context names. */
  predicate ActsFor(s: State, l: Label, org: string) {
    match l
    case SetContext(_, _) => true
    case Acquire(task, _) => task in s.ctxs && s.ctxs[task] == Ctx(org, false)
    case Run(_, conn, _) => conn in s.conns && Scoped(s.conns[conn], org)
    case Release(_, conn) => conn in s.conns && Scoped(s.conns[conn], org)
  }

  predicate Scoped(c: Conn, org: string) { c.org == org && !c.bypass }

  /* What the policy does not see to, for a statement of others: enforced ones leave the open tables as they were,
     bypassing ones whatever `org` may know. */
  predicate Isolated(setup: Setup, s: State, l: Label, org: string) {
    l.Run? && l.conn in s.conns && !ActsFor(s, l, org) ==>
      var after := RowsAfter(setup, s.conns[l.conn], s.rows, l.stmt);
      if s.conns[l.conn].bypass then Known(setup, org, after) == Known(setup, org, s.rows) else Open(setup, after) == Open(setup, s.rows)
  }

  function Open(setup: Setup, rows: Rows): Rows { map i | i in rows && rows[i].table !in setup.policed :: rows[i] }

  predicate IsolatedRun(setup: Setup, s: State, ls: seq<Label>, org: string)
    requires CanRun(setup, s, ls)
    decreases |ls|
  {
    ls == [] || (Isolated(setup, s, ls[0], org) && IsolatedRun(setup, Next(setup, s, ls[0]), ls[1..], org))
  }

  // Every held connection without the bypass is subject to the policy.
  predicate EnforcedPool(s: State) {
    forall c | c in s.conns && s.conns[c].holder.Some? && !s.conns[c].bypass :: s.conns[c].appRole
  }

  // The run with every step of other organisations and of the system taken out.
  function Purged(setup: Setup, s: State, ls: seq<Label>, org: string): seq<Label>
    requires CanRun(setup, s, ls)
    decreases |ls|
  {
    if ls == [] then [] else
    (if ActsFor(s, ls[0], org) then [ls[0]] else []) + Purged(setup, Next(setup, s, ls[0]), ls[1..], org)
  }

  // What the statements of `org` returned, in order.
  function Results(setup: Setup, s: State, ls: seq<Label>, org: string): seq<string>
    requires CanRun(setup, s, ls)
    decreases |ls|
  {
    if ls == [] then [] else
    (if ls[0].Run? && ActsFor(s, ls[0], org) then [ResultOf(setup, s.conns[ls[0].conn], s.rows, ls[0].stmt)] else [])
    + Results(setup, Next(setup, s, ls[0]), ls[1..], org)
  }

  // The pool `t` as the organisation `org` knows pool `s`.
  predicate Twin(setup: Setup, s: State, t: State, org: string) {
    && Known(setup, org, s.rows) == Known(setup, org, t.rows)
    && t.rows.Keys <= t.used <= s.used
    && s.ctxs == t.ctxs
    && s.conns.Keys == t.conns.Keys
    && forall c | c in s.conns ::
         if s.conns[c].holder.Some? && Scoped(s.conns[c], org)
         then t.conns[c].holder == s.conns[c].holder && t.conns[c].org == org && t.conns[c].bypass == s.conns[c].bypass &&
              t.conns[c].appRole == s.conns[c].appRole
         else t.conns[c].holder.None?
  }

  lemma TwinRun(setup: Setup, s: State, t: State, l: Label, org: string)
    requires EnforcedPool(s) && Twin(setup, s, t, org) && Enabled(setup, s, l) && l.Run? && ActsFor(s, l, org)
    ensures Enabled(setup, t, l) && ActsFor(t, l, org)
    ensures ResultOf(setup, s.conns[l.conn], s.rows, l.stmt) == ResultOf(setup, t.conns[l.conn], t.rows, l.stmt)
    ensures Twin(setup, Next(setup, s, l), Next(setup, t, l), org)
  {
    var c, d := s.conns[l.conn], t.conns[l.conn];
    VisibleIsKnown(setup, c, org, s.rows);
    VisibleIsKnown(setup, d, org, t.rows);
    assert Asked(setup, c, s.rows, l.stmt) == Asked(setup, d, t.rows, l.stmt);
    SameViewSameEffect(setup, c, d, org, s.rows, t.rows, l.stmt);
  }

  lemma TwinOther(setup: Setup, s: State, t: State, l: Label, org: string)
    requires EnforcedPool(s) && Twin(setup, s, t, org) && Enabled(setup, s, l) && Isolated(setup, s, l, org) && !ActsFor(s, l, org)
    ensures Twin(setup, Next(setup, s, l), t, org)
  {
    if l.Run? && !s.conns[l.conn].bypass {
      var c := s.conns[l.conn];
      var after := RowsAfter(setup, c, s.rows, l.stmt);
      WritesStayInside(setup, c, c.org, s.rows, l.stmt);
      OtherOrgInvisible(setup, c, org, s.rows, l.stmt);
    }
  }

  // A statement of another organisation that leaves the open tables alone is invisible to `org`; and it
  // deletes no row of it.
  lemma OtherOrgInvisible(setup: Setup, c: Conn, org: string, rows: Rows, stmt: Statement)
    requires EnforcedFor(c, c.org) && c.org != org
    requires Asked(setup, c, rows, stmt).inserts.Keys !! rows.Keys
    requires Open(setup, RowsAfter(setup, c, rows, stmt)) == Open(setup, rows)
    ensures Known(setup, org, RowsAfter(setup, c, rows, stmt)) == Known(setup, org, rows)
  {
    var after := RowsAfter(setup, c, rows, stmt);
    WritesStayInside(setup, c, c.org, rows, stmt);
    forall i ensures i in Known(setup, org, after) <==> i in Known(setup, org, rows) {
      assert i in Open(setup, after) <==> i in Open(setup, rows);
    }
    forall i | i in Known(setup, org, after) ensures after[i] == rows[i] {
      if after[i].table !in setup.policed { assert Open(setup, after)[i] == Open(setup, rows)[i]; }
    }
  }

  lemma TwinPool(setup: Setup, s: State, t: State, l: Label, org: string)
    requires Twin(setup, s, t, org) && Enabled(setup, s, l) && !l.Run? && ActsFor(s, l, org)
    ensures Enabled(setup, t, l)
    ensures Twin(setup, Next(setup, s, l), Next(setup, t, l), org)
  {}

  lemma StaysEnforced(setup: Setup, s: State, l: Label)
    requires setup.rls && EnforcedPool(s) && Enabled(setup, s, l)
    ensures EnforcedPool(Next(setup, s, l))
  {}

  /** Non-interference over every interleaving, connections passing from bypassing jobs to tenants and back
      included.  Take any run in which enforced statements of other organisations write policed tables only, and
      bypassing ones leave what `org` may know as it was.  Remove every step the other organisations and the
      system take, and let their rows be anything else to begin with: the remaining run is still possible, every
      statement of `org` returns the same, and `org` ends with the same rows. */
  lemma {:induction false} OthersDoNotInterfere(setup: Setup, s: State, t: State, ls: seq<Label>, org: string)
    requires setup.rls && EnforcedPool(s)
    requires CanRun(setup, s, ls) && IsolatedRun(setup, s, ls, org) && Twin(setup, s, t, org)
    ensures CanRun(setup, t, Purged(setup, s, ls, org))
    ensures Results(setup, t, Purged(setup, s, ls, org), org) == Results(setup, s, ls, org)
    ensures Known(setup, org, End(setup, t, Purged(setup, s, ls, org)).rows) == Known(setup, org, End(setup, s, ls).rows)
    decreases |ls|
  {
    if ls != [] {
      var l, s' := ls[0], Next(setup, s, ls[0]);
      StaysEnforced(setup, s, l);
      if ActsFor(s, l, org) {
        if l.Run? { TwinRun(setup, s, t, l, org); } else { TwinPool(setup, s, t, l, org); }
        var t' := Next(setup, t, l);
        OthersDoNotInterfere(setup, s', t', ls[1..], org);
        var rest := Purged(setup, s', ls[1..], org);
        assert Purged(setup, s, ls, org) == [l] + rest;
        assert ([l] + rest)[1..] == rest;
        ActsAlike(setup, s, t, l, org);
      } else {
        TwinOther(setup, s, t, l, org);
        OthersDoNotInterfere(setup, s', t, ls[1..], org);
        assert Purged(setup, s, ls, org) == Purged(setup, s', ls[1..], org);
      }
    }
  }

  lemma ActsAlike(setup: Setup, s: State, t: State, l: Label, org: string)
    requires Twin(setup, s, t, org) && Enabled(setup, s, l) && ActsFor(s, l, org)
    ensures ActsFor(t, l, org)
  {}

  // A pool nobody holds a connection of.
  predicate Idle(s: State) { s.rows.Keys <= s.used && forall c | c in s.conns :: s.conns[c].holder.None? }

  /** Two installations that agree on what `org` may know, start idle and share contexts and connection
      names: whatever the other organisations and the system's jobs do in the first and whatever their rows are
      in the second, where they do nothing, `org` cannot tell which one it is in. */
  lemma TenantCannotTell(setup: Setup, s: State, t: State, ls: seq<Label>, org: string)
    requires setup.rls && Idle(s) && Idle(t)
    requires s.ctxs == t.ctxs && s.conns.Keys == t.conns.Keys && t.used <= s.used
    requires Known(setup, org, s.rows) == Known(setup, org, t.rows)
    requires CanRun(setup, s, ls) && IsolatedRun(setup, s, ls, org)
    ensures CanRun(setup, t, Purged(setup, s, ls, org))
    ensures Results(setup, t, Purged(setup, s, ls, org), org) == Results(setup, s, ls, org)
  {
    OthersDoNotInterfere(setup, s, t, ls, org);
  }
}
