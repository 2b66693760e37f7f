/** The two context variables that scope a request, and every way code can nest the constructs that
    set and reset them. */
module TenantContext {
  import opened Options

  datatype Ctx = Ctx(org: string, bypass: bool)

  /** What request code can do to its context.  `Query` stands for any use of the pool, which reads the
      context at that moment.  `set_tenant(None)` is `SetTenant("")`. */
  datatype Code =
    | Query
    | SetTenant(org: string)
    | TenantBlock(org: string, body: Code)
    | SystemBlock(body: Code)
    | Raise
    | Then(first: Code, second: Code)
    | Try(body: Code, handler: Code)
    | Spawn(task: Code)
    | Request(http: bool, app: Code)

  // What a query saw, and whether it stood inside a `system_context()` block of its own request, or in a task
  // spawned inside one.
  datatype Seen = Seen(ctx: Ctx, inSystem: bool)

  datatype Outcome = Outcome(ctx: Ctx, raised: bool, seen: seq<Seen>)

  /** Running code from a context.  A block resets its variables to what its tokens remember, on the
      normal path and on the exceptional one.  `system_context` holds a token for the bypass only.  A spawned
      task works on a copy of the context, so when it runs makes no difference to what it sees; its queries
      are listed where it is spawned. */
  function Exec(p: Code, c: Ctx, inSystem: bool): Outcome {
    match p
    case Query => Outcome(c, false, [Seen(c, inSystem)])
    case SetTenant(org) => Outcome(Ctx(org, false), false, [])
    case TenantBlock(org, body) => Exec(body, Ctx(org, false), inSystem).(ctx := c)
    case SystemBlock(body) =>
      var o := Exec(body, c.(bypass := true), true);
      o.(ctx := o.ctx.(bypass := c.bypass))
    case Raise => Outcome(c, true, [])
    case Then(first, second) =>
      var o := Exec(first, c, inSystem);
      if o.raised then o else
      var o2 := Exec(second, o.ctx, inSystem);
      o2.(seen := o.seen + o2.seen)
    case Try(body, handler) =>
      var o := Exec(body, c, inSystem);
      if !o.raised then o else
      var o2 := Exec(handler, o.ctx, inSystem);
      o2.(seen := o.seen + o2.seen)
    case Spawn(task) => Outcome(c, false, Exec(task, c, inSystem).seen)
    case Request(http, app) =>
      if http then Exec(app, Ctx("", false), false).(ctx := c) else Exec(app, c, inSystem)
  }

  /** `_current_org` and `_bypass`; `set` hands back a token holding the old value. */
  class ContextVars {
    var org: string
    var bypass: bool

    method SetOrg(v: string) returns (token: string)
      modifies this`org
      ensures org == v && token == old(org)
    {
      token := org;
      org := v;
    }

    method SetBypass(v: bool) returns (token: bool)
      modifies this`bypass
      ensures bypass == v && token == old(bypass)
    {
      token := bypass;
      bypass := v;
    }

    /** Running code.  What every query sees is settled by where it stands in the code: see `Scopes`. */
    method Run(p: Code, inSystem: bool) returns (raised: bool, seen: seq<Seen>)
      modifies this
      ensures raised == Raises(p)
      ensures seen == Shown(Scopes(p), old(Ctx(org, bypass)), inSystem)
      ensures org == Or(Reaches(p), Some(old(org))).value && bypass == Bypassing(LastActor(p), old(bypass))
    {
      ghost var c := Ctx(org, bypass);
      raised, seen := Interpret(p, inSystem);
      ScopesAreSeen(p, c, inSystem);
    }

    // The constructs one by one, against the reference semantics.
    method Interpret(p: Code, inSystem: bool) returns (raised: bool, seen: seq<Seen>)
      modifies this
      ensures Outcome(Ctx(org, bypass), raised, seen) == Exec(p, old(Ctx(org, bypass)), inSystem)
      decreases p
    {
      raised, seen := false, [];
      match p
      case Query => seen := [Seen(Ctx(org, bypass), inSystem)];
      case SetTenant(o) =>
        var _ := SetOrg(o);
        var _ := SetBypass(false);
      case TenantBlock(o, body) =>
        var orgToken := SetOrg(o);
        var bypassToken := SetBypass(false);
        raised, seen := Interpret(body, inSystem);
        org := orgToken;
        bypass := bypassToken;
      case SystemBlock(body) =>
        var token := SetBypass(true);
        raised, seen := Interpret(body, true);
        bypass := token;
      case Raise => raised := true;
      case Then(first, second) =>
        raised, seen := Interpret(first, inSystem);
        if !raised {
          var more;
          raised, more := Interpret(second, inSystem);
          seen := seen + more;
        }
      case Try(body, handler) =>
        raised, seen := Interpret(body, inSystem);
        if raised {
          var more;
          raised, more := Interpret(handler, inSystem);
          seen := seen + more;
        }
      case Spawn(task) =>
        // The event loop switches to the copy and back.
        var ours := Ctx(org, bypass);
        var failed;
        failed, seen := Interpret(task, inSystem);
        org, bypass := ours.org, ours.bypass;
      case Request(http, app) =>
        if http {
          var orgToken := SetOrg("");
          var bypassToken := SetBypass(false);
          raised, seen := Interpret(app, false);
          org := orgToken;
          bypass := bypassToken;
        } else {
          raised, seen := Interpret(app, inSystem);
        }
    }

    /** One HTTP request through the middleware, whatever the context it arrives in and however it ends: both
        variables are back at their old values, and every query, those of spawned tasks included, ran for an
        organisation the request named itself or for none, and with the bypass on only inside a
        `system_context()` block of the request or in a task spawned in one. */
    method Serve(app: Code) returns (raised: bool, seen: seq<Seen>)
      modifies this
      ensures org == old(org) && bypass == old(bypass)
      ensures raised == Raises(app)
      ensures forall s | s in seen :: (s.ctx.org == "" || s.ctx.org in Named(app)) && (s.ctx.bypass ==> s.inSystem)
      ensures |seen| == |Scopes(app)| && forall i | 0 <= i < |seen| ::
                (seen[i].ctx.bypass <==> Scopes(app)[i].actor.System?) && seen[i].ctx.org == Or(Scopes(app)[i].org, Some("")).value
    {
      ghost var c := Ctx(org, bypass);
      ScopesAreSeen(Request(true, app), c, false);
      raised, seen := Run(Request(true, app), false);
      RequestRestores(app, c, false);
      RequestBypassIsExplicit(app, c, false);
      RequestSeesItsOwn(app, c, false);
      LeavesOrg(Request(true, app), c, false);
    }
  }

  /*************** what a query sees, by where it stands ***************/

  // What last acted on the bypass: nothing of the code; set_tenant, a tenant block or the middleware, which turn it
  // off; or a system block, which turns it on.
  datatype Actor = Ambient | Enforcing | System

  // Where a query stands: the organisation last named for it, what last acted on the bypass, and whether it is in a
  // system block of its request.  What the code leaves open is as the code is entered.
  datatype Scope = Scope(org: Option<string>, actor: Actor, inside: Option<bool>)

  function Bypassing(a: Actor, ambient: bool): bool {
    match a
    case Ambient => ambient
    case Enforcing => false
    case System => true
  }

  function ShownAs(x: Scope, c: Ctx, inSystem: bool): Seen {
    Seen(Ctx(if x.org.Some? then x.org.value else c.org, Bypassing(x.actor, c.bypass)), if x.inside.Some? then x.inside.value else inSystem)
  }

  function Shown(xs: seq<Scope>, c: Ctx, inSystem: bool): seq<Seen> {
    seq(|xs|, i requires 0 <= i < |xs| => ShownAs(xs[i], c, inSystem))
  }

  // Where it stands inside a wider scope.
  function Within(o: Scope, x: Scope): Scope {
    Scope(Or(x.org, o.org), if x.actor.Ambient? then o.actor else x.actor, if x.inside.Some? then x.inside else o.inside)
  }

  function Under(o: Scope, xs: seq<Scope>): seq<Scope> { seq(|xs|, i requires 0 <= i < |xs| => Within(o, xs[i])) }

  // What still acts on the bypass when the code is done: blocks put it back, `set_tenant` does not.
  function LastActor(p: Code): Actor {
    match p
    case SetTenant(_) => Enforcing
    case Then(first, second) => if Raises(first) || LastActor(second).Ambient? then LastActor(first) else LastActor(second)
    case Try(body, handler) => if Raises(body) && !LastActor(handler).Ambient? then LastActor(handler) else LastActor(body)
    case Request(http, app) => if http then Ambient else LastActor(app)
    case _ => Ambient
  }

  // Code that runs after `p`.
  function Following(p: Code): Scope { Scope(Reaches(p), LastActor(p), None) }

  /** Where each query of the code stands, in the order the queries run. */
  function Scopes(p: Code): seq<Scope> {
    match p
    case Query => [Scope(None, Ambient, None)]
    case SetTenant(_) => []
    case TenantBlock(org, body) => Under(Scope(Some(org), Enforcing, None), Scopes(body))
    case SystemBlock(body) => Under(Scope(None, System, Some(true)), Scopes(body))
    case Raise => []
    case Then(first, second) => Scopes(first) + if Raises(first) then [] else Under(Following(first), Scopes(second))
    case Try(body, handler) => Scopes(body) + if Raises(body) then Under(Following(body), Scopes(handler)) else []
    case Spawn(task) => Scopes(task)
    case Request(http, app) => if http then Under(Scope(Some(""), Enforcing, Some(false)), Scopes(app)) else Scopes(app)
  }

  lemma ShownUnder(o: Scope, xs: seq<Scope>, c: Ctx, inSystem: bool)
    ensures var outer := ShownAs(o, c, inSystem);
            Shown(Under(o, xs), c, inSystem) == Shown(xs, outer.ctx, outer.inSystem)
  {}

  lemma NothingShown(c: Ctx, inSystem: bool)
    ensures Shown([], c, inSystem) == [] && Shown([Scope(None, Ambient, None)], c, inSystem) == [Seen(c, inSystem)]
  {}

  lemma ShownAppend(xs: seq<Scope>, ys: seq<Scope>, c: Ctx, inSystem: bool)
    ensures Shown(xs + ys, c, inSystem) == Shown(xs, c, inSystem) + Shown(ys, c, inSystem)
  {}

  // Code that runs after `first`.
  lemma Chained(first: Code, xs: seq<Scope>, ys: seq<Scope>, c: Ctx, inSystem: bool, d: Ctx)
    requires d == Ctx(Or(Reaches(first), Some(c.org)).value, Bypassing(LastActor(first), c.bypass))
    ensures Shown(xs + Under(Following(first), ys), c, inSystem) == Shown(xs, c, inSystem) + Shown(ys, d, inSystem)
    ensures xs + [] == xs
  {
    ShownUnder(Following(first), ys, c, inSystem);
    ShownAppend(xs, Under(Following(first), ys), c, inSystem);
    hide Shown, Under, Reaches, LastActor;
  }

  /** The reference semantics is settled by structure: from every context, each query sees what its scope says, and
      the code leaves what the last effective `set_tenant` says. */
  lemma {:induction false} ScopesAreSeen(p: Code, c: Ctx, inSystem: bool)
    ensures Exec(p, c, inSystem).seen == Shown(Scopes(p), c, inSystem)
    ensures Exec(p, c, inSystem).raised == Raises(p)
    ensures Exec(p, c, inSystem).ctx == Ctx(Or(Reaches(p), Some(c.org)).value, Bypassing(LastActor(p), c.bypass))
  {
    hide Shown, Under;
    NothingShown(c, inSystem);
    match p
    case TenantBlock(org, body) =>
      ScopesAreSeen(body, Ctx(org, false), inSystem);
      ShownUnder(Scope(Some(org), Enforcing, None), Scopes(body), c, inSystem);
    case SystemBlock(body) =>
      ScopesAreSeen(body, c.(bypass := true), true);
      ShownUnder(Scope(None, System, Some(true)), Scopes(body), c, inSystem);
    case Then(first, second) =>
      var d := Exec(first, c, inSystem).ctx;
      ScopesAreSeen(first, c, inSystem);
      ScopesAreSeen(second, d, inSystem);
      Chained(first, Scopes(first), Scopes(second), c, inSystem, d);
    case Try(body, handler) =>
      var d := Exec(body, c, inSystem).ctx;
      ScopesAreSeen(body, c, inSystem);
      ScopesAreSeen(handler, d, inSystem);
      Chained(body, Scopes(body), Scopes(handler), c, inSystem, d);
    case Spawn(task) => ScopesAreSeen(task, c, inSystem);
    case Request(http, app) =>
      if http {
        ScopesAreSeen(app, Ctx("", false), false);
        ShownUnder(Scope(Some(""), Enforcing, Some(false)), Scopes(app), c, inSystem);
      } else {
        ScopesAreSeen(app, c, inSystem);
      }
    case _ =>
  }

  // The code holds none of these constructs.
  predicate NoTenant(p: Code) {
    match p
    case SetTenant(_) => false
    case TenantBlock(_, _) => false
    case SystemBlock(body) => NoTenant(body)
    case Then(first, second) => NoTenant(first) && NoTenant(second)
    case Try(body, handler) => NoTenant(body) && NoTenant(handler)
    case Spawn(task) => NoTenant(task)
    case Request(http, app) => !http && NoTenant(app)
    case _ => true
  }

  predicate NoSystem(p: Code) {
    match p
    case SystemBlock(_) => false
    case TenantBlock(_, body) => NoSystem(body)
    case Then(first, second) => NoSystem(first) && NoSystem(second)
    case Try(body, handler) => NoSystem(body) && NoSystem(handler)
    case Spawn(task) => NoSystem(task)
    case Request(_, app) => NoSystem(app)
    case _ => true
  }

  /** A system job: every query of a `system_context()` block that names no tenant bypasses row security, and sees
      the organisation the block was entered with. */
  lemma SystemJobBypasses(body: Code, c: Ctx, inSystem: bool)
    requires NoTenant(body)
    ensures forall s | s in Exec(SystemBlock(body), c, inSystem).seen :: s == Seen(Ctx(c.org, true), true)
  {
    Bypassed(body, c.(bypass := true));
  }

  lemma {:induction false} Bypassed(p: Code, c: Ctx)
    requires NoTenant(p) && c.bypass
    ensures Exec(p, c, true).ctx == c && forall s | s in Exec(p, c, true).seen :: s == Seen(c, true)
  {
    match p
    case SystemBlock(body) => Bypassed(body, c);
    case Then(first, second) => Bypassed(first, c); Bypassed(second, c);
    case Try(body, handler) => Bypassed(body, c); Bypassed(handler, c);
    case Spawn(task) => Bypassed(task, c);
    case Request(_, app) => Bypassed(app, c);
    case _ =>
  }

  /** Tenant work: in a tenant block, after `set_tenant`, and in a request, no query bypasses row security unless the
      code holds a system block, whatever the context it is entered in. */
  lemma TenantWorkIsEnforced(org: string, body: Code, c: Ctx, inSystem: bool)
    requires NoSystem(body)
    ensures forall s | s in Exec(TenantBlock(org, body), c, inSystem).seen :: !s.ctx.bypass
    ensures forall s | s in Exec(Then(SetTenant(org), body), c, inSystem).seen :: !s.ctx.bypass
    ensures forall s | s in Exec(Request(true, body), c, inSystem).seen :: !s.ctx.bypass
  {
    Enforced(body, Ctx(org, false), inSystem);
    Enforced(body, Ctx("", false), false);
    assert Exec(SetTenant(org), c, inSystem).ctx == Ctx(org, false);
  }

  lemma {:induction false} Enforced(p: Code, c: Ctx, inSystem: bool)
    requires NoSystem(p) && !c.bypass
    ensures !Exec(p, c, inSystem).ctx.bypass && forall s | s in Exec(p, c, inSystem).seen :: !s.ctx.bypass
  {
    match p
    case TenantBlock(org, body) => Enforced(body, Ctx(org, false), inSystem);
    case Then(first, second) =>
      Enforced(first, c, inSystem);
      Enforced(second, Exec(first, c, inSystem).ctx, inSystem);
    case Try(body, handler) =>
      Enforced(body, c, inSystem);
      Enforced(handler, Exec(body, c, inSystem).ctx, inSystem);
    case Spawn(task) => Enforced(task, c, inSystem);
    case Request(http, app) => if http { Enforced(app, Ctx("", false), false); } else { Enforced(app, c, inSystem); }
    case _ =>
  }

  // Both variables are back after a request.
  lemma RequestRestores(app: Code, c: Ctx, inSystem: bool)
    ensures Exec(Request(true, app), c, inSystem).ctx == c
  {}

  /** What a request does and sees does not depend on the context it arrives in: an ambient bypass
      changes nothing. */
  lemma RequestIgnoresAmbient(app: Code, c: Ctx, d: Ctx, i: bool, j: bool)
    ensures Exec(Request(true, app), c, i).seen == Exec(Request(true, app), d, j).seen
    ensures Exec(Request(true, app), c, i).raised == Exec(Request(true, app), d, j).raised
  {}

  /** Starting enforced, no code leaves the bypass on, and no query runs with it on unless it stands
      inside a `system_context()` block. */
  lemma {:induction false} BypassNeverEscapes(p: Code, c: Ctx, inSystem: bool)
    requires c.bypass ==> inSystem
    ensures !c.bypass ==> !Exec(p, c, inSystem).ctx.bypass
    ensures forall s | s in Exec(p, c, inSystem).seen :: s.ctx.bypass ==> s.inSystem
  {
    match p
    case TenantBlock(org, body) => BypassNeverEscapes(body, Ctx(org, false), inSystem);
    case SystemBlock(body) => BypassNeverEscapes(body, c.(bypass := true), true);
    case Then(first, second) =>
      BypassNeverEscapes(first, c, inSystem);
      BypassKept(first, c, inSystem);
      BypassNeverEscapes(second, Exec(first, c, inSystem).ctx, inSystem);
    case Try(body, handler) =>
      BypassNeverEscapes(body, c, inSystem);
      BypassKept(body, c, inSystem);
      BypassNeverEscapes(handler, Exec(body, c, inSystem).ctx, inSystem);
    case Spawn(task) => BypassNeverEscapes(task, c, inSystem);
    case Request(http, app) =>
      if http { BypassNeverEscapes(app, Ctx("", false), false); } else { BypassNeverEscapes(app, c, inSystem); }
    case _ =>
  }

  // Code never turns a bypass on that was not on before it.
  lemma {:induction false} BypassKept(p: Code, c: Ctx, inSystem: bool)
    ensures Exec(p, c, inSystem).ctx.bypass ==> c.bypass
  {
    match p
    case Then(first, second) =>
      BypassKept(first, c, inSystem);
      BypassKept(second, Exec(first, c, inSystem).ctx, inSystem);
    case Try(body, handler) =>
      BypassKept(body, c, inSystem);
      BypassKept(handler, Exec(body, c, inSystem).ctx, inSystem);
    case Request(http, app) => if !http { BypassKept(app, c, inSystem); }
    case _ =>
  }

  /** Under the middleware, whatever the process context: a query that bypasses row security stands
      inside a `system_context()` block of that very request, or in a task spawned in one. */
  lemma RequestBypassIsExplicit(app: Code, c: Ctx, inSystem: bool)
    ensures forall s | s in Exec(Request(true, app), c, inSystem).seen :: s.ctx.bypass ==> s.inSystem
  {
    BypassNeverEscapes(app, Ctx("", false), false);
  }

  // The organisations the code names, and none where it serves a request of its own.
  function Named(p: Code): set<string> {
    match p
    case SetTenant(org) => {org}
    case TenantBlock(org, body) => {org} + Named(body)
    case SystemBlock(body) => Named(body)
    case Then(first, second) => Named(first) + Named(second)
    case Try(body, handler) => Named(body) + Named(handler)
    case Spawn(task) => Named(task)
    case Request(http, app) => Named(app) + if http then {""} else {}
    case _ => {}
  }

  lemma {:induction false} SeesNamed(p: Code, c: Ctx, inSystem: bool, orgs: set<string>)
    requires c.org in orgs && Named(p) <= orgs
    ensures Exec(p, c, inSystem).ctx.org in orgs
    ensures forall s | s in Exec(p, c, inSystem).seen :: s.ctx.org in orgs
  {
    match p
    case TenantBlock(org, body) => SeesNamed(body, Ctx(org, false), inSystem, orgs);
    case SystemBlock(body) => SeesNamed(body, c.(bypass := true), true, orgs);
    case Then(first, second) =>
      SeesNamed(first, c, inSystem, orgs);
      SeesNamed(second, Exec(first, c, inSystem).ctx, inSystem, orgs);
    case Try(body, handler) =>
      SeesNamed(body, c, inSystem, orgs);
      SeesNamed(handler, Exec(body, c, inSystem).ctx, inSystem, orgs);
    case Spawn(task) => SeesNamed(task, c, inSystem, orgs);
    case Request(http, app) => SeesNamed(app, if http then Ctx("", false) else c, if http then false else inSystem, orgs);
    case _ =>
  }

  /** Every query of a request, its spawned tasks included, runs for an organisation the request itself named,
      or for none: nothing of the context it arrived in reaches a query. */
  lemma RequestSeesItsOwn(app: Code, c: Ctx, inSystem: bool)
    ensures forall s | s in Exec(Request(true, app), c, inSystem).seen :: s.ctx.org == "" || s.ctx.org in Named(app)
  {
    SeesNamed(app, Ctx("", false), false, Named(app) + {""});
  }

  // The code ends in an exception; no context decides this.
  predicate Raises(p: Code) {
    match p
    case TenantBlock(_, body) => Raises(body)
    case SystemBlock(body) => Raises(body)
    case Raise => true
    case Then(first, second) => Raises(first) || Raises(second)
    case Try(body, handler) => Raises(body) && Raises(handler)
    case Request(_, app) => Raises(app)
    case _ => false
  }

  function Or(last: Option<string>, earlier: Option<string>): Option<string> { if last.Some? then last else earlier }

  /* The organisation of the last `set_tenant` call whose effect reaches out of the code: it is called, and no
     tenant block, request or spawned task of the code holds it in. */
  function Reaches(p: Code): Option<string> {
    match p
    case SetTenant(org) => Some(org)
    case SystemBlock(body) => Reaches(body)
    case Then(first, second) => if Raises(first) then Reaches(first) else Or(Reaches(second), Reaches(first))
    case Try(body, handler) => if Raises(body) then Or(Reaches(handler), Reaches(body)) else Reaches(body)
    case Request(http, app) => if http then None else Reaches(app)
    case _ => None
  }

  lemma {:induction false} LeavesOrg(p: Code, c: Ctx, inSystem: bool)
    ensures Exec(p, c, inSystem).raised <==> Raises(p)
    ensures Exec(p, c, inSystem).ctx.org == Or(Reaches(p), Some(c.org)).value
  {
    match p
    case TenantBlock(org, body) => LeavesOrg(body, Ctx(org, false), inSystem);
    case SystemBlock(body) => LeavesOrg(body, c.(bypass := true), true);
    case Then(first, second) =>
      LeavesOrg(first, c, inSystem);
      LeavesOrg(second, Exec(first, c, inSystem).ctx, inSystem);
    case Try(body, handler) =>
      LeavesOrg(body, c, inSystem);
      LeavesOrg(handler, Exec(body, c, inSystem).ctx, inSystem);
    case Request(http, app) => LeavesOrg(app, if http then Ctx("", false) else c, if http then false else inSystem);
    case _ =>
  }

  /** The organisation in force survives the code, from every context, if and only if no `set_tenant` call of it
      reaches out: tenant blocks, requests and spawned tasks hold one in, `system_context` does not. */
  lemma OrgContainedIff(p: Code)
    ensures (forall c, i :: Exec(p, c, i).ctx.org == c.org) <==> Reaches(p).None?
  {
    forall c, i ensures Exec(p, c, i).ctx.org == Or(Reaches(p), Some(c.org)).value { LeavesOrg(p, c, i); }
    if Reaches(p).Some? {
      var c := Ctx(Reaches(p).value + "x", false);
      assert Exec(p, c, false).ctx.org != c.org;
    }
  }

  /** What a `system_context()` block leaves behind: the bypass as it was, and the last tenant set in it. */
  lemma SystemBlockLeaksTenant(body: Code, c: Ctx, inSystem: bool)
    ensures Exec(SystemBlock(body), c, inSystem).ctx == Ctx(Or(Reaches(body), Some(c.org)).value, c.bypass)
  {
    LeavesOrg(body, c.(bypass := true), true);
  }
}
