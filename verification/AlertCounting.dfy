/** How often an alert can fire: no more often than a time was written for it. */
module AlertCounting {
  import opened Options
  import opened AlertClaims
  import opened AlertSafety

  function OccsOwned(s: State, a: AlertId): set<Occ> { set o | o in s.owners && s.owners[o] == a }

  function Firings(fired: seq<Firing>, a: AlertId): nat {
    if fired == [] then 0 else Firings(fired[..|fired|-1], a) + if fired[|fired|-1].claim.id == a then 1 else 0
  }

  function OccsFired(fired: seq<Firing>, a: AlertId): set<Occ> {
    set f | f in fired && f.claim.id == a :: f.claim.occ
  }

  lemma {:induction false} FiringsAreOccs(fired: seq<Firing>, a: AlertId)
    requires forall i, j | 0 <= i < j < |fired| :: fired[i].claim.occ != fired[j].claim.occ
    ensures |OccsFired(fired, a)| == Firings(fired, a)
  {
    if fired != [] {
      var n := |fired| - 1;
      FiringsAreOccs(fired[..n], a);
      OccsSnoc(fired[..n], fired[n], a);
      LastIsNew(fired, a);
      hide OccsFired;
      assert fired == fired[..n] + [fired[n]];
    }
  }

  lemma OccsSnoc(fired: seq<Firing>, f: Firing, a: AlertId)
    ensures OccsFired(fired + [f], a) == OccsFired(fired, a) + if f.claim.id == a then {f.claim.occ} else {}
  {
    assert forall g :: g in fired + [f] <==> g in fired || g == f;
  }

  lemma LastIsNew(fired: seq<Firing>, a: AlertId)
    requires fired != [] && forall i, j | 0 <= i < j < |fired| :: fired[i].claim.occ != fired[j].claim.occ
    ensures fired[|fired| - 1].claim.occ !in OccsFired(fired[..|fired| - 1], a)
  {
    forall f | f in fired[..|fired| - 1] ensures f.claim.occ != fired[|fired| - 1].claim.occ {
      var i :| 0 <= i < |fired| - 1 && fired[i] == f;
    }
  }

  lemma FiredOccsOwned(crontab: Crontab, s: State, a: AlertId)
    requires Inv(crontab, s)
    ensures Firings(s.fired, a) <= |OccsOwned(s, a)|
  {
    FiringsAreOccs(s.fired, a);
    forall o | o in OccsFired(s.fired, a) ensures o in OccsOwned(s, a) {
      var f :| f in s.fired && f.claim.id == a && f.claim.occ == o;
      var i :| 0 <= i < |s.fired| && s.fired[i] == f;
    }
    Subset(OccsFired(s.fired, a), OccsOwned(s, a));
  }

  lemma Subset<T>(a: set<T>, b: set<T>)
    requires a <= b
    ensures |a| <= |b|
  {
    assert b == a + (b - a);
  }

  // A person writes a time for `a`.
  predicate UserWrites(s: State, l: Label, a: AlertId) {
    || (l.Create? && l.id == a && l.at.Some?)
    || (l.Edit? && l.id == a && a in s.alerts && l.at.Some?)
  }

  // A worker writes the next time of `a`.
  predicate WorkerWrites(crontab: Crontab, s: State, l: Label, a: AlertId)
    requires Enabled(s, l)
  {
    l.Reschedule? && Head(s, l.worker).id == a && a in s.alerts &&
    crontab(Head(s, l.worker).cron, s.jobs[l.worker].now).At? &&
    crontab(Head(s, l.worker).cron, s.jobs[l.worker].now).next.Some?
  }

  lemma ScheduleOwned(s: State, id: AlertId, at: Option<Time>, a: AlertId)
    requires OwnersAgree(s)
    ensures |OccsOwned(Schedule(s, id, at), a)| == |OccsOwned(s, a)| + if id == a && a in s.alerts && at.Some? then 1 else 0
  {
    ScheduleOwners(s, id, at);
    NextIsNew(s);
    hide Schedule, OwnersAgree;
    if id in s.alerts && at.Some? { OneMoreOwned(s, Schedule(s, id, at), s.nextOcc, id, a); } else { SameOwned(s, Schedule(s, id, at), a); }
  }

  lemma ScheduleOwners(s: State, id: AlertId, at: Option<Time>)
    ensures Schedule(s, id, at).owners == if id in s.alerts && at.Some? then s.owners[s.nextOcc := id] else s.owners
  {}

  lemma NextIsNew(s: State)
    requires OwnersAgree(s)
    ensures s.nextOcc !in s.owners
  {}

  lemma OneMoreOwned(s: State, t: State, o: Occ, id: AlertId, a: AlertId)
    requires o !in s.owners && t.owners == s.owners[o := id]
    ensures |OccsOwned(t, a)| == |OccsOwned(s, a)| + if id == a then 1 else 0
  {
    assert OccsOwned(t, a) == OccsOwned(s, a) + if id == a then {o} else {};
  }

  lemma SameOwned(s: State, t: State, a: AlertId)
    requires t.owners == s.owners
    ensures OccsOwned(t, a) == OccsOwned(s, a)
  {}

  lemma StepOwned(crontab: Crontab, s: State, l: Label, a: AlertId)
    requires Inv(crontab, s) && Enabled(s, l)
    ensures |OccsOwned(Next(crontab, s, l), a)| ==
              |OccsOwned(s, a)| + if UserWrites(s, l, a) || WorkerWrites(crontab, s, l, a) then 1 else 0
  {
    hide PendingAgree, ClaimedAgree, FiredAgree, StagesAgree, Schedule, Unschedule, Marked, OccsOf, Claims;
    match l
    case Create(id, alert, at) =>
      var t := s.(alerts := s.alerts[id := alert.(next := None)]);
      CreateOwners(s, t);
      ScheduleOwned(t, id, at, a);
    case Edit(id, enabled, recurring, cron, at) =>
      if id in s.alerts {
        var x := s.alerts[id];
        var x' := Alert(if enabled.Some? then enabled.value else x.enabled, if recurring.Some? then recurring.value else x.recurring,
                        if cron.Some? then cron.value else x.cron, x.next);
        var t := s.(alerts := s.alerts[id := x']);
        CreateOwners(s, t);
        ScheduleOwned(t, id, at, a);
        assert Next(crontab, s, l) == if at.Some? then Schedule(t, id, at) else t;
      }
    case Delete(id) => UnscheduleOwners(s, id);
    case Reschedule(w) =>
      match crontab(Head(s, w).cron, s.jobs[w].now) {
        case BadCron =>
        case At(next) => ScheduleOwned(s, Head(s, w).id, next, a);
      }
    case _ =>
  }

  lemma CreateOwners(s: State, t: State)
    requires OwnersAgree(s) && t == s.(alerts := t.alerts)
    ensures OwnersAgree(t)
  {}

  lemma UnscheduleOwners(s: State, id: AlertId)
    ensures Unschedule(s, id).owners == s.owners
  {}

  function CountUser(crontab: Crontab, s: State, ls: seq<Label>, a: AlertId): nat
    requires CanRun(crontab, s, ls)
    decreases |ls|
  {
    if ls == [] then 0 else
    (if UserWrites(s, ls[0], a) then 1 else 0) + CountUser(crontab, Next(crontab, s, ls[0]), ls[1..], a)
  }

  function CountWorker(crontab: Crontab, s: State, ls: seq<Label>, a: AlertId): nat
    requires CanRun(crontab, s, ls)
    decreases |ls|
  {
    if ls == [] then 0 else
    (if WorkerWrites(crontab, s, ls[0], a) then 1 else 0) + CountWorker(crontab, Next(crontab, s, ls[0]), ls[1..], a)
  }

  lemma {:induction false} RunOwned(crontab: Crontab, s: State, ls: seq<Label>, a: AlertId)
    requires Inv(crontab, s) && CanRun(crontab, s, ls)
    ensures |OccsOwned(End(crontab, s, ls), a)| ==
              |OccsOwned(s, a)| + CountUser(crontab, s, ls, a) + CountWorker(crontab, s, ls, a)
    decreases |ls|
  {
    hide Inv, Next, Enabled, OccsOwned, UserWrites, WorkerWrites;
    if ls != [] {
      var l, t := ls[0], Next(crontab, s, ls[0]);
      StepKeepsInv(crontab, s, l);
      StepOwned(crontab, s, l, a);
      NotBoth(crontab, s, l, a);
      RunOwned(crontab, t, ls[1..], a);
    }
  }

  lemma NotBoth(crontab: Crontab, s: State, l: Label, a: AlertId)
    requires Enabled(s, l)
    ensures !(UserWrites(s, l, a) && WorkerWrites(crontab, s, l, a))
  {}

  /** Over any run an alert fires at most as often as times were written for it: the ones already on
      record, those people wrote, and those workers wrote when they rescheduled it. */
  lemma FiringsBounded(crontab: Crontab, s: State, ls: seq<Label>, a: AlertId)
    requires Inv(crontab, s) && CanRun(crontab, s, ls)
    ensures Firings(End(crontab, s, ls).fired, a) <=
              |OccsOwned(s, a)| + CountUser(crontab, s, ls, a) + CountWorker(crontab, s, ls, a)
  {
    hide Inv, OccsOwned, Next, Enabled;
    RunKeepsInv(crontab, s, ls);
    RunOwned(crontab, s, ls, a);
    FiredOccsOwned(crontab, End(crontab, s, ls), a);
  }

  /*************** one-shot alerts ***************/

  // `a` is a one-shot alert in the table and in every queue.
  ghost predicate OneShot(s: State, a: AlertId) {
    && (a in s.alerts ==> !s.alerts[a].recurring)
    && (forall w, i | w in s.jobs && s.jobs[w].Ticking? && 0 <= i < |s.jobs[w].queue| && s.jobs[w].queue[i].id == a ::
          !s.jobs[w].queue[i].recurring)
  }

  // Nobody makes it recurring.
  ghost predicate StaysOneShot(l: Label, a: AlertId) {
    && (l.Create? && l.id == a ==> !l.alert.recurring)
    && (l.Edit? && l.id == a ==> l.recurring != Some(true))
  }

  lemma ScheduleOneShot(s: State, id: AlertId, at: Option<Time>, a: AlertId)
    requires OneShot(s, a)
    ensures OneShot(Schedule(s, id, at), a)
  {}

  lemma StepOneShot(crontab: Crontab, s: State, l: Label, a: AlertId)
    requires OneShot(s, a) && Enabled(s, l) && StaysOneShot(l, a)
    ensures OneShot(Next(crontab, s, l), a) && !WorkerWrites(crontab, s, l, a)
  {
    hide Marked, OccsOf, Schedule, Unschedule;
    match l
    case Create(id, alert, at) => ScheduleOneShot(s.(alerts := s.alerts[id := alert.(next := None)]), id, at, a);
    case Edit(id, enabled, recurring, cron, at) =>
      if id in s.alerts {
        var x := s.alerts[id];
        var x' := Alert(if enabled.Some? then enabled.value else x.enabled, if recurring.Some? then recurring.value else x.recurring,
                        if cron.Some? then cron.value else x.cron, x.next);
        var t := s.(alerts := s.alerts[id := x']);
        assert OneShot(t, a);
        ScheduleOneShot(t, id, at, a);
        assert Next(crontab, s, l) == if at.Some? then Schedule(t, id, at) else t;
      }
    case Delete(id) => UnscheduleOneShot(s, id, a);
    case ClaimDue(w, now, order) => ClaimOneShot(crontab, s, w, now, order, a);
    case Reschedule(w) => RescheduleOneShot(crontab, s, w, a);
    case Fire(w, inserted) => PopOneShot(crontab, s, w, inserted, a);
    case _ =>
  }

  lemma UnscheduleOneShot(s: State, id: AlertId, a: AlertId)
    requires OneShot(s, a)
    ensures OneShot(Unschedule(s, id), a)
  {}

  lemma RescheduleOneShot(crontab: Crontab, s: State, w: Worker, a: AlertId)
    requires OneShot(s, a) && Enabled(s, Reschedule(w))
    ensures OneShot(Next(crontab, s, Reschedule(w)), a)
  {
    hide Marked, OccsOf, Schedule;
    match crontab(Head(s, w).cron, s.jobs[w].now)
    case BadCron =>
    case At(next) =>
      ScheduleOneShot(s, Head(s, w).id, next, a);
      ScheduleKeepsJobs(s, Head(s, w).id, next);
      var t := Next(crontab, s, Reschedule(w));
      assert t.jobs[w].queue == s.jobs[w].queue;
  }

  lemma PopOneShot(crontab: Crontab, s: State, w: Worker, inserted: bool, a: AlertId)
    requires OneShot(s, a) && Enabled(s, Fire(w, inserted))
    ensures OneShot(Next(crontab, s, Fire(w, inserted)), a)
  {
    hide Marked, OccsOf;
    var t := Next(crontab, s, Fire(w, inserted));
    forall v, i | v in t.jobs && t.jobs[v].Ticking? && 0 <= i < |t.jobs[v].queue| && t.jobs[v].queue[i].id == a
      ensures !t.jobs[v].queue[i].recurring
    {
      if v == w { assert t.jobs[v].queue[i] == s.jobs[w].queue[i + 1]; }
    }
  }

  lemma ClaimOneShot(crontab: Crontab, s: State, w: Worker, now: Time, order: seq<AlertId>, a: AlertId)
    requires OneShot(s, a) && Enabled(s, ClaimDue(w, now, order))
    ensures OneShot(Next(crontab, s, ClaimDue(w, now, order)), a)
  {
    var q := Claims(s, order);
    forall i | 0 <= i < |q| && q[i].id == a ensures !q[i].recurring { assert order[i] in order; }
  }

  ghost predicate AllStayOneShot(ls: seq<Label>, a: AlertId) { forall l | l in ls :: StaysOneShot(l, a) }

  lemma {:induction false} OneShotNeverRescheduled(crontab: Crontab, s: State, ls: seq<Label>, a: AlertId)
    requires OneShot(s, a) && CanRun(crontab, s, ls) && AllStayOneShot(ls, a)
    ensures CountWorker(crontab, s, ls, a) == 0
    decreases |ls|
  {
    hide OneShot, Next, Enabled, WorkerWrites, StaysOneShot;
    if ls != [] {
      StepOneShot(crontab, s, ls[0], a);
      OneShotNeverRescheduled(crontab, Next(crontab, s, ls[0]), ls[1..], a);
    }
  }

  /** A one-shot alert fires at most once for each time a person scheduled it. */
  lemma OneShotBound(crontab: Crontab, s: State, ls: seq<Label>, a: AlertId)
    requires Inv(crontab, s) && CanRun(crontab, s, ls)
    requires OneShot(s, a) && AllStayOneShot(ls, a)
    ensures Firings(End(crontab, s, ls).fired, a) <= |OccsOwned(s, a)| + CountUser(crontab, s, ls, a)
  {
    FiringsBounded(crontab, s, ls, a);
    OneShotNeverRescheduled(crontab, s, ls, a);
  }
}
