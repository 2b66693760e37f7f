/** What a crash in the middle of a tick costs.  The whole batch is claimed before the first row is
    rescheduled, so a recurring alert later in the batch is left with a NULL next time and no worker. */
module AlertParking {
  import opened Options
  import opened AlertClaims
  import opened AlertSafety

  // A fresh installation: no alert, every worker idle.
  lemma FreshInstallation(crontab: Crontab, jobs: map<Worker, Job>)
    requires forall w | w in jobs :: jobs[w].Idle?
    ensures Inv(crontab, State(map[], jobs, map[], map[], [], 0))
  {
    var s := State(map[], jobs, map[], map[], [], 0);
    assert s.owners.Keys == {} && s.fates.Keys == {};
  }

  ghost predicate InQueue(s: State, a: AlertId) {
    exists w, i :: w in s.jobs && s.jobs[w].Ticking? && 0 <= i < |s.jobs[w].queue| && s.jobs[w].queue[i].id == a
  }

  // Enabled or not, no time is set and no worker will set one.
  ghost predicate Parked(s: State, a: AlertId) {
    (a in s.alerts ==> s.alerts[a].next.None?) && !InQueue(s, a)
  }

  // A person writes a time for the alert.
  predicate Writes(l: Label, a: AlertId) { (l.Create? || l.Edit?) && l.id == a && l.at.Some? }

  // Some other worker holds a claim on the alert.
  ghost predicate HeldElsewhere(s: State, w: Worker, a: AlertId) {
    exists v, j :: v != w && v in s.jobs && s.jobs[v].Ticking? && 0 <= j < |s.jobs[v].queue| && s.jobs[v].queue[j].id == a
  }

  /** When a worker stops mid-tick, for a crash, a crontab that does not parse or a failed insert, an alert it
      still held is lost, and is parked exactly when no time is written for it and no other worker holds it. */
  lemma AbandonParksIff(s: State, w: Worker, i: nat)
    requires Core(s) && w in s.jobs && s.jobs[w].Ticking? && i < |s.jobs[w].queue|
    ensures var a := s.jobs[w].queue[i].id;
            Parked(Abandon(s, w), a) <==> (a in s.alerts ==> s.alerts[a].next.None?) && !HeldElsewhere(s, w, a)
    ensures Abandon(s, w).fates[s.jobs[w].queue[i].occ] == Lost
  {
    hide PendingAgree, FiredAgree, OwnersAgree;
    assert s.jobs[w].queue[i] in s.jobs[w].queue;
    assert s.jobs[w].queue[i].occ in OccsOf(s.jobs[w].queue);
    var (a, t) := (s.jobs[w].queue[i].id, Abandon(s, w));
    if HeldElsewhere(s, w, a) {
      var v, j :| v != w && v in s.jobs && s.jobs[v].Ticking? && 0 <= j < |s.jobs[v].queue| && s.jobs[v].queue[j].id == a;
      assert v in t.jobs && t.jobs[v].queue[j].id == a;
    }
    if InQueue(t, a) {
      var v, j :| v in t.jobs && t.jobs[v].Ticking? && 0 <= j < |t.jobs[v].queue| && t.jobs[v].queue[j].id == a;
      assert v != w && s.jobs[v].queue[j].id == a;
    }
  }

  lemma ScheduleOther(s: State, id: AlertId, at: Option<Time>, a: AlertId)
    requires id != a || at.None?
    requires a in s.alerts ==> s.alerts[a].next.None?
    ensures a in Schedule(s, id, at).alerts ==> Schedule(s, id, at).alerts[a].next.None?
    ensures Schedule(s, id, at).jobs == s.jobs && Schedule(s, id, at).fired == s.fired
  {}

  lemma StepParked(crontab: Crontab, s: State, l: Label, a: AlertId)
    requires Parked(s, a) && Enabled(s, l) && !Writes(l, a)
    ensures Parked(Next(crontab, s, l), a)
    ensures forall f | f in Next(crontab, s, l).fired && f.claim.id == a :: f in s.fired
  {
    hide Marked, OccsOf, Schedule, Unschedule;
    match l
    case Create(id, alert, at) =>
      ScheduleOther(s.(alerts := s.alerts[id := alert.(next := None)]), id, at, a);
    case Edit(id, enabled, recurring, cron, at) =>
      if id in s.alerts {
        var x := s.alerts[id];
        var x' := Alert(if enabled.Some? then enabled.value else x.enabled, if recurring.Some? then recurring.value else x.recurring,
                        if cron.Some? then cron.value else x.cron, x.next);
        ScheduleOther(s.(alerts := s.alerts[id := x']), id, at, a);
        assert Next(crontab, s, l) == if at.Some? then Schedule(s.(alerts := s.alerts[id := x']), id, at) else s.(alerts := s.alerts[id := x']);
      }
    case Delete(id) => UnscheduleOther(s, id, a);
    case ClaimDue(w, now, order) => ClaimOther(crontab, s, w, now, order, a);
    case Reschedule(w) => RescheduleOther(crontab, s, w, a);
    case Fire(w, inserted) => FireOther(crontab, s, w, inserted, a);
    case _ =>
  }

  lemma UnscheduleOther(s: State, id: AlertId, a: AlertId)
    requires Parked(s, a)
    ensures Parked(Unschedule(s, id), a) && Unschedule(s, id).fired == s.fired
  {}

  lemma ClaimOther(crontab: Crontab, s: State, w: Worker, now: Time, order: seq<AlertId>, a: AlertId)
    requires Parked(s, a) && Enabled(s, ClaimDue(w, now, order))
    ensures Parked(Next(crontab, s, ClaimDue(w, now, order)), a)
  {
    hide Marked, OccsOf;
    var q := Claims(s, order);
    assert a in order ==> IsDue(s, a, now);
    forall i | 0 <= i < |q| ensures q[i].id != a { assert order[i] in order; }
  }

  lemma RescheduleOther(crontab: Crontab, s: State, w: Worker, a: AlertId)
    requires Parked(s, a) && Enabled(s, Reschedule(w))
    ensures Parked(Next(crontab, s, Reschedule(w)), a) && Next(crontab, s, Reschedule(w)).fired == s.fired
  {
    hide Marked, OccsOf, Schedule;
    assert s.jobs[w].queue[0].id != a;
    match crontab(Head(s, w).cron, s.jobs[w].now)
    case BadCron =>
    case At(next) =>
      ScheduleOther(s, Head(s, w).id, next, a);
      var t := Next(crontab, s, Reschedule(w));
      assert t.jobs[w].queue == s.jobs[w].queue;
  }

  lemma FireOther(crontab: Crontab, s: State, w: Worker, inserted: bool, a: AlertId)
    requires Parked(s, a) && Enabled(s, Fire(w, inserted))
    ensures Parked(Next(crontab, s, Fire(w, inserted)), a)
    ensures forall f | f in Next(crontab, s, Fire(w, inserted)).fired && f.claim.id == a :: f in s.fired
  {
    hide Marked, OccsOf;
    assert s.jobs[w].queue[0].id != a;
    var t := Next(crontab, s, Fire(w, inserted));
    forall v, i | v in t.jobs && t.jobs[v].Ticking? && 0 <= i < |t.jobs[v].queue| ensures t.jobs[v].queue[i].id != a {
      if v == w { assert t.jobs[v].queue[i] == s.jobs[w].queue[i + 1]; }
    }
  }

  /** A parked alert never fires again, in any run, until a person writes a time for it. */
  lemma {:induction false} ParkedNeverFires(crontab: Crontab, s: State, ls: seq<Label>, a: AlertId)
    requires Parked(s, a) && CanRun(crontab, s, ls) && forall l | l in ls :: !Writes(l, a)
    ensures Parked(End(crontab, s, ls), a)
    ensures forall f | f in End(crontab, s, ls).fired && f.claim.id == a :: f in s.fired
    decreases |ls|
  {
    hide Parked, Next, Enabled, Writes;
    if ls != [] {
      StepParked(crontab, s, ls[0], a);
      ParkedNeverFires(crontab, Next(crontab, s, ls[0]), ls[1..], a);
    }
  }

  /*************** a batch of two ***************/

  lemma RunFirst(crontab: Crontab, s: State, l: Label, rest: seq<Label>)
    requires Enabled(s, l) && CanRun(crontab, Next(crontab, s, l), rest)
    ensures CanRun(crontab, s, [l] + rest) && End(crontab, s, [l] + rest) == End(crontab, Next(crontab, s, l), rest)
  {
    hide Enabled, Next;
    assert ([l] + rest)[1..] == rest;
  }

  function CreateOne(id: AlertId, cron: string): Label { Create(id, Alert(true, true, cron, None), Some(0)) }

  function DueNow(cron: string, occ: Occ): Alert { Alert(true, true, cron, Some(Due(0, occ))) }

  lemma CreateFirst(crontab: Crontab, s: State, bad: string)
    requires s == State(map[], map[0 := Idle], map[], map[], [], 0)
    ensures Enabled(s, CreateOne(0, bad))
    ensures Next(crontab, s, CreateOne(0, bad)) == State(map[0 := DueNow(bad, 0)], map[0 := Idle], map[0 := Pending(0)], map[0 := 0], [], 1)
  {
  }

  lemma CreateSecond(crontab: Crontab, s: State, bad: string, good: string)
    requires s == State(map[0 := DueNow(bad, 0)], map[0 := Idle], map[0 := Pending(0)], map[0 := 0], [], 1)
    ensures Enabled(s, CreateOne(1, good))
    ensures var t := Next(crontab, s, CreateOne(1, good));
            t.alerts == map[0 := DueNow(bad, 0), 1 := DueNow(good, 1)] && t.jobs == map[0 := Idle] && t.fired == []
  {
  }

  lemma ClaimBoth(crontab: Crontab, s: State, bad: string, good: string)
    requires s.alerts == map[0 := DueNow(bad, 0), 1 := DueNow(good, 1)] && s.jobs == map[0 := Idle] && s.fired == []
    ensures Enabled(s, ClaimDue(0, 0, [0, 1]))
    ensures var t := Next(crontab, s, ClaimDue(0, 0, [0, 1]));
            && t.alerts == map[0 := Alert(true, true, bad, None), 1 := Alert(true, true, good, None)] && t.fired == []
            && t.jobs == map[0 := Ticking(0, [Claim(0, true, bad, 0), Claim(1, true, good, 1)], Fresh)]
  {
    BothClaims(s, bad, good);
    hide Marked, Claims, OccsOf;
    var t := Next(crontab, s, ClaimDue(0, 0, [0, 1]));
    assert t.alerts.Keys == {0, 1};
    assert t.alerts[0] == Alert(true, true, bad, None) && t.alerts[1] == Alert(true, true, good, None);
  }

  lemma BothClaims(s: State, bad: string, good: string)
    requires s.alerts == map[0 := DueNow(bad, 0), 1 := DueNow(good, 1)]
    ensures forall id | id in [0, 1] :: IsDue(s, id, 0)
    ensures Claims(s, [0, 1]) == [Claim(0, true, bad, 0), Claim(1, true, good, 1)]
  {
    assert forall id | id in [0, 1] :: id == 0 || id == 1;
    var cs := Claims(s, [0, 1]);
    assert cs[0] == Claim(0, true, bad, 0) && cs[1] == Claim(1, true, good, 1);
  }

  lemma AbandonBoth(crontab: Crontab, s: State, bad: string, good: string)
    requires bad != "" && crontab(bad, 0).BadCron? && s.fired == []
    requires s.alerts == map[0 := Alert(true, true, bad, None), 1 := Alert(true, true, good, None)]
    requires s.jobs == map[0 := Ticking(0, [Claim(0, true, bad, 0), Claim(1, true, good, 1)], Fresh)]
    ensures Enabled(s, Reschedule(0))
    ensures var t := Next(crontab, s, Reschedule(0)); Parked(t, 1) && t.alerts == s.alerts && t.fired == []
  {
    hide Marked, OccsOf;
  }

  /** From a fresh installation: two recurring alerts fall due together and the first has a crontab that does
      not parse.  The second, whose crontab is fine, ends up enabled, without a time, in nobody's queue, and
      never fires again until a person writes a time for it. */
  lemma BadNeighbourParks(crontab: Crontab, bad: string, good: string) returns (run: seq<Label>, end: State)
    requires bad != "" && good != "" && crontab(bad, 0).BadCron? && crontab(good, 0).At? && crontab(good, 0).next.Some?
    ensures var s := State(map[], map[0 := Idle], map[], map[], [], 0); CanRun(crontab, s, run) && end == End(crontab, s, run)
    ensures 1 in end.alerts && end.alerts[1].enabled && end.alerts[1].recurring && end.alerts[1].cron == good
    ensures Parked(end, 1) && end.fired == []
    ensures forall ls | CanRun(crontab, end, ls) && (forall l | l in ls :: !Writes(l, 1)) ::
              forall f | f in End(crontab, end, ls).fired :: f.claim.id != 1
  {
    var s0 := State(map[], map[0 := Idle], map[], map[], [], 0);
    var (first, second, claim) := (CreateOne(0, bad), CreateOne(1, good), ClaimDue(0, 0, [0, 1]));
    CreateFirst(crontab, s0, bad);
    var s1 := Next(crontab, s0, first);
    CreateSecond(crontab, s1, bad, good);
    var s2 := Next(crontab, s1, second);
    ClaimBoth(crontab, s2, bad, good);
    var s3 := Next(crontab, s2, claim);
    AbandonBoth(crontab, s3, bad, good);
    end := Next(crontab, s3, Reschedule(0));
    assert CanRun(crontab, end, []);
    RunFirst(crontab, s3, Reschedule(0), []);
    RunFirst(crontab, s2, claim, [Reschedule(0)] + []);
    RunFirst(crontab, s1, second, [claim] + ([Reschedule(0)] + []));
    run := [first] + ([second] + ([claim] + ([Reschedule(0)] + [])));
    RunFirst(crontab, s0, first, [second] + ([claim] + ([Reschedule(0)] + [])));
    hide *;
    forall ls | CanRun(crontab, end, ls) && (forall l | l in ls :: !Writes(l, 1))
      ensures forall f | f in End(crontab, end, ls).fired :: f.claim.id != 1
    {
      ParkedNeverFires(crontab, end, ls, 1);
      assert forall f | f in End(crontab, end, ls).fired && f.claim.id == 1 :: f in end.fired;
    }
  }
}
