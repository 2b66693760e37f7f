/** The claim protocol keeps its account of every occurrence, and what follows for every run. */
module AlertSafety {
  import opened Options
  import opened AlertClaims

  ghost predicate Core(s: State) { PendingAgree(s) && ClaimedAgree(s) && FiredAgree(s) && OwnersAgree(s) }

  lemma UnscheduleCore(s: State, id: AlertId)
    requires Core(s)
    ensures Core(Unschedule(s, id))
  {
    if id in s.alerts && s.alerts[id].next.Some? {
      var o := s.alerts[id].next.value.occ;
      var t := Unschedule(s, id);
      assert s.fates[o] == Pending(id);
      assert PendingAgree(t);
      assert ClaimedAgree(t);
      assert FiredAgree(t) by {
        forall p | p in t.fates && t.fates[p].Fired? ensures exists i :: 0 <= i < |t.fired| && t.fired[i].claim.occ == p {
          assert s.fates[p].Fired?;
        }
      }
      assert OwnersAgree(t);
    }
  }

  // Give an unscheduled row a new occurrence.
  function Arm(s: State, id: AlertId, at: Time): State
    requires id in s.alerts
  {
    s.(alerts := s.alerts[id := s.alerts[id].(next := Some(Due(at, s.nextOcc)))],
       fates := s.fates[s.nextOcc := Pending(id)], owners := s.owners[s.nextOcc := id], nextOcc := s.nextOcc + 1)
  }

  lemma ArmPending(s: State, id: AlertId, at: Time)
    requires PendingAgree(s) && s.nextOcc !in s.fates && id in s.alerts && s.alerts[id].next.None?
    ensures PendingAgree(Arm(s, id, at))
  {}

  lemma ArmClaimed(s: State, id: AlertId, at: Time)
    requires ClaimedAgree(s) && s.nextOcc !in s.fates && id in s.alerts
    ensures ClaimedAgree(Arm(s, id, at))
  {}

  lemma ArmFired(s: State, id: AlertId, at: Time)
    requires FiredAgree(s) && s.nextOcc !in s.fates && id in s.alerts
    ensures FiredAgree(Arm(s, id, at))
  {
    var t := Arm(s, id, at);
    forall p | p in t.fates && t.fates[p].Fired? ensures exists i :: 0 <= i < |t.fired| && t.fired[i].claim.occ == p {
      assert s.fates[p].Fired?;
    }
  }

  lemma ArmOwners(s: State, id: AlertId, at: Time)
    requires OwnersAgree(s) && id in s.alerts
    ensures OwnersAgree(Arm(s, id, at))
  {}

  lemma ArmCore(s: State, id: AlertId, at: Time)
    requires Core(s) && id in s.alerts && s.alerts[id].next.None?
    ensures Core(Arm(s, id, at))
  {
    assert s.nextOcc !in s.fates;
    ArmPending(s, id, at);
    ArmClaimed(s, id, at);
    ArmFired(s, id, at);
    ArmOwners(s, id, at);
    hide PendingAgree, ClaimedAgree, FiredAgree, OwnersAgree, Arm;
  }

  lemma ScheduleIs(s: State, id: AlertId, at: Option<Time>)
    requires id in s.alerts
    ensures id in Unschedule(s, id).alerts && Unschedule(s, id).alerts[id].next.None?
    ensures Schedule(s, id, at) == if at.None? then Unschedule(s, id) else Arm(Unschedule(s, id), id, at.value)
  {}

  lemma ScheduleCore(s: State, id: AlertId, at: Option<Time>)
    requires Core(s)
    ensures Core(Schedule(s, id, at))
  {
    hide Core, Arm, Unschedule;
    if id in s.alerts {
      UnscheduleCore(s, id);
      ScheduleIs(s, id, at);
      if at.Some? { ArmCore(Unschedule(s, id), id, at.value); }
    }
  }

  lemma AbandonCore(s: State, w: Worker)
    requires Core(s) && w in s.jobs
    ensures Core(Abandon(s, w))
  {
    var t := Abandon(s, w);
    if s.jobs[w].Ticking? {
      var occs := OccsOf(s.jobs[w].queue);
      forall o | o in occs ensures o in s.fates && s.fates[o] == Claimed(w) {
        var c :| c in s.jobs[w].queue && c.occ == o;
        var i :| 0 <= i < |s.jobs[w].queue| && s.jobs[w].queue[i] == c;
      }
      assert PendingAgree(t);
      assert ClaimedAgree(t);
      assert FiredAgree(t) by {
        forall p | p in t.fates && t.fates[p].Fired? ensures exists i :: 0 <= i < |t.fired| && t.fired[i].claim.occ == p {
          assert s.fates[p].Fired?;
        }
      }
      assert OwnersAgree(t);
    }
  }

  // Only `enabled`, `recurring` and `cron` of rows differ.
  lemma SameSchedule(s: State, t: State)
    requires Core(s) && s.alerts.Keys == t.alerts.Keys
    requires forall id | id in s.alerts :: t.alerts[id].next == s.alerts[id].next
    requires t == s.(alerts := t.alerts)
    ensures Core(t)
  {
    assert FiredAgree(t);
  }

  lemma CreateCore(s: State, id: AlertId, alert: Alert)
    requires Core(s) && id !in s.alerts
    ensures Core(s.(alerts := s.alerts[id := alert.(next := None)]))
  {
    assert FiredAgree(s.(alerts := s.alerts[id := alert.(next := None)]));
  }

  lemma DeleteCore(s: State, id: AlertId)
    requires Core(s) && (id in s.alerts ==> s.alerts[id].next.None?)
    ensures Core(s.(alerts := s.alerts - {id}))
  {
    assert FiredAgree(s.(alerts := s.alerts - {id}));
  }

  /*************** claiming ***************/

  lemma ClaimsAre(s: State, order: seq<AlertId>, o: Occ)
    requires forall id | id in order :: id in s.alerts && s.alerts[id].next.Some?
    ensures o in OccsOf(Claims(s, order)) <==> exists id :: id in order && s.alerts[id].next.value.occ == o
  {
    var queue := Claims(s, order);
    if o in OccsOf(queue) {
      var c :| c in queue && c.occ == o;
      var i :| 0 <= i < |queue| && queue[i] == c;
      assert order[i] in order && s.alerts[order[i]].next.value.occ == o;
    }
    if id :| id in order && s.alerts[id].next.value.occ == o {
      var i :| 0 <= i < |order| && order[i] == id;
      assert queue[i].occ == o;
    }
  }

  lemma ClaimCore(crontab: Crontab, s: State, w: Worker, now: Time, order: seq<AlertId>)
    requires Core(s) && Enabled(s, ClaimDue(w, now, order))
    ensures Core(Next(crontab, s, ClaimDue(w, now, order)))
  {
    var t := Next(crontab, s, ClaimDue(w, now, order));
    var queue := Claims(s, order);
    var occs := OccsOf(queue);
    forall o ensures o in occs <==> exists id :: id in order && s.alerts[id].next.value.occ == o { ClaimsAre(s, order, o); }
    ClaimPending(s, t, order, occs, w);
    ClaimClaimed(s, t, order, w, now);
    ClaimFired(s, t, order, w);
    ClaimOwners(s, t, order, w, now);
  }

  lemma ClaimFired(s: State, t: State, order: seq<AlertId>, w: Worker)
    requires PendingAgree(s) && FiredAgree(s) && forall id | id in order :: id in s.alerts && s.alerts[id].next.Some?
    requires t.fired == s.fired && t.fates == Marked(s.fates, OccsOf(Claims(s, order)), Claimed(w))
    ensures FiredAgree(t)
  {
    forall o | o in OccsOf(Claims(s, order)) ensures o in s.fates && s.fates[o].Pending? { ClaimsAre(s, order, o); }
    forall p | p in t.fates && t.fates[p].Fired? ensures exists i :: 0 <= i < |t.fired| && t.fired[i].claim.occ == p {
      assert s.fates[p].Fired?;
    }
  }

  lemma ClaimOwners(s: State, t: State, order: seq<AlertId>, w: Worker, now: Time)
    requires PendingAgree(s) && OwnersAgree(s) && forall id | id in order :: id in s.alerts && s.alerts[id].next.Some?
    requires t.owners == s.owners && t.nextOcc == s.nextOcc && t.fired == s.fired
    requires t.jobs == s.jobs[w := Ticking(now, Claims(s, order), Fresh)]
    requires t.fates == Marked(s.fates, OccsOf(Claims(s, order)), Claimed(w))
    ensures OwnersAgree(t)
  {
    forall i | 0 <= i < |order| ensures s.fates[s.alerts[order[i]].next.value.occ] == Pending(order[i]) { assert order[i] in order; }
  }

  lemma ClaimPending(s: State, t: State, order: seq<AlertId>, occs: set<Occ>, w: Worker)
    requires PendingAgree(s) && forall id | id in order :: id in s.alerts && s.alerts[id].next.Some?
    requires forall o :: o in occs <==> exists id :: id in order && s.alerts[id].next.value.occ == o
    requires t.alerts == map id | id in s.alerts :: if id in order then s.alerts[id].(next := None) else s.alerts[id]
    requires t.fates == Marked(s.fates, occs, Claimed(w))
    ensures PendingAgree(t)
  {
    assert forall id | id in t.alerts && t.alerts[id].next.Some? :: s.alerts[id].next.value.occ !in occs;
  }

  lemma ClaimClaimed(s: State, t: State, order: seq<AlertId>, w: Worker, now: Time)
    requires PendingAgree(s) && ClaimedAgree(s) && w in s.jobs && s.jobs[w].Idle? && Distinct(order)
    requires forall id | id in order :: id in s.alerts && s.alerts[id].next.Some?
    requires t.jobs == s.jobs[w := Ticking(now, Claims(s, order), Fresh)]
    requires t.fates == Marked(s.fates, OccsOf(Claims(s, order)), Claimed(w))
    ensures ClaimedAgree(t)
  {
    var queue := Claims(s, order);
    var occs := OccsOf(queue);
    forall i | 0 <= i < |queue| ensures queue[i].occ in occs && queue[i].occ in s.fates && s.fates[queue[i].occ] == Pending(order[i]) {
      assert order[i] in order;
      assert queue[i] in queue;
    }
    forall o | o in occs ensures o in s.fates && s.fates[o].Pending? {
      var c :| c in queue && c.occ == o;
      var i :| 0 <= i < |queue| && queue[i] == c;
    }
    forall v, i | v in t.jobs && t.jobs[v].Ticking? && 0 <= i < |t.jobs[v].queue|
      ensures t.jobs[v].queue[i].occ in t.fates && t.fates[t.jobs[v].queue[i].occ] == Claimed(v)
    {
      if v != w { assert s.fates[s.jobs[v].queue[i].occ] == Claimed(v); }
    }
    forall o | o in t.fates && t.fates[o].Claimed?
      ensures t.fates[o].worker in t.jobs && t.jobs[t.fates[o].worker].Ticking? && o in OccsOf(t.jobs[t.fates[o].worker].queue)
    {
      if o !in occs { assert s.fates[o].Claimed?; }
    }
  }

  /*************** leaving the queue ***************/

  // The head of the queue gets its final fate.
  function Settle(s: State, w: Worker, f: Fate): State
    requires HasHead(s, w)
  {
    Pop(s, w).(fates := s.fates[Head(s, w).occ := f])
  }

  lemma SettleClaimed(s: State, w: Worker, f: Fate)
    requires ClaimedAgree(s) && HasHead(s, w) && (f.Fired? || f.Cancelled?)
    ensures ClaimedAgree(Settle(s, w, f))
  {
    var t := Settle(s, w, f);
    var q := s.jobs[w].queue;
    forall v, i | v in t.jobs && t.jobs[v].Ticking? && 0 <= i < |t.jobs[v].queue|
      ensures t.jobs[v].queue[i].occ in t.fates && t.fates[t.jobs[v].queue[i].occ] == Claimed(v)
    {
      if v == w {
        assert t.jobs[v].queue[i] == q[i + 1];
        assert q[0].occ != q[i + 1].occ;
      } else {
        assert s.fates[s.jobs[v].queue[i].occ] == Claimed(v);
        assert s.fates[q[0].occ] == Claimed(w);
      }
    }
    forall o | o in t.fates && t.fates[o].Claimed?
      ensures t.fates[o].worker in t.jobs && t.jobs[t.fates[o].worker].Ticking? && o in OccsOf(t.jobs[t.fates[o].worker].queue)
    {
      assert s.fates[o].Claimed? && o != q[0].occ;
      if s.fates[o].worker == w {
        var c :| c in q && c.occ == o;
        assert q == [q[0]] + q[1..];
        assert c in q[1..];
      }
    }
  }

  lemma SettlePending(s: State, w: Worker, f: Fate)
    requires PendingAgree(s) && ClaimedAgree(s) && HasHead(s, w) && (f.Fired? || f.Cancelled?)
    ensures PendingAgree(Settle(s, w, f))
  {
    assert s.fates[s.jobs[w].queue[0].occ] == Claimed(w);
  }

  lemma SettleOwners(s: State, w: Worker, f: Fate)
    requires OwnersAgree(s) && ClaimedAgree(s) && HasHead(s, w) && (f.Fired? || f.Cancelled?)
    ensures OwnersAgree(Settle(s, w, f))
  {
    var t := Settle(s, w, f);
    assert s.jobs[w].queue[0].occ in s.fates;
    forall v, i | v in t.jobs && t.jobs[v].Ticking? && 0 <= i < |t.jobs[v].queue|
      ensures t.jobs[v].queue[i].occ in t.owners && t.owners[t.jobs[v].queue[i].occ] == t.jobs[v].queue[i].id
    {
      if v == w { assert t.jobs[v].queue[i] == s.jobs[w].queue[i + 1]; }
    }
  }

  lemma CancelCore(s: State, w: Worker)
    requires Core(s) && HasHead(s, w)
    ensures Core(Settle(s, w, Cancelled))
  {
    SettleClaimed(s, w, Cancelled);
    SettlePending(s, w, Cancelled);
    SettleOwners(s, w, Cancelled);
    var t := Settle(s, w, Cancelled);
    hide PendingAgree, OwnersAgree;
    assert s.fates[s.jobs[w].queue[0].occ] == Claimed(w);
    forall p | p in t.fates && t.fates[p].Fired? ensures exists i :: 0 <= i < |t.fired| && t.fired[i].claim.occ == p {
      assert s.fates[p].Fired?;
    }
  }

  lemma FireCore(s: State, w: Worker)
    requires Core(s) && HasHead(s, w)
    ensures Core(Settle(s, w, Fired).(fired := s.fired + [Firing(Head(s, w), w, s.jobs[w].now, s.jobs[w].stage)]))
  {
    SettleClaimed(s, w, Fired);
    SettlePending(s, w, Fired);
    SettleOwners(s, w, Fired);
    var u := Settle(s, w, Fired);
    var t := u.(fired := s.fired + [Firing(Head(s, w), w, s.jobs[w].now, s.jobs[w].stage)]);
    FireFired(s, w, t);
    FireOwners(s, u, t, w);
    hide FiredAgree, OwnersAgree;
    assert PendingAgree(t) && ClaimedAgree(t);
  }

  lemma FireFired(s: State, w: Worker, t: State)
    requires FiredAgree(s) && ClaimedAgree(s) && HasHead(s, w)
    requires t.fates == s.fates[Head(s, w).occ := Fired]
    requires t.fired == s.fired + [Firing(Head(s, w), w, s.jobs[w].now, s.jobs[w].stage)]
    ensures FiredAgree(t)
  {
    var o := Head(s, w).occ;
    assert s.fates[o] == Claimed(w);
    forall p | p in t.fates && t.fates[p].Fired? ensures exists i :: 0 <= i < |t.fired| && t.fired[i].claim.occ == p {
      if p == o {
        assert t.fired[|s.fired|].claim.occ == o;
      } else {
        var i :| 0 <= i < |s.fired| && s.fired[i].claim.occ == p;
        assert t.fired[i] == s.fired[i];
      }
    }
  }

  lemma FireOwners(s: State, u: State, t: State, w: Worker)
    requires OwnersAgree(s) && OwnersAgree(u) && HasHead(s, w) && u == Settle(s, w, Fired)
    requires t == u.(fired := s.fired + [Firing(Head(s, w), w, s.jobs[w].now, s.jobs[w].stage)])
    ensures OwnersAgree(t)
  {
    assert s.owners[s.jobs[w].queue[0].occ] == s.jobs[w].queue[0].id;
  }

  /*************** every step, every run ***************/

  lemma NextCore(crontab: Crontab, s: State, l: Label)
    requires Core(s) && Enabled(s, l)
    ensures Core(Next(crontab, s, l))
  {
    hide Core, Schedule, Unschedule, Abandon, Arm;
    match l
    case Create(id, alert, at) =>
      CreateCore(s, id, alert);
      ScheduleCore(s.(alerts := s.alerts[id := alert.(next := None)]), id, at);
    case Edit(id, enabled, recurring, cron, at) =>
      if id in s.alerts { EditCore(crontab, s, id, enabled, recurring, cron, at); }
    case Delete(id) =>
      UnscheduleCore(s, id);
      UnscheduledNone(s, id);
      DeleteCore(Unschedule(s, id), id);
    case ClaimDue(w, now, order) => ClaimCore(crontab, s, w, now, order);
    case Reschedule(w) => RescheduleCore(crontab, s, w);
    case Fire(w, inserted) =>
      CancelCore(s, w);
      FireCore(s, w);
      AbandonCore(s, w);
    case Finish(w) => FinishCore(s, w);
    case Crash(w) => AbandonCore(s, w);
  }

  lemma UnscheduledNone(s: State, id: AlertId)
    ensures id in Unschedule(s, id).alerts ==> Unschedule(s, id).alerts[id].next.None?
  {}

  lemma EditCore(crontab: Crontab, s: State, id: AlertId, enabled: Option<bool>, recurring: Option<bool>, cron: Option<string>, at: Option<Time>)
    requires Core(s) && id in s.alerts
    ensures Core(Next(crontab, s, Edit(id, enabled, recurring, cron, at)))
  {
    hide Core, Schedule;
    var a := s.alerts[id];
    var a' := Alert(if enabled.Some? then enabled.value else a.enabled, if recurring.Some? then recurring.value else a.recurring,
                    if cron.Some? then cron.value else a.cron, a.next);
    var t := s.(alerts := s.alerts[id := a']);
    SameSchedule(s, t);
    if at.Some? { ScheduleCore(t, id, at); }
    assert Next(crontab, s, Edit(id, enabled, recurring, cron, at)) == if at.Some? then Schedule(t, id, at) else t;
  }

  // A new stage at the head changes no queue.
  lemma StageCore(s: State, w: Worker, stage: Stage)
    requires Core(s) && HasHead(s, w)
    ensures Core(s.(jobs := s.jobs[w := s.jobs[w].(stage := stage)]))
  {
    var t := s.(jobs := s.jobs[w := s.jobs[w].(stage := stage)]);
    assert t.jobs[w].queue == s.jobs[w].queue;
    assert PendingAgree(t) && FiredAgree(t);
  }

  lemma ScheduleKeepsJobs(s: State, id: AlertId, at: Option<Time>)
    ensures Schedule(s, id, at).jobs == s.jobs && Schedule(s, id, at).fired == s.fired
  {}

  lemma RescheduleCore(crontab: Crontab, s: State, w: Worker)
    requires Core(s) && Enabled(s, Reschedule(w))
    ensures Core(Next(crontab, s, Reschedule(w)))
  {
    hide Core, Schedule, Abandon;
    match crontab(Head(s, w).cron, s.jobs[w].now)
    case BadCron => AbandonCore(s, w);
    case At(next) =>
      ScheduleCore(s, Head(s, w).id, next);
      ScheduleKeepsJobs(s, Head(s, w).id, next);
      StageCore(Schedule(s, Head(s, w).id, next), w, Written(next));
  }

  lemma FinishCore(s: State, w: Worker)
    requires Core(s) && Enabled(s, Finish(w))
    ensures Core(s.(jobs := s.jobs[w := Idle]))
  {
    var t := s.(jobs := s.jobs[w := Idle]);
    forall o | o in t.fates && t.fates[o].Claimed? ensures t.fates[o].worker != w {
      assert o in OccsOf(s.jobs[s.fates[o].worker].queue);
    }
    assert FiredAgree(t);
  }

  lemma NextStages(crontab: Crontab, s: State, l: Label)
    requires StagesAgree(crontab, s) && Enabled(s, l)
    ensures StagesAgree(crontab, Next(crontab, s, l))
  {
    hide Marked, OccsOf, Claims;
    match l
    case Fire(w, inserted) =>
      assert WrittenFirst(crontab, Head(s, w), s.jobs[w].now, s.jobs[w].stage);
    case _ =>
  }

  /** Every step of every worker, and every edit, keeps the account. */
  lemma StepKeepsInv(crontab: Crontab, s: State, l: Label)
    requires Inv(crontab, s) && Enabled(s, l)
    ensures Inv(crontab, Next(crontab, s, l))
  {
    hide PendingAgree, ClaimedAgree, FiredAgree, OwnersAgree, StagesAgree, Next, Enabled;
    NextCore(crontab, s, l);
    NextStages(crontab, s, l);
  }

  predicate CanRun(crontab: Crontab, s: State, ls: seq<Label>)
    decreases |ls|
  {
    ls == [] || (Enabled(s, ls[0]) && CanRun(crontab, Next(crontab, s, ls[0]), ls[1..]))
  }

  function End(crontab: Crontab, s: State, ls: seq<Label>): State
    requires CanRun(crontab, s, ls)
    decreases |ls|
  {
    if ls == [] then s else End(crontab, Next(crontab, s, ls[0]), ls[1..])
  }

  lemma {:induction false} RunKeepsInv(crontab: Crontab, s: State, ls: seq<Label>)
    requires Inv(crontab, s) && CanRun(crontab, s, ls)
    ensures Inv(crontab, End(crontab, s, ls))
    decreases |ls|
  {
    hide Inv, Next, Enabled;
    if ls != [] {
      StepKeepsInv(crontab, s, ls[0]);
      RunKeepsInv(crontab, Next(crontab, s, ls[0]), ls[1..]);
    }
  }

  /** At most once: over any run, no two notifications are for the same occurrence, and each occurrence
      that was fired is fired by the worker's own claim of it.  A recurring alert is fired only after
      its worker has written a next time that is not before the tick's own time. */
  lemma AtMostOnce(crontab: Crontab, s: State, ls: seq<Label>)
    requires NotBefore(crontab) && Inv(crontab, s) && CanRun(crontab, s, ls)
    ensures var t := End(crontab, s, ls);
            && (forall i, j | 0 <= i < j < |t.fired| :: t.fired[i].claim.occ != t.fired[j].claim.occ)
            && (forall i | 0 <= i < |t.fired| && Repeats(t.fired[i].claim) :: t.fired[i].stage.Written? &&
                  (t.fired[i].stage.next.Some? ==> t.fired[i].now <= t.fired[i].stage.next.value))
  {
    RunKeepsInv(crontab, s, ls);
    hide CanRun, End, PendingAgree, ClaimedAgree, OwnersAgree;
    var t := End(crontab, s, ls);
    forall i | 0 <= i < |t.fired| && Repeats(t.fired[i].claim)
      ensures t.fired[i].stage.Written? && (t.fired[i].stage.next.Some? ==> t.fired[i].now <= t.fired[i].stage.next.value)
    {
      assert WrittenFirst(crontab, t.fired[i].claim, t.fired[i].now, t.fired[i].stage);
    }
  }
}
