/** `_tick_alerts` as one worker executes it: claim, then for each row reschedule before firing.  The
    tick is a run of the protocol, and when nothing raises every claimed row is fired once, in order. */
module AlertTick {
  import opened Options
  import opened AlertClaims
  import opened AlertSafety

  lemma {:induction false} RunSnoc(crontab: Crontab, s: State, ls: seq<Label>, l: Label)
    requires CanRun(crontab, s, ls) && Enabled(End(crontab, s, ls), l)
    ensures CanRun(crontab, s, ls + [l])
    ensures End(crontab, s, ls + [l]) == Next(crontab, End(crontab, s, ls), l)
    decreases |ls|
  {
    hide Next, Enabled;
    if ls == [] {
      assert [] + [l] == [l] && [l][1..] == [];
    } else {
      RunSnoc(crontab, Next(crontab, s, ls[0]), ls[1..], l);
      assert (ls + [l])[1..] == ls[1..] + [l];
    }
  }

  lemma {:induction false} RunAppend(crontab: Crontab, s: State, a: seq<Label>, b: seq<Label>)
    requires CanRun(crontab, s, a) && CanRun(crontab, End(crontab, s, a), b)
    ensures CanRun(crontab, s, a + b) && End(crontab, s, a + b) == End(crontab, End(crontab, s, a), b)
    decreases |a|
  {
    hide Next, Enabled;
    if a == [] {
      assert a + b == b;
    } else {
      RunAppend(crontab, Next(crontab, s, a[0]), a[1..], b);
      assert (a + b)[1..] == a[1..] + b;
    }
  }

  // What one claimed row leaves behind when nothing raises.
  function FiringOf(crontab: Crontab, w: Worker, now: Time, c: Claim): Firing {
    Firing(c, w, now, if Repeats(c) && crontab(c.cron, now).At? then Written(crontab(c.cron, now).next) else Fresh)
  }

  function FiringsOf(crontab: Crontab, w: Worker, now: Time, rows: seq<Claim>): seq<Firing> {
    seq(|rows|, i requires 0 <= i < |rows| => FiringOf(crontab, w, now, rows[i]))
  }

  // The time a row's alert is left with.
  function NextTime(crontab: Crontab, now: Time, c: Claim): Option<Time> {
    if Repeats(c) && crontab(c.cron, now).At? then crontab(c.cron, now).next else None
  }

  predicate Unparsable(crontab: Crontab, now: Time, c: Claim) { Repeats(c) && crontab(c.cron, now).BadCron? }

  // Row i ends the batch: its crontab does not parse, or its notification insert fails.
  predicate Fails(crontab: Crontab, now: Time, rows: seq<Claim>, inserts: nat -> bool, i: nat)
    requires i < |rows|
  {
    !inserts(i) || Unparsable(crontab, now, rows[i])
  }

  // k is the first row that fails, or the length when none does.
  ghost predicate FirstFailure(crontab: Crontab, now: Time, rows: seq<Claim>, inserts: nat -> bool, k: nat) {
    && k <= |rows|
    && (forall i: nat | i < k :: !Fails(crontab, now, rows, inserts, i))
    && (k < |rows| ==> Fails(crontab, now, rows, inserts, k))
  }

  // What row j's alert holds after a batch that ended at row k: nothing past k was rescheduled.
  function LeftWith(crontab: Crontab, now: Time, rows: seq<Claim>, k: nat, j: nat): Option<Time>
    requires j < |rows|
  {
    if j <= k then NextTime(crontab, now, rows[j]) else None
  }

  function TimeOf(d: Option<Due>): Option<Time> { if d.None? then None else Some(d.value.at) }

  // `UPDATE alerts SET next_fire_at = .. WHERE id = ..` on the table alone.
  function TableWith(alerts: map<AlertId, Alert>, nextOcc: Occ, id: AlertId, at: Option<Time>): map<AlertId, Alert> {
    if id !in alerts then alerts
    else if at.None? then alerts[id := alerts[id].(next := None)]
    else alerts[id := alerts[id].(next := Some(Due(at.value, nextOcc)))]
  }

  // Nothing but next_fire_at is written.
  predicate OnlyTimes(before: map<AlertId, Alert>, after: map<AlertId, Alert>) {
    after.Keys == before.Keys && forall id | id in after :: after[id] == before[id].(next := after[id].next)
  }

  // The crontab of a recurring alert.
  predicate Recurs(a: Alert) { a.recurring && a.cron != "" }

  /* What a tick makes of the rows it claimed, column by column.  Each was enabled and due.  The first k fired, once
     each and in order.  They and the k-th are left with the next time of their own crontab, if they recur and it has
     one, and all later rows with none; and the k-th is the first whose crontab does not parse or whose insert
     fails. */
  ghost predicate Ticked(crontab: Crontab, w: Worker, now: Time, order: seq<AlertId>, inserts: nat -> bool, k: nat,
                         before: map<AlertId, Alert>, after: map<AlertId, Alert>, firings: seq<Firing>) {
    && OnlyTimes(before, after) && k <= |order| && |firings| == k
    && (forall j | 0 <= j < |order| :: order[j] in before && before[order[j]].enabled &&
                                       before[order[j]].next.Some? && before[order[j]].next.value.at <= now)
    && (forall id | id in before && id !in order :: after[id] == before[id])
    && (forall i | 0 <= i < k :: firings[i].claim.id == order[i] && firings[i].worker == w && firings[i].now == now)
    && (forall j | 0 <= j < |order| ::
          TimeOf(after[order[j]].next) == if j <= k && Recurs(before[order[j]]) && crontab(before[order[j]].cron, now).At?
                                          then crontab(before[order[j]].cron, now).next else None)
    && (forall j: nat | j < |order| && j <= k ::
          j == k <==> !inserts(j) || (Recurs(before[order[j]]) && crontab(before[order[j]].cron, now).BadCron?))
  }

  lemma TickShows(crontab: Crontab, w: Worker, now: Time, order: seq<AlertId>, inserts: nat -> bool, k: nat,
                  s: State, after: map<AlertId, Alert>)
    requires Enabled(s, ClaimDue(w, now, order)) && |Claims(s, order)| == |order| && OnlyTimes(s.alerts, after)
    requires forall id | id in s.alerts && id !in order :: after[id] == s.alerts[id]
    requires FirstFailure(crontab, now, Claims(s, order), inserts, k)
    requires forall j | 0 <= j < |order| :: order[j] in after &&
               TimeOf(after[order[j]].next) == LeftWith(crontab, now, Claims(s, order), k, j)
    ensures Ticked(crontab, w, now, order, inserts, k, s.alerts, after, FiringsOf(crontab, w, now, Claims(s, order)[..k]))
  {
    var rows := Claims(s, order);
    RowsAreDue(s, w, now, order);
    hide Claims, Enabled, TimeOf, OnlyTimes, FirstFailure, LeftWith;
    assert |rows[..k]| == k by { FailureInRange(crontab, now, rows, inserts, k); }
    forall j: nat | j < |order|
      ensures LeftWith(crontab, now, rows, k, j) == (if j <= k && Recurs(s.alerts[order[j]]) && crontab(s.alerts[order[j]].cron, now).At?
                                                     then crontab(s.alerts[order[j]].cron, now).next else None)
    {
      LeftIs(crontab, now, rows, k, j, s.alerts[order[j]]);
    }
    forall j: nat | j < |order| && j <= k
      ensures j == k <==> !inserts(j) || (Recurs(s.alerts[order[j]]) && crontab(s.alerts[order[j]].cron, now).BadCron?)
    {
      FailureIs(crontab, now, rows, inserts, k, j, s.alerts[order[j]]);
    }
  }

  lemma RowsAreDue(s: State, w: Worker, now: Time, order: seq<AlertId>)
    requires Enabled(s, ClaimDue(w, now, order))
    ensures forall j | 0 <= j < |order| :: order[j] in s.alerts && s.alerts[order[j]].enabled &&
              s.alerts[order[j]].next.Some? && s.alerts[order[j]].next.value.at <= now
    ensures forall id | id in order :: id in s.alerts && s.alerts[id].next.Some?
    ensures |Claims(s, order)| == |order| && forall j | 0 <= j < |order| ::
              var c := Claims(s, order)[j]; c.id == order[j] && c.recurring == s.alerts[order[j]].recurring && c.cron == s.alerts[order[j]].cron
  {
    forall j | 0 <= j < |order| ensures IsDue(s, order[j], now) { assert order[j] in order; }
  }

  lemma FailureInRange(crontab: Crontab, now: Time, rows: seq<Claim>, inserts: nat -> bool, k: nat)
    requires FirstFailure(crontab, now, rows, inserts, k)
    ensures k <= |rows|
  {}

  lemma LeftIs(crontab: Crontab, now: Time, rows: seq<Claim>, k: nat, j: nat, a: Alert)
    requires j < |rows| && rows[j].recurring == a.recurring && rows[j].cron == a.cron
    ensures LeftWith(crontab, now, rows, k, j) == if j <= k && Recurs(a) && crontab(a.cron, now).At? then crontab(a.cron, now).next else None
  {}

  lemma FailureIs(crontab: Crontab, now: Time, rows: seq<Claim>, inserts: nat -> bool, k: nat, j: nat, a: Alert)
    requires FirstFailure(crontab, now, rows, inserts, k) && j < |rows| && j <= k
    requires rows[j].recurring == a.recurring && rows[j].cron == a.cron
    ensures j == k <==> !inserts(j) || (Recurs(a) && crontab(a.cron, now).BadCron?)
  {
    assert j < k ==> !Fails(crontab, now, rows, inserts, j);
  }

  lemma ScheduleTable(s: State, id: AlertId, at: Option<Time>)
    ensures Schedule(s, id, at).alerts == TableWith(s.alerts, s.nextOcc, id, at)
    ensures Schedule(s, id, at).nextOcc == s.nextOcc + if id in s.alerts && at.Some? then 1 else 0
    ensures Schedule(s, id, at).jobs == s.jobs && Schedule(s, id, at).fired == s.fired
  {}

  class AlertStore {
    const crontab: Crontab
    var alerts: map<AlertId, Alert>
    var notifications: seq<Firing>
    var nextOcc: Occ
    // The account of every occurrence, and the jobs of every worker.
    ghost var account: State

    ghost predicate Valid() reads this {
      account.alerts == alerts && account.fired == notifications && account.nextOcc == nextOcc
    }

    // `row["schedule_type"] == "recurring" and row["cron_expression"]`: write the next time first.
    method RescheduleRow(w: Worker, now: Time, c: Claim) returns (raised: bool)
      requires Valid() && Enabled(account, Reschedule(w)) && Head(account, w) == c && account.jobs[w].now == now
      modifies this
      ensures Valid() && account == Next(crontab, old(account), Reschedule(w))
      ensures raised == crontab(c.cron, now).BadCron? && notifications == old(notifications)
      ensures raised ==> alerts == old(alerts) && account.jobs == old(account).jobs[w := Idle]
      ensures !raised ==> alerts == TableWith(old(alerts), old(nextOcc), c.id, crontab(c.cron, now).next)
      ensures !raised ==> account.jobs == old(account).jobs[w := old(account).jobs[w].(stage := Stage.Written(crontab(c.cron, now).next))]
    {
      account := Next(crontab, account, Reschedule(w));
      var next := crontab(c.cron, now);
      raised := next.BadCron?;
      if raised { return; }
      ScheduleTable(old(account), c.id, next.next);
      if c.id in alerts {
        if next.next.None? {
          alerts := alerts[c.id := alerts[c.id].(next := None)];
        } else {
          alerts := alerts[c.id := alerts[c.id].(next := Some(Due(next.next.value, nextOcc)))];
          nextOcc := nextOcc + 1;
        }
      }
    }

    // `fire_alert`: nothing for a row that is gone, else one notification row, which may raise.
    method FireRow(w: Worker, now: Time, c: Claim, stage: Stage, inserts: bool) returns (raised: bool)
      requires Valid() && Enabled(account, Fire(w, inserts)) && Head(account, w) == c
      requires account.jobs[w].now == now && account.jobs[w].stage == stage
      modifies this
      ensures Valid() && account == Next(crontab, old(account), Fire(w, inserts)) && alerts == old(alerts)
      ensures raised == (c.id in alerts && !inserts)
      ensures raised ==> account.jobs == old(account).jobs[w := Idle] && notifications == old(notifications)
      ensures !raised ==> account.jobs == old(account).jobs[w := Ticking(now, old(account).jobs[w].queue[1..], Fresh)]
      ensures !raised ==> notifications == old(notifications) + if c.id in alerts then [Firing(c, w, now, stage)] else []
    {
      account := Next(crontab, account, Fire(w, inserts));
      raised := false;
      if c.id !in alerts { return; }
      if !inserts { return true; }
      notifications := notifications + [Firing(c, w, now, stage)];
    }

    // One row of the loop.
    method HandleRow(w: Worker, now: Time, c: Claim, inserts: bool) returns (raised: bool, ghost steps: seq<Label>)
      requires Valid() && HasHead(account, w) && Head(account, w) == c && account.jobs[w].now == now && account.jobs[w].stage.Fresh?
      requires c.id in alerts && alerts[c.id].next.None?
      modifies this
      ensures Valid() && CanRun(crontab, old(account), steps) && account == End(crontab, old(account), steps)
      ensures alerts.Keys == old(alerts).Keys && forall id | id in alerts && id != c.id :: alerts[id] == old(alerts)[id]
      ensures raised == (!inserts || Unparsable(crontab, now, c))
      ensures raised ==> account.jobs == old(account).jobs[w := Idle]
      ensures !raised ==> account.jobs == old(account).jobs[w := Ticking(now, old(account).jobs[w].queue[1..], Fresh)]
      ensures notifications == old(notifications) + if raised then [] else [FiringOf(crontab, w, now, c)]
      ensures TimeOf(alerts[c.id].next) == NextTime(crontab, now, c) && OnlyTimes(old(alerts), alerts)
    {
      ghost var start := account;
      steps := [];
      var stage := Fresh;
      if Repeats(c) {
        RunSnoc(crontab, start, steps, Reschedule(w));
        steps := steps + [Reschedule(w)];
        hide CanRun, End;
        raised := RescheduleRow(w, now, c);
        if raised { return; }
        stage := Stage.Written(crontab(c.cron, now).next);
      }
      hide CanRun, End, Next;
      RunSnoc(crontab, start, steps, Fire(w, inserts));
      steps := steps + [Fire(w, inserts)];
      raised := FireRow(w, now, c, stage, inserts);
    }

    // The claim: one UPDATE .. RETURNING over the due rows it could lock.
    method ClaimRows(w: Worker, now: Time, order: seq<AlertId>) returns (rows: seq<Claim>)
      requires Valid() && Enabled(account, ClaimDue(w, now, order))
      modifies this
      ensures Valid() && account == Next(crontab, old(account), ClaimDue(w, now, order))
      ensures rows == Claims(old(account), order) && notifications == old(notifications)
      ensures account.jobs == old(account).jobs[w := Ticking(now, rows, Fresh)]
      ensures alerts.Keys == old(alerts).Keys
      ensures forall id | id in alerts :: alerts[id] == if id in order then old(alerts)[id].(next := None) else old(alerts)[id]
    {
      forall i | 0 <= i < |order| ensures order[i] in alerts && alerts[order[i]].next.Some? {
        assert IsDue(account, order[i], now);
      }
      account := Next(crontab, account, ClaimDue(w, now, order));
      rows := seq(|order|, i requires 0 <= i < |order| reads this requires order[i] in alerts && alerts[order[i]].next.Some? =>
        Claim(order[i], alerts[order[i]].recurring, alerts[order[i]].cron, alerts[order[i]].next.value.occ));
      alerts := map id | id in alerts :: if id in order then alerts[id].(next := None) else alerts[id];
    }

    // `for row in rows:`
    method ProcessRows(w: Worker, now: Time, rows: seq<Claim>, inserts: nat -> bool)
      returns (raised: bool, k: nat, ghost trace: seq<Label>)
      requires Valid() && w in account.jobs && account.jobs[w] == Ticking(now, rows, Fresh)
      requires DistinctRows(rows) && forall k | 0 <= k < |rows| :: rows[k].id in alerts && alerts[rows[k].id].next.None?
      modifies this
      ensures Valid()
      ensures CanRun(crontab, old(account), trace) && account == End(crontab, old(account), trace)
      ensures alerts.Keys == old(alerts).Keys
      ensures forall id | id in alerts && (forall k | 0 <= k < |rows| :: rows[k].id != id) :: alerts[id] == old(alerts)[id]
      ensures FirstFailure(crontab, now, rows, inserts, k) && (raised <==> k < |rows|)
      ensures raised ==> account.jobs == old(account).jobs[w := Idle]
      ensures !raised ==> account.jobs == old(account).jobs[w := Ticking(now, [], Fresh)]
      ensures notifications == old(notifications) + FiringsOf(crontab, w, now, rows[..k]) && OnlyTimes(old(alerts), alerts)
      ensures forall j | 0 <= j < |rows| :: rows[j].id in alerts && TimeOf(alerts[rows[j].id].next) == LeftWith(crontab, now, rows, k, j)
    {
      hide *;
      ghost var start := account;
      raised, k, trace := false, 0, [];
      EmptyRun(crontab, start);
      NoFirings(crontab, w, now, rows);
      BatchStart(crontab, now, rows, alerts);
      while k < |rows|
        invariant k <= |rows| && Valid() && !raised
        invariant CanRun(crontab, start, trace) && account == End(crontab, start, trace)
        invariant account.jobs == start.jobs[w := Ticking(now, rows[k..], Fresh)]
        invariant BatchSoFar(crontab, now, rows, k, old(alerts), alerts)
        invariant forall i: nat | i < k :: !Fails(crontab, now, rows, inserts, i)
        invariant notifications == old(notifications) + FiringsOf(crontab, w, now, rows[..k])
      {
        ghost var steps, was := *, alerts;
        BatchFresh(crontab, now, rows, k, old(alerts), alerts);
        QueueHead(account, w, now, rows, k);
        raised, steps := HandleRow(w, now, rows[k], inserts(k));
        RunAppend(crontab, start, trace, steps);
        trace := trace + steps;
        BatchNext(crontab, now, rows, k, old(alerts), was, alerts);
        FailsIs(crontab, now, rows, inserts, k);
        if raised {
          BatchEnds(crontab, now, rows, inserts, k, old(alerts), alerts);
          return;
        }
        FiringsSnoc(crontab, w, now, rows, k);
        k := k + 1;
      }
      BatchEnds(crontab, now, rows, inserts, k, old(alerts), alerts);
      assert rows[..|rows|] == rows && rows[|rows|..] == [];
    }

    /** One tick of worker `w`.  `order` is what the claim returns; `inserts(i)` says whether the i-th
        notification insert succeeds.  The tick is a run of the protocol.  It stops at the first row whose
        crontab does not parse or whose insert fails: the rows before it have each fired exactly once, in
        order; they and it are left with their next times; the rows after it are left with none. */
    method TickAlerts(w: Worker, now: Time, order: seq<AlertId>, inserts: nat -> bool)
      returns (raised: bool, k: nat, ghost trace: seq<Label>)
      requires Valid() && Enabled(account, ClaimDue(w, now, order))
      modifies this
      ensures Valid()
      ensures CanRun(crontab, old(account), trace) && account == End(crontab, old(account), trace)
      ensures account.jobs == old(account).jobs[w := Idle] && alerts.Keys == old(alerts).Keys
      ensures forall id | id in alerts && id !in order :: alerts[id] == old(alerts)[id]
      ensures |Claims(old(account), order)| == |order|
      ensures FirstFailure(crontab, now, Claims(old(account), order), inserts, k) && (raised <==> k < |order|)
      ensures notifications == old(notifications) + FiringsOf(crontab, w, now, Claims(old(account), order)[..k])
      ensures forall j | 0 <= j < |order| :: order[j] in alerts &&
                TimeOf(alerts[order[j]].next) == LeftWith(crontab, now, Claims(old(account), order), k, j)
      ensures forall j: nat | j < |order| :: order[j] in alerts &&
                (alerts[order[j]].next.None? <==> LeftUnscheduled(crontab, now, Claims(old(account), order), inserts, j))
      ensures |old(notifications)| <= |notifications| && notifications[..|old(notifications)|] == old(notifications)
      ensures Ticked(crontab, w, now, order, inserts, k, old(alerts), alerts, notifications[|old(notifications)|..])
    {
      hide Next, CanRun, End, FiringsOf, Claims, Enabled, LeftWith, FirstFailure, LeftUnscheduled, Ticked, TimeOf;
      ghost var before := account;
      raised, k, trace := RunTick(w, now, order, inserts);
      TickShown(w, now, order, inserts, k, before, alerts, old(notifications), notifications);
      LeftShown(crontab, now, Claims(before, order), inserts, k, order, alerts);
    }

    lemma TickShown(w: Worker, now: Time, order: seq<AlertId>, inserts: nat -> bool, k: nat, s: State, after: map<AlertId, Alert>,
                    was: seq<Firing>, fired: seq<Firing>)
      requires Enabled(s, ClaimDue(w, now, order)) && |Claims(s, order)| == |order| && OnlyTimes(s.alerts, after)
      requires forall id | id in after && id !in order :: after[id] == s.alerts[id]
      requires FirstFailure(crontab, now, Claims(s, order), inserts, k)
      requires forall j | 0 <= j < |order| :: order[j] in after &&
                 TimeOf(after[order[j]].next) == LeftWith(crontab, now, Claims(s, order), k, j)
      requires fired == was + FiringsOf(crontab, w, now, Claims(s, order)[..k])
      ensures |was| <= |fired| && fired[..|was|] == was
      ensures Ticked(crontab, w, now, order, inserts, k, s.alerts, after, fired[|was|..])
    {
      TickShows(crontab, w, now, order, inserts, k, s, after);
      Appended(was, FiringsOf(crontab, w, now, Claims(s, order)[..k]), fired);
    }

    // The steps of a tick.
    method RunTick(w: Worker, now: Time, order: seq<AlertId>, inserts: nat -> bool)
      returns (raised: bool, k: nat, ghost trace: seq<Label>)
      requires Valid() && Enabled(account, ClaimDue(w, now, order))
      modifies this
      ensures Valid()
      ensures CanRun(crontab, old(account), trace) && account == End(crontab, old(account), trace)
      ensures account.jobs == old(account).jobs[w := Idle] && alerts.Keys == old(alerts).Keys
      ensures forall id | id in alerts && id !in order :: alerts[id] == old(alerts)[id]
      ensures |Claims(old(account), order)| == |order|
      ensures FirstFailure(crontab, now, Claims(old(account), order), inserts, k) && (raised <==> k < |order|)
      ensures notifications == old(notifications) + FiringsOf(crontab, w, now, Claims(old(account), order)[..k])
      ensures forall j | 0 <= j < |order| :: order[j] in alerts &&
                TimeOf(alerts[order[j]].next) == LeftWith(crontab, now, Claims(old(account), order), k, j)
      ensures OnlyTimes(old(alerts), alerts)
    {
      ghost var start := account;
      ClaimFacts(start, w, now, order);
      hide Next, CanRun, End, FiringsOf, Claims, Unparsable, LeftWith, FirstFailure, LeftUnscheduled, Ticked, OnlyTimes, TimeOf;
      StartRun(crontab, start, ClaimDue(w, now, order));
      trace := [ClaimDue(w, now, order)];
      var rows := ClaimRows(w, now, order);
      ghost var claimed := alerts;
      hide Enabled;
      ghost var more;
      raised, k, more := ProcessRows(w, now, rows, inserts);
      RunAppend(crontab, start, trace, more);
      trace := trace + more;
      ClaimedTimes(order, old(alerts), claimed, alerts);
      if raised { return; }
      FinishRun(crontab, start, trace, w);
      trace := trace + [Finish(w)];
      account := account.(jobs := account.jobs[w := Idle]);
    }
  }

  /* Row j's alert is left without a time by the tick: it has none to be given (not recurring, no crontab, an
     unparsable one, or one without another time), or some earlier row ended the batch. */
  ghost predicate LeftUnscheduled(crontab: Crontab, now: Time, rows: seq<Claim>, inserts: nat -> bool, j: nat)
    requires j < |rows|
  {
    || !Repeats(rows[j]) || Unparsable(crontab, now, rows[j]) || crontab(rows[j].cron, now).next.None?
    || exists i: nat :: i < j && Fails(crontab, now, rows, inserts, i)
  }

  lemma LeftNoneIff(crontab: Crontab, now: Time, rows: seq<Claim>, inserts: nat -> bool, k: nat, j: nat)
    requires FirstFailure(crontab, now, rows, inserts, k) && j < |rows|
    ensures LeftWith(crontab, now, rows, k, j).None? <==> LeftUnscheduled(crontab, now, rows, inserts, j)
  {
    hide Fails;
  }

  lemma Appended(was: seq<Firing>, more: seq<Firing>, now: seq<Firing>)
    requires now == was + more
    ensures |was| <= |now| && now[..|was|] == was && now[|was|..] == more
  {}

  lemma LeftShown(crontab: Crontab, now: Time, rows: seq<Claim>, inserts: nat -> bool, k: nat, order: seq<AlertId>, after: map<AlertId, Alert>)
    requires FirstFailure(crontab, now, rows, inserts, k) && |rows| == |order|
    requires forall j | 0 <= j < |order| :: order[j] in after && TimeOf(after[order[j]].next) == LeftWith(crontab, now, rows, k, j)
    ensures forall j: nat | j < |order| :: order[j] in after &&
              (after[order[j]].next.None? <==> LeftUnscheduled(crontab, now, rows, inserts, j))
  {
    hide FirstFailure, LeftWith, LeftUnscheduled;
    forall j: nat | j < |order| ensures LeftWith(crontab, now, rows, k, j).None? <==> LeftUnscheduled(crontab, now, rows, inserts, j) {
      LeftNoneIff(crontab, now, rows, inserts, k, j);
    }
  }

  // The claim clears the claimed rows and the loop writes only their times.
  lemma ClaimedTimes(order: seq<AlertId>, before: map<AlertId, Alert>, claimed: map<AlertId, Alert>, after: map<AlertId, Alert>)
    requires claimed.Keys == before.Keys && OnlyTimes(claimed, after)
    requires forall id | id in claimed :: claimed[id] == if id in order then before[id].(next := None) else before[id]
    ensures OnlyTimes(before, after)
  {}

  predicate DistinctRows(rows: seq<Claim>) { forall i, j | 0 <= i < j < |rows| :: rows[i].id != rows[j].id }

  lemma FiringsSnoc(crontab: Crontab, w: Worker, now: Time, rows: seq<Claim>, i: nat)
    requires i < |rows|
    ensures FiringsOf(crontab, w, now, rows[..i+1]) == FiringsOf(crontab, w, now, rows[..i]) + [FiringOf(crontab, w, now, rows[i])]
  {}

  // The table after the first n rows: those have their next times, every other row is as it was.
  ghost predicate BatchSoFar(crontab: Crontab, now: Time, rows: seq<Claim>, n: nat, before: map<AlertId, Alert>, table: map<AlertId, Alert>)
    requires n <= |rows|
  {
    && OnlyTimes(before, table)
    && (forall id | id in table && (forall i | 0 <= i < n :: rows[i].id != id) :: table[id] == before[id])
    && (forall i | 0 <= i < n :: rows[i].id in table && TimeOf(table[rows[i].id].next) == NextTime(crontab, now, rows[i]))
  }

  lemma BatchStart(crontab: Crontab, now: Time, rows: seq<Claim>, table: map<AlertId, Alert>)
    ensures BatchSoFar(crontab, now, rows, 0, table, table)
  {}

  lemma BatchFresh(crontab: Crontab, now: Time, rows: seq<Claim>, n: nat, before: map<AlertId, Alert>, table: map<AlertId, Alert>)
    requires n < |rows| && BatchSoFar(crontab, now, rows, n, before, table) && DistinctRows(rows) && rows[n].id in before
    ensures rows[n].id in table && table[rows[n].id] == before[rows[n].id]
  {
    hide TimeOf, NextTime;
  }

  lemma BatchNext(crontab: Crontab, now: Time, rows: seq<Claim>, n: nat, before: map<AlertId, Alert>,
                  was: map<AlertId, Alert>, table: map<AlertId, Alert>)
    requires n < |rows| && BatchSoFar(crontab, now, rows, n, before, was) && DistinctRows(rows) && rows[n].id in was
    requires table.Keys == was.Keys && forall id | id in table && id != rows[n].id :: table[id] == was[id]
    requires TimeOf(table[rows[n].id].next) == NextTime(crontab, now, rows[n]) && OnlyTimes(was, table)
    ensures BatchSoFar(crontab, now, rows, n + 1, before, table)
  {
    hide TimeOf, NextTime;
  }

  lemma BatchEnds(crontab: Crontab, now: Time, rows: seq<Claim>, inserts: nat -> bool, k: nat, before: map<AlertId, Alert>, table: map<AlertId, Alert>)
    requires k <= |rows| && BatchSoFar(crontab, now, rows, if k < |rows| then k + 1 else k, before, table) && DistinctRows(rows)
    requires forall j | 0 <= j < |rows| :: rows[j].id in before && before[rows[j].id].next.None?
    requires (forall i: nat | i < k :: !Fails(crontab, now, rows, inserts, i)) && (k < |rows| ==> Fails(crontab, now, rows, inserts, k))
    ensures FirstFailure(crontab, now, rows, inserts, k) && OnlyTimes(before, table) && table.Keys == before.Keys
    ensures forall id | id in table && (forall j | 0 <= j < |rows| :: rows[j].id != id) :: table[id] == before[id]
    ensures forall j | 0 <= j < |rows| :: rows[j].id in table && TimeOf(table[rows[j].id].next) == LeftWith(crontab, now, rows, k, j)
  {
    hide NextTime, Fails;
    forall j | 0 <= j < |rows| ensures rows[j].id in table && TimeOf(table[rows[j].id].next) == LeftWith(crontab, now, rows, k, j) {
      if j > k { assert table[rows[j].id] == before[rows[j].id]; }
    }
  }

  lemma FailsIs(crontab: Crontab, now: Time, rows: seq<Claim>, inserts: nat -> bool, i: nat)
    requires i < |rows|
    ensures Fails(crontab, now, rows, inserts, i) <==> !inserts(i) || Unparsable(crontab, now, rows[i])
  {}

  lemma QueueHead(s: State, w: Worker, now: Time, rows: seq<Claim>, k: nat)
    requires k < |rows| && w in s.jobs && s.jobs[w] == Ticking(now, rows[k..], Fresh)
    ensures HasHead(s, w) && Head(s, w) == rows[k] && s.jobs[w].queue[1..] == rows[k + 1..]
  {}

  lemma NoFirings(crontab: Crontab, w: Worker, now: Time, rows: seq<Claim>)
    ensures FiringsOf(crontab, w, now, rows[..0]) == [] && rows[0..] == rows
  {}

  lemma EmptyRun(crontab: Crontab, s: State)
    ensures CanRun(crontab, s, []) && End(crontab, s, []) == s
  {}

  lemma StartRun(crontab: Crontab, s: State, l: Label)
    requires Enabled(s, l)
    ensures CanRun(crontab, s, [l]) && End(crontab, s, [l]) == Next(crontab, s, l)
  {
    hide Next, Enabled;
    RunSnoc(crontab, s, [], l);
    assert [] + [l] == [l];
  }

  lemma FinishRun(crontab: Crontab, s: State, trace: seq<Label>, w: Worker)
    requires CanRun(crontab, s, trace)
    requires w in End(crontab, s, trace).jobs && End(crontab, s, trace).jobs[w].Ticking? && End(crontab, s, trace).jobs[w].queue == []
    ensures CanRun(crontab, s, trace + [Finish(w)])
    ensures End(crontab, s, trace + [Finish(w)]) == End(crontab, s, trace).(jobs := End(crontab, s, trace).jobs[w := Idle])
  {
    RunSnoc(crontab, s, trace, Finish(w));
  }

  lemma ClaimFacts(s: State, w: Worker, now: Time, order: seq<AlertId>)
    requires Enabled(s, ClaimDue(w, now, order))
    ensures Distinct(order) && w in s.jobs
    ensures forall id | id in order :: id in s.alerts && s.alerts[id].next.Some?
    ensures |Claims(s, order)| == |order|
    ensures forall i | 0 <= i < |order| :: order[i] in order && Claims(s, order)[i].id == order[i]
  {}
}
