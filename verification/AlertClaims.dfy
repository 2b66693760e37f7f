/** Scheduled alerts over several workers: the claim, reschedule and fire steps of every worker's tick,
    interleaved with crashes and with people editing the same rows.

    Each write of a non-NULL next_fire_at is an occurrence.  The state carries, beside the table and the
    workers, what became of every occurrence. */
module AlertClaims {
  import opened Options

  type AlertId = nat
  type Worker = nat
  type Time = int
  type Occ = nat

  datatype Due = Due(at: Time, occ: Occ)
  // `cron` is empty for a NULL or empty cron_expression.
  datatype Alert = Alert(enabled: bool, recurring: bool, cron: string, next: Option<Due>)

  // A row RETURNING from the claim.
  datatype Claim = Claim(id: AlertId, recurring: bool, cron: string, occ: Occ)
  // The head of the queue is fresh, or its next time has been written.
  datatype Stage = Fresh | Written(next: Option<Time>)
  datatype Job = Idle | Ticking(now: Time, queue: seq<Claim>, stage: Stage)

  datatype Fate = Pending(id: AlertId) | Claimed(worker: Worker) | Fired | Lost | Cancelled

  // One notification row, with the tick that inserted it.
  datatype Firing = Firing(claim: Claim, worker: Worker, now: Time, stage: Stage)

  datatype State = State(alerts: map<AlertId, Alert>, jobs: map<Worker, Job>,
                         fates: map<Occ, Fate>, owners: map<Occ, AlertId>, fired: seq<Firing>, nextOcc: Occ)

  /** What a crontab means: an expression the parser rejects, or the next time from `now` on, if any. */
  datatype CronAnswer = BadCron | At(next: Option<Time>)
  type Crontab = (string, Time) -> CronAnswer

  ghost predicate NotBefore(crontab: Crontab) {
    forall c, now :: crontab(c, now).At? && crontab(c, now).next.Some? ==> now <= crontab(c, now).next.value
  }

  datatype Label =
    | Create(id: AlertId, alert: Alert, at: Option<Time>)
    | Edit(id: AlertId, enabled: Option<bool>, recurring: Option<bool>, cron: Option<string>, at: Option<Time>)
    | Delete(id: AlertId)
    | ClaimDue(worker: Worker, now: Time, order: seq<AlertId>)
    | Reschedule(worker: Worker)
    | Fire(worker: Worker, inserted: bool)
    | Finish(worker: Worker)
    | Crash(worker: Worker)

  predicate IsDue(s: State, id: AlertId, now: Time) {
    id in s.alerts && s.alerts[id].enabled && s.alerts[id].next.Some? && s.alerts[id].next.value.at <= now
  }

  predicate Distinct(ids: seq<AlertId>) { forall i, j | 0 <= i < j < |ids| :: ids[i] != ids[j] }

  // `row["schedule_type"] == "recurring" and row["cron_expression"]`
  predicate Repeats(c: Claim) { c.recurring && c.cron != "" }

  predicate HasHead(s: State, w: Worker) {
    w in s.jobs && s.jobs[w].Ticking? && s.jobs[w].queue != []
  }

  function Head(s: State, w: Worker): Claim requires HasHead(s, w) { s.jobs[w].queue[0] }

  /** A step is possible.  `order` lists the rows one claim takes: any due rows, each once; rows another
      transaction holds are skipped. */
  predicate Enabled(s: State, l: Label) {
    match l
    case Create(id, alert, at) => id !in s.alerts && forall o | o in s.owners :: s.owners[o] != id
    case Edit(_, _, _, _, _) => true
    case Delete(_) => true
    case ClaimDue(w, now, order) =>
      w in s.jobs && s.jobs[w].Idle? && Distinct(order) && forall id | id in order :: IsDue(s, id, now)
    case Reschedule(w) => HasHead(s, w) && s.jobs[w].stage.Fresh? && Repeats(Head(s, w))
    case Fire(w, _) => HasHead(s, w) && (s.jobs[w].stage.Written? <==> Repeats(Head(s, w)))
    case Finish(w) => w in s.jobs && s.jobs[w].Ticking? && s.jobs[w].queue == []
    case Crash(w) => w in s.jobs
  }

  /*************** the steps ***************/

  // The occurrence pending on a row, if any, is overwritten or goes with the row.
  function Unschedule(s: State, id: AlertId): State {
    if id in s.alerts && s.alerts[id].next.Some?
    then s.(fates := s.fates[s.alerts[id].next.value.occ := Cancelled],
            alerts := s.alerts[id := s.alerts[id].(next := None)])
    else s
  }

  // Write next_fire_at: NULL, or a new occurrence.
  function Schedule(s: State, id: AlertId, at: Option<Time>): State {
    if id !in s.alerts then s else
    var s := Unschedule(s, id);
    if at.None? then s else
    s.(alerts := s.alerts[id := s.alerts[id].(next := Some(Due(at.value, s.nextOcc)))],
       fates := s.fates[s.nextOcc := Pending(id)], owners := s.owners[s.nextOcc := id], nextOcc := s.nextOcc + 1)
  }

  function ClaimOf(s: State, id: AlertId): Claim
    requires id in s.alerts && s.alerts[id].next.Some?
  {
    Claim(id, s.alerts[id].recurring, s.alerts[id].cron, s.alerts[id].next.value.occ)
  }

  function Claims(s: State, order: seq<AlertId>): seq<Claim>
    requires forall id | id in order :: id in s.alerts && s.alerts[id].next.Some?
  {
    seq(|order|, i requires 0 <= i < |order| => assert order[i] in order; ClaimOf(s, order[i]))
  }

  function OccsOf(queue: seq<Claim>): set<Occ> { set c | c in queue :: c.occ }

  function Marked(fates: map<Occ, Fate>, occs: set<Occ>, f: Fate): map<Occ, Fate> {
    map o | o in fates :: if o in occs then f else fates[o]
  }

  // The worker stops mid-tick: everything it still held is lost.
  function Abandon(s: State, w: Worker): State
    requires w in s.jobs
  {
    s.(jobs := s.jobs[w := Idle],
       fates := if s.jobs[w].Ticking? then Marked(s.fates, OccsOf(s.jobs[w].queue), Lost) else s.fates)
  }

  function Pop(s: State, w: Worker): State
    requires HasHead(s, w)
  {
    s.(jobs := s.jobs[w := s.jobs[w].(queue := s.jobs[w].queue[1..], stage := Fresh)])
  }

  function Next(crontab: Crontab, s: State, l: Label): State
    requires Enabled(s, l)
  {
    match l
    case Create(id, alert, at) => Schedule(s.(alerts := s.alerts[id := alert.(next := None)]), id, at)
    case Edit(id, enabled, recurring, cron, at) =>
      if id !in s.alerts then s else
      var a := s.alerts[id];
      var a := if enabled.Some? then a.(enabled := enabled.value) else a;
      var a := if recurring.Some? then a.(recurring := recurring.value) else a;
      var a := if cron.Some? then a.(cron := cron.value) else a;
      var s := s.(alerts := s.alerts[id := a]);
      if at.Some? then Schedule(s, id, at) else s
    case Delete(id) => var s := Unschedule(s, id); s.(alerts := s.alerts - {id})
    case ClaimDue(w, now, order) =>
      var queue := Claims(s, order);
      s.(alerts := map id | id in s.alerts :: if id in order then s.alerts[id].(next := None) else s.alerts[id],
         jobs := s.jobs[w := Ticking(now, queue, Fresh)],
         fates := Marked(s.fates, OccsOf(queue), Claimed(w)))
    case Reschedule(w) =>
      (match crontab(Head(s, w).cron, s.jobs[w].now)
       case BadCron => Abandon(s, w)
       case At(next) =>
         var t := Schedule(s, Head(s, w).id, next);
         t.(jobs := t.jobs[w := t.jobs[w].(stage := Written(next))]))
    case Fire(w, inserted) =>
      var c := Head(s, w);
      if c.id !in s.alerts then Pop(s, w).(fates := s.fates[c.occ := Cancelled])
      else if !inserted then Abandon(s, w)
      else Pop(s, w).(fates := s.fates[c.occ := Fired],
                      fired := s.fired + [Firing(c, w, s.jobs[w].now, s.jobs[w].stage)])
    case Finish(w) => s.(jobs := s.jobs[w := Idle])
    case Crash(w) => Abandon(s, w)
  }

  /*************** what every step keeps ***************/

  // The fate of an occurrence agrees with the table.
  ghost predicate PendingAgree(s: State) {
    && (forall id | id in s.alerts && s.alerts[id].next.Some? ::
          s.alerts[id].next.value.occ in s.fates && s.fates[s.alerts[id].next.value.occ] == Pending(id))
    && (forall o | o in s.fates && s.fates[o].Pending? ::
          s.fates[o].id in s.alerts && s.alerts[s.fates[o].id].next.Some? && s.alerts[s.fates[o].id].next.value.occ == o)
  }

  // The fate of an occurrence agrees with the queues: one worker, one place.
  ghost predicate ClaimedAgree(s: State) {
    && (forall w, i | w in s.jobs && s.jobs[w].Ticking? && 0 <= i < |s.jobs[w].queue| ::
          s.jobs[w].queue[i].occ in s.fates && s.fates[s.jobs[w].queue[i].occ] == Claimed(w))
    && (forall w, i, j | w in s.jobs && s.jobs[w].Ticking? && 0 <= i < j < |s.jobs[w].queue| ::
          s.jobs[w].queue[i].occ != s.jobs[w].queue[j].occ)
    && (forall o | o in s.fates && s.fates[o].Claimed? ::
          s.fates[o].worker in s.jobs && s.jobs[s.fates[o].worker].Ticking? && o in OccsOf(s.jobs[s.fates[o].worker].queue))
  }

  // The fate of an occurrence agrees with the notifications: one row each.
  ghost predicate FiredAgree(s: State) {
    && (forall i | 0 <= i < |s.fired| :: s.fired[i].claim.occ in s.fates && s.fates[s.fired[i].claim.occ].Fired?)
    && (forall i, j | 0 <= i < j < |s.fired| :: s.fired[i].claim.occ != s.fired[j].claim.occ)
    && (forall o | o in s.fates && s.fates[o].Fired? :: exists i :: 0 <= i < |s.fired| && s.fired[i].claim.occ == o)
  }

  // Occurrences are numbered as they are written, and belong to the alert they were written on.
  ghost predicate OwnersAgree(s: State) {
    && s.owners.Keys == s.fates.Keys
    && (forall o: Occ :: o in s.fates <==> o < s.nextOcc)
    && (forall o | o in s.fates && s.fates[o].Pending? :: s.owners[o] == s.fates[o].id)
    && (forall w, i | w in s.jobs && s.jobs[w].Ticking? && 0 <= i < |s.jobs[w].queue| ::
          s.jobs[w].queue[i].occ in s.owners && s.owners[s.jobs[w].queue[i].occ] == s.jobs[w].queue[i].id)
    && (forall i | 0 <= i < |s.fired| ::
          s.fired[i].claim.occ in s.owners && s.owners[s.fired[i].claim.occ] == s.fired[i].claim.id)
  }

  // What a worker has written for the head of its queue, and what it had written when it fired.
  ghost predicate WrittenFirst(crontab: Crontab, c: Claim, now: Time, stage: Stage) {
    if Repeats(c) then stage.Written? && crontab(c.cron, now) == At(stage.next) else stage.Fresh?
  }

  ghost predicate StagesAgree(crontab: Crontab, s: State) {
    && (forall w | w in s.jobs && s.jobs[w].Ticking? ::
          s.jobs[w].stage.Written? ==> HasHead(s, w) && WrittenFirst(crontab, Head(s, w), s.jobs[w].now, s.jobs[w].stage))
    && (forall i | 0 <= i < |s.fired| :: WrittenFirst(crontab, s.fired[i].claim, s.fired[i].now, s.fired[i].stage))
  }

  /** Every occurrence ever scheduled is exactly one of: pending on its row, in the queue of one worker,
      fired by exactly one notification, lost, or cancelled. */
  ghost predicate Inv(crontab: Crontab, s: State) {
    PendingAgree(s) && ClaimedAgree(s) && FiredAgree(s) && OwnersAgree(s) && StagesAgree(crontab, s)
  }
}
