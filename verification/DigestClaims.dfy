/** The e-mail digest queue over several workers: rows are queued, claimed by a flush, grouped into one
    envelope per user and organisation, sent, discarded or released, with crashes anywhere. */
module DigestClaims {

  type RowId = nat
  type User = nat
  type Org = nat
  type Time = int
  type Worker = nat

  datatype Info = Info(user: User, org: Org, queuedAt: Time)
  datatype Group = Group(user: User, org: Org, ids: seq<RowId>)
  datatype Job = Idle | Flushing(groups: seq<Group>)

  datatype Fate = Pending | Claimed(worker: Worker) | Delivered | Discarded | Lost | Removed

  // `sent` is `sent_at IS NOT NULL`; `info` keeps what was queued, also for rows deleted since.
  datatype State = State(sent: map<RowId, bool>, info: map<RowId, Info>, jobs: map<Worker, Job>,
                         fates: map<RowId, Fate>, envelopes: seq<Group>)

  datatype Label =
    | Queue(id: RowId, row: Info)
    | Remove(ids: set<RowId>)
    | Claim(worker: Worker, groups: seq<Group>)
    | Deliver(worker: Worker)
    | Discard(worker: Worker)
    | SendFails(worker: Worker)
    | Finish(worker: Worker)
    | Crash(worker: Worker)

  function Flat(groups: seq<Group>): seq<RowId> {
    if groups == [] then [] else groups[0].ids + Flat(groups[1..])
  }

  predicate Distinct(ids: seq<RowId>) { forall i, j | 0 <= i < j < |ids| :: ids[i] != ids[j] }

  function IdSet(ids: seq<RowId>): set<RowId> { set i | i in ids }

  // Rows of one user and one organisation, in the order they were queued.
  predicate Coherent(info: map<RowId, Info>, g: Group) {
    && g.ids != []
    && (forall id | id in g.ids :: id in info && info[id].user == g.user && info[id].org == g.org)
    && (forall i, j | 0 <= i < j < |g.ids| :: g.ids[i] in info && g.ids[j] in info && info[g.ids[i]].queuedAt <= info[g.ids[j]].queuedAt)
  }

  /** What grouping has to achieve: one envelope per user and organisation, each coherent, no row twice. */
  predicate WellGrouped(info: map<RowId, Info>, groups: seq<Group>) {
    && Distinct(Flat(groups))
    && (forall g | g in groups :: Coherent(info, g))
    && (forall i, j | 0 <= i < j < |groups| :: (groups[i].user, groups[i].org) != (groups[j].user, groups[j].org))
  }

  predicate HasGroup(s: State, w: Worker) { w in s.jobs && s.jobs[w].Flushing? && s.jobs[w].groups != [] }

  function Head(s: State, w: Worker): Group requires HasGroup(s, w) { s.jobs[w].groups[0] }

  /** A flush claims any rows not yet sent; rows another transaction holds are skipped. */
  predicate Enabled(s: State, l: Label) {
    match l
    case Queue(id, _) => id !in s.fates
    case Remove(_) => true
    case Claim(w, groups) =>
      w in s.jobs && s.jobs[w].Idle? && WellGrouped(s.info, groups) &&
      forall id | id in Flat(groups) :: id in s.sent && !s.sent[id]
    case Deliver(w) => HasGroup(s, w)
    case Discard(w) => HasGroup(s, w)
    case SendFails(w) => HasGroup(s, w)
    case Finish(w) => w in s.jobs && s.jobs[w] == Flushing([])
    case Crash(w) => w in s.jobs
  }

  function Marked(fates: map<RowId, Fate>, ids: set<RowId>, f: Fate): map<RowId, Fate> {
    map o | o in fates :: if o in ids then f else fates[o]
  }

  function Stamped(sent: map<RowId, bool>, ids: set<RowId>, v: bool): map<RowId, bool> {
    map o | o in sent :: if o in ids then v else sent[o]
  }

  // The head group leaves the worker.
  function Pop(s: State, w: Worker): State
    requires HasGroup(s, w)
  {
    s.(jobs := s.jobs[w := Flushing(s.jobs[w].groups[1..])])
  }

  // `UPDATE .. SET sent_at = NULL WHERE id = ANY(..)`: rows still there are pending again.
  function Released(s: State, ids: set<RowId>): map<RowId, Fate> {
    map o | o in s.fates :: if o in ids then (if o in s.sent then Pending else Removed) else s.fates[o]
  }

  function Next(s: State, l: Label): State
    requires Enabled(s, l)
  {
    match l
    case Queue(id, row) => s.(sent := s.sent[id := false], info := s.info[id := row], fates := s.fates[id := Pending])
    case Remove(ids) =>
      s.(sent := s.sent - ids, fates := map o | o in s.fates :: if o in ids && s.fates[o].Pending? then Removed else s.fates[o])
    case Claim(w, groups) =>
      s.(sent := Stamped(s.sent, IdSet(Flat(groups)), true), jobs := s.jobs[w := Flushing(groups)],
         fates := Marked(s.fates, IdSet(Flat(groups)), Claimed(w)))
    case Deliver(w) =>
      Pop(s, w).(fates := Marked(s.fates, IdSet(Head(s, w).ids), Delivered), envelopes := s.envelopes + [Head(s, w)])
    case Discard(w) => Pop(s, w).(fates := Marked(s.fates, IdSet(Head(s, w).ids), Discarded))
    case SendFails(w) =>
      Pop(s, w).(sent := Stamped(s.sent, IdSet(Head(s, w).ids), false), fates := Released(s, IdSet(Head(s, w).ids)))
    case Finish(w) => s.(jobs := s.jobs[w := Idle])
    case Crash(w) =>
      s.(jobs := s.jobs[w := Idle],
         fates := if s.jobs[w].Flushing? then Marked(s.fates, IdSet(Flat(s.jobs[w].groups)), Lost) else s.fates)
  }

  /*************** the account of every row ***************/

  ghost predicate TableAgree(s: State) {
    && s.sent.Keys <= s.fates.Keys == s.info.Keys
    && (forall id | id in s.fates :: s.fates[id].Pending? <==> id in s.sent && !s.sent[id])
  }

  ghost predicate QueuesAgree(s: State) {
    && (forall w, i | w in s.jobs && s.jobs[w].Flushing? && 0 <= i < |Flat(s.jobs[w].groups)| ::
          Flat(s.jobs[w].groups)[i] in s.fates && s.fates[Flat(s.jobs[w].groups)[i]] == Claimed(w))
    && (forall w | w in s.jobs && s.jobs[w].Flushing? :: WellGrouped(s.info, s.jobs[w].groups))
    && (forall id | id in s.fates && s.fates[id].Claimed? ::
          s.fates[id].worker in s.jobs && s.jobs[s.fates[id].worker].Flushing? && id in Flat(s.jobs[s.fates[id].worker].groups))
  }

  ghost predicate EnvelopesAgree(s: State) {
    && Distinct(Flat(s.envelopes))
    && (forall g | g in s.envelopes :: Coherent(s.info, g))
    && (forall id :: id in Flat(s.envelopes) <==> id in s.fates && s.fates[id].Delivered?)
  }

  /** Every row ever queued is exactly one of: pending in the table, in the hands of one worker,
      delivered in exactly one envelope, discarded, lost, or removed. */
  ghost predicate Inv(s: State) { TableAgree(s) && QueuesAgree(s) && EnvelopesAgree(s) }

  lemma EmptyQueue(jobs: map<Worker, Job>)
    requires forall w | w in jobs :: jobs[w].Idle?
    ensures Inv(State(map[], map[], jobs, map[], []))
  {
    var s := State(map[], map[], jobs, map[], []);
    assert s.sent.Keys == {} && s.fates.Keys == {} && s.info.Keys == {};
  }

  /*************** every step ***************/

  lemma {:induction false} FlatSnoc(groups: seq<Group>, g: Group)
    ensures Flat(groups + [g]) == Flat(groups) + g.ids
  {
    if groups == [] {
      assert [] + [g] == [g] && [g][1..] == [];
    } else {
      FlatSnoc(groups[1..], g);
      assert (groups + [g])[1..] == groups[1..] + [g];
    }
  }

  lemma HeadIds(s: State, w: Worker)
    requires QueuesAgree(s) && HasGroup(s, w)
    ensures Flat(s.jobs[w].groups) == Head(s, w).ids + Flat(s.jobs[w].groups[1..])
    ensures forall id | id in Head(s, w).ids :: id in s.fates && s.fates[id] == Claimed(w)
    ensures forall id | id in Flat(s.jobs[w].groups[1..]) :: id in s.fates && s.fates[id] == Claimed(w) && id !in Head(s, w).ids
    ensures WellGrouped(s.info, s.jobs[w].groups[1..])
    ensures Distinct(Head(s, w).ids) && Coherent(s.info, Head(s, w))
  {
    var all, head, rest := Flat(s.jobs[w].groups), Head(s, w).ids, Flat(s.jobs[w].groups[1..]);
    assert all == head + rest;
    assert forall i | 0 <= i < |head| :: all[i] == head[i];
    assert forall i | 0 <= i < |rest| :: all[|head| + i] == rest[i];
    forall i, j | 0 <= i < j < |rest| ensures rest[i] != rest[j] { assert all[|head| + i] != all[|head| + j]; }
    forall i, j | 0 <= i < j < |s.jobs[w].groups[1..]|
      ensures (s.jobs[w].groups[1..][i].user, s.jobs[w].groups[1..][i].org) != (s.jobs[w].groups[1..][j].user, s.jobs[w].groups[1..][j].org)
    {
      assert s.jobs[w].groups[i + 1] == s.jobs[w].groups[1..][i] && s.jobs[w].groups[j + 1] == s.jobs[w].groups[1..][j];
    }
  }

  // The head group gets the fates in `after`; no other row's fate changes.
  lemma PopQueues(s: State, t: State, w: Worker)
    requires QueuesAgree(s) && HasGroup(s, w) && t.info == s.info
    requires t.jobs == s.jobs[w := Flushing(s.jobs[w].groups[1..])] && t.fates.Keys == s.fates.Keys
    requires forall id | id in s.fates :: if id in Head(s, w).ids then !t.fates[id].Claimed? else t.fates[id] == s.fates[id]
    ensures QueuesAgree(t)
  {
    HeadIds(s, w);
    forall v, i | v in t.jobs && t.jobs[v].Flushing? && 0 <= i < |Flat(t.jobs[v].groups)|
      ensures Flat(t.jobs[v].groups)[i] in t.fates && t.fates[Flat(t.jobs[v].groups)[i]] == Claimed(v)
    {
      var id := Flat(t.jobs[v].groups)[i];
      if v == w { assert id in Flat(s.jobs[w].groups[1..]); } else { assert s.fates[id] == Claimed(v); }
    }
  }

  lemma DeliverKeeps(s: State, w: Worker)
    requires Inv(s) && HasGroup(s, w)
    ensures Inv(Next(s, Deliver(w)))
  {
    var t := Next(s, Deliver(w));
    HeadIds(s, w);
    PopQueues(s, t, w);
    FlatSnoc(s.envelopes, Head(s, w));
    EnvelopeAdded(s, t, Head(s, w));
    TableSettled(s, t, Head(s, w).ids, Delivered);
    hide QueuesAgree, EnvelopesAgree, TableAgree;
  }

  // Claimed rows get a final fate; the table is as it was.
  lemma TableSettled(s: State, t: State, ids: seq<RowId>, f: Fate)
    requires TableAgree(s) && t.sent == s.sent && t.info == s.info && !f.Pending?
    requires t.fates == Marked(s.fates, IdSet(ids), f)
    requires forall id | id in ids :: id in s.fates && !s.fates[id].Pending?
    ensures TableAgree(t)
  {}

  // No row's delivery changes.
  lemma EnvelopesSame(s: State, t: State)
    requires EnvelopesAgree(s) && t.envelopes == s.envelopes && t.info == s.info && t.fates.Keys == s.fates.Keys
    requires forall id | id in s.fates :: s.fates[id].Delivered? <==> t.fates[id].Delivered?
    ensures EnvelopesAgree(t)
  {}

  // Claimed rows are given back.
  lemma TableReleased(s: State, t: State, ids: seq<RowId>)
    requires TableAgree(s) && t.info == s.info
    requires t.sent == Stamped(s.sent, IdSet(ids), false) && t.fates == Released(s, IdSet(ids))
    requires forall id | id in ids :: id in s.fates && s.fates[id].Claimed?
    ensures TableAgree(t)
  {}

  lemma EnvelopeAdded(s: State, t: State, g: Group)
    requires EnvelopesAgree(s) && t.info == s.info && Coherent(s.info, g) && Distinct(g.ids)
    requires t.envelopes == s.envelopes + [g] && Flat(t.envelopes) == Flat(s.envelopes) + g.ids
    requires t.fates == Marked(s.fates, IdSet(g.ids), Delivered)
    requires forall id | id in g.ids :: id in s.fates && !s.fates[id].Delivered?
    ensures EnvelopesAgree(t)
  {
    var a, b := Flat(s.envelopes), g.ids;
    forall i, j | 0 <= i < j < |a + b| ensures (a + b)[i] != (a + b)[j] {
      if i < |a| && |a| <= j { assert a[i] in a && b[j - |a|] in b; }
    }
  }

  lemma DiscardKeeps(s: State, w: Worker)
    requires Inv(s) && HasGroup(s, w)
    ensures Inv(Next(s, Discard(w)))
  {
    hide QueuesAgree, EnvelopesAgree, TableAgree;
    var t := Next(s, Discard(w));
    HeadIds(s, w);
    PopQueues(s, t, w);
    TableSettled(s, t, Head(s, w).ids, Discarded);
    EnvelopesSame(s, t);
  }

  lemma SendFailsKeeps(s: State, w: Worker)
    requires Inv(s) && HasGroup(s, w)
    ensures Inv(Next(s, SendFails(w)))
  {
    hide QueuesAgree, EnvelopesAgree, TableAgree;
    var t := Next(s, SendFails(w));
    HeadIds(s, w);
    PopQueues(s, t, w);
    TableReleased(s, t, Head(s, w).ids);
    EnvelopesSame(s, t);
  }

  lemma ClaimKeeps(s: State, w: Worker, groups: seq<Group>)
    requires Inv(s) && Enabled(s, Claim(w, groups))
    ensures Inv(Next(s, Claim(w, groups)))
  {
    var t := Next(s, Claim(w, groups));
    assert forall id | id in Flat(groups) :: id in s.fates && s.fates[id].Pending?;
    ClaimQueues(s, t, w, groups);
    hide QueuesAgree, WellGrouped;
  }

  lemma ClaimQueues(s: State, t: State, w: Worker, groups: seq<Group>)
    requires QueuesAgree(s) && w in s.jobs && s.jobs[w].Idle? && WellGrouped(s.info, groups) && t.info == s.info
    requires forall id | id in Flat(groups) :: id in s.fates && s.fates[id].Pending?
    requires t.jobs == s.jobs[w := Flushing(groups)] && t.fates == Marked(s.fates, IdSet(Flat(groups)), Claimed(w))
    ensures QueuesAgree(t)
  {
    forall v, i | v in t.jobs && t.jobs[v].Flushing? && 0 <= i < |Flat(t.jobs[v].groups)|
      ensures Flat(t.jobs[v].groups)[i] in t.fates && t.fates[Flat(t.jobs[v].groups)[i]] == Claimed(v)
    {
      if v != w { assert s.fates[Flat(s.jobs[v].groups)[i]] == Claimed(v); }
    }
  }

  lemma CrashKeeps(s: State, w: Worker)
    requires Inv(s) && w in s.jobs
    ensures Inv(Next(s, Crash(w)))
  {
    var t := Next(s, Crash(w));
    if s.jobs[w].Flushing? {
      var ids := Flat(s.jobs[w].groups);
      forall id | id in ids ensures id in s.fates && s.fates[id] == Claimed(w) {
        var i :| 0 <= i < |ids| && ids[i] == id;
      }
      CrashQueues(s, t, w);
      hide QueuesAgree;
    }
  }

  lemma CrashQueues(s: State, t: State, w: Worker)
    requires QueuesAgree(s) && w in s.jobs && s.jobs[w].Flushing? && t.info == s.info
    requires forall id | id in Flat(s.jobs[w].groups) :: id in s.fates && s.fates[id] == Claimed(w)
    requires t.jobs == s.jobs[w := Idle] && t.fates == Marked(s.fates, IdSet(Flat(s.jobs[w].groups)), Lost)
    ensures QueuesAgree(t)
  {
    forall v, i | v in t.jobs && t.jobs[v].Flushing? && 0 <= i < |Flat(t.jobs[v].groups)|
      ensures Flat(t.jobs[v].groups)[i] in t.fates && t.fates[Flat(t.jobs[v].groups)[i]] == Claimed(v)
    {
      assert s.fates[Flat(s.jobs[v].groups)[i]] == Claimed(v);
    }
  }

  lemma QueueKeeps(s: State, id: RowId, row: Info)
    requires Inv(s) && id !in s.fates
    ensures Inv(Next(s, Queue(id, row)))
  {
    assert forall g: Group | Coherent(s.info, g) :: Coherent(s.info[id := row], g);
  }

  lemma RemoveKeeps(s: State, ids: set<RowId>)
    requires Inv(s)
    ensures Inv(Next(s, Remove(ids)))
  {
    var t := Next(s, Remove(ids));
    assert QueuesAgree(t);
    assert EnvelopesAgree(t);
  }

  lemma FinishKeeps(s: State, w: Worker)
    requires Inv(s) && Enabled(s, Finish(w))
    ensures Inv(Next(s, Finish(w)))
  {
    assert Flat([]) == [];
  }

  /** Every step of every worker keeps the account. */
  lemma StepKeepsInv(s: State, l: Label)
    requires Inv(s) && Enabled(s, l)
    ensures Inv(Next(s, l))
  {
    hide Inv, Next;
    match l
    case Queue(id, row) => QueueKeeps(s, id, row);
    case Remove(ids) => RemoveKeeps(s, ids);
    case Claim(w, groups) => ClaimKeeps(s, w, groups);
    case Deliver(w) => DeliverKeeps(s, w);
    case Discard(w) => DiscardKeeps(s, w);
    case SendFails(w) => SendFailsKeeps(s, w);
    case Finish(w) => FinishKeeps(s, w);
    case Crash(w) => CrashKeeps(s, w);
  }
}
