/** `flush_digests` as one worker executes it. */
module DigestStore {
  import opened DigestClaims
  import opened DigestFlush

  // What happens to one group: the user is gone, has opted out or has no address; the mail server takes
  // the envelope; it does not; or some statement raises.
  datatype Outcome = Skipped | Accepted | Refused | Raises

  // The groups the mail server took, in order.
  function Taken(groups: seq<Group>, outcome: nat -> Outcome): seq<Group> {
    if groups == [] then [] else
    Taken(groups[..|groups|-1], outcome) + if outcome(|groups| - 1).Accepted? then [groups[|groups|-1]] else []
  }

  // The first n groups raise nothing.
  predicate RaisesLater(groups: seq<Group>, outcome: nat -> Outcome, n: nat) {
    n <= |groups| && forall i | 0 <= i < n :: !outcome(i).Raises?
  }

  // The k-th group is the first that raises; all are handled when k is their number.
  predicate FirstRaise(groups: seq<Group>, outcome: nat -> Outcome, k: nat) {
    RaisesLater(groups, outcome, k) && (k < |groups| ==> outcome(k).Raises?)
  }

  class Store {
    var sent: map<RowId, bool>
    var info: map<RowId, Info>
    var delivered: seq<Group>
    // The account of every row, and the jobs of every worker.
    ghost var account: State

    ghost predicate Valid() reads this {
      account.sent == sent && account.info == info && account.envelopes == delivered && Inv(account)
    }

    // One group of the loop; the release is the `else` of `if ok`.
    method HandleGroup(w: Worker, g: Group, outcome: Outcome) returns (raised: bool, ghost step: Label)
      requires Valid() && HasGroup(account, w) && Head(account, w) == g
      modifies this
      ensures Valid() && info == old(info)
      ensures Enabled(old(account), step) && account == Next(old(account), step)
      ensures raised == outcome.Raises?
      ensures account.jobs == old(account).jobs[w := if raised then Idle else Flushing(old(account).jobs[w].groups[1..])]
      ensures delivered == old(delivered) + if outcome.Accepted? then [g] else []
      ensures sent == if outcome.Refused? then Stamped(old(sent), IdSet(g.ids), false) else old(sent)
    {
      step := match outcome
        case Skipped => Discard(w)
        case Accepted => Deliver(w)
        case Refused => SendFails(w)
        case Raises => Crash(w);
      StepKeepsInv(account, step);
      hide Inv;
      account := Next(account, step);
      raised := outcome.Raises?;
      if outcome.Accepted? {
        delivered := delivered + [g];
      } else if outcome.Refused? {
        var ids := set i | i in g.ids;
        assert ids == IdSet(g.ids);
        sent := map o | o in sent :: if o in ids then false else sent[o];
      }
    }

    // `for (user_id, org_id), items in grouped.items():`
    method SendGroups(w: Worker, groups: seq<Group>, outcome: nat -> Outcome)
      returns (raised: bool, count: nat, ghost k: nat, ghost trace: seq<Label>)
      requires Valid() && w in account.jobs && account.jobs[w] == Flushing(groups) && Distinct(Flat(groups))
      requires forall id | id in Flat(groups) && id in sent :: sent[id]
      modifies this
      ensures Valid() && info == old(info)
      ensures CanRun(old(account), trace) && account == End(old(account), trace)
      ensures account.jobs == old(account).jobs[w := if raised then Idle else Flushing([])]
      ensures FirstRaise(groups, outcome, k) && raised == (k < |groups|)
      ensures |delivered| == |old(delivered)| + count && delivered == old(delivered) + Taken(groups[..k], outcome)
      ensures sent.Keys == old(sent).Keys && forall id | id in sent && id !in Flat(groups) :: sent[id] == old(sent)[id]
      ensures forall i, id | 0 <= i < |groups| && id in groups[i].ids && id in sent :: sent[id] == (k <= i || !outcome(i).Refused?)
    {
      hide *;
      ghost var start := account;
      raised, count, k, trace := false, 0, 0, [];
      EmptyRun(start);
      NothingTaken(groups, outcome);
      NoneRaised(groups, outcome);
      SentStart(groups, outcome, sent);
      var i := 0;
      while i < |groups|
        invariant i <= |groups| && Valid() && info == old(info) && !raised
        invariant CanRun(start, trace) && account == End(start, trace)
        invariant account.jobs == start.jobs[w := Flushing(groups[i..])]
        invariant |delivered| == |old(delivered)| + count && delivered == old(delivered) + Taken(groups[..i], outcome)
        invariant SentSoFar(groups, outcome, i, old(sent), sent) && RaisesLater(groups, outcome, i)
      {
        ghost var step, before := *, sent;
        HeadIs(account, w, groups, i);
        raised, step := HandleGroup(w, groups[i], outcome(i));
        RunSnoc(start, trace, step);
        trace := trace + [step];
        if raised {
          k := i;
          RaisesHere(groups, outcome, i);
          SentParts(groups, outcome, i, old(sent), sent);
          return;
        }
        SentNext(groups, outcome, i, old(sent), before, sent);
        TakenNext(groups, outcome, i);
        RaisesNext(groups, outcome, i);
        if outcome(i).Accepted? { count := count + 1; }
        i := i + 1;
      }
      k := |groups|;
      RaisesNowhere(groups, outcome);
      SentParts(groups, outcome, i, old(sent), sent);
      assert groups[..|groups|] == groups && groups[|groups|..] == [];
    }

    /** One flush of worker `w`; `order` is what the claim returns and `outcome(i)` what happens to the
        i-th group.  The claimed rows, sorted, are the groups laid end to end, and the k-th group is the first
        that raises, or k is their number.  The mail server has exactly the accepted groups among the first k,
        in order; a claimed row is unsent again exactly when its group is one of these and was refused, so rows
        of the raising group and of all after it stay claimed; and the count is the number of envelopes.  No
        other row changes. */
    method FlushDigests(w: Worker, order: seq<RowId>, outcome: nat -> Outcome)
      returns (raised: bool, count: nat, ghost groups: seq<Group>, ghost k: nat, ghost trace: seq<Label>)
      requires Valid() && w in account.jobs && account.jobs[w].Idle?
      requires Distinct(order) && forall id | id in order :: id in sent && !sent[id]
      modifies this
      ensures Valid() && info == old(info)
      ensures CanRun(old(account), trace) && account == End(old(account), trace)
      ensures account.jobs == old(account).jobs[w := Idle]
      ensures Known(info, order) && WellGrouped(info, groups) && Flat(groups) == Sorted(info, order)
      ensures FirstRaise(groups, outcome, k) && raised == (k < |groups|)
      ensures |delivered| == |old(delivered)| + count && delivered == old(delivered) + Taken(groups[..k], outcome)
      ensures sent.Keys == old(sent).Keys && forall id | id in sent && id !in order :: sent[id] == old(sent)[id]
      ensures forall i, id | 0 <= i < |groups| && id in groups[i].ids && id in sent :: sent[id] == (k <= i || !outcome(i).Refused?)
    {
      hide Next, CanRun, End, Enabled, Inv, Distinct, Sorted, WellGrouped, Known, Taken, Flat, FirstRaise;
      ghost var start := account;
      var envelopes;
      envelopes, trace := ClaimRows(w, order);
      groups := envelopes;
      ghost var more;
      raised, count, k, more := SendGroups(w, envelopes, outcome);
      RunAppend(start, trace, more);
      trace := trace + more;
      if raised { return; }
      FinishRun(start, trace, w);
      trace := trace + [Finish(w)];
      account := account.(jobs := account.jobs[w := Idle]);
    }

    // The claim and the grouping; `trace` is the claim as a step of the protocol.
    method ClaimRows(w: Worker, order: seq<RowId>) returns (groups: seq<Group>, ghost trace: seq<Label>)
      requires Valid() && w in account.jobs && account.jobs[w].Idle?
      requires Distinct(order) && forall id | id in order :: id in sent && !sent[id]
      modifies this
      ensures Valid() && info == old(info) && delivered == old(delivered)
      ensures CanRun(old(account), trace) && account == End(old(account), trace)
      ensures account.jobs == old(account).jobs[w := Flushing(groups)]
      ensures Known(info, order) && WellGrouped(info, groups) && Flat(groups) == Sorted(info, order) && Distinct(Flat(groups))
      ensures forall id :: id in Flat(groups) <==> id in order
      ensures sent.Keys == old(sent).Keys && forall id | id in sent :: sent[id] == (id in order || old(sent)[id])
    {
      hide Sorted, Coherent, Inv, Next, CanRun, End, Enabled, WellGrouped, Flat, Distinct, IdSet, Known;
      ghost var start := account;
      PendingKnown(start, order);
      groups := GroupRows(info, order);
      FlatMembers(groups, order);
      ClaimStep(start, w, groups, order);
      trace := [Claim(w, groups)];
      account := Next(account, Claim(w, groups));
      sent := map o | o in sent :: if o in order then true else sent[o];
    }
  }

  // The stamps after the first n groups: a group's rows follow its outcome, later groups' rows and all
  // others are as they were.
  ghost predicate SentSoFar(groups: seq<Group>, outcome: nat -> Outcome, n: nat, before: map<RowId, bool>, now: map<RowId, bool>) {
    && now.Keys == before.Keys
    && (forall id | id in now && id !in Flat(groups) :: now[id] == before[id])
    && (forall k, id | 0 <= k < n && k < |groups| && id in groups[k].ids && id in now :: now[id] == !outcome(k).Refused?)
    && (forall k, id | n <= k < |groups| && id in groups[k].ids && id in now :: now[id] == before[id])
  }

  lemma SentParts(groups: seq<Group>, outcome: nat -> Outcome, n: nat, before: map<RowId, bool>, now: map<RowId, bool>)
    requires SentSoFar(groups, outcome, n, before, now) && n <= |groups|
    requires forall id | id in Flat(groups) && id in before :: before[id]
    ensures now.Keys == before.Keys && forall id | id in now && id !in Flat(groups) :: now[id] == before[id]
    ensures forall i, id | 0 <= i < |groups| && id in groups[i].ids && id in now :: now[id] == (n <= i || !outcome(i).Refused?)
  {
    InFlat(groups);
    hide Flat;
  }

  lemma NoneRaised(groups: seq<Group>, outcome: nat -> Outcome)
    ensures RaisesLater(groups, outcome, 0)
  {}

  lemma RaisesNext(groups: seq<Group>, outcome: nat -> Outcome, i: nat)
    requires RaisesLater(groups, outcome, i) && i < |groups| && !outcome(i).Raises?
    ensures RaisesLater(groups, outcome, i + 1)
  {}

  lemma RaisesHere(groups: seq<Group>, outcome: nat -> Outcome, i: nat)
    requires RaisesLater(groups, outcome, i) && i < |groups| && outcome(i).Raises?
    ensures FirstRaise(groups, outcome, i)
  {}

  lemma RaisesNowhere(groups: seq<Group>, outcome: nat -> Outcome)
    requires RaisesLater(groups, outcome, |groups|)
    ensures FirstRaise(groups, outcome, |groups|)
  {}

  lemma HeadIs(s: State, w: Worker, groups: seq<Group>, i: nat)
    requires i < |groups| && w in s.jobs && s.jobs[w] == Flushing(groups[i..])
    ensures HasGroup(s, w) && Head(s, w) == groups[i] && s.jobs[w].groups[1..] == groups[i + 1..]
  {
  }

  lemma NothingTaken(groups: seq<Group>, outcome: nat -> Outcome)
    ensures Taken(groups[..0], outcome) == [] && groups[0..] == groups
  {
  }

  lemma SentStart(groups: seq<Group>, outcome: nat -> Outcome, sent: map<RowId, bool>)
    ensures SentSoFar(groups, outcome, 0, sent, sent)
  {
  }

  lemma SentNext(groups: seq<Group>, outcome: nat -> Outcome, n: nat, before: map<RowId, bool>, was: map<RowId, bool>, now: map<RowId, bool>)
    requires SentSoFar(groups, outcome, n, before, was) && n < |groups| && Distinct(Flat(groups))
    requires forall id | id in Flat(groups) && id in before :: before[id]
    requires now == if outcome(n).Refused? then Stamped(was, IdSet(groups[n].ids), false) else was
    ensures SentSoFar(groups, outcome, n + 1, before, now)
  {
    StampedAt(groups, outcome, n, was, now);
    hide Flat, Distinct, Stamped, IdSet, SentSoFar;
    forall id | id in now && id !in Flat(groups) ensures now[id] == before[id] {
      SentOther(groups, outcome, n, before, was, id);
    }
    forall k, id | 0 <= k < n + 1 && k < |groups| && id in groups[k].ids && id in now ensures now[id] == !outcome(k).Refused? {
      SentEarlier(groups, outcome, n, before, was, k, id);
    }
    forall k, id | n + 1 <= k < |groups| && id in groups[k].ids && id in now ensures now[id] == before[id] {
      SentLater(groups, outcome, n, before, was, k, id);
    }
    SentKeys(groups, outcome, n, before, was);
    SentHolds(groups, outcome, n + 1, before, now);
  }

  lemma SentHolds(groups: seq<Group>, outcome: nat -> Outcome, n: nat, before: map<RowId, bool>, now: map<RowId, bool>)
    requires now.Keys == before.Keys
    requires forall id | id in now && id !in Flat(groups) :: now[id] == before[id]
    requires forall k, id | 0 <= k < n && k < |groups| && id in groups[k].ids && id in now :: now[id] == !outcome(k).Refused?
    requires forall k, id | n <= k < |groups| && id in groups[k].ids && id in now :: now[id] == before[id]
    ensures SentSoFar(groups, outcome, n, before, now)
  {
  }

  lemma SentKeys(groups: seq<Group>, outcome: nat -> Outcome, n: nat, before: map<RowId, bool>, was: map<RowId, bool>)
    requires SentSoFar(groups, outcome, n, before, was)
    ensures was.Keys == before.Keys
  {
  }

  lemma SentOther(groups: seq<Group>, outcome: nat -> Outcome, n: nat, before: map<RowId, bool>, was: map<RowId, bool>, id: RowId)
    requires SentSoFar(groups, outcome, n, before, was) && n < |groups| && id in was && id !in Flat(groups)
    ensures id in before && was[id] == before[id] && id !in groups[n].ids
  {
    InFlat(groups);
  }

  lemma SentEarlier(groups: seq<Group>, outcome: nat -> Outcome, n: nat, before: map<RowId, bool>, was: map<RowId, bool>, k: nat, id: RowId)
    requires SentSoFar(groups, outcome, n, before, was) && Distinct(Flat(groups))
    requires k <= n < |groups| && id in groups[k].ids && id in was
    requires forall id | id in Flat(groups) && id in before :: before[id]
    ensures if k < n then was[id] == !outcome(k).Refused? && id !in groups[n].ids else was[id]
  {
    hide Flat, Distinct;
    if k < n {
      if id in groups[n].ids { ApartAt(groups, k, n, id); }
    } else {
      InFlat(groups);
      assert id in Flat(groups) && id in before && was[id] == before[id];
    }
  }

  lemma SentLater(groups: seq<Group>, outcome: nat -> Outcome, n: nat, before: map<RowId, bool>, was: map<RowId, bool>, k: nat, id: RowId)
    requires SentSoFar(groups, outcome, n, before, was) && Distinct(Flat(groups))
    requires n < k < |groups| && id in groups[k].ids && id in was
    ensures id in before && was[id] == before[id] && id !in groups[n].ids
  {
    hide Flat, Distinct;
    if id in groups[n].ids { ApartAt(groups, n, k, id); }
  }

  lemma StampedAt(groups: seq<Group>, outcome: nat -> Outcome, n: nat, was: map<RowId, bool>, now: map<RowId, bool>)
    requires n < |groups| && now == if outcome(n).Refused? then Stamped(was, IdSet(groups[n].ids), false) else was
    ensures now.Keys == was.Keys
    ensures forall id | id in was :: now[id] == if outcome(n).Refused? && id in groups[n].ids then false else was[id]
  {
  }

  lemma TakenNext(groups: seq<Group>, outcome: nat -> Outcome, n: nat)
    requires n < |groups|
    ensures Taken(groups[..n + 1], outcome) == Taken(groups[..n], outcome) + if outcome(n).Accepted? then [groups[n]] else []
  {
    assert groups[..n + 1][..n] == groups[..n];
  }

  lemma ClaimStep(s: State, w: Worker, groups: seq<Group>, order: seq<RowId>)
    requires Inv(s) && w in s.jobs && s.jobs[w].Idle? && WellGrouped(s.info, groups)
    requires forall id :: id in Flat(groups) <==> id in order
    requires forall id | id in order :: id in s.sent && !s.sent[id]
    ensures Enabled(s, Claim(w, groups)) && CanRun(s, [Claim(w, groups)])
    ensures var t := Next(s, Claim(w, groups));
            && End(s, [Claim(w, groups)]) == t && Inv(t)
            && t.info == s.info && t.envelopes == s.envelopes && t.jobs == s.jobs[w := Flushing(groups)]
            && t.sent == map o | o in s.sent :: if o in order then true else s.sent[o]
    ensures Distinct(Flat(groups))
  {
    hide Coherent, Inv;
    StepKeepsInv(s, Claim(w, groups));
    var t := Next(s, Claim(w, groups));
    assert t.sent == Stamped(s.sent, IdSet(Flat(groups)), true);
    OneStep(s, Claim(w, groups));
  }

  lemma OneStep(s: State, l: Label)
    requires Enabled(s, l)
    ensures CanRun(s, [l]) && End(s, [l]) == Next(s, l)
  {
    hide Enabled, Next;
    EmptyRun(s);
    RunSnoc(s, [], l);
    assert [] + [l] == [l];
  }

  lemma EmptyRun(s: State)
    ensures CanRun(s, []) && End(s, []) == s
  {}

  lemma {:induction false} RunAppend(s: State, a: seq<Label>, b: seq<Label>)
    requires CanRun(s, a) && CanRun(End(s, a), b)
    ensures CanRun(s, a + b) && End(s, a + b) == End(End(s, a), b)
    decreases |a|
  {
    hide Next, Enabled;
    if a == [] {
      assert a + b == b;
    } else {
      RunAppend(Next(s, a[0]), a[1..], b);
      assert (a + b)[1..] == a[1..] + b;
    }
  }

  lemma FinishRun(s: State, trace: seq<Label>, w: Worker)
    requires CanRun(s, trace) && w in End(s, trace).jobs && End(s, trace).jobs[w] == Flushing([]) && Inv(End(s, trace))
    ensures CanRun(s, trace + [Finish(w)])
    ensures End(s, trace + [Finish(w)]) == End(s, trace).(jobs := End(s, trace).jobs[w := Idle])
    ensures Inv(End(s, trace + [Finish(w)]))
  {
    StepKeepsInv(End(s, trace), Finish(w));
    RunSnoc(s, trace, Finish(w));
  }

  lemma PendingKnown(s: State, order: seq<RowId>)
    requires Inv(s) && forall id | id in order :: id in s.sent && !s.sent[id]
    ensures Known(s.info, order)
  {}

  lemma FlatMembers(groups: seq<Group>, order: seq<RowId>)
    requires multiset(Flat(groups)) == multiset(order)
    ensures forall id :: id in Flat(groups) <==> id in order
    ensures IdSet(Flat(groups)) == IdSet(order)
  {
    forall id ensures id in Flat(groups) <==> id in order {
      assert id in multiset(Flat(groups)) <==> id in multiset(order);
    }
  }

  lemma {:induction false} InFlat(groups: seq<Group>)
    ensures forall i, id | 0 <= i < |groups| && id in groups[i].ids :: id in Flat(groups)
    ensures forall id | id in Flat(groups) :: InSome(groups, id)
  {
    if groups != [] {
      InFlat(groups[1..]);
      forall i, id | 0 <= i < |groups| && id in groups[i].ids ensures id in Flat(groups) {
        if i > 0 { assert groups[1..][i - 1] == groups[i]; }
      }
      forall id | id in Flat(groups) ensures InSome(groups, id) {
        if id !in groups[0].ids { InRest(groups, id); } else { InHead(groups, id); }
      }
    }
  }

  predicate InSome(groups: seq<Group>, id: RowId) { exists i :: 0 <= i < |groups| && id in groups[i].ids }

  lemma InHead(groups: seq<Group>, id: RowId)
    requires groups != [] && id in groups[0].ids
    ensures InSome(groups, id)
  {}

  lemma InRest(groups: seq<Group>, id: RowId)
    requires groups != [] && InSome(groups[1..], id)
    ensures InSome(groups, id)
  {
    var k :| 0 <= k < |groups[1..]| && id in groups[1..][k].ids;
    assert groups[k + 1] == groups[1..][k];
  }

  // A row in two groups is twice in the flat list.
  lemma {:induction false} ApartAt(groups: seq<Group>, i: nat, k: nat, id: RowId)
    requires i < k < |groups| && id in groups[i].ids && id in groups[k].ids
    ensures !Distinct(Flat(groups))
  {
    var a, b := groups[0].ids, Flat(groups[1..]);
    assert groups[1..][k - 1] == groups[k];
    InFlat(groups[1..]);
    if i == 0 {
      assert id in a && id in b;
      var x :| 0 <= x < |a| && a[x] == id;
      var y :| 0 <= y < |b| && b[y] == id;
      assert (a + b)[x] == (a + b)[|a| + y];
    } else {
      assert groups[1..][i - 1] == groups[i];
      ApartAt(groups[1..], i - 1, k - 1, id);
      var x, y :| 0 <= x < y < |b| && b[x] == b[y];
      assert (a + b)[|a| + x] == (a + b)[|a| + y];
    }
  }
}
