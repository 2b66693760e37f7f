/** `flush_digests`: sorting, grouping and the send loop of one worker, and what holds over every run of
    all of them. */
module DigestFlush {
  import opened DigestClaims

  /*************** runs ***************/

  predicate CanRun(s: State, ls: seq<Label>)
    decreases |ls|
  {
    ls == [] || (Enabled(s, ls[0]) && CanRun(Next(s, ls[0]), ls[1..]))
  }

  function End(s: State, ls: seq<Label>): State
    requires CanRun(s, ls)
    decreases |ls|
  {
    if ls == [] then s else End(Next(s, ls[0]), ls[1..])
  }

  lemma {:induction false} RunKeepsInv(s: State, ls: seq<Label>)
    requires Inv(s) && CanRun(s, ls)
    ensures Inv(End(s, ls))
    decreases |ls|
  {
    hide Inv, Next, Enabled;
    if ls != [] {
      StepKeepsInv(s, ls[0]);
      RunKeepsInv(Next(s, ls[0]), ls[1..]);
    }
  }

  lemma {:induction false} RunSnoc(s: State, ls: seq<Label>, l: Label)
    requires CanRun(s, ls) && Enabled(End(s, ls), l)
    ensures CanRun(s, ls + [l]) && End(s, ls + [l]) == Next(End(s, ls), l)
    decreases |ls|
  {
    hide Next, Enabled;
    if ls == [] {
      assert [] + [l] == [l] && [l][1..] == [];
    } else {
      RunSnoc(Next(s, ls[0]), ls[1..], l);
      assert (ls + [l])[1..] == ls[1..] + [l];
    }
  }

  /** Over any run of any number of workers: no row is in two envelopes or twice in one, and every
      envelope holds rows of one user and one organisation in the order they were queued. */
  lemma AtMostOneEnvelope(s: State, ls: seq<Label>)
    requires Inv(s) && CanRun(s, ls)
    ensures Distinct(Flat(End(s, ls).envelopes))
    ensures forall g | g in End(s, ls).envelopes :: Coherent(End(s, ls).info, g)
    ensures forall id | id in Flat(End(s, ls).envelopes) :: id in End(s, ls).fates && End(s, ls).fates[id] == Delivered
  {
    RunKeepsInv(s, ls);
    hide CanRun, End, TableAgree, QueuesAgree;
  }

  /** A failed send returns exactly the rows of its group that are still in the table to pending, and
      changes no other row. */
  lemma FailedSendReleases(s: State, w: Worker)
    requires Inv(s) && HasGroup(s, w)
    ensures var t := Next(s, SendFails(w));
            && (forall id | id in Head(s, w).ids && id in s.sent :: s.sent[id] && !t.sent[id] && t.fates[id] == Pending)
            && (forall id | id in s.sent && id !in Head(s, w).ids :: t.sent[id] == s.sent[id] && t.fates[id] == s.fates[id])
            && t.envelopes == s.envelopes
  {
    HeadIds(s, w);
    hide QueuesAgree, EnvelopesAgree;
    assert forall id | id in Head(s, w).ids :: id in s.fates && s.fates[id].Claimed?;
  }

  /*************** sorting ***************/

  // `key=lambda r: (r["user_id"], r["organization_id"], r["queued_at"])`
  predicate Le(a: Info, b: Info) {
    a.user < b.user || (a.user == b.user && (a.org < b.org || (a.org == b.org && a.queuedAt <= b.queuedAt)))
  }

  predicate Known(info: map<RowId, Info>, ids: seq<RowId>) { forall id | id in ids :: id in info }

  function Insert(info: map<RowId, Info>, id: RowId, ids: seq<RowId>): (r: seq<RowId>)
    requires Known(info, [id] + ids)
  {
    assert forall k | k in ids :: k in [id] + ids;
    assert id in [id] + ids;
    if ids == [] || !Le(info[ids[0]], info[id]) then [id] + ids
    else assert Known(info, [id] + ids[1..]); [ids[0]] + Insert(info, id, ids[1..])
  }

  // A stable sort: a later row goes after the earlier ones it ties with.
  function Sorted(info: map<RowId, Info>, ids: seq<RowId>): (r: seq<RowId>)
    requires Known(info, ids)
    ensures multiset(r) == multiset(ids)
  {
    if ids == [] then [] else
    var n := |ids| - 1;
    assert ids == ids[..n] + [ids[n]];
    var r := Sorted(info, ids[..n]);
    assert Known(info, [ids[n]] + r) by {
      forall k | k in [ids[n]] + r ensures k in info { if k in r { assert k in multiset(r); assert k in ids[..n]; } }
    }
    InsertKeeps(info, ids[n], r);
    Insert(info, ids[n], r)
  }

  lemma {:induction false} InsertKeeps(info: map<RowId, Info>, id: RowId, ids: seq<RowId>)
    requires Known(info, [id] + ids)
    ensures multiset(Insert(info, id, ids)) == multiset([id] + ids)
  {
    assert forall k | k in ids :: k in [id] + ids;
    if ids != [] && Le(info[ids[0]], info[id]) {
      assert Known(info, [id] + ids[1..]);
      InsertKeeps(info, id, ids[1..]);
      assert ids == [ids[0]] + ids[1..];
    }
  }

  predicate InOrder(info: map<RowId, Info>, ids: seq<RowId>) {
    forall i, j | 0 <= i < j < |ids| :: ids[i] in info && ids[j] in info && Le(info[ids[i]], info[ids[j]])
  }

  lemma {:induction false} InsertOrders(info: map<RowId, Info>, id: RowId, ids: seq<RowId>)
    requires Known(info, [id] + ids) && InOrder(info, ids)
    ensures InOrder(info, Insert(info, id, ids))
  {
    assert forall k | k in ids :: k in [id] + ids;
    assert id in [id] + ids;
    var r := Insert(info, id, ids);
    if ids == [] {
    } else if !Le(info[ids[0]], info[id]) {
      forall i, j | 0 <= i < j < |r| ensures Le(info[r[i]], info[r[j]]) && r[i] in info && r[j] in info {
        if i == 0 { assert r[j] == ids[j - 1]; if j > 1 { assert Le(info[ids[0]], info[ids[j - 1]]); } }
        else { assert r[i] == ids[i - 1] && r[j] == ids[j - 1]; }
      }
    } else {
      assert Known(info, [id] + ids[1..]);
      InsertOrders(info, id, ids[1..]);
      InsertKeeps(info, id, ids[1..]);
      var rest := Insert(info, id, ids[1..]);
      forall j | 0 <= j < |rest| ensures rest[j] in info && Le(info[ids[0]], info[rest[j]]) {
        assert rest[j] in multiset(rest);
        assert rest[j] in multiset([id] + ids[1..]);
        if rest[j] != id {
          assert rest[j] in ids[1..];
          var k :| 0 <= k < |ids[1..]| && ids[1..][k] == rest[j];
          assert ids[k + 1] == rest[j];
        }
      }
    }
  }

  lemma {:induction false} SortedInOrder(info: map<RowId, Info>, ids: seq<RowId>)
    requires Known(info, ids)
    ensures InOrder(info, Sorted(info, ids))
  {
    if ids != [] {
      var n := |ids| - 1;
      assert ids == ids[..n] + [ids[n]];
      SortedInOrder(info, ids[..n]);
      var r := Sorted(info, ids[..n]);
      forall k | k in [ids[n]] + r ensures k in info { if k in r { assert k in multiset(r); assert k in ids[..n]; } }
      InsertOrders(info, ids[n], r);
    }
  }

  lemma DistinctFromMultiset(a: seq<RowId>, b: seq<RowId>)
    requires multiset(a) == multiset(b) && Distinct(a)
    ensures Distinct(b)
  {
    forall i, j | 0 <= i < j < |b| ensures b[i] != b[j] {
      if b[i] == b[j] {
        TwiceCounts(b, i, j);
        OnceCounts(a, b[i]);
      }
    }
  }

  lemma TwiceCounts(b: seq<RowId>, i: int, j: int)
    requires 0 <= i < j < |b| && b[i] == b[j]
    ensures multiset(b)[b[i]] >= 2
  {
    assert b == b[..i] + [b[i]] + b[i+1..j] + [b[j]] + b[j+1..];
  }

  lemma {:induction false} OnceCounts(a: seq<RowId>, x: RowId)
    requires Distinct(a)
    ensures multiset(a)[x] <= 1
  {
    if a != [] {
      var n := |a| - 1;
      assert a == a[..n] + [a[n]];
      OnceCounts(a[..n], x);
      if x == a[n] { assert x !in a[..n]; assert x !in multiset(a[..n]); }
    }
  }

  /*************** grouping ***************/

  function KeyOf(info: map<RowId, Info>, id: RowId): (User, Org) requires id in info { (info[id].user, info[id].org) }

  // `grouped.items()`: the dict in insertion order.
  function Items(keys: seq<(User, Org)>, grouped: map<(User, Org), seq<RowId>>): seq<Group>
    requires forall k | k in keys :: k in grouped
  {
    seq(|keys|, i requires 0 <= i < |keys| => assert keys[i] in keys; Group(keys[i].0, keys[i].1, grouped[keys[i]]))
  }

  predicate KeyLt(a: (User, Org), b: (User, Org)) { a.0 < b.0 || (a.0 == b.0 && a.1 < b.1) }

  // The dict after the first n rows of a sorted list.
  ghost predicate GroupedSoFar(info: map<RowId, Info>, rows: seq<RowId>, n: nat, keys: seq<(User, Org)>, grouped: map<(User, Org), seq<RowId>>) {
    && n <= |rows| && Known(info, rows)
    && (forall k :: k in keys <==> k in grouped)
    && (forall i, j | 0 <= i < j < |keys| :: KeyLt(keys[i], keys[j]))
    && Flat(Items(keys, grouped)) == rows[..n]
    && (forall k | k in grouped :: grouped[k] != [] && forall id | id in grouped[k] :: id in info && KeyOf(info, id) == k)
    && (n > 0 ==> keys != [] && keys[|keys|-1] == KeyOf(info, rows[n-1]))
    && (n == 0 ==> keys == [])
  }

  // `setdefault(k, []).append(row)`
  function KeysWith(keys: seq<(User, Org)>, grouped: map<(User, Org), seq<RowId>>, k: (User, Org)): seq<(User, Org)> {
    if k in grouped then keys else keys + [k]
  }

  function DictWith(grouped: map<(User, Org), seq<RowId>>, k: (User, Org), id: RowId): map<(User, Org), seq<RowId>> {
    grouped[k := (if k in grouped then grouped[k] else []) + [id]]
  }

  lemma GroupSame(info: map<RowId, Info>, rows: seq<RowId>, n: nat, keys: seq<(User, Org)>, grouped: map<(User, Org), seq<RowId>>)
    requires GroupedSoFar(info, rows, n, keys, grouped) && n < |rows| && InOrder(info, rows) && KeyOf(info, rows[n]) in grouped
    ensures GroupedSoFar(info, rows, n + 1, keys, DictWith(grouped, KeyOf(info, rows[n]), rows[n]))
  {
    var k := KeyOf(info, rows[n]);
    var grouped' := DictWith(grouped, k, rows[n]);
    var before, after := Items(keys, grouped), Items(keys, grouped');
    var m := |keys| - 1;
    LastKey(info, rows, n, keys, grouped);
    assert rows[..n+1] == rows[..n] + [rows[n]];
    forall i | 0 <= i < m ensures keys[i] != k { assert KeyLt(keys[i], keys[m]); }
    LastItemGrows(keys, grouped, grouped', k);
    FlatSnoc(before[..m], before[m]);
    FlatSnoc(before[..m], after[m]);
  }

  lemma LastItemGrows(keys: seq<(User, Org)>, grouped: map<(User, Org), seq<RowId>>, grouped': map<(User, Org), seq<RowId>>, k: (User, Org))
    requires (forall j | j in keys :: j in grouped && j in grouped') && keys != [] && keys[|keys|-1] == k
    requires forall j | j in grouped && j != k :: j in grouped' && grouped'[j] == grouped[j]
    requires forall i | 0 <= i < |keys| - 1 :: keys[i] != k
    ensures var m, before, after := |keys| - 1, Items(keys, grouped), Items(keys, grouped');
            |before| == |keys| == |after| && before == before[..m] + [before[m]] && after == before[..m] + [after[m]]
  {
    var m, before, after := |keys| - 1, Items(keys, grouped), Items(keys, grouped');
    forall i | 0 <= i < m ensures after[i] == before[i] { assert keys[i] in keys && keys[i] in grouped; }
    assert |before| == |after| == m + 1;
    assert before == before[..m] + [before[m]];
    assert after == after[..m] + [after[m]];
    assert after[..m] == before[..m];
  }

  lemma ItemAdded(keys: seq<(User, Org)>, grouped: map<(User, Org), seq<RowId>>, k: (User, Org), ids: seq<RowId>)
    requires (forall j | j in keys :: j in grouped) && k !in grouped
    ensures forall j | j in keys + [k] :: j in grouped[k := ids]
    ensures Items(keys + [k], grouped[k := ids]) == Items(keys, grouped) + [Group(k.0, k.1, ids)]
  {
    var a, b := Items(keys + [k], grouped[k := ids]), Items(keys, grouped);
    forall i | 0 <= i < |keys| ensures a[i] == b[i] { assert keys[i] in keys; }
    assert a[..|keys|] == b;
    assert a == a[..|keys|] + [a[|keys|]];
  }

  lemma GroupNew(info: map<RowId, Info>, rows: seq<RowId>, n: nat, keys: seq<(User, Org)>, grouped: map<(User, Org), seq<RowId>>)
    requires GroupedSoFar(info, rows, n, keys, grouped) && n < |rows| && InOrder(info, rows) && KeyOf(info, rows[n]) !in grouped
    ensures GroupedSoFar(info, rows, n + 1, keys + [KeyOf(info, rows[n])], DictWith(grouped, KeyOf(info, rows[n]), rows[n]))
  {
    var k := KeyOf(info, rows[n]);
    var grouped' := DictWith(grouped, k, rows[n]);
    assert rows[..n+1] == rows[..n] + [rows[n]];
    forall i | 0 <= i < |keys| ensures keys[i] != k && KeyLt(keys[i], k) {
      assert keys[i] in keys && keys[|keys|-1] in keys;
      assert Le(info[rows[n-1]], info[rows[n]]);
      if i < |keys| - 1 { assert KeyLt(keys[i], keys[|keys|-1]); }
    }
    ItemAdded(keys, grouped, k, [rows[n]]);
    assert [] + [rows[n]] == [rows[n]];
    assert grouped' == grouped[k := [rows[n]]];
    FlatSnoc(Items(keys, grouped), Group(k.0, k.1, [rows[n]]));
  }

  lemma GroupNext(info: map<RowId, Info>, rows: seq<RowId>, n: nat, keys: seq<(User, Org)>, grouped: map<(User, Org), seq<RowId>>)
    requires GroupedSoFar(info, rows, n, keys, grouped) && n < |rows| && InOrder(info, rows)
    ensures rows[n] in info
    ensures GroupedSoFar(info, rows, n + 1, KeysWith(keys, grouped, KeyOf(info, rows[n])), DictWith(grouped, KeyOf(info, rows[n]), rows[n]))
  {
    hide GroupedSoFar, InOrder, DictWith;
    RowKnown(info, rows, n, keys, grouped);
    if KeyOf(info, rows[n]) in grouped { GroupSame(info, rows, n, keys, grouped); } else { GroupNew(info, rows, n, keys, grouped); }
  }

  lemma RowKnown(info: map<RowId, Info>, rows: seq<RowId>, n: nat, keys: seq<(User, Org)>, grouped: map<(User, Org), seq<RowId>>)
    requires GroupedSoFar(info, rows, n, keys, grouped)
    ensures n <= |rows| && (n < |rows| ==> rows[n] in info) && forall k | k in keys :: k in grouped
  {
    if n < |rows| { assert rows[n] in rows; }
  }

  // In sorted order a key that was seen is the last one.
  lemma LastKey(info: map<RowId, Info>, rows: seq<RowId>, n: nat, keys: seq<(User, Org)>, grouped: map<(User, Org), seq<RowId>>)
    requires GroupedSoFar(info, rows, n, keys, grouped) && n < |rows| && InOrder(info, rows) && KeyOf(info, rows[n]) in grouped
    ensures keys != [] && keys[|keys|-1] == KeyOf(info, rows[n])
  {
    var k := KeyOf(info, rows[n]);
    assert k in keys;
    var i :| 0 <= i < |keys| && keys[i] == k;
    assert n > 0;
    assert Le(info[rows[n-1]], info[rows[n]]);
  }

  lemma GroupsAreWell(info: map<RowId, Info>, rows: seq<RowId>, keys: seq<(User, Org)>, grouped: map<(User, Org), seq<RowId>>)
    requires GroupedSoFar(info, rows, |rows|, keys, grouped) && InOrder(info, rows) && Distinct(rows)
    ensures WellGrouped(info, Items(keys, grouped))
  {
    var gs := Items(keys, grouped);
    assert rows[..|rows|] == rows;
    forall i | 0 <= i < |gs| ensures Coherent(info, gs[i]) {
      assert keys[i] in keys;
      var at := FlatAt(gs, i);
      forall a, b | 0 <= a < b < |gs[i].ids| ensures info[gs[i].ids[a]].queuedAt <= info[gs[i].ids[b]].queuedAt {
        assert rows[at + a] == gs[i].ids[a] && rows[at + b] == gs[i].ids[b];
        assert Le(info[rows[at + a]], info[rows[at + b]]);
        assert gs[i].ids[a] in gs[i].ids && gs[i].ids[b] in gs[i].ids;
      }
    }
    forall i, j | 0 <= i < j < |gs| ensures (gs[i].user, gs[i].org) != (gs[j].user, gs[j].org) {
      assert KeyLt(keys[i], keys[j]);
    }
  }

  // Where group i starts in the flat list.
  lemma {:induction false} FlatAt(groups: seq<Group>, i: nat) returns (at: nat)
    requires i < |groups|
    ensures at + |groups[i].ids| <= |Flat(groups)|
    ensures forall k | 0 <= k < |groups[i].ids| :: Flat(groups)[at + k] == groups[i].ids[k]
  {
    if i == 0 {
      at := 0;
    } else {
      at := FlatAt(groups[1..], i - 1);
      assert groups[1..][i - 1] == groups[i];
      at := at + |groups[0].ids|;
    }
  }

  /** The envelopes of one flush partition the claimed rows by user and organisation: laid end to end
      they are the claimed rows, sorted, with none missing and none twice. */
  method GroupRows(info: map<RowId, Info>, rows: seq<RowId>) returns (groups: seq<Group>)
    requires Known(info, rows) && Distinct(rows)
    ensures WellGrouped(info, groups)
    ensures Flat(groups) == Sorted(info, rows) && multiset(Flat(groups)) == multiset(rows)
  {
    var sorted := SortRows(info, rows);
    hide *;
    var keys, grouped := GroupSorted(info, sorted);
    GroupsAreWell(info, sorted, keys, grouped);
    FlatIs(info, sorted, keys, grouped);
    groups := Items(keys, grouped);
  }

  // The loop over the sorted rows.
  method GroupSorted(info: map<RowId, Info>, sorted: seq<RowId>)
      returns (keys: seq<(User, Org)>, grouped: map<(User, Org), seq<RowId>>)
    requires InOrder(info, sorted) && Known(info, sorted)
    ensures GroupedSoFar(info, sorted, |sorted|, keys, grouped)
  {
    hide *;
    keys, grouped := [], map[];
    StartGrouping(info, sorted);
    var i := 0;
    while i < |sorted|
      invariant i <= |sorted| && GroupedSoFar(info, sorted, i, keys, grouped)
    {
      GroupNext(info, sorted, i, keys, grouped);
      keys, grouped := AppendTo(keys, grouped, KeyOf(info, sorted[i]), sorted[i]);
      i := i + 1;
    }
  }

  // `grouped.setdefault(key, []).append(row)`; `keys` is the dict's insertion order.
  method AppendTo(keys: seq<(User, Org)>, grouped: map<(User, Org), seq<RowId>>, k: (User, Org), id: RowId)
      returns (keys': seq<(User, Org)>, grouped': map<(User, Org), seq<RowId>>)
    ensures keys' == KeysWith(keys, grouped, k) && grouped' == DictWith(grouped, k, id)
  {
    hide KeysWith, DictWith;
    AppendRow(keys, grouped, k, id);
    keys', grouped' := keys, grouped;
    if k !in grouped' {
      keys', grouped' := keys' + [k], grouped'[k := []];
    }
    grouped' := grouped'[k := grouped'[k] + [id]];
  }

  method SortRows(info: map<RowId, Info>, rows: seq<RowId>) returns (sorted: seq<RowId>)
    requires Known(info, rows) && Distinct(rows)
    ensures sorted == Sorted(info, rows) && InOrder(info, sorted) && Distinct(sorted) && Known(info, sorted)
  {
    sorted := Sorted(info, rows);
    SortedInOrder(info, rows);
    DistinctFromMultiset(rows, sorted);
    forall k | k in sorted ensures k in info { assert k in multiset(sorted); assert k in rows; }
  }

  lemma StartGrouping(info: map<RowId, Info>, rows: seq<RowId>)
    requires Known(info, rows)
    ensures GroupedSoFar(info, rows, 0, [], map[])
  {
    assert Items([], map[]) == [];
  }

  lemma FlatIs(info: map<RowId, Info>, rows: seq<RowId>, keys: seq<(User, Org)>, grouped: map<(User, Org), seq<RowId>>)
    requires GroupedSoFar(info, rows, |rows|, keys, grouped)
    ensures forall k | k in keys :: k in grouped
    ensures Flat(Items(keys, grouped)) == rows
  {
    assert rows[..|rows|] == rows;
  }

  lemma AppendRow(keys: seq<(User, Org)>, grouped: map<(User, Org), seq<RowId>>, k: (User, Org), id: RowId)
    ensures k in grouped ==> KeysWith(keys, grouped, k) == keys && DictWith(grouped, k, id) == grouped[k := grouped[k] + [id]]
    ensures k !in grouped ==> KeysWith(keys, grouped, k) == keys + [k]
    ensures k !in grouped ==> DictWith(grouped, k, id) == grouped[k := []][k := [] + [id]]
  {}
}
