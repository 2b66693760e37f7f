/** `list_assets` from filters to pages: count, sort, LIMIT and OFFSET.

    A table is given as the rows in the physical order the engine meets them in, which may differ from one
    query to the next; sorting leaves rows with equal keys in that order. */
module AssetPaging {
  import opened Options
  import opened AssetFilters

  datatype Result<+T> = Ok(value: T) | Err(error: Error)

  datatype SortBy = ByName | ByKind | ByStatus | ByOwner | ByCreated | ByUpdated | ByMeta(key: string, numeric: bool)

  // Collation order of texts, value of a numeric cast, and which custom fields are integers.
  datatype Engine = Engine(collate: string -> int, number: string -> int, integerField: (string, string) -> bool)

  datatype Sorting = Sorting(column: SortBy, desc: bool, engine: Engine)

  const META := "meta."

  function ResolveSort(sort: string, order: string, kind: Option<string>, engine: Engine): Sorting {
    var column :=
      if META <= sort && SafeKey(sort[|META|..]) then
        ByMeta(sort[|META|..], kind.Some? && engine.integerField(kind.value, sort[|META|..]))
      else if sort == "type" then ByKind
      else if sort == "status" then ByStatus
      else if sort == "owner" then ByOwner
      else if sort == "created_at" then ByCreated
      else if sort == "updated_at" then ByUpdated
      else ByName;
    Sorting(column, order == "desc", engine)
  }

  predicate Digit(c: char) { '0' <= c <= '9' }

  // ^-?[0-9.]+$
  predicate LooksNumeric(s: string) {
    var body := Unsigned(s);
    body != "" && forall c | c in body :: Digit(c) || c == '.'
  }

  function Unsigned(s: string): string { if s != "" && s[0] == '-' then s[1..] else s }

  function DropDigits(s: string): string { if s != "" && Digit(s[0]) then DropDigits(s[1..]) else s }

  function DropZeros(s: string): string { if s != "" && s[0] == '0' then DropZeros(s[1..]) else s }

  // What PostgreSQL's numeric holds before the point, leading zeros aside, and after it.
  const WHOLE := 131072
  const DECIMALS := 16383

  // The cast to numeric, on such texts: digits, at most one point with digits after it, a digit somewhere,
  // and no more digits than the type holds.
  predicate Castable(s: string) {
    Numeral(Unsigned(s)) && Fits(Unsigned(s))
  }

  predicate Fits(s: string) { |DropZeros(s)| - |DropDigits(s)| <= WHOLE && |DropDigits(s)| <= 1 + DECIMALS }

  predicate Numeral(s: string) {
    var rest := DropDigits(s);
    if rest == "" then s != "" else rest[0] == '.' && DropDigits(rest[1..]) == "" && |s| > 1
  }

  function KeyOf(o: Sorting, row: Row): Option<int> {
    match o.column
    case ByName => Some(o.engine.collate(row.name))
    case ByKind => Some(o.engine.collate(row.kind))
    case ByStatus => Some(o.engine.collate(row.status))
    case ByOwner => if row.owner.None? then None else Some(o.engine.collate(row.owner.value))
    case ByCreated => Some(row.created)
    case ByUpdated => Some(row.updated)
    case ByMeta(key, numeric) =>
      var text := MetaText(row, key);
      if text.None? then None
      else if !numeric then Some(o.engine.collate(text.value))
      else if LooksNumeric(text.value) then Some(o.engine.number(text.value)) else None
  }

  predicate BreaksCast(o: Sorting, row: Row) {
    o.column.ByMeta? && o.column.numeric && var text := MetaText(row, o.column.key);
    text.Some? && LooksNumeric(text.value) && !Castable(text.value)
  }

  // ... NULLS LAST, in either direction.
  predicate MayPrecede(o: Sorting, a: Row, b: Row) {
    var (x, y) := (KeyOf(o, a), KeyOf(o, b));
    y.None? || (x.Some? && if o.desc then y.value <= x.value else x.value <= y.value)
  }

  predicate Ordered(o: Sorting, rows: seq<Row>) {
    forall i, j | 0 <= i < j < |rows| :: MayPrecede(o, rows[i], rows[j])
  }

  predicate Tied(o: Sorting, a: Row, b: Row) { KeyOf(o, a) == KeyOf(o, b) }

  predicate Untied(o: Sorting, rows: seq<Row>) {
    forall i, j | 0 <= i < j < |rows| :: !Tied(o, rows[i], rows[j])
  }

  function Insert(o: Sorting, row: Row, rows: seq<Row>): seq<Row> {
    if rows == [] || MayPrecede(o, row, rows[0]) then [row] + rows
    else [rows[0]] + Insert(o, row, rows[1..])
  }

  function Arrange(o: Sorting, rows: seq<Row>): seq<Row> {
    if rows == [] then [] else Insert(o, rows[0], Arrange(o, rows[1..]))
  }

  function Selected(rows: seq<Row>, w: World, f: Filters): seq<Row> {
    if rows == [] then []
    else if Requested(w, f, rows[0]) then [rows[0]] + Selected(rows[1..], w, f) else Selected(rows[1..], w, f)
  }

  function Min(a: int, b: int): int { if a <= b then a else b }

  function Window<T>(s: seq<T>, offset: nat, limit: nat): seq<T> {
    s[Min(offset, |s|)..Min(offset + limit, |s|)]
  }

  // What a call answers.
  function Answer(table: seq<Row>, w: World, f: Filters, o: Sorting, page: int, size: int): Result<(seq<Row>, nat)> {
    var rows, offset := Selected(table, w, f), (page - 1) * size;
    if Refusal(w, f).Some? then Err(Refusal(w, f).value)
    else if offset < 0 then Err(NegativeOffset)
    else if size < 0 then Err(NegativeLimit)
    else if size > 0 && exists r | r in rows :: BreaksCast(o, r) then Err(BadNumber)
    else Ok((Window(Arrange(o, rows), offset, size), |rows|))
  }

  /*************** the call ***************/

  // The rows the WHERE keeps.
  method Filtered(table: seq<Row>, parts: seq<Clause>, vals: seq<Value>, w: World, ghost f: Filters) returns (rows: seq<Row>)
    requires AllBound(parts, vals)
    requires forall row: Row :: Where(parts, vals, w, row) == Yes <==> Requested(w, f, row)
    ensures rows == Selected(table, w, f)
  {
    hide Where, Requested;
    rows := [];
    var i := |table|;
    while i > 0
      invariant 0 <= i <= |table|
      invariant rows == Selected(table[i..], w, f)
    {
      i := i - 1;
      assert table[i..][1..] == table[i + 1..];
      if Where(parts, vals, w, table[i]) == Yes { rows := [table[i]] + rows; }
    }
    assert table[0..] == table;
  }

  // ORDER BY ... LIMIT $n OFFSET $m over the rows the WHERE kept.
  method Fetch(rows: seq<Row>, o: Sorting, vals: seq<Value>, n: nat, m: nat) returns (r: Result<seq<Row>>)
    requires 1 <= n <= |vals| && vals[n - 1].Number? && 1 <= m <= |vals| && vals[m - 1].Number?
    ensures var (limit, offset) := (vals[n - 1].n, vals[m - 1].n);
            r == if offset < 0 then Err(NegativeOffset)
                 else if limit < 0 then Err(NegativeLimit)
                 else if limit > 0 && exists row | row in rows :: BreaksCast(o, row) then Err(BadNumber)
                 else Ok(Window(Arrange(o, rows), offset, limit))
  {
    hide BreaksCast;
    var limit, offset := vals[n - 1].n, vals[m - 1].n;
    if offset < 0 { return Err(NegativeOffset); }
    if limit < 0 { return Err(NegativeLimit); }
    if limit > 0 {
      for i := 0 to |rows|
        invariant forall j | 0 <= j < i :: !BreaksCast(o, rows[j])
      {
        if BreaksCast(o, rows[i]) { return Err(BadNumber); }
      }
    }
    r := Ok(Window(Arrange(o, rows), offset, limit));
  }

  /** `list_assets`: the total counts, and the page is cut from, exactly the rows that meet every requested
      filter; the two extra values bound at the end land in LIMIT and OFFSET.  `first` and `second` are the
      orders the count and the page query meet the rows in. */
  method ListAssets(first: seq<Row>, second: seq<Row>, w: World, f: Filters, engine: Engine, page: int, size: int,
                    sort: string, order: string) returns (r: Result<(seq<Row>, nat)>)
    requires multiset(first) == multiset(second)
    ensures r == Answer(second, w, f, ResolveSort(sort, order, f.kind, engine), page, size)
    ensures r.Ok? ==> AsRequested(r.value.0, sort, order, f.kind, engine)
  {
    AnswerAsRequested(second, w, f, engine, page, size, sort, order);
    hide Where, Requested, Refusal, ResolveSort, Selected, Arrange, BreaksCast, AsRequested;
    var error, parts, vals, idx := BuildWhere(f, w);
    if error.Some? { return Err(error.value); }
    var counted := Filtered(first, parts, vals, w, f);
    var total := |counted|;
    SameSelection(first, second, w, f);
    var o := ResolveSort(sort, order, f.kind, engine);
    var rows := Filtered(second, parts, vals, w, f);
    assert |rows| == |multiset(rows)| && |counted| == |multiset(counted)|;
    vals := vals + [Number(size)];
    vals := vals + [Number((page - 1) * size)];
    var fetched := Fetch(rows, o, vals, idx, idx + 1);
    if fetched.Err? { return Err(fetched.error); }
    r := Ok((fetched.value, total));
  }

  /*************** what the request's sort and order mean ***************/

  // Nulls last; before them ascending values, or descending ones.
  predicate Follows(desc: bool, x: Option<int>, y: Option<int>) {
    y.Some? ==> x.Some? && (desc ==> x.value >= y.value) && (!desc ==> x.value <= y.value)
  }

  // How row b may follow row a on a page.
  predicate FollowsAsRequested(a: Row, b: Row, sort: string, order: string, kind: Option<string>, engine: Engine) {
    var desc := order == "desc";
    var byName := Follows(desc, Some(engine.collate(a.name)), Some(engine.collate(b.name)));
    && (sort == "name" ==> byName)
    && (sort == "type" ==> Follows(desc, Some(engine.collate(a.kind)), Some(engine.collate(b.kind))))
    && (sort == "status" ==> Follows(desc, Some(engine.collate(a.status)), Some(engine.collate(b.status))))
    && (sort == "owner" ==> Follows(desc, Collated(engine, a.owner), Collated(engine, b.owner)))
    && (sort == "created_at" ==> Follows(desc, Some(a.created), Some(b.created)))
    && (sort == "updated_at" ==> Follows(desc, Some(a.updated), Some(b.updated)))
    && (sort !in {"type", "status", "owner", "created_at", "updated_at"} && !("meta." <= sort && SafeKey(sort[5..])) ==> byName)
    && ("meta." <= sort && SafeKey(sort[5..]) ==>
          var (key, x, y) := (sort[5..], MetaText(a, sort[5..]), MetaText(b, sort[5..]));
          if kind.Some? && engine.integerField(kind.value, key)
          then Follows(desc, Numeric(engine, x), Numeric(engine, y)) else Follows(desc, Collated(engine, x), Collated(engine, y)))
  }

  function Collated(engine: Engine, text: Option<string>): Option<int> {
    match text case None => None case Some(t) => Some(engine.collate(t))
  }

  // The number of a text of digits and points after an optional sign; other texts sort as null.
  function Numeric(engine: Engine, text: Option<string>): Option<int> {
    if text.Some? && LooksNumeric(text.value) then Some(engine.number(text.value)) else None
  }

  ghost predicate AsRequested(rows: seq<Row>, sort: string, order: string, kind: Option<string>, engine: Engine) {
    forall i, j | 0 <= i < j < |rows| :: FollowsAsRequested(rows[i], rows[j], sort, order, kind, engine)
  }

  lemma SortResolves(sort: string, order: string, kind: Option<string>, engine: Engine)
    ensures var o := ResolveSort(sort, order, kind, engine);
            && o.desc == (order == "desc") && o.engine == engine
            && (sort == "type" ==> o.column == ByKind) && (sort == "status" ==> o.column == ByStatus)
            && (sort == "owner" ==> o.column == ByOwner) && (sort == "created_at" ==> o.column == ByCreated)
            && (sort == "updated_at" ==> o.column == ByUpdated)
            && (sort !in {"type", "status", "owner", "created_at", "updated_at"} && !("meta." <= sort && SafeKey(sort[5..])) ==> o.column == ByName)
            && ("meta." <= sort && SafeKey(sort[5..]) ==>
                  o.column == ByMeta(sort[5..], kind.Some? && engine.integerField(kind.value, sort[5..])))
            && !("meta." <= "name")
  {
    hide SafeKey;
    assert !("meta." <= "name") by { assert "name"[0] == 'n'; }
    assert "type"[0] == 't' && "status"[0] == 's' && "owner"[0] == 'o' && "created_at"[0] == 'c' && "updated_at"[0] == 'u';
  }

  lemma PrecedesAsRequested(a: Row, b: Row, sort: string, order: string, kind: Option<string>, engine: Engine)
    requires MayPrecede(ResolveSort(sort, order, kind, engine), a, b)
    ensures FollowsAsRequested(a, b, sort, order, kind, engine)
  {
    SortResolves(sort, order, kind, engine);
    hide ResolveSort, SafeKey, LooksNumeric, MetaText;
    var o := ResolveSort(sort, order, kind, engine);
    match o.column
    case ByMeta(key, numeric) =>
      assert KeyOf(o, a) == (if numeric then Numeric(engine, MetaText(a, key)) else Collated(engine, MetaText(a, key)));
      assert KeyOf(o, b) == (if numeric then Numeric(engine, MetaText(b, key)) else Collated(engine, MetaText(b, key)));
    case _ =>
  }

  /** The rows of a page ascend in the field the request names, or descend exactly when it asks for "desc", with nulls
      last: by name for an unknown or unsafe field, and by number for an integer field of the one type asked for. */
  lemma AnswerAsRequested(table: seq<Row>, w: World, f: Filters, engine: Engine, page: int, size: int, sort: string, order: string)
    ensures var r := Answer(table, w, f, ResolveSort(sort, order, f.kind, engine), page, size);
            r.Ok? ==> AsRequested(r.value.0, sort, order, f.kind, engine)
  {
    var o := ResolveSort(sort, order, f.kind, engine);
    hide ResolveSort, Refusal, Requested, BreaksCast, MayPrecede, FollowsAsRequested, Arrange, Selected;
    var r := Answer(table, w, f, o, page, size);
    if r.Ok? {
      var rows := Arrange(o, Selected(table, w, f));
      ArrangeSorts(o, Selected(table, w, f));
      var shown := r.value.0;
      var from := Min((page - 1) * size, |rows|);
      forall i, j | 0 <= i < j < |shown| ensures FollowsAsRequested(shown[i], shown[j], sort, order, f.kind, engine) {
        assert shown[i] == rows[from + i] && shown[j] == rows[from + j];
        PrecedesAsRequested(shown[i], shown[j], sort, order, f.kind, engine);
      }
    }
  }

  /*************** sorting ***************/

  // Where the first row of `a` sits in a reordering `b`.
  lemma FirstIn(a: seq<Row>, b: seq<Row>) returns (j: nat)
    requires multiset(a) == multiset(b) && a != []
    ensures j < |b| && b[j] == a[0]
    ensures a == [a[0]] + a[1..] && b == b[..j] + ([a[0]] + b[j + 1..])
    ensures multiset(a[1..]) == multiset(b[..j] + b[j + 1..])
  {
    assert a[0] in multiset(b);
    j :| 0 <= j < |b| && b[j] == a[0];
    RemoveAt(a, 0);
    RemoveAt(b, j);
    assert a[..0] + a[1..] == a[1..];
  }

  lemma RemoveAt(s: seq<Row>, i: nat)
    requires i < |s|
    ensures s == s[..i] + ([s[i]] + s[i + 1..])
    ensures multiset(s[..i] + s[i + 1..]) == multiset(s) - multiset{s[i]}
  {
    assert s == s[..i] + ([s[i]] + s[i + 1..]);
    assert multiset(s) == multiset(s[..i]) + (multiset{s[i]} + multiset(s[i + 1..]));
  }

  lemma SelectedAppend(a: seq<Row>, b: seq<Row>, w: World, f: Filters)
    ensures Selected(a + b, w, f) == Selected(a, w, f) + Selected(b, w, f)
  {
    hide Requested;
    if a == [] { assert a + b == b; } else {
      assert (a + b)[1..] == a[1..] + b;
      SelectedAppend(a[1..], b, w, f);
    }
  }

  // Two physical orders of one table select the same rows.
  lemma {:induction false} SameSelection(a: seq<Row>, b: seq<Row>, w: World, f: Filters)
    requires multiset(a) == multiset(b)
    ensures multiset(Selected(a, w, f)) == multiset(Selected(b, w, f))
    decreases |a|
  {
    hide Requested, Selected;
    if a == [] {
      assert |b| == |multiset(b)| == 0;
    } else {
      var x := a[0];
      var j := FirstIn(a, b);
      SameSelection(a[1..], b[..j] + b[j + 1..], w, f);
      SelectedAppend([x], a[1..], w, f);
      SelectedAppend(b[..j], [x] + b[j + 1..], w, f);
      SelectedAppend([x], b[j + 1..], w, f);
      SelectedAppend(b[..j], b[j + 1..], w, f);
    }
  }

  lemma {:induction false} InsertKeeps(o: Sorting, row: Row, rows: seq<Row>)
    requires Ordered(o, rows)
    ensures multiset(Insert(o, row, rows)) == multiset{row} + multiset(rows)
    ensures Ordered(o, Insert(o, row, rows))
  {
    hide KeyOf;
    if rows == [] || MayPrecede(o, row, rows[0]) {
    } else {
      assert rows == [rows[0]] + rows[1..];
      InsertKeeps(o, row, rows[1..]);
      var rest := Insert(o, row, rows[1..]);
      forall i | 0 <= i < |rest| ensures MayPrecede(o, rows[0], rest[i]) {
        assert rest[i] in multiset(rest);
        assert rest[i] == row || rest[i] in rows[1..];
      }
    }
  }

  /** ORDER BY returns the rows themselves, in order. */
  lemma {:induction false} ArrangeSorts(o: Sorting, rows: seq<Row>)
    ensures multiset(Arrange(o, rows)) == multiset(rows)
    ensures Ordered(o, Arrange(o, rows))
  {
    hide MayPrecede, Insert;
    if rows != [] {
      assert rows == [rows[0]] + rows[1..];
      ArrangeSorts(o, rows[1..]);
      InsertKeeps(o, rows[0], Arrange(o, rows[1..]));
    }
  }

  // A sorted list is left alone: rows with equal keys keep the order they came in.
  lemma {:induction false} ArrangeFixes(o: Sorting, rows: seq<Row>)
    requires Ordered(o, rows)
    ensures Arrange(o, rows) == rows
  {
    hide KeyOf;
    if rows != [] {
      ArrangeFixes(o, rows[1..]);
      assert rows == [rows[0]] + rows[1..];
    }
  }

  lemma {:induction false} SortedUnique(o: Sorting, a: seq<Row>, b: seq<Row>)
    requires Ordered(o, a) && Ordered(o, b) && Untied(o, a) && multiset(a) == multiset(b)
    ensures a == b
  {
    assert |a| == |multiset(a)| == |multiset(b)| == |b|;
    if a != [] {
      SameHead(o, a, b);
      SameTails(a, b);
      Tails(o, a);
      Tails(o, b);
      hide *;
      SortedUnique(o, a[1..], b[1..]);
      assert a == [a[0]] + a[1..] && b == [b[0]] + b[1..];
    }
  }

  lemma Tails(o: Sorting, a: seq<Row>)
    requires Ordered(o, a) && a != []
    ensures Ordered(o, a[1..]) && (Untied(o, a) ==> Untied(o, a[1..]))
  {
    hide MayPrecede, Tied;
  }

  lemma SameHead(o: Sorting, a: seq<Row>, b: seq<Row>)
    requires Ordered(o, a) && Ordered(o, b) && Untied(o, a) && multiset(a) == multiset(b) && a != []
    ensures b != [] && a[0] == b[0]
  {
    hide MayPrecede, Tied;
    assert a[0] in multiset(b);
    var j :| 0 <= j < |b| && b[j] == a[0];
    assert b[0] in multiset(a);
    var i :| 0 <= i < |a| && a[i] == b[0];
    if i > 0 && j > 0 { Antisymmetric(o, a[0], b[0]); }
  }

  lemma SameTails(a: seq<Row>, b: seq<Row>)
    requires multiset(a) == multiset(b) && a != [] && b != [] && a[0] == b[0]
    ensures multiset(a[1..]) == multiset(b[1..])
  {
    RemoveAt(a, 0);
    RemoveAt(b, 0);
    assert a[..0] + a[1..] == a[1..] && b[..0] + b[1..] == b[1..];
  }

  lemma Antisymmetric(o: Sorting, a: Row, b: Row)
    requires MayPrecede(o, a, b) && MayPrecede(o, b, a)
    ensures Tied(o, a, b)
  {
  }

  function Swapped(s: seq<Row>, i: nat, j: nat): seq<Row>
    requires i < j < |s|
  {
    s[i := s[j]][j := s[i]]
  }

  lemma SwapTied(o: Sorting, s: seq<Row>, i: nat, j: nat)
    requires Ordered(o, s) && i < j < |s| && Tied(o, s[i], s[j])
    ensures Ordered(o, Swapped(s, i, j)) && multiset(Swapped(s, i, j)) == multiset(s)
  {
    var t := Swapped(s, i, j);
    assert forall k | 0 <= k < |s| :: KeyOf(o, t[k]) == KeyOf(o, s[k]);
    forall k, l | 0 <= k < l < |t| ensures MayPrecede(o, t[k], t[l]) {
      assert MayPrecede(o, s[k], s[l]);
    }
  }

  /** There is no tie-breaker: the answer's order is settled exactly when no two selected rows share a sort
      key. */
  lemma OrderSettledIff(o: Sorting, rows: seq<Row>)
    requires forall i, j | 0 <= i < j < |rows| :: rows[i] != rows[j]
    ensures (forall other: seq<Row> | multiset(other) == multiset(rows) :: Arrange(o, other) == Arrange(o, rows))
       <==> Untied(o, rows)
  {
    hide KeyOf, Arrange;
    var p := Arrange(o, rows);
    ArrangeSorts(o, rows);
    if Untied(o, rows) {
      UntiedAnyOrder(o, rows, p);
      forall other: seq<Row> | multiset(other) == multiset(rows) ensures Arrange(o, other) == p {
        ArrangeSorts(o, other);
        SortedUnique(o, p, Arrange(o, other));
      }
    } else {
      var i, j :| 0 <= i < j < |rows| && Tied(o, rows[i], rows[j]);
      assert rows[i] in multiset(p) && rows[j] in multiset(p);
      var k :| 0 <= k < |p| && p[k] == rows[i];
      var l :| 0 <= l < |p| && p[l] == rows[j];
      var lo, hi := if k < l then k else l, if k < l then l else k;
      SwapTied(o, p, lo, hi);
      ArrangeFixes(o, Swapped(p, lo, hi));
      assert Swapped(p, lo, hi)[lo] != p[lo];
    }
  }

  lemma {:induction false} UntiedAnyOrder(o: Sorting, a: seq<Row>, b: seq<Row>)
    requires Untied(o, a) && multiset(a) == multiset(b)
    ensures Untied(o, b)
    decreases |b|
  {
    hide KeyOf, Tied;
    if b != [] {
      var i := FirstIn(b, a);
      var rest := a[..i] + a[i + 1..];
      UntiedWithout(o, a, i);
      UntiedAnyOrder(o, rest, b[1..]);
      forall k | 1 <= k < |b| ensures !Tied(o, b[0], b[k]) {
        assert b[k] == b[1..][k - 1] && b[1..][k - 1] in multiset(rest);
      }
      forall k, l | 0 <= k < l < |b| ensures !Tied(o, b[k], b[l]) {
        if k > 0 { assert b[k] == b[1..][k - 1] && b[l] == b[1..][l - 1]; }
      }
    }
  }

  lemma UntiedWithout(o: Sorting, a: seq<Row>, i: nat)
    requires Untied(o, a) && i < |a|
    ensures Untied(o, a[..i] + a[i + 1..])
    ensures forall r | r in a[..i] + a[i + 1..] :: !Tied(o, a[i], r)
  {
    hide KeyOf;
    var rest := a[..i] + a[i + 1..];
    forall l | 0 <= l < |rest| ensures rest[l] == a[if l < i then l else l + 1] && !Tied(o, a[i], rest[l]) {
    }
  }

  /*************** pages ***************/

  // What one page shows; a request that fails shows nothing.
  function PageRows(table: seq<Row>, w: World, f: Filters, o: Sorting, page: int, size: int): seq<Row> {
    var answer := Answer(table, w, f, o, page, size);
    if answer.Ok? then answer.value.0 else []
  }

  // Pages 1, 2, ... in turn; the i-th request meets the table in the order tables[i].
  function Pages(tables: seq<seq<Row>>, w: World, f: Filters, o: Sorting, size: nat): seq<Row> {
    if tables == [] then []
    else Pages(tables[..|tables| - 1], w, f, o, size) + PageRows(tables[|tables| - 1], w, f, o, |tables|, size)
  }

  // No request for a page from 1 on fails: the dates are fine and no selected row breaks a numeric sort.
  predicate Answerable(table: seq<Row>, w: World, f: Filters, o: Sorting) {
    Refusal(w, f).None? && forall r | r in Selected(table, w, f) :: !BreaksCast(o, r)
  }

  // In any order of the rows, page k + 1 is then the k-th stretch of the arranged selection, with its total.
  lemma AnswerIs(table: seq<Row>, other: seq<Row>, w: World, f: Filters, o: Sorting, k: nat, size: nat)
    requires multiset(other) == multiset(table) && Answerable(table, w, f, o)
    ensures k * size >= 0
    ensures Answer(other, w, f, o, k + 1, size) == Ok((Window(Arrange(o, Selected(other, w, f)), k * size, size), |Selected(table, w, f)|))
  {
    SameSelection(other, table, w, f);
    NotNegative(k, size);
    hide Selected, Refusal, Arrange, BreaksCast, Window;
    var (a, b) := (Selected(other, w, f), Selected(table, w, f));
    assert |a| == |multiset(a)| == |multiset(b)| == |b|;
    forall r | r in a ensures !BreaksCast(o, r) { assert r in multiset(b); }
    assert (k + 1 - 1) * size == k * size;
  }

  lemma {:induction false} PagesAre(table: seq<Row>, tables: seq<seq<Row>>, w: World, f: Filters, o: Sorting, size: nat)
    requires forall i | 0 <= i < |tables| :: multiset(tables[i]) == multiset(table)
    requires Untied(o, Selected(table, w, f)) && Answerable(table, w, f, o)
    ensures var rows := Arrange(o, Selected(table, w, f));
            Pages(tables, w, f, o, size) == rows[..Min(|tables| * size, |rows|)]
  {
    hide *;
    var rows := Arrange(o, Selected(table, w, f));
    if tables == [] {
      NoPages(w, f, o, size, rows);
    } else {
      var k := |tables| - 1;
      PagesAre(table, tables[..k], w, f, o, size);
      SameSelection(tables[k], table, w, f);
      SameOrder(o, Selected(tables[k], w, f), Selected(table, w, f));
      PagesSnoc(table, tables, w, f, o, size);
      Joined(rows, k * size, size);
    }
  }

  lemma NoPages(w: World, f: Filters, o: Sorting, size: nat, rows: seq<Row>)
    ensures Pages([], w, f, o, size) == rows[..Min(0 * size, |rows|)]
  {
  }

  lemma PagesSnoc(table: seq<Row>, tables: seq<seq<Row>>, w: World, f: Filters, o: Sorting, size: nat)
    requires tables != [] && multiset(tables[|tables| - 1]) == multiset(table) && Answerable(table, w, f, o)
    ensures var k := |tables| - 1;
            k * size >= 0 && k * size + size == |tables| * size &&
            Pages(tables, w, f, o, size) ==
              Pages(tables[..k], w, f, o, size) + Window(Arrange(o, Selected(tables[k], w, f)), k * size, size)
  {
    hide Window, Arrange, Selected, Answer, Answerable;
    AnswerIs(table, tables[|tables| - 1], w, f, o, |tables| - 1, size);
  }

  lemma Joined(rows: seq<Row>, offset: nat, size: nat)
    ensures rows[..Min(offset, |rows|)] + Window(rows, offset, size) == rows[..Min(offset + size, |rows|)]
  {
  }

  lemma SameOrder(o: Sorting, a: seq<Row>, b: seq<Row>)
    requires multiset(a) == multiset(b) && Untied(o, b)
    ensures Arrange(o, a) == Arrange(o, b)
  {
    hide KeyOf, Arrange;
    ArrangeSorts(o, a);
    ArrangeSorts(o, b);
    UntiedAnyOrder(o, b, Arrange(o, b));
    SortedUnique(o, Arrange(o, b), Arrange(o, a));
  }

  // Whatever order each request meets the rows in, pages of any size, once there are enough of them, show
  // every selected row exactly once.
  ghost predicate PagesCover(table: seq<Row>, w: World, f: Filters, o: Sorting) {
    forall tables: seq<seq<Row>>, size: nat | Reorders(table, tables) && 0 < size && Enough(table, w, f, |tables|, size) ::
      multiset(Pages(tables, w, f, o, size)) == multiset(Selected(table, w, f))
  }

  ghost predicate Reorders(table: seq<Row>, tables: seq<seq<Row>>) {
    forall i | 0 <= i < |tables| :: multiset(tables[i]) == multiset(table)
  }

  predicate Enough(table: seq<Row>, w: World, f: Filters, pages: nat, size: nat) {
    |Selected(table, w, f)| <= pages * size
  }

  /** Under an order without ties, reading pages until `total` is reached yields every selected row exactly
      once, in order, whatever physical order each request met. */
  lemma PagesCoverOnce(table: seq<Row>, tables: seq<seq<Row>>, w: World, f: Filters, o: Sorting, size: nat)
    requires Reorders(table, tables) && Answerable(table, w, f, o)
    requires Untied(o, Selected(table, w, f)) && Enough(table, w, f, |tables|, size)
    ensures multiset(Pages(tables, w, f, o, size)) == multiset(Selected(table, w, f))
    ensures Ordered(o, Pages(tables, w, f, o, size))
  {
    hide KeyOf, Requested, Selected, Arrange, Untied, Ordered, Pages, Answerable;
    var rows := Arrange(o, Selected(table, w, f));
    PagesAre(table, tables, w, f, o, size);
    ArrangeSorts(o, Selected(table, w, f));
    assert |rows| == |multiset(rows)| == |multiset(Selected(table, w, f))| == |Selected(table, w, f)|;
    assert rows[..|rows|] == rows;
  }

  /** For any table of distinct rows and any request that does not fail: pages cover the selection, whatever
      order each request meets the rows in, exactly when no two selected rows share a sort key. */
  lemma PagesCoverIff(table: seq<Row>, w: World, f: Filters, o: Sorting)
    requires (forall i, j | 0 <= i < j < |table| :: table[i] != table[j]) && Answerable(table, w, f, o)
    ensures PagesCover(table, w, f, o) <==> Untied(o, Selected(table, w, f))
  {
    if Untied(o, Selected(table, w, f)) {
      forall tables: seq<seq<Row>>, size: nat | Reorders(table, tables) && 0 < size && Enough(table, w, f, |tables|, size)
        ensures multiset(Pages(tables, w, f, o, size)) == multiset(Selected(table, w, f))
      {
        PagesCoverOnce(table, tables, w, f, o, size);
      }
    } else {
      TieBreaksCover(table, w, f, o);
    }
  }

  /*************** a tie misses a row ***************/

  function Unselected(rows: seq<Row>, w: World, f: Filters): seq<Row> {
    if rows == [] then []
    else if Requested(w, f, rows[0]) then Unselected(rows[1..], w, f) else [rows[0]] + Unselected(rows[1..], w, f)
  }

  lemma {:induction false} SplitRows(rows: seq<Row>, w: World, f: Filters)
    ensures multiset(Selected(rows, w, f)) + multiset(Unselected(rows, w, f)) == multiset(rows)
    ensures forall r | r in Selected(rows, w, f) :: Requested(w, f, r)
    ensures Selected(Unselected(rows, w, f), w, f) == []
  {
    hide Requested;
    if rows != [] {
      SplitRows(rows[1..], w, f);
      assert rows == [rows[0]] + rows[1..];
      if !Requested(w, f, rows[0]) { SelectedAppend([rows[0]], Unselected(rows[1..], w, f), w, f); }
    }
  }

  lemma {:induction false} AllSelected(rows: seq<Row>, w: World, f: Filters)
    requires forall r | r in rows :: Requested(w, f, r)
    ensures Selected(rows, w, f) == rows
  {
    hide Requested;
    if rows != [] {
      AllSelected(rows[1..], w, f);
      assert rows == [rows[0]] + rows[1..];
    }
  }

  // Any reordering of the selected rows can be what a request meets.
  lemma Meets(table: seq<Row>, p: seq<Row>, w: World, f: Filters, o: Sorting) returns (met: seq<Row>)
    requires multiset(p) == multiset(Selected(table, w, f)) && Ordered(o, p)
    ensures multiset(met) == multiset(table) && Arrange(o, Selected(met, w, f)) == p
  {
    var rest := Unselected(table, w, f);
    met := p + rest;
    SplitRows(table, w, f);
    forall r | r in p ensures Requested(w, f, r) { assert r in multiset(p); }
    AllSelected(p, w, f);
    SelectedAppend(p, rest, w, f);
    assert p + [] == p;
    ArrangeFixes(o, p);
  }

  // One request meets `first`, the n after it `later`.
  function Mixed(first: seq<Row>, later: seq<Row>, n: nat): seq<seq<Row>> {
    if n == 0 then [first] else Mixed(first, later, n - 1) + [later]
  }

  lemma {:induction false} MixedPages(table: seq<Row>, first: seq<Row>, later: seq<Row>, w: World, f: Filters, o: Sorting,
                                      p: seq<Row>, q: seq<Row>, n: nat, size: nat)
    requires multiset(first) == multiset(table) && multiset(later) == multiset(table) && Answerable(table, w, f, o)
    requires Arrange(o, Selected(first, w, f)) == p && Arrange(o, Selected(later, w, f)) == q
    requires |p| == |q| && size < |p|
    ensures |Mixed(first, later, n)| == n + 1 && Reorders(table, Mixed(first, later, n))
    ensures (n + 1) * size >= size && Pages(Mixed(first, later, n), w, f, o, size) == p[..size] + q[size..Min((n + 1) * size, |q|)]
  {
    var tables := Mixed(first, later, n);
    hide Arrange, Selected, Answerable, Pages;
    NotNegative(n, size);
    assert (n + 1) * size == n * size + size;
    if n == 0 {
      PagesSnoc(table, tables, w, f, o, size);
      NoPages(w, f, o, size, p);
      assert Pages(tables, w, f, o, size) == [] + p[0..size];
    } else {
      MixedPages(table, first, later, w, f, o, p, q, n - 1, size);
      assert tables[..n] == Mixed(first, later, n - 1);
      PagesSnoc(table, tables, w, f, o, size);
      WindowJoins(q, size, n * size, size);
      assert p[..size] + q[size..Min(n * size, |q|)] + Window(q, n * size, size)
          == p[..size] + (q[size..Min(n * size, |q|)] + Window(q, n * size, size));
    }
  }

  lemma WindowJoins(q: seq<Row>, start: nat, offset: nat, size: nat)
    requires start <= |q| && start <= offset
    ensures q[start..Min(offset, |q|)] + Window(q, offset, size) == q[start..Min(offset + size, |q|)]
  {
  }

  lemma DistinctSelected(table: seq<Row>, w: World, f: Filters, p: seq<Row>)
    requires forall i, j | 0 <= i < j < |table| :: table[i] != table[j]
    requires multiset(p) == multiset(Selected(table, w, f))
    ensures forall r :: multiset(p)[r] <= 1
  {
    SplitRows(table, w, f);
    forall r ensures multiset(p)[r] <= 1 { OnceOnly(table, r); }
  }

  lemma {:induction false} OnceOnly(table: seq<Row>, r: Row)
    requires forall i, j | 0 <= i < j < |table| :: table[i] != table[j]
    ensures multiset(table)[r] <= 1
  {
    if table != [] {
      OnceOnly(table[1..], r);
      assert table == [table[0]] + table[1..];
      if r == table[0] {
        assert r !in table[1..];
        assert multiset(table[1..])[r] == 0;
      }
    }
  }

  lemma TieBreaksCover(table: seq<Row>, w: World, f: Filters, o: Sorting)
    requires (forall i, j | 0 <= i < j < |table| :: table[i] != table[j]) && Answerable(table, w, f, o)
    requires !Untied(o, Selected(table, w, f))
    ensures !PagesCover(table, w, f, o)
  {
    hide KeyOf, Selected, Arrange, Answerable, Requested, Ordered, MayPrecede, Pages, Mixed;
    var rows := Selected(table, w, f);
    var p := Arrange(o, rows);
    ArrangeSorts(o, rows);
    DistinctSelected(table, w, f, p);
    var lo, hi := TiedPlaces(o, rows, p);
    SwapTied(o, p, lo, hi);
    var q := Swapped(p, lo, hi);
    var first := Meets(table, p, w, f, o);
    var later := Meets(table, q, w, f, o);
    MixedPages(table, first, later, w, f, o, p, q, |p|, hi);
    var tables := Mixed(first, later, |p|);
    var shown := Pages(tables, w, f, o, hi);
    assert |p| == |multiset(p)| == |multiset(rows)| == |rows|;
    BigEnough(|p|, hi);
    assert Enough(table, w, f, |tables|, hi);
    assert shown == p[..hi] + q[hi..];
    TwiceShown(p, q, lo, hi);
  }

  lemma BigEnough(n: nat, size: nat)
    requires 0 < size
    ensures n <= (n + 1) * size
  {
    NotNegative(n, size - 1);
    assert (n + 1) * size == n * (size - 1) + n + size;
  }

  lemma TiedPlaces(o: Sorting, rows: seq<Row>, p: seq<Row>) returns (lo: nat, hi: nat)
    requires multiset(p) == multiset(rows) && !Untied(o, rows) && forall r :: multiset(p)[r] <= 1
    ensures lo < hi < |p| && Tied(o, p[lo], p[hi])
  {
    hide KeyOf;
    var i, j :| 0 <= i < j < |rows| && Tied(o, rows[i], rows[j]);
    TwoPlaces(rows, i, j);
    assert rows[i] in multiset(p) && rows[j] in multiset(p);
    var k :| 0 <= k < |p| && p[k] == rows[i];
    var l :| 0 <= l < |p| && p[l] == rows[j];
    lo, hi := if k < l then k else l, if k < l then l else k;
  }

  // Equal rows in two places would count twice.
  lemma TwoPlaces(rows: seq<Row>, i: nat, j: nat)
    requires i < j < |rows|
    ensures rows[i] == rows[j] ==> multiset(rows)[rows[i]] >= 2
  {
    assert rows == rows[..i] + ([rows[i]] + (rows[i + 1..j] + ([rows[j]] + rows[j + 1..])));
  }

  lemma TwiceShown(p: seq<Row>, q: seq<Row>, lo: nat, hi: nat)
    requires lo < hi < |p| && q == Swapped(p, lo, hi) && forall r :: multiset(p)[r] <= 1
    ensures multiset(p[..hi] + q[hi..]) != multiset(p)
  {
    var shown := p[..hi] + q[hi..];
    assert shown[lo] == p[lo] == shown[hi];
    TwoPlaces(shown, lo, hi);
  }

  /*************** numeric sort keys ***************/

  predicate NoDigit(s: string) { forall c | c in s :: !Digit(c) }
  predicate TwoPoints(s: string) { exists i, j :: 0 <= i < j < |s| && s[i] == '.' && s[j] == '.' }

  lemma {:induction false} DropDigitsIs(s: string) returns (n: nat)
    ensures n <= |s| && DropDigits(s) == s[n..]
    ensures forall i | 0 <= i < n :: Digit(s[i])
    ensures n < |s| ==> !Digit(s[n])
  {
    if s != "" && Digit(s[0]) {
      var m := DropDigitsIs(s[1..]);
      n := m + 1;
      forall i | 0 <= i < n ensures Digit(s[i]) { if i > 0 { assert s[1..][i - 1] == s[i]; } }
      assert s[1..][m..] == s[n..];
    } else {
      n := 0;
    }
  }

  // Among the texts the guard lets through, the cast fails on two points, on no digit, or on too many digits.
  lemma CastFailsIff(s: string)
    requires LooksNumeric(s)
    ensures Castable(s) <==> !NoDigit(s) && !TwoPoints(s) && !TooLong(s)
  {
    UnsignedParts(s);
    NumeralIff(Unsigned(s));
    UnsignedLength(s);
    FitsIff(Unsigned(s));
  }

  // Where the first point is, or the end.
  function PointOf(s: string): nat { if s == "" || s[0] == '.' then 0 else 1 + PointOf(s[1..]) }

  // Too many places after the point, or a nonzero digit too far in front of it.
  predicate TooLong(s: string) {
    |s| > PointOf(s) + 1 + DECIMALS || exists i :: 0 <= i < |s| && i + WHOLE < PointOf(s) && Significant(s[i])
  }

  predicate Significant(c: char) { '1' <= c <= '9' }

  lemma UnsignedLength(s: string)
    ensures TooLong(s) <==> TooLong(Unsigned(s))
  {
    var b := Unsigned(s);
    if b != s {
      assert PointOf(s) == 1 + PointOf(b);
      assert forall i | 0 <= i < |b| :: b[i] == s[i + 1];
      hide PointOf;
      if i :| 0 <= i < |s| && i + WHOLE < PointOf(s) && Significant(s[i]) { assert Significant(b[i - 1]); }
      if i :| 0 <= i < |b| && i + WHOLE < PointOf(b) && Significant(b[i]) { assert Significant(s[i + 1]); }
    }
  }

  lemma {:induction false} PointIs(b: string)
    requires forall c | c in b :: Digit(c) || c == '.'
    ensures PointOf(b) == |b| - |DropDigits(b)|
  {
    if b != "" && b[0] != '.' {
      assert b[0] in b;
      PointIs(b[1..]);
    }
  }

  lemma {:induction false} DropZerosIs(b: string) returns (z: nat)
    ensures z == |b| - |DropZeros(b)| && z <= |b| - |DropDigits(b)|
    ensures forall i | 0 <= i < z :: b[i] == '0'
    ensures z < |b| ==> b[z] != '0'
  {
    if b != "" && b[0] == '0' {
      var y := DropZerosIs(b[1..]);
      z := y + 1;
      forall i | 0 <= i < z ensures b[i] == '0' { if i > 0 { assert b[1..][i - 1] == b[i]; } }
      if z < |b| { assert b[1..][y] == b[z]; }
    } else {
      z := 0;
      var n := DropDigitsIs(b);
    }
  }

  lemma {:induction false} PointFirst(b: string)
    ensures PointOf(b) <= |b| && forall i | 0 <= i < PointOf(b) :: b[i] != '.'
  {
    if b != "" && b[0] != '.' {
      PointFirst(b[1..]);
      forall i | 0 <= i < PointOf(b) ensures b[i] != '.' { if i > 0 { assert b[1..][i - 1] == b[i]; } }
    }
  }

  lemma FitsIff(b: string)
    requires forall c | c in b :: Digit(c) || c == '.'
    ensures Fits(b) <==> !TooLong(b)
  {
    PointIs(b);
    PointFirst(b);
    var z := DropZerosIs(b);
    hide PointOf, DropZeros, DropDigits;
    var p := PointOf(b);
    if z + WHOLE < p {
      assert b[z] in b;
      assert Significant(b[z]);
    }
    if i :| 0 <= i < |b| && i + WHOLE < p && Significant(b[i]) { assert z <= i; }
  }

  // A sign is neither a digit nor a point.
  lemma UnsignedParts(s: string)
    ensures NoDigit(s) <==> NoDigit(Unsigned(s))
    ensures TwoPoints(s) <==> TwoPoints(Unsigned(s))
  {
    var b := Unsigned(s);
    var at := |s| - |b|;
    assert forall i | 0 <= i < |b| :: b[i] == s[at + i];
    assert forall i | 0 <= i < at :: s[i] == '-';
    forall c | c in b ensures c in s { var i :| 0 <= i < |b| && b[i] == c; assert s[at + i] in s; }
    forall c | c in s && Digit(c) ensures c in b { var i :| 0 <= i < |s| && s[i] == c; assert b[i - at] in b; }
    if TwoPoints(s) {
      var i, j :| 0 <= i < j < |s| && s[i] == '.' && s[j] == '.';
      assert b[i - at] == '.' && b[j - at] == '.';
    }
    if TwoPoints(b) {
      var i, j :| 0 <= i < j < |b| && b[i] == '.' && b[j] == '.';
      assert s[at + i] == '.' && s[at + j] == '.';
    }
  }

  lemma NumeralIff(b: string)
    requires b != "" && forall c | c in b :: Digit(c) || c == '.'
    ensures Numeral(b) <==> !NoDigit(b) && !TwoPoints(b)
  {
    assert forall i | 0 <= i < |b| :: b[i] in b;
    var n := DropDigitsIs(b);
    if n == |b| {
      assert Digit(b[0]);
      assert !TwoPoints(b);
    } else {
      assert b[n] == '.';
      var m := DropDigitsIs(b[n..][1..]);
      assert b[n..][1..] == b[n + 1..];
      hide DropDigits;
      AfterThePoint(b, n, b[n + 1..], m);
    }
  }

  // Digits, a point, m digits, and then the end or another point.
  lemma AfterThePoint(b: string, n: nat, rest: string, m: nat)
    requires n < |b| && rest == b[n + 1..] && m <= |rest| && b[n] == '.'
    requires forall i | 0 <= i < n :: Digit(b[i])
    requires forall i | 0 <= i < m :: Digit(rest[i])
    requires m < |rest| ==> rest[m] == '.'
    ensures TwoPoints(b) <==> n + 1 + m < |b|
    ensures n + 1 + m == |b| ==> (NoDigit(b) <==> |b| == 1)
  {
    if n + 1 + m < |b| {
      assert rest[m] == b[n + 1 + m] == '.';
    } else {
      assert forall i | n < i < |b| :: b[i] == rest[i - n - 1];
      assert |b| > 1 ==> b[if n > 0 then 0 else 1] in b;
    }
  }

  // The text that fails the listing: it passes the guard, and holds two points, no digit or too many digits.
  predicate Misleading(s: string) { LooksNumeric(s) && (TwoPoints(s) || NoDigit(s) || TooLong(s)) }

  /** A listing sorted by an integer custom field fails with a bad number exactly when the dates are fine, the
      page and its size are positive, and some selected row holds in that field a text of digits and points
      (after an optional sign) with two points, no digit, or more digits than the type holds. */
  lemma BadNumberIff(table: seq<Row>, w: World, f: Filters, o: Sorting, page: int, size: int)
    requires o.column.ByMeta? && o.column.numeric
    ensures Answer(table, w, f, o, page, size) == Err(BadNumber) <==>
            Refusal(w, f).None? && 1 <= page && 0 < size &&
            exists r | r in Selected(table, w, f) :: MetaText(r, o.column.key).Some? && Misleading(MetaText(r, o.column.key).value)
  {
    hide Selected, Arrange, LooksNumeric, Castable, TwoPoints, NoDigit, TooLong, MetaText;
    OffsetSign(page, size);
    NoBadRefusal(w, f);
    forall r | r in Selected(table, w, f)
      ensures BreaksCast(o, r) <==> MetaText(r, o.column.key).Some? && Misleading(MetaText(r, o.column.key).value)
    {
      var t := MetaText(r, o.column.key);
      if t.Some? && LooksNumeric(t.value) { CastFailsIff(t.value); }
    }
  }

  lemma NoBadRefusal(w: World, f: Filters)
    ensures Refusal(w, f) != Some(BadNumber)
  {
  }

  lemma OffsetSign(page: int, size: int)
    ensures 0 < size ==> ((page - 1) * size < 0 <==> page < 1)
  {
    if 0 < size {
      if page < 1 {
        NotNegative(-page, size);
        assert (page - 1) * size == -((-page) * size) - size;
      } else {
        NotNegative(page - 1, size);
      }
    }
  }

  lemma NotNegative(x: nat, y: nat)
    ensures x * y >= 0
  {
  }

  predicate Integral(s: string) { Unsigned(s) != "" && forall c | c in Unsigned(s) :: Digit(c) }

  /** Integers of up to 131072 digits, leading zeros aside, and words are safe: no listing whose rows hold only such
      texts fails for a number.  Words sort as null. */
  lemma IntegersAndWordsAreSafe(table: seq<Row>, w: World, f: Filters, o: Sorting, page: int, size: int)
    requires o.column.ByMeta? && o.column.numeric
    requires forall r | r in Selected(table, w, f) :: var t := MetaText(r, o.column.key);
               t.Some? ==> (Integral(t.value) && !TooLong(t.value)) || !LooksNumeric(t.value)
    ensures Answer(table, w, f, o, page, size) != Err(BadNumber)
  {
    BadNumberIff(table, w, f, o, page, size);
    forall r | r in Selected(table, w, f) && MetaText(r, o.column.key).Some?
      ensures !Misleading(MetaText(r, o.column.key).value)
    {
      var s := MetaText(r, o.column.key).value;
      if Integral(s) { IntegralCasts(s); }
    }
  }

  lemma IntegralCasts(s: string)
    requires Integral(s)
    ensures !TwoPoints(s) && !NoDigit(s)
  {
    var b := Unsigned(s);
    var at := |s| - |b|;
    assert forall i | 0 <= i < |b| :: b[i] == s[at + i] && b[i] in b;
    assert Digit(s[at]) && s[at] in s;
  }

  /** One row holding a version number such as 1.2.3 in that field fails the whole listing, for every page of
      at least one row. */
  lemma VersionNumberStopsTheListing(table: seq<Row>, w: World, f: Filters, o: Sorting, row: Row, page: int, size: int)
    requires Refusal(w, f).None? && o.column.ByMeta? && o.column.numeric && 1 <= page && 0 < size
    requires row in Selected(table, w, f) && MetaText(row, o.column.key) == Some("1.2.3")
    ensures Answer(table, w, f, o, page, size) == Err(BadNumber)
  {
    BadNumberIff(table, w, f, o, page, size);
    hide Selected, Refusal, Arrange, Answer;
    var s := "1.2.3";
    assert s[1] == '.' && s[3] == '.';
    assert Misleading(s);
  }
}
