/** The WHERE compiler of `list_assets`: clauses with numbered placeholders on one side, the list of
    bound values on the other, and what SQL makes of the two together.

    A row is one row of the join: the asset and, in `owner`, the name of the asset its owner_id points
    at.  SQL's three truth values are kept, because a WHERE keeps a row only when it is true. */
module AssetFilters {
  import opened Options

  datatype Row = Row(id: nat, org: nat, kind: string, name: string, description: Option<string>,
                     status: string, owner: Option<string>, created: int, updated: int,
                     tags: Option<seq<string>>, metadata: Option<map<string, Option<string>>>)

  datatype Link = Link(source: nat, target: nat, description: Option<string>)

  /* What the query meets outside its own text: the relationships table, pattern matching (ILIKE), the
     moment a day starts at, date parsing, and the field names flagged sensitive. */
  datatype World = World(links: seq<Link>, like: (string, string) -> bool, midnight: int -> int,
                         parseDay: string -> Option<int>, sensitive: seq<string>)

  datatype Filters = Filters(org: Option<nat>, kind: Option<string>, kinds: seq<string>, q: Option<string>,
                             status: Option<string>, owner: Option<string>, createdAfter: Option<string>,
                             createdBefore: Option<string>, tag: Option<string>, unlinked: bool,
                             metadata: seq<(string, string)>)

  datatype Error = BadDate | DateOverflow | NegativeLimit | NegativeOffset | BadNumber

  const POSTURE := ["answer"]
  const LAST_DAY := 3652059  // 31 December 9999

  predicate Given(s: Option<string>) { s.Some? && s.value != "" }

  function Around(s: string): string { "%" + s + "%" }

  /*************** what was asked for ***************/

  predicate KeyChar(c: char) { 'a' <= c <= 'z' || 'A' <= c <= 'Z' || '0' <= c <= '9' || c == '_' || c == '-' }

  // The pattern ends in `$`, which also matches before one final newline.
  predicate SafeKey(key: string) {
    var stem := if key != "" && key[|key| - 1] == '\n' then key[..|key| - 1] else key;
    stem != "" && forall c | c in stem :: KeyChar(c)
  }

  predicate MatchesText(w: World, text: Option<string>, pattern: string) {
    text.Some? && w.like(text.value, pattern)
  }

  predicate Touches(l: Link, row: Row) { l.source == row.id || l.target == row.id }

  predicate Mentions(w: World, q: string, row: Row) {
    || w.like(row.name, Around(q))
    || MatchesText(w, row.description, Around(q))
    || MatchesText(w, row.owner, Around(q))
    || (row.metadata.Some? && exists k | k in row.metadata.value ::
          k !in w.sensitive && MatchesText(w, row.metadata.value[k], Around(q)))
    || exists l | l in w.links :: Touches(l, row) && MatchesText(w, l.description, Around(q))
  }

  predicate HasMeta(row: Row, key: string, value: string) {
    row.metadata.Some? && key in row.metadata.value && row.metadata.value[key] == Some(value)
  }

  predicate WantsKind(f: Filters, row: Row) {
    if f.kind.Some? then row.kind == f.kind.value
    else if f.kinds != [] then row.kind in f.kinds
    else row.kind !in POSTURE
  }

  predicate WantsAfter(w: World, f: Filters, row: Row) {
    Given(f.createdAfter) && w.parseDay(f.createdAfter.value).Some? ==>
      w.midnight(w.parseDay(f.createdAfter.value).value) <= row.created
  }

  // The named day counts in full.
  predicate WantsBefore(w: World, f: Filters, row: Row) {
    Given(f.createdBefore) && w.parseDay(f.createdBefore.value).Some? ==>
      row.created < w.midnight(w.parseDay(f.createdBefore.value).value + 1)
  }

  predicate WantsUnlinked(w: World, f: Filters, row: Row) {
    f.unlinked ==> forall l | l in w.links :: !Touches(l, row)
  }

  // A key that is not a safe identifier asks for nothing.
  predicate WantsMeta(asked: seq<(string, string)>, row: Row) {
    forall i | 0 <= i < |asked| :: SafeKey(asked[i].0) ==> HasMeta(row, asked[i].0, asked[i].1)
  }

  const SIMPLE := 9  // the optional filters before the metadata ones

  predicate Wants(k: nat, w: World, f: Filters, row: Row) {
    match k
    case 0 => f.org.Some? ==> row.org == f.org.value
    case 1 => WantsKind(f, row)
    case 2 => Given(f.q) ==> Mentions(w, f.q.value, row)
    case 3 => Given(f.status) ==> row.status == f.status.value
    case 4 => Given(f.owner) ==> MatchesText(w, row.owner, Around(f.owner.value))
    case 5 => WantsAfter(w, f, row)
    case 6 => WantsBefore(w, f, row)
    case 7 => Given(f.tag) ==> row.tags.Some? && f.tag.value in row.tags.value
    case 8 => WantsUnlinked(w, f, row)
    case _ => true
  }

  predicate WantsSome(n: nat, m: nat, w: World, f: Filters, row: Row)
    requires m <= |f.metadata|
  {
    (forall k: nat | k < n :: Wants(k, w, f, row)) && WantsMeta(f.metadata[..m], row)
  }

  predicate Requested(w: World, f: Filters, row: Row) {
    (forall k: nat | k < SIMPLE :: Wants(k, w, f, row)) && WantsMeta(f.metadata, row)
  }

  // The first date that raises, in the order the builder reads them.
  function Refusal(w: World, f: Filters): Option<Error> {
    if Given(f.createdAfter) && w.parseDay(f.createdAfter.value).None? then Some(BadDate)
    else if !Given(f.createdBefore) then None
    else match w.parseDay(f.createdBefore.value)
      case None => Some(BadDate)
      case Some(d) => if d >= LAST_DAY then Some(DateOverflow) else None
  }

  /*************** SQL ***************/

  datatype Value = Org(org: nat) | Text(text: string) | Texts(texts: seq<string>) | Moment(at: int) | Number(n: int)

  datatype Clause =
    | OrgIs(n: nat)
    | KindIs(n: nat)
    | KindIn(ns: seq<nat>)
    | KindNotIn(ns: seq<nat>)
    | Matches(n: nat, sensitive: nat)
    | StatusIs(n: nat)
    | OwnerLike(n: nat)
    | CreatedFrom(n: nat)
    | CreatedBefore(n: nat)
    | TagAny(n: nat)
    | Unlinked
    | MetaIs(key: string, n: nat)

  datatype Truth = Yes | No | Unknown

  function OfBool(b: bool): Truth { if b then Yes else No }
  function Or(a: Truth, b: Truth): Truth { if a == Yes || b == Yes then Yes else if a == No then b else a }
  function And(a: Truth, b: Truth): Truth { if a == No || b == No then No else if a == Yes then b else a }
  function Not(a: Truth): Truth { match a case Yes => No case No => Yes case Unknown => Unknown }

  function Equals(a: Option<string>, b: string): Truth { if a.None? then Unknown else OfBool(a.value == b) }
  function Like(w: World, a: Option<string>, pattern: string): Truth {
    if a.None? then Unknown else OfBool(w.like(a.value, pattern))
  }

  predicate IsText(vals: seq<Value>, n: nat) { 1 <= n <= |vals| && vals[n - 1].Text? }
  predicate AllText(vals: seq<Value>, ns: seq<nat>) { forall i | 0 <= i < |ns| :: IsText(vals, ns[i]) }

  function TextAt(vals: seq<Value>, n: nat): string
    requires IsText(vals, n)
  {
    vals[n - 1].text
  }

  // Every placeholder names a bound value of the type the clause compares with.
  predicate Bound(c: Clause, vals: seq<Value>) {
    match c
    case OrgIs(n) => 1 <= n <= |vals| && vals[n - 1].Org?
    case KindIn(ns) => AllText(vals, ns)
    case KindNotIn(ns) => AllText(vals, ns)
    case Matches(n, s) => IsText(vals, n) && 1 <= s <= |vals| && vals[s - 1].Texts?
    case CreatedFrom(n) => 1 <= n <= |vals| && vals[n - 1].Moment?
    case CreatedBefore(n) => 1 <= n <= |vals| && vals[n - 1].Moment?
    case Unlinked => true
    case KindIs(n) => IsText(vals, n)
    case StatusIs(n) => IsText(vals, n)
    case OwnerLike(n) => IsText(vals, n)
    case TagAny(n) => IsText(vals, n)
    case MetaIs(_, n) => IsText(vals, n)
  }

  function Among(vals: seq<Value>, ns: seq<nat>, text: string): Truth
    requires AllText(vals, ns)
  {
    OfBool(exists i | 0 <= i < |ns| :: TextAt(vals, ns[i]) == text)
  }

  // EXISTS is never unknown.
  predicate MetaMentions(w: World, row: Row, pattern: string, sensitive: seq<string>) {
    row.metadata.Some? && exists k | k in row.metadata.value ::
      And(Like(w, row.metadata.value[k], pattern), Not(OfBool(k in sensitive))) == Yes
  }

  predicate LinkMentions(w: World, row: Row, pattern: string) {
    exists l | l in w.links :: And(OfBool(Touches(l, row)), Like(w, l.description, pattern)) == Yes
  }

  // `metadata->>'key'`: null without metadata, without the key, and for a JSON null.
  function MetaText(row: Row, key: string): Option<string> {
    if row.metadata.Some? && key in row.metadata.value then row.metadata.value[key] else None
  }

  function Eval(c: Clause, vals: seq<Value>, w: World, row: Row): Truth
    requires Bound(c, vals)
  {
    match c
    case OrgIs(n) => OfBool(row.org == vals[n - 1].org)
    case KindIs(n) => OfBool(row.kind == TextAt(vals, n))
    case KindIn(ns) => Among(vals, ns, row.kind)
    case KindNotIn(ns) => Not(Among(vals, ns, row.kind))
    case Matches(n, s) =>
      var p := TextAt(vals, n);
      Or(Or(Or(Or(Like(w, Some(row.name), p), Like(w, row.description, p)), Like(w, row.owner, p)),
            OfBool(MetaMentions(w, row, p, vals[s - 1].texts))), OfBool(LinkMentions(w, row, p)))
    case StatusIs(n) => OfBool(row.status == TextAt(vals, n))
    case OwnerLike(n) => Like(w, row.owner, TextAt(vals, n))
    case CreatedFrom(n) => OfBool(row.created >= vals[n - 1].at)
    case CreatedBefore(n) => OfBool(row.created < vals[n - 1].at)
    case TagAny(n) => if row.tags.None? then Unknown else OfBool(TextAt(vals, n) in row.tags.value)
    case Unlinked => Not(OfBool(exists l | l in w.links :: Touches(l, row)))
    case MetaIs(key, n) => Equals(MetaText(row, key), TextAt(vals, n))
  }

  predicate AllBound(parts: seq<Clause>, vals: seq<Value>) {
    forall i | 0 <= i < |parts| :: Bound(parts[i], vals)
  }

  // WHERE c1 AND c2 AND ..., or WHERE TRUE without any.
  function Where(parts: seq<Clause>, vals: seq<Value>, w: World, row: Row): Truth
    requires AllBound(parts, vals)
  {
    if parts == [] then Yes
    else And(Where(parts[..|parts| - 1], vals, w, row), Eval(parts[|parts| - 1], vals, w, row))
  }

  /*************** one clause more ***************/

  // The builder's invariant after `n` filters and `m` metadata pairs.
  ghost predicate Means(parts: seq<Clause>, vals: seq<Value>, w: World, f: Filters, n: nat, m: nat)
    requires m <= |f.metadata|
  {
    && AllBound(parts, vals)
    && forall row: Row :: Where(parts, vals, w, row) == Yes <==> WantsSome(n, m, w, f, row)
  }

  // Values bound later change nothing.
  lemma MoreValues(c: Clause, vals: seq<Value>, more: seq<Value>, w: World, row: Row)
    requires Bound(c, vals)
    ensures Bound(c, vals + more)
    ensures Eval(c, vals + more, w, row) == Eval(c, vals, w, row)
  {
    match c {
      case KindIn(ns) => SameAmong(vals, more, ns, row.kind);
      case KindNotIn(ns) => SameAmong(vals, more, ns, row.kind);
      case _ =>
    }
  }

  lemma SameAmong(vals: seq<Value>, more: seq<Value>, ns: seq<nat>, text: string)
    requires AllText(vals, ns)
    ensures AllText(vals + more, ns)
    ensures Among(vals + more, ns, text) == Among(vals, ns, text)
  {
    assert forall i | 0 <= i < |ns| :: TextAt(vals + more, ns[i]) == TextAt(vals, ns[i]);
  }

  lemma {:induction false} WhereMoreValues(parts: seq<Clause>, vals: seq<Value>, more: seq<Value>, w: World, row: Row)
    requires AllBound(parts, vals)
    ensures AllBound(parts, vals + more)
    ensures Where(parts, vals + more, w, row) == Where(parts, vals, w, row)
  {
    hide Eval, Bound;
    forall i | 0 <= i < |parts| ensures Bound(parts[i], vals + more) { MoreValues(parts[i], vals, more, w, row); }
    if parts != [] {
      WhereMoreValues(parts[..|parts| - 1], vals, more, w, row);
      MoreValues(parts[|parts| - 1], vals, more, w, row);
    }
  }

  lemma WhereGrows(parts: seq<Clause>, vals: seq<Value>, c: Clause, more: seq<Value>, w: World, row: Row)
    requires AllBound(parts, vals) && Bound(c, vals + more)
    ensures AllBound(parts + [c], vals + more)
    ensures Where(parts + [c], vals + more, w, row) == Yes
       <==> Where(parts, vals, w, row) == Yes && Eval(c, vals + more, w, row) == Yes
  {
    hide Eval, Bound;
    WhereMoreValues(parts, vals, more, w, row);
    assert (parts + [c])[..|parts|] == parts;
  }

  lemma Added(parts: seq<Clause>, vals: seq<Value>, w: World, f: Filters, k: nat, c: Clause, more: seq<Value>)
    requires Means(parts, vals, w, f, k, 0) && Bound(c, vals + more)
    requires forall row: Row :: Eval(c, vals + more, w, row) == Yes <==> Wants(k, w, f, row)
    ensures Means(parts + [c], vals + more, w, f, k + 1, 0)
  {
    hide Eval, Bound, Where, Wants, WantsMeta;
    forall row: Row
      ensures AllBound(parts + [c], vals + more)
      ensures Where(parts + [c], vals + more, w, row) == Yes <==> WantsSome(k + 1, 0, w, f, row)
    {
      WhereGrows(parts, vals, c, more, w, row);
      WantsNext(k, w, f, row);
    }
    assert AllBound(parts + [c], vals + more) by {
      WhereGrows(parts, vals, c, more, w, Row(0, 0, "", "", None, "", None, 0, 0, None, None));
    }
  }

  lemma WantsNext(k: nat, w: World, f: Filters, row: Row)
    ensures WantsSome(k + 1, 0, w, f, row) <==> WantsSome(k, 0, w, f, row) && Wants(k, w, f, row)
  {
    hide Wants, WantsMeta;
  }

  lemma Skipped(parts: seq<Clause>, vals: seq<Value>, w: World, f: Filters, k: nat)
    requires Means(parts, vals, w, f, k, 0)
    requires forall row: Row :: Wants(k, w, f, row)
    ensures Means(parts, vals, w, f, k + 1, 0)
  {
    hide Eval, Bound, Where, Wants, WantsMeta;
    forall row: Row ensures Where(parts, vals, w, row) == Yes <==> WantsSome(k + 1, 0, w, f, row) {
      WantsNext(k, w, f, row);
    }
  }

  lemma WantsMetaNext(f: Filters, m: nat, row: Row)
    requires m < |f.metadata|
    ensures WantsMeta(f.metadata[..m + 1], row)
       <==> WantsMeta(f.metadata[..m], row) && (SafeKey(f.metadata[m].0) ==> HasMeta(row, f.metadata[m].0, f.metadata[m].1))
  {
    hide SafeKey, HasMeta;
    var next, now := f.metadata[..m + 1], f.metadata[..m];
    assert forall i | 0 <= i < m :: next[i] == now[i];
    assert next[m] == f.metadata[m];
  }

  lemma AddedMeta(parts: seq<Clause>, vals: seq<Value>, w: World, f: Filters, m: nat)
    requires m < |f.metadata| && SafeKey(f.metadata[m].0)
    requires Means(parts, vals, w, f, SIMPLE, m)
    ensures var (key, value) := f.metadata[m];
            Means(parts + [MetaIs(key, |vals| + 1)], vals + [Text(value)], w, f, SIMPLE, m + 1)
  {
    hide Where, Wants, WantsMeta, SafeKey;
    var (key, value) := f.metadata[m];
    var c := MetaIs(key, |vals| + 1);
    forall row: Row
      ensures AllBound(parts + [c], vals + [Text(value)])
      ensures Where(parts + [c], vals + [Text(value)], w, row) == Yes <==> WantsSome(SIMPLE, m + 1, w, f, row)
    {
      WhereGrows(parts, vals, c, [Text(value)], w, row);
      WantsMetaNext(f, m, row);
    }
    WhereGrows(parts, vals, c, [Text(value)], w, Row(0, 0, "", "", None, "", None, 0, 0, None, None));
  }

  lemma SkippedMeta(parts: seq<Clause>, vals: seq<Value>, w: World, f: Filters, m: nat)
    requires m < |f.metadata| && !SafeKey(f.metadata[m].0)
    requires Means(parts, vals, w, f, SIMPLE, m)
    ensures Means(parts, vals, w, f, SIMPLE, m + 1)
  {
    hide Where, Wants, WantsMeta, SafeKey, Eval, Bound;
    forall row: Row ensures Where(parts, vals, w, row) == Yes <==> WantsSome(SIMPLE, m + 1, w, f, row) {
      WantsMetaNext(f, m, row);
    }
  }

  /*************** each clause means its filter ***************/

  lemma SearchMeans(vals: seq<Value>, w: World, q: string, row: Row)
    ensures var all := vals + [Text(Around(q))] + [Texts(w.sensitive)];
            Bound(Matches(|vals| + 1, |vals| + 2), all) &&
            (Eval(Matches(|vals| + 1, |vals| + 2), all, w, row) == Yes <==> Mentions(w, q, row))
  {
    var all := vals + [Text(Around(q))] + [Texts(w.sensitive)];
    var p := Around(q);
    assert TextAt(all, |vals| + 1) == p;
    assert all[|vals| + 1].texts == w.sensitive;
    assert MetaMentions(w, row, p, w.sensitive) <==>
           (row.metadata.Some? && exists k | k in row.metadata.value :: k !in w.sensitive && MatchesText(w, row.metadata.value[k], p));
    assert LinkMentions(w, row, p) <==> exists l | l in w.links :: Touches(l, row) && MatchesText(w, l.description, p);
  }

  function Listed(n: nat, count: nat): (ns: seq<nat>) { seq(count, i requires 0 <= i < count => n + i) }
  function Quoted(texts: seq<string>): (vs: seq<Value>) { seq(|texts|, i requires 0 <= i < |texts| => Text(texts[i])) }

  lemma AmongMeans(vals: seq<Value>, texts: seq<string>, text: string)
    ensures AllText(vals + Quoted(texts), Listed(|vals| + 1, |texts|))
    ensures Among(vals + Quoted(texts), Listed(|vals| + 1, |texts|), text) == OfBool(text in texts)
  {
    var all, ns := vals + Quoted(texts), Listed(|vals| + 1, |texts|);
    assert forall i | 0 <= i < |texts| :: all[ns[i] - 1] == Text(texts[i]) && TextAt(all, ns[i]) == texts[i];
  }

  // One bound value per listed text.
  method PushTexts(texts: seq<string>, vals: seq<Value>, idx: nat) returns (vals': seq<Value>, idx': nat)
    requires idx == |vals| + 1
    ensures vals' == vals + Quoted(texts) && idx' == |vals'| + 1
  {
    vals', idx' := vals, idx;
    for i := 0 to |texts|
      invariant idx' == |vals'| + 1
      invariant vals' == vals + Quoted(texts[..i])
    {
      assert Quoted(texts[..i + 1]) == Quoted(texts[..i]) + [Text(texts[i])];
      vals', idx' := vals' + [Text(texts[i])], idx' + 1;
    }
    assert texts[..|texts|] == texts;
  }

  method KindClause(f: Filters, w: World, parts: seq<Clause>, vals: seq<Value>, idx: nat)
      returns (parts': seq<Clause>, vals': seq<Value>, idx': nat)
    requires idx == |vals| + 1 && Means(parts, vals, w, f, 1, 0)
    ensures idx' == |vals'| + 1 && Means(parts', vals', w, f, 2, 0)
  {
    hide Where, Means;
    if f.kind.Some? {
      parts', vals', idx' := parts + [KindIs(idx)], vals + [Text(f.kind.value)], idx + 1;
      Added(parts, vals, w, f, 1, KindIs(idx), [Text(f.kind.value)]);
    } else if f.kinds != [] {
      var c := KindIn(Listed(idx, |f.kinds|));
      parts' := parts + [c];
      vals', idx' := PushTexts(f.kinds, vals, idx);
      forall row: Row ensures Bound(c, vals') && (Eval(c, vals', w, row) == Yes <==> Wants(1, w, f, row)) {
        AmongMeans(vals, f.kinds, row.kind);
      }
      AmongMeans(vals, f.kinds, "");
      Added(parts, vals, w, f, 1, c, Quoted(f.kinds));
    } else {
      var c := KindNotIn(Listed(idx, |POSTURE|));
      parts' := parts + [c];
      vals', idx' := PushTexts(POSTURE, vals, idx);
      forall row: Row ensures Bound(c, vals') && (Eval(c, vals', w, row) == Yes <==> Wants(1, w, f, row)) {
        AmongMeans(vals, POSTURE, row.kind);
      }
      AmongMeans(vals, POSTURE, "");
      Added(parts, vals, w, f, 1, c, Quoted(POSTURE));
    }
  }

  method SearchClause(f: Filters, w: World, parts: seq<Clause>, vals: seq<Value>, idx: nat)
      returns (parts': seq<Clause>, vals': seq<Value>, idx': nat)
    requires idx == |vals| + 1 && Means(parts, vals, w, f, 2, 0)
    ensures idx' == |vals'| + 1 && Means(parts', vals', w, f, 3, 0)
  {
    hide Where, Means, Mentions, Eval, Bound;
    parts', vals', idx' := parts, vals, idx;
    if Given(f.q) {
      var qph := idx';
      vals' := vals' + [Text(Around(f.q.value))];
      idx' := idx' + 1;
      var sensPh := idx';
      vals' := vals' + [Texts(w.sensitive)];
      idx' := idx' + 1;
      parts' := parts' + [Matches(qph, sensPh)];
      forall row: Row
        ensures Bound(Matches(qph, sensPh), vals')
        ensures Eval(Matches(qph, sensPh), vals', w, row) == Yes <==> Wants(2, w, f, row)
      {
        SearchMeans(vals, w, f.q.value, row);
      }
      SearchMeans(vals, w, f.q.value, Row(0, 0, "", "", None, "", None, 0, 0, None, None));
      var more := [Text(Around(f.q.value)), Texts(w.sensitive)];
      assert vals' == vals + more;
      Added(parts, vals, w, f, 2, Matches(qph, sensPh), more);
    } else {
      Skipped(parts, vals, w, f, 2);
    }
  }

  // status, owner
  method TextClauses(f: Filters, w: World, parts: seq<Clause>, vals: seq<Value>, idx: nat)
      returns (parts': seq<Clause>, vals': seq<Value>, idx': nat)
    requires idx == |vals| + 1 && Means(parts, vals, w, f, 3, 0)
    ensures idx' == |vals'| + 1 && Means(parts', vals', w, f, 5, 0)
  {
    hide Where, Means;
    parts', vals', idx' := parts, vals, idx;
    if Given(f.status) {
      Added(parts', vals', w, f, 3, StatusIs(idx'), [Text(f.status.value)]);
      parts', vals', idx' := parts' + [StatusIs(idx')], vals' + [Text(f.status.value)], idx' + 1;
    } else {
      Skipped(parts', vals', w, f, 3);
    }
    if Given(f.owner) {
      Added(parts', vals', w, f, 4, OwnerLike(idx'), [Text(Around(f.owner.value))]);
      parts', vals', idx' := parts' + [OwnerLike(idx')], vals' + [Text(Around(f.owner.value))], idx' + 1;
    } else {
      Skipped(parts', vals', w, f, 4);
    }
  }

  // created_after, created_before
  method DateClauses(f: Filters, w: World, parts: seq<Clause>, vals: seq<Value>, idx: nat)
      returns (error: Option<Error>, parts': seq<Clause>, vals': seq<Value>, idx': nat)
    requires idx == |vals| + 1 && Means(parts, vals, w, f, 5, 0)
    ensures error == Refusal(w, f)
    ensures error.None? ==> idx' == |vals'| + 1 && Means(parts', vals', w, f, 7, 0)
  {
    hide Where, Means;
    error, parts', vals', idx' := None, parts, vals, idx;
    if Given(f.createdAfter) {
      var d := w.parseDay(f.createdAfter.value);
      if d.None? { error := Some(BadDate); return; }
      Added(parts', vals', w, f, 5, CreatedFrom(idx'), [Moment(w.midnight(d.value))]);
      parts', vals', idx' := parts' + [CreatedFrom(idx')], vals' + [Moment(w.midnight(d.value))], idx' + 1;
    } else {
      Skipped(parts', vals', w, f, 5);
    }
    if Given(f.createdBefore) {
      var d := w.parseDay(f.createdBefore.value);
      if d.None? { error := Some(BadDate); return; }
      if d.value >= LAST_DAY { error := Some(DateOverflow); return; }
      Added(parts', vals', w, f, 6, CreatedBefore(idx'), [Moment(w.midnight(d.value + 1))]);
      parts', vals', idx' := parts' + [CreatedBefore(idx')], vals' + [Moment(w.midnight(d.value + 1))], idx' + 1;
    } else {
      Skipped(parts', vals', w, f, 6);
    }
  }

  // tag, unlinked
  method TagClauses(f: Filters, w: World, parts: seq<Clause>, vals: seq<Value>, idx: nat)
      returns (parts': seq<Clause>, vals': seq<Value>, idx': nat)
    requires idx == |vals| + 1 && Means(parts, vals, w, f, 7, 0)
    ensures idx' == |vals'| + 1 && Means(parts', vals', w, f, SIMPLE, 0)
  {
    hide Where, Means;
    parts', vals', idx' := parts, vals, idx;
    if Given(f.tag) {
      Added(parts', vals', w, f, 7, TagAny(idx'), [Text(f.tag.value)]);
      parts', vals', idx' := parts' + [TagAny(idx')], vals' + [Text(f.tag.value)], idx' + 1;
    } else {
      Skipped(parts', vals', w, f, 7);
    }
    if f.unlinked {
      Added(parts', vals', w, f, 8, Unlinked, []);
      assert vals' + [] == vals';
      parts' := parts' + [Unlinked];
    } else {
      Skipped(parts', vals', w, f, 8);
    }
  }

  method MetaClauses(f: Filters, w: World, parts: seq<Clause>, vals: seq<Value>, idx: nat)
      returns (parts': seq<Clause>, vals': seq<Value>, idx': nat)
    requires idx == |vals| + 1 && Means(parts, vals, w, f, SIMPLE, 0)
    ensures idx' == |vals'| + 1 && Means(parts', vals', w, f, SIMPLE, |f.metadata|)
  {
    hide Where, Means, SafeKey;
    parts', vals', idx' := parts, vals, idx;
    for m := 0 to |f.metadata|
      invariant idx' == |vals'| + 1 && Means(parts', vals', w, f, SIMPLE, m)
    {
      var (key, value) := f.metadata[m];
      if SafeKey(key) {
        AddedMeta(parts', vals', w, f, m);
        parts', vals', idx' := parts' + [MetaIs(key, idx')], vals' + [Text(value)], idx' + 1;
      } else {
        SkippedMeta(parts', vals', w, f, m);
      }
    }
  }

  /** The compiled WHERE: it is refused exactly for a bad date; otherwise every placeholder names a bound
      value of its type, `idx` is the next free number, and SQL keeps a row exactly when every requested
      filter holds of it. */
  method BuildWhere(f: Filters, w: World) returns (error: Option<Error>, parts: seq<Clause>, vals: seq<Value>, idx: nat)
    ensures error == Refusal(w, f)
    ensures error.None? ==> idx == |vals| + 1 && AllBound(parts, vals)
    ensures error.None? ==> forall row: Row :: Where(parts, vals, w, row) == Yes <==> Requested(w, f, row)
  {
    hide Where, Requested, WantsMeta;
    error, parts, vals, idx := None, [], [], 1;
    Nothing(w, f);
    if f.org.Some? {
      Added(parts, vals, w, f, 0, OrgIs(idx), [Org(f.org.value)]);
      parts, vals, idx := parts + [OrgIs(idx)], vals + [Org(f.org.value)], idx + 1;
    } else {
      Skipped(parts, vals, w, f, 0);
    }
    hide *;
    parts, vals, idx := KindClause(f, w, parts, vals, idx);
    parts, vals, idx := SearchClause(f, w, parts, vals, idx);
    parts, vals, idx := TextClauses(f, w, parts, vals, idx);
    error, parts, vals, idx := DateClauses(f, w, parts, vals, idx);
    if error.Some? { return; }
    parts, vals, idx := TagClauses(f, w, parts, vals, idx);
    parts, vals, idx := MetaClauses(f, w, parts, vals, idx);
    Finished(parts, vals, w, f);
  }

  lemma Nothing(w: World, f: Filters)
    ensures Means([], [], w, f, 0, 0)
  {
  }

  lemma Finished(parts: seq<Clause>, vals: seq<Value>, w: World, f: Filters)
    requires Means(parts, vals, w, f, SIMPLE, |f.metadata|)
    ensures AllBound(parts, vals)
    ensures forall row: Row :: Where(parts, vals, w, row) == Yes <==> Requested(w, f, row)
  {
    hide Where, Wants, WantsMeta, Bound, Eval;
    assert f.metadata[..|f.metadata|] == f.metadata;
  }

  /*************** metadata keys ***************/

  // Every pair holds, safe key or not.
  predicate HasAllMeta(asked: seq<(string, string)>, row: Row) {
    forall i | 0 <= i < |asked| :: HasMeta(row, asked[i].0, asked[i].1)
  }

  predicate DistinctKeys(asked: seq<(string, string)>) {
    forall i, j | 0 <= i < j < |asked| :: asked[i].0 != asked[j].0
  }

  function SafePairs(asked: seq<(string, string)>): map<string, Option<string>> {
    if asked == [] then map[]
    else var (key, value) := asked[|asked| - 1];
      var rest := SafePairs(asked[..|asked| - 1]);
      if SafeKey(key) then rest[key := Some(value)] else rest
  }

  lemma {:induction false} SafePairsAre(asked: seq<(string, string)>)
    requires DistinctKeys(asked)
    ensures forall k | k in SafePairs(asked) :: exists i :: 0 <= i < |asked| && asked[i].0 == k
    ensures forall i | 0 <= i < |asked| ::
      if SafeKey(asked[i].0) then asked[i].0 in SafePairs(asked) && SafePairs(asked)[asked[i].0] == Some(asked[i].1)
      else asked[i].0 !in SafePairs(asked)
  {
    hide SafeKey;
    if asked != [] {
      var init := asked[..|asked| - 1];
      assert forall i | 0 <= i < |init| :: init[i] == asked[i];
      SafePairsAre(init);
    }
  }

  /** A metadata filter with an unsafe key is dropped without an error, so the metadata filters mean their
      conjunction exactly when every key is safe. */
  lemma MetaHonouredIff(asked: seq<(string, string)>)
    requires DistinctKeys(asked)
    ensures (forall row: Row :: WantsMeta(asked, row) <==> HasAllMeta(asked, row))
       <==> (forall i | 0 <= i < |asked| :: SafeKey(asked[i].0))
  {
    hide SafeKey;
    var row := Row(0, 0, "", "", None, "", None, 0, 0, None, Some(SafePairs(asked)));
    SafePairsAre(asked);
    assert WantsMeta(asked, row);
    forall i | 0 <= i < |asked| && !SafeKey(asked[i].0) ensures !HasMeta(row, asked[i].0, asked[i].1) {
    }
  }

  // SQL reads a quoted string up to a quote that is not doubled.
  function ReadLiteral(s: string): Option<(string, string)> {
    if s == "" then None
    else if s[0] != '\'' then
      match ReadLiteral(s[1..])
      case None => None
      case Some((text, rest)) => Some(([s[0]] + text, rest))
    else if |s| > 1 && s[1] == '\'' then
      match ReadLiteral(s[2..])
      case None => None
      case Some((text, rest)) => Some((['\''] + text, rest))
    else Some(("", s[1..]))
  }

  /** The key is spliced into the statement between quotes; a safe key is read back as itself, and the
      rest of the statement is left as it was. */
  lemma SafeKeyIsItsLiteral(key: string, rest: string)
    requires SafeKey(key) && (rest == "" || rest[0] != '\'')
    ensures ReadLiteral(key + "'" + rest) == Some((key, rest))
  {
    forall i | 0 <= i < |key| ensures key[i] != '\'' {
      if key[|key| - 1] == '\n' {
        if i < |key| - 1 { assert KeyChar(key[..|key| - 1][i]); }
      } else {
        assert KeyChar(key[i]);
      }
    }
    QuoteFree(key, rest);
  }

  lemma {:induction false} QuoteFree(key: string, rest: string)
    requires '\'' !in key && (rest == "" || rest[0] != '\'')
    ensures ReadLiteral(key + "'" + rest) == Some((key, rest))
  {
    var s := key + "'" + rest;
    if key == "" {
      assert s[1..] == rest;
    } else {
      assert s[1..] == key[1..] + "'" + rest;
      QuoteFree(key[1..], rest);
      assert [s[0]] + key[1..] == key;
    }
  }
}
