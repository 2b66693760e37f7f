/** The encryption posture: one table, and in every worker process a cache of it that expires on its own.
    Loads of one worker may overlap: each stores what it read when it finishes, whatever was stored
    meanwhile.  Time is in milliseconds. */
module EncryptionConfig {
  import opened Options

  type Time = int
  type Worker = nat
  const TTL := 30_000

  datatype Config = Config(profile: string, scopes: set<string>)

  // What was stored, when, and (known to no code) when it was read.
  datatype Cached = Cached(config: Config, at: Time, read: Time)
  // What a load has read: which version of the table, and (known to no code) when.
  datatype Load = Load(config: Config, version: nat, read: Time)
  datatype Process = Process(cache: Option<Cached>, loads: seq<Load>)

  // The table's values with the times they were written, oldest first.
  datatype Version = Version(config: Config, at: Time)
  datatype State = State(now: Time, history: seq<Version>, workers: map<Worker, Process>)

  datatype Event =
    | Pass(now: Time)                // time passes
    | Write(config: Config)          // one upsert statement of set_profile or clear, in any process
    | Read(worker: Worker)           // a load's SELECT: on a stale cache, or by reload
    | Store(worker: Worker, k: nat)  // the k-th load of the worker finishes
    | Hit(worker: Worker)            // a fresh cache answers

  /*************** one worker's module globals ***************/

  predicate Fresh(p: Process, now: Time) { p.cache.Some? && now - p.cache.value.at < TTL }

  function Stored(p: Process, k: nat, now: Time): Process
    requires k < |p.loads|
  {
    Process(Some(Cached(p.loads[k].config, now, p.loads[k].read)), p.loads[..k] + p.loads[k + 1..])
  }

  class Globals {
    var cache: Option<set<string>>
    var profileCache: string
    var cacheAt: Time

    // The globals hold what the process model holds.
    ghost predicate Shows(p: Process)
      reads this
    {
      && (cache.Some? <==> p.cache.Some?)
      && (cache.Some? ==> cache.value == p.cache.value.config.scopes && profileCache == p.cache.value.config.profile
                          && cacheAt == p.cache.value.at)
    }

    constructor ()
      ensures Shows(Process(None, []))
    {
      cache, profileCache, cacheAt := None, "", 0;
    }

    method CacheFresh(now: Time, ghost p: Process) returns (ok: bool)
      requires Shows(p)
      ensures ok <==> Fresh(p, now)
    {
      ok := cache.Some? && now - cacheAt < TTL;
    }

    // The tail of `_load`, after the rows have arrived.
    method Store(profile: string, rawScopes: string, now: Time, ghost p: Process, ghost k: nat) returns (scopes: set<string>)
      requires Shows(p) && k < |p.loads| && p.loads[k].config == Config(profile, ParseScopes(rawScopes))
      modifies this
      ensures Shows(Stored(p, k, now)) && scopes == p.loads[k].config.scopes
    {
      scopes := ParseScopes(rawScopes);
      profileCache := profile;
      cache := Some(scopes);
      cacheAt := now;
    }

    // `get_active_scopes` up to its first await: None means that a load is needed.
    method Lookup(now: Time, ghost p: Process) returns (scopes: Option<set<string>>)
      requires Shows(p)
      ensures scopes == if Fresh(p, now) then Some(p.cache.value.config.scopes) else None
    {
      var ok := CacheFresh(now, p);
      scopes := if ok then cache else None;
    }
  }

  /*************** all workers together ***************/

  function Current(s: State): Config
    requires s.history != []
  {
    s.history[|s.history| - 1].config
  }

  /* Finishing a load takes at most `delay` from its SELECT, so time does not pass beyond that while one is
     in flight. */
  ghost predicate Enabled(s: State, delay: nat, e: Event) {
    match e
    case Pass(now) => s.now <= now && forall w, k | w in s.workers && 0 <= k < |s.workers[w].loads| ::
                        now <= s.workers[w].loads[k].read + delay
    case Write(_) => true
    case Read(w) => w in s.workers
    case Store(w, k) => w in s.workers && k < |s.workers[w].loads|
    case Hit(w) => w in s.workers && Fresh(s.workers[w], s.now)
  }

  ghost function Step(s: State, delay: nat, e: Event): State
    requires s.history != [] && Enabled(s, delay, e)
  {
    match e
    case Pass(now) => s.(now := now)
    case Write(c) => s.(history := s.history + [Version(c, s.now)])
    case Read(w) => s.(workers := s.workers[w := s.workers[w].(loads := s.workers[w].loads + [Load(Current(s), |s.history| - 1, s.now)])])
    case Store(w, k) => s.(workers := s.workers[w := Stored(s.workers[w], k, s.now)])
    case Hit(_) => s
  }

  // What the event hands to its caller.
  function Returned(s: State, e: Event): Option<Config> {
    match e
    case Store(w, k) => if w in s.workers && k < |s.workers[w].loads| then Some(s.workers[w].loads[k].config) else None
    case Hit(w) => if w in s.workers && s.workers[w].cache.Some? then Some(s.workers[w].cache.value.config) else None
    case _ => None
  }

  // The table held `c` at time `t` (at the instant of a write, both the old and the new value).
  ghost predicate Held(history: seq<Version>, c: Config, t: Time) {
    exists i :: HeldAs(history, i, c, t)
  }

  predicate HeldAs(history: seq<Version>, i: int, c: Config, t: Time) {
    0 <= i < |history| && history[i].config == c && history[i].at <= t && (i + 1 < |history| ==> t <= history[i + 1].at)
  }

  ghost predicate ProcessOk(history: seq<Version>, now: Time, delay: nat, p: Process) {
    && (forall k | 0 <= k < |p.loads| ::
          HeldAs(history, p.loads[k].version, p.loads[k].config, p.loads[k].read) && p.loads[k].read <= now <= p.loads[k].read + delay)
    && (p.cache.Some? ==>
          Held(history, p.cache.value.config, p.cache.value.read) && p.cache.value.read <= p.cache.value.at <= now
          && p.cache.value.at <= p.cache.value.read + delay)
  }

  ghost predicate Inv(s: State, delay: nat) {
    && s.history != []
    && (forall i, j | 0 <= i < j < |s.history| :: s.history[i].at <= s.history[j].at)
    && (forall i | 0 <= i < |s.history| :: s.history[i].at <= s.now)
    && (forall w | w in s.workers :: ProcessOk(s.history, s.now, delay, s.workers[w]))
  }

  lemma StartIsFine(now: Time, config: Config, workers: set<Worker>, delay: nat)
    ensures Inv(State(now, [Version(config, now)], map w | w in workers :: Process(None, [])), delay)
  {
  }

  lemma HeldLater(history: seq<Version>, c: Config, t: Time, next: Version)
    requires Held(history, c, t) && t <= next.at
    ensures Held(history + [next], c, t)
  {
    var i :| HeldAs(history, i, c, t);
    assert HeldAs(history + [next], i, c, t);
  }

  lemma OkAfterWrite(history: seq<Version>, now: Time, delay: nat, p: Process, next: Version)
    requires ProcessOk(history, now, delay, p) && next.at == now
    ensures ProcessOk(history + [next], now, delay, p)
  {
    hide Held;
    if p.cache.Some? { HeldLater(history, p.cache.value.config, p.cache.value.read, next); }
  }

  lemma StepKeepsInv(s: State, delay: nat, e: Event)
    requires Inv(s, delay) && Enabled(s, delay, e)
    ensures Inv(Step(s, delay, e), delay)
  {
    hide ProcessOk;
    forall w | w in s.workers ensures ProcessOk(Step(s, delay, e).history, Step(s, delay, e).now, delay, Step(s, delay, e).workers[w]) {
      ProcessStaysOk(s, delay, e, w);
    }
  }

  lemma ProcessStaysOk(s: State, delay: nat, e: Event, w: Worker)
    requires Inv(s, delay) && Enabled(s, delay, e) && w in s.workers
    ensures ProcessOk(Step(s, delay, e).history, Step(s, delay, e).now, delay, Step(s, delay, e).workers[w])
  {
    hide Held;
    match e {
      case Write(c) => OkAfterWrite(s.history, s.now, delay, s.workers[w], Version(c, s.now));
      case Read(v) => if v == w { ReadKeepsOk(s, delay, w); }
      case Store(v, k) => ReadIsHeld(s, delay, v, k);
      case _ =>
    }
  }

  lemma ReadIsHeld(s: State, delay: nat, w: Worker, k: nat)
    requires Inv(s, delay) && w in s.workers && k < |s.workers[w].loads|
    ensures var l := s.workers[w].loads[k]; Held(s.history, l.config, l.read) && l.read <= s.now <= l.read + delay
  {
    assert ProcessOk(s.history, s.now, delay, s.workers[w]);
  }

  lemma ReadKeepsOk(s: State, delay: nat, w: Worker)
    requires Inv(s, delay) && w in s.workers
    ensures ProcessOk(s.history, s.now, delay, Step(s, delay, Read(w)).workers[w])
  {
    CurrentHeld(s, delay);
    hide Held;
    var (old', new') := (s.workers[w].loads, Step(s, delay, Read(w)).workers[w].loads);
    assert ProcessOk(s.history, s.now, delay, s.workers[w]);
    assert forall i | 0 <= i < |old'| :: new'[i] == old'[i];
  }

  lemma CurrentHeld(s: State, delay: nat)
    requires Inv(s, delay)
    ensures HeldAs(s.history, |s.history| - 1, Current(s), s.now)
  {
  }

  /** Bounded staleness: whatever a worker hands out, by a load of its own or from its cache, the table held it
      less than TTL + delay before, overlapping loads included. */
  lemma ReturnsAreRecent(s: State, delay: nat, e: Event)
    requires Inv(s, delay) && Enabled(s, delay, e) && Returned(s, e).Some?
    ensures exists t :: s.now - TTL - delay < t <= s.now && Held(s.history, Returned(s, e).value, t)
  {
    var p := s.workers[e.worker];
    assert ProcessOk(s.history, s.now, delay, p);
    hide Held;
    var t := if e.Store? then p.loads[e.k].read else p.cache.value.read;
    assert e.Store? ==> HeldAs(s.history, p.loads[e.k].version, p.loads[e.k].config, t);
    assert Held(s.history, Returned(s, e).value, t);
  }

  lemma HeldAfterLastWrite(s: State, delay: nat, c: Config, t: Time)
    requires Inv(s, delay) && Held(s.history, c, t) && s.history[|s.history| - 1].at < t
    ensures c == Current(s)
  {
    var i :| HeldAs(s.history, i, c, t);
  }

  /** From TTL + delay after the last write on, every worker hands out what the table holds. */
  lemma WorkersAgree(s: State, delay: nat, e: Event)
    requires Inv(s, delay) && Enabled(s, delay, e) && Returned(s, e).Some?
    requires s.history[|s.history| - 1].at + TTL + delay <= s.now
    ensures Returned(s, e).value == Current(s)
  {
    ReturnsAreRecent(s, delay, e);
    var t :| s.now - TTL - delay < t <= s.now && Held(s.history, Returned(s, e).value, t);
    HeldAfterLastWrite(s, delay, Returned(s, e).value, t);
  }

  ghost predicate Run(s: State, delay: nat, run: seq<Event>)
    requires s.history != []
    decreases |run|
  {
    run == [] || (Enabled(s, delay, run[0]) && Run(Step(s, delay, run[0]), delay, run[1..]))
  }

  ghost function After(s: State, delay: nat, run: seq<Event>): State
    requires s.history != [] && Run(s, delay, run)
    decreases |run|
  {
    if run == [] then s else After(Step(s, delay, run[0]), delay, run[1..])
  }

  lemma {:induction false} RunKeepsInv(s: State, delay: nat, run: seq<Event>)
    requires Inv(s, delay) && Run(s, delay, run)
    ensures Inv(After(s, delay, run), delay)
    decreases |run|
  {
    if run != [] {
      StepKeepsInv(s, delay, run[0]);
      RunKeepsInv(Step(s, delay, run[0]), delay, run[1..]);
    }
  }

  lemma RunFirst(s: State, delay: nat, e: Event, rest: seq<Event>)
    requires s.history != [] && Enabled(s, delay, e) && Run(Step(s, delay, e), delay, rest)
    ensures Run(s, delay, [e] + rest) && After(s, delay, [e] + rest) == After(Step(s, delay, e), delay, rest)
  {
    hide Enabled, Step;
    assert ([e] + rest)[1..] == rest;
  }

  /** Overlapping loads really do go back: a load that read before a write and finishes after the writer's own
      reload leaves the old value in the writer's cache, fresh. */
  lemma ReloadCanBeUndone(before: Config, written: Config) returns (run: seq<Event>, end: State)
    requires before != written
    ensures var s := State(0, [Version(before, 0)], map[0 := Process(None, [])]);
            Run(s, 0, run) && After(s, 0, run) == end
    ensures end.history != [] && Current(end) == written && 0 in end.workers
    ensures Fresh(end.workers[0], end.now) && end.workers[0].cache.value.config == before
  {
    var s0 := State(0, [Version(before, 0)], map[0 := Process(None, [])]);
    var s1 := Step(s0, 0, Read(0));
    var s2 := Step(s1, 0, Write(written));
    var s3 := Step(s2, 0, Read(0));
    assert s3.workers[0].loads == [Load(before, 0, 0), Load(written, 1, 0)];
    var s4 := Step(s3, 0, Store(0, 1));
    assert s4.workers[0].loads == [Load(before, 0, 0)];
    end := Step(s4, 0, Store(0, 0));
    run := [Store(0, 0)] + [];
    RunFirst(s4, 0, Store(0, 0), []);
    RunFirst(s3, 0, Store(0, 1), run);
    run := [Store(0, 1)] + run;
    RunFirst(s2, 0, Read(0), run);
    run := [Read(0)] + run;
    RunFirst(s1, 0, Write(written), run);
    run := [Write(written)] + run;
    RunFirst(s0, 0, Read(0), run);
    run := [Read(0)] + run;
  }

  /*************** when a reload sticks ***************/

  // In flight since before the last write, with another value than the one written.
  predicate Stale(s: State, l: Load)
    requires s.history != []
  {
    l.version + 1 < |s.history| && l.config != Current(s)
  }

  // After this run without a write, the event hands `v` to a caller in this worker.
  ghost predicate Returns(s: State, delay: nat, run: seq<Event>, e: Event, w: Worker, v: Config) {
    && s.history != [] && Run(s, delay, run) && (forall d | d in run :: !d.Write?)
    && Enabled(After(s, delay, run), delay, e) && (e.Store? || e.Hit?) && e.worker == w
    && Returned(After(s, delay, run), e) == Some(v)
  }

  // Until another write, this worker hands out nothing but `c`.
  ghost predicate Sticks(s: State, delay: nat, w: Worker, c: Config) {
    forall run, e, v :: Returns(s, delay, run, e, w, v) ==> v == c
  }

  // The cache and every load in flight hold `c`, as the table does.
  ghost predicate Settled(s: State, w: Worker, c: Config) {
    && s.history != [] && Current(s) == c
    && w in s.workers && s.workers[w].cache.Some? && s.workers[w].cache.value.config == c
    && forall k | 0 <= k < |s.workers[w].loads| :: s.workers[w].loads[k].config == c
  }

  lemma SettledStep(s: State, delay: nat, w: Worker, c: Config, e: Event)
    requires Settled(s, w, c) && Enabled(s, delay, e) && !e.Write?
    ensures Settled(Step(s, delay, e), w, c)
  {}

  lemma {:induction false} SettledRun(s: State, delay: nat, w: Worker, c: Config, run: seq<Event>)
    requires Settled(s, w, c) && Run(s, delay, run) && forall d | d in run :: !d.Write?
    ensures Settled(After(s, delay, run), w, c)
    decreases |run|
  {
    if run != [] {
      SettledStep(s, delay, w, c, run[0]);
      SettledRun(Step(s, delay, run[0]), delay, w, c, run[1..]);
    }
  }

  lemma SettledSticks(s: State, delay: nat, w: Worker, c: Config)
    requires Settled(s, w, c)
    ensures Sticks(s, delay, w, c)
  {
    hide Run, After, Enabled;
    forall run, e, v | Returns(s, delay, run, e, w, v) ensures v == c {
      SettledRun(s, delay, w, c, run);
    }
  }

  /** The k-th load is a reload that read after the last write, and now it finishes.  From then on, in every run
      without another write, the worker hands out what was written and nothing else if and only if none of its
      other loads in flight read another value before that write. */
  lemma ReloadSticksIff(s: State, delay: nat, w: Worker, k: nat)
    requires Inv(s, delay) && Enabled(s, delay, Store(w, k)) && s.workers[w].loads[k].version + 1 == |s.history|
    ensures Sticks(Step(s, delay, Store(w, k)), delay, w, Current(s)) <==>
            forall j | 0 <= j < |s.workers[w].loads| && j != k :: !Stale(s, s.workers[w].loads[j])
  {
    if forall j | 0 <= j < |s.workers[w].loads| && j != k :: !Stale(s, s.workers[w].loads[j]) {
      SettledByStore(s, delay, w, k);
      SettledSticks(Step(s, delay, Store(w, k)), delay, w, Current(s));
    } else {
      var j :| 0 <= j < |s.workers[w].loads| && j != k && Stale(s, s.workers[w].loads[j]);
      StaleComesBack(s, delay, w, k, j);
    }
  }

  lemma SettledByStore(s: State, delay: nat, w: Worker, k: nat)
    requires Inv(s, delay) && Enabled(s, delay, Store(w, k)) && s.workers[w].loads[k].version + 1 == |s.history|
    requires forall j | 0 <= j < |s.workers[w].loads| && j != k :: !Stale(s, s.workers[w].loads[j])
    ensures Settled(Step(s, delay, Store(w, k)), w, Current(s))
  {
    hide Held;
    var loads := s.workers[w].loads;
    assert ProcessOk(s.history, s.now, delay, s.workers[w]);
    assert forall j | 0 <= j < |loads| :: HeldAs(s.history, loads[j].version, loads[j].config, loads[j].read);
    assert forall j | 0 <= j < |loads| :: loads[j].config == Current(s);
    var rest := Stored(s.workers[w], k, s.now).loads;
    assert forall i | 0 <= i < |rest| :: rest[i] == loads[if i < k then i else i + 1];
  }

  lemma StaleComesBack(s: State, delay: nat, w: Worker, k: nat, j: nat)
    requires s.history != [] && Enabled(s, delay, Store(w, k))
    requires j < |s.workers[w].loads| && j != k && Stale(s, s.workers[w].loads[j])
    ensures !Sticks(Step(s, delay, Store(w, k)), delay, w, Current(s))
  {
    var next, i := Step(s, delay, Store(w, k)), if j < k then j else j - 1;
    assert next.workers[w].loads[i] == s.workers[w].loads[j];
    assert After(next, delay, []) == next;
    assert Returns(next, delay, [], Store(w, i), w, s.workers[w].loads[j].config);
  }

  /** A reload that finishes more than `delay` after the write always sticks: by then every load that read before
      the write is done. */
  lemma LateReloadSticks(s: State, delay: nat, w: Worker, k: nat)
    requires Inv(s, delay) && Enabled(s, delay, Store(w, k)) && s.history[|s.history| - 1].at + delay < s.now
    ensures Sticks(Step(s, delay, Store(w, k)), delay, w, Current(s))
  {
    assert ProcessOk(s.history, s.now, delay, s.workers[w]);
    forall j | 0 <= j < |s.workers[w].loads|
      ensures s.workers[w].loads[j].version + 1 < |s.history| ==> s.workers[w].loads[j].read <= s.history[|s.history| - 1].at
    {
      if s.workers[w].loads[j].version + 1 < |s.history| { ReadBeforeWrite(s, delay, s.workers[w].loads[j]); }
    }
    ReloadSticksIff(s, delay, w, k);
  }

  lemma ReadBeforeWrite(s: State, delay: nat, l: Load)
    requires Inv(s, delay) && HeldAs(s.history, l.version, l.config, l.read) && l.version + 1 < |s.history|
    ensures l.read <= s.history[|s.history| - 1].at
  {
    assert s.history[l.version + 1].at <= s.history[|s.history| - 1].at;
  }

  /*************** the stored list of scopes ***************/

  function Split(s: string, part: string): seq<string>
    decreases |s|
  {
    if s == "" then [part]
    else if s[0] == ',' then [part] + Split(s[1..], "")
    else Split(s[1..], part + [s[0]])
  }

  predicate Space(c: char) { c in " \t\n\r" }

  function TrimLeft(s: string): string { if s != "" && Space(s[0]) then TrimLeft(s[1..]) else s }
  function TrimRight(s: string): string
    decreases |s|
  {
    if s != "" && Space(s[|s| - 1]) then TrimRight(s[..|s| - 1]) else s
  }
  function Strip(s: string): string { TrimRight(TrimLeft(s)) }

  function ParseScopes(raw: string): set<string> {
    var parts := Split(raw, "");
    set i | 0 <= i < |parts| && Strip(parts[i]) != "" :: Strip(parts[i])
  }

  function JoinCsv(names: seq<string>): string {
    if names == [] then "" else if |names| == 1 then names[0] else names[0] + "," + JoinCsv(names[1..])
  }

  predicate ScopeName(s: string) { s != "" && ',' !in s && forall c | c in s :: !Space(c) }

  lemma {:induction false} SplitPlain(name: string, part: string, rest: string)
    requires ',' !in name
    ensures Split(name + rest, part) == Split(rest, part + name)
    decreases |name|
  {
    if name == "" {
      assert name + rest == rest && part + name == part;
    } else {
      assert (name + rest)[1..] == name[1..] + rest;
      SplitPlain(name[1..], part + [name[0]], rest);
      assert part + [name[0]] + name[1..] == part + name;
    }
  }

  lemma {:induction false} SplitJoin(names: seq<string>)
    requires names != [] && forall n | n in names :: ',' !in n
    ensures Split(JoinCsv(names), "") == names
  {
    var head := names[0];
    if |names| == 1 {
      SplitPlain(head, "", "");
      assert head + "" == head && "" + head == head;
    } else {
      var rest := JoinCsv(names[1..]);
      SplitJoin(names[1..]);
      assert JoinCsv(names) == head + ("," + rest);
      SplitPlain(head, "", "," + rest);
      assert ("," + rest)[1..] == rest && "" + head == head;
    }
  }

  lemma StripName(s: string)
    requires ScopeName(s)
    ensures Strip(s) == s
  {
    assert s[0] in s && s[|s| - 1] in s;
  }

  /** What set_profile writes is what a load reads back, the empty set included. */
  lemma ScopesReadBack(names: seq<string>)
    requires forall n | n in names :: ScopeName(n)
    ensures ParseScopes(JoinCsv(names)) == set n | n in names
  {
    if names == [] {
      assert Split("", "") == [""];
      assert Strip("") == "";
    } else {
      SplitJoin(names);
      forall i | 0 <= i < |names| ensures Strip(names[i]) == names[i] { StripName(names[i]); }
    }
  }
}
