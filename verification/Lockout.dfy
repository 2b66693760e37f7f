/** Login lockout: the check before authentication and the record after it are two statements, so several
    attempts on one account can be between the two at once.  Each reads the clock apart from its statement: the
    check after its SELECT, the record before its UPDATE.  Time is in microseconds, the resolution of the stored
    timestamps. */
module Lockout {
  import opened Options

  type Time = int

  // The two columns of the user row.
  datatype Row = Row(failures: nat, lockedUntil: Option<Time>)

  // The settings: attempts, and the length of a lock.
  datatype Policy = Policy(maxAttempts: int, length: Time)

  predicate Locked(row: Row, now: Time) { row.lockedUntil.Some? && now < row.lockedUntil.value }

  function Failed(row: Row, p: Policy, now: Time): Row {
    Row(row.failures + 1, if row.failures + 1 >= p.maxAttempts then Some(now + p.length) else row.lockedUntil)
  }

  const CLEAR := Row(0, None)

  /*************** the code ***************/

  class Users {
    var rows: map<string, Row>

    method CheckLockout(username: string, now: Time) returns (locked: bool)
      ensures locked <==> username in rows && Locked(rows[username], now)
    {
      if username !in rows || rows[username].lockedUntil.None? { return false; }
      locked := now < rows[username].lockedUntil.value;
    }

    method RecordFailedLogin(username: string, p: Policy, now: Time)
      modifies this
      ensures rows == if username in old(rows) then old(rows)[username := Failed(old(rows)[username], p, now)] else old(rows)
    {
      if username in rows {
        var row := rows[username];
        var lockedUntil := row.lockedUntil;
        if row.failures + 1 >= p.maxAttempts { lockedUntil := Some(now + p.length); }
        rows := rows[username := Row(row.failures + 1, lockedUntil)];
      }
    }

    method RecordSuccessfulLogin(username: string)
      modifies this
      ensures rows == if username in old(rows) then old(rows)[username := CLEAR] else old(rows)
    {
      if username in rows { rows := rows[username := CLEAR]; }
    }

    /** One login request run on its own.  `good` says whether the password is right. */
    method Login(username: string, good: bool, p: Policy, now: Time) returns (admitted: bool, ok: bool)
      modifies this
      ensures admitted <==> !(username in old(rows) && Locked(old(rows)[username], now))
      ensures ok <==> admitted && good && username in old(rows)
      ensures !admitted || username !in old(rows) ==> rows == old(rows)
      ensures admitted && username in old(rows) ==>
        rows == old(rows)[username := if good then CLEAR else Failed(old(rows)[username], p, now)]
    {
      var locked := CheckLockout(username, now);
      if locked { return false, false; }
      ok := good && username in rows;
      if !ok {
        RecordFailedLogin(username, p, now);
        return true, false;
      }
      RecordSuccessfulLogin(username);
      admitted := true;
    }
  }

  /*************** attempts on one account, interleaved ***************/

  /** A wrong password, in one of the slots for attempts in flight.  `Admit` is the SELECT of a check that lets
      it pass by the clock it reads afterwards; `Write` is the UPDATE, with the stamp read before it. */
  datatype Event = Admit(slot: nat, at: Time, clock: Time) | Write(slot: nat, at: Time, stamp: Time)

  // The row, and the attempts in flight with the clock they passed by.
  datatype State = State(row: Row, open: map<nat, Time>)

  const START := State(CLEAR, map[])

  // An attempt reads its clocks in order, and its UPDATE runs at most `delay` after its stamp.
  predicate Enabled(s: State, p: Policy, workers: nat, delay: nat, e: Event) {
    match e
    case Admit(i, at, clock) => i < workers && i !in s.open && at <= clock && !Locked(s.row, clock)
    case Write(i, at, stamp) => i in s.open && s.open[i] <= stamp <= at <= stamp + delay
  }

  function Step(s: State, p: Policy, e: Event): State {
    match e
    case Admit(i, _, clock) => s.(open := s.open[i := clock])
    case Write(i, _, stamp) => State(Failed(s.row, p, stamp), s.open - {i})
  }

  function After(p: Policy, run: seq<Event>): State {
    if run == [] then START else Step(After(p, run[..|run| - 1]), p, run[|run| - 1])
  }

  // The statements run in the order of their times.
  predicate Run(p: Policy, workers: nat, delay: nat, run: seq<Event>) {
    run == [] || (
      var init, last := run[..|run| - 1], run[|run| - 1];
      Run(p, workers, delay, init) && Enabled(After(p, init), p, workers, delay, last) && UpTo(init, last.at))
  }

  predicate UpTo(run: seq<Event>, now: Time) { forall e | e in run :: e.at <= now }

  // Whole lock lengths in a stretch of time.
  function Spans(t: nat, length: Time): nat
    requires length > 0
    decreases t
  {
    if t < length then 0 else 1 + Spans(t - length, length)
  }

  lemma {:induction false} SpansGrow(t: nat, u: nat, length: Time)
    requires length > 0 && t <= u
    ensures Spans(t, length) <= Spans(u, length)
    decreases t
  {
    if t >= length { SpansGrow(t - length, u - length, length); }
  }

  lemma Apart(x: int, y: int)
    requires y >= 0
    ensures x >= 1 ==> x * y >= y
    ensures x <= -1 ==> x * y <= -y
  {
    if x >= 1 {
      assert (x - 1) * y >= 0;
    } else if x <= -1 {
      assert (-x - 1) * y >= 0;
    }
  }

  lemma Quotient(t: int, length: int, k: int, r: int)
    requires length > 0 && 0 <= r < length && t == k * length + r
    ensures t / length == k
  {
    var (q, m) := (t / length, t % length);
    assert t == q * length + m;
    Apart(q - k, length);
    assert (q - k) * length == q * length - k * length;
  }

  /** Spans is integer division. */
  lemma {:induction false} SpansDivide(t: nat, length: Time)
    requires length > 0
    ensures Spans(t, length) == t / length
    ensures Spans(t, length) * length <= t
    decreases t
  {
    if t < length {
      Quotient(t, length, 0, t);
    } else {
      SpansDivide(t - length, length);
      var k := (t - length) / length;
      var r := (t - length) % length;
      assert t - length == k * length + r;
      assert (k + 1) * length == k * length + length;
      Quotient(t, length, k + 1, r);
    }
  }

  lemma Times(w: nat, a: int, b: int)
    requires a <= b
    ensures w * a <= w * b
  {
    assert w * (b - a) >= 0;
  }

  /*************** what one slot can do ***************/

  predicate Counted(e: Event, a: Time, b: Time) { e.Admit? && a <= e.clock <= b }

  // The attempts that passed the check by a clock from `a` to `b`.
  function AdmitsIn(run: seq<Event>, a: Time, b: Time): nat {
    if run == [] then 0
    else AdmitsIn(run[..|run| - 1], a, b) + if Counted(run[|run| - 1], a, b) then 1 else 0
  }

  function AdmitsBy(run: seq<Event>, i: nat, a: Time, b: Time): nat {
    if run == [] then 0
    else AdmitsBy(run[..|run| - 1], i, a, b) + if run[|run| - 1].slot == i && Counted(run[|run| - 1], a, b) then 1 else 0
  }

  // A failure below the threshold sets no lock.
  predicate IsFree(p: Policy, s: State, e: Event) { e.Write? && s.row.failures + 1 < p.maxAttempts }

  function FreeBy(p: Policy, run: seq<Event>, i: nat): nat {
    if run == [] then 0
    else FreeBy(p, run[..|run| - 1], i) + if run[|run| - 1].slot == i && IsFree(p, After(p, run[..|run| - 1]), run[|run| - 1]) then 1 else 0
  }

  // The clock of the slot's last attempt.
  function LastOf(run: seq<Event>, i: nat): Option<Time> {
    if run == [] then None
    else if run[|run| - 1].Admit? && run[|run| - 1].slot == i then Some(run[|run| - 1].clock) else LastOf(run[..|run| - 1], i)
  }

  function Min(a: Time, b: Time): Time { if a < b then a else b }

  // What slot i has done by `now`, as far as the window from `a` to `b` goes.
  datatype Slot = Slot(admits: nat, free: nat, last: Option<Time>)

  function SlotOf(p: Policy, run: seq<Event>, i: nat, a: Time, b: Time): Slot {
    Slot(AdmitsBy(run, i, a, b), FreeBy(p, run, i), LastOf(run, i))
  }

  // The attempts of the slot that a lock must have separated from the one before.
  function Rounds(x: Slot, a: Time, b: Time, gap: Time): nat
    requires gap > 0
  {
    if x.last.Some? && a <= Min(x.last.value, b) then x.free + Spans(Min(x.last.value, b) - a, gap) else x.free
  }

  // The lock in force keeps the slot out until `gap` after its last attempt.
  predicate Held(p: Policy, row: Row, c: Time, gap: Time) {
    row.failures >= p.maxAttempts && row.lockedUntil.Some? && c + gap <= row.lockedUntil.value
  }

  ghost predicate SlotInv(p: Policy, s: State, x: Slot, i: nat, a: Time, b: Time, gap: Time, now: Time)
    requires gap > 0
  {
    && (i in s.open <==> x.last.Some? && i in s.open && s.open[i] == x.last.value)
    && (x.admits > 0 ==> x.last.Some? && a <= Min(x.last.value, b))
    && x.admits <= Rounds(x, a, b, gap) + 1
    && (i !in s.open && x.last.Some? ==>
          x.last.value <= now && (x.admits <= Rounds(x, a, b, gap) || Held(p, s.row, x.last.value, gap)))
  }

  // The gap that a lock puts between two attempts of one slot.
  predicate IsGap(p: Policy, workers: nat, delay: nat, gap: Time) {
    0 < gap <= p.length && (workers == 1 || gap <= p.length - delay)
  }

  // The slot after one more event.
  function SlotNext(p: Policy, s: State, x: Slot, i: nat, a: Time, b: Time, e: Event): Slot {
    if e.slot != i then x
    else Slot(x.admits + if Counted(e, a, b) then 1 else 0, x.free + if IsFree(p, s, e) then 1 else 0,
              if e.Admit? then Some(e.clock) else x.last)
  }

  lemma SpansOneMore(t: nat, u: nat, gap: Time)
    requires gap > 0 && t + gap <= u
    ensures Spans(t, gap) + 1 <= Spans(u, gap)
  {
    SpansGrow(t, u - gap, gap);
  }

  lemma AdmitKeepsSlot(p: Policy, s: State, x: Slot, i: nat, a: Time, b: Time, gap: Time, now: Time, e: Event)
    requires gap > 0 && SlotInv(p, s, x, i, a, b, gap, now) && now <= e.at
    requires e.Admit? && e.slot == i && i !in s.open && e.at <= e.clock && !Locked(s.row, e.clock)
    ensures SlotInv(p, Step(s, p, e), SlotNext(p, s, x, i, a, b, e), i, a, b, gap, e.at)
  {
    hide Spans;
    if x.last.Some? && a <= Min(x.last.value, b) {
      var (t, u) := (Min(x.last.value, b) - a, Min(e.clock, b) - a);
      SpansGrow(t, u, gap);
      if t + gap <= u { SpansOneMore(t, u, gap); }
    }
  }

  lemma OwnWriteKeepsSlot(p: Policy, s: State, x: Slot, i: nat, a: Time, b: Time, gap: Time, now: Time, e: Event)
    requires 0 < gap <= p.length && SlotInv(p, s, x, i, a, b, gap, now) && now <= e.at
    requires e.Write? && e.slot == i && i in s.open && s.open[i] <= e.stamp <= e.at
    ensures SlotInv(p, Step(s, p, e), SlotNext(p, s, x, i, a, b, e), i, a, b, gap, e.at)
  {
    hide Spans;
  }

  lemma OtherKeepsSlot(p: Policy, workers: nat, delay: nat, s: State, x: Slot, i: nat, a: Time, b: Time, gap: Time, now: Time, e: Event)
    requires gap > 0 && SlotInv(p, s, x, i, a, b, gap, now) && now <= e.at
    requires e.slot != i && gap <= p.length - delay && Enabled(s, p, workers, delay, e)
    ensures SlotInv(p, Step(s, p, e), SlotNext(p, s, x, i, a, b, e), i, a, b, gap, e.at)
  {
    hide Spans;
  }

  lemma {:induction false} SlotsInUse(p: Policy, workers: nat, delay: nat, run: seq<Event>)
    requires Run(p, workers, delay, run)
    ensures forall i | i in After(p, run).open :: i < workers
    ensures forall e | e in run :: e.slot < workers
  {
    if run != [] { SlotsInUse(p, workers, delay, run[..|run| - 1]); }
  }

  lemma {:induction false} RunKeepsSlot(p: Policy, workers: nat, delay: nat, run: seq<Event>, i: nat, a: Time, b: Time, gap: Time, now: Time)
    requires Run(p, workers, delay, run) && IsGap(p, workers, delay, gap) && i < workers && UpTo(run, now)
    ensures SlotInv(p, After(p, run), SlotOf(p, run, i, a, b), i, a, b, gap, now)
  {
    if run != [] {
      var init, e := run[..|run| - 1], run[|run| - 1];
      var (s, x) := (After(p, init), SlotOf(p, init, i, a, b));
      RunKeepsSlot(p, workers, delay, init, i, a, b, gap, e.at);
      SlotsInUse(p, workers, delay, run);
      assert e in run && e.slot < workers;
      assert SlotOf(p, run, i, a, b) == SlotNext(p, s, x, i, a, b, e);
      hide SlotInv, SlotNext, SlotOf, Run;
      if e.slot != i {
        OtherKeepsSlot(p, workers, delay, s, x, i, a, b, gap, e.at, e);
      } else if e.Admit? {
        AdmitKeepsSlot(p, s, x, i, a, b, gap, e.at, e);
      } else {
        OwnWriteKeepsSlot(p, s, x, i, a, b, gap, e.at, e);
      }
      SlotLater(p, Step(s, p, e), SlotNext(p, s, x, i, a, b, e), i, a, b, gap, e.at, now);
    }
  }

  lemma SlotLater(p: Policy, s: State, x: Slot, i: nat, a: Time, b: Time, gap: Time, now: Time, later: Time)
    requires gap > 0 && SlotInv(p, s, x, i, a, b, gap, now) && now <= later
    ensures SlotInv(p, s, x, i, a, b, gap, later)
  {}

  // In any window one slot admits its free failures, one attempt per gap, and one more.
  lemma SlotBound(p: Policy, workers: nat, delay: nat, run: seq<Event>, i: nat, a: Time, span: nat, gap: Time)
    requires Run(p, workers, delay, run) && IsGap(p, workers, delay, gap) && i < workers
    ensures AdmitsBy(run, i, a, a + span) <= FreeBy(p, run, i) + Spans(span, gap) + 1
  {
    var now := Latest(run);
    RunKeepsSlot(p, workers, delay, run, i, a, a + span, gap, now);
    var x := SlotOf(p, run, i, a, a + span);
    hide Spans;
    if x.last.Some? && a <= Min(x.last.value, a + span) { SpansGrow(Min(x.last.value, a + span) - a, span, gap); }
  }

  lemma Latest(run: seq<Event>) returns (now: Time)
    ensures UpTo(run, now)
  {
    if run == [] {
      now := 0;
    } else {
      var before := Latest(run[..|run| - 1]);
      var last := run[|run| - 1];
      now := if before < last.at then last.at else before;
      assert run == run[..|run| - 1] + [last];
    }
  }

  /*************** all slots together ***************/

  function AllAdmits(run: seq<Event>, n: nat, a: Time, b: Time): nat {
    if n == 0 then 0 else AllAdmits(run, n - 1, a, b) + AdmitsBy(run, n - 1, a, b)
  }

  function AllFree(p: Policy, run: seq<Event>, n: nat): nat {
    if n == 0 then 0 else AllFree(p, run, n - 1) + FreeBy(p, run, n - 1)
  }

  lemma {:induction false} AllAdmitsNext(run: seq<Event>, n: nat, a: Time, b: Time)
    requires run != []
    ensures AllAdmits(run, n, a, b) ==
            AllAdmits(run[..|run| - 1], n, a, b) + if run[|run| - 1].slot < n && Counted(run[|run| - 1], a, b) then 1 else 0
  {
    if n > 0 { AllAdmitsNext(run, n - 1, a, b); }
  }

  lemma {:induction false} AllFreeNext(p: Policy, run: seq<Event>, n: nat)
    requires run != []
    ensures AllFree(p, run, n) ==
            AllFree(p, run[..|run| - 1], n) + if run[|run| - 1].slot < n && IsFree(p, After(p, run[..|run| - 1]), run[|run| - 1]) then 1 else 0
  {
    if n > 0 { AllFreeNext(p, run, n - 1); }
  }

  lemma {:induction false} AdmitsAreAll(run: seq<Event>, n: nat, a: Time, b: Time)
    requires forall e | e in run :: e.slot < n
    ensures AdmitsIn(run, a, b) == AllAdmits(run, n, a, b)
  {
    if run == [] {
      NothingAdmitted(n, a, b);
    } else {
      AllAdmitsNext(run, n, a, b);
      assert run[|run| - 1] in run;
      AdmitsAreAll(run[..|run| - 1], n, a, b);
    }
  }

  lemma {:induction false} NothingAdmitted(n: nat, a: Time, b: Time)
    ensures AllAdmits([], n, a, b) == 0
  {
    if n > 0 { NothingAdmitted(n - 1, a, b); }
  }

  lemma {:induction false} NothingFree(p: Policy, n: nat)
    ensures AllFree(p, [], n) == 0
  {
    if n > 0 { NothingFree(p, n - 1); }
  }

  // Fewer failures than the threshold are free, over all slots.
  lemma {:induction false} FreeAreFew(p: Policy, run: seq<Event>, n: nat)
    requires p.maxAttempts >= 1
    ensures AllFree(p, run, n) <= p.maxAttempts - 1 && AllFree(p, run, n) <= After(p, run).row.failures
  {
    if run == [] {
      NothingFree(p, n);
    } else {
      FreeAreFew(p, run[..|run| - 1], n);
      AllFreeNext(p, run, n);
    }
  }

  lemma {:induction false} SlotsAdmit(p: Policy, workers: nat, delay: nat, run: seq<Event>, n: nat, a: Time, span: nat, gap: Time)
    requires Run(p, workers, delay, run) && IsGap(p, workers, delay, gap) && n <= workers
    ensures AllAdmits(run, n, a, a + span) <= AllFree(p, run, n) + n * (Spans(span, gap) + 1)
  {
    if n > 0 {
      SlotBound(p, workers, delay, run, n - 1, a, span, gap);
      SlotsAdmit(p, workers, delay, run, n - 1, a, span, gap);
      hide Spans;
      assert n * (Spans(span, gap) + 1) == (n - 1) * (Spans(span, gap) + 1) + Spans(span, gap) + 1;
    }
  }

  lemma AdmittedByGap(p: Policy, workers: nat, delay: nat, run: seq<Event>, a: Time, span: nat, gap: Time)
    requires p.maxAttempts >= 1 && Run(p, workers, delay, run) && IsGap(p, workers, delay, gap)
    ensures AdmitsIn(run, a, a + span) <= p.maxAttempts - 1 + workers * (span / gap + 1)
  {
    SpansDivide(span, gap);
    SlotsInUse(p, workers, delay, run);
    AdmitsAreAll(run, workers, a, a + span);
    SlotsAdmit(p, workers, delay, run, workers, a, span, gap);
    FreeAreFew(p, run, workers);
  }

  /** In any run from a clear account and any window of it, of length `span` and however late, with at most
      `workers` attempts in flight, whose UPDATEs run at most `delay` after their stamps: at most
      maxAttempts - 1 + workers * (span / (length - delay) + 1) wrong passwords are admitted.  How long a check
      takes from its SELECT to its clock does not matter. */
  lemma AdmittedAtMost(p: Policy, workers: nat, delay: nat, run: seq<Event>, a: Time, span: nat)
    requires p.maxAttempts >= 1 && delay < p.length && Run(p, workers, delay, run)
    ensures AdmitsIn(run, a, a + span) <= p.maxAttempts - 1 + workers * (span / (p.length - delay) + 1)
  {
    AdmittedByGap(p, workers, delay, run, a, span, p.length - delay);
  }

  /** Attempts one after another: maxAttempts - 1 + span / length + 1, in any window of any run, whatever the
      delays. */
  lemma SequentialBound(p: Policy, delay: nat, run: seq<Event>, a: Time, span: nat)
    requires p.maxAttempts >= 1 && p.length > 0 && Run(p, 1, delay, run)
    ensures AdmitsIn(run, a, a + span) <= (p.maxAttempts - 1) + span / p.length + 1
  {
    AdmittedByGap(p, 1, delay, run, a, span, p.length);
  }

  /*************** runs that meet the bounds, and that break them ***************/

  // Attempts of the slots lo to hi - 1 that pass the check together, and are recorded together.
  function Burst(lo: nat, hi: nat, t: Time): seq<Event>
    requires lo <= hi
  {
    if lo == hi then [] else Burst(lo, hi - 1, t) + [Admit(hi - 1, t, t)]
  }

  function Records(lo: nat, hi: nat, t: Time): seq<Event>
    requires lo <= hi
  {
    if lo == hi then [] else Records(lo, hi - 1, t) + [Write(hi - 1, t, t)]
  }

  lemma OneMore(p: Policy, workers: nat, delay: nat, run: seq<Event>, e: Event)
    requires Run(p, workers, delay, run) && Enabled(After(p, run), p, workers, delay, e) && UpTo(run, e.at)
    ensures Run(p, workers, delay, run + [e]) && UpTo(run + [e], e.at) && After(p, run + [e]) == Step(After(p, run), p, e)
    ensures forall a, b :: AdmitsIn(run + [e], a, b) == AdmitsIn(run, a, b) + if Counted(e, a, b) then 1 else 0
  {
    assert (run + [e])[..|run|] == run;
  }

  function Opened(open: map<nat, Time>, lo: nat, hi: nat, t: Time): map<nat, Time>
    requires lo <= hi
  {
    if lo == hi then open else Opened(open, lo, hi - 1, t)[hi - 1 := t]
  }

  function Closed(open: map<nat, Time>, lo: nat, hi: nat): map<nat, Time>
    requires lo <= hi
  {
    if lo == hi then open else Closed(open, lo, hi - 1) - {hi - 1}
  }

  predicate Vacant(open: map<nat, Time>, lo: nat, hi: nat) { forall i | lo <= i < hi :: i !in open }
  predicate Taken(open: map<nat, Time>, lo: nat, hi: nat, t: Time) { forall i | lo <= i < hi :: i in open && open[i] <= t }

  lemma {:induction false} OpenedAt(open: map<nat, Time>, lo: nat, hi: nat, t: Time)
    requires lo <= hi
    ensures forall i: nat :: i in Opened(open, lo, hi, t) <==> i in open || lo <= i < hi
    ensures forall i: nat | i in Opened(open, lo, hi, t) :: Opened(open, lo, hi, t)[i] == if lo <= i < hi then t else open[i]
  {
    if lo < hi { OpenedAt(open, lo, hi - 1, t); }
  }

  lemma {:induction false} ClosedAt(open: map<nat, Time>, lo: nat, hi: nat)
    requires lo <= hi
    ensures forall i: nat :: i in Closed(open, lo, hi) <==> i in open && !(lo <= i < hi)
    ensures forall i: nat | i in Closed(open, lo, hi) :: Closed(open, lo, hi)[i] == open[i]
  {
    if lo < hi { ClosedAt(open, lo, hi - 1); }
  }

  // Opened and closed again.
  lemma OpenedClosed(open: map<nat, Time>, lo: nat, hi: nat, t: Time)
    requires lo <= hi && Vacant(open, lo, hi)
    ensures Taken(Opened(open, lo, hi, t), lo, hi, t) && Closed(Opened(open, lo, hi, t), lo, hi) == open
  {
    OpenedAt(open, lo, hi, t);
    ClosedAt(Opened(open, lo, hi, t), lo, hi);
    hide Opened, Closed;
    var back := Closed(Opened(open, lo, hi, t), lo, hi);
    assert forall i: nat :: i in back <==> i in open;
    assert back.Keys == open.Keys;
  }

  lemma OneVacant(open: map<nat, Time>, lo: nat, hi: nat, t: Time)
    requires lo < hi && Vacant(open, lo, hi)
    ensures Vacant(open, lo, hi - 1) && hi - 1 !in Opened(open, lo, hi - 1, t)
    ensures Opened(open, lo, hi, t) == Opened(open, lo, hi - 1, t)[hi - 1 := t]
  {
    OpenedAt(open, lo, hi - 1, t);
  }

  lemma OneTaken(open: map<nat, Time>, lo: nat, hi: nat, t: Time)
    requires lo < hi && Taken(open, lo, hi, t)
    ensures Taken(open, lo, hi - 1, t) && hi - 1 in Closed(open, lo, hi - 1) && Closed(open, lo, hi - 1)[hi - 1] <= t
    ensures Closed(open, lo, hi) == Closed(open, lo, hi - 1) - {hi - 1}
  {
    ClosedAt(open, lo, hi - 1);
  }

  lemma {:induction false} BurstRuns(p: Policy, workers: nat, delay: nat, before: seq<Event>, lo: nat, hi: nat, t: Time)
    requires Run(p, workers, delay, before) && UpTo(before, t) && !Locked(After(p, before).row, t) && lo <= hi <= workers
    requires Vacant(After(p, before).open, lo, hi)
    ensures Run(p, workers, delay, before + Burst(lo, hi, t)) && UpTo(before + Burst(lo, hi, t), t)
    ensures After(p, before + Burst(lo, hi, t)) == State(After(p, before).row, Opened(After(p, before).open, lo, hi, t))
    ensures forall a, b :: AdmitsIn(before + Burst(lo, hi, t), a, b) == AdmitsIn(before, a, b) + if a <= t <= b then hi - lo else 0
  {
    if lo == hi {
      assert before + [] == before;
    } else {
      hide *;
      OneVacant(After(p, before).open, lo, hi, t);
      BurstRuns(p, workers, delay, before, lo, hi - 1, t);
      OneAdmit(p, workers, delay, before + Burst(lo, hi - 1, t), hi - 1, t);
      BurstSnoc(before, lo, hi, t);
    }
  }

  lemma BurstSnoc(before: seq<Event>, lo: nat, hi: nat, t: Time)
    requires lo < hi
    ensures before + Burst(lo, hi, t) == before + Burst(lo, hi - 1, t) + [Admit(hi - 1, t, t)]
  {
  }

  // Recording n at once counts n, and locks when the count reaches the threshold.
  function FailedTimes(row: Row, p: Policy, t: Time, n: nat): Row {
    if n == 0 then row else Failed(FailedTimes(row, p, t, n - 1), p, t)
  }

  lemma {:induction false} FailedTimesIs(row: Row, p: Policy, t: Time, n: nat)
    ensures FailedTimes(row, p, t, n).failures == row.failures + n
    ensures FailedTimes(row, p, t, n).lockedUntil ==
            if n > 0 && row.failures + n >= p.maxAttempts then Some(t + p.length) else row.lockedUntil
  {
    if n > 0 { FailedTimesIs(row, p, t, n - 1); }
  }

  lemma {:induction false} RecordsRun(p: Policy, workers: nat, delay: nat, before: seq<Event>, lo: nat, hi: nat, t: Time)
    requires Run(p, workers, delay, before) && UpTo(before, t) && lo <= hi
    requires Taken(After(p, before).open, lo, hi, t)
    ensures Run(p, workers, delay, before + Records(lo, hi, t)) && UpTo(before + Records(lo, hi, t), t)
    ensures After(p, before + Records(lo, hi, t)) ==
            State(FailedTimes(After(p, before).row, p, t, hi - lo), Closed(After(p, before).open, lo, hi))
    ensures forall a, b :: AdmitsIn(before + Records(lo, hi, t), a, b) == AdmitsIn(before, a, b)
  {
    if lo == hi {
      assert before + [] == before;
    } else {
      hide *;
      OneTaken(After(p, before).open, lo, hi, t);
      RecordsRun(p, workers, delay, before, lo, hi - 1, t);
      var run := before + Records(lo, hi - 1, t);
      OneRecord(p, workers, delay, run, hi - 1, t);
      RecordsSnoc(before, lo, hi, t);
      assert hi - 1 - lo == hi - lo - 1;
      FailedOnceMore(After(p, before).row, p, t, hi - lo);
    }
  }

  lemma FailedOnceMore(row: Row, p: Policy, t: Time, n: nat)
    requires n > 0
    ensures FailedTimes(row, p, t, n) == Failed(FailedTimes(row, p, t, n - 1), p, t)
  {}

  lemma OneRecord(p: Policy, workers: nat, delay: nat, run: seq<Event>, i: nat, t: Time)
    requires Run(p, workers, delay, run) && UpTo(run, t) && i in After(p, run).open && After(p, run).open[i] <= t
    ensures Run(p, workers, delay, run + [Write(i, t, t)]) && UpTo(run + [Write(i, t, t)], t)
    ensures After(p, run + [Write(i, t, t)]) == State(Failed(After(p, run).row, p, t), After(p, run).open - {i})
    ensures forall a, b :: AdmitsIn(run + [Write(i, t, t)], a, b) == AdmitsIn(run, a, b)
  {
    hide Run, After, AdmitsIn, UpTo;
    OneMore(p, workers, delay, run, Write(i, t, t));
  }

  lemma OneAdmit(p: Policy, workers: nat, delay: nat, run: seq<Event>, i: nat, t: Time)
    requires Run(p, workers, delay, run) && UpTo(run, t) && i < workers && i !in After(p, run).open && !Locked(After(p, run).row, t)
    ensures Run(p, workers, delay, run + [Admit(i, t, t)]) && UpTo(run + [Admit(i, t, t)], t)
    ensures After(p, run + [Admit(i, t, t)]) == After(p, run).(open := After(p, run).open[i := t])
    ensures forall a, b :: AdmitsIn(run + [Admit(i, t, t)], a, b) == AdmitsIn(run, a, b) + if a <= t <= b then 1 else 0
  {
    hide Run, After, AdmitsIn, UpTo;
    OneMore(p, workers, delay, run, Admit(i, t, t));
  }

  lemma RecordsSnoc(before: seq<Event>, lo: nat, hi: nat, t: Time)
    requires lo < hi
    ensures before + Records(lo, hi, t) == before + Records(lo, hi - 1, t) + [Write(hi - 1, t, t)]
  {
  }

  // Attempts checked together and then recorded together, at `t`.
  lemma RoundRuns(p: Policy, workers: nat, delay: nat, before: seq<Event>, lo: nat, hi: nat, t: Time) returns (run: seq<Event>)
    requires Run(p, workers, delay, before) && UpTo(before, t) && !Locked(After(p, before).row, t) && lo <= hi <= workers
    requires Vacant(After(p, before).open, lo, hi)
    ensures Run(p, workers, delay, run) && UpTo(run, t)
    ensures After(p, run) == State(FailedTimes(After(p, before).row, p, t, hi - lo), After(p, before).open)
    ensures forall a, b :: AdmitsIn(run, a, b) == AdmitsIn(before, a, b) + if a <= t <= b then hi - lo else 0
  {
    hide *;
    OpenedClosed(After(p, before).open, lo, hi, t);
    BurstRuns(p, workers, delay, before, lo, hi, t);
    RecordsRun(p, workers, delay, before + Burst(lo, hi, t), lo, hi, t);
    run := before + Burst(lo, hi, t) + Records(lo, hi, t);
  }

  // One fewer failure than the threshold, one after another in one slot: not locked yet.
  lemma {:induction false} Prelude(p: Policy, workers: nat, delay: nat, before: seq<Event>, i: nat, n: nat, t: Time) returns (run: seq<Event>)
    requires n < p.maxAttempts && i < workers
    requires Run(p, workers, delay, before) && UpTo(before, t) && After(p, before).row == CLEAR && Vacant(After(p, before).open, i, i + 1)
    ensures Run(p, workers, delay, run) && UpTo(run, t) && After(p, run) == State(Row(n, None), After(p, before).open)
    ensures forall a, b :: AdmitsIn(run, a, b) == AdmitsIn(before, a, b) + if a <= t <= b then n else 0
  {
    if n == 0 {
      run := before;
    } else {
      var most := Prelude(p, workers, delay, before, i, n - 1, t);
      hide Run, After, AdmitsIn, UpTo;
      run := RoundRuns(p, workers, delay, most, i, i + 1, t);
      FailedTimesIs(Row(n - 1, None), p, t, 1);
    }
  }

  // Then all workers at once, again whenever the lock runs out, `rounds` times.
  lemma {:induction false} Siege(p: Policy, workers: nat, rounds: nat) returns (run: seq<Event>)
    requires p.maxAttempts >= 1 && p.length > 0 && workers > 0
    ensures rounds * p.length >= 0 && Run(p, workers, 0, run) && UpTo(run, rounds * p.length)
    ensures After(p, run).open == map[] && !Locked(After(p, run).row, rounds * p.length)
    ensures After(p, run).row.failures >= p.maxAttempts - 1
    ensures forall b | rounds * p.length - p.length <= b && 0 <= b :: AdmitsIn(run, 0, b) == p.maxAttempts - 1 + workers * rounds
  {
    if rounds == 0 {
      run := Prelude(p, workers, 0, [], 0, p.maxAttempts - 1, 0);
      assert workers * 0 == 0;
    } else {
      var before := Siege(p, workers, rounds - 1);
      var t := (rounds - 1) * p.length;
      assert rounds * p.length == t + p.length;
      hide Run, After, AdmitsIn, UpTo;
      run := RoundRuns(p, workers, 0, before, 0, workers, t);
      FailedTimesIs(After(p, before).row, p, t, workers);
      UpToLater(run, t, t + p.length);
      assert workers * rounds == workers * (rounds - 1) + workers;
    }
  }

  lemma UpToLater(run: seq<Event>, now: Time, later: Time)
    requires UpTo(run, now) && now <= later
    ensures UpTo(run, later)
  {}

  ghost predicate Reached(p: Policy, workers: nat, delay: nat, a: Time, span: nat, n: int) {
    exists run: seq<Event> :: Run(p, workers, delay, run) && AdmitsWithin(run, a, span) == n
  }

  function AdmitsWithin(run: seq<Event>, a: Time, span: nat): nat { AdmitsIn(run, a, a + span) }

  /** Without a delay the bound is reached, for every policy, every number of workers and every span: the count
      is not reset when a lock runs out, so each lock length buys every worker one more attempt. */
  lemma BoundIsMet(p: Policy, workers: nat, delay: nat, span: nat)
    requires p.maxAttempts >= 1 && p.length > 0 && workers > 0
    ensures Reached(p, workers, delay, 0, span, (p.maxAttempts - 1) + workers * (span / p.length + 1))
  {
    var k := span / p.length;
    SpansDivide(span, p.length);
    var run := Siege(p, workers, k + 1);
    DelayAllows(p, workers, delay, run);
    assert (k + 1) * p.length == k * p.length + p.length;
    assert AdmitsWithin(run, 0, span) == (p.maxAttempts - 1) + workers * (k + 1);
  }

  lemma {:induction false} DelayAllows(p: Policy, workers: nat, delay: nat, run: seq<Event>)
    requires Run(p, workers, 0, run)
    ensures Run(p, workers, delay, run)
  {
    if run != [] { DelayAllows(p, workers, delay, run[..|run| - 1]); }
  }

  // Slot 0 passes the check and stamps at 0, and everyone else fails at 1.
  lemma Overtaken(p: Policy, workers: nat, delay: nat) returns (run: seq<Event>)
    requires p.maxAttempts >= 1 && p.length > 0 && workers >= 2
    ensures Run(p, workers, delay, run) && UpTo(run, 1)
    ensures After(p, run) == State(Row(p.maxAttempts - 1 + (workers - 1), Some(1 + p.length)), map[0 := 0])
    ensures forall b | 1 <= b :: AdmitsIn(run, 1, b) == p.maxAttempts - 1 + (workers - 1)
  {
    FirstOf(p, workers, delay);
    var first := [Admit(0, 0, 0)];
    hide *;
    var below := Prelude(p, workers, delay, first, 1, p.maxAttempts - 1, 1);
    OnlyAbove(1, workers);
    run := RoundRuns(p, workers, delay, below, 1, workers, 1);
    FailedTimesIs(Row(p.maxAttempts - 1, None), p, 1, workers - 1);
  }

  lemma OnlyAbove(lo: nat, hi: nat)
    requires 0 < lo <= hi
    ensures Vacant(map[0 := 0], lo, hi) && Vacant(map[0 := 0], lo, lo + 1) && forall n :: !Locked(Row(n, None), lo)
  {}

  lemma FirstOf(p: Policy, workers: nat, delay: nat)
    requires workers > 0
    ensures Run(p, workers, delay, [Admit(0, 0, 0)]) && UpTo([Admit(0, 0, 0)], 1)
    ensures After(p, [Admit(0, 0, 0)]) == State(CLEAR, map[0 := 0]) && CLEAR == Row(0, None)
    ensures forall b :: AdmitsIn([Admit(0, 0, 0)], 1, b) == 0
  {
    OneMore(p, workers, delay, [], Admit(0, 0, 0));
    assert [] + [Admit(0, 0, 0)] == [Admit(0, 0, 0)];
  }

  // Then the early stamp lands last, and the lock ends a moment early.
  lemma LateStamp(p: Policy, workers: nat, delay: nat) returns (run: seq<Event>)
    requires p.maxAttempts >= 1 && p.length > 0 && workers >= 2 && delay >= 1
    ensures Run(p, workers, delay, run) && UpTo(run, p.length)
    ensures After(p, run).open == map[] && !Locked(After(p, run).row, p.length)
    ensures forall b | 1 <= b :: AdmitsIn(run, 1, b) == p.maxAttempts - 1 + (workers - 1)
  {
    var others := Overtaken(p, workers, delay);
    hide Run, After, AdmitsIn, UpTo;
    OneMore(p, workers, delay, others, Write(0, 1, 0));
    run := others + [Write(0, 1, 0)];
    UpToLater(run, 1, p.length);
    assert map[0 := 0] - {0} == map[];
  }

  /** A stamp that lands after a later one shortens the lock: with two workers or more and any delay at all,
      workers - 1 attempts are admitted beyond the undelayed bound, in a span shorter than a lock. */
  lemma LateStampBreaksTheBound(p: Policy, workers: nat, delay: nat)
    requires p.maxAttempts >= 1 && p.length > 0 && workers >= 2 && delay >= 1
    ensures (p.length - 1) / p.length == 0
    ensures Reached(p, workers, delay, 1, p.length - 1, (p.maxAttempts - 1) + workers + (workers - 1))
  {
    SpansDivide(p.length - 1, p.length);
    var before := LateStamp(p, workers, delay);
    hide *;
    AllAtOnce(p, workers, delay, before, p.length);
    IsReached(p, workers, delay, before + Burst(0, workers, p.length), 1, p.length - 1);
  }

  lemma AllAtOnce(p: Policy, workers: nat, delay: nat, before: seq<Event>, t: Time)
    requires Run(p, workers, delay, before) && UpTo(before, t) && !Locked(After(p, before).row, t) && After(p, before).open == map[]
    requires 1 <= t
    ensures Run(p, workers, delay, before + Burst(0, workers, t))
    ensures AdmitsIn(before + Burst(0, workers, t), 1, t) == AdmitsIn(before, 1, t) + workers
  {
    hide *;
    NoneOpen(workers);
    BurstRuns(p, workers, delay, before, 0, workers, t);
  }

  lemma NoneOpen(n: nat)
    ensures Vacant(map[], 0, n)
  {}

  lemma IsReached(p: Policy, workers: nat, delay: nat, run: seq<Event>, a: Time, span: nat)
    requires Run(p, workers, delay, run)
    ensures Reached(p, workers, delay, a, span, AdmitsIn(run, a, a + span))
  {
    assert AdmitsWithin(run, a, span) == AdmitsIn(run, a, a + span);
  }

  // No run admits more than the undelayed bound, or than the sequential one, in any window.
  ghost predicate UndelayedBoundHolds(p: Policy, workers: nat, delay: nat)
    requires p.length > 0
  {
    forall run: seq<Event>, a: Time, span: nat | Run(p, workers, delay, run) ::
      AdmitsWithin(run, a, span) <= p.maxAttempts - 1 + workers * (span / p.length + 1)
  }

  ghost predicate SequentialBoundHolds(p: Policy, workers: nat, delay: nat)
    requires p.length > 0
  {
    forall run: seq<Event>, a: Time, span: nat | Run(p, workers, delay, run) ::
      AdmitsWithin(run, a, span) <= (p.maxAttempts - 1) + span / p.length + 1
  }

  /** For every policy the undelayed bound holds of all runs exactly when attempts are not interleaved or every
      UPDATE runs at its stamp. */
  lemma UndelayedBoundIff(p: Policy, workers: nat, delay: nat)
    requires p.maxAttempts >= 1 && p.length > 0 && workers > 0
    ensures UndelayedBoundHolds(p, workers, delay) <==> workers == 1 || delay == 0
  {
    if workers == 1 || delay == 0 {
      forall run: seq<Event>, a: Time, span: nat | Run(p, workers, delay, run)
        ensures AdmitsWithin(run, a, span) <= p.maxAttempts - 1 + workers * (span / p.length + 1)
      {
        AdmittedByGap(p, workers, delay, run, a, span, p.length);
      }
    } else {
      LateStampBreaksTheBound(p, workers, delay);
      hide Run, AdmitsWithin;
      var run: seq<Event> :| Run(p, workers, delay, run) &&
        AdmitsWithin(run, 1, p.length - 1) == (p.maxAttempts - 1) + workers + (workers - 1);
      assert workers * (0 + 1) == workers;
    }
  }

  /** For every policy and delay the sequential bound holds of all runs exactly when attempts are not
      interleaved.  With two workers, both can be checked before either of the failures that would lock is
      recorded. */
  lemma SequentialBoundIff(p: Policy, workers: nat, delay: nat)
    requires p.maxAttempts >= 1 && p.length > 0 && workers > 0
    ensures SequentialBoundHolds(p, workers, delay) <==> workers == 1
  {
    if workers == 1 {
      forall run: seq<Event>, a: Time, span: nat | Run(p, workers, delay, run)
        ensures AdmitsWithin(run, a, span) <= (p.maxAttempts - 1) + span / p.length + 1
      {
        SequentialBound(p, delay, run, a, span);
      }
    } else {
      BoundIsMet(p, workers, delay, 0);
      assert 0 / p.length == 0;
      hide Run, AdmitsWithin;
      var run: seq<Event> :| Run(p, workers, delay, run) &&
        AdmitsWithin(run, 0, 0) == (p.maxAttempts - 1) + workers * (0 / p.length + 1);
    }
  }
}
