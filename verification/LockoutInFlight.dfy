/**
 The lockout when sign-in attempts overlap: an attempt reads the clock, passes the lock check on the row
 it loads, and only later counts its failure, stamping the lock with the time it started at.
 */
module LockoutInFlight {
  import opened Arithmetic
  import opened Lockout
  import opened Wrappers

  /** At most inFlight attempts are past the check at once, and a failure is counted at most delay after
      its attempt started. */
  datatype Limits = Limits(policy: Policy, inFlight: nat, delay: int) {
    predicate Valid() {
      policy.Valid() && inFlight >= 1 && 0 <= delay < policy.window
    }

    function Others(): nat
      requires Valid()
    {
      inFlight - 1
    }

    /** How long a lock holds at least once it is set. */
    function LockFor(): int {
      policy.window - delay
    }

    /** inFlight rounded up to a multiple of maxAttempts. */
    function PerLock(): int
      requires Valid()
    {
      policy.maxAttempts * (Others() / policy.maxAttempts) + policy.maxAttempts
    }
  }

  /** The row, when each attempt past the check started, and the time; lockedAt records when the last lock
      since the last completed sign-in was set. */
  datatype State = State(account: Account, started: map<nat, Time>, clock: Time, lockedAt: Option<Time>)

  /** An attempt passes the check, and then fails, completes, or ends without changing the row. */
  datatype Event =
    | Enter(call: nat, at: Time, start: Time)
    | Count(call: nat, at: Time)
    | Complete(call: nat, at: Time)
    | Leave(call: nat, at: Time)

  predicate Enabled(s: State, e: Event, l: Limits) {
    && s.clock <= e.at
    && match e
      case Enter(call, at, start) =>
        call !in s.started && |s.started| < l.inFlight && start <= at && !s.account.Locked(start)
      case Count(call, at) => call in s.started && at - s.started[call] <= l.delay
      case Complete(call, _) => call in s.started
      case Leave(call, _) => call in s.started
  }

  function Apply(s: State, e: Event, l: Limits): State
    requires Enabled(s, e, l)
  {
    match e
    case Enter(call, at, start) => s.(started := s.started[call := start], clock := at)
    case Count(call, at) =>
      State(
        RegisterFailure(s.account, l.policy.maxAttempts, s.started[call] + l.policy.window),
        s.started - {call}, at,
        if s.account.count + 1 >= l.policy.maxAttempts then Some(at) else s.lockedAt)
    case Complete(call, at) => State(ClearFailures(s.account), s.started - {call}, at, None)
    case Leave(call, at) => s.(started := s.started - {call}, clock := at)
  }

  ghost predicate ValidRun(s: State, run: seq<Event>, l: Limits)
    decreases |run|
  {
    run == [] || (Enabled(s, run[0], l) && ValidRun(Apply(s, run[0], l), run[1..], l))
  }

  ghost function Exec(s: State, run: seq<Event>, l: Limits): State
    requires ValidRun(s, run, l)
    decreases |run|
  {
    if run == [] then s else Exec(Apply(s, run[0], l), run[1..], l)
  }

  ghost predicate Init(s: State) {
    s.account == Account(0, None) && s.started == map[] && s.lockedAt == None
  }

  /** An attempt past the check can always complete, which clears the counter and the lock, or end without
      a trace. */
  lemma PastTheCheckMayEnd(s: State, call: nat, at: Time, l: Limits)
    requires call in s.started && s.clock <= at
    ensures Enabled(s, Complete(call, at), l) && Enabled(s, Leave(call, at), l)
    ensures Apply(s, Complete(call, at), l) == State(Account(0, None), s.started - {call}, at, None)
    ensures Apply(s, Leave(call, at), l) == State(s.account, s.started - {call}, at, s.lockedAt)
  {
  }

  // ----- What every run keeps -----

  /** A lock set at a time holds at least until LockFor later. */
  predicate Holds(s: State, now: Time, l: Limits) {
    s.lockedAt.Some? && now < s.lockedAt.value + l.LockFor()
  }

  /** While it holds, nobody enters, so only those past the check when it was set can still count. */
  ghost predicate LockOk(s: State, l: Limits)
    requires l.Valid()
  {
    s.lockedAt.Some? ==>
      && s.lockedAt.value <= s.clock
      && s.account.lockedUntil.Some? && s.account.lockedUntil.value >= s.lockedAt.value + l.LockFor()
      && (Holds(s, s.clock, l) ==> s.account.count + |s.started| <= l.Others())
  }

  ghost predicate Inv(s: State, l: Limits)
    requires l.Valid()
  {
    InRange(s.account, l.policy) && |s.started| <= l.inFlight && LockOk(s, l)
  }

  lemma OneFewer(started: map<nat, Time>, call: nat)
    requires call in started
    ensures |started - {call}| == |started| - 1
  {
    assert (started - {call}).Keys == started.Keys - {call};
  }

  lemma StepKeepsInv(s: State, e: Event, l: Limits)
    requires l.Valid() && Inv(s, l) && Enabled(s, e, l)
    ensures Inv(Apply(s, e, l), l)
  {
    match e
    case Enter(call, at, start) => assert Holds(s, at, l) ==> s.account.Locked(start);
    case _ => OneFewer(s.started, e.call);
  }

  lemma {:induction false} RunKeepsInv(s: State, run: seq<Event>, l: Limits)
    requires l.Valid() && Inv(s, l) && ValidRun(s, run, l)
    ensures Inv(Exec(s, run, l), l)
    decreases |run|
  {
    if run != [] {
      StepKeepsInv(s, run[0], l);
      RunKeepsInv(Apply(s, run[0], l), run[1..], l);
    }
  }

  // ----- How many guesses -----

  function Counted(run: seq<Event>): nat {
    if run == [] then 0 else (if run[0].Count? then 1 else 0) + Counted(run[1..])
  }

  /** No attempt of the run completes, and it lies between the two times. */
  ghost predicate Within(run: seq<Event>, from: Time, to: Time)
    decreases |run|
  {
    from <= to && (run == [] || (from <= run[0].at <= to && !run[0].Complete? && Within(run[1..], from, to)))
  }

  /** Failures an account that opens at t with its counter at zero can still count. */
  function Room(t: Time, to: Time, l: Limits): int
    requires l.Valid()
  {
    l.policy.maxAttempts + l.Others() + l.PerLock() * ((to - t) / l.LockFor())
  }

  /** Failures that can still be counted; those past the check of a locked account may lock it again. */
  function Potential(s: State, now: Time, to: Time, l: Limits): int
    requires l.Valid()
  {
    if !Holds(s, now, l) then Room(now, to, l) - s.account.count
    else
      var open, n := s.lockedAt.value + l.LockFor(), |s.started|;
      if open > to then n
      else Room(open, to, l) + l.policy.maxAttempts * ((s.account.count + n) / l.policy.maxAttempts) - s.account.count
  }

  lemma PerLockCovers(n: nat, l: Limits)
    requires l.Valid() && n <= l.Others()
    ensures 0 <= l.policy.maxAttempts * (n / l.policy.maxAttempts)
    ensures l.policy.maxAttempts * (n / l.policy.maxAttempts) + l.policy.maxAttempts <= l.PerLock()
  {
    var m := l.policy.maxAttempts;
    DivMono(n, l.Others(), m);
    DivMono(0, n, m);
    MulMono(m, n / m, l.Others() / m);
    MulMono(m, 0, n / m);
  }

  lemma RoomShrinks(t: Time, u: Time, to: Time, l: Limits)
    requires l.Valid() && t <= u <= to
    ensures l.policy.maxAttempts + l.Others() <= Room(u, to, l) <= Room(t, to, l)
  {
    PerLockCovers(0, l);
    DivMono(to - u, to - t, l.LockFor());
    DivMono(0, to - u, l.LockFor());
    MulMono(l.PerLock(), (to - u) / l.LockFor(), (to - t) / l.LockFor());
    MulMono(l.PerLock(), 0, (to - u) / l.LockFor());
  }

  lemma LockCosts(t: Time, to: Time, l: Limits)
    requires l.Valid()
    ensures Room(t, to, l) == Room(t + l.LockFor(), to, l) + l.PerLock()
  {
    DivStep(to - t, l.LockFor());
    var q := (to - t) / l.LockFor();
    assert to - (t + l.LockFor()) == to - t - l.LockFor();
    MulAdd(l.PerLock(), q - 1, 1);
  }

  lemma Grouped(sum: nat, m: int)
    requires m > 0
    ensures 0 <= m * (sum / m) <= sum
  {
    DivMono(0, sum, m);
    MulMono(m, 0, sum / m);
  }

  lemma PotentialShrinks(s: State, t: Time, u: Time, to: Time, l: Limits)
    requires l.Valid() && Inv(s, l) && t <= u <= to
    ensures 0 <= Potential(s, u, to, l) <= Potential(s, t, to, l)
  {
    Grouped(s.account.count + |s.started|, l.policy.maxAttempts);
    RoomShrinks(t, u, to, l);
    if Holds(s, t, l) {
      var open := s.lockedAt.value + l.LockFor();
      if open <= to {
        RoomShrinks(open, if u < open then open else u, to, l);
      }
    }
  }

  /** A failure that does not lock the account. */
  lemma CountUsesOne(s: State, e: Event, to: Time, l: Limits)
    requires l.Valid() && Inv(s, l) && Enabled(s, e, l) && e.Count? && e.at <= to
    requires s.account.count + 1 < l.policy.maxAttempts
    ensures Potential(Apply(s, e, l), e.at, to, l) + 1 == Potential(s, e.at, to, l)
  {
    OneFewer(s.started, e.call);
    assert Apply(s, e, l).account.count + |Apply(s, e, l).started| == s.account.count + |s.started|;
  }

  lemma LockUsesOne(s: State, e: Event, to: Time, l: Limits)
    requires l.Valid() && Inv(s, l) && Enabled(s, e, l) && e.Count? && e.at <= to
    requires s.account.count + 1 >= l.policy.maxAttempts && !Holds(s, e.at, l)
    ensures Potential(Apply(s, e, l), e.at, to, l) + 1 <= Potential(s, e.at, to, l)
  {
    OneFewer(s.started, e.call);
    PerLockCovers(|s.started| - 1, l);
    LockCosts(e.at, to, l);
    RoomShrinks(e.at, e.at, to, l);
  }

  lemma RelockUsesOne(s: State, e: Event, to: Time, l: Limits)
    requires l.Valid() && Inv(s, l) && Enabled(s, e, l) && e.Count? && e.at <= to
    requires s.account.count + 1 >= l.policy.maxAttempts && Holds(s, e.at, l)
    ensures Potential(Apply(s, e, l), e.at, to, l) + 1 <= Potential(s, e.at, to, l)
  {
    OneFewer(s.started, e.call);
    var m, left := l.policy.maxAttempts, |s.started| - 1;
    var open, later := s.lockedAt.value + l.LockFor(), e.at + l.LockFor();
    assert s.account.count + |s.started| == left + m;
    DivStep(left + m, m);
    MulAdd(m, left / m, 1);
    Grouped(left, m);
    if later <= to {
      RoomShrinks(open, later, to, l);
    } else if open <= to {
      RoomShrinks(open, open, to, l);
    }
  }

  lemma StepUsesGuesses(s: State, e: Event, to: Time, l: Limits)
    requires l.Valid() && Inv(s, l) && Enabled(s, e, l) && !e.Complete? && e.at <= to
    ensures Potential(Apply(s, e, l), e.at, to, l) + (if e.Count? then 1 else 0) <= Potential(s, e.at, to, l)
  {
    match e
    case Enter(call, at, start) => assert Holds(s, at, l) ==> s.account.Locked(start);
    case Count(call, at) =>
      if s.account.count + 1 < l.policy.maxAttempts {
        CountUsesOne(s, e, to, l);
      } else if Holds(s, at, l) {
        RelockUsesOne(s, e, to, l);
      } else {
        LockUsesOne(s, e, to, l);
      }
    case Leave(call, at) =>
      OneFewer(s.started, call);
      var m, sum := l.policy.maxAttempts, s.account.count + |s.started|;
      DivMono(sum - 1, sum, m);
      MulMono(m, (sum - 1) / m, sum / m);
  }

  lemma {:induction false} CountedWithinPotential(s: State, run: seq<Event>, from: Time, to: Time, l: Limits)
    requires l.Valid() && Inv(s, l) && ValidRun(s, run, l) && Within(run, from, to) && s.clock <= from
    ensures Counted(run) <= Potential(s, from, to, l)
    decreases |run|
  {
    if run == [] {
      PotentialShrinks(s, from, from, to, l);
    } else {
      var e := run[0];
      var t := Apply(s, e, l);
      PotentialShrinks(s, from, e.at, to, l);
      StepUsesGuesses(s, e, to, l);
      StepKeepsInv(s, e, l);
      WithinLater(t, run[1..], from, to, l);
      CountedWithinPotential(t, run[1..], e.at, to, l);
    }
  }

  /** The events of a run come no earlier than the state it starts from. */
  lemma {:induction false} WithinLater(s: State, run: seq<Event>, from: Time, to: Time, l: Limits)
    requires ValidRun(s, run, l) && Within(run, from, to) && s.clock <= to
    ensures Within(run, s.clock, to)
    decreases |run|
  {
    if run != [] {
      WithinLater(Apply(s, run[0], l), run[1..], from, to, l);
      WithinEarlier(run[1..], s.clock, run[0].at, to);
    }
  }

  lemma {:induction false} WithinEarlier(run: seq<Event>, from: Time, later: Time, to: Time)
    requires from <= later && Within(run, later, to)
    ensures Within(run, from, to)
    decreases |run|
  {
    if run != [] {
      WithinEarlier(run[1..], from, later, to);
    }
  }

  lemma PotentialIsBounded(s: State, from: Time, to: Time, l: Limits)
    requires l.Valid() && Inv(s, l) && s.clock <= from <= to
    ensures Potential(s, from, to, l) <= l.PerLock() * ((to - from) / l.LockFor() + 1) + l.Others()
  {
    RoomShrinks(from, from, to, l);
    MulAdd(l.PerLock(), (to - from) / l.LockFor(), 1);
    PerLockCovers(0, l);
    if Holds(s, from, l) {
      var open := s.lockedAt.value + l.LockFor();
      PerLockCovers(s.account.count + |s.started|, l);
      if open <= to {
        RoomShrinks(from, open, to, l);
      }
    }
  }

  /** Whatever happened before, the failures counted in a stretch of time in which no sign-in completes
      number at most PerLock * (floor(length / LockFor) + 1) + inFlight - 1: each attempt more at once
      costs one guess, until they outnumber maxAttempts. */
  lemma GuessesPerInterval(start: State, before: seq<Event>, run: seq<Event>, from: Time, to: Time, l: Limits)
    requires l.Valid() && Init(start) && ValidRun(start, before, l)
    requires ValidRun(Exec(start, before, l), run, l) && Within(run, from, to) && Exec(start, before, l).clock <= from
    ensures Counted(run) <= l.PerLock() * ((to - from) / l.LockFor() + 1) + l.inFlight - 1
    ensures l.inFlight <= l.policy.maxAttempts ==> l.PerLock() == l.policy.maxAttempts
  {
    RunKeepsInv(start, before, l);
    var s := Exec(start, before, l);
    CountedWithinPotential(s, run, from, to, l);
    PotentialIsBounded(s, from, to, l);
    if l.inFlight <= l.policy.maxAttempts {
      DivStep(l.Others(), l.policy.maxAttempts);
    }
  }

  // ----- How many guesses when delays are short -----

  /** Delays shorter than half a window, and no more attempts at once than lock an account. */
  predicate Short(l: Limits) {
    l.Valid() && 2 * l.delay < l.policy.window && l.inFlight <= l.policy.maxAttempts
  }

  /** The account is locked until that time or was then opened again. */
  ghost predicate OpensAt(s: State, open: Time) {
    s.account.lockedUntil == Some(open)
  }

  /** An attempt past the check started after the last lock ended or before it was set. Until the lock ends
      only the latter are there, too few to lock the account again. */
  ghost predicate ShortInv(s: State, l: Limits) {
    && InRange(s.account, l.policy) && |s.started| <= l.inFlight
    && (forall call :: call in s.started ==> s.started[call] <= s.clock)
    && forall open :: OpensAt(s, open) ==>
         && s.lockedAt.Some? && s.lockedAt.value <= s.clock && s.lockedAt.value + l.policy.window <= open + l.delay
         && (s.clock < open ==> s.account.count + |s.started| <= l.inFlight - 1)
         && forall call :: call in s.started ==> s.started[call] >= open || s.started[call] <= s.lockedAt.value
  }

  lemma StepKeepsShortInv(s: State, e: Event, l: Limits)
    requires Short(l) && ShortInv(s, l) && Enabled(s, e, l)
    ensures ShortInv(Apply(s, e, l), l)
  {
    if !e.Enter? {
      OneFewer(s.started, e.call);
    }
    if s.account.lockedUntil.Some? {
      assert OpensAt(s, s.account.lockedUntil.value);
    }
  }

  lemma {:induction false} RunKeepsShortInv(s: State, run: seq<Event>, l: Limits)
    requires Short(l) && ShortInv(s, l) && ValidRun(s, run, l)
    ensures ShortInv(Exec(s, run, l), l)
    decreases |run|
  {
    if run != [] {
      StepKeepsShortInv(s, run[0], l);
      RunKeepsShortInv(Apply(s, run[0], l), run[1..], l);
    }
  }

  /** A failure counted once the lock has ended comes from an attempt that started after it. */
  lemma OldAttemptsAreOver(s: State, e: Event, open: Time, l: Limits)
    requires Short(l) && ShortInv(s, l) && Enabled(s, e, l) && e.Count? && OpensAt(s, open) && e.at >= open
    ensures s.started[e.call] >= open
  {
  }

  /** The earliest an attempt can have started that locks the account from now on. */
  function NextStart(s: State, now: Time, l: Limits): Time {
    if s.account.lockedUntil.Some? && s.account.lockedUntil.value > now - l.delay then s.account.lockedUntil.value
    else now - l.delay
  }

  /** Failures that can still be counted when that is the next start of a locking attempt. */
  function Chances(start: Time, to: Time, l: Limits): int
    requires l.Valid()
  {
    l.policy.maxAttempts + l.Others() + l.policy.maxAttempts * ((to - start) / l.policy.window)
  }

  function ShortPotential(s: State, now: Time, to: Time, l: Limits): int
    requires l.Valid()
  {
    if s.account.lockedUntil.Some? && s.account.lockedUntil.value > to then |s.started|
    else Chances(NextStart(s, now, l), to, l) - s.account.count
  }

  lemma ChancesShrink(start: Time, later: Time, to: Time, l: Limits)
    requires l.Valid() && start <= later <= to
    ensures l.policy.maxAttempts + l.Others() <= Chances(later, to, l) <= Chances(start, to, l)
  {
    var m, w := l.policy.maxAttempts, l.policy.window;
    DivMono(0, to - later, w);
    DivMono(to - later, to - start, w);
    MulMono(m, 0, (to - later) / w);
    MulMono(m, (to - later) / w, (to - start) / w);
  }

  lemma ChancesAfterLock(start: Time, to: Time, l: Limits)
    requires l.Valid()
    ensures Chances(start, to, l) == Chances(start + l.policy.window, to, l) + l.policy.maxAttempts
  {
    DivStep(to - start, l.policy.window);
    assert to - (start + l.policy.window) == to - start - l.policy.window;
    MulAdd(l.policy.maxAttempts, (to - start) / l.policy.window - 1, 1);
  }

  lemma ShortPotentialShrinks(s: State, t: Time, u: Time, to: Time, l: Limits)
    requires Short(l) && ShortInv(s, l) && t <= u <= to
    ensures 0 <= ShortPotential(s, u, to, l) <= ShortPotential(s, t, to, l)
  {
    if !(s.account.lockedUntil.Some? && s.account.lockedUntil.value > to) {
      ChancesShrink(NextStart(s, t, l), NextStart(s, u, l), to, l);
    }
  }

  lemma ShortCountUsesOne(s: State, e: Event, to: Time, l: Limits)
    requires Short(l) && ShortInv(s, l) && Enabled(s, e, l) && e.Count? && e.at <= to
    requires s.account.count + 1 < l.policy.maxAttempts
    ensures ShortPotential(Apply(s, e, l), e.at, to, l) + 1 == ShortPotential(s, e.at, to, l)
  {
    OneFewer(s.started, e.call);
  }

  /** Who locks the account started after its last lock ended. */
  lemma ShortLockUsesOne(s: State, e: Event, to: Time, l: Limits)
    requires Short(l) && ShortInv(s, l) && Enabled(s, e, l) && e.Count? && e.at <= to
    requires s.account.count + 1 >= l.policy.maxAttempts
    ensures ShortPotential(Apply(s, e, l), e.at, to, l) + 1 <= ShortPotential(s, e.at, to, l)
  {
    var start := s.started[e.call];
    OneFewer(s.started, e.call);
    if s.account.lockedUntil.Some? {
      var open := s.account.lockedUntil.value;
      assert OpensAt(s, open);
      OldAttemptsAreOver(s, e, open, l);
    }
    assert NextStart(s, e.at, l) <= start <= to;
    ChancesShrink(NextStart(s, e.at, l), start, to, l);
    ChancesAfterLock(start, to, l);
  }

  lemma ShortStepUsesGuesses(s: State, e: Event, to: Time, l: Limits)
    requires Short(l) && ShortInv(s, l) && Enabled(s, e, l) && !e.Complete? && e.at <= to
    ensures ShortPotential(Apply(s, e, l), e.at, to, l) + (if e.Count? then 1 else 0) <= ShortPotential(s, e.at, to, l)
  {
    match e
    case Enter(_, _, _) =>
    case Count(_, _) =>
      if s.account.count + 1 < l.policy.maxAttempts {
        ShortCountUsesOne(s, e, to, l);
      } else {
        ShortLockUsesOne(s, e, to, l);
      }
    case Leave(call, _) => OneFewer(s.started, call);
  }

  lemma {:induction false} CountedWithinShortPotential(s: State, run: seq<Event>, from: Time, to: Time, l: Limits)
    requires Short(l) && ShortInv(s, l) && ValidRun(s, run, l) && Within(run, from, to) && s.clock <= from
    ensures Counted(run) <= ShortPotential(s, from, to, l)
    decreases |run|
  {
    if run == [] {
      ShortPotentialShrinks(s, from, from, to, l);
    } else {
      var e := run[0];
      var t := Apply(s, e, l);
      ShortPotentialShrinks(s, from, e.at, to, l);
      ShortStepUsesGuesses(s, e, to, l);
      StepKeepsShortInv(s, e, l);
      WithinLater(t, run[1..], from, to, l);
      CountedWithinShortPotential(t, run[1..], e.at, to, l);
    }
  }

  lemma ShortPotentialIsBounded(s: State, from: Time, to: Time, l: Limits)
    requires Short(l) && ShortInv(s, l) && s.clock <= from <= to
    ensures ShortPotential(s, from, to, l) <= Chances(from - l.delay, to, l)
  {
    ChancesShrink(from - l.delay, from - l.delay, to, l);
    if s.account.lockedUntil.Some? && s.account.lockedUntil.value > to {
      assert OpensAt(s, s.account.lockedUntil.value);
    } else {
      ChancesShrink(from - l.delay, NextStart(s, from, l), to, l);
    }
  }

  lemma ShortBound(from: Time, to: Time, l: Limits)
    requires l.Valid()
    ensures Chances(from - l.delay, to, l) ==
      l.policy.maxAttempts * ((to - from + l.delay) / l.policy.window + 1) + l.inFlight - 1
  {
    assert to - (from - l.delay) == to - from + l.delay;
    MulAdd(l.policy.maxAttempts, (to - from + l.delay) / l.policy.window, 1);
  }

  /** When delays are short, two locks come from attempts that start a whole window apart, and the failures
      number at most maxAttempts * (floor((length + delay) / window) + 1) + inFlight - 1. */
  lemma GuessesWithShortDelays(start: State, before: seq<Event>, run: seq<Event>, from: Time, to: Time, l: Limits)
    requires l.Valid() && 2 * l.delay < l.policy.window && l.inFlight <= l.policy.maxAttempts
    requires Init(start) && ValidRun(start, before, l)
    requires ValidRun(Exec(start, before, l), run, l) && Within(run, from, to) && Exec(start, before, l).clock <= from
    ensures Counted(run) <= l.policy.maxAttempts * ((to - from + l.delay) / l.policy.window + 1) + l.inFlight - 1
  {
    RunKeepsShortInv(start, before, l);
    var s := Exec(start, before, l);
    CountedWithinShortPotential(s, run, from, to, l);
    ShortPotentialIsBounded(s, from, to, l);
    ShortBound(from, to, l);
  }

  // ----- Building runs -----

  lemma Tail(run: seq<Event>, rest: seq<Event>)
    requires run != []
    ensures (run + rest)[0] == run[0] && (run + rest)[1..] == run[1..] + rest
  {
  }

  /** The run leads from s to t, within the times, and counts n failures. */
  ghost predicate Leads(s: State, run: seq<Event>, t: State, from: Time, to: Time, n: int, l: Limits) {
    ValidRun(s, run, l) && Exec(s, run, l) == t && Within(run, from, to) && Counted(run) == n
  }

  lemma {:induction false} LeadsOn(s: State, run: seq<Event>, t: State, n: int, rest: seq<Event>, u: State, m: int,
                                   from: Time, to: Time, l: Limits)
    requires Leads(s, run, t, from, to, n, l) && Leads(t, rest, u, from, to, m, l)
    ensures Leads(s, run + rest, u, from, to, n + m, l)
    decreases |run|
  {
    if run == [] {
      assert run + rest == rest;
    } else {
      Tail(run, rest);
      LeadsOn(Apply(s, run[0], l), run[1..], t, Counted(run[1..]), rest, u, m, from, to, l);
    }
  }

  lemma OneEvent(s: State, e: Event, from: Time, to: Time, l: Limits)
    requires Enabled(s, e, l) && from <= e.at <= to && !e.Complete?
    ensures Leads(s, [e], Apply(s, e, l), from, to, if e.Count? then 1 else 0, l)
  {
    assert [e][1..] == [];
  }

  lemma NoEvents(s: State, from: Time, to: Time, l: Limits)
    requires from <= to
    ensures Leads(s, [], s, from, to, 0, l)
  {
  }

  // ----- One attempt at a time -----

  /** An attempt with nothing in between. */
  lemma AttemptRuns(s: State, attempt: Timed, from: Time, to: Time, l: Limits) returns (run: seq<Event>, t: State)
    requires l.Valid() && s.started == map[] && s.clock <= attempt.at && from <= attempt.at <= to
    requires Try(s.account, attempt.attempt, attempt.at, l.policy).verdict != SignedIn
    ensures var tried := Try(s.account, attempt.attempt, attempt.at, l.policy);
      && Leads(s, run, t, from, to, if tried.verdict == Failed then 1 else 0, l)
      && t.account == tried.account && t.started == map[] && t.clock <= attempt.at
  {
    if s.account.Locked(attempt.at) || Try(s.account, attempt.attempt, attempt.at, l.policy).verdict != Failed {
      run, t := [], s;
      NoEvents(s, from, to, l);
    } else {
      var enter, count := Enter(0, attempt.at, attempt.at), Count(0, attempt.at);
      var entered := Apply(s, enter, l);
      t := Apply(entered, count, l);
      assert t.started == map[];
      OneEvent(s, enter, from, to, l);
      OneEvent(entered, count, from, to, l);
      LeadsOn(s, [enter], entered, 0, [count], t, 1, from, to, l);
      run := [enter] + [count];
    }
  }

  lemma Earlier(s: State, run: seq<Event>, t: State, from: Time, later: Time, to: Time, n: int, l: Limits)
    requires Leads(s, run, t, later, to, n, l) && from <= later
    ensures Leads(s, run, t, from, to, n, l)
  {
    WithinEarlier(run, from, later, to);
  }

  /** Attempts made one after the other are a run with as many failures. */
  lemma {:induction false} AttemptsRun(s: State, attempts: seq<Timed>, from: Time, to: Time, l: Limits)
    returns (run: seq<Event>, t: State)
    requires l.Valid() && s.started == map[] && s.clock <= from && InOrder(attempts, from, to)
    requires SignedIn !in Verdicts(s.account, attempts, l.policy)
    ensures Leads(s, run, t, from, to, Failures(Verdicts(s.account, attempts, l.policy)), l)
    ensures t.account == After(s.account, attempts, l.policy) && t.started == map[]
    decreases |attempts|
  {
    if attempts == [] {
      run, t := [], s;
      NoEvents(s, from, to, l);
    } else {
      var at, verdicts := attempts[0].at, Verdicts(s.account, attempts, l.policy);
      var tried := Try(s.account, attempts[0].attempt, at, l.policy);
      OrderEnd(attempts[1..], at, to);
      assert verdicts[0] == tried.verdict && verdicts[0] in verdicts;
      assert verdicts[1..] == Verdicts(tried.account, attempts[1..], l.policy);
      var first, mid := AttemptRuns(s, attempts[0], from, to, l);
      var rest, last := AttemptsRun(mid, attempts[1..], at, to, l);
      Earlier(mid, rest, last, from, at, to, Failures(verdicts[1..]), l);
      LeadsOn(s, first, mid, if tried.verdict == Failed then 1 else 0, rest, last, Failures(verdicts[1..]), from, to, l);
      run, t := first + rest, last;
    }
  }

  /** One attempt at a time leaves maxAttempts * (floor(length / window) + 1) wrong passwords and codes
      together, however many correct passwords of an account with a second factor come in between. */
  lemma GuessesOneAtATime(a: Account, attempts: seq<Timed>, from: Time, to: Time, policy: Policy)
    requires policy.Valid() && InRange(a, policy) && InOrder(attempts, from, to)
    requires SignedIn !in Verdicts(a, attempts, policy)
    ensures Failures(Verdicts(a, attempts, policy)) <= policy.maxAttempts * ((to - from) / policy.window + 1)
  {
    var s, l := State(a, map[], from, None), Limits(policy, 1, 0);
    OrderEnd(attempts, from, to);
    var run, t := AttemptsRun(s, attempts, from, to, l);
    CountedWithinPotential(s, run, from, to, l);
    PotentialIsBounded(s, from, to, l);
    DivStep(0, policy.maxAttempts);
  }

  // ----- The bound is attained -----

  /** Calls i to k - 1, all started at that time. */
  function Band(i: nat, k: nat, at: Time): (b: map<nat, Time>)
    requires i <= k
    ensures |b| == k - i && forall call :: (call in b <==> i <= call < k) && (call in b ==> b[call] == at)
    decreases k - i
  {
    if i == k then map[] else Band(i + 1, k, at)[i := at]
  }

  /** n failures, one attempt at a time. */
  lemma {:induction false} Singles(s: State, call: nat, n: nat, from: Time, to: Time, l: Limits) returns (run: seq<Event>)
    requires l.Valid() && from <= s.clock <= to && !s.account.Locked(s.clock)
    requires n > 0 ==> call !in s.started && |s.started| < l.inFlight
    requires s.account.count + n < l.policy.maxAttempts
    ensures Leads(s, run, s.(account := s.account.(count := s.account.count + n)), from, to, n, l)
    decreases n
  {
    if n == 0 {
      run := [];
      NoEvents(s, from, to, l);
    } else {
      var enter, count := Enter(call, s.clock, s.clock), Count(call, s.clock);
      var entered := Apply(s, enter, l);
      var t := Apply(entered, count, l);
      assert t == s.(account := s.account.(count := s.account.count + 1));
      OneEvent(s, enter, from, to, l);
      OneEvent(entered, count, from, to, l);
      LeadsOn(s, [enter], entered, 0, [count], t, 1, from, to, l);
      var rest := Singles(t, call, n - 1, from, to, l);
      run := [enter] + [count] + rest;
      LeadsOn(s, [enter] + [count], t, 1, rest, t.(account := t.account.(count := t.account.count + (n - 1))), n - 1, from, to, l);
    }
  }

  /** Call 0, and calls 1 to k - 1 at that time. */
  function Crew(first: Time, k: nat, at: Time): (c: map<nat, Time>)
    requires k >= 1
    ensures |c| == k && forall call :: call in c <==> 0 <= call < k
  {
    var c := Band(1, k, at)[0 := first];
    assert c.Keys == Band(1, k, at).Keys + {0};
    c
  }

  /** Calls i to k - 1 join. */
  lemma {:induction false} AllEnter(s: State, first: Time, i: nat, k: nat, from: Time, to: Time, l: Limits)
    returns (run: seq<Event>)
    requires l.Valid() && 1 <= i <= k <= l.inFlight && s.started == Crew(first, i, s.clock)
    requires from <= s.clock <= to && !s.account.Locked(s.clock)
    ensures Leads(s, run, s.(started := Crew(first, k, s.clock)), from, to, 0, l)
    decreases k - i
  {
    if i == k {
      run := [];
      NoEvents(s, from, to, l);
    } else {
      var e := Enter(i, s.clock, s.clock);
      var t := Apply(s, e, l);
      assert t == s.(started := Crew(first, i + 1, s.clock));
      OneEvent(s, e, from, to, l);
      var rest := AllEnter(t, first, i + 1, k, from, to, l);
      run := [e] + rest;
      LeadsOn(s, [e], t, 0, rest, s.(started := Crew(first, k, s.clock)), 0, from, to, l);
    }
  }

  /** Calls i to k - 1 fail without locking the account. */
  lemma {:induction false} RestFail(s: State, i: nat, k: nat, from: Time, to: Time, l: Limits) returns (run: seq<Event>)
    requires l.Valid() && i <= k && s.started == Band(i, k, s.clock) && from <= s.clock <= to
    requires s.account.count + (k - i) < l.policy.maxAttempts
    ensures var account := s.account.(count := s.account.count + (k - i));
      Leads(s, run, s.(started := map[], account := account), from, to, k - i, l)
    decreases k - i
  {
    if i == k {
      run := [];
      NoEvents(s, from, to, l);
    } else {
      var e := Count(i, s.clock);
      var t := Apply(s, e, l);
      assert t == s.(started := Band(i + 1, k, s.clock), account := s.account.(count := s.account.count + 1));
      OneEvent(s, e, from, to, l);
      var rest := RestFail(t, i + 1, k, from, to, l);
      run := [e] + rest;
      LeadsOn(s, [e], t, 1, rest, s.(started := map[], account := s.account.(count := s.account.count + (k - i))), k - i - 1,
              from, to, l);
    }
  }

  /** After a surge whose locking attempt started first: locked, with the other attempts counted towards
      the next lock. */
  function Surged(first: Time, at: Time, l: Limits): State
    requires l.Valid()
  {
    State(Account(l.Others(), Some(first + l.policy.window)), map[], at, Some(at))
  }

  /** Call 0 of a crew locks the account; the others still count. */
  lemma CrewFails(s: State, first: Time, from: Time, to: Time, l: Limits) returns (run: seq<Event>)
    requires l.Valid() && l.inFlight <= l.policy.maxAttempts && from <= s.clock <= to && s.clock - first <= l.delay
    requires s.started == Crew(first, l.inFlight, s.clock) && s.account.count == l.policy.maxAttempts - 1
    ensures Leads(s, run, Surged(first, s.clock, l), from, to, l.inFlight, l)
  {
    var e := Count(0, s.clock);
    var locked := Apply(s, e, l);
    assert locked.started == Band(1, l.inFlight, s.clock);
    OneEvent(s, e, from, to, l);
    var others := RestFail(locked, 1, l.inFlight, from, to, l);
    LeadsOn(s, [e], locked, 1, others, Surged(first, s.clock, l), l.inFlight - 1, from, to, l);
    run := [e] + others;
  }

  /** When one more failure locks the account and call 0 is past the check, as many more as there can be. */
  lemma CrewStrikes(s: State, first: Time, from: Time, to: Time, l: Limits) returns (run: seq<Event>)
    requires l.Valid() && l.inFlight <= l.policy.maxAttempts && from <= s.clock <= to && s.clock - first <= l.delay
    requires s.started == map[0 := first] && s.account.count == l.policy.maxAttempts - 1 && !s.account.Locked(s.clock)
    ensures Leads(s, run, Surged(first, s.clock, l), from, to, l.inFlight, l)
  {
    assert s.started == Crew(first, 1, s.clock);
    var enters := AllEnter(s, first, 1, l.inFlight, from, to, l);
    var crew := s.(started := Crew(first, l.inFlight, s.clock));
    var fails := CrewFails(crew, first, from, to, l);
    run := enters + fails;
    LeadsOn(s, enters, crew, 0, fails, Surged(first, s.clock, l), l.inFlight, from, to, l);
  }

  /** All but one of the failures one at a time, and then as many as there can be at once. */
  lemma Surge(s: State, from: Time, to: Time, l: Limits) returns (run: seq<Event>)
    requires l.Valid() && l.inFlight <= l.policy.maxAttempts && from <= s.clock <= to && s.started == map[]
    requires 0 <= s.account.count < l.policy.maxAttempts && !s.account.Locked(s.clock)
    ensures Leads(s, run, Surged(s.clock, s.clock, l), from, to, l.policy.maxAttempts - 1 - s.account.count + l.inFlight, l)
  {
    var n := l.policy.maxAttempts - 1 - s.account.count;
    var singles := Singles(s, 0, n, from, to, l);
    var ready := s.(account := s.account.(count := l.policy.maxAttempts - 1));
    var e := Enter(0, s.clock, s.clock);
    var entered := Apply(ready, e, l);
    OneEvent(ready, e, from, to, l);
    var strikes := CrewStrikes(entered, s.clock, from, to, l);
    LeadsOn(ready, [e], entered, 0, strikes, Surged(s.clock, s.clock, l), l.inFlight, from, to, l);
    run := singles + ([e] + strikes);
    LeadsOn(s, singles, ready, n, [e] + strikes, Surged(s.clock, s.clock, l), l.inFlight, from, to, l);
  }

  /** The same when call 0 started earlier and is still past the check. */
  lemma LateSurge(s: State, first: Time, from: Time, to: Time, l: Limits) returns (run: seq<Event>)
    requires l.Valid() && 2 <= l.inFlight <= l.policy.maxAttempts && from <= s.clock <= to && s.clock - first <= l.delay
    requires s.started == map[0 := first] && s.account == Account(0, None)
    ensures Leads(s, run, Surged(first, s.clock, l), from, to, l.policy.maxAttempts - 1 + l.inFlight, l)
  {
    var singles := Singles(s, 1, l.policy.maxAttempts - 1, from, to, l);
    var ready := s.(account := s.account.(count := l.policy.maxAttempts - 1));
    var strikes := CrewStrikes(ready, first, from, to, l);
    run := singles + strikes;
    LeadsOn(s, singles, ready, l.policy.maxAttempts - 1, strikes, Surged(first, s.clock, l), l.inFlight, from, to, l);
  }

  /** Time passes before the next event. */
  lemma Wait(s: State, run: seq<Event>, t: State, at: Time, from: Time, to: Time, n: int, l: Limits)
    requires s.clock <= at && run != [] && run[0].at >= at && Leads(s.(clock := at), run, t, from, to, n, l)
    ensures Leads(s, run, t, from, to, n, l)
  {
  }

  lemma StartsLater(s: State, run: seq<Event>, t: State, from: Time, to: Time, n: int, l: Limits)
    requires Leads(s, run, t, from, to, n, l) && n > 0
    ensures run != [] && run[0].at >= s.clock
  {
  }

  lemma OneMore(k: int, n: int)
    ensures k * n == k + k * (n - 1)
    ensures k >= 0 && n >= 0 ==> k * n >= 0
  {
  }

  /** A surge as soon as each lock ends. */
  lemma {:induction false} Storm(s: State, at: Time, locks: nat, from: Time, to: Time, l: Limits) returns (run: seq<Event>, t: State)
    requires l.Valid() && l.inFlight <= l.policy.maxAttempts && locks > 0
    requires from <= at && s.clock <= at && to == at + l.policy.window * (locks - 1) && s.started == map[]
    requires 0 <= s.account.count < l.policy.maxAttempts && !s.account.Locked(at)
    ensures Leads(s, run, t, from, to,
      l.policy.maxAttempts - 1 - s.account.count + l.inFlight + l.policy.maxAttempts * (locks - 1), l)
    decreases locks
  {
    var n := l.policy.maxAttempts - 1 - s.account.count + l.inFlight;
    OneMore(l.policy.window, locks - 1);
    OneMore(l.policy.maxAttempts, locks - 1);
    run := Surge(s.(clock := at), from, to, l);
    t := Surged(at, at, l);
    StartsLater(s.(clock := at), run, t, from, to, n, l);
    Wait(s, run, t, at, from, to, n, l);
    if locks > 1 {
      var rest, u := Storm(t, at + l.policy.window, locks - 1, from, to, l);
      LeadsOn(s, run, t, n, rest, u, l.policy.maxAttempts + l.policy.maxAttempts * (locks - 2), from, to, l);
      run, t := run + rest, u;
    }
  }

  lemma BoundOfStorm(locks: nat, l: Limits)
    requires l.Valid() && l.inFlight <= l.policy.maxAttempts && l.delay == 0 && locks > 0
    ensures l.policy.window * (locks - 1) / l.LockFor() == locks - 1
    ensures l.PerLock() * locks == l.policy.maxAttempts + l.policy.maxAttempts * (locks - 1)
  {
    DivExact(l.policy.window, locks - 1);
    DivStep(l.Others(), l.policy.maxAttempts);
    OneMore(l.policy.maxAttempts, locks);
  }

  /** With no delay and no more attempts at once than maxAttempts, an attacker who strikes whenever the
      account opens gets exactly the bound, over any number of locks. */
  lemma BoundIsAttained(s: State, locks: nat, from: Time, l: Limits)
    requires l.Valid() && l.inFlight <= l.policy.maxAttempts && l.delay == 0 && locks > 0 && Init(s) && s.clock <= from
    ensures var to := from + l.policy.window * (locks - 1);
      exists run ::
        && ValidRun(s, run, l) && Within(run, from, to)
        && Counted(run) == l.PerLock() * ((to - from) / l.LockFor() + 1) + l.inFlight - 1
  {
    var to := from + l.policy.window * (locks - 1);
    var run, t := Storm(s, from, locks, from, to, l);
    BoundOfStorm(locks, l);
    assert ValidRun(s, run, l) && Within(run, from, to);
  }

  lemma {:induction false} WithinLonger(run: seq<Event>, from: Time, to: Time, later: Time)
    requires Within(run, from, to) && to <= later
    ensures Within(run, from, later)
    decreases |run|
  {
    if run != [] {
      WithinLonger(run[1..], from, to, later);
    }
  }

  lemma Longer(s: State, run: seq<Event>, t: State, from: Time, to: Time, later: Time, n: int, l: Limits)
    requires Leads(s, run, t, from, to, n, l) && to <= later
    ensures Leads(s, run, t, from, later, n, l)
  {
    WithinLonger(run, from, to, later);
  }

  /** One attempt enters delay before the stretch begins. */
  function Scout(from: Time, l: Limits): Event {
    Enter(0, from - l.delay, from - l.delay)
  }

  lemma LateStart(s: State, from: Time, to: Time, l: Limits) returns (run: seq<Event>)
    requires Short(l) && l.inFlight >= 2 && s.clock <= from && s.started == map[0 := from - l.delay]
    requires s.account == Account(0, None) && from <= to
    ensures Leads(s, run, Surged(from - l.delay, from, l), from, to, l.policy.maxAttempts - 1 + l.inFlight, l)
  {
    var n, t := l.policy.maxAttempts - 1 + l.inFlight, Surged(from - l.delay, from, l);
    run := LateSurge(s.(clock := from), from - l.delay, from, to, l);
    StartsLater(s.(clock := from), run, t, from, to, n, l);
    Wait(s, run, t, from, from, to, n, l);
  }

  /** The storm when that lock ends. */
  lemma Aftermath(from: Time, to: Time, locks: nat, l: Limits) returns (run: seq<Event>, t: State)
    requires Short(l) && locks > 0 && from - l.delay + l.policy.window * locks <= to
    ensures Leads(Surged(from - l.delay, from, l), run, t, from, to, l.policy.maxAttempts * locks, l)
  {
    var s, open := Surged(from - l.delay, from, l), from - l.delay + l.policy.window;
    var end := open + l.policy.window * (locks - 1);
    OneMore(l.policy.window, locks);
    OneMore(l.policy.maxAttempts, locks);
    run, t := Storm(s, open, locks, from, end, l);
    Longer(s, run, t, from, end, to, l.policy.maxAttempts * locks, l);
  }

  /** It locks the account at the start of the stretch, and the storm follows. */
  lemma LateStorm(s: State, from: Time, to: Time, locks: nat, l: Limits) returns (run: seq<Event>, t: State)
    requires Short(l) && l.inFlight >= 2 && s.clock <= from && s.started == map[0 := from - l.delay]
    requires s.account == Account(0, None) && from <= to && from - l.delay + l.policy.window * locks <= to
    ensures Leads(s, run, t, from, to, l.policy.maxAttempts - 1 + l.inFlight + l.policy.maxAttempts * locks, l)
  {
    run := LateStart(s, from, to, l);
    t := Surged(from - l.delay, from, l);
    if locks > 0 {
      var rest, u := Aftermath(from, to, locks, l);
      LeadsOn(s, run, t, l.policy.maxAttempts - 1 + l.inFlight, rest, u, l.policy.maxAttempts * locks, from, to, l);
      run, t := run + rest, u;
    }
  }

  lemma LocksFit(length: int, l: Limits)
    requires Short(l) && length >= 0
    ensures var locks := (length + l.delay) / l.policy.window;
      locks >= 0 && l.policy.window * locks <= length + l.delay
  {
    DivMono(0, length + l.delay, l.policy.window);
  }

  /** That bound is exact, for every length, as soon as two attempts can overlap: one that entered just
      before sets the first lock as early as possible. */
  lemma ShortDelayBoundIsAttained(start: State, from: Time, to: Time, l: Limits)
    requires l.Valid() && 2 * l.delay < l.policy.window && 2 <= l.inFlight <= l.policy.maxAttempts
    requires Init(start) && start.clock <= from - l.delay && from <= to
    ensures Enabled(start, Scout(from, l), l)
    ensures exists run ::
      && ValidRun(Apply(start, Scout(from, l), l), run, l) && Within(run, from, to)
      && Counted(run) == l.policy.maxAttempts * ((to - from + l.delay) / l.policy.window + 1) + l.inFlight - 1
  {
    var locks := (to - from + l.delay) / l.policy.window;
    var s := Apply(start, Scout(from, l), l);
    LocksFit(to - from, l);
    var run, t := LateStorm(s, from, to, locks, l);
    MulAdd(l.policy.maxAttempts, locks, 1);
    assert ValidRun(s, run, l) && Within(run, from, to);
  }
}
