/** How soon, and how seldom, a device logs in again by itself (evsemaster/device.py).

    The bounds are about timed traces. Two things are asked of the scheduler: no time passes while a
    task is ready to run, and a task that was created runs before a waiting one is resumed. */
module Relogin {
  import opened Wrappers
  import opened Packet
  import opened Session

  /** An automatic login takes the lock. */
  predicate AutoBegins(s: State, event: Event)
  {
    !s.locked && event.Start? && event.task < |s.tasks| && s.tasks[event.task].Created?
  }

  /** A login takes the lock. */
  predicate Begins(s: State, event: Event)
  {
    !s.locked && (event.Login? || AutoBegins(s, event))
  }

  predicate BeginsAt(s: State, trace: seq<Timed>, i: nat)
  {
    i < |trace| && Begins(At(s, trace, i), trace[i].event)
  }

  /** Step i begins an automatic login. */
  predicate AutoBeginsAt(s: State, trace: seq<Timed>, i: nat)
  {
    i < |trace| && AutoBegins(At(s, trace, i), trace[i].event)
  }

  predicate IsCreated(s: State, t: nat)
  {
    t < |s.tasks| && s.tasks[t].Created?
  }

  /** A task that could run now. */
  predicate IsReady(s: State, t: nat)
  {
    || IsCreated(s, t)
    || (IsWaiting(s, t)
        && (s.tasks[t].expired || s.tasks[t].cancelled || (s.future.Some? && s.future.value.Resolved?)))
  }

  /** The time at which the state before step i was entered. */
  function ClockBefore(start: int, trace: seq<Timed>, i: nat): int
    requires i <= |trace|
  {
    if i == 0 then start else trace[i - 1].at
  }

  /** Step i comes no earlier than the one before, at once if a task is ready, and no later than any timer. */
  ghost predicate TimelyStep(s: State, clock: int, at: int)
  {
    && clock <= at
    && ((exists t: nat :: IsReady(s, t)) ==> at == clock)
    && (forall t: nat :: IsWaiting(s, t) ==> at <= s.tasks[t].deadline)
  }

  ghost predicate TimelyAt(s: State, start: int, trace: seq<Timed>, i: nat)
    requires i < |trace|
  {
    TimelyStep(At(s, trace, i), ClockBefore(start, trace, i), trace[i].at)
  }

  ghost predicate Timely(s: State, start: int, trace: seq<Timed>)
  {
    forall i: nat :: i < |trace| ==> TimelyAt(s, start, trace, i)
  }

  /** A waiting login's timer is due three seconds after each of its requests, counted from its start. */
  ghost predicate OnSchedule(s: State, clock: int)
  {
    && Exclusive(s)
    && forall t: nat :: IsWaiting(s, t) ==>
         && s.lastLoginAttempt.Some?
         && s.tasks[t].deadline == s.lastLoginAttempt.value + LOGIN_RETRY_INTERVAL * s.tasks[t].attempt
         && clock <= s.tasks[t].deadline
         && (s.tasks[t].expired ==> clock == s.tasks[t].deadline)
  }

  lemma OnScheduleWake(s: State, t: nat, clock: int, at: int)
    requires OnSchedule(s, clock) && TimelyStep(s, clock, at) && IsWaiting(s, t)
    ensures OnSchedule(Wake(s, t, at), at)
  {
    ExclusiveWake(s, t, at);
    var s' := Wake(s, t, at);
    if s.tasks[t].expired {
      assert IsReady(s, t);
    }
    forall u: nat | IsWaiting(s', u)
      ensures u == t
    {
      assert u != t ==> IsWaiting(s, u);
    }
  }

  lemma OnScheduleBegin(s: State, t: nat, clock: int, at: int)
    requires OnSchedule(s, clock) && TimelyStep(s, clock, at) && IsCreated(s, t)
    ensures OnSchedule(Begin(s, t, at), at)
  {
    ExclusiveBegin(s, t, at);
    assert IsReady(s, t);
  }

  /** Steps that leave the waiting logins as they are, but for a cancellation. */
  lemma OnScheduleSame(s: State, s': State, clock: int, at: int)
    requires OnSchedule(s, clock) && TimelyStep(s, clock, at) && Exclusive(s')
    requires s'.lastLoginAttempt == s.lastLoginAttempt
    requires forall u: nat :: IsWaiting(s', u) ==>
               IsWaiting(s, u) && s'.tasks[u].attempt == s.tasks[u].attempt
               && s'.tasks[u].deadline == s.tasks[u].deadline && s'.tasks[u].expired == s.tasks[u].expired
    ensures OnSchedule(s', at)
  {
    forall u: nat | IsWaiting(s', u) && s'.tasks[u].expired
      ensures at == s'.tasks[u].deadline
    {
      assert IsReady(s, u);
    }
  }

  lemma OnScheduleExpire(s: State, t: nat, clock: int, at: int)
    requires OnSchedule(s, clock) && TimelyStep(s, clock, at)
    ensures OnSchedule(Step(s, Expire(t), at), at)
  {
    ExclusiveExpire(s, t, at);
    forall u: nat | IsWaiting(s, u) && s.tasks[u].expired
      ensures at == clock
    {
      assert IsReady(s, u);
    }
  }

  lemma OnScheduleFree(s: State)
    requires Exclusive(s) && !s.locked
    ensures forall t: nat :: !IsWaiting(s, t)
  {
  }

  lemma OnScheduleLogin(s: State, clock: int, at: int)
    requires OnSchedule(s, clock) && TimelyStep(s, clock, at)
    ensures OnSchedule(Step(s, Login, at), at)
  {
    var s' := Step(s, Login, at);
    ExclusiveStep(s, Login, at);
    if s.locked {
      OnScheduleSame(s, s', clock, at);
    } else {
      OnScheduleFree(s);
      assert forall u: nat :: IsWaiting(s', u) ==> u == |s.tasks|;
    }
  }

  lemma OnScheduleHandle(s: State, cmd: Command, clock: int, at: int)
    requires OnSchedule(s, clock) && TimelyStep(s, clock, at)
    ensures OnSchedule(HandlePacket(s, cmd, at), at)
  {
    ExclusiveHandle(s, cmd, at);
    OnScheduleSame(s, HandlePacket(s, cmd, at), clock, at);
  }

  lemma OnScheduleCancel(s: State, t: nat, clock: int, at: int)
    requires OnSchedule(s, clock) && TimelyStep(s, clock, at) && IsWaiting(s, t)
    ensures OnSchedule(CancelTask(s, t), at)
  {
    ExclusiveCancel(s, t);
    OnScheduleSame(s, CancelTask(s, t), clock, at);
  }

  lemma OnScheduleClose(s: State, clock: int, at: int)
    requires OnSchedule(s, clock) && TimelyStep(s, clock, at)
    ensures OnSchedule(CloseDevice(s), at)
  {
    ExclusiveClose(s);
    OnScheduleSame(s, CloseDevice(s), clock, at);
  }

  lemma OnScheduleStep(s: State, event: Event, clock: int, at: int)
    requires OnSchedule(s, clock) && TimelyStep(s, clock, at)
    ensures OnSchedule(Step(s, event, at), at)
  {
    OnScheduleSame(s, s, clock, at);
    match event
    case Handle(cmd) => OnScheduleHandle(s, cmd, clock, at);
    case Login => OnScheduleLogin(s, clock, at);
    case Start(t) =>
      if IsCreated(s, t) {
        OnScheduleBegin(s, t, clock, at);
      }
    case Expire(t) => OnScheduleExpire(s, t, clock, at);
    case Resume(t) =>
      if IsWaiting(s, t) {
        OnScheduleWake(s, t, clock, at);
      }
    case Cancel(t) =>
      if IsWaiting(s, t) {
        OnScheduleCancel(s, t, clock, at);
      }
    case Close => OnScheduleClose(s, clock, at);
  }

  /** Every state of a timely run is on schedule. */
  lemma {:induction false} OnScheduleAt(s: State, start: int, trace: seq<Timed>, n: nat)
    requires OnSchedule(s, start) && Timely(s, start, trace) && n <= |trace|
    ensures OnSchedule(At(s, trace, n), ClockBefore(start, trace, n))
  {
    if n == 0 {
    } else {
      OnScheduleAt(s, start, trace, n - 1);
      assert TimelyAt(s, start, trace, n - 1);
      OnScheduleStep(At(s, trace, n - 1), trace[n - 1].event, ClockBefore(start, trace, n - 1), trace[n - 1].at);
    }
  }

  /** An unanswered login holds its lock for at most 12 s, whatever else happens. */
  lemma LockHeldBriefly(hasPassword: bool, start: int, trace: seq<Timed>)
    requires Timely(Init(hasPassword), start, trace)
    ensures var s := At(Init(hasPassword), trace, |trace|);
            s.locked ==>
              && s.lastLoginAttempt.Some?
              && ClockBefore(start, trace, |trace|) <= s.lastLoginAttempt.value + LOGIN_ATTEMPTS * LOGIN_RETRY_INTERVAL
              && LOGIN_ATTEMPTS * LOGIN_RETRY_INTERVAL < LOGIN_COOLDOWN
  {
    OnScheduleAt(Init(hasPassword), start, trace, |trace|);
    var s := At(Init(hasPassword), trace, |trace|);
    if s.locked {
      var w: nat :| IsWaiting(s, w);
      assert s.tasks[w].attempt <= LOGIN_ATTEMPTS;
    }
  }

  // Not too often

  /** The step resumes a waiting login while another has not run yet. */
  ghost predicate Overtakes(s: State, event: Event)
  {
    event.Resume? && IsWaiting(s, event.task) && exists t: nat :: IsCreated(s, t)
  }

  ghost predicate InTurn(s: State, trace: seq<Timed>, i: nat)
  {
    i < |trace| ==> !Overtakes(At(s, trace, i), trace[i].event)
  }

  /** A created task runs before any waiting one is resumed. */
  ghost predicate CreatedFirst(s: State, trace: seq<Timed>)
  {
    forall i: nat :: InTurn(s, trace, i)
  }

  /** While a created login has the lock free to take, the cooldown since the last login has passed. */
  ghost predicate Cooled(s: State, clock: int)
  {
    (exists t: nat :: IsCreated(s, t)) && !s.locked ==>
      s.lastLoginAttempt.None? || clock - s.lastLoginAttempt.value >= LOGIN_COOLDOWN
  }

  /** Only an announcement with the lock free and the cooldown over creates a login by itself. */
  lemma CreatedByAnnouncement(s: State, event: Event, at: int, t: nat)
    requires IsCreated(Step(s, event, at), t) && !IsCreated(s, t)
    ensures event.Handle? && MayAttemptLogin(s, at)
  {
    match event
    case Handle(cmd) =>
    case Login => assert false;
    case Start(u) => assert false;
    case Expire(u) => assert false;
    case Resume(u) => assert false;
    case Cancel(u) => assert false;
    case Close => assert false;
  }

  lemma AttemptStep(s: State, event: Event, at: int)
    ensures Begins(s, event) ==> Step(s, event, at).lastLoginAttempt == Some(at)
    ensures !Begins(s, event) ==> Step(s, event, at).lastLoginAttempt == s.lastLoginAttempt
  {
  }

  lemma CooledStep(s: State, event: Event, clock: int, at: int)
    requires Cooled(s, clock) && clock <= at
    requires !Overtakes(s, event)
    ensures Cooled(Step(s, event, at), at)
  {
    var s' := Step(s, event, at);
    AttemptStep(s, event, at);
    if !s'.locked {
      forall t: nat | IsCreated(s', t)
        ensures s'.lastLoginAttempt.None? || at - s'.lastLoginAttempt.value >= LOGIN_COOLDOWN
      {
        if !IsCreated(s, t) {
          CreatedByAnnouncement(s, event, at, t);
        }
      }
    }
  }

  ghost predicate CooledAt(s: State, trace: seq<Timed>, n: nat)
  {
    n < |trace| && Cooled(At(s, trace, n), trace[n].at)
  }

  lemma CooledStays(s: State, step: Timed, s': State, later: int)
    requires Cooled(s, step.at) && !Overtakes(s, step.event) && step.at <= later
    requires s' == Step(s, step.event, step.at)
    ensures Cooled(s', later)
  {
    CooledStep(s, step.event, step.at, step.at);
  }

  lemma CooledNext(s: State, trace: seq<Timed>, m: nat, n: nat)
    requires n == m + 1 < |trace| && CooledAt(s, trace, m) && InOrder(trace) && CreatedFirst(s, trace)
    ensures CooledAt(s, trace, n)
  {
    assert InTurn(s, trace, m);
    AtNext(s, trace, m, n);
    CooledStays(At(s, trace, m), trace[m], At(s, trace, n), trace[n].at);
  }

  lemma {:induction false} CooledRun(hasPassword: bool, trace: seq<Timed>, n: nat)
    requires n < |trace| && InOrder(trace) && CreatedFirst(Init(hasPassword), trace)
    ensures CooledAt(Init(hasPassword), trace, n)
  {
    if n == 0 {
    } else {
      CooledRun(hasPassword, trace, n - 1);
      CooledNext(Init(hasPassword), trace, n - 1, n);
    }
  }

  predicate AttemptSince(s: State, at: int)
  {
    s.lastLoginAttempt.Some? && at <= s.lastLoginAttempt.value
  }

  lemma AttemptSinceStep(s: State, step: Timed, at: int)
    requires at <= step.at && (AttemptSince(s, at) || Begins(s, step.event))
    ensures AttemptSince(Step(s, step.event, step.at), at)
  {
    AttemptStep(s, step.event, step.at);
  }

  predicate AttemptSinceAt(s: State, trace: seq<Timed>, n: nat, at: int)
  {
    n <= |trace| && AttemptSince(At(s, trace, n), at)
  }

  lemma AttemptSinceNext(s: State, trace: seq<Timed>, m: nat, n: nat, at: int)
    requires n == m + 1 <= |trace| && at <= trace[m].at
    requires AttemptSinceAt(s, trace, m, at) || BeginsAt(s, trace, m)
    ensures AttemptSinceAt(s, trace, n, at)
  {
    AtNext(s, trace, m, n);
    AttemptSinceStep(At(s, trace, m), trace[m], at);
  }

  lemma {:induction false} AttemptStays(s: State, trace: seq<Timed>, m: nat, n: nat, at: int)
    requires AttemptSinceAt(s, trace, m, at) && m <= n <= |trace|
    requires forall j :: m <= j < n ==> at <= trace[j].at
    ensures AttemptSinceAt(s, trace, n, at)
  {
    if n == m {
    } else {
      AttemptStays(s, trace, m, n - 1, at);
      AttemptSinceNext(s, trace, n - 1, n, at);
    }
  }

  /** The last login attempt is no earlier than any login that began. */
  lemma AttemptNotBefore(s: State, trace: seq<Timed>, i: nat, n: nat)
    requires i < n <= |trace| && InOrder(trace) && BeginsAt(s, trace, i)
    ensures AttemptSinceAt(s, trace, n, trace[i].at)
  {
    AttemptSinceNext(s, trace, i, i + 1, trace[i].at);
    AttemptStays(s, trace, i + 1, n, trace[i].at);
  }

  /** An automatic login begins no sooner than 15 s after any login before it. */
  lemma LoginsApart(hasPassword: bool, trace: seq<Timed>, i: nat, j: nat)
    requires InOrder(trace) && CreatedFirst(Init(hasPassword), trace) && i < j < |trace|
    requires BeginsAt(Init(hasPassword), trace, i) && AutoBeginsAt(Init(hasPassword), trace, j)
    ensures trace[j].at - trace[i].at >= LOGIN_COOLDOWN
  {
    CooledRun(hasPassword, trace, j);
    AttemptNotBefore(Init(hasPassword), trace, i, j);
    assert IsCreated(At(Init(hasPassword), trace, j), trace[j].event.task);
  }

  /** The order asked for matters: of two logins created at once, one that runs only after the other was answered
      and ended begins with no time between. */
  const OUT_OF_ORDER: seq<Timed> := [
    Timed(Handle(LOGIN_EVENT), 0), Timed(Handle(LOGIN_EVENT), 0), Timed(Start(0), 0),
    Timed(Handle(PASSWORD_ERROR_EVENT), 0), Timed(Resume(0), 0), Timed(Start(1), 0)]

  lemma OrderMatters()
    ensures InOrder(OUT_OF_ORDER) && !CreatedFirst(Init(true), OUT_OF_ORDER)
    ensures AutoBeginsAt(Init(true), OUT_OF_ORDER, 2) && AutoBeginsAt(Init(true), OUT_OF_ORDER, 5)
  {
    var trace, s0 := OUT_OF_ORDER, Init(true);
    var s2 := s0.(tasks := [Created, Created], autoTask := Some(1));
    assert At(s0, trace, 1) == s0.(tasks := [Created], autoTask := Some(0));
    assert At(s0, trace, 2) == s2;
    var s3 := s2.(locked := true, lastLoginAttempt := Some(0), future := Some(Unresolved),
                  tasks := [Waiting(1, LOGIN_RETRY_INTERVAL, false, false), Created]);
    assert At(s0, trace, 3) == s3;
    var s4 := s3.(future := Some(Resolved(false)));
    assert At(s0, trace, 4) == s4;
    assert At(s0, trace, 5) == s4.(locked := false, future := None, tasks := [Finished(NotLoggedIn), Created]);
    assert IsCreated(At(s0, trace, 4), 1) && Overtakes(At(s0, trace, 4), trace[4].event);
    assert !InTurn(s0, trace, 4);
  }

  // Not too late

  /** The charger answers no login and heads nobody, and the application leaves the session alone. */
  ghost predicate Silent(trace: seq<Timed>)
  {
    forall i :: 0 <= i < |trace| ==>
      !Registers(trace[i]) && !trace[i].event.Login? && !trace[i].event.Close?
  }

  /** Step i handles an announcement within a stretch of time. */
  predicate AnnouncedAt(trace: seq<Timed>, i: nat, from: int, stretch: int)
  {
    i < |trace| && Handles(trace[i], LOGIN_EVENT) && from <= trace[i].at <= from + stretch
  }

  ghost predicate Announced(trace: seq<Timed>, from: int, stretch: int)
  {
    exists i: nat :: AnnouncedAt(trace, i, from, stretch)
  }

  /** Every stretch of the given length in the trace has an announcement. */
  ghost predicate Announces(start: int, trace: seq<Timed>, every: int)
  {
    forall from: int ::
      start <= from && from + every <= ClockBefore(start, trace, |trace|) ==> Announced(trace, from, every)
  }

  function Max(a: int, b: int): int
  {
    if a < b then b else a
  }

  /** When an announcement must lead to a login: no registration stands and the cooldown has passed. */
  function Due(s: State, start: int): int
  {
    Max(start,
        Max(if s.authenticated && s.lastHeading.Some? then s.lastHeading.value + HEADING_TIMEOUT else start,
            if s.lastLoginAttempt.Some? then s.lastLoginAttempt.value + LOGIN_COOLDOWN else start))
  }

  /** Until a login begins, silence leaves the last attempt as it was and no heading newer. */
  ghost predicate Untouched(s: State, s': State)
  {
    && s'.hasPassword == s.hasPassword
    && s'.lastLoginAttempt == s.lastLoginAttempt
    && (s'.authenticated ==> s.authenticated)
    && (s'.lastHeading == s.lastHeading || s'.lastHeading.None?)
  }

  ghost predicate NoBegin(s: State, trace: seq<Timed>, n: nat)
    requires n <= |trace|
  {
    forall i: nat :: i < n ==> !AutoBeginsAt(s, trace, i)
  }

  lemma UntouchedStep(s: State, s': State, step: Timed)
    requires Untouched(s, s') && !AutoBegins(s', step.event)
    requires !Registers(step) && !step.event.Login? && !step.event.Close?
    ensures Untouched(s, Step(s', step.event, step.at))
  {
    AttemptStep(s', step.event, step.at);
    HeadingStep(s', step);
    AuthorisedStep(s', step);
    assert Step(s', step.event, step.at).hasPassword == s'.hasPassword;
  }

  lemma {:induction false} UntouchedRun(s: State, trace: seq<Timed>, n: nat)
    requires n <= |trace| && Silent(trace) && NoBegin(s, trace, n)
    ensures Untouched(s, At(s, trace, n))
  {
    if n == 0 {
    } else {
      UntouchedRun(s, trace, n - 1);
      assert !AutoBeginsAt(s, trace, n - 1);
      UntouchedStep(s, At(s, trace, n - 1), trace[n - 1]);
    }
  }

  predicate Pending(s: State, t: nat)
  {
    !s.locked && IsCreated(s, t)
  }

  /** An announcement that is due creates an automatic login. */
  lemma DueAnnouncement(s: State, s': State, start: int, clock: int, step: Timed)
    requires s.hasPassword && Untouched(s, s')
    requires OnSchedule(s', clock) && TimelyStep(s', clock, step.at)
    requires Handles(step, LOGIN_EVENT) && step.at >= Due(s, start)
    ensures var after := Step(s', step.event, step.at);
            Pending(after, |s'.tasks|)
  {
    assert !s'.locked;
  }

  /** A created login finds the lock free at step n. */
  predicate PendingAt(s: State, trace: seq<Timed>, n: nat, t: nat)
  {
    n <= |trace| && Pending(At(s, trace, n), t)
  }

  /** No time passed from step k to step n, before which a created login finds the lock free. */
  predicate StalledAt(s: State, trace: seq<Timed>, k: nat, n: nat, t: nat)
  {
    k < n <= |trace| && trace[n - 1].at == trace[k].at && PendingAt(s, trace, n, t)
  }

  lemma CreatedStep(s: State, clock: int, step: Timed, t: nat)
    requires Pending(s, t) && !AutoBegins(s, step.event)
    requires OnSchedule(s, clock) && TimelyStep(s, clock, step.at)
    requires !step.event.Login? && !step.event.Close?
    ensures step.at == clock && Pending(Step(s, step.event, step.at), t)
  {
    assert IsReady(s, t);
    OnScheduleFree(s);
  }

  lemma StalledNext(s: State, start: int, trace: seq<Timed>, k: nat, n: nat, t: nat)
    requires n < |trace| && Silent(trace) && Timely(s, start, trace) && !AutoBeginsAt(s, trace, n)
    requires OnSchedule(s, start) && StalledAt(s, trace, k, n, t)
    ensures StalledAt(s, trace, k, n + 1, t)
  {
    OnScheduleAt(s, start, trace, n);
    assert TimelyAt(s, start, trace, n);
    CreatedStep(At(s, trace, n), trace[n - 1].at, trace[n], t);
  }

  /** A created login with the lock free keeps time from passing until some login begins. */
  lemma {:induction false} StaysCreated(s: State, start: int, trace: seq<Timed>, k: nat, m: nat, n: nat, t: nat)
    requires StalledAt(s, trace, k, m, t) && m <= n <= |trace|
    requires Silent(trace) && Timely(s, start, trace) && NoBegin(s, trace, n) && OnSchedule(s, start)
    ensures StalledAt(s, trace, k, n, t)
  {
    if n == m {
    } else {
      StaysCreated(s, start, trace, k, m, n - 1, t);
      StalledNext(s, start, trace, k, n - 1, t);
    }
  }

  lemma AnnouncementCreates(s: State, start: int, trace: seq<Timed>, k: nat)
    requires s.hasPassword && OnSchedule(s, start) && Timely(s, start, trace) && Silent(trace)
    requires k < |trace| && NoBegin(s, trace, k)
    requires Handles(trace[k], LOGIN_EVENT) && trace[k].at >= Due(s, start)
    ensures PendingAt(s, trace, k + 1, |At(s, trace, k).tasks|)
  {
    UntouchedRun(s, trace, k);
    OnScheduleAt(s, start, trace, k);
    assert TimelyAt(s, start, trace, k);
    DueAnnouncement(s, At(s, trace, k), start, ClockBefore(start, trace, k), trace[k]);
  }

  /** The first automatic login to begin from a step on, or the end of the trace. */
  lemma FirstBegin(s: State, trace: seq<Timed>, from: nat) returns (i: nat)
    requires from <= |trace| && NoBegin(s, trace, from)
    ensures from <= i <= |trace| && NoBegin(s, trace, i)
    ensures i < |trace| ==> AutoBeginsAt(s, trace, i)
  {
    i := from;
    while i < |trace| && !AutoBeginsAt(s, trace, i)
      invariant from <= i <= |trace| && NoBegin(s, trace, i)
    {
      i := i + 1;
    }
  }

  lemma ReadyAtOnce(s: State, start: int, trace: seq<Timed>, m: nat, t: nat)
    requires 0 < m < |trace| && Timely(s, start, trace) && PendingAt(s, trace, m, t)
    ensures trace[m].at == trace[m - 1].at
  {
    assert IsReady(At(s, trace, m), t);
    assert TimelyAt(s, start, trace, m);
  }

  /** Some automatic login began by the time of step k. */
  ghost predicate BegunBy(s: State, trace: seq<Timed>, k: nat)
    requires k < |trace|
  {
    exists i: nat :: AutoBeginsAt(s, trace, i) && trace[i].at <= trace[k].at
  }

  lemma BegunAt(s: State, trace: seq<Timed>, k: nat, m: nat)
    requires k < |trace| && AutoBeginsAt(s, trace, m) && trace[m].at <= trace[k].at
    ensures BegunBy(s, trace, k)
  {
  }

  lemma BeginsAtOnce(s: State, start: int, trace: seq<Timed>, k: nat, t: nat)
    requires k < |trace| && Silent(trace) && Timely(s, start, trace) && OnSchedule(s, start)
    requires NoBegin(s, trace, k) && trace[k].event.Handle?
    requires PendingAt(s, trace, k + 1, t)
    requires trace[|trace| - 1].at > trace[k].at
    ensures BegunBy(s, trace, k)
  {
    var m := FirstBegin(s, trace, k + 1);
    StaysCreated(s, start, trace, k, k + 1, m, t);
    if m < |trace| {
      ReadyAtOnce(s, start, trace, m, t);
      BegunAt(s, trace, k, m);
    }
  }

  lemma {:induction false} TimelyInOrder(s: State, start: int, trace: seq<Timed>, i: nat, j: nat)
    requires Timely(s, start, trace) && i <= j < |trace|
    ensures trace[i].at <= trace[j].at
  {
    if i == j {
    } else {
      TimelyInOrder(s, start, trace, i, j - 1);
      assert TimelyAt(s, start, trace, j);
    }
  }

  /** Bounded re-login: a charger that answers no login but announces itself at least every so often has
      an automatic login begun by the time one is due plus one such interval. */
  lemma BoundedRelogin(s: State, start: int, trace: seq<Timed>, every: int)
    requires s.hasPassword && OnSchedule(s, start) && Timely(s, start, trace)
    requires Silent(trace) && Announces(start, trace, every)
    requires ClockBefore(start, trace, |trace|) > Due(s, start) + every
    ensures exists i: nat :: AutoBeginsAt(s, trace, i) && trace[i].at <= Due(s, start) + every
  {
    var due := Due(s, start);
    assert Announced(trace, due, every);
    var k: nat :| AnnouncedAt(trace, k, due, every);
    var i := FirstBegin(s, trace, 0);
    if i < k {
      TimelyInOrder(s, start, trace, i, k);
    } else {
      AnnouncementCreates(s, start, trace, k);
      BeginsAtOnce(s, start, trace, k, |At(s, trace, k).tasks|);
    }
  }

  /** After a login began that went unanswered, the next begins at most 15 s plus one interval later. */
  lemma NextRelogin(s: State, start: int, trace: seq<Timed>, every: int)
    requires s.hasPassword && OnSchedule(s, start) && Timely(s, start, trace)
    requires s.lastLoginAttempt == Some(start) && !IsReceiving(s, start)
    requires Silent(trace) && Announces(start, trace, every)
    requires ClockBefore(start, trace, |trace|) > start + LOGIN_COOLDOWN + every
    ensures exists i: nat :: AutoBeginsAt(s, trace, i) && trace[i].at <= start + LOGIN_COOLDOWN + every
  {
    assert Due(s, start) == start + LOGIN_COOLDOWN;
    BoundedRelogin(s, start, trace, every);
  }
}
