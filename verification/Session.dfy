/** The session of one device: authorisation, headings and logins (evsemaster/device.py).

    Handling a packet never awaits, so it is one step; a login suspends only while it waits for its answer.
    The scheduler is free: every order of steps, enabled or not, is a trace, and a step that is not
    enabled changes nothing. */
module Session {
  import opened Wrappers
  import opened Packet

  // Times are in milliseconds.
  const HEADING_TIMEOUT := 35_000
  const LOGIN_COOLDOWN := 15_000
  const LOGIN_RETRY_INTERVAL := 3_000
  const LOGIN_ATTEMPTS := 4

  datatype Future = Unresolved | Resolved(success: bool)

  /** What a call of `login` came to; Busy is the answer of a call that found the lock taken. */
  datatype Outcome = Busy(receiving: bool) | LoggedIn | NotLoggedIn | Cancelled

  /** A coroutine running `login`. Waiting holds its locals at the await: how many requests it sent, when its
      timer is due, whether the timer has fired and whether it was cancelled meanwhile. */
  datatype Task =
    | Created
    | Waiting(attempt: nat, deadline: int, expired: bool, cancelled: bool)
    | Finished(outcome: Outcome)

  datatype State = State(
    hasPassword: bool,
    authenticated: bool,
    lastAlive: Option<int>,
    lastHeading: Option<int>,
    lastLoginAttempt: Option<int>,
    locked: bool,
    future: Option<Future>,
    autoTask: Option<nat>,
    tasks: seq<Task>)

  function Init(hasPassword: bool): State
  {
    State(hasPassword, false, None, None, None, false, None, None, [])
  }

  predicate IsReceiving(s: State, now: int)
  {
    s.authenticated && s.lastHeading.Some? && now - s.lastHeading.value < HEADING_TIMEOUT
  }

  predicate MayAttemptLogin(s: State, now: int)
  {
    !s.locked && (s.lastLoginAttempt.None? || now - s.lastLoginAttempt.value >= LOGIN_COOLDOWN)
  }

  datatype Event =
    | Handle(cmd: Command)  // a routed packet is handled
    | Login                 // the application calls login
    | Start(task: nat)      // an automatic login runs for the first time
    | Expire(task: nat)     // the timer of a waiting login fires
    | Resume(task: nat)     // a waiting login runs again
    | Cancel(task: nat)     // the application cancels a login of its own, say on a timeout
    | Close                 // the application closes the device

  datatype Timed = Timed(event: Event, at: int)

  predicate IsWaiting(s: State, t: nat)
  {
    t < |s.tasks| && s.tasks[t].Waiting?
  }

  function Finish(s: State, t: nat, outcome: Outcome): State
    requires t < |s.tasks|
  {
    s.(locked := false, future := None, tasks := s.tasks[t := Finished(outcome)])
  }

  /** The start of `login` in task t, up to its first await. */
  function Begin(s: State, t: nat, now: int): State
    requires t < |s.tasks|
  {
    if s.locked then s.(tasks := s.tasks[t := Finished(Busy(IsReceiving(s, now)))])
    else s.(locked := true, lastLoginAttempt := Some(now), future := Some(Unresolved),
            tasks := s.tasks[t := Waiting(1, now + LOGIN_RETRY_INTERVAL, false, false)])
  }

  /** The rest of `login` once its future has a result; asking for the essentials needs an authorised device. */
  function Answered(s: State, t: nat, success: bool): State
    requires t < |s.tasks|
  {
    Finish(s, t, if success && s.authenticated then LoggedIn else NotLoggedIn)
  }

  /** `login` woken at its await: by a cancellation, by its timer, or by its future. */
  function Wake(s: State, t: nat, now: int): State
    requires IsWaiting(s, t)
  {
    var task := s.tasks[t];
    if task.cancelled then Finish(s, t, Cancelled)
    else if task.expired then
      if task.attempt >= LOGIN_ATTEMPTS then Finish(s, t, NotLoggedIn)
      else
        var next := s.(tasks := s.tasks[t := Waiting(task.attempt + 1, now + LOGIN_RETRY_INTERVAL, false, false)]);
        if s.future.Some? && s.future.value.Resolved? then Answered(next, t, s.future.value.success) else next
    else if s.future.Some? && s.future.value.Resolved? then Answered(s, t, s.future.value.success)
    else s
  }

  function Resolve(s: State, success: bool): State
  {
    if s.future == Some(Unresolved) then s.(future := Some(Resolved(success))) else s
  }

  /** The session part of `_handle_packet`. */
  function HandlePacket(s: State, cmd: Command, now: int): State
  {
    var alive := if cmd != LOGIN_EVENT then s.(lastAlive := Some(now)) else s;
    if cmd == HEADING_EVENT then alive.(lastHeading := Some(now))
    else if cmd == LOGIN_SUCCESS_EVENT then
      Resolve(alive.(authenticated := true, lastHeading := Some(now)), true)
    else if cmd == LOGIN_EVENT then
      if s.hasPassword && !IsReceiving(s, now) && MayAttemptLogin(s, now)
      then alive.(tasks := s.tasks + [Created], autoTask := Some(|s.tasks|))
      else alive
    else if cmd == PASSWORD_ERROR_EVENT then
      Resolve(alive.(authenticated := false, lastAlive := None, lastHeading := None), false)
    else alive
  }

  /** Cancelling a login: one that never ran is over, a waiting one ends at its next turn. */
  function CancelTask(s: State, t: nat): State
    requires t < |s.tasks|
  {
    match s.tasks[t]
    case Created => s.(tasks := s.tasks[t := Finished(Cancelled)])
    case Waiting(attempt, deadline, expired, _) =>
      s.(tasks := s.tasks[t := Waiting(attempt, deadline, expired, true)])
    case Finished(_) => s
  }

  /** The session part of `close`: only the login remembered last is cancelled. */
  function CloseDevice(s: State): State
  {
    var closed := s.(authenticated := false);
    if s.autoTask.Some? && s.autoTask.value < |s.tasks| then CancelTask(closed, s.autoTask.value) else closed
  }

  function Step(s: State, event: Event, now: int): State
  {
    match event
    case Handle(cmd) => HandlePacket(s, cmd, now)
    case Login => Begin(s.(tasks := s.tasks + [Created]), |s.tasks|, now)
    case Start(t) => if t < |s.tasks| && s.tasks[t].Created? then Begin(s, t, now) else s
    case Expire(t) =>
      if IsWaiting(s, t) && now >= s.tasks[t].deadline
      then s.(tasks := s.tasks[t := s.tasks[t].(expired := true)])
      else s
    case Resume(t) => if IsWaiting(s, t) then Wake(s, t, now) else s
    case Cancel(t) => if IsWaiting(s, t) then CancelTask(s, t) else s
    case Close => CloseDevice(s)
  }

  /** The state after the first n steps of a trace. */
  function At(s: State, trace: seq<Timed>, n: nat): State
    requires n <= |trace|
  {
    if n == 0 then s else Step(At(s, trace, n - 1), trace[n - 1].event, trace[n - 1].at)
  }

  lemma AtNext(s: State, trace: seq<Timed>, m: nat, n: nat)
    requires n == m + 1 <= |trace|
    ensures At(s, trace, n) == Step(At(s, trace, m), trace[m].event, trace[m].at)
  {
  }

  // What the flags mean

  predicate Handles(step: Timed, cmd: Command)
  {
    step.event == Handle(cmd)
  }

  predicate Revokes(step: Timed)
  {
    Handles(step, PASSWORD_ERROR_EVENT) || step.event == Close
  }

  /** Step i handled a login success, and none of the first n after it a password error or a close. */
  ghost predicate AuthorisesAt(trace: seq<Timed>, i: nat, n: nat)
    requires n <= |trace|
  {
    i < n && Handles(trace[i], LOGIN_SUCCESS_EVENT) && forall j :: i < j < n ==> !Revokes(trace[j])
  }

  /** A login success was handled, with no password error or close after it. */
  ghost predicate AuthorisedBy(trace: seq<Timed>, n: nat)
    requires n <= |trace|
  {
    exists i: nat :: AuthorisesAt(trace, i, n)
  }

  predicate Registers(step: Timed)
  {
    Handles(step, HEADING_EVENT) || Handles(step, LOGIN_SUCCESS_EVENT)
  }

  /** Anything the charger sends but announcements and password errors. */
  predicate ShowsLife(step: Timed)
  {
    step.event.Handle? && step.event.cmd != LOGIN_EVENT && step.event.cmd != PASSWORD_ERROR_EVENT
  }

  /** Step i is of a kind, and no password error followed among the first n. */
  ghost predicate StandsAt(trace: seq<Timed>, kind: Timed -> bool, i: nat, n: nat)
    requires n <= |trace|
  {
    i < n && kind(trace[i]) && forall j :: i < j < n ==> !Handles(trace[j], PASSWORD_ERROR_EVENT)
  }

  ghost predicate InOrder(trace: seq<Timed>)
  {
    forall i, j :: 0 <= i < j < |trace| ==> trace[i].at <= trace[j].at
  }

  lemma AuthorisedStep(s: State, step: Timed)
    ensures Step(s, step.event, step.at).authenticated
         == (Handles(step, LOGIN_SUCCESS_EVENT) || (s.authenticated && !Revokes(step)))
  {
  }

  lemma AuthorisedByNext(trace: seq<Timed>, n: nat)
    requires n < |trace|
    ensures AuthorisedBy(trace, n + 1)
       <==> Handles(trace[n], LOGIN_SUCCESS_EVENT) || (AuthorisedBy(trace, n) && !Revokes(trace[n]))
  {
    if Handles(trace[n], LOGIN_SUCCESS_EVENT) {
      assert AuthorisesAt(trace, n, n + 1);
    } else if AuthorisedBy(trace, n) && !Revokes(trace[n]) {
      var i: nat :| AuthorisesAt(trace, i, n);
      assert AuthorisesAt(trace, i, n + 1);
    } else if AuthorisedBy(trace, n + 1) {
      var i: nat :| AuthorisesAt(trace, i, n + 1);
      assert AuthorisesAt(trace, i, n);
    }
  }

  /** Authorisation equals its meaning over every trace, whatever logins run beside it. */
  lemma {:induction false} AuthorisedMeaning(hasPassword: bool, trace: seq<Timed>, n: nat)
    requires n <= |trace|
    ensures At(Init(hasPassword), trace, n).authenticated <==> AuthorisedBy(trace, n)
  {
    if n == 0 {
    } else {
      AuthorisedMeaning(hasPassword, trace, n - 1);
      AuthorisedStep(At(Init(hasPassword), trace, n - 1), trace[n - 1]);
      AuthorisedByNext(trace, n - 1);
    }
  }

  lemma HeadingStep(s: State, step: Timed)
    ensures Step(s, step.event, step.at).lastHeading
         == if Registers(step) then Some(step.at)
            else if Handles(step, PASSWORD_ERROR_EVENT) then None
            else s.lastHeading
  {
  }

  lemma AliveStep(s: State, step: Timed)
    ensures Step(s, step.event, step.at).lastAlive
         == if ShowsLife(step) then Some(step.at)
            else if Handles(step, PASSWORD_ERROR_EVENT) then None
            else s.lastAlive
  {
  }

  /** The time of the latest step of a kind still standing after n steps. */
  ghost predicate Latest(trace: seq<Timed>, kind: Timed -> bool, time: Option<int>, n: nat)
    requires n <= |trace|
  {
    && (time.Some? ==> exists i: nat :: StandsAt(trace, kind, i, n) && trace[i].at == time.value)
    && (forall i: nat :: StandsAt(trace, kind, i, n) ==> time.Some? && trace[i].at <= time.value)
  }

  lemma StandsNext(trace: seq<Timed>, kind: Timed -> bool, i: nat, n: nat)
    requires n < |trace|
    ensures StandsAt(trace, kind, i, n + 1)
       <==> if i == n then kind(trace[n]) else StandsAt(trace, kind, i, n) && !Handles(trace[n], PASSWORD_ERROR_EVENT)
  {
  }

  lemma LatestNext(trace: seq<Timed>, kind: Timed -> bool, before: Option<int>, n: nat)
    requires n < |trace| && InOrder(trace) && Latest(trace, kind, before, n)
    ensures Latest(trace, kind, if kind(trace[n]) then Some(trace[n].at)
                                else if Handles(trace[n], PASSWORD_ERROR_EVENT) then None else before, n + 1)
  {
    forall i: nat
      ensures StandsAt(trace, kind, i, n + 1)
         <==> if i == n then kind(trace[n])
              else StandsAt(trace, kind, i, n) && !Handles(trace[n], PASSWORD_ERROR_EVENT)
    {
      StandsNext(trace, kind, i, n);
    }
    assert kind(trace[n]) ==> StandsAt(trace, kind, n, n + 1);
  }

  lemma LatestNone(trace: seq<Timed>, kind: Timed -> bool)
    ensures Latest(trace, kind, None, 0)
  {
  }

  lemma HeadingNext(s: State, trace: seq<Timed>, n: nat)
    requires n < |trace| && InOrder(trace) && Latest(trace, Registers, s.lastHeading, n)
    ensures Latest(trace, Registers, Step(s, trace[n].event, trace[n].at).lastHeading, n + 1)
  {
    HeadingStep(s, trace[n]);
    LatestNext(trace, Registers, s.lastHeading, n);
  }

  /** The last heading equals its meaning: when we were last registered, since the last password error. */
  lemma {:induction false} HeadingMeaning(hasPassword: bool, trace: seq<Timed>, n: nat)
    requires n <= |trace| && InOrder(trace)
    ensures Latest(trace, Registers, At(Init(hasPassword), trace, n).lastHeading, n)
  {
    if n == 0 {
      LatestNone(trace, Registers);
    } else {
      HeadingMeaning(hasPassword, trace, n - 1);
      HeadingNext(At(Init(hasPassword), trace, n - 1), trace, n - 1);
    }
  }

  lemma AliveNext(s: State, trace: seq<Timed>, n: nat)
    requires n < |trace| && InOrder(trace) && Latest(trace, ShowsLife, s.lastAlive, n)
    ensures Latest(trace, ShowsLife, Step(s, trace[n].event, trace[n].at).lastAlive, n + 1)
  {
    AliveStep(s, trace[n]);
    LatestNext(trace, ShowsLife, s.lastAlive, n);
  }

  /** The last time alive equals its meaning: when the charger last sent anything but an announcement, since
      the last password error. */
  lemma {:induction false} AliveMeaning(hasPassword: bool, trace: seq<Timed>, n: nat)
    requires n <= |trace| && InOrder(trace)
    ensures Latest(trace, ShowsLife, At(Init(hasPassword), trace, n).lastAlive, n)
  {
    if n == 0 {
      LatestNone(trace, ShowsLife);
    } else {
      AliveMeaning(hasPassword, trace, n - 1);
      AliveNext(At(Init(hasPassword), trace, n - 1), trace, n - 1);
    }
  }

  /** Receiving equals its meaning: authorised, and a heading or login success handled since the last
      password error is under 35 s old. */
  lemma ReceivingMeaning(hasPassword: bool, trace: seq<Timed>, n: nat, now: int)
    requires n <= |trace| && InOrder(trace)
    ensures IsReceiving(At(Init(hasPassword), trace, n), now)
       <==> AuthorisedBy(trace, n)
            && exists i: nat :: StandsAt(trace, Registers, i, n) && now - trace[i].at < HEADING_TIMEOUT
  {
    AuthorisedMeaning(hasPassword, trace, n);
    HeadingMeaning(hasPassword, trace, n);
  }

  /** Headings, announcements and answered polls alone never make a device authorised or receiving. */
  lemma NoLoginNoSession(hasPassword: bool, trace: seq<Timed>, n: nat, now: int)
    requires n <= |trace| && forall i :: 0 <= i < n ==> !Handles(trace[i], LOGIN_SUCCESS_EVENT)
    ensures var s := At(Init(hasPassword), trace, n); !s.authenticated && !IsReceiving(s, now)
  {
    AuthorisedMeaning(hasPassword, trace, n);
  }

  // The documented rule

  const DOCUMENTED_TIMEOUT := 120_000

  /** `is_logged_in` as the repository's README.md has it: a login, and any packet but an announcement within
      two minutes. */
  predicate DocumentedLogin(s: State, now: int)
  {
    s.authenticated && s.lastAlive.Some? && now - s.lastAlive.value < DOCUMENTED_TIMEOUT
  }

  /** The code's rule implies the documented one. */
  lemma ReceivingIsDocumented(hasPassword: bool, trace: seq<Timed>, n: nat, now: int)
    requires n <= |trace| && InOrder(trace) && IsReceiving(At(Init(hasPassword), trace, n), now)
    ensures DocumentedLogin(At(Init(hasPassword), trace, n), now)
  {
    HeadingMeaning(hasPassword, trace, n);
    AliveMeaning(hasPassword, trace, n);
    var i: nat :| StandsAt(trace, Registers, i, n)
      && trace[i].at == At(Init(hasPassword), trace, n).lastHeading.value;
    assert StandsAt(trace, ShowsLife, i, n);
  }

  /** The documented one does not imply the code's: 40 s after a login a charger still answers polls, and heads
      nobody. */
  lemma DocumentedNotReceiving(hasPassword: bool)
    ensures var trace := [Timed(Handle(LOGIN_SUCCESS_EVENT), 0), Timed(Handle(STATUS_EVENT), 40_000)];
            && InOrder(trace)
            && DocumentedLogin(At(Init(hasPassword), trace, 2), 40_000)
            && !IsReceiving(At(Init(hasPassword), trace, 2), 40_000)
  {
    var trace := [Timed(Handle(LOGIN_SUCCESS_EVENT), 0), Timed(Handle(STATUS_EVENT), 40_000)];
    assert At(Init(hasPassword), trace, 1) == HandlePacket(Init(hasPassword), LOGIN_SUCCESS_EVENT, 0);
    assert At(Init(hasPassword), trace, 2) == HandlePacket(At(Init(hasPassword), trace, 1), STATUS_EVENT, 40_000);
  }

  // Mutual exclusion

  /** One login at most is past the lock; the lock and the future exist exactly while it waits. */
  ghost predicate Exclusive(s: State)
  {
    && (forall t: nat :: IsWaiting(s, t) ==> s.locked && 1 <= s.tasks[t].attempt <= LOGIN_ATTEMPTS)
    && (forall t: nat, u: nat :: IsWaiting(s, t) && IsWaiting(s, u) ==> t == u)
    && (s.locked ==> exists t: nat :: IsWaiting(s, t))
    && (s.locked <==> s.future.Some?)
    && (s.autoTask.Some? ==> s.autoTask.value < |s.tasks|)
  }

  /** Replacing one task keeps the others waiting or not. */
  lemma TaskReplaced(s: State, s': State, t: nat)
    requires t < |s.tasks| && |s'.tasks| == |s.tasks| && s'.tasks == s.tasks[t := s'.tasks[t]]
    ensures forall u: nat :: u != t ==> (IsWaiting(s', u) <==> IsWaiting(s, u))
  {
  }

  lemma ExclusiveBegin(s: State, t: nat, now: int)
    requires Exclusive(s) && t < |s.tasks| && s.tasks[t].Created?
    ensures Exclusive(Begin(s, t, now))
  {
    var s' := Begin(s, t, now);
    TaskReplaced(s, s', t);
    assert IsWaiting(s', t) <==> !s.locked;
    if s.locked {
      var w: nat :| IsWaiting(s, w);
      assert IsWaiting(s', w);
    }
  }

  lemma ExclusiveWake(s: State, t: nat, now: int)
    requires Exclusive(s) && IsWaiting(s, t)
    ensures Exclusive(Wake(s, t, now))
    ensures var s' := Wake(s, t, now); s'.autoTask == s.autoTask && |s'.tasks| == |s.tasks|
  {
    var s' := Wake(s, t, now);
    assert s'.tasks == s.tasks[t := s'.tasks[t]];
    TaskReplaced(s, s', t);
    assert IsWaiting(s', t) <==> s'.locked;
  }

  lemma ExclusiveAppend(s: State)
    requires Exclusive(s)
    ensures Exclusive(s.(tasks := s.tasks + [Created]))
    ensures Exclusive(s.(tasks := s.tasks + [Created], autoTask := Some(|s.tasks|)))
  {
    var s' := s.(tasks := s.tasks + [Created]);
    var s'' := s.(tasks := s.tasks + [Created], autoTask := Some(|s.tasks|));
    assert forall u: nat :: IsWaiting(s', u) <==> IsWaiting(s, u);
    assert forall u: nat :: IsWaiting(s'', u) <==> IsWaiting(s, u);
  }

  /** Changing flags of a waiting task, or the other fields, keeps exclusion. */
  lemma ExclusiveSame(s: State, s': State)
    requires Exclusive(s) && s'.locked == s.locked && s'.future.Some? == s.future.Some? && s'.autoTask == s.autoTask
    requires |s'.tasks| == |s.tasks|
    requires forall u: nat :: IsWaiting(s', u) <==> IsWaiting(s, u)
    requires forall u: nat :: IsWaiting(s, u) && IsWaiting(s', u) ==> s'.tasks[u].attempt == s.tasks[u].attempt
    ensures Exclusive(s')
  {
  }

  lemma ExclusiveHandle(s: State, cmd: Command, now: int)
    requires Exclusive(s)
    ensures Exclusive(HandlePacket(s, cmd, now))
  {
    var s' := HandlePacket(s, cmd, now);
    if s'.tasks != s.tasks {
      var alive := s.(lastAlive := s'.lastAlive);
      ExclusiveSame(s, alive);
      ExclusiveAppend(alive);
    } else {
      ExclusiveSame(s, s');
    }
  }

  lemma ExclusiveExpire(s: State, t: nat, now: int)
    requires Exclusive(s)
    ensures Exclusive(Step(s, Expire(t), now))
  {
    ExclusiveSame(s, Step(s, Expire(t), now));
  }

  lemma ExclusiveCancel(s: State, t: nat)
    requires Exclusive(s) && t < |s.tasks|
    ensures Exclusive(CancelTask(s, t))
  {
    ExclusiveSame(s, CancelTask(s, t));
  }

  lemma ExclusiveClose(s: State)
    requires Exclusive(s)
    ensures Exclusive(CloseDevice(s))
  {
    ExclusiveSame(s, CloseDevice(s));
  }

  lemma ExclusiveStep(s: State, event: Event, now: int)
    requires Exclusive(s)
    ensures Exclusive(Step(s, event, now))
  {
    match event
    case Handle(cmd) => ExclusiveHandle(s, cmd, now);
    case Login =>
      ExclusiveAppend(s);
      ExclusiveBegin(s.(tasks := s.tasks + [Created]), |s.tasks|, now);
    case Start(t) =>
      if t < |s.tasks| && s.tasks[t].Created? {
        ExclusiveBegin(s, t, now);
      }
    case Expire(t) => ExclusiveExpire(s, t, now);
    case Resume(t) =>
      if IsWaiting(s, t) {
        ExclusiveWake(s, t, now);
      }
    case Cancel(t) =>
      if IsWaiting(s, t) {
        ExclusiveCancel(s, t);
      }
    case Close => ExclusiveClose(s);
  }

  lemma {:induction false} ExclusiveRun(s: State, trace: seq<Timed>, n: nat)
    requires n <= |trace| && Exclusive(s)
    ensures Exclusive(At(s, trace, n))
  {
    if n == 0 {
    } else {
      ExclusiveRun(s, trace, n - 1);
      ExclusiveStep(At(s, trace, n - 1), trace[n - 1].event, trace[n - 1].at);
    }
  }

  /** Login mutual exclusion: in every state of every trace at most one login is past the lock, and the lock and
      the future exist exactly while it waits. */
  lemma LoginMutualExclusion(hasPassword: bool, trace: seq<Timed>, n: nat)
    requires n <= |trace|
    ensures Exclusive(At(Init(hasPassword), trace, n))
  {
    ExclusiveRun(Init(hasPassword), trace, n);
  }

  // Requests

  /** The login on whose behalf a step acts. */
  function Actor(s: State, event: Event): Option<nat>
  {
    match event
    case Login => Some(|s.tasks|)
    case Start(t) => Some(t)
    case Resume(t) => Some(t)
    case _ => None
  }

  /** Whether a step sends a LOGIN_REQUEST: at the start of a login, and after a timeout with attempts left. */
  predicate SendsLoginRequest(s: State, event: Event)
  {
    match event
    case Login => !s.locked
    case Start(t) => t < |s.tasks| && s.tasks[t].Created? && !s.locked
    case Resume(t) =>
      IsWaiting(s, t) && !s.tasks[t].cancelled && s.tasks[t].expired && s.tasks[t].attempt < LOGIN_ATTEMPTS
    case _ => false
  }
}
