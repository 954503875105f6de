/** What logins send and come to over whole traces, and which of them a close stops (evsemaster/device.py). */
module Logins {
  import opened Wrappers
  import opened Packet
  import opened Session

  // Requests

  /** Step i sends a request on behalf of login t. */
  predicate AsksAt(s: State, trace: seq<Timed>, t: nat, i: nat)
  {
    && i < |trace|
    && Actor(At(s, trace, i), trace[i].event) == Some(t)
    && SendsLoginRequest(At(s, trace, i), trace[i].event)
  }

  /** The requests login t sends in the first n steps. */
  function RequestsBy(s: State, trace: seq<Timed>, t: nat, n: nat): nat
    requires n <= |trace|
  {
    if n == 0 then 0 else RequestsBy(s, trace, t, n - 1) + if AsksAt(s, trace, t, n - 1) then 1 else 0
  }

  /** How many requests a task has sent, as far as its state tells. */
  predicate Counted(s: State, t: nat, sent: nat)
  {
    && sent <= LOGIN_ATTEMPTS
    && (t >= |s.tasks| || s.tasks[t].Created? ==> sent == 0)
    && (IsWaiting(s, t) ==> sent == s.tasks[t].attempt)
  }

  lemma CountedBegin(s: State, u: nat, now: int, t: nat, sent: nat)
    requires Exclusive(s) && u < |s.tasks| && s.tasks[u].Created? && Counted(s, t, sent)
    ensures Counted(Begin(s, u, now), t, sent + if u == t && !s.locked then 1 else 0)
  {
  }

  lemma CountedWake(s: State, u: nat, now: int, t: nat, sent: nat)
    requires Exclusive(s) && IsWaiting(s, u) && Counted(s, t, sent)
    ensures Counted(Wake(s, u, now), t, sent + if u == t && SendsLoginRequest(s, Resume(u)) then 1 else 0)
  {
  }

  lemma CountedLogin(s: State, now: int, t: nat, sent: nat)
    requires Exclusive(s) && Counted(s, t, sent)
    ensures Counted(Step(s, Login, now), t, sent + if |s.tasks| == t && !s.locked then 1 else 0)
  {
    ExclusiveAppend(s);
    CountedBegin(s.(tasks := s.tasks + [Created]), |s.tasks|, now, t, sent);
  }

  lemma CountedHandle(s: State, cmd: Command, now: int, t: nat, sent: nat)
    requires Counted(s, t, sent)
    ensures Counted(HandlePacket(s, cmd, now), t, sent)
  {
  }

  lemma CountedClose(s: State, t: nat, sent: nat)
    requires Counted(s, t, sent)
    ensures Counted(CloseDevice(s), t, sent)
  {
  }

  lemma CountedStep(s: State, event: Event, now: int, t: nat, sent: nat)
    requires Exclusive(s) && Counted(s, t, sent)
    ensures Counted(Step(s, event, now), t,
                    sent + if Actor(s, event) == Some(t) && SendsLoginRequest(s, event) then 1 else 0)
  {
    match event
    case Handle(cmd) => CountedHandle(s, cmd, now, t, sent);
    case Login => CountedLogin(s, now, t, sent);
    case Start(u) =>
      if u < |s.tasks| && s.tasks[u].Created? {
        CountedBegin(s, u, now, t, sent);
      }
    case Expire(u) =>
    case Resume(u) =>
      if IsWaiting(s, u) {
        CountedWake(s, u, now, t, sent);
      }
    case Cancel(u) =>
    case Close => CountedClose(s, t, sent);
  }

  predicate CountedAt(s: State, trace: seq<Timed>, t: nat, n: nat)
  {
    n <= |trace| && Counted(At(s, trace, n), t, RequestsBy(s, trace, t, n))
  }

  lemma CountedNext(s: State, trace: seq<Timed>, t: nat, n: nat)
    requires n < |trace| && Exclusive(At(s, trace, n)) && CountedAt(s, trace, t, n)
    ensures CountedAt(s, trace, t, n + 1)
  {
    CountedStep(At(s, trace, n), trace[n].event, trace[n].at, t, RequestsBy(s, trace, t, n));
  }

  /** Each login sends at most four requests, and a waiting one has sent as many as it counts. */
  lemma {:induction false} RequestsBounded(hasPassword: bool, trace: seq<Timed>, t: nat, n: nat)
    requires n <= |trace|
    ensures CountedAt(Init(hasPassword), trace, t, n)
  {
    if n == 0 {
    } else {
      RequestsBounded(hasPassword, trace, t, n - 1);
      LoginMutualExclusion(hasPassword, trace, n - 1);
      CountedNext(Init(hasPassword), trace, t, n - 1);
    }
  }

  // Outcome

  function AnswerOf(step: Timed): Option<bool>
  {
    if Handles(step, LOGIN_SUCCESS_EVENT) then Some(true)
    else if Handles(step, PASSWORD_ERROR_EVENT) then Some(false)
    else None
  }

  function Later(answer: Option<bool>, step: Timed): Option<bool>
  {
    if answer.Some? then answer else AnswerOf(step)
  }

  /** The first login success or password error handled by the steps from `from` up to n. */
  function FirstAnswer(trace: seq<Timed>, from: nat, n: nat): Option<bool>
    requires from <= n <= |trace|
  {
    if n == from then None else Later(FirstAnswer(trace, from, n - 1), trace[n - 1])
  }

  function FutureOf(answer: Option<bool>): Future
  {
    match answer
    case None => Unresolved
    case Some(success) => Resolved(success)
  }

  /** Step a is where login t got past the lock. */
  predicate PastLockAt(s: State, trace: seq<Timed>, t: nat, a: nat)
  {
    a < |trace| && !IsWaiting(At(s, trace, a), t) && IsWaiting(At(s, trace, a + 1), t)
  }

  /** Login t returned True at step b: it was woken, the first answer since it started was a success,
      and the device was still authorised. */
  predicate ReturnedTrueAt(s: State, trace: seq<Timed>, t: nat, a: nat, b: nat)
  {
    && a < b < |trace|
    && trace[b].event == Resume(t)
    && FirstAnswer(trace, a + 1, b) == Some(true)
    && At(s, trace, b + 1).authenticated
    && IsWaiting(At(s, trace, b), t)
    && At(s, trace, b + 1).tasks == At(s, trace, b).tasks[t := Finished(LoggedIn)]
  }

  /** Login t is past its start, and while it waits its future holds the given answer. */
  predicate HoldsAnswer(s: State, t: nat, answer: Option<bool>)
  {
    && t < |s.tasks|
    && !s.tasks[t].Created?
    && (IsWaiting(s, t) ==> s.future == Some(FutureOf(answer)))
  }

  lemma AnswerWake(s: State, u: nat, now: int, t: nat, answer: Option<bool>)
    requires Exclusive(s) && HoldsAnswer(s, t, answer) && IsWaiting(s, u)
    ensures HoldsAnswer(Wake(s, u, now), t, answer)
  {
    if u != t {
      assert !IsWaiting(s, t);
    }
  }

  lemma AnswerHandle(s: State, cmd: Command, now: int, t: nat, answer: Option<bool>)
    requires Exclusive(s) && HoldsAnswer(s, t, answer)
    ensures HoldsAnswer(HandlePacket(s, cmd, now), t, Later(answer, Timed(Handle(cmd), now)))
  {
  }

  lemma AnswerBegin(s: State, u: nat, now: int, t: nat, answer: Option<bool>)
    requires Exclusive(s) && HoldsAnswer(s, t, answer) && u < |s.tasks| && s.tasks[u].Created?
    ensures HoldsAnswer(Begin(s, u, now), t, answer)
  {
  }

  lemma AnswerLogin(s: State, now: int, t: nat, answer: Option<bool>)
    requires Exclusive(s) && HoldsAnswer(s, t, answer)
    ensures HoldsAnswer(Step(s, Login, now), t, answer)
  {
    ExclusiveAppend(s);
    AnswerBegin(s.(tasks := s.tasks + [Created]), |s.tasks|, now, t, answer);
  }

  lemma AnswerStep(s: State, step: Timed, t: nat, answer: Option<bool>)
    requires Exclusive(s) && HoldsAnswer(s, t, answer)
    ensures HoldsAnswer(Step(s, step.event, step.at), t, Later(answer, step))
  {
    match step.event
    case Handle(cmd) => AnswerHandle(s, cmd, step.at, t, answer);
    case Login => AnswerLogin(s, step.at, t, answer);
    case Start(u) =>
      if u < |s.tasks| && s.tasks[u].Created? {
        AnswerBegin(s, u, step.at, t, answer);
      }
    case Expire(u) =>
    case Resume(u) =>
      if IsWaiting(s, u) {
        AnswerWake(s, u, step.at, t, answer);
      }
    case Cancel(u) =>
    case Close =>
  }

  lemma PastLockWake(s: State, u: nat, now: int, t: nat)
    requires IsWaiting(s, u) && IsWaiting(Wake(s, u, now), t)
    ensures IsWaiting(s, t)
  {
  }

  lemma PastLockStep(s: State, step: Timed, t: nat)
    requires !IsWaiting(s, t) && IsWaiting(Step(s, step.event, step.at), t)
    ensures HoldsAnswer(Step(s, step.event, step.at), t, None)
  {
    match step.event
    case Handle(cmd) =>
    case Login =>
    case Start(u) =>
    case Expire(u) =>
    case Resume(u) =>
      if IsWaiting(s, u) {
        PastLockWake(s, u, step.at, t);
      }
    case Cancel(u) =>
    case Close =>
  }

  /** Login t got past the lock at step a, and after n steps holds the first answer since. */
  predicate HoldsFirst(s: State, trace: seq<Timed>, t: nat, a: nat, n: nat)
  {
    a < n <= |trace| && HoldsAnswer(At(s, trace, n), t, FirstAnswer(trace, a + 1, n))
  }

  lemma FutureStarts(s: State, trace: seq<Timed>, t: nat, a: nat)
    requires PastLockAt(s, trace, t, a)
    ensures HoldsFirst(s, trace, t, a, a + 1)
  {
    PastLockStep(At(s, trace, a), trace[a], t);
  }

  lemma FutureNext(s: State, trace: seq<Timed>, t: nat, a: nat, n: nat)
    requires Exclusive(s) && n < |trace| && HoldsFirst(s, trace, t, a, n)
    ensures HoldsFirst(s, trace, t, a, n + 1)
  {
    ExclusiveRun(s, trace, n);
    AnswerStep(At(s, trace, n), trace[n], t, FirstAnswer(trace, a + 1, n));
  }

  lemma {:induction false} FutureKept(s: State, trace: seq<Timed>, t: nat, a: nat, m: nat, n: nat)
    requires Exclusive(s) && HoldsFirst(s, trace, t, a, m) && m <= n <= |trace|
    ensures HoldsFirst(s, trace, t, a, n)
  {
    if n == m {
    } else {
      FutureKept(s, trace, t, a, m, n - 1);
      FutureNext(s, trace, t, a, n - 1);
    }
  }

  /** While a login past the lock waits, its future is what was first answered since it started; so it
      is resolved at most once. */
  lemma FutureIsFirstAnswer(s: State, trace: seq<Timed>, t: nat, a: nat, n: nat)
    requires Exclusive(s) && PastLockAt(s, trace, t, a) && a < n <= |trace|
    ensures HoldsFirst(s, trace, t, a, n)
  {
    FutureStarts(s, trace, t, a);
    FutureKept(s, trace, t, a, a + 1, n);
  }

  lemma TrueWake(s: State, u: nat, now: int, t: nat, answer: Option<bool>)
    requires HoldsAnswer(s, t, answer) && IsWaiting(s, u) && s.tasks[t] != Finished(LoggedIn)
    requires Wake(s, u, now).tasks[t] == Finished(LoggedIn)
    ensures var s' := Wake(s, u, now);
            && u == t && answer == Some(true)
            && s'.authenticated && s'.tasks == s.tasks[t := Finished(LoggedIn)]
  {
    assert u == t;
    assert s.future == Some(FutureOf(answer));
  }

  lemma TrueStep(s: State, step: Timed, t: nat, answer: Option<bool>)
    requires HoldsAnswer(s, t, answer) && s.tasks[t] != Finished(LoggedIn)
    requires var s' := Step(s, step.event, step.at); t < |s'.tasks| && s'.tasks[t] == Finished(LoggedIn)
    ensures var s' := Step(s, step.event, step.at);
            && IsWaiting(s, t) && step.event == Resume(t) && answer == Some(true)
            && s'.authenticated && s'.tasks == s.tasks[t := Finished(LoggedIn)]
  {
    match step.event
    case Handle(cmd) =>
    case Login =>
    case Start(u) =>
    case Expire(u) =>
    case Resume(u) =>
      if IsWaiting(s, u) {
        TrueWake(s, u, step.at, t, answer);
      }
    case Cancel(u) =>
    case Close =>
  }

  /** The login has returned True by step n. */
  predicate LoggedInBy(s: State, trace: seq<Timed>, t: nat, n: nat)
  {
    n <= |trace| && t < |At(s, trace, n).tasks| && At(s, trace, n).tasks[t] == Finished(LoggedIn)
  }

  lemma TrueNext(s: State, trace: seq<Timed>, t: nat, a: nat, n: nat)
    requires n < |trace| && HoldsFirst(s, trace, t, a, n)
    requires LoggedInBy(s, trace, t, n + 1) && !LoggedInBy(s, trace, t, n)
    ensures ReturnedTrueAt(s, trace, t, a, n)
  {
    TrueStep(At(s, trace, n), trace[n], t, FirstAnswer(trace, a + 1, n));
  }

  lemma {:induction false} ReturnedTrueSince(s: State, trace: seq<Timed>, t: nat, a: nat, m: nat, n: nat)
    requires Exclusive(s) && HoldsFirst(s, trace, t, a, m) && !LoggedInBy(s, trace, t, m)
    requires m <= n && LoggedInBy(s, trace, t, n)
    ensures exists b :: ReturnedTrueAt(s, trace, t, a, b)
  {
    if n == m {
      assert false;
    } else if LoggedInBy(s, trace, t, n - 1) {
      ReturnedTrueSince(s, trace, t, a, m, n - 1);
    } else {
      FutureKept(s, trace, t, a, m, n - 1);
      TrueNext(s, trace, t, a, n - 1);
    }
  }

  /** Login outcome: a login past the lock returns True only after the first answer since it started was a
      success, with the device still authorised. */
  lemma LoginOutcome(s: State, trace: seq<Timed>, t: nat, a: nat, n: nat)
    requires Exclusive(s) && PastLockAt(s, trace, t, a) && a < n && LoggedInBy(s, trace, t, n)
    ensures exists b :: ReturnedTrueAt(s, trace, t, a, b)
  {
    FutureStarts(s, trace, t, a);
    ReturnedTrueSince(s, trace, t, a, a + 1, n);
  }

  // Which logins can go on

  /** The login can still send a request or return True: it has not run, or waits with a request left or
      with an answer still to come or come as a success. */
  predicate HasChance(s: State, t: nat)
  {
    && t < |s.tasks|
    && match s.tasks[t]
       case Created => true
       case Waiting(attempt, _, expired, cancelled) =>
         !cancelled && (attempt < LOGIN_ATTEMPTS || (!expired && s.future != Some(Resolved(false))))
       case Finished(_) => false
  }

  predicate GoesOnBy(s: State, trace: seq<Timed>, t: nat)
  {
    || RequestsBy(s, trace, t, |trace|) > 0
    || (t < |At(s, trace, |trace|).tasks| && At(s, trace, |trace|).tasks[t] == Finished(LoggedIn))
  }

  /** Steps in order of time, none before `now`. */
  ghost predicate Follows(trace: seq<Timed>, now: int)
  {
    InOrder(trace) && forall i :: 0 <= i < |trace| ==> now <= trace[i].at
  }

  /** Over some continuation the login sends a request or returns True. */
  ghost predicate GoesOn(s: State, t: nat, now: int)
  {
    exists trace: seq<Timed> :: Follows(trace, now) && GoesOnBy(s, trace, t)
  }

  /** A login with no chance left that did not return True. */
  predicate Done(s: State, t: nat)
  {
    t < |s.tasks| && s.tasks[t] != Finished(LoggedIn) && !HasChance(s, t)
  }

  lemma DoneWake(s: State, u: nat, now: int, t: nat)
    requires Exclusive(s) && Done(s, t) && IsWaiting(s, u)
    ensures Done(Wake(s, u, now), t)
  {
    if u != t {
      assert !IsWaiting(s, t);
    }
  }

  lemma DoneBegin(s: State, u: nat, now: int, t: nat)
    requires Exclusive(s) && Done(s, t) && u < |s.tasks| && s.tasks[u].Created?
    ensures Done(Begin(s, u, now), t)
  {
  }

  lemma DoneLogin(s: State, now: int, t: nat)
    requires Exclusive(s) && Done(s, t)
    ensures Done(Step(s, Login, now), t)
  {
    ExclusiveAppend(s);
    DoneBegin(s.(tasks := s.tasks + [Created]), |s.tasks|, now, t);
  }

  lemma DoneHandle(s: State, cmd: Command, now: int, t: nat)
    requires Exclusive(s) && Done(s, t)
    ensures Done(HandlePacket(s, cmd, now), t)
  {
  }

  lemma DoneStep(s: State, event: Event, now: int, t: nat)
    requires Exclusive(s) && Done(s, t)
    ensures Done(Step(s, event, now), t)
    ensures Actor(s, event) == Some(t) ==> !SendsLoginRequest(s, event)
  {
    match event
    case Handle(cmd) => DoneHandle(s, cmd, now, t);
    case Login => DoneLogin(s, now, t);
    case Start(u) =>
      if u < |s.tasks| && s.tasks[u].Created? {
        DoneBegin(s, u, now, t);
      }
    case Expire(u) =>
    case Resume(u) =>
      if IsWaiting(s, u) {
        DoneWake(s, u, now, t);
      }
    case Cancel(u) =>
    case Close =>
  }

  predicate DoneAt(s: State, trace: seq<Timed>, t: nat, n: nat)
  {
    n <= |trace| && Done(At(s, trace, n), t) && RequestsBy(s, trace, t, n) == 0
  }

  ghost predicate ExclusiveAt(s: State, trace: seq<Timed>, n: nat)
  {
    n <= |trace| ==> Exclusive(At(s, trace, n))
  }

  lemma DoneStays(s: State, step: Timed, t: nat, s': State)
    requires Exclusive(s) && Done(s, t) && s' == Step(s, step.event, step.at)
    ensures Done(s', t) && !(Actor(s, step.event) == Some(t) && SendsLoginRequest(s, step.event))
  {
    DoneStep(s, step.event, step.at, t);
  }

  lemma StepAt(s: State, trace: seq<Timed>, t: nat, m: nat, n: nat)
    requires n == m + 1 <= |trace|
    ensures At(s, trace, n) == Step(At(s, trace, m), trace[m].event, trace[m].at)
    ensures RequestsBy(s, trace, t, n) == RequestsBy(s, trace, t, m) + if AsksAt(s, trace, t, m) then 1 else 0
  {
  }

  lemma DoneNext(s: State, trace: seq<Timed>, t: nat, m: nat, n: nat)
    requires n == m + 1 <= |trace| && ExclusiveAt(s, trace, m) && DoneAt(s, trace, t, m)
    ensures DoneAt(s, trace, t, n)
  {
    StepAt(s, trace, t, m, n);
    DoneStays(At(s, trace, m), trace[m], t, At(s, trace, n));
  }

  lemma {:induction false} DoneKept(s: State, trace: seq<Timed>, t: nat, n: nat)
    requires n <= |trace| && DoneAt(s, trace, t, 0)
    requires forall k: nat :: ExclusiveAt(s, trace, k)
    ensures DoneAt(s, trace, t, n)
  {
    if n == 0 {
    } else {
      DoneKept(s, trace, t, n - 1);
      DoneNext(s, trace, t, n - 1, n);
    }
  }

  lemma DoneRun(s: State, trace: seq<Timed>, t: nat)
    requires Exclusive(s) && Done(s, t)
    ensures !GoesOnBy(s, trace, t)
  {
    forall k: nat
      ensures ExclusiveAt(s, trace, k)
    {
      if k <= |trace| {
        ExclusiveRun(s, trace, k);
      }
    }
    DoneKept(s, trace, t, |trace|);
  }

  /** A login that starts with the lock free asks at once. */
  lemma StartAsks(s: State, t: nat, now: int)
    requires t < |s.tasks| && s.tasks[t].Created? && !s.locked
    ensures GoesOn(s, t, now)
  {
    var trace := [Timed(Start(t), now)];
    assert At(s, trace, 0) == s;
    assert AsksAt(s, trace, t, 0);
    assert GoesOnBy(s, trace, t);
  }

  /** A login behind the lock asks once the lock's holder was answered and is through. */
  lemma StartAsksLater(s: State, t: nat, w: nat, now: int)
    requires Exclusive(s) && t < |s.tasks| && s.tasks[t].Created? && IsWaiting(s, w)
    ensures GoesOn(s, t, now)
  {
    var trace := [Timed(Handle(PASSWORD_ERROR_EVENT), now), Timed(Resume(w), now), Timed(Start(t), now)];
    var s1 := HandlePacket(s, PASSWORD_ERROR_EVENT, now);
    var s2 := Wake(s1, w, now);
    assert At(s, trace, 1) == s1;
    assert At(s, trace, 2) == s2;
    assert !s2.locked && s2.tasks[t].Created?;
    assert AsksAt(s, trace, t, 2);
    assert GoesOnBy(s, trace, t);
  }

  /** A waiting login with a request left asks again when its timer fires. */
  lemma RetryAsks(s: State, t: nat, now: int)
    requires IsWaiting(s, t) && !s.tasks[t].cancelled && s.tasks[t].attempt < LOGIN_ATTEMPTS
    ensures GoesOn(s, t, now)
  {
    var at := if now < s.tasks[t].deadline then s.tasks[t].deadline else now;
    var trace := [Timed(Expire(t), at), Timed(Resume(t), at)];
    assert At(s, trace, 1) == Step(s, Expire(t), at);
    assert AsksAt(s, trace, t, 1);
    assert GoesOnBy(s, trace, t);
  }

  /** A waiting login returns True once a success is handled, unless it was refused. */
  lemma SuccessReturns(s: State, t: nat, now: int)
    requires Exclusive(s) && IsWaiting(s, t) && !s.tasks[t].cancelled && !s.tasks[t].expired
    requires s.future != Some(Resolved(false))
    ensures GoesOn(s, t, now)
  {
    var trace := [Timed(Handle(LOGIN_SUCCESS_EVENT), now), Timed(Resume(t), now)];
    var s1 := HandlePacket(s, LOGIN_SUCCESS_EVENT, now);
    assert s.locked && s.future.Some?;
    assert s.future.value == Unresolved || s.future.value == Resolved(true) || s.future.value == Resolved(false);
    assert At(s, trace, 1) == s1;
    assert s1.authenticated && s1.future == Some(Resolved(true));
    assert At(s, trace, 2) == Wake(s1, t, now);
    assert GoesOnBy(s, trace, t);
  }

  /** A login that has not ended goes on over some continuation exactly if it has a chance. */
  lemma GoesOnExactly(s: State, t: nat, now: int)
    requires Exclusive(s) && t < |s.tasks| && !s.tasks[t].Finished?
    ensures GoesOn(s, t, now) <==> HasChance(s, t)
  {
    if !HasChance(s, t) {
      forall trace: seq<Timed>
        ensures !GoesOnBy(s, trace, t)
      {
        DoneRun(s, trace, t);
      }
    } else if s.tasks[t].Created? && !s.locked {
      StartAsks(s, t, now);
    } else if s.tasks[t].Created? {
      var w: nat :| IsWaiting(s, w);
      StartAsksLater(s, t, w, now);
    } else if s.tasks[t].attempt < LOGIN_ATTEMPTS {
      RetryAsks(s, t, now);
    } else {
      SuccessReturns(s, t, now);
    }
  }

  lemma CloseTakesChance(s: State, t: nat, now: int)
    requires Exclusive(s) && t < |s.tasks| && !s.tasks[t].Finished?
    ensures var closed := Step(s, Close, now);
            && t < |closed.tasks|
            && (HasChance(closed, t) <==> HasChance(s, t) && s.autoTask != Some(t))
            && (closed.tasks[t].Finished? ==> closed.tasks[t] == Finished(Cancelled))
            && (s.autoTask != Some(t) ==> closed.tasks[t] == s.tasks[t])
  {
  }

  /** What a close stops: in any state of any trace, a login that has not ended goes on after the close exactly if
      it could before and is not the one the device remembers; one not remembered is left as it is,
      whether the application or an announcement started it. */
  lemma CloseStopsLogins(hasPassword: bool, trace: seq<Timed>, n: nat, t: nat, now: int)
    requires n <= |trace|
    requires t < |At(Init(hasPassword), trace, n).tasks| && !At(Init(hasPassword), trace, n).tasks[t].Finished?
    ensures var s := At(Init(hasPassword), trace, n);
            var closed := Step(s, Close, now);
            && (GoesOn(closed, t, now) <==> HasChance(s, t) && s.autoTask != Some(t))
            && (GoesOn(s, t, now) <==> HasChance(s, t))
            && (s.autoTask != Some(t) ==> closed.tasks[t] == s.tasks[t])
  {
    var s := At(Init(hasPassword), trace, n);
    LoginMutualExclusion(hasPassword, trace, n);
    ExclusiveClose(s);
    GoesOnExactly(s, t, now);
    CloseTakesChance(s, t, now);
    var closed := Step(s, Close, now);
    if closed.tasks[t].Finished? {
      forall more: seq<Timed>
        ensures !GoesOnBy(closed, more, t)
      {
        DoneRun(closed, more, t);
      }
    } else {
      GoesOnExactly(closed, t, now);
    }
  }

  // Automatic logins the device no longer remembers

  /** Step i handles an announcement and makes login t. */
  predicate MakesAt(s: State, trace: seq<Timed>, t: nat, i: nat)
  {
    && i < |trace|
    && Handles(trace[i], LOGIN_EVENT)
    && |At(s, trace, i).tasks| == t && |At(s, trace, i + 1).tasks| == t + 1
  }

  /** Step i handles another announcement and makes another login, while login t has not run yet. */
  predicate OverwritesAt(s: State, trace: seq<Timed>, t: nat, i: nat)
  {
    && i < |trace|
    && Handles(trace[i], LOGIN_EVENT)
    && t < |At(s, trace, i).tasks| && At(s, trace, i).tasks[t].Created?
    && |At(s, trace, i + 1).tasks| > |At(s, trace, i).tasks|
  }

  ghost predicate Overwritten(s: State, trace: seq<Timed>, t: nat, n: nat)
  {
    exists i: nat :: i < n && OverwritesAt(s, trace, t, i)
  }

  /** No login is forgotten altogether, and one that ended has ended. */
  predicate Keeps(s: State, s': State, t: nat)
  {
    t < |s.tasks| ==> t < |s'.tasks| && (s.tasks[t].Finished? ==> s'.tasks[t].Finished?)
  }

  lemma WakeKeeps(s: State, u: nat, now: int, t: nat)
    requires IsWaiting(s, u)
    ensures Keeps(s, Wake(s, u, now), t)
  {
  }

  lemma TasksStay(s: State, event: Event, now: int, t: nat)
    ensures Keeps(s, Step(s, event, now), t)
  {
    match event
    case Handle(cmd) =>
    case Login =>
    case Start(u) =>
    case Expire(u) =>
    case Resume(u) =>
      if IsWaiting(s, u) {
        WakeKeeps(s, u, now, t);
      }
    case Cancel(u) =>
    case Close =>
  }

  lemma {:induction false} TasksGrow(s: State, trace: seq<Timed>, i: nat, n: nat)
    requires i <= n <= |trace|
    ensures |At(s, trace, i).tasks| <= |At(s, trace, n).tasks|
  {
    if i == n {
    } else {
      TasksGrow(s, trace, i, n - 1);
      var before := At(s, trace, n - 1);
      if |before.tasks| > 0 {
        TasksStay(before, trace[n - 1].event, trace[n - 1].at, |before.tasks| - 1);
      }
    }
  }

  /** An announcement makes a login only with the lock free, and the device remembers the newest. */
  lemma RememberedStep(s: State, step: Timed)
    ensures var s' := Step(s, step.event, step.at);
            if Handles(step, LOGIN_EVENT) && |s'.tasks| > |s.tasks|
            then !s.locked && s'.tasks == s.tasks + [Created] && s'.autoTask == Some(|s.tasks|)
            else s'.autoTask == s.autoTask
  {
  }

  /** An automatic login just made is remembered, and no step so far overwrote it. */
  lemma JustMade(s: State, trace: seq<Timed>, t: nat, i: nat)
    requires MakesAt(s, trace, t, i)
    ensures At(s, trace, i + 1).autoTask == Some(t) && !Overwritten(s, trace, t, i + 1)
  {
    RememberedStep(At(s, trace, i), trace[i]);
    forall j: nat | j < i + 1
      ensures !OverwritesAt(s, trace, t, j)
    {
      TasksGrow(s, trace, j, i);
    }
  }

  lemma OverwrittenNext(s: State, trace: seq<Timed>, t: nat, n: nat)
    ensures Overwritten(s, trace, t, n + 1) <==> Overwritten(s, trace, t, n) || OverwritesAt(s, trace, t, n)
  {
  }

  /** After n steps, login t has ended, or is forgotten exactly if it was overwritten. */
  ghost predicate ForgottenAt(s: State, trace: seq<Timed>, t: nat, n: nat)
  {
    && n <= |trace| && t < |At(s, trace, n).tasks|
    && (At(s, trace, n).tasks[t].Finished? || (At(s, trace, n).autoTask != Some(t) <==> Overwritten(s, trace, t, n)))
  }

  lemma ForgottenNext(s: State, trace: seq<Timed>, t: nat, n: nat)
    requires n < |trace| && Exclusive(At(s, trace, n)) && ForgottenAt(s, trace, t, n)
    ensures ForgottenAt(s, trace, t, n + 1)
  {
    TasksStay(At(s, trace, n), trace[n].event, trace[n].at, t);
    RememberedStep(At(s, trace, n), trace[n]);
    OverwrittenNext(s, trace, t, n);
  }

  lemma {:induction false} ForgottenRun(hasPassword: bool, trace: seq<Timed>, t: nat, m: nat, n: nat)
    requires ForgottenAt(Init(hasPassword), trace, t, m) && m <= n <= |trace|
    ensures ForgottenAt(Init(hasPassword), trace, t, n)
  {
    if n == m {
    } else {
      ForgottenRun(hasPassword, trace, t, m, n - 1);
      LoginMutualExclusion(hasPassword, trace, n - 1);
      ForgottenNext(Init(hasPassword), trace, t, n - 1);
    }
  }

  /** When a close spares an automatic login: one that has not ended is no longer remembered exactly if, before it
      first ran, another announcement was handled and made another. */
  lemma ForgottenExactly(hasPassword: bool, trace: seq<Timed>, t: nat, i: nat, n: nat)
    requires MakesAt(Init(hasPassword), trace, t, i) && i < n <= |trace|
    ensures t < |At(Init(hasPassword), trace, n).tasks|
    ensures var s := At(Init(hasPassword), trace, n);
            !s.tasks[t].Finished? ==> (s.autoTask != Some(t) <==> Overwritten(Init(hasPassword), trace, t, n))
  {
    JustMade(Init(hasPassword), trace, t, i);
    ForgottenRun(hasPassword, trace, t, i + 1, n);
  }

  /** Two announcements handled before either login runs: the first login takes the lock and is forgotten, and after
      a close it still asks. */
  const TWO_ANNOUNCEMENTS: seq<Timed> := [
    Timed(Handle(LOGIN_EVENT), 0), Timed(Handle(LOGIN_EVENT), 0), Timed(Start(0), 0), Timed(Start(1), 0),
    Timed(Close, 0), Timed(Expire(0), LOGIN_RETRY_INTERVAL), Timed(Resume(0), LOGIN_RETRY_INTERVAL)]

  lemma ForgottenLoginAsks()
    ensures var trace := TWO_ANNOUNCEMENTS;
            && IsWaiting(At(Init(true), trace, 4), 0) && At(Init(true), trace, 4).autoTask == Some(1)
            && trace[4].event == Close
            && AsksAt(Init(true), trace, 0, 6)
  {
    var trace, s0 := TWO_ANNOUNCEMENTS, Init(true);
    var s2 := s0.(tasks := [Created, Created], autoTask := Some(1));
    assert At(s0, trace, 0) == s0;
    assert At(s0, trace, 1) == s0.(tasks := [Created], autoTask := Some(0));
    assert At(s0, trace, 2) == s2;
    var waiting := Waiting(1, LOGIN_RETRY_INTERVAL, false, false);
    var s3 := s2.(locked := true, lastLoginAttempt := Some(0), future := Some(Unresolved), tasks := [waiting, Created]);
    assert At(s0, trace, 3) == s3;
    var s4 := s3.(tasks := [waiting, Finished(Busy(false))]);
    assert At(s0, trace, 4) == s4;
    assert At(s0, trace, 5) == s4;
    assert At(s0, trace, 6) == s4.(tasks := [waiting.(expired := true), Finished(Busy(false))]);
  }
}
