/** The event loop's ready queue: what is made ready first runs first (asyncio, as evsemaster/device.py relies on
    it). It is why a login that was made runs before one that waits is resumed. */
module Loop {
  import opened Wrappers
  import opened Packet
  import opened Session
  import opened Relogin
  import Logins

  /** The session and the steps that are ready to run, oldest first. */
  datatype Loop = Loop(session: State, ready: seq<Event>)

  datatype Move =
    | Adds(event: Event)  // a packet, a timer, the application or a future makes a step ready
    | Runs(at: int)       // the oldest ready step runs

  function Begun(hasPassword: bool): Loop
  {
    Loop(Init(hasPassword), [])
  }

  /** Only a login made by an announcement starts by itself, and only a waiting one is resumed. */
  predicate CanAdd(s: State, event: Event)
  {
    !event.Start? && (event.Resume? ==> IsWaiting(s, event.task))
  }

  /** What running a step makes ready: the start of a login it made. */
  function Makes(s: State, event: Event, at: int): seq<Event>
  {
    if event.Handle? && |Step(s, event, at).tasks| > |s.tasks| then [Event.Start(|s.tasks|)] else []
  }

  function Next(l: Loop, move: Move): Loop
  {
    match move
    case Adds(event) => if CanAdd(l.session, event) then l.(ready := l.ready + [event]) else l
    case Runs(at) =>
      if |l.ready| == 0 then l
      else Loop(Step(l.session, l.ready[0], at), l.ready[1..] + Makes(l.session, l.ready[0], at))
  }

  function After(l: Loop, moves: seq<Move>, n: nat): Loop
    requires n <= |moves|
  {
    if n == 0 then l else Next(After(l, moves, n - 1), moves[n - 1])
  }

  function RanIn(l: Loop, move: Move): seq<Timed>
  {
    if move.Runs? && |l.ready| > 0 then [Timed(l.ready[0], move.at)] else []
  }

  /** The steps that ran. */
  function Ran(l: Loop, moves: seq<Move>, n: nat): seq<Timed>
    requires n <= |moves|
  {
    if n == 0 then [] else Ran(l, moves, n - 1) + RanIn(After(l, moves, n - 1), moves[n - 1])
  }

  // First in, first out

  /** Every login made is ready to start. */
  ghost predicate StartsReady(l: Loop)
  {
    forall t: nat :: IsCreated(l.session, t) ==> Event.Start(t) in l.ready
  }

  /** A login that has not run is not resumed. */
  predicate ResumesBegun(l: Loop)
  {
    forall i :: 0 <= i < |l.ready| && l.ready[i].Resume? ==>
      l.ready[i].task < |l.session.tasks| && !l.session.tasks[l.ready[i].task].Created?
  }

  /** No waiting login is resumed before the start of one that was made. */
  ghost predicate StartsFirst(l: Loop)
  {
    forall i, j :: 0 <= i < j < |l.ready| && l.ready[i].Resume? && l.ready[j].Start? ==>
      !IsWaiting(l.session, l.ready[i].task) || !IsCreated(l.session, l.ready[j].task)
  }

  ghost predicate Queued(l: Loop)
  {
    Exclusive(l.session) && StartsReady(l) && ResumesBegun(l) && StartsFirst(l)
  }

  lemma AddsQueued(l: Loop, event: Event)
    requires Queued(l) && CanAdd(l.session, event)
    ensures Queued(l.(ready := l.ready + [event]))
  {
  }

  /** What a step does to login t: it creates it only by making it, with the lock free, and begins it only if it was
      created or is new. */
  predicate Moves(s: State, event: Event, s': State, made: seq<Event>, t: nat)
  {
    && (t < |s.tasks| && IsCreated(s', t) ==> IsCreated(s, t))
    && (t < |s.tasks| && IsWaiting(s', t) ==> IsWaiting(s, t) || s.tasks[t].Created?)
    && (t < |s.tasks| && !s.tasks[t].Created? ==> t < |s'.tasks| && !s'.tasks[t].Created?)
    && (t >= |s.tasks| && IsCreated(s', t) ==>
          event.Handle? && t == |s.tasks| && made == [Event.Start(t)] && !s.locked)
    && (event == Event.Start(t) ==> !IsCreated(s', t))
  }

  lemma ResumeMoves(s: State, u: nat, at: int, t: nat)
    requires Exclusive(s)
    ensures Moves(s, Resume(u), Step(s, Resume(u), at), [], t)
  {
    if IsWaiting(s, u) {
      Logins.WakeKeeps(s, u, at, t);
    }
  }

  lemma HandleMoves(s: State, cmd: Command, at: int, t: nat)
    requires Exclusive(s)
    ensures Moves(s, Handle(cmd), Step(s, Handle(cmd), at), Makes(s, Handle(cmd), at), t)
  {
  }

  lemma BeginMoves(s: State, event: Event, at: int, t: nat)
    requires Exclusive(s) && (event.Login? || event.Start?)
    ensures Moves(s, event, Step(s, event, at), [], t)
  {
  }

  lemma StepMoves(s: State, event: Event, at: int, t: nat)
    requires Exclusive(s)
    ensures Moves(s, event, Step(s, event, at), Makes(s, event, at), t)
    ensures |s.tasks| <= |Step(s, event, at).tasks|
  {
    match event
    case Handle(cmd) => HandleMoves(s, cmd, at, t);
    case Login => BeginMoves(s, event, at, t);
    case Start(u) => BeginMoves(s, event, at, t);
    case Expire(u) =>
    case Resume(u) => ResumeMoves(s, u, at, t);
    case Cancel(u) =>
    case Close =>
  }

  lemma RunsStartsReady(l: Loop, at: int)
    requires Queued(l) && |l.ready| > 0
    ensures StartsReady(Next(l, Runs(at)))
  {
    var l' := Next(l, Runs(at));
    forall t: nat | IsCreated(l'.session, t)
      ensures Event.Start(t) in l'.ready
    {
      StepMoves(l.session, l.ready[0], at, t);
      if t < |l.session.tasks| {
        assert Event.Start(t) in l.ready && l.ready[0] != Event.Start(t);
        assert l.ready == [l.ready[0]] + l.ready[1..];
      }
    }
  }

  lemma RunsResumesBegun(l: Loop, at: int)
    requires Queued(l) && |l.ready| > 0
    ensures ResumesBegun(Next(l, Runs(at)))
  {
    var l' := Next(l, Runs(at));
    forall i | 0 <= i < |l'.ready| && l'.ready[i].Resume?
      ensures l'.ready[i].task < |l'.session.tasks| && !l'.session.tasks[l'.ready[i].task].Created?
    {
      assert l'.ready[i] == l.ready[i + 1];
      StepMoves(l.session, l.ready[0], at, l.ready[i + 1].task);
    }
  }

  lemma RunsStartsFirst(l: Loop, at: int)
    requires Queued(l) && |l.ready| > 0
    ensures StartsFirst(Next(l, Runs(at)))
  {
    var l' := Next(l, Runs(at));
    forall i, j | 0 <= i < j < |l'.ready| && l'.ready[i].Resume? && l'.ready[j].Start?
      ensures !IsWaiting(l'.session, l'.ready[i].task) || !IsCreated(l'.session, l'.ready[j].task)
    {
      var w, t := l'.ready[i].task, l'.ready[j].task;
      assert l'.ready[i] == l.ready[i + 1];
      StepMoves(l.session, l.ready[0], at, w);
      StepMoves(l.session, l.ready[0], at, t);
    }
  }

  lemma NextQueued(l: Loop, move: Move)
    requires Queued(l)
    ensures Queued(Next(l, move))
  {
    match move
    case Adds(event) =>
      if CanAdd(l.session, event) {
        AddsQueued(l, event);
      }
    case Runs(at) =>
      if |l.ready| > 0 {
        ExclusiveStep(l.session, l.ready[0], at);
        RunsStartsReady(l, at);
        RunsResumesBegun(l, at);
        RunsStartsFirst(l, at);
      }
  }

  /** The step that runs does not resume a login past one that was made. */
  lemma RunsInTurn(l: Loop)
    requires Queued(l) && |l.ready| > 0
    ensures !Overtakes(l.session, l.ready[0])
  {
    forall t: nat | IsCreated(l.session, t)
      ensures !l.ready[0].Resume? || !IsWaiting(l.session, l.ready[0].task)
    {
      var j :| 0 <= j < |l.ready| && l.ready[j] == Event.Start(t);
    }
  }

  lemma {:induction false} AtFront(s: State, trace: seq<Timed>, more: seq<Timed>, n: nat)
    requires n <= |trace|
    ensures At(s, trace + more, n) == At(s, trace, n)
  {
    if n == 0 {
    } else {
      AtFront(s, trace, more, n - 1);
    }
  }

  /** What ran, as a trace of the session, leads to this session, created logins first. */
  ghost predicate LeadsTo(s: State, trace: seq<Timed>, now: State)
  {
    At(s, trace, |trace|) == now && CreatedFirst(s, trace)
  }

  ghost predicate RunsTo(l: Loop, moves: seq<Move>, n: nat)
  {
    n <= |moves| && Queued(After(l, moves, n)) && LeadsTo(l.session, Ran(l, moves, n), After(l, moves, n).session)
  }

  lemma OneMoreRan(s: State, trace: seq<Timed>, last: Timed)
    requires CreatedFirst(s, trace) && !Overtakes(At(s, trace, |trace|), last.event)
    ensures CreatedFirst(s, trace + [last])
    ensures At(s, trace + [last], |trace| + 1) == Step(At(s, trace, |trace|), last.event, last.at)
  {
    AtFront(s, trace, [last], |trace|);
    forall i: nat
      ensures InTurn(s, trace + [last], i)
    {
      if i < |trace| {
        AtFront(s, trace, [last], i);
        assert InTurn(s, trace, i);
      }
    }
  }

  lemma LeadsOn(s: State, trace: seq<Timed>, l: Loop, move: Move)
    requires LeadsTo(s, trace, l.session) && Queued(l)
    ensures LeadsTo(s, trace + RanIn(l, move), Next(l, move).session)
  {
    if move.Runs? && |l.ready| > 0 {
      RunsInTurn(l);
      OneMoreRan(s, trace, Timed(l.ready[0], move.at));
    } else {
      assert trace + RanIn(l, move) == trace;
    }
  }

  lemma RunsToNext(l: Loop, moves: seq<Move>, m: nat, n: nat)
    requires n == m + 1 <= |moves| && RunsTo(l, moves, m)
    ensures RunsTo(l, moves, n)
  {
    NextQueued(After(l, moves, m), moves[m]);
    LeadsOn(l.session, Ran(l, moves, m), After(l, moves, m), moves[m]);
  }

  /** What a first-in first-out loop runs is a trace of the session in which created logins come first. */
  lemma {:induction false} LoopRuns(hasPassword: bool, moves: seq<Move>, n: nat)
    requires n <= |moves|
    ensures RunsTo(Begun(hasPassword), moves, n)
  {
    if n == 0 {
    } else {
      LoopRuns(hasPassword, moves, n - 1);
      RunsToNext(Begun(hasPassword), moves, n - 1, n);
    }
  }

  /** Logins apart, with nothing asked of the order but the loop's queue: whatever becomes ready and when, an automatic
      login begins no sooner than 15 s after any login before it. */
  lemma LoopLoginsApart(hasPassword: bool, moves: seq<Move>, i: nat, j: nat)
    requires var trace := Ran(Begun(hasPassword), moves, |moves|);
             && InOrder(trace) && i < j < |trace|
             && BeginsAt(Init(hasPassword), trace, i) && AutoBeginsAt(Init(hasPassword), trace, j)
    ensures var trace := Ran(Begun(hasPassword), moves, |moves|); trace[j].at - trace[i].at >= LOGIN_COOLDOWN
  {
    LoopRuns(hasPassword, moves, |moves|);
    LoginsApart(hasPassword, Ran(Begun(hasPassword), moves, |moves|), i, j);
  }
}
