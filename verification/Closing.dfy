/** What a close stops (evsemaster/device.py): everything a device can still do after it without the application, which
    is the logins, re-read timers, history reads and queued packet handlers that were there at the close. */
module Closing {
  import opened Wrappers
  import opened Packet
  import ByteStrings
  import History
  import S = Session
  import Logins
  import R = Rereads
  import Reads
  import D = Device

  /** A device and the packets whose handlers are queued for it. */
  datatype DeviceState = DeviceState(session: S.State, settings: R.State, reading: Reads.State, queue: seq<DataPacket>)

  /** What can happen to a closed device by itself. */
  datatype Work =
    | Start(task: nat)    // a login made by an announcement runs for the first time
    | Expire(task: nat)   // the timer of a waiting login fires
    | Resume(task: nat)   // a waiting login runs on
    | Fire(timer: nat)    // a re-read timer goes off
    | Wake                // the history read runs on
    | Enter               // a read that waited for the lock takes it
    | Handle              // the oldest queued handler runs

  datatype Planned = Planned(work: Work, at: int)

  /** The login event a piece of work is. */
  function LoginEvent(work: Work): Option<S.Event>
  {
    match work
    case Start(t) => Some(S.Start(t))
    case Expire(t) => Some(S.Expire(t))
    case Resume(t) => Some(S.Resume(t))
    case _ => None
  }

  function Step(d: DeviceState, step: Planned): DeviceState
  {
    match step.work
    case Fire(t) => d.(settings := R.FireTimer(d.settings, t, step.at))
    case Wake => d.(reading := Reads.Step(d.reading, Reads.Wake))
    case Enter => d.(reading := Reads.Step(d.reading, Reads.Enter))
    case Handle =>
      if |d.queue| == 0 then d
      else d.(session := S.HandlePacket(d.session, d.queue[0].command, step.at),
              reading := Reads.Step(d.reading, Reads.Handle(History.Arrival(d.queue[0], step.at))),
              queue := d.queue[1..])
    case work => d.(session := S.Step(d.session, LoginEvent(work).value, step.at))
  }

  /** The step sends something to the charger. */
  predicate Sends(d: DeviceState, step: Planned)
  {
    match step.work
    case Fire(t) => R.GoesOff(d.settings, t, step.at)
    case Wake => |Reads.Step(d.reading, Reads.Wake).asked| > |d.reading.asked|
    case Enter => |Reads.Step(d.reading, Reads.Enter).asked| > |d.reading.asked|
    case Handle => |d.queue| > 0 && D.Reply(d.queue[0]).Some?
    case work =>
      S.SendsLoginRequest(d.session, LoginEvent(work).value) || D.LogsIn(d.session, LoginEvent(work).value, step.at)
  }

  /** Some step of the trace sends something. */
  predicate SendsIn(d: DeviceState, trace: seq<Planned>)
    decreases |trace|
  {
    |trace| > 0 && (Sends(d, trace[0]) || SendsIn(Step(d, trace[0]), trace[1..]))
  }

  /** Steps in order of time, none before `now`. */
  predicate Follows(trace: seq<Planned>, now: int)
    decreases |trace|
  {
    |trace| > 0 ==> now <= trace[0].at && Follows(trace[1..], trace[0].at)
  }

  /** Over some continuation without the application, in order of time, the device sends something. */
  ghost predicate GoesOn(d: DeviceState, now: int)
  {
    exists trace :: Follows(trace, now) && SendsIn(d, trace)
  }

  lemma GoesOnFirst(d: DeviceState, step: Planned, now: int)
    requires now <= step.at && (Sends(d, step) || GoesOn(Step(d, step), step.at))
    ensures GoesOn(d, now)
  {
    if Sends(d, step) {
      assert SendsIn(d, [step]) && Follows([step], now);
    } else {
      var rest :| Follows(rest, step.at) && SendsIn(Step(d, step), rest);
      var trace := [step] + rest;
      assert trace[1..] == rest;
      assert SendsIn(d, trace) && Follows(trace, now);
    }
  }

  /** The close of a device. */
  function Close(d: DeviceState): DeviceState
  {
    d.(session := S.CloseDevice(d.session), settings := R.CancelAll(d.settings))
  }

  // What rouses a closed device

  /** The login can still send a request. */
  predicate CanAsk(s: S.State, t: nat)
  {
    && t < |s.tasks|
    && match s.tasks[t]
       case Created => true
       case Waiting(attempt, _, _, cancelled) => !cancelled && attempt < S.LOGIN_ATTEMPTS
       case Finished(_) => false
  }

  /** Handling the packet answers it, or makes a login. */
  predicate Rouses(hasPassword: bool, packet: DataPacket)
  {
    D.Reply(packet).Some? || (packet.command == LOGIN_EVENT && hasPassword)
  }

  /** The capacity the packets resolve a future with. */
  function FirstCapacity(queue: seq<DataPacket>): Option<nat>
    decreases |queue|
  {
    if |queue| == 0 then None
    else match D.CountAfter(Some(None), queue[0])
      case Some(Some(capacity)) => Some(capacity)
      case _ => FirstCapacity(queue[1..])
  }

  /** The pass leaves something to ask for. */
  predicate AsksAgain(s: Reads.State, missing: seq<nat>, pass: nat)
  {
    pass < History.HISTORY_PASSES && |History.Unanswered(missing, Reads.Gathered(s))| > 0
  }

  /** A read still has something to ask. */
  predicate ReadCanAsk(s: Reads.State, queue: seq<DataPacket>)
  {
    || s.waiting > 0
    || (s.reader.Some?
        && match s.reader.value
           case Counting(tries) =>
             var capacity := if s.count.Some? && s.count.value.Some? then s.count.value else FirstCapacity(queue);
             || (capacity.Some? && capacity.value > 0)
             || (tries < History.HISTORY_PASSES && !(s.count.Some? && s.count.value.Some?))
           case Asking(missing, next, pass) => next < |missing| || AsksAgain(s, missing, pass)
           case Settling(missing, pass) => AsksAgain(s, missing, pass))
  }

  // Nothing is sent

  /** Nothing the device can do by itself sends anything. */
  ghost predicate Quiet(d: DeviceState)
  {
    && !d.session.authenticated
    && (forall t: nat :: !CanAsk(d.session, t))
    && (forall t: nat :: !R.Live(d.settings, t))
    && (forall packet :: packet in d.queue ==> !Rouses(d.session.hasPassword, packet))
    && Reads.Locked(d.reading) && !ReadCanAsk(d.reading, d.queue)
  }

  lemma QuietLogin(s: S.State, event: S.Event, now: int)
    requires !s.authenticated && forall t: nat :: !CanAsk(s, t)
    requires event.Start? || event.Expire? || event.Resume?
    ensures var s' := S.Step(s, event, now);
            && !s'.authenticated && s'.hasPassword == s.hasPassword && forall t: nat :: !CanAsk(s', t)
    ensures !S.SendsLoginRequest(s, event) && !D.LogsIn(s, event, now)
  {
    var s' := S.Step(s, event, now);
    assert !CanAsk(s, event.task);
    forall t: nat
      ensures !CanAsk(s', t)
    {
      assert !CanAsk(s, t);
    }
  }

  lemma QuietPacket(s: S.State, packet: DataPacket, now: int)
    requires !s.authenticated && (forall t: nat :: !CanAsk(s, t)) && !Rouses(s.hasPassword, packet)
    ensures var s' := S.HandlePacket(s, packet.command, now);
            && !s'.authenticated && s'.hasPassword == s.hasPassword && s'.tasks == s.tasks
            && forall t: nat :: !CanAsk(s', t)
  {
    var s' := S.HandlePacket(s, packet.command, now);
    assert packet.command != LOGIN_SUCCESS_EVENT;
    forall t: nat
      ensures !CanAsk(s', t)
    {
      assert !CanAsk(s, t);
    }
  }

  lemma UnansweredStays(missing: seq<nat>, slots: History.Slots, slots': History.Slots)
    requires slots.Keys <= slots'.Keys && |History.Unanswered(missing, slots)| == 0
    ensures |History.Unanswered(missing, slots')| == 0
  {
    History.UnansweredAgain(missing, slots, slots');
    assert History.Unanswered(missing, slots) == [];
  }

  lemma QuietReadHandles(s: Reads.State, queue: seq<DataPacket>, at: int)
    requires Reads.Locked(s) && |queue| > 0 && !ReadCanAsk(s, queue)
    ensures !ReadCanAsk(Reads.Step(s, Reads.Handle(History.Arrival(queue[0], at))), queue[1..])
  {
    var s' := Reads.Step(s, Reads.Handle(History.Arrival(queue[0], at)));
    if s.slots.Some? {
      assert s.slots.value.Keys <= s'.slots.value.Keys;
      match s.reader.value
      case Counting(_) =>
      case Asking(missing, _, pass) =>
        if pass < History.HISTORY_PASSES {
          UnansweredStays(missing, Reads.Gathered(s), Reads.Gathered(s'));
        }
      case Settling(missing, pass) =>
        if pass < History.HISTORY_PASSES {
          UnansweredStays(missing, Reads.Gathered(s), Reads.Gathered(s'));
        }
    }
  }

  lemma QuietReadWakes(s: Reads.State, queue: seq<DataPacket>, event: Reads.Event)
    requires Reads.Locked(s) && !ReadCanAsk(s, queue) && (event.Wake? || event.Enter?)
    ensures !ReadCanAsk(Reads.Step(s, event), queue) && Reads.Step(s, event).asked == s.asked
  {
  }

  lemma QuietStep(d: DeviceState, step: Planned)
    requires Quiet(d)
    ensures Quiet(Step(d, step)) && !Sends(d, step)
  {
    match step.work
    case Fire(t) => assert !R.Live(d.settings, t);
    case Wake =>
      Reads.LockedStep(d.reading, Reads.Wake);
      QuietReadWakes(d.reading, d.queue, Reads.Wake);
    case Enter =>
      Reads.LockedStep(d.reading, Reads.Enter);
      QuietReadWakes(d.reading, d.queue, Reads.Enter);
    case Handle =>
      if |d.queue| > 0 {
        Reads.LockedStep(d.reading, Reads.Handle(History.Arrival(d.queue[0], step.at)));
        QuietReadHandles(d.reading, d.queue, step.at);
        QuietPacket(d.session, d.queue[0], step.at);
      }
    case work => QuietLogin(d.session, LoginEvent(work).value, step.at);
  }

  lemma {:induction false} QuietRun(d: DeviceState, trace: seq<Planned>)
    requires Quiet(d)
    ensures !SendsIn(d, trace)
    decreases |trace|
  {
    if |trace| == 0 {
    } else {
      QuietStep(d, trace[0]);
      QuietRun(Step(d, trace[0]), trace[1..]);
    }
  }

  // Something is sent

  function Later(a: int, b: int): (later: int)
    ensures later >= a && later >= b
  {
    if a < b then b else a
  }

  /** A waiting login with a request left asks again when its timer fires. */
  lemma WaitingAsks(d: DeviceState, t: nat, now: int)
    requires S.IsWaiting(d.session, t) && CanAsk(d.session, t)
    ensures GoesOn(d, now)
  {
    var at := Later(now, d.session.tasks[t].deadline);
    var expired := Step(d, Planned(Expire(t), at));
    GoesOnFirst(expired, Planned(Resume(t), at), at);
    GoesOnFirst(d, Planned(Expire(t), at), now);
  }

  /** The session once a waiting login that cannot ask any more is through. */
  function Freed(s: S.State, w: nat, at: int): S.State
  {
    S.Step(S.Step(s, S.Expire(w), at), S.Resume(w), at)
  }

  lemma FreesLock(s: S.State, w: nat, at: int)
    requires S.IsWaiting(s, w) && !CanAsk(s, w) && at >= s.tasks[w].deadline
    ensures var s' := Freed(s, w, at);
            && !s'.locked && s'.authenticated == s.authenticated && s'.hasPassword == s.hasPassword
            && |s'.tasks| == |s.tasks| && forall t: nat :: t < |s.tasks| && t != w ==> s'.tasks[t] == s.tasks[t]
  {
  }

  lemma GoesOnFreed(d: DeviceState, w: nat, at: int, now: int)
    requires now <= at && GoesOn(d.(session := Freed(d.session, w, at)), at)
    ensures GoesOn(d, now)
  {
    GoesOnFirst(Step(d, Planned(Expire(w), at)), Planned(Resume(w), at), at);
    GoesOnFirst(d, Planned(Expire(w), at), now);
  }

  /** A login that can ask does, once the lock is free. */
  lemma LoginAsks(d: DeviceState, t: nat, now: int)
    requires S.Exclusive(d.session) && CanAsk(d.session, t)
    ensures GoesOn(d, now)
  {
    if S.IsWaiting(d.session, t) {
      WaitingAsks(d, t, now);
    } else if !d.session.locked {
      GoesOnFirst(d, Planned(Start(t), now), now);
    } else {
      var w: nat :| S.IsWaiting(d.session, w);
      if CanAsk(d.session, w) {
        WaitingAsks(d, w, now);
      } else {
        var at := Later(now, d.session.tasks[w].deadline);
        FreesLock(d.session, w, at);
        GoesOnFirst(d.(session := Freed(d.session, w, at)), Planned(Start(t), at), at);
        GoesOnFreed(d, w, at, now);
      }
    }
  }

  /** An announcement handled late enough makes a login, which asks. */
  lemma AnnouncementAsks(d: DeviceState, now: int)
    requires !d.session.locked && !d.session.authenticated && d.session.hasPassword
    requires |d.queue| > 0 && d.queue[0].command == LOGIN_EVENT
    ensures GoesOn(d, now)
  {
    var last := d.session.lastLoginAttempt;
    var at := if last.Some? then Later(now, last.value + S.LOGIN_COOLDOWN) else now;
    var made := Step(d, Planned(Handle, at));
    GoesOnFirst(made, Planned(Start(|d.session.tasks|), at), at);
    GoesOnFirst(d, Planned(Handle, at), now);
  }

  /** With the lock free, a queue with a rousing packet rouses the device. */
  lemma {:induction false} QueueRouses(d: DeviceState, now: int, packet: DataPacket)
    requires !d.session.locked && !d.session.authenticated
    requires packet in d.queue && Rouses(d.session.hasPassword, packet)
    ensures GoesOn(d, now)
    decreases |d.queue|
  {
    var first := d.queue[0];
    if D.Reply(first).Some? {
      GoesOnFirst(d, Planned(Handle, now), now);
    } else if first.command == LOGIN_EVENT && d.session.hasPassword {
      AnnouncementAsks(d, now);
    } else {
      assert first.command != LOGIN_SUCCESS_EVENT;
      QueueRouses(Step(d, Planned(Handle, now)), now, packet);
      GoesOnFirst(d, Planned(Handle, now), now);
    }
  }

  lemma PacketRouses(d: DeviceState, now: int, packet: DataPacket)
    requires S.Exclusive(d.session) && !d.session.authenticated
    requires packet in d.queue && Rouses(d.session.hasPassword, packet)
    ensures GoesOn(d, now)
  {
    if !d.session.locked {
      QueueRouses(d, now, packet);
    } else {
      var w: nat :| S.IsWaiting(d.session, w);
      if CanAsk(d.session, w) {
        WaitingAsks(d, w, now);
      } else {
        var at := Later(now, d.session.tasks[w].deadline);
        FreesLock(d.session, w, at);
        QueueRouses(d.(session := Freed(d.session, w, at)), at, packet);
        GoesOnFreed(d, w, at, now);
      }
    }
  }

  /** The end of a read lets the next one in, which asks. */
  lemma NextReadAsks(d: DeviceState, now: int)
    requires d.reading.reader.None? && d.reading.waiting > 0
    ensures GoesOn(d, now)
  {
    GoesOnFirst(d, Planned(Enter, now), now);
  }

  lemma SettlingAsks(d: DeviceState, now: int)
    requires d.reading.reader.Some? && d.reading.reader.value.Settling?
    requires d.reading.waiting > 0
             || AsksAgain(d.reading, d.reading.reader.value.missing, d.reading.reader.value.pass)
    ensures GoesOn(d, now)
  {
    if !Sends(d, Planned(Wake, now)) {
      NextReadAsks(Step(d, Planned(Wake, now)), now);
    }
    GoesOnFirst(d, Planned(Wake, now), now);
  }

  lemma AskingAsks(d: DeviceState, now: int)
    requires d.reading.reader.Some? && d.reading.reader.value.Asking?
    requires var progress := d.reading.reader.value;
             d.reading.waiting > 0 || progress.next < |progress.missing|
             || AsksAgain(d.reading, progress.missing, progress.pass)
    ensures GoesOn(d, now)
  {
    if !Sends(d, Planned(Wake, now)) {
      SettlingAsks(Step(d, Planned(Wake, now)), now);
    }
    GoesOnFirst(d, Planned(Wake, now), now);
  }

  lemma FoundAsks(d: DeviceState, now: int)
    requires d.reading.reader.Some? && d.reading.reader.value.Counting?
    requires d.reading.count.Some? && d.reading.count.value.Some?
    requires d.reading.waiting > 0 || d.reading.count.value.value > 0
    ensures GoesOn(d, now)
  {
    if !Sends(d, Planned(Wake, now)) {
      SettlingAsks(Step(d, Planned(Wake, now)), now);
    }
    GoesOnFirst(d, Planned(Wake, now), now);
  }

  /** A queued count resolves the capacity, and the read asks for its slots. */
  lemma {:induction false} CountAsks(d: DeviceState, now: int)
    requires d.reading.reader.Some? && d.reading.reader.value.Counting? && d.reading.count == Some(None)
    requires FirstCapacity(d.queue).Some? && FirstCapacity(d.queue).value > 0
    ensures GoesOn(d, now)
    decreases |d.queue|
  {
    var next := Step(d, Planned(Handle, now));
    if next.reading.count == Some(None) {
      CountAsks(next, now);
    } else {
      FoundAsks(next, now);
    }
    GoesOnFirst(d, Planned(Handle, now), now);
  }

  lemma ReadAsks(d: DeviceState, now: int)
    requires Reads.Locked(d.reading) && ReadCanAsk(d.reading, d.queue)
    ensures GoesOn(d, now)
  {
    if d.reading.reader.None? {
      NextReadAsks(d, now);
    } else {
      match d.reading.reader.value
      case Asking(_, _, _) => AskingAsks(d, now);
      case Settling(_, _) => SettlingAsks(d, now);
      case Counting(tries) =>
        if d.reading.count.value.Some? {
          FoundAsks(d, now);
        } else if tries >= History.HISTORY_PASSES && d.reading.waiting == 0 {
          CountAsks(d, now);
        } else {
          if !Sends(d, Planned(Wake, now)) {
            NextReadAsks(Step(d, Planned(Wake, now)), now);
          }
          GoesOnFirst(d, Planned(Wake, now), now);
        }
    }
  }

  // The close

  lemma StepKeepsPassword(s: S.State, step: S.Timed)
    ensures S.Step(s, step.event, step.at).hasPassword == s.hasPassword
  {
  }

  lemma {:induction false} HasPassword(hasPassword: bool, trace: seq<S.Timed>, n: nat)
    requires n <= |trace|
    ensures S.At(S.Init(hasPassword), trace, n).hasPassword == hasPassword
  {
    if n == 0 {
    } else {
      HasPassword(hasPassword, trace, n - 1);
      StepKeepsPassword(S.At(S.Init(hasPassword), trace, n - 1), trace[n - 1]);
    }
  }

  /** A login that can ask and that the close does not cancel. */
  ghost predicate LeavesLogin(s: S.State)
  {
    exists t: nat :: CanAsk(s, t) && s.autoTask != Some(t)
  }

  lemma CloseLeavesLogins(s: S.State, t: nat)
    requires S.Exclusive(s)
    ensures CanAsk(S.CloseDevice(s), t) <==> CanAsk(s, t) && s.autoTask != Some(t)
  {
  }

  lemma CloseStopsTimers(trace: seq<R.Stamped>, t: nat)
    ensures !R.Live(R.CancelAll(R.Run(trace)), t)
  {
    var all := trace + [R.Stamped(R.Close, 0)];
    assert all[..|trace|] == trace;
    assert R.Run(all) == R.CancelAll(R.Run(trace));
    R.OneLiveTimer(all);
  }

  /** What a close stops: whatever a device, its timers and its reads went through before, after the close something is
      still sent over some continuation without the application exactly if a queued handler answers its packet or makes
      a login, if a login that the device does not remember can ask, or if a history read can. */
  lemma CloseStopsExactly(hasPassword: bool, trace: seq<S.Timed>, n: nat, sets: seq<R.Stamped>,
                          calls: seq<Reads.Event>, m: nat, queue: seq<DataPacket>, now: int)
    requires n <= |trace| && m <= |calls|
    ensures var s := S.At(S.Init(hasPassword), trace, n);
            var reading := Reads.At(Reads.Idle(), calls, m);
            GoesOn(Close(DeviceState(s, R.Run(sets), reading, queue)), now)
            <==> || (exists packet :: packet in queue && Rouses(hasPassword, packet))
                 || LeavesLogin(s)
                 || ReadCanAsk(reading, queue)
  {
    var s := S.At(S.Init(hasPassword), trace, n);
    var reading := Reads.At(Reads.Idle(), calls, m);
    var d := Close(DeviceState(s, R.Run(sets), reading, queue));
    S.LoginMutualExclusion(hasPassword, trace, n);
    S.ExclusiveClose(s);
    HasPassword(hasPassword, trace, n);
    Reads.ReadsExclude(calls, m);
    forall t: nat
      ensures CanAsk(d.session, t) <==> CanAsk(s, t) && s.autoTask != Some(t)
      ensures !R.Live(d.settings, t)
    {
      CloseLeavesLogins(s, t);
      CloseStopsTimers(sets, t);
    }
    if packet :| packet in queue && Rouses(hasPassword, packet) {
      PacketRouses(d, now, packet);
    } else if LeavesLogin(s) {
      var t: nat :| CanAsk(s, t) && s.autoTask != Some(t);
      LoginAsks(d, t, now);
    } else if ReadCanAsk(reading, queue) {
      ReadAsks(d, now);
    } else {
      assert Quiet(d);
      forall more
        ensures !SendsIn(d, more)
      {
        QuietRun(d, more);
      }
    }
  }

  /** The device of a charger with no login, no re-read and no history read, closed with one handler queued. */
  function ClosedOver(packet: DataPacket): DeviceState
  {
    Close(DeviceState(S.Init(true), R.NONE, Reads.Idle(), [packet]))
  }

  /** A queued announcement logs a closed device in again, with its password. */
  lemma QueuedAnnouncementAsks(serial: string, info: seq<ByteStrings.byte>)
    ensures var d := ClosedOver(DataPacket(LOGIN_EVENT, serial, info));
            |d.session.tasks| == 0 && SendsIn(d, [Planned(Handle, 0), Planned(Start(0), 0)])
  {
    var d := ClosedOver(DataPacket(LOGIN_EVENT, serial, info));
    var made := Step(d, Planned(Handle, 0));
    assert made.session.tasks == [S.Created] && Sends(made, Planned(Start(0), 0));
    assert [Planned(Handle, 0), Planned(Start(0), 0)][1..] == [Planned(Start(0), 0)];
    assert SendsIn(made, [Planned(Start(0), 0)]);
  }

  /** A queued heading is answered, and a queued success is answered and authorises the closed device again. */
  lemma QueuedHandlersAnswer(serial: string, info: seq<ByteStrings.byte>)
    ensures Sends(ClosedOver(DataPacket(HEADING_EVENT, serial, [])), Planned(Handle, 0))
    ensures var d := ClosedOver(DataPacket(LOGIN_SUCCESS_EVENT, serial, info));
            Sends(d, Planned(Handle, 0)) && Step(d, Planned(Handle, 0)).session.authenticated
  {
  }

  /** A history read under way goes on asking after the close. */
  lemma ReadGoesOn()
    ensures var calls := [Reads.Call(true)];
            var d := Close(DeviceState(S.Init(true), R.NONE, Reads.At(Reads.Idle(), calls, 1), []));
            Sends(d, Planned(Wake, 0))
  {
    var calls := [Reads.Call(true)];
    assert Reads.At(Reads.Idle(), calls, 1) == Reads.Begin(Reads.Idle());
  }
}
