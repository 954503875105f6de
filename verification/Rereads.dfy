/** Reading a setting back two seconds after setting it (evsemaster/device.py). */
module Rereads {
  import opened Wrappers
  import opened Packet

  const SETTING_REREAD_DELAY := 2_000

  datatype Mode = Armed | Stopped | Fired

  /** A timer of the event loop, which will send a get of the setting when due. */
  datatype Timer = Timer(cmd: Command, due: int, mode: Mode)

  /** All timers ever made, and which of them the device remembers for each setting. */
  datatype State = State(timers: seq<Timer>, rereads: map<Command, nat>)

  const NONE: State := State([], map[])

  datatype Event = Set(cmd: Command) | Fire(timer: nat) | Close

  datatype Stamped = Stamped(event: Event, at: int)

  function Cancel(timers: seq<Timer>, t: nat): seq<Timer>
  {
    if t < |timers| && timers[t].mode == Armed then timers[t := timers[t].(mode := Stopped)] else timers
  }

  /** `_reread_later`. */
  function RereadLater(s: State, cmd: Command, now: int): State
  {
    var timers := if cmd in s.rereads then Cancel(s.timers, s.rereads[cmd]) else s.timers;
    State(timers + [Timer(cmd, now + SETTING_REREAD_DELAY, Armed)], s.rereads[cmd := |s.timers|])
  }

  /** Whether a timer goes off when asked to at this time. */
  predicate GoesOff(s: State, t: nat, now: int)
  {
    t < |s.timers| && s.timers[t].mode == Armed && now >= s.timers[t].due
  }

  function FireTimer(s: State, t: nat, now: int): State
  {
    if GoesOff(s, t, now) then s.(timers := s.timers[t := s.timers[t].(mode := Fired)]) else s
  }

  /** The timers part of `close`: cancels every remembered timer. */
  function CancelAll(s: State): State
  {
    s.(timers := seq(|s.timers|, t requires 0 <= t < |s.timers| =>
         if t in s.rereads.Values && s.timers[t].mode == Armed then s.timers[t].(mode := Stopped) else s.timers[t]))
  }

  function Step(s: State, event: Event, now: int): State
  {
    match event
    case Set(cmd) => RereadLater(s, cmd, now)
    case Fire(t) => FireTimer(s, t, now)
    case Close => CancelAll(s)
  }

  function Run(trace: seq<Stamped>): State
  {
    if |trace| == 0 then NONE
    else
      var n := |trace| - 1;
      Step(Run(trace[..n]), trace[n].event, trace[n].at)
  }

  /** Step i set a setting, and neither another set of it nor a close followed. */
  ghost predicate LatestSet(trace: seq<Stamped>, cmd: Command, i: nat)
  {
    && i < |trace|
    && trace[i].event == Set(cmd)
    && forall j :: i < j < |trace| ==> trace[j].event != Set(cmd) && trace[j].event != Close
  }

  predicate Live(s: State, t: nat)
  {
    t < |s.timers| && s.timers[t].mode == Armed
  }

  /** A live timer is the one remembered for its setting, and belongs to its latest set. */
  ghost predicate LiveIsLatest(trace: seq<Stamped>, s: State, t: nat)
  {
    Live(s, t) ==>
      && s.timers[t].cmd in s.rereads
      && s.rereads[s.timers[t].cmd] == t
      && exists i: nat :: LatestSet(trace, s.timers[t].cmd, i)
                          && s.timers[t].due == trace[i].at + SETTING_REREAD_DELAY
  }

  /** The latest set of a setting has its timer: still live, or gone off. */
  ghost predicate LatestHasTimer(trace: seq<Stamped>, s: State, cmd: Command, i: nat)
  {
    LatestSet(trace, cmd, i) ==>
      && cmd in s.rereads && s.rereads[cmd] < |s.timers|
      && var timer := s.timers[s.rereads[cmd]];
         timer.cmd == cmd && timer.due == trace[i].at + SETTING_REREAD_DELAY && timer.mode != Stopped
  }

  /** Each setting remembers a timer of its own. */
  predicate Remembers(s: State)
  {
    forall cmd :: cmd in s.rereads ==> s.rereads[cmd] < |s.timers| && s.timers[s.rereads[cmd]].cmd == cmd
  }

  ghost predicate Coalesced(trace: seq<Stamped>, s: State)
  {
    && Remembers(s)
    && (forall t: nat :: LiveIsLatest(trace, s, t))
    && (forall cmd, i: nat :: LatestHasTimer(trace, s, cmd, i))
  }

  lemma LatestSetLast(trace: seq<Stamped>, cmd: Command, i: nat)
    requires |trace| > 0
    ensures var n := |trace| - 1;
            LatestSet(trace, cmd, i) <==>
              if i == n then trace[n].event == Set(cmd)
              else LatestSet(trace[..n], cmd, i) && trace[n].event != Set(cmd) && trace[n].event != Close
  {
    var n := |trace| - 1;
    if i < n && LatestSet(trace, cmd, i) {
      assert forall j :: i < j < n ==> trace[..n][j] == trace[j];
    }
  }

  lemma LiveKept(trace: seq<Stamped>, s: State, t: nat)
    requires |trace| > 0 && LiveIsLatest(trace[..|trace| - 1], s, t) && Live(s, t)
    requires var event := trace[|trace| - 1].event; event != Set(s.timers[t].cmd) && event != Close
    ensures LiveIsLatest(trace, s, t)
  {
    var front, cmd := trace[..|trace| - 1], s.timers[t].cmd;
    var i: nat :| LatestSet(front, cmd, i) && s.timers[t].due == front[i].at + SETTING_REREAD_DELAY;
    LatestSetLast(trace, cmd, i);
  }

  /** What a step leaves live was live before, unless the step set it, and is remembered as before. */
  lemma StillLive(s: State, event: Event, now: int, t: nat)
    requires Remembers(s) && t < |s.timers| && Live(Step(s, event, now), t)
    ensures var s' := Step(s, event, now);
            && Live(s, t) && s'.timers[t] == s.timers[t]
            && var cmd := s.timers[t].cmd;
               (cmd in s.rereads && s.rereads[cmd] == t ==>
                  event != Set(cmd) && event != Close && cmd in s'.rereads && s'.rereads[cmd] == t)
  {
  }

  lemma LiveStep(trace: seq<Stamped>, s: State, t: nat)
    requires |trace| > 0 && Coalesced(trace[..|trace| - 1], s)
    ensures LiveIsLatest(trace, Step(s, trace[|trace| - 1].event, trace[|trace| - 1].at), t)
  {
    var n := |trace| - 1;
    var last := trace[n];
    if Live(Step(s, last.event, last.at), t) {
      if t < |s.timers| {
        StillLive(s, last.event, last.at, t);
        assert LiveIsLatest(trace[..n], s, t);
        LiveKept(trace, s, t);
      } else {
        LatestSetLast(trace, last.event.cmd, n);
      }
    }
  }

  lemma LatestStep(trace: seq<Stamped>, s: State, cmd: Command, i: nat)
    requires |trace| > 0 && Coalesced(trace[..|trace| - 1], s)
    ensures LatestHasTimer(trace, Step(s, trace[|trace| - 1].event, trace[|trace| - 1].at), cmd, i)
  {
    var n := |trace| - 1;
    LatestSetLast(trace, cmd, i);
    if LatestSet(trace, cmd, i) && i < n {
      assert LatestHasTimer(trace[..n], s, cmd, i);
    }
  }

  lemma RemembersStep(s: State, event: Event, now: int)
    requires Remembers(s)
    ensures Remembers(Step(s, event, now))
  {
  }

  lemma CoalescedStep(trace: seq<Stamped>, s: State)
    requires |trace| > 0 && Coalesced(trace[..|trace| - 1], s)
    ensures Coalesced(trace, Step(s, trace[|trace| - 1].event, trace[|trace| - 1].at))
  {
    var s' := Step(s, trace[|trace| - 1].event, trace[|trace| - 1].at);
    RemembersStep(s, trace[|trace| - 1].event, trace[|trace| - 1].at);
    forall t: nat
      ensures LiveIsLatest(trace, s', t)
    {
      LiveStep(trace, s, t);
    }
    forall cmd, i: nat
      ensures LatestHasTimer(trace, s', cmd, i)
    {
      LatestStep(trace, s, cmd, i);
    }
  }

  /** Re-read coalescing over every trace of sets, firings and closes: a live timer is due 2 s after
      the latest set of its setting, and the latest set has a timer that is live or has gone off. */
  lemma {:induction false} RereadsCoalesce(trace: seq<Stamped>)
    ensures Coalesced(trace, Run(trace))
  {
    if |trace| == 0 {
    } else {
      RereadsCoalesce(trace[..|trace| - 1]);
      CoalescedStep(trace, Run(trace[..|trace| - 1]));
    }
  }

  /** Each setting has at most one live timer, and after a close there is none until another set. */
  lemma OneLiveTimer(trace: seq<Stamped>)
    ensures var s := Run(trace);
            && (forall t: nat, u: nat :: Live(s, t) && Live(s, u) && s.timers[t].cmd == s.timers[u].cmd ==> t == u)
            && (|trace| > 0 && trace[|trace| - 1].event == Close ==>
                  forall t: nat :: !Live(s, t))
  {
    RereadsCoalesce(trace);
    var s := Run(trace);
    forall t: nat | Live(s, t)
      ensures s.timers[t].cmd in s.rereads && s.rereads[s.timers[t].cmd] == t
      ensures trace[|trace| - 1].event != Close
    {
      assert LiveIsLatest(trace, s, t);
      var i: nat :| LatestSet(trace, s.timers[t].cmd, i);
      assert i == |trace| - 1 || trace[|trace| - 1].event != Close;
    }
  }

  /** Step k sends the get of a setting. */
  predicate GetsAt(trace: seq<Stamped>, k: nat, cmd: Command)
  {
    && k < |trace|
    && trace[k].event.Fire?
    && GoesOff(Run(trace[..k]), trace[k].event.timer, trace[k].at)
    && Run(trace[..k]).timers[trace[k].event.timer].cmd == cmd
  }

  /** Every get sent belongs to the latest set of its setting, at least 2 s after it. */
  lemma GetBelongsToLatestSet(trace: seq<Stamped>, k: nat, cmd: Command)
    requires GetsAt(trace, k, cmd)
    ensures exists i: nat :: LatestSet(trace[..k], cmd, i) && trace[k].at >= trace[i].at + SETTING_REREAD_DELAY
  {
    RereadsCoalesce(trace[..k]);
    var s, t := Run(trace[..k]), trace[k].event.timer;
    assert LiveIsLatest(trace[..k], s, t);
    var i: nat :| LatestSet(trace[..k], cmd, i) && s.timers[t].due == trace[..k][i].at + SETTING_REREAD_DELAY;
    assert trace[i].at == trace[..k][i].at;
  }

  /** The remembered timer of a setting is not live. */
  predicate Spent(s: State, cmd: Command)
  {
    cmd in s.rereads && s.rereads[cmd] < |s.timers| && s.timers[s.rereads[cmd]].mode != Armed
  }

  lemma SpentStep(s: State, event: Event, now: int, cmd: Command)
    requires Remembers(s) && Spent(s, cmd) && event != Set(cmd)
    ensures Spent(Step(s, event, now), cmd)
  {
  }

  lemma RunNext(trace: seq<Stamped>, k: nat)
    requires k < |trace|
    ensures Run(trace[..k + 1]) == Step(Run(trace[..k]), trace[k].event, trace[k].at)
  {
    assert trace[..k + 1][..k] == trace[..k];
  }

  lemma SpentByGet(trace: seq<Stamped>, j: nat, cmd: Command)
    requires GetsAt(trace, j, cmd)
    ensures Spent(Run(trace[..j + 1]), cmd)
  {
    RereadsCoalesce(trace[..j]);
    assert LiveIsLatest(trace[..j], Run(trace[..j]), trace[j].event.timer);
    RunNext(trace, j);
  }

  lemma RemembersRun(trace: seq<Stamped>)
    ensures Remembers(Run(trace))
  {
    RereadsCoalesce(trace);
  }

  lemma {:induction false} StaysSpent(trace: seq<Stamped>, j: nat, k: nat, cmd: Command)
    requires j < k <= |trace| && Spent(Run(trace[..j + 1]), cmd)
    requires forall m :: j < m < k ==> trace[m].event != Set(cmd)
    ensures Spent(Run(trace[..k]), cmd)
  {
    if j == k - 1 {
    } else {
      StaysSpent(trace, j, k - 1, cmd);
      RemembersRun(trace[..k - 1]);
      RunNext(trace, k - 1);
      SpentStep(Run(trace[..k - 1]), trace[k - 1].event, trace[k - 1].at, cmd);
    }
  }

  /** Between two gets of one setting lies a set of it: no set is read back twice. */
  lemma OneGetPerSet(trace: seq<Stamped>, j: nat, k: nat, cmd: Command)
    requires j < k && GetsAt(trace, j, cmd) && GetsAt(trace, k, cmd)
    ensures exists m :: j < m < k && trace[m].event == Set(cmd)
  {
    RereadsCoalesce(trace[..k]);
    assert LiveIsLatest(trace[..k], Run(trace[..k]), trace[k].event.timer);
    assert !Spent(Run(trace[..k]), cmd);
    if forall m :: j < m < k ==> trace[m].event != Set(cmd) {
      SpentByGet(trace, j, cmd);
      StaysSpent(trace, j, k, cmd);
      assert false;
    }
  }
}
