/** Which weekly plans a client can show (evsemaster/device.py with evsemaster/testing.py): over a network that loses,
    repeats and reorders, a late copy of an older set can overwrite a newer one, but nothing is ever made up. */
module Plans {
  import opened Wrappers
  import opened ByteStrings
  import opened Packet
  import opened Protocol
  import opened Damage
  import opened Payloads
  import opened Network
  import Router
  import S = Session
  import D = Device
  import C = Charger

  // What the client set

  /** The step sends a set of the weekly plan with these slot bytes. */
  predicate Sets(step: Step, plan: bytes)
  {
    && step.ClientSends? && Fits(step.request)
    && step.request.cmd == WEEKLY_PLAN_REQUEST
    && Slice(step.request.payload, 0, 1) == [ACTION_SET] && Slice(step.request.payload, 1, WEEKLY_PLAN_SIZE) == plan
  }

  function SetBy(step: Step): set<bytes>
  {
    if step.ClientSends? && Sets(step, Slice(step.request.payload, 1, WEEKLY_PLAN_SIZE))
    then {Slice(step.request.payload, 1, WEEKLY_PLAN_SIZE)} else {}
  }

  /** The plan of a charger nobody set one for, and those set in the first n steps. */
  function PlansSet(trace: seq<Step>, n: nat): set<bytes>
    requires n <= |trace|
  {
    if n == 0 then {C.NoPlan(7)} else PlansSet(trace, n - 1) + SetBy(trace[n - 1])
  }

  lemma {:induction false} PlansSetMeaning(trace: seq<Step>, n: nat, plan: bytes)
    requires n <= |trace|
    ensures plan in PlansSet(trace, n) <==> plan == C.NoPlan(7) || exists k: nat :: k < n && Sets(trace[k], plan)
  {
    if n == 0 {
    } else {
      PlansSetMeaning(trace, n - 1, plan);
    }
  }

  // What the ends and the network hold

  /** A packet about the plan carries one of these plans. */
  predicate Carries(packet: DataPacket, plans: set<bytes>)
  {
    packet.command == WEEKLY_PLAN_EVENT ==>
      packet.data in plans || (|packet.data| > 0 && packet.data[1..] in plans)
  }

  /** A datagram for the charger that sets a plan sets one of these. */
  predicate SetsOneOf(frame: bytes, plans: set<bytes>)
  {
    C.SetsPlan(frame) ==> Slice(C.PayloadOf(frame), 1, WEEKLY_PLAN_SIZE) in plans
  }

  predicate BringsOneOf(frame: bytes, plans: set<bytes>)
  {
    forall packet :: packet in Deliver(frame) ==> Carries(packet, plans)
  }

  ghost predicate Holds(w: World, plans: set<bytes>)
  {
    && w.charger.weeklyPlan in plans
    && (forall frame :: frame in w.toCharger ==> SetsOneOf(frame, plans))
    && (forall frame :: frame in w.toClient ==> BringsOneOf(frame, plans))
    && (forall packet :: packet in w.inbox ==> Carries(packet, plans))
  }

  lemma HoldsMore(w: World, plans: set<bytes>, more: set<bytes>)
    requires Holds(w, plans) && plans <= more
    ensures Holds(w, more)
  {
    forall frame | frame in w.toClient
      ensures BringsOneOf(frame, more)
    {
      assert BringsOneOf(frame, plans);
    }
  }

  /** A request that sets no plan but one of these. */
  predicate RequestSetsOneOf(request: D.Request, plans: set<bytes>)
  {
    request.cmd == WEEKLY_PLAN_REQUEST && Slice(request.payload, 0, 1) == [ACTION_SET] ==>
      Slice(request.payload, 1, WEEKLY_PLAN_SIZE) in plans
  }

  lemma FramesSet(requests: seq<D.Request>, serial: Option<string>, password: string, plans: set<bytes>)
    requires IsAscii(password) && forall i :: 0 <= i < |requests| ==> Fits(requests[i])
    requires forall i :: 0 <= i < |requests| ==> RequestSetsOneOf(requests[i], plans)
    ensures forall frame :: frame in Frames(requests, serial, password) ==> SetsOneOf(frame, plans)
  {
    forall frame | frame in Frames(requests, serial, password)
      ensures SetsOneOf(frame, plans)
    {
      var i :| 0 <= i < |requests| && Fits(requests[i])
        && frame == Build(requests[i].cmd, serial, Some(password), requests[i].payload);
      C.FrameHeard(requests[i].cmd, serial, password, requests[i].payload);
    }
  }

  lemma LoginSetsNothing(s: S.State, event: S.Event, now: int, epoch: Word, plans: set<bytes>)
    ensures forall i :: 0 <= i < |D.LoginSends(s, event, now, epoch)| ==>
              RequestSetsOneOf(D.LoginSends(s, event, now, epoch)[i], plans)
  {
    assert Slice(D.WeeklyPlanGet(), 0, 1) == [ACTION_GET];
  }

  /** What the charger answers carries the plan it then keeps. */
  lemma AnswerCarries(u: C.Setup, s: C.State, frame: bytes, from: Router.Address, clock: int, plans: set<bytes>)
    requires s.weeklyPlan in plans && SetsOneOf(frame, plans)
    ensures var turn := C.Receive(u, s, frame, from, clock);
            && turn.state.weeklyPlan in plans
            && (turn.reply.Some? ==> Carries(C.PacketIn(u, turn.reply.value), plans))
  {
    var payload := C.PayloadOf(frame);
    if C.CommandOf(frame) == Some(WEEKLY_PLAN_REQUEST) && |payload| > 0 {
      var plan := C.AnswerPlan(s, payload).state.weeklyPlan;
      assert Slice(payload, 0, 1) == [payload[0]];
      assert ([payload[0]] + plan)[1..] == plan;
    } else if C.CommandOf(frame) == Some(WEEKLY_PLAN_REQUEST) {
      assert [] + s.weeklyPlan == s.weeklyPlan;
    }
  }

  lemma AnswersBring(u: C.Setup, reply: Option<C.Response>, plans: set<bytes>)
    requires reply.Some? ==> Carries(C.PacketIn(u, reply.value), plans)
    ensures forall frame :: frame in Answers(u, reply) ==> BringsOneOf(frame, plans)
  {
    if reply.Some? && C.CanSend(u, reply.value.payload) {
      C.ResponseRead(u, reply.value);
    }
  }

  lemma AnnouncementBrings(u: C.Setup, plans: set<bytes>)
    ensures forall frame :: frame in Announcement(u) ==> BringsOneOf(frame, plans)
  {
    if |u.info| <= MAX_PAYLOAD {
      C.FrameDelivered(LOGIN_EVENT, Some(u.serial), Some(""), u.info);
    }
  }

  // Steps

  lemma HoldsReaches(u: C.Setup, password: string, w: World, frame: bytes, from: Router.Address, clock: int,
                     plans: set<bytes>)
    requires IsAscii(password) && Holds(w, plans)
    ensures Holds(Next(u, password, w, ChargerHears(frame, from, clock)), plans)
  {
    if frame in w.toCharger {
      ReachesOnly(u, password, w, frame, from, clock);
      AnswerCarries(u, w.charger, frame, from, clock, plans);
      AnswersBring(u, C.Receive(u, w.charger, frame, from, clock).reply, plans);
    }
  }

  lemma HoldsClient(u: C.Setup, password: string, w: World, step: Step, plans: set<bytes>)
    requires IsAscii(password) && Holds(w, plans) && SetBy(step) <= plans
    requires step.ClientRuns? || step.ClientSends? || step.ClientHandles?
    ensures Holds(Next(u, password, w, step), plans)
  {
    match step
    case ClientRuns(event, now, epoch) =>
      LoginSendsFit(w.session, event, now, epoch);
      LoginSetsNothing(w.session, event, now, epoch, plans);
      FramesSet(D.LoginSends(w.session, event, now, epoch), w.serial, password, plans);
    case ClientSends(request) =>
      if Fits(request) {
        FramesSet([request], w.serial, password, plans);
      }
    case ClientHandles(packet, now) =>
      FramesSet(RepliesTo(packet), w.serial, password, plans);
    case _ => assert false;
  }

  lemma HoldsStep(u: C.Setup, password: string, w: World, step: Step, plans: set<bytes>)
    requires IsAscii(password) && Holds(w, plans) && SetBy(step) <= plans
    ensures Holds(Next(u, password, w, step), plans)
  {
    match step
    case ClientHears(frame) =>
      assert frame in w.toClient ==> BringsOneOf(frame, plans);
    case ChargerHears(frame, from, clock) => HoldsReaches(u, password, w, frame, from, clock, plans);
    case ChargerAnnounces => AnnouncementBrings(u, plans);
    case ChargerBeats => AnswersBring(u, Some(C.Response(HEADING_EVENT, [])), plans);
    case ChargerForgets =>
    case _ => HoldsClient(u, password, w, step, plans);
  }

  lemma {:induction false} HoldsRun(u: C.Setup, password: string, language: byte, trace: seq<Step>, n: nat)
    requires IsAscii(password) && n <= |trace|
    ensures Holds(At(u, password, Start(password, language), trace, n), PlansSet(trace, n))
  {
    if n == 0 {
    } else {
      var w := At(u, password, Start(password, language), trace, n - 1);
      HoldsRun(u, password, language, trace, n - 1);
      HoldsMore(w, PlansSet(trace, n - 1), PlansSet(trace, n));
      HoldsStep(u, password, w, trace[n - 1], PlansSet(trace, n));
    }
  }

  // What the client can show

  /** What plan bytes are read as; the action byte in front does not matter. */
  function Read(plan: bytes): PlanReading
  {
    ParsePlan([ACTION_SET] + plan)
  }

  lemma SliceBehindFirst(a: bytes, b: bytes, lo: nat, hi: nat)
    requires 1 <= lo && 1 <= |a| == |b| && a[1..] == b[1..]
    ensures Slice(a, lo, hi) == Slice(b, lo, hi)
  {
    assert forall k :: 1 <= k < |a| ==> a[k] == a[1..][k - 1] == b[1..][k - 1] == b[k];
  }

  lemma ActionIgnored(data: bytes)
    requires |data| > 0
    ensures ParsePlan(data) == Read(data[1..])
  {
    var other := [ACTION_SET] + data[1..];
    forall day | 0 <= day < 7
      ensures SlotAt(data, day) == SlotAt(other, day)
    {
      forall lo: nat, hi: nat | 1 <= lo
        ensures Slice(data, lo, hi) == Slice(other, lo, hi)
      {
        SliceBehindFirst(data, other, lo, hi);
      }
    }
    if ParsePlan(data).PlanRead? {
      PlanReads(other, SlotsOf(data));
    } else if |data| >= WEEKLY_PLAN_SIZE {
      var day :| 0 <= day < 7 && SlotAt(data, day).None?;
      PlanRefused(other, day);
    }
  }

  lemma {:induction false} PlansAreShort(trace: seq<Step>, n: nat)
    requires n <= |trace|
    ensures forall plan :: plan in PlansSet(trace, n) ==> |plan| < WEEKLY_PLAN_SIZE
  {
    if n == 0 {
    } else {
      PlansAreShort(trace, n - 1);
    }
  }

  /** Step n handles a packet from which the client reads this plan. */
  predicate ShowsAt(u: C.Setup, password: string, w: World, trace: seq<Step>, n: nat, slots: seq<Slot>)
    requires IsAscii(password)
  {
    && n < |trace| && trace[n].ClientHandles?
    && trace[n].packet in At(u, password, w, trace, n).inbox
    && D.ReportsPlan(trace[n].packet) && ParsePlan(trace[n].packet.data) == PlanRead(slots)
  }

  /** Nothing is made up: a plan the client comes to show was set by it before, or is that of a charger nobody set
      one for. */
  lemma ShownWasSet(u: C.Setup, password: string, language: byte, trace: seq<Step>, n: nat, slots: seq<Slot>)
    requires IsAscii(password) && ShowsAt(u, password, Start(password, language), trace, n, slots)
    ensures exists plan :: plan in PlansSet(trace, n) && Read(plan) == PlanRead(slots)
  {
    var packet := trace[n].packet;
    HoldsRun(u, password, language, trace, n);
    PlansAreShort(trace, n);
    assert Carries(packet, PlansSet(trace, n));
    ActionIgnored(packet.data);
    assert packet.data[1..] in PlansSet(trace, n);
  }

  /** No step sets a plan. */
  predicate NoSets(trace: seq<Step>)
  {
    forall k :: 0 <= k < |trace| ==> SetBy(trace[k]) == {}
  }

  predicate ShowsLast(u: C.Setup, password: string, w: World, trace: seq<Step>, more: seq<Step>, slots: seq<Slot>)
    requires IsAscii(password)
  {
    |more| > 0 && NoSets(more) && ShowsAt(u, password, w, trace + more, |trace + more| - 1, slots)
  }

  /** After the trace, over some continuation in which no plan is set, the client comes to show this plan. */
  ghost predicate CanShow(u: C.Setup, password: string, w: World, trace: seq<Step>, slots: seq<Slot>)
    requires IsAscii(password)
  {
    exists more :: ShowsLast(u, password, w, trace, more, slots)
  }

  lemma {:induction false} PlansSetBefore(trace: seq<Step>, more: seq<Step>, n: nat)
    requires n <= |trace|
    ensures PlansSet(trace + more, n) == PlansSet(trace, n)
  {
    if n == 0 {
    } else {
      PlansSetBefore(trace, more, n - 1);
    }
  }

  lemma {:induction false} NothingSetSince(trace: seq<Step>, more: seq<Step>, n: nat)
    requires NoSets(more) && |trace| <= n <= |trace + more|
    ensures PlansSet(trace + more, n) == PlansSet(trace, |trace|)
  {
    if n == |trace| {
      PlansSetBefore(trace, more, n);
    } else {
      NothingSetSince(trace, more, n - 1);
      assert (trace + more)[n - 1] == more[n - 1 - |trace|];
    }
  }

  lemma StaysOnWay(u: C.Setup, password: string, w: World, step: Step)
    requires IsAscii(password)
    ensures w.toCharger <= Next(u, password, w, step).toCharger
  {
  }

  lemma {:induction false} StayOnWay(u: C.Setup, password: string, w: World, trace: seq<Step>, m: nat, n: nat)
    requires IsAscii(password) && m <= n <= |trace|
    ensures At(u, password, w, trace, m).toCharger <= At(u, password, w, trace, n).toCharger
  {
    if m == n {
    } else {
      StayOnWay(u, password, w, trace, m, n - 1);
      StaysOnWay(u, password, At(u, password, w, trace, n - 1), trace[n - 1]);
    }
  }

  /** A set once sent is on the way for good. */
  lemma SetOnWay(u: C.Setup, password: string, w: World, trace: seq<Step>, k: nat, plan: bytes)
    returns (serial: Option<string>)
    requires IsAscii(password) && k < |trace| && Sets(trace[k], plan)
    ensures Build(WEEKLY_PLAN_REQUEST, serial, Some(password), trace[k].request.payload)
         in End(u, password, w, trace).toCharger
  {
    var before := At(u, password, w, trace, k);
    serial := before.serial;
    RequestIn([trace[k].request], serial, password, trace[k].request);
    assert At(u, password, w, trace, k + 1) == Next(u, password, before, trace[k]);
    StayOnWay(u, password, w, trace, k + 1, |trace|);
  }

  const NOWHERE := Router.Address("", 0)

  /** The echo of a set of these slot bytes. */
  function Echo(plan: bytes): C.Response
  {
    C.Response(WEEKLY_PLAN_EVENT, [ACTION_SET] + plan)
  }

  lemma EchoSent(u: C.Setup, password: string, w: World, serial: Option<string>, request: D.Request, plan: bytes)
    requires IsAscii(password) && IsAscii(u.password) && WEEKLY_PLAN_REQUEST !in u.ignored
    requires Sets(ClientSends(request), plan)
    requires Build(WEEKLY_PLAN_REQUEST, serial, Some(password), request.payload) in w.toCharger
    ensures var frame := Build(WEEKLY_PLAN_REQUEST, serial, Some(password), request.payload);
            C.CanSend(u, Echo(plan).payload)
            && C.FrameOf(u, Echo(plan)) in Next(u, password, w, ChargerHears(frame, NOWHERE, 0)).toClient
  {
    var frame := Build(WEEKLY_PLAN_REQUEST, serial, Some(password), request.payload);
    C.PlanAnswered(u, w.charger, serial, password, request.payload, NOWHERE, 0);
    AnswerSent(u, password, w, frame, NOWHERE, 0, Echo(plan));
  }

  lemma EchoHeard(u: C.Setup, password: string, w: World, plan: bytes)
    requires IsAscii(password) && C.CanSend(u, Echo(plan).payload) && C.FrameOf(u, Echo(plan)) in w.toClient
    ensures C.PacketIn(u, Echo(plan)) in Next(u, password, w, ClientHears(C.FrameOf(u, Echo(plan)))).inbox
  {
    C.ResponseRead(u, Echo(plan));
    HearsOnly(u, password, w, C.FrameOf(u, Echo(plan)), C.PacketIn(u, Echo(plan)));
  }

  lemma EchoShown(u: C.Setup, password: string, w: World, trace: seq<Step>, more: seq<Step>, plan: bytes,
                  slots: seq<Slot>)
    requires IsAscii(password) && Read(plan) == PlanRead(slots) && NoSets(more)
    requires C.PacketIn(u, Echo(plan)) in End(u, password, w, trace + more).inbox
    ensures ShowsLast(u, password, w, trace, more + [ClientHandles(C.PacketIn(u, Echo(plan)), 0)], slots)
  {
    var handles := ClientHandles(C.PacketIn(u, Echo(plan)), 0);
    AtPrefix(u, password, w, trace + more, handles, |trace + more|);
    assert trace + (more + [handles]) == (trace + more) + [handles];
  }

  lemma TwoMore<T>(front: seq<T>, a: T, b: T)
    ensures front + [a] + [b] == front + [a, b]
  {
  }

  /** Such a set arrives at the charger, and its echo at the client. */
  lemma EchoArrives(u: C.Setup, password: string, w: World, trace: seq<Step>, serial: Option<string>,
                    request: D.Request, plan: bytes)
    returns (more: seq<Step>)
    requires IsAscii(password) && IsAscii(u.password) && WEEKLY_PLAN_REQUEST !in u.ignored
    requires Sets(ClientSends(request), plan)
    requires Build(WEEKLY_PLAN_REQUEST, serial, Some(password), request.payload) in End(u, password, w, trace).toCharger
    ensures NoSets(more) && C.PacketIn(u, Echo(plan)) in End(u, password, w, trace + more).inbox
  {
    var hears := ChargerHears(Build(WEEKLY_PLAN_REQUEST, serial, Some(password), request.payload), NOWHERE, 0);
    EchoSent(u, password, End(u, password, w, trace), serial, request, plan);
    var heard := OneMore(u, password, w, trace, hears);
    var learns := ClientHears(C.FrameOf(u, Echo(plan)));
    EchoHeard(u, password, End(u, password, w, heard), plan);
    var learned := OneMore(u, password, w, heard, learns);
    TwoMore(trace, hears, learns);
    more := [hears, learns];
  }

  /** Some step of the trace set a plan that reads like this. */
  ghost predicate WasSet(trace: seq<Step>, slots: seq<Slot>)
  {
    exists k: nat, plan :: k < |trace| && Sets(trace[k], plan) && Read(plan) == PlanRead(slots)
  }

  lemma ShownLater(u: C.Setup, password: string, language: byte, trace: seq<Step>, more: seq<Step>, slots: seq<Slot>)
    requires IsAscii(password) && ShowsLast(u, password, Start(password, language), trace, more, slots)
    requires Read(C.NoPlan(7)) != PlanRead(slots)
    ensures WasSet(trace, slots)
  {
    var n := |trace + more| - 1;
    ShownWasSet(u, password, language, trace + more, n, slots);
    NothingSetSince(trace, more, n);
    var plan :| plan in PlansSet(trace, |trace|) && Read(plan) == PlanRead(slots);
    PlansSetMeaning(trace, |trace|, plan);
  }

  lemma SetCanShow(u: C.Setup, password: string, w: World, trace: seq<Step>, k: nat, plan: bytes, slots: seq<Slot>)
    requires IsAscii(password) && IsAscii(u.password) && WEEKLY_PLAN_REQUEST !in u.ignored
    requires k < |trace| && Sets(trace[k], plan) && Read(plan) == PlanRead(slots)
    ensures CanShow(u, password, w, trace, slots)
  {
    var serial := SetOnWay(u, password, w, trace, k, plan);
    var more := EchoArrives(u, password, w, trace, serial, trace[k].request, plan);
    EchoShown(u, password, w, trace, more, plan, slots);
  }

  /** Which plans a client can come to show until it sets another: besides that of a charger nobody set one for, exactly
      those it set at any time before. So a late copy of an older set can overwrite a newer one. */
  lemma CanShowExactly(u: C.Setup, password: string, language: byte, trace: seq<Step>, slots: seq<Slot>)
    requires IsAscii(password) && IsAscii(u.password) && WEEKLY_PLAN_REQUEST !in u.ignored
    requires Read(C.NoPlan(7)) != PlanRead(slots)
    ensures CanShow(u, password, Start(password, language), trace, slots) <==> WasSet(trace, slots)
  {
    if CanShow(u, password, Start(password, language), trace, slots) {
      var more :| ShowsLast(u, password, Start(password, language), trace, more, slots);
      ShownLater(u, password, language, trace, more, slots);
    }
    if WasSet(trace, slots) {
      var k: nat, plan :| k < |trace| && Sets(trace[k], plan) && Read(plan) == PlanRead(slots);
      SetCanShow(u, password, Start(password, language), trace, k, plan, slots);
    }
  }

  /** The sets of the library are such sets, and are read as the plan without its seconds. */
  lemma LibrarySets(plan: seq<Slot>)
    requires ValidPlan(plan)
    ensures Sets(ClientSends(D.Request(WEEKLY_PLAN_REQUEST, PlanPayload(plan))), PlanPayload(plan)[1..])
    ensures Read(PlanPayload(plan)[1..]) == PlanRead(WholePlan(plan))
  {
    FirstByte(plan);
    PlanRoundTrip(plan, ACTION_SET);
    assert Slice(PlanPayload(plan), 1, WEEKLY_PLAN_SIZE) == PlanPayload(plan)[1..];
    assert Slice(PlanPayload(plan), 0, 1) == [ACTION_SET];
  }
}
