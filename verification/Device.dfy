/** One charger as the library holds it (evsemaster/device.py): its fields, and the handlers and commands that change
    them. The steps of the session, the clock, the history and the re-reads are those of their modules. */
module Device {
  import opened Wrappers
  import opened ByteStrings
  import opened Packet
  import opened Protocol
  import opened Payloads
  import opened History
  import Clock
  import R = Rereads
  import Router
  import S = Session

  const LANGUAGE_GET: bytes := [ACTION_GET, 0]
  const LANGUAGE_UNKNOWN := 999

  function WeeklyPlanGet(): bytes
  {
    [ACTION_GET] + Zeros(WEEKLY_PLAN_SIZE - 1)
  }

  /** What a charger said about itself: the login payload, and the settings replies fill in. */
  datatype DeviceInfo = DeviceInfo(body: bytes, nickname: bytes, configuredAmps: nat, language: Option<nat>)

  /** A command sent: what its frame is built from, and where it goes. */
  datatype Sent = Sent(cmd: Command, serial: Option<string>, payload: bytes, to: Router.Address)

  /** The frame of a command sent. */
  function FrameOf(sent: Sent, password: string): bytes
    requires IsAscii(password) && |sent.payload| <= MAX_PAYLOAD
  {
    Build(sent.cmd, sent.serial, Some(password), sent.payload)
  }

  datatype Request = Request(cmd: Command, payload: bytes)

  /** Everything handling a packet can change, but for the history being read and what was sent. */
  datatype Core = Core(
    session: S.State,
    timeDelta: int,
    info: Option<DeviceInfo>,
    plan: Option<seq<Slot>>,
    status: Option<bytes>,
    chargingStatus: Option<bytes>)

  // What each packet changes

  /** The bytes of a string field, up to its first zero. */
  function UpToZero(b: bytes): bytes
  {
    if |b| == 0 || b[0] == 0 then [] else [b[0]] + UpToZero(b[1..])
  }

  /** `parse_device_info` and `_update_device_info`: a login payload keeps the settings read since. */
  function MergeInfo(info: Option<DeviceInfo>, data: bytes): Option<DeviceInfo>
  {
    if |data| < 54 then info
    else match info
      case Some(known) => Some(known.(body := data[..54]))
      case None => Some(DeviceInfo(data[..54], [], 16, None))
  }

  function InfoAfter(info: Option<DeviceInfo>, packet: DataPacket): Option<DeviceInfo>
  {
    if packet.command == LOGIN_EVENT || packet.command == LOGIN_SUCCESS_EVENT then MergeInfo(info, packet.data)
    else if info.None? then info
    else if packet.command == NICKNAME_EVENT then
      Some(info.value.(nickname := UpToZero(Slice(packet.data, 1, |packet.data|))))
    else if packet.command == OUTPUT_AMPERAGE_EVENT then
      Some(info.value.(configuredAmps := packet.GetInt(1, 1)))
    else if packet.command == LANGUAGE_EVENT && |packet.data| >= 2 then
      var code := packet.GetInt(1, 1);
      Some(info.value.(language := Some(if 1 <= code <= 9 then code else LANGUAGE_UNKNOWN)))
    else info
  }

  /** A status payload long enough to be one. */
  predicate ReportsStatus(packet: DataPacket)
  {
    (packet.command == CURRENT_STATUS_EVENT || packet.command == STATUS_EVENT) && |packet.data| >= 25
  }

  predicate ReportsCharging(packet: DataPacket)
  {
    (packet.command == CURRENT_CHARGING_STATUS_EVENT || packet.command == CHARGING_STATUS_EVENT) && |packet.data| >= 74
  }

  predicate ReportsPlan(packet: DataPacket)
  {
    packet.command == WEEKLY_PLAN_EVENT && ParsePlan(packet.data).PlanRead?
  }

  function PlanAfter(plan: Option<seq<Slot>>, packet: DataPacket): Option<seq<Slot>>
  {
    if ReportsPlan(packet) then Some(ParsePlan(packet.data).plan) else plan
  }

  /** `_handle_system_time`; `offset` is the Shanghai offset and `now` our time in milliseconds. */
  function DeltaAfter(timeDelta: int, packet: DataPacket, now: int, offset: int): int
  {
    if packet.command == SYSTEM_TIME_EVENT && |packet.data| >= 5 && packet.GetInt(1, 4) != 0
    then Clock.Measure(timeDelta, packet.GetInt(1, 4) + offset - now / 1000)
    else timeDelta
  }

  function StatusAfter(status: Option<bytes>, packet: DataPacket): Option<bytes>
  {
    if ReportsStatus(packet) then Some(packet.data) else status
  }

  function ChargingAfter(status: Option<bytes>, packet: DataPacket): Option<bytes>
  {
    if ReportsCharging(packet) then Some(packet.data) else status
  }

  predicate IsSessionCommand(cmd: Command)
  {
    cmd == LOGIN_EVENT || cmd == LOGIN_SUCCESS_EVENT || cmd == PASSWORD_ERROR_EVENT || cmd == HEADING_EVENT
  }

  predicate IsRecordCommand(cmd: Command)
  {
    || cmd == SYSTEM_TIME_EVENT || cmd == HISTORY_COUNT_EVENT || cmd == HISTORY_RECORD_EVENT
    || cmd == CURRENT_CHARGE_RECORD_EVENT || cmd == UPLOAD_LOCAL_CHARGE_RECORD_EVENT
  }

  function HandleCore(core: Core, packet: DataPacket, now: int, offset: int): Core
  {
    Core(
      S.HandlePacket(core.session, packet.command, now),
      DeltaAfter(core.timeDelta, packet, now, offset),
      InfoAfter(core.info, packet),
      PlanAfter(core.plan, packet),
      StatusAfter(core.status, packet),
      ChargingAfter(core.chargingStatus, packet))
  }

  function HistoryAfter(history: Option<Slots>, packet: DataPacket): Option<Slots>
  {
    match history
    case None => None
    case Some(slots) => Some(Note(slots, packet))
  }

  /** The one-shot future of the ring's capacity: Some(None) while it waits. */
  function CountAfter(count: Option<Option<nat>>, packet: DataPacket): Option<Option<nat>>
  {
    if count == Some(None) && packet.command == HISTORY_COUNT_EVENT && |packet.data| >= 5
    then Some(Some(packet.GetInt(1, 4)))
    else count
  }

  function HandleAll(core: Core, arrivals: seq<Arrival>, offset: int): Core
  {
    if |arrivals| == 0 then core
    else
      var n := |arrivals| - 1;
      HandleCore(HandleAll(core, arrivals[..n], offset), arrivals[n].packet, arrivals[n].at, offset)
  }

  /** The settings last read survive every packet but a reply about them. */
  lemma {:induction false} SettingsKept(core: Core, arrivals: seq<Arrival>, offset: int)
    requires core.info.Some?
    requires forall i :: 0 <= i < |arrivals| ==>
               arrivals[i].packet.command !in {NICKNAME_EVENT, OUTPUT_AMPERAGE_EVENT, LANGUAGE_EVENT}
    ensures var info := HandleAll(core, arrivals, offset).info;
            info.Some? && info.value == core.info.value.(body := info.value.body)
  {
    if |arrivals| == 0 {
    } else {
      SettingsKept(core, arrivals[..|arrivals| - 1], offset);
    }
  }

  predicate NoneFrom(arrivals: seq<Arrival>, kind: DataPacket -> bool, from: nat)
  {
    forall j :: from <= j < |arrivals| ==> !kind(arrivals[j].packet)
  }

  /** Arrival i is the last one of a kind. */
  predicate IsLast(arrivals: seq<Arrival>, kind: DataPacket -> bool, i: nat)
  {
    i < |arrivals| && kind(arrivals[i].packet) && NoneFrom(arrivals, kind, i + 1)
  }

  lemma LastBefore(arrivals: seq<Arrival>, kind: DataPacket -> bool, i: nat)
    requires |arrivals| > 0
    ensures var n := |arrivals| - 1;
            && (IsLast(arrivals, kind, i) ==>
                  if i == n then kind(arrivals[n].packet)
                  else IsLast(arrivals[..n], kind, i) && !kind(arrivals[n].packet))
            && (NoneFrom(arrivals, kind, 0) ==> NoneFrom(arrivals[..n], kind, 0) && !kind(arrivals[n].packet))
  {
  }

  /** Over any run of packets, what the device shows as status, charging status and weekly plan is what the last
      packet that could be read as one said, and what it showed before if there was none. */
  lemma {:induction false} ShowsLastReported(core: Core, arrivals: seq<Arrival>, offset: int, i: nat)
    ensures var after := HandleAll(core, arrivals, offset);
            && (IsLast(arrivals, ReportsStatus, i) ==> after.status == Some(arrivals[i].packet.data))
            && (IsLast(arrivals, ReportsCharging, i) ==> after.chargingStatus == Some(arrivals[i].packet.data))
            && (IsLast(arrivals, ReportsPlan, i) ==> after.plan == Some(ParsePlan(arrivals[i].packet.data).plan))
            && (NoneFrom(arrivals, ReportsStatus, 0) ==> after.status == core.status)
            && (NoneFrom(arrivals, ReportsCharging, 0) ==> after.chargingStatus == core.chargingStatus)
            && (NoneFrom(arrivals, ReportsPlan, 0) ==> after.plan == core.plan)
  {
    if |arrivals| == 0 {
    } else {
      ShowsLastReported(core, arrivals[..|arrivals| - 1], offset, i);
      LastBefore(arrivals, ReportsStatus, i);
      LastBefore(arrivals, ReportsCharging, i);
      LastBefore(arrivals, ReportsPlan, i);
    }
  }

  /** The skew a packet reports, if it reports one. */
  function SkewOf(arrival: Arrival, offset: int): seq<int>
  {
    var packet := arrival.packet;
    if packet.command == SYSTEM_TIME_EVENT && |packet.data| >= 5 && packet.GetInt(1, 4) != 0
    then [packet.GetInt(1, 4) + offset - arrival.at / 1000] else []
  }

  function SkewsOf(arrivals: seq<Arrival>, offset: int): seq<int>
  {
    if |arrivals| == 0 then []
    else SkewsOf(arrivals[..|arrivals| - 1], offset) + SkewOf(arrivals[|arrivals| - 1], offset)
  }

  lemma DeltaMeasuredNext(timeDelta: int, skews: seq<int>, arrival: Arrival, offset: int)
    requires timeDelta == Clock.MeasureAll(skews)
    ensures DeltaAfter(timeDelta, arrival.packet, arrival.at, offset)
         == Clock.MeasureAll(skews + SkewOf(arrival, offset))
  {
    var skew := SkewOf(arrival, offset);
    if |skew| == 0 {
      assert skews + skew == skews;
    } else {
      assert (skews + skew)[..|skews|] == skews;
    }
  }

  /** The clock correction after a run of packets is the skew controller run over the skews they report. */
  lemma {:induction false} DeltaIsMeasured(core: Core, arrivals: seq<Arrival>, offset: int)
    requires core.timeDelta == 0
    ensures HandleAll(core, arrivals, offset).timeDelta == Clock.MeasureAll(SkewsOf(arrivals, offset))
  {
    if |arrivals| == 0 {
    } else {
      var n := |arrivals| - 1;
      DeltaIsMeasured(core, arrivals[..n], offset);
      DeltaMeasuredNext(HandleAll(core, arrivals[..n], offset).timeDelta, SkewsOf(arrivals[..n], offset), arrivals[n],
                        offset);
    }
  }

  /** What handling a packet sends back. */
  function Reply(packet: DataPacket): (reply: Option<Request>)
    ensures reply.Some? ==> |reply.value.payload| <= 18 && reply.value.cmd >= 0x8000
    ensures reply.Some? ==> reply.value.cmd !in {HISTORY_RECORD_REQUEST, LOGIN_REQUEST}
    ensures reply.Some? && reply.value.cmd == LOGIN_CONFIRM_RESPONSE <==> packet.command == LOGIN_SUCCESS_EVENT
    ensures reply.Some? && packet.command != LOGIN_SUCCESS_EVENT ==> reply.value.cmd == packet.command + 0x8000
    ensures reply.Some? && packet.command in {CURRENT_CHARGE_RECORD_EVENT, UPLOAD_LOCAL_CHARGE_RECORD_EVENT} ==>
              |packet.data| >= RECORD_SIZE && |reply.value.payload| == 18
              && reply.value.payload[1..17] == packet.data[33..49]
  {
    var cmd := packet.command;
    if cmd == HEADING_EVENT then Some(Request(HEADING_RESPONSE, []))
    else if cmd == LOGIN_SUCCESS_EVENT then Some(Request(LOGIN_CONFIRM_RESPONSE, []))
    else if cmd == CURRENT_STATUS_EVENT then Some(Request(CURRENT_STATUS_RESPONSE, []))
    else if cmd == CURRENT_CHARGING_STATUS_EVENT then Some(Request(CURRENT_CHARGING_STATUS_RESPONSE, [0]))
    else if ParseRecord(packet.data, 0).None? then None
    else if cmd == CURRENT_CHARGE_RECORD_EVENT then
      Some(Request(CURRENT_CHARGE_RECORD_RESPONSE, BuildRecordAck(packet.data)))
    else if cmd == UPLOAD_LOCAL_CHARGE_RECORD_EVENT then
      Some(Request(UPLOAD_LOCAL_CHARGE_RECORD_RESPONSE, BuildRecordAck(packet.data)))
    else None
  }

  /** What a login asks for once it succeeded. */
  function Essentials(epoch: int): seq<Request>
    requires 0 <= epoch < 0x1_0000_0000
  {
    [Request(SYSTEM_TIME_REQUEST, [ACTION_SET] + U32(epoch)), Request(NICKNAME_REQUEST, [ACTION_GET]),
     Request(OUTPUT_AMPERAGE_REQUEST, [ACTION_GET]), Request(LANGUAGE_REQUEST, LANGUAGE_GET),
     Request(WEEKLY_PLAN_REQUEST, WeeklyPlanGet()), Request(STATUS_REQUEST, []), Request(CHARGING_STATUS_REQUEST, [])]
  }

  /** What a set of the charger's clock writes: the epoch of now, uncorrected. */
  function SetTime(now: int, offset: int): int
  {
    Clock.Encode(now / 1000, offset, 0, false)
  }

  /** Times the charger's field can hold. */
  predicate InEpoch(now: int, offset: int)
  {
    0 <= SetTime(now, offset) < 0x1_0000_0000
  }

  /** The slots asked for in a log of commands. */
  function Asked(sent: seq<Sent>): seq<nat>
  {
    if |sent| == 0 then []
    else
      var last := sent[|sent| - 1];
      Asked(sent[..|sent| - 1])
      + if last.cmd == HISTORY_RECORD_REQUEST then [FromBytes(Slice(last.payload, 1, 5))] else []
  }

  // Reading the capacity

  /** The first capacity a batch reports. */
  function FirstCount(arrivals: seq<Arrival>): Option<nat>
  {
    if |arrivals| == 0 then None
    else
      var before := FirstCount(arrivals[..|arrivals| - 1]);
      if before.Some? then before
      else match CountAfter(Some(None), arrivals[|arrivals| - 1].packet)
        case Some(count) => count
        case None => None
  }

  /** The capacity a read learns and the wait after it, or None if no wait of the tries answered. */
  function FindCapacity(waits: seq<seq<Arrival>>, k: nat, tries: nat): (Option<nat>, nat)
    decreases tries
  {
    if tries == 0 then (None, k)
    else
      var count := FirstCount(Batch(waits, k));
      if count.Some? then (count, k + 1) else FindCapacity(waits, k + 1, tries - 1)
  }

  lemma {:induction false} CountIsWord(arrivals: seq<Arrival>)
    ensures FirstCount(arrivals).Some? ==> FirstCount(arrivals).value < 0x1_0000_0000
  {
    if |arrivals| == 0 {
    } else {
      CountIsWord(arrivals[..|arrivals| - 1]);
      FromBytesWord(Slice(arrivals[|arrivals| - 1].packet.data, 1, 5));
    }
  }

  lemma {:induction false} FirstCountAppend(a: seq<Arrival>, b: seq<Arrival>)
    ensures FirstCount(a + b) == if FirstCount(a).Some? then FirstCount(a) else FirstCount(b)
  {
    if |b| == 0 {
      assert a + b == a;
    } else {
      assert (a + b)[..|a + b| - 1] == a + b[..|b| - 1];
      FirstCountAppend(a, b[..|b| - 1]);
    }
  }

  lemma HandledFirst(waits: seq<seq<Arrival>>, k: nat, to: nat)
    requires k < to
    ensures Handled(waits, k, to) == Batch(waits, k) + Handled(waits, k + 1, to)
  {
    HandledSplit(waits, k, k + 1, to);
    assert Handled(waits, k, k + 1) == Batch(waits, k);
  }

  /** What is reported from wait k up to wait `to`. */
  predicate Reports(waits: seq<seq<Arrival>>, k: nat, to: nat, count: Option<nat>)
  {
    k <= to && FirstCount(Handled(waits, k, to)) == count
  }

  lemma ReportsNow(waits: seq<seq<Arrival>>, k: nat)
    ensures Reports(waits, k, k, None) && Reports(waits, k, k + 1, FirstCount(Batch(waits, k)))
  {
    assert Handled(waits, k, k) == [] && Handled(waits, k, k + 1) == Batch(waits, k);
  }

  lemma ReportsLater(waits: seq<seq<Arrival>>, k: nat, to: nat, count: Option<nat>)
    requires FirstCount(Batch(waits, k)).None? && Reports(waits, k + 1, to, count)
    ensures Reports(waits, k, to, count)
  {
    HandledFirst(waits, k, to);
    FirstCountAppend(Batch(waits, k), Handled(waits, k + 1, to));
  }

  /** The count is the first one reported from wait k on, and `next` the wait after it; none within the tries
      leaves none. */
  predicate IsFirst(waits: seq<seq<Arrival>>, k: nat, tries: nat, count: Option<nat>, next: nat)
  {
    && Reports(waits, k, next, count)
    && next <= k + tries && (count.None? ==> next == k + tries)
    && (count.Some? ==> k < next && Reports(waits, k, next - 1, None))
  }

  lemma IsFirstNow(waits: seq<seq<Arrival>>, k: nat, tries: nat)
    ensures IsFirst(waits, k, 0, None, k)
    ensures tries > 0 && FirstCount(Batch(waits, k)).Some? ==>
              IsFirst(waits, k, tries, FirstCount(Batch(waits, k)), k + 1)
  {
    ReportsNow(waits, k);
  }

  lemma IsFirstLater(waits: seq<seq<Arrival>>, k: nat, tries: nat, count: Option<nat>, next: nat)
    requires FirstCount(Batch(waits, k)).None? && IsFirst(waits, k + 1, tries, count, next)
    ensures IsFirst(waits, k, tries + 1, count, next)
  {
    ReportsLater(waits, k, next, count);
    if count.Some? {
      ReportsLater(waits, k, next - 1, None);
    }
  }

  /** The capacity a read learns is the first one reported during its waits, and it waits no longer than that. */
  lemma {:induction false} FoundIsFirst(waits: seq<seq<Arrival>>, k: nat, tries: nat)
    ensures var (count, next) := FindCapacity(waits, k, tries); IsFirst(waits, k, tries, count, next)
    decreases tries
  {
    IsFirstNow(waits, k, tries);
    if tries == 0 || FirstCount(Batch(waits, k)).Some? {
    } else {
      var (count, next) := FindCapacity(waits, k + 1, tries - 1);
      FoundIsFirst(waits, k + 1, tries - 1);
      IsFirstLater(waits, k, tries - 1, count, next);
    }
  }

  function CountAll(count: Option<Option<nat>>, arrivals: seq<Arrival>): Option<Option<nat>>
  {
    if |arrivals| == 0 then count
    else CountAfter(CountAll(count, arrivals[..|arrivals| - 1]), arrivals[|arrivals| - 1].packet)
  }

  /** The future is resolved by the first capacity handled, and by none after it. */
  lemma {:induction false} CountResolvedOnce(arrivals: seq<Arrival>)
    ensures CountAll(Some(None), arrivals) == Some(FirstCount(arrivals))
  {
    if |arrivals| == 0 {
    } else {
      CountResolvedOnce(arrivals[..|arrivals| - 1]);
    }
  }

  function HistoryAll(history: Option<Slots>, arrivals: seq<Arrival>): Option<Slots>
  {
    match history
    case None => None
    case Some(slots) => Some(NoteAll(slots, arrivals))
  }

  lemma {:induction false} HandleAllAppend(core: Core, a: seq<Arrival>, b: seq<Arrival>, offset: int)
    ensures HandleAll(core, a + b, offset) == HandleAll(HandleAll(core, a, offset), b, offset)
  {
    if |b| == 0 {
      assert a + b == a;
    } else {
      assert (a + b)[..|a + b| - 1] == a + b[..|b| - 1];
      HandleAllAppend(core, a, b[..|b| - 1], offset);
    }
  }

  lemma {:induction false} AskedAppend(a: seq<Sent>, b: seq<Sent>)
    ensures Asked(a + b) == Asked(a) + Asked(b)
  {
    if |b| == 0 {
      assert a + b == a;
    } else {
      assert (a + b)[..|a + b| - 1] == a + b[..|b| - 1];
      AskedAppend(a, b[..|b| - 1]);
    }
  }

  /** A step in which a login returns True. */
  predicate LogsIn(s: S.State, event: S.Event, now: int)
  {
    && event.Resume? && S.IsWaiting(s, event.task)
    && S.Wake(s, event.task, now).tasks[event.task] == S.Finished(S.LoggedIn)
  }

  /** A login that waits for the answer to one more request. */
  function Rearmed(s: S.State, t: nat, now: int): S.State
    requires S.IsWaiting(s, t)
  {
    s.(tasks := s.tasks[t := S.Waiting(s.tasks[t].attempt + 1, now + S.LOGIN_RETRY_INTERVAL, false, false)])
  }

  function Retried(s: S.State, t: nat, now: int): S.State
    requires S.IsWaiting(s, t)
  {
    if s.future.Some? && s.future.value.Resolved? then S.Answered(Rearmed(s, t, now), t, s.future.value.success)
    else Rearmed(s, t, now)
  }

  lemma RetryWakes(s: S.State, t: nat, now: int)
    requires S.IsWaiting(s, t) && S.SendsLoginRequest(s, S.Resume(t))
    ensures S.Wake(s, t, now) == Retried(s, t, now)
  {
  }

  lemma EndLogsIn(s: S.State, t: nat, now: int)
    requires S.IsWaiting(s, t) && !S.SendsLoginRequest(s, S.Resume(t))
    ensures LogsIn(s, S.Resume(t), now)
       <==> !s.tasks[t].cancelled && !s.tasks[t].expired && s.future == Some(S.Resolved(true)) && s.authenticated
  {
  }

  lemma RetryLogsIn(s: S.State, t: nat, now: int)
    requires S.IsWaiting(s, t) && S.SendsLoginRequest(s, S.Resume(t))
    ensures LogsIn(s, S.Resume(t), now) <==> s.future == Some(S.Resolved(true)) && s.authenticated
  {
  }

  /** What a step of a login sends. */
  function LoginSends(s: S.State, event: S.Event, now: int, epoch: int): seq<Request>
    requires 0 <= epoch < 0x1_0000_0000
  {
    (if S.SendsLoginRequest(s, event) then [Request(LOGIN_REQUEST, [])] else [])
    + (if LogsIn(s, event, now) then Essentials(epoch) else [])
  }

  /** The get that reads a setting back. */
  function RereadPayload(cmd: Command): (payload: bytes)
    ensures 0 < |payload| <= WEEKLY_PLAN_SIZE && payload[0] == ACTION_GET
  {
    if cmd == LANGUAGE_REQUEST then LANGUAGE_GET else WeeklyPlanGet()
  }

  datatype ChargeHistory = ChargeHistory(records: map<nat, Record>, unreadSlots: seq<nat>)

  datatype Error = NotLoggedInError | ValueError | TimeoutError

  /** What reading the history works on: what packets change, the slots gathered, the future of the
      capacity and the slots asked for. */
  datatype Reader = Reader(core: Core, history: Option<Slots>, count: Option<Option<nat>>, asked: seq<nat>) {
    function Slots(): Slots
    {
      if history.Some? then history.value else map[]
    }
  }

  function Handle(r: Reader, arrival: Arrival, offset: int): Reader
  {
    r.(core := HandleCore(r.core, arrival.packet, arrival.at, offset),
       history := HistoryAfter(r.history, arrival.packet),
       count := CountAfter(r.count, arrival.packet))
  }

  function Pump(r: Reader, arrivals: seq<Arrival>, offset: int): Reader
  {
    if |arrivals| == 0 then r
    else Handle(Pump(r, arrivals[..|arrivals| - 1], offset), arrivals[|arrivals| - 1], offset)
  }

  /** Handling packets touches the parts of a read one by one, and asks for nothing. */
  lemma {:induction false} PumpParts(r: Reader, arrivals: seq<Arrival>, offset: int)
    ensures Pump(r, arrivals, offset)
         == Reader(HandleAll(r.core, arrivals, offset), HistoryAll(r.history, arrivals), CountAll(r.count, arrivals),
                   r.asked)
  {
    if |arrivals| == 0 {
    } else {
      PumpParts(r, arrivals[..|arrivals| - 1], offset);
    }
  }

  lemma {:induction false} PumpMore(r: Reader, a: seq<Arrival>, b: seq<Arrival>, offset: int)
    ensures Pump(r, a + b, offset) == Pump(Pump(r, a, offset), b, offset)
  {
    if |b| == 0 {
      assert a + b == a;
    } else {
      assert (a + b)[..|a + b| - 1] == a + b[..|b| - 1];
      PumpMore(r, a, b[..|b| - 1], offset);
    }
  }

  lemma {:induction false} CountStaysNone(arrivals: seq<Arrival>)
    ensures CountAll(None, arrivals).None?
  {
    if |arrivals| == 0 {
    } else {
      CountStaysNone(arrivals[..|arrivals| - 1]);
    }
  }

  lemma PumpCount(r: Reader, wait: seq<Arrival>, offset: int)
    requires r.count.None?
    ensures Pump(r.(count := Some(None)), wait, offset).count == Some(FirstCount(wait))
    ensures Pump(r, wait, offset) == Pump(r.(count := Some(None)), wait, offset).(count := None)
  {
    PumpParts(r, wait, offset);
    PumpParts(r.(count := Some(None)), wait, offset);
    CountResolvedOnce(wait);
    CountStaysNone(wait);
  }

  lemma PumpAsked(r: Reader, asked: seq<nat>, arrivals: seq<Arrival>, offset: int)
    ensures Pump(r.(asked := asked), arrivals, offset) == Pump(r, arrivals, offset).(asked := asked)
  {
    PumpParts(r, arrivals, offset);
    PumpParts(r.(asked := asked), arrivals, offset);
  }

  function AskOne(r: Reader, index: nat, wait: seq<Arrival>, offset: int): Reader
  {
    Pump(r.(asked := r.asked + [index]), wait, offset)
  }

  function AskEach(r: Reader, missing: seq<nat>, waits: seq<seq<Arrival>>, k: nat, offset: int): Reader
  {
    if |missing| == 0 then r
    else
      var n := |missing| - 1;
      AskOne(AskEach(r, missing[..n], waits, k, offset), missing[n], Batch(waits, k + n), offset)
  }

  /** The slots asked for, and what the waits of the pass handled. */
  function AskPassed(r: Reader, missing: seq<nat>, waits: seq<seq<Arrival>>, k: nat, k': nat, offset: int): Reader
    requires k <= k'
  {
    Pump(r.(asked := r.asked + missing), Handled(waits, k, k'), offset)
  }

  lemma AskOneMore(r: Reader, missing: seq<nat>, index: nat, more: seq<nat>, waits: seq<seq<Arrival>>,
                   k: nat, mid: nat, end: nat, offset: int)
    requires k <= mid && end == mid + 1 && more == missing + [index]
    ensures AskOne(AskPassed(r, missing, waits, k, mid, offset), index, Batch(waits, mid), offset)
         == AskPassed(r, more, waits, k, end, offset)
  {
    var before := Handled(waits, k, mid);
    var all := r.asked + more;
    assert r.asked + missing + [index] == all;
    PumpAsked(r.(asked := r.asked + missing), all, before, offset);
    PumpParts(r.(asked := r.asked + missing), before, offset);
    PumpMore(r.(asked := all), before, Batch(waits, mid), offset);
  }

  lemma AskEachLast(r: Reader, front: seq<nat>, missing: seq<nat>, waits: seq<seq<Arrival>>, k: nat, mid: nat,
                    offset: int)
    requires |missing| > 0 && front == missing[..|missing| - 1] && mid == k + |front|
    ensures AskEach(r, missing, waits, k, offset)
         == AskOne(AskEach(r, front, waits, k, offset), missing[|front|], Batch(waits, mid), offset)
  {
  }

  lemma {:induction false} AskEachPumps(r: Reader, missing: seq<nat>, waits: seq<seq<Arrival>>, k: nat, end: nat,
                                        offset: int)
    requires end == k + |missing|
    ensures AskEach(r, missing, waits, k, offset) == AskPassed(r, missing, waits, k, end, offset)
  {
    if |missing| == 0 {
      assert r.asked + missing == r.asked;
    } else {
      var front, mid := missing[..|missing| - 1], end - 1;
      AskEachPumps(r, front, waits, k, mid, offset);
      AskEachLast(r, front, missing, waits, k, mid, offset);
      AskOneMore(r, front, missing[|front|], missing, waits, k, mid, end, offset);
    }
  }

  lemma PumpHistory(r: Reader, arrivals: seq<Arrival>, offset: int)
    requires r.history.Some?
    ensures Pump(r, arrivals, offset).history == Some(NoteAll(r.history.value, arrivals))
  {
    PumpParts(r, arrivals, offset);
  }

  /** Between two passes: `now` is what the packets of the waits made of `before`. */
  ghost predicate Pumped(before: Reader, now: Reader, waits: seq<seq<Arrival>>, start: nat, k: nat,
                         asked: seq<seq<nat>>, offset: int)
  {
    && start <= k
    && now == Pump(before, Handled(waits, start, k), offset).(asked := before.asked + Flat(asked))
  }

  /** One more pass, handled. */
  lemma PassPumped(before: Reader, now: Reader, waits: seq<seq<Arrival>>, start: nat,
                   missing: seq<nat>, k: nat, k': nat, asked: seq<seq<nat>>, offset: int)
    requires Pumped(before, now, waits, start, k, asked, offset)
    requires k <= k'
    ensures Pumped(before, AskPassed(now, missing, waits, k, k', offset), waits, start, k', asked + [missing], offset)
  {
    var first, second := Handled(waits, start, k), Handled(waits, k, k');
    assert (asked + [missing])[..|asked|] == asked;
    var all := before.asked + Flat(asked + [missing]);
    assert now.asked + missing == all;
    HandledSplit(waits, start, k, k');
    PumpMore(before, first, second, offset);
    PumpAsked(Pump(before, first, offset), all, second, offset);
  }

  /** Slot numbers a request has room for. */
  predicate AreWords(slots: seq<nat>)
  {
    forall i :: 0 <= i < |slots| ==> slots[i] < 0x1_0000_0000
  }

  lemma {:induction false} UnansweredAreWords(missing: seq<nat>, slots: Slots)
    requires AreWords(missing)
    ensures AreWords(Unanswered(missing, slots))
  {
    if |missing| == 0 {
    } else {
      UnansweredAreWords(missing[1..], slots);
    }
  }

  /** What a pass leaves is where the read stands after it. */
  lemma PassStands(before: Reader, now: Reader, after: Reader, r: Reading, waits: seq<seq<Arrival>>, start: nat,
                   offset: int)
    requires now.history == Some(r.slots) && AreWords(r.missing)
    requires Pumped(before, now, waits, start, r.next, r.asked, offset)
    requires after == AskPassed(now, r.missing, waits, r.next, r.next + |r.missing| + 1, offset)
    ensures var r' := Pass(r, waits);
            && after.history == Some(r'.slots) && AreWords(r'.missing)
            && Pumped(before, after, waits, start, r'.next, r'.asked, offset)
  {
    var r' := Pass(r, waits);
    PassPumped(before, now, waits, start, r.missing, r.next, r'.next, r.asked, offset);
    PumpHistory(now.(asked := now.asked + r.missing), Handled(waits, r.next, r'.next), offset);
    UnansweredAreWords(r.missing, r'.slots);
  }

  lemma HandledJoined(core: Core, waits: seq<seq<Arrival>>, from: nat, mid: nat, to: nat, offset: int)
    requires from <= mid <= to
    ensures HandleAll(core, Handled(waits, from, to), offset)
         == HandleAll(HandleAll(core, Handled(waits, from, mid), offset), Handled(waits, mid, to), offset)
  {
    HandledSplit(waits, from, mid, to);
    HandleAllAppend(core, Handled(waits, from, mid), Handled(waits, mid, to), offset);
  }

  /** Over a whole read, the packets of all its waits were handled once, in order. */
  lemma ReadPumped(before: Reader, waits: seq<seq<Arrival>>, start: nat, k: nat, offset: int)
    requires start <= k && before.count.None?
    ensures var found := Pump(before, Handled(waits, 0, start), offset);
            var after := Pump(found.(history := Some(map[])), Handled(waits, start, k), offset);
            && found.asked == before.asked && after.count.None?
            && after.core == HandleAll(before.core, Handled(waits, 0, k), offset)
  {
    var found := Pump(before, Handled(waits, 0, start), offset);
    PumpParts(before, Handled(waits, 0, start), offset);
    PumpParts(found.(history := Some(map[])), Handled(waits, start, k), offset);
    CountStaysNone(Handled(waits, 0, start));
    CountStaysNone(Handled(waits, start, k));
    HandledJoined(before.core, waits, 0, start, k, offset);
  }

  lemma {:induction false} FoundIsWord(waits: seq<seq<Arrival>>, k: nat, tries: nat)
    ensures var found := FindCapacity(waits, k, tries).0; found.Some? ==> found.value < 0x1_0000_0000
    decreases tries
  {
    if tries == 0 {
    } else {
      CountIsWord(Batch(waits, k));
      FoundIsWord(waits, k + 1, tries - 1);
    }
  }

  /** The readings of a run of passes, none begun with nothing missing but the first. */
  ghost predicate IsPassList(readings: seq<Reading>, waits: seq<seq<Arrival>>)
  {
    && |readings| > 0
    && forall i :: 0 <= i < |readings| - 1 ==>
         readings[i + 1] == Pass(readings[i], waits) && (i == 0 || |readings[i].missing| > 0)
  }

  /** The readings of a read so far: its start and one after each pass. */
  ghost predicate Ongoing(readings: seq<Reading>, waits: seq<seq<Arrival>>, capacity: nat, start: nat, r: Reading,
                          passes: nat)
  {
    && IsPassList(readings, waits) && readings[0] == Started(capacity, start)
    && |readings| == passes + 1 && readings[passes] == r
  }

  lemma OnePassMore(readings: seq<Reading>, waits: seq<seq<Arrival>>, capacity: nat, start: nat, r: Reading,
                    passes: nat)
    returns (more: seq<Reading>)
    requires Ongoing(readings, waits, capacity, start, r, passes)
    requires passes == 0 || |r.missing| > 0
    ensures Ongoing(more, waits, capacity, start, Pass(r, waits), passes + 1)
  {
    var next := Pass(r, waits);
    more := readings + [next];
    assert more[|readings|] == next;
  }

  lemma {:induction false} PassListRuns(readings: seq<Reading>, waits: seq<seq<Arrival>>, i: nat)
    requires IsPassList(readings, waits) && i < |readings|
    ensures readings[i] == AfterPasses(readings[0], waits, i)
  {
    if i == 0 {
    } else {
      PassListRuns(readings, waits, i - 1);
    }
  }

  /** A read that lacks nothing after a pass has read all. */
  lemma {:induction false} ReadStops(r: Reading, waits: seq<seq<Arrival>>, pass: nat, passes: nat)
    requires 0 < pass <= passes && |AfterPasses(r, waits, pass).missing| == 0
    ensures AfterPasses(r, waits, passes) == AfterPasses(r, waits, pass)
  {
    if pass == passes {
    } else {
      ReadStops(r, waits, pass, passes - 1);
    }
  }

  /** A run of passes that ended for want of passes or of missing slots is a whole read. */
  lemma PassesRead(readings: seq<Reading>, waits: seq<seq<Arrival>>, capacity: nat, start: nat, r: Reading,
                   passes: nat)
    requires Ongoing(readings, waits, capacity, start, r, passes) && 0 < passes <= HISTORY_PASSES
    requires passes == HISTORY_PASSES || |r.missing| == 0
    ensures r == ReadAll(capacity, waits, start)
  {
    PassListRuns(readings, waits, passes);
    if passes < HISTORY_PASSES {
      ReadStops(readings[0], waits, passes, HISTORY_PASSES);
    }
  }

  lemma SlotsAreWords(capacity: nat)
    requires capacity < 0x1_0000_0000
    ensures AreWords(AllSlots(capacity))
  {
  }

  lemma DoneOneMore<T>(goal: seq<T>, before: seq<T>, t: nat)
    requires t < |goal| == |before|
    ensures (goal[..t] + before[t..])[t := goal[t]] == goal[..t + 1] + before[t + 1..]
    ensures (goal[..t] + before[t..])[t] == before[t]
  {
  }

  /** What becomes of the timers when the next remembered one is cancelled. */
  function CancelRemembered(timers: seq<R.Timer>, rereads: map<Command, nat>, t: nat): seq<R.Timer>
    requires t < |timers|
  {
    if t in rereads.Values && timers[t].mode == R.Armed then timers[t := timers[t].(mode := R.Stopped)] else timers
  }

  /** The timers while a close cancels them: the first t are done. */
  predicate Cancelling(s: R.State, timers: seq<R.Timer>, t: nat)
  {
    t <= |s.timers| && timers == R.CancelAll(s).timers[..t] + s.timers[t..]
  }

  lemma CancelsNext(s: R.State, timers: seq<R.Timer>, t: nat)
    requires Cancelling(s, timers, t) && t < |s.timers|
    ensures Cancelling(s, CancelRemembered(timers, s.rereads, t), t + 1)
  {
    DoneOneMore(R.CancelAll(s).timers, s.timers, t);
    assert timers[t := timers[t]] == timers;
  }

  lemma CancelsAll(s: R.State, timers: seq<R.Timer>)
    ensures Cancelling(s, s.timers, 0)
    ensures Cancelling(s, timers, |s.timers|) ==> R.State(timers, s.rereads) == R.CancelAll(s)
  {
  }

  /** One charger; how it looks to a read of the history is `ReaderView`. */
  class EvseDevice {
    const host: string
    const password: string
    var hostIp: string
    var sendPort: int
    var serial: Option<string>
    var authenticated: bool
    var lastAlive: Option<int>
    var lastHeading: Option<int>
    var lastLoginAttempt: Option<int>
    var loginLocked: bool
    var loginFuture: Option<S.Future>
    var autoLoginTask: Option<nat>
    var loginTasks: seq<S.Task>
    var timeDelta: int
    var info: Option<DeviceInfo>
    var plan: Option<seq<Slot>>
    var status: Option<bytes>
    var chargingStatus: Option<bytes>
    var history: Option<Slots>
    var historyCount: Option<Option<nat>>
    var rereads: map<Command, nat>
    var timers: seq<R.Timer>
    var sent: seq<Sent>

    /** A password that can be sent. */
    predicate Valid()
    {
      IsAscii(password)
    }

    function Identity(): Router.Identity
      reads this`serial, this`hostIp, this`sendPort
    {
      Router.Identity(serial, hostIp, sendPort)
    }

    function Session(): S.State
      reads this`authenticated, this`lastAlive, this`lastHeading, this`lastLoginAttempt, this`loginLocked,
            this`loginFuture, this`autoLoginTask, this`loginTasks
    {
      S.State(password != "", authenticated, lastAlive, lastHeading, lastLoginAttempt,
              loginLocked, loginFuture, autoLoginTask, loginTasks)
    }

    function View(): Core
      reads this`authenticated, this`lastAlive, this`lastHeading, this`lastLoginAttempt, this`loginLocked,
            this`loginFuture, this`autoLoginTask, this`loginTasks,
            this`timeDelta, this`info, this`plan, this`status, this`chargingStatus
    {
      Core(Session(), timeDelta, info, plan, status, chargingStatus)
    }

    function Settings(): R.State
      reads this`timers, this`rereads
    {
      R.State(timers, rereads)
    }

    constructor (host: string, hostIp: string, password: string)
      ensures this.host == host && this.password == password
      ensures Identity() == Router.Identity(None, hostIp, Router.DEFAULT_SEND_PORT)
      ensures View() == Core(S.Init(password != ""), 0, None, None, None, None)
      ensures history.None? && historyCount.None? && Settings() == R.NONE && sent == []
    {
      this.host, this.password, this.hostIp, sendPort := host, password, hostIp, Router.DEFAULT_SEND_PORT;
      serial, authenticated, lastAlive, lastHeading, lastLoginAttempt := None, false, None, None, None;
      loginLocked, loginFuture, autoLoginTask, loginTasks := false, None, None, [];
      timeDelta, info, plan, status, chargingStatus := 0, None, None, None, None;
      history, historyCount, rereads, timers, sent := None, None, map[], [], [];
    }

    /** A request as it goes out: in this device's name, to its address. */
    function Outgoing(request: Request): Sent
      reads this`serial, this`hostIp, this`sendPort
    {
      Sent(request.cmd, serial, request.payload, Router.Address(hostIp, sendPort))
    }

    function OutgoingAll(requests: seq<Request>): seq<Sent>
      reads this`serial, this`hostIp, this`sendPort
    {
      if |requests| == 0 then []
      else OutgoingAll(requests[..|requests| - 1]) + [Outgoing(requests[|requests| - 1])]
    }

    function OutgoingReply(packet: DataPacket): seq<Sent>
      reads this`serial, this`hostIp, this`sendPort
    {
      match Reply(packet)
      case None => []
      case Some(request) => [Outgoing(request)]
    }

    method SendCommand(cmd: Command, payload: bytes)
      requires Valid() && |payload| <= MAX_PAYLOAD
      modifies this`sent
      ensures sent == old(sent) + [Outgoing(Request(cmd, payload))]
    {
      var frame := BuildPacket(cmd, serial, Some(password), payload);
      assert frame == FrameOf(Outgoing(Request(cmd, payload)), password);
      sent := sent + [Sent(cmd, serial, payload, Router.Address(hostIp, sendPort))];
    }

    /** Learns serial and source address from an incoming packet. */
    method Bind(packetSerial: string, address: Router.Address)
      modifies this`serial, this`hostIp, this`sendPort
      ensures Identity() == Router.Bind(old(Identity()), packetSerial, address)
    {
      if packetSerial != "" && packetSerial != ZERO_SERIAL && Some(packetSerial) != serial {
        serial := Some(packetSerial);
      }
      if address.ip != hostIp {
        hostIp := address.ip;
      }
      if address.port != sendPort {
        sendPort := address.port;
      }
    }

    method ResolveLogin(success: bool)
      modifies this`loginFuture
      ensures Session() == S.Resolve(old(Session()), success)
    {
      if loginFuture == Some(S.Unresolved) {
        loginFuture := Some(S.Resolved(success));
      }
    }

    method UpdateDeviceInfo(data: bytes)
      modifies this`info
      ensures info == MergeInfo(old(info), data)
    {
      if |data| >= 54 {
        if info.Some? {
          info := Some(DeviceInfo(data[..54], info.value.nickname, info.value.configuredAmps, info.value.language));
        } else {
          info := Some(DeviceInfo(data[..54], [], 16, None));
        }
      }
    }

    method HandleSystemTime(packet: DataPacket, now: int, offset: int)
      requires packet.command == SYSTEM_TIME_EVENT
      modifies this`timeDelta
      ensures timeDelta == DeltaAfter(old(timeDelta), packet, now, offset)
    {
      if |packet.data| < 5 {
        return;
      }
      var deviceEpoch := packet.GetInt(1, 4);
      if deviceEpoch == 0 {
        return;
      }
      var delta := deviceEpoch + offset - now / 1000;
      if Clock.Abs(delta) <= Clock.CLOCK_SKEW_THRESHOLD {
        timeDelta := 0;
        return;
      }
      if Clock.Abs(delta - timeDelta) > 60 {
        timeDelta := Clock.CeilMinute(delta);
      }
    }

    method HandleChargeRecord(packet: DataPacket)
      requires Valid() && packet.command in {CURRENT_CHARGE_RECORD_EVENT, UPLOAD_LOCAL_CHARGE_RECORD_EVENT}
      modifies this`sent
      ensures sent == old(sent) + OutgoingReply(packet)
    {
      var record := ParseRecord(packet.data, 0);
      if record.None? {
        return;
      }
      if packet.command == CURRENT_CHARGE_RECORD_EVENT {
        SendCommand(CURRENT_CHARGE_RECORD_RESPONSE, BuildRecordAck(packet.data));
      } else {
        SendCommand(UPLOAD_LOCAL_CHARGE_RECORD_RESPONSE, BuildRecordAck(packet.data));
      }
    }

    method HandleHistoryRecord(packet: DataPacket)
      requires packet.command == HISTORY_RECORD_EVENT
      modifies this`history
      ensures history == HistoryAfter(old(history), packet)
    {
      if history.None? || |packet.data| < 9 {
        return;
      }
      var record := None;
      if packet.GetInt(8, 1) == 1 {
        record := ParseRecord(packet.data, 9);
      }
      history := Some(history.value[packet.GetInt(4, 4) := record]);
    }

    /** Dispatches one routed packet. */
    method HandlePacket(packet: DataPacket, now: int, offset: int)
      requires Valid()
      modifies this
      ensures View() == HandleCore(old(View()), packet, now, offset)
      ensures history == HistoryAfter(old(history), packet)
      ensures historyCount == CountAfter(old(historyCount), packet)
      ensures sent == old(sent) + OutgoingReply(packet)
      ensures Identity() == old(Identity()) && Settings() == old(Settings())
    {
      if IsSessionCommand(packet.command) {
        HandleSessionPacket(packet, now);
      } else {
        HandleOtherPacket(packet, now, offset);
      }
    }

    /** The packets that leave the session alone. */
    method HandleOtherPacket(packet: DataPacket, now: int, offset: int)
      requires Valid() && !IsSessionCommand(packet.command)
      modifies this`lastAlive, this`timeDelta, this`info, this`plan, this`status, this`chargingStatus,
               this`history, this`historyCount, this`sent
      ensures View() == HandleCore(old(View()), packet, now, offset)
      ensures history == HistoryAfter(old(history), packet)
      ensures historyCount == CountAfter(old(historyCount), packet)
      ensures sent == old(sent) + OutgoingReply(packet)
    {
      if IsRecordCommand(packet.command) {
        HandleRecordPacket(packet, now, offset);
      } else {
        HandleReport(packet, now);
      }
    }

    /** The packets that decide the session. */
    method HandleSessionPacket(packet: DataPacket, now: int)
      requires Valid() && IsSessionCommand(packet.command)
      modifies this`lastAlive, this`lastHeading, this`authenticated, this`loginFuture, this`autoLoginTask,
               this`loginTasks, this`info, this`sent
      ensures Session() == S.HandlePacket(old(Session()), packet.command, now)
      ensures info == InfoAfter(old(info), packet)
      ensures sent == old(sent) + OutgoingReply(packet)
    {
      var cmd := packet.command;
      if cmd == HEADING_EVENT {
        lastAlive := Some(now);
        lastHeading := Some(now);
        SendCommand(HEADING_RESPONSE, []);
      } else if cmd == LOGIN_SUCCESS_EVENT {
        UpdateDeviceInfo(packet.data);
        SendCommand(LOGIN_CONFIRM_RESPONSE, []);
        HandleLoginSuccess(now);
      } else if cmd == LOGIN_EVENT {
        UpdateDeviceInfo(packet.data);
        HandleAnnouncement(now);
      } else {
        HandlePasswordError(now);
      }
    }

    /** An announcement: a charger without a client, so a login is due unless one was just tried. */
    method HandleAnnouncement(now: int)
      modifies this`autoLoginTask, this`loginTasks
      ensures Session() == S.HandlePacket(old(Session()), LOGIN_EVENT, now)
    {
      if password != "" && !S.IsReceiving(Session(), now) && S.MayAttemptLogin(Session(), now) {
        autoLoginTask := Some(|loginTasks|);
        loginTasks := loginTasks + [S.Created];
      }
    }

    method HandleLoginSuccess(now: int)
      modifies this`lastAlive, this`authenticated, this`lastHeading, this`loginFuture
      ensures Session() == S.HandlePacket(old(Session()), LOGIN_SUCCESS_EVENT, now)
    {
      lastAlive := Some(now);
      authenticated := true;
      lastHeading := Some(now);
      ResolveLogin(true);
    }

    method HandlePasswordError(now: int)
      modifies this`authenticated, this`lastAlive, this`lastHeading, this`loginFuture
      ensures Session() == S.HandlePacket(old(Session()), PASSWORD_ERROR_EVENT, now)
    {
      authenticated := false;
      lastAlive := None;
      lastHeading := None;
      ResolveLogin(false);
    }

    method HandleStatus(packet: DataPacket)
      requires Valid() && packet.command in {CURRENT_STATUS_EVENT, STATUS_EVENT}
      modifies this`status, this`sent
      ensures status == StatusAfter(old(status), packet)
      ensures sent == old(sent) + OutgoingReply(packet)
    {
      if |packet.data| >= 25 {
        status := Some(packet.data);
      }
      if packet.command == CURRENT_STATUS_EVENT {
        SendCommand(CURRENT_STATUS_RESPONSE, []);
      }
    }

    method HandleChargingStatus(packet: DataPacket)
      requires Valid() && packet.command in {CURRENT_CHARGING_STATUS_EVENT, CHARGING_STATUS_EVENT}
      modifies this`chargingStatus, this`sent
      ensures chargingStatus == ChargingAfter(old(chargingStatus), packet)
      ensures sent == old(sent) + OutgoingReply(packet)
    {
      if |packet.data| >= 74 {
        chargingStatus := Some(packet.data);
      }
      if packet.command == CURRENT_CHARGING_STATUS_EVENT {
        SendCommand(CURRENT_CHARGING_STATUS_RESPONSE, [0]);
      }
    }

    /** The packets about the clock and the records. */
    method HandleRecordPacket(packet: DataPacket, now: int, offset: int)
      requires Valid() && IsRecordCommand(packet.command)
      modifies this`lastAlive, this`timeDelta, this`history, this`historyCount, this`sent
      ensures Session() == S.HandlePacket(old(Session()), packet.command, now)
      ensures timeDelta == DeltaAfter(old(timeDelta), packet, now, offset)
      ensures history == HistoryAfter(old(history), packet)
      ensures historyCount == CountAfter(old(historyCount), packet)
      ensures sent == old(sent) + OutgoingReply(packet)
    {
      lastAlive := Some(now);
      var cmd := packet.command;
      if cmd == SYSTEM_TIME_EVENT {
        HandleSystemTime(packet, now, offset);
      } else if cmd == CURRENT_CHARGE_RECORD_EVENT || cmd == UPLOAD_LOCAL_CHARGE_RECORD_EVENT {
        HandleChargeRecord(packet);
      } else if cmd == HISTORY_COUNT_EVENT {
        if historyCount == Some(None) && |packet.data| >= 5 {
          historyCount := Some(Some(packet.GetInt(1, 4)));
        }
      } else {
        HandleHistoryRecord(packet);
      }
    }

    /** The packets that report a state or a setting; what is left is only logged. */
    method HandleReport(packet: DataPacket, now: int)
      requires Valid() && !IsSessionCommand(packet.command) && !IsRecordCommand(packet.command)
      modifies this`lastAlive, this`info, this`plan, this`status, this`chargingStatus, this`sent
      ensures Session() == S.HandlePacket(old(Session()), packet.command, now)
      ensures info == InfoAfter(old(info), packet)
      ensures plan == PlanAfter(old(plan), packet)
      ensures status == StatusAfter(old(status), packet)
      ensures chargingStatus == ChargingAfter(old(chargingStatus), packet)
      ensures sent == old(sent) + OutgoingReply(packet)
    {
      lastAlive := Some(now);
      var cmd := packet.command;
      if cmd == CURRENT_STATUS_EVENT || cmd == STATUS_EVENT {
        HandleStatus(packet);
      } else if cmd == CURRENT_CHARGING_STATUS_EVENT || cmd == CHARGING_STATUS_EVENT {
        HandleChargingStatus(packet);
      } else {
        HandleSetting(packet);
      }
    }

    /** Replies about a setting. */
    method HandleSetting(packet: DataPacket)
      requires !IsSessionCommand(packet.command)
      modifies this`info, this`plan
      ensures info == InfoAfter(old(info), packet)
      ensures plan == PlanAfter(old(plan), packet)
    {
      var cmd := packet.command;
      if cmd == NICKNAME_EVENT {
        if info.Some? {
          info := Some(info.value.(nickname := UpToZero(Slice(packet.data, 1, |packet.data|))));
        }
      } else if cmd == OUTPUT_AMPERAGE_EVENT {
        if info.Some? {
          info := Some(info.value.(configuredAmps := packet.GetInt(1, 1)));
        }
      } else if cmd == LANGUAGE_EVENT {
        if |packet.data| >= 2 && info.Some? {
          var code := packet.GetInt(1, 1);
          info := Some(info.value.(language := Some(if 1 <= code <= 9 then code else LANGUAGE_UNKNOWN)));
        }
      } else if cmd == WEEKLY_PLAN_EVENT {
        var reading := ParseWeeklyPlan(packet.data);
        if reading.PlanRead? {
          plan := Some(reading.plan);
        }
      }
    }

    // Logging in

    /** The start of a login in task t, up to its first wait. */
    method BeginLogin(t: nat, now: int)
      requires Valid() && t < |loginTasks|
      modifies this`loginLocked, this`lastLoginAttempt, this`loginFuture, this`loginTasks, this`sent
      ensures Session() == S.Begin(old(Session()), t, now)
      ensures sent == old(sent) + if old(loginLocked) then [] else [Outgoing(Request(LOGIN_REQUEST, []))]
    {
      if loginLocked {
        loginTasks := loginTasks[t := S.Finished(S.Busy(S.IsReceiving(Session(), now)))];
        return;
      }
      loginLocked := true;
      lastLoginAttempt := Some(now);
      loginFuture := Some(S.Unresolved);
      loginTasks := loginTasks[t := S.Waiting(1, now + S.LOGIN_RETRY_INTERVAL, false, false)];
      SendCommand(LOGIN_REQUEST, []);
    }

    /** The application calls `login`. */
    method Login(now: int) returns (t: nat)
      requires Valid()
      modifies this`loginLocked, this`lastLoginAttempt, this`loginFuture, this`loginTasks, this`sent
      ensures t == |old(loginTasks)|
      ensures Session() == S.Step(old(Session()), S.Login, now)
      ensures sent == old(sent) + if old(loginLocked) then [] else [Outgoing(Request(LOGIN_REQUEST, []))]
    {
      t := |loginTasks|;
      loginTasks := loginTasks + [S.Created];
      BeginLogin(t, now);
    }

    /** An automatic login runs for the first time. */
    method StartLogin(t: nat, now: int)
      requires Valid() && t < |loginTasks| && loginTasks[t].Created?
      modifies this`loginLocked, this`lastLoginAttempt, this`loginFuture, this`loginTasks, this`sent
      ensures Session() == S.Step(old(Session()), S.Start(t), now)
      ensures sent == old(sent) + if old(loginLocked) then [] else [Outgoing(Request(LOGIN_REQUEST, []))]
    {
      BeginLogin(t, now);
    }

    /** The timer of a waiting login fires. */
    method ExpireLogin(t: nat, now: int)
      requires t < |loginTasks| && loginTasks[t].Waiting? && now >= loginTasks[t].deadline
      modifies this`loginTasks
      ensures Session() == S.Step(old(Session()), S.Expire(t), now)
    {
      loginTasks := loginTasks[t := loginTasks[t].(expired := true)];
    }

    method FinishLogin(t: nat, outcome: S.Outcome)
      requires t < |loginTasks|
      modifies this`loginLocked, this`loginFuture, this`loginTasks
      ensures Session() == S.Finish(old(Session()), t, outcome)
    {
      loginFuture := None;
      loginLocked := false;
      loginTasks := loginTasks[t := S.Finished(outcome)];
    }

    method RequestEssentials(now: int, offset: int)
      requires Valid() && InEpoch(now, offset)
      modifies this`sent
      ensures sent == old(sent) + OutgoingAll(Essentials(SetTime(now, offset)))
    {
      ghost var requests := Essentials(SetTime(now, offset));
      SendCommand(SYSTEM_TIME_REQUEST, [ACTION_SET] + U32(Clock.Encode(now / 1000, offset, timeDelta, false)));
      SendCommand(NICKNAME_REQUEST, [ACTION_GET]);
      SendCommand(OUTPUT_AMPERAGE_REQUEST, [ACTION_GET]);
      SendCommand(LANGUAGE_REQUEST, LANGUAGE_GET);
      SendCommand(WEEKLY_PLAN_REQUEST, WeeklyPlanGet());
      SendCommand(STATUS_REQUEST, []);
      SendCommand(CHARGING_STATUS_REQUEST, []);
      OutgoingSeven(requests);
    }

    lemma OutgoingSeven(requests: seq<Request>)
      requires |requests| == 7
      ensures OutgoingAll(requests)
           == [Outgoing(requests[0]), Outgoing(requests[1]), Outgoing(requests[2]), Outgoing(requests[3]),
               Outgoing(requests[4]), Outgoing(requests[5]), Outgoing(requests[6])]
    {
      assert OutgoingAll(requests[..0]) == [];
      forall k | 0 <= k < 7
        ensures OutgoingAll(requests[..k + 1]) == OutgoingAll(requests[..k]) + [Outgoing(requests[k])]
      {
        assert requests[..k + 1][..k] == requests[..k];
      }
      assert requests[..7] == requests;
    }

    /** The rest of a login whose future has a result. */
    method AnswerLogin(t: nat, success: bool, now: int, offset: int)
      requires Valid() && InEpoch(now, offset) && t < |loginTasks|
      modifies this`loginLocked, this`loginFuture, this`loginTasks, this`sent
      ensures Session() == S.Answered(old(Session()), t, success)
      ensures sent == old(sent) + if success && authenticated
                                  then OutgoingAll(Essentials(SetTime(now, offset)))
                                  else []
    {
      if success && authenticated {
        RequestEssentials(now, offset);
        FinishLogin(t, S.LoggedIn);
      } else {
        FinishLogin(t, S.NotLoggedIn);
      }
    }

    lemma OutgoingAppend(a: seq<Request>, b: seq<Request>)
      ensures OutgoingAll(a + b) == OutgoingAll(a) + OutgoingAll(b)
    {
      if |b| == 0 {
        assert a + b == a;
      } else {
        assert (a + b)[..|a + b| - 1] == a + b[..|b| - 1];
        OutgoingAppend(a, b[..|b| - 1]);
      }
    }

    /** What the log gains when a waiting login runs again. */
    lemma LoginSendsOut(s: S.State, event: S.Event, now: int, epoch: int)
      requires 0 <= epoch < 0x1_0000_0000
      ensures OutgoingAll(LoginSends(s, event, now, epoch))
           == (if S.SendsLoginRequest(s, event) then [Outgoing(Request(LOGIN_REQUEST, []))] else [])
              + (if LogsIn(s, event, now) then OutgoingAll(Essentials(epoch)) else [])
    {
      var request := Request(LOGIN_REQUEST, []);
      OutgoingAppend(if S.SendsLoginRequest(s, event) then [request] else [],
                     if LogsIn(s, event, now) then Essentials(epoch) else []);
      OutgoingOne(request);
    }

    /** What the log gains when a login whose timer fired asks again. */
    lemma RetrySendsOut(s: S.State, t: nat, now: int, epoch: int)
      requires 0 <= epoch < 0x1_0000_0000 && S.IsWaiting(s, t) && S.SendsLoginRequest(s, S.Resume(t))
      ensures OutgoingAll(LoginSends(s, S.Resume(t), now, epoch))
           == [Outgoing(Request(LOGIN_REQUEST, []))]
              + (if s.future == Some(S.Resolved(true)) && s.authenticated then OutgoingAll(Essentials(epoch)) else [])
    {
      LoginSendsOut(s, S.Resume(t), now, epoch);
      RetryLogsIn(s, t, now);
    }

    /** What it gains when a login ends without asking again. */
    lemma EndSendsOut(s: S.State, t: nat, now: int, epoch: int)
      requires 0 <= epoch < 0x1_0000_0000 && S.IsWaiting(s, t) && !S.SendsLoginRequest(s, S.Resume(t))
      ensures OutgoingAll(LoginSends(s, S.Resume(t), now, epoch))
           == if !s.tasks[t].cancelled && !s.tasks[t].expired && s.future == Some(S.Resolved(true)) && s.authenticated
              then OutgoingAll(Essentials(epoch)) else []
    {
      LoginSendsOut(s, S.Resume(t), now, epoch);
      EndLogsIn(s, t, now);
    }

    /** A login whose timer fired asks again, and ends at once if its future has a result meanwhile. */
    method RetryLogin(t: nat, now: int, offset: int)
      requires Valid() && InEpoch(now, offset) && S.IsWaiting(Session(), t)
      modifies this`loginLocked, this`loginFuture, this`loginTasks, this`sent
      ensures Session() == Retried(old(Session()), t, now)
      ensures sent == old(sent) + [Outgoing(Request(LOGIN_REQUEST, []))]
                      + if old(loginFuture) == Some(S.Resolved(true)) && authenticated
                        then OutgoingAll(Essentials(SetTime(now, offset))) else []
    {
      Rearm(t, now);
      SendCommand(LOGIN_REQUEST, []);
      if loginFuture.Some? && loginFuture.value.Resolved? {
        AnswerLogin(t, loginFuture.value.success, now, offset);
      }
    }

    method Rearm(t: nat, now: int)
      requires S.IsWaiting(Session(), t)
      modifies this`loginTasks
      ensures Session() == Rearmed(old(Session()), t, now)
    {
      loginTasks := loginTasks[t := S.Waiting(loginTasks[t].attempt + 1, now + S.LOGIN_RETRY_INTERVAL, false, false)];
    }

    /** A waiting login runs again: cancelled, timed out or answered. */
    method ResumeLogin(t: nat, now: int, offset: int)
      requires Valid() && InEpoch(now, offset) && S.IsWaiting(Session(), t)
      modifies this`loginLocked, this`loginFuture, this`loginTasks, this`sent
      ensures Session() == S.Wake(old(Session()), t, now)
      ensures sent == old(sent) + OutgoingAll(LoginSends(old(Session()), S.Resume(t), now,
                                                         SetTime(now, offset)))
    {
      ghost var s, epoch := Session(), SetTime(now, offset);
      ghost var sends := OutgoingAll(LoginSends(s, S.Resume(t), now, epoch));
      if loginTasks[t].expired && !loginTasks[t].cancelled && loginTasks[t].attempt < S.LOGIN_ATTEMPTS {
        RetrySendsOut(s, t, now, epoch);
        RetryWakes(s, t, now);
        RetryLogin(t, now, offset);
        assert sent == old(sent) + sends;
      } else {
        EndSendsOut(s, t, now, epoch);
        EndLogin(t, now, offset);
        assert sent == old(sent) + sends;
      }
    }

    /** A login woken with no request left to send. */
    method EndLogin(t: nat, now: int, offset: int)
      requires Valid() && InEpoch(now, offset) && S.IsWaiting(Session(), t)
      requires !S.SendsLoginRequest(Session(), S.Resume(t))
      modifies this`loginLocked, this`loginFuture, this`loginTasks, this`sent
      ensures Session() == S.Wake(old(Session()), t, now)
      ensures sent == old(sent) + if old(Answers(t)) && authenticated
                                  then OutgoingAll(Essentials(SetTime(now, offset)))
                                  else []
    {
      if loginTasks[t].cancelled {
        FinishLogin(t, S.Cancelled);
      } else if loginTasks[t].expired {
        FinishLogin(t, S.NotLoggedIn);
      } else if loginFuture.Some? && loginFuture.value.Resolved? {
        AnswerLogin(t, loginFuture.value.success, now, offset);
      }
    }

    /** A login is woken by a success. */
    predicate Answers(t: nat)
      requires t < |loginTasks|
      reads this`loginTasks, this`loginFuture
    {
      && loginTasks[t].Waiting? && !loginTasks[t].cancelled && !loginTasks[t].expired
      && loginFuture == Some(S.Resolved(true))
    }

    lemma OutgoingOne(request: Request)
      ensures OutgoingAll([request]) == [Outgoing(request)]
    {
      assert [request][..0] == [];
    }

    /** A login is cancelled: over if it never ran, else ended at its next turn. */
    method CancelTask(t: nat)
      requires t < |loginTasks|
      modifies this`loginTasks
      ensures Session() == S.CancelTask(old(Session()), t)
    {
      match loginTasks[t] {
        case Created => loginTasks := loginTasks[t := S.Finished(S.Cancelled)];
        case Waiting(_, _, _, _) => loginTasks := loginTasks[t := loginTasks[t].(cancelled := true)];
        case Finished(_) =>
      }
    }

    /** Cancels background work. */
    method Close()
      modifies this`authenticated, this`loginTasks, this`timers
      ensures Session() == S.CloseDevice(old(Session()))
      ensures Settings() == R.CancelAll(old(Settings()))
    {
      authenticated := false;
      if autoLoginTask.Some? && autoLoginTask.value < |loginTasks| {
        CancelTask(autoLoginTask.value);
      }
      CancelTimers();
    }

    method CancelTimers()
      modifies this`timers
      ensures Settings() == R.CancelAll(old(Settings()))
    {
      ghost var before := Settings();
      CancelsAll(before, timers);
      for t := 0 to |timers|
        invariant |timers| == |before.timers| && Cancelling(before, timers, t)
      {
        CancelsNext(before, timers, t);
        timers := CancelRemembered(timers, rereads, t);
      }
      CancelsAll(before, timers);
    }

    // Settings

    method RereadLater(cmd: Command, now: int)
      modifies this`timers, this`rereads
      ensures Settings() == R.RereadLater(old(Settings()), cmd, now)
    {
      if cmd in rereads {
        timers := R.Cancel(timers, rereads[cmd]);
      }
      rereads := rereads[cmd := |timers|];
      timers := timers + [R.Timer(cmd, now + R.SETTING_REREAD_DELAY, R.Armed)];
    }

    /** A timer of a setting goes off. */
    method FireReread(t: nat, now: int)
      requires Valid() && R.GoesOff(Settings(), t, now)
      modifies this`timers, this`sent
      ensures Settings() == R.FireTimer(old(Settings()), t, now)
      ensures sent == old(sent) + [Outgoing(Request(old(timers[t].cmd), RereadPayload(old(timers[t].cmd))))]
    {
      SendCommand(timers[t].cmd, RereadPayload(timers[t].cmd));
      timers := timers[t := timers[t].(mode := R.Fired)];
    }

    method SetLanguage(language: nat, now: int) returns (result: Result<(), Error>)
      requires Valid() && (1 <= language <= 9 || language == LANGUAGE_UNKNOWN)
      modifies this`timers, this`rereads, this`sent
      ensures !authenticated ==> result == Err(NotLoggedInError)
      ensures authenticated && language == LANGUAGE_UNKNOWN ==> result == Err(ValueError)
      ensures result.Err? ==> sent == old(sent) && Settings() == old(Settings())
      ensures result.Ok? ==>
                && sent == old(sent) + [Outgoing(Request(LANGUAGE_REQUEST, [ACTION_SET, language]))]
                && Settings() == R.RereadLater(old(Settings()), LANGUAGE_REQUEST, now)
      ensures result.Ok? <==> authenticated && language != LANGUAGE_UNKNOWN
    {
      if !authenticated {
        return Err(NotLoggedInError);
      }
      if language == LANGUAGE_UNKNOWN {
        return Err(ValueError);
      }
      SendCommand(LANGUAGE_REQUEST, [ACTION_SET, language]);
      RereadLater(LANGUAGE_REQUEST, now);
      return Ok(());
    }

    /** Whether every enabled day has a duration. */
    static predicate HasDurations(plan: seq<Slot>)
    {
      forall i :: 0 <= i < |plan| ==> plan[i].enabled ==> plan[i].durationMinutes != 0
    }

    method SetWeeklyPlan(plan: seq<Slot>, now: int) returns (result: Result<(), Error>)
      requires Valid() && ValidPlan(plan)
      modifies this`timers, this`rereads, this`sent
      ensures !authenticated ==> result == Err(NotLoggedInError)
      ensures authenticated && !HasDurations(plan) ==> result == Err(ValueError)
      ensures result.Err? ==> sent == old(sent) && Settings() == old(Settings())
      ensures result.Ok? ==>
                && sent == old(sent) + [Outgoing(Request(WEEKLY_PLAN_REQUEST, PlanPayload(plan)))]
                && Settings() == R.RereadLater(old(Settings()), WEEKLY_PLAN_REQUEST, now)
      ensures result.Ok? <==> authenticated && HasDurations(plan)
    {
      if !authenticated {
        return Err(NotLoggedInError);
      }
      for i := 0 to |plan|
        invariant HasDurations(plan[..i])
      {
        if plan[i].enabled && plan[i].durationMinutes == 0 {
          assert !HasDurations(plan);
          return Err(ValueError);
        }
      }
      assert plan[..|plan|] == plan;
      var payload := BuildWeeklyPlanPayload(plan);
      SendCommand(WEEKLY_PLAN_REQUEST, payload);
      RereadLater(WEEKLY_PLAN_REQUEST, now);
      return Ok(());
    }

    // Reading the history

    /** What reading the history works on. */
    function ReaderView(): Reader
      reads this`authenticated, this`lastAlive, this`lastHeading, this`lastLoginAttempt, this`loginLocked,
            this`loginFuture, this`autoLoginTask, this`loginTasks,
            this`timeDelta, this`info, this`plan, this`status, this`chargingStatus,
            this`history, this`historyCount, this`sent
    {
      Reader(View(), history, historyCount, Asked(sent))
    }

    /** One packet handled while a coroutine waits. */
    method HandleArrival(arrival: Arrival, offset: int)
      requires Valid()
      modifies this
      ensures ReaderView() == Handle(old(ReaderView()), arrival, offset)
      ensures Identity() == old(Identity()) && Settings() == old(Settings())
    {
      HandlePacket(arrival.packet, arrival.at, offset);
      AskedAppend(old(sent), old(OutgoingReply(arrival.packet)));
    }

    /** The packets handled while a coroutine waits. */
    method HandleBatch(arrivals: seq<Arrival>, offset: int)
      requires Valid()
      modifies this
      ensures ReaderView() == Pump(old(ReaderView()), arrivals, offset)
      ensures Identity() == old(Identity()) && Settings() == old(Settings())
    {
      ghost var before := ReaderView();
      for i := 0 to |arrivals|
        invariant ReaderView() == Pump(before, arrivals[..i], offset)
        invariant Identity() == old(Identity()) && Settings() == old(Settings())
      {
        HandleArrival(arrivals[i], offset);
        assert arrivals[..i + 1][..i] == arrivals[..i];
      }
      assert arrivals[..|arrivals|] == arrivals;
    }

    /** A fresh future, and the request whose reply resolves it. */
    method AskCount()
      requires Valid()
      modifies this`historyCount, this`sent
      ensures ReaderView() == old(ReaderView()).(count := Some(None))
    {
      historyCount := Some(None);
      SendCommand(HISTORY_COUNT_REQUEST, [1]);
      AskedAppend(old(sent), [Outgoing(Request(HISTORY_COUNT_REQUEST, [1]))]);
    }

    /** Asks for the capacity of the ring and waits for the answer once. */
    method AskCapacity(wait: seq<Arrival>, offset: int) returns (count: Option<nat>)
      requires Valid() && historyCount.None?
      modifies this
      ensures count == FirstCount(wait)
      ensures historyCount.None? && ReaderView() == Pump(old(ReaderView()), wait, offset)
      ensures Identity() == old(Identity()) && Settings() == old(Settings())
    {
      ghost var before := ReaderView();
      AskCount();
      HandleBatch(wait, offset);
      PumpCount(before, wait, offset);
      count := historyCount.value;
      historyCount := None;
    }

    /** Asks for the capacity of the ring, up to four times; `waits` is what each wait handles. */
    method ReadHistoryCapacity(waits: seq<seq<Arrival>>, offset: int) returns (capacity: Option<nat>, next: nat)
      requires Valid() && historyCount.None?
      modifies this
      ensures (capacity, next) == FindCapacity(waits, 0, HISTORY_PASSES)
      ensures historyCount.None? && ReaderView() == Pump(old(ReaderView()), Handled(waits, 0, next), offset)
      ensures Identity() == old(Identity()) && Settings() == old(Settings())
    {
      ghost var before := ReaderView();
      next := 0;
      capacity := None;
      while next < HISTORY_PASSES && capacity.None?
        invariant next <= HISTORY_PASSES && historyCount.None?
        invariant FindCapacity(waits, 0, HISTORY_PASSES)
               == if capacity.Some? then (capacity, next) else FindCapacity(waits, next, HISTORY_PASSES - next)
        invariant ReaderView() == Pump(before, Handled(waits, 0, next), offset)
        invariant Identity() == old(Identity()) && Settings() == old(Settings())
        decreases HISTORY_PASSES - next, capacity.None?
      {
        PumpMore(before, Handled(waits, 0, next), Batch(waits, next), offset);
        capacity := AskCapacity(Batch(waits, next), offset);
        next := next + 1;
      }
    }

    /** Asks for one slot and waits. */
    method AskSlot(index: nat, wait: seq<Arrival>, offset: int)
      requires Valid() && index < 0x1_0000_0000
      modifies this
      ensures ReaderView() == AskOne(old(ReaderView()), index, wait, offset)
      ensures Identity() == old(Identity()) && Settings() == old(Settings())
    {
      var payload := [1] + U32(index);
      assert Slice(payload, 1, 5) == U32(index);
      SendCommand(HISTORY_RECORD_REQUEST, payload);
      AskedAppend(old(sent), [Outgoing(Request(HISTORY_RECORD_REQUEST, payload))]);
      assert [Outgoing(Request(HISTORY_RECORD_REQUEST, payload))][..0] == [];
      HandleBatch(wait, offset);
    }

    /** One pass: asks for every missing slot, waiting after each request and once more at the end. */
    method AskMissing(missing: seq<nat>, waits: seq<seq<Arrival>>, k: nat, offset: int)
      requires Valid() && AreWords(missing)
      modifies this
      ensures ReaderView() == AskPassed(old(ReaderView()), missing, waits, k, k + |missing| + 1, offset)
      ensures Identity() == old(Identity()) && Settings() == old(Settings())
    {
      ghost var before := ReaderView();
      for j := 0 to |missing|
        invariant ReaderView() == AskEach(before, missing[..j], waits, k, offset)
        invariant Identity() == old(Identity()) && Settings() == old(Settings())
      {
        AskSlot(missing[j], Batch(waits, k + j), offset);
        assert missing[..j + 1][..j] == missing[..j];
      }
      assert missing[..|missing|] == missing;
      HandleBatch(Batch(waits, k + |missing|), offset);
      AskEachPumps(before, missing, waits, k, k + |missing|, offset);
      PumpMore(before.(asked := before.asked + missing), Handled(waits, k, k + |missing|),
               Batch(waits, k + |missing|), offset);
    }

    /** A read that began with `before` stands at r: its answers are the noted ones, and its waits were handled. */
    ghost predicate StandsAt(before: Reader, r: Reading, waits: seq<seq<Arrival>>, start: nat, offset: int)
      reads this`authenticated, this`lastAlive, this`lastHeading, this`lastLoginAttempt, this`loginLocked,
            this`loginFuture, this`autoLoginTask, this`loginTasks,
            this`timeDelta, this`info, this`plan, this`status, this`chargingStatus,
            this`history, this`historyCount, this`sent
    {
      && history == Some(r.slots) && AreWords(r.missing)
      && Pumped(before, ReaderView(), waits, start, r.next, r.asked, offset)
    }

    /** The passes of a read, once the capacity is known. */
    method ReadSlots(capacity: nat, waits: seq<seq<Arrival>>, start: nat, offset: int)
      returns (missing: seq<nat>, ghost r: Reading)
      requires Valid() && capacity < 0x1_0000_0000
      modifies this
      ensures r == ReadAll(capacity, waits, start) && missing == r.missing
      ensures StandsAt(old(ReaderView()).(history := Some(map[])), r, waits, start, offset)
      ensures Identity() == old(Identity()) && Settings() == old(Settings())
    {
      ghost var before := StartReading(capacity, waits, start, offset);
      r := Started(capacity, start);
      ghost var readings := [r];
      missing := AllSlots(capacity);
      var next := start;
      var pass := 0;
      while pass < HISTORY_PASSES && (pass == 0 || |missing| > 0)
        invariant pass <= HISTORY_PASSES && missing == r.missing && next == r.next
        invariant Ongoing(readings, waits, capacity, start, r, pass)
        invariant StandsAt(before, r, waits, start, offset)
        invariant Identity() == old(Identity()) && Settings() == old(Settings())
        decreases HISTORY_PASSES - pass
      {
        readings := OnePassMore(readings, waits, capacity, start, r, pass);
        next := AskPass(before, r, waits, start, missing, next, offset);
        missing := Unanswered(missing, history.value);
        r := Pass(r, waits);
        pass := pass + 1;
      }
      PassesRead(readings, waits, capacity, start, r, pass);
    }

    /** Reads the slots of a ring of known capacity, and ends the read. */
    method ReadRing(capacity: nat, waits: seq<seq<Arrival>>, start: nat, offset: int)
      returns (result: ChargeHistory, ghost r: Reading)
      requires Valid() && capacity < 0x1_0000_0000
      modifies this
      ensures r == ReadAll(capacity, waits, start) && start <= r.next
      ensures result == ChargeHistory(RecordsOf(r.slots), r.missing)
      ensures ReaderView()
           == Pump(old(ReaderView()).(history := Some(map[])), Handled(waits, start, r.next), offset)
              .(asked := old(ReaderView()).asked + Flat(r.asked), history := None)
      ensures Identity() == old(Identity()) && Settings() == old(Settings())
    {
      var missing;
      missing, r := ReadSlots(capacity, waits, start, offset);
      result := ChargeHistory(RecordsOf(history.value), missing);
      history := None;
    }

    method StartReading(ghost capacity: nat, ghost waits: seq<seq<Arrival>>, ghost start: nat, ghost offset: int)
      returns (ghost before: Reader)
      requires Valid() && capacity < 0x1_0000_0000
      modifies this`history
      ensures before == old(ReaderView()).(history := Some(map[]))
      ensures StandsAt(before, Started(capacity, start), waits, start, offset)
    {
      history := Some(map[]);
      before := ReaderView();
      assert before.asked + [] == before.asked;
      SlotsAreWords(capacity);
    }

    /** One pass of a read that stands at r. */
    method AskPass(ghost before: Reader, ghost r: Reading, waits: seq<seq<Arrival>>, ghost start: nat,
                   missing: seq<nat>, k: nat, offset: int)
      returns (next: nat)
      requires Valid() && StandsAt(before, r, waits, start, offset) && missing == r.missing && k == r.next
      modifies this
      ensures next == Pass(r, waits).next
      ensures StandsAt(before, Pass(r, waits), waits, start, offset)
      ensures Identity() == old(Identity()) && Settings() == old(Settings())
    {
      ghost var now := ReaderView();
      next := k + |missing| + 1;
      AskMissing(missing, waits, k, offset);
      PassStands(before, now, ReaderView(), r, waits, start, offset);
    }

    /** Reads every slot of the charger's history ring. `waits` is what each of its waits handles; the
        ghost results are the slots each pass asked for and the number of waits used. */
    method ReadHistory(waits: seq<seq<Arrival>>, offset: int)
      returns (result: Result<ChargeHistory, Error>, ghost asked: seq<seq<nat>>, ghost used: nat)
      requires Valid() && history.None? && historyCount.None?
      modifies this
      ensures history.None? && historyCount.None?
      ensures Identity() == old(Identity()) && Settings() == old(Settings())
      ensures View() == HandleAll(old(View()), Handled(waits, 0, used), offset)
      ensures Asked(sent) == old(Asked(sent)) + Flat(asked)
      ensures AsksSeldom(asked)
      ensures !old(authenticated) ==> result == Err(NotLoggedInError) && used == 0 && asked == []
      ensures old(authenticated) ==>
                var (capacity, k) := FindCapacity(waits, 0, HISTORY_PASSES);
                match capacity
                case None => result == Err(TimeoutError) && used == k && asked == []
                case Some(count) =>
                  var r := ReadAll(count, waits, k);
                  && result == Ok(ChargeHistory(RecordsOf(r.slots), r.missing))
                  && used == r.next && asked == r.asked
    {
      asked, used := [], 0;
      if !authenticated {
        return Err(NotLoggedInError), asked, used;
      }
      var capacity, next := ReadHistoryCapacity(waits, offset);
      PumpParts(old(ReaderView()), Handled(waits, 0, next), offset);
      CountStaysNone(Handled(waits, 0, next));
      if capacity.None? {
        return Err(TimeoutError), asked, next;
      }
      FoundIsWord(waits, 0, HISTORY_PASSES);
      var records, r := ReadRing(capacity.value, waits, next, offset);
      asked, used := r.asked, r.next;
      ReadPumped(old(ReaderView()), waits, next, used, offset);
      HistoryRequests(capacity.value, waits, next);
      result := Ok(records);
    }
  }
}
