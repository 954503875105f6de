/** The charger the client talks to, as the repository's own stand-in plays it (evsemaster/testing.py). */
module Charger {
  import opened Wrappers
  import opened ByteStrings
  import opened Packet
  import opened Protocol
  import opened Payloads
  import opened History
  import opened Damage
  import Router
  import D = Device

  /** What a charger is made with; datagrams leave it as it is. */
  datatype Setup = Setup(
    serial: string,
    password: string,
    info: bytes,
    status: bytes,
    charging: bytes,
    nickname: bytes,
    history: Ring,
    capacity: nat,
    ignored: set<Command>,
    dropAlways: set<nat>)

  /** What datagrams change. */
  datatype State = State(
    client: Option<Router.Address>,
    received: seq<Command>,
    hasSession: bool,
    language: byte,
    weeklyPlan: bytes,
    ampsSet: seq<byte>,
    dropOnce: set<nat>)

  /** Every slot off, as a charger reports a plan nobody set. */
  function NoPlan(days: nat): (plan: bytes)
    ensures |plan| == 9 * days
  {
    if days == 0 then [] else [1, 0, 0, 0, 0, 0, 0, 0, 0] + NoPlan(days - 1)
  }

  datatype Response = Response(cmd: Command, payload: bytes)

  /** What a datagram leads to: the state after it, and the answer. */
  datatype Turn = Turn(state: State, reply: Option<Response>)

  /** The payload of a datagram, `data[21:-4]`. */
  function PayloadOf(data: bytes): bytes
  {
    Slice(data, 21, if |data| < 4 then 0 else |data| - 4)
  }

  /** The command of a datagram, or None where reading it raises. */
  function CommandOf(data: bytes): Option<Command>
  {
    var field := Slice(data, 19, 21);
    if |field| == 2 && IsCommand(FromBytes(field)) then Some(FromBytes(field)) else None
  }

  predicate Continues(b: byte)
  {
    0x80 <= b < 0xC0
  }

  /** The bytes begin with a well-formed UTF-8 sequence of two to four bytes (table 3-7 of the Unicode Standard). */
  predicate StartsWide(b: bytes)
  {
    || (|b| >= 2 && 0xC2 <= b[0] < 0xE0 && Continues(b[1]))
    || (|b| >= 3 && 0xE0 <= b[0] < 0xF0 && Continues(b[1]) && Continues(b[2])
        && (b[0] == 0xE0 ==> b[1] >= 0xA0) && (b[0] == 0xED ==> b[1] < 0xA0))
    || (|b| >= 4 && 0xF0 <= b[0] < 0xF5 && Continues(b[1]) && Continues(b[2]) && Continues(b[3])
        && (b[0] == 0xF0 ==> b[1] >= 0x90) && (b[0] == 0xF4 ==> b[1] < 0x90))
  }

  /** The text of some bytes read as UTF-8, bytes that are none ignored; None if a character of it is not ASCII. */
  function Decoded(b: bytes): (text: Option<string>)
    ensures text.Some? ==> IsAscii(text.value)
  {
    if |b| == 0 then Some("")
    else if b[0] < 0x80 then
      var rest := Decoded(b[1..]);
      if rest.Some? then Some([b[0] as char] + rest.value) else None
    else if StartsWide(b) then None
    else Decoded(b[1..])
  }

  /** Whether a datagram carries the charger's password. */
  predicate RightPassword(u: Setup, data: bytes)
  {
    Decoded(Slice(data, 13, 19)) == Some(u.password)
  }

  /** The client's password is the charger's: its six bytes are. */
  predicate SamePassword(u: Setup, password: string)
    requires IsAscii(password)
  {
    IsAscii(u.password) && PasswordField(Some(password)) == Ascii(u.password)
  }

  function AnswerLogin(u: Setup, data: bytes): Response
  {
    if !RightPassword(u, data) then Response(PASSWORD_ERROR_EVENT, []) else Response(LOGIN_SUCCESS_EVENT, u.info)
  }

  lemma {:induction false} DecodedAscii(s: string)
    requires IsAscii(s)
    ensures Decoded(Ascii(s)) == Some(s)
  {
    if |s| == 0 {
    } else {
      DecodedAscii(s[1..]);
      assert Ascii(s)[1..] == Ascii(s[1..]);
      assert s == [s[0]] + s[1..];
    }
  }

  /** A password the client sends reads as some text exactly if its six bytes are that text. */
  lemma PasswordRead(password: string, text: string)
    requires IsAscii(password)
    ensures Decoded(PasswordField(Some(password))) == Some(text)
       <==> IsAscii(text) && PasswordField(Some(password)) == Ascii(text)
  {
    var field := PasswordField(Some(password));
    var padded := seq(6, i requires 0 <= i < 6 => field[i] as char);
    assert field == Ascii(padded);
    DecodedAscii(padded);
    if IsAscii(text) {
      DecodedAscii(text);
    }
  }

  /** An empty payload, or a set without a language, raises and is not answered. */
  function AnswerLanguage(s: State, payload: bytes): Turn
  {
    if |payload| == 0 || (payload[0] == ACTION_SET && |payload| == 1) then Turn(s, None)
    else
      var language := if payload[0] == ACTION_SET then payload[1] else s.language;
      Turn(s.(language := language), Some(Response(LANGUAGE_EVENT, [payload[0], language])))
  }

  function AnswerPlan(s: State, payload: bytes): Turn
  {
    var plan := if Slice(payload, 0, 1) == [ACTION_SET] then Slice(payload, 1, 64) else s.weeklyPlan;
    Turn(s.(weeklyPlan := plan), Some(Response(WEEKLY_PLAN_EVENT, Slice(payload, 0, 1) + plan)))
  }

  function AnswerAmperage(s: State, payload: bytes): Turn
  {
    var amps := if |payload| > 1 && payload[0] == ACTION_SET && payload[1] != 0 then s.ampsSet + [payload[1]]
                else s.ampsSet;
    Turn(s.(ampsSet := amps),
         Some(Response(OUTPUT_AMPERAGE_EVENT, [ACTION_GET, if |amps| > 0 then amps[|amps| - 1] else 16])))
  }

  /** `clock` is the epoch the charger's clock shows; one that does not fit its field raises. */
  function AnswerTime(payload: bytes, clock: int): Option<Response>
  {
    if 0 <= clock < 0x1_0000_0000
    then Some(Response(SYSTEM_TIME_EVENT, [if |payload| > 0 then payload[0] else ACTION_GET] + U32(clock)))
    else None
  }

  /** A capacity that does not fit its field raises, here and in the answer about the count. */
  function AnswerRecord(u: Setup, s: State, payload: bytes): Turn
  {
    if |payload| < 5 then Turn(s, None)
    else
      var index := FromBytes(payload[1..5]);
      FromBytesWord(payload[1..5]);
      if index in u.dropAlways then Turn(s, None)
      else if index in s.dropOnce then Turn(s.(dropOnce := s.dropOnce - {index}), None)
      else if u.capacity >= 0x1_0000_0000 then Turn(s, None)
      else Turn(s, Some(Response(HISTORY_RECORD_EVENT, RecordReply(u.history, u.capacity, index))))
  }

  /** The answers that change nothing. */
  function Report(u: Setup, cmd: Command, data: bytes, clock: int): Option<Response>
  {
    if cmd == LOGIN_REQUEST then Some(AnswerLogin(u, data))
    else if cmd == STATUS_REQUEST then Some(Response(STATUS_EVENT, u.status))
    else if cmd == CHARGING_STATUS_REQUEST then Some(Response(CHARGING_STATUS_EVENT, u.charging))
    else if cmd == SYSTEM_TIME_REQUEST then AnswerTime(PayloadOf(data), clock)
    else if cmd == NICKNAME_REQUEST then Some(Response(NICKNAME_EVENT, [ACTION_GET] + u.nickname + [0]))
    else if cmd == HISTORY_COUNT_REQUEST && u.capacity < 0x1_0000_0000 then
      Some(Response(HISTORY_COUNT_EVENT, [0] + U32(u.capacity) + U32(0) + U32(0)))
    else None
  }

  /** The answer to a command that is not ignored. */
  function Answer(u: Setup, s: State, cmd: Command, data: bytes, clock: int): Turn
  {
    if cmd == LOGIN_CONFIRM_RESPONSE then Turn(s.(hasSession := true), None)
    else if cmd == OUTPUT_AMPERAGE_REQUEST then AnswerAmperage(s, PayloadOf(data))
    else if cmd == LANGUAGE_REQUEST then AnswerLanguage(s, PayloadOf(data))
    else if cmd == WEEKLY_PLAN_REQUEST then AnswerPlan(s, PayloadOf(data))
    else if cmd == HISTORY_RECORD_REQUEST then AnswerRecord(u, s, PayloadOf(data))
    else Turn(s, Report(u, cmd, data, clock))
  }

  /** What every datagram with a command leaves behind before it is answered. */
  function Noted(s: State, from: Router.Address, cmd: Command): State
  {
    s.(client := Some(from), received := s.received + [cmd])
  }

  /** Whether the charger can build a frame: a password outside ASCII or too long a payload raises. */
  predicate CanSend(u: Setup, payload: bytes)
  {
    IsAscii(u.password) && |payload| <= MAX_PAYLOAD
  }

  /** An answer that cannot be sent is not. */
  function Sendable(u: Setup, turn: Turn): Turn
  {
    if turn.reply.Some? && !CanSend(u, turn.reply.value.payload) then turn.(reply := None) else turn
  }

  /** `datagram_received`; a datagram without a command changes only where the next answer goes. */
  function Receive(u: Setup, s: State, data: bytes, from: Router.Address, clock: int): (turn: Turn)
    ensures turn.reply.Some? ==> CanSend(u, turn.reply.value.payload)
  {
    match CommandOf(data)
    case None => Turn(s.(client := Some(from)), None)
    case Some(cmd) =>
      if cmd in u.ignored then Turn(Noted(s, from, cmd), None)
      else Sendable(u, Answer(u, Noted(s, from, cmd), cmd, data, clock))
  }

  /** A session begins exactly with a LOGIN_CONFIRM that is not ignored, and no datagram ends one; a plan kept is one
      the wire has room for. */
  lemma ReceiveKeeps(u: Setup, s: State, data: bytes, from: Router.Address, clock: int)
    ensures var turn := Receive(u, s, data, from, clock);
            && (|s.weeklyPlan| < WEEKLY_PLAN_SIZE ==> |turn.state.weeklyPlan| < WEEKLY_PLAN_SIZE)
            && (turn.state.hasSession <==> s.hasSession || (CommandOf(data) == Some(LOGIN_CONFIRM_RESPONSE)
                                                            && LOGIN_CONFIRM_RESPONSE !in u.ignored))
  {
  }

  /** The frame of an answer, in the charger's name. */
  function FrameOf(u: Setup, reply: Response): bytes
    requires CanSend(u, reply.payload)
  {
    Build(reply.cmd, Some(u.serial), Some(u.password), reply.payload)
  }

  /** The serial the charger's frames are read to come from; its own if that is one. */
  function SerialIn(u: Setup): string
  {
    Hex(SerialField(Some(u.serial)))
  }

  lemma OwnSerial(u: Setup)
    requires IsSerial(u.serial)
    ensures SerialIn(u) == u.serial
  {
    HexRoundTrip(u.serial);
    assert SerialField(Some(u.serial)) == FromHex(u.serial).value;
  }

  /** What the client reads of an answer. */
  function PacketIn(u: Setup, reply: Response): DataPacket
  {
    DataPacket(reply.cmd, SerialIn(u), reply.payload)
  }

  lemma FrameDelivered(cmd: Command, serial: Option<string>, password: Option<string>, payload: bytes)
    requires (password.Some? ==> IsAscii(password.value)) && |payload| <= MAX_PAYLOAD
    ensures Deliver(Build(cmd, serial, password, payload)) == [DataPacket(cmd, Hex(SerialField(serial)), payload)]
  {
    var f := Build(cmd, serial, password, payload);
    BuildIsFrame(cmd, serial, password, payload);
    DecodeFrame(f, []);
    assert f + [] == f;
    assert Split(f) == [f];
    assert DecodeAll([f]) == [PacketOf(f)] + DecodeAll([]);
  }

  /** An answer is delivered as what it says. */
  lemma ResponseRead(u: Setup, reply: Response)
    requires CanSend(u, reply.payload)
    ensures Deliver(FrameOf(u, reply)) == [PacketIn(u, reply)]
  {
    FrameDelivered(reply.cmd, Some(u.serial), Some(u.password), reply.payload);
  }

  /** Whatever reaches the charger, an answer that is a history record is a reply of its ring. */
  lemma RepliesFromRing(u: Setup, s: State, data: bytes, from: Router.Address, clock: int)
    ensures var reply := Receive(u, s, data, from, clock).reply;
            reply.Some? ==> FromCharger(u.history, PacketIn(u, reply.value))
  {
    if CommandOf(data) == Some(HISTORY_RECORD_REQUEST) && |PayloadOf(data)| >= 5 && u.capacity < 0x1_0000_0000 {
      FromBytesWord(PayloadOf(data)[1..5]);
    }
  }

  /** Whatever reaches the charger, an answer about the count of its records gives the capacity of its ring. */
  lemma CountsAreCapacity(u: Setup, s: State, data: bytes, from: Router.Address, clock: int)
    ensures var reply := Receive(u, s, data, from, clock).reply;
            reply.Some? && reply.value.cmd == HISTORY_COUNT_EVENT ==>
              |reply.value.payload| == 13 && PacketIn(u, reply.value).GetInt(1, 4) == u.capacity
  {
    if u.capacity < 0x1_0000_0000 {
      var payload := [0] + U32(u.capacity) + U32(0) + U32(0);
      assert Slice(payload, 1, 5) == U32(u.capacity);
    }
  }

  // What the charger makes of the client's frames

  lemma FrameHeard(cmd: Command, serial: Option<string>, password: string, payload: bytes)
    requires IsAscii(password) && |payload| <= MAX_PAYLOAD
    ensures var f := Build(cmd, serial, Some(password), payload);
            CommandOf(f) == Some(cmd) && PayloadOf(f) == payload && Slice(f, 13, 19) == PasswordField(Some(password))
  {
    BuildIsFrame(cmd, serial, Some(password), payload);
  }

  /** The client's command reaches the charger, which answers it. */
  function Told(u: Setup, s: State, cmd: Command, serial: Option<string>, password: string, payload: bytes,
                from: Router.Address, clock: int): Turn
    requires IsAscii(password) && |payload| <= MAX_PAYLOAD
  {
    Receive(u, s, Build(cmd, serial, Some(password), payload), from, clock)
  }

  /** A login is answered with success exactly if the first six bytes of the password, padded with zeros,
      are the charger's and its answer can be sent; otherwise with a password error. */
  lemma LoginAnswered(u: Setup, s: State, serial: Option<string>, password: string, from: Router.Address, clock: int)
    requires IsAscii(password) && LOGIN_REQUEST !in u.ignored
    ensures Told(u, s, LOGIN_REQUEST, serial, password, [], from, clock).reply
         == (if !IsAscii(u.password) then None
             else if !SamePassword(u, password) then Some(Response(PASSWORD_ERROR_EVENT, []))
             else if |u.info| <= MAX_PAYLOAD then Some(Response(LOGIN_SUCCESS_EVENT, u.info))
             else None)
  {
    FrameHeard(LOGIN_REQUEST, serial, password, []);
    PasswordRead(password, u.password);
  }

  lemma PlanAnswered(u: Setup, s: State, serial: Option<string>, password: string, payload: bytes,
                     from: Router.Address, clock: int)
    requires IsAscii(password) && |payload| <= MAX_PAYLOAD && WEEKLY_PLAN_REQUEST !in u.ignored
    ensures Told(u, s, WEEKLY_PLAN_REQUEST, serial, password, payload, from, clock)
         == Sendable(u, AnswerPlan(Noted(s, from, WEEKLY_PLAN_REQUEST), payload))
  {
    FrameHeard(WEEKLY_PLAN_REQUEST, serial, password, payload);
  }

  /** The client reading a plan, whatever it held before. */
  lemma PlanLearned(known: Option<seq<Slot>>, serial: string, action: byte, plan: seq<Slot>)
    requires ValidPlan(plan)
    ensures D.PlanAfter(known, DataPacket(WEEKLY_PLAN_EVENT, serial, [action] + PlanPayload(plan)[1..]))
         == Some(WholePlan(plan))
  {
    PlanRoundTrip(plan, action);
  }

  /** Setting a weekly plan: the charger keeps it, and the client reading the echo holds the plan that
      was set, without its seconds. */
  lemma SetPlanEchoesBack(u: Setup, s: State, serial: Option<string>, password: string, plan: seq<Slot>,
                          from: Router.Address, clock: int, known: Option<seq<Slot>>)
    requires IsAscii(password) && ValidPlan(plan) && WEEKLY_PLAN_REQUEST !in u.ignored
    ensures var turn := Told(u, s, WEEKLY_PLAN_REQUEST, serial, password, PlanPayload(plan), from, clock);
            && turn.state.weeklyPlan == PlanPayload(plan)[1..]
            && (turn.reply.Some? <==> IsAscii(u.password))
            && (turn.reply.Some? ==> D.PlanAfter(known, PacketIn(u, turn.reply.value)) == Some(WholePlan(plan)))
  {
    var payload := PlanPayload(plan);
    PlanAnswered(u, s, serial, password, payload, from, clock);
    FirstByte(plan);
    assert Slice(payload, 0, 1) == [ACTION_SET];
    assert Slice(payload, 1, 64) == payload[1..];
    PlanLearned(known, SerialIn(u), ACTION_SET, plan);
  }

  lemma LanguageAnswered(u: Setup, s: State, serial: Option<string>, password: string, payload: bytes,
                         from: Router.Address, clock: int)
    requires IsAscii(password) && |payload| <= MAX_PAYLOAD && LANGUAGE_REQUEST !in u.ignored
    ensures Told(u, s, LANGUAGE_REQUEST, serial, password, payload, from, clock)
         == Sendable(u, AnswerLanguage(Noted(s, from, LANGUAGE_REQUEST), payload))
  {
    FrameHeard(LANGUAGE_REQUEST, serial, password, payload);
  }

  lemma LanguageLearned(known: D.DeviceInfo, serial: string, action: byte, language: byte)
    requires 1 <= language <= 9
    ensures D.InfoAfter(Some(known), DataPacket(LANGUAGE_EVENT, serial, [action, language]))
         == Some(known.(language := Some(language)))
  {
    ByteField([action, language], 1);
  }

  /** Setting the language: the charger keeps it, and the client reading the echo shows it. */
  lemma SetLanguageEchoesBack(u: Setup, s: State, serial: Option<string>, password: string, language: byte,
                              from: Router.Address, clock: int, known: D.DeviceInfo)
    requires IsAscii(password) && 1 <= language <= 9 && LANGUAGE_REQUEST !in u.ignored
    ensures var turn := Told(u, s, LANGUAGE_REQUEST, serial, password, [ACTION_SET, language], from, clock);
            && turn.state.language == language
            && (turn.reply.Some? <==> IsAscii(u.password))
            && (turn.reply.Some? ==>
                  D.InfoAfter(Some(known), PacketIn(u, turn.reply.value))
                  == Some(known.(language := Some(language))))
  {
    LanguageAnswered(u, s, serial, password, [ACTION_SET, language], from, clock);
    LanguageLearned(known, SerialIn(u), ACTION_SET, language);
  }

  /** A datagram that sets the weekly plan. */
  predicate SetsPlan(data: bytes)
  {
    CommandOf(data) == Some(WEEKLY_PLAN_REQUEST) && Slice(PayloadOf(data), 0, 1) == [ACTION_SET]
  }

  datatype Heard = Heard(data: bytes, from: Router.Address, clock: int)

  predicate NoneSetsPlan(heard: seq<Heard>)
  {
    forall i :: 0 <= i < |heard| ==> !SetsPlan(heard[i].data)
  }

  /** A charger after a run of datagrams. */
  function ReceiveAll(u: Setup, s: State, heard: seq<Heard>): State
  {
    if |heard| == 0 then s
    else
      var n := |heard| - 1;
      Receive(u, ReceiveAll(u, s, heard[..n]), heard[n].data, heard[n].from, heard[n].clock).state
  }

  lemma PlanStaysOnce(u: Setup, s: State, data: bytes, from: Router.Address, clock: int)
    requires !SetsPlan(data)
    ensures Receive(u, s, data, from, clock).state.weeklyPlan == s.weeklyPlan
  {
  }

  lemma {:induction false} PlanStays(u: Setup, s: State, heard: seq<Heard>)
    requires NoneSetsPlan(heard)
    ensures ReceiveAll(u, s, heard).weeklyPlan == s.weeklyPlan
  {
    if |heard| == 0 {
    } else {
      var n := |heard| - 1;
      PlanStays(u, s, heard[..n]);
      PlanStaysOnce(u, ReceiveAll(u, s, heard[..n]), heard[n].data, heard[n].from, heard[n].clock);
    }
  }

  /** Reading a plan back: after a set and any datagrams that set no other plan, whatever was lost or repeated
      since, the get that follows a set brings the client the plan it set, without its seconds. */
  lemma PlanReadBack(u: Setup, s: State, serial: Option<string>, password: string, plan: seq<Slot>,
                     from: Router.Address, clock: int, between: seq<Heard>, later: int, known: Option<seq<Slot>>)
    requires IsAscii(password) && ValidPlan(plan) && WEEKLY_PLAN_REQUEST !in u.ignored
    requires NoneSetsPlan(between)
    ensures var after := Told(u, s, WEEKLY_PLAN_REQUEST, serial, password, PlanPayload(plan), from, clock).state;
            var turn := Told(u, ReceiveAll(u, after, between), WEEKLY_PLAN_REQUEST, serial, password,
                             D.WeeklyPlanGet(), from, later);
            && (turn.reply.Some? <==> IsAscii(u.password))
            && (turn.reply.Some? ==> D.PlanAfter(known, PacketIn(u, turn.reply.value)) == Some(WholePlan(plan)))
  {
    var after := Told(u, s, WEEKLY_PLAN_REQUEST, serial, password, PlanPayload(plan), from, clock).state;
    SetPlanEchoesBack(u, s, serial, password, plan, from, clock, known);
    PlanStays(u, after, between);
    var get := D.WeeklyPlanGet();
    PlanAnswered(u, ReceiveAll(u, after, between), serial, password, get, from, later);
    assert Slice(get, 0, 1) == [ACTION_GET];
    PlanLearned(known, SerialIn(u), ACTION_GET, plan);
  }

  /** A frame sent, and where to; None is the address every client listens on. */
  datatype Datagram = Datagram(frame: bytes, to: Option<Router.Address>)

  class FakeEvse {
    const setup: Setup
    var client: Option<Router.Address>
    var received: seq<Command>
    var hasSession: bool
    var language: byte
    var weeklyPlan: bytes
    var ampsSet: seq<byte>
    var dropOnce: set<nat>
    var sent: seq<Datagram>

    function View(): State
      reads this`client, this`received, this`hasSession, this`language, this`weeklyPlan, this`ampsSet, this`dropOnce
    {
      State(client, received, hasSession, language, weeklyPlan, ampsSet, dropOnce)
    }

    constructor (setup: Setup, language: byte)
      ensures this.setup == setup && sent == []
      ensures View() == State(None, [], false, language, NoPlan(7), [], {})
    {
      this.setup := setup;
      client, received, hasSession, this.language := None, [], false, language;
      weeklyPlan, ampsSet, dropOnce, sent := NoPlan(7), [], {}, [];
    }

    /** What the log of frames gains with an answer; one that cannot be sent raises. */
    function Answered(reply: Option<Response>): seq<Datagram>
      reads this`client
    {
      if reply.Some? && CanSend(setup, reply.value.payload) then [Datagram(FrameOf(setup, reply.value), client)] else []
    }

    method Send(cmd: Command, payload: bytes)
      modifies this`sent
      ensures sent == old(sent) + Answered(Some(Response(cmd, payload)))
    {
      if CanSend(setup, payload) {
        var frame := BuildPacket(cmd, Some(setup.serial), Some(setup.password), payload);
        sent := sent + [Datagram(frame, client)];
      }
    }

    /** The unsolicited broadcast of a charger without a session; it carries no password. */
    method Announce()
      modifies this`sent
      ensures sent == old(sent) + if |setup.info| > MAX_PAYLOAD then []
                                  else [Datagram(Build(LOGIN_EVENT, Some(setup.serial), Some(""), setup.info), None)]
    {
      if |setup.info| <= MAX_PAYLOAD {
        var frame := BuildPacket(LOGIN_EVENT, Some(setup.serial), Some(""), setup.info);
        sent := sent + [Datagram(frame, None)];
      }
    }

    /** One beat of the session. */
    method Beat()
      modifies this`sent
      ensures sent == old(sent) + if hasSession then Answered(Some(Response(HEADING_EVENT, []))) else []
    {
      if hasSession {
        Send(HEADING_EVENT, []);
      }
    }

    /** Forgets the client, as a charger does when it is power cycled. */
    method EndSession()
      modifies this`hasSession
      ensures View() == old(View()).(hasSession := false)
    {
      hasSession := false;
    }

    method DatagramReceived(data: bytes, from: Router.Address, clock: int)
      modifies this
      ensures var turn := Receive(setup, old(View()), data, from, clock);
              && View() == turn.state
              && sent == old(sent) + Answered(turn.reply)
    {
      client := Some(from);
      var field := Slice(data, 19, 21);
      if |field| < 2 || !IsCommand(FromBytes(field)) {
        return;
      }
      var cmd: Command := FromBytes(field);
      received := received + [cmd];
      if cmd in setup.ignored {
        return;
      }
      HandleCommand(cmd, data, clock);
    }

    method HandleCommand(cmd: Command, data: bytes, clock: int)
      modifies this`hasSession, this`language, this`weeklyPlan, this`ampsSet, this`dropOnce, this`sent
      ensures var turn := Answer(setup, old(View()), cmd, data, clock);
              && View() == turn.state
              && sent == old(sent) + Answered(turn.reply)
    {
      var payload := PayloadOf(data);
      if cmd == LOGIN_CONFIRM_RESPONSE {
        hasSession := true;
      } else if cmd == OUTPUT_AMPERAGE_REQUEST {
        HandleAmperage(payload);
      } else if cmd == LANGUAGE_REQUEST {
        HandleLanguage(payload);
      } else if cmd == WEEKLY_PLAN_REQUEST {
        HandlePlan(payload);
      } else if cmd == HISTORY_RECORD_REQUEST {
        HandleRecord(payload);
      } else {
        var reply := Report(setup, cmd, data, clock);
        if reply.Some? {
          Send(reply.value.cmd, reply.value.payload);
        }
      }
    }

    method HandleAmperage(payload: bytes)
      modifies this`ampsSet, this`sent
      ensures View() == AnswerAmperage(old(View()), payload).state
      ensures sent == old(sent) + Answered(AnswerAmperage(old(View()), payload).reply)
    {
      ghost var before := View();
      if |payload| > 1 && payload[0] == ACTION_SET && payload[1] != 0 {
        ampsSet := ampsSet + [payload[1]];
      }
      var report := [ACTION_GET, if |ampsSet| > 0 then ampsSet[|ampsSet| - 1] else 16];
      assert AnswerAmperage(before, payload) == Turn(View(), Some(Response(OUTPUT_AMPERAGE_EVENT, report)));
      Send(OUTPUT_AMPERAGE_EVENT, report);
    }

    method HandleLanguage(payload: bytes)
      modifies this`language, this`sent
      ensures View() == AnswerLanguage(old(View()), payload).state
      ensures sent == old(sent) + Answered(AnswerLanguage(old(View()), payload).reply)
    {
      if |payload| == 0 || (payload[0] == ACTION_SET && |payload| == 1) {
        return;
      }
      ghost var before := View();
      if payload[0] == ACTION_SET {
        language := payload[1];
      }
      var echo := [payload[0], language];
      assert AnswerLanguage(before, payload) == Turn(View(), Some(Response(LANGUAGE_EVENT, echo)));
      Send(LANGUAGE_EVENT, echo);
    }

    method HandlePlan(payload: bytes)
      modifies this`weeklyPlan, this`sent
      ensures View() == AnswerPlan(old(View()), payload).state
      ensures sent == old(sent) + Answered(AnswerPlan(old(View()), payload).reply)
    {
      ghost var before := View();
      var action := Slice(payload, 0, 1);
      if action == [ACTION_SET] {
        weeklyPlan := Slice(payload, 1, 64);
      }
      var echo := action + weeklyPlan;
      assert AnswerPlan(before, payload) == Turn(View(), Some(Response(WEEKLY_PLAN_EVENT, echo)));
      Send(WEEKLY_PLAN_EVENT, echo);
    }

    method HandleRecord(payload: bytes)
      modifies this`dropOnce, this`sent
      ensures View() == AnswerRecord(setup, old(View()), payload).state
      ensures var reply := AnswerRecord(setup, old(View()), payload).reply;
              sent == old(sent) + Answered(reply)
    {
      if |payload| < 5 {
        return;
      }
      var index := FromBytes(payload[1..5]);
      FromBytesWord(payload[1..5]);
      if index in setup.dropAlways {
        return;
      }
      if index in dropOnce {
        dropOnce := dropOnce - {index};
        return;
      }
      if setup.capacity < 0x1_0000_0000 {
        Send(HISTORY_RECORD_EVENT, RecordReply(setup.history, setup.capacity, index));
      }
    }
  }
}
