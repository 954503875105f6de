/** The client and the charger over a network that may lose, repeat and reorder their datagrams
    (evsemaster/device.py with evsemaster/testing.py).

    Everything ever sent stays on the way, so a datagram may arrive late, often or never. A step that is
    not enabled changes nothing. */
module Network {
  import opened Wrappers
  import opened ByteStrings
  import opened Packet
  import opened Protocol
  import opened History
  import opened Damage
  import Router
  import S = Session
  import D = Device
  import C = Charger

  /** The two ends and what is on the way: datagrams, and packets the client received but has not handled. */
  datatype World = World(
    session: S.State,
    serial: Option<string>,
    charger: C.State,
    toCharger: set<bytes>,
    toClient: set<bytes>,
    inbox: set<DataPacket>)

  type Word = x: nat | x < 0x1_0000_0000

  datatype Step =
    | ClientRuns(event: S.Event, now: int, epoch: Word)  // a login or a close proceeds
    | ClientSends(request: D.Request)                    // the application sends a command
    | ClientHears(frame: bytes)                          // a datagram arrives at the client
    | ClientHandles(packet: DataPacket, now: int)        // a received packet is handled
    | ChargerHears(frame: bytes, from: Router.Address, clock: int)
    | ChargerAnnounces
    | ChargerBeats
    | ChargerForgets                                     // it is power cycled

  predicate Fits(request: D.Request)
  {
    |request.payload| <= MAX_PAYLOAD
  }

  /** The datagrams of some requests of the client. */
  function Frames(requests: seq<D.Request>, serial: Option<string>, password: string): set<bytes>
    requires IsAscii(password) && forall i :: 0 <= i < |requests| ==> Fits(requests[i])
  {
    set i | 0 <= i < |requests| && Fits(requests[i]) ::
      Build(requests[i].cmd, serial, Some(password), requests[i].payload)
  }

  lemma LoginSendsFit(s: S.State, event: S.Event, now: int, epoch: Word)
    ensures forall i :: 0 <= i < |D.LoginSends(s, event, now, epoch)| ==>
              var request := D.LoginSends(s, event, now, epoch)[i];
              Fits(request) && request.cmd != LOGIN_CONFIRM_RESPONSE
  {
  }

  function RepliesTo(packet: DataPacket): (requests: seq<D.Request>)
    ensures forall i :: 0 <= i < |requests| ==> Fits(requests[i])
    ensures forall i :: 0 <= i < |requests| && requests[i].cmd == LOGIN_CONFIRM_RESPONSE ==>
              packet.command == LOGIN_SUCCESS_EVENT
  {
    if D.Reply(packet).Some? then [D.Reply(packet).value] else []
  }

  /** The datagram of an answer of the charger. */
  function Answers(u: C.Setup, reply: Option<C.Response>): set<bytes>
  {
    if reply.Some? && C.CanSend(u, reply.value.payload) then {C.FrameOf(u, reply.value)} else {}
  }

  /** The datagram of an announcement; a device info too long for one raises. */
  function Announcement(u: C.Setup): set<bytes>
  {
    if |u.info| <= MAX_PAYLOAD then {Build(LOGIN_EVENT, Some(u.serial), Some(""), u.info)} else {}
  }

  function Runs(w: World, password: string, event: S.Event, now: int, epoch: Word): World
    requires IsAscii(password)
  {
    LoginSendsFit(w.session, event, now, epoch);
    w.(session := S.Step(w.session, event, now),
       toCharger := w.toCharger + Frames(D.LoginSends(w.session, event, now, epoch), w.serial, password))
  }

  function Hears(w: World, frame: bytes): World
  {
    var packets := Deliver(frame);
    if |packets| == 0 then w
    else
      var serial := packets[|packets| - 1].deviceSerial;
      w.(serial := if Router.NamesDevice(serial) then Some(serial) else w.serial,
         inbox := w.inbox + set packet | packet in packets)
  }

  function Handles(w: World, password: string, packet: DataPacket, now: int): World
    requires IsAscii(password)
  {
    w.(session := S.HandlePacket(w.session, packet.command, now),
       toCharger := w.toCharger + Frames(RepliesTo(packet), w.serial, password))
  }

  function Reaches(u: C.Setup, w: World, frame: bytes, from: Router.Address, clock: int): World
  {
    var turn := C.Receive(u, w.charger, frame, from, clock);
    w.(charger := turn.state, toClient := w.toClient + Answers(u, turn.reply))
  }

  function Next(u: C.Setup, password: string, w: World, step: Step): (w': World)
    requires IsAscii(password)
  {
    match step
    case ClientRuns(event, now, epoch) => if event.Handle? then w else Runs(w, password, event, now, epoch)
    case ClientSends(request) =>
      if Fits(request) && request.cmd != LOGIN_CONFIRM_RESPONSE
      then w.(toCharger := w.toCharger + Frames([request], w.serial, password))
      else w
    case ClientHears(frame) => if frame in w.toClient then Hears(w, frame) else w
    case ClientHandles(packet, now) => if packet in w.inbox then Handles(w, password, packet, now) else w
    case ChargerHears(frame, from, clock) =>
      if frame in w.toCharger then Reaches(u, w, frame, from, clock) else w
    case ChargerAnnounces => w.(toClient := w.toClient + Announcement(u))
    case ChargerBeats =>
      if w.charger.hasSession
      then w.(toClient := w.toClient + Answers(u, Some(C.Response(HEADING_EVENT, [])))) else w
    case ChargerForgets => w.(charger := w.charger.(hasSession := false))
  }

  function Start(password: string, language: byte): World
  {
    World(S.Init(password != ""), None, C.State(None, [], false, language, C.NoPlan(7), [], {}), {}, {}, {})
  }

  /** The world before step n. */
  function At(u: C.Setup, password: string, w: World, trace: seq<Step>, n: nat): (w': World)
    requires IsAscii(password) && n <= |trace|
  {
    if n == 0 then w else Next(u, password, At(u, password, w, trace, n - 1), trace[n - 1])
  }

  // Login safety

  /** The charger receives a LOGIN_REQUEST with its own password. */
  predicate HearsLogin(u: C.Setup, w: World, step: Step)
  {
    && step.ChargerHears? && step.frame in w.toCharger
    && C.CommandOf(step.frame) == Some(LOGIN_REQUEST)
    && C.RightPassword(u, step.frame)
  }

  /** The client handles a LOGIN_SUCCESS. */
  predicate HandlesSuccess(w: World, step: Step)
  {
    step.ClientHandles? && step.packet in w.inbox && step.packet.command == LOGIN_SUCCESS_EVENT
  }

  /** A datagram of the client's; a confirmation only if it handled a success. */
  ghost predicate OfClient(password: string, frame: bytes, handled: bool)
    requires IsAscii(password)
  {
    exists request: D.Request, serial: Option<string> | Fits(request) ::
      && frame == Build(request.cmd, serial, Some(password), request.payload)
      && (request.cmd == LOGIN_CONFIRM_RESPONSE ==> handled)
  }

  predicate AnswersTo(u: C.Setup, s: C.State, h: C.Heard, packet: DataPacket)
  {
    C.Receive(u, s, h.data, h.from, h.clock).reply == Some(C.Response(packet.command, packet.data))
  }

  /** A packet that, if it is about the history, is an answer of the charger to something. */
  ghost predicate IsAnswer(u: C.Setup, packet: DataPacket)
  {
    packet.command in {HISTORY_RECORD_EVENT, HISTORY_COUNT_EVENT} ==>
      exists s: C.State, h: C.Heard :: AnswersTo(u, s, h, packet)
  }

  /** A packet the charger said; a success only if it heard a login. */
  ghost predicate Said(u: C.Setup, packet: DataPacket, heard: bool)
  {
    packet.deviceSerial == C.SerialIn(u) && (packet.command == LOGIN_SUCCESS_EVENT ==> heard) && IsAnswer(u, packet)
  }

  /** A datagram of the charger's. */
  ghost predicate OfCharger(u: C.Setup, frame: bytes, heard: bool)
  {
    exists packet :: Deliver(frame) == [packet] && Said(u, packet, heard)
  }

  ghost predicate AllOfClient(password: string, frames: set<bytes>, handled: bool)
    requires IsAscii(password)
  {
    forall frame :: frame in frames ==> OfClient(password, frame, handled)
  }

  ghost predicate AllOfCharger(u: C.Setup, frames: set<bytes>, heard: bool)
  {
    forall frame :: frame in frames ==> OfCharger(u, frame, heard)
  }

  ghost predicate AllSaid(u: C.Setup, packets: set<DataPacket>, heard: bool)
  {
    forall packet :: packet in packets ==> Said(u, packet, heard)
  }

  /** What holds of every world, given whether the charger heard a right login and the client handled
      a success so far. */
  ghost predicate Safe(u: C.Setup, password: string, w: World, heard: bool, handled: bool)
    requires IsAscii(password)
  {
    && (handled ==> heard)
    && (heard ==> C.SamePassword(u, password))
    && (w.session.authenticated ==> handled)
    && (w.charger.hasSession ==> handled)
    && AllOfClient(password, w.toCharger, handled)
    && AllOfCharger(u, w.toClient, heard)
    && AllSaid(u, w.inbox, heard)
  }

  lemma FramesOfClient(requests: seq<D.Request>, serial: Option<string>, password: string, handled: bool)
    requires IsAscii(password) && forall i :: 0 <= i < |requests| ==> Fits(requests[i])
    requires forall i :: 0 <= i < |requests| && requests[i].cmd == LOGIN_CONFIRM_RESPONSE ==> handled
    ensures AllOfClient(password, Frames(requests, serial, password), handled)
  {
    forall frame | frame in Frames(requests, serial, password)
      ensures OfClient(password, frame, handled)
    {
      var i :| 0 <= i < |requests| && Fits(requests[i])
        && frame == Build(requests[i].cmd, serial, Some(password), requests[i].payload);
    }
  }

  /** What was sent before is still the sender's, with more known. */
  lemma OfClientLater(password: string, frames: set<bytes>, more: set<bytes>, handled: bool, later: bool)
    requires IsAscii(password) && AllOfClient(password, frames, handled) && AllOfClient(password, more, later)
    requires handled ==> later
    ensures AllOfClient(password, frames + more, later)
  {
    forall frame | frame in frames
      ensures OfClient(password, frame, later)
    {
      assert OfClient(password, frame, handled);
    }
  }

  lemma OfChargerLater(u: C.Setup, frames: set<bytes>, more: set<bytes>, heard: bool, later: bool)
    requires AllOfCharger(u, frames, heard) && AllOfCharger(u, more, later)
    requires heard ==> later
    ensures AllOfCharger(u, frames + more, later)
  {
    forall frame | frame in frames
      ensures OfCharger(u, frame, later)
    {
      assert OfCharger(u, frame, heard);
      var packet :| Deliver(frame) == [packet] && Said(u, packet, heard);
      assert Said(u, packet, later);
    }
  }

  lemma SaidLater(u: C.Setup, packets: set<DataPacket>, heard: bool, later: bool)
    requires AllSaid(u, packets, heard) && (heard ==> later)
    ensures AllSaid(u, packets, later)
  {
    forall packet | packet in packets
      ensures Said(u, packet, later)
    {
      assert Said(u, packet, heard);
    }
  }

  /** What the charger reads of a datagram of the client's. */
  lemma OfClientRead(password: string, frame: bytes, handled: bool)
    requires IsAscii(password) && OfClient(password, frame, handled)
    ensures Slice(frame, 13, 19) == PasswordField(Some(password))
    ensures C.CommandOf(frame) == Some(LOGIN_CONFIRM_RESPONSE) ==> handled
  {
    var request: D.Request, serial: Option<string> :| Fits(request)
      && frame == Build(request.cmd, serial, Some(password), request.payload)
      && (request.cmd == LOGIN_CONFIRM_RESPONSE ==> handled);
    C.FrameHeard(request.cmd, serial, password, request.payload);
  }

  lemma AnswersOfCharger(u: C.Setup, reply: Option<C.Response>, heard: bool)
    requires reply.Some? ==> Said(u, C.PacketIn(u, reply.value), heard)
    ensures AllOfCharger(u, Answers(u, reply), heard)
  {
    if reply.Some? && C.CanSend(u, reply.value.payload) {
      C.ResponseRead(u, reply.value);
      assert OfCharger(u, C.FrameOf(u, reply.value), heard);
    }
  }

  /** Only a login with the charger's password is answered with a success. */
  lemma SuccessNeedsLogin(u: C.Setup, s: C.State, frame: bytes, from: Router.Address, clock: int)
    ensures var reply := C.Receive(u, s, frame, from, clock).reply;
            reply.Some? && reply.value.cmd == LOGIN_SUCCESS_EVENT ==>
              C.CommandOf(frame) == Some(LOGIN_REQUEST) && C.RightPassword(u, frame)
  {
  }

  /** What the charger answers, it says. */
  lemma AnswerSaid(u: C.Setup, s: C.State, frame: bytes, from: Router.Address, clock: int, heard: bool)
    requires (C.CommandOf(frame) == Some(LOGIN_REQUEST) && C.RightPassword(u, frame) ==> heard)
    ensures var reply := C.Receive(u, s, frame, from, clock).reply;
            reply.Some? ==> Said(u, C.PacketIn(u, reply.value), heard)
  {
    var reply := C.Receive(u, s, frame, from, clock).reply;
    SuccessNeedsLogin(u, s, frame, from, clock);
    if reply.Some? {
      assert AnswersTo(u, s, C.Heard(frame, from, clock), C.PacketIn(u, reply.value));
    }
  }

  /** Steps of the client that send: nothing but its session and its datagrams change. */
  lemma SafeSending(u: C.Setup, password: string, w: World, w': World, requests: seq<D.Request>, heard: bool,
                    handled: bool, later: bool)
    requires IsAscii(password) && Safe(u, password, w, heard, handled)
    requires (handled ==> later) && (later ==> heard)
    requires forall i :: 0 <= i < |requests| ==> Fits(requests[i])
    requires forall i :: 0 <= i < |requests| && requests[i].cmd == LOGIN_CONFIRM_RESPONSE ==> later
    requires w' == w.(session := w'.session, toCharger := w.toCharger + Frames(requests, w.serial, password))
    requires w'.session.authenticated ==> later
    ensures Safe(u, password, w', heard, later)
  {
    FramesOfClient(requests, w.serial, password, later);
    OfClientLater(password, w.toCharger, Frames(requests, w.serial, password), handled, later);
  }

  lemma SafeRuns(u: C.Setup, password: string, w: World, event: S.Event, now: int, epoch: Word, heard: bool,
                 handled: bool)
    requires IsAscii(password) && Safe(u, password, w, heard, handled)
    ensures Safe(u, password, Next(u, password, w, ClientRuns(event, now, epoch)), heard, handled)
  {
    if !event.Handle? {
      LoginSendsFit(w.session, event, now, epoch);
      S.AuthorisedStep(w.session, S.Timed(event, now));
      SafeSending(u, password, w, Runs(w, password, event, now, epoch), D.LoginSends(w.session, event, now, epoch),
                  heard, handled, handled);
    }
  }

  lemma SafeSends(u: C.Setup, password: string, w: World, request: D.Request, heard: bool, handled: bool)
    requires IsAscii(password) && Safe(u, password, w, heard, handled)
    ensures Safe(u, password, Next(u, password, w, ClientSends(request)), heard, handled)
  {
    if Fits(request) && request.cmd != LOGIN_CONFIRM_RESPONSE {
      SafeSending(u, password, w, Next(u, password, w, ClientSends(request)), [request], heard, handled, handled);
    }
  }

  lemma SafeHandles(u: C.Setup, password: string, w: World, packet: DataPacket, now: int, heard: bool, handled: bool)
    requires IsAscii(password) && Safe(u, password, w, heard, handled)
    ensures var step := ClientHandles(packet, now);
            Safe(u, password, Next(u, password, w, step), heard, handled || HandlesSuccess(w, step))
  {
    if packet in w.inbox {
      S.AuthorisedStep(w.session, S.Timed(S.Handle(packet.command), now));
      SafeSending(u, password, w, Handles(w, password, packet, now), RepliesTo(packet), heard, handled,
                  handled || packet.command == LOGIN_SUCCESS_EVENT);
    }
  }

  lemma SafeHears(u: C.Setup, password: string, w: World, frame: bytes, heard: bool, handled: bool)
    requires IsAscii(password) && Safe(u, password, w, heard, handled)
    ensures Safe(u, password, Next(u, password, w, ClientHears(frame)), heard, handled)
  {
    if frame in w.toClient {
      assert OfCharger(u, frame, heard);
    }
  }

  /** What the charger sends. */
  lemma SafeAnswering(u: C.Setup, password: string, w: World, w': World, frames: set<bytes>, heard: bool,
                      handled: bool, later: bool)
    requires IsAscii(password) && Safe(u, password, w, heard, handled)
    requires (heard ==> later) && (later ==> C.SamePassword(u, password))
    requires AllOfCharger(u, frames, later)
    requires w' == w.(charger := w'.charger, toClient := w.toClient + frames)
    requires w'.charger.hasSession ==> handled
    ensures Safe(u, password, w', later, handled)
  {
    OfChargerLater(u, w.toClient, frames, heard, later);
    SaidLater(u, w.inbox, heard, later);
  }

  lemma ReachesOnly(u: C.Setup, password: string, w: World, frame: bytes, from: Router.Address, clock: int)
    requires IsAscii(password) && frame in w.toCharger
    ensures Next(u, password, w, ChargerHears(frame, from, clock)) == Reaches(u, w, frame, from, clock)
  {
  }

  lemma SafeReaches(u: C.Setup, password: string, w: World, frame: bytes, from: Router.Address, clock: int,
                    heard: bool, handled: bool)
    requires IsAscii(password) && Safe(u, password, w, heard, handled)
    ensures var step := ChargerHears(frame, from, clock);
            Safe(u, password, Next(u, password, w, step), heard || HearsLogin(u, w, step), handled)
  {
    if frame in w.toCharger {
      var turn := C.Receive(u, w.charger, frame, from, clock);
      var later := heard || HearsLogin(u, w, ChargerHears(frame, from, clock));
      OfClientRead(password, frame, handled);
      C.PasswordRead(password, u.password);
      C.ReceiveKeeps(u, w.charger, frame, from, clock);
      ReachesOnly(u, password, w, frame, from, clock);
      AnswerSaid(u, w.charger, frame, from, clock, later);
      AnswersOfCharger(u, turn.reply, later);
      SafeAnswering(u, password, w, Reaches(u, w, frame, from, clock), Answers(u, turn.reply), heard, handled, later);
    }
  }

  lemma AnnouncementOfCharger(u: C.Setup, heard: bool)
    ensures AllOfCharger(u, Announcement(u), heard)
  {
    if |u.info| <= MAX_PAYLOAD {
      C.FrameDelivered(LOGIN_EVENT, Some(u.serial), Some(""), u.info);
      assert Said(u, DataPacket(LOGIN_EVENT, C.SerialIn(u), u.info), heard);
    }
  }

  lemma AnnouncesOnly(u: C.Setup, password: string, w: World)
    requires IsAscii(password)
    ensures Next(u, password, w, ChargerAnnounces) == w.(toClient := w.toClient + Announcement(u))
  {
  }

  lemma SafeAnnounces(u: C.Setup, password: string, w: World, heard: bool, handled: bool)
    requires IsAscii(password) && Safe(u, password, w, heard, handled)
    ensures Safe(u, password, Next(u, password, w, ChargerAnnounces), heard, handled)
  {
    AnnouncementOfCharger(u, heard);
    AnnouncesOnly(u, password, w);
    SafeAnswering(u, password, w, w.(toClient := w.toClient + Announcement(u)), Announcement(u), heard, handled, heard);
  }

  lemma SafeBeats(u: C.Setup, password: string, w: World, heard: bool, handled: bool)
    requires IsAscii(password) && Safe(u, password, w, heard, handled)
    ensures Safe(u, password, Next(u, password, w, ChargerBeats), heard, handled)
  {
    if w.charger.hasSession {
      var heading := Some(C.Response(HEADING_EVENT, []));
      AnswersOfCharger(u, heading, heard);
      SafeAnswering(u, password, w, Next(u, password, w, ChargerBeats), Answers(u, heading), heard, handled, heard);
    }
  }

  lemma SafeStep(u: C.Setup, password: string, w: World, step: Step, heard: bool, handled: bool)
    requires IsAscii(password) && Safe(u, password, w, heard, handled)
    ensures Safe(u, password, Next(u, password, w, step), heard || HearsLogin(u, w, step),
                 handled || HandlesSuccess(w, step))
  {
    match step
    case ClientRuns(event, now, epoch) => SafeRuns(u, password, w, event, now, epoch, heard, handled);
    case ClientSends(request) => SafeSends(u, password, w, request, heard, handled);
    case ClientHears(frame) => SafeHears(u, password, w, frame, heard, handled);
    case ClientHandles(packet, now) => SafeHandles(u, password, w, packet, now, heard, handled);
    case ChargerHears(frame, from, clock) => SafeReaches(u, password, w, frame, from, clock, heard, handled);
    case ChargerAnnounces => SafeAnnounces(u, password, w, heard, handled);
    case ChargerBeats => SafeBeats(u, password, w, heard, handled);
    case ChargerForgets =>
  }

  predicate HearsLoginAt(u: C.Setup, password: string, w: World, trace: seq<Step>, k: nat)
    requires IsAscii(password)
  {
    k < |trace| && HearsLogin(u, At(u, password, w, trace, k), trace[k])
  }

  predicate HandlesSuccessAt(u: C.Setup, password: string, w: World, trace: seq<Step>, k: nat)
    requires IsAscii(password)
  {
    k < |trace| && HandlesSuccess(At(u, password, w, trace, k), trace[k])
  }

  ghost predicate HeardBefore(u: C.Setup, password: string, w: World, trace: seq<Step>, n: nat)
    requires IsAscii(password)
  {
    exists k: nat :: k < n && HearsLoginAt(u, password, w, trace, k)
  }

  ghost predicate HandledBefore(u: C.Setup, password: string, w: World, trace: seq<Step>, n: nat)
    requires IsAscii(password)
  {
    exists k: nat :: k < n && HandlesSuccessAt(u, password, w, trace, k)
  }

  lemma HeardNext(u: C.Setup, password: string, w: World, trace: seq<Step>, n: nat)
    requires IsAscii(password) && n < |trace|
    ensures HeardBefore(u, password, w, trace, n + 1)
         == (HeardBefore(u, password, w, trace, n) || HearsLogin(u, At(u, password, w, trace, n), trace[n]))
    ensures HandledBefore(u, password, w, trace, n + 1)
         == (HandledBefore(u, password, w, trace, n) || HandlesSuccess(At(u, password, w, trace, n), trace[n]))
  {
    if HearsLogin(u, At(u, password, w, trace, n), trace[n]) {
      assert HearsLoginAt(u, password, w, trace, n);
    }
    if HandlesSuccess(At(u, password, w, trace, n), trace[n]) {
      assert HandlesSuccessAt(u, password, w, trace, n);
    }
  }

  ghost predicate SafeAt(u: C.Setup, password: string, w: World, trace: seq<Step>, n: nat)
    requires IsAscii(password) && n <= |trace|
  {
    Safe(u, password, At(u, password, w, trace, n), HeardBefore(u, password, w, trace, n),
         HandledBefore(u, password, w, trace, n))
  }

  lemma SafeNext(u: C.Setup, password: string, w: World, trace: seq<Step>, n: nat)
    requires IsAscii(password) && n < |trace|
    requires SafeAt(u, password, w, trace, n)
    ensures SafeAt(u, password, w, trace, n + 1)
  {
    SafeStep(u, password, At(u, password, w, trace, n), trace[n], HeardBefore(u, password, w, trace, n),
             HandledBefore(u, password, w, trace, n));
    HeardNext(u, password, w, trace, n);
  }

  lemma SafeStart(u: C.Setup, password: string, language: byte, trace: seq<Step>)
    requires IsAscii(password)
    ensures SafeAt(u, password, Start(password, language), trace, 0)
  {
  }

  lemma {:induction false} SafeFrom(u: C.Setup, password: string, w: World, trace: seq<Step>, n: nat)
    requires IsAscii(password) && n <= |trace|
    requires SafeAt(u, password, w, trace, 0)
    ensures SafeAt(u, password, w, trace, n)
  {
    if n == 0 {
    } else {
      SafeFrom(u, password, w, trace, n - 1);
      SafeNext(u, password, w, trace, n - 1);
    }
  }

  lemma SafeRun(u: C.Setup, password: string, language: byte, trace: seq<Step>, n: nat)
    requires IsAscii(password) && n <= |trace|
    ensures SafeAt(u, password, Start(password, language), trace, n)
  {
    SafeStart(u, password, language, trace);
    SafeFrom(u, password, Start(password, language), trace, n);
  }

  /** Composed login safety: over a network that loses, repeats and reorders, the client is authorised, and the
      charger has a session, only after the client handled a LOGIN_SUCCESS; and it handles one only after the
      charger received a LOGIN_REQUEST with the six bytes of its own password, which the client's then are. */
  lemma ComposedLoginSafety(u: C.Setup, password: string, language: byte, trace: seq<Step>, n: nat)
    requires IsAscii(password) && n <= |trace|
    ensures var start := Start(password, language);
            var w := At(u, password, start, trace, n);
            && (w.session.authenticated || w.charger.hasSession ==> HandledBefore(u, password, start, trace, n))
            && (HandledBefore(u, password, start, trace, n) ==> HeardBefore(u, password, start, trace, n))
            && (HeardBefore(u, password, start, trace, n) ==> C.SamePassword(u, password))
  {
    SafeRun(u, password, language, trace, n);
  }

  // Progress

  lemma RequestSent(u: C.Setup, password: string, w: World, now: int, epoch: Word)
    requires IsAscii(password) && !w.session.locked
    ensures var w' := Next(u, password, w, ClientRuns(S.Login, now, epoch));
            && Build(LOGIN_REQUEST, w.serial, Some(password), []) in w'.toCharger
            && w' == w.(session := S.Step(w.session, S.Login, now), toCharger := w'.toCharger)
  {
    var sends := D.LoginSends(w.session, S.Login, now, epoch);
    assert sends[0] == D.Request(LOGIN_REQUEST, []) && Fits(sends[0]);
  }

  lemma AnswerSent(u: C.Setup, password: string, w: World, frame: bytes, from: Router.Address, clock: int,
                   reply: C.Response)
    requires IsAscii(password) && frame in w.toCharger
    requires C.Receive(u, w.charger, frame, from, clock).reply == Some(reply)
    ensures var w' := Next(u, password, w, ChargerHears(frame, from, clock));
            C.FrameOf(u, reply) in w'.toClient && w' == w.(charger := w'.charger, toClient := w'.toClient)
  {
    ReachesOnly(u, password, w, frame, from, clock);
    assert C.FrameOf(u, reply) in Answers(u, Some(reply));
  }

  lemma RequestAnswered(u: C.Setup, password: string, w: World, serial: Option<string>, from: Router.Address,
                        clock: int)
    requires IsAscii(password) && LOGIN_REQUEST !in u.ignored
    requires C.SamePassword(u, password) && |u.info| <= MAX_PAYLOAD
    requires Build(LOGIN_REQUEST, serial, Some(password), []) in w.toCharger
    ensures var w' := Next(u, password, w, ChargerHears(Build(LOGIN_REQUEST, serial, Some(password), []), from, clock));
            && C.FrameOf(u, C.Response(LOGIN_SUCCESS_EVENT, u.info)) in w'.toClient
            && w' == w.(charger := w'.charger, toClient := w'.toClient)
  {
    C.LoginAnswered(u, w.charger, serial, password, from, clock);
    AnswerSent(u, password, w, Build(LOGIN_REQUEST, serial, Some(password), []), from, clock,
               C.Response(LOGIN_SUCCESS_EVENT, u.info));
  }

  lemma HandlesOnly(u: C.Setup, password: string, w: World, packet: DataPacket, now: int)
    requires IsAscii(password) && packet in w.inbox
    ensures Next(u, password, w, ClientHandles(packet, now)) == Handles(w, password, packet, now)
  {
  }

  lemma RequestIn(requests: seq<D.Request>, serial: Option<string>, password: string, request: D.Request)
    requires IsAscii(password) && forall i :: 0 <= i < |requests| ==> Fits(requests[i])
    requires |requests| > 0 && request == requests[0] && Fits(request)
    ensures Build(request.cmd, serial, Some(password), request.payload) in Frames(requests, serial, password)
  {
  }

  lemma HearsOnly(u: C.Setup, password: string, w: World, frame: bytes, packet: DataPacket)
    requires IsAscii(password) && frame in w.toClient && Deliver(frame) == [packet]
    ensures var w' := Next(u, password, w, ClientHears(frame));
            w' == w.(serial := w'.serial, inbox := w.inbox + {packet})
  {
  }

  lemma SuccessHeard(u: C.Setup, password: string, w: World)
    requires IsAscii(password) && C.CanSend(u, u.info)
    requires C.FrameOf(u, C.Response(LOGIN_SUCCESS_EVENT, u.info)) in w.toClient
    ensures var w' := Next(u, password, w, ClientHears(C.FrameOf(u, C.Response(LOGIN_SUCCESS_EVENT, u.info))));
            && DataPacket(LOGIN_SUCCESS_EVENT, C.SerialIn(u), u.info) in w'.inbox
            && w' == w.(serial := w'.serial, inbox := w'.inbox)
  {
    var success := C.Response(LOGIN_SUCCESS_EVENT, u.info);
    C.ResponseRead(u, success);
    HearsOnly(u, password, w, C.FrameOf(u, success), C.PacketIn(u, success));
  }

  lemma SuccessHandled(u: C.Setup, password: string, w: World, now: int)
    requires IsAscii(password)
    requires DataPacket(LOGIN_SUCCESS_EVENT, C.SerialIn(u), u.info) in w.inbox
    ensures var w' := Next(u, password, w, ClientHandles(DataPacket(LOGIN_SUCCESS_EVENT, C.SerialIn(u), u.info), now));
            && Build(LOGIN_CONFIRM_RESPONSE, w.serial, Some(password), []) in w'.toCharger
            && w' == w.(session := S.HandlePacket(w.session, LOGIN_SUCCESS_EVENT, now), toCharger := w'.toCharger)
  {
    var packet := DataPacket(LOGIN_SUCCESS_EVENT, C.SerialIn(u), u.info);
    HandlesOnly(u, password, w, packet, now);
    RequestIn(RepliesTo(packet), w.serial, password, D.Request(LOGIN_CONFIRM_RESPONSE, []));
  }

  lemma ConfirmReaches(u: C.Setup, password: string, w: World, serial: Option<string>, from: Router.Address,
                       clock: int)
    requires IsAscii(password) && LOGIN_CONFIRM_RESPONSE !in u.ignored
    requires Build(LOGIN_CONFIRM_RESPONSE, serial, Some(password), []) in w.toCharger
    ensures var frame := Build(LOGIN_CONFIRM_RESPONSE, serial, Some(password), []);
            var w' := Next(u, password, w, ChargerHears(frame, from, clock));
            w'.charger.hasSession && w' == w.(charger := w'.charger, toClient := w'.toClient)
  {
    C.FrameHeard(LOGIN_CONFIRM_RESPONSE, serial, password, []);
    ReachesOnly(u, password, w, Build(LOGIN_CONFIRM_RESPONSE, serial, Some(password), []), from, clock);
  }

  /** The world at the end of a trace. */
  function End(u: C.Setup, password: string, w: World, trace: seq<Step>): (w': World)
    requires IsAscii(password)
  {
    At(u, password, w, trace, |trace|)
  }

  lemma {:induction false} AtPrefix(u: C.Setup, password: string, w: World, trace: seq<Step>, step: Step, n: nat)
    requires IsAscii(password) && n <= |trace|
    ensures At(u, password, w, trace + [step], n) == At(u, password, w, trace, n)
  {
    if n == 0 {
    } else {
      AtPrefix(u, password, w, trace, step, n - 1);
    }
  }

  lemma OneMore(u: C.Setup, password: string, w: World, trace: seq<Step>, step: Step) returns (more: seq<Step>)
    requires IsAscii(password)
    ensures more == trace + [step]
    ensures End(u, password, w, more) == Next(u, password, End(u, password, w, trace), step)
  {
    more := trace + [step];
    AtPrefix(u, password, w, trace, step, |trace|);
  }

  /** The request goes out, is answered, and the answer arrives. */
  lemma SuccessArrives(u: C.Setup, password: string, w: World, now: int, epoch: Word, from: Router.Address, clock: int)
    returns (trace: seq<Step>)
    requires IsAscii(password) && !w.session.locked
    requires LOGIN_REQUEST !in u.ignored && C.SamePassword(u, password) && |u.info| <= MAX_PAYLOAD
    ensures |trace| == 3
    ensures var w' := End(u, password, w, trace);
            && DataPacket(LOGIN_SUCCESS_EVENT, C.SerialIn(u), u.info) in w'.inbox
            && w'.session == S.Step(w.session, S.Login, now)
  {
    var request := Build(LOGIN_REQUEST, w.serial, Some(password), []);
    RequestSent(u, password, w, now, epoch);
    trace := OneMore(u, password, w, [], ClientRuns(S.Login, now, epoch));
    RequestAnswered(u, password, End(u, password, w, trace), w.serial, from, clock);
    trace := OneMore(u, password, w, trace, ChargerHears(request, from, clock));
    SuccessHeard(u, password, End(u, password, w, trace));
    trace := OneMore(u, password, w, trace, ClientHears(C.FrameOf(u, C.Response(LOGIN_SUCCESS_EVENT, u.info))));
  }

  lemma LoginRunsOn(u: C.Setup, password: string, w: World, now: int, epoch: Word, t: nat)
    requires IsAscii(password)
    ensures var w' := Next(u, password, w, ClientRuns(S.Resume(t), now, epoch));
            w'.session == S.Step(w.session, S.Resume(t), now) && w'.charger == w.charger
  {
  }

  /** The answer is handled, its confirmation arrives, and the login runs on. */
  lemma SessionOpens(u: C.Setup, password: string, w: World, front: seq<Step>, now: int, epoch: Word,
                     from: Router.Address, clock: int, t: nat)
    returns (trace: seq<Step>)
    requires IsAscii(password) && LOGIN_CONFIRM_RESPONSE !in u.ignored
    requires DataPacket(LOGIN_SUCCESS_EVENT, C.SerialIn(u), u.info) in End(u, password, w, front).inbox
    ensures |trace| == |front| + 3
    ensures var before, w' := End(u, password, w, front), End(u, password, w, trace);
            && w'.charger.hasSession
            && w'.session == S.Step(S.HandlePacket(before.session, LOGIN_SUCCESS_EVENT, now), S.Resume(t), now)
  {
    var packet := DataPacket(LOGIN_SUCCESS_EVENT, C.SerialIn(u), u.info);
    var serial := End(u, password, w, front).serial;
    SuccessHandled(u, password, End(u, password, w, front), now);
    trace := OneMore(u, password, w, front, ClientHandles(packet, now));
    ConfirmReaches(u, password, End(u, password, w, trace), serial, from, clock);
    trace := OneMore(u, password, w, trace,
                     ChargerHears(Build(LOGIN_CONFIRM_RESPONSE, serial, Some(password), []), from, clock));
    LoginRunsOn(u, password, End(u, password, w, trace), now, epoch, t);
    trace := OneMore(u, password, w, trace, ClientRuns(S.Resume(t), now, epoch));
  }

  lemma SessionCompletes(s: S.State, now: int)
    requires !s.locked
    ensures var asked := S.Step(s, S.Login, now);
            var answered := S.HandlePacket(asked, LOGIN_SUCCESS_EVENT, now);
            var done := S.Step(answered, S.Resume(|s.tasks|), now);
            && done.authenticated && |done.tasks| == |s.tasks| + 1 && done.tasks[|s.tasks|] == S.Finished(S.LoggedIn)
  {
  }

  /** A handshake with nothing lost completes: any client whose lock is free and whose password is the charger's,
      whatever was sent before, logs in with True, and the charger has a session with it. */
  lemma HandshakeCompletes(u: C.Setup, password: string, w: World, now: int, epoch: Word, from: Router.Address,
                           clock: int)
    returns (trace: seq<Step>)
    requires IsAscii(password) && !w.session.locked
    requires LOGIN_REQUEST !in u.ignored && LOGIN_CONFIRM_RESPONSE !in u.ignored
    requires C.SamePassword(u, password) && |u.info| <= MAX_PAYLOAD
    ensures |trace| == 6
    ensures var w' := End(u, password, w, trace);
            && w'.session.authenticated && w'.charger.hasSession
            && |w'.session.tasks| == |w.session.tasks| + 1
            && w'.session.tasks[|w.session.tasks|] == S.Finished(S.LoggedIn)
  {
    trace := SuccessArrives(u, password, w, now, epoch, from, clock);
    trace := SessionOpens(u, password, w, trace, now, epoch, from, clock, |w.session.tasks|);
    SessionCompletes(w.session, now);
  }

  // History over the network

  /** What a step makes the client handle. */
  function HandledIn(w: World, step: Step): seq<Arrival>
  {
    if step.ClientHandles? && step.packet in w.inbox then [Arrival(step.packet, step.now)] else []
  }

  /** What the client handles from step `from` up to step `to`. */
  function Arrivals(u: C.Setup, password: string, w: World, trace: seq<Step>, from: nat, to: nat): seq<Arrival>
    requires IsAscii(password) && from <= to <= |trace|
  {
    if from == to then []
    else
      Arrivals(u, password, w, trace, from, to - 1)
      + HandledIn(At(u, password, w, trace, to - 1), trace[to - 1])
  }

  /** Steps of a trace at which one wait of a read ends and the next begins. */
  predicate AreCuts(cuts: seq<nat>, n: nat)
  {
    forall i, j :: 0 <= i <= j < |cuts| ==> cuts[i] <= cuts[j] <= n
  }

  /** The waits of a read of the history during a trace. */
  function Waits(u: C.Setup, password: string, w: World, trace: seq<Step>, cuts: seq<nat>): (waits: seq<seq<Arrival>>)
    requires IsAscii(password) && AreCuts(cuts, |trace|)
  {
    if |cuts| < 2 then []
    else seq(|cuts| - 1, k requires 0 <= k < |cuts| - 1 => Arrivals(u, password, w, trace, cuts[k], cuts[k + 1]))
  }

  ghost predicate AllAnswers(u: C.Setup, arrivals: seq<Arrival>)
  {
    forall j :: 0 <= j < |arrivals| ==> IsAnswer(u, arrivals[j].packet)
  }

  ghost predicate WaitsAnswered(u: C.Setup, waits: seq<seq<Arrival>>)
  {
    forall b :: 0 <= b < |waits| ==> AllAnswers(u, waits[b])
  }

  lemma SafeHandled(u: C.Setup, password: string, w: World, step: Step, heard: bool, handled: bool)
    requires IsAscii(password) && Safe(u, password, w, heard, handled)
    ensures AllAnswers(u, HandledIn(w, step))
  {
    if step.ClientHandles? && step.packet in w.inbox {
      assert Said(u, step.packet, heard);
    }
  }

  ghost predicate HandlesAnswers(u: C.Setup, password: string, w: World, trace: seq<Step>, n: nat)
    requires IsAscii(password)
  {
    n < |trace| ==> AllAnswers(u, HandledIn(At(u, password, w, trace, n), trace[n]))
  }

  lemma HandledAnswered(u: C.Setup, password: string, w: World, trace: seq<Step>, n: nat)
    requires IsAscii(password) && SafeAt(u, password, w, trace, 0)
    ensures HandlesAnswers(u, password, w, trace, n)
  {
    if n < |trace| {
      SafeFrom(u, password, w, trace, n);
      SafeHandled(u, password, At(u, password, w, trace, n), trace[n],
                  HeardBefore(u, password, w, trace, n), HandledBefore(u, password, w, trace, n));
    }
  }

  lemma AllAnswersAppend(u: C.Setup, a: seq<Arrival>, b: seq<Arrival>)
    requires AllAnswers(u, a) && AllAnswers(u, b)
    ensures AllAnswers(u, a + b)
  {
  }

  /** Whatever the client handles about the history is an answer of the charger. */
  lemma {:induction false} ArrivalsAnswered(u: C.Setup, password: string, w: World, trace: seq<Step>, from: nat,
                                            to: nat)
    requires IsAscii(password) && from <= to <= |trace|
    requires forall n: nat :: HandlesAnswers(u, password, w, trace, n)
    ensures AllAnswers(u, Arrivals(u, password, w, trace, from, to))
  {
    if from == to {
    } else {
      ArrivalsAnswered(u, password, w, trace, from, to - 1);
      assert HandlesAnswers(u, password, w, trace, to - 1);
      AllAnswersAppend(u, Arrivals(u, password, w, trace, from, to - 1),
                       HandledIn(At(u, password, w, trace, to - 1), trace[to - 1]));
    }
  }

  lemma WaitsAreAnswered(u: C.Setup, password: string, w: World, trace: seq<Step>, cuts: seq<nat>)
    requires IsAscii(password) && AreCuts(cuts, |trace|) && SafeAt(u, password, w, trace, 0)
    ensures WaitsAnswered(u, Waits(u, password, w, trace, cuts))
  {
    forall n: nat
      ensures HandlesAnswers(u, password, w, trace, n)
    {
      HandledAnswered(u, password, w, trace, n);
    }
    forall b | 0 <= b < |cuts| - 1
      ensures AllAnswers(u, Arrivals(u, password, w, trace, cuts[b], cuts[b + 1]))
    {
      ArrivalsAnswered(u, password, w, trace, cuts[b], cuts[b + 1]);
    }
  }

  lemma RecordFromRing(u: C.Setup, packet: DataPacket)
    requires IsAnswer(u, packet)
    ensures FromCharger(u.history, packet)
  {
    if packet.command == HISTORY_RECORD_EVENT {
      var s: C.State, h: C.Heard :| AnswersTo(u, s, h, packet);
      C.RepliesFromRing(u, s, h.data, h.from, h.clock);
    }
  }

  /** A capacity the client takes from an answer of the charger is the charger's. */
  lemma CountFromCharger(u: C.Setup, packet: DataPacket)
    requires IsAnswer(u, packet)
    ensures D.CountAfter(Some(None), packet) in {Some(None), Some(Some(u.capacity))}
  {
    if packet.command == HISTORY_COUNT_EVENT {
      var s: C.State, h: C.Heard :| AnswersTo(u, s, h, packet);
      C.CountsAreCapacity(u, s, h.data, h.from, h.clock);
    }
  }

  lemma {:induction false} FirstCountFromCharger(u: C.Setup, arrivals: seq<Arrival>)
    requires AllAnswers(u, arrivals)
    ensures D.FirstCount(arrivals) in {None, Some(u.capacity)}
  {
    if |arrivals| == 0 {
    } else {
      FirstCountFromCharger(u, arrivals[..|arrivals| - 1]);
      CountFromCharger(u, arrivals[|arrivals| - 1].packet);
    }
  }

  lemma WaitAnswered(u: C.Setup, waits: seq<seq<Arrival>>, k: nat)
    requires WaitsAnswered(u, waits)
    ensures AllAnswers(u, Batch(waits, k))
  {
  }

  lemma {:induction false} CapacityFromCharger(u: C.Setup, waits: seq<seq<Arrival>>, k: nat, tries: nat)
    requires WaitsAnswered(u, waits)
    ensures D.FindCapacity(waits, k, tries).0 in {None, Some(u.capacity)}
    decreases tries
  {
    if tries == 0 {
    } else {
      WaitAnswered(u, waits, k);
      FirstCountFromCharger(u, Batch(waits, k));
      CapacityFromCharger(u, waits, k + 1, tries - 1);
    }
  }

  lemma WaitsFromRing(u: C.Setup, waits: seq<seq<Arrival>>)
    requires WaitsAnswered(u, waits)
    ensures forall b, j :: 0 <= b < |waits| && 0 <= j < |waits[b]| ==> FromCharger(u.history, waits[b][j].packet)
  {
    forall b, j | 0 <= b < |waits| && 0 <= j < |waits[b]|
      ensures FromCharger(u.history, waits[b][j].packet)
    {
      assert AllAnswers(u, waits[b]);
      RecordFromRing(u, waits[b][j].packet);
    }
  }

  /** A whole history read composed with the charger: over any trace of the two and the network between them, and
      wherever in it the waits of a read lie, a read that does not time out learns the charger's capacity, and each
      slot of the ring either comes back with exactly the charger's record, or holds none and was answered so, or is
      named as unread; and exactly one of these. */
  lemma ComposedHistory(u: C.Setup, password: string, language: byte, trace: seq<Step>, cuts: seq<nat>, i: nat)
    requires IsAscii(password) && AreCuts(cuts, |trace|)
    ensures var waits := Waits(u, password, Start(password, language), trace, cuts);
            var (capacity, k) := D.FindCapacity(waits, 0, HISTORY_PASSES);
            capacity.Some? && 1 <= i <= u.capacity ==>
              var r := ReadAll(capacity.value, waits, k);
              var records := RecordsOf(r.slots);
              && capacity.value == u.capacity
              && (i in records ==> Holds(u.history, i) == Some(records[i]) && i !in r.missing)
              && (i !in records && i !in r.missing ==> Holds(u.history, i).None?)
  {
    var waits := Waits(u, password, Start(password, language), trace, cuts);
    SafeStart(u, password, language, trace);
    WaitsAreAnswered(u, password, Start(password, language), trace, cuts);
    CapacityFromCharger(u, waits, 0, HISTORY_PASSES);
    WaitsFromRing(u, waits);
    if 1 <= i <= u.capacity {
      HistoryNeverMisreports(u.history, u.capacity, waits, D.FindCapacity(waits, 0, HISTORY_PASSES).1, i);
    }
  }
}
