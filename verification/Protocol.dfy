/** Splitting datagrams into frames and building frames (evsemaster/protocol.py). */
module Protocol {
  import opened Wrappers
  import opened ByteStrings
  import opened Packet

  const ZERO_SERIAL: string := "0000000000000000"
  const MAX_PAYLOAD := 0xFFFF - ENVELOPE_SIZE

  // Splitting

  /** The length a frame declares; 0 when the length field is not there. */
  function Declared(data: bytes): nat
  {
    if |data| >= 4 then FromBytes(data[2..4]) else 0
  }

  predicate StartsWithHeader(data: bytes)
  {
    |data| >= 2 && FromBytes(data[0..2]) == HEADER
  }

  /** Whether another frame is seen behind the first one. */
  predicate MoreBehind(data: bytes)
  {
    Declared(data) >= ENVELOPE_SIZE && Declared(data) < |data| && StartsWithHeader(data[Declared(data)..])
  }

  /** The frames of a datagram, as a function: what the loop of `SplitFrames` computes. */
  function Split(data: bytes): seq<bytes>
    decreases |data|
  {
    if MoreBehind(data) then [data[..Declared(data)]] + Split(data[Declared(data)..]) else [data]
  }

  method SplitFrames(data: bytes) returns (frames: seq<bytes>)
    ensures frames == Split(data)
  {
    frames := [];
    var remaining := data;
    while true
      invariant frames + Split(remaining) == Split(data)
      decreases |remaining|
    {
      var declared := if |remaining| >= 4 then FromBytes(remaining[2..4]) else 0;
      var rest := Slice(remaining, declared, |remaining|);
      if declared < ENVELOPE_SIZE || !StartsWithHeader(rest) {
        frames := frames + [remaining];
        return;
      }
      frames := frames + [remaining[..declared]];
      remaining := rest;
    }
  }

  function Concat(frames: seq<bytes>): bytes
  {
    if |frames| == 0 then [] else frames[0] + Concat(frames[1..])
  }

  /** Split correctness stated without the splitter: the pieces are the datagram, all but the last are
      exactly as long as they declare, all but the first start with the header, and the last
      cannot be divided further. */
  predicate IsSplit(data: bytes, frames: seq<bytes>)
  {
    && |frames| >= 1
    && Concat(frames) == data
    && (forall i :: 0 <= i < |frames| - 1 ==> |frames[i]| == Declared(frames[i]) >= ENVELOPE_SIZE)
    && (forall i :: 1 <= i < |frames| ==> StartsWithHeader(frames[i]))
    && !MoreBehind(frames[|frames| - 1])
  }

  lemma HeadStartsLike(data: bytes)
    ensures |Split(data)| >= 1
    ensures StartsWithHeader(data) ==> StartsWithHeader(Split(data)[0])
  {
    if MoreBehind(data) {
      assert data[..Declared(data)][0..2] == data[0..2];
    }
  }

  lemma SplitInFront(data: bytes, frames: seq<bytes>)
    requires MoreBehind(data) && frames == Split(data[Declared(data)..]) && IsSplit(data[Declared(data)..], frames)
    ensures IsSplit(data, [data[..Declared(data)]] + frames)
  {
    var first, rest := data[..Declared(data)], data[Declared(data)..];
    var all := [first] + frames;
    assert first[2..4] == data[2..4] && first + rest == data;
    assert all[0] == first && all[1..] == frames;
    HeadStartsLike(rest);
    forall i | 1 <= i < |all|
      ensures all[i] == frames[i - 1] && StartsWithHeader(all[i])
    {
      assert i > 1 ==> StartsWithHeader(frames[i - 1]);
    }
  }

  lemma {:induction false} SplitIsSplit(data: bytes)
    ensures IsSplit(data, Split(data))
    decreases |data|
  {
    if MoreBehind(data) {
      SplitIsSplit(data[Declared(data)..]);
      SplitInFront(data, Split(data[Declared(data)..]));
    } else {
      assert Concat([data]) == data + Concat([]);
    }
  }

  lemma {:induction false} IsSplitUnique(data: bytes, frames: seq<bytes>)
    requires IsSplit(data, frames)
    ensures frames == Split(data)
    decreases |frames|
  {
    var first, others := frames[0], frames[1..];
    assert data == first + Concat(others);
    if |others| == 0 {
      assert data == first;
    } else {
      assert others[0] == frames[1] && Concat(others) == others[0] + Concat(others[1..]);
      var rest := Concat(others);
      assert data[2..4] == first[2..4];
      assert data[|first|..] == rest && data[..|first|] == first;
      assert rest[0..2] == others[0][0..2];
      assert IsSplit(rest, others);
      IsSplitUnique(rest, others);
    }
  }

  /** Split correctness for arbitrary bytes, in both directions. */
  lemma SplitCorrect(data: bytes, frames: seq<bytes>)
    ensures Split(data) == frames <==> IsSplit(data, frames)
  {
    SplitIsSplit(data);
    if IsSplit(data, frames) {
      IsSplitUnique(data, frames);
    }
  }

  /** Splitting any frame that came out of a split gives just that frame. */
  lemma SplitOnce(data: bytes, frame: bytes)
    requires frame in Split(data)
    ensures Split(frame) == [frame]
  {
    SplitIsSplit(data);
  }

  // Building

  /** The eight serial bytes: the hexadecimal serial cut to eight bytes, or zeros if there is none. */
  function SerialField(serial: Option<string>): (b: bytes)
    ensures |b| == 8
  {
    match serial
    case None => Zeros(8)
    case Some(s) =>
      match FromHex(s)
      case None => Zeros(8)
      case Some(raw) => Slice(raw, 0, 8) + Zeros(8 - |Slice(raw, 0, 8)|)
  }

  predicate IsAscii(s: string)
  {
    forall i :: 0 <= i < |s| ==> s[i] as int < 128
  }

  function Ascii(s: string): (b: bytes)
    requires IsAscii(s)
    ensures |b| == |s| && forall i :: 0 <= i < |s| ==> b[i] == s[i] as int
  {
    seq(|s|, i requires 0 <= i < |s| => s[i] as int)
  }

  /** The six password bytes: the ASCII password cut to six bytes, or zeros if there is none. */
  function PasswordField(password: Option<string>): (b: bytes)
    requires password.Some? ==> IsAscii(password.value)
    ensures |b| == 6
  {
    match password
    case None => Zeros(6)
    case Some(p) => Slice(Ascii(p), 0, 6) + Zeros(6 - |Slice(Ascii(p), 0, 6)|)
  }

  /** Everything a frame carries before its checksum. */
  function Body(cmd: Command, serial: bytes, password: bytes, payload: bytes): (b: bytes)
    requires |serial| == 8 && |password| == 6 && |payload| <= MAX_PAYLOAD
    ensures |b| == 21 + |payload|
    ensures FromBytes(b[0..2]) == HEADER && FromBytes(b[2..4]) == ENVELOPE_SIZE + |payload|
    ensures b[5..13] == serial && b[13..19] == password
    ensures FromBytes(b[19..21]) == cmd && b[21..] == payload
  {
    assert IsCommand(cmd);
    var b := U16(HEADER) + U16(ENVELOPE_SIZE + |payload|) + [0] + serial + password + U16(cmd) + payload;
    assert b[0..2] == U16(HEADER) && b[2..4] == U16(ENVELOPE_SIZE + |payload|) && b[19..21] == U16(cmd);
    b
  }

  function Seal(body: bytes): bytes
  {
    body + U16(Sum(body) % 0xFFFF) + U16(TAIL)
  }

  /** The frame `build_packet` builds, as a function: what the writes of `BuildPacket` leave in the buffer. */
  function Build(cmd: Command, serial: Option<string>, password: Option<string>, payload: bytes): bytes
    requires password.Some? ==> IsAscii(password.value)
    requires |payload| <= MAX_PAYLOAD
  {
    Seal(Body(cmd, SerialField(serial), PasswordField(password), payload))
  }

  /** Slice assignment into a buffer, `buffer[at : at + len(data)] = data`. */
  method Store(buffer: array<byte>, at: nat, data: bytes)
    requires at + |data| <= buffer.Length
    modifies buffer
    ensures forall k :: 0 <= k < buffer.Length ==>
              buffer[k] == if at <= k < at + |data| then data[k - at] else old(buffer[k])
  {
    for i := 0 to |data|
      invariant forall k :: 0 <= k < buffer.Length ==>
                  buffer[k] == if at <= k < at + i then data[k - at] else old(buffer[k])
    {
      buffer[at + i] := data[i];
    }
  }

  /** Writes a field shorter than its room; the rest of the room keeps its zeros. */
  method StorePadded(buffer: array<byte>, at: nat, data: bytes, ghost room: nat)
    requires |data| <= room && at + room <= buffer.Length
    requires forall k :: at <= k < at + room ==> buffer[k] == 0
    modifies buffer
    ensures forall k :: 0 <= k < buffer.Length && !(at <= k < at + room) ==> buffer[k] == old(buffer[k])
    ensures buffer[at..at + room] == data + Zeros(room - |data|)
  {
    Store(buffer, at, data);
  }

  method StoreSerial(buffer: array<byte>, serial: Option<string>)
    requires buffer.Length >= ENVELOPE_SIZE && forall k :: 0 <= k < buffer.Length ==> buffer[k] == 0
    modifies buffer
    ensures buffer[5..13] == SerialField(serial)
    ensures forall k :: 13 <= k < buffer.Length ==> buffer[k] == 0
  {
    if serial.Some? && |serial.value| > 0 {
      var raw := FromHex(serial.value);
      if raw.Some? {
        StorePadded(buffer, 5, Slice(raw.value, 0, 8), 8);
      }
    }
  }

  method StorePassword(buffer: array<byte>, password: Option<string>)
    requires password.Some? ==> IsAscii(password.value)
    requires buffer.Length >= ENVELOPE_SIZE && forall k :: 13 <= k < buffer.Length ==> buffer[k] == 0
    modifies buffer
    ensures buffer[5..13] == old(buffer[5..13]) && buffer[13..19] == PasswordField(password)
  {
    if password.Some? && |password.value| > 0 {
      StorePadded(buffer, 13, Slice(Ascii(password.value), 0, 6), 6);
    }
  }

  /** Header, length, command and payload around the serial and the password already in the buffer. */
  method FillBody(buffer: array<byte>, cmd: Command, ghost serial: bytes, ghost password: bytes, payload: bytes)
    requires |serial| == 8 && |password| == 6 && |payload| <= MAX_PAYLOAD
    requires buffer.Length == ENVELOPE_SIZE + |payload|
    requires buffer[5..13] == serial && buffer[13..19] == password
    modifies buffer
    ensures buffer[..buffer.Length - 4] == Body(cmd, serial, password, payload)
  {
    assert IsCommand(cmd);
    assert forall k :: 5 <= k < 13 ==> buffer[k] == serial[k - 5];
    assert forall k :: 13 <= k < 19 ==> buffer[k] == password[k - 13];
    Store(buffer, 0, U16(HEADER));
    Store(buffer, 2, U16(buffer.Length));
    buffer[4] := 0;
    Store(buffer, 19, U16(cmd));
    Store(buffer, 21, payload);
  }

  /** Checksum and tail over what the buffer holds before its last four bytes. */
  method SealBuffer(buffer: array<byte>)
    requires buffer.Length >= ENVELOPE_SIZE
    modifies buffer
    ensures buffer[..] == Seal(old(buffer[..buffer.Length - 4]))
  {
    var n := buffer.Length;
    ghost var body := buffer[..n - 4];
    Store(buffer, n - 4, U16(Sum(buffer[..n - 4]) % 0xFFFF));
    assert buffer[..n - 4] == body;
    Store(buffer, n - 2, U16(TAIL));
  }

  method BuildPacket(cmd: Command, serial: Option<string>, password: Option<string>, payload: bytes)
    returns (packet: bytes)
    requires password.Some? ==> IsAscii(password.value)
    requires |payload| <= MAX_PAYLOAD
    ensures packet == Build(cmd, serial, password, payload)
  {
    var n := ENVELOPE_SIZE + |payload|;
    var buffer := new byte[n](_ => 0);
    StoreSerial(buffer, serial);
    StorePassword(buffer, password);
    FillBody(buffer, cmd, SerialField(serial), PasswordField(password), payload);
    SealBuffer(buffer);
    packet := buffer[..];
  }

  /** Every built packet is a frame, and its fields are where the protocol puts them. */
  lemma BuildIsFrame(cmd: Command, serial: Option<string>, password: Option<string>, payload: bytes)
    requires password.Some? ==> IsAscii(password.value)
    requires |payload| <= MAX_PAYLOAD
    ensures var f := Build(cmd, serial, password, payload);
            && IsFrame(f)
            && PacketOf(f) == DataPacket(cmd, Hex(SerialField(serial)), payload)
            && f[13..19] == PasswordField(password)
  {
    var body := Body(cmd, SerialField(serial), PasswordField(password), payload);
    var f := Seal(body);
    assert f[..|f| - 4] == body && f[|f| - 4..|f| - 2] == U16(Sum(body) % 0xFFFF) && f[|f| - 2..] == U16(TAIL);
    assert f[0..2] == body[0..2] && f[2..4] == body[2..4] && f[19..21] == body[19..21];
    assert f[5..13] == body[5..13] && f[13..19] == body[13..19];
    assert f[21..|f| - 4] == body[21..];
  }

  /** A serial as a charger's header spells it: sixteen lower-case hexadecimal digits. */
  predicate IsSerial(s: string)
  {
    |s| == 16 && IsLowerHex(s)
  }

  /** Frame round trip: reading a built packet, whatever follows it, returns what was put in. */
  lemma FrameRoundTrip(cmd: Command, serial: string, password: Option<string>, payload: bytes, trailing: bytes)
    requires IsSerial(serial)
    requires password.Some? ==> IsAscii(password.value)
    requires |payload| <= MAX_PAYLOAD
    ensures Decode(Build(cmd, Some(serial), password, payload) + trailing) == Ok(DataPacket(cmd, serial, payload))
  {
    BuildIsFrame(cmd, Some(serial), password, payload);
    DecodeFrame(Build(cmd, Some(serial), password, payload), trailing);
    HexRoundTrip(serial);
    assert SerialField(Some(serial)) == FromHex(serial).value;
  }

  lemma {:induction false} HexOfZeros(n: nat)
    ensures Hex(Zeros(n)) == seq(2 * n, _ => '0')
  {
    if n == 0 {
    } else {
      assert Zeros(n)[1..] == Zeros(n - 1);
      HexOfZeros(n - 1);
    }
  }

  /** A probe, or a serial that is not hexadecimal, goes out as the zero serial, which names no device. */
  lemma UnreadableSerialIsZero(cmd: Command, serial: Option<string>, password: Option<string>, payload: bytes)
    requires serial.None? || FromHex(serial.value).None?
    requires password.Some? ==> IsAscii(password.value)
    requires |payload| <= MAX_PAYLOAD
    ensures Decode(Build(cmd, serial, password, payload)) == Ok(DataPacket(cmd, ZERO_SERIAL, payload))
  {
    var f := Build(cmd, serial, password, payload);
    BuildIsFrame(cmd, serial, password, payload);
    DecodeFrame(f, []);
    assert f + [] == f;
    HexOfZeros(8);
    assert seq(16, _ => '0') == ZERO_SERIAL;
  }
}
