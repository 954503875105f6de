/** Commands and the reader of incoming frames (evsemaster/data_types.py). */
module Packet {
  import opened Wrappers
  import opened ByteStrings

  const ENVELOPE_SIZE := 25
  const HEADER := 0x0601
  const TAIL := 0x0F02

  const LOGIN_EVENT := 0x0001
  const LOGIN_REQUEST := 0x8002
  const LOGIN_SUCCESS_EVENT := 0x0002
  const LOGIN_CONFIRM_RESPONSE := 0x8001
  const PASSWORD_ERROR_EVENT := 0x0155
  const HEADING_EVENT := 0x0003
  const HEADING_RESPONSE := 0x8003
  const CURRENT_STATUS_EVENT := 0x0004
  const CURRENT_STATUS_RESPONSE := 0x8004
  const STATUS_REQUEST := 0x800D
  const STATUS_EVENT := 0x000D
  const CURRENT_CHARGING_STATUS_EVENT := 0x0005
  const CURRENT_CHARGING_STATUS_RESPONSE := 0x8005
  const CHARGING_STATUS_REQUEST := 0x8006
  const CHARGING_STATUS_EVENT := 0x0006
  const NICKNAME_REQUEST := 0x8108
  const NICKNAME_EVENT := 0x0108
  const OUTPUT_AMPERAGE_REQUEST := 0x8107
  const OUTPUT_AMPERAGE_EVENT := 0x0107
  const WEEKLY_PLAN_REQUEST := 0x810E
  const WEEKLY_PLAN_EVENT := 0x010E
  const LANGUAGE_REQUEST := 0x810F
  const LANGUAGE_EVENT := 0x010F
  const SYSTEM_TIME_REQUEST := 0x8101
  const SYSTEM_TIME_EVENT := 0x0101
  const CURRENT_CHARGE_RECORD_EVENT := 0x0009
  const CURRENT_CHARGE_RECORD_RESPONSE := 0x8009
  const UPLOAD_LOCAL_CHARGE_RECORD_EVENT := 0x000A
  const UPLOAD_LOCAL_CHARGE_RECORD_RESPONSE := 0x800A
  const HISTORY_COUNT_REQUEST := 0x800B
  const HISTORY_COUNT_EVENT := 0x000B
  const HISTORY_RECORD_REQUEST := 0x800C
  const HISTORY_RECORD_EVENT := 0x000C

  /** The members of `CommandEnum`; a code outside them is not a command. */
  predicate IsCommand(c: int)
  {
    && 0 < c < 0x1_0000
    && var code := if c < 0x8000 then c else c - 0x8000;
    && (|| 0x0001 <= code <= 0x000D
        || code in {0x0101, 0x0106, 0x0107, 0x0108, 0x010D, 0x010E, 0x010F, 0x0112, 0x0123}
        || (c < 0x8000 && code in {0x0102, 0x0104, 0x0105, 0x010A, 0x0122, 0x0155, 0x0162})
        || (c < 0x8000 && 0x0150 <= code <= 0x0153))
  }

  type Command = c: int | IsCommand(c) witness LOGIN_EVENT

  datatype DataPacket = DataPacket(command: Command, deviceSerial: string, data: bytes)
  {
    function GetInt(offset: nat, length: nat): nat
    {
      FromBytes(Slice(data, offset, offset + length))
    }
  }

  datatype DecodeError = TooShort | BadHeader | UnknownCommand | BadTailOrChecksum

  /** Where the frame at the start of `data` ends: its declared length, unless that cannot be the real end. */
  function EndOf(data: bytes): (end: nat)
    requires |data| >= ENVELOPE_SIZE
    ensures ENVELOPE_SIZE <= end <= |data|
  {
    var declared := FromBytes(data[2..4]);
    if ENVELOPE_SIZE <= declared <= |data| then declared else |data|
  }

  /** The constructor of `DataPacket`; its exceptions are the error cases. */
  function Decode(data: bytes): Result<DataPacket, DecodeError>
  {
    if |data| < ENVELOPE_SIZE then Err(TooShort)
    else if FromBytes(data[0..2]) != HEADER then Err(BadHeader)
    else if !IsCommand(FromBytes(data[19..21])) then Err(UnknownCommand)
    else
      var end := EndOf(data);
      if FromBytes(data[end - 2..end]) != TAIL
         || FromBytes(data[end - 4..end - 2]) != Sum(data[..end - 4]) % 0xFFFF
      then Err(BadTailOrChecksum)
      else Ok(DataPacket(FromBytes(data[19..21]), Hex(data[5..13]), data[21..end - 4]))
  }

  /** A frame but for its length field: header, known command, checksum and tail. */
  predicate IsFramed(f: bytes)
  {
    && |f| >= ENVELOPE_SIZE
    && FromBytes(f[0..2]) == HEADER
    && IsCommand(FromBytes(f[19..21]))
    && FromBytes(f[|f| - 4..|f| - 2]) == Sum(f[..|f| - 4]) % 0xFFFF
    && FromBytes(f[|f| - 2..]) == TAIL
  }

  /** A frame as the protocol lays it out: one whose length field is its length. */
  predicate IsFrame(f: bytes)
  {
    IsFramed(f) && FromBytes(f[2..4]) == |f|
  }

  /** What a frame says. */
  function PacketOf(f: bytes): DataPacket
    requires IsFramed(f)
  {
    DataPacket(FromBytes(f[19..21]), Hex(f[5..13]), f[21..|f| - 4])
  }

  /** Bytes after the declared end change nothing about what is read. */
  lemma DecodeFrame(f: bytes, trailing: bytes)
    requires IsFrame(f)
    ensures Decode(f + trailing) == Ok(PacketOf(f))
  {
    var data := f + trailing;
    assert data[0..2] == f[0..2] && data[2..4] == f[2..4];
    assert data[19..21] == f[19..21] && data[5..13] == f[5..13];
    assert EndOf(data) == |f|;
    assert data[|f| - 2..|f|] == f[|f| - 2..];
    assert data[|f| - 4..|f| - 2] == f[|f| - 4..|f| - 2];
    assert data[..|f| - 4] == f[..|f| - 4];
    assert data[21..|f| - 4] == f[21..|f| - 4];
  }

  /** What the reader accepts, and what it then reads: a frame with anything behind it; or, when the length field
      cannot be the real end, bytes that are a frame but for that field. */
  lemma DecodeAccepts(data: bytes)
    requires |data| >= ENVELOPE_SIZE
    ensures var declared := FromBytes(data[2..4]);
            var f := if ENVELOPE_SIZE <= declared <= |data| then data[..declared] else data;
            && (ENVELOPE_SIZE <= declared <= |data| ==> (IsFramed(f) <==> IsFrame(f)))
            && (Decode(data).Ok? <==> IsFramed(f))
            && (Decode(data).Ok? ==> Decode(data).value == PacketOf(f))
  {
    var end := EndOf(data);
    var f := data[..end];
    assert end == |data| ==> f == data;
    assert f[0..2] == data[0..2] && f[2..4] == data[2..4] && f[19..21] == data[19..21] && f[5..13] == data[5..13];
    assert f[end - 4..end - 2] == data[end - 4..end - 2];
    assert f[end - 2..] == data[end - 2..end];
    assert f[..end - 4] == data[..end - 4];
    assert f[21..end - 4] == data[21..end - 4];
  }
}
