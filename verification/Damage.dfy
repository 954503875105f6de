/** What one damaged byte costs a datagram of several frames: `split_frames` and `DataPacket` together. */
module Damage {
  import opened Wrappers
  import opened ByteStrings
  import opened Packet
  import opened Protocol

  predicate AllFrames(frames: seq<bytes>)
  {
    forall i :: 0 <= i < |frames| ==> IsFrame(frames[i])
  }

  /** What the frames of a list say, in order. */
  function Packets(frames: seq<bytes>): seq<DataPacket>
    requires AllFrames(frames)
  {
    if |frames| == 0 then [] else [PacketOf(frames[0])] + Packets(frames[1..])
  }

  /** The frames that can be read, in order; the others are dropped. */
  function DecodeAll(frames: seq<bytes>): seq<DataPacket>
  {
    if |frames| == 0 then []
    else match Decode(frames[0])
      case Ok(packet) => [packet] + DecodeAll(frames[1..])
      case Err(_) => DecodeAll(frames[1..])
  }

  /** The packets one datagram delivers. */
  function Deliver(data: bytes): seq<DataPacket>
  {
    DecodeAll(Split(data))
  }

  /** A byte string with its byte k overwritten. */
  function Damaged(data: bytes, k: nat, b: byte): bytes
    requires k < |data|
  {
    data[k := b]
  }

  /** Where frame i starts in the datagram. */
  function Offset(frames: seq<bytes>, i: nat): nat
    requires i <= |frames|
  {
    |Concat(frames[..i])|
  }

  lemma Associates<T>(a: seq<T>, b: seq<T>, c: seq<T>)
    ensures a + (b + c) == (a + b) + c
  {
  }

  lemma {:induction false} ConcatAppend(a: seq<bytes>, b: seq<bytes>)
    ensures Concat(a + b) == Concat(a) + Concat(b)
  {
    if |a| == 0 {
      assert a + b == b;
    } else {
      ConcatAppend(a[1..], b);
      assert (a + b)[1..] == a[1..] + b;
      Associates(a[0], Concat(a[1..]), Concat(b));
    }
  }

  lemma ConcatLast(frames: seq<bytes>, last: bytes)
    ensures Concat(frames + [last]) == Concat(frames) + last
  {
    ConcatAppend(frames, [last]);
    assert [last][1..] == [];
    assert Concat([last]) == last + Concat([]);
  }

  lemma {:induction false} DecodeAllAppend(a: seq<bytes>, b: seq<bytes>)
    ensures DecodeAll(a + b) == DecodeAll(a) + DecodeAll(b)
  {
    if |a| == 0 {
      assert a + b == b;
    } else {
      DecodeAllAppend(a[1..], b);
      assert (a + b)[0] == a[0] && (a + b)[1..] == a[1..] + b;
      match Decode(a[0])
      case Ok(packet) => Associates([packet], DecodeAll(a[1..]), DecodeAll(b));
      case Err(_) =>
    }
  }

  lemma {:induction false} DecodeAllFrames(frames: seq<bytes>)
    requires AllFrames(frames)
    ensures DecodeAll(frames) == Packets(frames)
  {
    if |frames| == 0 {
    } else {
      DecodeFrame(frames[0], []);
      assert frames[0] + [] == frames[0];
      DecodeAllFrames(frames[1..]);
    }
  }

  /** Replacing frame i splits the datagram into what came before, the new piece and what comes after. */
  lemma ConcatReplaced(frames: seq<bytes>, i: nat, piece: bytes)
    requires i < |frames|
    ensures Concat(frames[i := piece]) == Concat(frames[..i]) + (piece + Concat(frames[i + 1..]))
  {
    var replaced := frames[i := piece];
    assert replaced == frames[..i] + ([piece] + frames[i + 1..]);
    ConcatAppend(frames[..i], [piece] + frames[i + 1..]);
    assert ([piece] + frames[i + 1..])[1..] == frames[i + 1..];
  }

  lemma DamagedInside(front: bytes, piece: bytes, behind: bytes, k: nat, b: byte)
    requires k < |piece|
    ensures Damaged(front + (piece + behind), |front| + k, b) == front + (Damaged(piece, k, b) + behind)
  {
  }

  /** Changing byte k of frame i is changing the byte of the datagram at frame i's offset plus k. */
  lemma DamageInDatagram(frames: seq<bytes>, i: nat, k: nat, b: byte)
    requires i < |frames| && k < |frames[i]|
    ensures Offset(frames, i) + k < |Concat(frames)|
    ensures Damaged(Concat(frames), Offset(frames, i) + k, b) == Concat(frames[i := Damaged(frames[i], k, b)])
  {
    ConcatReplaced(frames, i, frames[i]);
    assert frames[i := frames[i]] == frames;
    ConcatReplaced(frames, i, Damaged(frames[i], k, b));
    DamagedInside(Concat(frames[..i]), frames[i], Concat(frames[i + 1..]), k, b);
  }

  /** A datagram is split where its frames were joined; the first piece's own header does not matter. */
  lemma SplitJoined(frames: seq<bytes>)
    requires |frames| > 0
    requires forall i :: 0 <= i < |frames| ==> |frames[i]| == Declared(frames[i]) >= ENVELOPE_SIZE
    requires forall i :: 1 <= i < |frames| ==> StartsWithHeader(frames[i])
    ensures Split(Concat(frames)) == frames
  {
    SplitCorrect(Concat(frames), frames);
  }

  lemma FrameInFront(f: bytes, after: bytes)
    requires IsFrame(f) && StartsWithHeader(after)
    ensures Deliver(f + after) == [PacketOf(f)] + Deliver(after)
  {
    var data := f + after;
    assert data[2..4] == f[2..4] && data[..|f|] == f && data[|f|..] == after;
    assert Split(data) == [f] + Split(after);
    DecodeFrame(f, []);
    assert f + [] == f;
    DecodeAllAppend([f], Split(after));
    assert DecodeAll([f]) == [PacketOf(f)] + DecodeAll([]);
  }

  lemma StillStartsWithHeader(frames: seq<bytes>, rest: bytes)
    requires AllFrames(frames) && StartsWithHeader(rest)
    ensures StartsWithHeader(Concat(frames) + rest)
  {
    if |frames| == 0 {
      assert Concat(frames) + rest == rest;
    } else {
      assert (Concat(frames) + rest)[0..2] == frames[0][0..2];
    }
  }

  /** Frames in front are delivered whatever follows them, as long as it starts like a frame. */
  lemma {:induction false} PrefixDelivered(frames: seq<bytes>, rest: bytes)
    requires AllFrames(frames) && StartsWithHeader(rest)
    ensures Deliver(Concat(frames) + rest) == Packets(frames) + Deliver(rest)
  {
    if |frames| == 0 {
      assert Concat(frames) + rest == rest;
    } else {
      var after := Concat(frames[1..]) + rest;
      Associates(frames[0], Concat(frames[1..]), rest);
      StillStartsWithHeader(frames[1..], rest);
      FrameInFront(frames[0], after);
      PrefixDelivered(frames[1..], rest);
      Associates([PacketOf(frames[0])], Packets(frames[1..]), Deliver(rest));
    }
  }

  lemma FramesDelivered(frames: seq<bytes>)
    requires AllFrames(frames) && |frames| > 0
    ensures Deliver(Concat(frames)) == Packets(frames)
  {
    SplitJoined(frames);
    DecodeAllFrames(frames);
  }

  // Damage to one frame

  lemma HeaderBroken(f: bytes, k: nat, b: byte)
    requires |f| >= 2 && StartsWithHeader(f) && k < 2 && b != f[k]
    ensures !StartsWithHeader(Damaged(f, k, b))
  {
    var g := Damaged(f, k, b);
    assert g[0..2][k] != f[0..2][k];
    if FromBytes(g[0..2]) == HEADER {
      FromBytesInjective(g[0..2], f[0..2]);
      assert false;
    }
  }

  /** A byte changed before the checksum no longer matches it. */
  lemma ChecksumBroken(f: bytes, k: nat, b: byte)
    requires IsFrame(f) && k < |f| - 4 && b != f[k]
    ensures var g, n := Damaged(f, k, b), |f|;
            FromBytes(g[n - 4..n - 2]) != Sum(g[..n - 4]) % 0xFFFF
  {
    var g, n := Damaged(f, k, b), |f|;
    assert g[n - 4..n - 2] == f[n - 4..n - 2];
    assert g[..n - 4] == Damaged(f[..n - 4], k, b);
    SumUpdateMod(f[..n - 4], k, b);
  }

  /** A byte changed in the checksum or the tail no longer matches either. */
  lemma TrailerBroken(f: bytes, k: nat, b: byte)
    requires IsFrame(f) && |f| - 4 <= k < |f| && b != f[k]
    ensures var g, n := Damaged(f, k, b), |f|;
            FromBytes(g[n - 4..n - 2]) != Sum(g[..n - 4]) % 0xFFFF || FromBytes(g[n - 2..n]) != TAIL
  {
    var g, n := Damaged(f, k, b), |f|;
    var at := if k < n - 2 then n - 4 else n - 2;
    assert g[..n - 4] == f[..n - 4] && f[n - 2..] == f[n - 2..n];
    assert g[at..at + 2][k - at] != f[at..at + 2][k - at];
    if FromBytes(g[at..at + 2]) == FromBytes(f[at..at + 2]) {
      FromBytesInjective(g[at..at + 2], f[at..at + 2]);
      assert false;
    }
  }

  /** A byte changed anywhere but in the length leaves the reader no way to accept the frame. */
  lemma DamagedFrameRejected(f: bytes, k: nat, b: byte)
    requires IsFrame(f) && k < |f| && b != f[k] && k !in {2, 3}
    ensures Decode(Damaged(f, k, b)).Err?
  {
    var g := Damaged(f, k, b);
    if k < 2 {
      HeaderBroken(f, k, b);
    } else {
      assert g[2..4] == f[2..4];
      if k < |f| - 4 {
        ChecksumBroken(f, k, b);
      } else {
        TrailerBroken(f, k, b);
      }
    }
  }

  lemma OneRejected(frames: seq<bytes>, i: nat, bad: bytes)
    requires AllFrames(frames) && i < |frames| && Decode(bad).Err?
    ensures DecodeAll(frames[i := bad]) == Packets(frames[..i]) + Packets(frames[i + 1..])
  {
    assert frames[i := bad] == frames[..i] + ([bad] + frames[i + 1..]);
    DecodeAllAppend(frames[..i], [bad] + frames[i + 1..]);
    DecodeAllAppend([bad], frames[i + 1..]);
    DecodeAllFrames(frames[..i]);
    DecodeAllFrames(frames[i + 1..]);
    assert DecodeAll([bad]) == [];
  }

  /** Damage containment: any one byte changed at frame offset 4 or later costs exactly that frame;
      the others arrive unchanged and in order. */
  lemma DamageContained(frames: seq<bytes>, i: nat, k: nat, b: byte)
    requires AllFrames(frames) && i < |frames|
    requires 4 <= k < |frames[i]| && b != frames[i][k]
    ensures Offset(frames, i) + k < |Concat(frames)|
    ensures Deliver(Damaged(Concat(frames), Offset(frames, i) + k, b))
         == Packets(frames[..i]) + Packets(frames[i + 1..])
  {
    DamageInDatagram(frames, i, k, b);
    var bad := Damaged(frames[i], k, b);
    var damaged := frames[i := bad];
    assert bad[0..2] == frames[i][0..2] && bad[2..4] == frames[i][2..4];
    SplitJoined(damaged);
    DamagedFrameRejected(frames[i], k, b);
    OneRejected(frames, i, bad);
  }

  lemma ReplacedBehind(frames: seq<bytes>, i: nat, piece: bytes)
    requires 0 < i < |frames|
    ensures Concat(frames[i := piece])
         == (Concat(frames[..i - 1]) + frames[i - 1]) + (piece + Concat(frames[i + 1..]))
  {
    assert frames[..i] == frames[..i - 1] + [frames[i - 1]];
    ConcatLast(frames[..i - 1], frames[i - 1]);
    ConcatReplaced(frames, i, piece);
  }

  lemma FirstHeaderDamage(frames: seq<bytes>, k: nat, b: byte)
    requires AllFrames(frames) && |frames| > 0 && k < 2 && b != frames[0][k]
    ensures Deliver(Concat(frames[0 := Damaged(frames[0], k, b)])) == Packets(frames[1..])
  {
    var bad := Damaged(frames[0], k, b);
    assert bad[2..4] == frames[0][2..4];
    DamagedFrameRejected(frames[0], k, b);
    SplitJoined(frames[0 := bad]);
    OneRejected(frames, 0, bad);
    assert Packets(frames[..0]) == [];
  }

  lemma FrameTakesRest(f: bytes, rest: bytes)
    requires IsFrame(f) && !StartsWithHeader(rest)
    ensures Deliver(f + rest) == [PacketOf(f)]
  {
    var data := f + rest;
    assert data[2..4] == f[2..4] && data[|f|..] == rest;
    DecodeFrame(f, rest);
    assert Split(data) == [data];
    assert DecodeAll([data]) == [PacketOf(f)] + DecodeAll([]);
  }

  /** Bytes that do not start like a frame stay with the frame before them, and are not read. */
  lemma LastFrameTakesRest(front: seq<bytes>, last: bytes, rest: bytes)
    requires AllFrames(front) && IsFrame(last) && !StartsWithHeader(rest)
    ensures Deliver(Concat(front) + (last + rest)) == Packets(front) + [PacketOf(last)]
  {
    var behind := last + rest;
    assert behind[0..2] == last[0..2];
    PrefixDelivered(front, behind);
    FrameTakesRest(last, rest);
  }

  lemma LaterHeaderDamage(front: seq<bytes>, last: bytes, f: bytes, k: nat, b: byte, behind: bytes)
    requires AllFrames(front) && IsFrame(last) && IsFrame(f) && k < 2 && b != f[k]
    ensures Deliver((Concat(front) + last) + (Damaged(f, k, b) + behind)) == Packets(front) + [PacketOf(last)]
  {
    var bad := Damaged(f, k, b);
    var rest := bad + behind;
    HeaderBroken(f, k, b);
    assert rest[0..2] == bad[0..2];
    assert (Concat(front) + last) + rest == Concat(front) + (last + rest);
    LastFrameTakesRest(front, last, rest);
  }

  lemma PacketsAppend(frames: seq<bytes>, f: bytes)
    requires AllFrames(frames) && IsFrame(f)
    ensures Packets(frames + [f]) == Packets(frames) + [PacketOf(f)]
  {
    DecodeAllFrames(frames);
    DecodeAllFrames(frames + [f]);
    DecodeAllAppend(frames, [f]);
    DecodeAllFrames([f]);
  }

  /** Damage to a header byte: in the first frame only that frame is lost, in a later one that frame
      and everything behind it, because the splitter looks at the header of the following frame only. */
  lemma HeaderDamage(frames: seq<bytes>, i: nat, k: nat, b: byte)
    requires AllFrames(frames) && i < |frames|
    requires k < 2 && b != frames[i][k]
    ensures Offset(frames, i) + k < |Concat(frames)|
    ensures Deliver(Damaged(Concat(frames), Offset(frames, i) + k, b))
         == if i == 0 then Packets(frames[1..]) else Packets(frames[..i])
  {
    DamageInDatagram(frames, i, k, b);
    if i == 0 {
      FirstHeaderDamage(frames, k, b);
    } else {
      var front, last := frames[..i - 1], frames[i - 1];
      assert frames[..i] == front + [last];
      ReplacedBehind(frames, i, Damaged(frames[i], k, b));
      LaterHeaderDamage(front, last, frames[i], k, b, Concat(frames[i + 1..]));
      PacketsAppend(front, last);
    }
  }

  /** Damage to a length byte: the frames before the damaged one are delivered, exactly and in order,
      and then whatever the remaining bytes read as on their own. */
  lemma LengthDamage(frames: seq<bytes>, i: nat, k: nat, b: byte)
    requires AllFrames(frames) && i < |frames| && 2 <= k < 4
    ensures Offset(frames, i) + k < |Concat(frames)|
    ensures Deliver(Damaged(Concat(frames), Offset(frames, i) + k, b))
         == Packets(frames[..i]) + Deliver(Damaged(frames[i], k, b) + Concat(frames[i + 1..]))
  {
    DamageInDatagram(frames, i, k, b);
    var bad := Damaged(frames[i], k, b);
    ConcatReplaced(frames, i, bad);
    var rest := bad + Concat(frames[i + 1..]);
    assert rest[0..2] == frames[i][0..2];
    PrefixDelivered(frames[..i], rest);
  }

  // Any byte of any datagram

  /** Every byte of a datagram is a byte of one of its frames. */
  lemma {:induction false} Locate(frames: seq<bytes>, p: nat) returns (i: nat, k: nat)
    requires p < |Concat(frames)|
    ensures i < |frames| && k < |frames[i]| && p == Offset(frames, i) + k
  {
    if p < |frames[0]| {
      i, k := 0, p;
      assert Offset(frames, 0) == 0;
    } else {
      i, k := Locate(frames[1..], p - |frames[0]|);
      assert frames[..i + 1][1..] == frames[1..][..i];
      i := i + 1;
    }
  }

  lemma ByteOf(frames: seq<bytes>, i: nat, k: nat)
    requires i < |frames| && k < |frames[i]|
    ensures Offset(frames, i) + k < |Concat(frames)| && Concat(frames)[Offset(frames, i) + k] == frames[i][k]
  {
    ConcatReplaced(frames, i, frames[i]);
    assert frames[i := frames[i]] == frames;
  }

  /** What is delivered when byte k of frame i is changed: all other frames, unless it is in the header or the
      length. */
  predicate Costs(frames: seq<bytes>, i: nat, k: nat, delivered: seq<DataPacket>)
    requires AllFrames(frames) && i < |frames|
  {
    && (k >= 4 ==> delivered == Packets(frames[..i]) + Packets(frames[i + 1..]))
    && (k < 2 ==> delivered == if i == 0 then Packets(frames[1..]) else Packets(frames[..i]))
    && (2 <= k < 4 ==> Packets(frames[..i]) <= delivered)
  }

  lemma DamageAt(frames: seq<bytes>, i: nat, k: nat, b: byte, data: bytes)
    requires AllFrames(frames) && i < |frames| && k < |frames[i]| && b != frames[i][k]
    requires Offset(frames, i) + k < |Concat(frames)| && data == Damaged(Concat(frames), Offset(frames, i) + k, b)
    ensures Costs(frames, i, k, Deliver(data))
  {
    if k >= 4 {
      DamageContained(frames, i, k, b);
    } else if k < 2 {
      HeaderDamage(frames, i, k, b);
    } else {
      LengthDamage(frames, i, k, b);
    }
  }

  /** One byte of a datagram of frames changed, wherever it is: in which frame, at which offset there, and what is
      delivered. */
  lemma DamageAnywhere(frames: seq<bytes>, p: nat, b: byte) returns (i: nat, k: nat)
    requires AllFrames(frames) && p < |Concat(frames)| && b != Concat(frames)[p]
    ensures i < |frames| && k < |frames[i]| && p == Offset(frames, i) + k
    ensures Costs(frames, i, k, Deliver(Damaged(Concat(frames), p, b)))
  {
    i, k := Locate(frames, p);
    ByteOf(frames, i, k);
    DamageAt(frames, i, k, b, Damaged(Concat(frames), p, b));
  }

  // Datagrams of built frames

  datatype Message = Message(cmd: Command, serial: string, password: Option<string>, payload: bytes)

  predicate Sendable(m: Message)
  {
    IsSerial(m.serial) && (m.password.Some? ==> IsAscii(m.password.value)) && |m.payload| <= MAX_PAYLOAD
  }

  function BuildMessage(m: Message): bytes
    requires Sendable(m)
  {
    Build(m.cmd, Some(m.serial), m.password, m.payload)
  }

  /** The frames are the messages, built. */
  predicate AreBuilt(frames: seq<bytes>, messages: seq<Message>)
  {
    && |frames| == |messages|
    && forall j :: 0 <= j < |frames| ==> Sendable(messages[j]) && frames[j] == BuildMessage(messages[j])
  }

  /** What a message says, without its password. */
  function PacketFor(m: Message): DataPacket
  {
    DataPacket(m.cmd, m.serial, m.payload)
  }

  function Said(messages: seq<Message>): (packets: seq<DataPacket>)
    ensures |packets| == |messages| && forall j :: 0 <= j < |packets| ==> packets[j] == PacketFor(messages[j])
  {
    seq(|messages|, j requires 0 <= j < |messages| => PacketFor(messages[j]))
  }

  lemma {:induction false} PacketsAt(frames: seq<bytes>)
    requires AllFrames(frames)
    ensures |Packets(frames)| == |frames| && forall j :: 0 <= j < |frames| ==> Packets(frames)[j] == PacketOf(frames[j])
  {
    if |frames| == 0 {
    } else {
      PacketsAt(frames[1..]);
    }
  }

  lemma MessageSaid(m: Message)
    requires Sendable(m)
    ensures IsFrame(BuildMessage(m)) && PacketOf(BuildMessage(m)) == PacketFor(m)
  {
    BuildIsFrame(m.cmd, Some(m.serial), m.password, m.payload);
    DecodeFrame(BuildMessage(m), []);
    FrameRoundTrip(m.cmd, m.serial, m.password, m.payload, []);
  }

  /** Built messages are frames that say what the messages say. */
  lemma BuiltSaid(frames: seq<bytes>, messages: seq<Message>)
    requires AreBuilt(frames, messages)
    ensures AllFrames(frames) && Packets(frames) == Said(messages)
  {
    forall j | 0 <= j < |frames|
      ensures IsFrame(frames[j]) && PacketOf(frames[j]) == PacketFor(messages[j])
    {
      MessageSaid(messages[j]);
    }
    PacketsAt(frames);
  }

  lemma BuiltParts(frames: seq<bytes>, messages: seq<Message>, i: nat)
    requires AreBuilt(frames, messages) && i < |frames|
    ensures AreBuilt(frames[..i], messages[..i]) && AreBuilt(frames[i + 1..], messages[i + 1..])
  {
  }

  /** Any messages built into one datagram are delivered, in order, to the byte. */
  lemma BuiltDelivered(frames: seq<bytes>, messages: seq<Message>)
    requires AreBuilt(frames, messages) && |messages| > 0
    ensures Deliver(Concat(frames)) == Said(messages)
  {
    BuiltSaid(frames, messages);
    FramesDelivered(frames);
  }

  /** Any messages built into one datagram, and one byte of message i changed at frame offset 4 or later: the other
      messages are delivered exactly and in order, and message i is not. */
  lemma BuiltDamage(frames: seq<bytes>, messages: seq<Message>, i: nat, k: nat, b: byte)
    requires AreBuilt(frames, messages) && i < |frames|
    requires 4 <= k < |frames[i]| && b != frames[i][k]
    ensures Offset(frames, i) + k < |Concat(frames)|
    ensures Deliver(Damaged(Concat(frames), Offset(frames, i) + k, b)) == Said(messages[..i]) + Said(messages[i + 1..])
  {
    BuiltSaid(frames, messages);
    DamageContained(frames, i, k, b);
    BuiltParts(frames, messages, i);
    BuiltSaid(frames[..i], messages[..i]);
    BuiltSaid(frames[i + 1..], messages[i + 1..]);
  }
}
