/** What a damaged length byte costs a datagram (`split_frames` and `DataPacket` together). The frames before the
    damaged one are delivered; what the rest delivers depends on where its length now says it ends. */
module Lengths {
  import opened Wrappers
  import opened ByteStrings
  import opened Packet
  import opened Protocol
  import opened Damage

  /** A damaged frame and the frames behind it, as they stand in the datagram. */
  function Remainder(f: bytes, k: nat, b: byte, behind: seq<bytes>): (rest: bytes)
    requires k < |f|
    ensures |rest| == |f| + |Concat(behind)|
  {
    Damaged(f, k, b) + Concat(behind)
  }

  /** A frame of a datagram and a length byte of it that changes. */
  predicate IsLengthDamage(f: bytes, k: nat, b: byte, behind: seq<bytes>)
  {
    IsFrame(f) && AllFrames(behind) && 2 <= k < 4 && b != f[k]
  }

  /** What a piece of a datagram is read as. */
  function ReadAs(piece: bytes): seq<DataPacket>
  {
    if IsFrame(piece) then [PacketOf(piece)] else []
  }

  lemma RemainderFields(f: bytes, k: nat, b: byte, behind: seq<bytes>)
    requires IsLengthDamage(f, k, b, behind)
    ensures var rest := Remainder(f, k, b, behind);
            && rest[0..2] == f[0..2] && rest[19..21] == f[19..21] && Declared(rest) == Declared(Damaged(f, k, b))
            && Declared(rest) != |f|
  {
    var bad, rest := Damaged(f, k, b), Remainder(f, k, b, behind);
    assert rest[0..2] == f[0..2] && rest[19..21] == f[19..21] && rest[2..4] == bad[2..4];
    assert bad[2..4][k - 2] != f[2..4][k - 2];
    if FromBytes(bad[2..4]) == FromBytes(f[2..4]) {
      FromBytesInjective(bad[2..4], f[2..4]);
      assert false;
    }
  }

  lemma SliceBehind(front: bytes, g: bytes, lo: nat, hi: nat)
    requires lo <= hi <= |g|
    ensures (front + g)[|front| + lo..|front| + hi] == g[lo..hi]
  {
  }

  lemma SumsAgree(a: nat, b: nat)
    ensures b % 0xFFFF == (a + b) % 0xFFFF <==> a % 0xFFFF == 0
  {
  }

  lemma ChecksumBehind(middle: bytes, g: bytes)
    requires IsFrame(g)
    ensures var rest := middle + g; var n := |rest|;
            && FromBytes(rest[n - 2..n]) == TAIL
            && (FromBytes(rest[n - 4..n - 2]) == Sum(rest[..n - 4]) % 0xFFFF <==> Sum(middle) % 0xFFFF == 0)
  {
    var m := |g|;
    SliceBehind(middle, g, m - 4, m - 2);
    SliceBehind(middle, g, m - 2, m);
    assert g[m - 2..m] == g[m - 2..];
    assert (middle + g)[..|middle| + m - 4] == middle + g[..m - 4];
    SumAppend(middle, g[..m - 4]);
    SumsAgree(Sum(middle), Sum(g[..m - 4]));
  }

  lemma RemainderSplit(f: bytes, k: nat, b: byte, behind: seq<bytes>, m: nat)
    requires k < |f| && m <= |behind|
    ensures Remainder(f, k, b, behind) == Remainder(f, k, b, behind[..m]) + Concat(behind[m..])
  {
    assert behind == behind[..m] + behind[m..];
    ConcatAppend(behind[..m], behind[m..]);
  }

  lemma RemainderLast(f: bytes, k: nat, b: byte, behind: seq<bytes>)
    requires k < |f| && |behind| > 0
    ensures var n := |behind| - 1; Remainder(f, k, b, behind) == Remainder(f, k, b, behind[..n]) + behind[n]
  {
    var n := |behind| - 1;
    assert behind == behind[..n] + [behind[n]];
    ConcatLast(behind[..n], behind[n]);
  }

  /** Bytes that start like a frame and end in one are a frame but for the length exactly when what stands before
      that last frame sums to a multiple of 0xFFFF. */
  lemma FramedBehind(front: bytes, g: bytes)
    requires |front| >= 21 && StartsWithHeader(front) && IsCommand(FromBytes(front[19..21])) && IsFrame(g)
    ensures IsFramed(front + g) <==> Sum(front) % 0xFFFF == 0
  {
    var all := front + g;
    assert all[0..2] == front[0..2] && all[19..21] == front[19..21];
    ChecksumBehind(front, g);
    assert all[|all| - 2..] == all[|all| - 2..|all|];
  }

  /** A remainder that ends in a frame is itself a frame but for the length exactly when what stands before that
      last frame sums to a multiple of 0xFFFF. */
  lemma RemainderFramed(f: bytes, k: nat, b: byte, behind: seq<bytes>)
    requires IsLengthDamage(f, k, b, behind) && |behind| > 0
    ensures IsFramed(Remainder(f, k, b, behind))
       <==> Sum(Remainder(f, k, b, behind[..|behind| - 1])) % 0xFFFF == 0
  {
    var front := Remainder(f, k, b, behind[..|behind| - 1]);
    RemainderFields(f, k, b, behind[..|behind| - 1]);
    RemainderLast(f, k, b, behind);
    FramedBehind(front, behind[|behind| - 1]);
  }

  /** Without a frame behind, the damaged length itself breaks the checksum. */
  lemma FramedExactly(f: bytes, k: nat, b: byte, behind: seq<bytes>)
    requires IsLengthDamage(f, k, b, behind)
    ensures IsFramed(Remainder(f, k, b, behind))
       <==> |behind| > 0 && Sum(Remainder(f, k, b, behind[..|behind| - 1])) % 0xFFFF == 0
  {
    if |behind| == 0 {
      assert Remainder(f, k, b, behind) == Damaged(f, k, b);
      ChecksumBroken(f, k, b);
    } else {
      RemainderFramed(f, k, b, behind);
    }
  }

  // Lengths that cannot be the real end

  /** Bytes whose length field cannot be their length are read to their very end. */
  lemma ReadToTheEnd(rest: bytes)
    requires |rest| >= ENVELOPE_SIZE && StartsWithHeader(rest) && !(ENVELOPE_SIZE <= Declared(rest) <= |rest|)
    ensures Deliver(rest) == if IsFramed(rest) then [PacketOf(rest)] else []
  {
    assert Split(rest) == [rest];
    assert DecodeAll([rest][1..]) == [];
    DecodeAccepts(rest);
  }

  /** A length damaged to what cannot be a length makes one frame of everything behind it, read to the very end; it is
      accepted exactly when there is a frame behind and the bytes before the last one sum to a multiple
      of 0xFFFF. */
  lemma LengthOutOfRange(f: bytes, k: nat, b: byte, behind: seq<bytes>)
    requires IsLengthDamage(f, k, b, behind)
    requires var rest := Remainder(f, k, b, behind); !(ENVELOPE_SIZE <= Declared(rest) <= |rest|)
    ensures var rest := Remainder(f, k, b, behind);
            && Deliver(rest) == (if IsFramed(rest) then [PacketOf(rest)] else [])
            && (IsFramed(rest) <==>
                  |behind| > 0 && Sum(Remainder(f, k, b, behind[..|behind| - 1])) % 0xFFFF == 0)
  {
    var rest := Remainder(f, k, b, behind);
    RemainderFields(f, k, b, behind);
    ReadToTheEnd(rest);
    FramedExactly(f, k, b, behind);
  }

  // Lengths that could be the real end

  lemma CutAtEnd(rest: bytes)
    requires ENVELOPE_SIZE <= Declared(rest) <= |rest|
    ensures var end := Declared(rest);
            (Deliver(rest)
             == ReadAs(rest[..end]) + (if StartsWithHeader(rest[end..]) then Deliver(rest[end..]) else []))
  {
    var end := Declared(rest);
    var piece := rest[..end];
    assert piece[2..4] == rest[2..4];
    assert piece[..end] == piece;
    DecodeAccepts(rest);
    DecodeAccepts(piece);
    assert DecodeAll([piece]) == DecodeAll([rest]) == ReadAs(piece) by {
      assert [piece][1..] == [] && [rest][1..] == [];
    }
    if StartsWithHeader(rest[end..]) {
      assert Split(rest) == [piece] + Split(rest[end..]);
      DecodeAllAppend([piece], Split(rest[end..]));
    } else {
      assert Split(rest) == [rest];
    }
  }

  /** A length damaged to what could be one cuts the datagram there: the piece up to the new end is read on its own, and
      what is behind it is read only if it starts like a frame. */
  lemma LengthInRange(f: bytes, k: nat, b: byte, behind: seq<bytes>)
    requires IsLengthDamage(f, k, b, behind)
    requires var rest := Remainder(f, k, b, behind); ENVELOPE_SIZE <= Declared(rest) <= |rest|
    ensures var rest := Remainder(f, k, b, behind);
            var end := Declared(rest);
            (Deliver(rest)
             == ReadAs(rest[..end]) + (if StartsWithHeader(rest[end..]) then Deliver(rest[end..]) else []))
  {
    CutAtEnd(Remainder(f, k, b, behind));
  }

  lemma BoundaryFramed(f: bytes, k: nat, b: byte, behind: seq<bytes>, m: nat)
    requires IsLengthDamage(f, k, b, behind) && 1 <= m <= |behind|
    requires Declared(Damaged(f, k, b)) == |Remainder(f, k, b, behind[..m])|
    ensures IsFrame(Remainder(f, k, b, behind[..m])) <==> Sum(Remainder(f, k, b, behind[..m - 1])) % 0xFFFF == 0
  {
    RemainderFields(f, k, b, behind[..m]);
    assert behind[..m][..m - 1] == behind[..m - 1];
    RemainderFramed(f, k, b, behind[..m]);
  }

  lemma FramesBehind(frames: seq<bytes>)
    requires AllFrames(frames)
    ensures (if StartsWithHeader(Concat(frames)) then Deliver(Concat(frames)) else []) == Packets(frames)
  {
    if |frames| == 0 {
    } else {
      assert Concat(frames)[0..2] == frames[0][0..2];
      FramesDelivered(frames);
    }
  }

  /** Where the new end is the end of a later frame, the frames behind that one are delivered, and the piece before
      them exactly when what stands before its last frame sums to a multiple of 0xFFFF. */
  lemma LengthAtBoundary(f: bytes, k: nat, b: byte, behind: seq<bytes>, m: nat)
    requires IsLengthDamage(f, k, b, behind) && 1 <= m <= |behind|
    requires Declared(Damaged(f, k, b)) == |Remainder(f, k, b, behind[..m])|
    ensures var piece := Remainder(f, k, b, behind[..m]);
            && Deliver(Remainder(f, k, b, behind)) == ReadAs(piece) + Packets(behind[m..])
            && (IsFrame(piece) <==> Sum(Remainder(f, k, b, behind[..m - 1])) % 0xFFFF == 0)
  {
    var rest, piece := Remainder(f, k, b, behind), Remainder(f, k, b, behind[..m]);
    RemainderFields(f, k, b, behind);
    RemainderSplit(f, k, b, behind, m);
    assert rest[..|piece|] == piece && rest[|piece|..] == Concat(behind[m..]);
    LengthInRange(f, k, b, behind);
    FramesBehind(behind[m..]);
    BoundaryFramed(f, k, b, behind, m);
  }

  // When the damage is contained

  /** The frames behind the damaged one are delivered, and nothing else of the remainder. */
  predicate Contained(f: bytes, k: nat, b: byte, behind: seq<bytes>)
    requires IsLengthDamage(f, k, b, behind)
  {
    Deliver(Remainder(f, k, b, behind)) == Packets(behind)
  }

  /** A piece longer than a frame says something else. */
  lemma LongerSaysElse(piece: bytes, g: bytes)
    requires IsFramed(piece) && IsFrame(g) && |piece| != |g|
    ensures PacketOf(piece) != PacketOf(g)
  {
    assert |PacketOf(piece).data| == |piece| - ENVELOPE_SIZE && |PacketOf(g).data| == |g| - ENVELOPE_SIZE;
  }

  lemma PacketsCount(frames: seq<bytes>)
    requires AllFrames(frames)
    ensures |Packets(frames)| == |frames| && (|frames| > 0 ==> Packets(frames)[0] == PacketOf(frames[0]))
  {
    PacketsAt(frames);
  }

  /** Damage to an impossible length is contained exactly if no frame is behind. */
  lemma OutOfRangeContained(f: bytes, k: nat, b: byte, behind: seq<bytes>)
    requires IsLengthDamage(f, k, b, behind)
    requires var rest := Remainder(f, k, b, behind); !(ENVELOPE_SIZE <= Declared(rest) <= |rest|)
    ensures Contained(f, k, b, behind) <==> |behind| == 0
  {
    var rest := Remainder(f, k, b, behind);
    LengthOutOfRange(f, k, b, behind);
    PacketsCount(behind);
    if |behind| == 1 && IsFramed(rest) {
      assert |rest| > |behind[0]| by {
        assert Concat(behind) == behind[0] + Concat([]);
      }
      LongerSaysElse(rest, behind[0]);
    }
  }

  /** Damage to a length that ends at a later frame's end is never contained. */
  lemma BoundaryNotContained(f: bytes, k: nat, b: byte, behind: seq<bytes>, m: nat)
    requires IsLengthDamage(f, k, b, behind) && 1 <= m <= |behind|
    requires Declared(Damaged(f, k, b)) == |Remainder(f, k, b, behind[..m])|
    ensures !Contained(f, k, b, behind)
  {
    var piece := Remainder(f, k, b, behind[..m]);
    LengthAtBoundary(f, k, b, behind, m);
    PacketsCount(behind);
    PacketsCount(behind[m..]);
    if m == 1 && IsFrame(piece) {
      RemainderLast(f, k, b, behind[..1]);
      LongerSaysElse(piece, behind[0]);
    }
  }

  /** Damage to a possible length behind which no frame starts is contained exactly if at most one frame is behind
      and the piece up to the new end is read as just that. */
  lemma NoHeaderContained(f: bytes, k: nat, b: byte, behind: seq<bytes>)
    requires IsLengthDamage(f, k, b, behind)
    requires var rest := Remainder(f, k, b, behind);
             ENVELOPE_SIZE <= Declared(rest) <= |rest| && !StartsWithHeader(rest[Declared(rest)..])
    ensures var rest := Remainder(f, k, b, behind);
            && |Deliver(rest)| <= 1
            && (Contained(f, k, b, behind) <==> |behind| <= 1 && ReadAs(rest[..Declared(rest)]) == Packets(behind))
  {
    LengthInRange(f, k, b, behind);
    PacketsCount(behind);
  }

  /** Pieces that end where they declare, all but the first starting like a frame. */
  predicate AreDeclared(pieces: seq<bytes>)
  {
    && (forall i :: 0 <= i < |pieces| ==> |pieces[i]| == Declared(pieces[i]) >= ENVELOPE_SIZE)
    && (forall i :: 1 <= i < |pieces| ==> StartsWithHeader(pieces[i]))
  }

  lemma PacketsParts(frames: seq<bytes>, m: nat)
    requires AllFrames(frames) && m <= |frames|
    ensures Packets(frames) == Packets(frames[..m]) + Packets(frames[m..])
  {
    assert frames == frames[..m] + frames[m..];
    DecodeAllAppend(frames[..m], frames[m..]);
    DecodeAllFrames(frames);
    DecodeAllFrames(frames[..m]);
    DecodeAllFrames(frames[m..]);
  }

  lemma ResynchronisedDelivers(rest: bytes, pieces: seq<bytes>, frames: seq<bytes>)
    requires |pieces| > 0 && AreDeclared(pieces) && AllFrames(frames) && Concat(pieces) + Concat(frames) == rest
    ensures Deliver(rest) == DecodeAll(pieces) + Packets(frames)
  {
    ConcatAppend(pieces, frames);
    SplitJoined(pieces + frames);
    DecodeAllAppend(pieces, frames);
    DecodeAllFrames(frames);
  }

  lemma SameInFront<T>(a: seq<T>, b: seq<T>, tail: seq<T>)
    ensures a + tail == b + tail <==> a == b
  {
    if a + tail == b + tail {
      assert |a| == |b|;
      assert (a + tail)[..|a|] == a && (b + tail)[..|b|] == b;
    }
  }

  lemma ContainedInFront(f: bytes, k: nat, b: byte, behind: seq<bytes>, read: seq<DataPacket>, m: nat)
    requires IsLengthDamage(f, k, b, behind) && m <= |behind|
    requires Deliver(Remainder(f, k, b, behind)) == read + Packets(behind[m..])
    ensures Contained(f, k, b, behind) <==> read == Packets(behind[..m])
  {
    PacketsParts(behind, m);
    SameInFront(read, Packets(behind[..m]), Packets(behind[m..]));
  }

  /** Where headers inside the frames lead back to the start of frame m, by whatever pieces, the damage is contained
      exactly if those of the pieces that can be read say what the frames up to m say. */
  lemma ResynchronisedContained(f: bytes, k: nat, b: byte, behind: seq<bytes>, pieces: seq<bytes>, m: nat)
    requires IsLengthDamage(f, k, b, behind) && m <= |behind| && |pieces| > 0 && AreDeclared(pieces)
    requires Concat(pieces) + Concat(behind[m..]) == Remainder(f, k, b, behind)
    ensures Contained(f, k, b, behind) <==> DecodeAll(pieces) == Packets(behind[..m])
  {
    ResynchronisedDelivers(Remainder(f, k, b, behind), pieces, behind[m..]);
    ContainedInFront(f, k, b, behind, DecodeAll(pieces), m);
  }

  /** In a whole datagram: the other frames are delivered exactly if the remainder contains the damage. */
  lemma LengthContainment(frames: seq<bytes>, i: nat, k: nat, b: byte)
    requires AllFrames(frames) && i < |frames| && 2 <= k < 4 && b != frames[i][k]
    ensures Offset(frames, i) + k < |Concat(frames)|
    ensures Deliver(Damaged(Concat(frames), Offset(frames, i) + k, b))
         == Packets(frames[..i]) + Packets(frames[i + 1..])
       <==> Contained(frames[i], k, b, frames[i + 1..])
  {
    LengthDamage(frames, i, k, b);
    var front, rest := Packets(frames[..i]), Deliver(Remainder(frames[i], k, b, frames[i + 1..]));
    var others := Packets(frames[i + 1..]);
    assert (front + rest)[|front|..] == rest && (front + others)[|front|..] == others;
  }

  /** A heading: the shortest frame. */
  function Heading(): bytes
  {
    Build(HEADING_EVENT, None, None, [])
  }

  lemma LengthBytes(f: bytes)
    requires |f| == 25 && FromBytes(f[2..4]) == 25
    ensures f[2] == 0 && f[3] == 25
  {
    FromBytes2(f[2..4]);
  }

  lemma HeadingIs()
    ensures var f := Heading(); IsFrame(f) && |f| == 25 && f[2] == 0 && f[3] == 25
  {
    BuildIsFrame(HEADING_EVENT, None, None, []);
    LengthBytes(Heading());
  }

  /** Two headings, and the low length byte of the first one changed, to an impossible length or to the length of
      both: the damage is not contained. */
  lemma HeadingsNotContained(b: byte)
    requires b in {0, 50}
    ensures var f := Heading(); IsLengthDamage(f, 3, b, [f]) && !Contained(f, 3, b, [f])
  {
    HeadingIs();
    var f := Heading();
    var bad := Damaged(f, 3, b);
    RemainderFields(f, 3, b, [f]);
    FromBytes2(bad[2..4]);
    assert Declared(bad) == b;
    RemainderLast(f, 3, b, [f]);
    if b == 0 {
      OutOfRangeContained(f, 3, b, [f]);
    } else {
      assert [f][..1] == [f];
      BoundaryNotContained(f, 3, b, [f], 1);
    }
  }

  lemma FirstOfTwo(f: bytes, k: nat, b: byte)
    requires k < |f|
    ensures |Concat([f, f])| == 2 * |f| && Damaged(Concat([f, f]), k, b) == Remainder(f, k, b, [f])
  {
    assert [f, f][1..] == [f] && [f][1..] == [];
    assert Concat([f]) == f && Concat([f, f]) == f + f;
  }

  /** Such a datagram: the second heading, which is whole, is not delivered. */
  lemma ContainmentFails(b: byte)
    requires b in {0, 50}
    ensures var f := Heading();
            && IsFrame(f) && |Concat([f, f])| == 50 && b != f[3]
            && Deliver(Damaged(Concat([f, f]), 3, b)) != [PacketOf(f)]
  {
    HeadingIs();
    HeadingsNotContained(b);
    FirstOfTwo(Heading(), 3, b);
    PacketsCount([Heading()]);
  }
}
