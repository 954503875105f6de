/** Reading the charger's history ring (evsemaster/device.py): what a read returns, as a function of the
    packets handled during its waits. The network may lose, repeat and reorder as it likes: a wait may
    handle any packets at all. */
module History {
  import opened Wrappers
  import opened ByteStrings
  import opened Packet

  const HISTORY_PASSES := 4
  const RECORD_SIZE := 88
  const HAS_RECORD: byte := 1
  const NO_RECORD: byte := 3

  /** A charge record, kept as the bytes its fields are read from. */
  type Record = bytes

  function ParseRecord(data: bytes, offset: nat): Option<Record>
  {
    if |data| < offset + RECORD_SIZE then None else Some(data[offset..offset + RECORD_SIZE])
  }

  type Slots = map<nat, Option<Record>>

  /** Whether a packet answers for a slot. */
  predicate Answers(packet: DataPacket, index: nat)
  {
    packet.command == HISTORY_RECORD_EVENT && |packet.data| >= 9 && packet.GetInt(4, 4) == index
  }

  /** `_handle_history_record` while a read is on. */
  function Note(slots: Slots, packet: DataPacket): Slots
  {
    if packet.command != HISTORY_RECORD_EVENT || |packet.data| < 9 then slots
    else slots[packet.GetInt(4, 4) := if packet.GetInt(8, 1) == 1 then ParseRecord(packet.data, 9) else None]
  }

  /** A packet handled at some time. */
  datatype Arrival = Arrival(packet: DataPacket, at: int)

  function NoteAll(slots: Slots, arrivals: seq<Arrival>): Slots
  {
    if |arrivals| == 0 then slots
    else Note(NoteAll(slots, arrivals[..|arrivals| - 1]), arrivals[|arrivals| - 1].packet)
  }

  /** What is handled during wait k; past the list nothing is. */
  function Batch(waits: seq<seq<Arrival>>, k: nat): seq<Arrival>
  {
    if k < |waits| then waits[k] else []
  }

  /** Everything handled from wait `from` up to wait `to`. */
  function Handled(waits: seq<seq<Arrival>>, from: nat, to: nat): seq<Arrival>
    requires from <= to
  {
    if from == to then [] else Handled(waits, from, to - 1) + Batch(waits, to - 1)
  }

  function Unanswered(missing: seq<nat>, slots: Slots): seq<nat>
  {
    if |missing| == 0 then []
    else (if missing[0] in slots then [] else [missing[0]]) + Unanswered(missing[1..], slots)
  }

  /** Slots 1 to the capacity. */
  function AllSlots(capacity: nat): seq<nat>
  {
    seq(capacity, i => i + 1)
  }

  /** Where a read stands: the answers noted, the slots still missing, what each pass asked for, and the number
      of the next wait. */
  datatype Reading = Reading(slots: Slots, missing: seq<nat>, asked: seq<seq<nat>>, next: nat)

  /** A read of a ring that starts at wait k. */
  function Started(capacity: nat, k: nat): Reading
  {
    Reading(map[], AllSlots(capacity), [], k)
  }

  /** One pass of `read_history`: asks for every missing slot, waiting after each request and once more at the end. */
  function Pass(r: Reading, waits: seq<seq<Arrival>>): Reading
  {
    var k' := r.next + |r.missing| + 1;
    var slots' := NoteAll(r.slots, Handled(waits, r.next, k'));
    Reading(slots', Unanswered(r.missing, slots'), r.asked + [r.missing], k')
  }

  /** A read after at most so many passes; it stops after a pass that leaves nothing missing. */
  function AfterPasses(r: Reading, waits: seq<seq<Arrival>>, passes: nat): Reading
  {
    if passes == 0 then r
    else
      var before := AfterPasses(r, waits, passes - 1);
      if passes > 1 && |before.missing| == 0 then before else Pass(before, waits)
  }

  /** The read of a ring of a given capacity, starting at wait k. */
  function ReadAll(capacity: nat, waits: seq<seq<Arrival>>, k: nat): Reading
  {
    AfterPasses(Started(capacity, k), waits, HISTORY_PASSES)
  }

  /** The records a read returns: the slots answered with one. */
  function RecordsOf(slots: Slots): map<nat, Record>
  {
    map i | i in slots && slots[i].Some? :: slots[i].value
  }

  // Answers

  lemma {:induction false} NoteAllKeys(arrivals: seq<Arrival>, i: nat)
    ensures i in NoteAll(map[], arrivals) <==> exists j :: 0 <= j < |arrivals| && Answers(arrivals[j].packet, i)
  {
    if |arrivals| == 0 {
    } else {
      var n := |arrivals| - 1;
      NoteAllKeys(arrivals[..n], i);
      if j :| 0 <= j < n && Answers(arrivals[j].packet, i) {
        assert arrivals[..n][j] == arrivals[j];
      }
    }
  }

  lemma {:induction false} NoteAllAppend(slots: Slots, a: seq<Arrival>, b: seq<Arrival>)
    ensures NoteAll(slots, a + b) == NoteAll(NoteAll(slots, a), b)
  {
    if |b| == 0 {
      assert a + b == a;
    } else {
      assert (a + b)[..|a + b| - 1] == a + b[..|b| - 1];
      NoteAllAppend(slots, a, b[..|b| - 1]);
    }
  }

  lemma {:induction false} HandledSplit(waits: seq<seq<Arrival>>, from: nat, mid: nat, to: nat)
    requires from <= mid <= to
    ensures Handled(waits, from, to) == Handled(waits, from, mid) + Handled(waits, mid, to)
  {
    if mid == to {
    } else {
      HandledSplit(waits, from, mid, to - 1);
    }
  }

  /** Whether a slot was answered for during the waits from k up to k'. */
  ghost predicate AnsweredBy(waits: seq<seq<Arrival>>, k: nat, k': nat, i: nat)
    requires k <= k'
  {
    exists j :: 0 <= j < |Handled(waits, k, k')| && Answers(Handled(waits, k, k')[j].packet, i)
  }

  lemma {:induction false} UnansweredExact(missing: seq<nat>, slots: Slots)
    ensures forall i :: i in Unanswered(missing, slots) <==> i in missing && i !in slots
    ensures |Unanswered(missing, slots)| <= |missing|
  {
    if |missing| == 0 {
    } else {
      UnansweredExact(missing[1..], slots);
    }
  }

  // What the passes ask for

  /** The number of the wait at which the first p passes end. */
  function PassEnd(asked: seq<seq<nat>>, k: nat, p: nat): (end: nat)
    requires p <= |asked|
    ensures k <= end
  {
    if p == 0 then k else PassEnd(asked, k, p - 1) + |asked[p - 1]| + 1
  }

  lemma {:induction false} PassEndMore(asked: seq<seq<nat>>, last: seq<nat>, k: nat, p: nat)
    requires p <= |asked|
    ensures PassEnd(asked + [last], k, p) == PassEnd(asked, k, p)
  {
    if p == 0 {
    } else {
      PassEndMore(asked, last, k, p - 1);
    }
  }

  /** A read that has noted what was handled from wait k on, and whose missing slots are those of the
      ring not answered for. */
  ghost predicate UpToDate(capacity: nat, waits: seq<seq<Arrival>>, k: nat, r: Reading)
  {
    && k <= r.next
    && r.slots == NoteAll(map[], Handled(waits, k, r.next))
    && r.missing == Unanswered(AllSlots(capacity), r.slots)
  }

  lemma NotedOn(waits: seq<seq<Arrival>>, start: nat, k: nat, k': nat)
    requires start <= k <= k'
    ensures NoteAll(NoteAll(map[], Handled(waits, start, k)), Handled(waits, k, k'))
         == NoteAll(map[], Handled(waits, start, k'))
  {
    HandledSplit(waits, start, k, k');
    NoteAllAppend(map[], Handled(waits, start, k), Handled(waits, k, k'));
  }

  lemma {:induction false} UnansweredAgain(missing: seq<nat>, slots: Slots, slots': Slots)
    requires slots.Keys <= slots'.Keys
    ensures Unanswered(Unanswered(missing, slots), slots') == Unanswered(missing, slots')
  {
    if |missing| == 0 {
    } else {
      UnansweredAgain(missing[1..], slots, slots');
      if missing[0] in slots {
        assert [] + Unanswered(missing[1..], slots) == Unanswered(missing[1..], slots);
      } else {
        assert Unanswered(missing, slots)[1..] == Unanswered(missing[1..], slots);
      }
    }
  }

  lemma {:induction false} NotedStay(slots: Slots, arrivals: seq<Arrival>)
    ensures slots.Keys <= NoteAll(slots, arrivals).Keys
  {
    if |arrivals| == 0 {
    } else {
      NotedStay(slots, arrivals[..|arrivals| - 1]);
    }
  }

  lemma PassUpToDate(capacity: nat, waits: seq<seq<Arrival>>, k: nat, r: Reading)
    requires UpToDate(capacity, waits, k, r)
    ensures UpToDate(capacity, waits, k, Pass(r, waits))
  {
    var r' := Pass(r, waits);
    NotedOn(waits, k, r.next, r'.next);
    NotedStay(r.slots, Handled(waits, r.next, r'.next));
    UnansweredAgain(AllSlots(capacity), r.slots, r'.slots);
  }

  /** A read starts by lacking the whole ring. */
  lemma {:induction false} NothingAnswered(missing: seq<nat>)
    ensures Unanswered(missing, map[]) == missing
  {
    if |missing| == 0 {
    } else {
      NothingAnswered(missing[1..]);
    }
  }

  /** In order, and so each at most once. */
  predicate Increasing(slots: seq<nat>)
  {
    forall a, b :: 0 <= a < b < |slots| ==> slots[a] < slots[b]
  }

  lemma {:induction false} UnansweredIncreasing(missing: seq<nat>, slots: Slots)
    requires Increasing(missing)
    ensures Increasing(Unanswered(missing, slots))
  {
    if |missing| == 0 {
    } else {
      UnansweredIncreasing(missing[1..], slots);
      UnansweredExact(missing[1..], slots);
      var rest := Unanswered(missing[1..], slots);
      forall a | 0 <= a < |rest|
        ensures missing[0] < rest[a]
      {
        assert rest[a] in missing[1..];
      }
    }
  }

  lemma {:induction false} IncreasingOnce(slots: seq<nat>, i: nat)
    requires Increasing(slots)
    ensures multiset(slots)[i] <= 1
  {
    if |slots| == 0 {
    } else {
      var n := |slots| - 1;
      IncreasingOnce(slots[..n], i);
      assert slots == slots[..n] + [slots[n]];
      if i == slots[n] {
        assert i !in slots[..n];
      }
    }
  }

  /** Pass p asked, in order, for exactly the slots of the ring not answered for by the end of the passes before
      it. */
  ghost predicate AsksMissing(capacity: nat, waits: seq<seq<Arrival>>, k: nat, asked: seq<seq<nat>>, p: nat)
    requires p < |asked|
  {
    && |asked[p]| <= capacity && Increasing(asked[p])
    && forall i: nat :: i in asked[p] <==> 1 <= i <= capacity && !AnsweredBy(waits, k, PassEnd(asked, k, p), i)
  }

  ghost predicate AllAskMissing(capacity: nat, waits: seq<seq<Arrival>>, k: nat, asked: seq<seq<nat>>)
  {
    forall p: nat :: p < |asked| ==> AsksMissing(capacity, waits, k, asked, p)
  }

  lemma AsksMissingMore(capacity: nat, waits: seq<seq<Arrival>>, k: nat, asked: seq<seq<nat>>, last: seq<nat>, p: nat)
    requires p < |asked| && AsksMissing(capacity, waits, k, asked, p)
    ensures AsksMissing(capacity, waits, k, asked + [last], p)
  {
    PassEndMore(asked, last, k, p);
  }

  lemma AllSlotsExact(capacity: nat)
    ensures forall i: nat :: i in AllSlots(capacity) <==> 1 <= i <= capacity
  {
    forall i: nat | 1 <= i <= capacity
      ensures i in AllSlots(capacity)
    {
      assert AllSlots(capacity)[i - 1] == i;
    }
  }

  lemma LastAsksMissing(capacity: nat, waits: seq<seq<Arrival>>, k: nat, r: Reading)
    requires UpToDate(capacity, waits, k, r) && r.next == PassEnd(r.asked, k, |r.asked|)
    ensures AsksMissing(capacity, waits, k, r.asked + [r.missing], |r.asked|)
  {
    PassEndMore(r.asked, r.missing, k, |r.asked|);
    AllSlotsExact(capacity);
    UnansweredExact(AllSlots(capacity), r.slots);
    UnansweredIncreasing(AllSlots(capacity), r.slots);
    forall i: nat
      ensures i in r.slots <==> AnsweredBy(waits, k, r.next, i)
    {
      NoteAllKeys(Handled(waits, k, r.next), i);
    }
  }

  /** A read that is up to date, and each of whose passes asked for what was missing. */
  ghost predicate Sound(capacity: nat, waits: seq<seq<Arrival>>, k: nat, r: Reading)
  {
    && UpToDate(capacity, waits, k, r)
    && r.next == PassEnd(r.asked, k, |r.asked|)
    && AllAskMissing(capacity, waits, k, r.asked)
  }

  lemma AllAskMissingMore(capacity: nat, waits: seq<seq<Arrival>>, k: nat, asked: seq<seq<nat>>, last: seq<nat>)
    requires AllAskMissing(capacity, waits, k, asked)
    requires AsksMissing(capacity, waits, k, asked + [last], |asked|)
    ensures AllAskMissing(capacity, waits, k, asked + [last])
  {
    forall p: nat | p < |asked|
      ensures AsksMissing(capacity, waits, k, asked + [last], p)
    {
      assert AsksMissing(capacity, waits, k, asked, p);
      AsksMissingMore(capacity, waits, k, asked, last, p);
    }
  }

  lemma PassAsksMissing(capacity: nat, waits: seq<seq<Arrival>>, k: nat, r: Reading)
    requires Sound(capacity, waits, k, r)
    ensures AllAskMissing(capacity, waits, k, r.asked + [r.missing])
  {
    LastAsksMissing(capacity, waits, k, r);
    AllAskMissingMore(capacity, waits, k, r.asked, r.missing);
  }

  lemma SoundPass(capacity: nat, waits: seq<seq<Arrival>>, k: nat, r: Reading)
    requires Sound(capacity, waits, k, r)
    ensures Sound(capacity, waits, k, Pass(r, waits))
  {
    PassUpToDate(capacity, waits, k, r);
    PassAsksMissing(capacity, waits, k, r);
    PassEndMore(r.asked, r.missing, k, |r.asked|);
  }

  /** A read is sound after any number of passes. */
  lemma {:induction false} PassesMeaning(capacity: nat, waits: seq<seq<Arrival>>, k: nat, passes: nat)
    ensures Sound(capacity, waits, k, AfterPasses(Started(capacity, k), waits, passes))
  {
    if passes == 0 {
      NothingAnswered(AllSlots(capacity));
    } else {
      PassesMeaning(capacity, waits, k, passes - 1);
      SoundPass(capacity, waits, k, AfterPasses(Started(capacity, k), waits, passes - 1));
    }
  }

  /** Something is still missing only after the last pass; the first one asks for the whole ring. */
  lemma {:induction false} PassesCounted(capacity: nat, waits: seq<seq<Arrival>>, k: nat, passes: nat)
    ensures var r := AfterPasses(Started(capacity, k), waits, passes);
            && |r.asked| <= passes
            && (passes > 0 ==> |r.asked| > 0 && r.asked[0] == AllSlots(capacity))
            && (|r.missing| > 0 ==> |r.asked| == passes)
  {
    if passes == 0 {
    } else {
      PassesCounted(capacity, waits, k, passes - 1);
    }
  }

  /** The slots of all passes, in the order asked for. */
  function Flat(lists: seq<seq<nat>>): seq<nat>
  {
    if |lists| == 0 then [] else Flat(lists[..|lists| - 1]) + lists[|lists| - 1]
  }

  ghost predicate AllIncreasing(asked: seq<seq<nat>>)
  {
    forall p: nat :: p < |asked| ==> Increasing(asked[p])
  }

  /** Passes that ask in order ask for no slot more often than there are passes. */
  lemma {:induction false} FlatSeldom(asked: seq<seq<nat>>, i: nat)
    requires AllIncreasing(asked)
    ensures multiset(Flat(asked))[i] <= |asked|
  {
    if |asked| == 0 {
    } else {
      FlatSeldom(asked[..|asked| - 1], i);
      IncreasingOnce(asked[|asked| - 1], i);
    }
  }

  lemma {:induction false} FlatBounded(asked: seq<seq<nat>>, capacity: nat, passes: nat)
    requires |asked| <= passes && forall p: nat :: p < |asked| ==> |asked[p]| <= capacity
    ensures |Flat(asked)| <= passes * capacity
  {
    if |asked| == 0 {
    } else {
      FlatBounded(asked[..|asked| - 1], capacity, passes - 1);
      assert passes * capacity == (passes - 1) * capacity + capacity;
    }
  }

  /** No slot is asked for more often than a read has passes. */
  ghost predicate AsksSeldom(asked: seq<seq<nat>>)
  {
    forall i: nat :: multiset(Flat(asked))[i] <= HISTORY_PASSES
  }

  lemma AskSeldom(asked: seq<seq<nat>>)
    requires |asked| <= HISTORY_PASSES && AllIncreasing(asked)
    ensures AsksSeldom(asked)
  {
    forall i: nat
      ensures multiset(Flat(asked))[i] <= HISTORY_PASSES
    {
      FlatSeldom(asked, i);
    }
  }

  lemma AskedBounds(capacity: nat, waits: seq<seq<Arrival>>, k: nat, asked: seq<seq<nat>>)
    requires AllAskMissing(capacity, waits, k, asked) && |asked| <= HISTORY_PASSES
    ensures AsksSeldom(asked) && |Flat(asked)| <= HISTORY_PASSES * capacity
  {
    forall p: nat | p < |asked|
      ensures Increasing(asked[p]) && |asked[p]| <= capacity
    {
      assert AsksMissing(capacity, waits, k, asked, p);
    }
    AskSeldom(asked);
    FlatBounded(asked, capacity, HISTORY_PASSES);
  }

  /** What a read asks for: every slot once, then in each further pass exactly the slots no reply was handled for
      by the end of the pass before, in order and once each; so no slot more than four times, and at most
      4 * capacity requests. */
  lemma HistoryRequests(capacity: nat, waits: seq<seq<Arrival>>, k: nat)
    ensures var r := ReadAll(capacity, waits, k);
            && 1 <= |r.asked| <= HISTORY_PASSES
            && r.asked[0] == AllSlots(capacity)
            && AllAskMissing(capacity, waits, k, r.asked)
            && (|r.missing| > 0 ==> |r.asked| == HISTORY_PASSES)
            && AsksSeldom(r.asked)
            && |Flat(r.asked)| <= HISTORY_PASSES * capacity
  {
    PassesMeaning(capacity, waits, k, HISTORY_PASSES);
    PassesCounted(capacity, waits, k, HISTORY_PASSES);
    AskedBounds(capacity, waits, k, ReadAll(capacity, waits, k).asked);
  }

  // What a read returns

  /** The ring of a charger: the bytes stored in its slots. */
  type Ring = map<nat, bytes>

  /** The record a slot holds, if it holds one. */
  function Holds(ring: Ring, i: nat): Option<Record>
  {
    if i in ring then ParseRecord(ring[i], 0) else None
  }

  /** A charger's reply for a slot: capacity, slot, flag, and the record or filler. */
  function RecordReply(ring: Ring, capacity: nat, i: nat): bytes
    requires capacity < 0x1_0000_0000 && i < 0x1_0000_0000
  {
    var stored := if i in ring then ring[i] else [];
    if |stored| > 0 then U32(capacity) + U32(i) + [HAS_RECORD] + stored
    else U32(capacity) + U32(i) + [NO_RECORD] + Zeros(96)
  }

  /** A packet that, if it is a history record, is the charger's reply for some slot. */
  ghost predicate FromCharger(ring: Ring, packet: DataPacket)
  {
    packet.command == HISTORY_RECORD_EVENT ==>
      exists capacity: nat, i: nat | capacity < 0x1_0000_0000 && i < 0x1_0000_0000 ::
        packet.data == RecordReply(ring, capacity, i)
  }

  lemma ReplyNoted(ring: Ring, capacity: nat, i: nat, packet: DataPacket, slots: Slots)
    requires capacity < 0x1_0000_0000 && i < 0x1_0000_0000
    requires packet.command == HISTORY_RECORD_EVENT && packet.data == RecordReply(ring, capacity, i)
    ensures Note(slots, packet) == slots[i := Holds(ring, i)]
  {
    var data := packet.data;
    assert Slice(data, 4, 8) == U32(i);
    assert Slice(data, 8, 9) == [data[8]] && FromBytes([data[8]]) == data[8];
    if i in ring && |ring[i]| > 0 {
      assert data[9..] == ring[i];
      if |ring[i]| >= RECORD_SIZE {
        assert data[9..9 + RECORD_SIZE] == ring[i][..RECORD_SIZE];
      }
    }
  }

  lemma {:induction false} NotedIsHeld(ring: Ring, arrivals: seq<Arrival>, i: nat)
    requires forall j :: 0 <= j < |arrivals| ==> FromCharger(ring, arrivals[j].packet)
    requires i in NoteAll(map[], arrivals)
    ensures NoteAll(map[], arrivals)[i] == Holds(ring, i)
  {
    var n := |arrivals| - 1;
    var slots, packet := NoteAll(map[], arrivals[..n]), arrivals[n].packet;
    if i in slots {
      NotedIsHeld(ring, arrivals[..n], i);
    }
    if packet.command == HISTORY_RECORD_EVENT {
      assert FromCharger(ring, packet);
      var capacity: nat, index: nat :| capacity < 0x1_0000_0000 && index < 0x1_0000_0000
        && packet.data == RecordReply(ring, capacity, index);
      ReplyNoted(ring, capacity, index, packet, slots);
    }
  }

  lemma {:induction false} HandledFromCharger(ring: Ring, waits: seq<seq<Arrival>>, from: nat, to: nat)
    requires from <= to
    requires forall b, j :: 0 <= b < |waits| && 0 <= j < |waits[b]| ==> FromCharger(ring, waits[b][j].packet)
    ensures forall j :: 0 <= j < |Handled(waits, from, to)| ==> FromCharger(ring, Handled(waits, from, to)[j].packet)
  {
    if from == to {
    } else {
      HandledFromCharger(ring, waits, from, to - 1);
    }
  }

  /** History reads never misreport: with the ring unchanged and every history record handled being one of
      the charger's replies, whatever was lost, repeated or reordered, each slot of the ring either is among
      the records with exactly the charger's record, or holds none and was answered so, or is named
      as unread, and exactly one of these; a slot is unread exactly if no reply for it was handled. */
  lemma HistoryNeverMisreports(ring: Ring, capacity: nat, waits: seq<seq<Arrival>>, k: nat, i: nat)
    requires forall b, j :: 0 <= b < |waits| && 0 <= j < |waits[b]| ==> FromCharger(ring, waits[b][j].packet)
    requires 1 <= i <= capacity
    ensures var r := ReadAll(capacity, waits, k);
            var records := RecordsOf(r.slots);
            && k <= r.next
            && (i in records ==> Holds(ring, i) == Some(records[i]) && i !in r.missing)
            && (i !in records && i !in r.missing ==> Holds(ring, i).None?)
            && (i in r.missing <==> !AnsweredBy(waits, k, r.next, i))
  {
    var r := ReadAll(capacity, waits, k);
    AllSlotsExact(capacity);
    PassesMeaning(capacity, waits, k, HISTORY_PASSES);
    UnansweredExact(AllSlots(capacity), r.slots);
    var arrivals := Handled(waits, k, r.next);
    NoteAllKeys(arrivals, i);
    HandledFromCharger(ring, waits, k, r.next);
    if i in r.slots {
      NotedIsHeld(ring, arrivals, i);
    }
  }
}
