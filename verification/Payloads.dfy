/** Payloads built and parsed by the codec (evsemaster/protocol.py): weekly plan, faults, start of a charge,
    acknowledgement of a record. */
module Payloads {
  import opened Wrappers
  import opened ByteStrings
  import opened Packet
  import opened Protocol

  const ACTION_SET := 1
  const ACTION_GET := 2

  // Weekly plan

  const WEEKLY_PLAN_SIZE := 64
  const SLOT_SIZE := 9
  const SLOT_ON: byte := 3
  const SLOT_OFF: byte := 1
  const NO_LIMIT: int := 0xFFFF_FFFF

  datatype Time = Time(hour: nat, minute: nat, second: nat)

  datatype Slot = Slot(enabled: bool, start: Time, durationMinutes: nat)

  /** What `datetime.time` and the model's field bounds admit. */
  predicate ValidSlot(slot: Slot)
  {
    slot.start.hour < 24 && slot.start.minute < 60 && slot.start.second < 60 && slot.durationMinutes <= 1440
  }

  /** A weekly plan: seven slots, Monday first. */
  predicate ValidPlan(plan: seq<Slot>)
  {
    |plan| == 7 && forall i :: 0 <= i < 7 ==> ValidSlot(plan[i])
  }

  function SlotBytes(slot: Slot): (b: bytes)
    requires ValidSlot(slot)
    ensures |b| == SLOT_SIZE
  {
    [if slot.enabled then SLOT_ON else SLOT_OFF, slot.start.hour, slot.start.minute]
    + U16(slot.durationMinutes) + U32(NO_LIMIT)
  }

  function PlanPayload(slots: seq<Slot>): (b: bytes)
    requires forall i :: 0 <= i < |slots| ==> ValidSlot(slots[i])
    ensures |b| == 1 + SLOT_SIZE * |slots|
  {
    if |slots| == 0 then [ACTION_SET] else PlanPayload(slots[..|slots| - 1]) + SlotBytes(slots[|slots| - 1])
  }

  method BuildWeeklyPlanPayload(plan: seq<Slot>) returns (payload: bytes)
    requires ValidPlan(plan)
    ensures payload == PlanPayload(plan)
  {
    payload := [ACTION_SET];
    for i := 0 to |plan|
      invariant payload == PlanPayload(plan[..i])
    {
      var slot := plan[i];
      var state := if slot.enabled then SLOT_ON else SLOT_OFF;
      payload := payload
        + ([state, slot.start.hour, slot.start.minute] + U16(slot.durationMinutes) + U32(NO_LIMIT));
      assert plan[..i + 1][..i] == plan[..i];
    }
    assert plan[..|plan|] == plan;
  }

  datatype PlanReading = PlanTooShort | PlanInvalid | PlanRead(plan: seq<Slot>)

  /** The slot of a day, or None where `time` or the model would raise. */
  function SlotAt(data: bytes, day: nat): Option<Slot>
  {
    var base := 1 + SLOT_SIZE * day;
    var slot := Slot(
                  FromBytes(Slice(data, base, base + 1)) != SLOT_OFF,
                  Time(FromBytes(Slice(data, base + 1, base + 2)), FromBytes(Slice(data, base + 2, base + 3)), 0),
                  FromBytes(Slice(data, base + 3, base + 5)));
    if ValidSlot(slot) then Some(slot) else None
  }

  predicate AllSlotsRead(data: bytes)
  {
    forall day :: 0 <= day < 7 ==> SlotAt(data, day).Some?
  }

  function SlotsOf(data: bytes): (plan: seq<Slot>)
    requires AllSlotsRead(data)
    ensures |plan| == 7 && forall day :: 0 <= day < 7 ==> SlotAt(data, day) == Some(plan[day])
  {
    seq(7, day requires 0 <= day < 7 && SlotAt(data, day).Some? => SlotAt(data, day).value)
  }

  function ParsePlan(data: bytes): PlanReading
  {
    if |data| < WEEKLY_PLAN_SIZE then PlanTooShort
    else if AllSlotsRead(data) then PlanRead(SlotsOf(data))
    else PlanInvalid
  }

  lemma PlanRefused(data: bytes, day: nat)
    requires |data| >= WEEKLY_PLAN_SIZE && day < 7 && SlotAt(data, day).None?
    ensures ParsePlan(data) == PlanInvalid
  {
  }

  /** The slots are those of the first days. */
  predicate ReadsSlots(data: bytes, slots: seq<Slot>)
  {
    forall day :: 0 <= day < |slots| ==> SlotAt(data, day) == Some(slots[day])
  }

  lemma PlanReads(data: bytes, plan: seq<Slot>)
    requires |data| >= WEEKLY_PLAN_SIZE && |plan| == 7 && ReadsSlots(data, plan)
    ensures ParsePlan(data) == PlanRead(plan)
  {
    assert AllSlotsRead(data);
    var read := SlotsOf(data);
    forall day | 0 <= day < 7
      ensures read[day] == plan[day]
    {
      assert SlotAt(data, day) == Some(plan[day]);
    }
    assert read == plan;
  }

  lemma ReadsOneMore(data: bytes, slots: seq<Slot>, slot: Slot)
    requires ReadsSlots(data, slots) && SlotAt(data, |slots|) == Some(slot)
    ensures ReadsSlots(data, slots + [slot])
  {
    var more := slots + [slot];
    forall day | 0 <= day < |more|
      ensures SlotAt(data, day) == Some(more[day])
    {
      assert day < |slots| ==> more[day] == slots[day];
    }
  }

  method ParseWeeklyPlan(data: bytes) returns (reading: PlanReading)
    ensures reading == ParsePlan(data)
  {
    if |data| < WEEKLY_PLAN_SIZE {
      return PlanTooShort;
    }
    var slots := [];
    for day := 0 to 7
      invariant |slots| == day && ReadsSlots(data, slots)
    {
      var slot := SlotAt(data, day);
      if slot.None? {
        PlanRefused(data, day);
        return PlanInvalid;
      }
      ReadsOneMore(data, slots, slot.value);
      slots := slots + [slot.value];
    }
    PlanReads(data, slots);
    return PlanRead(slots);
  }

  lemma {:induction false} SlotInPayload(slots: seq<Slot>, day: nat)
    requires forall i :: 0 <= i < |slots| ==> ValidSlot(slots[i])
    requires day < |slots|
    ensures PlanPayload(slots)[1 + SLOT_SIZE * day..1 + SLOT_SIZE * (day + 1)] == SlotBytes(slots[day])
  {
    var n := |slots| - 1;
    if day >= n {
    } else {
      SlotInPayload(slots[..n], day);
      assert PlanPayload(slots)[1 + SLOT_SIZE * day..1 + SLOT_SIZE * (day + 1)]
          == PlanPayload(slots[..n])[1 + SLOT_SIZE * day..1 + SLOT_SIZE * (day + 1)];
    }
  }

  /** A slot without seconds, which the wire has no room for. */
  function WholeMinutes(slot: Slot): Slot
  {
    slot.(start := slot.start.(second := 0))
  }

  /** A plan without seconds. */
  function WholePlan(plan: seq<Slot>): (whole: seq<Slot>)
    requires |plan| == 7
    ensures |whole| == 7 && forall i :: 0 <= i < 7 ==> whole[i] == WholeMinutes(plan[i])
  {
    seq(7, i requires 0 <= i < 7 => WholeMinutes(plan[i]))
  }

  lemma ByteField(data: bytes, at: nat)
    requires at < |data|
    ensures FromBytes(Slice(data, at, at + 1)) == data[at]
  {
    assert Slice(data, at, at + 1) == [data[at]];
    assert [data[at]][..0] == [];
  }

  /** The fields of a slot on the wire. */
  lemma SlotIs(data: bytes, day: nat)
    requires 1 + SLOT_SIZE * (day + 1) <= |data|
    ensures var base := 1 + SLOT_SIZE * day;
            var slot := Slot(data[base] != SLOT_OFF, Time(data[base + 1], data[base + 2], 0),
                             FromBytes(data[base + 3..base + 5]));
            SlotAt(data, day) == if ValidSlot(slot) then Some(slot) else None
  {
    var base := 1 + SLOT_SIZE * day;
    ByteField(data, base);
    ByteField(data, base + 1);
    ByteField(data, base + 2);
    assert Slice(data, base + 3, base + 5) == data[base + 3..base + 5];
  }

  lemma Subslice(data: bytes, base: nat, lo: nat, hi: nat)
    requires lo <= hi <= SLOT_SIZE && base + SLOT_SIZE <= |data|
    ensures data[base..base + SLOT_SIZE][lo..hi] == data[base + lo..base + hi]
  {
    var a, b := data[base..base + SLOT_SIZE][lo..hi], data[base + lo..base + hi];
    assert |a| == |b| && forall i :: 0 <= i < |a| ==> a[i] == b[i];
  }

  lemma SlotDuration(slot: Slot)
    requires ValidSlot(slot)
    ensures SlotBytes(slot)[3..5] == U16(slot.durationMinutes)
  {
  }

  lemma SlotReadBack(data: bytes, day: nat, slot: Slot)
    requires ValidSlot(slot) && 1 + SLOT_SIZE * (day + 1) <= |data|
    requires data[1 + SLOT_SIZE * day..1 + SLOT_SIZE * (day + 1)] == SlotBytes(slot)
    ensures SlotAt(data, day) == Some(WholeMinutes(slot))
  {
    var base := 1 + SLOT_SIZE * day;
    var piece := data[base..base + SLOT_SIZE];
    SlotIs(data, day);
    assert piece[0] == data[base] && piece[1] == data[base + 1] && piece[2] == data[base + 2];
    Subslice(data, base, 3, 5);
    SlotDuration(slot);
  }

  /** A plan is without seconds exactly if each of its starts is. */
  lemma WholeExactly(plan: seq<Slot>)
    requires |plan| == 7
    ensures WholePlan(plan) == plan <==> forall i :: 0 <= i < 7 ==> plan[i].start.second == 0
  {
    var whole := WholePlan(plan);
    if whole == plan {
      forall i | 0 <= i < 7
        ensures plan[i].start.second == 0
      {
        assert whole[i] == plan[i];
      }
    }
    if forall i :: 0 <= i < 7 ==> plan[i].start.second == 0 {
      assert forall i :: 0 <= i < 7 ==> whole[i] == plan[i];
    }
  }

  /** Weekly plan round trip: a built plan parses, whatever action byte stands in front, to the plan
      without its seconds; so exactly the minute-resolution plans come back unchanged. */
  lemma PlanRoundTrip(plan: seq<Slot>, action: byte)
    requires ValidPlan(plan)
    ensures ParsePlan([action] + PlanPayload(plan)[1..]) == PlanRead(WholePlan(plan))
    ensures ParsePlan([action] + PlanPayload(plan)[1..]) == PlanRead(plan)
       <==> forall i :: 0 <= i < 7 ==> plan[i].start.second == 0
  {
    var payload := PlanPayload(plan);
    var data := [action] + payload[1..];
    forall day | 0 <= day < 7
      ensures SlotAt(data, day) == Some(WholeMinutes(plan[day]))
    {
      SlotInPayload(plan, day);
      assert data[1 + SLOT_SIZE * day..1 + SLOT_SIZE * (day + 1)]
          == payload[1 + SLOT_SIZE * day..1 + SLOT_SIZE * (day + 1)];
      SlotReadBack(data, day, plan[day]);
    }
    PlanReads(data, WholePlan(plan));
    WholeExactly(plan);
  }

  /** What a set writes for a slot already on the wire: on or off, and no limit. */
  predicate CanonicalSlot(data: bytes, day: nat)
    requires 1 + SLOT_SIZE * (day + 1) <= |data|
  {
    var base := 1 + SLOT_SIZE * day;
    data[base] in {SLOT_ON, SLOT_OFF} && FromBytes(data[base + 5..base + 9]) == NO_LIMIT
  }

  /** A parsed slot rebuilt has the hour, minute and duration bytes it was parsed from. */
  lemma SlotFields(data: bytes, day: nat)
    requires 1 + SLOT_SIZE * (day + 1) <= |data| && SlotAt(data, day).Some?
    ensures var slot := SlotAt(data, day).value;
            var built, piece := SlotBytes(slot), data[1 + SLOT_SIZE * day..1 + SLOT_SIZE * (day + 1)];
            && (slot.enabled <==> piece[0] != SLOT_OFF)
            && built[1] == piece[1] && built[2] == piece[2] && built[3..5] == piece[3..5]
  {
    var base := 1 + SLOT_SIZE * day;
    var slot, piece := SlotAt(data, day).value, data[base..base + SLOT_SIZE];
    SlotIs(data, day);
    assert piece[0] == data[base] && piece[1] == data[base + 1] && piece[2] == data[base + 2];
    Subslice(data, base, 3, 5);
    SlotDuration(slot);
    FromBytesInjective(piece[3..5], U16(slot.durationMinutes));
  }

  lemma SlotRebuilt(data: bytes, day: nat)
    requires 1 + SLOT_SIZE * (day + 1) <= |data| && SlotAt(data, day).Some?
    ensures ValidSlot(SlotAt(data, day).value)
    ensures SlotBytes(SlotAt(data, day).value) == data[1 + SLOT_SIZE * day..1 + SLOT_SIZE * (day + 1)]
       <==> CanonicalSlot(data, day)
  {
    var base := 1 + SLOT_SIZE * day;
    SlotFields(data, day);
    var slot, piece := SlotAt(data, day).value, data[base..base + SLOT_SIZE];
    var built := SlotBytes(slot);
    assert built == [built[0], built[1], built[2]] + built[3..5] + built[5..9];
    assert piece == [piece[0], piece[1], piece[2]] + piece[3..5] + piece[5..9];
    assert built[5..9] == U32(NO_LIMIT);
    assert piece[5..9] == data[base + 5..base + 9];
    if CanonicalSlot(data, day) {
      FromBytesInjective(piece[5..9], U32(NO_LIMIT));
    }
    if built == piece {
      assert built[0] == piece[0] == data[base];
    }
  }

  lemma {:induction false} FirstByte(slots: seq<Slot>)
    requires forall i :: 0 <= i < |slots| ==> ValidSlot(slots[i])
    ensures PlanPayload(slots)[0] == ACTION_SET
  {
    if |slots| == 0 {
    } else {
      FirstByte(slots[..|slots| - 1]);
    }
  }

  /** Two plan payloads with one action byte and the same slots are the same. */
  lemma SlotsCover(a: bytes, b: bytes)
    requires |a| == |b| == WEEKLY_PLAN_SIZE && a[0] == b[0]
    requires forall day :: 0 <= day < 7 ==>
               a[1 + SLOT_SIZE * day..1 + SLOT_SIZE * (day + 1)] == b[1 + SLOT_SIZE * day..1 + SLOT_SIZE * (day + 1)]
    ensures a == b
  {
    forall k | 0 <= k < WEEKLY_PLAN_SIZE
      ensures a[k] == b[k]
    {
      if k > 0 {
        var day := (k - 1) / SLOT_SIZE;
        var lo, hi := 1 + SLOT_SIZE * day, 1 + SLOT_SIZE * (day + 1);
        assert a[k] == a[lo..hi][k - lo] == b[lo..hi][k - lo] == b[k];
      }
    }
  }

  lemma RebuiltSlots(data: bytes, plan: seq<Slot>)
    requires |data| >= WEEKLY_PLAN_SIZE && ValidPlan(plan) && ReadsSlots(data, plan)
    ensures PlanPayload(plan) == data[..WEEKLY_PLAN_SIZE]
       <==> data[0] == ACTION_SET && forall day :: 0 <= day < 7 ==> CanonicalSlot(data, day)
  {
    var payload := PlanPayload(plan);
    FirstByte(plan);
    forall day | 0 <= day < 7
      ensures (payload[1 + SLOT_SIZE * day..1 + SLOT_SIZE * (day + 1)]
               == data[1 + SLOT_SIZE * day..1 + SLOT_SIZE * (day + 1)]) <==> CanonicalSlot(data, day)
    {
      SlotInPayload(plan, day);
      SlotRebuilt(data, day);
    }
    if payload == data[..WEEKLY_PLAN_SIZE] {
      forall day | 0 <= day < 7
        ensures CanonicalSlot(data, day)
      {
        assert data[..WEEKLY_PLAN_SIZE][1 + SLOT_SIZE * day..1 + SLOT_SIZE * (day + 1)]
            == data[1 + SLOT_SIZE * day..1 + SLOT_SIZE * (day + 1)];
      }
    } else if data[0] == ACTION_SET && forall day :: 0 <= day < 7 ==> CanonicalSlot(data, day) {
      forall day | 0 <= day < 7
        ensures payload[1 + SLOT_SIZE * day..1 + SLOT_SIZE * (day + 1)]
             == data[..WEEKLY_PLAN_SIZE][1 + SLOT_SIZE * day..1 + SLOT_SIZE * (day + 1)]
      {
        assert CanonicalSlot(data, day);
        assert data[..WEEKLY_PLAN_SIZE][1 + SLOT_SIZE * day..1 + SLOT_SIZE * (day + 1)]
            == data[1 + SLOT_SIZE * day..1 + SLOT_SIZE * (day + 1)];
      }
      SlotsCover(payload, data[..WEEKLY_PLAN_SIZE]);
      assert false;
    }
  }

  lemma SlotsParsed(data: bytes)
    requires ParsePlan(data).PlanRead?
    ensures |ParsePlan(data).plan| == 7 && ReadsSlots(data, ParsePlan(data).plan)
  {
  }

  /** Building what was parsed is a normalisation: it gives the bytes back exactly when they were
      already in the form a set has, and doing it twice changes nothing more. */
  lemma RebuildNormalises(data: bytes)
    requires ParsePlan(data).PlanRead?
    ensures var plan := ParsePlan(data).plan;
            && ValidPlan(plan)
            && ParsePlan(PlanPayload(plan)) == PlanRead(plan)
            && (PlanPayload(plan) == data[..WEEKLY_PLAN_SIZE]
                <==> data[0] == ACTION_SET && forall day :: 0 <= day < 7 ==> CanonicalSlot(data, day))
  {
    var plan := ParsePlan(data).plan;
    SlotsParsed(data);
    forall day | 0 <= day < 7
      ensures ValidSlot(plan[day])
    {
      SlotRebuilt(data, day);
    }
    var payload := PlanPayload(plan);
    FirstByte(plan);
    PlanRoundTrip(plan, ACTION_SET);
    assert [ACTION_SET] + payload[1..] == payload;
    RebuiltSlots(data, plan);
  }

  // Faults

  const FAULTS := 32

  /** Bit k of n, `n & (1 << k)`. */
  predicate Bit(n: nat, k: nat)
  {
    if k == 0 then n % 2 == 1 else Bit(n / 2, k - 1)
  }

  function Pow2(n: nat): nat
  {
    if n == 0 then 1 else 2 * Pow2(n - 1)
  }

  /** Whether fault n is set: bit 31 - n of the error field. */
  predicate HasFault(errorBits: nat, fault: nat)
    requires fault < FAULTS
  {
    Bit(errorBits, FAULTS - 1 - fault)
  }

  /** The members of `FaultEnum`, in its order. */
  const FAULT_ENUM: seq<nat> := seq(FAULTS, i => i)

  function FaultsAmong(errorBits: nat, members: seq<nat>): seq<nat>
    requires forall i :: 0 <= i < |members| ==> members[i] < FAULTS
  {
    if |members| == 0 then []
    else (if HasFault(errorBits, members[0]) then [members[0]] else []) + FaultsAmong(errorBits, members[1..])
  }

  lemma FaultsFrom(errorBits: nat, first: nat)
    requires first < FAULTS
    ensures FaultsAmong(errorBits, FAULT_ENUM[first..])
         == (if HasFault(errorBits, first) then [first] else []) + FaultsAmong(errorBits, FAULT_ENUM[first + 1..])
  {
    assert FAULT_ENUM[first..][0] == first && FAULT_ENUM[first..][1..] == FAULT_ENUM[first + 1..];
  }

  method ParseFaults(errorBits: nat) returns (faults: seq<nat>)
    ensures faults == FaultsAmong(errorBits, FAULT_ENUM)
  {
    faults := [];
    ghost var all := FaultsAmong(errorBits, FAULT_ENUM);
    assert FAULT_ENUM[0..] == FAULT_ENUM;
    for i := 0 to |FAULT_ENUM|
      invariant faults + FaultsAmong(errorBits, FAULT_ENUM[i..]) == all
    {
      var fault := FAULT_ENUM[i];
      FaultsFrom(errorBits, i);
      ghost var rest := FaultsAmong(errorBits, FAULT_ENUM[i + 1..]);
      assert faults + ([fault] + rest) == (faults + [fault]) + rest;
      if HasFault(errorBits, fault) {
        faults := faults + [fault];
      }
    }
    assert FAULT_ENUM[|FAULT_ENUM|..] == [];
  }

  /** The error field a list of faults stands for. */
  function ErrorBits(faults: seq<nat>): nat
    requires forall i :: 0 <= i < |faults| ==> faults[i] < FAULTS
  {
    if |faults| == 0 then 0 else Pow2(FAULTS - 1 - faults[0]) + ErrorBits(faults[1..])
  }

  /** The value of the k lowest bits of n. */
  function LowBits(n: nat, k: nat): nat
  {
    if k == 0 then 0 else n % 2 + 2 * LowBits(n / 2, k - 1)
  }

  lemma {:induction false} LowBitsNext(n: nat, k: nat)
    ensures LowBits(n, k + 1) == LowBits(n, k) + if Bit(n, k) then Pow2(k) else 0
  {
    if k == 0 {
    } else {
      LowBitsNext(n / 2, k - 1);
    }
  }

  lemma {:induction false} LowBitsAll(n: nat, k: nat)
    requires n < Pow2(k)
    ensures LowBits(n, k) == n
  {
    if k == 0 {
    } else {
      LowBitsAll(n / 2, k - 1);
    }
  }

  /** The faults an error field has set. */
  function FaultSet(errorBits: nat): set<nat>
  {
    set f: nat | f < FAULTS && HasFault(errorBits, f)
  }

  /** Exactly the faults of a set from `first` on, in increasing order. */
  ghost predicate Lists(faults: seq<nat>, on: set<nat>, first: nat)
  {
    && (forall f: nat :: f in faults <==> first <= f && f in on)
    && (forall i, j :: 0 <= i < j < |faults| ==> faults[i] < faults[j])
  }

  lemma ListOneMore(rest: seq<nat>, on: set<nat>, first: nat)
    requires Lists(rest, on, first + 1)
    ensures first in on ==> Lists([first] + rest, on, first)
    ensures first !in on ==> Lists(rest, on, first)
  {
    assert forall i :: 0 <= i < |rest| ==> rest[i] in rest;
  }

  lemma {:induction false} FaultsListed(errorBits: nat, first: nat)
    requires first <= FAULTS
    ensures Lists(FaultsAmong(errorBits, FAULT_ENUM[first..]), FaultSet(errorBits), first)
    decreases FAULTS - first
  {
    if first >= FAULTS {
    } else {
      FaultsListed(errorBits, first + 1);
      FaultsFrom(errorBits, first);
      var rest := FaultsAmong(errorBits, FAULT_ENUM[first + 1..]);
      ListOneMore(rest, FaultSet(errorBits), first);
      assert [] + rest == rest;
    }
  }

  lemma AddFault(fault: nat, faults: seq<nat>)
    requires fault < FAULTS && forall i :: 0 <= i < |faults| ==> faults[i] < FAULTS
    ensures forall i :: 0 <= i < |[fault] + faults| ==> ([fault] + faults)[i] < FAULTS
    ensures ErrorBits([fault] + faults) == Pow2(FAULTS - 1 - fault) + ErrorBits(faults)
  {
    assert ([fault] + faults)[1..] == faults;
  }

  predicate StandsFor(faults: seq<nat>, bits: nat)
  {
    (forall i :: 0 <= i < |faults| ==> faults[i] < FAULTS) && ErrorBits(faults) == bits
  }

  lemma AddLowBit(errorBits: nat, k: nat, rest: seq<nat>)
    requires k < FAULTS && StandsFor(rest, LowBits(errorBits, k))
    ensures var first := FAULTS - 1 - k;
            StandsFor((if HasFault(errorBits, first) then [first] else []) + rest, LowBits(errorBits, k + 1))
  {
    LowBitsNext(errorBits, k);
    AddFault(FAULTS - 1 - k, rest);
    assert [] + rest == rest;
  }

  /** The faults from `first` on stand for the low bits of the field. */
  lemma {:induction false} FaultsValue(errorBits: nat, first: nat, k: nat)
    requires first + k == FAULTS
    ensures StandsFor(FaultsAmong(errorBits, FAULT_ENUM[first..]), LowBits(errorBits, k))
    decreases k
  {
    if k == 0 {
    } else {
      FaultsValue(errorBits, first + 1, k - 1);
      FaultsFrom(errorBits, first);
      AddLowBit(errorBits, k - 1, FaultsAmong(errorBits, FAULT_ENUM[first + 1..]));
    }
  }

  lemma Pow2Word()
    ensures Pow2(32) == 0x1_0000_0000
  {
    assert Pow2(4) == 16;
    assert Pow2(8) == 16 * Pow2(4);
    assert Pow2(12) == 16 * Pow2(8);
    assert Pow2(16) == 16 * Pow2(12);
    assert Pow2(20) == 16 * Pow2(16);
    assert Pow2(24) == 16 * Pow2(20);
    assert Pow2(28) == 16 * Pow2(24);
    assert Pow2(32) == 16 * Pow2(28);
  }

  /** Every 32-bit error field is recovered from its list of faults, which is strictly increasing and
      names exactly the faults that are set. */
  lemma FaultsRoundTrip(errorBits: nat)
    requires errorBits < 0x1_0000_0000
    ensures var faults := FaultsAmong(errorBits, FAULT_ENUM);
            && (forall i :: 0 <= i < |faults| ==> faults[i] < FAULTS)
            && Lists(faults, FaultSet(errorBits), 0)
            && ErrorBits(faults) == errorBits
  {
    FaultsListed(errorBits, 0);
    FaultsValue(errorBits, 0, FAULTS);
    assert FAULT_ENUM[0..] == FAULT_ENUM;
    Pow2Word();
    LowBitsAll(errorBits, FAULTS);
  }

  // Start of a charge

  const START_PAYLOAD_SIZE := 47

  function Padded(text: bytes, room: nat): (b: bytes)
    ensures |b| == room
  {
    Slice(text, 0, room) + Zeros(room - |Slice(text, 0, room)|)
  }

  predicate ValidStart(startEpoch: int, durationMinutes: int, maxAmps: int)
  {
    0 <= startEpoch < 0x1_0000_0000 && 0 <= durationMinutes < 0x1_0000 && 0 <= maxAmps < 256
  }

  /** The first half of the request: line id, user id and charge id. */
  function StartIds(userId: bytes, chargeId: bytes): (b: bytes)
    ensures |b| == 33
  {
    [1] + Padded(userId, 16) + Padded(chargeId, 16)
  }

  /** The second half: reservation flag, start, duration and limits. */
  function StartTerms(reservation: byte, startEpoch: int, durationMinutes: int, maxAmps: int): (b: bytes)
    requires ValidStart(startEpoch, durationMinutes, maxAmps)
    ensures |b| == 14
  {
    [reservation] + U32(startEpoch) + [1, 1] + U16(durationMinutes) + U16(65535) + U16(65535) + [maxAmps]
  }

  function StartPayload(userId: bytes, chargeId: bytes, later: bool, startEpoch: int, durationMinutes: int,
                        maxAmps: int): bytes
    requires ValidStart(startEpoch, durationMinutes, maxAmps)
  {
    StartIds(userId, chargeId) + StartTerms(if later then 1 else 0, startEpoch, durationMinutes, maxAmps)
  }

  method StoreIds(buffer: array<byte>, userId: bytes, chargeId: bytes)
    requires buffer.Length == START_PAYLOAD_SIZE
    modifies buffer
    ensures buffer[..33] == StartIds(userId, chargeId)
  {
    buffer[0] := 1;
    Store(buffer, 1, Padded(userId, 16));
    Store(buffer, 17, Padded(chargeId, 16));
  }

  method StoreTerms(buffer: array<byte>, reservation: byte, startEpoch: int, durationMinutes: int, maxAmps: int)
    requires buffer.Length == START_PAYLOAD_SIZE && ValidStart(startEpoch, durationMinutes, maxAmps)
    modifies buffer
    ensures buffer[..33] == old(buffer[..33])
    ensures buffer[33..] == StartTerms(reservation, startEpoch, durationMinutes, maxAmps)
  {
    buffer[33] := reservation;
    Store(buffer, 34, U32(startEpoch));
    buffer[38], buffer[39] := 1, 1;
    Store(buffer, 40, U16(durationMinutes));
    Store(buffer, 42, U16(65535));
    Store(buffer, 44, U16(65535));
    buffer[46] := maxAmps;
  }

  method BuildStartChargingPayload(userId: bytes, chargeId: bytes, now: int, startDate: int, startEpoch: int,
                                   durationMinutes: int, maxAmps: int)
    returns (payload: bytes)
    requires ValidStart(startEpoch, durationMinutes, maxAmps)
    ensures payload == StartPayload(userId, chargeId, now <= startDate, startEpoch, durationMinutes, maxAmps)
  {
    var buffer := new byte[START_PAYLOAD_SIZE](_ => 0);
    StoreIds(buffer, userId, chargeId);
    StoreTerms(buffer, if now > startDate then 0 else 1, startEpoch, durationMinutes, maxAmps);
    payload := buffer[..];
    assert payload == payload[..33] + payload[33..];
  }

  /** A charger reading the request finds what was asked for: ids, start, duration, amperage and whether to wait. */
  lemma StartReadBack(userId: bytes, chargeId: bytes, later: bool, startEpoch: int, durationMinutes: int, maxAmps: int)
    requires ValidStart(startEpoch, durationMinutes, maxAmps)
    ensures var p := StartPayload(userId, chargeId, later, startEpoch, durationMinutes, maxAmps);
            && |p| == START_PAYLOAD_SIZE
            && p[0] == 1 && p[1..17] == Padded(userId, 16) && p[17..33] == Padded(chargeId, 16)
            && FromBytes(p[34..38]) == startEpoch && FromBytes(p[40..42]) == durationMinutes
            && FromBytes(p[42..44]) == FromBytes(p[44..46]) == 65535
            && p[38] == p[39] == 1 && p[46] == maxAmps && (p[33] == 1 <==> later)
  {
    var p := StartPayload(userId, chargeId, later, startEpoch, durationMinutes, maxAmps);
    var ids := StartIds(userId, chargeId);
    var terms := StartTerms(if later then 1 else 0, startEpoch, durationMinutes, maxAmps);
    assert p == ids + terms;
    assert p[1..17] == ids[1..17] && p[17..33] == ids[17..33];
    assert p[33] == terms[0] && p[38] == terms[5] && p[39] == terms[6] && p[46] == terms[13];
    assert p[34..38] == terms[1..5] == U32(startEpoch);
    assert p[40..42] == terms[7..9] == U16(durationMinutes);
    assert p[42..44] == terms[9..11] == U16(65535) && p[44..46] == terms[11..13] == U16(65535);
  }

  /** Acknowledges a record by its charge id. */
  function BuildRecordAck(record: bytes): (ack: bytes)
    ensures |ack| <= 18
    ensures |record| >= 49 ==> |ack| == 18 && ack[1..17] == record[33..49]
  {
    [1] + Slice(record, 33, 49) + [1]
  }
}
