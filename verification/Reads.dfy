/** Reading the history step by step (evsemaster/device.py): what a read does each time it runs on, with anything else
    running while it waits, and the lock that keeps reads apart. Its steps come to what the loops of History read. */
module Reads {
  import opened Wrappers
  import opened ByteStrings
  import opened Packet
  import opened History
  import D = Device

  /** Where the read that holds the lock waits: for the capacity, having asked for it some times; in a pass, having
      asked for the first slots of the missing ones; or at the end of a pass. */
  datatype Progress =
    | Counting(tries: nat)
    | Asking(missing: seq<nat>, next: nat, pass: nat)
    | Settling(missing: seq<nat>, pass: nat)

  datatype Query = Capacity | Slot(index: nat)

  datatype Ending = Finished(history: D.ChargeHistory) | TimedOut | Abandoned

  /** The answers gathered and the future of the capacity, the read that holds the lock and how many wait for it; and
      what was asked and what reads came to. */
  datatype State = State(
    slots: Option<Slots>,
    count: Option<Option<nat>>,
    reader: Option<Progress>,
    waiting: nat,
    asked: seq<Query>,
    ended: seq<Ending>)

  function Idle(): State
  {
    State(None, None, None, 0, [], [])
  }

  datatype Event =
    | Call(authorised: bool)      // the application calls read_history
    | Enter                       // a read that waited for the lock takes it
    | Handle(arrival: Arrival)    // a packet is handled
    | Wake                        // the read that holds the lock runs on
    | Abandon                     // the application cancels it
    | Leave                       // the application cancels a read that waits for the lock

  /** A read that just took the lock, up to its first wait. */
  function Begin(s: State): State
  {
    s.(count := Some(None), reader := Some(Counting(1)), asked := s.asked + [Capacity])
  }

  /** The end of a read: the lock is free, and the fields it used are None again. */
  function End(s: State, ending: Ending): State
  {
    s.(slots := None, count := None, reader := None, ended := s.ended + [ending])
  }

  /** The start of a pass, up to its first wait. */
  function BeginPass(s: State, missing: seq<nat>, pass: nat): State
  {
    if |missing| == 0 then s.(reader := Some(Settling(missing, pass)))
    else s.(reader := Some(Asking(missing, 1, pass)), asked := s.asked + [Slot(missing[0])])
  }

  function Gathered(s: State): Slots
  {
    if s.slots.Some? then s.slots.value else map[]
  }

  /** The end of a pass: the answers that came are taken off the list. */
  function EndPass(s: State, missing: seq<nat>, pass: nat): State
  {
    var left := Unanswered(missing, Gathered(s));
    if |left| == 0 || pass >= HISTORY_PASSES
    then End(s, Finished(D.ChargeHistory(RecordsOf(Gathered(s)), left)))
    else BeginPass(s, left, pass + 1)
  }

  function RunOn(s: State, progress: Progress): State
  {
    match progress
    case Counting(tries) =>
      if s.count.Some? && s.count.value.Some?
      then BeginPass(s.(count := None, slots := Some(map[])), AllSlots(s.count.value.value), 1)
      else if tries < HISTORY_PASSES
      then s.(count := Some(None), reader := Some(Counting(tries + 1)), asked := s.asked + [Capacity])
      else End(s, TimedOut)
    case Asking(missing, next, pass) =>
      if next < |missing|
      then s.(reader := Some(Asking(missing, next + 1, pass)), asked := s.asked + [Slot(missing[next])])
      else s.(reader := Some(Settling(missing, pass)))
    case Settling(missing, pass) => EndPass(s, missing, pass)
  }

  function Step(s: State, event: Event): State
  {
    match event
    case Call(authorised) =>
      if !authorised then s else if s.reader.None? then Begin(s) else s.(waiting := s.waiting + 1)
    case Enter => if s.reader.None? && s.waiting > 0 then Begin(s.(waiting := s.waiting - 1)) else s
    case Handle(arrival) =>
      s.(slots := D.HistoryAfter(s.slots, arrival.packet), count := D.CountAfter(s.count, arrival.packet))
    case Wake => if s.reader.Some? then RunOn(s, s.reader.value) else s
    case Abandon => if s.reader.Some? then End(s, Abandoned) else s
    case Leave => if s.waiting > 0 then s.(waiting := s.waiting - 1) else s
  }

  /** The state after the first n steps of a trace. */
  function At(s: State, trace: seq<Event>, n: nat): State
    requires n <= |trace|
  {
    if n == 0 then s else Step(At(s, trace, n - 1), trace[n - 1])
  }

  // The lock

  /** The future of the capacity is there exactly while the read asks for it, and the answers only in a pass; a read
      that waits for the lock waits for another to end. */
  predicate Locked(s: State)
  {
    && (s.count.Some? <==> s.reader.Some? && s.reader.value.Counting?)
    && (s.slots.Some? <==> s.reader.Some? && !s.reader.value.Counting?)
    && (s.reader.Some? && s.reader.value.Asking? ==> 1 <= s.reader.value.next <= |s.reader.value.missing|)
  }

  lemma LockedStep(s: State, event: Event)
    requires Locked(s)
    ensures Locked(Step(s, event))
  {
  }

  /** Over every trace the reads exclude each other: a read that takes the lock finds no answers and no future of
      another, and while it holds it no other read touches them. */
  lemma {:induction false} ReadsExclude(trace: seq<Event>, n: nat)
    requires n <= |trace|
    ensures Locked(At(Idle(), trace, n))
    ensures At(Idle(), trace, n).reader.None? ==>
              At(Idle(), trace, n).slots.None? && At(Idle(), trace, n).count.None?
  {
    if n == 0 {
    } else {
      ReadsExclude(trace, n - 1);
      LockedStep(At(Idle(), trace, n - 1), trace[n - 1]);
    }
  }

  // What a read comes to

  /** Everything handled during a wait. */
  function HandleBatch(s: State, arrivals: seq<Arrival>): State
  {
    s.(slots := D.HistoryAll(s.slots, arrivals), count := D.CountAll(s.count, arrivals))
  }

  function Turn(s: State, arrivals: seq<Arrival>): State
  {
    Step(HandleBatch(s, arrivals), Wake)
  }

  function Folded<T>(step: (T, nat) -> T, t: T, from: nat, to: nat): T
    requires from <= to
  {
    if from == to then t else step(Folded(step, t, from, to - 1), to - 1)
  }

  lemma {:induction false} FoldedMore<T>(step: (T, nat) -> T, t: T, from: nat, mid: nat, to: nat)
    requires from <= mid <= to
    ensures Folded(step, t, from, to) == Folded(step, Folded(step, t, from, mid), mid, to)
  {
    if mid == to {
    } else {
      FoldedMore(step, t, from, mid, to - 1);
    }
  }

  function Turns(waits: seq<seq<Arrival>>): (State, nat) -> State
  {
    (s: State, k: nat) => Turn(s, Batch(waits, k))
  }

  /** The state after the waits from one number up to another. */
  function After(s: State, waits: seq<seq<Arrival>>, from: nat, to: nat): State
    requires from <= to
  {
    Folded(Turns(waits), s, from, to)
  }

  lemma AfterNext(s: State, waits: seq<seq<Arrival>>, from: nat, to: nat)
    requires from <= to
    ensures After(s, waits, from, from) == s
    ensures After(s, waits, from, to + 1) == Turn(After(s, waits, from, to), Batch(waits, to))
  {
  }

  lemma AfterFrom(s: State, t: State, waits: seq<seq<Arrival>>, from: nat, mid: nat, to: nat)
    requires from <= mid && to == mid + 1 && t == After(s, waits, from, mid)
    ensures After(s, waits, from, to) == Turn(t, Batch(waits, mid))
  {
  }

  lemma AfterMore(s: State, t: State, waits: seq<seq<Arrival>>, from: nat, mid: nat, to: nat)
    requires from <= mid <= to && t == After(s, waits, from, mid)
    ensures After(s, waits, from, to) == After(t, waits, mid, to)
  {
    FoldedMore(Turns(waits), s, from, mid, to);
  }

  /** Up to the last of these waits the read is still on. */
  ghost predicate StaysOn(s: State, waits: seq<seq<Arrival>>, from: nat, to: nat)
  {
    forall j: nat :: from <= j < to ==> After(s, waits, from, j).reader.Some?
  }

  lemma StaysOnMore(s: State, t: State, waits: seq<seq<Arrival>>, from: nat, mid: nat, to: nat)
    requires from <= mid <= to && t == After(s, waits, from, mid)
    requires StaysOn(s, waits, from, mid) && StaysOn(t, waits, mid, to)
    ensures StaysOn(s, waits, from, to)
  {
    forall j: nat | from <= j < to
      ensures After(s, waits, from, j).reader.Some?
    {
      if j >= mid {
        AfterMore(s, t, waits, from, mid, j);
      }
    }
  }

  function SlotQueries(indexes: seq<nat>): (queries: seq<Query>)
    ensures |queries| == |indexes|
  {
    seq(|indexes|, i requires 0 <= i < |indexes| => Slot(indexes[i]))
  }

  function Capacities(n: nat): seq<Query>
  {
    seq(n, _ => Capacity)
  }

  /** What a read is to come to: the waits it takes, what it asks and its result. */
  datatype Course = Course(used: nat, asked: seq<Query>, ending: Ending)

  /** The course of a read whose waits handle these packets, by the loops of `read_history`. */
  function CourseOf(waits: seq<seq<Arrival>>): Course
  {
    var (capacity, k) := D.FindCapacity(waits, 0, HISTORY_PASSES);
    match capacity
    case None => Course(k, Capacities(k), TimedOut)
    case Some(count) =>
      var r := ReadAll(count, waits, k);
      Course(r.next, Capacities(k) + SlotQueries(Flat(r.asked)),
             Finished(D.ChargeHistory(RecordsOf(r.slots), r.missing)))
  }

  // The capacity

  /** A read that asked for the capacity `tries` times and waits. */
  predicate Counts(s: State, tries: nat)
  {
    s.reader == Some(Counting(tries)) && s.count == Some(None) && s.slots.None?
  }

  /** A read that gathered answers and is in a pass. */
  function InPass(s: State, slots: History.Slots, asked: seq<Query>): State
  {
    s.(slots := Some(slots), count := None, asked := asked)
  }

  lemma CountTurn(s: State, arrivals: seq<Arrival>, tries: nat)
    requires Counts(s, tries) && 1 <= tries <= HISTORY_PASSES
    ensures var t := Turn(s, arrivals);
            match D.FirstCount(arrivals)
            case Some(capacity) => t == BeginPass(InPass(s, map[], s.asked), AllSlots(capacity), 1)
            case None =>
              if tries == HISTORY_PASSES then t == End(s, TimedOut)
              else Counts(t, tries + 1) && t == s.(reader := t.reader, asked := s.asked + [Capacity])
  {
    D.CountResolvedOnce(arrivals);
  }

  /** The read after its waits for the capacity, the tries-th of which is to come. */
  function Counted(s: State, waits: seq<seq<Arrival>>, k: nat, tries: nat): State
    requires 1 <= tries <= HISTORY_PASSES
  {
    var (capacity, next) := D.FindCapacity(waits, k, HISTORY_PASSES + 1 - tries);
    D.FoundIsFirst(waits, k, HISTORY_PASSES + 1 - tries);
    var asked := s.asked + Capacities(if k < next then next - k - 1 else 0);
    match capacity
    case Some(count) => BeginPass(InPass(s, map[], asked), AllSlots(count), 1)
    case None => End(s.(asked := asked), TimedOut)
  }

  lemma FirstCapacity(asked: seq<Query>, n: nat)
    requires n > 0
    ensures asked + [Capacity] + Capacities(n - 1) == asked + Capacities(n)
  {
    assert [Capacity] + Capacities(n - 1) == Capacities(n);
  }

  lemma CountedLater(s: State, t: State, waits: seq<seq<Arrival>>, k: nat, tries: nat)
    requires 1 <= tries < HISTORY_PASSES && D.FirstCount(Batch(waits, k)).None?
    requires t == s.(reader := t.reader, asked := s.asked + [Capacity])
    ensures Counted(t, waits, k + 1, tries + 1) == Counted(s, waits, k, tries)
  {
    var left := HISTORY_PASSES - tries;
    var (capacity, next) := D.FindCapacity(waits, k + 1, left);
    D.FoundIsFirst(waits, k + 1, left);
    assert next > k + 1;
    FirstCapacity(s.asked, next - k - 1);
  }

  lemma OneTurn(s: State, waits: seq<seq<Arrival>>, k: nat)
    ensures After(s, waits, k, k + 1) == Turn(s, Batch(waits, k))
    ensures s.reader.Some? ==> StaysOn(s, waits, k, k + 1)
  {
    AfterNext(s, waits, k, k);
  }

  /** A read's waits for the capacity end where it is found, or given up. */
  lemma {:induction false} CountsThrough(s: State, waits: seq<seq<Arrival>>, k: nat, tries: nat)
    requires Counts(s, tries) && 1 <= tries <= HISTORY_PASSES
    ensures var next := D.FindCapacity(waits, k, HISTORY_PASSES + 1 - tries).1;
            && k < next
            && After(s, waits, k, next) == Counted(s, waits, k, tries)
            && StaysOn(s, waits, k, next)
    decreases HISTORY_PASSES - tries
  {
    var t := Turn(s, Batch(waits, k));
    CountTurn(s, Batch(waits, k), tries);
    OneTurn(s, waits, k);
    if D.FirstCount(Batch(waits, k)).Some? || tries == HISTORY_PASSES {
      assert D.FindCapacity(waits, k, HISTORY_PASSES + 1 - tries).1 == k + 1;
      assert s.asked + Capacities(0) == s.asked;
    } else {
      var next := D.FindCapacity(waits, k + 1, HISTORY_PASSES - tries).1;
      CountsThrough(t, waits, k + 1, tries + 1);
      CountedLater(s, t, waits, k, tries);
      AfterMore(s, t, waits, k, k + 1, next);
      StaysOnMore(s, t, waits, k, k + 1, next);
    }
  }

  // The passes

  lemma PassTurn(s: State, slots: History.Slots, asked: seq<Query>, progress: Progress, arrivals: seq<Arrival>)
    ensures Turn(InPass(s, slots, asked).(reader := Some(progress)), arrivals)
         == RunOn(InPass(s, NoteAll(slots, arrivals), asked).(reader := Some(progress)), progress)
  {
    D.CountStaysNone(arrivals);
  }

  /** A pass after the waits from k up to i. */
  function Within(s: State, slots: History.Slots, asked: seq<Query>, missing: seq<nat>, pass: nat,
                  waits: seq<seq<Arrival>>, k: nat, i: nat): State
    requires k <= i <= k + |missing|
  {
    if i < k + |missing|
    then InPass(s, NoteAll(slots, Handled(waits, k, i)), asked + SlotQueries(missing[..i + 1 - k]))
         .(reader := Some(Asking(missing, i + 1 - k, pass)))
    else InPass(s, NoteAll(slots, Handled(waits, k, i)), asked + SlotQueries(missing))
         .(reader := Some(Settling(missing, pass)))
  }

  lemma OneQueryMore(asked: seq<Query>, missing: seq<nat>, j: nat)
    requires j < |missing|
    ensures asked + SlotQueries(missing[..j]) + [Slot(missing[j])] == asked + SlotQueries(missing[..j + 1])
  {
    assert SlotQueries(missing[..j]) + [Slot(missing[j])] == SlotQueries(missing[..j + 1]);
  }

  lemma WithinNext(s: State, slots: History.Slots, asked: seq<Query>, missing: seq<nat>, pass: nat,
                   waits: seq<seq<Arrival>>, k: nat, i: nat)
    requires k <= i < k + |missing|
    ensures Turn(Within(s, slots, asked, missing, pass, waits, k, i), Batch(waits, i))
         == Within(s, slots, asked, missing, pass, waits, k, i + 1)
  {
    var noted, j := NoteAll(slots, Handled(waits, k, i)), i + 1 - k;
    PassTurn(s, noted, asked + SlotQueries(missing[..j]), Asking(missing, j, pass), Batch(waits, i));
    NoteAllAppend(slots, Handled(waits, k, i), Batch(waits, i));
    if j < |missing| {
      OneQueryMore(asked, missing, j);
    } else {
      assert missing[..j] == missing;
    }
  }

  lemma WithinFirst(s: State, slots: History.Slots, asked: seq<Query>, missing: seq<nat>, pass: nat,
                    waits: seq<seq<Arrival>>, k: nat)
    ensures Within(s, slots, asked, missing, pass, waits, k, k) == BeginPass(InPass(s, slots, asked), missing, pass)
  {
    if |missing| > 0 {
      assert SlotQueries(missing[..1]) == [Slot(missing[0])];
    } else {
      assert asked + SlotQueries(missing) == asked;
    }
  }

  lemma {:induction false} WithinAt(s: State, start: State, slots: History.Slots, asked: seq<Query>,
                                    missing: seq<nat>, pass: nat, waits: seq<seq<Arrival>>, k: nat, i: nat)
    requires k <= i <= k + |missing| && start == BeginPass(InPass(s, slots, asked), missing, pass)
    ensures After(start, waits, k, i) == Within(s, slots, asked, missing, pass, waits, k, i)
  {
    if i == k {
      WithinFirst(s, slots, asked, missing, pass, waits, k);
    } else {
      AfterNext(start, waits, k, i - 1);
      WithinAt(s, start, slots, asked, missing, pass, waits, k, i - 1);
      WithinNext(s, slots, asked, missing, pass, waits, k, i - 1);
    }
  }

  /** A read at the start of a pass, where the loops stand at r. */
  function Standing(s: State, r: History.Reading, asked: seq<Query>, pass: nat): State
  {
    BeginPass(InPass(s, r.slots, asked + SlotQueries(Flat(r.asked))), r.missing, pass)
  }

  function Read(s: State, r: History.Reading, asked: seq<Query>): State
  {
    End(s.(asked := asked + SlotQueries(Flat(r.asked))), Finished(D.ChargeHistory(RecordsOf(r.slots), r.missing)))
  }

  lemma FlatMore(asked: seq<seq<nat>>, last: seq<nat>)
    ensures SlotQueries(Flat(asked + [last])) == SlotQueries(Flat(asked)) + SlotQueries(last)
  {
    assert (asked + [last])[..|asked|] == asked;
  }

  lemma PassStaysOn(s: State, start: State, r: History.Reading, asked: seq<Query>, pass: nat,
                    waits: seq<seq<Arrival>>)
    requires start == Standing(s, r, asked, pass)
    ensures StaysOn(start, waits, r.next, r.next + |r.missing| + 1)
  {
    forall i: nat | r.next <= i < r.next + |r.missing| + 1
      ensures After(start, waits, r.next, i).reader.Some?
    {
      WithinAt(s, start, r.slots, asked + SlotQueries(Flat(r.asked)), r.missing, pass, waits, r.next, i);
    }
  }

  lemma Associates(a: seq<Query>, b: seq<Query>, c: seq<Query>)
    ensures a + (b + c) == (a + b) + c
  {
  }

  /** A read at the end of the pass that leaves the loops at r. */
  function Settled(s: State, r: History.Reading, asked: seq<Query>, missing: seq<nat>, pass: nat): State
  {
    InPass(s, r.slots, asked + SlotQueries(Flat(r.asked))).(reader := Some(Settling(missing, pass)))
  }

  lemma PassEnds(s: State, r: History.Reading, asked: seq<Query>, missing: seq<nat>, pass: nat)
    requires r.missing == Unanswered(missing, r.slots)
    ensures RunOn(Settled(s, r, asked, missing, pass), Settling(missing, pass))
         == if |r.missing| == 0 || pass >= HISTORY_PASSES then Read(s, r, asked) else Standing(s, r, asked, pass + 1)
  {
  }

  lemma PassNotes(r: History.Reading, waits: seq<seq<Arrival>>)
    ensures var last := r.next + |r.missing|;
            NoteAll(NoteAll(r.slots, Handled(waits, r.next, last)), Batch(waits, last)) == Pass(r, waits).slots
  {
    var last := r.next + |r.missing|;
    NoteAllAppend(r.slots, Handled(waits, r.next, last), Batch(waits, last));
  }

  lemma AsksMore(before: seq<Query>, asked: seq<seq<nat>>, last: seq<nat>)
    ensures before + SlotQueries(Flat(asked)) + SlotQueries(last) == before + SlotQueries(Flat(asked + [last]))
  {
    FlatMore(asked, last);
    Associates(before, SlotQueries(Flat(asked)), SlotQueries(last));
  }

  lemma SettleTurn(s: State, r: History.Reading, asked: seq<Query>, pass: nat, waits: seq<seq<Arrival>>, last: nat)
    requires last == r.next + |r.missing|
    ensures Turn(Within(s, r.slots, asked + SlotQueries(Flat(r.asked)), r.missing, pass, waits, r.next, last),
                 Batch(waits, last))
         == RunOn(Settled(s, Pass(r, waits), asked, r.missing, pass), Settling(r.missing, pass))
  {
    PassTurn(s, NoteAll(r.slots, Handled(waits, r.next, last)),
             asked + SlotQueries(Flat(r.asked)) + SlotQueries(r.missing), Settling(r.missing, pass),
             Batch(waits, last));
    PassNotes(r, waits);
    AsksMore(asked, r.asked, r.missing);
  }

  /** The last wait of a pass, but for the list of what is still missing. */
  lemma PassSettles(s: State, start: State, r: History.Reading, asked: seq<Query>, pass: nat,
                    waits: seq<seq<Arrival>>)
    requires start == Standing(s, r, asked, pass)
    ensures After(start, waits, r.next, Pass(r, waits).next)
         == RunOn(Settled(s, Pass(r, waits), asked, r.missing, pass), Settling(r.missing, pass))
  {
    var last := r.next + |r.missing|;
    var there := Within(s, r.slots, asked + SlotQueries(Flat(r.asked)), r.missing, pass, waits, r.next, last);
    WithinAt(s, start, r.slots, asked + SlotQueries(Flat(r.asked)), r.missing, pass, waits, r.next, last);
    AfterFrom(start, there, waits, r.next, last, Pass(r, waits).next);
    SettleTurn(s, r, asked, pass, waits, last);
  }

  /** One pass, wait by wait, is the pass of the loops. */
  lemma PassThrough(s: State, start: State, r: History.Reading, asked: seq<Query>, pass: nat,
                    waits: seq<seq<Arrival>>)
    requires start == Standing(s, r, asked, pass)
    ensures var r' := Pass(r, waits);
            After(start, waits, r.next, r'.next)
            == if |r'.missing| == 0 || pass >= HISTORY_PASSES then Read(s, r', asked)
               else Standing(s, r', asked, pass + 1)
  {
    PassSettles(s, start, r, asked, pass, waits);
    PassEnds(s, Pass(r, waits), asked, r.missing, pass);
  }

  /** From this state on the read ends as the loops end it. */
  ghost predicate ComesTo(s: State, start: State, asked: seq<Query>, waits: seq<seq<Arrival>>, from: nat,
                          whole: History.Reading)
  {
    && from < whole.next
    && After(start, waits, from, whole.next) == Read(s, whole, asked)
    && StaysOn(start, waits, from, whole.next)
  }

  lemma ComesLater(s: State, start: State, later: State, asked: seq<Query>, waits: seq<seq<Arrival>>, from: nat,
                   mid: nat, whole: History.Reading)
    requires from <= mid && later == After(start, waits, from, mid) && StaysOn(start, waits, from, mid)
    requires ComesTo(s, later, asked, waits, mid, whole)
    ensures ComesTo(s, start, asked, waits, from, whole)
  {
    AfterMore(start, later, waits, from, mid, whole.next);
    StaysOnMore(start, later, waits, from, mid, whole.next);
  }

  lemma OnePassMore(waits: seq<seq<Arrival>>, capacity: nat, k: nat, r: History.Reading, pass: nat)
    requires 1 <= pass <= HISTORY_PASSES && r == AfterPasses(Started(capacity, k), waits, pass - 1)
    requires pass > 1 ==> |r.missing| > 0
    ensures Pass(r, waits) == AfterPasses(Started(capacity, k), waits, pass)
    ensures |Pass(r, waits).missing| == 0 || pass == HISTORY_PASSES ==>
              Pass(r, waits) == ReadAll(capacity, waits, k)
  {
    if pass < HISTORY_PASSES && |Pass(r, waits).missing| == 0 {
      D.ReadStops(Started(capacity, k), waits, pass, HISTORY_PASSES);
    }
  }

  /** From the start of a pass to the end of the read. */
  lemma {:induction false} PassesThrough(s: State, start: State, r: History.Reading, asked: seq<Query>, pass: nat,
                                         waits: seq<seq<Arrival>>, capacity: nat, k: nat)
    requires start == Standing(s, r, asked, pass)
    requires 1 <= pass <= HISTORY_PASSES && r == AfterPasses(Started(capacity, k), waits, pass - 1)
    requires pass > 1 ==> |r.missing| > 0
    ensures ComesTo(s, start, asked, waits, r.next, ReadAll(capacity, waits, k))
    decreases HISTORY_PASSES - pass
  {
    var r', whole := Pass(r, waits), ReadAll(capacity, waits, k);
    PassThrough(s, start, r, asked, pass, waits);
    PassStaysOn(s, start, r, asked, pass, waits);
    OnePassMore(waits, capacity, k, r, pass);
    if pass == HISTORY_PASSES || |r'.missing| == 0 {
    } else {
      var later := Standing(s, r', asked, pass + 1);
      PassesThrough(s, later, r', asked, pass + 1, waits, capacity, k);
      ComesLater(s, start, later, asked, waits, r.next, r'.next, whole);
    }
  }

  /** The state a read of this course leaves. */
  function Left(s: State, course: Course): State
  {
    End(s.(asked := s.asked + course.asked), course.ending)
  }

  /** Nothing of another read is left when a read begins. */
  predicate Free(s: State)
  {
    s.reader.None? && s.slots.None? && s.count.None?
  }

  /** A read, wait by wait, takes the course of the loops, and is on until its end. */
  lemma WakesRead(s: State, waits: seq<seq<Arrival>>)
    requires Free(s)
    ensures var course := CourseOf(waits);
            && After(Begin(s), waits, 0, course.used) == Left(s, course)
            && StaysOn(Begin(s), waits, 0, course.used)
  {
    var begun := Begin(s);
    var (capacity, k) := D.FindCapacity(waits, 0, HISTORY_PASSES);
    CountsThrough(begun, waits, 0, 1);
    FirstCapacity(s.asked, k);
    if capacity.Some? {
      var asked, r := s.asked + Capacities(k), Started(capacity.value, k);
      var whole := ReadAll(capacity.value, waits, k);
      assert asked + SlotQueries(Flat(r.asked)) == asked;
      PassesThrough(begun, Standing(begun, r, asked, 1), r, asked, 1, waits, capacity.value, k);
      AfterMore(begun, Standing(begun, r, asked, 1), waits, 0, k, whole.next);
      StaysOnMore(begun, Standing(begun, r, asked, 1), waits, 0, k, whole.next);
      Associates(s.asked, Capacities(k), SlotQueries(Flat(whole.asked)));
    }
  }

  // Reads among everything else

  /** What was handled since the read last ran, and in each of its waits before. */
  function Open(trace: seq<Event>, n: nat): seq<Arrival>
    requires n <= |trace|
  {
    if n == 0 then []
    else match trace[n - 1]
      case Wake => []
      case Handle(arrival) => Open(trace, n - 1) + [arrival]
      case _ => Open(trace, n - 1)
  }

  function Waits(trace: seq<Event>, n: nat): seq<seq<Arrival>>
    requires n <= |trace|
  {
    if n == 0 then []
    else if trace[n - 1].Wake? then Waits(trace, n - 1) + [Open(trace, n - 1)]
    else Waits(trace, n - 1)
  }

  lemma {:induction false} FoldedSame<T>(step: (T, nat) -> T, step': (T, nat) -> T, t: T, from: nat, to: nat)
    requires from <= to && forall u: T, k: nat :: k < to ==> step(u, k) == step'(u, k)
    ensures Folded(step, t, from, to) == Folded(step', t, from, to)
  {
    if from == to {
    } else {
      FoldedSame(step, step', t, from, to - 1);
    }
  }

  lemma AfterPrefix(s: State, waits: seq<seq<Arrival>>, more: seq<seq<Arrival>>, to: nat)
    requires to <= |waits|
    ensures After(s, waits + more, 0, to) == After(s, waits, 0, to)
  {
    FoldedSame(Turns(waits + more), Turns(waits), s, 0, to);
  }

  lemma HandleOneMore(s: State, arrivals: seq<Arrival>, arrival: Arrival)
    ensures HandleBatch(s, arrivals + [arrival]) == Step(HandleBatch(s, arrivals), Handle(arrival))
  {
    assert (arrivals + [arrival])[..|arrivals|] == arrivals;
  }

  lemma WaitersApart(s: State, waiting: nat)
    requires s.reader.Some?
    ensures Step(s.(waiting := waiting), Wake) == Step(s, Wake).(waiting := waiting)
  {
  }

  /** The state, but for who else waits for the lock, is that after the waits so far and what was handled since. */
  ghost predicate IsAfter(s: State, now: State, waits: seq<seq<Arrival>>, open: seq<Arrival>)
  {
    && StaysOn(s, waits, 0, |waits| + 1)
    && now == HandleBatch(After(s, waits, 0, |waits|), open).(waiting := now.waiting)
  }

  ghost predicate WaitsAt(s: State, trace: seq<Event>, n: nat)
  {
    n <= |trace| && IsAfter(s, At(s, trace, n), Waits(trace, n), Open(trace, n))
  }

  lemma WakeNext(s: State, now: State, waits: seq<seq<Arrival>>, open: seq<Arrival>)
    requires IsAfter(s, now, waits, open)
    ensures var all, next := waits + [open], Step(now, Wake);
            && next == After(s, all, 0, |all|).(waiting := next.waiting)
            && StaysOn(s, all, 0, |all|)
  {
    assert After(s, waits, 0, |waits|).reader.Some?;
    WaitersApart(HandleBatch(After(s, waits, 0, |waits|), open), now.waiting);
    AfterPrefix(s, waits, [open], |waits|);
    AfterNext(s, waits + [open], 0, |waits|);
    forall j: nat | j < |waits| + 1
      ensures After(s, waits + [open], 0, j).reader.Some?
    {
      AfterPrefix(s, waits, [open], j);
    }
  }

  lemma WokenOn(s: State, now: State, waits: seq<seq<Arrival>>, open: seq<Arrival>)
    requires IsAfter(s, now, waits, open) && Step(now, Wake).reader.Some?
    ensures IsAfter(s, Step(now, Wake), waits + [open], [])
  {
    WakeNext(s, now, waits, open);
    var there := After(s, waits + [open], 0, |waits| + 1);
    assert HandleBatch(there, []) == there;
  }

  lemma OtherNext(s: State, now: State, event: Event, waits: seq<seq<Arrival>>, open: seq<Arrival>)
    requires IsAfter(s, now, waits, open) && !event.Wake? && !event.Abandon?
    ensures IsAfter(s, Step(now, event), waits, if event.Handle? then open + [event.arrival] else open)
  {
    assert After(s, waits, 0, |waits|).reader.Some?;
    if event.Handle? {
      HandleOneMore(After(s, waits, 0, |waits|), open, event.arrival);
    }
  }

  lemma WaitsNext(s: State, trace: seq<Event>, m: nat, n: nat)
    requires n == m + 1 <= |trace| && WaitsAt(s, trace, m) && !trace[m].Abandon? && At(s, trace, n).reader.Some?
    ensures WaitsAt(s, trace, n)
  {
    if trace[m].Wake? {
      WokenOn(s, At(s, trace, m), Waits(trace, m), Open(trace, m));
    } else {
      OtherNext(s, At(s, trace, m), trace[m], Waits(trace, m), Open(trace, m));
    }
  }

  /** A read begun is on through the first n steps, and nobody cancels it. */
  ghost predicate OnThrough(s: State, trace: seq<Event>, n: nat)
    requires n <= |trace|
  {
    At(s, trace, n).reader.Some? && (n > 0 ==> !trace[n - 1].Abandon? && OnThrough(s, trace, n - 1))
  }

  lemma WaitsStart(s: State, trace: seq<Event>)
    requires s.reader.Some?
    ensures WaitsAt(s, trace, 0)
  {
    AfterNext(s, [], 0, 0);
    assert HandleBatch(s, []) == s;
  }

  lemma {:induction false} WaitsThrough(s: State, trace: seq<Event>, n: nat)
    requires n <= |trace| && OnThrough(s, trace, n)
    ensures WaitsAt(s, trace, n)
  {
    if n == 0 {
      assert At(s, trace, 0) == s;
      WaitsStart(s, trace);
    } else {
      WaitsThrough(s, trace, n - 1);
      WaitsNext(s, trace, n - 1, n);
    }
  }

  /** A read with anything else between its steps, such as logins, closes, sets and other reads: when it ends without
      being cancelled, what it asked and what it returns are those of the loops over the packets its waits handled. */
  lemma StepsRead(s: State, trace: seq<Event>, n: nat)
    requires Free(s) && n < |trace| && OnThrough(Begin(s), trace, n)
    requires trace[n].Wake? && At(Begin(s), trace, n + 1).reader.None?
    ensures var course := CourseOf(Waits(trace, n + 1));
            var after := At(Begin(s), trace, n + 1);
            course.used == |Waits(trace, n + 1)| && after == Left(s, course).(waiting := after.waiting)
  {
    var waits := Waits(trace, n + 1);
    WaitsThrough(Begin(s), trace, n);
    WakeNext(Begin(s), At(Begin(s), trace, n), Waits(trace, n), Open(trace, n));
    WakesRead(s, waits);
  }
}
