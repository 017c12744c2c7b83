/** The deferred decoders: the interrupt handler only raises a flag when a frame is full, and a
    kernel thread decodes. Interrupts and thread steps interleave at every array access. */
module DeferredDecoder {
  import opened KeyCode
  import opened MachineWords
  import opened Sequences
  import opened EdgeTimer
  import opened InfraredDecoder

  /** Where the thread is in one turn of its loop. */
  datatype Phase =
    | Waiting          // in wait_event_interruptible
    | Woken            // the condition held, the flag not yet looked at again
    | Reading(i: nat)  // about to classify gap i
    | Choosing         // about to pack the bits and set the output
    | Printing         // about to print the output
    | Signalling       // about to send the output to the registered process
    | Clearing         // about to reset the flag
    | Stopped          // returned: the flag was 2

  datatype Deferred = Deferred(
    timing: Timing, flag: int, phase: Phase, bits: seq<int>, output: int, log: seq<int>,
    registered: bool, signals: seq<int>)
  {
    predicate Valid() {
      timing.Valid() && |bits| == BITS && (phase.Reading? ==> phase.i < BITS)
    }

    function Print(): Deferred {
      this.(log := log + [output])
    }

    /** Send the output to the registered process, if there is one. */
    function Signal(): Deferred {
      if registered then this.(signals := signals + [output]) else this
    }
  }

  datatype Action =
    | Edge(t: U64)   // one call of the interrupt handler
    | Work           // one step of the thread
    | Register       // the ioctl that registers the calling process

  const LOADED: Deferred := Deferred(START, 0, Waiting, seq(BITS, _ => 0), 0, [], false, [])

  function OnEdge(d: Deferred, t: U64): (r: Deferred)
    requires d.Valid()
    ensures r.Valid()
  {
    var d' := d.(timing := Capture(d.timing, t));
    match EventAt(d.timing, t)
    case Nothing => d'
    case RepeatCode => d'.Print().Signal()
    case FrameComplete => d'.(flag := 1)
  }

  function OnWork(d: Deferred): (r: Deferred)
    requires d.Valid()
    ensures r.Valid()
  {
    match d.phase
    case Waiting => if d.flag != 0 then d.(phase := Woken) else d
    case Woken => d.(phase := if d.flag == 2 then Stopped else Reading(0))
    case Reading(i) =>
      d.(bits := d.bits[i := ClassifyGap(d.timing.gaps[i], d.bits[i])],
         phase := if i + 1 < BITS then Reading(i + 1) else Choosing)
    case Choosing => d.(output := SwitchDigit(CharCode(Value(d.bits[16..24])), d.output), phase := Printing)
    case Printing => d.Print().(phase := Signalling)
    case Signalling => d.Signal().(phase := Clearing)
    case Clearing => d.(flag := 0, phase := Waiting)
    case Stopped => d
  }

  function Act(d: Deferred, a: Action): (r: Deferred)
    requires d.Valid()
    ensures r.Valid()
  {
    match a
    case Edge(t) => OnEdge(d, t)
    case Work => OnWork(d)
    case Register => d.(registered := true)
  }

  function Perform(d: Deferred, schedule: seq<Action>): (r: Deferred)
    requires d.Valid()
    ensures r.Valid()
    decreases schedule
  {
    if schedule == [] then d else Perform(Act(d, schedule[0]), schedule[1..])
  }

  lemma {:induction false} PerformConcat(d: Deferred, a: seq<Action>, b: seq<Action>)
    requires d.Valid()
    ensures Perform(d, a + b) == Perform(Perform(d, a), b)
    decreases a
  {
    if a == [] {
      assert a + b == b;
    } else {
      assert (a + b)[1..] == a[1..] + b;
      PerformConcat(Act(d, a[0]), a[1..], b);
    }
  }

  /** The edges of a schedule, in order: what the inline driver would see. */
  function EdgesOf(schedule: seq<Action>): seq<U64> {
    if schedule == [] then []
    else if schedule[0].Edge? then [schedule[0].t] + EdgesOf(schedule[1..])
    else EdgesOf(schedule[1..])
  }

  /** The inline driver's state after an action: only edges concern it. */
  function InlineAct(s: Decoder, a: Action): (r: Decoder)
    requires s.Valid()
    ensures r.Valid()
  {
    if a.Edge? then Step(s, a.t) else s
  }

  /** The flag is raised from the moment the thread leaves the wait until it clears it. */
  ghost predicate FlagDiscipline(d: Deferred) {
    d.Valid() && (d.flag == 0 || d.flag == 1) && (d.phase != Waiting ==> d.flag == 1) && d.phase != Stopped
  }

  lemma {:induction false} FlagDisciplineKept(d: Deferred, schedule: seq<Action>)
    requires FlagDiscipline(d)
    ensures FlagDiscipline(Perform(d, schedule))
    decreases schedule
  {
    if schedule == [] {
    } else {
      FlagDisciplineKept(Act(d, schedule[0]), schedule[1..]);
    }
  }

  /* ---------------- refinement of the inline decoder ---------------- */

  /** A frame is waiting to be decoded, or its digit is still to be set. */
  predicate Undecided(d: Deferred) {
    d.flag == 1 && (d.phase == Waiting || d.phase == Woken || d.phase.Reading? || d.phase == Choosing)
  }

  /** How many gaps of the frame to be decoded have been read. */
  function GapsRead(d: Deferred): nat {
    match d.phase
    case Reading(i) => i
    case Choosing => BITS
    case _ => 0
  }

  /** The key byte the thread will have, if nothing it has yet to read is overwritten. */
  function DueByte(d: Deferred): (byte: seq<int>)
    requires d.Valid()
    ensures |byte| == 8
    ensures forall j :: 16 <= j < 24 ==>
              byte[j - 16] == if j < GapsRead(d) then d.bits[j] else ClassifyGap(d.timing.gaps[j], d.bits[j])
  {
    seq(8, i requires 0 <= i < 8 =>
      if 16 + i < GapsRead(d) then d.bits[16 + i] else ClassifyGap(d.timing.gaps[16 + i], d.bits[16 + i]))
  }

  function DueDigit(d: Deferred): int
    requires d.Valid()
  {
    SwitchDigit(CharCode(Value(DueByte(d))), d.output)
  }

  /** What is still to come of the frame in the thread's hands leads to the inline state. */
  ghost predicate Refines(d: Deferred, s: Decoder) {
    && FlagDiscipline(d) && s.Valid() && d.timing == s.timing
    && (if Undecided(d) then
          s.bits[16..24] == DueByte(d) && s.output == DueDigit(d) && s.log == d.log + [s.output]
        else
          && s.bits[16..24] == d.bits[16..24] && s.output == d.output
          && s.log == if d.phase == Printing then d.log + [d.output] else d.log)
  }

  /** The deadline of an edge while a digit is undecided: it fills no frame before the flag is
      clear, repeats no digit other than the one due, and changes no key bit still to be read. */
  predicate Harmless(d: Deferred, t: U64)
    requires d.Valid()
  {
    && (EventAt(d.timing, t).FrameComplete? ==> d.flag == 0)
    && (Undecided(d) && EventAt(d.timing, t).RepeatCode? ==> DueDigit(d) == d.output)
    && (Undecided(d) && 16 < d.timing.counter <= 24 && GapsRead(d) < d.timing.counter ==>
          var k := d.timing.counter - 1;
          ClassifyGap(GapAt(d.timing, t), d.bits[k]) == ClassifyGap(d.timing.gaps[k], d.bits[k]))
  }

  predicate HarmlessSchedule(d: Deferred, schedule: seq<Action>)
    requires d.Valid()
    decreases schedule
  {
    if schedule == [] then true
    else
      && (schedule[0].Edge? ==> Harmless(d, schedule[0].t))
      && HarmlessSchedule(Act(d, schedule[0]), schedule[1..])
  }

  /** The refinement holds now and after every action. */
  ghost predicate RefinesThroughout(d: Deferred, s: Decoder, schedule: seq<Action>)
    requires d.Valid() && s.Valid()
    decreases schedule
  {
    && Refines(d, s)
    && (schedule != [] ==> RefinesThroughout(Act(d, schedule[0]), InlineAct(s, schedule[0]), schedule[1..]))
  }

  lemma WorkRefines(d: Deferred, s: Decoder)
    requires Refines(d, s)
    ensures Refines(OnWork(d), s)
  {
    var d' := OnWork(d);
    if d.phase == Choosing {
      assert DueByte(d) == d.bits[16..24];
    } else if Undecided(d) {
      assert DueByte(d') == DueByte(d);
    }
  }

  /** An edge that completes no frame and prints nothing, while a digit is undecided: what matters
      is whether the byte due stays as it was. */
  lemma DueByteAfterEdge(d: Deferred, t: U64)
    requires d.Valid()
    ensures var k, d' := d.timing.counter - 1, d.(timing := Capture(d.timing, t));
            DueByte(d') == DueByte(d) <==>
              (16 <= k < 24 && GapsRead(d) <= k ==>
                 ClassifyGap(GapAt(d.timing, t), d.bits[k]) == ClassifyGap(d.timing.gaps[k], d.bits[k]))
  {
    var k, d' := d.timing.counter - 1, d.(timing := Capture(d.timing, t));
    if 16 <= k < 24 && GapsRead(d) <= k {
      assert DueByte(d)[k - 16] == ClassifyGap(d.timing.gaps[k], d.bits[k]);
      assert DueByte(d')[k - 16] == ClassifyGap(GapAt(d.timing, t), d.bits[k]);
      assert DueByte(d') == DueByte(d)[k - 16 := DueByte(d')[k - 16]];
    } else {
      assert DueByte(d') == DueByte(d);
    }
  }

  lemma RepeatLogs(log: seq<int>, due: int, shown: int)
    ensures log + [due] + [due] == log + [shown] + [due] <==> due == shown
  {
    assert (log + [due] + [due])[|log|] == due && (log + [shown] + [due])[|log|] == shown;
  }

  lemma FrameDue(d: Deferred, s: Decoder, t: U64)
    requires Refines(d, s) && d.flag == 0 && EventAt(d.timing, t).FrameComplete?
    ensures Step(s, t).bits[16..24] == DueByte(OnEdge(d, t))
  {
    var byte, due := Step(s, t).bits[16..24], DueByte(OnEdge(d, t));
    forall i | 0 <= i < 8 ensures byte[i] == due[i] {
      assert s.bits[16..24][i] == d.bits[16..24][i];
    }
  }

  /** The deadline is exact: an edge keeps the refinement if and only if it meets it. */
  lemma EdgeRefinesIff(d: Deferred, s: Decoder, t: U64)
    requires Refines(d, s)
    ensures Refines(OnEdge(d, t), Step(s, t)) <==> Harmless(d, t)
  {
    DueByteAfterEdge(d, t);
    var d', s' := OnEdge(d, t), Step(s, t);
    match EventAt(d.timing, t)
    case Nothing =>
    case RepeatCode => RepeatLogs(d.log, s.output, d.output);
    case FrameComplete =>
      if d.flag == 0 {
        FrameDue(d, s, t);
      } else {
        assert |s'.log| == |s.log| + 1 && d'.log == d.log;
      }
  }

  lemma ActRefinesIff(d: Deferred, s: Decoder, a: Action)
    requires Refines(d, s)
    ensures Refines(Act(d, a), InlineAct(s, a)) <==> (a.Edge? ==> Harmless(d, a.t))
  {
    match a
    case Edge(t) => EdgeRefinesIff(d, s, t);
    case Work => WorkRefines(d, s);
    case Register => assert DueByte(Act(d, a)) == DueByte(d);
  }

  /** The refinement holds all through a schedule if and only if every edge of it is harmless. */
  lemma {:induction false} RefinesThroughoutIff(d: Deferred, s: Decoder, schedule: seq<Action>)
    requires Refines(d, s)
    ensures RefinesThroughout(d, s, schedule) <==> HarmlessSchedule(d, schedule)
    decreases schedule
  {
    if schedule == [] {
    } else {
      var d', s' := Act(d, schedule[0]), InlineAct(s, schedule[0]);
      ActRefinesIff(d, s, schedule[0]);
      if Refines(d', s') {
        RefinesThroughoutIff(d', s', schedule[1..]);
      } else {
        assert !RefinesThroughout(d', s', schedule[1..]);
      }
    }
  }

  lemma {:induction false} ThroughoutToTheEnd(d: Deferred, s: Decoder, schedule: seq<Action>)
    requires d.Valid() && s.Valid() && RefinesThroughout(d, s, schedule)
    ensures Refines(Perform(d, schedule), Run(s, EdgesOf(schedule)))
    decreases schedule
  {
    if schedule == [] {
    } else {
      var a := schedule[0];
      ThroughoutToTheEnd(Act(d, a), InlineAct(s, a), schedule[1..]);
      if a.Edge? {
        assert EdgesOf(schedule)[1..] == EdgesOf(schedule[1..]);
      }
    }
  }

  /** Refinement: over every harmless interleaving the deferred driver is never more than the digit
      of one frame behind the inline driver on the same edges. */
  lemma DeferredRefinesInline(d: Deferred, s: Decoder, schedule: seq<Action>)
    requires Refines(d, s) && HarmlessSchedule(d, schedule)
    ensures Refines(Perform(d, schedule), Run(s, EdgesOf(schedule)))
  {
    RefinesThroughoutIff(d, s, schedule);
    ThroughoutToTheEnd(d, s, schedule);
  }

  /** From load: the digits printed are the inline driver's, up to the one still in hand, and the
      same as soon as the flag is clear. */
  lemma SameDigitsFromLoad(schedule: seq<Action>)
    requires HarmlessSchedule(LOADED, schedule)
    ensures var d, s := Perform(LOADED, schedule), Run(INITIAL, EdgesOf(schedule));
            && (s.log == d.log || s.log == d.log + [s.output])
            && (d.flag == 0 ==> s.log == d.log && s.output == d.output)
  {
    DeferredRefinesInline(LOADED, INITIAL, schedule);
  }

  /* ---------------- deadlines that do not look at values ---------------- */

  /** No key gap is overwritten unread, no repeat comes while a digit is undecided, and no frame is
      filled before the flag is clear. */
  predicate Timely(d: Deferred, t: U64)
    requires d.Valid()
  {
    && (Undecided(d) && 16 < d.timing.counter <= 24 ==> d.timing.counter <= GapsRead(d))
    && (EventAt(d.timing, t).RepeatCode? ==> !Undecided(d))
    && (EventAt(d.timing, t).FrameComplete? ==> d.flag == 0)
  }

  predicate TimelySchedule(d: Deferred, schedule: seq<Action>)
    requires d.Valid()
    decreases schedule
  {
    if schedule == [] then true
    else (schedule[0].Edge? ==> Timely(d, schedule[0].t)) && TimelySchedule(Act(d, schedule[0]), schedule[1..])
  }

  /** The thread clears its flag before the edge that overwrites gap 16, and no repeat comes while
      the flag is raised. */
  predicate ClearedInTime(d: Deferred, schedule: seq<Action>)
    requires d.Valid()
    decreases schedule
  {
    if schedule == [] then true
    else
      && (schedule[0].Edge? && d.flag == 1 ==>
            d.timing.counter <= 16 && !EventAt(d.timing, schedule[0].t).RepeatCode?)
      && ClearedInTime(Act(d, schedule[0]), schedule[1..])
  }

  lemma {:induction false} ClearedInTimeIsTimely(d: Deferred, schedule: seq<Action>)
    requires FlagDiscipline(d) && ClearedInTime(d, schedule)
    ensures TimelySchedule(d, schedule)
    decreases schedule
  {
    if schedule == [] {
    } else {
      ClearedInTimeIsTimely(Act(d, schedule[0]), schedule[1..]);
    }
  }

  lemma {:induction false} TimelyIsHarmless(d: Deferred, schedule: seq<Action>)
    requires d.Valid() && TimelySchedule(d, schedule)
    ensures HarmlessSchedule(d, schedule)
    decreases schedule
  {
    if schedule == [] {
    } else {
      TimelyIsHarmless(Act(d, schedule[0]), schedule[1..]);
    }
  }

  /* ---------------- signals ---------------- */

  /** The digit printed but not yet sent: an interrupt may come in between. */
  function Unsent(d: Deferred): seq<int> {
    if d.phase == Signalling then [d.output] else []
  }

  lemma PrintedBy(d: Deferred, a: Action) returns (digits: seq<int>)
    requires d.Valid() && d.registered
    ensures var r := Act(d, a);
            && r.registered && r.log == d.log + digits
            && r.signals + Unsent(r) == d.signals + Unsent(d) + digits
  {
    var prints := match a
      case Edge(t) => EventAt(d.timing, t).RepeatCode?
      case Work => d.phase == Printing
      case Register => false;
    digits := if prints then [d.output] else [];
  }

  /** Every digit printed after a process is registered is sent to it, in order, whatever happens:
      at every moment only a digit printed and about to be sent is missing. */
  lemma {:induction false} SignalsFollowLog(d: Deferred, schedule: seq<Action>) returns (digits: seq<int>)
    requires d.Valid() && d.registered
    ensures var r := Perform(d, schedule);
            r.registered && r.log == d.log + digits && r.signals + Unsent(r) == d.signals + Unsent(d) + digits
    decreases schedule
  {
    if schedule == [] {
      digits := [];
    } else {
      var now := PrintedBy(d, schedule[0]);
      var later := SignalsFollowLog(Act(d, schedule[0]), schedule[1..]);
      digits := now + later;
      Reassociate(d.log, now, later);
      Reassociate(d.signals + Unsent(d), now, later);
    }
  }

  lemma {:induction false} NoSignalBeforeRegister(d: Deferred, schedule: seq<Action>)
    requires d.Valid() && !d.registered && Register !in schedule
    ensures !Perform(d, schedule).registered && Perform(d, schedule).signals == d.signals
    decreases schedule
  {
    if schedule == [] {
    } else {
      assert schedule[0] in schedule;
      NoSignalBeforeRegister(Act(d, schedule[0]), schedule[1..]);
    }
  }

  lemma RegisterThen(d: Deferred, rest: seq<Action>) returns (digits: seq<int>)
    requires d.Valid()
    ensures var r := Perform(d, [Register] + rest);
            && r.registered && r.log == d.log + digits && r.signals + Unsent(r) == d.signals + Unsent(d) + digits
  {
    assert ([Register] + rest)[1..] == rest;
    digits := SignalsFollowLog(Act(d, Register), rest);
  }

  /** From the moment a process registers, in whatever state the driver is then, it stays registered
      and is sent every digit printed from then on, in order, and a digit that was just printed and
      not yet sent. */
  lemma SignalsAfterRegister(d: Deferred, before: seq<Action>, after: seq<Action>)
    requires d.Valid()
    ensures var w, r := Perform(d, before), Perform(d, before + [Register] + after);
            && r.registered && w.log <= r.log
            && r.signals + Unsent(r) == w.signals + Unsent(w) + r.log[|w.log|..]
  {
    var w := Perform(d, before);
    assert before + [Register] + after == before + ([Register] + after);
    PerformConcat(d, before, [Register] + after);
    var digits := RegisterThen(w, after);
    assert (w.log + digits)[|w.log|..] == digits;
  }

  /** From load: what a process gets that registers first after `before`. */
  lemma SignalsFromLoad(before: seq<Action>, after: seq<Action>)
    requires Register !in before
    ensures var w, r := Perform(LOADED, before), Perform(LOADED, before + [Register] + after);
            r.registered && w.log <= r.log && r.signals + Unsent(r) == Unsent(w) + r.log[|w.log|..]
  {
    NoSignalBeforeRegister(LOADED, before);
    SignalsAfterRegister(LOADED, before, after);
  }
}
