/** The deadlines of the deferred drivers at the level of digits: when every frame completed has clear
    key gaps, all that matters of an overwritten gap is whether it changes the digit due. */
module DeferredDigits {
  import opened KeyCode
  import opened MachineWords
  import opened EdgeTimer
  import opened InfraredDecoder
  import opened DeferredDecoder

  /** Every gap of the key byte lies in a bit window, so no old bit is kept. */
  ghost predicate KeyGapsClear(gaps: seq<U64>)
    requires |gaps| == GAPS
  {
    forall j :: 16 <= j < 24 ==> IsZero(gaps[j]) || IsOne(gaps[j])
  }

  ghost predicate ClearFrame(tm: Timing, t: U64)
    requires tm.Valid()
  {
    EventAt(tm, t).FrameComplete? ==> KeyGapsClear(Capture(tm, t).gaps)
  }

  /** Every frame that a schedule completes has clear key gaps. */
  ghost predicate ClearFrames(tm: Timing, schedule: seq<Action>)
    requires tm.Valid()
    decreases schedule
  {
    if schedule == [] then true
    else match schedule[0]
      case Edge(t) => ClearFrame(tm, t) && ClearFrames(Capture(tm, t), schedule[1..])
      case Work => ClearFrames(tm, schedule[1..])
      case Register => ClearFrames(tm, schedule[1..])
  }

  /** The digits printed and the digit due are the inline driver's. */
  ghost predicate SameDigits(d: Deferred, s: Decoder) {
    && FlagDiscipline(d) && s.Valid() && d.timing == s.timing
    && (if Undecided(d) then s.output == DueDigit(d) && s.log == d.log + [s.output]
        else s.output == d.output && s.log == if d.phase == Printing then d.log + [d.output] else d.log)
  }

  /** The deadline of an edge: it fills no frame before the flag is clear, and while a digit is
      undecided it repeats no other digit and leaves the digit due as it is. */
  predicate KeepsDigits(d: Deferred, t: U64)
    requires d.Valid()
  {
    && (EventAt(d.timing, t).FrameComplete? ==> d.flag == 0)
    && (Undecided(d) && EventAt(d.timing, t).RepeatCode? ==> DueDigit(d) == d.output)
    && (Undecided(d) ==> DueDigit(d.(timing := Capture(d.timing, t))) == DueDigit(d))
  }

  predicate KeepsDigitsThroughout(d: Deferred, schedule: seq<Action>)
    requires d.Valid()
    decreases schedule
  {
    if schedule == [] then true
    else
      && (schedule[0].Edge? ==> KeepsDigits(d, schedule[0].t))
      && KeepsDigitsThroughout(Act(d, schedule[0]), schedule[1..])
  }

  ghost predicate SameDigitsThroughout(d: Deferred, s: Decoder, schedule: seq<Action>)
    requires d.Valid() && s.Valid()
    decreases schedule
  {
    && SameDigits(d, s)
    && (schedule != [] ==> SameDigitsThroughout(Act(d, schedule[0]), InlineAct(s, schedule[0]), schedule[1..]))
  }

  lemma WorkKeepsDigits(d: Deferred, s: Decoder)
    requires SameDigits(d, s)
    ensures SameDigits(OnWork(d), s)
  {
    var d' := OnWork(d);
    if d.phase == Choosing {
      assert DueByte(d) == d.bits[16..24];
    } else if Undecided(d) {
      assert DueByte(d') == DueByte(d);
    }
  }

  /** A frame with clear key gaps is decoded alike from any old bits. */
  lemma ClearFrameDue(d: Deferred, s: Decoder, t: U64)
    requires SameDigits(d, s) && d.flag == 0 && EventAt(d.timing, t).FrameComplete? && ClearFrame(d.timing, t)
    ensures Step(s, t).bits[16..24] == DueByte(OnEdge(d, t))
  {
    var gaps := Capture(d.timing, t).gaps;
    var byte, due := Step(s, t).bits[16..24], DueByte(OnEdge(d, t));
    forall i | 0 <= i < 8 ensures byte[i] == due[i] {
      assert IsZero(gaps[16 + i]) || IsOne(gaps[16 + i]);
    }
  }

  lemma EdgeKeepsDigitsIff(d: Deferred, s: Decoder, t: U64)
    requires SameDigits(d, s) && ClearFrame(d.timing, t)
    ensures SameDigits(OnEdge(d, t), Step(s, t)) <==> KeepsDigits(d, t)
  {
    var d', s' := OnEdge(d, t), Step(s, t);
    var moved := d.(timing := Capture(d.timing, t));
    match EventAt(d.timing, t)
    case Nothing =>
    case RepeatCode =>
      RepeatLogs(d.log, s.output, d.output);
      assert DueByte(d') == DueByte(moved);
    case FrameComplete =>
      if d.flag == 0 {
        ClearFrameDue(d, s, t);
      } else {
        assert |s'.log| == |s.log| + 1 && d'.log == d.log;
      }
  }

  lemma ActKeepsDigitsIff(d: Deferred, s: Decoder, a: Action)
    requires SameDigits(d, s) && (a.Edge? ==> ClearFrame(d.timing, a.t))
    ensures SameDigits(Act(d, a), InlineAct(s, a)) <==> (a.Edge? ==> KeepsDigits(d, a.t))
  {
    match a
    case Edge(t) => EdgeKeepsDigitsIff(d, s, t);
    case Work => WorkKeepsDigits(d, s);
    case Register => assert DueByte(Act(d, a)) == DueByte(d);
  }

  /** When every frame completed has clear key gaps, the digits printed and due are the inline driver's
      at every moment if and only if every edge leaves them so. */
  lemma {:induction false} SameDigitsThroughoutIff(d: Deferred, s: Decoder, schedule: seq<Action>)
    requires SameDigits(d, s) && ClearFrames(d.timing, schedule)
    ensures SameDigitsThroughout(d, s, schedule) <==> KeepsDigitsThroughout(d, schedule)
    decreases schedule
  {
    if schedule == [] {
    } else {
      var d', s' := Act(d, schedule[0]), InlineAct(s, schedule[0]);
      ActKeepsDigitsIff(d, s, schedule[0]);
      if SameDigits(d', s') {
        SameDigitsThroughoutIff(d', s', schedule[1..]);
      } else {
        assert !SameDigitsThroughout(d', s', schedule[1..]);
      }
    }
  }

  lemma {:induction false} DigitsToTheEnd(d: Deferred, s: Decoder, schedule: seq<Action>)
    requires d.Valid() && s.Valid() && SameDigitsThroughout(d, s, schedule)
    ensures SameDigits(Perform(d, schedule), Run(s, EdgesOf(schedule)))
    decreases schedule
  {
    if schedule == [] {
    } else {
      var a := schedule[0];
      DigitsToTheEnd(Act(d, a), InlineAct(s, a), schedule[1..]);
      if a.Edge? {
        assert EdgesOf(schedule)[1..] == EdgesOf(schedule[1..]);
      }
    }
  }

  /** From load: the digits printed are then the inline driver's, up to the one in hand, although key
      bits may have been overwritten. */
  lemma SameDigitsWhenKept(schedule: seq<Action>)
    requires ClearFrames(START, schedule) && KeepsDigitsThroughout(LOADED, schedule)
    ensures var d, s := Perform(LOADED, schedule), Run(INITIAL, EdgesOf(schedule));
            && (s.log == d.log || s.log == d.log + [s.output])
            && (d.flag == 0 ==> s.log == d.log && s.output == d.output)
  {
    SameDigitsThroughoutIff(LOADED, INITIAL, schedule);
    DigitsToTheEnd(LOADED, INITIAL, schedule);
  }

  /** An edge that changes no key bit changes no digit: the deadline on bits implies the one on digits. */
  lemma HarmlessKeepsDigits(d: Deferred, t: U64)
    requires d.Valid() && Harmless(d, t)
    ensures KeepsDigits(d, t)
  {
    DueByteAfterEdge(d, t);
  }

  lemma ByteOfNoKey(byte: seq<int>, previous: int)
    requires |byte| == 8 && forall i :: 1 <= i < 8 ==> byte[i] == 0
    requires byte[0] == 0 || byte[0] == 1
    ensures SwitchDigit(CharCode(Value(byte)), previous) == previous
  {
    var v := if byte[0] == 0 then 0 else 128;
    assert Pow2(8) == 256;
    ValueOfBitString(v, 8);
    assert byte == BitString(v, 8);
  }

  /** But not the other way round: an edge that turns a byte of no key into another. */
  lemma DigitsNeedLess() returns (d: Deferred, t: U64)
    ensures FlagDiscipline(d) && KeepsDigits(d, t) && !Harmless(d, t)
  {
    d, t := LOADED.(flag := 1, timing := START.(counter := 17)), 2250000;
    assert (t - 0) % WORD64 == t;
    var moved := d.(timing := Capture(d.timing, t));
    ByteOfNoKey(DueByte(d), d.output);
    ByteOfNoKey(DueByte(moved), d.output);
  }
}
