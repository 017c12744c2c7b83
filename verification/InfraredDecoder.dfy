/** The inline decoder as a machine on values: what one falling edge does to the whole state,
    and what holds on every run. */
module InfraredDecoder {
  import opened KeyCode
  import opened MachineWords
  import opened EdgeTimer

  /** A gap in neither bit window leaves the stored bit as it was. */
  function ClassifyGap(us: int, bit: int): int {
    if IsZero(us) then 0 else if IsOne(us) then 1 else bit
  }

  function ClassifyGaps(gaps: seq<U64>, bits: seq<int>): (r: seq<int>)
    requires |gaps| == GAPS && |bits| == BITS
    ensures |r| == BITS
    ensures forall i :: 0 <= i < BITS ==> r[i] == ClassifyGap(gaps[i], bits[i])
  {
    seq(BITS, i requires 0 <= i < BITS => ClassifyGap(gaps[i], bits[i]))
  }

  /** All the state of the driver; `log` is the sequence of digits it has printed. */
  datatype Decoder = Decoder(timing: Timing, bits: seq<int>, output: int, log: seq<int>) {
    predicate Valid() {
      timing.Valid() && |bits| == BITS
    }
  }

  const INITIAL: Decoder := Decoder(START, seq(BITS, _ => 0), 0, [])

  /** The digit shown after the gaps now stored are decoded. */
  function DecodedDigit(gaps: seq<U64>, bits: seq<int>, output: int): int
    requires |gaps| == GAPS && |bits| == BITS
  {
    SwitchDigit(CharCode(Value(ClassifyGaps(gaps, bits)[16..24])), output)
  }

  /** One call of the interrupt handler. */
  function Step(s: Decoder, t: U64): (r: Decoder)
    requires s.Valid()
    ensures r.Valid()
  {
    var timing := Capture(s.timing, t);
    match EventAt(s.timing, t)
    case Nothing => s.(timing := timing)
    case RepeatCode => s.(timing := timing, log := s.log + [s.output])
    case FrameComplete =>
      var digit := DecodedDigit(timing.gaps, s.bits, s.output);
      Decoder(timing, ClassifyGaps(timing.gaps, s.bits), digit, s.log + [digit])
  }

  function Run(s: Decoder, edges: seq<U64>): (r: Decoder)
    requires s.Valid()
    ensures r.Valid()
    decreases edges
  {
    if edges == [] then s else Run(Step(s, edges[0]), edges[1..])
  }

  lemma {:induction false} RunConcat(s: Decoder, a: seq<U64>, b: seq<U64>)
    requires s.Valid()
    ensures Run(s, a + b) == Run(Run(s, a), b)
    decreases a
  {
    if a == [] {
      assert a + b == b;
    } else {
      assert (a + b)[1..] == a[1..] + b;
      RunConcat(Step(s, a[0]), a[1..], b);
    }
  }

  /** Monotone clock readings that start no earlier than `now`. */
  ghost predicate Monotone(now: int, edges: seq<U64>) {
    && (forall i :: 0 <= i < |edges| ==> now <= edges[i])
    && (forall i, j :: 0 <= i <= j < |edges| ==> edges[i] <= edges[j])
  }

  ghost predicate Invariant(s: Decoder, now: int) {
    s.Valid() && Ordered(s.timing, now) && IsBinary(s.bits) && 0 <= s.output <= 9
  }

  lemma StepKeepsInvariant(s: Decoder, now: int, t: U64)
    requires Invariant(s, now) && now <= t
    ensures Invariant(Step(s, t), t)
  {
    CaptureKeepsOrder(s.timing, now, t);
  }

  /** One edge in nanoseconds of real time since the one before: what is printed, shown and stored. */
  lemma StepInNanoseconds(s: Decoder, now: int, t: U64)
    requires Invariant(s, now) && now <= t
    ensures s.timing.counter == 0 ==> Step(s, t) == s.(timing := Capture(s.timing, t))
    ensures s.timing.counter > 0 ==>
            var r, gap := Step(s, t), t - s.timing.captures[s.timing.counter - 1];
            && r.timing == Capture(s.timing, t)
            && (if 13001000 <= gap <= 13999999 then r == s.(timing := r.timing)
                else if 11001000 <= gap <= 11999999 then r == s.(timing := r.timing, log := s.log + [s.output])
                else if s.timing.counter < 33 then r == s.(timing := r.timing)
                else r.log == s.log + [r.output] && r.output == KeyDigit(Value(r.bits[16..24]), s.output))
    ensures s.timing.counter == 33 ==>
            var r, gap := Step(s, t), t - s.timing.captures[32];
            !(13001000 <= gap <= 13999999) && !(11001000 <= gap <= 11999999) ==>
              forall i :: 0 <= i < 32 ==>
                r.bits[i] == if 1001 <= r.timing.gaps[i] <= 1499 then 0
                             else if 2001 <= r.timing.gaps[i] <= 2499 then 1 else s.bits[i]
  {
    EdgeInNanoseconds(s.timing, now, t);
    var r := Step(s, t);
    if EventAt(s.timing, t).FrameComplete? {
      var byte := r.bits[16..24];
      forall i | 0 <= i < 8 ensures byte[i] == 0 || byte[i] == 1 {
        assert byte[i] == r.bits[16 + i];
      }
      BitStringOfValue(byte);
      assert Pow2(8) == 256;
      SwitchIsTableLookup(Value(byte), s.output);
    }
  }

  /** Every run keeps the invariant: positions in range, stamps in order, bits 0 or 1 and a
      single decimal digit as output. */
  lemma {:induction false} RunKeepsInvariant(s: Decoder, now: int, edges: seq<U64>)
    requires Invariant(s, now) && Monotone(now, edges)
    ensures Invariant(Run(s, edges), if edges == [] then now else edges[|edges| - 1])
    decreases edges
  {
    if edges == [] {
    } else {
      StepKeepsInvariant(s, now, edges[0]);
      RunKeepsInvariant(Step(s, edges[0]), edges[0], edges[1..]);
    }
  }

  /** So does every run from the moment the module is loaded. */
  lemma EveryRunFromLoad(edges: seq<U64>)
    requires Monotone(0, edges)
    ensures Invariant(Run(INITIAL, edges), if edges == [] then 0 else edges[|edges| - 1])
  {
    RunKeepsInvariant(INITIAL, 0, edges);
  }

  /** Every digit ever printed is a decimal digit. */
  lemma {:induction false} PrintedDigits(s: Decoder, now: int, edges: seq<U64>)
    requires Invariant(s, now) && Monotone(now, edges)
    requires forall i :: 0 <= i < |s.log| ==> 0 <= s.log[i] <= 9
    ensures s.log <= Run(s, edges).log
    ensures forall i :: 0 <= i < |Run(s, edges).log| ==> 0 <= Run(s, edges).log[i] <= 9
    decreases edges
  {
    if edges == [] {
    } else {
      StepKeepsInvariant(s, now, edges[0]);
      PrintedDigits(Step(s, edges[0]), edges[0], edges[1..]);
    }
  }
}
