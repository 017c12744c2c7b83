/** Messages of the NEC infrared protocol as edge streams, and what the decoder makes of them:
    the round trip from a synchronised state, and the fate of a message met in any state. */
module InfraredStream {
  import opened KeyCode
  import opened MachineWords
  import opened Sequences
  import opened EdgeTimer
  import opened InfraredDecoder

  /** A message with its timing in nanoseconds: the pause since the previous edge, then the
      leader and one gap per bit, or the repeat mark. */
  datatype Message =
    | Frame(idle: nat, leader: nat, bits: seq<int>, gaps: seq<nat>)
    | Repeat(idle: nat, mark: nat)

  ghost predicate InWindows(bits: seq<int>, gaps: seq<nat>) {
    && |bits| == |gaps|
    && IsBinary(bits)
    && forall i :: 0 <= i < |gaps| ==> if bits[i] == 0 then IsZero(gaps[i] / 1000) else IsOne(gaps[i] / 1000)
  }

  ghost predicate Clean(m: Message) {
    match m
    case Frame(_, leader, bits, gaps) => IsLeader(leader / 1000) && |bits| == BITS && InWindows(bits, gaps)
    case Repeat(_, mark) => IsRepeat(mark / 1000)
  }

  function Total(ns: seq<nat>): nat {
    if ns == [] then 0 else ns[0] + Total(ns[1..])
  }

  /** The clock readings of edges that close the given gaps, one after the other. */
  function Times(now: nat, ns: seq<nat>): (edges: seq<U64>)
    requires now + Total(ns) < WORD64
    decreases ns
  {
    if ns == [] then [] else [now + ns[0]] + Times(now + ns[0], ns[1..])
  }

  function GapsOf(m: Message): seq<nat> {
    match m
    case Frame(idle, leader, _, gaps) => [idle, leader] + gaps
    case Repeat(idle, mark) => [idle, mark]
  }

  function Duration(ms: seq<Message>): nat {
    if ms == [] then 0 else Total(GapsOf(ms[0])) + Duration(ms[1..])
  }

  /** Transmission of a list of messages: the encoder's side of the round trip. */
  function Transmit(now: nat, ms: seq<Message>): (edges: seq<U64>)
    requires now + Duration(ms) < WORD64
    decreases ms
  {
    if ms == [] then []
    else Times(now, GapsOf(ms[0])) + Transmit(now + Total(GapsOf(ms[0])), ms[1..])
  }

  /** The digit a message stands for: the key table applied to frame bits 15..22, or the last one. */
  function Meaning(m: Message, previous: int): int
    requires m.Frame? ==> |m.bits| == BITS
  {
    match m
    case Frame(_, _, bits, _) => KeyDigit(Value(bits[15..23]), previous)
    case Repeat(_, _) => previous
  }

  ghost predicate AllClean(ms: seq<Message>) {
    forall i :: 0 <= i < |ms| ==> Clean(ms[i])
  }

  /** One digit per message. */
  ghost function Meanings(ms: seq<Message>, previous: int): seq<int>
    requires AllClean(ms)
    decreases ms
  {
    if ms == [] then []
    else var digit := Meaning(ms[0], previous); [digit] + Meanings(ms[1..], digit)
  }

  /* ---------------- runs of gaps ---------------- */

  /** The decoder fed with gaps instead of clock readings. */
  function Feed(s: Decoder, now: nat, ns: seq<nat>): (r: Decoder)
    requires s.Valid() && now + Total(ns) < WORD64
    ensures r.Valid()
    decreases ns
  {
    if ns == [] then s else Feed(Step(s, now + ns[0]), now + ns[0], ns[1..])
  }

  lemma {:induction false} FeedIsRun(s: Decoder, now: nat, ns: seq<nat>)
    requires s.Valid() && now + Total(ns) < WORD64
    ensures Feed(s, now, ns) == Run(s, Times(now, ns))
    decreases ns
  {
    if ns == [] {
    } else {
      var t, edges := now + ns[0], Times(now, ns);
      FeedIsRun(Step(s, t), t, ns[1..]);
      assert edges[0] == t && edges[1..] == Times(t, ns[1..]);
    }
  }

  lemma FeedUnfolds(s: Decoder, now: nat, gap: nat, ns: seq<nat>, rest: seq<nat>) returns (first: Decoder, t: nat)
    requires s.Valid() && ns == [gap] + rest && now + Total(ns) < WORD64
    ensures t == now + gap && t + Total(rest) == now + Total(ns)
    ensures first == Step(s, t) && Feed(s, now, ns) == Feed(first, t, rest)
  {
    first, t := Step(s, now + gap), now + gap;
    assert ns[1..] == rest;
  }

  lemma QuietStep(s: Decoder, now: nat, gap: nat, ns: seq<nat>, rest: seq<nat>) returns (r: Decoder, end: nat)
    requires s.Valid() && 1 <= s.timing.counter <= 32 && s.timing.captures[s.timing.counter - 1] == now
    requires IsQuiet(gap / 1000) && ns == [gap] + rest && now + Total(ns) < WORD64
    ensures end + Total(rest) == now + Total(ns) && r.Valid() && Feed(s, now, ns) == Feed(r, end, rest)
    ensures r == s.(timing := r.timing)
    ensures r.timing.counter == s.timing.counter + 1 && r.timing.captures[s.timing.counter] == end
    ensures r.timing.gaps == s.timing.gaps[s.timing.counter - 1 := gap / 1000]
  {
    r, end := FeedUnfolds(s, now, gap, ns, rest);
    assert (end - now) % WORD64 == gap;
  }

  /** Quiet gaps that do not yet fill the frame only add to the gap array: k of them lead to a
      state r at time `end`, from which the remaining gaps are run. */
  lemma {:induction false} QuietRun(s: Decoder, now: nat, ns: seq<nat>, k: nat) returns (r: Decoder, end: nat)
    requires s.Valid() && k <= |ns| && 1 <= s.timing.counter && s.timing.counter + k <= 33
    requires s.timing.captures[s.timing.counter - 1] == now && now + Total(ns) < WORD64
    requires forall i :: 0 <= i < k ==> IsQuiet(ns[i] / 1000)
    ensures end + Total(ns[k..]) == now + Total(ns)
    ensures r.Valid() && Feed(s, now, ns) == Feed(r, end, ns[k..])
    ensures r == s.(timing := r.timing) && r.timing.counter == s.timing.counter + k
    ensures r.timing.captures[r.timing.counter - 1] == end
    ensures forall j :: 0 <= j < s.timing.counter - 1 ==> r.timing.gaps[j] == s.timing.gaps[j]
    ensures forall j :: s.timing.counter - 1 <= j < s.timing.counter - 1 + k ==>
              r.timing.gaps[j] == ns[j - (s.timing.counter - 1)] / 1000
    decreases k
  {
    if k == 0 {
      r, end := s, now;
      assert ns[0..] == ns;
    } else {
      var before, t := QuietRun(s, now, ns, k - 1);
      assert ns[k - 1..] == [ns[k - 1]] + ns[k..];
      r, end := QuietStep(before, t, ns[k - 1], ns[k - 1..], ns[k..]);
    }
  }

  lemma CleanGapsAreQuiet(bits: seq<int>, gaps: seq<nat>)
    requires InWindows(bits, gaps)
    ensures forall i :: 0 <= i < |gaps| ==> IsQuiet(gaps[i] / 1000)
  {
    forall i | 0 <= i < |gaps| ensures IsQuiet(gaps[i] / 1000) {
      assert if bits[i] == 0 then IsZero(gaps[i] / 1000) else IsOne(gaps[i] / 1000);
    }
  }

  /** Eight clean gaps in slots 16..23 decode to the table digit of their bits. */
  lemma DecodedByte(s: Decoder, gaps: seq<U64>, byte: seq<int>)
    requires s.Valid() && |gaps| == GAPS && |byte| == 8 && IsBinary(byte)
    requires forall i :: 0 <= i < 8 ==> if byte[i] == 0 then IsZero(gaps[16 + i]) else IsOne(gaps[16 + i])
    ensures DecodedDigit(gaps, s.bits, s.output) == KeyDigit(Value(byte), s.output)
  {
    var decoded := ClassifyGaps(gaps, s.bits)[16..24];
    forall i | 0 <= i < 8 ensures decoded[i] == byte[i] {
      assert if byte[i] == 0 then IsZero(gaps[16 + i]) else IsOne(gaps[16 + i]);
    }
    assert decoded == byte;
    BitStringOfValue(byte);
    assert Pow2(8) == 256;
    SwitchIsTableLookup(Value(byte), s.output);
  }

  lemma SlotsHoldBits(gaps: seq<U64>, bits: seq<int>, ns: seq<nat>)
    requires |gaps| == GAPS && |ns| == 31 && InWindows(bits, ns)
    requires forall j :: 2 <= j < 32 ==> gaps[j] == ns[j - 2] / 1000
    ensures forall i :: 0 <= i < 8 ==> if bits[14..22][i] == 0 then IsZero(gaps[16 + i]) else IsOne(gaps[16 + i])
  {
    forall i | 0 <= i < 8 ensures if bits[14..22][i] == 0 then IsZero(gaps[16 + i]) else IsOne(gaps[16 + i]) {
      assert gaps[16 + i] == ns[14 + i] / 1000;
      assert if bits[14 + i] == 0 then IsZero(ns[14 + i] / 1000) else IsOne(ns[14 + i] / 1000);
    }
  }

  lemma FinalStep(s: Decoder, now: nat, gap: nat, byte: seq<int>)
    requires s.Valid() && s.timing.counter == 33 && s.timing.captures[32] == now
    requires IsQuiet(gap / 1000) && now + gap < WORD64
    requires |byte| == 8 && IsBinary(byte)
    requires forall i :: 0 <= i < 8 ==>
               if byte[i] == 0 then IsZero(s.timing.gaps[16 + i]) else IsOne(s.timing.gaps[16 + i])
    ensures var r, digit := Step(s, now + gap), KeyDigit(Value(byte), s.output);
            r.timing.counter == 0 && r.output == digit && r.log == s.log + [digit]
  {
    assert (now + gap - now) % WORD64 == gap;
    DecodedByte(s, Step(s, now + gap).timing.gaps, byte);
  }

  lemma FinalEdge(s: Decoder, now: nat, ns: seq<nat>, rest: seq<nat>, byte: seq<int>) returns (r: Decoder, end: nat)
    requires s.Valid() && s.timing.counter == 33 && s.timing.captures[32] == now
    requires |ns| > 0 && IsQuiet(ns[0] / 1000) && rest == ns[1..] && now + Total(ns) < WORD64
    requires |byte| == 8 && IsBinary(byte)
    requires forall i :: 0 <= i < 8 ==>
               if byte[i] == 0 then IsZero(s.timing.gaps[16 + i]) else IsOne(s.timing.gaps[16 + i])
    ensures r.Valid() && end + Total(rest) == now + Total(ns) && Feed(s, now, ns) == Feed(r, end, rest)
    ensures r.timing.counter == 0 && r.output == KeyDigit(Value(byte), s.output) && r.log == s.log + [r.output]
  {
    r, end := FeedUnfolds(s, now, ns[0], ns, rest);
    FinalStep(s, now, ns[0], byte);
  }

  /** Thirty-one clean gaps from position 3 fill the frame; the byte decoded is their bits 14..21,
      and whatever follows is run from position 0. */
  lemma TailCompletes(s: Decoder, now: nat, bits: seq<int>, ns: seq<nat>) returns (r: Decoder, end: nat)
    requires s.Valid() && s.timing.counter == 3 && s.timing.captures[2] == now && now + Total(ns) < WORD64
    requires |ns| >= 31 && InWindows(bits, ns[..31])
    ensures end + Total(ns[31..]) == now + Total(ns)
    ensures r.Valid() && Feed(s, now, ns) == Feed(r, end, ns[31..])
    ensures r.timing.counter == 0 && r.output == KeyDigit(Value(bits[14..22]), s.output)
    ensures r.log == s.log + [r.output]
  {
    CleanGapsAreQuiet(bits, ns[..31]);
    forall i | 0 <= i < 31 ensures IsQuiet(ns[i] / 1000) {
      assert ns[..31][i] == ns[i];
    }
    var full, t := QuietRun(s, now, ns, 30);
    SlotsHoldBits(full.timing.gaps, bits, ns[..31]);
    assert ns[30..][1..] == ns[31..];
    r, end := FinalEdge(full, t, ns[30..], ns[31..], bits[14..22]);
  }

  /* ---------------- one message met in any state ---------------- */

  /** What a caller can check at the first edge of a message: the decoder is at the start, or
      waits for a leader that began with the previous edge, or takes the pause for a bit gap that
      does not fill the frame. */
  ghost predicate Synchronises(tm: Timing, t: U64)
    requires tm.Valid()
  {
    || tm.counter == 0
    || (tm.counter == 1 && IsLeader(GapAt(tm, t)))
    || (tm.counter < 33 && IsQuiet(GapAt(tm, t)))
  }

  /** The digit that filling the frame would print with the gaps stored now. */
  ghost function Pending(s: Decoder): int
    requires s.Valid()
  {
    DecodedDigit(s.timing.gaps, s.bits, s.output)
  }

  /** The last gap of a frame is never decoded. */
  lemma LastGapIgnored(gaps: seq<U64>, bits: seq<int>, output: int, us: U64)
    requires |gaps| == GAPS && |bits| == BITS
    ensures DecodedDigit(gaps[32 := us], bits, output) == DecodedDigit(gaps, bits, output)
  {
    assert ClassifyGaps(gaps[32 := us], bits) == ClassifyGaps(gaps, bits);
  }

  /** From position 2, a first gap that is quiet and thirty-one clean ones fill the frame; the
      content of slot 1 does not matter. */
  lemma BodyCompletes(s: Decoder, now: nat, bits: seq<int>, ns: seq<nat>) returns (r: Decoder, end: nat)
    requires s.Valid() && s.timing.counter == 2 && |ns| >= 32 && now + Total(ns) < WORD64
    requires IsQuiet(GapAt(s.timing, now + ns[0])) && InWindows(bits, ns[1..32])
    ensures end + Total(ns[32..]) == now + Total(ns)
    ensures r.Valid() && Feed(s, now, ns) == Feed(r, end, ns[32..])
    ensures r.timing.counter == 0 && r.output == KeyDigit(Value(bits[14..22]), s.output)
    ensures r.log == s.log + [r.output]
  {
    assert ns[1..][..31] == ns[1..32];
    r, end := TailCompletes(Step(s, now + ns[0]), now + ns[0], bits, ns[1..]);
    assert ns[1..][31..] == ns[32..];
  }

  /** A leader gap after an edge stored in any slot opens a frame: the decoder is at position 2,
      and even if it came late the stale stamp in slot 1 makes the next gap quiet. */
  lemma LeaderOpens(s: Decoder, now: nat, leader: nat, gap: nat)
    requires Invariant(s, now) && s.timing.counter >= 1 && s.timing.captures[s.timing.counter - 1] == now
    requires IsLeader(leader / 1000) && (IsZero(gap / 1000) || IsOne(gap / 1000))
    requires now + leader + gap < WORD64
    ensures var r := Step(s, now + leader);
            r == s.(timing := r.timing) && r.timing.counter == 2 && IsQuiet(GapAt(r.timing, now + leader + gap))
  {
    var t := now + leader;
    assert (t - now) % WORD64 == leader;
    var r := Step(s, t);
    var first := r.timing.captures[1];
    assert first == if s.timing.counter == 1 then t else s.timing.captures[1];
    assert 0 <= first <= t;
    assert (t + gap - first) % WORD64 == t + gap - first;
  }

  lemma FirstEdge(s: Decoder, now: nat, t: U64)
    requires Invariant(s, now) && now <= t
    ensures var r := Step(s, t);
            && Invariant(r, t)
            && (Synchronises(s.timing, t) ==>
                  r == s.(timing := r.timing) && r.timing.counter >= 1 && r.timing.captures[r.timing.counter - 1] == t)
  {
    StepKeepsInvariant(s, now, t);
    CaptureKeepsOrder(s.timing, now, t);
  }

  lemma FrameLed(s: Decoder, now: nat, m: Message)
    requires s.Valid() && s.timing.counter == 2 && m.Frame? && Clean(m) && now + Total(m.gaps) < WORD64
    requires IsQuiet(GapAt(s.timing, now + m.gaps[0]))
    ensures var r := Feed(s, now, m.gaps);
            r.timing.counter == 0 && r.output == Meaning(m, s.output) && r.log == s.log + [r.output]
  {
    assert m.gaps[1..32] == m.gaps[1..];
    var r, end := BodyCompletes(s, now, m.bits[1..], m.gaps);
    assert m.bits[1..][14..22] == m.bits[15..23];
    assert m.gaps[32..] == [];
  }

  lemma OpenedByLeader(s: Decoder, now: nat, leader: nat, ns: seq<nat>, rest: seq<nat>)
    returns (led: Decoder, t: nat)
    requires Invariant(s, now) && s.timing.counter >= 1 && s.timing.captures[s.timing.counter - 1] == now
    requires ns == [leader] + rest && |rest| > 0 && now + Total(ns) < WORD64
    requires IsLeader(leader / 1000) && (IsZero(rest[0] / 1000) || IsOne(rest[0] / 1000))
    ensures led.Valid() && led == s.(timing := led.timing) && led.timing.counter == 2
    ensures t + Total(rest) < WORD64 && IsQuiet(GapAt(led.timing, t + rest[0]))
    ensures Feed(s, now, ns) == Feed(led, t, rest)
  {
    led, t := FeedUnfolds(s, now, leader, ns, rest);
    assert Total(rest) >= rest[0];
    LeaderOpens(s, now, leader, rest[0]);
  }

  /** Once a first edge is stored in any slot, the rest of a clean frame is decoded. */
  lemma FrameOpened(s: Decoder, now: nat, m: Message, rest: seq<nat>)
    requires Invariant(s, now) && s.timing.counter >= 1 && s.timing.captures[s.timing.counter - 1] == now
    requires m.Frame? && Clean(m) && rest == [m.leader] + m.gaps && now + Total(rest) < WORD64
    ensures var r := Feed(s, now, rest);
            r.timing.counter == 0 && r.output == Meaning(m, s.output) && r.log == s.log + [r.output]
  {
    assert if m.bits[0] == 0 then IsZero(m.gaps[0] / 1000) else IsOne(m.gaps[0] / 1000);
    var led, t := OpenedByLeader(s, now, m.leader, rest, m.gaps);
    FrameLed(led, t, m);
  }

  lemma RepeatOpened(s: Decoder, now: nat, mark: nat, rest: seq<nat>)
    requires s.Valid() && s.timing.counter >= 1 && s.timing.captures[s.timing.counter - 1] == now
    requires IsRepeat(mark / 1000) && rest == [mark] && now + Total(rest) < WORD64
    ensures var r := Feed(s, now, rest);
            r.timing.counter == 0 && r.output == s.output && r.log == s.log + [s.output]
  {
    assert rest[1..] == [];
    assert (now + mark - now) % WORD64 == mark;
    assert Feed(s, now, rest) == Feed(Step(s, now + mark), now + mark, rest[1..]);
  }

  /** A first edge the decoder can place, and the edges after it. */
  lemma FirstEdgePlaced(s: Decoder, now: nat, idle: nat, ns: seq<nat>, rest: seq<nat>) returns (first: Decoder, t: nat)
    requires Invariant(s, now) && ns == [idle] + rest && now + Total(ns) < WORD64
    requires Synchronises(s.timing, now + idle)
    ensures Invariant(first, t) && first == s.(timing := first.timing)
    ensures first.timing.counter >= 1 && first.timing.captures[first.timing.counter - 1] == t
    ensures t + Total(rest) < WORD64 && Feed(s, now, ns) == Feed(first, t, rest)
  {
    first, t := FeedUnfolds(s, now, idle, ns, rest);
    FirstEdge(s, now, t);
  }

  lemma FrameInStep(s: Decoder, now: nat, m: Message, ns: seq<nat>)
    requires Invariant(s, now) && m.Frame? && Clean(m) && ns == GapsOf(m) && now + Total(ns) < WORD64
    requires Synchronises(s.timing, now + m.idle)
    ensures var r := Feed(s, now, ns);
            r.timing.counter == 0 && r.output == Meaning(m, s.output) && r.log == s.log + [r.output]
  {
    var rest := [m.leader] + m.gaps;
    assert ns == [m.idle] + rest;
    var first, t := FirstEdgePlaced(s, now, m.idle, ns, rest);
    FrameOpened(first, t, m, rest);
  }

  lemma RepeatInStep(s: Decoder, now: nat, m: Message, ns: seq<nat>)
    requires Invariant(s, now) && m.Repeat? && Clean(m) && ns == GapsOf(m) && now + Total(ns) < WORD64
    requires Synchronises(s.timing, now + m.idle)
    ensures var r := Feed(s, now, ns);
            r.timing.counter == 0 && r.output == s.output && r.log == s.log + [r.output]
  {
    var first, t := FirstEdgePlaced(s, now, m.idle, ns, [m.mark]);
    RepeatOpened(first, t, m.mark, [m.mark]);
  }

  /** A message whose first edge the decoder can place is decoded, in any state. */
  lemma MessageInStep(s: Decoder, now: nat, m: Message)
    requires Invariant(s, now) && Clean(m) && now + Total(GapsOf(m)) < WORD64
    requires Synchronises(s.timing, now + m.idle)
    ensures var r := Feed(s, now, GapsOf(m));
            r.timing.counter == 0 && r.output == Meaning(m, s.output) && r.log == s.log + [r.output]
  {
    if m.Frame? {
      FrameInStep(s, now, m, GapsOf(m));
    } else {
      RepeatInStep(s, now, m, GapsOf(m));
    }
  }

  /** From position 0 after its first edge, a frame is taken for bits only: nothing is printed, the
      decoder ends one edge short of a frame, and holds the frame's bits one slot early. */
  lemma FrameUnled(s: Decoder, now: nat, m: Message, ns: seq<nat>)
    requires s.Valid() && s.timing.counter == 0
    requires m.Frame? && Clean(m) && ns == [m.leader] + m.gaps && now + Total(ns) < WORD64
    ensures var r := Feed(s, now, ns);
            && r.timing.counter == 33 && r.output == s.output && r.log == s.log
            && Pending(r) == KeyDigit(Value(m.bits[16..24]), s.output)
  {
    CleanGapsAreQuiet(m.bits, m.gaps);
    var first, t := FeedUnfolds(s, now, m.leader, ns, m.gaps);
    var r, end := QuietRun(first, t, m.gaps, 32);
    assert m.gaps[32..] == [];
    forall i | 0 <= i < 8
      ensures if m.bits[16..24][i] == 0 then IsZero(r.timing.gaps[16 + i]) else IsOne(r.timing.gaps[16 + i])
    {
      assert r.timing.gaps[16 + i] == m.gaps[16 + i] / 1000;
      assert if m.bits[16 + i] == 0 then IsZero(m.gaps[16 + i] / 1000) else IsOne(m.gaps[16 + i] / 1000);
    }
    DecodedByte(r, r.timing.gaps, m.bits[16..24]);
  }

  /** After a pause in the leader window a frame's own leader is taken for its first bit: it is
      decoded one bit late and one edge early. */
  lemma FrameShifted(s: Decoder, now: nat, m: Message, ns: seq<nat>)
    requires Invariant(s, now) && s.timing.counter == 2
    requires s.timing.captures[1] + 13000000 < now
    requires m.Frame? && Clean(m) && ns == [m.leader] + m.gaps && now + Total(ns) < WORD64
    ensures var r, digit := Feed(s, now, ns), KeyDigit(Value(m.bits[14..22]), s.output);
            r.timing.counter == 1 && r.output == digit && r.log == s.log + [digit]
  {
    assert ns[1..32] == m.gaps[..31];
    forall i | 0 <= i < 31
      ensures if m.bits[..31][i] == 0 then IsZero(m.gaps[..31][i] / 1000) else IsOne(m.gaps[..31][i] / 1000)
    {
      assert if m.bits[i] == 0 then IsZero(m.gaps[i] / 1000) else IsOne(m.gaps[i] / 1000);
    }
    var r, end := BodyCompletes(s, now, m.bits[..31], ns);
    assert m.bits[..31][14..22] == m.bits[14..22];
    assert ns[32..] == [m.gaps[31]] + [];
    var q, done := FeedUnfolds(r, end, m.gaps[31], ns[32..], []);
  }

  /** What the first edge of a message does when the decoder cannot place it. */
  lemma FirstEdgeLost(s: Decoder, now: nat, t: U64)
    requires Invariant(s, now) && now <= t && !Synchronises(s.timing, t)
    ensures var r, us := Step(s, t), GapAt(s.timing, t);
            && Invariant(r, t)
            && (IsLeader(us) ==>
                  r == s.(timing := r.timing) && r.timing.counter == 2 && r.timing.captures[1] + 13000000 < t)
            && (!IsLeader(us) ==>
                  && r.timing.counter == 0
                  && r.output == (if IsRepeat(us) then s.output else Pending(s))
                  && r.log == s.log + [r.output])
  {
    StepKeepsInvariant(s, now, t);
    CaptureKeepsOrder(s.timing, now, t);
    LastGapIgnored(s.timing.gaps, s.bits, s.output, GapAt(s.timing, t));
  }

  lemma AfterLeaderPause(s: Decoder, now: nat, idle: nat, ns: seq<nat>, rest: seq<nat>)
    returns (first: Decoder, t: nat)
    requires Invariant(s, now) && ns == [idle] + rest && now + Total(ns) < WORD64
    requires !Synchronises(s.timing, now + idle) && IsLeader(GapAt(s.timing, now + idle))
    ensures Invariant(first, t) && first == s.(timing := first.timing)
    ensures first.timing.counter == 2 && first.timing.captures[1] + 13000000 < t
    ensures t + Total(rest) < WORD64 && Feed(s, now, ns) == Feed(first, t, rest)
  {
    first, t := FeedUnfolds(s, now, idle, ns, rest);
    FirstEdgeLost(s, now, t);
  }

  lemma AfterLostEdge(s: Decoder, now: nat, idle: nat, ns: seq<nat>, rest: seq<nat>)
    returns (first: Decoder, t: nat)
    requires Invariant(s, now) && ns == [idle] + rest && now + Total(ns) < WORD64
    requires !Synchronises(s.timing, now + idle) && !IsLeader(GapAt(s.timing, now + idle))
    ensures Invariant(first, t) && first.timing.counter == 0
    ensures first.output == if IsRepeat(GapAt(s.timing, now + idle)) then s.output else Pending(s)
    ensures first.log == s.log + [first.output]
    ensures t + Total(rest) < WORD64 && Feed(s, now, ns) == Feed(first, t, rest)
  {
    first, t := FeedUnfolds(s, now, idle, ns, rest);
    FirstEdgeLost(s, now, t);
  }

  lemma FrameAfterLeaderPause(s: Decoder, now: nat, m: Message, ns: seq<nat>)
    requires Invariant(s, now) && m.Frame? && Clean(m) && ns == GapsOf(m) && now + Total(ns) < WORD64
    requires !Synchronises(s.timing, now + m.idle) && IsLeader(GapAt(s.timing, now + m.idle))
    ensures var r, digit := Feed(s, now, ns), KeyDigit(Value(m.bits[14..22]), s.output);
            r.timing.counter == 1 && r.output == digit && r.log == s.log + [digit]
  {
    var rest := [m.leader] + m.gaps;
    assert ns == [m.idle] + rest;
    var first, t := AfterLeaderPause(s, now, m.idle, ns, rest);
    FrameShifted(first, t, m, rest);
  }

  lemma FrameUnplaced(s: Decoder, now: nat, m: Message, ns: seq<nat>) returns (digit: int)
    requires Invariant(s, now) && m.Frame? && Clean(m) && ns == GapsOf(m) && now + Total(ns) < WORD64
    requires !Synchronises(s.timing, now + m.idle) && !IsLeader(GapAt(s.timing, now + m.idle))
    ensures digit == if IsRepeat(GapAt(s.timing, now + m.idle)) then s.output else Pending(s)
    ensures var r := Feed(s, now, ns);
            && r.timing.counter == 33 && r.output == digit && r.log == s.log + [digit]
            && Pending(r) == KeyDigit(Value(m.bits[16..24]), digit)
  {
    var rest := [m.leader] + m.gaps;
    assert ns == [m.idle] + rest;
    var first, t := AfterLostEdge(s, now, m.idle, ns, rest);
    FrameUnled(first, t, m, rest);
    digit := first.output;
  }

  /** A frame the decoder cannot place: after a pause in the leader window the digit of frame bits
      14..21 is printed; otherwise the digit printed is an old one, and the decoder ends one edge
      short of a frame. */
  lemma FrameOutOfStep(s: Decoder, now: nat, m: Message)
    requires Invariant(s, now) && m.Frame? && Clean(m) && now + Total(GapsOf(m)) < WORD64
    requires !Synchronises(s.timing, now + m.idle)
    ensures var r, us := Feed(s, now, GapsOf(m)), GapAt(s.timing, now + m.idle);
            if IsLeader(us) then
              && r.timing.counter == 1
              && r.output == KeyDigit(Value(m.bits[14..22]), s.output)
              && r.log == s.log + [r.output]
            else
              && r.timing.counter == 33
              && r.output == (if IsRepeat(us) then s.output else Pending(s))
              && r.log == s.log + [r.output]
              && Pending(r) == KeyDigit(Value(m.bits[16..24]), r.output)
  {
    var us := GapAt(s.timing, now + m.idle);
    if IsLeader(us) {
      FrameAfterLeaderPause(s, now, m, GapsOf(m));
    } else {
      var digit := FrameUnplaced(s, now, m, GapsOf(m));
    }
  }

  /** A repeat the decoder cannot place leaves it waiting for a leader, or inside a frame. */
  lemma RepeatOutOfStep(s: Decoder, now: nat, m: Message)
    requires Invariant(s, now) && m.Repeat? && Clean(m) && now + Total(GapsOf(m)) < WORD64
    requires !Synchronises(s.timing, now + m.idle)
    ensures var r, us := Feed(s, now, GapsOf(m)), GapAt(s.timing, now + m.idle);
            if IsLeader(us) then
              r == s.(timing := r.timing) && r.timing.counter == 3
            else
              && r.timing.counter == 1
              && r.output == (if IsRepeat(us) then s.output else Pending(s))
              && r.log == s.log + [r.output]
  {
    var ns, rest := GapsOf(m), [m.mark];
    var first, t;
    if IsLeader(GapAt(s.timing, now + m.idle)) {
      first, t := AfterLeaderPause(s, now, m.idle, ns, rest);
    } else {
      first, t := AfterLostEdge(s, now, m.idle, ns, rest);
    }
    CaptureKeepsOrder(first.timing, t, t + m.mark);
    assert rest[1..] == [] && Feed(first, t, rest) == Feed(Step(first, t + m.mark), t + m.mark, rest[1..]);
  }

  /** Exactly when a clean message leaves the decoder synchronised: the condition on its first
      edge is necessary as well as sufficient, in every reachable state and after any pause. */
  lemma MessageSynchronisesIff(s: Decoder, now: nat, m: Message)
    requires Invariant(s, now) && Clean(m) && now + Total(GapsOf(m)) < WORD64
    ensures Feed(s, now, GapsOf(m)).timing.counter == 0 <==> Synchronises(s.timing, now + m.idle)
  {
    if Synchronises(s.timing, now + m.idle) {
      MessageInStep(s, now, m);
    } else if m.Frame? {
      FrameOutOfStep(s, now, m);
    } else {
      RepeatOutOfStep(s, now, m);
    }
  }

  /* ---------------- streams ---------------- */

  lemma {:induction false} FeedKeepsInvariant(s: Decoder, now: nat, ns: seq<nat>)
    requires Invariant(s, now) && now + Total(ns) < WORD64
    ensures Invariant(Feed(s, now, ns), now + Total(ns))
    decreases ns
  {
    if ns == [] {
    } else {
      var rest := ns[1..];
      var first, t := FeedUnfolds(s, now, ns[0], ns, rest);
      StepKeepsInvariant(s, now, t);
      FeedKeepsInvariant(first, t, rest);
    }
  }

  /** A stream is its first message and then the rest. */
  lemma StreamUnfolds(s: Decoder, now: nat, ms: seq<Message>) returns (r: Decoder, end: nat)
    requires Invariant(s, now) && ms != [] && now + Duration(ms) < WORD64
    ensures r == Feed(s, now, GapsOf(ms[0])) && end == now + Total(GapsOf(ms[0]))
    ensures Invariant(r, end) && end + Duration(ms[1..]) < WORD64
    ensures Run(s, Transmit(now, ms)) == Run(r, Transmit(end, ms[1..]))
  {
    var ns := GapsOf(ms[0]);
    r, end := Feed(s, now, ns), now + Total(ns);
    FeedKeepsInvariant(s, now, ns);
    FeedIsRun(s, now, ns);
    var head, tail := Times(now, ns), Transmit(end, ms[1..]);
    assert Transmit(now, ms) == head + tail;
    RunConcat(s, head, tail);
  }

  lemma HeadInStep(s: Decoder, now: nat, ms: seq<Message>) returns (r: Decoder, end: nat)
    requires Invariant(s, now) && ms != [] && AllClean(ms) && now + Duration(ms) < WORD64
    requires Synchronises(s.timing, now + ms[0].idle)
    ensures Invariant(r, end) && end + Duration(ms[1..]) < WORD64
    ensures Run(s, Transmit(now, ms)) == Run(r, Transmit(end, ms[1..]))
    ensures r.timing.counter == 0 && r.log == s.log + [r.output]
    ensures Meanings(ms, s.output) == [r.output] + Meanings(ms[1..], r.output)
  {
    r, end := StreamUnfolds(s, now, ms);
    MessageInStep(s, now, ms[0]);
  }

  /** Round trip: once the first message can be placed, every message of a clean stream prints
      exactly its digit, whatever pauses follow, and the decoder ends synchronised. */
  lemma {:induction false} StreamRoundTrip(s: Decoder, now: nat, ms: seq<Message>)
    requires Invariant(s, now) && AllClean(ms) && now + Duration(ms) < WORD64
    requires ms != [] ==> Synchronises(s.timing, now + ms[0].idle)
    ensures var r := Run(s, Transmit(now, ms));
            && r.log == s.log + Meanings(ms, s.output)
            && (s.timing.counter == 0 || ms != [] ==> r.timing.counter == 0)
    decreases ms
  {
    if ms == [] {
      assert Run(s, Transmit(now, ms)) == s;
    } else {
      var r, end := HeadInStep(s, now, ms);
      StreamRoundTrip(r, end, ms[1..]);
      Reassociate(s.log, [r.output], Meanings(ms[1..], r.output));
    }
  }

  /** A frame with the key byte of a digit in its bits 15..22, or a repeat of the digit before. */
  ghost predicate Names(m: Message, digit: int, previous: int) {
    match m
    case Frame(_, _, bits, _) => |bits| == 32 && 0 <= digit < 10 && bits[15..23] == BitString(KEY_TABLE[digit], 8)
    case Repeat(_, _) => digit == previous
  }

  /** Keys pressed and held that stand for a list of digits. */
  ghost predicate StandsFor(ms: seq<Message>, digits: seq<int>, previous: int) {
    if ms == [] then digits == []
    else digits != [] && Names(ms[0], digits[0], previous) && StandsFor(ms[1..], digits[1..], digits[0])
  }

  lemma {:induction false} MeaningsStandFor(ms: seq<Message>, digits: seq<int>, previous: int)
    requires AllClean(ms) && StandsFor(ms, digits, previous)
    ensures Meanings(ms, previous) == digits
    decreases ms
  {
    if ms == [] {
    } else {
      if ms[0].Frame? {
        DigitOfKey(digits[0], previous);
      }
      MeaningsStandFor(ms[1..], digits[1..], digits[0]);
    }
  }

  /** The round trip on digits: keys pressed and held are the digits printed. */
  lemma DigitsRoundTrip(s: Decoder, now: nat, ms: seq<Message>, digits: seq<int>)
    requires Invariant(s, now) && s.timing.counter == 0
    requires AllClean(ms) && now + Duration(ms) < WORD64 && StandsFor(ms, digits, s.output)
    ensures Run(s, Transmit(now, ms)).log == s.log + digits
  {
    StreamRoundTrip(s, now, ms);
    MeaningsStandFor(ms, digits, s.output);
  }

  /** Messages by the length of their gaps in nanoseconds. */
  ghost predicate InNanoseconds(m: Message) {
    match m
    case Frame(_, leader, bits, gaps) =>
      && 13001000 <= leader <= 13999999 && |bits| == |gaps| == 32
      && forall i :: 0 <= i < 32 ==>
           || (bits[i] == 0 && 1001000 <= gaps[i] <= 1499999)
           || (bits[i] == 1 && 2001000 <= gaps[i] <= 2499999)
    case Repeat(_, mark) => 11001000 <= mark <= 11999999
  }

  lemma BitWindow(bit: int, gap: nat)
    ensures (bit == 0 && 1001000 <= gap <= 1499999) || (bit == 1 && 2001000 <= gap <= 2499999) <==>
            (bit == 0 || bit == 1) && if bit == 0 then IsZero(gap / 1000) else IsOne(gap / 1000)
  {
  }

  /** The windows of a clean message, to the nanosecond. */
  lemma CleanIff(m: Message)
    ensures Clean(m) <==> InNanoseconds(m)
  {
    match m
    case Frame(_, leader, bits, gaps) =>
      if |bits| == |gaps| {
        forall i | 0 <= i < |bits|
          ensures (bits[i] == 0 && 1001000 <= gaps[i] <= 1499999) ||
                  (bits[i] == 1 && 2001000 <= gaps[i] <= 2499999) <==>
                  (bits[i] == 0 || bits[i] == 1) &&
                  if bits[i] == 0 then IsZero(gaps[i] / 1000) else IsOne(gaps[i] / 1000)
        {
          BitWindow(bits[i], gaps[i]);
        }
      }
    case Repeat(_, mark) =>
  }

  /** The round trip from load, with all windows in nanoseconds: keys pressed and held are the digits
      printed, each message ending at position 0. */
  lemma RoundTripInNanoseconds(ms: seq<Message>, digits: seq<int>)
    requires (forall i :: 0 <= i < |ms| ==> InNanoseconds(ms[i])) && Duration(ms) < WORD64
    requires StandsFor(ms, digits, 0)
    ensures Run(INITIAL, Transmit(0, ms)).log == digits && Run(INITIAL, Transmit(0, ms)).timing.counter == 0
  {
    forall i | 0 <= i < |ms| ensures Clean(ms[i]) {
      CleanIff(ms[i]);
    }
    StreamRoundTrip(INITIAL, 0, ms);
    MeaningsStandFor(ms, digits, 0);
    assert INITIAL.log + digits == digits;
  }

  /* ---------------- any starting state ---------------- */

  /** Pauses of at least 14 ms before every message. */
  ghost predicate Spaced(ms: seq<Message>) {
    forall i :: 0 <= i < |ms| ==> ms[i].idle >= 14000000
  }

  ghost predicate HasRepeat(ms: seq<Message>) {
    exists i :: 0 <= i < |ms| && ms[i].Repeat?
  }

  /** What is printed from one edge short of a frame: each frame prints the digit held back before
      it and then holds back the digit of its own bits 16..23; the first repeat prints the digit
      held back, and from then on messages print what they mean. */
  ghost function LockedMeanings(ms: seq<Message>, pending: int): seq<int>
    requires AllClean(ms)
    decreases ms
  {
    if ms == [] then []
    else match ms[0]
      case Frame(_, _, bits, _) => [pending] + LockedMeanings(ms[1..], KeyDigit(Value(bits[16..24]), pending))
      case Repeat(_, _) => [pending] + Meanings(ms[1..], pending)
  }

  /** A pause of at least 14 ms is a quiet gap, whatever noise came before. */
  lemma PauseIsQuiet(s: Decoder, now: nat, idle: nat)
    requires Invariant(s, now) && s.timing.counter > 0 && idle >= 14000000 && now + idle < WORD64
    ensures IsQuiet(GapAt(s.timing, now + idle))
    ensures Synchronises(s.timing, now + idle) <==> s.timing.counter != 33
  {
    CaptureKeepsOrder(s.timing, now, now + idle);
  }

  /** Resynchronisation: in every reachable state but one, whatever noise came before, a spaced
      stream decodes as it would from the start. */
  lemma SpacedStreamInStep(s: Decoder, now: nat, ms: seq<Message>)
    requires Invariant(s, now) && s.timing.counter != 33
    requires AllClean(ms) && Spaced(ms) && now + Duration(ms) < WORD64
    ensures Run(s, Transmit(now, ms)).log == s.log + Meanings(ms, s.output)
    ensures ms != [] ==> Run(s, Transmit(now, ms)).timing.counter == 0
  {
    if ms != [] && s.timing.counter > 0 {
      assert now + ms[0].idle < WORD64 by {
        assert Total(GapsOf(ms[0])) >= ms[0].idle;
      }
      PauseIsQuiet(s, now, ms[0].idle);
    }
    StreamRoundTrip(s, now, ms);
  }

  lemma MessageLocked(s: Decoder, now: nat, m: Message)
    requires Invariant(s, now) && s.timing.counter == 33
    requires Clean(m) && m.idle >= 14000000 && now + Total(GapsOf(m)) < WORD64
    ensures var r := Feed(s, now, GapsOf(m));
            && r.output == Pending(s) && r.log == s.log + [Pending(s)]
            && (m.Frame? ==> r.timing.counter == 33 && Pending(r) == KeyDigit(Value(m.bits[16..24]), Pending(s)))
            && (m.Repeat? ==> r.timing.counter == 1)
  {
    assert Total(GapsOf(m)) >= m.idle;
    PauseIsQuiet(s, now, m.idle);
    if m.Frame? {
      FrameOutOfStep(s, now, m);
    } else {
      RepeatOutOfStep(s, now, m);
    }
  }

  lemma HeadLocked(s: Decoder, now: nat, ms: seq<Message>) returns (r: Decoder, end: nat)
    requires Invariant(s, now) && s.timing.counter == 33
    requires ms != [] && AllClean(ms) && Spaced(ms) && now + Duration(ms) < WORD64
    ensures Invariant(r, end) && end + Duration(ms[1..]) < WORD64
    ensures Run(s, Transmit(now, ms)) == Run(r, Transmit(end, ms[1..]))
    ensures r.output == Pending(s) && r.log == s.log + [Pending(s)]
    ensures ms[0].Frame? ==> r.timing.counter == 33 && Pending(r) == KeyDigit(Value(ms[0].bits[16..24]), Pending(s))
    ensures ms[0].Repeat? ==> r.timing.counter == 1
  {
    r, end := StreamUnfolds(s, now, ms);
    MessageLocked(s, now, ms[0]);
  }

  lemma RepeatInTail(ms: seq<Message>)
    requires ms != [] && ms[0].Frame?
    ensures HasRepeat(ms) <==> HasRepeat(ms[1..])
  {
    if HasRepeat(ms) {
      var i :| 0 <= i < |ms| && ms[i].Repeat?;
      assert ms[1..][i - 1].Repeat?;
    }
    if HasRepeat(ms[1..]) {
      var i :| 0 <= i < |ms[1..]| && ms[1..][i].Repeat?;
      assert ms[i + 1].Repeat?;
    }
  }

  /** Lock-in: from one edge short of a frame, a spaced stream prints digits of misaligned bits, one
      message late, until a repeat comes; it is still there at the end exactly if none came. */
  lemma {:induction false} SpacedStreamLocked(s: Decoder, now: nat, ms: seq<Message>)
    requires Invariant(s, now) && s.timing.counter == 33
    requires AllClean(ms) && Spaced(ms) && now + Duration(ms) < WORD64
    ensures var r := Run(s, Transmit(now, ms));
            && (r.timing.counter == 33 <==> !HasRepeat(ms))
            && r.log == s.log + LockedMeanings(ms, Pending(s))
    decreases ms
  {
    if ms == [] {
      assert Run(s, Transmit(now, ms)) == s;
    } else {
      var r, end := HeadLocked(s, now, ms);
      if ms[0].Frame? {
        SpacedStreamLocked(r, end, ms[1..]);
        RepeatInTail(ms);
        Reassociate(s.log, [Pending(s)], LockedMeanings(ms[1..], Pending(r)));
      } else {
        SpacedStreamInStep(r, end, ms[1..]);
        assert HasRepeat(ms);
        Reassociate(s.log, [Pending(s)], Meanings(ms[1..], Pending(s)));
        if ms[1..] == [] {
          assert Run(r, Transmit(end, ms[1..])) == r;
        }
      }
    }
  }

  lemma {:induction false} TotalOfCopies(n: nat, gap: nat)
    ensures Total(Copies(gap, n)) == n * gap
  {
    if n == 0 {
    } else {
      CopiesUnfold(gap, n);
      TotalOfCopies(n - 1, gap);
    }
  }

  /** The state that frames alone cannot leave is reachable: thirty-three edges 20 ms apart. */
  lemma LockIsReachable()
    ensures exists ns: seq<nat> :: Total(ns) < WORD64 && Feed(INITIAL, 0, ns).timing.counter == 33
  {
    var ns: seq<nat> := Copies(20000000, 33);
    TotalOfCopies(33, 20000000);
    var r, end := QuietRun(Step(INITIAL, ns[0]), ns[0], ns[1..], 32);
    assert ns[1..][32..] == [];
    assert Feed(INITIAL, 0, ns).timing.counter == 33;
  }
}
