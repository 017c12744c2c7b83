/** What happens when a deadline is missed: runs from load, for any keys pressed, that lose a digit,
    repeat an old digit in place of the new one, or print the next key in place of the one due. */
module DeferredRaces {
  import opened KeyCode
  import opened MachineWords
  import opened Sequences
  import opened EdgeTimer
  import opened InfraredDecoder
  import opened InfraredStream
  import opened DeferredDecoder
  import opened DeferredHandshake
  import opened DeferredProgress

  /* ---------------- keys and schedules ---------------- */

  /** The longest gap of the messages below. */
  const PAUSE := 40000000

  /** A key pressed, as a clean frame. */
  function Press(digit: int): Message
    requires 0 <= digit < 10
  {
    var bits := Copies(0, 15) + BitString(KEY_TABLE[digit], 8) + Copies(0, 9);
    Frame(PAUSE, 13500000, bits, seq(BITS, i requires 0 <= i < BITS => if bits[i] == 0 then 1250000 else 2250000))
  }

  /** The key held down. */
  const HELD: Message := Repeat(PAUSE, 11500000)

  /** The first edges of a key press, up to the one that closes the last gap of the key byte. */
  function Beginning(digit: int): seq<nat>
    requires 0 <= digit < 10
  {
    [Press(digit).idle, Press(digit).leader] + Press(digit).gaps[..23]
  }

  function Edges(edges: seq<U64>): seq<Action> {
    seq(|edges|, i requires 0 <= i < |edges| => Edge(edges[i]))
  }

  lemma PressIsClean(digit: int, previous: int)
    requires 0 <= digit < 10
    ensures Clean(Press(digit)) && Meaning(Press(digit), previous) == digit
  {
    var m, byte := Press(digit), BitString(KEY_TABLE[digit], 8);
    assert Pow2(8) == 256;
    ValueOfBitString(KEY_TABLE[digit], 8);
    forall i | 0 <= i < BITS ensures m.bits[i] == 0 || m.bits[i] == 1 {
      if 15 <= i < 23 {
        assert m.bits[i] == byte[i - 15];
      }
    }
    assert m.bits[15..23] == byte;
    DigitOfKey(digit, previous);
  }

  lemma {:induction false} TotalBound(ns: seq<nat>, most: nat)
    requires forall i :: 0 <= i < |ns| ==> ns[i] <= most
    ensures Total(ns) <= |ns| * most
  {
    if ns == [] {
    } else {
      TotalBound(ns[1..], most);
    }
  }

  lemma Short(digit: int)
    requires 0 <= digit < 10
    ensures Total(GapsOf(Press(digit))) <= 34 * PAUSE && Total(Beginning(digit)) <= 25 * PAUSE
    ensures Total(GapsOf(HELD)) <= 2 * PAUSE
  {
    TotalBound(GapsOf(Press(digit)), PAUSE);
    TotalBound(Beginning(digit), PAUSE);
    TotalBound(GapsOf(HELD), PAUSE);
  }

  lemma {:induction false} EdgesThenWork(edges: seq<U64>, n: nat)
    ensures EdgesOf(Edges(edges) + Copies(Work, n)) == edges
    decreases |edges| + n
  {
    var schedule := Edges(edges) + Copies(Work, n);
    if edges == [] && n == 0 {
      assert schedule == [];
    } else if edges == [] {
      assert schedule[1..] == Edges(edges) + Copies(Work, n - 1);
      EdgesThenWork(edges, n - 1);
    } else {
      assert schedule[1..] == Edges(edges[1..]) + Copies(Work, n);
      EdgesThenWork(edges[1..], n);
    }
  }

  /* ---------------- interrupts while the thread gets no turn ---------------- */

  function CountEvents(tm: Timing, edges: seq<U64>, e: Event): nat
    requires tm.Valid()
    decreases edges
  {
    if edges == [] then 0
    else (if EventAt(tm, edges[0]) == e then 1 else 0) + CountEvents(Capture(tm, edges[0]), edges[1..], e)
  }

  /** With the thread at rest, frames only raise the flag and repeats show the old digit. */
  lemma {:induction false} Unattended(d: Deferred, s: Decoder, edges: seq<U64>, repeats: nat, frames: nat)
    requires d.Valid() && !d.registered && s.Valid() && d.timing == s.timing
    requires repeats == CountEvents(s.timing, edges, RepeatCode)
    requires frames == CountEvents(s.timing, edges, FrameComplete)
    ensures var r, q := Perform(d, Edges(edges)), Run(s, edges);
            && r == d.(timing := q.timing, flag := if frames > 0 then 1 else d.flag,
                       log := d.log + Copies(d.output, repeats))
            && |q.log| == |s.log| + repeats + frames
            && (frames == 0 ==> q.output == s.output)
    decreases edges
  {
    if edges == [] {
      assert d.log + Copies(d.output, 0) == d.log;
    } else {
      var t, rest := edges[0], edges[1..];
      var later := CountEvents(Capture(s.timing, t), rest, RepeatCode);
      Unattended(OnEdge(d, t), Step(s, t), rest, later, CountEvents(Capture(s.timing, t), rest, FrameComplete));
      assert Edges(edges)[1..] == Edges(rest);
      if EventAt(s.timing, t).RepeatCode? {
        CopiesUnfold(d.output, repeats);
        Reassociate(d.log, [d.output], Copies(d.output, later));
      }
    }
  }

  /** A key press completes one frame and repeats nothing: it would change any other output. */
  lemma OneFrame(s: Decoder, now: nat, digit: int, edges: seq<U64>)
    requires Invariant(s, now) && s.timing.counter == 0
    requires 0 <= digit < 10 && now + Total(GapsOf(Press(digit))) < WORD64
    requires edges == Times(now, GapsOf(Press(digit)))
    ensures CountEvents(s.timing, edges, RepeatCode) == 0 && CountEvents(s.timing, edges, FrameComplete) == 1
  {
    var other := s.(output := if digit == 0 then 1 else 0);
    PressIsClean(digit, other.output);
    MessageInStep(other, now, Press(digit));
    FeedIsRun(other, now, GapsOf(Press(digit)));
    Unattended(LOADED.(timing := s.timing), other, edges,
               CountEvents(s.timing, edges, RepeatCode), CountEvents(s.timing, edges, FrameComplete));
  }

  lemma PressUnattended(d: Deferred, s: Decoder, now: nat, digit: int, edges: seq<U64>)
    requires d.Valid() && !d.registered && Invariant(s, now) && d.timing == s.timing && s.timing.counter == 0
    requires 0 <= digit < 10 && now + Total(GapsOf(Press(digit))) < WORD64
    requires edges == Times(now, GapsOf(Press(digit)))
    ensures var r, q := Perform(d, Edges(edges)), Run(s, edges);
            && r == d.(timing := q.timing, flag := 1)
            && Invariant(q, now + Total(GapsOf(Press(digit)))) && q.timing.counter == 0
            && q.output == digit && q.log == s.log + [digit]
  {
    PressIsClean(digit, s.output);
    MessageInStep(s, now, Press(digit));
    FeedIsRun(s, now, GapsOf(Press(digit)));
    FeedKeepsInvariant(s, now, GapsOf(Press(digit)));
    OneFrame(s, now, digit, edges);
    Unattended(d, s, edges, 0, 1);
    assert d.log + Copies(d.output, 0) == d.log;
  }

  /** All edges first, then one turn of the thread. */
  lemma EdgesThenTurn(a: seq<U64>, b: seq<U64>, n: nat) returns (schedule: seq<Action>)
    requires var r := Perform(Perform(LOADED, Edges(a)), Edges(b)); r.phase == Waiting && r.flag == 1
    requires n >= TURN
    ensures EdgesOf(schedule) == a + b && Run(INITIAL, EdgesOf(schedule)) == Run(Run(INITIAL, a), b)
    ensures Perform(LOADED, schedule) == Turn(Perform(Perform(LOADED, Edges(a)), Edges(b)))
  {
    schedule := Edges(a + b) + Copies(Work, n);
    EdgesThenWork(a + b, n);
    RunConcat(INITIAL, a, b);
    assert Edges(a + b) == Edges(a) + Edges(b);
    PerformConcat(LOADED, Edges(a), Edges(b));
    PerformConcat(LOADED, Edges(a + b), Copies(Work, n));
    TurnCompletes(Perform(LOADED, Edges(a + b)), n);
  }

  /* ---------------- the races ---------------- */

  lemma TwoPresses(first: int, second: int, end: nat, a: seq<U64>, b: seq<U64>)
    requires 0 <= first < 10 && 0 <= second < 10 && end == Total(GapsOf(Press(first)))
    requires end + Total(GapsOf(Press(second))) < WORD64
    requires a == Times(0, GapsOf(Press(first))) && b == Times(end, GapsOf(Press(second)))
    ensures var r := Perform(Perform(LOADED, Edges(a)), Edges(b));
            r.phase == Waiting && r.flag == 1 && r.log == []
    ensures Run(Run(INITIAL, a), b).log == [first, second]
  {
    PressUnattended(LOADED, INITIAL, 0, first, a);
    PressUnattended(Perform(LOADED, Edges(a)), Run(INITIAL, a), end, second, b);
  }

  /** Two keys before the thread gets a turn: one digit is printed instead of two. */
  lemma OverrunLosesADigit(first: int, second: int) returns (schedule: seq<Action>)
    requires 0 <= first < 10 && 0 <= second < 10
    ensures Run(INITIAL, EdgesOf(schedule)).log == [first, second]
    ensures Perform(LOADED, schedule).flag == 0 && |Perform(LOADED, schedule).log| == 1
    ensures TallyOf(LOADED, schedule).lost > 0
  {
    Short(first);
    Short(second);
    var end := Total(GapsOf(Press(first)));
    var a, b := Times(0, GapsOf(Press(first))), Times(end, GapsOf(Press(second)));
    TwoPresses(first, second, end, a, b);
    schedule := EdgesThenTurn(a, b, TURN);
    NoDigitMissingIff(schedule);
  }

  lemma TwoEdges(d: Deferred, s: Decoder, t: U64, u: U64)
    requires d.Valid() && s.Valid()
    ensures Perform(d, Edges([t, u])) == OnEdge(OnEdge(d, t), u) && Run(s, [t, u]) == Step(Step(s, t), u)
  {
    assert Edges([t, u])[1..] == Edges([u]) && Edges([u])[1..] == [];
    assert Perform(OnEdge(d, t), Edges([u])) == OnEdge(OnEdge(d, t), u);
    assert [t, u][1..] == [u] && [u][1..] == [];
    assert Run(Step(s, t), [u]) == Step(Step(s, t), u);
  }

  lemma HeldUnattended(d: Deferred, s: Decoder, now: nat, edges: seq<U64>)
    requires d.Valid() && !d.registered && Invariant(s, now) && d.timing == s.timing && s.timing.counter == 0
    requires now + Total(GapsOf(HELD)) < WORD64 && edges == Times(now, GapsOf(HELD))
    ensures var r, q := Perform(d, Edges(edges)), Run(s, edges);
            r == d.(timing := q.timing, log := d.log + [d.output]) && q.log == s.log + [s.output]
  {
    var t := now + PAUSE;
    assert GapsOf(HELD)[1..] == [HELD.mark] && [HELD.mark][1..] == [];
    assert Total([HELD.mark]) == HELD.mark;
    var u := t + HELD.mark;
    assert edges == [t, u] by {
      assert Times(t, [HELD.mark]) == [u];
    }
    assert (u - t) % WORD64 == HELD.mark;
    TwoEdges(d, s, t, u);
  }

  /** A key held down before the thread gets its turn: the repeat shows the old digit, here the 0 of
      the globals as loaded. As many digits are printed as the inline driver prints, but others. */
  lemma EarlyRepeatShowsOldDigit(digit: int) returns (schedule: seq<Action>)
    requires 1 <= digit < 10
    ensures Run(INITIAL, EdgesOf(schedule)).log == [digit, digit]
    ensures var r := Perform(LOADED, schedule); r.flag == 0 && |r.log| == 2 && r.log[0] == 0
    ensures TallyOf(LOADED, schedule).lost == 0
  {
    Short(digit);
    var end := Total(GapsOf(Press(digit)));
    var a, b := Times(0, GapsOf(Press(digit))), Times(end, GapsOf(HELD));
    PressUnattended(LOADED, INITIAL, 0, digit, a);
    HeldUnattended(Perform(LOADED, Edges(a)), Run(INITIAL, a), end, b);
    schedule := EdgesThenTurn(a, b, TURN);
    NoDigitMissingIff(schedule);
  }

  lemma FirstTwoEdges(s: Decoder, now: nat, idle: nat, leader: nat, rest: seq<nat>)
    returns (led: Decoder, t: nat)
    requires s.Valid() && s.timing.counter == 0 && IsLeader(leader / 1000)
    requires now + Total([idle, leader] + rest) < WORD64
    ensures led.Valid() && led == s.(timing := led.timing)
    ensures led.timing.counter == 2 && led.timing.captures[1] == t
    ensures t + Total(rest) < WORD64 && Feed(s, now, [idle, leader] + rest) == Feed(led, t, rest)
  {
    assert ([idle, leader] + rest)[1..] == [leader] + rest && ([leader] + rest)[1..] == rest;
    assert Total([leader] + rest) == leader + Total(rest);
    t := now + idle + leader;
    assert (t - (now + idle)) % WORD64 == leader;
    var first := Step(s, now + idle);
    led := Step(first, t);
    assert Feed(first, now + idle, [leader] + rest) == Feed(led, t, rest);
  }

  lemma KeyByteStored(gaps: seq<U64>, digit: int)
    requires 0 <= digit < 10 && |gaps| == GAPS
    requires forall j :: 1 <= j < 24 ==> gaps[j] == Press(digit).gaps[j - 1] / 1000
    ensures var byte := BitString(KEY_TABLE[digit], 8);
            forall i :: 0 <= i < 8 ==> if byte[i] == 0 then IsZero(gaps[16 + i]) else IsOne(gaps[16 + i])
  {
    var m, byte := Press(digit), BitString(KEY_TABLE[digit], 8);
    PressIsClean(digit, 0);
    forall i | 0 <= i < 8 ensures if byte[i] == 0 then IsZero(gaps[16 + i]) else IsOne(gaps[16 + i]) {
      assert gaps[16 + i] == m.gaps[15 + i] / 1000;
      assert m.bits[15 + i] == byte[i];
    }
  }

  /** The beginning of a key press prints nothing and stores its key byte in slots 16..23. */
  lemma BeginningStored(s: Decoder, now: nat, digit: int)
    requires Invariant(s, now) && s.timing.counter == 0
    requires 0 <= digit < 10 && now + Total(Beginning(digit)) < WORD64
    ensures var q, byte := Feed(s, now, Beginning(digit)), BitString(KEY_TABLE[digit], 8);
            && q == s.(timing := q.timing)
            && forall i :: 0 <= i < 8 ==>
                 if byte[i] == 0 then IsZero(q.timing.gaps[16 + i]) else IsOne(q.timing.gaps[16 + i])
  {
    var m, ns := Press(digit), Press(digit).gaps[..23];
    PressIsClean(digit, 0);
    CleanGapsAreQuiet(m.bits, m.gaps);
    var led, t := FirstTwoEdges(s, now, m.idle, m.leader, ns);
    var q, end := QuietRun(led, t, ns, |ns|);
    assert ns[|ns|..] == [];
    KeyByteStored(q.timing.gaps, digit);
  }

  lemma BeginningUnattended(d: Deferred, s: Decoder, now: nat, digit: int, edges: seq<U64>)
    requires d.Valid() && !d.registered && Invariant(s, now) && d.timing == s.timing && s.timing.counter == 0
    requires 0 <= digit < 10 && now + Total(Beginning(digit)) < WORD64 && edges == Times(now, Beginning(digit))
    ensures var r, q := Perform(d, Edges(edges)), Run(s, edges);
            && r == d.(timing := q.timing) && q.log == s.log
            && DecodedDigit(r.timing.gaps, r.bits, r.output) == digit
  {
    BeginningStored(s, now, digit);
    FeedIsRun(s, now, Beginning(digit));
    Unattended(d, s, edges, CountEvents(s.timing, edges, RepeatCode), CountEvents(s.timing, edges, FrameComplete));
    assert d.log + Copies(d.output, 0) == d.log;
    assert Pow2(8) == 256;
    ValueOfBitString(KEY_TABLE[digit], 8);
    var r := Perform(d, Edges(edges));
    DecodedByte(Decoder(r.timing, r.bits, r.output, []), r.timing.gaps, BitString(KEY_TABLE[digit], 8));
    DigitOfKey(digit, r.output);
  }

  /** A thread that comes late, when the key byte of the next key press is stored, prints that key
      in place of the one due; no completion met a raised flag. */
  lemma LateThreadPrintsNextKey(key: int, next: int) returns (schedule: seq<Action>)
    requires 0 <= key < 10 && 0 <= next < 10
    ensures Run(INITIAL, EdgesOf(schedule)).log == [key]
    ensures Perform(LOADED, schedule).flag == 0 && Perform(LOADED, schedule).log == [next]
    ensures TallyOf(LOADED, schedule).lost == 0
  {
    Short(key);
    Short(next);
    var end := Total(GapsOf(Press(key)));
    var a, b := Times(0, GapsOf(Press(key))), Times(end, Beginning(next));
    PressUnattended(LOADED, INITIAL, 0, key, a);
    BeginningUnattended(Perform(LOADED, Edges(a)), Run(INITIAL, a), end, next, b);
    schedule := EdgesThenTurn(a, b, TURN);
    NoDigitMissingIff(schedule);
  }
}
