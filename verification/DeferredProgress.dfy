/** The thread's progress: one decoding turn left alone, and how many steps clear the flag when
    interrupts come in between. */
module DeferredProgress {
  import opened KeyCode
  import opened Sequences
  import opened EdgeTimer
  import opened InfraredDecoder
  import opened DeferredDecoder

  /** The steps of one turn: two looks at the flag, 32 gaps, the digit, the print, the signal and
      the reset of the flag. */
  const TURN := 38

  /* ---------------- one turn left alone ---------------- */

  /** One whole turn of the thread's loop: decode what is stored, print, signal, clear the flag. */
  function Turn(d: Deferred): (r: Deferred)
    requires d.Valid()
    ensures r.Valid()
  {
    d.(bits := ClassifyGaps(d.timing.gaps, d.bits), output := DecodedDigit(d.timing.gaps, d.bits, d.output),
       flag := 0, phase := Waiting).Print().Signal()
  }

  function WorkAlone(d: Deferred, n: nat): (r: Deferred)
    requires d.Valid()
    ensures r.Valid()
    decreases n
  {
    if n == 0 then d else WorkAlone(OnWork(d), n - 1)
  }

  lemma {:induction false} WorkAloneIsPerform(d: Deferred, n: nat)
    requires d.Valid()
    ensures Perform(d, Copies(Work, n)) == WorkAlone(d, n)
    decreases n
  {
    if n == 0 {
    } else {
      CopiesUnfold(Work, n);
      WorkAloneIsPerform(OnWork(d), n - 1);
    }
  }

  lemma {:induction false} WorkAloneInParts(d: Deferred, m: nat, n: nat)
    requires d.Valid()
    ensures WorkAlone(d, m + n) == WorkAlone(WorkAlone(d, m), n)
    decreases m
  {
    if m == 0 {
    } else {
      WorkAloneInParts(OnWork(d), m - 1, n);
    }
  }

  /** The bits once the thread has read the gaps from `from` on. */
  function ReadFrom(d: Deferred, from: nat): (bits: seq<int>)
    requires d.Valid()
    ensures |bits| == BITS
  {
    seq(BITS, j requires 0 <= j < BITS => if j < from then d.bits[j] else ClassifyGap(d.timing.gaps[j], d.bits[j]))
  }

  lemma {:induction false} ReadAll(d: Deferred, n: nat)
    requires d.Valid() && d.phase.Reading? && n == BITS - d.phase.i
    ensures WorkAlone(d, n) == d.(bits := ReadFrom(d, d.phase.i), phase := Choosing)
    decreases n
  {
    var d' := OnWork(d);
    if n == 1 {
      assert d'.bits == ReadFrom(d, d.phase.i);
      assert WorkAlone(d', 0) == d';
    } else {
      ReadAll(d', n - 1);
      assert ReadFrom(d', d'.phase.i) == ReadFrom(d, d.phase.i);
    }
  }

  // The lemmas that follow take the number of steps as a parameter and pin it by a precondition,
  // so that the definition of WorkAlone is unfolded at a variable and not over a whole constant.

  lemma WakeUp(d: Deferred, n: nat)
    requires d.Valid() && d.phase == Waiting && d.flag == 1 && n == 2
    ensures WorkAlone(d, n) == d.(phase := Reading(0))
  {
    var woken := OnWork(d);
    assert WorkAlone(OnWork(woken), n - 2) == OnWork(woken);
    assert WorkAlone(woken, n - 1) == OnWork(woken);
  }

  lemma ChooseAndEmit(d: Deferred, n: nat)
    requires d.Valid() && d.phase == Choosing && n == 4
    ensures WorkAlone(d, n)
         == d.(output := SwitchDigit(CharCode(Value(d.bits[16..24])), d.output), flag := 0,
               phase := Waiting).Print().Signal()
  {
    var chosen := OnWork(d);
    var printed := OnWork(chosen);
    var sent := OnWork(printed);
    assert WorkAlone(OnWork(sent), n - 4) == OnWork(sent);
    assert WorkAlone(sent, n - 3) == OnWork(sent);
    assert WorkAlone(printed, n - 2) == OnWork(sent);
    assert WorkAlone(chosen, n - 1) == OnWork(sent);
  }

  lemma ReadAndEmit(d: Deferred, gaps: nat, rest: nat)
    requires d.Valid() && d.phase == Reading(0) && d.flag == 1 && gaps == BITS && rest == 4
    ensures WorkAlone(d, gaps + rest) == Turn(d)
  {
    WorkAloneInParts(d, gaps, rest);
    ReadAll(d, gaps);
    var read := d.(bits := ReadFrom(d, 0), phase := Choosing);
    assert read.bits == ClassifyGaps(d.timing.gaps, d.bits);
    ChooseAndEmit(read, rest);
  }

  lemma TurnAlone(d: Deferred, looks: nat, gaps: nat, rest: nat)
    requires d.Valid() && d.phase == Waiting && d.flag == 1 && looks == 2 && gaps == BITS && rest == 4
    ensures WorkAlone(d, looks + (gaps + rest)) == Turn(d)
  {
    WorkAloneInParts(d, looks, gaps + rest);
    WakeUp(d, looks);
    ReadAndEmit(d.(phase := Reading(0)), gaps, rest);
  }

  /** With the flag clear the thread stays in its wait. */
  lemma {:induction false} IdleWorks(d: Deferred, n: nat)
    requires d.Valid() && d.phase == Waiting && d.flag == 0
    ensures WorkAlone(d, n) == d
    decreases n
  {
    if n == 0 {
    } else {
      IdleWorks(d, n - 1);
    }
  }

  lemma TurnThenIdle(d: Deferred, turn: nat, idle: nat)
    requires d.Valid() && d.phase == Waiting && d.flag == 1 && turn == TURN
    ensures WorkAlone(d, turn + idle) == Turn(d)
  {
    var looks, gaps, rest := 2, BITS, turn - BITS - 2;
    TurnAlone(d, looks, gaps, rest);
    WorkAloneInParts(d, turn, idle);
    IdleWorks(Turn(d), idle);
  }

  /** Left alone with the flag raised, the thread is through with one turn in TURN steps, and further
      steps change nothing. */
  lemma TurnCompletes(d: Deferred, n: nat)
    requires d.Valid() && d.phase == Waiting && d.flag == 1 && n >= TURN
    ensures Perform(d, Copies(Work, n)) == Turn(d)
  {
    WorkAloneIsPerform(d, n);
    var turn, idle := TURN, n - TURN;
    TurnThenIdle(d, turn, idle);
    assert turn + idle == n;
  }

  lemma {:induction false} StoppedForGood(d: Deferred, n: nat)
    requires d.Valid() && d.phase == Stopped
    ensures WorkAlone(d, n) == d
    decreases n
  {
    if n == 0 {
    } else {
      StoppedForGood(d, n - 1);
    }
  }

  /** A flag of 2, which only an exit function could set, makes the waiting thread return for good. */
  lemma StopRequested(d: Deferred, n: nat)
    requires d.Valid() && d.phase == Waiting && d.flag == 2 && n >= 2
    ensures Perform(d, Copies(Work, n)) == d.(phase := Stopped)
  {
    WorkAloneIsPerform(d, n);
    var woken := OnWork(d);
    assert WorkAlone(d, n) == WorkAlone(woken, n - 1) == WorkAlone(OnWork(woken), n - 2);
    StoppedForGood(OnWork(woken), n - 2);
  }

  /* ---------------- progress on every interleaving ---------------- */

  /** The steps of the thread that are left until the flag is clear. */
  function StepsLeft(d: Deferred): nat
    requires d.Valid()
  {
    if d.flag == 0 then 0
    else match d.phase
      case Waiting => TURN
      case Woken => TURN - 1
      case Reading(i) => 36 - i
      case Choosing => 4
      case Printing => 3
      case Signalling => 2
      case Clearing => 1
      case Stopped => 0
  }

  function WorksIn(schedule: seq<Action>): nat {
    if schedule == [] then 0 else (if schedule[0] == Work then 1 else 0) + WorksIn(schedule[1..])
  }

  lemma StepsLeftAfter(d: Deferred, a: Action)
    requires FlagDiscipline(d)
    ensures StepsLeft(Act(d, a)) ==
            match a
            case Edge(t) => if d.flag == 0 && EventAt(d.timing, t).FrameComplete? then TURN else StepsLeft(d)
            case Work => if d.flag == 0 then 0 else StepsLeft(d) - 1
            case Register => StepsLeft(d)
    ensures StepsLeft(d) == 0 <==> d.flag == 0
  {
  }

  /** Progress: a raised flag is cleared by exactly the StepsLeft-th step of the thread, whatever
      interrupts come in between; before that it stays raised. */
  lemma {:induction false} FlagClears(d: Deferred, schedule: seq<Action>) returns (k: nat)
    requires FlagDiscipline(d) && WorksIn(schedule) >= StepsLeft(d)
    ensures k <= |schedule| && Perform(d, schedule[..k]).flag == 0 && WorksIn(schedule[..k]) == StepsLeft(d)
    ensures forall j :: 0 <= j < k ==> Perform(d, schedule[..j]).flag == 1
    decreases schedule
  {
    StepsLeftAfter(d, Register);
    if d.flag == 0 {
      k := 0;
    } else {
      var d', rest := Act(d, schedule[0]), schedule[1..];
      StepsLeftAfter(d, schedule[0]);
      var later := FlagClears(d', rest);
      k := later + 1;
      assert schedule[..k][1..] == rest[..later];
      forall j | 0 <= j < k ensures Perform(d, schedule[..j]).flag == 1 {
        if j > 0 {
          assert schedule[..j][1..] == rest[..j - 1];
        }
      }
    }
  }

  /** A deadline in steps alone: while steps of a turn are left, no edge comes from position 17 on
      and none is a repeat. It looks at the clock readings and counts the thread's steps. */
  predicate Paced(tm: Timing, left: nat, schedule: seq<Action>)
    requires tm.Valid()
    decreases schedule
  {
    if schedule == [] then true
    else match schedule[0]
      case Edge(t) =>
        var event := EventAt(tm, t);
        && (left > 0 ==> tm.counter <= 16 && !event.RepeatCode?)
        && Paced(Capture(tm, t), if event.FrameComplete? then TURN else left, schedule[1..])
      case Work => Paced(tm, if left > 0 then left - 1 else 0, schedule[1..])
      case Register => Paced(tm, left, schedule[1..])
  }

  /** Counting steps is enough to know that the flag is cleared in time, and no more than that. */
  lemma {:induction false} PacedIffClearedInTime(d: Deferred, schedule: seq<Action>)
    requires FlagDiscipline(d)
    ensures Paced(d.timing, StepsLeft(d), schedule) <==> ClearedInTime(d, schedule)
    decreases schedule
  {
    if schedule == [] {
    } else {
      StepsLeftAfter(d, schedule[0]);
      PacedIffClearedInTime(Act(d, schedule[0]), schedule[1..]);
    }
  }

  /** A thread that gets its steps in that time prints, from load, what the inline driver prints. */
  lemma PacedPrintsSameDigits(schedule: seq<Action>)
    requires Paced(START, 0, schedule)
    ensures var d, s := Perform(LOADED, schedule), Run(INITIAL, EdgesOf(schedule));
            && (s.log == d.log || s.log == d.log + [s.output])
            && (d.flag == 0 ==> s.log == d.log && s.output == d.output)
  {
    PacedIffClearedInTime(LOADED, schedule);
    ClearedInTimeIsTimely(LOADED, schedule);
    TimelyIsHarmless(LOADED, schedule);
    SameDigitsFromLoad(schedule);
  }
}
