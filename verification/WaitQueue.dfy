/** The wait-queue driver: device reads and the exit function raise a flag, a thread counts. */
module WaitQueue {
  import opened MachineWords
  import opened Sequences

  /** Where the thread is in its loop. */
  datatype Phase =
    | Waiting    // in wait_event_interruptible
    | Woken      // the condition held, the flag not yet looked at again
    | Counting   // the flag was not 2
    | Clearing   // counted, about to reset the flag
    | Returned

  /** The flag, the thread, the 32-bit count, and the history: reads of the device so far, turns the
      thread has counted, and whether the exit function has run. */
  datatype Driver = Driver(flag: int, phase: Phase, readCount: nat, deviceReads: nat, counted: nat, exited: bool)

  datatype Action = Read | Exit | Work

  const LOADED: Driver := Driver(0, Waiting, 0, 0, 0, false)

  function Act(d: Driver, a: Action): Driver {
    match a
    case Read => d.(flag := 1, deviceReads := d.deviceReads + 1)
    case Exit => d.(flag := 2, exited := true)
    case Work =>
      match d.phase
      case Waiting => if d.flag != 0 then d.(phase := Woken) else d
      case Woken => d.(phase := if d.flag == 2 then Returned else Counting)
      case Counting => d.(phase := Clearing, readCount := (d.readCount + 1) % WORD32, counted := d.counted + 1)
      case Clearing => d.(phase := Waiting, flag := 0)
      case Returned => d
  }

  function Perform(d: Driver, schedule: seq<Action>): Driver
    decreases schedule
  {
    if schedule == [] then d else Perform(Act(d, schedule[0]), schedule[1..])
  }

  /** A read that the thread has yet to notice. */
  function Owed(d: Driver): nat {
    if d.flag == 1 && (d.phase == Waiting || d.phase == Woken) then 1 else 0
  }

  /** A read that the thread is about to count. */
  function InHand(d: Driver): nat {
    if d.phase == Counting then 1 else 0
  }

  ghost predicate Justified(d: Driver) {
    && 0 <= d.flag <= 2
    && (d.phase != Waiting && d.phase != Returned ==> d.flag != 0)
    && (d.flag == 2 || d.phase == Returned ==> d.exited)
    && d.readCount == d.counted % WORD32
    && d.counted + InHand(d) + Owed(d) <= d.deviceReads
  }

  lemma WrapStep(n: nat)
    ensures (n % WORD32 + 1) % WORD32 == (n + 1) % WORD32
  {
  }

  /** How often an action occurs in a schedule. */
  function Occurrences(a: Action, schedule: seq<Action>): nat {
    if schedule == [] then 0 else (if schedule[0] == a then 1 else 0) + Occurrences(a, schedule[1..])
  }

  /** On every interleaving, each count is paid for by a read of its own, so the 32-bit count is what
      was counted, and that is never more than the reads; and the thread has returned only if the exit
      function has run. */
  lemma {:induction false} EveryRun(d: Driver, schedule: seq<Action>)
    requires Justified(d)
    ensures var r := Perform(d, schedule);
            && Justified(r)
            && r.readCount == r.counted % 4294967296
            && r.counted <= r.deviceReads == d.deviceReads + Occurrences(Read, schedule)
            && (r.phase == Returned ==> r.exited)
            && (r.exited <==> d.exited || Exit in schedule)
    decreases schedule
  {
    if schedule == [] {
    } else {
      if schedule[0] == Work && d.phase == Counting {
        WrapStep(d.counted);
      }
      EveryRun(Act(d, schedule[0]), schedule[1..]);
      assert Exit in schedule <==> schedule[0] == Exit || Exit in schedule[1..];
    }
  }

  lemma EveryRunFromLoad(schedule: seq<Action>)
    ensures var r := Perform(LOADED, schedule);
            && r.readCount <= r.counted <= r.deviceReads == Occurrences(Read, schedule)
            && r.readCount == r.counted % 4294967296
            && (r.phase == Returned ==> Exit in schedule)
  {
    EveryRun(LOADED, schedule);
    assert Perform(LOADED, schedule).counted % 4294967296 <= Perform(LOADED, schedule).counted;
  }

  /* ---------------- progress ---------------- */

  /** The steps of the thread that are left until the flag is clear, while no exit is requested. */
  function StepsLeft(d: Driver): nat {
    if d.flag == 0 then 0
    else match d.phase
      case Waiting => 4
      case Woken => 3
      case Counting => 2
      case Clearing => 1
      case Returned => 0
  }

  /** Progress: whatever reads come in between, a raised flag is cleared by exactly the StepsLeft-th
      step of the thread, and by then the thread has counted once, unless it had already. */
  lemma {:induction false} FlagClears(d: Driver, schedule: seq<Action>) returns (k: nat)
    requires Justified(d) && d.flag != 2 && d.phase != Returned && Exit !in schedule
    requires Occurrences(Work, schedule) >= StepsLeft(d)
    ensures k <= |schedule| && Occurrences(Work, schedule[..k]) == StepsLeft(d)
    ensures var r := Perform(d, schedule[..k]);
            && r.phase == Waiting && r.flag == 0
            && r.counted == d.counted + (if StepsLeft(d) >= 2 then 1 else 0)
    ensures forall j :: 0 <= j < k ==> Perform(d, schedule[..j]).flag == 1
    decreases schedule
  {
    if d.flag == 0 {
      k := 0;
    } else {
      assert schedule[0] in schedule;
      var d', rest := Act(d, schedule[0]), schedule[1..];
      if d.phase == Counting {
        WrapStep(d.counted);
      }
      var later := FlagClears(d', rest);
      k := later + 1;
      assert schedule[..k][1..] == rest[..later];
      forall j | 0 <= j < k ensures Perform(d, schedule[..j]).flag == 1 {
        if j > 0 {
          assert schedule[..j][1..] == rest[..j - 1];
        }
      }
    }
  }

  lemma FourSteps(d: Driver, n: nat)
    requires n == 4  // pinned, so that Perform is unfolded at a variable
    ensures Perform(d, Copies(Work, n)) == Act(Act(Act(Act(d, Work), Work), Work), Work)
  {
    CopiesUnfold(Work, n);
    CopiesUnfold(Work, n - 1);
    CopiesUnfold(Work, n - 2);
    CopiesUnfold(Work, n - 3);
    var d1 := Act(d, Work);
    var d2 := Act(d1, Work);
    var d3 := Act(d2, Work);
    assert Perform(d, Copies(Work, n)) == Perform(d1, Copies(Work, n - 1));
    assert Perform(d1, Copies(Work, n - 1)) == Perform(d2, Copies(Work, n - 2));
    assert Perform(d2, Copies(Work, n - 2)) == Perform(d3, Copies(Work, n - 3));
    assert Perform(d3, Copies(Work, n - 3)) == Act(d3, Work);
  }

  /** One turn of the thread left alone: it counts a read and clears the flag, returns when the exit is
      requested, and does nothing when the flag is clear. */
  lemma TurnCompletes(d: Driver)
    requires d.phase == Waiting
    ensures Perform(d, Copies(Work, 4)) ==
            if d.flag == 0 then d
            else if d.flag == 2 then d.(phase := Returned)
            else d.(flag := 0, readCount := (d.readCount + 1) % 4294967296, counted := d.counted + 1)
  {
    FourSteps(d, 4);
  }

  /* ---------------- what becomes of a read ---------------- */

  /** Reads that an action leaves unheard: one that finds an earlier read still to be noticed, or the
      thread past its look at the flag, or returned; and one whose flag the exit overwrites. */
  function Unheard(d: Driver, a: Action): nat {
    match a
    case Read => if d.flag != 1 && (d.phase == Waiting || d.phase == Woken) then 0 else 1
    case Exit => Owed(d)
    case Work => 0
  }

  function UnheardIn(d: Driver, schedule: seq<Action>): nat
    decreases schedule
  {
    if schedule == [] then 0 else Unheard(d, schedule[0]) + UnheardIn(Act(d, schedule[0]), schedule[1..])
  }

  /** On every interleaving, every read is counted, about to be counted, still to be noticed, or
      unheard. */
  lemma {:induction false} ReadsAccounted(d: Driver, schedule: seq<Action>, unheard: nat)
    requires Justified(d) && d.deviceReads == d.counted + InHand(d) + Owed(d) + unheard
    ensures var r := Perform(d, schedule);
            r.deviceReads == r.counted + InHand(r) + Owed(r) + unheard + UnheardIn(d, schedule)
    decreases schedule
  {
    if schedule == [] {
    } else {
      if schedule[0] == Work && d.phase == Counting {
        WrapStep(d.counted);
      }
      ReadsAccounted(Act(d, schedule[0]), schedule[1..], unheard + Unheard(d, schedule[0]));
    }
  }

  /** From load: when the thread waits with the flag clear, it has counted every read if and only if
      none went unheard. */
  lemma EveryReadCountedIff(schedule: seq<Action>)
    requires Perform(LOADED, schedule).phase == Waiting && Perform(LOADED, schedule).flag == 0
    ensures Perform(LOADED, schedule).counted == Perform(LOADED, schedule).deviceReads <==>
            UnheardIn(LOADED, schedule) == 0
  {
    ReadsAccounted(LOADED, schedule, 0);
  }

  /* ---------------- what becomes of the request to exit ---------------- */

  /** The request is lost: the flag is no longer 2, or the thread is past its look and will reset it. */
  ghost predicate ExitLost(d: Driver) {
    d.phase != Returned && (d.flag == 2 ==> d.phase == Counting || d.phase == Clearing)
  }

  lemma {:induction false} LostForGood(d: Driver, schedule: seq<Action>)
    requires ExitLost(d) && Exit !in schedule
    ensures ExitLost(Perform(d, schedule))
    decreases schedule
  {
    if schedule == [] {
    } else {
      assert schedule[0] in schedule;
      LostForGood(Act(d, schedule[0]), schedule[1..]);
    }
  }

  lemma {:induction false} ReturnedForGood(d: Driver, schedule: seq<Action>)
    requires d.phase == Returned
    ensures Perform(d, schedule).phase == Returned
    decreases schedule
  {
    if schedule == [] {
    } else {
      ReturnedForGood(Act(d, schedule[0]), schedule[1..]);
    }
  }

  /** The steps of the thread before the first read of a schedule. */
  function WorksBeforeRead(schedule: seq<Action>): nat {
    if schedule == [] || schedule[0] == Read then 0
    else (if schedule[0] == Work then 1 else 0) + WorksBeforeRead(schedule[1..])
  }

  /** The steps of the thread up to its look at a raised flag. */
  function StepsToLook(phase: Phase): nat {
    match phase
    case Waiting => 2
    case Woken => 1
    case _ => 0
  }

  lemma {:induction false} RaisedForExit(d: Driver, schedule: seq<Action>)
    requires d.flag == 2 && d.phase != Counting && d.phase != Clearing && Exit !in schedule
    ensures Perform(d, schedule).phase == Returned <==> WorksBeforeRead(schedule) >= StepsToLook(d.phase)
    decreases schedule
  {
    if d.phase == Returned {
      ReturnedForGood(d, schedule);
    } else if schedule == [] {
    } else {
      assert schedule[0] in schedule;
      if schedule[0] == Read {
        LostForGood(Act(d, Read), schedule[1..]);
      } else {
        RaisedForExit(Act(d, schedule[0]), schedule[1..]);
      }
    }
  }

  /** The request to exit is heard, over every schedule that follows it, if and only if it does not come
      between the thread's look at the flag and its reset of it, and the thread then takes its look
      before the device is read again. */
  lemma ExitHeardIff(d: Driver, schedule: seq<Action>)
    requires Justified(d) && Exit !in schedule
    ensures Perform(Act(d, Exit), schedule).phase == Returned <==>
            d.phase != Counting && d.phase != Clearing && WorksBeforeRead(schedule) >= StepsToLook(d.phase)
  {
    if d.phase == Counting || d.phase == Clearing {
      LostForGood(Act(d, Exit), schedule);
    } else {
      RaisedForExit(Act(d, Exit), schedule);
    }
  }

  /** A run in which the exit request is lost whatever follows: a read, two steps of the thread, the
      exit. */
  lemma ExitCanBeLost(schedule: seq<Action>)
    requires Exit !in schedule
    ensures Perform(Act(Perform(LOADED, [Read, Work, Work]), Exit), schedule).phase != Returned
  {
    var a := [Read, Work, Work];
    var d := Act(Act(Act(LOADED, Read), Work), Work);
    assert a[1..] == [Work, Work] && a[1..][1..] == [Work] && a[1..][1..][1..] == [];
    assert Perform(LOADED, a) == Perform(Act(LOADED, Read), [Work, Work])
        == Perform(Act(Act(LOADED, Read), Work), [Work]) == Perform(d, []) == d;
    EveryRun(LOADED, a);
    ExitHeardIff(d, schedule);
  }

  /** The driver's globals, updated in place, beside the machine state they stand for. */
  class EtxDriver {
    var waitQueueFlag: int
    var readCount: nat
    ghost var history: Driver

    ghost predicate Valid()
      reads this
    {
      history.flag == waitQueueFlag && history.readCount == readCount < WORD32
    }

    constructor ()
      ensures Valid() && history == LOADED
    {
      waitQueueFlag, readCount, history := 0, 0, LOADED;
    }

    /** A read of the device, wherever the thread is. */
    method EtxRead()
      requires Valid()
      modifies this`waitQueueFlag, this`history
      ensures Valid() && waitQueueFlag == 1 && history == Act(old(history), Read)
    {
      waitQueueFlag := 1;
      history := Act(history, Read);
    }

    method EtxDriverExit()
      requires Valid()
      modifies this`waitQueueFlag, this`history
      ensures Valid() && waitQueueFlag == 2 && history == Act(old(history), Exit)
    {
      waitQueueFlag := 2;
      history := Act(history, Exit);
    }

    /** One turn of the thread's loop when nothing comes in between: four steps of the machine. */
    method WaitFunctionTurn() returns (stop: bool)
      requires Valid() && history.phase == Waiting
      modifies this
      ensures Valid() && history == Perform(old(history), Copies(Work, 4))
      ensures stop == (old(waitQueueFlag) == 2) == (history.phase == Returned)
      ensures waitQueueFlag == if stop then 2 else 0
      ensures readCount
           == if old(waitQueueFlag) == 0 || stop then old(readCount) else (old(readCount) + 1) % 4294967296
    {
      stop := false;
      TurnCompletes(history);
      history := Perform(history, Copies(Work, 4));
      if waitQueueFlag != 0 {
        if waitQueueFlag == 2 {
          return true;
        }
        readCount := (readCount + 1) % WORD32;
        waitQueueFlag := 0;
      }
    }
  }
}
