/** The deferred drivers themselves: globals shared by the interrupt handler and the thread. With
    no process registered this is the waiting-queue driver; with one, the signalling driver. */
module DeferredReceiver {
  import opened KeyCode
  import opened MachineWords
  import opened EdgeTimer
  import opened InfraredReceiver
  import opened DeferredDecoder
  import opened DeferredProgress

  class ThreadedReceiver {
    const captureTimes: array<U64>
    const diffTimeUs: array<U64>
    const bitArray: array<int>
    var counter: nat
    var waitQueueFlag: int
    var output: int
    var taskRegistered: bool
    var log: seq<int>      // the digits printed
    var signals: seq<int>  // the digits sent to the registered process

    ghost predicate Valid()
      reads this
    {
      && captureTimes.Length == CAPTURES && diffTimeUs.Length == GAPS && bitArray.Length == BITS
      && captureTimes != diffTimeUs
      && counter < FRAME_EDGES
    }

    /** The shared state, with the thread at the given place. */
    ghost function State(phase: Phase): Deferred
      requires Valid()
      reads this, captureTimes, diffTimeUs, bitArray
    {
      Deferred(Timing(counter, captureTimes[..], diffTimeUs[..]), waitQueueFlag, phase, bitArray[..],
               output, log, taskRegistered, signals)
    }

    constructor ()
      ensures Valid() && State(Waiting) == LOADED
      ensures counter == 0 && output == 0 && log == [] && signals == [] && waitQueueFlag == 0 && !taskRegistered
      ensures captureTimes.Length == 35 && forall i :: 0 <= i < 35 ==> captureTimes[i] == 0
      ensures diffTimeUs.Length == 33 && forall i :: 0 <= i < 33 ==> diffTimeUs[i] == 0
      ensures bitArray.Length == 32 && forall i :: 0 <= i < 32 ==> bitArray[i] == 0
      ensures fresh(captureTimes) && fresh(diffTimeUs) && fresh(bitArray)
    {
      captureTimes := new U64[CAPTURES](_ => 0);
      diffTimeUs := new U64[GAPS](_ => 0);
      bitArray := new int[BITS](_ => 0);
      counter, waitQueueFlag, output, taskRegistered, log, signals := 0, 0, 0, false, [], [];
      new;
      assert captureTimes[..] == START.captures && diffTimeUs[..] == START.gaps && bitArray[..] == LOADED.bits;
    }

    /** printk and signalfunc, one after the other. */
    method Emit()
      modifies this`log, this`signals
      ensures log == old(log) + [output]
      ensures signals == if taskRegistered then old(signals) + [output] else old(signals)
    {
      log := log + [output];
      if taskRegistered {
        signals := signals + [output];
      }
    }

    method RegisterCurrentTask()
      requires Valid()
      modifies this`taskRegistered
      ensures Valid() && taskRegistered
      ensures forall p: Phase :: (p.Reading? ==> p.i < BITS) ==>
                State(p) == Act(old(State(p)), Register) == old(State(p)).(registered := true)
    {
      taskRegistered := true;
    }

    /** The interrupt handler, wherever the thread is. */
    method GpioIrqHandler(captureTime: U64)
      requires Valid()
      modifies this`counter, this`waitQueueFlag, this`log, this`signals, captureTimes, diffTimeUs
      ensures Valid()
      ensures forall p: Phase :: (p.Reading? ==> p.i < BITS) ==> State(p) == OnEdge(old(State(p)), captureTime)
    {
      var next, event := RecordEdge(captureTimes, diffTimeUs, counter, captureTime);
      counter := next;
      match event
      case Nothing =>
      case RepeatCode => Emit();
      case FrameComplete => waitQueueFlag := 1;
    }

    /** remote_control_function: decode what is stored, print and signal it. */
    method RemoteControlFunction()
      requires Valid()
      modifies this`output, this`log, this`signals, bitArray
      ensures Valid()
      ensures State(Waiting).(flag := 0) == Turn(old(State(Waiting)))
    {
      ClassifyStoredGaps(diffTimeUs, bitArray);
      var hex := ConvertBinaryToHex(bitArray);
      output := SwitchDigit(hex, output);
      Emit();
    }

    /** One turn of the thread's loop with no interrupt in between; it blocks while the flag is 0
        and returns for good when the flag is 2. */
    method WaitFunctionTurn() returns (stop: bool)
      requires Valid()
      modifies this`waitQueueFlag, this`output, this`log, this`signals, bitArray
      ensures Valid() && stop == (old(waitQueueFlag) == 2)
      ensures State(Waiting)
           == if old(waitQueueFlag) == 0 || stop then old(State(Waiting)) else Turn(old(State(Waiting)))
    {
      stop := false;
      if waitQueueFlag != 0 {
        if waitQueueFlag == 2 {
          return true;
        }
        RemoteControlFunction();
        waitQueueFlag := 0;
      }
    }
  }
}
