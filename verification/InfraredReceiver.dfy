/** The inline driver itself: the globals and arrays that the interrupt handler updates in place. */
module InfraredReceiver {
  import opened KeyCode
  import opened MachineWords
  import opened EdgeTimer
  import opened InfraredDecoder

  /** The front half of the handlers: store the stamp, measure the gap, move the position. */
  method RecordEdge(captureTimes: array<U64>, diffTimeUs: array<U64>, counter: nat, captureTime: U64)
    returns (next: nat, event: Event)
    requires captureTimes.Length == CAPTURES && diffTimeUs.Length == GAPS && captureTimes != diffTimeUs
    requires counter < FRAME_EDGES
    modifies captureTimes, diffTimeUs
    ensures event == EventAt(old(Timing(counter, captureTimes[..], diffTimeUs[..])), captureTime)
    ensures Timing(next, captureTimes[..], diffTimeUs[..])
         == Capture(old(Timing(counter, captureTimes[..], diffTimeUs[..])), captureTime)
  {
    event := Nothing;
    var position: int := counter;
    captureTimes[counter] := captureTime;
    if counter > 0 {
      var difftime := (captureTimes[counter] - captureTimes[counter - 1]) % WORD64;
      var us: U64 := difftime / 1000;
      diffTimeUs[counter - 1] := us;
      if us > 13000 && us < 14000 {
        position := 1;
      } else if us > 11000 && us < 12000 {
        event := RepeatCode;
        position := -1;
      }
    }
    position := position + 1;
    if position == FRAME_EDGES {
      event := FrameComplete;
      position := 0;
    }
    next := position;
  }

  /** The first decoding loop: set the stored bits whose gap lies in a bit window. */
  method ClassifyStoredGaps(diffTimeUs: array<U64>, bitArray: array<int>)
    requires diffTimeUs.Length == GAPS && bitArray.Length == BITS
    modifies bitArray
    ensures bitArray[..] == ClassifyGaps(diffTimeUs[..], old(bitArray[..]))
  {
    var i := 0;
    while i < BITS
      invariant 0 <= i <= BITS
      invariant forall j :: 0 <= j < i ==> bitArray[j] == ClassifyGap(diffTimeUs[j], old(bitArray[j]))
      invariant forall j :: i <= j < BITS ==> bitArray[j] == old(bitArray[j])
    {
      if diffTimeUs[i] > 1000 && diffTimeUs[i] < 1500 {
        bitArray[i] := 0;
      } else if diffTimeUs[i] > 2000 && diffTimeUs[i] < 2500 {
        bitArray[i] := 1;
      }
      i := i + 1;
    }
  }

  class InlineReceiver {
    const captureTimes: array<U64>
    const diffTimeUs: array<U64>
    const bitArray: array<int>
    var counter: nat
    var output: int
    var log: seq<int>  // the digits printed

    ghost predicate Valid()
      reads this
    {
      && captureTimes.Length == CAPTURES && diffTimeUs.Length == GAPS && bitArray.Length == BITS
      && captureTimes != diffTimeUs
      && counter < FRAME_EDGES
    }

    ghost function State(): Decoder
      requires Valid()
      reads this, captureTimes, diffTimeUs, bitArray
    {
      Decoder(Timing(counter, captureTimes[..], diffTimeUs[..]), bitArray[..], output, log)
    }

    constructor ()
      ensures Valid() && State() == INITIAL
      ensures counter == 0 && output == 0 && log == []
      ensures captureTimes.Length == 35 && forall i :: 0 <= i < 35 ==> captureTimes[i] == 0
      ensures diffTimeUs.Length == 33 && forall i :: 0 <= i < 33 ==> diffTimeUs[i] == 0
      ensures bitArray.Length == 32 && forall i :: 0 <= i < 32 ==> bitArray[i] == 0
      ensures fresh(captureTimes) && fresh(diffTimeUs) && fresh(bitArray)
    {
      captureTimes := new U64[CAPTURES](_ => 0);
      diffTimeUs := new U64[GAPS](_ => 0);
      bitArray := new int[BITS](_ => 0);
      counter, output, log := 0, 0, [];
      new;
      assert captureTimes[..] == START.captures && diffTimeUs[..] == START.gaps && bitArray[..] == INITIAL.bits;
    }

    /** The interrupt handler: in place, what the decoder on values does in one step. */
    method GpioIrqHandler(captureTime: U64)
      requires Valid()
      modifies this, captureTimes, diffTimeUs, bitArray
      ensures Valid() && State() == Step(old(State()), captureTime)
    {
      var next, event := RecordEdge(captureTimes, diffTimeUs, counter, captureTime);
      counter := next;
      match event
      case Nothing =>
      case RepeatCode => log := log + [output];
      case FrameComplete =>
        ClassifyStoredGaps(diffTimeUs, bitArray);
        var hex := ConvertBinaryToHex(bitArray);
        output := SwitchDigit(hex, output);
        log := log + [output];
    }
  }
}
