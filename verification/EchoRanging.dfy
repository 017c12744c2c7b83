/** Ultrasonic ranging: the time between a rising and a falling edge of the echo, as centimetres. */
module EchoRanging {
  import opened IntMath
  import opened MachineWords

  const HALF32: int := 0x8000_0000

  /** Reduction to a signed 32-bit integer. */
  function ToInt32(x: int): int {
    var r := x % WORD32;
    if r < HALF32 then r else r - WORD32
  }

  /** C division, which truncates towards zero. */
  function Quotient(a: int, b: int): int
    requires b > 0
  {
    if a >= 0 then a / b else -(-a / b)
  }

  /** (int)us * 17 / 1000, with a product that wraps. */
  function Centimetres(us: U64): int {
    Quotient(ToInt32(ToInt32(us) * 17), 1000)
  }

  /** The 64-bit difference of the stamps in whole microseconds. */
  function EchoUs(start: U64, end: U64): U64 {
    ((end - start) % WORD64) / 1000
  }

  /** The reduction is the one number of the signed 32-bit range that differs by whole turns. */
  lemma ToInt32Iff(x: int, p: int)
    requires -2147483648 <= p < 2147483648
    ensures ToInt32(x) == p <==> (x - p) % 4294967296 == 0
  {
    assert x == 4294967296 * (x / 4294967296) + x % 4294967296;
    assert x - p == 4294967296 * ((x - p) / 4294967296) + (x - p) % 4294967296;
  }

  /** What is printed for any echo, however long: the product as it wraps, divided towards zero. */
  lemma Printed(us: U64, p: int)
    requires -2147483648 <= p < 2147483648 && (17 * us - p) % 4294967296 == 0
    ensures Centimetres(us) == if p >= 0 then p / 1000 else -((-p) / 1000)
  {
    var low := ToInt32(us);
    ToInt32Iff(us, low);
    assert us - low == 4294967296 * ((us - low) / 4294967296);
    assert 17 * us - p == 4294967296 * ((17 * us - p) / 4294967296);
    assert low * 17 - p == 4294967296 * ((17 * us - p) / 4294967296 - 17 * ((us - low) / 4294967296));
    ModUnique(low * 17 - p, 4294967296, (17 * us - p) / 4294967296 - 17 * ((us - low) / 4294967296), 0);
    ToInt32Iff(low * 17, p);
  }

  lemma NoOverflow(us: U64)
    requires us <= 126322567
    ensures ToInt32(us) == us && ToInt32(us) * 17 == 17 * us < 2147483648
    ensures Centimetres(us) == 17 * us / 1000
  {
  }

  /** Just above the longest echo the distance is still in range, but the product is not. */
  lemma FirstOverflows(us: U64)
    requires us > 126322567 && 17 * us < 2147484000
    ensures Centimetres(us) < 0
  {
    assert ToInt32(us) == us && ToInt32(us * 17) == 17 * us - WORD32;
  }

  /** The product does not overflow exactly up to the longest echo, and only then is the printed
      value the distance. */
  lemma ExactIffNoOverflow(us: U64)
    ensures Centimetres(us) == 17 * us / 1000 <==> us <= 126322567
    ensures us <= 126322567 ==> ToInt32(us) * 17 == 17 * us < 2147483648
  {
    if us <= 126322567 {
      NoOverflow(us);
    } else if 17 * us < 2147484000 {
      FirstOverflows(us);
    } else {
      assert ToInt32(ToInt32(us) * 17) < 2147483648;
      assert Centimetres(us) <= 2147483;
      assert 17 * us / 1000 >= 2147484;
    }
  }

  lemma Monotone(a: U64, b: U64)
    requires a <= b <= 126322567
    ensures Centimetres(a) <= Centimetres(b)
  {
    ExactIffNoOverflow(a);
    ExactIffNoOverflow(b);
  }

  /** The error of the two divisions: the value printed for an echo of ns nanoseconds is the floor of
      17 ns / 10^6 or one less, and it is one less exactly when the microseconds cut off carry. */
  lemma RoundingError(ns: nat)
    requires ns / 1000 <= 126322567
    ensures var exact, carry := 17 * ns / 1000000, 17 * (ns / 1000) % 1000 * 1000 + 17 * (ns % 1000) >= 1000000;
            Centimetres(ns / 1000) == if carry then exact - 1 else exact
  {
    var us, rest := ns / 1000, ns % 1000;
    ExactIffNoOverflow(us);
    var q, f := 17 * us / 1000, 17 * us % 1000;
    assert ns == 1000 * us + rest;
    assert 17 * ns == 1000000 * q + (1000 * f + 17 * rest);
  }

  /* ---------------- edge sequences ---------------- */

  datatype EchoEdge = EchoEdge(high: bool, now: U64)

  /** start_time after a run of edges. */
  function StartAfter(start: U64, edges: seq<EchoEdge>): U64 {
    if edges == [] then start
    else
      var last := edges[|edges| - 1];
      if last.high then last.now else StartAfter(start, edges[..|edges| - 1])
  }

  /** Each falling edge after at least one rising edge prints the distance for the time since the
      most recent rising edge. */
  lemma {:induction false} ReportsLatestRise(start: U64, edges: seq<EchoEdge>, rise: nat, end: U64)
    requires rise < |edges| && edges[rise].high && forall i :: rise < i < |edges| ==> !edges[i].high
    requires edges[rise].now <= end
    ensures EchoUs(StartAfter(start, edges), end) == (end - edges[rise].now) / 1000
    decreases |edges|
  {
    if rise == |edges| - 1 {
      assert (end - edges[rise].now) % WORD64 == end - edges[rise].now;
    } else {
      assert !edges[|edges| - 1].high;
      ReportsLatestRise(start, edges[..|edges| - 1], rise, end);
    }
  }

  datatype Report = Silent | Distance(cm: int)

  class EchoDriver {
    var startTime: U64
    var endTime: U64
    ghost var seen: seq<EchoEdge>

    ghost predicate Valid()
      reads this
    {
      startTime == StartAfter(0, seen)
    }

    constructor ()
      ensures Valid() && seen == []
    {
      startTime, endTime, seen := 0, 0, [];
    }

    method GpioIrqHandler(level: int, now: U64) returns (report: Report)
      requires Valid()
      modifies this
      ensures Valid() && seen == old(seen) + [EchoEdge(level == 1, now)]
      ensures startTime == (if level == 1 then now else old(startTime))
      ensures endTime == (if level == 1 then old(endTime) else now)
      ensures report == if level == 1 then Silent else Distance(Centimetres(EchoUs(StartAfter(0, old(seen)), now)))
    {
      seen := seen + [EchoEdge(level == 1, now)];
      assert seen[..|seen| - 1] == old(seen);
      if level == 1 {
        startTime := now;
        report := Silent;
      } else {
        endTime := now;
        var diffTime := (endTime - startTime) % WORD64;
        var diffTimeUs := diffTime / 1000;
        var product := ToInt32(ToInt32(diffTimeUs) * 17);
        report := Distance(Quotient(product, 1000));
      }
    }
  }
}
