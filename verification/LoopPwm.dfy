/** Software PWM by a loop with three counters: one turn of the loop is one tick of 100 us. */
module LoopPwm {

  datatype Pwm = Pwm(count: int, duty: int, countDuty: int, level: int)

  const RESET: Pwm := Pwm(0, 0, 0, 0)

  /** The values the tick writes to the device, in order. */
  function Writes(p: Pwm): seq<int> {
    var count := if p.count == 100 then 0 else p.count;
    (if p.count == 100 then [1] else []) + (if p.countDuty != 100 && count == p.duty then [0] else [])
  }

  /** One turn of the loop. */
  function Tick(p: Pwm): Pwm {
    var writes := Writes(p);
    var count := if p.count == 100 then 0 else p.count;
    var duty :=
      if p.countDuty != 100 then p.duty
      else if p.duty + 1 == 99 then 1 else p.duty + 1;
    var countDuty := if p.countDuty == 100 then 0 else p.countDuty;
    Pwm(count + 1, duty, countDuty + 1, if writes == [] then p.level else writes[|writes| - 1])
  }

  /** The state at the head of the loop before tick n. */
  function Before(n: nat): Pwm {
    if n == 0 then RESET else Tick(Before(n - 1))
  }

  /** The LED while tick n lasts. */
  function LedOn(n: nat): bool {
    Before(n + 1).level == 1
  }

  /** The duty of a period, in ticks: 1..98, over and over. */
  function Duty(period: int): int {
    if period <= 0 then 0 else 1 + (period - 1) % 98
  }

  lemma DutyStep(period: nat)
    ensures Duty(period + 1) == if Duty(period) + 1 == 99 then 1 else Duty(period) + 1
    ensures period >= 1 ==> 1 <= Duty(period) <= 98
  {
    if period > 0 {
      var q, r := (period - 1) / 98, (period - 1) % 98;
      assert period == 98 * q + r + 1;
      if r == 97 {
        assert period == 98 * (q + 1);
      }
    }
  }

  /** The whole state after tick i of a period. */
  function AfterTick(period: nat, i: nat): Pwm {
    Pwm(i + 1, Duty(period), i + 1, if i < Duty(period) then 1 else 0)
  }

  lemma NextTick(period: nat, i: nat)
    requires i < 99
    ensures Tick(AfterTick(period, i)) == AfterTick(period, i + 1)
  {
  }

  lemma NextPeriod(period: nat)
    ensures Tick(AfterTick(period, 99)) == AfterTick(period + 1, 0)
  {
    DutyStep(period);
    DutyStep(period + 1);
  }

  /** The whole state in closed form: the two counters agree at every loop head, and the LED is on
      during the first Duty(p) ticks of period p. */
  lemma {:induction false} ClosedForm(period: nat, i: nat)
    requires i < 100
    ensures Before(100 * period + i + 1) == AfterTick(period, i)
    decreases period, i
  {
    if i == 0 && period == 0 {
      assert Before(1) == Tick(RESET);
    } else if i == 0 {
      ClosedForm(period - 1, 99);
      NextPeriod(period - 1);
    } else {
      ClosedForm(period, i - 1);
      NextTick(period, i - 1);
    }
  }

  lemma ClosedFormAt(n: nat)
    ensures Before(n + 1).level == (if n % 100 < Duty(n / 100) then 1 else 0)
    ensures Before(n + 1).count == Before(n + 1).countDuty
  {
    assert n == 100 * (n / 100) + n % 100;
    ClosedForm(n / 100, n % 100);
  }

  /** The trace: off in period 0, and in period p >= 1 on for exactly the first
      1 + ((p - 1) mod 98) of the hundred ticks. */
  lemma LedTrace(period: nat, i: nat)
    requires i < 100
    ensures LedOn(100 * period + i) <==> period >= 1 && i < 1 + (period - 1) % 98
  {
    ClosedForm(period, i);
  }

  lemma WritesAfterTick(period: nat, i: nat)
    requires i < 99
    ensures Writes(AfterTick(period, i)) == if i + 1 == Duty(period) then [0] else []
  {
  }

  lemma WritesAfterPeriod(period: nat)
    ensures Writes(AfterTick(period, 99)) == [1]
  {
  }

  /** Exactly two writes a period: on at its first tick, off when the duty is over. */
  lemma TwoWrites(period: nat, i: nat)
    requires period >= 1 && i < 100
    ensures Writes(Before(100 * period + i))
         == if i == 0 then [1] else if i == 1 + (period - 1) % 98 then [0] else []
  {
    if i == 0 {
      ClosedForm(period - 1, 99);
      WritesAfterPeriod(period - 1);
    } else {
      ClosedForm(period, i - 1);
      WritesAfterTick(period, i - 1);
    }
  }

  /** The first period has no duty: one write, off, at its first tick. */
  lemma FirstWrites(i: nat)
    requires i < 100
    ensures Writes(Before(i)) == if i == 0 then [0] else []
  {
    if i == 0 {
    } else {
      ClosedForm(0, i - 1);
    }
  }

  /* ---------------- averages ---------------- */

  /** Ticks with the LED on among `length` ticks from tick `from`. */
  function OnTime(from: nat, length: nat): nat {
    if length == 0 then 0 else OnTime(from, length - 1) + if LedOn(from + length - 1) then 1 else 0
  }

  lemma {:induction false} OnTimeInPeriod(period: nat, length: nat)
    requires period >= 1 && length <= 100
    ensures OnTime(100 * period, length) == if length <= Duty(period) then length else Duty(period)
  {
    if length == 0 {
    } else {
      OnTimeInPeriod(period, length - 1);
      LedTrace(period, length - 1);
    }
  }

  lemma {:induction false} OnTimeSplits(from: nat, a: nat, b: nat)
    ensures OnTime(from, a + b) == OnTime(from, a) + OnTime(from + a, b)
  {
    if b == 0 {
    } else {
      OnTimeSplits(from, a, b - 1);
    }
  }

  function SumOfDuties(period: nat, periods: nat): int {
    if periods == 0 then 0 else SumOfDuties(period, periods - 1) + Duty(period + periods - 1)
  }

  lemma {:induction false} OnTimeIsSumOfDuties(period: nat, periods: nat)
    requires period >= 1
    ensures OnTime(100 * period, 100 * periods) == SumOfDuties(period, periods)
  {
    if periods == 0 {
    } else {
      OnTimeIsSumOfDuties(period, periods - 1);
      OnTimeSplits(100 * period, 100 * (periods - 1), 100);
      assert 100 * (periods - 1) + 100 == 100 * periods;
      assert 100 * period + 100 * (periods - 1) == 100 * (period + periods - 1);
      OnTimeInPeriod(period + periods - 1, 100);
      DutyStep(period + periods - 1);
    }
  }

  lemma {:induction false} FirstDuties(periods: nat)
    requires periods <= 98
    ensures 2 * SumOfDuties(1, periods) == periods * (periods + 1)
  {
    if periods == 0 {
    } else {
      FirstDuties(periods - 1);
      assert Duty(periods) == periods;
    }
  }

  lemma {:induction false} DropFirst(period: nat, periods: nat)
    ensures SumOfDuties(period, periods + 1) == Duty(period) + SumOfDuties(period + 1, periods)
  {
    if periods == 0 {
      assert SumOfDuties(period, 1) == SumOfDuties(period, 0) + Duty(period);
    } else {
      DropFirst(period, periods - 1);
      assert SumOfDuties(period, periods + 1) == SumOfDuties(period, periods) + Duty(period + periods);
      assert SumOfDuties(period + 1, periods) == SumOfDuties(period + 1, periods - 1) + Duty(period + periods);
    }
  }

  lemma {:induction false} AnyNinetyEight(period: nat)
    requires period >= 1
    ensures SumOfDuties(period, 98) == 4851
  {
    if period == 1 {
      FirstDuties(98);
    } else {
      AnyNinetyEight(period - 1);
      DropFirst(period - 1, 98);
      assert SumOfDuties(period - 1, 99) == SumOfDuties(period - 1, 98) + Duty(period - 1 + 98);
      assert Duty(period - 1 + 98) == Duty(period - 1);
    }
  }

  /** Over any 98 consecutive periods the LED is on for exactly 4851 of 9800 ticks. */
  lemma AverageOnTime(period: nat)
    requires period >= 1
    ensures OnTime(100 * period, 9800) == 4851
  {
    OnTimeIsSumOfDuties(period, 98);
    AnyNinetyEight(period);
  }

  /* ---------------- the program ---------------- */

  class LedProgram {
    var count: int
    var duty: int
    var countDuty: int
    var buf: int
    var device: seq<int>   // everything written to the device

    ghost function State(): Pwm
      reads this
    {
      Pwm(count, duty, countDuty, if device == [] then 0 else device[|device| - 1])
    }

    constructor ()
      ensures State() == RESET && count == 0 && duty == 0 && countDuty == 0 && device == []
    {
      count, duty, countDuty, buf, device := 0, 0, 0, 0, [];
    }

    method LoopBody()
      modifies this
      ensures State() == Tick(old(State()))
      ensures device == old(device) + Writes(old(State()))
    {
      if count == 100 {
        count := 0;
        buf := 1;
        device := device + [buf];
      }
      if countDuty == 100 {
        countDuty := 0;
        duty := duty + 1;
        if duty == 99 {
          duty := 1;
        }
      } else if count == duty {
        buf := 0;
        device := device + [buf];
      }
      count := count + 1;
      countDuty := countDuty + 1;
    }

    /** The endless loop, stopped after any number of ticks: the LED levels seen so far are the ones
        of the closed form. */
    method Loop(ticks: nat) returns (levels: seq<bool>)
      requires State() == RESET && device == []
      modifies this
      ensures State() == Before(ticks) && |levels| == ticks
      ensures forall n: nat :: n < ticks ==> (levels[n] <==> n % 100 < Duty(n / 100))
      ensures count == countDuty
    {
      levels := [];
      while |levels| < ticks
        invariant |levels| <= ticks && State() == Before(|levels|)
        invariant forall n: nat :: n < |levels| ==> (levels[n] <==> LedOn(n))
      {
        LoopBody();
        levels := levels + [device != [] && device[|device| - 1] == 1];
      }
      forall n: nat | n < ticks ensures levels[n] <==> n % 100 < Duty(n / 100) {
        ClosedFormAt(n);
      }
      if ticks > 0 {
        ClosedFormAt(ticks - 1);
      }
    }
  }
}
