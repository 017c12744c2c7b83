/** The debounced interrupt: jiffies is a 32-bit counter that wraps, and the handler reads it
    twice. Real time is an unbounded number of jiffies. */
module Debounce {
  import opened MachineWords

  const QUIET_TIME := 20

  datatype Button = Button(oldJiffie: nat, toggle: int)

  /** An interrupt, by the real times of the handler's two readings of jiffies. */
  datatype Interrupt = Interrupt(first: nat, second: nat)

  predicate Accepts(b: Button, irq: Interrupt) {
    (irq.first % WORD32 - b.oldJiffie) % WORD32 >= QUIET_TIME
  }

  function Handle(b: Button, irq: Interrupt): Button {
    if Accepts(b, irq) then Button(irq.second % WORD32, 1 - b.toggle) else b
  }

  function Run(b: Button, irqs: seq<Interrupt>): Button {
    if irqs == [] then b else Handle(Run(b, irqs[..|irqs| - 1]), irqs[|irqs| - 1])
  }

  /** The interrupts that toggled the output, in order. */
  function Accepted(b: Button, irqs: seq<Interrupt>): seq<Interrupt> {
    if irqs == [] then []
    else
      var front, last := irqs[..|irqs| - 1], irqs[|irqs| - 1];
      Accepted(b, front) + if Accepts(Run(b, front), last) then [last] else []
  }

  /** Real time passes: within a handler, and from one interrupt to the next. */
  ghost predicate InOrder(irqs: seq<Interrupt>) {
    && (forall i :: 0 <= i < |irqs| ==> irqs[i].first <= irqs[i].second)
    && (forall i, j :: 0 <= i < j < |irqs| ==> irqs[i].second <= irqs[j].first)
  }

  /** After an accepted interrupt the next is accepted exactly when the real distance, less whole
      turns of the 32-bit counter, is at least 20 jiffies. */
  lemma AcceptedIff(last: Interrupt, irq: Interrupt, toggle: int)
    requires last.second <= irq.first
    ensures Accepts(Button(last.second % WORD32, toggle), irq) <==> (irq.first - last.second) % 4294967296 >= 20
  {
    var a, b := irq.first, last.second;
    assert a - b == WORD32 * (a / WORD32 - b / WORD32) + (a % WORD32 - b % WORD32);
  }

  /** So one that comes a whole turn of the counter later, give or take 19 jiffies, is dropped. */
  lemma DroppedAfterWrap(last: Interrupt, turns: nat, late: nat, toggle: int)
    requires late < 20
    ensures var irq := Interrupt(last.second + turns * 4294967296 + late, last.second + turns * 4294967296 + late);
            !Accepts(Button(last.second % WORD32, toggle), irq)
  {
    var t := last.second + turns * 4294967296 + late;
    assert turns * 4294967296 >= 0;
    AcceptedIff(last, Interrupt(t, t), toggle);
    assert (turns * 4294967296 + late) % WORD32 == late;
  }

  /** Accepted interrupts keep their order, and none is later than the last interrupt. */
  lemma {:induction false} AcceptedInOrder(b: Button, irqs: seq<Interrupt>)
    requires InOrder(irqs)
    ensures InOrder(Accepted(b, irqs))
    ensures forall i :: 0 <= i < |Accepted(b, irqs)| ==>
              irqs != [] && Accepted(b, irqs)[i].second <= irqs[|irqs| - 1].second
  {
    if irqs == [] {
    } else {
      var front, last := irqs[..|irqs| - 1], irqs[|irqs| - 1];
      AcceptedInOrder(b, front);
      assert last.first <= last.second;
      if front != [] {
        assert irqs[|front| - 1].second <= last.first;
      }
    }
  }

  /** The state remembers the last accepted interrupt, and the output is the parity of their number. */
  lemma {:induction false} StateAfter(b: Button, irqs: seq<Interrupt>)
    ensures var accepted, r := Accepted(b, irqs), Run(b, irqs);
            && r.toggle == (if |accepted| % 2 == 0 then b.toggle else 1 - b.toggle)
            && (if accepted == [] then r == b else r.oldJiffie == accepted[|accepted| - 1].second % WORD32)
  {
    if irqs == [] {
    } else {
      var front, last := irqs[..|irqs| - 1], irqs[|irqs| - 1];
      StateAfter(b, front);
      if !Accepts(Run(b, front), last) {
        assert Accepted(b, irqs) == Accepted(b, front);
      }
    }
  }

  lemma NextAccepted(last: Interrupt, irq: Interrupt, toggle: int)
    requires last.second <= irq.first
    ensures Accepts(Button(last.second % WORD32, toggle), irq) ==> irq.first - last.second >= 20
  {
    AcceptedIff(last, irq, toggle);
  }

  /** Accepted interrupts are at least 20 real jiffies apart, although jiffies wraps and is read
      twice in between. */
  lemma {:induction false} AcceptedApart(b: Button, irqs: seq<Interrupt>)
    requires InOrder(irqs)
    ensures var accepted := Accepted(b, irqs);
            forall i :: 0 < i < |accepted| ==> accepted[i].first - accepted[i - 1].second >= 20
  {
    if irqs == [] {
    } else {
      var front, last := irqs[..|irqs| - 1], irqs[|irqs| - 1];
      AcceptedApart(b, front);
      AcceptedInOrder(b, front);
      StateAfter(b, front);
      var before := Accepted(b, front);
      if before != [] {
        assert irqs[|front| - 1].second <= last.first;
        NextAccepted(before[|before| - 1], last, Run(b, front).toggle);
      }
    }
  }

  lemma {:induction false} Spread(accepted: seq<Interrupt>, i: nat, j: nat)
    requires InOrder(accepted) && i <= j < |accepted|
    requires forall k :: 0 < k < |accepted| ==> accepted[k].first - accepted[k - 1].second >= 20
    ensures accepted[j].first - accepted[i].first >= 20 * (j - i)
    decreases j
  {
    if i == j {
    } else {
      Spread(accepted, i, j - 1);
      assert accepted[j - 1].first <= accepted[j - 1].second;
    }
  }

  /** The i-th to the j-th toggle within a window of T jiffies are at most T / 20 + 1. */
  lemma WindowBound(b: Button, irqs: seq<Interrupt>, i: nat, j: nat, start: nat, window: nat)
    requires InOrder(irqs) && i <= j < |Accepted(b, irqs)|
    requires start <= Accepted(b, irqs)[i].first && Accepted(b, irqs)[j].first <= start + window
    ensures j - i + 1 <= window / 20 + 1
  {
    AcceptedApart(b, irqs);
    AcceptedInOrder(b, irqs);
    Spread(Accepted(b, irqs), i, j);
  }

  class ButtonDriver {
    var oldJiffie: nat
    var ledToggle: int

    ghost predicate Valid()
      reads this
    {
      ledToggle == 0 || ledToggle == 1
    }

    ghost function State(): Button
      reads this
    {
      Button(oldJiffie, ledToggle)
    }

    constructor ()
      ensures Valid() && State() == Button(0, 0)
    {
      oldJiffie, ledToggle := 0, 0;
    }

    /** The handler, given what jiffies showed on its two readings; says whether it was accepted. */
    method GpioIrqHandler(first: nat, second: nat, ghost irq: Interrupt) returns (accepted: bool)
      requires Valid()
      requires first == irq.first % WORD32 && second == irq.second % WORD32
      modifies this
      ensures State() == Handle(old(State()), irq) && accepted == Accepts(old(State()), irq)
      ensures Valid()
    {
      var diff := (first - oldJiffie) % WORD32;
      if diff < QUIET_TIME {
        return false;
      }
      oldJiffie := second;
      ledToggle := if ledToggle == 0 then 1 else 0;
      accepted := true;
    }
  }
}
