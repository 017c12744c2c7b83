/** PWM by a high-resolution timer whose on and off times come from a duty that a second, slower
    timer keeps changing: one LED channel, one servo channel, and a driver that runs both. */
module TimerPwm {
  import opened IntMath
  import opened Sequences

  /** The shortest interval of the timer, in nanoseconds. */
  const RESOLUTION := 1

  /** Unit of time in nanoseconds, the duties low..high - 1, and the length of a cycle in units. */
  datatype Config = Config(unit: int, low: int, high: int, total: int) {
    predicate Valid() {
      unit > RESOLUTION && 0 < low < high <= total
    }
  }

  const LED := Config(100000, 1, 99, 99)
  const SERVO := Config(16000, 44, 144, 1250)

  /** A change of the pin: its level, when the timer was due, the duty then in force, how late the
      callback ran and how many duty steps had been begun by then. */
  datatype PinEdge = PinEdge(high: bool, due: int, duty: int, late: nat, steps: nat)

  /** `wrapping` says that the duty was incremented and is still to be compared with its limit;
      `edges` and `steps` record the history. */
  datatype Channel =
    Channel(flag: bool, duty: int, wrapping: bool, due: int, edges: seq<PinEdge>, steps: nat)

  /** The timer was started one unit ahead. */
  function Started(c: Config): Channel {
    Channel(true, c.low, false, c.unit, [], 0)
  }

  datatype Event =
    | Expire(late: nat)  // the timer callback, so long after it was due
    | DutyStep           // the next statement of the slower timer's function

  /** How far hrtimer_forward_now moves the expiry: whole intervals, up to the first in the future. */
  function Forward(interval: int, late: nat): int
    requires interval > 0
  {
    interval * (1 + late / interval)
  }

  /** hrtimer_forward_now takes an interval below the resolution for the resolution. */
  function Granted(ns: int): (interval: int)
    ensures interval >= RESOLUTION
  {
    if ns < RESOLUTION then RESOLUTION else ns
  }

  function Interval(c: Config, high: bool, duty: int): (interval: int)
    ensures interval >= RESOLUTION
  {
    Granted(c.unit * if high then duty else c.total - duty)
  }

  /** The limit itself is a duty for a moment, between the increment and the comparison. */
  predicate InRange(c: Config, ch: Channel) {
    c.low <= ch.duty <= c.high && (ch.duty == c.high ==> ch.wrapping)
  }

  function OnExpire(c: Config, ch: Channel, late: nat): (r: Channel)
    requires c.Valid() && InRange(c, ch)
    ensures InRange(c, r)
  {
    Channel(!ch.flag, ch.duty, ch.wrapping, ch.due + Forward(Interval(c, ch.flag, ch.duty), late),
            ch.edges + [PinEdge(ch.flag, ch.due, ch.duty, late, ch.steps)], ch.steps)
  }

  function OnDutyStep(c: Config, ch: Channel): (r: Channel)
    requires c.Valid() && InRange(c, ch)
    ensures InRange(c, r)
  {
    if ch.wrapping then ch.(duty := if ch.duty == c.high then c.low else ch.duty, wrapping := false)
    else ch.(duty := ch.duty + 1, wrapping := true, steps := ch.steps + 1)
  }

  function On(c: Config, ch: Channel, e: Event): (r: Channel)
    requires c.Valid() && InRange(c, ch)
    ensures InRange(c, r)
  {
    match e
    case Expire(late) => OnExpire(c, ch, late)
    case DutyStep => OnDutyStep(c, ch)
  }

  function Run(c: Config, ch: Channel, events: seq<Event>): (r: Channel)
    requires c.Valid() && InRange(c, ch)
    ensures InRange(c, r)
    decreases events
  {
    if events == [] then ch else Run(c, On(c, ch, events[0]), events[1..])
  }

  /** The duty after so many steps: a sawtooth, but for the limit seen in the middle of a step. */
  predicate DutyAfter(c: Config, steps: nat, duty: int)
    requires c.Valid()
  {
    duty == c.low + steps % (c.high - c.low) || (duty == c.high && steps % (c.high - c.low) == 0)
  }

  /** Phase i is as the rest of the channel says: it alternates, its duty is that of the steps begun
      so far, and the next edge is due when its interval asks for, or whole intervals later. */
  ghost predicate EdgeFits(c: Config, ch: Channel, i: nat)
    requires c.Valid() && i < |ch.edges|
  {
    var e := ch.edges[i];
    var next := if i + 1 < |ch.edges| then ch.edges[i + 1].due else ch.due;
    && e.high == (i % 2 == 0)
    && c.low <= e.duty <= c.high
    && DutyAfter(c, e.steps, e.duty)
    && next == e.due + Forward(Interval(c, e.high, e.duty), e.late)
  }

  /** What every interleaving keeps: the pin changes level every time and is low exactly while the
      flag is set; the duty is a function of the number of steps and of the place within a step; and
      every phase lasts as long as its duty asks for, or longer by whole intervals if a callback was
      that late. */
  ghost predicate History(c: Config, ch: Channel) {
    && c.Valid() && InRange(c, ch)
    && ch.duty == (if ch.wrapping && ch.steps % (c.high - c.low) == 0 then c.high
                   else c.low + ch.steps % (c.high - c.low))
    && ch.flag == (|ch.edges| % 2 == 0)
    && (forall i :: 0 <= i < |ch.edges| ==> EdgeFits(c, ch, i))
  }

  lemma WrapStep(steps: nat, n: int)
    requires n > 0
    ensures (steps + 1) % n == if steps % n + 1 == n then 0 else steps % n + 1
  {
    var q, r := steps / n, steps % n;
    assert steps == n * q + r;
    if r + 1 == n {
      assert steps + 1 == n * (q + 1);
      ModUnique(steps + 1, n, q + 1, 0);
    } else {
      ModUnique(steps + 1, n, q, r + 1);
    }
  }

  lemma OldEdgeFits(c: Config, ch: Channel, late: nat, i: nat)
    requires c.Valid() && InRange(c, ch) && i < |ch.edges| && EdgeFits(c, ch, i)
    ensures EdgeFits(c, OnExpire(c, ch, late), i)
  {
    var edges := OnExpire(c, ch, late).edges;
    assert edges[i] == ch.edges[i] && edges[|ch.edges|].due == ch.due;
  }

  lemma NewEdgeFits(c: Config, ch: Channel, late: nat)
    requires History(c, ch)
    ensures EdgeFits(c, OnExpire(c, ch, late), |ch.edges|)
  {
    assert OnExpire(c, ch, late).edges[|ch.edges|] == PinEdge(ch.flag, ch.due, ch.duty, late, ch.steps);
  }

  lemma ExpireKeepsHistory(c: Config, ch: Channel, late: nat)
    requires History(c, ch)
    ensures History(c, OnExpire(c, ch, late))
  {
    var r := OnExpire(c, ch, late);
    forall i | 0 <= i < |r.edges| ensures EdgeFits(c, r, i) {
      if i < |ch.edges| {
        OldEdgeFits(c, ch, late, i);
      } else {
        NewEdgeFits(c, ch, late);
      }
    }
  }

  lemma StepKeepsHistory(c: Config, ch: Channel)
    requires History(c, ch)
    ensures History(c, OnDutyStep(c, ch))
  {
    var r := OnDutyStep(c, ch);
    WrapStep(ch.steps, c.high - c.low);
    forall i | 0 <= i < |r.edges| ensures EdgeFits(c, r, i) {
      assert EdgeFits(c, ch, i);
    }
  }

  lemma {:induction false} RunKeepsHistory(c: Config, ch: Channel, events: seq<Event>)
    requires History(c, ch)
    ensures History(c, Run(c, ch, events))
    decreases events
  {
    if events == [] {
    } else {
      match events[0] {
        case Expire(late) => ExpireKeepsHistory(c, ch, late);
        case DutyStep => StepKeepsHistory(c, ch);
      }
      RunKeepsHistory(c, On(c, ch, events[0]), events[1..]);
    }
  }

  /** The latenesses of the callbacks, in order. */
  function Lates(events: seq<Event>): seq<nat> {
    if events == [] then []
    else if events[0].Expire? then [events[0].late] + Lates(events[1..])
    else Lates(events[1..])
  }

  function LatesOf(edges: seq<PinEdge>): (lates: seq<nat>)
    ensures |lates| == |edges|
  {
    seq(|edges|, i requires 0 <= i < |edges| => edges[i].late)
  }

  /** When the first callback is due, past or to come. */
  function FirstDue(ch: Channel): int {
    if ch.edges == [] then ch.due else ch.edges[0].due
  }

  /** One edge for each callback, as late as that was; the first due one unit after the start; and two
      statements to a step of the duty. */
  lemma {:induction false} EventsRecorded(c: Config, ch: Channel, events: seq<Event>)
    requires c.Valid() && InRange(c, ch)
    ensures var r := Run(c, ch, events);
            && LatesOf(r.edges) == LatesOf(ch.edges) + Lates(events) && FirstDue(r) == FirstDue(ch)
            && 2 * r.steps - (if r.wrapping then 1 else 0)
            == 2 * ch.steps - (if ch.wrapping then 1 else 0) + |events| - |Lates(events)|
    decreases events
  {
    if events == [] {
    } else {
      var ch' := On(c, ch, events[0]);
      EventsRecorded(c, ch', events[1..]);
      if events[0].Expire? {
        assert LatesOf(ch'.edges) == LatesOf(ch.edges) + [events[0].late];
        Reassociate(LatesOf(ch.edges), [events[0].late], Lates(events[1..]));
      } else {
        assert LatesOf(ch'.edges) == LatesOf(ch.edges);
      }
    }
  }

  /** From the start of the driver. */
  lemma EveryRun(c: Config, events: seq<Event>)
    requires c.Valid()
    ensures var r := Run(c, Started(c), events);
            && History(c, r) && LatesOf(r.edges) == Lates(events) && FirstDue(r) == c.unit
            && r.steps == (|events| - |Lates(events)| + 1) / 2
  {
    RunKeepsHistory(c, Started(c), events);
    EventsRecorded(c, Started(c), events);
    assert LatesOf(Started(c).edges) + Lates(events) == Lates(events);
  }

  /** The expiry moves by the fewest whole intervals that take it past the moment of the callback. */
  lemma ForwardPastNow(interval: int, late: nat, k: nat)
    requires interval > 0
    ensures late < Forward(interval, late) <= late + interval
    ensures Forward(interval, late) == interval * k <==> interval * (k - 1) <= late < interval * k
  {
    var q := late / interval;
    assert late == interval * q + late % interval;
    assert Forward(interval, late) == interval * q + interval;
    assert interval * (k - 1) == interval * k - interval;
    AtLeastOnce(k - q - 1, interval);
    AtLeastOnce(q + 1 - k, interval);
    assert interval * (k - q - 1) == interval * k - interval * q - interval;
    assert interval * (q + 1 - k) == -(interval * (k - q - 1));
  }

  /** A callback later than one interval, and only such a callback, stretches its phase. */
  lemma ForwardExactIff(interval: int, late: nat)
    requires interval > 0
    ensures Forward(interval, late) >= interval
    ensures Forward(interval, late) == interval <==> late < interval
  {
    var q := late / interval;
    assert late == interval * q + late % interval;
    assert Forward(interval, late) == interval + interval * q;
    if q >= 1 {
      AtLeastOnce(q, interval);
    }
  }

  /** The callback ran less than one interval late. Nothing is asked of one that met a low phase of
      no time at all: it is always late. */
  predicate OnTime(c: Config, e: PinEdge) {
    e.high || e.duty < c.total ==> e.late < Interval(c, e.high, e.duty)
  }

  /** What a low phase that asks for no time at all takes: its callback's lateness, and one unit of
      the timer's resolution. */
  function Void(c: Config, e: PinEdge): int {
    if e.duty == c.total then RESOLUTION + e.late else 0
  }

  lemma IntervalLength(c: Config, high: bool, duty: int)
    requires c.Valid() && c.low <= duty <= c.high
    ensures high || duty < c.total ==> Interval(c, high, duty) == c.unit * (if high then duty else c.total - duty)
    ensures !high && duty == c.total ==> Interval(c, high, duty) == RESOLUTION
  {
    if high || duty < c.total {
      AtLeastOnce(if high then duty else c.total - duty, c.unit);
    }
  }

  /** One phase of the pin, high or low, ended by the next edge. */
  lemma Phase(c: Config, ch: Channel, i: nat)
    requires History(c, ch) && i + 1 < |ch.edges| && OnTime(c, ch.edges[i])
    ensures var e, next := ch.edges[i], ch.edges[i + 1];
            && e.high == (i % 2 == 0) && c.low <= e.duty <= c.high
            && next.due - e.due == if e.high then c.unit * e.duty else c.unit * (c.total - e.duty) + Void(c, e)
  {
    var e := ch.edges[i];
    assert EdgeFits(c, ch, i);
    IntervalLength(c, e.high, e.duty);
    if e.high || e.duty < c.total {
      ForwardExactIff(Interval(c, e.high, e.duty), e.late);
    }
  }

  lemma Cancel(unit: int, total: int, change: int)
    requires unit > 0
    ensures unit * (total + change) == unit * total + unit * change
    ensures unit * change == 0 <==> change == 0
  {
    if change >= 1 {
      AtLeastOnce(change, unit);
    } else if change <= -1 {
      AtLeastOnce(-change, unit);
      assert unit * -change == -(unit * change);
    }
  }

  lemma AddPhases(unit: int, total: int, rise: int, fall: int)
    ensures unit * rise + unit * (total - fall) == unit * (total + rise - fall)
    ensures unit * (total - rise) == unit * total - unit * rise
  {
  }

  /** A cycle, from one rise to the next, lasts `total` units plus the duty at the rise less the
      duty at the fall, and what a low phase of no time takes. It lasts exactly `total` units if and
      only if the duty is the same at both, or, when the low phase asks for no time, its callback is
      late by just what is missing. Nothing is assumed of any other cycle. */
  lemma CycleLength(c: Config, ch: Channel, i: nat)
    requires History(c, ch) && i % 2 == 0 && i + 2 < |ch.edges|
    requires OnTime(c, ch.edges[i]) && OnTime(c, ch.edges[i + 1])
    ensures var rise, fall, next := ch.edges[i], ch.edges[i + 1], ch.edges[i + 2];
            && rise.high && !fall.high && next.high
            && fall.due - rise.due == c.unit * rise.duty
            && next.due - fall.due == c.unit * (c.total - fall.duty) + Void(c, fall)
            && next.due - rise.due == c.unit * (c.total + rise.duty - fall.duty) + Void(c, fall)
            && (next.due - rise.due == c.unit * c.total <==>
                if fall.duty < c.total then rise.duty == fall.duty
                else RESOLUTION + fall.late == c.unit * (c.total - rise.duty))
  {
    Phase(c, ch, i);
    Phase(c, ch, i + 1);
    assert EdgeFits(c, ch, i + 2);
    var rise, fall := ch.edges[i], ch.edges[i + 1];
    AddPhases(c.unit, c.total, rise.duty, fall.duty);
    Cancel(c.unit, c.total, rise.duty - fall.duty);
  }

  lemma SameRemainderIff(a: int, b: int, n: int)
    requires n > 0
    ensures a % n == b % n <==> (b - a) % n == 0
  {
    assert a == n * (a / n) + a % n && b == n * (b / n) + b % n;
    if a % n == b % n {
      assert b - a == n * (b / n - a / n);
      ModUnique(b - a, n, b / n - a / n, 0);
    } else if (b - a) % n == 0 {
      assert b - a == n * ((b - a) / n);
      assert b == n * (a / n + (b - a) / n) + a % n;
      ModUnique(b, n, a / n + (b - a) / n, a % n);
    }
  }

  /** Two edges have the same duty if and only if the steps in between are a multiple of the range of
      the duty, except where one of them met the limit in the middle of a step. */
  lemma SameDutyIff(c: Config, ch: Channel, i: nat, j: nat)
    requires History(c, ch) && i < |ch.edges| && j < |ch.edges|
    ensures var a, b := ch.edges[i], ch.edges[j];
            a.duty == b.duty <==>
            (b.steps - a.steps) % (c.high - c.low) == 0 && (a.duty == c.high <==> b.duty == c.high)
  {
    assert EdgeFits(c, ch, i) && EdgeFits(c, ch, j);
    SameRemainderIff(ch.edges[i].steps, ch.edges[j].steps, c.high - c.low);
  }

  /** The duties at the rises less the duties at the falls of the first n cycles. */
  function NetChange(edges: seq<PinEdge>, n: nat): int
    requires 2 * n <= |edges|
  {
    if n == 0 then 0 else NetChange(edges, n - 1) + edges[2 * n - 2].duty - edges[2 * n - 1].duty
  }

  /** What the void low phases among the first n take. */
  function Voids(c: Config, edges: seq<PinEdge>, n: nat): int
    requires 2 * n <= |edges|
  {
    if n == 0 then 0 else Voids(c, edges, n - 1) + Void(c, edges[2 * n - 1])
  }

  lemma AddUp(unit: int, total: int, n: nat, net: int, change: int)
    requires n > 0
    ensures unit * ((n - 1) * total + net) + unit * (total + change) == unit * (n * total + net + change)
  {
    assert (n - 1) * total + total == n * total;
  }

  /** The first n cycles together. */
  lemma {:induction false} CyclesLength(c: Config, ch: Channel, n: nat)
    requires History(c, ch) && 2 * n < |ch.edges|
    requires forall i :: 0 <= i < 2 * n ==> OnTime(c, ch.edges[i])
    ensures ch.edges[2 * n].due - ch.edges[0].due
         == c.unit * (n * c.total + NetChange(ch.edges, n)) + Voids(c, ch.edges, n)
  {
    if n == 0 {
    } else {
      CyclesLength(c, ch, n - 1);
      CycleLength(c, ch, 2 * n - 2);
      var net, change := NetChange(ch.edges, n - 1), ch.edges[2 * n - 2].duty - ch.edges[2 * n - 1].duty;
      AddUp(c.unit, c.total, n, net, change);
    }
  }

  /** A servo pulse whose callback is on time lasts 704 us and 16 us more for each step begun, up to
      2288 us and then from 704 us again; or 2304 us, exactly when that callback came in the middle of the
      step at the limit. */
  lemma ServoPulse(events: seq<Event>, i: nat)
    requires var ch := Run(SERVO, Started(SERVO), events);
             i % 2 == 0 && i + 1 < |ch.edges| && OnTime(SERVO, ch.edges[i])
    ensures var ch := Run(SERVO, Started(SERVO), events);
            var pulse := ch.edges[i + 1].due - ch.edges[i].due;
            && ch.edges[i].high
            && (if ch.edges[i].duty == 144 then pulse == 2304000 && ch.edges[i].steps % 100 == 0
                else pulse == 704000 + 16000 * (ch.edges[i].steps % 100) <= 2288000)
  {
    EveryRun(SERVO, events);
    var ch := Run(SERVO, Started(SERVO), events);
    Phase(SERVO, ch, i);
    assert EdgeFits(SERVO, ch, i);
  }

  /** A servo cycle whose two callbacks are on time takes 20 ms exactly when the duty is the same at
      its rise and its fall. */
  lemma ServoCycle(events: seq<Event>, i: nat)
    requires var ch := Run(SERVO, Started(SERVO), events);
             i % 2 == 0 && i + 2 < |ch.edges| && OnTime(SERVO, ch.edges[i]) && OnTime(SERVO, ch.edges[i + 1])
    ensures var ch := Run(SERVO, Started(SERVO), events);
            ch.edges[i + 2].due - ch.edges[i].due == 20000000 <==> ch.edges[i].duty == ch.edges[i + 1].duty
  {
    EveryRun(SERVO, events);
    var ch := Run(SERVO, Started(SERVO), events);
    CycleLength(SERVO, ch, i);
    assert EdgeFits(SERVO, ch, i + 1);
  }

  /** The LED is on for 100 us and 100 us more for each step begun, up to 9800 us and then from 100 us
      again; or for 9900 us, when the callback comes in the middle of the step at the limit. */
  lemma LedOnTime(events: seq<Event>, i: nat)
    requires var ch := Run(LED, Started(LED), events);
             i % 2 == 0 && i + 1 < |ch.edges| && OnTime(LED, ch.edges[i])
    ensures var ch := Run(LED, Started(LED), events);
            var rise, on := ch.edges[i], ch.edges[i + 1].due - ch.edges[i].due;
            && rise.high
            && (if rise.duty == 99 then on == 9900000 && rise.steps % 98 == 0
                else on == 100000 + 100000 * (rise.steps % 98) <= 9800000)
  {
    EveryRun(LED, events);
    var ch := Run(LED, Started(LED), events);
    Phase(LED, ch, i);
    assert EdgeFits(LED, ch, i);
  }

  /** However late its callbacks run, the LED is off for at least 100 us of a cycle, unless the
      callback that turns it off comes in the middle of the step at the limit: then it is off for just
      as long as that callback was late, and one nanosecond. */
  lemma LedOffTime(events: seq<Event>, i: nat)
    requires i % 2 == 1 && i + 1 < |Run(LED, Started(LED), events).edges|
    ensures var ch := Run(LED, Started(LED), events);
            var fall, off := ch.edges[i], ch.edges[i + 1].due - ch.edges[i].due;
            && !fall.high
            && (if fall.duty == 99 then off == 1 + fall.late else off >= 100000 * (99 - fall.duty) >= 100000)
            && (OnTime(LED, fall) && fall.duty < 99 ==> off == 100000 * (99 - fall.duty))
  {
    EveryRun(LED, events);
    var ch := Run(LED, Started(LED), events);
    var fall := ch.edges[i];
    assert EdgeFits(LED, ch, i);
    IntervalLength(LED, false, fall.duty);
    ForwardExactIff(Interval(LED, false, fall.duty), fall.late);
  }

  lemma {:induction false} RunConcat(c: Config, ch: Channel, a: seq<Event>, b: seq<Event>)
    requires c.Valid() && InRange(c, ch)
    ensures Run(c, ch, a + b) == Run(c, Run(c, ch, a), b)
    decreases a
  {
    if a == [] {
      assert a + b == b;
    } else {
      assert (a + b)[1..] == a[1..] + b;
      RunConcat(c, On(c, ch, a[0]), a[1..], b);
    }
  }

  /** k whole steps of the duty, short of the limit. */
  lemma {:induction false} DutyRises(c: Config, ch: Channel, k: nat)
    requires c.Valid() && InRange(c, ch) && !ch.wrapping && ch.duty + k < c.high
    ensures Run(c, ch, Copies(DutyStep, 2 * k)) == ch.(duty := ch.duty + k, steps := ch.steps + k)
    decreases k
  {
    if k == 0 {
    } else {
      CopiesUnfold(DutyStep, 2 * k);
      CopiesUnfold(DutyStep, 2 * k - 1);
      DutyRises(c, ch.(duty := ch.duty + 1, steps := ch.steps + 1), k - 1);
    }
  }

  /** A run of the LED driver with a low phase of no time, its callback as late as may be: k is 97,
      the whole steps up to 98, pinned so that the definition of Run is unfolded at a variable. */
  lemma VoidIsReachable(k: nat, late: nat) returns (events: seq<Event>)
    requires k == 97
    ensures var ch := Run(LED, Started(LED), events);
            |ch.edges| == 3 && ch.edges[1].duty == 99 && ch.edges[2].due - ch.edges[1].due == 1 + late
  {
    var last := [DutyStep, Expire(0), Expire(late), Expire(0)];
    events := Copies(DutyStep, 2 * k) + last;
    DutyRises(LED, Started(LED), k);
    var ch := Started(LED).(duty := 98, steps := 97);
    RunConcat(LED, Started(LED), Copies(DutyStep, 2 * k), last);
    var two, one := [Expire(late), Expire(0)], [Expire(0)];
    assert last[1..] == [Expire(0)] + two && last[1..][1..] == two && two[1..] == one && one[1..] == [];
    var stepped := OnDutyStep(LED, ch);
    var risen := OnExpire(LED, stepped, 0);
    var fallen := OnExpire(LED, risen, late);
    assert Run(LED, ch, last) == Run(LED, stepped, last[1..]) == Run(LED, risen, two);
    assert Run(LED, risen, two) == Run(LED, fallen, one) == OnExpire(LED, fallen, 0);
    LedOffTime(events, 1);
  }

  /* ---------------- two channels ---------------- */

  datatype Pair = Pair(led: Channel, servo: Channel)

  datatype PairEvent = OnLed(e: Event) | OnServo(e: Event)

  function RunPair(p: Pair, events: seq<PairEvent>): Pair
    requires InRange(LED, p.led) && InRange(SERVO, p.servo)
    decreases events
  {
    if events == [] then p
    else match events[0]
      case OnLed(e) => RunPair(p.(led := On(LED, p.led, e)), events[1..])
      case OnServo(e) => RunPair(p.(servo := On(SERVO, p.servo, e)), events[1..])
  }

  function LedEvents(events: seq<PairEvent>): seq<Event> {
    if events == [] then []
    else if events[0].OnLed? then [events[0].e] + LedEvents(events[1..])
    else LedEvents(events[1..])
  }

  function ServoEvents(events: seq<PairEvent>): seq<Event> {
    if events == [] then []
    else if events[0].OnServo? then [events[0].e] + ServoEvents(events[1..])
    else ServoEvents(events[1..])
  }

  /** Independence: each channel of the combined driver runs as its own driver would on its own
      events, whatever the interleaving. */
  lemma {:induction false} Projection(p: Pair, events: seq<PairEvent>)
    requires InRange(LED, p.led) && InRange(SERVO, p.servo)
    ensures RunPair(p, events)
         == Pair(Run(LED, p.led, LedEvents(events)), Run(SERVO, p.servo, ServoEvents(events)))
    decreases events
  {
    if events == [] {
    } else {
      match events[0]
      case OnLed(e) =>
        assert LedEvents(events)[1..] == LedEvents(events[1..]);
        Projection(p.(led := On(LED, p.led, e)), events[1..]);
      case OnServo(e) =>
        assert ServoEvents(events)[1..] == ServoEvents(events[1..]);
        Projection(p.(servo := On(SERVO, p.servo, e)), events[1..]);
    }
  }

  /* ---------------- the drivers ---------------- */

  /** The single-channel drivers: the LED's with config LED, the servo's with config SERVO. */
  class PwmDriver {
    const config: Config
    var flag: bool
    var duty: int
    var due: int
    ghost var history: Channel  // with what the globals do not hold

    ghost predicate Valid()
      reads this
    {
      config.Valid() && InRange(config, history) && history.flag == flag && history.duty == duty && history.due == due
    }

    constructor (config: Config)
      requires config.Valid()
      ensures Valid() && this.config == config && history == Started(config)
    {
      this.config := config;
      flag, duty, due, history := true, config.low, config.unit, Started(config);
    }

    /** The timer callback; returns the level it sets the pin to. */
    method TimerCallback(late: nat) returns (high: bool)
      requires Valid()
      modifies this
      ensures Valid() && high == old(flag) && history == OnExpire(config, old(history), late)
    {
      history := OnExpire(config, history, late);
      high := flag;
      if flag {
        due := due + Forward(Granted(config.unit * duty), late);
        flag := false;
      } else {
        due := due + Forward(Granted(config.unit * (config.total - duty)), late);
        flag := true;
      }
    }

    method IncrementDuty()
      requires Valid() && !history.wrapping
      modifies this
      ensures Valid() && history == OnDutyStep(config, old(history))
    {
      history := OnDutyStep(config, history);
      duty := duty + 1;
    }

    method WrapDuty()
      requires Valid() && history.wrapping
      modifies this
      ensures Valid() && history == OnDutyStep(config, old(history))
    {
      history := OnDutyStep(config, history);
      if duty == config.high {
        duty := config.low;
      }
    }

    /** The slower timer's function, when no callback comes between its two statements. */
    method KernelTimerFunc()
      requires Valid() && !history.wrapping
      modifies this
      ensures Valid() && history == OnDutyStep(config, OnDutyStep(config, old(history)))
    {
      IncrementDuty();
      WrapDuty();
    }
  }

  /** The combined driver: two flags, two duties and two timers side by side. */
  class ServoLedDriver {
    var ledFlag: bool
    var ledDuty: int
    var ledDue: int
    var servoFlag: bool
    var servoDuty: int
    var servoDue: int
    ghost var history: Pair

    ghost predicate Valid()
      reads this
    {
      && InRange(LED, history.led) && InRange(SERVO, history.servo)
      && history.led.flag == ledFlag && history.led.duty == ledDuty && history.led.due == ledDue
      && history.servo.flag == servoFlag && history.servo.duty == servoDuty && history.servo.due == servoDue
    }

    constructor ()
      ensures Valid() && history == Pair(Started(LED), Started(SERVO))
    {
      ledFlag, ledDuty, ledDue := true, 1, 100000;
      servoFlag, servoDuty, servoDue := true, 44, 16000;
      history := Pair(Started(LED), Started(SERVO));
    }

    method LedTimerCallback(late: nat) returns (high: bool)
      requires Valid()
      modifies this
      ensures Valid() && high == old(ledFlag)
      ensures history == old(history).(led := OnExpire(LED, old(history).led, late))
    {
      history := history.(led := OnExpire(LED, history.led, late));
      high := ledFlag;
      if ledFlag {
        ledFlag := false;
        ledDue := ledDue + Forward(Granted(100000 * ledDuty), late);
      } else {
        ledDue := ledDue + Forward(Granted(100000 * (99 - ledDuty)), late);
        ledFlag := true;
      }
    }

    method TimerCallback(late: nat) returns (high: bool)
      requires Valid()
      modifies this
      ensures Valid() && high == old(servoFlag)
      ensures history == old(history).(servo := OnExpire(SERVO, old(history).servo, late))
    {
      history := history.(servo := OnExpire(SERVO, history.servo, late));
      high := servoFlag;
      if servoFlag {
        servoDue := servoDue + Forward(Granted(16000 * servoDuty), late);
        servoFlag := false;
      } else {
        servoDue := servoDue + Forward(Granted(16000 * (1250 - servoDuty)), late);
        servoFlag := true;
      }
    }

    method IncrementLedDuty()
      requires Valid() && !history.led.wrapping
      modifies this
      ensures Valid() && history == old(history).(led := OnDutyStep(LED, old(history).led))
    {
      history := history.(led := OnDutyStep(LED, history.led));
      ledDuty := ledDuty + 1;
    }

    method WrapLedDuty()
      requires Valid() && history.led.wrapping
      modifies this
      ensures Valid() && history == old(history).(led := OnDutyStep(LED, old(history).led))
    {
      history := history.(led := OnDutyStep(LED, history.led));
      if ledDuty == 99 {
        ledDuty := 1;
      }
    }

    method KernelTimerLedFunc()
      requires Valid() && !history.led.wrapping
      modifies this
      ensures Valid() && history == old(history).(led := OnDutyStep(LED, OnDutyStep(LED, old(history).led)))
    {
      IncrementLedDuty();
      WrapLedDuty();
    }

    method IncrementServoDuty()
      requires Valid() && !history.servo.wrapping
      modifies this
      ensures Valid() && history == old(history).(servo := OnDutyStep(SERVO, old(history).servo))
    {
      history := history.(servo := OnDutyStep(SERVO, history.servo));
      servoDuty := servoDuty + 1;
    }

    method WrapServoDuty()
      requires Valid() && history.servo.wrapping
      modifies this
      ensures Valid() && history == old(history).(servo := OnDutyStep(SERVO, old(history).servo))
    {
      history := history.(servo := OnDutyStep(SERVO, history.servo));
      if servoDuty == 144 {
        servoDuty := 44;
      }
    }

    method ServoKernelTimerFunc()
      requires Valid() && !history.servo.wrapping
      modifies this
      ensures Valid() && history == old(history).(servo := OnDutyStep(SERVO, OnDutyStep(SERVO, old(history).servo)))
    {
      IncrementServoDuty();
      WrapServoDuty();
    }
  }
}
