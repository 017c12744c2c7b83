/** The front half of the infrared interrupt handlers: time stamps of falling edges, the gaps
    between them and the position in the frame. The three drivers share it unchanged. */
module EdgeTimer {
  import opened MachineWords

  const CAPTURES := 35
  const GAPS := 33
  const FRAME_EDGES := 34

  /** The u64 difference of two nanosecond stamps, which wraps, in whole microseconds. */
  function ElapsedUs(from: U64, to: U64): U64 {
    ((to - from) % WORD64) / 1000
  }

  predicate IsLeader(us: int) {
    13000 < us < 14000
  }

  predicate IsRepeat(us: int) {
    11000 < us < 12000
  }

  /** A gap that neither starts a frame nor repeats a key. */
  predicate IsQuiet(us: int) {
    !IsLeader(us) && !IsRepeat(us)
  }

  predicate IsZero(us: int) {
    1000 < us < 1500
  }

  predicate IsOne(us: int) {
    2000 < us < 2500
  }

  /** counter, capture_time_array and diff_time_us. */
  datatype Timing = Timing(counter: nat, captures: seq<U64>, gaps: seq<U64>) {
    predicate Valid() {
      counter < FRAME_EDGES && |captures| == CAPTURES && |gaps| == GAPS
    }
  }

  /** What one edge means to the rest of the handler. */
  datatype Event = Nothing | RepeatCode | FrameComplete

  const START: Timing := Timing(0, seq(CAPTURES, _ => 0), seq(GAPS, _ => 0))

  /** The gap that an edge at time t closes; only meaningful after a first edge. */
  function GapAt(tm: Timing, t: U64): U64
    requires tm.Valid() && tm.counter > 0
  {
    ElapsedUs(tm.captures[tm.counter - 1], t)
  }

  function EventAt(tm: Timing, t: U64): Event
    requires tm.Valid()
  {
    if tm.counter == 0 || IsLeader(GapAt(tm, t)) then Nothing
    else if IsRepeat(GapAt(tm, t)) then RepeatCode
    else if tm.counter + 1 == FRAME_EDGES then FrameComplete
    else Nothing
  }

  /** The stamps, gaps and position after an edge at time t. A leader gap puts the next gap in
      slot 1 whatever the position was; a repeat or a full frame goes back to slot 0. */
  function Capture(tm: Timing, t: U64): (r: Timing)
    requires tm.Valid()
    ensures r.Valid()
  {
    var captures := tm.captures[tm.counter := t];
    if tm.counter == 0 then Timing(1, captures, tm.gaps)
    else
      var us := GapAt(tm, t);
      var gaps := tm.gaps[tm.counter - 1 := us];
      var counter :=
        if IsLeader(us) then 2
        else if IsRepeat(us) || tm.counter + 1 == FRAME_EDGES then 0
        else tm.counter + 1;
      Timing(counter, captures, gaps)
  }

  /** The unsigned 64-bit difference, for any two stamps of 64 bits. */
  lemma ElapsedWraps(from: int, to: int)
    requires 0 <= from < 18446744073709551616 && 0 <= to < 18446744073709551616
    ensures ElapsedUs(from, to) == (if from <= to then to - from else to - from + 18446744073709551616) / 1000
  {
  }

  /** What every run with a monotone clock keeps: the stamps up to the position are in order and
      none is later than the last edge. */
  ghost predicate Ordered(tm: Timing, now: int) {
    && tm.Valid()
    && (forall i, j :: 0 <= i <= j < tm.counter ==> tm.captures[i] <= tm.captures[j])
    && (forall i :: 0 <= i < tm.counter ==> tm.captures[i] <= now)
  }

  /** The order of the stamps survives every edge, late leaders included, and the u64
      subtraction never wraps on the way. */
  lemma CaptureKeepsOrder(tm: Timing, now: int, t: U64)
    requires Ordered(tm, now) && now <= t
    ensures Ordered(Capture(tm, t), t)
    ensures tm.counter > 0 ==> GapAt(tm, t) == (t - tm.captures[tm.counter - 1]) / 1000
  {
    if tm.counter > 0 {
      var from := tm.captures[tm.counter - 1];
      assert 0 <= t - from < WORD64;
      assert (t - from) % WORD64 == t - from;
    }
  }

  /** An edge in nanoseconds of real time since the edge stored last: what it means, and the whole state
      after it. */
  lemma EdgeInNanoseconds(tm: Timing, now: int, t: U64)
    requires Ordered(tm, now) && now <= t
    ensures Capture(tm, t).captures == tm.captures[tm.counter := t]
    ensures tm.counter == 0 ==>
              EventAt(tm, t) == Nothing && Capture(tm, t).counter == 1 && Capture(tm, t).gaps == tm.gaps
    ensures tm.counter > 0 ==>
              var r, gap := Capture(tm, t), t - tm.captures[tm.counter - 1];
              && r.gaps == tm.gaps[tm.counter - 1 := gap / 1000]
              && (if 13001000 <= gap <= 13999999 then EventAt(tm, t) == Nothing && r.counter == 2
                  else if 11001000 <= gap <= 11999999 then EventAt(tm, t) == RepeatCode && r.counter == 0
                  else if tm.counter == 33 then EventAt(tm, t) == FrameComplete && r.counter == 0
                  else EventAt(tm, t) == Nothing && r.counter == tm.counter + 1)
  {
    CaptureKeepsOrder(tm, now, t);
  }
}
