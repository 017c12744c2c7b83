/** The flag between the interrupt handler and the thread, with no timing assumption at all: every
    completed frame is accounted for, and so is the number of digits printed. */
module DeferredHandshake {
  import opened EdgeTimer
  import opened InfraredDecoder
  import opened DeferredDecoder

  /** Frames completed, turns in which the thread went to decode, and completions that found the
      flag still raised. */
  datatype Tally = Tally(completed: nat, decoded: nat, lost: nat)

  const NONE := Tally(0, 0, 0)

  function Count(d: Deferred, a: Action): Tally
    requires d.Valid()
  {
    match a
    case Edge(t) =>
      if !EventAt(d.timing, t).FrameComplete? then NONE
      else if d.flag == 0 then Tally(1, 0, 0)
      else Tally(1, 0, 1)
    case Work => if d.phase == Woken && d.flag == 1 then Tally(0, 1, 0) else NONE
    case Register => NONE
  }

  function TallyOf(d: Deferred, schedule: seq<Action>): Tally
    requires d.Valid()
    decreases schedule
  {
    if schedule == [] then NONE
    else
      var now, later := Count(d, schedule[0]), TallyOf(Act(d, schedule[0]), schedule[1..]);
      Tally(now.completed + later.completed, now.decoded + later.decoded, now.lost + later.lost)
  }

  /** A raised flag the thread has not taken up yet is one frame owed. */
  function Owed(d: Deferred): nat {
    if d.flag == 1 && (d.phase == Waiting || d.phase == Woken) then 1 else 0
  }

  /** A frame taken up whose digit is not printed yet. */
  function InHand(d: Deferred): nat {
    if d.phase.Reading? || d.phase == Choosing || d.phase == Printing then 1 else 0
  }

  /** Completed frames are decoded, owed, or met a flag still raised. */
  lemma {:induction false} HandshakeConserved(d: Deferred, schedule: seq<Action>)
    requires FlagDiscipline(d)
    ensures var t := TallyOf(d, schedule);
            Owed(d) + t.completed == t.decoded + t.lost + Owed(Perform(d, schedule))
    decreases schedule
  {
    if schedule == [] {
    } else {
      HandshakeConserved(Act(d, schedule[0]), schedule[1..]);
    }
  }

  /** How many digits the deferred driver is behind the inline one, on every interleaving: the frame
      it has in hand, and one more for each completion that met a raised flag. */
  lemma {:induction false} DigitsBehind(d: Deferred, s: Decoder, schedule: seq<Action>, behind: nat)
    requires FlagDiscipline(d) && s.Valid() && d.timing == s.timing
    requires |s.log| == |d.log| + Owed(d) + InHand(d) + behind
    ensures var r := Perform(d, schedule);
            |Run(s, EdgesOf(schedule)).log| == |r.log| + Owed(r) + InHand(r) + behind + TallyOf(d, schedule).lost
    decreases schedule
  {
    if schedule == [] {
    } else {
      var a := schedule[0];
      DigitsBehind(Act(d, a), InlineAct(s, a), schedule[1..], behind + Count(d, a).lost);
      if a.Edge? {
        assert EdgesOf(schedule)[1..] == EdgesOf(schedule[1..]);
      }
    }
  }

  /** With the flag clear, as many digits are printed as the inline driver prints, if and only if no
      frame was completed while the flag was raised. This is about their number alone; which digits
      they are is what the deadlines of DeferredDecoder decide. */
  lemma NoDigitMissingIff(schedule: seq<Action>)
    requires Perform(LOADED, schedule).flag == 0
    ensures |Perform(LOADED, schedule).log| == |Run(INITIAL, EdgesOf(schedule)).log| <==>
            TallyOf(LOADED, schedule).lost == 0
  {
    FlagDisciplineKept(LOADED, schedule);
    DigitsBehind(LOADED, INITIAL, schedule, 0);
  }
}
