/** End to end: keys pressed on a remote control reach the registered process through the
    interrupt handler, the thread and the signal. */
module InfraredDelivery {
  import opened MachineWords
  import opened InfraredDecoder
  import opened InfraredStream
  import opened DeferredDecoder

  /** Over every harmless interleaving of the edges of a clean stream with thread steps, once the
      flag is clear the deferred driver has printed one digit per message, and has sent a registered
      process exactly these. */
  lemma MessagesDelivered(d: Deferred, s: Decoder, now: nat, ms: seq<Message>, schedule: seq<Action>)
    requires Refines(d, s) && d.flag == 0 && Invariant(s, now)
    requires AllClean(ms) && now + Duration(ms) < WORD64
    requires ms != [] ==> Synchronises(s.timing, now + ms[0].idle)
    requires EdgesOf(schedule) == Transmit(now, ms) && HarmlessSchedule(d, schedule)
    requires Perform(d, schedule).flag == 0
    ensures Perform(d, schedule).log == d.log + Meanings(ms, d.output)
    ensures d.registered ==> Perform(d, schedule).signals == d.signals + Meanings(ms, d.output)
  {
    DeferredRefinesInline(d, s, schedule);
    StreamRoundTrip(s, now, ms);
    if d.registered {
      FlagDisciplineKept(d, schedule);
      var sent := SignalsFollowLog(d, schedule);
      assert d.signals + Unsent(d) == d.signals;
      assert Perform(d, schedule).signals + Unsent(Perform(d, schedule)) == Perform(d, schedule).signals;
      assert sent == (d.log + sent)[|d.log|..] == Meanings(ms, d.output);
    }
  }

  /** The whole way from load: a process registers, and then is sent exactly the digits of the messages,
      which are also those printed. */
  lemma DeliveredFromLoad(ms: seq<Message>, schedule: seq<Action>)
    requires AllClean(ms) && Duration(ms) < WORD64 && EdgesOf(schedule) == Transmit(0, ms)
    requires HarmlessSchedule(LOADED, [Register] + schedule)
    requires Perform(LOADED, [Register] + schedule).flag == 0
    ensures var r := Perform(LOADED, [Register] + schedule);
            r.log == Meanings(ms, 0) && r.signals == Meanings(ms, 0)
  {
    assert ([Register] + schedule)[1..] == schedule;
    ActRefinesIff(LOADED, INITIAL, Register);
    MessagesDelivered(Act(LOADED, Register), INITIAL, 0, ms, schedule);
    var digits := RegisterThen(LOADED, schedule);
  }
}
