/** The ring and the state machines behind it. */
module CelerPipeline {
  import opened RingMachine
  import opened RingWords
  import Celer

  /** Whatever the interleaving of the two sides, and past any wrap of the counters: what celer
      sends is a beginning of what it would send had it been handed every event pushed. */
  lemma CelerSeesWhatAegisPushed(steps: seq<Step>)
    requires Legal(Wrapping, FRESH, steps) && Disciplined(1, steps, 0)
    ensures var os := Outcomes(Wrapping, FRESH, steps);
            Celer.RunOf(EventsPopped(os)).sent <= Celer.RunOf(EventsPushed(os)).sent
  {
    RingIsFifo(steps);
    var os := Outcomes(Wrapping, FRESH, steps);
    var popped, pushed := EventsPopped(os), EventsPushed(os);
    assert popped + pushed[|popped|..] == pushed;
    Celer.SentGrows(popped, pushed[|popped|..]);
  }
}
