/** The recognition stream end to end: what the endpoint writes, read by the
    page in whatever chunks the network delivers. */
module Pipeline {
  import opened Text
  import opened Events
  import opened Orchestrator
  import opened StreamClient

  /** However the body is cut into chunks, the page reacts to each event the
      endpoint sent, in order: progress updates first, then exactly one error
      or one table, and nothing after it. */
  lemma PageFollowsStream(n: nat, config: Config, outcomes: seq<Outcome>, consolidate: string -> Reply,
                          centis: nat, evs: seq<Event>, chunks: seq<string>)
    requires n > 0 && Settlements(outcomes, n)
    requires evs == StreamEvents(n, config, outcomes, consolidate, centis)
    requires Concat(chunks) == EncodeAll(evs)
    ensures var shown := HandleLines(Split(Concat(chunks), '\n'));
      shown == Reactions(evs)
      && |shown| >= 3
      && (forall i :: 0 <= i < |shown| - 1 ==> shown[i].ShowProgress?)
      && (Last(shown).ShowError? || Last(shown).ShowResults?)
  {
    StreamWellFormed(n, config, outcomes, consolidate, centis);
    StreamShape(n, config, outcomes, consolidate, centis);
    TerminatedShown(evs);
  }

  /** A terminated event sequence is shown as progress updates and then one
      error or one table. */
  lemma TerminatedShown(evs: seq<Event>)
    requires forall i :: 0 <= i < |evs| ==> EventWellFormed(evs[i])
    requires |evs| >= 3 && Terminated(evs)
    ensures var shown := HandleLines(Split(EncodeAll(evs), '\n'));
      shown == Reactions(evs)
      && |shown| >= 3
      && (forall i :: 0 <= i < |shown| - 1 ==> shown[i].ShowProgress?)
      && (Last(shown).ShowError? || Last(shown).ShowResults?)
  {
    BrowserSeesEvents(evs);
    TerminatedReactions(evs);
  }

  lemma TerminatedReactions(evs: seq<Event>)
    requires |evs| >= 3 && Terminated(evs)
    ensures var shown := Reactions(evs);
      (forall i :: 0 <= i < |shown| - 1 ==> shown[i].ShowProgress?)
      && (Last(shown).ShowError? || Last(shown).ShowResults?)
  {
    var init := evs[..|evs| - 1];
    assert forall i :: 0 <= i < |init| ==> init[i].Progress?;
  }
}
