/** The statistics bookkeeping of the lazy GBFS event handlers
    (`EventHandlerBase`): every event updates the counters the same way
    whether the handler is quiet or not; a quiet handler only skips the
    callback of its concrete handler. The clock is a parameter of the
    events that read it. */
module EventHandlers {
  import opened Wrappers

  /** The search statistics: counters and the recorded time points. */
  datatype Statistics = Statistics(numExpanded: nat, numGenerated: nat, numPruned: nat, searchStart: Option<int>, searchEnd: Option<int>)

  function FreshStatistics(): Statistics {
    Statistics(0, 0, 0, None, None)
  }

  datatype Event =
    | ExpandNode
    | ExpandGoalNode
    | GenerateNode
    | PruneNode
    | StartSearch(now: int)
    | NewBestHValue
    | EndSearch(now: int)
    | Solved
    | Unsolvable
    | Exhausted

  /** A handler: its statistics, whether it is quiet, and the events its
      concrete handler's callbacks were invoked for. */
  datatype Handler = Handler(statistics: Statistics, quiet: bool, callbacks: seq<Event>)

  /** The statistics after one event. */
  function Count(s: Statistics, e: Event): Statistics {
    match e
    case ExpandNode => s.(numExpanded := s.numExpanded + 1)
    case GenerateNode => s.(numGenerated := s.numGenerated + 1)
    case PruneNode => s.(numPruned := s.numPruned + 1)
    case StartSearch(now) => FreshStatistics().(searchStart := Some(now))
    case EndSearch(now) => s.(searchEnd := Some(now))
    case _ => s
  }

  /** `on_*`: the statistics are updated, then the concrete callback runs
      unless the handler is quiet. */
  function Handle(h: Handler, e: Event): (r: Handler)
    ensures r.quiet == h.quiet
    ensures h.quiet ==> r.callbacks == h.callbacks
    ensures !h.quiet ==> r.callbacks == h.callbacks + [e]
    ensures e.ExpandNode? ==> r.statistics.numExpanded == h.statistics.numExpanded + 1
    ensures e.GenerateNode? ==> r.statistics.numGenerated == h.statistics.numGenerated + 1
    ensures e.PruneNode? ==> r.statistics.numPruned == h.statistics.numPruned + 1
    ensures e.StartSearch? ==> r.statistics == Statistics(0, 0, 0, Some(e.now), None)
    ensures !e.StartSearch? && !e.EndSearch? ==> r.statistics.searchStart == h.statistics.searchStart && r.statistics.searchEnd == h.statistics.searchEnd
    ensures e.ExpandGoalNode? || e.NewBestHValue? || e.Solved? || e.Unsolvable? || e.Exhausted? ==> r.statistics == h.statistics
  {
    Handler(Count(h.statistics, e), h.quiet, if h.quiet then h.callbacks else h.callbacks + [e])
  }

  /** A run of events. */
  function Run(h: Handler, events: seq<Event>): (r: Handler)
    ensures r.quiet == h.quiet
    decreases |events|
  {
    if |events| == 0 then h else Handle(Run(h, events[..|events| - 1]), events[|events| - 1])
  }

  /** The number of occurrences of an event kind. */
  function Occurrences(events: seq<Event>, kind: Event -> bool): nat
    decreases |events|
  {
    if |events| == 0 then 0
    else Occurrences(events[..|events| - 1], kind) + (if kind(events[|events| - 1]) then 1 else 0)
  }

  predicate IsExpand(e: Event) { e.ExpandNode? }
  predicate IsGenerate(e: Event) { e.GenerateNode? }
  predicate IsPrune(e: Event) { e.PruneNode? }

  /** A run extended by one event is the run followed by that event. */
  lemma RunSnoc(h: Handler, events: seq<Event>, e: Event)
    ensures Run(h, events + [e]) == Handle(Run(h, events), e)
  {
    assert (events + [e])[..|events|] == events;
  }

  /** After a run that starts with a start of the search (and has no other
      start), every counter is the number of its events: node expansions,
      generations and prunings are counted exactly once each. */
  lemma {:induction false} RunCounts(h: Handler, now: int, events: seq<Event>)
    requires forall k :: 0 <= k < |events| ==> !events[k].StartSearch?
    ensures var s := Run(h, [StartSearch(now)] + events).statistics;
            s.numExpanded == Occurrences(events, IsExpand)
            && s.numGenerated == Occurrences(events, IsGenerate)
            && s.numPruned == Occurrences(events, IsPrune)
            && s.searchStart == Some(now)
    decreases |events|
  {
    if |events| > 0 {
      var init, e := events[..|events| - 1], events[|events| - 1];
      assert [StartSearch(now)] + events == ([StartSearch(now)] + init) + [e];
      RunSnoc(h, [StartSearch(now)] + init, e);
      RunCounts(h, now, init);
    } else {
      RunSnoc(h, [], StartSearch(now));
    }
  }

  /** A quiet and a verbose handler keep the same statistics over any run,
      and a quiet one records no callback. */
  lemma {:induction false} QuietOnlySilences(s: Statistics, events: seq<Event>)
    ensures Run(Handler(s, true, []), events).statistics == Run(Handler(s, false, []), events).statistics
    ensures Run(Handler(s, true, []), events).callbacks == []
    ensures Run(Handler(s, false, []), events).callbacks == events
    decreases |events|
  {
    if |events| > 0 {
      var init, e := events[..|events| - 1], events[|events| - 1];
      assert events == init + [e];
      RunSnoc(Handler(s, true, []), init, e);
      RunSnoc(Handler(s, false, []), init, e);
      QuietOnlySilences(s, init);
    }
  }
}
