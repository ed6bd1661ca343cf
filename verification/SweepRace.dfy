/**
 A failover loop while the background sweep and other callers write the heights of the same nodes, in any
 interleaving.
 */
module SweepRace {
  import opened FiniteSets
  import opened Machine
  import opened Nodes

  datatype Caller = Picking | Calling(url: string) | Returned

  /** `calls` counts the calls the loop has begun, `raised` the sweep writes that brought a node back from 0. */
  datatype Race = Race(heights: map<string, uint64>, caller: Caller, calls: nat, raised: nat)

  datatype Event =
    | Pick(url: string)
    | CallFails
    | CallSucceeds
    | Sweep(url: string, probe: Probe)
    | OtherDemotes(url: string)
    | NothingLeft

  ghost predicate Enabled(r: Race, e: Event)
  {
    match e
    case Pick(url) => r.caller.Picking? && Highest(r.heights, url)
    case CallFails => r.caller.Calling? && r.caller.url in r.heights
    case CallSucceeds => r.caller.Calling?
    case Sweep(url, _) => url in r.heights
    case OtherDemotes(url) => url in r.heights
    case NothingLeft => r.caller.Picking? && Live(r.heights) == {}
  }

  function Next(r: Race, e: Event): Race
  {
    match e
    case Pick(url) => r.(caller := Calling(url), calls := r.calls + 1)
    case CallFails => if r.caller.Calling? then r.(heights := r.heights[r.caller.url := 0], caller := Picking) else r
    case CallSucceeds => r.(caller := Returned)
    case Sweep(url, probe) =>
      r.(heights := r.heights[url := Probed(probe)],
         raised := if url !in Live(r.heights) && Probed(probe) > 0 then r.raised + 1 else r.raised)
    case OtherDemotes(url) => r.(heights := r.heights[url := 0])
    case NothingLeft => r.(caller := Returned)
  }

  /** A call is pending on a node that somebody else has demoted meanwhile. */
  function Lost(r: Race): nat { if r.caller.Calling? && r.caller.url !in Live(r.heights) then 1 else 0 }

  /** Each failed call has used up a node that was live at the start or was raised by the sweep. */
  ghost predicate Budget(r: Race, start: nat)
  {
    match r.caller
    case Picking => r.calls + |Live(r.heights)| <= start + r.raised
    case Calling(_) => r.calls - 1 + |Live(r.heights)| + Lost(r) <= start + r.raised
    case Returned => r.calls <= start + r.raised
  }

  lemma CallHasItsNode(r: Race)
    requires r.caller.Calling?
    ensures |Live(r.heights)| + Lost(r) >= 1
  {
    if r.caller.url in Live(r.heights) {
      SubsetSize({r.caller.url}, Live(r.heights));
    }
  }

  lemma LiveUpdate(heights: map<string, uint64>, url: string, h: uint64)
    ensures Live(heights[url := h]) == if h > 0 then Live(heights) + {url} else Live(heights) - {url}
  {
  }

  lemma NextKeepsBudget(r: Race, e: Event, start: nat)
    requires Budget(r, start) && Enabled(r, e)
    ensures Budget(Next(r, e), start)
  {
    match e {
      case Pick(url) => assert url in Live(r.heights);
      case CallSucceeds => CallHasItsNode(r);
      case CallFails => LiveUpdate(r.heights, r.caller.url, 0);
      case Sweep(url, probe) => LiveUpdate(r.heights, url, Probed(probe));
      case OtherDemotes(url) => LiveUpdate(r.heights, url, 0);
      case _ =>
    }
  }

  function After(r: Race, events: seq<Event>): Race
  {
    if events == [] then r else Next(After(r, events[..|events| - 1]), events[|events| - 1])
  }

  ghost predicate Possible(r: Race, events: seq<Event>)
  {
    forall k :: 0 <= k < |events| ==> Enabled(After(r, events[..k]), events[k])
  }

  lemma {:induction false} RaceKeepsBudget(r: Race, events: seq<Event>)
    requires Possible(r, events) && r.caller.Picking? && r.calls == r.raised == 0
    ensures Budget(After(r, events), |Live(r.heights)|)
    ensures After(r, events).heights.Keys == r.heights.Keys
  {
    if events == [] {
    } else {
      var n := |events| - 1;
      forall k | 0 <= k < n ensures Enabled(After(r, events[..n][..k]), events[..n][k]) {
        assert events[..n][..k] == events[..k];
      }
      RaceKeepsBudget(r, events[..n]);
      NextKeepsBudget(After(r, events[..n]), events[n], |Live(r.heights)|);
    }
  }

  /**
   Failover under concurrent sweeps. However sweeps and other callers interleave with it, a failover loop
   makes at most one call per node live when it began, plus one per node the sweep brought back from 0.
   */
  lemma CallsAreBounded(r: Race, events: seq<Event>)
    requires Possible(r, events) && r.caller.Picking? && r.calls == r.raised == 0
    ensures var s := After(r, events);
            s.calls <= |Live(r.heights)| + s.raised <= |r.heights.Keys| + s.raised
  {
    RaceKeepsBudget(r, events);
    var s := After(r, events);
    if s.caller.Calling? {
      CallHasItsNode(s);
    }
    SubsetSize(Live(r.heights), r.heights.Keys);
  }

  /** A raise is a sweep that finds a node at 0 and leaves it live, and nothing else. */
  lemma RaisedIff(r: Race, e: Event)
    requires Enabled(r, e)
    ensures Next(r, e).raised == r.raised +
            if e.Sweep? && r.heights[e.url] == 0 && Usable(e.probe) then 1 else 0
  {
    if e.Sweep? {
      ProbedIsLiveIff(e.probe);
    }
  }
}
