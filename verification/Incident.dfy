// Incident debouncing (velaops_incident.c) and the delivery of its edges
// (velaops_agent_monitor.c, velaops_resource_incident.c).

module Incident {

  const U16_MAX: nat := 0xffff
  const U32_MAX: nat := 0xffff_ffff

  datatype Health = Healthy | Unhealthy
  datatype Phase = Calm | Suspected | Open | Recovered
  datatype Event = Nothing | Opened | Closed
  datatype Status = Ok | InvalidArgument | OutOfOrder

  // velaops_incident_tracker_t, thresholds included.
  datatype Tracker = Tracker(
    failures: nat, recoveries: nat,      // policy
    phase: Phase, bad: nat, good: nat,   // consecutive failures and successes
    generation: nat, last: int, seen: bool)

  function Bump16(n: nat): nat { if n == U16_MAX then n else n + 1 }
  function Bump32(n: nat): nat { if n == U32_MAX then n else n + 1 }

  // ---------------------------------------------------------------- the code

  class IncidentTracker {
    var t: Tracker

    // velaops_incident_tracker_init with thresholds it accepts.
    constructor (failures: nat, recoveries: nat)
      requires 0 < failures <= U16_MAX && 0 < recoveries <= U16_MAX
      ensures t == Fresh(failures, recoveries)
    {
      t := Tracker(failures, recoveries, Calm, 0, 0, 0, 0, false);
    }

    method OpenIncident() returns (event: Event)
      modifies this
      ensures t == old(t).(phase := Open, good := 0, generation := Bump32(old(t).generation)) && event == Opened
    {
      t := t.(phase := Open, good := 0);
      if t.generation != U32_MAX {
        t := t.(generation := t.generation + 1);
      }
      event := Opened;
    }

    method StartFailure() returns (event: Event)
      modifies this
      ensures (t, event) == FailureStarted(old(t))
    {
      t := t.(bad := 1, good := 0);
      if t.failures == 1 {
        event := OpenIncident();
      } else {
        t := t.(phase := Suspected);
        event := Nothing;
      }
    }

    // velaops_incident_tracker_apply
    method Apply(observedAt: int, health: Health) returns (status: Status, event: Event)
      requires t.failures > 0 && t.recoveries > 0
      modifies this
      ensures observedAt < 0 ==> status == InvalidArgument && t == old(t)
      ensures observedAt >= 0 && old(t).seen && observedAt < old(t).last ==> status == OutOfOrder && t == old(t)
      ensures observedAt >= 0 && !(old(t).seen && observedAt < old(t).last) ==>
                && status == Ok
                && (t, event) == Applied(old(t).(last := observedAt, seen := true), health)
    {
      event := Nothing;
      if observedAt < 0 {
        return InvalidArgument, Nothing;
      }
      if t.seen && observedAt < t.last {
        return OutOfOrder, Nothing;
      }
      t := t.(last := observedAt, seen := true);
      match t.phase {
        case Calm =>
          if health == Unhealthy {
            event := StartFailure();
          }
        case Suspected =>
          if health == Healthy {
            t := t.(phase := Calm, bad := 0);
          } else {
            t := t.(bad := Bump16(t.bad));
            if t.bad >= t.failures {
              event := OpenIncident();
            }
          }
        case Open =>
          if health == Unhealthy {
            t := t.(good := 0);
          } else {
            t := t.(good := Bump16(t.good));
            if t.good >= t.recoveries {
              t := t.(phase := Recovered, bad := 0);
              event := Closed;
            }
          }
        case Recovered =>
          t := t.(good := 0);
          if health == Healthy {
            t := t.(phase := Calm);
          } else {
            event := StartFailure();
          }
      }
      status := Ok;
    }
  }

  function Fresh(failures: nat, recoveries: nat): Tracker {
    Tracker(failures, recoveries, Calm, 0, 0, 0, 0, false)
  }

  function FailureStarted(t: Tracker): (Tracker, Event) {
    var s := t.(bad := 1, good := 0);
    if t.failures == 1 then (s.(phase := Open, generation := Bump32(t.generation)), Opened)
    else (s.(phase := Suspected), Nothing)
  }

  // The effect of one accepted observation.
  function Applied(t: Tracker, health: Health): (Tracker, Event) {
    match (t.phase, health)
    case (Calm, Healthy) => (t, Nothing)
    case (Calm, Unhealthy) => FailureStarted(t)
    case (Suspected, Healthy) => (t.(phase := Calm, bad := 0), Nothing)
    case (Suspected, Unhealthy) =>
      var s := t.(bad := Bump16(t.bad));
      if s.bad >= t.failures then (s.(phase := Open, good := 0, generation := Bump32(t.generation)), Opened)
      else (s, Nothing)
    case (Open, Unhealthy) => (t.(good := 0), Nothing)
    case (Open, Healthy) =>
      var s := t.(good := Bump16(t.good));
      if s.good >= t.recoveries then (s.(phase := Recovered, bad := 0), Closed) else (s, Nothing)
    case (Recovered, Healthy) => (t.(good := 0, phase := Calm), Nothing)
    case (Recovered, Unhealthy) => FailureStarted(t)
  }

  // ---------------------------------------------------------------- what an edge means

  // Observations in the order they were accepted, and the event each one gave.
  function Track(t: Tracker, hs: seq<Health>): (r: (Tracker, seq<Event>))
    ensures |r.1| == |hs|
  {
    if hs == [] then (t, [])
    else
      var n := |hs| - 1;
      var (s, es) := Track(t, hs[..n]);
      var (s', e) := Applied(s, hs[n]);
      (s', es + [e])
  }

  // Whether an incident is open after these events: the last edge was an opening.
  function IsOpen(es: seq<Event>): bool {
    if es == [] then false
    else if es[|es| - 1].Opened? then true
    else if es[|es| - 1].Closed? then false
    else IsOpen(es[..|es| - 1])
  }

  // How many observations came after the last edge.
  function SinceEdge(es: seq<Event>): (n: nat)
    ensures n <= |es|
  {
    if es == [] || !es[|es| - 1].Nothing? then 0 else 1 + SinceEdge(es[..|es| - 1])
  }

  // The last n observations all read h.
  ghost predicate LastAll(hs: seq<Health>, n: nat, h: Health) {
    n <= |hs| && forall i :: |hs| - n <= i < |hs| ==> hs[i] == h
  }

  // The event an observation history calls for, told without counters: an opening
  // when nothing is open and the last F observations, all after the last edge, are
  // unhealthy; a closing when one is open and the last R, all after the opening,
  // are healthy.
  ghost predicate CalledFor(failures: nat, recoveries: nat, hs: seq<Health>, before: seq<Event>, e: Event)
    requires |before| + 1 == |hs|
  {
    && (e.Opened? <==> !IsOpen(before) && failures <= SinceEdge(before) + 1 && LastAll(hs, failures, Unhealthy))
    && (e.Closed? <==> IsOpen(before) && recoveries <= SinceEdge(before) + 1 && LastAll(hs, recoveries, Healthy))
  }

  function OpenedCount(es: seq<Event>): nat {
    if es == [] then 0 else OpenedCount(es[..|es| - 1]) + if es[|es| - 1].Opened? then 1 else 0
  }

  // How long the current run of h is, counted back to the last edge at most.
  function RunLength(hs: seq<Health>, es: seq<Event>, h: Health): nat
    requires |hs| == |es|
  {
    if hs == [] || !es[|es| - 1].Nothing? || hs[|hs| - 1] != h then 0
    else 1 + RunLength(hs[..|hs| - 1], es[..|es| - 1], h)
  }

  lemma {:induction false} RunLengthIs(hs: seq<Health>, es: seq<Event>, h: Health, n: nat)
    requires |hs| == |es|
    ensures RunLength(hs, es, h) >= n <==> n <= SinceEdge(es) && LastAll(hs, n, h)
    decreases |hs|
  {
    if hs != [] && n > 0 {
      var k := |hs| - 1;
      RunLengthIs(hs[..k], es[..k], h, n - 1);
      if es[k].Nothing? && hs[k] == h {
        assert forall i :: 0 <= i < k ==> hs[..k][i] == hs[i];
        assert LastAll(hs, n, h) <==> LastAll(hs[..k], n - 1, h);
      }
    }
  }

  // The counters are those run lengths, and never reach the 16-bit limit unnoticed; the
  // phase tells which of them counts.
  ghost predicate Counts(failures: nat, recoveries: nat, t: Tracker, hs: seq<Health>, es: seq<Event>)
    requires |hs| == |es|
  {
    && t.failures == failures && t.recoveries == recoveries
    && (t.phase.Open? <==> IsOpen(es))
    && (t.phase.Recovered? <==> es != [] && es[|es| - 1].Closed?)
    && (t.phase.Suspected? <==> !IsOpen(es) && RunLength(hs, es, Unhealthy) > 0)
    && t.bad == (if IsOpen(es) then failures else RunLength(hs, es, Unhealthy))
    && t.good == (if IsOpen(es) then RunLength(hs, es, Healthy) else if t.phase.Recovered? then recoveries else 0)
    && (if IsOpen(es) then t.good < recoveries else t.bad < failures)
    && t.generation == if OpenedCount(es) <= U32_MAX then OpenedCount(es) else U32_MAX
  }

  // Every event of the run, from the last back to the first, is the one its history
  // calls for.
  ghost predicate AllCalledFor(failures: nat, recoveries: nat, hs: seq<Health>, es: seq<Event>)
    requires |hs| == |es|
    decreases |hs|
  {
    hs != [] ==>
      var n := |hs| - 1;
      CalledFor(failures, recoveries, hs, es[..n], es[n]) && AllCalledFor(failures, recoveries, hs[..n], es[..n])
  }

  lemma OneMore(failures: nat, recoveries: nat, t: Tracker, hs: seq<Health>, es: seq<Event>, h: Health)
    requires 0 < failures <= U16_MAX && 0 < recoveries <= U16_MAX && |hs| == |es|
    requires Counts(failures, recoveries, t, hs, es)
    ensures var (t', e) := Applied(t, h);
            && Counts(failures, recoveries, t', hs + [h], es + [e])
            && CalledFor(failures, recoveries, hs + [h], es, e)
  {
    var (t', e) := Applied(t, h);
    var hs', es' := hs + [h], es + [e];
    assert hs'[..|hs|] == hs && es'[..|es|] == es;
    RunLengthIs(hs, es, Unhealthy, failures - 1);
    RunLengthIs(hs, es, Healthy, recoveries - 1);
    LastAllStep(hs, h, failures, Unhealthy);
    LastAllStep(hs, h, recoveries, Healthy);
  }

  lemma LastAllStep(hs: seq<Health>, x: Health, n: nat, h: Health)
    requires n > 0
    ensures LastAll(hs + [x], n, h) <==> x == h && LastAll(hs, n - 1, h)
  {
    var hs' := hs + [x];
    assert hs'[|hs|] == x;
    assert forall i :: 0 <= i < |hs| ==> hs'[i] == hs[i];
  }

  // The tracker emits exactly the edges the history calls for, and numbers them
  // by the count of openings, stopping at 2^32 - 1.
  lemma {:induction false} EdgesAreCalledFor(failures: nat, recoveries: nat, hs: seq<Health>)
    requires 0 < failures <= U16_MAX && 0 < recoveries <= U16_MAX
    ensures var (t, es) := Track(Fresh(failures, recoveries), hs);
            Counts(failures, recoveries, t, hs, es) && AllCalledFor(failures, recoveries, hs, es)
    decreases |hs|
  {
    var (t, es) := Track(Fresh(failures, recoveries), hs);
    if hs != [] {
      var n := |hs| - 1;
      EdgesAreCalledFor(failures, recoveries, hs[..n]);
      var (s, before) := Track(Fresh(failures, recoveries), hs[..n]);
      OneMore(failures, recoveries, s, hs[..n], before, hs[n]);
      assert hs[..n] + [hs[n]] == hs;
      assert es[..n] == before;
    }
  }

  // ---------------------------------------------------------------- delivery

  // A prompt as the sink receives it: the edge and the generation it was numbered with.
  datatype Prompt = Prompt(event: Event, generation: nat)

  // What one sample brings: evidence that may not parse, its diagnosis and time, a
  // diagnosis text that may not encode, and what the sink answers if it is called
  // with the event still pending or with a new one.
  datatype Sample = Sample(parses: bool, health: Health, at: int, encodes: bool, retryOk: bool, sendOk: bool)

  datatype MonitorStatus = MonitorOk | MonitorInvalidEvidence | MonitorOutOfOrder | DispatchError
    | MonitorInvalidArgument

  class AgentMonitor {
    const tracker: IncidentTracker
    var pendingEvent: Event
    var pendingGeneration: nat
    var delivered: seq<Prompt>     // what the sink has accepted, in order

    constructor (failures: nat, recoveries: nat)
      requires 0 < failures <= U16_MAX && 0 < recoveries <= U16_MAX
      ensures fresh(tracker) && State() == Started(failures, recoveries)
    {
      tracker := new IncidentTracker(failures, recoveries);
      pendingEvent := Nothing;
      pendingGeneration := 0;
      delivered := [];
    }

    function State(): Monitor
      reads this, tracker
    {
      Monitor(tracker.t, if pendingEvent.Nothing? then [] else [Prompt(pendingEvent, pendingGeneration)], delivered)
    }

    // velaops_agent_monitor_dispatch
    method Dispatch(sinkOk: bool) returns (ok: bool)
      modifies this
      ensures tracker.t == old(tracker.t)
      ensures (State(), ok) == Dispatched(old(State()), sinkOk)
    {
      if pendingEvent.Nothing? {
        return true;
      }
      if !sinkOk {
        return false;
      }
      delivered := delivered + [Prompt(pendingEvent, pendingGeneration)];
      pendingEvent := Nothing;
      return true;
    }

    // velaops_agent_monitor_sample over velaops_resource_incident_apply
    method Take(x: Sample) returns (status: MonitorStatus)
      requires tracker.t.failures > 0 && tracker.t.recoveries > 0
      modifies this, tracker
      ensures (State(), status) == Sampled(old(State()), x)
    {
      if x.at < 0 {
        return MonitorInvalidArgument;
      }
      var ok := Dispatch(x.retryOk);
      if !ok {
        return DispatchError;
      }
      if !x.parses {
        return MonitorInvalidEvidence;
      }
      var applied, event := tracker.Apply(x.at, x.health);
      if applied == OutOfOrder {
        return MonitorOutOfOrder;
      }
      if event.Nothing? {
        return MonitorOk;
      }
      if !x.encodes {
        return MonitorInvalidEvidence;
      }
      pendingEvent := event;
      pendingGeneration := tracker.t.generation;
      ok := Dispatch(x.sendOk);
      status := if ok then MonitorOk else DispatchError;
    }
  }

  // The monitor as a value; `pending` holds at most one prompt.
  datatype Monitor = Monitor(t: Tracker, pending: seq<Prompt>, delivered: seq<Prompt>)

  function Started(failures: nat, recoveries: nat): Monitor {
    Monitor(Fresh(failures, recoveries), [], [])
  }

  function Dispatched(m: Monitor, sinkOk: bool): (Monitor, bool) {
    if m.pending == [] then (m, true)
    else if !sinkOk then (m, false)
    else (m.(pending := [], delivered := m.delivered + m.pending), true)
  }

  predicate InOrder(t: Tracker, at: int) { !(t.seen && at < t.last) }

  function Sampled(m: Monitor, x: Sample): (Monitor, MonitorStatus) {
    if x.at < 0 then (m, MonitorInvalidArgument)
    else
      var (m1, ok) := Dispatched(m, x.retryOk);
      if !ok then (m1, DispatchError)
      else if !x.parses then (m1, MonitorInvalidEvidence)
      else if !InOrder(m1.t, x.at) then (m1, MonitorOutOfOrder)
      else
        var (t, e) := Applied(m1.t.(last := x.at, seen := true), x.health);
        var m2 := m1.(t := t);
        if e.Nothing? then (m2, MonitorOk)
        else if !x.encodes then (m2, MonitorInvalidEvidence)
        else
          var (m3, sent) := Dispatched(m2.(pending := [Prompt(e, t.generation)]), x.sendOk);
          (m3, if sent then MonitorOk else DispatchError)
  }

  function Monitored(m: Monitor, xs: seq<Sample>): Monitor {
    if xs == [] then m else Sampled(Monitored(m, xs[..|xs| - 1]), xs[|xs| - 1]).0
  }

  // The samples whose evidence the tracker consumes: they parse, are in order, and no
  // earlier prompt is still being refused.
  function Consumes(m: Monitor, x: Sample): bool {
    x.at >= 0 && Dispatched(m, x.retryOk).1 && x.parses && InOrder(m.t, x.at)
  }

  function Consumed(m: Monitor, xs: seq<Sample>): seq<Sample> {
    if xs == [] then []
    else
      var n := |xs| - 1;
      Consumed(m, xs[..n]) + if Consumes(Monitored(m, xs[..n]), xs[n]) then [xs[n]] else []
  }

  function Healths(xs: seq<Sample>): (hs: seq<Health>)
    ensures |hs| == |xs|
  {
    if xs == [] then [] else Healths(xs[..|xs| - 1]) + [xs[|xs| - 1].health]
  }

  // The edges of a history as prompts, each with the generation of its edge, leaving
  // out those whose diagnosis text could not be encoded.
  function Prompts(xs: seq<Sample>, es: seq<Event>): seq<Prompt>
    requires |xs| == |es|
  {
    if xs == [] then []
    else
      var n := |xs| - 1;
      Prompts(xs[..n], es[..n])
      + if es[n].Nothing? || !xs[n].encodes then [] else [Prompt(es[n], Generation(es))]
  }

  function Generation(es: seq<Event>): nat {
    if OpenedCount(es) <= U32_MAX then OpenedCount(es) else U32_MAX
  }

  // The tracker of m, its clock aside, has seen exactly these samples, and the
  // prompts are those of their edges.
  ghost predicate Faithful(failures: nat, recoveries: nat, m: Monitor, used: seq<Sample>) {
    var (t, es) := Track(Fresh(failures, recoveries), Healths(used));
    && m.t.(last := 0, seen := false) == t && |m.pending| <= 1
    && m.delivered + m.pending == Prompts(used, es)
  }

  // Whatever the sink refuses and for however long, the delivered prompts followed by
  // the pending one are exactly the edges of the consumed evidence, in order.
  lemma {:induction false} NothingLost(failures: nat, recoveries: nat, xs: seq<Sample>)
    requires 0 < failures <= U16_MAX && 0 < recoveries <= U16_MAX
    ensures var m, used := Monitored(Started(failures, recoveries), xs), Consumed(Started(failures, recoveries), xs);
            Faithful(failures, recoveries, m, used)
    decreases |xs|
  {
    if xs != [] {
      var n := |xs| - 1;
      NothingLost(failures, recoveries, xs[..n]);
      var start := Started(failures, recoveries);
      SampleKeeps(failures, recoveries, Monitored(start, xs[..n]), Consumed(start, xs[..n]), xs[n]);
    }
  }

  lemma DispatchKeeps(failures: nat, recoveries: nat, m: Monitor, used: seq<Sample>, sinkOk: bool)
    requires Faithful(failures, recoveries, m, used)
    ensures Faithful(failures, recoveries, Dispatched(m, sinkOk).0, used)
    ensures Dispatched(m, sinkOk).1 ==> Dispatched(m, sinkOk).0.pending == []
    ensures Dispatched(m, sinkOk).0.t == m.t
  {
    assert m.delivered + m.pending + [] == m.delivered + m.pending;
  }

  // The clock plays no part in the edges.
  lemma AppliedIgnoresClock(t: Tracker, last: int, seen: bool, h: Health)
    ensures Applied(t.(last := last, seen := seen), h).1 == Applied(t, h).1
    ensures Applied(t.(last := last, seen := seen), h).0.(last := 0, seen := false)
         == Applied(t, h).0.(last := 0, seen := false)
  {
  }

  // A tracker that agrees with s but for its clock moves as s does.
  lemma MovesAlike(t: Tracker, s: Tracker, at: int, h: Health)
    requires t.(last := 0, seen := false) == s
    ensures var (t', e) := Applied(t.(last := at, seen := true), h);
            e == Applied(s, h).1 && t'.(last := 0, seen := false) == Applied(s, h).0
            && t'.generation == Applied(s, h).0.generation
  {
    AppliedIgnoresClock(t, at, true, h);
    AppliedIgnoresClock(t, 0, false, h);
    ClockStays(s, h);
  }

  lemma ClockStays(t: Tracker, h: Health)
    ensures Applied(t, h).0.last == t.last && Applied(t, h).0.seen == t.seen
  {
  }

  lemma TrackStep(t: Tracker, hs: seq<Health>, h: Health)
    ensures var (s, es) := Track(t, hs);
            Track(t, hs + [h]) == (Applied(s, h).0, es + [Applied(s, h).1])
  {
    assert (hs + [h])[..|hs|] == hs;
  }

  lemma PromptsStep(xs: seq<Sample>, es: seq<Event>, x: Sample, e: Event)
    requires |xs| == |es|
    ensures Prompts(xs + [x], es + [e])
         == Prompts(xs, es) + if e.Nothing? || !x.encodes then [] else [Prompt(e, Generation(es + [e]))]
    ensures Healths(xs + [x]) == Healths(xs) + [x.health]
  {
    assert (xs + [x])[..|xs|] == xs && (es + [e])[..|es|] == es;
  }

  // An observation reaches the tracker while nothing is pending.
  lemma ObserveKeeps(failures: nat, recoveries: nat, m: Monitor, used: seq<Sample>, x: Sample)
    requires 0 < failures <= U16_MAX && 0 < recoveries <= U16_MAX
    requires Faithful(failures, recoveries, m, used) && m.pending == []
    ensures var (t, e) := Applied(m.t.(last := x.at, seen := true), x.health);
            Faithful(failures, recoveries,
              m.(t := t, pending := if e.Nothing? || !x.encodes then [] else [Prompt(e, t.generation)]), used + [x])
  {
    var hs := Healths(used);
    var (s, es) := Track(Fresh(failures, recoveries), hs);
    var (t, e) := Applied(m.t.(last := x.at, seen := true), x.health);
    MovesAlike(m.t, s, x.at, x.health);
    TrackStep(Fresh(failures, recoveries), hs, x.health);
    PromptsStep(used, es, x, e);
    EdgesAreCalledFor(failures, recoveries, hs + [x.health]);
    assert m.delivered + [] == m.delivered;
  }

  lemma SampleKeeps(failures: nat, recoveries: nat, m: Monitor, used: seq<Sample>, x: Sample)
    requires 0 < failures <= U16_MAX && 0 < recoveries <= U16_MAX
    requires Faithful(failures, recoveries, m, used)
    ensures Faithful(failures, recoveries, Sampled(m, x).0, used + if Consumes(m, x) then [x] else [])
  {
    assert used + [] == used;
    if x.at >= 0 {
      DispatchKeeps(failures, recoveries, m, used, x.retryOk);
      var m1 := Dispatched(m, x.retryOk).0;
      if Consumes(m, x) {
        ObserveKeeps(failures, recoveries, m1, used, x);
        var (t, e) := Applied(m1.t.(last := x.at, seen := true), x.health);
        var m2 := m1.(t := t, pending := if e.Nothing? || !x.encodes then [] else [Prompt(e, t.generation)]);
        DispatchKeeps(failures, recoveries, m2, used + [x], x.sendOk);
      }
    }
  }

  // ---------------------------------------------------------------- what a sample is answered

  // The next observation makes an edge.
  ghost predicate MakesEdge(failures: nat, recoveries: nat, hs: seq<Health>, es: seq<Event>, h: Health)
    requires |hs| == |es|
  {
    if IsOpen(es) then recoveries <= SinceEdge(es) + 1 && LastAll(hs + [h], recoveries, Healthy)
    else failures <= SinceEdge(es) + 1 && LastAll(hs + [h], failures, Unhealthy)
  }

  // The tracker's clock is that of the last sample it consumed.
  ghost predicate ClockIs(t: Tracker, used: seq<Sample>) {
    if used == [] then !t.seen else t.seen && t.last == used[|used| - 1].at
  }

  lemma {:induction false} ClockFollows(failures: nat, recoveries: nat, xs: seq<Sample>)
    ensures ClockIs(Monitored(Started(failures, recoveries), xs).t, Consumed(Started(failures, recoveries), xs))
    decreases |xs|
  {
    if xs != [] {
      var n := |xs| - 1;
      ClockFollows(failures, recoveries, xs[..n]);
      ClockStep(Monitored(Started(failures, recoveries), xs[..n]), xs[n]);
    }
  }

  lemma ClockStep(m: Monitor, x: Sample)
    ensures var m' := Sampled(m, x).0;
            if Consumes(m, x) then m'.t.seen && m'.t.last == x.at else m'.t == m.t
  {
    if Consumes(m, x) { ClockStays(m.t.(last := x.at, seen := true), x.health); }
  }

  // In every run, whatever the sink did: a prompt that is still refused is answered with
  // DispatchError and nothing else is looked at; then evidence that does not parse, or is
  // older than the last consumed, is refused; then an edge is answered by what becomes of
  // its prompt, and anything else is fine.
  lemma SampleStatus(failures: nat, recoveries: nat, xs: seq<Sample>, x: Sample)
    requires 0 < failures <= U16_MAX && 0 < recoveries <= U16_MAX
    ensures var m, used := Monitored(Started(failures, recoveries), xs), Consumed(Started(failures, recoveries), xs);
            var hs := Healths(used);
            var edge := MakesEdge(failures, recoveries, hs, Track(Fresh(failures, recoveries), hs).1, x.health);
            Sampled(m, x).1
            == if x.at < 0 then MonitorInvalidArgument
               else if m.pending != [] && !x.retryOk then DispatchError
               else if !x.parses then MonitorInvalidEvidence
               else if used != [] && x.at < used[|used| - 1].at then MonitorOutOfOrder
               else if !edge then MonitorOk
               else if !x.encodes then MonitorInvalidEvidence
               else if x.sendOk then MonitorOk else DispatchError
  {
    var m, used := Monitored(Started(failures, recoveries), xs), Consumed(Started(failures, recoveries), xs);
    ClockFollows(failures, recoveries, xs);
    NothingLost(failures, recoveries, xs);
    EdgeIff(failures, recoveries, m.t, used, x);
  }

  lemma EdgeIff(failures: nat, recoveries: nat, t: Tracker, used: seq<Sample>, x: Sample)
    requires 0 < failures <= U16_MAX && 0 < recoveries <= U16_MAX
    requires t.(last := 0, seen := false) == Track(Fresh(failures, recoveries), Healths(used)).0
    ensures var hs := Healths(used);
            Applied(t.(last := x.at, seen := true), x.health).1.Nothing?
            <==> !MakesEdge(failures, recoveries, hs, Track(Fresh(failures, recoveries), hs).1, x.health)
  {
    var hs := Healths(used);
    var (s, es) := Track(Fresh(failures, recoveries), hs);
    MovesAlike(t, s, x.at, x.health);
    EdgesAreCalledFor(failures, recoveries, hs);
    OneMore(failures, recoveries, s, hs, es, x.health);
  }
}
