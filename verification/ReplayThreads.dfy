// The request threads of the server between the clock and the store: each reads the
// clock and checks the window (auth.py:88-90), and claims the nonce later under the
// store's lock (auth.py:94-99).

module ReplayThreads {
  import opened Common
  import opened Replay

  datatype Step =
    | Read(thread: nat, d: Delivery)   // d.now is what the clock shows
    | Claim(thread: nat)

  // The last reading of the clock, the threads that have yet to claim, and the store.
  datatype Server = Server(clock: int, waiting: map<nat, Delivery>, gate: Gate)

  function Next(s: Server, max: nat, skew: nat, stamp: Key -> int, step: Step): Server {
    match step
    case Read(t, d) =>
      if !d.signed then s
      else if Refusal(stamp(d.key), skew, d).Some? then s.(clock := d.now)
      else s.(clock := d.now, waiting := s.waiting[t := d])
    case Claim(t) =>
      if t !in s.waiting then s
      else
        var d := s.waiting[t];
        var (e, v) := ClaimIn(s.gate.entries, max, d.key, stamp(d.key) + skew + 1, d.now);
        s.(waiting := s.waiting - {t}, gate := Gate(e, if v.Accepted? then s.gate.accepted + [d] else s.gate.accepted))
  }

  function Serve(s: Server, max: nat, skew: nat, stamp: Key -> int, steps: seq<Step>): Server
    decreases |steps|
  {
    if steps == [] then s else Serve(Next(s, max, skew, stamp, steps[0]), max, skew, stamp, steps[1..])
  }

  // A thread reads and then claims, and the clock never goes back.
  predicate Enabled(s: Server, step: Step) {
    match step
    case Read(t, d) => t !in s.waiting && s.clock <= d.now
    case Claim(t) => t in s.waiting
  }

  ghost predicate Possible(s: Server, max: nat, skew: nat, stamp: Key -> int, steps: seq<Step>)
    decreases |steps|
  {
    steps != [] ==> Enabled(s, steps[0]) && Possible(Next(s, max, skew, stamp, steps[0]), max, skew, stamp, steps[1..])
  }

  // Every claim comes before the clock has been read as more than `lag` seconds later.
  predicate InTime(s: Server, step: Step, lag: nat) {
    step.Claim? && step.thread in s.waiting ==> s.clock - s.waiting[step.thread].now <= lag
  }

  ghost predicate Prompt(s: Server, max: nat, skew: nat, stamp: Key -> int, steps: seq<Step>, lag: nat)
    decreases |steps|
  {
    steps != [] ==>
      && InTime(s, steps[0], lag)
      && Prompt(Next(s, max, skew, stamp, steps[0]), max, skew, stamp, steps[1..], lag)
  }

  // ---------------------------------------------------------------- what the store sees

  function ClaimedBy(s: Server, step: Step): seq<Delivery> {
    if step.Claim? && step.thread in s.waiting then [s.waiting[step.thread]] else []
  }

  // The deliveries in the order of their claims.
  function Claimed(s: Server, max: nat, skew: nat, stamp: Key -> int, steps: seq<Step>): seq<Delivery>
    decreases |steps|
  {
    if steps == [] then []
    else ClaimedBy(s, steps[0]) + Claimed(Next(s, max, skew, stamp, steps[0]), max, skew, stamp, steps[1..])
  }

  // Who waits has passed the check, with a reading that is not in the future.
  ghost predicate WaitingOk(s: Server, skew: nat, stamp: Key -> int) {
    forall t :: t in s.waiting ==>
      Refusal(stamp(s.waiting[t].key), skew, s.waiting[t]).None? && s.waiting[t].now <= s.clock
  }

  lemma StepDelivers(s: Server, max: nat, skew: nat, stamp: Key -> int, step: Step)
    requires WaitingOk(s, skew, stamp) && Enabled(s, step)
    ensures WaitingOk(Next(s, max, skew, stamp, step), skew, stamp)
    ensures s.clock <= Next(s, max, skew, stamp, step).clock
    ensures Next(s, max, skew, stamp, step).clock == if step.Read? && step.d.signed then step.d.now else s.clock
    ensures Next(s, max, skew, stamp, step).gate == Run(s.gate, max, skew, stamp, ClaimedBy(s, step))
  {
    if step.Claim? {
      assert [s.waiting[step.thread]][1..] == [];
    }
  }

  lemma {:induction false} RunInTwo(g: Gate, max: nat, skew: nat, stamp: Key -> int, a: seq<Delivery>, b: seq<Delivery>)
    ensures Run(g, max, skew, stamp, a + b) == Run(Run(g, max, skew, stamp, a), max, skew, stamp, b)
    decreases |a|
  {
    if a == [] {
      assert a + b == b;
    } else {
      assert (a + b)[1..] == a[1..] + b;
      RunInTwo(Deliver(g, max, skew, stamp, a[0]), max, skew, stamp, a[1..], b);
    }
  }

  // However the threads interleave, the store ends as if each delivery were one step,
  // in the order of the claims.
  lemma {:induction false} ServedAsDelivered(s: Server, max: nat, skew: nat, stamp: Key -> int, steps: seq<Step>)
    requires WaitingOk(s, skew, stamp) && Possible(s, max, skew, stamp, steps)
    ensures Serve(s, max, skew, stamp, steps).gate == Run(s.gate, max, skew, stamp, Claimed(s, max, skew, stamp, steps))
    decreases |steps|
  {
    if steps != [] {
      var s1 := Next(s, max, skew, stamp, steps[0]);
      StepDelivers(s, max, skew, stamp, steps[0]);
      ServedAsDelivered(s1, max, skew, stamp, steps[1..]);
      RunInTwo(s.gate, max, skew, stamp, ClaimedBy(s, steps[0]), Claimed(s1, max, skew, stamp, steps[1..]));
    }
  }

  // A claim is overtaken by at most the lag.
  lemma {:induction false} ClaimsInTime(s: Server, max: nat, skew: nat, stamp: Key -> int, steps: seq<Step>, lag: nat)
    requires WaitingOk(s, skew, stamp) && Possible(s, max, skew, stamp, steps)
             && Prompt(s, max, skew, stamp, steps, lag)
    ensures DropsLittle(Claimed(s, max, skew, stamp, steps), lag)
    ensures forall d :: d in Claimed(s, max, skew, stamp, steps) ==> s.clock - d.now <= lag
    decreases |steps|
  {
    if steps != [] {
      var first, s1 := ClaimedBy(s, steps[0]), Next(s, max, skew, stamp, steps[0]);
      var rest := Claimed(s1, max, skew, stamp, steps[1..]);
      StepDelivers(s, max, skew, stamp, steps[0]);
      ClaimsInTime(s1, max, skew, stamp, steps[1..], lag);
      if first != [] { DropsMore(first[0], rest, lag); }
      assert [] + rest == rest;
    }
  }

  lemma DropsMore(d: Delivery, rest: seq<Delivery>, lag: nat)
    requires DropsLittle(rest, lag) && forall x :: x in rest ==> d.now - x.now <= lag
    ensures DropsLittle([d] + rest, lag)
  {
    var all := [d] + rest;
    forall i, j | 0 <= i < j < |all| ensures all[i].now - all[j].now <= lag {
      assert all[j] == rest[j - 1];
      if i > 0 { assert all[i] == rest[i - 1]; }
    }
  }

  lemma {:induction false} NoDropIsForward(ds: seq<Delivery>, from: int)
    requires DropsLittle(ds, 0) && forall d :: d in ds ==> from <= d.now
    ensures NonDecreasing(ds, from)
    decreases |ds|
  {
    if ds != [] {
      forall d | d in ds[1..] ensures ds[0].now <= d.now {
        var j :| 0 <= j < |ds[1..]| && ds[1..][j] == d;
        assert ds[j + 1] == d;
      }
      forall i, j | 0 <= i < j < |ds[1..]| ensures ds[1..][i].now - ds[1..][j].now <= 0 {
        assert ds[1..][i] == ds[i + 1] && ds[1..][j] == ds[j + 1];
      }
      NoDropIsForward(ds[1..], ds[0].now);
    }
  }

  // ---------------------------------------------------------------- when the threads do no harm

  function NewServer(clock: int): Server { Server(clock, map[], Gate(map[], [])) }

  // Over all interleavings in which no claim lags by more, every acceptance of a message
  // lies within 40 s of its first one.
  ghost predicate ToleratesLag(max: nat, skew: nat, lag: nat) {
    forall stamp: Key -> int, clock: int, steps: seq<Step> ::
      Possible(NewServer(clock), max, skew, stamp, steps) && Prompt(NewServer(clock), max, skew, stamp, steps, lag) ==>
        Within40(Serve(NewServer(clock), max, skew, stamp, steps).gate.accepted)
  }

  lemma LagIsBrief(max: nat, skew: nat, stamp: Key -> int, clock: int, steps: seq<Step>, lag: nat)
    requires lag == 0 || max == 0 || skew <= 20 || (max == 1 && lag <= 40)
    requires Possible(NewServer(clock), max, skew, stamp, steps)
             && Prompt(NewServer(clock), max, skew, stamp, steps, lag)
    ensures Within40(Serve(NewServer(clock), max, skew, stamp, steps).gate.accepted)
  {
    var ds := Claimed(NewServer(clock), max, skew, stamp, steps);
    ServedAsDelivered(NewServer(clock), max, skew, stamp, steps);
    ClaimsInTime(NewServer(clock), max, skew, stamp, steps, lag);
    if max == 0 || skew <= 20 {
      AnyClockIsBrief(max, skew, stamp, ds);
    } else if lag == 0 {
      NoDropIsForward(ds, clock);
      ForwardIsBrief(max, skew, stamp, ds, clock);
    } else {
      OnePlaceIsBrief(skew, stamp, ds, lag);
    }
  }

  // What one more step in front adds.
  lemma FirstStep(s: Server, max: nat, skew: nat, stamp: Key -> int, step: Step, rest: seq<Step>, lag: nat)
    ensures var s1 := Next(s, max, skew, stamp, step);
            && (Possible(s, max, skew, stamp, [step] + rest)
              <==> Enabled(s, step) && Possible(s1, max, skew, stamp, rest))
            && (Prompt(s, max, skew, stamp, [step] + rest, lag)
                <==> InTime(s, step, lag) && Prompt(s1, max, skew, stamp, rest, lag))
            && Claimed(s, max, skew, stamp, [step] + rest) == ClaimedBy(s, step) + Claimed(s1, max, skew, stamp, rest)
  {
    assert ([step] + rest)[1..] == rest;
  }

  // Thread 0 reads the clock for its delivery, thread 1 reads and claims, and then thread
  // 0 claims.
  function Overtaking(late: Delivery, early: Delivery): seq<Step> {
    [Read(0, early)] + ([Read(1, late)] + ([Claim(1)] + ([Claim(0)] + [])))
  }

  ghost predicate Passes(skew: nat, stamp: Key -> int, d: Delivery) { Refusal(stamp(d.key), skew, d).None? }

  lemma OvertakingRun(s: Server, max: nat, skew: nat, stamp: Key -> int, late: Delivery, early: Delivery, lag: nat)
    requires s.waiting == map[] && s.clock <= early.now <= late.now <= early.now + lag
    requires Passes(skew, stamp, late) && Passes(skew, stamp, early)
    ensures var steps := Overtaking(late, early);
            && Possible(s, max, skew, stamp, steps) && Prompt(s, max, skew, stamp, steps, lag)
            && Claimed(s, max, skew, stamp, steps) == [late, early]
  {
    var s1 := Next(s, max, skew, stamp, Read(0, early));
    var s2 := Next(s1, max, skew, stamp, Read(1, late));
    var s3 := Next(s2, max, skew, stamp, Claim(1));
    FirstStep(s, max, skew, stamp, Read(0, early), [Read(1, late)] + ([Claim(1)] + ([Claim(0)] + [])), lag);
    FirstStep(s1, max, skew, stamp, Read(1, late), [Claim(1)] + ([Claim(0)] + []), lag);
    FirstStep(s2, max, skew, stamp, Claim(1), [Claim(0)] + [], lag);
    FirstStep(s3, max, skew, stamp, Claim(0), [], lag);
    assert ClaimedBy(s2, Claim(1)) == [late] && ClaimedBy(s3, Claim(0)) == [early];
    assert [] + ([] + ([late] + ([early] + []))) == [late, early];
  }

  // Alone before that, a delivery that is claimed at once.
  lemma AloneThenOvertaking(clock: int, max: nat, skew: nat, stamp: Key -> int, d: Delivery, late: Delivery,
                            early: Delivery, lag: nat)
    requires clock <= d.now <= early.now <= late.now <= early.now + lag
    requires Passes(skew, stamp, d) && Passes(skew, stamp, late) && Passes(skew, stamp, early)
    ensures var steps := [Read(0, d)] + ([Claim(0)] + Overtaking(late, early));
            && Possible(NewServer(clock), max, skew, stamp, steps)
            && Prompt(NewServer(clock), max, skew, stamp, steps, lag)
            && Claimed(NewServer(clock), max, skew, stamp, steps) == [d, late, early]
  {
    var s1 := Next(NewServer(clock), max, skew, stamp, Read(0, d));
    var s2 := Next(s1, max, skew, stamp, Claim(0));
    FirstStep(NewServer(clock), max, skew, stamp, Read(0, d), [Claim(0)] + Overtaking(late, early), lag);
    FirstStep(s1, max, skew, stamp, Claim(0), Overtaking(late, early), lag);
    assert s2.waiting == map[];
    OvertakingRun(s2, max, skew, stamp, late, early, lag);
    assert ClaimedBy(s1, Claim(0)) == [d] && [] + ([d] + [late, early]) == [d, late, early];
  }

  // With two places a lag of one second is enough: a thread that has read the clock for a
  // repeat is overtaken by one that reads a second later and purges the first claim.
  lemma OneSecondBreaks(max: nat, skew: nat, lag: nat)
    requires max >= 2 && skew > 20 && lag >= 1
    ensures !ToleratesLag(max, skew, lag)
  {
    var a, b := ("eye", "a"), ("eye", "b");
    assert a.1[0] != b.1[0];
    var stamp: Key -> int := k => if k == a then skew else 2 * skew + 1;
    var d1, d2, d3 := Delivery(a, true, 0), Delivery(b, true, 2 * skew + 1), Delivery(a, true, 2 * skew);
    var steps := [Read(0, d1)] + ([Claim(0)] + Overtaking(d2, d3));
    AloneThenOvertaking(0, max, skew, stamp, d1, d2, d3, lag);
    ServedAsDelivered(NewServer(0), max, skew, stamp, steps);
    StepBackBreaks(max, skew, stamp, a, b, 2 * skew + 1, 2 * skew);
    FarFromFirst([d1, d2, d3], d3);
  }

  // With one place it takes more than the tolerance: the repeat is claimed first.
  lemma LongLagBreaks(max: nat, skew: nat, lag: nat)
    requires max >= 1 && skew > 20 && lag > 40
    ensures !ToleratesLag(max, skew, lag)
  {
    var a := ("eye", "a");
    var stamp: Key -> int := _ => skew;
    var late, early := Delivery(a, true, 41), Delivery(a, true, 0);
    OvertakingRun(NewServer(0), max, skew, stamp, late, early, lag);
    ServedAsDelivered(NewServer(0), max, skew, stamp, Overtaking(late, early));
    LateThenEarly(max, skew, stamp, a, 41, 0);
    FarFromFirst([late, early], early);
  }

  // Under a clock that never goes back, over all interleavings of any number of threads:
  // the 40 s hold exactly if no claim lags at all, the store holds nothing, the window is
  // no wider than the tolerance, or there is one place and claims lag by at most 40 s.
  lemma LagIff(max: nat, skew: nat, lag: nat)
    ensures ToleratesLag(max, skew, lag) <==> lag == 0 || max == 0 || skew <= 20 || (max == 1 && lag <= 40)
  {
    if lag == 0 || max == 0 || skew <= 20 || (max == 1 && lag <= 40) {
      forall stamp: Key -> int, clock: int, steps: seq<Step>
        | Possible(NewServer(clock), max, skew, stamp, steps) && Prompt(NewServer(clock), max, skew, stamp, steps, lag)
        ensures Within40(Serve(NewServer(clock), max, skew, stamp, steps).gate.accepted)
      {
        LagIsBrief(max, skew, stamp, clock, steps, lag);
      }
    } else if max >= 2 {
      OneSecondBreaks(max, skew, lag);
    } else {
      LongLagBreaks(max, skew, lag);
    }
  }

  // Without a bound on the lag the clock is no help.
  ghost predicate ToleratesThreads(max: nat, skew: nat) {
    forall stamp: Key -> int, clock: int, steps: seq<Step> :: Possible(NewServer(clock), max, skew, stamp, steps) ==>
      Within40(Serve(NewServer(clock), max, skew, stamp, steps).gate.accepted)
  }

  lemma ThreadsIff(max: nat, skew: nat)
    ensures ToleratesThreads(max, skew) <==> max == 0 || skew <= 20
  {
    if max == 0 || skew <= 20 {
      forall stamp: Key -> int, clock: int, steps: seq<Step> | Possible(NewServer(clock), max, skew, stamp, steps)
        ensures Within40(Serve(NewServer(clock), max, skew, stamp, steps).gate.accepted)
      {
        ServedAsDelivered(NewServer(clock), max, skew, stamp, steps);
        AnyClockIsBrief(max, skew, stamp, Claimed(NewServer(clock), max, skew, stamp, steps));
      }
    } else {
      LagIff(max, skew, 41);
    }
  }
}
