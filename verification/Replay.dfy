// Request freshness and replay protection (auth.py:88-107, adapters/memory.py:42-91).

module Replay {
  import opened Common

  const RETRANSMIT_TOLERANCE_SECONDS := 40

  type Key = (string, string)               // device id, nonce
  type Entries = map<Key, (int, int)>       // expiry, first seen

  datatype Verdict = Accepted | Stale | Replayed | Full | Unsigned

  function Purged(e: Entries, now: int): Entries {
    map k | k in e && e[k].0 > now :: e[k]
  }

  function ClaimIn(e: Entries, max: nat, key: Key, expiresAt: int, now: int): (Entries, Verdict) {
    var live := Purged(e, now);
    if key in live then
      (live, if now - live[key].1 <= RETRANSMIT_TOLERANCE_SECONDS then Accepted else Replayed)
    else if |live| >= max then (live, Full)
    else (live[key := (expiresAt, now)], Accepted)
  }

  class InMemoryReplayStore {
    const maxEntries: nat
    var entries: Entries

    constructor (maxEntries: nat)
      requires maxEntries > 0
      ensures this.maxEntries == maxEntries && entries == map[]
    {
      this.maxEntries := maxEntries;
      entries := map[];
    }

    method Claim(key: Key, expiresAt: int, now: int) returns (v: Verdict)
      modifies this`entries
      ensures (entries, v) == ClaimIn(old(entries), maxEntries, key, expiresAt, now)
      ensures |old(entries)| <= maxEntries ==> |entries| <= maxEntries
    {
      ghost var before := entries;
      var expired := set k | k in entries && entries[k].0 <= now;
      entries := entries - expired;
      assert entries == Purged(before, now);
      PurgedSmaller(before, now);
      if key in entries {
        return if now - entries[key].1 <= RETRANSMIT_TOLERANCE_SECONDS then Accepted else Replayed;
      }
      if |entries| >= maxEntries {
        return Full;
      }
      entries := entries[key := (expiresAt, now)];
      return Accepted;
    }
  }

  lemma PurgedSmaller(e: Entries, now: int)
    ensures |Purged(e, now)| <= |e|
  {
    var live := Purged(e, now);
    assert live.Keys <= e.Keys;
    SubsetSize(live.Keys, e.Keys);
  }

  lemma {:induction false} SubsetSize<T>(a: set<T>, b: set<T>)
    requires a <= b
    ensures |a| <= |b|
    decreases |a|
  {
    if a != {} {
      var x :| x in a;
      SubsetSize(a - {x}, b - {x});
    }
  }

  // ---------------------------------------------------------------- authentication

  // One delivery of a signed request.  Its timestamp is part of what was signed, so
  // the nonce determines it: `stamp` below.
  datatype Delivery = Delivery(key: Key, signed: bool, now: int)

  class RequestAuthenticator {
    const replayStore: InMemoryReplayStore
    const allowedSkew: nat

    constructor (replayStore: InMemoryReplayStore, allowedSkew: nat)
      ensures this.replayStore == replayStore && this.allowedSkew == allowedSkew
    {
      this.replayStore := replayStore;
      this.allowedSkew := allowedSkew;
    }

    // RequestAuthenticator.authenticate once the headers have parsed; `signed` is
    // the outcome of the device lookup and the signature check.  Here nothing comes
    // between the clock, read as d.now, and the claim; ReplayThreads lets other threads in.
    method Authenticate(d: Delivery, timestamp: int) returns (v: Verdict)
      modifies replayStore`entries
      ensures (replayStore.entries, v)
           == AuthenticateIn(old(replayStore.entries), replayStore.maxEntries, allowedSkew, timestamp, d)
    {
      var refusal := Check(d, timestamp);
      if refusal.Some? {
        return refusal.value;
      }
      v := replayStore.Claim(d.key, timestamp + allowedSkew + 1, d.now);
    }

    // Its part before the store is asked (lines 76-93).
    method Check(d: Delivery, timestamp: int) returns (refusal: Option<Verdict>)
      ensures refusal == Refusal(timestamp, allowedSkew, d)
    {
      if !d.signed {
        return Some(Unsigned);
      }
      var distance := if timestamp >= d.now then timestamp - d.now else d.now - timestamp;
      if distance > allowedSkew {
        return Some(Stale);
      }
      return None;
    }
  }

  predicate Fresh(timestamp: int, now: int, skew: nat) {
    now - skew <= timestamp <= now + skew
  }

  function Refusal(timestamp: int, skew: nat, d: Delivery): Option<Verdict> {
    if !d.signed then Some(Unsigned) else if !Fresh(timestamp, d.now, skew) then Some(Stale) else None
  }

  function AuthenticateIn(e: Entries, max: nat, skew: nat, timestamp: int, d: Delivery): (Entries, Verdict) {
    var refusal := Refusal(timestamp, skew, d);
    if refusal.Some? then (e, refusal.value) else ClaimIn(e, max, d.key, timestamp + skew + 1, d.now)
  }

  // ---------------------------------------------------------------- runs

  // Deliveries in the order of their claims.  The acceptances so far, oldest first.
  datatype Gate = Gate(entries: Entries, accepted: seq<Delivery>)

  function Deliver(g: Gate, max: nat, skew: nat, stamp: Key -> int, d: Delivery): Gate {
    var (e, v) := AuthenticateIn(g.entries, max, skew, stamp(d.key), d);
    Gate(e, if v.Accepted? then g.accepted + [d] else g.accepted)
  }

  function Run(g: Gate, max: nat, skew: nat, stamp: Key -> int, ds: seq<Delivery>): Gate
    decreases |ds|
  {
    if ds == [] then g else Run(Deliver(g, max, skew, stamp, ds[0]), max, skew, stamp, ds[1..])
  }

  // Position of the first acceptance of a nonce, or |accepted|.
  function FirstOf(accepted: seq<Delivery>, key: Key): (i: nat)
    ensures i <= |accepted|
    ensures i < |accepted| ==> accepted[i].key == key
    ensures forall j :: 0 <= j < i ==> accepted[j].key != key
  {
    if accepted == [] then 0
    else if accepted[0].key == key then 0
    else 1 + FirstOf(accepted[1..], key)
  }

  ghost predicate NonDecreasing(ds: seq<Delivery>, from: int) {
    ds != [] ==> from <= ds[0].now && NonDecreasing(ds[1..], ds[0].now)
  }

  // The store remembers the first acceptance of a nonce for as long as its
  // timestamp can still be fresh.
  ghost predicate KeyOk(g: Gate, skew: nat, timestamp: int, k: Key, clock: int) {
    var i := FirstOf(g.accepted, k);
    if i == |g.accepted| then k !in g.entries
    else if k in g.entries then g.entries[k] == (timestamp + skew + 1, g.accepted[i].now)
    else timestamp + skew + 1 <= clock
  }

  ghost predicate Brief(accepted: seq<Delivery>, d: Delivery, clock: int) {
    var i := FirstOf(accepted, d.key);
    i < |accepted| && accepted[i].now <= d.now <= accepted[i].now + RETRANSMIT_TOLERANCE_SECONDS && d.now <= clock
  }

  ghost predicate Remembers(g: Gate, max: nat, skew: nat, stamp: Key -> int, clock: int) {
    && |g.entries| <= max
    && (forall k :: KeyOk(g, skew, stamp(k), k, clock))
    && (forall d :: d in g.accepted ==> Brief(g.accepted, d, clock))
  }

  lemma FirstOfAppend(accepted: seq<Delivery>, d: Delivery, key: Key)
    ensures FirstOf(accepted + [d], key)
         == if FirstOf(accepted, key) < |accepted| || d.key == key then FirstOf(accepted, key) else |accepted| + 1
  {
    var i := FirstOf(accepted + [d], key);
    var j := FirstOf(accepted, key);
    assert forall n :: 0 <= n < |accepted| ==> (accepted + [d])[n] == accepted[n];
    assert (accepted + [d])[|accepted|] == d;
  }

  // Exactly when a delivery is accepted, in terms of what was accepted before.
  ghost predicate ShouldAccept(g: Gate, max: nat, skew: nat, stamp: Key -> int, d: Delivery) {
    && d.signed && Fresh(stamp(d.key), d.now, skew)
    && var i := FirstOf(g.accepted, d.key);
       if i < |g.accepted| then d.now <= g.accepted[i].now + RETRANSMIT_TOLERANCE_SECONDS
       else |Purged(g.entries, d.now)| < max
  }

  lemma KeyKeeps(g: Gate, max: nat, skew: nat, stamp: Key -> int, d: Delivery, clock: int, k: Key)
    requires Remembers(g, max, skew, stamp, clock) && clock <= d.now
    ensures KeyOk(Deliver(g, max, skew, stamp, d), skew, stamp(k), k, d.now)
  {
    assert KeyOk(g, skew, stamp(k), k, clock);
    FirstOfAppend(g.accepted, d, k);
  }

  lemma BriefKeeps(g: Gate, max: nat, skew: nat, stamp: Key -> int, d: Delivery, clock: int, x: Delivery)
    requires Remembers(g, max, skew, stamp, clock) && clock <= d.now
    requires x in Deliver(g, max, skew, stamp, d).accepted
    ensures Brief(Deliver(g, max, skew, stamp, d).accepted, x, d.now)
  {
    FirstOfAppend(g.accepted, d, x.key);
    assert KeyOk(g, skew, stamp(x.key), x.key, clock);
    if x in g.accepted {
      assert Brief(g.accepted, x, clock);
    }
    var i := FirstOf(g.accepted, x.key);
    if i < |g.accepted| {
      assert Brief(g.accepted, g.accepted[i], clock);
    }
  }

  lemma DeliverKeeps(g: Gate, max: nat, skew: nat, stamp: Key -> int, d: Delivery, clock: int)
    requires Remembers(g, max, skew, stamp, clock) && clock <= d.now
    ensures Remembers(Deliver(g, max, skew, stamp, d), max, skew, stamp, d.now)
  {
    PurgedSmaller(g.entries, d.now);
    forall k ensures KeyOk(Deliver(g, max, skew, stamp, d), skew, stamp(k), k, d.now) {
      KeyKeeps(g, max, skew, stamp, d, clock, k);
    }
    forall x | x in Deliver(g, max, skew, stamp, d).accepted
      ensures Brief(Deliver(g, max, skew, stamp, d).accepted, x, d.now)
    {
      BriefKeeps(g, max, skew, stamp, d, clock, x);
    }
  }

  // A delivery is accepted exactly when its history says so.
  lemma AcceptedIff(g: Gate, max: nat, skew: nat, stamp: Key -> int, d: Delivery, clock: int)
    requires Remembers(g, max, skew, stamp, clock) && clock <= d.now
    ensures AuthenticateIn(g.entries, max, skew, stamp(d.key), d).1.Accepted? <==> ShouldAccept(g, max, skew, stamp, d)
  {
    assert KeyOk(g, skew, stamp(d.key), d.key, clock);
  }

  // The nonces accepted so far whose timestamps can still be fresh after this time.
  ghost function Alive(accepted: seq<Delivery>, skew: nat, stamp: Key -> int, now: int): set<Key> {
    set d | d in accepted && stamp(d.key) + skew >= now :: d.key
  }

  lemma PurgedIsAlive(g: Gate, max: nat, skew: nat, stamp: Key -> int, now: int, clock: int)
    requires Remembers(g, max, skew, stamp, clock) && clock <= now
    ensures Purged(g.entries, now).Keys == Alive(g.accepted, skew, stamp, now)
  {
    forall k ensures k in Purged(g.entries, now) <==> k in Alive(g.accepted, skew, stamp, now) {
      assert KeyOk(g, skew, stamp(k), k, clock);
      var i := FirstOf(g.accepted, k);
      if i < |g.accepted| { assert g.accepted[i] in g.accepted && g.accepted[i].key == k; }
    }
  }

  // What a delivery is answered, told from the history of acceptances alone: unsigned,
  // outside the window, repeated later than 40 s after its first acceptance, new with all
  // places taken by nonces that are alive, or accepted.
  lemma VerdictIs(g: Gate, max: nat, skew: nat, stamp: Key -> int, d: Delivery, clock: int)
    requires Remembers(g, max, skew, stamp, clock) && clock <= d.now
    ensures var i := FirstOf(g.accepted, d.key);
            AuthenticateIn(g.entries, max, skew, stamp(d.key), d).1
            == if !d.signed then Unsigned
               else if stamp(d.key) > d.now + skew || stamp(d.key) < d.now - skew then Stale
               else if i < |g.accepted| then (if d.now - g.accepted[i].now > 40 then Replayed else Accepted)
               else if |Alive(g.accepted, skew, stamp, d.now)| >= max then Full else Accepted
  {
    assert KeyOk(g, skew, stamp(d.key), d.key, clock);
    PurgedIsAlive(g, max, skew, stamp, d.now, clock);
    var live := Purged(g.entries, d.now);
    assert |live| == |live.Keys|;
  }

  lemma {:induction false} RunKeeps(g: Gate, max: nat, skew: nat, stamp: Key -> int, ds: seq<Delivery>, clock: int)
    returns (last: int)
    requires Remembers(g, max, skew, stamp, clock) && NonDecreasing(ds, clock)
    ensures Remembers(Run(g, max, skew, stamp, ds), max, skew, stamp, last)
    decreases |ds|
  {
    last := clock;
    if ds != [] {
      DeliverKeeps(g, max, skew, stamp, ds[0], clock);
      last := RunKeeps(Deliver(g, max, skew, stamp, ds[0]), max, skew, stamp, ds[1..], ds[0].now);
    }
  }

  // With claims in the order of their times, every acceptance of a signed request lies
  // within 40 s of its first one, however often the store was purged in between, and the
  // store stays within its capacity.
  lemma AcceptedOnlyBriefly(max: nat, skew: nat, stamp: Key -> int, ds: seq<Delivery>, clock: int, i: nat, j: nat)
    requires NonDecreasing(ds, clock)
    requires var g := Run(Gate(map[], []), max, skew, stamp, ds);
             i < |g.accepted| && j < |g.accepted| && g.accepted[i].key == g.accepted[j].key
    ensures var g := Run(Gate(map[], []), max, skew, stamp, ds);
            -40 <= g.accepted[i].now - g.accepted[j].now <= 40 && |g.entries| <= max
  {
    var last := RunKeeps(Gate(map[], []), max, skew, stamp, ds, clock);
    var accepted := Run(Gate(map[], []), max, skew, stamp, ds).accepted;
    assert Brief(accepted, accepted[i], last) && Brief(accepted, accepted[j], last);
  }

  // ---------------------------------------------------------------- times that step back

  lemma RunOfThree(g: Gate, max: nat, skew: nat, stamp: Key -> int, d1: Delivery, d2: Delivery, d3: Delivery)
    ensures Run(g, max, skew, stamp, [d1, d2, d3])
         == Deliver(Deliver(Deliver(g, max, skew, stamp, d1), max, skew, stamp, d2), max, skew, stamp, d3)
  {
    assert [d1, d2, d3][1..] == [d2, d3] && [d2, d3][1..] == [d3] && [d3][1..] == [];
    var g1 := Deliver(g, max, skew, stamp, d1);
    var g2 := Deliver(g1, max, skew, stamp, d2);
    assert Run(g, max, skew, stamp, [d1, d2, d3]) == Run(g1, max, skew, stamp, [d2, d3]);
    assert Run(g1, max, skew, stamp, [d2, d3]) == Run(g2, max, skew, stamp, [d3]);
    assert Run(g2, max, skew, stamp, [d3]) == Run(Deliver(g2, max, skew, stamp, d3), max, skew, stamp, []);
  }

  lemma RunOfTwo(g: Gate, max: nat, skew: nat, stamp: Key -> int, d1: Delivery, d2: Delivery)
    ensures Run(g, max, skew, stamp, [d1, d2]) == Deliver(Deliver(g, max, skew, stamp, d1), max, skew, stamp, d2)
  {
    assert [d1, d2][1..] == [d2] && [d2][1..] == [];
    var g1 := Deliver(g, max, skew, stamp, d1);
    assert Run(g, max, skew, stamp, [d1, d2]) == Run(g1, max, skew, stamp, [d2]);
    assert Run(g1, max, skew, stamp, [d2]) == Run(Deliver(g1, max, skew, stamp, d2), max, skew, stamp, []);
  }

  // Any step back from one claim's time to the next, by one second or more, lets a purged
  // request in again: the next message purges it, and behind the step its timestamp is
  // fresh once more.
  lemma StepBackBreaks(max: nat, skew: nat, stamp: Key -> int, a: Key, b: Key, t1: int, t2: int)
    requires max >= 2 && a != b && t2 < t1 && stamp(a) == t2 - skew && stamp(b) == t1
    ensures var d1, d2, d3 := Delivery(a, true, t2 - 2 * skew), Delivery(b, true, t1), Delivery(a, true, t2);
            Run(Gate(map[], []), max, skew, stamp, [d1, d2, d3]).accepted == [d1, d2, d3]
  {
    var d1, d2, d3 := Delivery(a, true, t2 - 2 * skew), Delivery(b, true, t1), Delivery(a, true, t2);
    var e1: Entries := map[a := (t2 + 1, t2 - 2 * skew)];
    var e2: Entries := map[b := (t1 + skew + 1, t1)];
    assert Purged(map[], t2 - 2 * skew) == map[] && map[][a := (t2 + 1, t2 - 2 * skew)] == e1;
    assert Deliver(Gate(map[], []), max, skew, stamp, d1) == Gate(e1, [d1]);
    assert Purged(e1, t1) == map[] && map[][b := (t1 + skew + 1, t1)] == e2;
    assert Deliver(Gate(e1, [d1]), max, skew, stamp, d2) == Gate(e2, [d1, d2]);
    assert Purged(e2, t2) == e2 && |e2| == 1;
    assert Deliver(Gate(e2, [d1, d2]), max, skew, stamp, d3).accepted == [d1, d2, d3];
    RunOfThree(Gate(map[], []), max, skew, stamp, d1, d2, d3);
  }

  function TwoStamps(k: Key): int {
    if k == ("eye", "n1") then 1000 else 1301
  }

  // With the default window and one second of step back the request comes in again ten
  // minutes later.
  lemma ClockStepBack()
    ensures var d1, d2 := Delivery(("eye", "n1"), true, 700), Delivery(("eye", "n2"), true, 1301);
            var d3 := d1.(now := 1300);
            Run(Gate(map[], []), 4096, 300, TwoStamps, [d1, d2, d3]).accepted == [d1, d2, d3]
  {
    var n1, n2 := ("eye", "n1"), ("eye", "n2");
    assert n1.1[1] != n2.1[1];
    StepBackBreaks(4096, 300, TwoStamps, n1, n2, 1301, 1300);
  }

  // Every acceptance of a message lies within 40 s of its first one.
  ghost predicate Within40(accepted: seq<Delivery>) {
    forall d :: d in accepted ==> NearFirst(accepted, d)
  }

  ghost predicate NearFirst(accepted: seq<Delivery>, d: Delivery) {
    var i := FirstOf(accepted, d.key);
    i < |accepted| && -40 <= d.now - accepted[i].now <= 40
  }

  lemma FarFromFirst(accepted: seq<Delivery>, d: Delivery)
    requires d in accepted && accepted[0].key == d.key && !(-40 <= d.now - accepted[0].now <= 40)
    ensures !Within40(accepted)
  {
    assert !NearFirst(accepted, d);
  }

  // The times of the claims go forward, except that they may step from t1 to t2.
  ghost predicate StepsOnly(ds: seq<Delivery>, t1: int, t2: int) {
    |ds| >= 2 ==> (ds[0].now <= ds[1].now || (ds[0].now == t1 && ds[1].now == t2)) && StepsOnly(ds[1..], t1, t2)
  }

  ghost predicate ToleratesStep(max: nat, skew: nat, t1: int, t2: int) {
    forall stamp: Key -> int, ds :: StepsOnly(ds, t1, t2)
      ==> Within40(Run(Gate(map[], []), max, skew, stamp, ds).accepted)
  }

  // Which steps the 40 s survive, over all such runs: forward ones, any in a store that
  // holds nothing or behind a window no wider than the tolerance, and up to 40 s back in
  // a store with one place.  No other.
  lemma ClockIff(max: nat, skew: nat, t1: int, t2: int)
    ensures ToleratesStep(max, skew, t1, t2) <==> t1 <= t2 || max == 0 || skew <= 20 || (max == 1 && t1 - t2 <= 40)
  {
    if t1 <= t2 || max == 0 || skew <= 20 || (max == 1 && t1 - t2 <= 40) {
      forall stamp: Key -> int, ds: seq<Delivery> | StepsOnly(ds, t1, t2)
        ensures Within40(Run(Gate(map[], []), max, skew, stamp, ds).accepted)
      {
        if t1 <= t2 {
          StepsForward(ds, t1, t2);
          var clock: int := if ds == [] then 0 else ds[0].now;
          ForwardIsBrief(max, skew, stamp, ds, clock);
        } else if max == 0 || skew <= 20 {
          AnyClockIsBrief(max, skew, stamp, ds);
        } else {
          StepsDrop(ds, t1, t2);
          OnePlaceIsBrief(skew, stamp, ds, t1 - t2);
        }
      }
    } else if max >= 2 {
      StepBackNotTolerated(max, skew, t1, t2);
    } else {
      LongStepNotTolerated(max, skew, t1, t2);
    }
  }

  lemma StepBackNotTolerated(max: nat, skew: nat, t1: int, t2: int)
    requires max >= 2 && skew > 20 && t2 < t1
    ensures !ToleratesStep(max, skew, t1, t2)
  {
    var a, b := ("eye", "a"), ("eye", "b");
    assert a.1[0] != b.1[0];
    var stamp: Key -> int := k => if k == a then t2 - skew else t1;
    var d1, d2, d3 := Delivery(a, true, t2 - 2 * skew), Delivery(b, true, t1), Delivery(a, true, t2);
    StepBackBreaks(max, skew, stamp, a, b, t1, t2);
    assert [d1, d2, d3][1..] == [d2, d3] && [d2, d3][1..] == [d3];
    assert StepsOnly([d1, d2, d3], t1, t2);
    FarFromFirst([d1, d2, d3], d3);
  }

  // A message accepted again before its first time, with a forged one in between.
  lemma EarlyRepeat(max: nat, skew: nat, stamp: Key -> int, a: Key, first: int, t1: int, t2: int)
    requires max >= 1 && stamp(a) == t2 + skew && t2 <= first <= t2 + 2 * skew
    ensures var d1, d2, d3 := Delivery(a, true, first), Delivery(a, false, t1), Delivery(a, true, t2);
            Run(Gate(map[], []), max, skew, stamp, [d1, d2, d3]).accepted == [d1, d3]
  {
    var d1, d2, d3 := Delivery(a, true, first), Delivery(a, false, t1), Delivery(a, true, t2);
    var e: Entries := map[a := (t2 + 2 * skew + 1, first)];
    assert Purged(map[], first) == map[] && map[][a := (t2 + 2 * skew + 1, first)] == e && Purged(e, t2) == e;
    assert Deliver(Gate(map[], []), max, skew, stamp, d1) == Gate(e, [d1]);
    assert Deliver(Gate(e, [d1]), max, skew, stamp, d2) == Gate(e, [d1]);
    assert Deliver(Gate(e, [d1]), max, skew, stamp, d3).accepted == [d1, d3];
    RunOfThree(Gate(map[], []), max, skew, stamp, d1, d2, d3);
  }

  // A longer step back than 40 s shows in any store: the repeat comes too early.
  lemma LongStepNotTolerated(max: nat, skew: nat, t1: int, t2: int)
    requires max >= 1 && skew > 20 && t1 - t2 > 40
    ensures !ToleratesStep(max, skew, t1, t2)
  {
    var a := ("eye", "a");
    var first := if t1 - t2 <= 2 * skew then t1 else t2 + 2 * skew;
    var stamp: Key -> int := _ => t2 + skew;
    var d1, d2, d3 := Delivery(a, true, first), Delivery(a, false, t1), Delivery(a, true, t2);
    EarlyRepeat(max, skew, stamp, a, first, t1, t2);
    assert [d1, d2, d3][1..] == [d2, d3] && [d2, d3][1..] == [d3];
    assert StepsOnly([d1, d2, d3], t1, t2);
    FarFromFirst([d1, d3], d3);
  }

  lemma {:induction false} StepsForward(ds: seq<Delivery>, t1: int, t2: int)
    requires StepsOnly(ds, t1, t2) && t1 <= t2
    ensures ds != [] ==> NonDecreasing(ds, ds[0].now)
    decreases |ds|
  {
    if |ds| >= 2 {
      StepsForward(ds[1..], t1, t2);
    } else if |ds| == 1 {
      assert ds[1..] == [];
    }
  }

  lemma ForwardIsBrief(max: nat, skew: nat, stamp: Key -> int, ds: seq<Delivery>, clock: int)
    requires NonDecreasing(ds, clock)
    ensures Within40(Run(Gate(map[], []), max, skew, stamp, ds).accepted)
  {
    var accepted := Run(Gate(map[], []), max, skew, stamp, ds).accepted;
    forall d | d in accepted ensures NearFirst(accepted, d) {
      var j :| 0 <= j < |accepted| && accepted[j] == d;
      FirstIsThere(accepted, d);
      AcceptedOnlyBriefly(max, skew, stamp, ds, clock, FirstOf(accepted, d.key), j);
    }
  }

  lemma FirstIsThere(accepted: seq<Delivery>, d: Delivery)
    requires d in accepted
    ensures FirstOf(accepted, d.key) < |accepted|
  {
  }

  // ---------------------------------------------------------------- when the times do not matter

  ghost predicate BriefUnderAnyClock(max: nat, skew: nat) {
    forall stamp: Key -> int, ds :: Within40(Run(Gate(map[], []), max, skew, stamp, ds).accepted)
  }

  ghost predicate AllFresh(skew: nat, stamp: Key -> int, accepted: seq<Delivery>) {
    forall d :: d in accepted ==> Fresh(stamp(d.key), d.now, skew)
  }

  lemma {:induction false} RunFresh(g: Gate, max: nat, skew: nat, stamp: Key -> int, ds: seq<Delivery>)
    requires AllFresh(skew, stamp, g.accepted)
    ensures AllFresh(skew, stamp, Run(g, max, skew, stamp, ds).accepted)
    decreases |ds|
  {
    if ds != [] { RunFresh(Deliver(g, max, skew, stamp, ds[0]), max, skew, stamp, ds[1..]); }
  }

  lemma {:induction false} RunEmpty(skew: nat, stamp: Key -> int, ds: seq<Delivery>)
    ensures Run(Gate(map[], []), 0, skew, stamp, ds) == Gate(map[], [])
    decreases |ds|
  {
    if ds != [] {
      assert Purged(map[], ds[0].now) == map[];
      RunEmpty(skew, stamp, ds[1..]);
    }
  }

  lemma AnyClockIsBrief(max: nat, skew: nat, stamp: Key -> int, ds: seq<Delivery>)
    requires max == 0 || skew <= 20
    ensures Within40(Run(Gate(map[], []), max, skew, stamp, ds).accepted)
  {
    RunFresh(Gate(map[], []), max, skew, stamp, ds);
    if max == 0 { RunEmpty(skew, stamp, ds); }
    var accepted := Run(Gate(map[], []), max, skew, stamp, ds).accepted;
    forall d | d in accepted ensures NearFirst(accepted, d) {
      FirstIsThere(accepted, d);
      assert accepted[FirstOf(accepted, d.key)] in accepted;
    }
  }

  // The times matter exactly when the store holds anything and the window is wider
  // than the tolerance.
  lemma AnyClockIff(max: nat, skew: nat)
    ensures BriefUnderAnyClock(max, skew) <==> max == 0 || skew <= 20
  {
    if max == 0 || skew <= 20 {
      forall stamp: Key -> int, ds ensures Within40(Run(Gate(map[], []), max, skew, stamp, ds).accepted) {
        AnyClockIsBrief(max, skew, stamp, ds);
      }
    } else {
      RunBackward(max, skew);
    }
  }

  // One message claimed at a late time and then at an early one.
  lemma LateThenEarly(max: nat, skew: nat, stamp: Key -> int, a: Key, late: int, early: int)
    requires max > 0 && early <= late && Fresh(stamp(a), late, skew) && Fresh(stamp(a), early, skew)
    ensures var d1, d2 := Delivery(a, true, late), Delivery(a, true, early);
            Run(Gate(map[], []), max, skew, stamp, [d1, d2]).accepted == [d1, d2]
  {
    var d1, d2 := Delivery(a, true, late), Delivery(a, true, early);
    var e: Entries := map[a := (stamp(a) + skew + 1, late)];
    assert Purged(map[], late) == map[] && map[][a := (stamp(a) + skew + 1, late)] == e && Purged(e, early) == e;
    assert Deliver(Gate(map[], []), max, skew, stamp, d1) == Gate(e, [d1]);
    assert Deliver(Gate(e, [d1]), max, skew, stamp, d2).accepted == [d1, d2];
    RunOfTwo(Gate(map[], []), max, skew, stamp, d1, d2);
  }

  // At the end of its window and then at the beginning.
  lemma RunBackward(max: nat, skew: nat)
    requires max > 0 && skew > 20
    ensures !BriefUnderAnyClock(max, skew)
  {
    var a := ("eye", "a");
    var stamp: Key -> int := _ => skew;
    var d1, d2 := Delivery(a, true, 2 * skew), Delivery(a, true, 0);
    LateThenEarly(max, skew, stamp, a, 2 * skew, 0);
    FarFromFirst([d1, d2], d2);
  }

  // ---------------------------------------------------------------- a store with one place

  // Once a message has lost the place, the one that has it lives longer than the
  // message's timestamp is fresh.
  ghost predicate PlaceOk(g: Gate, skew: nat, timestamp: int, k: Key) {
    var i := FirstOf(g.accepted, k);
    if i == |g.accepted| then k !in g.entries
    else if k in g.entries then g.entries[k] == (timestamp + skew + 1, g.accepted[i].now)
    else exists h :: h in g.entries && g.entries[h].0 > timestamp + skew + 1
  }

  // No repeat is later than 40 s, or earlier than the step back is long.
  ghost predicate Near(accepted: seq<Delivery>, d: Delivery) {
    var i := FirstOf(accepted, d.key);
    i < |accepted| && d.now <= accepted[i].now + 40
  }

  // Later ones come at most this much earlier.
  ghost predicate DropsLittle(ds: seq<Delivery>, drop: int) {
    forall i, j :: 0 <= i < j < |ds| ==> ds[i].now - ds[j].now <= drop
  }

  ghost predicate OnePlace(g: Gate, skew: nat, stamp: Key -> int) {
    && |g.entries| <= 1 && (forall k :: PlaceOk(g, skew, stamp(k), k))
    && (forall d :: d in g.accepted ==> Near(g.accepted, d))
  }

  lemma OnlyOne(e: Entries, h: Key, k: Key)
    requires |e| <= 1 && h in e && k in e
    ensures h == k
  {
    SubsetSize({h, k}, e.Keys);
    PairSize(h, k);
  }

  lemma PairSize(h: Key, k: Key)
    ensures h != k ==> |{h, k}| == 2
  {
  }

  // The holder of the place is still there.
  lemma PlaceTaken(e: Entries, now: int, h: Key)
    requires h in e && e[h].0 > now
    ensures |Purged(e, now)| >= 1
  {
    SubsetSize({h}, Purged(e, now).Keys);
  }

  lemma PlaceKeeps(g: Gate, skew: nat, stamp: Key -> int, d: Delivery, k: Key)
    requires OnePlace(g, skew, stamp)
    ensures PlaceOk(Deliver(g, 1, skew, stamp, d), skew, stamp(k), k)
  {
    assert PlaceOk(g, skew, stamp(k), k) && PlaceOk(g, skew, stamp(d.key), d.key);
    FirstOfAppend(g.accepted, d, k);
    var g' := Deliver(g, 1, skew, stamp, d);
    if FirstOf(g.accepted, k) < |g.accepted| && k !in g.entries && Fresh(stamp(k), d.now, skew) {
      var h := Holder(g.entries, stamp(k) + skew + 1);
      PlaceTaken(g.entries, d.now, h);
    }
    if FirstOf(g.accepted, k) < |g.accepted| && k !in g'.entries {
      StillBehind(g, skew, stamp, d, k);
    }
  }

  // A message without the place stays behind the one that has it.
  lemma StillBehind(g: Gate, skew: nat, stamp: Key -> int, d: Delivery, k: Key)
    requires OnePlace(g, skew, stamp) && FirstOf(g.accepted, k) < |g.accepted|
    requires k !in Deliver(g, 1, skew, stamp, d).entries
    ensures var e := Deliver(g, 1, skew, stamp, d).entries; exists h :: h in e && e[h].0 > stamp(k) + skew + 1
  {
    assert PlaceOk(g, skew, stamp(k), k);
    var e := Deliver(g, 1, skew, stamp, d).entries;
    var h := k;
    if k !in g.entries { h := Holder(g.entries, stamp(k) + skew + 1); }
    if h in e {
      assert e[h].0 > stamp(k) + skew + 1;
    } else {
      forall x | x in g.entries ensures x == h { OnlyOne(g.entries, x, h); }
      assert Purged(g.entries, d.now) == map[];
      assert d.key in e && e[d.key].0 > stamp(k) + skew + 1;
    }
  }

  lemma Holder(e: Entries, bound: int) returns (h: Key)
    requires exists h :: h in e && e[h].0 > bound
    ensures h in e && e[h].0 > bound
  {
    h :| h in e && e[h].0 > bound;
  }

  lemma NearKeeps(g: Gate, skew: nat, stamp: Key -> int, d: Delivery)
    requires OnePlace(g, skew, stamp) && AuthenticateIn(g.entries, 1, skew, stamp(d.key), d).1.Accepted?
    ensures Near(g.accepted + [d], d)
  {
    assert PlaceOk(g, skew, stamp(d.key), d.key);
    FirstOfAppend(g.accepted, d, d.key);
    if FirstOf(g.accepted, d.key) < |g.accepted| && d.key !in g.entries {
      var h := Holder(g.entries, stamp(d.key) + skew + 1);
      PlaceTaken(g.entries, d.now, h);
      assert false;
    }
  }

  lemma OnePlaceKeeps(g: Gate, skew: nat, stamp: Key -> int, d: Delivery)
    requires OnePlace(g, skew, stamp)
    ensures OnePlace(Deliver(g, 1, skew, stamp, d), skew, stamp)
  {
    var g' := Deliver(g, 1, skew, stamp, d);
    PurgedSmaller(g.entries, d.now);
    forall k ensures PlaceOk(g', skew, stamp(k), k) { PlaceKeeps(g, skew, stamp, d, k); }
    forall x | x in g'.accepted ensures Near(g'.accepted, x) {
      FirstOfAppend(g.accepted, d, x.key);
      if x in g.accepted {
        assert Near(g.accepted, x);
      } else {
        NearKeeps(g, skew, stamp, d);
      }
    }
  }

  lemma {:induction false} OnePlaceRun(g: Gate, skew: nat, stamp: Key -> int, ds: seq<Delivery>, drop: int)
    requires OnePlace(g, skew, stamp) && DropsLittle(g.accepted + ds, drop)
    ensures var g' := Run(g, 1, skew, stamp, ds); OnePlace(g', skew, stamp) && DropsLittle(g'.accepted, drop)
    decreases |ds|
  {
    if ds == [] {
      assert g.accepted + ds == g.accepted;
    } else {
      OnePlaceKeeps(g, skew, stamp, ds[0]);
      DropsStep(g.accepted, ds, drop);
      OnePlaceRun(Deliver(g, 1, skew, stamp, ds[0]), skew, stamp, ds[1..], drop);
    }
  }

  // Whether the next one is accepted or not.
  lemma DropsStep(accepted: seq<Delivery>, ds: seq<Delivery>, drop: int)
    requires ds != [] && DropsLittle(accepted + ds, drop)
    ensures DropsLittle(accepted + ds[1..], drop) && DropsLittle(accepted + [ds[0]] + ds[1..], drop)
  {
    var all, less := accepted + ds, accepted + ds[1..];
    assert accepted + [ds[0]] + ds[1..] == all;
    forall i, j | 0 <= i < j < |less| ensures less[i].now - less[j].now <= drop {
      var i', j' := if i < |accepted| then i else i + 1, if j < |accepted| then j else j + 1;
      assert less[i] == all[i'] && less[j] == all[j'];
    }
  }

  lemma {:induction false} StepsDrop(ds: seq<Delivery>, t1: int, t2: int)
    requires StepsOnly(ds, t1, t2) && t2 < t1
    ensures DropsLittle(ds, t1 - t2)
    ensures forall j :: 0 <= j < |ds| ==> ds[0].now <= ds[j].now || (ds[0].now <= t1 && t2 <= ds[j].now)
    decreases |ds|
  {
    if |ds| >= 2 {
      var rest := ds[1..];
      StepsDrop(rest, t1, t2);
      forall j | 1 <= j < |ds| ensures ds[0].now <= ds[j].now || (ds[0].now <= t1 && t2 <= ds[j].now) {
        assert ds[j] == rest[j - 1] && ds[1] == rest[0];
      }
      forall i, j | 0 <= i < j < |ds| ensures ds[i].now - ds[j].now <= t1 - t2 {
        if i > 0 { assert ds[i] == rest[i - 1] && ds[j] == rest[j - 1]; }
      }
    }
  }

  lemma NearBoth(accepted: seq<Delivery>, d: Delivery, drop: int)
    requires d in accepted && Near(accepted, d) && DropsLittle(accepted, drop) && drop <= 40
    ensures NearFirst(accepted, d)
  {
    var i, j :| i == FirstOf(accepted, d.key) && 0 <= j < |accepted| && accepted[j] == d;
    assert j < i ==> accepted[j].key != d.key;
  }

  lemma OnePlaceIsBrief(skew: nat, stamp: Key -> int, ds: seq<Delivery>, drop: int)
    requires DropsLittle(ds, drop) && drop <= 40
    ensures Within40(Run(Gate(map[], []), 1, skew, stamp, ds).accepted)
  {
    assert DropsLittle(Gate(map[], []).accepted + ds, drop) by { assert Gate(map[], []).accepted + ds == ds; }
    OnePlaceRun(Gate(map[], []), skew, stamp, ds, drop);
    var accepted := Run(Gate(map[], []), 1, skew, stamp, ds).accepted;
    forall d | d in accepted ensures NearFirst(accepted, d) {
      NearBoth(accepted, d, drop);
    }
  }
}
