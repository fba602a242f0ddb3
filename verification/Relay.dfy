// The reassembly loop of the relay (serial_llm_relay.py:385-449): pending entries,
// NACK rounds and forwarding.

module Relay {
  import opened Common
  import opened Base64
  import opened Decimal
  import opened Tunnel

  const MAX_ROUNDS := 6          // RELAY_MAX_ROUNDS
  const ROUND_MILLIS := 3000     // RELAY_ROUND_SECONDS

  // One key of the dictionary, in insertion order.
  datatype Slot = Slot(xid: int, n: Option<int>, chunks: map<int, string>, deadline: int, round: int)

  datatype Output =
    | Ack
    | Nack(missing: seq<nat>)
    | Forward(xid: int, request: seq<Byte>)

  // ---------------------------------------------------------------- events

  predicate Has(pending: seq<Slot>, xid: int) { exists i :: 0 <= i < |pending| && pending[i].xid == xid }

  function Stored(pending: seq<Slot>, e: Event, at: int): seq<Slot>
    requires e.Got?
  {
    if pending == [] then [Slot(e.xid, None, map[e.seqno := e.payload], at + ROUND_MILLIS, 0)]
    else if pending[0].xid == e.xid then [pending[0].(chunks := pending[0].chunks[e.seqno := e.payload])] + pending[1..]
    else [pending[0]] + Stored(pending[1..], e, at)
  }

  // A header drops every other entry and starts its own anew.
  function Handled(pending: seq<Slot>, e: Event, at: int): seq<Slot> {
    match e
    case Opened(xid, n) => [Slot(xid, Some(n), map[], at + ROUND_MILLIS, 0)]
    case Got(_, _, _) => Stored(pending, e, at)
  }

  // ---------------------------------------------------------------- one entry of a sweep

  ghost predicate IsMax(m: map<int, string>, k: int) { k in m && forall j :: j in m ==> j <= k }

  lemma {:induction false} MaxExists(m: map<int, string>)
    requires m != map[]
    ensures exists k :: IsMax(m, k)
    decreases |m|
  {
    if forall k :: k !in m { assert false; }
    var k :| k in m;
    var rest := m - {k};
    if rest == map[] {
      assert forall j :: j in m ==> j == k || j in rest;
      assert IsMax(m, k);
    } else {
      MaxExists(rest);
      var t :| IsMax(rest, t);
      assert forall j :: j in m ==> j == k || j in rest;
      assert IsMax(m, if k > t then k else t);
    }
  }

  // How many chunks an entry waits for: told by its header or guessed from what came.
  ghost function Total(s: Slot): (total: int)
    ensures s.n.None? && s.chunks != map[] ==> IsMax(s.chunks, total - 1)
  {
    if s.n.Some? then s.n.value
    else if s.chunks == map[] then 0
    else
      MaxExists(s.chunks);
      var k :| IsMax(s.chunks, k);
      k + 1
  }

  function Missing(chunks: map<int, string>, total: int): seq<nat>
    decreases total
  {
    if total <= 0 then []
    else Missing(chunks, total - 1) + if total - 1 in chunks then [] else [total - 1]
  }

  function Joined(chunks: map<int, string>, total: int): string
    decreases total
  {
    if total <= 0 then ""
    else Joined(chunks, total - 1) + if total - 1 in chunks then chunks[total - 1] else ""
  }

  function Completed(xid: int, text: string): seq<Output> {
    var request := B64Decode(text);
    if request.Some? then [Ack, Forward(xid, request.value)] else [Ack, Nack([0])]
  }

  // What a sweep does with one entry.
  ghost function Settled(s: Slot, now: int): (Option<Slot>, seq<Output>) {
    var total := Total(s);
    var missing := Missing(s.chunks, total);
    if total <= 0 || (missing != [] && now < s.deadline) then (Some(s), [])
    else if missing == [] then (None, Completed(s.xid, Joined(s.chunks, total)))
    else if s.round + 1 > MAX_ROUNDS then (None, [])
    else (Some(s.(round := s.round + 1, deadline := now + ROUND_MILLIS)), [Nack(missing)])
  }

  function AsSeq<T>(o: Option<T>): seq<T> { if o.Some? then [o.value] else [] }

  // One sweep over all entries: what is kept and what is sent.
  ghost function Swept(pending: seq<Slot>, now: int): (seq<Slot>, seq<Output>) {
    if pending == [] then ([], [])
    else
      var (slot, more) := Settled(pending[0], now);
      var (kept, outs) := Swept(pending[1..], now);
      (AsSeq(slot) + kept, more + outs)
  }

  // ---------------------------------------------------------------- the code

  class RelayLoop {
    var pending: seq<Slot>
    ghost var out: seq<Output>

    constructor ()
      ensures pending == [] && out == []
    {
      pending, out := [], [];
    }

    method Handle(e: Event, at: int)
      modifies this`pending
      ensures pending == Handled(old(pending), e, at)
    {
      match e {
        case Opened(xid, n) =>
          pending := [Slot(xid, Some(n), map[], at + ROUND_MILLIS, 0)];
        case Got(xid, k, payload) =>
          var i := 0;
          while i < |pending| && pending[i].xid != xid
            invariant 0 <= i <= |pending| && pending == old(pending)
            invariant pending[..i] + Stored(pending[i..], e, at) == Stored(pending, e, at)
          {
            assert pending[i..][1..] == pending[i + 1..] && pending[..i] + [pending[i]] == pending[..i + 1];
            Grouped(pending[..i], [pending[i]], Stored(pending[i + 1..], e, at));
            i := i + 1;
          }
          if i < |pending| {
            assert pending[i..][1..] == pending[i + 1..];
            var slot := pending[i].(chunks := pending[i].chunks[k := payload]);
            Grouped(pending[..i], [slot], pending[i + 1..]);
            pending := pending[..i] + [slot] + pending[i + 1..];
          } else {
            assert pending[..i] == pending && pending[i..] == [];
            pending := pending + [Slot(xid, None, map[k := payload], at + ROUND_MILLIS, 0)];
          }
      }
    }

    // max(entry["chunks"]) + 1, or the number of chunks the header told.
    method CountChunks(s: Slot) returns (total: int)
      ensures total == Total(s)
    {
      if s.n.Some? {
        return s.n.value;
      }
      if s.chunks == map[] {
        return 0;
      }
      var keys := s.chunks.Keys;
      if forall k :: k !in s.chunks { assert false; }
      var first :| first in keys;
      var top := first;
      keys := keys - {first};
      while keys != {}
        invariant keys <= s.chunks.Keys && top in s.chunks
        invariant forall j :: j in s.chunks ==> j <= top || j in keys
        decreases |keys|
      {
        if forall k :: k !in keys { assert false; }
        var k :| k in keys;
        if k > top {
          top := k;
        }
        keys := keys - {k};
      }
      assert IsMax(s.chunks, top);
      return top + 1;
    }

    method FindMissing(chunks: map<int, string>, total: nat) returns (missing: seq<nat>)
      ensures missing == Missing(chunks, total)
    {
      missing := [];
      var k := 0;
      while k < total
        invariant 0 <= k <= total && missing == Missing(chunks, k)
      {
        if k !in chunks {
          missing := missing + [k];
        }
        k := k + 1;
      }
    }

    method JoinChunks(chunks: map<int, string>, total: nat) returns (data: string)
      ensures data == Joined(chunks, total)
    {
      data := "";
      var k := 0;
      while k < total
        invariant 0 <= k <= total && data == Joined(chunks, k)
      {
        data := data + if k in chunks then chunks[k] else "";
        k := k + 1;
      }
    }

    // The body of the sweep for one entry.
    method SweepOne(s: Slot, now: int) returns (kept: Option<Slot>, outs: seq<Output>)
      ensures (kept, outs) == Settled(s, now)
    {
      var total := CountChunks(s);
      if total <= 0 {
        return Some(s), [];
      }
      var missing := FindMissing(s.chunks, total);
      if missing != [] && now < s.deadline {
        return Some(s), [];
      }
      if missing == [] {
        var data := JoinChunks(s.chunks, total);
        var request := B64Decode(data);
        if request.None? {
          outs := [Ack, Nack([0])];
        } else {
          outs := [Ack, Forward(s.xid, request.value)];
        }
        return None, outs;
      }
      if s.round + 1 > MAX_ROUNDS {
        return None, [];
      }
      return Some(s.(round := s.round + 1, deadline := now + ROUND_MILLIS)), [Nack(missing)];
    }

    // for xid, entry in list(pending.items())
    method Sweep(now: int)
      modifies this
      ensures (pending, out) == (Swept(old(pending), now).0, old(out) + Swept(old(pending), now).1)
    {
      var rest := pending;
      var kept: seq<Slot> := [];
      ghost var outs: seq<Output> := [];
      assert kept + Swept(rest, now).0 == Swept(rest, now).0 && outs + Swept(rest, now).1 == Swept(rest, now).1;
      while rest != []
        invariant pending == old(pending) && out == old(out)
        invariant (kept + Swept(rest, now).0, outs + Swept(rest, now).1) == Swept(pending, now)
        decreases |rest|
      {
        var slot, more := SweepOne(rest[0], now);
        Grouped(kept, AsSeq(slot), Swept(rest[1..], now).0);
        Grouped(outs, more, Swept(rest[1..], now).1);
        kept := kept + AsSeq(slot);
        outs := outs + more;
        rest := rest[1..];
      }
      assert kept + [] == kept && outs + [] == outs;
      pending := kept;
      out := out + outs;
    }
  }
}
