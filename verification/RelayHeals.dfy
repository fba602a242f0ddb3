// What the relay's sweep sends, and how the rounds of NACKs it asks with complete a
// request (serial_llm_relay.py:409-449, velaops_serial_tunnel.c:501-550).

module RelayHeals {
  import opened Common
  import opened Base64
  import opened Tunnel
  import opened Relay
  import opened RelayRuns

  // ---------------------------------------------------------------- what a sweep sends

  // How many chunks an entry waits for: what its header told, or one more than the last
  // of those it has.
  ghost predicate Expects(s: Slot, total: int) {
    match s.n
    case Some(n) => total == n
    case None => if s.chunks == map[] then total == 0 else IsMax(s.chunks, total - 1)
  }

  ghost predicate Lacks(s: Slot, total: int) { exists k :: 0 <= k < total && k !in s.chunks }

  // The numbers of the chunks that are not there, in increasing order.
  ghost predicate ListsAbsent(list: seq<nat>, chunks: map<int, string>, total: int) {
    && (forall i, j :: 0 <= i < j < |list| ==> list[i] < list[j])
    && (forall k: int :: k in list <==> 0 <= k < total && k !in chunks)
  }

  lemma {:induction false} MissingSorted(chunks: map<int, string>, total: int)
    ensures ListsAbsent(Missing(chunks, total), chunks, total)
    decreases total
  {
    MissingIs(chunks, total);
    if total > 0 {
      MissingSorted(chunks, total - 1);
      MissingIs(chunks, total - 1);
      var front := Missing(chunks, total - 1);
      assert forall i :: 0 <= i < |front| ==> front[i] in front;
    }
  }

  lemma {:induction false} SweptParts(a: seq<Slot>, b: seq<Slot>, now: int)
    ensures Swept(a + b, now) == (Swept(a, now).0 + Swept(b, now).0, Swept(a, now).1 + Swept(b, now).1)
    decreases |a|
  {
    if a == [] {
      assert a + b == b && Swept(a, now) == ([], []);
      assert [] + Swept(b, now).0 == Swept(b, now).0 && [] + Swept(b, now).1 == Swept(b, now).1;
    } else {
      var (slot, more) := Settled(a[0], now);
      assert (a + b)[0] == a[0] && (a + b)[1..] == a[1..] + b;
      SweptParts(a[1..], b, now);
      Grouped(AsSeq(slot), Swept(a[1..], now).0, Swept(b, now).0);
      Grouped(more, Swept(a[1..], now).1, Swept(b, now).1);
    }
  }

  // A sweep does this to one entry, whatever is in front of it and behind.
  ghost predicate Does(a: seq<Slot>, s: Slot, b: seq<Slot>, now: int, kept: seq<Slot>, outs: seq<Output>) {
    Swept(a + [s] + b, now)
    == (Swept(a, now).0 + kept + Swept(b, now).0, Swept(a, now).1 + outs + Swept(b, now).1)
  }

  lemma DoesSettle(a: seq<Slot>, s: Slot, b: seq<Slot>, now: int)
    ensures Does(a, s, b, now, AsSeq(Settled(s, now).0), Settled(s, now).1)
  {
    SweptParts(a + [s], b, now);
    SweptLast(a, s, now);
  }

  lemma ExpectsIs(s: Slot, total: int)
    requires Expects(s, total)
    ensures Total(s) == total
  {
  }

  // An entry with a chunk missing: before its deadline it is left alone; then its absent
  // chunks are asked for, six times at most, 3 s apart; then it is given up.
  lemma SweepAsks(a: seq<Slot>, s: Slot, b: seq<Slot>, now: int, total: int, list: seq<nat>)
    requires Expects(s, total) && Lacks(s, total) && ListsAbsent(list, s.chunks, total)
    ensures if now < s.deadline then Does(a, s, b, now, [s], [])
            else if s.round < 6 then
              Does(a, s, b, now, [s.(round := s.round + 1, deadline := now + 3000)], [Nack(list)])
            else Does(a, s, b, now, [], [])
  {
    ExpectsIs(s, total);
    MissingSorted(s.chunks, total);
    SortedOnce(list, Missing(s.chunks, total));
    var k :| 0 <= k < total && k !in s.chunks;
    assert k in Missing(s.chunks, total);
    DoesSettle(a, s, b, now);
  }

  // An entry with nothing missing ends: it is acknowledged, and what its chunks in order
  // decode to is forwarded.
  lemma SweepEnds(a: seq<Slot>, s: Slot, b: seq<Slot>, now: int, parts: seq<string>)
    requires Expects(s, |parts|) && parts != []
    requires forall k :: 0 <= k < |parts| ==> k in s.chunks && s.chunks[k] == parts[k]
    ensures var request := B64Decode(Concat(parts));
            Does(a, s, b, now, [], [Ack, if request.Some? then Forward(s.xid, request.value) else Nack([0])])
  {
    ExpectsIs(s, |parts|);
    NoneMissing(s.chunks, |parts|);
    JoinedParts(s.chunks, parts, |parts|);
    assert parts[..|parts|] == parts;
    DoesSettle(a, s, b, now);
  }

  // One that expects nothing stays.
  lemma SweepKeeps(a: seq<Slot>, s: Slot, b: seq<Slot>, now: int, total: int)
    requires Expects(s, total) && total <= 0
    ensures Does(a, s, b, now, [s], [])
  {
    ExpectsIs(s, total);
    DoesSettle(a, s, b, now);
  }

  lemma {:induction false} JoinedParts(chunks: map<int, string>, parts: seq<string>, g: nat)
    requires g <= |parts| && forall k :: 0 <= k < |parts| ==> k in chunks && chunks[k] == parts[k]
    ensures Joined(chunks, g) == Concat(parts[..g])
  {
    if g > 0 {
      JoinedParts(chunks, parts, g - 1);
      ConcatAppend(parts[..g - 1], parts[g - 1]);
      assert parts[..g - 1] + [parts[g - 1]] == parts[..g];
    }
  }

  ghost predicate Increasing(a: seq<nat>) { forall i, j :: 0 <= i < j < |a| ==> a[i] < a[j] }

  // Increasing lists of the same numbers are the same list.
  lemma {:induction false} SortedOnce(a: seq<nat>, b: seq<nat>)
    requires Increasing(a) && Increasing(b) && forall k: int :: k in a <==> k in b
    ensures a == b
    decreases |a|
  {
    SomeInBoth(a, b);
    SomeInBoth(b, a);
    if a != [] {
      var (x, y) := (a[|a| - 1], b[|b| - 1]);
      assert x in b && y in a;
      assert x == y;
      var (front, front') := (a[..|a| - 1], b[..|b| - 1]);
      forall k: int | k in front ensures k in front' { InFront(a, b, k); }
      forall k: int | k in front' ensures k in front { InFront(b, a, k); }
      SortedOnce(front, front');
      assert a == front + [x] && b == front' + [y];
    }
  }

  lemma SomeInBoth(a: seq<nat>, b: seq<nat>)
    requires forall k: int :: k in a ==> k in b
    ensures a != [] ==> b != []
  {
    if a != [] { assert a[0] in b; }
  }

  lemma InFront(a: seq<nat>, b: seq<nat>, k: int)
    requires a != [] && b != [] && Increasing(a) && a[|a| - 1] == b[|b| - 1] && k in a[..|a| - 1]
    requires forall j: int :: j in a ==> j in b
    ensures k in b[..|b| - 1]
  {
    var i :| 0 <= i < |a| - 1 && a[i] == k;
    assert k in a && k in b && k < a[|a| - 1];
    var j :| 0 <= j < |b| && b[j] == k;
    assert b[..|b| - 1][j] == k;
  }

  // ---------------------------------------------------------------- what an event does

  // A header leaves its own entry alone, empty and in its first round.
  lemma HeaderLaw(pending: seq<Slot>, xid: int, n: int, at: int)
    ensures Handled(pending, Opened(xid, n), at) == [Slot(xid, Some(n), map[], at + 3000, 0)]
  {
  }

  // A chunk goes into its request's entry, over one of the same number, or makes an entry
  // without a length; the other entries stay.
  lemma {:induction false} ChunkLaw(pending: seq<Slot>, xid: int, k: int, payload: string, at: int)
    requires Keyed(pending)
    ensures var pending' := Handled(pending, Got(xid, k, payload), at);
            && (forall x :: x in pending ==>
                  (if x.xid == xid then x.(chunks := x.chunks[k := payload]) else x) in pending')
            && (forall x :: x in pending' && x.xid != xid ==> x in pending)
            && (forall x :: x in pending' && x.xid == xid ==>
                  if Absent(pending, xid) then x == Slot(xid, None, map[k := payload], at + 3000, 0)
                  else exists y :: y in pending && y.xid == xid && x == y.(chunks := y.chunks[k := payload]))
    decreases |pending|
  {
    if pending != [] {
      var (s, rest) := (pending[0], pending[1..]);
      assert pending == [s] + rest;
      AbsentFrom(s, rest, xid);
      if s.xid != xid {
        ChunkLaw(rest, xid, k, payload, at);
        assert Handled(pending, Got(xid, k, payload), at) == [s] + Handled(rest, Got(xid, k, payload), at);
      } else {
        assert Handled(pending, Got(xid, k, payload), at) == [s.(chunks := s.chunks[k := payload])] + rest;
      }
    }
  }

  // ---------------------------------------------------------------- the lines of a round

  ghost function Outs(pending: seq<Slot>, turns: seq<Turn>): seq<Output>
    decreases |turns|
  {
    if turns == [] then [] else After(pending, turns[0]).1 + Outs(After(pending, turns[0]).0, turns[1..])
  }

  // The chunks of a request after the lines of these turns.
  function Kept(chunks: map<int, string>, ts: seq<LineTurn>, xid: int): map<int, string>
    decreases |ts|
  {
    if ts == [] then chunks else Kept(Put(chunks, ts[0], xid), ts[1..], xid)
  }

  function Put(chunks: map<int, string>, t: LineTurn, xid: int): map<int, string> {
    var e := Read(t).event;
    if e.Some? && e.value.Got? && e.value.xid == xid then chunks[e.value.seqno := e.value.payload] else chunks
  }

  // Until then no header comes, and what comes of this request fails the check or is what
  // was sent.
  ghost predicate Quiet(t: LineTurn, xid: int, text: string, until: int) {
    t.now < until && (t.line.Some? ==> t.line.value.Piece? && LineOk(t.line.value, xid, text))
  }

  lemma {:induction false} KeptGrows(chunks: map<int, string>, ts: seq<LineTurn>, xid: int, k: int)
    ensures k in chunks ==> k in Kept(chunks, ts, xid)
    ensures (exists t :: t in ts && Brings(t, xid, k)) ==> k in Kept(chunks, ts, xid)
    decreases |ts|
  {
    if ts != [] {
      KeptGrows(Put(chunks, ts[0], xid), ts[1..], xid, k);
      assert forall t :: t in ts ==> t == ts[0] || t in ts[1..];
    }
  }

  ghost predicate Brings(t: LineTurn, xid: int, k: int) {
    Read(t).event.Some? && Read(t).event.value.Got? && Read(t).event.value.xid == xid && Read(t).event.value.seqno == k
  }

  lemma {:induction false} KeptSent(chunks: map<int, string>, ts: seq<LineTurn>, xid: int, text: string, until: int)
    requires ChunksSent(chunks, text) && forall t :: t in ts ==> Quiet(t, xid, text, until)
    ensures ChunksSent(Kept(chunks, ts, xid), text)
    decreases |ts|
  {
    if ts != [] {
      assert ts[0] in ts && forall t :: t in ts[1..] ==> t in ts;
      KeptSent(Put(chunks, ts[0], xid), ts[1..], xid, text, until);
    }
  }

  lemma Split(pending: seq<Slot>, s: Slot) returns (a: seq<Slot>, b: seq<Slot>)
    requires s in pending
    ensures pending == a + [s] + b
  {
    var i :| 0 <= i < |pending| && pending[i] == s;
    a, b := pending[..i], pending[i + 1..];
  }

  // An entry with something missing stays until its deadline.
  lemma StaysWaiting(pending: seq<Slot>, s: Slot, now: int, total: int)
    requires s in pending && s.n == Some(total) && Lacks(s, total) && now < s.deadline
    ensures s in Swept(pending, now).0
  {
    var a, b := Split(pending, s);
    MissingSorted(s.chunks, total);
    SweepAsks(a, s, b, now, total, Missing(s.chunks, total));
  }

  lemma NoneLacks(chunks: map<int, string>, total: int)
    ensures Missing(chunks, total) == [] <==> forall k :: 0 <= k < total ==> k in chunks
  {
    MissingIs(chunks, total);
    if Missing(chunks, total) != [] {
      assert Missing(chunks, total)[0] in Missing(chunks, total);
    } else {
      forall k | 0 <= k < total ensures k in chunks {
        assert k in Missing(chunks, total) <==> k !in chunks;
      }
    }
  }

  // One such turn: the chunk is in the entry, or the request has been forwarded.
  lemma TurnFills(pending: seq<Slot>, s: Slot, t: LineTurn, request: seq<Byte>)
    requires Keyed(pending) && s in pending && Made(s, Encode(request)) && Quiet(t, s.xid, Encode(request), s.deadline)
    requires Missing(s.chunks, |Chunks(Encode(request))|) != []
    ensures var s' := s.(chunks := Put(s.chunks, t, s.xid));
            && Made(s', Encode(request)) && Keyed(After(pending, Read(t)).0)
            && if Missing(s'.chunks, |Chunks(Encode(request))|) == [] then
                 Forward(s.xid, request) in After(pending, Read(t)).1
               else s' in After(pending, Read(t)).0
  {
    var s' := s.(chunks := Put(s.chunks, t, s.xid));
    var total := |Chunks(Encode(request))|;
    var e := Read(t).event;
    TurnKeyed(pending, Read(t));
    if e.Some? { ChunkLaw(pending, e.value.xid, e.value.seqno, e.value.payload, t.at); }
    var handled := if e.Some? then Handled(pending, e.value, t.at) else pending;
    assert s' in handled;
    NoneLacks(s'.chunks, total);
    if Missing(s'.chunks, total) == [] {
      CompleteIsForwarded(handled, t.now, s', request);
    } else {
      StaysWaiting(handled, s', t.now, total);
    }
  }

  // The lines of a round: the chunks are in the entry, or the request has been forwarded.
  lemma {:induction false} LinesFill(pending: seq<Slot>, s: Slot, ts: seq<LineTurn>, request: seq<Byte>)
    requires Keyed(pending) && s in pending && Made(s, Encode(request))
    requires forall t :: t in ts ==> Quiet(t, s.xid, Encode(request), s.deadline)
    requires Missing(s.chunks, |Chunks(Encode(request))|) != []
    ensures var s' := s.(chunks := Kept(s.chunks, ts, s.xid));
            if Missing(s'.chunks, |Chunks(Encode(request))|) == [] then
              Forward(s.xid, request) in Outs(pending, ReadAll(ts))
            else s' in Pending(pending, ReadAll(ts)) && Keyed(Pending(pending, ReadAll(ts)))
    decreases |ts|
  {
    var total := |Chunks(Encode(request))|;
    if ts != [] {
      assert ts[0] in ts && forall t :: t in ts[1..] ==> t in ts;
      var s1 := s.(chunks := Put(s.chunks, ts[0], s.xid));
      assert ReadAll(ts)[0] == Read(ts[0]) && ReadAll(ts)[1..] == ReadAll(ts[1..]);
      TurnFills(pending, s, ts[0], request);
      if Missing(s1.chunks, total) == [] {
        StaysComplete(s1.chunks, ts[1..], s.xid, total);
      } else {
        LinesFill(After(pending, Read(ts[0])).0, s1, ts[1..], request);
      }
    }
  }

  lemma StaysComplete(chunks: map<int, string>, ts: seq<LineTurn>, xid: int, total: int)
    requires Missing(chunks, total) == []
    ensures Missing(Kept(chunks, ts, xid), total) == []
  {
    NoneLacks(chunks, total);
    forall k | 0 <= k < total ensures k in Kept(chunks, ts, xid) { KeptGrows(chunks, ts, xid, k); }
    NoneLacks(Kept(chunks, ts, xid), total);
  }

  // ---------------------------------------------------------------- rounds of NACKs

  // The chunks this NACK makes the board send all arrive, in whatever order and company.
  ghost predicate AnswersArrive(cs: seq<string>, xid: int, list: seq<nat>, ts: seq<LineTurn>) {
    exists flags ::
      |flags| == |cs| && Marks(flags, list) && forall k :: 0 <= k < |cs| && flags[k] ==> Arrives(cs, xid, k, ts)
  }

  ghost predicate Arrives(cs: seq<string>, xid: int, k: nat, ts: seq<LineTurn>)
    requires k < |cs|
  {
    Through(PieceOf(xid, cs, k), ts)
  }

  // They do if every line the board sends in answer comes through.
  lemma SentAnswers(cs: seq<string>, xid: int, list: seq<nat>, flags: seq<bool>, ts: seq<LineTurn>)
    requires |flags| == |cs| && Marks(flags, list)
    requires forall f :: f in Pieces(xid, cs, Some(flags), 0) ==> Through(f, ts)
    ensures AnswersArrive(cs, xid, list, ts)
  {
    forall k | 0 <= k < |cs| && flags[k] ensures Arrives(cs, xid, k, ts) {
      PiecesHold(xid, cs, Some(flags), 0, PieceOf(xid, cs, k));
      assert Through(PieceOf(xid, cs, k), ts);
    }
  }

  ghost predicate Through(f: Frame, ts: seq<LineTurn>) { exists t :: t in ts && t.line == Some(f) }

  // At least 255 of the chunks a NACK lists arrive, or all if the board reads it whole.
  lemma AnswersHeal(chunks: map<int, string>, xid: int, request: seq<Byte>, ts: seq<LineTurn>)
    requires var cs := Chunks(Encode(request));
             (|cs| <= 1000 || ReadWhole(Missing(chunks, |cs|))) && Missing(chunks, |cs|) != []
             && AnswersArrive(cs, xid, Missing(chunks, |cs|), ts)
    ensures var total := |Chunks(Encode(request))|;
            |Missing(Kept(chunks, ts, xid), total)|
            <= if |Missing(chunks, total)| <= 255 || ReadWhole(Missing(chunks, total)) then 0
              else |Missing(chunks, total)| - 255
  {
    var cs := Chunks(Encode(request));
    var nack := Missing(chunks, |cs|);
    var flags :| && |flags| == |cs| && Marks(flags, nack)
                 && forall k :: 0 <= k < |cs| && flags[k] ==> Arrives(cs, xid, k, ts);
    var j := MarkedFirst(chunks, |cs|);
    forall k | k in chunks ensures k in Kept(chunks, ts, xid) { KeptGrows(chunks, ts, xid, k); }
    forall k | k in nack[..j] ensures k in Kept(chunks, ts, xid) {
      assert k in nack;
      MissingIs(chunks, |cs|);
      ArrivedIsKept(chunks, xid, request, k, ts);
    }
    FewerMissing(chunks, Kept(chunks, ts, xid), |cs|, j);
  }

  lemma ArrivedIsKept(chunks: map<int, string>, xid: int, request: seq<Byte>, k: nat, ts: seq<LineTurn>)
    requires k < |Chunks(Encode(request))| && Arrives(Chunks(Encode(request)), xid, k, ts)
    ensures k in Kept(chunks, ts, xid)
  {
    var cs := Chunks(Encode(request));
    var t :| t in ts && t.line == Some(PieceOf(xid, cs, k));
    ChunkPlain(request, k);
    IntactIsAccepted(xid, k, cs[k]);
    assert Brings(t, xid, k);
    KeptGrows(chunks, ts, xid, k);
  }

  // One round of an entry with chunks missing, from its deadline on: the sweep asks for
  // exactly those, and when the answers arrive in time the request is forwarded, or the
  // board could not read the whole list and at least 255 fewer are missing in the entry,
  // its next deadline 3 s after the sweep.
  lemma RoundRun(pending: seq<Slot>, s: Slot, request: seq<Byte>, now: int, ts: seq<LineTurn>, list: seq<nat>)
    requires Keyed(pending) && s in pending && Made(s, Encode(request))
    requires |Chunks(Encode(request))| <= 1000 || ReadWhole(list)
    requires s.deadline <= now && s.round < 6 && list != []
    requires ListsAbsent(list, s.chunks, |Chunks(Encode(request))|)
    requires AnswersArrive(Chunks(Encode(request)), s.xid, list, ts)
    requires forall t :: t in ts ==> Quiet(t, s.xid, Encode(request), now + 3000)
    ensures Nack(list) in Swept(pending, now).1
    ensures var p1 := Swept(pending, now).0;
            || (Forward(s.xid, request) in Outs(p1, ReadAll(ts)))
            || (|list| > 255 && !ReadWhole(list) && Keyed(Pending(p1, ReadAll(ts)))
                && exists s' :: s' in Pending(p1, ReadAll(ts)) && Advanced(s, s', request, now, |list| - 255))
  {
    var total := |Chunks(Encode(request))|;
    MissingSorted(s.chunks, total);
    SortedOnce(list, Missing(s.chunks, total));
    var s1 := s.(round := s.round + 1, deadline := now + 3000);
    RoundStarts(pending, s, now, total, list);
    SweptKeyed(pending, now);
    LinesFill(Swept(pending, now).0, s1, ts, request);
    AnswersHeal(s.chunks, s.xid, request, ts);
    KeptSent(s.chunks, ts, s.xid, Encode(request), now + 3000);
    var s' := s1.(chunks := Kept(s.chunks, ts, s.xid));
    if Missing(s'.chunks, total) != [] {
      assert Advanced(s, s', request, now, |list| - 255);
    }
  }

  ghost predicate Advanced(s: Slot, s': Slot, request: seq<Byte>, now: int, most: int) {
    && s'.xid == s.xid && s'.round == s.round + 1 && s'.deadline == now + 3000 && Made(s', Encode(request))
    && 0 < |Missing(s'.chunks, |Chunks(Encode(request))|)| <= most
  }

  lemma RoundStarts(pending: seq<Slot>, s: Slot, now: int, total: int, list: seq<nat>)
    requires s in pending && s.n == Some(total) && s.deadline <= now && s.round < 6
    requires list != [] && ListsAbsent(list, s.chunks, total)
    ensures Nack(list) in Swept(pending, now).1
    ensures s.(round := s.round + 1, deadline := now + 3000) in Swept(pending, now).0
  {
    var a, b := Split(pending, s);
    assert list[0] in list;
    SweepAsks(a, s, b, now, total, list);
  }

  // ---------------------------------------------------------------- three rounds are enough

  datatype Round = Round(now: int, ts: seq<LineTurn>)

  ghost function RoundOuts(pending: seq<Slot>, rounds: seq<Round>): seq<Output>
    decreases |rounds|
  {
    if rounds == [] then []
    else
      var p1 := Swept(pending, rounds[0].now).0;
      var turns := ReadAll(rounds[0].ts);
      Swept(pending, rounds[0].now).1 + Outs(p1, turns) + RoundOuts(Pending(p1, turns), rounds[1..])
  }

  // In each round the deadline of the entry has come, and what it asks for arrives.
  ghost predicate Answering(pending: seq<Slot>, xid: int, request: seq<Byte>, rounds: seq<Round>)
    decreases |rounds|
  {
    rounds != [] ==>
      var (now, ts) := (rounds[0].now, rounds[0].ts);
      && (forall s :: s in pending && s.xid == xid ==> Asked(s, request, now, ts))
      && (forall t :: t in ts ==> Quiet(t, xid, Encode(request), now + 3000))
      && Answering(Pending(Swept(pending, now).0, ReadAll(ts)), xid, request, rounds[1..])
  }

  ghost predicate Asked(s: Slot, request: seq<Byte>, now: int, ts: seq<LineTurn>) {
    var cs := Chunks(Encode(request));
    s.deadline <= now
    && forall list :: ListsAbsent(list, s.chunks, |cs|) && list != [] ==> AnswersArrive(cs, s.xid, list, ts)
  }

  lemma {:induction false} RoundsForward(pending: seq<Slot>, s: Slot, request: seq<Byte>, rounds: seq<Round>)
    requires Keyed(pending) && s in pending && Made(s, Encode(request)) && |Chunks(Encode(request))| <= 1000
    requires Answering(pending, s.xid, request, rounds) && s.round + |rounds| <= 6
    requires 0 < |Missing(s.chunks, |Chunks(Encode(request))|)| <= 255 * |rounds|
    ensures Forward(s.xid, request) in RoundOuts(pending, rounds)
    decreases |rounds|
  {
    var (now, ts) := (rounds[0].now, rounds[0].ts);
    var list := Missing(s.chunks, |Chunks(Encode(request))|);
    assert Asked(s, request, now, ts);
    MissingSorted(s.chunks, |Chunks(Encode(request))|);
    RoundRun(pending, s, request, now, ts, list);
    var p1 := Swept(pending, now).0;
    if Forward(s.xid, request) !in Outs(p1, ReadAll(ts)) {
      var s' :| s' in Pending(p1, ReadAll(ts)) && Advanced(s, s', request, now, |list| - 255);
      RoundsForward(Pending(p1, ReadAll(ts)), s', request, rounds[1..]);
    }
  }

  // Every request the board takes, whatever had arrived of it, is forwarded within three
  // rounds whose answers arrive.
  lemma ThreeRoundsForward(pending: seq<Slot>, s: Slot, request: seq<Byte>, rounds: seq<Round>)
    requires |request| <= REQ_MAX && |rounds| == 3 && s.round <= 3
    requires Keyed(pending) && s in pending && Made(s, Encode(request)) && Lacks(s, |Chunks(Encode(request))|)
    requires Answering(pending, s.xid, request, rounds)
    ensures Forward(s.xid, request) in RoundOuts(pending, rounds)
  {
    var total := |Chunks(Encode(request))|;
    CountOfRequest(request);
    MissingBound(s.chunks, total);
    NoneLacks(s.chunks, total);
    RoundsForward(pending, s, request, rounds);
  }
}
