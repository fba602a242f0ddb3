// What the relay forwards, over any run of its loop.

module RelayRuns {
  import opened Common
  import opened Base64
  import opened Decimal
  import opened Tunnel
  import opened Relay

  // One turn of the main loop: perhaps an event, then a sweep.  The clock is read
  // for each.
  datatype Turn = Turn(event: Option<Event>, at: int, now: int)

  ghost function After(pending: seq<Slot>, t: Turn): (seq<Slot>, seq<Output>) {
    Swept(if t.event.Some? then Handled(pending, t.event.value, t.at) else pending, t.now)
  }

  ghost function Pending(pending: seq<Slot>, turns: seq<Turn>): seq<Slot>
    decreases |turns|
  {
    if turns == [] then pending else Pending(After(pending, turns[0]).0, turns[1..])
  }

  // The entry of this request is there before each turn and after the last.
  ghost predicate StaysIn(pending: seq<Slot>, turns: seq<Turn>, xid: int)
    decreases |turns|
  {
    Has(pending, xid) && (turns != [] ==> StaysIn(After(pending, turns[0]).0, turns[1..], xid))
  }

  // ---------------------------------------------------------------- what the board sent

  ghost predicate SentChunk(text: string, k: int, payload: string) {
    0 <= k < |Chunks(text)| && payload == Chunks(text)[k]
  }

  // Lines of this request are what the board sent; lines of others are anything but
  // headers, which would end this request.
  ghost predicate Faithful(t: Turn, xid: int, text: string) {
    t.event.Some? ==>
      match t.event.value
      case Opened(x, n) => x == xid && n == |Chunks(text)|
      case Got(x, k, payload) => x == xid ==> SentChunk(text, k, payload)
  }

  ghost predicate ChunksSent(chunks: map<int, string>, text: string) {
    forall k :: k in chunks ==> SentChunk(text, k, chunks[k])
  }

  // The entry was made by its header and holds only chunks the board sent.
  ghost predicate Made(s: Slot, text: string) {
    s.n == Some(|Chunks(text)|) && ChunksSent(s.chunks, text)
  }

  ghost predicate AllMade(pending: seq<Slot>, xid: int, text: string) {
    forall s :: s in pending && s.xid == xid ==> Made(s, text)
  }

  // ---------------------------------------------------------------- joining

  lemma {:induction false} MissingIs(chunks: map<int, string>, total: int)
    ensures forall k: int :: k in Missing(chunks, total) <==> 0 <= k < total && k !in chunks
    decreases total
  {
    if total > 0 {
      MissingIs(chunks, total - 1);
    }
  }

  lemma {:induction false} NoneMissing(chunks: map<int, string>, total: int)
    requires forall k :: 0 <= k < total ==> k in chunks
    ensures Missing(chunks, total) == []
    decreases total
  {
    if total > 0 {
      NoneMissing(chunks, total - 1);
    }
  }

  lemma {:induction false} ConcatAppend(cs: seq<string>, c: string)
    ensures Concat(cs + [c]) == Concat(cs) + c
    decreases |cs|
  {
    if cs == [] {
      assert [c][1..] == [] && cs + [c] == [c] && c + "" == "" + c;
    } else {
      ConcatAppend(cs[1..], c);
      assert (cs + [c])[1..] == cs[1..] + [c];
    }
  }

  // Chunks that are all there join to the text up to the last of them.
  lemma {:induction false} JoinedIs(chunks: map<int, string>, text: string, g: nat)
    requires ChunksSent(chunks, text) && Missing(chunks, g) == [] && g <= |Chunks(text)|
    ensures Joined(chunks, g) == Concat(Chunks(text)[..g])
  {
    if g > 0 {
      assert g - 1 in chunks;
      JoinedIs(chunks, text, g - 1);
      ConcatAppend(Chunks(text)[..g - 1], Chunks(text)[g - 1]);
      assert Chunks(text)[..g - 1] + [Chunks(text)[g - 1]] == Chunks(text)[..g];
    }
  }

  lemma CompleteText(s: Slot, text: string)
    requires Made(s, text) && Missing(s.chunks, Total(s)) == []
    ensures Joined(s.chunks, Total(s)) == text
  {
    JoinedIs(s.chunks, text, |Chunks(text)|);
    assert Chunks(text)[..|Chunks(text)|] == Chunks(text);
    ChunksPartition(text);
  }

  // ---------------------------------------------------------------- a turn keeps it

  lemma {:induction false} StoredKeeps(pending: seq<Slot>, e: Event, at: int, xid: int, text: string)
    requires e.Got? && AllMade(pending, xid, text)
             && (e.xid == xid ==> Has(pending, xid) && SentChunk(text, e.seqno, e.payload))
    ensures AllMade(Stored(pending, e, at), xid, text)
    decreases |pending|
  {
    if pending != [] {
      assert pending[0] in pending && forall s :: s in pending[1..] ==> s in pending;
      if pending[0].xid != e.xid {
        if e.xid == xid {
          var i :| 0 <= i < |pending| && pending[i].xid == xid;
          assert pending[1..][i - 1].xid == xid;
        }
        StoredKeeps(pending[1..], e, at, xid, text);
      }
    }
  }

  lemma HandledKeeps(pending: seq<Slot>, t: Turn, xid: int, text: string)
    requires AllMade(pending, xid, text) && Has(pending, xid) && Faithful(t, xid, text) && t.event.Some?
    ensures AllMade(Handled(pending, t.event.value, t.at), xid, text)
  {
    if t.event.value.Got? {
      StoredKeeps(pending, t.event.value, t.at, xid, text);
    }
  }

  ghost predicate ForwardsOnly(outs: seq<Output>, xid: int, request: seq<Byte>) {
    forall o :: o in outs && o.Forward? && o.xid == xid ==> o.request == request
  }

  lemma SettledKeeps(s: Slot, now: int, xid: int, request: seq<Byte>)
    requires s.xid == xid ==> Made(s, Encode(request))
    ensures var (slot, outs) := Settled(s, now);
            && ForwardsOnly(outs, xid, request)
            && (slot.Some? && s.xid == xid ==> Made(slot.value, Encode(request)))
            && (slot.Some? ==> slot.value.xid == s.xid)
  {
    RelayRoundTrip(request);
    if s.xid == xid && Missing(s.chunks, Total(s)) == [] {
      CompleteText(s, Encode(request));
    }
  }

  lemma {:induction false} SweptKeeps(pending: seq<Slot>, now: int, xid: int, request: seq<Byte>)
    requires AllMade(pending, xid, Encode(request))
    ensures AllMade(Swept(pending, now).0, xid, Encode(request)) && ForwardsOnly(Swept(pending, now).1, xid, request)
    decreases |pending|
  {
    if pending != [] {
      assert pending[0] in pending && forall s :: s in pending[1..] ==> s in pending;
      SettledKeeps(pending[0], now, xid, request);
      SweptKeeps(pending[1..], now, xid, request);
    }
  }

  lemma TurnKeeps(pending: seq<Slot>, t: Turn, xid: int, request: seq<Byte>)
    requires AllMade(pending, xid, Encode(request)) && Has(pending, xid) && Faithful(t, xid, Encode(request))
    ensures AllMade(After(pending, t).0, xid, Encode(request)) && ForwardsOnly(After(pending, t).1, xid, request)
  {
    if t.event.Some? {
      HandledKeeps(pending, t, xid, Encode(request));
      SweptKeeps(Handled(pending, t.event.value, t.at), t.now, xid, request);
    } else {
      SweptKeeps(pending, t.now, xid, request);
    }
  }

  // ---------------------------------------------------------------- the request that is forwarded

  // From any state of the relay: once the header has made an entry, whatever is lost,
  // repeated, reordered or rejected, for as long as the entry lives nothing but the
  // board's request is forwarded for it, and so the forward that ends it is that request.
  lemma {:induction false} ForwardedIsSent(pending: seq<Slot>, turns: seq<Turn>, last: Turn, xid: int,
          request: seq<Byte>)
    requires AllMade(pending, xid, Encode(request)) && StaysIn(pending, turns, xid)
    requires forall t :: t in turns + [last] ==> Faithful(t, xid, Encode(request))
    ensures ForwardsOnly(After(Pending(pending, turns), last).1, xid, request)
    decreases |turns|
  {
    if turns == [] {
      assert last in turns + [last];
      TurnKeeps(pending, last, xid, request);
    } else {
      assert turns[0] in turns + [last];
      TurnKeeps(pending, turns[0], xid, request);
      assert forall t :: t in turns[1..] + [last] ==> t in turns + [last];
      ForwardedIsSent(After(pending, turns[0]).0, turns[1..], last, xid, request);
    }
  }

  lemma HeaderStarts(pending: seq<Slot>, xid: int, request: seq<Byte>, at: int, now: int, turns: seq<Turn>, last: Turn)
    requires var p := After(pending, Turn(Some(Opened(xid, |Chunks(Encode(request))|)), at, now)).0;
             StaysIn(p, turns, xid)
    requires forall t :: t in turns + [last] ==> Faithful(t, xid, Encode(request))
    ensures var p := After(pending, Turn(Some(Opened(xid, |Chunks(Encode(request))|)), at, now)).0;
            ForwardsOnly(After(Pending(p, turns), last).1, xid, request)
  {
    var slot := Slot(xid, Some(|Chunks(Encode(request))|), map[], at + ROUND_MILLIS, 0);
    SweptKeeps([slot], now, xid, request);
    ForwardedIsSent(After(pending, Turn(Some(Opened(xid, |Chunks(Encode(request))|)), at, now)).0, turns, last, xid,
      request);
  }

  // ---------------------------------------------------------------- from the lines received

  // One turn with the line the reader got, if any.
  datatype LineTurn = LineTurn(line: Option<Frame>, at: int, now: int)

  function Read(t: LineTurn): Turn {
    Turn(if t.line.Some? then Accept(t.line.value) else None, t.at, t.now)
  }

  function ReadAll(ts: seq<LineTurn>): seq<Turn> {
    if ts == [] then [] else [Read(ts[0])] + ReadAll(ts[1..])
  }

  // A line as the relay may get it, once or many times: of this request its header, or a
  // chunk that fails the reader's check or shows the text sent under its number; of
  // others anything but a header.
  ghost predicate LineOk(f: Frame, xid: int, text: string) {
    match f
    case Head(x, n) => x == xid && n == |Chunks(text)|
    case Piece(x, k, crc, got) =>
      x == xid ==> Checksum(Filter(got)) != crc || SentChunk(text, k, Filter(got))
  }

  lemma {:induction false} LinesAreFaithful(ts: seq<LineTurn>, xid: int, text: string)
    requires forall t :: t in ts && t.line.Some? ==> LineOk(t.line.value, xid, text)
    ensures forall t :: t in ReadAll(ts) ==> Faithful(t, xid, text)
    decreases |ts|
  {
    if ts != [] {
      assert ts[0] in ts && forall t :: t in ts[1..] ==> t in ts;
      LinesAreFaithful(ts[1..], xid, text);
    }
  }

  // Whatever lines are lost, repeated, reordered or fail the check, from the header on
  // nothing but the board's request is forwarded for as long as its entry lives.
  lemma CheckedLinesForward(pending: seq<Slot>, xid: int, request: seq<Byte>, at: int, now: int, ts: seq<LineTurn>,
          last: LineTurn)
    requires StaysIn(AfterHeader(pending, xid, request, at, now), ReadAll(ts), xid)
    requires forall t :: t in ts + [last] && t.line.Some? ==> LineOk(t.line.value, xid, Encode(request))
    ensures ForwardsOnly(After(Pending(AfterHeader(pending, xid, request, at, now), ReadAll(ts)), Read(last)).1,
            xid, request)
  {
    assert last in ts + [last] && forall t :: t in ts ==> t in ts + [last];
    LinesAreFaithful(ts, xid, Encode(request));
    assert Faithful(Read(last), xid, Encode(request));
    assert forall t :: t in ReadAll(ts) + [Read(last)] ==> Faithful(t, xid, Encode(request));
    HeaderStarts(pending, xid, request, at, now, ReadAll(ts), Read(last));
  }

  // A line as the board sent it and the tunnel delivered it: of this request its header,
  // or a chunk under its own number with a fault of the kinds of Fault; of others
  // anything but a header.
  ghost predicate Delivered(f: Frame, xid: int, text: string) {
    match f
    case Head(x, n) => x == xid && n == |Chunks(text)|
    case Piece(x, k, crc, got) => x == xid ==> 0 <= k < |Chunks(text)| && Fault(Chunks(text)[k], crc, got)
  }

  lemma DeliveredIsOk(f: Frame, xid: int, request: seq<Byte>)
    requires Delivered(f, xid, Encode(request))
    ensures LineOk(f, xid, Encode(request))
  {
    if f.Piece? && f.xid == xid {
      ChunkPlain(request, f.seqno);
      FaultIsCaught(Chunks(Encode(request))[f.seqno], f.crc, f.payload);
    }
  }

  // So it is for every run in which the lines suffer such faults.
  lemma LinesForward(pending: seq<Slot>, xid: int, request: seq<Byte>, at: int, now: int, ts: seq<LineTurn>,
          last: LineTurn)
    requires StaysIn(AfterHeader(pending, xid, request, at, now), ReadAll(ts), xid)
    requires forall t :: t in ts + [last] && t.line.Some? ==> Delivered(t.line.value, xid, Encode(request))
    ensures ForwardsOnly(After(Pending(AfterHeader(pending, xid, request, at, now), ReadAll(ts)), Read(last)).1,
            xid, request)
  {
    forall t | t in ts + [last] && t.line.Some? ensures LineOk(t.line.value, xid, Encode(request)) {
      DeliveredIsOk(t.line.value, xid, request);
    }
    CheckedLinesForward(pending, xid, request, at, now, ts, last);
  }

  ghost function AfterHeader(pending: seq<Slot>, xid: int, request: seq<Byte>, at: int, now: int): seq<Slot> {
    After(pending, Turn(Some(Opened(xid, |Chunks(Encode(request))|)), at, now)).0
  }

  // The sweep that finds the entry complete does forward it.
  lemma {:induction false} CompleteIsForwarded(pending: seq<Slot>, now: int, s: Slot, request: seq<Byte>)
    requires s in pending && Made(s, Encode(request))
    requires forall k :: 0 <= k < |Chunks(Encode(request))| ==> k in s.chunks
    ensures Forward(s.xid, request) in Swept(pending, now).1
    decreases |pending|
  {
    if pending[0] == s {
      NoneMissing(s.chunks, Total(s));
      CompleteText(s, Encode(request));
      RelayRoundTrip(request);
    } else {
      CompleteIsForwarded(pending[1..], now, s, request);
    }
  }

  // ---------------------------------------------------------------- a NACK round heals

  // The flags the board sets for a NACK, of which it reads at most 1023 characters.
  ghost predicate Marks(flags: seq<bool>, nack: seq<nat>) {
    forall k :: 0 <= k < |flags| ==> (flags[k] <==> k in Numbers(CStr('\0', ReadPart(Printed(nack)))))
  }

  predicate ReadWhole(nack: seq<nat>) { |Printed(nack)| < NACK_SIZE }

  function ReadPart(text: string): string {
    if |text| < NACK_SIZE then text else text[..NACK_SIZE - 1]
  }

  // What is found of the first j missing chunks is not missing any more.
  lemma {:induction false} FewerMissing(chunks: map<int, string>, chunks': map<int, string>, total: nat, j: nat)
    requires j <= |Missing(chunks, total)| && forall k :: k in chunks ==> k in chunks'
    requires forall k :: k in Missing(chunks, total)[..j] ==> k in chunks'
    ensures |Missing(chunks', total)| + j <= |Missing(chunks, total)|
    decreases total
  {
    if total > 0 {
      var before := Missing(chunks, total - 1);
      if total - 1 in chunks {
        assert Missing(chunks, total) == before;
        FewerMissing(chunks, chunks', total - 1, j);
      } else if j <= |before| {
        assert Missing(chunks, total)[..j] == before[..j];
        FewerMissing(chunks, chunks', total - 1, j);
      } else {
        assert Missing(chunks, total)[..j] == before + [total - 1] && before[..j - 1] == before;
        assert total - 1 in before + [total - 1] && forall k :: k in before ==> k in before + [total - 1];
        FewerMissing(chunks, chunks', total - 1, j - 1);
      }
    }
  }

  // How many of the missing chunks a NACK surely names: all, or 255 of numbers below 1000.
  lemma MarkedFirst(chunks: map<int, string>, total: nat) returns (j: nat)
    requires (total <= 1000 || ReadWhole(Missing(chunks, total))) && Missing(chunks, total) != []
    ensures var nack := Missing(chunks, total);
            && (j == |nack| || 255 <= j < |nack|) && (ReadWhole(nack) ==> j == |nack|)
            && forall x :: x in nack[..j] ==> x in Numbers(CStr('\0', ReadPart(Printed(nack))))
  {
    var nack := Missing(chunks, total);
    MissingIs(chunks, total);
    NackRoundTrip(nack);
    if ReadWhole(nack) {
      j := |nack|;
      assert nack[..j] == nack;
    } else {
      forall x | x in nack ensures |Shown(x)| <= 3 { ShownShort(x); }
      var tail: seq<int>;
      j, tail := CutNack(nack, NACK_SIZE - 1);
      PlainCut(Printed(nack), NACK_SIZE - 1);
    }
  }

  lemma CountOfRequest(request: seq<Byte>)
    requires |request| <= REQ_MAX
    ensures |Chunks(Encode(request))| <= 729
  {
    EncodeQuads(request);
    QuadsIs(|request|);
    ChunkCount(Encode(request));
  }

  lemma {:induction false} MissingBound(chunks: map<int, string>, total: nat)
    ensures |Missing(chunks, total)| <= total
    decreases total
  {
    if total > 0 { MissingBound(chunks, total - 1); }
  }

  lemma ChunkPlain(request: seq<Byte>, k: nat)
    requires k < |Chunks(Encode(request))|
    ensures Plain(Chunks(Encode(request))[k])
  {
    EncodePlain(request);
    ChunkAt(Encode(request), k);
  }

  // ---------------------------------------------------------------- entries without a header

  lemma {:induction false} ConcatFirst(text: string, g: nat)
    requires g < |Chunks(text)|
    ensures |text| >= CHUNK * g && Concat(Chunks(text)[..g]) == text[..CHUNK * g]
    decreases g
  {
    if g > 0 {
      ConcatFirst(text[CHUNK..], g - 1);
      assert Chunks(text)[..g][1..] == Chunks(text[CHUNK..])[..g - 1];
      assert text[..CHUNK] + text[CHUNK..][..CHUNK * (g - 1)] == text[..CHUNK * g];
    }
  }

  // An entry made by a chunk guesses its length from the chunks it has.  Holding the
  // first g, it forwards the first 90 bytes of each: the request itself exactly when
  // these were all.
  lemma GuessForwardsPrefix(s: Slot, request: seq<Byte>, g: nat, now: int)
    requires s.n.None? && ChunksSent(s.chunks, Encode(request)) && 0 < g <= |Chunks(Encode(request))|
    requires forall k :: k in s.chunks <==> 0 <= k < g
    ensures exists part :: Settled(s, now) == (None, [Ack, Forward(s.xid, part)]) && part <= request
              && (part == request <==> g == |Chunks(Encode(request))|)
              && (g < |Chunks(Encode(request))| ==> |part| == 90 * g)
  {
    if g < |Chunks(Encode(request))| { LongEnough(request, g); }
    var part := if g == |Chunks(Encode(request))| then request else request[..90 * g];
    GuessedTotal(s, g);
    NoneMissing(s.chunks, g);
    GuessedText(s.chunks, request, g);
    assert Settled(s, now) == (None, Completed(s.xid, Joined(s.chunks, g)));
    assert Settled(s, now) == (None, [Ack, Forward(s.xid, part)]);
  }

  // Nothing checks the count of a header.  With a smaller one the entry forwards 90 bytes
  // for each chunk counted, with a larger one nothing.
  lemma CountForwards(s: Slot, request: seq<Byte>, m: int, now: int)
    requires s.n == Some(m) && ChunksSent(s.chunks, Encode(request))
    ensures var count := |Chunks(Encode(request))|;
            forall o :: o in Settled(s, now).1 && o.Forward? ==>
              && 0 < m <= count && o.request <= request
              && (if m == count then o.request == request else |o.request| == 90 * m < |request|)
  {
    var count := |Chunks(Encode(request))|;
    if m > count { TooFewSent(s.chunks, Encode(request), m); }
    if 0 < m <= count && Missing(s.chunks, m) == [] {
      if m < count { LongEnough(request, m); }
      GuessedText(s.chunks, request, m);
    }
  }

  lemma TooFewSent(chunks: map<int, string>, text: string, m: int)
    requires ChunksSent(chunks, text) && m > |Chunks(text)|
    ensures Missing(chunks, m) != []
  {
    MissingIs(chunks, m);
    assert |Chunks(text)| in Missing(chunks, m);
  }

  function AllChunks(text: string): (m: map<int, string>) {
    map k: int | 0 <= k < |Chunks(text)| :: Chunks(text)[k]
  }

  // So with all chunks there the request is forwarded exactly when the count is right.
  lemma CountIff(xid: int, request: seq<Byte>, m: int, deadline: int, round: int, now: int)
    ensures var s := Slot(xid, Some(m), AllChunks(Encode(request)), deadline, round);
            Forward(xid, request) in Settled(s, now).1 <==> m == |Chunks(Encode(request))|
  {
    var s := Slot(xid, Some(m), AllChunks(Encode(request)), deadline, round);
    CountForwards(s, request, m, now);
    if m == |Chunks(Encode(request))| {
      NoneMissing(s.chunks, m);
      CompleteText(s, Encode(request));
      RelayRoundTrip(request);
    }
  }

  lemma GuessedTotal(s: Slot, g: nat)
    requires s.n.None? && 0 < g && forall k :: k in s.chunks <==> 0 <= k < g
    ensures Total(s) == g
  {
    assert g - 1 in s.chunks;
  }

  // What the first g chunks decode to.
  lemma GuessedText(chunks: map<int, string>, request: seq<Byte>, g: nat)
    requires ChunksSent(chunks, Encode(request)) && 0 < g <= |Chunks(Encode(request))| && Missing(chunks, g) == []
    requires g < |Chunks(Encode(request))| ==> |request| > 90 * g
    ensures B64Decode(Joined(chunks, g)) == Some(if g == |Chunks(Encode(request))| then request else request[..90 * g])
  {
    var text := Encode(request);
    JoinedIs(chunks, text, g);
    if g == |Chunks(text)| {
      assert Chunks(text)[..g] == Chunks(text);
      ChunksPartition(text);
      RelayRoundTrip(request);
    } else {
      ConcatFirst(text, g);
      PrefixDecodes(request, g);
    }
  }

  lemma LongEnough(request: seq<Byte>, g: nat)
    requires 0 < g < |Chunks(Encode(request))|
    ensures |request| > 90 * g
  {
    LastChunkNotEmpty(Encode(request), g);
    EncodeQuads(request);
    QuadsIs(|request|);
  }

  lemma PrefixDecodes(request: seq<Byte>, g: nat)
    requires |request| > 90 * g
    ensures |Encode(request)| >= CHUNK * g
    ensures B64Decode(Encode(request)[..CHUNK * g]) == Some(request[..90 * g])
  {
    var (a, b) := (request[..90 * g], request[90 * g..]);
    assert a + b == request;
    EncodeConcat(30 * g, a, b);
    assert (Encode(a) + Encode(b))[..CHUNK * g] == Encode(a);
    RelayRoundTrip(a);
  }

  lemma {:induction false} LastChunkNotEmpty(text: string, g: nat)
    requires g < |Chunks(text)| && |Chunks(text)| > 1
    ensures CHUNK * g < |text|
    decreases g
  {
    if g > 0 && |Chunks(text[CHUNK..])| > 1 {
      LastChunkNotEmpty(text[CHUNK..], g - 1);
    }
  }

  // ---------------------------------------------------------------- chunks that come late

  // No entry is this request's, as !Has says it.
  ghost predicate Absent(pending: seq<Slot>, xid: int) { forall s :: s in pending ==> s.xid != xid }

  // A dictionary: one entry for a request.
  ghost predicate Keyed(pending: seq<Slot>)
    decreases |pending|
  {
    pending != [] ==> Absent(pending[1..], pending[0].xid) && Keyed(pending[1..])
  }

  lemma AbsentFrom(s: Slot, rest: seq<Slot>, xid: int)
    ensures Absent([s] + rest, xid) <==> s.xid != xid && Absent(rest, xid)
  {
    assert s in [s] + rest && forall x :: x in rest ==> x in [s] + rest;
  }

  lemma KeyedFrom(s: Slot, rest: seq<Slot>)
    ensures Keyed([s] + rest) <==> Absent(rest, s.xid) && Keyed(rest)
  {
    assert ([s] + rest)[1..] == rest;
  }

  lemma {:induction false} StoredAbsent(pending: seq<Slot>, e: Event, at: int, xid: int)
    requires e.Got? && Absent(pending, xid) && e.xid != xid
    ensures Absent(Stored(pending, e, at), xid)
    decreases |pending|
  {
    if pending != [] {
      AbsentFrom(pending[0], pending[1..], xid);
      assert pending == [pending[0]] + pending[1..];
      if pending[0].xid != e.xid {
        StoredAbsent(pending[1..], e, at, xid);
        AbsentFrom(pending[0], Stored(pending[1..], e, at), xid);
      }
    }
  }

  lemma {:induction false} StoredKeyed(pending: seq<Slot>, e: Event, at: int)
    requires e.Got? && Keyed(pending)
    ensures Keyed(Stored(pending, e, at))
    decreases |pending|
  {
    if pending == [] {
      assert Stored(pending, e, at)[1..] == [];
    } else if pending[0].xid == e.xid {
      assert Stored(pending, e, at)[1..] == pending[1..];
    } else {
      StoredKeyed(pending[1..], e, at);
      StoredAbsent(pending[1..], e, at, pending[0].xid);
      KeyedFrom(pending[0], Stored(pending[1..], e, at));
    }
  }

  lemma {:induction false} SweptAbsent(pending: seq<Slot>, now: int, xid: int)
    requires Absent(pending, xid)
    ensures Absent(Swept(pending, now).0, xid)
    decreases |pending|
  {
    if pending != [] {
      assert pending[0] in pending && forall s :: s in pending[1..] ==> s in pending;
      SweptAbsent(pending[1..], now, xid);
    }
  }

  lemma {:induction false} SweptKeyed(pending: seq<Slot>, now: int)
    requires Keyed(pending)
    ensures Keyed(Swept(pending, now).0)
    decreases |pending|
  {
    if pending != [] {
      var slot, kept := Settled(pending[0], now).0, Swept(pending[1..], now).0;
      SweptKeyed(pending[1..], now);
      SweptAbsent(pending[1..], now, pending[0].xid);
      if slot.Some? {
        KeyedFrom(slot.value, kept);
      } else {
        assert [] + kept == kept;
      }
    }
  }

  lemma {:induction false} SweptForwards(pending: seq<Slot>, now: int, xid: int)
    requires Absent(pending, xid)
    ensures forall request :: Forward(xid, request) !in Swept(pending, now).1
    decreases |pending|
  {
    if pending != [] {
      assert pending[0] in pending && forall s :: s in pending[1..] ==> s in pending;
      SweptForwards(pending[1..], now, xid);
    }
  }

  // A sweep forwards for its entries only, and ends an entry it forwards for.
  lemma {:induction false} SweptEnds(pending: seq<Slot>, now: int, xid: int, request: seq<Byte>)
    requires Keyed(pending) && Forward(xid, request) in Swept(pending, now).1
    ensures !Absent(pending, xid) && Absent(Swept(pending, now).0, xid)
    decreases |pending|
  {
    var s, rest := pending[0], pending[1..];
    assert pending == [s] + rest;
    AbsentFrom(s, rest, xid);
    if Forward(xid, request) in Settled(s, now).1 {
      SweptAbsent(rest, now, xid);
      assert [] + Swept(rest, now).0 == Swept(rest, now).0;
    } else {
      SweptEnds(rest, now, xid, request);
      if Settled(s, now).0.Some? {
        AbsentFrom(Settled(s, now).0.value, Swept(rest, now).0, xid);
      } else {
        assert [] + Swept(rest, now).0 == Swept(rest, now).0;
      }
    }
  }

  lemma HandledKeyed(pending: seq<Slot>, e: Event, at: int)
    requires Keyed(pending)
    ensures Keyed(Handled(pending, e, at))
  {
    if e.Got? {
      StoredKeyed(pending, e, at);
    } else {
      assert Handled(pending, e, at)[1..] == [];
    }
  }

  lemma TurnKeyed(pending: seq<Slot>, t: Turn)
    requires Keyed(pending)
    ensures Keyed(After(pending, t).0)
  {
    if t.event.Some? { HandledKeyed(pending, t.event.value, t.at); }
    SweptKeyed(if t.event.Some? then Handled(pending, t.event.value, t.at) else pending, t.now);
  }

  // Whatever the turn, a request it forwards has no entry afterwards.
  lemma ForwardEnds(pending: seq<Slot>, t: Turn, xid: int, request: seq<Byte>)
    requires Keyed(pending) && Forward(xid, request) in After(pending, t).1
    ensures Absent(After(pending, t).0, xid)
  {
    if t.event.Some? { HandledKeyed(pending, t.event.value, t.at); }
    SweptEnds(if t.event.Some? then Handled(pending, t.event.value, t.at) else pending, t.now, xid, request);
  }

  lemma TurnAbsent(pending: seq<Slot>, t: Turn, xid: int)
    requires Absent(pending, xid) && (t.event.Some? ==> t.event.value.xid != xid)
    ensures Absent(After(pending, t).0, xid)
  {
    if t.event.Some? && t.event.value.Got? { StoredAbsent(pending, t.event.value, t.at, xid); }
    SweptAbsent(if t.event.Some? then Handled(pending, t.event.value, t.at) else pending, t.now, xid);
  }

  lemma {:induction false} StaysAbsent(pending: seq<Slot>, others: seq<Turn>, xid: int)
    requires Absent(pending, xid)
    requires forall t :: t in others && t.event.Some? ==> t.event.value.xid != xid
    ensures Absent(Pending(pending, others), xid)
    decreases |others|
  {
    if others != [] {
      assert others[0] in others && forall t :: t in others[1..] ==> t in others;
      TurnAbsent(pending, others[0], xid);
      StaysAbsent(After(pending, others[0]).0, others[1..], xid);
    }
  }

  lemma {:induction false} StoredNew(pending: seq<Slot>, e: Event, at: int)
    requires e.Got? && Absent(pending, e.xid)
    ensures Stored(pending, e, at) == pending + [Slot(e.xid, None, map[e.seqno := e.payload], at + ROUND_MILLIS, 0)]
    decreases |pending|
  {
    if pending != [] {
      assert pending == [pending[0]] + pending[1..];
      StoredNew(pending[1..], e, at);
    }
  }

  lemma {:induction false} SweptLast(pending: seq<Slot>, s: Slot, now: int)
    ensures Swept(pending + [s], now)
         == (Swept(pending, now).0 + AsSeq(Settled(s, now).0), Swept(pending, now).1 + Settled(s, now).1)
    decreases |pending|
  {
    var p := pending + [s];
    var (slot, more) := Settled(p[0], now);
    var (kept, outs) := Swept(p[1..], now);
    assert Swept(p, now) == (AsSeq(slot) + kept, more + outs);
    if pending == [] {
      assert p[0] == s && p[1..] == [] && Swept(pending, now) == ([], []);
      assert AsSeq(slot) + [] == [] + AsSeq(slot) && more + [] == [] + more;
    } else {
      assert p[0] == pending[0] && p[1..] == pending[1..] + [s];
      SweptLast(pending[1..], s, now);
      Grouped(AsSeq(slot), Swept(pending[1..], now).0, AsSeq(Settled(s, now).0));
      Grouped(more, Swept(pending[1..], now).1, Settled(s, now).1);
      assert Swept(pending, now) == (AsSeq(slot) + Swept(pending[1..], now).0, more + Swept(pending[1..], now).1);
    }
  }

  // The entry a chunk makes when there is none.
  function LateSlot(xid: int, k: int, payload: string, at: int): Slot {
    Slot(xid, None, map[k := payload], at + ROUND_MILLIS, 0)
  }

  lemma LateEntry(pending: seq<Slot>, xid: int, k: int, payload: string, at: int, now: int)
    requires Absent(pending, xid)
    ensures After(pending, Turn(Some(Got(xid, k, payload)), at, now))
         == (Swept(pending, now).0 + AsSeq(Settled(LateSlot(xid, k, payload, at), now).0),
             Swept(pending, now).1 + Settled(LateSlot(xid, k, payload, at), now).1)
  {
    StoredNew(pending, Got(xid, k, payload), at);
    SweptLast(pending, LateSlot(xid, k, payload, at), now);
  }

  lemma LateTotal(xid: int, k: int, payload: string, at: int)
    ensures Total(LateSlot(xid, k, payload, at)) == k + 1
  {
    assert k in LateSlot(xid, k, payload, at).chunks;
  }

  lemma LaterWaits(xid: int, k: int, payload: string, at: int, now: int)
    requires k > 0
    ensures Settled(LateSlot(xid, k, payload, at), now).0.Some?
    ensures forall o :: o in Settled(LateSlot(xid, k, payload, at), now).1 ==> o.Nack?
  {
    LateTotal(xid, k, payload, at);
    MissingIs(LateSlot(xid, k, payload, at).chunks, k + 1);
    assert 0 in Missing(LateSlot(xid, k, payload, at).chunks, k + 1);
  }

  lemma FirstGoes(xid: int, request: seq<Byte>, at: int, now: int)
    requires |Chunks(Encode(request))| > 1
    ensures |request| > 90
    ensures Settled(LateSlot(xid, 0, Chunks(Encode(request))[0], at), now) == (None, [Ack, Forward(xid, request[..90])])
  {
    LongEnough(request, 1);
    GuessForwardsPrefix(LateSlot(xid, 0, Chunks(Encode(request))[0], at), request, 1, now);
    assert forall part: seq<Byte> :: part <= request && |part| == 90 ==> part == request[..90];
  }

  // A chunk of a longer request for which there is no entry makes one that guesses.  It
  // forwards something on the spot exactly if it is the first, and then 90 bytes.
  lemma LateChunk(pending: seq<Slot>, xid: int, request: seq<Byte>, k: nat, at: int, now: int)
    requires Absent(pending, xid) && k < |Chunks(Encode(request))| && |Chunks(Encode(request))| > 1
    ensures var outs := After(pending, Turn(Some(Got(xid, k, Chunks(Encode(request))[k])), at, now)).1;
            && (k == 0 ==> |request| > 90 && outs == Swept(pending, now).1 + [Ack, Forward(xid, request[..90])])
            && forall part :: Forward(xid, part) in outs ==> k == 0
  {
    LateEntry(pending, xid, k, Chunks(Encode(request))[k], at, now);
    SweptForwards(pending, now, xid);
    if k == 0 {
      FirstGoes(xid, request, at, now);
    } else {
      LaterWaits(xid, k, Chunks(Encode(request))[k], at, now);
    }
  }

  lemma {:induction false} RunKeyed(pending: seq<Slot>, turns: seq<Turn>)
    requires Keyed(pending)
    ensures Keyed(Pending(pending, turns))
    decreases |turns|
  {
    if turns != [] {
      TurnKeyed(pending, turns[0]);
      RunKeyed(After(pending, turns[0]).0, turns[1..]);
    }
  }

  // The board sends all chunks again, without a header, when the acknowledgement is lost.
  // In any run of the relay, once a turn has forwarded a request of several chunks, and
  // whatever else goes on, the first of them to come again forwards 90 bytes as a request
  // of their own.
  lemma ResendForwardsPart(before: seq<Turn>, t: Turn, others: seq<Turn>, xid: int, request: seq<Byte>, at: int,
          now: int)
    requires Forward(xid, request) in After(Pending([], before), t).1 && |Chunks(Encode(request))| > 1
    requires forall u :: u in others && u.event.Some? ==> u.event.value.xid != xid
    ensures var p := Pending(After(Pending([], before), t).0, others);
            |request| > 90 && After(p, Turn(Some(Got(xid, 0, Chunks(Encode(request))[0])), at, now))
                           == (Swept(p, now).0, Swept(p, now).1 + [Ack, Forward(xid, request[..90])])
  {
    RunKeyed([], before);
    var p := Pending(After(Pending([], before), t).0, others);
    ForwardEnds(Pending([], before), t, xid, request);
    StaysAbsent(After(Pending([], before), t).0, others, xid);
    LateEntry(p, xid, 0, Chunks(Encode(request))[0], at, now);
    FirstGoes(xid, request, at, now);
    assert Swept(p, now).0 + [] == Swept(p, now).0;
  }
}
