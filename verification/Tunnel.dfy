// The board's end of the serial tunnel (velaops_serial_tunnel.c:98-192) and the frames
// the relay accepts from it (serial_llm_relay.py:161-207).

module Tunnel {
  import opened Common
  import Crc
  import opened Base64
  import opened Decimal

  const CHUNK := 120         // VELAOPS_TUNNEL_CHUNK
  const REQ_MAX := 64 * 1024  // VELAOPS_TUNNEL_REQ_MAX
  const NACK_SIZE := 1024    // the buffer of velaops_tunnel_read_nack

  // A line of either kind, fields already read.
  datatype Frame =
    | Head(xid: int, n: int)
    | Piece(xid: int, seqno: int, crc: bv16, payload: string)

  // ---------------------------------------------------------------- chunks

  // The text in pieces of 120 characters; an empty text is one empty piece.
  function Chunks(text: string): (cs: seq<string>)
    ensures cs != []
    decreases |text|
  {
    if |text| <= CHUNK then [text] else [text[..CHUNK]] + Chunks(text[CHUNK..])
  }

  function Concat(cs: seq<string>): string {
    if cs == [] then "" else cs[0] + Concat(cs[1..])
  }

  lemma {:induction false} ChunksPartition(text: string)
    ensures Concat(Chunks(text)) == text
    decreases |text|
  {
    if |text| <= CHUNK {
      assert [text][1..] == [] && text + "" == text;
    } else {
      ChunksPartition(text[CHUNK..]);
      assert Chunks(text)[1..] == Chunks(text[CHUNK..]) && text[..CHUNK] + text[CHUNK..] == text;
    }
  }

  // The chunk the source cuts out by offset and length.
  lemma {:induction false} ChunkAt(text: string, k: nat)
    requires k < |Chunks(text)|
    ensures CHUNK * k <= |text|
    ensures Chunks(text)[k] == text[CHUNK * k..if CHUNK * k + CHUNK <= |text| then CHUNK * k + CHUNK else |text|]
    decreases k
  {
    if k > 0 {
      ChunkAt(text[CHUNK..], k - 1);
    }
  }

  lemma {:induction false} ChunkCount(text: string)
    ensures |Chunks(text)| == if |text| == 0 then 1 else (|text| + CHUNK - 1) / CHUNK
    decreases |text|
  {
    if |text| > CHUNK {
      ChunkCount(text[CHUNK..]);
    }
  }

  // ---------------------------------------------------------------- the checksum of a chunk

  function ByteOf(c: char): bv8 { (c as int % 256) as bv8 }

  function Raw(s: string): (b: Crc.Bytes)
    ensures |b| == |s|
  {
    if s == "" then [] else [ByteOf(s[0])] + Raw(s[1..])
  }

  function Checksum(payload: string): bv16 { Crc.Crc16(Raw(payload)) }

  // ---------------------------------------------------------------- sending

  function PieceOf(xid: int, cs: seq<string>, k: nat): Frame
    requires k < |cs|
  {
    Piece(xid, k, Checksum(cs[k]), cs[k])
  }

  // Pieces k, k+1, ... that are wanted; no flags means all.
  function Pieces(xid: int, cs: seq<string>, missing: Option<seq<bool>>, k: nat): seq<Frame>
    requires k <= |cs| && (missing.Some? ==> |missing.value| == |cs|)
    decreases |cs| - k
  {
    if k == |cs| then []
    else (if missing.None? || missing.value[k] then [PieceOf(xid, cs, k)] else []) + Pieces(xid, cs, missing, k + 1)
  }

  // velaops_tunnel_send, while writes succeed.
  method Send(xid: int, b64: string, nchunks: int, withHeader: bool, missing: Option<seq<bool>>)
    returns (lines: seq<Frame>)
    requires nchunks == |Chunks(b64)| && (missing.Some? ==> |missing.value| == nchunks)
    ensures lines == (if withHeader then [Head(xid, nchunks)] else []) + Pieces(xid, Chunks(b64), missing, 0)
  {
    lines := if withHeader then [Head(xid, nchunks)] else [];
    ghost var cs := Chunks(b64);
    ghost var all := lines + Pieces(xid, cs, missing, 0);
    var k := 0;
    while k < nchunks
      invariant 0 <= k <= nchunks && lines + Pieces(xid, cs, missing, k) == all
    {
      if missing.None? || missing.value[k] {
        var line := CutPiece(xid, b64, k);
        Grouped(lines, [line], Pieces(xid, cs, missing, k + 1));
        lines := lines + [line];
      }
      k := k + 1;
    }
    assert lines + [] == lines;
  }

  method CutPiece(xid: int, b64: string, k: nat) returns (line: Frame)
    requires k < |Chunks(b64)|
    ensures line == PieceOf(xid, Chunks(b64), k)
  {
    ChunkAt(b64, k);
    var offset := k * CHUNK;
    var len := |b64| - offset;
    if len > CHUNK {
      len := CHUNK;
    }
    var payload := b64[offset..offset + len];
    var crc := Crc.TunnelCrc16(Raw(payload));
    line := Piece(xid, k, crc, payload);
  }

  lemma {:induction false} PiecesHold(xid: int, cs: seq<string>, missing: Option<seq<bool>>, k: nat, f: Frame)
    requires k <= |cs| && (missing.Some? ==> |missing.value| == |cs|)
    ensures f in Pieces(xid, cs, missing, k)
       <==> exists j: nat :: k <= j < |cs| && (missing.None? || missing.value[j]) && f == PieceOf(xid, cs, j)
    decreases |cs| - k
  {
    if k < |cs| {
      PiecesHold(xid, cs, missing, k + 1, f);
    }
  }

  // ---------------------------------------------------------------- a NACK

  function SkipSeparators(s: string): (t: string)
    ensures |t| <= |s|
  {
    if s != "" && (s[0] == ',' || s[0] == ' ' || s[0] == '\n') then SkipSeparators(s[1..]) else s
  }

  // The numbers velaops_tunnel_read_nack finds.
  function Numbers(s: string): seq<int>
    decreases |s|
  {
    if s == "" || !StartsNumber(s) then [] else [Atoi(s)] + Numbers(SkipSeparators(AfterNumber(s)))
  }

  function InRange(ns: seq<int>, n: int): nat {
    if ns == [] then 0 else (if 0 <= ns[0] < n then 1 else 0) + InRange(ns[1..], n)
  }

  // How many of them name a chunk.
  ghost function Naming(ns: seq<int>, n: int): set<int> { set i | 0 <= i < |ns| && 0 <= ns[i] < n }

  lemma {:induction false} InRangeBack(ns: seq<int>, x: int, n: int)
    ensures InRange(ns + [x], n) == InRange(ns, n) + if 0 <= x < n then 1 else 0
    decreases |ns|
  {
    if ns == [] {
      assert [x][1..] == [] && ns + [x] == [x];
    } else {
      assert (ns + [x])[1..] == ns[1..] + [x];
      InRangeBack(ns[1..], x, n);
    }
  }

  lemma {:induction false} InRangeCount(ns: seq<int>, n: int)
    ensures InRange(ns, n) == |Naming(ns, n)|
    decreases |ns|
  {
    if ns != [] {
      var (k, front) := (|ns| - 1, ns[..|ns| - 1]);
      InRangeCount(front, n);
      InRangeBack(front, ns[k], n);
      assert front + [ns[k]] == ns;
      assert Naming(ns, n) == Naming(front, n) + if 0 <= ns[k] < n then {k} else {};
    }
  }

  // velaops_tunnel_read_nack on the content of the NACK file, if there is one.
  method ReadNack(file: Option<string>, missing: array<bool>) returns (count: int)
    modifies missing
    ensures file.None? ==> count == -1 && missing[..] == old(missing[..])
    ensures file.Some? ==>
              var ns := Numbers(CStr('\0', if |file.value| < NACK_SIZE then file.value
                else file.value[..NACK_SIZE - 1]));
              count == InRange(ns, missing.Length) && forall k :: 0 <= k < missing.Length ==> (missing[k] <==> k in ns)
  {
    if file.None? {
      return -1;
    }
    var buffer := CStr('\0', if |file.value| < NACK_SIZE then file.value else file.value[..NACK_SIZE - 1]);
    forall k | 0 <= k < missing.Length { missing[k] := false; }
    count := ScanNack(buffer, missing);
  }

  method ScanNack(buffer: string, missing: array<bool>) returns (count: nat)
    requires forall k :: 0 <= k < missing.Length ==> !missing[k]
    modifies missing
    ensures count == InRange(Numbers(buffer), missing.Length)
    ensures forall k :: 0 <= k < missing.Length ==> (missing[k] <==> k in Numbers(buffer))
  {
    var cursor := buffer;
    count := 0;
    while cursor != ""
      invariant count + InRange(Numbers(cursor), missing.Length) == InRange(Numbers(buffer), missing.Length)
      invariant forall k :: 0 <= k < missing.Length ==> (missing[k] || k in Numbers(cursor) <==> k in Numbers(buffer))
      decreases |cursor|
    {
      if !StartsNumber(cursor) {
        break;
      }
      var value := Atoi(cursor);
      ghost var before := Numbers(cursor);
      cursor := SkipSeparators(AfterNumber(cursor));
      assert before == [value] + Numbers(cursor) && before[1..] == Numbers(cursor);
      if 0 <= value < missing.Length {
        missing[value] := true;
        count := count + 1;
      }
    }
  }

  // What the relay's echo leaves in the file.
  function Printed(ns: seq<nat>): string {
    if ns == [] then "\n" else if |ns| == 1 then Shown(ns[0]) + "\n" else Shown(ns[0]) + "," + Printed(ns[1..])
  }

  lemma OneNumber(n: nat, rest: string)
    requires rest == "" || !IsDigit(rest[0])
    ensures Numbers(Shown(n) + rest) == [n] + Numbers(SkipSeparators(rest))
  {
    AtoiShown(n, rest);
  }

  // The board reads back the numbers the relay lists.
  lemma {:induction false} NackRoundTrip(ns: seq<nat>)
    requires ns != []
    ensures Numbers(Printed(ns)) == ns && CStr('\0', Printed(ns)) == Printed(ns)
    decreases |ns|
  {
    if |ns| == 1 {
      OneNumber(ns[0], "\n");
      assert "\n"[1..] == "";
      PlainText(Shown(ns[0]), "\n");
    } else {
      var rest := "," + Printed(ns[1..]);
      NackRoundTrip(ns[1..]);
      OneNumber(ns[0], rest);
      PrintedStartsWithDigit(ns[1..]);
      Grouped(Shown(ns[0]), ",", Printed(ns[1..]));
      assert rest[1..] == Printed(ns[1..]);
      PlainText(Shown(ns[0]), rest);
      assert ns == [ns[0]] + ns[1..];
    }
  }

  ghost predicate AllShort(ns: seq<nat>) { forall x :: x in ns ==> |Shown(x)| <= 3 }

  lemma ShortParts(ns: seq<nat>)
    requires ns != [] && AllShort(ns)
    ensures |Shown(ns[0])| <= 3 && AllShort(ns[1..])
  {
    assert ns[0] in ns && forall x :: x in ns[1..] ==> x in ns;
  }

  // Of a list that is cut off the board reads the first numbers, and perhaps the front
  // of the next.  Numbers of at most three digits take at most four characters each.
  lemma {:induction false} CutNack(ns: seq<nat>, n: nat) returns (j: nat, tail: seq<int>)
    requires ns != [] && n < |Printed(ns)| && AllShort(ns)
    ensures j <= |ns| && |tail| <= 1 && Numbers(Printed(ns)[..n]) == ns[..j] + tail
    ensures j == |ns| || n <= 4 * j + 3
    decreases |ns|
  {
    var first := Shown(ns[0]);
    ShortParts(ns);
    if n < |first| {
      j := 0;
      tail := CutFront(ns, n);
    } else if |ns| == 1 || n == |first| {
      j, tail := 1, [];
      CutAtFirst(ns, n);
      assert ns[..1] + [] == ns[..1];
    } else {
      PrintedSplits(ns, n);
      var k, more := CutNack(ns[1..], n - |first| - 1);
      j, tail := k + 1, more;
      CutFurther(ns, n, k, more);
    }
  }

  lemma CutFront(ns: seq<nat>, n: nat) returns (tail: seq<int>)
    requires ns != [] && n < |Shown(ns[0])|
    ensures |tail| <= 1 && n < |Printed(ns)| && Numbers(Printed(ns)[..n]) == ns[..0] + tail
  {
    CutInFirst(ns, n);
    tail := CutNumber(Shown(ns[0]), n);
    assert ns[..0] + tail == tail;
  }

  lemma CutInFirst(ns: seq<nat>, n: nat)
    requires ns != [] && n <= |Shown(ns[0])|
    ensures n < |Printed(ns)| && Printed(ns)[..n] == Shown(ns[0])[..n]
  {
  }

  lemma CutAtFirst(ns: seq<nat>, n: nat)
    requires ns != [] && |Shown(ns[0])| <= n < |Printed(ns)| && (|ns| == 1 || n == |Shown(ns[0])|)
    ensures Numbers(Printed(ns)[..n]) == ns[..1]
  {
    var first := Shown(ns[0]);
    OneNumber(ns[0], "");
    assert first + "" == first && Printed(ns)[..n] == first && ns[..1] == [ns[0]];
  }

  lemma CutFurther(ns: seq<nat>, n: nat, k: nat, more: seq<int>)
    requires |ns| > 1 && |Shown(ns[0])| < n < |Printed(ns)| && n - |Shown(ns[0])| - 1 < |Printed(ns[1..])|
    requires k <= |ns[1..]| && Numbers(Printed(ns[1..])[..n - |Shown(ns[0])| - 1]) == ns[1..][..k] + more
    ensures Numbers(Printed(ns)[..n]) == ns[..k + 1] + more
  {
    CutBehind(ns, n);
    TakeOneMore(ns, k, more);
  }

  lemma TakeOneMore(ns: seq<nat>, k: nat, more: seq<int>)
    requires ns != [] && k <= |ns[1..]|
    ensures [ns[0]] + (ns[1..][..k] + more) == ns[..k + 1] + more
  {
  }

  // A list cut behind its first number.
  lemma CutBehind(ns: seq<nat>, n: nat)
    requires |ns| > 1 && |Shown(ns[0])| < n < |Printed(ns)|
    ensures n - |Shown(ns[0])| - 1 < |Printed(ns[1..])|
    ensures Numbers(Printed(ns)[..n]) == [ns[0]] + Numbers(Printed(ns[1..])[..n - |Shown(ns[0])| - 1])
  {
    var rest := Printed(ns[1..]);
    var m := n - |Shown(ns[0])| - 1;
    PrintedSplits(ns, n);
    OneNumber(ns[0], "," + rest[..m]);
    SkipComma(rest, m, ns[1..]);
  }

  lemma PrintedSplits(ns: seq<nat>, n: nat)
    requires |ns| > 1 && |Shown(ns[0])| < n < |Printed(ns)|
    ensures n - |Shown(ns[0])| - 1 < |Printed(ns[1..])|
    ensures Printed(ns)[..n] == Shown(ns[0]) + ("," + Printed(ns[1..])[..n - |Shown(ns[0])| - 1])
  {
  }

  lemma SkipComma(rest: string, m: nat, ns: seq<nat>)
    requires ns != [] && rest == Printed(ns) && m <= |rest|
    ensures SkipSeparators("," + rest[..m]) == rest[..m]
  {
    PrintedStartsWithDigit(ns);
    assert ("," + rest[..m])[1..] == rest[..m];
    if m > 0 { assert rest[..m][0] == rest[0]; }
  }

  // The front of a number reads as one number, or as none.
  lemma CutNumber(digits: string, n: nat) returns (tail: seq<int>)
    requires n <= |digits| && forall i :: 0 <= i < |digits| ==> IsDigit(digits[i])
    ensures |tail| <= 1 && Numbers(digits[..n]) == tail
  {
    if n == 0 {
      tail := [];
    } else {
      AllDigits(digits[..n]);
      tail := [Atoi(digits[..n])];
    }
  }

  lemma AllDigits(s: string)
    requires s != "" && forall i :: 0 <= i < |s| ==> IsDigit(s[i])
    ensures Numbers(s) == [Atoi(s)]
  {
    NoTail(s);
    DigitsStart(s);
    LastNumber(s);
  }

  lemma DigitsStart(s: string)
    requires s != "" && IsDigit(s[0])
    ensures StartsNumber(s) && AfterNumber(s) == Tail(s)
  {
    assert SkipBlanks(s) == s && Unsigned(s) == s;
  }

  lemma LastNumber(s: string)
    requires StartsNumber(s) && AfterNumber(s) == ""
    ensures Numbers(s) == [Atoi(s)]
  {
    assert SkipSeparators("") == "" && Numbers("") == [];
  }

  lemma {:induction false} NoTail(s: string)
    requires forall i :: 0 <= i < |s| ==> IsDigit(s[i])
    ensures Tail(s) == ""
    decreases |s|
  {
    if s != "" { NoTail(s[1..]); }
  }

  lemma ShownShort(n: nat)
    requires n < 1000
    ensures |Shown(n)| <= 3
  {
    if n >= 10 {
      assert Shown(n) == Shown(n / 10) + [DigitOf(n % 10)];
      if n >= 100 { assert Shown(n / 10) == Shown(n / 10 / 10) + [DigitOf(n / 10 % 10)]; }
    }
  }

  lemma {:induction false} PlainCut(s: string, n: nat)
    requires CStr('\0', s) == s && n <= |s|
    ensures CStr('\0', s[..n]) == s[..n]
  {
    assert forall c :: c in s[..n] ==> c in s;
  }

  lemma PrintedStartsWithDigit(ns: seq<nat>)
    requires ns != []
    ensures Printed(ns) != "" && IsDigit(Printed(ns)[0])
    ensures SkipSeparators("," + Printed(ns)) == Printed(ns)
  {
    assert Printed(ns)[0] == Shown(ns[0])[0];
    assert ("," + Printed(ns))[1..] == Printed(ns);
  }

  lemma {:induction false} PlainText(a: string, b: string)
    requires forall i :: 0 <= i < |a| ==> IsDigit(a[i])
    requires CStr('\0', b) == b
    ensures CStr('\0', a + b) == a + b
    decreases |a|
  {
    if a == "" {
      assert a + b == b;
    } else {
      assert (a + b)[1..] == a[1..] + b;
      PlainText(a[1..], b);
    }
  }

  // ---------------------------------------------------------------- the relay's reader

  datatype Event =
    | Opened(xid: int, n: int)
    | Got(xid: int, seqno: int, payload: string)

  function Filter(s: string): string {
    if s == "" then ""
    else if IsLetter(s[0]) || s[0] == '=' then [s[0]] + Filter(s[1..])
    else Filter(s[1..])
  }

  // The branches of _reader for the two kinds of lines.
  function Accept(f: Frame): Option<Event> {
    match f
    case Head(xid, n) => Some(Opened(xid, n))
    case Piece(xid, k, crc, payload) =>
      if Checksum(Filter(payload)) == crc then Some(Got(xid, k, Filter(payload))) else None
  }

  ghost predicate Plain(s: string) { forall c :: c in s ==> IsLetter(c) || c == '=' }

  lemma {:induction false} FilterPlain(s: string)
    requires Plain(s)
    ensures Filter(s) == s
    decreases |s|
  {
    if s != "" {
      FilterPlain(s[1..]);
    }
  }

  // A chunk whose text arrives as it was sent is accepted under whatever number its
  // line carries: the checksum covers the text alone.
  lemma IntactIsAccepted(xid: int, k: int, payload: string)
    requires Plain(payload)
    ensures Accept(Piece(xid, k, Checksum(payload), payload)) == Some(Got(xid, k, payload))
  {
    FilterPlain(payload);
  }

  predicate IsForeign(c: char) { !IsLetter(c) && c != '=' }

  // `got` is `sent` with foreign characters let in at any number of places.
  predicate WithNoise(sent: string, got: string)
    decreases |got|
  {
    if got == "" then sent == ""
    else if IsForeign(got[0]) then WithNoise(sent, got[1..])
    else sent != "" && sent[0] == got[0] && WithNoise(sent[1..], got[1..])
  }

  lemma {:induction false} NoiseIsFiltered(sent: string, got: string)
    requires WithNoise(sent, got)
    ensures Filter(got) == sent
    decreases |got|
  {
    if got != "" {
      NoiseIsFiltered(if IsForeign(got[0]) then sent else sent[1..], got[1..]);
    }
  }

  // Foreign characters that got into the text are dropped before the check.
  lemma NoiseIsDropped(xid: int, k: int, sent: string, got: string)
    requires WithNoise(sent, got)
    ensures Accept(Piece(xid, k, Checksum(sent), got)) == Some(Got(xid, k, sent))
  {
    NoiseIsFiltered(sent, got);
  }

  lemma {:induction false} FilterJoined(a: string, b: string)
    ensures Filter(a + b) == Filter(a) + Filter(b)
    decreases |a|
  {
    if a == "" {
      assert a + b == b;
    } else {
      assert (a + b)[1..] == a[1..] + b;
      FilterJoined(a[1..], b);
    }
  }

  lemma {:induction false} FilterNoise(s: string)
    requires forall c :: c in s ==> IsForeign(c)
    ensures Filter(s) == ""
    decreases |s|
  {
    if s != "" {
      assert s[0] in s && forall c :: c in s[1..] ==> c in s;
      FilterNoise(s[1..]);
    }
  }

  // One whose text changed into other letters within two neighbours is rejected,
  // whatever its numbers say.
  lemma DamageIsRejected(xid: int, k: int, sent: string, got: string, before: Crc.Bytes, d: Crc.Bytes,
          d': Crc.Bytes, after: Crc.Bytes)
    requires Raw(sent) == before + d + after && Raw(Filter(got)) == before + d' + after
    requires |d| == |d'| <= 2 && d != d'
    ensures Accept(Piece(xid, k, Checksum(sent), got)) == None
  {
    Crc.Burst16(before, d, d', after);
  }

  // The checksum register after some more text.
  function Continued(s: bv16, text: string): bv16 { Crc.Fold(Crc.REG16.Step, s, Raw(text)) }

  lemma {:induction false} RawJoined(a: string, b: string)
    ensures Raw(a + b) == Raw(a) + Raw(b)
    decreases |a|
  {
    if a == "" {
      assert a + b == b;
    } else {
      assert (a + b)[1..] == a[1..] + b;
      RawJoined(a[1..], b);
    }
  }

  lemma ContinuedJoined(s: bv16, a: string, b: string)
    ensures Continued(s, a + b) == Continued(Continued(s, a), b)
  {
    RawJoined(a, b);
    Crc.FoldAppend(Crc.REG16.Step, s, Raw(a), Raw(b));
  }

  lemma ContinuedInjective(x: bv16, y: bv16, b: string)
    requires Continued(x, b) == Continued(y, b)
    ensures x == y
  {
    Crc.Laws16();
    Crc.REG16.StepIsInjective();
    Crc.FoldInjective(Crc.REG16.Step, x, y, Raw(b));
  }

  // Where a stretch d of the text arrives as d', of any length, the chunk is accepted
  // exactly when the letters left of d' lead the register where d led it, and then with
  // these letters in place of d.
  lemma DamageShownIff(xid: int, k: int, a: string, d: string, d': string, b: string)
    requires Plain(a) && Plain(b)
    ensures Accept(Piece(xid, k, Checksum(a + d + b), a + d' + b))
         == if Continued(Checksum(a), Filter(d')) == Continued(Checksum(a), d)
            then Some(Got(xid, k, a + Filter(d') + b)) else None
  {
    FilterAround(a, d', b);
    ChecksumAround(a, d, b);
    ChecksumAround(a, Filter(d'), b);
    if Checksum(a + d + b) == Checksum(a + Filter(d') + b) {
      ContinuedInjective(Continued(Checksum(a), d), Continued(Checksum(a), Filter(d')), b);
    }
  }

  lemma FilterAround(a: string, d: string, b: string)
    requires Plain(a) && Plain(b)
    ensures Filter(a + d + b) == a + Filter(d) + b
  {
    FilterJoined(a + d, b);
    FilterJoined(a, d);
    FilterPlain(a);
    FilterPlain(b);
  }

  lemma ChecksumAround(a: string, d: string, b: string)
    ensures Checksum(a + d + b) == Continued(Continued(Checksum(a), d), b)
  {
    ContinuedJoined(0xffff, a + d, b);
    ContinuedJoined(0xffff, a, d);
  }

  // Whether damage to a stretch of the text does no harm: its letters arrive all the
  // same, or the checksum shows that they did not.
  ghost predicate Harmless(a: string, d: string, d': string) {
    Filter(d') == d || Continued(Checksum(a), Filter(d')) != Continued(Checksum(a), d)
  }

  // The reader gives such a chunk as it was sent or not at all, and no other chunk.
  lemma HarmlessIff(xid: int, k: int, a: string, d: string, d': string, b: string)
    requires Plain(a) && Plain(b)
    ensures Accept(Piece(xid, k, Checksum(a + d + b), a + d' + b)) in {None, Some(Got(xid, k, a + d + b))}
            <==> Harmless(a, d, d')
  {
    DamageShownIff(xid, k, a, d, d', b);
    if a + Filter(d') + b == a + d + b {
      assert |Filter(d')| == |d|;
      assert Filter(d') == (a + Filter(d') + b)[|a|..|a| + |d|] == (a + d + b)[|a|..|a| + |d|] == d;
    }
  }

  // Other letters in place of one or two do none.
  lemma {:induction false} RawInjective(d: string, d': string)
    requires Plain(d) && Plain(d') && |d| == |d'| && Raw(d) == Raw(d')
    ensures d == d'
    decreases |d|
  {
    if d != "" {
      assert Raw(d)[0] == ByteOf(d[0]) && Raw(d')[0] == ByteOf(d'[0]);
      assert Raw(d)[1..] == Raw(d[1..]) && Raw(d')[1..] == Raw(d'[1..]);
      assert d[0] in d && d'[0] in d' && forall c :: c in d[1..] ==> c in d;
      assert forall c :: c in d'[1..] ==> c in d';
      RawInjective(d[1..], d'[1..]);
      LetterOfByte(d[0], d'[0]);
      assert d == [d[0]] + d[1..] && d' == [d'[0]] + d'[1..];
    }
  }

  lemma LetterOfByte(x: char, y: char)
    requires x as int < 0x100 && y as int < 0x100 && ByteOf(x) == ByteOf(y)
    ensures x == y
  {
    ByteRead(x as int);
    ByteRead(y as int);
  }

  lemma LettersAreHarmless(a: string, d: string, d': string)
    requires Plain(d) && Plain(d') && |d| == |d'| <= 2 && d != d'
    ensures Harmless(a, d, d')
  {
    FilterPlain(d');
    if Raw(d) == Raw(d') { RawInjective(d, d'); }
    TwoBytesMove(a, d, d');
  }

  lemma TwoBytesMove(a: string, d: string, d': string)
    requires |d| == |d'| <= 2 && Raw(d) != Raw(d')
    ensures Continued(Checksum(a), d) != Continued(Checksum(a), d')
  {
    Crc.Burst16(Raw(a), Raw(d), Raw(d'), []);
    ContinuedJoined(0xffff, a, d);
    ContinuedJoined(0xffff, a, d');
    RawJoined(a, d);
    RawJoined(a, d');
    assert Raw(a) + Raw(d) + [] == Raw(a) + Raw(d) && Raw(a) + Raw(d') + [] == Raw(a) + Raw(d');
  }

  // A letter turned into a foreign byte does none exactly when it moves the register.
  lemma ForeignIsHarmlessIff(a: string, x: char, bad: char)
    requires IsForeign(bad)
    ensures Harmless(a, [x], [bad]) <==> Crc.REG16.Step(Checksum(a), ByteOf(x)) != Checksum(a)
  {
    NothingLeft(bad);
    OneByte(Checksum(a), x);
  }

  // What the line may do to a chunk and its checksum field: let foreign characters in
  // anywhere while the field arrives as anything; besides change up to two neighbouring
  // letters under an intact field; or besides lose a letter that had moved the register.
  ghost predicate Fault(sent: string, crc: bv16, got: string) {
    || WithNoise(sent, got)
    || (crc == Checksum(sent) && exists a, d, d', b :: Changed(sent, got, a, d, d', b))
    || (crc == Checksum(sent) && exists a, x, b :: Lost(sent, got, a, x, b))
  }

  ghost predicate Changed(sent: string, got: string, a: string, d: string, d': string, b: string) {
    sent == a + d + b && |d| == |d'| <= 2 && d != d' && Plain(d') && WithNoise(a + d' + b, got)
  }

  ghost predicate Lost(sent: string, got: string, a: string, x: char, b: string) {
    sent == a + [x] + b && Crc.REG16.Step(Checksum(a), ByteOf(x)) != Checksum(a) && WithNoise(a + b, got)
  }

  // The reader's guard fails, or the text is the one that was sent.
  predicate Caught(sent: string, crc: bv16, got: string) {
    Checksum(Filter(got)) != crc || Filter(got) == sent
  }

  lemma HarmlessIsCaught(a: string, d: string, d': string, b: string, got: string)
    requires Plain(a) && Plain(b) && Harmless(a, d, d') && Filter(got) == a + Filter(d') + b
    ensures Caught(a + d + b, Checksum(a + d + b), got)
  {
    ChecksumAround(a, d, b);
    ChecksumAround(a, Filter(d'), b);
    if Checksum(Filter(got)) == Checksum(a + d + b) {
      ContinuedInjective(Continued(Checksum(a), d), Continued(Checksum(a), Filter(d')), b);
    }
  }

  // Every such fault is caught.
  lemma FaultIsCaught(sent: string, crc: bv16, got: string)
    requires Plain(sent) && Fault(sent, crc, got)
    ensures Caught(sent, crc, got)
  {
    if WithNoise(sent, got) {
      NoiseIsFiltered(sent, got);
    } else if exists a, d, d', b :: Changed(sent, got, a, d, d', b) {
      var a, d, d', b :| Changed(sent, got, a, d, d', b);
      ChangeIsCaught(sent, got, a, d, d', b);
    } else {
      var a, x, b :| Lost(sent, got, a, x, b);
      LossIsCaught(sent, got, a, x, b);
    }
  }

  lemma PlainParts(a: string, d: string, b: string)
    requires Plain(a + d + b)
    ensures Plain(a) && Plain(d) && Plain(b)
  {
    assert forall c :: c in a || c in d || c in b ==> c in a + d + b;
  }

  lemma ChangeIsCaught(sent: string, got: string, a: string, d: string, d': string, b: string)
    requires Plain(sent) && Changed(sent, got, a, d, d', b)
    ensures Caught(sent, Checksum(sent), got)
  {
    PlainParts(a, d, b);
    LettersAreHarmless(a, d, d');
    FilterPlain(d');
    NoiseIsFiltered(a + d' + b, got);
    HarmlessIsCaught(a, d, d', b, got);
  }

  lemma LossIsCaught(sent: string, got: string, a: string, x: char, b: string)
    requires Plain(sent) && Lost(sent, got, a, x, b)
    ensures Caught(sent, Checksum(sent), got)
  {
    PlainParts(a, [x], b);
    ForeignIsHarmlessIff(a, x, '!');
    NothingLeft('!');
    NoiseIsFiltered(a + b, got);
    JoinedOverNothing(a, b);
    HarmlessIsCaught(a, [x], ['!'], b, got);
  }

  // A letter that arrives as a foreign byte is deleted before the check, so the chunk is
  // accepted without it exactly when the letter left the register as it was.
  lemma ForeignByteShownIff(xid: int, k: int, a: string, x: char, bad: char, b: string)
    requires Plain(a) && Plain(b) && IsForeign(bad)
    ensures Accept(Piece(xid, k, Checksum(a + [x] + b), a + [bad] + b))
         == if Crc.REG16.Step(Checksum(a), ByteOf(x)) == Checksum(a) then Some(Got(xid, k, a + b)) else None
  {
    DamageShownIff(xid, k, a, [x], [bad], b);
    NothingLeft(bad);
    OneByte(Checksum(a), x);
    JoinedOverNothing(a, b);
  }

  lemma NothingLeft(bad: char)
    requires IsForeign(bad)
    ensures Filter([bad]) == ""
  {
    FilterNoise([bad]);
  }

  lemma JoinedOverNothing(a: string, b: string)
    ensures a + "" + b == a + b
  {
  }

  lemma OneByte(s: bv16, x: char)
    ensures Continued(s, [x]) == Crc.REG16.Step(s, ByteOf(x)) && Continued(s, "") == s
  {
    assert [x][1..] == "" && Raw([x]) == [ByteOf(x)] && [ByteOf(x)][1..] == [];
    assert Crc.Fold(Crc.REG16.Step, s, [ByteOf(x)]) == Crc.Fold(Crc.REG16.Step, Crc.REG16.Step(s, ByteOf(x)), []);
  }

  // There are such letters: behind "Jl" a 'q' that arrives as '!' is lost unnoticed.
  lemma LostLetter(xid: int, k: int, b: string)
    requires Plain(b)
    ensures Accept(Piece(xid, k, Checksum("Jl" + ['q'] + b), "Jl" + ['!'] + b)) == Some(Got(xid, k, "Jl" + b))
  {
    ForeignByteShownIff(xid, k, "Jl", 'q', '!', b);
    JlBytes();
    Crc.FixedState16();
  }

  lemma JlBytes()
    ensures Raw("Jl") == [0x4a, 0x6c] && ByteOf('q') == 0x71
  {
    RawPair('J', 'l');
    CodeOfJ();
    CodeOfL();
    CodeOfQ();
  }

  lemma RawPair(x: char, y: char)
    ensures Raw([x, y]) == [ByteOf(x), ByteOf(y)]
  {
    assert [x, y][1..] == [y] && [y][1..] == "";
  }

  lemma CodeOfJ()
    ensures ByteOf('J') == 0x4a
  {
  }

  lemma CodeOfL()
    ensures ByteOf('l') == 0x6c
  {
  }

  lemma CodeOfQ()
    ensures ByteOf('q') == 0x71
  {
  }

  lemma {:induction false} EncodePlain(data: seq<Byte>)
    ensures Plain(Encode(data))
    decreases |data|
  {
    if data != [] {
      EncodePlain(Past3(data));
      QuadLetters(data);
    }
  }
}
