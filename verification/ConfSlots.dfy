// The A/B configuration slots of velaops_conf.c: slot format, choice of the newest
// slot, saving into the other one, and what power loss can leave behind.

module ConfSlots {
  import opened Common
  import opened Crc

  const HEADER: nat := 16           // CONF_HDR_SIZE
  const MAX_PAYLOAD: nat := 1000    // CONF_MAX_PAYLOAD
  const SEQ_LIMIT: nat := 0x1_0000_0000
  const MAGIC: Bytes := [0x56, 0x4c, 0x4f, 0x50]   // "VLOP"

  // ---------------------------------------------------------------- little-endian fields

  // The same bytes as numbers, and back.
  function Values(d: Bytes): (v: seq<Byte>)
    ensures |v| == |d|
  {
    if d == [] then [] else [d[0] as int] + Values(d[1..])
  }

  function Bits(v: seq<Byte>): (d: Bytes)
    ensures |d| == |v|
  {
    if v == [] then [] else [v[0] as bv8] + Bits(v[1..])
  }

  lemma {:induction false} ValuesOfBits(v: seq<Byte>)
    ensures Values(Bits(v)) == v
    decreases |v|
  {
    if v != [] {
      ByteRead(v[0]);
      ValuesOfBits(v[1..]);
      assert Bits(v)[1..] == Bits(v[1..]) && v == [v[0]] + v[1..];
    }
  }

  lemma {:induction false} BitsOfValues(d: Bytes)
    ensures Bits(Values(d)) == d
    decreases |d|
  {
    if d != [] {
      BitsOfValues(d[1..]);
      assert Values(d)[1..] == Values(d[1..]) && d == [d[0]] + d[1..];
    }
  }

  function Number(d: Bytes): nat { LittleEndian(Values(d)) }

  function Field(w: nat, n: nat): (d: Bytes)
    requires w < Pow256(n)
    ensures |d| == n && Number(d) == w
  {
    DigitsRead(w, n);
    ValuesOfBits(Digits(w, n));
    Bits(Digits(w, n))
  }

  lemma FieldShows(d: Bytes)
    ensures Number(d) < Pow256(|d|) && Field(Number(d), |d|) == d
  {
    NumberShows(Values(d));
    BitsOfValues(d);
  }

  lemma Widths()
    ensures Pow256(4) == SEQ_LIMIT && Pow256(2) == 0x1_0000
  {
    assert Pow256(2) == 0x1_0000;
  }

  function Seq32(w: nat): (d: Bytes)
    requires w < SEQ_LIMIT
    ensures |d| == 4 && Number(d) == w
  {
    Widths();
    Field(w, 4)
  }

  function Len16(w: nat): (d: Bytes)
    requires w < 0x1_0000
    ensures |d| == 2 && Number(d) == w
  {
    Widths();
    Field(w, 2)
  }

  function CrcField(c: bv32): (d: Bytes)
    ensures |d| == 4
  {
    [(c & 0xff) as bv8, ((c >> 8) & 0xff) as bv8, ((c >> 16) & 0xff) as bv8, ((c >> 24) & 0xff) as bv8]
  }

  function CrcValue(d: Bytes): bv32
    requires |d| == 4
  {
    (d[0] as bv32) | ((d[1] as bv32) << 8) | ((d[2] as bv32) << 16) | ((d[3] as bv32) << 24)
  }

  lemma CrcRead(c: bv32)
    ensures CrcValue(CrcField(c)) == c
  {
  }

  // The low byte of the checksum comes first.
  lemma CrcLowFirst()
    ensures CrcField(0x0403_0201) == [1, 2, 3, 4]
  {
  }

  // ---------------------------------------------------------------- slots

  // A byte string without NUL, as C sees it, and the C string a buffer starts with.
  ghost predicate NoNul(t: Bytes) { 0 !in t }

  // What conf_slot_parse reads out of a slot.
  datatype Slot = Slot(seqno: nat, text: Bytes)

  function Parse(block: Bytes): Option<Slot>
    requires |block| >= HEADER
  {
    if block[..4] != MAGIC then None
    else
      var len := Number(block[8..10]);
      if len == 0 || len > MAX_PAYLOAD || HEADER + len > |block| then None
      else if Crc32(block[HEADER..HEADER + len]) != CrcValue(block[10..14]) then None
      else Some(Slot(Number(block[4..8]), CStr(0, block[HEADER..HEADER + len])))
  }

  // A text velaops_conf_save accepts.
  ghost predicate Storable(text: Bytes) {
    0 < |text| <= MAX_PAYLOAD && NoNul(text)
  }

  // The block velaops_conf_save builds.
  function Image(seqno: nat, text: Bytes, size: nat): (block: Bytes)
    requires seqno < SEQ_LIMIT && |text| <= MAX_PAYLOAD && size >= HEADER + MAX_PAYLOAD
    ensures |block| == size
  {
    MAGIC + Seq32(seqno) + Len16(|text|) + CrcField(Crc32(text)) + [0, 0] + text + Zeros(size - HEADER - |text|)
  }

  function Zeros(n: nat): (z: Bytes)
    ensures |z| == n
  {
    seq(n, _ => 0)
  }

  lemma ImageFields(seqno: nat, text: Bytes, size: nat)
    requires seqno < SEQ_LIMIT && |text| <= MAX_PAYLOAD && size >= HEADER + MAX_PAYLOAD
    ensures var b := Image(seqno, text, size);
            && b[..4] == MAGIC && b[4..8] == Seq32(seqno) && b[8..10] == Len16(|text|)
            && b[10..14] == CrcField(Crc32(text)) && b[HEADER..HEADER + |text|] == text
            && b[14] == 0 && b[15] == 0 && forall k :: HEADER + |text| <= k < size ==> b[k] == 0
  {
  }

  // Saving and parsing are inverse.
  lemma ParseImage(seqno: nat, text: Bytes, size: nat)
    requires seqno < SEQ_LIMIT && Storable(text) && size >= HEADER + MAX_PAYLOAD
    ensures Parse(Image(seqno, text, size)) == Some(Slot(seqno, text))
  {
    ImageFields(seqno, text, size);
    CrcRead(Crc32(text));
  }

  // ... and nothing parses but what a save could have built: only the two reserved bytes
  // and what lies behind the payload are free.
  lemma ParseOnlyImages(block: Bytes)
    requires |block| >= HEADER + MAX_PAYLOAD && Parse(block).Some?
    ensures var len := Number(block[8..10]);
            && 0 < len <= MAX_PAYLOAD && Number(block[4..8]) < SEQ_LIMIT
            && var image := Image(Number(block[4..8]), block[HEADER..HEADER + len], |block|);
               && block[..14] == image[..14] && block[HEADER..HEADER + len] == image[HEADER..HEADER + len]
               && Parse(image) == Parse(block)
  {
    var len := Number(block[8..10]);
    var payload := block[HEADER..HEADER + len];
    FieldBounds(block[4..8], block[8..10]);
    var image := Image(Number(block[4..8]), payload, |block|);
    ImageFields(Number(block[4..8]), payload, |block|);
    SameHeader(block, image);
    ParseReads(block, image, len);
  }

  // Two blocks whose fields show the same.
  lemma SameHeader(block: Bytes, image: Bytes)
    requires |block| >= 14 && |image| >= 14 && Number(block[4..8]) < SEQ_LIMIT && Number(block[8..10]) < 0x1_0000
    requires image[..4] == block[..4] && image[4..8] == Seq32(Number(block[4..8]))
    requires image[8..10] == Len16(Number(block[8..10])) && image[10..14] == CrcField(CrcValue(block[10..14]))
    ensures block[..14] == image[..14]
  {
    FieldShows(block[4..8]);
    FieldShows(block[8..10]);
    CrcShows(block[10..14]);
    FourFields(block);
    FourFields(image);
  }

  lemma FieldsOf(b: Bytes)
    requires |b| >= 14
    ensures b[..4] == b[..14][..4] && b[4..8] == b[..14][4..8] && b[8..10] == b[..14][8..10]
            && b[10..14] == b[..14][10..14]
  {
  }

  // All that parsing reads is the fields and the payload.
  lemma ParseReads(a: Bytes, b: Bytes, len: nat)
    requires |a| == |b| >= HEADER + len && a[..14] == b[..14] && len == Number(a[8..10])
    requires a[HEADER..HEADER + len] == b[HEADER..HEADER + len]
    ensures Parse(a) == Parse(b)
  {
    FieldsOf(a);
    FieldsOf(b);
  }

  lemma FieldBounds(four: Bytes, two: Bytes)
    requires |four| == 4 && |two| == 2
    ensures Number(four) < SEQ_LIMIT && Number(two) < 0x1_0000
  {
    FieldShows(four);
    FieldShows(two);
    Widths();
  }

  lemma FourFields(b: Bytes)
    requires |b| >= 14
    ensures b[..14] == b[..4] + b[4..8] + b[8..10] + b[10..14]
  {
  }

  lemma CrcShows(d: Bytes)
    requires |d| == 4
    ensures CrcField(CrcValue(d)) == d
  {
    assert d == [d[0], d[1], d[2], d[3]];
    CrcBytes(d[0], d[1], d[2], d[3]);
  }

  lemma CrcBytes(a: bv8, b: bv8, c: bv8, d: bv8)
    ensures CrcField(CrcValue([a, b, c, d])) == [a, b, c, d]
  {
  }

  // A slot whose payload was damaged within four consecutive bytes is rejected.
  lemma BurstRejected(block: Bytes, damaged: Bytes, before: Bytes, d: Bytes, d': Bytes, after: Bytes)
    requires |block| == |damaged| >= HEADER && Parse(block).Some?
    requires |d| == |d'| <= 4 && d != d'
    requires damaged[..HEADER] == block[..HEADER]
    requires var len := Number(block[8..10]);
             && block[HEADER..HEADER + len] == before + d + after
             && damaged[HEADER..HEADER + len] == before + d' + after
    ensures Parse(damaged).None?
  {
    assert damaged[8..10] == damaged[..HEADER][8..10] && block[8..10] == block[..HEADER][8..10];
    assert damaged[10..14] == damaged[..HEADER][10..14] && block[10..14] == block[..HEADER][10..14];
    Burst32(before, d, d', after);
  }

  // ---------------------------------------------------------------- the two slots

  // What the two blocks parse to.
  datatype View = View(a: Option<Slot>, b: Option<Slot>) {
    // The slot conf_load_internal settles on: the larger sequence number, the first on a tie.
    function Newest(): Option<Slot> {
      if a.None? then b
      else if b.None? then a
      else if b.value.seqno > a.value.seqno then b else a
    }

    function Text(): Option<Bytes> {
      if Newest().None? then None else Some(Newest().value.text)
    }

    // Sequence number and slot of the next save (lines 317-325 and 335).
    function NextSeq(): nat {
      if Newest().None? then 1 else (Newest().value.seqno + 1) % SEQ_LIMIT
    }

    function Target(): nat {
      if Newest().Some? && Newest().value.seqno % 2 == 0 then 1 else 0
    }

    function Put(i: nat, x: Option<Slot>): View {
      if i == 0 then this.(a := x) else this.(b := x)
    }

    function At(i: nat): Option<Slot> { if i == 0 then a else b }

    // Sequence number 1 lives in slot 0, and any later number in the slot of its parity.
    ghost predicate Parity() {
      && (a.Some? ==> 1 <= a.value.seqno < SEQ_LIMIT && (a.value.seqno == 1 || a.value.seqno % 2 == 0))
      && (b.Some? ==> 1 < b.value.seqno < SEQ_LIMIT && b.value.seqno % 2 == 1)
    }

    // The newest sequence number can still be counted up.
    ghost predicate CanCount() {
      Newest().Some? ==> Newest().value.seqno < SEQ_LIMIT - 1
    }

    ghost predicate First() { Newest().Some? && Newest().value.seqno == 1 }
  }

  // The newest slot has the larger number, and is slot 0 on a tie.
  lemma NewestIs(v: View)
    ensures v.Newest() in {v.a, v.b} && (v.Newest().None? <==> v.a.None? && v.b.None?)
    ensures v.a.Some? ==> v.Newest().Some? && v.Newest().value.seqno >= v.a.value.seqno
    ensures v.b.Some? ==> v.Newest().Some? && v.Newest().value.seqno >= v.b.value.seqno
    ensures v.a.Some? && v.b.Some? && v.a.value.seqno == v.b.value.seqno ==> v.Newest() == v.a
  {
  }

  // What a block that was to become `image` may parse to afterwards.  After a
  // reported success it holds the image or does not parse; a failure or a power
  // loss may also leave it as it was.
  ghost predicate Outcome(ok: bool, left: Option<Slot>, before: Option<Slot>, image: Option<Slot>) {
    left == image || left.None? || (!ok && left == before)
  }

  ghost predicate SaveOutcome(v: View, text: Bytes, ok: bool, left: Option<Slot>) {
    Outcome(ok, left, v.At(v.Target()), Some(Slot(v.NextSeq(), text)))
  }

  // Whether velaops_conf_save returns 0.
  predicate SaveSucceeds(text: Bytes, ok: bool, left: Option<Slot>) {
    ok && left.Some? && left.value.text == text
  }

  lemma SaveKeepsParity(v: View, text: Bytes, ok: bool, left: Option<Slot>)
    requires v.Parity() && v.CanCount() && SaveOutcome(v, text, ok, left)
    ensures var v' := v.Put(v.Target(), left);
            v'.Parity() && (v'.Newest().Some? ==> v'.Newest().value.seqno <= v.NextSeq())
  {
  }

  lemma ClearKeepsParity(v: View, oka: bool, a: Option<Slot>, okb: bool, b: Option<Slot>)
    requires v.Parity() && Outcome(oka, a, v.a, None) && Outcome(okb, b, v.b, None)
    ensures View(a, b).Parity()
    ensures View(a, b).Newest().Some? ==> v.Newest().Some? && View(a, b).Newest().value.seqno <= v.Newest().value.seqno
    ensures oka && okb ==> View(a, b).Text().None?
  {
  }

  // After a clear the load may find an older text again.
  ghost predicate FindsOlder(v: View, w: View) { w.Newest().Some? && w.Newest() != v.Newest() }

  // It does exactly when there were two slots, the newer one is gone and the older one
  // was left.  The clear then tells of an error, or was cut short between the blocks;
  // with slot 0 erased and slot 1 untouched it is the text of slot 1.
  lemma ClearFindsOlder(v: View, oka: bool, a: Option<Slot>, okb: bool, b: Option<Slot>)
    requires v.Parity() && Outcome(oka, a, v.a, None) && Outcome(okb, b, v.b, None)
    ensures FindsOlder(v, View(a, b)) <==>
              v.a.Some? && v.b.Some? && if v.Newest() == v.a then a.None? && b.Some? else a.Some? && b.None?
    ensures FindsOlder(v, View(a, b)) ==>
              && View(a, b).Text() == Some(if v.Newest() == v.a then v.b.value.text else v.a.value.text)
              && !(oka && okb)
              && View(a, b).Newest().value.seqno < v.Newest().value.seqno
    ensures FindsOlder(v, View(None, v.b)) <==> v.a.Some? && v.b.Some? && v.a.value.seqno > v.b.value.seqno
  {
  }

  // A save that returns 0 is what the next load finds, as long as the sequence number
  // can be counted up ...
  lemma SaveIsLoaded(v: View, text: Bytes, ok: bool, left: Option<Slot>)
    requires v.Parity() && v.CanCount() && SaveOutcome(v, text, ok, left) && SaveSucceeds(text, ok, left)
    ensures v.Put(v.Target(), left).Text() == Some(text)
  {
  }

  // ... and otherwise the save reports success while the load still returns the old text.
  lemma WrapHidesSave(v: View, text: Bytes, ok: bool, left: Option<Slot>)
    requires v.Parity() && !v.CanCount() && SaveOutcome(v, text, ok, left) && SaveSucceeds(text, ok, left)
    ensures v.Put(v.Target(), left).Text() == v.Text()
  {
  }

  // However a save of a text it accepts ends, the load finds the old or the new text.
  ghost predicate SafeToSave(v: View) {
    forall text, ok, left :: Storable(text) && SaveOutcome(v, text, ok, left) ==>
      var after := v.Put(v.Target(), left).Text(); after == v.Text() || after == Some(text)
  }

  // That holds exactly when the newest slot does not carry sequence number 1: the
  // second save of a fresh store goes over the first.
  lemma SafeIffNotFirst(v: View)
    requires v.Parity() && v.CanCount()
    ensures SafeToSave(v) <==> !v.First()
  {
    if v.First() {
      assert Storable([0x61]) && SaveOutcome(v, [0x61], false, None);
    }
  }

  // ---------------------------------------------------------------- runs

  // A save or a clear, each ending as the flash or the power supply decides.  A clear
  // cut short leaves the second block as it was.
  datatype Op =
    | Save(text: Bytes, ok: bool, left: Option<Slot>)
    | Clear(oka: bool, a: Option<Slot>, okb: bool, b: Option<Slot>)

  ghost predicate Enabled(v: View, op: Op) {
    match op
    case Save(text, ok, left) => SaveOutcome(v, text, ok, left)
    case Clear(oka, a, okb, b) => Outcome(oka, a, v.a, None) && Outcome(okb, b, v.b, None)
  }

  function After(v: View, op: Op): View {
    match op
    case Save(_, _, left) => v.Put(v.Target(), left)
    case Clear(_, a, _, b) => View(a, b)
  }

  ghost predicate Reaches(v: View, ops: seq<Op>, v': View)
    decreases |ops|
  {
    if ops == [] then v' == v else Enabled(v, ops[0]) && Reaches(After(v, ops[0]), ops[1..], v')
  }

  lemma {:induction false} RunKeepsParity(v: View, ops: seq<Op>, v': View, used: nat)
    requires v.Parity() && Reaches(v, ops, v') && used + |ops| < SEQ_LIMIT - 1
    requires v.Newest().Some? ==> v.Newest().value.seqno <= used
    ensures v'.Parity() && (v'.Newest().Some? ==> v'.Newest().value.seqno <= used + |ops|)
    decreases |ops|
  {
    if ops != [] {
      match ops[0]
      case Save(text, ok, left) =>
        SaveKeepsParity(v, text, ok, left);
        RunKeepsParity(After(v, ops[0]), ops[1..], v', used + 1);
      case Clear(oka, a, okb, b) =>
        ClearKeepsParity(v, oka, a, okb, b);
        RunKeepsParity(After(v, ops[0]), ops[1..], v', used);
    }
  }

  // On a store that was blank fewer than 2^32 - 1 operations ago, whatever happened
  // since, a save is safe unless it is the one over the first.
  lemma BlankRuns(ops: seq<Op>, v': View)
    requires Reaches(View(None, None), ops, v') && |ops| < SEQ_LIMIT - 1
    ensures v'.Parity() && v'.CanCount() && (SafeToSave(v') <==> !v'.First())
  {
    RunKeepsParity(View(None, None), ops, v', 0);
    SafeIffNotFirst(v');
  }

  // ---------------------------------------------------------------- the store

  // How conf_block_write ended and what the block holds afterwards.
  datatype Write = Write(ok: bool, left: Bytes)

  ghost predicate Possible(w: Write, before: Bytes, image: Bytes) {
    && |w.left| == |image| >= HEADER
    && (w.left == image || Parse(w.left).None? || (!w.ok && w.left == before))
  }

  // What a save's block write can end in, in terms of what the block parses to.
  lemma PossibleOutcome(w: Write, before: Bytes, seqno: nat, text: Bytes)
    requires seqno < SEQ_LIMIT && Storable(text) && |before| >= HEADER + MAX_PAYLOAD
    requires Possible(w, before, Image(seqno, text, |before|))
    ensures Outcome(w.ok, Parse(w.left), Parse(before), Some(Slot(seqno, text)))
  {
    ParseImage(seqno, text, |before|);
  }

  function Erased(size: nat): (block: Bytes)
    requires size >= HEADER
    ensures |block| == size && Parse(block).None? && forall k :: 0 <= k < size ==> block[k] == 0xff
  {
    var block := seq(size, _ => 0xff);
    assert block[..4][0] != MAGIC[0];
    block
  }
}
