// The two checksums: conf_crc32 over flash payloads (velaops_conf.c:52-76) and the
// tunnel CRC-16, written once in C and once in Python.
//
// Both are folds of a bit step that is a bijection on the state.  What follows from
// that alone is proved for any such step; only the facts about one step look at bits.

module Crc {

  type Bytes = seq<bv8>

  // ---------------------------------------------------------------- folds

  function Iterate<S>(f: S -> S, x: S, n: nat): S
    decreases n
  {
    if n == 0 then x else Iterate(f, f(x), n - 1)
  }

  function Fold<S>(step: (S, bv8) -> S, s: S, data: Bytes): S
    decreases |data|
  {
    if data == [] then s else Fold(step, step(s, data[0]), data[1..])
  }

  ghost predicate StepInjective<S(!new)>(step: (S, bv8) -> S) {
    forall x, y, b {:trigger step(x, b), step(y, b)} :: step(x, b) == step(y, b) ==> x == y
  }

  lemma {:induction false} IterateAdd<S>(f: S -> S, x: S, m: nat, n: nat)
    ensures Iterate(f, x, m + n) == Iterate(f, Iterate(f, x, m), n)
    decreases m
  {
    if m > 0 { IterateAdd(f, f(x), m - 1, n); }
  }

  lemma Eight<S>(f: S -> S, x: S)
    ensures Iterate(f, x, 8) == f(f(f(f(f(f(f(f(x))))))))
  {
    var x3 := f(f(f(x)));
    assert Iterate(f, x, 8) == Iterate(f, f(x), 7) == Iterate(f, f(f(x)), 6) == Iterate(f, x3, 5);
    var x6 := f(f(f(x3)));
    assert Iterate(f, x3, 5) == Iterate(f, f(x3), 4) == Iterate(f, f(f(x3)), 3) == Iterate(f, x6, 2);
    assert Iterate(f, x6, 2) == Iterate(f, f(x6), 1) == Iterate(f, f(f(x6)), 0);
  }

  lemma {:induction false} FoldAppend<S>(step: (S, bv8) -> S, s: S, a: Bytes, b: Bytes)
    ensures Fold(step, s, a + b) == Fold(step, Fold(step, s, a), b)
    decreases |a|
  {
    if a == [] {
      assert a + b == b;
    } else {
      assert (a + b)[1..] == a[1..] + b;
      FoldAppend(step, step(s, a[0]), a[1..], b);
    }
  }

  lemma {:induction false} FoldInjective<S(!new)>(step: (S, bv8) -> S, x: S, y: S, data: Bytes)
    requires StepInjective(step) && Fold(step, x, data) == Fold(step, y, data)
    ensures x == y
    decreases |data|
  {
    if data != [] {
      var b := data[0];
      FoldInjective(step, step(x, b), step(y, b), data[1..]);
    }
  }

  // If two windows of bytes lead apart from every state, the whole messages do too.
  lemma WindowShows<S(!new)>(step: (S, bv8) -> S, s: S, before: Bytes, d: Bytes, d': Bytes, after: Bytes)
    requires StepInjective(step)
    requires Fold(step, Fold(step, s, before), d) != Fold(step, Fold(step, s, before), d')
    ensures Fold(step, s, before + d + after) != Fold(step, s, before + d' + after)
  {
    FoldAppend(step, s, before + d, after);
    FoldAppend(step, s, before + d', after);
    FoldAppend(step, s, before, d);
    FoldAppend(step, s, before, d');
    if Fold(step, s, before + d + after) == Fold(step, s, before + d' + after) {
      FoldInjective(step, Fold(step, s, before + d), Fold(step, s, before + d'), after);
    }
  }

  // ---------------------------------------------------------------- shift registers

  // Markers that say at which terms a law is used.
  ghost predicate At<S>(x: S, y: S) { true }
  ghost predicate At3<S>(x: S, y: S, z: S) { true }
  ghost predicate AtByte(b: bv8) { true }
  ghost predicate AtBytes<S>(a: bv8, x: S, b: bv8, y: S) { true }

  // What the window theorem needs to know of a register: `bit` is one step, `up` a
  // shift away from the end that `bit` consumes, `up8` eight of them, `top` tells that the last bit is
  // zero, `embed` puts a byte at the consuming end.
  datatype Register<!S(!new)> = Register(
    bit: S -> S, xor: (S, S) -> S, up: S -> S, up8: S -> S, top: S -> bool, embed: bv8 -> S, width: nat)
  {
    // The last n bits are zero.
    predicate Clear(y: S, n: nat)
      decreases n
    {
      n == 0 || (top(y) && Clear(up(y), n - 1))
    }

    function Step(s: S, b: bv8): S { Iterate(bit, xor(s, embed(b)), 8) }

    function Join(b: bv8, w: S): S { xor(embed(b), up8(w)) }

    // A few bytes as they lie in the register, first byte at the consuming end.
    function Word(d: Bytes): S
      requires d != []
      decreases |d|
    {
      if |d| == 1 then embed(d[0]) else Join(d[0], Word(d[1..]))
    }

    ghost predicate BitInjective() {
      forall x, y {:trigger At(x, y)} :: bit(x) == bit(y) ==> x == y
    }

    ghost predicate BitCarries() {
      forall x, y {:trigger At(x, y)} :: top(y) ==> bit(xor(x, up(y))) == xor(bit(x), y)
    }

    ghost predicate UpIsLinear() {
      forall x, y {:trigger At(x, y)} :: up(xor(x, y)) == xor(up(x), up(y)) && (top(x) && top(y) ==> top(xor(x, y)))
    }

    ghost predicate XorIsGroup() {
      forall x, y, z {:trigger At3(x, y, z)} ::
        && xor(xor(x, y), z) == xor(x, xor(y, z))
        && (xor(z, x) == xor(z, y) || xor(x, z) == xor(y, z) ==> x == y)
    }

    ghost predicate EmbedsBytes() {
      && width >= 8
      && (forall b {:trigger AtByte(b)} :: Clear(embed(b), width - 8))
      && (forall x {:trigger up8(x)} :: up8(x) == Iterate(up, x, 8))
    }

    ghost predicate EmbedInjective() {
      forall a, b {:trigger AtByte(a), AtByte(b)} :: embed(a) == embed(b) ==> a == b
    }

    ghost predicate JoinInjective() {
      forall a, b, x: S, y: S {:trigger AtBytes(a, x, b, y)} ::
        TopEight(x) && TopEight(y) && xor(embed(a), up8(x)) == xor(embed(b), up8(y)) ==> a == b && x == y
    }

    ghost predicate Lawful() {
      && BitInjective() && BitCarries() && UpIsLinear()
      && XorIsGroup() && EmbedsBytes() && EmbedInjective() && JoinInjective()
    }

    lemma {:induction false} BitsInjective(x: S, y: S, n: nat)
      requires Lawful() && Iterate(bit, x, n) == Iterate(bit, y, n)
      ensures x == y
      decreases n
    {
      if n > 0 {
        BitsInjective(bit(x), bit(y), n - 1);
        assert At(x, y);
      }
    }

    lemma {:induction false} ClearLess(y: S, m: nat, n: nat)
      requires m <= n && Clear(y, n)
      ensures Clear(y, m)
      decreases n
    {
      if m > 0 { ClearLess(up(y), m - 1, n - 1); }
    }

    lemma {:induction false} ClearUp(y: S, k: nat, n: nat)
      requires Clear(y, n + k)
      ensures Clear(Iterate(up, y, k), n)
      decreases k
    {
      if k > 0 { ClearUp(up(y), k - 1, n); }
    }

    lemma {:induction false} ClearSplit(y: S, m: nat, n: nat)
      ensures Clear(y, m + n) <==> Clear(y, m) && Clear(Iterate(up, y, m), n)
      decreases m
    {
      if m > 0 { ClearSplit(up(y), m - 1, n); }
    }

    // Clear(y, 8), written out.
    predicate TopEight(y: S) {
      && top(y) && top(up(y)) && top(up(up(y))) && top(up(up(up(y))))
      && top(up(up(up(up(y))))) && top(up(up(up(up(up(y))))))
      && top(up(up(up(up(up(up(y))))))) && top(up(up(up(up(up(up(up(y))))))))
    }

    lemma ClearEight(y: S)
      ensures Clear(y, 8) <==> TopEight(y)
    {
      var y2 := up(up(y));
      var y4 := up(up(y2));
      var y6 := up(up(y4));
      assert Clear(y, 8) <==> top(y) && top(up(y)) && Clear(y2, 6);
      assert Clear(y2, 6) <==> top(y2) && top(up(y2)) && Clear(y4, 4);
      assert Clear(y4, 4) <==> top(y4) && top(up(y4)) && Clear(y6, 2);
      assert Clear(y6, 2) <==> top(y6) && top(up(y6));
    }

    lemma {:induction false} ClearXor(x: S, y: S, n: nat)
      requires Lawful() && Clear(x, n) && Clear(y, n)
      ensures Clear(xor(x, y), n)
      decreases n
    {
      if n > 0 {
        assert At(x, y);
        ClearXor(up(x), up(y), n - 1);
      }
    }

    // What lies n places away from the consuming end passes through n steps unchanged.
    lemma {:induction false} Carries(x: S, y: S, n: nat)
      requires Lawful() && Clear(y, n)
      ensures Iterate(bit, xor(x, Iterate(up, y, n)), n) == xor(Iterate(bit, x, n), y)
      decreases n
    {
      if n > 0 {
        var z := Iterate(up, y, n - 1);
        IterateAdd(up, y, n - 1, 1);
        assert Iterate(up, y, n) == up(z);
        ClearUp(y, n - 1, 1);
        ClearLess(y, n - 1, n);
        assert At(x, z);
        Carries(bit(x), y, n - 1);
      }
    }

    lemma {:induction false} WordClear(d: Bytes)
      requires Lawful() && d != [] && 8 * |d| <= width
      ensures Clear(Word(d), width - 8 * |d|)
      decreases |d|
    {
      var b := d[0];
      assert AtByte(b);
      if |d| > 1 {
        WordClear(d[1..]);
        ClearUp(Word(d[1..]), 8, width - 8 * |d|);
        ClearLess(embed(b), width - 8 * |d|, width - 8);
        ClearXor(embed(b), up8(Word(d[1..])), width - 8 * |d|);
      }
    }

    // A few bytes act on the register all at once.
    lemma {:induction false} WordActs(s: S, d: Bytes)
      requires Lawful() && d != [] && 8 * |d| <= width
      ensures Fold(Step, s, d) == Iterate(bit, xor(s, Word(d)), 8 * |d|)
      decreases |d|
    {
      if |d| == 1 {
        assert d[1..] == [];
      } else {
        var rest, x := d[1..], xor(s, embed(d[0]));
        WordClear(rest);
        ClearLess(Word(rest), 8, width - 8 * |rest|);
        Carries(x, Word(rest), 8);
        WordActs(Step(s, d[0]), rest);
        IterateAdd(bit, xor(s, Word(d)), 8, 8 * |rest|);
        assert At3(s, embed(d[0]), up8(Word(rest)));
      }
    }

    lemma {:induction false} WordInjective(d: Bytes, d': Bytes)
      requires Lawful() && d != [] && 8 * |d| <= width && |d'| == |d| && Word(d) == Word(d')
      ensures d == d'
      decreases |d|
    {
      if |d| > 1 {
        WordClear(d[1..]);
        WordClear(d'[1..]);
        ClearLess(Word(d[1..]), 8, width - 8 * |d[1..]|);
        ClearLess(Word(d'[1..]), 8, width - 8 * |d[1..]|);
        ClearEight(Word(d[1..]));
        ClearEight(Word(d'[1..]));
        assert AtBytes(d[0], Word(d[1..]), d'[0], Word(d'[1..]));
        WordInjective(d[1..], d'[1..]);
      } else {
        var a, b := d[0], d'[0];
        assert AtByte(a) && AtByte(b);
      }
      assert d == [d[0]] + d[1..] && d' == [d'[0]] + d'[1..];
    }

    lemma StepIsInjective()
      requires Lawful()
      ensures StepInjective(Step)
    {
      forall x, y, b | Step(x, b) == Step(y, b) ensures x == y {
        BitsInjective(xor(x, embed(b)), xor(y, embed(b)), 8);
        assert At3(x, y, embed(b));
      }
    }

    // Messages that differ only inside a window as long as the register end in
    // different states.
    lemma Window(s: S, before: Bytes, d: Bytes, d': Bytes, after: Bytes)
      requires Lawful() && |d| == |d'| && 8 * |d| <= width && d != d'
      ensures Fold(Step, s, before + d + after) != Fold(Step, s, before + d' + after)
    {
      StepIsInjective();
      var m := Fold(Step, s, before);
      WordActs(m, d);
      WordActs(m, d');
      if Fold(Step, m, d) == Fold(Step, m, d') {
        BitsInjective(xor(m, Word(d)), xor(m, Word(d')), 8 * |d|);
        assert At3(Word(d), Word(d'), m);
        WordInjective(d, d');
      }
      WindowShows(Step, s, before, d, d', after);
    }
  }

  // ---------------------------------------------------------------- CRC-32

  function Bit32(x: bv32): bv32 {
    if x & 1 == 1 then (x >> 1) ^ 0xedb8_8320 else x >> 1
  }

  function Xor32(x: bv32, y: bv32): bv32 { x ^ y }
  function Up32(x: bv32): bv32 { x << 1 }
  function Up8Of32(x: bv32): bv32 { x << 8 }
  predicate Top32(x: bv32) { x & 0x8000_0000 == 0 }
  function Embed32(b: bv8): bv32 { b as bv32 }

  const REG32 := Register(Bit32, Xor32, Up32, Up8Of32, Top32, Embed32, 32)

  function Crc32(data: Bytes): bv32 {
    Fold(REG32.Step, 0xffff_ffff, data) ^ 0xffff_ffff
  }

  // conf_crc32
  method ConfCrc32(data: Bytes) returns (r: bv32)
    ensures r == Crc32(data)
  {
    var crc := Absorb32(0xffff_ffff, data);
    r := crc ^ 0xffff_ffff;
  }

  // Its outer loop.
  method Absorb32(start: bv32, data: Bytes) returns (crc: bv32)
    ensures crc == Fold(REG32.Step, start, data)
  {
    crc := start;
    var i := 0;
    while i < |data|
      invariant 0 <= i <= |data|
      invariant Fold(REG32.Step, crc, data[i..]) == Fold(REG32.Step, start, data)
    {
      assert data[i..][1..] == data[i + 1..];
      crc := AbsorbByte32(crc, data[i]);
      i := i + 1;
    }
    assert data[i..] == [];
  }

  // One byte (lines 60-72).
  method AbsorbByte32(start: bv32, b: bv8) returns (crc: bv32)
    ensures crc == REG32.Step(start, b)
  {
    crc := MixByte32(start, b);
    ghost var x := crc;
    var bit := 0;
    while bit < 8
      invariant 0 <= bit <= 8 && Iterate(Bit32, crc, 8 - bit) == Iterate(Bit32, x, 8)
    {
      crc := ShiftBit32(crc);
      bit := bit + 1;
    }
  }

  method MixByte32(crc: bv32, b: bv8) returns (x: bv32)
    ensures x == REG32.xor(crc, REG32.embed(b))
  {
    x := crc ^ (b as bv32);
  }

  method ShiftBit32(x: bv32) returns (y: bv32)
    ensures y == Bit32(x)
  {
    if x & 1 == 1 {
      y := (x >> 1) ^ 0xedb8_8320;
    } else {
      y := x >> 1;
    }
  }

  lemma BitInjective32(x: bv32, y: bv32)
    requires Bit32(x) == Bit32(y)
    ensures x == y
  {
  }

  lemma BitCarriesRaw32(x: bv32, y: bv32)
    requires y & 0x8000_0000 == 0
    ensures Bit32(x ^ (y << 1)) == Bit32(x) ^ y
  {
  }

  lemma BitCarries32(x: bv32, y: bv32)
    requires Top32(y)
    ensures Bit32(Xor32(x, Up32(y))) == Xor32(Bit32(x), y)
  {
    BitCarriesRaw32(x, y);
  }

  lemma UpXor32(x: bv32, y: bv32)
    ensures Up32(Xor32(x, y)) == Xor32(Up32(x), Up32(y))
  {
  }

  lemma TopXor32(x: bv32, y: bv32)
    requires Top32(x) && Top32(y)
    ensures Top32(Xor32(x, y))
  {
  }

  lemma XorAssociative32(x: bv32, y: bv32, z: bv32)
    ensures Xor32(Xor32(x, y), z) == Xor32(x, Xor32(y, z))
  {
  }

  lemma XorCancels32(x: bv32, y: bv32, z: bv32)
    requires Xor32(z, x) == Xor32(z, y) || Xor32(x, z) == Xor32(y, z)
    ensures x == y
  {
  }

  lemma JoinInjective32(a: bv8, x: bv32, b: bv8, y: bv32)
    requires x & 0xff00_0000 == 0 && y & 0xff00_0000 == 0
    requires Xor32(Embed32(a), Up8Of32(x)) == Xor32(Embed32(b), Up8Of32(y))
    ensures a == b && x == y
  {
  }

  lemma Up8At32(x: bv32)
    ensures Iterate(Up32, x, 8) == Up8Of32(x)
  {
    Eight(Up32, x);
    EightUps32(x);
  }

  lemma EightUps32(x: bv32)
    ensures Up32(Up32(Up32(Up32(Up32(Up32(Up32(Up32(x)))))))) == Up8Of32(x)
  {
  }

  lemma TopEightRaw32(x: bv32)
    ensures x & 0xff00_0000 == 0
       <==> Top32(x) && Top32(Up32(x)) && Top32(Up32(Up32(x))) && Top32(Up32(Up32(Up32(x))))
            && Top32(Up32(Up32(Up32(Up32(x))))) && Top32(Up32(Up32(Up32(Up32(Up32(x))))))
            && Top32(Up32(Up32(Up32(Up32(Up32(Up32(x)))))))
            && Top32(Up32(Up32(Up32(Up32(Up32(Up32(Up32(x))))))))
  {
  }

  lemma TopEight32(x: bv32)
    ensures REG32.TopEight(x) <==> x & 0xff00_0000 == 0
  {
    TopEightRaw32(x);
  }

  lemma ClearEight32(x: bv32)
    ensures REG32.Clear(x, 8) <==> x & 0xff00_0000 == 0
  {
    REG32.ClearEight(x);
    TopEight32(x);
  }

  lemma EmbedClear32(b: bv8)
    ensures REG32.Clear(b as bv32, 24)
  {
    var e := b as bv32;
    REG32.ClearSplit(e, 8, 16);
    REG32.ClearSplit(e << 8, 8, 8);
    Up8At32(e);
    Up8At32(e << 8);
    ClearEight32(e);
    ClearEight32(e << 8);
    ClearEight32((e << 8) << 8);
    EmbedHigh32(b);
  }

  lemma EmbedHigh32(b: bv8)
    ensures (b as bv32) & 0xff00_0000 == 0 && ((b as bv32) << 8) & 0xff00_0000 == 0
    ensures (((b as bv32) << 8) << 8) & 0xff00_0000 == 0
  {
  }

  lemma LawBits32()
    ensures REG32.BitInjective()
  {
    forall x: bv32, y: bv32 | Bit32(x) == Bit32(y) ensures x == y {
      BitInjective32(x, y);
    }
  }

  lemma LawCarries32()
    ensures REG32.BitCarries()
  {
    forall x: bv32, y: bv32 | Top32(y) ensures Bit32(Xor32(x, Up32(y))) == Xor32(Bit32(x), y) {
      BitCarries32(x, y);
    }
  }

  lemma LawUp32()
    ensures REG32.UpIsLinear()
  {
    forall x: bv32, y: bv32 ensures Up32(Xor32(x, y)) == Xor32(Up32(x), Up32(y)) {
      UpXor32(x, y);
    }
    forall x: bv32, y: bv32 | Top32(x) && Top32(y) ensures Top32(Xor32(x, y)) {
      TopXor32(x, y);
    }
  }

  lemma LawXor32()
    ensures REG32.XorIsGroup()
  {
    forall x: bv32, y: bv32, z: bv32 ensures Xor32(Xor32(x, y), z) == Xor32(x, Xor32(y, z)) {
      XorAssociative32(x, y, z);
    }
    forall x: bv32, y: bv32, z: bv32 {:trigger Xor32(z, x), Xor32(z, y)} {:trigger Xor32(x, z), Xor32(y, z)}
      | Xor32(z, x) == Xor32(z, y) || Xor32(x, z) == Xor32(y, z) ensures x == y
    {
      XorCancels32(x, y, z);
    }
  }

  lemma LawEmbed32()
    ensures REG32.EmbedsBytes()
  {
    forall b: bv8 ensures REG32.Clear(Embed32(b), 24) {
      EmbedClear32(b);
    }
    forall x: bv32 ensures Up8Of32(x) == Iterate(Up32, x, 8) {
      Up8At32(x);
    }
  }

  lemma LawEmbedInjective32()
    ensures REG32.EmbedInjective()
  {
    forall a: bv8, b: bv8 | Embed32(a) == Embed32(b) ensures a == b {
      EmbedInjective32(a, b);
    }
  }

  lemma LawJoin32()
    ensures REG32.JoinInjective()
  {
    forall a: bv8, b: bv8, x: bv32, y: bv32
      {:trigger Xor32(Embed32(a), Up8Of32(x)), Xor32(Embed32(b), Up8Of32(y))}
      | REG32.TopEight(x) && REG32.TopEight(y) && Xor32(Embed32(a), Up8Of32(x)) == Xor32(Embed32(b), Up8Of32(y))
      ensures a == b && x == y
    {
      TopEight32(x);
      TopEight32(y);
      JoinInjective32(a, x, b, y);
    }
  }

  lemma EmbedInjective32(a: bv8, b: bv8)
    requires Embed32(a) == Embed32(b)
    ensures a == b
  {
  }

  lemma Laws32()
    ensures REG32.Lawful()
  {
    LawBits32();
    LawCarries32();
    LawUp32();
    LawXor32();
    LawEmbed32();
    LawEmbedInjective32();
    LawJoin32();
  }

  // Payloads that differ only within four consecutive bytes never share a checksum.
  lemma Burst32(before: Bytes, d: Bytes, d': Bytes, after: Bytes)
    requires |d| == |d'| <= 4 && d != d'
    ensures Crc32(before + d + after) != Crc32(before + d' + after)
  {
    Laws32();
    REG32.Window(0xffff_ffff, before, d, d', after);
    Flip32(Fold(REG32.Step, 0xffff_ffff, before + d + after), Fold(REG32.Step, 0xffff_ffff, before + d' + after));
  }

  lemma Flip32(x: bv32, y: bv32)
    requires x != y
    ensures x ^ 0xffff_ffff != y ^ 0xffff_ffff
  {
  }

  // ---------------------------------------------------------------- CRC-16

  function Bit16(x: bv16): bv16 {
    if x & 1 == 1 then (x >> 1) ^ 0x8408 else x >> 1
  }

  function Xor16(x: bv16, y: bv16): bv16 { x ^ y }
  function Up16(x: bv16): bv16 { x << 1 }
  function Up8Of16(x: bv16): bv16 { x << 8 }
  predicate Top16(x: bv16) { x & 0x8000 == 0 }
  function Embed16(b: bv8): bv16 { b as bv16 }

  const REG16 := Register(Bit16, Xor16, Up16, Up8Of16, Top16, Embed16, 16)

  function Crc16(data: Bytes): bv16 {
    Fold(REG16.Step, 0xffff, data)
  }

  // velaops_tunnel_crc16
  method TunnelCrc16(data: Bytes) returns (crc: bv16)
    ensures crc == Crc16(data)
  {
    crc := 0xffff;
    var i := 0;
    while i < |data|
      invariant 0 <= i <= |data|
      invariant Fold(REG16.Step, crc, data[i..]) == Fold(REG16.Step, 0xffff, data)
    {
      assert data[i..][1..] == data[i + 1..];
      crc := AbsorbByte16(crc, data[i]);
      i := i + 1;
    }
    assert data[i..] == [];
  }

  // One byte (lines 54-59).
  method AbsorbByte16(start: bv16, b: bv8) returns (crc: bv16)
    ensures crc == REG16.Step(start, b)
  {
    crc := MixByte16(start, b);
    ghost var x := crc;
    var bit := 0;
    while bit < 8
      invariant 0 <= bit <= 8 && Iterate(Bit16, crc, 8 - bit) == Iterate(Bit16, x, 8)
    {
      crc := ShiftBit16(crc);
      bit := bit + 1;
    }
  }

  method MixByte16(crc: bv16, b: bv8) returns (x: bv16)
    ensures x == REG16.xor(crc, REG16.embed(b))
  {
    x := crc ^ (b as bv16);
  }

  method ShiftBit16(x: bv16) returns (y: bv16)
    ensures y == Bit16(x)
  {
    y := if x & 1 == 1 then (x >> 1) ^ 0x8408 else x >> 1;
  }

  function Widen(x: bv16): bv32 { x as bv32 }

  // crc16 of serial_llm_relay.py computes the same function.  Python integers do not
  // wrap; 32 bits are wider than any value its loop reaches, as the invariants show.
  method RelayCrc16(data: Bytes) returns (r: bv32)
    ensures r == Widen(Crc16(data))
  {
    var crc: bv32 := 0xffff;
    ghost var narrow: bv16 := 0xffff;
    var i := 0;
    while i < |data|
      invariant 0 <= i <= |data| && crc == Widen(narrow)
      invariant Fold(REG16.Step, narrow, data[i..]) == Fold(REG16.Step, 0xffff, data)
    {
      assert data[i..][1..] == data[i + 1..];
      crc := RelayByte16(crc, narrow, data[i]);
      narrow := REG16.Step(narrow, data[i]);
      i := i + 1;
    }
    assert data[i..] == [];
    r := RelayMask16(crc, narrow);
  }

  method RelayByte16(start: bv32, ghost narrow: bv16, b: bv8) returns (crc: bv32)
    requires start == Widen(narrow)
    ensures crc == Widen(REG16.Step(narrow, b))
  {
    ghost var x := Xor16(narrow, Embed16(b));
    ghost var next := x;
    crc := RelayMix16(start, narrow, b);
    var bit := 0;
    while bit < 8
      invariant 0 <= bit <= 8 && crc == Widen(next) && Iterate(Bit16, next, 8 - bit) == Iterate(Bit16, x, 8)
    {
      crc := RelayShift16(crc, next);
      next := Bit16(next);
      bit := bit + 1;
    }
    StepAt16(narrow, b);
  }

  lemma StepAt16(s: bv16, b: bv8)
    ensures REG16.Step(s, b) == Iterate(Bit16, Xor16(s, Embed16(b)), 8)
  {
  }

  method RelayMix16(crc: bv32, ghost narrow: bv16, b: bv8) returns (x: bv32)
    requires crc == Widen(narrow)
    ensures x == Widen(Xor16(narrow, Embed16(b)))
  {
    x := crc ^ (b as bv32);
  }

  method RelayShift16(x: bv32, ghost narrow: bv16) returns (y: bv32)
    requires x == Widen(narrow)
    ensures y == Widen(Bit16(narrow))
  {
    WideBit16(narrow);
    y := BitWide16(x);
  }

  function BitWide16(x: bv32): bv32 {
    if x & 1 == 1 then (x >> 1) ^ 0x8408 else x >> 1
  }

  lemma WideBit16(n: bv16)
    ensures BitWide16(n as bv32) == Bit16(n) as bv32
  {
  }

  method RelayMask16(x: bv32, ghost narrow: bv16) returns (r: bv32)
    requires x == Widen(narrow)
    ensures r == Widen(narrow)
  {
    r := x & 0xffff;
  }

  lemma BitInjective16(x: bv16, y: bv16)
    requires Bit16(x) == Bit16(y)
    ensures x == y
  {
  }

  lemma BitCarriesRaw16(x: bv16, y: bv16)
    requires y & 0x8000 == 0
    ensures Bit16(x ^ (y << 1)) == Bit16(x) ^ y
  {
  }

  lemma BitCarries16(x: bv16, y: bv16)
    requires Top16(y)
    ensures Bit16(Xor16(x, Up16(y))) == Xor16(Bit16(x), y)
  {
    BitCarriesRaw16(x, y);
  }

  lemma UpXor16(x: bv16, y: bv16)
    ensures Up16(Xor16(x, y)) == Xor16(Up16(x), Up16(y))
  {
  }

  lemma TopXor16(x: bv16, y: bv16)
    requires Top16(x) && Top16(y)
    ensures Top16(Xor16(x, y))
  {
  }

  lemma XorAssociative16(x: bv16, y: bv16, z: bv16)
    ensures Xor16(Xor16(x, y), z) == Xor16(x, Xor16(y, z))
  {
  }

  lemma XorCancels16(x: bv16, y: bv16, z: bv16)
    requires Xor16(z, x) == Xor16(z, y) || Xor16(x, z) == Xor16(y, z)
    ensures x == y
  {
  }

  lemma JoinInjective16(a: bv8, x: bv16, b: bv8, y: bv16)
    requires x & 0xff00 == 0 && y & 0xff00 == 0
    requires Xor16(Embed16(a), Up8Of16(x)) == Xor16(Embed16(b), Up8Of16(y))
    ensures a == b && x == y
  {
  }

  lemma Up8At16(x: bv16)
    ensures Iterate(Up16, x, 8) == Up8Of16(x)
  {
    Eight(Up16, x);
    EightUps16(x);
  }

  lemma EightUps16(x: bv16)
    ensures Up16(Up16(Up16(Up16(Up16(Up16(Up16(Up16(x)))))))) == Up8Of16(x)
  {
  }

  lemma TopEightRaw16(x: bv16)
    ensures x & 0xff00 == 0
       <==> Top16(x) && Top16(Up16(x)) && Top16(Up16(Up16(x))) && Top16(Up16(Up16(Up16(x))))
            && Top16(Up16(Up16(Up16(Up16(x))))) && Top16(Up16(Up16(Up16(Up16(Up16(x))))))
            && Top16(Up16(Up16(Up16(Up16(Up16(Up16(x)))))))
            && Top16(Up16(Up16(Up16(Up16(Up16(Up16(Up16(x))))))))
  {
  }

  lemma TopEight16(x: bv16)
    ensures REG16.TopEight(x) <==> x & 0xff00 == 0
  {
    TopEightRaw16(x);
  }

  lemma ClearEight16(x: bv16)
    ensures REG16.Clear(x, 8) <==> x & 0xff00 == 0
  {
    REG16.ClearEight(x);
    TopEight16(x);
  }

  lemma EmbedClear16(b: bv8)
    ensures REG16.Clear(b as bv16, 8)
  {
    ClearEight16(b as bv16);
    EmbedHigh16(b);
  }

  lemma EmbedHigh16(b: bv8)
    ensures (b as bv16) & 0xff00 == 0
  {
  }

  lemma LawBits16()
    ensures REG16.BitInjective()
  {
    forall x: bv16, y: bv16 | Bit16(x) == Bit16(y) ensures x == y {
      BitInjective16(x, y);
    }
  }

  lemma LawCarries16()
    ensures REG16.BitCarries()
  {
    forall x: bv16, y: bv16 | Top16(y) ensures Bit16(Xor16(x, Up16(y))) == Xor16(Bit16(x), y) {
      BitCarries16(x, y);
    }
  }

  lemma LawUp16()
    ensures REG16.UpIsLinear()
  {
    forall x: bv16, y: bv16 ensures Up16(Xor16(x, y)) == Xor16(Up16(x), Up16(y)) {
      UpXor16(x, y);
    }
    forall x: bv16, y: bv16 | Top16(x) && Top16(y) ensures Top16(Xor16(x, y)) {
      TopXor16(x, y);
    }
  }

  lemma LawXor16()
    ensures REG16.XorIsGroup()
  {
    forall x: bv16, y: bv16, z: bv16 ensures Xor16(Xor16(x, y), z) == Xor16(x, Xor16(y, z)) {
      XorAssociative16(x, y, z);
    }
    forall x: bv16, y: bv16, z: bv16 {:trigger Xor16(z, x), Xor16(z, y)} {:trigger Xor16(x, z), Xor16(y, z)}
      | Xor16(z, x) == Xor16(z, y) || Xor16(x, z) == Xor16(y, z) ensures x == y
    {
      XorCancels16(x, y, z);
    }
  }

  lemma LawEmbed16()
    ensures REG16.EmbedsBytes()
  {
    forall b: bv8 ensures REG16.Clear(Embed16(b), 8) {
      EmbedClear16(b);
    }
    forall x: bv16 ensures Up8Of16(x) == Iterate(Up16, x, 8) {
      Up8At16(x);
    }
  }

  lemma LawEmbedInjective16()
    ensures REG16.EmbedInjective()
  {
    forall a: bv8, b: bv8 | Embed16(a) == Embed16(b) ensures a == b {
      EmbedInjective16(a, b);
    }
  }

  lemma LawJoin16()
    ensures REG16.JoinInjective()
  {
    forall a: bv8, b: bv8, x: bv16, y: bv16
      {:trigger Xor16(Embed16(a), Up8Of16(x)), Xor16(Embed16(b), Up8Of16(y))}
      | REG16.TopEight(x) && REG16.TopEight(y) && Xor16(Embed16(a), Up8Of16(x)) == Xor16(Embed16(b), Up8Of16(y))
      ensures a == b && x == y
    {
      TopEight16(x);
      TopEight16(y);
      JoinInjective16(a, x, b, y);
    }
  }

  lemma EmbedInjective16(a: bv8, b: bv8)
    requires Embed16(a) == Embed16(b)
    ensures a == b
  {
  }

  lemma Laws16()
    ensures REG16.Lawful()
  {
    LawBits16();
    LawCarries16();
    LawUp16();
    LawXor16();
    LawEmbed16();
    LawEmbedInjective16();
    LawJoin16();
  }

  // Chunks that differ only within two consecutive bytes never share a checksum.
  lemma Burst16(before: Bytes, d: Bytes, d': Bytes, after: Bytes)
    requires |d| == |d'| <= 2 && d != d'
    ensures Crc16(before + d + after) != Crc16(before + d' + after)
  {
    Laws16();
    REG16.Window(0xffff, before, d, d', after);
  }

  // A byte can leave the register as it found it: after "Jl" a 'q' does.
  lemma FixedState16()
    ensures Crc16([0x4a, 0x6c]) == 0xe2c4 && REG16.Step(0xe2c4, 0x71) == 0xe2c4
  {
    StepBits16(0xffff, 0x4a);
    var s := REG16.Step(0xffff, 0x4a);
    FirstState16();
    StepBits16(s, 0x6c);
    SecondState16();
    StepBits16(0xe2c4, 0x71);
    ThirdState16();
    assert [0x4a, 0x6c][1..] == [0x6c] && [0x6c][1..] == [];
    assert Crc16([0x4a, 0x6c]) == Fold(REG16.Step, s, [0x6c]) == Fold(REG16.Step, REG16.Step(s, 0x6c), []);
  }

  function EightBits16(x: bv16): bv16 {
    Bit16(Bit16(Bit16(Bit16(Bit16(Bit16(Bit16(Bit16(x))))))))
  }

  lemma StepBits16(s: bv16, b: bv8)
    ensures REG16.Step(s, b) == EightBits16(Xor16(s, Embed16(b)))
  {
    StepAt16(s, b);
    Eight(Bit16, Xor16(s, Embed16(b)));
  }

  lemma FirstState16()
    ensures EightBits16(Xor16(0xffff, Embed16(0x4a))) == 0xe2d9
  {
  }

  lemma SecondState16()
    ensures EightBits16(Xor16(0xe2d9, Embed16(0x6c))) == 0xe2c4
  {
  }

  lemma ThirdState16()
    ensures EightBits16(Xor16(0xe2c4, Embed16(0x71))) == 0xe2c4
  {
  }

  // ---------------------------------------------------------------- check values

  function EightBits32(x: bv32): bv32 {
    Bit32(Bit32(Bit32(Bit32(Bit32(Bit32(Bit32(Bit32(x))))))))
  }

  lemma StepAt32(s: bv32, b: bv8)
    ensures REG32.Step(s, b) == Iterate(Bit32, Xor32(s, Embed32(b)), 8)
  {
  }

  lemma StepBits32(s: bv32, b: bv8)
    ensures REG32.Step(s, b) == EightBits32(Xor32(s, Embed32(b)))
  {
    StepAt32(s, b);
    Eight(Bit32, Xor32(s, Embed32(b)));
  }

  lemma FirstStates32()
    ensures EightBits32(Xor32(0xffff_ffff, Embed32(0x31))) == 0x7c23_1048
    ensures EightBits32(Xor32(0x7c23_1048, Embed32(0x32))) == 0xb0ac_bb32
    ensures EightBits32(Xor32(0xb0ac_bb32, Embed32(0x33))) == 0x77b7_9c2d
  {
  }

  lemma MiddleStates32()
    ensures EightBits32(Xor32(0x77b7_9c2d, Embed32(0x34))) == 0x641c_1f5c
    ensures EightBits32(Xor32(0x641c_1f5c, Embed32(0x35))) == 0x340a_c5e3
    ensures EightBits32(Xor32(0x340a_c5e3, Embed32(0x36))) == 0xf68d_2c9e
  {
  }

  lemma LastStates32()
    ensures EightBits32(Xor32(0xf68d_2c9e, Embed32(0x37))) == 0xaffc_9660
    ensures EightBits32(Xor32(0xaffc_9660, Embed32(0x38))) == 0x651f_2550
    ensures EightBits32(Xor32(0x651f_2550, Embed32(0x39))) == 0x340b_c6d9
  {
  }

  lemma FoldFirst<S>(step: (S, bv8) -> S, s: S, b: bv8, rest: Bytes)
    ensures Fold(step, s, [b] + rest) == Fold(step, step(s, b), rest)
  {
    assert ([b] + rest)[1..] == rest;
  }

  lemma ThreeSteps32(s: bv32, a: bv8, b: bv8, c: bv8, s1: bv32, s2: bv32, s3: bv32, rest: Bytes)
    requires EightBits32(Xor32(s, Embed32(a))) == s1 && EightBits32(Xor32(s1, Embed32(b))) == s2
    requires EightBits32(Xor32(s2, Embed32(c))) == s3
    ensures Fold(REG32.Step, s, [a] + ([b] + ([c] + rest))) == Fold(REG32.Step, s3, rest)
  {
    FoldFirst(REG32.Step, s, a, [b] + ([c] + rest));
    FoldFirst(REG32.Step, s1, b, [c] + rest);
    FoldFirst(REG32.Step, s2, c, rest);
    StepBits32(s, a);
    StepBits32(s1, b);
    StepBits32(s2, c);
  }

  const ONE_TO_NINE: Bytes := [0x31, 0x32, 0x33, 0x34, 0x35, 0x36, 0x37, 0x38, 0x39]

  // The check value by which CRC-32 is known: of the digits 1 to 9.
  lemma CheckValue32()
    ensures Crc32(ONE_TO_NINE) == 0xcbf4_3926
  {
    var last: Bytes := [0x37] + ([0x38] + ([0x39] + []));
    var middle: Bytes := [0x34] + ([0x35] + ([0x36] + last));
    assert ONE_TO_NINE == [0x31] + ([0x32] + ([0x33] + middle));
    FirstStates32();
    MiddleStates32();
    LastStates32();
    ThreeSteps32(0xffff_ffff, 0x31, 0x32, 0x33, 0x7c23_1048, 0xb0ac_bb32, 0x77b7_9c2d, middle);
    ThreeSteps32(0x77b7_9c2d, 0x34, 0x35, 0x36, 0x641c_1f5c, 0x340a_c5e3, 0xf68d_2c9e, last);
    ThreeSteps32(0xf68d_2c9e, 0x37, 0x38, 0x39, 0xaffc_9660, 0x651f_2550, 0x340b_c6d9, []);
    FinalMask32();
  }

  lemma FinalMask32()
    ensures 0x340b_c6d9 ^ 0xffff_ffff == 0xcbf4_3926 as bv32
  {
  }
}
