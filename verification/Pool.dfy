// The first-fit arena of velaops_pool.c over one byte array.  Headers are stored
// in the same bytes as the payloads; `blocks` is the ghost chain they describe.

module Pool {
  import opened Common
  import opened PoolBlocks
  import opened PoolRuns

  const MAGIC_FREE: nat := 0xa5a5_f00d
  const MAGIC_USED: nat := 0x5a5a_0ff0

  type Image = seq<Byte>    // the bytes of the arena at one moment

  // ---------------------------------------------------------------- header words

  // A uint32_t field as it lies in memory.
  function Bytes32(w: nat): (d: Image)
    requires w < WORD
    ensures |d| == 4 && LittleEndian(d) == w
  {
    assert Pow256(4) == WORD by { assert Pow256(2) == 0x1_0000; }
    DigitsRead(w, 4);
    Digits(w, 4)
  }

  function Word32(m: Image, p: nat): nat
    requires p + 4 <= |m|
  {
    LittleEndian(m[p..p + 4])
  }

  function Put32(m: Image, p: nat, w: nat): (m': Image)
    requires p + 4 <= |m| && w < WORD
    ensures |m'| == |m|
  {
    m[..p] + Bytes32(w) + m[p + 4..]
  }

  function Magic(b: Block): nat {
    if b.used then MAGIC_USED else MAGIC_FREE
  }

  ghost predicate HeaderOk(m: Image, b: Block) {
    && b.End() <= |m| && b.Size() < WORD
    && m[b.at..b.at + 4] == Bytes32(b.Size())
    && m[b.at + 4..b.at + 8] == Bytes32(Magic(b))
  }

  // m' is m after b's header has been stored.
  ghost predicate Stored(m: Image, m': Image, b: Block) {
    && |m'| == |m| && HeaderOk(m', b)
    && m'[..b.at] == m[..b.at]
    && m'[b.at + 8..] == m[b.at + 8..]
  }

  // Storing both words, or one word when the other is already there.
  lemma PutBoth(m: Image, b: Block)
    requires b.End() <= |m| && b.Size() < WORD
    ensures Stored(m, Put32(Put32(m, b.at, b.Size()), b.at + 4, Magic(b)), b)
  {
  }

  lemma PutSize(m: Image, b: Block)
    requires b.End() <= |m| && b.Size() < WORD && m[b.at + 4..b.at + 8] == Bytes32(Magic(b))
    ensures Stored(m, Put32(m, b.at, b.Size()), b)
  {
    assert m[b.at + 8..] == m[b.at + 4..][4..];
    assert m[b.at + 4..b.at + 8] == m[b.at + 4..][..4];
  }

  lemma PutMagic(m: Image, b: Block)
    requires b.End() <= |m| && b.Size() < WORD && m[b.at..b.at + 4] == Bytes32(b.Size())
    ensures Stored(m, Put32(m, b.at + 4, Magic(b)), b)
  {
    assert m[..b.at] == m[..b.at + 4][..b.at];
    assert m[b.at..b.at + 4] == m[..b.at + 4][b.at..];
  }

  // ---------------------------------------------------------------- chains in memory

  // The bytes spell out this chain.
  ghost predicate Spells(m: Image, bs: Chain) {
    forall b :: b in bs ==> HeaderOk(m, b)
  }

  // What a client sees behind a live pointer.
  ghost function Data(m: Image, b: Block): seq<Byte>
    requires b.End() <= |m|
  {
    m[b.Payload()..b.End()]
  }

  // Block b, header and payload, is the same in both images.
  ghost predicate Same(m: Image, m': Image, b: Block) {
    && b.End() <= |m| && |m| == |m'|
    && (HeaderOk(m, b) ==> HeaderOk(m', b))
    && Data(m', b) == Data(m, b)
  }

  ghost predicate AllSame(m: Image, m': Image, bs: set<Block>) {
    forall b :: b in bs ==> Same(m, m', b)
  }

  lemma AllSameTransitive(m: Image, m1: Image, m': Image, bs: set<Block>)
    requires AllSame(m, m1, bs) && AllSame(m1, m', bs)
    ensures AllSame(m, m', bs)
  {
    forall b | b in bs ensures Same(m, m', b) {
      assert Same(m, m1, b) && Same(m1, m', b);
    }
  }

  lemma BeforeSame(m: Image, m': Image, cut: nat, x: Block)
    requires |m'| == |m| && x.End() <= cut <= |m| && m'[..cut] == m[..cut]
    ensures Same(m, m', x)
  {
    assert forall lo, hi :: 0 <= lo <= hi <= cut ==> m[lo..hi] == m[..cut][lo..hi] && m'[lo..hi] == m'[..cut][lo..hi];
  }

  lemma AfterSame(m: Image, m': Image, cut: nat, x: Block)
    requires |m'| == |m| && cut <= x.at && x.End() <= |m| && m'[cut..] == m[cut..]
    ensures Same(m, m', x)
  {
    Shift(m, cut, x);
    Shift(m', cut, x);
  }

  lemma Shift(m: Image, cut: nat, x: Block)
    requires cut <= x.at && x.End() <= |m|
    ensures m[x.at..x.at + 4] == m[cut..][x.at - cut..x.at + 4 - cut]
    ensures m[x.at + 4..x.at + 8] == m[cut..][x.at + 4 - cut..x.at + 8 - cut]
    ensures Data(m, x) == m[cut..][x.Payload() - cut..x.End() - cut]
  {
  }

  // Storing a header inside block `hole` leaves the other blocks the same.
  lemma OthersSame(m: Image, m': Image, bs: Chain, hole: Block, b: Block)
    requires Tiles(bs, 0, |m|) && hole in bs
    requires hole.at <= b.at && b.End() <= hole.End() && Stored(m, m', b)
    ensures forall x :: x in bs && x != hole ==> Same(m, m', x)
  {
    Bounds(bs, 0, |m|);
    Disjoint(bs, 0, |m|);
    forall x | x in bs && x != hole ensures Same(m, m', x) {
      if x.End() <= b.at {
        BeforeSame(m, m', b.at, x);
      } else {
        AfterSame(m, m', b.at + 8, x);
      }
    }
  }

  lemma Others(bs: Chain, i: nat, len: nat)
    requires i < |bs| && Tiles(bs, 0, len)
    ensures forall x :: x in bs[..i] || x in bs[i + 1..] ==> x in bs && x != bs[i]
  {
    Around(bs, i, 0, len);
    Bounds(bs[..i], 0, bs[i].at);
    Bounds(bs[i + 1..], bs[i].End(), len);
  }

  // ---------------------------------------------------------------- the three rewrites

  // Block i replaced by blocks whose headers are in place.
  lemma Replaced(m: Image, m': Image, bs: Chain, i: nat, mid: Chain)
    requires i < |bs| && Tiles(bs, 0, |m|) && Spells(m, bs) && Spells(m', mid)
    requires forall x :: x in bs && x != bs[i] ==> Same(m, m', x)
    ensures Spells(m', bs[..i] + mid + bs[i + 1..])
  {
    Others(bs, i, |m|);
    SameSpells(m, m', bs, bs[..i]);
    SameSpells(m, m', bs, bs[i + 1..]);
    SpellsJoined(m', bs[..i], mid);
    SpellsJoined(m', bs[..i] + mid, bs[i + 1..]);
  }

  lemma SameSpells(m: Image, m': Image, bs: Chain, part: Chain)
    requires Spells(m, bs) && forall x :: x in part ==> x in bs && Same(m, m', x)
    ensures Spells(m', part)
  {
    forall x | x in part ensures HeaderOk(m', x) {
      assert x in bs && Same(m, m', x) && HeaderOk(m, x);
    }
  }

  lemma SpellsJoined(m: Image, a: Chain, b: Chain)
    requires Spells(m, a) && Spells(m, b)
    ensures Spells(m, a + b)
  {
    forall x | x in a + b ensures HeaderOk(m, x) {
      assert x in a || x in b;
    }
  }

  // The header stores that hand out block b: two headers for a split, else one.
  ghost predicate PiecesWritten(m: Image, m1: Image, m': Image, b: Block, n: nat)
    requires Fits(b, n)
  {
    var mid := Pieces(b, n);
    if |mid| == 2 then Stored(m, m1, mid[1]) && Stored(m1, m', mid[0])
    else m1 == m && Stored(m, m', mid[0])
  }

  lemma PiecesStored(m: Image, m1: Image, m': Image, bs: Chain, i: nat, n: nat)
    requires i < |bs| && Tiles(bs, 0, |m|) && Spells(m, bs) && Fits(bs[i], n)
    requires PiecesWritten(m, m1, m', bs[i], n)
    ensures Spells(m', Take(bs, i, n))
    ensures AllSame(m, m', Used(bs))
  {
    var b, mid := bs[i], Pieces(bs[i], n);
    if |mid| == 2 {
      OthersSame(m, m1, bs, b, mid[1]);
      AfterSame(m1, m', mid[0].at + 8, mid[1]);
    }
    OthersSame(m1, m', bs, b, mid[0]);
    Replaced(m, m', bs, i, mid);
  }

  // Marking block i free (pool_free, line 111).
  lemma MarkStored(m: Image, m': Image, bs: Chain, i: nat)
    requires Tiles(bs, 0, |m|) && Spells(m, bs) && i < |bs| && bs[i].used
    requires Stored(m, m', bs[i].(used := false))
    ensures var marked := bs[i := bs[i].(used := false)];
            Tiles(marked, 0, |m|) && Spells(m', marked) && Used(marked) == Used(bs) - {bs[i]}
    ensures AllSame(m, m', Used(bs) - {bs[i]})
  {
    var b := bs[i];
    MarkKeeps(bs, |m|, i);
    OthersSame(m, m', bs, b, b.(used := false));
    Replaced(m, m', bs, i, [b.(used := false)]);
  }

  // Joining the free block at p with the free block behind it (pool_free, lines 146-148).
  lemma JoinSame(m: Image, m': Image, before: Chain, rest: Chain, p: nat, x: Block)
    requires Tiles(before, 0, p) && Tiles(rest, p, |m|) && rest != []
    requires |m'| == |m| && p + 8 <= |m| && m'[..p] == m[..p] && m'[p + 8..] == m[p + 8..]
    requires x in before || x in rest[1..]
    ensures Same(m, m', x) && x in before + rest
  {
    if x in before {
      Bounds(before, 0, p);
      BeforeSame(m, m', p, x);
    } else {
      Bounds(rest[1..], rest[0].End(), |m|);
      AfterSame(m, m', p + 8, x);
    }
  }

  lemma JoinStored(m: Image, m': Image, before: Chain, rest: Chain, p: nat)
    requires Tiles(before, 0, p) && Tiles(rest, p, |m|) && Spells(m, before + rest)
    requires |rest| >= 2 && !rest[0].used && !rest[1].used
    requires Stored(m, m', Merge(rest[0], rest[1]))
    ensures Spells(m', before + ([Merge(rest[0], rest[1])] + rest[2..]))
    ensures AllSame(m, m', Used(before + rest))
  {
    var b := Merge(rest[0], rest[1]);
    forall x | x in before || x in rest[1..] ensures Same(m, m', x) && x in before + rest {
      JoinSame(m, m', before, rest, p, x);
    }
    assert forall x :: x in rest[2..] ==> x in rest[1..];
    SameSpells(m, m', before + rest, before);
    SameSpells(m, m', before + rest, rest[2..]);
    SpellsJoined(m', [b], rest[2..]);
    SpellsJoined(m', before, [b] + rest[2..]);
    forall x | x in Used(before + rest) ensures Same(m, m', x) {
      assert x in before || x == rest[0] || x in rest[1..];
    }
  }

  lemma NoWrap(x: nat)
    requires x < WORD
    ensures x % WORD == x
  {
  }

  method Store32(mem: array<Byte>, p: nat, w: nat)
    requires p + 4 <= mem.Length && w < WORD
    modifies mem
    ensures mem[..] == Put32(old(mem[..]), p, w)
  {
    var d := Bytes32(w);
    mem[p], mem[p + 1], mem[p + 2], mem[p + 3] := d[0], d[1], d[2], d[3];
  }

  // Bytes changed only inside the payload of `hole`.
  lemma PayloadWritten(m: Image, m': Image, bs: Chain, hole: Block)
    requires Tiles(bs, 0, |m|) && Spells(m, bs) && hole in bs && |m'| == |m|
    requires m'[..hole.Payload()] == m[..hole.Payload()] && m'[hole.End()..] == m[hole.End()..]
    ensures Spells(m', bs)
    ensures AllSame(m, m', set x | x in bs && x != hole)
  {
    Bounds(bs, 0, |m|);
    Disjoint(bs, 0, |m|);
    assert HeaderOk(m, hole);
    HeaderBefore(m, m', hole.Payload(), hole);
    forall x | x in bs && x != hole ensures Same(m, m', x) {
      if x.End() <= hole.at {
        BeforeSame(m, m', hole.Payload(), x);
      } else {
        AfterSame(m, m', hole.End(), x);
      }
    }
    forall x | x in bs ensures HeaderOk(m', x) {
      assert HeaderOk(m, x);
      if x != hole { assert Same(m, m', x); }
    }
  }

  lemma HeaderBefore(m: Image, m': Image, cut: nat, x: Block)
    requires |m'| == |m| && x.Payload() <= cut <= |m| && m'[..cut] == m[..cut] && HeaderOk(m, x)
    ensures HeaderOk(m', x)
  {
    assert forall lo, hi :: 0 <= lo <= hi <= cut ==> m[lo..hi] == m[..cut][lo..hi] && m'[lo..hi] == m'[..cut][lo..hi];
  }

  // Reading the header at p.
  method LoadHeader(mem: array<Byte>, p: nat, ghost bs: Chain, ghost b: Block) returns (size: nat, magic: nat)
    requires Spells(mem[..], bs) && b in bs && p == b.at
    ensures b.End() <= mem.Length && size == b.Size() && magic == Magic(b)
  {
    assert HeaderOk(mem[..], b);
    size, magic := Word32(mem[..], p), Word32(mem[..], p + 4);
  }

  // Writing a header field by field: both fields, the size alone, the magic alone.
  method StoreHeader(mem: array<Byte>, p: nat, size: nat, magic: nat, ghost b: Block)
    requires b.End() <= mem.Length < WORD && p == b.at && size == b.Size() && magic == Magic(b)
    modifies mem
    ensures Stored(old(mem[..]), mem[..], b)
  {
    PutBoth(mem[..], b);
    Store32(mem, p, size);
    Store32(mem, p + 4, magic);
  }

  method StoreSize(mem: array<Byte>, p: nat, size: nat, ghost b: Block)
    requires b.End() <= mem.Length < WORD && p == b.at && size == b.Size()
    requires mem[..][p + 4..p + 8] == Bytes32(Magic(b))
    modifies mem
    ensures Stored(old(mem[..]), mem[..], b)
  {
    PutSize(mem[..], b);
    Store32(mem, p, size);
  }

  method StoreMagic(mem: array<Byte>, p: nat, magic: nat, ghost b: Block)
    requires b.End() <= mem.Length < WORD && p == b.at && magic == Magic(b)
    requires mem[..][p..p + 4] == Bytes32(b.Size())
    modifies mem
    ensures Stored(old(mem[..]), mem[..], b)
  {
    PutMagic(mem[..], b);
    Store32(mem, p + 4, magic);
  }

  // The stores of pool_alloc (lines 70-83).
  method WritePieces(mem: array<Byte>, p: nat, need: nat, size: nat, ghost b: Block, ghost n: nat)
    returns (ghost m1: Image)
    requires HeaderOk(mem[..], b) && mem.Length < WORD - 8 && Fits(b, n)
    requires need == 8 * n && p == b.at && size == b.Size()
    modifies mem
    ensures PiecesWritten(old(mem[..]), m1, mem[..], b, n)
  {
    m1 := mem[..];
    NoWrap(need + HEADER + ALIGN);
    if size >= (need + HEADER + ALIGN) % WORD {
      StoreHeader(mem, p + HEADER + need, size - need - HEADER, MAGIC_FREE, Pieces(b, n)[1]);
      m1 := mem[..];
      StoreHeader(mem, p, need, MAGIC_USED, Pieces(b, n)[0]);
    } else {
      StoreMagic(mem, p, MAGIC_USED, Pieces(b, n)[0]);
    }
  }

  // memcpy of block b's payload to the start of block c's.
  method CopyPayload(mem: array<Byte>, dst: nat, src: nat, n: nat, ghost b: Block, ghost c: Block)
    requires dst == c.Payload() && src == b.Payload() && n == b.Size() <= c.Size()
    requires b.End() <= mem.Length && c.End() <= mem.Length
    requires b.End() <= c.at || c.End() <= b.at
    modifies mem
    ensures mem[..] == old(mem[..])[..c.Payload()] + Data(old(mem[..]), b) + old(mem[..])[c.Payload() + b.Size()..]
  {
    forall k | 0 <= k < n {
      mem[dst + k] := mem[src + k];
    }
  }

  // memset to zero.
  method ZeroBytes(mem: array<Byte>, dst: nat, n: nat)
    requires dst + n <= mem.Length
    modifies mem
    ensures mem[..][..dst] == old(mem[..])[..dst] && mem[..][dst + n..] == old(mem[..])[dst + n..]
    ensures forall k :: dst <= k < dst + n ==> mem[..][k] == 0
  {
    forall k | 0 <= k < n {
      mem[dst + k] := 0;
    }
  }

  // The block behind p in one state has its whole payload at the start of the
  // block behind q in another.
  ghost predicate KeepsPrefix(bs: Chain, m: Image, p: Ptr, bs': Chain, m': Image, q: Ptr) {
    exists b, c :: b in Used(bs) && p == At(b.Payload()) && c in Used(bs') && q == At(c.Payload())
      && b.End() <= |m| && c.End() <= |m'| && b.Size() <= c.Size()
      && Data(m', c)[..b.Size()] == Data(m, b)
  }

  lemma KeepsItself(bs: Chain, m: Image, b: Block)
    requires b in Used(bs) && b.End() <= |m|
    ensures KeepsPrefix(bs, m, At(b.Payload()), bs, m, At(b.Payload()))
  {
    assert Data(m, b)[..b.Size()] == Data(m, b);
  }

  // After the memcpy of velaops_pool_realloc.
  lemma Moved(m1: Image, m2: Image, grown: Chain, b: Block, c: Block)
    requires Tiles(grown, 0, |m1|) && Spells(m1, grown) && b in grown && c in grown && b != c
    requires b.Size() <= c.Size() && b.End() <= |m1| && c.End() <= |m1|
    requires m2 == m1[..c.Payload()] + Data(m1, b) + m1[c.Payload() + b.Size()..]
    ensures Spells(m2, grown)
    ensures AllSame(m1, m2, set x | x in grown && x != c)
    ensures Data(m2, c)[..b.Size()] == Data(m1, b)
  {
    Parts(m1[..c.Payload()], Data(m1, b), m1[c.Payload() + b.Size()..]);
    SameTail(m1, m2, c.Payload() + b.Size(), c.End());
    PayloadWritten(m1, m2, grown, c);
  }

  lemma Parts(x: Image, y: Image, z: Image)
    ensures (x + y + z)[..|x|] == x && (x + y + z)[|x|..|x| + |y|] == y && (x + y + z)[|x| + |y|..] == z
  {
  }

  lemma SameTail(m1: Image, m2: Image, lo: nat, hi: nat)
    requires lo <= hi <= |m1| == |m2| && m2[lo..] == m1[lo..]
    ensures m2[hi..] == m1[hi..]
  {
    assert m2[hi..] == m2[lo..][hi - lo..];
    assert m1[hi..] == m1[lo..][hi - lo..];
  }

  // After the memset of velaops_pool_calloc.
  lemma Zeroed(m: Image, m1: Image, m2: Image, bs: Chain, grown: Chain, c: Block, total: nat)
    requires Tiles(grown, 0, |m1|) && Spells(m1, grown) && c in grown && |m2| == |m1|
    requires AllSame(m, m1, Used(bs)) && Used(bs) <= Used(grown) && c !in Used(bs)
    requires total <= c.Size() && c.End() <= |m1|
    requires m2[..c.Payload()] == m1[..c.Payload()] && m2[c.Payload() + total..] == m1[c.Payload() + total..]
    ensures Spells(m2, grown) && AllSame(m, m2, Used(bs))
  {
    SameTail(m1, m2, c.Payload() + total, c.End());
    PayloadWritten(m1, m2, grown, c);
    AllSameTransitive(m, m1, m2, Used(bs));
  }

  // After its pool_free.
  lemma AfterMove(m: Image, m1: Image, m2: Image, m3: Image, bs: Chain, grown: Chain, b: Block, c: Block)
    requires Tiles(grown, 0, |m|) && Used(grown) == Used(bs) + {c} && b in Used(bs) && c !in Used(bs)
    requires AllSame(m, m1, Used(bs)) && AllSame(m1, m2, set x | x in grown && x != c)
    requires AllSame(m2, m3, OtherLive(grown, At(b.Payload())))
    requires b.End() <= |m1| && c.End() <= |m2| && b.Size() <= c.Size() && Data(m2, c)[..b.Size()] == Data(m1, b)
    ensures AllSame(m, m3, OtherLive(bs, At(b.Payload())))
    ensures c.End() <= |m3| && b.End() <= |m| && Data(m3, c)[..b.Size()] == Data(m, b)
    ensures c in OtherLive(grown, At(b.Payload()))
  {
    var others := OtherLive(bs, At(b.Payload()));
    assert forall x :: x in others ==> x in grown && x != c && x in OtherLive(grown, At(b.Payload())) by {
      assert forall x :: x in Used(bs) ==> x in Used(grown);
    }
    AllSameTransitive(m, m1, m2, others);
    AllSameTransitive(m, m2, m3, others);
    assert Same(m, m1, b);
    assert b in Used(grown) && c in Used(grown);
    Disjoint(grown, 0, |m|);
    assert Same(m2, m3, c);
  }

  // The block a successful allocation adds.
  lemma Grown(bs: Chain, len: nat, count: nat) returns (c: Block)
    requires WellFormed(bs, len) && AllocChain(bs, count).1.At?
    ensures c !in Used(bs) && Used(AllocChain(bs, count).0) == Used(bs) + {c}
    ensures AllocChain(bs, count).1 == At(c.Payload()) && Rounded(count) <= c.Size()
  {
    AllocKeeps(bs, len, count);
    c :| c !in Used(bs) && Used(AllocChain(bs, count).0) == Used(bs) + {c}
         && AllocChain(bs, count).1 == At(c.Payload()) && Rounded(count) <= c.Size();
  }

  lemma TotalFits(nmemb: nat, size: nat)
    requires nmemb == 0 || size <= (WORD - 1) / nmemb
    ensures nmemb * size < WORD
  {
    if nmemb > 0 {
      var q := (WORD - 1) / nmemb;
      assert nmemb * q <= WORD - 1;
      assert nmemb * size <= nmemb * q;
    }
  }

  class Arena {
    const mem: array<Byte>
    ghost var blocks: Chain

    ghost predicate Valid()
      reads this, mem
    {
      ArenaLength(mem.Length) && WellFormed(blocks, mem.Length) && Spells(mem[..], blocks)
    }

    // velaops_pool_init, for a malloc that succeeds.
    constructor (len: nat)
      requires ArenaLength(len)
      ensures Valid() && fresh(mem) && mem.Length == len
      ensures blocks == Fresh(len)
    {
      mem := new Byte[len](_ => 0);
      blocks := Fresh(len);
      new;
      StoreHeader(mem, 0, len - HEADER, MAGIC_FREE, Fresh(len)[0]);
      FreshIsWellFormed(len);
    }

    method Alloc(count: nat) returns (r: Ptr)
      requires Valid() && count < WORD
      modifies this, mem
      ensures Valid()
      ensures (blocks, r) == AllocChain(old(blocks), count)
      ensures r.Null? ==> mem[..] == old(mem[..])
      ensures Used(old(blocks)) <= Used(blocks) && AllSame(old(mem[..]), mem[..], Used(old(blocks)))
    {
      var need := (count + ALIGN - 1) % WORD / ALIGN * ALIGN;
      if need == 0 {
        return Null;
      }
      ghost var n := Units(count);
      assert need == 8 * n;
      var p: nat := 0;
      ghost var i := 0;
      while p + HEADER <= mem.Length
        invariant blocks == old(blocks) && mem[..] == old(mem[..])
        invariant i <= |blocks| && FirstFit(blocks, n) == i + FirstFit(blocks[i..], n)
        invariant Tiles(blocks[i..], p, mem.Length)
        decreases |blocks| - i
      {
        ghost var b := blocks[i];
        Second(blocks[i..], p, mem.Length);
        assert blocks[i..][1..] == blocks[i + 1..];
        assert b in blocks && b == blocks[i..][0];
        var size, magic := LoadHeader(mem, p, blocks, b);
        if magic != MAGIC_FREE && magic != MAGIC_USED {
          assert false;
        }
        if size == 0 || size > mem.Length {
          assert false;
        }
        if magic == MAGIC_FREE && size >= need {
          assert i == FirstFit(blocks, n);
          HandOut(i, n, need, p, size);
          return At(p + HEADER);
        }
        p := p + HEADER + size;
        i := i + 1;
      }
      if i < |blocks| {
        Second(blocks[i..], p, mem.Length);
        assert false;
      }
      return Null;
    }

    // The branch of pool_alloc that has found its block (lines 68-84).
    method HandOut(ghost i: nat, ghost n: nat, need: nat, p: nat, size: nat)
      requires Valid() && i < |blocks| && Fits(blocks[i], n) && n > 0
      requires need == 8 * n && p == blocks[i].at && size == blocks[i].Size()
      modifies this, mem
      ensures Valid() && blocks == Take(old(blocks), i, n)
      ensures Used(old(blocks)) <= Used(blocks) && AllSame(old(mem[..]), mem[..], Used(old(blocks)))
    {
      ghost var m, bs := mem[..], blocks;
      assert bs[i] in bs && HeaderOk(m, bs[i]);
      TakeKeeps(bs, mem.Length, i, n);
      ghost var m1 := WritePieces(mem, p, need, size, bs[i], n);
      PiecesStored(m, m1, mem[..], bs, i, n);
      blocks := Take(bs, i, n);
    }

    // The checks pool_free and velaops_pool_realloc make on a pointer.
    predicate LooksLive(ptr: Ptr)
      reads mem
    {
      && ptr.At? && HEADER <= ptr.offset < mem.Length
      && Word32(mem[..], ptr.offset - HEADER + 4) == MAGIC_USED
    }

    // What the source asks of its callers: NULL, a foreign pointer, or a pointer whose
    // header no longer says "used" is ignored; any other must be live.
    ghost predicate MayPass(ptr: Ptr)
      reads this, mem
    {
      LooksLive(ptr) ==> exists b :: b in Used(blocks) && ptr == At(b.Payload())
    }

    lemma LiveIffLooksLive(ptr: Ptr)
      requires Valid() && MayPass(ptr)
      ensures LooksLive(ptr) <==> FindLive(blocks, ptr) < |blocks|
    {
      var i := FindLive(blocks, ptr);
      if i < |blocks| {
        assert blocks[i] in blocks;
        assert HeaderOk(mem[..], blocks[i]);
        Around(blocks, i, 0, mem.Length);
      }
    }

    method Free(ptr: Ptr)
      requires Valid() && MayPass(ptr)
      modifies this, mem
      ensures Valid()
      ensures blocks == FreeChain(old(blocks), ptr)
      ensures Used(blocks) <= Used(old(blocks)) && AllSame(old(mem[..]), mem[..], Used(blocks))
    {
      LiveIffLooksLive(ptr);
      if !LooksLive(ptr) {
        return;
      }
      ghost var m, i, bs := mem[..], FindLive(blocks, ptr), blocks;
      ghost var marked := bs[i].(used := false);
      assert bs[i] in bs && HeaderOk(m, bs[i]);
      ReleaseKeeps(bs, mem.Length, i);
      StoreMagic(mem, ptr.offset - HEADER, MAGIC_FREE, marked);
      ghost var m1 := mem[..];
      MarkStored(m, m1, bs, i);
      blocks := bs[i := marked];
      CoalesceAll();
      AllSameTransitive(m, m1, mem[..], Used(blocks));
    }

    // The store that joins the free block at p with the free block behind it (lines 146-148).
    method Join(ghost start: Chain, ghost before: Chain, ghost rest: Chain, p: nat, size: nat)
      returns (ghost joined: Chain)
      requires mem.Length < WORD && blocks == before + rest && Spells(mem[..], blocks)
      requires Walking(start, before, rest, p, mem.Length)
      requires |rest| >= 2 && !rest[0].used && !rest[1].used && size == Merge(rest[0], rest[1]).Size()
      modifies this, mem
      ensures |joined| < |rest| && blocks == before + joined && Spells(mem[..], blocks)
      ensures Walking(start, before, joined, p, mem.Length)
      ensures Used(blocks) == Used(old(blocks)) && AllSame(old(mem[..]), mem[..], Used(blocks))
    {
      ghost var m, big := mem[..], Merge(rest[0], rest[1]);
      assert rest[0] in blocks && HeaderOk(m, rest[0]);
      WalkJoins(start, before, rest, p, mem.Length);
      StoreSize(mem, p, size, big);
      JoinStored(m, mem[..], before, rest, p);
      joined := [big] + rest[2..];
      blocks := before + joined;
    }

    // The walk at the end of pool_free (lines 116-154).
    method CoalesceAll()
      requires 16 <= mem.Length < WORD && Tiles(blocks, 0, mem.Length) && Spells(mem[..], blocks)
      modifies this, mem
      ensures blocks == Coalesce(old(blocks)) && Spells(mem[..], blocks)
      ensures Used(blocks) == Used(old(blocks)) && AllSame(old(mem[..]), mem[..], Used(blocks))
    {
      ghost var start, live := blocks, Used(blocks);
      ghost var before, rest := [], blocks;
      WalkStart(start, mem.Length);
      var p: nat := 0;
      while p + HEADER <= mem.Length
        invariant blocks == before + rest && Walking(start, before, rest, p, mem.Length)
        invariant Spells(mem[..], blocks)
        invariant Used(blocks) == live && AllSame(old(mem[..]), mem[..], live)
        decreases |rest|
      {
        ghost var m, cur := mem[..], rest[0];
        Second(rest, p, mem.Length);
        var size, magic := LoadHeader(mem, p, blocks, cur);
        if magic != MAGIC_FREE && magic != MAGIC_USED {
          assert false;
        }
        if size == 0 || size > mem.Length {
          assert false;
        }
        var nxtp := p + HEADER + size;
        if magic == MAGIC_FREE && nxtp + HEADER <= mem.Length {
          ghost var nxt := rest[1];
          var nxtSize, nxtMagic := LoadHeader(mem, nxtp, blocks, nxt);
          if nxtMagic == MAGIC_FREE && nxtSize != 0 && nxtSize <= mem.Length {
            rest := Join(start, before, rest, p, size + HEADER + nxtSize);
            AllSameTransitive(old(mem[..]), m, mem[..], live);
            continue;
          }
        }
        WalkPasses(start, before, rest, p, mem.Length);
        before, rest, p := before + [cur], rest[1..], nxtp;
      }
      WalkEnds(start, before, rest, p, mem.Length);
    }

    // velaops_pool_realloc.
    method Realloc(ptr: Ptr, count: nat) returns (r: Ptr)
      requires Valid() && MayPass(ptr) && count < WORD
      modifies this, mem
      ensures Valid()
      ensures (blocks, r) == ReallocChain(old(blocks), ptr, count)
      ensures r.Null? ==> mem[..] == old(mem[..])
      ensures AllSame(old(mem[..]), mem[..], OtherLive(old(blocks), ptr))
      ensures r.At? && ptr.At? ==> KeepsPrefix(old(blocks), old(mem[..]), ptr, blocks, mem[..], r)
    {
      if ptr.Null? {
        r := Alloc(count);
        return;
      }
      LiveIffLooksLive(ptr);
      if !LooksLive(ptr) {
        return Null;
      }
      ghost var b := blocks[FindLive(blocks, ptr)];
      var oldSize, _ := LoadHeader(mem, ptr.offset - HEADER, blocks, b);
      if oldSize >= count {
        KeepsItself(blocks, mem[..], b);
        return ptr;
      }
      r := Enlarge(ptr, oldSize, count, b);
    }

    // velaops_pool_realloc for a live block that is too small (lines 224-234).
    method Enlarge(ptr: Ptr, oldSize: nat, count: nat, ghost b: Block) returns (r: Ptr)
      requires Valid() && count < WORD
      requires b in Used(blocks) && ptr == At(b.Payload()) && oldSize == b.Size() < count
      modifies this, mem
      ensures Valid()
      ensures r == AllocChain(old(blocks), count).1
      ensures blocks == if r.Null? then old(blocks) else FreeChain(AllocChain(old(blocks), count).0, ptr)
      ensures r.Null? ==> mem[..] == old(mem[..])
      ensures AllSame(old(mem[..]), mem[..], OtherLive(old(blocks), ptr))
      ensures r.At? ==> KeepsPrefix(old(blocks), old(mem[..]), ptr, blocks, mem[..], r)
    {
      r := Alloc(count);
      if r.At? {
        ghost var c := Grown(old(blocks), mem.Length, count);
        RoundedUp(count);
        MoveTo(ptr, r, oldSize, old(blocks), old(mem[..]), b, c);
      }
    }

    // The rest of velaops_pool_realloc once the larger block c has been found (lines 230-233).
    method MoveTo(ptr: Ptr, r: Ptr, oldSize: nat, ghost bs: Chain, ghost m: Image, ghost b: Block, ghost c: Block)
      requires Valid() && |m| == mem.Length && AllSame(m, mem[..], Used(bs))
      requires c !in Used(bs) && Used(blocks) == Used(bs) + {c} && r == At(c.Payload())
      requires b in Used(bs) && ptr == At(b.Payload()) && oldSize == b.Size() <= c.Size()
      modifies this, mem
      ensures Valid() && blocks == FreeChain(old(blocks), ptr)
      ensures AllSame(m, mem[..], OtherLive(bs, ptr))
      ensures KeepsPrefix(bs, m, ptr, blocks, mem[..], r)
    {
      ghost var m1, grown := mem[..], blocks;
      assert b in Used(grown) && c in Used(grown) && HeaderOk(m1, b) && HeaderOk(m1, c);
      Apart(grown, |m|, b, c);
      CopyPayload(mem, r.offset, ptr.offset, oldSize, b, c);
      ghost var m2 := mem[..];
      Moved(m1, m2, grown, b, c);
      FreeKeeps(grown, |m|, ptr);
      LiveLooksLive(b);
      Free(ptr);
      AfterMove(m, m1, m2, mem[..], bs, grown, b, c);
    }

    lemma LiveLooksLive(b: Block)
      requires Valid() && b in Used(blocks)
      ensures MayPass(At(b.Payload()))
    {
    }

    // velaops_pool_calloc.
    method Calloc(nmemb: nat, size: nat) returns (r: Ptr)
      requires Valid() && nmemb < WORD && size < WORD
      modifies this, mem
      ensures Valid()
      ensures (blocks, r) == CallocChain(old(blocks), nmemb, size)
      ensures r.Null? ==> mem[..] == old(mem[..])
      ensures AllSame(old(mem[..]), mem[..], Used(old(blocks)))
      ensures r.At? ==> r.offset + nmemb * size <= mem.Length
      ensures r.At? ==> forall k :: r.offset <= k < r.offset + nmemb * size ==> mem[..][k] == 0
    {
      if nmemb != 0 && size > (WORD - 1) / nmemb {
        return Null;
      }
      var total := nmemb * size;
      TotalFits(nmemb, size);
      r := Alloc(total);
      if r.At? {
        ghost var m1 := mem[..];
        ghost var c := Grown(old(blocks), mem.Length, total);
        RoundedUp(total);
        assert HeaderOk(m1, c);
        ZeroBytes(mem, r.offset, total);
        Zeroed(old(mem[..]), m1, mem[..], old(blocks), blocks, c, total);
      }
    }

    // A client writing one byte behind a live pointer.
    method ClientWrite(k: nat, v: Byte, ghost b: Block)
      requires Valid() && b in Used(blocks) && b.Payload() <= k < b.End() <= mem.Length
      modifies mem
      ensures Valid() && mem[..] == old(mem[..])[k := v]
      ensures AllSame(old(mem[..]), mem[..], Used(blocks) - {b})
    {
      ghost var m := mem[..];
      mem[k] := v;
      assert mem[..] == m[k := v];
      PayloadWritten(m, mem[..], blocks, b);
    }
  }
}
