// The block chain of the first-fit arena (velaops_pool.c), seen as a value.
//
// A chain is the sequence of headers met when walking the arena from its first
// byte.  The functions below say what one call does to the chain; Pool.dfy
// proves that the byte-level code does exactly that.

module PoolBlocks {

  const HEADER: nat := 8    // sizeof(struct pool_block_s)
  const ALIGN: nat := 8     // POOL_ALIGN
  const WORD: nat := 0x1_0000_0000   // size_t and uint32_t are 32 bits wide

  // The arena lengths for which no 32-bit sum below wraps.
  ghost predicate ArenaLength(len: nat) {
    16 <= len < WORD - 8 && len % ALIGN == 0
  }

  // A block whose payload is `units` times 8 bytes long, so that every size is a
  // multiple of the alignment by construction.
  datatype Block = Block(at: nat, units: nat, used: bool) {
    function Size(): nat { 8 * units }
    function Payload(): nat { at + HEADER }
    function End(): nat { at + HEADER + Size() }
  }

  type Chain = seq<Block>

  datatype Ptr = Null | At(offset: int)

  // The blocks tile [from, to) exactly: no gap, no overlap, nothing left over.
  ghost predicate Tiles(bs: Chain, from: nat, to: nat) {
    if bs == [] then from == to
    else
      && bs[0].at == from && bs[0].units > 0
      && Tiles(bs[1..], bs[0].End(), to)
  }

  // No two neighbouring blocks are both free.
  ghost predicate FullyCoalesced(bs: Chain) {
    |bs| >= 2 ==> (bs[0].used || bs[1].used) && FullyCoalesced(bs[1..])
  }

  ghost predicate WellFormed(bs: Chain, len: nat) {
    bs != [] && Tiles(bs, 0, len) && FullyCoalesced(bs)
  }

  ghost function Used(bs: Chain): set<Block> {
    set b | b in bs && b.used
  }

  // A request in units, rounded up; one within 7 of 2^32 wraps to 0.
  function Units(count: nat): nat {
    (count + ALIGN - 1) % WORD / ALIGN
  }

  function Fits(b: Block, n: nat): bool {
    !b.used && b.units >= n
  }

  // Index of the first free block of at least n units, or |bs|.
  function FirstFit(bs: Chain, n: nat): (i: nat)
    ensures i <= |bs|
    ensures forall j :: 0 <= j < i ==> !Fits(bs[j], n)
    ensures i < |bs| ==> Fits(bs[i], n)
  {
    if bs == [] then 0
    else if Fits(bs[0], n) then 0
    else 1 + FirstFit(bs[1..], n)
  }

  // A free block as handed out: split when a header and one more unit fit behind it.
  function Pieces(b: Block, n: nat): Chain
    requires b.units >= n
  {
    if b.units >= n + 2 then
      [Block(b.at, n, true), Block(b.at + HEADER + 8 * n, b.units - n - 1, false)]
    else
      [b.(used := true)]
  }

  function Take(bs: Chain, i: nat, n: nat): Chain
    requires i < |bs| && Fits(bs[i], n)
  {
    bs[..i] + Pieces(bs[i], n) + bs[i + 1..]
  }

  function AllocChain(bs: Chain, count: nat): (Chain, Ptr) {
    var n := Units(count);
    var i := FirstFit(bs, n);
    if n == 0 || i == |bs| then (bs, Null) else (Take(bs, i, n), At(bs[i].Payload()))
  }

  function Merge(a: Block, b: Block): Block {
    Block(a.at, a.units + 1 + b.units, false)
  }

  // One pass over the chain that joins neighbouring free blocks.
  function Coalesce(bs: Chain): Chain
    decreases |bs|
  {
    if |bs| < 2 then bs
    else if !bs[0].used && !bs[1].used then Coalesce([Merge(bs[0], bs[1])] + bs[2..])
    else [bs[0]] + Coalesce(bs[1..])
  }

  function Release(bs: Chain, i: nat): Chain
    requires i < |bs|
  {
    Coalesce(bs[i := bs[i].(used := false)])
  }

  // Index of the live block with this payload, or |bs|.
  function FindLive(bs: Chain, ptr: Ptr): (i: nat)
    ensures i <= |bs|
    ensures i < |bs| ==> bs[i].used && ptr == At(bs[i].Payload())
    ensures i == |bs| ==> forall b :: b in bs && b.used ==> ptr != At(b.Payload())
  {
    if bs == [] then 0
    else if bs[0].used && ptr == At(bs[0].Payload()) then 0
    else 1 + FindLive(bs[1..], ptr)
  }

  function FreeChain(bs: Chain, ptr: Ptr): Chain {
    var i := FindLive(bs, ptr);
    if i == |bs| then bs else Release(bs, i)
  }

  function ReallocChain(bs: Chain, ptr: Ptr, count: nat): (Chain, Ptr) {
    var i := FindLive(bs, ptr);
    if ptr.Null? then AllocChain(bs, count)
    else if i == |bs| then (bs, Null)
    else if bs[i].Size() >= count then (bs, ptr)
    else
      var (grown, out) := AllocChain(bs, count);
      if out.Null? then (bs, Null) else (FreeChain(grown, ptr), out)
  }

  // ---------------------------------------------------------------- layout

  function EndOf(bs: Chain, from: nat): nat {
    if bs == [] then from else bs[|bs| - 1].End()
  }

  lemma {:induction false} TilesConcat(a: Chain, b: Chain, from: nat, to: nat)
    ensures Tiles(a + b, from, to) <==> Tiles(a, from, EndOf(a, from)) && Tiles(b, EndOf(a, from), to)
    decreases |a|
  {
    if a == [] {
      assert a + b == b;
    } else {
      assert (a + b)[1..] == a[1..] + b;
      TilesConcat(a[1..], b, a[0].End(), to);
    }
  }

  lemma {:induction false} CoalescedConcat(a: Chain, b: Chain)
    ensures FullyCoalesced(a + b)
       <==> FullyCoalesced(a) && FullyCoalesced(b)
            && (a != [] && b != [] ==> a[|a| - 1].used || b[0].used)
    decreases |a|
  {
    if a == [] {
      assert a + b == b;
    } else {
      assert (a + b)[1..] == a[1..] + b;
      CoalescedConcat(a[1..], b);
    }
  }

  lemma UsedConcat(a: Chain, b: Chain)
    ensures Used(a + b) == Used(a) + Used(b)
  {
  }

  // The three parts of a chain around block i.
  lemma Around(bs: Chain, i: nat, from: nat, to: nat)
    requires i < |bs| && Tiles(bs, from, to)
    ensures bs == bs[..i] + [bs[i]] + bs[i + 1..]
    ensures Tiles(bs[..i], from, bs[i].at) && Tiles(bs[i + 1..], bs[i].End(), to)
    ensures bs[i].units > 0 && EndOf(bs[..i], from) == bs[i].at
  {
    assert bs == bs[..i] + bs[i..];
    TilesConcat(bs[..i], bs[i..], from, to);
    assert bs[i..] == [bs[i]] + bs[i + 1..];
  }

  lemma {:induction false} Bounds(bs: Chain, from: nat, to: nat)
    requires Tiles(bs, from, to)
    ensures from <= to
    ensures forall b :: b in bs ==> from <= b.at && b.End() <= to && b.units > 0
    decreases |bs|
  {
    if bs != [] {
      Bounds(bs[1..], bs[0].End(), to);
      assert forall b :: b in bs ==> b == bs[0] || b in bs[1..];
    }
  }

  // Blocks do not overlap.
  lemma {:induction false} Disjoint(bs: Chain, from: nat, to: nat)
    requires Tiles(bs, from, to)
    ensures forall a, b :: a in bs && b in bs ==> a == b || a.End() <= b.at || b.End() <= a.at
    decreases |bs|
  {
    if bs != [] {
      Bounds(bs[1..], bs[0].End(), to);
      Disjoint(bs[1..], bs[0].End(), to);
      assert forall b :: b in bs ==> b == bs[0] || b in bs[1..];
    }
  }

  lemma Apart(bs: Chain, len: nat, a: Block, b: Block)
    requires Tiles(bs, 0, len) && a in bs && b in bs && a != b
    ensures a.End() <= b.at || b.End() <= a.at
  {
    Disjoint(bs, 0, len);
  }

  // ---------------------------------------------------------------- one step

  // Replacing block i by blocks that tile the same bytes.
  lemma Splice(bs: Chain, i: nat, mid: Chain, from: nat, to: nat)
    requires i < |bs| && Tiles(bs, from, to) && Tiles(mid, bs[i].at, bs[i].End()) && mid != []
    ensures Tiles(bs[..i] + mid + bs[i + 1..], from, to)
    ensures Used(bs) == Used(bs[..i]) + Used([bs[i]]) + Used(bs[i + 1..])
    ensures Used(bs[..i] + mid + bs[i + 1..]) == Used(bs[..i]) + Used(mid) + Used(bs[i + 1..])
  {
    Around(bs, i, from, to);
    TilesConcat(bs[..i], mid, from, bs[i].End());
    TilesConcat(mid, [], bs[i].at, bs[i].End());
    assert mid + [] == mid;
    TilesConcat(bs[..i] + mid, bs[i + 1..], from, to);
    UsedConcat(bs[..i], [bs[i]]);
    UsedConcat(bs[..i] + [bs[i]], bs[i + 1..]);
    UsedConcat(bs[..i], mid);
    UsedConcat(bs[..i] + mid, bs[i + 1..]);
  }

  // A free block may be replaced by blocks whose outer two are free or used as it likes,
  // as long as the inner pairs are coalesced.
  lemma SpliceCoalesced(bs: Chain, i: nat, mid: Chain)
    requires i < |bs| && FullyCoalesced(bs) && !bs[i].used
    requires FullyCoalesced(mid)
    ensures FullyCoalesced(bs[..i] + mid + bs[i + 1..])
  {
    assert bs == bs[..i] + bs[i..];
    assert bs[i..] == [bs[i]] + bs[i + 1..];
    CoalescedConcat(bs[..i], bs[i..]);
    CoalescedConcat([bs[i]], bs[i + 1..]);
    CoalescedConcat(bs[..i], mid);
    CoalescedConcat(bs[..i] + mid, bs[i + 1..]);
    if mid == [] {
      assert bs[..i] + mid == bs[..i];
    }
  }

  lemma PiecesTile(b: Block, n: nat)
    requires Fits(b, n) && n > 0
    ensures var mid := Pieces(b, n);
            && mid != [] && Tiles(mid, b.at, b.End()) && FullyCoalesced(mid)
            && Used(mid) == {mid[0]} && mid[0].at == b.at
            && n <= mid[0].units <= n + 1 && mid[0].End() <= b.End()
  {
  }

  lemma TakeKeeps(bs: Chain, len: nat, i: nat, n: nat)
    requires WellFormed(bs, len) && i < |bs| && Fits(bs[i], n) && n > 0
    ensures WellFormed(Take(bs, i, n), len)
    ensures var b := Pieces(bs[i], n)[0];
            && b.at == bs[i].at && b.used && n <= b.units <= n + 1 && b.End() <= bs[i].End()
            && b !in Used(bs)
            && Used(Take(bs, i, n)) == Used(bs) + {b}
  {
    Around(bs, i, 0, len);
    var mid := Pieces(bs[i], n);
    PiecesTile(bs[i], n);
    Splice(bs, i, mid, 0, len);
    SpliceCoalesced(bs, i, mid);
    assert Used([bs[i]]) == {};
    assert mid[0] !in Used(bs) by {
      Disjoint(bs, 0, len);
    }
  }

  lemma {:induction false} CoalesceKeeps(bs: Chain, from: nat, to: nat)
    requires bs != [] && Tiles(bs, from, to)
    ensures var out := Coalesce(bs);
            && out != [] && Tiles(out, from, to) && FullyCoalesced(out)
            && Used(out) == Used(bs) && out[0].used == bs[0].used
    decreases |bs|
  {
    if |bs| < 2 {
    } else if !bs[0].used && !bs[1].used {
      var next := [Merge(bs[0], bs[1])] + bs[2..];
      assert bs == [bs[0], bs[1]] + bs[2..];
      assert bs[1..][1..] == bs[2..] == next[1..];
      CoalesceKeeps(next, from, to);
      UsedConcat([bs[0], bs[1]], bs[2..]);
      UsedConcat([Merge(bs[0], bs[1])], bs[2..]);
      assert Used([bs[0], bs[1]]) == {} == Used([Merge(bs[0], bs[1])]);
    } else {
      CoalesceKeeps(bs[1..], bs[0].End(), to);
      var tail := Coalesce(bs[1..]);
      assert bs == [bs[0]] + bs[1..];
      assert ([bs[0]] + tail)[1..] == tail;
      UsedConcat([bs[0]], bs[1..]);
      UsedConcat([bs[0]], tail);
    }
  }

  // Block i marked free.
  lemma MarkKeeps(bs: Chain, len: nat, i: nat)
    requires Tiles(bs, 0, len) && i < |bs| && bs[i].used
    ensures var marked := [bs[i].(used := false)];
            && bs[i := marked[0]] == bs[..i] + marked + bs[i + 1..]
            && Tiles(bs[i := marked[0]], 0, len)
            && Used(bs[i := marked[0]]) == Used(bs) - {bs[i]}
  {
    var mid := [bs[i].(used := false)];
    Around(bs, i, 0, len);
    assert Tiles(mid, bs[i].at, bs[i].End());
    Splice(bs, i, mid, 0, len);
    assert bs[..i] + mid + bs[i + 1..] == bs[i := mid[0]];
    Bounds(bs[..i], 0, bs[i].at);
    Bounds(bs[i + 1..], bs[i].End(), len);
    assert Used(mid) == {};
    assert Used([bs[i]]) == {bs[i]};
    assert bs[i] !in bs[..i] && bs[i] !in bs[i + 1..];
  }

  lemma ReleaseKeeps(bs: Chain, len: nat, i: nat)
    requires WellFormed(bs, len) && i < |bs| && bs[i].used
    ensures WellFormed(Release(bs, i), len)
    ensures Used(Release(bs, i)) == Used(bs) - {bs[i]}
  {
    MarkKeeps(bs, len, i);
    CoalesceKeeps(bs[i := bs[i].(used := false)], 0, len);
  }

  // ---------------------------------------------------------------- the coalescing walk

  // The walk over `start` has passed `before` and stands at p, the start of `rest`.
  ghost predicate Walking(start: Chain, before: Chain, rest: Chain, p: nat, len: nat) {
    Tiles(before, 0, p) && Tiles(rest, p, len) && before + Coalesce(rest) == Coalesce(start)
  }

  lemma WalkStart(start: Chain, len: nat)
    requires Tiles(start, 0, len)
    ensures Walking(start, [], start, 0, len) && [] + start == start
  {
    assert [] + Coalesce(start) == Coalesce(start);
  }

  // Joining the first two blocks of `rest` leaves what remains to be done unchanged.
  lemma WalkJoins(start: Chain, before: Chain, rest: Chain, p: nat, len: nat)
    requires Walking(start, before, rest, p, len)
    requires |rest| >= 2 && !rest[0].used && !rest[1].used
    ensures var big := Merge(rest[0], rest[1]);
            && p == big.at && big.End() <= len
            && Walking(start, before, [big] + rest[2..], p, len)
            && Used(before + ([big] + rest[2..])) == Used(before + rest)
  {
    var a, b := [rest[0], rest[1]], [Merge(rest[0], rest[1])];
    Second(rest, p, len);
    assert rest[1..][1..] == rest[2..] == (b + rest[2..])[1..];
    assert Tiles(rest[1..], rest[0].End(), len);
    assert rest == a + rest[2..];
    UsedConcat(a, rest[2..]);
    UsedConcat(b, rest[2..]);
    UsedConcat(before, rest);
    UsedConcat(before, b + rest[2..]);
    assert Used(a) == {} == Used(b);
  }

  // Whether there is a second block can be read off the addresses.
  lemma Second(rest: Chain, p: nat, len: nat)
    requires Tiles(rest, p, len) && rest != []
    ensures rest[0].at == p && rest[0].units > 0 && rest[0].End() <= len
    ensures |rest| >= 2 <==> rest[0].End() + HEADER <= len
    ensures |rest| >= 2 ==> rest[1].at == rest[0].End() && rest[1].units > 0 && rest[1].End() <= len
  {
    Bounds(rest[1..], rest[0].End(), len);
    if |rest| >= 2 {
      Bounds(rest[1..][1..], rest[1].End(), len);
    }
  }

  // Passing a block that cannot be joined.
  lemma WalkPasses(start: Chain, before: Chain, rest: Chain, p: nat, len: nat)
    requires Walking(start, before, rest, p, len) && rest != []
    requires |rest| >= 2 ==> rest[0].used || rest[1].used
    ensures Walking(start, before + [rest[0]], rest[1..], rest[0].End(), len)
    ensures (before + [rest[0]]) + rest[1..] == before + rest
  {
    TilesConcat(before, [rest[0]], 0, rest[0].End());
    TilesConcat(before, [], 0, p);
    assert before + [] == before;
    assert (before + [rest[0]]) + Coalesce(rest[1..]) == before + ([rest[0]] + Coalesce(rest[1..]));
  }

  lemma WalkEnds(start: Chain, before: Chain, rest: Chain, p: nat, len: nat)
    requires Walking(start, before, rest, p, len) && p + HEADER > len
    ensures rest == [] && before == Coalesce(start) && before + rest == before
  {
    Bounds(rest, p, len);
    if rest != [] {
      Second(rest, p, len);
      assert false;
    }
    assert before + [] == before;
  }
}
