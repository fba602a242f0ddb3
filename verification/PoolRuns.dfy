// What every run of the arena keeps, when a request must succeed, and what is
// left once everything has been given back.

module PoolRuns {
  import opened PoolBlocks

  datatype Op =
    | Alloc(count: nat)
    | Calloc(nmemb: nat, size: nat)
    | Realloc(ptr: Ptr, count: nat)
    | Free(ptr: Ptr)

  function CallocChain(bs: Chain, nmemb: nat, size: nat): (Chain, Ptr) {
    if nmemb != 0 && size > (WORD - 1) / nmemb then (bs, Null) else AllocChain(bs, nmemb * size)
  }

  function Step(bs: Chain, op: Op): Chain {
    match op
    case Alloc(count) => AllocChain(bs, count).0
    case Calloc(nmemb, size) => CallocChain(bs, nmemb, size).0
    case Realloc(ptr, count) => ReallocChain(bs, ptr, count).0
    case Free(ptr) => FreeChain(bs, ptr)
  }

  function Run(bs: Chain, ops: seq<Op>): Chain
    decreases |ops|
  {
    if ops == [] then bs else Run(Step(bs, ops[0]), ops[1..])
  }

  // The chain velaops_pool_init writes.
  function Fresh(len: nat): Chain
    requires len >= HEADER
  {
    [Block(0, (len - HEADER) / ALIGN, false)]
  }

  // ---------------------------------------------------------------- single calls

  // The bytes a request is rounded to.
  function Rounded(count: nat): nat {
    8 * Units(count)
  }

  // Rounding goes up to the next multiple of 8; only a request within 7 of 2^32,
  // which no arena can hold, wraps to the empty request.
  lemma RoundedUp(count: nat)
    requires count < WORD
    ensures if count + 7 < WORD then count <= Rounded(count) < count + 8 else Rounded(count) == 0
  {
  }

  // NULL means there was nothing to ask for or no free block is large enough;
  // otherwise exactly one live block of the right size appears.
  lemma AllocKeeps(bs: Chain, len: nat, count: nat)
    requires WellFormed(bs, len)
    ensures var need, out := Rounded(count), AllocChain(bs, count);
            && WellFormed(out.0, len)
            && (out.1.Null? <==> need == 0 || forall b :: b in bs ==> b.used || b.Size() < need)
            && (out.1.Null? ==> out.0 == bs)
            && (out.1.At? ==>
                  exists b: Block :: b !in Used(bs) && Used(out.0) == Used(bs) + {b}
                    && out.1 == At(b.Payload()) && need <= b.Size() <= need + 8)
  {
    var n := Units(count);
    var i := FirstFit(bs, n);
    if n > 0 && i < |bs| {
      TakeKeeps(bs, len, i, n);
      assert bs[i] in bs;
      assert Pieces(bs[i], n)[0].Payload() == bs[i].Payload();
    }
  }

  // Live blocks other than the one behind ptr.
  ghost function OtherLive(bs: Chain, ptr: Ptr): set<Block> {
    set b | b in Used(bs) && ptr != At(b.Payload())
  }

  lemma FreeKeeps(bs: Chain, len: nat, ptr: Ptr)
    requires WellFormed(bs, len)
    ensures WellFormed(FreeChain(bs, ptr), len)
    ensures Used(FreeChain(bs, ptr)) == OtherLive(bs, ptr)
  {
    var i := FindLive(bs, ptr);
    if i < |bs| {
      ReleaseKeeps(bs, len, i);
      Disjoint(bs, 0, len);
      assert bs[i] in bs;
    }
  }

  // A realloc either leaves the chain alone, or replaces one live block by one that
  // holds the new size and little more; failing never loses the old block.
  lemma ReallocKeeps(bs: Chain, len: nat, ptr: Ptr, count: nat)
    requires WellFormed(bs, len) && count < WORD
    ensures var out := ReallocChain(bs, ptr, count);
            && WellFormed(out.0, len)
            && (out.1.Null? || out.1 == ptr ==> out.0 == bs)
            && (out.1.At? ==>
                  exists b :: b in Used(out.0) && out.1 == At(b.Payload()) && b.Size() >= count)
            && (out.1.At? && out.1 != ptr ==>
                  && (forall b :: b in Used(out.0) ==> ptr != At(b.Payload()))
                  && exists b: Block :: b !in Used(bs) && Used(out.0) == OtherLive(bs, ptr) + {b}
                       && out.1 == At(b.Payload()) && count <= b.Size() <= Rounded(count) + 8)
  {
    var i := FindLive(bs, ptr);
    AllocKeeps(bs, len, count);
    RoundedUp(count);
    if ptr.Null? {
      assert OtherLive(bs, ptr) == Used(bs);
    } else if i < |bs| {
      if bs[i].Size() >= count {
        assert bs[i] in Used(bs);
      } else if AllocChain(bs, count).1.At? {
        MoveKeeps(bs, len, i, count);
      }
    }
  }

  // The move of a live block that is too small.
  lemma MoveKeeps(bs: Chain, len: nat, i: nat, count: nat)
    requires WellFormed(bs, len) && count < WORD && i < |bs| && bs[i].used && bs[i].Size() < count
    requires AllocChain(bs, count).1.At?
    ensures var (grown, out) := AllocChain(bs, count);
            var ptr := At(bs[i].Payload());
            && out != ptr && WellFormed(FreeChain(grown, ptr), len)
            && exists b: Block :: b !in Used(bs) && Used(FreeChain(grown, ptr)) == OtherLive(bs, ptr) + {b}
                 && out == At(b.Payload()) && count <= b.Size() <= Rounded(count) + 8
  {
    AllocKeeps(bs, len, count);
    RoundedUp(count);
    var (grown, out) := AllocChain(bs, count);
    var ptr := At(bs[i].Payload());
    FreeKeeps(grown, len, ptr);
    var b: Block :| b !in Used(bs) && Used(grown) == Used(bs) + {b}
             && out == At(b.Payload()) && Rounded(count) <= b.Size() <= Rounded(count) + 8;
    assert bs[i] in bs && bs[i] in Used(grown) && b in Used(grown);
    PayloadsDiffer(grown, len, bs[i], b);
    OthersGrow(bs, grown, ptr, b);
  }

  lemma PayloadsDiffer(bs: Chain, len: nat, a: Block, b: Block)
    requires WellFormed(bs, len) && a in Used(bs) && b in Used(bs) && a != b
    ensures a.Payload() != b.Payload()
  {
    Disjoint(bs, 0, len);
  }

  lemma OthersGrow(bs: Chain, grown: Chain, ptr: Ptr, b: Block)
    requires Used(grown) == Used(bs) + {b} && ptr != At(b.Payload())
    ensures OtherLive(grown, ptr) == OtherLive(bs, ptr) + {b}
  {
  }

  // ---------------------------------------------------------------- which answer a call gives

  // Nothing was asked for, or no free block is large enough.
  ghost predicate NoRoom(bs: Chain, need: nat) {
    need == 0 || forall b :: b in bs ==> b.used || b.Size() < need
  }

  // The payload of the lowest free block that is large enough.
  ghost predicate FirstRoom(bs: Chain, need: nat, r: Ptr) {
    exists x ::
      x in bs && Roomy(x, need) && r == At(x.Payload()) && forall y :: y in bs && Roomy(y, need) ==> x.at <= y.at
  }

  ghost predicate Roomy(x: Block, need: nat) { !x.used && x.Size() >= need }

  ghost predicate LiveAt(bs: Chain, ptr: Ptr, b: Block) { b in Used(bs) && ptr == At(b.Payload()) }

  // A request is answered with NULL exactly when there is no room, and otherwise with
  // the first room there is.
  ghost predicate Answered(bs: Chain, count: nat, r: Ptr) {
    if NoRoom(bs, Rounded(count)) then r.Null? else FirstRoom(bs, Rounded(count), r)
  }

  lemma {:induction false} Ascending(bs: Chain, from: nat, to: nat, i: nat, j: nat)
    requires Tiles(bs, from, to) && i <= j < |bs|
    ensures from <= bs[i].at <= bs[j].at
    decreases |bs|
  {
    if i > 0 {
      Ascending(bs[1..], bs[0].End(), to, i - 1, j - 1);
    } else if j > 0 {
      Ascending(bs[1..], bs[0].End(), to, 0, j - 1);
    }
  }

  lemma AllocAnswers(bs: Chain, len: nat, count: nat)
    requires WellFormed(bs, len)
    ensures Answered(bs, count, AllocChain(bs, count).1)
  {
    AllocKeeps(bs, len, count);
    var n := Units(count);
    var i := FirstFit(bs, n);
    if n > 0 && i < |bs| {
      forall y | y in bs && Roomy(y, 8 * n) ensures bs[i].at <= y.at {
        var j :| 0 <= j < |bs| && bs[j] == y;
        assert Fits(y, n);
        Ascending(bs, 0, len, i, j);
      }
      assert bs[i] in bs && Roomy(bs[i], 8 * n);
    }
  }

  // A live block that is large enough stays where it is; a smaller one, like NULL, is
  // answered as a request of its own; any other pointer gives NULL.
  lemma ReallocAnswers(bs: Chain, len: nat, ptr: Ptr, count: nat)
    requires WellFormed(bs, len) && count < WORD
    ensures var r := ReallocChain(bs, ptr, count).1;
            && (ptr.Null? ==> Answered(bs, count, r))
            && (forall b :: LiveAt(bs, ptr, b) ==> if b.Size() >= count then r == ptr else Answered(bs, count, r))
            && (ptr.At? && (forall b :: !LiveAt(bs, ptr, b)) ==> r.Null?)
  {
    AllocAnswers(bs, len, count);
    var i := FindLive(bs, ptr);
    if i < |bs| {
      assert bs[i] in bs && LiveAt(bs, ptr, bs[i]);
      forall b | LiveAt(bs, ptr, b) ensures b == bs[i] {
        if b != bs[i] {
          PayloadsDiffer(bs, len, b, bs[i]);
          assert false;
        }
      }
    } else {
      forall b ensures !LiveAt(bs, ptr, b) { }
    }
  }

  // The product is asked for unless it does not fit 32 bits.
  lemma CallocAnswers(bs: Chain, len: nat, nmemb: nat, size: nat)
    requires WellFormed(bs, len) && nmemb < WORD && size < WORD
    ensures var (grown, r) := CallocChain(bs, nmemb, size);
            && WellFormed(grown, len)
            && (if nmemb * size >= WORD then r.Null? else Answered(bs, nmemb * size, r))
            && (r.Null? ==> grown == bs)
            && (r.At? ==> Enters(bs, grown, r, nmemb * size))
  {
    ProductFits(nmemb, size);
    if nmemb * size < WORD {
      AllocAnswers(bs, len, nmemb * size);
      AllocKeeps(bs, len, nmemb * size);
      RoundedUp(nmemb * size);
    }
  }

  // One new live block of at least this many bytes, at this pointer.
  ghost predicate Enters(bs: Chain, grown: Chain, r: Ptr, count: nat) {
    exists b: Block :: b !in Used(bs) && Used(grown) == Used(bs) + {b} && r == At(b.Payload())
      && count <= b.Size() <= Rounded(count) + 8
  }

  lemma ProductFits(nmemb: nat, size: nat)
    ensures nmemb != 0 && size > (WORD - 1) / nmemb <==> nmemb * size >= WORD
  {
    if nmemb > 0 {
      var q := (WORD - 1) / nmemb;
      assert nmemb * q <= WORD - 1 < nmemb * (q + 1);
      if size > q {
        Scale(q + 1, size, nmemb);
      } else {
        Scale(size, q, nmemb);
      }
    }
  }

  lemma Scale(a: nat, b: nat, need: nat)
    requires a <= b
    ensures a * need <= b * need
  {
  }

  // ---------------------------------------------------------------- runs

  lemma StepKeeps(bs: Chain, len: nat, op: Op)
    requires WellFormed(bs, len)
    ensures WellFormed(Step(bs, op), len)
  {
    match op
    case Alloc(count) => AllocKeeps(bs, len, count);
    case Calloc(nmemb, size) => if !(nmemb != 0 && size > (WORD - 1) / nmemb) { AllocKeeps(bs, len, nmemb * size); }
    case Realloc(ptr, count) =>
      AllocKeeps(bs, len, count);
      FreeKeeps(AllocChain(bs, count).0, len, ptr);
    case Free(ptr) => FreeKeeps(bs, len, ptr);
  }

  // Every reachable chain tiles the arena with no two adjacent free blocks.
  lemma {:induction false} RunKeeps(bs: Chain, len: nat, ops: seq<Op>)
    requires WellFormed(bs, len)
    ensures WellFormed(Run(bs, ops), len)
    decreases |ops|
  {
    if ops != [] {
      StepKeeps(bs, len, ops[0]);
      RunKeeps(Step(bs, ops[0]), len, ops[1..]);
    }
  }

  lemma SomeUsed(bs: Chain)
    requires |bs| >= 2 && FullyCoalesced(bs)
    ensures Used(bs) != {}
  {
    assert bs[0] in bs && bs[1] in bs;
    assert bs[0] in Used(bs) || bs[1] in Used(bs);
  }

  // With nothing live, coalescing has brought back the one initial block.
  lemma NothingLive(bs: Chain, len: nat)
    requires WellFormed(bs, len) && Used(bs) == {}
    ensures len >= HEADER && bs == Fresh(len)
  {
    assert forall b :: b in bs && b.used ==> b in Used(bs);
    if |bs| >= 2 {
      SomeUsed(bs);
      assert false;
    }
    assert bs[1..] == [] && bs == [bs[0]] && bs[0] in bs;
    assert Tiles(bs[1..], bs[0].End(), len);
  }

  function FreeEach(bs: Chain, ptrs: seq<Ptr>): Chain
    decreases |ptrs|
  {
    if ptrs == [] then bs else FreeEach(FreeChain(bs, ptrs[0]), ptrs[1..])
  }

  lemma {:induction false} FreeEachKeeps(bs: Chain, len: nat, ptrs: seq<Ptr>)
    requires WellFormed(bs, len)
    ensures WellFormed(FreeEach(bs, ptrs), len)
    ensures Used(FreeEach(bs, ptrs)) == set b | b in Used(bs) && At(b.Payload()) !in ptrs
    decreases |ptrs|
  {
    if ptrs != [] {
      FreeKeeps(bs, len, ptrs[0]);
      FreeEachKeeps(FreeChain(bs, ptrs[0]), len, ptrs[1..]);
      assert forall p :: p in ptrs <==> p == ptrs[0] || p in ptrs[1..];
    }
  }

  // After any run, giving back every live pointer in any order (repeats allowed)
  // restores one free block of len - 8 bytes.
  lemma Recovery(len: nat, ops: seq<Op>, order: seq<Ptr>)
    requires ArenaLength(len)
    requires forall b :: b in Used(Run(Fresh(len), ops)) ==> At(b.Payload()) in order
    ensures FreeEach(Run(Fresh(len), ops), order) == Fresh(len)
  {
    FreshIsWellFormed(len);
    RunKeeps(Fresh(len), len, ops);
    FreeEachKeeps(Run(Fresh(len), ops), len, order);
    NothingLive(FreeEach(Run(Fresh(len), ops), order), len);
  }

  lemma FreshIsWellFormed(len: nat)
    requires ArenaLength(len)
    ensures WellFormed(Fresh(len), len)
  {
    assert Tiles(Fresh(len)[1..], len, len);
  }

  // ---------------------------------------------------------------- capacity

  // Bytes taken by live blocks, headers included.
  function UsedBytes(bs: Chain): nat {
    if bs == [] then 0
    else (if bs[0].used then bs[0].Size() + HEADER else 0) + UsedBytes(bs[1..])
  }

  function FreeCount(bs: Chain): nat {
    if bs == [] then 0 else (if bs[0].used then 0 else 1) + FreeCount(bs[1..])
  }

  lemma {:induction false} UsedCount(bs: Chain, from: nat, to: nat)
    requires Tiles(bs, from, to)
    ensures |Used(bs)| == |bs| - FreeCount(bs)
    decreases |bs|
  {
    if bs != [] {
      UsedCount(bs[1..], bs[0].End(), to);
      Bounds(bs[1..], bs[0].End(), to);
      assert bs == [bs[0]] + bs[1..];
      UsedConcat([bs[0]], bs[1..]);
      assert Used([bs[0]]) == if bs[0].used then {bs[0]} else {};
      assert bs[0] !in Used(bs[1..]);
    }
  }

  // At most one more free block than live blocks.
  lemma {:induction false} FewFree(bs: Chain)
    requires FullyCoalesced(bs)
    ensures 2 * FreeCount(bs) <= |bs| + 1
    ensures bs != [] && bs[0].used ==> 2 * FreeCount(bs) <= |bs|
    decreases |bs|
  {
    if |bs| >= 2 {
      FewFree(bs[1..]);
    }
  }

  // If no free block holds `need`, each takes at most `need` bytes with its header.
  lemma {:induction false} FreeSpaceBound(bs: Chain, from: nat, to: nat, need: nat)
    requires Tiles(bs, from, to)
    requires forall b :: b in bs ==> b.used || b.Size() + HEADER <= need
    ensures to - from <= UsedBytes(bs) + FreeCount(bs) * need
    decreases |bs|
  {
    if bs != [] {
      FreeSpaceBound(bs[1..], bs[0].End(), to, need);
      assert bs[0] in bs;
      if !bs[0].used {
        assert FreeCount(bs) * need == FreeCount(bs[1..]) * need + need;
      }
    }
  }

  // With k live blocks, a request whose rounded size times k + 1 is less than the
  // bytes not taken by live blocks is always met, however fragmented the arena is.
  lemma EnoughRoom(bs: Chain, len: nat, count: nat)
    requires WellFormed(bs, len) && Rounded(count) > 0
    requires (|Used(bs)| + 1) * Rounded(count) + UsedBytes(bs) < len
    ensures AllocChain(bs, count).1.At?
  {
    var need := Rounded(count);
    AllocKeeps(bs, len, count);
    if forall b :: b in bs ==> b.used || b.Size() < need {
      FreeSpaceBound(bs, 0, len, need);
      UsedCount(bs, 0, len);
      FewFree(bs);
      Scale(FreeCount(bs), |Used(bs)| + 1, need);
    }
  }

  // So is the enlargement of a live block, and a cleared block of that many bytes.
  lemma EnoughToMove(bs: Chain, len: nat, ptr: Ptr, count: nat)
    requires WellFormed(bs, len) && 0 < Rounded(count) && count < WORD
    requires (|Used(bs)| + 1) * Rounded(count) + UsedBytes(bs) < len
    requires ptr.Null? || exists b :: LiveAt(bs, ptr, b)
    ensures ReallocChain(bs, ptr, count).1.At?
    ensures forall nmemb: nat, size: nat :: nmemb < WORD && size < WORD && nmemb * size == count ==>
              CallocChain(bs, nmemb, size).1.At?
  {
    EnoughRoom(bs, len, count);
    forall nmemb: nat, size: nat | nmemb < WORD && size < WORD && nmemb * size == count
      ensures CallocChain(bs, nmemb, size).1.At?
    {
      ProductFits(nmemb, size);
    }
  }
}
