// Memory the DMA engine can reach, and the allocator that hands it out (consistent_alloc, consistent_free).
module DmaMemory {
  import opened FragmentRing

  // One allocation: where the processor sees it, its size, and where the DMA engine sees it.
  datatype Block = Block(start: int, size: nat, dmaAddr: int)

  predicate Fits(b: Block, memory: nat)
  {
    0 < b.size && 0 <= b.dmaAddr && b.dmaAddr + b.size <= memory
  }

  predicate Apart(a: Block, b: Block)
  {
    && (a.dmaAddr + a.size <= b.dmaAddr || b.dmaAddr + b.size <= a.dmaAddr)
    && (a.start + a.size <= b.start || b.start + b.size <= a.start)
  }

  predicate Inside(t: Transfer, b: Block)
  {
    t.addr < b.dmaAddr + b.size && b.dmaAddr < t.addr + t.size
  }

  // Live allocations lie in memory and do not overlap.
  ghost predicate Sound(live: set<Block>, memory: nat)
  {
    && (forall b {:trigger Fits(b, memory)} :: b in live ==> Fits(b, memory))
    && (forall a, b {:trigger Apart(a, b)} :: a in live && b in live && a != b ==> Apart(a, b))
  }

  datatype AllocResult = Failed | Allocated(block: Block)

  predicate Below(b: Block, top: nat)
  {
    b.start + b.size <= top && b.dmaAddr + b.size <= top
  }

  // The sizes asked for when a request for `from` pieces is repeated with one piece less each time, down to above `to`.
  function Tries(from: nat, to: nat, piece: nat): seq<nat>
  {
    if from <= to then [] else [from * piece] + Tries(from - 1, to, piece)
  }

  lemma {:induction false} TriesSnoc(from: nat, to: nat, piece: nat)
    requires to < from
    ensures Tries(from, to, piece) == Tries(from, to + 1, piece) + [(to + 1) * piece]
  {
    if from > to + 1 {
      TriesSnoc(from - 1, to, piece);
    }
  }

  // Each of them is at least as large as the last.
  lemma {:induction false} TriesAtLeast(from: nat, to: nat, piece: nat)
    ensures |Tries(from, to, piece)| == if from <= to then 0 else from - to
    ensures forall i :: 0 <= i < |Tries(from, to, piece)| ==> Tries(from, to, piece)[i] >= (to + 1) * piece
  {
    if from > to {
      TriesAtLeast(from - 1, to, piece);
      assert from * piece == (to + 1) * piece + (from - to - 1) * piece;
    }
  }

  class DmaHeap {
    const mem: array<bv8>
    var live: set<Block>
    // A generous allocator serves every request as long as it has memory it has never given out, which begins at `top`.
    const generous: bool
    var top: nat
    // The sizes of the DMA requests that were refused, and how many requests for descriptors were.
    ghost var refusals: seq<nat>
    ghost var denied: nat

    constructor (mem: array<bv8>, generous: bool)
      ensures Valid() && live == {} && this.mem == mem && this.generous == generous && top == 0 && refusals == [] && denied == 0
    {
      this.mem, this.generous := mem, generous;
      live, top := {}, 0;
      refusals, denied := [], 0;
    }

    ghost predicate Valid()
      reads this
    {
      && Sound(live, mem.Length)
      && (generous ==> forall b {:trigger Below(b, top)} {:trigger b in live} :: b in live ==> Below(b, top))
    }

    ghost predicate Holds(size: nat)
      reads this
    {
      generous && top + size <= mem.Length
    }

    // Any request may fail, unless the allocator is generous; one that succeeds gives memory nobody else has.
    method ConsistentAlloc(size: nat) returns (r: AllocResult)
      requires Valid() && 0 < size
      modifies this
      ensures Valid() && denied == old(denied)
      ensures r.Failed? ==> live == old(live) && refusals == old(refusals) + [size] && top == old(top)
      ensures r.Allocated? ==> r.block.size == size && r.block !in old(live) && live == old(live) + {r.block}
      ensures r.Allocated? ==> refusals == old(refusals) && (generous ==> top == old(top) + size)
      ensures old(Holds(size)) ==> r.Allocated?
    {
      var start: int := *;
      var dmaAddr: int := *;
      if generous {
        start, dmaAddr := top, top;
      }
      var block := Block(start, size, dmaAddr);
      if Fits(block, mem.Length) && block !in live && forall b | b in live :: Apart(b, block) {
        live := live + {block};
        top := if generous then top + size else top;
        return Allocated(block);
      }
      refusals := refusals + [size];
      return Failed;
    }

    // kmalloc, for the descriptors.
    method Kmalloc() returns (ok: bool)
      modifies this`denied
      ensures denied == if ok then old(denied) else old(denied) + 1
      ensures generous ==> ok
    {
      ok := *;
      ok := ok || generous;
      denied := if ok then denied else denied + 1;
    }

    // Giving back something that is not a live allocation, or that the DMA engine is still using, is ruled out here.
    method ConsistentFree(start: int, size: nat, dmaAddr: int, ghost inUse: seq<Transfer>)
      requires Valid() && Block(start, size, dmaAddr) in live
      requires forall t :: t in inUse ==> !Inside(t, Block(start, size, dmaAddr))
      modifies this`live
      ensures Valid() && live == old(live) - {Block(start, size, dmaAddr)}
    {
      live := live - {Block(start, size, dmaAddr)};
    }
  }
}
