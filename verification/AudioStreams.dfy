// audio_stream_t with audio_setup_buf and audio_clear_buf: carving a ring of fragments out of DMA allocations,
// and giving all of it back.
module AudioStreams {
  import opened Sequences
  import opened FragmentRing
  import opened DmaMemory
  import opened Errno

  // The allocations recorded in the descriptors.
  function MasterBlocks(bufs: seq<AudioBuf>): set<Block>
  {
    set i | 0 <= i < |bufs| && bufs[i].master != 0 :: Block(bufs[i].start, bufs[i].master, bufs[i].dmaAddr)
  }

  function MasterSizes(bufs: seq<AudioBuf>): (v: seq<nat>)
    ensures |v| == |bufs|
  {
    seq(|bufs|, i requires 0 <= i < |bufs| => bufs[i].master)
  }

  predicate DistinctBlocks(a: AudioBuf, b: AudioBuf)
  {
    a.master != 0 && b.master != 0 ==> a.dmaAddr != b.dmaAddr
  }

  ghost predicate MastersDistinct(bufs: seq<AudioBuf>)
  {
    forall i, j {:trigger DistinctBlocks(bufs[i], bufs[j])} :: 0 <= i < |bufs| && 0 <= j < |bufs| && i != j ==>
      DistinctBlocks(bufs[i], bufs[j])
  }

  // Fragment i lies in the allocation that begins at fragment h, at the same offset for processor and DMA engine.
  ghost predicate InMaster(bufs: seq<AudioBuf>, fragsize: nat, i: nat, h: nat)
    requires h <= i < |bufs|
  {
    && bufs[h].master != 0
    && 0 <= bufs[i].dmaAddr - bufs[h].dmaAddr == bufs[i].start - bufs[h].start
    && bufs[i].dmaAddr + fragsize <= bufs[h].dmaAddr + bufs[h].master
  }

  ghost predicate HasMaster(bufs: seq<AudioBuf>, fragsize: nat, i: nat)
    requires i < |bufs|
  {
    exists h :: 0 <= h <= i && InMaster(bufs, fragsize, i, h)
  }

  ghost predicate Backed(bufs: seq<AudioBuf>, fragsize: nat)
  {
    && (forall i {:trigger HasMaster(bufs, fragsize, i)} :: 0 <= i < |bufs| ==> HasMaster(bufs, fragsize, i))
    && Sum(MasterSizes(bufs)) == |bufs| * fragsize
  }

  lemma GeometryKeepsBlocks(a: seq<AudioBuf>, b: seq<AudioBuf>)
    requires SameGeometry(a, b)
    ensures MasterBlocks(b) == MasterBlocks(a)
    ensures MastersDistinct(a) ==> MastersDistinct(b)
  {
    forall i | 0 <= i < |a|
      ensures Block(b[i].start, b[i].master, b[i].dmaAddr) == Block(a[i].start, a[i].master, a[i].dmaAddr)
    {
      assert SamePlace(a[i], b[i]);
    }
    assert MasterBlocks(b) <= MasterBlocks(a);
    assert MasterBlocks(a) <= MasterBlocks(b);
    if MastersDistinct(a) {
      forall i, j | 0 <= i < |b| && 0 <= j < |b| && i != j ensures DistinctBlocks(b[i], b[j]) {
        assert SamePlace(a[i], b[i]) && SamePlace(a[j], b[j]) && DistinctBlocks(a[i], a[j]);
      }
    }
  }

  lemma GeometryKeepsBacked(a: seq<AudioBuf>, b: seq<AudioBuf>, fragsize: nat)
    requires SameGeometry(a, b) && Backed(a, fragsize)
    ensures Backed(b, fragsize)
  {
    forall i | 0 <= i < |b| ensures MasterSizes(a)[i] == MasterSizes(b)[i] && HasMaster(b, fragsize, i) {
      assert SamePlace(a[i], b[i]);
      assert HasMaster(a, fragsize, i);
      var h :| 0 <= h <= i && InMaster(a, fragsize, i, h);
      assert SamePlace(a[h], b[h]);
      assert InMaster(b, fragsize, i, h);
    }
    assert MasterSizes(a) == MasterSizes(b);
  }

  // Where the next fragment comes from: `left` bytes (dmasize) remain of the allocation in use.
  datatype Cursor = Cursor(dmabuf: int, dmaphys: int, left: nat)

  // The allocation in use begins at fragment h and ends where the cursor's bytes do.
  ghost predicate Window(b: seq<AudioBuf>, c: Cursor, h: nat)
  {
    && h < |b| && b[h].master != 0
    && 0 <= c.dmaphys - b[h].dmaAddr == c.dmabuf - b[h].start
    && c.dmaphys + c.left == b[h].dmaAddr + b[h].master
  }

  predicate OffRange(b: AudioBuf, fragsize: nat, at: int, size: nat)
  {
    b.dmaAddr + fragsize <= at || at + size <= b.dmaAddr
  }

  predicate Fresh(b: AudioBuf)
  {
    b.sem == 1 && b.size == 0
  }

  // No fragment so far reaches into these addresses.
  ghost predicate Clear(b: seq<AudioBuf>, fragsize: nat, at: int, size: nat)
  {
    forall i {:trigger OffRange(b[i], fragsize, at, size)} :: 0 <= i < |b| ==> OffRange(b[i], fragsize, at, size)
  }

  // What the carving loop of audio_setup_buf has built so far.
  ghost predicate Carving(b: seq<AudioBuf>, fragsize: nat, live: set<Block>, memory: nat, c: Cursor)
  {
    && 0 < fragsize && Sound(live, memory) && MasterBlocks(b) <= live
    && Carved(b, fragsize, memory)
    && (forall i {:trigger HasMaster(b, fragsize, i)} :: 0 <= i < |b| ==> HasMaster(b, fragsize, i))
    && (forall i {:trigger Fresh(b[i])} :: 0 <= i < |b| ==> Fresh(b[i]))
    && Sum(MasterSizes(b)) == |b| * fragsize + c.left
    && (c.left > 0 ==> (exists h: nat :: Window(b, c, h)) && Clear(b, fragsize, c.dmaphys, c.left))
  }

  // The pieces are whole multiples, so taking one leaves the rest.
  lemma PieceTaken(pieces: nat, fragsize: nat)
    requires 0 < pieces
    ensures (pieces - 1) * fragsize == pieces * fragsize - fragsize
    ensures fragsize <= pieces * fragsize
  {
    assert pieces * fragsize == (pieces - 1) * fragsize + fragsize;
  }

  lemma MastersKeep(b: seq<AudioBuf>, fragsize: nat, x: AudioBuf)
    requires forall i {:trigger HasMaster(b, fragsize, i)} :: 0 <= i < |b| ==> HasMaster(b, fragsize, i)
    ensures forall i {:trigger HasMaster(b + [x], fragsize, i)} :: 0 <= i < |b| ==> HasMaster(b + [x], fragsize, i)
  {
    forall i | 0 <= i < |b| ensures HasMaster(b + [x], fragsize, i) {
      assert HasMaster(b, fragsize, i);
      var h :| 0 <= h <= i && InMaster(b, fragsize, i, h);
      assert InMaster(b + [x], fragsize, i, h);
    }
  }

  lemma MasterSizesSnoc(b: seq<AudioBuf>, x: AudioBuf)
    ensures Sum(MasterSizes(b + [x])) == Sum(MasterSizes(b)) + x.master
  {
    assert MasterSizes(b + [x]) == MasterSizes(b) + [x.master];
    SumConcat(MasterSizes(b), [x.master]);
    assert Sum([x.master]) == x.master + Sum([x.master][1..]);
  }

  lemma MasterBlocksAppend(b: seq<AudioBuf>, x: AudioBuf)
    ensures MasterBlocks(b + [x]) == MasterBlocks(b) + if x.master != 0 then {Block(x.start, x.master, x.dmaAddr)} else {}
  {
    var t := b + [x];
    forall i | 0 <= i < |b| ensures t[i] == b[i] {
    }
    assert t[|b|] == x;
    assert MasterBlocks(b) <= MasterBlocks(t);
  }

  lemma CarvedAppend(b: seq<AudioBuf>, fragsize: nat, memory: nat, x: AudioBuf)
    requires Carved(b, fragsize, memory) && Clear(b, fragsize, x.dmaAddr, fragsize) && InMemory(x, fragsize, memory)
    ensures Carved(b + [x], fragsize, memory)
  {
    var t := b + [x];
    forall i | 0 <= i < |t| ensures InMemory(t[i], fragsize, memory) {
      assert i < |b| ==> t[i] == b[i] && InMemory(b[i], fragsize, memory);
    }
    forall i, j | 0 <= i < |t| && 0 <= j < |t| && i != j ensures Disjoint(t[i], t[j], fragsize) {
      assert i < |b| ==> t[i] == b[i] && OffRange(b[i], fragsize, x.dmaAddr, fragsize);
      assert j < |b| ==> t[j] == b[j] && OffRange(b[j], fragsize, x.dmaAddr, fragsize);
      assert i < |b| && j < |b| ==> Disjoint(b[i], b[j], fragsize);
    }
  }

  lemma ClearAppend(b: seq<AudioBuf>, fragsize: nat, at: int, size: nat, x: AudioBuf)
    requires Clear(b, fragsize, at, size) && OffRange(x, fragsize, at, size)
    ensures Clear(b + [x], fragsize, at, size)
  {
    var t := b + [x];
    forall i | 0 <= i < |t| ensures OffRange(t[i], fragsize, at, size) {
      assert i < |b| ==> t[i] == b[i] && OffRange(b[i], fragsize, at, size);
    }
  }

  // What is clear of a stretch is clear of any part of it.
  lemma ClearPart(b: seq<AudioBuf>, fragsize: nat, at: int, size: nat, part: int, partSize: nat)
    requires Clear(b, fragsize, at, size) && at <= part && part + partSize <= at + size
    ensures Clear(b, fragsize, part, partSize)
  {
    forall i | 0 <= i < |b| ensures OffRange(b[i], fragsize, part, partSize) {
      assert OffRange(b[i], fragsize, at, size);
    }
  }

  lemma FreshAppend(b: seq<AudioBuf>, x: AudioBuf)
    requires Fresh(x) && forall i {:trigger Fresh(b[i])} :: 0 <= i < |b| ==> Fresh(b[i])
    ensures forall i {:trigger Fresh((b + [x])[i])} :: 0 <= i < |b + [x]| ==> Fresh((b + [x])[i])
  {
    forall i | 0 <= i < |b + [x]| ensures Fresh((b + [x])[i]) {
      assert i < |b| ==> (b + [x])[i] == b[i] && Fresh(b[i]);
    }
  }

  lemma WindowCarves(b: seq<AudioBuf>, fragsize: nat, live: set<Block>, memory: nat, c: Cursor, h: nat)
    requires Window(b, c, h) && fragsize <= c.left
    requires Sound(live, memory) && MasterBlocks(b) <= live
    ensures
      var x := AudioBuf(0, c.dmabuf, c.dmaphys, 1, 0);
      && InMaster(b + [x], fragsize, |b|, h)
      && Window(b + [x], Cursor(c.dmabuf + fragsize, c.dmaphys + fragsize, c.left - fragsize), h)
      && InMemory(x, fragsize, memory)
  {
    var home := Block(b[h].start, b[h].master, b[h].dmaAddr);
    assert home in live && Fits(home, memory);
  }

  // A fragment carved out of the allocation in use.
  lemma CarveNext(b: seq<AudioBuf>, fragsize: nat, live: set<Block>, memory: nat, c: Cursor)
    requires Carving(b, fragsize, live, memory, c) && fragsize <= c.left
    ensures Carving(b + [AudioBuf(0, c.dmabuf, c.dmaphys, 1, 0)], fragsize, live, memory,
                    Cursor(c.dmabuf + fragsize, c.dmaphys + fragsize, c.left - fragsize))
    ensures MasterBlocks(b + [AudioBuf(0, c.dmabuf, c.dmaphys, 1, 0)]) == MasterBlocks(b)
  {
    var x := AudioBuf(0, c.dmabuf, c.dmaphys, 1, 0);
    var d := Cursor(c.dmabuf + fragsize, c.dmaphys + fragsize, c.left - fragsize);
    MastersKeep(b, fragsize, x);
    MasterSizesSnoc(b, x);
    MasterBlocksAppend(b, x);
    PieceTaken(|b| + 1, fragsize);
    var h: nat :| Window(b, c, h);
    WindowCarves(b, fragsize, live, memory, c, h);
    assert HasMaster(b + [x], fragsize, |b|);
    FreshAppend(b, x);
    ClearPart(b, fragsize, c.dmaphys, c.left, c.dmaphys, fragsize);
    CarvedAppend(b, fragsize, memory, x);
    ClearPart(b, fragsize, c.dmaphys, c.left, d.dmaphys, d.left);
    ClearAppend(b, fragsize, d.dmaphys, d.left, x);
  }

  // A new allocation stays clear of every fragment carved so far.
  lemma NewBlockIsClear(b: seq<AudioBuf>, fragsize: nat, live: set<Block>, memory: nat, block: Block)
    requires MasterBlocks(b) <= live && block !in live && Sound(live + {block}, memory)
    requires forall i {:trigger HasMaster(b, fragsize, i)} :: 0 <= i < |b| ==> HasMaster(b, fragsize, i)
    ensures Clear(b, fragsize, block.dmaAddr, block.size)
  {
    forall i | 0 <= i < |b| ensures OffRange(b[i], fragsize, block.dmaAddr, block.size) {
      assert HasMaster(b, fragsize, i);
      var h :| 0 <= h <= i && InMaster(b, fragsize, i, h);
      var home := Block(b[h].start, b[h].master, b[h].dmaAddr);
      assert home in MasterBlocks(b) && home in live + {block} && home != block;
      assert block in live + {block};
      assert Apart(home, block);
    }
  }

  // The first fragment of a new allocation.
  lemma CarveMaster(b: seq<AudioBuf>, fragsize: nat, live: set<Block>, memory: nat, c: Cursor, block: Block)
    requires Carving(b, fragsize, live, memory, c) && c.left == 0
    requires block !in live && Sound(live + {block}, memory) && fragsize <= block.size
    ensures Carving(b + [AudioBuf(0, block.start, block.dmaAddr, 1, block.size)], fragsize, live + {block}, memory,
                    Cursor(block.start + fragsize, block.dmaAddr + fragsize, block.size - fragsize))
    ensures MasterBlocks(b + [AudioBuf(0, block.start, block.dmaAddr, 1, block.size)]) == MasterBlocks(b) + {block}
  {
    var x := AudioBuf(0, block.start, block.dmaAddr, 1, block.size);
    var d := Cursor(block.start + fragsize, block.dmaAddr + fragsize, block.size - fragsize);
    MastersKeep(b, fragsize, x);
    MasterSizesSnoc(b, x);
    MasterBlocksAppend(b, x);
    PieceTaken(|b| + 1, fragsize);
    assert block in live + {block} && Fits(block, memory);
    assert InMaster(b + [x], fragsize, |b|, |b|);
    assert HasMaster(b + [x], fragsize, |b|);
    assert Window(b + [x], d, |b|);
    FreshAppend(b, x);
    NewBlockIsClear(b, fragsize, live, memory, block);
    ClearPart(b, fragsize, block.dmaAddr, block.size, block.dmaAddr, fragsize);
    CarvedAppend(b, fragsize, memory, x);
    ClearPart(b, fragsize, block.dmaAddr, block.size, d.dmaphys, d.left);
    ClearAppend(b, fragsize, d.dmaphys, d.left, x);
  }

  lemma CarvedIsDistinct(bufs: seq<AudioBuf>, fragsize: nat, memory: nat)
    requires Carved(bufs, fragsize, memory) && 0 < fragsize
    ensures MastersDistinct(bufs)
  {
    forall i, j | 0 <= i < |bufs| && 0 <= j < |bufs| && i != j ensures DistinctBlocks(bufs[i], bufs[j]) {
      assert Disjoint(bufs[i], bufs[j], fragsize);
    }
  }

  // Since `before`, only requests for more than one fragment have been refused.
  ghost predicate Larger(before: seq<nat>, refusals: seq<nat>, fragsize: nat)
  {
    before <= refusals && forall i :: |before| <= i < |refusals| ==> refusals[i] > fragsize
  }

  // Since `before`, a request for a single fragment has been refused, as the last of all.
  ghost predicate Exhausted(before: seq<nat>, refusals: seq<nat>, fragsize: nat)
  {
    before <= refusals && |before| < |refusals| && refusals[|refusals| - 1] == fragsize
  }

  // There was no memory for the descriptors, or none for a single fragment.
  ghost predicate NoMemory(denied: nat, denied': nat, refusals: seq<nat>, refusals': seq<nat>, fragsize: nat)
  {
    denied' > denied || Exhausted(refusals, refusals', fragsize)
  }

  lemma TriesLarger(before: seq<nat>, pieces: nat, granted: nat, fragsize: nat)
    requires 0 < granted <= pieces && 0 < fragsize
    ensures Larger(before, before + Tries(pieces, granted, fragsize), fragsize)
  {
    TriesAtLeast(pieces, granted, fragsize);
    assert (granted + 1) * fragsize >= 2 * fragsize;
  }

  lemma TriesExhaust(before: seq<nat>, pieces: nat, fragsize: nat)
    requires 0 < pieces
    ensures Exhausted(before, before + Tries(pieces, 0, fragsize), fragsize)
  {
    TriesSnoc(pieces, 0, fragsize);
  }

  class AudioStream {
    const heap: DmaHeap
    var buffers: array?<AudioBuf>
    var bufIdx: nat
    var fragsize: nat
    var nbfrags: nat
    // What the DMA channel of this stream still has to do, oldest first.
    var queue: seq<Transfer>
    // The allocations this stream answers for.
    ghost var owned: set<Block>

    constructor (heap: DmaHeap)
      requires heap.Valid()
      ensures this.heap == heap && buffers == null && nbfrags == 0 && Owns()
    {
      this.heap := heap;
      buffers := null;
      bufIdx, fragsize, nbfrags := 0, 0, 0;
      queue := [];
      owned := {};
    }

    function View(): Ring
      requires buffers != null
      reads this, buffers
    {
      Ring(buffers[..], bufIdx, fragsize, queue)
    }

    // The descriptors record exactly the live allocations of this stream.
    ghost predicate Owns()
      reads this, buffers, heap
    {
      && heap.Valid()
      && owned <= heap.live
      && (buffers == null ==> owned == {} && queue == [])
      && (buffers != null ==>
            && buffers as object != heap.mem as object
            && nbfrags == buffers.Length
            && owned == MasterBlocks(buffers[..])
            && MastersDistinct(buffers[..]))
    }

    // The ring as audio_setup_buf leaves it.
    ghost predicate SetUp()
      reads this, buffers, heap
    {
      && Owns() && buffers != null
      && 0 < buffers.Length && 0 < fragsize
      && Carved(buffers[..], fragsize, heap.mem.Length)
      && Backed(buffers[..], fragsize)
    }

    // Nothing but sizes, semaphores, the queue and the position has changed since.
    twostate predicate OnlyFlowed()
      reads this, buffers, heap.mem
    {
      && heap.mem[..] == old(heap.mem[..])
      && buffers == old(buffers) && buffers != null
      && fragsize == old(fragsize) && nbfrags == old(nbfrags) && owned == old(owned)
      && SameGeometry(old(buffers[..]), buffers[..])
    }

    twostate lemma SetUpKept()
      requires old(SetUp()) && unchanged(heap)
      requires buffers == old(buffers) && fragsize == old(fragsize) && nbfrags == old(nbfrags) && owned == old(owned)
      requires SameGeometry(old(buffers[..]), buffers[..])
      ensures SetUp()
    {
      GeometryKeepsBlocks(old(buffers[..]), buffers[..]);
      GeometryKeepsBacked(old(buffers[..]), buffers[..], fragsize);
      GeometryKeepsCarved(old(buffers[..]), buffers[..], fragsize, heap.mem.Length);
    }

    // down on the current fragment, when that does not block
    method TakeCurrent()
      requires SetUp() && bufIdx < buffers.Length && buffers[bufIdx].sem > 0
      modifies buffers
      ensures OnlyFlowed() && SetUp()
      ensures View() == Take(old(View()))
    {
      buffers[bufIdx] := buffers[bufIdx].(sem := buffers[bufIdx].sem - 1);
      SetUpKept();
    }

    // up on the current fragment
    method GiveCurrent()
      requires SetUp() && bufIdx < buffers.Length
      modifies buffers
      ensures OnlyFlowed() && SetUp()
      ensures View() == Give(old(View()))
    {
      buffers[bufIdx] := buffers[bufIdx].(sem := buffers[bufIdx].sem + 1);
      SetUpKept();
    }

    // b->size += added
    method Grow(added: nat)
      requires SetUp() && bufIdx < buffers.Length
      modifies buffers
      ensures OnlyFlowed() && SetUp()
      ensures View() == Filled(old(View()), added)
    {
      buffers[bufIdx] := buffers[bufIdx].(size := buffers[bufIdx].size + added);
      SetUpKept();
    }

    // b->size -= taken
    method Shrink(taken: nat)
      requires SetUp() && bufIdx < buffers.Length && taken <= buffers[bufIdx].size
      modifies buffers
      ensures OnlyFlowed() && SetUp()
      ensures View() == Drained(old(View()), taken)
    {
      buffers[bufIdx] := buffers[bufIdx].(size := buffers[bufIdx].size - taken);
      SetUpKept();
    }

    // Queue `size` bytes of the current fragment, set its size to `left` and go on to the next (NEXT_BUF).
    method QueueAndAdvance(size: nat, left: nat)
      requires SetUp() && bufIdx < buffers.Length
      modifies this, buffers
      ensures OnlyFlowed() && SetUp()
      ensures View() == Submit(old(View()), size, left)
    {
      queue := queue + [Transfer(bufIdx, buffers[bufIdx].dmaAddr, size)];
      buffers[bufIdx] := buffers[bufIdx].(size := left);
      ModuloIsWrap(bufIdx + 1, nbfrags);
      bufIdx := bufIdx + 1;
      bufIdx := bufIdx % nbfrags;
      SetUpKept();
    }

    // The fragment before the current one.
    method LastFragment() returns (last: nat)
      requires SetUp() && bufIdx < buffers.Length
      ensures last < buffers.Length && last == Wrap(buffers.Length + bufIdx - 1, buffers.Length)
    {
      ModuloIsWrap(nbfrags + bufIdx - 1, nbfrags);
      last := (nbfrags + bufIdx - 1) % nbfrags;
    }

    // The DMA channel finishes its oldest request: the callback stores `size` and ups the semaphore.
    method CompleteOldest(size: nat)
      requires SetUp() && queue != [] && queue[0].frag < buffers.Length
      modifies this, buffers
      ensures OnlyFlowed() && SetUp() && bufIdx == old(bufIdx)
      ensures View() == Complete(old(View()), size)
    {
      var f := queue[0].frag;
      queue := queue[1..];
      buffers[f] := buffers[f].(size := size);
      buffers[f] := buffers[f].(sem := buffers[f].sem + 1);
      SetUpKept();
    }

    // Flush the DMA channel, then give back every allocation, each once and whole.
    method ClearBuf()
      requires Owns()
      modifies this, heap`live
      ensures Owns() && buffers == null && queue == [] && owned == {} && bufIdx == 0
      ensures heap.live == old(heap.live) - old(owned)
      ensures fragsize == old(fragsize) && nbfrags == old(nbfrags)
    {
      queue := [];
      if buffers != null {
        ghost var bufs := buffers[..];
        var frag := 0;
        while frag < nbfrags
          invariant 0 <= frag <= nbfrags && buffers != null && nbfrags == buffers.Length && buffers[..] == bufs
          invariant buffers as object != heap.mem as object
          invariant heap.Valid() && queue == [] && fragsize == old(fragsize) && nbfrags == old(nbfrags)
          invariant heap.live == old(heap.live) - MasterBlocks(bufs[..frag])
        {
          MasterBlocksSnoc(bufs, frag);
          if buffers[frag].master != 0 {
            heap.ConsistentFree(buffers[frag].start, buffers[frag].master, buffers[frag].dmaAddr, queue);
          }
          frag := frag + 1;
        }
        assert bufs[..frag] == bufs;
        buffers := null;
        owned := {};
      }
      bufIdx := 0;
    }

    // Ask for `pieces` fragments in one allocation, and for one fragment less each time that fails, down to a single one.
    method AllocMaster(pieces: nat) returns (r: AllocResult, granted: nat)
      requires heap.Valid() && 0 < pieces && 0 < fragsize
      modifies heap
      ensures heap.Valid() && heap.denied == old(heap.denied)
      ensures r.Failed? ==> heap.live == old(heap.live) && heap.refusals == old(heap.refusals) + Tries(pieces, 0, fragsize)
      ensures r.Allocated? ==>
                && 0 < granted <= pieces && r.block.size == granted * fragsize
                && r.block !in old(heap.live) && heap.live == old(heap.live) + {r.block}
                && heap.refusals == old(heap.refusals) + Tries(pieces, granted, fragsize)
      ensures old(heap.Holds(pieces * fragsize)) ==>
                r.Allocated? && granted == pieces && heap.top == old(heap.top) + pieces * fragsize
    {
      granted := pieces;
      var dmasize := pieces * fragsize;
      ghost var before := heap.refusals;
      while true
        invariant heap.Valid() && heap.live == old(heap.live) && heap.denied == old(heap.denied)
        invariant 0 < granted <= pieces && dmasize == granted * fragsize
        invariant heap.refusals == before + Tries(pieces, granted, fragsize)
        invariant granted < pieces ==> !old(heap.Holds(pieces * fragsize))
        invariant granted == pieces ==> heap.top == old(heap.top)
        decreases granted
      {
        PieceTaken(granted, fragsize);
        TriesSnoc(pieces, granted - 1, fragsize);
        r := heap.ConsistentAlloc(dmasize);
        if r.Allocated? {
          return;
        }
        assert before + Tries(pieces, granted, fragsize) + [dmasize] == before + Tries(pieces, granted - 1, fragsize);
        dmasize, granted := dmasize - fragsize, granted - 1;
        if dmasize == 0 {
          return;
        }
      }
    }

    // audio_setup_buf. The outcome is 0, -EBUSY or -ENOMEM, whichever allocations fail; -ENOMEM only if there is no memory for
    // the descriptors or none for a single fragment.
    method SetupBuf(audioNbfrags: nat, audioFragsize: nat) returns (err: int)
      requires Owns() && 0 < audioNbfrags && 0 < audioFragsize
      modifies this, heap
      ensures old(buffers) != null ==>
                err == -EBUSY && Owns() && buffers == old(buffers) && heap.live == old(heap.live) && View() == old(View())
                && owned == old(owned) && nbfrags == old(nbfrags) && heap.refusals == old(heap.refusals) && heap.denied == old(heap.denied)
      ensures old(buffers) == null ==> (err == 0 || err == -ENOMEM) && nbfrags == audioNbfrags
      ensures err == 0 ==>
                && SetUp() && fresh(buffers) && buffers.Length == audioNbfrags && fragsize == audioFragsize
                && bufIdx == 0 && queue == []
                && (forall i {:trigger Fresh(buffers[i])} :: 0 <= i < buffers.Length ==> Fresh(buffers[i]))
                && heap.live == old(heap.live) + owned && owned !! old(heap.live)
      ensures err == -ENOMEM ==> Owns() && buffers == null && owned == {} && heap.live == old(heap.live)
      ensures err == -ENOMEM <==> NoMemory(old(heap.denied), heap.denied, old(heap.refusals), heap.refusals, audioFragsize)
      ensures old(heap.refusals) <= heap.refusals && old(heap.denied) <= heap.denied
      ensures old(buffers) == null && old(heap.Holds(audioNbfrags * audioFragsize)) ==> err == 0
    {
      if buffers != null {
        return -EBUSY;
      }
      nbfrags, fragsize := audioNbfrags, audioFragsize;
      ghost var refused := heap.refusals;
      var memoryForDescriptors := heap.Kmalloc();
      if !memoryForDescriptors {
        ClearBuf();
        return -ENOMEM;
      }
      buffers := new AudioBuf[nbfrags](_ => AudioBuf(0, 0, 0, 0, 0));
      var carved := CarveAll();
      if !carved {
        ClearBuf();
        return -ENOMEM;
      }
      bufIdx := 0;
      return 0;
    }

    // The carving loop: true when every fragment has memory, false when an allocation of a single fragment failed.
    method CarveAll() returns (ok: bool)
      requires heap.Valid() && owned == {} && queue == [] && buffers != null && buffers as object != heap.mem as object
      requires nbfrags == buffers.Length && 0 < nbfrags && 0 < fragsize
      requires forall i :: 0 <= i < nbfrags ==> buffers[i] == AudioBuf(0, 0, 0, 0, 0)
      modifies this`owned, buffers, heap
      ensures Owns()
      ensures heap.live == old(heap.live) + owned && owned !! old(heap.live)
      ensures ok ==> SetUp()
      ensures ok ==> forall i {:trigger Fresh(buffers[i])} :: 0 <= i < nbfrags ==> Fresh(buffers[i])
      ensures heap.denied == old(heap.denied)
      ensures if ok then Larger(old(heap.refusals), heap.refusals, fragsize) else Exhausted(old(heap.refusals), heap.refusals, fragsize)
      ensures old(heap.Holds(nbfrags * fragsize)) ==> ok
    {
      var c := Cursor(0, 0, 0);
      ghost var pieces: nat := 0;
      ghost var refused := heap.refusals;
      ghost var plenty := heap.Holds(nbfrags * fragsize);
      var frag := 0;
      while frag < nbfrags
        invariant 0 <= frag <= nbfrags && c.left == pieces * fragsize && pieces <= nbfrags - frag
        invariant forall i :: frag <= i < nbfrags ==> buffers[i] == AudioBuf(0, 0, 0, 0, 0)
        invariant Carving(buffers[..frag], fragsize, heap.live, heap.mem.Length, c)
        invariant owned == MasterBlocks(buffers[..frag])
        invariant heap.live == old(heap.live) + owned && owned !! old(heap.live)
        invariant heap.Valid() && heap.denied == old(heap.denied) && Larger(refused, heap.refusals, fragsize)
        invariant plenty ==> if frag == 0 then heap.Holds(nbfrags * fragsize) && pieces == 0 else pieces == nbfrags - frag
      {
        ghost var live, mine, before := heap.live, owned, heap.refusals;
        ok, c, pieces := CarveFragment(frag, c, pieces);
        assert ok ==> owned == mine + (owned - mine);
        if !ok {
          UnbuiltHasNoMaster(buffers[..], frag);
          CarvedIsDistinct(buffers[..frag], fragsize, heap.mem.Length);
          return false;
        }
        frag := frag + 1;
      }
      assert buffers[..frag] == buffers[..];
      CarvedIsDistinct(buffers[..], fragsize, heap.mem.Length);
      return true;
    }

    // One turn of the carving loop.
    method CarveFragment(frag: nat, c: Cursor, ghost pieces: nat) returns (ok: bool, next: Cursor, ghost rest: nat)
      requires buffers != null && frag < nbfrags == buffers.Length
      requires c.left == pieces * fragsize && pieces <= nbfrags - frag
      requires buffers[frag] == AudioBuf(0, 0, 0, 0, 0)
      requires Carving(buffers[..frag], fragsize, heap.live, heap.mem.Length, c)
      requires owned == MasterBlocks(buffers[..frag]) && heap.Valid()
      modifies this`owned, buffers, heap
      ensures heap.Valid() && heap.denied == old(heap.denied)
      ensures !ok ==> buffers[..] == old(buffers[..]) && heap.live == old(heap.live) && owned == old(owned)
      ensures ok ==> buffers[..] == old(buffers[..])[frag := buffers[frag]]
      ensures ok ==> next.left == rest * fragsize && rest <= nbfrags - frag - 1
      ensures ok ==> Carving(buffers[..frag + 1], fragsize, heap.live, heap.mem.Length, next)
      ensures ok ==> owned == MasterBlocks(buffers[..frag + 1])
      ensures ok ==> old(owned) <= owned && owned - old(owned) !! old(heap.live)
      ensures ok ==> heap.live == old(heap.live) + (owned - old(owned))
      ensures if ok then Larger(old(heap.refusals), heap.refusals, fragsize) else Exhausted(old(heap.refusals), heap.refusals, fragsize)
      ensures pieces > 0 ==> ok && rest == pieces - 1
      ensures pieces == 0 && old(heap.Holds((nbfrags - frag) * fragsize)) ==> ok && rest == nbfrags - frag - 1
    {
      var dmabuf, dmaphys, dmasize := c.dmabuf, c.dmaphys, c.left;
      rest := pieces;
      if dmasize == 0 {
        if pieces > 0 {
          PieceTaken(pieces, fragsize);
        }
        var r, granted := AllocMaster(nbfrags - frag);
        if r.Failed? {
          TriesExhaust(old(heap.refusals), nbfrags - frag, fragsize);
          return false, c, rest;
        }
        TriesLarger(old(heap.refusals), nbfrags - frag, granted, fragsize);
        PieceTaken(granted, fragsize);
        CarveMaster(buffers[..frag], fragsize, old(heap.live), heap.mem.Length, c, r.block);
        dmabuf, dmaphys, dmasize, rest := r.block.start, r.block.dmaAddr, r.block.size, granted;
        FillDescriptor(frag, dmabuf, dmaphys, dmasize);
        owned := owned + {r.block};
      } else {
        PieceTaken(pieces, fragsize);
        CarveNext(buffers[..frag], fragsize, heap.live, heap.mem.Length, c);
        FillDescriptor(frag, dmabuf, dmaphys, 0);
      }
      next := Cursor(dmabuf + fragsize, dmaphys + fragsize, dmasize - fragsize);
      rest := rest - 1;
      return true, next, rest;
    }

    method FillDescriptor(frag: nat, dmabuf: int, dmaphys: int, master: nat)
      requires buffers != null && frag < buffers.Length && buffers[frag] == AudioBuf(0, 0, 0, 0, 0)
      modifies buffers
      ensures buffers[..] == old(buffers[..])[frag := AudioBuf(0, dmabuf, dmaphys, 1, master)]
      ensures buffers[..frag + 1] == old(buffers[..frag]) + [AudioBuf(0, dmabuf, dmaphys, 1, master)]
    {
      buffers[frag] := buffers[frag].(master := master);
      buffers[frag] := buffers[frag].(start := dmabuf, dmaAddr := dmaphys);
      buffers[frag] := buffers[frag].(sem := 1);
    }
  }

  // Descriptors not reached yet record no allocation.
  lemma UnbuiltHasNoMaster(bufs: seq<AudioBuf>, frag: nat)
    requires frag <= |bufs| && forall i :: frag <= i < |bufs| ==> bufs[i].master == 0
    ensures MasterBlocks(bufs) == MasterBlocks(bufs[..frag])
    ensures MastersDistinct(bufs[..frag]) ==> MastersDistinct(bufs)
  {
    var b := bufs[..frag];
    forall i | 0 <= i < frag ensures b[i] == bufs[i] {
    }
    assert MasterBlocks(b) <= MasterBlocks(bufs);
    assert MasterBlocks(bufs) <= MasterBlocks(b);
    if MastersDistinct(b) {
      forall i, j | 0 <= i < |bufs| && 0 <= j < |bufs| && i != j ensures DistinctBlocks(bufs[i], bufs[j]) {
        assert i < frag && j < frag ==> DistinctBlocks(b[i], b[j]);
      }
    }
  }

  lemma MasterBlocksSnoc(bufs: seq<AudioBuf>, frag: nat)
    requires frag < |bufs| && MastersDistinct(bufs)
    ensures var block := Block(bufs[frag].start, bufs[frag].master, bufs[frag].dmaAddr);
            && MasterBlocks(bufs[..frag + 1]) == MasterBlocks(bufs[..frag]) + (if bufs[frag].master != 0 then {block} else {})
            && (bufs[frag].master != 0 ==> block in MasterBlocks(bufs) && block !in MasterBlocks(bufs[..frag]))
  {
    var a, b := bufs[..frag], bufs[..frag + 1];
    assert b == a + [bufs[frag]];
    MasterBlocksAppend(a, bufs[frag]);
    forall i | 0 <= i < frag ensures a[i] == bufs[i] && DistinctBlocks(a[i], bufs[frag]) {
      assert DistinctBlocks(bufs[i], bufs[frag]);
    }
  }
}
