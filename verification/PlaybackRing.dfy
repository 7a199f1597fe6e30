// The playback direction of the fragment ring: bytes accepted from the user, in order, reach the DMA channel.
module PlaybackRing {
  import opened Sequences
  import opened FragmentRing

  // `accepted`: every byte taken from the user so far. `played`: every byte the DMA channel has finished with.
  // `inflight[k]`: the bytes the DMA channel was given with queue[k].
  datatype Flow = Flow(accepted: seq<bv8>, inflight: seq<seq<bv8>>, played: seq<bv8>)

  // A whole number of stereo frames of four bytes.
  predicate Frames(n: nat)
  {
    if n < 4 then n == 0 else Frames(n - 4)
  }

  lemma {:induction false} FramesAreQuadruples(n: nat)
    ensures Frames(n) <==> n % 4 == 0
  {
    if n >= 4 {
      FramesAreQuadruples(n - 4);
    }
  }

  lemma {:induction false} QuadrupleIsFrames(n: nat)
    ensures Frames(4 * n)
  {
    if n > 0 {
      QuadrupleIsFrames(n - 1);
      assert 4 * n - 4 == 4 * (n - 1);
    }
  }

  lemma FramesAdd(a: nat, b: nat)
    requires Frames(a)
    ensures Frames(a + b) <==> Frames(b)
  {
    FramesAreQuadruples(a);
    FramesAreQuadruples(b);
    FramesAreQuadruples(a + b);
    assert a + b == 4 * (a / 4) + b;
  }

  ghost predicate CurrentInMemory(r: Ring, memory: nat)
  {
    r.idx < |r.bufs| && 0 <= r.bufs[r.idx].dmaAddr && r.bufs[r.idx].dmaAddr + r.bufs[r.idx].size <= memory
  }

  // The bytes waiting in the current fragment.
  function Partial(r: Ring, mem: seq<bv8>): seq<bv8>
    requires CurrentInMemory(r, |mem|)
  {
    mem[r.bufs[r.idx].dmaAddr..r.bufs[r.idx].dmaAddr + r.bufs[r.idx].size]
  }

  // Every byte on its way: played, given to the DMA channel, or waiting in the current fragment.
  function Traced(r: Ring, mem: seq<bv8>, flow: Flow): seq<bv8>
    requires CurrentInMemory(r, |mem|)
  {
    flow.played + Flatten(flow.inflight) + Partial(r, mem)
  }

  // Memory under a queued request still reads as it did when the request was queued.
  ghost predicate Untouched(t: Transfer, fragsize: nat, mem: seq<bv8>, bytes: seq<bv8>)
  {
    && 0 < t.size == |bytes| <= fragsize && 0 <= t.addr && t.addr + t.size <= |mem|
    && mem[t.addr..t.addr + t.size] == bytes
  }

  predicate EmptyUnlessCurrent(r: Ring, i: nat)
    requires i < |r.bufs|
  {
    i != r.idx ==> r.bufs[i].size == 0
  }

  ghost predicate Sizes(r: Ring, held: bool)
    requires r.idx < |r.bufs|
  {
    && 0 < r.fragsize && Frames(r.fragsize)
    && (forall i :: 0 <= i < |r.bufs| ==> EmptyUnlessCurrent(r, i))
    && r.bufs[r.idx].size <= r.fragsize && Frames(r.bufs[r.idx].size)
    && (!held ==> r.bufs[r.idx].size < r.fragsize)
    && (Free(r) == 0 ==> r.bufs[r.idx].size == 0)
  }

  ghost predicate Shaped(r: Ring, memory: nat, held: bool)
  {
    Owned(r, held) && Carved(r.bufs, r.fragsize, memory) && Sizes(r, held) && CurrentInMemory(r, memory)
  }

  ghost predicate InTransit(r: Ring, mem: seq<bv8>, inflight: seq<seq<bv8>>)
  {
    && |inflight| == |r.queue|
    && (forall k {:trigger Untouched(r.queue[k], r.fragsize, mem, inflight[k])} :: 0 <= k < |r.queue| ==>
          Untouched(r.queue[k], r.fragsize, mem, inflight[k]))
  }

  // The invariant of the output stream. Its last line is the refinement to a first-in first-out byte queue.
  ghost predicate Playing(r: Ring, mem: seq<bv8>, flow: Flow, held: bool)
  {
    && Shaped(r, |mem|, held)
    && InTransit(r, mem, flow.inflight)
    && flow.accepted == Traced(r, mem, flow)
  }

  // Room for bytes in the fragments the user side may fill; what SNDCTL_DSP_GETOSPACE reports.
  function Space(r: Ring): int
    requires r.idx < |r.bufs|
  {
    Whole(Free(r), r.fragsize) - r.bufs[r.idx].size
  }

  lemma SpaceIsThere(r: Ring, memory: nat, held: bool)
    requires Shaped(r, memory, held)
    ensures 0 <= Space(r)
  {
    if Free(r) > 0 {
      assert Whole(Free(r), r.fragsize) == Whole(Free(r) - 1, r.fragsize) + r.fragsize;
    }
  }

  lemma CurrentFits(r: Ring, memory: nat)
    requires Shaped(r, memory, true)
    ensures 0 <= r.bufs[r.idx].dmaAddr && r.bufs[r.idx].dmaAddr + r.fragsize <= memory
  {
    assert InMemory(r.bufs[r.idx], r.fragsize, memory);
  }

  // The rest of the held fragment is part of the room.
  lemma HeadIsRoom(r: Ring, memory: nat)
    requires Shaped(r, memory, true)
    ensures r.fragsize - r.bufs[r.idx].size <= Space(r)
  {
    assert Whole(Free(r), r.fragsize) == Whole(Free(r) - 1, r.fragsize) + r.fragsize;
  }

  // A freshly set up ring plays nothing.
  lemma FreshPlays(r: Ring, mem: seq<bv8>)
    requires r.idx == 0 < |r.bufs| && r.queue == [] && 0 < r.fragsize && Frames(r.fragsize)
    requires Carved(r.bufs, r.fragsize, |mem|)
    requires forall i {:trigger r.bufs[i]} :: 0 <= i < |r.bufs| ==> r.bufs[i].sem == 1 && r.bufs[i].size == 0
    ensures Playing(r, mem, Flow([], [], []), false)
    ensures Space(r) == |r.bufs| * r.fragsize
  {
    WholeIsProduct(|r.bufs|, r.fragsize);
    assert InMemory(r.bufs[0], r.fragsize, |mem|);
  }

  lemma TakePlays(r: Ring, mem: seq<bv8>, flow: Flow)
    requires Playing(r, mem, flow, false) && r.bufs[r.idx].sem > 0
    ensures Playing(Take(r), mem, flow, true) && Free(r) > 0
    ensures Space(Take(r)) == Space(r)
  {
    var t := Take(r);
    TakeKeeps(r);
    GeometryKeepsCarved(r.bufs, t.bufs, r.fragsize, |mem|);
    forall i | 0 <= i < |t.bufs| ensures EmptyUnlessCurrent(t, i) {
      assert EmptyUnlessCurrent(r, i);
    }
    forall k | 0 <= k < |t.queue| ensures Untouched(t.queue[k], t.fragsize, mem, flow.inflight[k]) {
      assert Untouched(r.queue[k], r.fragsize, mem, flow.inflight[k]);
    }
  }

  lemma GivePlays(r: Ring, mem: seq<bv8>, flow: Flow)
    requires Playing(r, mem, flow, true) && r.bufs[r.idx].size < r.fragsize
    ensures Playing(Give(r), mem, flow, false)
    ensures Space(Give(r)) == Space(r)
  {
    var t := Give(r);
    GiveKeeps(r);
    GeometryKeepsCarved(r.bufs, t.bufs, r.fragsize, |mem|);
    forall i | 0 <= i < |t.bufs| ensures EmptyUnlessCurrent(t, i) {
      assert EmptyUnlessCurrent(r, i);
    }
    forall k | 0 <= k < |t.queue| ensures Untouched(t.queue[k], t.fragsize, mem, flow.inflight[k]) {
      assert Untouched(r.queue[k], r.fragsize, mem, flow.inflight[k]);
    }
  }

  lemma FillKeepsShape(r: Ring, memory: nat, n: nat)
    requires Shaped(r, memory, true)
    requires r.bufs[r.idx].size + n <= r.fragsize && Frames(n)
    ensures Shaped(Filled(r, n), memory, true)
    ensures Space(Filled(r, n)) == Space(r) - n
  {
    var t := Filled(r, n);
    ResizeKeeps(r, t, true);
    GeometryKeepsCarved(r.bufs, t.bufs, r.fragsize, memory);
    CurrentFits(r, memory);
    FramesAdd(r.bufs[r.idx].size, n);
    forall i | 0 <= i < |t.bufs| ensures EmptyUnlessCurrent(t, i) {
      assert EmptyUnlessCurrent(r, i);
    }
  }

  // No queued fragment is touched by filling the current one.
  lemma FillLeavesQueued(r: Ring, mem: seq<bv8>, flow: Flow, bytes: seq<bv8>, k: nat)
    requires Playing(r, mem, flow, true) && k < |r.queue|
    requires r.bufs[r.idx].size + |bytes| <= r.fragsize
    ensures r.bufs[r.idx].dmaAddr + r.bufs[r.idx].size + |bytes| <= |mem|
    ensures Untouched(r.queue[k], r.fragsize, Splice(mem, r.bufs[r.idx].dmaAddr + r.bufs[r.idx].size, bytes), flow.inflight[k])
  {
    CurrentFits(r, |mem|);
    assert Untouched(r.queue[k], r.fragsize, mem, flow.inflight[k]);
    assert InPlace(r, k);
    var t := r.queue[k];
    assert t.frag != r.idx;
    assert Disjoint(r.bufs[t.frag], r.bufs[r.idx], r.fragsize);
    SpliceElsewhere(mem, r.bufs[r.idx].dmaAddr + r.bufs[r.idx].size, bytes, t.addr, t.size);
  }

  lemma FillExtends(r: Ring, mem: seq<bv8>, flow: Flow, bytes: seq<bv8>)
    requires Shaped(r, |mem|, true) && r.bufs[r.idx].size + |bytes| <= r.fragsize
    requires r.bufs[r.idx].dmaAddr + r.fragsize <= |mem|
    ensures Traced(Filled(r, |bytes|), Splice(mem, r.bufs[r.idx].dmaAddr + r.bufs[r.idx].size, bytes), flow)
            == Traced(r, mem, flow) + bytes
  {
    var after := Splice(mem, r.bufs[r.idx].dmaAddr + r.bufs[r.idx].size, bytes);
    assert Partial(Filled(r, |bytes|), after) == Partial(r, mem) + bytes;
  }

  lemma {:induction false} FillPlays(r: Ring, mem: seq<bv8>, flow: Flow, bytes: seq<bv8>)
    requires Playing(r, mem, flow, true)
    requires r.bufs[r.idx].size + |bytes| <= r.fragsize && Frames(|bytes|)
    ensures r.bufs[r.idx].dmaAddr + r.bufs[r.idx].size + |bytes| <= |mem|
    ensures Playing(Filled(r, |bytes|), Splice(mem, r.bufs[r.idx].dmaAddr + r.bufs[r.idx].size, bytes),
                    flow.(accepted := flow.accepted + bytes), true)
    ensures Space(Filled(r, |bytes|)) == Space(r) - |bytes|
  {
    CurrentFits(r, |mem|);
    FillKeepsShape(r, |mem|, |bytes|);
    var after := Splice(mem, r.bufs[r.idx].dmaAddr + r.bufs[r.idx].size, bytes);
    forall k | 0 <= k < |r.queue| ensures Untouched(r.queue[k], r.fragsize, after, flow.inflight[k]) {
      FillLeavesQueued(r, mem, flow, bytes, k);
    }
    FillExtends(r, mem, flow, bytes);
  }

  // Writing past the filled part of the held fragment, without counting it, changes nothing that matters.
  lemma JunkPlays(r: Ring, mem: seq<bv8>, flow: Flow, junk: seq<bv8>)
    requires Playing(r, mem, flow, true) && r.bufs[r.idx].size + |junk| <= r.fragsize
    ensures r.bufs[r.idx].dmaAddr + r.bufs[r.idx].size + |junk| <= |mem|
    ensures Playing(r, Splice(mem, r.bufs[r.idx].dmaAddr + r.bufs[r.idx].size, junk), flow, true)
  {
    CurrentFits(r, |mem|);
    var after := Splice(mem, r.bufs[r.idx].dmaAddr + r.bufs[r.idx].size, junk);
    forall k | 0 <= k < |r.queue| ensures Untouched(r.queue[k], r.fragsize, after, flow.inflight[k]) {
      FillLeavesQueued(r, mem, flow, junk, k);
    }
    assert Partial(r, after) == Partial(r, mem);
  }

  // The fragment the DMA channel finishes next; its size was reset when it was queued, and the callback leaves it so.
  function Oldest(r: Ring): Ring
    requires r.queue != [] && r.queue[0].frag < |r.bufs|
  {
    Complete(r, r.bufs[r.queue[0].frag].size)
  }

  function AfterCompletion(flow: Flow): Flow
    requires flow.inflight != []
  {
    Flow(flow.accepted, flow.inflight[1..], flow.played + flow.inflight[0])
  }

  lemma CompleteKeepsShape(r: Ring, memory: nat, held: bool)
    requires Shaped(r, memory, held) && r.queue != []
    ensures r.queue[0].frag == Slot(r, Free(r)) < |r.bufs|
    ensures Shaped(Oldest(r), memory, held)
    ensures Space(Oldest(r)) == Space(r) + r.fragsize
  {
    assert InPlace(r, 0);
    var size := r.bufs[r.queue[0].frag].size;
    CompleteKeeps(r, held, size);
    var t := Oldest(r);
    GeometryKeepsCarved(r.bufs, t.bufs, r.fragsize, memory);
    assert t.bufs[r.idx].size == r.bufs[r.idx].size && t.bufs[r.idx].dmaAddr == r.bufs[r.idx].dmaAddr;
    forall i | 0 <= i < |t.bufs| ensures EmptyUnlessCurrent(t, i) {
      assert EmptyUnlessCurrent(r, i);
    }
    assert Free(t) == Free(r) + 1;
  }

  lemma CompletionStep(r: Ring, mem: seq<bv8>, flow: Flow, held: bool)
    requires Playing(r, mem, flow, held) && r.queue != []
    ensures r.queue[0].frag < |r.bufs| && flow.inflight != []
    ensures Playing(Oldest(r), mem, AfterCompletion(flow), held)
    ensures Space(Oldest(r)) == Space(r) + r.fragsize
    ensures Oldest(r).idx == r.idx && Oldest(r).fragsize == r.fragsize && Oldest(r).queue == r.queue[1..]
    ensures Oldest(r).bufs[r.idx].size == r.bufs[r.idx].size
  {
    CompleteKeepsShape(r, |mem|, held);
    var t := Oldest(r);
    forall k | 0 <= k < |t.queue| ensures Untouched(t.queue[k], t.fragsize, mem, flow.inflight[1..][k]) {
      assert Untouched(r.queue[k + 1], r.fragsize, mem, flow.inflight[k + 1]);
    }
    assert Partial(t, mem) == Partial(r, mem);
  }

  lemma SubmitKeepsShape(r: Ring, memory: nat)
    requires Shaped(r, memory, true)
    ensures Shaped(Submit(r, r.bufs[r.idx].size, 0), memory, false)
    ensures Space(Submit(r, r.bufs[r.idx].size, 0)) == Space(r) - (r.fragsize - r.bufs[r.idx].size)
  {
    var size := r.bufs[r.idx].size;
    SubmitKeeps(r, size, 0);
    var t := Submit(r, size, 0);
    GeometryKeepsCarved(r.bufs, t.bufs, r.fragsize, memory);
    forall i | 0 <= i < |t.bufs| ensures EmptyUnlessCurrent(t, i) && t.bufs[i].size == 0 {
      assert EmptyUnlessCurrent(r, i);
    }
    assert InMemory(t.bufs[t.idx], t.fragsize, memory);
    assert Free(t) == Free(r) - 1;
  }

  lemma SubmitInTransit(r: Ring, mem: seq<bv8>, inflight: seq<seq<bv8>>)
    requires Shaped(r, |mem|, true) && InTransit(r, mem, inflight) && 0 < r.bufs[r.idx].size
    ensures InTransit(Submit(r, r.bufs[r.idx].size, 0), mem, inflight + [Partial(r, mem)])
  {
    var t := Submit(r, r.bufs[r.idx].size, 0);
    var after := inflight + [Partial(r, mem)];
    forall k | 0 <= k < |t.queue| ensures Untouched(t.queue[k], t.fragsize, mem, after[k]) {
      if k < |r.queue| {
        assert Untouched(r.queue[k], r.fragsize, mem, inflight[k]);
      } else {
        assert after[k] == Partial(r, mem);
      }
    }
  }

  lemma SubmitPlays(r: Ring, mem: seq<bv8>, flow: Flow)
    requires Playing(r, mem, flow, true) && 0 < r.bufs[r.idx].size
    ensures Playing(Submit(r, r.bufs[r.idx].size, 0), mem, flow.(inflight := flow.inflight + [Partial(r, mem)]), false)
    ensures Space(Submit(r, r.bufs[r.idx].size, 0)) == Space(r) - (r.fragsize - r.bufs[r.idx].size)
    ensures var t := Submit(r, r.bufs[r.idx].size, 0); t.idx < |t.bufs| && t.bufs[t.idx].size == 0
  {
    SubmitKeepsShape(r, |mem|);
    SubmitInTransit(r, mem, flow.inflight);
    FlattenAppend(flow.inflight, Partial(r, mem));
    var t := Submit(r, r.bufs[r.idx].size, 0);
    assert EmptyUnlessCurrent(r, t.idx);
    assert Partial(t, mem) == [];
  }

  // A writer that finds the current fragment taken has filled all the room there is; the fragment it waits for is the
  // next to complete, and then it is free.
  lemma BlockedHasNoRoom(r: Ring, memory: nat)
    requires Shaped(r, memory, false) && r.bufs[r.idx].sem == 0
    ensures Space(r) == 0
    ensures r.queue != [] && r.queue[0].frag == r.idx
    ensures Oldest(r).bufs[r.idx].sem == 1
  {
    WaitingForTheOldest(r);
  }

  // What `done` completions change: only the queue gets shorter, and as many fragments of room appear.
  ghost predicate Advanced(r: Ring, flow: Flow, r': Ring, flow': Flow, done: nat)
    requires r.idx < |r.bufs|
  {
    && r'.idx == r.idx < |r'.bufs| && r'.fragsize == r.fragsize && |r'.bufs| == |r.bufs|
    && r'.bufs[r.idx].size == r.bufs[r.idx].size
    && done <= |r.queue| && r'.queue == r.queue[done..]
    && flow'.accepted == flow.accepted && flow.played <= flow'.played
    && Space(r') == Space(r) + Whole(done, r.fragsize)
  }

  lemma AdvancedNone(r: Ring, flow: Flow)
    requires r.idx < |r.bufs|
    ensures Advanced(r, flow, r, flow, 0)
  {
  }

  lemma AdvancedThenTaken(r: Ring, flow: Flow, r': Ring, flow': Flow, done: nat)
    requires r.idx < |r.bufs| && Advanced(r, flow, r', flow', done) && r'.bufs[r'.idx].sem > 0
    ensures Advanced(r, flow, Take(r'), flow', done)
  {
  }

  lemma AdvancedMore(r: Ring, flow: Flow, r': Ring, flow': Flow, done: nat, mem: seq<bv8>, held: bool)
    requires r.idx < |r.bufs| && Advanced(r, flow, r', flow', done)
    requires Playing(r', mem, flow', held) && r'.queue != []
    ensures r'.queue[0].frag < |r'.bufs| && flow'.inflight != []
    ensures Advanced(r, flow, Oldest(r'), AfterCompletion(flow'), done + 1)
  {
    CompletionStep(r', mem, flow', held);
  }

  // Whatever the interleaving that led here: once no request is queued and no fragment is part filled, every byte ever
  // accepted has been played, in order; and at any time what has been played is a prefix of what was accepted.
  lemma PlayedInOrder(r: Ring, mem: seq<bv8>, flow: Flow, held: bool)
    requires Playing(r, mem, flow, held)
    ensures flow.played <= flow.accepted
    ensures flow.played == flow.accepted <==> r.queue == [] && r.bufs[r.idx].size == 0
  {
    assert flow.accepted == flow.played + (Flatten(flow.inflight) + Partial(r, mem));
    if r.queue != [] {
      assert Untouched(r.queue[0], r.fragsize, mem, flow.inflight[0]);
      assert |Flatten(flow.inflight)| >= |flow.inflight[0]| > 0;
    }
  }

  // A part filled fragment is never with the DMA channel, so taking it does not block.
  lemma PartFilledIsFree(r: Ring, memory: nat)
    requires Shaped(r, memory, false) && r.bufs[r.idx].size != 0
    ensures r.bufs[r.idx].sem > 0
  {
    assert Guarded(r, false, r.idx);
  }

  // A semaphore that is up counts one.
  lemma SemaphoreIsOne(r: Ring, i: nat)
    requires Owned(r, false) && i < |r.bufs| && r.bufs[i].sem > 0
    ensures r.bufs[i].sem == 1
  {
    assert Guarded(r, false, i);
  }

  lemma DownIsQueued(r: Ring, i: nat)
    requires Owned(r, false) && i < |r.bufs| && r.bufs[i].sem == 0
    ensures r.queue != []
  {
    assert Guarded(r, false, i);
  }

  // audio_sync looks at one fragment only, the one before the current one. That is enough.
  lemma LastFragmentTellsAll(r: Ring)
    requires Owned(r, false)
    ensures r.bufs[Wrap(|r.bufs| + r.idx - 1, |r.bufs|)].sem > 0 <==> r.queue == []
  {
    var last := Wrap(|r.bufs| + r.idx - 1, |r.bufs|);
    assert Ahead(r, last) == |r.bufs| - 1;
    assert Guarded(r, false, last);
  }

  // So once nothing is part filled, getting the last fragment back means that everything has been played.
  lemma LastFragmentEndsAll(r: Ring, mem: seq<bv8>, flow: Flow, last: nat)
    requires Playing(r, mem, flow, false)
    requires last == Wrap(|r.bufs| + r.idx - 1, |r.bufs|) && r.bufs[last].sem > 0 && r.bufs[r.idx].size == 0
    ensures r.queue == [] && flow.played == flow.accepted
  {
    LastFragmentTellsAll(r);
    PlayedInOrder(r, mem, flow, false);
  }

  lemma AdvancedChain(r0: Ring, f0: Flow, r1: Ring, f1: Flow, d1: nat, r2: Ring, f2: Flow, d2: nat)
    requires r0.idx < |r0.bufs| && Advanced(r0, f0, r1, f1, d1) && Advanced(r1, f1, r2, f2, d2)
    ensures Advanced(r0, f0, r2, f2, d1 + d2)
  {
    WholeAdd(d1, d2, r0.fragsize);
    SliceTwice(r0.queue, d1, d2);
  }

  // Room in one fragment, as the space query counts it.
  function RoomIn(r: Ring, i: nat): nat
    requires i < |r.bufs|
  {
    if r.bufs[i].sem > 0 && r.bufs[i].size <= r.fragsize then r.fragsize - r.bufs[i].size else 0
  }

  lemma SizeFits(r: Ring, memory: nat, i: nat)
    requires Shaped(r, memory, false) && i < |r.bufs|
    ensures r.bufs[i].size <= r.fragsize
  {
    assert EmptyUnlessCurrent(r, i);
  }

  function Rooms(r: Ring): (v: seq<nat>)
    ensures |v| == |r.bufs|
  {
    seq(|r.bufs|, i requires 0 <= i < |r.bufs| => RoomIn(r, i))
  }

  // 1 for a fragment that is free and wholly empty.
  function Idle(r: Ring, i: nat): nat
    requires i < |r.bufs|
  {
    if r.bufs[i].sem > 0 && r.bufs[i].size == 0 then 1 else 0
  }

  function Idles(r: Ring): (v: seq<nat>)
    ensures |v| == |r.bufs|
  {
    seq(|r.bufs|, i requires 0 <= i < |r.bufs| => Idle(r, i))
  }

  predicate MoreIn(r: Ring, r': Ring, i: nat)
    requires |r'.bufs| == |r.bufs| && i < |r.bufs|
  {
    RoomIn(r, i) <= RoomIn(r', i) && Idle(r, i) <= Idle(r', i)
  }

  // Completions only make room, in every fragment.
  lemma CompletionsMakeRoom(r: Ring, f: Flow, r': Ring, f': Flow, done: nat, memory: nat, i: nat)
    requires Shaped(r, memory, false) && Shaped(r', memory, false) && Advanced(r, f, r', f', done) && i < |r.bufs|
    ensures MoreIn(r, r', i)
  {
    assert Guarded(r, false, i) && Guarded(r', false, i) && EmptyUnlessCurrent(r, i) && EmptyUnlessCurrent(r', i);
  }

  // So what has been counted before some completions is no more than what would be counted after them.
  lemma CountsGrow(r: Ring, f: Flow, r': Ring, f': Flow, done: nat, memory: nat, n: nat)
    requires Shaped(r, memory, false) && Shaped(r', memory, false) && Advanced(r, f, r', f', done) && n <= |r.bufs|
    ensures Sum(Rooms(r)[..n]) <= Sum(Rooms(r')[..n]) && Sum(Idles(r)[..n]) <= Sum(Idles(r')[..n])
  {
    forall i | 0 <= i < n ensures Rooms(r)[i] <= Rooms(r')[i] && Idles(r)[i] <= Idles(r')[i] {
      CompletionsMakeRoom(r, f, r', f', done, memory, i);
    }
    SumGrows(Rooms(r)[..n], Rooms(r')[..n]);
    SumGrows(Idles(r)[..n], Idles(r')[..n]);
  }

  // Wholly empty free fragments.
  function IdleCount(r: Ring): int
    requires r.idx < |r.bufs|
  {
    Free(r) - if r.bufs[r.idx].size > 0 then 1 else 0
  }

  // Going round the ring from the current fragment: the rest of it, whole free fragments, then nothing.
  lemma RoomsFromCurrent(r: Ring, memory: nat, k: nat)
    requires Shaped(r, memory, false) && k < |r.bufs|
    ensures Rooms(r)[Slot(r, k)]
            == if k >= Free(r) then 0 else if k == 0 then r.fragsize - r.bufs[r.idx].size else r.fragsize
  {
    var i := Slot(r, k);
    assert Guarded(r, false, i) && EmptyUnlessCurrent(r, i);
  }

  // Summing the room of every fragment whose semaphore is up gives the room a writer finds.
  lemma RoomsAddUp(r: Ring, memory: nat)
    requires Shaped(r, memory, false)
    ensures Sum(Rooms(r)) == Space(r)
  {
    var v, f := Rooms(r), Free(r);
    var turned := v[r.idx..] + v[..r.idx];
    SumRotate(v, r.idx);
    forall k | 0 <= k < |v|
      ensures turned[k] == if k >= f then 0 else if k == 0 then r.fragsize - r.bufs[r.idx].size else r.fragsize
    {
      RoomsFromCurrent(r, memory, k);
      assert turned[k] == v[Slot(r, k)];
    }
    SumConcat(turned[..f], turned[f..]);
    assert turned == turned[..f] + turned[f..];
    SumConstant(turned[f..], 0);
    if f > 0 {
      SumConcat(turned[..1], turned[1..f]);
      assert turned[..f] == turned[..1] + turned[1..f];
      SumConstant(turned[..1], r.fragsize - r.bufs[r.idx].size);
      SumConstant(turned[1..f], r.fragsize);
      WholeIsProduct(f - 1, r.fragsize);
      assert Whole(f, r.fragsize) == Whole(f - 1, r.fragsize) + r.fragsize;
    }
  }

  lemma IdlesAddUp(r: Ring, memory: nat)
    requires Shaped(r, memory, false)
    ensures Sum(Idles(r)) == IdleCount(r)
  {
    var v, f := Idles(r), Free(r);
    var turned := v[r.idx..] + v[..r.idx];
    SumRotate(v, r.idx);
    forall k | 0 <= k < |v|
      ensures turned[k] == if k >= f || (k == 0 && r.bufs[r.idx].size > 0) then 0 else 1
    {
      assert Guarded(r, false, Slot(r, k)) && EmptyUnlessCurrent(r, Slot(r, k));
      assert turned[k] == v[Slot(r, k)];
    }
    SumConcat(turned[..f], turned[f..]);
    assert turned == turned[..f] + turned[f..];
    SumConstant(turned[f..], 0);
    if f > 0 {
      SumConcat(turned[..1], turned[1..f]);
      assert turned[..f] == turned[..1] + turned[1..f];
      SumConstant(turned[..1], if r.bufs[r.idx].size > 0 then 0 else 1);
      SumConstant(turned[1..f], 1);
    }
  }
}
