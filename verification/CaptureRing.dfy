// The capture direction of the fragment ring: bytes the DMA channel stores reach the user, in order.
module CaptureRing {
  import opened Sequences
  import opened FragmentRing

  // `captured`: every byte the DMA channel has stored. `ready[k]`: what is still unread in the fragment k places ahead.
  // `delivered`: every byte handed to the user.
  datatype Flow = Flow(captured: seq<bv8>, ready: seq<seq<bv8>>, delivered: seq<bv8>)

  // The unread tail of a fragment: what is left of it ends where the fragment ends.
  ghost predicate Unread(b: AudioBuf, fragsize: nat, mem: seq<bv8>, bytes: seq<bv8>)
  {
    && b.size == |bytes| <= fragsize && 0 <= b.dmaAddr && b.dmaAddr + fragsize <= |mem|
    && mem[b.dmaAddr + fragsize - b.size..b.dmaAddr + fragsize] == bytes
  }

  // Everything the DMA channel has stored, as far as it is delivered or ready.
  function Traced(flow: Flow): seq<bv8>
  {
    flow.delivered + Flatten(flow.ready)
  }

  predicate WholeRequest(r: Ring, k: nat)
    requires k < |r.queue|
  {
    r.queue[k].size == r.fragsize
  }

  ghost predicate Shaped(r: Ring, memory: nat, held: bool)
  {
    && Owned(r, held) && Carved(r.bufs, r.fragsize, memory)
    && 0 < r.fragsize
    && (forall k :: 0 <= k < |r.queue| ==> WholeRequest(r, k))
  }

  // What waits in the fragment k places ahead.
  ghost predicate Holds(r: Ring, mem: seq<bv8>, k: nat, bytes: seq<bv8>)
    requires r.idx < |r.bufs| && k < |r.bufs|
  {
    Unread(r.bufs[Slot(r, k)], r.fragsize, mem, bytes)
  }

  ghost predicate Waiting(r: Ring, mem: seq<bv8>, ready: seq<seq<bv8>>)
    requires r.idx < |r.bufs|
  {
    && |ready| == Free(r) <= |r.bufs|
    && (forall k {:trigger Holds(r, mem, k, ready[k])} :: 0 <= k < |ready| ==> Holds(r, mem, k, ready[k]))
  }

  // The invariant of the input stream. Its last line is the refinement to a first-in first-out byte queue.
  ghost predicate Capturing(r: Ring, mem: seq<bv8>, flow: Flow, held: bool)
  {
    && Shaped(r, |mem|, held)
    && Waiting(r, mem, flow.ready)
    && flow.captured == Traced(flow)
  }

  // Fragments that hold no data yet, as they are until the first round of the ring is queued.
  function Empties(ready: seq<seq<bv8>>): nat
  {
    if ready == [] then 0 else (if ready[0] == [] then 1 else 0) + Empties(ready[1..])
  }

  lemma {:induction false} EmptiesAppend(ready: seq<seq<bv8>>, x: seq<bv8>)
    ensures Empties(ready + [x]) == Empties(ready) + if x == [] then 1 else 0
  {
    if ready == [] {
      assert ready + [x] == [x];
    } else {
      EmptiesAppend(ready[1..], x);
      assert (ready + [x])[1..] == ready[1..] + [x];
    }
  }

  lemma {:induction false} AllEmpty(ready: seq<seq<bv8>>)
    requires forall k :: 0 <= k < |ready| ==> ready[k] == []
    ensures Flatten(ready) == []
  {
    if ready != [] {
      AllEmpty(ready[1..]);
    }
  }

  lemma FreshCaptures(r: Ring, mem: seq<bv8>)
    requires r.idx == 0 < |r.bufs| && r.queue == [] && 0 < r.fragsize
    requires Carved(r.bufs, r.fragsize, |mem|)
    requires forall i {:trigger r.bufs[i]} :: 0 <= i < |r.bufs| ==> r.bufs[i].sem == 1 && r.bufs[i].size == 0
    ensures Capturing(r, mem, Flow([], seq(|r.bufs|, _ => []), []), false)
  {
    AllEmpty(seq(|r.bufs|, _ => []));
    forall k | 0 <= k < |r.bufs| ensures Holds(r, mem, k, []) {
      assert InMemory(r.bufs[k], r.fragsize, |mem|);
      assert r.bufs[Slot(r, k)].size == 0;
    }
  }

  lemma TakeCaptures(r: Ring, mem: seq<bv8>, flow: Flow)
    requires Capturing(r, mem, flow, false) && r.bufs[r.idx].sem > 0
    ensures Capturing(Take(r), mem, flow, true) && Free(r) > 0
    ensures r.bufs[r.idx].size == |flow.ready[0]|
  {
    TakeKeeps(r);
    var t := Take(r);
    GeometryKeepsCarved(r.bufs, t.bufs, r.fragsize, |mem|);
    assert Holds(r, mem, 0, flow.ready[0]);
    forall k | 0 <= k < |t.queue| ensures WholeRequest(t, k) {
      assert WholeRequest(r, k);
    }
    forall k | 0 <= k < |flow.ready| ensures Holds(t, mem, k, flow.ready[k]) {
      assert Holds(r, mem, k, flow.ready[k]);
    }
  }

  lemma GiveCaptures(r: Ring, mem: seq<bv8>, flow: Flow)
    requires Capturing(r, mem, flow, true)
    ensures Capturing(Give(r), mem, flow, false)
  {
    GiveKeeps(r);
    var t := Give(r);
    GeometryKeepsCarved(r.bufs, t.bufs, r.fragsize, |mem|);
    forall k | 0 <= k < |t.queue| ensures WholeRequest(t, k) {
      assert WholeRequest(r, k);
    }
    forall k | 0 <= k < |flow.ready| ensures Holds(t, mem, k, flow.ready[k]) {
      assert Holds(r, mem, k, flow.ready[k]);
    }
  }

  // The held fragment holds the oldest unread bytes, and they lie in memory.
  lemma HeldIsOldest(r: Ring, mem: seq<bv8>, flow: Flow)
    requires Capturing(r, mem, flow, true)
    ensures |flow.ready| > 0 && |flow.ready[0]| == r.bufs[r.idx].size <= r.fragsize
    ensures 0 <= r.bufs[r.idx].dmaAddr && r.bufs[r.idx].dmaAddr + r.fragsize <= |mem|
    ensures mem[r.bufs[r.idx].dmaAddr + r.fragsize - r.bufs[r.idx].size..r.bufs[r.idx].dmaAddr + r.fragsize] == flow.ready[0]
  {
    assert Holds(r, mem, 0, flow.ready[0]);
  }

  function AfterDrain(flow: Flow, n: nat): Flow
    requires flow.ready != [] && n <= |flow.ready[0]|
  {
    Flow(flow.captured, [flow.ready[0][n..]] + flow.ready[1..], flow.delivered + flow.ready[0][..n])
  }

  lemma DrainTraced(flow: Flow, n: nat)
    requires flow.ready != [] && n <= |flow.ready[0]|
    ensures Traced(AfterDrain(flow, n)) == Traced(flow)
    ensures Flatten(flow.ready) == flow.ready[0][..n] + Flatten(AfterDrain(flow, n).ready)
  {
    var after := AfterDrain(flow, n).ready;
    assert after[1..] == flow.ready[1..];
    assert flow.ready[0] == flow.ready[0][..n] + flow.ready[0][n..];
  }

  // Reading n bytes of the current fragment hands over exactly the oldest n unread bytes.
  lemma DrainCaptures(r: Ring, mem: seq<bv8>, flow: Flow, n: nat)
    requires Capturing(r, mem, flow, true) && n <= r.bufs[r.idx].size
    ensures |flow.ready| > 0 && |flow.ready[0]| == r.bufs[r.idx].size
    ensures Capturing(Drained(r, n), mem, AfterDrain(flow, n), true)
  {
    HeldIsOldest(r, mem, flow);
    var t := Drained(r, n);
    ResizeKeeps(r, t, true);
    GeometryKeepsCarved(r.bufs, t.bufs, r.fragsize, |mem|);
    DrainTraced(flow, n);
    forall k | 0 <= k < |t.queue| ensures WholeRequest(t, k) {
      assert WholeRequest(r, k);
    }
    var after := AfterDrain(flow, n).ready;
    forall k | 0 <= k < |after| ensures Holds(t, mem, k, after[k]) {
      assert Holds(r, mem, k, flow.ready[k]);
      assert k > 0 ==> Slot(r, k) != r.idx && after[k] == flow.ready[k];
    }
  }

  // A fully read fragment goes back to the DMA channel.
  lemma SubmitCaptures(r: Ring, mem: seq<bv8>, flow: Flow)
    requires Capturing(r, mem, flow, true) && r.bufs[r.idx].size == 0
    ensures |flow.ready| > 0 && flow.ready[0] == []
    ensures Capturing(Submit(r, r.fragsize, 0), mem, flow.(ready := flow.ready[1..]), false)
  {
    HeldIsOldest(r, mem, flow);
    SubmitKeeps(r, r.fragsize, 0);
    var t := Submit(r, r.fragsize, 0);
    GeometryKeepsCarved(r.bufs, t.bufs, r.fragsize, |mem|);
    forall k | 0 <= k < |t.queue| ensures WholeRequest(t, k) {
      assert k < |r.queue| ==> WholeRequest(r, k);
    }
    var after := flow.ready[1..];
    forall k | 0 <= k < |after| ensures Holds(t, mem, k, after[k]) {
      assert Holds(r, mem, k + 1, flow.ready[k + 1]);
      assert Slot(t, k) == Slot(r, k + 1) != r.idx;
    }
  }

  // What a completion does to the flow.
  function AfterCompletion(flow: Flow, data: seq<bv8>): Flow
  {
    Flow(flow.captured + data, flow.ready + [data], flow.delivered)
  }

  // Storing into the fragment being completed leaves what is unread elsewhere.
  lemma StoreElsewhere(r: Ring, mem: seq<bv8>, f: nat, k: nat, data: seq<bv8>, bytes: seq<bv8>)
    requires Carved(r.bufs, r.fragsize, |mem|) && r.idx < |r.bufs| && f < |r.bufs| && k < |r.bufs| && Slot(r, k) != f
    requires |data| == r.fragsize && Holds(r, mem, k, bytes)
    ensures 0 <= r.bufs[f].dmaAddr && r.bufs[f].dmaAddr + |data| <= |mem|
    ensures Holds(r, Splice(mem, r.bufs[f].dmaAddr, data), k, bytes)
  {
    assert InMemory(r.bufs[f], r.fragsize, |mem|);
    assert Disjoint(r.bufs[f], r.bufs[Slot(r, k)], r.fragsize);
    var b := r.bufs[Slot(r, k)];
    SpliceElsewhere(mem, r.bufs[f].dmaAddr, data, b.dmaAddr + r.fragsize - b.size, b.size);
  }

  lemma CompleteWaiting(r: Ring, mem: seq<bv8>, ready: seq<seq<bv8>>, held: bool, data: seq<bv8>)
    requires Shaped(r, |mem|, held) && Waiting(r, mem, ready) && r.queue != [] && |data| == r.fragsize
    requires r.queue[0].frag == Slot(r, Free(r))
    ensures 0 <= r.bufs[r.queue[0].frag].dmaAddr && r.bufs[r.queue[0].frag].dmaAddr + |data| <= |mem|
    ensures Waiting(Complete(r, r.fragsize), Splice(mem, r.bufs[r.queue[0].frag].dmaAddr, data), ready + [data])
  {
    var f := r.queue[0].frag;
    assert InMemory(r.bufs[f], r.fragsize, |mem|);
    var t := Complete(r, r.fragsize);
    var after := ready + [data];
    var stored := Splice(mem, r.bufs[f].dmaAddr, data);
    forall k | 0 <= k < |after| ensures Holds(t, stored, k, after[k]) {
      if k < |ready| {
        assert Holds(r, mem, k, ready[k]);
        StoreElsewhere(r, mem, f, k, data, ready[k]);
      } else {
        assert Slot(t, k) == f;
        assert stored[r.bufs[f].dmaAddr..r.bufs[f].dmaAddr + r.fragsize] == data;
      }
    }
  }

  // The DMA channel stores a fragment's worth of data and calls back.
  lemma CompletionStep(r: Ring, mem: seq<bv8>, flow: Flow, held: bool, data: seq<bv8>)
    requires Capturing(r, mem, flow, held) && r.queue != [] && |data| == r.fragsize
    ensures r.queue[0].frag < |r.bufs| && r.queue[0].size == r.fragsize
    ensures 0 <= r.queue[0].addr && r.queue[0].addr + |data| <= |mem|
    ensures Capturing(Complete(r, r.fragsize), Splice(mem, r.queue[0].addr, data), AfterCompletion(flow, data), held)
    ensures held ==> Complete(r, r.fragsize).bufs[r.idx] == r.bufs[r.idx]
  {
    assert InPlace(r, 0) && WholeRequest(r, 0);
    CompleteKeeps(r, held, r.fragsize);
    var t := Complete(r, r.fragsize);
    GeometryKeepsCarved(r.bufs, t.bufs, r.fragsize, |mem|);
    forall k | 0 <= k < |t.queue| ensures WholeRequest(t, k) {
      assert WholeRequest(r, k + 1);
    }
    CompleteWaiting(r, mem, flow.ready, held, data);
    FlattenAppend(flow.ready, data);
  }

  // At any time, what the user has been given is a prefix of what was captured; and the two agree exactly when every
  // fragment the user side may look at is empty.
  lemma DeliveredInOrder(r: Ring, mem: seq<bv8>, flow: Flow, held: bool)
    requires Capturing(r, mem, flow, held)
    ensures flow.delivered <= flow.captured
    ensures flow.delivered == flow.captured <==> forall k :: 0 <= k < |flow.ready| ==> flow.ready[k] == []
  {
    if forall k :: 0 <= k < |flow.ready| ==> flow.ready[k] == [] {
      AllEmpty(flow.ready);
    } else {
      var k :| 0 <= k < |flow.ready| && flow.ready[k] != [];
      FlattenConcat(flow.ready[..k], flow.ready[k..]);
      assert flow.ready == flow.ready[..k] + flow.ready[k..];
      assert Flatten(flow.ready[k..]) == flow.ready[k] + Flatten(flow.ready[k..][1..]);
    }
  }

  // Whole fragments of samples, in the order in which they arrived.
  ghost predicate Fragments(arrived: seq<seq<bv8>>, fragsize: nat)
  {
    forall k :: 0 <= k < |arrived| ==> |arrived[k]| == fragsize
  }

  lemma FragmentsConcat(a: seq<seq<bv8>>, b: seq<seq<bv8>>, fragsize: nat)
    requires Fragments(a, fragsize) && Fragments(b, fragsize)
    ensures Fragments(a + b, fragsize)
  {
  }

  // `n` fragments' worth of bytes.
  lemma {:induction false} FragmentsLength(arrived: seq<seq<bv8>>, fragsize: nat)
    requires Fragments(arrived, fragsize)
    ensures |Flatten(arrived)| == Whole(|arrived|, fragsize)
  {
    if arrived != [] {
      FragmentsLength(arrived[1..], fragsize);
    }
  }

  function Caught(captured: seq<bv8>, arrived: seq<seq<bv8>>): seq<bv8>
  {
    captured + Flatten(arrived)
  }

  // The flow once these fragments have arrived: they become ready behind what is ready already.
  function Arrived(flow: Flow, arrived: seq<seq<bv8>>): Flow
  {
    Flow(Caught(flow.captured, arrived), flow.ready + arrived, flow.delivered)
  }

  lemma ArrivedOneMore(flow: Flow, arrived: seq<seq<bv8>>, data: seq<bv8>)
    ensures AfterCompletion(Arrived(flow, arrived), data) == Arrived(flow, arrived + [data])
  {
    FlattenAppend(arrived, data);
    assert flow.captured + Flatten(arrived) + data == flow.captured + (Flatten(arrived) + data);
    assert flow.ready + arrived + [data] == flow.ready + (arrived + [data]);
  }

  lemma CaughtMore(captured: seq<bv8>, a: seq<seq<bv8>>, b: seq<seq<bv8>>)
    ensures Caught(Caught(captured, a), b) == Caught(captured, a + b)
  {
    FlattenConcat(a, b);
    assert captured + Flatten(a) + Flatten(b) == captured + (Flatten(a) + Flatten(b));
  }

  // What the completions of the oldest |arrived| requests change.
  ghost predicate Advanced(r: Ring, flow: Flow, r': Ring, flow': Flow, arrived: seq<seq<bv8>>)
  {
    && r'.idx == r.idx && r'.fragsize == r.fragsize && |r'.bufs| == |r.bufs|
    && |arrived| <= |r.queue| && r'.queue == r.queue[|arrived|..]
    && Fragments(arrived, r.fragsize) && flow' == Arrived(flow, arrived)
  }

  lemma AdvancedNone(r: Ring, flow: Flow)
    ensures Advanced(r, flow, r, flow, [])
  {
    assert flow.captured + [] == flow.captured && flow.ready + [] == flow.ready;
  }

  lemma AdvancedMore(r: Ring, flow: Flow, r': Ring, flow': Flow, arrived: seq<seq<bv8>>, mem: seq<bv8>, held: bool, data: seq<bv8>)
    requires Advanced(r, flow, r', flow', arrived)
    requires Capturing(r', mem, flow', held) && r'.queue != [] && |data| == r'.fragsize
    ensures r'.queue[0].frag < |r'.bufs|
    ensures Advanced(r, flow, Complete(r', r'.fragsize), AfterCompletion(flow', data), arrived + [data])
  {
    CompletionStep(r', mem, flow', held, data);
    ArrivedOneMore(flow, arrived, data);
  }

  // What is left of a list of chunks once their first n bytes have been handed out. A chunk of which nothing is left goes.
  function Remaining(chunks: seq<seq<bv8>>, n: nat): seq<seq<bv8>>
  {
    if chunks == [] then []
    else if |chunks[0]| <= n then Remaining(chunks[1..], n - |chunks[0]|)
    else [chunks[0][n..]] + chunks[1..]
  }

  lemma {:induction false} RemainingTwice(chunks: seq<seq<bv8>>, n: nat, m: nat)
    ensures Remaining(Remaining(chunks, n), m) == Remaining(chunks, n + m)
  {
    if chunks != [] {
      if |chunks[0]| <= n {
        RemainingTwice(chunks[1..], n - |chunks[0]|, m);
      } else {
        var left := [chunks[0][n..]] + chunks[1..];
        assert left[1..] == chunks[1..];
        assert n + m < |chunks[0]| ==> chunks[0][n..][m..] == chunks[0][n + m..];
      }
    }
  }

  lemma RemainingAll(arrived: seq<seq<bv8>>, fragsize: nat)
    requires Fragments(arrived, fragsize) && 0 < fragsize
    ensures Remaining(arrived, 0) == arrived
  {
    if arrived != [] {
      assert arrived[0][0..] == arrived[0] && arrived == [arrived[0]] + arrived[1..];
    }
  }

  // Chunks that arrive later stay behind what is left.
  lemma {:induction false} RemainingAppend(chunks: seq<seq<bv8>>, arrived: seq<seq<bv8>>, fragsize: nat, n: nat)
    requires Fragments(arrived, fragsize) && 0 < fragsize && n <= |Flatten(chunks)|
    ensures Remaining(chunks + arrived, n) == Remaining(chunks, n) + arrived
  {
    if chunks == [] {
      assert chunks + arrived == arrived;
      RemainingAll(arrived, fragsize);
    } else {
      assert (chunks + arrived)[1..] == chunks[1..] + arrived;
      if |chunks[0]| <= n {
        RemainingAppend(chunks[1..], arrived, fragsize, n - |chunks[0]|);
      } else {
        assert [chunks[0][n..]] + (chunks[1..] + arrived) == [chunks[0][n..]] + chunks[1..] + arrived;
      }
    }
  }

  lemma {:induction false} RemainingLength(chunks: seq<seq<bv8>>, n: nat)
    requires n <= |Flatten(chunks)|
    ensures |Flatten(Remaining(chunks, n))| == |Flatten(chunks)| - n
  {
    if chunks != [] {
      if |chunks[0]| <= n {
        RemainingLength(chunks[1..], n - |chunks[0]|);
      } else {
        assert ([chunks[0][n..]] + chunks[1..])[1..] == chunks[1..];
      }
    }
  }

  // Where nothing is empty, nothing goes.
  lemma RemainingOfFull(chunks: seq<seq<bv8>>)
    requires Empties(chunks) == 0
    ensures Remaining(chunks, 0) == chunks
  {
    if chunks != [] {
      assert chunks[0][0..] == chunks[0] && chunks == [chunks[0]] + chunks[1..];
    }
  }

  lemma {:induction false} EmptiesConcat(ready: seq<seq<bv8>>, arrived: seq<seq<bv8>>, fragsize: nat)
    requires Fragments(arrived, fragsize) && 0 < fragsize
    ensures Empties(ready + arrived) == Empties(ready)
  {
    if ready == [] {
      assert ready + arrived == arrived;
      if arrived != [] {
        EmptiesConcat([], arrived[1..], fragsize);
        assert [] + arrived[1..] == arrived[1..];
      }
    } else {
      EmptiesConcat(ready[1..], arrived, fragsize);
      assert (ready + arrived)[1..] == ready[1..] + arrived;
    }
  }

  lemma AdvancedChain(r0: Ring, f0: Flow, r1: Ring, f1: Flow, a1: seq<seq<bv8>>, r2: Ring, f2: Flow, a2: seq<seq<bv8>>)
    requires Advanced(r0, f0, r1, f1, a1) && Advanced(r1, f1, r2, f2, a2)
    ensures Advanced(r0, f0, r2, f2, a1 + a2)
  {
    CaughtMore(f0.captured, a1, a2);
    SliceTwice(r0.queue, |a1|, |a2|);
    assert f0.ready + a1 + a2 == f0.ready + (a1 + a2);
  }

  // How many bytes of a list of chunks come in whole chunks, if no more than n are to be had.
  function Covered(chunks: seq<seq<bv8>>, n: nat): (c: nat)
    ensures c <= n
    ensures chunks != [] && chunks[0] != [] ==> (0 < c <==> |chunks[0]| <= n)
  {
    if chunks == [] || |chunks[0]| > n then 0 else |chunks[0]| + Covered(chunks[1..], n - |chunks[0]|)
  }

  // `ready` are the chunks left when the first p have been handed out, n bytes in all.
  ghost predicate AtChunk(chunks: seq<seq<bv8>>, ready: seq<seq<bv8>>, n: nat, p: nat)
  {
    p <= |chunks| && ready == chunks[p..] && n == |Flatten(chunks[..p])|
  }

  lemma AtFirstChunk(chunks: seq<seq<bv8>>)
    ensures AtChunk(chunks, chunks, 0, 0)
  {
    assert chunks[..0] == [] && chunks[0..] == chunks;
  }

  lemma AtChunkStill(chunks: seq<seq<bv8>>, ready: seq<seq<bv8>>, n: nat, p: nat, arrived: seq<seq<bv8>>)
    requires AtChunk(chunks, ready, n, p)
    ensures AtChunk(chunks + arrived, ready + arrived, n, p)
  {
    assert (chunks + arrived)[..p] == chunks[..p] && (chunks + arrived)[p..] == ready + arrived;
  }

  lemma AtNextChunk(chunks: seq<seq<bv8>>, ready: seq<seq<bv8>>, n: nat, p: nat)
    requires AtChunk(chunks, ready, n, p) && ready != []
    ensures AtChunk(chunks, ready[1..], n + |ready[0]|, p + 1)
  {
    FlattenAppend(chunks[..p], ready[0]);
    assert chunks[..p + 1] == chunks[..p] + [ready[0]];
  }

  lemma {:induction false} CoveredUpTo(chunks: seq<seq<bv8>>, ready: seq<seq<bv8>>, n: nat, p: nat, w: nat)
    requires AtChunk(chunks, ready, n, p) && ready != [] && n <= w < n + |ready[0]|
    ensures Covered(chunks, w) == n && n + |ready[0]| <= |Flatten(chunks)|
  {
    if p > 0 {
      var first := chunks[0];
      assert chunks[..p] == [first] + chunks[1..][..p - 1];
      assert Flatten(chunks[..p]) == first + Flatten(chunks[..p][1..]);
      assert chunks[..p][1..] == chunks[1..][..p - 1];
      CoveredUpTo(chunks[1..], ready, n - |first|, p - 1, w - |first|);
    }
  }

  // A reader that finds the current fragment taken has been given everything captured; the fragment it waits for is the
  // next to complete, and then it is free.
  lemma BlockedHasReadAll(r: Ring, mem: seq<bv8>, flow: Flow)
    requires Capturing(r, mem, flow, false) && r.bufs[r.idx].sem == 0
    ensures flow.ready == [] && flow.delivered == flow.captured
    ensures r.queue != [] && r.queue[0].frag == r.idx
    ensures Complete(r, r.fragsize).bufs[r.idx].sem == 1
  {
    WaitingForTheOldest(r);
  }

  // Unless the DMA channel holds every fragment, the current one can be taken at once.
  lemma FreeIsUp(r: Ring)
    requires Owned(r, false) && Free(r) > 0
    ensures r.bufs[r.idx].sem > 0
  {
    assert Guarded(r, false, r.idx);
  }

  // Unread bytes of one fragment, as SNDCTL_DSP_GETISPACE counts them.
  function UnreadIn(r: Ring, i: nat): nat
    requires i < |r.bufs|
  {
    if r.bufs[i].sem > 0 then r.bufs[i].size else 0
  }

  function Unreads(r: Ring): (v: seq<nat>)
    ensures |v| == |r.bufs|
  {
    seq(|r.bufs|, i requires 0 <= i < |r.bufs| => UnreadIn(r, i))
  }

  // Summing the sizes of the fragments whose semaphore is up gives what a reader finds.
  lemma UnreadsAddUp(r: Ring, mem: seq<bv8>, flow: Flow)
    requires Capturing(r, mem, flow, false)
    ensures Sum(Unreads(r)) == |Flatten(flow.ready)|
  {
    var v, f := Unreads(r), Free(r);
    var turned := v[r.idx..] + v[..r.idx];
    SumRotate(v, r.idx);
    forall k | 0 <= k < |v| ensures turned[k] == if k >= f then 0 else |flow.ready[k]| {
      assert Guarded(r, false, Slot(r, k));
      assert k < f ==> Holds(r, mem, k, flow.ready[k]);
      assert turned[k] == v[Slot(r, k)];
    }
    SumConcat(turned[..f], turned[f..]);
    assert turned == turned[..f] + turned[f..];
    SumConstant(turned[f..], 0);
    FlattenLength(flow.ready, turned[..f]);
  }

  predicate MoreIn(r: Ring, r': Ring, i: nat)
    requires |r'.bufs| == |r.bufs| && i < |r.bufs|
  {
    UnreadIn(r, i) <= UnreadIn(r', i) && FullFlag(r, i) <= FullFlag(r', i)
  }

  // Completions only bring data, in every fragment.
  lemma CompletionsBringData(r: Ring, mem: seq<bv8>, f: Flow, r': Ring, mem': seq<bv8>, f': Flow, arrived: seq<seq<bv8>>, i: nat)
    requires Capturing(r, mem, f, false) && Capturing(r', mem', f', false) && Advanced(r, f, r', f', arrived) && i < |r.bufs|
    ensures MoreIn(r, r', i)
  {
    assert Guarded(r, false, i) && Guarded(r', false, i);
    var k := Ahead(r, i);
    if k < Free(r) {
      assert Slot(r, k) == i == Slot(r', k);
      assert Holds(r, mem, k, f.ready[k]) && Holds(r', mem', k, f'.ready[k]) && f'.ready[k] == f.ready[k];
    }
  }

  // So what has been counted before some completions is no more than what would be counted after them.
  lemma CountsGrow(r: Ring, mem: seq<bv8>, f: Flow, r': Ring, mem': seq<bv8>, f': Flow, arrived: seq<seq<bv8>>, n: nat)
    requires Capturing(r, mem, f, false) && Capturing(r', mem', f', false) && Advanced(r, f, r', f', arrived) && n <= |r.bufs|
    ensures Sum(Unreads(r)[..n]) <= Sum(Unreads(r')[..n]) && Sum(FullFlags(r)[..n]) <= Sum(FullFlags(r')[..n])
  {
    forall i | 0 <= i < n ensures Unreads(r)[i] <= Unreads(r')[i] && FullFlags(r)[i] <= FullFlags(r')[i] {
      CompletionsBringData(r, mem, f, r', mem', f', arrived, i);
    }
    SumGrows(Unreads(r)[..n], Unreads(r')[..n]);
    SumGrows(FullFlags(r)[..n], FullFlags(r')[..n]);
  }

  // What has been counted of the first i fragments lies between what was there at the start and what is there now.
  ghost predicate Counted(r: Ring, r': Ring, i: nat, frags: nat, bytes: nat)
  {
    && i <= |r.bufs| == |r'.bufs|
    && Sum(Unreads(r)[..i]) <= bytes <= Sum(Unreads(r')[..i])
    && Sum(FullFlags(r)[..i]) <= frags <= Sum(FullFlags(r')[..i])
  }

  lemma CountedMore(r: Ring, mem: seq<bv8>, f: Flow, r1: Ring, mem1: seq<bv8>, f1: Flow, a1: seq<seq<bv8>>,
                    r2: Ring, mem2: seq<bv8>, f2: Flow, a2: seq<seq<bv8>>, i: nat, frags: nat, bytes: nat)
    requires Capturing(r, mem, f, false) && Capturing(r1, mem1, f1, false) && Capturing(r2, mem2, f2, false) && i < |r.bufs|
    requires Advanced(r, f, r1, f1, a1) && Advanced(r1, f1, r2, f2, a2) && Counted(r, r1, i, frags, bytes)
    ensures Advanced(r, f, r2, f2, a1 + a2) && Counted(r, r2, i + 1, frags + FullFlag(r2, i), bytes + UnreadIn(r2, i))
  {
    AdvancedChain(r, f, r1, f1, a1, r2, f2, a2);
    CountsGrow(r1, mem1, f1, r2, mem2, f2, a2, i);
    CompletionsBringData(r, mem, f, r2, mem2, f2, a1 + a2, i);
    SumSnoc(Unreads(r), i);
    SumSnoc(FullFlags(r), i);
    SumSnoc(Unreads(r2), i);
    SumSnoc(FullFlags(r2), i);
  }

  lemma CountedAll(r: Ring, mem: seq<bv8>, f: Flow, r': Ring, mem': seq<bv8>, f': Flow, frags: nat, bytes: nat)
    requires Capturing(r, mem, f, false) && Capturing(r', mem', f', false) && Counted(r, r', |r.bufs|, frags, bytes)
    ensures |Flatten(f.ready)| <= bytes <= |Flatten(f'.ready)|
    ensures Fulls(f.ready, r.fragsize) <= frags <= Fulls(f'.ready, r'.fragsize)
  {
    UnreadsAddUp(r, mem, f);
    UnreadsAddUp(r', mem', f');
    FullsAddUp(r, mem, f);
    FullsAddUp(r', mem', f');
    assert Unreads(r)[..|r.bufs|] == Unreads(r) && FullFlags(r)[..|r.bufs|] == FullFlags(r);
    assert Unreads(r')[..|r'.bufs|] == Unreads(r') && FullFlags(r')[..|r'.bufs|] == FullFlags(r');
  }

  // How many chunks are a whole fragment.
  function Fulls(ready: seq<seq<bv8>>, fragsize: nat): nat
  {
    if ready == [] then 0 else (if |ready[0]| == fragsize then 1 else 0) + Fulls(ready[1..], fragsize)
  }

  function FullFlag(r: Ring, i: nat): nat
    requires i < |r.bufs|
  {
    if r.bufs[i].sem > 0 && r.bufs[i].size == r.fragsize then 1 else 0
  }

  function FullFlags(r: Ring): (v: seq<nat>)
    ensures |v| == |r.bufs|
  {
    seq(|r.bufs|, i requires 0 <= i < |r.bufs| => FullFlag(r, i))
  }

  lemma {:induction false} FullsAreSum(ready: seq<seq<bv8>>, fragsize: nat, v: seq<nat>)
    requires |v| == |ready|
    requires forall k :: 0 <= k < |v| ==> v[k] == if |ready[k]| == fragsize then 1 else 0
    ensures Sum(v) == Fulls(ready, fragsize)
  {
    if ready != [] {
      FullsAreSum(ready[1..], fragsize, v[1..]);
    }
  }

  lemma FullsAddUp(r: Ring, mem: seq<bv8>, flow: Flow)
    requires Capturing(r, mem, flow, false)
    ensures Sum(FullFlags(r)) == Fulls(flow.ready, r.fragsize)
  {
    var v, f := FullFlags(r), Free(r);
    var turned := v[r.idx..] + v[..r.idx];
    SumRotate(v, r.idx);
    forall k | 0 <= k < |v| ensures turned[k] == if k < f && |flow.ready[k]| == r.fragsize then 1 else 0 {
      assert Guarded(r, false, Slot(r, k));
      assert k < f ==> Holds(r, mem, k, flow.ready[k]);
      assert turned[k] == v[Slot(r, k)];
    }
    SumConcat(turned[..f], turned[f..]);
    assert turned == turned[..f] + turned[f..];
    SumConstant(turned[f..], 0);
    FullsAreSum(flow.ready, r.fragsize, turned[..f]);
  }
}
