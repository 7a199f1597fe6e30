// The input stream of the UDA1341 driver: smdk2410_audio_read, SNDCTL_DSP_GETISPACE and the DMA-in callback.
// DMA completions may happen between any two steps.
module Capture {
  import opened Sequences
  import opened FragmentRing
  import opened CaptureRing
  import opened AudioStreams
  import opened DmaMemory
  import opened Errno
  import FragmentSize
  import Arithmetic

  // How the flow has changed from `flow0` while `out` was handed out and `arrived` came in. The fragments left are those
  // of which not everything has been handed out, and an empty one can only have gone.
  ghost predicate Ledger(flow0: Flow, fragsize: nat, flow: Flow, out: seq<bv8>, arrived: seq<seq<bv8>>)
  {
    && Fragments(arrived, fragsize)
    && flow.delivered == Handed(flow0.delivered, out) && flow.captured == Caught(flow0.captured, arrived)
    && |out| <= |Flatten(flow0.ready + arrived)|
    && Remaining(flow.ready, 0) == Remaining(flow0.ready + arrived, |out|)
    && Empties(flow.ready) <= Empties(flow0.ready)
  }

  function Handed(delivered: seq<bv8>, out: seq<bv8>): seq<bv8>
  {
    delivered + out
  }

  lemma HandedMore(delivered: seq<bv8>, out: seq<bv8>, more: seq<bv8>)
    ensures Handed(Handed(delivered, out), more) == Handed(delivered, out + more)
  {
  }

  lemma LedgerStart(flow: Flow, fragsize: nat)
    ensures Ledger(flow, fragsize, flow, [], [])
  {
    assert flow.ready + [] == flow.ready && flow.captured + [] == flow.captured && flow.delivered + [] == flow.delivered;
  }

  // One stretch of time after another.
  lemma LedgerChain(flow0: Flow, fragsize: nat, flow1: Flow, out1: seq<bv8>, a1: seq<seq<bv8>>,
                    flow2: Flow, out2: seq<bv8>, a2: seq<seq<bv8>>)
    requires 0 < fragsize
    requires Ledger(flow0, fragsize, flow1, out1, a1) && Ledger(flow1, fragsize, flow2, out2, a2)
    ensures Ledger(flow0, fragsize, flow2, out1 + out2, a1 + a2)
  {
    FragmentsConcat(a1, a2, fragsize);
    HandedMore(flow0.delivered, out1, out2);
    CaughtMore(flow0.captured, a1, a2);
    RemainingChain(flow0.ready, fragsize, flow1.ready, |out1|, a1, flow2.ready, |out2|, a2);
    RemainingFits(flow0.ready, flow1.ready, |out1|, a1, |out2|, a2);
  }

  lemma RemainingChain(ready0: seq<seq<bv8>>, fragsize: nat, ready1: seq<seq<bv8>>, n1: nat, a1: seq<seq<bv8>>,
                       ready2: seq<seq<bv8>>, n2: nat, a2: seq<seq<bv8>>)
    requires 0 < fragsize && Fragments(a2, fragsize) && n1 <= |Flatten(ready0 + a1)|
    requires Remaining(ready1, 0) == Remaining(ready0 + a1, n1) && Remaining(ready2, 0) == Remaining(ready1 + a2, n2)
    ensures Remaining(ready2, 0) == Remaining(ready0 + (a1 + a2), n1 + n2)
  {
    var all := ready0 + a1;
    assert ready0 + (a1 + a2) == all + a2;
    RemainingAppend(ready1, a2, fragsize, 0);
    RemainingAppend(all, a2, fragsize, n1);
    RemainingTwice(ready1 + a2, 0, n2);
    RemainingTwice(all + a2, n1, n2);
  }

  lemma RemainingFits(ready0: seq<seq<bv8>>, ready1: seq<seq<bv8>>, n1: nat, a1: seq<seq<bv8>>, n2: nat, a2: seq<seq<bv8>>)
    requires n1 <= |Flatten(ready0 + a1)| && Remaining(ready1, 0) == Remaining(ready0 + a1, n1) && n2 <= |Flatten(ready1 + a2)|
    ensures n1 + n2 <= |Flatten(ready0 + (a1 + a2))|
  {
    var all := ready0 + a1;
    assert ready0 + (a1 + a2) == all + a2;
    RemainingLength(ready1, 0);
    RemainingLength(all, n1);
    FlattenConcat(ready1, a2);
    FlattenConcat(all, a2);
  }

  lemma LedgerArrived(flow: Flow, fragsize: nat, arrived: seq<seq<bv8>>)
    requires 0 < fragsize && Fragments(arrived, fragsize)
    ensures Ledger(flow, fragsize, Arrived(flow, arrived), [], arrived)
    ensures Empties(Arrived(flow, arrived).ready) == Empties(flow.ready)
  {
    EmptiesConcat(flow.ready, arrived, fragsize);
    assert flow.delivered + [] == flow.delivered;
  }

  // The flow without its oldest chunk, if that has been passed on.
  function Dropped(flow: Flow, passed: bool): Flow
    requires flow.ready != []
  {
    if passed then flow.(ready := flow.ready[1..]) else flow
  }

  // The request made for a fragment that is passed on.
  function Requeued(passed: bool, idx: nat, b: AudioBuf, fragsize: nat): seq<Transfer>
  {
    if passed then [Transfer(idx, b.dmaAddr, fragsize)] else []
  }

  // What a turn leaves: `a` arrived before it handed out `chunk` bytes, `b` before it gave up the fragment.
  function Turned(flow: Flow, a: seq<seq<bv8>>, chunk: nat, b: seq<seq<bv8>>): Flow
    requires flow.ready != [] && chunk <= |flow.ready[0]|
  {
    Dropped(Arrived(AfterDrain(Arrived(flow, a), chunk), b), chunk == |flow.ready[0]|)
  }

  lemma TurnedReady(flow: Flow, a: seq<seq<bv8>>, chunk: nat, b: seq<seq<bv8>>)
    requires flow.ready != [] && chunk <= |flow.ready[0]|
    ensures Turned(flow, a, chunk, b).ready == ChunksLeft(flow.ready, chunk, a + b)
  {
    var h, t := flow.ready[0], flow.ready[1..];
    assert (flow.ready + a)[1..] == t + a;
    assert [h[chunk..]] + (t + a) + b == [h[chunk..]] + (t + (a + b));
    assert ([h[chunk..]] + (t + (a + b)))[1..] == t + (a + b);
  }

  lemma LedgerTurn(flow: Flow, fragsize: nat, a: seq<seq<bv8>>, chunk: nat, b: seq<seq<bv8>>)
    requires 0 < fragsize && Fragments(a, fragsize) && Fragments(b, fragsize)
    requires flow.ready != [] && chunk <= |flow.ready[0]|
    ensures Ledger(flow, fragsize, Turned(flow, a, chunk, b), flow.ready[0][..chunk], a + b)
    ensures flow.ready[0] == [] ==> Empties(Turned(flow, a, chunk, b).ready) < Empties(flow.ready)
  {
    TurnedReady(flow, a, chunk, b);
    FragmentsConcat(a, b, fragsize);
    CaughtMore(flow.captured, a, b);
    TurnRemaining(flow.ready, chunk, a + b);
    TurnEmpties(flow.ready, chunk, a + b, fragsize);
  }

  // The chunks left when the first `chunk` bytes have been taken, and a chunk of which nothing is left with them.
  function ChunksLeft(ready: seq<seq<bv8>>, chunk: nat, later: seq<seq<bv8>>): seq<seq<bv8>>
    requires ready != [] && chunk <= |ready[0]|
  {
    if chunk == |ready[0]| then ready[1..] + later else [ready[0][chunk..]] + (ready[1..] + later)
  }

  lemma TurnRemaining(ready: seq<seq<bv8>>, chunk: nat, later: seq<seq<bv8>>)
    requires ready != [] && chunk <= |ready[0]|
    ensures Remaining(ChunksLeft(ready, chunk, later), 0) == Remaining(ready + later, chunk)
    ensures chunk <= |Flatten(ready + later)|
  {
    var all, rest := ready + later, ready[1..] + later;
    assert all[0] == ready[0] && all[1..] == rest;
    if chunk < |ready[0]| {
      var left := [ready[0][chunk..]] + rest;
      assert left[1..] == rest && left[0][0..] == left[0];
    }
  }

  lemma TurnEmpties(ready: seq<seq<bv8>>, chunk: nat, later: seq<seq<bv8>>, fragsize: nat)
    requires ready != [] && chunk <= |ready[0]| && Fragments(later, fragsize) && 0 < fragsize
    ensures Empties(ChunksLeft(ready, chunk, later)) <= Empties(ready)
    ensures ready[0] == [] ==> Empties(ChunksLeft(ready, chunk, later)) < Empties(ready)
  {
    EmptiesConcat(ready[1..], later, fragsize);
    var rest := ready[1..] + later;
    assert ([ready[0][chunk..]] + rest)[1..] == rest;
  }

  // A read of `count` bytes has come upon memory it cannot write, though there are bytes for it: it has returned the whole
  // chunks that fit.
  ghost predicate Faulted(chunks: seq<seq<bv8>>, count: nat, writable: nat, n: nat)
  {
    writable < Least(count, |Flatten(chunks)|) && n == Covered(chunks, writable)
  }

  lemma ChunkArrived(ready0: seq<seq<bv8>>, arrived: seq<seq<bv8>>, ready: seq<seq<bv8>>, n: nat, p: nat, a: seq<seq<bv8>>)
    requires AtChunk(ready0 + arrived, ready, n, p)
    ensures AtChunk(ready0 + (arrived + a), ready + a, n, p)
  {
    AtChunkStill(ready0 + arrived, ready, n, p, a);
    assert ready0 + arrived + a == ready0 + (arrived + a);
  }

  lemma ChunkTurn(ready0: seq<seq<bv8>>, arrived: seq<seq<bv8>>, ready: seq<seq<bv8>>, n: nat, p: nat, a: seq<seq<bv8>>,
                  ready': seq<seq<bv8>>, data: seq<bv8>, left: nat, writable: nat, fault: bool, more: bool)
    requires AtChunk(ready0 + arrived, ready, n, p) && ready != [] && n <= writable
    requires fault ==> data == [] && writable < n + Least(left, |ready[0]|)
    requires more ==> data == ready[0] && ready' == ready[1..] + a
    ensures fault ==> Faulted(ready0 + (arrived + a), n + left, writable, n)
    ensures more ==> AtChunk(ready0 + (arrived + a), ready', n + |data|, p + 1)
  {
    assert ready0 + arrived + a == ready0 + (arrived + a);
    if fault {
      AtChunkStill(ready0 + arrived, ready, n, p, a);
      CoveredUpTo(ready0 + (arrived + a), ready + a, n, p, writable);
    }
    if more {
      AtNextChunk(ready0 + arrived, ready, n, p);
      AtChunkStill(ready0 + arrived, ready[1..], n + |ready[0]|, p + 1, a);
    }
  }

  // What has been handed out is the beginning of what was ready or arrived meanwhile; all of it when nothing is left.
  lemma HandedIsOldest(r0: Ring, mem0: seq<bv8>, flow0: Flow, r: Ring, mem: seq<bv8>, flow: Flow, out: seq<bv8>, arrived: seq<seq<bv8>>)
    requires Capturing(r0, mem0, flow0, false) && Capturing(r, mem, flow, false)
    requires Ledger(flow0, r.fragsize, flow, out, arrived)
    ensures out <= Flatten(flow0.ready + arrived)
    ensures flow.ready == [] ==> out == Flatten(flow0.ready + arrived)
  {
    FlattenConcat(flow0.ready, arrived);
    SplitsFlow(flow0.delivered, Flatten(flow0.ready), Flatten(arrived), out, Flatten(flow.ready));
  }

  lemma SplitsFlow(delivered: seq<bv8>, ready: seq<bv8>, came: seq<bv8>, out: seq<bv8>, left: seq<bv8>)
    requires delivered + ready + came == delivered + out + left
    ensures ready + came == out + left
  {
    assert delivered + (ready + came) == delivered + ready + came;
    assert delivered + (out + left) == delivered + out + left;
    AfterBeginning(delivered, ready + came, out + left);
  }

  // `n` bytes of the signal, from byte `from` on.
  function Recording(signal: nat -> bv8, from: nat, n: nat): (s: seq<bv8>)
    ensures |s| == n
  {
    seq(n, i requires 0 <= i < n => signal(from + i))
  }

  lemma RecordingMore(signal: nat -> bv8, from: nat, n: nat, m: nat)
    ensures Recording(signal, from, n) + Recording(signal, from + n, m) == Recording(signal, from, n + m)
  {
  }

  // An unbroken stretch of the signal.
  predicate Stretch(signal: nat -> bv8, from: nat, s: seq<bv8>)
  {
    s == Recording(signal, from, |s|)
  }

  // The first part of a recording is one too.
  lemma RecordingPrefix(signal: nat -> bv8, from: nat, n: nat, s: seq<bv8>)
    requires s <= Recording(signal, from, n)
    ensures Stretch(signal, from, s)
  {
  }

  // What was captured since the ring was set up, when `origin` bytes had been stored in all, is everything stored since.
  ghost predicate Recorded(signal: nat -> bv8, origin: nat, stored: nat, captured: seq<bv8>)
  {
    stored == origin + |captured| && Stretch(signal, origin, captured)
  }

  lemma RecordedMore(signal: nat -> bv8, origin: nat, stored: nat, captured: seq<bv8>, data: seq<bv8>)
    requires Recorded(signal, origin, stored, captured) && data == Recording(signal, stored, |data|)
    ensures Recorded(signal, origin, stored + |data|, captured + data)
  {
    RecordingMore(signal, origin, |captured|, |data|);
  }

  // `arrived` requests have completed and `queued` have been made, one for each fragment that was passed.
  ghost predicate Moved(r0: Ring, r: Ring, arrived: nat, queued: nat)
  {
    |r.bufs| == |r0.bufs| && |r.queue| + arrived == |r0.queue| + queued && r.idx == Around(r0.idx, queued, |r0.bufs|)
  }

  lemma MovedChain(r0: Ring, r1: Ring, arrived1: nat, queued1: nat, r2: Ring, arrived2: nat, queued2: nat)
    requires Moved(r0, r1, arrived1, queued1) && Moved(r1, r2, arrived2, queued2)
    ensures Moved(r0, r2, arrived1 + arrived2, queued1 + queued2)
  {
    AroundAdd(r0.idx, queued1, queued2, |r0.bufs|);
  }

  lemma MovedOnce(r: Ring, r': Ring, arrived: nat, passed: bool)
    requires |r'.bufs| == |r.bufs| && |r'.queue| + arrived == |r.queue| + if passed then 1 else 0
    requires r'.idx == if passed then Wrap(r.idx + 1, |r.bufs|) else r.idx
    ensures Moved(r, r', arrived, if passed then 1 else 0)
  {
    assert Around(r.idx, 0, |r.bufs|) == r.idx;
  }

  // What a turn adds to what the loop has done.
  lemma TurnChains(r0: Ring, flow0: Flow, r: Ring, f: Flow, out: seq<bv8>, arrived: seq<seq<bv8>>, before: nat,
                   r': Ring, f': Flow, data: seq<bv8>, a: seq<seq<bv8>>, left: nat, writable: nat, fault: bool, more: bool)
    requires 0 < r.fragsize == r'.fragsize && Ledger(flow0, r.fragsize, f, out, arrived) && Ledger(f, r.fragsize, f', data, a)
    requires Moved(r0, r, |arrived|, before) && |r'.bufs| == |r.bufs|
    requires |r'.queue| + |a| == |r.queue| + (if more then 1 else 0) && r'.idx == if more then Wrap(r.idx + 1, |r.bufs|) else r.idx
    requires AtChunk(flow0.ready + arrived, f.ready, |out|, before) && f.ready != [] && |out| <= writable
    requires fault ==> data == [] && writable < |out| + Least(left, |f.ready[0]|)
    requires more ==> data == f.ready[0] && f'.ready == f.ready[1..] + a
    ensures Ledger(flow0, r.fragsize, f', out + data, arrived + a)
    ensures Moved(r0, r', |arrived + a|, before + if more then 1 else 0)
    ensures fault ==> Faulted(flow0.ready + (arrived + a), |out| + left, writable, |out|)
    ensures more ==> AtChunk(flow0.ready + (arrived + a), f'.ready, |out + data|, before + 1)
  {
    LedgerChain(flow0, r.fragsize, f, out, arrived, f', data, a);
    MovedOnce(r, r', |a|, more);
    MovedChain(r0, r, |arrived|, before, r', |a|, if more then 1 else 0);
    ChunkTurn(flow0.ready, arrived, f.ready, |out|, before, a, f'.ready, data, left, writable, fault, more);
  }

  // What a reader got, of the chunks there were and those that arrived: the oldest bytes. The chunks left are those not
  // handed out in full, and no further one is empty.
  ghost predicate Served(chunks: seq<seq<bv8>>, out: seq<bv8>, arrived: seq<seq<bv8>>, left: seq<seq<bv8>>)
  {
    && out <= Flatten(chunks + arrived)
    && Remaining(left, 0) == Remaining(chunks + arrived, |out|)
    && Empties(left) <= Empties(chunks)
    && (Empties(chunks) == 0 ==> left == Remaining(chunks + arrived, |out|))
  }

  // How a read ends: it fails exactly when less can be written than it would have returned, and then it has returned the whole
  // chunks that fit.
  ghost predicate Ended(chunks: seq<seq<bv8>>, arrived: seq<seq<bv8>>, count: nat, writable: nat, nonblock: bool, calm: bool,
                        ret: int, out: seq<bv8>)
  {
    && (ret == -EFAULT <==> writable < Least(count, |Flatten(chunks + arrived)|))
    && if ret == -EFAULT then |out| == Covered(chunks + arrived, writable)
       else
         && |out| == Least(count, |Flatten(chunks + arrived)|) && ret == Outcome(count, |out|, nonblock)
         && (calm && !nonblock ==> |out| == count)
  }

  // Said outright: a read that did not fail returned the count of what it got, or says why it got nothing.
  lemma EndedOutright(chunks: seq<seq<bv8>>, arrived: seq<seq<bv8>>, count: nat, writable: nat, nonblock: bool, calm: bool,
                      ret: int, out: seq<bv8>)
    requires Ended(chunks, arrived, count, writable, nonblock, calm, ret, out) && ret != -EFAULT
    ensures ret == -EAGAIN <==> nonblock && count > 0 && |out| == 0
    ensures ret == -ERESTARTSYS <==> !nonblock && count > 0 && |out| == 0
    ensures ret != -EAGAIN && ret != -ERESTARTSYS ==> ret == |out|
    ensures |out| == count || (|out| == |Flatten(chunks + arrived)| && |out| < count && (nonblock || !calm))
  {
  }

  // What the query for available data reports, if it does not crash.
  datatype Report = Oops | Report(frags: nat, bytes: nat)

  // When no fragment is empty, the chunks left are exactly those not handed out in full: a fragment read to its end is the
  // DMA channel's.
  lemma ReadInFullIsGone(chunks: seq<seq<bv8>>, out: seq<bv8>, arrived: seq<seq<bv8>>, left: seq<seq<bv8>>)
    requires Remaining(left, 0) == Remaining(chunks + arrived, |out|) && Empties(left) <= Empties(chunks) == 0
    ensures left == Remaining(chunks + arrived, |out|) && Empties(left) == 0
  {
    RemainingOfFull(left);
  }

  lemma Together(chunks: seq<seq<bv8>>, first: seq<seq<bv8>>, arrived: seq<seq<bv8>>)
    ensures chunks + first + arrived == chunks + (first + arrived)
  {
  }

  // What the loop has served, told from before `first` arrived.
  lemma LoopServed(r0: Ring, mem0: seq<bv8>, flow0: Flow, r: Ring, mem: seq<bv8>, flow: Flow, out: seq<bv8>, a: seq<seq<bv8>>,
                   chunks: seq<seq<bv8>>, first: seq<seq<bv8>>)
    requires Capturing(r0, mem0, flow0, false) && Capturing(r, mem, flow, false)
    requires Ledger(flow0, r.fragsize, flow, out, a) && flow0.ready == chunks + first && Fragments(first, r.fragsize)
    ensures Served(chunks, out, first + a, flow.ready)
    ensures flow.ready == [] ==> out == Flatten(chunks + (first + a))
  {
    HandedIsOldest(r0, mem0, flow0, r, mem, flow, out, a);
    Together(chunks, first, a);
    EmptiesConcat(chunks, first, r.fragsize);
    if Empties(chunks) == 0 {
      ReadInFullIsGone(chunks, out, first + a, flow.ready);
    }
  }

  // What a read finds: the chunks that are ready, what has been delivered and captured, the index of the current fragment, the
  // number of requests queued, how many bytes have been stored, when the recording began, and how the allocator stands.
  datatype Found = Found(
    chunks: seq<seq<bv8>>, delivered: seq<bv8>, captured: seq<bv8>, position: nat, requests: nat, stored: nat, origin: nat,
    others: set<Block>, denied: nat, refusals: seq<nat>)

  lemma HandedNothing(delivered: seq<bv8>, captured: seq<bv8>)
    ensures Handed(delivered, []) == delivered && Caught(captured, []) == captured
  {
  }

  // Fragments that hold nothing yet.
  function Blank(n: nat): (b: seq<seq<bv8>>)
    ensures |b| == n && forall k :: 0 <= k < n ==> b[k] == []
  {
    seq(n, _ => [])
  }

  lemma BlankShrinks(arrived: seq<seq<bv8>>, blanks: nat, a: seq<seq<bv8>>, b: seq<seq<bv8>>)
    requires 0 < blanks
    ensures
      var f := Arrived(Arrived(Flow(Flatten(arrived), Blank(blanks) + arrived, []), a), b);
      && f.(ready := f.ready[1..]) == Flow(Flatten(arrived + a + b), Blank(blanks - 1) + (arrived + a + b), [])
  {
    FlattenConcat(arrived, a);
    FlattenConcat(arrived + a, b);
    BlankDrops(arrived, blanks, a, b);
  }

  lemma BlankDrops(arrived: seq<seq<bv8>>, blanks: nat, a: seq<seq<bv8>>, b: seq<seq<bv8>>)
    requires 0 < blanks
    ensures (Blank(blanks) + arrived + a + b)[1..] == Blank(blanks - 1) + (arrived + a + b)
  {
  }

  function Least(a: nat, b: nat): (c: nat)
    ensures c <= a && c <= b && (c == a || c == b)
  {
    if a <= b then a else b
  }

  class InputStream {
    const stream: AudioStream
    // The bytes the codec delivers, one after the other, and how many the DMA channel has stored in all.
    const signal: nat -> bv8
    var stored: nat
    ghost var flow: Flow
    // What `stored` was when the ring was set up.
    ghost var origin: nat

    constructor (heap: DmaHeap, signal: nat -> bv8)
      requires heap.Valid()
      ensures Ready() && stream.buffers == null && stream.heap == heap && fresh(stream)
      ensures this.signal == signal && stored == 0 && stream.nbfrags == 0
    {
      stream := new AudioStream(heap);
      this.signal, stored := signal, 0;
      flow, origin := Flow([], [], []), 0;
    }

    ghost predicate Valid(held: bool)
      reads this, stream, stream.buffers, stream.heap, stream.heap.mem
    {
      && stream.SetUp() && Capturing(stream.View(), stream.heap.mem[..], flow, held)
      && Recorded(signal, origin, stored, flow.captured)
    }

    // Between calls: either nothing is set up, or the ring is in order and nobody holds the current fragment.
    ghost predicate Ready()
      reads this, stream, stream.buffers, stream.heap, stream.heap.mem
    {
      if stream.buffers == null then stream.Owns() else Valid(false)
    }

    twostate predicate Steady()
      reads this, stream
    {
      && stream.buffers == old(stream.buffers) && stream.fragsize == old(stream.fragsize)
      && stream.owned == old(stream.owned) && origin == old(origin)
    }

    // The hardware's side: the sampled bytes appear in memory.
    method StoreSamples(at: nat, data: seq<bv8>)
      requires stream.SetUp() && at + |data| <= stream.heap.mem.Length
      modifies stream.heap.mem
      ensures stream.SetUp() && stream.View() == old(stream.View())
      ensures stream.heap.mem[..] == Splice(old(stream.heap.mem[..]), at, data)
    {
      forall i | 0 <= i < |data| {
        stream.heap.mem[at + i] := data[i];
      }
    }

    // The DMA channel fills the fragment of its oldest request with `data`; audio_dmain_done_callback.
    method DmaInDone(ghost held: bool, data: seq<bv8>)
      requires Valid(held) && stream.queue != [] && data == Recording(signal, stored, stream.fragsize)
      modifies this, stream, stream.buffers, stream.heap.mem
      ensures Valid(held) && Steady() && stored == old(stored) + |data|
      ensures old(stream.queue)[0].frag < |old(stream.View()).bufs|
      ensures stream.View() == Complete(old(stream.View()), old(stream.fragsize))
      ensures held ==> stream.buffers[stream.bufIdx] == old(stream.buffers[stream.bufIdx])
      ensures flow == AfterCompletion(old(flow), data)
    {
      ghost var r := stream.View();
      CompletionStep(r, stream.heap.mem[..], flow, held, data);
      RecordedMore(signal, origin, stored, flow.captured, data);
      var t := stream.queue[0];
      StoreSamples(t.addr, data);
      stream.CompleteOldest(t.size);
      flow := AfterCompletion(flow, data);
      stored := stored + |data|;
      assert stream.buffers[stream.bufIdx] == stream.View().bufs[r.idx];
    }

    // The next fragment's worth of the signal.
    method Sample() returns (data: seq<bv8>)
      ensures data == Recording(signal, stored, stream.fragsize)
    {
      data := Recording(signal, stored, stream.fragsize);
    }

    // The DMA channel gets some way on while the driver is between two steps.
    method Interrupts(ghost held: bool) returns (ghost arrived: seq<seq<bv8>>)
      requires Valid(held)
      modifies this, stream, stream.buffers, stream.heap.mem
      ensures Valid(held) && Steady()
      ensures held ==> stream.buffers[stream.bufIdx] == old(stream.buffers[stream.bufIdx])
      ensures Advanced(old(stream.View()), old(flow), stream.View(), flow, arrived)
    {
      arrived := [];
      var more: bool := *;
      AdvancedNone(stream.View(), flow);
      while more && stream.queue != []
        invariant Valid(held) && Steady() && stream.bufIdx == old(stream.bufIdx)
        invariant held ==> stream.buffers[stream.bufIdx] == old(stream.buffers[stream.bufIdx])
        invariant Advanced(old(stream.View()), old(flow), stream.View(), flow, arrived)
        decreases |stream.queue|
      {
        var data := Sample();
        AdvancedMore(old(stream.View()), old(flow), stream.View(), flow, arrived, stream.heap.mem[..], held, data);
        DmaInDone(held, data);
        arrived := arrived + [data];
        more := *;
      }
    }

    // Wait for the current fragment, or find that it cannot be had; then everything has been read. A blocked caller wakes
    // up after one completion, unless a signal comes first, which it does not when all is `calm`.
    method Await(nonblock: bool, calm: bool) returns (free: bool, ghost arrived: seq<seq<bv8>>)
      requires Valid(false)
      modifies this, stream, stream.buffers, stream.heap.mem
      ensures Valid(false) && Steady()
      ensures Advanced(old(stream.View()), old(flow), stream.View(), flow, arrived)
      ensures free ==> stream.buffers[stream.bufIdx].sem > 0
      ensures !free ==> flow.ready == [] && (nonblock || !calm)
    {
      arrived := Interrupts(false);
      if stream.buffers[stream.bufIdx].sem == 0 {
        BlockedHasReadAll(stream.View(), stream.heap.mem[..], flow);
        if nonblock {
          return false, arrived;
        }
        var signal: bool := *;
        if signal && !calm {
          return false, arrived;
        }
        var data := Sample();
        AdvancedMore(old(stream.View()), old(flow), stream.View(), flow, arrived, stream.heap.mem[..], false, data);
        DmaInDone(false, data);
        arrived := arrived + [data];
      }
      return true, arrived;
    }

    // down on a fragment that is free
    method Hold()
      requires Valid(false) && stream.buffers[stream.bufIdx].sem > 0
      modifies stream.buffers
      ensures Valid(true) && Steady() && flow == old(flow)
      ensures stream.View() == Take(old(stream.View()))
    {
      TakeCaptures(stream.View(), stream.heap.mem[..], flow);
      stream.TakeCurrent();
    }

    // up on the held fragment
    method LetGo()
      requires Valid(true)
      modifies stream.buffers
      ensures Valid(false) && Steady() && flow == old(flow)
      ensures stream.View() == Give(old(stream.View()))
    {
      GiveCaptures(stream.View(), stream.heap.mem[..], flow);
      stream.GiveCurrent();
    }

    // s3c2410_dma_queue_buffer for a whole fragment, NEXT_BUF.
    method Queue()
      requires Valid(true) && stream.buffers[stream.bufIdx].size == 0
      modifies this, stream, stream.buffers
      ensures Valid(false) && Steady()
      ensures old(flow).ready != [] && old(flow).ready[0] == []
      ensures flow == Dropped(old(flow), true)
      ensures stream.View() == Submit(old(stream.View()), stream.fragsize, 0)
    {
      SubmitCaptures(stream.View(), stream.heap.mem[..], flow);
      stream.QueueAndAdvance(stream.fragsize, stream.buffers[stream.bufIdx].size);
      flow := flow.(ready := flow.ready[1..]);
    }

    // Hand out the oldest `chunk` bytes of the held fragment.
    method Drain(chunk: nat) returns (data: seq<bv8>)
      requires Valid(true) && chunk <= stream.buffers[stream.bufIdx].size
      modifies this, stream.buffers
      ensures Valid(true) && Steady() && stream.View() == Drained(old(stream.View()), chunk)
      ensures old(flow).ready != [] && chunk <= |old(flow).ready[0]| == old(stream.buffers[stream.bufIdx].size)
      ensures flow == AfterDrain(old(flow), chunk)
      ensures data == old(flow).ready[0][..chunk]
    {
      HeldIsOldest(stream.View(), stream.heap.mem[..], flow);
      DrainCaptures(stream.View(), stream.heap.mem[..], flow, chunk);
      var b := stream.buffers[stream.bufIdx];
      var from := b.dmaAddr + stream.fragsize - b.size;
      SlicePrefix(stream.heap.mem[..], from, b.size, chunk);
      data := stream.heap.mem[from..from + chunk];
      assert data == stream.heap.mem[..][from..from + chunk];
      stream.Shrink(chunk);
      flow := AfterDrain(flow, chunk);
    }

    // Hand out what the held fragment has, as far as the user asks and the user's buffer can be written.
    method TakeOut(pos: nat, left: nat, writable: nat) returns (fault: bool, data: seq<bv8>, ghost arrived: seq<seq<bv8>>)
      requires Valid(true) && pos <= writable
      modifies this, stream, stream.buffers, stream.heap.mem
      ensures Valid(true) && Steady() && |arrived| <= |old(stream.queue)|
      ensures stream.queue == old(stream.queue)[|arrived|..] && Fragments(arrived, stream.fragsize)
      ensures stream.bufIdx == old(stream.bufIdx)
      ensures stream.buffers[stream.bufIdx].dmaAddr == old(stream.buffers[stream.bufIdx].dmaAddr)
      ensures old(flow).ready != [] && |data| <= |old(flow).ready[0]| == old(stream.buffers[stream.bufIdx].size)
      ensures stream.buffers[stream.bufIdx].size == |old(flow).ready[0]| - |data|
      ensures fault ==> data == [] && writable < pos + Least(left, |old(flow).ready[0]|) && flow == Arrived(old(flow), arrived)
      ensures !fault ==> |data| == Least(left, |old(flow).ready[0]|) && pos + |data| <= writable
      ensures !fault ==> data == old(flow).ready[0][..|data|] && flow == AfterDrain(Arrived(old(flow), arrived), |data|)
    {
      HeldIsOldest(stream.View(), stream.heap.mem[..], flow);
      arrived := Interrupts(true);
      var chunk := Least(left, stream.buffers[stream.bufIdx].size);
      if pos + chunk > writable {
        return true, [], arrived;
      }
      fault := false;
      data := Drain(chunk);
    }

    // A fragment that has been read in full goes back to the DMA channel, whole; one that has not is let go.
    method GiveUp() returns (more: bool, ghost arrived: seq<seq<bv8>>)
      requires Valid(true)
      modifies this, stream, stream.buffers, stream.heap.mem
      ensures Valid(false) && Steady() && old(flow).ready != []
      ensures more <==> old(flow).ready[0] == []
      ensures |old(flow).ready[0]| == old(stream.buffers[stream.bufIdx].size)
      ensures flow == Dropped(Arrived(old(flow), arrived), more)
      ensures |arrived| <= |old(stream.queue)| && Fragments(arrived, stream.fragsize)
      ensures stream.queue == old(stream.queue)[|arrived|..] + Requeued(more, old(stream.bufIdx), old(stream.buffers[stream.bufIdx]), stream.fragsize)
      ensures stream.bufIdx == if more then Wrap(old(stream.bufIdx) + 1, stream.buffers.Length) else old(stream.bufIdx)
    {
      HeldIsOldest(stream.View(), stream.heap.mem[..], flow);
      arrived := Interrupts(true);
      more := PassOn();
    }

    method PassOn() returns (more: bool)
      requires Valid(true) && flow.ready != []
      modifies this, stream, stream.buffers
      ensures Valid(false) && Steady()
      ensures more <==> old(stream.buffers[stream.bufIdx].size) == 0
      ensures flow == Dropped(old(flow), more)
      ensures stream.queue == old(stream.queue) + Requeued(more, old(stream.bufIdx), old(stream.buffers[stream.bufIdx]), stream.fragsize)
      ensures stream.bufIdx == if more then Wrap(old(stream.bufIdx) + 1, stream.buffers.Length) else old(stream.bufIdx)
    {
      more := stream.buffers[stream.bufIdx].size == 0;
      if more {
        Queue();
      } else {
        LetGo();
      }
    }

    // One granted turn of the read loop. A fragment read in full is requeued, and no other.
    method Turn(pos: nat, left: nat, writable: nat)
      returns (fault: bool, more: bool, data: seq<bv8>, ghost arrived: seq<seq<bv8>>)
      requires Valid(true) && 0 < left && pos <= writable
      modifies this, stream, stream.buffers, stream.heap.mem
      ensures Valid(false) && Steady()
      ensures Ledger(old(flow), stream.fragsize, flow, data, arrived)
      ensures |data| <= left && pos + |data| <= writable
      ensures old(flow).ready != []
      ensures fault ==> data == [] && !more && writable < pos + Least(left, |old(flow).ready[0]|) && flow.ready == old(flow).ready + arrived
      ensures more ==> data == old(flow).ready[0] && flow.ready == old(flow).ready[1..] + arrived
      ensures !fault ==> |data| == Least(left, old(stream.buffers[stream.bufIdx].size))
      ensures more <==> !fault && |data| == old(stream.buffers[stream.bufIdx].size)
      ensures |arrived| <= |old(stream.queue)|
      ensures stream.queue == old(stream.queue)[|arrived|..] + Requeued(more, old(stream.bufIdx), old(stream.buffers[stream.bufIdx]), stream.fragsize)
      ensures stream.bufIdx == if more then Wrap(old(stream.bufIdx) + 1, stream.buffers.Length) else old(stream.bufIdx)
      ensures more && data == [] ==> Empties(flow.ready) < Empties(old(flow).ready)
    {
      ghost var f0, q0, a, b := flow, stream.queue, [], [];
      fault, data, a := TakeOut(pos, left, writable);
      if fault {
        LedgerArrived(f0, stream.fragsize, a);
        LetGo();
        return true, false, [], a;
      }
      more, b := GiveUp();
      arrived := a + b;
      SliceTwice(q0, |a|, |b|);
      LedgerTurn(f0, stream.fragsize, a, |data|, b);
      TurnedReady(f0, a, |data|, b);
    }

    // One pass of the read loop: get the current fragment, if it can be had, and take a turn. Of what the loop has done so
    // far, `total` are the bytes handed out, `came` the fragments that arrived, and `queued` counts the requests made.
    method Step(nonblock: bool, calm: bool, out: seq<bv8>, left: nat, writable: nat,
                ghost r0: Ring, ghost flow0: Flow, ghost arrived: seq<seq<bv8>>, ghost before: nat)
      returns (stuck: bool, fault: bool, more: bool, total: seq<bv8>, ghost came: seq<seq<bv8>>, ghost queued: nat)
      requires Valid(false) && 0 < left && |out| <= writable
      requires Ledger(flow0, stream.fragsize, flow, out, arrived) && Moved(r0, stream.View(), |arrived|, before)
      requires AtChunk(flow0.ready + arrived, flow.ready, |out|, before)
      modifies this, stream, stream.buffers, stream.heap.mem
      ensures Valid(false) && Steady()
      ensures Ledger(flow0, stream.fragsize, flow, total, came) && Moved(r0, stream.View(), |came|, queued)
      ensures |out| <= |total| <= |out| + left && |total| <= writable
      ensures stuck ==> |total| == |out| && !fault && !more && flow.ready == [] && (nonblock || !calm)
      ensures fault ==> |total| == |out| && !more && Faulted(flow0.ready + came, |out| + left, writable, |total|)
      ensures !stuck && !fault && !more ==> |total| == |out| + left
      ensures more ==> AtChunk(flow0.ready + came, flow.ready, |total|, queued)
      ensures |total| == |out| ==> Empties(flow.ready) <= Empties(old(flow).ready)
      ensures more && |total| == |out| ==> Empties(flow.ready) < Empties(old(flow).ready)
    {
      var free;
      free, came, queued := GetCurrent(nonblock, calm, out, r0, flow0, arrived, before);
      if !free {
        return true, false, false, out, came, queued;
      }
      stuck := false;
      fault, more, total, came, queued := TurnInLedger(out, left, writable, r0, flow0, came, queued);
    }

    method GetCurrent(nonblock: bool, calm: bool, ghost out: seq<bv8>,
                      ghost r0: Ring, ghost flow0: Flow, ghost arrived: seq<seq<bv8>>, ghost before: nat)
      returns (free: bool, ghost came: seq<seq<bv8>>, ghost queued: nat)
      requires Valid(false)
      requires Ledger(flow0, stream.fragsize, flow, out, arrived) && Moved(r0, stream.View(), |arrived|, before)
      requires AtChunk(flow0.ready + arrived, flow.ready, |out|, before)
      modifies this, stream, stream.buffers, stream.heap.mem
      ensures Valid(free) && Steady()
      ensures Ledger(flow0, stream.fragsize, flow, out, came) && Moved(r0, stream.View(), |came|, queued)
      ensures AtChunk(flow0.ready + came, flow.ready, |out|, queued)
      ensures !free ==> flow.ready == [] && (nonblock || !calm)
      ensures Empties(flow.ready) == Empties(old(flow).ready)
    {
      ghost var f := flow;
      ghost var a;
      free, a := Await(nonblock, calm);
      LedgerArrived(f, stream.fragsize, a);
      LedgerChain(flow0, stream.fragsize, f, out, arrived, flow, [], a);
      assert out + [] == out;
      ChunkArrived(flow0.ready, arrived, f.ready, |out|, before, a);
      came, queued := arrived + a, before;
      if free {
        Hold();
      }
    }

    method TurnInLedger(out: seq<bv8>, left: nat, writable: nat,
                        ghost r0: Ring, ghost flow0: Flow, ghost arrived: seq<seq<bv8>>, ghost before: nat)
      returns (fault: bool, more: bool, total: seq<bv8>, ghost came: seq<seq<bv8>>, ghost queued: nat)
      requires Valid(true) && 0 < left && |out| <= writable
      requires Ledger(flow0, stream.fragsize, flow, out, arrived) && Moved(r0, stream.View(), |arrived|, before)
      requires AtChunk(flow0.ready + arrived, flow.ready, |out|, before)
      modifies this, stream, stream.buffers, stream.heap.mem
      ensures Valid(false) && Steady()
      ensures Ledger(flow0, stream.fragsize, flow, total, came) && Moved(r0, stream.View(), |came|, queued)
      ensures |out| <= |total| <= |out| + left && |total| <= writable
      ensures fault ==> |total| == |out| && !more && Faulted(flow0.ready + came, |out| + left, writable, |total|)
      ensures !fault && !more ==> |total| == |out| + left
      ensures more ==> AtChunk(flow0.ready + came, flow.ready, |total|, queued)
      ensures |total| == |out| ==> Empties(flow.ready) <= Empties(old(flow).ready)
      ensures more && |total| == |out| ==> Empties(flow.ready) < Empties(old(flow).ready)
    {
      ghost var r, f := stream.View(), flow;
      var data; ghost var a;
      fault, more, data, a := Turn(|out|, left, writable);
      total, came, queued := out + data, arrived + a, before + if more then 1 else 0;
      TurnChains(r0, flow0, r, f, out, arrived, before, stream.View(), flow, data, a, left, writable, fault, more);
    }

    // The loop of smdk2410_audio_read. A fragment that holds no data yet is passed on to the DMA channel in a turn of its
    // own, so what decreases is the user's count, then the number of such fragments.
    method ReadLoop(nonblock: bool, calm: bool, count: nat, writable: nat)
      returns (fault: bool, stuck: bool, out: seq<bv8>, ghost arrived: seq<seq<bv8>>, ghost queued: nat)
      requires Valid(false)
      modifies this, stream, stream.buffers, stream.heap.mem
      ensures Valid(false) && Steady()
      ensures Ledger(old(flow), stream.fragsize, flow, out, arrived) && Moved(old(stream.View()), stream.View(), |arrived|, queued)
      ensures |out| <= count && |out| <= writable && (|out| == count || fault || stuck)
      ensures fault ==> Faulted(old(flow).ready + arrived, count, writable, |out|)
      ensures stuck ==> |out| < count && flow.ready == [] && (nonblock || !calm)
    {
      ghost var r0, flow0 := stream.View(), flow;
      var more := true;
      fault, stuck, out, arrived, queued := false, false, [], [], 0;
      LedgerStart(flow, stream.fragsize);
      AtFirstChunk(flow.ready);
      assert flow.ready + [] == flow.ready;
      while |out| < count && more
        invariant Valid(false) && Steady()
        invariant |out| <= count && |out| <= writable
        invariant Ledger(flow0, stream.fragsize, flow, out, arrived) && Moved(r0, stream.View(), |arrived|, queued)
        invariant if more then !fault && !stuck else |out| == count || fault || stuck
        invariant more ==> AtChunk(flow0.ready + arrived, flow.ready, |out|, queued)
        invariant fault ==> Faulted(flow0.ready + arrived, count, writable, |out|)
        invariant stuck ==> |out| < count && flow.ready == [] && (nonblock || !calm)
        decreases count - |out|, Empties(flow.ready), more
      {
        stuck, fault, more, out, arrived, queued :=
          Step(nonblock, calm, out, count - |out|, writable, r0, flow0, arrived, queued);
      }
    }

    // The first read queues every fragment, once. A down in this loop never blocks, whatever completes meanwhile.
    method StartCapture() returns (ghost arrived: seq<seq<bv8>>)
      requires Valid(false) && stream.queue == [] && stream.bufIdx == 0
      requires flow == Flow([], Blank(stream.buffers.Length), [])
      modifies this, stream, stream.buffers, stream.heap.mem
      ensures Valid(false) && Steady()
      ensures flow == Flow(Flatten(arrived), arrived, []) && Fragments(arrived, stream.fragsize)
      ensures |stream.queue| + |arrived| == stream.buffers.Length && stream.bufIdx == 0
    {
      arrived := [];
      var i := 0;
      while i < stream.nbfrags
        invariant Valid(false) && Steady()
        invariant 0 <= i <= stream.nbfrags == |stream.View().bufs|
        invariant flow == Flow(Flatten(arrived), Blank(stream.nbfrags - i) + arrived, []) && Fragments(arrived, stream.fragsize)
        invariant |stream.queue| + |arrived| == i && stream.bufIdx == if i < stream.nbfrags then i else 0
      {
        arrived := QueueBlank(arrived, stream.nbfrags - i);
        i := i + 1;
      }
    }

    // One turn of that loop.
    method QueueBlank(ghost arrived: seq<seq<bv8>>, ghost blanks: nat) returns (ghost came: seq<seq<bv8>>)
      requires Valid(false) && 0 < blanks && Fragments(arrived, stream.fragsize)
      requires flow == Flow(Flatten(arrived), Blank(blanks) + arrived, [])
      modifies this, stream, stream.buffers, stream.heap.mem
      ensures Valid(false) && Steady()
      ensures Fragments(came, stream.fragsize) && flow == Flow(Flatten(came), Blank(blanks - 1) + came, [])
      ensures |stream.queue| + |came| == |old(stream.queue)| + |arrived| + 1
      ensures stream.bufIdx == Wrap(old(stream.bufIdx) + 1, stream.buffers.Length)
    {
      ghost var a := HoldNext();
      ghost var b := QueueHeld();
      BlankShrinks(arrived, blanks, a, b);
      came := arrived + a + b;
      FragmentsConcat(arrived, a, stream.fragsize);
      FragmentsConcat(arrived + a, b, stream.fragsize);
    }

    // down on a fragment that has never been queued
    method HoldNext() returns (ghost arrived: seq<seq<bv8>>)
      requires Valid(false) && flow.ready != []
      modifies this, stream, stream.buffers, stream.heap.mem
      ensures Valid(true) && Steady() && stream.bufIdx == old(stream.bufIdx)
      ensures Fragments(arrived, stream.fragsize) && flow == Arrived(old(flow), arrived)
      ensures |stream.queue| + |arrived| == |old(stream.queue)|
    {
      arrived := Interrupts(false);
      FreeIsUp(stream.View());
      Hold();
    }

    method QueueHeld() returns (ghost arrived: seq<seq<bv8>>)
      requires Valid(true) && flow.ready != [] && flow.ready[0] == []
      modifies this, stream, stream.buffers, stream.heap.mem
      ensures Valid(false) && Steady()
      ensures Fragments(arrived, stream.fragsize) && flow == Dropped(Arrived(old(flow), arrived), true)
      ensures |stream.queue| + |arrived| == |old(stream.queue)| + 1
      ensures stream.bufIdx == Wrap(old(stream.bufIdx) + 1, stream.buffers.Length)
    {
      HeldIsOldest(stream.View(), stream.heap.mem[..], flow);
      arrived := Interrupts(true);
      Queue();
    }

    // The chunks a reader finds, oldest first.
    ghost function Chunks(): seq<seq<bv8>>
      reads this, stream
    {
      if stream.buffers == null then [] else flow.ready
    }

    ghost function Position(): nat
      reads this, stream
    {
      if stream.buffers == null then 0 else stream.bufIdx
    }

    // What readers have been given, and what was captured, since the ring was set up.
    ghost function Delivered(): seq<bv8>
      reads this, stream
    {
      if stream.buffers == null then [] else flow.delivered
    }

    ghost function Captured(): seq<bv8>
      reads this, stream
    {
      if stream.buffers == null then [] else flow.captured
    }

    // if (!s->buffers) { audio_setup_buf(s); queue every fragment }
    method EnsureStarted(audioNbfrags: nat, audioFragsize: nat) returns (ok: bool, ghost arrived: seq<seq<bv8>>, ghost queued: nat)
      requires Ready() && 0 < audioNbfrags && 0 < audioFragsize
      modifies this, stream, stream.heap, stream.heap.mem
      ensures ok ==> Valid(false)
      ensures ok ==> stream.buffers == old(stream.buffers) || fresh(stream.buffers)
      ensures !ok ==> stream.buffers == null && stream.Owns() && arrived == [] && stored == old(stored)
      ensures !ok <==> NoMemory(old(stream.heap.denied), stream.heap.denied, old(stream.heap.refusals), stream.heap.refusals, audioFragsize)
      ensures old(stream.heap.refusals) <= stream.heap.refusals && old(stream.heap.denied) <= stream.heap.denied
      ensures old(stream.buffers) == null && old(stream.heap.Holds(audioNbfrags * audioFragsize)) ==> ok
      ensures old(stream.buffers) != null ==> ok && stream.buffers == old(stream.buffers)
      ensures ok ==>
                && flow.ready == old(Chunks()) + arrived && flow.captured == Caught(old(Captured()), arrived)
                && flow.delivered == old(Delivered()) && Fragments(arrived, stream.fragsize)
                && stored == old(stored) + |Flatten(arrived)|
                && origin == (if old(stream.buffers) == null then old(stored) else old(origin))
                && |stream.queue| + |arrived| == |old(stream.queue)| + queued
                && stream.bufIdx == Around(old(Position()), queued, stream.buffers.Length)
      ensures ok && old(stream.buffers) == null ==> queued == stream.buffers.Length && stream.fragsize == audioFragsize
      ensures stream.heap.live - stream.owned == old(stream.heap.live - stream.owned)
    {
      arrived, queued := [], 0;
      HandedNothing(Delivered(), Captured());
      if stream.buffers != null {
        return true, arrived, queued;
      }
      var err := stream.SetupBuf(audioNbfrags, audioFragsize);
      ok := err == 0;
      if ok {
        StartEmpty();
        arrived := StartCapture();
        queued := stream.buffers.Length;
        AroundOnce(stream.buffers.Length, queued);
      }
    }

    // smdk2410_audio_read. `arrived` are the fragments the DMA channel stored meanwhile and `queued` is the number of
    // requests made to it. Whatever the interleaving: the bytes returned are the oldest of those that were ready or arrived,
    // as many as asked for or all there are; each fragment read in full, and no other, was requeued, once. A signal is needed
    // to make a blocking read come back early.
    method Read(atFilePosition: bool, nonblock: bool, calm: bool, count: nat, writable: nat, audioNbfrags: nat, audioFragsize: nat)
      returns (ret: int, out: seq<bv8>, ghost arrived: seq<seq<bv8>>, ghost queued: nat)
      requires Ready() && 0 < audioNbfrags && 0 < audioFragsize
      modifies this, stream, stream.buffers, stream.heap, stream.heap.mem
      ensures Ready()
      ensures stream.heap.live - stream.owned == old(stream.heap.live - stream.owned)
      ensures stream.buffers == null || stream.buffers == old(stream.buffers) || fresh(stream.buffers)
      ensures ret == -ESPIPE <==> !atFilePosition
      ensures ret == -ENOMEM ==> old(stream.buffers) == null == stream.buffers
      ensures ret == -ENOMEM <==>
              NoMemory(old(stream.heap.denied), stream.heap.denied, old(stream.heap.refusals), stream.heap.refusals, audioFragsize)
      ensures old(stream.heap.refusals) <= stream.heap.refusals && old(stream.heap.denied) <= stream.heap.denied
      ensures old(stream.buffers) == null && old(stream.heap.Holds(audioNbfrags * audioFragsize)) ==> ret != -ENOMEM
      ensures old(stream.buffers) == null && stream.buffers != null ==> stream.fragsize == audioFragsize
      ensures ret == -ESPIPE || ret == -ENOMEM ==>
                out == [] && arrived == [] && stream.buffers == old(stream.buffers) && Chunks() == old(Chunks())
      ensures ret != -ESPIPE && ret != -ENOMEM ==> stream.buffers != null && Fragments(arrived, stream.fragsize)
      ensures |out| <= count && |out| <= writable
      ensures Delivered() == Handed(old(Delivered()), out) && Captured() == Caught(old(Captured()), arrived)
      ensures stored == old(stored) + |Flatten(arrived)|
      ensures stream.buffers != null ==> origin == if old(stream.buffers) == null then old(stored) else old(origin)
      ensures ret != -ESPIPE && ret != -ENOMEM ==>
                && Served(old(Chunks()), out, arrived, flow.ready)
                && |stream.queue| + |arrived| == |old(stream.queue)| + queued
                && stream.bufIdx == Around(old(Position()), queued, stream.buffers.Length)
      ensures ret != -ESPIPE && ret != -ENOMEM ==> Ended(old(Chunks()), arrived, count, writable, nonblock, calm, ret, out)
      ensures ret !in {-ESPIPE, -ENOMEM, -EFAULT} ==>
                && (ret == -EAGAIN <==> nonblock && count > 0 && |out| == 0)
                && (ret == -ERESTARTSYS <==> !nonblock && count > 0 && |out| == 0)
                && (ret != -EAGAIN && ret != -ERESTARTSYS ==> ret == |out|)
                && (calm && !nonblock ==> |out| == count)
      ensures ret != -ESPIPE && ret != -ENOMEM && ret != -EFAULT && |out| < count ==> Chunks() == []
    {
      HandedNothing(Delivered(), Captured());
      if !atFilePosition {
        return -ESPIPE, [], [], 0;
      }
      ret, out, arrived, queued := ReadAtPosition(nonblock, calm, count, writable, audioNbfrags, audioFragsize, Finds());
      if ret != -ENOMEM && ret != -EFAULT {
        EndedOutright(old(Chunks()), arrived, count, writable, nonblock, calm, ret, out);
      }
    }

    // What a read finds.
    ghost function Finds(): Found
      reads this, stream, stream.heap
    {
      Found(Chunks(), Delivered(), Captured(), Position(), |stream.queue|, stored,
                    if stream.buffers == null then stored else origin, stream.heap.live - stream.owned,
                    stream.heap.denied, stream.heap.refusals)
    }

    // The rest of it.
    method ReadAtPosition(nonblock: bool, calm: bool, count: nat, writable: nat, audioNbfrags: nat, audioFragsize: nat, ghost b: Found)
      returns (ret: int, out: seq<bv8>, ghost arrived: seq<seq<bv8>>, ghost queued: nat)
      requires Ready() && 0 < audioNbfrags && 0 < audioFragsize && b == Finds()
      modifies this, stream, stream.buffers, stream.heap, stream.heap.mem
      ensures Ready() && stream.heap.live - stream.owned == b.others
      ensures stream.buffers == null || stream.buffers == old(stream.buffers) || fresh(stream.buffers)
      ensures ret != -ESPIPE
      ensures ret == -ENOMEM ==> old(stream.buffers) == null == stream.buffers && out == [] && arrived == []
      ensures ret == -ENOMEM <==> NoMemory(b.denied, stream.heap.denied, b.refusals, stream.heap.refusals, audioFragsize)
      ensures b.refusals <= stream.heap.refusals && b.denied <= stream.heap.denied
      ensures old(stream.buffers) == null && old(stream.heap.Holds(audioNbfrags * audioFragsize)) ==> ret != -ENOMEM
      ensures old(stream.buffers) == null && stream.buffers != null ==> stream.fragsize == audioFragsize
      ensures |out| <= count && |out| <= writable
      ensures Delivered() == Handed(b.delivered, out) && Captured() == Caught(b.captured, arrived)
      ensures stored == b.stored + |Flatten(arrived)|
      ensures ret != -ENOMEM ==>
                && stream.buffers != null && Fragments(arrived, stream.fragsize) && origin == b.origin
                && Served(b.chunks, out, arrived, flow.ready)
                && |stream.queue| + |arrived| == b.requests + queued
                && stream.bufIdx == Around(b.position, queued, stream.buffers.Length)
                && Ended(b.chunks, arrived, count, writable, nonblock, calm, ret, out)
      ensures ret != -ENOMEM && ret != -EFAULT && |out| < count ==> Chunks() == []
    {
      var ok; ghost var first, primed;
      ok, first, primed := EnsureStarted(audioNbfrags, audioFragsize);
      if !ok {
        HandedNothing(b.delivered, b.captured);
        return -ENOMEM, [], [], 0;
      }
      ret, out, arrived, queued := ReadSetUp(nonblock, calm, count, writable, b, first, primed);
    }

    // The same on a ring that is set up, which took `primed` requests, and `first` has arrived since.
    method ReadSetUp(nonblock: bool, calm: bool, count: nat, writable: nat, ghost b: Found, ghost first: seq<seq<bv8>>, ghost primed: nat)
      returns (ret: int, out: seq<bv8>, ghost arrived: seq<seq<bv8>>, ghost queued: nat)
      requires Valid(false) && Fragments(first, stream.fragsize)
      requires flow.ready == b.chunks + first && flow.captured == Caught(b.captured, first) && flow.delivered == b.delivered
      requires stored == b.stored + |Flatten(first)| && origin == b.origin
      requires |stream.queue| + |first| == b.requests + primed && stream.bufIdx == Around(b.position, primed, stream.buffers.Length)
      requires stream.heap.live - stream.owned == b.others
      modifies this, stream, stream.buffers, stream.heap.mem
      ensures Valid(false) && Steady() && stream.heap.live - stream.owned == b.others
      ensures |out| <= count && |out| <= writable
      ensures Fragments(arrived, stream.fragsize) && Served(b.chunks, out, arrived, flow.ready)
      ensures flow.delivered == Handed(b.delivered, out) && flow.captured == Caught(b.captured, arrived)
      ensures stored == b.stored + |Flatten(arrived)|
      ensures |stream.queue| + |arrived| == b.requests + queued
      ensures stream.bufIdx == Around(b.position, queued, stream.buffers.Length)
      ensures ret != -ESPIPE && ret != -ENOMEM
      ensures Ended(b.chunks, arrived, count, writable, nonblock, calm, ret, out)
      ensures ret != -EFAULT && |out| < count ==> flow.ready == []
    {
      ghost var r0, mem0, flow0 := stream.View(), stream.heap.mem[..], flow;
      var fault, stuck; ghost var a, q;
      fault, stuck, out, a, q := ReadLoop(nonblock, calm, count, writable);
      ret := if fault then -EFAULT else Outcome(count, |out|, nonblock);
      arrived, queued := first + a, primed + q;
      LoopServed(r0, mem0, flow0, stream.View(), stream.heap.mem[..], flow, out, a, b.chunks, first);
      Together(b.chunks, first, a);
      AroundAdd(b.position, primed, q, stream.buffers.Length);
      CaughtMore(b.captured, first, a);
      FlattenConcat(first, a);
      FragmentsConcat(first, a, stream.fragsize);
    }

    // What has been delivered since the ring was set up is the signal from there on.
    lemma DeliveredIsSignal()
      requires Ready()
      ensures stream.buffers != null ==> Stretch(signal, origin, flow.delivered) && origin + |flow.delivered| <= stored
    {
      if stream.buffers != null {
        DeliveredInOrder(stream.View(), stream.heap.mem[..], flow, false);
        RecordingPrefix(signal, origin, |flow.captured|, flow.delivered);
      }
    }

    // SNDCTL_DSP_GETISPACE. Fragments may complete while it counts: `bytes` lies between what a reader finds at the start and
    // at the end, `frags` between the numbers of fragments not read from yet. Where a ring has been and is no more, nbfrags is
    // still there, and the source follows a null pointer.
    method GetISpace() returns (report: Report, ghost arrived: seq<seq<bv8>>)
      requires Ready()
      modifies this, stream, stream.buffers, stream.heap.mem
      ensures Ready() && Steady() && stored == old(stored) + |Flatten(arrived)|
      ensures report.Oops? <==> old(stream.buffers) == null && old(stream.nbfrags) > 0
      ensures stream.buffers == null ==> arrived == []
      ensures stream.buffers == null && old(stream.nbfrags) == 0 ==> report == Report(0, 0)
      ensures stream.buffers != null ==>
                && flow == Arrived(old(flow), arrived) && Fragments(arrived, stream.fragsize)
                && |Flatten(old(flow).ready)| <= report.bytes <= |Flatten(flow.ready)|
                && Fulls(old(flow).ready, stream.fragsize) <= report.frags <= Fulls(flow.ready, stream.fragsize)
    {
      if stream.nbfrags == 0 {
        return Report(0, 0), [];
      }
      if stream.buffers == null {
        return Oops, [];
      }
      var frags, bytes;
      frags, bytes, arrived := CountReady();
      report := Report(frags, bytes);
    }

    method CountReady() returns (frags: nat, bytes: nat, ghost arrived: seq<seq<bv8>>)
      requires Valid(false)
      modifies this, stream, stream.buffers, stream.heap.mem
      ensures Valid(false) && Steady()
      ensures flow == Arrived(old(flow), arrived) && Fragments(arrived, stream.fragsize)
      ensures |Flatten(old(flow).ready)| <= bytes <= |Flatten(flow.ready)|
      ensures Fulls(old(flow).ready, stream.fragsize) <= frags <= Fulls(flow.ready, stream.fragsize)
    {
      ghost var r, mem, f := stream.View(), stream.heap.mem[..], flow;
      frags, bytes, arrived := 0, 0, [];
      AdvancedNone(r, f);
      var i := 0;
      while i < stream.nbfrags
        invariant Valid(false) && Steady() && 0 <= i <= stream.nbfrags == |r.bufs|
        invariant Advanced(r, f, stream.View(), flow, arrived)
        invariant Counted(r, stream.View(), i, frags, bytes)
      {
        frags, bytes, arrived := CountOne(i, frags, bytes, r, mem, f, arrived);
        i := i + 1;
      }
      CountedAll(r, mem, f, stream.View(), stream.heap.mem[..], flow, frags, bytes);
    }

    // One turn of the counting loop.
    method CountOne(i: nat, frags: nat, bytes: nat, ghost r: Ring, ghost mem: seq<bv8>, ghost f: Flow, ghost arrived: seq<seq<bv8>>)
      returns (frags': nat, bytes': nat, ghost came: seq<seq<bv8>>)
      requires Valid(false) && Capturing(r, mem, f, false)
      requires i < stream.nbfrags == |r.bufs| && Advanced(r, f, stream.View(), flow, arrived)
      requires Counted(r, stream.View(), i, frags, bytes)
      modifies this, stream, stream.buffers, stream.heap.mem
      ensures Valid(false) && Steady() && stream.nbfrags == old(stream.nbfrags)
      ensures Advanced(r, f, stream.View(), flow, came)
      ensures Counted(r, stream.View(), i + 1, frags', bytes')
    {
      ghost var r1, mem1, f1 := stream.View(), stream.heap.mem[..], flow;
      ghost var a := Interrupts(false);
      came := arrived + a;
      CountedMore(r, mem, f, r1, mem1, f1, arrived, stream.View(), stream.heap.mem[..], flow, a, i, frags, bytes);
      frags', bytes' := frags, bytes;
      if stream.buffers[i].sem > 0 {
        if stream.buffers[i].size == stream.fragsize {
          frags' := frags + 1;
        }
        bytes' := bytes + stream.buffers[i].size;
      }
    }

    // SNDCTL_DSP_SETFRAGMENT on a file open for reading only. It does not queue the fragments, and so the first read does
    // not either; the read loop then passes them on one by one.
    method SetFragment(val: nat) returns (err: int)
      requires Ready() && val < Arithmetic.WORD
      modifies this, stream, stream.heap
      ensures Ready()
      ensures old(stream.buffers) != null ==> err == -EBUSY && stream.buffers == old(stream.buffers) && flow == old(flow)
      ensures old(stream.buffers) == null ==> err == 0 || err == -ENOMEM
      ensures err == 0 ==>
                && stream.buffers != null
                && (stream.fragsize, stream.buffers.Length) == FragmentSize.SetFragment(val)
                && stream.queue == [] && Chunks() == Blank(stream.buffers.Length) && origin == stored
      ensures err == 0 ==> FragmentSize.AsAsked(val, stream.fragsize, stream.buffers.Length)
      ensures err == -ENOMEM ==> stream.buffers == null
      ensures old(stream.buffers) == null ==> stream.nbfrags == FragmentSize.SetFragment(val).1
      ensures err == -ENOMEM <==>
              NoMemory(old(stream.heap.denied), stream.heap.denied, old(stream.heap.refusals), stream.heap.refusals,
                       FragmentSize.SetFragment(val).0)
      ensures old(stream.heap.refusals) <= stream.heap.refusals && old(stream.heap.denied) <= stream.heap.denied
      ensures old(stream.buffers) == null && old(stream.heap.Holds(FragmentSize.Total(val))) ==> err == 0
      ensures stored == old(stored)
      ensures stream.heap.live - stream.owned == old(stream.heap.live - stream.owned)
      ensures stream.buffers == null || stream.buffers == old(stream.buffers) || fresh(stream.buffers)
      ensures Delivered() == old(Delivered()) && Captured() == old(Captured())
    {
      if stream.buffers != null {
        return -EBUSY;
      }
      var (audioFragsize, audioNbfrags) := FragmentSize.SetFragment(val);
      FragmentSize.SetFragmentInRange(val);
      FragmentSize.SetFragmentAsAsked(val);
      err := stream.SetupBuf(audioNbfrags, audioFragsize);
      if err == 0 {
        StartEmpty();
      }
    }

    // A ring just set up: nothing captured, nothing to read.
    ghost method StartEmpty()
      requires stream.SetUp() && stream.bufIdx == 0 && stream.queue == []
      requires forall i {:trigger Fresh(stream.buffers[i])} :: 0 <= i < stream.buffers.Length ==> Fresh(stream.buffers[i])
      modifies this
      ensures Valid(false)
      ensures flow == Flow([], Blank(stream.buffers.Length), []) && origin == stored == old(stored)
    {
      flow, origin := Flow([], Blank(stream.buffers.Length), []), stored;
      forall i | 0 <= i < stream.buffers.Length
        ensures stream.View().bufs[i].sem == 1 && stream.View().bufs[i].size == 0
      {
        assert Fresh(stream.buffers[i]);
      }
      FreshCaptures(stream.View(), stream.heap.mem[..]);
    }

    // smdk2410_audio_release and SNDCTL_DSP_RESET for reading: capture stops and all memory is given back. What had been
    // delivered since the ring was set up is the signal from there on.
    method Release()
      requires Ready()
      modifies stream, stream.heap`live
      ensures stream.buffers == null && stream.Owns() && stream.queue == [] && stream.owned == {} && stream.nbfrags == old(stream.nbfrags)
      ensures stream.heap.live == old(stream.heap.live) - old(stream.owned)
      ensures Stretch(signal, origin, old(Delivered()))
      ensures old(stream.buffers) != null ==> origin + |old(Delivered())| <= stored
    {
      DeliveredIsSignal();
      stream.ClearBuf();
    }
  }
}
