// The output stream of the UDA1341 driver: smdk2410_audio_write, audio_sync, SNDCTL_DSP_GETOSPACE, the DMA-out
// callback and the release path. DMA completions may happen between any two steps.
module Playback {
  import opened Sequences
  import opened MonoStereo
  import opened FragmentRing
  import opened PlaybackRing
  import opened AudioStreams
  import opened DmaMemory
  import opened Errno
  import FragmentSize
  import Arithmetic

  datatype OpenFile = OpenFile(canWrite: bool, nonblock: bool)

  // What the codec gets for the user's bytes.
  function Expand(channels: nat, bytes: seq<bv8>): seq<bv8>
  {
    if channels == 2 then bytes else Stereo(bytes)
  }

  // How many bytes that makes.
  function Widened(channels: nat, count: nat): nat
  {
    if channels == 2 then count else 2 * count
  }

  // The driver moves whole stereo frames of output.
  predicate Aligned(channels: nat, count: nat)
  {
    Frames(Widened(channels, count))
  }

  lemma AlignedIsEven(channels: nat, count: nat)
    requires Aligned(channels, count)
    ensures count % 2 == 0
  {
    FramesAreQuadruples(Widened(channels, count));
    if channels == 2 {
      assert count == 2 * (2 * (count / 4));
    } else {
      assert count == 2 * (2 * count / 4);
    }
  }

  // A count rounded down to a multiple of four is aligned either way.
  lemma QuadrupleIsAligned(channels: nat, count: nat)
    requires count % 4 == 0
    ensures Aligned(channels, count)
  {
    FramesAreQuadruples(Widened(channels, count));
    assert 2 * count == 4 * (count / 4 * 2);
  }

  lemma AlignedProgress(channels: nat, consumed: nat, chunk: nat)
    requires Aligned(channels, consumed) && Aligned(channels, chunk)
    ensures Aligned(channels, consumed + chunk)
    ensures Widened(channels, consumed + chunk) == Widened(channels, consumed) + Widened(channels, chunk)
  {
    FramesAdd(Widened(channels, consumed), Widened(channels, chunk));
  }

  lemma AlignedRest(channels: nat, left: nat, chunk: nat)
    requires Aligned(channels, left) && Aligned(channels, chunk) && chunk <= left
    ensures Aligned(channels, left - chunk)
  {
    FramesAdd(Widened(channels, chunk), Widened(channels, left - chunk));
  }

  lemma ExpandConcat(channels: nat, buffer: seq<bv8>, pos: nat, chunk: nat)
    requires Aligned(channels, pos) && Aligned(channels, chunk) && pos + chunk <= |buffer|
    ensures Expand(channels, buffer[..pos + chunk]) == Expand(channels, buffer[..pos]) + Expand(channels, buffer[pos..pos + chunk])
    ensures |Expand(channels, buffer[pos..pos + chunk])| == Widened(channels, chunk)
  {
    assert buffer[..pos + chunk] == buffer[..pos] + buffer[pos..pos + chunk];
    AlignedIsEven(channels, pos);
    AlignedIsEven(channels, chunk);
    if channels != 2 {
      StereoConcat(buffer[..pos], buffer[pos..pos + chunk]);
      StereoLength(buffer[pos..pos + chunk]);
    }
  }

  // What `count` bytes take when there are `room` bytes of room: as much as fits, or all there is.
  function Takes(channels: nat, count: nat, room: nat): nat
  {
    var fits := if channels == 2 then room else room / 2;
    if count <= fits then count else fits
  }

  // How much of the user's data one turn of the write loop takes.
  function Chunk(channels: nat, room: nat, count: nat): (chunk: nat)
    requires 0 < room && Frames(room)
    requires 0 < count && Aligned(channels, count)
    ensures 2 <= chunk <= count && Aligned(channels, chunk)
    ensures Widened(channels, chunk) <= room
    ensures chunk == count || Widened(channels, chunk) == room
  {
    AlignedIsEven(channels, count);
    HalfFits(room);
    Takes(channels, count, room)
  }

  // How much of n bytes whole pieces make up, when the first piece is `first` bytes and each other one `each`: nothing unless
  // the first one fits, and otherwise all but the beginning of one more.
  function Boundary(first: nat, each: nat, n: nat): (b: nat)
    ensures b <= n && (0 < b <==> 0 < first <= n)
    ensures 0 < first && 0 < each ==> n - b < if b == 0 then first else each
    decreases n
  {
    if first == 0 || n < first then 0 else first + Boundary(each, each, n - first)
  }

  // Having taken `taken` of `total` bytes piece by piece, with a piece of `head` next.
  ghost predicate AtPiece(first: nat, head: nat, each: nat, total: nat, taken: nat)
  {
    taken <= total && Boundary(first, each, total) == taken + Boundary(head, each, total - taken)
  }

  lemma NextPiece(first: nat, head: nat, each: nat, total: nat, taken: nat)
    requires AtPiece(first, head, each, total, taken) && 0 < head && taken + head <= total
    ensures AtPiece(first, each, each, total, taken + head)
  {
  }

  // A write stands at the beginning of a fragment, as far as its own bytes go.
  ghost predicate Along(head: nat, channels: nat, buffer: seq<bv8>, r: Ring, consumed: nat)
    requires r.idx < |r.bufs|
  {
    && consumed <= |buffer| && r.bufs[r.idx].size < r.fragsize
    && AtPiece(head, r.fragsize - r.bufs[r.idx].size, r.fragsize, Widened(channels, |buffer|), Widened(channels, consumed))
  }

  lemma AlongStill(head: nat, channels: nat, buffer: seq<bv8>, r: Ring, r': Ring, consumed: nat)
    requires r.idx < |r.bufs| && Along(head, channels, buffer, r, consumed)
    requires r'.idx < |r'.bufs| && r'.fragsize == r.fragsize && r'.bufs[r'.idx].size == r.bufs[r.idx].size
    ensures Along(head, channels, buffer, r', consumed)
  {
  }

  lemma AlongTurn(head: nat, channels: nat, buffer: seq<bv8>, r: Ring, r': Ring, consumed: nat, upto: nat, left: nat, rest: nat,
                  fault: bool, more: bool)
    requires r.idx < |r.bufs| && r'.idx < |r'.bufs| && r'.fragsize == r.fragsize && Along(head, channels, buffer, r, consumed)
    requires consumed <= upto <= |buffer|
    requires
      var room := r.fragsize - r.bufs[r.idx].size;
      && (fault ==> upto == consumed && rest == left && |buffer| < consumed + Takes(channels, left, room) && room <= Space(r) <= Space(r'))
      && (more ==> Widened(channels, upto - consumed) == room && r'.bufs[r'.idx].size == 0)
    ensures fault ==> Faulted(head, channels, buffer, r', upto, rest)
    ensures more ==> Along(head, channels, buffer, r', upto)
  {
    var room := r.fragsize - r.bufs[r.idx].size;
    if more {
      NextPiece(head, room, r.fragsize, Widened(channels, |buffer|), Widened(channels, consumed));
    }
  }

  // A write of `left` more bytes has come upon bytes it cannot read, though there is room for them: it has taken the whole
  // fragments that it could.
  ghost predicate Faulted(head: nat, channels: nat, buffer: seq<bv8>, r: Ring, consumed: nat, left: nat)
    requires r.idx < |r.bufs|
  {
    && 0 <= Space(r) && |buffer| < consumed + Takes(channels, left, Space(r))
    && Widened(channels, consumed) == Boundary(head, r.fragsize, Widened(channels, |buffer|))
  }

  lemma HalfFits(room: nat)
    requires 0 < room && Frames(room)
    ensures 4 <= room && 2 * (room / 2) == room
  {
    FramesAreQuadruples(room);
    assert room == 2 * (2 * (room / 4));
  }

  // copy_from_user: what cannot be read is zeroed and reported.
  method CopyFromUser(mem: array<bv8>, to: nat, user: seq<bv8>, from: nat, count: nat) returns (ok: bool, ghost data: seq<bv8>)
    requires to + count <= mem.Length && from <= |user|
    modifies mem
    ensures ok == (from + count <= |user|)
    ensures |data| == count && mem[..] == Splice(old(mem[..]), to, data)
    ensures ok ==> data == user[from..from + count]
  {
    var readable := if from + count <= |user| then count else |user| - from;
    data := seq(count, i => if 0 <= i < readable then user[from + i] else 0);
    forall i | 0 <= i < count {
      mem[to + i] := if i < readable then user[from + i] else 0;
    }
    ok := readable == count;
  }

  // The bytes accepted once `chunk` more bytes of the buffer, from `pos` on, have been taken.
  function Taking(accepted: seq<bv8>, channels: nat, buffer: seq<bv8>, pos: nat, chunk: nat): seq<bv8>
    requires pos + chunk <= |buffer|
  {
    accepted + Expand(channels, buffer[pos..pos + chunk])
  }

  lemma TakingNothing(accepted: seq<bv8>, channels: nat, buffer: seq<bv8>, pos: nat)
    requires pos <= |buffer|
    ensures Taking(accepted, channels, buffer, pos, 0) == accepted
  {
    assert Expand(channels, buffer[pos..pos]) == [];
  }

  lemma TakingMore(accepted: seq<bv8>, channels: nat, buffer: seq<bv8>, pos: nat, chunk: nat)
    requires Aligned(channels, pos) && Aligned(channels, chunk) && pos + chunk <= |buffer|
    ensures Taking(Taking(accepted, channels, buffer, 0, pos), channels, buffer, pos, chunk)
            == Taking(accepted, channels, buffer, 0, pos + chunk)
  {
    ExpandConcat(channels, buffer, pos, chunk);
    assert buffer[0..pos] == buffer[..pos] && buffer[0..pos + chunk] == buffer[..pos + chunk];
  }

  // Where a write that began with `flow0` and `space0` bytes of room stands after taking `consumed` bytes, while the DMA
  // channel finished `done` fragments: what was taken is what was accepted, and it took exactly the room it needs.
  ghost predicate Ledger(flow0: Flow, space0: int, channels: nat, buffer: seq<bv8>, r: Ring, flow: Flow, consumed: nat, done: nat)
    requires r.idx < |r.bufs|
  {
    && consumed <= |buffer| && Aligned(channels, consumed)
    && flow.accepted == Taking(flow0.accepted, channels, buffer, 0, consumed)
    && flow0.played <= flow.played
    && Space(r) + Widened(channels, consumed) == space0 + Whole(done, r.fragsize)
  }

  // At the beginning of a write nothing has been taken.
  lemma LedgerStarts(flow0: Flow, space0: int, channels: nat, buffer: seq<bv8>, r: Ring, head: nat)
    requires r.idx < |r.bufs| && space0 == Space(r) && 0 < head == r.fragsize - r.bufs[r.idx].size
    ensures Ledger(flow0, space0, channels, buffer, r, flow0, 0, 0) && Along(head, channels, buffer, r, 0)
  {
    TakingNothing(flow0.accepted, channels, buffer, 0);
  }

  lemma LedgerAdvance(flow0: Flow, space0: int, channels: nat, buffer: seq<bv8>, r: Ring, flow: Flow, consumed: nat, done: nat,
                      r': Ring, flow': Flow, d: nat)
    requires r.idx < |r.bufs| && Ledger(flow0, space0, channels, buffer, r, flow, consumed, done)
    requires Advanced(r, flow, r', flow', d)
    ensures Ledger(flow0, space0, channels, buffer, r', flow', consumed, done + d)
  {
    WholeAdd(done, d, r.fragsize);
  }

  lemma LedgerTurn(flow0: Flow, space0: int, channels: nat, buffer: seq<bv8>, r: Ring, flow: Flow, consumed: nat, done: nat,
                   r': Ring, flow': Flow, upto: nat, d: nat)
    requires r.idx < |r.bufs| && Ledger(flow0, space0, channels, buffer, r, flow, consumed, done)
    requires consumed <= upto <= |buffer| && Aligned(channels, upto - consumed)
    requires r'.idx < |r'.bufs| && r'.fragsize == r.fragsize && flow.played <= flow'.played
    requires flow'.accepted == Taking(flow0.accepted, channels, buffer, 0, upto)
    requires Space(r') == Space(r) - Widened(channels, upto - consumed) + Whole(d, r.fragsize)
    ensures Ledger(flow0, space0, channels, buffer, r', flow', upto, done + d)
  {
    WholeAdd(done, d, r.fragsize);
    AlignedProgress(channels, consumed, upto - consumed);
  }

  lemma TakesExactly(channels: nat, count: nat, room: int, consumed: nat, left: int)
    requires consumed <= count && (consumed == count || left == 0)
    requires 0 <= left && left + Widened(channels, consumed) == room
    ensures consumed == Takes(channels, count, room)
  {
  }

  // A count cut down to a multiple of four.
  function Rounded(count: nat): (whole: nat)
    ensures whole % 4 == 0 && whole <= count < whole + 4
  {
    count - count % 4
  }

  // What a write promises that did not fail, when there were `room` bytes of room, those that appeared meanwhile included.
  ghost predicate Wrote(channels: nat, whole: nat, nonblock: bool, calm: bool, room: int, ret: int, consumed: nat)
  {
    && ret == Outcome(whole, consumed, nonblock)
    && 0 <= room && consumed == Takes(channels, whole, room)
    && (calm && !nonblock ==> consumed == whole)
  }

  // What the space query reports, if it does not crash.
  datatype Report = Oops | Report(frags: nat, bytes: nat)

  // What has been counted of the first i fragments lies between what was there at the start and what is there now.
  ghost predicate Counted(r: Ring, r': Ring, i: nat, frags: nat, bytes: nat)
  {
    && i <= |r.bufs| == |r'.bufs|
    && Sum(Rooms(r)[..i]) <= bytes <= Sum(Rooms(r')[..i])
    && Sum(Idles(r)[..i]) <= frags <= Sum(Idles(r')[..i])
  }

  lemma CountedNone(r: Ring)
    ensures Counted(r, r, 0, 0, 0)
  {
  }

  lemma CountedMore(r: Ring, f: Flow, r1: Ring, f1: Flow, done: nat, r2: Ring, f2: Flow, d: nat, memory: nat, i: nat, frags: nat, bytes: nat)
    requires Shaped(r, memory, false) && Shaped(r1, memory, false) && Shaped(r2, memory, false) && i < |r.bufs|
    requires Advanced(r, f, r1, f1, done) && Advanced(r1, f1, r2, f2, d) && Counted(r, r1, i, frags, bytes)
    ensures Advanced(r, f, r2, f2, done + d) && Counted(r, r2, i + 1, frags + Idle(r2, i), bytes + RoomIn(r2, i))
  {
    AdvancedChain(r, f, r1, f1, done, r2, f2, d);
    CountsGrow(r1, f1, r2, f2, d, memory, i);
    CompletionsMakeRoom(r, f, r2, f2, done + d, memory, i);
    SumSnoc(Rooms(r), i);
    SumSnoc(Idles(r), i);
    SumSnoc(Rooms(r2), i);
    SumSnoc(Idles(r2), i);
  }

  lemma CountedAll(r: Ring, r': Ring, memory: nat, frags: nat, bytes: nat)
    requires Shaped(r, memory, false) && Shaped(r', memory, false) && Counted(r, r', |r.bufs|, frags, bytes)
    ensures Space(r) <= bytes <= Space(r') && IdleCount(r) <= frags <= IdleCount(r')
  {
    RoomsAddUp(r, memory);
    RoomsAddUp(r', memory);
    IdlesAddUp(r, memory);
    IdlesAddUp(r', memory);
    assert Rooms(r)[..|r.bufs|] == Rooms(r) && Idles(r)[..|r.bufs|] == Idles(r);
    assert Rooms(r')[..|r'.bufs|] == Rooms(r') && Idles(r')[..|r'.bufs|] == Idles(r');
  }

  // How a write ends: it fails exactly when fewer bytes can be read than it would have taken, and then it has taken the whole
  // fragments that those make up, beginning with the `head` bytes left in the current one.
  ghost predicate Ended(channels: nat, buffer: seq<bv8>, whole: nat, nonblock: bool, calm: bool, room: int, head: nat, fragsize: nat,
                        ret: int, consumed: nat)
  {
    && 0 <= room
    && (ret == -EFAULT <==> |buffer| < Takes(channels, whole, room))
    && if ret == -EFAULT then Widened(channels, consumed) == Boundary(head, fragsize, Widened(channels, |buffer|))
       else Wrote(channels, whole, nonblock, calm, room, ret, consumed)
  }

  // Said outright: a write that did not fail took the greatest multiple of four in `count`, or as much as the room holds, and
  // returned that; if it took nothing although four bytes or more were asked for, it says why.
  lemma WroteOutright(channels: nat, buffer: seq<bv8>, count: nat, nonblock: bool, calm: bool, room: int, head: nat, fragsize: nat,
                      ret: int, consumed: nat)
    requires Ended(channels, buffer, Rounded(count), nonblock, calm, room, head, fragsize, ret, consumed) && ret != -EFAULT
    ensures ret == -EAGAIN <==> nonblock && 4 <= count && consumed == 0
    ensures ret == -ERESTARTSYS <==> !nonblock && 4 <= count && consumed == 0
    ensures ret != -EAGAIN && ret != -ERESTARTSYS ==> ret == consumed
    ensures 0 <= room && consumed <= count
    ensures (consumed % 4 == 0 && count < consumed + 4) || consumed == if channels == 2 then room else room / 2
    ensures calm && !nonblock ==> consumed % 4 == 0 && count < consumed + 4
  {
  }

  lemma FailedOutright(channels: nat, buffer: seq<bv8>, count: nat, nonblock: bool, calm: bool, room: int, head: nat, fragsize: nat,
                       consumed: nat)
    requires Ended(channels, buffer, Rounded(count), nonblock, calm, room, head, fragsize, -EFAULT, consumed)
    ensures |buffer| < count - count % 4
  {
    assert Rounded(count) == count - count % 4;
  }

  lemma FaultedEnds(channels: nat, buffer: seq<bv8>, whole: nat, nonblock: bool, calm: bool, room: int, head: nat, r: Ring, consumed: nat)
    requires r.idx < |r.bufs| && consumed <= whole && Faulted(head, channels, buffer, r, consumed, whole - consumed)
    requires Space(r) + Widened(channels, consumed) == room
    ensures Ended(channels, buffer, whole, nonblock, calm, room, head, r.fragsize, -EFAULT, consumed)
  {
    assert Takes(channels, whole, room) == consumed + Takes(channels, whole - consumed, Space(r));
  }

  // Why a write stopped that did not fail, with `left` bytes of room left: it had taken everything, or there was no room
  // and no waiting for it.
  ghost predicate Stopped(whole: nat, nonblock: bool, calm: bool, left: int, ret: int, consumed: nat)
  {
    && ret == Outcome(whole, consumed, nonblock)
    && (consumed == whole || (left == 0 && (nonblock || !calm)))
  }

  lemma StoppedExactly(channels: nat, whole: nat, nonblock: bool, calm: bool, room: int, left: int, ret: int, consumed: nat)
    requires Stopped(whole, nonblock, calm, left, ret, consumed) && consumed <= whole
    requires 0 <= left && left + Widened(channels, consumed) == room
    ensures Wrote(channels, whole, nonblock, calm, room, ret, consumed)
  {
    TakesExactly(channels, whole, room, consumed, left);
  }

  class OutputStream {
    const stream: AudioStream
    ghost var flow: Flow

    constructor (heap: DmaHeap)
      requires heap.Valid()
      ensures Ready() && stream.buffers == null && stream.nbfrags == 0 && stream.heap == heap && fresh(stream)
    {
      stream := new AudioStream(heap);
      flow := Flow([], [], []);
    }

    ghost predicate Valid(held: bool)
      reads this, stream, stream.buffers, stream.heap, stream.heap.mem
    {
      stream.SetUp() && Playing(stream.View(), stream.heap.mem[..], flow, held)
    }

    // Between calls: either nothing is set up, or the ring is in order and nobody holds the current fragment.
    ghost predicate Ready()
      reads this, stream, stream.buffers, stream.heap, stream.heap.mem
    {
      if stream.buffers == null then stream.Owns() else Valid(false)
    }

    // The DMA channel finishes its oldest request; audio_dmaout_done_callback. What it played is what memory held there.
    method DmaOutDone(ghost held: bool)
      requires Valid(held) && stream.queue != []
      modifies this, stream, stream.buffers
      ensures stream.OnlyFlowed() && Valid(held)
      ensures old(stream.queue)[0].frag < |old(stream.View()).bufs| && old(flow).inflight != []
      ensures stream.View() == Oldest(old(stream.View())) && flow == AfterCompletion(old(flow))
    {
      ghost var ring, mem := stream.View(), stream.heap.mem[..];
      CompletionStep(ring, mem, flow, held);
      var t := stream.queue[0];
      assert Untouched(t, ring.fragsize, mem, flow.inflight[0]);
      ghost var heard := stream.heap.mem[t.addr..t.addr + t.size];
      stream.CompleteOldest(stream.buffers[t.frag].size);
      flow := Flow(flow.accepted, flow.inflight[1..], flow.played + heard);
      assert stream.View() == Oldest(ring) && stream.heap.mem[..] == mem;
    }

    twostate predicate Steady()
      reads this, stream, stream.heap.mem
    {
      && stream.buffers == old(stream.buffers) && stream.fragsize == old(stream.fragsize)
      && stream.owned == old(stream.owned)
    }

    // The DMA channel gets some way on while the driver is between two steps.
    method Interrupts(ghost held: bool) returns (ghost done: nat)
      requires Valid(held)
      modifies this, stream, stream.buffers
      ensures Valid(held) && Steady()
      ensures Advanced(old(stream.View()), old(flow), stream.View(), flow, done)
    {
      done := 0;
      var more: bool := *;
      AdvancedNone(stream.View(), flow);
      while more && stream.queue != []
        invariant Valid(held) && Steady()
        invariant Advanced(old(stream.View()), old(flow), stream.View(), flow, done)
        decreases |stream.queue|
      {
        AdvancedMore(old(stream.View()), old(flow), stream.View(), flow, done, stream.heap.mem[..], held);
        DmaOutDone(held);
        done := done + 1;
        more := *;
      }
    }

    // Wait for the current fragment, or find that it cannot be had; then there is no room at all. A blocked caller wakes up
    // after one completion, unless a signal comes first, which it does not when all is `calm`.
    method Await(nonblock: bool, calm: bool) returns (free: bool, ghost done: nat)
      requires Valid(false)
      modifies this, stream, stream.buffers
      ensures Valid(false) && Steady()
      ensures Advanced(old(stream.View()), old(flow), stream.View(), flow, done)
      ensures free ==> stream.buffers[stream.bufIdx].sem > 0
      ensures !free ==> Space(stream.View()) == 0 && (nonblock || !calm)
    {
      done := Interrupts(false);
      if stream.buffers[stream.bufIdx].sem == 0 {
        BlockedHasNoRoom(stream.View(), stream.heap.mem.Length);
        if nonblock {
          return false, done;
        }
        var signal: bool := *;
        if signal && !calm {
          return false, done;
        }
        AdvancedMore(old(stream.View()), old(flow), stream.View(), flow, done, stream.heap.mem[..], false);
        DmaOutDone(false);
        done := done + 1;
      }
      return true, done;
    }

    // down on a fragment that is free
    method Hold()
      requires Valid(false) && stream.buffers[stream.bufIdx].sem > 0
      modifies stream.buffers
      ensures Valid(true) && Steady() && flow == old(flow)
      ensures stream.View() == Take(old(stream.View())) && Free(stream.View()) > 0
      ensures stream.buffers[stream.bufIdx].size < stream.fragsize
      ensures Space(stream.View()) == Space(old(stream.View()))
    {
      TakePlays(stream.View(), stream.heap.mem[..], flow);
      stream.TakeCurrent();
    }

    // up on the held fragment
    method LetGo()
      requires Valid(true) && stream.buffers[stream.bufIdx].size < stream.fragsize
      modifies stream.buffers
      ensures Valid(false) && Steady() && flow == old(flow)
      ensures Space(stream.View()) == Space(old(stream.View()))
    {
      GivePlays(stream.View(), stream.heap.mem[..], flow);
      stream.GiveCurrent();
    }

    // down_trylock or down_interruptible on the current fragment.
    method Down(nonblock: bool, calm: bool) returns (got: bool, ghost done: nat)
      requires Valid(false)
      modifies this, stream, stream.buffers
      ensures Valid(got) && Steady()
      ensures Advanced(old(stream.View()), old(flow), stream.View(), flow, done)
      ensures got ==> Free(stream.View()) > 0 && stream.buffers[stream.bufIdx].size < stream.fragsize
      ensures !got ==> Space(stream.View()) == 0 && (nonblock || !calm)
    {
      got, done := Await(nonblock, calm);
      if got {
        AdvancedThenTaken(old(stream.View()), old(flow), stream.View(), flow, done);
        Hold();
      }
    }

    // The copy itself: `data` lands behind what the held fragment already has.
    method CopyChunk(channels: nat, buffer: seq<bv8>, pos: nat, address: nat, chunk: nat)
      returns (ok: bool, ghost data: seq<bv8>)
      requires stream.SetUp() && stream.bufIdx < stream.buffers.Length && 0 <= stream.buffers[stream.bufIdx].dmaAddr
      requires stream.buffers[stream.bufIdx].dmaAddr + stream.buffers[stream.bufIdx].size + Widened(channels, chunk)
               <= stream.heap.mem.Length
      requires 0 < chunk && Aligned(channels, chunk) && pos <= |buffer|
      modifies stream.heap.mem
      ensures stream.SetUp() && stream.View() == old(stream.View())
      ensures ok == (pos + chunk <= |buffer|)
      ensures |data| <= Widened(channels, chunk)
      ensures ok ==> data == Expand(channels, buffer[pos..pos + chunk]) && |data| == Widened(channels, chunk)
      ensures stream.heap.mem[..]
              == Splice(old(stream.heap.mem[..]), stream.buffers[stream.bufIdx].dmaAddr + stream.buffers[stream.bufIdx].size, data)
    {
      var to := stream.buffers[stream.bufIdx].dmaAddr + stream.buffers[stream.bufIdx].size;
      if channels == 2 {
        ok, data := CopyFromUser(stream.heap.mem, to, buffer, pos, chunk);
      } else {
        AlignedIsEven(channels, chunk);
        ok := CopyFromUserMonoStereo(stream.heap.mem, to, buffer, pos, address + pos, chunk);
        data := if ok then Stereo(buffer[pos..pos + chunk]) else [];
      }
    }

    // b->size += added, for bytes that are already in place.
    method Count(added: nat, ghost data: seq<bv8>)
      requires stream.SetUp() && stream.bufIdx < stream.buffers.Length
      requires Playing(Filled(stream.View(), added), stream.heap.mem[..], flow.(accepted := flow.accepted + data), true)
      modifies this, stream.buffers
      ensures Valid(true) && stream.buffers == old(stream.buffers)
      ensures stream.View() == Filled(old(stream.View()), added)
      ensures flow == old(flow).(accepted := old(flow).accepted + data)
    {
      stream.Grow(added);
      flow := flow.(accepted := flow.accepted + data);
    }

    // Copy `chunk` user bytes into the held fragment, doubling them if the stream is mono, and count them.
    method Fill(channels: nat, buffer: seq<bv8>, pos: nat, address: nat, chunk: nat) returns (ok: bool)
      requires Valid(true)
      requires 0 < chunk && Aligned(channels, chunk) && pos <= |buffer|
      requires stream.buffers[stream.bufIdx].size + Widened(channels, chunk) <= stream.fragsize
      modifies this, stream.buffers, stream.heap.mem
      ensures Valid(true)
      ensures ok == (pos + chunk <= |buffer|)
      ensures stream.buffers == old(stream.buffers)
      ensures stream.View() == if ok then Filled(old(stream.View()), Widened(channels, chunk)) else old(stream.View())
      ensures Space(stream.View()) == Space(old(stream.View())) - if ok then Widened(channels, chunk) else 0
      ensures flow == if ok then old(flow).(accepted := Taking(old(flow).accepted, channels, buffer, pos, chunk)) else old(flow)
    {
      ghost var ring, before := stream.View(), stream.heap.mem[..];
      CurrentFits(ring, |before|);
      ghost var data: seq<bv8>;
      ok, data := CopyChunk(channels, buffer, pos, address, chunk);
      if ok {
        FillPlays(ring, before, flow, data);
        Count(Widened(channels, chunk), data);
      } else {
        JunkPlays(ring, before, flow, data);
      }
    }

    // The same, of a buffer of which the first `pos` bytes have been accepted behind `accepted`.
    method FillOn(channels: nat, buffer: seq<bv8>, pos: nat, address: nat, chunk: nat, ghost accepted: seq<bv8>) returns (ok: bool)
      requires Valid(true)
      requires 0 < chunk && Aligned(channels, chunk) && pos <= |buffer|
      requires stream.buffers[stream.bufIdx].size + Widened(channels, chunk) <= stream.fragsize
      requires Aligned(channels, pos) && flow.accepted == Taking(accepted, channels, buffer, 0, pos)
      modifies this, stream.buffers, stream.heap.mem
      ensures Valid(true)
      ensures ok == (pos + chunk <= |buffer|)
      ensures stream.buffers == old(stream.buffers)
      ensures stream.View() == if ok then Filled(old(stream.View()), Widened(channels, chunk)) else old(stream.View())
      ensures Space(stream.View()) == Space(old(stream.View())) - if ok then Widened(channels, chunk) else 0
      ensures flow.played == old(flow.played)
      ensures flow.accepted == Taking(accepted, channels, buffer, 0, if ok then pos + chunk else pos)
    {
      ok := Fill(channels, buffer, pos, address, chunk);
      if ok {
        TakingMore(accepted, channels, buffer, pos, chunk);
      }
    }

    // s3c2410_dma_queue_buffer, b->size = 0, NEXT_BUF.
    method Queue()
      requires Valid(true) && 0 < stream.buffers[stream.bufIdx].size
      modifies this, stream, stream.buffers
      ensures Valid(false) && Steady()
      ensures stream.View() == Submit(old(stream.View()), old(stream.buffers[stream.bufIdx].size), 0)
      ensures Space(stream.View())
              == Space(old(stream.View())) - (stream.fragsize - old(stream.buffers[stream.bufIdx].size))
      ensures flow.accepted == old(flow.accepted) && flow.played == old(flow.played)
      ensures stream.buffers[stream.bufIdx].size == 0
    {
      SubmitPlays(stream.View(), stream.heap.mem[..], flow);
      ghost var queued := Partial(stream.View(), stream.heap.mem[..]);
      stream.QueueAndAdvance(stream.buffers[stream.bufIdx].size, 0);
      flow := flow.(inflight := flow.inflight + [queued]);
    }

    // A full fragment goes to the DMA channel, one with room left is let go.
    method Settle() returns (more: bool)
      requires Valid(true) && 0 < stream.buffers[stream.bufIdx].size
      modifies this, stream, stream.buffers
      ensures Valid(false) && Steady()
      ensures Space(stream.View()) == Space(old(stream.View()))
      ensures flow.accepted == old(flow.accepted) && flow.played == old(flow.played)
      ensures more == (old(stream.buffers[stream.bufIdx].size) == stream.fragsize)
      ensures more ==> stream.buffers[stream.bufIdx].size == 0
    {
      more := stream.buffers[stream.bufIdx].size >= stream.fragsize;
      if more {
        Queue();
      } else {
        LetGo();
      }
    }

    // One granted turn of the write loop: fill the held fragment, which has room for `head` bytes, as far as the user's bytes
    // go, then either queue it or let go of it. Then the buffer has been taken up to `upto`, and `rest` bytes are left; `more`
    // says whether the loop goes on, `done` how many fragments completed meanwhile.
    method Turn(channels: nat, buffer: seq<bv8>, pos: nat, address: nat, count: nat, ghost accepted: seq<bv8>, ghost head: nat)
      returns (fault: bool, more: bool, upto: nat, rest: nat, ghost done: nat)
      requires Valid(true) && head == stream.fragsize - stream.buffers[stream.bufIdx].size > 0
      requires 0 < count && Aligned(channels, count)
      requires pos <= |buffer| && Aligned(channels, pos) && flow.accepted == Taking(accepted, channels, buffer, 0, pos)
      modifies this, stream, stream.buffers, stream.heap.mem
      ensures Valid(false) && stream.buffers == old(stream.buffers) && stream.owned == old(stream.owned)
      ensures old(flow.played) <= flow.played && stream.fragsize == old(stream.fragsize)
      ensures pos <= upto <= |buffer| && upto + rest == pos + count
      ensures fault ==> upto == pos && !more && |buffer| < pos + Takes(channels, count, head)
      ensures !fault ==> rest + 2 <= count && (!more ==> rest == 0)
      ensures more ==> Widened(channels, upto - pos) == head && stream.buffers[stream.bufIdx].size == 0
      ensures Aligned(channels, upto - pos) && Aligned(channels, rest)
      ensures flow.accepted == Taking(accepted, channels, buffer, 0, upto)
      ensures Space(stream.View()) == Space(old(stream.View())) - Widened(channels, upto - pos) + Whole(done, stream.fragsize)
    {
      fault, upto, rest := CopyIn(channels, buffer, pos, address, count, accepted, head);
      if fault {
        LetGo();
        return fault, false, upto, rest, 0;
      }
      more, done := SettleLater();
    }

    // The part of a turn that copies.
    method CopyIn(channels: nat, buffer: seq<bv8>, pos: nat, address: nat, count: nat, ghost accepted: seq<bv8>, ghost head: nat)
      returns (fault: bool, upto: nat, rest: nat)
      requires Valid(true) && head == stream.fragsize - stream.buffers[stream.bufIdx].size > 0
      requires 0 < count && Aligned(channels, count)
      requires pos <= |buffer| && Aligned(channels, pos) && flow.accepted == Taking(accepted, channels, buffer, 0, pos)
      modifies this, stream.buffers, stream.heap.mem
      ensures Valid(true) && stream.buffers == old(stream.buffers)
      ensures pos <= upto <= |buffer| && upto + rest == pos + count
      ensures fault ==> upto == pos && |buffer| < pos + Takes(channels, count, head)
      ensures !fault ==> rest + 2 <= count && (rest == 0 || Widened(channels, upto - pos) == head)
      ensures stream.buffers[stream.bufIdx].size == old(stream.buffers[stream.bufIdx].size) + Widened(channels, upto - pos)
      ensures !fault ==> 0 < stream.buffers[stream.bufIdx].size
      ensures Aligned(channels, upto - pos) && Aligned(channels, rest)
      ensures flow.accepted == Taking(accepted, channels, buffer, 0, upto) && flow.played == old(flow.played)
      ensures Space(stream.View()) == Space(old(stream.View())) - Widened(channels, upto - pos)
    {
      var room := stream.fragsize - stream.buffers[stream.bufIdx].size;
      FramesAdd(stream.buffers[stream.bufIdx].size, room);
      var chunk := Chunk(channels, room, count);
      AlignedRest(channels, count, chunk);
      var ok := FillOn(channels, buffer, pos, address, chunk, accepted);
      if !ok {
        return true, pos, count;
      }
      fault, upto, rest := false, pos + chunk, count - chunk;
      assert upto - pos == chunk;
    }

    // The same as Settle, after some completions.
    method SettleLater() returns (more: bool, ghost done: nat)
      requires Valid(true) && 0 < stream.buffers[stream.bufIdx].size
      modifies this, stream, stream.buffers
      ensures Valid(false) && Steady()
      ensures Space(stream.View()) == Space(old(stream.View())) + Whole(done, stream.fragsize)
      ensures flow.accepted == old(flow.accepted) && old(flow.played) <= flow.played
      ensures more == (old(stream.buffers[stream.bufIdx].size) == stream.fragsize)
      ensures more ==> stream.buffers[stream.bufIdx].size == 0
    {
      done := Interrupts(true);
      more := Settle();
    }

    // The loop of smdk2410_audio_write. `consumed` is how far the user's buffer was taken, `done` how many fragments the
    // DMA channel finished meanwhile; `stuck` says that the current fragment could not be had.
    method WriteLoop(nonblock: bool, calm: bool, channels: nat, buffer: seq<bv8>, address: nat, count: nat,
                     ghost flow0: Flow, ghost space0: int, ghost head: nat)
      returns (fault: bool, stuck: bool, consumed: nat, ghost done: nat)
      requires Valid(false) && Aligned(channels, count)
      requires flow0 == flow && space0 == Space(stream.View()) && head == stream.fragsize - stream.buffers[stream.bufIdx].size
      modifies this, stream, stream.buffers, stream.heap.mem
      ensures Valid(false) && stream.buffers == old(stream.buffers) && stream.owned == old(stream.owned)
      ensures stream.fragsize == old(stream.fragsize)
      ensures Ledger(flow0, space0, channels, buffer, stream.View(), flow, consumed, done)
      ensures consumed <= count && (consumed == count || fault || stuck)
      ensures fault ==> Faulted(head, channels, buffer, stream.View(), consumed, count - consumed)
      ensures stuck ==> Space(stream.View()) == 0 && (nonblock || !calm) && consumed < count
    {
      var left := count;
      var more := true;
      fault, stuck, consumed, done := false, false, 0, 0;
      LedgerStarts(flow, space0, channels, buffer, stream.View(), head);
      while left > 0 && more
        invariant Valid(false) && stream.buffers == old(stream.buffers) && stream.owned == old(stream.owned)
        invariant stream.fragsize == old(stream.fragsize)
        invariant consumed + left == count && Aligned(channels, left)
        invariant Ledger(flow0, space0, channels, buffer, stream.View(), flow, consumed, done)
        invariant if more then !fault && !stuck else left == 0 || fault || stuck
        invariant more ==> Along(head, channels, buffer, stream.View(), consumed)
        invariant fault ==> Faulted(head, channels, buffer, stream.View(), consumed, left)
        invariant stuck ==> Space(stream.View()) == 0 && (nonblock || !calm) && left > 0
        decreases left, more
      {
        stuck, fault, more, consumed, left, done :=
          Step(nonblock, calm, channels, buffer, address, consumed, left, flow0, space0, done, head);
      }
    }

    // One pass of the write loop: get the current fragment, if it can be had, and take a turn. Then the buffer has been
    // taken up to `upto`, `rest` bytes are left, and `finished` fragments have been played.
    method Step(nonblock: bool, calm: bool, channels: nat, buffer: seq<bv8>, address: nat, consumed: nat, left: nat,
                ghost flow0: Flow, ghost space0: int, ghost done: nat, ghost head: nat)
      returns (stuck: bool, fault: bool, more: bool, upto: nat, rest: nat, ghost finished: nat)
      requires Valid(false) && 0 < left && Aligned(channels, left)
      requires Ledger(flow0, space0, channels, buffer, stream.View(), flow, consumed, done)
      requires Along(head, channels, buffer, stream.View(), consumed)
      modifies this, stream, stream.buffers, stream.heap.mem
      ensures Valid(false) && stream.buffers == old(stream.buffers) && stream.owned == old(stream.owned)
      ensures stream.fragsize == old(stream.fragsize)
      ensures upto + rest == consumed + left && Aligned(channels, rest)
      ensures stuck ==> rest == left && !fault && !more && Space(stream.View()) == 0 && (nonblock || !calm)
      ensures fault ==> rest == left && !more && Faulted(head, channels, buffer, stream.View(), upto, rest)
      ensures !stuck && !fault ==> rest + 2 <= left && (!more ==> rest == 0)
      ensures more ==> Along(head, channels, buffer, stream.View(), upto)
      ensures Ledger(flow0, space0, channels, buffer, stream.View(), flow, upto, finished)
    {
      var got;
      got, finished := DownInLedger(nonblock, calm, channels, buffer, consumed, flow0, space0, done, head);
      if !got {
        return true, false, false, consumed, left, finished;
      }
      stuck := false;
      finished := HeldInLedger(channels, buffer, consumed, flow0, space0, finished, head);
      fault, more, upto, rest, finished := TurnInLedger(channels, buffer, address, consumed, left, flow0, space0, finished, head);
    }

    method DownInLedger(nonblock: bool, calm: bool, ghost channels: nat, ghost buffer: seq<bv8>, ghost consumed: nat,
                        ghost flow0: Flow, ghost space0: int, ghost done: nat, ghost head: nat)
      returns (got: bool, ghost finished: nat)
      requires Valid(false)
      requires Ledger(flow0, space0, channels, buffer, stream.View(), flow, consumed, done)
      requires Along(head, channels, buffer, stream.View(), consumed)
      modifies this, stream, stream.buffers
      ensures Valid(got) && Steady()
      ensures !got ==> Space(stream.View()) == 0 && (nonblock || !calm)
      ensures Ledger(flow0, space0, channels, buffer, stream.View(), flow, consumed, finished)
      ensures Along(head, channels, buffer, stream.View(), consumed)
    {
      ghost var r, f := stream.View(), flow;
      ghost var d: nat;
      got, d := Down(nonblock, calm);
      finished := done + d;
      LedgerAdvance(flow0, space0, channels, buffer, r, f, consumed, done, stream.View(), flow, d);
      AlongStill(head, channels, buffer, r, stream.View(), consumed);
    }

    // Time passes while the fragment is held.
    method HeldInLedger(ghost channels: nat, ghost buffer: seq<bv8>, ghost consumed: nat,
                        ghost flow0: Flow, ghost space0: int, ghost done: nat, ghost head: nat)
      returns (ghost finished: nat)
      requires Valid(true) && Along(head, channels, buffer, stream.View(), consumed)
      requires Ledger(flow0, space0, channels, buffer, stream.View(), flow, consumed, done)
      modifies this, stream, stream.buffers
      ensures Valid(true) && Steady() && Along(head, channels, buffer, stream.View(), consumed)
      ensures Ledger(flow0, space0, channels, buffer, stream.View(), flow, consumed, finished)
    {
      ghost var r, f := stream.View(), flow;
      ghost var d := Interrupts(true);
      finished := done + d;
      LedgerAdvance(flow0, space0, channels, buffer, r, f, consumed, done, stream.View(), flow, d);
      AlongStill(head, channels, buffer, r, stream.View(), consumed);
    }

    method TurnInLedger(channels: nat, buffer: seq<bv8>, address: nat, consumed: nat, left: nat,
                        ghost flow0: Flow, ghost space0: int, ghost done: nat, ghost head: nat)
      returns (fault: bool, more: bool, upto: nat, rest: nat, ghost finished: nat)
      requires Valid(true) && 0 < left && Aligned(channels, left)
      requires Ledger(flow0, space0, channels, buffer, stream.View(), flow, consumed, done)
      requires Along(head, channels, buffer, stream.View(), consumed)
      modifies this, stream, stream.buffers, stream.heap.mem
      ensures Valid(false) && stream.buffers == old(stream.buffers) && stream.owned == old(stream.owned)
      ensures stream.fragsize == old(stream.fragsize)
      ensures upto + rest == consumed + left && Aligned(channels, rest)
      ensures fault ==> rest == left && !more && Faulted(head, channels, buffer, stream.View(), upto, rest)
      ensures !fault ==> rest + 2 <= left && (!more ==> rest == 0)
      ensures more ==> Along(head, channels, buffer, stream.View(), upto)
      ensures Ledger(flow0, space0, channels, buffer, stream.View(), flow, upto, finished)
    {
      ghost var r, f := stream.View(), flow;
      ghost var d;
      fault, more, upto, rest, d := TurnAlong(channels, buffer, address, consumed, left, head, flow0.accepted);
      finished := done + d;
      LedgerTurn(flow0, space0, channels, buffer, r, f, consumed, done, stream.View(), flow, upto, d);
    }

    // A turn, as far as the pieces go in which the buffer is taken.
    method TurnAlong(channels: nat, buffer: seq<bv8>, address: nat, consumed: nat, left: nat, ghost head: nat, ghost accepted: seq<bv8>)
      returns (fault: bool, more: bool, upto: nat, rest: nat, ghost done: nat)
      requires Valid(true) && 0 < left && Aligned(channels, left)
      requires Along(head, channels, buffer, stream.View(), consumed)
      requires Aligned(channels, consumed) && flow.accepted == Taking(accepted, channels, buffer, 0, consumed)
      modifies this, stream, stream.buffers, stream.heap.mem
      ensures Valid(false) && stream.buffers == old(stream.buffers) && stream.owned == old(stream.owned)
      ensures stream.fragsize == old(stream.fragsize)
      ensures consumed <= upto <= |buffer| && upto + rest == consumed + left
      ensures Aligned(channels, upto - consumed) && Aligned(channels, rest)
      ensures fault ==> rest == left && !more && Faulted(head, channels, buffer, stream.View(), upto, rest)
      ensures !fault ==> rest + 2 <= left && (!more ==> rest == 0)
      ensures more ==> Along(head, channels, buffer, stream.View(), upto)
      ensures flow.accepted == Taking(accepted, channels, buffer, 0, upto)
      ensures Space(stream.View()) == Space(old(stream.View())) - Widened(channels, upto - consumed) + Whole(done, stream.fragsize)
      ensures old(flow.played) <= flow.played
    {
      ghost var r := stream.View();
      HeadIsRoom(r, stream.heap.mem.Length);
      fault, more, upto, rest, done := Turn(channels, buffer, consumed, address, left, accepted, r.fragsize - r.bufs[r.idx].size);
      AlongTurn(head, channels, buffer, r, stream.View(), consumed, upto, left, rest, fault, more);
    }

    // The bytes accepted and played since the ring was set up, and the room a writer finds.
    ghost function Accepted(): seq<bv8>
      reads this, stream
    {
      if stream.buffers == null then [] else flow.accepted
    }

    ghost function Played(): seq<bv8>
      reads this, stream
    {
      if stream.buffers == null then [] else flow.played
    }

    ghost function Room(audioNbfrags: nat, audioFragsize: nat): int
      requires stream.buffers != null ==> stream.bufIdx < stream.buffers.Length
      reads stream, stream.buffers
    {
      if stream.buffers == null then audioNbfrags * audioFragsize else Space(stream.View())
    }

    lemma PlayedIsAccepted()
      requires Ready()
      ensures Played() <= Accepted()
    {
      if stream.buffers != null {
        PlayedInOrder(stream.View(), stream.heap.mem[..], flow, false);
      }
    }

    // How much of that is in the current fragment.
    ghost function Head(audioFragsize: nat): int
      requires stream.buffers != null ==> stream.bufIdx < stream.buffers.Length
      reads stream, stream.buffers
    {
      if stream.buffers == null then audioFragsize else stream.fragsize - stream.buffers[stream.bufIdx].size
    }

    // if (!s->buffers && audio_setup_buf(s)) ...
    method EnsureSetUp(audioNbfrags: nat, audioFragsize: nat) returns (ok: bool)
      requires Ready() && 0 < audioNbfrags && 0 < audioFragsize && Frames(audioFragsize)
      modifies this, stream, stream.heap
      ensures ok ==> Valid(false) && Space(stream.View()) == old(Room(audioNbfrags, audioFragsize))
      ensures ok ==> stream.fragsize - stream.buffers[stream.bufIdx].size == old(Head(audioFragsize))
      ensures !ok <==> NoMemory(old(stream.heap.denied), stream.heap.denied, old(stream.heap.refusals), stream.heap.refusals, audioFragsize)
      ensures old(stream.heap.refusals) <= stream.heap.refusals && old(stream.heap.denied) <= stream.heap.denied
      ensures old(stream.buffers) == null && old(stream.heap.Holds(audioNbfrags * audioFragsize)) ==> ok
      ensures ok ==> flow.accepted == old(Accepted()) && flow.played == old(Played())
      ensures ok ==> stream.buffers == old(stream.buffers) || fresh(stream.buffers)
      ensures !ok ==> stream.buffers == null && stream.Owns()
      ensures old(stream.buffers) != null ==> ok && stream.buffers == old(stream.buffers) && stream.fragsize == old(stream.fragsize)
      ensures ok && old(stream.buffers) == null ==> stream.fragsize == audioFragsize
      ensures stream.heap.live - stream.owned == old(stream.heap.live - stream.owned)
    {
      if stream.buffers != null {
        return true;
      }
      var err := stream.SetupBuf(audioNbfrags, audioFragsize);
      ok := err == 0;
      if ok {
        StartEmpty();
      }
    }

    // A ring just set up: nothing accepted, room everywhere.
    ghost method StartEmpty()
      requires stream.SetUp() && stream.bufIdx == 0 && stream.queue == [] && Frames(stream.fragsize)
      requires forall i {:trigger Fresh(stream.buffers[i])} :: 0 <= i < stream.buffers.Length ==> Fresh(stream.buffers[i])
      modifies this
      ensures Valid(false) && flow == Flow([], [], [])
      ensures Space(stream.View()) == stream.buffers.Length * stream.fragsize && stream.buffers[stream.bufIdx].size == 0
    {
      flow := Flow([], [], []);
      forall i | 0 <= i < stream.buffers.Length
        ensures stream.View().bufs[i].sem == 1 && stream.View().bufs[i].size == 0
      {
        assert Fresh(stream.buffers[i]);
      }
      FreshPlays(stream.View(), stream.heap.mem[..]);
    }

    // smdk2410_audio_write. Whatever the DMA channel does meanwhile, the bytes accepted are those of the buffer up to
    // `consumed`, in order, and the return value is that count unless it is an error. The count is exactly what was asked
    // for or what fits the room there was and the `done` fragments that completed meanwhile; it takes a signal to make a
    // blocking write come back early. If fewer bytes than that can be read, the write fails, after whole fragments of what can.
    method Write(file: OpenFile, calm: bool, channels: nat, buffer: seq<bv8>, address: nat, count: nat,
                 audioNbfrags: nat, audioFragsize: nat)
      returns (ret: int, consumed: nat, ghost done: nat, ghost room: nat)
      requires Ready() && 0 < audioNbfrags && 0 < audioFragsize && Frames(audioFragsize)
      modifies this, stream, stream.buffers, stream.heap, stream.heap.mem
      ensures Ready()
      ensures stream.heap.live - stream.owned == old(stream.heap.live - stream.owned)
      ensures stream.buffers == null || stream.buffers == old(stream.buffers) || fresh(stream.buffers)
      ensures ret == -EPERM <==> !file.canWrite
      ensures ret == -ENOMEM <==>
              NoMemory(old(stream.heap.denied), stream.heap.denied, old(stream.heap.refusals), stream.heap.refusals, audioFragsize)
      ensures old(stream.heap.refusals) <= stream.heap.refusals && old(stream.heap.denied) <= stream.heap.denied
      ensures old(stream.buffers) == null && old(stream.heap.Holds(audioNbfrags * audioFragsize)) ==> ret != -ENOMEM
      ensures ret == -ENOMEM ==> old(stream.buffers) == null == stream.buffers
      ensures ret == -EPERM || ret == -ENOMEM ==> consumed == 0
      ensures consumed <= Rounded(count) && consumed <= |buffer|
      ensures Accepted() == Taking(old(Accepted()), channels, buffer, 0, consumed) && old(Played()) <= Played()
      ensures ret != -EPERM && ret != -ENOMEM ==>
                && stream.buffers != null && 0 <= old(Head(audioFragsize))
                && room == old(Room(audioNbfrags, audioFragsize)) + Whole(done, stream.fragsize)
                && Space(stream.View()) + Widened(channels, consumed) == room
                && Ended(channels, buffer, Rounded(count), file.nonblock, calm, room, old(Head(audioFragsize)), stream.fragsize, ret, consumed)
      ensures ret !in {-EPERM, -ENOMEM, -EFAULT} ==>
                && (ret == -EAGAIN <==> file.nonblock && 4 <= count && consumed == 0)
                && (ret == -ERESTARTSYS <==> !file.nonblock && 4 <= count && consumed == 0)
                && (ret != -EAGAIN && ret != -ERESTARTSYS ==> ret == consumed)
                && ((consumed % 4 == 0 && consumed <= count < consumed + 4) || consumed == if channels == 2 then room else room / 2)
                && (calm && !file.nonblock ==> consumed % 4 == 0 && consumed <= count < consumed + 4)
      ensures ret == -EFAULT ==> |buffer| < count - count % 4
      ensures stream.buffers != null ==> stream.fragsize == if old(stream.buffers) == null then audioFragsize else old(stream.fragsize)
    {
      TakingNothing(Accepted(), channels, buffer, 0);
      if !file.canWrite {
        return -EPERM, 0, 0, 0;
      }
      var whole := Rounded(count);
      QuadrupleIsAligned(channels, whole);
      ret, consumed, done, room :=
        WriteOpen(file.nonblock, calm, channels, buffer, address, whole, audioNbfrags, audioFragsize,
                  Accepted(), Played(), Room(audioNbfrags, audioFragsize), Head(audioFragsize), stream.heap.live - stream.owned,
                  stream.heap.denied, stream.heap.refusals);
      if ret == -EFAULT {
        FailedOutright(channels, buffer, count, file.nonblock, calm, room, old(Head(audioFragsize)), stream.fragsize, consumed);
      } else if ret != -ENOMEM {
        WroteOutright(channels, buffer, count, file.nonblock, calm, room, old(Head(audioFragsize)), stream.fragsize, ret, consumed);
      }
    }

    // The same on a file open for writing, on which `accepted` and `played` have passed and there are `room` bytes of room,
    // `head` of them in the current fragment; `others` are the allocations of others.
    method WriteOpen(nonblock: bool, calm: bool, channels: nat, buffer: seq<bv8>, address: nat, whole: nat,
                     audioNbfrags: nat, audioFragsize: nat,
                     ghost accepted: seq<bv8>, ghost played: seq<bv8>, ghost room0: int, ghost head: int, ghost others: set<Block>,
                     ghost denied: nat, ghost refusals: seq<nat>)
      returns (ret: int, consumed: nat, ghost done: nat, ghost room: nat)
      requires Ready() && 0 < audioNbfrags && 0 < audioFragsize && Frames(audioFragsize) && Aligned(channels, whole)
      requires accepted == Accepted() && played == Played() && room0 == Room(audioNbfrags, audioFragsize) && head == Head(audioFragsize)
      requires others == stream.heap.live - stream.owned && denied == stream.heap.denied && refusals == stream.heap.refusals
      modifies this, stream, stream.buffers, stream.heap, stream.heap.mem
      ensures Ready() && stream.heap.live - stream.owned == others
      ensures stream.buffers == null || stream.buffers == old(stream.buffers) || fresh(stream.buffers)
      ensures ret != -EPERM
      ensures ret == -ENOMEM <==> NoMemory(denied, stream.heap.denied, refusals, stream.heap.refusals, audioFragsize)
      ensures refusals <= stream.heap.refusals && denied <= stream.heap.denied
      ensures old(stream.buffers) == null && old(stream.heap.Holds(audioNbfrags * audioFragsize)) ==> ret != -ENOMEM
      ensures ret == -ENOMEM ==> old(stream.buffers) == null == stream.buffers && consumed == 0
      ensures consumed <= whole && consumed <= |buffer|
      ensures Accepted() == Taking(accepted, channels, buffer, 0, consumed) && played <= Played()
      ensures ret != -ENOMEM ==>
                && stream.buffers != null && 0 <= head
                && room == room0 + Whole(done, stream.fragsize) && Space(stream.View()) + Widened(channels, consumed) == room
                && Ended(channels, buffer, whole, nonblock, calm, room, head, stream.fragsize, ret, consumed)
      ensures stream.buffers != null ==> stream.fragsize == if old(stream.buffers) == null then audioFragsize else old(stream.fragsize)
    {
      var ok := EnsureSetUp(audioNbfrags, audioFragsize);
      if !ok {
        TakingNothing(accepted, channels, buffer, 0);
        return -ENOMEM, 0, 0, 0;
      }
      ret, consumed, done, room := WriteSetUp(nonblock, calm, channels, buffer, address, whole, accepted, played, room0, head, others);
    }

    // The same on a ring that is set up.
    method WriteSetUp(nonblock: bool, calm: bool, channels: nat, buffer: seq<bv8>, address: nat, whole: nat,
                      ghost accepted: seq<bv8>, ghost played: seq<bv8>, ghost room0: int, ghost head: nat, ghost others: set<Block>)
      returns (ret: int, consumed: nat, ghost done: nat, ghost room: nat)
      requires Valid(false) && Aligned(channels, whole)
      requires accepted == flow.accepted && played == flow.played && room0 == Space(stream.View())
      requires head == stream.fragsize - stream.buffers[stream.bufIdx].size
      requires others == stream.heap.live - stream.owned
      modifies this, stream, stream.buffers, stream.heap.mem
      ensures Valid(false) && stream.buffers == old(stream.buffers) && stream.heap.live - stream.owned == others
      ensures stream.fragsize == old(stream.fragsize)
      ensures consumed <= whole && consumed <= |buffer|
      ensures flow.accepted == Taking(accepted, channels, buffer, 0, consumed) && played <= flow.played
      ensures room == room0 + Whole(done, stream.fragsize) && Space(stream.View()) + Widened(channels, consumed) == room
      ensures ret != -EPERM && ret != -ENOMEM
      ensures Ended(channels, buffer, whole, nonblock, calm, room, head, stream.fragsize, ret, consumed)
    {
      var fault, stuck;
      fault, stuck, consumed, done := WriteLoop(nonblock, calm, channels, buffer, address, whole, flow, room0, head);
      SpaceIsThere(stream.View(), stream.heap.mem.Length, false);
      room := Space(stream.View()) + Widened(channels, consumed);
      if fault {
        ret := -EFAULT;
        FaultedEnds(channels, buffer, whole, nonblock, calm, room, head, stream.View(), consumed);
      } else {
        ret := Outcome(whole, consumed, nonblock);
        StoppedExactly(channels, whole, nonblock, calm, room, Space(stream.View()), ret, consumed);
      }
    }

    // Give the DMA channel the part filled fragment, if there is one. Its down never blocks.
    method QueuePartial()
      requires Valid(false)
      modifies this, stream, stream.buffers
      ensures Valid(false) && Steady() && flow.accepted == old(flow.accepted) && old(flow.played) <= flow.played
      ensures stream.buffers[stream.bufIdx].size == 0
    {
      ghost var done := Interrupts(false);
      if stream.buffers[stream.bufIdx].size != 0 {
        PartFilledIsFree(stream.View(), stream.heap.mem.Length);
        Hold();
        QueueLater();
      }
    }

    // Queue, after some completions.
    method QueueLater()
      requires Valid(true) && 0 < stream.buffers[stream.bufIdx].size
      modifies this, stream, stream.buffers
      ensures Valid(false) && Steady() && flow.accepted == old(flow.accepted) && old(flow.played) <= flow.played
      ensures stream.buffers[stream.bufIdx].size == 0
    {
      ghost var done := Interrupts(true);
      Queue();
    }

    // down_interruptible and up on fragment `last`. All that changes meanwhile is that requests complete; the semaphore that
    // was taken is given back.
    method AwaitFragment(last: nat, calm: bool) returns (ok: bool, ghost done: nat)
      requires Valid(false) && last < stream.buffers.Length
      modifies this, stream, stream.buffers
      ensures Valid(false) && Steady()
      ensures Advanced(old(stream.View()), old(flow), stream.View(), flow, done)
      ensures ok ==> stream.buffers[last].sem == 1
      ensures calm ==> ok
    {
      done := 0;
      AdvancedNone(stream.View(), flow);
      while stream.buffers[last].sem == 0
        invariant Valid(false) && Steady()
        invariant Advanced(old(stream.View()), old(flow), stream.View(), flow, done)
        decreases |stream.queue|
      {
        var signal: bool := *;
        if signal && !calm {
          return false, done;
        }
        DownIsQueued(stream.View(), last);
        AdvancedMore(old(stream.View()), old(flow), stream.View(), flow, done, stream.heap.mem[..], false);
        DmaOutDone(false);
        done := done + 1;
      }
      DownAndUp(last);
      return true, done;
    }

    // Between the two nothing can complete: if this is the last fragment, nothing is queued any more.
    method DownAndUp(last: nat)
      requires Valid(false) && last < stream.buffers.Length && stream.buffers[last].sem > 0
      modifies stream.buffers
      ensures Valid(false) && stream.View() == old(stream.View()) && stream.buffers[last].sem == 1
    {
      ghost var before := stream.View();
      SemaphoreIsOne(before, last);
      stream.buffers[last] := stream.buffers[last].(sem := stream.buffers[last].sem - 1);
      stream.buffers[last] := stream.buffers[last].(sem := stream.buffers[last].sem + 1);
      assert stream.View() == before;
    }

    // audio_sync: when it returns 0, every byte accepted so far has been played, although it waits for one fragment only;
    // and only a signal keeps it from returning 0.
    method Sync(calm: bool) returns (ret: int)
      requires Ready()
      modifies this, stream, stream.buffers
      ensures Ready() && stream.buffers == old(stream.buffers) && stream.owned == old(stream.owned)
      ensures ret == 0 || ret == -EINTR
      ensures calm ==> ret == 0
      ensures Accepted() == old(Accepted())
      ensures old(Played()) <= Played() <= Accepted()
      ensures ret == 0 && stream.buffers != null ==> stream.queue == [] && flow.played == flow.accepted
    {
      if stream.buffers == null {
        return 0;
      }
      var ok := Drain(calm);
      PlayedInOrder(stream.View(), stream.heap.mem[..], flow, false);
      if !ok {
        return -EINTR;
      }
      return 0;
    }

    // The same on a ring that is set up; false when a signal came first.
    method Drain(calm: bool) returns (ok: bool)
      requires Valid(false)
      modifies this, stream, stream.buffers
      ensures Valid(false) && Steady() && flow.accepted == old(flow.accepted) && old(flow.played) <= flow.played
      ensures ok ==> stream.queue == [] && flow.played == flow.accepted
      ensures calm ==> ok
    {
      QueuePartial();
      ok := AwaitLast(calm);
    }

    method AwaitLast(calm: bool) returns (ok: bool)
      requires Valid(false) && stream.buffers[stream.bufIdx].size == 0
      modifies this, stream, stream.buffers
      ensures Valid(false) && Steady() && flow.accepted == old(flow.accepted) && old(flow.played) <= flow.played
      ensures ok ==> stream.queue == [] && flow.played == flow.accepted
      ensures calm ==> ok
    {
      var last := stream.LastFragment();
      ghost var done;
      ok, done := AwaitFragment(last, calm);
      if ok {
        LastFragmentEndsAll(stream.View(), stream.heap.mem[..], flow, last);
      }
    }

    // SNDCTL_DSP_GETOSPACE. Fragments may complete while it counts: `bytes` lies between the room at the start and the room
    // at the end, `frags` between the numbers of wholly empty free fragments. Where a ring has been and is no more, nbfrags is
    // still there, and the source follows a null pointer.
    method GetOSpace() returns (report: Report, ghost done: nat)
      requires Ready()
      modifies this, stream, stream.buffers
      ensures Ready() && stream.buffers == old(stream.buffers) && stream.owned == old(stream.owned) && stream.fragsize == old(stream.fragsize)
      ensures report.Oops? <==> old(stream.buffers) == null && old(stream.nbfrags) > 0
      ensures stream.buffers == null ==> flow == old(flow) && done == 0
      ensures stream.buffers != null ==> Space(stream.View()) == Space(old(stream.View())) + Whole(done, stream.fragsize)
      ensures stream.buffers == null && old(stream.nbfrags) == 0 ==> report == Report(0, 0)
      ensures stream.buffers != null ==>
                && Advanced(old(stream.View()), old(flow), stream.View(), flow, done)
                && Space(old(stream.View())) <= report.bytes <= Space(stream.View())
                && IdleCount(old(stream.View())) <= report.frags <= IdleCount(stream.View())
    {
      if stream.nbfrags == 0 {
        return Report(0, 0), 0;
      }
      if stream.buffers == null {
        return Oops, 0;
      }
      var frags, bytes;
      frags, bytes, done := CountRoom();
      report := Report(frags, bytes);
    }

    method CountRoom() returns (frags: nat, bytes: nat, ghost done: nat)
      requires Valid(false)
      modifies this, stream, stream.buffers
      ensures Valid(false) && Steady()
      ensures Advanced(old(stream.View()), old(flow), stream.View(), flow, done)
      ensures Space(old(stream.View())) <= bytes <= Space(stream.View())
      ensures IdleCount(old(stream.View())) <= frags <= IdleCount(stream.View())
    {
      ghost var r, f := stream.View(), flow;
      frags, bytes, done := 0, 0, 0;
      AdvancedNone(r, f);
      CountedNone(r);
      var i := 0;
      while i < stream.nbfrags
        invariant Valid(false) && Steady() && 0 <= i <= stream.nbfrags == |r.bufs|
        invariant Advanced(r, f, stream.View(), flow, done)
        invariant Counted(r, stream.View(), i, frags, bytes)
      {
        frags, bytes, done := CountOne(i, frags, bytes, r, f, done);
        i := i + 1;
      }
      CountedAll(r, stream.View(), stream.heap.mem.Length, frags, bytes);
    }

    // One turn of the counting loop.
    method CountOne(i: nat, frags: nat, bytes: nat, ghost r: Ring, ghost f: Flow, ghost done: nat)
      returns (frags': nat, bytes': nat, ghost done': nat)
      requires Valid(false) && r.idx < |r.bufs| && Shaped(r, stream.heap.mem.Length, false)
      requires i < stream.nbfrags == |r.bufs| && Advanced(r, f, stream.View(), flow, done)
      requires Counted(r, stream.View(), i, frags, bytes)
      modifies this, stream, stream.buffers
      ensures Valid(false) && Steady() && stream.nbfrags == old(stream.nbfrags)
      ensures Advanced(r, f, stream.View(), flow, done')
      ensures Counted(r, stream.View(), i + 1, frags', bytes')
    {
      ghost var r1, f1 := stream.View(), flow;
      ghost var d := Interrupts(false);
      done' := done + d;
      CountedMore(r, f, r1, f1, done, stream.View(), flow, d, stream.heap.mem.Length, i, frags, bytes);
      frags', bytes' := AddFragment(i, frags, bytes);
    }

    method AddFragment(i: nat, frags: nat, bytes: nat) returns (frags': nat, bytes': nat)
      requires Valid(false) && i < stream.nbfrags
      ensures frags' == frags + Idle(stream.View(), i) && bytes' == bytes + RoomIn(stream.View(), i)
    {
      SizeFits(stream.View(), stream.heap.mem.Length, i);
      frags', bytes' := frags, bytes;
      if stream.buffers[i].sem > 0 {
        if stream.buffers[i].size == 0 {
          frags' := frags + 1;
        }
        bytes' := bytes + (stream.fragsize - stream.buffers[i].size);
      }
    }

    // smdk2410_audio_release on the last close for writing: drain, then give all memory back. `played` is all that has
    // been played since the ring was set up.
    method Release(calm: bool) returns (ghost synced: int, ghost played: seq<bv8>)
      requires Ready()
      modifies this, stream, stream.buffers, stream.heap`live
      ensures stream.buffers == null && stream.Owns() && stream.queue == []
      ensures stream.heap.live == old(stream.heap.live) - old(stream.owned)
      ensures old(Played()) <= played <= old(Accepted()) && (synced == 0 ==> played == old(Accepted()))
      ensures calm ==> synced == 0
    {
      synced := Sync(calm);
      played := Played();
      stream.ClearBuf();
    }

    // SNDCTL_DSP_RESET: what has not been played yet is dropped.
    method Reset()
      requires Ready()
      modifies this, stream, stream.heap`live
      ensures Ready() && stream.buffers == null && stream.queue == [] && stream.nbfrags == old(stream.nbfrags)
      ensures stream.heap.live == old(stream.heap.live) - old(stream.owned) && stream.owned == {}
    {
      stream.ClearBuf();
    }

    // SNDCTL_DSP_SETFRAGMENT on a file open for writing. Whatever is asked for, the ring that results is in order.
    method SetFragment(val: nat) returns (err: int)
      requires Ready() && val < Arithmetic.WORD
      modifies this, stream, stream.heap
      ensures Ready()
      ensures old(stream.buffers) != null ==> err == -EBUSY && stream.buffers == old(stream.buffers) && flow == old(flow)
      ensures old(stream.buffers) == null ==> err == 0 || err == -ENOMEM
      ensures err == 0 ==>
                && stream.buffers != null
                && (stream.fragsize, stream.buffers.Length) == FragmentSize.SetFragment(val)
                && Space(stream.View()) == stream.buffers.Length * stream.fragsize <= 128 * 1024
      ensures err == 0 ==> FragmentSize.AsAsked(val, stream.fragsize, stream.buffers.Length)
      ensures old(stream.buffers) == null ==> stream.nbfrags == FragmentSize.SetFragment(val).1
      ensures err == -ENOMEM ==> stream.buffers == null && stream.heap.live == old(stream.heap.live)
      ensures err == -ENOMEM <==>
              NoMemory(old(stream.heap.denied), stream.heap.denied, old(stream.heap.refusals), stream.heap.refusals,
                       FragmentSize.SetFragment(val).0)
      ensures old(stream.heap.refusals) <= stream.heap.refusals && old(stream.heap.denied) <= stream.heap.denied
      ensures old(stream.buffers) == null && old(stream.heap.Holds(FragmentSize.Total(val))) ==> err == 0
      ensures stream.heap.live - stream.owned == old(stream.heap.live - stream.owned)
      ensures stream.buffers == null || stream.buffers == old(stream.buffers) || fresh(stream.buffers)
      ensures Accepted() == old(Accepted()) && Played() == old(Played())
    {
      if stream.buffers != null {
        return -EBUSY;
      }
      var (audioFragsize, audioNbfrags) := FragmentSize.SetFragment(val);
      FragmentSize.SetFragmentInRange(val);
      FragmentSize.SetFragmentAsAsked(val);
      err := stream.SetupBuf(audioNbfrags, audioFragsize);
      if err == 0 {
        StartEmpty();
      }
    }
  }
}
