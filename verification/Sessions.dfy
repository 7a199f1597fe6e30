// Whole sessions with the audio device, from open to release: any calls, in any order, with the DMA channel running all
// the while.
module Sessions {
  import opened Sequences
  import opened FragmentRing
  import opened PlaybackRing
  import opened DmaMemory
  import opened Playback
  import Capture
  import CaptureRing
  import opened Errno
  import FragmentSize
  import Arithmetic

  // A call is `calm` when no signal comes while it lasts.
  datatype PlayCall =
    | Write(file: OpenFile, calm: bool, channels: nat, buffer: seq<bv8>, address: nat, count: nat)
    | Sync(calm: bool)
    | SetFragment(val: nat)
    | Reset
    | Pause // only time passes

  predicate Meant(c: PlayCall)
  {
    c.SetFragment? ==> c.val < Arithmetic.WORD
  }

  // A call can consume what its buffer holds.
  predicate Consumable(c: PlayCall, n: nat)
  {
    if c.Write? then n <= |c.buffer| else n == 0
  }

  // What the codec is owed after a call, given what it was owed before and how much the call consumed.
  function OwedAfter(owed: seq<bv8>, c: PlayCall, n: nat): seq<bv8>
    requires Consumable(c, n)
  {
    match c
    case Write(_, _, channels, buffer, _, _) => owed + Expand(channels, buffer[..n])
    case Reset => []
    case _ => owed
  }

  predicate AllConsumable(calls: seq<PlayCall>, consumed: seq<nat>)
  {
    |consumed| == |calls| && forall i :: 0 <= i < |calls| ==> Consumable(calls[i], consumed[i])
  }

  // And after all calls.
  function Owed(calls: seq<PlayCall>, consumed: seq<nat>): seq<bv8>
    requires AllConsumable(calls, consumed)
  {
    if calls == [] then []
    else
      var n := |calls| - 1;
      OwedAfter(Owed(calls[..n], consumed[..n]), calls[n], consumed[n])
  }

  lemma OwedMore(calls: seq<PlayCall>, consumed: seq<nat>, c: PlayCall, n: nat)
    requires AllConsumable(calls, consumed) && Consumable(c, n)
    ensures AllConsumable(calls + [c], consumed + [n])
    ensures Owed(calls + [c], consumed + [n]) == OwedAfter(Owed(calls, consumed), c, n)
  {
    assert (calls + [c])[..|calls|] == calls && (consumed + [n])[..|calls|] == consumed;
  }

  // audio_nbfrags and audio_fragsize, which SNDCTL_DSP_SETFRAGMENT changes.
  datatype Defaults = Defaults(nbfrags: nat, fragsize: nat)

  predicate Usable(d: Defaults)
  {
    0 < d.nbfrags && 0 < d.fragsize && Frames(d.fragsize)
  }

  // What the caller gets to see of a call that consumed n bytes. A write without the right, the memory or the bytes it takes
  // fails; any other returns what it consumed, or says why that is nothing although four bytes or more were asked for.
  // With no signal, a blocking one consumes the greatest multiple of four that it was given, and a sync succeeds.
  predicate Answered(c: PlayCall, n: nat, ret: int)
  {
    match c
    case Write(file, calm, _, buffer, _, count) =>
      && n <= count
      && (ret == -EPERM <==> !file.canWrite)
      && (ret in {-EPERM, -ENOMEM} ==> n == 0)
      && (ret == -EFAULT ==> |buffer| < count - count % 4)
      && (ret !in {-EPERM, -ENOMEM, -EFAULT} ==>
            && (ret == -EAGAIN <==> file.nonblock && 4 <= count && n == 0)
            && (ret == -ERESTARTSYS <==> !file.nonblock && 4 <= count && n == 0)
            && (ret != -EAGAIN && ret != -ERESTARTSYS ==> ret == n)
            && (calm && !file.nonblock ==> n % 4 == 0 && count < n + 4))
    case Sync(calm) => ret in {0, -EINTR} && (calm ==> ret == 0)
    case SetFragment(_) => ret in {0, -EBUSY, -ENOMEM}
    case _ => ret == 0
  }

  // What SNDCTL_DSP_SETFRAGMENT makes of them, unless the stream is busy.
  method DefaultsAfter(val: nat, busy: bool, d: Defaults) returns (next: Defaults)
    requires val < Arithmetic.WORD && Usable(d)
    ensures Usable(next)
    ensures if busy then next == d else FragmentSize.AsAsked(val, next.fragsize, next.nbfrags)
  {
    if busy {
      return d;
    }
    FragmentSize.SetFragmentInRange(val);
    FragmentSize.SetFragmentAsAsked(val);
    var (fragsize, nbfrags) := FragmentSize.SetFragment(val);
    next := Defaults(nbfrags, fragsize);
  }

  method Perform(out: OutputStream, c: PlayCall, d: Defaults) returns (n: nat, ret: int, next: Defaults)
    requires out.Ready() && Usable(d) && Meant(c)
    modifies out, out.stream, out.stream.buffers, out.stream.heap, out.stream.heap.mem
    ensures out.Ready() && Usable(next) && Consumable(c, n) && Answered(c, n, ret)
    ensures out.Accepted() == OwedAfter(old(out.Accepted()), c, n)
    ensures if c.Reset? then out.Played() == [] else old(out.Played()) <= out.Played()
    ensures c.Sync? && ret == 0 ==> out.Played() == out.Accepted()
    ensures Grudged(old(out.stream.heap.denied), out.stream.heap.denied, old(out.stream.heap.refusals), out.stream.heap.refusals)
    ensures ret == -ENOMEM ==> !Served(old(out.stream.heap.denied), out.stream.heap.denied, old(out.stream.heap.refusals), out.stream.heap.refusals)
    ensures out.stream.heap.live - out.stream.owned == old(out.stream.heap.live - out.stream.owned)
    ensures out.stream.buffers == null || out.stream.buffers == old(out.stream.buffers) || fresh(out.stream.buffers)
  {
    n, ret, next := 0, 0, d;
    match c {
      case Write(file, calm, channels, buffer, address, count) =>
        ghost var done, room;
        ret, n, done, room := out.Write(file, calm, channels, buffer, address, count, d.nbfrags, d.fragsize);
        assert buffer[0..n] == buffer[..n];
      case Sync(calm) =>
        ret := out.Sync(calm);
      case SetFragment(val) =>
        next := DefaultsAfter(val, out.stream.buffers != null, d);
        ret := out.SetFragment(val);
      case Reset =>
        out.Reset();
      case Pause =>
        if out.stream.buffers != null {
          ghost var done := out.Interrupts(false);
        }
    }
  }

  // The allocator's refusals only grow in number.
  ghost predicate Grudged(denied: nat, denied': nat, refusals: seq<nat>, refusals': seq<nat>)
  {
    denied <= denied' && refusals <= refusals'
  }

  // It has refused nothing.
  ghost predicate Served(denied: nat, denied': nat, refusals: seq<nat>, refusals': seq<nat>)
  {
    denied' == denied && refusals' == refusals
  }

  predicate AllAnswered(calls: seq<PlayCall>, consumed: seq<nat>, rets: seq<int>)
    requires |consumed| == |calls|
  {
    |rets| == |calls| && forall i :: 0 <= i < |calls| ==> Answered(calls[i], consumed[i], rets[i])
  }

  lemma AnsweredMore(calls: seq<PlayCall>, consumed: seq<nat>, rets: seq<int>, c: PlayCall, n: nat, ret: int)
    requires |consumed| == |calls| && AllAnswered(calls, consumed, rets) && Answered(c, n, ret)
    ensures AllAnswered(calls + [c], consumed + [n], rets + [ret])
  {
  }

  predicate NeverOutOfMemory(rets: seq<int>)
  {
    forall i :: 0 <= i < |rets| ==> rets[i] != -ENOMEM
  }

  lemma NeverMore(rets: seq<int>, ret: int)
    ensures NeverOutOfMemory(rets + [ret]) <==> NeverOutOfMemory(rets) && ret != -ENOMEM
  {
    assert (rets + [ret])[|rets|] == ret;
    assert forall i :: 0 <= i < |rets| ==> (rets + [ret])[i] == rets[i];
  }

  function LastHeard(heard: seq<seq<bv8>>): seq<bv8>
  {
    if heard == [] then [] else heard[|heard| - 1]
  }

  // What has been played since the last reset when a call returns, given what had been when it began: the beginning of what is
  // owed by then, all of it when a sync has succeeded; and it only grows, until a reset.
  predicate HeardNext(last: seq<bv8>, owed: seq<bv8>, c: PlayCall, ret: int, h: seq<bv8>)
  {
    && h <= owed
    && (if c.Reset? then h == [] else last <= h)
    && (c.Sync? && ret == 0 ==> h == owed)
  }

  // So it is after every call.
  predicate AllHeard(calls: seq<PlayCall>, consumed: seq<nat>, rets: seq<int>, heard: seq<seq<bv8>>)
    requires AllConsumable(calls, consumed) && |rets| == |heard| == |calls|
  {
    if calls == [] then true
    else
      var n := |calls| - 1;
      && HeardNext(LastHeard(heard[..n]), Owed(calls, consumed), calls[n], rets[n], heard[n])
      && AllHeard(calls[..n], consumed[..n], rets[..n], heard[..n])
  }

  lemma HeardMore(calls: seq<PlayCall>, consumed: seq<nat>, rets: seq<int>, heard: seq<seq<bv8>>,
                  c: PlayCall, n: nat, ret: int, h: seq<bv8>)
    requires AllConsumable(calls, consumed) && |rets| == |heard| == |calls| && Consumable(c, n)
    ensures AllConsumable(calls + [c], consumed + [n])
    ensures AllHeard(calls + [c], consumed + [n], rets + [ret], heard + [h])
            <==> AllHeard(calls, consumed, rets, heard)
                 && HeardNext(LastHeard(heard), OwedAfter(Owed(calls, consumed), c, n), c, ret, h)
  {
    OwedMore(calls, consumed, c, n);
    assert (calls + [c])[..|calls|] == calls && (consumed + [n])[..|calls|] == consumed;
    assert (rets + [ret])[..|calls|] == rets && (heard + [h])[..|calls|] == heard;
  }

  // Where a session stands between two calls.
  ghost predicate PlayingOn(out: OutputStream, calls: seq<PlayCall>, consumed: seq<nat>, rets: seq<int>, heard: seq<seq<bv8>>)
    reads out, out.stream, out.stream.buffers, out.stream.heap, out.stream.heap.mem
  {
    && out.Ready() && AllConsumable(calls, consumed) && AllAnswered(calls, consumed, rets) && |heard| == |calls|
    && AllHeard(calls, consumed, rets, heard)
    && out.Accepted() == Owed(calls, consumed) && out.Played() == LastHeard(heard)
  }

  // One more call.
  method PlayOn(out: OutputStream, c: PlayCall, d: Defaults,
                ghost calls: seq<PlayCall>, consumed: seq<nat>, rets: seq<int>, ghost heard: seq<seq<bv8>>)
    returns (consumed': seq<nat>, rets': seq<int>, ghost heard': seq<seq<bv8>>, next: Defaults)
    requires PlayingOn(out, calls, consumed, rets, heard) && Usable(d) && Meant(c)
    modifies out, out.stream, out.stream.buffers, out.stream.heap, out.stream.heap.mem
    ensures PlayingOn(out, calls + [c], consumed', rets', heard') && Usable(next)
    ensures Grudged(old(out.stream.heap.denied), out.stream.heap.denied, old(out.stream.heap.refusals), out.stream.heap.refusals)
    ensures Served(old(out.stream.heap.denied), out.stream.heap.denied, old(out.stream.heap.refusals), out.stream.heap.refusals) ==>
              NeverOutOfMemory(rets) ==> NeverOutOfMemory(rets')
    ensures out.stream.heap.live - out.stream.owned == old(out.stream.heap.live - out.stream.owned)
    ensures out.stream.buffers == null || out.stream.buffers == old(out.stream.buffers) || fresh(out.stream.buffers)
  {
    var n, ret;
    n, ret, next := Perform(out, c, d);
    out.PlayedIsAccepted();
    OwedMore(calls, consumed, c, n);
    AnsweredMore(calls, consumed, rets, c, n, ret);
    HeardMore(calls, consumed, rets, heard, c, n, ret, out.Played());
    NeverMore(rets, ret);
    consumed', rets', heard' := consumed + [n], rets + [ret], heard + [out.Played()];
  }

  // Whatever is called between open and release, and however the DMA channel's completions fall: after every call, what has
  // been played since the last reset is the beginning of what the calls consumed, in order, every sample in its place; it is
  // all of it when a sync has succeeded, and in the end if no signal interrupts the final drain; the calls have returned what
  // they consumed, and none has failed for want of memory unless the allocator refused some; every allocation has been
  // given back.
  method PlaySession(out: OutputStream, calls: seq<PlayCall>, calm: bool, d: Defaults)
    returns (consumed: seq<nat>, rets: seq<int>, ghost heard: seq<seq<bv8>>, ghost played: seq<bv8>)
    requires out.Ready() && out.stream.buffers == null && Usable(d)
    requires forall i :: 0 <= i < |calls| ==> Meant(calls[i])
    modifies out, out.stream, out.stream.heap, out.stream.heap.mem
    ensures AllConsumable(calls, consumed) && AllAnswered(calls, consumed, rets)
    ensures |heard| == |calls| && AllHeard(calls, consumed, rets, heard)
    ensures LastHeard(heard) <= played <= Owed(calls, consumed) && (calm ==> played == Owed(calls, consumed))
    ensures Served(old(out.stream.heap.denied), out.stream.heap.denied, old(out.stream.heap.refusals), out.stream.heap.refusals) ==>
              NeverOutOfMemory(rets)
    ensures out.stream.buffers == null && out.stream.queue == [] && out.stream.heap.live == old(out.stream.heap.live)
  {
    consumed, rets, heard := [], [], [];
    ghost var past: seq<PlayCall> := [];
    ghost var denied, refusals := out.stream.heap.denied, out.stream.heap.refusals;
    var now := d;
    var i := 0;
    while i < |calls|
      invariant 0 <= i <= |calls| && past == calls[..i]
      invariant PlayingOn(out, past, consumed, rets, heard) && Usable(now)
      invariant out.stream.buffers == null || fresh(out.stream.buffers)
      invariant Grudged(denied, out.stream.heap.denied, refusals, out.stream.heap.refusals)
      invariant Served(denied, out.stream.heap.denied, refusals, out.stream.heap.refusals) ==> NeverOutOfMemory(rets)
      invariant out.stream.heap.live - out.stream.owned == old(out.stream.heap.live)
    {
      assert Meant(calls[i]);
      PrefixSnoc(calls, i);
      consumed, rets, heard, now := PlayOn(out, calls[i], now, past, consumed, rets, heard);
      past, i := past + [calls[i]], i + 1;
    }
    assert past == calls;
    ghost var synced;
    synced, played := out.Release(calm);
  }

  // SNDCTL_DSP_GETOSPACE tells exactly how much a write will take, unless a fragment completes meanwhile: `bytes` of stereo,
  // half as much of mono. In all, the fragments that complete while it counts (`asked`) and while the write lasts (`done`) add
  // that much room. Before the first set-up it tells nothing, and after a reset it crashes.
  method AskThenWrite(out: OutputStream, nonblock: bool, calm: bool, channels: nat, buffer: seq<bv8>, address: nat, count: nat, d: Defaults,
                      ghost before: int)
    returns (report: Report, ret: int, consumed: nat, ghost asked: nat, ghost done: nat, ghost room: nat)
    requires out.Ready() && Usable(d) && before == out.Room(d.nbfrags, d.fragsize)
    requires count <= |buffer|
    modifies out, out.stream, out.stream.buffers, out.stream.heap, out.stream.heap.mem
    ensures out.Ready()
    ensures report.Oops? <==> old(out.stream.buffers) == null && old(out.stream.nbfrags) > 0
    ensures report.Report? && old(out.stream.buffers) == null ==> report.bytes == 0 && asked == 0
    ensures report.Report? && old(out.stream.buffers) != null ==> before <= report.bytes <= before + Whole(asked, old(out.stream.fragsize))
    ensures report.Report? && ret == -ENOMEM ==> old(out.stream.buffers) == null
    ensures report.Report? && ret != -ENOMEM ==>
              && out.stream.buffers != null && room == before + Whole(asked + done, out.stream.fragsize)
              && Space(out.stream.View()) + Widened(channels, consumed) == room
              && consumed == Takes(channels, Rounded(count), room)
              && ((consumed % 4 == 0 && consumed <= count < consumed + 4) || consumed == if channels == 2 then room else room / 2)
              && (ret == -EAGAIN <==> nonblock && 4 <= count && consumed == 0)
              && (ret == -ERESTARTSYS <==> !nonblock && 4 <= count && consumed == 0)
              && (ret != -EAGAIN && ret != -ERESTARTSYS ==> ret == consumed)
  {
    ret, consumed, done, room := 0, 0, 0, 0;
    ghost var between;
    report, asked, between := AskForRoom(out, d, before);
    if report.Oops? {
      return;
    }
    ret, consumed, done, room := WriteThen(out, nonblock, calm, channels, buffer, address, count, d, before, asked, between);
  }

  lemma RoomsAdd(before: int, between: int, room: int, asked: nat, done: nat, fragsize: nat)
    requires (asked == 0 && between == before) || between == before + Whole(asked, fragsize)
    requires room == between + Whole(done, fragsize)
    ensures room == before + Whole(asked + done, fragsize)
  {
    WholeAdd(asked, done, fragsize);
  }

  // The first half of that: afterwards there are `between` bytes of room.
  method AskForRoom(out: OutputStream, d: Defaults, ghost before: int) returns (report: Report, ghost asked: nat, ghost between: int)
    requires out.Ready() && Usable(d) && before == out.Room(d.nbfrags, d.fragsize)
    modifies out, out.stream, out.stream.buffers
    ensures out.Ready() && out.stream.buffers == old(out.stream.buffers) && out.stream.fragsize == old(out.stream.fragsize)
    ensures report.Oops? <==> out.stream.buffers == null && old(out.stream.nbfrags) > 0
    ensures between == out.Room(d.nbfrags, d.fragsize)
    ensures out.stream.buffers == null ==> asked == 0 && between == before && (report.Report? ==> report.bytes == 0)
    ensures out.stream.buffers != null ==>
              between == before + Whole(asked, out.stream.fragsize) && (report.Report? ==> before <= report.bytes <= between)
  {
    report, asked := out.GetOSpace();
    between := out.Room(d.nbfrags, d.fragsize);
  }

  // The second half of that, when there are `between` bytes of room.
  method WriteThen(out: OutputStream, nonblock: bool, calm: bool, channels: nat, buffer: seq<bv8>, address: nat, count: nat, d: Defaults,
                   ghost before: int, ghost asked: nat, ghost between: int)
    returns (ret: int, consumed: nat, ghost done: nat, ghost room: nat)
    requires out.Ready() && Usable(d) && between == out.Room(d.nbfrags, d.fragsize)
    requires count <= |buffer|
    requires if out.stream.buffers == null then asked == 0 && between == before else between == before + Whole(asked, out.stream.fragsize)
    modifies out, out.stream, out.stream.buffers, out.stream.heap, out.stream.heap.mem
    ensures out.Ready()
    ensures ret == -ENOMEM ==> old(out.stream.buffers) == null
    ensures ret != -ENOMEM ==>
              && out.stream.buffers != null && room == before + Whole(asked + done, out.stream.fragsize)
              && Space(out.stream.View()) + Widened(channels, consumed) == room
              && consumed == Takes(channels, Rounded(count), room)
              && ((consumed % 4 == 0 && consumed <= count < consumed + 4) || consumed == if channels == 2 then room else room / 2)
              && (ret == -EAGAIN <==> nonblock && 4 <= count && consumed == 0)
              && (ret == -ERESTARTSYS <==> !nonblock && 4 <= count && consumed == 0)
              && (ret != -EAGAIN && ret != -ERESTARTSYS ==> ret == consumed)
  {
    ret, consumed, done, room := out.Write(OpenFile(true, nonblock), calm, channels, buffer, address, count, d.nbfrags, d.fragsize);
    if ret != -ENOMEM {
      RoomsAdd(before, between, room, asked, done, out.stream.fragsize);
    }
  }

  // SNDCTL_DSP_GETISPACE tells exactly how much a non-blocking read will return, unless a fragment arrives meanwhile; what
  // arrives, while it counts or later, comes behind that.
  method AskThenRead(input: Capture.InputStream, count: nat, d: Defaults, ghost chunks: seq<seq<bv8>>)
    returns (report: Capture.Report, ret: int, data: seq<bv8>, ghost asked: seq<seq<bv8>>, ghost arrived: seq<seq<bv8>>)
    requires input.Ready() && Usable(d) && chunks == input.Chunks()
    modifies input, input.stream, input.stream.buffers, input.stream.heap, input.stream.heap.mem
    ensures input.Ready() && input.stored == old(input.stored) + |Flatten(asked)| + |Flatten(arrived)|
    ensures report.Oops? <==> old(input.stream.buffers) == null && old(input.stream.nbfrags) > 0
    ensures report.Report? ==> |Flatten(chunks)| <= report.bytes <= |Flatten(chunks)| + |Flatten(asked)|
    ensures ret == -ENOMEM ==> old(input.stream.buffers) == null
    ensures report.Report? && ret != -ENOMEM ==>
              && |data| == Capture.Least(count, |Flatten(chunks)| + |Flatten(asked)| + |Flatten(arrived)|)
              && data <= Flatten(chunks + asked + arrived)
              && ret == if count > 0 && |data| == 0 then -EAGAIN else |data|
  {
    ret, data, arrived := 0, [], [];
    report, asked := input.GetISpace();
    if report.Oops? {
      return;
    }
    assert input.Chunks() == chunks + asked;
    ret, data, arrived := ReadThen(input, count, d, chunks + asked);
    FlattenConcat(chunks, asked);
    FlattenConcat(chunks + asked, arrived);
  }

  // The second half of that, when these chunks are ready.
  method ReadThen(input: Capture.InputStream, count: nat, d: Defaults, ghost chunks: seq<seq<bv8>>)
    returns (ret: int, data: seq<bv8>, ghost arrived: seq<seq<bv8>>)
    requires input.Ready() && Usable(d) && chunks == input.Chunks()
    modifies input, input.stream, input.stream.buffers, input.stream.heap, input.stream.heap.mem
    ensures input.Ready() && input.stored == old(input.stored) + |Flatten(arrived)|
    ensures ret == -ENOMEM ==> old(input.stream.buffers) == null
    ensures ret != -ENOMEM ==>
              && |data| == Capture.Least(count, |Flatten(chunks + arrived)|) && data <= Flatten(chunks + arrived)
              && ret == if count > 0 && |data| == 0 then -EAGAIN else |data|
  {
    ghost var queued;
    ret, data, arrived, queued := input.Read(true, true, false, count, count, d.nbfrags, d.fragsize);
  }

  // After a reset, as at the beginning of every session but the first, the space query crashes.
  method ResetThenAsk() returns (report: Report)
    ensures report.Oops?
  {
    var mem := new bv8[64](_ => 0);
    var heap := new DmaHeap(mem, true);
    var out := new OutputStream(heap);
    FragmentSize.PowersInRange();
    FragmentSize.FittingRequestHonoured(4, 2);
    assert 2 * 65536 + 4 == 131076;
    assert FragmentSize.SetFragment(131076) == (16, 2);
    var err := out.SetFragment(131076);
    out.Reset();
    ghost var done;
    report, done := out.GetOSpace();
  }

  // Fragments of 16 bytes, and 16 readable bytes of 32: the write takes them and says that it failed.
  method WriteHidesProgress() returns (ret: int, consumed: nat)
    ensures ret == -EFAULT && consumed == 16
  {
    var mem := new bv8[64](_ => 0);
    var heap := new DmaHeap(mem, true);
    var out := new OutputStream(heap);
    QuadrupleIsFrames(4);
    var buffer := seq(16, _ => 0);
    ghost var done, room;
    ret, consumed, done, room := out.Write(OpenFile(true, false), true, 2, buffer, 0, 32, 2, 16);
    assert Boundary(16, 16, 16) == 16 + Boundary(16, 16, 0);
  }

  // The same for a read of 32 bytes into 16 bytes of writable memory.
  method ReadHidesProgress(signal: nat -> bv8) returns (ret: int, data: seq<bv8>)
    ensures ret == -EFAULT && |data| == 16
  {
    var mem := new bv8[64](_ => 0);
    var heap := new DmaHeap(mem, true);
    var input := new Capture.InputStream(heap, signal);
    ghost var arrived, queued;
    ret, data, arrived, queued := input.Read(true, false, true, 32, 16, 2, 16);
    assert [] + arrived == arrived;
    assert arrived != [];
    assert CaptureRing.Covered(arrived, 16) == 16 + CaptureRing.Covered(arrived[1..], 0);
  }

  datatype CaptureCall =
    | Read(atFilePosition: bool, nonblock: bool, calm: bool, count: nat, writable: nat)
    | SetInputFragment(val: nat)
    | ResetInput
    | PauseInput

  predicate InputMeant(c: CaptureCall)
  {
    c.SetInputFragment? ==> c.val < Arithmetic.WORD
  }

  // What all the reads since the last reset have returned.
  function Received(calls: seq<CaptureCall>, outs: seq<seq<bv8>>): seq<bv8>
    requires |outs| == |calls|
  {
    if calls == [] then []
    else
      var n := |calls| - 1;
      if calls[n].ResetInput? then [] else Received(calls[..n], outs[..n]) + outs[n]
  }

  lemma ReceivedMore(calls: seq<CaptureCall>, outs: seq<seq<bv8>>, c: CaptureCall, data: seq<bv8>)
    requires |outs| == |calls|
    ensures Received(calls + [c], outs + [data]) == if c.ResetInput? then [] else Received(calls, outs) + data
  {
    assert (calls + [c])[..|calls|] == calls && (outs + [data])[..|calls|] == outs;
  }

  // What `stored` was when the current recording began: at the last reset, or at the start.
  function Beginning(first: nat, calls: seq<CaptureCall>, stamps: seq<nat>): nat
    requires |stamps| == |calls|
  {
    if calls == [] then first
    else
      var n := |calls| - 1;
      if calls[n].ResetInput? then stamps[n] else Beginning(first, calls[..n], stamps[..n])
  }

  lemma BeginningMore(first: nat, calls: seq<CaptureCall>, stamps: seq<nat>, c: CaptureCall, stamp: nat)
    requires |stamps| == |calls|
    ensures Beginning(first, calls + [c], stamps + [stamp]) == if c.ResetInput? then stamp else Beginning(first, calls, stamps)
  {
    assert (calls + [c])[..|calls|] == calls && (stamps + [stamp])[..|calls|] == stamps;
  }

  function LastStamp(first: nat, stamps: seq<nat>): nat
  {
    if stamps == [] then first else stamps[|stamps| - 1]
  }

  // What the reads of these calls have returned is the signal from the beginning of the recording on.
  ghost predicate Faithful(signal: nat -> bv8, first: nat, calls: seq<CaptureCall>, outs: seq<seq<bv8>>, stamps: seq<nat>)
  {
    && |outs| == |stamps| == |calls|
    && Capture.Stretch(signal, Beginning(first, calls, stamps), Received(calls, outs))
    && Beginning(first, calls, stamps) + |Received(calls, outs)| <= LastStamp(first, stamps)
  }

  // What the caller gets to see of a read: the count of the bytes returned, unless it failed, or why there are none. With no
  // signal, a blocking read gets all it asked for.
  predicate ReadAnswered(c: CaptureCall, data: seq<bv8>, ret: int)
  {
    match c
    case Read(atFilePosition, nonblock, calm, count, writable) =>
      && |data| <= count && |data| <= writable
      && (ret == -ESPIPE <==> !atFilePosition)
      && (ret in {-ESPIPE, -ENOMEM} ==> data == [])
      && (ret == -EFAULT ==> writable < count)
      && (ret !in {-ESPIPE, -ENOMEM, -EFAULT} ==>
            && (ret == -EAGAIN <==> nonblock && count > 0 && |data| == 0)
            && (ret == -ERESTARTSYS <==> !nonblock && count > 0 && |data| == 0)
            && (ret != -EAGAIN && ret != -ERESTARTSYS ==> ret == |data|)
            && (calm && !nonblock ==> |data| == count))
    case _ => data == []
  }

  method PerformInput(input: Capture.InputStream, c: CaptureCall, d: Defaults, ghost b: Capture.Found)
    returns (data: seq<bv8>, ret: int, next: Defaults)
    requires input.Ready() && Usable(d) && InputMeant(c) && b == input.Finds()
    modifies input, input.stream, input.stream.buffers, input.stream.heap, input.stream.heap.mem
    ensures input.Ready() && Usable(next) && ReadAnswered(c, data, ret)
    ensures Grudged(b.denied, input.stream.heap.denied, b.refusals, input.stream.heap.refusals)
    ensures ret == -ENOMEM ==> !Served(b.denied, input.stream.heap.denied, b.refusals, input.stream.heap.refusals)
    ensures !c.SetInputFragment? && CaptureRing.Empties(b.chunks) == 0 ==> CaptureRing.Empties(input.Chunks()) == 0
    ensures input.Delivered() == if c.ResetInput? then [] else b.delivered + data
    ensures b.stored <= input.stored && (c.ResetInput? ==> input.stored == b.stored && input.stream.buffers == null)
    ensures input.stream.buffers == null ==> input.stored == b.stored && (b.origin == b.stored || c.ResetInput?)
    ensures input.stream.buffers != null ==> input.origin == b.origin
    ensures input.stream.heap.live - input.stream.owned == b.others
    ensures input.stream.buffers == null || input.stream.buffers == old(input.stream.buffers) || fresh(input.stream.buffers)
  {
    data, ret, next := [], 0, d;
    match c {
      case Read(atFilePosition, nonblock, calm, count, writable) =>
        ghost var arrived, queued;
        ret, data, arrived, queued := input.Read(atFilePosition, nonblock, calm, count, writable, d.nbfrags, d.fragsize);
      case SetInputFragment(val) =>
        next := DefaultsAfter(val, input.stream.buffers != null, d);
        ret := input.SetFragment(val);
      case ResetInput =>
        input.Release();
      case PauseInput =>
        Wait(input);
    }
  }

  // Time passes.
  method Wait(input: Capture.InputStream)
    requires input.Ready()
    modifies input, input.stream, input.stream.buffers, input.stream.heap.mem
    ensures input.Ready() && input.Steady() && old(input.stored) <= input.stored
    ensures input.Delivered() == old(input.Delivered())
    ensures input.stream.buffers == null ==> input.stored == old(input.stored)
    ensures CaptureRing.Empties(input.Chunks()) == CaptureRing.Empties(old(input.Chunks()))
  {
    if input.stream.buffers != null {
      ghost var before := input.Chunks();
      ghost var arrived := input.Interrupts(false);
      CaptureRing.EmptiesConcat(before, arrived, input.stream.fragsize);
    }
  }

  // Where the input stream stands between calls that have returned `outs`, when the recording began at `beginning`.
  ghost predicate Running(input: Capture.InputStream, beginning: nat, received: seq<bv8>)
    reads input, input.stream, input.stream.buffers, input.stream.heap, input.stream.heap.mem
  {
    && input.Ready() && input.Delivered() == received
    && beginning == if input.stream.buffers == null then input.stored else input.origin
  }

  lemma RunningIsFaithful(input: Capture.InputStream, beginning: nat, received: seq<bv8>)
    requires Running(input, beginning, received)
    ensures Capture.Stretch(input.signal, beginning, received) && beginning + |received| <= input.stored
  {
    input.DeliveredIsSignal();
  }

  // So it is after every call.
  ghost predicate AllFaithful(signal: nat -> bv8, first: nat, calls: seq<CaptureCall>, outs: seq<seq<bv8>>, stamps: seq<nat>)
  {
    && |outs| == |stamps| == |calls|
    && forall k :: 0 <= k <= |calls| ==> Faithful(signal, first, calls[..k], outs[..k], stamps[..k])
  }

  lemma AllFaithfulMore(signal: nat -> bv8, first: nat, calls: seq<CaptureCall>, outs: seq<seq<bv8>>, stamps: seq<nat>,
                        c: CaptureCall, data: seq<bv8>, stamp: nat)
    requires AllFaithful(signal, first, calls, outs, stamps)
    requires Faithful(signal, first, calls + [c], outs + [data], stamps + [stamp])
    ensures AllFaithful(signal, first, calls + [c], outs + [data], stamps + [stamp])
  {
    var calls', outs', stamps' := calls + [c], outs + [data], stamps + [stamp];
    forall k | 0 <= k <= |calls'| ensures Faithful(signal, first, calls'[..k], outs'[..k], stamps'[..k]) {
      if k <= |calls| {
        assert calls'[..k] == calls[..k] && outs'[..k] == outs[..k] && stamps'[..k] == stamps[..k];
      } else {
        assert calls'[..k] == calls' && outs'[..k] == outs' && stamps'[..k] == stamps';
      }
    }
  }

  // Bytes are only ever added, and none while a reset lasts.
  predicate Stamped(first: nat, calls: seq<CaptureCall>, stamps: seq<nat>)
  {
    |stamps| == |calls| &&
    if calls == [] then true
    else
      var n := |calls| - 1;
      var before := LastStamp(first, stamps[..n]);
      before <= stamps[n] && (calls[n].ResetInput? ==> stamps[n] == before) && Stamped(first, calls[..n], stamps[..n])
  }

  lemma StampedMore(first: nat, calls: seq<CaptureCall>, stamps: seq<nat>, c: CaptureCall, stamp: nat)
    requires Stamped(first, calls, stamps) && LastStamp(first, stamps) <= stamp
    requires c.ResetInput? ==> stamp == LastStamp(first, stamps)
    ensures Stamped(first, calls + [c], stamps + [stamp])
  {
    assert (calls + [c])[..|calls|] == calls && (stamps + [stamp])[..|calls|] == stamps;
  }

  predicate AllReadAnswered(calls: seq<CaptureCall>, outs: seq<seq<bv8>>, rets: seq<int>)
  {
    |outs| == |rets| == |calls| && forall i :: 0 <= i < |calls| ==> ReadAnswered(calls[i], outs[i], rets[i])
  }

  lemma ReadAnsweredMore(calls: seq<CaptureCall>, outs: seq<seq<bv8>>, rets: seq<int>, c: CaptureCall, data: seq<bv8>, ret: int)
    requires AllReadAnswered(calls, outs, rets) && ReadAnswered(c, data, ret)
    ensures AllReadAnswered(calls + [c], outs + [data], rets + [ret])
  {
  }

  // What is known of the calls so far, at which `stored` bytes have been stored in all.
  ghost predicate Logged(signal: nat -> bv8, first: nat, calls: seq<CaptureCall>, outs: seq<seq<bv8>>, rets: seq<int>,
                         stamps: seq<nat>, stored: nat)
  {
    && AllFaithful(signal, first, calls, outs, stamps) && AllReadAnswered(calls, outs, rets)
    && Stamped(first, calls, stamps) && LastStamp(first, stamps) == stored
  }

  lemma LoggedMore(signal: nat -> bv8, first: nat, calls: seq<CaptureCall>, outs: seq<seq<bv8>>, rets: seq<int>,
                   stamps: seq<nat>, stored: nat, c: CaptureCall, data: seq<bv8>, ret: int, stamp: nat)
    requires Logged(signal, first, calls, outs, rets, stamps, stored)
    requires Faithful(signal, first, calls + [c], outs + [data], stamps + [stamp]) && ReadAnswered(c, data, ret)
    requires stored <= stamp && (c.ResetInput? ==> stamp == stored)
    ensures Logged(signal, first, calls + [c], outs + [data], rets + [ret], stamps + [stamp], stamp)
  {
    AllFaithfulMore(signal, first, calls, outs, stamps, c, data, stamp);
    ReadAnsweredMore(calls, outs, rets, c, data, ret);
    StampedMore(first, calls, stamps, c, stamp);
  }

  lemma LogStarts(signal: nat -> bv8, first: nat)
    ensures Logged(signal, first, [], [], [], [], first)
  {
  }

  // No call has set up a ring without queueing its fragments.
  predicate Primed(calls: seq<CaptureCall>)
  {
    forall i :: 0 <= i < |calls| ==> !calls[i].SetInputFragment?
  }

  lemma PrimedMore(calls: seq<CaptureCall>, c: CaptureCall)
    ensures Primed(calls + [c]) <==> Primed(calls) && !c.SetInputFragment?
  {
    assert (calls + [c])[|calls|] == c;
    assert forall i :: 0 <= i < |calls| ==> (calls + [c])[i] == calls[i];
  }

  // Where a session stands between two calls. Unless SETFRAGMENT has been used, no fragment left to the reader is empty: one
  // read to its end is with the DMA channel.
  ghost predicate Under(input: Capture.InputStream, first: nat, calls: seq<CaptureCall>, outs: seq<seq<bv8>>, rets: seq<int>, stamps: seq<nat>)
    reads input, input.stream, input.stream.buffers, input.stream.heap, input.stream.heap.mem
  {
    && Logged(input.signal, first, calls, outs, rets, stamps, input.stored)
    && Running(input, Beginning(first, calls, stamps), Received(calls, outs))
    && (Primed(calls) ==> CaptureRing.Empties(input.Chunks()) == 0)
  }

  // One more call.
  method CallOn(input: Capture.InputStream, c: CaptureCall, d: Defaults, ghost first: nat,
                ghost calls: seq<CaptureCall>, outs: seq<seq<bv8>>, rets: seq<int>, ghost stamps: seq<nat>)
    returns (outs': seq<seq<bv8>>, rets': seq<int>, ghost stamps': seq<nat>, next: Defaults)
    requires Usable(d) && InputMeant(c)
    requires Under(input, first, calls, outs, rets, stamps)
    modifies input, input.stream, input.stream.buffers, input.stream.heap, input.stream.heap.mem
    ensures Usable(next) && Under(input, first, calls + [c], outs', rets', stamps')
    ensures Grudged(old(input.stream.heap.denied), input.stream.heap.denied, old(input.stream.heap.refusals), input.stream.heap.refusals)
    ensures Served(old(input.stream.heap.denied), input.stream.heap.denied, old(input.stream.heap.refusals), input.stream.heap.refusals) ==>
              NeverOutOfMemory(rets) ==> NeverOutOfMemory(rets')
    ensures input.stream.heap.live - input.stream.owned == old(input.stream.heap.live - input.stream.owned)
    ensures input.stream.buffers == null || input.stream.buffers == old(input.stream.buffers) || fresh(input.stream.buffers)
  {
    ghost var b := input.Finds();
    var data, ret;
    data, ret, next := PerformInput(input, c, d, b);
    ghost var stamp := input.stored;
    PrimedMore(calls, c);
    NeverMore(rets, ret);
    outs', rets', stamps' := outs + [data], rets + [ret], stamps + [stamp];
    ReceivedMore(calls, outs, c, data);
    BeginningMore(first, calls, stamps, c, stamp);
    RunningIsFaithful(input, Beginning(first, calls + [c], stamps'), Received(calls + [c], outs'));
    LoggedMore(input.signal, first, calls, outs, rets, stamps, b.stored, c, data, ret, stamp);
  }

  // Whatever is called between open and release, and however the completions fall: after every call, what the reads since
  // the last reset have returned, one after the other, is the signal from that reset on, with nothing lost, repeated or out
  // of order. `stamps` are the numbers of bytes stored when the calls returned. Every allocation has been given back.
  method CaptureSession(input: Capture.InputStream, calls: seq<CaptureCall>, d: Defaults)
    returns (outs: seq<seq<bv8>>, rets: seq<int>, ghost stamps: seq<nat>)
    requires input.Ready() && input.stream.buffers == null && Usable(d)
    requires forall i :: 0 <= i < |calls| ==> InputMeant(calls[i])
    modifies input, input.stream, input.stream.heap, input.stream.heap.mem
    ensures AllReadAnswered(calls, outs, rets)
    ensures AllFaithful(input.signal, old(input.stored), calls, outs, stamps)
    ensures Stamped(old(input.stored), calls, stamps) && LastStamp(old(input.stored), stamps) == input.stored
    ensures Served(old(input.stream.heap.denied), input.stream.heap.denied, old(input.stream.heap.refusals), input.stream.heap.refusals) ==>
              NeverOutOfMemory(rets)
    ensures input.stream.buffers == null && input.stream.queue == []
    ensures input.stream.heap.live == old(input.stream.heap.live)
  {
    outs, rets, stamps := [], [], [];
    ghost var first := input.stored;
    ghost var denied, refusals := input.stream.heap.denied, input.stream.heap.refusals;
    LogStarts(input.signal, first);
    ghost var past: seq<CaptureCall> := [];
    var now := d;
    var i := 0;
    while i < |calls|
      invariant 0 <= i <= |calls| && past == calls[..i]
      invariant Under(input, first, past, outs, rets, stamps) && Usable(now)
      invariant input.stream.buffers == null || fresh(input.stream.buffers)
      invariant Grudged(denied, input.stream.heap.denied, refusals, input.stream.heap.refusals)
      invariant Served(denied, input.stream.heap.denied, refusals, input.stream.heap.refusals) ==> NeverOutOfMemory(rets)
      invariant input.stream.heap.live - input.stream.owned == old(input.stream.heap.live)
    {
      assert InputMeant(calls[i]);
      PrefixSnoc(calls, i);
      outs, rets, stamps, now := CallOn(input, calls[i], now, first, past, outs, rets, stamps);
      past, i := past + [calls[i]], i + 1;
    }
    assert past == calls;
    input.Release();
  }
}
