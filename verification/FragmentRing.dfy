// The ring of audio fragments as a value: who owns which fragment, and what each hand-over does.
// The driver's streams (module AudioStreams) hold such a ring in place; here are the facts about it.
module FragmentRing {

  // One fragment descriptor. `master` is the size of the DMA allocation that begins at this fragment, or 0.
  // `sem` is the count of the semaphore taken before touching the fragment.
  datatype AudioBuf = AudioBuf(size: nat, start: int, dmaAddr: int, sem: nat, master: nat)

  // One request queued to the DMA channel.
  datatype Transfer = Transfer(frag: nat, addr: int, size: nat)

  datatype Ring = Ring(bufs: seq<AudioBuf>, idx: nat, fragsize: nat, queue: seq<Transfer>)

  function Wrap(i: nat, n: nat): nat
  {
    if i < n then i else i - n
  }

  lemma ModuloIsWrap(i: nat, n: nat)
    requires 0 < n && i < 2 * n
    ensures i % n == Wrap(i, n)
  {
    if i >= n {
      assert i % n == (i - n) % n;
    }
  }

  // The index after NEXT_BUF has been done k times.
  function Around(idx: nat, k: nat, n: nat): nat
  {
    if k == 0 then idx else Wrap(Around(idx, k - 1, n) + 1, n)
  }

  lemma {:induction false} AroundAdd(idx: nat, k: nat, l: nat, n: nat)
    ensures Around(idx, k + l, n) == Around(Around(idx, k, n), l, n)
  {
    if l > 0 {
      AroundAdd(idx, k, l - 1, n);
    }
  }

  lemma {:induction false} AroundOnce(n: nat, k: nat)
    requires 0 < n && k <= n
    ensures Around(0, k, n) == if k < n then k else 0
  {
    if k > 0 {
      AroundOnce(n, k - 1);
    }
  }

  // Number of fragments the DMA channel does not hold.
  function Free(r: Ring): int
  {
    |r.bufs| - |r.queue|
  }

  // How far fragment i lies ahead of the current one, going round the ring.
  function Ahead(r: Ring, i: nat): nat
    requires r.idx < |r.bufs| && i < |r.bufs|
  {
    if i >= r.idx then i - r.idx else i + |r.bufs| - r.idx
  }

  // The fragment k places ahead of the current one.
  function Slot(r: Ring, k: nat): (i: nat)
    requires r.idx < |r.bufs| && k < |r.bufs|
    ensures i < |r.bufs| && Ahead(r, i) == k
  {
    Wrap(r.idx + k, |r.bufs|)
  }

  // Request k is for the k-th of the fragments that end just before the current one.
  predicate InPlace(r: Ring, k: nat)
    requires r.idx < |r.bufs| && |r.queue| <= |r.bufs| && k < |r.queue|
  {
    r.queue[k].frag == Slot(r, Free(r) + k) && r.queue[k].addr == r.bufs[r.queue[k].frag].dmaAddr
  }

  // The semaphore of fragment i is down when the DMA channel has it, or when the user side holds it.
  predicate Guarded(r: Ring, held: bool, i: nat)
    requires r.idx < |r.bufs| && i < |r.bufs|
  {
    r.bufs[i].sem == if Ahead(r, i) >= Free(r) || (held && i == r.idx) then 0 else 1
  }

  // The DMA channel holds exactly the consecutive fragments that end just before the current one, oldest first, and a
  // semaphore is down exactly on those and, while the user side holds it, on the current fragment.
  ghost predicate Owned(r: Ring, held: bool)
  {
    && r.idx < |r.bufs| && |r.queue| <= |r.bufs|
    && (held ==> |r.queue| < |r.bufs|)
    && (forall k :: 0 <= k < |r.queue| ==> InPlace(r, k))
    && (forall i :: 0 <= i < |r.bufs| ==> Guarded(r, held, i))
  }

  predicate InMemory(b: AudioBuf, fragsize: nat, memory: nat)
  {
    0 <= b.dmaAddr && b.dmaAddr + fragsize <= memory
  }

  predicate Disjoint(a: AudioBuf, b: AudioBuf, fragsize: nat)
  {
    a.dmaAddr + fragsize <= b.dmaAddr || b.dmaAddr + fragsize <= a.dmaAddr
  }

  // The fragments are disjoint stretches of memory.
  ghost predicate Carved(bufs: seq<AudioBuf>, fragsize: nat, memory: nat)
  {
    && (forall i {:trigger InMemory(bufs[i], fragsize, memory)} :: 0 <= i < |bufs| ==> InMemory(bufs[i], fragsize, memory))
    && (forall i, j {:trigger Disjoint(bufs[i], bufs[j], fragsize)} :: 0 <= i < |bufs| && 0 <= j < |bufs| && i != j ==>
          Disjoint(bufs[i], bufs[j], fragsize))
  }

  // Sizes and semaphores change as audio flows; where a fragment lies does not.
  predicate SamePlace(a: AudioBuf, b: AudioBuf)
  {
    b.start == a.start && b.dmaAddr == a.dmaAddr && b.master == a.master
  }

  ghost predicate SameGeometry(a: seq<AudioBuf>, b: seq<AudioBuf>)
  {
    |a| == |b| && forall i {:trigger SamePlace(a[i], b[i])} :: 0 <= i < |a| ==> SamePlace(a[i], b[i])
  }

  lemma GeometryKeepsCarved(a: seq<AudioBuf>, b: seq<AudioBuf>, fragsize: nat, memory: nat)
    requires SameGeometry(a, b) && Carved(a, fragsize, memory)
    ensures Carved(b, fragsize, memory)
  {
    forall i | 0 <= i < |b| ensures InMemory(b[i], fragsize, memory) {
      assert SamePlace(a[i], b[i]) && InMemory(a[i], fragsize, memory);
    }
    forall i, j | 0 <= i < |b| && 0 <= j < |b| && i != j ensures Disjoint(b[i], b[j], fragsize) {
      assert SamePlace(a[i], b[i]) && SamePlace(a[j], b[j]) && Disjoint(a[i], a[j], fragsize);
    }
  }

  // down on the current fragment
  function Take(r: Ring): Ring
    requires r.idx < |r.bufs| && r.bufs[r.idx].sem > 0
  {
    r.(bufs := r.bufs[r.idx := r.bufs[r.idx].(sem := r.bufs[r.idx].sem - 1)])
  }

  // up on the current fragment
  function Give(r: Ring): Ring
    requires r.idx < |r.bufs|
  {
    r.(bufs := r.bufs[r.idx := r.bufs[r.idx].(sem := r.bufs[r.idx].sem + 1)])
  }

  // The current fragment with `n` more bytes in it.
  function Filled(r: Ring, n: nat): Ring
    requires r.idx < |r.bufs|
  {
    r.(bufs := r.bufs[r.idx := r.bufs[r.idx].(size := r.bufs[r.idx].size + n)])
  }

  // The current fragment after `n` of its unread bytes have been read.
  function Drained(r: Ring, n: nat): Ring
    requires r.idx < |r.bufs| && n <= r.bufs[r.idx].size
  {
    r.(bufs := r.bufs[r.idx := r.bufs[r.idx].(size := r.bufs[r.idx].size - n)])
  }

  // The DMA channel finishes its oldest request and calls back, leaving `size` in the descriptor.
  function Complete(r: Ring, size: nat): Ring
    requires r.queue != [] && r.queue[0].frag < |r.bufs|
  {
    var f := r.queue[0].frag;
    r.(queue := r.queue[1..], bufs := r.bufs[f := r.bufs[f].(size := size, sem := r.bufs[f].sem + 1)])
  }

  // Queue the current fragment with `size` bytes, leave `left` in the descriptor and move on (NEXT_BUF).
  function Submit(r: Ring, size: nat, left: nat): Ring
    requires r.idx < |r.bufs|
  {
    Ring(r.bufs[r.idx := r.bufs[r.idx].(size := left)],
         Wrap(r.idx + 1, |r.bufs|),
         r.fragsize,
         r.queue + [Transfer(r.idx, r.bufs[r.idx].dmaAddr, size)])
  }

  // A fragment is held by the DMA channel exactly when it appears in the queue, and then once.
  lemma QueuedExactlyOnce(r: Ring, held: bool, i: nat)
    requires Owned(r, held) && i < |r.bufs|
    ensures Ahead(r, i) >= Free(r) <==> exists k :: 0 <= k < |r.queue| && r.queue[k].frag == i
    ensures forall k, l :: 0 <= k < |r.queue| && 0 <= l < |r.queue| && r.queue[k].frag == r.queue[l].frag ==> k == l
    ensures r.bufs[i].sem == 0 <==> (held && i == r.idx) || exists k :: 0 <= k < |r.queue| && r.queue[k].frag == i
  {
    assert Guarded(r, held, i);
    if Ahead(r, i) >= Free(r) {
      var k := Ahead(r, i) - Free(r);
      assert InPlace(r, k);
      assert r.queue[k].frag == i;
    }
    forall k | 0 <= k < |r.queue| ensures r.queue[k].frag == Slot(r, Free(r) + k) {
      assert InPlace(r, k);
    }
  }

  // When the current fragment is down and not held by the caller, it is the very next one to complete: whoever waits for
  // it waits for a single completion.
  lemma WaitingForTheOldest(r: Ring)
    requires Owned(r, false) && r.bufs[r.idx].sem == 0
    ensures |r.queue| == |r.bufs| && r.queue[0].frag == r.idx
  {
    assert Guarded(r, false, r.idx);
    assert InPlace(r, 0);
  }

  lemma TakeKeeps(r: Ring)
    requires Owned(r, false) && r.bufs[r.idx].sem > 0
    ensures Owned(Take(r), true) && Free(r) > 0
    ensures SameGeometry(r.bufs, Take(r).bufs)
  {
    var t := Take(r);
    assert Guarded(r, false, r.idx);
    forall i | 0 <= i < |t.bufs| ensures Guarded(t, true, i) {
      assert Guarded(r, false, i);
    }
    forall k | 0 <= k < |t.queue| ensures InPlace(t, k) {
      assert InPlace(r, k);
    }
  }

  lemma GiveKeeps(r: Ring)
    requires Owned(r, true)
    ensures Owned(Give(r), false)
    ensures SameGeometry(r.bufs, Give(r).bufs)
  {
    var t := Give(r);
    forall i | 0 <= i < |t.bufs| ensures Guarded(t, false, i) {
      assert Guarded(r, true, i);
    }
    forall k | 0 <= k < |t.queue| ensures InPlace(t, k) {
      assert InPlace(r, k);
    }
  }

  // Changing how full the held fragment is changes nobody's ownership.
  lemma ResizeKeeps(r: Ring, t: Ring, held: bool)
    requires Owned(r, held)
    requires t.idx == r.idx && t.queue == r.queue && |t.bufs| == |r.bufs|
    requires forall i :: 0 <= i < |r.bufs| ==> t.bufs[i] == r.bufs[i].(size := t.bufs[i].size)
    ensures Owned(t, held)
    ensures SameGeometry(r.bufs, t.bufs)
  {
    forall i | 0 <= i < |t.bufs| ensures Guarded(t, held, i) {
      assert Guarded(r, held, i);
    }
    forall k | 0 <= k < |t.queue| ensures InPlace(t, k) {
      assert InPlace(r, k);
    }
  }

  lemma CompleteKeeps(r: Ring, held: bool, size: nat)
    requires Owned(r, held) && r.queue != []
    ensures r.queue[0].frag == Slot(r, Free(r))
    ensures Owned(Complete(r, size), held)
    ensures SameGeometry(r.bufs, Complete(r, size).bufs)
  {
    assert InPlace(r, 0);
    var t := Complete(r, size);
    forall i | 0 <= i < |t.bufs| ensures Guarded(t, held, i) {
      assert Guarded(r, held, i);
    }
    forall k | 0 <= k < |t.queue| ensures InPlace(t, k) {
      assert InPlace(r, k + 1);
    }
  }

  // Moving on brings every fragment one place nearer, and leaves the submitted one farthest away.
  lemma SubmitMovesOn(r: Ring, size: nat, left: nat, i: nat)
    requires r.idx < |r.bufs| && i < |r.bufs|
    ensures Submit(r, size, left).idx < |r.bufs|
    ensures Ahead(Submit(r, size, left), i) == if i == r.idx then |r.bufs| - 1 else Ahead(r, i) - 1
  {
  }

  lemma SubmitKeeps(r: Ring, size: nat, left: nat)
    requires Owned(r, true)
    ensures Owned(Submit(r, size, left), false)
    ensures SameGeometry(r.bufs, Submit(r, size, left).bufs)
  {
    var t := Submit(r, size, left);
    SubmitMovesOn(r, size, left, r.idx);
    forall i | 0 <= i < |t.bufs| ensures Guarded(t, false, i) {
      SubmitMovesOn(r, size, left, i);
      assert Guarded(r, true, i);
    }
    forall k | 0 <= k < |t.queue| ensures InPlace(t, k) {
      if k < |r.queue| {
        assert InPlace(r, k);
      }
    }
  }

  // Bytes in n whole fragments.
  function Whole(n: int, fragsize: nat): nat
    decreases n
  {
    if n <= 0 then 0 else Whole(n - 1, fragsize) + fragsize
  }

  lemma {:induction false} WholeIsProduct(n: nat, fragsize: nat)
    ensures Whole(n, fragsize) == n * fragsize
  {
    if n > 0 {
      WholeIsProduct(n - 1, fragsize);
      assert n * fragsize == (n - 1) * fragsize + fragsize;
    }
  }

  lemma {:induction false} WholeAdd(n: nat, m: nat, fragsize: nat)
    ensures Whole(n + m, fragsize) == Whole(n, fragsize) + Whole(m, fragsize)
  {
    if m > 0 {
      WholeAdd(n, m - 1, fragsize);
    }
  }
}
