// copy_from_user_mono_stereo: the word-at-a-time doubling of 16-bit samples.
module MonoStereo {
  import opened Sequences

  // What playing a mono stream on the stereo codec means: every two-byte sample twice, in order.
  function Stereo(mono: seq<bv8>): seq<bv8>
  {
    if |mono| < 2 then [] else mono[..2] + mono[..2] + Stereo(mono[2..])
  }

  lemma {:induction false} StereoConcat(a: seq<bv8>, b: seq<bv8>)
    requires |a| % 2 == 0
    ensures Stereo(a + b) == Stereo(a) + Stereo(b)
  {
    if a == [] {
      assert a + b == b;
    } else {
      StereoConcat(a[2..], b);
      assert (a + b)[2..] == a[2..] + b;
      assert (a + b)[..2] == a[..2];
      var head := a[..2] + a[..2];
      assert head + (Stereo(a[2..]) + Stereo(b)) == (head + Stereo(a[2..])) + Stereo(b);
    }
  }

  lemma {:induction false} StereoLength(mono: seq<bv8>)
    requires |mono| % 2 == 0
    ensures |Stereo(mono)| == 2 * |mono|
  {
    if |mono| >= 2 {
      StereoLength(mono[2..]);
    }
  }

  // One half word is read; the word holding it twice is written. Bytes are little-endian, as on the S3C2410.
  method SpreadHalfWord(b0: bv8, b1: bv8) returns (w0: bv8, w1: bv8, w2: bv8, w3: bv8)
    ensures w0 == b0 && w1 == b1 && w2 == b0 && w3 == b1
  {
    var v := (b0 as bv32) | ((b1 as bv32) << 8);
    var w := v | (v << 16);
    w0, w1, w2, w3 := (w & 0xFF) as bv8, ((w >> 8) & 0xFF) as bv8, ((w >> 16) & 0xFF) as bv8, ((w >> 24) & 0xFF) as bv8;
  }

  // The first of the two words made from the word v.
  method SpreadLowerHalf(v: bv32, ghost b0: bv8, ghost b1: bv8, ghost b2: bv8, ghost b3: bv8)
    returns (x0: bv8, x1: bv8, x2: bv8, x3: bv8)
    requires v == (b0 as bv32) | ((b1 as bv32) << 8) | ((b2 as bv32) << 16) | ((b3 as bv32) << 24)
    ensures x0 == b0 && x1 == b1 && x2 == b0 && x3 == b1
  {
    var x := v << 16;
    x := x | (x >> 16);
    x0, x1, x2, x3 := (x & 0xFF) as bv8, ((x >> 8) & 0xFF) as bv8, ((x >> 16) & 0xFF) as bv8, ((x >> 24) & 0xFF) as bv8;
  }

  // The second of the two words made from the word v.
  method SpreadUpperHalf(v: bv32, ghost b0: bv8, ghost b1: bv8, ghost b2: bv8, ghost b3: bv8)
    returns (y0: bv8, y1: bv8, y2: bv8, y3: bv8)
    requires v == (b0 as bv32) | ((b1 as bv32) << 8) | ((b2 as bv32) << 16) | ((b3 as bv32) << 24)
    ensures y0 == b2 && y1 == b3 && y2 == b2 && y3 == b3
  {
    var y := v >> 16;
    y := y | (y << 16);
    y0, y1, y2, y3 := (y & 0xFF) as bv8, ((y >> 8) & 0xFF) as bv8, ((y >> 16) & 0xFF) as bv8, ((y >> 24) & 0xFF) as bv8;
  }

  // One word is read; two words, each holding one half twice, are written.
  method SpreadWord(b0: bv8, b1: bv8, b2: bv8, b3: bv8) returns (x: seq<bv8>, y: seq<bv8>)
    ensures x == [b0, b1, b0, b1] && y == [b2, b3, b2, b3]
  {
    var v := (b0 as bv32) | ((b1 as bv32) << 8) | ((b2 as bv32) << 16) | ((b3 as bv32) << 24);
    var x0, x1, x2, x3 := SpreadLowerHalf(v, b0, b1, b2, b3);
    var y0, y1, y2, y3 := SpreadUpperHalf(v, b0, b1, b2, b3);
    x, y := [x0, x1, x2, x3], [y0, y1, y2, y3];
  }

  // *dst = w, for the four bytes of w
  method Store32(mem: array<bv8>, dst: nat, w: seq<bv8>)
    requires |w| == 4 && dst + 4 <= mem.Length
    modifies mem
    ensures mem[..] == Splice(old(mem[..]), dst, w)
  {
    mem[dst], mem[dst + 1], mem[dst + 2], mem[dst + 3] := w[0], w[1], w[2], w[3];
  }

  // Extending a doubled prefix by the sample at `at`.
  lemma StereoSnoc(mono: seq<bv8>, from: nat, at: nat)
    requires from <= at && at + 2 <= |mono| && (at - from) % 2 == 0
    ensures Stereo(mono[from..at + 2]) == Stereo(mono[from..at]) + [mono[at], mono[at + 1], mono[at], mono[at + 1]]
  {
    StereoConcat(mono[from..at], mono[at..at + 2]);
    assert mono[from..at] + mono[at..at + 2] == mono[from..at + 2];
    StereoOne(mono[at..at + 2], mono[at], mono[at + 1]);
  }

  lemma StereoOne(s: seq<bv8>, b0: bv8, b1: bv8)
    requires s == [b0, b1]
    ensures Stereo(s) == [b0, b1, b0, b1]
  {
    assert s[2..] == [] && s[..2] == s;
    assert Stereo(s) == s[..2] + s[..2] + Stereo(s[2..]);
  }

  // Every sample is heard twice, at twice its place, between what comes from the samples before and after it.
  lemma StereoSplit(before: seq<bv8>, b0: bv8, b1: bv8, after: seq<bv8>)
    requires |before| % 2 == 0
    ensures Stereo(before + [b0, b1] + after) == Stereo(before) + [b0, b1, b0, b1] + Stereo(after)
    ensures |Stereo(before)| == 2 * |before|
  {
    StereoLength(before);
    StereoConcat(before + [b0, b1], after);
    StereoConcat(before, [b0, b1]);
    StereoOne([b0, b1], b0, b1);
  }

  // The source bytes from `from` up to `src` have been doubled into memory at `to` up to `dst`, and nothing else changed.
  ghost predicate Doubled(mem: seq<bv8>, before: seq<bv8>, to: nat, dst: nat, user: seq<bv8>, from: nat, src: nat)
  {
    && from <= src <= |user| && (src - from) % 2 == 0
    && dst == to + 2 * (src - from) <= |before|
    && |Stereo(user[from..src])| == dst - to
    && mem == Splice(before, to, Stereo(user[from..src]))
  }

  lemma DoubledStep(mem: seq<bv8>, before: seq<bv8>, to: nat, dst: nat, user: seq<bv8>, from: nat, src: nat)
    requires Doubled(mem, before, to, dst, user, from, src)
    requires src + 2 <= |user| && dst + 4 <= |before|
    ensures Doubled(Splice(mem, dst, [user[src], user[src + 1], user[src], user[src + 1]]),
                    before, to, dst + 4, user, from, src + 2)
  {
    StereoLength(user[from..src + 2]);
    StereoSnoc(user, from, src);
    SpliceAppend(before, to, Stereo(user[from..src]), [user[src], user[src + 1], user[src], user[src + 1]]);
  }

  method DoubleHalfWord(mem: array<bv8>, ghost before: seq<bv8>, ghost to: nat, dst: nat, user: seq<bv8>, ghost from: nat, src: nat)
    requires Doubled(mem[..], before, to, dst, user, from, src)
    requires src + 2 <= |user| && dst + 4 <= |before|
    modifies mem
    ensures Doubled(mem[..], before, to, dst + 4, user, from, src + 2)
  {
    var w0, w1, w2, w3 := SpreadHalfWord(user[src], user[src + 1]);
    DoubledStep(mem[..], before, to, dst, user, from, src);
    Store32(mem, dst, [w0, w1, w2, w3]);
  }

  method DoubleWord(mem: array<bv8>, ghost before: seq<bv8>, ghost to: nat, dst: nat, user: seq<bv8>, ghost from: nat, src: nat)
    requires Doubled(mem[..], before, to, dst, user, from, src)
    requires src + 4 <= |user| && dst + 8 <= |before|
    modifies mem
    ensures Doubled(mem[..], before, to, dst + 8, user, from, src + 4)
  {
    var x, y := SpreadWord(user[src], user[src + 1], user[src + 2], user[src + 3]);
    DoubledStep(mem[..], before, to, dst, user, from, src);
    DoubledStep(Splice(mem[..], dst, x), before, to, dst + 4, user, from, src + 2);
    Store32(mem, dst, x);
    Store32(mem, dst + 4, y);
  }

  // `user` is what the process can read from its buffer on; `address` is the address of user[from], of which only bit 1
  // matters. The count is even and positive, as the write path guarantees. Either verify_area fails and nothing is
  // written, or the destination receives the doubled samples and nothing else is touched.
  method CopyFromUserMonoStereo(mem: array<bv8>, to: nat, user: seq<bv8>, from: nat, address: nat, count: nat)
    returns (ok: bool)
    requires 0 < count && count % 2 == 0
    requires to + 2 * count <= mem.Length
    modifies mem
    ensures ok == (from + count <= |user|)
    ensures ok ==> |Stereo(user[from..from + count])| == 2 * count
    ensures mem[..] == if ok then Splice(old(mem[..]), to, Stereo(user[from..from + count])) else old(mem[..])
  {
    if from + count > |user| {
      return false;
    }
    ghost var before := mem[..];
    var dst, src, end := to, from, from + count;
    assert Doubled(mem[..], before, to, dst, user, from, src) by {
      assert user[from..from] == [];
    }
    if address % 4 >= 2 {
      DoubleHalfWord(mem, before, to, dst, user, from, src);
      dst, src := dst + 4, src + 2;
    }
    while src < end - 2
      invariant from <= src <= end && dst == to + 2 * (src - from)
      invariant Doubled(mem[..], before, to, dst, user, from, src)
    {
      DoubleWord(mem, before, to, dst, user, from, src);
      dst, src := dst + 8, src + 4;
    }
    if src < end {
      DoubleHalfWord(mem, before, to, dst, user, from, src);
      src := src + 2;
    }
    ok := true;
  }
}
