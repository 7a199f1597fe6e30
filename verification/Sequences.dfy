// Small facts about sequences used by the fragment ring, the capture path and the L3 bus.
module Sequences {

  // All the chunks of `c`, one after the other.
  function Flatten<T>(c: seq<seq<T>>): seq<T>
  {
    if c == [] then [] else c[0] + Flatten(c[1..])
  }

  lemma {:induction false} FlattenConcat<T>(c: seq<seq<T>>, d: seq<seq<T>>)
    ensures Flatten(c + d) == Flatten(c) + Flatten(d)
  {
    if c == [] {
      assert c + d == d;
    } else {
      FlattenConcat(c[1..], d);
      assert (c + d)[1..] == c[1..] + d;
      assert (c[0] + Flatten(c[1..])) + Flatten(d) == c[0] + (Flatten(c[1..]) + Flatten(d));
    }
  }

  lemma FlattenAppend<T>(c: seq<seq<T>>, x: seq<T>)
    ensures Flatten(c + [x]) == Flatten(c) + x
  {
    FlattenConcat(c, [x]);
    assert Flatten([x]) == x + Flatten([x][1..]);
  }

  function Sum(v: seq<nat>): nat
  {
    if v == [] then 0 else v[0] + Sum(v[1..])
  }

  lemma {:induction false} SumConcat(v: seq<nat>, w: seq<nat>)
    ensures Sum(v + w) == Sum(v) + Sum(w)
  {
    if v == [] {
      assert v + w == w;
    } else {
      SumConcat(v[1..], w);
      assert (v + w)[1..] == v[1..] + w;
    }
  }

  lemma SumSnoc(v: seq<nat>, i: nat)
    requires i < |v|
    ensures Sum(v[..i + 1]) == Sum(v[..i]) + v[i]
  {
    SumConcat(v[..i], [v[i]]);
    assert v[..i + 1] == v[..i] + [v[i]];
  }

  // Summing round a ring gives the same total wherever one starts.
  lemma SumRotate(v: seq<nat>, a: nat)
    requires a <= |v|
    ensures Sum(v[a..] + v[..a]) == Sum(v)
  {
    SumConcat(v[a..], v[..a]);
    SumConcat(v[..a], v[a..]);
    assert v == v[..a] + v[a..];
  }

  lemma {:induction false} SumConstant(v: seq<nat>, x: nat)
    requires forall i :: 0 <= i < |v| ==> v[i] == x
    ensures Sum(v) == |v| * x
  {
    if v != [] {
      SumConstant(v[1..], x);
    }
  }

  lemma {:induction false} SumGrows(v: seq<nat>, w: seq<nat>)
    requires |v| == |w| && forall i :: 0 <= i < |v| ==> v[i] <= w[i]
    ensures Sum(v) <= Sum(w)
  {
    if v != [] {
      SumGrows(v[1..], w[1..]);
    }
  }

  lemma {:induction false} FlattenLength<T>(c: seq<seq<T>>, v: seq<nat>)
    requires |v| == |c| && forall i :: 0 <= i < |c| ==> v[i] == |c[i]|
    ensures |Flatten(c)| == Sum(v)
  {
    if c != [] {
      FlattenLength(c[1..], v[1..]);
    }
  }

  // `s` with the elements from `at` on overwritten by `x`.
  function Splice<T>(s: seq<T>, at: nat, x: seq<T>): (r: seq<T>)
    requires at + |x| <= |s|
    ensures |r| == |s|
  {
    s[..at] + x + s[at + |x|..]
  }

  lemma SpliceAppend<T>(s: seq<T>, at: nat, x: seq<T>, y: seq<T>)
    requires at + |x| + |y| <= |s|
    ensures Splice(Splice(s, at, x), at + |x|, y) == Splice(s, at, x + y)
  {
  }

  // A stretch that the overwriting does not reach reads as before.
  lemma SpliceElsewhere<T>(s: seq<T>, at: nat, x: seq<T>, from: nat, n: nat)
    requires at + |x| <= |s| && from + n <= |s|
    requires from + n <= at || at + |x| <= from
    ensures Splice(s, at, x)[from..from + n] == s[from..from + n]
  {
    var r := Splice(s, at, x);
    forall i | from <= i < from + n ensures r[i] == s[i] {
    }
  }

  lemma SlicePrefix<T>(s: seq<T>, from: nat, n: nat, m: nat)
    requires from + n <= |s| && m <= n
    ensures s[from..from + n][..m] == s[from..from + m]
  {
  }

  lemma SliceTwice<T>(s: seq<T>, a: nat, b: nat)
    requires a + b <= |s|
    ensures s[a..][b..] == s[a + b..]
  {
  }

  // What follows a common beginning.
  lemma AfterBeginning<T>(d: seq<T>, x: seq<T>, y: seq<T>)
    requires d + x == d + y
    ensures x == y
  {
    assert x == (d + x)[|d|..] && y == (d + y)[|d|..];
  }

  lemma PrefixSnoc<T>(s: seq<T>, i: nat)
    requires i < |s|
    ensures s[..i] + [s[i]] == s[..i + 1]
  {
  }
}
