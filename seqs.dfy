/** Sequence helpers shared by the gallery, tree and metadata modules. */
module Seqs {
  import opened Wrappers

  /** Index of the first element equal to `x` (Rust's `iter().position`). */
  function Position<T(==)>(s: seq<T>, x: T): (r: Option<nat>)
    ensures r.Some? ==> r.value < |s| && s[r.value] == x && x !in s[..r.value]
    ensures r.None? <==> x !in s
    decreases |s|
  {
    if |s| == 0 then None
    else if s[0] == x then Some(0)
    else
      match Position(s[1..], x)
      case None => None
      case Some(k) =>
        assert s[1..][..k] == s[1..k + 1];
        Some(k + 1)
  }

  /** `Vec::remove(i)`: the element at `i` is dropped, the rest keep their order. */
  function RemoveAt<T>(s: seq<T>, i: nat): (r: seq<T>)
    requires i < |s|
    ensures |r| == |s| - 1
    ensures forall k :: 0 <= k < i ==> r[k] == s[k]
    ensures forall k :: i <= k < |r| ==> r[k] == s[k + 1]
  {
    s[..i] + s[i + 1..]
  }

  /** `Vec::insert(i, x)`. */
  function InsertAt<T>(s: seq<T>, i: nat, x: T): (r: seq<T>)
    requires i <= |s|
    ensures |r| == |s| + 1 && r[i] == x
    ensures forall k :: 0 <= k < i ==> r[k] == s[k]
    ensures forall k :: i < k < |r| ==> r[k] == s[k - 1]
  {
    s[..i] + [x] + s[i..]
  }

  function Reverse<T>(s: seq<T>): (r: seq<T>)
    ensures |r| == |s|
    ensures forall k :: 0 <= k < |s| ==> r[k] == s[|s| - 1 - k]
    decreases |s|
  {
    if s == [] then [] else Reverse(s[1..]) + [s[0]]
  }

  lemma ReverseAppend<T>(s: seq<T>, x: T)
    ensures Reverse(s + [x]) == [x] + Reverse(s)
  {
    var a, b := Reverse(s + [x]), [x] + Reverse(s);
    assert |a| == |b|;
    forall k | 0 <= k < |a| ensures a[k] == b[k] {
      if k > 0 {
        assert a[k] == (s + [x])[|s| - k];
      }
    }
  }

  /** The pieces laid end to end. */
  function Flatten<T>(r: seq<seq<T>>): seq<T>
    decreases |r|
  {
    if r == [] then [] else r[0] + Flatten(r[1..])
  }

  /** Runs that are never empty are no more numerous than their elements. */
  lemma {:induction false} FlattenAtLeast<T>(r: seq<seq<T>>)
    requires forall i :: 0 <= i < |r| ==> r[i] != []
    ensures |r| <= |Flatten(r)|
    decreases |r|
  {
    if r != [] {
      FlattenAtLeast(r[1..]);
    }
  }

  lemma {:induction false} FlattenMember<T>(r: seq<seq<T>>, i: nat, x: T)
    requires i < |r| && x in r[i]
    ensures x in Flatten(r)
    decreases i
  {
    if i > 0 {
      FlattenMember(r[1..], i - 1, x);
    }
  }

  /** An element of the pieces laid end to end lies in one of the pieces. */
  lemma {:induction false} FlattenHas<T>(r: seq<seq<T>>, x: T)
    requires x in Flatten(r)
    ensures exists i :: 0 <= i < |r| && x in r[i]
    decreases |r|
  {
    if x !in r[0] {
      FlattenHas(r[1..], x);
      var i :| 0 <= i < |r[1..]| && x in r[1..][i];
      assert x in r[i + 1];
    }
  }

  /**
   * `slice::chunks(n)`: consecutive pieces of `n` elements, the last one
   * possibly shorter, none empty.
   */
  function Chunks<T>(s: seq<T>, n: nat): (r: seq<seq<T>>)
    requires n > 0
    ensures Flatten(r) == s
    ensures forall i :: 0 <= i < |r| ==> 0 < |r[i]| <= n
    ensures forall i :: 0 <= i < |r| - 1 ==> |r[i]| == n
    decreases |s|
  {
    if s == [] then []
    else if |s| <= n then
      assert [s][1..] == [];
      [s]
    else
      var rest := Chunks(s[n..], n);
      assert ([s[..n]] + rest)[1..] == rest;
      assert s[..n] + s[n..] == s;
      [s[..n]] + rest
  }

  /** At most `k` chunks when there are at most `k * n` elements. */
  lemma {:induction false} ChunksCount<T>(s: seq<T>, n: nat, k: nat)
    requires n > 0 && |s| <= k * n
    ensures |Chunks(s, n)| <= k
    decreases |s|
  {
    if |s| > n {
      assert k * n - n == (k - 1) * n;
      ChunksCount(s[n..], n, k - 1);
    }
  }

  /**
   * Itertools' `chunk_by`: maximal runs of consecutive elements with equal
   * keys.
   */
  function ChunkBy<T, K(==)>(s: seq<T>, key: T -> K): (r: seq<seq<T>>)
    ensures Flatten(r) == s
    ensures forall i :: 0 <= i < |r| ==> r[i] != [] && forall j :: 0 <= j < |r[i]| ==> key(r[i][j]) == key(r[i][0])
    ensures forall i :: 0 < i < |r| ==> key(r[i][0]) != key(r[i - 1][0])
    ensures s == [] <==> r == []
    decreases |s|
  {
    if s == [] then []
    else
      var rest := ChunkBy(s[1..], key);
      if rest != [] && key(rest[0][0]) == key(s[0]) then
        var r := [[s[0]] + rest[0]] + rest[1..];
        assert r[1..] == rest[1..];
        assert Flatten(rest) == rest[0] + Flatten(rest[1..]);
        r
      else
        var r := [[s[0]]] + rest;
        assert r[1..] == rest;
        r
  }

  /** Every element of an earlier run is `le` every element of a later one. */
  ghost predicate RunsInOrder<T>(r: seq<seq<T>>, le: (T, T) -> bool)
  {
    forall i, j, x, y :: 0 <= i < j < |r| && x in r[i] && y in r[j] ==> le(x, y)
  }

  /** A run placed in front of runs in order keeps them in order when it precedes all of them. */
  lemma RunsInOrderCons<T>(first: seq<T>, rr: seq<seq<T>>, le: (T, T) -> bool)
    requires RunsInOrder(rr, le)
    requires forall j, x, y :: 0 <= j < |rr| && x in first && y in rr[j] ==> le(x, y)
    ensures RunsInOrder([first] + rr, le)
  {
    var r := [first] + rr;
    forall i, j, x, y | 0 <= i < j < |r| && x in r[i] && y in r[j] ensures le(x, y) {
      assert r[j] == rr[j - 1];
      if i > 0 {
        assert r[i] == rr[i - 1];
      }
    }
  }

  /** Elements in order (every earlier one `le` every later one) give runs in order. */
  lemma {:induction false} ChunkByOrdered<T, K>(s: seq<T>, key: T -> K, le: (T, T) -> bool)
    requires forall a, b :: 0 <= a < b < |s| ==> le(s[a], s[b])
    ensures RunsInOrder(ChunkBy(s, key), le)
    decreases |s|
  {
    if s != [] {
      var rest := s[1..];
      assert forall a, b :: 0 <= a < b < |rest| ==> le(rest[a], rest[b]) by {
        forall a, b | 0 <= a < b < |rest| ensures le(rest[a], rest[b]) {
          assert rest[a] == s[a + 1] && rest[b] == s[b + 1];
        }
      }
      ChunkByOrdered(rest, key, le);
      var rr := ChunkBy(rest, key);
      forall j, y | 0 <= j < |rr| && y in rr[j] ensures le(s[0], y) {
        FlattenMember(rr, j, y);
        var k :| 0 <= k < |rest| && rest[k] == y;
        assert s[k + 1] == y;
      }
      if rr != [] && key(rr[0][0]) == key(s[0]) {
        var first, tail := [s[0]] + rr[0], rr[1..];
        forall i, j, x, y | 0 <= i < j < |tail| && x in tail[i] && y in tail[j] ensures le(x, y) {
          assert tail[i] == rr[i + 1] && tail[j] == rr[j + 1];
        }
        forall j, x, y | 0 <= j < |tail| && x in first && y in tail[j] ensures le(x, y) {
          assert tail[j] == rr[j + 1];
          if x != s[0] {
            assert x in rr[0];
          }
        }
        RunsInOrderCons(first, tail, le);
      } else {
        RunsInOrderCons([s[0]], rr, le);
      }
    }
  }

  lemma ConcatAssoc<T>(a: seq<T>, b: seq<T>, c: seq<T>)
    ensures a + (b + c) == (a + b) + c
  {
  }

  /** Two elements can be arranged in only two ways. */
  lemma PairPermutation<T>(a: T, b: T, t: seq<T>)
    requires multiset(t) == multiset{a, b}
    ensures t == [a, b] || t == [b, a]
  {
    assert |t| == |multiset(t)| == 2;
    assert t == [t[0]] + [t[1]];
    assert multiset(t) == multiset{t[0]} + multiset{t[1]};
    assert t[0] in multiset(t);
    if t[0] == a {
      assert multiset{t[1]} == multiset{b};
    } else {
      assert t[0] == b;
      assert multiset{t[1]} == multiset{a};
    }
  }

  /** Two elements with one key make a single run. */
  lemma ChunkByPair<T, K>(a: T, b: T, key: T -> K)
    requires key(a) == key(b)
    ensures ChunkBy([a, b], key) == [[a, b]]
  {
    assert [a, b][1..] == [b];
    assert [b][1..] == [];
    assert ChunkBy([b], key) == [[b]];
    assert [[b]][0][0] == b && [[b]][1..] == [];
    assert [a] + [b] == [a, b];
    assert ChunkBy([a, b], key) == [[a] + [b]] + [];
  }

  /** Dropping the last element of a concatenation drops it from its second part. */
  lemma ConcatInit<T>(a: seq<T>, b: seq<T>)
    requires b != []
    ensures (a + b)[..|a + b| - 1] == a + b[..|b| - 1]
    ensures (a + b)[|a + b| - 1] == b[|b| - 1]
  {
  }

  /** Removing the element right after a prefix drops the head of what follows it. */
  lemma RemoveAfterPrefix<T>(p: seq<T>, rest: seq<T>)
    requires rest != []
    ensures RemoveAt(p + rest, |p|) == p + rest[1..]
  {
    assert (p + rest)[..|p|] == p;
    assert (p + rest)[|p| + 1..] == rest[1..];
  }

  /** The prefix one element longer. */
  lemma PrefixStep<T>(s: seq<T>, i: nat)
    requires i < |s|
    ensures s[..i + 1][..i] == s[..i]
    ensures s[..i + 1][i] == s[i]
    ensures |s[..i + 1]| == i + 1
  {
  }

  lemma {:induction false} FlattenAppend<T>(r: seq<seq<T>>, x: seq<T>)
    ensures Flatten(r + [x]) == Flatten(r) + x
    decreases |r|
  {
    if r == [] {
      assert [x][1..] == [];
    } else {
      assert (r + [x])[1..] == r[1..] + [x];
      FlattenAppend(r[1..], x);
    }
  }

  lemma {:induction false} FlattenConcat<T>(x: seq<seq<T>>, y: seq<seq<T>>)
    ensures Flatten(x + y) == Flatten(x) + Flatten(y)
    decreases |x|
  {
    if x != [] {
      assert (x + y)[1..] == x[1..] + y;
      FlattenConcat(x[1..], y);
    } else {
      assert x + y == y;
    }
  }
}
