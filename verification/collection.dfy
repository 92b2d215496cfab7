/**
 The two collection operations the authorization trait relies on, stated on
 plain sequences: keying a collection by an attribute (followed by a key
 membership test), and flattening a collection of collections before appending
 another one.
 */
module Collection {

  /** Index `xs` by `key`. When two elements share a key the later one wins,
      as when an associative array is filled front to back. */
  function KeyBy<K(==,!new), T>(xs: seq<T>, key: T -> K): (m: map<K, T>)
    ensures forall k :: k in m <==> exists i :: 0 <= i < |xs| && key(xs[i]) == k
    ensures forall k :: k in m ==> key(m[k]) == k && m[k] in xs
  {
    if |xs| == 0 then map[]
    else
      var init := xs[..|xs| - 1];
      var last := xs[|xs| - 1];
      assert forall i :: 0 <= i < |init| ==> init[i] == xs[i];
      KeyBy(init, key)[key(last) := last]
  }

  /** The element stored under a key is the last element of `xs` with that key. */
  lemma {:induction false} KeyByKeepsLast<K(!new), T>(xs: seq<T>, key: T -> K, k: K)
    requires k in KeyBy(xs, key)
    ensures exists i :: 0 <= i < |xs| && xs[i] == KeyBy(xs, key)[k]
                        && forall j :: i < j < |xs| ==> key(xs[j]) != k
  {
    var n := |xs| - 1;
    var init := xs[..n];
    if key(xs[n]) != k {
      assert k in KeyBy(init, key);
      KeyByKeepsLast(init, key, k);
      var i :| 0 <= i < |init| && init[i] == KeyBy(init, key)[k]
               && forall j :: i < j < |init| ==> key(init[j]) != k;
      assert xs[i] == KeyBy(xs, key)[k];
      assert forall j :: i < j < |xs| ==> key(xs[j]) != k by {
        forall j | i < j < |xs|
          ensures key(xs[j]) != k
        {
          if j < n {
            assert xs[j] == init[j];
          }
        }
      }
    }
  }

  /** True iff some key in `ks` is a key of `m`; scans `ks` front to back and
      stops at the first hit. */
  function HasAny<K, V>(m: map<K, V>, ks: seq<K>): (r: bool)
    ensures r <==> exists i :: 0 <= i < |ks| && ks[i] in m
  {
    if |ks| == 0 then false
    else if ks[0] in m then true
    else
      assert forall i :: 1 <= i < |ks| ==> ks[i] == ks[1..][i - 1];
      HasAny(m, ks[1..])
  }

  /** Where block `i` starts once the blocks of `xss` are laid end to end:
      the total length of the blocks before it. */
  function Offset<T>(xss: seq<seq<T>>, i: nat): nat
    requires i <= |xss|
  {
    if i == 0 then 0 else Offset(xss, i - 1) + |xss[i - 1]|
  }

  /** Offsets of the first `n` blocks do not depend on the blocks after them. */
  lemma {:induction false} OffsetOfPrefix<T>(xss: seq<seq<T>>, n: nat, i: nat)
    requires i <= n <= |xss|
    ensures Offset(xss[..n], i) == Offset(xss, i)
  {
    if i > 0 {
      OffsetOfPrefix(xss, n, i - 1);
      assert xss[..n][i - 1] == xss[i - 1];
    }
  }

  /** `r` is the blocks of `xss` laid end to end, in order: block `i`
      occupies the positions from its offset up to the next block's. */
  ghost predicate LaidOut<T>(xss: seq<seq<T>>, r: seq<T>)
  {
    && |r| == Offset(xss, |xss|)
    && forall i :: 0 <= i < |xss| ==> BlockAt(xss, r, i)
  }

  /** Block `i` of `xss` sits in `r` at its offset. */
  ghost predicate BlockAt<T>(xss: seq<seq<T>>, r: seq<T>, i: nat)
    requires i < |xss|
  {
    Offset(xss, i + 1) <= |r| && r[Offset(xss, i)..Offset(xss, i + 1)] == xss[i]
  }

  /** Appending the next block to a layout of the blocks before it lays out
      one block more. */
  lemma AppendBlock<T>(xss: seq<seq<T>>, front: seq<T>)
    requires |xss| > 0 && LaidOut(xss[..|xss| - 1], front)
    ensures LaidOut(xss, front + xss[|xss| - 1])
  {
    var n := |xss| - 1;
    var init := xss[..n];
    var r := front + xss[n];
    forall i | 0 <= i <= n
      ensures Offset(init, i) == Offset(xss, i)
    {
      OffsetOfPrefix(xss, n, i);
    }
    forall i | 0 <= i < |xss|
      ensures BlockAt(xss, r, i)
    {
      if i < n {
        assert BlockAt(init, front, i);
        assert init[i] == xss[i];
        assert r[Offset(xss, i)..Offset(xss, i + 1)] == front[Offset(xss, i)..Offset(xss, i + 1)];
      }
    }
  }

  /** Concatenate the inner sequences in order, keeping duplicates. */
  function Flatten<T(!new)>(xss: seq<seq<T>>): (r: seq<T>)
    ensures LaidOut(xss, r)
    ensures forall x :: x in r <==> exists i :: 0 <= i < |xss| && x in xss[i]
  {
    if |xss| == 0 then []
    else
      var n := |xss| - 1;
      var front := Flatten(xss[..n]);
      AppendBlock(xss, front);
      assert forall i :: 0 <= i < n ==> xss[..n][i] == xss[i];
      front + xss[n]
  }
}
