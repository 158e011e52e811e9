/** What the packet programs do with bursts: take at most so many, sort them by some key, free a rest. */
module Bursts {

  function Min(a: nat, b: nat): nat { if a < b then a else b }

  /** The elements with key k, in order. */
  function Pick<K(==), T>(key: T -> K, k: K, s: seq<T>): (r: seq<T>)
    ensures |r| <= |s|
  {
    if s == [] then []
    else
      var last := s[|s| - 1];
      Pick(key, k, s[..|s| - 1]) + if key(last) == k then [last] else []
  }

  lemma {:induction false} PickAppend<K, T>(key: T -> K, k: K, a: seq<T>, b: seq<T>)
    ensures Pick(key, k, a + b) == Pick(key, k, a) + Pick(key, k, b)
    decreases |b|
  {
    if b == [] {
      assert a + b == a;
    } else {
      assert (a + b)[..|a + b| - 1] == a + b[..|b| - 1];
      PickAppend(key, k, a, b[..|b| - 1]);
    }
  }

  lemma PickNext<K, T>(key: T -> K, k: K, s: seq<T>, i: nat)
    requires i < |s|
    ensures Pick(key, k, s[..i + 1]) == Pick(key, k, s[..i]) + if key(s[i]) == k then [s[i]] else []
  {
    assert s[..i + 1][..i] == s[..i];
  }

  /** Each element is picked by its own key, as often as it occurs, and by no other. */
  lemma {:induction false} PickCounts<K, T>(key: T -> K, k: K, s: seq<T>, x: T)
    ensures multiset(Pick(key, k, s))[x] == if key(x) == k then multiset(s)[x] else 0
    decreases |s|
  {
    if s != [] {
      var front, last := s[..|s| - 1], s[|s| - 1];
      PickCounts(key, k, front, x);
      assert s == front + [last];
    }
  }

  ghost predicate AllOf<K, T>(key: T -> K, k: K, s: seq<T>) {
    forall i :: 0 <= i < |s| ==> key(s[i]) == k
  }

  lemma {:induction false} PickAll<K, T>(key: T -> K, k: K, g: K, s: seq<T>)
    requires AllOf(key, g, s)
    ensures Pick(key, k, s) == if k == g then s else []
    decreases |s|
  {
    if s != [] {
      PickAll(key, k, g, s[..|s| - 1]);
    }
  }

  /** A part holds only what it is for. */
  lemma {:induction false} PickIsPure<K, T>(key: T -> K, k: K, s: seq<T>)
    ensures AllOf(key, k, Pick(key, k, s))
    decreases |s|
  {
    if s != [] {
      PickIsPure(key, k, s[..|s| - 1]);
    }
  }

  /** Free the objects from n on, one by one. */
  method FreeFrom<T>(freed: seq<T>, objs: seq<T>, n: nat) returns (r: seq<T>)
    requires n <= |objs|
    ensures r == freed + objs[n..]
  {
    r := freed;
    for i := n to |objs|
      invariant r == freed + objs[n..i]
    {
      r := r + [objs[i]];
      assert objs[n..i + 1] == objs[n..i] + [objs[i]];
    }
    assert objs[n..|objs|] == objs[n..];
  }
}
