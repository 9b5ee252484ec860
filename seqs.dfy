/** Searching sequences, mapping over them, and facts about their multisets of elements. */
module Seqs {

  /** The position of the first `x` in `s`, or `|s|` when there is none. */
  function IndexOf<T(==)>(s: seq<T>, x: T): (r: nat)
    ensures r <= |s|
    ensures r < |s| <==> x in s
    ensures r < |s| ==> s[r] == x
    ensures forall k :: 0 <= k < r ==> s[k] != x
  {
    if |s| == 0 then 0
    else if s[0] == x then 0
    else 1 + IndexOf(s[1..], x)
  }

  /** Taking one `x` out of two equal multisets leaves equal multisets. */
  lemma MultisetCancel<T>(a: seq<T>, x: T, b1: seq<T>, b2: seq<T>)
    requires multiset(a + [x]) == multiset(b1 + [x] + b2)
    ensures multiset(a) == multiset(b1 + b2)
  {
    assert multiset(a + [x]) == multiset(a) + multiset{x};
    assert multiset(b1 + [x] + b2) == multiset(b1 + b2) + multiset{x};
    var l, r := multiset(a), multiset(b1 + b2);
    forall y ensures l[y] == r[y] {
      assert (l + multiset{x})[y] == l[y] + multiset{x}[y];
      assert (r + multiset{x})[y] == r[y] + multiset{x}[y];
    }
  }

  /** `f` applied to every element of `s`. */
  function Map<A, B>(s: seq<A>, f: A -> B): seq<B>
  {
    seq(|s|, k requires 0 <= k < |s| => f(s[k]))
  }

  /** Mapping two permutations of each other gives permutations of each other. */
  lemma {:induction false} MapPermutation<A, B>(a: seq<A>, b: seq<A>, f: A -> B)
    requires multiset(a) == multiset(b)
    ensures multiset(Map(a, f)) == multiset(Map(b, f))
    decreases |a|
  {
    if |a| == 0 {
      assert |b| == |multiset(b)| == 0;
      assert Map(b, f) == [];
    } else {
      var a', x := a[..|a| - 1], a[|a| - 1];
      assert a == a' + [x];
      assert x in multiset(b);
      var j :| 0 <= j < |b| && b[j] == x;
      var b1, b2 := b[..j], b[j + 1..];
      assert b == b1 + [x] + b2;
      MultisetCancel(a', x, b1, b2);
      MapPermutation(a', b1 + b2, f);
      assert Map(a, f) == Map(a', f) + [f(x)];
      assert Map(b, f) == Map(b1, f) + [f(x)] + Map(b2, f);
      assert Map(b1 + b2, f) == Map(b1, f) + Map(b2, f);
    }
  }

  /** The elements of `s` that satisfy `p`, in order (a boolean-mask selection). */
  function Keep<T>(s: seq<T>, p: T -> bool): seq<T>
  {
    if |s| == 0 then [] else Keep(s[..|s| - 1], p) + if p(s[|s| - 1]) then [s[|s| - 1]] else []
  }

  lemma KeepSnoc<T>(s: seq<T>, x: T, p: T -> bool)
    ensures Keep(s + [x], p) == Keep(s, p) + if p(x) then [x] else []
  {
    assert (s + [x])[..|s|] == s;
  }

  lemma {:induction false} KeepAppend<T>(a: seq<T>, b: seq<T>, p: T -> bool)
    ensures Keep(a + b, p) == Keep(a, p) + Keep(b, p)
    decreases |b|
  {
    if |b| == 0 {
      assert a + b == a;
    } else {
      var b', last := b[..|b| - 1], b[|b| - 1];
      assert b == b' + [last] && a + b == (a + b') + [last];
      KeepSnoc(a + b', last, p);
      KeepSnoc(b', last, p);
      KeepAppend(a, b', p);
    }
  }
}
