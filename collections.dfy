/**
 * Sequence helpers shared by the statistics and grouping code: the distinct elements of a
 * sequence in order of first occurrence (what `[...new Set(values)]` yields, and the order in
 * which a dictionary or a `Map` enumerates the keys it was given), and positions.
 */
module Collections {
  import opened Wrappers

  /** No element occurs twice. */
  predicate NoDuplicates<T(==)>(s: seq<T>) {
    forall i, j :: 0 <= i < j < |s| ==> s[i] != s[j]
  }

  /** The position of the first occurrence of `x` in `s`. */
  function IndexOf<T(==)>(s: seq<T>, x: T): (r: nat)
    requires x in s
    ensures r < |s| && s[r] == x && x !in s[..r]
  {
    if s[0] == x then 0 else 1 + IndexOf(s[1..], x)
  }

  /** The distinct elements of `s`, in order of first occurrence. */
  function Distinct<T(==, !new)>(s: seq<T>): (d: seq<T>)
    ensures forall x :: x in d <==> x in s
    ensures NoDuplicates(d)
    ensures |d| <= |s|
  {
    if s == [] then []
    else
      var init, last := s[..|s| - 1], s[|s| - 1];
      assert s == init + [last];
      var d := Distinct(init);
      if last in d then d else d + [last]
  }

  /** Appending an element extends the distinct elements by it exactly when it is new. */
  lemma DistinctAppend<T(!new)>(s: seq<T>, x: T)
    ensures Distinct(s + [x]) == if x in s then Distinct(s) else Distinct(s) + [x]
  {
    assert (s + [x])[..|s|] == s;
  }

  /** An element keeps its first position when more elements follow. */
  lemma {:induction false} IndexOfPrefix<T>(s: seq<T>, t: seq<T>, x: T)
    requires x in s
    ensures IndexOf(s + t, x) == IndexOf(s, x)
  {
    assert (s + t)[0] == s[0];
    if s[0] != x {
      assert (s + t)[1..] == s[1..] + t;
      IndexOfPrefix(s[1..], t, x);
    }
  }

  /** The distinct elements come in the order in which they first occur. */
  lemma {:induction false} DistinctFirstSeen<T(!new)>(s: seq<T>)
    ensures forall i, j :: 0 <= i < j < |Distinct(s)| ==>
              IndexOf(s, Distinct(s)[i]) < IndexOf(s, Distinct(s)[j])
  {
    if s != [] {
      var init, last := s[..|s| - 1], s[|s| - 1];
      assert s == init + [last];
      DistinctFirstSeen(init);
      var d, d0 := Distinct(s), Distinct(init);
      DistinctAppend(init, last);
      forall i | 0 <= i < |d0|
        ensures IndexOf(s, d0[i]) == IndexOf(init, d0[i])
      {
        IndexOfPrefix(init, [last], d0[i]);
      }
      if last !in init {
        assert IndexOf(s, last) == |init| by {
          assert s[..|init|] == init;
        }
        forall i, j | 0 <= i < j < |d|
          ensures IndexOf(s, d[i]) < IndexOf(s, d[j])
        {
          assert d[i] == d0[i];
          if j < |d0| {
            assert d[j] == d0[j];
          }
        }
      }
    }
  }

  // ---------------------------------------------------------------------------
  // map, filter and order-preserving selection
  // ---------------------------------------------------------------------------

  /** `s.map(f)`. */
  function MapSeq<A, B>(f: A -> B, s: seq<A>): (r: seq<B>)
    ensures |r| == |s|
    ensures forall i :: 0 <= i < |s| ==> r[i] == f(s[i])
  {
    seq(|s|, i requires 0 <= i < |s| => f(s[i]))
  }

  /** `s.filter(p)`. */
  function FilterSeq<T>(p: T -> bool, s: seq<T>): (r: seq<T>)
    ensures |r| <= |s|
    ensures forall i :: 0 <= i < |r| ==> p(r[i])
  {
    if s == [] then [] else (if p(s[0]) then [s[0]] else []) + FilterSeq(p, s[1..])
  }

  /** Filtering keeps exactly the elements that pass. */
  lemma {:induction false} FilterSeqMembers<T>(p: T -> bool, s: seq<T>)
    ensures forall x :: x in FilterSeq(p, s) <==> x in s && p(x)
  {
    if s != [] {
      FilterSeqMembers(p, s[1..]);
      assert s == [s[0]] + s[1..];
    }
  }

  /** `a` is `b` with some elements left out: the order of what remains is kept. */
  predicate IsSubsequence<T(==)>(a: seq<T>, b: seq<T>)
    decreases |b|
  {
    if a == [] then true
    else if b == [] then false
    else (a[0] == b[0] && IsSubsequence(a[1..], b[1..])) || IsSubsequence(a, b[1..])
  }

  /** Filtering keeps the survivors in their order. */
  lemma {:induction false} FilterIsSubsequence<T>(p: T -> bool, s: seq<T>)
    ensures IsSubsequence(FilterSeq(p, s), s)
  {
    if s != [] {
      FilterIsSubsequence(p, s[1..]);
      var r := FilterSeq(p, s[1..]);
      if p(s[0]) {
        assert FilterSeq(p, s) == [s[0]] + r;
        assert FilterSeq(p, s)[1..] == r;
      } else {
        assert FilterSeq(p, s) == r;
        if r != [] {
          assert IsSubsequence(r, s[1..]);
        }
      }
    }
  }

  /** Mapping both sides keeps the relation. */
  lemma {:induction false} MapSubsequence<A, B>(f: A -> B, a: seq<A>, b: seq<A>)
    requires IsSubsequence(a, b)
    ensures IsSubsequence(MapSeq(f, a), MapSeq(f, b))
    decreases |b|
  {
    var fa, fb := MapSeq(f, a), MapSeq(f, b);
    if a != [] {
      assert fb[1..] == MapSeq(f, b[1..]);
      if a[0] == b[0] && IsSubsequence(a[1..], b[1..]) {
        MapSubsequence(f, a[1..], b[1..]);
        assert fa[1..] == MapSeq(f, a[1..]);
      } else {
        MapSubsequence(f, a, b[1..]);
      }
    }
  }

  /** Leaving out elements twice is leaving out elements once. */
  lemma {:induction false} SubsequenceTransitive<T>(a: seq<T>, b: seq<T>, c: seq<T>)
    requires IsSubsequence(a, b) && IsSubsequence(b, c)
    ensures IsSubsequence(a, c)
    decreases |c|
  {
    if a != [] {
      assert b != [] && c != [];
      if b[0] == c[0] && IsSubsequence(b[1..], c[1..]) {
        if a[0] == b[0] && IsSubsequence(a[1..], b[1..]) {
          SubsequenceTransitive(a[1..], b[1..], c[1..]);
        } else {
          SubsequenceTransitive(a, b[1..], c[1..]);
        }
      } else {
        SubsequenceTransitive(a, b, c[1..]);
      }
    }
  }

  /** A prefix is a subsequence. */
  lemma {:induction false} PrefixIsSubsequence<T>(s: seq<T>, n: nat)
    requires n <= |s|
    ensures IsSubsequence(s[..n], s)
  {
    if n > 0 {
      assert s[..n][1..] == s[1..][..n - 1];
      PrefixIsSubsequence(s[1..], n - 1);
    }
  }

  // ---------------------------------------------------------------------------
  // A per-element step that may drop the element
  // ---------------------------------------------------------------------------

  /** The results of `f` that are there, in order: a chain of `map` and `filter` stages that
    * each look at one element, fused. */
  function CollectSome<T>(f: T -> Option<T>, s: seq<T>): (r: seq<T>)
    ensures |r| <= |s|
  {
    if s == [] then []
    else
      var p := f(s[0]);
      (if p.Some? then [p.value] else []) + CollectSome(f, s[1..])
  }

  /** What holds of every result of `f` holds of every collected element. */
  lemma {:induction false} CollectSomeAll<T>(f: T -> Option<T>, ok: T -> bool, s: seq<T>)
    requires forall x :: f(x).Some? ==> ok(f(x).value)
    ensures forall i :: 0 <= i < |CollectSome(f, s)| ==> ok(CollectSome(f, s)[i])
  {
    if s != [] {
      CollectSomeAll(f, ok, s[1..]);
      var r := CollectSome(f, s);
      if f(s[0]).Some? {
        assert r[1..] == CollectSome(f, s[1..]);
      }
    }
  }

  /** When every result of `f` is `g` of its input, the collected elements are the images
    * under `g` with some left out, in order. */
  lemma {:induction false} CollectSomeInOrder<T>(f: T -> Option<T>, g: T -> T, s: seq<T>)
    requires forall x :: f(x).Some? ==> f(x).value == g(x)
    ensures IsSubsequence(CollectSome(f, s), MapSeq(g, s))
  {
    if s != [] {
      CollectSomeInOrder(f, g, s[1..]);
      var m := MapSeq(g, s);
      assert m[1..] == MapSeq(g, s[1..]);
      var r := CollectSome(f, s);
      if f(s[0]).Some? {
        assert r == [f(s[0]).value] + CollectSome(f, s[1..]);
        assert r[0] == m[0] && r[1..] == CollectSome(f, s[1..]);
      } else if r != [] {
        assert r == CollectSome(f, s[1..]);
      }
    }
  }

  /** No result of `f` is lost: there are as many collected elements as inputs `p` accepts, `p`
    * being "has a result", and each input's result is among them. */
  lemma {:induction false} CollectSomeComplete<T>(f: T -> Option<T>, p: T -> bool, s: seq<T>)
    requires forall x :: p(x) <==> f(x).Some?
    ensures |CollectSome(f, s)| == |FilterSeq(p, s)|
    ensures forall j :: 0 <= j < |s| && f(s[j]).Some? ==> f(s[j]).value in CollectSome(f, s)
  {
    if s != [] {
      var tail := s[1..];
      CollectSomeComplete(f, p, tail);
      var rest := CollectSome(f, tail);
      var r := CollectSome(f, s);
      assert r == (if f(s[0]).Some? then [f(s[0]).value] else []) + rest;
      assert FilterSeq(p, s) == (if p(s[0]) then [s[0]] else []) + FilterSeq(p, tail);
      forall j | 0 <= j < |s| && f(s[j]).Some?
        ensures f(s[j]).value in r
      {
        if j > 0 {
          assert s[j] == tail[j - 1];
          assert f(tail[j - 1]).value in rest;
        }
      }
    }
  }
}
