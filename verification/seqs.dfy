/** Sequence helpers that mirror the JavaScript array methods the components
    use: `filter`, `slice(0, n)` and removal by index. */
module Seqs {

  /** No value occurs twice. */
  predicate NoDup<T(==)>(xs: seq<T>) {
    forall i, j :: 0 <= i < j < |xs| ==> xs[i] != xs[j]
  }

  /** `xs.filter(keep)`: the elements satisfying `keep`, in their original order. */
  function Filter<T(!new)>(xs: seq<T>, keep: T -> bool): (r: seq<T>)
    ensures |r| <= |xs|
    ensures forall i :: 0 <= i < |r| ==> keep(r[i])
  {
    if xs == [] then []
    else (if keep(xs[0]) then [xs[0]] else []) + Filter(xs[1..], keep)
  }

  /** Each value `keep` accepts occurs in the result as often as in `xs`. */
  lemma {:induction false} FilterMultiset<T(!new)>(xs: seq<T>, keep: T -> bool)
    ensures forall x :: multiset(Filter(xs, keep))[x] == if keep(x) then multiset(xs)[x] else 0
  {
    if xs != [] {
      assert xs == [xs[0]] + xs[1..];
      FilterMultiset(xs[1..], keep);
    }
  }

  /** Filtering distributes over concatenation; with the one-element case this
      determines `Filter` completely, so it is the order-preservation property. */
  lemma {:induction false} FilterAppend<T(!new)>(a: seq<T>, b: seq<T>, keep: T -> bool)
    ensures Filter(a + b, keep) == Filter(a, keep) + Filter(b, keep)
  {
    if a == [] {
      assert a + b == b;
    } else {
      assert (a + b)[1..] == a[1..] + b;
      FilterAppend(a[1..], b, keep);
    }
  }

  /** A filter that rejects nothing changes nothing, and conversely. */
  lemma {:induction false} FilterKeepsAll<T(!new)>(xs: seq<T>, keep: T -> bool)
    ensures Filter(xs, keep) == xs <==> forall i :: 0 <= i < |xs| ==> keep(xs[i])
  {
    if xs != [] {
      FilterKeepsAll(xs[1..], keep);
      if !keep(xs[0]) {
        assert |Filter(xs, keep)| < |xs|;
      }
      if forall i :: 0 <= i < |xs| ==> keep(xs[i]) {
        assert forall i :: 0 <= i < |xs[1..]| ==> keep(xs[1..][i]) by {
          forall i | 0 <= i < |xs[1..]| ensures keep(xs[1..][i]) {
            assert xs[1..][i] == xs[i + 1];
          }
        }
      }
    }
  }

  /** Filtering a duplicate-free sequence leaves it duplicate-free. */
  lemma {:induction false} FilterNoDup<T(!new)>(xs: seq<T>, keep: T -> bool)
    requires NoDup(xs)
    ensures NoDup(Filter(xs, keep))
  {
    if xs != [] {
      var t := xs[1..];
      assert NoDup(t) by {
        forall i, j | 0 <= i < j < |t| ensures t[i] != t[j] {
          assert t[i] == xs[i + 1] && t[j] == xs[j + 1];
        }
      }
      FilterNoDup(t, keep);
      var ft := Filter(t, keep);
      FilterMultiset(t, keep);
      assert xs[0] !in t by {
        forall k | 0 <= k < |t| ensures t[k] != xs[0] {
          assert t[k] == xs[k + 1];
        }
      }
      assert multiset(t)[xs[0]] == 0;
      assert xs[0] !in ft by {
        assert multiset(ft)[xs[0]] == 0;
      }
      if keep(xs[0]) {
        var r := [xs[0]] + ft;
        forall i, j | 0 <= i < j < |r| ensures r[i] != r[j] {
          if i == 0 {
            assert r[j] == ft[j - 1];
          } else {
            assert r[i] == ft[i - 1] && r[j] == ft[j - 1];
          }
        }
      } else {
        assert Filter(xs, keep) == ft;
      }
    }
  }

  /** The test `y => y !== x`. */
  function Differs<T(==)>(x: T): T -> bool {
    y => y != x
  }

  /** `xs.filter(y => y !== x)`: every occurrence of `x` removed. */
  function Without<T(==,!new)>(xs: seq<T>, x: T): (r: seq<T>)
    ensures x !in r
    ensures forall y :: y != x ==> multiset(r)[y] == multiset(xs)[y]
    ensures x !in xs ==> r == xs
  {
    var keep := Differs(x);
    var r := Filter(xs, keep);
    FilterMultiset(xs, keep);
    assert multiset(r)[x] == 0;
    FilterKeepsAll(xs, keep);
    r
  }

  lemma WithoutAppend<T(!new)>(a: seq<T>, b: seq<T>, x: T)
    ensures Without(a + b, x) == Without(a, x) + Without(b, x)
  {
    FilterAppend(a, b, Differs(x));
  }

  lemma WithoutNoDup<T(!new)>(xs: seq<T>, x: T)
    requires NoDup(xs)
    ensures NoDup(Without(xs, x))
  {
    FilterNoDup(xs, Differs(x));
  }

  /** Removing `x` shortens the sequence by exactly the number of its occurrences. */
  lemma {:induction false} WithoutLength<T(!new)>(xs: seq<T>, x: T)
    ensures |Without(xs, x)| == |xs| - multiset(xs)[x]
  {
    if xs != [] {
      assert xs == [xs[0]] + xs[1..];
      WithoutAppend([xs[0]], xs[1..], x);
      WithoutLength(xs[1..], x);
      if xs[0] == x {
        assert Filter([xs[0]], Differs(x)) == [];
      } else {
        assert Filter([xs[0]], Differs(x)) == [xs[0]];
      }
    }
  }

  /** In a duplicate-free sequence a value occurs at most once. */
  lemma {:induction false} NoDupCount<T(!new)>(xs: seq<T>, x: T)
    requires NoDup(xs)
    ensures multiset(xs)[x] <= 1
  {
    if xs != [] {
      var t := xs[1..];
      assert xs == [xs[0]] + t;
      assert NoDup(t) by {
        forall i, j | 0 <= i < j < |t| ensures t[i] != t[j] {
          assert t[i] == xs[i + 1] && t[j] == xs[j + 1];
        }
      }
      NoDupCount(t, x);
      if xs[0] == x {
        assert x !in t by {
          forall k | 0 <= k < |t| ensures t[k] != x {
            assert t[k] == xs[k + 1];
          }
        }
      }
    }
  }

  /** `xs.slice(0, n)`: the first `n` elements, or all of them if there are fewer. */
  function Take<T>(xs: seq<T>, n: nat): (r: seq<T>)
    ensures |r| == if |xs| < n then |xs| else n
    ensures r == xs[..|r|]
  {
    if |xs| <= n then xs else xs[..n]
  }

  /** Cutting after a first element keeps it and cuts the rest one shorter. */
  lemma TakeCons<T>(x: T, xs: seq<T>, n: nat)
    ensures Take([x] + xs, n + 1) == [x] + Take(xs, n)
  {
    if |xs| > n {
      assert ([x] + xs)[..n + 1] == [x] + xs[..n];
    }
  }

  /** The elements of `xs`, last first. */
  function Reverse<T>(xs: seq<T>): (r: seq<T>)
    ensures |r| == |xs|
    ensures forall i :: 0 <= i < |xs| ==> r[i] == xs[|xs| - 1 - i]
  {
    if xs == [] then [] else [xs[|xs| - 1]] + Reverse(xs[..|xs| - 1])
  }

  /** `xs.filter((_, j) => j !== i)`: the element at position `i` dropped; an
      index outside the sequence removes nothing. */
  function RemoveAt<T>(xs: seq<T>, i: int): (r: seq<T>)
    ensures 0 <= i < |xs| ==> |r| == |xs| - 1 && r[..i] == xs[..i] && r[i..] == xs[i + 1..]
    ensures !(0 <= i < |xs|) ==> r == xs
  {
    if xs == [] then []
    else if i == 0 then xs[1..]
    else [xs[0]] + RemoveAt(xs[1..], i - 1)
  }
}
