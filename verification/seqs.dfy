/** Facts about sequences used throughout the model: distinctness, order-keeping
    filtering, and how many distinct elements a sequence can hold. */
module Seqs {

  /** No element occurs twice. */
  ghost predicate Distinct<T>(s: seq<T>) {
    forall i, j :: 0 <= i < j < |s| ==> s[i] != s[j]
  }

  /** Strictly ascending by code point; such a string is determined by its set of characters. */
  ghost predicate Increasing(s: string) {
    forall i, j :: 0 <= i < j < |s| ==> s[i] < s[j]
  }

  /** The set of elements of a sequence. */
  function Elements<T(!new)>(s: seq<T>): (r: set<T>)
    ensures forall x :: x in r <==> x in s
  {
    set x | x in s
  }

  /** The elements of `s` that satisfy `keep`, in their original order. */
  function Filter<T(!new)>(s: seq<T>, keep: T -> bool): (r: seq<T>)
    ensures |r| <= |s|
    ensures forall x :: x in r <==> x in s && keep(x)
  {
    if |s| == 0 then []
    else if keep(s[0]) then [s[0]] + Filter(s[1..], keep)
    else Filter(s[1..], keep)
  }

  /** Filtering a duplicate-free sequence leaves it duplicate-free. */
  lemma {:induction false} FilterDistinct<T(!new)>(s: seq<T>, keep: T -> bool)
    requires Distinct(s)
    ensures Distinct(Filter(s, keep))
  {
    if |s| > 0 {
      var t := s[1..];
      assert Distinct(t) by {
        forall i, j | 0 <= i < j < |t| ensures t[i] != t[j] {
          assert t[i] == s[i + 1] && t[j] == s[j + 1];
        }
      }
      FilterDistinct(t, keep);
      assert s[0] !in t by {
        forall k | 0 <= k < |t| ensures t[k] != s[0] {
          assert t[k] == s[k + 1];
        }
      }
      if keep(s[0]) {
        DistinctAppend([s[0]], Filter(t, keep));
      }
    }
  }

  /** Filtering distributes over concatenation: the kept elements of `a` come first,
      in their original order, followed by those of `b`. */
  lemma {:induction false} FilterAppend<T(!new)>(a: seq<T>, b: seq<T>, keep: T -> bool)
    ensures Filter(a + b, keep) == Filter(a, keep) + Filter(b, keep)
  {
    if |a| == 0 {
      assert a + b == b;
    } else {
      assert (a + b)[0] == a[0];
      assert (a + b)[1..] == a[1..] + b;
      FilterAppend(a[1..], b, keep);
    }
  }

  /** Filtering an ascending string leaves it ascending (order is kept). */
  lemma {:induction false} FilterIncreasing(s: string, keep: char -> bool)
    requires Increasing(s)
    ensures Increasing(Filter(s, keep))
  {
    if |s| > 0 {
      var t := s[1..];
      assert Increasing(t) by {
        forall i, j | 0 <= i < j < |t| ensures t[i] < t[j] {
          assert t[i] == s[i + 1] && t[j] == s[j + 1];
        }
      }
      FilterIncreasing(t, keep);
      if keep(s[0]) {
        var r := Filter(s, keep);
        var ft := Filter(t, keep);
        assert r == [s[0]] + ft;
        forall i, j | 0 <= i < j < |r| ensures r[i] < r[j] {
          if i == 0 {
            assert r[j] == ft[j - 1];
            assert r[j] in t;
            var k :| 0 <= k < |t| && t[k] == r[j];
            assert s[k + 1] == r[j];
          } else {
            assert r[i] == ft[i - 1] && r[j] == ft[j - 1];
          }
        }
      }
    }
  }

  lemma IncreasingIsDistinct(s: string)
    requires Increasing(s)
    ensures Distinct(s)
  {
  }

  /** Concatenating two duplicate-free sequences with no common element is duplicate-free. */
  lemma DistinctAppend<T>(a: seq<T>, b: seq<T>)
    requires Distinct(a) && Distinct(b)
    requires forall x :: x in a ==> x !in b
    ensures Distinct(a + b)
  {
    var s := a + b;
    forall i, j | 0 <= i < j < |s| ensures s[i] != s[j] {
      if j < |a| {
      } else if i >= |a| {
        assert s[i] == b[i - |a|] && s[j] == b[j - |a|];
      } else {
        assert s[i] in a && s[j] == b[j - |a|];
      }
    }
  }

  /** A sequence has at most as many distinct elements as positions, and exactly as
      many when it is duplicate-free. */
  lemma {:induction false} ElementsCount<T(!new)>(s: seq<T>)
    ensures |Elements(s)| <= |s|
    ensures Distinct(s) ==> |Elements(s)| == |s|
  {
    if |s| > 0 {
      var t := s[1..];
      ElementsCount(t);
      assert Elements(s) == {s[0]} + Elements(t);
      if Distinct(s) {
        assert Distinct(t) by {
          forall i, j | 0 <= i < j < |t| ensures t[i] != t[j] {
            assert t[i] == s[i + 1] && t[j] == s[j + 1];
          }
        }
        assert s[0] !in Elements(t) by {
          forall k | 0 <= k < |t| ensures t[k] != s[0] {
            assert t[k] == s[k + 1];
          }
        }
      }
    }
  }

  /** Every set drawn from the elements of `s` is no larger than `s`. */
  lemma SubsetBound<T(!new)>(xs: set<T>, s: seq<T>)
    requires forall x :: x in xs ==> x in s
    ensures |xs| <= |s|
  {
    ElementsCount(s);
    var e := Elements(s);
    assert xs <= e;
    assert e == xs + (e - xs);
    assert |e| == |xs| + |e - xs|;
  }

  /** The first `q` elements of a duplicate-free sequence form a set of exactly `q` elements. */
  function PrefixSet<T(!new)>(s: seq<T>, q: nat): (r: set<T>)
    requires Distinct(s) && q <= |s|
    ensures |r| == q
    ensures forall x :: x in r ==> x in s
  {
    var p := s[..q];
    assert Distinct(p) by {
      forall i, j | 0 <= i < j < |p| ensures p[i] != p[j] {
        assert p[i] == s[i] && p[j] == s[j];
      }
    }
    ElementsCount(p);
    Elements(p)
  }

  /** The empty prefix. */
  lemma PrefixStart<T(!new)>(s: seq<T>)
    ensures s == s[..0] + s && Elements(s[..0]) == {}
  {
  }

  /** When `s` is its first `k` elements followed by `x` and `tail`, the prefix grows by
      `x`, and so does its set of elements. */
  lemma PrefixStep<T(!new)>(s: seq<T>, k: nat, x: T, tail: seq<T>)
    requires k <= |s| && s == s[..k] + ([x] + tail)
    ensures k < |s| && s[k] == x
    ensures s[..k + 1] == s[..k] + [x]
    ensures s == s[..k + 1] + tail
    ensures Elements(s[..k + 1]) == Elements(s[..k]) + {x}
  {
    assert s[k] == (s[..k] + ([x] + tail))[k];
    assert s[..k + 1] == s[..k] + [x];
    assert s == (s[..k] + [x]) + tail;
  }

  /** The elements of a prefix are elements of the whole. */
  lemma PrefixElements<T(!new)>(s: seq<T>, k: nat)
    requires k <= |s|
    ensures Elements(s[..k]) <= Elements(s)
  {
    forall x | x in Elements(s[..k]) ensures x in s {
      var i :| 0 <= i < k && s[..k][i] == x;
      assert s[i] == x;
    }
  }

  /** The position of the first occurrence of `x` in `s`. */
  function IndexOf<T(==)>(s: seq<T>, x: T): (i: nat)
    requires x in s
    ensures i < |s| && s[i] == x
  {
    if s[0] == x then 0 else 1 + IndexOf(s[1..], x)
  }
}
