/** How many distinct passwords a request can ask for. The capacity check of
    `gerar_senhas` claims that with `n` characters available at most `n^len` distinct
    passwords exist; this module enumerates the strings to prove that bound exact, and
    counts the strings that also cover every enabled class. */
module Capacity {
  import opened Seqs
  import opened Power
  import opened Charset

  /** Every character of `w` is one of `a`'s. */
  predicate Over(w: string, a: string) {
    forall i :: 0 <= i < |w| ==> w[i] in a
  }

  /** `c` put in front of each string of `ws`. */
  function Prefixed(c: char, ws: seq<string>): (r: seq<string>)
    ensures |r| == |ws|
    ensures forall w :: w in r <==> |w| > 0 && w[0] == c && w[1..] in ws
    ensures Distinct(ws) ==> Distinct(r)
  {
    var r := seq(|ws|, i requires 0 <= i < |ws| => [c] + ws[i]);
    assert forall i :: 0 <= i < |r| ==> r[i][1..] == ws[i];
    assert forall w :: |w| > 0 && w[0] == c && w[1..] in ws ==> w in r by {
      forall w | |w| > 0 && w[0] == c && w[1..] in ws ensures w in r {
        var i :| 0 <= i < |ws| && ws[i] == w[1..];
        assert r[i] == w;
      }
    }
    r
  }

  /** Every character of `a` put in front of every string of `ws`, in that order. */
  function Extend(a: string, ws: seq<string>): (r: seq<string>)
    ensures |r| == |a| * |ws|
    ensures forall w :: w in r <==> |w| > 0 && w[0] in a && w[1..] in ws
    ensures Distinct(a) && Distinct(ws) ==> Distinct(r)
  {
    if |a| == 0 then []
    else
      var head := Prefixed(a[0], ws);
      var tail := Extend(a[1..], ws);
      assert |head + tail| == |ws| + (|a| - 1) * |ws| == |a| * |ws|;
      assert forall c :: c in a <==> c == a[0] || c in a[1..];
      DistinctTail(a);
      ExtendDistinct(a, head, tail);
      head + tail
  }

  lemma ExtendDistinct(a: string, head: seq<string>, tail: seq<string>)
    requires |a| > 0
    requires forall w :: w in head ==> |w| > 0 && w[0] == a[0]
    requires forall w :: w in tail ==> |w| > 0 && w[0] in a[1..]
    ensures Distinct(a) && Distinct(head) && Distinct(tail) ==> Distinct(head + tail)
  {
    if Distinct(a) && Distinct(head) && Distinct(tail) {
      assert a[0] !in a[1..] by {
        forall k | 0 <= k < |a| - 1 ensures a[1..][k] != a[0] {
          assert a[1..][k] == a[k + 1];
        }
      }
      DistinctAppend(head, tail);
    }
  }

  lemma DistinctTail(a: string)
    requires |a| > 0
    ensures Distinct(a) ==> Distinct(a[1..])
  {
    if Distinct(a) {
      forall i, j | 0 <= i < j < |a| - 1 ensures a[1..][i] != a[1..][j] {
        assert a[1..][i] == a[i + 1] && a[1..][j] == a[j + 1];
      }
    }
  }

  /** All strings of length `n` over `a`, in lexicographic order of positions in `a`. */
  function Words(a: string, n: nat): (r: seq<string>)
    ensures |r| == Pow(|a|, n)
    ensures forall w :: w in r <==> |w| == n && Over(w, a)
    ensures Distinct(a) ==> Distinct(r)
  {
    if n == 0 then [""]
    else
      var ws := Words(a, n - 1);
      var r := Extend(a, ws);
      assert |r| == |a| * Pow(|a|, n - 1) == Pow(|a|, n);
      OverFirst(a);
      r
  }

  /** A non-empty string is over `a` exactly when its first character is in `a` and the
      rest is over `a`. */
  lemma OverFirst(a: string)
    ensures forall w :: |w| > 0 ==> (Over(w, a) <==> w[0] in a && Over(w[1..], a))
  {
    forall w | |w| > 0 ensures Over(w, a) <==> w[0] in a && Over(w[1..], a) {
      assert forall i :: 0 < i < |w| ==> w[i] == w[1..][i - 1];
    }
  }

  /** With `n` characters available, no set of distinct length-`len` strings over
      them is larger than `n^len`. */
  lemma UniqueBound(xs: set<string>, a: string, len: nat)
    requires forall w :: w in xs ==> |w| == len && Over(w, a)
    ensures |xs| <= Pow(|a|, len)
  {
    SubsetBound(xs, Words(a, len));
  }

  /** ... and, when the characters are distinct, `n^len` of them can always be found:
      any smaller count is met by the first strings of the enumeration. */
  function UniqueWitness(a: string, len: nat, q: nat): (xs: set<string>)
    requires Distinct(a) && q <= Pow(|a|, len)
    ensures |xs| == q
    ensures forall w :: w in xs ==> |w| == len && Over(w, a)
  {
    PrefixSet(Words(a, len), q)
  }

  /** The strings of length `len` over the default pools of `cfg` that cover every
      enabled class: exactly the passwords the generator can accept. */
  function CoveringWords(cfg: Config, len: nat): (r: seq<string>)
    requires !NoneSelected(cfg)
    ensures forall w :: w in r <==> Acceptable(w, cfg, len)
    ensures Distinct(r)
  {
    var all := Build(cfg, true).value.all;
    var words := Words(all, len);
    assert forall w :: Over(w, all) <==> OverPools(w, cfg);
    FilterDistinct(words, (w: string) => Covers(w, cfg));
    Filter(words, (w: string) => Covers(w, cfg))
  }

  /** The number of passwords of length `len` the generator can ever produce for `cfg`. */
  function CoveringCapacity(cfg: Config, len: nat): nat
    requires !NoneSelected(cfg)
  {
    |CoveringWords(cfg, len)|
  }

  /** All acceptable passwords of length `len`, as a set; the covering capacity counts it. */
  function CoveringSet(cfg: Config, len: nat): (xs: set<string>)
    requires !NoneSelected(cfg)
    ensures |xs| == CoveringCapacity(cfg, len)
    ensures forall w :: w in xs <==> Acceptable(w, cfg, len)
  {
    var cw := CoveringWords(cfg, len);
    ElementsCount(cw);
    Elements(cw)
  }

  /** No set of acceptable passwords is larger than the covering capacity. */
  lemma CoveringBound(xs: set<string>, cfg: Config, len: nat)
    requires !NoneSelected(cfg)
    requires forall w :: w in xs ==> Acceptable(w, cfg, len)
    ensures |xs| <= CoveringCapacity(cfg, len)
  {
    SubsetBound(xs, CoveringWords(cfg, len));
  }

  /** Any count up to the covering capacity is met by some set of acceptable passwords. */
  function CoveringWitness(cfg: Config, len: nat, q: nat): (xs: set<string>)
    requires !NoneSelected(cfg) && q <= CoveringCapacity(cfg, len)
    ensures |xs| == q
    ensures forall w :: w in xs ==> Acceptable(w, cfg, len)
  {
    PrefixSet(CoveringWords(cfg, len), q)
  }
}
