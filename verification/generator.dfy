/** The password generator (`gerar_senhas`): the checks made before generation, one
    candidate built from a stream of random draws, and the loop that collects distinct
    candidates until the requested number is reached. */
module Generator {
  import opened Seqs
  import opened DrawStream
  import opened Errors
  import opened Power
  import opened Charset
  import opened Strength
  import opened Capacity

  /** Lines 40-56, in order: the pools are built (no class selected fails first), then
      the length must leave room for one character of each enabled class, then the
      request must not exceed the number of strings of that length over the pool. */
  function Validate(qtd: int, tamanho: int, cfg: Config): (r: Result<Pools>)
    ensures r == Err(NoCharacterClass) <==> NoneSelected(cfg)
    ensures r.Err? && r.error.LengthTooSmall? <==> !NoneSelected(cfg) && tamanho < ActiveCount(cfg)
    ensures r.Err? && r.error.LengthTooSmall? ==> r.error.minimum == ActiveCount(cfg)
    ensures r.Err? && r.error.CapacityExceeded? <==>
      !NoneSelected(cfg) && ActiveCount(cfg) <= tamanho && Pow(PoolSize(cfg), tamanho) < qtd
    ensures r.Err? && r.error.CapacityExceeded? ==> r.error.maximum == Pow(PoolSize(cfg), tamanho)
    ensures r.Ok? <==> !NoneSelected(cfg) && ActiveCount(cfg) <= tamanho && qtd <= Pow(PoolSize(cfg), tamanho)
    ensures r.Ok? ==> Build(cfg, true) == r
  {
    match Build(cfg, true)
    case Err(e) => Err(e)
    case Ok(p) =>
      if tamanho < ActiveCount(cfg) then Err(LengthTooSmall(ActiveCount(cfg)))
      else if Pow(|p.all|, tamanho) < qtd then Err(CapacityExceeded(Pow(|p.all|, tamanho)))
      else Ok(p)
  }

  /** The bound the capacity message reports is exact for strings over the pool: no set
      of distinct length-`tamanho` strings over it is larger ... */
  lemma PoolStringsBound(xs: set<string>, cfg: Config, tamanho: nat)
    requires !NoneSelected(cfg)
    requires forall w :: w in xs ==> |w| == tamanho && OverPools(w, cfg)
    ensures |xs| <= Pow(PoolSize(cfg), tamanho)
  {
    var all := Build(cfg, true).value.all;
    assert forall w :: OverPools(w, cfg) ==> Over(w, all);
    UniqueBound(xs, all, tamanho);
  }

  /** ... and every count up to it is met by some set of such strings. */
  function PoolStringsWitness(cfg: Config, tamanho: nat, q: nat): (xs: set<string>)
    requires !NoneSelected(cfg) && q <= Pow(PoolSize(cfg), tamanho)
    ensures |xs| == q
    ensures forall w :: w in xs ==> |w| == tamanho && OverPools(w, cfg)
  {
    var all := Build(cfg, true).value.all;
    assert forall w :: Over(w, all) ==> OverPools(w, cfg);
    UniqueWitness(all, tamanho, q)
  }

  /** `secrets.choice(pool)` reading one draw: the draw selects a position. */
  function Pick(pool: string, draw: nat): (c: char)
    requires |pool| > 0
    ensures c in pool
  {
    pool[draw % |pool|]
  }

  /** A draw under which `Pick` yields a given character of the pool: its position. */
  function Unpick(pool: string, c: char): (draw: nat)
    requires c in pool
    ensures draw < |pool|
    ensures Pick(pool, draw) == c
  {
    var i := IndexOf(pool, c);
    ModBelow(i, |pool|);
    i
  }

  lemma ModBelow(i: nat, n: nat)
    requires i < n
    ensures i % n == i
  {
  }

  /** The enabled classes, in the order lines 42-47 list them. */
  function ActiveClasses(cfg: Config): (r: seq<CharClass>)
    ensures |r| == ActiveCount(cfg)
    ensures forall k: CharClass :: k in r <==> Enabled(cfg, k)
  {
    (if cfg.lower then [Lower] else []) + (if cfg.upper then [Upper] else [])
    + (if cfg.digits then [Digit] else []) + (if cfg.symbols then [Symbol] else [])
  }

  /** Line 60: one character from the pool of each enabled class, each from its own draw. */
  function Forced(p: Pools, classes: seq<CharClass>, draws: seq<nat>): (r: string)
    requires |draws| == |classes|
    requires forall i :: 0 <= i < |classes| ==> |p.Of(classes[i])| > 0
    ensures |r| == |classes|
    ensures forall i :: 0 <= i < |r| ==> r[i] in p.Of(classes[i])
  {
    seq(|classes|, i requires 0 <= i < |classes| => Pick(p.Of(classes[i]), draws[i]))
  }

  /** The draws under which `Forced` picks exactly `forced`. */
  function ForcedDraws(p: Pools, classes: seq<CharClass>, forced: string): (d: seq<nat>)
    requires |forced| == |classes|
    requires forall i :: 0 <= i < |classes| ==> forced[i] in p.Of(classes[i])
    ensures |d| == |classes|
    ensures Forced(p, classes, d) == forced
  {
    seq(|classes|, i requires 0 <= i < |classes| => Unpick(p.Of(classes[i]), forced[i]))
  }

  /** Line 61: one character of the whole pool per draw. */
  function Fill(all: string, draws: seq<nat>): (r: string)
    requires |all| > 0
    ensures |r| == |draws|
    ensures forall i :: 0 <= i < |r| ==> r[i] in all
  {
    seq(|draws|, i requires 0 <= i < |draws| => Pick(all, draws[i]))
  }

  /** The draws under which `Fill` picks exactly `fill`. */
  function FillDraws(all: string, fill: string): (d: seq<nat>)
    requires |all| > 0
    requires forall i :: 0 <= i < |fill| ==> fill[i] in all
    ensures |d| == |fill|
    ensures Fill(all, d) == fill
  {
    seq(|fill|, i requires 0 <= i < |fill| => Unpick(all, fill[i]))
  }

  /** Exchanges positions `i` and `j`. */
  function Swap<T>(s: seq<T>, i: nat, j: nat): (r: seq<T>)
    requires i < |s| && j < |s|
    ensures |r| == |s| && r[i] == s[j] && r[j] == s[i]
    ensures forall k :: 0 <= k < |s| && k != i && k != j ==> r[k] == s[k]
    ensures multiset(r) == multiset(s)
  {
    s[i := s[j]][j := s[i]]
  }

  /** Line 62, `rng.shuffle`: for `i` from `top` down to 1, position `i` is exchanged with
      a position below or at it chosen by the next draw (Fisher-Yates, as CPython does it). */
  function ShuffleFrom<T>(s: seq<T>, top: nat, draws: seq<nat>): (r: seq<T>)
    requires top < |s| && |draws| == top
    ensures |r| == |s|
    ensures multiset(r) == multiset(s)
    decreases top
  {
    if top == 0 then s
    else ShuffleFrom(Swap(s, top, draws[0] % (top + 1)), top - 1, draws[1..])
  }

  /** A non-empty sequence shuffled with one draw per position but the first. */
  function Shuffle<T>(s: seq<T>, draws: seq<nat>): (r: seq<T>)
    requires |s| > 0 && |draws| == |s| - 1
    ensures |r| == |s|
    ensures multiset(r) == multiset(s)
  {
    ShuffleFrom(s, |s| - 1, draws)
  }

  /** Every rearrangement is reachable by the shuffle: the draws under which `ShuffleFrom`
      turns `s` into `t`, for any `t` that rearranges `s` up to position `top` and agrees
      with it above. Each draw is the position, at or below `top`, of the element `t`
      wants at `top`. */
  function UnshuffleFrom<T(==)>(s: seq<T>, t: seq<T>, top: nat): (draws: seq<nat>)
    requires top < |s| && |t| == |s|
    requires forall k :: top < k < |s| ==> t[k] == s[k]
    requires multiset(t[..top + 1]) == multiset(s[..top + 1])
    ensures |draws| == top
    ensures ShuffleFrom(s, top, draws) == t
    decreases top
  {
    RearrangedTop(s, t, top);
    if top == 0 then
      []
    else
      var j := IndexOf(s[..top + 1], t[top]);
      SwapStep(s, t, top, j);
      var rest := UnshuffleFrom(Swap(s, top, j), t, top - 1);
      ShuffleFromStep(s, top, j, rest);
      [j] + rest
  }

  /** The element `t` wants at `top` is among the first `top + 1` of `s`; with nothing
      left to rearrange, `t` is `s`. */
  lemma RearrangedTop<T>(s: seq<T>, t: seq<T>, top: nat)
    requires top < |s| && |t| == |s|
    requires forall k :: top < k < |s| ==> t[k] == s[k]
    requires multiset(t[..top + 1]) == multiset(s[..top + 1])
    ensures t[top] in s[..top + 1]
    ensures top == 0 ==> t == s
  {
    assert t[..top + 1][top] == t[top];
    assert t[top] in multiset(s[..top + 1]);
    if top == 0 {
      assert t[..1] == [t[0]] && s[..1] == [s[0]];
      assert t[0] in multiset([s[0]]);
    }
  }

  /** Exchanging `top` with a position at or below it that holds `t[top]` settles
      position `top`, and the first `top` elements still rearrange into `t`'s. */
  lemma SwapStep<T>(s: seq<T>, t: seq<T>, top: nat, j: nat)
    requires 0 < top < |s| && |t| == |s| && j <= top
    requires forall k :: top < k < |s| ==> t[k] == s[k]
    requires multiset(t[..top + 1]) == multiset(s[..top + 1])
    requires s[j] == t[top]
    ensures forall k :: top - 1 < k < |s| ==> t[k] == Swap(s, top, j)[k]
    ensures multiset(t[..top]) == multiset(Swap(s, top, j)[..top])
  {
    var s1 := Swap(s, top, j);
    var x := t[top];
    assert s1[top] == x;
    PrefixMultiset(s, s1, top + 1);
    assert s1[..top + 1] == s1[..top] + [x];
    assert t[..top + 1] == t[..top] + [x];
    calc {
      multiset(t[..top]);
      multiset(t[..top + 1]) - multiset{x};
      multiset(s1[..top + 1]) - multiset{x};
      multiset(s1[..top]);
    }
  }

  /** Two rearrangements of each other that agree from `n` on rearrange each other
      below `n`. */
  lemma PrefixMultiset<T>(s: seq<T>, s1: seq<T>, n: nat)
    requires n <= |s| == |s1| && multiset(s1) == multiset(s)
    requires s1[n..] == s[n..]
    ensures multiset(s1[..n]) == multiset(s[..n])
  {
    assert s == s[..n] + s[n..];
    assert s1 == s1[..n] + s1[n..];
    calc {
      multiset(s1[..n]);
      multiset(s1) - multiset(s1[n..]);
      multiset(s) - multiset(s[n..]);
      multiset(s[..n]);
    }
  }

  /** One step of the shuffle with a draw at or below `top`: the draw is the position. */
  lemma ShuffleFromStep<T>(s: seq<T>, top: nat, j: nat, rest: seq<nat>)
    requires 0 < top < |s| && j <= top && |rest| == top - 1
    ensures ShuffleFrom(s, top, [j] + rest) == ShuffleFrom(Swap(s, top, j), top - 1, rest)
  {
    var draws := [j] + rest;
    ModBelow(j, top + 1);
    assert draws[0] % (top + 1) == j && draws[1..] == rest;
  }

  /** The draws under which `Shuffle` turns `s` into any rearrangement `t` of it. */
  function Unshuffle<T(==)>(s: seq<T>, t: seq<T>): (draws: seq<nat>)
    requires |s| > 0 && |t| == |s| && multiset(t) == multiset(s)
    ensures |draws| == |s| - 1
    ensures Shuffle(s, draws) == t
  {
    assert s[..|s|] == s && t[..|t|] == t;
    UnshuffleFrom(s, t, |s| - 1)
  }

  /** How many draws one candidate consumes: one per forced character, one per filler
      character, and one per shuffle step. */
  function DrawsPerCandidate(tamanho: nat): nat
    requires tamanho >= 1
  {
    2 * tamanho - 1
  }

  /** Lines 60-63: one candidate password, built from the enabled pools' forced
      characters, the filler drawn from the whole pool, and a shuffle. */
  function Candidate(p: Pools, cfg: Config, tamanho: nat, draws: seq<nat>): (r: string)
    requires Build(cfg, true) == Ok(p)
    requires ActiveCount(cfg) <= tamanho
    requires |draws| == DrawsPerCandidate(tamanho)
    ensures Acceptable(r, cfg, tamanho)
  {
    var n := ActiveCount(cfg);
    var classes := ActiveClasses(cfg);
    EnabledPoolsNonEmpty(p, cfg);
    var forced := Forced(p, classes, draws[..n]);
    var fill := Fill(p.all, draws[n..tamanho]);
    var r := Shuffle(forced + fill, draws[tamanho..]);
    CandidateOverPools(p, cfg, forced, fill, r);
    CandidateCovers(p, cfg, forced, fill, r);
    r
  }

  lemma EnabledPoolsNonEmpty(p: Pools, cfg: Config)
    requires Build(cfg, true) == Ok(p)
    ensures forall k: CharClass :: Enabled(cfg, k) ==> |p.Of(k)| > 0
    ensures |p.all| > 0
  {
  }

  /** Every character of the candidate comes from an enabled pool, whatever the shuffle did. */
  lemma CandidateOverPools(p: Pools, cfg: Config, forced: string, fill: string, r: string)
    requires Build(cfg, true) == Ok(p)
    requires |forced| == |ActiveClasses(cfg)|
    requires forall i :: 0 <= i < |forced| ==> forced[i] in p.Of(ActiveClasses(cfg)[i])
    requires forall i :: 0 <= i < |fill| ==> fill[i] in p.all
    requires multiset(r) == multiset(forced + fill)
    ensures OverPools(r, cfg)
  {
    var classes := ActiveClasses(cfg);
    var s := forced + fill;
    forall i | 0 <= i < |s| ensures InPools(s[i], cfg, true) {
      if i < |forced| {
        assert s[i] in p.Of(classes[i]);
        assert Enabled(cfg, classes[i]);
      } else {
        assert s[i] == fill[i - |forced|];
      }
    }
    forall i | 0 <= i < |r| ensures InPools(r[i], cfg, true) {
      assert r[i] in multiset(s);
    }
  }

  /** The forced characters, one per enabled class, survive the shuffle. */
  lemma CandidateCovers(p: Pools, cfg: Config, forced: string, fill: string, r: string)
    requires Build(cfg, true) == Ok(p)
    requires |forced| == |ActiveClasses(cfg)|
    requires forall i :: 0 <= i < |forced| ==> forced[i] in p.Of(ActiveClasses(cfg)[i])
    requires multiset(r) == multiset(forced + fill)
    ensures Covers(r, cfg)
  {
    if cfg.lower { ForcedSurvives(p, cfg, forced, fill, r, Lower); }
    if cfg.upper { ForcedSurvives(p, cfg, forced, fill, r, Upper); }
    if cfg.digits { ForcedSurvives(p, cfg, forced, fill, r, Digit); }
    if cfg.symbols { ForcedSurvives(p, cfg, forced, fill, r, Symbol); }
  }

  lemma ForcedSurvives(p: Pools, cfg: Config, forced: string, fill: string, r: string, k: CharClass)
    requires Build(cfg, true) == Ok(p)
    requires |forced| == |ActiveClasses(cfg)|
    requires forall i :: 0 <= i < |forced| ==> forced[i] in p.Of(ActiveClasses(cfg)[i])
    requires multiset(r) == multiset(forced + fill)
    requires Enabled(cfg, k)
    ensures HasClass(r, k)
  {
    var classes := ActiveClasses(cfg);
    var j :| 0 <= j < |classes| && classes[j] == k;
    assert InPool(forced[j], k, true);
    assert (forced + fill)[j] == forced[j];
    MemberSurvives(forced + fill, r, j, k);
  }

  /** A character of class `k` at position `j` is still somewhere after a permutation. */
  lemma MemberSurvives(s: string, r: string, j: nat, k: CharClass)
    requires j < |s| && InPool(s[j], k, true)
    requires multiset(r) == multiset(s)
    ensures HasClass(r, k)
  {
    assert s[j] in multiset(s);
    var i :| 0 <= i < |r| && r[i] == s[j];
  }

  /** A password holding every class of `cs` taken apart the way the candidate builder
      puts one together: one character of each class of `cs`, in that order, then the
      remaining characters. */
  function Split(w: string, cs: seq<CharClass>): (r: (string, string))
    requires Distinct(cs)
    requires forall i :: 0 <= i < |cs| ==> HasClass(w, cs[i])
    ensures |r.0| == |cs| && |r.0| + |r.1| == |w|
    ensures forall i :: 0 <= i < |cs| ==> InPool(r.0[i], cs[i], true)
    ensures multiset(r.0 + r.1) == multiset(w)
    decreases |cs|
  {
    if |cs| == 0 then ("", w)
    else
      var j := FirstOf(w, cs[0]);
      var rest := w[..j] + w[j + 1..];
      RemoveKeepsClasses(w, j, cs);
      var r := Split(rest, cs[1..]);
      SplitStep(w, j, r.0, r.1);
      ([w[j]] + r.0, r.1)
  }

  /** Removing a character of class `cs[0]` leaves every other class of `cs` in place. */
  lemma RemoveKeepsClasses(w: string, j: nat, cs: seq<CharClass>)
    requires Distinct(cs) && |cs| > 0
    requires j < |w| && InPool(w[j], cs[0], true)
    requires forall i :: 0 <= i < |cs| ==> HasClass(w, cs[i])
    ensures Distinct(cs[1..])
    ensures forall i :: 0 <= i < |cs| - 1 ==> HasClass(w[..j] + w[j + 1..], cs[1..][i])
  {
    var rest := w[..j] + w[j + 1..];
    forall i | 0 <= i < |cs| - 1 ensures HasClass(rest, cs[1..][i]) {
      var k := cs[i + 1];
      assert k == cs[1..][i] && k != cs[0];
      var m :| 0 <= m < |w| && InPool(w[m], k, true);
      if m == j {
        ClassesDisjoint(w[j], cs[0], k);
      } else if m < j {
        assert rest[m] == w[m];
      } else {
        assert rest[m - 1] == w[m];
      }
    }
  }

  /** Putting the removed character in front restores the multiset. */
  lemma SplitStep(w: string, j: nat, f: string, fill: string)
    requires j < |w|
    requires multiset(f + fill) == multiset(w[..j] + w[j + 1..])
    ensures multiset([w[j]] + f + fill) == multiset(w)
  {
    assert w == w[..j] + [w[j]] + w[j + 1..];
    assert [w[j]] + f + fill == [w[j]] + (f + fill);
  }

  /** Every acceptable password is a candidate: the draws under which lines 60-62 build
      exactly `w`. */
  function DrawsFor(p: Pools, cfg: Config, tamanho: nat, w: string): (d: seq<nat>)
    requires Build(cfg, true) == Ok(p)
    requires Acceptable(w, cfg, tamanho)
    ensures 1 <= ActiveCount(cfg) <= tamanho
    ensures |d| == DrawsPerCandidate(tamanho)
    ensures Candidate(p, cfg, tamanho, d) == w
  {
    DrawsForFacts(p, cfg, w);
    var d := DrawsOver(p, ActiveClasses(cfg), w);
    CandidateBuilds(p, cfg, tamanho, w, d);
    d
  }

  /** What `DrawsOver` needs, for the enabled classes of an acceptable password. */
  lemma DrawsForFacts(p: Pools, cfg: Config, w: string)
    requires Build(cfg, true) == Ok(p)
    requires OverPools(w, cfg) && Covers(w, cfg)
    ensures ActiveCount(cfg) > 0
    ensures Drawable(p, ActiveClasses(cfg), w)
  {
    ActiveClassesDistinct(cfg);
    CoversActive(w, cfg);
    ActivePoolsHoldClasses(p, cfg);
    ActivePoolsNonEmpty(p, cfg);
    PoolHoldsPassword(p, cfg, w);
  }

  lemma PoolHoldsPassword(p: Pools, cfg: Config, w: string)
    requires Build(cfg, true) == Ok(p)
    requires OverPools(w, cfg)
    ensures forall i :: 0 <= i < |w| ==> w[i] in p.all
  {
  }

  /** `w` holds each of the distinct, non-empty list of `classes`; every pool of those
      classes is non-empty and holds its class's characters; the whole pool is non-empty
      and holds `w`'s characters. */
  ghost predicate Drawable(p: Pools, classes: seq<CharClass>, w: string) {
    && Distinct(classes) && |classes| > 0
    && (forall i :: 0 <= i < |classes| ==> HasClass(w, classes[i]))
    && (forall i, c :: 0 <= i < |classes| && InPool(c, classes[i], true) ==> c in p.Of(classes[i]))
    && (forall i :: 0 <= i < |w| ==> w[i] in p.all)
    && (forall i :: 0 <= i < |classes| ==> |p.Of(classes[i])| > 0)
    && |p.all| > 0
  }

  /** The draws that build `w` from pools holding every character of its classes and of
      `w`: the positions of a split of `w` in those pools, then the shuffle steps that
      put the split back into `w`'s order. */
  function DrawsOver(p: Pools, classes: seq<CharClass>, w: string): (d: seq<nat>)
    requires Drawable(p, classes, w)
    ensures |classes| <= |w| && |d| == 2 * |w| - 1
    ensures Shuffle(Forced(p, classes, d[..|classes|]) + Fill(p.all, d[|classes|..|w|]), d[|w|..]) == w
  {
    var r := Split(w, classes);
    SplitInPools(p, classes, w, r.0, r.1);
    var pd := PartsDraws(p, classes, r.0, r.1);
    var sd := Unshuffle(r.0 + r.1, w);
    JoinDraws(p, classes, r.0, r.1, w, pd, sd);
    pd + sd
  }

  /** The draws under which `Forced` and then `Fill` pick exactly `forced` and `fill`. */
  function PartsDraws(p: Pools, classes: seq<CharClass>, forced: string, fill: string): (d: seq<nat>)
    requires |forced| == |classes| && |p.all| > 0
    requires forall i :: 0 <= i < |forced| ==> forced[i] in p.Of(classes[i])
    requires forall i :: 0 <= i < |fill| ==> fill[i] in p.all
    ensures |d| == |forced| + |fill|
    ensures Forced(p, classes, d[..|classes|]) == forced
    ensures Fill(p.all, d[|classes|..]) == fill
  {
    var fd := ForcedDraws(p, classes, forced);
    var ld := FillDraws(p.all, fill);
    assert (fd + ld)[..|classes|] == fd && (fd + ld)[|classes|..] == ld;
    fd + ld
  }

  lemma JoinDraws(p: Pools, classes: seq<CharClass>, forced: string, fill: string, w: string, pd: seq<nat>, sd: seq<nat>)
    requires |forced| == |classes| && |p.all| > 0 && |forced| + |fill| == |w| > 0
    requires forall i :: 0 <= i < |classes| ==> |p.Of(classes[i])| > 0
    requires |pd| == |w| && |sd| == |w| - 1
    requires Forced(p, classes, pd[..|classes|]) == forced
    requires Fill(p.all, pd[|classes|..]) == fill
    requires Shuffle(forced + fill, sd) == w
    ensures Shuffle(Forced(p, classes, (pd + sd)[..|classes|]) + Fill(p.all, (pd + sd)[|classes|..|w|]), (pd + sd)[|w|..]) == w
  {
    var d := pd + sd;
    assert d[..|classes|] == pd[..|classes|];
    assert d[|classes|..|w|] == pd[|classes|..];
    assert d[|w|..] == sd;
  }

  lemma ActiveClassesDistinct(cfg: Config)
    ensures Distinct(ActiveClasses(cfg))
  {
  }

  lemma CoversActive(w: string, cfg: Config)
    requires Covers(w, cfg)
    ensures forall i :: 0 <= i < |ActiveClasses(cfg)| ==> HasClass(w, ActiveClasses(cfg)[i])
  {
    forall i | 0 <= i < |ActiveClasses(cfg)| ensures HasClass(w, ActiveClasses(cfg)[i]) {
      var k := ActiveClasses(cfg)[i];
      assert Enabled(cfg, k);
    }
  }

  /** The pools of the enabled classes hold their class's characters ... */
  lemma ActivePoolsHoldClasses(p: Pools, cfg: Config)
    requires Build(cfg, true) == Ok(p)
    ensures forall i, c :: 0 <= i < |ActiveClasses(cfg)| && InPool(c, ActiveClasses(cfg)[i], true) ==> c in p.Of(ActiveClasses(cfg)[i])
  {
    forall i, c | 0 <= i < |ActiveClasses(cfg)| && InPool(c, ActiveClasses(cfg)[i], true)
      ensures c in p.Of(ActiveClasses(cfg)[i])
    {
      assert Enabled(cfg, ActiveClasses(cfg)[i]);
    }
  }

  /** ... and are non-empty. */
  lemma ActivePoolsNonEmpty(p: Pools, cfg: Config)
    requires Build(cfg, true) == Ok(p)
    ensures forall i :: 0 <= i < |ActiveClasses(cfg)| ==> |p.Of(ActiveClasses(cfg)[i])| > 0
    ensures |p.all| > 0
  {
    EnabledPoolsNonEmpty(p, cfg);
    forall i | 0 <= i < |ActiveClasses(cfg)| ensures |p.Of(ActiveClasses(cfg)[i])| > 0 {
      assert Enabled(cfg, ActiveClasses(cfg)[i]);
    }
  }

  /** The parts of a split lie in the pools the candidate builder draws them from. */
  lemma SplitInPools(p: Pools, classes: seq<CharClass>, w: string, forced: string, fill: string)
    requires forall i, c :: 0 <= i < |classes| && InPool(c, classes[i], true) ==> c in p.Of(classes[i])
    requires forall i :: 0 <= i < |w| ==> w[i] in p.all
    requires |forced| == |classes|
    requires forall i :: 0 <= i < |forced| ==> InPool(forced[i], classes[i], true)
    requires multiset(forced + fill) == multiset(w)
    ensures forall i :: 0 <= i < |forced| ==> forced[i] in p.Of(classes[i])
    ensures forall i :: 0 <= i < |fill| ==> fill[i] in p.all
  {
    forall i | 0 <= i < |fill| ensures fill[i] in p.all {
      assert (forced + fill)[|forced| + i] == fill[i];
      assert fill[i] in multiset(w);
    }
  }

  /** `Candidate` reads its block as forced, filler and shuffle draws, in that order:
      a block whose three parts build `w` makes the candidate `w`. */
  lemma CandidateBuilds(p: Pools, cfg: Config, tamanho: nat, w: string, d: seq<nat>)
    requires Build(cfg, true) == Ok(p)
    requires Drawable(p, ActiveClasses(cfg), w)
    requires ActiveCount(cfg) <= tamanho == |w| && |d| == DrawsPerCandidate(tamanho)
    requires Shuffle(Forced(p, ActiveClasses(cfg), d[..|ActiveClasses(cfg)|]) + Fill(p.all, d[|ActiveClasses(cfg)|..|w|]), d[|w|..]) == w
    ensures Candidate(p, cfg, tamanho, d) == w
  {
    EnabledPoolsNonEmpty(p, cfg);
  }

  /** The outcome of a run: the passwords, the error raised before generation, or (when
      the stream of draws ran out first) the distinct passwords found so far. */
  datatype Run = Generated(passwords: seq<string>) | Rejected(error: Error) | Unfinished(found: set<string>)

  /** Lines 60-63 as a function of one block of draws. */
  function CandidateMaker(p: Pools, cfg: Config, tamanho: nat): seq<nat> --> string {
    (draws: seq<nat>) requires
      && Build(cfg, true) == Ok(p) && ActiveCount(cfg) <= tamanho
      && |draws| == DrawsPerCandidate(tamanho)
      => Candidate(p, cfg, tamanho, draws)
  }

  lemma MakerDefined(p: Pools, cfg: Config, tamanho: nat)
    requires Build(cfg, true) == Ok(p)
    requires ActiveCount(cfg) <= tamanho
    ensures forall d :: |d| == DrawsPerCandidate(tamanho) ==> CandidateMaker(p, cfg, tamanho).requires(d)
  {
  }

  /** The candidate of every complete block of draws in `stream`, in stream order: the
      passwords lines 60-63 build, round after round, while the draws last. */
  function Rounds(p: Pools, cfg: Config, tamanho: nat, stream: seq<nat>): (r: seq<string>)
    requires Build(cfg, true) == Ok(p)
    requires ActiveCount(cfg) <= tamanho
    ensures |r| == 0 <==> |stream| < DrawsPerCandidate(tamanho)
  {
    Chunks(CandidateMaker(p, cfg, tamanho), DrawsPerCandidate(tamanho), stream, 0)
  }

  /** Every round yields an acceptable password. */
  lemma RoundsAcceptable(p: Pools, cfg: Config, tamanho: nat, stream: seq<nat>)
    requires Build(cfg, true) == Ok(p)
    requires ActiveCount(cfg) <= tamanho
    ensures forall w :: w in Rounds(p, cfg, tamanho, stream) ==> Acceptable(w, cfg, tamanho)
  {
    var maker := CandidateMaker(p, cfg, tamanho);
    var need := DrawsPerCandidate(tamanho);
    MakerDefined(p, cfg, tamanho);
    var P := (w: string) => Acceptable(w, cfg, tamanho);
    forall d | |d| == need ensures P(maker(d)) {
      assert maker(d) == Candidate(p, cfg, tamanho, d);
    }
    ChunksAll(maker, need, stream, 0, P);
  }

  /** The candidates are exactly the acceptable passwords: every block of draws yields
      one, and every one is yielded by some block. */
  lemma CandidateRange(p: Pools, cfg: Config, tamanho: nat, w: string)
    requires Build(cfg, true) == Ok(p)
    requires ActiveCount(cfg) <= tamanho
    ensures Acceptable(w, cfg, tamanho) <==>
      exists d :: |d| == DrawsPerCandidate(tamanho) && Candidate(p, cfg, tamanho, d) == w
  {
    if Acceptable(w, cfg, tamanho) {
      var d := DrawsFor(p, cfg, tamanho, w);
    }
  }

  /** A stream of draws whose rounds are exactly `ws`, given in order: the draws of each
      password laid end to end. */
  function StreamFor(p: Pools, cfg: Config, tamanho: nat, ws: seq<string>): (stream: seq<nat>)
    requires Build(cfg, true) == Ok(p)
    requires ActiveCount(cfg) <= tamanho
    requires forall i :: 0 <= i < |ws| ==> Acceptable(ws[i], cfg, tamanho)
    ensures Rounds(p, cfg, tamanho, stream) == ws
  {
    var blocks := MapAll(DrawsMaker(p, cfg, tamanho), ws);
    BlocksMakeRounds(p, cfg, tamanho, ws, blocks);
    Concat(blocks)
  }

  /** `DrawsFor` as a function value. */
  function DrawsMaker(p: Pools, cfg: Config, tamanho: nat): string --> seq<nat> {
    (w: string) requires Build(cfg, true) == Ok(p) && Acceptable(w, cfg, tamanho) => DrawsFor(p, cfg, tamanho, w)
  }

  lemma BlocksMakeRounds(p: Pools, cfg: Config, tamanho: nat, ws: seq<string>, blocks: seq<seq<nat>>)
    requires Build(cfg, true) == Ok(p)
    requires ActiveCount(cfg) <= tamanho
    requires forall i :: 0 <= i < |ws| ==> Acceptable(ws[i], cfg, tamanho)
    requires |blocks| == |ws|
    requires forall i :: 0 <= i < |ws| ==> blocks[i] == DrawsMaker(p, cfg, tamanho)(ws[i])
    ensures |Concat(blocks)| == |ws| * DrawsPerCandidate(tamanho)
    ensures Rounds(p, cfg, tamanho, Concat(blocks)) == ws
  {
    var maker := CandidateMaker(p, cfg, tamanho);
    var need := DrawsPerCandidate(tamanho);
    MakerDefined(p, cfg, tamanho);
    forall i | 0 <= i < |ws| ensures |blocks[i]| == need && maker(blocks[i]) == ws[i] {
      var d := DrawsFor(p, cfg, tamanho, ws[i]);
      assert blocks[i] == d;
      assert maker(d) == Candidate(p, cfg, tamanho, d);
    }
    ChunksOfBlocks(maker, need, [], blocks, ws);
    assert [] + Concat(blocks) == Concat(blocks);
    ConcatLength(blocks, need);
  }

  /** Lines 58-63: candidates are added to a set until it holds `qtd` passwords; the
      loop also stops when the stream cannot supply another candidate. The set is always
      the candidates of the first rounds: all of them when the stream ran out, and
      otherwise those up to the first round at which the set reached `qtd`. The loop
      itself is `DrawStream.CollectChunks`, run with `CandidateMaker` as the round. */
  method Collect(p: Pools, cfg: Config, qtd: int, tamanho: nat, stream: seq<nat>)
    returns (found: set<string>, done: bool)
    requires Build(cfg, true) == Ok(p)
    requires ActiveCount(cfg) <= tamanho
    ensures forall w :: w in found ==> Acceptable(w, cfg, tamanho)
    ensures done <==> |found| >= qtd
    ensures |found| <= if qtd < 0 then 0 else qtd
    ensures found <= Elements(Rounds(p, cfg, tamanho, stream))
    ensures !done ==> found == Elements(Rounds(p, cfg, tamanho, stream))
    ensures done ==> FirstPrefixReaching(Rounds(p, cfg, tamanho, stream), found, qtd)
  {
    MakerDefined(p, cfg, tamanho);
    found, done := CollectChunks(CandidateMaker(p, cfg, tamanho), DrawsPerCandidate(tamanho), stream, qtd);
    RoundsAcceptable(p, cfg, tamanho, stream);
  }

  /** Line 64, `list(senhas)`: the set's elements, each once, in some order. */
  method Enumerate(xs: set<string>) returns (s: seq<string>)
    ensures |s| == |xs|
    ensures Distinct(s)
    ensures forall w :: w in s <==> w in xs
    ensures Elements(s) == xs
  {
    s := [];
    var rest := xs;
    while rest != {}
      invariant forall w :: w in xs <==> w in s || w in rest
      invariant forall w :: w in s ==> w !in rest
      invariant Distinct(s)
      invariant |s| + |rest| == |xs|
      decreases |rest|
    {
      var w :| w in rest;
      DistinctAppend(s, [w]);
      s := s + [w];
      rest := rest - {w};
    }
  }

  /** Lines 58-64 once the checks have passed: the collected set is returned as a list,
      or the partial set when the stream ran out. */
  method Loop(p: Pools, cfg: Config, qtd: int, tamanho: nat, stream: seq<nat>) returns (r: Run)
    requires Build(cfg, true) == Ok(p)
    requires ActiveCount(cfg) <= tamanho
    ensures !r.Rejected?
    ensures r.Generated? ==> |r.passwords| == (if qtd < 0 then 0 else qtd)
    ensures r.Generated? ==> Distinct(r.passwords)
    ensures r.Generated? ==> forall i :: 0 <= i < |r.passwords| ==> Acceptable(r.passwords[i], cfg, tamanho)
    ensures r.Generated? ==> FirstPrefixReaching(Rounds(p, cfg, tamanho, stream), Elements(r.passwords), qtd)
    ensures r.Unfinished? ==> |r.found| < qtd
    ensures r.Unfinished? ==> forall w :: w in r.found ==> Acceptable(w, cfg, tamanho)
    ensures r.Unfinished? ==> r.found == Elements(Rounds(p, cfg, tamanho, stream))
  {
    var found, done := Collect(p, cfg, qtd, tamanho, stream);
    if done {
      var s := Enumerate(found);
      r := Generated(s);
    } else {
      r := Unfinished(found);
    }
  }

  /** The generator `gerar_senhas` (gerador_senhas.py:36-64), with the randomness supplied as `stream`. */
  method Generate(qtd: int, tamanho: int, cfg: Config, stream: seq<nat>) returns (r: Run)
    ensures r.Rejected? <==> Validate(qtd, tamanho, cfg).Err?
    ensures r.Rejected? ==> r.error == Validate(qtd, tamanho, cfg).error
    ensures r.Generated? ==> |r.passwords| == (if qtd < 0 then 0 else qtd)
    ensures r.Generated? ==> Distinct(r.passwords)
    ensures r.Generated? ==> forall i :: 0 <= i < |r.passwords| ==> Acceptable(r.passwords[i], cfg, tamanho)
    ensures r.Generated? ==> forall i :: 0 <= i < |r.passwords| ==>
      Evaluate(r.passwords[i], cfg).Ok? && Evaluate(r.passwords[i], cfg).value != WeakMissingClasses
    ensures r.Unfinished? ==> |r.found| < qtd
    ensures r.Unfinished? ==> forall w :: w in r.found ==> Acceptable(w, cfg, tamanho)
    ensures r.Generated? ==>
      && Validate(qtd, tamanho, cfg).Ok? && ActiveCount(cfg) <= tamanho
      && FirstPrefixReaching(Rounds(Validate(qtd, tamanho, cfg).value, cfg, tamanho, stream), Elements(r.passwords), qtd)
    ensures r.Unfinished? ==>
      && Validate(qtd, tamanho, cfg).Ok? && ActiveCount(cfg) <= tamanho
      && r.found == Elements(Rounds(Validate(qtd, tamanho, cfg).value, cfg, tamanho, stream))
  {
    var checked := Validate(qtd, tamanho, cfg);
    if checked.Err? {
      r := Rejected(checked.error);
    } else {
      r := Loop(checked.value, cfg, qtd, tamanho, stream);
    }
  }

  /** The capacity check with the count of strings that cover every enabled class in
      place of all strings over the pool: the only strings the loop can ever add. */
  function ValidateCovering(qtd: int, tamanho: int, cfg: Config): (r: Result<Pools>)
    ensures r == Err(NoCharacterClass) <==> NoneSelected(cfg)
    ensures r.Err? && r.error.LengthTooSmall? <==> !NoneSelected(cfg) && tamanho < ActiveCount(cfg)
    ensures r.Err? && r.error.LengthTooSmall? ==> r.error.minimum == ActiveCount(cfg)
    ensures r.Err? && r.error.CapacityExceeded? <==>
      !NoneSelected(cfg) && ActiveCount(cfg) <= tamanho && CoveringCapacity(cfg, tamanho) < qtd
    ensures r.Err? && r.error.CapacityExceeded? ==> r.error.maximum == CoveringCapacity(cfg, tamanho)
    ensures r.Ok? <==> !NoneSelected(cfg) && ActiveCount(cfg) <= tamanho && qtd <= CoveringCapacity(cfg, tamanho)
    ensures r.Ok? ==> Build(cfg, true) == r
  {
    match Build(cfg, true)
    case Err(e) => Err(e)
    case Ok(p) =>
      if tamanho < ActiveCount(cfg) then Err(LengthTooSmall(ActiveCount(cfg)))
      else if CoveringCapacity(cfg, tamanho) < qtd then Err(CapacityExceeded(CoveringCapacity(cfg, tamanho)))
      else Ok(p)
  }

  /** The corrected check admits a request exactly when enough acceptable passwords
      exist: when it passes, `qtd` of them can be exhibited ... */
  function CoveringAdmitted(qtd: int, tamanho: int, cfg: Config): (xs: set<string>)
    requires ValidateCovering(qtd, tamanho, cfg).Ok?
    ensures |xs| == if qtd < 0 then 0 else qtd
    ensures forall w :: w in xs ==> Acceptable(w, cfg, tamanho)
  {
    CoveringWitness(cfg, tamanho, if qtd < 0 then 0 else qtd)
  }

  /** ... and when it rejects for capacity, every set of acceptable passwords falls short. */
  lemma CoveringRejectionIsExact(qtd: int, tamanho: nat, cfg: Config, xs: set<string>)
    requires ValidateCovering(qtd, tamanho, cfg).Err? && ValidateCovering(qtd, tamanho, cfg).error.CapacityExceeded?
    requires forall w :: w in xs ==> Acceptable(w, cfg, tamanho)
    ensures |xs| < qtd
  {
    CoveringBound(xs, cfg, tamanho);
  }

  /** `gerar_senhas` with the corrected capacity check. */
  method GenerateCorrected(qtd: int, tamanho: int, cfg: Config, stream: seq<nat>) returns (r: Run)
    ensures r.Rejected? <==> ValidateCovering(qtd, tamanho, cfg).Err?
    ensures r.Rejected? ==> r.error == ValidateCovering(qtd, tamanho, cfg).error
    ensures r.Generated? ==> |r.passwords| == (if qtd < 0 then 0 else qtd)
    ensures r.Generated? ==> Distinct(r.passwords)
    ensures r.Generated? ==> forall i :: 0 <= i < |r.passwords| ==> Acceptable(r.passwords[i], cfg, tamanho)
    ensures r.Unfinished? ==> |r.found| < qtd
    ensures r.Unfinished? ==> forall w :: w in r.found ==> Acceptable(w, cfg, tamanho)
    ensures r.Generated? ==>
      && ValidateCovering(qtd, tamanho, cfg).Ok? && ActiveCount(cfg) <= tamanho
      && FirstPrefixReaching(Rounds(ValidateCovering(qtd, tamanho, cfg).value, cfg, tamanho, stream), Elements(r.passwords), qtd)
    ensures r.Unfinished? ==>
      && ValidateCovering(qtd, tamanho, cfg).Ok? && ActiveCount(cfg) <= tamanho
      && r.found == Elements(Rounds(ValidateCovering(qtd, tamanho, cfg).value, cfg, tamanho, stream))
  {
    var checked := ValidateCovering(qtd, tamanho, cfg);
    if checked.Err? {
      r := Rejected(checked.error);
    } else {
      r := Loop(checked.value, cfg, qtd, tamanho, stream);
    }
  }

  /** The stream that offers every acceptable password once, in the enumeration's order:
      its rounds hold as many distinct passwords as the covering capacity. */
  function CoveringStream(p: Pools, cfg: Config, tamanho: nat): (stream: seq<nat>)
    requires Build(cfg, true) == Ok(p)
    requires ActiveCount(cfg) <= tamanho
    ensures |Elements(Rounds(p, cfg, tamanho, stream))| == CoveringCapacity(cfg, tamanho)
  {
    CoveringWordsListed(cfg, tamanho);
    StreamFor(p, cfg, tamanho, CoveringWords(cfg, tamanho))
  }

  lemma CoveringWordsListed(cfg: Config, tamanho: nat)
    requires !NoneSelected(cfg)
    ensures forall i :: 0 <= i < |CoveringWords(cfg, tamanho)| ==> Acceptable(CoveringWords(cfg, tamanho)[i], cfg, tamanho)
    ensures |Elements(CoveringWords(cfg, tamanho))| == CoveringCapacity(cfg, tamanho)
  {
    var ws := CoveringWords(cfg, tamanho);
    ElementsCount(ws);
    forall i | 0 <= i < |ws| ensures Acceptable(ws[i], cfg, tamanho) {
      assert ws[i] in ws;
    }
  }

  /** Whatever request the corrected check admits can be met: on the covering stream the
      loop collects `qtd` distinct acceptable passwords from the stream's first rounds. */
  method CorrectedAdmitsReachable(qtd: int, tamanho: int, cfg: Config) returns (stream: seq<nat>, r: Run)
    requires ValidateCovering(qtd, tamanho, cfg).Ok?
    ensures 1 <= ActiveCount(cfg) <= tamanho
    ensures |Elements(Rounds(ValidateCovering(qtd, tamanho, cfg).value, cfg, tamanho, stream))| >= qtd
    ensures r.Generated?
    ensures |r.passwords| == (if qtd < 0 then 0 else qtd)
    ensures forall i :: 0 <= i < |r.passwords| ==> Acceptable(r.passwords[i], cfg, tamanho)
    ensures FirstPrefixReaching(Rounds(ValidateCovering(qtd, tamanho, cfg).value, cfg, tamanho, stream), Elements(r.passwords), qtd)
  {
    var p := ValidateCovering(qtd, tamanho, cfg).value;
    stream := CoveringStream(p, cfg, tamanho);
    r := GenerateCorrected(qtd, tamanho, cfg, stream);
    if r.Unfinished? {
      assert false;
    }
  }

  /** Digits and symbols only: 30 characters. */
  const DigitsAndSymbols: Config := Config(false, false, true, true)

  /** The check on line 53 admits 401 two-character passwords over digits and symbols
      (30^2 = 900), yet every candidate holds one digit and one symbol, so at most
      2 * 10 * 20 = 400 distinct candidates exist and the loop of lines 59-63 can
      never reach 401. */
  lemma GuardAdmitsUnreachableRequest(xs: set<string>)
    requires forall w :: w in xs ==> Acceptable(w, DigitsAndSymbols, 2)
    ensures Validate(401, 2, DigitsAndSymbols).Ok?
    ensures |xs| <= 400
  {
    GuardPasses();
    PairsBound(xs);
  }

  lemma GuardPasses()
    ensures Validate(401, 2, DigitsAndSymbols).Ok?
  {
    assert Pow(30, 2) == 900;
  }

  /** A two-character password over digits and symbols covering both is a digit and a
      symbol in some order: one of 400 strings. */
  lemma PairsBound(xs: set<string>)
    requires forall w :: w in xs ==> Acceptable(w, DigitsAndSymbols, 2)
    ensures |xs| <= 400
  {
    var d := ClassPool(Digit, true, true);
    var y := ClassPool(Symbol, true, true);
    var pairs := Extend(d, Extend(y, [""])) + Extend(y, Extend(d, [""]));
    PairsCount(d, y);
    forall w | w in xs ensures w in pairs {
      TwoCoveringIsPair(w, d, y);
    }
    SubsetBound(xs, pairs);
  }

  lemma PairsCount(d: string, y: string)
    requires |d| == 10 && |y| == 20
    ensures |Extend(d, Extend(y, [""])) + Extend(y, Extend(d, [""]))| == 400
  {
    assert |Extend(y, [""])| == 20;
    assert |Extend(d, [""])| == 10;
  }

  lemma TwoCoveringIsPair(w: string, d: string, y: string)
    requires Acceptable(w, DigitsAndSymbols, 2)
    requires forall c :: c in d <==> InPool(c, Digit, true)
    requires forall c :: c in y <==> InPool(c, Symbol, true)
    ensures w in Extend(d, Extend(y, [""])) + Extend(y, Extend(d, [""]))
  {
    var i :| 0 <= i < 2 && InPool(w[i], Digit, true);
    var j :| 0 <= j < 2 && InPool(w[j], Symbol, true);
    assert w[1..][1..] == "";
    if i == 0 {
      assert j == 1;
      assert w[1..] in Extend(y, [""]);
    } else {
      assert j == 0;
      assert w[1..] in Extend(d, [""]);
    }
  }

  /** The corrected check rejects the same request. */
  lemma CorrectedGuardRejectsUnreachableRequest()
    ensures ValidateCovering(401, 2, DigitsAndSymbols).Err?
  {
    TwoCoveringCapacity();
  }

  lemma TwoCoveringCapacity()
    ensures CoveringCapacity(DigitsAndSymbols, 2) <= 400
  {
    PairsBound(CoveringSet(DigitsAndSymbols, 2));
  }

  /** On that request the check passes, yet no stream of draws, however long, lets the
      loop finish: the run is never a generated list. */
  method NeverGeneratedOnFindingInput(stream: seq<nat>) returns (r: Run)
    ensures !r.Generated?
    ensures r.Unfinished?
  {
    GuardAdmitsUnreachableRequest({});
    r := Generate(401, 2, DigitsAndSymbols, stream);
    if r.Generated? {
      var xs := Elements(r.passwords);
      ElementsCount(r.passwords);
      GuardAdmitsUnreachableRequest(xs);
      assert false;
    }
  }
}
