/** The stream of random draws and the rounds read from it: each round consumes one
    block of draws and yields one value, and the generation loop adds the values to a
    set until it is large enough or the stream runs out. */
module DrawStream {
  import opened Seqs

  /** `make` applied to each complete block of `need` elements of `stream` from position
      `from` on, in order; a final incomplete block is ignored. */
  function Chunks<T>(make: seq<nat> --> T, need: nat, stream: seq<nat>, from: nat): (r: seq<T>)
    requires need > 0
    requires forall d :: |d| == need ==> make.requires(d)
    ensures |r| == 0 <==> |stream| < from + need
    decreases |stream| - from
  {
    if |stream| < from + need then []
    else [make(stream[from..from + need])] + Chunks(make, need, stream, from + need)
  }

  /** Reading the block at `pos`: when `all` is `k` chunks followed by the chunks from
      `pos` on, its `k`-th element is the block's chunk and the prefix grows by it. */
  lemma ChunksStep<T(!new)>(make: seq<nat> --> T, need: nat, stream: seq<nat>, pos: nat, next: nat, all: seq<T>, k: nat, k1: nat)
    requires need > 0
    requires forall d :: |d| == need ==> make.requires(d)
    requires next == pos + need <= |stream| && k1 == k + 1
    requires k <= |all| && all == all[..k] + Chunks(make, need, stream, pos)
    ensures k < |all| && all[k] == make(stream[pos..next])
    ensures k1 <= |all| && all == all[..k1] + Chunks(make, need, stream, next)
    ensures Elements(all[..k1]) == Elements(all[..k]) + {all[k]}
  {
    PrefixStep(all, k, make(stream[pos..next]), Chunks(make, need, stream, next));
  }

  /** With no complete block left, the prefix read so far is everything. */
  lemma ChunksEnd<T>(make: seq<nat> --> T, need: nat, stream: seq<nat>, pos: nat, all: seq<T>, k: nat)
    requires need > 0
    requires forall d :: |d| == need ==> make.requires(d)
    requires |stream| < pos + need
    requires k <= |all| && all == all[..k] + Chunks(make, need, stream, pos)
    ensures all[..k] == all
  {
  }

  /** Every chunk satisfies `P` when `make` yields `P` on every block. */
  lemma {:induction false} ChunksAll<T>(make: seq<nat> --> T, need: nat, stream: seq<nat>, from: nat, P: T -> bool)
    requires need > 0
    requires forall d :: |d| == need ==> make.requires(d)
    requires forall d :: |d| == need ==> P(make(d))
    ensures forall i :: 0 <= i < |Chunks(make, need, stream, from)| ==> P(Chunks(make, need, stream, from)[i])
    decreases |stream| - from
  {
    if from + need <= |stream| {
      ChunksAll(make, need, stream, from + need, P);
    }
  }

  /** `found` is the set of the first `k` elements of `s` for some `k`, and one element
      fewer had not yet reached `qtd`. */
  ghost predicate FirstPrefixReaching<T(!new)>(s: seq<T>, found: set<T>, qtd: int) {
    exists k :: 0 <= k <= |s|
      && found == Elements(s[..k])
      && (k == 0 || |Elements(s[..k - 1])| < qtd)
  }

  lemma PrefixReaching<T(!new)>(s: seq<T>, k: nat, found: set<T>, qtd: int)
    requires k <= |s| && found == Elements(s[..k])
    requires k == 0 || |Elements(s[..k - 1])| < qtd
    ensures FirstPrefixReaching(s, found, qtd)
  {
  }

  /** Adds the chunk of each complete block of `stream` to a set, in order, until the set
      holds `qtd` elements or no complete block is left. The set is the chunks of the
      blocks read: all of them when the blocks ran out, and otherwise those up to the
      first block at which the set reached `qtd`. */
  method CollectChunks<T(!new)>(make: seq<nat> --> T, need: nat, stream: seq<nat>, qtd: int)
    returns (found: set<T>, done: bool)
    requires need > 0
    requires forall d :: |d| == need ==> make.requires(d)
    ensures done <==> |found| >= qtd
    ensures |found| <= if qtd < 0 then 0 else qtd
    ensures found <= Elements(Chunks(make, need, stream, 0))
    ensures !done ==> found == Elements(Chunks(make, need, stream, 0))
    ensures done ==> FirstPrefixReaching(Chunks(make, need, stream, 0), found, qtd)
  {
    ghost var all := Chunks(make, need, stream, 0);
    found := {};
    var pos: nat := 0;
    ghost var k: nat := 0;
    PrefixStart(all);
    while |found| < qtd && pos + need <= |stream|
      invariant pos <= |stream|
      invariant k <= |all| && all == all[..k] + Chunks(make, need, stream, pos)
      invariant found == Elements(all[..k])
      invariant k == 0 || |Elements(all[..k - 1])| < qtd
      invariant |found| <= if qtd < 0 then 0 else qtd
      decreases |stream| - pos
    {
      var next := pos + need;
      ghost var k1 := k + 1;
      ChunksStep(make, need, stream, pos, next, all, k, k1);
      found := found + {make(stream[pos..next])};
      pos, k := next, k1;
    }
    if pos + need > |stream| {
      ChunksEnd(make, need, stream, pos, all, k);
    }
    PrefixElements(all, k);
    PrefixReaching(all, k, found, qtd);
    done := |found| >= qtd;
  }

  /** The blocks laid end to end. */
  function Concat(blocks: seq<seq<nat>>): (r: seq<nat>)
  {
    if |blocks| == 0 then [] else blocks[0] + Concat(blocks[1..])
  }

  /** Reading a stream made of whole blocks, after any prefix, gives back one chunk per
      block: a stream can be built to make the rounds any sequence `make` can yield. */
  lemma {:induction false} ChunksOfBlocks<T>(make: seq<nat> --> T, need: nat, prefix: seq<nat>, blocks: seq<seq<nat>>, ws: seq<T>)
    requires need > 0
    requires forall d :: |d| == need ==> make.requires(d)
    requires |ws| == |blocks|
    requires forall i :: 0 <= i < |blocks| ==> |blocks[i]| == need && make(blocks[i]) == ws[i]
    ensures Chunks(make, need, prefix + Concat(blocks), |prefix|) == ws
    decreases |blocks|
  {
    var s := prefix + Concat(blocks);
    if |blocks| == 0 {
      assert s == prefix;
    } else {
      var b := blocks[0];
      var next := prefix + b;
      assert s == next + Concat(blocks[1..]);
      assert s[|prefix|..|prefix| + need] == b;
      ChunksOfBlocks(make, need, next, blocks[1..], ws[1..]);
      assert Chunks(make, need, s, |prefix|) == [ws[0]] + ws[1..];
    }
  }

  lemma {:induction false} ConcatLength(blocks: seq<seq<nat>>, need: nat)
    requires forall i :: 0 <= i < |blocks| ==> |blocks[i]| == need
    ensures |Concat(blocks)| == |blocks| * need
  {
    if |blocks| > 0 {
      ConcatLength(blocks[1..], need);
    }
  }

  /** `f` applied to each element of `ws`, in order. */
  function MapAll<T, U>(f: T --> U, ws: seq<T>): (r: seq<U>)
    requires forall i :: 0 <= i < |ws| ==> f.requires(ws[i])
    ensures |r| == |ws|
    ensures forall i :: 0 <= i < |ws| ==> r[i] == f(ws[i])
  {
    seq(|ws|, i requires 0 <= i < |ws| => f(ws[i]))
  }
}
