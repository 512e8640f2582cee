/** The charset builder (`montar_conjunto`): four class flags become four per-class
    pools and their ordered concatenation, with the shell-unsafe symbols removed. */
module Charset {
  import opened Seqs
  import opened Errors

  /** The characters `lo` through `hi` in code-point order, the way Python's `string`
      module lists an ASCII class. */
  function Span(lo: char, hi: char): (s: string)
    requires lo <= hi && hi as int < 128
    ensures |s| == hi as int - lo as int + 1
    ensures forall i :: 0 <= i < |s| ==> s[i] as int == lo as int + i
    ensures forall c :: c in s <==> lo <= c <= hi
    ensures Increasing(s)
  {
    var s := seq(hi as int - lo as int + 1, i requires 0 <= i <= hi as int - lo as int => (lo as int + i) as char);
    SpanMembers(lo, hi, s);
    s
  }

  lemma SpanMembers(lo: char, hi: char, s: string)
    requires lo <= hi && |s| == hi as int - lo as int + 1
    requires forall i :: 0 <= i < |s| ==> s[i] as int == lo as int + i
    ensures forall c :: lo <= c <= hi ==> c in s
  {
    forall c | lo <= c <= hi ensures c in s {
      assert s[c as int - lo as int] as int == c as int;
    }
  }

  /** `string.ascii_lowercase`, `string.ascii_uppercase`, `string.digits`. */
  const Lowercase: string := Span('a', 'z')
  const Uppercase: string := Span('A', 'Z')
  const Digits: string := Span('0', '9')
  /** `string.punctuation`: the 32 printable ASCII characters that are neither letters,
      digits nor space, in code-point order. */
  const Punctuation: string := Span('!', '/') + Span(':', '@') + Span('[', '`') + Span('{', '~')
  /** The fixed denylist applied when `remover_perigosos` is set. */
  const Dangerous: string := "\"'\\/:`<>,|=~"

  /** The four character classes, in the order the source lists them. */
  datatype CharClass = Lower | Upper | Digit | Symbol

  predicate InClass(c: char, k: CharClass) {
    match k
    case Lower => 'a' <= c <= 'z'
    case Upper => 'A' <= c <= 'Z'
    case Digit => '0' <= c <= '9'
    case Symbol => '!' <= c <= '/' || ':' <= c <= '@' || '[' <= c <= '`' || '{' <= c <= '~'
  }

  /** The character survives the denylist. */
  predicate Safe(c: char) {
    c !in Dangerous
  }

  /** `c` belongs to the pool of class `k` (symbols lose the denylist when `removeDangerous`). */
  predicate InPool(c: char, k: CharClass, removeDangerous: bool) {
    InClass(c, k) && !(k == Symbol && removeDangerous && !Safe(c))
  }

  /** The four class flags (`minusculas`, `maiusculas`, `numeros`, `simbolos`). */
  datatype Config = Config(lower: bool, upper: bool, digits: bool, symbols: bool)

  predicate Enabled(cfg: Config, k: CharClass) {
    match k
    case Lower => cfg.lower
    case Upper => cfg.upper
    case Digit => cfg.digits
    case Symbol => cfg.symbols
  }

  predicate NoneSelected(cfg: Config) {
    !cfg.lower && !cfg.upper && !cfg.digits && !cfg.symbols
  }

  /** The number of enabled flags (`ativos`). */
  function ActiveCount(cfg: Config): nat {
    (if cfg.lower then 1 else 0) + (if cfg.upper then 1 else 0)
    + (if cfg.digits then 1 else 0) + (if cfg.symbols then 1 else 0)
  }

  /** The size of the combined default pool: 26 letters per case, 10 digits and the
      20 symbols that survive the denylist. */
  function PoolSize(cfg: Config): nat {
    (if cfg.lower then 26 else 0) + (if cfg.upper then 26 else 0)
    + (if cfg.digits then 10 else 0) + (if cfg.symbols then 20 else 0)
  }

  /** `c` lies in the pool of some enabled class. */
  predicate InPools(c: char, cfg: Config, removeDangerous: bool) {
    || (cfg.lower && InPool(c, Lower, removeDangerous))
    || (cfg.upper && InPool(c, Upper, removeDangerous))
    || (cfg.digits && InPool(c, Digit, removeDangerous))
    || (cfg.symbols && InPool(c, Symbol, removeDangerous))
  }

  /** Some character of `pw` lies in the default pool of class `k`. */
  predicate HasClass(pw: string, k: CharClass) {
    exists i :: 0 <= i < |pw| && InPool(pw[i], k, true)
  }

  /** The position of the first character of `pw` in the default pool of class `k`. */
  function FirstOf(pw: string, k: CharClass): (i: nat)
    requires HasClass(pw, k)
    ensures i < |pw| && InPool(pw[i], k, true)
    ensures forall j :: 0 <= j < i ==> !InPool(pw[j], k, true)
  {
    if InPool(pw[0], k, true) then 0
    else
      assert HasClass(pw[1..], k) by {
        var j :| 0 <= j < |pw| && InPool(pw[j], k, true);
        assert pw[1..][j - 1] == pw[j];
      }
      1 + FirstOf(pw[1..], k)
  }

  /** The four classes share no character. */
  lemma ClassesDisjoint(c: char, k1: CharClass, k2: CharClass)
    requires InClass(c, k1) && InClass(c, k2)
    ensures k1 == k2
  {
  }

  /** `pw` holds at least one character of every enabled class. */
  predicate Covers(pw: string, cfg: Config) {
    && (cfg.lower ==> HasClass(pw, Lower))
    && (cfg.upper ==> HasClass(pw, Upper))
    && (cfg.digits ==> HasClass(pw, Digit))
    && (cfg.symbols ==> HasClass(pw, Symbol))
  }

  /** Every character of `pw` lies in the default pool of an enabled class. */
  predicate OverPools(pw: string, cfg: Config) {
    forall i :: 0 <= i < |pw| ==> InPools(pw[i], cfg, true)
  }

  /** What every generated password must be: `n` characters, all from the default
      pools of the enabled classes, covering every enabled class. */
  predicate Acceptable(pw: string, cfg: Config, n: int) {
    |pw| == n && OverPools(pw, cfg) && Covers(pw, cfg)
  }

  /** The five strings the pool builder returns: the combined pool, then one pool per class. */
  datatype Pools = Pools(all: string, lower: string, upper: string, digits: string, symbols: string) {
    function Of(k: CharClass): string {
      match k
      case Lower => lower
      case Upper => upper
      case Digit => digits
      case Symbol => symbols
    }
  }

  /** One class's pool as lines 20-27 build it: the whole ASCII class when its flag is
      set and the empty string otherwise; the symbol pool then loses the denylisted
      characters when `removeDangerous`, keeping the rest in order. */
  function ClassPool(k: CharClass, enabled: bool, removeDangerous: bool): (s: string)
    ensures forall c :: c in s <==> enabled && InPool(c, k, removeDangerous)
    ensures Increasing(s)
    ensures |s| == if !enabled then 0 else ClassSize(k, removeDangerous)
  {
    PunctuationFacts();
    SafeSymbolsFacts();
    if !enabled then ""
    else
      match k
      case Lower => Lowercase
      case Upper => Uppercase
      case Digit => Digits
      case Symbol => if removeDangerous then Filter(Punctuation, Safe) else Punctuation
  }

  function ClassSize(k: CharClass, removeDangerous: bool): nat {
    match k
    case Lower => 26
    case Upper => 26
    case Digit => 10
    case Symbol => if removeDangerous then 20 else 32
  }

  /** The pools before the emptiness check; `all` is the concatenation in the fixed order
      lower, upper, digits, symbols (line 29). */
  function Assemble(cfg: Config, removeDangerous: bool): (p: Pools)
    ensures forall k: CharClass :: p.Of(k) == ClassPool(k, Enabled(cfg, k), removeDangerous)
  {
    var lower := ClassPool(Lower, cfg.lower, removeDangerous);
    var upper := ClassPool(Upper, cfg.upper, removeDangerous);
    var digits := ClassPool(Digit, cfg.digits, removeDangerous);
    var symbols := ClassPool(Symbol, cfg.symbols, removeDangerous);
    Pools(lower + upper + digits + symbols, lower, upper, digits, symbols)
  }

  /** The pool builder `montar_conjunto` (gerador_senhas.py:18-32). */
  function Build(cfg: Config, removeDangerous: bool): (r: Result<Pools>)
    ensures r.Err? <==> NoneSelected(cfg)
    ensures r.Err? ==> r.error == NoCharacterClass
    ensures r.Ok? ==> r.value.all == r.value.lower + r.value.upper + r.value.digits + r.value.symbols
    ensures r.Ok? ==> forall k: CharClass, c :: c in r.value.Of(k) <==> Enabled(cfg, k) && InPool(c, k, removeDangerous)
    ensures r.Ok? ==> forall k: CharClass :: Increasing(r.value.Of(k))
    ensures r.Ok? ==> forall k: CharClass :: |r.value.Of(k)| == if Enabled(cfg, k) then ClassSize(k, removeDangerous) else 0
    ensures r.Ok? ==> forall c :: c in r.value.all <==> InPools(c, cfg, removeDangerous)
    ensures r.Ok? ==> Distinct(r.value.all)
    ensures r.Ok? ==> |r.value.all| == PoolSize(cfg) + (if cfg.symbols && !removeDangerous then 12 else 0)
  {
    var p := Assemble(cfg, removeDangerous);
    AssembleFacts(cfg, removeDangerous);
    if |p.all| == 0 then
      Err(NoCharacterClass)
    else
      Ok(p)
  }

  lemma AssembleFacts(cfg: Config, removeDangerous: bool)
    ensures var p := Assemble(cfg, removeDangerous);
      && (forall k: CharClass, c :: c in p.Of(k) <==> Enabled(cfg, k) && InPool(c, k, removeDangerous))
      && (forall c :: c in p.all <==> InPools(c, cfg, removeDangerous))
      && (forall k: CharClass :: Increasing(p.Of(k)))
      && (forall k: CharClass :: |p.Of(k)| == if Enabled(cfg, k) then ClassSize(k, removeDangerous) else 0)
      && Distinct(p.all)
      && |p.all| == PoolSize(cfg) + (if cfg.symbols && !removeDangerous then 12 else 0)
  {
    var p := Assemble(cfg, removeDangerous);
    AssembleClasses(cfg, removeDangerous, p);
    AssembleAll(cfg, removeDangerous, p);
    AssembleSize(cfg, removeDangerous, p);
    PoolsDistinct(p);
  }

  lemma AssembleClasses(cfg: Config, removeDangerous: bool, p: Pools)
    requires p == Assemble(cfg, removeDangerous)
    ensures forall k: CharClass, c :: c in p.Of(k) <==> Enabled(cfg, k) && InPool(c, k, removeDangerous)
    ensures forall k: CharClass :: Increasing(p.Of(k))
    ensures forall k: CharClass :: |p.Of(k)| == if Enabled(cfg, k) then ClassSize(k, removeDangerous) else 0
  {
  }

  lemma AssembleAll(cfg: Config, removeDangerous: bool, p: Pools)
    requires p.all == p.lower + p.upper + p.digits + p.symbols
    requires forall k: CharClass, c :: c in p.Of(k) <==> Enabled(cfg, k) && InPool(c, k, removeDangerous)
    ensures forall c :: c in p.all <==> InPools(c, cfg, removeDangerous)
  {
    assert p.lower == p.Of(Lower) && p.upper == p.Of(Upper) && p.digits == p.Of(Digit) && p.symbols == p.Of(Symbol);
  }

  lemma AssembleSize(cfg: Config, removeDangerous: bool, p: Pools)
    requires p == Assemble(cfg, removeDangerous)
    ensures |p.all| == PoolSize(cfg) + (if cfg.symbols && !removeDangerous then 12 else 0)
  {
    assert p.all == p.Of(Lower) + p.Of(Upper) + p.Of(Digit) + p.Of(Symbol);
  }

  /** The concatenation of four ascending pools of disjoint classes has no duplicate. */
  lemma PoolsDistinct(p: Pools)
    requires forall k: CharClass :: Increasing(p.Of(k))
    requires forall k: CharClass, c :: c in p.Of(k) ==> InClass(c, k)
    ensures Distinct(p.lower + p.upper + p.digits + p.symbols)
  {
    assert p.lower == p.Of(Lower) && p.upper == p.Of(Upper) && p.digits == p.Of(Digit) && p.symbols == p.Of(Symbol);
    IncreasingIsDistinct(p.lower);
    IncreasingIsDistinct(p.upper);
    IncreasingIsDistinct(p.digits);
    IncreasingIsDistinct(p.symbols);
    DistinctAppend(p.lower, p.upper);
    DistinctAppend(p.lower + p.upper, p.digits);
    DistinctAppend(p.lower + p.upper + p.digits, p.symbols);
  }

  lemma PunctuationFacts()
    ensures |Punctuation| == 32
    ensures Increasing(Punctuation)
    ensures forall c :: c in Punctuation <==> InClass(c, Symbol)
  {
    var a, b, c, d := Span('!', '/'), Span(':', '@'), Span('[', '`'), Span('{', '~');
    IncreasingAppend(a, b);
    IncreasingAppend(a + b, c);
    IncreasingAppend(a + b + c, d);
  }

  lemma IncreasingAppend(a: string, b: string)
    requires Increasing(a) && Increasing(b)
    requires forall x, y :: x in a && y in b ==> x < y
    ensures Increasing(a + b)
  {
    var s := a + b;
    forall i, j | 0 <= i < j < |s| ensures s[i] < s[j] {
      if j < |a| {
        assert s[i] == a[i] && s[j] == a[j];
      } else if i >= |a| {
        assert s[i] == b[i - |a|] && s[j] == b[j - |a|];
      } else {
        assert s[i] == a[i] && s[j] == b[j - |a|];
        assert s[i] in a && s[j] in b;
      }
    }
  }

  /** With the denylist applied the symbol pool is ascending, holds exactly the safe
      punctuation characters, and has 20 of them. */
  lemma SafeSymbolsFacts()
    ensures |Filter(Punctuation, Safe)| == 20
    ensures Increasing(Filter(Punctuation, Safe))
    ensures forall c :: c in Filter(Punctuation, Safe) <==> InPool(c, Symbol, true)
  {
    PunctuationFacts();
    FilterIncreasing(Punctuation, Safe);
    SafeSymbolCount();
  }

  lemma SafeSymbolCount()
    ensures |Filter(Punctuation, Safe)| == 20
  {
    var a, b, c, d := Span('!', '/'), Span(':', '@'), Span('[', '`'), Span('{', '~');
    FilterAppend(a, b, Safe);
    FilterAppend(a + b, c, Safe);
    FilterAppend(a + b + c, d, Safe);
    FilterSafeLength(a);
    FilterSafeLength(b);
    FilterSafeLength(c);
    FilterSafeLength(d);
    SafeCount0();
    SafeCount1();
    SafeCount2();
    SafeCount3();
  }

  /** The number of characters of `s` that survive the denylist. */
  function SafeCount(s: string): nat {
    if |s| == 0 then 0 else (if Safe(s[0]) then 1 else 0) + SafeCount(s[1..])
  }

  lemma {:induction false} FilterSafeLength(s: string)
    ensures |Filter(s, Safe)| == SafeCount(s)
  {
    if |s| > 0 {
      FilterSafeLength(s[1..]);
    }
  }

  lemma SafeCount0()
    ensures SafeCount(Span('!', '/')) == 11
  {
    SpanSplit('!', '\'', '/');
    SafeCountAppend(Span('!', '\''), Span('(', '/'));
    SafeCount0Head();
    SafeCount0Tail();
  }

  lemma SafeCount0Head()
    ensures SafeCount(Span('!', '\'')) == 5
  {
    var s := Span('!', '\'');
    assert s[7..] == [];
    FilterSkip(s, 6, '\'');
    FilterTake(s, 5, '&');
    FilterTake(s, 4, '%');
    FilterTake(s, 3, '$');
    FilterTake(s, 2, '#');
    FilterSkip(s, 1, '"');
    FilterTake(s, 0, '!');
    assert s[0..] == s;
  }

  lemma SafeCount0Tail()
    ensures SafeCount(Span('(', '/')) == 6
  {
    var s := Span('(', '/');
    assert s[8..] == [];
    FilterSkip(s, 7, '/');
    FilterTake(s, 6, '.');
    FilterTake(s, 5, '-');
    FilterSkip(s, 4, ',');
    FilterTake(s, 3, '+');
    FilterTake(s, 2, '*');
    FilterTake(s, 1, ')');
    FilterTake(s, 0, '(');
    assert s[0..] == s;
  }

  /** A span splits after any of its characters. */
  lemma SpanSplit(lo: char, mid: char, hi: char)
    requires lo <= mid < hi && hi as int < 128
    ensures Span(lo, hi) == Span(lo, mid) + Span((mid as int + 1) as char, hi)
  {
    var left, right := Span(lo, mid), Span((mid as int + 1) as char, hi);
    var whole := Span(lo, hi);
    forall i | 0 <= i < |whole| ensures (left + right)[i] == whole[i] {
      assert (left + right)[i] as int == whole[i] as int;
    }
  }

  /** The survivors of a concatenation are those of each part. */
  lemma {:induction false} SafeCountAppend(a: string, b: string)
    ensures SafeCount(a + b) == SafeCount(a) + SafeCount(b)
  {
    if |a| > 0 {
      assert (a + b)[1..] == a[1..] + b;
      SafeCountAppend(a[1..], b);
    } else {
      assert a + b == b;
    }
  }

  lemma SafeCount1()
    ensures SafeCount(Span(':', '@')) == 3
  {
    var s := Span(':', '@');
    assert s[7..] == [];
    FilterTake(s, 6, '@');
    FilterTake(s, 5, '?');
    FilterSkip(s, 4, '>');
    FilterSkip(s, 3, '=');
    FilterSkip(s, 2, '<');
    FilterTake(s, 1, ';');
    FilterSkip(s, 0, ':');
    assert s[0..] == s;
  }

  lemma SafeCount2()
    ensures SafeCount(Span('[', '`')) == 4
  {
    var s := Span('[', '`');
    assert s[6..] == [];
    FilterSkip(s, 5, '`');
    FilterTake(s, 4, '_');
    FilterTake(s, 3, '^');
    FilterTake(s, 2, ']');
    FilterSkip(s, 1, '\\');
    FilterTake(s, 0, '[');
    assert s[0..] == s;
  }

  lemma SafeCount3()
    ensures SafeCount(Span('{', '~')) == 2
  {
    var s := Span('{', '~');
    assert s[4..] == [];
    FilterSkip(s, 3, '~');
    FilterTake(s, 2, '}');
    FilterSkip(s, 1, '|');
    FilterTake(s, 0, '{');
    assert s[0..] == s;
  }

  lemma FilterSkip(s: string, i: nat, c: char)
    requires i < |s| && s[i] == c && !Safe(c)
    ensures SafeCount(s[i..]) == SafeCount(s[i + 1..])
  {
    assert s[i..][1..] == s[i + 1..];
  }

  lemma FilterTake(s: string, i: nat, c: char)
    requires i < |s| && s[i] == c && Safe(c)
    ensures SafeCount(s[i..]) == 1 + SafeCount(s[i + 1..])
  {
    assert s[i..][1..] == s[i + 1..];
  }
}
