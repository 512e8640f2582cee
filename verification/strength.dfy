/** The strength evaluator (`avaliar_forca`): a label from the password's length, its
    coverage of the enabled classes, and the entropy estimate `len * log2(|pool|)`. */
module Strength {
  import opened Errors
  import opened Charset
  import opened Power

  /** The five verdicts. */
  datatype Verdict = Weak | WeakMissingClasses | Medium | Strong | VeryStrong {

    /** The label the source returns for the verdict. */
    function Label(): string {
      match this
      case Weak => "Fraca"
      case WeakMissingClasses => "Fraca (faltam tipos exigidos)"
      case Medium => "Média"
      case Strong => "Forte"
      case VeryStrong => "Muito Forte"
    }

    /** Position on the scale; a password missing a required class ranks with a weak one. */
    function Rank(): nat {
      match this
      case Weak => 0
      case WeakMissingClasses => 0
      case Medium => 1
      case Strong => 2
      case VeryStrong => 3
    }
  }

  /** One row of the threshold table: at least `minLength` characters and at least
      `minBits` bits of estimated entropy earn `verdict`. */
  datatype Tier = Tier(minLength: nat, minBits: nat, verdict: Verdict)

  /** Lines 84-89, strongest row first. */
  const Tiers: seq<Tier> := [Tier(16, 90, VeryStrong), Tier(12, 70, Strong), Tier(8, 50, Medium)]

  /** `len * log2(poolSize) >= bits`, stated exactly over the integers as
      `poolSize^len >= 2^bits` (both sides are monotone in the same way). */
  predicate EntropyAtLeast(len: nat, poolSize: nat, bits: nat) {
    Pow(poolSize, len) >= Pow(2, bits)
  }

  /** The first row of `tiers` that the length and entropy meet, else Weak (line 90). */
  function Classify(tiers: seq<Tier>, len: nat, poolSize: nat): Verdict {
    if |tiers| == 0 then Weak
    else if len >= tiers[0].minLength && EntropyAtLeast(len, poolSize, tiers[0].minBits) then tiers[0].verdict
    else Classify(tiers[1..], len, poolSize)
  }

  /** Some character of `pw` occurs in `pool`. */
  predicate HasAny(pw: string, pool: string) {
    exists i :: 0 <= i < |pw| && pw[i] in pool
  }

  /** The loop of lines 74-81 finds an enabled class none of whose characters occurs. */
  predicate MissingClass(pw: string, cfg: Config, p: Pools) {
    || (cfg.lower && !HasAny(pw, p.lower))
    || (cfg.upper && !HasAny(pw, p.upper))
    || (cfg.digits && !HasAny(pw, p.digits))
    || (cfg.symbols && !HasAny(pw, p.symbols))
  }

  /** The evaluator `avaliar_forca` (gerador_senhas.py:68-90). The pools are
      rebuilt first, so a configuration with no class fails before any test. */
  function Evaluate(pw: string, cfg: Config): (r: Result<Verdict>)
    ensures r.Err? <==> NoneSelected(cfg)
    ensures r.Err? ==> r.error == NoCharacterClass
    ensures r.Ok? && |pw| < 8 ==> r.value == Weak
    ensures r.Ok? && |pw| >= 8 && Covers(pw, cfg) ==> r.value == Classify(Tiers, |pw|, PoolSize(cfg))
    ensures r == Ok(WeakMissingClasses) <==> !NoneSelected(cfg) && |pw| >= 8 && !Covers(pw, cfg)
    ensures r == Ok(VeryStrong) <==>
      !NoneSelected(cfg) && Covers(pw, cfg) && |pw| >= 16 && EntropyAtLeast(|pw|, PoolSize(cfg), 90)
    ensures r == Ok(Strong) <==>
      && !NoneSelected(cfg) && Covers(pw, cfg) && |pw| >= 12 && EntropyAtLeast(|pw|, PoolSize(cfg), 70)
      && !(|pw| >= 16 && EntropyAtLeast(|pw|, PoolSize(cfg), 90))
    ensures r == Ok(Medium) <==>
      && !NoneSelected(cfg) && Covers(pw, cfg) && |pw| >= 8 && EntropyAtLeast(|pw|, PoolSize(cfg), 50)
      && !(|pw| >= 12 && EntropyAtLeast(|pw|, PoolSize(cfg), 70))
      && !(|pw| >= 16 && EntropyAtLeast(|pw|, PoolSize(cfg), 90))
    ensures r == Ok(Weak) <==>
      !NoneSelected(cfg) && (|pw| < 8 || (Covers(pw, cfg) && !EntropyAtLeast(|pw|, PoolSize(cfg), 50)))
  {
    match Build(cfg, true)
    case Err(e) => Err(e)
    case Ok(p) =>
      if |pw| < 8 then Ok(Weak)
      else if MissingClass(pw, cfg, p) then Ok(WeakMissingClasses)
      else
        MissingClassIsUncovered(pw, cfg, p);
        EntropyThresholdsNest(|pw|, |p.all|);
        ClassifyTiers(|pw|, |p.all|);
        Ok(Classify(Tiers, |pw|, |p.all|))
  }

  /** The five strings `avaliar_forca` returns (gerador_senhas.py:73, 81, 85, 87, 89, 90). */
  const Labels: set<string> := {"Fraca", "Fraca (faltam tipos exigidos)", "Média", "Forte", "Muito Forte"}

  /** Distinct verdicts have distinct labels, so the returned string names the verdict. */
  lemma LabelInjective(a: Verdict, b: Verdict)
    ensures a.Label() == b.Label() <==> a == b
  {
  }

  /** `avaliar_forca` as the source returns it: the verdict's label. */
  function EvaluateText(pw: string, cfg: Config): (r: Result<string>)
    ensures r.Err? <==> NoneSelected(cfg)
    ensures r.Err? ==> r.error == NoCharacterClass
    ensures r.Ok? ==> r.value in Labels
    ensures forall v: Verdict :: r == Ok(v.Label()) <==> Evaluate(pw, cfg) == Ok(v)
    ensures r == Ok("Fraca (faltam tipos exigidos)") <==> !NoneSelected(cfg) && |pw| >= 8 && !Covers(pw, cfg)
  {
    match Evaluate(pw, cfg)
    case Err(e) => Err(e)
    case Ok(v) =>
      forall u: Verdict ensures u.Label() == v.Label() <==> u == v {
        LabelInjective(u, v);
      }
      Ok(v.Label())
  }

  /** The source's pool-membership test agrees with the class-level coverage predicate. */
  lemma MissingClassIsUncovered(pw: string, cfg: Config, p: Pools)
    requires Build(cfg, true) == Ok(p)
    ensures MissingClass(pw, cfg, p) <==> !Covers(pw, cfg)
  {
    ClassMissing(pw, cfg, p, Lower);
    ClassMissing(pw, cfg, p, Upper);
    ClassMissing(pw, cfg, p, Digit);
    ClassMissing(pw, cfg, p, Symbol);
  }

  /** One row of the loop on lines 74-81. */
  lemma ClassMissing(pw: string, cfg: Config, p: Pools, k: CharClass)
    requires Build(cfg, true) == Ok(p)
    ensures Enabled(cfg, k) && !HasAny(pw, p.Of(k)) <==> Enabled(cfg, k) && !HasClass(pw, k)
  {
    if Enabled(cfg, k) {
      HasAnyPool(pw, p.Of(k), k);
    }
  }

  lemma HasAnyPool(pw: string, pool: string, k: CharClass)
    requires forall c :: c in pool <==> InPool(c, k, true)
    ensures HasAny(pw, pool) <==> HasClass(pw, k)
  {
    if HasAny(pw, pool) {
      var i :| 0 <= i < |pw| && pw[i] in pool;
      assert InPool(pw[i], k, true);
    }
    if HasClass(pw, k) {
      var i :| 0 <= i < |pw| && InPool(pw[i], k, true);
      assert pw[i] in pool;
    }
  }

  /** Reading the table top-down is the chain of tests on lines 84-90. */
  lemma ClassifyTiers(len: nat, poolSize: nat)
    ensures Classify(Tiers, len, poolSize) ==
      if len >= 16 && EntropyAtLeast(len, poolSize, 90) then VeryStrong
      else if len >= 12 && EntropyAtLeast(len, poolSize, 70) then Strong
      else if len >= 8 && EntropyAtLeast(len, poolSize, 50) then Medium
      else Weak
  {
    var t1 := Tiers[1..];
    var t2 := t1[1..];
    var t3 := t2[1..];
    assert t1 == [Tier(12, 70, Strong), Tier(8, 50, Medium)];
    assert t2 == [Tier(8, 50, Medium)];
    assert t3 == [];
    assert Classify(t3, len, poolSize) == Weak;
    assert Classify(t2, len, poolSize) ==
      if len >= 8 && EntropyAtLeast(len, poolSize, 50) then Medium else Weak;
    assert Classify(t1, len, poolSize) ==
      if len >= 12 && EntropyAtLeast(len, poolSize, 70) then Strong
      else Classify(t2, len, poolSize);
  }

  /** A higher threshold met implies every lower one is met. */
  lemma EntropyThresholdsNest(len: nat, poolSize: nat)
    ensures EntropyAtLeast(len, poolSize, 90) ==> EntropyAtLeast(len, poolSize, 70)
    ensures EntropyAtLeast(len, poolSize, 70) ==> EntropyAtLeast(len, poolSize, 50)
  {
    PowMonotone(2, 50, 70);
    PowMonotone(2, 70, 90);
  }

  /** The table's verdict never drops as the length grows. */
  lemma ClassifyMonotone(shorter: nat, longer: nat, poolSize: nat)
    requires 1 <= poolSize && shorter <= longer
    ensures Classify(Tiers, shorter, poolSize).Rank() <= Classify(Tiers, longer, poolSize).Rank()
  {
    PowMonotone(poolSize, shorter, longer);
    ClassifyTiers(shorter, poolSize);
    ClassifyTiers(longer, poolSize);
    EntropyThresholdsNest(longer, poolSize);
  }

  /** For a fixed configuration, a longer password that covers every enabled class is
      rated at least as strong as any shorter password. */
  lemma RankMonotoneInLength(shorter: string, longer: string, cfg: Config)
    requires !NoneSelected(cfg)
    requires |shorter| <= |longer| && Covers(longer, cfg)
    ensures Evaluate(shorter, cfg).value.Rank() <= Evaluate(longer, cfg).value.Rank()
  {
    var n := PoolSize(cfg);
    if |shorter| >= 8 {
      ClassifyMonotone(|shorter|, |longer|, n);
    }
  }

  /** Every class enabled (82 characters), 12 characters covering all four classes:
      12 * log2(82) is about 76.3 bits, so the verdict is Strong. */
  lemma AllClassesTwelveIsStrong(pw: string)
    requires |pw| == 12 && Covers(pw, Config(true, true, true, true))
    ensures Evaluate(pw, Config(true, true, true, true)) == Ok(Strong)
  {
    TwelveOf82Bits();
    ClassifyTiers(12, 82);
  }

  lemma TwelveOf82Bits()
    ensures EntropyAtLeast(12, 82, 70)
  {
    assert Pow(2, 10) == 1024;
    PowAdd(2, 10, 10);
    PowAdd(2, 20, 20);
    PowAdd(2, 40, 20);
    PowAdd(2, 60, 10);
    assert Pow(82, 12) == 92420056270299898187776;
  }

  /** "abc12345" with every class enabled has no upper-case letter and no symbol. */
  lemma MissingClassesExample()
    ensures Evaluate("abc12345", Config(true, true, true, true)) == Ok(WeakMissingClasses)
  {
    var pw := "abc12345";
    assert !HasClass(pw, Upper) by {
      forall i | 0 <= i < |pw| ensures !InPool(pw[i], Upper, true) {
      }
    }
  }
}
