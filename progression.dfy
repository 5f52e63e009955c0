/**
 * Progression arithmetic of the user service: the brain level reached with a
 * given number of sparks, and the number of sparks a finished game earns.
 */
module Progression {

  // ---------------------------------------------------------------------------
  // Brain level
  // ---------------------------------------------------------------------------

  /**
   * The number of sparks needed to reach `level`: level 1 needs nothing, and
   * reaching level L + 1 from level L costs 100 + 50 * (L - 1) more sparks.
   * Thresholds: 0, 100, 250, 450, 700, ...
   */
  function Threshold(level: nat): nat
  {
    if level <= 1 then 0 else Threshold(level - 1) + 100 + 50 * (level - 2)
  }

  /** `level` is the brain level for `sparks`: the band of thresholds it falls in. */
  ghost predicate IsLevelOf(sparks: int, level: int)
  {
    level >= 1 && Threshold(level) <= sparks < Threshold(level + 1)
  }

  lemma {:induction false} ThresholdClosedForm(level: nat)
    requires level >= 1
    ensures Threshold(level) == 25 * (level - 1) * (level + 2)
  {
    if level > 1 {
      ThresholdClosedForm(level - 1);
      var k := level - 1;
      assert Threshold(level) == 25 * (k - 1) * (k + 2) + 100 + 50 * (k - 1);
      assert 25 * (k - 1) * (k + 2) + 100 + 50 * (k - 1) == 25 * k * (k + 3);
    }
  }

  /** Thresholds strictly increase from level 1 on. */
  lemma {:induction false} ThresholdStrictlyIncreasing(lo: nat, hi: nat)
    requires 1 <= lo < hi
    ensures Threshold(lo) < Threshold(hi)
  {
    if hi > lo + 1 {
      ThresholdStrictlyIncreasing(lo, hi - 1);
    }
  }

  /** At most one level has `sparks` inside its band. */
  lemma LevelUnique(sparks: int, a: int, b: int)
    requires IsLevelOf(sparks, a) && IsLevelOf(sparks, b)
    ensures a == b
  {
    if a < b {
      ThresholdStrictlyIncreasing(a, b);
      if a + 1 < b { ThresholdStrictlyIncreasing(a + 1, b); }
    } else if b < a {
      ThresholdStrictlyIncreasing(b, a);
      if b + 1 < a { ThresholdStrictlyIncreasing(b + 1, a); }
    }
  }

  /** Searches upward from `level` for the band holding `sparks`. */
  function LevelFrom(sparks: nat, level: nat): (r: nat)
    requires level >= 1 && Threshold(level) <= sparks
    ensures r >= level && IsLevelOf(sparks, r)
    decreases sparks - Threshold(level)
  {
    if sparks < Threshold(level + 1) then level else LevelFrom(sparks, level + 1)
  }

  /**
   * The brain level for a sparks total, as a specification: 0 for a negative
   * total, otherwise the unique level whose band holds the total.
   */
  function BrainLevel(sparks: int): (level: nat)
    ensures sparks < 0 ==> level == 0
    ensures sparks >= 0 ==> IsLevelOf(sparks, level)
  {
    if sparks < 0 then 0 else LevelFrom(sparks, 1)
  }

  /** More sparks never give a lower level. */
  lemma BrainLevelMonotone(s1: int, s2: int)
    requires s1 <= s2
    ensures BrainLevel(s1) <= BrainLevel(s2)
  {
    var l1, l2 := BrainLevel(s1), BrainLevel(s2);
    if s1 >= 0 && l2 < l1 {
      if l2 + 1 < l1 { ThresholdStrictlyIncreasing(l2 + 1, l1); }
      assert Threshold(l2 + 1) <= Threshold(l1) <= s1;
      assert false;
    }
  }

  /**
   * The first levels and where they start. The comment beside the source loop
   * names 300 and 600 for levels 3 and 4; the loop itself starts them at 250
   * and 450, and this model follows the loop.
   */
  lemma FirstLevels()
    ensures BrainLevel(0) == 1 && BrainLevel(99) == 1
    ensures BrainLevel(100) == 2 && BrainLevel(249) == 2
    ensures BrainLevel(250) == 3 && BrainLevel(449) == 3
    ensures BrainLevel(450) == 4 && BrainLevel(699) == 4
    ensures BrainLevel(700) == 5
  {
  }

  /**
   * `calculate_brain_level`: walks the thresholds upward while the total
   * still reaches the next one, and reports the last level reached.
   */
  method CalculateBrainLevel(sparks: int) returns (brainLevel: int)
    ensures sparks < 0 ==> brainLevel == 0
    ensures sparks >= 0 ==> IsLevelOf(sparks, brainLevel)
    ensures brainLevel == BrainLevel(sparks)
  {
    var level := 1;
    var required := 0;
    var increment := 100;
    while sparks >= required
      invariant level >= 1
      invariant required == Threshold(level)
      invariant increment == 100 + 50 * (level - 1)
      invariant level >= 2 ==> Threshold(level - 1) <= sparks
      decreases sparks - required
    {
      level := level + 1;
      required := required + increment;
      increment := increment + 50;
    }
    brainLevel := level - 1;
    if sparks >= 0 {
      LevelUnique(sparks, brainLevel, BrainLevel(sparks));
    }
  }

  // ---------------------------------------------------------------------------
  // Sparks earned by a game
  // ---------------------------------------------------------------------------

  /** The smallest reward a game can earn. */
  const MinSparks := 10

  /** Python's `int()` on a number: truncation toward zero. */
  function TruncToInt(x: real): (r: int)
    ensures x >= 0.0 ==> x - 1.0 < r as real <= x
    ensures x < 0.0 ==> x <= r as real < x + 1.0
  {
    if x >= 0.0 then x.Floor else -((-x).Floor)
  }

  function Max(a: int, b: int): (m: int)
    ensures m >= a && m >= b && (m == a || m == b)
  {
    if a >= b then a else b
  }

  /** `max(score // 10, 10)`; for a positive divisor Dafny's `/` is Python's floor division. */
  function BaseSparks(score: int): (b: int)
    ensures b >= MinSparks
    ensures score >= 10 * MinSparks ==> b * 10 <= score < b * 10 + 10
    ensures score < 10 * MinSparks ==> b == MinSparks
  {
    Max(score / 10, MinSparks)
  }

  /** The four named difficulties; any other string is paid like "easy". */
  predicate KnownDifficulty(difficulty: string)
  {
    difficulty in {"easy", "medium", "hard", "expert"}
  }

  /** The difficulty multiplier table, with 1.0 for an unknown name. */
  function Multiplier(difficulty: string): (m: real)
    ensures 1.0 <= m <= 3.0
    ensures !KnownDifficulty(difficulty) ==> m == 1.0
  {
    match difficulty
    case "easy" => 1.0
    case "medium" => 1.5
    case "hard" => 2.0
    case "expert" => 3.0
    case _ => 1.0
  }

  /** Harder named difficulties pay strictly more. */
  lemma MultiplierOrder()
    ensures Multiplier("easy") < Multiplier("medium") < Multiplier("hard") < Multiplier("expert")
  {
  }

  /** The accuracy factor `1 + accuracy / 200`: up to 50% extra for a perfect game. */
  function AccuracyBonus(accuracy: real): (f: real)
    ensures 0.0 <= accuracy <= 100.0 ==> 1.0 <= f <= 1.5
    ensures accuracy == 100.0 ==> f == 1.5
  {
    1.0 + accuracy / 200.0
  }

  /**
   * `calculate_sparks`, with the floating-point product taken as an exact
   * real product and truncated as `int()` does.
   */
  function CalculateSparks(score: int, difficulty: string, accuracy: real): (sparks: int)
    ensures sparks >= MinSparks
  {
    var raw := Scaled(BaseSparks(score), Multiplier(difficulty), AccuracyBonus(accuracy));
    Max(TruncToInt(raw), MinSparks)
  }

  /** The untruncated reward `base_sparks * multiplier * accuracy_bonus`. */
  function Scaled(base: int, multiplier: real, bonus: real): real
  {
    (base as real) * multiplier * bonus
  }

  /**
   * For an accuracy percentage in [0, 100] the reward lies between the
   * difficulty-scaled base (less the truncated fraction) and one and a half
   * times that base.
   */
  lemma SparksBounds(score: int, difficulty: string, accuracy: real)
    requires 0.0 <= accuracy <= 100.0
    ensures (BaseSparks(score) as real) * Multiplier(difficulty) < (CalculateSparks(score, difficulty, accuracy) + 1) as real
    ensures CalculateSparks(score, difficulty, accuracy) as real <= (BaseSparks(score) as real) * Multiplier(difficulty) * 1.5
  {
    ScaledTruncBounds(BaseSparks(score), Multiplier(difficulty), AccuracyBonus(accuracy));
  }

  lemma ScaledTruncBounds(base: int, m: real, f: real)
    requires base >= MinSparks && m >= 1.0 && 1.0 <= f <= 1.5
    ensures (base as real) * m < (Max(TruncToInt(Scaled(base, m, f)), MinSparks) + 1) as real
    ensures Max(TruncToInt(Scaled(base, m, f)), MinSparks) as real <= (base as real) * m * 1.5
  {
    var k := (base as real) * m;
    assert k >= 10.0 by { MulMonotone(base as real, 1.0, m); }
    var x := Scaled(base, m, f);
    assert k <= x by { MulMonotone(k, 1.0, f); }
    assert x <= k * 1.5 by { MulMonotone(k, f, 1.5); }
    var t := TruncToInt(x);
    assert x - 1.0 < t as real <= x;
    assert t >= MinSparks;
  }

  lemma TruncMonotone(x: real, y: real)
    requires x <= y
    ensures TruncToInt(x) <= TruncToInt(y)
  {
  }

  /** With score and difficulty fixed, higher accuracy never earns fewer sparks. */
  lemma SparksMonotoneInAccuracy(score: int, difficulty: string, a1: real, a2: real)
    requires a1 <= a2
    ensures CalculateSparks(score, difficulty, a1) <= CalculateSparks(score, difficulty, a2)
  {
    ScaledMonotoneInBonus(BaseSparks(score), Multiplier(difficulty), AccuracyBonus(a1), AccuracyBonus(a2));
    TruncMonotone(Scaled(BaseSparks(score), Multiplier(difficulty), AccuracyBonus(a1)),
                  Scaled(BaseSparks(score), Multiplier(difficulty), AccuracyBonus(a2)));
  }

  lemma ScaledMonotoneInBonus(base: int, m: real, f1: real, f2: real)
    requires base >= 0 && m >= 0.0 && f1 <= f2
    ensures Scaled(base, m, f1) <= Scaled(base, m, f2)
  {
    var k := (base as real) * m;
    assert k >= 0.0 by { MulMonotone(base as real, 0.0, m); }
    MulMonotone(k, f1, f2);
  }

  /**
   * With difficulty and accuracy fixed, a higher score never earns fewer
   * sparks. Below an accuracy of -200 the factor is negative and both rewards
   * fall to the floor.
   */
  lemma SparksMonotoneInScore(s1: int, s2: int, difficulty: string, accuracy: real)
    requires s1 <= s2
    ensures CalculateSparks(s1, difficulty, accuracy) <= CalculateSparks(s2, difficulty, accuracy)
  {
    var m, f := Multiplier(difficulty), AccuracyBonus(accuracy);
    if f >= 0.0 {
      BaseSparksMonotone(s1, s2);
      ScaledMonotoneInBase(BaseSparks(s1), BaseSparks(s2), m, f);
      TruncMonotone(Scaled(BaseSparks(s1), m, f), Scaled(BaseSparks(s2), m, f));
    } else {
      ScaledNonPositive(BaseSparks(s2), m, f);
      TruncMonotone(Scaled(BaseSparks(s2), m, f), 0.0);
    }
  }

  lemma ScaledNonPositive(base: int, m: real, f: real)
    requires base >= 0 && m >= 0.0 && f < 0.0
    ensures Scaled(base, m, f) <= 0.0
  {
    var k := (base as real) * m;
    assert k >= 0.0 by { MulMonotone(base as real, 0.0, m); }
    MulMonotone(k, f, 0.0);
  }

  lemma BaseSparksMonotone(s1: int, s2: int)
    requires s1 <= s2
    ensures BaseSparks(s1) <= BaseSparks(s2)
  {
    assert s1 / 10 <= s2 / 10;
  }

  lemma ScaledMonotoneInBase(b1: int, b2: int, m: real, f: real)
    requires b1 <= b2 && m >= 0.0 && f >= 0.0
    ensures Scaled(b1, m, f) <= Scaled(b2, m, f)
  {
    assert (b1 as real) * m <= (b2 as real) * m by { MulMonotone(m, b1 as real, b2 as real); }
    MulMonotone(f, (b1 as real) * m, (b2 as real) * m);
  }

  lemma MulMonotone(k: real, x: real, y: real)
    requires k >= 0.0 && x <= y
    ensures k * x <= k * y && x * k <= y * k
  {
  }
}
