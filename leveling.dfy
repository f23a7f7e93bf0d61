/** The level curve: level from total XP, the XP thresholds of a level and the
    progress percentage shown on the profile screen. */
module Leveling {
  import opened Wrappers

  const XP_PER_LEVEL_SQUARE := 100

  /** a <= b implies a * a <= b * b for naturals. */
  lemma SquareMonotone(a: nat, b: nat)
    requires a <= b
    ensures a * a <= b * b
  {
    assert a * a <= a * b;
  }

  /** Counts levels upward from `level` until the next square threshold
      exceeds `xp`: the largest n with 100 * n * n <= xp, plus one. */
  function LevelSearch(xp: nat, level: nat): (r: nat)
    requires level >= 1 && XP_PER_LEVEL_SQUARE * (level - 1) * (level - 1) <= xp
    ensures r >= level
    ensures XP_PER_LEVEL_SQUARE * (r - 1) * (r - 1) <= xp < XP_PER_LEVEL_SQUARE * r * r
    decreases xp - XP_PER_LEVEL_SQUARE * (level - 1) * (level - 1)
  {
    SquareMonotone(level - 1, level);
    if xp < XP_PER_LEVEL_SQUARE * level * level then level
    else
      assert (level - 1) * (level - 1) < level * level;
      LevelSearch(xp, level + 1)
  }

  /** getLevelFromXP: floor(sqrt(xp / 100)) + 1, computed without a square
      root. The result is the level whose band [100(L-1)^2, 100L^2) holds xp. */
  function LevelFromXP(xp: nat): (level: nat)
    ensures level >= 1
    ensures XP_PER_LEVEL_SQUARE * (level - 1) * (level - 1) <= xp < XP_PER_LEVEL_SQUARE * level * level
  {
    LevelSearch(xp, 1)
  }

  /** The band condition picks out exactly one level: whoever claims a level
      whose band holds xp has named LevelFromXP(xp). */
  lemma LevelFromXPUnique(xp: nat, level: nat)
    requires level >= 1
    requires XP_PER_LEVEL_SQUARE * (level - 1) * (level - 1) <= xp < XP_PER_LEVEL_SQUARE * level * level
    ensures LevelFromXP(xp) == level
  {
    var r := LevelFromXP(xp);
    if r < level {
      SquareMonotone(r, level - 1);
    } else if r > level {
      SquareMonotone(level, r - 1);
    }
  }

  /** More XP never means a lower level. */
  lemma LevelFromXPMonotone(xp1: nat, xp2: nat)
    requires xp1 <= xp2
    ensures 1 <= LevelFromXP(xp1) <= LevelFromXP(xp2)
  {
    var l1, l2 := LevelFromXP(xp1), LevelFromXP(xp2);
    if l2 < l1 {
      SquareMonotone(l2, l1 - 1);
    }
  }

  /** getXPForNextLevel: level^2 * 100, the total XP at which level + 1 begins. */
  function XPForNextLevel(level: int): (xp: nat)
    ensures level >= 1 ==> LevelFromXP(xp) == level + 1
  {
    var xp := level * level * XP_PER_LEVEL_SQUARE;
    if level >= 1 then
      SquareMonotone(level, level + 1);
      assert level * level < (level + 1) * (level + 1);
      LevelFromXPUnique(xp, level + 1);
      xp
    else
      xp
  }

  /** getTotalXPForLevel: (level - 1)^2 * 100, the total XP at which level begins. */
  function TotalXPForLevel(level: int): (xp: nat)
    ensures level >= 1 ==> LevelFromXP(xp) == level
  {
    var xp := (level - 1) * (level - 1) * XP_PER_LEVEL_SQUARE;
    if level >= 1 then
      SquareMonotone(level - 1, level);
      assert (level - 1) * (level - 1) < level * level;
      LevelFromXPUnique(xp, level);
      xp
    else
      xp
  }

  /** The two thresholds meet: the start of level L + 1 is the XP needed for
      the next level after L, so the bands tile the XP line. */
  lemma {:induction false} ThresholdsMeet(level: int)
    ensures TotalXPForLevel(level + 1) == XPForNextLevel(level)
    ensures level >= 1 ==> TotalXPForLevel(level) < XPForNextLevel(level)
  {
    if level >= 1 {
      SquareMonotone(level - 1, level);
      assert (level - 1) * (level - 1) < level * level;
    }
  }

  /** In exact arithmetic (a / (100 m)) * 100 floors to the integer quotient
      a / m (Euclidean division is floor division for a positive divisor). */
  lemma ScaledQuotientFloor(a: int, m: int)
    requires m > 0
    ensures ((a as real / (m * 100) as real) * 100.0).Floor == a / m
  {
    var x := (a as real / (m * 100) as real) * 100.0;
    var q, r := a / m, a % m;
    assert a == q * m + r && 0 <= r < m;
    assert x == a as real / m as real;
    assert x * m as real == a as real;
    assert q as real * m as real <= a as real < (q + 1) as real * m as real;
    assert q as real <= x < (q + 1) as real;
  }

  /** getLevelProgress: the XP earned inside the level, divided by
      level^2 * 100, as a floored percentage. A level of 0 divides by zero,
      which yields a non-finite number in JavaScript; that result is None. */
  function LevelProgress(currentXP: int, currentLevel: int): (progress: Option<int>)
    ensures progress.None? <==> currentLevel == 0
    ensures currentLevel != 0 ==>
              progress == Some((currentXP - TotalXPForLevel(currentLevel)) / (currentLevel * currentLevel))
  {
    var xpForCurrentLevel := TotalXPForLevel(currentLevel);
    var xpForNextLevel := XPForNextLevel(currentLevel);
    var xpInCurrentLevel := currentXP - xpForCurrentLevel;
    if xpForNextLevel == 0 then None
    else
      ScaledQuotientFloor(xpInCurrentLevel, currentLevel * currentLevel);
      Some(((xpInCurrentLevel as real / xpForNextLevel as real) * 100.0).Floor)
  }

  /** With the level that belongs to the XP, the percentage lies in [0, 99];
      from level 2 on it never passes 74, because the divisor 100 L^2 is
      wider than the band 100 (2L - 1) the XP moves through. */
  lemma LevelProgressInRange(xp: nat)
    ensures LevelProgress(xp, LevelFromXP(xp)).Some?
    ensures 0 <= LevelProgress(xp, LevelFromXP(xp)).value <= 99
    ensures LevelFromXP(xp) >= 2 ==> LevelProgress(xp, LevelFromXP(xp)).value <= 74
  {
    var level := LevelFromXP(xp);
    var inLevel := xp - TotalXPForLevel(level);
    var square: int := level * level;
    BandWidth(level);
    assert 0 <= inLevel < 100 * (2 * level - 1);
    assert LevelProgress(xp, level) == Some(inLevel / square);
    DivBelow(inLevel, square, 100);
    if level >= 2 {
      DivBelow(inLevel, square, 75);
    }
  }

  /** The band of level L is 100 (2L - 1) wide; the divisor 100 L^2 is at
      least that wide, and from level 2 on at least 4/3 of it. */
  lemma BandWidth(level: int)
    requires level >= 1
    ensures XPForNextLevel(level) - TotalXPForLevel(level) == 100 * (2 * level - 1)
    ensures 100 * (2 * level - 1) <= 100 * (level * level)
    ensures level >= 2 ==> 100 * (2 * level - 1) <= 75 * (level * level)
  {
    assert (level - 1) * (level - 1) == level * level - 2 * level + 1;
    assert 3 * (level * level) - 4 * (2 * level - 1) == (3 * level - 2) * (level - 2);
    if level >= 2 {
      assert (3 * level - 2) * (level - 2) >= 0;
    }
  }

  /** 0 <= a < k * m with m > 0 gives 0 <= a / m < k. */
  lemma DivBelow(a: int, m: int, k: int)
    requires m > 0 && 0 <= a < k * m
    ensures 0 <= a / m < k
  {
  }

  /** Nothing clamps the percentage: with a level above the XP's own, it
      goes negative. */
  lemma LevelProgressNegativeWhenLevelTooHigh()
    ensures LevelProgress(0, 2) == Some(-25)
    ensures LevelFromXP(0) == 1
  {
    LevelFromXPUnique(0, 1);
  }

  /** The bar stops at 74 percent on the last XP of level 2; one XP later the
      player is at level 3 and the bar restarts at 0. */
  lemma LevelProgressNeverFills()
    ensures LevelFromXP(399) == 2 && LevelFromXP(400) == 3
    ensures LevelProgress(399, 2) == Some(74)
    ensures LevelProgress(400, 3) == Some(0)
  {
    LevelFromXPUnique(399, 2);
    LevelFromXPUnique(400, 3);
  }

  /** The evidently intended percentage: XP inside the level divided by the
      width of the level's band, XPForNextLevel(L) - TotalXPForLevel(L). */
  function BandProgress(currentXP: int, currentLevel: int): (progress: int)
    ensures currentLevel >= 1 ==>
              progress == (currentXP - TotalXPForLevel(currentLevel)) / (2 * currentLevel - 1)
  {
    var xpForCurrentLevel := TotalXPForLevel(currentLevel);
    var bandWidth := XPForNextLevel(currentLevel) - xpForCurrentLevel;
    var xpInCurrentLevel := currentXP - xpForCurrentLevel;
    assert bandWidth == (2 * currentLevel - 1) * XP_PER_LEVEL_SQUARE;
    if currentLevel >= 1 then
      ScaledQuotientFloor(xpInCurrentLevel, 2 * currentLevel - 1);
      ((xpInCurrentLevel as real / bandWidth as real) * 100.0).Floor
    else
      ((xpInCurrentLevel as real / bandWidth as real) * 100.0).Floor
  }

  /** The corrected bar stays within [0, 99], starts at 0 on the first XP of
      every level and reaches 99 on its last XP. */
  lemma BandProgressFills(xp: nat, level: nat)
    requires level >= 1
    ensures level == LevelFromXP(xp) ==> 0 <= BandProgress(xp, level) <= 99
    ensures BandProgress(TotalXPForLevel(level), level) == 0
    ensures BandProgress(XPForNextLevel(level) - 1, level) == 99
  {
    var width: int := 2 * level - 1;
    var start, next := TotalXPForLevel(level), XPForNextLevel(level);
    BandWidth(level);
    if level == LevelFromXP(xp) {
      DivBelow(xp - start, width, 100);
    }
    LastOfBand(width);
  }

  /** (100 w - 1) / w == 99 for every positive w. */
  lemma LastOfBand(w: int)
    requires w > 0
    ensures (100 * w - 1) / w == 99
  {
    var q, r := (100 * w - 1) / w, (100 * w - 1) % w;
    assert 100 * w - 1 == q * w + r && 0 <= r < w;
    assert (100 - q) * w == r + 1;
  }
}
