/**
 * The amounts behind the details screen's sliders: the table of liquor
 * amounts a level stands for, the table of water amounts a water level
 * stands for, and the lookups from a slider amount back to a level.
 * Amounts are in hundredths of an ounce: 0.55 oz is 55.
 */
module Amounts {
  import opened Wrappers
  import opened Details

  /** The liquor amount of levels 1 to 8. */
  const ALCOHOL_AMOUNTS: seq<int> := [55, 80, 105, 140, 175, 215, 235, 300]

  /** The water amount of each water level; not in increasing order (0.15 oz is level 3, 0.25 oz is both 1 and 4). */
  const WATER_AMOUNTS: seq<int> :=
    [0, 25, 50, 15, 25, 60, 90, 110, 130, 150, 180, 220, 260, 300, 350, 400,
     445, 490, 530, 575, 615, 660, 700, 745, 790, 840, 890, 925, 1020, 1065, 1100, 1200]

  predicate Increasing(a: seq<int>)
  {
    forall i, j :: 0 <= i < j < |a| ==> a[i] < a[j]
  }

  lemma {:induction false} StepsIncreasing(a: seq<int>)
    requires forall i :: 0 < i < |a| ==> a[i - 1] < a[i]
    ensures Increasing(a)
  {
    if |a| > 1 {
      var init := a[..|a| - 1];
      assert forall i :: 0 < i < |init| ==> init[i - 1] < init[i] by {
        forall i | 0 < i < |init|
          ensures init[i - 1] < init[i]
        {
          assert init[i - 1] == a[i - 1] && init[i] == a[i];
        }
      }
      StepsIncreasing(init);
      forall i, j | 0 <= i < j < |a|
        ensures a[i] < a[j]
      {
        if j < |a| - 1 {
          assert a[i] == init[i] && a[j] == init[j];
        } else if i < j - 1 {
          assert a[i] == init[i] && a[j - 1] == init[j - 1];
        }
      }
    }
  }

  lemma AlcoholAmountsIncreasing()
    ensures |ALCOHOL_AMOUNTS| == 8 && Increasing(ALCOHOL_AMOUNTS)
  {
    StepsIncreasing(ALCOHOL_AMOUNTS);
  }

  /** The number of entries of an increasing table below `key`: where `key` would be inserted. */
  function {:induction false} Below(a: seq<int>, key: int): (n: nat)
    requires Increasing(a)
    ensures n <= |a|
    ensures forall i :: 0 <= i < n ==> a[i] < key
    ensures forall i :: n <= i < |a| ==> key <= a[i]
  {
    if a == [] || key <= a[0] then 0
    else
      var n := 1 + Below(a[1..], key);
      assert forall i :: 1 <= i < n ==> a[i] == a[1..][i - 1];
      assert forall i :: n <= i < |a| ==> a[i] == a[1..][i - 1];
      n
  }

  /** The number of entries of an increasing table at most `key`. */
  function {:induction false} AtMost(a: seq<int>, key: int): (n: nat)
    requires Increasing(a)
    ensures n <= |a|
    ensures forall i :: 0 <= i < n ==> a[i] <= key
    ensures forall i :: n <= i < |a| ==> key < a[i]
  {
    if a == [] || key < a[0] then 0
    else
      var n := 1 + AtMost(a[1..], key);
      assert forall i :: 1 <= i < n ==> a[i] == a[1..][i - 1];
      assert forall i :: n <= i < |a| ==> a[i] == a[1..][i - 1];
      n
  }

  /**
   * The library's binary search over a table without repeats: the index of `key`
   * when the table holds it, otherwise minus one minus the insertion point.
   */
  function BinarySearch(a: seq<int>, key: int): (r: int)
    requires Increasing(a)
    ensures 0 <= r ==> r < |a| && a[r] == key
    ensures key in a <==> 0 <= r
    ensures r < 0 ==> -r - 1 <= |a|
    ensures r < 0 ==> (forall i :: 0 <= i < -r - 1 ==> a[i] < key) && (forall i :: -r - 1 <= i < |a| ==> key < a[i])
  {
    var ip: int := Below(a, key);
    if ip < |a| && a[ip] == key then ip else -ip - 1
  }

  /** The amount shown for a liquor level: none for 0, otherwise the table entry. */
  function AmountOf(level: Level): (amount: int)
    ensures level == 0 <==> amount == 0
    ensures level > 0 ==> amount in ALCOHOL_AMOUNTS
  {
    if level == 0 then 0 else ALCOHOL_AMOUNTS[level - 1]
  }

  /**
   * The level the slider setter stores, as written: zero stays 0; an amount found in
   * the table gets one more than its index; any other amount gets the insertion point
   * minus one, or 0 when that is negative.
   */
  function LevelAsWritten(amount: int): (level: Level)
    ensures amount in ALCOHOL_AMOUNTS ==> 0 < level && ALCOHOL_AMOUNTS[level - 1] == amount
    ensures 0 <= amount ==> AmountOf(level) <= amount
    ensures amount < ALCOHOL_AMOUNTS[0] ==> level == 0
  {
    AlcoholAmountsIncreasing();
    var binarySearched := if amount == 0 then 0 else BinarySearch(ALCOHOL_AMOUNTS, amount) + 1;
    if binarySearched >= 0 then binarySearched else -binarySearched - 1
  }

  /** The level the slider setter evidently means: the highest level whose amount does not exceed `amount`. */
  function LevelFor(amount: int): (level: Level)
    ensures level == 0 <==> amount < ALCOHOL_AMOUNTS[0]
    ensures 0 < level ==> ALCOHOL_AMOUNTS[level - 1] <= amount
    ensures level < 8 ==> amount < ALCOHOL_AMOUNTS[level]
  {
    AlcoholAmountsIncreasing();
    AtMost(ALCOHOL_AMOUNTS, amount)
  }

  /** No level above the one chosen has an amount within `amount`. */
  lemma LevelForIsFloor(amount: int, level: Level)
    requires AmountOf(level) <= amount
    ensures AmountOf(LevelFor(amount)) <= amount || amount < 0
    ensures level <= LevelFor(amount) || (level == 0 && amount < 0)
  {
    AlcoholAmountsIncreasing();
  }

  /** Setting the amount a level shows gives back that level. */
  lemma LevelForAmount(level: Level)
    ensures LevelFor(AmountOf(level)) == level
  {
    AlcoholAmountsIncreasing();
  }

  /** A larger amount never gives a lower level. */
  lemma LevelForMonotone(x: int, y: int)
    requires x <= y
    ensures LevelFor(x) <= LevelFor(y)
  {
    AlcoholAmountsIncreasing();
  }

  /**
   * The setter as written agrees with the intended level on the table's own amounts
   * and below the first entry, and is one level short everywhere else.
   */
  lemma LevelAsWrittenOffByOne(amount: int)
    ensures amount in ALCOHOL_AMOUNTS || LevelFor(amount) == 0 ==> LevelAsWritten(amount) == LevelFor(amount)
    ensures amount !in ALCOHOL_AMOUNTS && LevelFor(amount) > 0 ==> LevelAsWritten(amount) == LevelFor(amount) - 1
  {
    AlcoholAmountsIncreasing();
  }

  /** Setting the amount a level shows stores that level again, as written too. */
  lemma LevelAsWrittenAmount(level: Level)
    ensures LevelAsWritten(AmountOf(level)) == level
  {
    LevelForAmount(level);
    LevelAsWrittenOffByOne(AmountOf(level));
  }

  /** Between 0.55 oz and 0.80 oz the setter as written drops the liquor; the intended level is 1. */
  lemma LevelAsWrittenDropsLiquor()
    ensures LevelAsWritten(60) == 0 && LevelFor(60) == 1
  {
    LevelAsWrittenOffByOne(60);
  }

  /** The setter as written is not monotone: 2.35 oz gives level 7 but 2.36 oz gives level 6. */
  lemma LevelAsWrittenNotMonotone()
    ensures LevelAsWritten(235) == 7 && LevelAsWritten(236) == 6
  {
    LevelAsWrittenOffByOne(235);
    LevelAsWrittenOffByOne(236);
  }

  /**
   * Among the first `n` water levels, the one a stable sort by amount followed by a
   * search from the end picks: the largest amount within `x`, the highest index among equal amounts.
   */
  function {:induction false} LastWithin(a: seq<int>, x: int, n: nat): (r: Option<nat>)
    requires n <= |a|
    ensures r.None? <==> forall i :: 0 <= i < n ==> x < a[i]
    ensures r.Some? ==> r.value < n && a[r.value] <= x
    ensures r.Some? ==> forall i :: 0 <= i < n && a[i] <= x ==> a[i] < a[r.value] || (a[i] == a[r.value] && i <= r.value)
  {
    if n == 0 then None
    else
      var best := LastWithin(a, x, n - 1);
      if a[n - 1] <= x && (best.None? || a[best.value] <= a[n - 1]) then Some(n - 1) else best
  }

  lemma WaterAmountsShape()
    ensures |WATER_AMOUNTS| == 32 && WATER_AMOUNTS[0] == 0
    ensures forall i :: 0 <= i < 32 ==> 0 <= WATER_AMOUNTS[i]
  {
  }

  /** The water level the water slider stores for an amount. */
  function WaterForAmount(amount: int): (level: WaterLevel)
    ensures amount < 0 ==> level == 0
    ensures 0 <= amount ==> WATER_AMOUNTS[level] <= amount
    ensures forall i :: 0 <= i < 32 && WATER_AMOUNTS[i] <= amount ==>
      WATER_AMOUNTS[i] < WATER_AMOUNTS[level] || (WATER_AMOUNTS[i] == WATER_AMOUNTS[level] && i <= level)
  {
    WaterAmountsShape();
    match LastWithin(WATER_AMOUNTS, amount, 32)
    case None => 0
    case Some(i) => i
  }

  /** Setting the water amount a level shows keeps that amount on display. */
  lemma WaterForShownAmount(level: WaterLevel)
    ensures WATER_AMOUNTS[WaterForAmount(WATER_AMOUNTS[level])] == WATER_AMOUNTS[level]
  {
    WaterAmountsShape();
  }

  /** A larger water amount never shows less water. */
  lemma WaterMonotone(x: int, y: int)
    requires x <= y
    ensures WATER_AMOUNTS[WaterForAmount(x)] <= WATER_AMOUNTS[WaterForAmount(y)]
  {
    WaterAmountsShape();
    if 0 <= x {
      assert WATER_AMOUNTS[WaterForAmount(x)] <= y;
    } else if 0 <= y {
      assert WATER_AMOUNTS[0] <= y;
    }
  }

  /** From level 3 on, the water amounts increase strictly. */
  lemma WaterTailIncreasing()
    ensures forall i, j :: 3 <= i < j < 32 ==> WATER_AMOUNTS[i] < WATER_AMOUNTS[j]
  {
    var tail := WATER_AMOUNTS[3..];
    StepsIncreasing(tail);
    forall i, j | 3 <= i < j < 32
      ensures WATER_AMOUNTS[i] < WATER_AMOUNTS[j]
    {
      assert WATER_AMOUNTS[i] == tail[i - 3] && WATER_AMOUNTS[j] == tail[j - 3];
    }
  }

  /** The water amounts repeat only at levels 1 and 4 (0.25 oz). */
  lemma WaterAmountsRepeatOnce()
    ensures forall i, j :: 0 <= i < j < 32 && WATER_AMOUNTS[i] == WATER_AMOUNTS[j] ==> i == 1 && j == 4
  {
    WaterTailIncreasing();
    forall i, j | 0 <= i < j < 32 && WATER_AMOUNTS[i] == WATER_AMOUNTS[j]
      ensures i == 1 && j == 4
    {
      if i < 3 {
        assert WATER_AMOUNTS[i] <= 50 < WATER_AMOUNTS[5];
        assert j <= 5;
        assert WATER_AMOUNTS[j] == 25;
      }
    }
  }

  /**
   * Setting the water amount a level shows gives back that level, except level 1,
   * whose amount 0.25 oz is also level 4's, and which comes back as level 4.
   */
  lemma WaterForLevelAmount(level: WaterLevel)
    ensures level != 1 ==> WaterForAmount(WATER_AMOUNTS[level]) == level
    ensures level == 1 ==> WaterForAmount(WATER_AMOUNTS[level]) == 4
  {
    WaterAmountsShape();
    WaterAmountsRepeatOnce();
    var l := WaterForAmount(WATER_AMOUNTS[level]);
    assert WATER_AMOUNTS[l] == WATER_AMOUNTS[level];
    if level == 1 {
      assert WATER_AMOUNTS[4] == WATER_AMOUNTS[1];
    }
  }
}
