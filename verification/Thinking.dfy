/** Thinking levels and budgets: conversion both ways, and clamping a level to the nearest one a model
    declares. Formats and levels are Go strings; letter case is that of ASCII. */
module Thinking {
  import opened Common
  import opened Strings

  /** The standard levels, lowest first. */
  const STANDARD: seq<string> := ["minimal", "low", "medium", "high", "xhigh", "max"]

  /** `levelIndex`: the position of a standard level, or -1. */
  function LevelIndex(level: string): (i: int)
    ensures -1 <= i < 6
    ensures i >= 0 ==> EqualFold(level, STANDARD[i])
  {
    IndexFrom(level, 0)
  }

  function IndexFrom(level: string, from: nat): (i: int)
    requires from <= 6
    ensures -1 <= i < 6
    ensures i >= 0 ==> from <= i && EqualFold(level, STANDARD[i])
    ensures i == -1 ==> forall j :: from <= j < 6 ==> !EqualFold(level, STANDARD[j])
    decreases 6 - from
  {
    if from == 6 then -1 else if EqualFold(level, STANDARD[from]) then from else IndexFrom(level, from + 1)
  }

  /** `isLevelSupported`. */
  predicate IsSupported(level: string, levels: seq<string>) {
    exists i :: 0 <= i < |levels| && EqualFold(level, TrimSpace(levels[i]))
  }

  /** A model's list names the standard level `i`. */
  predicate Lists(levels: seq<string>, i: int) {
    0 <= i < 6 && exists k :: 0 <= k < |levels| && LevelIndex(TrimSpace(levels[k])) == i
  }

  function Distance(a: int, b: int): nat {
    if a < b then b - a else a - b
  }

  /** `idx` is nearer to `pos` than the best so far; the lower one wins a tie. */
  predicate Beats(pos: int, idx: int, best: int) {
    best == -1 || Distance(pos, idx) < Distance(pos, best) || (Distance(pos, idx) == Distance(pos, best) && idx < best)
  }

  /** The search of `clampLevel` through the model's list. */
  function Best(pos: int, levels: seq<string>): (r: int)
    ensures -1 <= r < 6
  {
    if levels == [] then -1
    else
      var best := Best(pos, levels[..|levels| - 1]);
      var idx := LevelIndex(TrimSpace(levels[|levels| - 1]));
      if idx != -1 && Beats(pos, idx, best) then idx else best
  }

  /** `clampLevel`. */
  function ClampLevel(level: string, levels: seq<string>): string {
    if levels == [] || IsSupported(level, levels) then level
    else if LevelIndex(level) == -1 then level
    else
      var best := Best(LevelIndex(level), levels);
      if best >= 0 then STANDARD[best] else level
  }

  // ------------------------------------------------------------------- nearest

  /** `r` is the listed standard level nearest to `pos`, the lower on a tie. */
  ghost predicate Nearest(r: int, pos: int, levels: seq<string>) {
    && Lists(levels, r)
    && forall i :: Lists(levels, i) ==> Distance(pos, r) < Distance(pos, i) || (Distance(pos, r) == Distance(pos, i) && r <= i)
  }

  ghost predicate HoldsStandard(levels: seq<string>) {
    exists i :: Lists(levels, i)
  }

  lemma ListsSnoc(levels: seq<string>, i: int)
    requires levels != []
    ensures Lists(levels, i) <==>
            Lists(levels[..|levels| - 1], i) || (0 <= i < 6 && LevelIndex(TrimSpace(levels[|levels| - 1])) == i)
  {
    hide LevelIndex, TrimSpace;
    var init := levels[..|levels| - 1];
    if Lists(init, i) {
      var k :| 0 <= k < |init| && LevelIndex(TrimSpace(init[k])) == i;
      assert levels[k] == init[k];
    }
  }

  /** The search finds the nearest listed level, if a standard level is listed at all. */
  lemma {:induction false} BestIsNearest(pos: int, levels: seq<string>)
    ensures if HoldsStandard(levels) then Nearest(Best(pos, levels), pos, levels) else Best(pos, levels) == -1
  {
    hide LevelIndex, TrimSpace, Lists;
    if levels == [] {
      assert forall i :: !Lists(levels, i) by { NothingListed(); }
    } else {
      var init := levels[..|levels| - 1];
      BestIsNearest(pos, init);
      forall i ensures Lists(levels, i) <==> Lists(init, i) || (0 <= i < 6 && LevelIndex(TrimSpace(levels[|levels| - 1])) == i) {
        ListsSnoc(levels, i);
      }
      var idx, best := LevelIndex(TrimSpace(levels[|levels| - 1])), Best(pos, init);
      assert idx != -1 ==> Lists(levels, idx);
      assert HoldsStandard(init) ==> Lists(levels, best);
      if HoldsStandard(init) { ListsInRange(init, best); }
    }
  }

  lemma ListsInRange(levels: seq<string>, i: int)
    requires Lists(levels, i)
    ensures 0 <= i < 6
  {
  }

  lemma NothingListed()
    ensures forall i :: !Lists([], i)
  {
  }

  lemma {:induction false} StandardIndex(i: int)
    requires 0 <= i < 6
    ensures LevelIndex(STANDARD[i]) == i && STANDARD[i] != "none" && STANDARD[i] != "auto"
  {
    StandardLower(i);
    forall j | 0 <= j < 6 && j != i ensures !EqualFold(STANDARD[i], STANDARD[j]) {
      StandardLower(j);
      assert STANDARD[i] != STANDARD[j];
    }
  }

  lemma StandardLower(i: int)
    requires 0 <= i < 6
    ensures ToLower(STANDARD[i]) == STANDARD[i]
  {
  }

  /** Levels equal up to case have the same index. */
  lemma SameIndex(a: string, b: string)
    requires EqualFold(a, b)
    ensures LevelIndex(a) == LevelIndex(b)
  {
    SameIndexFrom(a, b, 0);
  }

  lemma {:induction false} SameIndexFrom(a: string, b: string, from: nat)
    requires EqualFold(a, b) && from <= 6
    ensures IndexFrom(a, from) == IndexFrom(b, from)
    decreases 6 - from
  {
    if from < 6 { SameIndexFrom(a, b, from + 1); }
  }

  /** A listed standard level is a supported level. */
  lemma ListedIsSupported(levels: seq<string>, i: int)
    requires Lists(levels, i)
    ensures IsSupported(STANDARD[i], levels)
  {
    var k :| 0 <= k < |levels| && LevelIndex(TrimSpace(levels[k])) == i;
    assert EqualFold(STANDARD[i], TrimSpace(levels[k]));
  }

  /** Main result on levels: clamping a standard level gives the supported standard level nearest to
      it, the lower on a tie; without a listed standard level it changes nothing. */
  lemma ClampIsNearest(level: string, levels: seq<string>)
    requires LevelIndex(level) != -1
    ensures HoldsStandard(levels) ==> Nearest(LevelIndex(ClampLevel(level, levels)), LevelIndex(level), levels)
    ensures HoldsStandard(levels) ==> IsSupported(ClampLevel(level, levels), levels)
    ensures !HoldsStandard(levels) ==> ClampLevel(level, levels) == level
  {
    hide TrimSpace, Best;
    var pos := LevelIndex(level);
    BestIsNearest(pos, levels);
    if HoldsStandard(levels) {
      if IsSupported(level, levels) {
        var k :| 0 <= k < |levels| && EqualFold(level, TrimSpace(levels[k]));
        SameIndex(level, TrimSpace(levels[k]));
        assert Lists(levels, pos);
      } else {
        StandardIndex(Best(pos, levels));
        ListedIsSupported(levels, Best(pos, levels));
      }
    }
  }

  lemma NearestMonotone(r1: int, p1: int, r2: int, p2: int, levels: seq<string>)
    requires p1 <= p2 && Nearest(r1, p1, levels) && Nearest(r2, p2, levels)
    ensures r1 <= r2
  {
  }

  // --------------------------------------------------------------- conversions

  const BUDGETS: seq<int> := [512, 1024, 8192, 24576, 32768, 128000]

  /** `ConvertLevelToBudget`. */
  function LevelToBudget(level: string): Option<int> {
    var l := ToLower(level);
    if l == "none" then Some(0)
    else if l == "auto" then Some(-1)
    else if l == "minimal" then Some(512)
    else if l == "low" then Some(1024)
    else if l == "medium" then Some(8192)
    else if l == "high" then Some(24576)
    else if l == "xhigh" then Some(32768)
    else if l == "max" then Some(128000)
    else None
  }

  /** `ConvertBudgetToLevel`. */
  function BudgetToLevel(budget: int): Option<string> {
    if budget < -1 then None
    else if budget == -1 then Some("auto")
    else if budget == 0 then Some("none")
    else if budget <= 512 then Some("minimal")
    else if budget <= 1024 then Some("low")
    else if budget <= 8192 then Some("medium")
    else if budget <= 24576 then Some("high")
    else Some("xhigh")
  }

  /** The level of a positive budget is the lowest standard level whose own budget covers it, or
      "xhigh" above all of those. */
  lemma BudgetLevelIs(budget: int)
    requires budget > 0
    ensures var level := BudgetToLevel(budget);
            level.Some? && var i := LevelIndex(level.value);
            && 0 <= i <= 4 && level.value == STANDARD[i]
            && (i < 4 || budget <= BUDGETS[4] ==> budget <= BUDGETS[i])
            && (forall j :: 0 <= j < i ==> BUDGETS[j] < budget)
  {
    StandardIndex(0);
    StandardIndex(1);
    StandardIndex(2);
    StandardIndex(3);
    StandardIndex(4);
    hide LevelIndex, EqualFold;
  }

  lemma BudgetIndexMonotone(a: int, b: int)
    requires 0 < a <= b
    ensures LevelIndex(BudgetToLevel(a).value) <= LevelIndex(BudgetToLevel(b).value)
  {
    BudgetLevelIs(a);
    BudgetLevelIs(b);
    hide LevelIndex, BudgetToLevel;
  }

  /** A larger budget never ends at a lower level, whatever levels the model lists. */
  lemma ClampedBudgetMonotone(a: int, b: int, levels: seq<string>)
    requires 0 < a <= b
    ensures LevelIndex(ClampLevel(BudgetToLevel(a).value, levels)) <= LevelIndex(ClampLevel(BudgetToLevel(b).value, levels))
  {
    BudgetLevelIs(a);
    BudgetLevelIs(b);
    BudgetIndexMonotone(a, b);
    var la, lb := BudgetToLevel(a).value, BudgetToLevel(b).value;
    ClampIsNearest(la, levels);
    ClampIsNearest(lb, levels);
    if HoldsStandard(levels) {
      NearestMonotone(LevelIndex(ClampLevel(la, levels)), LevelIndex(la), LevelIndex(ClampLevel(lb, levels)), LevelIndex(lb), levels);
    }
  }

  lemma StandardBudget(i: int)
    requires 0 <= i < 6
    ensures LevelToBudget(STANDARD[i]) == Some(BUDGETS[i])
  {
    StandardLower(i);
  }

  /** A level survives the way over its budget unless it is "max", which comes back as "xhigh". */
  lemma LevelOverBudget(level: string)
    requires LevelToBudget(level).Some?
    ensures BudgetToLevel(LevelToBudget(level).value) == Some(ToLower(level)) <==> ToLower(level) != "max"
    ensures ToLower(level) == "max" ==> BudgetToLevel(LevelToBudget(level).value) == Some("xhigh")
  {
  }

  /** The levels in their order, with the budgets they stand for. */
  lemma LevelsAre(level: string)
    ensures var l := ToLower(level);
            && (LevelIndex(level) == 0 <==> l == "minimal") && (l == "minimal" ==> LevelToBudget(level) == Some(512))
            && (LevelIndex(level) == 1 <==> l == "low") && (l == "low" ==> LevelToBudget(level) == Some(1024))
            && (LevelIndex(level) == 2 <==> l == "medium") && (l == "medium" ==> LevelToBudget(level) == Some(8192))
            && (LevelIndex(level) == 3 <==> l == "high") && (l == "high" ==> LevelToBudget(level) == Some(24576))
            && (LevelIndex(level) == 4 <==> l == "xhigh") && (l == "xhigh" ==> LevelToBudget(level) == Some(32768))
            && (LevelIndex(level) == 5 <==> l == "max") && (l == "max" ==> LevelToBudget(level) == Some(128000))
            && (LevelToBudget(level).None? <==> LevelIndex(level) == -1 && l != "none" && l != "auto")
  {
    forall i | 0 <= i < 6 ensures ToLower(STANDARD[i]) == STANDARD[i] && (LevelIndex(level) == i <==> ToLower(level) == STANDARD[i]) {
      StandardLower(i);
      if ToLower(level) == STANDARD[i] {
        StandardIndex(i);
        SameIndex(level, STANDARD[i]);
      }
    }
    assert STANDARD[0] == "minimal" && STANDARD[1] == "low" && STANDARD[2] == "medium";
    assert STANDARD[3] == "high" && STANDARD[4] == "xhigh" && STANDARD[5] == "max";
    hide ToLower, LevelIndex;
  }
}
