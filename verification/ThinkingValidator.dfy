/** The loops and the step-by-step rewriting of thinking validation. */
module ThinkingValidator {
  import opened Common
  import opened Strings
  import opened Thinking
  import opened ThinkingConfig

  method FindLevel(level: string) returns (index: int)
    ensures index == LevelIndex(level)
  {
    for i := 0 to |STANDARD|
      invariant LevelIndex(level) == IndexFrom(level, i)
    {
      if EqualFold(level, STANDARD[i]) {
        return i;
      }
    }
    return -1;
  }

  /** `isLevelSupported`, and `HasLevel` with its arguments the other way round. */
  method IsLevelSupported(level: string, supported: seq<string>) returns (found: bool)
    ensures found == IsSupported(level, supported)
  {
    for i := 0 to |supported|
      invariant forall j :: 0 <= j < i ==> !EqualFold(level, TrimSpace(supported[j]))
    {
      if EqualFold(level, TrimSpace(supported[i])) {
        return true;
      }
    }
    return false;
  }

  method Clamp(level: string, supported: seq<string>) returns (clamped: string)
    ensures clamped == ClampLevel(level, supported)
  {
    hide IsSupported, LevelIndex, TrimSpace;
    if |supported| == 0 {
      return level;
    }
    var listed := IsLevelSupported(level, supported);
    if listed {
      return level;
    }
    var pos := FindLevel(level);
    if pos == -1 {
      return level;
    }
    var bestIdx, bestDist := -1, |STANDARD| + 1;
    for i := 0 to |supported|
      invariant -1 <= bestIdx < 6 && bestIdx == Best(pos, supported[..i])
      invariant bestDist == if bestIdx == -1 then 7 else Distance(pos, bestIdx)
    {
      assert supported[..i + 1][..i] == supported[..i];
      var idx := FindLevel(TrimSpace(supported[i]));
      if idx != -1 {
        var dist := if pos - idx < 0 then idx - pos else pos - idx;
        if dist < bestDist || (dist == bestDist && idx < bestIdx) {
          bestIdx, bestDist := idx, dist;
        }
      }
    }
    assert supported[..|supported|] == supported;
    if bestIdx >= 0 {
      return STANDARD[bestIdx];
    }
    return level;
  }

  /** The conversion by capability; tells whether a budget came from a level. */
  method Convert(config: Config, s: Support) returns (r: Outcome, budgetDerivedFromLevel: bool)
    ensures r == Converted(config, s)
    ensures budgetDerivedFromLevel == (CapabilityOf(s) == BudgetOnly && config.mode == Level && config.level != "auto")
  {
    hide ClampLevel, LevelToBudget, BudgetToLevel;
    var c := config;
    budgetDerivedFromLevel := false;
    match CapabilityOf(s) {
      case BudgetOnly =>
        if c.mode == Level && c.level != "auto" {
          budgetDerivedFromLevel := true;
          var budget := LevelToBudget(c.level);
          if budget.None? {
            return Err(UnknownLevel), budgetDerivedFromLevel;
          }
          c := c.(mode := Budget, budget := budget.value, level := "");
        }
      case LevelOnly =>
        if c.mode == Budget {
          var level := BudgetToLevel(c.budget);
          if level.None? {
            return Err(UnknownLevel), budgetDerivedFromLevel;
          }
          var clamped := Clamp(level.value, s.levels);
          c := c.(mode := Level, level := clamped, budget := 0);
        }
      case _ =>
    }
    r := Ok(c);
  }

  /** The special values, and then the check of a level against the model's list. */
  method CheckLevel(config: Config, s: Support, sameFamily: bool) returns (r: Outcome)
    ensures r == LevelChecked(Special(config), s, sameFamily)
  {
    hide ClampLevel, IsSupported;
    var c := config;
    if c.mode == Level && c.level == "none" {
      c := c.(mode := NoThinking, budget := 0, level := "");
    }
    if c.mode == Level && c.level == "auto" {
      c := c.(mode := Auto, budget := -1, level := "");
    }
    if c.mode == Budget && c.budget == 0 {
      c := c.(mode := NoThinking, level := "");
    }
    var capability := CapabilityOf(s);
    var allowClampUnsupported := (capability == LevelOnly || capability == Hybrid) && !sameFamily;
    if |s.levels| > 0 && c.mode == Level {
      var listed := IsLevelSupported(c.level, s.levels);
      if !listed {
        if allowClampUnsupported {
          var clamped := Clamp(c.level, s.levels);
          c := c.(level := clamped);
        }
        listed := IsLevelSupported(c.level, s.levels);
        if !listed {
          return Err(LevelNotSupported);
        }
      }
    }
    return Ok(c);
  }

  method Finish(config: Config, s: Support, toClaude: bool) returns (c: Config)
    ensures c == Finished(config, s, toClaude)
  {
    hide ClampBudget;
    c := config;
    if c.mode == NoThinking && toClaude {
      c := c.(budget := 0, level := "");
    } else {
      if c.mode == Budget || c.mode == Auto || c.mode == NoThinking {
        c := c.(budget := ClampBudget(c.budget, s));
      }
      if c.mode == NoThinking && c.budget > 0 && |s.levels| > 0 {
        c := c.(level := s.levels[0]);
      }
    }
  }

  method ValidateConfig(config: Config, support: Option<Support>, fromFormat: string, toFormat: string, fromSuffix: bool)
    returns (r: Outcome)
    ensures r == Validated(config, support, RouteOf(fromFormat, toFormat, fromSuffix))
  {
    hide Converted, Special, LevelChecked, Finished, MidRange, TrimSpace, ToLower, SameFamily;
    if support.None? {
      if config.mode != NoThinking {
        return Err(NotSupported);
      }
      return Ok(config);
    }
    var s := support.value;
    var from, to := ToLower(TrimSpace(fromFormat)), ToLower(TrimSpace(toFormat));
    var sameFamily := SameFamily(from, to);
    var strictBudget := !fromSuffix && from != "" && sameFamily;
    var converted, budgetDerivedFromLevel := Convert(config, s);
    if converted.Err? {
      return converted;
    }
    var checked := CheckLevel(converted.config, s, sameFamily);
    if checked.Err? {
      return checked;
    }
    var c := checked.config;
    if strictBudget && c.mode == Budget && !budgetDerivedFromLevel {
      if s.min != 0 || s.max != 0 {
        if c.budget < s.min || c.budget > s.max || (c.budget == 0 && !s.zeroAllowed) {
          return Err(BudgetOutOfRange);
        }
      }
    }
    if c.mode == Auto && !s.dynamicAllowed {
      c := MidRange(c, s);
    }
    c := Finish(c, s, to == "claude");
    return Ok(c);
  }
}
