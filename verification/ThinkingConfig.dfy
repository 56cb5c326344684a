/** Validating a thinking configuration against what a model supports. */
module ThinkingConfig {
  import opened Common
  import opened Strings
  import opened Thinking

  datatype Mode = Budget | Level | NoThinking | Auto

  datatype Config = Config(mode: Mode, budget: int, level: string)

  /** What a model declares. */
  datatype Support = Support(min: int, max: int, zeroAllowed: bool, dynamicAllowed: bool, levels: seq<string>)

  datatype Failure = NotSupported | UnknownLevel | LevelNotSupported | BudgetOutOfRange

  datatype Outcome = Ok(config: Config) | Err(failure: Failure)

  datatype Capability = NoCapability | BudgetOnly | LevelOnly | Hybrid

  /** `detectModelCapability` for a model with declared support. */
  function CapabilityOf(s: Support): Capability {
    var hasBudget := s.min > 0 || s.max > 0;
    var hasLevels := s.levels != [];
    if hasBudget && hasLevels then Hybrid
    else if hasBudget then BudgetOnly
    else if hasLevels then LevelOnly
    else NoCapability
  }

  // -------------------------------------------------------------------- routes

  predicate GeminiFamily(provider: string) {
    provider == "gemini" || provider == "gemini-cli" || provider == "antigravity"
  }

  predicate OpenAIFamily(provider: string) {
    provider == "openai" || provider == "openai-response" || provider == "codex" || provider == "xai"
  }

  predicate SameFamily(from: string, to: string) {
    from == to || (GeminiFamily(from) && GeminiFamily(to)) || (OpenAIFamily(from) && OpenAIFamily(to))
  }

  /** What the two formats and the origin of the configuration decide. */
  datatype Route = Route(sameFamily: bool, strictBudget: bool, toClaude: bool)

  function RouteOf(fromFormat: string, toFormat: string, fromSuffix: bool): Route {
    var from, to := ToLower(TrimSpace(fromFormat)), ToLower(TrimSpace(toFormat));
    Route(SameFamily(from, to), !fromSuffix && from != "" && SameFamily(from, to), to == "claude")
  }

  // --------------------------------------------------------------------- steps

  /** Between levels and budgets, as the model's capability asks. */
  function Converted(c: Config, s: Support): Outcome {
    match CapabilityOf(s)
    case BudgetOnly =>
      if c.mode != Level || c.level == "auto" then Ok(c)
      else
        var budget := LevelToBudget(c.level);
        if budget.None? then Err(UnknownLevel) else Ok(Config(Budget, budget.value, ""))
    case LevelOnly =>
      if c.mode != Budget then Ok(c)
      else
        var level := BudgetToLevel(c.budget);
        if level.None? then Err(UnknownLevel) else Ok(Config(Level, 0, ClampLevel(level.value, s.levels)))
    case _ => Ok(c)
  }

  /** The special levels and the budget 0. */
  function Special(c: Config): Config {
    var c := if c.mode == Level && c.level == "none" then Config(NoThinking, 0, "") else c;
    var c := if c.mode == Level && c.level == "auto" then Config(Auto, -1, "") else c;
    if c.mode == Budget && c.budget == 0 then c.(mode := NoThinking, level := "") else c
  }

  function LevelChecked(c: Config, s: Support, sameFamily: bool): Outcome {
    if s.levels == [] || c.mode != Level || IsSupported(c.level, s.levels) then Ok(c)
    else
      var c := if sameFamily then c else c.(level := ClampLevel(c.level, s.levels));
      if IsSupported(c.level, s.levels) then Ok(c) else Err(LevelNotSupported)
  }

  predicate OutOfRange(c: Config, s: Support) {
    c.mode == Budget && (s.min != 0 || s.max != 0) &&
    (c.budget < s.min || c.budget > s.max || (c.budget == 0 && !s.zeroAllowed))
  }

  /** Go's `/ 2`. */
  function Half(n: int): int {
    if n >= 0 then n / 2 else -((-n) / 2)
  }

  /** `convertAutoToMidRange`. */
  function MidRange(c: Config, s: Support): Config {
    if s.levels != [] && s.min == 0 && s.max == 0 then Config(Level, 0, "medium")
    else
      var mid := Half(s.min + s.max);
      if mid <= 0 && s.zeroAllowed then c.(mode := NoThinking, budget := 0)
      else if mid <= 0 then c.(mode := Budget, budget := s.min)
      else c.(mode := Budget, budget := mid)
  }

  /** `clampBudget`. */
  function ClampBudget(value: int, s: Support): int {
    if value == -1 then value
    else if value == 0 && !s.zeroAllowed then s.min
    else if s.min == 0 && s.max == 0 then value
    else if value < s.min then if value == 0 && s.zeroAllowed then 0 else s.min
    else if value > s.max then s.max
    else value
  }

  function Finished(c: Config, s: Support, toClaude: bool): Config {
    if c.mode == NoThinking && toClaude then c.(budget := 0, level := "")
    else
      var c := if c.mode != Level then c.(budget := ClampBudget(c.budget, s)) else c;
      if c.mode == NoThinking && c.budget > 0 && s.levels != [] then c.(level := s.levels[0]) else c
  }

  /** `ValidateConfig`; no support stands for an unknown model and for one without thinking. */
  function Validated(c: Config, support: Option<Support>, route: Route): Outcome {
    if support.None? then if c.mode == NoThinking then Ok(c) else Err(NotSupported)
    else
      var s := support.value;
      var derived := CapabilityOf(s) == BudgetOnly && c.mode == Level && c.level != "auto";
      var converted := Converted(c, s);
      if converted.Err? then converted
      else
        var checked := LevelChecked(Special(converted.config), s, route.sameFamily);
        if checked.Err? then checked
        else if route.strictBudget && !derived && OutOfRange(checked.config, s) then Err(BudgetOutOfRange)
        else
          var c := checked.config;
          var c := if c.mode == Auto && !s.dynamicAllowed then MidRange(c, s) else c;
          Ok(Finished(c, s, route.toClaude))
  }

  // ----------------------------------------------------------------- soundness

  /** The modes without a value of their own carry their mark, as the type asks. */
  predicate Marked(c: Config) {
    (c.mode == NoThinking ==> c.budget == 0) && (c.mode == Auto ==> c.budget == -1)
  }

  predicate Declared(s: Support) {
    0 <= s.min <= s.max
  }

  /** A configuration the model takes as it stands. */
  predicate Sound(c: Config, s: Support, route: Route) {
    match c.mode
    case Budget =>
      CapabilityOf(s) != LevelOnly && c.budget > 0 && (s.max > 0 ==> s.min <= c.budget <= s.max)
    case Level => SoundLevel(c.level, s)
    case Auto => s.dynamicAllowed && c.budget == -1
    case NoThinking =>
      if route.toClaude then c.budget == 0 && c.level == ""
      else c.budget == (if s.zeroAllowed then 0 else s.min) && (c.budget > 0 && s.levels != [] ==> c.level == s.levels[0])
  }

  predicate SoundLevel(level: string, s: Support) {
    CapabilityOf(s) != BudgetOnly && level != "none" && level != "auto" && (s.levels != [] ==> IsSupported(level, s.levels))
  }

  /** Automatic thinking, under any of its names: a budget of -1 counts where it becomes a level. */
  predicate AsksAuto(c: Config, s: Support) {
    c.mode == Auto || (c.mode == Level && c.level == "auto") || (c.mode == Budget && c.budget == -1 && CapabilityOf(s) == LevelOnly)
  }

  /** Automatic thinking is asked for and not allowed, and what replaces it is not available: the level
      "medium" is not listed, or the middle of the range is 0 and thinking cannot be switched off. */
  predicate NoFallback(c: Config, s: Support) {
    AsksAuto(c, s) && !s.dynamicAllowed &&
    if CapabilityOf(s) == LevelOnly then !IsSupported("medium", s.levels) else s.min + s.max < 2 && !s.zeroAllowed
  }

  /** A negative budget that is not raised to a positive minimum. */
  predicate StrayBudget(c: Config, s: Support) {
    c.mode == Budget && CapabilityOf(s) != LevelOnly && c.budget < 0 && (c.budget == -1 || s.min == 0)
  }

  /** "auto" not spelt in lower case, for a model with budgets only. */
  predicate StrayAuto(c: Config, s: Support) {
    c.mode == Level && CapabilityOf(s) == BudgetOnly && c.level != "auto" && ToLower(c.level) == "auto"
  }

  /** The clamped level of a positive budget is never a special one. */
  lemma ClampNotSpecial(level: string, levels: seq<string>)
    requires level != "none" && level != "auto"
    ensures ClampLevel(level, levels) != "none" && ClampLevel(level, levels) != "auto"
  {
    hide LevelIndex, Best, IsSupported;
    if LevelIndex(level) != -1 && Best(LevelIndex(level), levels) >= 0 {
      StandardIndex(Best(LevelIndex(level), levels));
    }
  }

  lemma ClampSpecial(level: string, levels: seq<string>)
    requires level == "none" || level == "auto"
    ensures ClampLevel(level, levels) == level
  {
    hide IsSupported, Best;
    forall i | 0 <= i < 6 ensures !EqualFold(level, STANDARD[i]) {
      StandardIndex(i);
      StandardLower(i);
      assert ToLower(level) == level;
    }
    assert LevelIndex(level) == -1;
  }

  /** The budget of a level is -1 for "auto" in any case of letters, and otherwise not negative. */
  lemma LevelBudgets(level: string)
    requires LevelToBudget(level).Some?
    ensures LevelToBudget(level).value >= 0 || (LevelToBudget(level).value == -1 && ToLower(level) == "auto")
    ensures ToLower(level) == "auto" ==> LevelToBudget(level).value == -1
  {
  }

  /** What is left of `c` after the conversions and the checks, where nothing but the treatment of "auto"
      and the clamping of budgets is still to do. */
  predicate Checked(c: Config, d: Config, s: Support) {
    match d.mode
    case Budget =>
      && CapabilityOf(s) != LevelOnly && d.budget != 0 && !AsksAuto(c, s)
      && (d == c || (&& c.mode == Level && CapabilityOf(s) == BudgetOnly && c.level != "auto"
                     && if StrayAuto(c, s) then d.budget == -1 else d.budget > 0))
    case Level => SoundLevel(d.level, s) && !AsksAuto(c, s) && !StrayBudget(c, s) && !StrayAuto(c, s)
    case Auto => AsksAuto(c, s) && (d == c || d.budget == -1) && (c.mode == Auto ==> d == c)
    case NoThinking => !AsksAuto(c, s) && (d == c || d.budget == 0) && !StrayBudget(c, s) && !StrayAuto(c, s)
  }

  lemma CheckedIs(c: Config, s: Support, sameFamily: bool)
    requires Declared(s) && Converted(c, s).Ok?
    requires LevelChecked(Special(Converted(c, s).config), s, sameFamily).Ok?
    ensures Checked(c, LevelChecked(Special(Converted(c, s).config), s, sameFamily).config, s)
  {
    hide ClampLevel, LevelToBudget, IsSupported, ToLower;
    if CapabilityOf(s) == BudgetOnly && c.mode == Level && c.level != "auto" {
      LevelBudgets(c.level);
    }
    if CapabilityOf(s) == LevelOnly && c.mode == Budget {
      if c.budget > 0 {
        ClampNotSpecial(BudgetToLevel(c.budget).value, s.levels);
      } else {
        ClampSpecial(BudgetToLevel(c.budget).value, s.levels);
      }
    }
    var special := Special(Converted(c, s).config);
    if special.mode == Level {
      ClampNotSpecial(special.level, s.levels);
    }
  }

  lemma FinishedIsSound(c: Config, d: Config, s: Support, route: Route)
    requires Checked(c, d, s) && Marked(c) && Declared(s) && (d.mode == Auto ==> s.dynamicAllowed)
    ensures Sound(Finished(d, s, route.toClaude), s, route) <==> !StrayBudget(c, s) && !StrayAuto(c, s)
  {
    hide IsSupported, ToLower;
  }

  /** What replaces "auto". */
  lemma FallbackIs(c: Config, d: Config, s: Support, route: Route)
    requires AsksAuto(c, s) && d.mode == Auto && Declared(s) && !s.dynamicAllowed
    ensures Sound(Finished(MidRange(d, s), s, route.toClaude), s, route) <==> !NoFallback(c, s)
    ensures !StrayBudget(c, s) && !StrayAuto(c, s)
  {
    hide IsSupported, ToLower;
  }

  /** Main result: what validation lets through is sound, exactly when automatic thinking is allowed or
      has a fallback, a negative budget meets a positive minimum, and "auto" is spelt in lower case where
      it would become a budget. */
  lemma ValidatedSound(c: Config, s: Support, route: Route)
    requires Marked(c) && Declared(s) && Validated(c, Some(s), route).Ok?
    ensures Sound(Validated(c, Some(s), route).config, s, route) <==> !NoFallback(c, s) && !StrayBudget(c, s) && !StrayAuto(c, s)
  {
    CheckedIs(c, s, route.sameFamily);
    var d := LevelChecked(Special(Converted(c, s).config), s, route.sameFamily).config;
    assert d.mode == Auto <==> AsksAuto(c, s);
    if d.mode == Auto && !s.dynamicAllowed {
      FallbackIs(c, d, s, route);
    } else {
      FinishedIsSound(c, d, s, route);
    }
    hide Converted, Special, LevelChecked, IsSupported, MidRange, Finished, OutOfRange, Sound, StrayBudget, StrayAuto, AsksAuto;
  }

  /** The configurations that validation leaves as they are. */
  predicate Stable(c: Config, s: Support, route: Route) {
    match c.mode
    case Budget =>
      && CapabilityOf(s) != LevelOnly && c.budget != 0 && ClampBudget(c.budget, s) == c.budget
      && !(route.strictBudget && OutOfRange(c, s))
    case Level => SoundLevel(c.level, s)
    case Auto => s.dynamicAllowed && ClampBudget(c.budget, s) == c.budget
    case NoThinking =>
      if route.toClaude then c.budget == 0 && c.level == ""
      else ClampBudget(c.budget, s) == c.budget && (c.budget > 0 && s.levels != [] ==> c.level == s.levels[0])
  }

  lemma StableIsKept(c: Config, s: Support, route: Route)
    requires Declared(s) && Stable(c, s, route)
    ensures Validated(c, Some(s), route) == Ok(c)
  {
    hide IsSupported, ClampLevel, LevelToBudget, BudgetToLevel;
  }

  lemma KeptIsStable(c: Config, s: Support, route: Route)
    requires Declared(s) && Validated(c, Some(s), route) == Ok(c)
    ensures Stable(c, s, route)
  {
    hide IsSupported, ClampLevel, LevelToBudget, BudgetToLevel;
  }

  /** A sound configuration passes unchanged. */
  lemma SoundIsStable(c: Config, s: Support, route: Route)
    requires Sound(c, s, route) && Declared(s)
    ensures Validated(c, Some(s), route) == Ok(c)
  {
    StableIsKept(c, s, route);
    hide Validated, IsSupported;
  }

  lemma ClampTwice(value: int, s: Support)
    requires Declared(s)
    ensures ClampBudget(ClampBudget(value, s), s) == ClampBudget(value, s)
  {
  }

  lemma FinishedIsStable(c: Config, d: Config, s: Support, route: Route)
    requires Checked(c, d, s) && Declared(s) && (d.mode == Auto ==> s.dynamicAllowed)
    requires route.strictBudget && d == c ==> !OutOfRange(d, s)
    ensures Stable(Finished(d, s, route.toClaude), s, route)
            <==> !(StrayBudget(c, s) && c.budget < -1 && s.max > 0) && !(StrayAuto(c, s) && route.strictBudget)
  {
    hide IsSupported, ToLower;
    ClampTwice(d.budget, s);
  }

  lemma FallbackIsStable(c: Config, d: Config, s: Support, route: Route)
    requires AsksAuto(c, s) && d.mode == Auto && Declared(s) && !s.dynamicAllowed
    ensures Stable(Finished(MidRange(d, s), s, route.toClaude), s, route) <==> !NoFallback(c, s)
  {
    hide IsSupported, ToLower;
  }

  /** Main result: validating again changes nothing, exactly when automatic thinking is allowed or has a
      fallback, no negative budget was clamped to 0, and no capitalised "auto" meets a strict range. */
  lemma ValidatedTwice(c: Config, support: Option<Support>, route: Route)
    requires (support.Some? ==> Declared(support.value)) && Validated(c, support, route).Ok?
    ensures var out := Validated(c, support, route).config;
            Validated(out, support, route) == Ok(out) <==>
              (support.Some? ==>
                 var s := support.value;
                 && !NoFallback(c, s) && !(StrayBudget(c, s) && c.budget < -1 && s.max > 0)
                 && !(StrayAuto(c, s) && route.strictBudget))
  {
    if support.Some? {
      var s := support.value;
      var d := LevelChecked(Special(Converted(c, s).config), s, route.sameFamily).config;
      var out := Validated(c, support, route).config;
      CheckedIs(c, s, route.sameFamily);
      if Stable(out, s, route) {
        StableIsKept(out, s, route);
      } else if Validated(out, support, route) == Ok(out) {
        KeptIsStable(out, s, route);
      }
      assert d.mode == Auto <==> AsksAuto(c, s);
      if d.mode == Auto && !s.dynamicAllowed {
        FallbackIsStable(c, d, s, route);
        assert !StrayBudget(c, s) && !StrayAuto(c, s);
      } else {
        FinishedIsStable(c, d, s, route);
      }
      hide Converted, Special, LevelChecked, IsSupported, MidRange, Finished, OutOfRange, Stable, StrayBudget, StrayAuto, AsksAuto;
    }
  }

  /** Across families a budget of -5 for a model with the range 0 to 24576 is clamped to 0, which the next
      validation takes for a request not to think. */
  lemma NegativeBudgetExample()
    ensures var c, s, route := Config(Budget, -5, ""), Support(0, 24576, true, true, []), Route(false, false, false);
            && Validated(c, Some(s), route) == Ok(Config(Budget, 0, ""))
            && Validated(Config(Budget, 0, ""), Some(s), route) == Ok(Config(NoThinking, 0, ""))
  {
  }

  /** "AUTO" for a model with budgets only passes as the budget -1, even where automatic thinking is not
      allowed; within a family the next validation refuses that budget. */
  lemma CapitalAutoExample()
    ensures var c, s, route := Config(Level, 0, "AUTO"), Support(128, 32768, false, false, []), Route(true, true, false);
            && Validated(c, Some(s), route) == Ok(Config(Budget, -1, ""))
            && Validated(Config(Budget, -1, ""), Some(s), route) == Err(BudgetOutOfRange)
  {
    assert ToLower("AUTO") == "auto";
  }

  lemma StandardHasBudget(level: string)
    requires LevelIndex(level) != -1
    ensures LevelToBudget(level).Some? && level != "none" && level != "auto"
  {
    var i := LevelIndex(level);
    StandardIndex(i);
    StandardLower(i);
    StandardBudget(i);
    assert ToLower(level) == STANDARD[i];
    assert ToLower("none") == "none" && ToLower("auto") == "auto";
  }

  /** A positive budget for a model with levels only ends at a listed level. */
  lemma BudgetFindsLevel(budget: int, levels: seq<string>)
    requires budget > 0 && HoldsStandard(levels)
    ensures BudgetToLevel(budget).Some? && IsSupported(ClampLevel(BudgetToLevel(budget).value, levels), levels)
  {
    BudgetLevelIs(budget);
    ClampIsNearest(BudgetToLevel(budget).value, levels);
  }

  /** What the level check does when the families differ. */
  lemma CheckAcross(c: Config, s: Support)
    requires c.mode == Level && s.levels != [] && HoldsStandard(s.levels) && LevelIndex(c.level) != -1
    ensures var checked := LevelChecked(c, s, false);
            checked.Ok? && checked.config.mode == Level && Nearest(LevelIndex(checked.config.level), LevelIndex(c.level), s.levels)
  {
    ClampIsNearest(c.level, s.levels);
    hide IsSupported, Nearest, HoldsStandard, LevelIndex;
    if IsSupported(c.level, s.levels) {
      assert ClampLevel(c.level, s.levels) == c.level;
    }
  }

  /** Where no standard level is listed, none is supported and clamping changes none. */
  lemma StandardNeedsList(level: string, levels: seq<string>)
    requires LevelIndex(level) != -1 && !HoldsStandard(levels)
    ensures !IsSupported(level, levels) && ClampLevel(level, levels) == level
  {
    hide TrimSpace, Best;
    BestIsNearest(LevelIndex(level), levels);
    assert !Lists(levels, LevelIndex(level));
    forall k | 0 <= k < |levels| ensures !EqualFold(level, TrimSpace(levels[k])) {
      if EqualFold(level, TrimSpace(levels[k])) { SameIndex(level, TrimSpace(levels[k])); }
    }
  }

  /** What a model can be asked for from another family: where it lists levels, one of them, or a standard
      level or a positive budget if it lists a standard level at all; where it has budgets only, a level
      that has one; and whatever switches thinking off or leaves it to the model. */
  ghost predicate Understood(c: Config, s: Support) {
    match c.mode
    case Budget => CapabilityOf(s) == LevelOnly ==> c.budget == -1 || c.budget == 0 || (c.budget > 0 && HoldsStandard(s.levels))
    case Level =>
      c.level == "none" || c.level == "auto" ||
      (&& (CapabilityOf(s) == BudgetOnly ==> LevelToBudget(c.level).Some?)
       && (s.levels != [] ==> IsSupported(c.level, s.levels) || (LevelIndex(c.level) != -1 && HoldsStandard(s.levels))))
    case _ => true
  }

  lemma LevelAcross(c: Config, s: Support)
    requires c.mode == Level && s.levels != []
    ensures LevelChecked(c, s, false).Ok? <==> IsSupported(c.level, s.levels) || (LevelIndex(c.level) != -1 && HoldsStandard(s.levels))
  {
    if LevelIndex(c.level) != -1 {
      if HoldsStandard(s.levels) { CheckAcross(c, s); } else { StandardNeedsList(c.level, s.levels); }
    }
    hide IsSupported, HoldsStandard, LevelIndex, Nearest, Best;
  }

  /** A budget for a model with levels only. */
  lemma BudgetAcross(c: Config, s: Support)
    requires c.mode == Budget && CapabilityOf(s) == LevelOnly
    ensures (Converted(c, s).Ok? && LevelChecked(Special(Converted(c, s).config), s, false).Ok?) <==> Understood(c, s)
  {
    if c.budget > 0 {
      var level := BudgetToLevel(c.budget).value;
      BudgetLevelIs(c.budget);
      ClampNotSpecial(level, s.levels);
      if HoldsStandard(s.levels) {
        BudgetFindsLevel(c.budget, s.levels);
      } else {
        StandardNeedsList(level, s.levels);
      }
      hide BudgetToLevel, IsSupported, HoldsStandard, LevelIndex, ClampLevel;
      if !HoldsStandard(s.levels) {
        assert ClampLevel(ClampLevel(level, s.levels), s.levels) == level;
      }
    } else if c.budget >= -1 {
      ClampSpecial(BudgetToLevel(c.budget).value, s.levels);
      hide IsSupported, HoldsStandard, LevelIndex, ClampLevel;
    }
  }

  /** Main result: between provider families exactly the understood configurations pass, and a standard
      level, in any case of letters, ends at the nearest level the model lists. */
  lemma AcrossFamilies(c: Config, s: Support, route: Route)
    requires Declared(s) && !route.sameFamily && !route.strictBudget
    ensures Validated(c, Some(s), route).Ok? <==> Understood(c, s)
    ensures c.mode == Level && LevelIndex(c.level) != -1 && HoldsStandard(s.levels) ==>
              var out := Validated(c, Some(s), route).config;
              out.mode == Level && Nearest(LevelIndex(out.level), LevelIndex(c.level), s.levels)
  {
    hide ClampLevel, LevelIndex, IsSupported, HoldsStandard, Nearest, LevelToBudget, BudgetToLevel, ToLower, MidRange, ClampBudget;
    if c.mode == Level {
      if LevelIndex(c.level) != -1 {
        StandardHasBudget(c.level);
        if HoldsStandard(s.levels) {
          HoldsSome(s.levels);
          CheckAcross(c, s);
        }
      }
      NoneHasBudget();
      if s.levels != [] { LevelAcross(c, s); }
    } else if c.mode == Budget && CapabilityOf(s) == LevelOnly {
      BudgetAcross(c, s);
    }
  }

  /** Main result: within a provider family a level for a model that lists levels, whether or not it has
      budgets too, passes exactly when it is a listed one up to case and surrounding space, and then
      unchanged; any other is refused, never clamped. */
  lemma WithinFamily(c: Config, s: Support, route: Route)
    requires c.mode == Level && c.level != "none" && c.level != "auto" && s.levels != [] && route.sameFamily
    ensures var listed := exists i :: 0 <= i < |s.levels| && ToLower(c.level) == ToLower(TrimSpace(s.levels[i]));
            Validated(c, Some(s), route) == if listed then Ok(c) else Err(LevelNotSupported)
  {
    hide ToLower, TrimSpace;
  }

  /** Which formats are of one family, whatever their case and surrounding space. */
  lemma FamiliesAre(fromFormat: string, toFormat: string, fromSuffix: bool)
    ensures var from, to, route := ToLower(TrimSpace(fromFormat)), ToLower(TrimSpace(toFormat)), RouteOf(fromFormat, toFormat, fromSuffix);
            && (route.sameFamily <==>
                 || from == to
                 || (from in ["gemini", "gemini-cli", "antigravity"] && to in ["gemini", "gemini-cli", "antigravity"])
                 || (from in ["openai", "openai-response", "codex", "xai"] && to in ["openai", "openai-response", "codex", "xai"]))
            && (route.strictBudget <==> route.sameFamily && !fromSuffix && from != "")
            && (route.toClaude <==> to == "claude")
  {
    hide ToLower, TrimSpace;
  }

  /** The same for the formats themselves: from one Gemini format to another, or one of the OpenAI kind to
      another, a level that is not listed is refused; from Claude to either it is not. */
  lemma LevelByFormats(c: Config, s: Support, fromFormat: string, toFormat: string, fromSuffix: bool)
    requires c.mode == Level && LevelIndex(c.level) != -1 && Declared(s) && HoldsStandard(s.levels)
    ensures var from, to, out := ToLower(TrimSpace(fromFormat)), ToLower(TrimSpace(toFormat)),
                                 Validated(c, Some(s), RouteOf(fromFormat, toFormat, fromSuffix));
            var listed := exists i :: 0 <= i < |s.levels| && ToLower(c.level) == ToLower(TrimSpace(s.levels[i]));
            && (from in ["gemini", "gemini-cli", "antigravity"] && to in ["gemini", "gemini-cli", "antigravity"] ==>
                  out == if listed then Ok(c) else Err(LevelNotSupported))
            && (from in ["openai", "openai-response", "codex", "xai"] && to in ["openai", "openai-response", "codex", "xai"] ==>
                  out == if listed then Ok(c) else Err(LevelNotSupported))
            && (from == "claude" && to != "claude" ==>
                  out.Ok? && out.config.mode == Level && Nearest(LevelIndex(out.config.level), LevelIndex(c.level), s.levels))
  {
    var route := RouteOf(fromFormat, toFormat, fromSuffix);
    FamiliesAre(fromFormat, toFormat, fromSuffix);
    StandardHasBudget(c.level);
    HoldsSome(s.levels);
    if route.sameFamily {
      WithinFamily(c, s, route);
    } else {
      AcrossFamilies(c, s, route);
    }
    if ToLower(TrimSpace(fromFormat)) == "claude" && ToLower(TrimSpace(toFormat)) != "claude" {
      ClaudeIsApart(ToLower(TrimSpace(fromFormat)), ToLower(TrimSpace(toFormat)));
    }
    hide *;
  }

  lemma ClaudeIsApart(from: string, to: string)
    requires from == "claude" && to != "claude"
    ensures !SameFamily(from, to)
  {
    assert "claude"[0] !in ['g', 'a', 'o', 'x'] && |"claude"| != |"codex"|;
  }

  /** Switching thinking off for Claude is said as it is; any other model that cannot be switched off is
      given its least, and its first level. */
  lemma OffByFormats(s: Support, fromFormat: string, toFormat: string, fromSuffix: bool)
    requires Declared(s)
    ensures var out := Validated(Config(NoThinking, 0, ""), Some(s), RouteOf(fromFormat, toFormat, fromSuffix));
            out == Ok(if ToLower(TrimSpace(toFormat)) == "claude" || s.zeroAllowed || s.min == 0 then Config(NoThinking, 0, "")
                      else Config(NoThinking, s.min, if s.levels == [] then "" else s.levels[0]))
  {
    FamiliesAre(fromFormat, toFormat, fromSuffix);
    hide ToLower, TrimSpace, RouteOf;
  }

  lemma HoldsSome(levels: seq<string>)
    requires HoldsStandard(levels)
    ensures levels != []
  {
    if levels == [] { NothingListed(); }
  }

  /** What is refused before any range or list is looked at: thinking for a model without it, unless it is
      switched off; for a model with budgets only a level that has none; and for a model with levels only a
      budget below -1. */
  lemma RefusedAtOnce(c: Config, s: Support, route: Route)
    ensures Validated(c, None, route) == if c.mode == NoThinking then Ok(c) else Err(NotSupported)
    ensures var budgets, l := s.min > 0 || s.max > 0, ToLower(c.level);
            Validated(c, Some(s), route) == Err(UnknownLevel) <==>
              || (&& budgets && s.levels == [] && c.mode == Level && l != "none" && l != "auto" && l != "minimal" && l != "low"
                  && l != "medium" && l != "high" && l != "xhigh" && l != "max")
              || (!budgets && s.levels != [] && c.mode == Budget && c.budget < -1)
    ensures Validated(c, Some(s), route) != Err(NotSupported)
  {
    hide ClampLevel, IsSupported, ToLower, MidRange, ClampBudget;
    if c.level == "auto" { assert ToLower("auto") == "auto" by { AutoIsLower(); } }
  }

  lemma AutoIsLower()
    ensures ToLower("auto") == "auto"
  {
  }

  lemma NoneHasBudget()
    ensures LevelToBudget("none") == Some(0) && BudgetToLevel(0) == Some("none")
  {
    assert ToLower("none") == "none";
  }

  /** Configurations that cross families, come from a suffix or from an unknown format are never held
      to the strict range; the case and the surrounding space of formats do not matter. */
  lemma RouteAcross(fromFormat: string, toFormat: string, fromSuffix: bool)
    ensures var route := RouteOf(fromFormat, toFormat, fromSuffix);
            && (!route.sameFamily || fromSuffix || TrimSpace(fromFormat) == "" ==> !route.strictBudget)
            && (TrimSpace(fromFormat) != "" && EqualFold(TrimSpace(fromFormat), TrimSpace(toFormat)) && !fromSuffix ==> route.strictBudget)
  {
    assert TrimSpace(fromFormat) != "" ==> |ToLower(TrimSpace(fromFormat))| > 0;
    hide TrimSpace;
  }

  /** The budget of a model's range nearest to `value`. */
  ghost predicate NearestBudget(r: int, value: int, s: Support) {
    s.min <= r <= s.max && forall v :: s.min <= v <= s.max ==> Distance(value, r) <= Distance(value, v)
  }

  /** Clamping a positive budget gives the nearest one in range; "auto" and an allowed 0 stay. */
  lemma ClampBudgetIs(value: int, s: Support)
    requires Declared(s)
    ensures value > 0 && s.max > 0 ==> NearestBudget(ClampBudget(value, s), value, s)
    ensures value == -1 || (value == 0 && s.zeroAllowed) || s.max == 0 ==> ClampBudget(value, s) == value
  {
  }

  /** A standard level for a model with budgets only ends at the budget nearest to the level's own. */
  lemma LevelFindsBudget(c: Config, s: Support, route: Route)
    requires c.mode == Level && LevelIndex(c.level) != -1 && Declared(s) && CapabilityOf(s) == BudgetOnly
    ensures var out := Validated(c, Some(s), route);
            out.Ok? && out.config.mode == Budget && NearestBudget(out.config.budget, BUDGETS[LevelIndex(c.level)], s)
  {
    var i := LevelIndex(c.level);
    StandardHasBudget(c.level);
    StandardIndex(i);
    StandardBudget(i);
    StandardLower(i);
    assert LevelToBudget(c.level) == Some(BUDGETS[i]) by { assert ToLower(c.level) == ToLower(STANDARD[i]); }
    ClampBudgetIs(BUDGETS[i], s);
    hide LevelIndex, LevelToBudget, ToLower, ClampBudget, ClampLevel, NearestBudget;
  }

  /** A positive budget for a model with levels only ends at the listed level nearest to its own. */
  lemma BudgetEndsAtLevel(c: Config, s: Support, route: Route)
    requires c.mode == Budget && c.budget > 0 && CapabilityOf(s) == LevelOnly && HoldsStandard(s.levels)
    ensures var out := Validated(c, Some(s), route);
            out.Ok? && out.config.mode == Level
            && Nearest(LevelIndex(out.config.level), LevelIndex(BudgetToLevel(c.budget).value), s.levels)
  {
    BudgetLevelIs(c.budget);
    var level := BudgetToLevel(c.budget).value;
    StandardIndex(LevelIndex(level));
    ClampIsNearest(level, s.levels);
    ClampNotSpecial(level, s.levels);
    hide LevelIndex, BudgetToLevel, ClampLevel, IsSupported, HoldsStandard, Nearest;
  }

  /** Within a provider family a budget asked for in the request is turned away exactly when it is out
      of range; otherwise it is brought into range. */
  lemma StrictRange(c: Config, s: Support, route: Route)
    requires c.mode == Budget && c.budget > 0 && Declared(s) && s.max > 0
    ensures var out := Validated(c, Some(s), route);
            if route.strictBudget && !(s.min <= c.budget <= s.max) then out == Err(BudgetOutOfRange)
            else out.Ok? && out.config.mode == Budget && NearestBudget(out.config.budget, c.budget, s)
  {
    ClampBudgetIs(c.budget, s);
    hide ClampBudget, NearestBudget, IsSupported;
  }

  /** Where a model with a range does not allow "auto", the middle of the range replaces it. */
  lemma AutoIsMiddle(c: Config, s: Support, route: Route)
    requires c.mode == Auto && c.budget == -1 && Declared(s) && !s.dynamicAllowed && s.min + s.max >= 2
    ensures var out := Validated(c, Some(s), route);
            out.Ok? && out.config.mode == Budget && s.min + s.max - 1 <= 2 * out.config.budget <= s.min + s.max
  {
    hide IsSupported;
  }

  /** The fallback is not checked against the list: a request for automatic thinking to a model
      that lists only "low" and "high" comes out as "medium", which a second validation refuses. */
  lemma MediumNotListedExample()
    ensures var c, s, route := Config(Auto, -1, ""), Support(0, 0, false, false, ["low", "high"]), Route(true, false, false);
            && NoFallback(c, s) && Validated(c, Some(s), route) == Ok(Config(Level, 0, "medium"))
            && Validated(Config(Level, 0, "medium"), Some(s), route) == Err(LevelNotSupported)
  {
    var levels := ["low", "high"];
    TrimmedStays("low");
    TrimmedStays("high");
    assert ToLower("medium") == "medium" && ToLower("low") == "low" && ToLower("high") == "high";
    assert !IsSupported("medium", levels);
    hide ToLower, TrimSpace, IsSupported;
  }
}
