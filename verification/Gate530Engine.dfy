/** The Gate 530 decision engine: which rule decides a request, and what happens on errors. */
module Gate530Engine {
  import opened Wrappers
  import opened Seqs
  import opened JsMaps
  import opened Gate530Rules

  datatype Reason =
    | NoApplicableRules
    | NoRulesMatched
    | RuleMatched(id: string, name: string)
    | UnknownRuleAction
    | EvaluationFailed

  datatype Decision = Decision(action: Action, reason: Reason, dimension: Dimension, confidence: real)

  datatype Outcome<+T> = Returned(value: T) | Threw

  type Sectors = map<string, seq<Rule>>

  /** The sectors every registry starts with. */
  const DEFAULT_SECTORS: Sectors :=
    map["general" := [], "healthcare" := [], "finance" := [], "education" := [], "energy" := [], "government" := []]

  /** A sector that was never registered gets the rules of the general sector. */
  function GetSectorRules(sectors: Sectors, sector: string): seq<Rule> {
    if sector in sectors then sectors[sector]
    else if "general" in sectors then sectors["general"]
    else []
  }

  // ------------------------------------------------------------ evaluation

  function AppliesTo(context: Context): Rule -> bool {
    (rule: Rule) => rule.enabled && MatchSector(rule, context)
  }

  function IsEnabled(): Rule -> bool {
    (rule: Rule) => rule.enabled
  }

  function Candidates(globals: seq<Rule>, sectorRules: seq<Rule>, context: Context): seq<Rule> {
    Filter(AppliesTo(context), globals) + Filter(IsEnabled(), sectorRules)
  }

  function ApplicableRules(globals: seq<Rule>, sectorRules: seq<Rule>, context: Context): seq<Rule> {
    ApplyOverrides(SortByPriority(Candidates(globals, sectorRules, context)))
  }

  function RuleHolds(context: Context, regex: Regex): Rule -> bool {
    (rule: Rule) => EvaluateRule(rule, context, regex) == Holds(true)
  }

  /** The rules that hold, or nothing when evaluating some rule throws. */
  function MatchedRules(rules: seq<Rule>, context: Context, regex: Regex): Outcome<seq<Rule>> {
    if exists i | 0 <= i < |rules| :: EvaluateRule(rules[i], context, regex).Throws? then Threw
    else Returned(Filter(RuleHolds(context, regex), rules))
  }

  function Confidence(rule: Rule, context: Context): real {
    var base := MinReal(0.5 + rule.priority / 200.0, 0.95);
    var sectorBoost := if rule.sector != "" && rule.sector != "general" then 0.05 else 0.0;
    var contextBoost := if context.hasMetadata then 0.02 else 0.0;
    MinReal(base + sectorBoost + contextBoost, 1.0)
  }

  function Decide(rule: Rule, context: Context): Decision {
    if rule.action == Unrecognised then Decision(Deny, UnknownRuleAction, "security", 1.0)
    else Decision(rule.action, RuleMatched(rule.id, rule.name), rule.dimension, Confidence(rule, context))
  }

  function PerformEvaluation(globals: seq<Rule>, sectors: Sectors, context: Option<Context>, regex: Regex)
    : Outcome<Decision>
  {
    if context.None? then Threw
    else
      var rules := ApplicableRules(globals, GetSectorRules(sectors, context.value.sector), context.value);
      if rules == [] then Returned(Decision(Allow, NoApplicableRules, "operational", 0.5))
      else
        var matched := MatchedRules(rules, context.value, regex);
        if matched.Threw? then Threw
        else if matched.value == [] then Returned(Decision(Allow, NoRulesMatched, "operational", 0.5))
        else Returned(Decide(SortByPriority(matched.value)[0], context.value))
  }

  function Evaluate(failClosed: bool, globals: seq<Rule>, sectors: Sectors, context: Option<Context>, regex: Regex)
    : Outcome<Decision>
  {
    var outcome := PerformEvaluation(globals, sectors, context, regex);
    if outcome.Threw? && failClosed then Returned(Decision(Deny, EvaluationFailed, "security", 1.0))
    else outcome
  }

  datatype Classification = Classification(category: string, confidence: real, matchedRules: seq<string>)

  /** The dimensions of the rules as a JavaScript set lists them: in order of first occurrence. */
  function AddDimensions(found: seq<Dimension>, rules: seq<Rule>): (r: seq<Dimension>)
    ensures found <= r
    ensures rules != [] ==> r != []
    decreases rules
  {
    if rules == [] then found
    else AddDimensions(if rules[0].dimension in found then found else found + [rules[0].dimension], rules[1..])
  }

  function ClassifyRequest(globals: seq<Rule>, sectors: Sectors, context: Context, regex: Regex)
    : Outcome<Classification>
  {
    var rules := ApplicableRules(globals, GetSectorRules(sectors, context.sector), context);
    var matched := MatchedRules(rules, context, regex);
    if matched.Threw? then Threw
    else
      var categories := AddDimensions([], matched.value);
      Returned(Classification(
                 if categories != [] then categories[0] else "unknown",
                 MinReal(0.5 + |matched.value| as real * 0.1, 0.95),
                 Map((rule: Rule) => rule.id, matched.value)))
  }

  // ------------------------------------------------------------ which rule decides

  /** The rules that the registry has for a sector: its own if it was registered, else those of "general". */
  ghost predicate Serves(sectors: Sectors, sector: string, rules: seq<Rule>) {
    && (sector in sectors ==> rules == sectors[sector])
    && (sector !in sectors && "general" in sectors ==> rules == sectors["general"])
    && (sector !in sectors && "general" !in sectors ==> rules == [])
  }

  /** Rule k of globals-then-sector-rules takes part: it is enabled and, if global, matches the sector. */
  ghost predicate Eligible(globals: seq<Rule>, sectorRules: seq<Rule>, context: Context, k: int) {
    0 <= k < |globals + sectorRules| &&
    var rule := (globals + sectorRules)[k];
    rule.enabled && (k < |globals| ==> rule.sector in {"", "general", context.sector})
  }

  /** Any eligible rule overrides, whether or not it is itself overridden or its condition holds. */
  ghost predicate Overridden(globals: seq<Rule>, sectorRules: seq<Rule>, context: Context, id: string) {
    exists k :: Eligible(globals, sectorRules, context, k) && id in (globals + sectorRules)[k].overrides
  }

  /** The condition of rule k is evaluated. */
  ghost predicate Considered(globals: seq<Rule>, sectorRules: seq<Rule>, context: Context, k: int) {
    && Eligible(globals, sectorRules, context, k)
    && !Overridden(globals, sectorRules, context, (globals + sectorRules)[k].id)
    && (globals + sectorRules)[k].sector in {"", "general", context.sector}
  }

  ghost predicate Fires(globals: seq<Rule>, sectorRules: seq<Rule>, context: Context, regex: Regex, k: int) {
    && Considered(globals, sectorRules, context, k)
    && Satisfied((globals + sectorRules)[k].condition, context, regex)
  }

  /** Rule k fires and comes first by priority, then by position. */
  ghost predicate Wins(globals: seq<Rule>, sectorRules: seq<Rule>, context: Context, regex: Regex, k: int) {
    && Fires(globals, sectorRules, context, regex, k)
    && forall j | Fires(globals, sectorRules, context, regex, j) ::
         var (a, b) := ((globals + sectorRules)[j], (globals + sectorRules)[k]);
         a.priority < b.priority || (a.priority == b.priority && k <= j)
  }

  /** Some rule whose condition is evaluated has a malformed condition tree. */
  ghost predicate SomeMalformed(globals: seq<Rule>, sectorRules: seq<Rule>, context: Context) {
    exists k :: Considered(globals, sectorRules, context, k) && Malformed((globals + sectorRules)[k].condition)
  }

  /** x is the smaller of a and b. */
  ghost predicate IsSmaller(x: real, a: real, b: real) {
    x <= a && x <= b && (x == a || x == b)
  }

  /** A rule's base confidence is 0.5 and 1/200 per point of priority, at most 0.95. */
  ghost predicate IsBase(base: real, winner: Rule) {
    IsSmaller(base, 0.5 + winner.priority / 200.0, 0.95)
  }

  /** A sector of its own adds 0.05 to the base and metadata adds 0.02, up to 1 in all. */
  ghost predicate IsConfidence(confidence: real, base: real, winner: Rule, context: Context) {
    && (winner.sector in {"", "general"} && !context.hasMetadata ==> confidence == base)
    && (winner.sector in {"", "general"} && context.hasMetadata ==> confidence == base + 0.02)
    && (winner.sector !in {"", "general"} && !context.hasMetadata ==> confidence == base + 0.05)
    && (winner.sector !in {"", "general"} && context.hasMetadata ==> IsSmaller(confidence, base + 0.07, 1.0))
  }

  /** The decision is the winner's: its action, its dimension; a deny for security if its action is unknown. */
  ghost predicate Answers(d: Decision, winner: Rule, context: Context) {
    if winner.action == Unrecognised
    then d.action == Deny && d.reason == UnknownRuleAction && d.dimension == "security" && d.confidence == 1.0
    else
      && d.action == winner.action && d.dimension == winner.dimension
      && d.reason == RuleMatched(winner.id, winner.name)
      && exists base :: IsBase(base, winner) && IsConfidence(d.confidence, base, winner, context)
  }

  lemma DecideAnswers(winner: Rule, context: Context)
    ensures Answers(Decide(winner, context), winner, context)
  {
    assert IsBase(MinReal(0.5 + winner.priority / 200.0, 0.95), winner);
  }

  /** The confidence of a decision is at most 1, at least 0.5 for a priority of 0 or more, and grows with it. */
  lemma ConfidenceGrows(d: Decision, winner: Rule, d': Decision, winner': Rule, context: Context)
    requires Answers(d, winner, context) && Answers(d', winner', context)
    requires winner.action != Unrecognised && winner'.action != Unrecognised
    ensures d.confidence <= 1.0 && (winner.priority >= 0.0 ==> d.confidence >= 0.5)
    ensures winner.sector == winner'.sector && winner.priority <= winner'.priority ==> d.confidence <= d'.confidence
    ensures winner.sector == winner'.sector && winner.priority < winner'.priority <= 86.0 ==>
              d.confidence < d'.confidence
  {
    var base :| IsBase(base, winner) && IsConfidence(d.confidence, base, winner, context);
    var base' :| IsBase(base', winner') && IsConfidence(d'.confidence, base', winner', context);
  }

  lemma CandidatesAre(globals: seq<Rule>, sectorRules: seq<Rule>, context: Context, rule: Rule)
    ensures rule in Candidates(globals, sectorRules, context) <==>
            exists k :: Eligible(globals, sectorRules, context, k) && (globals + sectorRules)[k] == rule
  {
    var pool := globals + sectorRules;
    if rule in Filter(AppliesTo(context), globals) {
      var k :| 0 <= k < |globals| && globals[k] == rule;
      assert pool[k] == rule && Eligible(globals, sectorRules, context, k);
    } else if rule in Filter(IsEnabled(), sectorRules) {
      var k :| 0 <= k < |sectorRules| && sectorRules[k] == rule;
      assert pool[|globals| + k] == rule && Eligible(globals, sectorRules, context, |globals| + k);
    }
  }

  lemma OverriddenAre(globals: seq<Rule>, sectorRules: seq<Rule>, context: Context, id: string)
    ensures id in OverriddenIds(Candidates(globals, sectorRules, context)) <==>
            Overridden(globals, sectorRules, context, id)
  {
    var candidates := Candidates(globals, sectorRules, context);
    OverriddenIdsIn(candidates, id);
    if rule :| rule in candidates && id in rule.overrides {
      CandidatesAre(globals, sectorRules, context, rule);
    }
    if k :| Eligible(globals, sectorRules, context, k) && id in (globals + sectorRules)[k].overrides {
      CandidatesAre(globals, sectorRules, context, (globals + sectorRules)[k]);
    }
  }

  lemma ApplicableAre(globals: seq<Rule>, sectorRules: seq<Rule>, context: Context)
    ensures var candidates := Candidates(globals, sectorRules, context);
            ApplicableRules(globals, sectorRules, context) ==
            Filter(NotIn(OverriddenIds(candidates)), SortByPriority(candidates))
    ensures forall rule :: rule in ApplicableRules(globals, sectorRules, context) <==>
              exists k :: Eligible(globals, sectorRules, context, k) && (globals + sectorRules)[k] == rule &&
                          !Overridden(globals, sectorRules, context, rule.id)
  {
    var candidates := Candidates(globals, sectorRules, context);
    SortPermutes(HigherPriority, candidates);
    OverriddenIdsSameElements(SortByPriority(candidates), candidates);
    forall rule
      ensures rule in ApplicableRules(globals, sectorRules, context) <==>
              exists k :: Eligible(globals, sectorRules, context, k) && (globals + sectorRules)[k] == rule &&
                          !Overridden(globals, sectorRules, context, rule.id)
    {
      CandidatesAre(globals, sectorRules, context, rule);
      OverriddenAre(globals, sectorRules, context, rule.id);
    }
  }

  lemma RuleThrows(rule: Rule, context: Context, regex: Regex)
    ensures EvaluateRule(rule, context, regex).Throws? <==>
            rule.enabled && rule.sector in {"", "general", context.sector} && Malformed(rule.condition)
    ensures EvaluateRule(rule, context, regex) == Holds(true) <==>
            && rule.enabled && rule.sector in {"", "general", context.sector}
            && !Malformed(rule.condition) && Satisfied(rule.condition, context, regex)
  {
    EvaluateConditionMeaning(rule.condition, context, regex);
  }

  /** Among the applicable rules are the considered ones, and no others that match the sector. */
  lemma SomeRuleThrows(globals: seq<Rule>, sectorRules: seq<Rule>, context: Context, regex: Regex)
    ensures (exists rule | rule in ApplicableRules(globals, sectorRules, context) ::
               EvaluateRule(rule, context, regex).Throws?) <==>
            SomeMalformed(globals, sectorRules, context)
  {
    var pool, rules := globals + sectorRules, ApplicableRules(globals, sectorRules, context);
    ApplicableAre(globals, sectorRules, context);
    if k :| Considered(globals, sectorRules, context, k) && Malformed(pool[k].condition) {
      RuleThrows(pool[k], context, regex);
      assert pool[k] in rules;
    }
    if rule :| rule in rules && EvaluateRule(rule, context, regex).Throws? {
      RuleThrows(rule, context, regex);
      var k :| Eligible(globals, sectorRules, context, k) && pool[k] == rule &&
               !Overridden(globals, sectorRules, context, rule.id);
      assert Considered(globals, sectorRules, context, k);
    }
  }

  lemma ServedRules(sectors: Sectors, sector: string, rules: seq<Rule>)
    requires Serves(sectors, sector, rules)
    ensures GetSectorRules(sectors, sector) == rules
  {
  }

  /**
   Evaluating an object context fails exactly when a considered rule is malformed. Rules are
   not short-circuited, so the priorities of the well-formed rules do not matter.
   */
  lemma ThrowsIffSomeMalformed(globals: seq<Rule>, sectors: Sectors, sectorRules: seq<Rule>, context: Context,
                               regex: Regex)
    requires Serves(sectors, context.sector, sectorRules)
    ensures PerformEvaluation(globals, sectors, Some(context), regex).Threw? <==>
            SomeMalformed(globals, sectorRules, context)
    ensures ClassifyRequest(globals, sectors, context, regex).Threw? <==>
            SomeMalformed(globals, sectorRules, context)
  {
    var rules := ApplicableRules(globals, sectorRules, context);
    ServedRules(sectors, context.sector, sectorRules);
    SomeRuleThrows(globals, sectorRules, context, regex);
    assert forall i | 0 <= i < |rules| :: rules[i] in rules;
  }

  /**
   With failClosed, evaluation never throws, and a missing context or one malformed considered rule
   forces a deny for security; without it these are exactly the cases in which evaluation throws.
   */
  lemma FailClosedNeverThrows(globals: seq<Rule>, sectors: Sectors, sectorRules: seq<Rule>, context: Option<Context>,
                              regex: Regex)
    requires context.Some? ==> Serves(sectors, context.value.sector, sectorRules)
    ensures var d := Evaluate(true, globals, sectors, context, regex);
            var fails := context.None? || SomeMalformed(globals, sectorRules, context.value);
            && d.Returned?
            && (d.value.reason == EvaluationFailed <==> fails)
            && (fails ==> d.value.action == Deny && d.value.dimension == "security" && d.value.confidence == 1.0)
            && (Evaluate(false, globals, sectors, context, regex).Threw? <==> fails)
  {
    if context.Some? {
      ThrowsIffSomeMalformed(globals, sectors, sectorRules, context.value, regex);
    }
  }

  /** The applicable rules whose condition holds. */
  ghost function Matched(globals: seq<Rule>, sectorRules: seq<Rule>, context: Context, regex: Regex): seq<Rule> {
    Filter(RuleHolds(context, regex), ApplicableRules(globals, sectorRules, context))
  }

  /** A rule that fires wherever it stands: enabled, for the sector, not overridden, and its condition holds. */
  ghost function Firing(globals: seq<Rule>, sectorRules: seq<Rule>, context: Context, regex: Regex): Rule -> bool {
    (rule: Rule) =>
      && rule.enabled && rule.sector in {"", "general", context.sector}
      && !Overridden(globals, sectorRules, context, rule.id)
      && !Malformed(rule.condition) && Satisfied(rule.condition, context, regex)
  }

  lemma FiringIs(globals: seq<Rule>, sectorRules: seq<Rule>, context: Context, regex: Regex, rule: Rule)
    ensures Firing(globals, sectorRules, context, regex)(rule) ==
            (RuleHolds(context, regex)(rule) && NotIn(OverriddenIds(Candidates(globals, sectorRules, context)))(rule))
    ensures Firing(globals, sectorRules, context, regex)(rule) ==> AppliesTo(context)(rule)
  {
    RuleThrows(rule, context, regex);
    OverriddenAre(globals, sectorRules, context, rule.id);
  }

  /** The matched list is the priority sort of the firing rules; sorting it again changes nothing. */
  lemma MatchedIsSortedFiring(globals: seq<Rule>, sectorRules: seq<Rule>, context: Context, regex: Regex)
    ensures var matched := Matched(globals, sectorRules, context, regex);
            && matched == SortByPriority(Filter(Firing(globals, sectorRules, context, regex), globals + sectorRules))
            && SortByPriority(matched) == matched
  {
    var candidates := Candidates(globals, sectorRules, context);
    var firing := Firing(globals, sectorRules, context, regex);
    var holds := RuleHolds(context, regex);
    forall rule: Rule
      ensures firing(rule) == (holds(rule) && NotIn(OverriddenIds(candidates))(rule))
      ensures firing(rule) ==> AppliesTo(context)(rule)
    {
      FiringIs(globals, sectorRules, context, regex, rule);
    }
    PriorityIsWeakOrder();
    ApplicableAre(globals, sectorRules, context);
    FilterFilter(holds, NotIn(OverriddenIds(candidates)), firing, SortByPriority(candidates));
    FilterSort(HigherPriority, firing, candidates);
    FilterAppend(firing, Filter(AppliesTo(context), globals), Filter(IsEnabled(), sectorRules));
    FilterFilter(firing, AppliesTo(context), firing, globals);
    FilterFilter(firing, IsEnabled(), firing, sectorRules);
    FilterAppend(firing, globals, sectorRules);
    var matched := SortByPriority(Filter(firing, globals + sectorRules));
    SortSorted(HigherPriority, Filter(firing, globals + sectorRules));
    SortOfSorted(HigherPriority, matched);
  }

  lemma FiringIsFires(globals: seq<Rule>, sectorRules: seq<Rule>, context: Context, regex: Regex, k: int)
    requires 0 <= k < |globals + sectorRules|
    requires !SomeMalformed(globals, sectorRules, context)
    ensures Firing(globals, sectorRules, context, regex)((globals + sectorRules)[k]) <==>
            Fires(globals, sectorRules, context, regex, k)
  {
    var rule := (globals + sectorRules)[k];
    assert Firing(globals, sectorRules, context, regex)(rule) ==> Eligible(globals, sectorRules, context, k);
    assert Considered(globals, sectorRules, context, k) ==> !Malformed(rule.condition);
  }

  /** Rule k passes and comes first, by priority and then by position, among those that do. */
  ghost predicate ComesFirst(pool: seq<Rule>, passes: Rule -> bool, k: int) {
    && 0 <= k < |pool| && passes(pool[k])
    && forall j | 0 <= j < |pool| && passes(pool[j]) ::
         pool[j].priority < pool[k].priority || (pool[j].priority == pool[k].priority && k <= j)
  }

  lemma HeadComesFirst(pool: seq<Rule>, passes: Rule -> bool) returns (k: int)
    requires Filter(passes, pool) != []
    ensures ComesFirst(pool, passes, k) && SortByPriority(Filter(passes, pool))[0] == pool[k]
  {
    PriorityIsWeakOrder();
    k := HeadOfSort(HigherPriority, passes, pool);
  }

  /** The winner, when any rule fires; the head of the matched list is that rule. */
  lemma MatchedHeadWins(globals: seq<Rule>, sectorRules: seq<Rule>, context: Context, regex: Regex) returns (k: int)
    requires !SomeMalformed(globals, sectorRules, context)
    ensures var matched := Matched(globals, sectorRules, context, regex);
            if matched == [] then forall j :: !Fires(globals, sectorRules, context, regex, j)
            else Wins(globals, sectorRules, context, regex, k) && matched[0] == (globals + sectorRules)[k]
  {
    var pool := globals + sectorRules;
    var firing := Firing(globals, sectorRules, context, regex);
    MatchedIsSortedFiring(globals, sectorRules, context, regex);
    forall j | 0 <= j < |pool|
      ensures firing(pool[j]) <==> Fires(globals, sectorRules, context, regex, j)
      ensures firing(pool[j]) ==> Filter(firing, pool) != []
    {
      FiringIsFires(globals, sectorRules, context, regex, j);
      assert firing(pool[j]) ==> pool[j] in Filter(firing, pool);
    }
    k := 0;
    if Filter(firing, pool) != [] {
      k := HeadComesFirst(pool, firing);
    }
  }

  lemma WinnerIsUnique(globals: seq<Rule>, sectorRules: seq<Rule>, context: Context, regex: Regex, j: int, k: int)
    requires Wins(globals, sectorRules, context, regex, j)
    ensures Wins(globals, sectorRules, context, regex, k) ==> j == k
    ensures exists i :: Fires(globals, sectorRules, context, regex, i)
  {
    assert Fires(globals, sectorRules, context, regex, j);
  }

  /**
   When no considered rule is malformed, the decision is that of the winning rule, and allow
   when no rule fires. A winner exists as soon as any rule fires.
   */
  lemma WinnerDecides(failClosed: bool, globals: seq<Rule>, sectors: Sectors, sectorRules: seq<Rule>,
                      context: Context, regex: Regex)
    requires Serves(sectors, context.sector, sectorRules) && !SomeMalformed(globals, sectorRules, context)
    ensures var d := Evaluate(failClosed, globals, sectors, Some(context), regex);
            && d.Returned?
            && (forall k | Wins(globals, sectorRules, context, regex, k) ::
                  Answers(d.value, (globals + sectorRules)[k], context))
            && ((exists k :: Fires(globals, sectorRules, context, regex, k)) ==>
                (exists k :: Wins(globals, sectorRules, context, regex, k)))
            && ((forall k :: !Fires(globals, sectorRules, context, regex, k)) ==> IsDefault(d.value))
  {
    ServedRules(sectors, context.sector, sectorRules);
    ThrowsIffSomeMalformed(globals, sectors, sectorRules, context, regex);
    var k := MatchedHeadWins(globals, sectorRules, context, regex);
    MatchedIsSortedFiring(globals, sectorRules, context, regex);
    var matched := Matched(globals, sectorRules, context, regex);
    if matched != [] {
      DecideAnswers(matched[0], context);
      WinnerIsUnique(globals, sectorRules, context, regex, k, k);
      forall j | Wins(globals, sectorRules, context, regex, j)
        ensures j == k
      {
        WinnerIsUnique(globals, sectorRules, context, regex, j, k);
      }
    }
  }

  /** The decision when nothing matched. */
  ghost predicate IsDefault(d: Decision) {
    && d.action == Allow && d.dimension == "operational" && d.confidence == 0.5
    && d.reason in {NoApplicableRules, NoRulesMatched}
  }

  lemma FirstDimension(rules: seq<Rule>)
    requires rules != []
    ensures AddDimensions([], rules)[0] == rules[0].dimension
  {
    assert [rules[0].dimension] <= AddDimensions([rules[0].dimension], rules[1..]);
  }

  /**
   A classification lists the ids of the firing rules, highest priority first; it is "unknown" when there are
   none, else of the dimension of the first, and its confidence is 0.1 per rule above 0.5, at most 0.95.
   */
  lemma ClassificationIs(globals: seq<Rule>, sectors: Sectors, sectorRules: seq<Rule>, context: Context, regex: Regex)
    requires Serves(sectors, context.sector, sectorRules) && !SomeMalformed(globals, sectorRules, context)
    ensures var c := ClassifyRequest(globals, sectors, context, regex);
            var firing := Filter(Firing(globals, sectorRules, context, regex), globals + sectorRules);
            var n := |firing|;
            && c.Returned?
            && c.value.matchedRules == Map((rule: Rule) => rule.id, SortByPriority(firing))
            && c.value.category == (if n == 0 then "unknown" else SortByPriority(firing)[0].dimension)
            && IsSmaller(c.value.confidence, 0.5 + n as real / 10.0, 0.95)
  {
    ServedRules(sectors, context.sector, sectorRules);
    ThrowsIffSomeMalformed(globals, sectors, sectorRules, context, regex);
    MatchedIsSortedFiring(globals, sectorRules, context, regex);
    var matched := Matched(globals, sectorRules, context, regex);
    if matched != [] {
      FirstDimension(matched);
    }
    assert |matched| as real * 0.1 == |matched| as real / 10.0;
  }

  lemma CategoryIsWinners(globals: seq<Rule>, sectors: Sectors, sectorRules: seq<Rule>, context: Context,
                          regex: Regex, k: int)
    requires Serves(sectors, context.sector, sectorRules) && !SomeMalformed(globals, sectorRules, context)
    requires Wins(globals, sectorRules, context, regex, k)
    ensures var c := ClassifyRequest(globals, sectors, context, regex);
            c.Returned? && c.value.category == (globals + sectorRules)[k].dimension
  {
    ClassificationIs(globals, sectors, sectorRules, context, regex);
    var head := MatchedHeadWins(globals, sectorRules, context, regex);
    MatchedIsSortedFiring(globals, sectorRules, context, regex);
    WinnerIsUnique(globals, sectorRules, context, regex, k, head);
  }

  /**
   When some rule fires and nothing throws, the category of the request is the dimension of its
   decision, except that a winning rule with an unrecognised action decides under "security".
   */
  lemma CategoryIsDecisionDimension(failClosed: bool, globals: seq<Rule>, sectors: Sectors, sectorRules: seq<Rule>,
                                    context: Context, regex: Regex, k: int)
    requires Serves(sectors, context.sector, sectorRules) && !SomeMalformed(globals, sectorRules, context)
    requires Wins(globals, sectorRules, context, regex, k)
    ensures var c := ClassifyRequest(globals, sectors, context, regex);
            var d := Evaluate(failClosed, globals, sectors, Some(context), regex);
            var winner := (globals + sectorRules)[k];
            && c.Returned? && d.Returned?
            && c.value.category == winner.dimension
            && (c.value.category == d.value.dimension <==>
                winner.action != Unrecognised || winner.dimension == "security")
  {
    CategoryIsWinners(globals, sectors, sectorRules, context, regex, k);
    WinnerDecides(failClosed, globals, sectors, sectorRules, context, regex);
  }

  /** An enabled rule with a condition that holds and an action that the engine does not know. */
  const PRESENT := Node("exists", Some("sector"), Undefined, NoChildren, "")
  const SOME_CONTEXT := Context("general", false, Obj(0, map["sector" := Str("general")]))
  const UNKNOWN_ACTION := Rule("r", "", "privacy", 1.0, PRESENT, "", Unrecognised, [], true)

  lemma PresentHolds(regex: Regex)
    ensures Satisfied(PRESENT, SOME_CONTEXT, regex) && !Malformed(PRESENT)
  {
    SplitNoDot("sector");
    assert Follow(["sector"], SOME_CONTEXT.root) == Follow([], Str("general"));
  }

  /** They can differ: when the only rule fires, is about privacy and has an unknown action. */
  lemma CategoryMayDiffer(regex: Regex)
    ensures var c := ClassifyRequest([UNKNOWN_ACTION], DEFAULT_SECTORS, SOME_CONTEXT, regex);
            var d := Evaluate(true, [UNKNOWN_ACTION], DEFAULT_SECTORS, Some(SOME_CONTEXT), regex);
            c.Returned? && d.Returned? && c.value.category == "privacy" && d.value.dimension == "security"
  {
    PresentHolds(regex);
    OnlyRuleWins(UNKNOWN_ACTION, SOME_CONTEXT, regex);
    assert ([UNKNOWN_ACTION] + [])[0] == UNKNOWN_ACTION;
    CategoryIsDecisionDimension(true, [UNKNOWN_ACTION], DEFAULT_SECTORS, [], SOME_CONTEXT, regex, 0);
    WinnerDecides(true, [UNKNOWN_ACTION], DEFAULT_SECTORS, [], SOME_CONTEXT, regex);
  }

  /** A single rule that is enabled, matches and overrides nothing wins when its condition holds. */
  lemma OnlyRuleWins(rule: Rule, context: Context, regex: Regex)
    requires rule.enabled && MatchSector(rule, context) && rule.overrides == []
    requires !Malformed(rule.condition) && Satisfied(rule.condition, context, regex)
    ensures Wins([rule], [], context, regex, 0) && !SomeMalformed([rule], [], context)
  {
    assert [rule] + [] == [rule];
    assert Eligible([rule], [], context, 0) && !Overridden([rule], [], context, rule.id);
  }

  // ------------------------------------------------------------ the rule store

  datatype RuleUpdate = Added(rule: Rule) | Removed(id: string)

  function ApplyUpdate(rules: JsMap<string, Rule>, update: RuleUpdate): JsMap<string, Rule> {
    match update
    case Added(rule) => if rule.id == "" then rules else Set(rules, rule.id, rule)
    case Removed(id) => Delete(rules, id)
  }

  function ApplyUpdates(updates: seq<RuleUpdate>): JsMap<string, Rule> {
    if updates == [] then []
    else ApplyUpdate(ApplyUpdates(updates[..|updates| - 1]), updates[|updates| - 1])
  }

  /** What the last update that concerns the id left behind. */
  function Latest(updates: seq<RuleUpdate>, id: string): Option<Rule> {
    if updates == [] then None
    else
      match updates[|updates| - 1]
      case Added(rule) => if rule.id == id && id != "" then Some(rule) else Latest(updates[..|updates| - 1], id)
      case Removed(removed) => if removed == id then None else Latest(updates[..|updates| - 1], id)
  }

  /** Over any run of additions and removals the store holds, per id, the latest surviving rule. */
  lemma {:induction false} StoreHoldsLatest(updates: seq<RuleUpdate>, id: string)
    ensures Distinct(ApplyUpdates(updates))
    ensures Get(ApplyUpdates(updates), id) == Latest(updates, id)
    ensures forall e | e in ApplyUpdates(updates) :: e.key == e.value.id != ""
  {
    if updates == [] {
    } else {
      var before := ApplyUpdates(updates[..|updates| - 1]);
      StoreHoldsLatest(updates[..|updates| - 1], id);
      match updates[|updates| - 1]
      case Added(rule) =>
        SetDistinct(before, rule.id, rule);
        SetGet(before, rule.id, rule, id);
        SetEntries(before, rule.id, rule);
      case Removed(removed) =>
        DeleteEntries(before, removed);
        DeleteDistinct(before, removed);
        DeleteGet(before, removed, id);
    }
  }

  predicate ValidConfig(rules: seq<Rule>) {
    forall rule | rule in rules :: rule.id != "" && rule.name != "" && rule.condition.Node?
  }

  class Engine {
    var rules: JsMap<string, Rule>
    var sectors: Sectors
    const failClosed: bool
    /** Every addition and removal since construction. */
    ghost var updates: seq<RuleUpdate>

    ghost predicate Valid()
      reads this
    {
      rules == ApplyUpdates(updates)
    }

    /**
     Creation fails, with a null engine here, when some configured rule lacks an id, a name or a condition.
     The six sectors that every registry starts with have no rules unless they are configured.
     */
    static method Create(initial: seq<Rule>, sectorConfig: Sectors, failClosed: bool) returns (engine: Engine?)
      ensures engine == null <==>
              exists rule | rule in initial :: rule.id == "" || rule.name == "" || rule.condition.Absent?
      ensures engine != null ==>
                && fresh(engine) && engine.Valid()
                && engine.updates == Map((rule: Rule) => Added(rule), initial)
                && engine.failClosed == failClosed
                && (forall sector | sector in sectorConfig ::
                      sector in engine.sectors && engine.sectors[sector] == sectorConfig[sector])
                && (forall sector | sector !in sectorConfig ::
                      if sector in {"general", "healthcare", "finance", "education", "energy", "government"}
                      then sector in engine.sectors && engine.sectors[sector] == []
                      else sector !in engine.sectors)
    {
      if ValidConfig(initial) {
        engine := new Engine(initial, sectorConfig, failClosed);
      } else {
        engine := null;
      }
    }

    constructor (initial: seq<Rule>, sectorConfig: Sectors, failClosed: bool)
      requires ValidConfig(initial)
      ensures Valid() && updates == Map((rule: Rule) => Added(rule), initial)
      ensures sectors == DEFAULT_SECTORS + sectorConfig && this.failClosed == failClosed
    {
      this.failClosed := failClosed;
      sectors := DEFAULT_SECTORS + sectorConfig;
      rules := [];
      updates := [];
      new;
      ghost var all := Map((rule: Rule) => Added(rule), initial);
      for i := 0 to |initial|
        invariant Valid() && updates == all[..i]
        invariant sectors == DEFAULT_SECTORS + sectorConfig
      {
        var ok := AddRule(initial[i]);
        assert all[..i + 1] == all[..i] + [Added(initial[i])];
      }
      assert all[..|initial|] == all;
    }

    method AddRule(rule: Rule) returns (ok: bool)
      requires Valid()
      modifies this`rules, this`updates
      ensures Valid()
      ensures ok <==> rule.id != ""
      ensures rules == if ok then Set(old(rules), rule.id, rule) else old(rules)
      ensures updates == old(updates) + [Added(rule)]
    {
      ok := rule.id != "";
      if ok {
        rules := Set(rules, rule.id, rule);
      }
      updates := updates + [Added(rule)];
      assert updates[..|updates| - 1] == old(updates);
    }

    method RemoveRule(id: string)
      requires Valid()
      modifies this`rules, this`updates
      ensures Valid()
      ensures rules == Delete(old(rules), id)
      ensures updates == old(updates) + [Removed(id)]
    {
      rules := Delete(rules, id);
      updates := updates + [Removed(id)];
      assert updates[..|updates| - 1] == old(updates);
    }

    method EvaluateContext(context: Option<Context>, regex: Regex) returns (d: Outcome<Decision>)
      requires Valid()
      ensures d == Evaluate(failClosed, Values(rules), sectors, context, regex)
      ensures failClosed ==> d.Returned?
    {
      d := Evaluate(failClosed, Values(rules), sectors, context, regex);
    }
  }
}
