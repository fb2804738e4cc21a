/** Condition trees, rules and overrides of the Gate 530 rule engine. */
module Gate530Rules {
  import opened Wrappers
  import opened Seqs

  // ------------------------------------------------------------ JavaScript values

  /**
   A JavaScript value. Arrays and objects carry their identity, because the strict
   equality operator compares identities; `props` lists every readable property.
   */
  datatype Value =
    | Undefined
    | Null
    | Bool(b: bool)
    | Num(n: real)
    | Str(s: string)
    | Arr(ref: nat, items: seq<Value>, props: map<string, Value>)
    | Obj(ref: nat, props: map<string, Value>)
  {
    predicate IsReference() {
      Arr? || Obj?
    }

    function Property(name: string): Value
      requires IsReference()
    {
      if name in props then props[name] else Undefined
    }
  }

  /** The strict equality operator. */
  predicate StrictEquals(a: Value, b: Value) {
    if a.IsReference() && b.IsReference() then a.Arr? == b.Arr? && a.ref == b.ref else a == b
  }

  predicate IsSubstring(part: string, whole: string) {
    exists i | 0 <= i <= |whole| :: part <= whole[i..]
  }

  // ------------------------------------------------------------ conditions

  /**
   A node of a condition tree. An absent node, an absent field and the logical operator
   "" stand for what a rule loaded from JSON may leave out.
   */
  datatype Condition =
    | Absent
    | Node(operator: string, field: Option<string>, value: Value,
           conditions: Children, logical: string)

  /** The optional list of child conditions. */
  datatype Children = NoChildren | Children(list: seq<Condition>)

  /** The evaluation context; `root` is the context as resolveField walks it. */
  datatype Context = Context(sector: string, hasMetadata: bool, root: Value)

  /** The regular expression test, on pattern and text; false for a pattern that does not compile. */
  type Regex = (string, string) -> bool

  datatype Evaluation = Throws | Holds(holds: bool)

  function Split(s: string): (r: seq<string>)
    ensures r != []
  {
    if s == "" then [""]
    else
      var r := Split(s[1..]);
      if s[0] == '.' then [""] + r else [[s[0]] + r[0]] + r[1..]
  }

  function Join(parts: seq<string>): string
    requires parts != []
  {
    if |parts| == 1 then parts[0] else parts[0] + "." + Join(parts[1..])
  }

  /** Splitting loses nothing and leaves no dot in a part. */
  lemma {:induction false} SplitJoin(s: string)
    ensures Join(Split(s)) == s
    ensures forall part | part in Split(s) :: '.' !in part
  {
    if s == "" {
    } else {
      SplitJoin(s[1..]);
      var r := Split(s[1..]);
      assert s == [s[0]] + s[1..];
      if s[0] == '.' {
        assert Split(s)[1..] == r;
      } else {
        assert Split(s)[1..] == r[1..];
      }
    }
  }

  lemma {:induction false} SplitNoDot(s: string)
    requires '.' !in s
    ensures Split(s) == [s]
  {
    if s == "" {
    } else {
      SplitNoDot(s[1..]);
      assert s == [s[0]] + s[1..];
    }
  }

  /** Where a path of property names leads. */
  function Follow(parts: seq<string>, v: Value): Value {
    if parts == [] then v
    else if v.IsReference() then Follow(parts[1..], v.Property(parts[0]))
    else Undefined
  }

  method ResolveField(field: string, context: Context) returns (current: Value)
    ensures current == Follow(Split(field), context.root)
  {
    var parts := Split(field);
    current := context.root;
    var i := 0;
    while i < |parts|
      invariant 0 <= i <= |parts|
      invariant Follow(parts[i..], current) == Follow(parts, context.root)
    {
      if current.IsReference() {
        current := current.Property(parts[i]);
      } else {
        return Undefined;
      }
      i := i + 1;
    }
  }

  /** What a leaf compares, once its field has been resolved. */
  predicate Compare(operator: string, value: Value, expected: Value, regex: Regex) {
    match operator
    case "eq" => StrictEquals(value, expected)
    case "ne" => !StrictEquals(value, expected)
    case "gt" => value.Num? && expected.Num? && value.n > expected.n
    case "lt" => value.Num? && expected.Num? && value.n < expected.n
    case "gte" => value.Num? && expected.Num? && value.n >= expected.n
    case "lte" => value.Num? && expected.Num? && value.n <= expected.n
    case "in" => expected.Arr? && exists i | 0 <= i < |expected.items| :: StrictEquals(expected.items[i], value)
    case "contains" => value.Str? && expected.Str? && IsSubstring(expected.s, value.s)
    case "regex" => value.Str? && expected.Str? && regex(expected.s, value.s)
    case "exists" => !value.Undefined? && !value.Null?
    case _ => false
  }

  predicate IsGroup(c: Condition) {
    c.Node? && c.logical != "" && c.conditions.Children?
  }

  function EvaluateSimpleCondition(c: Condition, context: Context, regex: Regex): Evaluation
    requires c.Node?
  {
    if c.field.None? then Throws
    else Holds(Compare(c.operator, Follow(Split(c.field.value), context.root), c.value, regex))
  }

  function EvaluateCondition(c: Condition, context: Context, regex: Regex): Evaluation
    decreases c, 1
  {
    if c.Absent? then Throws
    else if IsGroup(c) then
      var results := EvaluateConditions(c.conditions.list, context, regex);
      if results.None? then Throws
      else if c.logical == "and" then Holds(forall i | 0 <= i < |results.value| :: results.value[i])
      else Holds(exists i | 0 <= i < |results.value| :: results.value[i])
    else EvaluateSimpleCondition(c, context, regex)
  }

  /** Every child is evaluated, in order; none is skipped once the answer is known. */
  function EvaluateConditions(cs: seq<Condition>, context: Context, regex: Regex): Option<seq<bool>>
    decreases cs, 0
  {
    if cs == [] then Some([])
    else
      var first := EvaluateCondition(cs[0], context, regex);
      if first.Throws? then None
      else
        var rest := EvaluateConditions(cs[1..], context, regex);
        if rest.None? then None else Some([first.holds] + rest.value)
  }

  /** Some leaf that can be reached through groups has no field, or some node is missing. */
  ghost predicate Malformed(c: Condition) {
    c.Absent? ||
    if c.logical != "" && c.conditions.Children?
    then exists i | 0 <= i < |c.conditions.list| :: Malformed(c.conditions.list[i])
    else c.field.None?
  }

  /** The truth value of a condition tree, read declaratively. */
  ghost predicate Satisfied(c: Condition, context: Context, regex: Regex) {
    c.Node? &&
    if c.logical != "" && c.conditions.Children? then
      if c.logical == "and"
      then forall i | 0 <= i < |c.conditions.list| :: Satisfied(c.conditions.list[i], context, regex)
      else exists i | 0 <= i < |c.conditions.list| :: Satisfied(c.conditions.list[i], context, regex)
    else
      c.field.Some? && Compare(c.operator, Follow(Split(c.field.value), context.root), c.value, regex)
  }

  /**
   A tree throws exactly when it is malformed, wherever the bad leaf sits and whatever its
   siblings say; otherwise it yields its declarative truth value.
   */
  lemma {:induction false} EvaluateConditionMeaning(c: Condition, context: Context, regex: Regex)
    ensures EvaluateCondition(c, context, regex) ==
            if Malformed(c) then Throws else Holds(Satisfied(c, context, regex))
    decreases c, 1
  {
    if IsGroup(c) {
      var cs := c.conditions.list;
      EvaluateConditionsMeaning(cs, context, regex);
      forall i | 0 <= i < |cs|
        ensures EvaluateCondition(cs[i], context, regex) ==
                if Malformed(cs[i]) then Throws else Holds(Satisfied(cs[i], context, regex))
      {
        EvaluateConditionMeaning(cs[i], context, regex);
      }
    }
  }

  lemma {:induction false} EvaluateConditionsMeaning(cs: seq<Condition>, context: Context, regex: Regex)
    ensures var r := EvaluateConditions(cs, context, regex);
            && (r.None? <==> exists i | 0 <= i < |cs| :: EvaluateCondition(cs[i], context, regex).Throws?)
            && (r.Some? ==> |r.value| == |cs| &&
                            forall i | 0 <= i < |cs| :: EvaluateCondition(cs[i], context, regex) == Holds(r.value[i]))
  {
    if cs == [] {
    } else {
      EvaluateConditionsMeaning(cs[1..], context, regex);
    }
  }

  /** Where a path leads: nowhere new when it is empty, else through the property that it names first. */
  lemma {:induction false} FollowPath(parts: seq<string>, name: string, v: Value)
    ensures Follow([], v) == v
    ensures Follow(parts + [name], v) ==
            var at := Follow(parts, v);
            if (at.Arr? || at.Obj?) && name in at.props then at.props[name] else Undefined
  {
    if parts == [] {
      assert parts + [name] == [name] && [name][1..] == [];
    } else {
      assert (parts + [name])[1..] == parts[1..] + [name];
      if v.IsReference() {
        FollowPath(parts[1..], name, v.Property(parts[0]));
      }
    }
  }

  /** The same value: arrays and objects by identity, all others by what they are. */
  ghost predicate Same(v: Value, e: Value) {
    || (v.Arr? && e.Arr? && v.ref == e.ref)
    || (v.Obj? && e.Obj? && v.ref == e.ref)
    || (!v.Arr? && !v.Obj? && v == e)
  }

  /** What each operator asks of the value that a leaf's field leads to and of the value it expects. */
  lemma LeafMeaning(c: Condition, context: Context, regex: Regex)
    requires c.Node? && (c.logical == "" || c.conditions.NoChildren?) && c.field.Some?
    ensures EvaluateCondition(c, context, regex).Holds?
    ensures var holds := EvaluateCondition(c, context, regex).holds;
            var (v, e) := (Follow(Split(c.field.value), context.root), c.value);
            var numbers := v.Num? && e.Num?;
            && (c.operator == "eq" ==> (holds <==> Same(v, e)))
            && (c.operator == "ne" ==> (holds <==> !Same(v, e)))
            && (c.operator == "gt" ==> (holds <==> numbers && v.n > e.n))
            && (c.operator == "lt" ==> (holds <==> numbers && v.n < e.n))
            && (c.operator == "gte" ==> (holds <==> numbers && v.n >= e.n))
            && (c.operator == "lte" ==> (holds <==> numbers && v.n <= e.n))
            && (c.operator == "in" ==> (holds <==> e.Arr? && exists x | x in e.items :: Same(x, v)))
            && (c.operator == "contains" ==>
                  (holds <==> v.Str? && e.Str? && exists a, b :: v.s == a + e.s + b))
            && (c.operator == "regex" ==> (holds <==> v.Str? && e.Str? && regex(e.s, v.s)))
            && (c.operator == "exists" ==> (holds <==> !v.Undefined? && !v.Null?))
            && (c.operator !in {"eq", "ne", "gt", "lt", "gte", "lte", "in", "contains", "regex", "exists"} ==> !holds)
  {
    var v, e := Follow(Split(c.field.value), context.root), c.value;
    if c.operator == "in" && e.Arr? {
      InMeaning(v, e.items);
    }
    if c.operator == "contains" && v.Str? && e.Str? {
      SubstringMeaning(e.s, v.s);
    }
  }

  lemma InMeaning(v: Value, items: seq<Value>)
    ensures (exists i | 0 <= i < |items| :: StrictEquals(items[i], v)) <==> exists x | x in items :: Same(x, v)
  {
    if i :| 0 <= i < |items| && StrictEquals(items[i], v) {
      assert items[i] in items && Same(items[i], v);
    }
  }

  lemma SubstringMeaning(part: string, whole: string)
    ensures IsSubstring(part, whole) <==> exists a, b :: whole == a + part + b
  {
    if i :| 0 <= i <= |whole| && part <= whole[i..] {
      assert whole == whole[..i] + part + whole[i + |part|..];
    }
    if a, b :| whole == a + part + b {
      assert whole[|a|..] == part + b;
    }
  }

  // ------------------------------------------------------------ rules

  datatype Action = Allow | Deny | Escalate | Unrecognised

  type Dimension = string

  /** A policy rule; the sector is "" when the rule has none. */
  datatype Rule = Rule(
    id: string, name: string, dimension: Dimension, priority: real, condition: Condition,
    sector: string, action: Action, overrides: seq<string>, enabled: bool)

  predicate MatchSector(rule: Rule, context: Context) {
    rule.sector == "" || rule.sector == context.sector || rule.sector == "general"
  }

  function EvaluateRule(rule: Rule, context: Context, regex: Regex): Evaluation {
    if !rule.enabled then Holds(false)
    else if !MatchSector(rule, context) then Holds(false)
    else EvaluateCondition(rule.condition, context, regex)
  }

  predicate HigherPriority(a: Rule, b: Rule) {
    b.priority - a.priority < 0.0
  }

  lemma PriorityIsWeakOrder()
    ensures StrictWeakOrder(HigherPriority)
  {
  }

  function SortByPriority(rules: seq<Rule>): seq<Rule> {
    Sort(HigherPriority, rules)
  }

  /** Every id that some rule of the list overrides. */
  function OverriddenIds(rules: seq<Rule>): (r: set<string>)
  {
    set i, j | 0 <= i < |rules| && 0 <= j < |rules[i].overrides| :: rules[i].overrides[j]
  }

  function NotIn(ids: set<string>): Rule -> bool {
    (rule: Rule) => rule.id !in ids
  }

  function ApplyOverrides(rules: seq<Rule>): seq<Rule> {
    Filter(NotIn(OverriddenIds(rules)), rules)
  }

  method ApplyOverridesLoop(rules: seq<Rule>) returns (kept: seq<Rule>)
    ensures kept == ApplyOverrides(rules)
  {
    var overridden: set<string> := {};
    for i := 0 to |rules|
      invariant overridden == OverriddenIds(rules[..i])
    {
      for j := 0 to |rules[i].overrides|
        invariant overridden == OverriddenIds(rules[..i]) + set x | x in rules[i].overrides[..j]
      {
        overridden := overridden + {rules[i].overrides[j]};
      }
      OverriddenIdsSnoc(rules[..i], rules[i]);
      assert rules[..i + 1] == rules[..i] + [rules[i]];
      assert rules[i].overrides[..|rules[i].overrides|] == rules[i].overrides;
    }
    assert rules[..|rules|] == rules;
    kept := Filter(NotIn(overridden), rules);
  }

  lemma OverriddenIdsIn(rules: seq<Rule>, id: string)
    ensures id in OverriddenIds(rules) <==> exists rule | rule in rules :: id in rule.overrides
  {
    if rule :| rule in rules && id in rule.overrides {
      var i :| 0 <= i < |rules| && rules[i] == rule;
      var j :| 0 <= j < |rule.overrides| && rule.overrides[j] == id;
      assert rules[i].overrides[j] == id;
    }
  }

  /** The rules whose id no rule of the list overrides. */
  lemma ApplyOverridesKeeps(rules: seq<Rule>)
    ensures ApplyOverrides(rules) ==
            Filter((rule: Rule) => forall other | other in rules :: rule.id !in other.overrides, rules)
  {
    forall rule: Rule
      ensures NotIn(OverriddenIds(rules))(rule) == forall other | other in rules :: rule.id !in other.overrides
    {
      OverriddenIdsIn(rules, rule.id);
    }
    FilterAgree(NotIn(OverriddenIds(rules)),
                (rule: Rule) => forall other | other in rules :: rule.id !in other.overrides, rules);
  }

  lemma OverriddenIdsSnoc(rules: seq<Rule>, rule: Rule)
    ensures OverriddenIds(rules + [rule]) == OverriddenIds(rules) + set x | x in rule.overrides
  {
    forall id
      ensures id in OverriddenIds(rules + [rule]) <==> id in OverriddenIds(rules) || id in rule.overrides
    {
      OverriddenIdsIn(rules + [rule], id);
      OverriddenIdsIn(rules, id);
    }
  }

  lemma OverriddenIdsSameElements(a: seq<Rule>, b: seq<Rule>)
    requires forall rule :: rule in a <==> rule in b
    ensures OverriddenIds(a) == OverriddenIds(b)
  {
    forall id
      ensures id in OverriddenIds(a) <==> id in OverriddenIds(b)
    {
      OverriddenIdsIn(a, id);
      OverriddenIdsIn(b, id);
    }
  }

  /** A second pass of overrides removes nothing more. */
  lemma ApplyOverridesIdempotent(rules: seq<Rule>)
    ensures ApplyOverrides(ApplyOverrides(rules)) == ApplyOverrides(rules)
  {
    var once := ApplyOverrides(rules);
    forall rule | rule in once
      ensures rule.id !in OverriddenIds(once)
    {
      OverriddenIdsIn(once, rule.id);
      OverriddenIdsIn(rules, rule.id);
    }
    FilterAll(NotIn(OverriddenIds(once)), once);
  }

  /** It does not matter whether overrides are applied before or after the priority sort. */
  lemma ApplyOverridesCommutesWithSort(rules: seq<Rule>)
    ensures ApplyOverrides(SortByPriority(rules)) == SortByPriority(ApplyOverrides(rules))
  {
    PriorityIsWeakOrder();
    SortPermutes(HigherPriority, rules);
    OverriddenIdsSameElements(SortByPriority(rules), rules);
    FilterSort(HigherPriority, NotIn(OverriddenIds(rules)), rules);
  }
}
