/** The policy layer: a mutable store per tenant behind a cache with a time to live. */
module Policies {
  import opened Wrappers
  import opened Seqs

  datatype Effect = AllowEffect | DenyEffect

  datatype Policy = Policy(id: string, name: string, sector: string, action: string, effect: Effect, priority: real)

  type Store = map<string, seq<Policy>>

  function DefaultPolicies(defaultEffect: Effect): seq<Policy> {
    [Policy("default-deny", "Default Deny", "*", "*", defaultEffect, 0.0)]
  }

  /** A tenant whose rules were all deleted keeps an empty list; it does not fall back to the default. */
  function TenantPolicies(store: Store, tenant: string, defaultEffect: Effect): seq<Policy> {
    if tenant in store then store[tenant] else DefaultPolicies(defaultEffect)
  }

  function ForSector(sector: string): Policy -> bool {
    (p: Policy) => p.sector == "*" || p.sector == sector
  }

  function ForAction(action: string): Policy -> bool {
    (p: Policy) => p.action == "*" || p.action == action
  }

  function Select(policies: seq<Policy>, sector: string, action: string): seq<Policy> {
    Filter(ForAction(action), Filter(ForSector(sector), policies))
  }

  /** A request without a tenant, or with an empty one, is served the rules of "global". */
  function TenantOf(tenantId: Option<string>): string {
    if tenantId.None? || tenantId.value == "" then "global" else tenantId.value
  }

  // ------------------------------------------------------------ cache keys

  function CacheKey(tenant: string, sector: string, action: string): string {
    tenant + ":" + sector + ":" + action
  }

  lemma FirstColon(a: string, b: string, x: string, y: string)
    requires ':' !in a && ':' !in b
    requires a + ":" + x == b + ":" + y
    ensures a == b && x == y
  {
    var s := a + ":" + x;
    assert s[|a|] == ':' && s[|b|] == ':';
    assert forall i | 0 <= i < |a| :: s[i] == a[i];
    assert forall i | 0 <= i < |b| :: s[i] == b[i];
    assert |a| == |b|;
    assert a == s[..|a|] && x == s[|a| + 1..];
    assert b == s[..|a|] && y == s[|a| + 1..];
  }

  /** Without colons in tenants and sectors, a cache key names one tenant, sector and action. */
  lemma CacheKeyInjective(t: string, s: string, a: string, t': string, s': string, a': string)
    requires ':' !in t && ':' !in s && ':' !in t' && ':' !in s'
    requires CacheKey(t, s, a) == CacheKey(t', s', a')
    ensures t == t' && s == s' && a == a'
  {
    assert CacheKey(t, s, a) == t + ":" + (s + ":" + a);
    assert CacheKey(t', s', a') == t' + ":" + (s' + ":" + a');
    FirstColon(t, t', s + ":" + a, s' + ":" + a');
    FirstColon(s, s', a, a');
  }

  lemma HasColon(t: string, s: string, a: string)
    ensures ':' in CacheKey(t, s, a)
  {
    assert CacheKey(t, s, a)[|t|] == ':';
  }

  /** Another request, whose tenant is not empty either, has the same key. */
  ghost predicate SharesKey(t: string, s: string, a: string, t': string, s': string, a': string) {
    t' != "" && CacheKey(t, s, a) == CacheKey(t', s', a') && (t, s, a) != (t', s', a')
  }

  /** Moving a colon from one part to the next gives another request with the key. */
  lemma ColonIsShared(t: string, s: string, a: string) returns (t': string, s': string, a': string)
    requires t != "" && (':' in t[1..] || ':' in s || ':' in a)
    ensures SharesKey(t, s, a, t', s', a')
  {
    if ':' in t[1..] {
      var i :| 0 <= i < |t| - 1 && t[1..][i] == ':';
      assert t == t[..i + 1] + ":" + t[i + 2..];
      t', s', a' := t[..i + 1], t[i + 2..], s + ":" + a;
    } else if ':' in s {
      var i :| 0 <= i < |s| && s[i] == ':';
      assert s == s[..i] + ":" + s[i + 1..];
      t', s', a' := t, s[..i], s[i + 1..] + ":" + a;
    } else {
      var i :| 0 <= i < |a| && a[i] == ':';
      assert a == a[..i] + ":" + a[i + 1..];
      t', s', a' := t + ":" + s, a[..i], a[i + 1..];
    }
  }

  lemma OnlyKey(t: string, s: string, a: string, t': string, s': string, a': string)
    requires t != "" && ':' !in t[1..] && ':' !in s && ':' !in a
    requires t' != "" && CacheKey(t, s, a) == CacheKey(t', s', a')
    ensures (t, s, a) == (t', s', a')
  {
    assert CacheKey(t, s, a)[1..] == CacheKey(t[1..], s, a);
    assert CacheKey(t', s', a')[1..] == CacheKey(t'[1..], s', a');
    TwoColons(t[1..], s, a, t'[1..], s', a');
    assert t[0] == CacheKey(t, s, a)[0] == t'[0];
    assert t == [t[0]] + t[1..] && t' == [t'[0]] + t'[1..];
  }

  /** Another request shares the key exactly when there is a colon, other than at the start of the tenant. */
  lemma KeyIsSharedIffColon(t: string, s: string, a: string)
    requires t != ""
    ensures (exists t', s', a' :: SharesKey(t, s, a, t', s', a')) <==> ':' in t[1..] || ':' in s || ':' in a
  {
    if ':' in t[1..] || ':' in s || ':' in a {
      var t', s', a' := ColonIsShared(t, s, a);
    } else if t', s', a' :| SharesKey(t, s, a, t', s', a') {
      OnlyKey(t, s, a, t', s', a');
    }
  }

  /** A key built from colon-free parts has two colons, so it splits in one way only. */
  lemma TwoColons(t: string, s: string, a: string, t': string, s': string, a': string)
    requires ':' !in t && ':' !in s && ':' !in a
    requires CacheKey(t, s, a) == CacheKey(t', s', a')
    ensures t == t' && s == s' && a == a'
  {
    var k := CacheKey(t, s, a);
    assert k[|t'|] == ':' && k[|t'| + 1 + |s'|] == ':';
    ColonPosition(t, s, a, |t'|);
    ColonPosition(t, s, a, |t'| + 1 + |s'|);
    assert t' == k[..|t|] == t;
    assert s' == k[|t| + 1..|t| + 1 + |s|] == s;
    assert a' == k[|t| + |s| + 2..] == a;
  }

  lemma ColonPosition(t: string, s: string, a: string, i: nat)
    requires ':' !in t && ':' !in s && ':' !in a
    requires i < |CacheKey(t, s, a)| && CacheKey(t, s, a)[i] == ':'
    ensures i == |t| || i == |t| + 1 + |s|
  {
    var k := CacheKey(t, s, a);
    assert forall j | 0 <= j < |t| :: k[j] == t[j];
    assert forall j | 0 <= j < |s| :: k[|t| + 1 + j] == s[j];
    assert forall j | 0 <= j < |a| :: k[|t| + |s| + 2 + j] == a[j];
  }

  // ------------------------------------------------------------ steps of the layer

  datatype Config = Config(cacheEnabled: bool, cacheTtlMs: int, defaultEffect: Effect)

  /**
   A reference to a JavaScript array of policies: its place in the layer's `arrays`. The store and
   the cache hold references, so an array changed in place changes for everyone who holds it.
   */
  type Ref = nat

  datatype CacheEntry = CacheEntry(rules: Ref, expiresAt: int)

  datatype State = State(arrays: seq<seq<Policy>>, store: map<string, Ref>, cache: map<string, CacheEntry>) {
    /** No reference dangles. */
    ghost predicate WellFormed() {
      && (forall t | t in store :: store[t] < |arrays|)
      && (forall k | k in cache :: cache[k].rules < |arrays|)
    }

    /** The rules that each tenant's array holds. */
    ghost function Contents(): Store
      requires WellFormed()
    {
      map t | t in store :: arrays[store[t]]
    }
  }

  const EMPTY := State([], map[], map[])

  function Stored(rules: seq<Policy>, rule: Policy): seq<Policy> {
    if rules == [] then [rule]
    else if rules[0].id == rule.id then [rule] + rules[1..]
    else [rules[0]] + Stored(rules[1..], rule)
  }

  function OtherThan(id: string): Policy -> bool {
    (p: Policy) => p.id != id
  }

  method FindIndex(rules: seq<Policy>, id: string) returns (index: int)
    ensures -1 <= index < |rules|
    ensures index == -1 ==> forall i | 0 <= i < |rules| :: rules[i].id != id
    ensures index != -1 ==> rules[index].id == id && forall i | 0 <= i < index :: rules[i].id != id
  {
    for i := 0 to |rules|
      invariant forall j | 0 <= j < i :: rules[j].id != id
    {
      if rules[i].id == id {
        return i;
      }
    }
    return -1;
  }

  lemma {:induction false} StoredAt(rules: seq<Policy>, rule: Policy, index: nat)
    requires index <= |rules| && (index < |rules| ==> rules[index].id == rule.id)
    requires forall i | 0 <= i < index :: rules[i].id != rule.id
    ensures Stored(rules, rule) == if index < |rules| then rules[index := rule] else rules + [rule]
  {
    if index > 0 {
      StoredAt(rules[1..], rule, index - 1);
      assert rules == [rules[0]] + rules[1..];
      if index < |rules| {
        assert rules[index := rule] == [rules[0]] + rules[1..][index - 1 := rule];
      } else {
        assert rules + [rule] == [rules[0]] + (rules[1..] + [rule]);
      }
    } else if rules != [] {
      assert rules[0 := rule] == [rule] + rules[1..];
    }
  }

  lemma {:induction false} FilterShorter<T>(p: T -> bool, s: seq<T>)
    ensures |Filter(p, s)| == |s| <==> forall x | x in s :: p(x)
  {
    if s == [] {
    } else {
      FilterShorter(p, s[1..]);
      assert s == [s[0]] + s[1..];
    }
  }

  /** The clock is read twice by a load: to judge a cached entry, and to date a new one. */
  datatype Op =
    | Load(tenantId: Option<string>, sector: string, action: string, now: int, later: int)
    | CacheTenant(tenant: string, now: int)
    | StoreRule(tenant: string, rule: Policy, now: int)
    | DeleteRule(tenant: string, ruleId: string, now: int)

  function KeyOf(op: Op): string
    requires op.Load?
  {
    CacheKey(TenantOf(op.tenantId), op.sector, op.action)
  }

  ghost predicate IsHit(config: Config, s: State, op: Op)
    requires op.Load?
  {
    config.cacheEnabled && KeyOf(op) in s.cache && op.now < s.cache[KeyOf(op)].expiresAt
  }

  ghost function Selected(config: Config, contents: Store, op: Op): seq<Policy>
    requires op.Load?
  {
    Select(TenantPolicies(contents, TenantOf(op.tenantId), config.defaultEffect), op.sector, op.action)
  }

  ghost function LoadStep(config: Config, s: State, op: Op): (s': State)
    requires s.WellFormed() && op.Load?
    ensures s'.WellFormed()
  {
    if IsHit(config, s, op) then s
    else
      State(s.arrays + [Selected(config, s.Contents(), op)], s.store,
            if config.cacheEnabled
            then s.cache[KeyOf(op) := CacheEntry(|s.arrays|, op.later + config.cacheTtlMs)]
            else s.cache)
  }

  /** The array that a load returns. */
  ghost function Loaded(config: Config, s: State, op: Op): (r: Ref)
    requires s.WellFormed() && op.Load?
    ensures r < |LoadStep(config, s, op).arrays|
  {
    if IsHit(config, s, op) then s.cache[KeyOf(op)].rules else |s.arrays|
  }

  /** Caches the tenant's own array under the bare tenant name. */
  ghost function CacheStep(config: Config, s: State, tenant: string, now: int): (s': State)
    requires s.WellFormed()
    ensures s'.WellFormed()
  {
    if tenant in s.store
    then s.(cache := s.cache[tenant := CacheEntry(s.store[tenant], now + config.cacheTtlMs)])
    else State(s.arrays + [[]], s.store, s.cache[tenant := CacheEntry(|s.arrays|, now + config.cacheTtlMs)])
  }

  /** Replaces the rule with that id in its slot, or appends it, in the tenant's own array. */
  ghost function PutStep(s: State, tenant: string, rule: Policy): (s': State)
    requires s.WellFormed()
    ensures s'.WellFormed()
  {
    if tenant in s.store
    then s.(arrays := s.arrays[s.store[tenant] := Stored(s.arrays[s.store[tenant]], rule)])
    else State(s.arrays + [[rule]], s.store[tenant := |s.arrays|], s.cache)
  }

  ghost predicate HasRule(s: State, tenant: string, ruleId: string)
    requires s.WellFormed()
  {
    tenant in s.store && exists i | 0 <= i < |s.arrays[s.store[tenant]]| :: s.arrays[s.store[tenant]][i].id == ruleId
  }

  /** Removes the rules with that id by installing a new array; the old one is left as it was. */
  ghost function DeleteStep(s: State, tenant: string, ruleId: string): (s': State)
    requires s.WellFormed()
    ensures s'.WellFormed()
  {
    if !HasRule(s, tenant, ruleId) then s
    else State(s.arrays + [Filter(OtherThan(ruleId), s.arrays[s.store[tenant]])],
               s.store[tenant := |s.arrays|], s.cache - {tenant})
  }

  ghost function Step(config: Config, s: State, op: Op): (s': State)
    requires s.WellFormed()
    ensures s'.WellFormed()
  {
    match op
    case Load(_, _, _, _, _) => LoadStep(config, s, op)
    case CacheTenant(tenant, now) => CacheStep(config, s, tenant, now)
    case StoreRule(tenant, rule, now) => CacheStep(config, PutStep(s, tenant, rule), tenant, now)
    case DeleteRule(tenant, ruleId, _) => DeleteStep(s, tenant, ruleId)
  }

  ghost function Run(config: Config, ops: seq<Op>): (s: State)
    ensures s.WellFormed()
  {
    if ops == [] then EMPTY else Step(config, Run(config, ops[..|ops| - 1]), ops[|ops| - 1])
  }

  ghost predicate ColonFree(op: Op) {
    match op
    case Load(tenantId, sector, _, _, _) => ':' !in TenantOf(tenantId) && ':' !in sector
    case CacheTenant(tenant, _) => ':' !in tenant
    case StoreRule(tenant, _, _) => ':' !in tenant
    case DeleteRule(tenant, _, _) => ':' !in tenant
  }

  // ------------------------------------------------------------ every run

  lemma RunNext(config: Config, ops: seq<Op>, op: Op)
    ensures Run(config, ops + [op]) == Step(config, Run(config, ops), op)
  {
    assert (ops + [op])[..|ops|] == ops;
  }

  /** Tenants do not share an array. */
  ghost predicate Apart(s: State) {
    forall t, u | t in s.store && u in s.store && t != u :: s.store[t] != s.store[u]
  }

  ghost predicate Separate(s: State) {
    Apart(s) && forall t | t in s.store :: ':' !in t
  }

  lemma StepApart(config: Config, s: State, op: Op)
    requires s.WellFormed() && Apart(s)
    ensures Apart(Step(config, s, op))
  {
  }

  lemma {:induction false} RunApart(config: Config, ops: seq<Op>)
    ensures Apart(Run(config, ops))
  {
    if ops == [] {
    } else {
      RunApart(config, ops[..|ops| - 1]);
      StepApart(config, Run(config, ops[..|ops| - 1]), ops[|ops| - 1]);
    }
  }

  // ------------------------------------------------------------ what each operation does to the rules

  /** The rule takes the place of the first one with its id, or comes last if there is none. */
  ghost predicate ReplacesOrAppends(rules: seq<Policy>, rule: Policy, rules': seq<Policy>) {
    || (exists k | 0 <= k < |rules| ::
          rules[k].id == rule.id && (forall j | 0 <= j < k :: rules[j].id != rule.id) && rules' == rules[k := rule])
    || ((forall p | p in rules :: p.id != rule.id) && rules' == rules + [rule])
  }

  lemma StoredReplaces(rules: seq<Policy>, rule: Policy)
    ensures ReplacesOrAppends(rules, rule, Stored(rules, rule))
  {
    var k := 0;
    while k < |rules| && rules[k].id != rule.id
      invariant 0 <= k <= |rules| && forall j | 0 <= j < k :: rules[j].id != rule.id
    {
      k := k + 1;
    }
    StoredAt(rules, rule, k);
  }

  /** An array that changes in place changes for its tenant only. */
  lemma ArrayReplaced(s: State, tenant: string, rules: seq<Policy>)
    requires s.WellFormed() && Apart(s) && tenant in s.store
    ensures var s' := s.(arrays := s.arrays[s.store[tenant] := rules]);
            s'.WellFormed() && s'.Contents() == s.Contents()[tenant := rules]
  {
    var after := s.(arrays := s.arrays[s.store[tenant] := rules]).Contents();
    assert after.Keys == s.Contents()[tenant := rules].Keys;
  }

  lemma ArrayAdded(s: State, tenant: string, rules: seq<Policy>)
    requires s.WellFormed()
    ensures var s' := State(s.arrays + [rules], s.store[tenant := |s.arrays|], s.cache);
            s'.WellFormed() && s'.Contents() == s.Contents()[tenant := rules]
  {
    var after := State(s.arrays + [rules], s.store[tenant := |s.arrays|], s.cache).Contents();
    assert after.Keys == s.Contents()[tenant := rules].Keys;
  }

  lemma CacheContents(config: Config, s: State, tenant: string, now: int)
    requires s.WellFormed()
    ensures CacheStep(config, s, tenant, now).Contents() == s.Contents()
  {
  }

  lemma PutContents(config: Config, s: State, op: Op)
    requires s.WellFormed() && Apart(s) && op.StoreRule?
    ensures var rules := if op.tenant in s.store then s.Contents()[op.tenant] else [];
            Step(config, s, op).Contents() == s.Contents()[op.tenant := Stored(rules, op.rule)]
  {
    CacheContents(config, PutStep(s, op.tenant, op.rule), op.tenant, op.now);
    if op.tenant in s.store {
      ArrayReplaced(s, op.tenant, Stored(s.Contents()[op.tenant], op.rule));
    } else {
      ArrayAdded(s, op.tenant, [op.rule]);
    }
  }

  lemma DeleteContents(config: Config, s: State, op: Op)
    requires s.WellFormed() && op.DeleteRule?
    ensures Step(config, s, op).Contents() ==
            if op.tenant !in s.store then s.Contents()
            else s.Contents()[op.tenant := Filter((p: Policy) => p.id != op.ruleId, s.Contents()[op.tenant])]
  {
    var before, after := s.Contents(), Step(config, s, op).Contents();
    if op.tenant in s.store {
      var rules := before[op.tenant];
      FilterAgree(OtherThan(op.ruleId), (p: Policy) => p.id != op.ruleId, rules);
      if !HasRule(s, op.tenant, op.ruleId) {
        forall p: Policy | p in rules
          ensures p.id != op.ruleId
        {
          var i :| 0 <= i < |rules| && rules[i] == p;
        }
        FilterAll((p: Policy) => p.id != op.ruleId, rules);
      }
      assert after.Keys == before.Keys;
    }
  }

  /**
   After any run the rules of the tenants, read through their references, are changed by storing and
   deleting only: one tenant's rule is replaced in its place or appended, or all with an id go.
   */
  lemma RulesAfter(config: Config, ops: seq<Op>, op: Op)
    ensures var (before, after) := (Run(config, ops).Contents(), Run(config, ops + [op]).Contents());
            && (op.Load? || op.CacheTenant? ==> after == before)
            && (op.StoreRule? ==>
                  && op.tenant in after && after == before[op.tenant := after[op.tenant]]
                  && var rules := if op.tenant in before then before[op.tenant] else [];
                     ReplacesOrAppends(rules, op.rule, after[op.tenant]))
            && (op.DeleteRule? && op.tenant !in before ==> after == before)
            && (op.DeleteRule? && op.tenant in before ==>
                  after == before[op.tenant := Filter((p: Policy) => p.id != op.ruleId, before[op.tenant])])
  {
    var s := Run(config, ops);
    RunApart(config, ops);
    RunNext(config, ops, op);
    if op.StoreRule? {
      PutContents(config, s, op);
      StoredReplaces(if op.tenant in s.store then s.Contents()[op.tenant] else [], op.rule);
    } else if op.DeleteRule? {
      DeleteContents(config, s, op);
    } else {
      QuietContents(config, s, op);
    }
  }

  lemma QuietContents(config: Config, s: State, op: Op)
    requires s.WellFormed() && (op.Load? || op.CacheTenant?)
    ensures Step(config, s, op).Contents() == s.Contents()
  {
  }

  ghost predicate Private(s: State, ref: Ref) {
    forall t | t in s.store :: s.store[t] != ref
  }

  /** What is cached under the key is still what load number i of the run selected from the store. */
  ghost predicate ComesFrom(config: Config, ops: seq<Op>, s: State, key: string, i: int)
    requires s.WellFormed() && key in s.cache
  {
    && 0 <= i < |ops| && ops[i].Load? && KeyOf(ops[i]) == key
    && s.cache[key].expiresAt == ops[i].later + config.cacheTtlMs
    && s.arrays[s.cache[key].rules] == Selected(config, Run(config, ops[..i]).Contents(), ops[i])
    && Private(s, s.cache[key].rules)
  }

  ghost predicate Explained(config: Config, ops: seq<Op>, s: State)
    requires s.WellFormed()
  {
    forall key | key in s.cache && ':' in key :: exists i :: ComesFrom(config, ops, s, key, i)
  }

  lemma Later(config: Config, ops: seq<Op>, op: Op, s: State, s': State, key: string, i: int)
    requires s.WellFormed() && s'.WellFormed()
    requires key in s.cache && ComesFrom(config, ops, s, key, i)
    requires key in s'.cache && s'.cache[key] == s.cache[key]
    requires s'.arrays[s.cache[key].rules] == s.arrays[s.cache[key].rules]
    requires Private(s', s.cache[key].rules)
    ensures ComesFrom(config, ops + [op], s', key, i)
  {
    assert (ops + [op])[..i] == ops[..i];
  }

  /** A step that keeps cached arrays, and keeps them out of the store, keeps them explained. */
  lemma StillExplained(config: Config, ops: seq<Op>, op: Op, s: State, s': State)
    requires s.WellFormed() && s'.WellFormed() && Explained(config, ops, s)
    requires forall key | key in s'.cache && ':' in key ::
               && key in s.cache && s'.cache[key] == s.cache[key]
               && s'.arrays[s.cache[key].rules] == s.arrays[s.cache[key].rules]
               && (Private(s, s.cache[key].rules) ==> Private(s', s.cache[key].rules))
    ensures Explained(config, ops + [op], s')
  {
    forall key | key in s'.cache && ':' in key
      ensures exists i :: ComesFrom(config, ops + [op], s', key, i)
    {
      var i :| ComesFrom(config, ops, s, key, i);
      Later(config, ops, op, s, s', key, i);
    }
  }

  lemma LoadExplained(config: Config, ops: seq<Op>, op: Op)
    requires op.Load?
    requires Explained(config, ops, Run(config, ops))
    ensures Explained(config, ops + [op], LoadStep(config, Run(config, ops), op))
  {
    var s := Run(config, ops);
    var s' := LoadStep(config, s, op);
    assert (ops + [op])[..|ops|] == ops;
    forall key | key in s'.cache && ':' in key
      ensures exists i :: ComesFrom(config, ops + [op], s', key, i)
    {
      if key == KeyOf(op) && config.cacheEnabled && !IsHit(config, s, op) {
        assert ComesFrom(config, ops + [op], s', key, |ops|);
      } else {
        var i :| ComesFrom(config, ops, s, key, i);
        Later(config, ops, op, s, s', key, i);
      }
    }
  }

  lemma PutExplained(config: Config, ops: seq<Op>, op: Op, s: State)
    requires op.StoreRule? && ':' !in op.tenant
    requires s.WellFormed() && Separate(s) && Explained(config, ops, s)
    ensures var s' := CacheStep(config, PutStep(s, op.tenant, op.rule), op.tenant, op.now);
            Explained(config, ops + [op], s')
  {
    var s' := CacheStep(config, PutStep(s, op.tenant, op.rule), op.tenant, op.now);
    forall key | key in s'.cache && ':' in key
      ensures exists i :: ComesFrom(config, ops + [op], s', key, i)
    {
      var i :| ComesFrom(config, ops, s, key, i);
      Later(config, ops, op, s, s', key, i);
    }
  }

  lemma DeleteExplained(config: Config, ops: seq<Op>, op: Op, s: State)
    requires op.DeleteRule? && s.WellFormed() && Explained(config, ops, s)
    ensures Explained(config, ops + [op], DeleteStep(s, op.tenant, op.ruleId))
  {
    StillExplained(config, ops, op, s, DeleteStep(s, op.tenant, op.ruleId));
  }

  lemma CacheExplained(config: Config, ops: seq<Op>, op: Op, s: State)
    requires op.CacheTenant? && ':' !in op.tenant && s.WellFormed() && Explained(config, ops, s)
    ensures Explained(config, ops + [op], CacheStep(config, s, op.tenant, op.now))
  {
    StillExplained(config, ops, op, s, CacheStep(config, s, op.tenant, op.now));
  }

  lemma StepSeparate(config: Config, s: State, op: Op)
    requires s.WellFormed() && Separate(s) && ColonFree(op)
    ensures Separate(Step(config, s, op))
  {
  }

  /** Every run of colon-free operations keeps cached lists private and explained. */
  lemma {:induction false} RunExplained(config: Config, ops: seq<Op>)
    requires forall i | 0 <= i < |ops| :: ColonFree(ops[i])
    ensures Separate(Run(config, ops)) && Explained(config, ops, Run(config, ops))
  {
    if ops == [] {
    } else {
      var before, op := ops[..|ops| - 1], ops[|ops| - 1];
      var s := Run(config, before);
      RunExplained(config, before);
      StepSeparate(config, s, op);
      assert ops == before + [op];
      match op
      case Load(_, _, _, _, _) => LoadExplained(config, before, op);
      case CacheTenant(_, _) => CacheExplained(config, before, op, s);
      case StoreRule(_, _, _) => PutExplained(config, before, op, s);
      case DeleteRule(_, _, _) => DeleteExplained(config, before, op, s);
    }
  }

  /**
   What a load selects: from the rules of the request's tenant, or of "global" when it has none, or else
   from the default policy, in stored order, those for its sector or any and for its action or any.
   */
  lemma SelectedAre(config: Config, contents: Store, op: Op)
    requires op.Load?
    ensures var t := if op.tenantId.Some? && op.tenantId.value != "" then op.tenantId.value else "global";
            var rules := if t in contents then contents[t]
                         else [Policy("default-deny", "Default Deny", "*", "*", config.defaultEffect, 0.0)];
            Selected(config, contents, op) ==
            Filter((p: Policy) => p.sector in {"*", op.sector} && p.action in {"*", op.action}, rules)
  {
    var rules := TenantPolicies(contents, TenantOf(op.tenantId), config.defaultEffect);
    FilterFilter(ForAction(op.action), ForSector(op.sector),
                 (p: Policy) => p.sector in {"*", op.sector} && p.action in {"*", op.action}, rules);
  }

  /**
   Whatever ran before, a load returns what the tenant's rules (or the default policy) selected
   at some instant: now (i == |ops|), or when load i ran, less than the time to live ago.
   */
  lemma LoadIsRecent(config: Config, ops: seq<Op>, op: Op) returns (i: nat)
    requires op.Load? && ColonFree(op) && forall i | 0 <= i < |ops| :: ColonFree(ops[i])
    ensures i <= |ops|
    ensures var s := Run(config, ops);
            LoadStep(config, s, op).arrays[Loaded(config, s, op)] ==
            Selected(config, Run(config, ops[..i]).Contents(), op)
    ensures i < |ops| ==> config.cacheEnabled && ops[i].Load? && ops[i].later > op.now - config.cacheTtlMs
  {
    var s := Run(config, ops);
    i := |ops|;
    assert ops[..|ops|] == ops;
    if IsHit(config, s, op) {
      RunExplained(config, ops);
      HasColon(TenantOf(op.tenantId), op.sector, op.action);
      i :| ComesFrom(config, ops, s, KeyOf(op), i);
      CacheKeyInjective(TenantOf(op.tenantId), op.sector, op.action,
                        TenantOf(ops[i].tenantId), ops[i].sector, ops[i].action);
    }
  }

  /** The same, in terms of the rules' own fields: exactly the rules that the request is subject to, in order. */
  lemma LoadReturnsExactly(config: Config, ops: seq<Op>, op: Op) returns (i: nat)
    requires op.Load? && ColonFree(op) && forall i | 0 <= i < |ops| :: ColonFree(ops[i])
    ensures i <= |ops|
    ensures i < |ops| ==> config.cacheEnabled && ops[i].Load? && ops[i].later > op.now - config.cacheTtlMs
    ensures var s, store := Run(config, ops), Run(config, ops[..i]).Contents();
            var t := if op.tenantId.Some? && op.tenantId.value != "" then op.tenantId.value else "global";
            var rules := if t in store then store[t]
                         else [Policy("default-deny", "Default Deny", "*", "*", config.defaultEffect, 0.0)];
            LoadStep(config, s, op).arrays[Loaded(config, s, op)] ==
            Filter((p: Policy) => p.sector in {"*", op.sector} && p.action in {"*", op.action}, rules)
  {
    i := LoadIsRecent(config, ops, op);
    SelectedAre(config, Run(config, ops[..i]).Contents(), op);
  }

  // ------------------------------------------------------------ which loads are always recent

  /** The load returns what was selected at some instant: now, or at a load less than the time to live ago. */
  ghost predicate IsRecent(config: Config, ops: seq<Op>, op: Op, i: nat)
    requires op.Load?
  {
    && i <= |ops|
    && (i < |ops| ==> ops[i].Load? && ops[i].later > op.now - config.cacheTtlMs)
    && var s := Run(config, ops);
       LoadStep(config, s, op).arrays[Loaded(config, s, op)] == Selected(config, Run(config, ops[..i]).Contents(), op)
  }

  /** When the operation has read the clock for the last time. */
  function Ended(op: Op): int {
    if op.Load? then op.later else op.now
  }

  /** The clock never goes back, and has not passed `now` at the end. */
  ghost predicate Ordered(ops: seq<Op>, now: int) {
    && (forall i | 0 <= i < |ops| :: ops[i].now <= Ended(ops[i]) <= now)
    && (forall i, j | 0 <= i < j < |ops| :: Ended(ops[i]) <= ops[j].now)
  }

  ghost predicate AlwaysRecent(config: Config, op: Op)
    requires op.Load?
  {
    forall ops | Ordered(ops, op.now) && (forall i | 0 <= i < |ops| :: ColonFree(ops[i])) ::
      exists i :: IsRecent(config, ops, op, i)
  }

  lemma MissIsRecent(config: Config, ops: seq<Op>, op: Op)
    requires op.Load? && !IsHit(config, Run(config, ops), op)
    ensures IsRecent(config, ops, op, |ops|)
  {
    assert ops[..|ops|] == ops;
  }

  /** No colon-free operation caches under a key that starts with a colon. */
  lemma LeadingColonMisses(config: Config, ops: seq<Op>, op: Op)
    requires op.Load? && TenantOf(op.tenantId)[0] == ':'
    requires forall i | 0 <= i < |ops| :: ColonFree(ops[i])
    ensures !IsHit(config, Run(config, ops), op)
  {
    if IsHit(config, Run(config, ops), op) {
      var i := HitComesFrom(config, ops, op);
      FirstCharacter(ops[i], op);
    }
  }

  lemma FirstCharacter(a: Op, b: Op)
    requires a.Load? && b.Load? && KeyOf(a) == KeyOf(b)
    ensures TenantOf(a.tenantId)[0] == TenantOf(b.tenantId)[0]
  {
    assert KeyOf(a)[0] == TenantOf(a.tenantId)[0] && KeyOf(b)[0] == TenantOf(b.tenantId)[0];
  }

  lemma HitComesFrom(config: Config, ops: seq<Op>, op: Op) returns (i: int)
    requires op.Load? && IsHit(config, Run(config, ops), op)
    requires forall i | 0 <= i < |ops| :: ColonFree(ops[i])
    ensures 0 <= i < |ops| && ops[i].Load? && ComesFrom(config, ops, Run(config, ops), KeyOf(op), i)
  {
    RunExplained(config, ops);
    HasColon(TenantOf(op.tenantId), op.sector, op.action);
    i :| ComesFrom(config, ops, Run(config, ops), KeyOf(op), i);
  }

  /** Without a positive time to live every entry has expired when the next load looks for it. */
  lemma NoTimeToLiveMisses(config: Config, ops: seq<Op>, op: Op)
    requires op.Load? && config.cacheTtlMs <= 0 && Ordered(ops, op.now)
    requires forall i | 0 <= i < |ops| :: ColonFree(ops[i])
    ensures !IsHit(config, Run(config, ops), op)
  {
    if IsHit(config, Run(config, ops), op) {
      var i := HitComesFrom(config, ops, op);
    }
  }

  /** The key of a request with a colon, read as that of a colon-free request. */
  lemma ColonFreeReading(t: string, s: string, a: string) returns (t': string, s': string, a': string)
    requires t != "" && t[0] != ':' && (':' in t || ':' in s)
    ensures CacheKey(t, s, a) == CacheKey(t', s', a')
    ensures t' != "" && ':' !in t' && ':' !in s' && |a'| > |a| && a' != "*"
  {
    var k := t + ":" + s;
    assert k[|t|] == ':';
    t', k := SplitAtColon(k);
    assert t' != "" by {
      assert (t + ":" + s)[0] == t[0];
    }
    if ':' in t {
      assert t' + ":" + k == t + ":" + s;
      TwoColonsLeft(t, s, t', k);
    } else {
      FirstColon(t, t', s, k);
    }
    s', k := SplitAtColon(k);
    a' := k + ":" + a;
    assert a'[|k|] == ':';
    assert CacheKey(t, s, a) == (t + ":" + s) + ":" + a;
    assert CacheKey(t', s', a') == (t' + ":" + (s' + ":" + k)) + ":" + a;
  }

  lemma SplitAtColon(k: string) returns (before: string, after: string)
    requires ':' in k
    ensures k == before + ":" + after && ':' !in before
  {
    var i := 0;
    while k[i] != ':'
      decreases |k| - i
      invariant 0 <= i < |k| && ':' !in k[..i] && ':' in k[i..]
    {
      assert k[i..] == [k[i]] + k[i + 1..] && k[..i + 1] == k[..i] + [k[i]];
      i := i + 1;
    }
    before, after := k[..i], k[i + 1..];
  }

  /** Cutting at the first of two colons leaves the second. */
  lemma TwoColonsLeft(t: string, s: string, before: string, after: string)
    requires ':' in t && ':' !in before && before + ":" + after == t + ":" + s
    ensures ':' in after
  {
    var k := t + ":" + s;
    var i :| 0 <= i < |t| && t[i] == ':';
    assert k[i] == ':' && k[|t|] == ':' && k == before + ":" + after;
    assert forall j | 0 <= j < |before| :: k[j] == before[j];
    assert after[|t| - |before| - 1] == k[|t|];
  }

  /** Storing a rule for the tenant of the colon-free reading, and loading it, caches a foreign list. */
  lemma ColonIsServedForeignRules(config: Config, op: Op) returns (ops: seq<Op>)
    requires op.Load? && config.cacheEnabled && config.cacheTtlMs > 0
    requires var t := TenantOf(op.tenantId); t[0] != ':' && (':' in t || ':' in op.sector)
    ensures Ordered(ops, op.now) && forall i | 0 <= i < |ops| :: ColonFree(ops[i])
    ensures forall i: nat :: !IsRecent(config, ops, op, i)
  {
    var t, s, a := ColonFreeReading(TenantOf(op.tenantId), op.sector, op.action);
    var rule := Policy("foreign", "Foreign", "*", a, AllowEffect, 0.0);
    var put, load := StoreRule(t, rule, op.now), Load(Some(t), s, a, op.now, op.now);
    ops := [put, load];
    ForeignRun(config, put, load);
    assert KeyOf(load) == KeyOf(op);
    assert IsHit(config, Run(config, ops), op);
    assert LoadStep(config, Run(config, ops), op).arrays[Loaded(config, Run(config, ops), op)] == [rule];
    forall i: nat | i <= |ops|
      ensures Selected(config, Run(config, ops[..i]).Contents(), op) != [rule]
    {
      NotSelected(config, Run(config, ops[..i]).Contents(), op, rule);
    }
  }

  /** The state after storing a first rule for a tenant, and after a load that selects it. */
  lemma ForeignRun(config: Config, put: Op, load: Op)
    requires config.cacheEnabled && put.StoreRule? && load.Load? && TenantOf(load.tenantId) == put.tenant
    requires ':' !in put.tenant && put.rule.sector == "*" && put.rule.action == load.action
    ensures var s := Run(config, [put, load]);
            && s.arrays == [[put.rule], [put.rule]]
            && KeyOf(load) in s.cache
            && s.cache[KeyOf(load)] == CacheEntry(1, load.later + config.cacheTtlMs)
    ensures Run(config, []).Contents() == map[]
    ensures Run(config, [put]).Contents() == map[put.tenant := [put.rule]]
    ensures Run(config, [put, load]).Contents() == map[put.tenant := [put.rule]]
    ensures [put, load][..0] == [] && [put, load][..1] == [put] && [put, load][..2] == [put, load]
  {
    FirstRule(config, put);
    HasColon(put.tenant, load.sector, load.action);
    var s := Run(config, [put]);
    assert Selected(config, s.Contents(), load) == [put.rule];
    RunNext(config, [put], load);
    assert [put] + [load] == [put, load];
  }

  /** The state after storing the first rule of all. */
  lemma FirstRule(config: Config, put: Op)
    requires put.StoreRule?
    ensures Run(config, [put]) ==
            State([[put.rule]], map[put.tenant := 0], map[put.tenant := CacheEntry(0, put.now + config.cacheTtlMs)])
  {
    RunNext(config, [], put);
    assert [] + [put] == [put];
    assert PutStep(EMPTY, put.tenant, put.rule) == State([[put.rule]], map[put.tenant := 0], map[]);
  }

  lemma NotSelected(config: Config, contents: Store, op: Op, rule: Policy)
    requires op.Load? && rule.action != "*" && rule.action != op.action
    ensures Selected(config, contents, op) != [rule]
  {
    var selected := Selected(config, contents, op);
    assert forall p | p in selected :: ForAction(op.action)(p);
    assert rule in [rule] && rule !in selected;
  }

  /**
   With a working cache a load is recent after every colon-free run exactly when neither its tenant
   nor its sector has a colon, or the tenant starts with one.
   */
  lemma AlwaysRecentIff(config: Config, op: Op)
    requires op.Load?
    ensures var t := TenantOf(op.tenantId);
            AlwaysRecent(config, op) <==>
            !config.cacheEnabled || config.cacheTtlMs <= 0 || (':' !in t && ':' !in op.sector) || t[0] == ':'
  {
    var t := TenantOf(op.tenantId);
    if config.cacheEnabled && config.cacheTtlMs > 0 && (':' in t || ':' in op.sector) && t[0] != ':' {
      var ops := ColonIsServedForeignRules(config, op);
    } else {
      forall ops | Ordered(ops, op.now) && (forall i | 0 <= i < |ops| :: ColonFree(ops[i]))
        ensures exists i :: IsRecent(config, ops, op, i)
      {
        RecentUnlessShared(config, ops, op);
      }
    }
  }

  lemma RecentUnlessShared(config: Config, ops: seq<Op>, op: Op)
    requires op.Load? && Ordered(ops, op.now) && forall i | 0 <= i < |ops| :: ColonFree(ops[i])
    requires !config.cacheEnabled || config.cacheTtlMs <= 0 || ColonFree(op) || TenantOf(op.tenantId)[0] == ':'
    ensures exists i :: IsRecent(config, ops, op, i)
  {
    if ColonFree(op) {
      var i := LoadIsRecent(config, ops, op);
      assert IsRecent(config, ops, op, i);
    } else {
      if TenantOf(op.tenantId)[0] == ':' {
        LeadingColonMisses(config, ops, op);
      } else if config.cacheTtlMs <= 0 {
        NoTimeToLiveMisses(config, ops, op);
      }
      MissIsRecent(config, ops, op);
    }
  }

  /** A tenant is served its own rules, be they none, exactly when a rule was ever stored for it. */
  lemma {:induction false} OwnRulesIffEverStored(config: Config, ops: seq<Op>, tenant: string)
    ensures tenant in Run(config, ops).Contents() <==>
            exists i | 0 <= i < |ops| :: ops[i].StoreRule? && ops[i].tenant == tenant
  {
    if ops == [] {
    } else {
      var before, op := ops[..|ops| - 1], ops[|ops| - 1];
      OwnRulesIffEverStored(config, before, tenant);
      StoredTenants(config, Run(config, before), op, tenant);
      assert forall i | 0 <= i < |before| :: before[i] == ops[i];
    }
  }

  lemma StoredTenants(config: Config, s: State, op: Op, tenant: string)
    requires s.WellFormed()
    ensures tenant in Step(config, s, op).store <==> tenant in s.store || (op.StoreRule? && op.tenant == tenant)
  {
  }

  /** A tenant whose only rule was deleted is served nothing, not even the default policy. */
  lemma EmptiedTenantHasNoPolicies(config: Config, rule: Policy, op: Op)
    requires op.Load?
    ensures var t := TenantOf(op.tenantId);
            var ops := [StoreRule(t, rule, op.now), DeleteRule(t, rule.id, op.now)];
            && Selected(config, Run(config, ops).Contents(), op) == []
            && Selected(config, Run(config, []).Contents(), op) == DefaultPolicies(config.defaultEffect)
  {
    var t := TenantOf(op.tenantId);
    EmptiedTenant(config, StoreRule(t, rule, op.now), DeleteRule(t, rule.id, op.now));
  }

  lemma EmptiedTenant(config: Config, put: Op, delete: Op)
    requires put.StoreRule? && delete.DeleteRule? && delete.tenant == put.tenant && delete.ruleId == put.rule.id
    ensures Run(config, [put, delete]).Contents() == map[put.tenant := []]
  {
    FirstRule(config, put);
    RunNext(config, [put], delete);
    assert [put] + [delete] == [put, delete];
    var s := Run(config, [put]);
    assert s.arrays[s.store[put.tenant]][0].id == put.rule.id && HasRule(s, put.tenant, put.rule.id);
    assert Filter(OtherThan(put.rule.id), [put.rule]) == [];
  }

  // ------------------------------------------------------------ the layer

  class Layer {
    const config: Config
    var arrays: seq<seq<Policy>>
    var store: map<string, Ref>
    var cache: map<string, CacheEntry>

    ghost function Now(): State
      reads this
    {
      State(arrays, store, cache)
    }

    constructor (config: Config)
      ensures this.config == config && Now() == EMPTY
    {
      this.config, arrays, store, cache := config, [], map[], map[];
    }

    method LoadPolicies(tenantId: Option<string>, sector: string, action: string, now: int, later: int)
      returns (result: Ref)
      requires Now().WellFormed()
      modifies this
      ensures Now() == LoadStep(config, old(Now()), Load(tenantId, sector, action, now, later))
      ensures result == Loaded(config, old(Now()), Load(tenantId, sector, action, now, later))
    {
      var tenant := TenantOf(tenantId);
      var cacheKey := CacheKey(tenant, sector, action);
      if config.cacheEnabled {
        if cacheKey in cache && now < cache[cacheKey].expiresAt {
          return cache[cacheKey].rules;
        }
      }
      var all := if tenant in store then arrays[store[tenant]] else DefaultPolicies(config.defaultEffect);
      assert all == TenantPolicies(Now().Contents(), tenant, config.defaultEffect);
      var filtered := Filter(ForSector(sector), all);
      var actionFiltered := Filter(ForAction(action), filtered);
      result := |arrays|;
      arrays := arrays + [actionFiltered];
      if config.cacheEnabled {
        cache := cache[cacheKey := CacheEntry(result, later + config.cacheTtlMs)];
      }
    }

    method CachePolicies(tenant: string, now: int)
      requires Now().WellFormed()
      modifies this
      ensures Now() == CacheStep(config, old(Now()), tenant, now)
      ensures tenant in cache && cache[tenant].expiresAt == now + config.cacheTtlMs
      ensures arrays[cache[tenant].rules] == if tenant in store then arrays[store[tenant]] else []
      ensures tenant in store ==> cache[tenant].rules == store[tenant]
    {
      var policies := |arrays|;
      if tenant in store {
        policies := store[tenant];
      } else {
        arrays := arrays + [[]];
      }
      cache := cache[tenant := CacheEntry(policies, now + config.cacheTtlMs)];
    }

    method StoreRule(tenant: string, rule: Policy, now: int)
      requires Now().WellFormed()
      modifies this
      ensures Now() == Step(config, old(Now()), Op.StoreRule(tenant, rule, now))
    {
      var existing := if tenant in store then arrays[store[tenant]] else [];
      var idx := FindIndex(existing, rule.id);
      StoredAt(existing, rule, if idx >= 0 then idx else |existing|);
      if idx >= 0 {
        existing := existing[idx := rule];
      } else {
        existing := existing + [rule];
      }
      if tenant in store {
        arrays := arrays[store[tenant] := existing];
      } else {
        store := store[tenant := |arrays|];
        arrays := arrays + [existing];
      }
      CachePolicies(tenant, now);
    }

    method DeleteRule(tenant: string, ruleId: string, now: int) returns (deleted: bool)
      requires Now().WellFormed()
      modifies this
      ensures Now() == Step(config, old(Now()), Op.DeleteRule(tenant, ruleId, now))
      ensures deleted <==> tenant in old(store) && exists p | p in old(arrays[store[tenant]]) :: p.id == ruleId
    {
      if tenant !in store {
        return false;
      }
      var existing := arrays[store[tenant]];
      var filtered := Filter(OtherThan(ruleId), existing);
      FilterShorter(OtherThan(ruleId), existing);
      assert forall i | 0 <= i < |existing| :: existing[i] in existing;
      if |filtered| == |existing| {
        return false;
      }
      store := store[tenant := |arrays|];
      arrays := arrays + [filtered];
      cache := cache - {tenant};
      return true;
    }
  }
}
