/** The seven-layer pipeline of the middleware, over its policy layer and its audit layer. */
module Orchestrator {
  import opened Wrappers
  import opened Seqs
  import Policies
  import AuditLog

  datatype Status = Allow | Deny | Review

  datatype Decision = Decision(status: Status, reason: string, policyId: Option<string>, confidence: real)

  datatype Try<+T> = Ok(value: T) | Error

  datatype Actor = Actor(id: string, tenantId: Option<string>)

  datatype AuthResult = AuthResult(authenticated: bool, actor: Actor)

  datatype Classification = Classification(sector: string, intent: string, critical: bool)

  /** A document; its sensitivity is "" when the metadata has none. */
  datatype Document = Document(id: string, content: string, sensitivity: string, score: real)

  /**
   What the layers outside this model answer to one request: authentication, classification,
   whether the gate and the search fail, whether evidence can be created, and the scoring of a document.
   */
  datatype Outside = Outside(
    auth: Try<AuthResult>, classification: Try<Classification>, gateFails: bool, evidence: Try<()>,
    searchFails: bool, score: (Document, string) -> real)

  datatype Config = Config(
    failClosed: bool, maxResults: int, complianceFilterEnabled: bool, partition: seq<Document>)

  datatype Request = Request(id: string, content: string)

  // ------------------------------------------------------------ evaluation layer

  function HasEffect(effect: Policies.Effect): Policies.Policy -> bool {
    (p: Policies.Policy) => p.effect == effect
  }

  function CallGate530(policies: seq<Policies.Policy>): Decision {
    var denies := Filter(HasEffect(Policies.DenyEffect), policies);
    var allows := Filter(HasEffect(Policies.AllowEffect), policies);
    if denies != [] then Decision(Deny, "policy denies", Some(denies[0].id), 1.0)
    else if allows != [] then Decision(Allow, "policy allows", Some(allows[0].id), 0.95)
    else Decision(Review, "no explicit policy matched", None, 0.5)
  }

  /** A gate that fails denies. */
  function Evaluate(gateFails: bool, policies: seq<Policies.Policy>): Decision {
    if gateFails then Decision(Deny, "evaluation failed", None, 0.0) else CallGate530(policies)
  }

  // ------------------------------------------------------------ retrieval layer

  predicate BetterScore(a: Document, b: Document) {
    b.score - a.score < 0.0
  }

  function ScoredFor(outside: Outside, text: string): Document -> Document {
    (d: Document) => d.(score := outside.score(d, text))
  }

  function IsRelevant(): Document -> bool {
    (d: Document) => d.score > 0.1
  }

  /** A failing search finds nothing. */
  function Retrieve(config: Config, outside: Outside, text: string): seq<Document> {
    if outside.searchFails then []
    else
      var scored := Map(ScoredFor(outside, text), config.partition);
      SliceTo(Sort(BetterScore, Filter(IsRelevant(), scored)), config.maxResults)
  }

  /** The position of a sensitivity level; levels that are not listed compare with nothing. */
  function SensitivityRank(level: string): int {
    if level == "" || level == "low" then 0
    else if level == "medium" then 1
    else if level == "high" then 2
    else if level == "critical" then 3
    else 4
  }

  function AtMost(level: string): Document -> bool {
    (d: Document) => SensitivityRank(d.sensitivity) <= SensitivityRank(level)
  }

  function FilterByCompliance(config: Config, documents: seq<Document>, status: Status): seq<Document> {
    if !config.complianceFilterEnabled then documents
    else if status == Deny then []
    else Filter(AtMost(if status == Review then "medium" else "low"), documents)
  }

  // ------------------------------------------------------------ what process answers and records

  datatype Verdict =
    | Rethrown
    | Answer(decision: Decision, documents: Option<seq<Document>>, shortCircuit: bool)

  function DenyVerdict(reason: string): Verdict {
    Answer(Decision(Deny, reason, None, 1.0), None, true)
  }

  function ErrorVerdict(config: Config): Verdict {
    if config.failClosed then DenyVerdict("orchestrator error") else Rethrown
  }

  /** The layers that are passed before policies are loaded: who asks, and about what. */
  predicate ReachesPolicies(config: Config, outside: Outside) {
    && outside.auth.Ok? && outside.auth.value.authenticated
    && outside.classification.Ok?
    && !(outside.classification.value.critical && config.failClosed)
  }

  function VerdictFor(config: Config, outside: Outside, request: Request, policies: seq<Policies.Policy>): Verdict {
    if outside.auth.Error? then ErrorVerdict(config)
    else if !outside.auth.value.authenticated then DenyVerdict("authentication failed")
    else if outside.classification.Error? then ErrorVerdict(config)
    else if !ReachesPolicies(config, outside) then DenyVerdict("critical sensitivity")
    else if Filter(HasEffect(Policies.DenyEffect), policies) != [] then DenyVerdict("policy denies")
    else if outside.evidence.Error? then ErrorVerdict(config)
    else
      var decision := Evaluate(outside.gateFails, policies);
      Answer(decision,
             if decision.status == Allow
             then Some(FilterByCompliance(config, Retrieve(config, outside, request.content), Allow))
             else None,
             false)
  }

  function StatusText(status: Status): string {
    match status
    case Allow => "ALLOW"
    case Deny => "DENY"
    case Review => "REVIEW"
  }

  function Body(request: Request, actorId: string, action: string, result: string): AuditLog.Body {
    AuditLog.Body(actorId, action, request.id, result, "", Some(request.id), None)
  }

  /** What one request adds to the audit log. */
  function Recorded(config: Config, outside: Outside, request: Request, policies: seq<Policies.Policy>)
    : seq<AuditLog.Body>
  {
    if outside.auth.Error? then [Body(request, "unknown", "orchestrator.error", "ERROR")]
    else
      var actorId := outside.auth.value.actor.id;
      var error := Body(request, if actorId != "" then actorId else "unknown", "orchestrator.error", "ERROR");
      if !outside.auth.value.authenticated then [Body(request, actorId, "auth.failure", "DENY")]
      else if outside.classification.Error? then [error]
      else if !ReachesPolicies(config, outside) then [Body(request, actorId, "classification.critical", "DENY")]
      else if Filter(HasEffect(Policies.DenyEffect), policies) != [] then
        [Body(request, actorId, "policy.deny", "DENY")]
      else
        var decision := Evaluate(outside.gateFails, policies);
        (if decision.status == Deny then [Body(request, actorId, "evaluation.deny", "DENY")] else []) +
        [if outside.evidence.Error? then error
         else Body(request, actorId, "request.processed", StatusText(decision.status))]
  }

  // ------------------------------------------------------------ the orchestrator

  ghost function Bodies(events: seq<AuditLog.Event>): seq<AuditLog.Body> {
    Map((e: AuditLog.Event) => e.body, events)
  }

  /** The load that a request performs. */
  function LoadFor(outside: Outside, now: int, later: int): Policies.Op
    requires outside.auth.Ok? && outside.classification.Ok?
  {
    Policies.Load(outside.auth.value.actor.tenantId, outside.classification.value.sector,
                  outside.classification.value.intent, now, later)
  }

  /** The policies a request is judged by; those it never asks for do not matter. */
  ghost function PoliciesFor(config: Config, policy: Policies.Config, s: Policies.State, outside: Outside, now: int,
                             later: int)
    : seq<Policies.Policy>
    requires s.WellFormed()
  {
    if !ReachesPolicies(config, outside) then []
    else
      var op := LoadFor(outside, now, later);
      Policies.LoadStep(policy, s, op).arrays[Policies.Loaded(policy, s, op)]
  }

  class MiddlewareOrchestrator {
    const config: Config
    const policy: Policies.Layer
    const audit: AuditLog.AuditLayer

    constructor (config: Config, policy: Policies.Layer, audit: AuditLog.AuditLayer)
      ensures this.config == config && this.policy == policy && this.audit == audit
    {
      this.config, this.policy, this.audit := config, policy, audit;
    }

    /** `stamp` gives the id and the time of the audit event with that number. */
    method Process(request: Request, outside: Outside, now: int, later: int, stamp: nat -> (string, int))
      returns (verdict: Verdict)
      requires audit.Valid() && policy.Now().WellFormed()
      modifies audit, policy
      ensures audit.Valid() && policy.Now().WellFormed()
      ensures policy.Now() == if ReachesPolicies(config, outside)
                              then Policies.LoadStep(policy.config, old(policy.Now()), LoadFor(outside, now, later))
                              else old(policy.Now())
      ensures var policies := PoliciesFor(config, policy.config, old(policy.Now()), outside, now, later);
              && verdict == VerdictFor(config, outside, request, policies)
              && old(audit.history) <= audit.history
              && Bodies(audit.history[|old(audit.history)|..]) == Recorded(config, outside, request, policies)
    {
      if outside.auth.Error? {
        Record(request, "unknown", "orchestrator.error", "ERROR", stamp);
        return ErrorVerdict(config);
      }
      var actor := outside.auth.value.actor;
      if !outside.auth.value.authenticated {
        Record(request, actor.id, "auth.failure", "DENY", stamp);
        return DenyVerdict("authentication failed");
      }
      var errorActor := if actor.id != "" then actor.id else "unknown";
      if outside.classification.Error? {
        Record(request, errorActor, "orchestrator.error", "ERROR", stamp);
        return ErrorVerdict(config);
      }
      var classification := outside.classification.value;
      if classification.critical && config.failClosed {
        Record(request, actor.id, "classification.critical", "DENY", stamp);
        return DenyVerdict("critical sensitivity");
      }
      var loaded := policy.LoadPolicies(actor.tenantId, classification.sector, classification.intent, now, later);
      var policies := policy.arrays[loaded];
      verdict := ProcessPolicies(request, outside, policies, actor.id, stamp);
    }

    /** The layers from the explicit denies on. */
    method ProcessPolicies(request: Request, outside: Outside, policies: seq<Policies.Policy>, actorId: string,
                           stamp: nat -> (string, int))
      returns (verdict: Verdict)
      requires audit.Valid() && ReachesPolicies(config, outside) && actorId == outside.auth.value.actor.id
      modifies audit
      ensures audit.Valid()
      ensures verdict == VerdictFor(config, outside, request, policies)
      ensures old(audit.history) <= audit.history
      ensures Bodies(audit.history[|old(audit.history)|..]) == Recorded(config, outside, request, policies)
    {
      var explicitDeny := Filter(HasEffect(Policies.DenyEffect), policies);
      if explicitDeny != [] {
        Record(request, actorId, "policy.deny", "DENY", stamp);
        return DenyVerdict("policy denies");
      }
      var decision := Evaluate(outside.gateFails, policies);
      if decision.status == Deny {
        Record(request, actorId, "evaluation.deny", "DENY", stamp);
      }
      if outside.evidence.Error? {
        Record(request, if actorId != "" then actorId else "unknown", "orchestrator.error", "ERROR", stamp);
        return ErrorVerdict(config);
      }
      var documents := None;
      if decision.status == Allow {
        var rawResults := Retrieve(config, outside, request.content);
        documents := Some(FilterByCompliance(config, rawResults, decision.status));
      }
      Record(request, actorId, "request.processed", StatusText(decision.status), stamp);
      verdict := Answer(decision, documents, false);
    }

    method Record(request: Request, actorId: string, action: string, result: string, stamp: nat -> (string, int))
      requires audit.Valid()
      modifies audit
      ensures audit.Valid() && |audit.history| == |old(audit.history)| + 1
      ensures old(audit.history) <= audit.history
      ensures audit.history[|old(audit.history)|].body == Body(request, actorId, action, result)
    {
      ghost var before := audit.history;
      var n := |audit.events| + |audit.buffer|;
      var eventId := audit.RecordEvent(Body(request, actorId, action, result), stamp(n).0, stamp(n).1);
    }
  }

  // ------------------------------------------------------------ what an answer means

  ghost predicate SomeWith(effect: Policies.Effect, policies: seq<Policies.Policy>) {
    exists p | p in policies :: p.effect == effect
  }

  /** The request authenticated and was classified, and not as critical under failClosed. */
  ghost predicate Admitted(config: Config, outside: Outside) {
    && outside.auth.Ok? && outside.auth.value.authenticated
    && outside.classification.Ok? && !(outside.classification.value.critical && config.failClosed)
  }

  /** It was admitted, and no policy denies it. */
  ghost predicate Clear(config: Config, outside: Outside, policies: seq<Policies.Policy>) {
    Admitted(config, outside) && !SomeWith(Policies.DenyEffect, policies)
  }

  /**
   A request is allowed exactly when it authenticated, was classified, was not critical under
   failClosed, its policies contain an allow and no deny, and neither gate nor evidence failed; it is
   sent to review exactly when all this holds but its policies contain neither.
   */
  lemma AllowIff(config: Config, outside: Outside, request: Request, policies: seq<Policies.Policy>)
    ensures var v := VerdictFor(config, outside, request, policies);
            var clear := Clear(config, outside, policies) && !outside.gateFails && outside.evidence.Ok?;
            && (v.Answer? && v.decision.status == Allow <==> clear && SomeWith(Policies.AllowEffect, policies))
            && (v.Answer? && v.decision.status == Review <==> clear && policies == [])
  {
    EffectFilter(Policies.AllowEffect, policies);
    EffectFilter(Policies.DenyEffect, policies);
    assert policies != [] ==> SomeWith(policies[0].effect, policies);
  }

  /** What every other answer says: who denies and how surely, and whether later layers were reached. */
  lemma AnswersAre(config: Config, outside: Outside, request: Request, policies: seq<Policies.Policy>)
    ensures var v := VerdictFor(config, outside, request, policies);
            && (Failing(outside, config, policies) && config.failClosed ==> IsDenial(v, "orchestrator error"))
            && (outside.auth.Ok? && !outside.auth.value.authenticated ==> IsDenial(v, "authentication failed"))
            && (outside.auth.Ok? && outside.auth.value.authenticated && outside.classification.Ok? ==>
                  outside.classification.value.critical && config.failClosed ==> IsDenial(v, "critical sensitivity"))
            && (Admitted(config, outside) && SomeWith(Policies.DenyEffect, policies) ==> IsDenial(v, "policy denies"))
            && (Clear(config, outside, policies) && outside.evidence.Ok? ==> v.Answer? && !v.shortCircuit)
            && (Clear(config, outside, policies) && outside.evidence.Ok? && outside.gateFails ==>
                  v.decision == Decision(Deny, "evaluation failed", None, 0.0) && v.documents.None?)
            && (v.Answer? && v.decision.status == Allow ==> v.decision.confidence == 0.95)
            && (v.Answer? && v.decision.status == Review ==> v.decision.confidence == 0.5 && v.decision.policyId.None?)
  {
    EffectFilter(Policies.AllowEffect, policies);
    EffectFilter(Policies.DenyEffect, policies);
  }

  /** A layer that is reached throws. */
  ghost predicate Failing(outside: Outside, config: Config, policies: seq<Policies.Policy>) {
    || outside.auth.Error?
    || (outside.auth.value.authenticated && outside.classification.Error?)
    || (Clear(config, outside, policies) && outside.evidence.Error?)
  }

  /** The request is denied before the later layers, with full confidence, no policy named and no documents. */
  ghost predicate IsDenial(v: Verdict, reason: string) {
    && v.Answer? && v.shortCircuit && v.documents.None?
    && v.decision.status == Deny && v.decision.reason == reason
    && v.decision.policyId.None? && v.decision.confidence == 1.0
  }

  lemma EffectFilter(effect: Policies.Effect, policies: seq<Policies.Policy>)
    ensures Filter(HasEffect(effect), policies) != [] <==> SomeWith(effect, policies)
  {
    var f := Filter(HasEffect(effect), policies);
    if f != [] {
      assert f[0] in f;
    }
    if p :| p in policies && p.effect == effect {
      assert HasEffect(effect)(p);
      assert p in f;
    }
  }

  /** Policy k is the first of the list with the effect. */
  ghost predicate IsFirst(policies: seq<Policies.Policy>, effect: Policies.Effect, k: int) {
    && 0 <= k < |policies| && policies[k].effect == effect
    && forall j | 0 <= j < k :: policies[j].effect != effect
  }

  /**
   What the evaluation layer decides: the first deny denies, with full confidence; without one the first allow
   allows; with neither the request is to be reviewed; and a gate that fails denies with no confidence at all.
   */
  lemma EvaluationIs(gateFails: bool, policies: seq<Policies.Policy>)
    ensures var d := Evaluate(gateFails, policies);
            && (gateFails ==> d == Decision(Deny, "evaluation failed", None, 0.0))
            && (!gateFails ==>
                  && (forall k | IsFirst(policies, Policies.DenyEffect, k) ::
                        d == Decision(Deny, "policy denies", Some(policies[k].id), 1.0))
                  && (!SomeWith(Policies.DenyEffect, policies) ==>
                        forall k | IsFirst(policies, Policies.AllowEffect, k) ::
                          d == Decision(Allow, "policy allows", Some(policies[k].id), 0.95))
                  && (policies == [] ==> d == Decision(Review, "no explicit policy matched", None, 0.5)))
  {
    EffectFilter(Policies.DenyEffect, policies);
    EffectFilter(Policies.AllowEffect, policies);
    FirstEffect(policies, Policies.DenyEffect);
    FirstEffect(policies, Policies.AllowEffect);
  }

  lemma FirstEffect(policies: seq<Policies.Policy>, effect: Policies.Effect)
    ensures forall k | IsFirst(policies, effect, k) ::
              var f := Filter(HasEffect(effect), policies); f != [] && f[0] == policies[k]
  {
    forall k | IsFirst(policies, effect, k)
      ensures var f := Filter(HasEffect(effect), policies); f != [] && f[0] == policies[k]
    {
      assert HasEffect(effect)(policies[k]) && policies[k] in policies;
      var first := FirstKept(HasEffect(effect), policies);
    }
  }

  /** An allowing answer names the first of the loaded policies that allow. */
  lemma AllowedByFirst(config: Config, outside: Outside, request: Request, policies: seq<Policies.Policy>)
    returns (k: nat)
    requires var v := VerdictFor(config, outside, request, policies);
             v.Answer? && v.decision.status == Allow
    ensures k < |policies| && policies[k].effect == Policies.AllowEffect
    ensures forall j | 0 <= j < k :: policies[j].effect != Policies.AllowEffect
    ensures VerdictFor(config, outside, request, policies).decision.policyId == Some(policies[k].id)
  {
    var p := HasEffect(Policies.AllowEffect);
    k := FirstKept(p, policies);
  }

  /** The head of a filtered list is the first element that passes. */
  lemma {:induction false} FirstKept<T>(p: T -> bool, s: seq<T>) returns (k: nat)
    requires Filter(p, s) != []
    ensures k < |s| && s[k] == Filter(p, s)[0] && p(s[k])
    ensures forall j | 0 <= j < k :: !p(s[j])
  {
    if p(s[0]) {
      k := 0;
    } else {
      k := FirstKept(p, s[1..]);
      k := k + 1;
    }
  }

  /** The documents of the partition with their scores for the text, those above 0.1 only. */
  ghost function Relevant(config: Config, outside: Outside, text: string): seq<Document> {
    Filter((d: Document) => d.score > 0.1,
           Map((d: Document) => Document(d.id, d.content, d.sensitivity, outside.score(d, text)), config.partition))
  }

  lemma RetrieveSorts(config: Config, outside: Outside, text: string)
    requires !outside.searchFails
    ensures Retrieve(config, outside, text) ==
            SliceTo(Sort(BetterScore, Relevant(config, outside, text)), config.maxResults)
  {
    var scored := (d: Document) => Document(d.id, d.content, d.sensitivity, outside.score(d, text));
    assert Map(ScoredFor(outside, text), config.partition) == Map(scored, config.partition);
    FilterAgree(IsRelevant(), (d: Document) => d.score > 0.1, Map(scored, config.partition));
  }

  /**
   The retrieval layer returns the best of the partition's documents that score above 0.1: as many as
   there are or the limit allows (a negative limit drops that many), best first, and none that it leaves out
   beats one that it returns. A failing search returns nothing.
   */
  lemma RetrievedAreBest(config: Config, outside: Outside, text: string) returns (rest: seq<Document>)
    ensures var (found, relevant) := (Retrieve(config, outside, text), Relevant(config, outside, text));
            var limit := if config.maxResults >= 0 then config.maxResults else Max(0, |relevant| + config.maxResults);
            && (outside.searchFails ==> found == [])
            && (!outside.searchFails ==>
                  && |found| == Min(limit, |relevant|)
                  && multiset(found) + multiset(rest) == multiset(relevant))
            && (forall i, j | 0 <= i < j < |found| :: found[i].score >= found[j].score)
            && forall d, r | d in found && r in rest :: d.score >= r.score
  {
    rest := [];
    if !outside.searchFails {
      RetrieveSorts(config, outside, text);
      rest := BestPrefix(Relevant(config, outside, text), config.maxResults);
    }
  }

  lemma BestPrefix(relevant: seq<Document>, limit: int) returns (rest: seq<Document>)
    ensures var found := SliceTo(Sort(BetterScore, relevant), limit);
            && multiset(found) + multiset(rest) == multiset(relevant)
            && (forall i, j | 0 <= i < j < |found| :: found[i].score >= found[j].score)
            && forall d, r | d in found && r in rest :: d.score >= r.score
  {
    var sorted := Sort(BetterScore, relevant);
    ScoresAreOrdered();
    SortSorted(BetterScore, relevant);
    SortPermutes(BetterScore, relevant);
    var n := |SliceTo(sorted, limit)|;
    assert SliceTo(sorted, limit) == sorted[..n];
    CutIsNoBetter(sorted, n);
    rest := sorted[n..];
  }

  lemma ScoresAreOrdered()
    ensures StrictWeakOrder(BetterScore)
  {
  }

  lemma CutIsNoBetter(sorted: seq<Document>, n: nat)
    requires Sorted(BetterScore, sorted) && n <= |sorted|
    ensures multiset(sorted[..n]) + multiset(sorted[n..]) == multiset(sorted)
    ensures forall i, j | 0 <= i < j < n :: sorted[..n][i].score >= sorted[..n][j].score
    ensures forall d, r | d in sorted[..n] && r in sorted[n..] :: d.score >= r.score
  {
    assert sorted == sorted[..n] + sorted[n..];
    forall i, j | 0 <= i < j < n
      ensures sorted[..n][i].score >= sorted[..n][j].score
    {
      assert !BetterScore(sorted[j], sorted[i]);
    }
    NoneBetter(sorted, n);
  }

  lemma NoneBetter(sorted: seq<Document>, n: nat)
    requires Sorted(BetterScore, sorted) && n <= |sorted|
    ensures forall d, r | d in sorted[..n] && r in sorted[n..] :: d.score >= r.score
  {
    forall d, r | d in sorted[..n] && r in sorted[n..]
      ensures d.score >= r.score
    {
      var i :| 0 <= i < n && sorted[i] == d;
      var j :| n <= j < |sorted| && sorted[j] == r;
      assert !BetterScore(sorted[j], sorted[i]);
    }
  }

  /** Without failClosed an error is passed on; with it, every request gets an answer. */
  lemma FailClosedAnswers(config: Config, outside: Outside, request: Request, policies: seq<Policies.Policy>)
    ensures VerdictFor(config, outside, request, policies).Rethrown? <==>
            !config.failClosed && Failing(outside, config, policies)
  {
    EffectFilter(Policies.DenyEffect, policies);
  }

  /**
   What the compliance filter keeps, in order: on ALLOW the documents of low or no sensitivity, on REVIEW those
   of medium sensitivity too, on DENY none; everything when it is switched off.
   */
  lemma ComplianceFilterKeeps(config: Config, documents: seq<Document>, status: Status)
    ensures var kept := FilterByCompliance(config, documents, status);
            if !config.complianceFilterEnabled then kept == documents
            else match status
                 case Deny => kept == []
                 case Review => kept == Filter((d: Document) => d.sensitivity in {"", "low", "medium"}, documents)
                 case Allow => kept == Filter((d: Document) => d.sensitivity in {"", "low"}, documents)
  {
    FilterAgree(AtMost("low"), (d: Document) => d.sensitivity in {"", "low"}, documents);
    FilterAgree(AtMost("medium"), (d: Document) => d.sensitivity in {"", "low", "medium"}, documents);
  }

  /**
   Documents come with an answer exactly when it allows: with the filter on they are the retrieved ones
   of low or no sensitivity, in order, and with the filter off all that were retrieved. They respect the
   configured maximum exactly when that is not negative.
   */
  lemma DocumentsOnlyOnAllow(config: Config, outside: Outside, request: Request, policies: seq<Policies.Policy>)
    ensures var v := VerdictFor(config, outside, request, policies);
            var found := Retrieve(config, outside, request.content);
            v.Answer? ==>
              && (v.documents.Some? <==> v.decision.status == Allow)
              && (v.documents.Some? && config.complianceFilterEnabled ==>
                    v.documents.value == Filter((d: Document) => d.sensitivity in {"", "low"}, found))
              && (v.documents.Some? && !config.complianceFilterEnabled ==> v.documents.value == found)
              && (v.documents.Some? ==> (|v.documents.value| <= config.maxResults <==> config.maxResults >= 0))
  {
    ComplianceFilterKeeps(config, Retrieve(config, outside, request.content), Allow);
  }

  /** The event concerns the request, was caused by the actor, and has the given action and result. */
  ghost predicate IsEvent(b: AuditLog.Body, request: Request, actorId: string, action: string, result: string) {
    && b.actorId == actorId && b.action == action && b.result == result
    && b.resource == request.id && b.requestId == Some(request.id) && b.tenantId.None? && b.details == ""
  }

  /** The error event names the actor, if that much is known. */
  ghost predicate IsErrorEvent(b: AuditLog.Body, request: Request, actorId: string) {
    IsEvent(b, request, if actorId == "" then "unknown" else actorId, "orchestrator.error", "ERROR")
  }

  /** A request that is turned away before the evaluation records one event, which tells why. */
  lemma EarlyEvents(config: Config, outside: Outside, request: Request, policies: seq<Policies.Policy>)
    requires !Clear(config, outside, policies)
    ensures var r := Recorded(config, outside, request, policies);
            && |r| == 1
            && (outside.auth.Error? ==> IsErrorEvent(r[0], request, ""))
            && (outside.auth.Ok? ==>
                  var (auth, kind) := (outside.auth.value, outside.classification);
                  && (!auth.authenticated ==> IsEvent(r[0], request, auth.actor.id, "auth.failure", "DENY"))
                  && (auth.authenticated && kind.Error? ==> IsErrorEvent(r[0], request, auth.actor.id))
                  && (auth.authenticated && kind.Ok? && kind.value.critical && config.failClosed ==>
                        IsEvent(r[0], request, auth.actor.id, "classification.critical", "DENY"))
                  && (Admitted(config, outside) ==> IsEvent(r[0], request, auth.actor.id, "policy.deny", "DENY")))
  {
    EffectFilter(Policies.DenyEffect, policies);
  }

  /** A request that is evaluated records a deny of the evaluation, if any, and then its outcome. */
  lemma LateEvents(config: Config, outside: Outside, request: Request, policies: seq<Policies.Policy>)
    requires Clear(config, outside, policies)
    ensures var (r, actorId) := (Recorded(config, outside, request, policies), outside.auth.value.actor.id);
            && |r| == (if outside.gateFails then 2 else 1)
            && (outside.gateFails ==> IsEvent(r[0], request, actorId, "evaluation.deny", "DENY"))
            && (outside.evidence.Error? ==> IsErrorEvent(r[|r| - 1], request, actorId))
            && (outside.evidence.Ok? ==>
                  IsEvent(r[|r| - 1], request, actorId, "request.processed",
                          if outside.gateFails then "DENY" else if policies == [] then "REVIEW" else "ALLOW"))
  {
    EffectFilter(Policies.DenyEffect, policies);
    EffectFilter(Policies.AllowEffect, policies);
    assert policies != [] ==> SomeWith(policies[0].effect, policies);
  }

  /**
   Every request leaves a trace: at least one event, all of them its own, the last of which tells
   the outcome of every answer.
   */
  lemma EveryRequestIsRecorded(config: Config, outside: Outside, request: Request, policies: seq<Policies.Policy>)
    ensures var v := VerdictFor(config, outside, request, policies);
            var r := Recorded(config, outside, request, policies);
            && 1 <= |r| <= 2
            && (forall i | 0 <= i < |r| :: r[i].requestId == Some(request.id) && r[i].resource == request.id)
            && (v.Rethrown? ==> r[|r| - 1].result == "ERROR")
            && (v.Answer? && v.shortCircuit ==> r[|r| - 1].result in {"DENY", "ERROR"} && v.decision.status == Deny)
            && (v.Answer? && !v.shortCircuit ==>
                  r[|r| - 1].action == "request.processed" && r[|r| - 1].result == StatusText(v.decision.status))
  {
    var r := Recorded(config, outside, request, policies);
    if ReachesPolicies(config, outside) && Filter(HasEffect(Policies.DenyEffect), policies) == [] {
      var decision := Evaluate(outside.gateFails, policies);
      var last := r[|r| - 1];
      assert outside.evidence.Ok? ==>
               last == Body(request, outside.auth.value.actor.id, "request.processed", StatusText(decision.status));
      assert outside.evidence.Error? ==> last.result == "ERROR";
    }
  }

  /**
   End to end: whatever ran on the policy layer before, an allowed request had, at some instant
   less than the cache's time to live ago, an allow and no deny among its tenant's policies for
   its sector and action.
   */
  lemma AllowedByRecentPolicies(config: Config, policy: Policies.Config, ops: seq<Policies.Op>, outside: Outside,
                                request: Request, now: int, later: int)
    returns (i: nat)
    requires forall k | 0 <= k < |ops| :: Policies.ColonFree(ops[k])
    requires ReachesPolicies(config, outside) && Policies.ColonFree(LoadFor(outside, now, later))
    requires var v := VerdictFor(config, outside, request,
                                 PoliciesFor(config, policy, Policies.Run(policy, ops), outside, now, later));
             v.Answer? && v.decision.status == Allow
    ensures i <= |ops|
    ensures i < |ops| ==> ops[i].Load? && ops[i].later > now - policy.cacheTtlMs
    ensures AllowsOnly(Policies.Run(policy, ops[..i]).Contents(), policy.defaultEffect,
                       outside.auth.value.actor.tenantId, outside.classification.value)
  {
    var op := LoadFor(outside, now, later);
    i := Policies.LoadIsRecent(policy, ops, op);
    AllowIff(config, outside, request, PoliciesFor(config, policy, Policies.Run(policy, ops), outside, now, later));
    SelectionAllows(policy, Policies.Run(policy, ops[..i]).Contents(), op, outside.classification.value);
  }

  /** The policy is about the sector and the intent that the request was classified with. */
  ghost predicate Concerns(p: Policies.Policy, kind: Classification) {
    p.sector in {"*", kind.sector} && p.action in {"*", kind.intent}
  }

  /**
   Among the policies of the tenant, "global" for none, some that concerns the request allows and none
   denies; where the tenant has no policies the default effect is to allow.
   */
  ghost predicate AllowsOnly(store: Policies.Store, defaultEffect: Policies.Effect, tenantId: Option<string>,
                             kind: Classification) {
    var tenant := if tenantId.Some? && tenantId.value != "" then tenantId.value else "global";
    && (tenant in store ==>
          && (exists p | p in store[tenant] :: Concerns(p, kind) && p.effect == Policies.AllowEffect)
          && (forall p | p in store[tenant] && Concerns(p, kind) :: p.effect == Policies.AllowEffect))
    && (tenant !in store ==> defaultEffect == Policies.AllowEffect)
  }

  lemma SelectionAllows(policy: Policies.Config, store: Policies.Store, op: Policies.Op, kind: Classification)
    requires op.Load? && op.sector == kind.sector && op.action == kind.intent
    requires var selected := Policies.Selected(policy, store, op);
             SomeWith(Policies.AllowEffect, selected) && !SomeWith(Policies.DenyEffect, selected)
    ensures AllowsOnly(store, policy.defaultEffect, op.tenantId, kind)
  {
    Policies.SelectedAre(policy, store, op);
  }
}
