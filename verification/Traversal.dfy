/** The licensure traversal: CIP to NAICS directly and through SOC, deduplicated, then ranked. */
module Traversal {
  import opened Wrappers
  import opened Seqs
  import opened JsMaps
  import opened Crosswalk

  /** A NAICS or SOC code with the quality of the match that led to it. */
  datatype Code = Code(code: string, matchType: MatchType, confidence: real)

  datatype Weights = Weights(direct: real, crosswalk: real, inferred: real)

  /** The database queries, which do not change during a traversal; they may list a code twice. */
  datatype Database = Database(
    naicsForCip: string -> seq<string>,
    socForCip: string -> seq<string>,
    naicsForSoc: string -> seq<string>,
    licensure: (string, string) -> seq<string>)

  /** The rows of the frozen crosswalk index, by table. */
  datatype Rows = Rows(cipToNaics: seq<Mapping>, cipToSoc: seq<Mapping>, socToNaics: seq<Mapping>)

  /** Everything a traversal reads. */
  datatype Engine = Engine(db: Database, index: Rows, weights: Weights) {
    function IndexedNaicsForCip(cip: string): seq<Mapping> {
      Filter(From(cip), index.cipToNaics)
    }

    function IndexedSocForCip(cip: string): seq<Mapping> {
      Filter(From(cip), index.cipToSoc)
    }

    function IndexedNaicsForSoc(soc: string): seq<Mapping> {
      Filter(From(soc), index.socToNaics)
    }

    /** Codes straight from a database listing, and from index rows. */
    function FromDb(): string -> Code {
      (n: string) => Code(n, Direct, weights.direct)
    }

    function FromIndex(): Mapping -> Code {
      (m: Mapping) => Code(m.target, m.matchType, m.confidence * weights.crosswalk)
    }

    function ViaSocDb(soc: Code): string -> Code {
      (n: string) => Code(n, Crosswalked, soc.confidence * weights.crosswalk)
    }

    function ViaSocIndex(soc: Code): Mapping -> Code {
      (m: Mapping) => Code(m.target, Inferred, soc.confidence * m.confidence * weights.inferred)
    }
  }

  predicate HasCode(codes: seq<Code>, code: string) {
    exists i | 0 <= i < |codes| :: codes[i].code == code
  }

  /** The codes, then the candidates that are not among them yet. */
  function AddNew(codes: seq<Code>, candidates: seq<Code>): seq<Code>
    decreases candidates
  {
    if candidates == [] then codes
    else AddNew(if HasCode(codes, candidates[0].code) then codes else codes + [candidates[0]], candidates[1..])
  }

  // ------------------------------------------------------------ one hop and two hops

  function CodesFor(e: Engine, listed: seq<string>, mappings: seq<Mapping>): seq<Code> {
    AddNew(Map(e.FromDb(), listed), Map(e.FromIndex(), mappings))
  }

  function NaicsForCip(e: Engine, cip: string): seq<Code> {
    CodesFor(e, e.db.naicsForCip(cip), e.IndexedNaicsForCip(cip))
  }

  function SocForCip(e: Engine, cip: string): seq<Code> {
    CodesFor(e, e.db.socForCip(cip), e.IndexedSocForCip(cip))
  }

  function CandidatesFor(e: Engine, soc: Code): seq<Code> {
    Map(e.ViaSocDb(soc), e.db.naicsForSoc(soc.code)) + Map(e.ViaSocIndex(soc), e.IndexedNaicsForSoc(soc.code))
  }

  /** All candidates of the second hop, in the order they are found. */
  function CandidatesVia(e: Engine, socs: seq<Code>): seq<Code> {
    if socs == [] then [] else CandidatesVia(e, socs[..|socs| - 1]) + CandidatesFor(e, socs[|socs| - 1])
  }

  function NaicsViaSoc(e: Engine, cip: string): seq<Code> {
    AddNew([], CandidatesVia(e, SocForCip(e, cip)))
  }

  lemma {:induction false} AddNewAppend(codes: seq<Code>, a: seq<Code>, b: seq<Code>)
    ensures AddNew(AddNew(codes, a), b) == AddNew(codes, a + b)
    decreases a
  {
    if a == [] {
      assert a + b == b;
    } else {
      assert (a + b)[1..] == a[1..] + b;
      AddNewAppend(if HasCode(codes, a[0].code) then codes else codes + [a[0]], a[1..], b);
    }
  }

  lemma AddNewNext(codes: seq<Code>, a: seq<Code>, i: nat)
    requires i < |a|
    ensures AddNew(codes, a[..i + 1]) ==
            var found := AddNew(codes, a[..i]);
            if HasCode(found, a[i].code) then found else found + [a[i]]
  {
    assert a[..i + 1] == a[..i] + [a[i]];
    AddNewAppend(codes, a[..i], [a[i]]);
    var found := AddNew(codes, a[..i]);
    assert AddNew(found, [a[i]]) == if HasCode(found, a[i].code) then found else found + [a[i]];
  }

  method TraverseCipToNaics(e: Engine, cip: string) returns (codes: seq<Code>)
    ensures codes == NaicsForCip(e, cip)
  {
    codes := CollectCodes(e, e.db.naicsForCip(cip), e.IndexedNaicsForCip(cip));
  }

  /** The loops shared by both first hops: database codes as they come, then new index codes. */
  method CollectCodes(e: Engine, listed: seq<string>, mappings: seq<Mapping>) returns (codes: seq<Code>)
    ensures codes == CodesFor(e, listed, mappings)
  {
    codes := [];
    ghost var direct := Map(e.FromDb(), listed);
    for i := 0 to |listed|
      invariant codes == direct[..i]
    {
      assert direct[i] == Code(listed[i], Direct, e.weights.direct);
      codes := codes + [Code(listed[i], Direct, e.weights.direct)];
    }
    assert direct[..|direct|] == direct;
    codes := CollectNew(e, mappings, codes);
  }

  method CollectNew(e: Engine, mappings: seq<Mapping>, before: seq<Code>) returns (codes: seq<Code>)
    ensures codes == AddNew(before, Map(e.FromIndex(), mappings))
  {
    ghost var candidates := Map(e.FromIndex(), mappings);
    codes := before;
    for i := 0 to |mappings|
      invariant codes == AddNew(before, candidates[..i])
    {
      var m := mappings[i];
      AddNewNext(before, candidates, i);
      assert candidates[i] == Code(m.target, m.matchType, m.confidence * e.weights.crosswalk);
      if HasCode(codes, m.target) {
        continue;
      }
      codes := codes + [Code(m.target, m.matchType, m.confidence * e.weights.crosswalk)];
    }
    assert candidates[..|candidates|] == candidates;
  }

  method TraverseCipToSocToNaics(e: Engine, cip: string) returns (soc: seq<Code>, naics: seq<Code>)
    ensures soc == SocForCip(e, cip)
    ensures naics == NaicsViaSoc(e, cip)
  {
    soc := CollectCodes(e, e.db.socForCip(cip), e.IndexedSocForCip(cip));
    naics := [];
    for i := 0 to |soc|
      invariant naics == AddNew([], CandidatesVia(e, soc[..i]))
    {
      naics := CollectViaSoc(e, soc[i], naics);
      assert soc[..i + 1][..i] == soc[..i];
      AddNewAppend([], CandidatesVia(e, soc[..i]), CandidatesFor(e, soc[i]));
    }
    assert soc[..|soc|] == soc;
  }

  method CollectViaSoc(e: Engine, soc: Code, before: seq<Code>) returns (naics: seq<Code>)
    ensures naics == AddNew(before, CandidatesFor(e, soc))
  {
    var listed, mappings := e.db.naicsForSoc(soc.code), e.IndexedNaicsForSoc(soc.code);
    naics := CollectListed(e, soc, listed, before);
    naics := CollectMapped(e, soc, mappings, naics);
    AddNewAppend(before, Map(e.ViaSocDb(soc), listed), Map(e.ViaSocIndex(soc), mappings));
  }

  method CollectListed(e: Engine, soc: Code, listed: seq<string>, before: seq<Code>) returns (naics: seq<Code>)
    ensures naics == AddNew(before, Map(e.ViaSocDb(soc), listed))
  {
    ghost var candidates := Map(e.ViaSocDb(soc), listed);
    naics := before;
    for i := 0 to |listed|
      invariant naics == AddNew(before, candidates[..i])
    {
      AddNewNext(before, candidates, i);
      assert candidates[i] == Code(listed[i], Crosswalked, soc.confidence * e.weights.crosswalk);
      if HasCode(naics, listed[i]) {
        continue;
      }
      naics := naics + [Code(listed[i], Crosswalked, soc.confidence * e.weights.crosswalk)];
    }
    assert candidates[..|candidates|] == candidates;
  }

  method CollectMapped(e: Engine, soc: Code, mappings: seq<Mapping>, before: seq<Code>) returns (naics: seq<Code>)
    ensures naics == AddNew(before, Map(e.ViaSocIndex(soc), mappings))
  {
    ghost var candidates := Map(e.ViaSocIndex(soc), mappings);
    naics := before;
    for i := 0 to |mappings|
      invariant naics == AddNew(before, candidates[..i])
    {
      var m := mappings[i];
      AddNewNext(before, candidates, i);
      assert candidates[i] == Code(m.target, Inferred, soc.confidence * m.confidence * e.weights.inferred);
      if HasCode(naics, m.target) {
        continue;
      }
      naics := naics + [Code(m.target, Inferred, soc.confidence * m.confidence * e.weights.inferred)];
    }
    assert candidates[..|candidates|] == candidates;
  }

  // ------------------------------------------------------------ deduplication

  /** Keeps, per code, the first entry of the highest confidence, at the place of its first entry. */
  function Deduped(codes: seq<Code>): JsMap<string, Code> {
    if codes == [] then [] else DedupeStep(Deduped(codes[..|codes| - 1]), codes[|codes| - 1])
  }

  function DedupeStep(kept: JsMap<string, Code>, n: Code): JsMap<string, Code> {
    var existing := Get(kept, n.code);
    if existing.None? || n.confidence > existing.value.confidence then Set(kept, n.code, n) else kept
  }

  function UniqueNaics(e: Engine, cip: string): seq<Code> {
    Values(Deduped(NaicsForCip(e, cip) + NaicsViaSoc(e, cip)))
  }

  /** The first entry with a code. */
  function FirstWith(codes: seq<Code>, code: string): Option<Code> {
    if codes == [] then None
    else if codes[0].code == code then Some(codes[0])
    else FirstWith(codes[1..], code)
  }

  lemma {:induction false} FirstWithAppend(a: seq<Code>, b: seq<Code>, code: string)
    ensures FirstWith(a + b, code) == if FirstWith(a, code).Some? then FirstWith(a, code) else FirstWith(b, code)
    ensures FirstWith(a, code).Some? <==> HasCode(a, code)
  {
    if a == [] {
      assert a + b == b;
    } else {
      assert (a + b)[1..] == a[1..] + b;
      FirstWithAppend(a[1..], b, code);
      if HasCode(a, code) && a[0].code != code {
        var i :| 0 <= i < |a| && a[i].code == code;
        assert a[1..][i - 1].code == code;
      }
      if HasCode(a[1..], code) {
        var i :| 0 <= i < |a[1..]| && a[1..][i].code == code;
        assert a[i + 1].code == code;
      }
    }
  }

  lemma KnownCodeIsNotFirst(codes: seq<Code>, c: Code, rest: seq<Code>, code: string)
    requires HasCode(codes, c.code)
    ensures FirstWith(codes + [c] + rest, code) == FirstWith(codes + rest, code)
  {
    FirstWithAppend(codes, rest, code);
    FirstWithAppend(codes, [c], code);
    FirstWithAppend(codes + [c], rest, code);
  }

  /** Adding new candidates never changes which entry of a code is the first. */
  lemma {:induction false} AddNewFirst(codes: seq<Code>, candidates: seq<Code>, code: string)
    ensures FirstWith(AddNew(codes, candidates), code) == FirstWith(codes + candidates, code)
    decreases candidates
  {
    if candidates == [] {
      assert codes + candidates == codes;
    } else {
      var c, rest := candidates[0], candidates[1..];
      assert codes + candidates == codes + [c] + rest;
      if HasCode(codes, c.code) {
        AddNewFirst(codes, rest, code);
        KnownCodeIsNotFirst(codes, c, rest, code);
      } else {
        AddNewFirst(codes + [c], rest, code);
      }
    }
  }

  /** All entries with one code are equal. */
  ghost predicate Uniform(codes: seq<Code>) {
    forall i, j | 0 <= i < j < |codes| && codes[i].code == codes[j].code :: codes[i] == codes[j]
  }

  lemma {:induction false} AddNewUniform(codes: seq<Code>, candidates: seq<Code>)
    requires Uniform(codes)
    ensures Uniform(AddNew(codes, candidates))
    decreases candidates
  {
    if candidates == [] {
    } else {
      AddNewUniform(if HasCode(codes, candidates[0].code) then codes else codes + [candidates[0]], candidates[1..]);
    }
  }

  /** The better of two findings; the one-hop finding wins ties. */
  function Better(one: Option<Code>, two: Option<Code>): Option<Code> {
    if one.None? then two
    else if two.None? then one
    else if two.value.confidence > one.value.confidence then two
    else one
  }

  lemma {:induction false} DedupedKeeps(one: seq<Code>, two: seq<Code>, code: string)
    requires Uniform(one) && Uniform(two)
    ensures Get(Deduped(one + two), code) == Better(FirstWith(one, code), FirstWith(two, code))
    ensures Distinct(Deduped(one + two)) && forall e | e in Deduped(one + two) :: e.key == e.value.code
    decreases |one| + |two|
  {
    var all := one + two;
    if all == [] {
    } else {
      var n, before := all[|all| - 1], all[..|all| - 1];
      if two != [] {
        var two' := two[..|two| - 1];
        assert before == one + two';
        DedupedKeeps(one, two', code);
        DedupedKeeps(one, two', n.code);
        LastEntry(two, code);
        LastEntry(two, n.code);
      } else {
        var one' := one[..|one| - 1];
        assert before == one' + two;
        DedupedKeeps(one', two, code);
        DedupedKeeps(one', two, n.code);
        LastEntry(one, code);
        LastEntry(one, n.code);
      }
      DedupedStep(all, code);
    }
  }

  /** What the last entry of a uniform list adds to what comes first. */
  lemma LastEntry(codes: seq<Code>, code: string)
    requires codes != [] && Uniform(codes)
    ensures var before, n := codes[..|codes| - 1], codes[|codes| - 1];
            && Uniform(before)
            && FirstWith(codes, code) ==
               (if FirstWith(before, code).Some? then FirstWith(before, code)
                else if n.code == code then Some(n) else None)
            && (n.code == code ==> FirstWith(codes, code) == Some(n))
  {
    var before, n := codes[..|codes| - 1], codes[|codes| - 1];
    assert codes == before + [n];
    FirstWithAppend(before, [n], code);
    FirstWithIn(before, code);
  }

  lemma {:induction false} FirstWithIn(codes: seq<Code>, code: string)
    ensures FirstWith(codes, code).Some? ==> exists i | 0 <= i < |codes| :: codes[i] == FirstWith(codes, code).value
    ensures FirstWith(codes, code).Some? ==> FirstWith(codes, code).value.code == code
  {
    if codes != [] && codes[0].code != code {
      FirstWithIn(codes[1..], code);
      if FirstWith(codes[1..], code).Some? {
        var i :| 0 <= i < |codes[1..]| && codes[1..][i] == FirstWith(codes[1..], code).value;
        assert codes[i + 1] == codes[1..][i];
      }
    }
  }

  lemma DedupedStep(codes: seq<Code>, code: string)
    requires codes != []
    requires var before := Deduped(codes[..|codes| - 1]);
             Distinct(before) && forall e | e in before :: e.key == e.value.code
    ensures var before, n := Deduped(codes[..|codes| - 1]), codes[|codes| - 1];
            && Get(Deduped(codes), code) ==
               (if n.code != code then Get(before, code) else Better(Get(before, code), Some(n)))
            && Distinct(Deduped(codes)) && forall e | e in Deduped(codes) :: e.key == e.value.code
  {
    var before, n := Deduped(codes[..|codes| - 1]), codes[|codes| - 1];
    SetGet(before, n.code, n, code);
    SetDistinct(before, n.code, n);
    SetEntries(before, n.code, n);
  }

  method Dedupe(codes: seq<Code>) returns (deduped: JsMap<string, Code>)
    ensures deduped == Deduped(codes) && KeepsBest(codes, deduped)
  {
    DedupedKeepsBest(codes);
    deduped := [];
    for i := 0 to |codes|
      invariant deduped == Deduped(codes[..i])
    {
      var existing := Get(deduped, codes[i].code);
      assert codes[..i + 1][..i] == codes[..i];
      if existing.None? || codes[i].confidence > existing.value.confidence {
        deduped := Set(deduped, codes[i].code, codes[i]);
      }
    }
    assert codes[..|codes|] == codes;
  }

  /** Entry k is the first of the highest confidence among those with its code. */
  ghost predicate IsBest(codes: seq<Code>, k: int) {
    0 <= k < |codes| &&
    forall j | 0 <= j < |codes| && codes[j].code == codes[k].code ::
      codes[j].confidence < codes[k].confidence || (codes[j].confidence == codes[k].confidence && k <= j)
  }

  ghost predicate HoldsBest(codes: seq<Code>, e: Entry<string, Code>) {
    exists k :: IsBest(codes, k) && e == Entry(codes[k].code, codes[k])
  }

  /** The kept entry of each code is its best, and codes stand in the order of their first entries. */
  ghost predicate KeepsBest(codes: seq<Code>, deduped: JsMap<string, Code>) {
    && Distinct(deduped)
    && Keys(deduped) == Map(CodeOf(), AddNew([], codes))
    && forall e | e in deduped :: HoldsBest(codes, e)
  }

  function CodeOf(): Code -> string {
    (c: Code) => c.code
  }

  lemma HasKey(codes: seq<Code>, code: string)
    ensures code in Map(CodeOf(), codes) <==> HasCode(codes, code)
  {
    if HasCode(codes, code) {
      var i :| 0 <= i < |codes| && codes[i].code == code;
      assert Map(CodeOf(), codes)[i] == code;
    }
  }

  lemma {:induction false} DedupedKeepsBest(codes: seq<Code>)
    ensures KeepsBest(codes, Deduped(codes))
  {
    if codes == [] {
    } else {
      var before, n := codes[..|codes| - 1], codes[|codes| - 1];
      DedupedKeepsBest(before);
      assert codes == before + [n];
      StepKeys(before, n, Deduped(before));
      StepBest(before, n, Deduped(before));
      SetDistinct(Deduped(before), n.code, n);
    }
  }

  lemma StepKeys(before: seq<Code>, n: Code, kept: JsMap<string, Code>)
    requires Keys(kept) == Map(CodeOf(), AddNew([], before))
    ensures Keys(DedupeStep(kept, n)) == Map(CodeOf(), AddNew([], before + [n]))
  {
    var found := AddNew([], before);
    AddNewAppend([], before, [n]);
    HasKey(found, n.code);
    SetKeys(kept, n.code, n);
    MapAppend(CodeOf(), found, [n]);
    assert AddNew(found, [n]) == if HasCode(found, n.code) then found else found + [n];
  }

  /** One more entry replaces the kept one of its code exactly when it is better. */
  lemma StepBest(before: seq<Code>, n: Code, kept: JsMap<string, Code>)
    requires KeepsBest(before, kept)
    ensures forall e | e in DedupeStep(kept, n) :: HoldsBest(before + [n], e)
  {
    var existing := Get(kept, n.code);
    var better := existing.None? || n.confidence > existing.value.confidence;
    SetGone(kept, n.code, n);
    if better {
      NewIsBest(before, n, kept);
      assert (before + [n])[|before|] == n;
    }
    forall e | e in kept && (better ==> e.key != n.code)
      ensures HoldsBest(before + [n], e)
    {
      StaysBest(before, n, kept, e);
    }
  }

  /** Setting a key leaves no other entry with it. */
  lemma {:induction false} SetGone(m: JsMap<string, Code>, k: string, v: Code)
    requires Distinct(m)
    ensures forall e | e in Set(m, k, v) :: e == Entry(k, v) || (e in m && e.key != k)
  {
    if m == [] {
    } else {
      SetGone(m[1..], k, v);
      assert forall i | 0 <= i < |m| - 1 :: m[1..][i] == m[i + 1];
    }
  }

  lemma StaysBest(before: seq<Code>, n: Code, kept: JsMap<string, Code>, e: Entry<string, Code>)
    requires Distinct(kept) && e in kept && HoldsBest(before, e)
    requires e.key == n.code ==>
               Get(kept, n.code).None? || n.confidence <= Get(kept, n.code).value.confidence
    ensures HoldsBest(before + [n], e)
  {
    var k :| IsBest(before, k) && e == Entry(before[k].code, before[k]);
    GetEntry(kept, e);
    assert IsBest(before + [n], k);
  }

  lemma {:induction false} GetEntry(m: JsMap<string, Code>, e: Entry<string, Code>)
    requires Distinct(m) && e in m
    ensures Get(m, e.key) == Some(e.value)
  {
    if m[0] == e {
    } else {
      assert e in m[1..];
      GetEntry(m[1..], e);
    }
  }

  lemma NewIsBest(before: seq<Code>, n: Code, kept: JsMap<string, Code>)
    requires KeepsBest(before, kept)
    requires Get(kept, n.code).None? || n.confidence > Get(kept, n.code).value.confidence
    ensures IsBest(before + [n], |before|)
  {
    HasKey(AddNew([], before), n.code);
    HasAdded([], before, n.code);
    if HasCode(before, n.code) {
      var e := Entry(n.code, Get(kept, n.code).value);
      assert HoldsBest(before, e);
      var k :| IsBest(before, k) && e == Entry(before[k].code, before[k]);
    }
  }

  // ------------------------------------------------------------ which codes, with what confidence

  /** The one-hop relation. */
  ghost predicate OneHop(e: Engine, cip: string, naics: string) {
    naics in e.db.naicsForCip(cip) || exists m | m in e.index.cipToNaics :: m.source == cip && m.target == naics
  }

  ghost predicate SocOf(e: Engine, cip: string, soc: string) {
    soc in e.db.socForCip(cip) || exists m | m in e.index.cipToSoc :: m.source == cip && m.target == soc
  }

  /** The two-hop relation through some SOC code. */
  ghost predicate TwoHop(e: Engine, cip: string, naics: string) {
    exists soc :: SocOf(e, cip, soc) && ViaSoc(e, soc, naics)
  }

  ghost predicate ViaSoc(e: Engine, soc: string, naics: string) {
    naics in e.db.naicsForSoc(soc) || exists m | m in e.index.socToNaics :: m.source == soc && m.target == naics
  }

  lemma HasMapped<T>(f: T -> Code, s: seq<T>, code: string)
    ensures HasCode(Map(f, s), code) <==> exists x | x in s :: f(x).code == code
  {
    if HasCode(Map(f, s), code) {
      var i :| 0 <= i < |s| && Map(f, s)[i].code == code;
      assert s[i] in s && f(s[i]).code == code;
    }
    if x :| x in s && f(x).code == code {
      var i :| 0 <= i < |s| && s[i] == x;
      assert Map(f, s)[i].code == code;
    }
  }

  lemma HasAdded(codes: seq<Code>, candidates: seq<Code>, code: string)
    ensures HasCode(AddNew(codes, candidates), code) <==> HasCode(codes, code) || HasCode(candidates, code)
  {
    AddNewFirst(codes, candidates, code);
    FirstWithAppend(codes, candidates, code);
    FirstWithAppend(AddNew(codes, candidates), [], code);
    FirstWithAppend(candidates, [], code);
  }

  lemma CodesForAre(e: Engine, listed: seq<string>, mappings: seq<Mapping>, code: string)
    ensures HasCode(CodesFor(e, listed, mappings), code) <==>
            code in listed || exists m | m in mappings :: m.target == code
    ensures Uniform(CodesFor(e, listed, mappings))
  {
    HasAdded(Map(e.FromDb(), listed), Map(e.FromIndex(), mappings), code);
    HasMapped(e.FromDb(), listed, code);
    HasMapped(e.FromIndex(), mappings, code);
    AddNewUniform(Map(e.FromDb(), listed), Map(e.FromIndex(), mappings));
  }

  lemma CandidatesForAre(e: Engine, soc: Code, code: string)
    ensures HasCode(CandidatesFor(e, soc), code) <==> ViaSoc(e, soc.code, code)
  {
    var a := Map(e.ViaSocDb(soc), e.db.naicsForSoc(soc.code));
    var b := Map(e.ViaSocIndex(soc), e.IndexedNaicsForSoc(soc.code));
    HasMapped(e.ViaSocDb(soc), e.db.naicsForSoc(soc.code), code);
    HasMapped(e.ViaSocIndex(soc), e.IndexedNaicsForSoc(soc.code), code);
    HasEither(a, b, code);
  }

  lemma HasEither(a: seq<Code>, b: seq<Code>, code: string)
    ensures HasCode(a + b, code) <==> HasCode(a, code) || HasCode(b, code)
  {
    FirstWithAppend(a, b, code);
    FirstWithAppend(b, [], code);
    FirstWithAppend(a + b, [], code);
  }

  lemma {:induction false} CandidatesViaAre(e: Engine, socs: seq<Code>, code: string)
    ensures HasCode(CandidatesVia(e, socs), code) <==>
            exists i | 0 <= i < |socs| :: ViaSoc(e, socs[i].code, code)
  {
    if socs == [] {
    } else {
      var before := socs[..|socs| - 1];
      CandidatesViaAre(e, before, code);
      CandidatesForAre(e, socs[|socs| - 1], code);
      HasEither(CandidatesVia(e, before), CandidatesFor(e, socs[|socs| - 1]), code);
      assert forall i | 0 <= i < |before| :: socs[i] == before[i];
    }
  }

  lemma NaicsViaSocAre(e: Engine, cip: string, naics: string)
    ensures HasCode(NaicsViaSoc(e, cip), naics) <==> TwoHop(e, cip, naics)
    ensures Uniform(NaicsViaSoc(e, cip))
  {
    var socs := SocForCip(e, cip);
    CandidatesViaAre(e, socs, naics);
    HasAdded([], CandidatesVia(e, socs), naics);
    AddNewUniform([], CandidatesVia(e, socs));
    if i :| 0 <= i < |socs| && ViaSoc(e, socs[i].code, naics) {
      CodesForAre(e, e.db.socForCip(cip), e.IndexedSocForCip(cip), socs[i].code);
      assert SocOf(e, cip, socs[i].code);
    }
    if soc :| SocOf(e, cip, soc) && ViaSoc(e, soc, naics) {
      CodesForAre(e, e.db.socForCip(cip), e.IndexedSocForCip(cip), soc);
      var i :| 0 <= i < |socs| && socs[i].code == soc;
      assert ViaSoc(e, socs[i].code, naics);
    }
  }

  /** The codes a traversal considers are duplicate-free. */
  lemma UniqueNaicsDistinct(e: Engine, cip: string)
    ensures forall i, j | 0 <= i < j < |UniqueNaics(e, cip)| ::
              UniqueNaics(e, cip)[i].code != UniqueNaics(e, cip)[j].code
  {
    var a, b := NaicsForCip(e, cip), NaicsViaSoc(e, cip);
    CodesForAre(e, e.db.naicsForCip(cip), e.IndexedNaicsForCip(cip), "");
    NaicsViaSocAre(e, cip, "");
    DedupedKeeps(a, b, "");
    var d := Deduped(a + b);
    assert forall i | 0 <= i < |d| :: d[i] in d && Values(d)[i].code == d[i].key;
  }

  lemma UniqueNaicsKeep(e: Engine, cip: string, naics: string)
    ensures FirstWith(UniqueNaics(e, cip), naics) ==
            Better(FirstWith(NaicsForCip(e, cip), naics), FirstWith(NaicsViaSoc(e, cip), naics))
  {
    var a, b := NaicsForCip(e, cip), NaicsViaSoc(e, cip);
    CodesForAre(e, e.db.naicsForCip(cip), e.IndexedNaicsForCip(cip), naics);
    NaicsViaSocAre(e, cip, naics);
    DedupedKeeps(a, b, naics);
    FirstOfValues(Deduped(a + b), naics);
  }

  /** The considered codes are exactly the one-hop and the two-hop ones. */
  lemma UniqueNaicsAre(e: Engine, cip: string, naics: string)
    ensures HasCode(UniqueNaics(e, cip), naics) <==> OneHop(e, cip, naics) || TwoHop(e, cip, naics)
  {
    CodesForAre(e, e.db.naicsForCip(cip), e.IndexedNaicsForCip(cip), naics);
    NaicsViaSocAre(e, cip, naics);
    UniqueNaicsKeep(e, cip, naics);
    FirstWithAppend(NaicsForCip(e, cip), [], naics);
    FirstWithAppend(NaicsViaSoc(e, cip), [], naics);
    FirstWithAppend(UniqueNaics(e, cip), [], naics);
  }

  /** One hop's findings: database codes at the direct weight, then index rows at theirs times the crosswalk weight. */
  ghost function Hop(listed: seq<string>, rows: seq<Mapping>, source: string, weights: Weights): seq<Code> {
    Map((n: string) => Code(n, Direct, weights.direct), listed) +
    Map((m: Mapping) => Code(m.target, m.matchType, m.confidence * weights.crosswalk),
        Filter((m: Mapping) => m.source == source, rows))
  }

  /** The second hop's findings from a SOC code, at its confidence times those of the hop. */
  ghost function HopFrom(e: Engine, soc: Code): seq<Code> {
    Map((n: string) => Code(n, Crosswalked, soc.confidence * e.weights.crosswalk), e.db.naicsForSoc(soc.code)) +
    Map((m: Mapping) => Code(m.target, Inferred, soc.confidence * m.confidence * e.weights.inferred),
        Filter((m: Mapping) => m.source == soc.code, e.index.socToNaics))
  }

  /** The findings from several SOC codes, one after the other. */
  ghost function SecondHop(e: Engine, socs: seq<Code>): seq<Code> {
    if socs == [] then [] else SecondHop(e, socs[..|socs| - 1]) + HopFrom(e, socs[|socs| - 1])
  }

  lemma FindingsAre(e: Engine, listed: seq<string>, rows: seq<Mapping>, source: string)
    ensures Map(e.FromDb(), listed) + Map(e.FromIndex(), Filter(From(source), rows)) ==
            Hop(listed, rows, source, e.weights)
  {
    FilterAgree(From(source), (m: Mapping) => m.source == source, rows);
  }

  lemma CandidatesForIs(e: Engine, soc: Code)
    ensures CandidatesFor(e, soc) == HopFrom(e, soc)
  {
    FilterAgree(From(soc.code), (m: Mapping) => m.source == soc.code, e.index.socToNaics);
  }

  lemma {:induction false} CandidatesViaIs(e: Engine, socs: seq<Code>)
    ensures CandidatesVia(e, socs) == SecondHop(e, socs)
  {
    if socs == [] {
    } else {
      CandidatesViaIs(e, socs[..|socs| - 1]);
      CandidatesForIs(e, socs[|socs| - 1]);
    }
  }

  /**
   The SOC codes of the second path: the database's as listed, then those of the index that are new. The codes
   of both paths are found in the same way.
   */
  lemma FirstHopIs(e: Engine, cip: string)
    ensures var listed := e.db.socForCip(cip);
            var findings := Hop(listed, e.index.cipToSoc, cip, e.weights);
            SocForCip(e, cip) == AddNew(findings[..|listed|], findings[|listed|..])
    ensures var listed := e.db.naicsForCip(cip);
            var findings := Hop(listed, e.index.cipToNaics, cip, e.weights);
            NaicsForCip(e, cip) == AddNew(findings[..|listed|], findings[|listed|..])
    ensures NaicsViaSoc(e, cip) == AddNew([], SecondHop(e, SocForCip(e, cip)))
  {
    FindingsAre(e, e.db.socForCip(cip), e.index.cipToSoc, cip);
    FindingsAre(e, e.db.naicsForCip(cip), e.index.cipToNaics, cip);
    CandidatesViaIs(e, SocForCip(e, cip));
  }

  /** The code of candidate k is neither there yet nor that of an earlier candidate. */
  ghost predicate IsNew(codes: seq<Code>, candidates: seq<Code>, k: int)
    requires 0 <= k < |candidates|
  {
    !HasCode(codes, candidates[k].code) && !HasCode(candidates[..k], candidates[k].code)
  }

  /** `added` lists, in order, which candidates stand behind the codes. */
  ghost predicate AreAdded(codes: seq<Code>, candidates: seq<Code>, added: seq<nat>, result: seq<Code>) {
    && codes <= result && |result| == |codes| + |added|
    && (forall i, j | 0 <= i < j < |added| :: added[i] < added[j])
    && (forall i | 0 <= i < |added| :: added[i] < |candidates| && result[|codes| + i] == candidates[added[i]])
  }

  lemma NewAmongFirst(codes: seq<Code>, candidates: seq<Code>, n: nat)
    requires n <= |candidates|
    ensures forall k | 0 <= k < n :: IsNew(codes, candidates, k) <==> IsNew(codes, candidates[..n], k)
  {
    assert forall k | 0 <= k < n :: candidates[..k] == candidates[..n][..k];
  }

  /** One more candidate is added at the end exactly when it is new. */
  lemma AddNewLast(codes: seq<Code>, candidates: seq<Code>)
    requires candidates != []
    ensures var n := |candidates| - 1;
            AddNew(codes, candidates) ==
            AddNew(codes, candidates[..n]) + if IsNew(codes, candidates, n) then [candidates[n]] else []
  {
    var n := |candidates| - 1;
    AddNewNext(codes, candidates, n);
    HasAdded(codes, candidates[..n], candidates[n].code);
    assert candidates[..|candidates|] == candidates;
    assert AddNew(codes, candidates[..n]) + [] == AddNew(codes, candidates[..n]);
  }

  lemma MoreAdded(codes: seq<Code>, candidates: seq<Code>, added: seq<nat>, result: seq<Code>, n: nat)
    requires n == |candidates| - 1 && AreAdded(codes, candidates[..n], added, result)
    ensures AreAdded(codes, candidates, added, result)
    ensures AreAdded(codes, candidates, added + [n], result + [candidates[n]])
  {
  }

  /** The positions of the new candidates. */
  ghost function NewOnes(codes: seq<Code>, candidates: seq<Code>): seq<nat> {
    if candidates == [] then []
    else
      var n := |candidates| - 1;
      NewOnes(codes, candidates[..n]) + if IsNew(codes, candidates, n) then [n] else []
  }

  lemma {:induction false} NewOnesAre(codes: seq<Code>, candidates: seq<Code>)
    ensures forall k | k in NewOnes(codes, candidates) :: k < |candidates|
    ensures forall k | 0 <= k < |candidates| :: k in NewOnes(codes, candidates) <==> IsNew(codes, candidates, k)
  {
    if candidates == [] {
    } else {
      NewOnesAre(codes, candidates[..|candidates| - 1]);
      NewAmongFirst(codes, candidates, |candidates| - 1);
    }
  }

  /** What is added are, in order, the new candidates. */
  lemma {:induction false} AddNewIs(codes: seq<Code>, candidates: seq<Code>)
    ensures AreAdded(codes, candidates, NewOnes(codes, candidates), AddNew(codes, candidates))
  {
    if candidates == [] {
    } else {
      var n := |candidates| - 1;
      AddNewIs(codes, candidates[..n]);
      AddNewLast(codes, candidates);
      MoreAdded(codes, candidates, NewOnes(codes, candidates[..n]), AddNew(codes, candidates[..n]), n);
      assert AddNew(codes, candidates[..n]) + [] == AddNew(codes, candidates[..n]);
      assert NewOnes(codes, candidates[..n]) + [] == NewOnes(codes, candidates[..n]);
    }
  }

  /**
   Each considered code is the better of its first one-hop and its first two-hop finding, counting
   all findings in discovery order, repetitions included.
   */
  lemma UniqueNaicsConfidence(e: Engine, cip: string, naics: string)
    ensures var one := Hop(e.db.naicsForCip(cip), e.index.cipToNaics, cip, e.weights);
            var two := SecondHop(e, SocForCip(e, cip));
            FirstWith(UniqueNaics(e, cip), naics) == Better(FirstWith(one, naics), FirstWith(two, naics))
  {
    UniqueNaicsKeep(e, cip, naics);
    AddNewFirst(Map(e.FromDb(), e.db.naicsForCip(cip)), Map(e.FromIndex(), e.IndexedNaicsForCip(cip)), naics);
    AddNewFirst([], CandidatesVia(e, SocForCip(e, cip)), naics);
    FindingsAre(e, e.db.naicsForCip(cip), e.index.cipToNaics, cip);
    CandidatesViaIs(e, SocForCip(e, cip));
    assert [] + SecondHop(e, SocForCip(e, cip)) == SecondHop(e, SocForCip(e, cip));
  }

  lemma {:induction false} FirstOfValues(d: JsMap<string, Code>, code: string)
    requires forall e | e in d :: e.key == e.value.code
    ensures FirstWith(Values(d), code) == Get(d, code)
  {
    if d == [] {
    } else {
      assert d[0] in d && Values(d)[0] == d[0].value;
      assert Values(d)[1..] == Values(d[1..]);
      FirstOfValues(d[1..], code);
    }
  }

  // ------------------------------------------------------------ confidences stay in [0, 1]

  predicate Unit(x: real) {
    0.0 <= x <= 1.0
  }

  ghost predicate UnitCodes(codes: seq<Code>) {
    forall i | 0 <= i < |codes| :: Unit(codes[i].confidence)
  }

  ghost predicate UnitRows(rows: seq<Mapping>) {
    forall i | 0 <= i < |rows| :: Unit(rows[i].confidence)
  }

  lemma NonNegativeProduct(x: real, y: real)
    requires x >= 0.0 && y >= 0.0
    ensures x * y >= 0.0
  {
  }

  lemma UnitProduct(x: real, y: real)
    requires Unit(x) && Unit(y)
    ensures Unit(x * y)
  {
    var z := 1.0 - x;
    NonNegativeProduct(x, y);
    NonNegativeProduct(z, y);
    assert z * y == y - x * y;
  }

  lemma {:induction false} AddNewUnit(codes: seq<Code>, candidates: seq<Code>)
    requires UnitCodes(codes) && UnitCodes(candidates)
    ensures UnitCodes(AddNew(codes, candidates))
    decreases candidates
  {
    if candidates == [] {
    } else {
      AddNewUnit(if HasCode(codes, candidates[0].code) then codes else codes + [candidates[0]], candidates[1..]);
    }
  }

  lemma MappedUnit<T>(f: T -> Code, s: seq<T>)
    requires forall x | x in s :: Unit(f(x).confidence)
    ensures UnitCodes(Map(f, s))
  {
  }

  lemma RowsIn(rows: seq<Mapping>, code: string)
    requires UnitRows(rows)
    ensures forall m | m in Filter(From(code), rows) :: Unit(m.confidence)
  {
  }

  lemma CodesForUnit(e: Engine, listed: seq<string>, mappings: seq<Mapping>)
    requires Unit(e.weights.direct) && Unit(e.weights.crosswalk)
    requires forall m | m in mappings :: Unit(m.confidence)
    ensures UnitCodes(CodesFor(e, listed, mappings))
  {
    forall m | m in mappings
      ensures Unit(e.FromIndex()(m).confidence)
    {
      UnitProduct(m.confidence, e.weights.crosswalk);
    }
    MappedUnit(e.FromDb(), listed);
    MappedUnit(e.FromIndex(), mappings);
    AddNewUnit(Map(e.FromDb(), listed), Map(e.FromIndex(), mappings));
  }

  lemma {:induction false} CandidatesUnit(e: Engine, socs: seq<Code>)
    requires Unit(e.weights.crosswalk) && Unit(e.weights.inferred)
    requires UnitRows(e.index.socToNaics) && UnitCodes(socs)
    ensures UnitCodes(CandidatesVia(e, socs))
  {
    if socs == [] {
    } else {
      var soc := socs[|socs| - 1];
      CandidatesUnit(e, socs[..|socs| - 1]);
      RowsIn(e.index.socToNaics, soc.code);
      UnitProduct(soc.confidence, e.weights.crosswalk);
      forall m | m in e.IndexedNaicsForSoc(soc.code)
        ensures Unit(e.ViaSocIndex(soc)(m).confidence)
      {
        UnitProduct(soc.confidence, m.confidence);
        UnitProduct(soc.confidence * m.confidence, e.weights.inferred);
      }
      MappedUnit(e.ViaSocDb(soc), e.db.naicsForSoc(soc.code));
      MappedUnit(e.ViaSocIndex(soc), e.IndexedNaicsForSoc(soc.code));
    }
  }

  lemma {:induction false} DedupedUnit(codes: seq<Code>)
    requires UnitCodes(codes)
    ensures forall e | e in Deduped(codes) :: Unit(e.value.confidence)
  {
    if codes == [] {
    } else {
      DedupedUnit(codes[..|codes| - 1]);
      SetEntries(Deduped(codes[..|codes| - 1]), codes[|codes| - 1].code, codes[|codes| - 1]);
    }
  }

  /** With weights and row confidences in [0, 1], so are the confidences of all considered codes. */
  lemma UniqueNaicsUnit(e: Engine, cip: string)
    requires Unit(e.weights.direct) && Unit(e.weights.crosswalk) && Unit(e.weights.inferred)
    requires UnitRows(e.index.cipToNaics) && UnitRows(e.index.cipToSoc) && UnitRows(e.index.socToNaics)
    ensures UnitCodes(UniqueNaics(e, cip))
  {
    RowsIn(e.index.cipToNaics, cip);
    RowsIn(e.index.cipToSoc, cip);
    CodesForUnit(e, e.db.naicsForCip(cip), e.IndexedNaicsForCip(cip));
    CodesForUnit(e, e.db.socForCip(cip), e.IndexedSocForCip(cip));
    CandidatesUnit(e, SocForCip(e, cip));
    AddNewUnit([], CandidatesVia(e, SocForCip(e, cip)));
    var d := Deduped(NaicsForCip(e, cip) + NaicsViaSoc(e, cip));
    DedupedUnit(NaicsForCip(e, cip) + NaicsViaSoc(e, cip));
    assert forall i | 0 <= i < |d| :: d[i] in d && Values(d)[i] == d[i].value;
  }

  // ------------------------------------------------------------ scoring and ranking

  /** A path to licensure for one NAICS code, with its scores. */
  datatype Path = Path(
    cip: string, soc: seq<string>, naics: string, state: string, licensure: seq<string>, confidence: real, risk: real)

  function PathConfidence(soc: seq<string>, naics: seq<string>, licensure: seq<string>): real {
    var score := 0.5;
    var score1 := if |naics| > 0 then score + 0.2 else score;
    var score2 := if |soc| > 0 then score1 + 0.1 else score1;
    var score3 := if |licensure| > 0 then score2 + 0.2 else score2;
    MinReal(1.0, MaxReal(0.0, score3))
  }

  function PathRisk(soc: seq<string>, naics: seq<string>, licensure: seq<string>): real {
    var risk := 0.5;
    var risk1 := if |licensure| == 0 then risk + 0.3 else risk;
    var risk2 := if "inferred" in naics then risk1 + 0.1 else risk1;
    var risk3 := if |soc| == 0 then risk2 + 0.1 else risk2;
    MinReal(1.0, MaxReal(0.0, risk3))
  }

  predicate IsDirectMatch(e: Engine, naics: string, cip: string) {
    exists i | 0 <= i < |e.IndexedNaicsForCip(cip)| ::
      e.IndexedNaicsForCip(cip)[i].target == naics && e.IndexedNaicsForCip(cip)[i].matchType == Direct
  }

  datatype Scored = Scored(path: Path, isDirect: bool)

  /** The comparator of rankPaths is negative. */
  predicate RanksBefore(a: Scored, b: Scored) {
    if a.isDirect && !b.isDirect then true
    else if !a.isDirect && b.isDirect then false
    else if b.path.confidence != a.path.confidence then b.path.confidence - a.path.confidence < 0.0
    else a.path.risk - b.path.risk < 0.0
  }

  lemma RankingIsWeakOrder()
    ensures StrictWeakOrder(RanksBefore)
  {
  }

  function Score(e: Engine): Path -> Scored {
    (p: Path) => Scored(p, IsDirectMatch(e, p.naics, p.cip))
  }

  function Unscored(): Scored -> Path {
    (s: Scored) => s.path
  }

  function RankPaths(e: Engine, paths: seq<Path>): seq<Path> {
    Map(Unscored(), Sort(RanksBefore, Map(Score(e), paths)))
  }

  function PathFor(e: Engine, cip: string, state: string, soc: seq<string>): Code -> Path {
    (n: Code) =>
      var licensure := e.db.licensure(cip, state);
      Path(cip, soc, n.code, state, licensure,
           PathConfidence(soc, [n.code], licensure), PathRisk(soc, [n.code], licensure))
  }

  /** Whether the code is listed by the index as a direct match, and whether it reads "inferred". */
  function InGroup(e: Engine, cip: string, direct: bool, inferred: bool): Code -> bool {
    (n: Code) => IsDirectMatch(e, n.code, cip) == direct && (n.code == "inferred") == inferred
  }

  /** Direct index matches first; within each side, only a code that reads "inferred" goes last. */
  function Grouped(e: Engine, cip: string, codes: seq<Code>): seq<Code> {
    Filter(InGroup(e, cip, true, false), codes) + Filter(InGroup(e, cip, true, true), codes) +
    (Filter(InGroup(e, cip, false, false), codes) + Filter(InGroup(e, cip, false, true), codes))
  }

  function Ranked(e: Engine, cip: string): seq<Code> {
    Grouped(e, cip, UniqueNaics(e, cip))
  }

  /** The paths come out grouped by direct index match, in discovery order within a group. */
  method TraverseToLicensure(e: Engine, cip: string, state: string) returns (ranked: seq<Path>)
    ensures ranked == Map(PathFor(e, cip, state, Map(CodeOf(), SocForCip(e, cip))), Ranked(e, cip))
  {
    var directNaics := TraverseCipToNaics(e, cip);
    var soc, viaSoc := TraverseCipToSocToNaics(e, cip);
    var deduped := Dedupe(directNaics + viaSoc);
    var uniqueNaics := Values(deduped);
    var socInfo := Map(CodeOf(), soc);
    var paths := [];
    ghost var pathFor := PathFor(e, cip, state, socInfo);
    for i := 0 to |uniqueNaics|
      invariant paths == Map(pathFor, uniqueNaics)[..i]
    {
      var reqs := e.db.licensure(cip, state);
      var naics := uniqueNaics[i].code;
      paths := paths + [Path(cip, socInfo, naics, state, reqs,
                             PathConfidence(socInfo, [naics], reqs), PathRisk(socInfo, [naics], reqs))];
    }
    assert Map(pathFor, uniqueNaics)[..|uniqueNaics|] == Map(pathFor, uniqueNaics);
    RankingIsGrouping(e, cip, state, socInfo, uniqueNaics);
    ranked := RankPaths(e, paths);
  }

  /** Confidence and risk of any path, by what it has: they never leave [0.5, 1]. */
  lemma ScoresAre(soc: seq<string>, naics: seq<string>, licensure: seq<string>)
    ensures PathConfidence(soc, naics, licensure) ==
            0.5 + (if naics == [] then 0.0 else 0.2) + (if soc == [] then 0.0 else 0.1) +
            (if licensure == [] then 0.0 else 0.2)
    ensures PathRisk(soc, naics, licensure) ==
            0.5 + (if licensure == [] then 0.3 else 0.0) + (if "inferred" in naics then 0.1 else 0.0) +
            (if soc == [] then 0.1 else 0.0)
  {
  }

  /**
   What a path is made of. Its confidence is 0.7, 0.1 more with SOC codes and 0.2 more with licensure; its risk is
   0.5, 0.3 more without licensure, 0.1 more without SOC codes, and 0.1 more if the code reads "inferred".
   */
  lemma PathIs(e: Engine, cip: string, state: string, soc: seq<string>, n: Code)
    ensures var p := PathFor(e, cip, state, soc)(n);
            && p.cip == cip && p.soc == soc && p.naics == n.code && p.state == state
            && p.licensure == e.db.licensure(cip, state)
            && p.confidence == 0.7 + (if soc == [] then 0.0 else 0.1) + (if p.licensure == [] then 0.0 else 0.2)
            && p.risk == 0.5 + (if p.licensure == [] then 0.3 else 0.0) + (if soc == [] then 0.1 else 0.0)
                             + (if n.code == "inferred" then 0.1 else 0.0)
  {
  }

  /** Paths of one traversal share their confidence, and their risk unless the code reads "inferred". */
  lemma SameScores(e: Engine, cip: string, state: string, soc: seq<string>, a: Code, b: Code)
    ensures var p, q := PathFor(e, cip, state, soc)(a), PathFor(e, cip, state, soc)(b);
            && p.confidence == q.confidence
            && (p.risk < q.risk <==> a.code != "inferred" && b.code == "inferred")
            && Unit(p.confidence) && Unit(p.risk)
  {
  }

  /** The index lists the code for the CIP code as a direct match. */
  ghost predicate ListedDirect(e: Engine, cip: string, code: string) {
    exists m | m in e.index.cipToNaics :: m.source == cip && m.target == code && m.matchType == Direct
  }

  lemma DirectIffListed(e: Engine, cip: string, code: string)
    ensures IsDirectMatch(e, code, cip) <==> ListedDirect(e, cip, code)
  {
    var rows := e.IndexedNaicsForCip(cip);
    if m :| m in e.index.cipToNaics && m.source == cip && m.target == code && m.matchType == Direct {
      assert m in rows;
    }
    if i :| 0 <= i < |rows| && rows[i].target == code && rows[i].matchType == Direct {
      assert rows[i] in e.index.cipToNaics;
    }
  }

  /**
   Ranking any paths keeps them all, and puts direct matches first, then higher confidence, then lower risk.
   */
  lemma RankedInOrder(e: Engine, paths: seq<Path>)
    ensures var ranked := RankPaths(e, paths);
            && multiset(ranked) == multiset(paths)
            && forall i, j | 0 <= i < j < |ranked| ::
                 var (a, b) := (ranked[i], ranked[j]);
                 var (x, y) := (ListedDirect(e, a.cip, a.naics), ListedDirect(e, b.cip, b.naics));
                 x == y ==> a.confidence > b.confidence || (a.confidence == b.confidence && a.risk <= b.risk)
    ensures var ranked := RankPaths(e, paths);
            forall i, j | 0 <= i < j < |ranked| ::
              ListedDirect(e, ranked[j].cip, ranked[j].naics) ==> ListedDirect(e, ranked[i].cip, ranked[i].naics)
  {
    var sorted, ranked := Sort(RanksBefore, Map(Score(e), paths)), RankPaths(e, paths);
    RankingIsWeakOrder();
    SortSorted(RanksBefore, Map(Score(e), paths));
    SortPermutes(RanksBefore, Map(Score(e), paths));
    forall i | 0 <= i < |sorted|
      ensures sorted[i] == Scored(ranked[i], ListedDirect(e, ranked[i].cip, ranked[i].naics))
    {
      assert sorted[i] in Map(Score(e), paths);
      var k :| 0 <= k < |paths| && Score(e)(paths[k]) == sorted[i];
      DirectIffListed(e, paths[k].cip, paths[k].naics);
    }
    assert forall i, j | 0 <= i < j < |sorted| :: !RanksBefore(sorted[j], sorted[i]);
    MapSortPermutes(RanksBefore, Unscored(), Map(Score(e), paths));
    assert Map(Unscored(), Map(Score(e), paths)) == paths;
  }

  function IsScoredDirect(direct: bool): Scored -> bool {
    (s: Scored) => s.isDirect == direct
  }

  function IsScoredInferred(inferred: bool): Scored -> bool {
    (s: Scored) => (s.path.naics == "inferred") == inferred
  }

  function ScoredPath(e: Engine, cip: string, state: string, soc: seq<string>): Code -> Scored {
    (n: Code) => Score(e)(PathFor(e, cip, state, soc)(n))
  }

  lemma ScoredPathIs(e: Engine, cip: string, state: string, soc: seq<string>, n: Code)
    ensures var s := ScoredPath(e, cip, state, soc)(n);
            s.path.naics == n.code && s.isDirect == IsDirectMatch(e, n.code, cip)
  {
    var p := PathFor(e, cip, state, soc)(n);
    assert p.naics == n.code && p.cip == cip;
    assert Score(e)(p) == Scored(p, IsDirectMatch(e, p.naics, p.cip));
  }

  lemma GroupOrder(e: Engine, cip: string, state: string, soc: seq<string>, a: Code, b: Code)
    ensures var s, s' := ScoredPath(e, cip, state, soc)(a), ScoredPath(e, cip, state, soc)(b);
            s.isDirect == s'.isDirect ==>
              (RanksBefore(s, s') <==> s.path.naics != "inferred" && s'.path.naics == "inferred")
  {
    SameScores(e, cip, state, soc, a, b);
    ScoredPathIs(e, cip, state, soc, a);
    ScoredPathIs(e, cip, state, soc, b);
  }

  /** Within one side, only a code that reads "inferred" goes last. */
  lemma GroupSort(e: Engine, cip: string, state: string, soc: seq<string>, group: seq<Scored>)
    requires forall s | s in group :: exists n :: s == ScoredPath(e, cip, state, soc)(n)
    requires forall s, s' | s in group && s' in group :: s.isDirect == s'.isDirect
    ensures Sort(RanksBefore, group) ==
            Filter(IsScoredInferred(false), group) + Filter(IsScoredInferred(true), group)
  {
    forall s, s' | s in group && s' in group
      ensures RanksBefore(s, s') <==> s.path.naics != "inferred" && s'.path.naics == "inferred"
    {
      var n :| s == ScoredPath(e, cip, state, soc)(n);
      var n' :| s' == ScoredPath(e, cip, state, soc)(n');
      GroupOrder(e, cip, state, soc, n, n');
    }
    SortInferredLast(group);
  }

  lemma SortInferredLast(group: seq<Scored>)
    requires forall s, s' | s in group && s' in group ::
               RanksBefore(s, s') <==> s.path.naics != "inferred" && s'.path.naics == "inferred"
    ensures Sort(RanksBefore, group) ==
            Filter(IsScoredInferred(false), group) + Filter(IsScoredInferred(true), group)
  {
    SortPartition(RanksBefore, IsScoredInferred(false), IsScoredInferred(true), group);
    SortOfSorted(RanksBefore, Filter(IsScoredInferred(false), group));
    SortOfSorted(RanksBefore, Filter(IsScoredInferred(true), group));
  }

  /** The scored paths of one group, filtered from the scored codes, are the scored codes of that group. */
  lemma GroupFilter(e: Engine, cip: string, state: string, soc: seq<string>, codes: seq<Code>, direct: bool,
                    inferred: bool)
    ensures var f := ScoredPath(e, cip, state, soc);
            Filter(IsScoredInferred(inferred), Filter(IsScoredDirect(direct), Map(f, codes))) ==
            Map(f, Filter(InGroup(e, cip, direct, inferred), codes))
  {
    var f := ScoredPath(e, cip, state, soc);
    var both := (s: Scored) => s.isDirect == direct && (s.path.naics == "inferred") == inferred;
    FilterFilter(IsScoredInferred(inferred), IsScoredDirect(direct), both, Map(f, codes));
    forall n | n in codes
      ensures both(f(n)) == InGroup(e, cip, direct, inferred)(n)
    {
      ScoredPathIs(e, cip, state, soc, n);
    }
    FilterMap(both, InGroup(e, cip, direct, inferred), f, codes);
  }

  /** The scored codes of one side, sorted. */
  lemma SideSort(e: Engine, cip: string, state: string, soc: seq<string>, codes: seq<Code>, direct: bool)
    ensures var f := ScoredPath(e, cip, state, soc);
            Sort(RanksBefore, Filter(IsScoredDirect(direct), Map(f, codes))) ==
            Map(f, Filter(InGroup(e, cip, direct, false), codes) + Filter(InGroup(e, cip, direct, true), codes))
  {
    var f := ScoredPath(e, cip, state, soc);
    var scored := Map(f, codes);
    var side := Filter(IsScoredDirect(direct), scored);
    forall s | s in scored
      ensures exists n :: s == f(n)
    {
      var i :| 0 <= i < |scored| && scored[i] == s;
      assert s == f(codes[i]);
    }
    assert forall s | s in side :: s in scored && s.isDirect == direct;
    GroupSort(e, cip, state, soc, side);
    GroupFilter(e, cip, state, soc, codes, direct, false);
    GroupFilter(e, cip, state, soc, codes, direct, true);
    MapAppend(f, Filter(InGroup(e, cip, direct, false), codes), Filter(InGroup(e, cip, direct, true), codes));
  }

  lemma ScoredMap(e: Engine, cip: string, state: string, soc: seq<string>, codes: seq<Code>)
    ensures Map(Score(e), Map(PathFor(e, cip, state, soc), codes)) == Map(ScoredPath(e, cip, state, soc), codes)
    ensures Map(Unscored(), Map(ScoredPath(e, cip, state, soc), codes)) == Map(PathFor(e, cip, state, soc), codes)
  {
  }

  lemma RankingIsGrouping(e: Engine, cip: string, state: string, soc: seq<string>, codes: seq<Code>)
    ensures RankPaths(e, Map(PathFor(e, cip, state, soc), codes)) ==
            Map(PathFor(e, cip, state, soc), Grouped(e, cip, codes))
  {
    var f := ScoredPath(e, cip, state, soc);
    SideSort(e, cip, state, soc, codes, true);
    SideSort(e, cip, state, soc, codes, false);
    SortPartition(RanksBefore, IsScoredDirect(true), IsScoredDirect(false), Map(f, codes));
    MapAppend(f, Filter(InGroup(e, cip, true, false), codes) + Filter(InGroup(e, cip, true, true), codes),
              Filter(InGroup(e, cip, false, false), codes) + Filter(InGroup(e, cip, false, true), codes));
    ScoredMap(e, cip, state, soc, codes);
    ScoredMap(e, cip, state, soc, Grouped(e, cip, codes));
  }

  function IsDirectlyMatched(e: Engine, cip: string, direct: bool): Code -> bool {
    (n: Code) => IsDirectMatch(e, n.code, cip) == direct
  }

  lemma GroupedWithoutInferred(e: Engine, cip: string, codes: seq<Code>)
    requires forall n | n in codes :: n.code != "inferred"
    ensures Grouped(e, cip, codes) ==
            Filter(IsDirectlyMatched(e, cip, true), codes) + Filter(IsDirectlyMatched(e, cip, false), codes)
  {
    NotInferredGroups(e, cip, codes, true);
    NotInferredGroups(e, cip, codes, false);
    var a, b := Filter(IsDirectlyMatched(e, cip, true), codes), Filter(IsDirectlyMatched(e, cip, false), codes);
    assert Grouped(e, cip, codes) == a + [] + (b + []);
    assert a + [] == a && b + [] == b;
  }

  /**
   Without a code that reads "inferred", ranking is the stable partition that puts first the codes that the
   index lists as direct matches.
   */
  lemma RankingIsStablePartition(e: Engine, cip: string)
    requires !OneHop(e, cip, "inferred") && !TwoHop(e, cip, "inferred")
    ensures Ranked(e, cip) == Filter((n: Code) => ListedDirect(e, cip, n.code), UniqueNaics(e, cip)) +
                              Filter((n: Code) => !ListedDirect(e, cip, n.code), UniqueNaics(e, cip))
  {
    var codes := UniqueNaics(e, cip);
    NotConsidered(e, cip, "inferred");
    GroupedWithoutInferred(e, cip, codes);
    forall n: Code
      ensures IsDirectMatch(e, n.code, cip) == ListedDirect(e, cip, n.code)
    {
      DirectIffListed(e, cip, n.code);
    }
    FilterAgree(IsDirectlyMatched(e, cip, true), (n: Code) => ListedDirect(e, cip, n.code), codes);
    FilterAgree(IsDirectlyMatched(e, cip, false), (n: Code) => !ListedDirect(e, cip, n.code), codes);
  }

  lemma NotConsidered(e: Engine, cip: string, code: string)
    requires !OneHop(e, cip, code) && !TwoHop(e, cip, code)
    ensures forall n | n in UniqueNaics(e, cip) :: n.code != code
  {
    UniqueNaicsAre(e, cip, code);
  }

  lemma NotInferredGroups(e: Engine, cip: string, codes: seq<Code>, direct: bool)
    requires forall n | n in codes :: n.code != "inferred"
    ensures Filter(InGroup(e, cip, direct, false), codes) == Filter(IsDirectlyMatched(e, cip, direct), codes)
    ensures Filter(InGroup(e, cip, direct, true), codes) == []
  {
    FilterAgree(IsDirectlyMatched(e, cip, direct), InGroup(e, cip, direct, false), codes);
    FilterNone(InGroup(e, cip, direct, true), codes);
  }
}
