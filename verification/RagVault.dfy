/**
 The retrieval pipeline of the RAG vault, from the vector search onwards: filter by sector and
 compliance level, rank by composite score, drop duplicates, limit.
 */
module RagVault {
  import opened Wrappers
  import opened Seqs
  import opened Partitions

  datatype Document = Document(
    id: string, content: string, sourceRef: Option<string>, sectorTags: seq<string>, complianceLevel: string,
    depth: Option<real>)

  datatype RankedDocument = RankedDocument(
    document: Document, score: real, rank: int, relevanceScore: real, sectorScore: real, complianceScore: real)

  datatype RetrievalResult = RetrievalResult(documents: seq<RankedDocument>, totalCount: int)

  /** Ranks count from 1 and the total is the number of documents. */
  ghost predicate Numbered(r: RetrievalResult) {
    r.totalCount == |r.documents| && forall i | 0 <= i < |r.documents| :: r.documents[i].rank == i + 1
  }

  function Renumber(documents: seq<RankedDocument>): (r: seq<RankedDocument>)
    ensures |r| == |documents|
    ensures forall i | 0 <= i < |r| :: r[i] == documents[i].(rank := i + 1)
  {
    seq(|documents|, i requires 0 <= i < |documents| => documents[i].(rank := i + 1))
  }

  // ------------------------------------------------------------ filters

  /** Untagged documents and documents tagged "general" belong to every sector. */
  function InSector(sector: string): RankedDocument -> bool {
    (rd: RankedDocument) =>
      var tags := rd.document.sectorTags;
      tags == [] || sector in tags || "general" in tags
  }

  function Allowed(level: string): RankedDocument -> bool {
    (rd: RankedDocument) => LevelOf(rd.document.complianceLevel) <= LevelOf(level)
  }

  function FilterBySector(r: RetrievalResult, sector: string): RetrievalResult {
    var valid := Filter(InSector(sector), r.documents);
    RetrievalResult(Renumber(valid), |valid|)
  }

  function FilterByCompliance(r: RetrievalResult, level: string): RetrievalResult {
    if level == "" then r
    else
      var allowed := Filter(Allowed(level), r.documents);
      RetrievalResult(Renumber(allowed), |allowed|)
  }

  /**
   A document passes when its level is not above the required one. A level outside the list ranks
   below all of them: such a document passes every filter, and is all that passes a filter whose
   required level is itself outside the list.
   */
  lemma ComplianceMeaning(rd: RankedDocument, level: string)
    ensures var listed := rd.document.complianceLevel in COMPLIANCE_ORDER;
            Allowed(level)(rd) <==>
            !listed || (level in COMPLIANCE_ORDER &&
                        exists i, j | 0 <= i <= j < |COMPLIANCE_ORDER| ::
                          COMPLIANCE_ORDER[i] == rd.document.complianceLevel && COMPLIANCE_ORDER[j] == level)
  {
    var i, j := LevelOf(rd.document.complianceLevel), LevelOf(level);
    forall a, b | 0 <= a < b < |COMPLIANCE_ORDER|
      ensures COMPLIANCE_ORDER[a] != COMPLIANCE_ORDER[b]
    {
      assert |COMPLIANCE_ORDER[0]| == 6 && |COMPLIANCE_ORDER[1]| == 8 && |COMPLIANCE_ORDER[2]| == 10;
      assert |COMPLIANCE_ORDER[3]| == 12 && COMPLIANCE_ORDER[4][2] == 'g';
    }
    if i >= 0 && j >= 0 {
      assert COMPLIANCE_ORDER[i] == rd.document.complianceLevel && COMPLIANCE_ORDER[j] == level;
    }
  }

  // ------------------------------------------------------------ rank, dedupe, limit

  function CompositeScore(rd: RankedDocument): real {
    rd.relevanceScore * 0.6 + rd.sectorScore * 0.2 + rd.complianceScore * 0.2
  }

  function Rescored(rd: RankedDocument): RankedDocument {
    rd.(score := CompositeScore(rd))
  }

  predicate HigherScore(a: RankedDocument, b: RankedDocument) {
    b.score - a.score < 0.0
  }

  function Rank(r: RetrievalResult): RetrievalResult {
    r.(documents := Renumber(Sort(HigherScore, Map(Rescored, r.documents))))
  }

  function CanonicalKey(rd: RankedDocument): string {
    rd.document.sourceRef.GetOr(rd.document.id) + "|" + SliceTo(rd.document.content, 100)
  }

  /** The documents whose key was not seen before. */
  function Unseen(seen: set<string>, documents: seq<RankedDocument>): seq<RankedDocument>
    decreases documents
  {
    if documents == [] then []
    else if CanonicalKey(documents[0]) in seen then Unseen(seen, documents[1..])
    else [documents[0]] + Unseen(seen + {CanonicalKey(documents[0])}, documents[1..])
  }

  function Deduplicated(r: RetrievalResult): RetrievalResult {
    var unique := Unseen({}, r.documents);
    RetrievalResult(Renumber(unique), |unique|)
  }

  method Deduplicate(r: RetrievalResult) returns (result: RetrievalResult)
    ensures result == Deduplicated(r)
  {
    var seen: set<string> := {};
    var unique := [];
    for i := 0 to |r.documents|
      invariant unique + Unseen(seen, r.documents[i..]) == Unseen({}, r.documents)
    {
      var key := CanonicalKey(r.documents[i]);
      assert r.documents[i..][1..] == r.documents[i + 1..];
      if key !in seen {
        seen := seen + {key};
        unique := unique + [r.documents[i]];
      }
    }
    result := RetrievalResult(Renumber(unique), |unique|);
  }

  function Limit(r: RetrievalResult, maxResults: int): RetrievalResult {
    RetrievalResult(Renumber(SliceTo(r.documents, maxResults)), Min(r.totalCount, maxResults))
  }

  function ShallowerThan(maxDepth: int): RankedDocument -> bool {
    (rd: RankedDocument) => rd.document.depth.GetOr(0.0) <= maxDepth as real
  }

  function LimitByDepth(r: RetrievalResult, maxDepth: int): RetrievalResult {
    var shallow := Filter(ShallowerThan(maxDepth), r.documents);
    RetrievalResult(Renumber(shallow), |shallow|)
  }

  /** The total of a limited result is right exactly when the limit is not negative. */
  lemma LimitTotal(r: RetrievalResult, maxResults: int)
    requires Numbered(r)
    ensures Numbered(Limit(r, maxResults)) <==> maxResults >= 0
  {
  }

  // ------------------------------------------------------------ the pipeline

  datatype RetrieveQuery = RetrieveQuery(query: Query, maxResults: Option<int>, maxDepth: int)

  /** The search result after the filters. */
  function Filtered(search: RetrievalResult, q: Query): RetrievalResult {
    var bySector := if q.sector != "" then FilterBySector(search, q.sector) else search;
    FilterByCompliance(bySector, q.complianceLevel)
  }

  function LimitFor(q: RetrieveQuery, configured: int): int {
    q.maxResults.GetOr(configured)
  }

  function BeforeDepth(search: RetrievalResult, q: RetrieveQuery, configured: int): RetrievalResult {
    Limit(Deduplicated(Rank(Filtered(search, q.query))), LimitFor(q, configured))
  }

  function Pipeline(search: RetrievalResult, q: RetrieveQuery, configured: int): RetrievalResult {
    var ranked := BeforeDepth(search, q, configured);
    if q.maxDepth != 0 then LimitByDepth(ranked, q.maxDepth) else ranked
  }

  /** Every stage keeps the numbering right, the limit only if it is not negative. */
  lemma PipelineNumbered(search: RetrievalResult, q: RetrieveQuery, configured: int)
    ensures Numbered(search) ==> Numbered(Filtered(search, q.query)) && Numbered(Rank(Filtered(search, q.query)))
    ensures Numbered(Deduplicated(Rank(Filtered(search, q.query))))
    ensures Numbered(BeforeDepth(search, q, configured)) <==> LimitFor(q, configured) >= 0
    ensures Numbered(Pipeline(search, q, configured)) <==> LimitFor(q, configured) >= 0 || q.maxDepth != 0
  {
  }

  // ------------------------------------------------------------ top k

  /** A document without its rank: ranks are rewritten by every stage and read by none. */
  function Plain(rd: RankedDocument): RankedDocument {
    rd.(rank := 0)
  }

  function Plains(documents: seq<RankedDocument>): seq<RankedDocument> {
    Map(Plain, documents)
  }

  function Passes(q: Query): RankedDocument -> bool {
    (rd: RankedDocument) =>
      && (q.sector == "" || InSector(q.sector)(rd))
      && (q.complianceLevel == "" || Allowed(q.complianceLevel)(rd))
  }

  /** The documents to choose from, with their composite scores. */
  function Candidates(search: RetrievalResult, q: Query): seq<RankedDocument> {
    Map(Rescored, Plains(Filter(Passes(q), search.documents)))
  }

  function Keys(documents: seq<RankedDocument>): (r: set<string>)
    ensures forall rd | rd in documents :: CanonicalKey(rd) in r
  {
    if documents == [] then {} else {CanonicalKey(documents[0])} + Keys(documents[1..])
  }

  /** Candidate i is the one kept for its key: it beats the earlier ones and no later one beats it. */
  ghost predicate Represents(candidates: seq<RankedDocument>, i: nat)
    requires i < |candidates|
  {
    forall j | 0 <= j < |candidates| && CanonicalKey(candidates[j]) == CanonicalKey(candidates[i]) ::
      candidates[j].score < candidates[i].score || (candidates[j].score == candidates[i].score && i <= j)
  }

  /**
   The kept documents are the k best representatives, best first: one per key, as many as
   there are keys or k allows; whatever is omitted has a better kept document with its key, or is
   no better than any kept one.
   */
  ghost predicate IsTopK(candidates: seq<RankedDocument>, kept: seq<RankedDocument>, k: nat) {
    && (forall i, j | 0 <= i < j < |kept| ::
          kept[i].score >= kept[j].score && CanonicalKey(kept[i]) != CanonicalKey(kept[j]))
    && |kept| == Min(k, |Keys(candidates)|)
    && (forall rd | rd in kept :: exists i | 0 <= i < |candidates| :: candidates[i] == rd && Represents(candidates, i))
    && (forall c | c in candidates ::
          || (exists rd | rd in kept :: CanonicalKey(rd) == CanonicalKey(c) && rd.score >= c.score)
          || (forall rd | rd in kept :: rd.score >= c.score))
  }

  lemma ScoreIsWeakOrder()
    ensures StrictWeakOrder(HigherScore)
  {
  }

  function WithKey(key: string): RankedDocument -> bool {
    (rd: RankedDocument) => CanonicalKey(rd) == key
  }

  /** What deduplication keeps of a sorted list: a sorted list with one document per key. */
  lemma {:induction false} UnseenSpec(seen: set<string>, s: seq<RankedDocument>)
    requires Sorted(HigherScore, s)
    ensures var u := Unseen(seen, s);
            && (forall rd | rd in u :: rd in s && CanonicalKey(rd) !in seen)
            && Sorted(HigherScore, u)
            && (forall i, j | 0 <= i < j < |u| :: CanonicalKey(u[i]) != CanonicalKey(u[j]))
    decreases s
  {
    if s == [] {
    } else {
      var key, rest := CanonicalKey(s[0]), s[1..];
      if key in seen {
        UnseenSpec(seen, rest);
      } else {
        UnseenSpec(seen + {key}, rest);
        assert forall rd | rd in rest :: !HigherScore(rd, s[0]);
      }
    }
  }

  /** Every document has one with its key among the kept ones, which it does not outscore. */
  lemma {:induction false} UnseenCovers(seen: set<string>, s: seq<RankedDocument>, rd: RankedDocument) returns (i: nat)
    requires Sorted(HigherScore, s) && rd in s && CanonicalKey(rd) !in seen
    ensures var u := Unseen(seen, s);
            i < |u| && CanonicalKey(u[i]) == CanonicalKey(rd) && !HigherScore(rd, u[i])
    decreases s
  {
    var key, rest := CanonicalKey(s[0]), s[1..];
    if CanonicalKey(rd) == key {
      i := 0;
    } else if key in seen {
      i := UnseenCovers(seen, rest, rd);
    } else {
      i := UnseenCovers(seen + {key}, rest, rd);
      i := i + 1;
    }
  }

  /** Deduplication keeps, per key, the first document that has it. */
  lemma {:induction false} UnseenIsFirst(seen: set<string>, s: seq<RankedDocument>, i: nat)
    requires i < |Unseen(seen, s)|
    ensures var rd := Unseen(seen, s)[i];
            Filter(WithKey(CanonicalKey(rd)), s) != [] && Filter(WithKey(CanonicalKey(rd)), s)[0] == rd
    ensures CanonicalKey(Unseen(seen, s)[i]) !in seen
    decreases s
  {
    var key := CanonicalKey(s[0]);
    if key in seen {
      UnseenIsFirst(seen, s[1..], i);
    } else if i > 0 {
      UnseenIsFirst(seen + {key}, s[1..], i - 1);
    }
  }

  lemma {:induction false} UnseenCount(seen: set<string>, s: seq<RankedDocument>)
    ensures |Unseen(seen, s)| == |Keys(s) - seen|
    decreases s
  {
    if s == [] {
    } else {
      var key, rest := CanonicalKey(s[0]), Keys(s[1..]);
      if key in seen {
        UnseenCount(seen, s[1..]);
        assert ({key} + rest) - seen == rest - seen;
      } else {
        UnseenCount(seen + {key}, s[1..]);
        assert ({key} + rest) - seen == (rest - (seen + {key})) + {key};
      }
    }
  }

  lemma {:induction false} SameKeys(s: seq<RankedDocument>, t: seq<RankedDocument>)
    requires forall rd | rd in s :: rd in t
    ensures Keys(s) <= Keys(t)
  {
    if s == [] {
    } else {
      SameKeys(s[1..], t);
    }
  }

  /** Each document kept from the sorted candidates represents its key. */
  lemma KeptRepresents(candidates: seq<RankedDocument>, i: nat)
    requires i < |Unseen({}, Sort(HigherScore, candidates))|
    ensures var rd := Unseen({}, Sort(HigherScore, candidates))[i];
            exists j | 0 <= j < |candidates| :: candidates[j] == rd && Represents(candidates, j)
  {
    var s := Sort(HigherScore, candidates);
    var rd := Unseen({}, s)[i];
    var p := WithKey(CanonicalKey(rd));
    ScoreIsWeakOrder();
    UnseenIsFirst({}, s, i);
    FilterSort(HigherScore, p, candidates);
    SortPermutes(HigherScore, Filter(p, candidates));
    var j := HeadOfSort(HigherScore, p, candidates);
    forall m | 0 <= m < |candidates| && CanonicalKey(candidates[m]) == CanonicalKey(candidates[j])
      ensures candidates[m].score < candidates[j].score ||
              (candidates[m].score == candidates[j].score && j <= m)
    {
      assert p(candidates[m]);
    }
    assert Represents(candidates, j);
  }

  /** What is cut off a sorted, deduplicated list is covered by its key or no better than what is kept. */
  lemma OmittedIsNoBetter(u: seq<RankedDocument>, c: RankedDocument, i: nat, k: nat)
    requires Sorted(HigherScore, u) && i < |u|
    requires CanonicalKey(u[i]) == CanonicalKey(c) && !HigherScore(c, u[i])
    ensures var kept := SliceTo(u, k);
            || (exists rd | rd in kept :: CanonicalKey(rd) == CanonicalKey(c) && rd.score >= c.score)
            || (forall rd | rd in kept :: rd.score >= c.score)
  {
    var kept := SliceTo(u, k);
    if i < |kept| {
      assert kept[i] in kept;
    } else {
      forall rd | rd in kept
        ensures rd.score >= c.score
      {
        var j :| 0 <= j < |kept| && kept[j] == rd;
        assert !HigherScore(u[i], u[j]);
      }
    }
  }

  lemma KeptCount(candidates: seq<RankedDocument>)
    ensures |Unseen({}, Sort(HigherScore, candidates))| == |Keys(candidates)|
  {
    var s := Sort(HigherScore, candidates);
    SortPermutes(HigherScore, candidates);
    UnseenCount({}, s);
    SameKeys(s, candidates);
    SameKeys(candidates, s);
    assert Keys(s) - {} == Keys(candidates);
  }

  /** Every candidate has a representative in the sorted, deduplicated list, at least as good. */
  lemma Covered(candidates: seq<RankedDocument>, c: RankedDocument) returns (i: nat)
    requires c in candidates
    ensures var u := Unseen({}, Sort(HigherScore, candidates));
            i < |u| && CanonicalKey(u[i]) == CanonicalKey(c) && !HigherScore(c, u[i])
  {
    var s := Sort(HigherScore, candidates);
    ScoreIsWeakOrder();
    SortSorted(HigherScore, candidates);
    SortPermutes(HigherScore, candidates);
    i := UnseenCovers({}, s, c);
  }

  lemma UniqueSorted(candidates: seq<RankedDocument>)
    ensures var u := Unseen({}, Sort(HigherScore, candidates));
            && Sorted(HigherScore, u)
            && forall i, j | 0 <= i < j < |u| :: CanonicalKey(u[i]) != CanonicalKey(u[j])
  {
    ScoreIsWeakOrder();
    SortSorted(HigherScore, candidates);
    UnseenSpec({}, Sort(HigherScore, candidates));
  }

  /** Sorting, deduplicating and cutting at k yields the top k. */
  lemma SortUnseenSliceIsTopK(candidates: seq<RankedDocument>, k: nat)
    ensures IsTopK(candidates, SliceTo(Unseen({}, Sort(HigherScore, candidates)), k), k)
  {
    var u := Unseen({}, Sort(HigherScore, candidates));
    var kept := SliceTo(u, k);
    UniqueSorted(candidates);
    KeptCount(candidates);
    forall rd | rd in kept
      ensures exists i | 0 <= i < |candidates| :: candidates[i] == rd && Represents(candidates, i)
    {
      var i :| 0 <= i < |kept| && kept[i] == rd;
      KeptRepresents(candidates, i);
    }
    forall c | c in candidates
      ensures (exists rd | rd in kept :: CanonicalKey(rd) == CanonicalKey(c) && rd.score >= c.score)
              || (forall rd | rd in kept :: rd.score >= c.score)
    {
      var i := Covered(candidates, c);
      OmittedIsNoBetter(u, c, i, k);
    }
  }

  lemma {:induction false} UnseenPlain(seen: set<string>, s: seq<RankedDocument>)
    ensures Unseen(seen, Plains(s)) == Plains(Unseen(seen, s))
    decreases s
  {
    if s == [] {
    } else {
      assert Plains(s)[1..] == Plains(s[1..]);
      UnseenPlain(seen, s[1..]);
      UnseenPlain(seen + {CanonicalKey(s[0])}, s[1..]);
    }
  }

  lemma RenumberPlain(s: seq<RankedDocument>)
    ensures Plains(Renumber(s)) == Plains(s)
  {
  }

  lemma FilteredPlain(search: RetrievalResult, q: Query)
    ensures Plains(Filtered(search, q).documents) == Plains(Filter(Passes(q), search.documents))
  {
    var s, all := search.documents, Plains(search.documents);
    var inSector := (rd: RankedDocument) => q.sector == "" || InSector(q.sector)(rd);
    var bySector := if q.sector != "" then FilterBySector(search, q.sector).documents else s;
    assert Plains(bySector) == Filter(inSector, all) by {
      if q.sector != "" {
        RenumberPlain(Filter(InSector(q.sector), s));
        FilterMap(InSector(q.sector), InSector(q.sector), Plain, s);
        FilterAgree(InSector(q.sector), inSector, all);
      } else {
        FilterAll(inSector, all);
      }
    }
    if q.complianceLevel != "" {
      RenumberPlain(Filter(Allowed(q.complianceLevel), bySector));
      FilterMap(Allowed(q.complianceLevel), Allowed(q.complianceLevel), Plain, bySector);
      FilterFilter(Allowed(q.complianceLevel), inSector, Passes(q), all);
    } else {
      FilterAgree(inSector, Passes(q), all);
    }
    FilterMap(Passes(q), Passes(q), Plain, s);
  }

  lemma RankPlain(r: RetrievalResult, plain: seq<RankedDocument>)
    requires Plains(r.documents) == plain
    ensures Plains(Rank(r).documents) == Sort(HigherScore, Map(Rescored, plain))
  {
    var scored := Map(Rescored, r.documents);
    assert Plains(scored) == Map(Rescored, plain);
    SortMap(HigherScore, Plain, scored);
    RenumberPlain(Sort(HigherScore, scored));
  }

  lemma DedupLimitPlain(r: RetrievalResult, plain: seq<RankedDocument>, k: int)
    requires Plains(r.documents) == plain
    ensures Plains(Limit(Deduplicated(r), k).documents) == SliceTo(Unseen({}, plain), k)
  {
    var unique := Deduplicated(r).documents;
    UnseenPlain({}, r.documents);
    RenumberPlain(Unseen({}, r.documents));
    RenumberPlain(SliceTo(unique, k));
    assert Plains(SliceTo(unique, k)) == SliceTo(Plains(unique), k);
  }

  lemma BeforeDepthPlain(search: RetrievalResult, q: RetrieveQuery, configured: int)
    ensures Plains(BeforeDepth(search, q, configured).documents) ==
            SliceTo(Unseen({}, Sort(HigherScore, Candidates(search, q.query))), LimitFor(q, configured))
  {
    FilteredPlain(search, q.query);
    RankPlain(Filtered(search, q.query), Plains(Filter(Passes(q.query), search.documents)));
    DedupLimitPlain(Rank(Filtered(search, q.query)), Sort(HigherScore, Candidates(search, q.query)),
                    LimitFor(q, configured));
  }

  /**
   Whether a document answers a query: untagged, or tagged with the sector or "general", if a sector is given;
   and of a level that does not rank above the required one, if a level is required.
   */
  ghost predicate Fits(d: Document, q: Query) {
    && (q.sector != "" ==> d.sectorTags == [] || q.sector in d.sectorTags || "general" in d.sectorTags)
    && (q.complianceLevel != "" ==>
          forall a, b | IsRank(d.complianceLevel, a) && IsRank(q.complianceLevel, b) :: a <= b)
  }

  lemma AllowedIsRank(rd: RankedDocument, level: string)
    ensures Allowed(level)(rd) <==>
            forall a, b | IsRank(rd.document.complianceLevel, a) && IsRank(level, b) :: a <= b
  {
    LevelIsRank(rd.document.complianceLevel);
    LevelIsRank(level);
    var a, b := LevelOf(rd.document.complianceLevel), LevelOf(level);
    assert IsRank(rd.document.complianceLevel, a) && IsRank(level, b);
  }

  lemma FitsPasses(rd: RankedDocument, q: Query)
    ensures Fits(rd.document, q) == Passes(q)(rd)
  {
    AllowedIsRank(rd, q.complianceLevel);
  }

  /** The found documents that fit, in order, scored by relevance (0.6), sector (0.2) and compliance (0.2). */
  ghost function Choices(search: RetrievalResult, q: Query): seq<RankedDocument> {
    Map(Choice(), Filter((rd: RankedDocument) => Fits(rd.document, q), search.documents))
  }

  ghost function Choice(): RankedDocument -> RankedDocument {
    (rd: RankedDocument) =>
      RankedDocument(rd.document, rd.relevanceScore * 0.6 + rd.sectorScore * 0.2 + rd.complianceScore * 0.2, 0,
                     rd.relevanceScore, rd.sectorScore, rd.complianceScore)
  }

  lemma CandidatesAreChoices(search: RetrievalResult, q: Query)
    ensures Candidates(search, q) == Choices(search, q)
  {
    forall rd: RankedDocument
      ensures Fits(rd.document, q) == Passes(q)(rd)
    {
      FitsPasses(rd, q);
    }
    FilterAgree(Passes(q), (rd: RankedDocument) => Fits(rd.document, q), search.documents);
    RescoredPlain(Filter(Passes(q), search.documents));
  }

  lemma RescoredPlain(documents: seq<RankedDocument>)
    ensures Map(Rescored, Plains(documents)) == Map(Choice(), documents)
  {
    assert forall i | 0 <= i < |documents| :: Plains(documents)[i] == Plain(documents[i]);
  }

  /**
   Documents without "|" in their references are duplicates exactly when the reference, or the id if there
   is none, and the first 100 characters agree.
   */
  lemma SameKeyIff(a: Document, b: Document, x: RankedDocument, y: RankedDocument)
    requires x.document == a && y.document == b
    requires var (r, s) := (if a.sourceRef.Some? then a.sourceRef.value else a.id,
                            if b.sourceRef.Some? then b.sourceRef.value else b.id);
             '|' !in r && '|' !in s
    ensures CanonicalKey(x) == CanonicalKey(y) <==>
            && (if a.sourceRef.Some? then a.sourceRef.value else a.id) ==
               (if b.sourceRef.Some? then b.sourceRef.value else b.id)
            && a.content[..Min(100, |a.content|)] == b.content[..Min(100, |b.content|)]
  {
    var r := if a.sourceRef.Some? then a.sourceRef.value else a.id;
    var s := if b.sourceRef.Some? then b.sourceRef.value else b.id;
    assert SliceTo(a.content, 100) == a.content[..Min(100, |a.content|)];
    assert SliceTo(b.content, 100) == b.content[..Min(100, |b.content|)];
    if CanonicalKey(x) == CanonicalKey(y) {
      FirstBar(r, s, a.content[..Min(100, |a.content|)], b.content[..Min(100, |b.content|)]);
    }
  }

  lemma FirstBar(a: string, b: string, x: string, y: string)
    requires '|' !in a && '|' !in b && a + "|" + x == b + "|" + y
    ensures a == b && x == y
  {
    var s := a + "|" + x;
    assert s[|a|] == '|' && s[|b|] == '|';
    assert forall i | 0 <= i < |a| :: s[i] == a[i];
    assert forall i | 0 <= i < |b| :: s[i] == b[i];
    assert a == s[..|a|] && x == s[|a| + 1..];
    assert b == s[..|b|] && y == s[|b| + 1..];
  }

  /** How many documents a query wants of n different ones: a negative limit drops that many. */
  ghost function Wanted(q: RetrieveQuery, configured: int, n: nat): nat {
    var limit := if q.maxResults.Some? then q.maxResults.value else configured;
    if limit >= 0 then limit else Max(0, n + limit)
  }

  /**
   Up to the depth limit, retrieval returns the top k of exactly the found documents that fit the query;
   the depth limit then only removes, from those, the documents that are deeper.
   */
  lemma RetrievalIsTopK(search: RetrievalResult, q: RetrieveQuery, configured: int)
    ensures var (kept, choices) := (Plains(BeforeDepth(search, q, configured).documents), Choices(search, q.query));
            && IsTopK(choices, kept, Wanted(q, configured, |Keys(choices)|))
            && (q.maxDepth == 0 ==> Plains(Pipeline(search, q, configured).documents) == kept)
            && (q.maxDepth != 0 ==>
                  Plains(Pipeline(search, q, configured).documents) ==
                  Filter((rd: RankedDocument) =>
                           (if rd.document.depth.Some? then rd.document.depth.value else 0.0) <= q.maxDepth as real,
                         kept))
  {
    KeptIsTopK(search, q, configured);
    if q.maxDepth != 0 {
      DepthPlain(BeforeDepth(search, q, configured).documents, q.maxDepth);
    }
  }

  lemma KeptIsTopK(search: RetrievalResult, q: RetrieveQuery, configured: int)
    ensures var choices := Choices(search, q.query);
            IsTopK(choices, Plains(BeforeDepth(search, q, configured).documents),
                   Wanted(q, configured, |Keys(choices)|))
  {
    var choices := Choices(search, q.query);
    BeforeDepthPlain(search, q, configured);
    CandidatesAreChoices(search, q.query);
    SliceWanted(choices, q, configured);
    SortUnseenSliceIsTopK(choices, Wanted(q, configured, |Keys(choices)|));
  }

  lemma SliceWanted(choices: seq<RankedDocument>, q: RetrieveQuery, configured: int)
    ensures var u := Unseen({}, Sort(HigherScore, choices));
            SliceTo(u, LimitFor(q, configured)) == SliceTo(u, Wanted(q, configured, |Keys(choices)|))
  {
    KeptCount(choices);
  }

  lemma DepthPlain(ranked: seq<RankedDocument>, maxDepth: int)
    ensures Plains(Renumber(Filter(ShallowerThan(maxDepth), ranked))) ==
            Filter((rd: RankedDocument) =>
                     (if rd.document.depth.Some? then rd.document.depth.value else 0.0) <= maxDepth as real,
                   Plains(ranked))
  {
    var shallow := (rd: RankedDocument) =>
      (if rd.document.depth.Some? then rd.document.depth.value else 0.0) <= maxDepth as real;
    RenumberPlain(Filter(ShallowerThan(maxDepth), ranked));
    FilterMap(shallow, ShallowerThan(maxDepth), Plain, ranked);
  }

  /** What is returned fits the query. */
  lemma ReturnedFits(search: RetrievalResult, q: RetrieveQuery, configured: int, rd: RankedDocument)
    requires rd in Pipeline(search, q, configured).documents
    ensures Fits(rd.document, q.query)
  {
    RetrievalIsTopK(search, q, configured);
    var choices, returned := Choices(search, q.query), Pipeline(search, q, configured).documents;
    var i :| 0 <= i < |returned| && returned[i] == rd;
    assert Plains(returned)[i] in Plains(BeforeDepth(search, q, configured).documents);
    var j :| 0 <= j < |choices| && choices[j] == Plain(rd);
    ChoiceFits(search, q.query, j);
  }

  /**
   Whatever is found and fits has its key returned before the depth limit, with a score as good, or is no better
   than any document that is returned.
   */
  lemma FittingIsCovered(search: RetrievalResult, q: RetrieveQuery, configured: int, rd: RankedDocument)
    requires rd in search.documents && Fits(rd.document, q.query)
    ensures var kept := Plains(BeforeDepth(search, q, configured).documents);
            var score := rd.relevanceScore * 0.6 + rd.sectorScore * 0.2 + rd.complianceScore * 0.2;
            || (exists k | k in kept :: CanonicalKey(k) == CanonicalKey(rd) && k.score >= score)
            || (forall k | k in kept :: k.score >= score)
  {
    RetrievalIsTopK(search, q, configured);
    var choices := Choices(search, q.query);
    var j := ChoiceOf(search, q.query, rd);
    assert choices[j] in choices && CanonicalKey(choices[j]) == CanonicalKey(rd);
  }

  lemma ChoiceFits(search: RetrievalResult, q: Query, j: nat)
    requires j < |Choices(search, q)|
    ensures Fits(Choices(search, q)[j].document, q)
  {
    var fitting := Filter((rd: RankedDocument) => Fits(rd.document, q), search.documents);
    assert fitting[j] in fitting;
  }

  lemma ChoiceOf(search: RetrievalResult, q: Query, rd: RankedDocument) returns (j: nat)
    requires rd in search.documents && Fits(rd.document, q)
    ensures j < |Choices(search, q)| && Choices(search, q)[j].document == rd.document
    ensures Choices(search, q)[j].score ==
            rd.relevanceScore * 0.6 + rd.sectorScore * 0.2 + rd.complianceScore * 0.2
  {
    var fitting := Filter((rd: RankedDocument) => Fits(rd.document, q), search.documents);
    assert rd in fitting;
    j :| 0 <= j < |fitting| && fitting[j] == rd;
  }

  // ------------------------------------------------------------ the vault

  datatype AuditEntry = AuditEntry(actorId: string, partitionId: string, resultCount: int)

  /** The actor that retrieve checks: it is given access to the very partition it asks for. */
  function ActorFor(q: Query, partition: Partition): Actor {
    Actor(if q.sector != "" then [q.sector] else ["general"],
          if q.complianceLevel != "" then q.complianceLevel else "public",
          [partition.id])
  }

  class Vault {
    const maxResults: int
    const auditLogEnabled: bool
    const manager: PartitionManager
    var auditLog: seq<AuditEntry>

    constructor (maxResults: int, auditLogEnabled: bool, manager: PartitionManager)
      ensures this.maxResults == maxResults && this.auditLogEnabled == auditLogEnabled && this.manager == manager
      ensures auditLog == []
    {
      this.maxResults, this.auditLogEnabled, this.manager, auditLog := maxResults, auditLogEnabled, manager, [];
    }

    /**
     `search` is the vector search within a partition. Retrieval throws, with None here, exactly
     when no partition can be chosen: the access check never turns an actor away.
     */
    method Retrieve(q: RetrieveQuery, search: Partition -> RetrievalResult)
      returns (result: Option<RetrievalResult>, ghost partition: Option<Partition>)
      modifies this`auditLog
      ensures partition == PartitionForQuery(manager.partitions, q.query)
      ensures result == if partition.None? then None else Some(Pipeline(search(partition.value), q, maxResults))
      ensures auditLog == old(auditLog) +
                          if auditLogEnabled && result.Some?
                          then [AuditEntry(q.query.actorId, partition.value.id, result.value.totalCount)]
                          else []
    {
      var chosen := PartitionForQuery(manager.partitions, q.query);
      partition := chosen;
      if chosen.None? {
        return None, partition;
      }
      if q.query.actorId != "" && !ValidateAccess(chosen.value, ActorFor(q.query, chosen.value)) {
        return None, partition;
      }
      var found := search(chosen.value);
      var filtered := if q.query.sector != "" then FilterBySector(found, q.query.sector) else found;
      filtered := FilterByCompliance(filtered, q.query.complianceLevel);
      var ranked := Rank(filtered);
      ranked := Deduplicate(ranked);
      ranked := Limit(ranked, q.maxResults.GetOr(maxResults));
      if q.maxDepth != 0 {
        ranked := LimitByDepth(ranked, q.maxDepth);
      }
      result := Some(ranked);
      if auditLogEnabled {
        auditLog := auditLog + [AuditEntry(q.query.actorId, chosen.value.id, ranked.totalCount)];
      }
    }
  }
}
