/** The partition manager: registration with parent links, partition choice and access. */
module Partitions {
  import opened Wrappers
  import opened Seqs
  import opened JsMaps

  /** The parent is "" when the partition has none. */
  datatype Partition = Partition(
    id: string, name: string, sectors: seq<string>, complianceLevel: string, parent: string, children: seq<string>)

  const COMPLIANCE_ORDER: seq<string> := ["public", "internal", "restricted", "confidential", "regulated"]

  /** Array.prototype.indexOf: -1 when absent. */
  function IndexOf(s: seq<string>, x: string): (i: int)
    ensures -1 <= i < |s|
    ensures i == -1 <==> x !in s
    ensures i >= 0 ==> s[i] == x
  {
    if s == [] then -1
    else if s[0] == x then 0
    else
      var i := IndexOf(s[1..], x);
      assert s == [s[0]] + s[1..];
      if i < 0 then -1 else i + 1
  }

  function LevelOf(level: string): int {
    IndexOf(COMPLIANCE_ORDER, level)
  }

  /** The five levels by restriction, counted from 0; any other name ranks below them all. */
  ghost predicate IsRank(level: string, rank: int) {
    && (level == "public" ==> rank == 0) && (level == "internal" ==> rank == 1)
    && (level == "restricted" ==> rank == 2) && (level == "confidential" ==> rank == 3)
    && (level == "regulated" ==> rank == 4)
    && (level !in {"public", "internal", "restricted", "confidential", "regulated"} ==> rank == -1)
  }

  lemma LevelIsRank(level: string)
    ensures IsRank(level, LevelOf(level))
    ensures forall rank | IsRank(level, rank) :: rank == LevelOf(level)
  {
    var s := COMPLIANCE_ORDER;
    assert s[1..][1..] == s[2..] && s[2..][1..] == s[3..] && s[3..][1..] == s[4..] && s[4..][1..] == [];
    assert IndexOf(s[4..], level) == if level == "regulated" then 0 else -1;
    assert IndexOf(s[3..], level) == if level == "confidential" then 0 else if level == "regulated" then 1 else -1;
    assert level in s[2..] <==> level in {"restricted", "confidential", "regulated"};
  }

  const DEFAULT_PARTITIONS: JsMap<string, Partition> := [
    Entry("general", Partition("general", "General Knowledge", ["general"], "public", "", [])),
    Entry("healthcare_phi", Partition("healthcare_phi", "Healthcare PHI", ["healthcare"], "regulated", "", [])),
    Entry("financial_pii", Partition("financial_pii", "Financial PII", ["finance"], "regulated", "", [])),
    Entry("education_records",
          Partition("education_records", "Education Records", ["education"], "confidential", "", [])),
    Entry("regulatory_compliance",
          Partition("regulatory_compliance", "Regulatory Compliance", ["government", "general"], "restricted", "", [])),
    Entry("operational_security",
          Partition("operational_security", "Operational Security", ["government", "energy"], "confidential", "", []))]

  // ------------------------------------------------------------ registration

  datatype Registration = Registration(
    id: string, name: string, sectors: seq<string>, complianceLevel: string, parent: string)

  /** Registers a partition, then links it below its parent if that one exists; an id that is taken throws. */
  function Register(ps: JsMap<string, Partition>, r: Registration): Option<JsMap<string, Partition>> {
    if r.id in Keys(ps) then None
    else
      var added := Set(ps, r.id, Partition(r.id, r.name, r.sectors, r.complianceLevel, r.parent, []));
      if r.parent == "" then Some(added)
      else
        match Get(added, r.parent)
        case None => Some(added)
        case Some(parent) => Some(Set(added, r.parent, parent.(children := parent.children + [r.id])))
  }

  class PartitionManager {
    var partitions: JsMap<string, Partition>

    constructor ()
      ensures partitions == DEFAULT_PARTITIONS
    {
      partitions := DEFAULT_PARTITIONS;
    }

    method RegisterPartition(r: Registration) returns (ok: bool)
      modifies this
      ensures ok <==> Register(old(partitions), r).Some?
      ensures partitions == Register(old(partitions), r).GetOr(old(partitions))
    {
      if Get(partitions, r.id).Some? {
        return false;
      }
      partitions := Set(partitions, r.id, Partition(r.id, r.name, r.sectors, r.complianceLevel, r.parent, []));
      if r.parent != "" {
        var parent := Get(partitions, r.parent);
        if parent.Some? {
          partitions := Set(partitions, r.parent, parent.value.(children := parent.value.children + [r.id]));
        }
      }
      return true;
    }
  }

  function Run(rs: seq<Registration>): JsMap<string, Partition> {
    if rs == [] then DEFAULT_PARTITIONS
    else
      var before := Run(rs[..|rs| - 1]);
      Register(before, rs[|rs| - 1]).GetOr(before)
  }

  /** Child k of partition i was registered after it, and names it as its parent. */
  ghost predicate LinkedLater(ps: JsMap<string, Partition>, i: nat, k: nat)
    requires i < |ps| && k < |ps[i].value.children|
  {
    exists j | i < j < |ps| :: ps[j].key == ps[i].value.children[k] && ps[j].value.parent == ps[i].key
  }

  ghost predicate Forest(ps: JsMap<string, Partition>) {
    && Distinct(ps)
    && (forall i | 0 <= i < |ps| :: ps[i].value.id == ps[i].key)
    && (forall i | 0 <= i < |ps| :: NoDuplicates(ps[i].value.children))
    && (forall i, k | 0 <= i < |ps| && 0 <= k < |ps[i].value.children| :: LinkedLater(ps, i, k))
  }

  /** Registration n of the run goes through and names itself as its parent. */
  ghost predicate SelfParent(rs: seq<Registration>, n: nat)
    requires n < |rs|
  {
    rs[n].parent == rs[n].id != "" && Register(Run(rs[..n]), rs[n]).Some?
  }

  /** Some partition lists itself as a child. */
  ghost predicate SelfChild(ps: JsMap<string, Partition>) {
    exists i, k | 0 <= i < |ps| && 0 <= k < |ps[i].value.children| :: ps[i].value.children[k] == ps[i].key
  }

  lemma AppendedAt(ps: JsMap<string, Partition>, id: string, p: Partition)
    requires id !in Keys(ps)
    ensures Set(ps, id, p) == ps + [Entry(id, p)]
  {
    if ps != [] {
      KeysCons(ps);
      AppendedAt(ps[1..], id, p);
    }
  }

  lemma {:induction false} ReplacedAt(ps: JsMap<string, Partition>, i: nat, p: Partition)
    requires Distinct(ps) && i < |ps|
    ensures Set(ps, ps[i].key, p) == ps[i := Entry(ps[i].key, p)]
  {
    if i > 0 {
      var e := Entry(ps[i].key, p);
      ReplacedAt(ps[1..], i - 1, p);
      assert ps[0].key != ps[i].key;
      assert ps[i := e] == [ps[0]] + ps[1..][i - 1 := e];
    } else {
      assert ps[0 := Entry(ps[0].key, p)] == [Entry(ps[0].key, p)] + ps[1..];
    }
  }

  /** Adding a child to a registered parent changes that parent's entry in place. */
  lemma LinkShape(added: JsMap<string, Partition>, parent: string, child: string) returns (at: nat)
    requires Distinct(added) && Get(added, parent).Some?
    ensures at < |added| && added[at].key == parent
    ensures var p := Get(added, parent).value;
            && added[at].value == p
            && Set(added, parent, p.(children := p.children + [child])) ==
               added[at := Entry(parent, p.(children := p.children + [child]))]
  {
    var p := Get(added, parent).value;
    at :| 0 <= at < |added| && added[at] == Entry(parent, p);
    ReplacedAt(added, at, p.(children := p.children + [child]));
  }

  function Added(ps: JsMap<string, Partition>, r: Registration): JsMap<string, Partition> {
    ps + [Entry(r.id, Partition(r.id, r.name, r.sectors, r.complianceLevel, r.parent, []))]
  }

  /** What registration does to the list of partitions, position by position. */
  lemma RegisterShape(ps: JsMap<string, Partition>, r: Registration) returns (parentAt: int)
    requires Distinct(ps) && r.id !in Keys(ps)
    ensures -1 <= parentAt <= |ps| && Distinct(Added(ps, r)) && Register(ps, r).Some?
    ensures parentAt == -1 ==> Register(ps, r).value == Added(ps, r)
    ensures parentAt >= 0 ==>
              var parent := Added(ps, r)[parentAt];
              && parent.key == r.parent != ""
              && Register(ps, r).value ==
                 Added(ps, r)[parentAt := Entry(r.parent, parent.value.(children := parent.value.children + [r.id]))]
    ensures r.parent != "" && r.parent in Keys(Added(ps, r)) ==> parentAt >= 0
  {
    var p := Partition(r.id, r.name, r.sectors, r.complianceLevel, r.parent, []);
    AppendedAt(ps, r.id, p);
    SetDistinct(ps, r.id, p);
    parentAt := -1;
    if r.parent != "" && Get(Added(ps, r), r.parent).Some? {
      parentAt := LinkShape(Added(ps, r), r.parent, r.id);
    }
  }

  lemma LinkKept(ps: JsMap<string, Partition>, ps': JsMap<string, Partition>, i: nat, k: nat)
    requires i < |ps| && k < |ps[i].value.children| && LinkedLater(ps, i, k)
    requires |ps| <= |ps'|
    requires forall j | 0 <= j < |ps| :: ps'[j].key == ps[j].key && ps'[j].value.parent == ps[j].value.parent
    requires k < |ps'[i].value.children| && ps'[i].value.children[k] == ps[i].value.children[k]
    ensures LinkedLater(ps', i, k)
  {
  }

  /** A new id is not yet among the children of any partition of a forest. */
  lemma NotYetChild(ps: JsMap<string, Partition>, id: string, i: nat)
    requires Forest(ps) && id !in Keys(ps) && i < |ps|
    ensures id !in ps[i].value.children
  {
    forall k | 0 <= k < |ps[i].value.children|
      ensures ps[i].value.children[k] != id
    {
      assert LinkedLater(ps, i, k);
      var j :| i < j < |ps| && ps[j].key == ps[i].value.children[k];
      assert Keys(ps)[j] == ps[j].key;
    }
  }

  lemma ChildrenDiffer(ps: JsMap<string, Partition>, r: Registration, i: nat)
    requires Forest(ps) && r.id !in Keys(ps) && i < |Register(ps, r).value|
    requires r.parent == "" || r.parent != r.id
    ensures NoDuplicates(Register(ps, r).value[i].value.children)
  {
    var at := RegisterShape(ps, r);
    if i < |ps| {
      NotYetChild(ps, r.id, i);
    }
  }

  lemma RegisterForest(ps: JsMap<string, Partition>, r: Registration)
    requires Forest(ps) && r.id !in Keys(ps)
    requires r.parent == "" || r.parent != r.id
    ensures Forest(Register(ps, r).value)
  {
    var at := RegisterShape(ps, r);
    var ps' := Register(ps, r).value;
    forall i, k | 0 <= i < |ps'| && 0 <= k < |ps'[i].value.children|
      ensures LinkedLater(ps', i, k)
    {
      if k < |ps[i].value.children| {
        assert LinkedLater(ps, i, k);
        LinkKept(ps, ps', i, k);
      } else {
        assert ps'[|ps|].key == ps'[i].value.children[k];
      }
    }
    forall i | 0 <= i < |ps'|
      ensures NoDuplicates(ps'[i].value.children)
    {
      ChildrenDiffer(ps, r, i);
    }
  }

  /** Keys never repeat and self-links never go away, whatever is registered. */
  lemma RegisterKeeps(ps: JsMap<string, Partition>, r: Registration)
    requires Distinct(ps) && r.id !in Keys(ps)
    ensures Distinct(Register(ps, r).value)
    ensures SelfChild(ps) ==> SelfChild(Register(ps, r).value)
    ensures r.parent == r.id != "" ==> SelfChild(Register(ps, r).value)
  {
    var at := RegisterShape(ps, r);
    var ps' := Register(ps, r).value;
    if SelfChild(ps) {
      var i, k :| 0 <= i < |ps| && 0 <= k < |ps[i].value.children| && ps[i].value.children[k] == ps[i].key;
      assert ps'[i].value.children[k] == ps'[i].key;
    }
    if r.parent == r.id != "" {
      assert Keys(Added(ps, r))[|ps|] == r.id;
      assert at == |ps| by {
        forall j | 0 <= j < |ps|
          ensures ps[j].key != r.id
        {
          assert Keys(ps)[j] == ps[j].key;
        }
      }
      assert ps'[at].value.children[0] == ps'[at].key;
    }
  }

  lemma SelfChildIsNoForest(ps: JsMap<string, Partition>)
    requires Distinct(ps) && SelfChild(ps)
    ensures !Forest(ps)
  {
    var i, k :| 0 <= i < |ps| && 0 <= k < |ps[i].value.children| && ps[i].value.children[k] == ps[i].key;
    assert !LinkedLater(ps, i, k);
  }

  lemma RegisterVerdict(ps: JsMap<string, Partition>, r: Registration)
    requires Distinct(ps) && (Forest(ps) || SelfChild(ps)) && r.id !in Keys(ps)
    ensures var ps' := Register(ps, r).value;
            && Distinct(ps') && (Forest(ps') || SelfChild(ps'))
            && (Forest(ps') <==> Forest(ps) && !(r.parent == r.id != ""))
  {
    RegisterKeeps(ps, r);
    if Forest(ps) && !(r.parent == r.id != "") {
      RegisterForest(ps, r);
    } else {
      SelfChildIsNoForest(Register(ps, r).value);
    }
  }

  /** After the run, the registration would go through and name itself as its parent. */
  ghost predicate LinksItself(rs: seq<Registration>, r: Registration) {
    r.parent == r.id != "" && r.id !in Keys(Run(rs))
  }

  lemma SelfParentPrefix(rs: seq<Registration>)
    requires rs != []
    ensures var before, r := rs[..|rs| - 1], rs[|rs| - 1];
            (forall n | 0 <= n < |rs| :: !SelfParent(rs, n)) <==>
            (forall n | 0 <= n < |before| :: !SelfParent(before, n)) && !LinksItself(before, r)
  {
    var before := rs[..|rs| - 1];
    forall n | 0 <= n < |before|
      ensures SelfParent(before, n) <==> SelfParent(rs, n)
    {
      assert before[..n] == rs[..n];
    }
    assert rs[..|before|] == before;
    assert SelfParent(rs, |before|) <==> LinksItself(before, rs[|before|]);
  }

  lemma DefaultForest()
    ensures Forest(DEFAULT_PARTITIONS)
  {
    var lengths := [7, 14, 13, 17, 21, 20];
    forall i | 0 <= i < |DEFAULT_PARTITIONS|
      ensures |DEFAULT_PARTITIONS[i].key| == lengths[i]
      ensures DEFAULT_PARTITIONS[i].value.id == DEFAULT_PARTITIONS[i].key
      ensures DEFAULT_PARTITIONS[i].value.children == []
    {
    }
    DistinctByLength(DEFAULT_PARTITIONS, lengths);
  }

  lemma DistinctByLength(ps: JsMap<string, Partition>, lengths: seq<nat>)
    requires |ps| == |lengths| && forall i | 0 <= i < |ps| :: |ps[i].key| == lengths[i]
    requires forall i, j | 0 <= i < j < |lengths| :: lengths[i] != lengths[j]
    ensures Distinct(ps)
  {
  }

  /**
   Over any run of registrations the child links form a forest that follows registration order,
   exactly when no registration that went through named itself as its parent.
   */
  lemma {:induction false} ForestIffNoSelfParent(rs: seq<Registration>)
    ensures Distinct(Run(rs)) && (Forest(Run(rs)) || SelfChild(Run(rs)))
    ensures Forest(Run(rs)) <==> forall n | 0 <= n < |rs| :: !SelfParent(rs, n)
  {
    if rs == [] {
      DefaultForest();
    } else {
      var before, r := rs[..|rs| - 1], rs[|rs| - 1];
      ForestIffNoSelfParent(before);
      SelfParentPrefix(rs);
      if r.id !in Keys(Run(before)) {
        RegisterVerdict(Run(before), r);
      }
    }
  }

  /** In a forest every id is a child of at most one partition, at most once. */
  lemma OneParent(ps: JsMap<string, Partition>, i: nat, k: nat, j: nat, l: nat)
    requires Forest(ps) && i < |ps| && j < |ps| && k < |ps[i].value.children| && l < |ps[j].value.children|
    requires ps[i].value.children[k] == ps[j].value.children[l]
    ensures i == j && k == l
  {
    assert LinkedLater(ps, i, k) && LinkedLater(ps, j, l);
  }

  function PositionOf(ps: JsMap<string, Partition>, id: string): int {
    IndexOf(Keys(ps), id)
  }

  lemma PositionIs(ps: JsMap<string, Partition>, i: nat)
    requires Distinct(ps) && i < |ps|
    ensures PositionOf(ps, ps[i].key) == i
  {
    assert Keys(ps)[i] == ps[i].key;
    assert Keys(ps)[PositionOf(ps, ps[i].key)] == ps[i].key;
  }

  lemma ChildPosition(ps: JsMap<string, Partition>, i: nat, k: nat)
    requires Forest(ps) && i < |ps| && k < |ps[i].value.children|
    ensures i < PositionOf(ps, ps[i].value.children[k]) < |ps|
  {
    assert LinkedLater(ps, i, k);
    var j :| i < j < |ps| && ps[j].key == ps[i].value.children[k];
    PositionIs(ps, j);
  }

  /** The ids below the given children, depth first: in a forest the walk ends. */
  function Below(ps: JsMap<string, Partition>, i: nat, k: nat): seq<string>
    requires Forest(ps) && i < |ps| && k <= |ps[i].value.children|
    decreases |ps| - i, |ps[i].value.children| - k
  {
    if k == |ps[i].value.children| then []
    else
      var child := ps[i].value.children[k];
      ChildPosition(ps, i, k);
      [child] + Below(ps, PositionOf(ps, child), 0) + Below(ps, i, k + 1)
  }

  /** Everything below a partition was registered after it; in particular nothing is below itself. */
  lemma {:induction false} BelowIsLater(ps: JsMap<string, Partition>, i: nat, k: nat)
    requires Forest(ps) && i < |ps| && k <= |ps[i].value.children|
    ensures forall id | id in Below(ps, i, k) :: PositionOf(ps, id) > i
    ensures ps[i].key !in Below(ps, i, k)
    decreases |ps| - i, |ps[i].value.children| - k
  {
    PositionIs(ps, i);
    if k < |ps[i].value.children| {
      ChildPosition(ps, i, k);
      BelowIsLater(ps, PositionOf(ps, ps[i].value.children[k]), 0);
      BelowIsLater(ps, i, k + 1);
    }
  }

  // ------------------------------------------------------------ choosing a partition

  /** Absent text fields of a query are "". */
  datatype Query = Query(partition: string, sector: string, actorId: string, complianceLevel: string)

  function ServesSector(sector: string): Partition -> bool {
    (p: Partition) => sector in p.sectors
  }

  predicate MoreRestricted(a: Partition, b: Partition) {
    LevelOf(b.complianceLevel) - LevelOf(a.complianceLevel) < 0
  }

  function PartitionForQuery(ps: JsMap<string, Partition>, query: Query): Option<Partition> {
    var serving := Filter(ServesSector(query.sector), Values(ps));
    if query.partition != "" then Get(ps, query.partition)
    else if query.sector != "" && serving != [] then Some(Sort(MoreRestricted, serving)[0])
    else Get(ps, "general")
  }

  /** The partition that a query names is the one it gets, if there is such a one. */
  lemma NamedChoice(ps: JsMap<string, Partition>, query: Query)
    requires query.partition != ""
    ensures var chosen := PartitionForQuery(ps, query);
            && (chosen.Some? <==> exists e | e in ps :: e.key == query.partition)
            && (chosen.Some? ==> Entry(query.partition, chosen.value) in ps)
  {
    HasEntry(ps, query.partition);
  }

  /** A query without a partition whose sector, if any, nobody serves gets the partition "general", if any. */
  lemma GeneralChoice(ps: JsMap<string, Partition>, query: Query)
    requires query.partition == ""
    requires query.sector == "" || forall e | e in ps :: query.sector !in e.value.sectors
    ensures var chosen := PartitionForQuery(ps, query);
            && (chosen.Some? <==> exists e | e in ps :: e.key == "general")
            && (chosen.Some? ==> Entry("general", chosen.value) in ps)
  {
    HasEntry(ps, "general");
    forall p | p in Values(ps)
      ensures query.sector == "" || !ServesSector(query.sector)(p)
    {
      var i :| 0 <= i < |ps| && Values(ps)[i] == p;
      assert ps[i] in ps;
    }
    if query.sector != "" {
      FilterNone(ServesSector(query.sector), Values(ps));
    }
  }

  lemma HasEntry(ps: JsMap<string, Partition>, key: string)
    ensures key in Keys(ps) <==> exists e | e in ps :: e.key == key
  {
    if key in Keys(ps) {
      var i :| 0 <= i < |ps| && Keys(ps)[i] == key;
      assert ps[i] in ps;
    }
    if e :| e in ps && e.key == key {
      var i :| 0 <= i < |ps| && ps[i] == e;
      assert Keys(ps)[i] == key;
    }
  }

  /**
   Without an explicit partition, a sector is served by the most restricted of its partitions,
   and among those by the one registered first.
   */
  lemma SectorChoice(ps: JsMap<string, Partition>, query: Query) returns (k: nat)
    requires query.partition == "" && query.sector != ""
    requires exists i | 0 <= i < |ps| :: query.sector in ps[i].value.sectors
    ensures k < |ps| && query.sector in ps[k].value.sectors
    ensures PartitionForQuery(ps, query) == Some(ps[k].value)
    ensures forall j | 0 <= j < |ps| && query.sector in ps[j].value.sectors ::
              var (a, b) := (LevelOf(ps[j].value.complianceLevel), LevelOf(ps[k].value.complianceLevel));
              a < b || (a == b && k <= j)
  {
    var values, serves := Values(ps), ServesSector(query.sector);
    var i :| 0 <= i < |ps| && query.sector in ps[i].value.sectors;
    assert serves(values[i]) && values[i] in values;
    assert Filter(serves, values) != [];
    k := HeadOfSort(MoreRestricted, serves, values);
    forall j | 0 <= j < |ps| && query.sector in ps[j].value.sectors
      ensures var (a, b) := (LevelOf(ps[j].value.complianceLevel), LevelOf(ps[k].value.complianceLevel));
              a < b || (a == b && k <= j)
    {
      assert serves(values[j]);
    }
  }

  /** The one partition that serves the sector, before all others that do, is chosen. */
  lemma FirstChoice(ps: JsMap<string, Partition>, query: Query, k: nat)
    requires query.partition == "" && query.sector != "" && k < |ps| && query.sector in ps[k].value.sectors
    requires forall j | 0 <= j < |ps| && j != k && query.sector in ps[j].value.sectors ::
               LevelOf(ps[j].value.complianceLevel) < LevelOf(ps[k].value.complianceLevel)
    ensures PartitionForQuery(ps, query) == Some(ps[k].value)
  {
    var chosen := SectorChoice(ps, query);
  }

  /** Partition k is listed under its id, serves these sectors and has this rank. */
  ghost predicate IsAt(ps: JsMap<string, Partition>, k: nat, id: string, sectors: seq<string>, rank: int) {
    && k < |ps| && ps[k].key == ps[k].value.id == id && ps[k].value.sectors == sectors
    && LevelOf(ps[k].value.complianceLevel) == rank
  }

  ghost predicate IsInitial(ps: JsMap<string, Partition>) {
    && |ps| == 6
    && IsAt(ps, 0, "general", ["general"], 0) && IsAt(ps, 1, "healthcare_phi", ["healthcare"], 4)
    && IsAt(ps, 2, "financial_pii", ["finance"], 4) && IsAt(ps, 3, "education_records", ["education"], 3)
    && IsAt(ps, 4, "regulatory_compliance", ["government", "general"], 2)
    && IsAt(ps, 5, "operational_security", ["government", "energy"], 3)
  }

  lemma DefaultIsInitial()
    ensures IsInitial(DEFAULT_PARTITIONS)
  {
    FirstDefaults();
    LastDefaults();
  }

  lemma FirstDefaults()
    ensures IsAt(DEFAULT_PARTITIONS, 0, "general", ["general"], 0)
    ensures IsAt(DEFAULT_PARTITIONS, 1, "healthcare_phi", ["healthcare"], 4)
    ensures IsAt(DEFAULT_PARTITIONS, 2, "financial_pii", ["finance"], 4)
  {
    LevelIsRank("public");
    LevelIsRank("regulated");
  }

  lemma LastDefaults()
    ensures IsAt(DEFAULT_PARTITIONS, 3, "education_records", ["education"], 3)
    ensures IsAt(DEFAULT_PARTITIONS, 4, "regulatory_compliance", ["government", "general"], 2)
    ensures IsAt(DEFAULT_PARTITIONS, 5, "operational_security", ["government", "energy"], 3)
  {
    LevelIsRank("restricted");
    LevelIsRank("confidential");
  }

  /** Which of the initial partitions serve a sector. */
  ghost predicate ServedBy(sector: string, k: int) {
    match k
    case 0 => sector == "general"
    case 1 => sector == "healthcare"
    case 2 => sector == "finance"
    case 3 => sector == "education"
    case 4 => sector in {"government", "general"}
    case 5 => sector in {"government", "energy"}
    case _ => false
  }

  lemma InitialSectors(ps: JsMap<string, Partition>, sector: string, k: nat)
    requires IsInitial(ps) && k < 6
    ensures sector in ps[k].value.sectors <==> ServedBy(sector, k)
    ensures LevelOf(ps[k].value.complianceLevel) == RankAt(k)
  {
  }

  function RankAt(k: int): int {
    if k == 0 then 0 else if k <= 2 then 4 else if k == 4 then 2 else 3
  }

  lemma ChoiceByRank(ps: JsMap<string, Partition>, query: Query, k: nat)
    requires k < |ps| == 6 && query.partition == "" && query.sector != ""
    requires forall j | 0 <= j < 6 ::
               && LevelOf(ps[j].value.complianceLevel) == RankAt(j)
               && (query.sector in ps[j].value.sectors <==> ServedBy(query.sector, j))
    requires ServedBy(query.sector, k)
    requires forall j | 0 <= j < 6 && j != k && ServedBy(query.sector, j) :: RankAt(j) < RankAt(k)
    ensures PartitionForQuery(ps, query) == Some(ps[k].value)
  {
    FirstChoice(ps, query, k);
  }

  /** Among the initial partitions a sector is served by the more restricted of the two that serve it, if so many do. */
  lemma InitialChoice(ps: JsMap<string, Partition>, query: Query, k: nat)
    requires 1 <= k < |ps| == 6 && IsInitial(ps)
    requires query.partition == "" && ServedBy(query.sector, k) && (k == 4 ==> query.sector == "general")
    ensures PartitionForQuery(ps, query) == Some(ps[k].value)
  {
    forall j | 0 <= j < |ps|
      ensures query.sector in ps[j].value.sectors <==> ServedBy(query.sector, j)
      ensures LevelOf(ps[j].value.complianceLevel) == RankAt(j)
    {
      InitialSectors(ps, query.sector, j);
    }
    ChoiceByRank(ps, query, k);
  }

  // ------------------------------------------------------------ access

  datatype Actor = Actor(sectors: seq<string>, clearanceLevel: string, partitionAccess: seq<string>)

  predicate ValidateAccess(p: Partition, actor: Actor) {
    if p.id in actor.partitionAccess then true
    else if p.parent != "" && p.parent in actor.partitionAccess then true
    else
      && (exists i | 0 <= i < |p.sectors| :: p.sectors[i] in actor.sectors)
      && LevelOf(actor.clearanceLevel) >= LevelOf(p.complianceLevel)
  }

  /**
   Access is granted to those who list the partition or its parent, and to those who share a sector with
   it and whose clearance is not below its level.
   */
  lemma AccessIff(p: Partition, actor: Actor, clearance: int, required: int)
    requires IsRank(actor.clearanceLevel, clearance) && IsRank(p.complianceLevel, required)
    ensures ValidateAccess(p, actor) <==>
            || p.id in actor.partitionAccess
            || (p.parent != "" && p.parent in actor.partitionAccess)
            || ((exists sector :: sector in p.sectors && sector in actor.sectors) && clearance >= required)
  {
    LevelIsRank(actor.clearanceLevel);
    LevelIsRank(p.complianceLevel);
  }
}
