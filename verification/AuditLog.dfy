/** The audit layer of the middleware: a buffered log that refines the plain history of events. */
module AuditLog {
  import opened Wrappers
  import opened Seqs

  /** What the caller records; `details` is the serialized metadata with the before and after images. */
  datatype Body = Body(
    actorId: string, action: string, resource: string, result: string, details: string,
    requestId: Option<string>, tenantId: Option<string>)

  datatype Event = Event(id: string, timestamp: int, body: Body, integrityHash: string)

  type Digest = Body -> string

  ghost predicate Sound(digest: Digest, events: seq<Event>) {
    forall i | 0 <= i < |events| :: events[i].integrityHash == digest(events[i].body)
  }

  /**
   Where no two bodies share a digest, a log with the hashes of a sound one is sound exactly when
   every body is as it was; ids and timestamps are not covered by the hash, so edits of those pass.
   */
  lemma HashesPinBodies(digest: Digest, events: seq<Event>, tampered: seq<Event>)
    requires forall a, b :: digest(a) == digest(b) ==> a == b
    requires Sound(digest, events) && |tampered| == |events|
    requires forall i | 0 <= i < |events| :: tampered[i].integrityHash == events[i].integrityHash
    ensures Sound(digest, tampered) <==> forall i | 0 <= i < |events| :: tampered[i].body == events[i].body
  {
    forall i | 0 <= i < |events|
      ensures tampered[i].integrityHash == digest(tampered[i].body) <==> tampered[i].body == events[i].body
    {
      assert events[i].integrityHash == digest(events[i].body);
    }
  }

  // ------------------------------------------------------------ queries

  /** Text filters are "" when absent; a limit of 0 stands for the default of 100. */
  datatype Filters = Filters(
    actorId: string, action: string, resource: string, startDate: Option<int>, endDate: Option<int>,
    tenantId: string, requestId: string, limit: int, offset: int)

  predicate MatchesFilters(e: Event, f: Filters) {
    && (f.actorId == "" || e.body.actorId == f.actorId)
    && (f.action == "" || e.body.action == f.action)
    && (f.resource == "" || e.body.resource == f.resource)
    && (f.startDate.None? || e.timestamp >= f.startDate.value)
    && (f.endDate.None? || e.timestamp <= f.endDate.value)
    && (f.tenantId == "" || e.body.tenantId == Some(f.tenantId))
    && (f.requestId == "" || e.body.requestId == Some(f.requestId))
  }

  function Selecting(f: Filters): Event -> bool {
    (e: Event) => MatchesFilters(e, f)
  }

  predicate MoreRecent(a: Event, b: Event) {
    b.timestamp - a.timestamp < 0
  }

  /** Array.prototype.slice: negative positions count from the end. */
  function Slice(s: seq<Event>, start: int, end: int): seq<Event> {
    var a := if start < 0 then Max(0, |s| + start) else Min(start, |s|);
    var b := if end < 0 then Max(0, |s| + end) else Min(end, |s|);
    if a < b then s[a..b] else []
  }

  /** All matching events, most recent first. */
  function Matching(events: seq<Event>, f: Filters): seq<Event> {
    Sort(MoreRecent, Filter(Selecting(f), events))
  }

  function Trail(events: seq<Event>, f: Filters): seq<Event> {
    Slice(Matching(events, f), f.offset, f.offset + if f.limit == 0 then 100 else f.limit)
  }

  /** Where page n starts. */
  function PageStart(size: nat, n: nat): nat {
    if n == 0 then 0 else PageStart(size, n - 1) + size
  }

  /** The first n pages of size `size`, one after the other. */
  function Pages(events: seq<Event>, f: Filters, size: nat, n: nat): seq<Event> {
    if n == 0 then [] else Pages(events, f, size, n - 1) + Page(events, f, PageStart(size, n - 1), size)
  }

  function Page(events: seq<Event>, f: Filters, offset: int, size: int): seq<Event> {
    Trail(events, f.(offset := offset, limit := size))
  }

  lemma PageIs(events: seq<Event>, f: Filters, offset: int, size: int)
    requires offset >= 0 && size >= 1
    ensures var all := Matching(events, f);
            Page(events, f, offset, size) == all[Min(offset, |all|)..Min(offset + size, |all|)]
  {
    var page := f.(offset := offset, limit := size);
    FilterAgree(Selecting(page), Selecting(f), events);
  }

  lemma NextPage(events: seq<Event>, f: Filters, offset: int, size: int)
    requires offset >= 0 && size >= 1
    ensures var all := Matching(events, f);
            Prefix(all, offset) + Page(events, f, offset, size) == Prefix(all, offset + size)
  {
    PageIs(events, f, offset, size);
  }

  /** The first `count` elements, or all when there are fewer. */
  function Prefix(s: seq<Event>, count: int): seq<Event>
    requires count >= 0
  {
    s[..Min(count, |s|)]
  }

  lemma {:induction false} PageStartIs(size: nat, n: nat)
    ensures PageStart(size, n) == n * size
  {
    if n == 0 {
    } else {
      PageStartIs(size, n - 1);
    }
  }

  lemma {:induction false} PagesUpTo(events: seq<Event>, f: Filters, size: nat, n: nat)
    requires size >= 1
    ensures Pages(events, f, size, n) == Prefix(Matching(events, f), PageStart(size, n))
  {
    if n == 0 {
    } else {
      PagesUpTo(events, f, size, n - 1);
      NextPage(events, f, PageStart(size, n - 1), size);
    }
  }

  /** Consecutive pages add up to the matching events: nothing is lost and nothing repeated between pages. */
  lemma PagesConcatenate(events: seq<Event>, f: Filters, size: nat, n: nat)
    requires size >= 1
    ensures n * size >= 0
    ensures Pages(events, f, size, n) == Prefix(Matching(events, f), n * size)
  {
    PagesUpTo(events, f, size, n);
    PageStartIs(size, n);
  }

  /** Whether an event passes a query: each filter that is given asks for its field, and times are inclusive. */
  ghost function Passing(f: Filters): Event -> bool {
    (e: Event) =>
      && (f.actorId != "" ==> e.body.actorId == f.actorId)
      && (f.action != "" ==> e.body.action == f.action)
      && (f.resource != "" ==> e.body.resource == f.resource)
      && (f.startDate.Some? ==> f.startDate.value <= e.timestamp)
      && (f.endDate.Some? ==> e.timestamp <= f.endDate.value)
      && (f.tenantId != "" ==> e.body.tenantId == Some(f.tenantId))
      && (f.requestId != "" ==> e.body.requestId == Some(f.requestId))
  }

  lemma MatchingSortsPassing(events: seq<Event>, f: Filters)
    ensures Matching(events, f) == Sort(MoreRecent, Filter(Passing(f), events))
  {
    FilterAgree(Passing(f), Selecting(f), events);
  }

  /** The matching events are exactly the recorded ones that pass the filters, most recent first. */
  lemma MatchingIs(events: seq<Event>, f: Filters)
    ensures multiset(Matching(events, f)) == multiset(Filter(Passing(f), events))
    ensures forall i, j | 0 <= i < j < |Matching(events, f)| ::
              Matching(events, f)[i].timestamp >= Matching(events, f)[j].timestamp
  {
    var matching, passing := Matching(events, f), Filter(Passing(f), events);
    MatchingSortsPassing(events, f);
    SortPermutes(MoreRecent, passing);
    SortSorted(MoreRecent, passing);
    assert forall i, j | 0 <= i < j < |matching| :: !MoreRecent(matching[j], matching[i]);
  }

  function At(time: int): Event -> bool {
    (e: Event) => e.timestamp == time
  }

  lemma SortTies(events: seq<Event>, time: int)
    ensures Filter(At(time), Sort(MoreRecent, events)) == Filter(At(time), events)
  {
    RecentIsWeakOrder();
    FilterSort(MoreRecent, At(time), events);
    OneInstantSorted(Filter(At(time), events), time);
    SortOfSorted(MoreRecent, Filter(At(time), events));
  }

  lemma RecentIsWeakOrder()
    ensures StrictWeakOrder(MoreRecent)
  {
  }

  lemma OneInstantSorted(events: seq<Event>, time: int)
    requires forall e | e in events :: At(time)(e)
    ensures Sorted(MoreRecent, events)
  {
    assert forall i | 0 <= i < |events| :: At(time)(events[i]);
  }

  /** Those of one instant come in the order in which they were recorded. */
  lemma MatchingTies(events: seq<Event>, f: Filters, time: int)
    ensures Filter(At(time), Matching(events, f)) == Filter(At(time), Filter(Passing(f), events))
  {
    MatchingSortsPassing(events, f);
    SortTies(Filter(Passing(f), events), time);
  }

  /** Position x of a list of n elements, counted from the end if negative, is p. */
  ghost predicate CountsAs(x: int, n: int, p: int) {
    && 0 <= p <= n
    && (0 <= x <= n ==> p == x) && (x > n ==> p == n)
    && (-n <= x < 0 ==> p == n + x) && (x < -n ==> p == 0)
  }

  /** A trail is the page of matching events from the offset up to `limit` events later, 100 when none is given. */
  lemma TrailIs(events: seq<Event>, f: Filters) returns (start: int, end: int)
    ensures CountsAs(f.offset, |Matching(events, f)|, start)
    ensures f.limit == 0 ==> CountsAs(f.offset + 100, |Matching(events, f)|, end)
    ensures f.limit != 0 ==> CountsAs(f.offset + f.limit, |Matching(events, f)|, end)
    ensures Trail(events, f) == if start < end then Matching(events, f)[start..end] else []
  {
    var n, stop := |Matching(events, f)|, f.offset + if f.limit == 0 then 100 else f.limit;
    start := if f.offset < 0 then Max(0, n + f.offset) else Min(f.offset, n);
    end := if stop < 0 then Max(0, n + stop) else Min(stop, n);
  }

  // ------------------------------------------------------------ the layer

  class AuditLayer {
    const wormEnabled: bool
    const batchSize: int
    const digest: Digest
    var events: seq<Event>
    var buffer: seq<Event>
    var timerRunning: bool
    /** Every event ever recorded, in order. */
    ghost var history: seq<Event>

    ghost predicate Valid()
      reads this
    {
      && events + buffer == history
      && |buffer| < Max(1, batchSize)
      && (!wormEnabled ==> buffer == [])
      && Sound(digest, history)
    }

    constructor (wormEnabled: bool, batchSize: int, flushIntervalMs: int, digest: Digest)
      ensures Valid() && history == []
      ensures this.wormEnabled == wormEnabled && this.batchSize == batchSize && this.digest == digest
      ensures timerRunning <==> flushIntervalMs > 0
    {
      this.wormEnabled, this.batchSize, this.digest := wormEnabled, batchSize, digest;
      events, buffer, history, timerRunning := [], [], [], flushIntervalMs > 0;
    }

    method RecordEvent(body: Body, id: string, timestamp: int) returns (eventId: string)
      requires Valid()
      modifies this
      ensures Valid() && eventId == id && timerRunning == old(timerRunning)
      ensures history == old(history) + [Event(id, timestamp, body, digest(body))]
      ensures events == if wormEnabled && |old(buffer)| + 1 < batchSize then old(events) else history
    {
      var fullEvent := Event(id, timestamp, body, digest(body));
      history := history + [fullEvent];
      if wormEnabled {
        buffer := buffer + [fullEvent];
        if |buffer| >= batchSize {
          FlushBuffer();
        }
      } else {
        events := events + [fullEvent];
      }
      eventId := fullEvent.id;
    }

    /** Moves the whole buffer to the persisted events, in order. */
    method FlushBuffer()
      modifies this`events, this`buffer
      ensures events == old(events) + old(buffer) && buffer == []
    {
      var batch := buffer;
      buffer := [];
      for i := 0 to |batch|
        invariant events == old(events) + batch[..i] && buffer == []
      {
        events := events + [batch[i]];
      }
      assert batch[..|batch|] == batch;
    }

    /** What the flush timer does. */
    method Flush()
      requires Valid()
      modifies this`events, this`buffer
      ensures Valid() && events == history && buffer == []
    {
      FlushBuffer();
    }

    method Shutdown()
      requires Valid()
      modifies this`events, this`buffer, this`timerRunning
      ensures Valid() && events == history && buffer == [] && !timerRunning
    {
      timerRunning := false;
      FlushBuffer();
    }

    /** Checks every persisted event; in a reachable state the answer is always yes. */
    method VerifyIntegrity() returns (ok: bool)
      requires Valid()
      ensures ok <==> Sound(digest, events)
      ensures ok
    {
      for i := 0 to |events|
        invariant forall j | 0 <= j < i :: events[j].integrityHash == digest(events[j].body)
      {
        assert events[i] == history[i];
        if digest(events[i].body) != events[i].integrityHash {
          return false;
        }
      }
      return true;
    }

    /** Answers from the persisted events only: what is still buffered is not seen. */
    method GetAuditTrail(f: Filters) returns (results: seq<Event>)
      requires Valid()
      ensures results == Trail(events, f)
      ensures events <= history
    {
      results := NarrowByContent(f, events);
      results := NarrowByTime(f, results, events);
      results := NarrowByOwner(f, results, events);
      results := Sort(MoreRecent, results);
      results := Slice(results, f.offset, f.offset + if f.limit == 0 then 100 else f.limit);
    }
  }

  method NarrowByContent(f: Filters, events: seq<Event>) returns (results: seq<Event>)
    ensures results == Filter(Stage(f, 3), events)
  {
    FilterAll(Stage(f, 0), events);
    results := Narrow(events, f.actorId != "", (e: Event) => e.body.actorId == f.actorId, f, 0, events);
    results := Narrow(results, f.action != "", (e: Event) => e.body.action == f.action, f, 1, events);
    results := Narrow(results, f.resource != "", (e: Event) => e.body.resource == f.resource, f, 2, events);
  }

  method NarrowByTime(f: Filters, before: seq<Event>, ghost events: seq<Event>) returns (results: seq<Event>)
    requires before == Filter(Stage(f, 3), events)
    ensures results == Filter(Stage(f, 5), events)
  {
    results := Narrow(before, f.startDate.Some?, (e: Event) => e.timestamp >= f.startDate.GetOr(0), f, 3, events);
    results := Narrow(results, f.endDate.Some?, (e: Event) => e.timestamp <= f.endDate.GetOr(0), f, 4, events);
  }

  method NarrowByOwner(f: Filters, before: seq<Event>, ghost events: seq<Event>) returns (results: seq<Event>)
    requires before == Filter(Stage(f, 5), events)
    ensures results == Filter(Selecting(f), events)
  {
    results := Narrow(before, f.tenantId != "", (e: Event) => e.body.tenantId == Some(f.tenantId), f, 5, events);
    results := Narrow(results, f.requestId != "", (e: Event) => e.body.requestId == Some(f.requestId), f, 6, events);
    FilterAgree(Stage(f, 7), Selecting(f), events);
  }

  /** The first k filters of a query together. */
  ghost function Stage(f: Filters, k: nat): Event -> bool {
    (e: Event) =>
      && (k >= 1 ==> f.actorId == "" || e.body.actorId == f.actorId)
      && (k >= 2 ==> f.action == "" || e.body.action == f.action)
      && (k >= 3 ==> f.resource == "" || e.body.resource == f.resource)
      && (k >= 4 ==> f.startDate.None? || e.timestamp >= f.startDate.value)
      && (k >= 5 ==> f.endDate.None? || e.timestamp <= f.endDate.value)
      && (k >= 6 ==> f.tenantId == "" || e.body.tenantId == Some(f.tenantId))
      && (k >= 7 ==> f.requestId == "" || e.body.requestId == Some(f.requestId))
  }

  /** One optional filter of a query, applied to what the filters before it left. */
  method Narrow(s: seq<Event>, given: bool, p: Event -> bool, ghost f: Filters, ghost k: nat, ghost all: seq<Event>)
    returns (r: seq<Event>)
    requires s == Filter(Stage(f, k), all)
    requires forall e :: Stage(f, k + 1)(e) == (Stage(f, k)(e) && (given ==> p(e)))
    ensures r == Filter(Stage(f, k + 1), all)
  {
    if given {
      FilterFilter(p, Stage(f, k), Stage(f, k + 1), all);
      r := Filter(p, s);
    } else {
      FilterAgree(Stage(f, k), Stage(f, k + 1), all);
      r := s;
    }
  }
}
