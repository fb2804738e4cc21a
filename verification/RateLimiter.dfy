/**
 The fixed-window rate limiter of the two servers: one entry per address, shared by the
 ordinary and the admin class of requests.
 */
module RateLimiter {
  import opened Wrappers

  datatype Config = Config(window: int, max: int, adminWindow: int, adminMax: int) {
    function Window(r: Request): int {
      if r.admin then adminWindow else window
    }

    function Limit(r: Request): int {
      if r.admin then adminMax else max
    }

    /** The larger of the two limits. */
    function M(): int {
      Max(max, adminMax)
    }
  }

  datatype Request = Request(ip: string, admin: bool, now: int)

  datatype Entry = Entry(count: nat, resetAt: int)

  type Table = map<string, Entry>

  /** The request starts a new window. */
  predicate Opens(t: Table, r: Request) {
    r.ip !in t || r.now > t[r.ip].resetAt
  }

  function Step(c: Config, t: Table, r: Request): (t': Table)
    ensures r.ip in t'
  {
    var entry := if Opens(t, r) then Entry(0, r.now + c.Window(r)) else t[r.ip];
    t[r.ip := entry.(count := entry.count + 1)]
  }

  predicate Accepts(c: Config, t: Table, r: Request) {
    Step(c, t, r)[r.ip].count <= c.Limit(r)
  }

  class Limiter {
    const config: Config
    var rateLimitStore: Table

    constructor (config: Config)
      ensures this.config == config && rateLimitStore == map[]
    {
      this.config, rateLimitStore := config, map[];
    }

    method CheckRateLimit(ip: string, isAdmin: bool, now: int) returns (accepted: bool, remaining: int, resetAt: int)
      modifies this
      ensures rateLimitStore == Step(config, old(rateLimitStore), Request(ip, isAdmin, now))
      ensures accepted == Accepts(config, old(rateLimitStore), Request(ip, isAdmin, now))
      ensures accepted <==> rateLimitStore[ip].count <= (if isAdmin then config.adminMax else config.max)
      ensures accepted ==> remaining == (if isAdmin then config.adminMax else config.max) - rateLimitStore[ip].count
      ensures !accepted ==> remaining == 0
      ensures resetAt == rateLimitStore[ip].resetAt
    {
      var window := if isAdmin then config.adminWindow else config.window;
      var max := if isAdmin then config.adminMax else config.max;
      var entry;
      if ip !in rateLimitStore || now > rateLimitStore[ip].resetAt {
        entry := Entry(0, now + window);
      } else {
        entry := rateLimitStore[ip];
      }
      entry := entry.(count := entry.count + 1);
      rateLimitStore := rateLimitStore[ip := entry];
      return entry.count <= max, Max(0, max - entry.count), entry.resetAt;
    }
  }

  // ------------------------------------------------------------ traces

  function Run(c: Config, trace: seq<Request>): Table {
    if trace == [] then map[] else Step(c, Run(c, trace[..|trace| - 1]), trace[|trace| - 1])
  }

  ghost predicate Ordered(trace: seq<Request>) {
    forall i, j | 0 <= i < j < |trace| :: trace[i].now <= trace[j].now
  }

  /** Request i of the trace is accepted. */
  predicate AcceptedAt(c: Config, trace: seq<Request>, i: nat)
    requires i < |trace|
  {
    Accepts(c, Run(c, trace[..i]), trace[i])
  }

  /** How many requests from ip, at position `from` or later and timed from a to b, are accepted. */
  function Accepted(c: Config, trace: seq<Request>, ip: string, from: int, a: int, b: int): nat {
    if trace == [] then 0
    else
      var last := |trace| - 1;
      Accepted(c, trace[..last], ip, from, a, b) +
      if from <= last && trace[last].ip == ip && a <= trace[last].now <= b && AcceptedAt(c, trace, last) then 1 else 0
  }

  /** How many requests from ip, accepted or not, stand at position `from` or later. */
  function Requests(trace: seq<Request>, ip: string, from: int): nat {
    if trace == [] then 0
    else
      Requests(trace[..|trace| - 1], ip, from) +
      if from < |trace| && trace[|trace| - 1].ip == ip then 1 else 0
  }

  /** No request from ip after position i starts a new window. */
  ghost predicate SameWindow(c: Config, trace: seq<Request>, ip: string, i: int) {
    forall k | i < k < |trace| && 0 <= k && trace[k].ip == ip :: !Opens(Run(c, trace[..k]), trace[k])
  }

  lemma SameWindowPrefix(c: Config, trace: seq<Request>, ip: string, i: int)
    requires trace != [] && SameWindow(c, trace, ip, i)
    ensures SameWindow(c, trace[..|trace| - 1], ip, i)
  {
    var before := trace[..|trace| - 1];
    forall k | i < k < |before| && 0 <= k && before[k].ip == ip
      ensures !Opens(Run(c, before[..k]), before[k])
    {
      assert before[..k] == trace[..k];
    }
  }

  /**
   The entry's count is the number of requests of both classes, accepted and rejected, since
   its window opened, and its deadline was fixed by the request that opened it, which was accepted
   exactly when its class allows any request at all.
   */
  lemma {:induction false} CountMeaning(c: Config, trace: seq<Request>, ip: string, i: nat)
    requires i < |trace| && trace[i].ip == ip && Opens(Run(c, trace[..i]), trace[i])
    requires SameWindow(c, trace, ip, i)
    ensures ip in Run(c, trace)
    ensures Run(c, trace)[ip].count == Requests(trace, ip, i)
    ensures Run(c, trace)[ip].resetAt == trace[i].now + if trace[i].admin then c.adminWindow else c.window
    ensures AcceptedAt(c, trace, i) <==> (if trace[i].admin then c.adminMax else c.max) >= 1
  {
    var before := trace[..|trace| - 1];
    if i == |before| {
      NoRequests(before, ip, i);
    } else {
      assert before[..i] == trace[..i];
      SameWindowPrefix(c, trace, ip, i);
      CountMeaning(c, before, ip, i);
    }
  }

  /**
   The next request opens a window of its own exactly when it comes after the deadline of the last one, set by
   the class of its first request; otherwise it is accepted exactly when it is within the limit of its own class.
   */
  lemma NextRequest(c: Config, trace: seq<Request>, i: nat, r: Request)
    requires i < |trace| && trace[i].ip == r.ip && Opens(Run(c, trace[..i]), trace[i])
    requires SameWindow(c, trace, r.ip, i)
    ensures Opens(Run(c, trace), r) <==> r.now > trace[i].now + if trace[i].admin then c.adminWindow else c.window
    ensures !Opens(Run(c, trace), r) ==>
              (Accepts(c, Run(c, trace), r) <==>
               Requests(trace, r.ip, i) + 1 <= if r.admin then c.adminMax else c.max)
  {
    CountMeaning(c, trace, r.ip, i);
  }

  lemma {:induction false} NoRequests(trace: seq<Request>, ip: string, from: int)
    requires from >= |trace|
    ensures Requests(trace, ip, from) == 0
  {
    if trace == [] {
    } else {
      NoRequests(trace[..|trace| - 1], ip, from);
    }
  }

  /** Within one window at most M requests are accepted, whatever the mix of classes. */
  lemma {:induction false} WindowBound(c: Config, trace: seq<Request>, ip: string, i: int, a: int, b: int)
    requires SameWindow(c, trace, ip, i)
    ensures var n := Accepted(c, trace, ip, i, a, b);
            && n <= Max(0, c.M())
            && (if ip in Run(c, trace) then n <= Run(c, trace)[ip].count else n == 0)
  {
    if trace == [] {
    } else {
      SameWindowPrefix(c, trace, ip, i);
      WindowBound(c, trace[..|trace| - 1], ip, i, a, b);
      if i >= |trace| - 1 {
        NoneAccepted(c, trace[..|trace| - 1], ip, i, a, b);
      }
    }
  }

  lemma {:induction false} NoneAccepted(c: Config, trace: seq<Request>, ip: string, from: int, a: int, b: int)
    requires from >= |trace|
    ensures Accepted(c, trace, ip, from, a, b) == 0
  {
    if trace == [] {
    } else {
      NoneAccepted(c, trace[..|trace| - 1], ip, from, a, b);
    }
  }

  // ------------------------------------------------------------ any span of time

  /**
   What is known after a trace about n, the number of requests accepted from a to b, when the
   span is no longer than a window: nothing yet, or the current window opened before a, or it
   opened inside the span and outlasts it, or time has passed b.
   */
  ghost predicate Phase(c: Config, trace: seq<Request>, ip: string, a: int, b: int, n: nat) {
    var t := Run(c, trace);
    || (ip !in t && n == 0)
    || (ip in t && n <= Min(t[ip].count, c.M()) - 1)
    || (ip in t && t[ip].resetAt >= b && n <= c.M() - 1 + Min(t[ip].count, c.M()))
    || (trace != [] && trace[|trace| - 1].now > b && n <= 2 * c.M() - 1)
  }

  lemma {:induction false} SpanPhase(c: Config, trace: seq<Request>, ip: string, a: int, b: int)
    requires Ordered(trace) && b - a <= Min(c.window, c.adminWindow) && c.M() >= 1
    ensures var n := Accepted(c, trace, ip, 0, a, b);
            && Phase(c, trace, ip, a, b, n)
            && n <= 2 * c.M() - 1
            && (trace != [] && trace[|trace| - 1].now < a ==> n == 0)
    ensures ip in Run(c, trace) ==> Run(c, trace)[ip].count >= 1
  {
    if trace == [] {
    } else {
      var before := trace[..|trace| - 1];
      SpanPhase(c, before, ip, a, b);
      assert before != [] ==> before[|before| - 1].now <= trace[|trace| - 1].now;
    }
  }

  lemma {:induction false} NothingAccepted(c: Config, trace: seq<Request>, ip: string, from: int, a: int, b: int)
    requires c.M() < 1
    ensures Accepted(c, trace, ip, from, a, b) == 0
  {
    if trace == [] {
    } else {
      NothingAccepted(c, trace[..|trace| - 1], ip, from, a, b);
    }
  }

  /**
   In any span of time no longer than the smaller window, at most 2M - 1 requests of one address
   are accepted: two windows can meet in it, but the earlier one opened before the span.
   */
  lemma SpanBound(c: Config, trace: seq<Request>, ip: string, a: int, b: int)
    requires Ordered(trace) && b - a <= Min(c.window, c.adminWindow)
    ensures Accepted(c, trace, ip, 0, a, b) <= Max(0, 2 * c.M() - 1)
  {
    if c.M() >= 1 {
      SpanPhase(c, trace, ip, a, b);
    } else {
      NothingAccepted(c, trace, ip, 0, a, b);
    }
  }

  function Burst(trace: seq<Request>, r: Request, k: nat): seq<Request> {
    if k == 0 then trace else Burst(trace, r, k - 1) + [r]
  }

  lemma {:induction false} BurstOrdered(trace: seq<Request>, r: Request, k: nat)
    requires Ordered(trace) && (forall i | 0 <= i < |trace| :: trace[i].now <= r.now)
    ensures Ordered(Burst(trace, r, k))
    ensures forall i | 0 <= i < |Burst(trace, r, k)| :: Burst(trace, r, k)[i].now <= r.now
  {
    if k == 0 {
    } else {
      BurstOrdered(trace, r, k - 1);
    }
  }

  lemma {:induction false} BurstAccepted(c: Config, trace: seq<Request>, r: Request, k: nat, a: int, b: int)
    requires !Opens(Run(c, trace), r)
    requires Run(c, trace)[r.ip].count + k <= c.Limit(r) && a <= r.now <= b
    ensures var t, t' := Run(c, trace), Run(c, Burst(trace, r, k));
            r.ip in t' && t'[r.ip] == Entry(t[r.ip].count + k, t[r.ip].resetAt)
    ensures Accepted(c, Burst(trace, r, k), r.ip, 0, a, b) == Accepted(c, trace, r.ip, 0, a, b) + k
  {
    if k == 0 {
    } else {
      BurstAccepted(c, trace, r, k - 1, a, b);
      var before := Burst(trace, r, k - 1);
      var whole := Burst(trace, r, k);
      assert whole[..|whole| - 1] == before && whole[|whole| - 1] == r;
    }
  }

  lemma Append(c: Config, trace: seq<Request>, r: Request, a: int, b: int)
    ensures Run(c, trace + [r]) == Step(c, Run(c, trace), r)
    ensures Accepted(c, trace + [r], r.ip, 0, a, b) ==
            Accepted(c, trace, r.ip, 0, a, b) + if a <= r.now <= b && Accepts(c, Run(c, trace), r) then 1 else 0
  {
    assert (trace + [r])[..|trace + [r]| - 1] == trace;
  }

  lemma Reopen(c: Config, trace: seq<Request>, r: Request, a: int, b: int)
    requires Opens(Run(c, trace), r) && c.Limit(r) >= 1 && c.Window(r) >= 0
    requires Ordered(trace) && (forall i | 0 <= i < |trace| :: trace[i].now <= r.now)
    ensures Ordered(trace + [r]) && forall i | 0 <= i < |trace + [r]| :: (trace + [r])[i].now <= r.now
    ensures !Opens(Run(c, trace + [r]), r) && Run(c, trace + [r])[r.ip] == Entry(1, r.now + c.Window(r))
    ensures Accepted(c, trace + [r], r.ip, 0, a, b) ==
            Accepted(c, trace, r.ip, 0, a, b) + if a <= r.now <= b then 1 else 0
  {
    Append(c, trace, r, a, b);
  }

  /** Open a window with r and use it up with requests like r' before it expires. */
  lemma FillWindow(c: Config, trace: seq<Request>, r: Request, r': Request, a: int, b: int)
    returns (filled: seq<Request>)
    requires r'.ip == r.ip && r.now <= r'.now <= r.now + c.Window(r) && a <= r'.now <= b
    requires Opens(Run(c, trace), r) && c.Limit(r) >= 1 && c.Limit(r') == c.Limit(r) && c.Window(r) >= 0
    requires Ordered(trace) && (forall i | 0 <= i < |trace| :: trace[i].now <= r.now)
    ensures Ordered(filled) && forall i | 0 <= i < |filled| :: filled[i].now <= r'.now
    ensures r.ip in Run(c, filled) && Run(c, filled)[r.ip] == Entry(c.Limit(r), r.now + c.Window(r))
    ensures Accepted(c, filled, r.ip, 0, a, b) ==
            Accepted(c, trace, r.ip, 0, a, b) + (if a <= r.now <= b then 1 else 0) + c.Limit(r) - 1
  {
    Reopen(c, trace, r, a, b);
    filled := UseUp(c, trace + [r], r', c.Limit(r) - 1, a, b);
  }

  /** k more requests fit into the open window. */
  lemma UseUp(c: Config, trace: seq<Request>, r: Request, k: nat, a: int, b: int) returns (filled: seq<Request>)
    requires !Opens(Run(c, trace), r) && Run(c, trace)[r.ip].count + k <= c.Limit(r) && a <= r.now <= b
    requires Ordered(trace) && (forall i | 0 <= i < |trace| :: trace[i].now <= r.now)
    ensures Ordered(filled) && forall i | 0 <= i < |filled| :: filled[i].now <= r.now
    ensures var e := Run(c, trace)[r.ip];
            r.ip in Run(c, filled) && Run(c, filled)[r.ip] == Entry(e.count + k, e.resetAt)
    ensures Accepted(c, filled, r.ip, 0, a, b) == Accepted(c, trace, r.ip, 0, a, b) + k
  {
    BurstAccepted(c, trace, r, k, a, b);
    BurstOrdered(trace, r, k);
    filled := Burst(trace, r, k);
  }

  /** The bound is exact: for all limits, and all windows of at least one tick, some trace reaches it. */
  lemma SpanBoundIsReached(c: Config, ip: string) returns (trace: seq<Request>, a: int, b: int)
    requires c.M() >= 1 && c.window >= 1 && c.adminWindow >= 1
    ensures Ordered(trace) && 0 <= b - a <= Min(c.window, c.adminWindow)
    ensures Accepted(c, trace, ip, 0, a, b) == 2 * c.M() - 1
  {
    var admin := c.adminMax == c.M();
    a := c.Window(Request(ip, admin, 0));
    b := a + 1;
    var r1, r2 := Request(ip, admin, a), Request(ip, admin, b);
    trace := FillWindow(c, [], Request(ip, admin, 0), r1, a, b);
    trace := FillWindow(c, trace, r2, r2, a, b);
  }

  // ------------------------------------------------------------ deadlines

  /** A rejected request of an address with an entry leaves that entry's deadline alone. */
  ghost predicate KeepsDeadline(c: Config, t: Table, r: Request)
    requires r.ip in t
  {
    !Accepts(c, t, r) ==> Step(c, t, r)[r.ip].resetAt == t[r.ip].resetAt
  }

  ghost predicate AlwaysKeepsDeadline(c: Config, r: Request) {
    forall trace | Ordered(trace + [r]) && r.ip in Run(c, trace) :: KeepsDeadline(c, Run(c, trace), r)
  }

  /**
   Rejections never move a deadline, in any reachable table, exactly when the class allows at least one
   request; otherwise a rejected request that finds an expired entry moves its deadline.
   */
  lemma RejectionsKeepDeadlines(c: Config, r: Request)
    ensures AlwaysKeepsDeadline(c, r) <==> c.Limit(r) >= 1
  {
    if c.Limit(r) < 1 {
      var first := r.(now := r.now - Max(c.Window(r), 0) - 1);
      assert [first][..0] == [];
      assert Run(c, [first]) == map[r.ip := Entry(1, first.now + c.Window(r))];
      assert Opens(Run(c, [first]), r) && !Accepts(c, Run(c, [first]), r);
      assert Ordered([first] + [r]);
      assert !KeepsDeadline(c, Run(c, [first]), r);
    }
  }

  /** Addresses do not influence each other. */
  lemma {:induction false} OthersDoNotMatter(c: Config, trace: seq<Request>, others: seq<Request>, ip: string)
    requires forall i | 0 <= i < |others| :: others[i].ip != ip
    ensures ip in Run(c, trace + others) <==> ip in Run(c, trace)
    ensures ip in Run(c, trace) ==> Run(c, trace + others)[ip] == Run(c, trace)[ip]
  {
    if others == [] {
      assert trace + others == trace;
    } else {
      var most := others[..|others| - 1];
      OthersDoNotMatter(c, trace, most, ip);
      assert (trace + others)[..|trace + others| - 1] == trace + most;
    }
  }
}
