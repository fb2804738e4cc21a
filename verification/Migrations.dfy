/**
 The migration runner: every process reads the ledger once, then applies the files it did not
 find there, one transaction each, stopping at the first failure. Any number of processes may
 run at the same time, fail, lose an acknowledgement or crash.
 */
module Migrations {
  import opened Wrappers
  import opened Seqs

  /** A row of the ledger table, whose names are unique. */
  datatype Record = Record(name: string, checksum: string)

  datatype Result = Result(applied: seq<string>, skipped: seq<string>, failed: seq<string>)

  /**
   What stays fixed while migrations run: the directory listing, the locale's comparison of two
   file names, and the checksum of each file's content.
   */
  datatype Directory = Directory(listing: seq<string>, before: (string, string) -> bool, checksum: string -> string) {
    ghost predicate Valid() {
      StrictWeakOrder(before) && NoDuplicates(listing)
    }

    function SqlFiles(): seq<string> {
      Sort(before, Filter(IsSql(), listing))
    }

    function RecordOf(): string -> Record {
      (name: string) => Record(name, checksum(name))
    }
  }

  function IsSql(): string -> bool {
    (name: string) => |name| >= 4 && name[|name| - 4..] == ".sql"
  }

  function Names(ledger: seq<Record>): (r: seq<string>)
    ensures |r| == |ledger|
  {
    Map((row: Record) => row.name, ledger)
  }

  lemma NamesAppend(ledger: seq<Record>, more: seq<Record>)
    ensures Names(ledger + more) == Names(ledger) + Names(more)
  {
  }

  lemma SqlFilesDistinct(dir: Directory)
    requires dir.Valid()
    ensures NoDuplicates(dir.SqlFiles())
  {
    var sql := Filter(IsSql(), dir.listing);
    forall i, j | 0 <= i < j < |sql|
      ensures sql[i] != sql[j]
    {
      var a, b := FilterPositions(IsSql(), dir.listing, i, j);
    }
    SortPermutes(dir.before, sql);
    SamePermutationDistinct(sql, dir.SqlFiles());
  }

  /** The migrations are the listed names that end in ".sql", each as often as it is listed, in the locale's order. */
  lemma SqlFilesAre(dir: Directory)
    requires dir.Valid()
    ensures var files := dir.SqlFiles();
            && (forall name :: name in files <==> name in dir.listing && exists base :: name == base + ".sql")
            && (forall name | name in files :: multiset(files)[name] == multiset(dir.listing)[name])
            && (forall i, j | 0 <= i < j < |files| :: !dir.before(files[j], files[i]))
  {
    var sql := Filter(IsSql(), dir.listing);
    SortPermutes(dir.before, sql);
    SortSorted(dir.before, sql);
    forall name
      ensures IsSql()(name) <==> exists base :: name == base + ".sql"
    {
      SqlNames(name);
    }
    forall name | name in dir.SqlFiles()
      ensures multiset(sql)[name] == multiset(dir.listing)[name]
    {
      FilterCount(IsSql(), dir.listing, name);
    }
  }

  lemma SqlNames(name: string)
    ensures IsSql()(name) <==> exists base :: name == base + ".sql"
  {
    if IsSql()(name) {
      assert name == name[..|name| - 4] + ".sql";
    }
    if base :| name == base + ".sql" {
      assert name[|name| - 4..] == ".sql";
    }
  }

  lemma {:induction false} FilterCount(p: string -> bool, s: seq<string>, x: string)
    requires p(x)
    ensures multiset(Filter(p, s))[x] == multiset(s)[x]
  {
    if s == [] {
    } else {
      FilterCount(p, s[1..], x);
      assert s == [s[0]] + s[1..];
    }
  }

  lemma DistinctMultiset(s: seq<string>)
    ensures NoDuplicates(s) <==> forall x :: multiset(s)[x] <= 1
  {
    if s != [] {
      var t := s[..|s| - 1];
      DistinctMultiset(t);
      assert s == t + [s[|s| - 1]];
      if NoDuplicates(s) {
        assert s[|s| - 1] !in t;
      } else {
        var i, j :| 0 <= i < j < |s| && s[i] == s[j];
        if j < |t| {
          assert t[i] == t[j];
          assert !NoDuplicates(t);
          var x :| multiset(t)[x] > 1;
          assert multiset(s)[x] > 1;
        } else {
          assert t[i] == s[|s| - 1];
          assert multiset(s)[s[i]] > 1;
        }
      }
    }
  }

  lemma SamePermutationDistinct(s: seq<string>, t: seq<string>)
    requires multiset(s) == multiset(t) && NoDuplicates(s)
    ensures NoDuplicates(t)
  {
    DistinctMultiset(s);
    DistinctMultiset(t);
  }

  // ------------------------------------------------------------ one run

  class Database {
    var ledger: seq<Record>

    constructor ()
      ensures ledger == []
    {
      ledger := [];
    }
  }

  function Among(names: seq<string>): string -> bool {
    (name: string) => name in names
  }

  function NotAmong(names: seq<string>): string -> bool {
    (name: string) => name !in names
  }

  /**
   The outcome of a run that found the known names in the ledger and got through the first `done`
   files: it skipped the known ones, applied the others, and stopped at the first that fails.
   */
  ghost predicate IsRun(dir: Directory, known: seq<string>, fails: string -> bool, result: Result, done: nat) {
    var files := dir.SqlFiles();
    && done <= |files|
    && result.skipped == Filter(Among(known), files[..done])
    && result.applied == Filter(NotAmong(known), files[..done])
    && (forall name | name in result.applied :: !fails(name))
    && result.failed == (if done < |files| then [files[done]] else [])
    && (done < |files| ==> files[done] !in known && fails(files[done]))
  }

  /**
   A run with nobody else at work. `fails` says which migrations the database rejects; `done`
   is how many files the run got through.
   */
  method RunMigrations(db: Database, dir: Directory, fails: string -> bool) returns (result: Result, ghost done: nat)
    requires dir.Valid()
    modifies db
    ensures IsRun(dir, Names(old(db.ledger)), fails, result, done)
    ensures old(db.ledger) <= db.ledger && |db.ledger| == |old(db.ledger)| + |result.applied|
    ensures forall i | 0 <= i < |result.applied| ::
              db.ledger[|old(db.ledger)| + i] == Record(result.applied[i], dir.checksum(result.applied[i]))
  {
    var applied := db.ledger;
    var appliedNames := Names(applied);
    var sqlFiles := dir.SqlFiles();
    result := Result([], [], []);
    SqlFilesDistinct(dir);
    for i := 0 to |sqlFiles|
      invariant result.skipped == Filter(Among(appliedNames), sqlFiles[..i])
      invariant result.applied == Filter(NotAmong(appliedNames), sqlFiles[..i])
      invariant forall name | name in result.applied :: !fails(name)
      invariant result.failed == []
      invariant db.ledger == applied + Map(dir.RecordOf(), result.applied)
    {
      var file := sqlFiles[i];
      FilterNext(Among(appliedNames), sqlFiles, i);
      FilterNext(NotAmong(appliedNames), sqlFiles, i);
      if file in appliedNames {
        result := result.(skipped := result.skipped + [file]);
        continue;
      }
      // One transaction: the migration and its ledger row, or neither.
      InPrefix(sqlFiles, i, i);
      NewRow(dir, applied, result.applied, file);
      if fails(file) || file in Names(db.ledger) {
        result := result.(failed := result.failed + [file]);
        return result, i;
      }
      db.ledger := db.ledger + [Record(file, dir.checksum(file))];
      result := result.(applied := result.applied + [file]);
    }
    assert sqlFiles[..|sqlFiles|] == sqlFiles;
    return result, |sqlFiles|;
  }

  lemma FilterNext(p: string -> bool, s: seq<string>, i: nat)
    requires i < |s|
    ensures Filter(p, s[..i + 1]) == Filter(p, s[..i]) + if p(s[i]) then [s[i]] else []
  {
    assert s[..i + 1] == s[..i] + [s[i]];
    FilterAppend(p, s[..i], [s[i]]);
  }

  /** A file that was neither found nor applied so far does not clash, and its row continues the ledger. */
  lemma NewRow(dir: Directory, ledger: seq<Record>, applied: seq<string>, name: string)
    requires name !in Names(ledger) && name !in applied
    ensures var rows := Map(dir.RecordOf(), applied);
            && name !in Names(ledger + rows)
            && ledger + rows + [Record(name, dir.checksum(name))] == ledger + Map(dir.RecordOf(), applied + [name])
  {
    var rows := Map(dir.RecordOf(), applied);
    NamesAppend(ledger, rows);
    assert Names(rows) == applied;
    MapAppend(dir.RecordOf(), applied, [name]);
    assert Map(dir.RecordOf(), [name]) == [Record(name, dir.checksum(name))];
  }

  // ------------------------------------------------------------ many runs at once

  /** A process: `known` are the names it read when it started, `next` the file it is about to handle. */
  datatype Runner =
    | Running(known: seq<string>, next: nat, result: Result)
    | Finished(known: seq<string>, result: Result)

  datatype World = World(ledger: seq<Record>, runners: map<nat, Runner>)

  /** How a transaction ends: committed, committed without the process learning it, or rolled back. */
  datatype Commit = Committed | Unacknowledged | RolledBack

  /** Processes start, handle their next file (or end), and crash, in any order. */
  datatype Event = Start(id: nat) | Advance(id: nat, commit: Commit) | Crash(id: nat)

  function Attempt(dir: Directory, w: World, id: nat, runner: Runner, name: string, commit: Commit): World
    requires runner.Running?
  {
    var failed := Finished(runner.known, runner.result.(failed := runner.result.failed + [name]));
    if commit.RolledBack? || name in Names(w.ledger) then w.(runners := w.runners[id := failed])
    else
      var ledger := w.ledger + [Record(name, dir.checksum(name))];
      if commit.Unacknowledged? then World(ledger, w.runners[id := failed])
      else
        var applied := runner.result.(applied := runner.result.applied + [name]);
        World(ledger, w.runners[id := Running(runner.known, runner.next + 1, applied)])
  }

  /** Events that cannot happen leave the world alone. */
  function Step(dir: Directory, w: World, e: Event): World {
    match e
    case Start(id) =>
      if id in w.runners then w
      else w.(runners := w.runners[id := Running(Names(w.ledger), 0, Result([], [], []))])
    case Crash(id) => w.(runners := w.runners - {id})
    case Advance(id, commit) =>
      if id !in w.runners || w.runners[id].Finished? then w
      else
        var runner := w.runners[id];
        var files := dir.SqlFiles();
        if runner.next >= |files| then w.(runners := w.runners[id := Finished(runner.known, runner.result)])
        else if files[runner.next] in runner.known then
          var skipped := runner.result.(skipped := runner.result.skipped + [files[runner.next]]);
          w.(runners := w.runners[id := Running(runner.known, runner.next + 1, skipped)])
        else Attempt(dir, w, id, runner, files[runner.next], commit)
  }

  function Run(dir: Directory, events: seq<Event>): World {
    if events == [] then World([], map[])
    else Step(dir, Run(dir, events[..|events| - 1]), events[|events| - 1])
  }

  /** The ledger lists the first files, each once and in order, with their checksums. */
  ghost predicate LedgerIsPrefix(dir: Directory, ledger: seq<Record>) {
    && |ledger| <= |dir.SqlFiles()|
    && forall i | 0 <= i < |ledger| ::
         ledger[i].name == dir.SqlFiles()[i] && ledger[i].checksum == dir.checksum(dir.SqlFiles()[i])
  }

  /**
   What a process knows and did: it found the first files, skipped those, and applied the ones
   that follow up to where it stands, all of which are committed.
   */
  ghost predicate RunnerValid(files: seq<string>, committed: nat, runner: Runner) {
    && committed <= |files| && |runner.known| <= committed
    && runner.known == files[..|runner.known|]
    && match runner
       case Running(known, next, result) =>
         && next <= committed && result.failed == []
         && result.skipped == files[..Min(next, |known|)]
         && result.applied == files[Min(next, |known|)..next]
       case Finished(known, result) =>
         && |known| + |result.applied| <= committed
         && result.skipped == files[..|known|]
         && result.applied == files[|known|..|known| + |result.applied|]
         && (result.failed == [] ==> |known| + |result.applied| == |files|)
         && (result.failed != [] ==> |known| + |result.applied| < |files|
                                     && result.failed == [files[|known| + |result.applied|]])
  }

  ghost predicate WorldValid(dir: Directory, w: World) {
    && LedgerIsPrefix(dir, w.ledger)
    && forall id | id in w.runners :: RunnerValid(dir.SqlFiles(), |w.ledger|, w.runners[id])
  }

  lemma PrefixNames(dir: Directory, ledger: seq<Record>)
    requires LedgerIsPrefix(dir, ledger)
    ensures Names(ledger) == dir.SqlFiles()[..|ledger|]
  {
  }

  /** In a list without duplicates, an element is in a prefix exactly when its position is. */
  lemma InPrefix(files: seq<string>, i: nat, n: nat)
    requires NoDuplicates(files) && i < |files| && n <= |files|
    ensures files[i] in files[..n] <==> i < n
  {
    if i < n {
      assert files[..n][i] == files[i];
    }
  }

  lemma MorePrefix(dir: Directory, ledger: seq<Record>)
    requires LedgerIsPrefix(dir, ledger) && |ledger| < |dir.SqlFiles()|
    ensures var name := dir.SqlFiles()[|ledger|];
            LedgerIsPrefix(dir, ledger + [Record(name, dir.checksum(name))])
  {
    var files := dir.SqlFiles();
    assert files[..|ledger| + 1] == files[..|ledger|] + [files[|ledger|]];
  }

  /** Replacing one process by a valid one keeps the world valid. */
  lemma ReplaceRunner(dir: Directory, w: World, id: nat, runner: Runner)
    requires WorldValid(dir, w) && RunnerValid(dir.SqlFiles(), |w.ledger|, runner)
    ensures WorldValid(dir, w.(runners := w.runners[id := runner]))
  {
  }

  /** Committing one more file keeps every process valid. */
  lemma MoreCommitted(dir: Directory, w: World, name: string)
    requires WorldValid(dir, w) && |w.ledger| < |dir.SqlFiles()| && name == dir.SqlFiles()[|w.ledger|]
    ensures WorldValid(dir, w.(ledger := w.ledger + [Record(name, dir.checksum(name))]))
  {
    MorePrefix(dir, w.ledger);
    forall id | id in w.runners
      ensures RunnerValid(dir.SqlFiles(), |w.ledger| + 1, w.runners[id])
    {
      assert RunnerValid(dir.SqlFiles(), |w.ledger|, w.runners[id]);
    }
  }

  /** A process about to apply a file that is not in the ledger stands at its end. */
  lemma AttemptAtEnd(dir: Directory, w: World, id: nat)
    requires dir.Valid() && WorldValid(dir, w)
    requires id in w.runners && w.runners[id].Running? && w.runners[id].next < |dir.SqlFiles()|
    requires dir.SqlFiles()[w.runners[id].next] !in w.runners[id].known
    ensures |w.runners[id].known| <= w.runners[id].next <= |w.ledger|
    ensures dir.SqlFiles()[w.runners[id].next] in Names(w.ledger) <==> w.runners[id].next < |w.ledger|
  {
    SqlFilesDistinct(dir);
    PrefixNames(dir, w.ledger);
    assert RunnerValid(dir.SqlFiles(), |w.ledger|, w.runners[id]);
    InPrefix(dir.SqlFiles(), w.runners[id].next, |w.ledger|);
    InPrefix(dir.SqlFiles(), w.runners[id].next, |w.runners[id].known|);
  }

  /** A process whose attempt fails, or seems to, stops where it stands. */
  lemma FailedRunner(files: seq<string>, committed: nat, runner: Runner)
    requires RunnerValid(files, committed, runner) && runner.Running?
    requires |runner.known| <= runner.next < |files|
    ensures RunnerValid(files, committed,
                        Finished(runner.known, runner.result.(failed := runner.result.failed + [files[runner.next]])))
  {
  }

  /** A process whose attempt is committed has applied one more file. */
  lemma AppliedRunner(files: seq<string>, committed: nat, runner: Runner)
    requires RunnerValid(files, committed, runner) && runner.Running?
    requires |runner.known| <= runner.next == committed - 1
    ensures var applied := runner.result.(applied := runner.result.applied + [files[runner.next]]);
            RunnerValid(files, committed, Running(runner.known, runner.next + 1, applied))
  {
    assert files[|runner.known|..runner.next + 1] == files[|runner.known|..runner.next] + [files[runner.next]];
  }

  lemma AttemptValid(dir: Directory, w: World, id: nat, commit: Commit)
    requires dir.Valid() && WorldValid(dir, w)
    requires id in w.runners && w.runners[id].Running? && w.runners[id].next < |dir.SqlFiles()|
    requires dir.SqlFiles()[w.runners[id].next] !in w.runners[id].known
    ensures WorldValid(dir, Attempt(dir, w, id, w.runners[id], dir.SqlFiles()[w.runners[id].next], commit))
  {
    var files, runner := dir.SqlFiles(), w.runners[id];
    var name := files[runner.next];
    AttemptAtEnd(dir, w, id);
    var failed := Finished(runner.known, runner.result.(failed := runner.result.failed + [name]));
    if commit.RolledBack? || name in Names(w.ledger) {
      FailedRunner(files, |w.ledger|, runner);
      ReplaceRunner(dir, w, id, failed);
    } else {
      var more := w.(ledger := w.ledger + [Record(name, dir.checksum(name))]);
      MoreCommitted(dir, w, name);
      assert RunnerValid(files, |more.ledger|, more.runners[id]);
      if commit.Unacknowledged? {
        FailedRunner(files, |more.ledger|, runner);
        ReplaceRunner(dir, more, id, failed);
      } else {
        AppliedRunner(files, |more.ledger|, runner);
        var applied := runner.result.(applied := runner.result.applied + [name]);
        ReplaceRunner(dir, more, id, Running(runner.known, runner.next + 1, applied));
      }
    }
  }

  lemma FinishedRunner(files: seq<string>, committed: nat, runner: Runner)
    requires RunnerValid(files, committed, runner) && runner.Running? && runner.next >= |files|
    ensures RunnerValid(files, committed, Finished(runner.known, runner.result))
  {
  }

  lemma SkippingRunner(files: seq<string>, committed: nat, runner: Runner)
    requires RunnerValid(files, committed, runner) && runner.Running? && runner.next < |runner.known|
    ensures var skipped := runner.result.(skipped := runner.result.skipped + [files[runner.next]]);
            RunnerValid(files, committed, Running(runner.known, runner.next + 1, skipped))
  {
    assert files[..runner.next + 1] == files[..runner.next] + [files[runner.next]];
  }

  /** A process whose next file it had found when it started skips it; at the end it finishes. */
  lemma QuietAdvanceValid(dir: Directory, w: World, id: nat, commit: Commit)
    requires dir.Valid() && WorldValid(dir, w)
    requires id in w.runners && w.runners[id].Running?
    requires w.runners[id].next < |dir.SqlFiles()| ==> dir.SqlFiles()[w.runners[id].next] in w.runners[id].known
    ensures WorldValid(dir, Step(dir, w, Advance(id, commit))) && Step(dir, w, Advance(id, commit)).ledger == w.ledger
  {
    var files, runner := dir.SqlFiles(), w.runners[id];
    assert RunnerValid(files, |w.ledger|, runner);
    if runner.next >= |files| {
      FinishedRunner(files, |w.ledger|, runner);
      ReplaceRunner(dir, w, id, Finished(runner.known, runner.result));
    } else {
      SqlFilesDistinct(dir);
      InPrefix(files, runner.next, |runner.known|);
      SkippingRunner(files, |w.ledger|, runner);
      var skipped := runner.result.(skipped := runner.result.skipped + [files[runner.next]]);
      ReplaceRunner(dir, w, id, Running(runner.known, runner.next + 1, skipped));
    }
  }

  lemma StepValid(dir: Directory, w: World, e: Event)
    requires dir.Valid() && WorldValid(dir, w)
    ensures WorldValid(dir, Step(dir, w, e))
    ensures w.ledger <= Step(dir, w, e).ledger
  {
    match e
    case Start(id) =>
      PrefixNames(dir, w.ledger);
      ReplaceRunner(dir, w, id, Running(Names(w.ledger), 0, Result([], [], [])));
    case Crash(id) =>
    case Advance(id, commit) =>
      if id in w.runners && w.runners[id].Running? {
        var next := w.runners[id].next;
        if next < |dir.SqlFiles()| && dir.SqlFiles()[next] !in w.runners[id].known {
          AttemptValid(dir, w, id, commit);
        } else {
          QuietAdvanceValid(dir, w, id, commit);
        }
      }
  }

  /**
   Over every interleaving of processes the ledger is a prefix of the sorted files, and it only
   ever grows at its end.
   */
  lemma {:induction false} LedgerAlwaysPrefix(dir: Directory, events: seq<Event>)
    requires dir.Valid()
    ensures WorldValid(dir, Run(dir, events))
    ensures events != [] ==> Run(dir, events[..|events| - 1]).ledger <= Run(dir, events).ledger
  {
    if events == [] {
    } else {
      LedgerAlwaysPrefix(dir, events[..|events| - 1]);
      StepValid(dir, Run(dir, events[..|events| - 1]), events[|events| - 1]);
    }
  }

  /**
   A process that ends without a failure leaves nothing pending: it skipped what it found,
   applied all the rest itself, and the ledger holds every file.
   */
  lemma CleanFinishIsComplete(dir: Directory, events: seq<Event>, id: nat)
    requires dir.Valid()
    requires id in Run(dir, events).runners && Run(dir, events).runners[id].Finished?
    requires Run(dir, events).runners[id].result.failed == []
    ensures var w := Run(dir, events);
            && Names(w.ledger) == dir.SqlFiles()
            && w.runners[id].result.skipped + w.runners[id].result.applied == dir.SqlFiles()
  {
    LedgerAlwaysPrefix(dir, events);
    var w := Run(dir, events);
    PrefixNames(dir, w.ledger);
    CleanRunner(dir.SqlFiles(), |w.ledger|, w.runners[id]);
  }

  lemma CleanRunner(files: seq<string>, committed: nat, runner: Runner)
    requires RunnerValid(files, committed, runner) && runner.Finished? && runner.result.failed == []
    ensures committed == |files| && runner.result.skipped + runner.result.applied == files
  {
  }

  // ------------------------------------------------------------ what is pending

  function IsPending(applied: seq<string>): string -> bool {
    (name: string) => IsSql()(name) && name !in applied
  }

  function PendingMigrations(dir: Directory, ledger: seq<Record>): seq<string> {
    Sort(dir.before, Filter(IsPending(Names(ledger)), dir.listing))
  }

  lemma {:induction false} FilterPrefix(files: seq<string>, n: nat)
    requires NoDuplicates(files) && n <= |files|
    ensures Filter(NotAmong(files[..n]), files) == files[n..]
  {
    var p := NotAmong(files[..n]);
    assert files == files[..n] + files[n..];
    FilterAppend(p, files[..n], files[n..]);
    FilterNone(p, files[..n]);
    FilterAll(p, files[n..]);
  }

  /** In every reachable world exactly the rest of the sorted files is pending. */
  lemma PendingIsSuffix(dir: Directory, events: seq<Event>)
    requires dir.Valid()
    ensures var ledger := Run(dir, events).ledger;
            && |ledger| <= |dir.SqlFiles()|
            && PendingMigrations(dir, ledger) == dir.SqlFiles()[|ledger|..]
  {
    var ledger, files := Run(dir, events).ledger, dir.SqlFiles();
    LedgerAlwaysPrefix(dir, events);
    PrefixNames(dir, ledger);
    SqlFilesDistinct(dir);
    var absent := NotAmong(Names(ledger));
    FilterFilter(absent, IsSql(), IsPending(Names(ledger)), dir.listing);
    FilterSort(dir.before, absent, Filter(IsSql(), dir.listing));
    FilterPrefix(files, |ledger|);
  }

  /** A single undisturbed run from a prefix continues it: all the rest, or up to the first failure. */
  lemma RunContinuesPrefix(files: seq<string>, n: nat, done: nat)
    requires NoDuplicates(files) && n <= |files| && done <= |files|
    ensures Filter(Among(files[..n]), files[..done]) == files[..Min(n, done)]
    ensures Filter(NotAmong(files[..n]), files[..done]) == files[Min(n, done)..done]
  {
    var k := Min(n, done);
    var p, q := Among(files[..n]), NotAmong(files[..n]);
    assert files[..done] == files[..k] + files[k..done];
    FilterAppend(p, files[..k], files[k..done]);
    FilterAppend(q, files[..k], files[k..done]);
    SplitAtPrefix(files, n, done);
    FilterAll(p, files[..k]);
    FilterNone(q, files[..k]);
    FilterNone(p, files[k..done]);
    FilterAll(q, files[k..done]);
  }

  lemma SplitAtPrefix(files: seq<string>, n: nat, done: nat)
    requires NoDuplicates(files) && n <= |files| && done <= |files|
    ensures forall x | x in files[..Min(n, done)] :: x in files[..n]
    ensures forall x | x in files[Min(n, done)..done] :: x !in files[..n]
  {
    assert files[..Min(n, done)] <= files[..n];
    forall x | x in files[Min(n, done)..done]
      ensures x !in files[..n]
    {
      var i :| Min(n, done) <= i < done && files[i] == x;
      InPrefix(files, i, n);
    }
  }

  /** A run with nobody else at work turns a prefix of the files into a prefix, up to where it got. */
  lemma UndisturbedRunKeepsPrefix(dir: Directory, ledger: seq<Record>, fails: string -> bool, result: Result,
                                  done: nat, ledger': seq<Record>)
    requires dir.Valid() && LedgerIsPrefix(dir, ledger) && IsRun(dir, Names(ledger), fails, result, done)
    requires ledger <= ledger' && |ledger'| == |ledger| + |result.applied|
    requires forall i | 0 <= i < |result.applied| ::
               ledger'[|ledger| + i] == Record(result.applied[i], dir.checksum(result.applied[i]))
    ensures LedgerIsPrefix(dir, ledger') && |ledger'| == Max(|ledger|, done)
  {
    var files, n := dir.SqlFiles(), |ledger|;
    SqlFilesDistinct(dir);
    PrefixNames(dir, ledger);
    RunContinuesPrefix(files, n, done);
    assert result.applied == files[Min(n, done)..done];
    PrefixGoesOn(files, dir.checksum, ledger, result.applied, ledger');
  }

  lemma PrefixGoesOn(files: seq<string>, checksum: string -> string, ledger: seq<Record>, applied: seq<string>,
                     ledger': seq<Record>)
    requires |ledger| + |applied| <= |files| && applied == files[|ledger|..|ledger| + |applied|]
    requires forall i | 0 <= i < |ledger| :: ledger[i].name == files[i] && ledger[i].checksum == checksum(files[i])
    requires ledger <= ledger' && |ledger'| == |ledger| + |applied|
    requires forall i | 0 <= i < |applied| :: ledger'[|ledger| + i] == Record(applied[i], checksum(applied[i]))
    ensures forall i | 0 <= i < |ledger'| :: ledger'[i].name == files[i] && ledger'[i].checksum == checksum(files[i])
  {
    forall i | 0 <= i < |ledger'|
      ensures ledger'[i].name == files[i] && ledger'[i].checksum == checksum(files[i])
    {
      if i < |ledger| {
        assert ledger'[i] == ledger[i];
      } else {
        assert ledger'[|ledger| + (i - |ledger|)] == Record(applied[i - |ledger|], checksum(applied[i - |ledger|]));
      }
    }
  }

  // ------------------------------------------------------------ one run among the events

  /** How the next transaction of a process ends when it is lost only if the database rejects the file. */
  function CommitFor(dir: Directory, w: World, id: nat, fails: string -> bool): Commit {
    if id in w.runners && w.runners[id].Running? && w.runners[id].next < |dir.SqlFiles()| &&
       fails(dir.SqlFiles()[w.runners[id].next])
    then RolledBack else Committed
  }

  /** The events of a process that starts and then advances n times, with nobody else at work. */
  function Alone(dir: Directory, events: seq<Event>, id: nat, fails: string -> bool, n: nat): seq<Event> {
    if n == 0 then events + [Start(id)]
    else
      var before := Alone(dir, events, id, fails, n - 1);
      before + [Advance(id, CommitFor(dir, Run(dir, before), id, fails))]
  }

  lemma RunNext(dir: Directory, events: seq<Event>, e: Event)
    ensures Run(dir, events + [e]) == Step(dir, Run(dir, events), e)
  {
    assert (events + [e])[..|events|] == events;
  }

  /** The world with a process at file n that found the known names and then applied and skipped some. */
  function Standing(dir: Directory, w: World, id: nat, n: nat, applied: seq<string>, skipped: seq<string>): World {
    World(w.ledger + Map(dir.RecordOf(), applied),
          w.runners[id := Running(Names(w.ledger), n, Result(applied, skipped, []))])
  }

  /** The world after a process went through the first n files of its directory. */
  function Progress(dir: Directory, w: World, id: nat, n: nat): World
    requires n <= |dir.SqlFiles()|
  {
    Standing(dir, w, id, n, Filter(NotAmong(Names(w.ledger)), dir.SqlFiles()[..n]),
             Filter(Among(Names(w.ledger)), dir.SqlFiles()[..n]))
  }

  lemma Reassigned(runners: map<nat, Runner>, id: nat, a: Runner, b: Runner)
    ensures runners[id := a][id := b] == runners[id := b]
  {
  }

  lemma AdvanceSkips(dir: Directory, w: World, id: nat, n: nat, applied: seq<string>, skipped: seq<string>,
                     commit: Commit)
    requires n < |dir.SqlFiles()| && dir.SqlFiles()[n] in Names(w.ledger)
    ensures Step(dir, Standing(dir, w, id, n, applied, skipped), Advance(id, commit)) ==
            Standing(dir, w, id, n + 1, applied, skipped + [dir.SqlFiles()[n]])
  {
    var result := Result(applied, skipped + [dir.SqlFiles()[n]], []);
    Reassigned(w.runners, id, Running(Names(w.ledger), n, Result(applied, skipped, [])),
               Running(Names(w.ledger), n + 1, result));
  }

  lemma AdvanceApplies(dir: Directory, w: World, id: nat, n: nat, applied: seq<string>, skipped: seq<string>)
    requires n < |dir.SqlFiles()| && dir.SqlFiles()[n] !in Names(w.ledger) && dir.SqlFiles()[n] !in applied
    ensures Step(dir, Standing(dir, w, id, n, applied, skipped), Advance(id, Committed)) ==
            Standing(dir, w, id, n + 1, applied + [dir.SqlFiles()[n]], skipped)
  {
    var result := Result(applied + [dir.SqlFiles()[n]], skipped, []);
    NewRow(dir, w.ledger, applied, dir.SqlFiles()[n]);
    Reassigned(w.runners, id, Running(Names(w.ledger), n, Result(applied, skipped, [])),
               Running(Names(w.ledger), n + 1, result));
  }

  /** Advancing over a file that does not fail, or was found in the ledger. */
  lemma ProgressNext(dir: Directory, w: World, id: nat, n: nat, commit: Commit)
    requires dir.Valid() && n < |dir.SqlFiles()|
    requires commit != Committed ==> dir.SqlFiles()[n] in Names(w.ledger)
    ensures Step(dir, Progress(dir, w, id, n), Advance(id, commit)) == Progress(dir, w, id, n + 1)
  {
    var files, known := dir.SqlFiles(), Names(w.ledger);
    var applied, skipped := Filter(NotAmong(known), files[..n]), Filter(Among(known), files[..n]);
    FilterNext(Among(known), files, n);
    FilterNext(NotAmong(known), files, n);
    assert applied + [] == applied && skipped + [] == skipped;
    if files[n] in known {
      AdvanceSkips(dir, w, id, n, applied, skipped, commit);
    } else {
      SqlFilesDistinct(dir);
      InPrefix(files, n, n);
      AdvanceApplies(dir, w, id, n, applied, skipped);
    }
  }

  lemma CommitForProgress(dir: Directory, w: World, id: nat, fails: string -> bool, n: nat)
    requires n < |dir.SqlFiles()|
    ensures CommitFor(dir, Progress(dir, w, id, n), id, fails) ==
            if fails(dir.SqlFiles()[n]) then RolledBack else Committed
  {
  }

  /** Starting alone in world w and advancing n times takes a process through the first n files. */
  ghost predicate GetsThrough(dir: Directory, events: seq<Event>, w: World, id: nat, fails: string -> bool, n: nat) {
    n <= |dir.SqlFiles()| && Run(dir, Alone(dir, events, id, fails, n)) == Progress(dir, w, id, n)
  }

  lemma AloneStarts(dir: Directory, events: seq<Event>, w: World, id: nat, fails: string -> bool)
    requires w == Run(dir, events) && id !in w.runners
    ensures GetsThrough(dir, events, w, id, fails, 0)
  {
    RunNext(dir, events, Start(id));
    assert w.ledger + [] == w.ledger;
  }

  lemma AloneNext(dir: Directory, events: seq<Event>, w: World, id: nat, fails: string -> bool, n: nat)
    requires dir.Valid() && n < |dir.SqlFiles()| && GetsThrough(dir, events, w, id, fails, n)
    requires fails(dir.SqlFiles()[n]) ==> dir.SqlFiles()[n] in Names(w.ledger)
    ensures GetsThrough(dir, events, w, id, fails, n + 1)
  {
    var before := Alone(dir, events, id, fails, n);
    var commit := CommitFor(dir, Run(dir, before), id, fails);
    CommitForProgress(dir, w, id, fails, n);
    RunNext(dir, before, Advance(id, commit));
    ProgressNext(dir, w, id, n, commit);
    assert Alone(dir, events, id, fails, n + 1) == before + [Advance(id, commit)];
  }

  lemma AloneProgress(dir: Directory, events: seq<Event>, w: World, id: nat, fails: string -> bool, n: nat)
    requires dir.Valid() && GetsThrough(dir, events, w, id, fails, 0) && n <= |dir.SqlFiles()|
    requires forall i | 0 <= i < n :: fails(dir.SqlFiles()[i]) ==> dir.SqlFiles()[i] in Names(w.ledger)
    ensures GetsThrough(dir, events, w, id, fails, n)
  {
    for i := 0 to n
      invariant GetsThrough(dir, events, w, id, fails, i)
    {
      AloneNext(dir, events, w, id, fails, i);
    }
  }

  /** The loop is the event model with nobody else at work: it starts, then advances once per file and once more. */
  lemma UndisturbedRunIsAlone(dir: Directory, events: seq<Event>, id: nat, fails: string -> bool, result: Result,
                              done: nat)
    requires dir.Valid() && id !in Run(dir, events).runners
    requires IsRun(dir, Names(Run(dir, events).ledger), fails, result, done)
    ensures var w, known := Run(dir, events), Names(Run(dir, events).ledger);
            Run(dir, Alone(dir, events, id, fails, done + 1)) ==
            World(w.ledger + Map(dir.RecordOf(), result.applied), w.runners[id := Finished(known, result)])
  {
    var w, files := Run(dir, events), dir.SqlFiles();
    var known := Names(w.ledger);
    forall i | 0 <= i < done
      ensures fails(files[i]) ==> files[i] in known
    {
      assert files[i] in files[..done];
      assert NotAmong(known)(files[i]) ==> files[i] in result.applied;
    }
    AloneStarts(dir, events, w, id, fails);
    AloneProgress(dir, events, w, id, fails, done);
    var before := Alone(dir, events, id, fails, done);
    RunNext(dir, before, Advance(id, CommitFor(dir, Run(dir, before), id, fails)));
    ProgressEnds(dir, w, id, fails, result, done);
  }

  lemma ProgressEnds(dir: Directory, w: World, id: nat, fails: string -> bool, result: Result, done: nat)
    requires dir.Valid() && IsRun(dir, Names(w.ledger), fails, result, done)
    ensures var p := Progress(dir, w, id, done);
            Step(dir, p, Advance(id, CommitFor(dir, p, id, fails))) ==
            World(w.ledger + Map(dir.RecordOf(), result.applied), w.runners[id := Finished(Names(w.ledger), result)])
  {
    assert done < |dir.SqlFiles()| ==> [] + [dir.SqlFiles()[done]] == result.failed;
  }
}
