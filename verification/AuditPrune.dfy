/**
 Pruning the write-once audit table: expired events move to the archive inside one transaction
 that switches the write-once trigger off and on again and records itself.
 */
module AuditPrune {
  import opened Wrappers

  datatype Event = Event(
    actor: string, action: string, tableName: string, recordId: string, newData: string, createdAt: int)

  /** The audit table, its archive (both keyed by event id) and whether the write-once trigger is enabled. */
  datatype Tables = Tables(main: map<string, Event>, archive: map<string, Event>, triggerEnabled: bool)

  const INITIAL := Tables(map[], map[], true)

  // ------------------------------------------------------------ statements

  /** A statement succeeds with new tables, or fails and aborts its transaction. */
  datatype Outcome = Done(tables: Tables) | Failed

  function Expired(main: map<string, Event>, cutoff: int): map<string, Event> {
    map id | id in main && main[id].createdAt < cutoff :: main[id]
  }

  function SetTrigger(t: Tables, enabled: bool): Outcome {
    Done(t.(triggerEnabled := enabled))
  }

  /** Copies the expired rows; an id that is archived already violates the primary key. */
  function ArchiveExpired(t: Tables, cutoff: int): Outcome {
    var expired := Expired(t.main, cutoff);
    if expired.Keys * t.archive.Keys != {} then Failed else Done(t.(archive := t.archive + expired))
  }

  /** Deletes the expired rows; while the trigger is enabled, deleting any row fails. */
  function DeleteExpired(t: Tables, cutoff: int): Outcome {
    var expired := Expired(t.main, cutoff);
    if expired != map[] && t.triggerEnabled then Failed else Done(t.(main := t.main - expired.Keys))
  }

  function InsertEvent(t: Tables, id: string, event: Event): Outcome {
    if id in t.main then Failed else Done(t.(main := t.main[id := event]))
  }

  /**
   When the statements of a prune fail: archiving when an expired event is archived already, deleting when the
   write-once trigger is enabled and there is something to delete, inserting when the id is taken.
   */
  lemma StatementsFailIff(t: Tables, cutoff: int, id: string, event: Event)
    ensures ArchiveExpired(t, cutoff).Failed? <==>
            exists x :: x in t.main && t.main[x].createdAt < cutoff && x in t.archive
    ensures DeleteExpired(t, cutoff).Failed? <==>
            t.triggerEnabled && exists x :: x in t.main && t.main[x].createdAt < cutoff
    ensures InsertEvent(t, id, event).Failed? <==> id in t.main
  {
    var expired := Expired(t.main, cutoff);
    assert forall x :: x in expired <==> x in t.main && t.main[x].createdAt < cutoff;
    assert forall x :: x in expired.Keys * t.archive.Keys <==> x in expired && x in t.archive;
    assert expired != map[] ==> exists x :: x in expired.Keys;
  }

  /** The event that a prune records about itself. */
  function PruneEvent(now: int, newData: string): Event {
    Event("system", "PRUNE", "audit_events", "batch", newData, now)
  }

  // ------------------------------------------------------------ the store

  datatype PruneResult = PruneResult(archivedCount: nat, deletedCount: nat, archivedUntil: int)

  class AuditStore {
    var tables: Tables

    constructor ()
      ensures tables == INITIAL
    {
      tables := INITIAL;
    }

    method InsertAuditEvent(id: string, event: Event) returns (ok: bool)
      modifies this
      ensures tables == Step(old(tables), Insert(id, event))
      ensures ok <==> id !in old(tables).main
    {
      var inserted := InsertEvent(tables, id, event);
      if inserted.Failed? {
        return false;
      }
      tables := inserted.tables;
      return true;
    }

    /**
     One transaction of five statements. Any of them may fail for outside reasons, as may the
     commit (number 5): `failsAt` says which. A failure rolls everything back.
     */
    method PruneAuditEvents(cutoff: int, now: int, id: string, newData: string, failsAt: Option<nat>)
      returns (result: Option<PruneResult>)
      modifies this
      ensures tables == Step(old(tables), Prune(cutoff, now, id, newData, failsAt))
      ensures result.Some? <==> Commits(old(tables), cutoff, id, failsAt)
      ensures result.Some? ==>
                var expired := Expired(old(tables).main, cutoff);
                result.value == PruneResult(|expired|, |expired|, cutoff)
    {
      ghost var before := tables;
      var expired := Expired(tables.main, cutoff);
      var work := SetTrigger(tables, false);
      if failsAt == Some(0) {
        return None;
      }
      var archived := ArchiveExpired(work.tables, cutoff);
      if failsAt == Some(1) || archived.Failed? {
        return None;
      }
      var archivedCount := |expired|;
      var deleted := DeleteExpired(archived.tables, cutoff);
      if failsAt == Some(2) || deleted.Failed? {
        return None;
      }
      var deletedCount := |Expired(archived.tables.main, cutoff)|;
      work := SetTrigger(deleted.tables, true);
      if failsAt == Some(3) {
        return None;
      }
      var inserted := InsertEvent(work.tables, id, PruneEvent(now, newData));
      if failsAt == Some(4) || inserted.Failed? || failsAt == Some(5) {
        return None;
      }
      tables := inserted.tables;
      result := Some(PruneResult(archivedCount, deletedCount, cutoff));
    }
  }

  // ------------------------------------------------------------ runs

  datatype Op =
    | Insert(id: string, event: Event)
    | Prune(cutoff: int, now: int, id: string, newData: string, failsAt: Option<nat>)

  /** Nothing goes wrong, no expired id is archived already, and the id of the prune's own event is free. */
  predicate Commits(t: Tables, cutoff: int, id: string, failsAt: Option<nat>) {
    && (failsAt.None? || failsAt.value > 5)
    && Expired(t.main, cutoff).Keys * t.archive.Keys == {}
    && id !in t.main - Expired(t.main, cutoff).Keys
  }

  /** The tables after an operation: a committed prune moves the expired events and adds one of its own. */
  function Step(t: Tables, op: Op): Tables {
    match op
    case Insert(id, event) => if id in t.main then t else t.(main := t.main[id := event])
    case Prune(cutoff, now, id, newData, failsAt) =>
      if !Commits(t, cutoff, id, failsAt) then t
      else
        var expired := Expired(t.main, cutoff);
        Tables((t.main - expired.Keys)[id := PruneEvent(now, newData)], t.archive + expired, true)
  }

  function Run(ops: seq<Op>): Tables {
    if ops == [] then INITIAL else Step(Run(ops[..|ops| - 1]), ops[|ops| - 1])
  }

  /** Every event that any operation put into the audit table, by id. */
  function EverInserted(ops: seq<Op>): map<string, Event> {
    if ops == [] then map[]
    else
      var before, op := ops[..|ops| - 1], ops[|ops| - 1];
      match op
      case Insert(id, event) => EverInserted(before)[id := event]
      case Prune(cutoff, now, id, newData, failsAt) =>
        if Commits(Run(before), cutoff, id, failsAt) then EverInserted(before)[id := PruneEvent(now, newData)]
        else EverInserted(before)
  }

  /** Ids are generated by the database and never repeat. */
  ghost predicate FreshIds(ops: seq<Op>) {
    forall i, j | 0 <= i < j < |ops| :: ops[i].id != ops[j].id
  }

  lemma {:induction false} InsertedIds(ops: seq<Op>, id: string)
    requires id in EverInserted(ops)
    ensures exists i | 0 <= i < |ops| :: ops[i].id == id
  {
    var before, op := ops[..|ops| - 1], ops[|ops| - 1];
    if id != op.id {
      InsertedIds(before, id);
      var i :| 0 <= i < |before| && before[i].id == id;
      assert ops[i].id == id;
    }
  }

  lemma FreshNext(ops: seq<Op>, op: Op)
    requires FreshIds(ops + [op])
    ensures FreshIds(ops) && op.id !in EverInserted(ops)
  {
    var all := ops + [op];
    assert forall i | 0 <= i < |ops| :: all[i] == ops[i] && all[i].id != all[|ops|].id;
    if op.id in EverInserted(ops) {
      InsertedIds(ops, op.id);
      assert false;
    }
  }

  /** Main and archive together hold every event ever inserted, each once and unchanged. */
  ghost predicate NothingLost(t: Tables, ever: map<string, Event>) {
    && t.triggerEnabled
    && t.main.Keys !! t.archive.Keys
    && t.main + t.archive == ever
  }

  lemma MoveExpired(t: Tables, cutoff: int, ever: map<string, Event>)
    requires NothingLost(t, ever)
    ensures var expired := Expired(t.main, cutoff);
            NothingLost(Tables(t.main - expired.Keys, t.archive + expired, true), ever)
  {
    var expired := Expired(t.main, cutoff);
    var main, archive := t.main - expired.Keys, t.archive + expired;
    assert forall id | id in ever :: id in main + archive && (main + archive)[id] == ever[id];
    assert (main + archive).Keys == ever.Keys;
  }

  lemma AddFresh(t: Tables, id: string, event: Event, ever: map<string, Event>)
    requires NothingLost(t, ever) && id !in ever
    ensures NothingLost(t.(main := t.main[id := event]), ever[id := event])
  {
    assert t.main[id := event] + t.archive == (t.main + t.archive)[id := event];
  }

  /**
   Over any run of inserts and prunes, committed or rolled back at any statement, no event is lost,
   doubled or changed, and the write-once trigger is enabled after every operation.
   */
  lemma {:induction false} EveryEventIsKept(ops: seq<Op>)
    requires FreshIds(ops)
    ensures NothingLost(Run(ops), EverInserted(ops))
  {
    if ops == [] {
    } else {
      var before, op := ops[..|ops| - 1], ops[|ops| - 1];
      var t, ever := Run(before), EverInserted(before);
      EveryEventIsKept(before);
      assert ops == before + [op];
      FreshNext(before, op);
      match op
      case Insert(id, event) => AddFresh(t, id, event, ever);
      case Prune(cutoff, now, id, newData, failsAt) =>
        if Commits(t, cutoff, id, failsAt) {
          var expired := Expired(t.main, cutoff);
          MoveExpired(t, cutoff, ever);
          AddFresh(Tables(t.main - expired.Keys, t.archive + expired, true), id, PruneEvent(now, newData), ever);
        }
    }
  }

  /**
   In a reachable state a prune commits unless a statement or the commit fails from outside; it then
   archives exactly the rows it deletes, those before the cutoff, and adds exactly one event.
   */
  lemma PruneMovesExactlyExpired(ops: seq<Op>, op: Op)
    requires op.Prune? && FreshIds(ops + [op])
    ensures NothingLost(Run(ops), EverInserted(ops)) && op.id !in EverInserted(ops)
    ensures Commits(Run(ops), op.cutoff, op.id, op.failsAt) <==> op.failsAt.None? || op.failsAt.value > 5
    ensures Commits(Run(ops), op.cutoff, op.id, op.failsAt) ==> MovesExpired(Run(ops), Step(Run(ops), op), op)
  {
    FreshNext(ops, op);
    EveryEventIsKept(ops);
    assert op.id !in Run(ops).main + Run(ops).archive;
    CommitsUnlessFailing(Run(ops), op);
    if Commits(Run(ops), op.cutoff, op.id, op.failsAt) {
      MovesOnCommit(Run(ops), op);
    }
  }

  ghost predicate MovesExpired(t: Tables, t': Tables, op: Op)
    requires op.Prune?
  {
    && (forall x :: x in t'.archive.Keys - t.archive.Keys <==> x in t.main && t.main[x].createdAt < op.cutoff)
    && t.main.Keys - t'.main.Keys == t'.archive.Keys - t.archive.Keys
    && t'.main.Keys - t.main.Keys == {op.id} && op.id in t'.main
    && t'.main[op.id] == Event("system", "PRUNE", "audit_events", "batch", op.newData, op.now)
    && |t'.main| + |t'.archive| == |t.main| + |t.archive| + 1
  }

  lemma CommitsUnlessFailing(t: Tables, op: Op)
    requires op.Prune? && t.main.Keys !! t.archive.Keys && op.id !in t.main
    ensures Commits(t, op.cutoff, op.id, op.failsAt) <==> op.failsAt.None? || op.failsAt.value > 5
  {
    assert Expired(t.main, op.cutoff).Keys <= t.main.Keys;
  }

  lemma MovesOnCommit(t: Tables, op: Op)
    requires op.Prune? && t.main.Keys !! t.archive.Keys && op.id !in t.main && op.id !in t.archive
    requires Commits(t, op.cutoff, op.id, op.failsAt)
    ensures MovesExpired(t, Step(t, op), op)
  {
    var expired, event := Expired(t.main, op.cutoff), PruneEvent(op.now, op.newData);
    var t' := Step(t, op);
    assert t'.main == (t.main - expired.Keys)[op.id := event] && t'.archive == t.archive + expired;
    Sizes(t.main, t.archive, expired, op.id, event);
    Differences(t.main, t.archive, expired, op.id, event);
    assert forall x :: x in expired.Keys <==> x in t.main && t.main[x].createdAt < op.cutoff;
  }

  lemma Differences(main: map<string, Event>, archive: map<string, Event>, expired: map<string, Event>, id: string,
                    event: Event)
    requires expired.Keys <= main.Keys && main.Keys !! archive.Keys && id !in main
    ensures (archive + expired).Keys - archive.Keys == expired.Keys
    ensures main.Keys - (main - expired.Keys)[id := event].Keys == expired.Keys
    ensures (main - expired.Keys)[id := event].Keys - main.Keys == {id}
  {
    assert (archive + expired).Keys == archive.Keys + expired.Keys;
    assert (main - expired.Keys)[id := event].Keys == (main.Keys - expired.Keys) + {id};
  }

  lemma Sizes(main: map<string, Event>, archive: map<string, Event>, expired: map<string, Event>, id: string,
              event: Event)
    requires expired.Keys <= main.Keys && main.Keys !! archive.Keys && id !in main
    ensures |(main - expired.Keys)[id := event]| + |archive + expired| == |main| + |archive| + 1
  {
    assert (main - expired.Keys)[id := event].Keys == (main.Keys - expired.Keys) + {id};
    assert (archive + expired).Keys == archive.Keys + expired.Keys;
    assert |main.Keys - expired.Keys| == |main.Keys| - |expired.Keys|;
  }
}
