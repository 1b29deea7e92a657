/** The job_runs table: one row per slot of a scheduled process, and the statements that
    queue, claim, finish, reclaim and delete rows. */
module JobRuns {
  import opened Sets
  import opened Wrappers

  datatype RunStatus = Pending | Running | Succeeded | Failed | TimedOut | Skipped

  predicate Terminal(status: RunStatus) {
    status != Pending && status != Running
  }

  /** Slots are minutes; the other times are instants in seconds. */
  datatype JobRun = JobRun(
    process: nat,
    slot: nat,
    deployment: Option<nat>,
    status: RunStatus,
    exitCode: Option<int>,
    detail: Option<string>,
    output: Option<string>,
    leasedBy: Option<string>,
    leasedAt: Option<nat>,
    startedAt: Option<nat>,
    finishedAt: Option<nat>)

  type Rows = map<nat, JobRun>

  /** What the unique constraint on (process_id, scheduled_for) looks up. */
  predicate Taken(rows: Rows, process: nat, slot: nat) {
    exists id | id in rows :: rows[id].process == process && rows[id].slot == slot
  }

  ghost predicate UniqueSlots(rows: Rows) {
    forall a, b | a in rows && b in rows && rows[a].process == rows[b].process && rows[a].slot == rows[b].slot :: a == b
  }

  function NewRun(process: nat, slot: nat, deployment: Option<nat>, status: RunStatus, detail: Option<string>, now: nat): JobRun {
    JobRun(process, slot, deployment, status, None, detail, None, None, None, None,
           if status == Pending then None else Some(now))
  }

  /** A pending row no other transaction holds locked. */
  predicate Claimable(rows: Rows, locked: set<nat>, id: nat) {
    id in rows && rows[id].status == Pending && id !in locked
  }

  /** The claimable row with the earliest slot. */
  predicate IsNext(rows: Rows, locked: set<nat>, id: nat) {
    && Claimable(rows, locked, id)
    && forall other | other in rows && Claimable(rows, locked, other) :: rows[id].slot <= rows[other].slot
  }

  function Claimed(run: JobRun, worker: string, now: nat): JobRun {
    run.(status := Running, leasedBy := Some(worker), leasedAt := Some(now), startedAt := Some(now))
  }

  function Finished(run: JobRun, status: RunStatus, exitCode: Option<int>, detail: Option<string>, output: Option<string>, now: nat): JobRun {
    run.(status := status, exitCode := exitCode, detail := detail, output := output,
         finishedAt := Some(now), leasedBy := None, leasedAt := None)
  }

  const STOPPED_RESPONDING := "The worker running this job stopped responding."

  predicate Abandoned(run: JobRun, olderThan: nat, now: nat) {
    run.status == Running && run.leasedAt.Some? && run.leasedAt.value + olderThan < now
  }

  function Reclaimed(rows: Rows, olderThan: nat, now: nat): Rows {
    map id | id in rows ::
      if Abandoned(rows[id], olderThan, now) then
        rows[id].(status := Failed, detail := Some(STOPPED_RESPONDING),
                  finishedAt := Some(now), leasedBy := None, leasedAt := None)
      else rows[id]
  }

  /** The most recent run of its process. */
  predicate IsLatest(rows: Rows, id: nat)
    requires id in rows
  {
    forall other | other in rows && rows[other].process == rows[id].process :: rows[other].slot <= rows[id].slot
  }

  const SECONDS_PER_DAY: nat := 86400

  predicate Expired(rows: Rows, id: nat, days: nat, now: nat)
    requires id in rows
  {
    && rows[id].slot * 60 + days * SECONDS_PER_DAY < now
    && Terminal(rows[id].status)
    && !IsLatest(rows, id)
  }

  function Retained(rows: Rows, days: nat, now: nat): Rows {
    map id | id in rows && !Expired(rows, id, days, now) :: rows[id]
  }

  lemma {:induction false} EarliestExists(rows: Rows, pending: set<nat>) returns (id: nat)
    requires pending != {} && pending <= rows.Keys
    ensures id in pending && forall other | other in pending :: rows[id].slot <= rows[other].slot
    decreases |pending|
  {
    id :| id in pending;
    if pending != {id} {
      var best := EarliestExists(rows, pending - {id});
      if rows[best].slot < rows[id].slot {
        id := best;
      }
    }
  }

  /** A deletion takes a row exactly when its slot is out of date, it is over, and its process has a
      run of a later slot; pending and running ones stay, however old. */
  lemma DeletedIff(rows: Rows, id: nat, days: nat, now: nat)
    requires id in rows
    ensures id !in Retained(rows, days, now) <==>
            && rows[id].slot * 60 + days * 86400 < now
            && rows[id].status in {Succeeded, Failed, TimedOut, Skipped}
            && exists later :: later in rows && rows[later].process == rows[id].process && rows[id].slot < rows[later].slot
    ensures id in Retained(rows, days, now) ==> Retained(rows, days, now)[id] == rows[id]
  {
  }

  function RunsOf(rows: Rows, process: nat): set<nat> {
    set id | id in rows && rows[id].process == process
  }

  lemma {:induction false} LatestExists(rows: Rows, runs: set<nat>) returns (id: nat)
    requires runs != {} && runs <= rows.Keys
    ensures id in runs && forall other | other in runs :: rows[other].slot <= rows[id].slot
    decreases |runs|
  {
    id :| id in runs;
    if runs != {id} {
      var best := LatestExists(rows, runs - {id});
      if rows[id].slot < rows[best].slot {
        id := best;
      }
    }
  }

  /** However old its runs, a process that has any keeps its latest one through a deletion, so
      its "last ran" neither goes blank nor moves back. */
  lemma LatestIsRetained(rows: Rows, process: nat, days: nat, now: nat) returns (id: nat)
    requires RunsOf(rows, process) != {}
    ensures id in rows && rows[id].process == process && IsLatest(rows, id)
    ensures var after := Retained(rows, days, now); id in after && after[id] == rows[id] && IsLatest(after, id)
  {
    id := LatestExists(rows, RunsOf(rows, process));
    assert forall other | other in rows && rows[other].process == process :: other in RunsOf(rows, process);
  }

  class JobRunTable {
    var rows: Rows
    /** Row ids are fresh: none is ever used twice. */
    var nextId: nat

    constructor ()
      ensures Valid() && rows == map[]
    {
      rows := map[];
      nextId := 0;
    }

    ghost predicate Valid()
      reads this
    {
      (forall id | id in rows :: id < nextId) && UniqueSlots(rows)
    }

    /** Records that a slot is due, once. */
    method ClaimSlot(process: nat, slot: nat, deployment: Option<nat>, status: RunStatus, detail: Option<string>, now: nat)
      returns (r: Option<nat>)
      requires Valid()
      modifies this
      ensures Valid()
      ensures r.None? <==> Taken(old(rows), process, slot)
      ensures r.None? ==> rows == old(rows) && nextId == old(nextId)
      ensures r.Some? ==> r.value !in old(rows) && r.value == old(nextId) && nextId == old(nextId) + 1
      ensures r.Some? ==> rows == old(rows)[r.value := NewRun(process, slot, deployment, status, detail, now)]
    {
      if Taken(rows, process, slot) {
        return None;
      }
      r := Some(nextId);
      rows := rows[nextId := NewRun(process, slot, deployment, status, detail, now)];
      nextId := nextId + 1;
    }

    method ClaimNextRun(worker: string, locked: set<nat>, now: nat) returns (r: Option<nat>)
      requires Valid()
      modifies this`rows
      ensures Valid()
      ensures r.None? <==> forall id | id in old(rows) :: !Claimable(old(rows), locked, id)
      ensures r.None? ==> rows == old(rows)
      ensures r.Some? ==> IsNext(old(rows), locked, r.value)
      ensures r.Some? ==> rows == old(rows)[r.value := Claimed(old(rows)[r.value], worker, now)]
    {
      var pending := set id | id in rows && Claimable(rows, locked, id);
      if pending == {} {
        assert forall id | id in rows :: id !in pending;
        return None;
      }
      var candidate :| candidate in pending;
      var rest := pending - {candidate};
      while rest != {}
        invariant rest <= pending && candidate in pending
        invariant forall other | other in pending - rest :: rows[candidate].slot <= rows[other].slot
        decreases |rest|
      {
        var other :| other in rest;
        if rows[other].slot < rows[candidate].slot {
          candidate := other;
        }
        rest := rest - {other};
      }
      assert IsNext(rows, locked, candidate) by {
        forall other | other in rows && Claimable(rows, locked, other) ensures rows[candidate].slot <= rows[other].slot {
          assert other in pending - rest;
        }
      }
      rows := rows[candidate := Claimed(rows[candidate], worker, now)];
      return Some(candidate);
    }

    /** No guard on the current status: a late worker overwrites whatever is there. */
    method FinishRun(id: nat, status: RunStatus, exitCode: Option<int>, detail: Option<string>, output: Option<string>, now: nat)
      returns (found: bool)
      requires Valid()
      modifies this`rows
      ensures Valid()
      ensures found <==> id in old(rows)
      ensures rows == if found then old(rows)[id := Finished(old(rows)[id], status, exitCode, detail, output, now)] else old(rows)
    {
      found := id in rows;
      if found {
        rows := rows[id := Finished(rows[id], status, exitCode, detail, output, now)];
      }
    }

    method ReclaimAbandonedRuns(olderThan: nat, now: nat) returns (ids: set<nat>)
      requires Valid()
      modifies this`rows
      ensures Valid()
      ensures rows == Reclaimed(old(rows), olderThan, now)
      ensures forall id :: id in ids <==> id in old(rows) && Abandoned(old(rows)[id], olderThan, now)
    {
      ids := set id | id in rows && Abandoned(rows[id], olderThan, now);
      rows := Reclaimed(rows, olderThan, now);
    }

    method DeleteOldRuns(days: nat, now: nat) returns (count: nat)
      requires Valid()
      modifies this`rows
      ensures Valid()
      ensures rows == Retained(old(rows), days, now)
      ensures count == |old(rows)| - |rows|
    {
      var kept := Retained(rows, days, now);
      assert kept.Keys <= rows.Keys;
      SubsetSize(kept.Keys, rows.Keys);
      count := |rows| - |kept|;
      rows := kept;
    }
  }
}
