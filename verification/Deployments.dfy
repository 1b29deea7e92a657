/** The deployments table, which is also the build queue. */
module Deployments {
  import opened Wrappers
  import opened Text

  datatype Status = Queued | Building | Deploying | Ready | Failed | Cancelled {
    predicate InFlight() {
      Building? || Deploying?
    }
  }

  datatype Trigger = Push | Manual | Rollback | Redeploy

  datatype Deployment = Deployment(
    project: nat,
    number: nat,
    status: Status,
    trigger: Trigger,
    gitSha: string,
    gitRef: string,
    imageTag: Option<string>,
    container: Option<nat>,
    error: Option<string>,
    createdAt: nat,
    leasedBy: Option<string>,
    leasedAt: Option<nat>)

  type Rows = map<nat, Deployment>

  /** A build of a branch's head, as opposed to one that names its commit on purpose. */
  predicate IsHead(d: Deployment) {
    d.trigger == Push || d.trigger == Manual
  }

  predicate SameBranch(a: Deployment, b: Deployment) {
    a.project == b.project && a.gitRef == b.gitRef
  }

  predicate NumberTaken(rows: Rows, project: nat, number: nat) {
    exists id | id in rows :: rows[id].project == project && rows[id].number == number
  }

  ghost predicate UniqueNumbers(rows: Rows) {
    forall a, b | a in rows && b in rows && rows[a].project == rows[b].project && rows[a].number == rows[b].number :: a == b
  }

  /** A project's numbers start at 1 and leave no gap. */
  ghost predicate NoGaps(rows: Rows) {
    forall id, k | id in rows && 1 <= k < rows[id].number :: NumberTaken(rows, rows[id].project, k)
  }

  predicate IsHighest(rows: Rows, project: nat, number: nat) {
    forall id | id in rows && rows[id].project == project :: rows[id].number <= number
  }

  function NewBuild(project: nat, number: nat, sha: string, ref: string, trigger: Trigger, now: nat): Deployment {
    Deployment(project, number, Queued, trigger, sha, ref, None, None, None, now, None, None)
  }

  predicate OnProductionBranch(branches: map<nat, string>, d: Deployment) {
    d.project in branches && d.gitRef == branches[d.project]
  }

  /** Production before previews, then oldest first. */
  predicate Before(branches: map<nat, string>, a: Deployment, b: Deployment) {
    if OnProductionBranch(branches, a) != OnProductionBranch(branches, b) then OnProductionBranch(branches, a)
    else a.createdAt <= b.createdAt
  }

  /** A queued row the claim may take, when some rows are locked by other transactions. */
  predicate IsNextBuild(rows: Rows, branches: map<nat, string>, locked: set<nat>, id: nat) {
    && id in rows && rows[id].status == Queued && id !in locked
    && forall other | other in rows && rows[other].status == Queued && other !in locked :: Before(branches, rows[id], rows[other])
  }

  /** Of the queued rows that are not locked, the next is one of a production branch if there is any,
      and none of its own kind is older. */
  lemma NextIsFirst(rows: Rows, branches: map<nat, string>, locked: set<nat>, id: nat, other: nat)
    requires IsNextBuild(rows, branches, locked, id)
    requires other in rows && rows[other].status == Queued && other !in locked
    ensures var mine := rows[id].project in branches && rows[id].gitRef == branches[rows[id].project];
            var theirs := rows[other].project in branches && rows[other].gitRef == branches[rows[other].project];
            (theirs ==> mine) && (mine == theirs ==> rows[id].createdAt <= rows[other].createdAt)
  {
    assert Before(branches, rows[id], rows[other]);
  }

  function Claimed(d: Deployment, worker: string, now: nat): Deployment {
    d.(status := Building, leasedBy := Some(worker), leasedAt := Some(now))
  }

  predicate IsReplaced(d: Deployment, newer: Deployment) {
    d.project == newer.project && d.gitRef == newer.gitRef && d.status == Queued && IsHead(d) && d.number < newer.number
  }

  function ReplacedBy(newer: Deployment): string {
    "Replaced by #" + Decimal(newer.number) + ", a newer commit on " + newer.gitRef + ", before it started building."
  }

  function Superseded(rows: Rows, newer: Deployment): Rows {
    map id | id in rows ::
      if IsReplaced(rows[id], newer) then rows[id].(status := Cancelled, error := Some(ReplacedBy(newer))) else rows[id]
  }

  predicate Abandoned(d: Deployment, olderThan: nat, now: nat) {
    d.status.InFlight() && d.leasedAt.Some? && d.leasedAt.value + olderThan < now
  }

  const STOPPED_RESPONDING := "The worker building this deployment stopped responding. Nothing was deployed; try again."

  function Reclaimed(rows: Rows, olderThan: nat, now: nat): Rows {
    map id | id in rows ::
      if Abandoned(rows[id], olderThan, now) then
        rows[id].(status := Failed, error := Some(STOPPED_RESPONDING), leasedBy := None, leasedAt := None)
      else rows[id]
  }

  function Built(d: Deployment, imageTag: string): Deployment {
    d.(status := Deploying, imageTag := Some(imageTag))
  }

  function MadeReady(d: Deployment, container: nat): Deployment {
    d.(status := Ready, container := Some(container), error := None, leasedBy := None, leasedAt := None)
  }

  function MadeFailed(d: Deployment, error: string): Deployment {
    d.(status := Failed, error := Some(if |error| > 2000 then error[..2000] else error), leasedBy := None, leasedAt := None)
  }

  function MadeCancelled(d: Deployment): Deployment {
    d.(status := Cancelled, leasedBy := None, leasedAt := None)
  }

  /** The table's own check: a deployment in flight holds a lease. */
  predicate LeaseMatchesStatus(d: Deployment) {
    d.status.InFlight() ==> d.leasedBy.Some?
  }

  /** Supersession cancels exactly the older queued head builds of the branch, and changes
      nothing else: not a redeploy, a rollback, a started build or another branch. */
  lemma SupersededExactly(rows: Rows, newer: Deployment, id: nat)
    requires id in rows
    ensures Superseded(rows, newer)[id] != rows[id] <==>
            && rows[id].project == newer.project && rows[id].gitRef == newer.gitRef && rows[id].number < newer.number
            && rows[id].status == Queued && rows[id].trigger in {Push, Manual}
    ensures Superseded(rows, newer)[id] != rows[id] ==>
              Superseded(rows, newer)[id] == rows[id].(status := Cancelled, error := Some(ReplacedBy(newer)))
  {
  }

  class DeploymentTable {
    var rows: Rows
    var nextId: nat

    constructor ()
      ensures Valid() && rows == map[]
    {
      rows := map[];
      nextId := 0;
    }

    ghost predicate Valid()
      reads this
    {
      && (forall id | id in rows :: id < nextId)
      && UniqueNumbers(rows) && NoGaps(rows)
      && (forall id | id in rows :: LeaseMatchesStatus(rows[id]))
    }

    /** Queues a build, numbered one past the highest its INSERT saw. `seen` holds that number
        for each attempt: a snapshot that missed a concurrent insert collides and is retried. */
    method Create(project: nat, sha: string, ref: string, trigger: Trigger, now: nat, seen: seq<nat>) returns (r: Option<nat>)
      requires Valid()
      requires forall n | n in seen :: n == 0 || NumberTaken(rows, project, n)
      modifies this
      ensures Valid()
      ensures r.Some? <==> exists n | n in seen :: IsHighest(old(rows), project, n)
      ensures r.None? ==> rows == old(rows)
      ensures r.Some? ==> r.value !in old(rows) && exists n | n in seen ::
                            IsHighest(old(rows), project, n) && rows == old(rows)[r.value := NewBuild(project, n + 1, sha, ref, trigger, now)]
    {
      for attempt := 0 to |seen|
        invariant Valid() && rows == old(rows) && nextId == old(nextId)
        invariant forall i | 0 <= i < attempt :: !IsHighest(rows, project, seen[i])
      {
        var number := seen[attempt] + 1;
        HighestIsFree(rows, project, seen[attempt]);
        if !NumberTaken(rows, project, number) {
          InsertKeepsNumbers(rows, nextId, NewBuild(project, number, sha, ref, trigger, now));
          rows := rows[nextId := NewBuild(project, number, sha, ref, trigger, now)];
          nextId := nextId + 1;
          return Some(nextId - 1);
        }
      }
      return None;
    }

    /** The claim's inner SELECT. */
    method PickNext(branches: map<nat, string>, locked: set<nat>) returns (r: Option<nat>)
      ensures r.None? <==> forall id | id in rows :: rows[id].status != Queued || id in locked
      ensures r.Some? ==> IsNextBuild(rows, branches, locked, r.value)
    {
      var queued := set id | id in rows && rows[id].status == Queued && id !in locked;
      if queued == {} {
        assert forall id | id in rows :: id !in queued;
        return None;
      }
      var best :| best in queued;
      var rest := queued - {best};
      while rest != {}
        invariant rest <= queued && best in queued
        invariant forall other | other in queued - rest :: Before(branches, rows[best], rows[other])
        decreases |rest|
      {
        var other :| other in rest;
        if Before(branches, rows[other], rows[best]) {
          best := other;
        }
        rest := rest - {other};
      }
      forall other | other in rows && rows[other].status == Queued && other !in locked
        ensures Before(branches, rows[best], rows[other])
      {
        assert other in queued - rest;
      }
      return Some(best);
    }

    method ClaimNext(worker: string, branches: map<nat, string>, locked: set<nat>, now: nat) returns (r: Option<nat>)
      requires Valid()
      modifies this`rows
      ensures Valid()
      ensures r.None? <==> forall id | id in old(rows) :: old(rows)[id].status != Queued || id in locked
      ensures r.None? ==> rows == old(rows)
      ensures r.Some? ==> IsNextBuild(old(rows), branches, locked, r.value)
      ensures r.Some? ==> rows == old(rows)[r.value := Claimed(old(rows)[r.value], worker, now)]
    {
      r := PickNext(branches, locked);
      if r.Some? {
        UpdateKeepsNumbers(rows, r.value, Claimed(rows[r.value], worker, now));
        rows := rows[r.value := Claimed(rows[r.value], worker, now)];
      }
    }

    method SupersedeQueued(newer: Deployment) returns (cancelled: set<nat>)
      requires Valid()
      modifies this`rows
      ensures Valid()
      ensures rows == Superseded(old(rows), newer)
      ensures forall id :: id in cancelled <==> id in old(rows) && IsReplaced(old(rows)[id], newer)
    {
      cancelled := set id | id in rows && IsReplaced(rows[id], newer);
      var after := Superseded(rows, newer);
      NumbersKept(rows, after);
      rows := after;
    }

    method ReclaimAbandoned(olderThan: nat, now: nat)
      requires Valid()
      modifies this`rows
      ensures Valid()
      ensures rows == Reclaimed(old(rows), olderThan, now)
    {
      var after := Reclaimed(rows, olderThan, now);
      NumbersKept(rows, after);
      rows := after;
    }

    /** Refused by the table's check when the row's lease was reclaimed in the meantime. */
    method MarkBuilt(id: nat, imageTag: string) returns (done: bool)
      requires Valid()
      modifies this`rows
      ensures Valid()
      ensures done <==> id in old(rows) && old(rows)[id].leasedBy.Some?
      ensures rows == if done then old(rows)[id := Built(old(rows)[id], imageTag)] else old(rows)
    {
      done := id in rows && LeaseMatchesStatus(Built(rows[id], imageTag));
      if done {
        UpdateKeepsNumbers(rows, id, Built(rows[id], imageTag));
        rows := rows[id := Built(rows[id], imageTag)];
      }
    }

    method MarkReady(id: nat, container: nat) returns (found: bool)
      requires Valid()
      modifies this`rows
      ensures Valid()
      ensures found <==> id in old(rows)
      ensures rows == if found then old(rows)[id := MadeReady(old(rows)[id], container)] else old(rows)
    {
      found := id in rows;
      if found {
        UpdateKeepsNumbers(rows, id, MadeReady(rows[id], container));
        rows := rows[id := MadeReady(rows[id], container)];
      }
    }

    method MarkFailed(id: nat, error: string) returns (found: bool)
      requires Valid()
      modifies this`rows
      ensures Valid()
      ensures found <==> id in old(rows)
      ensures rows == if found then old(rows)[id := MadeFailed(old(rows)[id], error)] else old(rows)
    {
      found := id in rows;
      if found {
        UpdateKeepsNumbers(rows, id, MadeFailed(rows[id], error));
        rows := rows[id := MadeFailed(rows[id], error)];
      }
    }

    method MarkCancelled(id: nat) returns (found: bool)
      requires Valid()
      modifies this`rows
      ensures Valid()
      ensures found <==> id in old(rows)
      ensures rows == if found then old(rows)[id := MadeCancelled(old(rows)[id])] else old(rows)
    {
      found := id in rows;
      if found {
        UpdateKeepsNumbers(rows, id, MadeCancelled(rows[id]));
        rows := rows[id := MadeCancelled(rows[id])];
      }
    }
  }

  /** The row of a build just queued. */
  ghost predicate IsNewBuild(before: Rows, d: Deployment, project: nat, sha: string, ref: string, trigger: Trigger, now: nat) {
    && d.project == project && d.gitSha == sha && d.gitRef == ref && d.trigger == trigger && d.createdAt == now
    && d.status == Queued && d.imageTag.None? && d.container.None? && d.error.None? && d.leasedBy.None? && d.leasedAt.None?
    && 1 <= d.number && (forall id | id in before && before[id].project == project :: before[id].number < d.number)
    && (d.number == 1 || exists id :: id in before && before[id].project == project && before[id].number == d.number - 1)
  }

  /** A build of a head replaces this queued one. */
  predicate IsReplacedBy(d: Deployment, project: nat, ref: string, trigger: Trigger) {
    && (trigger == Push || trigger == Manual)
    && d.project == project && d.gitRef == ref && d.status == Queued && (d.trigger == Push || d.trigger == Manual)
  }

  /** The rows once a build was queued: it is new, those it replaces are cancelled, and every other
      is as it was. */
  ghost predicate IsQueued(before: Rows, after: Rows, id: nat, project: nat, sha: string, ref: string, trigger: Trigger, now: nat) {
    && id !in before && after.Keys == before.Keys + {id}
    && IsNewBuild(before, after[id], project, sha, ref, trigger, now)
    && forall other | other in before ::
         if IsReplacedBy(before[other], project, ref, trigger)
         then after[other] == before[other].(status := Cancelled, error := after[other].error)
         else after[other] == before[other]
  }

  lemma CreatedIsNew(before: Rows, project: nat, n: nat, sha: string, ref: string, trigger: Trigger, now: nat)
    requires IsHighest(before, project, n) && (n == 0 || NumberTaken(before, project, n))
    ensures IsNewBuild(before, NewBuild(project, n + 1, sha, ref, trigger, now), project, sha, ref, trigger, now)
  {
  }

  lemma CreatedIsQueued(before: Rows, id: nat, project: nat, n: nat, sha: string, ref: string, trigger: Trigger, now: nat)
    requires id !in before && IsHighest(before, project, n) && (n == 0 || NumberTaken(before, project, n))
    ensures var d := NewBuild(project, n + 1, sha, ref, trigger, now);
            IsQueued(before, if trigger == Push || trigger == Manual then Superseded(before[id := d], d) else before[id := d],
                     id, project, sha, ref, trigger, now)
  {
    CreatedIsNew(before, project, n, sha, ref, trigger, now);
    var d := NewBuild(project, n + 1, sha, ref, trigger, now);
    hide IsNewBuild, NumberTaken, ReplacedBy;
    if trigger == Push || trigger == Manual {
      var after := Superseded(before[id := d], d);
      assert after[id] == d;
    }
  }

  /** Queues a build, numbered on from the highest, and, if it is of a branch's head, cancels the
      queued head builds of the branch that it replaces: it is the only one queued then. */
  method QueueDeploy(table: DeploymentTable, project: nat, sha: string, ref: string, trigger: Trigger, now: nat, seen: seq<nat>)
    returns (r: Option<nat>)
    requires table.Valid()
    requires forall n | n in seen :: n == 0 || NumberTaken(table.rows, project, n)
    modifies table
    ensures table.Valid()
    ensures r.Some? <==> exists n | n in seen :: IsHighest(old(table.rows), project, n)
    ensures r.None? ==> table.rows == old(table.rows)
    ensures r.Some? ==> IsQueued(old(table.rows), table.rows, r.value, project, sha, ref, trigger, now)
    ensures r.Some? && (trigger == Push || trigger == Manual) ==>
              forall id | id in table.rows && table.rows[id].project == project && table.rows[id].gitRef == ref
                          && table.rows[id].status == Queued && (table.rows[id].trigger == Push || table.rows[id].trigger == Manual) ::
                id == r.value
  {
    ghost var before := table.rows;
    hide *;
    r := table.Create(project, sha, ref, trigger, now, seen);
    if r.Some? {
      ghost var n :| n in seen && IsHighest(before, project, n)
                     && table.rows == before[r.value := NewBuild(project, n + 1, sha, ref, trigger, now)];
      CreatedIsQueued(before, r.value, project, n, sha, ref, trigger, now);
      if trigger == Push || trigger == Manual {
        var _ := table.SupersedeQueued(table.rows[r.value]);
        OnlyOneQueued(before, table.rows, r.value, project, sha, ref, trigger, now);
      }
    }
  }

  lemma OnlyOneQueued(before: Rows, after: Rows, id: nat, project: nat, sha: string, ref: string, trigger: Trigger, now: nat)
    requires IsQueued(before, after, id, project, sha, ref, trigger, now) && (trigger == Push || trigger == Manual)
    ensures forall other | other in after && after[other].project == project && after[other].gitRef == ref
                           && after[other].status == Queued && (after[other].trigger == Push || after[other].trigger == Manual) ::
              other == id
  {
    hide IsNewBuild;
  }

  // Numbers

  lemma HighestIsFree(rows: Rows, project: nat, n: nat)
    requires NoGaps(rows) && (n == 0 || NumberTaken(rows, project, n))
    ensures IsHighest(rows, project, n) <==> !NumberTaken(rows, project, n + 1)
  {
    if !IsHighest(rows, project, n) {
      var id :| id in rows && rows[id].project == project && n < rows[id].number;
      assert n + 1 == rows[id].number || NumberTaken(rows, rows[id].project, n + 1);
    }
  }

  lemma InsertKeepsNumbers(rows: Rows, id: nat, d: Deployment)
    requires id !in rows && UniqueNumbers(rows) && NoGaps(rows)
    requires 1 <= d.number && IsHighest(rows, d.project, d.number - 1)
    requires d.number == 1 || NumberTaken(rows, d.project, d.number - 1)
    ensures UniqueNumbers(rows[id := d]) && NoGaps(rows[id := d])
  {
    var after := rows[id := d];
    forall a, k | a in after && 1 <= k < after[a].number ensures NumberTaken(after, after[a].project, k) {
      if a == id {
        var b :| b in rows && rows[b].project == d.project && rows[b].number == d.number - 1;
        assert k == rows[b].number || NumberTaken(rows, rows[b].project, k);
        TakenMore(rows, after, d.project, k);
      } else {
        TakenMore(rows, after, rows[a].project, k);
      }
    }
  }

  lemma TakenMore(rows: Rows, after: Rows, project: nat, k: nat)
    requires NumberTaken(rows, project, k)
    requires forall id | id in rows :: id in after && after[id].project == rows[id].project && after[id].number == rows[id].number
    ensures NumberTaken(after, project, k)
  {
    var id :| id in rows && rows[id].project == project && rows[id].number == k;
    assert after[id].project == project && after[id].number == k;
  }

  lemma NumbersKept(rows: Rows, after: Rows)
    requires UniqueNumbers(rows) && NoGaps(rows) && after.Keys == rows.Keys
    requires forall id | id in rows :: after[id].project == rows[id].project && after[id].number == rows[id].number
    ensures UniqueNumbers(after) && NoGaps(after)
  {
    forall a, k | a in after && 1 <= k < after[a].number ensures NumberTaken(after, after[a].project, k) {
      TakenMore(rows, after, rows[a].project, k);
    }
  }

  lemma UpdateKeepsNumbers(rows: Rows, id: nat, d: Deployment)
    requires UniqueNumbers(rows) && NoGaps(rows) && id in rows
    requires d.project == rows[id].project && d.number == rows[id].number
    ensures UniqueNumbers(rows[id := d]) && NoGaps(rows[id := d])
  {
    NumbersKept(rows, rows[id := d]);
  }
}
