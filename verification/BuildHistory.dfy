/** What the row of a deployment says about it, over every run of the build queue. */
module BuildHistory {
  import opened Wrappers
  import opened Deployments
  import opened DeployQueue

  // A row's life

  /** A row is leased while it is built and only then; what is being deployed has its image, what
      failed says why, in at most 2,000 characters, and what waits has nothing yet. */
  predicate RowOk(d: Deployment) {
    && (d.leasedBy.Some? <==> d.status == Building || d.status == Deploying)
    && (d.status == Building || d.status == Deploying ==> d.leasedAt.Some?)
    && (d.status == Deploying ==> d.imageTag.Some?)
    && (d.status == Ready ==> d.error.None?)
    && (d.status == Failed ==> d.error.Some? && |d.error.value| <= 2000)
    && (d.status == Queued ==> d.imageTag.None? && d.error.None?)
  }

  ghost predicate RowsOk(s: State) {
    forall id | id in s.rows :: RowOk(s.rows[id])
  }

  lemma StepKeepsRows(s: State, step: Step)
    requires RowsOk(s) && Enabled(s, step)
    ensures RowsOk(Apply(s, step))
  {
    hide IsNextBuild, IsHighest, ReplacedBy;
  }

  /** Over every run, crashes, reclaims and late reports included. */
  lemma {:induction false} RowsAreOk(states: seq<State>, steps: seq<Step>, k: nat)
    requires Run(states, steps) && k < |states| && RowsOk(states[0])
    ensures RowsOk(states[k])
  {
    hide RowsOk, Apply, Enabled;
    if 0 < k {
      RowsAreOk(states, steps, k - 1);
      StepKeepsRows(states[k - 1], steps[k - 1]);
    }
  }

  // What is recorded, and how long it stands

  /** The row a step writes, if it writes one row. */
  predicate Marks(step: Step, id: nat) {
    match step
    case MarkBuilt(x, _) => x == id
    case MarkReady(x, _) => x == id
    case MarkFailed(x, _) => x == id
    case MarkCancelled(x) => x == id
    case _ => false
  }

  /** What a build's last word says. */
  predicate Says(d: Deployment, step: Step) {
    match step
    case MarkReady(_, _) => d.status == Ready && d.error.None?
    case MarkFailed(_, error) => d.status == Failed && d.error == Some(if |error| <= 2000 then error else error[..2000])
    case MarkCancelled(_) => d.status == Cancelled
    case _ => true
  }

  predicate IsOver(d: Deployment) {
    d.status == Ready || d.status == Failed || d.status == Cancelled
  }

  /** A report moves its own row to what it says, and no other; what was built or resident before is
      kept, and only readiness or a container that went changes which container serves. */
  lemma MarkIs(s: State, step: Step, id: nat, other: nat)
    requires Enabled(s, step) && Marks(step, id) && other in s.rows
    ensures var t := Apply(s, step);
            && t.rows.Keys == s.rows.Keys && (other != id ==> t.rows[other] == s.rows[other])
            && Says(t.rows[id], step) && SameBuild(s.rows[id], t.rows[id])
            && (step.MarkBuilt? ==> t.rows[id].status == Deploying && t.rows[id].imageTag == Some(step.imageTag))
            && (!step.MarkBuilt? ==>
                  IsOver(t.rows[id]) && t.rows[id].leasedBy.None? && t.rows[id].leasedAt.None? && t.rows[id].imageTag == s.rows[id].imageTag)
            && t.rows[id].container == (if step.MarkReady? then Some(step.container) else s.rows[id].container)
  {
  }

  /** A heartbeat renews its row's lease and a change of container records it; neither
      changes anything else. */
  lemma RenewalIs(s: State, step: Step, id: nat, other: nat)
    requires Enabled(s, step) && (step == Heartbeat(id) || (step.SetContainer? && step.id == id)) && other in s.rows
    ensures var t, d := Apply(s, step), s.rows[id];
            && t.rows.Keys == s.rows.Keys && (other != id ==> t.rows[other] == s.rows[other])
            && t.rows[id] == (if step.Heartbeat? then d.(leasedAt := Some(s.clock)) else d.(container := step.resident))
  {
  }

  lemma OverStaysOver(s: State, step: Step, id: nat)
    requires Enabled(s, step) && id in s.rows && id < s.nextId && IsOver(s.rows[id]) && !Marks(step, id)
    ensures id in Apply(s, step).rows
    ensures var before, after := s.rows[id], Apply(s, step).rows[id];
            IsOver(after) && after.status == before.status && after.error == before.error && after.imageTag == before.imageTag
  {
    hide IsHighest, ReplacedBy;
  }

  /** Over every run, once a build was reported ready, failed or cancelled its row says so, with the
      error reported, until the next report about it: no claim, reclaim or newer commit touches it. */
  lemma {:induction false} LastReportStands(states: seq<State>, steps: seq<Step>, i: nat, k: nat, id: nat)
    requires Run(states, steps) && Inv(states[0]) && i < k < |states|
    requires Marks(steps[i], id) && !steps[i].MarkBuilt?
    requires forall j | i < j < k :: !Marks(steps[j], id)
    ensures id in states[k].rows && Says(states[k].rows[id], steps[i]) && IsOver(states[k].rows[id])
    decreases k
  {
    hide Inv, Apply, Enabled, IsOver;
    InvHolds(states, steps, k - 1);
    hide Run;
    if k == i + 1 {
      StepTaken(states, steps, i);
      MarkedIsThere(states[i], steps[i], id);
      MarkIs(states[i], steps[i], id, id);
    } else {
      LastReportStands(states, steps, i, k - 1, id);
      StepTaken(states, steps, k - 1);
      IdsKnown(states[k - 1], id);
      OverStaysOver(states[k - 1], steps[k - 1], id);
    }
  }

  lemma MarkedIsThere(s: State, step: Step, id: nat)
    requires Enabled(s, step) && Marks(step, id)
    ensures id in s.rows
  {
  }

  lemma StepTaken(states: seq<State>, steps: seq<Step>, i: nat)
    requires Run(states, steps) && i < |steps|
    ensures Enabled(states[i], steps[i]) && states[i + 1] == Apply(states[i], steps[i])
  {
    hide Apply, Enabled;
  }

  lemma IdsKnown(s: State, id: nat)
    requires Inv(s) && id in s.rows
    ensures id < s.nextId
  {
  }

  // The queue

  /** Only time moves the clock, and only its owner moves a project's production branch. */
  lemma SurroundingsAre(s: State, step: Step, project: nat)
    requires Enabled(s, step)
    ensures var t := Apply(s, step);
            && t.clock == s.clock + (if step.Tick? then step.seconds else 0)
            && (step.SetBranch? && step.project == project ==> project in t.branches && t.branches[project] == step.ref)
            && (!step.SetBranch? || step.project != project ==>
                  (project in t.branches <==> project in s.branches)
                  && (project in s.branches ==> t.branches[project] == s.branches[project]))
  {
  }

  /** A caller that saw its project's highest number, or that there is none, can queue the next, but
      no number already taken; and any queued build that is not locked leaves one a worker can claim. */
  lemma QueueIsOpen(s: State, locked: set<nat>, project: nat, sha: string, ref: string, trigger: Trigger, n: nat, waiting: nat)
    requires IsHighest(s.rows, project, n)
    ensures Enabled(s, Create(project, sha, ref, trigger, n + 1))
    ensures waiting in s.rows && s.rows[waiting].project == project ==>
              !Enabled(s, Create(project, sha, ref, trigger, s.rows[waiting].number))
    ensures waiting in s.rows && s.rows[waiting].status == Queued && waiting !in locked ==>
              exists id :: Enabled(s, Claim(id, "", locked))
  {
    if waiting in s.rows && s.rows[waiting].status == Queued && waiting !in locked {
      var queued := set id | id in s.rows && s.rows[id].status == Queued && id !in locked;
      assert waiting in queued;
      var id := SomeFirst(s, queued);
      assert IsNextBuild(s.rows, s.branches, locked, id) && Enabled(s, Claim(id, "", locked));
    }
  }

  lemma {:induction false} SomeFirst(s: State, queued: set<nat>) returns (id: nat)
    requires queued != {} && queued <= s.rows.Keys
    ensures id in queued && forall other | other in queued :: Before(s.branches, s.rows[id], s.rows[other])
    decreases |queued|
  {
    id :| id in queued;
    if queued != {id} {
      var best := SomeFirst(s, queued - {id});
      if Before(s.branches, s.rows[best], s.rows[id]) {
        id := best;
      }
    }
  }

  /** A new build of a head is queued under a fresh id, numbered above its project's others, and its
      caller still has to cancel what it replaces; any other build is queued and that is all. */
  lemma CreateIs(s: State, step: Step, other: nat)
    requires Enabled(s, step) && step.Create? && s.nextId !in s.rows && (other in s.rows || other == s.nextId)
    ensures var t, id := Apply(s, step), s.nextId;
            && t.rows.Keys == s.rows.Keys + {id} && t.nextId == id + 1 && t.claims == s.claims
            && (other != id ==> t.rows[other] == s.rows[other])
            && (other != id && s.rows[other].project == step.project ==> s.rows[other].number < t.rows[id].number)
            && var d := t.rows[id];
               && d.project == step.project && d.gitSha == step.sha && d.gitRef == step.ref && d.trigger == step.trigger
               && d.status == Queued && d.createdAt == s.clock && RowOk(d)
               && t.outstanding == s.outstanding + (if d.trigger == Push || d.trigger == Manual then {id} else {})
  {
  }

  /** The second half of queueing a build of a head: what it replaces is cancelled and names it, no
      other row changes, and its caller is done. */
  lemma SupersedeIs(s: State, id: nat, other: nat)
    requires Enabled(s, Supersede(id)) && other in s.rows
    ensures var t, newer, d := Apply(s, Supersede(id)), s.rows[id], s.rows[other];
            && t.rows.Keys == s.rows.Keys && t.outstanding == s.outstanding - {id}
            && t.rows[other] ==
               if d.status == Queued && (d.trigger == Push || d.trigger == Manual)
                  && d.project == newer.project && d.gitRef == newer.gitRef && d.number < newer.number
               then d.(status := Cancelled, error := Some(ReplacedBy(newer))) else d
  {
    hide ReplacedBy;
  }

  /** The step takes this build off the queue: a claim, a report, or a newer build of its branch. */
  predicate TakesOff(s: State, step: Step, id: nat)
    requires id in s.rows
  {
    var d := s.rows[id];
    || (step.Claim? && step.id == id)
    || Marks(step, id)
    || (step.Supersede? && step.id in s.rows && (d.trigger == Push || d.trigger == Manual)
        && s.rows[step.id].project == d.project && s.rows[step.id].gitRef == d.gitRef && d.number < s.rows[step.id].number)
  }

  lemma TakenOffIff(s: State, step: Step, id: nat)
    requires Enabled(s, step) && id in s.rows && id < s.nextId && s.rows[id].status == Queued
    ensures id in Apply(s, step).rows
    ensures Apply(s, step).rows[id].status != Queued <==> TakesOff(s, step, id)
    ensures step.Supersede? && TakesOff(s, step, id) ==> Apply(s, step).rows[id].status == Cancelled
    ensures step.Claim? && TakesOff(s, step, id) ==> Apply(s, step).claims == s.claims + [id]
  {
    hide IsHighest, ReplacedBy, Before;
  }

  /** Over every run, a queued build stays queued until a claim, a report about it or a newer build
      of its branch takes it off: none is lost. */
  lemma {:induction false} WaitsUntilTakenOff(states: seq<State>, steps: seq<Step>, i: nat, k: nat, id: nat)
    requires Run(states, steps) && Inv(states[0]) && i <= k < |states|
    requires id in states[i].rows && states[i].rows[id].status == Queued
    requires forall j | i <= j < k :: id in states[j].rows ==> !TakesOff(states[j], steps[j], id)
    ensures id in states[k].rows && states[k].rows[id].status == Queued
    decreases k
  {
    hide Inv, Apply, Enabled, TakesOff;
    if i < k {
      WaitsUntilTakenOff(states, steps, i, k - 1, id);
      InvHolds(states, steps, k - 1);
      hide Run;
      StepTaken(states, steps, k - 1);
      IdsKnown(states[k - 1], id);
      TakenOffIff(states[k - 1], steps[k - 1], id);
    }
  }

  /** A claim makes the next row its worker's, in flight from now; a reclaim fails exactly the rows
      in flight whose lease was last renewed too long ago, and says that nothing was deployed. */
  lemma ClaimIs(s: State, step: Step, other: nat)
    requires Enabled(s, step) && step.Claim? && other in s.rows
    ensures var t, id := Apply(s, step), step.id;
            && s.rows[id].status == Queued && id !in step.locked
            && t.rows[id] == s.rows[id].(status := Building, leasedBy := Some(step.worker), leasedAt := Some(s.clock))
            && (other != id ==> t.rows[other] == s.rows[other])
  {
    hide Before;
  }

  lemma ReclaimFailsIff(s: State, olderThan: nat, id: nat)
    requires RowsOk(s) && id in s.rows
    ensures var t, d := Apply(s, Reclaim(olderThan)), s.rows[id];
            && id in t.rows
            && (t.rows[id] != d <==> (d.status == Building || d.status == Deploying) && d.leasedAt.value + olderThan < s.clock)
            && (t.rows[id] != d ==>
                  && t.rows[id].status == Failed && t.rows[id].leasedBy.None? && t.rows[id].leasedAt.None?
                  && t.rows[id].error == Some("The worker building this deployment stopped responding. Nothing was deployed; try again."))
  {
    assert RowOk(s.rows[id]);
  }
}
