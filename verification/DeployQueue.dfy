/** The build queue over every interleaving of callers that queue deploys and workers that
    claim, build, crash and are reclaimed. */
module DeployQueue {
  import opened Sets
  import opened Wrappers
  import opened Deployments

  datatype State = State(
    rows: Rows,
    nextId: nat,
    clock: nat,
    branches: map<nat, string>,   // each project's production branch
    outstanding: set<nat>,        // head builds created, their supersede step not yet taken
    claims: seq<nat>)             // every build a worker ever started

  /** A caller that dies between its two steps leaves its supersede step outstanding for ever;
      a worker that dies takes no further step. */
  datatype Step =
    | Tick(seconds: nat)
    | SetBranch(project: nat, ref: string)
    | Create(project: nat, sha: string, ref: string, trigger: Trigger, number: nat)
    | Supersede(id: nat)
    | Claim(id: nat, worker: string, locked: set<nat>)
    | Reclaim(olderThan: nat)
    | Heartbeat(id: nat)
    | MarkBuilt(id: nat, imageTag: string)
    | MarkReady(id: nat, container: nat)
    | MarkFailed(id: nat, error: string)
    | MarkCancelled(id: nat)
    | SetContainer(id: nat, resident: Option<nat>)

  predicate Enabled(s: State, step: Step) {
    match step
    case Create(project, _, _, _, number) => 1 <= number && IsHighest(s.rows, project, number - 1)
    case Supersede(id) => id in s.outstanding && id in s.rows
    case Claim(id, _, locked) => IsNextBuild(s.rows, s.branches, locked, id)
    case Heartbeat(id) => id in s.rows
    case MarkBuilt(id, _) => id in s.rows && s.rows[id].leasedBy.Some?
    case MarkReady(id, _) => id in s.rows
    case MarkFailed(id, _) => id in s.rows
    case MarkCancelled(id) => id in s.rows
    case SetContainer(id, _) => id in s.rows
    case _ => true
  }

  function Apply(s: State, step: Step): State
    requires Enabled(s, step)
  {
    match step
    case Tick(seconds) => s.(clock := s.clock + seconds)
    case SetBranch(project, ref) => s.(branches := s.branches[project := ref])
    case Create(project, sha, ref, trigger, number) =>
      var d := NewBuild(project, number, sha, ref, trigger, s.clock);
      s.(rows := s.rows[s.nextId := d], nextId := s.nextId + 1,
         outstanding := if IsHead(d) then s.outstanding + {s.nextId} else s.outstanding)
    case Supersede(id) => s.(rows := Superseded(s.rows, s.rows[id]), outstanding := s.outstanding - {id})
    case Claim(id, worker, _) =>
      s.(rows := s.rows[id := Claimed(s.rows[id], worker, s.clock)], claims := s.claims + [id])
    case Reclaim(olderThan) => s.(rows := Reclaimed(s.rows, olderThan, s.clock))
    case Heartbeat(id) => s.(rows := s.rows[id := s.rows[id].(leasedAt := Some(s.clock))])
    case MarkBuilt(id, imageTag) => s.(rows := s.rows[id := Built(s.rows[id], imageTag)])
    case MarkReady(id, container) => s.(rows := s.rows[id := MadeReady(s.rows[id], container)])
    case MarkFailed(id, error) => s.(rows := s.rows[id := MadeFailed(s.rows[id], error)])
    case MarkCancelled(id) => s.(rows := s.rows[id := MadeCancelled(s.rows[id])])
    case SetContainer(id, resident) => s.(rows := s.rows[id := s.rows[id].(container := resident)])
  }

  function Initial(branches: map<nat, string>): State {
    State(map[], 0, 0, branches, {}, [])
  }

  /** Each state follows from the one before by the step beside it. */
  ghost predicate Run(states: seq<State>, steps: seq<Step>) {
    && |states| == |steps| + 1
    && forall i | 0 <= i < |steps| :: Enabled(states[i], steps[i]) && states[i + 1] == Apply(states[i], steps[i])
  }

  // Superseding

  /** A queued head build is outranked only by builds whose supersede step is outstanding. */
  ghost predicate OutrankedByOutstanding(s: State) {
    forall a, b | a in s.rows && b in s.rows && s.rows[a].status == Queued
                  && IsHead(s.rows[a]) && IsHead(s.rows[b]) && SameBranch(s.rows[a], s.rows[b])
                  && s.rows[a].number < s.rows[b].number :: b in s.outstanding
  }

  ghost predicate Ids(s: State) {
    forall id | id in s.rows :: id < s.nextId
  }

  ghost predicate Claims(s: State) {
    && (forall i | 0 <= i < |s.claims| :: s.claims[i] in s.rows && s.rows[s.claims[i]].status != Queued)
    && (forall i, j | 0 <= i < j < |s.claims| :: s.claims[i] != s.claims[j])
  }

  ghost predicate Inv(s: State) {
    Ids(s) && OutrankedByOutstanding(s) && Claims(s) && UniqueNumbers(s.rows)
  }

  /** A row keeps what identifies it. */
  predicate SameBuild(a: Deployment, b: Deployment) {
    a.project == b.project && a.number == b.number && a.trigger == b.trigger
    && a.gitRef == b.gitRef && a.gitSha == b.gitSha && a.createdAt == b.createdAt
  }

  /** Rows are never dropped, keep what identifies them, and never go back into the queue. */
  ghost predicate Aged(before: Rows, after: Rows) {
    && before.Keys <= after.Keys
    && forall id | id in before :: SameBuild(before[id], after[id]) && (after[id].status == Queued ==> before[id].status == Queued)
  }

  /** No transition re-enters the queue. */
  lemma StepAges(s: State, step: Step)
    requires Enabled(s, step) && Ids(s)
    ensures Aged(s.rows, Apply(s, step).rows)
    ensures !step.Create? ==> Apply(s, step).rows.Keys == s.rows.Keys
  {
  }

  lemma AgedKeepsNumbers(before: Rows, after: Rows)
    requires UniqueNumbers(before) && Aged(before, after) && after.Keys == before.Keys
    ensures UniqueNumbers(after)
  {
    forall a, b | a in after && b in after && after[a].project == after[b].project && after[a].number == after[b].number
      ensures a == b
    {
      assert SameBuild(before[a], after[a]) && SameBuild(before[b], after[b]);
    }
  }

  lemma AgedKeepsOutranked(s: State, s': State)
    requires Inv(s) && Aged(s.rows, s'.rows) && s'.rows.Keys == s.rows.Keys && s'.outstanding == s.outstanding
    ensures OutrankedByOutstanding(s')
  {
    forall a, b | a in s'.rows && b in s'.rows && s'.rows[a].status == Queued
                  && IsHead(s'.rows[a]) && IsHead(s'.rows[b]) && SameBranch(s'.rows[a], s'.rows[b])
                  && s'.rows[a].number < s'.rows[b].number
      ensures b in s'.outstanding
    {
      assert SameBuild(s.rows[a], s'.rows[a]) && SameBuild(s.rows[b], s'.rows[b]);
    }
  }

  lemma AgedKeepsInv(s: State, s': State)
    requires Inv(s) && Aged(s.rows, s'.rows) && s'.rows.Keys == s.rows.Keys
    requires s'.nextId == s.nextId && s'.outstanding == s.outstanding && s'.claims == s.claims
    ensures Inv(s')
  {
    AgedKeepsNumbers(s.rows, s'.rows);
    AgedKeepsOutranked(s, s');
  }

  lemma SupersedeKeepsInv(s: State, id: nat)
    requires Inv(s) && Enabled(s, Supersede(id))
    ensures Inv(Apply(s, Supersede(id)))
  {
    var s' := Apply(s, Supersede(id));
    AgedKeepsNumbers(s.rows, s'.rows);
    forall a, b | a in s'.rows && b in s'.rows && s'.rows[a].status == Queued
                  && IsHead(s'.rows[a]) && IsHead(s'.rows[b]) && SameBranch(s'.rows[a], s'.rows[b])
                  && s'.rows[a].number < s'.rows[b].number
      ensures b in s'.outstanding
    {
      assert s.rows[a].status == Queued && b in s.outstanding;
      assert !IsReplaced(s.rows[a], s.rows[id]);
    }
  }

  lemma ClaimKeepsInv(s: State, id: nat, worker: string, locked: set<nat>)
    requires Inv(s) && Enabled(s, Claim(id, worker, locked))
    ensures Inv(Apply(s, Claim(id, worker, locked)))
  {
    var s' := Apply(s, Claim(id, worker, locked));
    AgedKeepsNumbers(s.rows, s'.rows);
    AgedKeepsOutranked(s, s');
  }

  lemma CreateKeepsInv(s: State, step: Step)
    requires Inv(s) && step.Create? && Enabled(s, step)
    ensures Inv(Apply(s, step))
  {
  }

  lemma StepKeepsInv(s: State, step: Step)
    requires Inv(s) && Enabled(s, step)
    ensures Inv(Apply(s, step))
  {
    match step
    case Create(_, _, _, _, _) => CreateKeepsInv(s, step);
    case Supersede(id) => SupersedeKeepsInv(s, id);
    case Claim(id, worker, locked) => ClaimKeepsInv(s, id, worker, locked);
    case _ =>
      StepAges(s, step);
      AgedKeepsInv(s, Apply(s, step));
  }

  lemma {:induction false} InvHolds(states: seq<State>, steps: seq<Step>, k: nat)
    requires Run(states, steps) && k < |states| && Inv(states[0])
    ensures Inv(states[k])
    decreases k
  {
    if 0 < k {
      InvHolds(states, steps, k - 1);
      StepKeepsInv(states[k - 1], steps[k - 1]);
    }
  }

  /** Over every run: two queued head builds of one branch coexist only while the newer one's
      supersede step is outstanding; and once no step is outstanding for the branch, a queued
      head build is the highest-numbered one ever created for it. */
  lemma QueuedHeadIsNewest(branches: map<nat, string>, states: seq<State>, steps: seq<Step>, k: nat, a: nat, b: nat)
    requires Run(states, steps) && states[0] == Initial(branches) && k < |states|
    requires var s := states[k];
             && a in s.rows && b in s.rows && s.rows[a].status == Queued
             && IsHead(s.rows[a]) && IsHead(s.rows[b]) && SameBranch(s.rows[a], s.rows[b])
    ensures states[k].rows[a].number < states[k].rows[b].number ==> b in states[k].outstanding
    ensures b !in states[k].outstanding ==> states[k].rows[b].number <= states[k].rows[a].number
  {
    InvHolds(states, steps, k);
  }

  /** Over every run, crashes and reclaims included, a build is started by at most one worker. */
  lemma StartedOnce(branches: map<nat, string>, states: seq<State>, steps: seq<Step>, k: nat, i: nat, j: nat)
    requires Run(states, steps) && states[0] == Initial(branches) && k < |states|
    requires i < j < |states[k].claims|
    ensures states[k].claims[i] != states[k].claims[j]
    ensures states[k].claims[i] in states[k].rows && states[k].rows[states[k].claims[i]].status != Queued
  {
    InvHolds(states, steps, k);
  }

  // Bounded bypass

  /** A build of its project's production branch. */
  predicate IsMain(s: State, id: nat)
    requires id in s.rows
  {
    s.rows[id].project in s.branches && s.rows[id].gitRef == s.branches[s.rows[id].project]
  }

  /** The queued builds of the same kind, production or preview, that were there before d, or at
      the same instant. */
  function Older(s: State, d: nat): set<nat>
    requires d in s.rows
  {
    set id | id in s.rows && id != d && s.rows[id].status == Queued
             && IsMain(s, id) == IsMain(s, d) && s.rows[id].createdAt <= s.rows[d].createdAt
  }

  /** Production branches stay fixed, whatever is created is stamped later than `stamp`, and no
      claim of another build finds d locked. */
  predicate Orderly(s: State, step: Step, d: nat, stamp: nat) {
    match step
    case SetBranch(_, _) => false
    case Create(_, _, _, _, _) => stamp < s.clock
    case Claim(id, _, locked) => id == d || d !in locked
    case _ => true
  }

  ghost predicate OrderlyRun(states: seq<State>, steps: seq<Step>, d: nat, stamp: nat) {
    Run(states, steps) && forall i | 0 <= i < |steps| :: Orderly(states[i], steps[i], d, stamp)
  }

  lemma StepShrinksOlder(s: State, step: Step, d: nat)
    requires Inv(s) && Enabled(s, step) && d in s.rows && Orderly(s, step, d, s.rows[d].createdAt)
    ensures d in Apply(s, step).rows && SameBuild(s.rows[d], Apply(s, step).rows[d])
    ensures Apply(s, step).branches == s.branches
    ensures Older(Apply(s, step), d) <= Older(s, d)
  {
    StepAges(s, step);
    var s' := Apply(s, step);
    forall id | id in Older(s', d) ensures id in Older(s, d) {
      if id in s.rows {
        assert SameBuild(s.rows[id], s'.rows[id]);
      }
    }
  }

  /** While a build waits, a claim takes one of its kind queued before it, or, if it is a preview,
      a production build. */
  lemma ClaimTakesOlder(s: State, id: nat, worker: string, locked: set<nat>, d: nat)
    requires Enabled(s, Claim(id, worker, locked)) && id != d && d !in locked
    requires d in s.rows && s.rows[d].status == Queued
    ensures id in Older(s, d) || (IsMain(s, id) && !IsMain(s, d))
  {
    NextIsFirst(s.rows, s.branches, locked, id, d);
  }

  /** The claim was of a production build while a preview waited, or of one of the builds that
      were older then. */
  predicate ClaimedAhead(first: State, now: State, d: nat, claimed: nat)
    requires d in first.rows
  {
    claimed in Older(first, d) || (claimed in now.rows && IsMain(now, claimed) && !IsMain(first, d))
  }

  lemma StillAhead(first: State, s: State, step: Step, d: nat, claimed: nat)
    requires Inv(s) && Enabled(s, step) && d in first.rows && ClaimedAhead(first, s, d, claimed) && !step.SetBranch?
    ensures ClaimedAhead(first, Apply(s, step), d, claimed)
  {
    StepAges(s, step);
    if claimed in s.rows {
      assert SameBuild(s.rows[claimed], Apply(s, step).rows[claimed]);
    }
    hide Inv, Older;
  }

  lemma ClaimsGrow(s: State, step: Step)
    requires Enabled(s, step)
    ensures Apply(s, step).claims == s.claims + if step.Claim? then [step.id] else []
  {
  }

  /** What a build still waiting at the end of a run has seen claimed. */
  lemma {:induction false} WaitingSawOlder(states: seq<State>, steps: seq<Step>, d: nat, k: nat)
    requires k < |states| && Inv(states[0]) && d in states[0].rows
    requires OrderlyRun(states, steps, d, states[0].rows[d].createdAt)
    requires d in states[k].rows && states[k].rows[d].status == Queued
    ensures states[k].branches == states[0].branches && SameBuild(states[0].rows[d], states[k].rows[d])
    ensures Older(states[k], d) <= Older(states[0], d)
    ensures |states[0].claims| <= |states[k].claims|
    ensures forall i | |states[0].claims| <= i < |states[k].claims| :: ClaimedAhead(states[0], states[k], d, states[k].claims[i])
    decreases k
  {
    if 0 < k {
      var s, step := states[k - 1], steps[k - 1];
      InvHolds(states, steps, k - 1);
      StepAges(s, step);
      RowsGrow(states, steps, k - 1);
      WaitingSawOlder(states, steps, d, k - 1);
      StepShrinksOlder(s, step, d);
      ClaimsGrow(s, step);
      WaitingSawStep(states[0], s, step, d);
    }
  }

  lemma WaitingSawStep(first: State, s: State, step: Step, d: nat)
    requires Inv(s) && Enabled(s, step) && d in first.rows && d in s.rows && Orderly(s, step, d, first.rows[d].createdAt)
    requires s.branches == first.branches && SameBuild(first.rows[d], s.rows[d]) && Older(s, d) <= Older(first, d)
    requires d in Apply(s, step).rows && Apply(s, step).rows[d].status == Queued
    requires forall i | |first.claims| <= i < |s.claims| :: ClaimedAhead(first, s, d, s.claims[i])
    ensures forall i | |first.claims| <= i < |Apply(s, step).claims| ::
              ClaimedAhead(first, Apply(s, step), d, Apply(s, step).claims[i])
  {
    ClaimsGrow(s, step);
    StepAges(s, step);
    forall i | |first.claims| <= i < |Apply(s, step).claims| ensures ClaimedAhead(first, Apply(s, step), d, Apply(s, step).claims[i]) {
      if |s.claims| <= i {
        ClaimTakesOlder(s, step.id, step.worker, step.locked, d);
        assert ClaimedAhead(first, s, d, step.id);
      }
      StillAhead(first, s, step, d, Apply(s, step).claims[i]);
    }
  }

  lemma {:induction false} RowsGrow(states: seq<State>, steps: seq<Step>, k: nat)
    requires Run(states, steps) && k < |states| && Inv(states[0])
    ensures states[0].rows.Keys <= states[k].rows.Keys
    decreases k
  {
    if 0 < k {
      RowsGrow(states, steps, k - 1);
      InvHolds(states, steps, k - 1);
      StepAges(states[k - 1], steps[k - 1]);
    }
  }

  lemma {:induction false} DistinctWithin(ids: seq<nat>, pool: set<nat>)
    requires forall i | 0 <= i < |ids| :: ids[i] in pool
    requires forall i, j | 0 <= i < j < |ids| :: ids[i] != ids[j]
    ensures |ids| <= |pool|
  {
    if ids != [] {
      DistinctWithin(ids[1..], pool - {ids[0]});
    }
  }

  /** A queued production build is overtaken by no preview, and waits for no more claims than
      there were older queued production builds. */
  lemma BoundedBypass(states: seq<State>, steps: seq<Step>, d: nat)
    requires Run(states, steps) && Inv(states[0]) && d in states[0].rows
    requires OrderlyRun(states, steps, d, states[0].rows[d].createdAt)
    requires IsMain(states[0], d)
    requires var last := states[|steps|]; d in last.rows && last.rows[d].status == Queued
    ensures var first, last := states[0], states[|steps|];
            && |last.claims| - |first.claims| <= |Older(first, d)|
            && forall i | |first.claims| <= i < |last.claims| ::
                 last.claims[i] in first.rows && IsMain(first, last.claims[i])
                 && first.rows[last.claims[i]].createdAt <= first.rows[d].createdAt
  {
    var first, last := states[0], states[|steps|];
    WaitingSawOlder(states, steps, d, |steps|);
    InvHolds(states, steps, |steps|);
    var taken := last.claims[|first.claims|..];
    DistinctWithin(taken, Older(first, d));
  }

  /** The previews claimed since a state. */
  function PreviewsClaimed(first: State, last: State): set<nat> {
    set i | |first.claims| <= i < |last.claims| && last.claims[i] in last.rows && !IsMain(last, last.claims[i]) :: last.claims[i]
  }

  /** A queued preview is overtaken only by production builds and by previews queued before it, each
      of these once: however many newer previews are pushed, none of them is built first. */
  lemma PreviewBypass(states: seq<State>, steps: seq<Step>, d: nat)
    requires Run(states, steps) && Inv(states[0]) && d in states[0].rows
    requires OrderlyRun(states, steps, d, states[0].rows[d].createdAt)
    requires !IsMain(states[0], d)
    requires var last := states[|steps|]; d in last.rows && last.rows[d].status == Queued
    ensures var first, last := states[0], states[|steps|];
            && (forall i | |first.claims| <= i < |last.claims| ::
                  && last.claims[i] in last.rows
                  && (IsMain(last, last.claims[i])
                      || (last.claims[i] in first.rows && first.rows[last.claims[i]].createdAt <= first.rows[d].createdAt)))
            && PreviewsClaimed(first, last) <= Older(first, d)
            && |PreviewsClaimed(first, last)| <= |Older(first, d)|
  {
    var first, last := states[0], states[|steps|];
    WaitingSawOlder(states, steps, d, |steps|);
    InvHolds(states, steps, |steps|);
    forall i | |first.claims| <= i < |last.claims| ensures ClaimedAhead(first, last, d, last.claims[i]) {
    }
    SubsetSize(PreviewsClaimed(first, last), Older(first, d));
  }
}
