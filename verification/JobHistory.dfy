/** What the row of a job's run says about it, over every run of the slot protocol. */
module JobHistory {
  import opened Wrappers
  import opened Schedule
  import opened JobRuns
  import opened SlotProtocol

  // A row's life

  /** A row is leased while it runs and only then, and says when it was over once it is. */
  predicate RowOk(run: JobRun) {
    && (run.leasedBy.Some? <==> run.status == Running) && (run.leasedAt.Some? <==> run.status == Running)
    && (run.finishedAt.Some? <==> run.status in {Succeeded, Failed, TimedOut, Skipped})
    && (run.status == Pending ==> run.startedAt.None? && run.exitCode.None? && run.output.None?)
    && (run.status == Running ==> run.startedAt == run.leasedAt && run.exitCode.None? && run.output.None?)
  }

  ghost predicate RowsOk(s: State) {
    (forall id | id in s.rows :: RowOk(s.rows[id]))
    && forall id | id in s.rows :: id < s.nextId
  }

  lemma StepKeepsRows(c: Config, s: State, step: Step)
    requires RowsOk(s) && Enabled(c, s, step)
    ensures RowsOk(Apply(c, s, step))
  {
    hide DueSlotOf, SlotOf, IsLatest;
  }

  lemma {:induction false} RowsAreOk(c: Config, clock: nat, steps: seq<Step>)
    requires Possible(c, Initial(clock), steps)
    ensures RowsOk(After(c, Initial(clock), steps))
  {
    if steps != [] {
      var n := |steps| - 1;
      RowsAreOk(c, clock, steps[..n]);
      StepKeepsRows(c, After(c, Initial(clock), steps[..n]), steps[n]);
      hide RowsOk, Apply, Enabled;
    }
  }

  /** Over every run, the row a sweep adds is for its process and its production, and a worker can
      claim it if and only if there was a production; otherwise it is over, as skipped. */
  lemma SweptRowIs(c: Config, clock: nat, steps: seq<Step>, step: Step, id: nat)
    requires Possible(c, Initial(clock), steps) && Enabled(c, After(c, Initial(clock), steps), step) && step.Sweep?
    requires var s := After(c, Initial(clock), steps); id in Apply(c, s, step).rows && id !in s.rows
    ensures var s := After(c, Initial(clock), steps);
            var run := Apply(c, s, step).rows[id];
            && run.process == step.process && run.deployment == step.production && Some(run.slot) == DueSlotOf(step.schedule, step.moment)
            && (Claimable(Apply(c, s, step).rows, {}, id) <==> step.production.Some?)
            && (step.production.None? ==> run.status == Skipped && run.finishedAt == Some(s.clock))
  {
    hide Possible, After, DueSlotOf;
  }

  // Why a run was started

  /** The step queues a run of this slot: a sweep with a production, or somebody by hand. */
  predicate Queues(step: Step, k: Key) {
    || (step.Sweep? && step.process == k.0 && step.production.Some? && DueSlotOf(step.schedule, step.moment) == Some(k.1))
    || (step.RunNow? && step.process == k.0 && SlotOf(step.moment) == k.1)
  }

  ghost predicate WasQueued(steps: seq<Step>, k: Key) {
    exists i | 0 <= i < |steps| :: Queues(steps[i], k)
  }

  lemma StepQueues(c: Config, s: State, step: Step, id: nat)
    requires Enabled(c, s, step) && id in Apply(c, s, step).rows && Apply(c, s, step).rows[id].status == Pending
    ensures (id in s.rows && s.rows[id].status == Pending && KeyOf(s.rows[id]) == KeyOf(Apply(c, s, step).rows[id]))
            || Queues(step, KeyOf(Apply(c, s, step).rows[id]))
  {
    hide DueSlotOf, SlotOf, IsLatest;
  }

  lemma QueuedEarlier(steps: seq<Step>, k: Key)
    requires steps != [] && WasQueued(steps[..|steps| - 1], k)
    ensures WasQueued(steps, k)
  {
    hide Queues;
    var i :| 0 <= i < |steps| - 1 && Queues(steps[..|steps| - 1][i], k);
    assert steps[..|steps| - 1][i] == steps[i];
  }

  lemma {:induction false} PendingWasQueued(c: Config, clock: nat, steps: seq<Step>, id: nat)
    requires Possible(c, Initial(clock), steps)
    requires var s := After(c, Initial(clock), steps); id in s.rows && s.rows[id].status == Pending
    ensures WasQueued(steps, KeyOf(After(c, Initial(clock), steps).rows[id]))
  {
    if steps != [] {
      var n := |steps| - 1;
      var before, after := After(c, Initial(clock), steps[..n]), After(c, Initial(clock), steps);
      StepQueues(c, before, steps[n], id);
      hide Queues, Apply, Enabled, KeyOf;
      if !Queues(steps[n], KeyOf(after.rows[id])) {
        PendingWasQueued(c, clock, steps[..n], id);
        QueuedEarlier(steps, KeyOf(after.rows[id]));
      }
    }
  }

  /** Over every run, a slot is started only if a sweep queued it while its project served a
      deployment, or somebody ran it by hand. */
  lemma {:induction false} StartedWasQueued(c: Config, clock: nat, steps: seq<Step>, k: Key)
    requires Possible(c, Initial(clock), steps) && k in After(c, Initial(clock), steps).starts
    ensures WasQueued(steps, k)
  {
    if steps != [] {
      var n := |steps| - 1;
      var before := After(c, Initial(clock), steps[..n]);
      StartsGrow(c, before, steps[n], k);
      hide Apply;
      if k in before.starts {
        StartedWasQueued(c, clock, steps[..n], k);
      } else {
        PendingWasQueued(c, clock, steps[..n], steps[n].id);
      }
      QueuedEarlier(steps, k);
    }
  }

  lemma StartsGrow(c: Config, s: State, step: Step, k: Key)
    requires Enabled(c, s, step) && k in Apply(c, s, step).starts
    ensures k in s.starts || (step.Start? && step.id in s.rows && s.rows[step.id].status == Pending && KeyOf(s.rows[step.id]) == k)
  {
    hide DueSlotOf, SlotOf, IsLatest;
  }

  /** A row is lost only with its process, or by the hourly deletion once it is over, out of date and
      not the last of its process; nothing else takes one. */
  lemma LostIff(c: Config, s: State, step: Step, id: nat)
    requires Enabled(c, s, step) && id in s.rows && id < s.nextId
    ensures var run := s.rows[id];
            id !in Apply(c, s, step).rows <==>
            || step == RemoveProcess(run.process)
            || (step.DeleteOld? && run.slot * 60 + c.days * 86400 < s.clock && run.status in {Succeeded, Failed, TimedOut, Skipped}
                && exists later :: later in s.rows && s.rows[later].process == run.process && run.slot < s.rows[later].slot)
  {
    DeletedIff(s.rows, id, c.days, s.clock);
    hide DueSlotOf, SlotOf, IsNext, Retained, Taken, Finished, Claimed, Terminal;
  }

  // What became of it

  /** The row records this outcome. */
  predicate Records(run: JobRun, status: RunStatus, exitCode: Option<int>, detail: Option<string>, output: Option<string>, at: nat) {
    run.status == status && run.exitCode == exitCode && run.detail == detail && run.output == output && run.finishedAt == Some(at)
  }

  /** Over every run, a claim takes a pending row with no earlier slot pending unlocked, and makes it
      that worker's, running from now. */
  lemma ClaimIs(c: Config, clock: nat, steps: seq<Step>, step: Step)
    requires Possible(c, Initial(clock), steps) && Enabled(c, After(c, Initial(clock), steps), step) && step.Start?
    ensures var s := After(c, Initial(clock), steps);
            var t, id := Apply(c, s, step), step.id;
            && id in s.rows && s.rows[id].status == Pending && id !in step.locked
            && (forall other | other in s.rows && s.rows[other].status == Pending && other !in step.locked ::
                  s.rows[id].slot <= s.rows[other].slot)
            && id in t.rows && t.rows[id].status == Running && t.rows[id].leasedBy == Some(step.worker)
            && t.rows[id].startedAt == t.rows[id].leasedAt == Some(s.clock)
            && KeyOf(t.rows[id]) == KeyOf(s.rows[id]) && t.rows[id].deployment == s.rows[id].deployment
  {
    hide Possible, After;
  }

  /** Over every run, a reclaim fails exactly the runs still running that were started too long ago,
      and leaves every other row as it is. */
  lemma ReclaimFailsIff(c: Config, clock: nat, steps: seq<Step>, olderThan: nat, id: nat)
    requires Possible(c, Initial(clock), steps) && id in After(c, Initial(clock), steps).rows
    ensures var s := After(c, Initial(clock), steps);
            var t, run := Apply(c, s, Reclaim(olderThan)), s.rows[id];
            && id in t.rows
            && (t.rows[id] != run <==> run.status == Running && run.startedAt.Some? && run.startedAt.value + olderThan < s.clock)
            && (t.rows[id] != run ==>
                  Records(t.rows[id], Failed, None, Some("The worker running this job stopped responding."), None, s.clock))
  {
    RowsAreOk(c, clock, steps);
    assert RowOk(After(c, Initial(clock), steps).rows[id]);
    hide Possible, After;
  }

  lemma OverStaysOver(c: Config, s: State, step: Step, id: nat)
    requires Enabled(c, s, step) && id in s.rows && Terminal(s.rows[id].status) && id < s.nextId
    requires !(step.Finish? && step.id == id) && id in Apply(c, s, step).rows
    ensures Apply(c, s, step).rows[id] == s.rows[id]
  {
    hide DueSlotOf, SlotOf, IsLatest;
  }

  lemma IdsAreFresh(c: Config, s: State, step: Step, id: nat)
    requires Enabled(c, s, step) && id < s.nextId
    ensures id < Apply(c, s, step).nextId && (id in Apply(c, s, step).rows ==> id in s.rows)
  {
    hide DueSlotOf, SlotOf, IsLatest;
  }

  /** A row that was there before some steps and is there after them was there all along. */
  lemma {:induction false} StillThere(c: Config, clock: nat, first: seq<Step>, rest: seq<Step>, id: nat)
    requires Possible(c, Initial(clock), first + rest) && Possible(c, Initial(clock), first)
    requires id in After(c, Initial(clock), first).rows
    ensures id < After(c, Initial(clock), first + rest).nextId
    ensures rest != [] && id in After(c, Initial(clock), first + rest).rows ==>
              id in After(c, Initial(clock), first + rest[..|rest| - 1]).rows
    decreases |rest|
  {
    hide Apply, Enabled;
    if rest == [] {
      assert first + rest == first;
      RowsAreOk(c, clock, first);
    } else {
      var n := |rest| - 1;
      assert (first + rest)[..|first| + n] == first + rest[..n];
      StillThere(c, clock, first, rest[..n], id);
      IdsAreFresh(c, After(c, Initial(clock), first + rest[..n]), rest[n], id);
    }
  }

  lemma {:induction false} PrefixPossible(c: Config, clock: nat, first: seq<Step>, rest: seq<Step>)
    requires Possible(c, Initial(clock), first + rest)
    ensures Possible(c, Initial(clock), first)
    decreases |rest|
  {
    hide Enabled, After;
    if rest == [] {
      assert first + rest == first;
    } else {
      assert (first + rest)[..|first + rest| - 1] == first + rest[..|rest| - 1];
      PrefixPossible(c, clock, first, rest[..|rest| - 1]);
    }
  }

  lemma ReportIsRecorded(c: Config, clock: nat, before: seq<Step>, report: Step)
    requires report.Finish? && Possible(c, Initial(clock), before + [report]) && report.id in After(c, Initial(clock), before).rows
    ensures var t := After(c, Initial(clock), before + [report]);
            && report.id in t.rows && Terminal(report.status)
            && Records(t.rows[report.id], report.status, report.exitCode, report.detail, report.output, After(c, Initial(clock), before).clock)
  {
    assert (before + [report])[..|before|] == before;
  }

  /** Over every run, a row still there says what the last report of its run said, and when that
      came, whatever was swept, claimed, reclaimed or deleted since. */
  lemma {:induction false} LastReportStands(c: Config, clock: nat, before: seq<Step>, after: seq<Step>, report: Step)
    requires report.Finish? && Possible(c, Initial(clock), before + [report] + after)
    requires report.id in After(c, Initial(clock), before).rows
    requires report.id in After(c, Initial(clock), before + [report] + after).rows
    requires forall i | 0 <= i < |after| :: !(after[i].Finish? && after[i].id == report.id)
    ensures Records(After(c, Initial(clock), before + [report] + after).rows[report.id],
                    report.status, report.exitCode, report.detail, report.output, After(c, Initial(clock), before).clock)
    decreases |after|
  {
    hide Apply, Enabled;
    var first := before + [report];
    PrefixPossible(c, clock, first, after);
    ReportIsRecorded(c, clock, before, report);
    if after == [] {
      assert first + after == first;
    } else {
      var n := |after| - 1;
      assert (first + after)[..|first| + n] == first + after[..n];
      StillThere(c, clock, first, after, report.id);
      LastReportStands(c, clock, before, after[..n], report);
      StillThere(c, clock, first, after[..n], report.id);
      OverStaysOver(c, After(c, Initial(clock), first + after[..n]), after[n], report.id);
    }
  }
}
