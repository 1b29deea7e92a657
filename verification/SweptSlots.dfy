/** Which slots a run of the protocol enqueues: those its sweeps find due, and those run by hand. */
module SweptSlots {
  import opened Wrappers
  import opened Schedule
  import opened JobRuns
  import opened SlotProtocol

  // What a run enqueues

  /** The moments at which a process was swept. */
  function SweepsOf(steps: seq<Step>, p: nat): seq<nat> {
    if steps == [] then []
    else
      var last := steps[|steps| - 1];
      SweepsOf(steps[..|steps| - 1], p) + if last.Sweep? && last.process == p then [last.moment] else []
  }

  /** The moments at which it was run by hand. */
  function ManualRunsOf(steps: seq<Step>, p: nat): seq<nat> {
    if steps == [] then []
    else
      var last := steps[|steps| - 1];
      ManualRunsOf(steps[..|steps| - 1], p) + if last.RunNow? && last.process == p then [last.moment] else []
  }

  /** Every sweep of the process is by this schedule. */
  ghost predicate HasSchedule(steps: seq<Step>, p: nat, s: CronSchedule) {
    forall i | 0 <= i < |steps| && steps[i].Sweep? && steps[i].process == p :: steps[i].schedule == s
  }

  /** Some sweep finds this slot due. */
  ghost predicate Swept(s: CronSchedule, moments: seq<nat>, slot: nat) {
    exists i | 0 <= i < |moments| :: DueSlotOf(s, moments[i]) == Some(slot)
  }

  /** Some moment is in this minute. */
  ghost predicate InMinute(moments: seq<nat>, minute: nat) {
    exists i | 0 <= i < |moments| :: SlotOf(moments[i]) == minute
  }

  /** Every row is one that was enqueued. */
  ghost predicate RowsKnown(s: State) {
    forall id | id in s.rows :: KeyOf(s.rows[id]) in s.enqueued
  }

  /** The step finds this slot of the process due, or runs it by hand. */
  predicate Asks(step: Step, k: Key) {
    || (step.Sweep? && step.process == k.0 && DueSlotOf(step.schedule, step.moment) == Some(k.1))
    || (step.RunNow? && step.process == k.0 && SlotOf(step.moment) == k.1)
  }

  lemma InsertEnqueues(s: State, process: nat, slot: nat, production: Option<nat>, status: RunStatus, detail: Option<string>, k: Key)
    requires RowsKnown(s)
    ensures RowsKnown(Insert(s, process, slot, production, status, detail))
    ensures k in Insert(s, process, slot, production, status, detail).enqueued <==> k in s.enqueued || k == (process, slot)
  {
    if Taken(s.rows, process, slot) {
      var id :| id in s.rows && s.rows[id].process == process && s.rows[id].slot == slot;
      assert KeyOf(s.rows[id]) == (process, slot);
    }
  }

  lemma OthersEnqueueNothing(c: Config, s: State, step: Step)
    requires RowsKnown(s) && !step.Sweep? && !step.RunNow?
    ensures RowsKnown(Apply(c, s, step)) && Apply(c, s, step).enqueued == s.enqueued
  {
    hide IsLatest, Abandoned;
  }

  /** In the protocol a sweep enqueues its due slot unless it already was, a manual run its own
      minute, and no other step enqueues anything. */
  lemma StepEnqueues(c: Config, s: State, step: Step, k: Key)
    requires RowsKnown(s)
    ensures RowsKnown(Apply(c, s, step))
    ensures k in Apply(c, s, step).enqueued <==> k in s.enqueued || Asks(step, k)
  {
    if step.Sweep? {
      var due := DueSlotOf(step.schedule, step.moment);
      if due.Some? {
        InsertEnqueues(s, step.process, due.value, step.production, Pending, None, k);
        InsertEnqueues(s, step.process, due.value, step.production, Skipped, Some(NOT_SERVING), k);
      }
    } else if step.RunNow? {
      InsertEnqueues(s, step.process, SlotOf(step.moment), step.production, Pending, None, k);
    } else {
      OthersEnqueueNothing(c, s, step);
    }
    hide RowsKnown, Insert, DueSlotOf, SlotOf, Reclaimed, Retained;
  }

  /** Over every run, whatever is claimed, finished, reclaimed, deleted or swept for other
      processes in between, and whatever the retention: the slots of a process ever enqueued are
      exactly those its sweeps found due and those it was run for by hand. */
  lemma {:induction false} EnqueuedIff(c: Config, clock: nat, steps: seq<Step>, p: nat, s: CronSchedule, slot: nat)
    requires Possible(c, Initial(clock), steps) && HasSchedule(steps, p, s)
    ensures RowsKnown(After(c, Initial(clock), steps))
    ensures (p, slot) in After(c, Initial(clock), steps).enqueued <==>
            Swept(s, SweepsOf(steps, p), slot) || InMinute(ManualRunsOf(steps, p), slot)
  {
    if steps != [] {
      var n := |steps| - 1;
      EnqueuedIff(c, clock, steps[..n], p, s, slot);
      StepEnqueues(c, After(c, Initial(clock), steps[..n]), steps[n], (p, slot));
      OneMoment(s, SweepsOf(steps[..n], p), ManualRunsOf(steps[..n], p), steps[n], p, slot);
      hide RowsKnown, Apply, Swept, InMinute, Asks;
    }
  }

  lemma OneMoment(s: CronSchedule, sweeps: seq<nat>, runs: seq<nat>, step: Step, p: nat, slot: nat)
    requires step.Sweep? && step.process == p ==> step.schedule == s
    ensures var swept := sweeps + if step.Sweep? && step.process == p then [step.moment] else [];
            var ran := runs + if step.RunNow? && step.process == p then [step.moment] else [];
            Swept(s, swept, slot) || InMinute(ran, slot) <==>
            Swept(s, sweeps, slot) || InMinute(runs, slot) || Asks(step, (p, slot))
  {
    hide DueSlotOf, SlotOf;
    if step.Sweep? && step.process == p {
      SweptOneMore(s, sweeps, step.moment, slot);
      assert runs + [] == runs;
    } else if step.RunNow? && step.process == p {
      InMinuteOneMore(runs, step.moment, slot);
      assert sweeps + [] == sweeps;
    } else {
      assert runs + [] == runs && sweeps + [] == sweeps;
    }
  }

  lemma SweptOneMore(s: CronSchedule, moments: seq<nat>, moment: nat, slot: nat)
    ensures Swept(s, moments + [moment], slot) <==> Swept(s, moments, slot) || DueSlotOf(s, moment) == Some(slot)
  {
    hide DueSlotOf;
    var all := moments + [moment];
    assert all[|moments|] == moment;
    if i :| 0 <= i < |moments| && DueSlotOf(s, moments[i]) == Some(slot) {
      assert all[i] == moments[i];
    }
  }

  lemma InMinuteOneMore(moments: seq<nat>, moment: nat, minute: nat)
    ensures InMinute(moments + [moment], minute) <==> InMinute(moments, minute) || SlotOf(moment) == minute
  {
    hide SlotOf;
    var all := moments + [moment];
    assert all[|moments|] == moment;
    if i :| 0 <= i < |moments| && SlotOf(moments[i]) == minute {
      assert all[i] == moments[i];
    }
  }

  // Sweeps without a gap, and sweeps after a pause

  /** The sweeps are in these minutes, none of which is left out. They need not come in order. */
  ghost predicate EveryMinute(moments: seq<nat>, first: nat, last: nat) {
    && first <= last
    && (forall i | 0 <= i < |moments| :: first <= SlotOf(moments[i]) <= last)
    && (forall minute | first <= minute <= last :: InMinute(moments, minute))
  }

  lemma NamedNowIsDue(s: CronSchedule, moment: nat)
    requires s.Matches(SlotOf(moment))
    ensures DueSlotOf(s, moment) == Some(SlotOf(moment))
  {
    DueSlotIsLatest(s, moment);
  }

  /** A slot still due later, though not after the earlier sweep, was due then too. */
  lemma DueEarlier(s: CronSchedule, earlier: nat, later: nat)
    requires SlotOf(earlier) <= SlotOf(later)
    requires DueSlotOf(s, later).Some? && DueSlotOf(s, later).value <= SlotOf(earlier)
    ensures DueSlotOf(s, earlier) == DueSlotOf(s, later)
  {
    DueSlotIsLatest(s, later);
    var t := DueSlotOf(s, later).value;
    DueSlotIs(s, earlier, t);
  }

  lemma SweptIff(s: CronSchedule, moments: seq<nat>, first: nat, last: nat, slot: nat)
    requires EveryMinute(moments, first, last)
    ensures Swept(s, moments, slot) <==> (first < slot <= last && s.Matches(slot)) || DueSlotOf(s, first * 60) == Some(slot)
  {
    assert SlotOf(first * 60) == first;
    if i :| 0 <= i < |moments| && DueSlotOf(s, moments[i]) == Some(slot) {
      DueSlotIsLatest(s, moments[i]);
      if slot <= first {
        DueEarlier(s, first * 60, moments[i]);
      }
    }
    if first < slot <= last && s.Matches(slot) {
      assert InMinute(moments, slot);
      var i :| 0 <= i < |moments| && SlotOf(moments[i]) == slot;
      NamedNowIsDue(s, moments[i]);
    }
    if DueSlotOf(s, first * 60) == Some(slot) {
      assert InMinute(moments, first);
      var i :| 0 <= i < |moments| && SlotOf(moments[i]) == first;
      DueSlotIsLatest(s, first * 60);
      DueEarlier(s, moments[i], first * 60);
    }
  }

  /** Over every run in which the sweeps of a process leave out no minute of a span, the slots
      enqueued for it are exactly the minutes the schedule names in that span, the one slot owed
      when it began, and those it was run for by hand. */
  lemma SweepsAreComplete(c: Config, clock: nat, steps: seq<Step>, p: nat, s: CronSchedule, first: nat, last: nat, slot: nat)
    requires Possible(c, Initial(clock), steps) && HasSchedule(steps, p, s)
    requires EveryMinute(SweepsOf(steps, p), first, last)
    ensures (p, slot) in After(c, Initial(clock), steps).enqueued <==>
            || (first < slot <= last && s.Matches(slot))
            || DueSlotOf(s, first * 60) == Some(slot)
            || InMinute(ManualRunsOf(steps, p), slot)
  {
    EnqueuedIff(c, clock, steps, p, s, slot);
    SweptIff(s, SweepsOf(steps, p), first, last, slot);
  }

  /** Sweeps in order, no two in a row more than a minute apart, leave out no minute. */
  lemma {:induction false} NoGapsCover(moments: seq<nat>)
    requires moments != []
    requires forall i | 0 <= i < |moments| - 1 :: SlotOf(moments[i]) <= SlotOf(moments[i + 1]) <= SlotOf(moments[i]) + 1
    ensures EveryMinute(moments, SlotOf(moments[0]), SlotOf(moments[|moments| - 1]))
  {
    hide SlotOf;
    var n := |moments| - 1;
    if 0 < n {
      NoGapsCover(moments[..n]);
      assert moments[..n][n - 1] == moments[n - 1] && SlotOf(moments[n - 1]) <= SlotOf(moments[n]) <= SlotOf(moments[n - 1]) + 1;
      forall i | 0 <= i < |moments| ensures SlotOf(moments[0]) <= SlotOf(moments[i]) <= SlotOf(moments[n]) {
        assert i < n ==> moments[..n][i] == moments[i];
      }
      forall minute | SlotOf(moments[0]) <= minute <= SlotOf(moments[n]) ensures InMinute(moments, minute) {
        if minute <= SlotOf(moments[n - 1]) {
          assert InMinute(moments[..n], minute);
          var i :| 0 <= i < n && SlotOf(moments[..n][i]) == minute;
          assert SlotOf(moments[i]) == minute;
        }
      }
    } else {
      forall minute | SlotOf(moments[0]) <= minute <= SlotOf(moments[0]) ensures InMinute(moments, minute) {
        assert SlotOf(moments[0]) == minute;
      }
    }
  }

  /** Over every run, after a pause of any length, a sweep adds at most one slot: the latest one
      named, within 25 hours, later than every sweep before; and that one is enqueued after it. */
  lemma PauseAddsAtMostOne(c: Config, clock: nat, steps: seq<Step>, p: nat, s: CronSchedule, next: nat, production: Option<nat>, slot: nat)
    requires Possible(c, Initial(clock), steps) && HasSchedule(steps, p, s)
    requires forall i | 0 <= i < |SweepsOf(steps, p)| :: SlotOf(SweepsOf(steps, p)[i]) <= SlotOf(next)
    ensures var before := After(c, Initial(clock), steps);
            var after := Apply(c, before, Sweep(p, s, next, production));
            && ((p, slot) in after.enqueued <==> (p, slot) in before.enqueued || DueSlotOf(s, next) == Some(slot))
            && ((p, slot) in after.enqueued && (p, slot) !in before.enqueued ==>
                  && s.Matches(slot) && slot <= next / 60 <= slot + 25 * 60
                  && (forall u: nat | slot < u <= SlotOf(next) :: !s.Matches(u))
                  && (forall i | 0 <= i < |SweepsOf(steps, p)| :: SlotOf(SweepsOf(steps, p)[i]) < slot))
  {
    var sweeps := SweepsOf(steps, p);
    EnqueuedIff(c, clock, steps, p, s, slot);
    StepEnqueues(c, After(c, Initial(clock), steps), Sweep(p, s, next, production), (p, slot));
    hide RowsKnown, Apply, After, Possible;
    if DueSlotOf(s, next) == Some(slot) && !Swept(s, sweeps, slot) {
      DueSlotIsLatest(s, next);
      forall i | 0 <= i < |sweeps| ensures SlotOf(sweeps[i]) < slot {
        if slot <= SlotOf(sweeps[i]) {
          DueEarlier(s, sweeps[i], next);
          assert false;
        }
      }
    }
  }
}
