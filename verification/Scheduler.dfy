/** The sweep that turns due schedules into rows, and the steps of the slot protocol it comes to. */
module Scheduler {
  import opened Wrappers
  import opened Schedule
  import opened ScheduleText
  import opened JobRuns
  import opened SlotProtocol

  datatype Process = Process(id: nat, project: nat, schedule: string)

  /** The slot a process owes: none when its schedule cannot be parsed. */
  function Owed(process: Process, moment: nat): Option<nat> {
    var parsed := Parsed(process.schedule);
    if parsed.Err? then None else DueSlotOf(parsed.value, moment)
  }

  /** The row inserted at `now`. */
  function SlotRun(process: Process, slot: nat, serving: Option<nat>, now: nat): JobRun {
    if serving.Some? then NewRun(process.id, slot, serving, Pending, None, now)
    else NewRun(process.id, slot, serving, Skipped, Some(NOT_SERVING), now)
  }

  ghost predicate IsLatestNamed(schedule: CronSchedule, moment: nat, slot: nat) {
    && schedule.Matches(slot) && moment / 60 - 25 * 60 <= slot <= moment / 60
    && forall u: nat | slot < u <= moment / 60 :: !schedule.Matches(u)
  }

  /** A row inserted at `now` for a process whose clock was read at `moment`: of the latest minute
      its schedule named in the last 25 hours, queued if its project serves a deployment, and
      recorded as skipped if it serves none. */
  ghost predicate IsDueRun(run: JobRun, process: Process, serving: Option<nat>, moment: nat, now: nat) {
    && run.process == process.id && run.deployment == serving
    && Parsed(process.schedule).Ok? && IsLatestNamed(Parsed(process.schedule).value, moment, run.slot)
    && (run.status == Pending <==> serving.Some?) && (run.status == Skipped <==> serving.None?)
    && run.finishedAt == (if serving.None? then Some(now) else None)
    && run.detail == (if serving.None? then Some("Nothing is serving production yet.") else None)
    && run.exitCode.None? && run.output.None? && run.leasedBy.None? && run.leasedAt.None? && run.startedAt.None?
  }

  lemma SlotRunIsDue(process: Process, serving: Option<nat>, moment: nat, now: nat)
    requires Owed(process, moment).Some?
    ensures IsDueRun(SlotRun(process, Owed(process, moment).value, serving, now), process, serving, moment, now)
  {
    DueSlotIsLatest(Parsed(process.schedule).value, moment);
    hide Parsed, DueSlotOf;
  }

  /** The rows, and the id the next one gets. */
  datatype Table = Table(rows: Rows, nextId: nat)

  /** The table after one process's turn: its clock was read at `moment`, and its insert is at `now`. */
  function SweptOne(t: Table, process: Process, serving: Option<nat>, moment: nat, now: nat): Table {
    var slot := Owed(process, moment);
    if slot.None? || Taken(t.rows, process.id, slot.value) then t
    else Table(t.rows[t.nextId := SlotRun(process, slot.value, serving, now)], t.nextId + 1)
  }

  /** The table after the turns of these processes, whose inserts are at these times. */
  function SweptAll(t: Table, processes: seq<Process>, production: map<nat, Option<nat>>, moment: nat, times: seq<nat>): Table
    requires |times| == |processes| && forall p | p in processes :: p.project in production
  {
    if processes == [] then t
    else
      var n := |processes| - 1;
      SweptOne(SweptAll(t, processes[..n], production, moment, times[..n]), processes[n], production[processes[n].project], moment, times[n])
  }

  method DueSlotFor(process: Process, moment: nat) returns (slot: Option<nat>)
    ensures slot == Owed(process, moment)
  {
    var schedule := Parse(process.schedule);
    if schedule.Err? {
      return None;
    }
    slot := DueSlot(schedule.value, moment);
  }

  /** One process's turn of the sweep: whether its slot is new. */
  method SweepOne(table: JobRunTable, process: Process, serving: Option<nat>, moment: nat, now: nat) returns (isNew: bool)
    requires table.Valid()
    modifies table
    ensures table.Valid()
    ensures Table(table.rows, table.nextId) == SweptOne(Table(old(table.rows), old(table.nextId)), process, serving, moment, now)
    ensures isNew <==> Owed(process, moment).Some? && !Taken(old(table.rows), process.id, Owed(process, moment).value)
    ensures forall id | id in table.rows && id !in old(table.rows) :: IsDueRun(table.rows[id], process, serving, moment, now)
    ensures |table.rows| == |old(table.rows)| + if isNew then 1 else 0
  {
    var slot := DueSlotFor(process, moment);
    if slot.None? {
      return false;
    }
    SlotRunIsDue(process, serving, moment, now);
    hide IsDueRun, Owed;
    var run := table.ClaimSlot(
      process.id, slot.value, serving,
      if serving.Some? then Pending else Skipped,
      if serving.Some? then None else Some(NOT_SERVING),
      now);
    return run.Some?;
  }

  /** Queues every owed slot that has no row yet; the count is of the new rows. `times` are those
      of the inserts. */
  method SweepAll(table: JobRunTable, processes: seq<Process>, production: map<nat, Option<nat>>, moment: nat, times: seq<nat>)
    returns (enqueued: nat)
    requires table.Valid()
    requires |times| == |processes| && forall p | p in processes :: p.project in production
    modifies table
    ensures table.Valid()
    ensures Table(table.rows, table.nextId) == SweptAll(Table(old(table.rows), old(table.nextId)), processes, production, moment, times)
    ensures enqueued == |table.rows| - |old(table.rows)|
    ensures forall id | id in old(table.rows) :: id in table.rows && table.rows[id] == old(table.rows)[id]
    ensures forall id | id in table.rows && id !in old(table.rows) ::
              Accounted(table.rows[id], processes, production, moment, times)
    ensures AllTaken(table.rows, processes, moment)
  {
    SweptAllIs(Table(table.rows, table.nextId), processes, production, moment, times);
    NoTurns(Table(table.rows, table.nextId), production, moment);
    hide SweptAll, SweptOne, Owed, Taken, Accounted, AllTaken, Fresh, IsDueRun;
    assert processes[..0] == [] && times[..0] == [];
    enqueued := 0;
    for i := 0 to |processes|
      invariant table.Valid()
      invariant Table(table.rows, table.nextId) ==
                SweptAll(Table(old(table.rows), old(table.nextId)), processes[..i], production, moment, times[..i])
      invariant enqueued == |table.rows| - |old(table.rows)|
    {
      OneTurnMore(Table(old(table.rows), old(table.nextId)), processes, production, moment, times, i);
      var isNew := SweepOne(table, processes[i], production[processes[i].project], moment, times[i]);
      if isNew {
        enqueued := enqueued + 1;
      }
    }
    assert processes[..|processes|] == processes && times[..|times|] == times;
  }

  lemma NoTurns(t: Table, production: map<nat, Option<nat>>, moment: nat)
    ensures SweptAll(t, [], production, moment, []) == t
  {
  }

  lemma OneTurnMore(t: Table, processes: seq<Process>, production: map<nat, Option<nat>>, moment: nat, times: seq<nat>, i: nat)
    requires |times| == |processes| && i < |processes| && forall p | p in processes :: p.project in production
    ensures SweptAll(t, processes[..i + 1], production, moment, times[..i + 1]) ==
            SweptOne(SweptAll(t, processes[..i], production, moment, times[..i]), processes[i],
                     production[processes[i].project], moment, times[i])
  {
    assert processes[..i + 1][..i] == processes[..i] && times[..i + 1][..i] == times[..i];
  }

  // What the sweep leaves

  /** After its turn, the latest minute a process's schedule named in the last 25 hours has its row. */
  lemma TurnQueues(t: Table, process: Process, serving: Option<nat>, moment: nat, now: nat, slot: nat)
    requires Parsed(process.schedule).Ok? && IsLatestNamed(Parsed(process.schedule).value, moment, slot)
    ensures Owed(process, moment) == Some(slot)
    ensures var rows := SweptOne(t, process, serving, moment, now).rows;
            exists id | id in rows :: rows[id].process == process.id && rows[id].slot == slot
  {
    LatestIsDue(Parsed(process.schedule).value, moment, slot);
    hide Parsed, DueSlotOf, IsLatestNamed;
    var after := SweptOne(t, process, serving, moment, now);
    if after != t {
      assert t.nextId in after.rows;
    }
  }

  lemma LatestIsDue(schedule: CronSchedule, moment: nat, slot: nat)
    requires IsLatestNamed(schedule, moment, slot)
    ensures DueSlotOf(schedule, moment) == Some(slot)
  {
    DueSlotIsLatest(schedule, moment);
    hide DueSlotOf;
  }

  ghost predicate Fresh(t: Table) {
    forall id | id in t.rows :: id < t.nextId
  }

  /** A row that the sweep of some listed process accounts for. */
  ghost predicate Accounted(run: JobRun, processes: seq<Process>, production: map<nat, Option<nat>>, moment: nat, times: seq<nat>)
    requires |times| == |processes|
  {
    exists i | 0 <= i < |processes| ::
      processes[i].project in production && IsDueRun(run, processes[i], production[processes[i].project], moment, times[i])
  }

  ghost predicate Keeps(t: Table, after: Table) {
    forall id | id in t.rows :: id in after.rows && after.rows[id] == t.rows[id]
  }

  ghost predicate AllTaken(rows: Rows, processes: seq<Process>, moment: nat) {
    forall p | p in processes && Owed(p, moment).Some? :: Taken(rows, p.id, Owed(p, moment).value)
  }

  lemma SweptOneIs(t: Table, process: Process, serving: Option<nat>, moment: nat, now: nat)
    requires Fresh(t)
    ensures var after := SweptOne(t, process, serving, moment, now);
            && Fresh(after) && Keeps(t, after)
            && (forall id | id in after.rows && id !in t.rows :: IsDueRun(after.rows[id], process, serving, moment, now))
            && (Owed(process, moment).Some? ==> Taken(after.rows, process.id, Owed(process, moment).value))
  {
    hide Owed, IsDueRun;
    var after := SweptOne(t, process, serving, moment, now);
    if after != t {
      SlotRunIsDue(process, serving, moment, now);
      assert t.nextId in after.rows;
    }
  }

  lemma TakenStays(t: Table, after: Table, processes: seq<Process>, moment: nat)
    requires Keeps(t, after) && AllTaken(t.rows, processes, moment)
    ensures AllTaken(after.rows, processes, moment)
  {
    hide Owed;
    forall process, slot | Taken(t.rows, process, slot) ensures Taken(after.rows, process, slot) {
      var id :| id in t.rows && t.rows[id].process == process && t.rows[id].slot == slot;
      assert id in after.rows;
    }
  }

  lemma AccountedMore(run: JobRun, processes: seq<Process>, production: map<nat, Option<nat>>, moment: nat, times: seq<nat>)
    requires |times| == |processes| > 0
    requires var n := |processes| - 1; Accounted(run, processes[..n], production, moment, times[..n])
    ensures Accounted(run, processes, production, moment, times)
  {
    hide IsDueRun;
  }

  /** However the inserts are spread, a sweep leaves every owed slot with its row, each new row is
      owed, and no row is changed or lost. */
  lemma {:induction false} SweptAllIs(t: Table, processes: seq<Process>, production: map<nat, Option<nat>>, moment: nat, times: seq<nat>)
    requires Fresh(t) && |times| == |processes| && forall p | p in processes :: p.project in production
    ensures var after := SweptAll(t, processes, production, moment, times);
            && Fresh(after) && Keeps(t, after) && AllTaken(after.rows, processes, moment)
            && forall id | id in after.rows && id !in t.rows :: Accounted(after.rows[id], processes, production, moment, times)
  {
    hide Owed, IsDueRun, SweptOne, Taken;
    if processes != [] {
      var n := |processes| - 1;
      SweptAllIs(t, processes[..n], production, moment, times[..n]);
      var before := SweptAll(t, processes[..n], production, moment, times[..n]);
      var after := SweptAll(t, processes, production, moment, times);
      SweptOneIs(before, processes[n], production[processes[n].project], moment, times[n]);
      TakenStays(before, after, processes[..n], moment);
      forall id | id in after.rows && id !in t.rows ensures Accounted(after.rows[id], processes, production, moment, times) {
        if id in before.rows {
          AccountedMore(before.rows[id], processes, production, moment, times);
        }
      }
      assert processes == processes[..n] + [processes[n]];
    }
  }

  // The sweep as steps of the slot protocol

  /** The inserts come in order, the first no earlier than this and none later than the lag allows. */
  predicate InOrder(c: Config, clock: nat, moment: nat, times: seq<nat>) {
    && moment <= clock
    && (forall i | 0 <= i < |times| :: clock <= times[i] <= moment + c.lag)
    && (forall i, j | 0 <= i < j < |times| :: times[i] <= times[j])
  }

  function TableOf(s: State): Table {
    Table(s.rows, s.nextId)
  }

  lemma TurnIsRun(c: Config, from: State, steps: seq<Step>, process: Process, serving: Option<nat>, moment: nat, now: nat)
    returns (more: seq<Step>)
    requires Possible(c, from, steps)
    requires var s := After(c, from, steps); process.id !in s.removed && moment <= s.clock <= now <= moment + c.lag
    ensures Possible(c, from, more)
    ensures var s, t := After(c, from, steps), After(c, from, more);
            TableOf(t) == SweptOne(TableOf(s), process, serving, moment, now) && t.clock == now && t.removed == s.removed
  {
    hide Possible, After, Parsed, DueSlotOf;
    var s := After(c, from, steps);
    OneMore(c, from, steps, Tick(now - s.clock));
    more := steps + [Tick(now - s.clock)];
    var parsed := Parsed(process.schedule);
    if parsed.Ok? {
      var step := Sweep(process.id, parsed.value, moment, serving);
      OneMore(c, from, more, step);
      more := more + [step];
    }
  }

  /** A whole sweep is a run of the slot protocol: whatever came before it, its turns are steps
      possible then and leave the same table, if its processes are still there and its inserts
      within the lag. */
  lemma {:induction false} SweepIsRun(c: Config, from: State, steps: seq<Step>, processes: seq<Process>,
                                      production: map<nat, Option<nat>>, moment: nat, times: seq<nat>) returns (more: seq<Step>)
    requires Possible(c, from, steps) && |times| == |processes| && forall p | p in processes :: p.project in production
    requires InOrder(c, After(c, from, steps).clock, moment, times)
    requires forall p | p in processes :: p.id !in After(c, from, steps).removed
    ensures Possible(c, from, more)
    ensures var s, t := After(c, from, steps), After(c, from, more);
            && TableOf(t) == SweptAll(TableOf(s), processes, production, moment, times)
            && t.clock == (if times == [] then s.clock else times[|times| - 1]) && t.removed == s.removed
  {
    hide Possible, After, SweptOne;
    more := steps;
    if processes != [] {
      var n := |processes| - 1;
      more := SweepIsRun(c, from, steps, processes[..n], production, moment, times[..n]);
      more := TurnIsRun(c, from, more, processes[n], production[processes[n].project], moment, times[n]);
    }
  }
}
