/** Sweeps, manual runs, claims, finishes, crashes, reclaims and deletions of job runs,
    interleaved in any order: does each slot fire once? */
module SlotProtocol {
  import opened Wrappers
  import opened Calendar
  import opened Search
  import opened Schedule
  import opened JobRuns

  /** `days` is the retention of finished runs; `lag` the longest time, in seconds, between
      reading the clock for a slot and inserting its row. */
  datatype Config = Config(days: nat, lag: nat)

  /** A slot of a process. */
  type Key = (nat, nat)

  datatype State = State(
    rows: Rows,
    nextId: nat,
    clock: nat,
    removed: set<nat>,          // processes deleted, whose rows went with them
    enqueued: multiset<Key>,    // every row ever inserted
    starts: multiset<Key>)      // every run ever started

  datatype Step =
    | Tick(seconds: nat)
    | Sweep(process: nat, schedule: CronSchedule, moment: nat, production: Option<nat>)
    | RunNow(process: nat, moment: nat, production: Option<nat>)
    | Start(id: nat, worker: string, locked: set<nat>)
    | Finish(id: nat, status: RunStatus, exitCode: Option<int>, detail: Option<string>, output: Option<string>)
    | Reclaim(olderThan: nat)
    | DeleteOld
    | RemoveProcess(process: nat)

  const NOT_SERVING := "Nothing is serving production yet."

  /** The clock was read no more than `lag` seconds ago. */
  predicate Recent(c: Config, s: State, moment: nat) {
    moment <= s.clock <= moment + c.lag
  }

  /** A worker that crashes takes no step; its run is finished late, reclaimed or neither. */
  predicate Enabled(c: Config, s: State, step: Step) {
    match step
    case Sweep(p, schedule, moment, _) => p !in s.removed && Recent(c, s, moment)
    case RunNow(p, moment, _) => p !in s.removed && Recent(c, s, moment)
    case Start(id, _, locked) => IsNext(s.rows, locked, id)
    case Finish(id, status, _, _, _) => Terminal(status)
    case _ => true
  }

  function Insert(s: State, process: nat, slot: nat, production: Option<nat>, status: RunStatus, detail: Option<string>): State {
    if Taken(s.rows, process, slot) then s
    else s.(
      rows := s.rows[s.nextId := NewRun(process, slot, production, status, detail, s.clock)],
      nextId := s.nextId + 1,
      enqueued := s.enqueued + multiset{(process, slot)})
  }

  function Apply(c: Config, s: State, step: Step): State {
    match step
    case Tick(seconds) => s.(clock := s.clock + seconds)
    case Sweep(p, schedule, moment, production) =>
      var due := DueSlotOf(schedule, moment);
      if due.None? then s
      else if production.Some? then Insert(s, p, due.value, production, Pending, None)
      else Insert(s, p, due.value, production, Skipped, Some(NOT_SERVING))
    case RunNow(p, moment, production) => Insert(s, p, SlotOf(moment), production, Pending, None)
    case Start(id, worker, _) =>
      if id !in s.rows then s
      else s.(rows := s.rows[id := Claimed(s.rows[id], worker, s.clock)],
              starts := s.starts + multiset{KeyOf(s.rows[id])})
    case Finish(id, status, exitCode, detail, output) =>
      if id !in s.rows then s
      else s.(rows := s.rows[id := Finished(s.rows[id], status, exitCode, detail, output, s.clock)])
    case Reclaim(olderThan) => s.(rows := Reclaimed(s.rows, olderThan, s.clock))
    case DeleteOld => s.(rows := Retained(s.rows, c.days, s.clock))
    case RemoveProcess(p) =>
      s.(rows := map id | id in s.rows && s.rows[id].process != p :: s.rows[id], removed := s.removed + {p})
  }

  function KeyOf(run: JobRun): Key {
    (run.process, run.slot)
  }

  function Initial(clock: nat): State {
    State(map[], 0, clock, {}, multiset{}, multiset{})
  }

  /** The state after some steps, taken in order. */
  function After(c: Config, s: State, steps: seq<Step>): State {
    if steps == [] then s else Apply(c, After(c, s, steps[..|steps| - 1]), steps[|steps| - 1])
  }

  /** Each step was possible when it was taken. */
  predicate Possible(c: Config, s: State, steps: seq<Step>) {
    steps == [] ||
    (Possible(c, s, steps[..|steps| - 1]) && Enabled(c, After(c, s, steps[..|steps| - 1]), steps[|steps| - 1]))
  }

  // Safety

  predicate HasRow(rows: Rows, k: Key) {
    Taken(rows, k.0, k.1)
  }

  predicate HasPendingRow(rows: Rows, k: Key) {
    exists id | id in rows :: KeyOf(rows[id]) == k && rows[id].status == Pending
  }

  /** The slot is too old to be inserted again, or its process is gone. */
  predicate OutOfReach(c: Config, s: State, k: Key) {
    k.1 * 60 + c.days * SECONDS_PER_DAY < s.clock || k.0 in s.removed
  }

  ghost predicate TableOk(s: State) {
    && (forall id | id in s.rows :: id < s.nextId && s.rows[id].process !in s.removed)
    && UniqueSlots(s.rows)
    && (forall id | id in s.rows :: KeyOf(s.rows[id]) in s.enqueued)
  }

  /** Every slot ever enqueued was enqueued once, and has its row until it is out of reach. */
  ghost predicate EnqueuedOk(c: Config, s: State) {
    forall k | k in s.enqueued :: s.enqueued[k] == 1 && (HasRow(s.rows, k) || OutOfReach(c, s, k))
  }

  /** Every slot ever started was started once, and no row for it is pending. */
  ghost predicate StartsOk(s: State) {
    forall k | k in s.starts :: s.starts[k] == 1 && k in s.enqueued && !HasPendingRow(s.rows, k)
  }

  ghost predicate Inv(c: Config, s: State) {
    TableOk(s) && EnqueuedOk(c, s) && StartsOk(s)
  }

  /** Retention outlasts the catch-up window: 25 hours, the rest of a minute, and the lag. */
  predicate RetentionSuffices(c: Config) {
    MAX_CATCHUP * 60 + 59 + c.lag <= c.days * SECONDS_PER_DAY
  }

  lemma ReachableSlots(c: Config, s: State, moment: nat, slot: nat, k: Key)
    requires RetentionSuffices(c) && Recent(c, s, moment)
    requires SlotOf(moment) - MAX_CATCHUP <= slot
    requires k == (k.0, slot) && k.0 !in s.removed
    ensures !OutOfReach(c, s, k)
  {
  }

  lemma InsertKeepsEnqueued(c: Config, s: State, process: nat, slot: nat, production: Option<nat>, status: RunStatus, detail: Option<string>)
    requires Inv(c, s) && !Taken(s.rows, process, slot) && !OutOfReach(c, s, (process, slot))
    ensures EnqueuedOk(c, Insert(s, process, slot, production, status, detail))
  {
    var s' := Insert(s, process, slot, production, status, detail);
    var key := (process, slot);
    assert key !in s.enqueued;
    assert KeyOf(s'.rows[s.nextId]) == key;
    forall k | k in s'.enqueued ensures s'.enqueued[k] == 1 && (HasRow(s'.rows, k) || OutOfReach(c, s', k)) {
      if k != key && HasRow(s.rows, k) {
        RowStays(s.rows, s'.rows, k);
      }
    }
  }

  lemma InsertKeepsInv(c: Config, s: State, process: nat, slot: nat, production: Option<nat>, status: RunStatus, detail: Option<string>)
    requires Inv(c, s) && process !in s.removed && !OutOfReach(c, s, (process, slot))
    ensures Inv(c, Insert(s, process, slot, production, status, detail))
  {
    if !Taken(s.rows, process, slot) {
      InsertKeepsEnqueued(c, s, process, slot, production, status, detail);
      assert (process, slot) !in s.enqueued;
    }
  }

  lemma RowStays(rows: Rows, rows': Rows, k: Key)
    requires HasRow(rows, k)
    requires forall id | id in rows && KeyOf(rows[id]) == k :: id in rows' && KeyOf(rows'[id]) == k
    ensures HasRow(rows', k)
  {
    var id :| id in rows && rows[id].process == k.0 && rows[id].slot == k.1;
    assert KeyOf(rows[id]) == k && KeyOf(rows'[id]) == k;
  }

  /** Changing rows in place, or dropping some that are out of reach, keeps the table's part. */
  lemma RowsKept(c: Config, s: State, s': State)
    requires Inv(c, s)
    requires s'.rows.Keys <= s.rows.Keys
    requires forall id | id in s'.rows :: KeyOf(s'.rows[id]) == KeyOf(s.rows[id])
    requires forall id | id in s'.rows :: s'.rows[id].process !in s'.removed
    requires forall id | id in s'.rows && s'.rows[id].status == Pending :: s.rows[id].status == Pending
    requires forall id | id in s.rows && id !in s'.rows :: OutOfReach(c, s', KeyOf(s.rows[id]))
    requires s'.clock == s.clock && s.removed <= s'.removed && s'.enqueued == s.enqueued && s'.nextId == s.nextId
    ensures TableOk(s') && EnqueuedOk(c, s')
    ensures forall k | k in s.starts :: !HasPendingRow(s'.rows, k)
  {
    forall k | k in s.enqueued ensures HasRow(s'.rows, k) || OutOfReach(c, s', k) {
      if HasRow(s.rows, k) && !OutOfReach(c, s', k) {
        RowStays(s.rows, s'.rows, k);
      }
    }
    KeysStayUnique(s.rows, s'.rows);
  }

  lemma KeysStayUnique(rows: Rows, rows': Rows)
    requires UniqueSlots(rows) && rows'.Keys <= rows.Keys
    requires forall id | id in rows' :: KeyOf(rows'[id]) == KeyOf(rows[id])
    ensures UniqueSlots(rows')
  {
    forall a, b | a in rows' && b in rows' && rows'[a].process == rows'[b].process && rows'[a].slot == rows'[b].slot
      ensures a == b
    {
      assert KeyOf(rows'[a]) == KeyOf(rows[a]) && KeyOf(rows'[b]) == KeyOf(rows[b]);
    }
  }

  lemma StartKeepsInv(c: Config, s: State, id: nat, worker: string, locked: set<nat>)
    requires Inv(c, s) && IsNext(s.rows, locked, id)
    ensures Inv(c, Apply(c, s, Start(id, worker, locked)))
  {
    var s' := Apply(c, s, Start(id, worker, locked));
    var key := KeyOf(s.rows[id]);
    assert HasPendingRow(s.rows, key);
    assert key !in s.starts;
    RowsKept(c, s, s');
  }

  lemma SweepKeepsInv(c: Config, s: State, p: nat, schedule: CronSchedule, moment: nat, production: Option<nat>)
    requires Inv(c, s) && RetentionSuffices(c) && p !in s.removed && Recent(c, s, moment)
    ensures Inv(c, Apply(c, s, Sweep(p, schedule, moment, production)))
  {
    DueSlotIsLatest(schedule, moment);
    var due := DueSlotOf(schedule, moment);
    if due.Some? {
      ReachableSlots(c, s, moment, due.value, (p, due.value));
      if production.Some? {
        InsertKeepsInv(c, s, p, due.value, production, Pending, None);
      } else {
        InsertKeepsInv(c, s, p, due.value, production, Skipped, Some(NOT_SERVING));
      }
    }
  }

  lemma RunNowKeepsInv(c: Config, s: State, p: nat, moment: nat, production: Option<nat>)
    requires Inv(c, s) && RetentionSuffices(c) && p !in s.removed && Recent(c, s, moment)
    ensures Inv(c, Apply(c, s, RunNow(p, moment, production)))
  {
    ReachableSlots(c, s, moment, SlotOf(moment), (p, SlotOf(moment)));
    InsertKeepsInv(c, s, p, SlotOf(moment), production, Pending, None);
  }

  lemma FinishKeepsInv(c: Config, s: State, step: Step)
    requires Inv(c, s) && Enabled(c, s, step) && step.Finish?
    ensures Inv(c, Apply(c, s, step))
  {
    hide EnqueuedOk, HasRow, OutOfReach, UniqueSlots, HasPendingRow;
    RowsKept(c, s, Apply(c, s, step));
  }

  lemma ReclaimKeepsInv(c: Config, s: State, olderThan: nat)
    requires Inv(c, s)
    ensures Inv(c, Apply(c, s, Reclaim(olderThan)))
  {
    RowsKept(c, s, Apply(c, s, Reclaim(olderThan)));
  }

  lemma DeleteKeepsInv(c: Config, s: State)
    requires Inv(c, s)
    ensures Inv(c, Apply(c, s, DeleteOld))
  {
    RowsKept(c, s, Apply(c, s, DeleteOld));
  }

  lemma RemoveKeepsInv(c: Config, s: State, p: nat)
    requires Inv(c, s)
    ensures Inv(c, Apply(c, s, RemoveProcess(p)))
  {
    RowsKept(c, s, Apply(c, s, RemoveProcess(p)));
  }

  lemma StepKeepsInv(c: Config, s: State, step: Step)
    requires Inv(c, s) && RetentionSuffices(c) && Enabled(c, s, step)
    ensures Inv(c, Apply(c, s, step))
  {
    match step
    case Tick(seconds) => TickKeepsInv(c, s, seconds);
    case Sweep(p, schedule, moment, production) => SweepKeepsInv(c, s, p, schedule, moment, production);
    case RunNow(p, moment, production) => RunNowKeepsInv(c, s, p, moment, production);
    case Start(id, worker, locked) => StartKeepsInv(c, s, id, worker, locked);
    case Finish(_, _, _, _, _) => FinishKeepsInv(c, s, step);
    case Reclaim(olderThan) => ReclaimKeepsInv(c, s, olderThan);
    case DeleteOld => DeleteKeepsInv(c, s);
    case RemoveProcess(p) => RemoveKeepsInv(c, s, p);
  }

  lemma TickKeepsInv(c: Config, s: State, seconds: nat)
    requires Inv(c, s)
    ensures Inv(c, Apply(c, s, Tick(seconds)))
  {
  }

  lemma {:induction false} InvHolds(c: Config, clock: nat, steps: seq<Step>)
    requires RetentionSuffices(c) && Possible(c, Initial(clock), steps)
    ensures Inv(c, After(c, Initial(clock), steps))
  {
    if steps != [] {
      InvHolds(c, clock, steps[..|steps| - 1]);
      StepKeepsInv(c, After(c, Initial(clock), steps[..|steps| - 1]), steps[|steps| - 1]);
    }
  }

  /** No slot is ever started twice, over every interleaving. */
  ghost predicate FiresOnce(c: Config) {
    forall clock: nat, steps: seq<Step> | Possible(c, Initial(clock), steps) ::
      forall k: Key :: After(c, Initial(clock), steps).starts[k] <= 1
  }

  lemma RetentionIsEnough(c: Config)
    requires RetentionSuffices(c)
    ensures FiresOnce(c)
  {
    forall clock: nat, steps: seq<Step> | Possible(c, Initial(clock), steps)
      ensures forall k: Key :: After(c, Initial(clock), steps).starts[k] <= 1
    {
      InvHolds(c, clock, steps);
    }
  }

  // Too short a retention

  /** `@yearly` */
  ghost predicate IsYearly(s: CronSchedule) {
    && s.minutes == {0} && s.hours == {0} && s.days == {1} && s.months == {1}
    && (forall w: nat | w < 7 :: w in s.weekdays) && s.dayRestricted && !s.weekdayRestricted
  }

  lemma FirstOfJanuary(s: CronSchedule, y: nat)
    requires 1 <= y && IsYearly(s)
    ensures s.DateCouldMatch(Ordinal(Date(y, 1, 1)))
  {
    DateOfOrdinal(Date(y, 1, 1));
    assert Weekday(Ordinal(Date(y, 1, 1))) < 7;
    assert 1 in s.days && 1 in s.months;
  }

  lemma SecondOfJanuary(s: CronSchedule, y: nat)
    requires 1 <= y && IsYearly(s)
    ensures !s.DateCouldMatch(Ordinal(Date(y, 1, 1)) + 1)
  {
    SecondOfMonth(y, 1);
    assert 2 !in s.days;
  }

  function NewYear(y: nat): nat
    requires 1 <= y
  {
    Midnight(Ordinal(Date(y, 1, 1)))
  }

  lemma NotNamedAfterNewYear(s: CronSchedule, y: nat, u: nat)
    requires 1 <= y && IsYearly(s) && NewYear(y) < u <= NewYear(y) + MAX_CATCHUP
    ensures !s.Matches(u)
  {
    if s.Matches(u) {
      OnlyMidnight(s, u);
      OneMidnightWithin(Ordinal(Date(y, 1, 1)), u);
      SecondOfJanuary(s, y);
    }
  }

  lemma NoneNamedAfterNewYear(s: CronSchedule, y: nat, hi: nat)
    requires 1 <= y && IsYearly(s) && hi <= NewYear(y) + MAX_CATCHUP
    ensures NoneIn(s.Matches, NewYear(y) + 1, hi + 1)
  {
    forall u: nat | NewYear(y) < u <= hi ensures !s.Matches(u) {
      NotNamedAfterNewYear(s, y, u);
    }
  }

  lemma NewYearIsNamed(s: CronSchedule, y: nat)
    requires 1 <= y && IsYearly(s)
    ensures s.Matches(NewYear(y))
  {
    FirstOfJanuary(s, y);
    NamedAt(s, Ordinal(Date(y, 1, 1)), 0, 0);
  }

  /** 1 January is the slot owed until 25 hours later: no other minute between is named. */
  lemma NewYearIsDue(s: CronSchedule, y: nat, moment: nat)
    requires 1 <= y && IsYearly(s) && NewYear(y) <= SlotOf(moment) <= NewYear(y) + MAX_CATCHUP
    ensures DueSlotOf(s, moment) == Some(NewYear(y))
  {
    NewYearIsNamed(s, y);
    NoneNamedAfterNewYear(s, y, SlotOf(moment));
    DueSlotIs(s, moment, NewYear(y));
  }

  lemma OneMore(c: Config, s: State, steps: seq<Step>, step: Step)
    requires Possible(c, s, steps) && Enabled(c, After(c, s, steps), step)
    ensures Possible(c, s, steps + [step])
    ensures After(c, s, steps + [step]) == Apply(c, After(c, s, steps), step)
  {
    assert (steps + [step])[..|steps|] == steps;
  }

  ghost predicate RanOnce(t: State, b: nat) {
    && t.rows.Keys == {0} && t.nextId == 1 && t.clock == b * 60 && t.removed == {}
    && KeyOf(t.rows[0]) == (0, b) && Terminal(t.rows[0].status)
    && t.starts == multiset{(0, b)}
  }

  ghost predicate RanLater(t: State, b: nat) {
    && t.rows.Keys == {0, 1} && t.nextId == 2 && t.clock == b * 60 + 60 && t.removed == {}
    && KeyOf(t.rows[0]) == (0, b) && Terminal(t.rows[0].status)
    && KeyOf(t.rows[1]) == (0, b + 1) && t.rows[1].status == Pending
    && t.starts == multiset{(0, b)}
  }

  /** A first run of slot b, started and finished. */
  lemma FirstRun(c: Config, s: CronSchedule, b: nat) returns (steps: seq<Step>)
    requires DueSlotOf(s, b * 60) == Some(b)
    ensures Possible(c, Initial(b * 60), steps)
    ensures RanOnce(After(c, Initial(b * 60), steps), b)
  {
    var start := Initial(b * 60);
    var sweep := Sweep(0, s, b * 60, Some(1));
    OneMore(c, start, [], sweep);
    var t1 := Apply(c, start, sweep);
    assert t1.rows == map[0 := NewRun(0, b, Some(1), Pending, None, b * 60)];
    var claim := Start(0, "worker", {});
    OneMore(c, start, [sweep], claim);
    var t2 := Apply(c, t1, claim);
    assert t2.starts == multiset{(0, b)};
    var finish := Finish(0, Succeeded, Some(0), None, None);
    OneMore(c, start, [sweep] + [claim], finish);
    steps := [sweep] + [claim] + [finish];
  }

  /** A manual run a minute later, which becomes the process's latest. */
  lemma LaterRun(c: Config, b: nat, before: seq<Step>) returns (steps: seq<Step>)
    requires Possible(c, Initial(b * 60), before)
    requires RanOnce(After(c, Initial(b * 60), before), b)
    ensures Possible(c, Initial(b * 60), steps)
    ensures RanLater(After(c, Initial(b * 60), steps), b)
  {
    hide Possible, After, IsNext, Terminal;
    var start := Initial(b * 60);
    var t0 := After(c, start, before);
    OneMore(c, start, before, Tick(60));
    var t1 := Apply(c, t0, Tick(60));
    var manual := RunNow(0, b * 60 + 60, Some(1));
    assert SlotOf(b * 60 + 60) == b + 1;
    assert !Taken(t1.rows, 0, b + 1);
    OneMore(c, start, before + [Tick(60)], manual);
    steps := before + [Tick(60)] + [manual];
  }

  /** The finished row is deleted, its slot is still due, and it runs again. */
  lemma SecondRun(c: Config, s: CronSchedule, b: nat, before: seq<Step>) returns (steps: seq<Step>)
    requires !RetentionSuffices(c)
    requires DueSlotOf(s, b * 60 + MAX_CATCHUP * 60 + 59) == Some(b)
    requires Possible(c, Initial(b * 60), before)
    requires RanLater(After(c, Initial(b * 60), before), b)
    ensures Possible(c, Initial(b * 60), steps)
    ensures After(c, Initial(b * 60), steps).starts[(0, b)] == 2
  {
    hide Possible, After;
    var start := Initial(b * 60);
    var t0 := After(c, start, before);
    var wait := Tick(MAX_CATCHUP * 60 - 1 + c.lag);
    OneMore(c, start, before, wait);
    var t1 := Apply(c, t0, wait);
    OneMore(c, start, before + [wait], DeleteOld);
    var t2 := Apply(c, t1, DeleteOld);
    assert !IsLatest(t1.rows, 0) by { assert KeyOf(t1.rows[1]) == (0, b + 1); }
    assert Expired(t1.rows, 0, c.days, t1.clock);
    assert t2.rows.Keys == {1};
    var sweep := Sweep(0, s, b * 60 + MAX_CATCHUP * 60 + 59, Some(1));
    assert !Taken(t2.rows, 0, b);
    OneMore(c, start, before + [wait] + [DeleteOld], sweep);
    var t3 := Apply(c, t2, sweep);
    assert t3.rows.Keys == {1, 2} && KeyOf(t3.rows[2]) == (0, b) && t3.rows[2].status == Pending;
    var claim := Start(2, "worker", {});
    assert IsNext(t3.rows, {}, 2);
    OneMore(c, start, before + [wait] + [DeleteOld] + [sweep], claim);
    steps := before + [wait] + [DeleteOld] + [sweep] + [claim];
  }

  lemma YearlySlots(s: CronSchedule, y: nat)
    requires 1 <= y && IsYearly(s)
    ensures var b := NewYear(y);
            DueSlotOf(s, b * 60) == Some(b) && DueSlotOf(s, b * 60 + MAX_CATCHUP * 60 + 59) == Some(b)
  {
    var b := NewYear(y);
    assert SlotOf(b * 60) == b;
    assert SlotOf(b * 60 + MAX_CATCHUP * 60 + 59) == b + MAX_CATCHUP;
    NewYearIsDue(s, y, b * 60);
    NewYearIsDue(s, y, b * 60 + MAX_CATCHUP * 60 + 59);
  }

  lemma RunsTwice(c: Config, s: CronSchedule, b: nat) returns (steps: seq<Step>)
    requires !RetentionSuffices(c)
    requires DueSlotOf(s, b * 60) == Some(b) && DueSlotOf(s, b * 60 + MAX_CATCHUP * 60 + 59) == Some(b)
    ensures Possible(c, Initial(b * 60), steps)
    ensures After(c, Initial(b * 60), steps).starts[(0, b)] == 2
  {
    var first := FirstRun(c, s, b);
    var later := LaterRun(c, b, first);
    steps := SecondRun(c, s, b, later);
  }

  /** With a shorter retention some slot runs twice: the finished row of `@yearly` is deleted
      while its slot is still within the catch-up window. */
  lemma TooShortFiresTwice(c: Config, s: CronSchedule, y: nat) returns (steps: seq<Step>)
    requires !RetentionSuffices(c) && 1 <= y && IsYearly(s)
    ensures Possible(c, Initial(NewYear(y) * 60), steps)
    ensures After(c, Initial(NewYear(y) * 60), steps).starts[(0, NewYear(y))] == 2
  {
    YearlySlots(s, y);
    steps := RunsTwice(c, s, NewYear(y));
  }

  /** Every slot fires at most once, over every interleaving of sweeps, manual runs, claims,
      finishes, crashes, reclaims and deletions, exactly when finished runs are kept for at
      least 25 hours, a minute less a second, and the longest lag of an insert. */
  lemma FiresOnceIff(c: Config)
    ensures FiresOnce(c) <==> 25 * 3600 + 59 + c.lag <= c.days * 24 * 3600
  {
    if RetentionSuffices(c) {
      RetentionIsEnough(c);
    } else {
      var yearly := CronSchedule({0}, {0}, {1}, {1}, {0, 1, 2, 3, 4, 5, 6}, true, false, "0 0 1 1 *");
      var steps := TooShortFiresTwice(c, yearly, 2027);
      assert After(c, Initial(NewYear(2027) * 60), steps).starts[(0, NewYear(2027))] == 2;
    }
  }

  /** The configuration admits one day, which is too short however fast the inserts are; two
      days suffice for inserts up to 22 hours late. */
  lemma OneDayIsTooShort(lag: nat)
    ensures !FiresOnce(Config(1, lag))
    ensures lag <= 22 * 3600 ==> FiresOnce(Config(2, lag))
  {
    FiresOnceIff(Config(1, lag));
    FiresOnceIff(Config(2, lag));
  }
}
