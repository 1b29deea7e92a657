/** How long a drained container lives, over every run of the host: drains that overlap or stop
    between two commands, sweeps, exits and new workers. */
module Draining {
  import opened Wrappers
  import opened Text
  import opened Naming
  import opened Docker

  /** `drains` are the next commands of drains under way, and `known` every container id ever given
      out. A drain that stopped, or whose caller did, takes no further command. */
  datatype State = State(containers: Containers, clock: real, known: set<nat>, drains: multiset<Command>)

  /** What can happen to the host's containers; a worker is only ever started under a name that
      is more than slashes and not a draining one. */
  datatype Step =
    | Wait(seconds: real)
    | Inspect(id: nat, grace: nat)       // a drain begins
    | Do(command: Command)               // one goes on
    | Sweep
    | Exit(id: nat)                      // a container stops by itself
    | Start(id: nat, container: Container)

  predicate Enabled(s: State, step: Step) {
    match step
    case Wait(seconds) => 0.0 <= seconds
    case Do(command) => command in s.drains
    case Start(id, c) => id !in s.known && DrainingDeadline(c.name).None? && StripSlashes(c.name) != []
    case _ => true
  }

  /** The drains under way with one more, if it has a command to go on with. */
  function Joined(drains: multiset<Command>, next: Option<Command>): multiset<Command> {
    if next.None? then drains else drains + multiset{next.value}
  }

  function Apply(s: State, step: Step): State
    requires Enabled(s, step) && 0.0 <= s.clock
  {
    match step
    case Wait(seconds) => s.(clock := s.clock + seconds)
    case Inspect(id, grace) => s.(drains := Joined(s.drains, Inspected(s.containers, id, Deadline(s.clock, grace))))
    case Do(command) =>
      s.(containers := Commanded(s.containers, command),
         drains := Joined(s.drains - multiset{command}, Following(s.containers, command)))
    case Sweep => s.(containers := Swept(s.containers, s.clock))
    case Exit(id) => s.(containers := Exited(s.containers, id))
    case Start(id, c) =>
      s.(containers := (map other | other in s.containers && s.containers[other].name != c.name :: s.containers[other])[id := c],
         known := s.known + {id})
  }

  /** What the host does by itself: time passes, a container stops and only it does, and a worker
      starts under a fresh id in place of whatever had its name; no drain is begun or moved on. */
  lemma SurroundingsAre(s: State, step: Step, id: nat)
    requires Enabled(s, step) && 0.0 <= s.clock && (step.Wait? || step.Exit? || step.Start?)
    ensures var t := Apply(s, step);
            && t.drains == s.drains && t.clock == s.clock + (if step.Wait? then step.seconds else 0.0)
            && t.known == s.known + (if step.Start? then {step.id} else {})
            && (id in t.containers <==>
                || (step.Start? && step.id == id)
                || (id in s.containers && !(step.Start? && s.containers[id].name == step.container.name)))
            && (id in t.containers ==>
                  && (step.Start? && step.id == id ==> t.containers[id] == step.container)
                  && (step.Exit? && step.id == id ==> t.containers[id] == s.containers[id].(running := false))
                  && (step.Wait? || step.id != id ==> t.containers[id] == s.containers[id]))
  {
  }

  predicate Taken(states: seq<State>, steps: seq<Step>, i: nat)
    requires |states| == |steps| + 1 && i < |steps|
  {
    Enabled(states[i], steps[i]) && 0.0 <= states[i].clock && states[i + 1] == Apply(states[i], steps[i])
  }

  ghost predicate Run(states: seq<State>, steps: seq<Step>) {
    |states| == |steps| + 1 && Inv(states[0]) && forall i | 0 <= i < |steps| :: Taken(states, steps, i)
  }

  // The invariant

  /** The name, or a draining name made from it. */
  ghost predicate Carries(seen: string, name: string) {
    seen == name || exists deadline: nat :: seen == DrainingName(name, deadline)
  }

  /** What a drain with this command to go on with can rely on. */
  ghost predicate Sound(cs: Containers, command: Command) {
    match command
    case Rename(id, name, _) => DrainingDeadline(name).None? && StripSlashes(name) != [] && (id in cs ==> Carries(cs[id].name, name))
    case ClearRestart(_) => true
    case Signal(id) => id in cs ==> !cs[id].restarts
    case Remove(id) => id in cs ==> !cs[id].running
  }

  ghost predicate Named(cs: Containers) {
    forall id | id in cs :: StripSlashes(cs[id].name) != []
  }

  ghost predicate Inv(s: State) {
    && 0.0 <= s.clock && s.containers.Keys <= s.known && Named(s.containers)
    && forall command | command in s.drains :: command.id in s.known && Sound(s.containers, command)
  }

  lemma InspectedIsSound(cs: Containers, id: nat, deadline: nat)
    requires Named(cs)
    ensures Inspected(cs, id, deadline).Some? ==> Sound(cs, Inspected(cs, id, deadline).value)
  {
    hide DrainingDeadline, DrainingName, StripSlashes;
  }

  lemma FollowingIsSound(cs: Containers, command: Command)
    requires Sound(cs, command)
    ensures Following(cs, command).Some? ==> Sound(Commanded(cs, command), Following(cs, command).value)
    ensures Following(cs, command).Some? ==> Following(cs, command).value.id == command.id
  {
    hide DrainingDeadline, DrainingName, NameUsed, StripSlashes;
  }

  /** No name is made from two, when neither is a draining name. */
  lemma SameOwnName(seen: string, a: string, b: string)
    requires DrainingDeadline(a).None? && DrainingDeadline(b).None? && StripSlashes(a) != [] && StripSlashes(b) != []
    requires Carries(seen, a) && Carries(seen, b)
    ensures a == b
  {
    if d: nat :| seen == DrainingName(a, d) {
      DeadlineReadsBack(a, d);
      if e: nat :| seen == DrainingName(b, e) {
        DrainingNameInjective(a, d, b, e);
      }
    } else if e: nat :| seen == DrainingName(b, e) {
      DeadlineReadsBack(b, e);
    }
  }

  /** The containers with the same id keep what drains rely on. */
  predicate Alike(cs: Containers, cs': Containers, id: nat) {
    id in cs' ==>
      && id in cs && cs'[id].name == cs[id].name
      && (cs'[id].running ==> cs[id].running) && (cs'[id].restarts ==> cs[id].restarts)
  }

  lemma AlikeIsSound(cs: Containers, cs': Containers, command: Command)
    requires Sound(cs, command) && Alike(cs, cs', command.id)
    ensures Sound(cs', command)
  {
    hide DrainingDeadline, DrainingName, StripSlashes, Carries;
  }

  /** A command, of this drain or another, leaves every drain with what it relies on. */
  lemma StaysSound(cs: Containers, command: Command, other: Command)
    requires Sound(cs, command) && Sound(cs, other)
    ensures Sound(Commanded(cs, command), other)
  {
    hide DrainingDeadline, DrainingName, StripSlashes, NameUsed;
    if command.Rename? && command.id == other.id && other.Rename? && !Refused(cs, command) {
      SameOwnName(cs[command.id].name, command.name, other.name);
      assert Commanded(cs, command)[other.id].name == DrainingName(other.name, command.deadline);
    }
  }

  lemma CommandedIsNamed(cs: Containers, command: Command)
    requires Named(cs) && Sound(cs, command)
    ensures Named(Commanded(cs, command)) && Commanded(cs, command).Keys <= cs.Keys
  {
    if command.Rename? {
      var rest := DRAINING + Decimal(command.deadline);
      assert DrainingName(command.name, command.deadline) == command.name + rest;
      StripSlashesOfAppend(command.name, rest);
    }
    hide DrainingDeadline, DrainingName, StripSlashes, NameUsed, Carries;
  }

  /** Any step but a drain's command. */
  lemma OthersLeaveAlike(s: State, step: Step, id: nat)
    requires Inv(s) && Enabled(s, step) && !step.Do? && id in s.known
    ensures Alike(s.containers, Apply(s, step).containers, id)
  {
    hide DrainingDeadline, DrainingName, StripSlashes, Sound, Inspected;
  }

  lemma OthersKeepNames(s: State, step: Step)
    requires Inv(s) && Enabled(s, step) && !step.Do?
    ensures var t := Apply(s, step); 0.0 <= t.clock && t.containers.Keys <= t.known && Named(t.containers) && s.known <= t.known
  {
    hide DrainingDeadline, DrainingName, StripSlashes, Sound, Inspected;
  }

  lemma DrainsAfter(s: State, step: Step, command: Command)
    requires Inv(s) && Enabled(s, step) && command in Apply(s, step).drains && command !in s.drains
    ensures command.id in s.known && Sound(Apply(s, step).containers, command)
  {
    if step.Inspect? {
      InspectedIsSound(s.containers, step.id, Deadline(s.clock, step.grace));
    } else if step.Do? {
      FollowingIsSound(s.containers, step.command);
    }
    hide DrainingDeadline, DrainingName, StripSlashes, Sound, NameUsed, Swept, Exited;
  }

  lemma InvKept(s: State, step: Step)
    requires Inv(s) && Enabled(s, step)
    ensures Inv(Apply(s, step))
  {
    var t := Apply(s, step);
    if step.Do? {
      CommandedIsNamed(s.containers, step.command);
    } else {
      OthersKeepNames(s, step);
    }
    forall command | command in t.drains ensures command.id in t.known && Sound(t.containers, command) {
      if command !in s.drains {
        DrainsAfter(s, step, command);
      } else if step.Do? {
        StaysSound(s.containers, step.command, command);
      } else {
        OthersLeaveAlike(s, step, command.id);
        AlikeIsSound(s.containers, t.containers, command);
      }
    }
    hide Commanded, Following, Inspected, Sound, Named, Swept, Exited;
  }

  lemma {:induction false} InvHolds(states: seq<State>, steps: seq<Step>, k: nat)
    requires Run(states, steps) && k < |states|
    ensures Inv(states[k])
  {
    if 0 < k {
      InvHolds(states, steps, k - 1);
      assert Taken(states, steps, k - 1);
      InvKept(states[k - 1], steps[k - 1]);
    }
  }

  /** Over every run, a drain removes no running container, and signals none that Docker would
      start again, wherever other drains of it have got to or stopped. */
  lemma DrainsAreGentle(states: seq<State>, steps: seq<Step>, k: nat, id: nat)
    requires Run(states, steps) && k < |steps| && steps[k].Do? && id in states[k].containers
    ensures states[k].containers[id].running ==> id in states[k + 1].containers && states[k + 1].containers[id].running
    ensures steps[k].command == Signal(id) ==> !states[k].containers[id].restarts
  {
    InvHolds(states, steps, k);
    assert Taken(states, steps, k) && Sound(states[k].containers, steps[k].command);
    hide DrainingDeadline, DrainingName, StripSlashes, NameUsed, Carries, Inv, Following;
  }

  // One draining container

  /** The container is running under the draining name it was given. */
  predicate IsDraining(s: State, id: nat, name: string, deadline: nat) {
    id in s.containers && s.containers[id].running && s.containers[id].owned
    && s.containers[id].name == DrainingName(name, deadline)
  }

  /** A drain that inspected the container before it had its draining name renames it. */
  predicate Renames(s: State, step: Step, id: nat) {
    step.Do? && step.command.Rename? && step.command.id == id && !Refused(s.containers, step.command)
  }

  lemma RenameMoves(s: State, step: Step, id: nat, name: string, deadline: nat)
    requires Inv(s) && Enabled(s, step) && IsDraining(s, id, name, deadline) && StripSlashes(name) != [] && DrainingDeadline(name).None?
    requires Renames(s, step, id)
    ensures IsDraining(Apply(s, step), id, name, step.command.deadline) && step.command.deadline != deadline
  {
    assert Sound(s.containers, step.command);
    SameOwnName(s.containers[id].name, name, step.command.name);
    hide DrainingDeadline, DrainingName, StripSlashes;
  }

  lemma CommandLeaves(s: State, step: Step, id: nat, name: string, deadline: nat)
    requires Inv(s) && Enabled(s, step) && IsDraining(s, id, name, deadline) && step.Do? && !Renames(s, step, id)
    ensures IsDraining(Apply(s, step), id, name, deadline)
  {
    assert Sound(s.containers, step.command);
    hide DrainingDeadline, DrainingName, StripSlashes, NameUsed, Carries, Following, Named;
  }

  /** One step of a draining container: it is left as it is, unless it exits, a sweep finds its
      deadline passed, or another drain, that inspected it before, renames it. */
  lemma DrainingStep(s: State, step: Step, id: nat, name: string, deadline: nat)
    requires Inv(s) && Enabled(s, step) && IsDraining(s, id, name, deadline) && StripSlashes(name) != [] && DrainingDeadline(name).None?
    ensures step == Sweep ==> (id in Apply(s, step).containers <==> s.clock < deadline as real)
    ensures step == Exit(id) || (step == Sweep && deadline as real <= s.clock) || Renames(s, step, id)
            || IsDraining(Apply(s, step), id, name, deadline)
    ensures Renames(s, step, id) ==>
              IsDraining(Apply(s, step), id, name, step.command.deadline) && step.command.deadline != deadline
  {
    DeadlineReadsBack(name, deadline);
    if Renames(s, step, id) {
      RenameMoves(s, step, id, name, deadline);
    } else if step.Do? {
      CommandLeaves(s, step, id, name, deadline);
    } else {
      hide DrainingName, StripSlashes, NameUsed, Sound, Named, Inspected, Commanded, Renames;
    }
  }

  /** No drain under way has this container still to rename. */
  predicate NoneToRename(s: State, id: nat) {
    forall command | command in s.drains :: !(command.Rename? && command.id == id)
  }

  /** A container that is draining gives no later drain a rename to make. */
  lemma NoNewRename(s: State, step: Step, id: nat, name: string, deadline: nat)
    requires Enabled(s, step) && 0.0 <= s.clock && IsDraining(s, id, name, deadline) && StripSlashes(name) != []
    requires NoneToRename(s, id)
    ensures NoneToRename(Apply(s, step), id) && !Renames(s, step, id)
  {
    DeadlineReadsBack(name, deadline);
    hide DrainingDeadline, DrainingName, StripSlashes, NameUsed, Swept, Exited;
  }

  /** Over every run, a draining container that no drain under way has still to rename stays up
      under one name until it exits by itself, however often it is drained again; the first sweep
      at or after its deadline removes it, and none before does. */
  lemma {:induction false} DeadlineIsKept(states: seq<State>, steps: seq<Step>, id: nat, name: string, deadline: nat, k: nat)
    requires Run(states, steps) && k < |states| && StripSlashes(name) != [] && DrainingDeadline(name).None?
    requires IsDraining(states[0], id, name, deadline) && NoneToRename(states[0], id)
    requires forall i | 0 <= i < k :: steps[i] != Exit(id)
    requires forall i | 0 <= i < k :: steps[i] == Sweep ==> states[i].clock < deadline as real
    ensures IsDraining(states[k], id, name, deadline) && NoneToRename(states[k], id)
    ensures k < |steps| && steps[k] == Sweep ==>
              (id in states[k + 1].containers <==> states[k].clock < deadline as real)
    decreases k
  {
    hide DrainingDeadline, DrainingName, StripSlashes, Apply, Enabled, NoneToRename, IsDraining, Inv;
    InvHolds(states, steps, k);
    if 0 < k {
      assert Taken(states, steps, k - 1);
      DeadlineIsKept(states, steps, id, name, deadline, k - 1);
      InvHolds(states, steps, k - 1);
      NoNewRename(states[k - 1], steps[k - 1], id, name, deadline);
      DrainingStep(states[k - 1], steps[k - 1], id, name, deadline);
    }
    if k < |steps| {
      assert Taken(states, steps, k);
      DrainingStep(states[k], steps[k], id, name, deadline);
    }
  }

  /** The step inspects a container for a drain that goes on with this rename. */
  predicate Begins(s: State, step: Step, rename: Command) {
    && rename.Rename? && step.Inspect? && step.id == rename.id && rename.id in s.containers
    && rename.name == s.containers[rename.id].name && 0.0 <= s.clock && rename.deadline == Deadline(s.clock, step.grace)
  }

  lemma RenameJoins(s: State, step: Step, rename: Command)
    requires Enabled(s, step) && 0.0 <= s.clock && rename.Rename? && rename in Apply(s, step).drains && rename !in s.drains
    ensures Begins(s, step, rename)
  {
    hide DrainingDeadline, NameUsed, Swept, Exited;
  }

  /** The deadline and name a rename writes are those of the inspection its drain began with. */
  lemma {:induction false} RenameWasInspected(states: seq<State>, steps: seq<Step>, k: nat, rename: Command) returns (i: nat)
    requires Run(states, steps) && k < |states| && states[0].drains == multiset{}
    requires rename.Rename? && rename in states[k].drains
    ensures i < k && Begins(states[i], steps[i], rename)
  {
    hide Apply, Enabled, Inv;
    i := k - 1;
    assert Taken(states, steps, i);
    if rename in states[i].drains {
      i := RenameWasInspected(states, steps, k - 1, rename);
    } else {
      RenameJoins(states[i], steps[i], rename);
    }
  }

  lemma Later(states: seq<State>, steps: seq<Step>, m: nat)
    requires Run(states, steps) && m < |states|
    ensures Run(states[m..], steps[m..])
  {
    InvHolds(states, steps, m);
    hide Inv, Enabled, Apply;
    forall i | 0 <= i < |steps[m..]| ensures Taken(states[m..], steps[m..], i) {
      assert Taken(states, steps, m + i);
    }
  }

  /** Over every run: a running container is renamed by a drain, and no other drain of it that had
      inspected it by then goes on later. It lives on under its name and the deadline counted from
      that drain's inspection, whether or not the drain goes on, until it exits by itself or a
      sweep finds the deadline passed; that sweep removes it, and none before does. */
  lemma GraceIsGiven(states: seq<State>, steps: seq<Step>, m: nat, id: nat, k: nat) returns (i: nat)
    requires Run(states, steps) && states[0].drains == multiset{} && m < k < |states|
    requires Renames(states[m], steps[m], id) && states[m].containers[id].running && states[m].containers[id].owned
    requires forall other | other in states[m].drains - multiset{steps[m].command} :: !(other.Rename? && other.id == id)
    requires forall j | m < j < k :: steps[j] != Exit(id)
    requires forall j | m < j < k :: steps[j] == Sweep ==> states[j].clock < steps[m].command.deadline as real
    ensures i < m && Begins(states[i], steps[i], steps[m].command)
    ensures IsDraining(states[k], id, steps[m].command.name, steps[m].command.deadline)
    ensures k < |steps| && steps[k] == Sweep ==>
              (id in states[k + 1].containers <==> states[k].clock < steps[m].command.deadline as real)
  {
    hide Apply, DrainingDeadline, StripSlashes, NoneToRename, IsDraining, Inv, Carries, Refused, Begins;
    var rename := steps[m].command;
    InvHolds(states, steps, m);
    assert Taken(states, steps, m);
    RenameDrains(states[m], rename);
    i := RenameWasInspected(states, steps, m, rename);
    Later(states, steps, m + 1);
    hide Enabled, Taken, Renames, Run;
    DeadlineIsKept(states[m + 1..], steps[m + 1..], id, rename.name, rename.deadline, k - m - 1);
  }

  lemma RenameDrains(s: State, rename: Command)
    requires Inv(s) && Enabled(s, Do(rename)) && Renames(s, Do(rename), rename.id)
    requires s.containers[rename.id].running && s.containers[rename.id].owned
    requires forall other | other in s.drains - multiset{rename} :: !(other.Rename? && other.id == rename.id)
    ensures var after := Apply(s, Do(rename));
            IsDraining(after, rename.id, rename.name, rename.deadline) && NoneToRename(after, rename.id)
    ensures rename in s.drains && StripSlashes(rename.name) != [] && DrainingDeadline(rename.name).None?
  {
    assert Sound(s.containers, rename);
    hide DrainingDeadline, DrainingName, StripSlashes, NameUsed, Carries;
  }

  /** A host with one running worker, and drains under way. */
  function OneWorker(name: string, clock: nat, drains: multiset<Command>): State {
    State(map[0 := Container(name, true, true, "", true, "", true)], clock as real, {0}, drains)
  }

  predicate Leads(s: State, step: Step, t: State) {
    Enabled(s, step) && 0.0 <= s.clock && t == Apply(s, step)
  }

  lemma InspectAt(name: string, clock: nat, grace: nat, drains: multiset<Command>)
    requires DrainingDeadline(name).None?
    ensures Leads(OneWorker(name, clock, drains), Inspect(0, grace),
                  OneWorker(name, clock, drains + multiset{Rename(0, name, clock + grace)}))
  {
    assert Deadline(clock as real, grace) == clock + grace;
    hide DrainingDeadline, DrainingName;
  }

  lemma WaitFrom(name: string, seconds: nat, drains: multiset<Command>)
    ensures Leads(OneWorker(name, 0, drains), Wait(seconds as real), OneWorker(name, seconds, drains))
  {
  }

  lemma RenameAt(seen: string, name: string, deadline: nat, clock: nat, drains: multiset<Command>)
    requires Rename(0, name, deadline) in drains && seen != DrainingName(name, deadline)
    ensures Leads(OneWorker(seen, clock, drains), Do(Rename(0, name, deadline)),
                  OneWorker(DrainingName(name, deadline), clock, drains - multiset{Rename(0, name, deadline)} + multiset{ClearRestart(0)}))
  {
    hide DrainingName;
  }

  lemma StartsRun(s: State)
    requires Inv(s)
    ensures Run([s], [])
  {
  }

  lemma RunMore(states: seq<State>, steps: seq<Step>, step: Step, t: State) returns (states': seq<State>, steps': seq<Step>)
    requires Run(states, steps) && Leads(states[|steps|], step, t)
    ensures Run(states', steps') && states' == states + [t] && steps' == steps + [step]
  {
    hide Apply, Enabled, Inv;
    states', steps' := states + [t], steps + [step];
    forall i | 0 <= i < |steps'| ensures Taken(states', steps', i) {
      if i < |steps| {
        assert Taken(states, steps, i);
      }
    }
  }

  lemma NamesDiffer(name: string, a: nat, b: nat)
    requires StripSlashes(name) != [] && DrainingDeadline(name).None? && a != b
    ensures name != DrainingName(name, a) && DrainingName(name, a) != DrainingName(name, b)
  {
    DeadlineReadsBack(name, a);
    DeadlineReadsBack(name, b);
  }

  lemma WorkerIsSound(name: string)
    requires StripSlashes(name) != []
    ensures Inv(OneWorker(name, 0, multiset{}))
  {
  }

  /** Two drains of one worker that overlap, whatever its name and however far apart: both inspect
      it before either renames it, and the second rename moves the deadline the first one gave. */
  lemma OverlapMovesDeadline(name: string, grace: nat, apart: nat) returns (states: seq<State>, steps: seq<Step>)
    requires StripSlashes(name) != [] && DrainingDeadline(name).None? && 0 < apart
    ensures Run(states, steps) && states[0].drains == multiset{} && |steps| == 5
    ensures IsDraining(states[4], 0, name, grace) && IsDraining(states[5], 0, name, apart + grace)
  {
    hide Run, Inv, Leads, DrainingDeadline, DrainingName, StripSlashes;
    NamesDiffer(name, grace, apart + grace);
    var first, second := Rename(0, name, grace), Rename(0, name, apart + grace);
    var one := multiset{} + multiset{first};
    var both := one + multiset{second};
    var left := both - multiset{first} + multiset{ClearRestart(0)};
    WorkerIsSound(name);
    states, steps := [OneWorker(name, 0, multiset{})], [];
    StartsRun(states[0]);
    InspectAt(name, 0, grace, multiset{});
    states, steps := RunMore(states, steps, Inspect(0, grace), OneWorker(name, 0, one));
    WaitFrom(name, apart, one);
    states, steps := RunMore(states, steps, Wait(apart as real), OneWorker(name, apart, one));
    InspectAt(name, apart, grace, one);
    states, steps := RunMore(states, steps, Inspect(0, grace), OneWorker(name, apart, both));
    assert first in both && second in left;
    RenameAt(name, name, grace, apart, both);
    states, steps := RunMore(states, steps, Do(first), OneWorker(DrainingName(name, grace), apart, left));
    RenameAt(DrainingName(name, grace), name, apart + grace, apart, left);
    states, steps := RunMore(states, steps, Do(second),
                             OneWorker(DrainingName(name, apart + grace), apart, left - multiset{second} + multiset{ClearRestart(0)}));
  }

  /** A moment within the grace asked for at `now`, at which the cut deadline has passed. */
  predicate IsEarly(moment: real, now: real, grace: nat)
    requires 0.0 <= now
  {
    now <= moment < now + grace as real && Deadline(now, grace) as real <= moment
  }

  /** The deadline is cut to a whole second, so it can fall before the full grace has passed,
      by less than a second: exactly when a grace is given and `now` is not a whole second. */
  lemma CutIsEarlyIff(now: real, grace: nat)
    requires 0.0 <= now
    ensures (exists moment :: IsEarly(moment, now, grace)) <==> 1 <= grace && now != now.Floor as real
    ensures forall moment | IsEarly(moment, now, grace) :: now + grace as real - 1.0 < moment
  {
    assert Deadline(now, grace) == now.Floor + grace;
    if 1 <= grace && now != now.Floor as real {
      var deadline := Deadline(now, grace) as real;
      assert IsEarly(if now <= deadline then deadline else now, now, grace);
    }
  }

  /** A sweep kills a draining container within the grace it was given only at such a moment. */
  lemma KilledEarlyIff(c: Container, name: string, now: real, grace: nat, moment: real)
    requires 0.0 <= now <= moment && c.owned && c.running && StripSlashes(name) != []
    requires c.name == DrainingName(name, Deadline(now, grace))
    ensures IsEarly(moment, now, grace) <==> Doomed(c, moment) && moment < now + grace as real
  {
    DeadlineReadsBack(name, Deadline(now, grace));
  }
}
