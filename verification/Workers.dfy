/** Bringing a project's worker containers onto one image. */
module Workers {
  import opened Wrappers
  import opened Naming
  import opened Docker

  datatype Kind = Web | Worker | Cron

  datatype Process = Process(name: string, kind: Kind, enabled: bool, replicas: nat)

  /** What a drain meets: the time, and whether the container stops by itself before it is signalled. */
  datatype Moment = Moment(now: real, exits: bool)

  /** One reconciliation; `at` gives the moment the container of each name is drained. */
  datatype Plan = Plan(project: string, image: string, grace: nat, at: string -> Moment)

  datatype Refusal = NoImage | NameInUse

  predicate LongRunning(p: Process) {
    p.kind == Worker && p.enabled
  }

  function ReplicaNames(slug: string, process: string, replicas: nat): set<string> {
    set r | 0 <= r < replicas :: WorkerName(slug, process, r)
  }

  function Wanted(slug: string, processes: seq<Process>): set<string> {
    if processes == [] then {}
    else
      var last := processes[|processes| - 1];
      Wanted(slug, processes[..|processes| - 1])
      + if LongRunning(last) then ReplicaNames(slug, last.name, last.replicas) else {}
  }

  function Replicas(processes: seq<Process>): nat {
    if processes == [] then 0
    else
      var last := processes[|processes| - 1];
      Replicas(processes[..|processes| - 1]) + if LongRunning(last) then last.replicas else 0
  }

  lemma {:induction false} ReplicaNamesCount(slug: string, process: string, replicas: nat)
    ensures |ReplicaNames(slug, process, replicas)| == replicas
  {
    if 0 < replicas {
      ReplicaNamesCount(slug, process, replicas - 1);
      var name := WorkerName(slug, process, replicas - 1);
      assert ReplicaNames(slug, process, replicas) == ReplicaNames(slug, process, replicas - 1) + {name};
      forall r | 0 <= r < replicas - 1 ensures WorkerName(slug, process, r) != name {
        WorkerNamesCollideIff(slug, process, r, slug, process, replicas - 1);
      }
    }
  }

  lemma {:induction false} WantedNamed(slug: string, processes: seq<Process>, name: string)
    requires name in Wanted(slug, processes)
    ensures exists i, r: nat :: 0 <= i < |processes| && LongRunning(processes[i]) && r < processes[i].replicas
                                && name == WorkerName(slug, processes[i].name, r)
    ensures DrainingDeadline(name).None?
  {
    var n := |processes| - 1;
    if name in Wanted(slug, processes[..n]) {
      WantedNamed(slug, processes[..n], name);
      var i, r: nat :| 0 <= i < n && LongRunning(processes[..n][i]) && r < processes[..n][i].replicas
                       && name == WorkerName(slug, processes[..n][i].name, r);
      assert processes[..n][i] == processes[i];
    } else {
      var r: nat :| r < processes[n].replicas && name == WorkerName(slug, processes[n].name, r);
      WorkerNameIsNotDraining(slug, processes[n].name, r);
    }
  }

  /** Wanted are exactly the replicas of the processes that are workers and enabled, as many as each
      asks for: no paused worker, no job and no site. */
  lemma {:induction false} WantedIff(slug: string, processes: seq<Process>, name: string)
    ensures name in Wanted(slug, processes) <==>
            exists i, r: nat :: 0 <= i < |processes| && processes[i].kind == Worker && processes[i].enabled
                                && r < processes[i].replicas && name == WorkerName(slug, processes[i].name, r)
  {
    hide WorkerName;
    if processes != [] {
      var n := |processes| - 1;
      WantedIff(slug, processes[..n], name);
      if name in Wanted(slug, processes[..n]) {
        var i, r: nat :| 0 <= i < n && processes[..n][i].kind == Worker && processes[..n][i].enabled
                         && r < processes[..n][i].replicas && name == WorkerName(slug, processes[..n][i].name, r);
        assert processes[..n][i] == processes[i];
      }
      if i, r: nat :| 0 <= i < |processes| && processes[i].kind == Worker && processes[i].enabled
                      && r < processes[i].replicas && name == WorkerName(slug, processes[i].name, r) {
        if i < n {
          assert processes[..n][i] == processes[i];
        }
      }
    }
  }

  /** One name per replica of each enabled worker: no two of them share one, a process being
      named once in its project. */
  lemma {:induction false} WantedCount(slug: string, processes: seq<Process>)
    requires forall i, j | 0 <= i < j < |processes| :: processes[i].name != processes[j].name
    ensures |Wanted(slug, processes)| == Replicas(processes)
  {
    if processes != [] {
      var n := |processes| - 1;
      var last := processes[n];
      WantedCount(slug, processes[..n]);
      ReplicaNamesCount(slug, last.name, last.replicas);
      forall name | name in Wanted(slug, processes[..n])
        ensures name !in ReplicaNames(slug, last.name, last.replicas)
      {
        WantedNamed(slug, processes[..n], name);
        var i, r: nat :| 0 <= i < n && r < processes[..n][i].replicas
                         && name == WorkerName(slug, processes[..n][i].name, r);
        forall q: nat ensures name != WorkerName(slug, last.name, q) {
          WorkerNamesCollideIff(slug, processes[i].name, r, slug, last.name, q);
        }
      }
    }
  }

  /** The project's own worker containers, running or not, that are not on their way out. */
  predicate IsCurrent(c: Container, project: string) {
    c.project == project && c.worker && DrainingDeadline(c.name).None?
  }

  function Existing(cs: Containers, project: string): set<string> {
    set id | id in cs && IsCurrent(cs[id], project) :: cs[id].name
  }

  /** No name is a slash or nothing; Docker gives none such. */
  ghost predicate RealNames(cs: Containers) {
    forall id | id in cs :: StripSlashes(cs[id].name) != []
  }

  /** What becomes of a container, given the names drained and the names started so far. */
  function Fate(c: Container, plan: Plan, drained: set<string>, started: set<string>): Option<Container>
    requires 0.0 <= plan.at(c.name).now
  {
    if c.name in drained then
      var moment := plan.at(c.name);
      if c.running && !moment.exits then Some(Asked(c, Deadline(moment.now, plan.grace))) else None
    else if c.name in started then None
    else Some(c)
  }

  ghost predicate Clocked(plan: Plan) {
    forall name :: 0.0 <= plan.at(name).now
  }

  ghost predicate OldMeetFate(before: Containers, cs: Containers, plan: Plan, drained: set<string>, started: set<string>)
    requires Clocked(plan)
  {
    forall id | id in before ::
      Fate(before[id], plan, drained, started) == if id in cs then Some(cs[id]) else None
  }

  ghost predicate NewAreStarted(before: Containers, cs: Containers, plan: Plan, started: set<string>) {
    && (forall id | id in cs && id !in before ::
          cs[id].name in started && cs[id] == NewWorker(cs[id].name, plan.image, plan.project))
    && (forall name | name in started :: Runs(before, cs, name))
  }

  ghost predicate Runs(before: Containers, cs: Containers, name: string) {
    exists id :: id in cs && id !in before && cs[id].name == name
  }

  /** The containers, once those named in `drained` were asked to stop and those in `started` started. */
  ghost predicate Reached(before: Containers, cs: Containers, plan: Plan, drained: set<string>, started: set<string>)
    requires Clocked(plan)
  {
    && OldMeetFate(before, cs, plan, drained, started)
    && NewAreStarted(before, cs, plan, started)
    && (forall name | name in drained + started :: DrainingDeadline(name).None?)
  }

  /** Draining this container fails: its new name is taken. */
  ghost predicate Clash(cs: Containers, id: nat, plan: Plan)
    requires Clocked(plan) && id in cs
  {
    RenameFails(cs, id, Deadline(plan.at(cs[id].name).now, plan.grace))
  }

  /** A container not reached yet is as it was, and its drain fails exactly when it would have at first. */
  lemma Untouched(before: Containers, cs: Containers, plan: Plan, drained: set<string>, started: set<string>, id: nat)
    requires Clocked(plan) && UniqueNames(before) && Reached(before, cs, plan, drained, started)
    requires id in before && before[id].name !in drained + started && RealNames(before)
    ensures id in cs && cs[id] == before[id]
    ensures Clash(cs, id, plan) <==> Clash(before, id, plan)
  {
    assert Fate(before[id], plan, drained, started) == Some(before[id]);
    var deadline := Deadline(plan.at(before[id].name).now, plan.grace);
    var taken := DrainingName(before[id].name, deadline);
    DeadlineReadsBack(before[id].name, deadline);
    if other :| other in before && before[other].name == taken {
      assert Fate(before[other], plan, drained, started) == Some(before[other]);
      assert cs[other].name == taken;
    }
    if other :| other in cs && cs[other].name == taken {
      if other in before && before[other].name in drained {
        DrainingNameInjective(before[other].name, Deadline(plan.at(before[other].name).now, plan.grace), before[id].name, deadline);
        assert false;
      } else {
        assert other in before && Fate(before[other], plan, drained, started) == Some(cs[other]);
        assert before[other].name == taken;
      }
    }
  }

  lemma DrainMeetsFate(before: Containers, cs: Containers, plan: Plan, drained: set<string>, started: set<string>, id: nat)
    requires Clocked(plan) && UniqueNames(before) && OldMeetFate(before, cs, plan, drained, started)
    requires id in before && before[id].name !in drained + started
    requires id in cs && cs[id] == before[id] && !Clash(cs, id, plan)
    ensures var moment := plan.at(before[id].name);
            OldMeetFate(before, Drained(cs, id, Deadline(moment.now, plan.grace), moment.exits), plan,
                        drained + {before[id].name}, started)
  {
    hide DrainingDeadline, DrainingName, Deadline;
    var name := before[id].name;
    var moment := plan.at(name);
    var cs' := Drained(cs, id, Deadline(moment.now, plan.grace), moment.exits);
    forall other | other in before
      ensures Fate(before[other], plan, drained + {name}, started) == if other in cs' then Some(cs'[other]) else None
    {
      assert Fate(before[other], plan, drained, started) == if other in cs then Some(cs[other]) else None;
      assert before[other].name == name <==> other == id;
    }
  }

  lemma DrainTurn(before: Containers, cs: Containers, plan: Plan, drained: set<string>, started: set<string>, id: nat)
    requires Clocked(plan) && UniqueNames(before) && Reached(before, cs, plan, drained, started)
    requires id in before && before[id].name !in drained + started && DrainingDeadline(before[id].name).None?
    requires id in cs && cs[id] == before[id] && !Clash(cs, id, plan)
    ensures var moment := plan.at(before[id].name);
            Reached(before, Drained(cs, id, Deadline(moment.now, plan.grace), moment.exits), plan,
                    drained + {before[id].name}, started)
  {
    DrainMeetsFate(before, cs, plan, drained, started, id);
    hide DrainingDeadline, DrainingName, Deadline, OldMeetFate, NewAreStarted, Clash;
    var moment := plan.at(before[id].name);
    NewStay(before, cs, Drained(cs, id, Deadline(moment.now, plan.grace), moment.exits), plan, started);
  }

  /** Draining touches no container started since. */
  lemma NewStay(before: Containers, cs: Containers, cs': Containers, plan: Plan, started: set<string>)
    requires NewAreStarted(before, cs, plan, started)
    requires forall other | other !in before :: other in cs' <==> other in cs
    requires forall other | other in cs' && other !in before :: cs'[other] == cs[other]
    ensures NewAreStarted(before, cs', plan, started)
  {
    forall n | n in started ensures Runs(before, cs', n) {
      assert Runs(before, cs, n);
      var other :| other in cs && other !in before && cs[other].name == n;
      assert other in cs' && cs'[other] == cs[other];
    }
  }

  function Started(cs: Containers, id: nat, name: string, plan: Plan): Containers {
    (map other | other in cs && cs[other].name != name :: cs[other])[id := NewWorker(name, plan.image, plan.project)]
  }

  lemma StartMeetsFate(before: Containers, cs: Containers, plan: Plan, drained: set<string>, started: set<string>, id: nat, name: string)
    requires Clocked(plan) && RealNames(before) && OldMeetFate(before, cs, plan, drained, started)
    requires id !in before && DrainingDeadline(name).None?
    requires forall n | n in drained :: DrainingDeadline(n).None?
    ensures OldMeetFate(before, Started(cs, id, name, plan), plan, drained, started + {name})
  {
    hide DrainingDeadline, DrainingName, StripSlashes, Deadline;
    var cs' := Started(cs, id, name, plan);
    forall other | other in before
      ensures Fate(before[other], plan, drained, started + {name}) == if other in cs' then Some(cs'[other]) else None
    {
      var c := before[other];
      assert Fate(c, plan, drained, started) == if other in cs then Some(cs[other]) else None;
      if c.name in drained && other in cs {
        DeadlineReadsBack(c.name, Deadline(plan.at(c.name).now, plan.grace));
        assert cs[other].name != name;
      }
    }
  }

  lemma StartTurn(before: Containers, cs: Containers, plan: Plan, drained: set<string>, started: set<string>, id: nat, name: string)
    requires Clocked(plan) && RealNames(before) && Reached(before, cs, plan, drained, started)
    requires id !in before && id !in cs && name !in started && DrainingDeadline(name).None?
    ensures Reached(before, Started(cs, id, name, plan), plan, drained, started + {name})
  {
    StartMeetsFate(before, cs, plan, drained, started, id, name);
    hide DrainingDeadline, OldMeetFate, NewAreStarted, RealNames;
    StartAddsNew(before, cs, plan, started, id, name);
  }

  lemma StartAddsNew(before: Containers, cs: Containers, plan: Plan, started: set<string>, id: nat, name: string)
    requires NewAreStarted(before, cs, plan, started) && id !in before && id !in cs && name !in started
    ensures NewAreStarted(before, Started(cs, id, name, plan), plan, started + {name})
  {
    var cs' := Started(cs, id, name, plan);
    forall n | n in started + {name} ensures Runs(before, cs', n) {
      if n == name {
        assert id in cs' && cs'[id].name == n;
      } else {
        assert Runs(before, cs, n);
        var other :| other in cs && other !in before && cs[other].name == n;
        assert other in cs' && cs'[other] == cs[other];
      }
    }
  }

  /** The state of a daemon part of the way through a plan. */
  ghost predicate During(d: Daemon, before: Containers, plan: Plan, drained: set<string>, started: set<string>)
    reads d
    requires Clocked(plan)
  {
    d.Valid() && Reached(before, d.containers, plan, drained, started)
    && forall id | id in before :: id < d.nextId
  }

  /** Drains the container of a name, if there is one. */
  method DrainNamed(d: Daemon, name: string, plan: Plan, ghost before: Containers, ghost drained: set<string>, ghost started: set<string>)
      returns (ok: bool)
    requires Clocked(plan) && UniqueNames(before) && RealNames(before)
    requires During(d, before, plan, drained, started)
    requires name !in drained + started && DrainingDeadline(name).None?
    modifies d`containers
    ensures ok ==> During(d, before, plan, drained + {name}, started)
    ensures !ok ==> During(d, before, plan, drained, started)
    ensures ok <==> forall id | id in before && before[id].name == name :: !Clash(before, id, plan)
  {
    hide DrainingDeadline, DrainingName, StripSlashes, Deadline;
    var id := d.Find(name);
    if id.None? {
      ghost var cs := d.containers;
      assert forall other | other in before :: before[other].name != name by {
        forall other | other in before ensures before[other].name != name {
          assert Fate(before[other], plan, drained, started) == if other in cs then Some(cs[other]) else None;
        }
      }
      return true;
    }
    HolderIsOld(before, d.containers, plan, drained, started, id.value);
    Untouched(before, d.containers, plan, drained, started, id.value);
    if !Clash(before, id.value, plan) {
      DrainTurn(before, d.containers, plan, drained, started, id.value);
    }
    ok := d.Drain(id.value, plan.grace, plan.at(name).now, plan.at(name).exits);
  }

  /** Whoever holds a name not reached yet held it from the start. */
  lemma HolderIsOld(before: Containers, cs: Containers, plan: Plan, drained: set<string>, started: set<string>, id: nat)
    requires Clocked(plan) && RealNames(before) && Reached(before, cs, plan, drained, started)
    requires id in cs && cs[id].name !in drained + started && DrainingDeadline(cs[id].name).None?
    ensures id in before && before[id].name == cs[id].name
  {
    if id in before {
      assert Fate(before[id], plan, drained, started) == Some(cs[id]);
      if before[id].name in drained {
        DeadlineReadsBack(before[id].name, Deadline(plan.at(before[id].name).now, plan.grace));
        assert false;
      }
    }
  }

  /** Starts a worker under a name no container of this plan was started under. */
  method StartNamed(d: Daemon, name: string, plan: Plan, ghost before: Containers, ghost drained: set<string>, ghost started: set<string>)
    requires Clocked(plan) && RealNames(before)
    requires During(d, before, plan, drained, started)
    requires name !in started && DrainingDeadline(name).None?
    modifies d
    ensures During(d, before, plan, drained, started + {name})
  {
    StartTurn(before, d.containers, plan, drained, started, d.nextId, name);
    var id := d.RunWorker(name, plan.image, plan.project);
    assert d.containers == Started(old(d.containers), id, name, plan);
  }

  ghost predicate NoClash(before: Containers, plan: Plan, names: set<string>)
    requires Clocked(plan)
  {
    forall id | id in before && before[id].name in names :: !Clash(before, id, plan)
  }

  predicate NoneDraining(names: set<string>) {
    forall name | name in names :: DrainingDeadline(name).None?
  }

  /** Drains the holder of each name in turn, up to the first whose new name is taken. */
  method DrainAll(d: Daemon, names: set<string>, plan: Plan, ghost before: Containers) returns (ok: bool, ghost drained: set<string>)
    requires Clocked(plan) && UniqueNames(before) && RealNames(before) && NoneDraining(names)
    requires During(d, before, plan, {}, {})
    modifies d`containers
    ensures During(d, before, plan, drained, {}) && drained <= names
    ensures ok ==> drained == names
    ensures ok <==> NoClash(before, plan, names)
  {
    hide Clash, Reached, RealNames, UniqueNames, DrainingDeadline;
    drained := {};
    var rest := names;
    while rest != {}
      invariant rest <= names && drained == names - rest
      invariant During(d, before, plan, drained, {})
      invariant NoClash(before, plan, drained)
      decreases |rest|
    {
      var name :| name in rest;
      ok := DrainNamed(d, name, plan, before, drained, {});
      if !ok {
        return;
      }
      drained := drained + {name};
      rest := rest - {name};
    }
    return true, drained;
  }

  /** Names in `gone` are drained and all of `wanted` but `rest` replaced, without a clash among the latter. */
  ghost predicate Replacing(d: Daemon, before: Containers, plan: Plan, gone: set<string>, existing: set<string>,
                            wanted: set<string>, rest: set<string>)
    reads d
    requires Clocked(plan)
  {
    && rest <= wanted && gone !! wanted
    && During(d, before, plan, gone + existing * (wanted - rest), wanted - rest)
    && NoClash(before, plan, existing * (wanted - rest))
  }

  /** One wanted name: its holder is asked to finish, and its successor started. */
  method ReplaceOne(d: Daemon, name: string, plan: Plan, existing: set<string>, ghost wanted: set<string>,
                    ghost rest: set<string>, ghost before: Containers, ghost gone: set<string>) returns (ok: bool)
    requires Clocked(plan) && UniqueNames(before) && RealNames(before) && NoneDraining(wanted)
    requires name in rest && Replacing(d, before, plan, gone, existing, wanted, rest)
    modifies d
    ensures ok ==> Replacing(d, before, plan, gone, existing, wanted, rest - {name})
    ensures !ok ==> During(d, before, plan, gone + existing * (wanted - rest), wanted - rest)
    ensures !ok ==> !NoClash(before, plan, existing * wanted)
  {
    ghost var started := wanted - rest;
    NextName(gone, existing, wanted, rest, name);
    hide Reached;
    if name in existing {
      ok := DrainNamed(d, name, plan, before, gone + existing * started, started);
      if !ok {
        return;
      }
      StartNamed(d, name, plan, before, gone + existing * started + {name}, started);
    } else {
      StartNamed(d, name, plan, before, gone + existing * started, started);
      ok := true;
    }
  }

  lemma NextName(gone: set<string>, existing: set<string>, wanted: set<string>, rest: set<string>, name: string)
    requires rest <= wanted && gone !! wanted && name in rest
    ensures wanted - (rest - {name}) == (wanted - rest) + {name}
    ensures name in existing ==>
              && gone + existing * (wanted - rest) + {name} == gone + existing * (wanted - (rest - {name}))
              && existing * (wanted - rest) + {name} == existing * (wanted - (rest - {name}))
    ensures name !in existing ==> existing * (wanted - rest) == existing * (wanted - (rest - {name}))
    ensures name !in gone + existing * (wanted - rest) + (wanted - rest)
  {
  }

  method ReplaceAll(d: Daemon, wanted: set<string>, existing: set<string>, plan: Plan, ghost before: Containers, ghost gone: set<string>)
      returns (ok: bool, count: nat, ghost rest: set<string>)
    requires Clocked(plan) && UniqueNames(before) && RealNames(before) && NoneDraining(wanted)
    requires During(d, before, plan, gone, {}) && gone !! wanted
    modifies d
    ensures During(d, before, plan, gone + existing * (wanted - rest), wanted - rest)
    ensures ok ==> rest == {} && count == |wanted|
    ensures ok <==> NoClash(before, plan, existing * wanted)
  {
    ReplacingAtFirst(d, before, plan, gone, existing, wanted);
    hide *;
    count := 0;
    var left := wanted;
    while left != {}
      invariant Replacing(d, before, plan, gone, existing, wanted, left)
      invariant count == |wanted| - |left|
      decreases |left|
    {
      var name :| name in left;
      ok := ReplaceOne(d, name, plan, existing, wanted, left, before, gone);
      if !ok {
        return false, count, left;
      }
      left := left - {name};
      count := count + 1;
    }
    ReplacingAtLast(d, before, plan, gone, existing, wanted);
    return true, count, {};
  }

  lemma ReplacingAtFirst(d: Daemon, before: Containers, plan: Plan, gone: set<string>, existing: set<string>, wanted: set<string>)
    requires Clocked(plan) && During(d, before, plan, gone, {}) && gone !! wanted
    ensures Replacing(d, before, plan, gone, existing, wanted, wanted)
  {
    assert wanted - wanted == {} && existing * {} == {} && gone + {} == gone;
  }

  lemma ReplacingAtLast(d: Daemon, before: Containers, plan: Plan, gone: set<string>, existing: set<string>, wanted: set<string>)
    requires Clocked(plan) && Replacing(d, before, plan, gone, existing, wanted, {})
    ensures During(d, before, plan, gone + existing * (wanted - {}), wanted - {}) && NoClash(before, plan, existing * wanted)
  {
    assert wanted - {} == wanted;
  }

  function PlanFor(slug: string, image: Option<string>, grace: nat, at: string -> Moment): Plan {
    Plan(slug, if image.Some? then image.value else "", grace, at)
  }

  /** What a reconciliation leaves: it completes exactly when no new name is taken and an image
      is there for whatever is wanted; it then drained every current worker and started every
      wanted one. Without an image it drains only what is not wanted. */
  ghost predicate Outcome(before: Containers, cs: Containers, slug: string, wanted: set<string>, image: Option<string>,
                          plan: Plan, r: Result<nat, Refusal>, drained: set<string>, started: set<string>)
    requires Clocked(plan)
  {
    && Reached(before, cs, plan, drained, started)
    && drained <= Existing(before, slug) && started <= wanted
    && (r.Ok? <==> NoClash(before, plan, Existing(before, slug)) && (image.Some? || wanted == {}))
    && (r.Ok? ==> drained == Existing(before, slug) && started == wanted && r.value == |wanted|)
    && (r == Err(NoImage) ==> image.None? && drained == Existing(before, slug) - wanted && started == {})
  }

  /** Drains what the deployment does not want, then replaces or starts every replica it does. */
  method Reconcile(d: Daemon, slug: string, processes: seq<Process>, image: Option<string>, grace: nat, at: string -> Moment)
      returns (r: Result<nat, Refusal>, ghost drained: set<string>, ghost started: set<string>)
    requires d.Valid() && RealNames(d.containers) && Clocked(PlanFor(slug, image, grace, at))
    modifies d
    ensures d.Valid()
    ensures Outcome(old(d.containers), d.containers, slug, Wanted(slug, processes), image,
                    PlanFor(slug, image, grace, at), r, drained, started)
  {
    var plan := PlanFor(slug, image, grace, at);
    ghost var before := d.containers;
    StartsReached(d, plan);
    hide *;
    var wanted := WantedNames(slug, processes);
    NoneAreDraining(before, slug, processes);
    r, drained, started := ReconcileNames(d, slug, wanted, image, plan, before);
  }

  method ReconcileNames(d: Daemon, slug: string, wanted: set<string>, image: Option<string>, plan: Plan, ghost before: Containers)
      returns (r: Result<nat, Refusal>, ghost drained: set<string>, ghost started: set<string>)
    requires Clocked(plan) && UniqueNames(before) && RealNames(before) && before == d.containers
    requires NoneDraining(wanted) && NoneDraining(Existing(before, slug) - wanted) && During(d, before, plan, {}, {})
    modifies d
    ensures d.Valid()
    ensures Outcome(before, d.containers, slug, wanted, image, plan, r, drained, started)
  {
    var existing := Existing(d.containers, slug);
    ClashesSplit(before, plan, existing, wanted);
    hide *;
    started := {};
    var ok: bool;
    ok, drained := DrainAll(d, existing - wanted, plan, before);
    ReachedNow(d, before, plan, drained, {});
    if !ok {
      r := Err(NameInUse);
    } else if wanted == {} {
      r := Ok(0);
    } else if image.None? {
      r := Err(NoImage);
    } else {
      var count: nat;
      ghost var rest: set<string>;
      ok, count, rest := ReplaceAll(d, wanted, existing, plan, before, drained);
      drained, started := drained + existing * (wanted - rest), wanted - rest;
      ReachedNow(d, before, plan, drained, started);
      r := if ok then Ok(count) else Err(NameInUse);
      ReplacedAll(before, d.containers, slug, wanted, image, plan, r, rest);
      return;
    }
    DrainedOnly(before, d.containers, slug, wanted, image, plan, r, drained);
  }

  lemma ReachedNow(d: Daemon, before: Containers, plan: Plan, drained: set<string>, started: set<string>)
    requires Clocked(plan) && During(d, before, plan, drained, started)
    ensures d.Valid() && Reached(before, d.containers, plan, drained, started)
  {
  }

  /** The outcomes that leave nothing started. */
  lemma DrainedOnly(before: Containers, cs: Containers, slug: string, wanted: set<string>, image: Option<string>,
                    plan: Plan, r: Result<nat, Refusal>, drained: set<string>)
    requires Clocked(plan) && Reached(before, cs, plan, drained, {}) && drained <= Existing(before, slug) - wanted
    requires NoClash(before, plan, Existing(before, slug)) <==>
             NoClash(before, plan, Existing(before, slug) - wanted) && NoClash(before, plan, Existing(before, slug) * wanted)
    requires r == Err(NameInUse) ==> !NoClash(before, plan, Existing(before, slug) - wanted)
    requires r != Err(NameInUse) ==> NoClash(before, plan, Existing(before, slug) - wanted) && drained == Existing(before, slug) - wanted
    requires r.Ok? ==> r.value == 0 && wanted == {}
    requires r == Err(NoImage) ==> image.None? && wanted != {}
    ensures Outcome(before, cs, slug, wanted, image, plan, r, drained, {})
  {
    hide Reached, NoClash, Existing;
    match r {
      case Ok(_) =>
      case Err(NoImage) =>
      case Err(NameInUse) =>
    }
    if wanted == {} {
      assert Existing(before, slug) - wanted == Existing(before, slug);
    }
  }

  /** The outcomes of starting what is wanted. */
  lemma ReplacedAll(before: Containers, cs: Containers, slug: string, wanted: set<string>, image: Option<string>,
                    plan: Plan, r: Result<nat, Refusal>, rest: set<string>)
    requires Clocked(plan) && image.Some?
    requires Reached(before, cs, plan, Existing(before, slug) - wanted + Existing(before, slug) * (wanted - rest), wanted - rest)
    requires NoClash(before, plan, Existing(before, slug)) <==> r.Ok?
    requires r.Ok? ==> rest == {} && r.value == |wanted|
    requires r.Err? ==> r.error == NameInUse
    ensures Outcome(before, cs, slug, wanted, image, plan, r,
                    Existing(before, slug) - wanted + Existing(before, slug) * (wanted - rest), wanted - rest)
  {
    hide Reached, NoClash, Existing;
    if r.Ok? {
      assert Existing(before, slug) - wanted + Existing(before, slug) * (wanted - rest) == Existing(before, slug);
      assert wanted - rest == wanted;
    }
  }

  lemma StartsReached(d: Daemon, plan: Plan)
    requires Clocked(plan) && d.Valid()
    ensures During(d, d.containers, plan, {}, {}) && UniqueNames(d.containers)
  {
  }

  lemma NoneAreDraining(cs: Containers, slug: string, processes: seq<Process>)
    ensures NoneDraining(Wanted(slug, processes)) && NoneDraining(Existing(cs, slug) - Wanted(slug, processes))
  {
    forall name | name in Wanted(slug, processes) ensures DrainingDeadline(name).None? {
      WantedNamed(slug, processes, name);
    }
  }

  lemma ClashesSplit(before: Containers, plan: Plan, existing: set<string>, wanted: set<string>)
    requires Clocked(plan)
    ensures NoClash(before, plan, existing) <==>
            NoClash(before, plan, existing - wanted) && NoClash(before, plan, existing * wanted)
    ensures wanted == {} ==> existing - wanted == existing && existing * wanted == {}
  {
  }

  method WantedNames(slug: string, processes: seq<Process>) returns (wanted: set<string>)
    ensures wanted == Wanted(slug, processes)
  {
    wanted := {};
    for i := 0 to |processes|
      invariant wanted == Wanted(slug, processes[..i])
    {
      var process := processes[i];
      assert processes[..i + 1][..i] == processes[..i];
      if LongRunning(process) {
        ghost var others := wanted;
        for replica := 0 to process.replicas
          invariant wanted == others + ReplicaNames(slug, process.name, replica)
        {
          wanted := wanted + {WorkerName(slug, process.name, replica)};
        }
      }
    }
    assert processes[..|processes|] == processes;
  }

  /** A reconciliation that completes leaves the project with exactly one worker container that
      is not draining for each name wanted, all running the deployment's image. */
  lemma WorkersAreExact(before: Containers, cs: Containers, slug: string, processes: seq<Process>, plan: Plan)
    requires Clocked(plan) && UniqueNames(before) && UniqueNames(cs) && RealNames(before) && plan.project == slug
    requires Reached(before, cs, plan, Existing(before, slug), Wanted(slug, processes))
    ensures Existing(cs, slug) == Wanted(slug, processes)
    ensures forall id | id in cs && cs[id].project == slug && cs[id].worker && DrainingDeadline(cs[id].name).None? ::
              && cs[id].name in Wanted(slug, processes) && id !in before
              && cs[id].running && cs[id].image == plan.image && cs[id].restarts && cs[id].owned
  {
    var drained, started := Existing(before, slug), Wanted(slug, processes);
    forall id | id in cs && IsCurrent(cs[id], slug)
      ensures id !in before && cs[id].name in started
    {
      if id in before {
        assert Fate(before[id], plan, drained, started) == Some(cs[id]);
        DeadlineReadsBack(before[id].name, Deadline(plan.at(before[id].name).now, plan.grace));
        assert false;
      }
    }
    forall name | name in started
      ensures name in Existing(cs, slug)
    {
      assert Runs(before, cs, name);
      var id :| id in cs && id !in before && cs[id].name == name;
      assert IsCurrent(cs[id], slug);
    }
  }

  /** No worker is lost: each container the project had running is still running under its
      draining name, which carries the end of its grace, or stopped by itself. */
  lemma WorkersFinish(before: Containers, cs: Containers, slug: string, plan: Plan, drained: set<string>, started: set<string>, id: nat)
    requires Clocked(plan) && Reached(before, cs, plan, drained, started)
    requires id in before && before[id].running && before[id].name in drained
    ensures var moment := plan.at(before[id].name);
            if moment.exits then id !in cs
            else id in cs && cs[id].running && cs[id].image == before[id].image && !cs[id].restarts
                 && cs[id].name == DrainingName(before[id].name, Deadline(moment.now, plan.grace))
  {
    assert Fate(before[id], plan, drained, started) == if id in cs then Some(cs[id]) else None;
  }

  /** A container that is not one of the project's current workers is left alone, unless it
      holds a name that is wanted: that one is removed outright, with no grace. */
  lemma OthersAreLeftIff(before: Containers, cs: Containers, slug: string, processes: seq<Process>, plan: Plan, id: nat)
    requires Clocked(plan) && UniqueNames(before)
    requires Reached(before, cs, plan, Existing(before, slug), Wanted(slug, processes))
    requires id in before && !(before[id].project == slug && before[id].worker && DrainingDeadline(before[id].name).None?)
    ensures id in cs <==> before[id].name !in Wanted(slug, processes)
    ensures id in cs ==> cs[id] == before[id]
    ensures id !in cs ==> DrainingDeadline(before[id].name).None?
  {
    assert before[id].name !in Existing(before, slug);
    assert Fate(before[id], plan, Existing(before, slug), Wanted(slug, processes)) == if id in cs then Some(cs[id]) else None;
  }

  /** Pauses or resumes one worker: drains every replica, or starts each replica that is not
      running on the production image. */
  method ApplyWorker(d: Daemon, slug: string, process: Process, production: Option<string>, grace: nat, at: string -> Moment)
      returns (r: Result<nat, Refusal>, ghost touched: set<string>)
    requires d.Valid() && RealNames(d.containers) && Clocked(PlanFor(slug, production, grace, at))
    modifies d
    ensures d.Valid() && touched <= ReplicaNames(slug, process.name, process.replicas)
    ensures !process.enabled ==>
              && Reached(old(d.containers), d.containers, PlanFor(slug, production, grace, at), touched, {})
              && (r.Ok? ==> touched == ReplicaNames(slug, process.name, process.replicas) && r.value == process.replicas)
              && (r.Ok? <==> NoClash(old(d.containers), PlanFor(slug, production, grace, at),
                                     ReplicaNames(slug, process.name, process.replicas)))
    ensures process.enabled ==>
              && Reached(old(d.containers), d.containers, PlanFor(slug, production, grace, at), {}, touched)
              && r == Ok(|touched|)
              && touched == if production.None? then {}
                            else ReplicaNames(slug, process.name, process.replicas) - Up(old(d.containers))
  {
    var plan := PlanFor(slug, production, grace, at);
    ghost var before := d.containers;
    if !process.enabled {
      forall name | name in ReplicaNames(slug, process.name, process.replicas) ensures DrainingDeadline(name).None? {
        var replica: nat :| replica < process.replicas && name == WorkerName(slug, process.name, replica);
        WorkerNameIsNotDraining(slug, process.name, replica);
      }
      var ok: bool;
      ok, touched := DrainAll(d, ReplicaNames(slug, process.name, process.replicas), plan, before);
      return if ok then Ok(process.replicas) else Err(NameInUse), touched;
    }
    touched := {};
    if production.None? {
      return Ok(0), touched;
    }
    var count: nat;
    count, touched := Resume(d, slug, process, plan, before);
    r := Ok(count);
  }

  method Resume(d: Daemon, slug: string, process: Process, plan: Plan, ghost before: Containers)
      returns (count: nat, ghost touched: set<string>)
    requires Clocked(plan) && RealNames(before) && During(d, before, plan, {}, {})
    modifies d
    ensures During(d, before, plan, {}, touched) && count == |touched|
    ensures touched == ReplicaNames(slug, process.name, process.replicas) - Up(old(d.containers))
  {
    FreshReplica(slug, process.name, 0);
    hide *;
    var up := Up(d.containers);
    count, touched := 0, {};
    for replica := 0 to process.replicas
      invariant touched == ReplicaNames(slug, process.name, replica) - up
      invariant count == |touched|
      invariant During(d, before, plan, {}, touched)
    {
      var name := WorkerName(slug, process.name, replica);
      FreshReplica(slug, process.name, replica);
      OneMore(ReplicaNames(slug, process.name, replica), up, name);
      if name !in up {
        StartNamed(d, name, plan, before, {}, touched);
        touched := touched + {name};
        count := count + 1;
      }
    }
  }

  lemma OneMore(names: set<string>, up: set<string>, name: string)
    requires name !in names
    ensures name in up ==> (names + {name}) - up == names - up
    ensures name !in up ==> (names + {name}) - up == (names - up) + {name} && |(names - up) + {name}| == |names - up| + 1
    ensures name !in names - up
  {
  }

  function Up(cs: Containers): set<string> {
    set id | id in cs && cs[id].running :: cs[id].name
  }

  lemma FreshReplica(slug: string, process: string, replica: nat)
    ensures WorkerName(slug, process, replica) !in ReplicaNames(slug, process, replica)
    ensures ReplicaNames(slug, process, replica + 1) == ReplicaNames(slug, process, replica) + {WorkerName(slug, process, replica)}
    ensures DrainingDeadline(WorkerName(slug, process, replica)).None?
    ensures ReplicaNames(slug, process, 0) == {}
  {
    forall r | 0 <= r < replica ensures WorkerName(slug, process, r) != WorkerName(slug, process, replica) {
      WorkerNamesCollideIff(slug, process, r, slug, process, replica);
    }
    WorkerNameIsNotDraining(slug, process, replica);
  }

  /** A worker that is paused holds none of its names, and one that is resumed is up under all of them. */
  lemma PausedOrUp(before: Containers, cs: Containers, plan: Plan, names: set<string>)
    requires Clocked(plan) && RealNames(before) && forall name | name in names :: DrainingDeadline(name).None?
    ensures Reached(before, cs, plan, names, {}) ==> forall name | name in names :: !NameUsed(cs, name)
    ensures Reached(before, cs, plan, {}, names - Up(before)) ==>
              forall name | name in names :: exists id :: id in cs && cs[id].running && cs[id].name == name
  {
    if Reached(before, cs, plan, names, {}) {
      forall id | id in cs ensures cs[id].name !in names {
        assert id in before;
        assert Fate(before[id], plan, names, {}) == Some(cs[id]);
        DeadlineReadsBack(before[id].name, Deadline(plan.at(before[id].name).now, plan.grace));
      }
    }
    if Reached(before, cs, plan, {}, names - Up(before)) {
      forall name | name in names ensures exists id :: id in cs && cs[id].running && cs[id].name == name {
        if name in Up(before) {
          var id :| id in before && before[id].running && before[id].name == name;
          assert Fate(before[id], plan, {}, names - Up(before)) == Some(before[id]);
          assert cs[id].name == name;
        } else {
          assert Runs(before, cs, name);
          var id :| id in cs && id !in before && cs[id].name == name;
        }
      }
    }
  }
}
