/** Containers as Docker keeps them, and the operations that drain, sweep and replace them. */
module Docker {
  import opened Wrappers
  import opened Naming

  datatype Container = Container(
    name: string,
    running: bool,
    restarts: bool,     // the restart policy
    image: string,
    owned: bool,        // carries the platform's owner label
    project: string,
    worker: bool)       // carries the worker role label

  type Containers = map<nat, Container>

  ghost predicate UniqueNames(cs: Containers) {
    forall a, b | a in cs && b in cs && cs[a].name == cs[b].name :: a == b
  }

  predicate NameUsed(cs: Containers, name: string) {
    exists id | id in cs :: cs[id].name == name
  }

  function Without(cs: Containers, id: nat): Containers {
    map other | other in cs && other != id :: cs[other]
  }

  /** The second a container asked to stop at `now` is killed at: whole seconds, cut off. */
  function Deadline(now: real, grace: nat): (d: nat)
    requires 0.0 <= now
    ensures d as real <= now + grace as real < d as real + 1.0
  {
    (now + grace as real).Floor
  }

  /** What draining does to a running container: a new name, unless it is draining already,
      and no restart. */
  function Asked(c: Container, deadline: nat): Container {
    c.(name := if DrainingDeadline(c.name).None? then DrainingName(c.name, deadline) else c.name,
       restarts := false)
  }

  /** The daemon refuses a rename to a name in use. */
  predicate RenameFails(cs: Containers, id: nat, deadline: nat)
    requires id in cs
  {
    cs[id].running && DrainingDeadline(cs[id].name).None? && NameUsed(cs, DrainingName(cs[id].name, deadline))
  }

  /** Draining one container. `exits` says that it stopped between the inspect and the signal. */
  function Drained(cs: Containers, id: nat, deadline: nat, exits: bool): Containers
    requires id in cs
  {
    if !cs[id].running then Without(cs, id)
    else if RenameFails(cs, id, deadline) then cs
    else if exits then Without(cs, id)
    else cs[id := Asked(cs[id], deadline)]
  }

  /** The next command of a drain that has inspected its container: the name it saw and the
      deadline it gives go with the rename. */
  datatype Command =
    | Rename(id: nat, name: string, deadline: nat)
    | ClearRestart(id: nat)
    | Signal(id: nat)
    | Remove(id: nat)

  /** What a drain does first, having inspected the container; nothing if there is none. */
  function Inspected(cs: Containers, id: nat, deadline: nat): Option<Command> {
    if id !in cs then None
    else if !cs[id].running then Some(Remove(id))
    else if DrainingDeadline(cs[id].name).None? then Some(Rename(id, cs[id].name, deadline))
    else Some(ClearRestart(id))
  }

  /** The daemon refuses a command about a missing container, and a name in use. */
  predicate Refused(cs: Containers, command: Command) {
    match command
    case Rename(id, name, deadline) => id !in cs || NameUsed(cs, DrainingName(name, deadline))
    case ClearRestart(id) => id !in cs
    case _ => false
  }

  /** The containers after one command; a stopped or missing one is not signalled. */
  function Commanded(cs: Containers, command: Command): Containers {
    if Refused(cs, command) then cs
    else
      match command
      case Rename(id, name, deadline) => cs[id := cs[id].(name := DrainingName(name, deadline))]
      case ClearRestart(id) => cs[id := cs[id].(restarts := false)]
      case Signal(id) => cs
      case Remove(id) => Without(cs, id)
  }

  /** What the drain does after that command, if anything: a refused one ends it. */
  function Following(cs: Containers, command: Command): Option<Command> {
    if Refused(cs, command) then None
    else
      match command
      case Rename(id, _, _) => Some(ClearRestart(id))
      case ClearRestart(id) => Some(Signal(id))
      case Signal(id) => if id in cs && cs[id].running then None else Some(Remove(id))
      case Remove(id) => None
  }

  function Exited(cs: Containers, id: nat): Containers {
    if id in cs then cs[id := cs[id].(running := false)] else cs
  }

  function CommandsLeft(command: Command): nat {
    match command
    case Rename(_, _, _) => 4
    case ClearRestart(_) => 3
    case Signal(_) => 2
    case Remove(_) => 1
  }

  /** The rest of a drain that nothing interrupts; `exits` says that the container stops just
      before the signal. */
  function Uninterrupted(cs: Containers, command: Option<Command>, exits: bool): Containers
    decreases if command.Some? then CommandsLeft(command.value) else 0
  {
    if command.None? then cs
    else
      var now := if exits && command.value.Signal? then Exited(cs, command.value.id) else cs;
      Uninterrupted(Commanded(now, command.value), Following(now, command.value), exits)
  }

  /** Draining one container is its inspection and then these commands, one after the other. */
  lemma DrainIsCommands(cs: Containers, id: nat, deadline: nat, exits: bool)
    requires id in cs
    ensures Uninterrupted(cs, Inspected(cs, id, deadline), exits) == Drained(cs, id, deadline, exits)
  {
    hide NameUsed, DrainingDeadline, DrainingName;
    var first := Inspected(cs, id, deadline);
    if cs[id].running && !RenameFails(cs, id, deadline) {
      var renamed := if first.value.Rename? then Commanded(cs, first.value) else cs;
      var cleared := Commanded(renamed, ClearRestart(id));
      assert cleared == cs[id := Asked(cs[id], deadline)];
      assert Uninterrupted(cs, first, exits) == Uninterrupted(renamed, Some(ClearRestart(id)), exits);
      assert Uninterrupted(renamed, Some(ClearRestart(id)), exits) == Uninterrupted(cleared, Some(Signal(id)), exits);
      if exits {
        var gone := Exited(cleared, id);
        assert Uninterrupted(cleared, Some(Signal(id)), exits) == Uninterrupted(gone, Some(Remove(id)), exits);
        assert Uninterrupted(gone, Some(Remove(id)), exits) == Without(gone, id) == Without(cs, id);
      } else {
        assert Uninterrupted(cleared, Some(Signal(id)), exits) == Uninterrupted(cleared, None, exits) == cleared;
      }
    }
  }

  /** Draining and finished, or out of time. */
  predicate Doomed(c: Container, now: real) {
    c.owned && DrainingDeadline(c.name).Some? && (!c.running || DrainingDeadline(c.name).value as real <= now)
  }

  function Finished(cs: Containers, now: real): set<nat> {
    set id | id in cs && Doomed(cs[id], now) && !cs[id].running
  }

  function Killed(cs: Containers, now: real): set<nat> {
    set id | id in cs && Doomed(cs[id], now) && cs[id].running
  }

  function Swept(cs: Containers, now: real): Containers {
    map id | id in cs && !Doomed(cs[id], now) :: cs[id]
  }

  /** A sweep that has not looked at `rest` yet. */
  function Sweeping(cs: Containers, rest: set<nat>, now: real): Containers {
    map id | id in cs && (id in rest || !Doomed(cs[id], now)) :: cs[id]
  }

  lemma SweepingDone(cs: Containers, now: real)
    ensures Sweeping(cs, {}, now) == Swept(cs, now)
    ensures Finished(cs, now) - {} == Finished(cs, now) && Killed(cs, now) - {} == Killed(cs, now)
    ensures UniqueNames(cs) ==> UniqueNames(Swept(cs, now))
  {
  }

  /** A sweep takes exactly the platform's containers that carry a deadline and have stopped, which are
      the finished ones, or are still running when it has come, which are the killed ones; the
      others stay as they are. */
  lemma SweptIff(cs: Containers, now: real, id: nat)
    requires id in cs
    ensures var c, deadline := cs[id], DrainingDeadline(cs[id].name);
            && (id in Swept(cs, now) ==> Swept(cs, now)[id] == c)
            && (id in Finished(cs, now) <==> c.owned && deadline.Some? && !c.running)
            && (id in Killed(cs, now) <==> c.owned && deadline.Some? && c.running && deadline.value as real <= now)
            && (id !in Swept(cs, now) <==> id in Finished(cs, now) + Killed(cs, now))
  {
    hide DrainingDeadline;
  }

  lemma SweepStarts(cs: Containers, now: real)
    ensures Sweeping(cs, cs.Keys, now) == cs
    ensures Finished(cs, now) - cs.Keys == {} && Killed(cs, now) - cs.Keys == {}
  {
  }

  lemma CountNext(pool: set<nat>, rest: set<nat>, id: nat)
    requires id in rest
    ensures |pool - (rest - {id})| == |pool - rest| + (if id in pool then 1 else 0)
  {
    assert pool - (rest - {id}) == if id in pool then (pool - rest) + {id} else pool - rest;
  }

  lemma SweepingNext(cs: Containers, rest: set<nat>, id: nat, now: real)
    requires id in rest && rest <= cs.Keys
    ensures Sweeping(cs, rest - {id}, now) ==
            if Doomed(cs[id], now) then Without(Sweeping(cs, rest, now), id) else Sweeping(cs, rest, now)
    ensures |Finished(cs, now) - (rest - {id})| ==
            |Finished(cs, now) - rest| + (if Doomed(cs[id], now) && !cs[id].running then 1 else 0)
    ensures |Killed(cs, now) - (rest - {id})| ==
            |Killed(cs, now) - rest| + (if Doomed(cs[id], now) && cs[id].running then 1 else 0)
  {
    CountNext(Finished(cs, now), rest, id);
    CountNext(Killed(cs, now), rest, id);
  }

  function NewWorker(name: string, image: string, project: string): Container {
    Container(name, true, true, image, true, project, true)
  }

  lemma DrainKeepsNames(cs: Containers, id: nat, deadline: nat, exits: bool)
    requires UniqueNames(cs) && id in cs
    ensures UniqueNames(Drained(cs, id, deadline, exits)) && Drained(cs, id, deadline, exits).Keys <= cs.Keys
  {
  }

  lemma WithoutChanged(cs: Containers, id: nat, c: Container)
    ensures Without(cs[id := c], id) == Without(cs, id)
  {
  }

  class Daemon {
    var containers: Containers
    var nextId: nat

    ghost predicate Valid()
      reads this
    {
      UniqueNames(containers) && forall id | id in containers :: id < nextId
    }

    constructor ()
      ensures Valid() && containers == map[]
    {
      containers := map[];
      nextId := 0;
    }

    method Find(name: string) returns (r: Option<nat>)
      requires Valid()
      ensures r.None? <==> !NameUsed(containers, name)
      ensures r.Some? ==> r.value in containers && containers[r.value].name == name
    {
      var rest := containers.Keys;
      while rest != {}
        invariant rest <= containers.Keys
        invariant forall id | id in containers.Keys - rest :: containers[id].name != name
        decreases |rest|
      {
        var id :| id in rest;
        if containers[id].name == name {
          return Some(id);
        }
        rest := rest - {id};
      }
      return None;
    }

    /** Renames the container out of the way, unless it is draining already. */
    method MoveAway(id: nat, deadline: nat) returns (ok: bool)
      requires id in containers && containers[id].running
      modifies this`containers
      ensures ok == !RenameFails(old(containers), id, deadline)
      ensures containers == if !ok then old(containers)
                            else old(containers)[id := old(containers)[id].(name := Asked(old(containers)[id], deadline).name)]
    {
      hide DrainingDeadline, DrainingName;
      var info := containers[id];
      if DrainingDeadline(info.name).None? {
        var name := DrainingName(info.name, deadline);
        if NameUsed(containers, name) {
          return false;
        }
        containers := containers[id := info.(name := name)];
      }
      return true;
    }

    /** Moves it away, clears its restart policy and signals it, or removes it if it has stopped. */
    method MoveAndSignal(id: nat, deadline: nat, exits: bool) returns (ok: bool)
      requires id in containers && containers[id].running
      modifies this`containers
      ensures ok == !RenameFails(old(containers), id, deadline)
      ensures containers == Drained(old(containers), id, deadline, exits)
    {
      hide NameUsed, RenameFails, DrainingDeadline, Without;
      ok := MoveAway(id, deadline);
      if !ok {
        return;
      }
      containers := containers[id := containers[id].(restarts := false)];
      if exits {
        WithoutChanged(old(containers), id, containers[id]);
        assert containers == old(containers)[id := containers[id]];
        containers := Without(containers, id);
      }
    }

    method AskToStop(id: nat, deadline: nat, exits: bool) returns (ok: bool)
      requires Valid() && id in containers
      modifies this`containers
      ensures Valid()
      ensures ok == !RenameFails(old(containers), id, deadline)
      ensures containers == Drained(old(containers), id, deadline, exits)
    {
      DrainKeepsNames(containers, id, deadline, exits);
      hide *;
      if !containers[id].running {
        containers := Without(containers, id);
        return true;
      }
      ok := MoveAndSignal(id, deadline, exits);
    }

    /** Asks a container to stop, without waiting for it; one already gone is no error. */
    method Drain(id: nat, grace: nat, now: real, exits: bool) returns (ok: bool)
      requires Valid() && 0.0 <= now
      modifies this`containers
      ensures Valid()
      ensures id !in old(containers) ==> ok && containers == old(containers)
      ensures id in old(containers) ==>
                && ok == !RenameFails(old(containers), id, Deadline(now, grace))
                && containers == Drained(old(containers), id, Deadline(now, grace), exits)
    {
      var deadline := Deadline(now, grace);
      if id !in containers {
        return true;
      }
      ok := AskToStop(id, deadline, exits);
    }

    /** One listed container's turn of the sweep. */
    method SweepOne(id: nat, container: Container, now: real) returns (finished: bool, killed: bool)
      modifies this`containers
      ensures containers == if Doomed(container, now) then Without(old(containers), id) else old(containers)
      ensures finished <==> Doomed(container, now) && !container.running
      ensures killed <==> Doomed(container, now) && container.running
    {
      finished, killed := false, false;
      var deadline := DrainingDeadline(container.name);
      if !container.owned || deadline.None? {
        return;
      }
      if !container.running {
        containers := Without(containers, id);
        finished := true;
      } else if deadline.value as real <= now {
        containers := Without(containers, id);
        killed := true;
      }
    }

    /** Removes draining containers that finished, and kills those out of time. */
    method SweepDraining(now: real) returns (finished: nat, killed: nat)
      requires Valid()
      modifies this`containers
      ensures Valid()
      ensures containers == Swept(old(containers), now)
      ensures finished == |Finished(old(containers), now)| && killed == |Killed(old(containers), now)|
    {
      hide Doomed, UniqueNames, Sweeping, Killed, Finished;
      finished, killed := 0, 0;
      var listed := containers;
      var rest := listed.Keys;
      SweepStarts(listed, now);
      while rest != {}
        invariant rest <= listed.Keys
        invariant containers == Sweeping(listed, rest, now)
        invariant finished == |Finished(listed, now) - rest| && killed == |Killed(listed, now) - rest|
        decreases |rest|
      {
        var id :| id in rest;
        SweepingNext(listed, rest, id, now);
        rest := rest - {id};
        var done, dead := SweepOne(id, listed[id], now);
        finished := finished + if done then 1 else 0;
        killed := killed + if dead then 1 else 0;
      }
      SweepingDone(listed, now);
      assert rest == {};
    }

    method RemoveByName(name: string)
      requires Valid()
      modifies this`containers
      ensures Valid()
      ensures containers == map id | id in old(containers) && old(containers)[id].name != name :: old(containers)[id]
    {
      var holder := Find(name);
      if holder.Some? {
        containers := Without(containers, holder.value);
      }
    }

    /** Starts a worker under a name, clearing whatever holds the name. */
    method RunWorker(name: string, image: string, project: string) returns (id: nat)
      requires Valid()
      modifies this
      ensures Valid()
      ensures id !in old(containers) && id == old(nextId)
      ensures containers == (map other | other in old(containers) && old(containers)[other].name != name :: old(containers)[other])[id := NewWorker(name, image, project)]
    {
      RemoveByName(name);
      id := nextId;
      containers := containers[id := NewWorker(name, image, project)];
      nextId := nextId + 1;
    }
  }
}
