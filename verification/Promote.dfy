/** Promotion, rollback and reclaim as they change a project's rows, route and pointer. Each
    effect is one step of the machine in Promotion, which the ghost state follows. */
module Promote {
  import opened Wrappers
  import opened Routing
  import opened Promotion

  datatype Refusal = Missing | NotReady | NoImage | Unhealthy | AlreadyServing

  lemma DetachOneMore(rows: Rows, gone: set<nat>, x: nat)
    requires x in rows && x !in gone
    ensures x in Detached(rows, gone) && Detached(rows, gone)[x] == rows[x]
    ensures Detached(rows, gone)[x := rows[x].(container := None)] == Detached(rows, gone + {x})
  {
  }

  lemma NothingDetached(rows: Rows)
    ensures Detached(rows, {}) == rows
  {
  }

  /** The rows once a deployment is serving from a container, its old one or `started`. */
  function Served(s: State, id: nat, started: Option<nat>): Rows
    requires id in s.rows
  {
    if IsUp(s, id) then s.rows else s.rows[id := s.rows[id].(container := started)]
  }

  /** A promotion that completes leaves resident exactly the new production and the newest
      `keep` of the others that were. */
  lemma PromotionLeaves(s: State, id: nat, started: Option<nat>, keep: nat, x: nat)
    requires id in s.rows && s.rows[id].ready && (IsUp(s, id) || started.Some?) && DistinctNumbers(s.rows)
    ensures var served := Served(s, id, started);
            var kept := Spare(served, {id}) - Reclaimable(served, {id}, keep);
            && (Resident(Detached(served, Reclaimable(served, {id}, keep)), x) <==> x == id || x in kept)
            && |kept| == (if |Spare(s.rows, {id})| <= keep then |Spare(s.rows, {id})| else keep)
            && (x in kept ==> Resident(s.rows, x) && x != id)
  {
    var served := Served(s, id, started);
    ServedKeeps(s, id, started);
    WarmBound(served, {id}, keep);
    hide Detached, Reclaimable, Served, DistinctNumbers;
  }

  lemma ServedKeeps(s: State, id: nat, started: Option<nat>)
    requires id in s.rows && s.rows[id].ready && (IsUp(s, id) || started.Some?) && DistinctNumbers(s.rows)
    ensures DistinctNumbers(Served(s, id, started)) && Resident(Served(s, id, started), id)
    ensures Spare(Served(s, id, started), {id}) == Spare(s.rows, {id})
  {
  }

  /** The other deployments that are ready and have a container. */
  function Others(rows: Rows, id: nat): set<nat> {
    set x | x in rows && x != id && rows[x].ready && rows[x].container.Some?
  }

  /** Once a promotion is complete, as many others have a container as did before, up to `keep`;
      with none kept, none has. */
  lemma OthersLeft(s: State, id: nat, started: Option<nat>, keep: nat)
    requires id in s.rows && s.rows[id].ready && (IsUp(s, id) || started.Some?)
    ensures var served := Served(s, id, started);
            var left := Others(Detached(served, Reclaimable(served, {id}, keep)), id);
            && left <= Others(s.rows, id) && (keep == 0 ==> left == {})
            && |Reclaimable(served, {id}, keep)| == |Others(s.rows, id)| - |left|
            && (id in s.rows && var now := Detached(served, Reclaimable(served, {id}, keep));
                id in now && now[id].ready && now[id].container == if IsUp(s, id) then s.rows[id].container else started)
            && (DistinctNumbers(s.rows) ==> |left| == if |Others(s.rows, id)| <= keep then |Others(s.rows, id)| else keep)
  {
    var served := Served(s, id, started);
    var stale := Reclaimable(served, {id}, keep);
    assert Others(s.rows, id) == Spare(s.rows, {id}) == Spare(served, {id});
    assert Others(Detached(served, stale), id) == Spare(served, {id}) - stale && stale <= Spare(served, {id});
    hide Others, Spare, Detached, Reclaimable, Served, IsUp;
    if DistinctNumbers(s.rows) {
      ServedKeeps(s, id, started);
      WarmBound(served, {id}, keep);
    }
  }

  class Site {
    var rows: Rows
    var running: set<nat>
    var dying: set<nat>
    var pointer: Option<nat>
    var route: Option<Route>
    var domains: seq<Domain>
    var background: bool
    var keepWarm: nat
    ghost var state: State

    ghost predicate Valid()
      reads this
    {
      && rows == state.rows && running == state.running && dying == state.dying
      && pointer == state.pointer && route == state.route
      && domains == state.domains && background == state.background && keepWarm == state.keepWarm
    }

    // The effects: each is one step, and the fields and the state agree after it

    method StartContainer(c: nat)
      requires Valid() && Enabled(state, Launch(c))
      modifies this`running, this`state
      ensures Valid() && state == Apply(old(state), Launch(c))
    {
      running := running + {c};
      state := Apply(state, Launch(c));
    }

    method RecordContainer(id: nat, c: nat)
      requires Valid() && Enabled(state, Record) && state.place.id == id && state.place.started == c
      modifies this`rows, this`state
      ensures Valid() && state == Apply(old(state), Record)
    {
      rows := rows[id := rows[id].(container := Some(c))];
      state := Apply(state, Record);
    }

    method ListDomains() returns (found: seq<Domain>)
      requires Valid() && Enabled(state, Step.ListDomains)
      modifies this`state
      ensures Valid() && found == domains && state == Apply(old(state), Step.ListDomains)
    {
      found := domains;
      state := Apply(state, Step.ListDomains);
    }

    /** Writes, or clears, the route file. */
    method WriteRoute(id: nat, found: seq<Domain>)
      requires Valid() && state.place == Listed(id, false, found)
      modifies this`route, this`state
      ensures Valid() && state == Apply(old(state), Step.Publish)
    {
      route := Publication(found, id);
      state := Apply(state, Step.Publish);
    }

    method SetProduction(id: nat)
      requires Valid() && Enabled(state, Point) && state.place.id == id
      modifies this`pointer, this`state
      ensures Valid() && state == Apply(old(state), Point)
    {
      pointer := Some(id);
      state := Apply(state, Point);
    }

    method AskToStop(x: nat, container: nat)
      requires Valid() && Enabled(state, Drain(x)) && state.place.stale[x] == container
      modifies this`dying, this`state
      ensures Valid() && state == Apply(old(state), Drain(x))
    {
      dying := dying + {container};
      state := Apply(state, Drain(x));
    }

    method DetachContainer(x: nat)
      requires Valid() && Enabled(state, Detach) && state.place.asked == x
      modifies this`rows, this`state
      ensures Valid() && state == Apply(old(state), Detach)
    {
      rows := rows[x := rows[x].(container := None)];
      state := Apply(state, Detach);
    }

    // The operations

    /** The container of a deployment already chosen, started if it is not running. `image` says
        whether its image is on the host, and `started` what launching it comes to. */
    method EnsureServing(id: nat, image: bool, started: Option<nat>) returns (refusal: Option<Refusal>)
      requires Valid() && state.place.Chosen? && state.place.id == id && id in rows && state.place.container == rows[id].container
      requires started.Some? ==> started.value !in state.healthy + state.running + state.dying
      modifies this
      ensures Valid()
      ensures refusal.None? <==> IsUp(old(state), id) || (old(rows)[id].image.Some? && image && started.Some?)
      ensures refusal.Some? ==> state == Apply(old(state), LaunchFails)
      ensures refusal.Some? ==> refusal.value == if old(rows)[id].image.None? || !image then NoImage else Unhealthy
      ensures refusal.None? ==>
                state == if IsUp(old(state), id) then Apply(old(state), Warm)
                         else Apply(Apply(old(state), Launch(started.value)), Record)
    {
      var container := rows[id].container;
      if container.Some? && container.value in running {
        state := Apply(state, Warm);
        return None;
      }
      if rows[id].image.None? || !image {
        state := Apply(state, LaunchFails);
        return Some(NoImage);
      }
      if started.None? {
        state := Apply(state, LaunchFails);
        return Some(Unhealthy);
      }
      StartContainer(started.value);
      RecordContainer(id, started.value);
      return None;
    }

    /** A reclaim with `rest` of the containers it read still to stop. */
    ghost predicate Under(id: nat, before: Rows, stale: map<nat, nat>, rest: map<nat, nat>, from: State, steps: seq<Step>)
      reads this
    {
      && Valid() && rest.Keys <= stale.Keys && state.place == Reclaiming(id, rest)
      && rows == Detached(before, stale.Keys - rest.Keys)
      && Possible(from, steps) && state == After(from, steps)
    }

    /** Asks one superseded deployment's container to stop and detaches it. */
    method ReclaimOne(x: nat, container: nat, ghost id: nat, ghost before: Rows, ghost stale: map<nat, nat>,
                      ghost rest: map<nat, nat>, ghost from: State, ghost steps: seq<Step>) returns (ghost more: seq<Step>)
      requires Under(id, before, stale, rest, from, steps) && x in rest && rest[x] == container && x in before
      modifies this`rows, this`dying, this`state
      ensures Under(id, before, stale, rest - {x}, from, more)
    {
      DetachOneMore(before, stale.Keys - rest.Keys, x);
      assert stale.Keys - rest.Keys + {x} == stale.Keys - (rest - {x}).Keys;
      Extend(from, steps, Drain(x));
      AskToStop(x, container);
      Extend(from, steps + [Drain(x)], Detach);
      DetachContainer(x);
      more := steps + [Drain(x)] + [Detach];
    }

    /** The containers of superseded deployments but the newest few. */
    method Superseded(id: nat) returns (stale: map<nat, nat>)
      requires Valid() && state.place == Pointed(id) && pointer == Some(id)
      modifies this`state
      ensures Valid() && state == Apply(old(state), Query) && state.place == Reclaiming(id, stale)
      ensures stale.Keys == Reclaimable(rows, {id}, if background then 0 else keepWarm) && stale.Keys <= rows.Keys
    {
      assert {id} + {pointer.value} == {id};
      stale := ContainersOf(rows, Reclaimable(rows, {id} + {pointer.value}, if background then 0 else keepWarm));
      state := Apply(state, Query);
    }

    /** Stops those containers one by one. */
    method Reclaim(id: nat, ghost from: State, ghost steps: seq<Step>) returns (count: nat, ghost more: seq<Step>)
      requires Valid() && state.place.Pointed? && state.place.id == id && pointer == Some(id)
      requires Possible(from, steps) && state == After(from, steps)
      modifies this`rows, this`dying, this`state
      ensures Valid() && Possible(from, more) && state == After(from, more) && state.place.Idle?
      ensures var stale := Reclaimable(old(rows), {id}, if background then 0 else keepWarm);
              rows == Detached(old(rows), stale) && count == |stale|
    {
      hide Detached, Reclaimable, Apply, Possible, After;
      NothingDetached(rows);
      ghost var before := rows;
      Extend(from, steps, Query);
      more := steps + [Query];
      var stale := Superseded(id);
      var rest := stale;
      assert stale.Keys - rest.Keys == {};
      while rest != map[]
        invariant Under(id, before, stale, rest, from, more)
        decreases |rest.Keys|
      {
        var x :| x in rest;
        more := ReclaimOne(x, rest[x], id, before, stale, rest, from, more);
        rest := rest - {x};
      }
      more := Finish(id, before, stale, from, more);
      count := |stale|;
    }

    ghost method Finish(id: nat, before: Rows, stale: map<nat, nat>, from: State, steps: seq<Step>) returns (more: seq<Step>)
      requires Under(id, before, stale, map[], from, steps)
      modifies this`state
      ensures Valid() && Possible(from, more) && state == After(from, more) && state.place.Idle?
      ensures rows == Detached(before, stale.Keys)
    {
      assert stale.Keys - state.place.stale.Keys == stale.Keys;
      Extend(from, steps, Step.Finish);
      more := steps + [Step.Finish];
      state := Apply(state, Step.Finish);
    }

    /** Checks that a deployment may serve production, and has it serving. */
    method Serve(id: nat, kind: bool, image: bool, started: Option<nat>) returns (refusal: Option<Refusal>, ghost steps: seq<Step>)
      requires Valid() && state.place.Idle?
      requires started.Some? ==> started.value !in state.healthy + state.running + state.dying
      modifies this
      ensures Valid() && Possible(old(state), steps) && state == After(old(state), steps)
      ensures refusal.None? <==> && id in old(rows) && old(rows)[id].ready
                                 && (IsUp(old(state), id) || (old(rows)[id].image.Some? && image && started.Some?))
      ensures refusal.Some? ==> state.place.Idle? && rows == old(rows) && running == old(running)
      ensures refusal.Some? ==> refusal.value == if id !in old(rows) then Missing else if !old(rows)[id].ready then NotReady
                                                 else if old(rows)[id].image.None? || !image then NoImage else Unhealthy
      ensures refusal.None? ==> state.place == Serving(id, kind) && rows == Served(old(state), id, started)
      ensures pointer == old(pointer) && route == old(route) && domains == old(domains)
              && background == old(background) && keepWarm == old(keepWarm)
    {
      ghost var from := state;
      steps := [];
      if id !in rows {
        return Some(Missing), steps;
      }
      if !rows[id].ready {
        return Some(NotReady), steps;
      }
      Extend(from, [], Choose(id, kind));
      steps := [] + [Choose(id, kind)];
      state := Apply(state, Choose(id, kind));
      refusal := EnsureServing(id, image, started);
      steps := ServingPath(from, steps, id, refusal.None?, started);
    }

    /** Writes the route of a website, then the pointer. */
    method MovePointer(id: nat, kind: bool, ghost from: State, ghost steps: seq<Step>) returns (ghost more: seq<Step>)
      requires Valid() && state.place == Serving(id, kind)
      requires Possible(from, steps) && state == After(from, steps)
      modifies this`route, this`pointer, this`state
      ensures Valid() && Possible(from, more) && state == After(from, more)
      ensures state.place == Pointed(id) && pointer == Some(id)
      ensures route == if kind then old(route) else Publication(domains, id)
    {
      more := steps;
      if !kind {
        Extend(from, more, Step.ListDomains);
        more := more + [Step.ListDomains];
        var found := ListDomains();
        Extend(from, more, Step.Publish);
        WriteRoute(id, found);
      } else {
        Extend(from, more, Step.Publish);
        state := Apply(state, Step.Publish);
      }
      more := more + [Step.Publish];
      Extend(from, more, Point);
      more := more + [Point];
      SetProduction(id);
    }

    /** Points production at a ready deployment: serving first, then the route, then the pointer,
        then the reclaim. `kind` is the project's kind as its caller read it. */
    method Promote(id: nat, kind: bool, image: bool, started: Option<nat>) returns (r: Result<nat, Refusal>, ghost steps: seq<Step>)
      requires Valid() && state.place.Idle?
      requires started.Some? ==> started.value !in state.healthy + state.running + state.dying
      modifies this
      ensures Valid() && state.place.Idle?
      ensures Possible(old(state), steps) && state == After(old(state), steps)
      ensures r.Ok? <==> && id in old(rows) && old(rows)[id].ready
                         && ((old(rows)[id].container.Some? && old(rows)[id].container.value in old(running))
                             || (old(rows)[id].image.Some? && image && started.Some?))
      ensures r.Err? ==> rows == old(rows) && running == old(running) && pointer == old(pointer) && route == old(route)
      ensures r.Err? ==> r.error == if id !in old(rows) then Missing else if !old(rows)[id].ready then NotReady
                                    else if old(rows)[id].image.None? || !image then NoImage else Unhealthy
      ensures r.Ok? ==> pointer == Some(id) && route == if kind then old(route) else Publication(old(domains), id)
      ensures r.Ok? ==>
                var served := Served(old(state), id, started);
                var stale := Reclaimable(served, {id}, if old(background) then 0 else old(keepWarm));
                rows == Detached(served, stale) && r.value == |stale|
      ensures r.Ok? ==> id in rows && rows[id].ready && rows[id].container ==
                          if old(rows)[id].container.Some? && old(rows)[id].container.value in old(running)
                          then old(rows)[id].container else started
      ensures r.Ok? ==> Others(rows, id) <= Others(old(rows), id) && r.value == |Others(old(rows), id)| - |Others(rows, id)|
      ensures r.Ok? && old(background) ==> Others(rows, id) == {}
      ensures r.Ok? && !old(background) && DistinctNumbers(old(rows)) ==>
                |Others(rows, id)| == if |Others(old(rows), id)| <= old(keepWarm) then |Others(old(rows), id)| else old(keepWarm)
    {
      hide Others, Served, Detached, Reclaimable, DistinctNumbers, Publication, Apply, Possible, After;
      ghost var from := state;
      var refusal: Option<Refusal>;
      refusal, steps := Serve(id, kind, image, started);
      if refusal.Some? {
        return Err(refusal.value), steps;
      }
      steps := MovePointer(id, kind, from, steps);
      var count: nat;
      count, steps := Reclaim(id, from, steps);
      OthersLeft(from, id, started, if background then 0 else keepWarm);
      r := Ok(count);
    }

    /** Rolling back is promoting an older deployment, unless it is serving already: that alone is
        refused for it, and nothing else is refused that a promotion would do. */
    method Rollback(id: nat, kind: bool, image: bool, started: Option<nat>) returns (r: Result<nat, Refusal>, ghost steps: seq<Step>)
      requires Valid() && state.place.Idle?
      requires started.Some? ==> started.value !in state.healthy + state.running + state.dying
      modifies this
      ensures Valid() && state.place.Idle? && Possible(old(state), steps) && state == After(old(state), steps)
      ensures r == Err(AlreadyServing) <==> old(pointer) == Some(id)
      ensures r == Err(AlreadyServing) ==> state == old(state)
      ensures r.Ok? <==> && old(pointer) != Some(id) && id in old(rows) && old(rows)[id].ready
                         && ((old(rows)[id].container.Some? && old(rows)[id].container.value in old(running))
                             || (old(rows)[id].image.Some? && image && started.Some?))
      ensures r.Err? ==> rows == old(rows) && running == old(running) && pointer == old(pointer) && route == old(route)
      ensures r.Ok? ==> pointer == Some(id) && route == if kind then old(route) else Publication(old(domains), id)
      ensures r.Ok? ==>
                var served := Served(old(state), id, started);
                var stale := Reclaimable(served, {id}, if old(background) then 0 else old(keepWarm));
                rows == Detached(served, stale) && r.value == |stale|
      ensures r.Ok? ==> id in rows && rows[id].ready && rows[id].container ==
                          if old(rows)[id].container.Some? && old(rows)[id].container.value in old(running)
                          then old(rows)[id].container else started
      ensures r.Ok? ==> Others(rows, id) <= Others(old(rows), id) && r.value == |Others(old(rows), id)| - |Others(rows, id)|
      ensures r.Ok? && old(background) ==> Others(rows, id) == {}
      ensures r.Ok? && !old(background) && DistinctNumbers(old(rows)) ==>
                |Others(rows, id)| == if |Others(old(rows), id)| <= old(keepWarm) then |Others(old(rows), id)| else old(keepWarm)
    {
      hide Others, Served, Detached, Reclaimable, DistinctNumbers, Publication;
      if pointer == Some(id) {
        return Err(AlreadyServing), [];
      }
      r, steps := Promote(id, kind, image, started);
    }
  }

  /** The steps by which a chosen deployment came to serve, or did not. */
  ghost method ServingPath(from: State, steps: seq<Step>, id: nat, served: bool, started: Option<nat>) returns (more: seq<Step>)
    requires Possible(from, steps) && After(from, steps).place.Chosen? && After(from, steps).place.id == id && id in After(from, steps).rows
    requires After(from, steps).place.container == After(from, steps).rows[id].container
    requires var s := After(from, steps);
             if !served then !IsUp(s, id)
             else IsUp(s, id) || (started.Some? && Enabled(s, Launch(started.value)))
    ensures Possible(from, more)
    ensures var s := After(from, steps);
            After(from, more) == if !served then Apply(s, LaunchFails)
                                 else if IsUp(s, id) then Apply(s, Warm)
                                 else Apply(Apply(s, Launch(started.value)), Record)
  {
    var s := After(from, steps);
    if !served {
      Extend(from, steps, LaunchFails);
      more := steps + [LaunchFails];
    } else if IsUp(s, id) {
      Extend(from, steps, Warm);
      more := steps + [Warm];
    } else {
      Extend(from, steps, Launch(started.value));
      Extend(from, steps + [Launch(started.value)], Record);
      more := steps + [Launch(started.value)] + [Record];
    }
  }
}
