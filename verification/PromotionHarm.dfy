/** When a promotion harms what is being served: exactly which promotions, and which late
    refreshes, end with the route naming a deployment that is drained. */
module PromotionHarm {
  import opened Wrappers
  import opened Routing
  import opened Promotion

  /** The deployments the promotion under way drains, if nothing else happens. */
  function Doomed(s: State): set<nat> {
    match s.place
    case Idle => {}
    case Reclaiming(_, stale) => stale.Keys
    case Asked(_, stale, asked, _) => stale.Keys + {asked}
    case _ => Reclaimable(s.rows, {s.place.id}, Keep(s))
  }

  /** The promotion has yet to write the route. */
  predicate WillWrite(place: Place) {
    match place
    case Listed(_, _, _) => true
    case Chosen(_, background, _) => !background
    case Launched(_, background, _) => !background
    case Serving(_, background) => !background
    case _ => false
  }

  /** The domains behind the route once the promotion under way has written it, if nothing else happens. */
  function ListedToBe(s: State): seq<Domain> {
    if s.place.Listed? then s.place.found else if WillWrite(s.place) then s.domains else s.listed
  }

  function RouteToBe(s: State): Option<Route> {
    if WillWrite(s.place) then Publication(ListedToBe(s), s.place.id) else s.route
  }

  function PointerToBe(s: State): Option<nat> {
    if s.place.Idle? || AfterPointer(s.place) then s.pointer else Some(s.place.id)
  }

  /** The promotion can go on, starting container c if its own is not running. */
  predicate CanGoOn(s: State, c: nat) {
    match s.place
    case Chosen(_, _, container) => Runs(s, container) || Enabled(s, Launch(c))
    case Launched(id, _, _) => id in s.rows
    case Pointed(id) => s.pointer == Some(id)
    case Asked(_, _, asked, _) => asked in s.rows
    case _ => true
  }

  predicate AtReclaim(place: Place) {
    place.Idle? || place.Reclaiming?
  }

  function NextStep(s: State, c: nat): (step: Step)
    requires !AtReclaim(s.place) && CanGoOn(s, c)
    ensures Enabled(s, step)
  {
    match s.place
    case Chosen(_, _, container) => if Runs(s, container) then Warm else Launch(c)
    case Launched(_, _, _) => Record
    case Serving(_, background) => if background then Publish else ListDomains
    case Listed(_, _, _) => Publish
    case Published(_, _, _) => Point
    case Pointed(_) => Query
    case _ => Detach
  }

  function StepsLeft(place: Place): nat {
    match place
    case Chosen(_, _, _) => 6
    case Launched(_, _, _) => 5
    case Serving(_, _) => 4
    case Listed(_, _, _) => 3
    case Published(_, _, _) => 2
    case Pointed(_) => 1
    case Asked(_, _, _, _) => 1
    case _ => 0
  }

  /** The rest of a promotion, up to its reclaim, when nothing interrupts it. */
  function Uninterrupted(s: State, c: nat): State
    requires CanGoOn(s, c)
    decreases StepsLeft(s.place)
  {
    if AtReclaim(s.place) then s
    else
      GoesOn(s, c);
      Uninterrupted(Apply(s, NextStep(s, c)), c)
  }

  lemma GoesOn(s: State, c: nat)
    requires !AtReclaim(s.place) && CanGoOn(s, c)
    ensures CanGoOn(Apply(s, NextStep(s, c)), c)
    ensures StepsLeft(Apply(s, NextStep(s, c)).place) < StepsLeft(s.place)
  {
    hide Publication, Reclaimable;
  }

  /** Recording a container for a protected deployment changes nothing about the others. */
  lemma ReclaimableElsewhere(rows: Rows, id: nat, row: Row, keep: nat)
    requires id in rows && row.ready == rows[id].ready
    ensures Reclaimable(rows[id := row], {id}, keep) == Reclaimable(rows, {id}, keep)
  {
    var after := rows[id := row];
    forall other | other in rows && other != id ensures NewerThan(after, {id}, other) == NewerThan(rows, {id}, other) {
    }
  }

  lemma StepKeepsDoomed(s: State, c: nat)
    requires !AtReclaim(s.place) && !s.place.Asked? && CanGoOn(s, c)
    ensures Doomed(Apply(s, NextStep(s, c))) == Doomed(s)
  {
    assert {s.place.id} + {s.place.id} == {s.place.id};
    if s.place.Launched? {
      var id := s.place.id;
      ReclaimableElsewhere(s.rows, id, s.rows[id].(container := Some(s.place.started)), Keep(s));
    }
    hide Publication, Reclaimable;
  }

  lemma StepKeepsFate(s: State, c: nat)
    requires !AtReclaim(s.place) && CanGoOn(s, c)
    ensures RouteToBe(Apply(s, NextStep(s, c))) == RouteToBe(s) && ListedToBe(Apply(s, NextStep(s, c))) == ListedToBe(s)
    ensures PointerToBe(Apply(s, NextStep(s, c))) == PointerToBe(s)
  {
    hide Publication, Reclaimable;
  }

  /** Uninterrupted, a promotion reaches its reclaim by its own steps, there to drain exactly
      these deployments, with the route and pointer it was going to have. */
  lemma {:induction false} UninterruptedIs(s: State, c: nat) returns (steps: seq<Step>)
    requires CanGoOn(s, c)
    ensures Possible(s, steps) && After(s, steps) == Uninterrupted(s, c)
    ensures var t := Uninterrupted(s, c);
            && AtReclaim(t.place) && t.route == RouteToBe(s) && t.listed == ListedToBe(s) && t.pointer == PointerToBe(s)
            && Doomed(t) == if s.place.Asked? then s.place.stale.Keys else Doomed(s)
    decreases StepsLeft(s.place)
  {
    steps := [];
    if !AtReclaim(s.place) {
      var step := NextStep(s, c);
      GoesOn(s, c);
      StepKeepsFate(s, c);
      if !s.place.Asked? {
        StepKeepsDoomed(s, c);
      }
      var rest := UninterruptedIs(Apply(s, step), c);
      steps := [step] + rest;
      Prepend(s, step, rest);
      hide Publication, Reclaimable, Possible, After;
    }
  }

  lemma {:induction false} Prepend(s: State, step: Step, rest: seq<Step>)
    requires Enabled(s, step) && Possible(Apply(s, step), rest)
    ensures Possible(s, [step] + rest) && After(s, [step] + rest) == After(Apply(s, step), rest)
  {
    hide Apply, Enabled;
    if rest == [] {
      Extend(s, [], step);
      assert [step] + rest == [] + [step];
    } else {
      var n := |rest| - 1;
      Prepend(s, step, rest[..n]);
      Extend(s, [step] + rest[..n], rest[n]);
      assert [step] + rest[..n] + [rest[n]] == [step] + rest;
    }
  }

  /** The route names a deployment that is about to be drained. */
  predicate Harmed(s: State) {
    s.route.Some? && s.route.value.service in Doomed(s)
  }

  /** A promotion of a ready deployment that nothing interrupts, whether its container runs or has
      to be started, and whatever kind of project it read, goes on to drain the deployment the
      route names exactly when it read a background service, and the route file, left from when
      it was a website, names a deployment not kept warm. */
  lemma DrainsRoutedIff(s: State, id: nat, kind: bool, c: nat)
    requires Enabled(s, Choose(id, kind)) && CanGoOn(Apply(s, Choose(id, kind)), c)
    ensures Harmed(Uninterrupted(Apply(s, Choose(id, kind)), c)) <==>
            kind && s.route.Some? && s.route.value.service in Reclaimable(s.rows, {id}, Keep(s))
  {
    var steps := UninterruptedIs(Apply(s, Choose(id, kind)), c);
    hide Uninterrupted, Possible, After, Verified, FirstPrimary, HostsBut;
  }

  lemma RouteAfterWrite(s: State, refresh: Promotion.Refresh)
    requires Enabled(s, RefreshWrite(refresh)) && !s.place.Idle?
    ensures var route := RouteToBe(Apply(s, RefreshWrite(refresh)));
            if WillWrite(s.place) then route.Some? ==> route.value.service == s.place.id && s.place.id !in Doomed(s)
            else route == Written(refresh)
    ensures Written(refresh).Some? ==> refresh.Ready? && Written(refresh).value.service == refresh.seen.value
  {
    hide Verified, FirstPrimary, HostsBut, NewerThan;
  }

  /** A refresh that writes during a promotion, wherever that is, leaves the route naming a
      deployment the promotion drains exactly when it read that deployment as production, with a
      verified domain, and the promotion will not write the route any more. */
  lemma RefreshDrainsRoutedIff(s: State, refresh: Promotion.Refresh, c: nat)
    requires Enabled(s, RefreshWrite(refresh)) && !s.place.Idle? && CanGoOn(s, c)
    ensures CanGoOn(Apply(s, RefreshWrite(refresh)), c)
    ensures var route := Uninterrupted(Apply(s, RefreshWrite(refresh)), c).route;
            (route.Some? && route.value.service in Doomed(s)) <==>
            !WillWrite(s.place) && Written(refresh).Some? && refresh.seen.value in Doomed(s)
  {
    RouteAfterWrite(s, refresh);
    assert CanGoOn(Apply(s, RefreshWrite(refresh)), c);
    var steps := UninterruptedIs(Apply(s, RefreshWrite(refresh)), c);
    hide Uninterrupted, Possible, After, Publication, Written, RouteToBe, Doomed, WillWrite;
  }

  /** A refresh that writes between promotions leaves the route naming a reclaimed deployment, which
      does not answer, exactly when it read that one as production, with a verified domain, and it
      was reclaimed since. */
  lemma LateRefreshIff(s: State, refresh: Promotion.Refresh)
    requires Enabled(s, RefreshWrite(refresh))
    ensures var t := Apply(s, RefreshWrite(refresh));
            (t.route.Some? && t.route.value.service in t.retired) <==>
            refresh.Ready? && refresh.seen.Some? && refresh.seen.value in s.retired
            && AnyVerified(refresh.found)
  {
    if refresh.Ready? && refresh.seen.Some? {
      PublicationsDiffer(refresh.found, refresh.seen.value, refresh.seen.value);
    }
    hide Publication, AnyVerified;
  }
}
