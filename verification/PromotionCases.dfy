/** Concrete runs in which a promotion harms what is being served: each starts from a project
    with nothing deployed. */
module PromotionCases {
  import opened Wrappers
  import opened Routing
  import opened Promotion
  import opened RouteHistory

  /** A project with one verified domain that keeps nothing warm. */
  function NewProject(): (s: State)
    ensures Fresh(s)
  {
    State(map[], {}, {}, {}, None, None, [], [Domain("example.com", true, true)], false, 0, Idle, multiset{},
          {}, {}, Nothing, {}, {})
  }

  function Image(): string {
    "deploypro/blog:0123456789ab"
  }

  /** The project once deployment 0 was deployed and promoted. */
  function OneDeployed(s: State): State {
    s.(rows := map[0 := Row(1, true, Some(100), Some(Image()))],
       running := {100}, healthy := {100}, pointer := Some(0),
       route := Publication(s.domains, 0), listed := s.domains, vetted := {0}, proven := {0})
  }

  /** The same project once deployment 1 was deployed as well. */
  function TwoDeployed(s: State): State {
    s.(rows := map[0 := Row(1, true, Some(100), Some(Image())), 1 := Row(2, true, Some(101), Some(Image()))],
       running := {100, 101}, healthy := {100, 101}, pointer := Some(0),
       route := Publication(s.domains, 0), listed := s.domains, vetted := {0}, proven := {0})
  }

  lemma Grow(s: State, steps: seq<Step>, step: Step, t: State) returns (more: seq<Step>)
    requires Possible(s, steps) && Enabled(After(s, steps), step) && t == Apply(After(s, steps), step)
    ensures Possible(s, more) && After(s, more) == t
  {
    Extend(s, steps, step);
    more := steps + [step];
  }

  lemma RouteIsWritten(service: nat)
    ensures Publication([Domain("example.com", true, true)], service) == Some(Route(service, "example.com", []))
  {
    var d := Domain("example.com", true, true);
    assert [d][..0] == [];
    assert Verified([d]) == [d] && FirstPrimary([d]) == Some(d) && HostsBut([d], "example.com") == [];
  }

  /** Promoting a deployment that is up, up to the choice of what to reclaim. */
  function Promoting(s: State, id: nat, kind: bool): State {
    s.(pointer := Some(id), place := Pointed(id), vetted := s.vetted + {id}, proven := s.proven + {id},
       route := if kind then s.route else Publication(s.domains, id),
       listed := if kind then s.listed else s.domains,
       excuse := if kind then Skipped else Nothing)
  }

  lemma ReachPublished(from: State, before: seq<Step>, s: State, id: nat, kind: bool) returns (steps: seq<Step>, t: State)
    requires Possible(from, before) && After(from, before) == s
    requires s.place.Idle? && IsUp(s, id) && s.rows[id].ready
    ensures Possible(from, steps) && After(from, steps) == t && Enabled(t, Point)
    ensures Apply(t, Point) == Promoting(s, id, kind) && t.pointer == s.pointer && t.refreshes == s.refreshes
    ensures t.place == Published(id, kind, if kind then None else Publication(s.domains, id))
  {
    hide Publication, Reclaimable, Possible, After;
    t := Apply(s, Choose(id, kind));
    steps := Grow(from, before, Choose(id, kind), t);
    t := Apply(t, Warm);
    steps := Grow(from, steps, Warm, t);
    if !kind {
      t := Apply(t, ListDomains);
      steps := Grow(from, steps, ListDomains, t);
    }
    t := Apply(t, Publish);
    steps := Grow(from, steps, Publish, t);
  }

  lemma ReachPromoting(from: State, before: seq<Step>, s: State, id: nat, kind: bool) returns (steps: seq<Step>)
    requires Possible(from, before) && After(from, before) == s
    requires s.place.Idle? && IsUp(s, id) && s.rows[id].ready
    ensures Possible(from, steps) && After(from, steps) == Promoting(s, id, kind)
  {
    hide Publication, Reclaimable, Possible, After, Promoting;
    var t: State;
    steps, t := ReachPublished(from, before, s, id, kind);
    steps := Grow(from, steps, Point, Promoting(s, id, kind));
  }

  lemma ReachOne() returns (steps: seq<Step>)
    ensures Possible(NewProject(), steps) && After(NewProject(), steps) == OneDeployed(NewProject())
  {
    var s := NewProject();
    steps := [];
    assert Possible(s, steps) && After(s, steps) == s;
    hide Publication, Reclaimable, Possible, After;
    var t := Apply(s, Deploy(0, 1, 100, Image()));
    steps := Grow(s, steps, Deploy(0, 1, 100, Image()), t);
    steps := ReachPromoting(s, steps, t, 0, false);
    t := Apply(Promoting(t, 0, false), Stop);
    steps := Grow(s, steps, Stop, t);
    assert t == OneDeployed(s);
  }

  lemma ReachTwo() returns (steps: seq<Step>)
    ensures Possible(NewProject(), steps) && After(NewProject(), steps) == TwoDeployed(NewProject())
  {
    hide Publication, Reclaimable, Possible, After;
    var s := NewProject();
    steps := ReachOne();
    var t := Apply(OneDeployed(s), Deploy(1, 2, 101, Image()));
    steps := Grow(s, steps, Deploy(1, 2, 101, Image()), t);
    assert t == TwoDeployed(s);
  }

  /** Two resident deployments, the newer one production and nothing else kept: the older goes. */
  lemma OldIsStale(s: State)
    requires s.place == Pointed(1) && s.pointer == Some(1) && Resident(s.rows, 0) && s.keepWarm == 0
    ensures Enabled(Apply(s, Query), Drain(0)) && Apply(s, Query).route == s.route
    ensures s.rows.Keys == {0, 1} ==> Apply(s, Query).place == Reclaiming(1, map[0 := s.rows[0].container.value])
  {
    assert {1} + {1} == {1};
  }

  /** A website becomes a background service, its route file stays, and the next promotion
      drains the deployment that file still names. */
  lemma BackgroundDrainsRouted() returns (steps: seq<Step>)
    ensures Possible(NewProject(), steps)
    ensures Enabled(After(NewProject(), steps), Drain(0)) && RouteIs(After(NewProject(), steps), 0)
  {
    hide Publication, Reclaimable, Possible, After;
    var s := NewProject();
    RouteIsWritten(0);
    steps := ReachTwo();
    var t := Apply(TwoDeployed(s), SetKind(true));
    steps := Grow(s, steps, SetKind(true), t);
    steps := ReachPromoting(s, steps, t, 1, true);
    t := Promoting(t, 1, true);
    OldIsStale(t);
    steps := Grow(s, steps, Query, Apply(t, Query));
  }

  /** A domain is edited between the two writes of a promotion: the route names the old
      production again, which the promotion then drains. */
  lemma RefreshDrainsRouted() returns (steps: seq<Step>)
    ensures Possible(NewProject(), steps)
    ensures Enabled(After(NewProject(), steps), Drain(0)) && RouteIs(After(NewProject(), steps), 0)
  {
    hide Publication, Reclaimable, Possible, After;
    var s := NewProject();
    RouteIsWritten(0);
    steps := ReachTwo();
    var t: State;
    steps, t := ReachPublished(s, steps, TwoDeployed(s), 1, false);
    steps := RefreshReads(s, steps);
    var refresh := ReadOf(t);
    assert multiset{} + multiset{refresh} == multiset{refresh};
    t := t.(refreshes := multiset{refresh});
    t := Apply(t, RefreshWrite(refresh));
    steps := Grow(s, steps, RefreshWrite(refresh), t);
    t := Apply(t, Point);
    steps := Grow(s, steps, Point, t);
    OldIsStale(t);
    steps := Grow(s, steps, Query, Apply(t, Query));
  }

  /** Deployment 1 just promoted, with a refresh under way that read deployment 0 as production. */
  lemma ReachSlow() returns (steps: seq<Step>, t: State)
    ensures t == Promoting(TwoDeployed(NewProject()), 1, false).(refreshes := multiset{ReadOf(TwoDeployed(NewProject()))})
    ensures Possible(NewProject(), steps) && After(NewProject(), steps) == t
  {
    hide Publication, Reclaimable, Possible, After;
    var s := NewProject();
    steps := ReachTwo();
    steps := RefreshReads(s, steps);
    assert multiset{} + multiset{ReadOf(TwoDeployed(s))} == multiset{ReadOf(TwoDeployed(s))};
    t := TwoDeployed(s).(refreshes := multiset{ReadOf(TwoDeployed(s))});
    steps := ReachPromoting(s, steps, t, 1, false);
    t := Promoting(t, 1, false);
  }

  /** A refresh reads production before a promotion and writes once the pointer has moved: the
      uninterrupted promotion then drains the deployment the route names. */
  lemma LateRefreshDrainsRouted() returns (steps: seq<Step>)
    ensures Possible(NewProject(), steps)
    ensures Enabled(After(NewProject(), steps), Drain(0)) && RouteIs(After(NewProject(), steps), 0)
  {
    hide Publication, Reclaimable, Possible, After;
    var s := NewProject();
    RouteIsWritten(0);
    var t: State;
    steps, t := ReachSlow();
    var refresh := ReadOf(TwoDeployed(s));
    t := Apply(t, RefreshWrite(refresh));
    steps := Grow(s, steps, RefreshWrite(refresh), t);
    OldIsStale(t);
    steps := Grow(s, steps, Query, Apply(t, Query));
  }

  /** Deployment 1 promoted, and deployment 0 drained and detached. */
  function Reclaimed(s: State): State
    requires Resident(s.rows, 0)
  {
    s.(rows := s.rows[0 := s.rows[0].(container := None)], dying := s.dying + {s.rows[0].container.value},
       place := Idle, retired := s.retired + {0})
  }

  lemma ReachAsked(from: State, before: seq<Step>, s: State) returns (steps: seq<Step>, t: State)
    requires Possible(from, before) && After(from, before) == s
    requires s.place == Pointed(1) && s.pointer == Some(1) && s.rows.Keys == {0, 1} && Resident(s.rows, 0) && s.keepWarm == 0
    ensures Possible(from, steps) && After(from, steps) == t
    ensures t == s.(dying := s.dying + {s.rows[0].container.value}, place := Asked(1, map[], 0, s.rows[0].container.value))
  {
    OldIsStale(s);
    hide Publication, Reclaimable, Possible, After;
    t := s.(place := Reclaiming(1, map[0 := s.rows[0].container.value]));
    steps := Grow(from, before, Query, t);
    assert map[0 := s.rows[0].container.value] - {0} == map[];
    t := s.(dying := s.dying + {s.rows[0].container.value}, place := Asked(1, map[], 0, s.rows[0].container.value));
    steps := Grow(from, steps, Drain(0), t);
  }

  lemma ReachReclaimed(from: State, before: seq<Step>, s: State) returns (steps: seq<Step>)
    requires Possible(from, before) && After(from, before) == s
    requires s.place == Pointed(1) && s.pointer == Some(1) && s.rows.Keys == {0, 1} && Resident(s.rows, 0) && s.keepWarm == 0
    ensures Possible(from, steps) && After(from, steps) == Reclaimed(s)
  {
    hide Publication, Reclaimable, Possible, After;
    var t: State;
    steps, t := ReachAsked(from, before, s);
    t := Apply(t, Detach);
    steps := Grow(from, steps, Detach, t);
    t := Apply(t, Finish);
    steps := Grow(from, steps, Finish, t);
  }

  /** The same refresh writes after the promotion has finished: the route names a deployment that
      was drained and detached, and production is not reached by its domains. */
  lemma LateRefreshRoutesRetired() returns (steps: seq<Step>)
    ensures Possible(NewProject(), steps)
    ensures After(NewProject(), steps).place.Idle? && After(NewProject(), steps).pointer == Some(1)
    ensures RouteIs(After(NewProject(), steps), 0) && 0 in After(NewProject(), steps).retired
  {
    hide Publication, Reclaimable, Possible, After;
    var s := NewProject();
    RouteIsWritten(0);
    var t: State;
    steps, t := ReachSlow();
    steps := ReachReclaimed(s, steps, t);
    t := Reclaimed(t);
    var refresh := ReadOf(TwoDeployed(s));
    t := Apply(t, RefreshWrite(refresh));
    steps := Grow(s, steps, RefreshWrite(refresh), t);
  }

  /** A refresh reads the domains before one is removed and writes after the refresh that the
      removal asked for: the removed domain is routed again. */
  lemma LateListRoutesRemoved() returns (steps: seq<Step>)
    ensures Possible(NewProject(), steps)
    ensures After(NewProject(), steps).domains == [] && RouteIs(After(NewProject(), steps), 0)
  {
    hide Publication, Reclaimable, Possible, After;
    var s := NewProject();
    RouteIsWritten(0);
    steps := ReachOne();
    var early := ReadOf(OneDeployed(s));
    steps := RefreshReads(s, steps);
    var t := OneDeployed(s).(refreshes := multiset{} + multiset{early}, domains := []);
    steps := Grow(s, steps, SetDomains([]), t);
    steps := RefreshReads(s, steps);
    var late := Ready(Some(0), []);
    t := t.(refreshes := multiset{} + multiset{early} + multiset{late});
    assert late in t.refreshes && early in t.refreshes - multiset{late};
    t := Apply(t, RefreshWrite(late));
    steps := Grow(s, steps, RefreshWrite(late), t);
    t := Apply(t, RefreshWrite(early));
    steps := Grow(s, steps, RefreshWrite(early), t);
  }

  /** A promotion stops between draining deployment 0 and detaching it, and a rollback to it
      finds its container running, on its way out. */
  lemma RollbackServesDying() returns (steps: seq<Step>)
    ensures Possible(NewProject(), steps)
    ensures Enabled(After(NewProject(), steps), Warm)
    ensures var t := After(NewProject(), steps);
            t.place.id == 0 && t.place.container.value in t.dying
  {
    hide Publication, Reclaimable, Possible, After;
    var s := NewProject();
    steps := ReachTwo();
    steps := ReachPromoting(s, steps, TwoDeployed(s), 1, false);
    var t := Promoting(TwoDeployed(s), 1, false);
    OldIsStale(t);
    t := Apply(t, Query);
    steps := Grow(s, steps, Query, t);
    t := Apply(t, Drain(0));
    steps := Grow(s, steps, Drain(0), t);
    t := Apply(t, Stop);
    steps := Grow(s, steps, Stop, t);
    t := Apply(t, Choose(0, false));
    steps := Grow(s, steps, Choose(0, false), t);
  }
}
