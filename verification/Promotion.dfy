/** Promotions and rollbacks of one project, one at a time, each able to stop after any of its
    steps, with deploys, domain changes, refreshes of the route and container exits in between. */
module Promotion {
  import opened Sets
  import opened Wrappers
  import opened Routing

  datatype Row = Row(number: nat, ready: bool, container: Option<nat>, image: Option<string>)

  type Rows = map<nat, Row>

  /** Where a promotion has got to; Idle when there is none. `background` is the project's kind,
      and `container` the deployment's, as the promotion read them when it began; `stale` gives
      the containers to stop as the reclaim read them. */
  datatype Place =
    | Idle
    | Chosen(id: nat, background: bool, container: Option<nat>)        // found ready, not yet serving
    | Launched(id: nat, background: bool, started: nat)                // healthy, not yet recorded
    | Serving(id: nat, background: bool)
    | Listed(id: nat, background: bool, found: seq<Domain>)            // domains read, route not yet written
    | Published(id: nat, background: bool, wrote: Option<Route>)
    | Pointed(id: nat)
    | Reclaiming(id: nat, stale: map<nat, nat>)
    | Asked(id: nat, stale: map<nat, nat>, asked: nat, stopping: nat)  // asked to stop, not yet detached

  /** A refresh of the route under way: the production it read, then the domains as well. */
  datatype Refresh = Read(seen: Option<nat>) | Ready(seen: Option<nat>, found: seq<Domain>)

  /** What last kept the route and the pointer apart, if anything. */
  datatype Excuse = Nothing | Stopped | Skipped | Refreshed

  datatype State = State(
    rows: Rows,
    running: set<nat>,
    dying: set<nat>,        // containers asked to stop
    healthy: set<nat>,      // containers that passed their check
    pointer: Option<nat>,
    route: Option<Route>,
    listed: seq<Domain>,    // the domains the route was last written from
    domains: seq<Domain>,
    background: bool,
    keepWarm: nat,
    place: Place,
    refreshes: multiset<Refresh>,
    vetted: set<nat>,       // deployments found ready by a promotion
    proven: set<nat>,       // deployments seen serving by a promotion
    excuse: Excuse,
    cutOff: set<nat>,       // containers whose drain was cut off before it was recorded
    retired: set<nat>)      // deployments drained and detached, and not started since

  datatype Step =
    // one promotion
    | Choose(id: nat, background: bool)
    | Warm                                  // the container is running already
    | Launch(started: nat)
    | LaunchFails
    | Record
    | ListDomains
    | Publish
    | Point
    | Query
    | Drain(stale: nat)
    | Detach
    | Finish
    | Stop
    // everything else
    | Deploy(id: nat, number: nat, started: nat, image: string)
    | Fail(id: nat)
    | Exit(gone: nat)
    | DetachDead(id: nat)                   // the start-up reconcile, which saw the container stopped some time before
    | SetDomains(domains: seq<Domain>)
    | SetKind(background: bool)
    | SetKeep(keep: nat)
    | RefreshRead
    | RefreshList(seen: nat)
    | RefreshWrite(refresh: Refresh)

  predicate Resident(rows: Rows, id: nat) {
    id in rows && rows[id].ready && rows[id].container.Some?
  }

  /** Resident deployments outside `protect` numbered above this one. */
  function NewerThan(rows: Rows, protect: set<nat>, id: nat): set<nat>
    requires id in rows
  {
    set other | other in rows && Resident(rows, other) && other !in protect && rows[id].number < rows[other].number
  }

  /** All resident deployments outside `protect` but the `keep` highest-numbered. */
  function Reclaimable(rows: Rows, protect: set<nat>, keep: nat): set<nat> {
    set id | id in rows && Resident(rows, id) && id !in protect && keep <= |NewerThan(rows, protect, id)|
  }

  /** The containers of some resident deployments. */
  function ContainersOf(rows: Rows, ids: set<nat>): map<nat, nat> {
    map id | id in ids && Resident(rows, id) :: rows[id].container.value
  }

  /** How many superseded deployments stay resident; none of a background service. */
  function Keep(s: State): nat {
    if s.background then 0 else s.keepWarm
  }

  predicate Runs(s: State, container: Option<nat>) {
    container.Some? && container.value in s.running
  }

  predicate IsUp(s: State, id: nat) {
    id in s.rows && Runs(s, s.rows[id].container)
  }

  predicate Enabled(s: State, step: Step) {
    match step
    case Choose(id, _) => s.place.Idle? && id in s.rows && s.rows[id].ready
    case Warm => s.place.Chosen? && Runs(s, s.place.container)
    case Launch(c) =>
      && s.place.Chosen? && s.place.id in s.rows && !Runs(s, s.place.container) && s.rows[s.place.id].image.Some?
      && c !in s.healthy + s.running + s.dying
    case LaunchFails => s.place.Chosen? && !Runs(s, s.place.container)
    case Record => s.place.Launched? && s.place.id in s.rows
    case ListDomains => s.place.Serving? && !s.place.background
    case Publish => s.place.Listed? || (s.place.Serving? && s.place.background)
    case Point => s.place.Published?
    case Query => s.place.Pointed?
    case Drain(x) => s.place.Reclaiming? && x in s.place.stale
    case Detach => s.place.Asked? && s.place.asked in s.rows
    case Finish => s.place.Reclaiming? && s.place.stale == map[]
    case Stop => !s.place.Idle?
    case Deploy(id, _, c, _) => id !in s.rows && id !in s.vetted && c !in s.healthy + s.running + s.dying
    case Fail(id) => id in s.rows
    case Exit(_) => true
    case DetachDead(id) => id in s.rows
    case RefreshList(seen) => Read(Some(seen)) in s.refreshes
    case RefreshWrite(r) => r in s.refreshes && (r.Ready? || r.seen.None?)
    case _ => true
  }

  function Apply(s: State, step: Step): State
    requires Enabled(s, step)
  {
    match step
    case Choose(id, background) => s.(place := Chosen(id, background, s.rows[id].container), vetted := s.vetted + {id})
    case Warm => s.(place := Serving(s.place.id, s.place.background), proven := s.proven + {s.place.id})
    case Launch(c) =>
      s.(running := s.running + {c}, healthy := s.healthy + {c}, place := Launched(s.place.id, s.place.background, c))
    case LaunchFails => s.(place := Idle)
    case Record =>
      s.(rows := s.rows[s.place.id := s.rows[s.place.id].(container := Some(s.place.started))],
         place := Serving(s.place.id, s.place.background),
         proven := s.proven + {s.place.id},
         retired := s.retired - {s.place.id})
    case ListDomains => s.(place := Listed(s.place.id, false, s.domains))
    case Publish =>
      var id := s.place.id;
      if s.place.Serving? then s.(place := Published(id, true, None))
      else
        var route := Publication(s.place.found, id);
        s.(route := route, listed := s.place.found, place := Published(id, false, route), excuse := Nothing)
    case Point =>
      s.(pointer := Some(s.place.id), place := Pointed(s.place.id),
         excuse := if s.place.background then Skipped else s.excuse)
    case Query =>
      var protect := {s.place.id} + if s.pointer.Some? then {s.pointer.value} else {};
      s.(place := Reclaiming(s.place.id, ContainersOf(s.rows, Reclaimable(s.rows, protect, Keep(s)))))
    case Drain(x) =>
      s.(dying := s.dying + {s.place.stale[x]}, place := Asked(s.place.id, s.place.stale - {x}, x, s.place.stale[x]))
    case Detach =>
      var x := s.place.asked;
      s.(rows := s.rows[x := s.rows[x].(container := None)], place := Reclaiming(s.place.id, s.place.stale),
         retired := s.retired + {x})
    case Finish => s.(place := Idle)
    case Stop =>
      s.(place := Idle,
         excuse := if s.place.Published? && !s.place.background && s.excuse.Nothing? then Stopped else s.excuse,
         cutOff := if s.place.Asked? then s.cutOff + {s.place.stopping} else s.cutOff)
    case Deploy(id, number, c, image) =>
      s.(rows := s.rows[id := Row(number, true, Some(c), Some(image))],
         running := s.running + {c}, healthy := s.healthy + {c})
    case Fail(id) => s.(rows := s.rows[id := s.rows[id].(ready := false)])
    case Exit(c) => s.(running := s.running - {c})
    case DetachDead(id) => s.(rows := s.rows[id := s.rows[id].(container := None)])
    case SetDomains(domains) => s.(domains := domains)
    case SetKind(background) => s.(background := background)
    case SetKeep(keep) => s.(keepWarm := keep)
    case RefreshRead => s.(refreshes := s.refreshes + multiset{Read(s.pointer)})
    case RefreshList(seen) =>
      s.(refreshes := s.refreshes - multiset{Read(Some(seen))} + multiset{Ready(Some(seen), s.domains)})
    case RefreshWrite(r) =>
      s.(refreshes := s.refreshes - multiset{r},
         route := Written(r), listed := if r.Ready? then r.found else s.listed,
         excuse := if IsLate(s, r) then Refreshed else Nothing)
  }

  /** What happens beside a promotion changes what it says, and neither the pointer nor where the
      promotion has got to; a refresh writes once. */
  lemma SurroundingsAre(s: State, step: Step, id: nat)
    requires Enabled(s, step)
    requires step.Deploy? || step.Fail? || step.Exit? || step.DetachDead? || step.SetDomains? || step.SetKind? || step.SetKeep?
             || step.RefreshWrite?
    ensures var t := Apply(s, step);
            && t.pointer == s.pointer && t.place == s.place && (!step.RefreshWrite? ==> t.route == s.route)
            && t.domains == (if step.SetDomains? then step.domains else s.domains)
            && t.background == (if step.SetKind? then step.background else s.background)
            && t.keepWarm == (if step.SetKeep? then step.keep else s.keepWarm)
            && t.running == (if step.Deploy? then s.running + {step.started} else if step.Exit? then s.running - {step.gone} else s.running)
            && t.refreshes == (if step.RefreshWrite? then s.refreshes - multiset{step.refresh} else s.refreshes)
            && (step.Deploy? && step.id == id ==> t.rows == s.rows[id := Row(step.number, true, Some(step.started), Some(step.image))])
            && (step.Fail? && step.id == id ==> t.rows == s.rows[id := s.rows[id].(ready := false)])
            && (step.DetachDead? && step.id == id ==> t.rows == s.rows[id := s.rows[id].(container := None)])
            && (!step.Deploy? && !step.Fail? && !step.DetachDead? ==> t.rows == s.rows)
  {
  }

  /** The route file a refresh leaves. */
  function Written(r: Refresh): Option<Route> {
    if r.Ready? && r.seen.Some? then Publication(r.found, r.seen.value) else None
  }

  /** Production is no longer what the refresh read, or is about to become what the route already names. */
  predicate IsLate(s: State, r: Refresh) {
    r.seen != s.pointer || (s.place.Published? && !s.place.background)
  }

  predicate Fresh(s: State) {
    && s.rows == map[] && s.running == {} && s.dying == {} && s.healthy == {}
    && s.pointer.None? && s.route.None? && s.place.Idle? && s.refreshes == multiset{}
    && s.vetted == {} && s.proven == {} && s.excuse.Nothing? && s.cutOff == {} && s.retired == {}
    && s.listed == []
  }

  /** The state after some steps, taken in order. */
  function After(s: State, steps: seq<Step>): State
    requires Possible(s, steps)
    decreases |steps|, 1
  {
    if steps == [] then s else Apply(After(s, steps[..|steps| - 1]), steps[|steps| - 1])
  }

  /** Each step was possible when it was taken. */
  predicate Possible(s: State, steps: seq<Step>)
    decreases |steps|, 0
  {
    steps == [] ||
    (Possible(s, steps[..|steps| - 1]) && Enabled(After(s, steps[..|steps| - 1]), steps[|steps| - 1]))
  }

  /** One step more on a path. */
  lemma Extend(s: State, steps: seq<Step>, step: Step)
    requires Possible(s, steps) && Enabled(After(s, steps), step)
    ensures Possible(s, steps + [step]) && After(s, steps + [step]) == Apply(After(s, steps), step)
  {
    assert (steps + [step])[..|steps|] == steps;
  }

  // The invariant, part by part

  predicate PlaceOk(s: State) {
    && (!s.place.Idle? ==> s.place.id in s.vetted)
    && (s.place.Serving? || s.place.Listed? || s.place.Published? || AfterPointer(s.place) ==> s.place.id in s.proven)
    && (s.place.Listed? ==> !s.place.background)
    && (AfterPointer(s.place) ==> s.pointer == Some(s.place.id))
    && (s.place.Reclaiming? || s.place.Asked? ==> s.place.id !in s.place.stale)
    && (s.place.Asked? ==> s.place.asked != s.place.id && s.place.asked in s.rows)
    && (s.place.Reclaiming? || s.place.Asked? ==> s.place.stale.Keys <= s.rows.Keys)
  }

  predicate AfterPointer(place: Place) {
    place.Pointed? || place.Reclaiming? || place.Asked?
  }

  ghost predicate NamesProven(s: State) {
    && s.proven <= s.vetted
    && (forall r | r in s.refreshes :: r.seen.Some? ==> r.seen.value in s.proven)
    && (s.pointer.Some? ==> s.pointer.value in s.proven)
    && (s.route.Some? ==> s.route.value.service in s.proven)
  }

  predicate RouteIs(s: State, id: nat) {
    s.route.Some? && s.route.value.service == id
  }

  /** The route file that goes with the pointer: what the domains last listed ask for production. */
  function RouteOfPointer(s: State): Option<Route> {
    if s.pointer.None? then None else Publication(s.listed, s.pointer.value)
  }

  /** The route is not the one that goes with the pointer: it names another deployment, or was cleared. */
  predicate Apart(s: State) {
    s.route != RouteOfPointer(s)
  }

  /** A website's promotion between its two writes. */
  predicate InWindow(s: State) {
    s.place.Published? && !s.place.background
  }

  predicate ApartOk(s: State) {
    && (InWindow(s) ==> s.excuse.Nothing? || s.excuse.Refreshed?)
    && (InWindow(s) && s.excuse.Nothing? ==> s.route == s.place.wrote == Publication(s.listed, s.place.id))
    && (s.place.Published? && s.place.wrote.Some? ==> s.place.wrote.value.service == s.place.id)
    && (Apart(s) ==> !s.excuse.Nothing? || InWindow(s))
    && (AfterPointer(s.place) && Apart(s) ==> s.excuse.Skipped? || s.excuse.Refreshed?)
  }

  predicate RetiredOk(s: State) {
    && (forall id | id in s.retired :: id in s.rows && s.rows[id].container.None?)
    && (s.pointer.Some? ==> s.pointer.value !in s.retired)
    && (s.place.Chosen? && s.place.container.Some? ==> s.place.id !in s.retired)
    && (s.place.Serving? || s.place.Listed? || s.place.Published? ==> s.place.id !in s.retired)
    && (s.route.Some? && s.route.value.service in s.retired ==> s.excuse.Skipped? || s.excuse.Refreshed?)
  }

  ghost predicate ContainersOk(s: State) {
    && (forall id | id in s.rows && s.rows[id].container.Some? :: s.rows[id].container.value in s.healthy)
    && (s.place.Chosen? && s.place.container.Some? ==> s.place.container.value in s.healthy)
    && (s.place.Launched? ==> s.place.started in s.healthy && s.place.started !in s.dying
                              && forall id | id in s.rows :: s.rows[id].container != Some(s.place.started))
    && (forall a, b | a in s.rows && b in s.rows && s.rows[a].container.Some? && s.rows[a].container == s.rows[b].container :: a == b)
    && s.dying <= s.healthy
  }

  /** The containers a reclaim read are still those deployments', or nobody's. */
  ghost predicate StaleOk(s: State) {
    && (s.place.Reclaiming? || s.place.Asked? ==>
          forall x, id | x in s.place.stale && id in s.rows ::
            s.place.stale[x] in s.healthy && (s.rows[id].container == Some(s.place.stale[x]) ==> id == x))
    && (s.place.Asked? ==>
          && s.place.stopping in s.dying && s.place.stopping in s.healthy
          && forall id | id in s.rows && s.rows[id].container == Some(s.place.stopping) :: id == s.place.asked)
  }

  /** Who is recorded with a container asked to stop has it being reclaimed, or had that cut off. */
  ghost predicate DyingOk(s: State) {
    && (forall id | id in s.rows && s.rows[id].container.Some? && s.rows[id].container.value in s.dying ::
          s.rows[id].container.value in s.cutOff || (s.place.Asked? && s.rows[id].container.value == s.place.stopping))
    && (s.place.Chosen? && s.place.container.Some? && s.place.container.value in s.dying ==> s.place.container.value in s.cutOff)
    && s.cutOff <= s.dying
  }

  ghost predicate Inv(s: State) {
    PlaceOk(s) && NamesProven(s) && ApartOk(s) && ContainersOk(s) && StaleOk(s) && DyingOk(s) && RetiredOk(s)
  }

  predicate OfPromotion(step: Step) {
    step.Choose? || step.Warm? || step.Launch? || step.LaunchFails? || step.Record? || step.ListDomains? || step.Publish?
    || step.Point? || step.Query? || step.Drain? || step.Detach? || step.Finish? || step.Stop?
  }

  predicate OfRefresh(step: Step) {
    step.RefreshRead? || step.RefreshList? || step.RefreshWrite?
  }

  lemma PlaceKeptHere(s: State, step: Step)
    requires Inv(s) && Enabled(s, step) && OfPromotion(step)
    ensures PlaceOk(Apply(s, step))
  {
    hide RetiredOk, StaleOk, ApartOk, ContainersOk, DyingOk, NamesProven, NewerThan, Publication;
  }

  lemma PlaceKeptElsewhere(s: State, step: Step)
    requires Inv(s) && Enabled(s, step) && !OfPromotion(step)
    ensures PlaceOk(Apply(s, step))
  {
    hide RetiredOk, StaleOk, ApartOk, ContainersOk, DyingOk, NamesProven, Reclaimable, Publication;
  }

  /** What a refresh writes is what it read, and was proven then. */
  lemma NamesKeptByRefresh(s: State, step: Step)
    requires Inv(s) && Enabled(s, step) && OfRefresh(step)
    ensures NamesProven(Apply(s, step))
  {
    hide RetiredOk, StaleOk, ApartOk, ContainersOk, DyingOk, Reclaimable, Verified, FirstPrimary, HostsBut;
  }

  lemma NamesKeptByOthers(s: State, step: Step)
    requires Inv(s) && Enabled(s, step) && !OfRefresh(step)
    ensures NamesProven(Apply(s, step))
  {
    hide RetiredOk, StaleOk, ApartOk, ContainersOk, DyingOk, Reclaimable, Verified, FirstPrimary, HostsBut;
  }

  lemma NamesKept(s: State, step: Step)
    requires Inv(s) && Enabled(s, step)
    ensures PlaceOk(Apply(s, step)) && NamesProven(Apply(s, step))
  {
    hide Inv, Apply, PlaceOk, NamesProven;
    if OfPromotion(step) { PlaceKeptHere(s, step); } else { PlaceKeptElsewhere(s, step); }
    if OfRefresh(step) { NamesKeptByRefresh(s, step); } else { NamesKeptByOthers(s, step); }
  }

  lemma ApartKeptHere(s: State, step: Step)
    requires Inv(s) && Enabled(s, step) && OfPromotion(step)
    ensures ApartOk(Apply(s, step))
  {
    hide RetiredOk, StaleOk, ContainersOk, DyingOk, NamesProven, Reclaimable, Verified, FirstPrimary, HostsBut;
  }

  lemma ApartKeptElsewhere(s: State, step: Step)
    requires Inv(s) && Enabled(s, step) && !OfPromotion(step)
    ensures ApartOk(Apply(s, step))
  {
    hide RetiredOk, StaleOk, ContainersOk, DyingOk, NamesProven, Reclaimable, Verified, FirstPrimary, HostsBut;
  }

  lemma ApartKept(s: State, step: Step)
    requires Inv(s) && Enabled(s, step)
    ensures ApartOk(Apply(s, step))
  {
    hide Inv, Apply, ApartOk;
    if OfPromotion(step) { ApartKeptHere(s, step); } else { ApartKeptElsewhere(s, step); }
  }

  lemma RetiredKeptHere(s: State, step: Step)
    requires Inv(s) && Enabled(s, step) && OfPromotion(step)
    ensures RetiredOk(Apply(s, step))
  {
    hide StaleOk, ContainersOk, DyingOk, NamesProven, NewerThan, Verified, FirstPrimary, HostsBut;
  }

  lemma RetiredKeptElsewhere(s: State, step: Step)
    requires Inv(s) && Enabled(s, step) && !OfPromotion(step)
    ensures RetiredOk(Apply(s, step))
  {
    hide StaleOk, ContainersOk, DyingOk, NamesProven, Reclaimable, Verified, FirstPrimary, HostsBut;
  }

  lemma RetiredKept(s: State, step: Step)
    requires Inv(s) && Enabled(s, step)
    ensures RetiredOk(Apply(s, step))
  {
    hide Inv, Apply, RetiredOk;
    if OfPromotion(step) { RetiredKeptHere(s, step); } else { RetiredKeptElsewhere(s, step); }
  }

  lemma ContainersKeptHere(s: State, step: Step)
    requires Inv(s) && Enabled(s, step) && OfPromotion(step)
    ensures ContainersOk(Apply(s, step))
  {
    hide RetiredOk, ApartOk, DyingOk, NamesProven, Reclaimable, Publication;
  }

  lemma ContainersKeptElsewhere(s: State, step: Step)
    requires Inv(s) && Enabled(s, step) && !OfPromotion(step)
    ensures ContainersOk(Apply(s, step))
  {
    hide RetiredOk, StaleOk, ApartOk, DyingOk, NamesProven, Reclaimable, Publication;
  }

  lemma ContainersKept(s: State, step: Step)
    requires Inv(s) && Enabled(s, step)
    ensures ContainersOk(Apply(s, step))
  {
    hide Inv, Apply, ContainersOk;
    if OfPromotion(step) { ContainersKeptHere(s, step); } else { ContainersKeptElsewhere(s, step); }
  }

  lemma StaleKeptHere(s: State, step: Step)
    requires Inv(s) && Enabled(s, step) && OfPromotion(step)
    ensures StaleOk(Apply(s, step))
  {
    hide RetiredOk, ApartOk, DyingOk, NamesProven, Reclaimable, Publication;
  }

  lemma StaleKeptElsewhere(s: State, step: Step)
    requires Inv(s) && Enabled(s, step) && !OfPromotion(step)
    ensures StaleOk(Apply(s, step))
  {
    hide RetiredOk, ApartOk, DyingOk, NamesProven, Reclaimable, Publication;
  }

  lemma DyingKeptHere(s: State, step: Step)
    requires Inv(s) && Enabled(s, step) && OfPromotion(step)
    ensures DyingOk(Apply(s, step))
  {
    hide RetiredOk, ApartOk, NamesProven, Reclaimable, Publication;
  }

  lemma DyingKeptElsewhere(s: State, step: Step)
    requires Inv(s) && Enabled(s, step) && !OfPromotion(step)
    ensures DyingOk(Apply(s, step))
  {
    hide RetiredOk, ApartOk, NamesProven, Reclaimable, Publication;
  }

  lemma DyingKept(s: State, step: Step)
    requires Inv(s) && Enabled(s, step)
    ensures StaleOk(Apply(s, step)) && DyingOk(Apply(s, step))
  {
    hide Inv, Apply, StaleOk, DyingOk;
    if OfPromotion(step) {
      StaleKeptHere(s, step);
      DyingKeptHere(s, step);
    } else {
      StaleKeptElsewhere(s, step);
      DyingKeptElsewhere(s, step);
    }
  }

  lemma {:induction false} InvHolds(s: State, steps: seq<Step>)
    requires Inv(s) && Possible(s, steps)
    ensures Inv(After(s, steps))
  {
    if steps != [] {
      var before, step := After(s, steps[..|steps| - 1]), steps[|steps| - 1];
      InvHolds(s, steps[..|steps| - 1]);
      NamesKept(before, step);
      ApartKept(before, step);
      ContainersKept(before, step);
      DyingKept(before, step);
      RetiredKept(before, step);
    }
  }

  // What a promotion does, step by step

  /** A deployment counts as proven only with a container that has passed its check and is seen
      running, or was started and recorded for this promotion. */
  lemma ProvenWhenUp(s: State, step: Step, id: nat)
    requires Inv(s) && Enabled(s, step) && id in Apply(s, step).proven && id !in s.proven
    ensures id in s.vetted && id == s.place.id
    ensures (step == Warm && s.place.container.Some? && s.place.container.value in s.running * s.healthy)
            || (step == Record && s.place.started in s.healthy && Apply(s, step).rows[id].container == Some(s.place.started))
  {
    hide RetiredOk, StaleOk, ApartOk, DyingOk, Reclaimable, Publication;
  }

  /** Over every run, the route only ever names a deployment proven before it was written. */
  lemma {:induction false} RouteNamesProven(s: State, steps: seq<Step>, step: Step)
    requires Fresh(s) && Possible(s, steps) && Enabled(After(s, steps), step)
    ensures var before, after := After(s, steps), Apply(After(s, steps), step);
            after.route.Some? ==> after.route.value.service in before.proven
  {
    InvHolds(s, steps);
    WritesProven(After(s, steps), step);
  }

  lemma WritesProven(s: State, step: Step)
    requires Inv(s) && Enabled(s, step)
    ensures var after := Apply(s, step); after.route.Some? ==> after.route.value.service in s.proven
  {
    hide RetiredOk, StaleOk, ApartOk, ContainersOk, DyingOk, Reclaimable, Verified, FirstPrimary, HostsBut;
  }

  /** What must hold for the pointer to move at this step. */
  predicate MovesSafely(s: State, step: Step) {
    && step == Point && s.place.Published?
    && s.place.id in s.vetted && s.place.id in s.proven
    && (s.place.wrote.Some? ==> s.place.wrote.value.service == s.place.id)
    && (!s.place.background && !s.excuse.Refreshed? ==> s.route == s.place.wrote)
  }

  /** Over every run, the pointer moves only to a deployment found ready and proven, and for a
      website it is what the route names already, if a domain was verified when this promotion
      wrote it and no refresh wrote it since. */
  lemma {:induction false} PointerMoves(s: State, steps: seq<Step>, step: Step)
    requires Fresh(s) && Possible(s, steps) && Enabled(After(s, steps), step)
    requires Apply(After(s, steps), step).pointer != After(s, steps).pointer
    ensures MovesSafely(After(s, steps), step)
    ensures Apply(After(s, steps), step).pointer == Some(After(s, steps).place.id)
  {
    InvHolds(s, steps);
    OnlyPointMoves(After(s, steps), step);
    hide RetiredOk, StaleOk, ContainersOk, DyingOk, Reclaimable, Publication;
  }

  lemma OnlyPointMoves(s: State, step: Step)
    requires Enabled(s, step) && Apply(s, step).pointer != s.pointer
    ensures step == Point
  {
  }

  // When route and pointer part

  /** The steps that can leave the route apart from the pointer. */
  predicate Parts(s: State, step: Step) {
    match step
    case Stop => InWindow(s)                                        // stopped between the two writes
    case Point => s.place.Published? && s.place.background          // the pointer moved, the route was not written
    case RefreshWrite(r) => IsLate(s, r)                            // a refresh wrote for a production read too early
    case _ => false
  }

  /** The steps that bring them together again: a website's promotion writes the route, to move
      the pointer next, or a refresh writes it for what is production then. */
  predicate Heals(s: State, step: Step) {
    (step.Publish? && s.place.Listed?) || (step.RefreshWrite? && !IsLate(s, step.refresh))
  }

  predicate PartsAt(s: State, steps: seq<Step>, i: nat)
    requires i < |steps|
  {
    Possible(s, steps[..i]) && Parts(After(s, steps[..i]), steps[i])
  }

  predicate HealsAt(s: State, steps: seq<Step>, i: nat)
    requires i < |steps|
  {
    Possible(s, steps[..i]) && Heals(After(s, steps[..i]), steps[i])
  }

  /** Step i parted them, and no step since has healed it. */
  predicate PartedSince(s: State, steps: seq<Step>, i: nat)
    requires i < |steps|
  {
    PartsAt(s, steps, i) && forall j | i < j < |steps| :: !HealsAt(s, steps, j)
  }

  ghost predicate Parted(s: State, steps: seq<Step>) {
    exists i | 0 <= i < |steps| :: PartedSince(s, steps, i)
  }

  /** Other than by a stop. */
  ghost predicate PartedAlive(s: State, steps: seq<Step>) {
    exists i | 0 <= i < |steps| :: PartedSince(s, steps, i) && steps[i] != Stop
  }

  /** Whether a step parted or healed them does not depend on later ones. */
  lemma SameEarlier(s: State, steps: seq<Step>, n: nat, i: nat)
    requires i < n <= |steps|
    ensures PartsAt(s, steps[..n], i) == PartsAt(s, steps, i) && HealsAt(s, steps[..n], i) == HealsAt(s, steps, i)
  {
    hide Possible, After, Parts, Heals;
    assert steps[..n][..i] == steps[..i];
  }

  lemma AtLast(s: State, steps: seq<Step>)
    requires Possible(s, steps) && steps != []
    ensures var n := |steps| - 1;
            && Possible(s, steps[..n]) && Enabled(After(s, steps[..n]), steps[n])
            && PartsAt(s, steps, n) == Parts(After(s, steps[..n]), steps[n])
            && HealsAt(s, steps, n) == Heals(After(s, steps[..n]), steps[n])
  {
    hide After, Parts, Heals, Enabled;
  }

  lemma PartedLonger(s: State, steps: seq<Step>, i: nat)
    requires i + 1 < |steps| && PartedSince(s, steps[..|steps| - 1], i) && !HealsAt(s, steps, |steps| - 1)
    ensures PartedSince(s, steps, i)
  {
    hide PartsAt, HealsAt, Possible, After, Parts, Heals;
    var n := |steps| - 1;
    SameEarlier(s, steps, n, i);
    forall j | i < j < |steps| ensures !HealsAt(s, steps, j) {
      if j < n {
        SameEarlier(s, steps, n, j);
      }
    }
  }

  lemma ExcuseStep(s: State, step: Step)
    requires Enabled(s, step)
    ensures Parts(s, step) || !Apply(s, step).excuse.Nothing? ==> Parts(s, step) || (!s.excuse.Nothing? && !Heals(s, step))
    ensures Apply(s, step).excuse.Skipped? || Apply(s, step).excuse.Refreshed? ==>
              (Parts(s, step) && step != Stop) || ((s.excuse.Skipped? || s.excuse.Refreshed?) && !Heals(s, step))
  {
    hide Publication, Reclaimable;
  }

  lemma {:induction false} ExcuseHasCause(s: State, steps: seq<Step>)
    requires Fresh(s) && Possible(s, steps)
    ensures !After(s, steps).excuse.Nothing? ==> Parted(s, steps)
    ensures After(s, steps).excuse.Skipped? || After(s, steps).excuse.Refreshed? ==> PartedAlive(s, steps)
  {
    var n := |steps| - 1;
    if 0 <= n {
      AtLast(s, steps);
      var before := After(s, steps[..n]);
      ExcuseHasCause(s, steps[..n]);
      ExcuseStep(before, steps[n]);
      assert After(s, steps) == Apply(before, steps[n]);
      hide Possible, After, Apply, Parts, Heals, PartsAt, HealsAt;
      if PartsAt(s, steps, n) {
        assert PartedSince(s, steps, n);
      }
      if !before.excuse.Nothing? && !HealsAt(s, steps, n) {
        var i: nat :| i < n && PartedSince(s, steps[..n], i);
        PartedLonger(s, steps, i);
      }
      if (before.excuse.Skipped? || before.excuse.Refreshed?) && !HealsAt(s, steps, n) {
        var i: nat :| i < n && PartedSince(s, steps[..n], i) && steps[..n][i] != Stop;
        PartedLonger(s, steps, i);
      }
    }
  }

  /** Over every run, no drain hits the production deployment; and none hits the routed one,
      unless a refresh wrote late or a promotion moved the pointer without publishing. A stop
      between the two writes is no danger. */
  lemma {:induction false} DrainsSpare(s: State, steps: seq<Step>, x: nat)
    requires Fresh(s) && Possible(s, steps) && Enabled(After(s, steps), Drain(x))
    ensures After(s, steps).pointer != Some(x)
    ensures RouteIs(After(s, steps), x) ==> PartedAlive(s, steps)
  {
    InvHolds(s, steps);
    ExcuseHasCause(s, steps);
  }

  /** Over every run, production was not reclaimed, and only the same two causes can leave the
      route naming a deployment that was: one drained, detached and not started since. */
  lemma {:induction false} RoutedIsNotRetired(s: State, steps: seq<Step>, x: nat)
    requires Fresh(s) && Possible(s, steps) && x in After(s, steps).retired
    ensures After(s, steps).pointer != Some(x) && (RouteIs(After(s, steps), x) ==> PartedAlive(s, steps))
  {
    InvHolds(s, steps);
    ExcuseHasCause(s, steps);
  }

  // Drained but not detached

  /** A promotion that finds its container running takes one already asked to stop exactly when a
      drain of that container was cut off before it was recorded. */
  lemma WarmButDyingIff(s: State, steps: seq<Step>)
    requires Fresh(s) && Possible(s, steps) && Enabled(After(s, steps), Warm)
    ensures var t := After(s, steps);
            t.place.container.value in t.dying <==> exists i | 0 <= i < |steps| :: CutOffAt(s, steps, i, t.place.container.value)
  {
    InvHolds(s, steps);
    CutOffIff(s, steps, After(s, steps).place.container.value);
  }

  /** A stop between the drain of a container and the record of it. */
  predicate CutOffAt(s: State, steps: seq<Step>, i: nat, container: nat)
    requires i < |steps|
  {
    Possible(s, steps[..i]) && steps[i] == Stop && After(s, steps[..i]).place.Asked? && After(s, steps[..i]).place.stopping == container
  }

  lemma CutOffStep(s: State, step: Step, container: nat)
    requires Enabled(s, step)
    ensures container in Apply(s, step).cutOff <==>
            container in s.cutOff || (step == Stop && s.place.Asked? && s.place.stopping == container)
  {
    hide Publication, Reclaimable;
  }

  lemma CutOffAtLast(s: State, steps: seq<Step>, container: nat)
    requires Possible(s, steps) && steps != []
    ensures var before, after := After(s, steps[..|steps| - 1]), After(s, steps);
            container in after.cutOff <==> container in before.cutOff || CutOffAt(s, steps, |steps| - 1, container)
  {
    AtLast(s, steps);
    CutOffStep(After(s, steps[..|steps| - 1]), steps[|steps| - 1], container);
    hide Apply, Enabled, Parts, Heals, PartsAt, HealsAt;
  }

  lemma CutOffEarlier(s: State, steps: seq<Step>, n: nat, i: nat, container: nat)
    requires i < n <= |steps|
    ensures CutOffAt(s, steps[..n], i, container) == CutOffAt(s, steps, i, container)
  {
    hide Possible, After;
    assert steps[..n][..i] == steps[..i];
  }

  lemma {:induction false} CutOffIff(s: State, steps: seq<Step>, container: nat)
    requires Fresh(s) && Possible(s, steps)
    ensures container in After(s, steps).cutOff <==> exists i | 0 <= i < |steps| :: CutOffAt(s, steps, i, container)
  {
    hide CutOffAt, Apply, Enabled;
    var n := |steps| - 1;
    if 0 <= n {
      CutOffAtLast(s, steps, container);
      CutOffIff(s, steps[..n], container);
      forall i | 0 <= i < n { CutOffEarlier(s, steps, n, i, container); }
      hide After, Possible;
    }
  }

  // What a completed reclaim leaves

  ghost predicate DistinctNumbers(rows: Rows) {
    forall a, b | a in rows && b in rows && rows[a].number == rows[b].number :: a == b
  }

  function Spare(rows: Rows, protect: set<nat>): set<nat> {
    set id | id in rows && Resident(rows, id) && id !in protect
  }

  function Detached(rows: Rows, gone: set<nat>): Rows {
    map id | id in rows :: if id in gone then rows[id].(container := None) else rows[id]
  }

  /** After the reclaim the resident deployments are the protected ones and the newest `keep`
      others; the rest are as ready as before, with the same image, but not resident. */
  lemma WarmBound(rows: Rows, protect: set<nat>, keep: nat)
    requires DistinctNumbers(rows)
    ensures var stale := Reclaimable(rows, protect, keep);
            var kept := Spare(rows, protect) - stale;
            && stale <= Spare(rows, protect)
            && |kept| == (if |Spare(rows, protect)| <= keep then |Spare(rows, protect)| else keep)
            && (forall a, b | a in kept && b in stale :: rows[b].number < rows[a].number)
            && (forall id :: Resident(Detached(rows, stale), id) <==> id in kept || (id in protect && Resident(rows, id)))
            && (forall id | id in stale :: Detached(rows, stale)[id].ready && Detached(rows, stale)[id].image == rows[id].image)
  {
    var spare, stale := Spare(rows, protect), Reclaimable(rows, protect, keep);
    forall a, b | a in spare - stale && b in stale ensures rows[b].number < rows[a].number {
      KeptIsNewer(rows, protect, keep, a, b);
    }
    KeptCount(rows, protect, keep);
    hide NewerThan;
  }

  lemma KeptIsNewer(rows: Rows, protect: set<nat>, keep: nat, a: nat, b: nat)
    requires DistinctNumbers(rows) && a in Spare(rows, protect) - Reclaimable(rows, protect, keep)
    requires b in Reclaimable(rows, protect, keep)
    ensures rows[b].number < rows[a].number
  {
    if rows[a].number <= rows[b].number {
      assert a != b && rows[a].number < rows[b].number;
      assert NewerThan(rows, protect, b) <= NewerThan(rows, protect, a);
      SubsetSize(NewerThan(rows, protect, b), NewerThan(rows, protect, a));
    }
  }

  lemma KeptCount(rows: Rows, protect: set<nat>, keep: nat)
    requires DistinctNumbers(rows)
    ensures |Spare(rows, protect) - Reclaimable(rows, protect, keep)| ==
            if |Spare(rows, protect)| <= keep then |Spare(rows, protect)| else keep
  {
    var spare, stale := Spare(rows, protect), Reclaimable(rows, protect, keep);
    forall id | id in spare ensures NewerThan(rows, protect, id) == Above(rows, spare, id) {
    }
    TopCount(rows, spare, keep);
    assert Top(rows, spare, keep) == spare - stale;
  }

  function Above(rows: Rows, pool: set<nat>, id: nat): set<nat>
    requires pool <= rows.Keys && id in rows
  {
    set other | other in pool && rows[id].number < rows[other].number
  }

  /** The `keep` highest-numbered of a pool. */
  function Top(rows: Rows, pool: set<nat>, keep: nat): set<nat>
    requires pool <= rows.Keys
  {
    set id | id in pool && |Above(rows, pool, id)| < keep
  }

  lemma {:induction false} Lowest(rows: Rows, pool: set<nat>) returns (low: nat)
    requires pool <= rows.Keys && pool != {} && DistinctNumbers(rows)
    ensures low in pool && forall id | id in pool && id != low :: rows[low].number < rows[id].number
    decreases |pool|
  {
    low :| low in pool;
    if pool != {low} {
      var other := Lowest(rows, pool - {low});
      low := if rows[low].number < rows[other].number then low else other;
    }
  }

  lemma {:induction false} TopCount(rows: Rows, pool: set<nat>, keep: nat)
    requires pool <= rows.Keys && DistinctNumbers(rows)
    ensures |Top(rows, pool, keep)| == if |pool| <= keep then |pool| else keep
    decreases |pool|
  {
    if pool != {} {
      var low := Lowest(rows, pool);
      var rest := pool - {low};
      TopCount(rows, rest, keep);
      TopWithLowest(rows, pool, keep, low);
      if |rest| < keep {
        assert low !in Top(rows, rest, keep);
      }
    }
  }

  lemma TopWithLowest(rows: Rows, pool: set<nat>, keep: nat, low: nat)
    requires pool <= rows.Keys && low in pool
    requires forall id | id in pool && id != low :: rows[low].number < rows[id].number
    ensures Top(rows, pool, keep) == Top(rows, pool - {low}, keep) + if |pool - {low}| < keep then {low} else {}
  {
    var rest := pool - {low};
    assert Above(rows, pool, low) == rest;
    forall id | id in rest ensures Above(rows, pool, id) == Above(rows, rest, id) {
    }
  }
}
