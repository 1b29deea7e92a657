/** What the route file holds after any run: the deployment it was last written for, the list of
    domains behind that write, and so when it is not what production or its domains ask for. */
module RouteHistory {
  import opened Wrappers
  import opened Routing
  import opened Promotion
  import opened PromotionHarm

  lemma {:induction false} PrefixPossible(s: State, steps: seq<Step>, i: nat)
    requires Possible(s, steps) && i <= |steps|
    ensures Possible(s, steps[..i])
  {
    if i < |steps| {
      PrefixPossible(s, steps[..|steps| - 1], i);
      assert steps[..|steps| - 1][..i] == steps[..i];
    } else {
      assert steps[..i] == steps;
    }
  }

  /** The state before step i of a run. */
  function At(s: State, steps: seq<Step>, i: nat): State
    requires Possible(s, steps) && i <= |steps|
  {
    PrefixPossible(s, steps, i);
    After(s, steps[..i])
  }

  lemma AtNext(s: State, steps: seq<Step>, i: nat)
    requires Possible(s, steps) && i < |steps|
    ensures Enabled(At(s, steps, i), steps[i]) && At(s, steps, i + 1) == Apply(At(s, steps, i), steps[i])
  {
    PrefixPossible(s, steps, i + 1);
    assert steps[..i + 1][..i] == steps[..i];
    hide Apply, Enabled;
  }

  lemma AtEnds(s: State, steps: seq<Step>)
    requires Possible(s, steps)
    ensures At(s, steps, 0) == s && At(s, steps, |steps|) == After(s, steps)
  {
    assert steps[..|steps|] == steps;
    hide Apply, Enabled;
  }

  // Who the route was written for

  /** The steps that write the route file or clear it. */
  predicate Writes(s: State, step: Step) {
    (step.Publish? && s.place.Listed?) || step.RefreshWrite?
  }

  /** The deployment a write is for; none for a refresh that found no production. */
  function Target(s: State, step: Step): Option<nat>
    requires Writes(s, step)
  {
    if step.Publish? then Some(s.place.id) else step.refresh.seen
  }

  /** The deployment the last write before step i was for. */
  function WrittenBefore(s: State, steps: seq<Step>, i: nat): Option<nat>
    requires Possible(s, steps) && i <= |steps|
  {
    if i == 0 then None
    else if Writes(At(s, steps, i - 1), steps[i - 1]) then Target(At(s, steps, i - 1), steps[i - 1])
    else WrittenBefore(s, steps, i - 1)
  }

  function WrittenFor(s: State, steps: seq<Step>): Option<nat>
    requires Possible(s, steps)
  {
    WrittenBefore(s, steps, |steps|)
  }

  function RouteFor(domains: seq<Domain>, target: Option<nat>): Option<Route> {
    if target.None? then None else Publication(domains, target.value)
  }

  lemma WriteLeaves(s: State, step: Step)
    requires Enabled(s, step)
    ensures if Writes(s, step) then Apply(s, step).route == RouteFor(Apply(s, step).listed, Target(s, step))
            else Apply(s, step).route == s.route && Apply(s, step).listed == s.listed
  {
    hide Publication, Reclaimable;
  }

  lemma {:induction false} RouteIsWritten(s: State, steps: seq<Step>, i: nat)
    requires Fresh(s) && Possible(s, steps) && i <= |steps|
    ensures At(s, steps, i).route == RouteFor(At(s, steps, i).listed, WrittenBefore(s, steps, i))
  {
    if i == 0 {
      AtEnds(s, steps);
    } else {
      RouteIsWritten(s, steps, i - 1);
      AtNext(s, steps, i - 1);
      WriteLeaves(At(s, steps, i - 1), steps[i - 1]);
      hide At, Apply, Enabled, Writes, Target, RouteFor;
    }
  }

  // When route and pointer are apart

  lemma {:induction false} ApartAt(s: State, steps: seq<Step>, i: nat)
    requires Fresh(s) && Possible(s, steps) && i <= |steps|
    ensures var t := At(s, steps, i);
            Apart(t) <==> WrittenBefore(s, steps, i) != t.pointer && AnyVerified(t.listed)
  {
    RouteIsWritten(s, steps, i);
    var t, target := At(s, steps, i), WrittenBefore(s, steps, i);
    PublicationsDiffer(t.listed, if t.pointer.Some? then t.pointer.value else 0, if target.Some? then target.value else 0);
    hide Publication, At, AnyVerified, WrittenBefore;
  }

  /** Over every run, the route is not what goes with the pointer if and only if it was last
      written for another deployment, and a domain was verified then. */
  lemma {:induction false} ApartIff(s: State, steps: seq<Step>)
    requires Fresh(s) && Possible(s, steps)
    ensures var t := After(s, steps);
            Apart(t) <==> WrittenFor(s, steps) != t.pointer && AnyVerified(t.listed)
  {
    ApartAt(s, steps, |steps|);
    AtEnds(s, steps);
    hide At, Apart, AnyVerified, WrittenBefore;
  }

  /** Over every run, they are apart if and only if this is so and, besides, a promotion is between
      its two writes, or something parted them and nothing healed it since: a promotion stopped
      between its two writes or moved the pointer without publishing, or a refresh wrote there or
      for a production it had read too early. */
  lemma {:induction false} ApartHasCause(s: State, steps: seq<Step>)
    requires Fresh(s) && Possible(s, steps)
    ensures var t := After(s, steps);
            Apart(t) <==> (Parted(s, steps) || InWindow(t)) && WrittenFor(s, steps) != t.pointer && AnyVerified(t.listed)
  {
    hide Possible, After, Parted, PartedAlive, AnyVerified, WrittenFor, Publication;
    ApartIff(s, steps);
    InvHolds(s, steps);
    ExcuseHasCause(s, steps);
  }

  /** Whether they are apart after a step, given who the route was last written for before it. */
  ghost predicate WillBeApart(s: State, step: Step, target: Option<nat>)
    requires Enabled(s, step)
  {
    match step
    case Publish => if s.place.Listed? then Some(s.place.id) != s.pointer && AnyVerified(s.place.found) else Apart(s)
    case RefreshWrite(Ready(seen, found)) => seen != s.pointer && AnyVerified(found)
    case RefreshWrite(Read(_)) => s.pointer.Some? && AnyVerified(s.listed)
    case Point => Some(s.place.id) != target && AnyVerified(s.listed)
    case _ => Apart(s)
  }

  lemma OneStepParts(s: State, step: Step, target: Option<nat>)
    requires Enabled(s, step) && (Apart(s) <==> target != s.pointer && AnyVerified(s.listed))
    ensures var after := Apply(s, step);
            (if Writes(s, step) then Target(s, step) else target) != after.pointer && AnyVerified(after.listed)
            <==> WillBeApart(s, step, target)
  {
    hide Publication, Reclaimable, Apart, AnyVerified;
  }

  /** Over every run, the steps that bring route and pointer together or apart are a website's
      write, a refresh's write and the move of the pointer; each leaves them together exactly when
      the write is for production, or the pointer moves to what the route was written for, or no
      domain of the list is verified. */
  lemma {:induction false} StepPartsIff(s: State, steps: seq<Step>, i: nat)
    requires Fresh(s) && Possible(s, steps) && i < |steps|
    ensures Enabled(At(s, steps, i), steps[i])
    ensures Apart(At(s, steps, i + 1)) <==> WillBeApart(At(s, steps, i), steps[i], WrittenBefore(s, steps, i))
  {
    AtNext(s, steps, i);
    ApartAt(s, steps, i);
    ApartAt(s, steps, i + 1);
    OneStepParts(At(s, steps, i), steps[i], WrittenBefore(s, steps, i));
    hide Apart, AnyVerified, At, Apply, Enabled, Writes, Target, WillBeApart;
  }

  /** What a refresh holds that has read production, and its domains if there is production. */
  function ReadOf(s: State): Promotion.Refresh {
    if s.pointer.None? then Read(None) else Ready(s.pointer, s.domains)
  }

  /** A refresh reads production and the domains with nothing in between. */
  lemma {:induction false} RefreshReads(s: State, steps: seq<Step>) returns (all: seq<Step>)
    requires Possible(s, steps)
    ensures steps <= all && forall k | |steps| <= k < |all| :: OfRefresh(all[k])
    ensures Possible(s, all)
    ensures After(s, all) == After(s, steps).(refreshes := After(s, steps).refreshes + multiset{ReadOf(After(s, steps))})
  {
    var t := After(s, steps);
    hide Publication, Reclaimable, Possible, After;
    Extend(s, steps, RefreshRead);
    all := steps + [RefreshRead];
    if t.pointer.Some? {
      Extend(s, all, RefreshList(t.pointer.value));
      all := all + [RefreshList(t.pointer.value)];
      assert t.refreshes + multiset{Read(t.pointer)} - multiset{Read(t.pointer)} == t.refreshes;
    }
  }

  lemma WriteRepairs(s: State)
    requires ReadOf(s) in s.refreshes
    ensures Enabled(s, RefreshWrite(ReadOf(s)))
    ensures var after := Apply(s, RefreshWrite(ReadOf(s)));
            after.pointer == s.pointer && after.route == RouteFor(s.domains, s.pointer) && !Apart(after)
  {
    hide Publication, Reclaimable;
  }

  /** After any run, a refresh that nothing interrupts brings them together, whatever kept them
      apart: it writes what the domains ask for production. */
  lemma {:induction false} RefreshRepairs(s: State, steps: seq<Step>) returns (all: seq<Step>)
    requires Possible(s, steps)
    ensures steps <= all && forall k | |steps| <= k < |all| :: OfRefresh(all[k])
    ensures Possible(s, all) && !Apart(After(s, all))
    ensures After(s, all).pointer == After(s, steps).pointer
    ensures After(s, all).route == RouteFor(After(s, steps).domains, After(s, steps).pointer)
  {
    hide Apart, RouteFor, Apply, Enabled, Possible, After;
    all := RefreshReads(s, steps);
    var write := RefreshWrite(ReadOf(After(s, steps)));
    WriteRepairs(After(s, all));
    Extend(s, all, write);
    all := all + [write];
  }

  /** Over every run, a promotion that nothing interrupts leaves them together, unless it read a
      background service: then exactly when it promotes the deployment the route was last written
      for, or no domain was verified at that write. */
  lemma PromotionRepairsIff(s: State, steps: seq<Step>, id: nat, kind: bool, c: nat)
    requires Fresh(s) && Possible(s, steps)
    requires Enabled(After(s, steps), Choose(id, kind)) && CanGoOn(Apply(After(s, steps), Choose(id, kind)), c)
    ensures var t := After(s, steps);
            !Apart(Uninterrupted(Apply(t, Choose(id, kind)), c)) <==>
            !kind || WrittenFor(s, steps) == Some(id) || !AnyVerified(t.listed)
  {
    var t := After(s, steps);
    RouteIsWritten(s, steps, |steps|);
    AtEnds(s, steps);
    var target := WrittenFor(s, steps);
    PublicationsDiffer(t.listed, id, if target.Some? then target.value else 0);
    var rest := UninterruptedIs(Apply(t, Choose(id, kind)), c);
    hide Publication, Reclaimable, Possible, After, At, AnyVerified, WrittenFor, Uninterrupted;
  }

  // Which list of domains is behind the route

  predicate WritesAt(s: State, steps: seq<Step>, i: nat)
    requires Possible(s, steps) && i < |steps|
  {
    Writes(At(s, steps, i), steps[i])
  }

  /** Step i is the last that wrote the route. */
  predicate LastWrite(s: State, steps: seq<Step>, i: nat)
    requires Possible(s, steps) && i < |steps|
  {
    WritesAt(s, steps, i) && forall k | i < k < |steps| :: !WritesAt(s, steps, k)
  }

  /** Step j read the domains that step i wrote the route from: for the same promotion, or the
      refresh's own list. */
  predicate ListedFor(s: State, steps: seq<Step>, j: nat, i: nat)
    requires Possible(s, steps) && j < |steps| && i < |steps|
  {
    j < i &&
    match steps[i]
    case Publish => steps[j] == ListDomains && forall k | j < k < i :: !OfPromotion(steps[k])
    case RefreshWrite(Ready(Some(seen), found)) => steps[j] == RefreshList(seen) && At(s, steps, j).domains == found
    case _ => false
  }

  /** Step j read the domains the route was last written from. */
  predicate Behind(s: State, steps: seq<Step>, j: nat)
    requires Possible(s, steps) && j < |steps|
  {
    exists i | 0 <= i < |steps| :: LastWrite(s, steps, i) && ListedFor(s, steps, j, i)
  }

  lemma {:induction false} LastWriteExists(s: State, steps: seq<Step>, n: nat) returns (i: nat)
    requires Possible(s, steps) && n <= |steps| && WrittenBefore(s, steps, n).Some?
    requires forall k | n <= k < |steps| :: !WritesAt(s, steps, k)
    ensures i < |steps| && LastWrite(s, steps, i) && WritesAt(s, steps, i)
  {
    hide At, Writes, Target, Possible, After;
    if WritesAt(s, steps, n - 1) {
      i := n - 1;
    } else {
      i := LastWriteExists(s, steps, n - 1);
    }
  }

  lemma {:induction false} SinceLastWrite(s: State, steps: seq<Step>, i: nat, n: nat)
    requires Possible(s, steps) && i < n <= |steps| && LastWrite(s, steps, i)
    ensures At(s, steps, n).listed == At(s, steps, i + 1).listed
    ensures WrittenBefore(s, steps, n) == Target(At(s, steps, i), steps[i])
  {
    hide At, Apply, Enabled, Writes, Target, Possible, After;
    assert WritesAt(s, steps, i);
    if i + 1 < n {
      SinceLastWrite(s, steps, i, n - 1);
      AtNext(s, steps, n - 1);
      WriteLeaves(At(s, steps, n - 1), steps[n - 1]);
      assert !WritesAt(s, steps, n - 1);
    }
  }

  lemma StepKeepsPlace(s: State, step: Step)
    requires Enabled(s, step) && !OfPromotion(step)
    ensures Apply(s, step).place == s.place
  {
    hide Reclaimable, Publication;
  }

  lemma {:induction false} PlaceStays(s: State, steps: seq<Step>, j: nat, n: nat)
    requires Possible(s, steps) && j < n <= |steps|
    requires forall k | j < k < n :: !OfPromotion(steps[k])
    ensures At(s, steps, n).place == At(s, steps, j + 1).place
  {
    hide At, Apply, Enabled, OfPromotion, Possible, After;
    if j + 1 < n {
      PlaceStays(s, steps, j, n - 1);
      AtNext(s, steps, n - 1);
      StepKeepsPlace(At(s, steps, n - 1), steps[n - 1]);
    }
  }

  /** What a write writes is what the step that listed for it read. */
  lemma WritesWhatWasListed(s: State, steps: seq<Step>, j: nat, i: nat)
    requires Possible(s, steps) && j < |steps| && i < |steps| && WritesAt(s, steps, i) && ListedFor(s, steps, j, i)
    ensures At(s, steps, i + 1).listed == At(s, steps, j).domains && Target(At(s, steps, i), steps[i]).Some?
  {
    AtNext(s, steps, j);
    AtNext(s, steps, i);
    if steps[i].Publish? {
      PlaceStays(s, steps, j, i);
    }
    hide At, Publication, Reclaimable;
  }

  lemma StepLists(s: State, step: Step)
    requires Enabled(s, step) && Apply(s, step).place.Listed?
    ensures step == ListDomains || (!OfPromotion(step) && s.place.Listed?)
  {
    hide Reclaimable, Publication;
  }

  /** The list a promotion is about to write from was read by its own last step. */
  lemma {:induction false} PlaceWasListed(s: State, steps: seq<Step>, n: nat) returns (j: nat)
    requires Fresh(s) && Possible(s, steps) && n <= |steps| && At(s, steps, n).place.Listed?
    ensures j < n && steps[j] == ListDomains && forall k | j < k < n :: !OfPromotion(steps[k])
  {
    hide At, Apply, Enabled, OfPromotion, Possible, After;
    AtEnds(s, steps);
    assert n != 0;
    AtNext(s, steps, n - 1);
    StepLists(At(s, steps, n - 1), steps[n - 1]);
    j := n - 1;
    if steps[n - 1] != ListDomains {
      j := PlaceWasListed(s, steps, n - 1);
    }
  }

  lemma StepReads(s: State, step: Step, refresh: Promotion.Refresh)
    requires Enabled(s, step) && refresh.Ready? && refresh in Apply(s, step).refreshes && refresh !in s.refreshes
    ensures refresh.seen.Some? && step == RefreshList(refresh.seen.value) && s.domains == refresh.found
  {
    hide Reclaimable, Publication;
  }

  /** The list an outstanding refresh holds was read by a step of it. */
  lemma {:induction false} ReadyWasListed(s: State, steps: seq<Step>, n: nat, refresh: Promotion.Refresh) returns (j: nat)
    requires Fresh(s) && Possible(s, steps) && n <= |steps| && refresh.Ready? && refresh in At(s, steps, n).refreshes
    ensures j < n && refresh.seen.Some? && steps[j] == RefreshList(refresh.seen.value) && At(s, steps, j).domains == refresh.found
  {
    hide At, Apply, Enabled, Possible, After;
    AtEnds(s, steps);
    AtNext(s, steps, n - 1);
    j := n - 1;
    if refresh in At(s, steps, n - 1).refreshes {
      j := ReadyWasListed(s, steps, n - 1, refresh);
    } else {
      StepReads(At(s, steps, n - 1), steps[n - 1], refresh);
    }
  }

  /** Over every run, a route last written for some deployment has a list behind it. */
  lemma {:induction false} ListIsBehind(s: State, steps: seq<Step>) returns (j: nat)
    requires Fresh(s) && Possible(s, steps) && WrittenFor(s, steps).Some?
    ensures j < |steps| && Behind(s, steps, j)
  {
    hide At, Apply, Possible, After, LastWrite;
    var i := LastWriteExists(s, steps, |steps|);
    SinceLastWrite(s, steps, i, |steps|);
    AtNext(s, steps, i);
    if steps[i].Publish? {
      j := PlaceWasListed(s, steps, i);
    } else {
      j := ReadyWasListed(s, steps, i, steps[i].refresh);
    }
    assert ListedFor(s, steps, j, i);
  }

  lemma {:induction false} RouteBehind(s: State, steps: seq<Step>, j: nat)
    requires Fresh(s) && Possible(s, steps) && j < |steps| && Behind(s, steps, j)
    ensures WrittenFor(s, steps).Some?
    ensures After(s, steps).route == Publication(At(s, steps, j).domains, WrittenFor(s, steps).value)
  {
    var i: nat :| i < |steps| && LastWrite(s, steps, i) && ListedFor(s, steps, j, i);
    SinceLastWrite(s, steps, i, |steps|);
    WritesWhatWasListed(s, steps, j, i);
    RouteIsWritten(s, steps, |steps|);
    AtEnds(s, steps);
    hide At, LastWrite, ListedFor, Publication;
  }

  /** Over every run, a route last written for some deployment has a list behind it, and one last
      written for none is cleared. */
  lemma {:induction false} RouteHasList(s: State, steps: seq<Step>)
    requires Fresh(s) && Possible(s, steps)
    ensures if WrittenFor(s, steps).Some? then exists j | 0 <= j < |steps| :: Behind(s, steps, j)
            else After(s, steps).route.None?
  {
    RouteIsWritten(s, steps, |steps|);
    AtEnds(s, steps);
    if WrittenFor(s, steps).Some? {
      var j := ListIsBehind(s, steps);
    }
  }

  /** Over every run, a host is routed if and only if it was a verified domain when the list behind
      the last write was read, whatever became of the domains since. */
  lemma {:induction false} RoutedHostsIff(s: State, steps: seq<Step>, host: string)
    requires Fresh(s) && Possible(s, steps)
    ensures forall j | 0 <= j < |steps| && Behind(s, steps, j) ::
              Serves(After(s, steps).route, host) <==> IsVerifiedHost(At(s, steps, j).domains, host)
  {
    forall j | 0 <= j < |steps| && Behind(s, steps, j)
      ensures Serves(After(s, steps).route, host) <==> IsVerifiedHost(At(s, steps, j).domains, host)
    {
      RouteBehind(s, steps, j);
      ServesVerified(At(s, steps, j).domains, WrittenFor(s, steps).value, host);
    }
  }

  lemma StepKeepsDomains(s: State, step: Step)
    requires Enabled(s, step) && !step.SetDomains?
    ensures Apply(s, step).domains == s.domains
  {
    hide Reclaimable, Publication;
  }

  lemma {:induction false} DomainsStay(s: State, steps: seq<Step>, j: nat, n: nat)
    requires Possible(s, steps) && j <= n <= |steps|
    requires forall k | j <= k < n :: !steps[k].SetDomains?
    ensures At(s, steps, n).domains == At(s, steps, j).domains
  {
    hide At, Apply, Enabled, Possible, After;
    if j < n {
      DomainsStay(s, steps, j, n - 1);
      AtNext(s, steps, n - 1);
      StepKeepsDomains(At(s, steps, n - 1), steps[n - 1]);
    }
  }

  /** Over every run, if the domains were not changed since the list behind the route was read,
      whoever changed or refreshed what else, the route is exactly what the domains ask for. */
  lemma {:induction false} RouteIsCurrent(s: State, steps: seq<Step>, j: nat)
    requires Fresh(s) && Possible(s, steps) && j < |steps|
    requires forall k | j < k < |steps| :: !steps[k].SetDomains?
    ensures Behind(s, steps, j) ==> After(s, steps).route == RouteFor(After(s, steps).domains, WrittenFor(s, steps))
  {
    if Behind(s, steps, j) {
      RouteBehind(s, steps, j);
      assert !steps[j].SetDomains?;
      DomainsStay(s, steps, j, |steps|);
      AtEnds(s, steps);
    }
  }

  // Nothing parted, nothing stale

  /** What the route should be for: production, or what is promoted between the two writes. */
  function Served(s: State): Option<nat> {
    if InWindow(s) then Some(s.place.id) else s.pointer
  }

  lemma StepStaysUnparted(s: State, step: Step, target: Option<nat>)
    requires Enabled(s, step) && (s.excuse.Nothing? ==> target == Served(s)) && Apply(s, step).excuse.Nothing?
    ensures Served(Apply(s, step)) == if Writes(s, step) then Target(s, step) else target
  {
    hide Reclaimable, Publication;
  }

  lemma {:induction false} WrittenForServed(s: State, steps: seq<Step>, i: nat)
    requires Fresh(s) && Possible(s, steps) && i <= |steps| && At(s, steps, i).excuse.Nothing?
    ensures WrittenBefore(s, steps, i) == Served(At(s, steps, i))
  {
    if i == 0 {
      AtEnds(s, steps);
    } else {
      AtNext(s, steps, i - 1);
      if At(s, steps, i - 1).excuse.Nothing? {
        WrittenForServed(s, steps, i - 1);
      }
      StepStaysUnparted(At(s, steps, i - 1), steps[i - 1], WrittenBefore(s, steps, i - 1));
      hide At, Apply, Enabled, Served, Writes, Target;
    }
  }

  /** Over every run, unless something parted them and nothing healed it since, whenever there is
      a route or production, the route is exactly what domains the project had ask for production,
      or between the two writes for what is promoted. */
  lemma {:induction false} WrittenAsPublished(s: State, steps: seq<Step>)
    requires Fresh(s) && Possible(s, steps) && !Parted(s, steps)
    ensures After(s, steps).route.Some? || After(s, steps).pointer.Some? ==>
              exists j | 0 <= j < |steps| ::
                Behind(s, steps, j) && After(s, steps).route == RouteFor(At(s, steps, j).domains, Served(After(s, steps)))
  {
    hide Parted, PartedAlive, Possible, After, Behind, At;
    ExcuseHasCause(s, steps);
    AtEnds(s, steps);
    WrittenForServed(s, steps, |steps|);
    RouteIsWritten(s, steps, |steps|);
    if WrittenFor(s, steps).Some? {
      var j := ListIsBehind(s, steps);
      RouteBehind(s, steps, j);
    }
  }
}
