/** Which image tags a sweep keeps, and which it removes. */
module Retention {
  import opened Sets
  import opened Wrappers
  import opened Text
  import opened Naming
  import opened Deployments

  /** A row of the deployments table with its id. */
  datatype Listed = Listed(id: nat, row: Deployment)

  datatype Project = Project(slug: string, production: Option<nat>)

  /** Its image is not recorded yet, or is still being started. */
  predicate Pending(x: Listed) {
    x.row.status.Queued? || x.row.status.InFlight()
  }

  predicate HasTag(x: Listed) {
    x.row.imageTag.Some? && x.row.imageTag.value != ""
  }

  /** The tag a deployment runs, or will once built. */
  function TagOf(slug: string, x: Listed): string
    requires Pending(x) || HasTag(x)
  {
    if Pending(x) then ImageTag(slug, x.row.gitSha) else x.row.imageTag.value
  }

  /** Deployments of one outcome, with an image, numbered above this one. */
  function Above(all: seq<Listed>, status: Status, x: Listed): set<Listed> {
    set y | y in all && HasTag(y) && y.row.status == status && x.row.number < y.row.number
  }

  /** Serving, running, among the `keep` newest ready ones, or the newest failure. */
  predicate InUse(project: Project, all: seq<Listed>, keep: nat, x: Listed) {
    || Some(x.id) == project.production
    || x.row.container.Some?
    || (x.row.status == Ready && |Above(all, Ready, x)| < keep)
    || (x.row.status == Failed && Above(all, Failed, x) == {})
  }

  predicate Needs(project: Project, all: seq<Listed>, keep: nat, x: Listed) {
    Pending(x) || (HasTag(x) && InUse(project, all, keep, x))
  }

  /** The tags some deployment of the project needs. */
  function Kept(project: Project, all: seq<Listed>, keep: nat): set<string> {
    set x | x in all && Needs(project, all, keep, x) :: TagOf(project.slug, x)
  }

  ghost predicate DistinctRows(all: seq<Listed>) {
    forall i, j | 0 <= i < j < |all| :: all[i].row.number != all[j].row.number && all[i].id != all[j].id
  }

  // Sorting by number, highest first

  function Insert(x: Listed, s: seq<Listed>): seq<Listed> {
    if s == [] || s[0].row.number < x.row.number then [x] + s else [s[0]] + Insert(x, s[1..])
  }

  function NewestFirst(s: seq<Listed>): seq<Listed> {
    if s == [] then [] else Insert(s[|s| - 1], NewestFirst(s[..|s| - 1]))
  }

  ghost predicate Descending(s: seq<Listed>) {
    forall i, j | 0 <= i < j < |s| :: s[i].row.number > s[j].row.number
  }

  lemma {:induction false} InsertSorts(x: Listed, s: seq<Listed>)
    requires Descending(s) && forall y | y in s :: y.row.number != x.row.number
    ensures Descending(Insert(x, s))
    ensures forall y :: y in Insert(x, s) <==> y == x || y in s
  {
    if s != [] && x.row.number < s[0].row.number {
      InsertSorts(x, s[1..]);
      assert s == [s[0]] + s[1..];
      var t := Insert(x, s[1..]);
      forall i | 0 <= i < |t| ensures s[0].row.number > t[i].row.number {
        assert t[i] in t;
      }
    } else if s != [] {
      assert s[0] in s;
    }
  }

  lemma {:induction false} NewestFirstSorts(s: seq<Listed>)
    requires DistinctRows(s)
    ensures Descending(NewestFirst(s))
    ensures forall y :: y in NewestFirst(s) <==> y in s
  {
    if s != [] {
      var rest, last := s[..|s| - 1], s[|s| - 1];
      NewestFirstSorts(rest);
      InsertSorts(last, NewestFirst(rest));
      assert s == rest + [last];
    }
  }

  function AsSet(s: seq<Listed>): set<Listed> {
    set x | x in s
  }

  lemma {:induction false} DescendingCount(s: seq<Listed>)
    requires Descending(s)
    ensures |AsSet(s)| == |s|
  {
    if s != [] {
      var rest, last := s[..|s| - 1], s[|s| - 1];
      DescendingCount(rest);
      assert s == rest + [last];
      assert AsSet(s) == AsSet(rest) + {last};
      assert last !in rest;
    }
  }

  function Front(s: seq<Listed>, keep: nat): seq<Listed> {
    if |s| <= keep then s else s[..keep]
  }

  /** A sorted list's first `keep` are those with fewer than `keep` numbered above them. */
  lemma FrontIsTop(s: seq<Listed>, keep: nat, x: Listed)
    requires Descending(s) && x in s
    ensures x in Front(s, keep) <==> |set y | y in s && x.row.number < y.row.number| < keep
  {
    var i :| 0 <= i < |s| && s[i] == x;
    assert (set y | y in s && x.row.number < y.row.number) == AsSet(s[..i]);
    DescendingCount(s[..i]);
    if x in Front(s, keep) {
      var j :| 0 <= j < |Front(s, keep)| && Front(s, keep)[j] == x;
      assert s[j] == x && i == j;
    }
    if i < keep {
      assert Front(s, keep)[i] == x;
    }
  }

  // Choosing what to keep

  function WithTag(all: seq<Listed>, status: Status): seq<Listed> {
    if all == [] then []
    else
      var last := all[|all| - 1];
      WithTag(all[..|all| - 1], status) + if HasTag(last) && last.row.status == status then [last] else []
  }

  lemma {:induction false} WithTagAre(all: seq<Listed>, status: Status)
    requires DistinctRows(all)
    ensures forall x :: x in WithTag(all, status) <==> x in all && HasTag(x) && x.row.status == status
    ensures DistinctRows(WithTag(all, status))
  {
    if all != [] {
      var rest, last := all[..|all| - 1], all[|all| - 1];
      WithTagAre(rest, status);
      assert all == rest + [last];
      forall i | 0 <= i < |WithTag(rest, status)|
        ensures WithTag(rest, status)[i].row.number != last.row.number && WithTag(rest, status)[i].id != last.id
      {
        assert WithTag(rest, status)[i] in rest;
      }
    }
  }

  predicate AtOnce(project: Project, x: Listed) {
    Pending(x) || (HasTag(x) && (Some(x.id) == project.production || x.row.container.Some?))
  }

  function KeptAtOnce(project: Project, all: seq<Listed>): set<string> {
    set x | x in all && AtOnce(project, x) :: TagOf(project.slug, x)
  }

  lemma AtOnceOneMore(project: Project, all: seq<Listed>, x: Listed)
    ensures KeptAtOnce(project, all + [x]) ==
            KeptAtOnce(project, all) + if AtOnce(project, x) then {TagOf(project.slug, x)} else {}
  {
    forall y | y in all ensures y in all + [x] {
    }
  }

  function Tags(slug: string, some: set<Listed>): set<string>
    requires forall x | x in some :: HasTag(x) && !Pending(x)
  {
    set x | x in some :: TagOf(slug, x)
  }

  function Newest(all: seq<Listed>, keep: nat): set<Listed> {
    set x | x in all && HasTag(x) && x.row.status == Ready && |Above(all, Ready, x)| < keep
  }

  function LastFailure(all: seq<Listed>): set<Listed> {
    set x | x in all && HasTag(x) && x.row.status == Failed && Above(all, Failed, x) == {}
  }

  lemma NewestIsFront(all: seq<Listed>, keep: nat)
    requires DistinctRows(all)
    ensures AsSet(Front(NewestFirst(WithTag(all, Ready)), keep)) == Newest(all, keep)
  {
    var ready := NewestFirst(WithTag(all, Ready));
    WithTagAre(all, Ready);
    NewestFirstSorts(WithTag(all, Ready));
    forall x | x in ready ensures x in Front(ready, keep) <==> x in Newest(all, keep) {
      FrontIsTop(ready, keep, x);
      assert (set y | y in ready && x.row.number < y.row.number) == Above(all, Ready, x);
    }
  }

  lemma LastFailureIsFirst(all: seq<Listed>)
    requires DistinctRows(all)
    ensures AsSet(Front(NewestFirst(WithTag(all, Failed)), 1)) == LastFailure(all)
  {
    var failed := NewestFirst(WithTag(all, Failed));
    WithTagAre(all, Failed);
    NewestFirstSorts(WithTag(all, Failed));
    forall x | x in failed ensures x in Front(failed, 1) <==> x in LastFailure(all) {
      FrontIsTop(failed, 1, x);
      assert (set y | y in failed && x.row.number < y.row.number) == Above(all, Failed, x);
    }
  }

  lemma KeptParts(project: Project, all: seq<Listed>, keep: nat)
    ensures Kept(project, all, keep) ==
            KeptAtOnce(project, all) + Tags(project.slug, Newest(all, keep)) + Tags(project.slug, LastFailure(all))
  {
    var parts := KeptAtOnce(project, all) + Tags(project.slug, Newest(all, keep)) + Tags(project.slug, LastFailure(all));
    forall tag | tag in Kept(project, all, keep) ensures tag in parts {
      var x :| x in all && Needs(project, all, keep, x) && tag == TagOf(project.slug, x);
      assert AtOnce(project, x) || x in Newest(all, keep) || x in LastFailure(all);
    }
    forall tag | tag in parts ensures tag in Kept(project, all, keep) {
      if tag in KeptAtOnce(project, all) {
        var x :| x in all && AtOnce(project, x) && tag == TagOf(project.slug, x);
        assert Needs(project, all, keep, x);
      }
    }
  }

  /** The image tags of one project that must survive a sweep. */
  method ImagesToKeep(project: Project, all: seq<Listed>, keep: nat) returns (kept: set<string>)
    requires DistinctRows(all)
    ensures kept == Kept(project, all, keep)
  {
    kept := {};
    var ready, failed: seq<Listed> := [], [];
    for i := 0 to |all|
      invariant kept == KeptAtOnce(project, all[..i])
      invariant ready == WithTag(all[..i], Ready) && failed == WithTag(all[..i], Failed)
    {
      var x := all[i];
      assert all[..i + 1] == all[..i] + [x] && all[..i + 1][..i] == all[..i];
      AtOnceOneMore(project, all[..i], x);
      if x.row.status.Queued? || x.row.status.InFlight() {
        kept := kept + {ImageTag(project.slug, x.row.gitSha)};
        continue;
      }
      if x.row.imageTag.None? || x.row.imageTag.value == "" {
        continue;
      }
      if Some(x.id) == project.production || x.row.container.Some? {
        kept := kept + {x.row.imageTag.value};
      }
      if x.row.status == Ready {
        ready := ready + [x];
      } else if x.row.status == Failed {
        failed := failed + [x];
      }
    }
    assert all[..|all|] == all;
    NewestIsFront(all, keep);
    LastFailureIsFirst(all);
    KeptParts(project, all, keep);
    ready := NewestFirst(ready);
    assert forall x | x in Front(ready, keep) :: x in Newest(all, keep) by {
      assert forall x | x in Front(ready, keep) :: x in AsSet(Front(ready, keep));
    }
    kept := kept + TagsIn(project.slug, Front(ready, keep));
    failed := NewestFirst(failed);
    assert forall x | x in Front(failed, 1) :: x in LastFailure(all) by {
      assert forall x | x in Front(failed, 1) :: x in AsSet(Front(failed, 1));
    }
    kept := kept + TagsIn(project.slug, Front(failed, 1));
  }

  function TagsIn(slug: string, s: seq<Listed>): (tags: set<string>)
    requires forall x | x in s :: HasTag(x) && !Pending(x)
    ensures tags == Tags(slug, AsSet(s))
  {
    assert forall x | x in AsSet(s) :: HasTag(x) && !Pending(x) && TagOf(slug, x) == x.row.imageTag.value;
    set x | x in s && HasTag(x) :: x.row.imageTag.value
  }

  // Whose image is kept

  /** The deployments of one outcome with an image, numbered above this one. */
  function NewerWithImage(all: seq<Listed>, x: Listed): set<Listed> {
    set y | y in all && y.row.status == x.row.status && y.row.imageTag.Some? && y.row.imageTag.value != ""
            && x.row.number < y.row.number
  }

  /** A sweep never takes the image of a deployment that is queued or being built, whose tag is not
      recorded yet, nor the recorded one of production, of any deployment with a container, of the
      newest ready ones, or of the newest failure. */
  lemma InUseIsKept(project: Project, all: seq<Listed>, keep: nat, x: Listed)
    requires x in all
    ensures x.row.status in {Queued, Building, Deploying} ==> ImageTag(project.slug, x.row.gitSha) in Kept(project, all, keep)
    ensures x.row.status in {Ready, Failed, Cancelled} && x.row.imageTag.Some? && x.row.imageTag.value != "" ==>
              && (project.production == Some(x.id) ==> x.row.imageTag.value in Kept(project, all, keep))
              && (x.row.container.Some? ==> x.row.imageTag.value in Kept(project, all, keep))
              && (x.row.status == Ready && |NewerWithImage(all, x)| < keep ==> x.row.imageTag.value in Kept(project, all, keep))
              && (x.row.status == Failed && NewerWithImage(all, x) == {} ==> x.row.imageTag.value in Kept(project, all, keep))
  {
    assert NewerWithImage(all, x) == Above(all, x.row.status, x);
    if Needs(project, all, keep, x) {
      assert TagOf(project.slug, x) in Kept(project, all, keep);
    }
    hide Above, NewerWithImage;
  }

  /** And it keeps no tag but of such deployments. */
  lemma KeptIsInUse(project: Project, all: seq<Listed>, keep: nat, tag: string)
    requires tag in Kept(project, all, keep)
    ensures exists x | x in all ::
              if x.row.status in {Queued, Building, Deploying} then tag == ImageTag(project.slug, x.row.gitSha)
              else x.row.imageTag == Some(tag) && tag != ""
                   && (project.production == Some(x.id) || x.row.container.Some?
                       || (x.row.status == Ready && |NewerWithImage(all, x)| < keep)
                       || (x.row.status == Failed && NewerWithImage(all, x) == {}))
  {
    var x :| x in all && Needs(project, all, keep, x) && tag == TagOf(project.slug, x);
    assert NewerWithImage(all, x) == Above(all, x.row.status, x);
    hide Above, NewerWithImage;
  }

  // How much is kept

  lemma {:induction false} TagsAreFewer(slug: string, some: set<Listed>, tags: set<string>)
    requires forall tag | tag in tags :: exists x :: x in some && (Pending(x) || HasTag(x)) && TagOf(slug, x) == tag
    ensures |tags| <= |some|
  {
    if tags != {} {
      var tag :| tag in tags;
      var x :| x in some && (Pending(x) || HasTag(x)) && TagOf(slug, x) == tag;
      forall other | other in tags - {tag}
        ensures exists y :: y in some - {x} && (Pending(y) || HasTag(y)) && TagOf(slug, y) == other
      {
        var y :| y in some && (Pending(y) || HasTag(y)) && TagOf(slug, y) == other;
        assert y in some - {x};
      }
      TagsAreFewer(slug, some - {x}, tags - {tag});
    }
  }

  function InProgress(all: seq<Listed>): set<Listed> {
    set x | x in all && Pending(x)
  }

  function Running(all: seq<Listed>): set<Listed> {
    set x | x in all && !Pending(x) && HasTag(x) && x.row.container.Some?
  }

  function Production(project: Project, all: seq<Listed>): set<Listed> {
    set x | x in all && Some(x.id) == project.production
  }

  lemma {:induction false} AtMostOne(some: set<Listed>)
    requires forall x, y | x in some && y in some :: x == y
    ensures |some| <= 1
  {
    if some != {} {
      var x :| x in some;
      assert some == {x};
    }
  }

  lemma NewestAreFew(all: seq<Listed>, keep: nat)
    requires DistinctRows(all)
    ensures |Newest(all, keep)| <= keep
    ensures |LastFailure(all)| <= 1
  {
    NewestIsFront(all, keep);
    LastFailureIsFirst(all);
    WithTagAre(all, Ready);
    WithTagAre(all, Failed);
    NewestFirstSorts(WithTag(all, Ready));
    NewestFirstSorts(WithTag(all, Failed));
    DescendingCount(Front(NewestFirst(WithTag(all, Ready)), keep));
    DescendingCount(Front(NewestFirst(WithTag(all, Failed)), 1));
  }

  /** What a project keeps is bounded by what it is building and running, and `keep` more, plus
      production and one failure, however many deployments it has had. */
  lemma KeptIsBounded(project: Project, all: seq<Listed>, keep: nat)
    requires DistinctRows(all)
    ensures |Kept(project, all, keep)| <= |InProgress(all)| + |Running(all)| + keep + 2
  {
    var a, b, c := InProgress(all), Running(all), Production(project, all);
    var d, e := Newest(all, keep), LastFailure(all);
    AtMostOne(c);
    NewestAreFew(all, keep);
    UnionSize(a, b);
    UnionSize(a + b, c);
    UnionSize(a + b + c, d);
    UnionSize(a + b + c + d, e);
    forall tag | tag in Kept(project, all, keep)
      ensures exists x :: x in a + b + c + d + e && (Pending(x) || HasTag(x)) && TagOf(project.slug, x) == tag
    {
      var x :| x in all && Needs(project, all, keep, x) && tag == TagOf(project.slug, x);
      assert x in a + b + c + d + e;
    }
    TagsAreFewer(project.slug, a + b + c + d + e, Kept(project, all, keep));
  }

  // The sweep of a host

  const PREFIX := "deploypro/"

  /** The project a tag on the host belongs to. */
  function SlugOf(tag: string): string {
    var repository := tag[..IndexOf(tag, ':')];
    if PREFIX <= repository then repository[|PREFIX|..] else repository
  }

  lemma SlugOfImageTag(slug: string, sha: string)
    requires ':' !in slug
    ensures SlugOf(ImageTag(slug, sha)) == slug
  {
    var tail := ShortSha(sha);
    var repository := PREFIX + slug;
    assert ImageTag(slug, sha) == repository + [':'] + tail;
    IndexOfIn(repository, ':', tail);
    assert (repository + [':'] + tail)[..|repository|] == repository;
  }

  predicate IsKept(keepers: map<string, set<string>>, tag: string) {
    SlugOf(tag) in keepers && tag in keepers[SlugOf(tag)]
  }

  function Unkept(present: seq<string>, keepers: map<string, set<string>>): seq<string> {
    if present == [] then []
    else
      var last := present[|present| - 1];
      Unkept(present[..|present| - 1], keepers) + if IsKept(keepers, last) then [] else [last]
  }

  /** The order of texts, character by character. */
  predicate NotAfter(a: string, b: string) {
    a == [] || (b != [] && (a[0] < b[0] || (a[0] == b[0] && NotAfter(a[1..], b[1..]))))
  }

  lemma {:induction false} OneIsNotAfter(a: string, b: string)
    ensures NotAfter(a, b) || NotAfter(b, a)
  {
    if a != [] && b != [] && a[0] == b[0] {
      OneIsNotAfter(a[1..], b[1..]);
    }
  }

  lemma {:induction false} NotAfterChains(a: string, b: string, c: string)
    requires NotAfter(a, b) && NotAfter(b, c)
    ensures NotAfter(a, c)
  {
    if a != [] && a[0] == b[0] && b[0] == c[0] {
      NotAfterChains(a[1..], b[1..], c[1..]);
    }
  }

  ghost predicate InOrder(s: seq<string>) {
    forall i, j | 0 <= i < j < |s| :: NotAfter(s[i], s[j])
  }

  function InsertTag(tag: string, s: seq<string>): seq<string> {
    if s == [] || NotAfter(tag, s[0]) then [tag] + s else [s[0]] + InsertTag(tag, s[1..])
  }

  function Sorted(s: seq<string>): seq<string> {
    if s == [] then [] else InsertTag(s[|s| - 1], Sorted(s[..|s| - 1]))
  }

  lemma {:induction false} InsertTagKeeps(tag: string, s: seq<string>)
    ensures multiset(InsertTag(tag, s)) == multiset(s) + multiset{tag}
  {
    if s != [] && !NotAfter(tag, s[0]) {
      InsertTagKeeps(tag, s[1..]);
      assert s == [s[0]] + s[1..];
    }
  }

  lemma {:induction false} InsertTagSorts(tag: string, s: seq<string>)
    requires InOrder(s)
    ensures InOrder(InsertTag(tag, s))
  {
    hide NotAfter;
    if s == [] || NotAfter(tag, s[0]) {
      forall j | 0 <= j < |s| ensures NotAfter(tag, s[j]) {
        if 0 < j { NotAfterChains(tag, s[0], s[j]); }
      }
    } else {
      OneIsNotAfter(tag, s[0]);
      InsertTagSorts(tag, s[1..]);
      InsertTagKeeps(tag, s[1..]);
      var rest := InsertTag(tag, s[1..]);
      forall j | 0 <= j < |rest| ensures NotAfter(s[0], rest[j]) {
        assert rest[j] in multiset(rest);
        assert rest[j] == tag || rest[j] in s[1..];
      }
    }
  }

  /** Sorting puts texts in order and neither drops nor adds one. */
  lemma {:induction false} SortedSorts(s: seq<string>)
    ensures InOrder(Sorted(s)) && multiset(Sorted(s)) == multiset(s)
  {
    if s != [] {
      SortedSorts(s[..|s| - 1]);
      InsertTagSorts(s[|s| - 1], Sorted(s[..|s| - 1]));
      InsertTagKeeps(s[|s| - 1], Sorted(s[..|s| - 1]));
      assert s == s[..|s| - 1] + [s[|s| - 1]];
    }
  }

  lemma {:induction false} UnkeptAre(present: seq<string>, keepers: map<string, set<string>>, tag: string)
    ensures tag in Unkept(present, keepers) <==> tag in present && !IsKept(keepers, tag)
  {
    if present != [] {
      UnkeptAre(present[..|present| - 1], keepers, tag);
      assert present == present[..|present| - 1] + [present[|present| - 1]];
    }
  }

  /** The tags of the host no project keeps, as often as they are there, in order. */
  method ImagesToRemove(present: seq<string>, keepers: map<string, set<string>>) returns (doomed: seq<string>)
    ensures InOrder(doomed) && multiset(doomed) == multiset(Unkept(present, keepers))
    ensures forall tag :: tag in doomed <==> tag in present && !IsKept(keepers, tag)
  {
    doomed := [];
    for i := 0 to |present|
      invariant doomed == Unkept(present[..i], keepers)
    {
      var tag := present[i];
      assert present[..i + 1][..i] == present[..i];
      if !(SlugOf(tag) in keepers && tag in keepers[SlugOf(tag)]) {
        doomed := doomed + [tag];
      }
    }
    assert present[..|present|] == present;
    SortedSorts(doomed);
    ghost var found := doomed;
    doomed := Sorted(doomed);
    forall tag ensures tag in doomed <==> tag in present && !IsKept(keepers, tag) {
      UnkeptAre(present, keepers, tag);
      assert tag in doomed <==> tag in multiset(doomed);
      assert tag in found <==> tag in multiset(found);
    }
    hide InOrder, Sorted, Unkept, IsKept;
  }

  ghost predicate DistinctSlugs(projects: seq<Project>) {
    forall i, j | 0 <= i < j < |projects| :: projects[i].slug != projects[j].slug
  }

  /** Some project of the host needs the tag. */
  ghost predicate SomeNeeds(projects: seq<Project>, listings: seq<seq<Listed>>, keep: nat, tag: string)
    requires |projects| == |listings|
  {
    exists i | 0 <= i < |projects| :: projects[i].slug == SlugOf(tag) && tag in Kept(projects[i], listings[i], keep)
  }

  /** The sweep of all projects: of the tags on the host, exactly those no project needs go. */
  method SweepImages(projects: seq<Project>, listings: seq<seq<Listed>>, present: seq<string>, keep: nat) returns (doomed: seq<string>)
    requires |projects| == |listings| && DistinctSlugs(projects) && forall i | 0 <= i < |listings| :: DistinctRows(listings[i])
    ensures InOrder(doomed) && forall tag :: tag in doomed <==> tag in present && !SomeNeeds(projects, listings, keep, tag)
  {
    var keepers: map<string, set<string>> := map[];
    for i := 0 to |projects|
      invariant forall slug :: slug in keepers <==> exists j | 0 <= j < i :: projects[j].slug == slug
      invariant forall j | 0 <= j < i :: keepers[projects[j].slug] == Kept(projects[j], listings[j], keep)
    {
      var kept := ImagesToKeep(projects[i], listings[i], keep);
      keepers := keepers[projects[i].slug := kept];
    }
    doomed := ImagesToRemove(present, keepers);
    forall tag ensures IsKept(keepers, tag) <==> SomeNeeds(projects, listings, keep, tag) {
    }
  }

  /** Recorded tags are the ones derived from the commit. */
  predicate TagsFromCommits(project: Project, all: seq<Listed>) {
    forall x | x in all && HasTag(x) :: x.row.imageTag.value == ImageTag(project.slug, x.row.gitSha)
  }

  /** A sweep never removes the image of a deployment of any project on the host that is serving,
      running, building or queued, the newest failure, or ready with fewer than `keep` ready ones
      numbered above it, whichever deployments share the tag; the tag of one that is none of
      these goes, unless it shares the commit of one that is. */
  lemma SweepSparesIff(projects: seq<Project>, listings: seq<seq<Listed>>, keep: nat, i: nat, x: Listed)
    requires |projects| == |listings| && DistinctSlugs(projects) && i < |projects| && x in listings[i]
    requires ':' !in projects[i].slug && TagsFromCommits(projects[i], listings[i]) && (Pending(x) || HasTag(x))
    ensures SomeNeeds(projects, listings, keep, TagOf(projects[i].slug, x)) <==>
            exists y | y in listings[i] :: Needs(projects[i], listings[i], keep, y) && SameCommit(x, y)
    ensures Needs(projects[i], listings[i], keep, x) ==> SomeNeeds(projects, listings, keep, TagOf(projects[i].slug, x))
  {
    var slug, tag := projects[i].slug, TagOf(projects[i].slug, x);
    SlugOfImageTag(slug, x.row.gitSha);
    assert tag == ImageTag(slug, x.row.gitSha);
    assert SomeNeeds(projects, listings, keep, tag) <==> tag in Kept(projects[i], listings[i], keep);
    if tag in Kept(projects[i], listings[i], keep) {
      var y :| y in listings[i] && Needs(projects[i], listings[i], keep, y) && tag == TagOf(slug, y);
      SameTagIff(slug, x.row.gitSha, y.row.gitSha);
    }
    if y :| y in listings[i] && Needs(projects[i], listings[i], keep, y) && SameCommit(x, y) {
      SameTagIff(slug, x.row.gitSha, y.row.gitSha);
      assert tag == TagOf(slug, y);
    }
    assert SameCommit(x, x);
  }

  /** The same first twelve characters of the commit. */
  predicate SameCommit(x: Listed, y: Listed) {
    ShortSha(x.row.gitSha) == ShortSha(y.row.gitSha)
  }

  lemma SameTagIff(slug: string, a: string, b: string)
    ensures ImageTag(slug, a) == ImageTag(slug, b) <==> ShortSha(a) == ShortSha(b)
  {
    var head := PREFIX + slug + ":";
    assert ImageTag(slug, a) == head + ShortSha(a) && ImageTag(slug, b) == head + ShortSha(b);
    assert (head + ShortSha(a))[|head|..] == ShortSha(a) && (head + ShortSha(b))[|head|..] == ShortSha(b);
  }

  /** Counting only the ready deployments that have an image never keeps fewer: a ready one with
      fewer than `keep` ready ones of any kind above it is needed. */
  lemma NewestReadyNeeded(project: Project, all: seq<Listed>, keep: nat, x: Listed)
    requires x in all && x.row.status == Ready && HasTag(x)
    requires |set y | y in all && y.row.status == Ready && x.row.number < y.row.number| < keep
    ensures Needs(project, all, keep, x)
  {
    var ready := set y | y in all && y.row.status == Ready && x.row.number < y.row.number;
    assert ready == Above(all, Ready, x) + (ready - Above(all, Ready, x));
    assert |ready| == |Above(all, Ready, x)| + |ready - Above(all, Ready, x)|;
  }
}
