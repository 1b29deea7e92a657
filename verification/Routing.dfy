/** Which of a project's domains are routed, and where they point. */
module Routing {
  import opened Wrappers

  datatype Domain = Domain(host: string, verified: bool, primary: bool)

  /** The production route file: the service it names, the host it serves on, and those redirected there. */
  datatype Route = Route(service: nat, primary: string, aliases: seq<string>)

  function Verified(domains: seq<Domain>): seq<Domain> {
    if domains == [] then []
    else
      var last := domains[|domains| - 1];
      Verified(domains[..|domains| - 1]) + if last.verified then [last] else []
  }

  function FirstPrimary(domains: seq<Domain>): Option<Domain> {
    if domains == [] then None
    else if domains[0].primary then Some(domains[0])
    else FirstPrimary(domains[1..])
  }

  function HostsBut(domains: seq<Domain>, host: string): seq<string> {
    if domains == [] then []
    else
      var last := domains[|domains| - 1];
      HostsBut(domains[..|domains| - 1], host) + if last.host != host then [last.host] else []
  }

  /** The route file a publication leaves, given the project's domains in the order they are
      listed; None clears it. */
  function Publication(domains: seq<Domain>, service: nat): Option<Route> {
    var verified := Verified(domains);
    if verified == [] then None
    else
      var flagged := FirstPrimary(verified);
      var primary := if flagged.Some? then flagged.value else verified[0];
      Some(Route(service, primary.host, HostsBut(verified, primary.host)))
  }

  predicate IsVerifiedHost(domains: seq<Domain>, host: string) {
    exists d | d in domains :: d.verified && d.host == host
  }

  /** The primary domain, verified. */
  predicate IsPrimaryHost(domains: seq<Domain>, host: string) {
    exists d | d in domains :: d.verified && d.primary && d.host == host
  }

  ghost predicate DistinctHosts(domains: seq<Domain>) {
    forall i, j | 0 <= i < j < |domains| :: domains[i].host != domains[j].host
  }

  lemma {:induction false} VerifiedAre(domains: seq<Domain>, d: Domain)
    ensures d in Verified(domains) <==> d in domains && d.verified
  {
    if domains != [] {
      VerifiedAre(domains[..|domains| - 1], d);
      assert domains == domains[..|domains| - 1] + [domains[|domains| - 1]];
    }
  }

  lemma {:induction false} VerifiedDistinct(domains: seq<Domain>)
    requires DistinctHosts(domains)
    ensures DistinctHosts(Verified(domains))
  {
    if domains != [] {
      var rest, last := domains[..|domains| - 1], domains[|domains| - 1];
      VerifiedDistinct(rest);
      forall i | 0 <= i < |Verified(rest)| ensures Verified(rest)[i].host != last.host {
        VerifiedAre(rest, Verified(rest)[i]);
      }
    }
  }

  lemma {:induction false} FirstPrimaryIs(domains: seq<Domain>)
    ensures match FirstPrimary(domains)
            case Some(d) => d in domains && d.primary
            case None => forall d | d in domains :: !d.primary
  {
    if domains != [] && !domains[0].primary {
      FirstPrimaryIs(domains[1..]);
      assert domains == [domains[0]] + domains[1..];
    }
  }

  lemma {:induction false} HostsButAre(domains: seq<Domain>, but: string, host: string)
    ensures host in HostsBut(domains, but) <==> host != but && exists d | d in domains :: d.host == host
  {
    if domains != [] {
      HostsButAre(domains[..|domains| - 1], but, host);
      assert domains == domains[..|domains| - 1] + [domains[|domains| - 1]];
    }
  }

  lemma {:induction false} HostsButOnce(domains: seq<Domain>, but: string, host: string)
    requires DistinctHosts(domains)
    ensures multiset(HostsBut(domains, but))[host] <= 1
  {
    if domains != [] {
      var rest, last := domains[..|domains| - 1], domains[|domains| - 1];
      HostsButOnce(rest, but, host);
      HostsButAre(rest, but, last.host);
      assert forall d | d in rest :: d.host != last.host;
    }
  }

  /** The hosts a route answers for: the one it serves on, and those it redirects. */
  predicate Serves(route: Option<Route>, host: string) {
    route.Some? && (host == route.value.primary || host in route.value.aliases)
  }

  /** A publication answers for exactly the verified hosts it was made from. */
  lemma ServesVerified(domains: seq<Domain>, service: nat, host: string)
    ensures Serves(Publication(domains, service), host) <==> IsVerifiedHost(domains, host)
  {
    var verified := Verified(domains);
    forall d ensures d in verified <==> d in domains && d.verified { VerifiedAre(domains, d); }
    FirstPrimaryIs(verified);
    if verified != [] {
      var flagged := FirstPrimary(verified);
      var primary := if flagged.Some? then flagged.value else verified[0];
      assert primary in verified;
      HostsButAre(verified, primary.host, host);
    }
    if IsVerifiedHost(domains, host) {
      var d :| d in domains && d.verified && d.host == host;
      assert d in verified;
    }
  }

  ghost predicate AnyVerified(domains: seq<Domain>) {
    exists host :: IsVerifiedHost(domains, host)
  }

  /** Two publications from the same domains differ exactly when a domain is verified and they
      are for different deployments; and a route is written exactly when one is verified. */
  lemma PublicationsDiffer(domains: seq<Domain>, a: nat, b: nat)
    ensures Publication(domains, a) == Publication(domains, b) <==> a == b || !AnyVerified(domains)
    ensures Publication(domains, a).Some? <==> AnyVerified(domains)
    ensures Publication(domains, a).Some? ==> Publication(domains, a).value.service == a
  {
    if Publication(domains, a).Some? {
      ServesVerified(domains, a, Publication(domains, a).value.primary);
    }
    if host :| IsVerifiedHost(domains, host) {
      ServesVerified(domains, a, host);
      ServesVerified(domains, b, host);
    }
  }

  /** A route is written exactly when a domain is verified. It serves on one verified host, the
      primary one when that is verified, and redirects every other verified host, once, and no
      host that is not verified. */
  lemma RouteMeans(domains: seq<Domain>, service: nat)
    requires DistinctHosts(domains)
    ensures Publication(domains, service).None? <==> forall host :: !IsVerifiedHost(domains, host)
    ensures var p := Publication(domains, service);
            p.Some? ==>
              && p.value.service == service
              && IsVerifiedHost(domains, p.value.primary)
              && ((exists host :: IsPrimaryHost(domains, host)) ==> IsPrimaryHost(domains, p.value.primary))
              && (forall host :: IsVerifiedHost(domains, host) <==> host == p.value.primary || host in p.value.aliases)
              && p.value.primary !in p.value.aliases
              && (forall host | host in p.value.aliases :: multiset(p.value.aliases)[host] == 1)
  {
    var verified := Verified(domains);
    forall d ensures d in verified <==> d in domains && d.verified { VerifiedAre(domains, d); }
    VerifiedDistinct(domains);
    FirstPrimaryIs(verified);
    if verified == [] {
      forall host ensures !IsVerifiedHost(domains, host) {
        if d :| d in domains && d.verified && d.host == host {
          assert false by { VerifiedAre(domains, d); }
        }
      }
    } else {
      var flagged := FirstPrimary(verified);
      var primary := if flagged.Some? then flagged.value else verified[0];
      assert primary in verified;
      assert IsVerifiedHost(domains, primary.host);
      forall host ensures IsVerifiedHost(domains, host) <==> host == primary.host || host in HostsBut(verified, primary.host)
        ensures multiset(HostsBut(verified, primary.host))[host] <= 1
      {
        HostsButAre(verified, primary.host, host);
        HostsButOnce(verified, primary.host, host);
        if IsVerifiedHost(domains, host) {
          var d :| d in domains && d.verified && d.host == host;
          assert d in verified;
        }
      }
      HostsButAre(verified, primary.host, primary.host);
      if host :| IsPrimaryHost(domains, host) {
        var d :| d in domains && d.verified && d.primary && d.host == host;
        assert d in verified;
      }
    }
  }
}
