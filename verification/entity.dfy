/**
 * The entity a rule is checked against: the remote end of a connection.
 * Its fields are set and reset between checks; its scope is derived from
 * its address on first use and cached until the address changes.
 */
module Entities {
  import opened Wrappers
  import opened Net
  import opened Endpoints

  class Entity {
    var domain: string
    var ip: Option<IPv4>
    var protocol: Protocol
    var port: Port
    /** Cached scope of `ip`; None until first asked for. */
    var scope: Option<Scope>

    /** The cache never disagrees with the address. */
    ghost predicate Valid()
      reads this
    {
      scope.Some? ==> scope.value == ScopeOf(ip)
    }

    /** What rules see of the entity. */
    function View(): EntityView
      reads this
    {
      EntityView(domain, ip, protocol, port)
    }

    constructor (domain: string, ip: Option<IPv4>, protocol: Protocol, port: Port)
      ensures Valid()
      ensures View() == EntityView(domain, ip, protocol, port)
      ensures scope == None
    {
      this.domain := domain;
      this.ip := ip;
      this.protocol := protocol;
      this.port := port;
      this.scope := None;
    }

    /** Sets the address; the cached scope is dropped so that it is derived anew. */
    method SetIP(address: IPv4)
      requires Valid()
      modifies this
      ensures Valid()
      ensures View() == old(View()).(ip := Some(address))
      ensures scope == None
    {
      ip := Some(address);
      scope := None;
    }

    /** Sets the destination port. */
    method SetDstPort(p: Port)
      requires Valid()
      modifies this
      ensures Valid()
      ensures View() == old(View()).(port := p)
    {
      port := p;
    }

    /** The scope of the current address, classified on first use and cached. */
    method GetScope() returns (s: Scope)
      requires Valid()
      modifies this
      ensures Valid()
      ensures View() == old(View())
      ensures s == ScopeOf(ip)
      ensures scope == Some(s)
    {
      if scope.None? {
        scope := Some(ScopeOf(ip));
      }
      s := scope.value;
    }
  }

  /** Checks a rule against a live entity; the verdict is that of `Matches` on its current fields. */
  method Check(ep: Endpoint, entity: Entity, lookups: Lookups) returns (r: EPResult)
    requires entity.Valid()
    modifies entity
    ensures entity.Valid()
    ensures entity.View() == old(entity.View())
    ensures r == Matches(ep, entity.View(), lookups)
  {
    var accepted: bool;
    if ep.matcher.Scopes? {
      var s := entity.GetScope();
      accepted := s in ep.matcher.scopes;
    } else {
      accepted := MatcherAccepts(ep.matcher, entity.View(), lookups);
    }
    if accepted && FiltersAccept(ep, entity.View()) {
      r := if ep.permitted then Permitted else Denied;
    } else {
      r := NoMatch;
    }
  }
}
