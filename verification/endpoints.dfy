/**
 * Endpoint rules of a profile. A rule line such as `+ *.example.com`,
 * `- 10.2.3.0/24`, `+ example.com 17/442-444` or `+ Localhost,LAN` is
 * compiled into an `Endpoint`: a sign (permit or deny), a matcher for the
 * remote side, and optional protocol and port filters. Applied to an
 * entity (the remote end of a connection) a rule yields `Permitted` or
 * `Denied` when it applies, and `NoMatch` otherwise.
 */
module Endpoints {
  import opened Wrappers
  import Text
  import Domains
  import opened Net

  type Protocol = x: int | 0 <= x < 0x100
  type Port = x: int | 0 <= x < 0x1_0000

  datatype EPResult = NoMatch | Permitted | Denied

  datatype Matcher =
    | AnyHost
    | Domain(pattern: string)
    | Host(ip: IPv4)
    | Network(network: IPv4, prefix: PrefixLength)
    | ASN(number: nat)
    | Country(code: string)
    | Scopes(scopes: set<Scope>)
    | Lists(ids: seq<string>)

  /** An inclusive range of destination ports. */
  datatype PortRange = PortRange(start: Port, end: Port)

  /** A compiled rule; protocol 0 accepts every protocol and no port range accepts every port. */
  datatype Endpoint = Endpoint(permitted: bool, matcher: Matcher, protocol: Protocol, ports: Option<PortRange>)

  /** What a rule sees of an entity; an empty domain means the entity has none. */
  datatype EntityView = EntityView(domain: string, ip: Option<IPv4>, protocol: Protocol, port: Port)

  /** Answers of the external ASN, country and filter-list lookups; None when unavailable. */
  datatype Lookups = Lookups(asn: Option<nat>, country: Option<string>, lists: Option<set<string>>)

  const NoLookups := Lookups(None, None, None)

  // ---------------------------------------------------------------- compiling

  /** IP protocol numbers of the protocol names a rule may use (lower-cased). */
  function ProtocolNumber(name: string): Option<Protocol>
  {
    if name == "icmp" then Some(1)
    else if name == "igmp" then Some(2)
    else if name == "tcp" then Some(6)
    else if name == "udp" then Some(17)
    else if name == "icmpv6" then Some(58)
    else None
  }

  /** Scope names, case-insensitively. */
  function ScopeByName(name: string): Option<Scope>
  {
    var n := Text.Lower(name);
    if n == "localhost" then Some(Localhost)
    else if n == "lan" then Some(LAN)
    else if n == "multicast" then Some(Multicast)
    else if n == "internet" then Some(Internet)
    else None
  }

  /** A list of scope names, or None when one of them is not a scope. */
  function ParseScopes(names: seq<string>): (r: Option<set<Scope>>)
    ensures r.Some? <==> forall k :: 0 <= k < |names| ==> ScopeByName(names[k]).Some?
    ensures r.Some? ==> forall k :: 0 <= k < |names| ==> ScopeByName(names[k]).value in r.value
    ensures r.Some? ==> forall s :: s in r.value ==> exists k :: 0 <= k < |names| && ScopeByName(names[k]) == Some(s)
  {
    if names == [] then Some({})
    else
      match (ScopeByName(names[0]), ParseScopes(names[1..]))
      case (Some(s), Some(rest)) =>
        assert forall k :: 1 <= k < |names| ==> names[k] == names[1..][k - 1];
        Some({s} + rest)
      case (None, _) => None
      case (_, None) =>
        assert forall k :: 0 <= k < |names| - 1 ==> names[1..][k] == names[k + 1];
        None
  }

  /** The remote-side part of a rule, tried in this order: any, IP, CIDR, ASN, country, scopes, lists, domain. */
  function ParseMatcher(f: string): Result<Matcher>
  {
    if f == "*" then Ok(AnyHost)
    else if ParseIPv4(f).Some? then Ok(Host(ParseIPv4(f).value))
    else if ParseCIDR(f).Some? then Ok(Network(ParseCIDR(f).value.0, ParseCIDR(f).value.1))
    else if |f| > 2 && f[..2] == "AS" && Text.ParseDecimal(f[2..]).Some? then
      var n := Text.ParseDecimal(f[2..]).value;
      if n < 0x1_0000_0000 then Ok(ASN(n)) else Err("AS number out of range")
    else if |f| == 2 && Text.IsUpper(f[0]) && Text.IsUpper(f[1]) then Ok(Country(f))
    else if ParseScopes(Text.Split(f, ',')).Some? then Ok(Scopes(ParseScopes(Text.Split(f, ',')).value))
    else if |f| >= 2 && f[..2] == "L:" then
      var ids := Text.Split(f[2..], ',');
      if forall k :: 0 <= k < |ids| ==> ids[k] != [] then Ok(Lists(ids)) else Err("empty list ID")
    else
      match Domains.Compile(f)
      case Ok(p) => Ok(Domain(p))
      case Err(e) => Err(e)
  }

  /** A port number: decimal, 1 to 65535. */
  function ParsePort(s: string): (r: Option<Port>)
    ensures r.Some? ==> 1 <= r.value
  {
    match Text.ParseDecimal(s)
    case Some(n) => if 1 <= n < 0x1_0000 then Some(n) else None
    case None => None
  }

  /** `<port>` or `<from>-<to>`, inclusive, with from <= to. */
  function ParsePorts(s: string): (r: Result<PortRange>)
    ensures r.Ok? ==> 1 <= r.value.start <= r.value.end
  {
    var bounds := Text.Split(s, '-');
    if |bounds| > 2 then Err("ports must be given as <from>-<to>")
    else
      match ParsePort(bounds[0])
      case None => Err("invalid port number")
      case Some(a) =>
        if |bounds| == 1 then Ok(PortRange(a, a))
        else
          match ParsePort(bounds[1])
          case None => Err("invalid port number")
          case Some(b) => if a <= b then Ok(PortRange(a, b)) else Err("port range is reversed")
  }

  /** `*` (any, encoded as 0), a protocol number, or a protocol name (case-insensitive). */
  function ParseProtocol(s: string): Result<Protocol>
  {
    if s == [] then Err("protocol cannot be empty")
    else if s == "*" then Ok(0)
    else
      match Text.ParseDecimal(s)
      case Some(n) => if n < 0x100 then Ok(n) else Err("protocol number out of range")
      case None =>
        match ProtocolNumber(Text.Lower(s))
        case Some(n) => Ok(n)
        case None => Err("unknown protocol")
  }

  /**
   * The optional third field `<protocol>[/<ports>]`. `*` as the protocol
   * means any protocol (0); `*` as the ports, or no ports, means any port.
   */
  function ParseFilters(s: string): (r: Result<(Protocol, Option<PortRange>)>)
    ensures r.Ok? ==> ParseProtocol(Text.Split(s, '/')[0]) == Ok(r.value.0)
    ensures r.Ok? && r.value.1.Some? ==> '/' in s && 1 <= r.value.1.value.start <= r.value.1.value.end
  {
    var parts := Text.Split(s, '/');
    if |parts| > 2 then Err("protocol and ports must be given as <protocol>/<ports>")
    else
      match ParseProtocol(parts[0])
      case Err(e) => Err(e)
      case Ok(proto) =>
        if |parts| == 1 || parts[1] == "*" then Ok((proto, None))
        else
          match ParsePorts(parts[1])
          case Err(e) => Err(e)
          case Ok(range) => Ok((proto, Some(range)))
  }

  /** Compiles one rule line: sign, matcher, and optionally protocol and ports. */
  function ParseEndpoint(line: string): (r: Result<Endpoint>)
  {
    ParseFields(Text.Fields(line))
  }

  /** Compiles the whitespace-separated fields of a rule line. */
  function ParseFields(fields: seq<string>): (r: Result<Endpoint>)
    ensures r.Ok? ==> 2 <= |fields| <= 3
    ensures r.Ok? ==> (r.value.permitted <==> fields[0] == "+") && (fields[0] == "+" || fields[0] == "-")
    ensures r.Ok? ==> ParseMatcher(fields[1]) == Ok(r.value.matcher)
    ensures r.Ok? && |fields| == 2 ==> r.value.protocol == 0 && r.value.ports == None
    ensures r.Ok? && |fields| == 3 ==> ParseFilters(fields[2]) == Ok((r.value.protocol, r.value.ports))
  {
    if |fields| < 2 || |fields| > 3 then Err("a rule has two or three fields")
    else if fields[0] != "+" && fields[0] != "-" then Err("a rule starts with + or -")
    else
      match ParseMatcher(fields[1])
      case Err(e) => Err(e)
      case Ok(m) =>
        if |fields| == 2 then Ok(Endpoint(fields[0] == "+", m, 0, None))
        else
          match ParseFilters(fields[2])
          case Err(e) => Err(e)
          case Ok(filters) => Ok(Endpoint(fields[0] == "+", m, filters.0, filters.1))
  }

  // ---------------------------------------------------------------- matching

  /** Does the matcher accept the entity? Missing attributes never match. */
  predicate MatcherAccepts(m: Matcher, e: EntityView, lookups: Lookups)
  {
    match m
    case AnyHost => true
    case Domain(p) => e.domain != [] && Domains.DomainMatch(p, e.domain)
    case Host(a) => e.ip == Some(a)
    case Network(n, k) => e.ip.Some? && InNetwork(n, k, e.ip.value)
    case ASN(n) => e.ip.Some? && lookups.asn == Some(n)
    case Country(c) => e.ip.Some? && lookups.country == Some(c)
    case Scopes(ss) => ScopeOf(e.ip) in ss
    case Lists(ids) => lookups.lists.Some? && exists k :: 0 <= k < |ids| && ids[k] in lookups.lists.value
  }

  /** The protocol and port filters of the rule accept the entity. */
  predicate FiltersAccept(ep: Endpoint, e: EntityView)
  {
    && (ep.protocol == 0 || e.protocol == ep.protocol)
    && (ep.ports.None? || ep.ports.value.start <= e.port <= ep.ports.value.end)
  }

  /** The rule's verdict for the entity. */
  function Matches(ep: Endpoint, e: EntityView, lookups: Lookups): (r: EPResult)
  {
    if MatcherAccepts(ep.matcher, e, lookups) && FiltersAccept(ep, e) then
      if ep.permitted then Permitted else Denied
    else NoMatch
  }

  // ---------------------------------------------------------------- properties of compiling

  /** A rule written as single-space-separated words compiles from exactly those words. */
  lemma RuleWords(words: seq<string>)
    requires forall k :: 0 <= k < |words| ==> Text.IsWord(words[k])
    ensures ParseEndpoint(Text.Join(words, ' ')) == ParseFields(words)
  {
    Text.FieldsJoin(words);
  }

  /** A two-word rule whose matcher compiles is the endpoint of its sign and that matcher. */
  lemma TwoFieldRule(sign: string, f: string, m: Matcher)
    requires sign == "+" || sign == "-"
    requires Text.IsWord(f) && ParseMatcher(f) == Ok(m)
    ensures ParseEndpoint(Text.Join([sign, f], ' ')) == Ok(Endpoint(sign == "+", m, 0, None))
  {
    RuleWords([sign, f]);
  }

  /** A three-word rule whose matcher and filters compile is the endpoint of its sign, matcher and filters. */
  lemma ThreeFieldRule(sign: string, f: string, g: string, m: Matcher, filters: (Protocol, Option<PortRange>))
    requires sign == "+" || sign == "-"
    requires Text.IsWord(f) && ParseMatcher(f) == Ok(m)
    requires Text.IsWord(g) && ParseFilters(g) == Ok(filters)
    ensures ParseEndpoint(Text.Join([sign, f, g], ' ')) == Ok(Endpoint(sign == "+", m, filters.0, filters.1))
  {
    RuleWords([sign, f, g]);
  }

  /** Characters of IPv4 and CIDR text. */
  predicate NumericChar(c: char) { Text.IsDigit(c) || c == '.' || c == '/' }

  /** Characters of a list of scope names. */
  predicate ScopeListChar(c: char) { Text.IsUpper(c) || Text.IsLower(c) || c == ',' }

  lemma OctetDigits(s: string)
    requires ParseOctet(s).Some?
    ensures forall j :: 0 <= j < |s| ==> NumericChar(s[j])
  {
  }

  /** Text holding a character other than digits, `.` and `/` is neither an address nor a network. */
  lemma NotAddress(f: string, i: nat)
    requires i < |f| && !NumericChar(f[i])
    ensures ParseIPv4(f).None? && ParseCIDR(f).None?
  {
    var dotted := Text.Split(f, '.');
    if ParseIPv4(f).Some? {
      forall k | 0 <= k < |dotted| ensures forall j :: 0 <= j < |dotted[k]| ==> NumericChar(dotted[k][j]) {
        OctetDigits(dotted[k]);
      }
      Text.SplitAlphabet(f, '.', NumericChar);
      assert false;
    }
    var slashed := Text.Split(f, '/');
    if ParseCIDR(f).Some? {
      var prefix := slashed[0];
      var dottedPrefix := Text.Split(prefix, '.');
      forall k | 0 <= k < |dottedPrefix| ensures forall j :: 0 <= j < |dottedPrefix[k]| ==> NumericChar(dottedPrefix[k][j]) {
        OctetDigits(dottedPrefix[k]);
      }
      Text.SplitAlphabet(prefix, '.', NumericChar);
      Text.SplitAlphabet(f, '/', NumericChar);
      assert false;
    }
  }

  /** Scope names are letters only, at least three of them. */
  lemma ScopeNameLetters(name: string)
    requires ScopeByName(name).Some?
    ensures |name| >= 3
    ensures forall j :: 0 <= j < |name| ==> Text.IsUpper(name[j]) || Text.IsLower(name[j])
  {
    var n := Text.Lower(name);
    ScopeNamesLower(n);
    forall j | 0 <= j < |name| ensures Text.IsUpper(name[j]) || Text.IsLower(name[j]) {
      assert n[j] == Text.LowerChar(name[j]);
    }
  }

  /** The four scope names are lower-case letters. */
  lemma ScopeNamesLower(n: string)
    requires n == "localhost" || n == "lan" || n == "multicast" || n == "internet"
    ensures |n| >= 3 && forall j :: 0 <= j < |n| ==> Text.IsLower(n[j])
  {
    forall j | 0 <= j < |n| ensures Text.IsLower(n[j]) {
      if n == "localhost" { assert n[j] in "localhost"; }
      else if n == "lan" { assert n[j] in "lan"; }
      else if n == "multicast" { assert n[j] in "multicast"; }
      else { assert n[j] in "internet"; }
    }
  }

  /** Text holding a character other than letters and `,` is not a list of scopes. */
  lemma NotScopes(f: string, i: nat)
    requires i < |f| && !ScopeListChar(f[i])
    ensures ParseScopes(Text.Split(f, ',')).None?
  {
    var names := Text.Split(f, ',');
    if ParseScopes(names).Some? {
      forall k | 0 <= k < |names| ensures forall j :: 0 <= j < |names[k]| ==> ScopeListChar(names[k][j]) {
        ScopeNameLetters(names[k]);
      }
      Text.SplitAlphabet(f, ',', ScopeListChar);
      assert false;
    }
  }

  /**
   * What is not an address, a network, an AS number, a country code, a scope
   * list or a list reference is compiled as a domain pattern.
   */
  lemma DomainMatcher(f: string, i: nat)
    requires f != "*" && ParseIPv4(f).None? && ParseCIDR(f).None?
    requires !(|f| > 2 && f[..2] == "AS") && !(|f| >= 2 && f[..2] == "L:")
    requires i < |f| && !ScopeListChar(f[i])
    ensures ParseMatcher(f) == match Domains.Compile(f) case Ok(p) => Ok(Domain(p)) case Err(e) => Err(e)
  {
    NotScopes(f, i);
  }

  /**
   * A field spelled in the domain-pattern alphabet that is neither numeric
   * (an address or network) nor a list of letters (scope names) is a domain
   * matcher; it is accepted exactly when the pattern is valid, and then
   * carries the normalised pattern.
   */
  lemma DomainField(f: string, i: nat, j: nat)
    requires f != [] && f != "*" && forall c :: c in f ==> Domains.PatternChar(c)
    requires i < |f| && !NumericChar(f[i])
    requires j < |f| && !ScopeListChar(f[j])
    ensures Text.IsWord(f)
    ensures Domains.ValidPattern(f) <==> f != "." && Domains.NoEmptyLabel(f) && !Domains.ZoneWithWildcardSuffix(f)
    ensures ParseMatcher(f).Ok? <==> Domains.ValidPattern(f)
    ensures Domains.ValidPattern(f) ==> ParseMatcher(f) == Ok(Domain(Domains.Normalise(f)))
  {
    PatternWord(f);
    NotAddress(f, i);
    DomainMatcher(f, j);
  }

  /** Text in the domain-pattern alphabet is a word, is already lower case, and names no AS number or list. */
  lemma PatternWord(f: string)
    requires f != [] && forall c :: c in f ==> Domains.PatternChar(c)
    ensures Text.IsWord(f) && Text.Lower(f) == f
    ensures forall k :: 0 <= k < |f| ==> Domains.PatternChar(f[k])
    ensures !(|f| > 2 && f[..2] == "AS") && !(|f| >= 2 && f[..2] == "L:")
  {
    PatternIndex(f);
    Text.LowerIdentity(f);
    PatternPrefix(f);
  }

  lemma PatternIndex(f: string)
    requires forall c :: c in f ==> Domains.PatternChar(c)
    ensures forall k :: 0 <= k < |f| ==> Domains.PatternChar(f[k]) && !Text.IsUpper(f[k]) && !Text.IsSpace(f[k])
  {
    forall k | 0 <= k < |f| ensures Domains.PatternChar(f[k]) { assert f[k] in f; }
  }

  lemma PatternPrefix(f: string)
    requires f != [] && forall k :: 0 <= k < |f| ==> Domains.PatternChar(f[k])
    ensures !(|f| > 2 && f[..2] == "AS") && !(|f| >= 2 && f[..2] == "L:")
  {
    assert Domains.PatternChar(f[0]);
    if |f| >= 2 {
      assert f[..2][0] == f[0];
    }
  }

  /** The two-field rule `<sign> <f>` for such a field is a domain rule. */
  lemma DomainRuleLine(sign: string, f: string, i: nat, j: nat)
    requires sign == "+" || sign == "-"
    requires f != [] && f != "*" && forall c :: c in f ==> Domains.PatternChar(c)
    requires i < |f| && !NumericChar(f[i])
    requires j < |f| && !ScopeListChar(f[j])
    ensures Domains.ValidPattern(f) <==> f != "." && Domains.NoEmptyLabel(f) && !Domains.ZoneWithWildcardSuffix(f)
    ensures ParseEndpoint(Text.Join([sign, f], ' ')).Ok? <==> Domains.ValidPattern(f)
    ensures Domains.ValidPattern(f) ==>
      ParseEndpoint(Text.Join([sign, f], ' ')) == Ok(Endpoint(sign == "+", Domain(Domains.Normalise(f)), 0, None))
  {
    DomainField(f, i, j);
    RuleWords([sign, f]);
  }

  /** An address in dotted-quad form compiles to a matcher for that one address. */
  lemma AddressMatcher(ip: IPv4)
    ensures Text.IsWord(FormatIPv4(ip))
    ensures ParseMatcher(FormatIPv4(ip)) == Ok(Host(ip))
  {
    var f := FormatIPv4(ip);
    ParseFormat(ip);
    DottedDigits(f);
    assert f[0] != '*';
  }

  /** A network in CIDR form compiles to a matcher for that network. */
  lemma NetworkMatcher(network: IPv4, prefix: PrefixLength)
    requires NetworkAddress(network, prefix) == network
    ensures Text.IsWord(FormatCIDR(network, prefix))
    ensures ParseMatcher(FormatCIDR(network, prefix)) == Ok(Network(network, prefix))
  {
    var a := FormatIPv4(network);
    var f := FormatCIDR(network, prefix);
    ParseFormat(network);
    DottedDigits(a);
    ParseFormatCIDR(network, prefix);
    CIDRChars(network, prefix);
    assert f[0] == a[0];
  }

  lemma CIDRChars(network: IPv4, prefix: PrefixLength)
    ensures forall j :: 0 <= j < |FormatCIDR(network, prefix)| ==> NumericChar(FormatCIDR(network, prefix)[j])
  {
    var a := FormatIPv4(network);
    var d := Text.DecimalString(prefix);
    var f := FormatCIDR(network, prefix);
    ParseFormat(network);
    DottedDigits(a);
    forall j | 0 <= j < |f| ensures NumericChar(f[j]) {
      if j < |a| { assert f[j] == a[j]; }
      else if j > |a| { assert f[j] == d[j - |a| - 1]; }
    }
  }

  /** `AS<n>` compiles to a matcher for AS number n, which must fit in 32 bits. */
  lemma AsnMatcher(n: nat)
    ensures Text.IsWord("AS" + Text.DecimalString(n))
    ensures ParseMatcher("AS" + Text.DecimalString(n)) ==
      if n < 0x1_0000_0000 then Ok(ASN(n)) else Err("AS number out of range")
  {
    var d := Text.DecimalString(n);
    var f := "AS" + d;
    NotAddress(f, 0);
    assert f[..2] == "AS" && f[2..] == d;
    assert forall j :: 0 <= j < |f| ==> !Text.IsSpace(f[j]) by {
      forall j | 0 <= j < |f| ensures !Text.IsSpace(f[j]) {
        if j >= 2 { assert f[j] == d[j - 2]; }
      }
    }
    Text.DecimalRoundTrip(n);
  }

  /** A comma-separated list of scope names compiles to the set of the scopes named. */
  lemma ScopesMatcher(names: seq<string>)
    requires |names| >= 1
    requires forall k :: 0 <= k < |names| ==> ScopeByName(names[k]).Some?
    ensures ParseScopes(names).Some?
    ensures Text.IsWord(Text.Join(names, ','))
    ensures ParseMatcher(Text.Join(names, ',')) == Ok(Scopes(ParseScopes(names).value))
  {
    var f := Text.Join(names, ',');
    ScopeListText(names);
    NotAddress(f, 0);
    NotAsn(f);
  }

  /** `L:` and a comma-separated list of non-empty list IDs compiles to a list matcher for those IDs. */
  lemma ListsMatcher(ids: seq<string>)
    requires |ids| >= 1
    requires forall k :: 0 <= k < |ids| ==> Text.IsWord(ids[k]) && ',' !in ids[k]
    ensures Text.IsWord("L:" + Text.Join(ids, ','))
    ensures ParseMatcher("L:" + Text.Join(ids, ',')) == Ok(Lists(ids))
  {
    var f := "L:" + Text.Join(ids, ',');
    ListsText(ids);
    NotAddress(f, 0);
    NotScopes(f, 1);
    assert f != "*" && |f| != 2;
    assert forall k :: 0 <= k < |ids| ==> ids[k] != [];
  }

  /** The text of a list reference: a word starting with `L:`, followed by the joined IDs. */
  lemma ListsText(ids: seq<string>)
    requires |ids| >= 1
    requires forall k :: 0 <= k < |ids| ==> Text.IsWord(ids[k]) && ',' !in ids[k]
    ensures var f := "L:" + Text.Join(ids, ',');
      && Text.IsWord(f) && |f| > 2 && f[0] == 'L' && f[1] == ':' && f[..2] == "L:" && f[..2] != "AS"
      && Text.Split(f[2..], ',') == ids
  {
    var joined := Text.Join(ids, ',');
    var f := "L:" + joined;
    assert |joined| >= |ids[0]| >= 1;
    Text.JoinAlphabet(ids, ',', c => !Text.IsSpace(c));
    forall j | 0 <= j < |f| ensures !Text.IsSpace(f[j]) {
      if j >= 2 { assert f[j] == joined[j - 2]; }
    }
    assert f[2..] == joined;
    Text.SplitJoin(ids, ',');
  }

  /** Text whose third character is not a digit is no `AS<n>`. */
  lemma NotAsn(f: string)
    requires |f| > 2 && !Text.IsDigit(f[2])
    ensures Text.ParseDecimal(f[2..]).None?
  {
    assert f[2..][0] == f[2];
  }

  /** The text of a list of scope names: a word of letters and commas that splits back into the names. */
  lemma ScopeListText(names: seq<string>)
    requires |names| >= 1
    requires forall k :: 0 <= k < |names| ==> ScopeByName(names[k]).Some?
    ensures Text.Split(Text.Join(names, ','), ',') == names
    ensures Text.IsWord(Text.Join(names, ','))
    ensures |Text.Join(names, ',')| >= 3
    ensures !NumericChar(Text.Join(names, ',')[0]) && !Text.IsDigit(Text.Join(names, ',')[2])
  {
    var f := Text.Join(names, ',');
    var first := names[0];
    ScopeNamesShape(names);
    Text.SplitJoin(names, ',');
    Text.JoinAlphabet(names, ',', ScopeListChar);
    assert Text.IsWord(f) by {
      forall j | 0 <= j < |f| ensures !Text.IsSpace(f[j]) { assert ScopeListChar(f[j]); }
    }
    if |names| > 1 {
      assert f == first + [','] + Text.Join(names[1..], ',');
    }
    assert f[0] == first[0] && f[2] == first[2];
    assert ScopeListChar(first[0]) && ScopeListChar(first[2]);
  }

  /** Each scope name has at least three characters, all letters, so none holds a comma. */
  lemma ScopeNamesShape(names: seq<string>)
    requires forall k :: 0 <= k < |names| ==> ScopeByName(names[k]).Some?
    ensures forall k :: 0 <= k < |names| ==>
      |names[k]| >= 3 && ',' !in names[k] && forall j :: 0 <= j < |names[k]| ==> ScopeListChar(names[k][j])
  {
    forall k | 0 <= k < |names|
      ensures |names[k]| >= 3 && ',' !in names[k] && forall j :: 0 <= j < |names[k]| ==> ScopeListChar(names[k][j])
    {
      ScopeNameLetters(names[k]);
      assert forall j :: 0 <= j < |names[k]| ==> names[k][j] != ',';
    }
  }

  /** Port text `<from>-<to>` compiles to that range unless it is reversed. */
  lemma PortRangeText(from: Port, to: Port)
    requires 1 <= from && 1 <= to
    ensures ParsePorts(Text.DecimalString(from) + "-" + Text.DecimalString(to)) ==
      if from <= to then Ok(PortRange(from, to)) else Err("port range is reversed")
  {
    var a := Text.DecimalString(from);
    var b := Text.DecimalString(to);
    NoDash(a);
    NoDash(b);
    assert Text.Join([a, b], '-') == a + "-" + b;
    Text.SplitJoin([a, b], '-');
    Text.DecimalRoundTrip(from);
    Text.DecimalRoundTrip(to);
  }

  /** Port text `<port>` compiles to the one-port range. */
  lemma SinglePortText(port: Port)
    requires 1 <= port
    ensures ParsePorts(Text.DecimalString(port)) == Ok(PortRange(port, port))
  {
    var a := Text.DecimalString(port);
    NoDash(a);
    assert Text.Join([a], '-') == a;
    Text.SplitJoin([a], '-');
    Text.DecimalRoundTrip(port);
  }

  lemma NoDash(a: string)
    requires a != [] && Text.AllDigits(a)
    ensures '-' !in a && '/' !in a && a != "*"
  {
    assert forall j :: 0 <= j < |a| ==> a[j] != '-' && a[j] != '/';
    assert Text.IsDigit(a[0]);
  }

  /** The filter `<protocol>/<ports>` compiles to the protocol and the port range, or to the first error. */
  lemma ProtocolPortsFilter(protocol: string, ports: string)
    requires '/' !in protocol && '/' !in ports
    requires ports != "*"
    ensures ParseFilters(protocol + "/" + ports) ==
      match ParseProtocol(protocol)
      case Err(e) => Err(e)
      case Ok(p) =>
        match ParsePorts(ports)
        case Err(e) => Err(e)
        case Ok(range) => Ok((p, Some(range)))
  {
    assert Text.Join([protocol, ports], '/') == protocol + "/" + ports;
    Text.SplitJoin([protocol, ports], '/');
  }

  /** Proof step: a filter without `/` is split into the protocol alone. */
  lemma ProtocolOnlyFilter(protocol: string)
    requires '/' !in protocol
    ensures ParseFilters(protocol) ==
      match ParseProtocol(protocol)
      case Err(e) => Err(e)
      case Ok(p) => Ok((p, None))
  {
    assert Text.Join([protocol], '/') == protocol;
    Text.SplitJoin([protocol], '/');
  }

  // A protocol followed by `/` and the any-port `*` compiles like the protocol alone.
  lemma AnyPortFilter(protocol: string)
    requires '/' !in protocol
    ensures ParseFilters(protocol + "/*") == ParseFilters(protocol)
    ensures ParseFilters(protocol + "/*").Ok? <==> ParseProtocol(protocol).Ok?
    ensures ParseProtocol(protocol).Ok? ==> ParseFilters(protocol + "/*") == Ok((ParseProtocol(protocol).value, None))
  {
    assert Text.Join([protocol, "*"], '/') == protocol + "/*";
    Text.SplitJoin([protocol, "*"], '/');
    ProtocolOnlyFilter(protocol);
  }

  // The wildcard filters, `*` alone and `*` for both protocol and ports: any protocol on any port.
  lemma WildcardFilters()
    ensures ParseFilters("*") == Ok((0, None))
    ensures ParseFilters("*/*") == Ok((0, None))
  {
    ProtocolOnlyFilter("*");
    AnyPortFilter("*");
    assert "*" + "/*" == "*/*";
  }

  /** A wildcard third field compiles to the same rule as no third field. */
  lemma WildcardFieldOptional(sign: string, f: string, g: string)
    requires sign == "+" || sign == "-"
    requires Text.IsWord(f) && (g == "*" || g == "*/*")
    ensures ParseEndpoint(Text.Join([sign, f, g], ' ')) == ParseEndpoint(Text.Join([sign, f], ' '))
  {
    WildcardFilters();
    assert Text.IsWord(sign) && Text.IsWord(g);
    var words := [sign, f, g];
    assert words[0] == sign && words[1] == f && words[2] == g;
    RuleWords(words);
    RuleWords([sign, f]);
  }

  /** A protocol number alone, other than 0 (any), compiles to that protocol with any port. */
  lemma ProtocolNumberFilter(n: Protocol)
    requires n != 0
    ensures ParseFilters(Text.DecimalString(n)) == Ok((n, None))
  {
    var s := Text.DecimalString(n);
    Text.DecimalRoundTrip(n);
    assert s != "*" by { assert Text.IsDigit(s[0]); }
    assert '/' !in s by { forall j | 0 <= j < |s| ensures s[j] != '/' { assert Text.IsDigit(s[j]); } }
    ProtocolOnlyFilter(s);
  }

  /** A protocol name of the table, written in any case, compiles to its protocol number. */
  lemma ProtocolName(s: string, n: Protocol)
    requires ProtocolNumber(Text.Lower(s)) == Some(n)
    ensures ParseProtocol(s) == Ok(n)
  {
    var l := Text.Lower(s);
    assert l != [] && !Text.IsDigit(l[0]) && l[0] != '*';
    assert l[0] == Text.LowerChar(s[0]);
    assert s != "*" && !Text.IsDigit(s[0]);
  }

  /** The protocol names, as usually written, and their IANA protocol numbers. */
  lemma ProtocolNames()
    ensures ParseProtocol("ICMP") == Ok(1)
    ensures ParseProtocol("IGMP") == Ok(2)
    ensures ParseProtocol("TCP") == Ok(6)
    ensures ParseProtocol("UDP") == Ok(17)
    ensures ParseProtocol("ICMPv6") == Ok(58)
  {
    LowerProtocolNames();
    ProtocolName("ICMP", 1);
    ProtocolName("IGMP", 2);
    ProtocolName("TCP", 6);
    ProtocolName("UDP", 17);
    ProtocolName("ICMPv6", 58);
  }

  lemma LowerProtocolNames()
    ensures Text.Lower("ICMP") == "icmp" && Text.Lower("IGMP") == "igmp"
    ensures Text.Lower("TCP") == "tcp" && Text.Lower("UDP") == "udp"
    ensures Text.Lower("ICMPv6") == "icmpv6"
  {
    LowerName("ICMP", "icmp");
    LowerName("IGMP", "igmp");
    LowerName("TCP", "tcp");
    LowerName("UDP", "udp");
    LowerName("ICMPv6", "icmpv6");
  }

  lemma LowerName(s: string, l: string)
    requires |s| == |l| && forall i :: 0 <= i < |s| ==> l[i] == Text.LowerChar(s[i])
    ensures Text.Lower(s) == l
  {
  }

  // ---------------------------------------------------------------- properties of matching

  /**
   * The sign decides only the kind of verdict: the opposite rule applies to
   * exactly the same entities and answers Denied where this one permits and
   * Permitted where it denies. A `+` rule never denies, a `-` rule never permits.
   */
  lemma SignFlip(ep: Endpoint, e: EntityView, lookups: Lookups)
    ensures Matches(ep.(permitted := !ep.permitted), e, lookups) == NoMatch <==> Matches(ep, e, lookups) == NoMatch
    ensures Matches(ep, e, lookups) == Permitted <==> Matches(ep.(permitted := !ep.permitted), e, lookups) == Denied
    ensures Matches(ep, e, lookups) == Denied <==> Matches(ep.(permitted := !ep.permitted), e, lookups) == Permitted
    ensures ep.permitted ==> Matches(ep, e, lookups) != Denied
    ensures !ep.permitted ==> Matches(ep, e, lookups) != Permitted
  {
  }

  /** A domain rule without protocol or port filter decides on the entity's domain alone. */
  lemma DomainRuleSeesOnlyDomain(ep: Endpoint, e: EntityView, other: EntityView, lookups: Lookups)
    requires ep.matcher.Domain? && ep.protocol == 0 && ep.ports.None?
    requires e.domain == other.domain
    ensures Matches(ep, e, lookups) == Matches(ep, other, lookups)
  {
  }

  /** An entity without a domain never matches a domain rule. */
  lemma NoDomainNoMatch(ep: Endpoint, e: EntityView, lookups: Lookups)
    requires ep.matcher.Domain? && e.domain == []
    ensures Matches(ep, e, lookups) == NoMatch
  {
  }

  /** An entity without an address never matches an address, network, AS or country rule. */
  lemma NoAddressNoMatch(ep: Endpoint, e: EntityView, lookups: Lookups)
    requires ep.matcher.Host? || ep.matcher.Network? || ep.matcher.ASN? || ep.matcher.Country?
    requires e.ip.None?
    ensures Matches(ep, e, lookups) == NoMatch
  {
  }

  /** A protocol filter rejects every other protocol, including an unset one (0). */
  lemma ProtocolFilter(ep: Endpoint, e: EntityView, lookups: Lookups)
    requires ep.protocol != 0 && e.protocol != ep.protocol
    ensures Matches(ep, e, lookups) == NoMatch
  {
  }

  /** A port range is inclusive at both ends; an unset port (0) is never inside it. */
  lemma PortRangeInclusive(ep: Endpoint, e: EntityView, lookups: Lookups)
    requires ep.ports.Some? && 1 <= ep.ports.value.start
    requires MatcherAccepts(ep.matcher, e, lookups) && (ep.protocol == 0 || e.protocol == ep.protocol)
    ensures Matches(ep, e, lookups) != NoMatch <==> ep.ports.value.start <= e.port <= ep.ports.value.end
    ensures e.port == 0 ==> Matches(ep, e, lookups) == NoMatch
  {
  }
}
