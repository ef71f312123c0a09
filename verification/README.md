# Portmaster endpoint rules and profile migrations, in Dafny

This project models two parts of the Portmaster firewall's profile code.

**Endpoint rules.** A profile lists endpoint rules such as `+ *.example.com`,
`+ example.com 17/442-444`, `+ 10.2.3.0/24` or `+ Localhost,LAN`. Each line is
compiled into an endpoint: a sign, a matcher for the remote side, and optional
protocol and port filters. Applied to an entity (domain, IP address, protocol,
port), a rule yields `Permitted` (for `+`), `Denied` (for `-`) or `NoMatch`.

- `text.dfy` (`Text`): splitting and joining, whitespace fields, lower-casing and decimal numbers, with their round trips.
- `glob.dfy` (`Glob`): the anchored `*` glob and what it means for star-free bodies (equality, prefix, suffix, infix).
- `domains.dfy` (`Domains`): domain-pattern validation, normalisation with the implied trailing dot, and matching. This includes the leading-`.` zone form ("the name itself or any name below it").
- `net.dfy` (`Net`): IPv4 addresses, dotted-quad text, CIDR networks, and the scope classifier (Localhost, LAN, Multicast, Internet, Invalid).
- `endpoints.dfy` (`Endpoints`): the rule compiler `ParseEndpoint` and the verdict function `Matches`, with their general properties.
- `entity.dfy` (`Entities`): the entity as a mutable object. Its scope is derived from its address on first use, cached, and dropped when the address is set again.
- `endpoint_tests.dfy` (`EndpointTests`): the assertions of `TestEndpointFormat` and `TestEndpointMatching`, stated for all entities of the asserted shape rather than for one sample. The list rule `+ L:A,B,C` is only compiled, because the suite asserts nothing about its matching.

The implementation files of the rule compiler, the matchers and the entity
(`parseEndpoint`, `Endpoint.Matches`, `intel.Entity`) are not part of this
model. Their behaviour is modelled from the assertions in
`profile/endpoints/endpoints_test.go`. The model makes these choices:
- a protocol and its port range form one third field, `<protocol>[/<ports>]` (`UDP`, `17/442-444`, `*/443`);
- `*` as the protocol means any protocol, and `*` as the ports, or no ports, means any port;
- a port range is `<port>` or `<from>-<to>`;
- a country is two upper-case letters;
- whitespace between fields is spaces and tabs.

**Profile migrations** (`migrations.dfy`, `Migrations`, and `uuid.dfy`, `Uuid`).
These are the per-record logic of three database migrations in
`profile/migrations.go`:
- moving the single `Icon`/`IconType` fields into the `Icons` list;
- replacing random profile IDs by IDs derived from the profile's fingerprints, and then deleting the records under the old keys;
- deciding whether the network rating system starts enabled, by searching the security-level settings for one whose default differs from its current value.

The database is abstracted away:
- a query is a sequence of records, where `None` is a record that cannot be parsed;
- the answer of each `Put` is an input sequence;
- `deriveProfileID` and `ScopedID` are function parameters;
- the profiles database prefix is a parameter.

Each migration is a method with the source's loop, proved equal to a recursive
specification function. The properties are proved about that function.

## Model

| member | source | states |
|---|---|---|
| Domains.Compile | profile/endpoints/endpoints_test.go:51-63 | a pattern compiles iff its lower-cased text is valid (not empty, not `.`, no empty label `..`, not both a leading `.` and a trailing `*`, only name characters and `*`); the result is the normalised pattern |
| Domains.ValidPattern | profile/endpoints/endpoints_test.go:51-63 | the accepted domain patterns: not empty, not `.`, no empty label `..`, not both a leading `.` and a trailing `*`, only name characters and `*` |
| Domains.Normalise | profile/endpoints/endpoints_test.go:52-56 | the normalised pattern is exactly the pattern when it ends in `.` or `*`, and the pattern plus the implied trailing `.` otherwise |
| Domains.DomainMatch | profile/endpoints/endpoints_test.go:89-246 | a leading-`.` zone pattern matches the zone itself and the names below it; any other pattern matches as an anchored `*` glob |
| Domains.TrailingDotOptional | profile/endpoints/endpoints_test.go:236-246 | a pattern and the same pattern with a trailing dot compile to the same result |
| Domains.SuffixPatternMatch | profile/endpoints/endpoints_test.go:89-120 | `*x` matches exactly the names that end in `x`, whatever precedes it |
| Domains.StarDotMatch | profile/endpoints/endpoints_test.go:122-153 | `*.x` matches exactly the names ending in `.x` and never `x` itself |
| Domains.ZoneMatch | profile/endpoints/endpoints_test.go:155-186 | `.x` matches `x` itself and exactly the names ending in `.x` |
| Domains.PrefixPatternMatch | profile/endpoints/endpoints_test.go:188-210 | `x*` matches exactly the names starting with `x` (anchored at the start) |
| Domains.InfixPatternMatch | profile/endpoints/endpoints_test.go:212-234 | `*x*` matches exactly the names containing `x` |
| Domains.ExactMatch | profile/endpoints/endpoints_test.go:250-269 | a pattern without `*` or zone dot matches only the name it spells |
| Glob.Match | profile/endpoints/endpoints_test.go:89-234 | the anchored glob: `*` matches any run of characters, every other character matches itself |
| Glob.LiteralMatch | profile/endpoints/endpoints_test.go:250-269 | a star-free glob matches exactly its own text |
| Glob.StarMatchesAll | profile/endpoints/endpoints_test.go:89-120 | `*` matches every text, including the empty one |
| Glob.SuffixMatch | profile/endpoints/endpoints_test.go:89-120 | `*x` matches iff `x` is a suffix |
| Glob.PrefixMatch | profile/endpoints/endpoints_test.go:188-210 | `x*` matches iff `x` is a prefix |
| Glob.InfixMatch | profile/endpoints/endpoints_test.go:212-234 | `*x*` matches iff `x` occurs somewhere |
| Text.JoinSplit | profile/endpoints/endpoints_test.go:273-276 | joining the parts of a split gives the text back, and no part contains the separator |
| Text.SplitJoin | profile/endpoints/endpoints_test.go:392-395 | splitting a joined list of separator-free parts gives the parts back |
| Text.FieldsJoin | profile/endpoints/endpoints_test.go:38-46 | the whitespace fields of single-space-joined words are those words |
| Text.DecimalRoundTrip | profile/endpoints/endpoints_test.go:273-276 | a number printed in decimal parses back to itself |
| Text.LowerIdentity | profile/endpoints/endpoints_test.go:89-92 | lower-casing text without upper-case letters leaves it unchanged |
| Net.ParseIPv4 | profile/endpoints/endpoints_test.go:304-307 | dotted-quad text: four decimal octets of 0 to 255 separated by dots |
| Net.InNetwork | profile/endpoints/endpoints_test.go:341-353 | an address is in a network iff it agrees with the network address on the prefix bits |
| Net.Octets | profile/endpoints/endpoints_test.go:304-307 | the four octets of an address rebuild that address |
| Net.OctetRoundTrip | profile/endpoints/endpoints_test.go:304-307 | an octet printed in decimal parses back as that octet and has no dot |
| Net.ParseFormat | profile/endpoints/endpoints_test.go:304-307 | an address printed in dotted-quad form parses back to itself |
| Net.DottedDigits | profile/endpoints/endpoints_test.go:304-307 | text that parses as an address is non-empty and consists of digits and dots only |
| Net.NetworkAddress | profile/endpoints/endpoints_test.go:341-353 | the network address of `ip` holds `ip`, has its host bits cleared (a multiple of the network size), is at most `ip`, and is less than one network size below it |
| Net.RoundDown | profile/endpoints/endpoints_test.go:341-344 | rounding down to a multiple of `k` gives the largest multiple of `k` that is at most the address |
| Net.HostNetwork | profile/endpoints/endpoints_test.go:304-337 | a /32 network holds exactly its own address |
| Net.EverythingNetwork | profile/endpoints/endpoints_test.go:341-353 | a /0 network holds every address |
| Net.NetworkAddressSameNetwork | profile/endpoints/endpoints_test.go:341-353 | clearing the host bits does not change which addresses a network holds |
| Net.NetworkAddressFixed | profile/endpoints/endpoints_test.go:341-344 | clearing the host bits twice is the same as once |
| Net.ParseCIDR | profile/endpoints/endpoints_test.go:341-344 | a parsed network has its host bits cleared |
| Net.ParseFormatCIDR | profile/endpoints/endpoints_test.go:341-344 | a network printed as `a.b.c.d/n` parses back to itself and is not taken for a plain address |
| Net.Classify | profile/endpoints/endpoints_test.go:392-401 | the scope of an IPv4 address, decided by its address range |
| Net.ClassifyByNetwork | profile/endpoints/endpoints_test.go:392-401 | the scope is Localhost iff the address is in 127.0.0.0/8; LAN iff in 10/8, 172.16/12, 192.168/16 or 169.254/16; Multicast iff in 224/4; Invalid iff 0.0.0.0 |
| Endpoints.ParseEndpoint | profile/endpoints/endpoints_test.go:37-46 | a rule line compiles from its whitespace fields |
| Endpoints.ParseMatcher | profile/endpoints/endpoints_test.go:304-425 | the second field is tried as `*`, an address, a network, `AS<n>`, a country, a scope list, `L:` and a list, and otherwise as a domain pattern |
| Endpoints.ParseProtocol | profile/endpoints/endpoints_test.go:250-253 | a protocol is `*` (any protocol, 0), a decimal number below 256, or a protocol name in any capitalisation; anything else is rejected |
| Endpoints.MatcherAccepts | profile/endpoints/endpoints_test.go:76-401 | what each matcher accepts; an entity lacking the attribute a matcher needs is never accepted |
| Endpoints.FiltersAccept | profile/endpoints/endpoints_test.go:255-300 | protocol 0 and no port range accept any protocol and port; otherwise the protocol must be equal and the port within the range |
| Endpoints.Matches | profile/endpoints/endpoints_test.go:19-35 | the verdict is `NoMatch` unless matcher and filters accept the entity, and then `Permitted` for a `+` rule and `Denied` for a `-` rule |
| Endpoints.ParseFields | profile/endpoints/endpoints_test.go:38-46 | a rule compiles only from two or three fields, signed `+` or `-`, whose matcher compiles and whose third field, if present, compiles to the rule's filters; with two fields any protocol and port is allowed |
| Endpoints.ParseScopes | profile/endpoints/endpoints_test.go:392-395 | a scope list compiles iff every name is a scope, and then to exactly the set of the named scopes |
| Endpoints.ParsePort | profile/endpoints/endpoints_test.go:273-276 | a compiled port is at least 1 |
| Endpoints.ParsePorts | profile/endpoints/endpoints_test.go:273-276 | a compiled port range is non-empty and starts at port 1 or above |
| Endpoints.ParseFilters | profile/endpoints/endpoints_test.go:250-253 | a compiled third field takes its protocol from the part before `/`; a port range comes only after a `/`, and is non-empty and starts at port 1 or above |
| Endpoints.RuleWords | profile/endpoints/endpoints_test.go:38-46 | a rule written as single-space-separated words compiles from those words |
| Endpoints.TwoFieldRule | profile/endpoints/endpoints_test.go:71-74 | a sign and a compiling matcher give the endpoint of that sign and matcher, with no filters |
| Endpoints.ThreeFieldRule | profile/endpoints/endpoints_test.go:250-253 | a sign, a compiling matcher and compiling filters give the endpoint of all three |
| Endpoints.DomainRuleLine | profile/endpoints/endpoints_test.go:89-92 | a signed field in the domain-pattern alphabet that has a character other than a digit, `.` or `/` (so it is no address or network) and a character other than a letter or `,` (so it is no scope list) compiles iff it is a valid pattern, and then to the domain rule of its normalised pattern |
| Endpoints.AddressMatcher | profile/endpoints/endpoints_test.go:304-307 | a dotted-quad address compiles to the matcher of that one address |
| Endpoints.NetworkMatcher | profile/endpoints/endpoints_test.go:341-344 | CIDR text compiles to the matcher of that network |
| Endpoints.AsnMatcher | profile/endpoints/endpoints_test.go:360-363 | `AS<n>` compiles to the matcher of AS number `n` when `n` fits 32 bits, and is rejected otherwise |
| Endpoints.ScopesMatcher | profile/endpoints/endpoints_test.go:392-395 | a comma-joined list of scope names compiles to the matcher of the named scopes |
| Endpoints.PortRangeText | profile/endpoints/endpoints_test.go:273-276 | `<from>-<to>` compiles to that inclusive range when `from <= to`, and is rejected when reversed |
| Endpoints.SinglePortText | profile/endpoints/endpoints_test.go:405-408 | a single port compiles to the one-port range |
| Endpoints.AnyPortFilter | profile/endpoints/endpoints_test.go:405-408 | `<protocol>/*` compiles like the protocol alone: that protocol on any port, or the protocol's error |
| Endpoints.WildcardFilters | profile/endpoints/endpoints_test.go:405-408 | `*` and `*/*` compile to any protocol on any port |
| Endpoints.WildcardFieldOptional | profile/endpoints/endpoints_test.go:71-74 | a rule with the third field `*` or `*/*` compiles to the same result as the rule without it |
| Endpoints.ProtocolPortsFilter | profile/endpoints/endpoints_test.go:273-276 | `<protocol>/<ports>` compiles to that protocol and port range, or to the protocol's or the ports' error |
| Endpoints.ProtocolNumberFilter | profile/endpoints/endpoints_test.go:273-276 | a protocol number written in decimal, alone, compiles to that protocol with any port |
| Endpoints.ProtocolName | profile/endpoints/endpoints_test.go:250-253 | any capitalisation of a protocol name compiles to the protocol number of its lower-case form |
| Endpoints.ProtocolNames | profile/endpoints/endpoints_test.go:250-253 | `ICMP`, `IGMP`, `TCP`, `UDP` and `ICMPv6` compile to the IANA protocol numbers 1, 2, 6, 17 and 58 |
| Endpoints.ListsMatcher | profile/endpoints/endpoints_test.go:421-425 | `L:` followed by a comma-joined list of non-empty IDs compiles to the list matcher of exactly those IDs |
| Endpoints.SignFlip | profile/endpoints/endpoints_test.go:71-84 | flipping a rule's sign keeps which entities it matches and swaps `Permitted` and `Denied`; a `+` rule never denies and a `-` rule never permits |
| Endpoints.DomainRuleSeesOnlyDomain | profile/endpoints/endpoints_test.go:94-120 | an unfiltered domain rule gives the same verdict for all entities with the same domain, whatever their address, protocol or port |
| Endpoints.NoDomainNoMatch | profile/endpoints/endpoints_test.go:298-300 | an entity without a domain never matches a domain rule |
| Endpoints.NoAddressNoMatch | profile/endpoints/endpoints_test.go:335-337 | an entity without an address never matches an address, network, AS or country rule |
| Endpoints.ProtocolFilter | profile/endpoints/endpoints_test.go:255-269 | a rule with a protocol never matches another protocol, including an unset one |
| Endpoints.PortRangeInclusive | profile/endpoints/endpoints_test.go:278-300 | when the matcher and protocol accept, a port rule matches iff the port is within the range, both ends included; an unset port never matches |
| Entities.Entity.constructor | profile/endpoints/endpoints_test.go:76-78 | a new entity shows exactly the given fields and has no cached scope |
| Entities.Entity.SetIP | profile/endpoints/endpoints_test.go:397-400 | setting the address changes only the address and drops the cached scope |
| Entities.Entity.SetDstPort | profile/endpoints/endpoints_test.go:286-295 | setting the port changes only the port |
| Entities.Entity.GetScope | profile/endpoints/endpoints_test.go:397-401 | the scope returned and cached is the scope of the current address |
| Entities.Check | profile/endpoints/endpoints_test.go:397-401 | checking a rule against a live entity gives the verdict of `Matches` on its current fields and leaves them unchanged |
| EndpointTests.RejectsLoneDot | profile/endpoints/endpoints_test.go:51 | `+ .` is rejected |
| EndpointTests.AcceptsZone | profile/endpoints/endpoints_test.go:52 | `+ .at` compiles, to the zone `.at.` |
| EndpointTests.AcceptsZoneWithDot | profile/endpoints/endpoints_test.go:53 | `+ .at.` compiles, to the zone `.at.` |
| EndpointTests.AcceptsName | profile/endpoints/endpoints_test.go:54 | `+ 1.at` compiles, to `1.at.` |
| EndpointTests.AcceptsNameWithDot | profile/endpoints/endpoints_test.go:55 | `+ 1.at.` compiles, to `1.at.` |
| EndpointTests.AcceptsLongName | profile/endpoints/endpoints_test.go:56 | `+ 1.f.ix.de.` compiles |
| EndpointTests.AcceptsInfix | profile/endpoints/endpoints_test.go:57 | `+ *contains*` compiles |
| EndpointTests.AcceptsSuffix | profile/endpoints/endpoints_test.go:58 | `+ *has.suffix` compiles, with the implied trailing dot |
| EndpointTests.AcceptsLabelSuffix | profile/endpoints/endpoints_test.go:59 | `+ *.has.suffix` compiles, with the implied trailing dot |
| EndpointTests.AcceptsInfixWithDot | profile/endpoints/endpoints_test.go:60 | `+ *has.prefix*` compiles |
| EndpointTests.AcceptsInfixEndingInDot | profile/endpoints/endpoints_test.go:61 | `+ *has.prefix.*` compiles |
| EndpointTests.RejectsZoneWithWildcard | profile/endpoints/endpoints_test.go:62 | `+ .sub.and.prefix.*` is rejected |
| EndpointTests.RejectsEmptyLabel | profile/endpoints/endpoints_test.go:63 | `+ *.sub..and.prefix.*` is rejected |
| EndpointTests.CompilesWildcardRule | profile/endpoints/endpoints_test.go:71-74 | `+ *` compiles to the any-host rule without filters |
| EndpointTests.WildcardRuleVerdicts | profile/endpoints/endpoints_test.go:76-84 | the any-host rule permits every entity |
| EndpointTests.CompilesSuffixRule | profile/endpoints/endpoints_test.go:89-92 | `+ *example.com` compiles to the pattern `*example.com.` |
| EndpointTests.SuffixRuleVerdicts | profile/endpoints/endpoints_test.go:94-120 | every name ending in `example.com.` is permitted, including `example.com.`, `abc.example.com.` and `abc-example.com.` |
| EndpointTests.CompilesLabelSuffixRule | profile/endpoints/endpoints_test.go:122-125 | `+ *.example.com` compiles to `*.example.com.` |
| EndpointTests.LabelSuffixRuleVerdicts | profile/endpoints/endpoints_test.go:127-153 | `<host>.example.com.` is permitted; `example.com.` and `<host>-example.com.` are not matched |
| EndpointTests.CompilesZoneRule | profile/endpoints/endpoints_test.go:155-158 | `+ .example.com` compiles to the zone `.example.com.` |
| EndpointTests.ZoneRuleVerdicts | profile/endpoints/endpoints_test.go:160-186 | `example.com.` and `<host>.example.com.` are permitted; `<host>-example.com.` is not matched |
| EndpointTests.CompilesPrefixRule | profile/endpoints/endpoints_test.go:188-191 | `+ example.*` compiles to `example.*` |
| EndpointTests.PrefixRuleVerdicts | profile/endpoints/endpoints_test.go:193-210 | `example.com.` is permitted and `abc.example.com.` is not matched |
| EndpointTests.CompilesInfixRule | profile/endpoints/endpoints_test.go:212-215 | `+ *.exampl*` compiles to `*.exampl*` |
| EndpointTests.InfixRuleVerdicts | profile/endpoints/endpoints_test.go:220-234 | `<host>.example.com.` is permitted |
| EndpointTests.InfixRuleMisses | profile/endpoints/endpoints_test.go:217-228 | `example.com.` is not matched |
| EndpointTests.CompilesTopLevelRule | profile/endpoints/endpoints_test.go:236-239 | `+ *.com.` compiles to `*.com.` |
| EndpointTests.TopLevelRuleVerdicts | profile/endpoints/endpoints_test.go:241-246 | `<host>.com.` is permitted and `<host>.org.` is not matched |
| EndpointTests.ExampleComMatcher | profile/endpoints/endpoints_test.go:250-253 | `example.com` compiles to the domain matcher of `example.com.` |
| EndpointTests.UdpFilters | profile/endpoints/endpoints_test.go:250-253 | `UDP` compiles to protocol 17 with any port |
| EndpointTests.CompilesUdpRule | profile/endpoints/endpoints_test.go:250-253 | `+ example.com UDP` compiles to the domain rule with protocol 17 |
| EndpointTests.UdpRuleVerdicts | profile/endpoints/endpoints_test.go:255-269 | UDP to `example.com.` is permitted; any other protocol, including none, is not matched |
| EndpointTests.PortFilters | profile/endpoints/endpoints_test.go:273-276 | `17/442-444` compiles to protocol 17 on ports 442 to 444 |
| EndpointTests.CompilesPortRule | profile/endpoints/endpoints_test.go:273-276 | `+ example.com 17/442-444` compiles to the domain rule with those filters |
| EndpointTests.PortRuleVerdicts | profile/endpoints/endpoints_test.go:278-300 | UDP to `example.com.` is permitted iff the port is 442 to 444; another protocol or no port is not matched |
| EndpointTests.PortSweep | profile/endpoints/endpoints_test.go:278-296 | setting the port of one entity to 441, 442, 443, 444 and 445 in turn gives NoMatch, Permitted, Permitted, Permitted, NoMatch |
| EndpointTests.HostMatcher | profile/endpoints/endpoints_test.go:304-307 | `10.2.3.4` compiles to the matcher of that address |
| EndpointTests.CompilesHostRule | profile/endpoints/endpoints_test.go:304-307 | `+ 10.2.3.4` compiles to the rule for that one address |
| EndpointTests.HostRuleVerdicts | profile/endpoints/endpoints_test.go:309-337 | 10.2.3.4 is permitted whatever the domain, protocol and port; every other address, and no address, is not matched |
| EndpointTests.NetworkRuleMatcher | profile/endpoints/endpoints_test.go:341-344 | `10.2.3.0/24` compiles to the matcher of that network |
| EndpointTests.CompilesNetworkRule | profile/endpoints/endpoints_test.go:341-344 | `+ 10.2.3.0/24` compiles to the network rule |
| EndpointTests.NetworkRuleVerdicts | profile/endpoints/endpoints_test.go:345-353 | every 10.2.3.x is permitted; 10.2.2.4, 10.2.4.4 and no address are not matched |
| EndpointTests.AsRuleMatcher | profile/endpoints/endpoints_test.go:360-363 | `AS15169` compiles to the matcher of AS 15169 |
| EndpointTests.CompilesAsRule | profile/endpoints/endpoints_test.go:360-363 | `+ AS15169` compiles to the AS rule |
| EndpointTests.AsRuleVerdicts | profile/endpoints/endpoints_test.go:365-371 | an address in AS 15169 is permitted; one whose AS is another or unknown is not matched |
| EndpointTests.CountryMatcher | profile/endpoints/endpoints_test.go:375-378 | `AT` compiles to the country matcher of `AT` |
| EndpointTests.CompilesCountryRule | profile/endpoints/endpoints_test.go:375-378 | `+ AT` compiles to the country rule |
| EndpointTests.CountryRuleVerdicts | profile/endpoints/endpoints_test.go:380-386 | an address in country `AT` is permitted; one in another or an unknown country is not matched |
| EndpointTests.ScopeNames | profile/endpoints/endpoints_test.go:392-395 | `Localhost` and `LAN` name the scopes Localhost and LAN |
| EndpointTests.ScopeSet | profile/endpoints/endpoints_test.go:392-395 | the list `Localhost`, `LAN` compiles to exactly the set {Localhost, LAN} |
| EndpointTests.ScopeMatcher | profile/endpoints/endpoints_test.go:392-395 | `Localhost,LAN` compiles to the matcher of those two scopes |
| EndpointTests.CompilesScopeRule | profile/endpoints/endpoints_test.go:392-395 | `+ Localhost,LAN` compiles to the scope rule |
| EndpointTests.ScopeRuleVerdicts | profile/endpoints/endpoints_test.go:397-401 | an entity is permitted iff its address is loopback or LAN, and never denied; 192.168.0.1 is permitted and 151.101.1.164 is not matched |
| EndpointTests.ScopeFollowsLatestIP | profile/endpoints/endpoints_test.go:397-401 | one entity set to 192.168.0.1 and then to 151.101.1.164 is first permitted and then not matched |
| EndpointTests.AnyPortFilters | profile/endpoints/endpoints_test.go:405-408 | `*/443` compiles to any protocol on port 443 |
| EndpointTests.CompilesAnyPortRule | profile/endpoints/endpoints_test.go:405-408 | `+ * */443` compiles to the any-host rule on port 443 |
| EndpointTests.AnyPortRuleVerdicts | profile/endpoints/endpoints_test.go:409-415 | every entity on port 443 is permitted, and every other one is not matched |
| EndpointTests.ListRuleMatcher | profile/endpoints/endpoints_test.go:421-425 | `L:A,B,C` compiles to the list matcher of `A`, `B` and `C` |
| EndpointTests.CompilesListRule | profile/endpoints/endpoints_test.go:421-425 | `+ L:A,B,C` compiles to the list rule without filters |
| Uuid.IsRandomUUID | profile/migrations.go:178 | five groups of 8, 4, 4, 4 and 12 hex digits of either case, separated by `-`, and nothing else |
| Uuid.UUIDPositions | profile/migrations.go:178 | the five-group grammar accepts exactly the 36-character strings with `-` at positions 8, 13, 18 and 23 and hex digits elsewhere |
| Uuid.CaseInsensitive | profile/migrations.go:178 | a string is UUID-shaped iff its lower-cased form is |
| Migrations.CountSave | profile/migrations.go:146-155 | one more save: `total` grows by one, and a failed save also grows `failed` and becomes the last error |
| Migrations.PassResult | profile/migrations.go:163-175 | the result of a pass: an error with the failed and total counts and the last save error when one was recorded, and no error otherwise |
| Migrations.CountSaveConsistent | profile/migrations.go:146-155 | counting one more save keeps `failed <= total` and "there is a last error iff something failed"; the last error becomes this save's error if it failed |
| Migrations.NeedsIconMigration | profile/migrations.go:135-138 | a profile is migrated iff both icon fields are set and its icon list is empty |
| Migrations.IconPass | profile/migrations.go:127-156 | the icon pass, record by record: unparsable records and profiles not needing the migration are skipped, every other profile is migrated and saved |
| Migrations.MigrateIcon | profile/migrations.go:140-144 | the icon list becomes exactly one icon of the profile's icon type and value, nothing else changes, and the result no longer needs the migration |
| Migrations.MigrateIcons | profile/migrations.go:113-176 | a query that cannot start gives no saves and no error; otherwise the saves and the result are those of the icon-pass specification |
| Migrations.IconsPending | profile/migrations.go:127-138 | every profile the icon pass has to save has both icon fields set and an empty icon list |
| Migrations.IconPassSaves | profile/migrations.go:127-156 | the icon pass saves the migrated form of exactly the parsed profiles that need it, in order; `total` is the number of saves; `failed` is the number of those saves whose `Put` failed; the counters stay consistent, so `failed <= total` |
| Migrations.IconFailures | profile/migrations.go:146-150 | the pending profiles whose save failed are at most the pending profiles |
| Migrations.IconPassError | profile/migrations.go:146-175 | the icon pass has a last error iff some save failed, and it is the error of the last failed save |
| Migrations.IconPassResult | profile/migrations.go:163-175 | migrateIcons returns an error iff some pending profile's save failed; the error counts those failed saves out of all pending profiles and carries the error of the last failed save |
| Migrations.IconRetry | profile/migrations.go:163-173 | running the icon migration again over the records the first run left attempts exactly as many saves as the first run saw fail |
| Migrations.NeedsDerivedID | profile/migrations.go:204-216 | a profile is migrated iff its ID looks like a random UUID and differs from the ID derived from its fingerprints |
| Migrations.IDPass | profile/migrations.go:196-237 | the derived-ID pass, record by record: skipped records change nothing, a save is counted, and only a successful save queues the old scoped ID for deletion |
| Migrations.WithDerivedID | profile/migrations.go:209-222 | the profile takes the ID derived from its fingerprints, nothing else changes, and the result no longer needs a new ID |
| Migrations.MigrateToDerivedIDs | profile/migrations.go:180-262 | a query that cannot start gives nothing; otherwise the saves and result are those of the derived-ID specification, and one delete under the profiles prefix is issued per queued old scoped ID, in order |
| Migrations.DeleteKeys | profile/migrations.go:244-249 | one delete key per old scoped ID, in order, each being the profiles prefix followed by that ID |
| Migrations.IDsPending | profile/migrations.go:204-216 | every profile the derived-ID pass has to save has a UUID-shaped ID that differs from its derived ID |
| Migrations.IDPassSaves | profile/migrations.go:196-237 | the derived-ID pass saves exactly the pending profiles under their derived IDs, in order; `total` counts them, the counters stay consistent, and the delete list has `total - failed` entries |
| Migrations.IDPassError | profile/migrations.go:251-259 | the derived-ID pass fails iff some save failed |
| Migrations.IDPassLastError | profile/migrations.go:225-229 | the error of a failed derived-ID pass is the error of its last failed save |
| Migrations.IDFailures | profile/migrations.go:225-229 | the pending profiles whose save under the derived ID failed are at most the pending profiles |
| Migrations.IDPassFailures | profile/migrations.go:225-236 | `failed` of the derived-ID pass is the number of pending profiles whose save failed |
| Migrations.IDPassResult | profile/migrations.go:251-259 | migrateToDerivedIDs returns an error iff some pending profile's save failed; the error counts those failed saves out of all pending profiles and carries the error of the last failed save |
| Migrations.IDPassDeletes | profile/migrations.go:225-235 | the delete list holds the old scoped IDs of exactly the successful saves, in iteration order |
| Migrations.IDRetry | profile/migrations.go:251-258 | running the derived-ID migration again, after the deletes, attempts exactly as many saves as the first run saw fail |
| Migrations.ToUint8 | profile/migrations.go:53-55 | the conversion to `uint8` keeps values already in 0..255 and otherwise agrees with the value modulo 256 |
| Migrations.MigrateNetworkRating | profile/migrations.go:43-70 | the loop returns the lookup error that ends the search, or no error together with the decision of the search specification |
| Migrations.RatingSearch | profile/migrations.go:46-60 | the search over the settings in order: a missing setting aborts with an error, a changed `uint8` default enables the rating, an unchanged one moves on |
| Migrations.RatingSearchFirst | profile/migrations.go:46-60 | the rating is enabled iff some setting is changed and all earlier ones were found unchanged; the search aborts with an error iff a setting is missing and all earlier ones were found unchanged; it stays disabled iff all settings were found unchanged |
| Migrations.RatingEnabledIffChanged | profile/migrations.go:44-60 | when every setting can be looked up, the rating is enabled iff some setting's `uint8` default differs from its current value |
| Migrations.RatingSearchStops | profile/migrations.go:57-58 | settings after the one that decides the search do not change the outcome |

## Left out

- Kernel-driver transport and packet handler (`firewall/interception/windowskext/kext.go`, `handler.go`): service handles, file I/O, channels, goroutines and the clock. They are not part of this model.
- The endpoint list evaluator (first matching rule wins) is not part of this model; only single rules are.
- ASN, country and filter-list lookups are external databases. The model takes their answers as an input (`Lookups`), and an absent answer gives `NoMatch`. Filter-list rules (`L:A,B,C`) are compiled, but their matching is not tested by the suite and nothing is proved about it.
- A country token is accepted only as two upper-case letters, so `+ at` compiles as the domain `at.` and not as a country.
- `Text.IsSpace` treats only space and tab as whitespace, whereas Go's `strings.Fields` splits on every Unicode white-space character.
- IPv6: the model covers IPv4 only, so the scope classifier has only the IPv4 ranges.
- The protocol-name table covers ICMP, IGMP, TCP, UDP and ICMPv6.
- Comma-separated lists of port ranges, and protocol and port in two separate fields, are not part of this model.
- Lookup errors of the matchers are not reported next to the verdict.
- `migrateLinkedPath` (`profile/migrations.go:72-111`) rests on `updateMetadata`, which is not part of this model.
- `EnsureProfile`, `deriveProfileID`, `ScopedID`, `ResetKey` and `makeKey` are not part of this model. A failed parse is a `None` record; the derivation and the scoped ID are function parameters; the key handling is taken to be determined by the ID.
- Database I/O (`db.Query`, `db.Put`, `db.Delete`), configuration (`config.GetOption`, `config.Concurrent.GetAsInt`), `status.SetNetworkRating`, `module.Error` and all logging are inputs or outputs. The answer of each `Put` is an input sequence. The deletes are returned as the keys they name, and their outcomes are not modelled because a failed delete is only logged.
- An error of the query iterator after the loop (`it.Err`) is only logged and is not modelled. `Migrations.MigrateIcons` and `Migrations.MigrateToDerivedIDs` receive all records the iterator delivers.
- The value of `ProfilesDBPath` is not part of this model and is a parameter.
- `Migrations.MigrateNetworkRating` returns the decision to enable the network rating instead of calling `status.SetNetworkRating`, whose error is only logged.
- Error texts are wrapped as data (`MigrationError`), not formatted as strings.
