/**
 * The rule table of the endpoint test suite, stated as lemmas about the
 * model: which rule lines compile, what they compile to, and the verdict
 * each rule gives for the entities the suite checks. Where the verdict
 * does not depend on an entity's address, protocol or port, the lemma
 * states it for every entity with the given domain.
 */
module EndpointTests {
  import opened Wrappers
  import Text
  import Domains
  import Glob
  import opened Net
  import opened Endpoints
  import opened Entities

  const ExampleCom := "example.com."
  const AbcExampleCom := "abc.example.com."
  const AbcDashExampleCom := "abc-example.com."
  const ExampleOrg := "example.org."

  /** The address 10.2.3.4 the suite gives most entities. */
  const TestIP := Address(10, 2, 3, 4)

  // ---------------------------------------------------------------- rule format

  /** `.` alone names no domain. */
  lemma RejectsLoneDot()
    ensures ParseEndpoint("+ .").Err?
  {
    assert Text.Join(["+", "."], ' ') == "+ .";
    RuleWords(["+", "."]);
    assert Text.Join(["", ""], '.') == ".";
    Text.SplitJoin(["", ""], '.');
    Text.SplitJoin(["."], '/');
    DomainMatcher(".", 0);
  }

  /** The literal facts `AcceptsZone` rests on, each checked on its own. */
  lemma AcceptsZoneLiterals()
    ensures Text.Join(["+", ".at"], ' ') == "+ .at"
    ensures forall c :: c in ".at" ==> Domains.PatternChar(c)
    ensures Domains.NoEmptyLabel(".at")
    ensures Domains.Normalise(".at") == ".at."
  {
  }

  lemma AcceptsZone()
    ensures ParseEndpoint("+ .at") == Ok(Endpoint(true, Domain(".at."), 0, None))
  {
    AcceptsZoneLiterals();
    DomainRuleLine("+", ".at", 1, 0);
  }

  /** The literal facts `AcceptsZoneWithDot` rests on, each checked on its own. */
  lemma AcceptsZoneWithDotLiterals()
    ensures Text.Join(["+", ".at."], ' ') == "+ .at."
    ensures forall c :: c in ".at." ==> Domains.PatternChar(c)
    ensures Domains.NoEmptyLabel(".at.")
    ensures Domains.Normalise(".at.") == ".at."
  {
  }

  lemma AcceptsZoneWithDot()
    ensures ParseEndpoint("+ .at.") == Ok(Endpoint(true, Domain(".at."), 0, None))
  {
    AcceptsZoneWithDotLiterals();
    DomainRuleLine("+", ".at.", 1, 0);
  }

  /** The literal facts `AcceptsName` rests on, each checked on its own. */
  lemma AcceptsNameLiterals()
    ensures Text.Join(["+", "1.at"], ' ') == "+ 1.at"
    ensures forall c :: c in "1.at" ==> Domains.PatternChar(c)
    ensures Domains.NoEmptyLabel("1.at")
    ensures Domains.Normalise("1.at") == "1.at."
  {
  }

  lemma AcceptsName()
    ensures ParseEndpoint("+ 1.at") == Ok(Endpoint(true, Domain("1.at."), 0, None))
  {
    AcceptsNameLiterals();
    DomainRuleLine("+", "1.at", 2, 1);
  }

  /** The literal facts `AcceptsNameWithDot` rests on, each checked on its own. */
  lemma AcceptsNameWithDotLiterals()
    ensures Text.Join(["+", "1.at."], ' ') == "+ 1.at."
    ensures forall c :: c in "1.at." ==> Domains.PatternChar(c)
    ensures Domains.NoEmptyLabel("1.at.")
    ensures Domains.Normalise("1.at.") == "1.at."
  {
  }

  lemma AcceptsNameWithDot()
    ensures ParseEndpoint("+ 1.at.") == Ok(Endpoint(true, Domain("1.at."), 0, None))
  {
    AcceptsNameWithDotLiterals();
    DomainRuleLine("+", "1.at.", 2, 1);
  }

  /** The literal facts `AcceptsLongName` rests on, each checked on its own. */
  lemma AcceptsLongNameLiterals()
    ensures Text.Join(["+", "1.f.ix.de."], ' ') == "+ 1.f.ix.de."
    ensures forall c :: c in "1.f.ix.de." ==> Domains.PatternChar(c)
    ensures Domains.NoEmptyLabel("1.f.ix.de.")
    ensures Domains.Normalise("1.f.ix.de.") == "1.f.ix.de."
  {
  }

  lemma AcceptsLongName()
    ensures ParseEndpoint("+ 1.f.ix.de.") == Ok(Endpoint(true, Domain("1.f.ix.de."), 0, None))
  {
    AcceptsLongNameLiterals();
    DomainRuleLine("+", "1.f.ix.de.", 2, 1);
  }

  /** The literal facts `AcceptsInfix` rests on, each checked on its own. */
  lemma AcceptsInfixLiterals()
    ensures Text.Join(["+", "*contains*"], ' ') == "+ *contains*"
    ensures forall c :: c in "*contains*" ==> Domains.PatternChar(c)
    ensures Domains.NoEmptyLabel("*contains*")
    ensures Domains.Normalise("*contains*") == "*contains*"
  {
  }

  lemma AcceptsInfix()
    ensures ParseEndpoint("+ *contains*") == Ok(Endpoint(true, Domain("*contains*"), 0, None))
  {
    AcceptsInfixLiterals();
    DomainRuleLine("+", "*contains*", 0, 0);
  }

  /** The literal facts `AcceptsSuffix` rests on, each checked on its own. */
  lemma AcceptsSuffixLiterals()
    ensures Text.Join(["+", "*has.suffix"], ' ') == "+ *has.suffix"
    ensures forall c :: c in "*has.suffix" ==> Domains.PatternChar(c)
    ensures Domains.NoEmptyLabel("*has.suffix")
    ensures Domains.Normalise("*has.suffix") == "*has.suffix."
  {
  }

  lemma AcceptsSuffix()
    ensures ParseEndpoint("+ *has.suffix") == Ok(Endpoint(true, Domain("*has.suffix."), 0, None))
  {
    AcceptsSuffixLiterals();
    DomainRuleLine("+", "*has.suffix", 0, 0);
  }

  /** The literal facts `AcceptsLabelSuffix` rests on, each checked on its own. */
  lemma AcceptsLabelSuffixLiterals()
    ensures Text.Join(["+", "*.has.suffix"], ' ') == "+ *.has.suffix"
    ensures forall c :: c in "*.has.suffix" ==> Domains.PatternChar(c)
    ensures Domains.NoEmptyLabel("*.has.suffix")
    ensures Domains.Normalise("*.has.suffix") == "*.has.suffix."
  {
  }

  lemma AcceptsLabelSuffix()
    ensures ParseEndpoint("+ *.has.suffix") == Ok(Endpoint(true, Domain("*.has.suffix."), 0, None))
  {
    AcceptsLabelSuffixLiterals();
    DomainRuleLine("+", "*.has.suffix", 0, 0);
  }

  /** The literal facts `AcceptsInfixWithDot` rests on, each checked on its own. */
  lemma AcceptsInfixWithDotLiterals()
    ensures Text.Join(["+", "*has.prefix*"], ' ') == "+ *has.prefix*"
    ensures forall c :: c in "*has.prefix*" ==> Domains.PatternChar(c)
    ensures Domains.NoEmptyLabel("*has.prefix*")
    ensures Domains.Normalise("*has.prefix*") == "*has.prefix*"
  {
  }

  lemma AcceptsInfixWithDot()
    ensures ParseEndpoint("+ *has.prefix*") == Ok(Endpoint(true, Domain("*has.prefix*"), 0, None))
  {
    AcceptsInfixWithDotLiterals();
    DomainRuleLine("+", "*has.prefix*", 0, 0);
  }

  /** The literal facts `AcceptsInfixEndingInDot` rests on, each checked on its own. */
  lemma AcceptsInfixEndingInDotLiterals()
    ensures Text.Join(["+", "*has.prefix.*"], ' ') == "+ *has.prefix.*"
    ensures forall c :: c in "*has.prefix.*" ==> Domains.PatternChar(c)
    ensures Domains.NoEmptyLabel("*has.prefix.*")
    ensures Domains.Normalise("*has.prefix.*") == "*has.prefix.*"
  {
  }

  lemma AcceptsInfixEndingInDot()
    ensures ParseEndpoint("+ *has.prefix.*") == Ok(Endpoint(true, Domain("*has.prefix.*"), 0, None))
  {
    AcceptsInfixEndingInDotLiterals();
    DomainRuleLine("+", "*has.prefix.*", 0, 0);
  }

  /** The literal facts `RejectsZoneWithWildcard` rests on, each checked on its own. */
  lemma RejectsZoneWithWildcardLiterals()
    ensures Text.Join(["+", ".sub.and.prefix.*"], ' ') == "+ .sub.and.prefix.*"
    ensures forall c :: c in ".sub.and.prefix.*" ==> Domains.PatternChar(c)
  {
  }

  /** A zone cannot end in a wildcard. */
  lemma RejectsZoneWithWildcard()
    ensures ParseEndpoint("+ .sub.and.prefix.*").Err?
  {
    RejectsZoneWithWildcardLiterals();
    DomainRuleLine("+", ".sub.and.prefix.*", 1, 0);
  }

  /** The literal facts `RejectsEmptyLabel` rests on, each checked on its own. */
  lemma RejectsEmptyLabelLiterals()
    ensures Text.Join(["+", "*.sub..and.prefix.*"], ' ') == "+ *.sub..and.prefix.*"
    ensures forall c :: c in "*.sub..and.prefix.*" ==> Domains.PatternChar(c)
  {
  }

  /** Two dots in a row leave an empty label. */
  lemma RejectsEmptyLabel()
    ensures ParseEndpoint("+ *.sub..and.prefix.*").Err?
  {
    RejectsEmptyLabelLiterals();
    assert "*.sub..and.prefix.*"[5] == '.' && "*.sub..and.prefix.*"[6] == '.';
    DomainRuleLine("+", "*.sub..and.prefix.*", 0, 0);
  }

  // ---------------------------------------------------------------- any host

  const WildcardRule := Endpoint(true, AnyHost, 0, None)

  lemma WildcardRuleWords()
    ensures ParseEndpoint(Text.Join(["+", "*"], ' ')) == Ok(WildcardRule)
  {
    assert Text.IsWord("*");
    TwoFieldRule("+", "*", AnyHost);
  }

  lemma WildcardRuleText()
    ensures Text.Join(["+", "*"], ' ') == "+ *"
  {
  }

  /** `+ *` compiles to the wildcard rule, which permits every entity. */
  lemma CompilesWildcardRule()
    ensures ParseEndpoint("+ *") == Ok(WildcardRule)
  {
    WildcardRuleWords();
    WildcardRuleText();
  }

  lemma WildcardRuleVerdicts(e: EntityView, lookups: Lookups)
    ensures Matches(WildcardRule, e, lookups) == Permitted
  {
  }

  // ---------------------------------------------------------------- domain rules
  //
  // The suite checks `example.com.`, `abc.example.com.` and `abc-example.com.`,
  // each once without and once with address, protocol and port. A domain rule
  // has no protocol or port filter, so the lemmas below state each verdict for
  // every entity with such a name, and for every host part in place of `abc`.

  const SuffixRule := Endpoint(true, Domain(['*'] + ExampleCom), 0, None)
  const LabelSuffixRule := Endpoint(true, Domain(['*', '.'] + ExampleCom), 0, None)
  const ZoneRule := Endpoint(true, Domain(['.'] + ExampleCom), 0, None)
  const PrefixRule := Endpoint(true, Domain("example." + "*"), 0, None)
  const InfixRule := Endpoint(true, Domain(['*'] + ".exampl" + "*"), 0, None)
  const TopLevelRule := Endpoint(true, Domain(['*'] + ".com."), 0, None)

  /** The literal facts `CompilesSuffixRule` rests on, each checked on its own. */
  lemma CompilesSuffixRuleLiterals()
    ensures Text.Join(["+", "*example.com"], ' ') == "+ *example.com"
    ensures forall c :: c in "*example.com" ==> Domains.PatternChar(c)
    ensures Domains.NoEmptyLabel("*example.com")
    ensures Domains.Normalise("*example.com") == ['*'] + ExampleCom
  {
  }

  /** `*example.com`: a plain suffix, so `abc-example.com.` matches as well. */
  lemma CompilesSuffixRule()
    ensures ParseEndpoint("+ *example.com") == Ok(SuffixRule)
  {
    CompilesSuffixRuleLiterals();
    DomainRuleLine("+", "*example.com", 0, 0);
  }

  lemma SuffixRuleVerdicts(host: string, e: EntityView)
    ensures e.domain == host + ExampleCom ==> Matches(SuffixRule, e, NoLookups) == Permitted
  {
    Domains.SuffixPatternMatch(ExampleCom, e.domain);
    if e.domain == host + ExampleCom {
      assert e.domain[|host|..] == ExampleCom;
    }
  }

  /** The literal facts `CompilesLabelSuffixRule` rests on, each checked on its own. */
  lemma CompilesLabelSuffixRuleLiterals()
    ensures Text.Join(["+", "*.example.com"], ' ') == "+ *.example.com"
    ensures forall c :: c in "*.example.com" ==> Domains.PatternChar(c)
    ensures Domains.NoEmptyLabel("*.example.com")
    ensures Domains.Normalise("*.example.com") == ['*', '.'] + ExampleCom
  {
  }

  /** `*.example.com`: the wildcard must be followed by a label boundary. */
  lemma CompilesLabelSuffixRule()
    ensures ParseEndpoint("+ *.example.com") == Ok(LabelSuffixRule)
  {
    CompilesLabelSuffixRuleLiterals();
    DomainRuleLine("+", "*.example.com", 0, 0);
  }

  lemma LabelSuffixRuleVerdicts(host: string, e: EntityView)
    ensures e.domain == host + "." + ExampleCom ==> Matches(LabelSuffixRule, e, NoLookups) == Permitted
    ensures e.domain == ExampleCom ==> Matches(LabelSuffixRule, e, NoLookups) == NoMatch
    ensures e.domain == host + "-" + ExampleCom ==> Matches(LabelSuffixRule, e, NoLookups) == NoMatch
  {
    Domains.StarDotMatch(ExampleCom, e.domain);
    if e.domain == host + "." + ExampleCom {
      assert e.domain[|host|..] == ['.'] + ExampleCom;
    }
    if e.domain == host + "-" + ExampleCom {
      assert e.domain[|host|] == '-';
    }
  }

  /** The literal facts `CompilesZoneRule` rests on, each checked on its own. */
  lemma CompilesZoneRuleLiterals()
    ensures Text.Join(["+", ".example.com"], ' ') == "+ .example.com"
    ensures forall c :: c in ".example.com" ==> Domains.PatternChar(c)
    ensures Domains.NoEmptyLabel(".example.com")
    ensures Domains.Normalise(".example.com") == ['.'] + ExampleCom
  {
  }

  /** `.example.com`: the zone itself and every name below it. */
  lemma CompilesZoneRule()
    ensures ParseEndpoint("+ .example.com") == Ok(ZoneRule)
  {
    CompilesZoneRuleLiterals();
    DomainRuleLine("+", ".example.com", 1, 0);
  }

  lemma ZoneRuleVerdicts(host: string, e: EntityView)
    ensures e.domain == ExampleCom ==> Matches(ZoneRule, e, NoLookups) == Permitted
    ensures e.domain == host + "." + ExampleCom ==> Matches(ZoneRule, e, NoLookups) == Permitted
    ensures e.domain == host + "-" + ExampleCom ==> Matches(ZoneRule, e, NoLookups) == NoMatch
  {
    Domains.ZoneMatch(ExampleCom, e.domain);
    if e.domain == host + "." + ExampleCom {
      assert e.domain[|host|..] == ['.'] + ExampleCom;
    }
    if e.domain == host + "-" + ExampleCom {
      assert e.domain[|host|] == '-';
    }
  }

  /** The literal facts `CompilesPrefixRule` rests on, each checked on its own. */
  lemma CompilesPrefixRuleLiterals()
    ensures Text.Join(["+", "example.*"], ' ') == "+ example.*"
    ensures forall c :: c in "example.*" ==> Domains.PatternChar(c)
    ensures Domains.NoEmptyLabel("example.*")
    ensures Domains.Normalise("example.*") == "example." + "*"
  {
  }

  /** `example.*`: anchored at the start, so `abc.example.com.` does not match. */
  lemma CompilesPrefixRule()
    ensures ParseEndpoint("+ example.*") == Ok(PrefixRule)
  {
    CompilesPrefixRuleLiterals();
    DomainRuleLine("+", "example.*", 0, 7);
  }

  lemma PrefixRuleVerdicts(e: EntityView)
    ensures e.domain == ExampleCom ==> Matches(PrefixRule, e, NoLookups) == Permitted
    ensures e.domain == AbcExampleCom ==> Matches(PrefixRule, e, NoLookups) == NoMatch
  {
    Domains.PrefixPatternMatch("example.", e.domain);
  }

  /** The literal facts `CompilesInfixRule` rests on, each checked on its own. */
  lemma CompilesInfixRuleLiterals()
    ensures Text.Join(["+", "*.exampl*"], ' ') == "+ *.exampl*"
    ensures forall c :: c in "*.exampl*" ==> Domains.PatternChar(c)
    ensures Domains.NoEmptyLabel("*.exampl*")
    ensures Domains.Normalise("*.exampl*") == ['*'] + ".exampl" + "*"
  {
  }

  /** `*.exampl*`: the text `.exampl` anywhere in the name. */
  lemma CompilesInfixRule()
    ensures ParseEndpoint("+ *.exampl*") == Ok(InfixRule)
  {
    CompilesInfixRuleLiterals();
    DomainRuleLine("+", "*.exampl*", 0, 0);
  }

  lemma InfixRuleVerdicts(host: string, e: EntityView)
    ensures e.domain == host + "." + ExampleCom ==> Matches(InfixRule, e, NoLookups) == Permitted
  {
    Domains.InfixPatternMatch(".exampl", e.domain);
    if e.domain == host + "." + ExampleCom {
      assert Glob.IsPrefix(".exampl", e.domain[|host|..]);
    }
  }

  /** `example.com.` has no dot in front of `exampl`. */
  lemma InfixRuleMisses(e: EntityView)
    ensures e.domain == ExampleCom ==> Matches(InfixRule, e, NoLookups) == NoMatch
  {
    Domains.InfixPatternMatch(".exampl", e.domain);
    if e.domain == ExampleCom {
      forall k | 0 <= k <= |e.domain| ensures !Glob.IsPrefix(".exampl", e.domain[k..]) {
        if k + 7 <= |e.domain| {
          assert e.domain[k..][0] == e.domain[k] && e.domain[k..][1] == e.domain[k + 1];
        }
      }
    }
  }

  /** The literal facts `CompilesTopLevelRule` rests on, each checked on its own. */
  lemma CompilesTopLevelRuleLiterals()
    ensures Text.Join(["+", "*.com."], ' ') == "+ *.com."
    ensures forall c :: c in "*.com." ==> Domains.PatternChar(c)
    ensures Domains.NoEmptyLabel("*.com.")
    ensures Domains.Normalise("*.com.") == ['*'] + ".com."
  {
  }

  /** `*.com.`: an explicit trailing dot is kept as written. */
  lemma CompilesTopLevelRule()
    ensures ParseEndpoint("+ *.com.") == Ok(TopLevelRule)
  {
    CompilesTopLevelRuleLiterals();
    DomainRuleLine("+", "*.com.", 0, 0);
  }

  lemma TopLevelRuleVerdicts(host: string, e: EntityView)
    ensures e.domain == host + ".com." ==> Matches(TopLevelRule, e, NoLookups) == Permitted
    ensures e.domain == host + ".org." ==> Matches(TopLevelRule, e, NoLookups) == NoMatch
  {
    Domains.SuffixPatternMatch(".com.", e.domain);
    if e.domain == host + ".com." {
      assert e.domain[|host|..] == ".com.";
    }
    if e.domain == host + ".org." {
      assert e.domain[|host| + 1] == 'o';
    }
  }

  // ---------------------------------------------------------------- protocol and ports

  const UdpRule := Endpoint(true, Domain(ExampleCom), 17, None)
  const PortRule := Endpoint(true, Domain(ExampleCom), 17, Some(PortRange(442, 444)))

  /** The literal facts `ExampleComMatcher` rests on. */
  lemma ExampleComLiterals()
    ensures forall c :: c in "example.com" ==> Domains.PatternChar(c)
    ensures Domains.NoEmptyLabel("example.com")
    ensures Domains.Normalise("example.com") == ExampleCom
  {
  }

  /** `example.com` names the domain `example.com.`. */
  lemma ExampleComMatcher()
    ensures Text.IsWord("example.com")
    ensures ParseMatcher("example.com") == Ok(Domain(ExampleCom))
  {
    ExampleComLiterals();
    DomainField("example.com", 0, 7);
  }

  /** `UDP` is protocol 17, with no port restriction. */
  lemma UdpFilters()
    ensures Text.IsWord("UDP")
    ensures ParseFilters("UDP") == Ok((17, None))
  {
    assert ParseProtocol("UDP") == Ok(17);
    assert '/' !in "UDP";
    ProtocolOnlyFilter("UDP");
  }

  lemma UdpRuleWords()
    ensures ParseEndpoint(Text.Join(["+", "example.com", "UDP"], ' ')) == Ok(UdpRule)
  {
    ExampleComMatcher();
    UdpFilters();
    ThreeFieldRule("+", "example.com", "UDP", Domain(ExampleCom), (17, None));
  }

  lemma UdpRuleText()
    ensures Text.Join(["+", "example.com", "UDP"], ' ') == "+ example.com UDP"
  {
  }

  /** A protocol name in the third field, in any case. */
  lemma CompilesUdpRule()
    ensures ParseEndpoint("+ example.com UDP") == Ok(UdpRule)
  {
    UdpRuleWords();
    UdpRuleText();
  }

  /** Only UDP traffic to `example.com.` is permitted; TCP, and an entity without protocol, are not matched. */
  lemma UdpRuleVerdicts(e: EntityView)
    ensures e.domain == ExampleCom && e.protocol == 17 ==> Matches(UdpRule, e, NoLookups) == Permitted
    ensures e.protocol != 17 ==> Matches(UdpRule, e, NoLookups) == NoMatch
  {
    Domains.ExactMatch(ExampleCom, e.domain);
  }

  /** `442-444` is the range of ports 442 to 444. */
  lemma PortRangeLiterals()
    ensures ParsePorts("442-444") == Ok(PortRange(442, 444))
  {
    assert Text.DecimalString(442) == "442" && Text.DecimalString(444) == "444";
    assert "442" + "-" + "444" == "442-444";
    PortRangeText(442, 444);
  }

  lemma PortFilterLiterals()
    ensures ParseProtocol("17") == Ok(17)
    ensures '/' !in "17" && '/' !in "442-444" && "442-444" != "*"
    ensures "17" + "/" + "442-444" == "17/442-444"
    ensures Text.IsWord("17/442-444")
  {
  }

  /** `17/442-444` is protocol 17 on ports 442 to 444. */
  lemma PortFilters()
    ensures Text.IsWord("17/442-444")
    ensures ParseFilters("17/442-444") == Ok((17, Some(PortRange(442, 444))))
  {
    PortRangeLiterals();
    PortFilterLiterals();
    ProtocolPortsFilter("17", "442-444");
  }

  lemma PortRuleWords()
    ensures ParseEndpoint(Text.Join(["+", "example.com", "17/442-444"], ' ')) == Ok(PortRule)
  {
    ExampleComMatcher();
    PortFilters();
    ThreeFieldRule("+", "example.com", "17/442-444", Domain(ExampleCom), (17, Some(PortRange(442, 444))));
  }

  lemma PortRuleText()
    ensures Text.Join(["+", "example.com", "17/442-444"], ' ') == "+ example.com 17/442-444"
  {
    assert Text.Join(["17/442-444"], ' ') == "17/442-444";
    assert Text.Join(["example.com", "17/442-444"], ' ') == "example.com 17/442-444";
  }

  /** A protocol number and an inclusive port range. */
  lemma CompilesPortRule()
    ensures ParseEndpoint("+ example.com 17/442-444") == Ok(PortRule)
  {
    PortRuleWords();
    PortRuleText();
  }

  /** UDP traffic to `example.com.` is permitted exactly on ports 442 to 444. */
  lemma PortRuleVerdicts(e: EntityView)
    ensures e.domain == ExampleCom && e.protocol == 17 ==> (Matches(PortRule, e, NoLookups) == Permitted <==> 442 <= e.port <= 444)
    ensures e.protocol != 17 || e.port == 0 ==> Matches(PortRule, e, NoLookups) == NoMatch
  {
    Domains.ExactMatch(ExampleCom, e.domain);
  }

  /**
   * The suite's port sweep on one entity object: its destination port is
   * set to 441, 442, 443, 444 and 445 in turn, and the rule checked each time.
   */
  method PortSweep() returns (verdicts: seq<EPResult>)
    ensures verdicts == [NoMatch, Permitted, Permitted, Permitted, NoMatch]
  {
    var entity := new Entity(ExampleCom, Some(TestIP), 17, 441);
    verdicts := [];
    var p := 441;
    while p <= 445
      invariant 441 <= p <= 446
      invariant entity.Valid()
      invariant entity.View() == EntityView(ExampleCom, Some(TestIP), 17, if p == 441 then 441 else p - 1)
      invariant |verdicts| == p - 441
      invariant forall k :: 0 <= k < |verdicts| ==> verdicts[k] == (if 442 <= 441 + k <= 444 then Permitted else NoMatch)
    {
      entity.SetDstPort(p);
      var r := Check(PortRule, entity, NoLookups);
      PortRuleVerdicts(entity.View());
      verdicts := verdicts + [r];
      p := p + 1;
    }
  }

  // ---------------------------------------------------------------- addresses

  const HostRule := Endpoint(true, Host(TestIP), 0, None)
  const NetworkRule := Endpoint(true, Network(Address(10, 2, 3, 0), 24), 0, None)

  /** 10.2.3.4 printed in dotted-quad form. */
  lemma TestIPText()
    ensures FormatIPv4(TestIP) == "10.2.3.4"
  {
    assert Octets(Address(10, 2, 3, 4)) == (10, 2, 3, 4);
    assert Text.DecimalString(10) == "10" && Text.DecimalString(2) == "2";
    assert Text.DecimalString(3) == "3" && Text.DecimalString(4) == "4";
    assert Text.Join(["10", "2", "3", "4"], '.') == "10.2.3.4";
  }

  lemma HostMatcher()
    ensures Text.IsWord("10.2.3.4")
    ensures ParseMatcher("10.2.3.4") == Ok(Host(TestIP))
  {
    TestIPText();
    AddressMatcher(TestIP);
  }

  lemma HostRuleWords()
    ensures ParseEndpoint(Text.Join(["+", "10.2.3.4"], ' ')) == Ok(HostRule)
  {
    HostMatcher();
    TwoFieldRule("+", "10.2.3.4", Host(TestIP));
  }

  lemma HostRuleText()
    ensures Text.Join(["+", "10.2.3.4"], ' ') == "+ 10.2.3.4"
  {
  }

  /** A dotted-quad address compiles to a rule for that one address. */
  lemma CompilesHostRule()
    ensures ParseEndpoint("+ 10.2.3.4") == Ok(HostRule)
  {
    HostRuleWords();
    HostRuleText();
  }

  /** 10.2.3.4 is matched whatever the name, protocol and port; any other address, or none, is not. */
  lemma HostRuleVerdicts(e: EntityView)
    ensures e.ip == Some(TestIP) ==> Matches(HostRule, e, NoLookups) == Permitted
    ensures e.ip != Some(TestIP) ==> Matches(HostRule, e, NoLookups) == NoMatch
  {
  }

  /** 10.2.3.0/24 printed in CIDR form; 10.2.3.0 is the address of its own /24 network. */
  lemma TestNetworkText()
    ensures FormatCIDR(Address(10, 2, 3, 0), 24) == "10.2.3.0/24"
  {
    assert Octets(Address(10, 2, 3, 0)) == (10, 2, 3, 0);
    assert Text.DecimalString(10) == "10" && Text.DecimalString(2) == "2" && Text.DecimalString(3) == "3";
    assert Text.DecimalString(0) == "0" && Text.DecimalString(24) == "24";
    assert Text.Join(["10", "2", "3", "0"], '.') + "/" + "24" == "10.2.3.0/24";
  }

  lemma TestNetworkMatcher()
    ensures Text.IsWord(FormatCIDR(Address(10, 2, 3, 0), 24))
    ensures ParseMatcher(FormatCIDR(Address(10, 2, 3, 0), 24)) == Ok(Network(Address(10, 2, 3, 0), 24))
  {
    assert HostSpan(24) == 256;
    NetworkMatcher(Address(10, 2, 3, 0), 24);
  }

  lemma NetworkRuleMatcher()
    ensures Text.IsWord("10.2.3.0/24")
    ensures ParseMatcher("10.2.3.0/24") == Ok(Network(Address(10, 2, 3, 0), 24))
  {
    TestNetworkMatcher();
    TestNetworkText();
  }

  lemma NetworkRuleWords()
    ensures ParseEndpoint(Text.Join(["+", "10.2.3.0/24"], ' ')) == Ok(NetworkRule)
  {
    NetworkRuleMatcher();
    TwoFieldRule("+", "10.2.3.0/24", Network(Address(10, 2, 3, 0), 24));
  }

  lemma NetworkRuleText()
    ensures Text.Join(["+", "10.2.3.0/24"], ' ') == "+ 10.2.3.0/24"
  {
  }

  /** CIDR text compiles to a network rule. */
  lemma CompilesNetworkRule()
    ensures ParseEndpoint("+ 10.2.3.0/24") == Ok(NetworkRule)
  {
    NetworkRuleWords();
    NetworkRuleText();
  }

  /** Every address 10.2.3.x is matched; 10.2.2.4 and 10.2.4.4, and no address, are not. */
  lemma NetworkRuleVerdicts(e: EntityView, x: Octet)
    ensures e.ip == Some(Address(10, 2, 3, x)) ==> Matches(NetworkRule, e, NoLookups) == Permitted
    ensures e.ip in {Some(Address(10, 2, 2, 4)), Some(Address(10, 2, 4, 4)), None} ==> Matches(NetworkRule, e, NoLookups) == NoMatch
  {
    assert HostSpan(24) == 256;
    assert Address(10, 2, 3, x) == Address(10, 2, 3, 0) + x;
  }

  // ---------------------------------------------------------------- AS numbers and countries

  const AsRule := Endpoint(true, ASN(15169), 0, None)
  const CountryRule := Endpoint(true, Country("AT"), 0, None)

  /** `AS` and a decimal number compiles to a rule for that AS number. */
  lemma AsRuleMatcher()
    ensures Text.IsWord("AS15169")
    ensures ParseMatcher("AS15169") == Ok(ASN(15169))
  {
    assert Text.DecimalString(15169) == "15169";
    assert "AS" + "15169" == "AS15169";
    AsnMatcher(15169);
  }

  lemma AsRuleWords()
    ensures ParseEndpoint(Text.Join(["+", "AS15169"], ' ')) == Ok(AsRule)
  {
    AsRuleMatcher();
    TwoFieldRule("+", "AS15169", ASN(15169));
  }

  lemma AsRuleText()
    ensures Text.Join(["+", "AS15169"], ' ') == "+ AS15169"
  {
  }

  lemma CompilesAsRule()
    ensures ParseEndpoint("+ AS15169") == Ok(AsRule)
  {
    AsRuleWords();
    AsRuleText();
  }

  /**
   * The AS number of an address comes from a lookup outside the model: the
   * rule matches an addressed entity exactly when that lookup names AS15169.
   */
  lemma AsRuleVerdicts(e: EntityView, lookups: Lookups)
    ensures e.ip.Some? && lookups.asn == Some(15169) ==> Matches(AsRule, e, lookups) == Permitted
    ensures lookups.asn != Some(15169) ==> Matches(AsRule, e, lookups) == NoMatch
  {
  }

  lemma CountryMatcher()
    ensures Text.IsWord("AT")
    ensures ParseMatcher("AT") == Ok(Country("AT"))
  {
    NotAddress("AT", 0);
  }

  lemma CountryRuleWords()
    ensures ParseEndpoint(Text.Join(["+", "AT"], ' ')) == Ok(CountryRule)
  {
    CountryMatcher();
    TwoFieldRule("+", "AT", Country("AT"));
  }

  lemma CountryRuleText()
    ensures Text.Join(["+", "AT"], ' ') == "+ AT"
  {
  }

  /** Two upper-case letters compile to a country rule. */
  lemma CompilesCountryRule()
    ensures ParseEndpoint("+ AT") == Ok(CountryRule)
  {
    CountryRuleWords();
    CountryRuleText();
  }

  /** As for AS numbers, the country of an address is a lookup outside the model. */
  lemma CountryRuleVerdicts(e: EntityView, lookups: Lookups)
    ensures e.ip.Some? && lookups.country == Some("AT") ==> Matches(CountryRule, e, lookups) == Permitted
    ensures lookups.country != Some("AT") ==> Matches(CountryRule, e, lookups) == NoMatch
  {
  }

  // ---------------------------------------------------------------- scopes

  const ScopeRule := Endpoint(true, Scopes({Localhost, LAN}), 0, None)

  /** Scope names are case-insensitive. */
  lemma ScopeNames()
    ensures ScopeByName("Localhost") == Some(Localhost)
    ensures ScopeByName("LAN") == Some(LAN)
  {
    LocalhostName();
    LanName();
  }

  lemma LocalhostName()
    ensures Text.Lower("Localhost") == "localhost"
  {
  }

  lemma LanName()
    ensures Text.Lower("LAN") == "lan"
  {
  }

  /** `Localhost,LAN` names the two scopes. */
  lemma ScopeMatcher()
    ensures Text.IsWord("Localhost,LAN")
    ensures ParseMatcher("Localhost,LAN") == Ok(Scopes({Localhost, LAN}))
  {
    var names := ["Localhost", "LAN"];
    ScopeListLiteral();
    ScopeNames();
    ScopesMatcher(names);
    ScopeSet();
  }

  lemma ScopeListLiteral()
    ensures Text.Join(["Localhost", "LAN"], ',') == "Localhost,LAN"
  {
  }

  /** Both names are scopes, and they name exactly Localhost and LAN. */
  lemma ScopeSet()
    ensures ParseScopes(["Localhost", "LAN"]) == Some({Localhost, LAN})
  {
    var names := ["Localhost", "LAN"];
    ScopeNames();
    assert ScopeByName(names[0]) == Some(Localhost) && ScopeByName(names[1]) == Some(LAN);
    var r := ParseScopes(names);
    assert Localhost in r.value && LAN in r.value;
    forall s | s in r.value ensures s == Localhost || s == LAN {
      var k :| 0 <= k < |names| && ScopeByName(names[k]) == Some(s);
    }
    assert r.value == {Localhost, LAN};
  }

  /** A comma-separated list of scope names compiles to a scope rule. */
  lemma ScopeRuleWords()
    ensures ParseEndpoint(Text.Join(["+", "Localhost,LAN"], ' ')) == Ok(ScopeRule)
  {
    ScopeMatcher();
    TwoFieldRule("+", "Localhost,LAN", Scopes({Localhost, LAN}));
  }

  lemma ScopeRuleText()
    ensures Text.Join(["+", "Localhost,LAN"], ' ') == "+ Localhost,LAN"
  {
  }

  lemma CompilesScopeRule()
    ensures ParseEndpoint("+ Localhost,LAN") == Ok(ScopeRule)
  {
    ScopeRuleWords();
    ScopeRuleText();
  }

  /** The rule matches by the scope of the address alone: 192.168.0.1 is LAN, 151.101.1.164 is Internet. */
  lemma ScopeRuleVerdicts(e: EntityView, lookups: Lookups)
    ensures Matches(ScopeRule, e, lookups) == Permitted <==> ScopeOf(e.ip) in {Localhost, LAN}
    ensures Matches(ScopeRule, e, lookups) != Denied
    ensures e.ip == Some(Address(192, 168, 0, 1)) ==> Matches(ScopeRule, e, lookups) == Permitted
    ensures e.ip == Some(Address(151, 101, 1, 164)) ==> Matches(ScopeRule, e, lookups) == NoMatch
  {
    assert Classify(Address(192, 168, 0, 1)) == LAN;
    assert Classify(Address(151, 101, 1, 164)) == Internet;
  }

  /**
   * The suite's scope check on one entity object: the address is set to
   * 192.168.0.1 and the rule checked, then to 151.101.1.164 and checked
   * again. The second verdict follows the new address, not the scope cached
   * for the first.
   */
  method ScopeFollowsLatestIP() returns (first: EPResult, second: EPResult)
    ensures first == Permitted && second == NoMatch
  {
    var entity := new Entity([], None, 0, 0);
    entity.SetIP(Address(192, 168, 0, 1));
    first := Check(ScopeRule, entity, NoLookups);
    ScopeRuleVerdicts(entity.View(), NoLookups);
    entity.SetIP(Address(151, 101, 1, 164));
    second := Check(ScopeRule, entity, NoLookups);
    ScopeRuleVerdicts(entity.View(), NoLookups);
  }

  // ---------------------------------------------------------------- any host on one port

  const AnyPortRule := Endpoint(true, AnyHost, 0, Some(PortRange(443, 443)))

  /** `*` followed by a port: any protocol, port 443 only. */
  lemma AnyPortFilters()
    ensures Text.IsWord("*/443")
    ensures ParseFilters("*/443") == Ok((0, Some(PortRange(443, 443))))
  {
    AnyPortFilterLiterals();
    SinglePortText(443);
    ProtocolPortsFilter("*", "443");
  }

  lemma AnyPortFilterLiterals()
    ensures Text.DecimalString(443) == "443"
    ensures "*" + "/" + "443" == "*/443"
    ensures ParseProtocol("*") == Ok(0)
    ensures '/' !in "*" && '/' !in "443" && "443" != [] && "443" != "*"
    ensures Text.IsWord("*/443")
  {
  }

  /** `*` as protocol means any protocol; the port still restricts. */
  lemma CompilesAnyPortRule()
    ensures ParseEndpoint("+ * */443") == Ok(AnyPortRule)
  {
    AnyPortRuleWords();
    AnyPortRuleText();
  }

  lemma AnyPortRuleWords()
    ensures ParseEndpoint(Text.Join(["+", "*", "*/443"], ' ')) == Ok(AnyPortRule)
  {
    assert Text.IsWord("*");
    AnyPortFilters();
    ThreeFieldRule("+", "*", "*/443", AnyHost, (0, Some(PortRange(443, 443))));
  }

  lemma AnyPortRuleText()
    ensures Text.Join(["+", "*", "*/443"], ' ') == "+ * */443"
  {
  }

  lemma AnyPortRuleVerdicts(e: EntityView, lookups: Lookups)
    ensures Matches(AnyPortRule, e, lookups) == (if e.port == 443 then Permitted else NoMatch)
  {
  }

  // ---------------------------------------------------------------- filter lists

  const ListRule := Endpoint(true, Lists(["A", "B", "C"]), 0, None)

  /** `L:A,B,C` refers to the filter lists A, B and C. */
  lemma ListRuleMatcher()
    ensures Text.IsWord("L:A,B,C")
    ensures ParseMatcher("L:A,B,C") == Ok(Lists(["A", "B", "C"]))
  {
    assert Text.Join(["A", "B", "C"], ',') == "A,B,C";
    assert "L:" + "A,B,C" == "L:A,B,C";
    ListsMatcher(["A", "B", "C"]);
  }

  lemma ListRuleWords()
    ensures ParseEndpoint(Text.Join(["+", "L:A,B,C"], ' ')) == Ok(ListRule)
  {
    ListRuleMatcher();
    TwoFieldRule("+", "L:A,B,C", Lists(["A", "B", "C"]));
  }

  lemma ListRuleText()
    ensures Text.Join(["+", "L:A,B,C"], ' ') == "+ L:A,B,C"
  {
  }

  /** A list reference compiles to a rule for those lists. */
  lemma CompilesListRule()
    ensures ParseEndpoint("+ L:A,B,C") == Ok(ListRule)
  {
    ListRuleWords();
    ListRuleText();
  }
}
