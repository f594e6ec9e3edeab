/** The flag grammar and the document grammar agree, and what an allowlist document grants. */
module EgressGrammar {
  import opened Wrappers
  import opened Text
  import opened EgressPolicy
  import opened EgressConfig
  import opened EgressFlags
  import Hex
  import Hostname

  // ----- What a document grants -----

  predicate PortGranted(raw: RawPort, port: Port) {
    raw == Str("*") || (raw == Num(port) && port != 0)
  }

  /** The entry's own words cover the address. */
  predicate GrantsByAddress(ip: IpParser, raw: RawEntry, addr: Ipv4, port: Port) {
    var host := Trim(raw.host);
    && raw.protocol.Tcp? && PortGranted(raw.port, port)
    && if ip.net(host).Some? then NetContains(ip.net(host).value, addr) else ip.v4(host) == Some(addr)
  }

  /** The entry's host is no address of any kind. */
  predicate IsName(ip: IpParser, raw: RawEntry) {
    var host := Trim(raw.host);
    ip.net(host).None? && ip.v4(host).None? && !ip.v6(host)
  }

  /** The entry's name, looked up as the `n`th, resolves to the address. */
  predicate GrantsByName(ip: IpParser, raw: RawEntry, n: nat, resolve: Resolver, addr: Ipv4, port: Port) {
    var answer := resolve(n, Hex.Lower(Trim(raw.host)));
    raw.protocol.Tcp? && PortGranted(raw.port, port) && IsName(ip, raw) && answer.Some? && addr in answer.value
  }

  /** How many of the entries are names. */
  function NameCount(ip: IpParser, egress: seq<RawEntry>): nat {
    if egress == [] then 0
    else NameCount(ip, egress[..|egress| - 1]) + if IsName(ip, egress[|egress| - 1]) then 1 else 0
  }

  /** Entry `i` grants the destination, by address or by a name that resolves to it. */
  predicate GrantsAt(ip: IpParser, egress: seq<RawEntry>, i: nat, resolve: Resolver, addr: Ipv4, port: Port)
    requires i < |egress|
  {
    || GrantsByAddress(ip, egress[i], addr, port)
    || GrantsByName(ip, egress[i], NameCount(ip, egress[..i]), resolve, addr, port)
  }

  lemma ClassifyGrants(ip: IpParser, raw: RawEntry, n: nat, resolve: Resolver, addr: Ipv4, port: Port, trusted: bool)
    requires Classify(ip, raw).Ok?
    ensures var c := Classify(ip, raw).value;
      && (c.Address? && EntryMatches(c.entry, addr, port, trusted) <==> GrantsByAddress(ip, raw, addr, port))
      && (c.Name? && NameCovers(c.name, n, resolve, addr, port) <==> GrantsByName(ip, raw, n, resolve, addr, port))
      && (c.Name? <==> IsName(ip, raw))
  {
    hide NetContains, Hostname.ValidateHostname, Trim, Hex.Lower;
  }

  lemma {:induction false} AddressesAllow(cs: seq<Classified>, addr: Ipv4, port: Port, trusted: bool)
    ensures AllowsTcp(Addresses(cs), addr, port, trusted) <==>
            exists i :: 0 <= i < |cs| && cs[i].Address? && EntryMatches(cs[i].entry, addr, port, trusted)
  {
    hide EntryMatches;
    if cs == [] {
    } else {
      var n := |cs| - 1;
      var front := cs[..n];
      AddressesAllow(front, addr, port, trusted);
      AllowsConcat(Addresses(front), if cs[n].Address? then [cs[n].entry] else [], addr, port, trusted);
      assert forall i :: 0 <= i < n ==> front[i] == cs[i];
      if cs[n].Address? {
        assert [cs[n].entry][0] == cs[n].entry;
      }
    }
  }

  ghost predicate SomeName(hostnames: seq<HostnameEntry>, resolve: Resolver, addr: Ipv4, port: Port) {
    exists i :: 0 <= i < |hostnames| && NameMatches(hostnames, i, resolve, addr, port)
  }

  /** The names of a classified list keep their order, so each is looked up under the number of names before it. */
  lemma {:induction false} NamesAllow(cs: seq<Classified>, resolve: Resolver, addr: Ipv4, port: Port)
    ensures SomeName(Names(cs), resolve, addr, port) <==>
            exists i :: 0 <= i < |cs| && cs[i].Name? && NameCovers(cs[i].name, |Names(cs[..i])|, resolve, addr, port)
  {
    hide NameCovers;
    if cs == [] {
    } else {
      var n := |cs| - 1;
      var front := cs[..n];
      NamesAllow(front, resolve, addr, port);
      assert forall i :: 0 <= i < n ==> front[i] == cs[i] && front[..i] == cs[..i];
      NamesSnoc(Names(front), if cs[n].Name? then [cs[n].name] else [], resolve, addr, port);
    }
  }

  lemma NamesSnoc(front: seq<HostnameEntry>, last: seq<HostnameEntry>, resolve: Resolver, addr: Ipv4, port: Port)
    requires |last| <= 1
    ensures SomeName(front + last, resolve, addr, port) <==>
            SomeName(front, resolve, addr, port) || (last != [] && NameCovers(last[0], |front|, resolve, addr, port))
  {
    hide NameCovers;
    var all := front + last;
    if SomeName(front, resolve, addr, port) {
      var i :| 0 <= i < |front| && NameMatches(front, i, resolve, addr, port);
      assert NameMatches(all, i, resolve, addr, port);
    }
    if last != [] && NameCovers(last[0], |front|, resolve, addr, port) {
      assert NameMatches(all, |front|, resolve, addr, port);
    }
    if SomeName(all, resolve, addr, port) {
      var i :| 0 <= i < |all| && NameMatches(all, i, resolve, addr, port);
      if i < |front| { assert NameMatches(front, i, resolve, addr, port); }
    }
  }

  ghost predicate Pairs(ip: IpParser, egress: seq<RawEntry>, cs: seq<Classified>) {
    |cs| == |egress| && forall i :: 0 <= i < |egress| ==> Classify(ip, egress[i]) == Ok(cs[i])
  }

  lemma {:induction false} NamesCounted(ip: IpParser, egress: seq<RawEntry>, cs: seq<Classified>)
    requires Pairs(ip, egress, cs)
    ensures |Names(cs)| == NameCount(ip, egress)
  {
    hide Classify, IsName;
    if egress == [] {
    } else {
      var n := |egress| - 1;
      NamesCounted(ip, egress[..n], cs[..n]);
      ClassifyGrants(ip, egress[n], 0, (_, _) => None, 0, 0, false);
    }
  }

  /** A loaded allowlist permits exactly the connections some entry of the document grants, whoever asks. */
  lemma LoadMeans(ip: IpParser, raw: RawAllowlist, resolve: Resolver, addr: Ipv4, port: Port, trusted: bool)
    requires Load(ip, raw).Ok?
    ensures Permits(Load(ip, raw).value, resolve, addr, port, trusted) <==>
            exists i :: 0 <= i < |raw.egress| && GrantsAt(ip, raw.egress, i, resolve, addr, port)
  {
    hide Classify, EntryMatches, NameCovers, GrantsByAddress, GrantsByName, NameMatches;
    var egress, cs := raw.egress, ClassifyAll(ip, raw.egress).value;
    ClassifyAllMeans(ip, egress);
    AddressesAllow(cs, addr, port, trusted);
    NamesAllow(cs, resolve, addr, port);
    forall i | 0 <= i < |cs|
      ensures GrantsAt(ip, egress, i, resolve, addr, port) <==>
              || (cs[i].Address? && EntryMatches(cs[i].entry, addr, port, trusted))
              || (cs[i].Name? && NameCovers(cs[i].name, |Names(cs[..i])|, resolve, addr, port))
    {
      NamesCounted(ip, egress[..i], cs[..i]);
      ClassifyGrants(ip, egress[i], NameCount(ip, egress[..i]), resolve, addr, port, trusted);
    }
  }

  lemma {:induction false} UsableIff(ip: IpParser, resolvers: seq<string>, addr: Ipv4)
    ensures addr in UsableResolvers(ip, resolvers) <==>
            exists k :: 0 <= k < |resolvers| && ip.v4(Trim(resolvers[k])) == Some(addr)
  {
    hide Trim;
    if resolvers == [] {
    } else {
      var n := |resolvers| - 1;
      UsableIff(ip, resolvers[..n], addr);
      assert forall k :: 0 <= k < n ==> resolvers[..n][k] == resolvers[k];
    }
  }

  /** The daemon's own decision, after it has injected the resolvers: a document entry grants the connection, or it is
      the trusted source's to a resolver's DNS port. */
  lemma InjectedMeans(ip: IpParser, raw: RawAllowlist, resolve: Resolver, addr: Ipv4, port: Port, trusted: bool)
    requires Load(ip, raw).Ok?
    ensures Permits(Injected(Load(ip, raw).value), resolve, addr, port, trusted) <==>
            || (exists i :: 0 <= i < |raw.egress| && GrantsAt(ip, raw.egress, i, resolve, addr, port))
            || (trusted && port == 53 &&
                exists k :: 0 <= k < |raw.resolvers| && ip.v4(Trim(raw.resolvers[k])) == Some(addr))
  {
    hide GrantsAt, Permits, Trim;
    var cfg := Load(ip, raw).value;
    InjectionDecision(cfg, resolve, addr, port, trusted);
    LoadMeans(ip, raw, resolve, addr, port, trusted);
    UsableIff(ip, raw.resolvers, addr);
  }

  // ----- Nothing is dropped -----

  ghost predicate NoneIgnored(cs: seq<Classified>) {
    forall i :: 0 <= i < |cs| ==> !cs[i].Ignored?
  }

  lemma {:induction false} CountKept(cs: seq<Classified>)
    ensures |Addresses(cs)| + |Names(cs)| <= |cs|
    ensures NoneIgnored(cs) <==> |Addresses(cs)| + |Names(cs)| == |cs|
  {
    if cs == [] {
    } else {
      var n := |cs| - 1;
      CountKept(cs[..n]);
      assert forall i :: 0 <= i < n ==> cs[..n][i] == cs[i];
      assert NoneIgnored(cs) <==> NoneIgnored(cs[..n]) && !cs[n].Ignored?;
    }
  }

  /** What the flag parser lets through, the loader takes: a TCP entry is kept, a UDP entry is refused aloud. */
  lemma CliEntryLoads(ip: IpParser, spec: string)
    requires ParseCliEntry(ip, spec).Ok?
    ensures var e := ParseCliEntry(ip, spec).value;
      if e.protocol.Udp? then Classify(ip, e) == Err(UdpNotSupported(e.host, PortText(e.port)))
      else Classify(ip, e).Ok? && !Classify(ip, e).value.Ignored?
  {
    hide Hostname.ValidateHostname, SplitLast, Trim;
    var e := ParseCliEntry(ip, spec).value;
    var head := CutProtocol(spec, Trim(spec)).value.0;
    TrimIdempotent(SplitLast(head, ':').value.0);
  }

  ghost predicate AllTcp(ip: IpParser, specs: seq<string>) {
    forall i :: 0 <= i < |specs| ==> ParseCliEntry(ip, specs[i]).Ok? && ParseCliEntry(ip, specs[i]).value.protocol.Tcp?
  }

  lemma {:induction false} ResolversKept(ip: IpParser, specs: seq<string>, resolvers: seq<string>)
    requires |specs| == |resolvers|
    requires forall i :: 0 <= i < |specs| ==> ParseCliResolver(ip, specs[i]) == Ok(resolvers[i])
    ensures |UsableResolvers(ip, resolvers)| == |specs|
    ensures forall i :: 0 <= i < |specs| ==> ip.v4(Trim(specs[i])) == Some(UsableResolvers(ip, resolvers)[i])
  {
    hide Trim;
    if specs == [] {
    } else {
      var n := |specs| - 1;
      ResolversKept(ip, specs[..n], resolvers[..n]);
      TrimIdempotent(specs[n]);
      assert ParseCliResolver(ip, specs[n]) == Ok(resolvers[n]);
    }
  }

  /** The loader accepts an assembled document exactly when every flag is TCP and open resolution has a resolver, and
      then it keeps every flag: nothing is silently dropped. */
  lemma AssembledLoads(ip: IpParser, specs: seq<string>, resolverSpecs: seq<string>, dns: Option<DnsMode>,
                       raw: RawAllowlist)
    requires Assembled(ip, specs, resolverSpecs, dns, raw)
    ensures Load(ip, raw).Ok? <==> AllTcp(ip, specs) && !(dns == Some(OpenNames) && resolverSpecs == [])
    ensures Load(ip, raw).Ok? ==> |Load(ip, raw).value.entries| + |Load(ip, raw).value.hostnames| == |specs|
    ensures Load(ip, raw).Ok? ==> |Load(ip, raw).value.resolvers| == |resolverSpecs|
  {
    hide Classify, ParseCliEntry, ParseCliResolver, UsableResolvers, Addresses, Names;
    ClassifyAllMeans(ip, raw.egress);
    ResolversKept(ip, resolverSpecs, raw.resolvers);
    forall i | 0 <= i < |specs|
      ensures raw.egress[i].protocol.Tcp? <==> Classify(ip, raw.egress[i]).Ok?
      ensures raw.egress[i].protocol.Tcp? ==> !Classify(ip, raw.egress[i]).value.Ignored?
    {
      CliEntryLoads(ip, specs[i]);
    }
    if ClassifyAll(ip, raw.egress).Ok? {
      CountKept(ClassifyAll(ip, raw.egress).value);
    }
  }

  /** The entries the flags spell. */
  function FlagEntries(ip: IpParser, specs: seq<string>): (r: seq<RawEntry>)
    requires FlagsParse(ip, specs)
    ensures |r| == |specs| && forall i :: 0 <= i < |specs| ==> r[i] == ParseCliEntry(ip, specs[i]).value
  {
    seq(|specs|, i requires 0 <= i < |specs| => ParseCliEntry(ip, specs[i]).value)
  }

  /** With an allowlist assembled from flags the daemon permits exactly what some flag says, by address or by name, and
      the trusted source's DNS to the resolvers named. */
  lemma FlagsMeanWhatTheySay(ip: IpParser, specs: seq<string>, resolverSpecs: seq<string>, dns: Option<DnsMode>,
                             raw: RawAllowlist, resolve: Resolver, addr: Ipv4, port: Port, trusted: bool)
    requires Assembled(ip, specs, resolverSpecs, dns, raw) && Load(ip, raw).Ok?
    ensures FlagsParse(ip, specs)
    ensures forall i :: 0 <= i < |specs| ==> FlagSays(ip, specs[i], FlagEntries(ip, specs)[i])
    ensures Permits(Injected(Load(ip, raw).value), resolve, addr, port, trusted) <==>
            || (exists i :: 0 <= i < |specs| && GrantsAt(ip, FlagEntries(ip, specs), i, resolve, addr, port))
            || (trusted && port == 53 &&
                exists k :: 0 <= k < |resolverSpecs| && ip.v4(Trim(resolverSpecs[k])) == Some(addr))
  {
    hide Load, GrantsAt, ParseCliEntry, Permits, Trim, FlagSays;
    forall i | 0 <= i < |specs| ensures FlagSays(ip, specs[i], FlagEntries(ip, specs)[i]) {
      FlagIff(ip, specs[i], FlagEntries(ip, specs)[i]);
    }
    assert FlagEntries(ip, specs) == raw.egress;
    InjectedMeans(ip, raw, resolve, addr, port, trusted);
    forall k | 0 <= k < |resolverSpecs|
      ensures ip.v4(Trim(raw.resolvers[k])) == ip.v4(Trim(resolverSpecs[k]))
    {
      assert ParseCliResolver(ip, resolverSpecs[k]) == Ok(raw.resolvers[k]);
      TrimIdempotent(resolverSpecs[k]);
    }
  }

  // ----- The two grammars agree -----

  lemma PortTextReads(p: RawPort)
    requires ToMatcher(p).Ok?
    ensures SaysPort(PortText(p), p) && ':' !in PortText(p) && '/' !in PortText(p)
  {
    hide Decimal, Trim;
    if p.Num? {
      var text := Decimal(p.n);
      assert '0' <= text[0] <= '9' && '0' <= text[|text| - 1] <= '9';
      TrimKeeps(text);
      assert AllZeros("") && "" + text == text;
    } else {
      TrimKeeps("*");
    }
  }

  lemma AcceptedHostSays(ip: IpParser, raw: RawEntry)
    requires Lawful(ip) && Classify(ip, raw).Ok? && !Classify(ip, raw).value.Ignored?
    ensures Trim(raw.host) != "" && SaysHost(ip, Trim(raw.host))
  {
    hide Trim, Hostname.IsHostname;
    Hostname.ValidateIff(Trim(raw.host));
    assert Hostname.ValidateHostname("").Some?;
  }

  /** Every document entry that is accepted and not ignored can be written as a flag, with or without `/tcp`, and the
      flag reads back as it; with `/udp` it reads as UDP. */
  lemma EntryHasFlag(ip: IpParser, raw: RawEntry)
    requires Lawful(ip) && Classify(ip, raw).Ok? && !Classify(ip, raw).value.Ignored?
    ensures var flag := Trim(raw.host) + ":" + PortText(raw.port);
      && ParseCliEntry(ip, flag) == Ok(RawEntry(Trim(raw.host), raw.port, Tcp))
      && ParseCliEntry(ip, flag + "/tcp") == Ok(RawEntry(Trim(raw.host), raw.port, Tcp))
      && ParseCliEntry(ip, flag + "/udp") == Ok(RawEntry(Trim(raw.host), raw.port, Udp))
    ensures Classify(ip, RawEntry(Trim(raw.host), raw.port, Tcp)) == Classify(ip, raw)
  {
    hide Trim, Hostname.ValidateHostname, PortText, Lawful, SaysHost, SaysPort, ParseCliEntry;
    var host, port := Trim(raw.host), PortText(raw.port);
    TrimIdempotent(raw.host);
    AcceptedHostSays(ip, raw);
    PortTextReads(raw.port);
    LowerTails();
    assert host + ":" + port + "" == host + ":" + port;
    SpelledFlag(ip, host, port, "", RawEntry(host, raw.port, Tcp));
    SpelledFlag(ip, host, port, "/tcp", RawEntry(host, raw.port, Tcp));
    SpelledFlag(ip, host, port, "/udp", RawEntry(host, raw.port, Udp));
  }

  // ----- Which documents load -----

  ghost predicate PortLoads(port: RawPort) {
    port == Str("*") || (port.Num? && port.n != 0)
  }

  ghost predicate IsAddress(ip: IpParser, host: string) {
    ip.net(host).Some? || ip.v4(host).Some? || ip.v6(host)
  }

  ghost predicate EntryLoads(ip: IpParser, raw: RawEntry) {
    && raw.protocol.Tcp? && PortLoads(raw.port)
    && (IsAddress(ip, Trim(raw.host)) || Hostname.IsHostname(Trim(raw.host)))
  }

  ghost predicate HasResolver(ip: IpParser, resolvers: seq<string>) {
    exists k :: 0 <= k < |resolvers| && ip.v4(Trim(resolvers[k])).Some?
  }

  lemma ClassifyIff(ip: IpParser, raw: RawEntry)
    ensures Classify(ip, raw).Ok? <==> EntryLoads(ip, raw)
  {
    hide Trim, Hostname.ValidateHostname, Hostname.IsHostname, PortText;
    Hostname.ValidateIff(Trim(raw.host));
  }

  lemma ResolverIff(ip: IpParser, resolvers: seq<string>)
    ensures UsableResolvers(ip, resolvers) == [] <==> !HasResolver(ip, resolvers)
  {
    hide Trim, UsableResolvers;
    var usable := UsableResolvers(ip, resolvers);
    if usable != [] { UsableIff(ip, resolvers, usable[0]); }
    if HasResolver(ip, resolvers) {
      var k :| 0 <= k < |resolvers| && ip.v4(Trim(resolvers[k])).Some?;
      UsableIff(ip, resolvers, ip.v4(Trim(resolvers[k])).value);
    }
  }

  /** A document loads exactly when it is of version 1, every entry is TCP with a port and a host that mean something,
      and open resolution comes with an IPv4 resolver; it keeps its resolution mode. */
  lemma LoadsIff(ip: IpParser, raw: RawAllowlist)
    ensures Load(ip, raw).Ok? <==>
            && raw.version == 1
            && (forall i :: 0 <= i < |raw.egress| ==> EntryLoads(ip, raw.egress[i]))
            && (raw.dns.OpenNames? ==> HasResolver(ip, raw.resolvers))
    ensures Load(ip, raw).Ok? ==> Load(ip, raw).value.dns == raw.dns
  {
    hide Classify, EntryLoads, HasResolver, UsableResolvers, ClassifyAll, Addresses, Names;
    ClassifyAllMeans(ip, raw.egress);
    ResolverIff(ip, raw.resolvers);
    forall i | 0 <= i < |raw.egress| ensures Classify(ip, raw.egress[i]).Ok? <==> EntryLoads(ip, raw.egress[i]) {
      ClassifyIff(ip, raw.egress[i]);
    }
  }

  ghost predicate EntryFault(ip: IpParser, raw: RawEntry, e: LoadError) {
    match e
    case UdpNotSupported(host, port) => raw.protocol.Udp? && host == Trim(raw.host) && port == PortText(raw.port)
    case BadPort(port) => !PortLoads(raw.port) && port == PortText(raw.port)
    case BadHostname(host, fault) =>
      host == Trim(raw.host) && !IsAddress(ip, host) && Hostname.ValidateHostname(host) == Some(fault)
    case _ => false
  }

  /** The error is true of the document; where it is an entry's, no entry before it fails. */
  ghost predicate LoadFault(ip: IpParser, raw: RawAllowlist, e: LoadError) {
    match e
    case UnsupportedVersion(v) => v == raw.version && v != 1
    case DnsOpenWithoutResolvers => raw.dns.OpenNames? && !HasResolver(ip, raw.resolvers)
    case _ =>
      exists i :: 0 <= i < |raw.egress| && EntryFault(ip, raw.egress[i], e) &&
                  forall j :: 0 <= j < i ==> EntryLoads(ip, raw.egress[j])
  }

  lemma EntryErrorIsTrue(ip: IpParser, raw: RawEntry)
    requires Classify(ip, raw).Err?
    ensures EntryFault(ip, raw, Classify(ip, raw).error)
  {
    hide Trim, Hostname.ValidateHostname;
    assert Decimal(0) == "0";
  }

  lemma LoadErrorIsTrue(ip: IpParser, raw: RawAllowlist)
    requires Load(ip, raw).Err?
    ensures LoadFault(ip, raw, Load(ip, raw).error)
  {
    hide Classify, EntryLoads, HasResolver, UsableResolvers, ClassifyAll, EntryFault;
    ClassifyAllMeans(ip, raw.egress);
    ResolverIff(ip, raw.resolvers);
    if raw.version == SCHEMA_VERSION && ClassifyAll(ip, raw.egress).Err? {
      var e := ClassifyAll(ip, raw.egress).error;
      var i :| 0 <= i < |raw.egress| && FailsFirst(ip, raw.egress, i, e);
      EntryErrorIsTrue(ip, raw.egress[i]);
      assert EntryFault(ip, raw.egress[i], e);
      EntryFaultKind(ip, raw.egress[i], e);
      forall j | 0 <= j < i ensures EntryLoads(ip, raw.egress[j]) { ClassifyIff(ip, raw.egress[j]); }
    }
  }

  lemma EntryFaultKind(ip: IpParser, raw: RawEntry, e: LoadError)
    requires EntryFault(ip, raw, e)
    ensures !e.UnsupportedVersion? && !e.DnsOpenWithoutResolvers?
  {
  }

  // ----- UDP flags -----

  /** Whatever host and port a flag names, its `/udp` form parses too, and no document with that entry loads. */
  lemma UdpNeverLoads(ip: IpParser, host: string, port: string, e: RawEntry, raw: RawAllowlist)
    requires ':' !in port && '/' !in port && ParseCliEntry(ip, host + ":" + port) == Ok(e)
    ensures ParseCliEntry(ip, host + ":" + port + "/udp") == Ok(e.(protocol := Udp))
    ensures e.(protocol := Udp) in raw.egress ==> Load(ip, raw).Err?
    ensures raw.version == 1 && raw.egress == [e.(protocol := Udp)] ==>
            Load(ip, raw) == Err(UdpNotSupported(e.host, PortText(e.port)))
  {
    hide ParseCliEntry, Load, Trim, PortText, SaysHost, SaysPort, HasResolver;
    var udp := e.(protocol := Udp);
    DefaultIsTcp(ip, host, port, e);
    UdpReads(ip, host, port, udp);
    LoadsIff(ip, raw);
    if raw.version == 1 && raw.egress == [udp] {
      assert e.host == Trim(e.host) by { HostIsTrimmed(ip, host + ":" + port, e); }
      LoneUdp(ip, raw, udp);
    }
  }

  lemma HostIsTrimmed(ip: IpParser, spec: string, e: RawEntry)
    requires ParseCliEntry(ip, spec) == Ok(e)
    ensures Trim(e.host) == e.host
  {
    hide Trim, Pieces, SaysHost, SaysPort, SaysProtocol, ParseCliEntry;
    FlagIff(ip, spec, e);
    var host, port, tail :| Pieces(spec, host, port, tail) && EntrySays(ip, host, port, tail, e);
    TrimIdempotent(host);
  }

  lemma LoneUdp(ip: IpParser, raw: RawAllowlist, udp: RawEntry)
    requires raw.version == 1 && raw.egress == [udp] && udp.protocol.Udp?
    ensures Load(ip, raw) == Err(UdpNotSupported(Trim(udp.host), PortText(udp.port)))
  {
    hide Trim, PortText, ClassifyHost;
    assert raw.egress[..0] == [] && ClassifyAll(ip, []) == Ok([]);
  }

  /** One such flag. */
  lemma UdpFlagRefused(ip: IpParser)
    requires ip.net("ab").None? && ip.v4("ab").None? && !ip.v6("ab")
    ensures ParseCliEntry(ip, "ab:5/udp") == Ok(RawEntry("ab", Num(5), Udp))
    ensures Load(ip, RawAllowlist(1, [], [RawEntry("ab", Num(5), Udp)], AllowlistedNames))
         == Err(UdpNotSupported("ab", "5"))
  {
    hide Trim, IsNumber, ParseCliEntry, Load, Decimal, Hostname.IsHostname;
    var e := RawEntry("ab", Num(5), Tcp);
    ShortName();
    assert EntrySays(ip, "ab", "5", "", e) by {
      TrimKeeps("ab");
      TrimKeeps("5");
      FiveIsNumber();
    }
    assert "ab" + ":" + "5" + "" == "ab:5" && "ab" + ":" + "5" == "ab:5" && "ab:5" + "/udp" == "ab:5/udp";
    SpelledFlag(ip, "ab", "5", "", e);
    FiveIsNumber();
    UdpNeverLoads(ip, "ab", "5", e, RawAllowlist(1, [], [RawEntry("ab", Num(5), Udp)], AllowlistedNames));
  }

  lemma FiveIsNumber()
    ensures IsNumber("5", 5) && Decimal(5) == "5"
  {
    assert AllZeros("") && "" + Decimal(5) == "5";
  }

  lemma ShortName()
    ensures Hostname.IsHostname("ab")
  {
    assert Hostname.IsLabel("ab");
    assert Hostname.Join(["ab"]) == "ab" && Hostname.AreLabels(["ab"]);
  }
}
