/** Loading the allowlist document and assembling one from command-line flags. */
module EgressConfig {
  import opened Wrappers
  import opened Text
  import opened EgressPolicy
  import Hex
  import Hostname

  /** The library's address parsers. A general address is tried as IPv4 first, then as IPv6. */
  datatype IpParser = IpParser(net: string -> Option<Ipv4Net>, v4: string -> Option<Ipv4>, v6: string -> bool)

  /** None of them reads the empty string. */
  ghost predicate Lawful(ip: IpParser) {
    ip.net("").None? && ip.v4("").None? && !ip.v6("")
  }

  // ----- The document -----

  datatype RawPort = Num(n: Port) | Str(s: string)

  datatype RawEntry = RawEntry(host: string, port: RawPort, protocol: Protocol)

  datatype RawAllowlist = RawAllowlist(version: nat, resolvers: seq<string>, egress: seq<RawEntry>, dns: DnsMode)

  const SCHEMA_VERSION := 1
  const WILDCARD := "*"

  datatype LoadError =
    | UnsupportedVersion(version: nat)
    | UdpNotSupported(host: string, port: string)
    | BadPort(port: string)
    | BadHostname(host: string, fault: Hostname.Fault)
    | DnsOpenWithoutResolvers

  function PortText(p: RawPort): string {
    match p
    case Num(n) => Decimal(n)
    case Str(s) => s
  }

  function ToMatcher(p: RawPort): (r: Result<PortMatcher, LoadError>) {
    match p
    case Num(n) => if n == 0 then Err(BadPort("0")) else Ok(SinglePort(n))
    case Str(s) => if s == WILDCARD then Ok(AnyPort) else Err(BadPort(s))
  }

  /** What one document entry becomes. */
  datatype Classified = Address(entry: AllowlistEntry) | Name(name: HostnameEntry) | Ignored

  function ClassifyHost(ip: IpParser, host: string, port: PortMatcher): (r: Result<Classified, LoadError>) {
    if ip.net(host).Some? then Ok(Address(AllowlistEntry(Cidr(ip.net(host).value), port, Tcp, false)))
    else if ip.v4(host).Some? then Ok(Address(AllowlistEntry(Literal(ip.v4(host).value), port, Tcp, false)))
    else if ip.v6(host) then Ok(Ignored)
    else
      var fault := Hostname.ValidateHostname(host);
      if fault.Some? then Err(BadHostname(host, fault.value))
      else Ok(Name(HostnameEntry(Hex.Lower(host), port, Tcp)))
  }

  function Classify(ip: IpParser, raw: RawEntry): (r: Result<Classified, LoadError>) {
    if raw.protocol.Udp? then Err(UdpNotSupported(Trim(raw.host), PortText(raw.port)))
    else
      var port :- ToMatcher(raw.port);
      ClassifyHost(ip, Trim(raw.host), port)
  }

  /** All entries in order, or the first error. */
  function ClassifyAll(ip: IpParser, egress: seq<RawEntry>): (r: Result<seq<Classified>, LoadError>) {
    if egress == [] then Ok([])
    else
      var front :- ClassifyAll(ip, egress[..|egress| - 1]);
      var last :- Classify(ip, egress[|egress| - 1]);
      Ok(front + [last])
  }

  /** Success pairs entries with results one to one; failure is the first failing entry's own. */
  lemma {:induction false} ClassifyAllMeans(ip: IpParser, egress: seq<RawEntry>)
    ensures var r := ClassifyAll(ip, egress);
      match r
      case Ok(cs) => |cs| == |egress| && forall i :: 0 <= i < |egress| ==> Classify(ip, egress[i]) == Ok(cs[i])
      case Err(e) => exists i :: 0 <= i < |egress| && FailsFirst(ip, egress, i, e)
  {
    hide Classify;
    if egress == [] {
    } else {
      var n := |egress| - 1;
      var front, last := egress[..n], Classify(ip, egress[n]);
      ClassifyAllMeans(ip, front);
      assert forall i :: 0 <= i < n ==> front[i] == egress[i];
      if ClassifyAll(ip, front).Err? {
        var i :| 0 <= i < n && FailsFirst(ip, front, i, ClassifyAll(ip, front).error);
        assert FailsFirst(ip, egress, i, ClassifyAll(ip, front).error);
      } else if last.Err? {
        assert FailsFirst(ip, egress, n, last.error);
      }
    }
  }

  /** Entry `i` fails with `e` and none before it fails. */
  ghost predicate FailsFirst(ip: IpParser, egress: seq<RawEntry>, i: nat, e: LoadError)
    requires i < |egress|
  {
    Classify(ip, egress[i]) == Err(e) && forall j :: 0 <= j < i ==> Classify(ip, egress[j]).Ok?
  }

  function Addresses(cs: seq<Classified>): (r: seq<AllowlistEntry>) {
    if cs == [] then []
    else Addresses(cs[..|cs| - 1]) + if cs[|cs| - 1].Address? then [cs[|cs| - 1].entry] else []
  }

  function Names(cs: seq<Classified>): (r: seq<HostnameEntry>) {
    if cs == [] then []
    else Names(cs[..|cs| - 1]) + if cs[|cs| - 1].Name? then [cs[|cs| - 1].name] else []
  }

  /** The resolvers that are IPv4 addresses; the others are passed over. */
  function UsableResolvers(ip: IpParser, resolvers: seq<string>): (r: seq<Ipv4>) {
    if resolvers == [] then []
    else
      var addr := ip.v4(Trim(resolvers[|resolvers| - 1]));
      UsableResolvers(ip, resolvers[..|resolvers| - 1]) + if addr.Some? then [addr.value] else []
  }

  /** The document's meaning, or why it has none. */
  function Load(ip: IpParser, raw: RawAllowlist): (r: Result<Config, LoadError>) {
    if raw.version != SCHEMA_VERSION then Err(UnsupportedVersion(raw.version))
    else
      var cs :- ClassifyAll(ip, raw.egress);
      var resolvers := UsableResolvers(ip, raw.resolvers);
      if raw.dns.OpenNames? && resolvers == [] then Err(DnsOpenWithoutResolvers)
      else Ok(Config(Addresses(cs), resolvers, Names(cs), raw.dns))
  }

  lemma {:induction false} FirstErrorStays(ip: IpParser, egress: seq<RawEntry>, i: nat)
    requires i <= |egress| && ClassifyAll(ip, egress[..i]).Err?
    ensures ClassifyAll(ip, egress) == ClassifyAll(ip, egress[..i])
    decreases |egress| - i
  {
    hide Classify;
    if i < |egress| {
      assert egress[..i + 1][..i] == egress[..i];
      FirstErrorStays(ip, egress, i + 1);
    } else {
      assert egress[..i] == egress;
    }
  }

  lemma NothingClassified(ip: IpParser)
    ensures ClassifyAll(ip, []) == Ok([]) && Addresses([]) == [] && Names([]) == []
  {
  }

  lemma KeptSnoc(cs: seq<Classified>, c: Classified)
    ensures Addresses(cs + [c]) == Addresses(cs) + if c.Address? then [c.entry] else []
    ensures Names(cs + [c]) == Names(cs) + if c.Name? then [c.name] else []
  {
    assert (cs + [c])[..|cs|] == cs;
  }

  lemma ClassifySnoc(ip: IpParser, egress: seq<RawEntry>, i: nat, cs: seq<Classified>)
    requires i < |egress| && ClassifyAll(ip, egress[..i]) == Ok(cs)
    ensures match Classify(ip, egress[i])
            case Ok(c) => ClassifyAll(ip, egress[..i + 1]) == Ok(cs + [c])
            case Err(e) => ClassifyAll(ip, egress) == Err(e)
  {
    hide Classify;
    assert egress[..i + 1][..i] == egress[..i] && egress[..i + 1][i] == egress[i];
    if Classify(ip, egress[i]).Err? { FirstErrorStays(ip, egress, i + 1); }
  }

  method FromRaw(ip: IpParser, raw: RawAllowlist) returns (r: Result<Config, LoadError>)
    ensures r == Load(ip, raw)
  {
    hide Classify, ClassifyAll, Addresses, Names, UsableResolvers;
    if raw.version != SCHEMA_VERSION { return Err(UnsupportedVersion(raw.version)); }
    var entries, hostnames := [], [];
    ghost var cs: seq<Classified> := [];
    NothingClassified(ip);
    for i := 0 to |raw.egress|
      invariant ClassifyAll(ip, raw.egress[..i]) == Ok(cs)
      invariant entries == Addresses(cs) && hostnames == Names(cs)
    {
      ClassifySnoc(ip, raw.egress, i, cs);
      var one := Classify(ip, raw.egress[i]);
      if one.Err? { return Err(one.error); }
      KeptSnoc(cs, one.value);
      match one.value {
        case Address(e) => entries := entries + [e];
        case Name(h) => hostnames := hostnames + [h];
        case Ignored =>
      }
      cs := cs + [one.value];
    }
    assert raw.egress[..|raw.egress|] == raw.egress;
    var resolvers := CollectResolvers(ip, raw.resolvers);
    if raw.dns.OpenNames? && resolvers == [] { return Err(DnsOpenWithoutResolvers); }
    return Ok(Config(entries, resolvers, hostnames, raw.dns));
  }

  method CollectResolvers(ip: IpParser, specs: seq<string>) returns (resolvers: seq<Ipv4>)
    ensures resolvers == UsableResolvers(ip, specs)
  {
    hide Trim;
    resolvers := [];
    for i := 0 to |specs|
      invariant resolvers == UsableResolvers(ip, specs[..i])
    {
      assert specs[..i + 1][..i] == specs[..i] && specs[..i + 1][i] == specs[i];
      var addr := ip.v4(Trim(specs[i]));
      if addr.Some? { resolvers := resolvers + [addr.value]; }
    }
    assert specs[..|specs|] == specs;
  }

  // ----- The flags -----

  datatype FlagError =
    | BadEntryShape(spec: string)
    | MissingPort(spec: string)
    | InvalidPort(spec: string)
    | PortZero(spec: string)
    | UnsupportedProtocol(spec: string, protocol: string)
    | EmptyHost(spec: string)
    | Ipv6Host(spec: string)
    | InvalidHostname(spec: string, host: string, fault: Hostname.Fault)
    | InvalidResolver(spec: string)
    | Validation(error: LoadError)

  /** Cut a protocol suffix off; a slash left of the port belongs to the host. */
  function CutProtocol(spec: string, trimmed: string): (r: Result<(string, Protocol), FlagError>) {
    var parts := SplitLast(trimmed, '/');
    if parts.None? || ':' in parts.value.1 then Ok((trimmed, Tcp))
    else
      var name := Hex.Lower(parts.value.1);
      if name == "tcp" then Ok((parts.value.0, Tcp))
      else if name == "udp" then Ok((parts.value.0, Udp))
      else Err(UnsupportedProtocol(spec, parts.value.1))
  }

  function ParsePort(spec: string, text: string): (r: Result<RawPort, FlagError>) {
    if Trim(text) == WILDCARD then Ok(Str(WILDCARD))
    else
      var n := ParseUnsigned(Trim(text), 0x1_0000);
      if n.None? then Err(InvalidPort(spec)) else if n.value == 0 then Err(PortZero(spec)) else Ok(Num(n.value))
  }

  function HostError(ip: IpParser, spec: string, host: string): (r: Option<FlagError>) {
    if ip.net(host).Some? || ip.v4(host).Some? then None
    else if ip.v6(host) then Some(Ipv6Host(spec))
    else
      var fault := Hostname.ValidateHostname(host);
      if fault.Some? then Some(InvalidHostname(spec, host, fault.value)) else None
  }

  /** `HOST:PORT[/PROTO]`. */
  function ParseCliEntry(ip: IpParser, spec: string): (r: Result<RawEntry, FlagError>) {
    var trimmed := Trim(spec);
    if trimmed == "" then Err(BadEntryShape(spec))
    else
      var (head, protocol) :- CutProtocol(spec, trimmed);
      var parts := SplitLast(head, ':');
      if parts.None? then Err(MissingPort(spec))
      else
        var host := Trim(parts.value.0);
        if host == "" then Err(EmptyHost(spec))
        else
          var port :- ParsePort(spec, parts.value.1);
          var error := HostError(ip, spec, host);
          if error.Some? then Err(error.value) else Ok(RawEntry(host, port, protocol))
  }

  function ParseCliResolver(ip: IpParser, spec: string): (r: Result<string, FlagError>) {
    if ip.v4(Trim(spec)).Some? then Ok(Trim(spec)) else Err(InvalidResolver(spec))
  }

  /** The document of the flags. The first flag that does not parse decides the error, else the first such resolver,
      else the loader. */
  method AssembleFromCli(ip: IpParser, specs: seq<string>, resolverSpecs: seq<string>, dns: Option<DnsMode>)
    returns (r: Result<RawAllowlist, FlagError>)
    ensures r.Ok? ==> Assembled(ip, specs, resolverSpecs, dns, r.value) && Load(ip, r.value).Ok?
    ensures r.Err? ==>
      || (exists i :: 0 <= i < |specs| && ParseCliEntry(ip, specs[i]) == Err(r.error) && FlagsParse(ip, specs[..i]))
      || (FlagsParse(ip, specs) &&
          exists i :: 0 <= i < |resolverSpecs| && ParseCliResolver(ip, resolverSpecs[i]) == Err(r.error) &&
                      ResolversParse(ip, resolverSpecs[..i]))
      || (exists raw :: Assembled(ip, specs, resolverSpecs, dns, raw) && Load(ip, raw).Err? &&
                        r.error == Validation(Load(ip, raw).error))
  {
    hide Load, ParseCliEntry, ParseCliResolver;
    var egress, resolvers := [], [];
    for i := 0 to |specs|
      invariant |egress| == i && forall j :: 0 <= j < i ==> ParseCliEntry(ip, specs[j]) == Ok(egress[j])
    {
      var entry := ParseCliEntry(ip, specs[i]);
      if entry.Err? { return Err(entry.error); }
      egress := egress + [entry.value];
    }
    for i := 0 to |resolverSpecs|
      invariant |resolvers| == i
      invariant forall j :: 0 <= j < i ==> ParseCliResolver(ip, resolverSpecs[j]) == Ok(resolvers[j])
    {
      var resolver := ParseCliResolver(ip, resolverSpecs[i]);
      if resolver.Err? { return Err(resolver.error); }
      resolvers := resolvers + [resolver.value];
    }
    var raw := RawAllowlist(SCHEMA_VERSION, resolvers, egress, if dns.Some? then dns.value else AllowlistedNames);
    var loaded := FromRaw(ip, raw);
    assert Assembled(ip, specs, resolverSpecs, dns, raw);
    r := if loaded.Ok? then Ok(raw) else Err(Validation(loaded.error));
  }

  ghost predicate FlagsParse(ip: IpParser, specs: seq<string>) {
    forall i :: 0 <= i < |specs| ==> ParseCliEntry(ip, specs[i]).Ok?
  }

  ghost predicate ResolversParse(ip: IpParser, specs: seq<string>) {
    forall i :: 0 <= i < |specs| ==> ParseCliResolver(ip, specs[i]).Ok?
  }

  /** The document holds one entry per flag, in order. */
  ghost predicate Assembled(ip: IpParser, specs: seq<string>, resolverSpecs: seq<string>, dns: Option<DnsMode>,
                            raw: RawAllowlist) {
    && raw.version == SCHEMA_VERSION
    && raw.dns == (if dns.Some? then dns.value else AllowlistedNames)
    && |raw.egress| == |specs| && |raw.resolvers| == |resolverSpecs|
    && (forall i :: 0 <= i < |specs| ==> ParseCliEntry(ip, specs[i]) == Ok(raw.egress[i]))
    && (forall i :: 0 <= i < |resolverSpecs| ==> ParseCliResolver(ip, resolverSpecs[i]) == Ok(raw.resolvers[i]))
  }
}
