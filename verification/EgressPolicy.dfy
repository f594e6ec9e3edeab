/** The egress allowlist and the connect decision taken from it. */
module EgressPolicy {
  import opened Wrappers

  type Ipv4 = n: nat | n < 0x1_0000_0000

  type Port = n: nat | n < 0x1_0000

  // ----- Address blocks -----

  datatype Block = Block(addr: Ipv4, prefix: nat)

  /** A CIDR block: its address may have host bits set. */
  type Ipv4Net = b: Block | b.prefix <= 32 witness Block(0, 0)

  function Pow2(n: nat): (r: nat)
    ensures r > 0
  {
    if n == 0 then 1 else 2 * Pow2(n - 1)
  }

  /** How many addresses a block spans. */
  function BlockSize(net: Ipv4Net): (r: nat)
    ensures r > 0
  {
    Pow2(32 - net.prefix)
  }

  function Network(net: Ipv4Net): int {
    net.addr - net.addr % BlockSize(net)
  }

  function Broadcast(net: Ipv4Net): int {
    Network(net) + BlockSize(net) - 1
  }

  predicate NetContains(net: Ipv4Net, ip: Ipv4) {
    Network(net) <= ip <= Broadcast(net)
  }

  lemma {:induction false} Multiples(size: nat, q: nat, r: nat)
    requires q < r
    ensures size * q + size <= size * r
    decreases r
  {
    assert size * r == size * (r - 1) + size;
    if q == r - 1 {
    } else {
      Multiples(size, q, r - 1);
    }
  }

  /** The numbers with quotient `q` are the `size` ones from `size * q` on. */
  lemma QuotientRange(size: nat, n: nat, q: nat)
    requires size > 0
    ensures n / size == q <==> size * q <= n < size * q + size
  {
    var r := n / size;
    assert n == size * r + n % size;
    if r < q {
      Multiples(size, r, q);
    } else if q < r {
      Multiples(size, q, r);
    }
  }

  /** The range from network to broadcast address holds exactly the addresses that share the block's prefix bits. */
  lemma ContainsIffSamePrefix(net: Ipv4Net, ip: Ipv4)
    ensures NetContains(net, ip) <==> ip / BlockSize(net) == net.addr / BlockSize(net)
  {
    hide BlockSize;
    var size := BlockSize(net);
    assert net.addr == size * (net.addr / size) + net.addr % size;
    QuotientRange(size, ip, net.addr / size);
  }

  function Shift(n: nat, k: nat): (r: nat) {
    if k == 0 then n else Shift(n / 2, k - 1)
  }

  /** Bit `i` of an address, counted from the most significant. */
  function Bit(ip: Ipv4, i: nat): nat
    requires i < 32
  {
    Shift(ip, 31 - i) % 2
  }

  lemma {:induction false} ShiftStep(n: nat, k: nat)
    ensures Shift(n, k + 1) == Shift(n, k) / 2
    decreases k
  {
    if k == 0 {
      assert Shift(n, 1) == Shift(n / 2, 0);
    } else {
      ShiftStep(n / 2, k - 1);
    }
  }

  lemma {:induction false} ShiftIsQuotient(n: nat, k: nat)
    ensures Shift(n, k) == n / Pow2(k)
    decreases k
  {
    if k == 0 {
    } else {
      ShiftIsQuotient(n / 2, k - 1);
      HalfQuotient(n, Pow2(k - 1));
    }
  }

  lemma HalfQuotient(n: nat, size: nat)
    requires size > 0
    ensures (n / 2) / size == n / (2 * size)
  {
    var q := (n / 2) / size;
    QuotientRange(size, n / 2, q);
    assert (2 * size) * q == 2 * (size * q);
    QuotientRange(2 * size, n, q);
  }

  lemma Pow2Four(k: nat)
    ensures Pow2(k + 4) == 16 * Pow2(k)
  {
    assert Pow2(k + 4) == 2 * Pow2(k + 3) && Pow2(k + 3) == 2 * Pow2(k + 2);
    assert Pow2(k + 2) == 2 * Pow2(k + 1) && Pow2(k + 1) == 2 * Pow2(k);
  }

  lemma AddressSpace()
    ensures Pow2(32) == 0x1_0000_0000
  {
    hide Pow2;
    Pow2Four(28);
    Pow2Four(24);
    Pow2Four(20);
    Pow2Four(16);
    Pow2Four(12);
    Pow2Four(8);
    Pow2Four(4);
    Pow2Four(0);
    assert Pow2(0) == 1 by { Pow2Zero(); }
  }

  lemma Pow2Zero()
    ensures Pow2(0) == 1
  {
  }

  lemma {:induction false} PrefixBits(a: Ipv4, b: Ipv4, p: nat)
    requires p <= 32
    ensures Shift(a, 32 - p) == Shift(b, 32 - p) <==> forall i :: 0 <= i < p ==> Bit(a, i) == Bit(b, i)
  {
    hide Shift;
    if p == 0 {
      AddressSpace();
      ShiftIsQuotient(a, 32);
      ShiftIsQuotient(b, 32);
    } else {
      PrefixBits(a, b, p - 1);
      ShiftStep(a, 32 - p);
      ShiftStep(b, 32 - p);
      assert Bit(a, p - 1) == Shift(a, 32 - p) % 2 && Bit(b, p - 1) == Shift(b, 32 - p) % 2;
    }
  }

  /** A block holds exactly the addresses whose first `prefix` bits are its own. */
  lemma ContainsIffSameBits(net: Ipv4Net, ip: Ipv4)
    ensures NetContains(net, ip) <==> forall i :: 0 <= i < net.prefix ==> Bit(ip, i) == Bit(net.addr, i)
  {
    hide NetContains, Bit;
    ContainsIffSamePrefix(net, ip);
    ShiftIsQuotient(ip, 32 - net.prefix);
    ShiftIsQuotient(net.addr, 32 - net.prefix);
    PrefixBits(ip, net.addr, net.prefix);
  }

  /** A full prefix is one address, an empty one is all, and each further bit keeps half of the block. */
  lemma BlockSpans(net: Ipv4Net, ip: Ipv4)
    ensures net.prefix == 32 ==> (NetContains(net, ip) <==> ip == net.addr)
    ensures net.prefix == 0 ==> NetContains(net, ip)
    ensures net.prefix < 32 ==> BlockSize(net) == 2 * BlockSize(Block(net.addr, net.prefix + 1))
    ensures net.prefix < 32 ==>
            (NetContains(Block(net.addr, net.prefix + 1), ip) <==>
             NetContains(net, ip) && Bit(ip, net.prefix) == Bit(net.addr, net.prefix))
  {
    hide Bit, NetContains;
    ContainsIffSamePrefix(net, ip);
    ContainsIffSameBits(net, ip);
    if net.prefix < 32 { ContainsIffSameBits(Block(net.addr, net.prefix + 1), ip); }
  }

  // ----- The allowlist -----

  datatype Protocol = Tcp | Udp

  datatype PortMatcher = AnyPort | SinglePort(port: Port)

  datatype HostMatcher = Literal(addr: Ipv4) | Cidr(net: Ipv4Net)

  datatype AllowlistEntry =
    AllowlistEntry(host: HostMatcher, port: PortMatcher, protocol: Protocol, trustedSourceOnly: bool)

  datatype HostnameEntry = HostnameEntry(host: string, port: PortMatcher, protocol: Protocol)

  datatype DnsMode = AllowlistedNames | OpenNames

  datatype Config =
    Config(entries: seq<AllowlistEntry>, resolvers: seq<Ipv4>, hostnames: seq<HostnameEntry>, dns: DnsMode)

  predicate PortMatches(m: PortMatcher, port: Port) {
    m.AnyPort? || m.port == port
  }

  predicate HostContains(m: HostMatcher, ip: Ipv4) {
    match m
    case Literal(addr) => addr == ip
    case Cidr(net) => NetContains(net, ip)
  }

  predicate EntryMatches(e: AllowlistEntry, ip: Ipv4, port: Port, trusted: bool) {
    e.protocol.Tcp? && PortMatches(e.port, port) && HostContains(e.host, ip) && (!e.trustedSourceOnly || trusted)
  }

  predicate AllowsTcp(entries: seq<AllowlistEntry>, ip: Ipv4, port: Port, trusted: bool) {
    exists i :: 0 <= i < |entries| && EntryMatches(entries[i], ip, port, trusted)
  }

  // ----- The connect decision -----

  /** One answer per lookup: the addresses a name has when it is asked for, or a failure. */
  type Resolver = (nat, string) -> Option<seq<Ipv4>>

  /** The name, looked up as the `n`th, names the address. */
  predicate Resolves(resolve: Resolver, n: nat, host: string, ip: Ipv4) {
    resolve(n, host).Some? && ip in resolve(n, host).value
  }

  predicate NameCovers(e: HostnameEntry, n: nat, resolve: Resolver, ip: Ipv4, port: Port) {
    e.protocol.Tcp? && PortMatches(e.port, port) && Resolves(resolve, n, e.host, ip)
  }

  /** Hostname entry `i` names the destination. */
  predicate NameMatches(hostnames: seq<HostnameEntry>, i: nat, resolve: Resolver, ip: Ipv4, port: Port)
    requires i < |hostnames|
  {
    NameCovers(hostnames[i], i, resolve, ip, port)
  }

  predicate Permits(cfg: Config, resolve: Resolver, ip: Ipv4, port: Port, trusted: bool) {
    || AllowsTcp(cfg.entries, ip, port, trusted)
    || exists i :: 0 <= i < |cfg.hostnames| && NameMatches(cfg.hostnames, i, resolve, ip, port)
  }

  /** Every hostname entry for the port is tried until one names the destination; a failed lookup permits nothing. */
  method AllowTcp(cfg: Config, resolve: Resolver, trustedSrc: Ipv4, src: Ipv4, ip: Ipv4, port: Port)
    returns (allow: bool)
    ensures allow <==> Permits(cfg, resolve, ip, port, src == trustedSrc)
  {
    if AllowsTcp(cfg.entries, ip, port, src == trustedSrc) { return true; }
    for i := 0 to |cfg.hostnames|
      invariant forall j :: 0 <= j < i ==> !NameMatches(cfg.hostnames, j, resolve, ip, port)
    {
      var entry := cfg.hostnames[i];
      if !(entry.protocol.Tcp? && PortMatches(entry.port, port)) { continue; }
      match resolve(i, entry.host)
      case Some(ips) =>
        if ip in ips {
          assert NameMatches(cfg.hostnames, i, resolve, ip, port);
          return true;
        }
      case None =>
    }
    return false;
  }

  // ----- Resolver injection -----

  const DNS_PORT: Port := 53

  function ResolverEntry(resolver: Ipv4): AllowlistEntry {
    AllowlistEntry(Literal(resolver), SinglePort(DNS_PORT), Tcp, true)
  }

  function ResolverEntries(resolvers: seq<Ipv4>): (r: seq<AllowlistEntry>)
    ensures |r| == |resolvers| && forall i :: 0 <= i < |r| ==> r[i] == ResolverEntry(resolvers[i])
  {
    seq(|resolvers|, i requires 0 <= i < |resolvers| => ResolverEntry(resolvers[i]))
  }

  class Allowlist {
    var config: Config

    constructor (config: Config)
      ensures this.config == config
    {
      this.config := config;
    }

    method PushEntry(entry: AllowlistEntry)
      modifies this
      ensures config == old(config).(entries := old(config).entries + [entry])
    {
      config := config.(entries := config.entries + [entry]);
    }

    method InjectResolverEntries() returns (injected: seq<(Ipv4, Port)>)
      modifies this
      ensures config == Injected(old(config))
      ensures |injected| == |config.resolvers|
      ensures forall i :: 0 <= i < |injected| ==> injected[i] == (config.resolvers[i], DNS_PORT)
    {
      injected := [];
      var resolvers := config.resolvers;
      ghost var before := config;
      for i := 0 to |resolvers|
        invariant config == before.(entries := before.entries + ResolverEntries(resolvers[..i]))
        invariant |injected| == i && forall j :: 0 <= j < i ==> injected[j] == (resolvers[j], DNS_PORT)
      {
        PushEntry(ResolverEntry(resolvers[i]));
        assert ResolverEntries(resolvers[..i + 1]) == ResolverEntries(resolvers[..i]) + [ResolverEntry(resolvers[i])];
        assert before.entries + ResolverEntries(resolvers[..i + 1]) ==
               before.entries + ResolverEntries(resolvers[..i]) + [ResolverEntry(resolvers[i])];
        injected := injected + [(resolvers[i], DNS_PORT)];
      }
      assert resolvers[..|resolvers|] == resolvers;
    }
  }

  function Injected(cfg: Config): Config {
    cfg.(entries := cfg.entries + ResolverEntries(cfg.resolvers))
  }

  lemma AllowsConcat(a: seq<AllowlistEntry>, b: seq<AllowlistEntry>, ip: Ipv4, port: Port, trusted: bool)
    ensures AllowsTcp(a + b, ip, port, trusted) <==> AllowsTcp(a, ip, port, trusted) || AllowsTcp(b, ip, port, trusted)
  {
    hide EntryMatches;
    if AllowsTcp(a, ip, port, trusted) {
      var i :| 0 <= i < |a| && EntryMatches(a[i], ip, port, trusted);
      assert (a + b)[i] == a[i];
    }
    if AllowsTcp(b, ip, port, trusted) {
      var i :| 0 <= i < |b| && EntryMatches(b[i], ip, port, trusted);
      assert (a + b)[|a| + i] == b[i];
    }
  }

  lemma ResolverEntriesAllow(resolvers: seq<Ipv4>, ip: Ipv4, port: Port, trusted: bool)
    ensures AllowsTcp(ResolverEntries(resolvers), ip, port, trusted) <==> trusted && port == DNS_PORT && ip in resolvers
  {
    if trusted && port == DNS_PORT && ip in resolvers {
      var i :| 0 <= i < |resolvers| && resolvers[i] == ip;
      assert EntryMatches(ResolverEntries(resolvers)[i], ip, port, trusted);
    }
  }

  /** Injection adds exactly the resolvers' DNS port for the trusted source. No other decision changes. */
  lemma InjectionDecision(cfg: Config, resolve: Resolver, ip: Ipv4, port: Port, trusted: bool)
    ensures Permits(Injected(cfg), resolve, ip, port, trusted) <==>
            Permits(cfg, resolve, ip, port, trusted) || (trusted && port == DNS_PORT && ip in cfg.resolvers)
    ensures !trusted ==>
      (Permits(Injected(cfg), resolve, ip, port, trusted) <==> Permits(cfg, resolve, ip, port, trusted))
  {
    hide AllowsTcp, NameMatches, ResolverEntries;
    AllowsConcat(cfg.entries, ResolverEntries(cfg.resolvers), ip, port, trusted);
    ResolverEntriesAllow(cfg.resolvers, ip, port, trusted);
  }
}
