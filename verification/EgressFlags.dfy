/** The flag grammar `HOST:PORT[/PROTO]`, stated on the text: what a flag says, and when it is refused. */
module EgressFlags {
  import opened Wrappers
  import opened Text
  import opened EgressPolicy
  import opened EgressConfig
  import Hex
  import Hostname

  // ----- The grammar -----

  /** Every slash has a colon to its right, so none of them starts a protocol. */
  predicate NoTail(s: string) {
    forall i :: 0 <= i < |s| && s[i] == '/' ==> ':' in s[i + 1..]
  }

  /** A text is its head and its tail, which is empty or begins with the last slash. */
  predicate HeadTail(text: string, head: string, tail: string) {
    && text == head + tail
    && if tail == "" then NoTail(head) else tail[0] == '/' && '/' !in tail[1..] && ':' !in tail[1..]
  }

  predicate SaysProtocol(tail: string, protocol: Protocol) {
    match protocol
    case Tcp => tail == "" || Hex.Lower(tail) == "/tcp"
    case Udp => Hex.Lower(tail) == "/udp"
  }

  ghost predicate SaysPort(text: string, port: RawPort) {
    match port
    case Str(s) => s == "*" && Trim(text) == "*"
    case Num(n) => n != 0 && IsNumber(Trim(text), n)
  }

  /** An IPv4 address or block, or else a hostname that is no IPv6 address. */
  ghost predicate SaysHost(ip: IpParser, host: string) {
    ip.net(host).Some? || ip.v4(host).Some? || (!ip.v6(host) && Hostname.IsHostname(host))
  }

  /** The pieces of a flag: the text before its last colon, the text after it, and the protocol. */
  ghost predicate Pieces(spec: string, host: string, port: string, tail: string) {
    HeadTail(Trim(spec), host + ":" + port, tail) && ':' !in port
  }

  /** What a flag says. */
  ghost predicate FlagSays(ip: IpParser, spec: string, e: RawEntry) {
    exists host, port, tail :: Pieces(spec, host, port, tail) && EntrySays(ip, host, port, tail, e)
  }

  ghost predicate EntrySays(ip: IpParser, host: string, port: string, tail: string, e: RawEntry) {
    && e.host == Trim(host) && e.host != "" && SaysHost(ip, e.host)
    && SaysPort(port, e.port) && SaysProtocol(tail, e.protocol)
  }

  // ----- The parser reads the grammar -----

  lemma SplitFindsTail(head: string, tail: string)
    requires HeadTail(head + tail, head, tail)
    ensures var parts := SplitLast(head + tail, '/');
      if tail == "" then parts.None? || ':' in parts.value.1 else parts == Some((head, tail[1..]))
  {
    hide SplitLast;
    var text := head + tail;
    if tail == "" {
      assert text == head;
      var parts := SplitLast(text, '/');
      if parts.Some? {
        var i := |parts.value.0|;
        assert text[i] == '/' && text[i + 1..] == parts.value.1;
      }
    } else {
      assert text == head + ['/'] + tail[1..];
      SplitLastUnique(head, tail[1..], '/');
    }
  }

  lemma TailName(tail: string)
    requires tail != "" && tail[0] == '/'
    ensures Hex.Lower(tail) == "/tcp" <==> Hex.Lower(tail[1..]) == "tcp"
    ensures Hex.Lower(tail) == "/udp" <==> Hex.Lower(tail[1..]) == "udp"
  {
    assert Hex.Lower(tail) == "/" + Hex.Lower(tail[1..]);
    assert "/tcp" == "/" + "tcp" && "/udp" == "/" + "udp";
    assert ("/" + Hex.Lower(tail[1..]))[1..] == Hex.Lower(tail[1..]);
    assert "/tcp"[1..] == "tcp" && "/udp"[1..] == "udp";
  }

  /** Where the text splits into head and tail, that is where the parser cuts. */
  lemma CutFinds(spec: string, head: string, tail: string)
    requires HeadTail(head + tail, head, tail)
    ensures match CutProtocol(spec, head + tail)
            case Ok(r) => r.0 == head && SaysProtocol(tail, r.1)
            case Err(e) => tail != "" && !SaysProtocol(tail, Tcp) && !SaysProtocol(tail, Udp) &&
                           e == UnsupportedProtocol(spec, tail[1..])
  {
    hide SplitLast, Hex.Lower, NoTail;
    SplitFindsTail(head, tail);
    if tail == "" {
      assert head + tail == head;
    } else {
      TailName(tail);
    }
  }

  lemma ProtocolUnique(tail: string, p: Protocol, q: Protocol)
    requires SaysProtocol(tail, p) && SaysProtocol(tail, q)
    ensures p == q
  {
    assert "/tcp"[1] != "/udp"[1];
    assert tail == "" ==> |Hex.Lower(tail)| == 0;
  }

  /** Every text splits. */
  lemma SplitText(text: string) returns (head: string, tail: string)
    ensures HeadTail(text, head, tail)
  {
    hide SplitLast;
    var parts := SplitLast(text, '/');
    if parts.None? || ':' in parts.value.1 {
      head, tail := text, "";
      forall i | 0 <= i < |text| && text[i] == '/' ensures ':' in text[i + 1..] {
        var cut := |parts.value.0|;
        assert i <= cut by {
          assert forall k :: cut < k < |text| ==> text[k] == parts.value.1[k - cut - 1];
        }
        assert text[cut + 1..] == parts.value.1 && text[i + 1..] == text[i + 1..cut + 1] + parts.value.1;
      }
    } else {
      head, tail := parts.value.0, "/" + parts.value.1;
      assert tail[1..] == parts.value.1;
    }
  }

  lemma PortIff(spec: string, text: string, port: RawPort)
    ensures ParsePort(spec, text) == Ok(port) <==> SaysPort(text, port)
    ensures ParsePort(spec, text) == Err(PortZero(spec)) <==> IsNumber(Trim(text), 0)
    ensures ParsePort(spec, text).Err? ==> ParsePort(spec, text).error in {PortZero(spec), InvalidPort(spec)}
  {
    hide Trim, ParseUnsigned, IsNumber;
    var t := Trim(text);
    ParseUnsignedIff(t, 0x1_0000, 0);
    assert t == "*" ==> !IsNumber(t, 0) by { if t == "*" { StarIsNoNumber(0); } }
    if port.Num? {
      ParseUnsignedIff(t, 0x1_0000, port.n);
      if t == "*" { StarIsNoNumber(port.n); }
    }
  }

  lemma StarIsNoNumber(n: nat)
    ensures !IsNumber("*", n)
  {
    ParseUnsignedIff("*", n + 1, n);
    assert "*"[..0] == "";
    assert DigitsValue("*").None?;
  }

  lemma HostIff(ip: IpParser, spec: string, host: string)
    ensures HostError(ip, spec, host).None? <==> SaysHost(ip, host)
  {
    hide Hostname.ValidateHostname, Hostname.IsHostname;
    Hostname.ValidateIff(host);
  }

  lemma PiecesNotEmpty(host: string, port: string, tail: string)
    ensures (host + ":" + port) + tail != ""
  {
  }

  /** On a flag's pieces the parser gives exactly what they say. */
  lemma PiecesRead(ip: IpParser, spec: string, host: string, port: string, tail: string, e: RawEntry)
    requires Pieces(spec, host, port, tail)
    ensures ParseCliEntry(ip, spec) == Ok(e) <==> EntrySays(ip, host, port, tail, e)
  {
    hide Trim, SplitLast, CutProtocol, ParsePort, HostError, SaysHost, SaysPort, SaysProtocol, HeadTail;
    var head := host + ":" + port;
    assert Trim(spec) == head + tail by { HeadTailJoins(Trim(spec), head, tail); }
    PiecesNotEmpty(host, port, tail);
    CutFinds(spec, head, tail);
    SplitLastUnique(host, port, ':');
    assert host + [':'] + port == head;
    PortIff(spec, port, e.port);
    HostIff(ip, spec, e.host);
    var cut := CutProtocol(spec, head + tail);
    if cut.Ok? {
      if SaysProtocol(tail, e.protocol) { ProtocolUnique(tail, cut.value.1, e.protocol); }
    } else {
      assert !SaysProtocol(tail, e.protocol) by { if e.protocol.Tcp? { } }
    }
  }

  lemma HeadTailJoins(text: string, head: string, tail: string)
    requires HeadTail(text, head, tail)
    ensures text == head + tail
  {
  }

  /** The parser accepts a flag exactly when the grammar does, and reads what it says. */
  lemma FlagIff(ip: IpParser, spec: string, e: RawEntry)
    ensures ParseCliEntry(ip, spec) == Ok(e) <==> FlagSays(ip, spec, e)
  {
    hide Pieces, EntrySays, ParseCliEntry;
    if ParseCliEntry(ip, spec) == Ok(e) {
      var host, port, tail := AcceptedPieces(ip, spec);
      PiecesRead(ip, spec, host, port, tail, e);
    }
    forall host, port, tail | Pieces(spec, host, port, tail) && EntrySays(ip, host, port, tail, e)
      ensures ParseCliEntry(ip, spec) == Ok(e)
    {
      PiecesRead(ip, spec, host, port, tail, e);
    }
  }

  lemma AcceptedPieces(ip: IpParser, spec: string) returns (host: string, port: string, tail: string)
    requires ParseCliEntry(ip, spec).Ok?
    ensures Pieces(spec, host, port, tail)
  {
    hide Trim, SplitLast, ParsePort, HostError, CutProtocol, HeadTail;
    var head;
    head, tail := SplitText(Trim(spec));
    HeadTailJoins(Trim(spec), head, tail);
    CutFinds(spec, head, tail);
    var parts := SplitLast(head, ':');
    host, port := parts.value.0, parts.value.1;
    assert head == host + ":" + port;
  }

  // ----- The spellings -----

  /** The tails a protocol can be written as. */
  predicate IsTail(tail: string) {
    tail == "" || Hex.Lower(tail) == "/tcp" || Hex.Lower(tail) == "/udp"
  }

  lemma TailShape(tail: string)
    requires IsTail(tail) && tail != ""
    ensures tail[0] == '/' && '/' !in tail[1..] && ':' !in tail[1..] && !IsWhitespace(tail[|tail| - 1])
  {
    var lower := Hex.Lower(tail);
    assert |tail| == 4 && lower[0] == '/' && lower[3] == 'p';
    assert forall i :: 0 <= i < 4 ==> lower[i] == Hex.LowerChar(tail[i]);
    forall i | 1 <= i < 4 ensures tail[i] != '/' && tail[i] != ':' {
      assert lower[i] in {'t', 'c', 'p', 'u', 'd'};
    }
  }

  lemma BareTail(host: string, port: string)
    requires '/' !in port
    ensures NoTail(host + ":" + port)
  {
    var head := host + ":" + port;
    forall i | 0 <= i < |head| && head[i] == '/' ensures ':' in head[i + 1..] {
      assert i < |host|;
      assert head[i + 1..][|host| - i - 1] == ':';
    }
  }

  lemma BarePieces(host: string, port: string)
    requires ':' !in port && '/' !in port
    ensures Pieces(host + ":" + port, TrimStart(host), TrimEnd(port), "")
  {
    hide TrimStart, TrimEnd, NoTail, IsWhitespace, Trim;
    ColonIsInk();
    TrimAround(host, ':', port);
    assert TrimEnd(port) <= port;
    BareTail(TrimStart(host), TrimEnd(port));
    var head := TrimStart(host) + ":" + TrimEnd(port);
    assert head + "" == head;
  }

  lemma TailedPieces(host: string, port: string, tail: string)
    requires ':' !in port && IsTail(tail) && tail != ""
    ensures Pieces(host + ":" + port + tail, TrimStart(host), port, tail)
  {
    hide TrimStart, TrimEnd, IsWhitespace, Trim, IsTail, HeadTail;
    ColonIsInk();
    TailShape(tail);
    TrimAround(host, ':', port + tail);
    TrimEndKeeps(port, tail);
    Regroup(host, port, tail);
    Regroup(TrimStart(host), port, tail);
    assert HeadTail(TrimStart(host) + ":" + port + tail, TrimStart(host) + ":" + port, tail) by {
      TailEnds(TrimStart(host) + ":" + port, tail);
    }
  }

  lemma TailEnds(head: string, tail: string)
    requires tail != "" && tail[0] == '/' && '/' !in tail[1..] && ':' !in tail[1..]
    ensures HeadTail(head + tail, head, tail)
  {
  }

  lemma Regroup(a: string, b: string, c: string)
    ensures a + ":" + b + c == a + [':'] + (b + c)
  {
  }

  /** The pieces of a flag that is written out of a host, a port and a tail. */
  lemma SpelledPieces(host: string, port: string, tail: string)
    requires ':' !in port && '/' !in port && IsTail(tail)
    ensures Pieces(host + ":" + port + tail, TrimStart(host), if tail == "" then TrimEnd(port) else port, tail)
  {
    hide IsTail, TrimStart, TrimEnd, Pieces;
    if tail == "" {
      BarePieces(host, port);
      assert host + ":" + port + "" == host + ":" + port;
    } else {
      TailedPieces(host, port, tail);
    }
  }

  lemma TrimEndKeeps(a: string, b: string)
    requires b != "" && !IsWhitespace(b[|b| - 1])
    ensures TrimEnd(a + b) == a + b
  {
    hide IsWhitespace;
    assert (a + b)[|a + b| - 1] == b[|b| - 1];
  }

  /** A flag written out of a host, a port and a tail says just these, whatever white space is around them. */
  lemma SpelledFlag(ip: IpParser, host: string, port: string, tail: string, e: RawEntry)
    requires ':' !in port && '/' !in port && IsTail(tail)
    ensures ParseCliEntry(ip, host + ":" + port + tail) == Ok(e) <==> EntrySays(ip, host, port, tail, e)
  {
    hide TrimStart, TrimEnd, Trim, Pieces, ParseCliEntry, SaysHost, IsNumber, SaysProtocol, IsTail;
    SpelledPieces(host, port, tail);
    TrimOfStart(host);
    TrimOfEnd(port);
    PiecesRead(ip, host + ":" + port + tail, TrimStart(host), if tail == "" then TrimEnd(port) else port, tail, e);
  }

  /** A flag without a protocol is a TCP flag: it reads as the one with `/tcp` for every host and port. */
  lemma DefaultIsTcp(ip: IpParser, host: string, port: string, e: RawEntry)
    requires ':' !in port && '/' !in port
    ensures ParseCliEntry(ip, host + ":" + port) == Ok(e) <==> ParseCliEntry(ip, host + ":" + port + "/tcp") == Ok(e)
    ensures ParseCliEntry(ip, host + ":" + port) == Ok(e) ==> e.protocol.Tcp?
  {
    hide ParseCliEntry, SaysHost, SaysPort, Trim;
    LowerTails();
    assert host + ":" + port + "" == host + ":" + port;
    SpelledFlag(ip, host, port, "", e);
    SpelledFlag(ip, host, port, "/tcp", e);
  }

  /** With `/udp` the same host and port are read, as UDP. */
  lemma UdpReads(ip: IpParser, host: string, port: string, e: RawEntry)
    requires ':' !in port && '/' !in port
    ensures ParseCliEntry(ip, host + ":" + port + "/udp") == Ok(e) <==>
            e.protocol.Udp? && ParseCliEntry(ip, host + ":" + port) == Ok(e.(protocol := Tcp))
  {
    hide ParseCliEntry, SaysHost, SaysPort, Trim;
    LowerTails();
    assert host + ":" + port + "" == host + ":" + port;
    SpelledFlag(ip, host, port, "", e.(protocol := Tcp));
    SpelledFlag(ip, host, port, "/udp", e);
  }

  lemma LowerTails()
    ensures Hex.Lower("/tcp") == "/tcp" && Hex.Lower("/udp") == "/udp" && "/tcp" != "/udp" && Hex.Lower("") == ""
  {
    assert "/tcp"[1] != "/udp"[1];
  }

  // ----- What a refusal says -----

  ghost predicate NotAddress(ip: IpParser, host: string) {
    ip.net(host).None? && ip.v4(host).None?
  }

  ghost predicate PieceFault(ip: IpParser, host: string, port: string, e: FlagError) {
    match e
    case EmptyHost(_) => Trim(host) == ""
    case InvalidPort(_) => Trim(port) != "*" && forall n :: 0 <= n < 0x1_0000 ==> !IsNumber(Trim(port), n)
    case PortZero(_) => IsNumber(Trim(port), 0)
    case Ipv6Host(_) => NotAddress(ip, Trim(host)) && ip.v6(Trim(host))
    case InvalidHostname(_, h, fault) =>
      h == Trim(host) && NotAddress(ip, h) && !ip.v6(h) && Hostname.ValidateHostname(h) == Some(fault)
    case _ => false
  }

  /** The error is true of the flag. */
  ghost predicate FlagFault(ip: IpParser, spec: string, e: FlagError) {
    match e
    case BadEntryShape(s) => s == spec && Trim(spec) == ""
    case UnsupportedProtocol(s, name) =>
      s == spec && !IsTail("/" + name) && exists head :: HeadTail(Trim(spec), head, "/" + name)
    case MissingPort(s) =>
      s == spec && exists head, tail :: HeadTail(Trim(spec), head, tail) && IsTail(tail) && ':' !in head
    case InvalidResolver(_) => false
    case Validation(_) => false
    case _ =>
      e.spec == spec && exists host, port, tail :: Pieces(spec, host, port, tail) && PieceFault(ip, host, port, e)
  }

  lemma TailIff(tail: string)
    ensures IsTail(tail) <==> SaysProtocol(tail, Tcp) || SaysProtocol(tail, Udp)
  {
  }

  lemma PortFault(ip: IpParser, spec: string, host: string, port: string)
    requires ParsePort(spec, port).Err?
    ensures var e := ParsePort(spec, port).error; (e.PortZero? || e.InvalidPort?) && e.spec == spec
    ensures PieceFault(ip, host, port, ParsePort(spec, port).error)
  {
    hide Trim, ParseUnsigned, IsNumber;
    var t := Trim(port);
    forall n | 0 <= n < 0x1_0000 ensures ParseUnsigned(t, 0x1_0000) == Some(n) <==> IsNumber(t, n) {
      ParseUnsignedIff(t, 0x1_0000, n);
    }
  }

  /** What the parser says of a flag it refuses is true. */
  lemma FlagErrorIsTrue(ip: IpParser, spec: string)
    requires ParseCliEntry(ip, spec).Err?
    ensures FlagFault(ip, spec, ParseCliEntry(ip, spec).error)
  {
    hide Trim, SplitLast, ParsePort, CutProtocol, HeadTail, IsTail, SaysProtocol, IsNumber, Hostname.ValidateHostname;
    if Trim(spec) != "" {
      var head, tail := SplitText(Trim(spec));
      HeadTailJoins(Trim(spec), head, tail);
      CutFinds(spec, head, tail);
      TailIff(tail);
      if CutProtocol(spec, Trim(spec)).Err? {
        assert tail == "/" + tail[1..] by { TailStarts(Trim(spec), head, tail); }
      } else if ':' in head {
        var host, port := SplitLast(head, ':').value.0, SplitLast(head, ':').value.1;
        assert head == host + ":" + port && Pieces(spec, host, port, tail);
        if ParsePort(spec, port).Err? { PortFault(ip, spec, host, port); }
        assert PieceFault(ip, host, port, ParseCliEntry(ip, spec).error);
      } else {
        assert IsTail(tail) by { if CutProtocol(spec, Trim(spec)).value.1.Tcp? { } }
      }
    }
  }

  lemma TailStarts(text: string, head: string, tail: string)
    requires HeadTail(text, head, tail) && tail != ""
    ensures tail == "/" + tail[1..]
  {
  }
}
