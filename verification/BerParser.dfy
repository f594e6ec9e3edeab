/** A parser for the grammar, with the depth bound, and its agreement with the grammar in both directions. */
module BerParser {
  import opened Wrappers
  import opened BerGrammar

  datatype Length = Length(form: LenForm, len: nat, rest: Bytes)

  function ReadLength(input: Bytes): (r: Option<Length>)
    ensures r.Some? ==> |r.value.rest| < |input|
  {
    if input == [] then None
    else
      var b, rest := input[0], input[1..];
      if b == 0x80 then Some(Length(Indefinite, 0, rest))
      else if b < 0x80 then Some(Length(Short, b, rest))
      else
        var n := b - 0x80;
        if n > 4 || |rest| < n then None else Some(Length(Long(n), FromBigEndian(rest[..n]), rest[n..]))
  }

  /** A long form of one to four octets spells any number of them; longer ones are refused whatever they spell. */
  lemma LongFormLimit(octets: Bytes, rest: Bytes, input: Bytes)
    requires 1 <= |octets| < 0x80 && input != [] && input[0] == 0x80 + |octets| && input[1..] == octets + rest
    ensures |octets| <= 4 ==> ReadLength(input) == Some(Length(Long(|octets|), FromBigEndian(octets), rest))
    ensures |octets| > 4 ==> ReadLength(input).None?
  {
    hide FromBigEndian;
    var tail := input[1..];
    assert tail[..|octets|] == octets && tail[|octets|..] == rest;
  }

  /** What the octets of a long form spell: the most significant first. */
  lemma {:induction false} LengthSpelled(b: Bytes)
    requires 1 <= |b| <= 4
    ensures |b| == 1 ==> FromBigEndian(b) == b[0]
    ensures |b| == 2 ==> FromBigEndian(b) == 256 * (b[0] as int) + b[1]
    ensures |b| == 3 ==> FromBigEndian(b) == 65536 * (b[0] as int) + 256 * (b[1] as int) + b[2]
    ensures |b| == 4 ==> FromBigEndian(b) ==
                         16777216 * (b[0] as int) + 65536 * (b[1] as int) + 256 * (b[2] as int) + b[3]
  {
    if |b| == 1 {
      assert FromBigEndian(b[..0]) == 0;
    } else {
      LengthSpelled(b[..|b| - 1]);
    }
  }

  datatype Parsed = Parsed(node: Node, rest: Bytes)
  datatype ParsedAll = ParsedAll(nodes: seq<Node>, rest: Bytes)

  /** One TLV at nesting level `depth`. A parse consumes at least two bytes. */
  function Parse(input: Bytes, depth: nat): (r: Option<Parsed>)
    ensures r.Some? ==> |r.value.rest| + 2 <= |input|
    decreases |input|, 0
  {
    if depth > MAX_TLV_DEPTH || input == [] || IsHighTag(input[0]) then None
    else
      var id := input[0];
      match ReadLength(input[1..])
      case None => None
      case Some(Length(form, len, rest)) =>
        if !IsConstructed(id) then
          if form.Indefinite? || |rest| < len then None
          else Some(Parsed(Primitive(id, form, rest[..len]), rest[len..]))
        else if form.Indefinite? then
          var body := ParseUntilEnd(rest, depth + 1);
          if body.None? then None else Some(Parsed(Constructed(id, form, body.value.nodes), body.value.rest))
        else if |rest| < len then None
        else
          var body := ParseAll(rest[..len], depth + 1);
          if body.None? then None else Some(Parsed(Constructed(id, form, body.value), rest[len..]))
  }

  /** TLVs up to the end of a definite-length region. */
  function ParseAll(region: Bytes, depth: nat): (r: Option<seq<Node>>)
    decreases |region|, 1
  {
    if region == [] then Some([])
    else
      var first := Parse(region, depth);
      if first.None? then None
      else
        var others := ParseAll(first.value.rest, depth);
        if others.None? then None else Some([first.value.node] + others.value)
  }

  predicate AtEnd(region: Bytes) {
    |region| >= 2 && region[0] == 0 && region[1] == 0
  }

  /** TLVs up to the end-of-contents octets of an indefinite-length node. */
  function ParseUntilEnd(region: Bytes, depth: nat): (r: Option<ParsedAll>)
    ensures r.Some? ==> |r.value.rest| + 2 <= |region|
    decreases |region|, 1
  {
    if AtEnd(region) then Some(ParsedAll([], region[2..]))
    else
      var first := Parse(region, depth);
      if first.None? then None
      else
        var others := ParseUntilEnd(first.value.rest, depth);
        if others.None? then None
        else Some(ParsedAll([first.value.node] + others.value.nodes, others.value.rest))
  }

  // ----- The parser accepts only the grammar -----

  lemma ReadLengthSound(input: Bytes)
    requires ReadLength(input).Some?
    ensures var l := ReadLength(input).value;
            FormFits(l.form, l.len) && input == LengthOctets(l.form, l.len) + l.rest
  {
    var b, rest := input[0], input[1..];
    if b > 0x80 {
      var n := b - 0x80;
      ToFromBigEndian(rest[..n]);
      assert rest == rest[..n] + rest[n..];
    }
  }

  lemma Glue(head: Bytes, body: Bytes, end: Bytes, tail: Bytes)
    ensures head + (body + end + tail) == (head + body + end) + tail
  {
  }

  /** What a successful parse read: identifier, length octets, and the rest. */
  lemma ParseHeader(input: Bytes, depth: nat)
    requires Parse(input, depth).Some?
    ensures input != [] && !IsHighTag(input[0]) && depth <= MAX_TLV_DEPTH && ReadLength(input[1..]).Some?
    ensures var l := ReadLength(input[1..]).value;
            FormFits(l.form, l.len) && input == [input[0]] + LengthOctets(l.form, l.len) + l.rest
  {
    ReadLengthSound(input[1..]);
    assert input == [input[0]] + input[1..];
  }

  lemma {:induction false} ParseSound(input: Bytes, depth: nat)
    requires Parse(input, depth).Some?
    ensures var p := Parse(input, depth).value;
            WellFormed(p.node) && input == Encode(p.node) + p.rest && depth + Height(p.node) <= MAX_TLV_DEPTH
    decreases |input|, 0
  {
    hide LengthOctets, ReadLength, FormFits, ParseAll, ParseUntilEnd, EncodeAll, WellFormedAll, HeightAll;
    hide NoEndOfContents;
    ParseHeader(input, depth);
    var id, l, p := input[0], ReadLength(input[1..]).value, Parse(input, depth).value;
    var head := [id] + LengthOctets(l.form, l.len);
    if !IsConstructed(id) {
      assert l.rest == l.rest[..l.len] + [] + l.rest[l.len..];
      Glue(head, l.rest[..l.len], [], p.rest);
    } else if l.form.Indefinite? {
      ParseUntilEndSound(l.rest, depth + 1);
      IndefiniteLength(l.len, |EncodeAll(p.node.children)|);
      Glue(head, EncodeAll(p.node.children), [0, 0], p.rest);
    } else {
      ParseAllSound(l.rest[..l.len], depth + 1);
      assert l.rest == l.rest[..l.len] + [] + l.rest[l.len..];
      Glue(head, l.rest[..l.len], [], p.rest);
    }
  }

  lemma IndefiniteLength(a: nat, b: nat)
    ensures FormFits(Indefinite, b) && LengthOctets(Indefinite, a) == LengthOctets(Indefinite, b)
  {
  }

  lemma {:induction false} ParseAllSound(region: Bytes, depth: nat)
    requires 0 < depth <= MAX_TLV_DEPTH + 1 && ParseAll(region, depth).Some?
    ensures var ns := ParseAll(region, depth).value;
            WellFormedAll(ns) && region == EncodeAll(ns) && depth - 1 + HeightAll(ns) <= MAX_TLV_DEPTH
    decreases |region|, 1
  {
    if region == [] {
    } else {
      ParseSound(region, depth);
      ParseAllSound(Parse(region, depth).value.rest, depth);
    }
  }

  lemma {:induction false} ParseUntilEndSound(region: Bytes, depth: nat)
    requires 0 < depth <= MAX_TLV_DEPTH + 1 && ParseUntilEnd(region, depth).Some?
    ensures var p := ParseUntilEnd(region, depth).value;
            && WellFormedAll(p.nodes) && NoEndOfContents(p.nodes) && region == EncodeAll(p.nodes) + [0, 0] + p.rest
            && depth - 1 + HeightAll(p.nodes) <= MAX_TLV_DEPTH
    decreases |region|, 1
  {
    hide Parse, Encode, WellFormed, Height;
    if AtEnd(region) {
      assert region == [0, 0] + region[2..];
    } else {
      ParseSound(region, depth);
      var first := Parse(region, depth).value;
      NotAtEnd(first.node, first.rest);
      ParseUntilEndSound(first.rest, depth);
      var others := ParseUntilEnd(first.rest, depth).value;
      Glue(Encode(first.node), EncodeAll(others.nodes), [0, 0], others.rest);
    }
  }

  /** Only the look-alike primitive reads as end-of-contents. */
  lemma NotAtEnd(n: Node, rest: Bytes)
    requires WellFormed(n)
    ensures AtEnd(Encode(n) + rest) <==> IsEndOfContents(n)
  {
    assert Encode(n)[0] == n.id;
    assert (Encode(n) + rest)[0] == n.id && (Encode(n) + rest)[1] == Encode(n)[1];
    if n.Primitive? {
      assert Encode(n)[1] == LengthOctets(n.form, |n.content|)[0];
    }
  }

  // ----- The parser accepts the whole grammar -----

  lemma ReadLengthComplete(form: LenForm, len: nat, rest: Bytes)
    requires FormFits(form, len)
    ensures ReadLength(LengthOctets(form, len) + rest) == Some(Length(form, if form.Indefinite? then 0 else len, rest))
  {
    hide BigEndian, FromBigEndian, Pow256;
    var input := LengthOctets(form, len) + rest;
    if form.Long? {
      var n, be := form.octets, BigEndian(len, form.octets);
      FromToBigEndian(len, n);
      assert n % 128 == n && input[0] == 0x80 + n;
      assert input[1..] == be + rest;
      assert (be + rest)[..n] == be && (be + rest)[n..] == rest;
    } else {
      assert input[1..] == rest;
    }
  }

  /** The identifier and length at the front of an encoding. */
  lemma HeaderRead(n: Node, rest: Bytes)
    requires WellFormed(n)
    ensures (Encode(n) + rest)[0] == n.id
    ensures ReadLength((Encode(n) + rest)[1..]) ==
            Some(Length(n.form, if n.form.Indefinite? then 0 else |Inner(n)|, Inner(n) + (Trailer(n) + rest)))
  {
    hide LengthOctets, ReadLength, EncodeAll;
    var length, tail := LengthOctets(n.form, |Inner(n)|), Inner(n) + (Trailer(n) + rest);
    assert Encode(n) + rest == [n.id] + (length + tail);
    assert (Encode(n) + rest)[1..] == length + tail;
    ReadLengthComplete(n.form, |Inner(n)|, tail);
  }

  lemma {:induction false} ParseComplete(n: Node, rest: Bytes, depth: nat)
    requires WellFormed(n) && depth + Height(n) <= MAX_TLV_DEPTH
    ensures Parse(Encode(n) + rest, depth) == Some(Parsed(n, rest))
    decreases n, 1
  {
    hide ReadLength, FormFits, Encode;
    HeaderRead(n, rest);
    var body, tail := Inner(n), Trailer(n) + rest;
    if n.Primitive? || !n.form.Indefinite? {
      assert (body + tail)[..|body|] == body && (body + tail)[|body|..] == tail && tail == rest;
      if n.Constructed? { ParseAllComplete(n.children, depth + 1); }
    } else {
      assert body + tail == EncodeAll(n.children) + [0, 0] + rest;
      ParseUntilEndComplete(n.children, rest, depth + 1);
    }
  }

  lemma {:induction false} ParseAllComplete(ns: seq<Node>, depth: nat)
    requires WellFormedAll(ns) && 0 < depth && depth - 1 + HeightAll(ns) <= MAX_TLV_DEPTH
    ensures ParseAll(EncodeAll(ns), depth) == Some(ns)
    decreases ns, 0
  {
    if ns == [] {
    } else {
      ParseComplete(ns[0], EncodeAll(ns[1..]), depth);
      ParseAllComplete(ns[1..], depth);
      assert [ns[0]] + ns[1..] == ns;
    }
  }

  lemma {:induction false} ParseUntilEndComplete(ns: seq<Node>, rest: Bytes, depth: nat)
    requires WellFormedAll(ns) && NoEndOfContents(ns) && 0 < depth && depth - 1 + HeightAll(ns) <= MAX_TLV_DEPTH
    ensures ParseUntilEnd(EncodeAll(ns) + [0, 0] + rest, depth) == Some(ParsedAll(ns, rest))
    decreases ns, 0
  {
    hide Parse, Encode;
    var region := EncodeAll(ns) + [0, 0] + rest;
    if ns == [] {
      assert region[2..] == rest;
    } else {
      var others := EncodeAll(ns[1..]) + [0, 0] + rest;
      Glue(Encode(ns[0]), EncodeAll(ns[1..]), [0, 0], rest);
      assert region == Encode(ns[0]) + others;
      NotAtEnd(ns[0], others);
      ParseComplete(ns[0], others, depth);
      ParseUntilEndComplete(ns[1..], rest, depth);
      assert [ns[0]] + ns[1..] == ns;
    }
  }

  /** The parser is the grammar: it reads `node` with remainder `rest` exactly when the input is an encoding of the
      well-formed node followed by `rest`, within the depth bound. */
  lemma ParseIffEncoded(input: Bytes, depth: nat, node: Node, rest: Bytes)
    ensures Parse(input, depth) == Some(Parsed(node, rest))
       <==> WellFormed(node) && input == Encode(node) + rest && depth + Height(node) <= MAX_TLV_DEPTH
  {
    hide Parse, Encode, WellFormed, Height;
    if Parse(input, depth) == Some(Parsed(node, rest)) { ParseSound(input, depth); }
    if WellFormed(node) && input == Encode(node) + rest && depth + Height(node) <= MAX_TLV_DEPTH {
      ParseComplete(node, rest, depth);
    }
  }
}
