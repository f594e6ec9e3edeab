/** The single-pass transcoder, proved against parse, normalise and print. */
module BerTranscoder {
  import opened Wrappers
  import opened BerGrammar
  import opened BerParser
  import opened DerNormal
  import opened DerEmbedding

  datatype Transcoded = Transcoded(out: Bytes, rest: Bytes)

  /** Parse one TLV, normalise it, print it. */
  function Transcode(input: Bytes, depth: nat): (r: Option<Transcoded>)
    ensures r.Some? ==> |r.value.rest| + 2 <= |input|
  {
    var p := Parse(input, depth);
    if p.None? then None
    else
      ParseSound(input, depth);
      var d := Normalise(p.value.node);
      if d.None? then None else Some(Transcoded(Print(d.value), p.value.rest))
  }

  // ----- The code -----

  method ReadLen(input: Bytes) returns (r: Option<(Option<nat>, Bytes)>)
    ensures r.None? <==> ReadLength(input).None?
    ensures r.Some? ==> var l := ReadLength(input).value;
                        r.value == (if l.form.Indefinite? then None else Some(l.len), l.rest)
  {
    if input == [] { return None; }
    var b, rest := input[0], input[1..];
    if b == 0x80 { return Some((None, rest)); }
    if b < 0x80 { return Some((Some(b), rest)); }
    var n := b - 0x80;
    if n > 4 || |rest| < n { return None; }
    var len: nat := 0;
    for i := 0 to n
      invariant len == FromBigEndian(rest[..i])
    {
      len := 256 * len + rest[i];
      assert rest[..i + 1][..i] == rest[..i];
    }
    return Some((Some(len), rest[n..]));
  }

  lemma MoveOctet(v: nat, lb: Bytes)
    requires v > 0
    ensures MinimalOctets(v) + lb == MinimalOctets(v / 256) + ([v % 256] + lb)
    ensures v / 256 < v
  {
  }

  lemma NoOctets()
    ensures MinimalOctets(0) == []
  {
  }

  method EmitDer(id: byte, content: Bytes) returns (out: Bytes)
    ensures out == Tlv(id, content)
  {
    hide MinimalOctets;
    out := [id];
    if |content| < 0x80 {
      out := out + [|content|];
    } else {
      var lb: Bytes, v := [], |content|;
      while v > 0
        invariant v >= 0
        invariant MinimalOctets(|content|) == MinimalOctets(v) + lb
        decreases v
      {
        MoveOctet(v, lb);
        lb, v := [v % 256] + lb, v / 256;
      }
      assert MinimalOctets(0) == [] by { NoOctets(); }
      out := out + [LongPrefix(|lb|)] + lb;
    }
    out := out + content;
  }

  method OctetValue(der: Bytes) returns (r: Option<Bytes>)
    requires der != []
    ensures forall id: byte, content: Bytes :: der == Tlv(id, content) ==>
        r == if id == OCTET_STRING && |content| < TWO_32 then Some(content) else None
  {
    if der[0] != OCTET_STRING { return None; }
    var l := ReadLen(der[1..]);
    r := if l.None? || l.value.0.None? || |l.value.1| < l.value.0.value then None
         else Some(l.value.1[..l.value.0.value]);
    forall id: byte, content: Bytes | der == Tlv(id, content)
      ensures id == OCTET_STRING && r == if |content| < TWO_32 then Some(content) else None
    {
      assert der[1..] == DerLength(|content|) + content;
      ReadDerLength(content);
      assert content[..|content|] == content;
    }
  }

  /** A DER length is read back exactly when it takes at most four octets. */
  lemma ReadDerLength(content: Bytes)
    ensures var l := ReadLength(DerLength(|content|) + content);
            if |content| < TWO_32
            then l.Some? && !l.value.form.Indefinite? && l.value.len == |content| && l.value.rest == content
            else l.None?
  {
    if |content| < TWO_32 {
      MinimalFormIsDer(|content|);
      ReadLengthComplete(MinimalForm(|content|), |content|, content);
    } else {
      LongLengthOctets(|content|);
      assert (DerLength(|content|) + content)[0] == LongPrefix(|MinimalOctets(|content|)|);
    }
  }

  lemma LongLengthOctets(len: nat)
    requires len >= TWO_32
    ensures |MinimalOctets(len)| > 4
  {
    MinimalOctetsSpell(len);
    Pow256Values();
    Pow256Monotone(|MinimalOctets(len)|, 4);
  }

  lemma {:induction false} Pow256Monotone(m: nat, n: nat)
    ensures m <= n ==> Pow256(m) <= Pow256(n)
  {
    if n <= m {
    } else {
      Pow256Monotone(m, n - 1);
    }
  }

  // ----- Re-emitting a constructed node -----

  function Prints(ds: seq<Der>): (r: seq<Bytes>)
    ensures |r| == |ds| && forall i :: 0 <= i < |ds| ==> r[i] == Print(ds[i])
  {
    seq(|ds|, i requires 0 <= i < |ds| => Print(ds[i]))
  }

  function PrintOption(d: Option<Der>): Option<Bytes> {
    if d.None? then None else Some(Print(d.value))
  }

  lemma {:induction false} NormalFormAt(ds: seq<Der>, i: nat)
    requires NormalFormAll(ds) && i < |ds|
    ensures NormalForm(ds[i])
  {
    if i == 0 {
    } else {
      NormalFormAt(ds[1..], i - 1);
    }
  }

  lemma {:induction false} AllOctetsAt(ds: seq<Der>)
    ensures AllOctets(ds) <==> forall i :: 0 <= i < |ds| ==> IsOctets(ds[i])
  {
    if ds == [] {
    } else {
      AllOctetsAt(ds[1..]);
      assert forall i :: 0 < i < |ds| ==> ds[i] == ds[1..][i - 1];
    }
  }

  /** A normal form with the octet string identifier is an octet string. */
  lemma OctetsById(d: Der)
    requires NormalForm(d)
    ensures IsOctets(d) <==> d.id == OCTET_STRING
  {
  }

  /** A child reads as an octet string by its first byte. */
  method ChildrenAreOctets(children: seq<Bytes>, ghost ds: seq<Der>) returns (all: bool)
    requires children == Prints(ds) && NormalFormAll(ds)
    ensures all <==> AllOctets(ds)
  {
    hide AllOctets, NormalForm, NormalFormAll, Print;
    AllOctetsAt(ds);
    for i := 0 to |children|
      invariant forall k :: 0 <= k < i ==> IsOctets(ds[k])
    {
      NormalFormAt(ds, i);
      OctetsById(ds[i]);
      if children[i][0] != OCTET_STRING { return false; }
    }
    return true;
  }

  lemma {:induction false} JoinSnoc(ds: seq<Der>, d: Der)
    ensures Joinable(ds + [d]) <==> Joinable(ds) && IsOctets(d) && |d.content| < TWO_32
    ensures Joinable(ds + [d]) ==> AllOctets(ds + [d]) && AllOctets(ds) && Join(ds + [d]) == Join(ds) + d.content
  {
    if ds == [] {
      assert [d][1..] == [];
    } else {
      JoinSnoc(ds[1..], d);
      assert (ds + [d])[1..] == ds[1..] + [d];
    }
  }

  lemma {:induction false} NotJoinable(ds: seq<Der>, more: seq<Der>)
    requires !Joinable(ds)
    ensures !Joinable(ds + more)
  {
    if IsOctets(ds[0]) && |ds[0].content| < TWO_32 {
      NotJoinable(ds[1..], more);
      assert (ds + more)[1..] == ds[1..] + more;
    }
  }

  lemma NothingJoined()
    ensures Joinable([]) && AllOctets([]) && Join([]) == []
  {
  }

  lemma PrintIsTlv(d: Der)
    ensures Print(d) == Tlv(d.id, Body(d))
  {
  }

  /** Concatenate the segment values, refusing a segment that is not a readable octet string. */
  method JoinChildren(children: seq<Bytes>, ghost ds: seq<Der>) returns (r: Option<Bytes>)
    requires children == Prints(ds) && NormalFormAll(ds)
    ensures r.Some? <==> Joinable(ds)
    ensures r.Some? ==> AllOctets(ds) && r.value == Join(ds)
  {
    hide Tlv, Joinable, AllOctets, Join, NormalForm, NormalFormAll, Print;
    var body: Bytes := [];
    NothingJoined();
    for i := 0 to |children|
      invariant Joinable(ds[..i]) && AllOctets(ds[..i]) && body == Join(ds[..i])
    {
      var v := OctetValue(children[i]);
      NormalFormAt(ds, i);
      PrintIsTlv(ds[i]);
      OctetsById(ds[i]);
      assert v == if ds[i].id == OCTET_STRING && |Body(ds[i])| < TWO_32 then Some(Body(ds[i])) else None;
      assert ds[..i + 1] == ds[..i] + [ds[i]] && ds == ds[..i + 1] + ds[i + 1..];
      JoinSnoc(ds[..i], ds[i]);
      if v.None? {
        NotJoinable(ds[..i + 1], ds[i + 1..]);
        return None;
      }
      body := body + v.value;
    }
    assert ds[..|ds|] == ds;
    return Some(body);
  }

  lemma {:induction false} PrintAllSnoc(ds: seq<Der>, d: Der)
    ensures PrintAll(ds + [d]) == PrintAll(ds) + Print(d)
  {
    if ds == [] {
      assert [] + [d] == [d] && [d][1..] == [];
    } else {
      PrintAllSnoc(ds[1..], d);
      assert (ds + [d])[1..] == ds[1..] + [d];
    }
  }

  method ConcatChildren(children: seq<Bytes>, ghost ds: seq<Der>) returns (body: Bytes)
    requires children == Prints(ds)
    ensures body == PrintAll(ds)
  {
    body := [];
    for i := 0 to |children|
      invariant body == PrintAll(ds[..i])
    {
      body := body + children[i];
      assert ds[..i + 1] == ds[..i] + [ds[i]];
      PrintAllSnoc(ds[..i], ds[i]);
    }
    assert ds[..|ds|] == ds;
  }

  method EmitNode(id: byte, children: seq<Bytes>, ghost ds: seq<Der>) returns (r: Option<Bytes>)
    requires IsConstructed(id) && children == Prints(ds) && NormalFormAll(ds)
    ensures r == PrintOption(Combine(id, ds))
  {
    var isUniversalOctet := id == CONSTRUCTED_OCTET_STRING;
    var allOctets := ChildrenAreOctets(children, ds);
    var contextOctet := IsContextSpecific(id) && children != [] && allOctets;
    if isUniversalOctet || contextOctet {
      var body := JoinChildren(children, ds);
      if body.None? { return None; }
      var out := EmitDer(if isUniversalOctet then OCTET_STRING else id - 0x20, body.value);
      return Some(out);
    }
    var body := ConcatChildren(children, ds);
    var out := EmitDer(id, body);
    return Some(out);
  }

  // ----- The child loops -----

  /** The transcoded TLVs of a definite-length region. */
  function RegionSpec(region: Bytes, depth: nat): (r: Option<seq<Bytes>>)
    decreases |region|
  {
    if region == [] then Some([])
    else
      var first := Transcode(region, depth);
      if first.None? then None
      else
        var others := RegionSpec(first.value.rest, depth);
        if others.None? then None else Some([first.value.out] + others.value)
  }

  datatype TranscodedAll = TranscodedAll(outs: seq<Bytes>, rest: Bytes)

  /** The transcoded TLVs up to end-of-contents. */
  function UntilEndSpec(region: Bytes, depth: nat): (r: Option<TranscodedAll>)
    decreases |region|
  {
    if AtEnd(region) then Some(TranscodedAll([], region[2..]))
    else
      var first := Transcode(region, depth);
      if first.None? then None
      else
        var others := UntilEndSpec(first.value.rest, depth);
        if others.None? then None else Some(TranscodedAll([first.value.out] + others.value.outs, others.value.rest))
  }

  /** The children normalised and printed. */
  function PrintedAll(ns: seq<Node>): (r: Option<seq<Bytes>>)
    requires WellFormedAll(ns)
  {
    var ds := NormaliseAll(ns);
    if ds.None? then None else Some(Prints(ds.value))
  }

  lemma PrintedCons(n: Node, ns: seq<Node>)
    requires WellFormed(n) && WellFormedAll(ns)
    ensures WellFormedAll([n] + ns)
    ensures PrintedAll([n] + ns) ==
            if Normalise(n).None? || PrintedAll(ns).None? then None
            else Some([Print(Normalise(n).value)] + PrintedAll(ns).value)
  {
    hide Normalise, WellFormed, Print;
    var all := [n] + ns;
    assert all[0] == n && all[1..] == ns;
    if Normalise(n).Some? && NormaliseAll(ns).Some? {
      var d, ds := Normalise(n).value, NormaliseAll(ns).value;
      assert Prints([d] + ds) == [Print(d)] + Prints(ds);
    }
  }

  /** Transcoding the children of a region one by one is parsing, normalising and printing them. */
  lemma {:induction false} RegionMeaning(region: Bytes, depth: nat)
    requires 0 < depth <= MAX_TLV_DEPTH + 1
    ensures ParseAll(region, depth).None? ==> RegionSpec(region, depth).None?
    ensures ParseAll(region, depth).Some? ==>
        WellFormedAll(ParseAll(region, depth).value)
        && RegionSpec(region, depth) == PrintedAll(ParseAll(region, depth).value)
    decreases |region|
  {
    hide Parse, Print, Normalise, WellFormed, PrintedAll;
    if region == [] {
      assert PrintedAll([]) == Some([]) by { NothingPrinted(); }
    } else if Parse(region, depth).Some? {
      ParseSound(region, depth);
      var first := Parse(region, depth).value;
      RegionMeaning(first.rest, depth);
      if ParseAll(first.rest, depth).Some? { PrintedCons(first.node, ParseAll(first.rest, depth).value); }
    }
  }

  lemma NothingPrinted()
    ensures PrintedAll([]) == Some([])
  {
    assert Prints([]) == [];
  }

  lemma {:induction false} UntilEndMeaning(region: Bytes, depth: nat)
    requires 0 < depth <= MAX_TLV_DEPTH + 1
    ensures ParseUntilEnd(region, depth).None? ==> UntilEndSpec(region, depth).None?
    ensures ParseUntilEnd(region, depth).Some? ==>
        var p, t := ParseUntilEnd(region, depth).value, UntilEndSpec(region, depth);
        && WellFormedAll(p.nodes)
        && (PrintedAll(p.nodes).None? <==> t.None?)
        && (t.Some? ==> t.value == TranscodedAll(PrintedAll(p.nodes).value, p.rest))
    decreases |region|
  {
    hide Parse, Print, Normalise, WellFormed, PrintedAll;
    if AtEnd(region) {
      NothingPrinted();
    } else if Parse(region, depth).Some? {
      ParseSound(region, depth);
      var first := Parse(region, depth).value;
      UntilEndMeaning(first.rest, depth);
      if ParseUntilEnd(first.rest, depth).Some? {
        PrintedCons(first.node, ParseUntilEnd(first.rest, depth).value.nodes);
      }
    }
  }

  function Prepend(outs: seq<Bytes>, r: Option<seq<Bytes>>): Option<seq<Bytes>> {
    if r.None? then None else Some(outs + r.value)
  }

  lemma PrependLaws(outs: seq<Bytes>, out: Bytes, r: Option<seq<Bytes>>)
    ensures Prepend([], r) == r && Prepend(outs, Some([])) == Some(outs)
    ensures Prepend(outs, Prepend([out], r)) == Prepend(outs + [out], r)
  {
    if r.Some? {
      assert [] + r.value == r.value && outs + ([out] + r.value) == outs + [out] + r.value;
    }
    assert outs + [] == outs;
  }

  lemma PrependAllLaws(outs: seq<Bytes>, out: Bytes, r: Option<TranscodedAll>, rest: Bytes)
    ensures PrependAll([], r) == r && PrependAll(outs, Some(TranscodedAll([], rest))) == Some(TranscodedAll(outs, rest))
    ensures PrependAll(outs, PrependAll([out], r)) == PrependAll(outs + [out], r)
  {
    if r.Some? {
      assert [] + r.value.outs == r.value.outs && outs + ([out] + r.value.outs) == outs + [out] + r.value.outs;
    }
    assert outs + [] == outs;
  }

  method TranscodeRegion(whole: Bytes, depth: nat) returns (r: Option<seq<Bytes>>)
    ensures r == RegionSpec(whole, depth)
    decreases |whole|, 1
  {
    hide Transcode;
    var children: seq<Bytes>, region := [], whole;
    PrependLaws([], [], RegionSpec(whole, depth));
    while region != []
      invariant |region| <= |whole|
      invariant RegionSpec(whole, depth) == Prepend(children, RegionSpec(region, depth))
      decreases |region|
    {
      var child := TranscodeTlv(region, depth);
      if child.None? { return None; }
      PrependLaws(children, child.value.out, RegionSpec(child.value.rest, depth));
      children, region := children + [child.value.out], child.value.rest;
    }
    PrependLaws(children, [], None);
    return Some(children);
  }

  function PrependAll(outs: seq<Bytes>, r: Option<TranscodedAll>): Option<TranscodedAll> {
    if r.None? then None else Some(TranscodedAll(outs + r.value.outs, r.value.rest))
  }

  method TranscodeUntilEnd(whole: Bytes, depth: nat) returns (r: Option<TranscodedAll>)
    ensures r == UntilEndSpec(whole, depth)
    decreases |whole|, 1
  {
    hide Transcode;
    var children: seq<Bytes>, region := [], whole;
    PrependAllLaws([], [], UntilEndSpec(whole, depth), []);
    while true
      invariant |region| <= |whole|
      invariant UntilEndSpec(whole, depth) == PrependAll(children, UntilEndSpec(region, depth))
      decreases |region|
    {
      if |region| >= 2 && region[0] == 0 && region[1] == 0 {
        PrependAllLaws(children, [], None, region[2..]);
        return Some(TranscodedAll(children, region[2..]));
      }
      var child := TranscodeTlv(region, depth);
      if child.None? { return None; }
      PrependAllLaws(children, child.value.out, UntilEndSpec(child.value.rest, depth), []);
      children, region := children + [child.value.out], child.value.rest;
    }
  }

  /** Transcode one TLV at nesting level `depth`: the re-emitted bytes and the remaining input. */
  method TranscodeTlv(input: Bytes, depth: nat) returns (r: Option<Transcoded>)
    ensures r == Transcode(input, depth)
    decreases |input|, 0
  {
    if depth > MAX_TLV_DEPTH || input == [] || IsHighTag(input[0]) { return None; }
    var id := input[0];
    var l := ReadLen(input[1..]);
    if l.None? { return None; }
    var len, afterLen := l.value.0, l.value.1;
    if !IsConstructed(id) {
      if len.None? || |afterLen| < len.value { return None; }
      var out := EmitDer(id, afterLen[..len.value]);
      return Some(Transcoded(out, afterLen[len.value..]));
    }
    var children: seq<Bytes>, after: Bytes;
    if len.Some? {
      if |afterLen| < len.value { return None; }
      var region := TranscodeRegion(afterLen[..len.value], depth + 1);
      RegionMeaning(afterLen[..len.value], depth + 1);
      if region.None? { return None; }
      children, after := region.value, afterLen[len.value..];
    } else {
      var region := TranscodeUntilEnd(afterLen, depth + 1);
      UntilEndMeaning(afterLen, depth + 1);
      if region.None? { return None; }
      children, after := region.value.outs, region.value.rest;
    }
    ghost var ds := NormaliseAll(Parse(input, depth).value.node.children).value;
    NormaliseAllKeeps(Parse(input, depth).value.node.children);
    var out := EmitNode(id, children, ds);
    if out.None? { return None; }
    return Some(Transcoded(out.value, after));
  }
}
