/** What the transcoder does to a tree, said of the BER tree alone: every tag keeps its class and number, a chunked
    string becomes one primitive of the same tag, and nothing else changes. */
module TagConservation {
  import opened Wrappers
  import opened BerGrammar
  import opened BerParser
  import opened DerNormal
  import opened BerTranscoder
  import opened TranscoderTheorems

  // ----- The rewriting, on BER trees -----

  /** Every node has the tag of an OCTET STRING, primitive or constructed. */
  predicate Strings(ns: seq<Node>) {
    ns == [] || ((ns[0].id == 0x04 || ns[0].id == 0x24) && Strings(ns[1..]))
  }

  /** The constructed node stands for a chunked string: an OCTET STRING, or a context-specific tag over strings only. */
  predicate IsString(id: byte, ns: seq<Node>) {
    id == 0x24 || (id / 64 == 2 && ns != [] && Strings(ns))
  }

  /** A string whose contents, and those of its segments, are below 4 GiB. */
  predicate IsSegment(n: Node)
    decreases n, 1
  {
    match n
    case Primitive(id, _, content) => id == 0x04 && |content| < 0x1_0000_0000
    case Constructed(id, _, children) => id == 0x24 && Segments(children) && |ContentsAll(children)| < 0x1_0000_0000
  }

  predicate Segments(ns: seq<Node>)
    decreases ns, 0
  {
    ns == [] || (IsSegment(ns[0]) && Segments(ns[1..]))
  }

  /** `d` is `n` with each chunked string, at any depth, replaced by one primitive: the constructed bit cleared, the
      contents of its segments in order. Every other node keeps its identifier and its children. */
  predicate Rewrites(n: Node, d: Der)
    decreases n, 1
  {
    match n
    case Primitive(id, _, content) => d == Leaf(id, content)
    case Constructed(id, _, children) =>
      if IsString(id, children) then Segments(children) && d == Leaf(id - 0x20, ContentsAll(children))
      else d.Branch? && d.id == id && RewritesAll(children, d.children)
  }

  predicate RewritesAll(ns: seq<Node>, ds: seq<Der>)
    decreases ns, 0
  {
    |ns| == |ds| && (ns == [] || (Rewrites(ns[0], ds[0]) && RewritesAll(ns[1..], ds[1..])))
  }

  // ----- The normaliser does exactly this -----

  lemma {:induction false} StringsAre(ns: seq<Node>, ds: seq<Der>)
    requires WellFormedAll(ns) && NormaliseAll(ns) == Some(ds)
    ensures AllOctets(ds) <==> Strings(ns)
  {
    if ns == [] {
    } else {
      StringIs(ns[0]);
      StringsAre(ns[1..], NormaliseAll(ns[1..]).value);
      assert ds[1..] == NormaliseAll(ns[1..]).value;
    }
  }

  lemma StringIs(n: Node)
    requires WellFormed(n) && Normalise(n).Some?
    ensures IsOctets(Normalise(n).value) <==> n.id == 0x04 || n.id == 0x24
  {
    hide NormaliseAll, Joinable, Join, AllOctets, Encode;
  }

  lemma {:induction false} SegmentIs(n: Node)
    requires WellFormed(n)
    ensures IsSegment(n) <==> Normalise(n).Some? && Joinable([Normalise(n).value])
    decreases n, 1
  {
    match n
    case Primitive(_, _, _) =>
      assert forall d: Der :: [d][1..] == [];
    case Constructed(id, _, children) =>
      SegmentsAre(children);
      if Normalise(n).Some? {
        StringIs(n);
        var d := Normalise(n).value;
        assert [d][1..] == [] && Joinable([]);
        assert Joinable([d]) <==> IsOctets(d) && |d.content| < TWO_32;
      }
  }

  lemma {:induction false} SegmentsAre(ns: seq<Node>)
    requires WellFormedAll(ns)
    ensures Segments(ns) <==> NormaliseAll(ns).Some? && Joinable(NormaliseAll(ns).value)
    ensures Segments(ns) ==> AllOctets(NormaliseAll(ns).value) && Join(NormaliseAll(ns).value) == ContentsAll(ns)
    decreases ns, 0
  {
    if ns == [] {
    } else {
      SegmentIs(ns[0]);
      SegmentsAre(ns[1..]);
      if NormaliseAll(ns).Some? {
        var ds := NormaliseAll(ns).value;
        assert ds[1..] == NormaliseAll(ns[1..]).value && [ds[0]][1..] == [];
        if Joinable(ds) {
          JoinableIsOctets(ds);
          NormaliseAllKeeps(ns);
          JoinIsContents(ds);
        }
      }
    }
  }

  /** The normaliser yields a tree exactly when the rewriting does, and the same one. */
  lemma {:induction false} NormaliseIff(n: Node, d: Der)
    requires WellFormed(n)
    ensures Normalise(n) == Some(d) <==> Rewrites(n, d)
    decreases n, 1
  {
    match n
    case Primitive(_, _, _) =>
    case Constructed(id, _, children) =>
      SegmentsAre(children);
      if NormaliseAll(children).Some? { StringsAre(children, NormaliseAll(children).value); }
      if IsString(id, children) {
        StringNormalises(n, d);
      } else if d.Branch? {
        NormaliseAllIff(children, d.children);
      }
  }

  lemma StringNormalises(n: Node, d: Der)
    requires WellFormed(n) && n.Constructed? && IsString(n.id, n.children)
    requires Segments(n.children) <==>
             NormaliseAll(n.children).Some? && Joinable(NormaliseAll(n.children).value)
    requires NormaliseAll(n.children).Some? ==> (AllOctets(NormaliseAll(n.children).value) <==> Strings(n.children))
    requires Segments(n.children) ==>
             && AllOctets(NormaliseAll(n.children).value)
             && Join(NormaliseAll(n.children).value) == ContentsAll(n.children)
    ensures Normalise(n) == Some(d) <==> Segments(n.children) && d == Leaf(n.id - 0x20, ContentsAll(n.children))
  {
    hide NormaliseAll, Joinable, Join, AllOctets, Strings, Segments, ContentsAll, Encode, EncodeAll;
  }

  lemma {:induction false} NormaliseAllIff(ns: seq<Node>, ds: seq<Der>)
    requires WellFormedAll(ns)
    ensures NormaliseAll(ns) == Some(ds) <==> RewritesAll(ns, ds)
    decreases ns, 0
  {
    if ns == [] {
    } else if ds == [] {
    } else {
      NormaliseIff(ns[0], ds[0]);
      NormaliseAllIff(ns[1..], ds[1..]);
      assert ds == [ds[0]] + ds[1..];
      if NormaliseAll(ns).Some? {
        var all := NormaliseAll(ns).value;
        assert all[0] == Normalise(ns[0]).value && all[1..] == NormaliseAll(ns[1..]).value;
      }
    }
  }

  // ----- Over octets -----

  ghost predicate RewrittenAs(x: Bytes, t: Node, d: Der, y: Bytes) {
    WellFormed(t) && Encode(t) == x && Height(t) <= 64 && Rewrites(t, d) && y == Print(d)
  }

  /** The transcoder turns `x` into `y` exactly when `x` encodes a tree at most 64 levels deep and `y` is the print of
      its rewriting. */
  lemma TranscoderRewrites(x: Bytes, y: Bytes)
    ensures BerToDer(x) == Some(y) <==> exists t, d :: RewrittenAs(x, t, d, y)
  {
    hide BerToDer, Encode, WellFormed, Height, Normalise, Print, Rewrites;
    TranscoderRefines(x, y);
    if BerToDer(x) == Some(y) {
      var t :| Refines(x, t, y);
      NormaliseIff(t, Normalise(t).value);
      assert RewrittenAs(x, t, Normalise(t).value, y);
    }
    forall t, d | RewrittenAs(x, t, d, y) ensures exists t' :: Refines(x, t', y) {
      NormaliseIff(t, d);
      assert Refines(x, t, y);
    }
  }

  /** The outermost tag keeps its class and number; at most its constructed bit is cleared. */
  lemma TagKept(x: Bytes, y: Bytes)
    requires BerToDer(x) == Some(y)
    ensures x != [] && y != [] && y[0] / 64 == x[0] / 64 && y[0] % 32 == x[0] % 32
    ensures y[0] == x[0] || y[0] == x[0] - 0x20
  {
    hide BerToDer, Height;
    TranscoderRewrites(x, y);
    var t, d :| RewrittenAs(x, t, d, y);
    HeaderRead(t, []);
    assert Encode(t) + [] == Encode(t);
    assert x[0] == t.id && y[0] == d.id;
  }

  /** Every node is a primitive OCTET STRING. */
  predicate AllPrimitiveStrings(ns: seq<Node>) {
    ns == [] || (ns[0].Primitive? && ns[0].id == 0x04 && AllPrimitiveStrings(ns[1..]))
  }

  lemma {:induction false} PrimitiveSegments(ns: seq<Node>)
    requires WellFormedAll(ns) && AllPrimitiveStrings(ns)
    ensures Segments(ns) && Strings(ns) && NoEndOfContents(ns) && HeightAll(ns) <= 1
  {
    if ns == [] {
    } else {
      PrimitiveSegments(ns[1..]);
      Pow256Values();
      assert ns[0].form.Long? ==> Pow256(ns[0].form.octets) <= TWO_32 by {
        if ns[0].form.Long? { Pow256Monotone(ns[0].form.octets, 4); }
      }
    }
  }

  /** A chunked string of any number of segments, definite or indefinite, under the OCTET STRING tag or a
      context-specific one: the constructed bit is cleared, the length is the shortest definite one, and the segments
      follow each other. */
  lemma ChunksJoin(id: byte, form: LenForm, ns: seq<Node>)
    requires WellFormedAll(ns) && AllPrimitiveStrings(ns) && FormFits(form, |EncodeAll(ns)|)
    requires id == 0x24 || (id / 64 == 2 && (id / 32) % 2 == 1 && id % 32 != 31 && ns != [])
    ensures var body := EncodeAll(ns);
            var x: Bytes := [id] + LengthOctets(form, |body|) + body + (if form.Indefinite? then [0, 0] else []);
            BerToDer(x) == Some([id - 0x20] + DerLength(|ContentsAll(ns)|) + ContentsAll(ns))
  {
    hide BerToDer, LengthOctets, EncodeAll, ContentsAll, DerLength, WellFormedAll, Segments, Strings, NoEndOfContents;
    hide HeightAll, FormFits;
    PrimitiveSegments(ns);
    var t := Constructed(id, form, ns);
    var d := Leaf(id - 0x20, ContentsAll(ns));
    assert RewrittenAs(Encode(t), t, d, Print(d));
    TranscoderRewrites(Encode(t), Print(d));
  }

  /** The chunked string 24 05 04 01 AA 04 00 becomes 04 01 AA. */
  lemma ChunkedExample()
    ensures BerToDer([0x24, 5, 4, 1, 0xAA, 4, 0]) == Some([4, 1, 0xAA])
  {
    hide BerToDer;
    var a, b := Primitive(4, Short, [0xAA]), Primitive(4, Short, []);
    var ns := [a, b];
    assert ns[1..] == [b] && [b][1..] == [];
    assert WellFormedAll([]) && WellFormedAll([b]) && WellFormedAll(ns);
    assert AllPrimitiveStrings([]) && AllPrimitiveStrings([b]) && AllPrimitiveStrings(ns);
    assert Encode(a) == [4, 1, 0xAA] && Encode(b) == [4, 0];
    assert EncodeAll([]) == [] && EncodeAll([b]) == [4, 0] + [];
    assert EncodeAll(ns) == [4, 1, 0xAA] + [4, 0];
    assert ContentsAll([]) == [] && ContentsAll([b]) == [] + [];
    assert ContentsAll(ns) == Contents(a) + ContentsAll([b]) && Contents(a) == [0xAA];
    assert |EncodeAll(ns)| == 5 && ContentsAll(ns) == [0xAA];
    ChunksJoin(0x24, Short, ns);
    var x: Bytes := [0x24] + LengthOctets(Short, 5) + EncodeAll(ns) + [];
    assert LengthOctets(Short, 5) == [5] && x == [0x24, 5, 4, 1, 0xAA, 4, 0];
    assert DerLength(1) == [1] && [0x24 - 0x20] + [1] + [0xAA] == [4, 1, 0xAA];
  }
}
