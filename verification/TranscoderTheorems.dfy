/** What the transcoder guarantees, stated over byte strings and the grammar alone. */
module TranscoderTheorems {
  import opened Wrappers
  import opened BerGrammar
  import opened BerParser
  import opened DerNormal
  import opened DerEmbedding
  import opened BerTranscoder

  function BerToDer(input: Bytes): (r: Option<Bytes>) {
    var t := Transcode(input, 0);
    if t.None? || t.value.rest != [] then None else Some(t.value.out)
  }

  method BerToDerCode(input: Bytes) returns (r: Option<Bytes>)
    ensures r == BerToDer(input)
  {
    var t := TranscodeTlv(input, 0);
    if t.None? || t.value.rest != [] { return None; }
    return Some(t.value.out);
  }

  /** `x` is an encoding of the well-formed tree `t`, nested within the bound. */
  ghost predicate Denotes(x: Bytes, t: Node) {
    WellFormed(t) && Encode(t) == x && Height(t) <= MAX_TLV_DEPTH
  }

  /** `x` denotes a tree whose chunked strings can be collapsed, and `y` is that tree as DER. */
  ghost predicate Refines(x: Bytes, t: Node, y: Bytes) {
    Denotes(x, t) && Normalise(t).Some? && y == Print(Normalise(t).value)
  }

  /** Refinement: the transcoder turns `x` into `y` exactly when `x` is a BER encoding within the depth bound whose
      chunked strings are made of octet strings, and `y` is its normal form printed as DER. */
  lemma TranscoderRefines(x: Bytes, y: Bytes)
    ensures BerToDer(x) == Some(y) <==> exists t :: Refines(x, t, y)
  {
    hide Parse, Encode, WellFormed, Height, Normalise, Print;
    if BerToDer(x) == Some(y) {
      var t := TreeOf(x, y);
    }
    forall t | Refines(x, t, y) ensures BerToDer(x) == Some(y) {
      ParseIffEncoded(x, 0, t, []);
      assert Encode(t) + [] == x;
    }
  }

  /** The tree behind a successful transcoding, with what its DER form keeps. */
  lemma TreeOf(x: Bytes, y: Bytes) returns (t: Node)
    requires BerToDer(x) == Some(y)
    ensures Refines(x, t, y)
    ensures var d := Normalise(t).value;
            NormalForm(d) && DerContents(d) == Contents(t) && DerHeight(d) <= MAX_TLV_DEPTH
  {
    hide Parse, Encode, Print;
    ParseSound(x, 0);
    t := Parse(x, 0).value.node;
    assert Encode(t) + [] == Encode(t);
    NormaliseKeeps(t);
  }

  // ----- Idempotence and identity -----

  /** `x` is the DER print of a normal form with readable lengths, nested within the bound. */
  ghost predicate NormalPrint(x: Bytes, d: Der) {
    NormalForm(d) && |Body(d)| < TWO_32 && DerHeight(d) <= MAX_TLV_DEPTH && Print(d) == x
  }

  lemma NormalPrintIsFixed(x: Bytes, d: Der)
    requires NormalPrint(x, d)
    ensures Refines(x, AsBer(d), x) && BerToDer(x) == Some(x)
  {
    hide Normalise, Encode, Height, WellFormed, BerToDer;
    EmbedDer(d);
    TranscoderRefines(x, x);
  }

  /** A tree with an encoding has a first length that reads back; a DER print whose contents overflow a four-octet
      length does not. */
  lemma PrintedBodyFits(t: Node, d: Der)
    requires WellFormed(t) && Encode(t) == Print(d)
    ensures |Body(d)| < TWO_32
  {
    hide Encode, Print, ReadLength;
    HeaderRead(t, []);
    assert Encode(t) + [] == Encode(t);
    assert Print(d)[1..] == DerLength(|Body(d)|) + Body(d) by { PrintHeader(d); }
    ReadDerLength(Body(d));
  }

  lemma PrintHeader(d: Der)
    ensures Print(d)[1..] == DerLength(|Body(d)|) + Body(d)
  {
  }

  /** Idempotence: what the transcoder produced, below 4 GiB, it leaves alone. */
  lemma TranscoderIdempotent(x: Bytes, y: Bytes)
    requires BerToDer(x) == Some(y) && |y| < TWO_32
    ensures BerToDer(y) == Some(y)
  {
    hide BerToDer;
    var t := TreeOf(x, y);
    var d := Normalise(t).value;
    assert |Body(d)| < |Print(d)|;
    NormalPrintIsFixed(y, d);
  }

  /** The transcoder is the identity exactly on the prints of normal forms. */
  lemma IdentityIffNormal(x: Bytes)
    ensures BerToDer(x) == Some(x) <==> exists d :: NormalPrint(x, d)
  {
    hide BerToDer;
    if BerToDer(x) == Some(x) {
      var t := TreeOf(x, x);
      PrintedBodyFits(t, Normalise(t).value);
      assert NormalPrint(x, Normalise(t).value);
    }
    forall d | NormalPrint(x, d) ensures BerToDer(x) == Some(x) {
      NormalPrintIsFixed(x, d);
    }
  }

  /** `x` is DER: the print of a legal tree with readable lengths, nested within the bound. */
  ghost predicate StrictDer(x: Bytes, d: Der) {
    Legal(d) && |Body(d)| < TWO_32 && DerHeight(d) <= MAX_TLV_DEPTH && Print(d) == x
  }

  /** Two readings of one DER string are the same tree. */
  lemma StrictDerUnique(x: Bytes, a: Der, b: Der)
    requires StrictDer(x, a) && StrictDer(x, b)
    ensures a == b
  {
    hide Encode, Print, WellFormed, Legal;
    EmbedLegal(a);
    EmbedLegal(b);
    EncodeUnique(AsBer(a), AsBer(b), [], []);
    AsBerInjective(a, b);
  }

  /** On DER input the transcoder changes nothing exactly when the tree is a normal form: when no context-specific
      constructed value holds only octet strings. */
  lemma StrictDerFixedIff(x: Bytes, d: Der)
    requires StrictDer(x, d)
    ensures BerToDer(x) == Some(x) <==> NormalForm(d)
  {
    hide BerToDer, Print, Legal, NormalForm;
    IdentityIffNormal(x);
    if BerToDer(x) == Some(x) {
      var n :| NormalPrint(x, n);
      NormalIsLegal(n);
      StrictDerUnique(x, d, n);
    }
    if NormalForm(d) { assert NormalPrint(x, d); }
  }

  /** DER that the transcoder rewrites: an explicit context-specific wrapper around an empty octet string becomes a
      primitive. */
  lemma StrictDerRewritten()
    ensures var x: Bytes, d := [0xA0, 2, 4, 0], Branch(0xA0, [Leaf(OCTET_STRING, [])]);
            StrictDer(x, d) && !NormalForm(d) && BerToDer(x) == Some([0x80, 0])
  {
    hide Print, Legal, NormalForm, DerHeight, Encode, WellFormed, Normalise, BerToDer, Height;
    var leaf := Leaf(OCTET_STRING, []);
    var d := Branch(0xA0, [leaf]);
    WrapperIsDer(leaf);
    EmbedLegal(d);
    SegmentCollapses(leaf);
    PrintEmpty(0x80);
    assert Refines(Print(d), AsBer(d), [0x80, 0]);
    TranscoderRefines(Print(d), [0x80, 0]);
  }

  lemma PrintEmpty(id: byte)
    ensures Print(Leaf(id, [])) == [id, 0]
  {
  }

  lemma WrapperIsDer(leaf: Der)
    requires leaf == Leaf(OCTET_STRING, [])
    ensures StrictDer([0xA0, 2, 4, 0], Branch(0xA0, [leaf])) && !NormalForm(Branch(0xA0, [leaf]))
  {
    assert [leaf][1..] == [];
    assert LegalAll([]) && Legal(leaf);
    assert PrintAll([leaf]) == Print(leaf) + [] == [4, 0];
    assert DerHeightAll([]) == 0 && DerHeightAll([leaf]) == 1;
    assert AllOctets([]) && AllOctets([leaf]);
    assert Print(Branch(0xA0, [leaf])) == [0xA0, 2] + [4, 0];
  }

  lemma SegmentCollapses(leaf: Der)
    requires leaf == Leaf(OCTET_STRING, [])
    ensures var n := AsBer(Branch(0xA0, [leaf])); WellFormed(n) ==> Normalise(n) == Some(Leaf(0x80, []))
  {
    hide Encode, Print;
    var n := AsBer(Branch(0xA0, [leaf]));
    if WellFormed(n) {
      assert [leaf][1..] == [] && [AsBer(leaf)][1..] == [];
      assert AsBerAll([leaf]) == [AsBer(leaf)] + AsBerAll([]) == [AsBer(leaf)];
      assert NormaliseAll([]) == Some([]);
      assert NormaliseAll([AsBer(leaf)]) == Some([leaf] + []);
      assert AllOctets([]) && Joinable([]) && Join([]) == [];
      assert AllOctets([leaf]) && Joinable([leaf]) && Join([leaf]) == [] + [];
    }
  }

  // ----- Unique decoding -----

  /** BER is uniquely decodable: one byte string starts with at most one encoding. */
  lemma {:induction false} EncodeUnique(a: Node, b: Node, ra: Bytes, rb: Bytes)
    requires WellFormed(a) && WellFormed(b) && Encode(a) + ra == Encode(b) + rb
    ensures a == b && ra == rb
    decreases a, 1
  {
    hide Encode, ReadLength;
    HeaderRead(a, ra);
    HeaderRead(b, rb);
    var ta, tb := Trailer(a) + ra, Trailer(b) + rb;
    assert a.form == b.form && Inner(a) + ta == Inner(b) + tb;
    if a.form.Indefinite? {
      assert Inner(a) + ta == EncodeAll(a.children) + [0, 0] + ra;
      assert Inner(b) + tb == EncodeAll(b.children) + [0, 0] + rb;
      ChildrenUniqueToEnd(a.children, b.children, ra, rb);
    } else {
      assert ta == ra && tb == rb;
      SplitUnique(Inner(a), ra, Inner(b), rb);
      if a.Constructed? { ChildrenUnique(a.children, b.children); }
    }
  }

  lemma SplitUnique(a: Bytes, ra: Bytes, b: Bytes, rb: Bytes)
    requires |a| == |b| && a + ra == b + rb
    ensures a == b && ra == rb
  {
    assert a == (a + ra)[..|a|] && b == (b + rb)[..|b|];
    assert ra == (a + ra)[|a|..] && rb == (b + rb)[|b|..];
  }

  lemma {:induction false} ChildrenUnique(a: seq<Node>, b: seq<Node>)
    requires WellFormedAll(a) && WellFormedAll(b) && EncodeAll(a) == EncodeAll(b)
    ensures a == b
    decreases a, 0
  {
    if a != [] && b != [] {
      EncodeUnique(a[0], b[0], EncodeAll(a[1..]), EncodeAll(b[1..]));
      ChildrenUnique(a[1..], b[1..]);
      assert a == [a[0]] + a[1..] && b == [b[0]] + b[1..];
    }
  }

  lemma {:induction false} ChildrenUniqueToEnd(a: seq<Node>, b: seq<Node>, ra: Bytes, rb: Bytes)
    requires WellFormedAll(a) && WellFormedAll(b) && NoEndOfContents(a) && NoEndOfContents(b)
    requires EncodeAll(a) + [0, 0] + ra == EncodeAll(b) + [0, 0] + rb
    ensures a == b && ra == rb
    decreases a, 0
  {
    hide Encode, WellFormed;
    var x := EncodeAll(a) + [0, 0] + ra;
    StartsAtEnd(a, ra);
    StartsAtEnd(b, rb);
    if a == [] {
      assert ra == x[2..] == rb;
    } else {
      var xa, xb := EncodeAll(a[1..]) + [0, 0] + ra, EncodeAll(b[1..]) + [0, 0] + rb;
      assert x == Encode(a[0]) + xa && x == Encode(b[0]) + xb;
      EncodeUnique(a[0], b[0], xa, xb);
      ChildrenUniqueToEnd(a[1..], b[1..], ra, rb);
      assert a == [a[0]] + a[1..] && b == [b[0]] + b[1..];
    }
  }

  lemma StartsAtEnd(ns: seq<Node>, rest: Bytes)
    requires WellFormedAll(ns) && NoEndOfContents(ns)
    ensures AtEnd(EncodeAll(ns) + [0, 0] + rest) <==> ns == []
  {
    hide Encode, WellFormed;
    if ns != [] {
      var others := EncodeAll(ns[1..]) + [0, 0] + rest;
      assert EncodeAll(ns) + [0, 0] + rest == Encode(ns[0]) + others;
      NotAtEnd(ns[0], others);
    }
  }

  /** Nesting beyond the bound is refused, whatever the length forms. */
  lemma DeepNestingRefused(t: Node)
    requires WellFormed(t) && Height(t) > 64
    ensures BerToDer(Encode(t)).None?
  {
    hide BerToDer, Encode;
    var r := BerToDer(Encode(t));
    if r.Some? {
      var t' := TreeOf(Encode(t), r.value);
      EncodeUnique(t, t', [], []);
    }
  }

  // ----- Conservation, framing, size -----

  /** Conservation: the bytes carried by primitives are the same, in order, before and after. */
  lemma ContentsConserved(x: Bytes, y: Bytes, before: Node, after: Node)
    requires BerToDer(x) == Some(y) && Denotes(x, before) && Denotes(y, after)
    ensures Contents(before) == Contents(after)
  {
    hide BerToDer, Encode, Print, Contents, Normalise, WellFormed, Height;
    var t := TreeOf(x, y);
    EncodeUnique(before, t, [], []);
    var d := Normalise(t).value;
    PrintedBodyFits(after, d);
    EmbedDer(d);
    EncodeUnique(after, AsBer(d), [], []);
    NormaliseKeeps(AsBer(d));
  }

  /** Framing: bytes after a TLV do not affect its transcoding and are handed back untouched. */
  lemma TranscodeFrames(a: Bytes, more: Bytes, depth: nat)
    requires Transcode(a, depth).Some?
    ensures var t := Transcode(a, depth).value;
            Transcode(a + more, depth) == Some(Transcoded(t.out, t.rest + more))
  {
    hide Parse, Encode, WellFormed, Height, Normalise, Print;
    ParseSound(a, depth);
    var p := Parse(a, depth).value;
    assert a + more == Encode(p.node) + (p.rest + more);
    ParseIffEncoded(a + more, depth, p.node, p.rest + more);
  }

  /** Size: up to 65539 input bytes, output plus remainder never exceed the input. */
  lemma TranscodeShortens(input: Bytes, depth: nat)
    requires Transcode(input, depth).Some? && |input| <= SHORT_INPUT
    ensures var t := Transcode(input, depth).value; |t.out| + |t.rest| <= |input|
  {
    hide Parse, Encode, WellFormed, Height, Normalise, Print;
    ParseSound(input, depth);
    PrintShortens(Parse(input, depth).value.node);
  }

  /** One byte more and the bound fails. */
  lemma ShorteningIsTight()
    ensures exists x, y :: |x| == SHORT_INPUT + 1 && BerToDer(x) == Some(y) && |y| > |x|
  {
    hide BerToDer, Encode, WellFormed, Normalise, Print;
    BoundIsTight();
    var t := Longest();
    var x, y := Encode(t), Print(Normalise(t).value);
    assert Refines(x, t, y);
    TranscoderRefines(x, y);
    assert |x| == SHORT_INPUT + 1 && BerToDer(x) == Some(y) && |y| > |x|;
  }
}
