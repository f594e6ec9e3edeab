/** DER is a part of BER: a normal form printed as DER is its own BER encoding and its own normal form.
    Printing never lengthens a short enough encoding. */
module DerEmbedding {
  import opened Wrappers
  import opened BerGrammar
  import opened DerNormal

  // ----- Minimal lengths -----

  lemma {:induction false} MinimalOctetsSpell(v: nat)
    ensures BigEndian(v, |MinimalOctets(v)|) == MinimalOctets(v) && v < Pow256(|MinimalOctets(v)|)
  {
    if v == 0 {
    } else {
      MinimalOctetsSpell(v / 256);
    }
  }

  lemma {:induction false} MinimalOctetsBound(v: nat, k: nat)
    requires v < Pow256(k)
    ensures |MinimalOctets(v)| <= k
  {
    if v == 0 {
    } else {
      MinimalOctetsBound(v / 256, k - 1);
    }
  }

  lemma {:induction false} MinimalOctetsMonotone(v: nat, w: nat)
    requires v <= w
    ensures |MinimalOctets(v)| <= |MinimalOctets(w)|
  {
    if v == 0 {
    } else {
      MinimalOctetsMonotone(v / 256, w / 256);
    }
  }

  lemma DerLengthMonotone(v: nat, w: nat)
    requires v <= w
    ensures |DerLength(v)| <= |DerLength(w)|
  {
    MinimalOctetsMonotone(v, w);
  }

  /** No definite form spells a length in fewer octets than DER does. */
  lemma DerLengthMinimal(form: LenForm, len: nat)
    requires !form.Indefinite? && FormFits(form, len)
    ensures |DerLength(len)| <= |LengthOctets(form, len)|
  {
    if form.Long? { MinimalOctetsBound(len, form.octets); }
  }

  function MinimalForm(len: nat): LenForm {
    if len < 0x80 then Short else Long(|MinimalOctets(len)|)
  }

  lemma MinimalFormIsDer(len: nat)
    requires len < TWO_32
    ensures FormFits(MinimalForm(len), len) && LengthOctets(MinimalForm(len), len) == DerLength(len)
  {
    if len >= 0x80 {
      Pow256Values();
      MinimalOctetsBound(len, 4);
      MinimalOctetsSpell(len);
    }
  }

  // ----- DER trees as BER trees -----

  function AsBer(d: Der): (r: Node)
    decreases d, 1
  {
    match d
    case Leaf(id, content) => Primitive(id, MinimalForm(|content|), content)
    case Branch(id, children) => Constructed(id, MinimalForm(|PrintAll(children)|), AsBerAll(children))
  }

  function AsBerAll(ds: seq<Der>): (r: seq<Node>)
    decreases ds, 0
  {
    if ds == [] then [] else [AsBer(ds[0])] + AsBerAll(ds[1..])
  }

  function Body(d: Der): Bytes {
    match d
    case Leaf(_, content) => content
    case Branch(_, children) => PrintAll(children)
  }

  /** A legal tree whose contents fit a four-octet length is, printed, its own BER encoding. */
  lemma {:induction false} EmbedLegal(d: Der)
    requires Legal(d) && |Body(d)| < TWO_32
    ensures var n := AsBer(d); WellFormed(n) && Encode(n) == Print(d) && Height(n) == DerHeight(d)
    decreases d, 1
  {
    MinimalFormIsDer(|Body(d)|);
    match d
    case Leaf(_, _) =>
    case Branch(_, children) =>
      EmbedLegalAll(children);
      assert Encode(AsBer(d)) == Tlv(d.id, PrintAll(children)) + [];
  }

  lemma {:induction false} EmbedLegalAll(ds: seq<Der>)
    requires LegalAll(ds) && |PrintAll(ds)| < TWO_32
    ensures var ns := AsBerAll(ds);
            WellFormedAll(ns) && EncodeAll(ns) == PrintAll(ds) && HeightAll(ns) == DerHeightAll(ds)
    decreases ds, 0
  {
    if ds == [] {
    } else {
      assert |Body(ds[0])| <= |Print(ds[0])|;
      EmbedLegal(ds[0]);
      EmbedLegalAll(ds[1..]);
      assert AsBerAll(ds)[1..] == AsBerAll(ds[1..]);
    }
  }

  /** A normal form so read normalises back to itself. */
  lemma {:induction false} EmbedDer(d: Der)
    requires NormalForm(d) && |Body(d)| < TWO_32
    ensures var n := AsBer(d);
            WellFormed(n) && Encode(n) == Print(d) && Height(n) == DerHeight(d) && Normalise(n) == Some(d)
    decreases d, 1
  {
    hide Encode, Print;
    NormalIsLegal(d);
    EmbedLegal(d);
    match d
    case Leaf(_, _) =>
    case Branch(_, children) => EmbedDerAll(children);
  }

  lemma {:induction false} EmbedDerAll(ds: seq<Der>)
    requires NormalFormAll(ds) && |PrintAll(ds)| < TWO_32
    ensures WellFormedAll(AsBerAll(ds)) && NormaliseAll(AsBerAll(ds)) == Some(ds)
    decreases ds, 0
  {
    hide Encode;
    if ds == [] {
    } else {
      assert |Body(ds[0])| <= |Print(ds[0])|;
      EmbedDer(ds[0]);
      EmbedDerAll(ds[1..]);
      assert AsBerAll(ds)[1..] == AsBerAll(ds[1..]);
      assert [ds[0]] + ds[1..] == ds;
    }
  }

  /** Embedding loses nothing. */
  lemma {:induction false} AsBerInjective(a: Der, b: Der)
    requires AsBer(a) == AsBer(b)
    ensures a == b
    decreases a, 1
  {
    match a
    case Leaf(_, _) =>
    case Branch(_, children) => AsBerAllInjective(children, b.children);
  }

  lemma {:induction false} AsBerAllInjective(a: seq<Der>, b: seq<Der>)
    requires AsBerAll(a) == AsBerAll(b)
    ensures a == b
    decreases a, 0
  {
    hide MinimalForm;
    if a == [] {
      assert b != [] ==> AsBerAll(b) != [];
    } else {
      assert a == [a[0]] + a[1..] && b == [b[0]] + b[1..];
      assert AsBerAll(a)[1..] == AsBerAll(a[1..]) && AsBerAll(b)[1..] == AsBerAll(b[1..]);
      AsBerInjective(a[0], b[0]);
      AsBerAllInjective(a[1..], b[1..]);
    }
  }

  // ----- Size -----

  /** The printed form of a chunked string is no longer than its printed segments. */
  lemma {:induction false} JoinShortens(ds: seq<Der>)
    requires AllOctets(ds)
    ensures |Join(ds)| <= |PrintAll(ds)|
  {
    if ds == [] {
    } else {
      JoinShortens(ds[1..]);
    }
  }

  const SHORT_INPUT: nat := 65539

  /** Up to 65539 encoded bytes, normalising never lengthens. */
  lemma {:induction false} PrintShortens(n: Node)
    requires WellFormed(n) && Normalise(n).Some? && |Encode(n)| <= SHORT_INPUT
    ensures |Print(Normalise(n).value)| <= |Encode(n)|
    decreases n, 1
  {
    if n.Primitive? {
      DerLengthMinimal(n.form, |n.content|);
    } else {
      PrintAllShortens(n.children);
      var ds, body := NormaliseAll(n.children).value, EncodeAll(n.children);
      var d := Normalise(n).value;
      if IsChunked(n.id, ds) {
        JoinableIsOctets(ds);
        JoinShortens(ds);
      }
      assert |Body(d)| <= |body|;
      DerLengthMonotone(|Body(d)|, |body|);
      if n.form.Indefinite? {
        Pow256Values();
        MinimalOctetsBound(|body|, 2);
      } else {
        DerLengthMinimal(n.form, |body|);
      }
    }
  }

  lemma {:induction false} PrintAllShortens(ns: seq<Node>)
    requires WellFormedAll(ns) && NormaliseAll(ns).Some? && |EncodeAll(ns)| <= SHORT_INPUT
    ensures |PrintAll(NormaliseAll(ns).value)| <= |EncodeAll(ns)|
    decreases ns, 0
  {
    if ns == [] {
    } else {
      PrintShortens(ns[0]);
      PrintAllShortens(ns[1..]);
    }
  }

  /** The bound is tight: this tree of 65540 encoded bytes prints to 65541. */
  function Longest(): Node {
    Constructed(0x30, Indefinite, [Primitive(0x02, Long(2), seq(65532, _ => 0))])
  }

  lemma TwoOctets(v: nat)
    requires 0x100 <= v < 0x1_0000
    ensures |MinimalOctets(v)| == 2
  {
    hide Pow256;
    Pow256Values();
    MinimalOctetsBound(v, 2);
    assert MinimalOctets(v) == MinimalOctets(v / 256) + [v % 256] && v / 256 > 0;
  }

  lemma ThreeOctets(v: nat)
    requires 0x1_0000 <= v < 0x100_0000
    ensures |MinimalOctets(v)| == 3
  {
    TwoOctets(v / 256);
  }

  lemma LongestChild(zeros: Bytes)
    requires |zeros| == 65532
    ensures var child := Primitive(0x02, Long(2), zeros);
            WellFormed(child) && |Encode(child)| == 65536 && Normalise(child) == Some(Leaf(0x02, zeros))
  {
    Pow256Values();
  }

  /** A constructed node of indefinite length around one primitive. */
  lemma {:induction false} Wrapped(child: Node, leaf: Der)
    requires WellFormed(child) && !IsEndOfContents(child) && Normalise(child) == Some(leaf)
    ensures var n := Constructed(0x30, Indefinite, [child]);
            && WellFormed(n) && |Encode(n)| == |Encode(child)| + 4
            && Normalise(n) == Some(Branch(0x30, [leaf])) && Print(Branch(0x30, [leaf])) == Tlv(0x30, Print(leaf))
  {
    hide DerLength;
    assert [child][1..] == [] && [leaf] + [] == [leaf] && [leaf][1..] == [];
    assert EncodeAll([child]) == Encode(child) + [] && PrintAll([leaf]) == Print(leaf) + [];
    assert NormaliseAll([]) == Some([]);
    assert NoEndOfContents([child]);
    assert WellFormedAll([child]) && NormaliseAll([child]) == Some([leaf] + []);
  }

  lemma BoundIsTight()
    ensures WellFormed(Longest()) && Normalise(Longest()).Some?
    ensures |Encode(Longest())| == SHORT_INPUT + 1
    ensures |Print(Normalise(Longest()).value)| == SHORT_INPUT + 2
  {
    hide Encode, Normalise, WellFormed, MinimalOctets;
    var zeros: Bytes := seq(65532, _ => 0);
    LongestChild(zeros);
    Wrapped(Primitive(0x02, Long(2), zeros), Leaf(0x02, zeros));
    TwoOctets(65532);
    ThreeOctets(65536);
    assert |Print(Leaf(0x02, zeros))| == 65536;
  }
}
