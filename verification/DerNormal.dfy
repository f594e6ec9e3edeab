/** The normaliser from BER trees to DER trees, and the DER printer: definite minimal lengths and primitive
    octet strings (ITU-T X.690, sections 10.1 and 10.2). */
module DerNormal {
  import opened Wrappers
  import opened BerGrammar

  datatype Der = Leaf(id: byte, content: Bytes) | Branch(id: byte, children: seq<Der>)

  const OCTET_STRING: byte := 0x04
  const CONSTRUCTED_OCTET_STRING: byte := 0x24

  // ----- Printing -----

  /** Big-endian octets without a leading zero; empty for 0. */
  function MinimalOctets(v: nat): (r: Bytes)
    ensures v > 0 ==> r != [] && r[0] != 0
  {
    if v == 0 then [] else MinimalOctets(v / 256) + [v % 256]
  }

  function DerLength(len: nat): (r: Bytes)
    ensures |r| > 0
  {
    if len < 0x80 then [len] else [LongPrefix(|MinimalOctets(len)|)] + MinimalOctets(len)
  }

  /** The first octet of a long form; a machine-sized length never takes more than eight octets. */
  function LongPrefix(octets: nat): byte {
    0x80 + if octets < 0x80 then octets else 0x7f
  }

  function Tlv(id: byte, content: Bytes): (r: Bytes)
    ensures |r| >= 2 && r[0] == id
  {
    [id] + DerLength(|content|) + content
  }

  function Print(d: Der): (r: Bytes)
    ensures |r| >= 2 && r[0] == d.id
    decreases d, 1
  {
    match d
    case Leaf(id, content) => Tlv(id, content)
    case Branch(id, children) => Tlv(id, PrintAll(children))
  }

  function PrintAll(ds: seq<Der>): (r: Bytes)
    decreases ds, 0
  {
    if ds == [] then [] else Print(ds[0]) + PrintAll(ds[1..])
  }

  // ----- Normalising -----

  predicate IsOctets(d: Der) {
    d.Leaf? && d.id == OCTET_STRING
  }

  predicate AllOctets(ds: seq<Der>) {
    ds == [] || (IsOctets(ds[0]) && AllOctets(ds[1..]))
  }

  /** Every segment is an octet string whose length a four-octet long form can spell. */
  predicate Joinable(ds: seq<Der>) {
    ds == [] || (IsOctets(ds[0]) && |ds[0].content| < TWO_32 && Joinable(ds[1..]))
  }

  function Join(ds: seq<Der>): (r: Bytes)
    requires AllOctets(ds)
  {
    if ds == [] then [] else ds[0].content + Join(ds[1..])
  }

  /** A constructed node that stands for a chunked string: a universal OCTET STRING, or a context-specific tag
      over a non-empty run of octet strings. */
  predicate IsChunked(id: byte, ds: seq<Der>) {
    id == CONSTRUCTED_OCTET_STRING || (IsContextSpecific(id) && ds != [] && AllOctets(ds))
  }

  lemma {:induction false} JoinableIsOctets(ds: seq<Der>)
    requires Joinable(ds)
    ensures AllOctets(ds)
  {
    if ds == [] {
    } else {
      JoinableIsOctets(ds[1..]);
    }
  }

  /** Collapse a chunked string into one primitive, or keep the node. */
  function Combine(id: byte, ds: seq<Der>): (r: Option<Der>)
    requires IsConstructed(id)
  {
    if !IsChunked(id, ds) then Some(Branch(id, ds))
    else if !Joinable(ds) then None
    else
      JoinableIsOctets(ds);
      Some(Leaf(if id == CONSTRUCTED_OCTET_STRING then OCTET_STRING else id - 0x20, Join(ds)))
  }

  /** The DER tree of a BER node, when every chunked string is made of octet strings. */
  function Normalise(n: Node): (r: Option<Der>)
    requires WellFormed(n)
    decreases n, 1
  {
    match n
    case Primitive(id, _, content) => Some(Leaf(id, content))
    case Constructed(id, _, children) =>
      var ds := NormaliseAll(children);
      if ds.None? then None else Combine(id, ds.value)
  }

  function NormaliseAll(ns: seq<Node>): (r: Option<seq<Der>>)
    requires WellFormedAll(ns)
    ensures r.Some? ==> |r.value| == |ns|
    decreases ns, 0
  {
    if ns == [] then Some([])
    else
      var first, others := Normalise(ns[0]), NormaliseAll(ns[1..]);
      if first.None? || others.None? then None else Some([first.value] + others.value)
  }

  // ----- Normal form -----

  /** Legal identifiers and no chunked string left anywhere. */
  predicate NormalForm(d: Der)
    decreases d, 1
  {
    && !IsHighTag(d.id)
    && match d
       case Leaf(id, _) => !IsConstructed(id)
       case Branch(id, children) => IsConstructed(id) && !IsChunked(id, children) && NormalFormAll(children)
  }

  predicate NormalFormAll(ds: seq<Der>)
    decreases ds, 0
  {
    ds == [] || (NormalForm(ds[0]) && NormalFormAll(ds[1..]))
  }

  /** Legal identifiers and no constructed OCTET STRING: what DER itself asks of the shape of a tree. */
  predicate Legal(d: Der)
    decreases d, 1
  {
    && !IsHighTag(d.id)
    && match d
       case Leaf(id, _) => !IsConstructed(id)
       case Branch(id, children) => IsConstructed(id) && id != CONSTRUCTED_OCTET_STRING && LegalAll(children)
  }

  predicate LegalAll(ds: seq<Der>)
    decreases ds, 0
  {
    ds == [] || (Legal(ds[0]) && LegalAll(ds[1..]))
  }

  lemma {:induction false} NormalIsLegal(d: Der)
    requires NormalForm(d)
    ensures Legal(d)
    decreases d, 1
  {
    match d
    case Leaf(_, _) =>
    case Branch(_, children) => NormalIsLegalAll(children);
  }

  lemma {:induction false} NormalIsLegalAll(ds: seq<Der>)
    requires NormalFormAll(ds)
    ensures LegalAll(ds)
    decreases ds, 0
  {
    if ds == [] {
    } else {
      NormalIsLegal(ds[0]);
      NormalIsLegalAll(ds[1..]);
    }
  }

  function DerHeight(d: Der): (r: nat)
    decreases d, 1
  {
    match d
    case Leaf(_, _) => 0
    case Branch(_, children) => DerHeightAll(children)
  }

  function DerHeightAll(ds: seq<Der>): (r: nat)
    decreases ds, 0
  {
    if ds == [] then 0
    else var first, rest := 1 + DerHeight(ds[0]), DerHeightAll(ds[1..]); if first > rest then first else rest
  }

  function DerContents(d: Der): (r: Bytes)
    decreases d, 1
  {
    match d
    case Leaf(_, content) => content
    case Branch(_, children) => DerContentsAll(children)
  }

  function DerContentsAll(ds: seq<Der>): (r: Bytes)
    decreases ds, 0
  {
    if ds == [] then [] else DerContents(ds[0]) + DerContentsAll(ds[1..])
  }

  lemma {:induction false} JoinIsContents(ds: seq<Der>)
    requires AllOctets(ds)
    ensures Join(ds) == DerContentsAll(ds)
  {
    if ds == [] {
    } else {
      JoinIsContents(ds[1..]);
    }
  }

  /** Normalising yields a normal form, keeps every content byte in order, and never deepens the tree. */
  lemma {:induction false} NormaliseKeeps(n: Node)
    requires WellFormed(n) && Normalise(n).Some?
    ensures var d := Normalise(n).value;
            NormalForm(d) && DerContents(d) == Contents(n) && DerHeight(d) <= Height(n)
    decreases n, 1
  {
    if n.Constructed? {
      NormaliseAllKeeps(n.children);
      var ds := NormaliseAll(n.children).value;
      if IsChunked(n.id, ds) {
        JoinableIsOctets(ds);
        JoinIsContents(ds);
      }
    }
  }

  lemma {:induction false} NormaliseAllKeeps(ns: seq<Node>)
    requires WellFormedAll(ns) && NormaliseAll(ns).Some?
    ensures var ds := NormaliseAll(ns).value;
            NormalFormAll(ds) && DerContentsAll(ds) == ContentsAll(ns) && DerHeightAll(ds) <= HeightAll(ns)
    decreases ns, 0
  {
    if ns == [] {
    } else {
      NormaliseKeeps(ns[0]);
      NormaliseAllKeeps(ns[1..]);
    }
  }
}
