/** BER as a grammar: a concrete syntax tree with the length form of every node, and its one encoding
    (ITU-T X.690, sections 8.1.2 to 8.1.5). */
module BerGrammar {
  import opened Wrappers

  const MAX_TLV_DEPTH: nat := 64

  /** Sections 8.1.3.4 to 8.1.3.6: short form, long form with a number of length octets, indefinite form. */
  datatype LenForm = Short | Long(octets: nat) | Indefinite

  datatype Node =
    | Primitive(id: byte, form: LenForm, content: Bytes)
    | Constructed(id: byte, form: LenForm, children: seq<Node>)

  predicate IsConstructed(id: byte) { (id / 32) % 2 == 1 }

  predicate IsContextSpecific(id: byte) { id / 64 == 2 }

  predicate IsHighTag(id: byte) { id % 32 == 31 }

  // ----- Length octets -----

  function Pow256(n: nat): (r: nat)
    ensures r > 0
  {
    if n == 0 then 1 else 256 * Pow256(n - 1)
  }

  const TWO_32: nat := 0x1_0000_0000

  lemma Pow256Values()
    ensures Pow256(1) == 256 && Pow256(2) == 0x1_0000 && Pow256(3) == 0x100_0000 && Pow256(4) == TWO_32
  {
    assert Pow256(0) == 1 && Pow256(1) == 256 && Pow256(2) == 0x1_0000 && Pow256(3) == 0x100_0000;
  }

  /** `v` in `n` octets, most significant first. */
  function BigEndian(v: nat, n: nat): (r: Bytes)
    ensures |r| == n
  {
    if n == 0 then [] else BigEndian(v / 256, n - 1) + [v % 256]
  }

  function FromBigEndian(b: Bytes): (r: nat)
    ensures r < Pow256(|b|)
  {
    if b == [] then 0 else 256 * FromBigEndian(b[..|b| - 1]) + b[|b| - 1]
  }

  lemma {:induction false} FromToBigEndian(v: nat, n: nat)
    requires v < Pow256(n)
    ensures FromBigEndian(BigEndian(v, n)) == v
  {
    if n == 0 {
    } else {
      FromToBigEndian(v / 256, n - 1);
      assert BigEndian(v, n)[..n - 1] == BigEndian(v / 256, n - 1);
    }
  }

  lemma {:induction false} ToFromBigEndian(b: Bytes)
    ensures BigEndian(FromBigEndian(b), |b|) == b
  {
    if b == [] {
    } else {
      ToFromBigEndian(b[..|b| - 1]);
      assert b == b[..|b| - 1] + [b[|b| - 1]];
    }
  }

  predicate FormFits(form: LenForm, len: nat) {
    match form
    case Short => len < 128
    case Long(n) => 1 <= n <= 4 && len < Pow256(n)
    case Indefinite => true
  }

  /** The length octets; they spell `len` when it fits the form. */
  function LengthOctets(form: LenForm, len: nat): (r: Bytes)
    ensures |r| > 0
  {
    match form
    case Short => [len % 128]
    case Long(n) => [128 + n % 128] + BigEndian(len, n)
    case Indefinite => [128]
  }

  // ----- Encoding -----

  /** The node an end-of-contents marker would read as (section 8.1.5). */
  predicate IsEndOfContents(n: Node) {
    n == Primitive(0, Short, [])
  }

  function Encode(n: Node): (r: Bytes)
    ensures |r| >= 2
    decreases n, 1
  {
    match n
    case Primitive(id, form, content) => [id] + LengthOctets(form, |content|) + content
    case Constructed(id, form, children) =>
      var body := EncodeAll(children);
      [id] + LengthOctets(form, |body|) + body + EndOf(form)
  }

  function EndOf(form: LenForm): Bytes {
    if form.Indefinite? then [0, 0] else []
  }

  function EncodeAll(ns: seq<Node>): (r: Bytes)
    decreases ns, 0
  {
    if ns == [] then [] else Encode(ns[0]) + EncodeAll(ns[1..])
  }

  /** Legal identifiers, lengths that fit their form, and no end-of-contents look-alike inside an
      indefinite-length node. */
  predicate WellFormed(n: Node)
    decreases n, 1
  {
    match n
    case Primitive(id, form, content) =>
      !IsConstructed(id) && !IsHighTag(id) && !form.Indefinite? && FormFits(form, |content|)
    case Constructed(id, form, children) =>
      && IsConstructed(id) && !IsHighTag(id) && WellFormedAll(children)
      && FormFits(form, |EncodeAll(children)|)
      && (form.Indefinite? ==> NoEndOfContents(children))
  }

  predicate WellFormedAll(ns: seq<Node>)
    decreases ns, 0
  {
    ns == [] || (WellFormed(ns[0]) && WellFormedAll(ns[1..]))
  }

  predicate NoEndOfContents(ns: seq<Node>) {
    ns == [] || (!IsEndOfContents(ns[0]) && NoEndOfContents(ns[1..]))
  }

  /** A node's contents octets, and the octets after them. */
  function Inner(n: Node): Bytes {
    if n.Primitive? then n.content else EncodeAll(n.children)
  }

  function Trailer(n: Node): Bytes {
    if n.Primitive? then [] else EndOf(n.form)
  }

  /** Nesting below a node: zero for a primitive or an empty constructed node. */
  function Height(n: Node): (r: nat)
    decreases n, 1
  {
    match n
    case Primitive(_, _, _) => 0
    case Constructed(_, _, children) => HeightAll(children)
  }

  function HeightAll(ns: seq<Node>): (r: nat)
    decreases ns, 0
  {
    if ns == [] then 0
    else var first, rest := 1 + Height(ns[0]), HeightAll(ns[1..]); if first > rest then first else rest
  }

  /** The contents of the primitive nodes, in order. */
  function Contents(n: Node): (r: Bytes)
    decreases n, 1
  {
    match n
    case Primitive(_, _, content) => content
    case Constructed(_, _, children) => ContentsAll(children)
  }

  function ContentsAll(ns: seq<Node>): (r: Bytes)
    decreases ns, 0
  {
    if ns == [] then [] else Contents(ns[0]) + ContentsAll(ns[1..])
  }
}
