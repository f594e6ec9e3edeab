/** Hexadecimal text: lower-case encoding, case-insensitive decoding, ASCII case folding. */
module Hex {
  import opened Wrappers

  function LowerChar(c: char): (r: char) {
    if 'A' <= c <= 'Z' then (c as int + 32) as char else c
  }

  /** ASCII lower-casing, character by character. */
  function Lower(s: string): (r: string)
    ensures |r| == |s|
    ensures forall i :: 0 <= i < |s| ==> r[i] == LowerChar(s[i])
  {
    seq(|s|, i requires 0 <= i < |s| => LowerChar(s[i]))
  }

  predicate EqIgnoreCase(a: string, b: string) {
    Lower(a) == Lower(b)
  }

  function Digit(n: int): (c: char)
    requires 0 <= n < 16
    ensures LowerChar(c) == c
    ensures Value(c) == Some(n)
  {
    if n < 10 then ('0' as int + n) as char else ('a' as int + n - 10) as char
  }

  function Value(c: char): (r: Option<int>)
    ensures r.Some? ==> 0 <= r.value < 16
  {
    if '0' <= c <= '9' then Some(c as int - '0' as int)
    else if 'a' <= c <= 'f' then Some(c as int - 'a' as int + 10)
    else if 'A' <= c <= 'F' then Some(c as int - 'A' as int + 10)
    else None
  }

  /** The sixteen digits, and the letters that have a lower case. */
  lemma Alphabet(c: char)
    ensures forall n :: 0 <= n < 16 ==> Digit(n) == "0123456789abcdef"[n]
    ensures forall i :: 0 <= i < 26 ==>
              LowerChar("ABCDEFGHIJKLMNOPQRSTUVWXYZ"[i]) == "abcdefghijklmnopqrstuvwxyz"[i]
    ensures !('A' <= c <= 'Z') ==> LowerChar(c) == c
  {
  }

  function Encode(b: Bytes): (s: string) {
    if b == [] then "" else [Digit(b[0] / 16), Digit(b[0] % 16)] + Encode(b[1..])
  }

  function Decode(s: string): (r: Option<Bytes>) {
    if s == "" then Some([])
    else if |s| == 1 then None
    else
      var hi, lo, rest := Value(s[0]), Value(s[1]), Decode(s[2..]);
      if hi.Some? && lo.Some? && rest.Some? then Some([16 * hi.value + lo.value] + rest.value) else None
  }

  lemma {:induction false} DecodeEncode(b: Bytes)
    ensures Decode(Encode(b)) == Some(b)
  {
    if b == [] {
    } else {
      DecodeEncode(b[1..]);
      assert Encode(b)[2..] == Encode(b[1..]);
      assert [b[0]] + b[1..] == b;
    }
  }

  lemma EncodeInjective(a: Bytes, b: Bytes)
    requires Encode(a) == Encode(b)
    ensures a == b
  {
    DecodeEncode(a);
    DecodeEncode(b);
  }

  lemma ValueIff(c: char, n: int)
    requires 0 <= n < 16
    ensures Value(c) == Some(n) <==> LowerChar(c) == Digit(n)
  {
  }

  /** What decodes is exactly an encoding, in either case. */
  lemma {:induction false} DecodeIff(s: string, b: Bytes)
    ensures Decode(s) == Some(b) <==> Lower(s) == Encode(b)
    decreases |s|
  {
    hide Value, Digit, LowerChar;
    if s == "" || |s| == 1 || b == [] {
      assert b != [] ==> |Encode(b)| >= 2;
      assert b == [] ==> Encode(b) == "";
    } else {
      var hi, lo := b[0] / 16, b[0] % 16;
      DecodeIff(s[2..], b[1..]);
      ValueIff(s[0], hi);
      ValueIff(s[1], lo);
      assert b == [b[0]] + b[1..] && b[0] == 16 * hi + lo;
      assert Encode(b) == [Digit(hi), Digit(lo)] + Encode(b[1..]);
      assert Lower(s) == [LowerChar(s[0]), LowerChar(s[1])] + Lower(s[2..]);
      var h, l, rest := Value(s[0]), Value(s[1]), Decode(s[2..]);
      if h.Some? && l.Some? && rest.Some? { SplitByte(h.value, l.value, b[0]); }
      ConcatTwo(LowerChar(s[0]), LowerChar(s[1]), Lower(s[2..]), Digit(hi), Digit(lo), Encode(b[1..]));
    }
  }

  lemma SplitByte(h: int, l: int, b: byte)
    requires 0 <= h < 16 && 0 <= l < 16
    ensures 16 * h + l == b <==> h == b / 16 && l == b % 16
  {
  }

  lemma ConcatTwo(a: char, b: char, s: string, x: char, y: char, t: string)
    ensures [a, b] + s == [x, y] + t <==> a == x && b == y && s == t
  {
    if [a, b] + s == [x, y] + t {
      assert ([a, b] + s)[0] == a && ([a, b] + s)[1] == b && ([a, b] + s)[2..] == s;
      assert ([x, y] + t)[0] == x && ([x, y] + t)[1] == y && ([x, y] + t)[2..] == t;
    }
  }

  /** The encoder only writes lower case, so folding it changes nothing. */
  lemma {:induction false} EncodeIsLower(b: Bytes)
    ensures Lower(Encode(b)) == Encode(b)
  {
    if b == [] {
    } else {
      EncodeIsLower(b[1..]);
      var s := Encode(b);
      forall i | 0 <= i < |s| ensures LowerChar(s[i]) == s[i] {
        if i >= 2 {
          assert s[i] == Encode(b[1..])[i - 2] == Lower(Encode(b[1..]))[i - 2];
        }
      }
    }
  }
}
