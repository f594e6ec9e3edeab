/** Text helpers shared by the line and flag parsers: white space, trimming, splitting and decimal
    numbers. */
module Text {
  import opened Wrappers

  predicate IsWhitespace(c: char) {
    var n := c as int;
    || 0x09 <= n <= 0x0d || n == 0x20 || n == 0x85 || n == 0xa0 || n == 0x1680 || 0x2000 <= n <= 0x200a
    || n == 0x2028 || n == 0x2029 || n == 0x202f || n == 0x205f || n == 0x3000
  }

  lemma ColonIsInk()
    ensures !IsWhitespace(':')
  {
  }

  function TrimEnd(s: string): (r: string)
    ensures r <= s
    ensures r != "" ==> !IsWhitespace(r[|r| - 1])
  {
    if s != "" && IsWhitespace(s[|s| - 1]) then TrimEnd(s[..|s| - 1]) else s
  }

  function TrimStart(s: string): (r: string)
    ensures |r| <= |s|
    ensures r != "" ==> !IsWhitespace(r[0])
  {
    if s != "" && IsWhitespace(s[0]) then TrimStart(s[1..]) else s
  }

  /** Leading and trailing white space removed: neither end of the result is white space. */
  function Trim(s: string): (r: string)
    ensures r != "" ==> !IsWhitespace(r[0]) && !IsWhitespace(r[|r| - 1])
  {
    TrimEnd(TrimStart(s))
  }

  predicate AllWhitespace(s: string) {
    forall i :: 0 <= i < |s| ==> IsWhitespace(s[i])
  }

  lemma BlankConcat(a: string, b: string)
    requires AllWhitespace(a) && AllWhitespace(b)
    ensures AllWhitespace(a + b)
  {
  }

  /** Only white space is cut off the end. */
  lemma {:induction false} TrimEndCuts(s: string) returns (right: string)
    ensures s == TrimEnd(s) + right && AllWhitespace(right)
  {
    if s == "" || !IsWhitespace(s[|s| - 1]) {
      right := "";
    } else {
      var front := s[..|s| - 1];
      var cut := TrimEndCuts(front);
      right := cut + [s[|s| - 1]];
      assert s == front + [s[|s| - 1]];
    }
  }

  lemma {:induction false} TrimStartCuts(s: string) returns (left: string)
    ensures s == left + TrimStart(s) && AllWhitespace(left)
  {
    if s == "" || !IsWhitespace(s[0]) {
      left := "";
    } else {
      var cut := TrimStartCuts(s[1..]);
      left := [s[0]] + cut;
      assert s == [s[0]] + s[1..];
    }
  }

  /** A string is what trimming leaves, between white space. */
  lemma TrimSplits(s: string) returns (left: string, right: string)
    ensures s == left + Trim(s) + right && AllWhitespace(left) && AllWhitespace(right)
  {
    hide TrimStart, TrimEnd, AllWhitespace;
    left := TrimStartCuts(s);
    right := TrimEndCuts(TrimStart(s));
  }

  /** ...and only that: whatever white space surrounds a string without any at its ends, trimming finds the string. */
  lemma TrimFinds(left: string, s: string, right: string)
    requires AllWhitespace(left) && AllWhitespace(right) && s != ""
    requires !IsWhitespace(s[0]) && !IsWhitespace(s[|s| - 1])
    ensures Trim(left + s + right) == s
  {
    hide TrimStart, TrimEnd, IsWhitespace;
    assert left + s + right == left + (s + right);
    TrimStartFinds(left, s + right);
    TrimEndFinds(s, right);
  }

  lemma {:induction false} TrimStartFinds(left: string, s: string)
    requires AllWhitespace(left) && s != "" && !IsWhitespace(s[0])
    ensures TrimStart(left + s) == s
  {
    hide IsWhitespace;
    if left == "" {
      assert left + s == s;
    } else {
      TrimStartFinds(left[1..], s);
      assert (left + s)[1..] == left[1..] + s;
    }
  }

  lemma {:induction false} TrimEndFinds(s: string, right: string)
    requires AllWhitespace(right) && s != "" && !IsWhitespace(s[|s| - 1])
    ensures TrimEnd(s + right) == s
  {
    hide IsWhitespace;
    if right == "" {
      assert s + right == s;
    } else {
      var shorter := right[..|right| - 1];
      TrimEndFinds(s, shorter);
      assert (s + right)[..|s + right| - 1] == s + shorter;
    }
  }

  /** Around a character that is no white space, trimming works on each side alone. */
  lemma TrimAround(a: string, c: char, b: string)
    requires !IsWhitespace(c)
    ensures Trim(a + [c] + b) == TrimStart(a) + [c] + TrimEnd(b)
  {
    hide TrimStart, TrimEnd, IsWhitespace;
    var left := TrimStartCuts(a);
    var right := TrimEndCuts(b);
    var mid := TrimStart(a) + [c] + TrimEnd(b);
    assert a + [c] + b == left + mid + right;
    TrimFinds(left, mid, right);
  }

  lemma {:induction false} TrimOfStart(s: string)
    ensures Trim(TrimStart(s)) == Trim(s)
  {
    assert TrimStart(TrimStart(s)) == TrimStart(s);
  }

  lemma {:induction false} TrimBlank(s: string)
    requires AllWhitespace(s)
    ensures Trim(s) == ""
  {
    hide IsWhitespace;
    if s == "" {
    } else {
      TrimBlank(s[1..]);
      assert TrimStart(s) == TrimStart(s[1..]);
    }
  }

  /** White space put behind a string does not matter to what trimming finds. */
  lemma TrimGrows(s: string, right: string)
    requires AllWhitespace(right)
    ensures Trim(s + right) == Trim(s)
  {
    hide TrimStart, TrimEnd, AllWhitespace, IsWhitespace;
    var l, r := TrimSplits(s);
    var t := Trim(s);
    BlankConcat(r, right);
    if t == "" {
      assert s + right == l + (r + right);
      BlankConcat(l, r + right);
      TrimBlank(s + right);
    } else {
      assert s + right == l + t + (r + right);
      TrimFinds(l, t, r + right);
    }
  }

  lemma TrimOfEnd(s: string)
    ensures Trim(TrimEnd(s)) == Trim(s)
  {
    hide TrimStart, AllWhitespace, IsWhitespace, Trim;
    var right := TrimEndCuts(s);
    TrimGrows(TrimEnd(s), right);
  }

  lemma TrimKeeps(s: string)
    requires s != "" ==> !IsWhitespace(s[0]) && !IsWhitespace(s[|s| - 1])
    ensures Trim(s) == s
  {
    assert TrimStart(s) == s;
    assert TrimEnd(s) == s;
  }

  /** Trimming once is enough. */
  lemma TrimIdempotent(s: string)
    ensures Trim(Trim(s)) == Trim(s)
  {
    hide TrimStart, TrimEnd, IsWhitespace;
    TrimKeeps(Trim(s));
  }

  // ----- Decimal numbers -----

  function DigitsValue(s: string): (r: Option<nat>) {
    if s == "" then Some(0)
    else
      var c, front := s[|s| - 1], DigitsValue(s[..|s| - 1]);
      if front.Some? && '0' <= c <= '9' then Some(10 * front.value + (c as int - '0' as int)) else None
  }

  /** A decimal number below `bound`, with an optional plus sign. */
  function ParseUnsigned(s: string, bound: nat): (r: Option<nat>)
    ensures r.Some? ==> r.value < bound
  {
    var digits := if s != "" && s[0] == '+' then s[1..] else s;
    var v := DigitsValue(digits);
    if digits != "" && v.Some? && v.value < bound then v else None
  }

  function DigitChar(d: nat): (c: char)
    requires d < 10
    ensures '0' <= c <= '9' && c as int - '0' as int == d
  {
    ('0' as int + d) as char
  }

  function Decimal(n: nat): (r: string)
    ensures r != "" && forall i :: 0 <= i < |r| ==> '0' <= r[i] <= '9'
  {
    if n < 10 then [DigitChar(n)] else Decimal(n / 10) + [DigitChar(n % 10)]
  }

  lemma {:induction false} DecimalValue(n: nat)
    ensures DigitsValue(Decimal(n)) == Some(n)
  {
    var s := Decimal(n);
    if n < 10 {
      assert s[..|s| - 1] == "";
    } else {
      DecimalValue(n / 10);
      assert s[..|s| - 1] == Decimal(n / 10);
    }
  }

  lemma {:induction false} DigitsAppend(a: string, b: string)
    requires DigitsValue(a) == Some(0)
    ensures DigitsValue(a + b) == DigitsValue(b)
    decreases |b|
  {
    if b == "" {
      assert a + b == a;
    } else {
      DigitsAppend(a, b[..|b| - 1]);
      assert (a + b)[..|a + b| - 1] == a + b[..|b| - 1];
    }
  }

  predicate AllZeros(s: string) {
    forall i :: 0 <= i < |s| ==> s[i] == '0'
  }

  /** The decimal text of a number, with leading zeros and a plus sign allowed. */
  ghost predicate IsNumber(s: string, n: nat) {
    exists zeros :: AllZeros(zeros) && (s == zeros + Decimal(n) || s == "+" + zeros + Decimal(n))
  }

  lemma {:induction false} ZerosValue(zeros: string)
    requires AllZeros(zeros)
    ensures DigitsValue(zeros) == Some(0)
  {
    if zeros == "" {
    } else {
      ZerosValue(zeros[..|zeros| - 1]);
    }
  }

  /** A printed number reads back. */
  lemma DecimalReads(n: nat, bound: nat)
    requires n < bound
    ensures ParseUnsigned(Decimal(n), bound) == Some(n)
  {
    DecimalValue(n);
  }

  /** Digits that have a value are that number's own, after zeros. */
  lemma {:induction false} DigitsSplit(s: string) returns (zeros: string)
    requires s != "" && DigitsValue(s).Some?
    ensures AllZeros(zeros) && s == zeros + Decimal(DigitsValue(s).value)
  {
    var front, c, n := s[..|s| - 1], s[|s| - 1], DigitsValue(s).value;
    assert s == front + [c];
    if front == "" {
      zeros := "";
    } else {
      var m := DigitsValue(front).value;
      var before := DigitsSplit(front);
      assert n / 10 == m && c == DigitChar(n % 10);
      if m == 0 {
        zeros := before + "0";
        assert Decimal(0) == "0";
      } else {
        zeros := before;
        assert before + Decimal(m) + [c] == before + Decimal(n);
      }
    }
  }

  lemma NumberValue(zeros: string, n: nat)
    requires AllZeros(zeros)
    ensures DigitsValue(zeros + Decimal(n)) == Some(n)
    ensures zeros + Decimal(n) != "" && (zeros + Decimal(n))[0] != '+'
  {
    hide DigitsValue, Decimal;
    ZerosValue(zeros);
    DecimalValue(n);
    DigitsAppend(zeros, Decimal(n));
    assert Decimal(n)[0] != '+';
  }

  /** A text reads as a number exactly when it is one below the bound. */
  lemma ParseUnsignedIff(s: string, bound: nat, n: nat)
    ensures ParseUnsigned(s, bound) == Some(n) <==> n < bound && IsNumber(s, n)
  {
    hide DigitsValue, Decimal;
    var digits := if s != "" && s[0] == '+' then s[1..] else s;
    if ParseUnsigned(s, bound) == Some(n) {
      var zeros := DigitsSplit(digits);
      if digits != s { assert s == "+" + zeros + Decimal(n); }
    }
    forall zeros | AllZeros(zeros) && (s == zeros + Decimal(n) || s == "+" + zeros + Decimal(n))
      ensures digits != "" && DigitsValue(digits) == Some(n)
    {
      NumberValue(zeros, n);
      if s == "+" + zeros + Decimal(n) { assert s[1..] == zeros + Decimal(n); }
    }
  }

  // ----- Splitting at the last separator -----

  /** The parts before and after the last `c`. */
  function SplitLast(s: string, c: char): (r: Option<(string, string)>)
    ensures r.None? <==> c !in s
    ensures r.Some? ==> s == r.value.0 + [c] + r.value.1 && c !in r.value.1
  {
    if s == "" then None
    else if s[|s| - 1] == c then Some((s[..|s| - 1], ""))
    else
      var front := SplitLast(s[..|s| - 1], c);
      assert s == s[..|s| - 1] + [s[|s| - 1]];
      if front.None? then None else Some((front.value.0, front.value.1 + [s[|s| - 1]]))
  }

  /** The split is the only one whose right part is free of the separator. */
  lemma SplitLastUnique(left: string, right: string, c: char)
    requires c !in right
    ensures SplitLast(left + [c] + right, c) == Some((left, right))
  {
    hide SplitLast;
    var s := left + [c] + right;
    assert s[|left|] == c;
    var parts := SplitLast(s, c).value;
    assert s == parts.0 + [c] + parts.1 && s[|parts.0|] == c;
    assert forall i :: |left| < i < |s| ==> s[i] == right[i - |left| - 1];
    assert forall i :: |parts.0| < i < |s| ==> s[i] == parts.1[i - |parts.0| - 1];
    assert |parts.0| == |left|;
    assert s[..|left|] == left && s[..|left|] == parts.0;
    assert s[|left| + 1..] == right && s[|left| + 1..] == parts.1;
  }
}
