/** Reading the occupied keyslots from a `luksDump` listing, and picking the slot for a new key. */
module KeyslotDump {
  import opened Wrappers
  import opened Text

  // ----- The first free slot -----

  /** The occupied indices at or above `n`: what is left to rule out. */
  ghost function AtLeast(occupied: seq<nat>, n: nat): set<nat> {
    set m | m in occupied && m >= n
  }

  /** The smallest index from `n` on that is not occupied. */
  function LeastAbsent(occupied: seq<nat>, n: nat): (r: nat)
    ensures r >= n && r !in occupied && forall m :: n <= m < r ==> m in occupied
    decreases AtLeast(occupied, n)
  {
    if n !in occupied then n
    else
      assert n in AtLeast(occupied, n) && n !in AtLeast(occupied, n + 1);
      LeastAbsent(occupied, n + 1)
  }

  lemma {:induction false} RangeSize(n: nat, s: set<nat>)
    requires forall m :: 0 <= m < n ==> m in s
    ensures n <= |s|
  {
    if n == 0 {
    } else {
      RangeSize(n - 1, s - {n - 1});
    }
  }

  ghost function Elements(occupied: seq<nat>): set<nat> {
    set m | m in occupied
  }

  lemma {:induction false} ElementCount(occupied: seq<nat>)
    ensures |Elements(occupied)| <= |occupied|
  {
    if occupied == [] {
      assert Elements(occupied) == {};
    } else {
      ElementCount(occupied[1..]);
      assert Elements(occupied) == Elements(occupied[1..]) + {occupied[0]};
    }
  }

  /** The search ends by pigeonhole: `k` occupied slots leave a free index no greater than `k`, so the 32-bit
      counter does not wrap. */
  method FirstFreeFromOccupied(occupied: seq<nat>) returns (n: nat)
    ensures n !in occupied && (forall m :: 0 <= m < n ==> m in occupied)
    ensures n <= |occupied|
    ensures n == LeastAbsent(occupied, 0)
  {
    n := 0;
    while n in occupied
      invariant forall m :: 0 <= m < n ==> m in occupied
      decreases AtLeast(occupied, n)
    {
      assert n in AtLeast(occupied, n) && n !in AtLeast(occupied, n + 1);
      n := n + 1;
    }
    RangeSize(n, Elements(occupied));
    ElementCount(occupied);
  }

  // ----- The listing -----

  /** A non-empty line that is not indented: a section header or a preamble field. */
  predicate IsUnindented(line: string) {
    line != "" && line[0] != ' ' && line[0] != '\t'
  }

  predicate IsHeader(line: string) {
    IsUnindented(line) && TrimEnd(line) == "Keyslots:"
  }

  /** The text before the first colon. */
  function BeforeColon(s: string): (r: Option<string>) {
    if s == "" then None
    else if s[0] == ':' then Some("")
    else
      var rest := BeforeColon(s[1..]);
      if rest.None? then None else Some([s[0]] + rest.value)
  }

  /** The slot a line of the section lists, if it lists one. */
  function SlotOf(line: string): (r: Option<nat>) {
    var idx := BeforeColon(TrimStart(line));
    if idx.None? then None else ParseUnsigned(idx.value, 0x1_0000_0000)
  }

  /** The slots listed by the lines of a section body, in order. */
  function SlotsOf(body: seq<string>): (r: seq<nat>) {
    if body == [] then []
    else
      var slot := SlotOf(body[|body| - 1]);
      SlotsOf(body[..|body| - 1]) + if slot.Some? then [slot.value] else []
  }

  /** Whether the lines read so far leave the reader inside the section. */
  predicate InSection(lines: seq<string>) {
    && lines != []
    && var last := lines[|lines| - 1];
       if IsUnindented(last) then IsHeader(last) else InSection(lines[..|lines| - 1])
  }

  /** The slots listed inside the section, and only there. */
  function SlotsWithin(lines: seq<string>): (r: seq<nat>) {
    if lines == [] then []
    else
      var front, last := lines[..|lines| - 1], lines[|lines| - 1];
      var slot := if !IsUnindented(last) && InSection(front) then SlotOf(last) else None;
      SlotsWithin(front) + if slot.Some? then [slot.value] else []
  }

  predicate HasHeader(lines: seq<string>) {
    exists i :: 0 <= i < |lines| && IsHeader(lines[i])
  }

  method ParseOccupiedKeyslots(dump: seq<string>) returns (r: Option<seq<nat>>)
    ensures r == if HasHeader(dump) then Some(SlotsWithin(dump)) else None
  {
    var inKeyslots, seenSection := false, false;
    var slots: seq<nat> := [];
    for i := 0 to |dump|
      invariant inKeyslots == InSection(dump[..i]) && slots == SlotsWithin(dump[..i])
      invariant seenSection == HasHeader(dump[..i])
    {
      var line := dump[i];
      assert dump[..i + 1][..i] == dump[..i] && dump[..i + 1][i] == line;
      assert HasHeader(dump[..i + 1]) <==> HasHeader(dump[..i]) || IsHeader(line) by { HeaderSnoc(dump[..i], line); }
      if IsUnindented(line) {
        inKeyslots := TrimEnd(line) == "Keyslots:";
        if inKeyslots { seenSection := true; }
        continue;
      }
      if !inKeyslots { continue; }
      var idx := BeforeColon(TrimStart(line));
      if idx.Some? {
        var n := ParseUnsigned(idx.value, 0x1_0000_0000);
        if n.Some? { slots := slots + [n.value]; }
      }
    }
    assert dump[..|dump|] == dump;
    return if seenSection then Some(slots) else None;
  }

  lemma HeaderSnoc(lines: seq<string>, line: string)
    ensures HasHeader(lines + [line]) <==> HasHeader(lines) || IsHeader(line)
  {
    var all := lines + [line];
    assert all[|lines|] == line && forall i :: 0 <= i < |lines| ==> all[i] == lines[i];
  }

  // ----- Only the section counts -----

  lemma {:induction false} OutsideSection(lines: seq<string>)
    requires !HasHeader(lines)
    ensures !InSection(lines) && SlotsWithin(lines) == []
  {
    hide SlotOf, TrimEnd;
    if lines == [] {
    } else {
      var front, last := lines[..|lines| - 1], lines[|lines| - 1];
      assert lines == front + [last];
      HeaderSnoc(front, last);
      OutsideSection(front);
    }
  }

  /** The lines of the section body follow its header. */
  lemma {:induction false} InsideSection(before: seq<string>, header: string, body: seq<string>)
    requires !HasHeader(before) && IsHeader(header)
    requires forall i :: 0 <= i < |body| ==> !IsUnindented(body[i])
    ensures InSection(before + [header] + body) && SlotsWithin(before + [header] + body) == SlotsOf(body)
  {
    hide SlotOf, TrimEnd;
    var lines := before + [header] + body;
    if body == [] {
      assert lines == before + [header] && lines[..|lines| - 1] == before;
      OutsideSection(before);
    } else {
      var front := body[..|body| - 1];
      assert lines[..|lines| - 1] == before + [header] + front;
      assert lines[|lines| - 1] == body[|body| - 1];
      InsideSection(before, header, front);
    }
  }

  /** A listing with one keyslots section yields exactly the entries of that section, in order: numbered entries
      of the sections before and after it are not counted. */
  lemma {:induction false} SectionOnly(before: seq<string>, header: string, body: seq<string>, after: seq<string>)
    requires !HasHeader(before) && IsHeader(header) && !HasHeader(after)
    requires forall i :: 0 <= i < |body| ==> !IsUnindented(body[i])
    requires after != [] ==> IsUnindented(after[0])
    ensures SlotsWithin(before + [header] + body + after) == SlotsOf(body)
    ensures after != [] ==> !InSection(before + [header] + body + after)
  {
    hide SlotOf, TrimEnd;
    var lines := before + [header] + body + after;
    InsideSection(before, header, body);
    if after == [] {
      assert lines == before + [header] + body;
    } else {
      var front, last := after[..|after| - 1], after[|after| - 1];
      assert lines[..|lines| - 1] == before + [header] + body + front && lines[|lines| - 1] == last;
      HeaderSnoc(front, last);
      assert after == front + [last];
      assert front != [] ==> front[0] == after[0];
      SectionOnly(before, header, body, front);
    }
  }

  /** A header is the section's name with nothing but white space after it. */
  ghost predicate HeadLine(line: string) {
    exists blank :: AllWhitespace(blank) && line == "Keyslots:" + blank
  }

  lemma HeaderIff(line: string)
    ensures IsHeader(line) <==> HeadLine(line)
  {
    hide TrimEnd, IsWhitespace;
    var blank := TrimEndCuts(line);
    if IsHeader(line) {
      assert AllWhitespace(blank) && line == "Keyslots:" + blank;
    }
    forall blank | AllWhitespace(blank) && line == "Keyslots:" + blank ensures IsHeader(line) {
      assert !IsWhitespace(':') by { ColonIsInk(); }
      TrimEndFinds("Keyslots:", blank);
      assert line[0] == 'K';
    }
  }

  /** Line `i` is indented and the last unindented line before it is a header. */
  ghost predicate Listed(lines: seq<string>, h: nat, i: nat) {
    && h < i < |lines| && IsHeader(lines[h])
    && forall k :: h < k <= i ==> !IsUnindented(lines[k])
  }

  /** Line `h` is a header and no line after it is unindented. */
  ghost predicate OpenAt(lines: seq<string>, h: nat) {
    h < |lines| && IsHeader(lines[h]) && forall k :: h < k < |lines| ==> !IsUnindented(lines[k])
  }

  lemma OpenSnoc(front: seq<string>, last: string, h: nat)
    ensures OpenAt(front + [last], h) <==>
            (h < |front| && OpenAt(front, h) && !IsUnindented(last)) || (h == |front| && IsHeader(last))
  {
    hide IsHeader, IsUnindented;
    var lines := front + [last];
    assert lines[|front|] == last && forall k :: 0 <= k < |front| ==> lines[k] == front[k];
  }

  lemma {:induction false} InSectionIff(lines: seq<string>)
    ensures InSection(lines) <==> exists h: nat :: OpenAt(lines, h)
  {
    hide IsHeader, IsUnindented, OpenAt;
    if lines == [] {
      assert forall h: nat :: !OpenAt([], h) by { NothingOpen(); }
    } else {
      var front, last := lines[..|lines| - 1], lines[|lines| - 1];
      InSectionIff(front);
      assert lines == front + [last];
      HeaderIsUnindented(last);
      forall h: nat
        ensures OpenAt(lines, h) <==>
                (h < |front| && OpenAt(front, h) && !IsUnindented(last)) || (h == |front| && IsHeader(last))
      {
        OpenSnoc(front, last, h);
      }
      assert IsHeader(last) ==> OpenAt(lines, |front|);
      if h: nat :| OpenAt(front, h) {
        assert h < |front| by { OpenIsWithin(front, h); }
        assert !IsUnindented(last) ==> OpenAt(lines, h);
      }
    }
  }

  lemma NothingOpen()
    ensures forall h: nat :: !OpenAt([], h)
  {
  }

  lemma OpenIsWithin(lines: seq<string>, h: nat)
    requires OpenAt(lines, h)
    ensures h < |lines|
  {
  }

  lemma HeaderIsUnindented(line: string)
    ensures IsHeader(line) ==> IsUnindented(line)
  {
  }

  /** Some line of a section lists slot `n`. */
  ghost predicate ListedSlot(lines: seq<string>, n: nat) {
    exists h: nat, i: nat :: Listed(lines, h, i) && SlotOf(lines[i]) == Some(n)
  }

  lemma ListedLater(front: seq<string>, last: string, n: nat)
    requires ListedSlot(front, n)
    ensures ListedSlot(front + [last], n)
  {
    hide IsHeader, IsUnindented, SlotOf;
    var h: nat, i: nat :| Listed(front, h, i) && SlotOf(front[i]) == Some(n);
    assert forall k :: 0 <= k < |front| ==> (front + [last])[k] == front[k];
    assert Listed(front + [last], h, i);
  }

  lemma ListedLast(front: seq<string>, last: string, n: nat)
    requires ListedSlot(front + [last], n) && !ListedSlot(front, n)
    ensures InSection(front) && !IsUnindented(last) && SlotOf(last) == Some(n)
  {
    hide IsHeader, IsUnindented, SlotOf, InSection;
    var lines := front + [last];
    var h: nat, i: nat :| Listed(lines, h, i) && SlotOf(lines[i]) == Some(n);
    assert forall k :: 0 <= k < |front| ==> lines[k] == front[k];
    assert i < |front| ==> Listed(front, h, i);
    InSectionIff(front);
    assert OpenAt(front, h);
  }

  lemma ListedHere(front: seq<string>, last: string, n: nat)
    requires InSection(front) && !IsUnindented(last) && SlotOf(last) == Some(n)
    ensures ListedSlot(front + [last], n)
  {
    hide IsHeader, IsUnindented, SlotOf, InSection;
    var lines := front + [last];
    InSectionIff(front);
    var h: nat :| OpenAt(front, h);
    assert lines[|front|] == last && forall k :: 0 <= k < |front| ==> lines[k] == front[k];
    assert Listed(lines, h, |front|);
  }

  /** The occupied slots are those some line of a section lists, whatever sections the listing has. */
  lemma {:induction false} SlotsWithinIff(lines: seq<string>, n: nat)
    ensures n in SlotsWithin(lines) <==> ListedSlot(lines, n)
  {
    hide IsHeader, IsUnindented, SlotOf, InSection, ListedSlot;
    if lines == [] {
      assert !ListedSlot([], n) by { NothingListed(n); }
    } else {
      var front, last := lines[..|lines| - 1], lines[|lines| - 1];
      SlotsWithinIff(front, n);
      assert lines == front + [last];
      if ListedSlot(front, n) {
        ListedLater(front, last, n);
      } else if ListedSlot(lines, n) {
        ListedLast(front, last, n);
      } else if InSection(front) && !IsUnindented(last) && SlotOf(last) == Some(n) {
        ListedHere(front, last, n);
      }
    }
  }

  lemma NothingListed(n: nat)
    ensures !ListedSlot([], n)
  {
  }

  // ----- What a listed slot reads as -----

  lemma {:induction false} ColonSplits(idx: string, rest: string)
    requires ':' !in idx
    ensures BeforeColon(idx + ":" + rest) == Some(idx)
  {
    var s := idx + ":" + rest;
    if idx == "" {
    } else {
      assert s[1..] == idx[1..] + ":" + rest;
      ColonSplits(idx[1..], rest);
      assert idx == [idx[0]] + idx[1..];
    }
  }

  /** An entry as cryptsetup prints it. */
  function SlotLine(n: nat, kind: string): string {
    "  " + Decimal(n) + ":" + kind
  }

  /** A printed slot entry reads back as its index. */
  lemma SlotLineReads(n: nat, kind: string)
    requires n < 0x1_0000_0000
    ensures !IsUnindented(SlotLine(n, kind)) && SlotOf(SlotLine(n, kind)) == Some(n)
  {
    hide Decimal, ParseUnsigned, BeforeColon, TrimStart;
    var idx := Decimal(n);
    var text := idx + ":" + kind;
    assert SlotLine(n, kind) == "  " + text;
    assert text[0] == idx[0] && '0' <= idx[0] <= '9';
    TrimIndent(text);
    ColonSplits(idx, kind);
    DecimalReads(n, 0x1_0000_0000);
  }

  lemma TrimIndent(text: string)
    requires text != "" && !IsWhitespace(text[0])
    ensures TrimStart("  " + text) == text
  {
    assert ("  " + text)[1..] == " " + text && (" " + text)[1..] == text;
    assert TrimStart(text) == text && TrimStart(" " + text) == text;
  }

  function SlotLines(slots: seq<nat>, kind: string): (r: seq<string>)
    ensures |r| == |slots| && forall i :: 0 <= i < |slots| ==> r[i] == SlotLine(slots[i], kind)
  {
    seq(|slots|, i requires 0 <= i < |slots| => SlotLine(slots[i], kind))
  }

  lemma {:induction false} SlotLinesRead(slots: seq<nat>, kind: string)
    requires forall i :: 0 <= i < |slots| ==> slots[i] < 0x1_0000_0000
    ensures SlotsOf(SlotLines(slots, kind)) == slots
  {
    hide SlotOf, SlotLine;
    if slots == [] {
    } else {
      var front, last := slots[..|slots| - 1], slots[|slots| - 1];
      SlotLinesRead(front, kind);
      SlotLineReads(last, kind);
      var lines := SlotLines(slots, kind);
      assert lines[..|lines| - 1] == SlotLines(front, kind);
      assert slots == front + [last];
    }
  }

  /** Listing round trip: the slots printed in the section are the slots read, whatever surrounds it. */
  lemma ListingRoundTrip(before: seq<string>, header: string, slots: seq<nat>, kind: string, after: seq<string>)
    requires !HasHeader(before) && IsHeader(header) && !HasHeader(after) && (after != [] ==> IsUnindented(after[0]))
    requires forall i :: 0 <= i < |slots| ==> slots[i] < 0x1_0000_0000
    ensures SlotsWithin(before + [header] + SlotLines(slots, kind) + after) == slots
  {
    hide SlotOf, SlotLine, TrimEnd, SlotsWithin;
    SlotLinesRead(slots, kind);
    forall i | 0 <= i < |slots| ensures !IsUnindented(SlotLines(slots, kind)[i]) {
      SlotLineReads(slots[i], kind);
    }
    SectionOnly(before, header, SlotLines(slots, kind), after);
  }

  // ----- The listing, line by line -----

  predicate Indented(line: string) {
    line == "" || line[0] == ' ' || line[0] == '\t'
  }

  /** The line is a number and a colon, behind any white space. */
  ghost predicate NumbersSlot(line: string, n: nat) {
    n < 0x1_0000_0000 &&
    exists blank, number, rest :: AllWhitespace(blank) && IsNumber(number, n) && line == blank + number + ":" + rest
  }

  lemma {:induction false} ColonFound(s: string) returns (rest: string)
    requires BeforeColon(s).Some?
    ensures s == BeforeColon(s).value + ":" + rest && ':' !in BeforeColon(s).value
  {
    if s[0] == ':' {
      rest := s[1..];
    } else {
      rest := ColonFound(s[1..]);
      assert s == [s[0]] + s[1..];
    }
  }

  lemma NumberIsInk(number: string, n: nat)
    requires IsNumber(number, n)
    ensures number != "" && !IsWhitespace(number[0]) && ':' !in number
  {
    hide Decimal;
    var zeros :| AllZeros(zeros) && (number == zeros + Decimal(n) || number == "+" + zeros + Decimal(n));
    assert forall i :: 0 <= i < |number| ==> number[i] == '+' || '0' <= number[i] <= '9';
  }

  lemma SlotIff(line: string, n: nat)
    ensures SlotOf(line) == Some(n) <==> NumbersSlot(line, n)
  {
    hide TrimStart, BeforeColon, ParseUnsigned, IsNumber, IsWhitespace, AllWhitespace;
    var text := TrimStart(line);
    if SlotOf(line) == Some(n) {
      var blank := TrimStartCuts(line);
      var rest := ColonFound(text);
      var number := BeforeColon(text).value;
      ParseUnsignedIff(number, 0x1_0000_0000, n);
      assert line == blank + number + ":" + rest;
    }
    if NumbersSlot(line, n) {
      var blank, number, rest :| AllWhitespace(blank) && IsNumber(number, n) && line == blank + number + ":" + rest;
      NumberIsInk(number, n);
      assert line == blank + (number + ":" + rest) && (number + ":" + rest)[0] == number[0];
      TrimStartFinds(blank, number + ":" + rest);
      ColonSplits(number, rest);
      ParseUnsignedIff(number, 0x1_0000_0000, n);
    }
  }

  /** Line `i` numbers slot `n`, and every line between it and the header `h` is indented. */
  ghost predicate Reads(dump: seq<string>, h: nat, i: nat, n: nat) {
    && h < i < |dump| && HeadLine(dump[h]) && NumbersSlot(dump[i], n)
    && forall k :: h < k <= i ==> Indented(dump[k])
  }

  lemma ReadsIff(dump: seq<string>, h: nat, i: nat, n: nat)
    ensures Reads(dump, h, i, n) <==> Listed(dump, h, i) && SlotOf(dump[i]) == Some(n)
  {
    hide HeadLine, IsHeader, NumbersSlot, SlotOf;
    if h < i < |dump| {
      HeaderIff(dump[h]);
      SlotIff(dump[i], n);
      assert forall k :: h < k <= i ==> (Indented(dump[k]) <==> !IsUnindented(dump[k]));
    }
  }

  /** A slot is read exactly when a line numbers it below a section header with only indented lines between. */
  lemma ListingIff(dump: seq<string>, n: nat)
    ensures n in SlotsWithin(dump) <==> exists h: nat, i: nat :: Reads(dump, h, i, n)
  {
    hide Reads, SlotsWithin, SlotOf;
    SlotsWithinIff(dump, n);
    forall h: nat, i: nat ensures Reads(dump, h, i, n) <==> Listed(dump, h, i) && SlotOf(dump[i]) == Some(n) {
      ReadsIff(dump, h, i, n);
    }
  }
}
