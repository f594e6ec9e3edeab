/** The hostname grammar shared by the flag parser and the allowlist loader. */
module Hostname {
  import opened Wrappers
  import opened Text

  datatype Fault = EmptyName | NameTooLong | DotAtEnd | EmptyLabel | LabelTooLong | HyphenAtEnd | BadCharacter

  // ----- The check -----

  /** Length in UTF-8 octets, which is what the limits count. */
  function Utf8Length(s: string): (n: nat)
    ensures n >= |s|
  {
    if s == "" then 0
    else
      var c := s[0] as int;
      (if c < 0x80 then 1 else if c < 0x800 then 2 else if c < 0x1_0000 then 3 else 4) + Utf8Length(s[1..])
  }

  predicate IsAlphanumeric(c: char) {
    'a' <= c <= 'z' || 'A' <= c <= 'Z' || '0' <= c <= '9'
  }

  predicate LabelChars(s: string) {
    forall i :: 0 <= i < |s| ==> IsAlphanumeric(s[i]) || s[i] == '-'
  }

  function LabelFault(part: string): (r: Option<Fault>) {
    if part == "" then Some(EmptyLabel)
    else if Utf8Length(part) > 63 then Some(LabelTooLong)
    else if part[0] == '-' || part[|part| - 1] == '-' then Some(HyphenAtEnd)
    else if !LabelChars(part) then Some(BadCharacter)
    else None
  }

  function FirstFault(labels: seq<string>): (r: Option<Fault>)
    ensures r.None? <==> forall i :: 0 <= i < |labels| ==> LabelFault(labels[i]).None?
  {
    if labels == [] then None
    else if LabelFault(labels[0]).Some? then LabelFault(labels[0])
    else
      assert forall i :: 1 <= i < |labels| ==> labels[i] == labels[1..][i - 1];
      FirstFault(labels[1..])
  }

  /** The labels between dots. */
  function Split(s: string): (labels: seq<string>)
    ensures labels != []
  {
    if s == "" then [""]
    else
      var rest := Split(s[1..]);
      if s[0] == '.' then [""] + rest else [[s[0]] + rest[0]] + rest[1..]
  }

  function ValidateHostname(host: string): (r: Option<Fault>) {
    if host == "" then Some(EmptyName)
    else if Utf8Length(host) > 253 then Some(NameTooLong)
    else if host[0] == '.' || host[|host| - 1] == '.' then Some(DotAtEnd)
    else FirstFault(Split(host))
  }

  // ----- The grammar -----

  function Join(labels: seq<string>): (s: string)
    requires labels != []
  {
    if |labels| == 1 then labels[0] else labels[0] + "." + Join(labels[1..])
  }

  predicate IsLabel(part: string) {
    1 <= |part| <= 63 && LabelChars(part) && part[0] != '-' && part[|part| - 1] != '-'
  }

  ghost predicate AreLabels(labels: seq<string>) {
    forall i :: 0 <= i < |labels| ==> IsLabel(labels[i])
  }

  /** A hostname is one to 253 characters of dot-separated labels. */
  ghost predicate IsHostname(host: string) {
    |host| <= 253 && exists labels :: labels != [] && AreLabels(labels) && host == Join(labels)
  }

  lemma {:induction false} JoinSplit(s: string)
    ensures Join(Split(s)) == s
  {
    if s == "" {
    } else {
      JoinSplit(s[1..]);
      var rest := Split(s[1..]);
      assert s == [s[0]] + s[1..];
      if s[0] == '.' {
        assert Split(s)[1..] == rest;
      } else if |rest| > 1 {
        assert Split(s)[1..] == rest[1..];
      }
    }
  }

  lemma {:induction false} SplitLabel(part: string)
    requires '.' !in part
    ensures Split(part) == [part]
  {
    if part == "" {
    } else {
      SplitLabel(part[1..]);
      assert part == [part[0]] + part[1..];
    }
  }

  lemma {:induction false} SplitFirst(part: string, rest: string)
    requires '.' !in part
    ensures Split(part + "." + rest) == [part] + Split(rest)
  {
    var s := part + "." + rest;
    if part == "" {
      assert s[1..] == rest;
    } else {
      SplitFirst(part[1..], rest);
      assert s[1..] == part[1..] + "." + rest;
      assert part == [part[0]] + part[1..];
    }
  }

  lemma LabelHasNoDot(part: string)
    requires IsLabel(part)
    ensures '.' !in part
  {
  }

  lemma {:induction false} SplitJoin(labels: seq<string>)
    requires labels != [] && AreLabels(labels)
    ensures Split(Join(labels)) == labels
  {
    hide Split;
    LabelHasNoDot(labels[0]);
    if |labels| == 1 {
      SplitLabel(labels[0]);
    } else {
      assert AreLabels(labels[1..]);
      SplitJoin(labels[1..]);
      SplitFirst(labels[0], Join(labels[1..]));
    }
  }

  /** Every character is a letter, a digit, a hyphen or a dot. */
  predicate PlainChars(s: string) {
    forall i :: 0 <= i < |s| ==> IsAlphanumeric(s[i]) || s[i] == '-' || s[i] == '.'
  }

  lemma {:induction false} JoinIsPlain(labels: seq<string>)
    requires labels != [] && AreLabels(labels)
    ensures PlainChars(Join(labels))
    ensures Join(labels) != "" && Join(labels)[0] != '.' && Join(labels)[|Join(labels)| - 1] != '.'
  {
    assert IsLabel(labels[0]);
    if |labels| > 1 {
      assert AreLabels(labels[1..]);
      JoinIsPlain(labels[1..]);
    }
  }

  lemma {:induction false} PlainLength(s: string)
    requires PlainChars(s)
    ensures Utf8Length(s) == |s|
  {
    if s == "" {
    } else {
      PlainLength(s[1..]);
    }
  }

  lemma LabelIff(part: string)
    ensures LabelFault(part).None? <==> IsLabel(part)
  {
    if LabelChars(part) { PlainLength(part); }
  }

  /** The check accepts exactly the grammar. */
  lemma ValidateIff(host: string)
    ensures ValidateHostname(host).None? <==> IsHostname(host)
  {
    hide LabelFault, IsLabel, Utf8Length, Join, Split, PlainChars;
    forall part ensures LabelFault(part).None? <==> IsLabel(part) { LabelIff(part); }
    if ValidateHostname(host).None? {
      JoinSplit(host);
      assert AreLabels(Split(host));
    }
    if IsHostname(host) {
      var labels :| labels != [] && AreLabels(labels) && host == Join(labels);
      SplitJoin(labels);
      JoinIsPlain(labels);
      PlainLength(host);
    }
  }

  // ----- What a refusal says -----

  lemma {:induction false} SplitHasNoDots(s: string)
    ensures forall i :: 0 <= i < |Split(s)| ==> '.' !in Split(s)[i]
  {
    if s == "" {
    } else {
      SplitHasNoDots(s[1..]);
    }
  }

  predicate PartFault(part: string, fault: Fault) {
    match fault
    case EmptyLabel => part == ""
    case LabelTooLong => Utf8Length(part) > 63
    case HyphenAtEnd => part != "" && (part[0] == '-' || part[|part| - 1] == '-')
    case BadCharacter => !LabelChars(part)
    case _ => false
  }

  /** The part between two dots, or an end and a dot, has the fault. */
  ghost predicate SomePart(host: string, fault: Fault) {
    exists labels, i :: AreParts(host, labels) && 0 <= i < |labels| && PartFault(labels[i], fault)
  }

  ghost predicate AreParts(host: string, labels: seq<string>) {
    labels != [] && Join(labels) == host && forall i :: 0 <= i < |labels| ==> '.' !in labels[i]
  }

  predicate NameFault(host: string, fault: Fault) {
    match fault
    case EmptyName => host == ""
    case NameTooLong => Utf8Length(host) > 253
    case DotAtEnd => host != "" && (host[0] == '.' || host[|host| - 1] == '.')
    case _ => false
  }

  lemma {:induction false} FirstFaultAt(labels: seq<string>) returns (i: nat)
    requires FirstFault(labels).Some?
    ensures i < |labels| && PartFault(labels[i], FirstFault(labels).value)
  {
    hide Utf8Length, LabelChars;
    if LabelFault(labels[0]).Some? {
      i := 0;
    } else {
      var k := FirstFaultAt(labels[1..]);
      i := k + 1;
    }
  }

  /** What the check says of a name it refuses is true. */
  lemma FaultIsTrue(host: string)
    requires ValidateHostname(host).Some?
    ensures NameFault(host, ValidateHostname(host).value) || SomePart(host, ValidateHostname(host).value)
  {
    hide Utf8Length, Split, FirstFault, Join, PartFault;
    var fault := ValidateHostname(host).value;
    if !NameFault(host, fault) {
      var labels := Split(host);
      JoinSplit(host);
      SplitHasNoDots(host);
      var i := FirstFaultAt(labels);
      assert AreParts(host, labels) && PartFault(labels[i], fault);
    }
  }

  /** An accepted hostname carries no white space, control character, colon or slash into any configuration. */
  lemma AcceptedIsPlain(host: string)
    requires ValidateHostname(host).None?
    ensures PlainChars(host)
    ensures forall i :: 0 <= i < |host| ==> !IsWhitespace(host[i]) && host[i] as int >= 0x20
    ensures ':' !in host && '/' !in host
  {
    hide ValidateHostname;
    ValidateIff(host);
    var labels :| labels != [] && AreLabels(labels) && host == Join(labels);
    JoinIsPlain(labels);
  }
}
