/** How the check reads a policy document: members, statements, actions and PCR bindings, and what it finds. */
module PolicyReader {
  import opened Wrappers
  import Hex
  import opened PolicyDocument

  function Get(v: Json, key: string): (r: Option<Json>) {
    if v.JObject? then Lookup(v.members, key) else None
  }

  function Lookup(members: seq<(string, Json)>, key: string): (r: Option<Json>) {
    if members == [] then None
    else if members[0].0 == key then Some(members[0].1)
    else Lookup(members[1..], key)
  }

  const EQ_OPERATORS := ["StringEquals", "StringEqualsIgnoreCase"]
  const ATTESTATION := "kms:RecipientAttestation:"
  const PCR_KEY := ATTESTATION + "PCR"
  const PCR_KEY_LOWER := ATTESTATION + "pcr"

  predicate StartsWith(s: string, prefix: string) {
    prefix <= s
  }

  /** The strings of an `Action` element: one string, or the strings of an array. */
  function ActionStrings(v: Option<Json>): (r: seq<string>) {
    match v
    case Some(JString(s)) => [s]
    case Some(JArray(items)) => Strings(items)
    case _ => []
  }

  function Strings(items: seq<Json>): (r: seq<string>) {
    if items == [] then []
    else (if items[0].JString? then [items[0].s] else []) + Strings(items[1..])
  }

  /** The actions of a statement, in lower case. */
  function NormalizeActions(v: Option<Json>): (r: seq<string>)
    ensures |r| == |ActionStrings(v)| && forall i :: 0 <= i < |r| ==> r[i] == Hex.Lower(ActionStrings(v)[i])
  {
    var actions := ActionStrings(v);
    seq(|actions|, i requires 0 <= i < |actions| => Hex.Lower(actions[i]))
  }

  function StatementsOf(doc: Json): (r: Option<seq<Json>>) {
    match Get(doc, "Statement")
    case None => None
    case Some(JArray(items)) => Some(items)
    case Some(other) => Some([other])
  }

  predicate IsAllow(stmt: Json) {
    Get(stmt, "Effect") == Some(JString("Allow"))
  }

  // ----- PCR bindings -----

  /** The members of a statement's `Condition` object. */
  function Conditions(stmt: Json): (r: seq<(string, Json)>) {
    match Get(stmt, "Condition")
    case Some(JObject(members)) => members
    case _ => []
  }

  function MembersOf(v: Json): seq<(string, Json)> {
    if v.JObject? then v.members else []
  }

  /** The PCR suffix a condition key names. */
  function PcrSuffix(key: string): (r: Option<string>) {
    if StartsWith(key, PCR_KEY) then Some(key[|PCR_KEY|..])
    else if StartsWith(key, PCR_KEY_LOWER) then Some(key[|PCR_KEY_LOWER|..])
    else None
  }

  /** The `(suffix, value)` pairs of an equality operator's members: single strings under a PCR key. */
  function MemberBindings(members: seq<(string, Json)>): (r: seq<(string, string)>) {
    if members == [] then []
    else
      var (key, value) := members[|members| - 1];
      var suffix := PcrSuffix(key);
      MemberBindings(members[..|members| - 1]) +
      if suffix.Some? && value.JString? then [(suffix.value, value.s)] else []
  }

  /** All equality bindings of a condition list, in iteration order. */
  function ConditionBindings(conds: seq<(string, Json)>): (r: seq<(string, string)>) {
    if conds == [] then []
    else
      var (op, members) := conds[|conds| - 1];
      ConditionBindings(conds[..|conds| - 1]) + if op in EQ_OPERATORS then MemberBindings(MembersOf(members)) else []
  }

  /** A later binding of the same PCR replaces an earlier one. */
  function LastWins(pairs: seq<(string, string)>): (r: map<string, string>) {
    if pairs == [] then map[]
    else LastWins(pairs[..|pairs| - 1])[pairs[|pairs| - 1].0 := pairs[|pairs| - 1].1]
  }

  lemma LastWinsSnoc(pairs: seq<(string, string)>, suffix: string, value: string)
    ensures LastWins(pairs + [(suffix, value)]) == LastWins(pairs)[suffix := value]
  {
    assert (pairs + [(suffix, value)])[..|pairs|] == pairs;
  }

  /** The inner loop: the members of one equality operator, on top of the bindings collected before. */
  method CollectMembers(members: seq<(string, Json)>, before: map<string, string>, ghost pairs: seq<(string, string)>)
    returns (bound: map<string, string>)
    requires before == LastWins(pairs)
    ensures bound == LastWins(pairs + MemberBindings(members))
  {
    hide LastWins, PcrSuffix;
    bound := before;
    assert pairs + MemberBindings([]) == pairs;
    for j := 0 to |members|
      invariant bound == LastWins(pairs + MemberBindings(members[..j]))
    {
      ghost var sofar := MemberBindings(members[..j]);
      assert members[..j + 1][..j] == members[..j];
      var suffix := PcrSuffix(members[j].0);
      if suffix.Some? && members[j].1.JString? {
        var value := members[j].1.s;
        LastWinsSnoc(pairs + sofar, suffix.value, value);
        assert pairs + (sofar + [(suffix.value, value)]) == (pairs + sofar) + [(suffix.value, value)];
        bound := bound[suffix.value := value];
      } else {
        assert sofar + [] == sofar;
      }
    }
    assert members[..|members|] == members;
  }

  method CollectPcrBindings(stmt: Json) returns (bound: map<string, string>)
    ensures bound == LastWins(ConditionBindings(Conditions(stmt)))
  {
    hide MemberBindings, MembersOf, Conditions;
    bound := map[];
    var conds := Conditions(stmt);
    for i := 0 to |conds|
      invariant bound == LastWins(ConditionBindings(conds[..i]))
    {
      assert conds[..i + 1][..i] == conds[..i];
      if conds[i].0 in EQ_OPERATORS {
        bound := CollectMembers(MembersOf(conds[i].1), bound, ConditionBindings(conds[..i]));
      } else {
        assert ConditionBindings(conds[..i]) + [] == ConditionBindings(conds[..i]);
      }
    }
    assert conds[..|conds|] == conds;
  }

  // ----- What the readers find -----

  lemma {:induction false} LookupFinds(members: seq<(string, Json)>, key: string)
    ensures Lookup(members, key).None? <==> NoKey(members, key)
    ensures Lookup(members, key).Some? ==> Member(JObject(members), key, Lookup(members, key).value)
  {
    if members == [] {
    } else if members[0].0 == key {
      assert members[0] == (key, members[0].1) && NoKey(members[..0], key);
    } else {
      var rest := members[1..];
      LookupFinds(rest, key);
      assert forall i :: 0 <= i < |rest| ==> rest[i] == members[i + 1];
      if Lookup(rest, key).Some? {
        var i :| 0 <= i < |rest| && rest[i] == (key, Lookup(rest, key).value) && NoKey(rest[..i], key);
        assert members[..i + 1] == [members[0]] + rest[..i];
        assert members[i + 1] == (key, Lookup(members, key).value) && NoKey(members[..i + 1], key);
      } else {
        assert forall i :: 0 < i < |members| ==> members[i] == rest[i - 1];
      }
    }
  }

  /** Looking a key up finds the first member of that name, and nothing if and only if there is none. */
  lemma GetIff(v: Json, key: string)
    ensures Get(v, key).None? <==> Lacks(v, key)
    ensures forall value :: Get(v, key) == Some(value) <==> Member(v, key, value)
  {
    hide Lookup, Member;
    if v.JObject? {
      LookupFinds(v.members, key);
      assert v == JObject(v.members);
      forall value | Member(v, key, value) ensures Get(v, key) == Some(value) {
        MemberIsPresent(v, key, value);
        MemberUnique(v, key, value, Get(v, key).value);
      }
    } else {
      assert forall value :: !Member(v, key, value) by { OnlyObjects(v, key); }
    }
  }

  lemma MemberIsPresent(v: Json, key: string, value: Json)
    requires Member(v, key, value)
    ensures !Lacks(v, key)
  {
  }

  lemma OnlyObjects(v: Json, key: string)
    requires !v.JObject?
    ensures forall value :: !Member(v, key, value)
  {
  }

  lemma {:induction false} StringsIff(items: seq<Json>, s: string)
    ensures s in Strings(items) <==> JString(s) in items
  {
    if items == [] {
    } else {
      StringsIff(items[1..], s);
      assert items == [items[0]] + items[1..];
    }
  }

  lemma NamesIff(stmt: Json, element: string, s: string)
    ensures s in ActionStrings(Get(stmt, element)) <==> Names(stmt, element, s)
  {
    hide Member, Lacks, Strings;
    GetIff(stmt, element);
    if Get(stmt, element).Some? {
      var v := Get(stmt, element).value;
      assert Member(stmt, element, v);
      if v.JArray? { StringsIff(v.items, s); }
    }
  }

  /** The actions the check looks at are those the statement names, in lower case. */
  lemma ActionsIff(stmt: Json, action: string)
    ensures action in NormalizeActions(Get(stmt, "Action")) <==> ActionIs(stmt, action)
  {
    hide Hex.Lower, Names, ActionStrings;
    var actions, patterns := NormalizeActions(Get(stmt, "Action")), ActionStrings(Get(stmt, "Action"));
    if action in actions {
      var i :| 0 <= i < |actions| && actions[i] == action;
      NamesIff(stmt, "Action", patterns[i]);
    }
    if p :| Names(stmt, "Action", p) && Hex.Lower(p) == action {
      NamesIff(stmt, "Action", p);
      var i :| 0 <= i < |patterns| && patterns[i] == p;
      assert actions[i] == action;
    }
  }

  /** The statements the check goes through, in their order. */
  lemma StatementsIff(doc: Json)
    ensures StatementsOf(doc).None? <==> Lacks(doc, "Statement")
    ensures forall stmt :: IsStatement(doc, stmt) <==> StatementsOf(doc).Some? && stmt in StatementsOf(doc).value
    ensures forall m :: Member(doc, "Statement", m) ==> StatementsOf(doc) == Some(if m.JArray? then m.items else [m])
  {
    hide Member, Lacks;
    GetIff(doc, "Statement");
    if Get(doc, "Statement").Some? {
      assert Member(doc, "Statement", Get(doc, "Statement").value);
    }
  }

  lemma SuffixIff(key: string, suffix: string)
    ensures PcrSuffix(key) == Some(suffix) <==> IsPcrKey(key, suffix)
  {
    hide Lacks;
    PrefixesDiffer(key);
    if StartsWith(key, PCR_KEY) {
      assert key == PCR_KEY + key[|PCR_KEY|..];
    } else if StartsWith(key, PCR_KEY_LOWER) {
      assert key == PCR_KEY_LOWER + key[|PCR_KEY_LOWER|..];
    }
    assert (PCR_KEY + suffix)[|PCR_KEY|..] == suffix && (PCR_KEY_LOWER + suffix)[|PCR_KEY_LOWER|..] == suffix;
    PrefixLiterals();
  }

  lemma PrefixLiterals()
    ensures PCR_KEY == "kms:RecipientAttestation:PCR" && PCR_KEY_LOWER == "kms:RecipientAttestation:pcr"
  {
  }

  lemma PrefixesDiffer(key: string)
    ensures !(StartsWith(key, PCR_KEY) && StartsWith(key, PCR_KEY_LOWER))
  {
    assert PCR_KEY[|ATTESTATION|] != PCR_KEY_LOWER[|ATTESTATION|];
  }

  function Found(pairs: seq<(string, string)>, suffix: string): (r: Option<string>) {
    if suffix in LastWins(pairs) then Some(LastWins(pairs)[suffix]) else None
  }

  lemma {:induction false} FoundInConcat(a: seq<(string, string)>, b: seq<(string, string)>, suffix: string)
    ensures Found(a + b, suffix) == if Found(b, suffix).Some? then Found(b, suffix) else Found(a, suffix)
    decreases |b|
  {
    if b == [] {
      assert a + b == a;
    } else {
      FoundInConcat(a, b[..|b| - 1], suffix);
      assert (a + b)[..|a + b| - 1] == a + b[..|b| - 1];
    }
  }

  /** Under one operator the binding that counts is the last one. */
  lemma {:induction false} LastInIff(members: seq<(string, Json)>, suffix: string)
    ensures Found(MemberBindings(members), suffix).None? <==> NoBinding(members, suffix)
    ensures forall v :: Found(MemberBindings(members), suffix) == Some(v) <==> LastIn(members, suffix, v)
  {
    hide IsPcrKey, PcrSuffix, Found, LastIn, NoBinding;
    if members == [] {
      FoundInNone(suffix);
      NothingInNone(suffix);
    } else {
      var n := |members| - 1;
      var front, last := members[..n], members[n];
      LastInIff(front, suffix);
      SuffixIff(last.0, suffix);
      var own := if PcrSuffix(last.0).Some? && last.1.JString? then [(PcrSuffix(last.0).value, last.1.s)] else [];
      assert MemberBindings(members) == MemberBindings(front) + own;
      FoundInConcat(MemberBindings(front), own, suffix);
      FoundInOne(own, suffix);
      LastInSnoc(front, last, suffix);
      assert members == front + [last];
    }
  }

  lemma FoundInNone(suffix: string)
    ensures Found([], suffix).None?
  {
  }

  lemma FoundInOne(pairs: seq<(string, string)>, suffix: string)
    requires |pairs| <= 1
    ensures Found(pairs, suffix) == if pairs != [] && pairs[0].0 == suffix then Some(pairs[0].1) else None
  {
    if pairs != [] {
      LastWinsSnoc([], pairs[0].0, pairs[0].1);
      assert pairs == [] + [(pairs[0].0, pairs[0].1)];
    }
  }

  lemma NoBindingSnoc(front: seq<(string, Json)>, last: (string, Json), suffix: string)
    ensures NoBinding(front + [last], suffix) <==> NoBinding(front, suffix) && !Binding(last, suffix)
  {
    hide Binding;
    var members, n := front + [last], |front|;
    assert members[n] == last && forall j :: 0 <= j < n ==> members[j] == front[j];
  }

  lemma LastInSnoc(front: seq<(string, Json)>, last: (string, Json), suffix: string)
    ensures NoBinding(front + [last], suffix) <==> NoBinding(front, suffix) && !Binding(last, suffix)
    ensures forall v :: LastIn(front + [last], suffix, v) <==>
                        if Binding(last, suffix) then last.1 == JString(v) else LastIn(front, suffix, v)
  {
    hide Binding, LastIn, NoBinding;
    NoBindingSnoc(front, last, suffix);
    forall v ensures LastIn(front + [last], suffix, v) <==>
                     if Binding(last, suffix) then last.1 == JString(v) else LastIn(front, suffix, v)
    {
      if LastIn(front + [last], suffix, v) {
        LastInShrinks(front, last, suffix, v);
      } else if if Binding(last, suffix) then last.1 == JString(v) else LastIn(front, suffix, v) {
        LastInGrows(front, last, suffix, v);
      }
    }
  }

  lemma LastInGrows(front: seq<(string, Json)>, last: (string, Json), suffix: string, v: string)
    requires if Binding(last, suffix) then last.1 == JString(v) else LastIn(front, suffix, v)
    ensures LastIn(front + [last], suffix, v)
  {
    hide IsPcrKey, NoBinding;
    var members, n := front + [last], |front|;
    assert members[n] == last;
    if Binding(last, suffix) {
      assert members[n + 1..] == [] && NoBinding([], suffix) by { NothingInNone(suffix); }
    } else {
      var j :| 0 <= j < n && IsPcrKey(front[j].0, suffix) && front[j].1 == JString(v) &&
               NoBinding(front[j + 1..], suffix);
      NoBindingSnoc(front[j + 1..], last, suffix);
      assert members[j] == front[j] && members[j + 1..] == front[j + 1..] + [last];
    }
  }

  lemma LastInShrinks(front: seq<(string, Json)>, last: (string, Json), suffix: string, v: string)
    requires LastIn(front + [last], suffix, v)
    ensures if Binding(last, suffix) then last.1 == JString(v) else LastIn(front, suffix, v)
  {
    hide IsPcrKey, NoBinding;
    var members, n := front + [last], |front|;
    var j :| 0 <= j < |members| && IsPcrKey(members[j].0, suffix) && members[j].1 == JString(v) &&
             NoBinding(members[j + 1..], suffix);
    if j == n {
      assert members[j] == last;
    } else {
      NoBindingSnoc(front[j + 1..], last, suffix);
      assert members[j] == front[j] && members[j + 1..] == front[j + 1..] + [last];
    }
  }

  /** Over all equality operators the binding that counts is the last one. */
  lemma {:induction false} LastBindingIff(conds: seq<(string, Json)>, suffix: string)
    ensures Found(ConditionBindings(conds), suffix).None? <==> Unbound(conds, suffix)
    ensures forall v :: Found(ConditionBindings(conds), suffix) == Some(v) <==> LastBinding(conds, suffix, v)
  {
    hide Found, MemberBindings, LastIn, NoBinding;
    if conds == [] {
      FoundInNone(suffix);
    } else {
      var n := |conds| - 1;
      var front, last := conds[..n], conds[n];
      LastBindingIff(front, suffix);
      LastInIff(MembersOf(last.1), suffix);
      var own := if last.0 in EQ_OPERATORS then MemberBindings(MembersOf(last.1)) else [];
      assert ConditionBindings(conds) == ConditionBindings(front) + own;
      FoundInConcat(ConditionBindings(front), own, suffix);
      FoundInNone(suffix);
      NothingInNone(suffix);
      LastBindingSnoc(front, last, suffix);
      assert conds == front + [last];
    }
  }

  lemma NothingInNone(suffix: string)
    ensures NoBinding([], suffix) && forall v :: !LastIn([], suffix, v)
  {
  }

  lemma UnboundSnoc(front: seq<(string, Json)>, last: (string, Json), suffix: string)
    ensures Unbound(front + [last], suffix) <==> Unbound(front, suffix) && Unbound([last], suffix)
  {
    hide NoBinding, IsEquality;
    var conds, n := front + [last], |front|;
    assert conds[n] == last && [last][0] == last && forall j :: 0 <= j < n ==> conds[j] == front[j];
  }

  lemma LastBindingSnoc(front: seq<(string, Json)>, last: (string, Json), suffix: string)
    ensures Unbound(front + [last], suffix) <==> Unbound(front, suffix) && Unbound([last], suffix)
    ensures forall v :: LastBinding(front + [last], suffix, v) <==>
                        if Unbound([last], suffix) then LastBinding(front, suffix, v)
                        else LastIn(last.1.members, suffix, v)
  {
    hide NoBinding, LastIn, IsEquality;
    UnboundSnoc(front, last, suffix);
    assert [last][0] == last;
    forall v ensures LastBinding(front + [last], suffix, v) <==>
                     if Unbound([last], suffix) then LastBinding(front, suffix, v)
                     else LastIn(last.1.members, suffix, v)
    {
      LastBindingGrows(front, last, suffix, v);
      LastBindingShrinks(front, last, suffix, v);
    }
  }

  lemma LastBindingGrows(front: seq<(string, Json)>, last: (string, Json), suffix: string, v: string)
    ensures (if Unbound([last], suffix) then LastBinding(front, suffix, v) else LastIn(last.1.members, suffix, v)) ==>
            LastBinding(front + [last], suffix, v)
  {
    hide NoBinding, LastIn, IsEquality;
    var conds, n := front + [last], |front|;
    assert conds[n] == last && [last][0] == last;
    if !Unbound([last], suffix) {
      assert conds[n + 1..] == [] && Unbound([], suffix);
    } else if LastBinding(front, suffix, v) {
      var i :| 0 <= i < n && IsEquality(front[i].0) && front[i].1.JObject? &&
               LastIn(front[i].1.members, suffix, v) && Unbound(front[i + 1..], suffix);
      UnboundSnoc(front[i + 1..], last, suffix);
      assert conds[i] == front[i] && conds[i + 1..] == front[i + 1..] + [last];
    }
  }

  lemma LastBindingShrinks(front: seq<(string, Json)>, last: (string, Json), suffix: string, v: string)
    ensures LastBinding(front + [last], suffix, v) ==>
            if Unbound([last], suffix) then LastBinding(front, suffix, v) else LastIn(last.1.members, suffix, v)
  {
    hide Unbound, LastIn, IsEquality;
    var conds, n := front + [last], |front|;
    if LastBinding(conds, suffix, v) {
      var i :| 0 <= i < |conds| && IsEquality(conds[i].0) && conds[i].1.JObject? &&
               LastIn(conds[i].1.members, suffix, v) && Unbound(conds[i + 1..], suffix);
      if i == n {
        assert conds[i] == last;
        OneBound(last, suffix, v);
      } else {
        assert conds[i] == front[i] && conds[i + 1..] == front[i + 1..] + [last];
        UnboundSnoc(front[i + 1..], last, suffix);
      }
    }
  }

  lemma OneBound(last: (string, Json), suffix: string, v: string)
    requires IsEquality(last.0) && last.1.JObject? && LastIn(last.1.members, suffix, v)
    ensures !Unbound([last], suffix)
  {
    hide LastIn, NoBinding, IsEquality;
    LastInBinds(last.1.members, suffix, v);
    assert [last][0] == last;
  }

  lemma LastInBinds(members: seq<(string, Json)>, suffix: string, v: string)
    ensures LastIn(members, suffix, v) ==> !NoBinding(members, suffix)
  {
  }

  /** The bindings the check collects are the last ones of the statement's conditions. */
  lemma BindsIff(stmt: Json, suffix: string)
    ensures var bound := LastWins(ConditionBindings(Conditions(stmt)));
            && (suffix !in bound <==> BindsNothing(stmt, suffix))
            && (forall v :: suffix in bound && bound[suffix] == v <==> Binds(stmt, suffix, v))
  {
    hide LastWins, ConditionBindings, LastBinding, Unbound, Member, Lacks;
    var conds := Conditions(stmt);
    LastBindingIff(conds, suffix);
    GetIff(stmt, "Condition");
    forall v ensures LastBinding(conds, suffix, v) <==> Binds(stmt, suffix, v) { BindsIs(stmt, suffix, v); }
    assert Found(ConditionBindings(conds), suffix).None? <==> suffix !in LastWins(ConditionBindings(conds));
    BindsNothingIs(stmt, suffix);
  }

  lemma BindsIs(stmt: Json, suffix: string, v: string)
    ensures LastBinding(Conditions(stmt), suffix, v) <==> Binds(stmt, suffix, v)
  {
    hide Member, Lacks, Unbound, LastIn;
    GetIff(stmt, "Condition");
    var c := Get(stmt, "Condition");
    if c.Some? { assert Member(stmt, "Condition", c.value); }
  }

  lemma BindsNothingIs(stmt: Json, suffix: string)
    ensures Unbound(Conditions(stmt), suffix) <==> BindsNothing(stmt, suffix)
  {
    hide Member, Lacks, NoBinding;
    GetIff(stmt, "Condition");
    var c := Get(stmt, "Condition");
    if c.Some? { assert Member(stmt, "Condition", c.value); }
  }
}
