/** The in-enclave check of a KMS key policy: every Allow statement, its actions and its PCR bindings. */
module KmsPolicy {
  import opened Wrappers
  import Hex
  import opened ChainTypes
  import opened PolicyDocument
  import opened PolicyReader

  const DECRYPT := "kms:decrypt"
  const REENCRYPT := "kms:reencrypt"
  const FORBIDDEN_ACTIONS := ["kms:putkeypolicy", "kms:creategrant", "kms:replicatekey"]

  predicate IsForbidden(action: string) {
    action in FORBIDDEN_ACTIONS || StartsWith(action, REENCRYPT)
  }

  // ----- The check -----

  /** The bindings that count pin the first `n` PCRs to `own`. */
  predicate PinsFirst(stmt: Json, own: Pcrs, n: nat)
    requires n <= 3
  {
    var bound := LastWins(ConditionBindings(Conditions(stmt)));
    forall k :: 0 <= k < n ==>
      Suffix(k) in bound && Hex.EqIgnoreCase(bound[Suffix(k)], Hex.Encode(Pcr(own, k)))
  }

  predicate Pins(stmt: Json, own: Pcrs) {
    PinsFirst(stmt, own, 3)
  }

  predicate ActionsExplicit(actions: seq<string>) {
    forall i :: 0 <= i < |actions| ==> !HasWildcard(actions[i]) && !IsForbidden(actions[i])
  }

  /** An Allow statement the check lets through. */
  predicate Acceptable(stmt: Json, own: Pcrs)
  {
    var actions := NormalizeActions(Get(stmt, "Action"));
    Get(stmt, "NotAction").None? && ActionsExplicit(actions) && (DECRYPT in actions ==> Pins(stmt, own))
  }

  /** What is wrong with an action. */
  predicate ActionFault(action: string, e: PolicyError) {
    if HasWildcard(action) then e == WildcardAction(action) else IsForbidden(action) && e == ForbiddenAction(action)
  }

  /** What is wrong with the binding of PCR `k`. */
  predicate PinFault(stmt: Json, own: Pcrs, k: nat, e: PolicyError)
    requires k < 3
  {
    var bound, expected := LastWins(ConditionBindings(Conditions(stmt))), Hex.Encode(Pcr(own, k));
    if Suffix(k) !in bound then e == UngatedDecrypt
    else
      var found := bound[Suffix(k)];
      !Hex.EqIgnoreCase(found, expected) && e == PolicyError.PcrMismatch(k, found, expected)
  }

  predicate FirstActionFault(actions: seq<string>, e: PolicyError) {
    exists i :: 0 <= i < |actions| && ActionsExplicit(actions[..i]) && ActionFault(actions[i], e)
  }

  predicate FirstPinFault(stmt: Json, own: Pcrs, e: PolicyError) {
    exists k: nat :: k < 3 && PinsFirst(stmt, own, k) && PinFault(stmt, own, k, e)
  }

  /** The first fault of a statement, in the order the check looks. */
  predicate FirstFault(stmt: Json, own: Pcrs, e: PolicyError) {
    var actions := NormalizeActions(Get(stmt, "Action"));
    if Get(stmt, "NotAction").Some? then e == NotAction
    else if !ActionsExplicit(actions) then FirstActionFault(actions, e)
    else DECRYPT in actions && FirstPinFault(stmt, own, e)
  }

  // ----- What the check decides, on the document -----

  lemma ForbiddenIff(action: string)
    ensures IsForbidden(action) <==> Loosens(action)
  {
    assert FORBIDDEN_ACTIONS[0] == "kms:putkeypolicy" && FORBIDDEN_ACTIONS[1] == "kms:creategrant";
    assert FORBIDDEN_ACTIONS[2] == "kms:replicatekey";
  }

  /** The bound text is our PCR's hexadecimal, in any case. */
  lemma HexIff(found: string, pcr: Bytes)
    ensures Hex.EqIgnoreCase(found, Hex.Encode(pcr)) <==> Hex.Decode(found) == Some(pcr)
  {
    Hex.EncodeIsLower(pcr);
    Hex.DecodeIff(found, pcr);
  }

  lemma PinIff(stmt: Json, own: Pcrs, k: nat)
    requires k < 3
    ensures var bound := LastWins(ConditionBindings(Conditions(stmt)));
            Suffix(k) in bound && Hex.EqIgnoreCase(bound[Suffix(k)], Hex.Encode(Pcr(own, k))) <==>
            BindsTo(stmt, Suffix(k), Pcr(own, k))
  {
    hide LastWins, ConditionBindings, Conditions, Hex.EqIgnoreCase, Hex.Encode, Hex.Decode, Binds, BindsNothing;
    var bound := LastWins(ConditionBindings(Conditions(stmt)));
    BindsIff(stmt, Suffix(k));
    if Suffix(k) in bound { HexIff(bound[Suffix(k)], Pcr(own, k)); }
  }

  lemma PinsIff(stmt: Json, own: Pcrs)
    ensures Pins(stmt, own) <==> Gated(stmt, own)
  {
    hide LastWins, ConditionBindings, Conditions, Hex.EqIgnoreCase, Hex.Encode, BindsTo;
    PinIff(stmt, own, 0);
    PinIff(stmt, own, 1);
    PinIff(stmt, own, 2);
  }

  lemma ExplicitIff(stmt: Json)
    ensures ActionsExplicit(NormalizeActions(Get(stmt, "Action"))) <==> Explicit(stmt)
  {
    hide HasWildcard, IsForbidden, Loosens, Hex.Lower, Names, NormalizeActions;
    var actions := NormalizeActions(Get(stmt, "Action"));
    forall i | 0 <= i < |actions| && Explicit(stmt) ensures !HasWildcard(actions[i]) && !IsForbidden(actions[i]) {
      ActionsIff(stmt, actions[i]);
      ForbiddenIff(actions[i]);
    }
    forall p | Names(stmt, "Action", p) && ActionsExplicit(actions)
      ensures !HasWildcard(Hex.Lower(p)) && !Loosens(Hex.Lower(p))
    {
      ActionsIff(stmt, Hex.Lower(p));
      ForbiddenIff(Hex.Lower(p));
    }
  }

  /** A statement passes exactly when it is explicit and, where it allows decryption, gated to us. */
  lemma AcceptableIff(stmt: Json, own: Pcrs)
    ensures Acceptable(stmt, own) <==> Harmless(stmt, own)
  {
    hide ActionsExplicit, Explicit, Pins, Gated, Lacks, Member, NormalizeActions, Names;
    GetIff(stmt, "NotAction");
    ExplicitIff(stmt);
    PinsIff(stmt, own);
    ActionsIff(stmt, DECRYPT);
  }

  lemma AllowIff(stmt: Json)
    ensures IsAllow(stmt) <==> Member(stmt, "Effect", JString("Allow"))
  {
    hide Member, Lacks;
    GetIff(stmt, "Effect");
  }

  /** The statements the check goes through all pass exactly when the document is acceptable. */
  lemma AcceptsIff(doc: Json, own: Pcrs)
    ensures StatementsOf(doc).Some? && AllAcceptable(StatementsOf(doc).value, own) <==> Accepts(doc, own)
  {
    hide StatementsOf, Acceptable, Harmless, IsAllow, Member, IsStatement, Lacks;
    StatementsIff(doc);
    if StatementsOf(doc).Some? {
      var statements := StatementsOf(doc).value;
      forall stmt ensures Acceptable(stmt, own) <==> Harmless(stmt, own) { AcceptableIff(stmt, own); }
      forall stmt ensures IsAllow(stmt) <==> Member(stmt, "Effect", JString("Allow")) { AllowIff(stmt); }
      assert AllAcceptable(statements, own) <==> forall stmt :: stmt in statements && IsAllow(stmt) ==>
                                                                Acceptable(stmt, own);
    }
  }

  lemma ActionFaultIsTrue(stmt: Json, own: Pcrs, e: PolicyError)
    requires FirstActionFault(NormalizeActions(Get(stmt, "Action")), e)
    ensures StatementFault(stmt, own, e)
  {
    hide NormalizeActions, IsForbidden, Loosens, HasWildcard, ActionIs, ActionsExplicit;
    var actions := NormalizeActions(Get(stmt, "Action"));
    var i :| 0 <= i < |actions| && ActionsExplicit(actions[..i]) && ActionFault(actions[i], e);
    ActionsIff(stmt, actions[i]);
    ForbiddenIff(actions[i]);
  }

  lemma PinFaultIsTrue(stmt: Json, own: Pcrs, e: PolicyError)
    requires FirstPinFault(stmt, own, e) && Decrypts(stmt)
    ensures StatementFault(stmt, own, e)
  {
    hide LastWins, ConditionBindings, Conditions, Hex.EqIgnoreCase, Hex.Encode, Hex.Decode, Binds, BindsNothing;
    hide Decrypts, PinsFirst;
    var k: nat :| k < 3 && PinsFirst(stmt, own, k) && PinFault(stmt, own, k, e);
    BindsIff(stmt, Suffix(k));
    if e.PcrMismatch? { HexIff(e.found, Pcr(own, k)); }
  }

  /** What an error says is true of the statement it comes from. */
  lemma FirstFaultIsTrue(stmt: Json, own: Pcrs, e: PolicyError)
    requires FirstFault(stmt, own, e)
    ensures StatementFault(stmt, own, e)
  {
    hide FirstActionFault, FirstPinFault, NormalizeActions, ActionsExplicit, Member, Lacks, ActionIs;
    GetIff(stmt, "NotAction");
    var actions := NormalizeActions(Get(stmt, "Action"));
    if Get(stmt, "NotAction").Some? {
    } else if !ActionsExplicit(actions) {
      ActionFaultIsTrue(stmt, own, e);
    } else {
      assert Decrypts(stmt) by { DecryptsIff(stmt); }
      PinFaultIsTrue(stmt, own, e);
    }
  }

  lemma DecryptsIff(stmt: Json)
    ensures DECRYPT in NormalizeActions(Get(stmt, "Action")) <==> Decrypts(stmt)
  {
    hide NormalizeActions, Names;
    ActionsIff(stmt, DECRYPT);
  }

  lemma FaultFrom(doc: Json, stmt: Json, own: Pcrs, e: PolicyError)
    requires StatementsOf(doc).Some? && stmt in StatementsOf(doc).value && IsAllow(stmt) && FirstFault(stmt, own, e)
    ensures Fault(doc, own, e)
  {
    hide StatementsOf, Lacks, FirstFault, IsAllow, Member, IsStatement;
    StatementsIff(doc);
    AllowIff(stmt);
    FirstFaultIsTrue(stmt, own, e);
    assert AllowStatement(doc, stmt);
  }

  lemma NoStatementsIsTrue(doc: Json, own: Pcrs)
    requires Lacks(doc, "Statement")
    ensures Fault(doc, own, NoStatements)
  {
  }

  method CheckActions(actions: seq<string>) returns (r: Option<PolicyError>)
    ensures r.None? <==> ActionsExplicit(actions)
    ensures r.Some? ==> FirstActionFault(actions, r.value)
  {
    for i := 0 to |actions|
      invariant ActionsExplicit(actions[..i])
    {
      var action := actions[i];
      if HasWildcard(action) { return Some(WildcardAction(action)); }
      if IsForbidden(action) { return Some(ForbiddenAction(action)); }
    }
    assert actions[..|actions|] == actions;
    return None;
  }

  method CheckBindings(stmt: Json, own: Pcrs) returns (r: Option<PolicyError>)
    ensures r.None? <==> Pins(stmt, own)
    ensures r.Some? ==> FirstPinFault(stmt, own, r.value)
  {
    hide Hex.Encode, Hex.EqIgnoreCase, LastWins, ConditionBindings;
    var bound := CollectPcrBindings(stmt);
    for k := 0 to 3
      invariant PinsFirst(stmt, own, k)
    {
      if Suffix(k) !in bound {
        assert PinFault(stmt, own, k, UngatedDecrypt);
        return Some(UngatedDecrypt);
      }
      var found, expected := bound[Suffix(k)], Hex.Encode(Pcr(own, k));
      if !Hex.EqIgnoreCase(found, expected) {
        assert PinFault(stmt, own, k, PolicyError.PcrMismatch(k, found, expected));
        return Some(PolicyError.PcrMismatch(k, found, expected));
      }
    }
    return None;
  }

  predicate AllAcceptable(statements: seq<Json>, own: Pcrs)
  {
    forall i :: 0 <= i < |statements| && IsAllow(statements[i]) ==> Acceptable(statements[i], own)
  }

  /** The check accepts exactly the documents whose every Allow statement is acceptable, and otherwise reports the first
      fault of the first Allow statement that is not. */
  method VerifyDecryptPolicy(policy: Option<Json>, own: Pcrs) returns (r: Option<PolicyError>)
    ensures policy.None? <==> r == Some(NotJson)
    ensures policy.Some? ==> (Lacks(policy.value, "Statement") <==> r == Some(NoStatements))
    ensures policy.Some? ==> (r.None? <==> Accepts(policy.value, own))
    ensures policy.Some? && r.Some? ==> Fault(policy.value, own, r.value)
    ensures policy.Some? && StatementsOf(policy.value).Some? && r.Some? ==>
        var statements := StatementsOf(policy.value).value;
        exists i :: 0 <= i < |statements| && AllAcceptable(statements[..i], own) && IsAllow(statements[i]) &&
                    FirstFault(statements[i], own, r.value)
  {
    hide Acceptable, FirstFault, StatementsOf, Lacks, Accepts, Fault, IsAllow;
    if policy.None? { return Some(NotJson); }
    var statements := StatementsOf(policy.value);
    StatementsIff(policy.value);
    AcceptsIff(policy.value, own);
    if statements.None? {
      NoStatementsIsTrue(policy.value, own);
      return Some(NoStatements);
    }
    for i := 0 to |statements.value|
      invariant AllAcceptable(statements.value[..i], own)
    {
      var stmt := statements.value[i];
      if !IsAllow(stmt) { continue; }
      var refused := CheckStatement(stmt, own);
      if refused.Some? {
        FaultFrom(policy.value, stmt, own, refused.value);
        return refused;
      }
    }
    assert statements.value[..|statements.value|] == statements.value;
    return None;
  }

  method CheckStatement(stmt: Json, own: Pcrs) returns (r: Option<PolicyError>)
    ensures r.None? <==> Acceptable(stmt, own)
    ensures r.Some? ==> !r.value.NotJson? && !r.value.NoStatements? && FirstFault(stmt, own, r.value)
  {
    hide Pins, ActionsExplicit;
    if Get(stmt, "NotAction").Some? { return Some(NotAction); }
    var actions := NormalizeActions(Get(stmt, "Action"));
    r := CheckActions(actions);
    if r.None? && DECRYPT in actions { r := CheckBindings(stmt, own); }
  }
}
