/** The check against what the policy means: under an evaluator with glob actions and conjunctive conditions, an
    accepted policy never lets a foreign enclave decrypt and never grants a way to loosen the gate. */
module PolicySoundness {
  import opened Wrappers
  import opened ChainTypes
  import opened PolicyDocument
  import Hex

  /** A KMS request: its action, the PCR0-2 of the attestation document it carries, and its other context keys. */
  datatype Request = Request(action: string, attested: Option<Pcrs>, other: string -> Option<string>)

  /** The parts of evaluation the check does not rely on: which statements cover a request's principal and resource, and
      what the remaining condition operators mean. */
  datatype Engine = Engine(covers: (Json, string) -> bool, operator: (string, Option<string>, Json) -> bool)

  // ----- The evaluator -----

  /** Glob matching: `*` stands for any run of characters, `?` for exactly one. */
  predicate Glob(pattern: string, s: string)
    decreases |pattern| + |s|
  {
    if pattern == "" then s == ""
    else if pattern[0] == '*' then Glob(pattern[1..], s) || (s != "" && Glob(pattern, s[1..]))
    else s != "" && (pattern[0] == '?' || pattern[0] == s[0]) && Glob(pattern[1..], s[1..])
  }

  /** Some listed pattern matches the action; case does not matter. */
  ghost predicate Matches(stmt: Json, element: string, action: string) {
    exists p :: Names(stmt, element, p) && Glob(Hex.Lower(p), Hex.Lower(action))
  }

  ghost predicate ActionMatches(stmt: Json, action: string) {
    || Matches(stmt, "Action", action)
    || (!Lacks(stmt, "NotAction") && !Matches(stmt, "NotAction", action))
  }

  function AttestedPcr(req: Request, k: nat): (r: Option<string>)
    requires k < 3
  {
    if req.attested.None? then None else Some(Hex.Encode(Pcr(req.attested.value, k)))
  }

  /** The value a request has for a condition key; key names do not depend on case. */
  function ContextValue(req: Request, key: string): (r: Option<string>) {
    var name := Hex.Lower(key);
    if name == "kms:recipientattestation:pcr0" then AttestedPcr(req, 0)
    else if name == "kms:recipientattestation:pcr1" then AttestedPcr(req, 1)
    else if name == "kms:recipientattestation:pcr2" then AttestedPcr(req, 2)
    else req.other(name)
  }

  ghost predicate ConditionHolds(engine: Engine, op: string, key: string, value: Json, req: Request) {
    var v := ContextValue(req, key);
    if op == "StringEquals" then v.Some? && Lists(value, v.value)
    else if op == "StringEqualsIgnoreCase" then v.Some? && exists s :: Lists(value, s) && Hex.EqIgnoreCase(v.value, s)
    else engine.operator(op, v, value)
  }

  ghost predicate InBlock(conds: seq<(string, Json)>, op: string, key: string, value: Json) {
    exists i :: 0 <= i < |conds| && conds[i].0 == op && conds[i].1.JObject? && (key, value) in conds[i].1.members
  }

  ghost predicate HasCondition(stmt: Json, op: string, key: string, value: Json) {
    exists c :: Member(stmt, "Condition", c) && c.JObject? && InBlock(c.members, op, key, value)
  }

  /** Conditions are conjunctive: every operator, every key. */
  ghost predicate ConditionsHold(engine: Engine, stmt: Json, req: Request) {
    forall op, key, value :: HasCondition(stmt, op, key, value) ==> ConditionHolds(engine, op, key, value, req)
  }

  ghost predicate Applies(engine: Engine, stmt: Json, req: Request) {
    engine.covers(stmt, req.action) && ActionMatches(stmt, req.action) && ConditionsHold(engine, stmt, req)
  }

  ghost predicate Granted(engine: Engine, doc: Json, req: Request) {
    exists stmt :: AllowStatement(doc, stmt) && Applies(engine, stmt, req)
  }

  ghost predicate Denied(engine: Engine, doc: Json, req: Request) {
    exists stmt :: IsStatement(doc, stmt) && Member(stmt, "Effect", JString("Deny")) && Applies(engine, stmt, req)
  }

  /** Some Allow statement of the document applies and no Deny statement does. */
  ghost predicate Allowed(engine: Engine, doc: Json, req: Request) {
    Granted(engine, doc, req) && !Denied(engine, doc, req)
  }

  // ----- Soundness -----

  lemma {:induction false} LiteralGlob(pattern: string, s: string)
    requires !HasWildcard(pattern)
    ensures Glob(pattern, s) <==> pattern == s
    decreases |pattern|
  {
    if pattern == "" || s == "" {
    } else {
      LiteralGlob(pattern[1..], s[1..]);
      assert pattern == [pattern[0]] + pattern[1..] && s == [s[0]] + s[1..];
    }
  }

  /** A statement that passes matches only actions it names, none of them loosening the gate. */
  lemma NamedActionsOnly(stmt: Json, own: Pcrs, action: string)
    requires Harmless(stmt, own) && ActionMatches(stmt, action)
    ensures ActionIs(stmt, Hex.Lower(action)) && !Loosens(Hex.Lower(action))
  {
    hide Gated, Loosens, Names, Glob, HasWildcard;
    var p :| Names(stmt, "Action", p) && Glob(Hex.Lower(p), Hex.Lower(action));
    LiteralGlob(Hex.Lower(p), Hex.Lower(action));
  }

  /** The condition a binding stands for. */
  lemma BindingIsCondition(stmt: Json, suffix: string, value: string) returns (op: string, key: string)
    requires Binds(stmt, suffix, value)
    ensures IsEquality(op) && IsPcrKey(key, suffix) && HasCondition(stmt, op, key, JString(value))
  {
    hide Member, NoBinding, IsEquality, IsPcrKey, Unbound;
    var c :| Member(stmt, "Condition", c) && c.JObject? && LastBinding(c.members, suffix, value);
    var conds := c.members;
    var i :| 0 <= i < |conds| && IsEquality(conds[i].0) && conds[i].1.JObject? &&
             LastIn(conds[i].1.members, suffix, value) && Unbound(conds[i + 1..], suffix);
    var members := conds[i].1.members;
    var j :| 0 <= j < |members| && IsPcrKey(members[j].0, suffix) && members[j].1 == JString(value) &&
             NoBinding(members[j + 1..], suffix);
    op, key := conds[i].0, members[j].0;
    assert members[j] == (key, JString(value));
    assert InBlock(conds, op, key, JString(value));
  }

  lemma LowerConcat(a: string, b: string)
    ensures Hex.Lower(a + b) == Hex.Lower(a) + Hex.Lower(b)
  {
  }

  lemma PrefixesFold()
    ensures Hex.Lower("kms:RecipientAttestation:PCR") == "kms:recipientattestation:pcr"
    ensures Hex.Lower("kms:RecipientAttestation:pcr") == "kms:recipientattestation:pcr"
  {
  }

  /** Both spellings of the key name the attested PCR. */
  lemma PcrContext(req: Request, key: string, k: nat)
    requires k < 3 && IsPcrKey(key, Suffix(k))
    ensures ContextValue(req, key) == AttestedPcr(req, k)
  {
    hide Hex.Encode, Hex.Lower, AttestedPcr;
    PrefixesFold();
    LowerConcat("kms:RecipientAttestation:PCR", Suffix(k));
    LowerConcat("kms:RecipientAttestation:pcr", Suffix(k));
    assert Hex.Lower(Suffix(k)) == Suffix(k) by { DigitsAreLower(k); }
    assert Hex.Lower(key) == "kms:recipientattestation:pcr" + Suffix(k);
    assert "kms:recipientattestation:pcr" + "0" == "kms:recipientattestation:pcr0";
    assert "kms:recipientattestation:pcr" + "1" == "kms:recipientattestation:pcr1";
    assert "kms:recipientattestation:pcr" + "2" == "kms:recipientattestation:pcr2";
  }

  lemma DigitsAreLower(k: nat)
    requires k < 3
    ensures Hex.Lower(Suffix(k)) == Suffix(k)
  {
  }

  /** A binding that holds of a request fixes the attested PCR. */
  lemma BindingFixesPcr(engine: Engine, stmt: Json, own: Pcrs, req: Request, k: nat)
    requires k < 3 && BindsTo(stmt, Suffix(k), Pcr(own, k)) && ConditionsHold(engine, stmt, req)
    ensures req.attested.Some? && Pcr(req.attested.value, k) == Pcr(own, k)
  {
    hide Hex.Encode, Hex.Decode, Hex.Lower, Binds, IsPcrKey, HasCondition, ContextValue;
    var value :| Binds(stmt, Suffix(k), value) && Hex.Decode(value) == Some(Pcr(own, k));
    var op, key := BindingIsCondition(stmt, Suffix(k), value);
    assert ConditionHolds(engine, op, key, JString(value), req);
    PcrContext(req, key, k);
    var mine, theirs := Pcr(own, k), Pcr(req.attested.value, k);
    assert Hex.EqIgnoreCase(Hex.Encode(theirs), value);
    Hex.DecodeIff(value, mine);
    Hex.EncodeIsLower(theirs);
    Hex.EncodeInjective(mine, theirs);
  }

  /** A statement that binds PCR0-2 has its conditions met by our enclave's requests only. */
  lemma PinnedRequestIsOurs(engine: Engine, stmt: Json, own: Pcrs, req: Request)
    requires Gated(stmt, own) && ConditionsHold(engine, stmt, req)
    ensures req.attested == Some(own)
  {
    hide ConditionsHold, BindsTo;
    BindingFixesPcr(engine, stmt, own, req, 0);
    BindingFixesPcr(engine, stmt, own, req, 1);
    BindingFixesPcr(engine, stmt, own, req, 2);
  }

  /** Soundness: on an accepted document, whatever the principals, the other conditions and the Deny statements, a
      request to decrypt is allowed only with exactly our PCR0-2 attested, and no request to rewrite the policy, create
      a grant, replicate the key or re-encrypt is ever allowed. */
  lemma AcceptedPolicyIsSound(engine: Engine, doc: Json, own: Pcrs, req: Request)
    requires Accepts(doc, own) && Allowed(engine, doc, req)
    ensures Hex.Lower(req.action) == "kms:decrypt" ==> req.attested == Some(own)
    ensures !Loosens(Hex.Lower(req.action))
  {
    hide ConditionsHold, ActionMatches, Loosens, Gated, AllowStatement, Denied, Lacks, Explicit, Names;
    var stmt :| AllowStatement(doc, stmt) && Applies(engine, stmt, req);
    NamedActionsOnly(stmt, own, req.action);
    if Hex.Lower(req.action) == "kms:decrypt" {
      PinnedRequestIsOurs(engine, stmt, own, req);
    }
  }

  // ----- The gate opens for our enclave -----

  function PcrKey(k: nat): string
    requires k < 3
  {
    "kms:RecipientAttestation:PCR" + Suffix(k)
  }

  function Gate(own: Pcrs): (members: seq<(string, Json)>)
    ensures |members| == 3
    ensures forall k :: 0 <= k < 3 ==> members[k] == (PcrKey(k), JString(Hex.Encode(Pcr(own, k))))
  {
    [(PcrKey(0), JString(Hex.Encode(Pcr(own, 0)))), (PcrKey(1), JString(Hex.Encode(Pcr(own, 1)))),
     (PcrKey(2), JString(Hex.Encode(Pcr(own, 2))))]
  }

  /** A statement that allows decryption, gated to one enclave and otherwise unconditional. */
  ghost predicate IsGated(stmt: Json, own: Pcrs) {
    && Member(stmt, "Effect", JString("Allow"))
    && Lacks(stmt, "NotAction")
    && Member(stmt, "Action", JString("kms:Decrypt"))
    && Member(stmt, "Condition", JObject([("StringEqualsIgnoreCase", JObject(Gate(own)))]))
  }

  /** A statement that names its actions, none of them decryption or loosening the gate. */
  ghost predicate IsLifecycle(stmt: Json) {
    Lacks(stmt, "NotAction") && Explicit(stmt) && !Decrypts(stmt)
  }

  /** Every Allow statement is gated to one enclave or is about the key's life only. */
  ghost predicate IsGatedPolicy(doc: Json, own: Pcrs) {
    !Lacks(doc, "Statement") &&
    forall stmt :: AllowStatement(doc, stmt) ==> IsGated(stmt, own) || IsLifecycle(stmt)
  }

  /** A gated statement of a document lets our own attested request to decrypt through, unless a Deny statement stops
      it. */
  lemma OwnEnclaveAllowed(engine: Engine, doc: Json, stmt: Json, own: Pcrs, req: Request)
    requires IsStatement(doc, stmt) && IsGated(stmt, own) && engine.covers(stmt, req.action)
    requires req.attested == Some(own) && Hex.Lower(req.action) == "kms:decrypt" && !Denied(engine, doc, req)
    ensures Allowed(engine, doc, req)
  {
    hide ActionMatches, ConditionsHold, Denied, Member, IsStatement, Lacks, Gate;
    assert ActionMatches(stmt, req.action) by { GatedActionMatches(stmt, req.action); }
    assert ConditionsHold(engine, stmt, req) by { OwnConditionsHold(engine, stmt, own, req); }
    assert AllowStatement(doc, stmt) && Applies(engine, stmt, req);
  }

  /** A gated policy, such as the ones the backend writes, is accepted, and it decides decryption exactly: where its
      gated statement covers the request and no Deny statement stops it, our enclave and no other is let through. */
  lemma GatedPolicyDecides(engine: Engine, doc: Json, stmt: Json, own: Pcrs, req: Request)
    requires IsGatedPolicy(doc, own) && IsStatement(doc, stmt) && IsGated(stmt, own)
    requires engine.covers(stmt, req.action) && Hex.Lower(req.action) == "kms:decrypt" && !Denied(engine, doc, req)
    ensures Accepts(doc, own)
    ensures Allowed(engine, doc, req) <==> req.attested == Some(own)
  {
    hide IsGated, Denied, Granted, Lacks, Loosens, IsStatement, IsGatedPolicy, Accepts;
    GatedPolicyAccepted(doc, own);
    if Allowed(engine, doc, req) { AcceptedPolicyIsSound(engine, doc, own, req); }
    if req.attested == Some(own) { OwnEnclaveAllowed(engine, doc, stmt, own, req); }
  }

  /** The same where the `Statement` member is a single gated object: nothing can deny. */
  lemma SingleStatementDecides(engine: Engine, doc: Json, stmt: Json, own: Pcrs, req: Request)
    requires Member(doc, "Statement", stmt) && IsGated(stmt, own)
    requires engine.covers(stmt, req.action) && Hex.Lower(req.action) == "kms:decrypt"
    ensures Accepts(doc, own)
    ensures Allowed(engine, doc, req) <==> req.attested == Some(own)
  {
    hide Member, IsGated, Lacks, Applies, Accepts;
    assert !stmt.JArray? by { GatedIsObject(stmt, own); }
    OnlyStatement(doc, stmt);
    assert !Denied(engine, doc, req) by { NotDenied(stmt, own); }
    assert !Lacks(doc, "Statement") by { PresentNotLacking(doc, "Statement", stmt); }
    GatedPolicyDecides(engine, doc, stmt, own, req);
  }

  lemma GatedIsObject(stmt: Json, own: Pcrs)
    requires IsGated(stmt, own)
    ensures stmt.JObject?
  {
  }

  lemma OnlyStatement(doc: Json, stmt: Json)
    requires Member(doc, "Statement", stmt) && !stmt.JArray?
    ensures forall s :: IsStatement(doc, s) <==> s == stmt
  {
    hide Member;
    forall s | IsStatement(doc, s) ensures s == stmt {
      var m :| Member(doc, "Statement", m) && if m.JArray? then s in m.items else s == m;
      MemberUnique(doc, "Statement", m, stmt);
    }
  }

  lemma NotDenied(stmt: Json, own: Pcrs)
    requires IsGated(stmt, own)
    ensures !Member(stmt, "Effect", JString("Deny"))
  {
    hide Member, Lacks, Gate;
    if Member(stmt, "Effect", JString("Deny")) {
      MemberUnique(stmt, "Effect", JString("Deny"), JString("Allow"));
    }
  }

  lemma PresentNotLacking(v: Json, key: string, value: Json)
    requires Member(v, key, value)
    ensures !Lacks(v, key)
  {
  }

  lemma GatedPolicyAccepted(doc: Json, own: Pcrs)
    requires IsGatedPolicy(doc, own)
    ensures Accepts(doc, own)
  {
    hide IsGated, Gated, AllowStatement, Explicit, Decrypts, Lacks;
    forall stmt | AllowStatement(doc, stmt) ensures Harmless(stmt, own) {
      if IsGated(stmt, own) { GatedStatementAccepted(stmt, own); }
    }
  }

  /** A gated statement names decryption and nothing else. */
  lemma GatedNames(stmt: Json, own: Pcrs, p: string)
    requires IsGated(stmt, own)
    ensures Names(stmt, "Action", p) <==> p == "kms:Decrypt"
  {
    hide Member, Lacks, Gate;
    forall v | Member(stmt, "Action", v) ensures v == JString("kms:Decrypt") {
      MemberUnique(stmt, "Action", v, JString("kms:Decrypt"));
    }
  }

  lemma DecryptFolds()
    ensures Hex.Lower("kms:Decrypt") == "kms:decrypt"
  {
  }

  lemma GatedActionMatches(stmt: Json, action: string)
    requires Member(stmt, "Action", JString("kms:Decrypt")) && Hex.Lower(action) == "kms:decrypt"
    ensures ActionMatches(stmt, action)
  {
    hide Glob, Member, Lacks;
    DecryptFolds();
    LiteralGlob("kms:decrypt", "kms:decrypt");
    assert Lists(JString("kms:Decrypt"), "kms:Decrypt");
    assert Names(stmt, "Action", "kms:Decrypt");
  }

  lemma OwnConditionsHold(engine: Engine, stmt: Json, own: Pcrs, req: Request)
    requires Member(stmt, "Condition", JObject([("StringEqualsIgnoreCase", JObject(Gate(own)))]))
    requires req.attested == Some(own)
    ensures ConditionsHold(engine, stmt, req)
  {
    hide Hex.Encode, ConditionHolds, Member, Gate, PcrKey;
    var block := JObject([("StringEqualsIgnoreCase", JObject(Gate(own)))]);
    forall op, key, value | HasCondition(stmt, op, key, value) ensures ConditionHolds(engine, op, key, value, req) {
      var c :| Member(stmt, "Condition", c) && c.JObject? && InBlock(c.members, op, key, value);
      MemberUnique(stmt, "Condition", c, block);
      var k :| 0 <= k < 3 && Gate(own)[k] == (key, value);
      OwnConditionHolds(engine, own, req, k);
    }
  }

  lemma OwnConditionHolds(engine: Engine, own: Pcrs, req: Request, k: nat)
    requires k < 3 && req.attested == Some(own)
    ensures ConditionHolds(engine, "StringEqualsIgnoreCase", PcrKey(k), JString(Hex.Encode(Pcr(own, k))), req)
  {
    hide Hex.Encode, Hex.Lower, ContextValue;
    PcrContext(req, PcrKey(k), k);
    assert Lists(JString(Hex.Encode(Pcr(own, k))), Hex.Encode(Pcr(own, k)));
  }

  lemma GatedStatementAccepted(stmt: Json, own: Pcrs)
    requires IsGated(stmt, own)
    ensures Harmless(stmt, own)
  {
    hide Member, Gated, Names, Loosens, HasWildcard, Lacks, Gate;
    DecryptFolds();
    DecryptIsNarrow();
    forall p | Names(stmt, "Action", p) ensures !HasWildcard(Hex.Lower(p)) && !Loosens(Hex.Lower(p)) {
      GatedNames(stmt, own, p);
    }
    GateBinds(stmt, own);
  }

  lemma DecryptIsNarrow()
    ensures !HasWildcard("kms:decrypt") && !Loosens("kms:decrypt")
  {
    assert "kms:decrypt"[4] != "kms:reencrypt"[4];
    assert "kms:decrypt"[4] != "kms:putkeypolicy"[4] && "kms:decrypt"[4] != "kms:creategrant"[4];
    assert "kms:decrypt"[4] != "kms:replicatekey"[4];
  }

  lemma GateBinds(stmt: Json, own: Pcrs)
    requires Member(stmt, "Condition", JObject([("StringEqualsIgnoreCase", JObject(Gate(own)))]))
    ensures Gated(stmt, own)
  {
    hide BindsTo;
    GateBindsOne(stmt, own, 0);
    GateBindsOne(stmt, own, 1);
    GateBindsOne(stmt, own, 2);
  }

  lemma GateBindsOne(stmt: Json, own: Pcrs, k: nat)
    requires k < 3 && Member(stmt, "Condition", JObject([("StringEqualsIgnoreCase", JObject(Gate(own)))]))
    ensures BindsTo(stmt, Suffix(k), Pcr(own, k))
  {
    hide Member, Hex.Encode, Hex.Decode, LastIn, Gate;
    var block, value := [("StringEqualsIgnoreCase", JObject(Gate(own)))], Hex.Encode(Pcr(own, k));
    Hex.DecodeEncode(Pcr(own, k));
    GateIn(own, k);
    assert block[0].1.members == Gate(own) && block[1..] == [] && Unbound([], Suffix(k));
    assert LastBinding(block, Suffix(k), value);
    assert Binds(stmt, Suffix(k), value);
  }

  lemma GateIn(own: Pcrs, k: nat)
    requires k < 3
    ensures LastIn(Gate(own), Suffix(k), Hex.Encode(Pcr(own, k)))
  {
    hide Hex.Encode, IsPcrKey, PcrKey, Gate;
    var members := Gate(own);
    assert IsPcrKey(members[k].0, Suffix(k)) by { KeysDiffer(k, k); }
    var rest := members[k + 1..];
    forall j | 0 <= j < |rest| ensures !Binding(rest[j], Suffix(k)) {
      assert rest[j] == members[k + 1 + j];
      KeysDiffer(k + 1 + j, k);
    }
  }

  lemma KeysDiffer(j: nat, k: nat)
    requires j < 3 && k < 3
    ensures IsPcrKey(PcrKey(j), Suffix(k)) <==> j == k
  {
    assert PcrKey(j)[25] == 'P' && ("kms:RecipientAttestation:pcr" + Suffix(k))[25] == 'p';
    assert PcrKey(j)[28] == Suffix(j)[0] && ("kms:RecipientAttestation:PCR" + Suffix(k))[28] == Suffix(k)[0];
  }

  /** The key-life actions of the backend's policies are explicit and none of them is decryption. */
  lemma LifecycleActions(stmt: Json, v: Json)
    requires Lacks(stmt, "NotAction") && Member(stmt, "Action", v)
    requires || v == JString("kms:GetPublicKey")
             || v == JArray([JString("kms:DescribeKey"), JString("kms:GetKeyPolicy"),
                             JString("kms:ScheduleKeyDeletion")])
    ensures IsLifecycle(stmt)
  {
    hide HasWildcard, Loosens, Hex.Lower, Member, Lacks;
    HarmlessNames();
    forall p | Names(stmt, "Action", p) ensures KeyLife(p) {
      var w :| Member(stmt, "Action", w) && Lists(w, p);
      MemberUnique(stmt, "Action", v, w);
    }
  }

  predicate KeyLife(name: string) {
    !HasWildcard(Hex.Lower(name)) && !Loosens(Hex.Lower(name)) && Hex.Lower(name) != "kms:decrypt"
  }

  lemma HarmlessNames()
    ensures KeyLife("kms:GetPublicKey") && KeyLife("kms:DescribeKey")
    ensures KeyLife("kms:GetKeyPolicy") && KeyLife("kms:ScheduleKeyDeletion")
  {
    hide KeyLife;
    HarmlessByLetters("kms:GetPublicKey");
    HarmlessByLetters("kms:DescribeKey");
    HarmlessByLetters("kms:GetKeyPolicy");
    HarmlessByLetters("kms:ScheduleKeyDeletion");
  }

  /** The dangerous actions begin with p, c or r after the prefix; decryption has a c as its third letter. */
  lemma HarmlessByLetters(name: string)
    requires |name| > 6 && !HasWildcard(name)
    requires Hex.LowerChar(name[4]) !in {'p', 'c', 'r'} && Hex.LowerChar(name[6]) != 'c'
    ensures KeyLife(name)
  {
    var lower := Hex.Lower(name);
    assert !HasWildcard(lower) by {
      assert forall i :: 0 <= i < |lower| ==> lower[i] == Hex.LowerChar(name[i]);
    }
    assert lower[4] == Hex.LowerChar(name[4]) && lower[6] == Hex.LowerChar(name[6]);
    assert "kms:putkeypolicy"[4] == 'p' && "kms:creategrant"[4] == 'c' && "kms:replicatekey"[4] == 'r';
    assert "kms:reencrypt"[4] == 'r' && "kms:decrypt"[6] == 'c';
  }
}
