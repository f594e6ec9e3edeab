/** A KMS key policy as a JSON document, and what the in-enclave check asks of it, stated on the document itself. */
module PolicyDocument {
  import opened Wrappers
  import Hex
  import opened ChainTypes

  /** A JSON value. Object members are listed in the order the reader iterates over them. */
  datatype Json =
    | JNull
    | JBool(b: bool)
    | JNumber(n: real)
    | JString(s: string)
    | JArray(items: seq<Json>)
    | JObject(members: seq<(string, Json)>)

  datatype PolicyError =
    | NotJson
    | NoStatements
    | NotAction
    | WildcardAction(action: string)
    | ForbiddenAction(action: string)
    | UngatedDecrypt
    | PcrMismatch(index: nat, found: string, expected: string)

  // ----- The parts of a document -----

  predicate NoKey(members: seq<(string, Json)>, key: string) {
    forall i :: 0 <= i < |members| ==> members[i].0 != key
  }

  /** `value` is the member `key` of an object: the first one of that name. */
  ghost predicate Member(v: Json, key: string, value: Json) {
    v.JObject? && exists i :: 0 <= i < |v.members| && v.members[i] == (key, value) && NoKey(v.members[..i], key)
  }

  predicate Lacks(v: Json, key: string) {
    v.JObject? ==> NoKey(v.members, key)
  }

  /** The `Statement` member is one statement, or an array of them. */
  ghost predicate IsStatement(doc: Json, stmt: Json) {
    exists m :: Member(doc, "Statement", m) && if m.JArray? then stmt in m.items else stmt == m
  }

  ghost predicate AllowStatement(doc: Json, stmt: Json) {
    IsStatement(doc, stmt) && Member(stmt, "Effect", JString("Allow"))
  }

  /** A value that is the string itself or an array with that string in it. */
  predicate Lists(v: Json, s: string) {
    v == JString(s) || (v.JArray? && JString(s) in v.items)
  }

  ghost predicate Names(stmt: Json, element: string, s: string) {
    exists v :: Member(stmt, element, v) && Lists(v, s)
  }

  // ----- PCR bindings -----

  predicate IsEquality(op: string) {
    op == "StringEquals" || op == "StringEqualsIgnoreCase"
  }

  predicate IsPcrKey(key: string, suffix: string) {
    key == "kms:RecipientAttestation:PCR" + suffix || key == "kms:RecipientAttestation:pcr" + suffix
  }

  /** One member under an equality operator binds the PCR `suffix` to a single string. */
  predicate Binding(member: (string, Json), suffix: string) {
    IsPcrKey(member.0, suffix) && member.1.JString?
  }

  predicate NoBinding(members: seq<(string, Json)>, suffix: string) {
    forall j :: 0 <= j < |members| ==> !Binding(members[j], suffix)
  }

  predicate Unbound(conds: seq<(string, Json)>, suffix: string) {
    forall i :: 0 <= i < |conds| && IsEquality(conds[i].0) && conds[i].1.JObject? ==>
      NoBinding(conds[i].1.members, suffix)
  }

  /** Of several bindings of a PCR under one operator, the last one. */
  ghost predicate LastIn(members: seq<(string, Json)>, suffix: string, value: string) {
    exists j :: 0 <= j < |members| && IsPcrKey(members[j].0, suffix) && members[j].1 == JString(value) &&
                NoBinding(members[j + 1..], suffix)
  }

  /** The last binding of a PCR over all equality operators of a condition block. */
  ghost predicate LastBinding(conds: seq<(string, Json)>, suffix: string, value: string) {
    exists i :: 0 <= i < |conds| && IsEquality(conds[i].0) && conds[i].1.JObject? &&
                LastIn(conds[i].1.members, suffix, value) && Unbound(conds[i + 1..], suffix)
  }

  /** The statement's conditions bind the PCR `suffix` to `value`. */
  ghost predicate Binds(stmt: Json, suffix: string, value: string) {
    exists c :: Member(stmt, "Condition", c) && c.JObject? && LastBinding(c.members, suffix, value)
  }

  ghost predicate BindsNothing(stmt: Json, suffix: string) {
    forall c :: Member(stmt, "Condition", c) && c.JObject? ==> Unbound(c.members, suffix)
  }

  /** ...to the hexadecimal text, in any case, of these octets. */
  ghost predicate BindsTo(stmt: Json, suffix: string, pcr: Bytes) {
    exists value :: Binds(stmt, suffix, value) && Hex.Decode(value) == Some(pcr)
  }

  ghost predicate Gated(stmt: Json, own: Pcrs) {
    BindsTo(stmt, "0", own.pcr0) && BindsTo(stmt, "1", own.pcr1) && BindsTo(stmt, "2", own.pcr2)
  }

  // ----- What the check asks -----

  predicate HasWildcard(action: string) {
    '*' in action || '?' in action
  }

  /** Rewriting the policy, granting, replicating the key, or re-encrypting. */
  predicate Loosens(action: string) {
    || action == "kms:putkeypolicy"
    || action == "kms:creategrant"
    || action == "kms:replicatekey"
    || "kms:reencrypt" <= action
  }

  ghost predicate Decrypts(stmt: Json) {
    exists p :: Names(stmt, "Action", p) && Hex.Lower(p) == "kms:decrypt"
  }

  ghost predicate Explicit(stmt: Json) {
    forall p :: Names(stmt, "Action", p) ==> !HasWildcard(Hex.Lower(p)) && !Loosens(Hex.Lower(p))
  }

  ghost predicate Harmless(stmt: Json, own: Pcrs) {
    Lacks(stmt, "NotAction") && Explicit(stmt) && (Decrypts(stmt) ==> Gated(stmt, own))
  }

  /** The document has statements, and every one that allows is explicit and gated to this enclave. */
  ghost predicate Accepts(doc: Json, own: Pcrs) {
    !Lacks(doc, "Statement") && forall stmt :: AllowStatement(doc, stmt) ==> Harmless(stmt, own)
  }

  // ----- What a refusal says -----

  function Pcr(p: Pcrs, k: nat): Bytes
    requires k < 3
  {
    [p.pcr0, p.pcr1, p.pcr2][k]
  }

  function Suffix(k: nat): string
    requires k < 3
  {
    ["0", "1", "2"][k]
  }

  ghost predicate ActionIs(stmt: Json, action: string) {
    exists p :: Names(stmt, "Action", p) && Hex.Lower(p) == action
  }

  ghost predicate StatementFault(stmt: Json, own: Pcrs, e: PolicyError) {
    match e
    case NotJson => false
    case NoStatements => false
    case NotAction => !Lacks(stmt, "NotAction")
    case WildcardAction(a) => ActionIs(stmt, a) && HasWildcard(a)
    case ForbiddenAction(a) => ActionIs(stmt, a) && Loosens(a)
    case UngatedDecrypt => Decrypts(stmt) && exists k: nat :: k < 3 && BindsNothing(stmt, Suffix(k))
    case PcrMismatch(k, found, expected) =>
      k < 3 && Decrypts(stmt) && Binds(stmt, Suffix(k), found) && expected == Hex.Encode(Pcr(own, k)) &&
      Hex.Decode(found) != Some(Pcr(own, k))
  }

  /** The error is true of the document. */
  ghost predicate Fault(doc: Json, own: Pcrs, e: PolicyError) {
    if e.NoStatements? then Lacks(doc, "Statement")
    else exists stmt :: AllowStatement(doc, stmt) && StatementFault(stmt, own, e)
  }

  // ----- One member per key -----

  lemma MemberUnique(v: Json, key: string, x: Json, y: Json)
    requires Member(v, key, x) && Member(v, key, y)
    ensures x == y
  {
    var i :| 0 <= i < |v.members| && v.members[i] == (key, x) && NoKey(v.members[..i], key);
    var j :| 0 <= j < |v.members| && v.members[j] == (key, y) && NoKey(v.members[..j], key);
  }
}
