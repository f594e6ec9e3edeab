/** Domain-separated control-key signatures: a fixed context string is signed before the bytes. */
module ControlSignature {
  import opened Wrappers

  datatype SignedDomain = UpgradePayload | RevocationPayload | ControlCommand

  function Ascii(s: string): (r: Bytes)
    requires forall i :: 0 <= i < |s| ==> s[i] as int < 256
    ensures |r| == |s| && forall i :: 0 <= i < |s| ==> r[i] == s[i] as int
  {
    seq(|s|, i requires 0 <= i < |s| => s[i] as int)
  }

  function Context(domain: SignedDomain): (r: Bytes)
    ensures |r| == 27 || |r| == 30
  {
    (match domain
     case UpgradePayload => Ascii("enclavia/upgrade-payload/v1")
     case RevocationPayload => Ascii("enclavia/revocation-payload/v1")
     case ControlCommand => Ascii("enclavia/control-command/v1"))
  }

  function SignedMessage(domain: SignedDomain, bytes: Bytes): (r: Bytes) {
    Context(domain) + [0] + bytes
  }

  /** One signed message names one domain and one payload, so a signature made for one kind of
      link covers no message of another kind. */
  lemma SignedMessageInjective(d1: SignedDomain, b1: Bytes, d2: SignedDomain, b2: Bytes)
    requires SignedMessage(d1, b1) == SignedMessage(d2, b2)
    ensures d1 == d2 && b1 == b2
  {
    var m1, m2 := SignedMessage(d1, b1), SignedMessage(d2, b2);
    assert m1[9] == Context(d1)[9] && m2[9] == Context(d2)[9];
    assert b1 == m1[|Context(d1)| + 1..];
    assert b2 == m2[|Context(d2)| + 1..];
  }
}
