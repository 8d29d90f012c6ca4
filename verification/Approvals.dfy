/** The m-of-n signed approval quorum of `src/approvals.rs`. */
module Approvals {
  import opened Common

  type Bytes = seq<Byte>

  datatype Decision = Approve | Deny

  datatype SignedApproval = SignedApproval(signerPubkeyB64: string, signatureB64: string)

  /** Decoding and signature checking, arbitrary functions of their inputs. */
  datatype Scheme = Scheme(
    keyOf: string -> Option<Bytes>,
    signatureOf: string -> Option<Bytes>,
    verifies: (Bytes, Bytes, Bytes) -> bool)       // key, message, signature

  datatype QuorumError =
    | NoEnrolledApprovers
    | NoSignatures
    | BadEncoding(text: string)
    | Forged(key: Bytes)
    | Unenrolled(key: Bytes)
    | ThresholdNotMet(distinct: nat, threshold: nat)

  datatype QuorumMet = QuorumMet(threshold: nat, signers: set<Bytes>)

  /** "ai-memory:approval:v1" */
  const APPROVAL_DOMAIN: Bytes :=
    [97, 105, 45, 109, 101, 109, 111, 114, 121, 58, 97, 112, 112, 114, 111, 118, 97, 108, 58, 118, 49]

  function Tag(d: Decision): Bytes {
    match d
    case Approve => [97, 112, 112, 114, 111, 118, 101]    // "approve"
    case Deny => [100, 101, 110, 121]                     // "deny"
  }

  /** `pendingId` is the UTF-8 bytes of the id, which may contain NUL. */
  function SigningBytes(pendingId: Bytes, d: Decision): Bytes {
    APPROVAL_DOMAIN + [0] + pendingId + [0] + Tag(d)
  }

  /** `bytes` are the characters of `text`. */
  predicate Spelled(text: string, bytes: Bytes) {
    |bytes| == |text| && forall i :: 0 <= i < |text| ==> text[i] as int == bytes[i]
  }

  method ApprovalSigningBytes(pendingId: Bytes, d: Decision) returns (out: Bytes)
    ensures out == SigningBytes(pendingId, d)
  {
    out := APPROVAL_DOMAIN;
    out := out + [0];
    out := out + pendingId;
    out := out + [0];
    out := out + Tag(d);
  }

  /** The message is the domain's text, the id and the decision's word, with a NUL between them. */
  lemma SigningText(pendingId: Bytes, d: Decision) returns (domain: Bytes, word: Bytes)
    ensures SigningBytes(pendingId, d) == domain + [0] + pendingId + [0] + word
    ensures Spelled("ai-memory:approval:v1", domain)
    ensures Spelled(if d.Approve? then "approve" else "deny", word)
  {
    domain, word := APPROVAL_DOMAIN, Tag(d);
  }

  /** One message belongs to one id and decision, even for ids containing NUL. */
  lemma SigningBytesInjective(a: Bytes, d: Decision, b: Bytes, e: Decision)
    ensures SigningBytes(a, d) == SigningBytes(b, e) <==> a == b && d == e
  {
    if SigningBytes(a, d) == SigningBytes(b, e) {
      var x := SigningBytes(a, d);
      assert x[|x| - 1] == Tag(d)[|Tag(d)| - 1] == Tag(e)[|Tag(e)| - 1];
      assert d == e;
      var n := |APPROVAL_DOMAIN| + 1;
      assert x[n..|x| - |Tag(d)| - 1] == a;
      assert SigningBytes(b, e)[n..|x| - |Tag(d)| - 1] == b;
    }
  }

  // ----- The quorum ------------------------------------------------------

  /** Decodes, is enrolled, and verifies over the message. */
  predicate Valid(s: Scheme, msg: Bytes, enrolled: seq<Bytes>, sa: SignedApproval) {
    && s.keyOf(sa.signerPubkeyB64).Some? && s.signatureOf(sa.signatureB64).Some?
    && s.keyOf(sa.signerPubkeyB64).value in enrolled
    && s.verifies(s.keyOf(sa.signerPubkeyB64).value, msg, s.signatureOf(sa.signatureB64).value)
  }

  /** Why a presented item fails, in the order the checks are made. */
  function ItemError(s: Scheme, msg: Bytes, enrolled: seq<Bytes>, sa: SignedApproval): QuorumError
    requires !Valid(s, msg, enrolled, sa)
  {
    if s.keyOf(sa.signerPubkeyB64).None? then BadEncoding(sa.signerPubkeyB64)
    else if s.signatureOf(sa.signatureB64).None? then BadEncoding(sa.signatureB64)
    else if s.keyOf(sa.signerPubkeyB64).value !in enrolled then Unenrolled(s.keyOf(sa.signerPubkeyB64).value)
    else Forged(s.keyOf(sa.signerPubkeyB64).value)
  }

  /** The distinct keys presented. */
  function Keys(s: Scheme, presented: seq<SignedApproval>): set<Bytes> {
    set sa | sa in presented && s.keyOf(sa.signerPubkeyB64).Some? :: s.keyOf(sa.signerPubkeyB64).value
  }

  predicate QuorumHolds(s: Scheme, msg: Bytes, presented: seq<SignedApproval>, enrolled: seq<Bytes>, threshold: nat) {
    && enrolled != [] && presented != []
    && (forall sa :: sa in presented ==> Valid(s, msg, enrolled, sa))
    && threshold <= |Keys(s, presented)|
  }

  /** The first failing item of `presented`, if any. */
  predicate FirstInvalid(s: Scheme, msg: Bytes, presented: seq<SignedApproval>, enrolled: seq<Bytes>, i: nat) {
    && i < |presented| && !Valid(s, msg, enrolled, presented[i])
    && forall j :: 0 <= j < i ==> Valid(s, msg, enrolled, presented[j])
  }

  /**
   * What an item's error means: the named text does not decode, or the named
   * key is the item's and is not enrolled, or is enrolled and its signature
   * does not verify over this message.
   */
  lemma FaultIsReal(s: Scheme, msg: Bytes, enrolled: seq<Bytes>, sa: SignedApproval)
    requires !Valid(s, msg, enrolled, sa)
    ensures match ItemError(s, msg, enrolled, sa)
            case BadEncoding(text) =>
              || (text == sa.signerPubkeyB64 && s.keyOf(text).None?)
              || (text == sa.signatureB64 && s.keyOf(sa.signerPubkeyB64).Some? && s.signatureOf(text).None?)
            case Unenrolled(key) => s.keyOf(sa.signerPubkeyB64) == Some(key) && key !in enrolled
            case Forged(key) =>
              && s.keyOf(sa.signerPubkeyB64) == Some(key) && key in enrolled
              && s.signatureOf(sa.signatureB64).Some?
              && !s.verifies(key, msg, s.signatureOf(sa.signatureB64).value)
            case _ => false
  {}

  /**
   * Success is exact: both lists non-empty, every presented item valid, and
   * enough distinct keys; the error is the first failing check otherwise.
   */
  method VerifyQuorum(
    s: Scheme, pendingId: Bytes, d: Decision, presented: seq<SignedApproval>, enrolled: seq<Bytes>, threshold: nat)
    returns (r: Result<QuorumMet, QuorumError>)
    ensures r.Ok? <==> QuorumHolds(s, SigningBytes(pendingId, d), presented, enrolled, threshold)
    ensures r.Ok? ==> r.value == QuorumMet(threshold, Keys(s, presented))
    ensures r == Err(NoEnrolledApprovers) <==> enrolled == []
    ensures r == Err(NoSignatures) <==> enrolled != [] && presented == []
    ensures enrolled != [] ==>
              forall i: nat :: FirstInvalid(s, SigningBytes(pendingId, d), presented, enrolled, i) ==>
                r == Err(ItemError(s, SigningBytes(pendingId, d), enrolled, presented[i]))
    ensures r.Err? && r.error.ThresholdNotMet? ==> r.error == ThresholdNotMet(|Keys(s, presented)|, threshold)
  {
    if enrolled == [] {
      return Err(NoEnrolledApprovers);
    }
    if presented == [] {
      return Err(NoSignatures);
    }
    var msg := ApprovalSigningBytes(pendingId, d);
    var distinct: set<Bytes> := {};
    for i := 0 to |presented|
      invariant forall j :: 0 <= j < i ==> Valid(s, msg, enrolled, presented[j])
      invariant distinct == Keys(s, presented[..i])
    {
      var sa := presented[i];
      assert sa in presented;
      var key := s.keyOf(sa.signerPubkeyB64);
      if key.None? {
        return Err(BadEncoding(sa.signerPubkeyB64));
      }
      var sig := s.signatureOf(sa.signatureB64);
      if sig.None? {
        return Err(BadEncoding(sa.signatureB64));
      }
      if key.value !in enrolled {
        return Err(Unenrolled(key.value));
      }
      if !s.verifies(key.value, msg, sig.value) {
        return Err(Forged(key.value));
      }
      KeysSnoc(s, presented[..i], sa);
      assert presented[..i + 1] == presented[..i] + [sa];
      distinct := distinct + {key.value};
    }
    assert presented[..|presented|] == presented;
    if |distinct| < threshold {
      return Err(ThresholdNotMet(|distinct|, threshold));
    }
    r := Ok(QuorumMet(threshold, distinct));
  }

  lemma KeysSnoc(s: Scheme, before: seq<SignedApproval>, sa: SignedApproval)
    ensures Keys(s, before + [sa]) ==
            Keys(s, before) + match s.keyOf(sa.signerPubkeyB64) case Some(k) => {k} case None => {}
  {
    assert sa in before + [sa] && forall x :: x in before ==> x in before + [sa];
  }

  /** Reordering or duplicating presented items, or enrolled keys, changes nothing. */
  lemma QuorumIsAboutSets(
    s: Scheme, msg: Bytes, presented: seq<SignedApproval>, again: seq<SignedApproval>,
    enrolled: seq<Bytes>, enrolledAgain: seq<Bytes>, threshold: nat)
    requires forall sa :: sa in presented <==> sa in again
    requires forall k :: k in enrolled <==> k in enrolledAgain
    ensures QuorumHolds(s, msg, presented, enrolled, threshold) <==>
            QuorumHolds(s, msg, again, enrolledAgain, threshold)
    ensures Keys(s, presented) == Keys(s, again)
  {
    assert presented != [] ==> presented[0] in again;
    assert again != [] ==> again[0] in presented;
    assert enrolled != [] ==> enrolled[0] in enrolledAgain;
    assert enrolledAgain != [] ==> enrolledAgain[0] in enrolled;
    assert Keys(s, presented) == Keys(s, again);
  }

  /** Ideal signatures: one verifies only if the key's owner signed that message. */
  ghost predicate Ideal(s: Scheme, signed: (Bytes, Bytes) -> bool) {
    forall k, m, sig :: s.verifies(k, m, sig) ==> signed(k, m)
  }

  /**
   * Soundness. Under ideal signatures a met quorum is at least `threshold`
   * distinct enrolled keys that each signed this very id and decision, and
   * signing it is signing no other.
   */
  lemma QuorumIsSound(
    s: Scheme, signed: (Bytes, Bytes) -> bool, pendingId: Bytes, d: Decision,
    presented: seq<SignedApproval>, enrolled: seq<Bytes>, threshold: nat)
    requires Ideal(s, signed)
    requires QuorumHolds(s, SigningBytes(pendingId, d), presented, enrolled, threshold)
    ensures var keys := Keys(s, presented);
      && threshold <= |keys| && keys != {}
      && (forall k :: k in keys ==> k in enrolled && signed(k, SigningBytes(pendingId, d)))
      && (forall other, e :: SigningBytes(other, e) == SigningBytes(pendingId, d) ==> other == pendingId && e == d)
  {
    var msg := SigningBytes(pendingId, d);
    forall k | k in Keys(s, presented) ensures k in enrolled && signed(k, msg) {
      var sa :| sa in presented && s.keyOf(sa.signerPubkeyB64) == Some(k);
      assert Valid(s, msg, enrolled, sa);
      assert s.verifies(k, msg, s.signatureOf(sa.signatureB64).value);
    }
    assert presented[0] in presented && Valid(s, msg, enrolled, presented[0]);
    assert s.keyOf(presented[0].signerPubkeyB64).value in Keys(s, presented);
    forall other, e | SigningBytes(other, e) == msg ensures other == pendingId && e == d {
      SigningBytesInjective(other, e, pendingId, d);
    }
  }

  /** `approval_threshold`: the parsed setting clamped to at least one, one by default. */
  function ApprovalThreshold(parsed: Option<nat>): (t: nat)
    ensures t >= 1
  {
    match parsed case None => 1 case Some(n) => if n < 1 then 1 else n
  }

  /**
   * The clamp is a second safeguard, not the only one: presented items must
   * be there and valid anyway, so a threshold of 0 already asks for a signer.
   */
  lemma ClampIsImmaterial(s: Scheme, msg: Bytes, presented: seq<SignedApproval>, enrolled: seq<Bytes>)
    ensures QuorumHolds(s, msg, presented, enrolled, 0) <==> QuorumHolds(s, msg, presented, enrolled, 1)
  {
    if QuorumHolds(s, msg, presented, enrolled, 0) {
      SomeoneSigned(s, msg, presented, enrolled);
    }
  }

  lemma SomeoneSigned(s: Scheme, msg: Bytes, presented: seq<SignedApproval>, enrolled: seq<Bytes>)
    requires QuorumHolds(s, msg, presented, enrolled, 0)
    ensures |Keys(s, presented)| >= 1
    ensures exists k :: k in Keys(s, presented) && k in enrolled
  {
    var first := presented[0];
    assert first in presented && Valid(s, msg, enrolled, first);
    assert s.keyOf(first.signerPubkeyB64).value in Keys(s, presented);
  }

  /**
   * The quorum under the configured threshold. Whatever the setting, absent,
   * unparsable or 0 included, success means an enrolled signer and at least
   * as many distinct ones as a setting that parses asks for.
   */
  method VerifyQuorumFromSettings(
    s: Scheme, pendingId: Bytes, d: Decision, presented: seq<SignedApproval>, enrolled: seq<Bytes>,
    parsed: Option<nat>)
    returns (r: Result<QuorumMet, QuorumError>)
    ensures r.Ok? <==> QuorumHolds(s, SigningBytes(pendingId, d), presented, enrolled, ApprovalThreshold(parsed))
    ensures r.Ok? <==>
              QuorumHolds(s, SigningBytes(pendingId, d), presented, enrolled, if parsed.Some? then parsed.value else 1)
    ensures r.Ok? ==> exists k :: k in r.value.signers && k in enrolled
    ensures r.Ok? && parsed.Some? ==> parsed.value <= |r.value.signers|
  {
    r := VerifyQuorum(s, pendingId, d, presented, enrolled, ApprovalThreshold(parsed));
    ClampIsImmaterial(s, SigningBytes(pendingId, d), presented, enrolled);
    hide Valid, Keys, SigningBytes;
    if r.Ok? {
      SomeoneSigned(s, SigningBytes(pendingId, d), presented, enrolled);
    }
  }
}
