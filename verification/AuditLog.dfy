/**
 * The event log of `src/audit.rs`: events, their hash, and what an intact
 * chain of them is. Printing, parsing and SHA-256 are the three functions of a
 * `Codec`; all this model takes as given about them is `GoodCodec`.
 */
module AuditLog {
  import opened Common
  import opened Hex

  /** 64 hexadecimal zeros: a digest of 32 zero bytes. */
  const CHAIN_HEAD_PREV_HASH: string := Digits(2 * DIGEST_BYTES)
  const DIGEST_BYTES: nat := 32
  const SCHEMA_VERSION: nat := 1
  const U64_MODULUS: nat := 0x1_0000_0000_0000_0000

  type U64 = n: nat | n < U64_MODULUS

  datatype Actor = Actor(agentId: string, scope: Option<string>, synthesisSource: string)

  datatype Action =
    | Recall | Store | Update | Delete | Link | Promote | Forget | Consolidate
    | Export | Import | Approve | Reject | SessionBoot | CaptureLag

  datatype Target = Target(
    memoryId: string, namespace: string, title: Option<string>, tier: Option<string>, scope: Option<string>)

  datatype Outcome = Allow | Deny | Error | Pending

  datatype Auth = Auth(sourceIp: Option<string>, mtlsFp: Option<string>, apiKeyIdHash: Option<string>)

  datatype Event = Event(
    schemaVersion: nat,
    timestamp: string,
    sequence: U64,
    actor: Actor,
    action: Action,
    target: Target,
    outcome: Outcome,
    auth: Option<Auth>,
    sessionId: Option<string>,
    requestId: Option<string>,
    error: Option<string>,
    prevHash: string,
    selfHash: string)

  datatype Codec = Codec(
    render: Event -> string,
    parse: string -> Option<Event>,
    sha256: string -> seq<Byte>)

  /** serde prints an event as one non-blank line and parses it back. */
  ghost predicate GoodCodec(c: Codec) {
    && (forall e: Event :: c.parse(c.render(e)) == Some(e))
    && (forall e: Event :: !Blank(c.render(e)) && '\n' !in c.render(e) && '\r' !in c.render(e))
  }

  predicate Blank(line: string) {
    forall i :: 0 <= i < |line| ==> IsWhitespace(line[i])
  }

  // ----- Hashing ---------------------------------------------------------

  function Canonical(c: Codec, e: Event): string {
    c.render(e.(selfHash := ""))
  }

  function SelfHash(c: Codec, e: Event): string {
    HexOf(c.sha256(Canonical(c, e)))
  }

  /** The chain starts from sixty-four zeros. */
  lemma SentinelIsZeros()
    ensures |CHAIN_HEAD_PREV_HASH| == 64
    ensures forall i :: 0 <= i < 64 ==> CHAIN_HEAD_PREV_HASH[i] == '0'
  {
    DigitsAreZeros(64);
  }

  lemma {:induction false} DigitsAreZeros(n: nat)
    ensures |Digits(n)| == n && forall i :: 0 <= i < n ==> Digits(n)[i] == '0'
  {
    if n > 0 {
      DigitsAreZeros(n - 1);
    }
  }

  // ----- Chains ----------------------------------------------------------

  /** The hash the next event must point at. */
  function HeadOf(events: seq<Event>): string {
    if events == [] then CHAIN_HEAD_PREV_HASH else events[|events| - 1].selfHash
  }

  function LastSequence(events: seq<Event>): U64 {
    if events == [] then 0 else events[|events| - 1].sequence
  }

  predicate LinkedAt(events: seq<Event>, i: nat)
    requires i < |events|
  {
    events[i].prevHash == HeadOf(events[..i])
  }

  predicate SequencedAt(events: seq<Event>, i: nat)
    requires i < |events|
  {
    LastSequence(events[..i]) == 0 || LastSequence(events[..i]) < events[i].sequence
  }

  predicate RehashesAt(c: Codec, events: seq<Event>, i: nat)
    requires i < |events|
  {
    SelfHash(c, events[i]) == events[i].selfHash
  }

  predicate ChainOk(c: Codec, events: seq<Event>) {
    forall i: nat :: i < |events| ==> LinkedAt(events, i) && SequencedAt(events, i) && RehashesAt(c, events, i)
  }

  /** May `e` follow `events`? */
  predicate Follows(c: Codec, events: seq<Event>, e: Event) {
    && e.prevHash == HeadOf(events)
    && (LastSequence(events) == 0 || LastSequence(events) < e.sequence)
    && SelfHash(c, e) == e.selfHash
  }

  lemma ChainPrefix(c: Codec, events: seq<Event>, n: nat)
    requires ChainOk(c, events) && n <= |events|
    ensures ChainOk(c, events[..n])
  {
    forall i: nat | i < n
      ensures LinkedAt(events[..n], i) && SequencedAt(events[..n], i) && RehashesAt(c, events[..n], i)
    {
      assert events[..n][..i] == events[..i];
      assert LinkedAt(events, i) && SequencedAt(events, i) && RehashesAt(c, events, i);
    }
  }

  lemma ChainSnoc(c: Codec, events: seq<Event>, e: Event)
    ensures ChainOk(c, events + [e]) <==> ChainOk(c, events) && Follows(c, events, e)
  {
    var all := events + [e];
    var n := |events|;
    assert all[..n] == events;
    if ChainOk(c, all) {
      ChainPrefix(c, all, n);
      assert LinkedAt(all, n) && SequencedAt(all, n) && RehashesAt(c, all, n);
    }
    if ChainOk(c, events) && Follows(c, events, e) {
      forall i: nat | i < |all|
        ensures LinkedAt(all, i) && SequencedAt(all, i) && RehashesAt(c, all, i)
      {
        if i < n {
          assert all[..i] == events[..i];
          assert LinkedAt(events, i) && SequencedAt(events, i) && RehashesAt(c, events, i);
        }
      }
    }
  }

  /**
   * The sequence rule is skipped while the previous number is 0, so what it
   * accepts is a run of zeros followed by strictly increasing positives.
   */
  lemma SequenceShape(events: seq<Event>)
    ensures (forall i: nat :: i < |events| ==> SequencedAt(events, i)) <==>
            (exists z: nat :: ZerosThenIncreasing(events, z))
  {
    if forall i: nat :: i < |events| ==> SequencedAt(events, i) {
      var z := FirstPositive(events);
      assert ZerosThenIncreasing(events, z) by {
        forall i, j | z <= i < j < |events| ensures 0 < events[i].sequence < events[j].sequence {
          IncreasingFrom(events, z, i, j);
        }
      }
    }
    if z: nat :| ZerosThenIncreasing(events, z) {
      forall i: nat | i < |events| ensures SequencedAt(events, i) {
        if i > 0 {
          assert events[..i][|events[..i]| - 1] == events[i - 1];
        }
      }
    }
  }

  predicate ZerosThenIncreasing(events: seq<Event>, z: nat) {
    && z <= |events|
    && (forall i :: 0 <= i < z ==> events[i].sequence == 0)
    && (forall i, j :: z <= i < j < |events| ==> 0 < events[i].sequence < events[j].sequence)
    && (z < |events| ==> 0 < events[z].sequence)
  }

  function FirstPositive(events: seq<Event>): (z: nat)
    ensures z <= |events|
    ensures forall i :: 0 <= i < z ==> events[i].sequence == 0
    ensures z < |events| ==> 0 < events[z].sequence
  {
    if events == [] then 0
    else
      var n := |events| - 1;
      var z := FirstPositive(events[..n]);
      if z == n && events[n].sequence == 0 then n + 1 else z
  }

  lemma {:induction false} IncreasingFrom(events: seq<Event>, z: nat, i: nat, j: nat)
    requires forall i: nat :: i < |events| ==> SequencedAt(events, i)
    requires z <= i <= j < |events| && 0 < events[z].sequence
    ensures 0 < events[i].sequence <= events[j].sequence && (i < j ==> events[i].sequence < events[j].sequence)
    decreases j - z
  {
    if z < j {
      assert SequencedAt(events, j);
      assert events[..j][|events[..j]| - 1] == events[j - 1];
      IncreasingFrom(events, z, z, j - 1);
      if i < j {
        IncreasingFrom(events, z, i, j - 1);
      }
    }
  }

  // ----- Tamper evidence -------------------------------------------------

  /** Two distinct canonical texts of the logs with one SHA-256 digest. */
  ghost predicate CollisionIn(c: Codec, a: seq<Event>, b: seq<Event>) {
    exists i: nat, j: nat ::
      && i < |a| && j < |b|
      && Canonical(c, a[i]) != Canonical(c, b[j])
      && c.sha256(Canonical(c, a[i])) == c.sha256(Canonical(c, b[j]))
  }

  function Digits(n: nat): string {
    if n == 0 then "" else Digits(n - 1) + "0"
  }

  function Zeros(n: nat): (z: seq<Byte>)
    ensures |z| == n
  {
    if n == 0 then [] else Zeros(n - 1) + [0]
  }

  /** An event whose digest is the 32 zero bytes of the chain head. */
  ghost predicate HeadPreimageIn(c: Codec, events: seq<Event>) {
    exists i: nat :: i < |events| && c.sha256(Canonical(c, events[i])) == Zeros(DIGEST_BYTES)
  }

  lemma HexOfZeros(bytes: seq<Byte>)
    requires HexOf(bytes) == CHAIN_HEAD_PREV_HASH
    ensures bytes == Zeros(DIGEST_BYTES)
  {
    ZerosHex(DIGEST_BYTES);
    HexInjective(bytes, Zeros(DIGEST_BYTES));
  }

  lemma {:induction false} ZerosHex(n: nat)
    ensures HexOf(Zeros(n)) == Digits(2 * n)
  {
    hide HexOf, Zeros, Digits;
    if n == 0 {
      NoZeros();
    } else {
      ZerosHex(n - 1);
      OneMoreZero(n - 1);
      TwoMoreDigits(2 * (n - 1));
    }
  }

  lemma NoZeros()
    ensures HexOf(Zeros(0)) == Digits(0)
  {}

  lemma OneMoreZero(n: nat)
    ensures HexOf(Zeros(n + 1)) == HexOf(Zeros(n)) + "00"
  {
    var zs := Zeros(n + 1);
    assert zs[..n] == Zeros(n) && zs[n] == 0;
    assert HexPair(0) == "00";
  }

  lemma TwoMoreDigits(n: nat)
    ensures Digits(n + 2) == Digits(n) + "00"
  {
    assert Digits(n + 2) == Digits(n + 1) + "0";
  }

  /**
   * Tamper evidence as a reduction. Two chains that both verify and end in
   * the same hash are the same chain, length included, unless the pair holds
   * a SHA-256 collision or a preimage of the chain-head sentinel.
   */
  lemma {:induction false} TamperEvidence(c: Codec, a: seq<Event>, b: seq<Event>)
    requires GoodCodec(c)
    requires ChainOk(c, a) && ChainOk(c, b)
    requires HeadOf(a) == HeadOf(b)
    ensures a == b || CollisionIn(c, a, b) || HeadPreimageIn(c, a) || HeadPreimageIn(c, b)
    decreases |a| + |b|
  {
    hide HexOf, Digits, Zeros;
    if a == [] && b == [] {
    } else if a == [] {
      HeadPreimage(c, b);
    } else if b == [] {
      HeadPreimage(c, a);
    } else {
      var m, n := |a| - 1, |b| - 1;
      ChainPrefix(c, a, m);
      ChainPrefix(c, b, n);
      LastEvents(c, a, b);
      if Canonical(c, a[m]) == Canonical(c, b[n]) {
        TamperEvidence(c, a[..m], b[..n]);
        assert a == a[..m] + [a[m]] && b == b[..n] + [b[n]];
        LiftWitnesses(c, a, b);
      }
    }
  }

  /** A non-empty chain that ends in the sentinel hash. */
  lemma HeadPreimage(c: Codec, events: seq<Event>)
    requires events != [] && ChainOk(c, events) && HeadOf(events) == CHAIN_HEAD_PREV_HASH
    ensures HeadPreimageIn(c, events)
  {
    hide HexOf, Digits, Zeros;
    var m := |events| - 1;
    assert RehashesAt(c, events, m);
    HexOfZeros(c.sha256(Canonical(c, events[m])));
  }

  /** Equal last hashes: the last events hash alike, and with one canonical text they are equal and point back alike. */
  lemma LastEvents(c: Codec, a: seq<Event>, b: seq<Event>)
    requires GoodCodec(c) && a != [] && b != []
    requires ChainOk(c, a) && ChainOk(c, b) && HeadOf(a) == HeadOf(b)
    ensures var m, n := |a| - 1, |b| - 1;
      && c.sha256(Canonical(c, a[m])) == c.sha256(Canonical(c, b[n]))
      && (Canonical(c, a[m]) == Canonical(c, b[n]) ==> a[m] == b[n] && HeadOf(a[..m]) == HeadOf(b[..n]))
  {
    hide HexOf, Digits, Zeros;
    var m, n := |a| - 1, |b| - 1;
    var x, y := a[m], b[n];
    assert RehashesAt(c, a, m) && RehashesAt(c, b, n) && LinkedAt(a, m) && LinkedAt(b, n);
    HexInjective(c.sha256(Canonical(c, x)), c.sha256(Canonical(c, y)));
    assert c.parse(Canonical(c, x)) == Some(x.(selfHash := ""));
    assert c.parse(Canonical(c, y)) == Some(y.(selfHash := ""));
    assert x == x.(selfHash := "").(selfHash := x.selfHash);
    assert y == y.(selfHash := "").(selfHash := y.selfHash);
  }

  lemma LiftWitnesses(c: Codec, a: seq<Event>, b: seq<Event>)
    requires a != [] && b != []
    ensures CollisionIn(c, a[..|a| - 1], b[..|b| - 1]) ==> CollisionIn(c, a, b)
    ensures HeadPreimageIn(c, a[..|a| - 1]) ==> HeadPreimageIn(c, a)
    ensures HeadPreimageIn(c, b[..|b| - 1]) ==> HeadPreimageIn(c, b)
  {
    var a', b' := a[..|a| - 1], b[..|b| - 1];
    assert forall i: nat :: i < |a'| ==> a'[i] == a[i];
    assert forall i: nat :: i < |b'| ==> b'[i] == b[i];
  }
}
