/** The process-wide sink of `src/audit.rs`: `init`, `try_emit`, shutdown and verification. */
module AuditSink {
  import opened Common
  import opened Hex
  import opened AuditLog
  import opened AuditLines
  import opened AuditVerify

  // ----- Building an event -----------------------------------------------

  datatype Builder = Builder(
    action: Action,
    actor: Actor,
    target: Target,
    outcome: Outcome,
    auth: Option<Auth>,
    sessionId: Option<string>,
    requestId: Option<string>,
    error: Option<string>)
  {
    function WithError(message: string): Builder {
      this.(error := Some(Sanitize(message, 256)), outcome := Outcome.Error)
    }
  }

  /** Unicode general category Cc. */
  predicate IsControl(ch: char) {
    ch <= '\U{1F}' || '\U{7F}' <= ch <= '\U{9F}'
  }

  function Cleaned(s: string): string {
    if s == "" then ""
    else (if !IsControl(s[0]) || s[0] == '\t' then [s[0]] else "") + Cleaned(s[1..])
  }

  function Sanitize(s: string, maxChars: nat): string {
    var cleaned := Cleaned(s);
    if |cleaned| <= maxChars then cleaned else cleaned[..maxChars]
  }

  predicate LogSafe(s: string) {
    forall i :: 0 <= i < |s| ==> !IsControl(s[i]) || s[i] == '\t'
  }

  lemma {:induction false} CleanedIsSafe(s: string)
    ensures LogSafe(Cleaned(s))
    ensures LogSafe(s) ==> Cleaned(s) == s
  {
    if s != "" {
      CleanedIsSafe(s[1..]);
      var rest := Cleaned(s[1..]);
      assert forall i :: 1 <= i < |rest| + 1 ==> ([s[0]] + rest)[i] == rest[i - 1];
      if LogSafe(s) {
        assert LogSafe(s[1..]) by {
          forall i | 0 <= i < |s[1..]| ensures !IsControl(s[1..][i]) || s[1..][i] == '\t' {
            assert s[1..][i] == s[i + 1];
          }
        }
        assert s == [s[0]] + s[1..];
      }
    }
  }

  /** No line break survives, the cap holds, and only unsafe or long texts change. */
  lemma SanitizeContract(s: string, maxChars: nat)
    ensures LogSafe(Sanitize(s, maxChars)) && |Sanitize(s, maxChars)| <= maxChars
    ensures '\n' !in Sanitize(s, maxChars) && '\r' !in Sanitize(s, maxChars)
    ensures Sanitize(s, maxChars) == s <==> LogSafe(s) && |s| <= maxChars
  {
    CleanedIsSafe(s);
  }

  /**
   * Whatever the error text, the event that records it is an Error whose text
   * holds no line break, and is the message itself iff that was safe and short.
   */
  lemma ErrorEventIsSafe(c: Codec, b: Builder, message: string, now: string, sequence: U64, head: string)
    ensures var e := NewEvent(c, b.WithError(message), now, sequence, head);
      && e.outcome == Outcome.Error
      && e.error.Some? && LogSafe(e.error.value) && |e.error.value| <= 256
      && (e.error.value == message <==> LogSafe(message) && |message| <= 256)
  {
    SanitizeContract(message, 256);
    hide Sanitize, SelfHash;
  }

  function SanitizedTarget(t: Target): Target {
    Target(
      Sanitize(t.memoryId, 128),
      Sanitize(t.namespace, 128),
      match t.title case Some(x) => Some(Sanitize(x, 200)) case None => None,
      t.tier,
      t.scope)
  }

  /** The event of one emission: linked to `head`, numbered, then hashed. */
  function NewEvent(c: Codec, b: Builder, now: string, sequence: U64, head: string): Event {
    var e := Event(
      SCHEMA_VERSION, now, sequence, b.actor, b.action, SanitizedTarget(b.target), b.outcome,
      b.auth, b.sessionId, b.requestId, b.error, head, "");
    e.(selfHash := SelfHash(c, e))
  }

  // ----- What an event records -------------------------------------------

  /** A tab or no control character: the printable ASCII range, and all from U+A0 on. */
  predicate SafeChar(ch: char) {
    ch == '\t' || ' ' <= ch <= '~' || '\U{A0}' <= ch
  }

  predicate AreSafe(s: string, ix: seq<nat>) {
    forall k :: 0 <= k < |ix| ==> ix[k] < |s| && SafeChar(s[ix[k]])
  }

  predicate Rising(ix: seq<nat>) {
    forall j, k :: 0 <= j < k < |ix| ==> ix[j] < ix[k]
  }

  predicate NoneMissing(s: string, ix: seq<nat>) {
    forall i :: 0 <= i < |s| && SafeChar(s[i]) ==> i in ix
  }

  /** `ix` are the places of the safe characters of `s`, all of them and in order. */
  predicate SafePlaces(s: string, ix: seq<nat>) {
    AreSafe(s, ix) && Rising(ix) && NoneMissing(s, ix)
  }

  /** `t` is the safe characters of `s`, in order, as many as `cap` allows; `s` itself when all of it is. */
  ghost predicate LoggedText(t: string, s: string, cap: nat) {
    && (forall i :: 0 <= i < |t| ==> SafeChar(t[i]))
    && |t| <= cap
    && (t == s <==> |s| <= cap && forall i :: 0 <= i < |s| ==> SafeChar(s[i]))
    && exists ix :: SafePlaces(s, ix)
         && |t| == (if |ix| <= cap then |ix| else cap)
         && forall k :: 0 <= k < |t| ==> t[k] == s[ix[k]]
  }

  lemma SafeMeans(ch: char)
    ensures SafeChar(ch) <==> !IsControl(ch) || ch == '\t'
  {}

  function Shifted(ix: seq<nat>): (r: seq<nat>)
    ensures |r| == |ix| && forall k :: 0 <= k < |ix| ==> r[k] == ix[k] + 1
  {
    seq(|ix|, k requires 0 <= k < |ix| => ix[k] + 1)
  }

  /** The safe places of a text, from those of its rest. */
  lemma PlacesBehind(s: string, rest: seq<nat>)
    requires s != "" && SafePlaces(s[1..], rest)
    ensures SafePlaces(s, (if SafeChar(s[0]) then [0] else []) + Shifted(rest))
  {
    var ix := (if SafeChar(s[0]) then [0] else []) + Shifted(rest);
    hide SafeChar;
    assert AreSafe(s, ix) by {
      hide NoneMissing, Rising;
      assert forall i :: 0 <= i < |s| - 1 ==> s[1..][i] == s[i + 1];
    }
    assert NoneMissing(s, ix) by {
      hide AreSafe, Rising;
      forall i | 0 <= i < |s| && SafeChar(s[i]) ensures i in ix {
        if i > 0 {
          assert s[1..][i - 1] == s[i];
          var k :| 0 <= k < |rest| && rest[k] == i - 1;
          assert Shifted(rest)[k] == i && i in Shifted(rest);
        } else {
          assert ix[0] == 0;
        }
      }
    }
    hide AreSafe, NoneMissing;
  }

  lemma {:induction false} CleanedPlaces(s: string) returns (ix: seq<nat>)
    ensures SafePlaces(s, ix)
    ensures |Cleaned(s)| == |ix| && forall k :: 0 <= k < |ix| ==> Cleaned(s)[k] == s[ix[k]]
  {
    if s == "" {
      ix := [];
    } else {
      var rest := CleanedPlaces(s[1..]);
      CleanedFirst(s);
      PlacesBehind(s, rest);
      hide SafeChar, SafePlaces, Cleaned;
      ix := (if SafeChar(s[0]) then [0] else []) + Shifted(rest);
      PickedBehind(s, SafeChar(s[0]), rest, Cleaned(s[1..]));
    }
  }

  lemma CleanedFirst(s: string)
    requires s != ""
    ensures Cleaned(s) == (if SafeChar(s[0]) then [s[0]] else "") + Cleaned(s[1..])
  {
    SafeMeans(s[0]);
    hide IsControl, SafeChar;
  }

  lemma PickedBehind(s: string, first: bool, rest: seq<nat>, picked: string)
    requires s != "" && |picked| == |rest|
    requires forall k :: 0 <= k < |rest| ==> rest[k] < |s| - 1 && picked[k] == s[1..][rest[k]]
    ensures var ix := (if first then [0] else []) + Shifted(rest);
      var all := (if first then [s[0]] else "") + picked;
      |all| == |ix| && forall k :: 0 <= k < |ix| ==> ix[k] < |s| && all[k] == s[ix[k]]
  {
    var ix := (if first then [0] else []) + Shifted(rest);
    var all := (if first then [s[0]] else "") + picked;
    var d := if first then 1 else 0;
    forall k | 0 <= k < |ix| ensures ix[k] < |s| && all[k] == s[ix[k]] {
      if k >= d {
        assert s[ix[k]] == s[1..][rest[k - d]];
      }
    }
  }

  lemma SanitizeLogs(s: string, cap: nat)
    ensures LoggedText(Sanitize(s, cap), s, cap)
  {
    SanitizeContract(s, cap);
    var ix := CleanedPlaces(s);
    forall ch ensures SafeChar(ch) <==> !IsControl(ch) || ch == '\t' {
      SafeMeans(ch);
    }
    hide SafeChar, IsControl, Cleaned;
  }

  /** What the event of an emission says: all the caller passed, texts made safe, and the time. */
  ghost predicate Records(e: Event, b: Builder, now: string) {
    && e.schemaVersion == 1 && e.timestamp == now
    && e.actor == b.actor && e.action == b.action && e.outcome == b.outcome
    && e.auth == b.auth && e.sessionId == b.sessionId && e.requestId == b.requestId && e.error == b.error
    && LoggedText(e.target.memoryId, b.target.memoryId, 128)
    && LoggedText(e.target.namespace, b.target.namespace, 128)
    && (e.target.title.Some? <==> b.target.title.Some?)
    && (e.target.title.Some? ==> LoggedText(e.target.title.value, b.target.title.value, 200))
    && e.target.tier == b.target.tier && e.target.scope == b.target.scope
  }

  /** The event's place in the log: its number, the head it links to, and its own hash. */
  ghost predicate PlacedAt(c: Codec, e: Event, sequence: U64, head: string) {
    e.sequence == sequence && e.prevHash == head && e.selfHash == HexOf(c.sha256(c.render(e.(selfHash := ""))))
  }

  lemma NewEventRecords(c: Codec, b: Builder, now: string, sequence: U64, head: string)
    ensures var e := NewEvent(c, b, now, sequence, head); Records(e, b, now) && PlacedAt(c, e, sequence, head)
  {
    SanitizeLogs(b.target.memoryId, 128);
    SanitizeLogs(b.target.namespace, 128);
    if b.target.title.Some? {
      SanitizeLogs(b.target.title.value, 200);
    }
    hide LoggedText, Sanitize;
    var e := NewEvent(c, b, now, sequence, head);
    assert e.(selfHash := "") == e.(selfHash := "").(selfHash := "");
  }

  lemma LastIsNew(log: seq<Event>, e: Event)
    ensures (log + [e])[|log + [e]| - 1] == e && (log + [e])[..|log + [e]| - 1] == log
  {}

  /** `fetch_add(1) + 1` on an `AtomicU64`, which wraps. */
  function NextSequence(counter: U64): U64 {
    (counter + 1) % U64_MODULUS
  }

  lemma NewEventFollows(c: Codec, b: Builder, now: string, sequence: U64, events: seq<Event>)
    ensures var e := NewEvent(c, b, now, sequence, HeadOf(events));
            Follows(c, events, e) <==> LastSequence(events) == 0 || LastSequence(events) < sequence
  {
    var e := NewEvent(c, b, now, sequence, HeadOf(events));
    assert Canonical(c, e) == Canonical(c, e.(selfHash := ""));
  }

  /**
   * The counter wraps to 0 after 2^64 - 1, and the verifier flags the next
   * line: a log whose last number is 2^64 - 1 cannot be extended.
   */
  lemma WrappedCounterIsFlagged(c: Codec, b: Builder, now: string, events: seq<Event>)
    requires GoodCodec(c)
    requires LastSequence(events) == U64_MODULUS - 1
    ensures var e := NewEvent(c, b, now, NextSequence(LastSequence(events)), HeadOf(events));
            FaultOf(c, events, c.render(e)) == Some(SequenceBreak)
  {
    var e := NewEvent(c, b, now, NextSequence(LastSequence(events)), HeadOf(events));
    assert c.parse(c.render(e)) == Some(e) && !Blank(c.render(e));
  }

  /**
   * A file whose last line lacks its newline is not extended: the next event
   * is glued to that line, the earlier lines stand, and the file verifies iff
   * the glued text may follow them. Otherwise verification fails at that very
   * line with what is wrong with the glued text.
   */
  lemma UnterminatedAppend(c: Codec, text: string, e: Event, r: Report)
    requires GoodCodec(c) && Clean(c, text) && !Terminated(text)
    requires IsVerdict(c, Lines(text + c.render(e) + "\n"), r)
    ensures Lines(text) != []
    ensures var n := |Lines(text)| - 1;
      var glued := Lines(text)[n] + c.render(e);
      r.firstFailure == match FaultOf(c, Events(c, Lines(text)[..n]), glued)
                        case None => None
                        case Some(kind) => Some(Failure(n + 1, kind))
  {
    var line := c.render(e);
    assert c.parse(line) == Some(e) && !Blank(line);
    AppendedLine(text, line);
    var n := |Lines(text)| - 1;
    var before := Lines(text)[..n];
    var glued := Lines(text)[n] + line;
    var all := Lines(text + line + "\n");
    assert all == before + [glued];
    assert all[..n] == before && all[..n + 1] == all;
    CleanPrefix(c, Lines(text), n);
    CleanSnoc(c, before, glued);
    hide CleanLines, FaultOf, Events, NonBlank, Lines;
    match FaultOf(c, Events(c, before), glued)
    case None => ExactVerdict(c, all, Report(NonBlank(all), None), r);
    case Some(kind) => ExactVerdict(c, all, Report(NonBlank(all), Some(Failure(n + 1, kind))), r);
  }

  // ----- The sink --------------------------------------------------------

  datatype EmitError = AppendFailed

  class AuditProcess {
    const codec: Codec
    var file: string
    /** `last_hash` of the installed sink; None when auditing is off. */
    var lastHash: Option<string>
    var sequence: U64

    ghost function Log(): seq<Event>
      reads this
    {
      EventsIn(codec, file)
    }

    /** Clean file, head at its tail, counter at or past its last number. */
    ghost predicate Intact()
      reads this
    {
      && GoodCodec(codec)
      && Terminated(file)
      && Clean(codec, file)
      && (lastHash.Some? ==> lastHash.value == HeadOf(Log()) && LastSequence(Log()) <= sequence)
    }

    constructor (codec: Codec, file: string)
      ensures this.codec == codec && this.file == file && lastHash == None && sequence == 0
    {
      this.codec := codec;
      this.file := file;
      lastHash := None;
      sequence := 0;
    }

    /**
     * Start or restart on the same file. When the tail cannot be read the
     * chain head is seeded as for an empty file, so the result is intact iff
     * no event was there to link to.
     */
    method Init(tailReadable: bool)
      modifies `lastHash, `sequence
      ensures tailReadable ==> lastHash == Some(HeadOf(Log())) && sequence == LastSequence(Log())
      ensures !tailReadable ==> lastHash == Some(CHAIN_HEAD_PREV_HASH) && sequence == 0
      ensures old(Intact()) ==>
                (Intact() <==> tailReadable || (HeadOf(Log()) == CHAIN_HEAD_PREV_HASH && LastSequence(Log()) == 0))
    {
      var seed := Tail(CHAIN_HEAD_PREV_HASH, 0);
      if tailReadable {
        var last, _ := ReadChainTail(codec, Lines(file));
        if last.Some? {
          seed := last.value;
        }
      }
      sequence := seed.sequence;
      lastHash := Some(seed.selfHash);
    }

    method Shutdown()
      modifies `lastHash
      ensures lastHash == None
      ensures old(Intact()) ==> Intact()
    {
      lastHash := None;
    }

    /**
     * One emission. Off: nothing happens. A failed write burns a number and
     * changes nothing else. A successful one appends exactly the new event,
     * and the file stays clean iff its number passes the last one in the log
     * (or that one is 0).
     */
    method TryEmit(b: Builder, now: string, writeSucceeds: bool) returns (r: Result<(), EmitError>)
      modifies `file, `lastHash, `sequence
      ensures old(lastHash).None? ==>
                r == Ok(()) && file == old(file) && lastHash == None && sequence == old(sequence)
      ensures old(lastHash).Some? ==>
                sequence == if old(sequence) == 0xffff_ffff_ffff_ffff then 0 else old(sequence) + 1
      ensures old(lastHash).Some? && !writeSucceeds ==>
                r == Err(AppendFailed) && file == old(file) && lastHash == old(lastHash)
      ensures old(lastHash).Some? && writeSucceeds ==>
                var e := NewEvent(codec, b, now, sequence, old(lastHash).value);
                && r == Ok(())
                && file == old(file) + codec.render(e) + "\n"
                && lastHash == Some(e.selfHash)
                && (old(Intact()) ==> Log() == old(Log()) + [e])
      ensures old(Intact()) && old(lastHash).Some? && writeSucceeds ==>
                && Log() != [] && Log()[..|Log()| - 1] == old(Log())
                && Records(Log()[|Log()| - 1], b, now)
                && PlacedAt(codec, Log()[|Log()| - 1], sequence, HeadOf(old(Log())))
      ensures old(Intact()) && old(sequence) + 1 < U64_MODULUS ==> Intact()
      ensures old(Intact()) && old(lastHash).Some? && writeSucceeds ==>
                (Clean(codec, file) <==> LastSequence(old(Log())) == 0 || LastSequence(old(Log())) < sequence)
    {
      hide Records, NewEvent;
      if lastHash.None? {
        return Ok(());
      }
      sequence := NextSequence(sequence);
      var e := NewEvent(codec, b, now, sequence, lastHash.value);
      NewEventRecords(codec, b, now, sequence, lastHash.value);
      if !writeSucceeds {
        return Err(AppendFailed);
      }
      file := file + codec.render(e) + "\n";
      lastHash := Some(e.selfHash);
      if old(Intact()) {
        EventsSnocText(codec, old(file), e);
        NewEventFollows(codec, b, now, sequence, old(Log()));
        LastIsNew(old(Log()), e);
      }
      r := Ok(());
    }

    method Verify() returns (r: Report)
      ensures IsVerdict(codec, Lines(file), r)
      ensures Intact() ==> r.firstFailure.None?
    {
      r := VerifyChain(codec, Lines(file));
      ExactVerdict(codec, Lines(file), r, r);
    }
  }
}
