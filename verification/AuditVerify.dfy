/** `verify_chain_from_reader` and `read_chain_tail`: the two loops that replay a log. */
module AuditVerify {
  import opened Common
  import opened Hex
  import opened AuditLog
  import opened AuditLines

  datatype FailureKind = Parse | SelfHashMismatch | ChainBreak | SequenceBreak

  datatype Failure = Failure(lineNumber: nat, kind: FailureKind)

  datatype Report = Report(totalLines: nat, firstFailure: Option<Failure>)

  /** What is wrong with `line` after the intact chain `events`, in the order of precedence. */
  function FaultOf(c: Codec, events: seq<Event>, line: string): Option<FailureKind> {
    if Blank(line) then None
    else match c.parse(line)
      case None => Some(Parse)
      case Some(e) =>
        if e.prevHash != HeadOf(events) then Some(ChainBreak)
        else if e.sequence <= LastSequence(events) && LastSequence(events) != 0 then Some(SequenceBreak)
        else if SelfHash(c, e) != e.selfHash then Some(SelfHashMismatch)
        else None
  }

  function NonBlank(lines: seq<string>): nat {
    if lines == [] then 0
    else NonBlank(lines[..|lines| - 1]) + if Blank(lines[|lines| - 1]) then 0 else 1
  }

  /** The report names the first line that an intact prefix cannot be extended by. */
  predicate IsVerdict(c: Codec, lines: seq<string>, r: Report) {
    match r.firstFailure
    case None => CleanLines(c, lines) && r.totalLines == NonBlank(lines)
    case Some(f) =>
      && 1 <= f.lineNumber <= |lines|
      && CleanLines(c, lines[..f.lineNumber - 1])
      && FaultOf(c, Events(c, lines[..f.lineNumber - 1]), lines[f.lineNumber - 1]) == Some(f.kind)
      && r.totalLines == NonBlank(lines[..f.lineNumber])
  }

  /** The event names the last hash of `events`, or the sentinel when there are none. */
  predicate LinksTo(events: seq<Event>, e: Event) {
    if events == [] then e.prevHash == CHAIN_HEAD_PREV_HASH else e.prevHash == events[|events| - 1].selfHash
  }

  /** Its number passes the last one of `events`, unless that is 0. */
  predicate PassesLast(events: seq<Event>, e: Event) {
    events != [] && events[|events| - 1].sequence != 0 ==> e.sequence > events[|events| - 1].sequence
  }

  /**
   * Why line `n` is reported: it does not parse; or it parses and does not
   * link; or it links and is out of sequence; or both are right and only its
   * own hash is wrong.
   */
  predicate Explained(c: Codec, lines: seq<string>, n: nat, kind: FailureKind)
    requires 1 <= n <= |lines|
  {
    var events, parsed := Events(c, lines[..n - 1]), c.parse(lines[n - 1]);
    && !Blank(lines[n - 1])
    && (kind == Parse <==> parsed.None?)
    && (parsed.Some? ==>
          && (kind == ChainBreak <==> !LinksTo(events, parsed.value))
          && (kind == SequenceBreak <==> LinksTo(events, parsed.value) && !PassesLast(events, parsed.value))
          && (kind == SelfHashMismatch ==>
                parsed.value.selfHash != HexOf(c.sha256(Canonical(c, parsed.value)))))
  }

  lemma VerdictExplains(c: Codec, lines: seq<string>, r: Report)
    requires IsVerdict(c, lines, r) && r.firstFailure.Some?
    ensures Explained(c, lines, r.firstFailure.value.lineNumber, r.firstFailure.value.kind)
  {
    hide Events, CleanLines, Blank, NonBlank, HexOf, Canonical;
    var n := r.firstFailure.value.lineNumber;
    EndOf(Events(c, lines[..n - 1]));
  }

  lemma EndOf(events: seq<Event>)
    ensures HeadOf(events) == if events == [] then CHAIN_HEAD_PREV_HASH else events[|events| - 1].selfHash
    ensures LastSequence(events) == if events == [] then 0 else events[|events| - 1].sequence
  {}

  method VerifyChain(c: Codec, lines: seq<string>) returns (r: Report)
    ensures IsVerdict(c, lines, r)
    ensures r.firstFailure.Some? ==>
              Explained(c, lines, r.firstFailure.value.lineNumber, r.firstFailure.value.kind)
  {
    hide CleanLines, Events, NonBlank, HeadOf, LastSequence, Explained;
    NoLines(c);
    assert lines[..0] == [];
    var total := 0;
    var prevHash := CHAIN_HEAD_PREV_HASH;
    var prevSeq: U64 := 0;
    for idx := 0 to |lines|
      invariant CleanLines(c, lines[..idx])
      invariant prevHash == HeadOf(Events(c, lines[..idx]))
      invariant prevSeq == LastSequence(Events(c, lines[..idx]))
      invariant total == NonBlank(lines[..idx])
    {
      var line := lines[idx];
      OneMoreLine(c, lines, idx);
      if Blank(line) {
        continue;
      }
      total := total + 1;
      var parsed := c.parse(line);
      if parsed.None? {
        r := Report(total, Some(Failure(idx + 1, Parse)));
        VerdictExplains(c, lines, r);
        return;
      }
      var ev := parsed.value;
      if ev.prevHash != prevHash {
        r := Report(total, Some(Failure(idx + 1, ChainBreak)));
        VerdictExplains(c, lines, r);
        return;
      }
      if ev.sequence <= prevSeq && prevSeq != 0 {
        r := Report(total, Some(Failure(idx + 1, SequenceBreak)));
        VerdictExplains(c, lines, r);
        return;
      }
      var digest := HexEncode(c.sha256(Canonical(c, ev)));
      if digest != ev.selfHash {
        r := Report(total, Some(Failure(idx + 1, SelfHashMismatch)));
        VerdictExplains(c, lines, r);
        return;
      }
      prevHash := ev.selfHash;
      prevSeq := ev.sequence;
    }
    assert lines[..|lines|] == lines;
    r := Report(total, None);
  }

  lemma NoLines(c: Codec)
    ensures CleanLines(c, []) && NonBlank([]) == 0 && Events(c, []) == []
    ensures HeadOf([]) == CHAIN_HEAD_PREV_HASH && LastSequence([]) == 0
  {}

  lemma OneMoreLine(c: Codec, lines: seq<string>, idx: nat)
    requires idx < |lines|
    ensures var before, after, line := lines[..idx], lines[..idx + 1], lines[idx];
      && (CleanLines(c, after) <==> CleanLines(c, before) && FaultOf(c, Events(c, before), line).None?)
      && NonBlank(after) == NonBlank(before) + (if Blank(line) then 0 else 1)
      && HeadOf(Events(c, after)) ==
         (if EventsOn(c, line) == [] then HeadOf(Events(c, before)) else EventsOn(c, line)[0].selfHash)
      && LastSequence(Events(c, after)) ==
         (if EventsOn(c, line) == [] then LastSequence(Events(c, before)) else EventsOn(c, line)[0].sequence)
  {
    assert lines[..idx + 1] == lines[..idx] + [lines[idx]];
    assert lines[..idx + 1][..idx] == lines[..idx];
    CleanSnoc(c, lines[..idx], lines[idx]);
    EventsSnoc(c, lines[..idx], lines[idx]);
    if EventsOn(c, lines[idx]) == [] {
      assert Events(c, lines[..idx]) + [] == Events(c, lines[..idx]);
    }
  }

  lemma CleanSnoc(c: Codec, lines: seq<string>, line: string)
    ensures CleanLines(c, lines + [line]) <==>
            CleanLines(c, lines) && FaultOf(c, Events(c, lines), line).None?
  {
    var all := lines + [line];
    EventsSnoc(c, lines, line);
    assert all[|lines|] == line && forall i :: 0 <= i < |lines| ==> all[i] == lines[i];
    if EventsOn(c, line) == [] {
      assert Events(c, lines) + [] == Events(c, lines);
    } else {
      ChainSnoc(c, Events(c, lines), EventsOn(c, line)[0]);
      assert EventsOn(c, line) == [EventsOn(c, line)[0]];
    }
  }

  /** Every prefix of a clean log is clean. */
  lemma {:induction false} CleanPrefix(c: Codec, lines: seq<string>, n: nat)
    requires n <= |lines| && CleanLines(c, lines)
    ensures CleanLines(c, lines[..n])
    decreases |lines|
  {
    if n == |lines| {
      assert lines[..n] == lines;
    } else {
      var m := |lines| - 1;
      assert lines == lines[..m] + [lines[m]];
      CleanSnoc(c, lines[..m], lines[m]);
      CleanPrefix(c, lines[..m], n);
      assert lines[..m][..n] == lines[..n];
    }
  }

  /**
   * The verdict is exact. No failure is reported iff every non-blank line
   * parses, links, rehashes and is in sequence; otherwise the reported line is
   * the first one whose prefix is not clean, and the report is the only verdict.
   */
  lemma ExactVerdict(c: Codec, lines: seq<string>, r: Report, other: Report)
    requires IsVerdict(c, lines, r)
    ensures r.firstFailure.None? <==> CleanLines(c, lines)
    ensures r.firstFailure.Some? ==>
              forall n: nat :: n <= |lines| ==> (CleanLines(c, lines[..n]) <==> n < r.firstFailure.value.lineNumber)
    ensures IsVerdict(c, lines, other) ==> other == r
  {
    assert lines[..|lines|] == lines;
    FailurePoint(c, lines, r);
    if IsVerdict(c, lines, other) {
      FailurePoint(c, lines, other);
      if r.firstFailure.Some? && other.firstFailure.Some? {
        var m, n := r.firstFailure.value.lineNumber, other.firstFailure.value.lineNumber;
        assert CleanLines(c, lines[..m - 1]) && CleanLines(c, lines[..n - 1]);
        assert m == n;
      }
    }
  }

  lemma FailurePoint(c: Codec, lines: seq<string>, r: Report)
    requires IsVerdict(c, lines, r)
    ensures r.firstFailure.Some? ==>
              forall n: nat :: n <= |lines| ==> (CleanLines(c, lines[..n]) <==> n < r.firstFailure.value.lineNumber)
  {
    if r.firstFailure.Some? {
      var k := r.firstFailure.value.lineNumber;
      CleanSnoc(c, lines[..k - 1], lines[k - 1]);
      assert lines[..k] == lines[..k - 1] + [lines[k - 1]];
      forall n: nat | n <= |lines| ensures CleanLines(c, lines[..n]) <==> n < k {
        if n < k {
          CleanPrefix(c, lines[..k - 1], n);
          assert lines[..k - 1][..n] == lines[..n];
        } else {
          assert lines[..n][..k] == lines[..k];
          if CleanLines(c, lines[..n]) {
            CleanPrefix(c, lines[..n], k);
          }
        }
      }
    }
  }

  /** Lines after the first failure never change the verdict. */
  lemma VerdictIgnoresSuffix(c: Codec, lines: seq<string>, more: seq<string>, r: Report)
    requires IsVerdict(c, lines, r) && r.firstFailure.Some?
    ensures IsVerdict(c, lines + more, r)
  {
    var k := r.firstFailure.value.lineNumber;
    assert (lines + more)[..k - 1] == lines[..k - 1];
    assert (lines + more)[..k] == lines[..k];
  }

  // ----- The init scan ---------------------------------------------------

  datatype Tail = Tail(selfHash: string, sequence: U64)

  function TailOf(events: seq<Event>): Option<Tail> {
    if events == [] then None else Some(Tail(HeadOf(events), LastSequence(events)))
  }

  predicate StrictlyIncreasing(events: seq<Event>) {
    forall i :: 1 <= i < |events| ==> events[i - 1].sequence < events[i].sequence
  }

  /**
   * The last well-formed line wins, whatever malformed lines follow it; the
   * scan warns iff the well-formed sequence numbers do not strictly increase.
   */
  method ReadChainTail(c: Codec, lines: seq<string>) returns (last: Option<Tail>, warned: bool)
    ensures last == TailOf(Events(c, lines))
    ensures warned <==> !StrictlyIncreasing(Events(c, lines))
  {
    hide Events, StrictlyIncreasing, TailOf;
    last, warned := None, false;
    var priorSeq: Option<U64> := None;
    NoTail(c);
    assert lines[..0] == [];
    for idx := 0 to |lines|
      invariant last == TailOf(Events(c, lines[..idx]))
      invariant priorSeq == if last.None? then None else Some(last.value.sequence)
      invariant warned <==> !StrictlyIncreasing(Events(c, lines[..idx]))
    {
      var line := lines[idx];
      NextTail(c, lines, idx);
      if Blank(line) {
        continue;
      }
      var parsed := c.parse(line);
      if parsed.Some? {
        var ev := parsed.value;
        if priorSeq.Some? && priorSeq.value >= ev.sequence {
          warned := true;
        }
        priorSeq := Some(ev.sequence);
        last := Some(Tail(ev.selfHash, ev.sequence));
      }
    }
    assert lines[..|lines|] == lines;
  }

  lemma NoTail(c: Codec)
    ensures TailOf(Events(c, [])) == None && StrictlyIncreasing(Events(c, []))
  {}

  lemma NextTail(c: Codec, lines: seq<string>, idx: nat)
    requires idx < |lines|
    ensures var before, after, here := Events(c, lines[..idx]), Events(c, lines[..idx + 1]), EventsOn(c, lines[idx]);
      if here == [] then TailOf(after) == TailOf(before) && (StrictlyIncreasing(after) <==> StrictlyIncreasing(before))
      else
        && TailOf(after) == Some(Tail(here[0].selfHash, here[0].sequence))
        && (StrictlyIncreasing(after) <==>
              StrictlyIncreasing(before) &&
              (TailOf(before).Some? ==> TailOf(before).value.sequence < here[0].sequence))
  {
    var before, here := Events(c, lines[..idx]), EventsOn(c, lines[idx]);
    assert lines[..idx + 1] == lines[..idx] + [lines[idx]];
    EventsSnoc(c, lines[..idx], lines[idx]);
    if here == [] {
      assert before + [] == before;
    } else {
      assert here == [here[0]];
      IncreasingSnoc(before, here[0]);
    }
  }

  lemma IncreasingSnoc(events: seq<Event>, e: Event)
    ensures StrictlyIncreasing(events + [e]) <==>
            StrictlyIncreasing(events) && (events != [] ==> events[|events| - 1].sequence < e.sequence)
  {
    var all := events + [e];
    assert forall i :: 0 <= i < |events| ==> all[i] == events[i];
    if StrictlyIncreasing(all) {
      assert forall i :: 1 <= i < |events| ==> all[i - 1].sequence < all[i].sequence;
      if events != [] {
        assert all[|events| - 1].sequence < all[|events|].sequence;
      }
    }
  }
}
