/**
 * Whole runs of the audit log: any number of threads interleaving the steps
 * of `try_emit`, failed writes, crashes at any point, shutdowns and restarts.
 */
module AuditRuns {
  import opened Common
  import opened AuditLog
  import opened AuditLines
  import opened AuditVerify
  import opened AuditSink

  type Thread = nat

  /** Where one thread stands inside `try_emit`. */
  datatype Phase =
    | HasSink(builder: Builder)                       // sink cloned, mutex not taken
    | Locked(builder: Builder)
    | Numbered(builder: Builder, sequence: U64)
    | Built(event: Event)
    | Written(event: Event)                           // line appended, head not moved
    | Moved

  datatype State = State(
    file: string,
    sink: Option<string>,
    counter: U64,
    holder: Option<Thread>,
    phases: map<Thread, Phase>,
    appended: seq<Event>)                             // the completed appends, in order

  datatype Label =
    | TakeSink(t: Thread, builder: Builder)
    | Lock(t: Thread)
    | Bump(t: Thread)
    | Build(t: Thread, now: string)
    | Append(t: Thread)
    | FailWrite(t: Thread)
    | MoveHead(t: Thread)
    | Release(t: Thread)
    | Crash
    | Restart(readable: bool)                         // could the tail of the file be read?
    | TurnOff

  /** One step of the process, or None when the step is not enabled. */
  function Next(c: Codec, s: State, l: Label): Option<State> {
    match l
    case TakeSink(t, b) =>
      if s.sink.Some? && t !in s.phases then Some(s.(phases := s.phases[t := HasSink(b)])) else None
    case Lock(t) =>
      if t in s.phases && s.phases[t].HasSink? && s.holder.None? then
        Some(s.(holder := Some(t), phases := s.phases[t := Locked(s.phases[t].builder)]))
      else None
    case Bump(t) =>
      if t in s.phases && s.phases[t].Locked? then
        var n := NextSequence(s.counter);
        Some(s.(counter := n, phases := s.phases[t := Numbered(s.phases[t].builder, n)]))
      else None
    case Build(t, now) =>
      if t in s.phases && s.phases[t].Numbered? && s.sink.Some? then
        var e := NewEvent(c, s.phases[t].builder, now, s.phases[t].sequence, s.sink.value);
        Some(s.(phases := s.phases[t := Built(e)]))
      else None
    case Append(t) =>
      if t in s.phases && s.phases[t].Built? then
        var e := s.phases[t].event;
        Some(s.(
          file := s.file + c.render(e) + "\n",
          appended := s.appended + [e],
          phases := s.phases[t := Written(e)]))
      else None
    case FailWrite(t) =>
      if t in s.phases && s.phases[t].Built? then
        Some(s.(holder := None, phases := s.phases - {t}))
      else None
    case MoveHead(t) =>
      if t in s.phases && s.phases[t].Written? then
        Some(s.(sink := Some(s.phases[t].event.selfHash), phases := s.phases[t := Moved]))
      else None
    case Release(t) =>
      if t in s.phases && s.phases[t].Moved? then
        Some(s.(holder := None, phases := s.phases - {t}))
      else None
    case Crash =>
      Some(s.(sink := None, counter := 0, holder := None, phases := map[]))
    case Restart(readable) =>
      if s.phases == map[] then
        var events := if readable then EventsIn(c, s.file) else [];
        Some(s.(sink := Some(HeadOf(events)), counter := LastSequence(events)))
      else None
    case TurnOff =>
      if s.phases == map[] then Some(s.(sink := None)) else None
  }

  function Run(c: Codec, s: State, labels: seq<Label>): Option<State>
    decreases |labels|
  {
    if labels == [] then Some(s)
    else match Next(c, s, labels[0])
      case None => None
      case Some(s') => Run(c, s', labels[1..])
  }

  /**
   * The two mishaps the process cannot see: a number taken when the counter
   * is at 2^64 - 1, and a restart that cannot read a tail it should link to.
   */
  predicate NoMishapAt(c: Codec, s: State, l: Label) {
    && (l.Bump? ==> s.counter + 1 < U64_MODULUS)
    && (l.Restart? && !l.readable ==>
          HeadOf(EventsIn(c, s.file)) == CHAIN_HEAD_PREV_HASH && LastSequence(EventsIn(c, s.file)) == 0)
  }

  predicate NoMishap(c: Codec, s: State, labels: seq<Label>)
    decreases |labels|
  {
    labels != [] ==>
      && NoMishapAt(c, s, labels[0])
      && match Next(c, s, labels[0])
         case None => true
         case Some(s') => NoMishap(c, s', labels[1..])
  }

  function Start(file: string): State {
    State(file, None, 0, None, map[], [])
  }

  // ----- What every step keeps -------------------------------------------

  /** Each append took a number above everything before it in the file. */
  predicate NumbersRise(base: seq<Event>, appended: seq<Event>) {
    forall i :: 0 <= i < |appended| ==> LastSequence(base + appended[..i]) < appended[i].sequence
  }

  ghost predicate LogKept(c: Codec, file0: string, s: State) {
    && Terminated(s.file) && Clean(c, s.file)
    && file0 <= s.file
    && EventsIn(c, s.file) == EventsIn(c, file0) + s.appended
    && NumbersRise(EventsIn(c, file0), s.appended)
  }

  predicate MutexKept(s: State) {
    && (forall t :: t in s.phases ==> (!s.phases[t].HasSink? <==> s.holder == Some(t)))
    && (s.holder.Some? ==> s.holder.value in s.phases)
    && (s.phases != map[] ==> s.sink.Some?)
  }

  /** Head and counter agree with the file, given what the lock holder is doing. */
  predicate HeadKept(c: Codec, s: State) {
    var events := EventsIn(c, s.file);
    s.sink.Some? ==>
      && LastSequence(events) <= s.counter
      && (s.holder.None? ==> s.sink.value == HeadOf(events))
      && (s.holder.Some? && s.holder.value in s.phases ==>
            match s.phases[s.holder.value]
            case Numbered(_, n) =>
              s.sink.value == HeadOf(events) && n == s.counter && LastSequence(events) < n
            case Built(e) =>
              && s.sink.value == HeadOf(events)
              && e.sequence == s.counter && LastSequence(events) < e.sequence && Follows(c, events, e)
            case Written(e) => HeadOf(events) == e.selfHash
            case _ => s.sink.value == HeadOf(events))
  }

  ghost predicate Kept(c: Codec, file0: string, s: State) {
    LogKept(c, file0, s) && MutexKept(s) && HeadKept(c, s)
  }

  lemma AppendKeeps(c: Codec, file0: string, s: State, e: Event)
    requires GoodCodec(c) && LogKept(c, file0, s)
    requires Follows(c, EventsIn(c, s.file), e) && LastSequence(EventsIn(c, s.file)) < e.sequence
    ensures LogKept(c, file0, s.(file := s.file + c.render(e) + "\n", appended := s.appended + [e]))
    ensures EventsIn(c, s.file + c.render(e) + "\n") == EventsIn(c, s.file) + [e]
  {
    EventsSnocText(c, s.file, e);
    var base, more := EventsIn(c, file0), s.appended + [e];
    assert base + more == base + s.appended + [e];
    forall i | 0 <= i < |more| ensures LastSequence(base + more[..i]) < more[i].sequence {
      assert more[..i] == s.appended[..i];
      if i == |s.appended| {
        assert s.appended[..i] == s.appended;
      }
    }
  }

  lemma LogStep(c: Codec, file0: string, s: State, l: Label, s': State)
    requires GoodCodec(c) && Kept(c, file0, s)
    requires Next(c, s, l) == Some(s')
    ensures LogKept(c, file0, s')
    ensures s.file <= s'.file
    ensures l.Append? ==> EventsIn(c, s'.file) == EventsIn(c, s.file) + [s.phases[l.t].event]
    ensures !l.Append? ==> s'.file == s.file
  {
    if l.Append? {
      assert s.holder == Some(l.t);
      AppendKeeps(c, file0, s, s.phases[l.t].event);
    }
  }

  lemma MutexStep(c: Codec, s: State, l: Label, s': State)
    requires MutexKept(s)
    requires Next(c, s, l) == Some(s')
    ensures MutexKept(s')
  {
    match l
    case FailWrite(t) =>
      assert s.holder == Some(t);
    case Release(t) =>
      assert s.holder == Some(t);
    case _ =>
  }

  lemma HeadStep(c: Codec, s: State, l: Label, s': State)
    requires MutexKept(s) && HeadKept(c, s)
    requires Next(c, s, l) == Some(s')
    requires NoMishapAt(c, s, l)
    requires l.Append? ==> EventsIn(c, s'.file) == EventsIn(c, s.file) + [s.phases[l.t].event]
    requires !l.Append? ==> s'.file == s.file
    ensures HeadKept(c, s')
  {
    hide ChainOk, EventsIn, SelfHash, LogKept;
    match l
    case TakeSink(t, b) =>
    case Lock(t) =>
    case Bump(t) =>
      assert s.holder == Some(t);
    case Build(t, now) =>
      assert s.holder == Some(t);
      NewEventFollows(c, s.phases[t].builder, now, s.phases[t].sequence, EventsIn(c, s.file));
    case Append(t) =>
      assert s.holder == Some(t);
    case FailWrite(t) =>
      assert s.holder == Some(t);
    case MoveHead(t) =>
      assert s.holder == Some(t);
    case Release(t) =>
      assert s.holder == Some(t);
    case Crash =>
    case Restart(readable) =>
    case TurnOff =>
  }

  lemma StepKeeps(c: Codec, file0: string, s: State, l: Label, s': State)
    requires GoodCodec(c) && Kept(c, file0, s)
    requires Next(c, s, l) == Some(s')
    requires NoMishapAt(c, s, l)
    ensures Kept(c, file0, s')
    ensures s.file <= s'.file
  {
    LogStep(c, file0, s, l, s');
    MutexStep(c, s, l, s');
    HeadStep(c, s, l, s');
  }

  /**
   * Whole-run safety. From any clean, newline-terminated log and over every
   * interleaving of emitting threads with failed writes, crashes at any step,
   * shutdowns and restarts, the file is only extended, verifies clean, and
   * holds exactly its old events followed by the completed appends.
   */
  lemma {:induction false} RunKeeps(c: Codec, file0: string, s: State, labels: seq<Label>, s': State)
    requires GoodCodec(c) && Kept(c, file0, s)
    requires Run(c, s, labels) == Some(s')
    requires NoMishap(c, s, labels)
    ensures Kept(c, file0, s')
    decreases |labels|
  {
    if labels != [] {
      var mid := Next(c, s, labels[0]).value;
      StepKeeps(c, file0, s, labels[0], mid);
      RunKeeps(c, file0, mid, labels[1..], s');
    }
  }

  lemma RunsStayClean(c: Codec, file0: string, labels: seq<Label>, s': State, r: Report)
    requires GoodCodec(c) && Terminated(file0) && Clean(c, file0)
    requires Run(c, Start(file0), labels) == Some(s')
    requires NoMishap(c, Start(file0), labels)
    requires IsVerdict(c, Lines(s'.file), r)
    ensures r.firstFailure.None?
    ensures file0 <= s'.file
    ensures EventsIn(c, s'.file) == EventsIn(c, file0) + s'.appended
    ensures StrictlyIncreasing(s'.appended)
    ensures forall e, f :: e in EventsIn(c, file0) && f in s'.appended ==> e.sequence < f.sequence
  {
    hide HeadKept, MutexKept, NumbersRise, StrictlyIncreasing, ChainOk, Lines, NonBlank, Run, NoMishap, Terminated;
    assert EventsIn(c, file0) + [] == EventsIn(c, file0);
    RunKeeps(c, file0, Start(file0), labels, s');
    ExactVerdict(c, Lines(s'.file), r, r);
    NumbersAbove(c, EventsIn(c, file0), s'.appended);
  }

  lemma NumbersAbove(c: Codec, base: seq<Event>, more: seq<Event>)
    requires ChainOk(c, base) && NumbersRise(base, more)
    ensures StrictlyIncreasing(more)
    ensures forall e, f :: e in base && f in more ==> e.sequence < f.sequence
  {
    forall i | 1 <= i < |more| ensures more[i - 1].sequence < more[i].sequence {
      var before := base + more[..i];
      assert before[|before| - 1] == more[i - 1];
    }
    hide ChainOk, NumbersRise;
    forall e, f | e in base && f in more ensures e.sequence < f.sequence {
      var i :| 0 <= i < |base| && base[i] == e;
      var j :| 0 <= j < |more| && more[j] == f;
      LastIsHighest(c, base, i);
      RiseAboveBase(base, more, j);
    }
  }

  /** In an intact chain no event outnumbers the last one. */
  lemma {:induction false} LastIsHighest(c: Codec, events: seq<Event>, i: nat)
    requires ChainOk(c, events) && i < |events|
    ensures events[i].sequence <= LastSequence(events)
    decreases |events| - i
  {
    if i + 1 < |events| {
      assert SequencedAt(events, i + 1);
      assert events[..i + 1][i] == events[i];
      LastIsHighest(c, events, i + 1);
    }
  }

  lemma {:induction false} RiseAboveBase(base: seq<Event>, more: seq<Event>, j: nat)
    requires NumbersRise(base, more) && j < |more|
    ensures LastSequence(base) < more[j].sequence
    decreases j
  {
    if j == 0 {
      assert base + more[..0] == base;
    } else {
      RiseAboveBase(base, more, j - 1);
      var before := base + more[..j];
      assert before[|before| - 1] == more[j - 1];
    }
  }

  // ----- Any run, mishaps included ---------------------------------------

  /** What is appended now will link to the end of the file and pass its last number. */
  predicate Fits(c: Codec, s: State) {
    var events := EventsIn(c, s.file);
    && s.sink == Some(HeadOf(events))
    && (LastSequence(events) == 0 || LastSequence(events) < s.counter)
  }

  /** Every append of the run fits when its turn comes. */
  predicate AppendsFit(c: Codec, s: State, labels: seq<Label>)
    decreases |labels|
  {
    labels != [] ==>
      match Next(c, s, labels[0])
      case None => true
      case Some(s') => (labels[0].Append? ==> Fits(c, s)) && AppendsFit(c, s', labels[1..])
  }

  predicate AllReadable(c: Codec, lines: seq<string>) {
    forall i :: 0 <= i < |lines| ==> Readable(c, lines[i])
  }

  ghost predicate LogExtends(c: Codec, file0: string, s: State) {
    && Terminated(s.file) && AllReadable(c, Lines(s.file))
    && file0 <= s.file
    && EventsIn(c, s.file) == EventsIn(c, file0) + s.appended
  }

  /** What the lock holder is building comes from the head and the counter as they are. */
  predicate HolderKept(c: Codec, s: State) {
    s.holder.Some? && s.holder.value in s.phases ==>
      match s.phases[s.holder.value]
      case Numbered(_, n) => n == s.counter
      case Built(e) =>
        && s.sink == Some(e.prevHash) && e.sequence == s.counter
        && SelfHash(c, e) == e.selfHash
      case _ => true
  }

  lemma ReadableSnoc(c: Codec, text: string, e: Event)
    requires GoodCodec(c) && Terminated(text) && AllReadable(c, Lines(text))
    ensures AllReadable(c, Lines(text + c.render(e) + "\n"))
  {
    var line := c.render(e);
    assert c.parse(line) == Some(e) && !Blank(line);
    AppendedLine(text, line);
  }

  /** One append: the file holds one more event, and is intact iff it was and the append fits. */
  lemma AppendExtends(c: Codec, file0: string, s: State, e: Event)
    requires GoodCodec(c) && LogExtends(c, file0, s)
    requires s.sink == Some(e.prevHash) && e.sequence == s.counter && SelfHash(c, e) == e.selfHash
    ensures var s' := s.(file := s.file + c.render(e) + "\n", appended := s.appended + [e]);
      && LogExtends(c, file0, s')
      && (ChainOk(c, EventsIn(c, s'.file)) <==> ChainOk(c, EventsIn(c, s.file)) && Fits(c, s))
  {
    hide EventsIn, Lines, Terminated, SelfHash, HeadOf, LastSequence, Clean, ChainOk, GoodCodec, AllReadable;
    EventsSnocText(c, s.file, e);
    ReadableSnoc(c, s.file, e);
    ChainSnoc(c, EventsIn(c, s.file), e);
    assert EventsIn(c, file0) + (s.appended + [e]) == EventsIn(c, file0) + s.appended + [e];
    assert file0 <= s.file + c.render(e) + "\n";
  }

  lemma ExtendStep(c: Codec, file0: string, s: State, l: Label, s': State)
    requires GoodCodec(c) && LogExtends(c, file0, s) && MutexKept(s) && HolderKept(c, s)
    requires Next(c, s, l) == Some(s')
    ensures LogExtends(c, file0, s') && MutexKept(s') && HolderKept(c, s')
    ensures ChainOk(c, EventsIn(c, s'.file)) <==>
            ChainOk(c, EventsIn(c, s.file)) && (l.Append? ==> Fits(c, s))
  {
    hide EventsIn, Lines, Terminated, AllReadable, ChainOk, HeadOf, LastSequence, Fits;
    MutexStep(c, s, l, s');
    HolderStep(c, s, l, s');
    if l.Append? {
      assert s.holder == Some(l.t);
      AppendExtends(c, file0, s, s.phases[l.t].event);
    }
  }

  lemma HolderStep(c: Codec, s: State, l: Label, s': State)
    requires MutexKept(s) && HolderKept(c, s)
    requires Next(c, s, l) == Some(s')
    ensures HolderKept(c, s')
  {
    hide EventsIn;
    match l
    case Bump(t) => assert s.holder == Some(t);
    case Build(t, now) =>
      assert s.holder == Some(t);
      var e := s'.phases[t].event;
      assert Canonical(c, e) == Canonical(c, e.(selfHash := ""));
    case Append(t) => assert s.holder == Some(t);
    case FailWrite(t) => assert s.holder == Some(t);
    case MoveHead(t) => assert s.holder == Some(t);
    case Release(t) => assert s.holder == Some(t);
    case _ =>
  }

  lemma {:induction false} RunExtends(c: Codec, file0: string, s: State, labels: seq<Label>, s': State)
    requires GoodCodec(c) && LogExtends(c, file0, s) && MutexKept(s) && HolderKept(c, s)
    requires Run(c, s, labels) == Some(s')
    ensures LogExtends(c, file0, s')
    ensures ChainOk(c, EventsIn(c, s'.file)) <==> ChainOk(c, EventsIn(c, s.file)) && AppendsFit(c, s, labels)
    decreases |labels|
  {
    hide LogExtends, MutexKept, HolderKept, Next, EventsIn, ChainOk, Fits;
    if labels != [] {
      var mid := Next(c, s, labels[0]).value;
      ExtendStep(c, file0, s, labels[0], mid);
      RunExtends(c, file0, mid, labels[1..], s');
    }
  }

  /**
   * Every run whatever: the counter may wrap, and a restart may fail to read
   * the tail. The file is only extended and holds its old events followed by
   * the completed appends; it verifies clean iff at every append the head was
   * that of the file and the counter past its last number, or that one 0.
   */
  lemma RunIsCleanIff(c: Codec, file0: string, labels: seq<Label>, s': State, r: Report)
    requires GoodCodec(c) && Terminated(file0) && Clean(c, file0)
    requires Run(c, Start(file0), labels) == Some(s')
    requires IsVerdict(c, Lines(s'.file), r)
    ensures file0 <= s'.file
    ensures EventsIn(c, s'.file) == EventsIn(c, file0) + s'.appended
    ensures r.firstFailure.None? <==> AppendsFit(c, Start(file0), labels)
  {
    assert EventsIn(c, file0) + [] == EventsIn(c, file0);
    hide Run, LastSequence, HeadOf, SelfHash, NonBlank, Terminated, ChainOk, Lines, Events, AppendsFit;
    RunExtends(c, file0, Start(file0), labels, s');
    ExactVerdict(c, Lines(s'.file), r, r);
  }

  // ----- What the events of a run say ------------------------------------

  predicate AskedFor(past: seq<Label>, t: Thread, b: Builder) {
    TakeSink(t, b) in past
  }

  /** Step `q` built the event for the thread that took the sink at step `p`, from its builder. */
  ghost predicate BuiltAt(past: seq<Label>, e: Event, p: nat, q: nat) {
    && p < q < |past| && past[p].TakeSink? && past[q].Build? && past[p].t == past[q].t
    && Records(e, past[p].builder, past[q].now)
  }

  ghost predicate Recorded(past: seq<Label>, e: Event) {
    exists p, q :: BuiltAt(past, e, p, q)
  }

  ghost predicate PhaseSourced(past: seq<Label>, t: Thread, phase: Phase) {
    match phase
    case HasSink(b) => AskedFor(past, t, b)
    case Locked(b) => AskedFor(past, t, b)
    case Numbered(b, _) => AskedFor(past, t, b)
    case Built(e) => Recorded(past, e)
    case Written(e) => Recorded(past, e)
    case Moved => true
  }

  /** All that is under way or written stems from the steps so far. */
  ghost predicate Sourced(past: seq<Label>, s: State) {
    && (forall t :: t in s.phases ==> PhaseSourced(past, t, s.phases[t]))
    && (forall e :: e in s.appended ==> Recorded(past, e))
  }

  lemma StillRecorded(past: seq<Label>, l: Label, e: Event)
    requires Recorded(past, e)
    ensures Recorded(past + [l], e)
  {
    hide Records;
    var p, q :| BuiltAt(past, e, p, q);
    assert BuiltAt(past + [l], e, p, q);
  }

  lemma StillSourced(past: seq<Label>, l: Label, t: Thread, phase: Phase)
    requires PhaseSourced(past, t, phase)
    ensures PhaseSourced(past + [l], t, phase)
  {
    hide Recorded;
    match phase
    case Built(e) => StillRecorded(past, l, e);
    case Written(e) => StillRecorded(past, l, e);
    case _ =>
  }

  lemma BuildRecords(past: seq<Label>, t: Thread, b: Builder, now: string, e: Event)
    requires AskedFor(past, t, b) && Records(e, b, now)
    ensures Recorded(past + [Build(t, now)], e)
  {
    hide Records;
    var p :| 0 <= p < |past| && past[p] == TakeSink(t, b);
    assert BuiltAt(past + [Build(t, now)], e, p, |past|);
  }

  lemma StepSources(c: Codec, past: seq<Label>, s: State, l: Label, s': State)
    requires Sourced(past, s) && Next(c, s, l) == Some(s')
    ensures Sourced(past + [l], s')
  {
    hide Recorded, Records, EventsIn, NewEvent, HeadOf, LastSequence;
    forall t | t in s.phases ensures PhaseSourced(past + [l], t, s.phases[t]) {
      StillSourced(past, l, t, s.phases[t]);
    }
    forall e | e in s.appended ensures Recorded(past + [l], e) {
      StillRecorded(past, l, e);
    }
    if l.Build? {
      var b := s.phases[l.t].builder;
      NewEventRecords(c, b, l.now, s.phases[l.t].sequence, s.sink.value);
      BuildRecords(past, l.t, b, l.now, s'.phases[l.t].event);
    }
  }

  lemma {:induction false} RunSources(c: Codec, past: seq<Label>, s: State, labels: seq<Label>, s': State)
    requires Sourced(past, s) && Run(c, s, labels) == Some(s')
    ensures Sourced(past + labels, s')
    decreases |labels|
  {
    hide Sourced, Next;
    if labels == [] {
      assert past + labels == past;
    } else {
      var mid := Next(c, s, labels[0]).value;
      StepSources(c, past, s, labels[0], mid);
      RunSources(c, past + [labels[0]], mid, labels[1..], s');
      assert past + [labels[0]] + labels[1..] == past + labels;
    }
  }

  /**
   * No run invents an event, mishaps or not: whatever was appended is what
   * one thread asked for, made safe, under the time it was built at.
   */
  lemma RunRecords(c: Codec, file0: string, labels: seq<Label>, s': State)
    requires Run(c, Start(file0), labels) == Some(s')
    ensures forall e :: e in s'.appended ==> Recorded(labels, e)
  {
    assert [] + labels == labels;
    hide Recorded, Run;
    RunSources(c, [], Start(file0), labels, s');
  }

  // ----- The interleaved steps and the method agree ----------------------

  function Emission(t: Thread, b: Builder, now: string): seq<Label> {
    [TakeSink(t, b), Lock(t), Bump(t), Build(t, now), Append(t), MoveHead(t), Release(t)]
  }

  /**
   * A thread that runs alone does what `AuditProcess.TryEmit` does: one
   * number, one line, head at the new event, mutex free again.
   */
  lemma EmissionAlone(c: Codec, s: State, t: Thread, b: Builder, now: string)
    requires s.sink.Some? && s.holder.None? && t !in s.phases
    ensures var n := NextSequence(s.counter);
            var e := NewEvent(c, b, now, n, s.sink.value);
            Run(c, s, Emission(t, b, now)) == Some(s.(
              counter := n,
              file := s.file + c.render(e) + "\n",
              sink := Some(e.selfHash),
              appended := s.appended + [e]))
  {
    var n := NextSequence(s.counter);
    var e := NewEvent(c, b, now, n, s.sink.value);
    var labels := Emission(t, b, now);
    var s1 := s.(phases := s.phases[t := HasSink(b)]);
    var s2 := s1.(holder := Some(t), phases := s1.phases[t := Locked(b)]);
    var s3 := s2.(counter := n, phases := s2.phases[t := Numbered(b, n)]);
    var s4 := s3.(phases := s3.phases[t := Built(e)]);
    var s5 := s4.(
      file := s.file + c.render(e) + "\n", appended := s.appended + [e], phases := s4.phases[t := Written(e)]);
    var s6 := s5.(sink := Some(e.selfHash), phases := s5.phases[t := Moved]);
    var s7 := s6.(holder := None, phases := s6.phases - {t});
    assert s7.phases == s.phases;
    RunStep(c, s6, labels[6..], s7);
    RunStep(c, s5, labels[5..], s6);
    RunStep(c, s4, labels[4..], s5);
    RunStep(c, s3, labels[3..], s4);
    RunStep(c, s2, labels[2..], s3);
    RunStep(c, s1, labels[1..], s2);
    RunStep(c, s, labels, s1);
  }

  lemma RunStep(c: Codec, s: State, labels: seq<Label>, mid: State)
    requires labels != [] && Next(c, s, labels[0]) == Some(mid)
    ensures Run(c, s, labels) == Run(c, mid, labels[1..])
  {}

  /**
   * The run at which an unreadable tail shows: restart on a log whose last
   * hash is not the sentinel, then one emission. Its event points at the
   * sentinel, and verification fails there with a chain break.
   */
  lemma UnreadableRestartBreaksChain(
    c: Codec, file0: string, t: Thread, b: Builder, now: string, s': State, r: Report)
    requires GoodCodec(c) && Terminated(file0) && Clean(c, file0)
    requires HeadOf(EventsIn(c, file0)) != CHAIN_HEAD_PREV_HASH
    requires Run(c, Start(file0), [Restart(false)] + Emission(t, b, now)) == Some(s')
    requires IsVerdict(c, Lines(s'.file), r)
    ensures r.firstFailure == Some(Failure(|Lines(file0)| + 1, ChainBreak))
  {
    hide EventsIn, Lines, Clean, Terminated, Emission, NewEvent, SelfHash, NonBlank, FaultOf, CleanLines;
    var labels := [Restart(false)] + Emission(t, b, now);
    var s1 := Start(file0).(sink := Some(CHAIN_HEAD_PREV_HASH), counter := 0);
    assert labels[1..] == Emission(t, b, now);
    RunStep(c, Start(file0), labels, s1);
    EmissionAlone(c, s1, t, b, now);
    var e := NewEvent(c, b, now, NextSequence(0), CHAIN_HEAD_PREV_HASH);
    BreakAtEnd(c, file0, e, b, now, r);
  }

  lemma BreakAtEnd(c: Codec, file0: string, e: Event, b: Builder, now: string, r: Report)
    requires GoodCodec(c) && Terminated(file0) && Clean(c, file0)
    requires e == NewEvent(c, b, now, NextSequence(0), CHAIN_HEAD_PREV_HASH)
    requires HeadOf(EventsIn(c, file0)) != CHAIN_HEAD_PREV_HASH
    requires IsVerdict(c, Lines(file0 + c.render(e) + "\n"), r)
    ensures r.firstFailure == Some(Failure(|Lines(file0)| + 1, ChainBreak))
  {
    var line, lines := c.render(e), Lines(file0);
    assert c.parse(line) == Some(e) && !Blank(line);
    AppendedLine(file0, line);
    var all := lines + [line];
    assert all[..|lines|] == lines && all[..|lines| + 1] == all;
    assert FaultOf(c, Events(c, lines), line) == Some(ChainBreak);
    hide FaultOf, Events, CleanLines, NonBlank, Lines;
    ExactVerdict(c, all, Report(NonBlank(all), Some(Failure(|lines| + 1, ChainBreak))), r);
  }
}
