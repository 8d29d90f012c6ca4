/** The log file as text, the lines a buffered reader gets from it, and the events on them. */
module AuditLines {
  import opened Common
  import opened AuditLog

  /** `BufRead::lines` drops the '\n' and one '\r' before it. */
  function StripCr(line: string): string {
    if line != "" && line[|line| - 1] == '\r' then line[..|line| - 1] else line
  }

  /** The newline-terminated lines of `text`, read with `cur` already pending. */
  function Complete(cur: string, text: string): seq<string>
    decreases |text|
  {
    if text == "" then []
    else if text[0] == '\n' then [StripCr(cur)] + Complete("", text[1..])
    else Complete(cur + [text[0]], text[1..])
  }

  /** What follows the last newline. */
  function Pending(cur: string, text: string): string
    decreases |text|
  {
    if text == "" then cur
    else if text[0] == '\n' then Pending("", text[1..])
    else Pending(cur + [text[0]], text[1..])
  }

  function Lines(text: string): seq<string> {
    Complete("", text) + if Pending("", text) == "" then [] else [Pending("", text)]
  }

  predicate Terminated(text: string) {
    Pending("", text) == ""
  }

  lemma {:induction false} ReadConcat(cur: string, s: string, t: string)
    ensures Complete(cur, s + t) == Complete(cur, s) + Complete(Pending(cur, s), t)
    ensures Pending(cur, s + t) == Pending(Pending(cur, s), t)
    decreases |s|
  {
    if s == "" {
      assert s + t == t;
    } else {
      assert (s + t)[1..] == s[1..] + t;
      ReadConcat(if s[0] == '\n' then "" else cur + [s[0]], s[1..], t);
    }
  }

  lemma {:induction false} ReadOneLine(cur: string, line: string)
    requires '\n' !in line
    ensures Complete(cur, line + "\n") == [StripCr(cur + line)]
    ensures Pending(cur, line + "\n") == ""
    decreases |line|
  {
    if line == "" {
      assert line + "\n" == "\n" && cur + line == cur;
      assert Complete(cur, "\n") == [StripCr(cur)] + Complete("", "\n"[1..]);
    } else {
      assert (line + "\n")[1..] == line[1..] + "\n";
      assert cur + [line[0]] + line[1..] == cur + line;
      ReadOneLine(cur + [line[0]], line[1..]);
    }
  }

  /**
   * What appending one line does to what is read back: a new line when the
   * file ends in a newline, and otherwise a longer last line.
   */
  lemma AppendedLine(text: string, line: string)
    requires '\n' !in line && '\r' !in line && line != ""
    ensures Terminated(text + line + "\n")
    ensures Terminated(text) ==> Lines(text + line + "\n") == Lines(text) + [line]
    ensures !Terminated(text) ==>
              && Lines(text) != []
              && var n := |Lines(text)| - 1;
                 Lines(text + line + "\n") == Lines(text)[..n] + [Lines(text)[n] + line]
  {
    assert text + line + "\n" == text + (line + "\n");
    ReadConcat("", text, line + "\n");
    ReadOneLine(Pending("", text), line);
    var p := Pending("", text);
    assert (p + line)[|p + line| - 1] == line[|line| - 1];
    assert StripCr(p + line) == p + line;
    if p == "" {
      assert p + line == line;
    }
  }

  /** `lines` written out, the k-th ended by a carriage return too where `crs[k]` says so. */
  function Written(lines: seq<string>, crs: seq<bool>): string
    requires |crs| == |lines|
  {
    if lines == [] then ""
    else
      var n := |lines| - 1;
      Written(lines[..n], crs[..n]) + (lines[n] + (if crs[n] then "\r\n" else "\n"))
  }

  /** Holds no line break and ends in no carriage return. */
  predicate OneLine(line: string) {
    '\n' !in line && (line != "" ==> line[|line| - 1] != '\r')
  }

  /**
   * Reading inverts writing: lines ended by "\n" or "\r\n", in any mixture,
   * are read back as they were, and so is a last line without an end.
   */
  lemma LinesOfWritten(lines: seq<string>, crs: seq<bool>, tail: string)
    requires |crs| == |lines| && forall k :: 0 <= k < |lines| ==> OneLine(lines[k])
    requires '\n' !in tail
    ensures Lines(Written(lines, crs) + tail) == lines + if tail == "" then [] else [tail]
  {
    WrittenIsRead(lines, crs);
    ReadConcat("", Written(lines, crs), tail);
    ReadNoLine("", tail);
    assert "" + tail == tail;
  }

  lemma {:induction false} WrittenIsRead(lines: seq<string>, crs: seq<bool>)
    requires |crs| == |lines| && forall k :: 0 <= k < |lines| ==> OneLine(lines[k])
    ensures Complete("", Written(lines, crs)) == lines && Pending("", Written(lines, crs)) == ""
    decreases |lines|
  {
    if lines != [] {
      var n := |lines| - 1;
      WrittenIsRead(lines[..n], crs[..n]);
      var before := Written(lines[..n], crs[..n]);
      var end := if crs[n] then "\r\n" else "\n";
      hide Complete, Pending, OneLine;
      ReadConcat("", before, lines[n] + end);
      ReadEnded(lines[n], crs[n]);
      assert lines == lines[..n] + [lines[n]];
    }
  }

  lemma ReadEnded(line: string, cr: bool)
    requires OneLine(line)
    ensures var text := line + (if cr then "\r\n" else "\n");
      Complete("", text) == [line] && Pending("", text) == ""
  {
    hide Complete, Pending;
    var whole := if cr then line + "\r" else line;
    assert whole + "\n" == line + (if cr then "\r\n" else "\n");
    ReadOneLine("", whole);
    assert "" + whole == whole && StripCr(whole) == line;
  }

  lemma {:induction false} ReadNoLine(cur: string, tail: string)
    requires '\n' !in tail
    ensures Complete(cur, tail) == [] && Pending(cur, tail) == cur + tail
    decreases |tail|
  {
    if tail != "" {
      assert cur + [tail[0]] + tail[1..] == cur + tail;
      ReadNoLine(cur + [tail[0]], tail[1..]);
    }
  }

  // ----- Events on lines -------------------------------------------------

  function EventsOn(c: Codec, line: string): seq<Event> {
    if Blank(line) then []
    else match c.parse(line)
      case Some(e) => [e]
      case None => []
  }

  /** The well-formed events of the file, in order; other lines are skipped. */
  function Events(c: Codec, lines: seq<string>): seq<Event> {
    if lines == [] then []
    else Events(c, lines[..|lines| - 1]) + EventsOn(c, lines[|lines| - 1])
  }

  predicate Readable(c: Codec, line: string) {
    Blank(line) || c.parse(line).Some?
  }

  /** Every non-blank line parses and the events form an intact chain. */
  predicate CleanLines(c: Codec, lines: seq<string>) {
    && (forall i :: 0 <= i < |lines| ==> Readable(c, lines[i]))
    && ChainOk(c, Events(c, lines))
  }

  function EventsIn(c: Codec, text: string): seq<Event> {
    Events(c, Lines(text))
  }

  predicate Clean(c: Codec, text: string) {
    CleanLines(c, Lines(text))
  }

  lemma EventsSnoc(c: Codec, lines: seq<string>, line: string)
    ensures Events(c, lines + [line]) == Events(c, lines) + EventsOn(c, line)
  {
    assert (lines + [line])[..|lines|] == lines;
  }

  lemma EventsSnocText(c: Codec, text: string, e: Event)
    requires GoodCodec(c) && Terminated(text)
    ensures var text' := text + c.render(e) + "\n";
      && Terminated(text')
      && EventsIn(c, text') == EventsIn(c, text) + [e]
      && (Clean(c, text') <==> Clean(c, text) && Follows(c, EventsIn(c, text), e))
  {
    var line := c.render(e);
    assert c.parse(line) == Some(e) && !Blank(line);
    assert line != "";
    AppendedLine(text, line);
    var lines := Lines(text);
    EventsSnoc(c, lines, line);
    ChainSnoc(c, Events(c, lines), e);
    var lines' := lines + [line];
    assert lines'[|lines|] == line;
    assert forall i :: 0 <= i < |lines| ==> lines'[i] == lines[i];
  }
}
