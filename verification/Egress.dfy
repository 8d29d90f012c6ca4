/** The inference egress gate of `src/egress.rs` and the host parser behind it. */
module Egress {
  import opened Common

  // ----- Splitting -------------------------------------------------------

  /** What follows the first "://". */
  function AfterScheme(s: string): Option<string> {
    if |s| < 3 then None
    else if s[..3] == "://" then Some(s[3..])
    else AfterScheme(s[1..])
  }

  /** The text before the first of `stops`. */
  function Until(s: string, stops: set<char>): string {
    if s == "" || s[0] in stops then "" else [s[0]] + Until(s[1..], stops)
  }

  /** What follows the last '@', or the whole text. */
  function AfterLastAt(s: string): string {
    if s == "" then ""
    else if '@' in s[1..] then AfterLastAt(s[1..])
    else if s[0] == '@' then s[1..]
    else s
  }

  /** The text through the first ']'. */
  function ThroughBracket(s: string): string
    requires ']' in s
  {
    if s[0] == ']' then "]" else [s[0]] + ThroughBracket(s[1..])
  }

  /** A bracketed host through its ']', any other up to its ':'. */
  function CutHost(hostPort: string): string {
    if ']' in hostPort then ThroughBracket(hostPort) else Until(hostPort, {':'})
  }

  const AUTHORITY_END: set<char> := {'/', '?', '#'}

  function HostOf(baseUrl: string): Option<string> {
    var rest := match AfterScheme(baseUrl) case Some(r) => r case None => baseUrl;
    var authority := Until(rest, AUTHORITY_END);
    if authority == "" then None
    else
      var hostPort := AfterLastAt(authority);
      var host := CutHost(hostPort);
      if host == "" then None else Some(host)
  }

  // ----- The printer it inverts ------------------------------------------

  datatype Host = Plain(name: string) | Bracketed(address: string)

  datatype Url = Url(scheme: Option<string>, userinfo: Option<string>, host: Host, port: Option<string>, tail: string)

  predicate Free(s: string, chars: set<char>) {
    forall i :: 0 <= i < |s| ==> s[i] !in chars
  }

  function HostText(h: Host): string {
    match h case Plain(name) => name case Bracketed(a) => "[" + a + "]"
  }

  function PortText(u: Url): string {
    match u.port case Some(p) => ":" + p case None => ""
  }

  function HostPort(u: Url): string {
    HostText(u.host) + PortText(u)
  }

  function Authority(u: Url): string {
    (match u.userinfo case Some(i) => i + "@" case None => "") + HostPort(u)
  }

  function PrintUrl(u: Url): string {
    (match u.scheme case Some(s) => s + "://" case None => "") + (Authority(u) + u.tail)
  }

  /** Section 3.2 of RFC 3986: which characters may stand in which part. */
  predicate WellFormedUrl(u: Url) {
    && (u.scheme.Some? ==> Free(u.scheme.value, {':'}))
    && (u.userinfo.Some? ==> Free(u.userinfo.value, AUTHORITY_END))
    && (u.host.Plain? ==> u.host.name != "" && Free(u.host.name, AUTHORITY_END + {'@', ':', ']'}))
    && (u.host.Bracketed? ==> Free(u.host.address, AUTHORITY_END + {'@', ']'}))
    && (u.port.Some? ==> Free(u.port.value, AUTHORITY_END + {'@', ']'}))
    && (u.tail == "" || u.tail[0] in AUTHORITY_END)
  }

  lemma {:induction false} SchemeSplits(scheme: string, rest: string)
    requires Free(scheme, {':'})
    ensures AfterScheme(scheme + "://" + rest) == Some(rest)
    decreases |scheme|
  {
    var s := scheme + "://" + rest;
    if scheme == "" {
      assert s[..3] == "://" && s[3..] == rest;
    } else {
      assert s[..3][0] == scheme[0];
      assert s[1..] == scheme[1..] + "://" + rest;
      SchemeSplits(scheme[1..], rest);
    }
  }

  lemma {:induction false} UntilStops(s: string, t: string, stops: set<char>)
    requires Free(s, stops) && (t == "" || t[0] in stops)
    ensures Until(s + t, stops) == s
    decreases |s|
  {
    if s == "" {
      assert s + t == t;
    } else {
      assert (s + t)[1..] == s[1..] + t;
      UntilStops(s[1..], t, stops);
    }
  }

  lemma {:induction false} LastAtSplits(userinfo: string, rest: string)
    requires Free(rest, {'@'})
    ensures AfterLastAt(userinfo + "@" + rest) == rest
    decreases |userinfo|
  {
    var s := userinfo + "@" + rest;
    if userinfo == "" {
      assert s[1..] == rest;
      assert '@' !in rest;
    } else {
      assert s[1..] == userinfo[1..] + "@" + rest;
      assert s[1..][|userinfo| - 1] == '@';
      LastAtSplits(userinfo[1..], rest);
    }
  }

  lemma {:induction false} NoAtIsWhole(s: string)
    requires Free(s, {'@'})
    ensures AfterLastAt(s) == s
    decreases |s|
  {
    assert '@' !in s;
    if s != "" {
      assert forall ch :: ch in s[1..] ==> ch in s;
    }
  }

  lemma {:induction false} BracketCloses(s: string, t: string)
    requires Free(s, {']'})
    ensures ']' in s + "]" + t && ThroughBracket(s + "]" + t) == s + "]"
    decreases |s|
  {
    var all := s + "]" + t;
    assert all[|s|] == ']';
    if s != "" {
      assert all[1..] == s[1..] + "]" + t;
      BracketCloses(s[1..], t);
    }
  }

  lemma HostFromHostPort(u: Url)
    requires WellFormedUrl(u)
    ensures CutHost(HostPort(u)) == HostText(u.host) != "" && HostPort(u) != ""
    ensures Free(HostPort(u), AUTHORITY_END + {'@'})
  {
    PortIsFree(u);
    match u.host
    case Bracketed(a) => BracketedHost(a, PortText(u));
    case Plain(name) => PlainHost(name, PortText(u));
  }

  lemma PortIsFree(u: Url)
    requires WellFormedUrl(u)
    ensures Free(PortText(u), AUTHORITY_END + {'@', ']'})
    ensures PortText(u) == "" || PortText(u)[0] == ':'
  {}

  lemma BracketedHost(a: string, port: string)
    requires Free(a, AUTHORITY_END + {'@', ']'}) && Free(port, AUTHORITY_END + {'@', ']'})
    ensures CutHost("[" + a + "]" + port) == "[" + a + "]"
    ensures Free("[" + a + "]" + port, AUTHORITY_END + {'@'})
  {
    hide ThroughBracket, Until;
    var open := "[" + a;
    assert forall i :: 1 <= i < |open| ==> open[i] == a[i - 1];
    assert Free(open, {']'});
    BracketCloses(open, port);
  }

  lemma PlainHost(name: string, port: string)
    requires Free(name, AUTHORITY_END + {'@', ':', ']'})
    requires Free(port, AUTHORITY_END + {'@', ']'}) && (port == "" || port[0] == ':')
    ensures CutHost(name + port) == name
    ensures Free(name + port, AUTHORITY_END + {'@'})
  {
    hide ThroughBracket, Until;
    assert ']' !in name + port;
    UntilStops(name, port, {':'});
  }

  /** A text that has a "://" is read from the first one on, whatever stands before it. */
  lemma FirstSeparatorWins(text: string)
    requires AfterScheme(text).Some?
    ensures HostOf(text) == HostOf("https://" + AfterScheme(text).value)
  {
    var rest := AfterScheme(text).value;
    SchemeSplits("https", rest);
    assert "https" + "://" + rest == "https://" + rest;
  }

  /**
   * The host parser inverts the printer: for every scheme, optional userinfo
   * (colons and at-signs allowed), plain or bracketed host, optional port and
   * any tail, it returns exactly the host. Without a scheme it does so iff no
   * "://" stands later, or what follows the first one happens to have the
   * same host.
   */
  lemma HostOfInvertsPrint(u: Url)
    requires WellFormedUrl(u)
    ensures u.scheme.Some? ==> HostOf(PrintUrl(u)) == Some(HostText(u.host))
    ensures u.scheme.None? ==>
              (HostOf(PrintUrl(u)) == Some(HostText(u.host)) <==>
                 || AfterScheme(PrintUrl(u)).None?
                 || HostOf("https://" + AfterScheme(PrintUrl(u)).value) == Some(HostText(u.host)))
  {
    if u.scheme.Some? || AfterScheme(PrintUrl(u)).None? {
      HostOfRead(u);
    } else {
      FirstSeparatorWins(PrintUrl(u));
    }
  }

  lemma HostOfRead(u: Url)
    requires WellFormedUrl(u)
    requires u.scheme.None? ==> AfterScheme(PrintUrl(u)).None?
    ensures HostOf(PrintUrl(u)) == Some(HostText(u.host))
  {
    hide CutHost, Until, AfterLastAt, AfterScheme, HostPort, HostText;
    var rest := Authority(u) + u.tail;
    if u.scheme.Some? {
      SchemeSplits(u.scheme.value, rest);
      assert PrintUrl(u) == u.scheme.value + "://" + rest;
    } else {
      assert PrintUrl(u) == rest;
    }
    HostFromHostPort(u);
    var hp := HostPort(u);
    assert Free(Authority(u), AUTHORITY_END) by {
      if u.userinfo.Some? {
        assert Authority(u) == u.userinfo.value + "@" + hp;
      }
    }
    UntilStops(Authority(u), u.tail, AUTHORITY_END);
    if u.userinfo.Some? {
      LastAtSplits(u.userinfo.value, hp);
    } else {
      NoAtIsWhole(hp);
      assert Authority(u) == hp;
    }
  }

  // ----- The gate --------------------------------------------------------

  datatype EgressClass = Webhook | Federation | ForensicExport | InferenceLlm | InferenceEmbedding

  datatype Mode = Allow | LoopbackOnly | Deny

  datatype EgressDecision = Permit | Refuse(class_: EgressClass, target: string)

  function TrimLeft(s: string, ch: char): string {
    if s != "" && s[0] == ch then TrimLeft(s[1..], ch) else s
  }

  function TrimRight(s: string, ch: char): string {
    if s != "" && s[|s| - 1] == ch then TrimRight(s[..|s| - 1], ch) else s
  }

  /** `loopbackIp`: the text parses as a loopback or unspecified IP address. */
  predicate HostIsLoopback(loopbackIp: string -> bool, host: string) {
    var h := Lower(host);
    h == "localhost" || h == "localhost.localdomain" || loopbackIp(TrimRight(TrimLeft(h, '['), ']'))
  }

  predicate TargetIsLoopback(loopbackIp: string -> bool, baseUrl: string) {
    match HostOf(baseUrl)
    case None => false
    case Some(h) => HostIsLoopback(loopbackIp, h)
  }

  function EvaluateInferenceEgress(
    loopbackIp: string -> bool, mode: Mode, class_: EgressClass, baseUrl: string): EgressDecision
  {
    match mode
    case Allow => Permit
    case Deny => Refuse(class_, baseUrl)
    case LoopbackOnly => if TargetIsLoopback(loopbackIp, baseUrl) then Permit else Refuse(class_, baseUrl)
  }

  /** Does the loopback-only gate permit exactly the texts whose host is loopback? */
  predicate JudgesHost(loopbackIp: string -> bool, c: EgressClass, u: Url) {
    EvaluateInferenceEgress(loopbackIp, LoopbackOnly, c, PrintUrl(u)).Permit? <==>
      HostIsLoopback(loopbackIp, HostText(u.host))
  }

  /**
   * The loopback-only verdict on a printed URL with a scheme is a function of
   * the host alone: userinfo, port and tail cannot sway it. On one without a
   * scheme it is so iff no "://" stands later, or the text after the first
   * one is judged as the host would be.
   */
  lemma VerdictDependsOnHost(loopbackIp: string -> bool, c: EgressClass, u: Url)
    requires WellFormedUrl(u)
    ensures u.scheme.Some? ==> JudgesHost(loopbackIp, c, u)
    ensures u.scheme.None? ==>
              (JudgesHost(loopbackIp, c, u) <==>
                 || AfterScheme(PrintUrl(u)).None?
                 || TargetIsLoopback(loopbackIp, "https://" + AfterScheme(PrintUrl(u)).value)
                    == HostIsLoopback(loopbackIp, HostText(u.host)))
  {
    hide HostIsLoopback, HostOf, AfterScheme;
    if u.scheme.Some? || AfterScheme(PrintUrl(u)).None? {
      HostOfRead(u);
    } else {
      FirstSeparatorWins(PrintUrl(u));
    }
  }

  /** Without a scheme, no "://" stands later. */
  predicate ReadFromStart(u: Url) {
    u.scheme.Some? || AfterScheme(PrintUrl(u)).None?
  }

  /**
   * Letter case of the host does not matter, nor anything else of the URL,
   * wherever the host is what is read.
   */
  lemma VerdictIgnoresCase(loopbackIp: string -> bool, c: EgressClass, u: Url, v: Url)
    requires WellFormedUrl(u) && WellFormedUrl(v)
    requires SameUpToCase(HostText(u.host), HostText(v.host))
    ensures ReadFromStart(u) && ReadFromStart(v) ==>
              (EvaluateInferenceEgress(loopbackIp, LoopbackOnly, c, PrintUrl(u)).Permit? <==>
               EvaluateInferenceEgress(loopbackIp, LoopbackOnly, c, PrintUrl(v)).Permit?)
  {
    LowerForgetsCase(HostText(u.host), HostText(v.host));
    VerdictDependsOnHost(loopbackIp, c, u);
    VerdictDependsOnHost(loopbackIp, c, v);
    hide AfterScheme, HostOf;
  }

  /**
   * Which hosts are loopback: of plain ones "localhost" and
   * "localhost.localdomain" in any case, and loopback addresses; of bracketed
   * ones those around a loopback address.
   */
  lemma LoopbackHosts(loopbackIp: string -> bool, host: Host)
    requires host.Plain? ==> Free(host.name, {'[', ']'})
    requires host.Bracketed? ==> Free(host.address, {'[', ']'})
    ensures host.Plain? ==>
              (HostIsLoopback(loopbackIp, HostText(host)) <==>
                 || SameUpToCase(host.name, "localhost")
                 || SameUpToCase(host.name, "localhost.localdomain")
                 || loopbackIp(Lower(host.name)))
    ensures host.Bracketed? ==>
              (HostIsLoopback(loopbackIp, HostText(host)) <==> loopbackIp(Lower(host.address)))
  {
    match host
    case Plain(name) => PlainLoopback(loopbackIp, name);
    case Bracketed(a) => BracketedLoopback(loopbackIp, a);
  }

  lemma PlainLoopback(loopbackIp: string -> bool, name: string)
    requires Free(name, {'[', ']'})
    ensures HostIsLoopback(loopbackIp, name) <==>
              || SameUpToCase(name, "localhost")
              || SameUpToCase(name, "localhost.localdomain")
              || loopbackIp(Lower(name))
  {
    hide Lower, SameUpToCase, Free, TrimLeft, TrimRight;
    LowerWords();
    LowerForgetsCase(name, "localhost");
    LowerForgetsCase(name, "localhost.localdomain");
    LowerIsFree(name);
    TrimsNothing(Lower(name));
  }

  lemma BracketedLoopback(loopbackIp: string -> bool, a: string)
    requires Free(a, {'[', ']'})
    ensures HostIsLoopback(loopbackIp, "[" + a + "]") <==> loopbackIp(Lower(a))
  {
    hide Lower, Free, TrimLeft, TrimRight;
    LowerIsFree(a);
    LowerBracketed(a);
    TrimsBrackets(Lower(a));
    assert Lower("[" + a + "]")[0] == '[' != "localhost"[0];
    assert "localhost.localdomain"[0] == 'l';
  }

  lemma LowerWords()
    ensures Lower("localhost") == "localhost"
    ensures Lower("localhost.localdomain") == "localhost.localdomain"
  {
    hide Lower;
    LowerKeeps("localhost");
    LowerKeeps("localhost.localdomain");
  }

  lemma LowerIsFree(s: string)
    requires Free(s, {'[', ']'})
    ensures Free(Lower(s), {'[', ']'})
  {
    forall i | 0 <= i < |s| ensures Lower(s)[i] !in {'[', ']'} {
      LowerAt(s, i);
    }
  }

  lemma LowerBracketed(a: string)
    ensures Lower("[" + a + "]") == "[" + Lower(a) + "]"
  {
    var all := "[" + a + "]";
    forall i | 0 <= i < |all| ensures Lower(all)[i] == ("[" + Lower(a) + "]")[i] {
      LowerAt(all, i);
      if 0 < i <= |a| {
        LowerAt(a, i - 1);
      }
    }
  }

  lemma TrimsNothing(s: string)
    requires Free(s, {'[', ']'})
    ensures TrimRight(TrimLeft(s, '['), ']') == s
  {}

  lemma TrimsBrackets(s: string)
    requires Free(s, {'[', ']'})
    ensures TrimRight(TrimLeft("[" + s + "]", '['), ']') == s
  {
    var all, inner := "[" + s + "]", s + "]";
    assert all[1..] == inner && inner[0] != '[';
    assert inner[..|inner| - 1] == s;
  }

  /** An input at which the verdict is not the host's: host "e", port 1, and a "://" in the query. */
  const SCHEMELESS: Url := Url(None, None, Plain("e"), Some("1"), "/?u=a://localhost")

  /** A scheme-less text whose first "://" comes right before "localhost" is permitted, whatever its host. */
  lemma ReadAsLocalhost(loopbackIp: string -> bool, c: EgressClass, before: string)
    requires forall i :: 0 <= i < |before| && before[i] == ':' ==> i + 1 < |before| && before[i + 1] != '/'
    ensures EvaluateInferenceEgress(loopbackIp, LoopbackOnly, c, before + "://" + "localhost").Permit?
  {
    hide AfterScheme, HostOf, Lower, HostIsLoopback;
    SkipTo(before, "localhost");
    FirstSeparatorWins(before + "://" + "localhost");
    LocalHost(loopbackIp);
  }

  lemma LocalHost(loopbackIp: string -> bool)
    ensures TargetIsLoopback(loopbackIp, "https://" + "localhost")
  {
    hide AfterScheme, HostOf, Lower;
    var local := Url(Some("https"), None, Plain("localhost"), None, "");
    HostOfRead(local);
    LocalText(local);
    LowerWords();
  }

  lemma SchemelessIsMisread(loopbackIp: string -> bool, c: EgressClass)
    requires !loopbackIp("e")
    ensures WellFormedUrl(SCHEMELESS) && PrintUrl(SCHEMELESS) == "e:1/?u=a" + "://" + "localhost"
    ensures !HostIsLoopback(loopbackIp, HostText(SCHEMELESS.host))
    ensures EvaluateInferenceEgress(loopbackIp, LoopbackOnly, c, PrintUrl(SCHEMELESS)).Permit?
  {
    hide AfterScheme, HostOf, EvaluateInferenceEgress, TargetIsLoopback;
    SchemelessText();
    ReadAsLocalhost(loopbackIp, c, "e:1/?u=a");
    EIsRemote(loopbackIp);
  }

  lemma SchemelessText()
    ensures WellFormedUrl(SCHEMELESS) && PrintUrl(SCHEMELESS) == "e:1/?u=a" + "://" + "localhost"
  {
    assert "e:1/?u=a" + "://" + "localhost" == "e:1" + "/?u=a://localhost";
    assert "e" + (":" + "1") == "e:1";
  }

  lemma EIsRemote(loopbackIp: string -> bool)
    requires !loopbackIp("e")
    ensures !HostIsLoopback(loopbackIp, "e")
  {
    assert Lower("e") == "e";
  }

  /** With no "/" right after a ':' of `before`, and none at its end, the first "://" is the one after it. */
  lemma {:induction false} SkipTo(before: string, rest: string)
    requires forall i :: 0 <= i < |before| && before[i] == ':' ==> i + 1 < |before| && before[i + 1] != '/'
    ensures AfterScheme(before + "://" + rest) == Some(rest)
    decreases |before|
  {
    var s := before + "://" + rest;
    if before == "" {
      assert s[..3] == "://" && s[3..] == rest;
    } else {
      assert s[..3][0] == before[0] && s[..3][1] == s[1];
      assert s[1..] == before[1..] + "://" + rest;
      assert forall i :: 0 <= i < |before| - 1 ==> before[1..][i] == before[i + 1];
      SkipTo(before[1..], rest);
    }
  }

  lemma LocalText(u: Url)
    requires u == Url(Some("https"), None, Plain("localhost"), None, "")
    ensures WellFormedUrl(u) && PrintUrl(u) == "https://" + "localhost" && HostText(u.host) == "localhost"
  {
    assert ("https" + "://") + (("" + ("localhost" + "")) + "") == "https://" + "localhost";
  }

  /** Deny permits a subset of loopback-only, which permits a subset of allow. */
  lemma ModesAreOrdered(loopbackIp: string -> bool, c: EgressClass, baseUrl: string)
    ensures EvaluateInferenceEgress(loopbackIp, Allow, c, baseUrl) == Permit
    ensures EvaluateInferenceEgress(loopbackIp, Deny, c, baseUrl) == Refuse(c, baseUrl)
    ensures EvaluateInferenceEgress(loopbackIp, LoopbackOnly, c, baseUrl) in {Permit, Refuse(c, baseUrl)}
    ensures EvaluateInferenceEgress(loopbackIp, Deny, c, baseUrl).Permit? ==>
            EvaluateInferenceEgress(loopbackIp, LoopbackOnly, c, baseUrl).Permit?
    ensures EvaluateInferenceEgress(loopbackIp, LoopbackOnly, c, baseUrl).Permit? ==>
            EvaluateInferenceEgress(loopbackIp, Allow, c, baseUrl).Permit?
    ensures HostOf(baseUrl).None? ==> !EvaluateInferenceEgress(loopbackIp, LoopbackOnly, c, baseUrl).Permit?
  {}

  function Strictness(mode: Mode): nat {
    match mode case Allow => 0 case LoopbackOnly => 1 case Deny => 2
  }

  /** Tightening the mode never permits a target that was refused. */
  lemma StricterPermitsLess(loopbackIp: string -> bool, c: EgressClass, a: Mode, b: Mode, baseUrl: string)
    requires Strictness(a) <= Strictness(b)
    ensures EvaluateInferenceEgress(loopbackIp, b, c, baseUrl).Permit? ==>
            EvaluateInferenceEgress(loopbackIp, a, c, baseUrl).Permit?
  {
    ModesAreOrdered(loopbackIp, c, baseUrl);
    hide TargetIsLoopback;
  }
}
