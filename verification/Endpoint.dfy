/** Parsing [user@]host:path and printing it back in the canonical form under
    which a job is persisted and later parsed again. */
module Endpoint {
  import opened Basics
  import opened SlashPath

  datatype Destination = Destination(user: string, host: string, path: string)

  datatype Parsed = Ok(value: Destination) | Invalid

  /** net.ParseIP, known only by the characters an IP literal is written in. */
  type IPTest = string -> bool

  predicate IPCharacter(c: char) {
    '0' <= c <= '9' || 'a' <= c <= 'f' || 'A' <= c <= 'F' || c == ':' || c == '.'
  }

  ghost predicate IPLike(isIP: IPTest) {
    forall h :: isIP(h) ==> h != "" && forall c :: c in h ==> IPCharacter(c)
  }

  predicate Letter(c: char) { 'a' <= c <= 'z' || 'A' <= c <= 'Z' }

  predicate Alphanumeric(c: char) { Letter(c) || '0' <= c <= '9' }

  predicate UserName(u: string) {
    && 1 <= |u| <= 64
    && (Letter(u[0]) || u[0] == '_')
    && forall c :: c in u ==> Alphanumeric(c) || c == '_' || c == '.' || c == '-'
  }

  predicate HostName(h: string) {
    && 1 <= |h| <= 253
    && Alphanumeric(h[0]) && Alphanumeric(h[|h| - 1])
    && forall c :: c in h ==> Alphanumeric(c) || c == '.' || c == '-'
  }

  predicate Control(c: char) {
    c < 0x20 as char || 0x7f as char <= c <= 0x9f as char
  }

  predicate HasControl(s: string) {
    exists c :: c in s && Control(c)
  }

  predicate StartsWith(s: string, prefix: string) { prefix <= s }

  predicate EndsWith(s: string, suffix: string) {
    |suffix| <= |s| && s[|s| - |suffix|..] == suffix
  }

  predicate DriveLetterPath(s: string) {
    |s| >= 3 && Letter(s[0]) && s[1] == ':' && (s[2] == '\\' || s[2] == '/')
  }

  /** A slash, a drive letter, then a slash or the end. */
  predicate MingwPath(s: string) {
    |s| >= 2 && s[0] == '/' && Letter(s[1]) && (|s| == 2 || s[2] == '/')
  }

  predicate WindowsLike(s: string) {
    || DriveLetterPath(s) || StartsWith(s, "\\\\") || StartsWith(s, "//") || MingwPath(s)
    || (StartsWith(s, "/cygdrive") && MingwPath(s[9..]))
  }

  /** Index of the first `c`, or the length. */
  function Index(s: string, c: char): (i: nat)
    ensures i <= |s|
    ensures i < |s| ==> s[i] == c
    ensures forall j :: 0 <= j < i ==> s[j] != c
  {
    if s == "" || s[0] == c then 0 else 1 + Index(s[1..], c)
  }

  predicate AtBracket(s: string) {
    exists i :: 0 <= i < |s| - 1 && s[i] == '@' && s[i + 1] == '['
  }

  /** The colon that ends the endpoint, or the length if there is none. */
  function DestinationColon(value: string): nat {
    var close := Index(value, ']');
    if (StartsWith(value, "[") || AtBracket(value)) && close + 1 < |value| && value[close + 1] == ':'
    then close + 1
    else Index(value, ':')
  }

  function SplitEndpoint(endpoint: string): (string, string) {
    var at := AfterLast(endpoint, '@');
    if at > 0 then (endpoint[..at - 1], endpoint[at..]) else ("", endpoint)
  }

  /** The host without its brackets; None when what they hold is not an IP literal. */
  function Unbracketed(host: string, isIP: IPTest): Option<string> {
    if StartsWith(host, "[") && EndsWith(host, "]") && |host| >= 2 then
      var inner := host[1..|host| - 1];
      if isIP(inner) then Some(inner) else None
    else Some(host)
  }

  function Parse(value: string, isIP: IPTest): Parsed {
    if value == "" || WindowsLike(value) then Invalid
    else if HasControl(value) then Invalid
    else
      var colon := DestinationColon(value);
      if colon < 1 || colon >= |value| - 1 then Invalid
      else
        var remotePath := value[colon + 1..];
        var (user, rawHost) := SplitEndpoint(value[..colon]);
        if user != "" && !UserName(user) then Invalid
        else match Unbracketed(rawHost, isIP)
          case None => Invalid
          case Some(host) =>
            if host == "" || (!HostName(host) && !isIP(host)) then Invalid
            else if HasTraversal(remotePath) then Invalid
            else
              var cleaned := Clean(remotePath);
              if cleaned == "." then Invalid else Ok(Destination(user, host, cleaned))
  }

  function PrintedHost(host: string): string {
    if ':' in host then "[" + host + "]" else host
  }

  function Canonical(d: Destination): string {
    d.user + "@" + PrintedHost(d.host) + ":" + d.path
  }

  /** A path that shows "@[" and whose first "]" is followed by a colon, which the
      parser then takes for the end of the endpoint. */
  predicate Misleads(path: string) {
    var close := Index(path, ']');
    AtBracket(path) && close + 1 < |path| && path[close + 1] == ':'
  }

  /** A destination whose printed form is misread: its host needs no brackets,
      and its path misleads the parser. */
  predicate BracketTrap(d: Destination) {
    ':' !in d.host && Misleads(d.path)
  }

  // ---- What a successful parse guarantees ----

  predicate GoodHost(host: string, isIP: IPTest) {
    HostName(host) || isIP(host)
  }

  ghost predicate Parseable(d: Destination, isIP: IPTest) {
    && (d.user == "" || UserName(d.user))
    && GoodHost(d.host, isIP)
    && d.path != "" && d.path != "." && Clean(d.path) == d.path && !HasTraversal(d.path)
    && forall c :: c in d.path ==> !Control(c)
  }

  lemma ParseGuarantees(value: string, isIP: IPTest)
    ensures Parse(value, isIP).Ok? ==> Parseable(Parse(value, isIP).value, isIP)
  {
    if Parse(value, isIP).Ok? {
      var remotePath := value[DestinationColon(value) + 1..];
      CleanIdempotent(remotePath);
      CleanKeepsOutTraversal(remotePath);
      forall c | c in Clean(remotePath) ensures !Control(c) {
        CleanCharacters(remotePath, c);
        if c in remotePath { assert c in value; }
      }
    }
  }

  lemma HostCharacters(host: string, isIP: IPTest)
    requires IPLike(isIP) && GoodHost(host, isIP)
    ensures host != ""
    ensures forall c :: c in host ==> c != '@' && c != '[' && c != ']' && c != '/' && !Control(c)
  {
  }

  // ---- Finding characters in a concatenation ----

  lemma {:induction false} IndexConcat(a: string, b: string, c: char)
    requires c !in a
    ensures Index(a + b, c) == |a| + Index(b, c)
  {
    if a == "" {
      assert a + b == b;
    } else {
      assert (a + b)[1..] == a[1..] + b;
      IndexConcat(a[1..], b, c);
    }
  }

  lemma {:induction false} AfterLastConcat(a: string, c: char, b: string)
    requires c !in b
    ensures AfterLast(a + [c] + b, c) == |a| + 1
  {
    var s := a + [c] + b;
    if b != "" {
      assert s[|s| - 1] == b[|b| - 1];
      assert s[..|s| - 1] == a + [c] + b[..|b| - 1];
      AfterLastConcat(a, c, b[..|b| - 1]);
    }
  }

  lemma AtBracketConcat(a: string, b: string)
    requires '[' !in a && !StartsWith(b, "[")
    ensures AtBracket(a + b) <==> AtBracket(b)
  {
    var s := a + b;
    if AtBracket(b) {
      var i :| 0 <= i < |b| - 1 && b[i] == '@' && b[i + 1] == '[';
      assert s[|a| + i] == '@' && s[|a| + i + 1] == '[';
    }
    if AtBracket(s) {
      var i :| 0 <= i < |s| - 1 && s[i] == '@' && s[i + 1] == '[';
      assert forall k :: 0 <= k < |a| ==> s[k] in a;
      assert b[i - |a|] == '@' && b[i - |a| + 1] == '[';
    }
  }

  /** Everything of the canonical form but the path and the colon before it. */
  function Front(d: Destination): string {
    d.user + "@" + PrintedHost(d.host)
  }

  lemma Around(before: string, after: string)
    ensures var v := before + ":" + after; v[..|before|] == before && v[|before| + 1..] == after
  {
  }

  lemma IndexesAfterFront(f: string, path: string)
    requires ':' !in f && ']' !in f
    ensures Index(f + ":" + path, ':') == |f|
    ensures Index(f + ":" + path, ']') == |f| + 1 + Index(path, ']')
  {
    assert f + ":" + path == f + (":" + path);
    IndexConcat(f, ":" + path, ':');
    NotInAppended(f, ":", ']');
    IndexConcat(f + ":", path, ']');
  }

  lemma NotInAppended(f: string, g: string, c: char)
    requires c !in f && c !in g
    ensures c !in f + g
  {
  }

  lemma BracketsAfterFront(f: string, path: string)
    requires f != "" && '[' !in f
    ensures AtBracket(f + ":" + path) <==> AtBracket(path)
    ensures !StartsWith(f + ":" + path, "[")
  {
    assert f + ":" + path == f + (":" + path);
    assert (":" + path)[0] == ':';
    AtBracketConcat(f, ":" + path);
    PathBracket(path);
    assert f[0] in f && (f + ":" + path)[0] == f[0];
  }

  lemma ColonAfterFront(f: string, path: string)
    requires f != "" && ':' !in f && '[' !in f && ']' !in f
    ensures DestinationColon(f + ":" + path) == if Misleads(path) then |f| + 2 + Index(path, ']') else |f|
  {
    IndexesAfterFront(f, path);
    BracketsAfterFront(f, path);
    var v, close := f + ":" + path, Index(path, ']');
    assert close + 1 < |path| ==> v[|f| + 1 + close + 1] == path[close + 1];
  }

  lemma FrontCharacters(d: Destination, isIP: IPTest)
    requires IPLike(isIP) && Parseable(d, isIP) && ':' !in d.host
    ensures Front(d) != "" && ':' !in Front(d) && '[' !in Front(d) && ']' !in Front(d)
  {
    HostCharacters(d.host, isIP);
  }

  lemma PlainColon(d: Destination, isIP: IPTest)
    requires IPLike(isIP) && Parseable(d, isIP) && ':' !in d.host
    ensures DestinationColon(Canonical(d)) ==
            if BracketTrap(d) then |Front(d)| + 2 + Index(d.path, ']') else |Front(d)|
  {
    FrontCharacters(d, isIP);
    ColonAfterFront(Front(d), d.path);
    assert Canonical(d) == Front(d) + ":" + d.path;
  }

  lemma PathBracket(path: string)
    ensures AtBracket(":" + path) <==> AtBracket(path)
  {
    if StartsWith(path, "[") {
      var s := ":" + path;
      if AtBracket(s) {
        var i :| 0 <= i < |s| - 1 && s[i] == '@' && s[i + 1] == '[';
        assert path[i - 1] == '@' && path[i] == '[';
      }
      if AtBracket(path) {
        var i :| 0 <= i < |path| - 1 && path[i] == '@' && path[i + 1] == '[';
        assert s[i + 1] == '@' && s[i + 2] == '[';
      }
    } else {
      AtBracketConcat(":", path);
    }
  }

  // ---- What parses, and to what ----

  /** A destination as it is written: with a user before an '@' or without, and
      with its host in brackets or not. */
  datatype Spelling = Spelling(user: Option<string>, host: string, bracketed: bool, path: string)

  function UserPart(user: Option<string>): string {
    match user case None => "" case Some(u) => u + "@"
  }

  function HostPart(host: string, bracketed: bool): string {
    if bracketed then "[" + host + "]" else host
  }

  /** Everything before the colon and the path. */
  function EndpointPart(s: Spelling): string {
    UserPart(s.user) + HostPart(s.host, s.bracketed)
  }

  function Written(s: Spelling): string {
    EndpointPart(s) + ":" + s.path
  }

  /** The destination that is meant. */
  function Meant(s: Spelling): Destination {
    Destination(if s.user.Some? then s.user.value else "", s.host, Clean(s.path))
  }

  /** A drive letter and a rooted path, as a one-letter host without a user. */
  predicate LooksLikeDrive(s: Spelling) {
    s.user == None && !s.bracketed && |s.host| == 1 && Letter(s.host[0]) && s.path != "" && (s.path[0] == '/' || s.path[0] == '\\')
  }

  /** What may be written: an IP literal in brackets before any path, or a host
      without a colon before a path that does not mislead. */
  ghost predicate Acceptable(s: Spelling, isIP: IPTest) {
    && WellNamed(s, isIP)
    && (!s.bracketed ==> ':' !in s.host && !Misleads(s.path))
    && s.path != "" && !HasTraversal(s.path) && Clean(s.path) != "." && !HasControl(s.path)
    && !LooksLikeDrive(s)
  }

  ghost predicate WellNamed(s: Spelling, isIP: IPTest) {
    && (s.user == None || s.user.value == "" || UserName(s.user.value))
    && (if s.bracketed then isIP(s.host) else GoodHost(s.host, isIP))
  }

  /** Every acceptable spelling parses to exactly what it means. */
  lemma {:induction false} SpellingParses(s: Spelling, isIP: IPTest)
    requires IPLike(isIP) && Acceptable(s, isIP)
    ensures Parse(Written(s), isIP) == Ok(Meant(s))
  {
    NotWindows(s, isIP);
    NoControls(s, isIP);
    SpelledColon(s, isIP);
    Around(EndpointPart(s), s.path);
    SpelledHost(s, isIP);
    EndpointSplits(s.user, HostPart(s.host, s.bracketed));
    PiecesParse(Written(s), s, isIP);
  }

  lemma PiecesParse(value: string, s: Spelling, isIP: IPTest)
    requires WellNamed(s, isIP) && s.host != "" && s.path != "" && !HasTraversal(s.path) && Clean(s.path) != "."
    requires value != "" && !WindowsLike(value) && !HasControl(value)
    requires 1 <= DestinationColon(value) < |value| - 1 && value[DestinationColon(value) + 1..] == s.path
    requires SplitEndpoint(value[..DestinationColon(value)]) == (Meant(s).user, HostPart(s.host, s.bracketed))
    requires Unbracketed(HostPart(s.host, s.bracketed), isIP) == Some(s.host)
    ensures Parse(value, isIP) == Ok(Meant(s))
  {
  }

  lemma SpelledColon(s: Spelling, isIP: IPTest)
    requires IPLike(isIP) && Acceptable(s, isIP)
    ensures DestinationColon(Written(s)) == |EndpointPart(s)| >= 1
  {
    HostCharacters(s.host, isIP);
    if s.bracketed {
      OpensBracket(s.user, s.host);
      BracketedColon(UserPart(s.user) + "[" + s.host, s.path);
      assert Written(s) == (UserPart(s.user) + "[" + s.host) + "]:" + s.path;
    } else {
      ColonAfterFront(EndpointPart(s), s.path);
    }
  }

  lemma OpensBracket(user: Option<string>, host: string)
    ensures StartsWith(UserPart(user) + "[" + host, "[") || AtBracket(UserPart(user) + "[" + host)
  {
    var before := UserPart(user) + "[" + host;
    if user.Some? { assert before[|user.value|] == '@' && before[|user.value| + 1] == '['; }
  }

  lemma BracketedColon(before: string, path: string)
    requires ']' !in before && (StartsWith(before, "[") || AtBracket(before))
    ensures DestinationColon(before + "]:" + path) == |before| + 1
  {
    var v := before + "]:" + path;
    assert v == before + ("]:" + path);
    IndexConcat(before, "]:" + path, ']');
    assert v[|before| + 1] == ':';
    if AtBracket(before) {
      var i :| 0 <= i < |before| - 1 && before[i] == '@' && before[i + 1] == '[';
      assert v[i] == '@' && v[i + 1] == '[';
    }
  }

  lemma EndpointSplits(user: Option<string>, h: string)
    requires '@' !in h
    ensures SplitEndpoint(UserPart(user) + h) == (if user.Some? then user.value else "", h)
  {
    match user
    case None =>
      assert "" + h == h;
    case Some(u) =>
      AfterLastConcat(u, '@', h);
      var e := u + "@" + h;
      assert e == u + ['@'] + h && e[|u| + 1..] == h && e[..|u|] == u;
  }

  lemma SpelledHost(s: Spelling, isIP: IPTest)
    requires IPLike(isIP) && WellNamed(s, isIP)
    ensures var h := HostPart(s.host, s.bracketed);
            s.host != "" && '@' !in h && Unbracketed(h, isIP) == Some(s.host)
  {
    HostCharacters(s.host, isIP);
    var h := HostPart(s.host, s.bracketed);
    if s.bracketed {
      assert h[1..|h| - 1] == s.host;
    } else {
      assert s.host[0] in s.host;
    }
  }

  /** Nothing else parses. */
  lemma {:induction false} ParsedIsSpelled(value: string, isIP: IPTest)
    requires IPLike(isIP) && Parse(value, isIP).Ok?
    ensures exists s :: Acceptable(s, isIP) && Written(s) == value && Parse(value, isIP).value == Meant(s)
  {
    var s := ReadBack(value, isIP);
    PlainPath(s);
    if !s.bracketed { UnbracketedIsSafe(s, isIP); }
    assert Acceptable(s, isIP);
  }

  /** How a string is read: the endpoint up to the colon, a user before its last
      '@', a host with or without brackets, and the path. */
  lemma ReadBack(value: string, isIP: IPTest) returns (s: Spelling)
    requires Parse(value, isIP).Ok?
    ensures WellNamed(s, isIP) && s.host != "" && s.path != "" && !HasTraversal(s.path) && Clean(s.path) != "."
    ensures Written(s) == value && Parse(value, isIP).value == Meant(s)
    ensures DestinationColon(value) == |EndpointPart(s)| && !WindowsLike(value) && !HasControl(value)
  {
    var colon := DestinationColon(value);
    var user, raw := ReadUser(value[..colon]);
    var host, bracketed := ReadHost(raw, isIP);
    s := Spelling(user, host, bracketed, value[colon + 1..]);
    PartsParsed(value, s, isIP);
    ColonBetween(value, colon);
  }

  /** What the parser has checked of the parts it read. */
  lemma PartsParsed(value: string, s: Spelling, isIP: IPTest)
    requires Parse(value, isIP).Ok? && s.path == value[DestinationColon(value) + 1..]
    requires SplitEndpoint(value[..DestinationColon(value)]) == (Meant(s).user, HostPart(s.host, s.bracketed))
    requires Unbracketed(HostPart(s.host, s.bracketed), isIP) == if s.bracketed && !isIP(s.host) then None else Some(s.host)
    ensures WellNamed(s, isIP) && s.host != "" && s.path != "" && !HasTraversal(s.path) && Clean(s.path) != "."
    ensures !WindowsLike(value) && !HasControl(value) && Parse(value, isIP).value == Meant(s)
  {
  }

  lemma ColonBetween(value: string, colon: nat)
    requires colon == DestinationColon(value) < |value|
    ensures value == value[..colon] + ":" + value[colon + 1..]
  {
    assert value[colon] == ':';
  }

  lemma ReadUser(endpoint: string) returns (user: Option<string>, raw: string)
    ensures UserPart(user) + raw == endpoint
    ensures SplitEndpoint(endpoint) == (if user.Some? then user.value else "", raw)
  {
    var at := AfterLast(endpoint, '@');
    raw := endpoint[at..];
    if at == 0 {
      user := None;
    } else {
      user := Some(endpoint[..at - 1]);
      assert endpoint[..at] == endpoint[..at - 1] + "@";
    }
  }

  lemma ReadHost(raw: string, isIP: IPTest) returns (host: string, bracketed: bool)
    ensures HostPart(host, bracketed) == raw
    ensures Unbracketed(raw, isIP) == if bracketed && !isIP(host) then None else Some(host)
  {
    bracketed := StartsWith(raw, "[") && EndsWith(raw, "]") && |raw| >= 2;
    if bracketed {
      host := raw[1..|raw| - 1];
      assert raw == "[" + host + "]";
    } else {
      host := raw;
    }
  }

  lemma PlainPath(s: Spelling)
    requires !WindowsLike(Written(s)) && !HasControl(Written(s))
    ensures !HasControl(s.path) && !LooksLikeDrive(s)
  {
    var v := Written(s);
    assert forall c :: c in s.path ==> c in v;
  }

  /** A host without brackets has no colon, and its path does not mislead. */
  lemma UnbracketedIsSafe(s: Spelling, isIP: IPTest)
    requires IPLike(isIP) && WellNamed(s, isIP) && !s.bracketed && DestinationColon(Written(s)) == |EndpointPart(s)|
    ensures ':' !in s.host && !Misleads(s.path)
  {
    HostCharacters(s.host, isIP);
    FirstColon(EndpointPart(s), s.path);
  }

  lemma FirstColon(f: string, path: string)
    requires f != "" && '[' !in f && ']' !in f && DestinationColon(f + ":" + path) == |f|
    ensures ':' !in f && !Misleads(path)
  {
    var v := f + ":" + path;
    assert v[|f| - 1] == f[|f| - 1] && f[|f| - 1] in f;
    assert Index(v, ':') == |f|;
    assert forall k :: 0 <= k < |f| ==> v[k] == f[k];
    ColonAfterFront(f, path);
  }

  lemma NotWindows(s: Spelling, isIP: IPTest)
    requires IPLike(isIP) && Acceptable(s, isIP)
    ensures Written(s) != "" && !WindowsLike(Written(s))
  {
    HostCharacters(s.host, isIP);
    var v := Written(s);
    assert forall c :: c in s.host ==> c != '\\';
    match s.user
    case None =>
      assert s.host[0] in s.host && (|s.host| > 1 ==> s.host[1] in s.host);
      if !s.bracketed {
        assert v[0] == s.host[0] && v[1] == if |s.host| == 1 then ':' else s.host[1];
        assert |s.host| == 1 ==> v[2] == s.path[0];
      }
    case Some(u) =>
      assert v[0] == if u == "" then '@' else u[0];
      assert u != "" ==> v[1] == if |u| == 1 then '@' else u[1];
      assert |u| > 1 ==> u[1] in u;
  }

  lemma NoControls(s: Spelling, isIP: IPTest)
    requires IPLike(isIP) && Acceptable(s, isIP)
    ensures !HasControl(Written(s))
  {
    HostCharacters(s.host, isIP);
    forall c | c in Written(s) ensures !Control(c) {
      if s.user.Some? && c in s.user.value {
      } else if c in s.host {
      } else if c in s.path {
      } else {
        assert c in "@[]:";
      }
    }
  }

  // ---- The canonical form ----

  /** What the trap makes of the endpoint: either a user name with an '@' in it
      or a host with both a ':' and a ']'. */
  lemma TrappedEndpoint(d: Destination, tail: string)
    requires d.host != "" && d.host[0] != '[' && ':' !in d.host && '@' !in d.host
    requires '@' !in d.user
    ensures var (user, host) := SplitEndpoint(Front(d) + ":" + tail + "]");
            || '@' in user
            || (host != "" && host[0] == d.host[0] && ':' in host && ']' in host)
  {
    var after := d.host + ":" + tail + "]";
    assert Front(d) + ":" + tail + "]" == d.user + ['@'] + after;
    if '@' in after {
      LaterAt(d.user, after);
    } else {
      AfterLastConcat(d.user, '@', after);
      assert (d.user + ['@'] + after)[|d.user| + 1..] == after && after[|d.host|] == ':' && after[|after| - 1] == ']';
    }
  }

  lemma LaterAt(before: string, after: string)
    requires '@' in after
    ensures '@' in SplitEndpoint(before + ['@'] + after).0
  {
    var e, n := before + ['@'] + after, |before|;
    var at := AfterLast(e, '@');
    var k :| 0 <= k < |after| && after[k] == '@';
    assert e[n + 1 + k] == '@' && at >= n + 2 + k;
    assert e[..at - 1][n] == '@';
  }

  /** What the parser takes for the endpoint of a trapped canonical form. */
  lemma TrappedPrefix(d: Destination, isIP: IPTest)
    requires IPLike(isIP) && Parseable(d, isIP) && BracketTrap(d)
    ensures DestinationColon(Canonical(d)) <= |Canonical(d)|
    ensures Canonical(d)[..DestinationColon(Canonical(d))] == Front(d) + ":" + d.path[..Index(d.path, ']')] + "]"
  {
    PlainColon(d, isIP);
    assert Canonical(d) == Front(d) + ":" + d.path;
    CutAfter(Front(d), d.path, Index(d.path, ']'));
  }

  lemma TrappedCut(d: Destination, isIP: IPTest)
    requires IPLike(isIP) && Parseable(d, isIP) && BracketTrap(d)
    ensures DestinationColon(Canonical(d)) <= |Canonical(d)|
    ensures d.host != "" && d.host[0] != '['
    ensures var (user, host) := SplitEndpoint(Canonical(d)[..DestinationColon(Canonical(d))]);
            '@' in user || (host != "" && host[0] == d.host[0] && ':' in host && ']' in host)
  {
    TrappedPrefix(d, isIP);
    HostCharacters(d.host, isIP);
    assert d.host[0] in d.host;
    TrappedEndpoint(d, d.path[..Index(d.path, ']')]);
  }

  /** A trapped canonical form does not parse at all. */
  lemma TrappedFails(d: Destination, isIP: IPTest)
    requires IPLike(isIP) && Parseable(d, isIP) && BracketTrap(d)
    ensures Parse(Canonical(d), isIP).Invalid?
  {
    TrappedCut(d, isIP);
    BadEndpointFails(Canonical(d), isIP, d.host[0]);
  }

  lemma CutAfter(f: string, path: string, close: nat)
    requires close < |path| && path[close] == ']'
    ensures (f + ":" + path)[..|f| + 2 + close] == f + ":" + path[..close] + "]"
  {
    assert path == path[..close] + "]" + path[close + 1..];
    assert f + ":" + path == (f + ":" + path[..close] + "]") + path[close + 1..];
  }

  lemma BadEndpointFails(v: string, isIP: IPTest, first: char)
    requires IPLike(isIP) && first != '[' && DestinationColon(v) <= |v|
    requires var (user, host) := SplitEndpoint(v[..DestinationColon(v)]);
             '@' in user || (host != "" && host[0] == first && ':' in host && ']' in host)
    ensures Parse(v, isIP).Invalid?
  {
    var (user, host) := SplitEndpoint(v[..DestinationColon(v)]);
    if '@' !in user {
      assert !StartsWith(host, "[");
      assert !HostName(host) && !isIP(host);
    }
  }

  lemma SafeParses(d: Destination, isIP: IPTest)
    requires IPLike(isIP) && Parseable(d, isIP) && !BracketTrap(d)
    ensures Parse(Canonical(d), isIP) == Ok(d)
  {
    var s := Spelling(Some(d.user), d.host, ':' in d.host, d.path);
    HostCharacters(d.host, isIP);
    assert ':' in d.host ==> !HostName(d.host);
    assert Written(s) == Canonical(d);
    SpellingParses(s, isIP);
  }

  /** Printing a parsed destination and parsing it again gives the same
      destination, unless the printed form is trapped; then it is rejected. */
  lemma {:induction false} EndpointRoundTrip(value: string, isIP: IPTest)
    requires IPLike(isIP) && Parse(value, isIP).Ok?
    ensures var d := Parse(value, isIP).value;
            && (Parse(Canonical(d), isIP) == Ok(d) <==> !BracketTrap(d))
            && (BracketTrap(d) ==> Parse(Canonical(d), isIP).Invalid?)
  {
    var d := Parse(value, isIP).value;
    ParseGuarantees(value, isIP);
    if BracketTrap(d) { TrappedFails(d, isIP); } else { SafeParses(d, isIP); }
  }

  function BracketedForm(d: Destination): string {
    d.user + "@" + ("[" + d.host + "]") + ":" + d.path
  }

  /** A destination written with its IP literal in brackets parses, whatever its path. */
  lemma BracketedFormParses(d: Destination, isIP: IPTest)
    requires IPLike(isIP) && Parseable(d, isIP) && isIP(d.host)
    ensures Parse(BracketedForm(d), isIP) == Ok(d)
  {
    var s := Spelling(Some(d.user), d.host, true, d.path);
    assert Written(s) == BracketedForm(d);
    SpellingParses(s, isIP);
  }

  /** The trap catches real input: every trapped destination whose host is an
      IP literal without a colon parses when its host is written in brackets,
      and is lost once it is persisted in canonical form. */
  lemma {:induction false} BracketedIPv4IsLost(d: Destination, isIP: IPTest)
    requires IPLike(isIP) && Parseable(d, isIP) && isIP(d.host) && BracketTrap(d)
    ensures Parse(BracketedForm(d), isIP) == Ok(d) && Parse(Canonical(d), isIP).Invalid?
  {
    BracketedFormParses(d, isIP);
    TrappedFails(d, isIP);
  }

  /** One such destination, u@[1.2.3.4]:/x@[y]:z. */
  lemma TrapExample(isIP: IPTest)
    requires isIP("1.2.3.4")
    ensures Parseable(Destination("u", "1.2.3.4", "/" + "x@[y]:z"), isIP)
    ensures BracketTrap(Destination("u", "1.2.3.4", "/" + "x@[y]:z"))
  {
    PartParseable("u", "1.2.3.4", "x@[y]:z", isIP);
    TrapInPart("x@[y]:z");
  }

  lemma PartParseable(user: string, host: string, part: string, isIP: IPTest)
    requires UserName(user) && isIP(host)
    requires part != "" && part != "." && part != ".."
    requires forall i :: 0 <= i < |part| ==> part[i] != '/' && part[i] != '\\' && !Control(part[i])
    ensures Parseable(Destination(user, host, "/" + part), isIP)
  {
    CleanOne(part);
  }

  lemma CleanOne(part: string)
    requires part != "" && part != "." && part != ".." && forall i :: 0 <= i < |part| ==> part[i] != '/' && part[i] != '\\'
    ensures Clean("/" + part) == "/" + part && !HasTraversal("/" + part)
  {
    SplitPlain(part, IS_SLASH);
    SplitPlain(part, IS_EITHER_SLASH);
    SplitConcat("", '/', part, IS_SLASH);
    SplitConcat("", '/', part, IS_EITHER_SLASH);
    assert "" + ['/'] + part == "/" + part;
    assert ["", part][1..] == [part];
    assert Reduce(true, [part], []) == [part];
  }

  lemma TrapInPart(part: string)
    requires |part| == 7 && part[1] == '@' && part[2] == '[' && part[4] == ']' && part[5] == ':'
    requires part[0] != ']' && part[3] != ']'
    ensures AtBracket("/" + part) && Index("/" + part, ']') == 5 && ("/" + part)[6] == ':'
  {
    var path := "/" + part;
    assert path[2] == '@' && path[3] == '[' && path[5] == ']' && path[1] == part[0] && path[4] == part[3];
  }
}
