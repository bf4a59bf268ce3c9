/** Verification of a remote file against a digest: the fast path, which runs a
    hash utility on the server, and the authoritative read-back it may replace. */
module RemoteHash {
  import opened Basics
  import opened PosixShell
  import opened Quoting
  import opened FileStores
  import opened PartialState

  predicate Space(c: char) {
    || c == ' ' || 0x09 as char <= c <= 0x0d as char || c == 0x85 as char || c == 0xa0 as char
    || c == 0x1680 as char || 0x2000 as char <= c <= 0x200a as char || c == 0x2028 as char || c == 0x2029 as char
    || c == 0x202f as char || c == 0x205f as char || c == 0x3000 as char
  }

  function SkipSpace(s: string): string {
    if s != "" && Space(s[0]) then SkipSpace(s[1..]) else s
  }

  function FieldLength(s: string): (n: nat)
    ensures n <= |s|
  {
    if s == "" || Space(s[0]) then 0 else 1 + FieldLength(s[1..])
  }

  function Lower(s: string): string {
    seq(|s|, i requires 0 <= i < |s| => if 'A' <= s[i] <= 'Z' then s[i] + 32 as char else s[i])
  }

  /** The digest in the first field of a hash utility's output; the file name
      echoed after it is not looked at. */
  function ParseDigestLine(output: string): Option<Digest> {
    var rest := SkipSpace(output);
    var candidate := Lower(rest[..FieldLength(rest)]);
    if HexDigest(candidate) then Some(candidate) else None
  }

  predicate AllSpace(s: string) {
    forall i :: 0 <= i < |s| ==> Space(s[i])
  }

  lemma {:induction false} SkipBlank(blank: string, s: string)
    requires AllSpace(blank) && (s == "" || !Space(s[0]))
    ensures SkipSpace(blank + s) == s
  {
    if blank == "" {
      assert blank + s == s;
    } else {
      assert (blank + s)[1..] == blank[1..] + s;
      SkipBlank(blank[1..], s);
    }
  }

  lemma {:induction false} FieldEnds(field: string, rest: string)
    requires forall i :: 0 <= i < |field| ==> !Space(field[i])
    requires rest == "" || Space(rest[0])
    ensures FieldLength(field + rest) == |field|
  {
    if field == "" {
      assert field + rest == rest;
    } else {
      assert (field + rest)[1..] == field[1..] + rest;
      FieldEnds(field[1..], rest);
    }
  }

  /** Sixty-four hexadecimal digits of either case. */
  predicate HexField(s: string) {
    |s| == 64 && forall i :: 0 <= i < |s| ==> Hex(s[i]) || 'A' <= s[i] <= 'F'
  }

  /** The digest a line of output gives is the lower-case form of its first
      field, whatever surrounds that field, and nothing else is ever given. */
  lemma DigestLineReads(blank: string, field: string, rest: string)
    requires AllSpace(blank) && (rest == "" || Space(rest[0]))
    requires field != "" && forall i :: 0 <= i < |field| ==> !Space(field[i])
    ensures ParseDigestLine(blank + field + rest) == if HexField(field) then Some(Lower(field)) else None
  {
    assert blank + field + rest == blank + (field + rest);
    SkipBlank(blank, field + rest);
    FieldEnds(field, rest);
    assert (field + rest)[..|field|] == field;
    LowerHex(field);
  }

  lemma LowerHex(s: string)
    ensures HexDigest(Lower(s)) <==> HexField(s)
    ensures forall i :: 0 <= i < |s| ==> Lower(s)[i] == if 'A' <= s[i] <= 'Z' then s[i] + 32 as char else s[i]
  {
    if HexDigest(Lower(s)) {
      forall i | 0 <= i < |s| ensures Hex(s[i]) || 'A' <= s[i] <= 'F' { assert Hex(Lower(s)[i]); }
    }
  }

  /** A digest on its own is a line that gives it. */
  lemma DigestParses(digest: Digest)
    ensures ParseDigestLine(digest) == Some(digest)
  {
    forall i | 0 <= i < |digest| ensures !Space(digest[i]) { assert Hex(digest[i]); }
    DigestLineReads("", digest, "");
    assert "" + digest + "" == digest;
    assert Lower(digest) == digest;
  }

  /** A remote shell, or none. An honest one only prints a well-formed digest
      line that is the digest of the file its command's last word names; `knows`
      are the commands, up to that word, that its machine can run. */
  datatype Hasher = Absent | Shell(honest: bool, knows: set<seq<string>>)

  const HASH_COMMANDS: seq<seq<string>> := [["sha256sum", "--"], ["shasum", "-a", "256", "--"]]

  /** The command's words, each followed by a space, then the quoted path. */
  function CommandLine(words: seq<string>, quoted: string): string {
    if words == [] then quoted else words[0] + (" " + CommandLine(words[1..], quoted))
  }

  predicate LiteralWord(w: string) {
    w != "" && forall i :: 0 <= i < |w| ==> Literal(w[i])
  }

  predicate LiteralWords(words: seq<string>) {
    forall i :: 0 <= i < |words| ==> LiteralWord(words[i])
  }

  lemma {:induction false} CommandLineReads(words: seq<string>, tail: string, before: seq<string>)
    requires LiteralWords(words)
    ensures Read(CommandLine(words, tail), Plain, before, None) == Read(tail, Plain, before + words, None)
  {
    if words == [] {
      assert before + words == before;
    } else {
      var rest := CommandLine(words[1..], tail);
      ReadLiteralWord(words[0], " " + rest, before);
      ReadSeparator(words[0], rest, before);
      CommandLineReads(words[1..], tail, before + [words[0]]);
      assert (before + [words[0]]) + words[1..] == before + words;
    }
  }

  /** A shell reads a hash command as its own words and then exactly the path. */
  lemma HashCommandNamesPath(words: seq<string>, path: string)
    requires LiteralWords(words)
    requires NUL !in path
    ensures Words(CommandLine(words, ShellQuote(path).value)) == Some(words + [path])
  {
    var quoted := ShellQuote(path).value;
    CommandLineReads(words, quoted, []);
    assert [] + words == words;
    ReadQuoted(path, BACKSLASH_PATCH, "", words);
    assert quoted + "" == quoted;
  }

  lemma HashCommandsAreLiteral()
    ensures HASH_COMMANDS == [["sha256sum", "--"], ["shasum", "-a", "256", "--"]]
    ensures |HASH_COMMANDS| == 2 && LiteralWords(HASH_COMMANDS[0]) && LiteralWords(HASH_COMMANDS[1])
  {
    FirstCommandIsLiteral();
    SecondCommandIsLiteral();
  }

  lemma FirstCommandIsLiteral()
    ensures LiteralWords(["sha256sum", "--"])
  {
    UtilitiesAreLiteral();
    ArgumentsAreLiteral();
    BothLiteral("sha256sum", "--");
  }

  lemma SecondCommandIsLiteral()
    ensures LiteralWords(["shasum", "-a", "256", "--"])
  {
    UtilitiesAreLiteral();
    ArgumentsAreLiteral();
    AllLiteral("shasum", "-a", "256", "--");
  }

  lemma UtilitiesAreLiteral()
    ensures LiteralWord("sha256sum") && LiteralWord("shasum")
  {
  }

  lemma ArgumentsAreLiteral()
    ensures LiteralWord("-a") && LiteralWord("256") && LiteralWord("--")
  {
  }

  lemma BothLiteral(a: string, b: string)
    requires LiteralWord(a) && LiteralWord(b)
    ensures LiteralWords([a, b])
  {
  }

  lemma AllLiteral(a: string, b: string, c: string, d: string)
    requires LiteralWord(a) && LiteralWord(b) && LiteralWord(c) && LiteralWord(d)
    ensures LiteralWords([a, b, c, d])
  {
  }

  /** The file a command line asks to hash. */
  function NamedFile(command: string): Option<Path> {
    match Words(command)
    case None => None
    case Some(words) => if words == [] then None else Some(words[|words| - 1])
  }

  predicate IsDigestOf(f: Format, d: Disk, p: Path, digest: Digest) {
    IsFile(d, p) && f.sha256(d[p].data) == digest
  }

  /** The command is known and names a file that is there. */
  predicate Runs(knows: set<seq<string>>, d: Disk, command: string) {
    match Words(command)
    case None => false
    case Some(words) => words != [] && words[..|words| - 1] in knows && IsFile(d, words[|words| - 1])
  }

  method RunCommand(s: FileStore, f: Format, honest: bool, knows: set<seq<string>>, command: string) returns (output: Option<string>)
    modifies s`disk
    ensures KeptBut(s.owns, old(s.disk), s.disk, {})
    ensures honest && output.Some? && ParseDigestLine(output.value).Some? ==>
              NamedFile(command).Some? && IsDigestOf(f, s.disk, NamedFile(command).value, ParseDigestLine(output.value).value)
    ensures s.reliable && honest && Runs(knows, s.disk, command) ==> output.Some? && ParseDigestLine(output.value).Some?
  {
    s.Interfere();
    var works := s.reliable && honest && Runs(knows, s.disk, command);
    if !works { if * { return None; } }
    var printed: string := *;
    var digest := ParseDigestLine(printed);
    var named := NamedFile(command);
    if honest && (works || digest.Some?) {
      if digest.None? || named.None? || !IsDigestOf(f, s.disk, named.value, digest.value) {
        if !works { return None; }
        printed := f.sha256(s.disk[named.value].data);
        DigestParses(f.sha256(s.disk[named.value].data));
      }
    }
    output := Some(printed);
  }

  /** The shell can be relied on to hash: it is honest and knows one of the two utilities. */
  predicate CanHash(h: Hasher) {
    h.Shell? && h.honest && (["sha256sum", "--"] in h.knows || ["shasum", "-a", "256", "--"] in h.knows)
  }

  /** Tries the commands in order and takes the first well-formed digest line. */
  method HashSHA256(s: FileStore, f: Format, hasher: Hasher, path: Path) returns (digest: Option<Digest>)
    requires s.owns(path)
    modifies s`disk
    ensures KeptBut(s.owns, old(s.disk), s.disk, {})
    ensures hasher.Absent? || NUL in path ==> digest == None
    ensures hasher.Shell? && hasher.honest && digest.Some? ==> IsDigestOf(f, s.disk, path, digest.value)
    ensures s.reliable && CanHash(hasher) && NUL !in path && IsFile(s.disk, path) ==> digest.Some?
  {
    if hasher.Absent? { return None; }
    if !s.reliable { if * { return None; } }
    var quoted := ShellQuote(path);
    if quoted.None? { return None; }
    HashCommandsAreLiteral();
    for k := 0 to |HASH_COMMANDS|
      invariant KeptBut(s.owns, old(s.disk), s.disk, {})
      invariant s.reliable && hasher.honest && IsFile(s.disk, path) ==> forall j :: 0 <= j < k ==> HASH_COMMANDS[j] !in hasher.knows
    {
      var command := CommandLine(HASH_COMMANDS[k], quoted.value);
      HashCommandNamesPath(HASH_COMMANDS[k], path);
      assert (HASH_COMMANDS[k] + [path])[..|HASH_COMMANDS[k]|] == HASH_COMMANDS[k];
      var output := RunCommand(s, f, hasher.honest, hasher.knows, command);
      if output.Some? {
        digest := ParseDigestLine(output.value);
        if digest.Some? { return; }
      }
    }
    digest := None;
  }

  /** Size and digest both agree. */
  predicate Matches(f: Format, data: Bytes, digest: Digest, bytes: nat) {
    |data| == bytes && f.sha256(data) == digest
  }

  predicate MatchesAt(f: Format, d: Disk, p: Path, digest: Digest, bytes: nat) {
    IsFile(d, p) && Matches(f, d[p].data, digest, bytes)
  }

  ghost predicate Honest(h: Hasher) {
    h.Shell? ==> h.honest
  }

  /** True only on certainty; anything else leaves the decision to the read-back. */
  method VerifyRemoteFast(s: FileStore, f: Format, hasher: Hasher, path: Path, digest: Digest, bytes: nat) returns (ok: bool)
    requires s.owns(path)
    modifies s`disk, s`readFaults
    ensures FaultsOnlyAt(old(s.readFaults), s.readFaults, {path})
    ensures KeptBut(s.owns, old(s.disk), s.disk, {})
    ensures ok && Honest(hasher) ==> MatchesAt(f, s.disk, path, digest, bytes)
    ensures s.reliable && CanHash(hasher) && NUL !in path && !s.unreadable(path) && MatchesAt(f, s.disk, path, digest, bytes) ==> ok
  {
    var remote := HashSHA256(s, f, hasher, path);
    if remote.None? || remote.value != digest { return false; }
    var info := s.Lstat(path);
    if !info.Found? { return false; }
    ok := Size(info.node) == bytes;
  }

  /** The authoritative check on its own. */
  method ReadBack(s: FileStore, f: Format, path: Path, digest: Digest, bytes: nat) returns (r: Outcome<()>)
    requires s.owns(path)
    modifies s`disk, s`readFaults
    ensures FaultsOnlyAt(old(s.readFaults), s.readFaults, {path})
    ensures KeptBut(s.owns, old(s.disk), s.disk, {})
    ensures r.Ok? ==> MatchesAt(f, s.disk, path, digest, bytes)
    ensures r.Fail? ==> r.code == VerificationFailed || (r.code == ChecksumMismatch && !MatchesAt(f, s.disk, path, digest, bytes))
    ensures s.reliable && !s.unreadable(path) && IsFile(s.disk, path) ==>
              r == if MatchesAt(f, s.disk, path, digest, bytes) then Ok(()) else Fail(ChecksumMismatch)
  {
    var remote := s.ReadAll(path);
    if remote.None? { return Fail(VerificationFailed); }
    if bytes != |remote.value| || digest != f.sha256(remote.value) { return Fail(ChecksumMismatch); }
    r := Ok(());
  }

  /** Fast path, else read-back. With an honest hasher (or none) the verdict is
      the read-back's own: acceptance means size and digest agree, a mismatch
      means they do not, and only an I/O failure leaves it open. No hasher,
      honest or not, can turn a good file into a mismatch. */
  method VerifyRemote(s: FileStore, f: Format, hasher: Hasher, path: Path, digest: Digest, bytes: nat) returns (r: Outcome<()>)
    requires s.owns(path)
    modifies s`disk, s`readFaults
    ensures FaultsOnlyAt(old(s.readFaults), s.readFaults, {path})
    ensures KeptBut(s.owns, old(s.disk), s.disk, {})
    ensures r.Ok? && Honest(hasher) ==> MatchesAt(f, s.disk, path, digest, bytes)
    ensures r.Fail? ==> r.code == VerificationFailed || (r.code == ChecksumMismatch && !MatchesAt(f, s.disk, path, digest, bytes))
    ensures s.reliable && !s.unreadable(path) && MatchesAt(f, s.disk, path, digest, bytes) ==> r.Ok?
    ensures s.reliable && !s.unreadable(path) && Honest(hasher) && IsFile(s.disk, path) ==>
              r == if MatchesAt(f, s.disk, path, digest, bytes) then Ok(()) else Fail(ChecksumMismatch)
  {
    var fast := VerifyRemoteFast(s, f, hasher, path, digest, bytes);
    if fast { return Ok(()); }
    r := ReadBack(s, f, path, digest, bytes);
  }
}
