/** Argument construction for the optional rsync backend. */
module RsyncArgs {
  import opened Basics
  import PosixShell
  import opened Quoting

  datatype Dialect = Unix | Cygwin | Mingw | Windows | Unknown

  /** What inspecting the source path reports; None stands for its error. */
  datatype PathKind = CygwinPath | MingwPath | OtherPath

  datatype Options = Options(
    recursive: bool, resume: bool, overwrite: bool, dryRun: bool, preserveTime: bool,
    port: int, identity: string, knownHosts: string)

  datatype Outcome = Arguments(args: seq<string>) | InvalidLocalPath | DialectMismatch

  const ALWAYS: seq<string> := ["--protect-args", "--partial", "--human-readable"]

  function Flags(o: Options): seq<string> {
    ALWAYS
    + (if o.recursive then ["--recursive"] else [])
    + (if o.resume then ["--append-verify"] else [])
    + (if !o.overwrite then ["--ignore-existing"] else [])
    + (if o.dryRun then ["--dry-run"] else [])
    + (if o.preserveTime then ["--times"] else [])
  }

  lemma FlagIn(o: Options, a: string)
    ensures a in Flags(o) <==>
            || a == "--protect-args" || a == "--partial" || a == "--human-readable"
            || (a == "--recursive" && o.recursive)
            || (a == "--append-verify" && o.resume)
            || (a == "--ignore-existing" && !o.overwrite)
            || (a == "--dry-run" && o.dryRun)
            || (a == "--times" && o.preserveTime)
  {
  }

  lemma FlagsAreNoSeparators(o: Options)
    ensures "-e" !in Flags(o) && "--" !in Flags(o)
  {
    FlagIn(o, "-e");
    FlagIn(o, "--");
    assert |"-e"| == 2 && |"--"| == 2 && forall a :: a in ALWAYS ==> |a| > 2;
  }

  /** The flags are these three and those of the options that apply, and none
      can be taken for the transport or for the end of the flags. */
  lemma FlagsSayOptions(o: Options)
    ensures forall a :: a in Flags(o) <==>
              || a in ["--protect-args", "--partial", "--human-readable"]
              || (a == "--recursive" && o.recursive)
              || (a == "--append-verify" && o.resume)
              || (a == "--ignore-existing" && !o.overwrite)
              || (a == "--dry-run" && o.dryRun)
              || (a == "--times" && o.preserveTime)
    ensures "-e" !in Flags(o) && "--" !in Flags(o)
  {
    forall a { FlagIn(o, a); }
    FlagsAreNoSeparators(o);
  }

  /** The ssh invocation rsync is meant to run. */
  function SshArguments(o: Options): seq<string> {
    ["ssh", "-o", "StrictHostKeyChecking=yes", "-o", "BatchMode=yes"]
    + (if o.port > 0 then ["-p", Decimal(o.port)] else [])
    + (if o.identity != "" then ["-i", o.identity] else [])
    + (if o.knownHosts != "" then ["-o", "UserKnownHostsFile=" + o.knownHosts] else [])
  }

  predicate Digits(s: string) {
    forall i :: 0 <= i < |s| ==> '0' <= s[i] <= '9'
  }

  function Number(digits: string): nat
    requires Digits(digits)
  {
    if digits == "" then 0 else 10 * Number(digits[..|digits| - 1]) + (digits[|digits| - 1] - '0') as nat
  }

  /** A port is written in decimal digits, without a leading zero. */
  lemma {:induction false} DecimalReads(n: nat)
    ensures Decimal(n) != "" && Digits(Decimal(n)) && Number(Decimal(n)) == n
    ensures n > 0 ==> Decimal(n)[0] != '0'
  {
    if n >= 10 {
      DecimalReads(n / 10);
      LastDigit(n % 10);
      assert Decimal(n)[..|Decimal(n)| - 1] == Decimal(n / 10);
      assert Decimal(n)[|Decimal(n)| - 1] == Decimal(n % 10)[0];
    } else {
      LastDigit(n);
    }
  }

  lemma LastDigit(n: nat)
    requires n < 10
    ensures |Decimal(n)| == 1 && '0' <= Decimal(n)[0] <= '9' && (Decimal(n)[0] - '0') as nat == n
    ensures Digits(Decimal(n)) && Number(Decimal(n)) == n
  {
    assert Decimal(n)[..0] == "";
  }

  /** What ssh makes of its arguments; None stands for one it does not know here. */
  datatype SshSettings = SshSettings(
    strictHostKeys: bool, batch: bool, port: Option<string>, identity: Option<string>, knownHosts: Option<string>)

  const KNOWN_HOSTS_PREFIX: string := "UserKnownHostsFile="

  function ReadSettings(args: seq<string>, before: SshSettings): Option<SshSettings> {
    if args == [] then Some(before)
    else if |args| == 1 then None
    else if args[0] == "-p" then ReadSettings(args[2..], before.(port := Some(args[1])))
    else if args[0] == "-i" then ReadSettings(args[2..], before.(identity := Some(args[1])))
    else if args[0] != "-o" then None
    else if args[1] == "StrictHostKeyChecking=yes" then ReadSettings(args[2..], before.(strictHostKeys := true))
    else if args[1] == "BatchMode=yes" then ReadSettings(args[2..], before.(batch := true))
    else if KNOWN_HOSTS_PREFIX <= args[1] then
      ReadSettings(args[2..], before.(knownHosts := Some(args[1][|KNOWN_HOSTS_PREFIX|..])))
    else None
  }

  function PortArguments(o: Options): seq<string> {
    if o.port > 0 then ["-p", Decimal(o.port)] else []
  }

  function IdentityArguments(o: Options): seq<string> {
    if o.identity != "" then ["-i", o.identity] else []
  }

  function KnownHostsArguments(o: Options): seq<string> {
    if o.knownHosts != "" then ["-o", KNOWN_HOSTS_PREFIX + o.knownHosts] else []
  }

  /** One flag with its operand. */
  lemma ReadPair(flag: string, operand: string, rest: seq<string>, before: SshSettings)
    ensures var all := [flag, operand] + rest;
            && (flag == "-p" ==> ReadSettings(all, before) == ReadSettings(rest, before.(port := Some(operand))))
            && (flag == "-i" ==> ReadSettings(all, before) == ReadSettings(rest, before.(identity := Some(operand))))
            && (flag == "-o" && operand == "StrictHostKeyChecking=yes" ==>
                  ReadSettings(all, before) == ReadSettings(rest, before.(strictHostKeys := true)))
            && (flag == "-o" && operand == "BatchMode=yes" ==>
                  ReadSettings(all, before) == ReadSettings(rest, before.(batch := true)))
            && (flag == "-o" && KNOWN_HOSTS_PREFIX <= operand ==>
                  ReadSettings(all, before) == ReadSettings(rest, before.(knownHosts := Some(operand[|KNOWN_HOSTS_PREFIX|..]))))
  {
    assert ([flag, operand] + rest)[2..] == rest;
    assert KNOWN_HOSTS_PREFIX[0] == 'U' && "StrictHostKeyChecking=yes"[0] == 'S' && "BatchMode=yes"[0] == 'B';
    assert "-p" != "-i" && "-p" != "-o" && "-i" != "-o";
  }

  lemma ReadOptional(o: Options, before: SshSettings)
    requires before.port.None? && before.identity.None? && before.knownHosts.None?
    ensures ReadSettings(PortArguments(o) + (IdentityArguments(o) + KnownHostsArguments(o)), before) ==
            Some(before.(port := if o.port > 0 then Some(Decimal(o.port)) else None,
                         identity := if o.identity != "" then Some(o.identity) else None,
                         knownHosts := if o.knownHosts != "" then Some(o.knownHosts) else None))
  {
    var p, i, k := PortArguments(o), IdentityArguments(o), KnownHostsArguments(o);
    assert p == [] ==> p + (i + k) == i + k;
    assert i == [] ==> i + k == k;
    assert k + [] == k;
    if o.port > 0 { ReadPair("-p", Decimal(o.port), i + k, before); }
    var withPort := before.(port := if o.port > 0 then Some(Decimal(o.port)) else None);
    if o.identity != "" { ReadPair("-i", o.identity, k, withPort); }
    var withIdentity := withPort.(identity := if o.identity != "" then Some(o.identity) else None);
    if o.knownHosts != "" {
      ReadPair("-o", KNOWN_HOSTS_PREFIX + o.knownHosts, [], withIdentity);
      assert (KNOWN_HOSTS_PREFIX + o.knownHosts)[|KNOWN_HOSTS_PREFIX|..] == o.knownHosts;
    }
  }

  const UNSET: SshSettings := SshSettings(false, false, None, None, None)

  /** ssh is told to insist on known host keys and never to ask, and is given the
      port, identity and known hosts of the options exactly when they are set. */
  lemma SshArgumentsSayOptions(o: Options)
    ensures SshArguments(o)[0] == "ssh"
    ensures ReadSettings(SshArguments(o)[1..], UNSET) ==
            Some(SshSettings(true, true,
                             if o.port > 0 then Some(Decimal(o.port)) else None,
                             if o.identity != "" then Some(o.identity) else None,
                             if o.knownHosts != "" then Some(o.knownHosts) else None))
  {
    var rest := PortArguments(o) + (IdentityArguments(o) + KnownHostsArguments(o));
    var batch := ["-o", "BatchMode=yes"] + rest;
    assert SshArguments(o)[1..] == ["-o", "StrictHostKeyChecking=yes"] + batch;
    ReadPair("-o", "StrictHostKeyChecking=yes", batch, UNSET);
    ReadPair("-o", "BatchMode=yes", rest, UNSET.(strictHostKeys := true));
    ReadOptional(o, UNSET.(strictHostKeys := true, batch := true));
  }

  method BuildFlags(o: Options) returns (args: seq<string>)
    ensures args == Flags(o)
  {
    args := ALWAYS;
    if o.recursive { args := args + ["--recursive"]; }
    if o.resume { args := args + ["--append-verify"]; }
    if !o.overwrite { args := args + ["--ignore-existing"]; }
    if o.dryRun { args := args + ["--dry-run"]; }
    if o.preserveTime { args := args + ["--times"]; }
  }

  method BuildSshArguments(o: Options) returns (sshArgs: seq<string>)
    ensures sshArgs == SshArguments(o)
  {
    sshArgs := ["ssh", "-o", "StrictHostKeyChecking=yes", "-o", "BatchMode=yes"];
    if o.port > 0 { sshArgs := sshArgs + ["-p", Decimal(o.port)]; }
    if o.identity != "" { sshArgs := sshArgs + ["-i", o.identity]; }
    if o.knownHosts != "" { sshArgs := sshArgs + ["-o", "UserKnownHostsFile=" + o.knownHosts]; }
  }

  /** On success the vector is the flags, the transport command under -e, and
      the two paths as the last arguments, untouched. A shell reads the
      transport command back as exactly the ssh arguments. */
  method BuildArgs(source: string, destination: string, kind: Option<PathKind>, dialect: Dialect, o: Options)
    returns (r: Outcome)
    ensures r.InvalidLocalPath? <==> kind.None?
    ensures r.DialectMismatch? <==> (dialect.Cygwin? && kind == Some(MingwPath)) || (dialect.Mingw? && kind == Some(CygwinPath))
    ensures r.Arguments? ==>
              exists transport :: PosixShell.Words(transport) == Some(SshArguments(o)) &&
                                  r.args == Flags(o) + ["-e", transport, "--", source, destination]
  {
    match kind {
      case None => return InvalidLocalPath;
      case Some(k) =>
        if dialect.Cygwin? && k.MingwPath? { return DialectMismatch; }
        if dialect.Mingw? && k.CygwinPath? { return DialectMismatch; }
    }
    var args := BuildFlags(o);
    var sshArgs := BuildSshArguments(o);
    var transport := QuoteEach(sshArgs);
    args := args + ["-e", transport];
    r := Arguments(args + ["--", source, destination]);
    assert r.args == Flags(o) + ["-e", transport, "--", source, destination];
  }

  /** Fills the quoted vector by index and joins it with spaces. */
  method QuoteEach(sshArgs: seq<string>) returns (transport: string)
    ensures PosixShell.Words(transport) == Some(sshArgs)
  {
    var quoted := new string[|sshArgs|](_ => "");
    for index := 0 to |sshArgs|
      invariant quoted[..index] == QuotedAll(sshArgs)[..index]
    {
      quoted[index] := QuoteCommandArgument(sshArgs[index]);
    }
    assert quoted[..] == quoted[..|sshArgs|] == QuotedAll(sshArgs);
    transport := JoinSpace(quoted[..]);
    TransportRoundTrip(sshArgs);
  }
}
