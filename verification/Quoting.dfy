/** The two quoting functions: the remote hash command's shellQuote and the
    rsync transport's quoteCommandArgument. Both are checked against the
    reader of module PosixShell. */
module Quoting {
  import opened Basics
  import opened PosixShell

  const NUL: char := 0 as char

  /** Every single quote replaced by `patch`, which leaves the quoted string,
      produces one quote and enters it again. */
  function Escaped(s: string, patch: string): string {
    if s == "" then "" else (if s[0] == '\'' then patch else [s[0]]) + Escaped(s[1..], patch)
  }

  const BACKSLASH_PATCH: string := "'\\''"
  const DOUBLE_QUOTE_PATCH: string := "'\"'\"'"

  function ShellQuote(path: string): Option<string> {
    if NUL in path then None else Some("'" + Escaped(path, BACKSLASH_PATCH) + "'")
  }

  predicate SafeCharacter(c: char) {
    || 'A' <= c <= 'Z' || 'a' <= c <= 'z' || '0' <= c <= '9' || c in "_@%+=:,./-"
  }

  function QuoteCommandArgument(value: string): string {
    if value != "" && forall i :: 0 <= i < |value| ==> SafeCharacter(value[i]) then value
    else "'" + Escaped(value, DOUBLE_QUOTE_PATCH) + "'"
  }

  /** Inside single quotes each patch reads as one quote character. */
  lemma ReadPatch(patch: string, rest: string, words: seq<string>, w: string)
    requires patch == BACKSLASH_PATCH || patch == DOUBLE_QUOTE_PATCH
    ensures Read(patch + rest, SingleQuoted, words, Some(w)) == Read(rest, SingleQuoted, words, Some(w + "'"))
  {
    var line := patch + rest;
    if patch == BACKSLASH_PATCH {
      var l1, l2 := "\\''" + rest, "'" + rest;
      assert line[1..] == l1 && l1[2..] == l2 && l2[1..] == rest;
      assert Read(l1, Plain, words, Some(w)) == Read(l2, Plain, words, Some(w + "'"));
    } else {
      var l1, l2, l3, l4 := "\"'\"'" + rest, "'\"'" + rest, "\"'" + rest, "'" + rest;
      assert line[1..] == l1 && l1[1..] == l2 && l2[1..] == l3 && l3[1..] == l4 && l4[1..] == rest;
      assert Read(l1, Plain, words, Some(w)) == Read(l2, DoubleQuoted, words, Some(w));
      assert Read(l2, DoubleQuoted, words, Some(w)) == Read(l3, DoubleQuoted, words, Some(w + "'"));
      assert Read(l3, DoubleQuoted, words, Some(w + "'")) == Read(l4, Plain, words, Some(w + "'"));
    }
  }

  lemma {:induction false} ReadEscaped(s: string, patch: string, rest: string, words: seq<string>, w: string)
    requires patch == BACKSLASH_PATCH || patch == DOUBLE_QUOTE_PATCH
    ensures Read(Escaped(s, patch) + "'" + rest, SingleQuoted, words, Some(w)) == Read(rest, Plain, words, Some(w + s))
  {
    var tail := "'" + rest;
    assert Escaped(s, patch) + "'" + rest == Escaped(s, patch) + tail;
    if s == "" {
      assert Escaped(s, patch) + tail == tail && tail[1..] == rest && w + s == w;
    } else {
      var after := Escaped(s[1..], patch) + tail;
      assert after == Escaped(s[1..], patch) + "'" + rest;
      if s[0] == '\'' {
        assert Escaped(s, patch) + tail == patch + after;
        ReadPatch(patch, after, words, w);
        assert "'" == [s[0]];
      } else {
        assert Escaped(s, patch) + tail == [s[0]] + after;
        assert ([s[0]] + after)[1..] == after;
      }
      ReadEscaped(s[1..], patch, rest, words, w + [s[0]]);
      assert (w + [s[0]]) + s[1..] == w + s;
    }
  }

  lemma ReadQuoted(s: string, patch: string, rest: string, words: seq<string>)
    requires patch == BACKSLASH_PATCH || patch == DOUBLE_QUOTE_PATCH
    ensures Read("'" + Escaped(s, patch) + "'" + rest, Plain, words, None) == Read(rest, Plain, words, Some(s))
  {
    var line := "'" + Escaped(s, patch) + "'" + rest;
    assert line[1..] == Escaped(s, patch) + "'" + rest;
    ReadEscaped(s, patch, rest, words, "");
    assert "" + s == s;
  }

  /** Quoting succeeds exactly on NUL-free strings. Placed after any command
      that itself reads as words, the quoted string adds exactly one word: the
      string it was made from. */
  lemma ShellQuoteRoundTrip(path: string)
    ensures ShellQuote(path).Some? <==> NUL !in path
    ensures NUL !in path ==> Words(ShellQuote(path).value) == Some([path])
  {
    if NUL !in path {
      ReadQuoted(path, BACKSLASH_PATCH, "", []);
      var q := ShellQuote(path).value;
      assert q + "" == q;
      assert [] + [path] == [path];
    }
  }

  lemma ReadArgument(value: string, rest: string, words: seq<string>)
    ensures Read(QuoteCommandArgument(value) + rest, Plain, words, None) == Read(rest, Plain, words, Some(value))
  {
    if value != "" && forall i :: 0 <= i < |value| ==> SafeCharacter(value[i]) {
      ReadLiteralWord(value, rest, words);
    } else {
      ReadQuoted(value, DOUBLE_QUOTE_PATCH, rest, words);
    }
  }

  function JoinSpace(parts: seq<string>): string {
    if parts == [] then ""
    else if |parts| == 1 then parts[0]
    else parts[0] + (" " + JoinSpace(parts[1..]))
  }

  function QuotedAll(arguments: seq<string>): seq<string> {
    seq(|arguments|, i requires 0 <= i < |arguments| => QuoteCommandArgument(arguments[i]))
  }

  lemma ReadSeparator(word: string, rest: string, words: seq<string>)
    ensures Read(" " + rest, Plain, words, Some(word)) == Read(rest, Plain, words + [word], None)
  {
    assert (" " + rest)[1..] == rest;
  }

  /** Wherever a word may start, a shell reads the text as exactly this word so far. */
  ghost predicate ReadsAs(text: string, value: string) {
    forall rest, words :: Read(text + rest, Plain, words, None) == Read(rest, Plain, words, Some(value))
  }

  lemma ArgumentReadsAs(value: string)
    ensures ReadsAs(QuoteCommandArgument(value), value)
  {
    forall rest, words
      ensures Read(QuoteCommandArgument(value) + rest, Plain, words, None) == Read(rest, Plain, words, Some(value))
    {
      ReadArgument(value, rest, words);
    }
  }

  lemma FirstReads(text: string, value: string, rest: string, words: seq<string>)
    requires ReadsAs(text, value)
    ensures Read(text + (" " + rest), Plain, words, None) == Read(rest, Plain, words + [value], None)
  {
    ReadSeparator(value, rest, words);
  }

  lemma LastReads(text: string, value: string, words: seq<string>)
    requires ReadsAs(text, value)
    ensures Read(text, Plain, words, None) == Some(words + [value])
  {
    assert text + "" == text;
  }

  lemma {:induction false} JoinedReads(texts: seq<string>, values: seq<string>, words: seq<string>)
    requires |texts| == |values| && forall i :: 0 <= i < |texts| ==> ReadsAs(texts[i], values[i])
    ensures Read(JoinSpace(texts), Plain, words, None) == Some(words + values)
  {
    if |texts| == 0 {
      assert words + values == words;
    } else if |texts| == 1 {
      LastReads(texts[0], values[0], words);
      assert values == [values[0]];
    } else {
      FirstReads(texts[0], values[0], JoinSpace(texts[1..]), words);
      JoinedReads(texts[1..], values[1..], words + [values[0]]);
      assert (words + [values[0]]) + values[1..] == words + values;
    }
  }

  /** The space-joined command string splits back into exactly the arguments it
      was built from, whatever characters they hold and even when some are empty. */
  lemma {:induction false} TransportRoundTrip(arguments: seq<string>)
    ensures Words(JoinSpace(QuotedAll(arguments))) == Some(arguments)
  {
    forall i | 0 <= i < |arguments| ensures ReadsAs(QuotedAll(arguments)[i], arguments[i]) {
      ArgumentReadsAs(arguments[i]);
    }
    JoinedReads(QuotedAll(arguments), arguments, []);
    assert [] + arguments == arguments;
  }
}
