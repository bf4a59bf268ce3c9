/** How a POSIX shell splits a command line into words when the line holds
    nothing but literal text and quoting: sections 2.2.1 (escape character),
    2.2.2 (single quotes) and 2.2.3 (double quotes) of the POSIX.1-2017 Shell
    Command Language. A line with an active metacharacter has no reading here,
    so a theorem that a line reads as some words also says that nothing in it
    is active. */
module PosixShell {
  import opened Basics

  datatype Mode = Plain | SingleQuoted | DoubleQuoted

  predicate Blank(c: char) {
    c == ' ' || c == '\t'
  }

  /** Characters that mean something to a shell outside quotes. */
  predicate Active(c: char) {
    c in "|&;<>()$`\n*?[]#~!{}" || c == 0 as char
  }

  function Extend(word: Option<string>, c: char): Option<string> {
    match word
    case None => Some([c])
    case Some(w) => Some(w + [c])
  }

  function Opened(word: Option<string>): Option<string> {
    if word.None? then Some("") else word
  }

  function Closed(words: seq<string>, word: Option<string>): seq<string> {
    match word
    case None => words
    case Some(w) => words + [w]
  }

  /** The words of `line`, given the words already complete and the word being read. */
  function Read(line: string, mode: Mode, words: seq<string>, word: Option<string>): Option<seq<string>>
    decreases |line|
  {
    if line == "" then
      if mode.Plain? then Some(Closed(words, word)) else None
    else
      var c := line[0];
      match mode
      case Plain =>
        if Blank(c) then Read(line[1..], Plain, Closed(words, word), None)
        else if c == '\'' then Read(line[1..], SingleQuoted, words, Opened(word))
        else if c == '"' then Read(line[1..], DoubleQuoted, words, Opened(word))
        else if c == '\\' then
          if |line| == 1 then None
          else if line[1] == '\n' then Read(line[2..], Plain, words, word)
          else Read(line[2..], Plain, words, Extend(word, line[1]))
        else if Active(c) then None
        else Read(line[1..], Plain, words, Extend(word, c))
      case SingleQuoted =>
        if c == '\'' then Read(line[1..], Plain, words, word)
        else Read(line[1..], SingleQuoted, words, Extend(word, c))
      case DoubleQuoted =>
        if c == '"' then Read(line[1..], Plain, words, word)
        else if c == '$' || c == '`' then None
        else if c == '\\' && |line| > 1 && line[1] in "\"\\$`" then
          Read(line[2..], DoubleQuoted, words, Extend(word, line[1]))
        else if c == '\\' && |line| > 1 && line[1] == '\n' then Read(line[2..], DoubleQuoted, words, word)
        else Read(line[1..], DoubleQuoted, words, Extend(word, c))
  }

  function Words(line: string): Option<seq<string>> {
    Read(line, Plain, [], None)
  }

  /** Characters that stand for themselves outside quotes. */
  predicate Literal(c: char) {
    !Blank(c) && !Active(c) && c != '\'' && c != '"' && c != '\\'
  }

  lemma {:induction false} ReadLiteral(text: string, rest: string, words: seq<string>, w: string)
    requires forall i :: 0 <= i < |text| ==> Literal(text[i])
    ensures Read(text + rest, Plain, words, Some(w)) == Read(rest, Plain, words, Some(w + text))
  {
    if text == "" {
      assert text + rest == rest && w + text == w;
    } else {
      assert (text + rest)[1..] == text[1..] + rest;
      ReadLiteral(text[1..], rest, words, w + [text[0]]);
      assert (w + [text[0]]) + text[1..] == w + text;
    }
  }

  /** Unquoted literal text is one word as far as it goes. */
  lemma ReadLiteralWord(text: string, rest: string, words: seq<string>)
    requires text != "" && forall i :: 0 <= i < |text| ==> Literal(text[i])
    ensures Read(text + rest, Plain, words, None) == Read(rest, Plain, words, Some(text))
  {
    assert (text + rest)[1..] == text[1..] + rest;
    ReadLiteral(text[1..], rest, words, [text[0]]);
    assert [text[0]] + text[1..] == text;
  }
}
