/** shellQuote, read back by the word rules of the POSIX shell. */
module ShellQuote {
  import opened Options

  predicate IsSafe(c: char) {
    || c == '-' || c == '_' || c == '.' || c == ':' || c == '/' || c == '#'
    || '0' <= c <= '9' || 'A' <= c <= 'Z' || 'a' <= c <= 'z'
  }

  predicate AllSafe(s: string) { forall c :: c in s ==> IsSafe(c) }

  /** strings.ReplaceAll(value, "'", `'\''`). */
  function EscapeQuotes(s: string): string {
    if s == "" then ""
    else (if s[0] == '\'' then "'\\''" else [s[0]]) + EscapeQuotes(s[1..])
  }

  function ShellQuote(value: string): string {
    if value == "" then "''"
    else if AllSafe(value) then value
    else "'" + EscapeQuotes(value) + "'"
  }

  lemma {:induction false} EscapedNoShorter(s: string)
    ensures |EscapeQuotes(s)| >= |s|
  {
    if s != "" {
      EscapedNoShorter(s[1..]);
    }
  }

  /** Exactly the values of letters, digits and - _ . : / # stay as they are, but the empty one. */
  lemma UnquotedIff(value: string)
    ensures ShellQuote(value) == value
            <==> value != "" && forall c :: c in value ==>
                   c in {'-', '_', '.', ':', '/', '#'} || '0' <= c <= '9' || 'A' <= c <= 'Z' || 'a' <= c <= 'z'
  {
    EscapedNoShorter(value);
    assert |"'" + EscapeQuotes(value) + "'"| == |EscapeQuotes(value)| + 2;
    hide EscapeQuotes;
  }

  // ---------------------------------------------------------------- words of a shell

  /** Between quotes, or outside of them (sections 2.2.1, 2.2.2 and 2.3 of the POSIX.1-2017
      Shell Command Language). */
  datatype Mode = Plain | Single

  predicate IsBlank(c: char) { c == ' ' || c == '\t' }

  /** Characters whose unquoted meaning is outside these rules: operators, expansions,
      double quotes, patterns, and the end of the line. */
  predicate IsSpecial(c: char) {
    || c == '|' || c == '&' || c == ';' || c == '<' || c == '>' || c == '(' || c == ')' || c == '$' || c == '`'
    || c == '"' || c == '*' || c == '?' || c == '[' || c == ']' || c == '~' || c == '=' || c == '%'
    || c == '{' || c == '}' || c == '!' || c == '\n'
  }

  function Append(word: Option<string>, c: char): Option<string> {
    Some((if word.Some? then word.value else "") + [c])
  }

  function Opened(word: Option<string>): Option<string> {
    if word.Some? then word else Some("")
  }

  function Delimit(word: Option<string>, rest: Option<seq<string>>): Option<seq<string>> {
    if rest.None? then None else if word.None? then rest else Some([word.value] + rest.value)
  }

  /** The words of a text, given the mode and the word begun; None where the rules do not
      apply or a quote is left open. */
  function Words(s: string, mode: Mode, word: Option<string>): Option<seq<string>>
    decreases |s|
  {
    if s == "" then
      if mode == Single then None else Delimit(word, Some([]))
    else if mode == Single then
      if s[0] == '\'' then Words(s[1..], Plain, word) else Words(s[1..], Single, Append(word, s[0]))
    else if s[0] == '\'' then Words(s[1..], Single, Opened(word))
    else if s[0] == '\\' then
      if |s| == 1 then None
      else if s[1] == '\n' then Words(s[2..], Plain, word)
      else Words(s[2..], Plain, Append(word, s[1]))
    else if IsBlank(s[0]) then Delimit(word, Words(s[1..], Plain, None))
    else if s[0] == '#' && word.None? then Some([])        // a comment, to the end of the line
    else if IsSpecial(s[0]) then None
    else Words(s[1..], Plain, Append(word, s[0]))
  }

  function Parse(s: string): Option<seq<string>> { Words(s, Plain, None) }

  // ---------------------------------------------------------------- reading the quoted value

  function Extended(word: Option<string>, v: string): Option<string> {
    Some((if word.Some? then word.value else "") + v)
  }

  /** Inside quotes, an escaped value up to the closing quote extends the word by the value. */
  lemma {:induction false} QuotedRun(v: string, rest: string, word: string)
    ensures Words(EscapeQuotes(v) + ("'" + rest), Single, Some(word)) == Words(rest, Plain, Some(word + v))
    decreases |v|
  {
    hide Words, EscapeQuotes;
    if v == "" {
      EscapeNothing();
      assert EscapeQuotes(v) + ("'" + rest) == "'" + rest && word + v == word;
      CloseQuote(rest, word);
    } else {
      var tail := EscapeQuotes(v[1..]) + ("'" + rest);
      EscapeFirst(v, "'" + rest);
      if v[0] == '\'' {
        QuoteInQuotes(tail, word);
      } else {
        PlainInQuotes(v[0], tail, word);
      }
      QuotedRun(v[1..], rest, word + [v[0]]);
      assert word + [v[0]] + v[1..] == word + v;
    }
  }

  lemma EscapeNothing()
    ensures EscapeQuotes("") == ""
  {
  }

  lemma EscapeFirst(v: string, s: string)
    requires v != ""
    ensures EscapeQuotes(v) + s == (if v[0] == '\'' then "'\\''" else [v[0]]) + (EscapeQuotes(v[1..]) + s)
  {
  }

  lemma CloseQuote(rest: string, word: string)
    ensures Words("'" + rest, Single, Some(word)) == Words(rest, Plain, Some(word))
  {
    assert ("'" + rest)[1..] == rest;
  }

  lemma PlainInQuotes(c: char, tail: string, word: string)
    requires c != '\''
    ensures Words([c] + tail, Single, Some(word)) == Words(tail, Single, Some(word + [c]))
  {
    assert ([c] + tail)[1..] == tail;
  }

  /** Close, escaped quote, open again: one quote in the word. */
  lemma QuoteInQuotes(tail: string, word: string)
    ensures Words("'\\''" + tail, Single, Some(word)) == Words(tail, Single, Some(word + "'"))
  {
    var s := "'\\''" + tail;
    assert s[1..] == "\\''" + tail && s[1..][2..] == "'" + tail && s[1..][2..][1..] == tail;
    assert Words(s, Single, Some(word)) == Words(s[1..], Plain, Some(word));
    assert Words(s[1..], Plain, Some(word)) == Words(s[1..][2..], Plain, Some(word + "'"));
  }

  lemma SafeStep(c: char, tail: string, word: Option<string>)
    requires IsSafe(c) && (word.Some? || c != '#')
    ensures Words([c] + tail, Plain, word) == Words(tail, Plain, Append(word, c))
  {
    hide IsSpecial, IsSafe;
    SafeIsOrdinary(c);
    assert ([c] + tail)[1..] == tail;
  }

  lemma SafeIsOrdinary(c: char)
    requires IsSafe(c)
    ensures !IsSpecial(c) && !IsBlank(c) && c != '\'' && c != '\\'
  {
  }

  /** Outside quotes, safe characters extend the word, a comment sign not at its start. */
  lemma {:induction false} SafeRun(v: string, rest: string, word: Option<string>)
    requires v != "" && AllSafe(v) && (word.Some? || v[0] != '#')
    ensures Words(v + rest, Plain, word) == Words(rest, Plain, Extended(word, v))
    decreases |v|
  {
    hide Words, IsSafe;
    assert v == [v[0]] + v[1..] && v + rest == [v[0]] + (v[1..] + rest);
    SafeStep(v[0], v[1..] + rest, word);
    var begun := if word.Some? then word.value else "";
    if |v| == 1 {
      assert v[1..] + rest == rest && v == [v[0]];
    } else {
      assert AllSafe(v[1..]);
      SafeRun(v[1..], rest, Append(word, v[0]));
      assert begun + [v[0]] + v[1..] == begun + v;
    }
  }

  /** The value whose quoted form a shell takes for a comment. */
  predicate ReadsAsComment(value: string) { AllSafe(value) && value != "" && value[0] == '#' }

  lemma EmptyIsWord(rest: string)
    ensures Words("''" + rest, Plain, None) == Words(rest, Plain, Some(""))
  {
    var s := "''" + rest;
    assert s[0] == '\'' && s[1..] == "'" + rest;
    assert Words(s, Plain, None) == Words(s[1..], Single, Some(""));
    CloseQuote(rest, "");
  }

  lemma SafeIsWord(value: string, rest: string)
    requires AllSafe(value) && value != ""
    ensures Words(value + rest, Plain, None)
            == if value[0] == '#' then Some([]) else Words(rest, Plain, Some(value))
  {
    if value[0] == '#' {
      assert (value + rest)[0] == '#';
    } else {
      hide Words;
      SafeRun(value, rest, None);
      assert "" + value == value;
    }
  }

  lemma EscapedIsWord(value: string, rest: string)
    ensures Words("'" + EscapeQuotes(value) + "'" + rest, Plain, None) == Words(rest, Plain, Some(value))
  {
    hide EscapeQuotes;
    var tail := EscapeQuotes(value) + ("'" + rest);
    var s := "'" + EscapeQuotes(value) + "'" + rest;
    assert s == "'" + tail && s[0] == '\'' && s[1..] == tail;
    assert Words(s, Plain, None) == Words(tail, Single, Some(""));
    QuotedRun(value, rest, "");
    assert "" + value == value;
  }

  /** A quoted value, wherever a word may start, is read as the value; or, when it is left
      unquoted and starts with '#', it hides itself and what follows on the line. */
  lemma QuotedIsWord(value: string, rest: string)
    ensures Words(ShellQuote(value) + rest, Plain, None)
            == if ReadsAsComment(value) then Some([]) else Words(rest, Plain, Some(value))
  {
    hide Words, EscapeQuotes, AllSafe;
    if value == "" {
      EmptyIsWord(rest);
    } else if AllSafe(value) {
      SafeIsWord(value, rest);
    } else {
      EscapedIsWord(value, rest);
    }
  }

  /** A shell reads the quoted value as exactly one word equal to it, unless it starts with
      '#' and needs no other quoting. */
  lemma OneWordIff(value: string)
    ensures Parse(ShellQuote(value)) == Some([value]) <==> !ReadsAsComment(value)
  {
    hide ShellQuote;
    QuotedIsWord(value, "");
    assert [value] + [] == [value];
    assert ShellQuote(value) + "" == ShellQuote(value);
  }

  /** Arguments quoted one by one and joined with spaces. */
  function CommandLine(args: seq<string>): string {
    if args == [] then "" else ShellQuote(args[0]) + (if |args| == 1 then "" else " " + CommandLine(args[1..]))
  }

  /** A command line of quoted arguments is read as exactly those arguments. */
  lemma {:induction false} CommandLineReadsBack(args: seq<string>)
    requires forall a :: a in args ==> !ReadsAsComment(a)
    ensures Parse(CommandLine(args)) == Some(args)
    decreases |args|
  {
    hide ShellQuote, ReadsAsComment;
    if args != [] {
      var rest := if |args| == 1 then "" else " " + CommandLine(args[1..]);
      QuotedIsWord(args[0], rest);
      if |args| > 1 {
        CommandLineReadsBack(args[1..]);
        assert rest[1..] == CommandLine(args[1..]);
      }
      assert args == [args[0]] + args[1..];
    }
  }
}
