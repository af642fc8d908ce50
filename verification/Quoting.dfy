/** The printers that hand paths to a shell or to XML (`crates/installer/src/lib.rs`,
    `crates/installer/src/agents.rs`, `crates/app/src/service.rs`), against the readers that
    must undo them. Strings are UTF-8 byte strings, one char a byte. */
module Quoting {
  import opened Options

  /** `str::replace` of one character. */
  function Replace(s: string, c: char, to: string): string {
    if s == "" then "" else (if s[0] == c then to else [s[0]]) + Replace(s[1..], c, to)
  }

  // ----- Shell words -----

  const QUOTE := '\''
  const ESCAPED_QUOTE := "'\\''"

  predicate IsPlain(c: char) {
    || 'a' <= c <= 'z' || 'A' <= c <= 'Z' || '0' <= c <= '9'
    || c == '/' || c == '_' || c == '+' || c == '.' || c == ',' || c == ':'
    || c == '@' || c == '%' || c == '=' || c == '-'
  }

  predicate AllPlain(s: string) {
    forall i :: 0 <= i < |s| ==> IsPlain(s[i])
  }

  /** `quote` of the agent installer: always inside single quotes. */
  function Quote(path: string): string {
    "'" + Replace(path, QUOTE, ESCAPED_QUOTE) + "'"
  }

  /** `shell_quote`: bare when every byte is plain. */
  function ShellQuote(path: string): string {
    if AllPlain(path) then path else Quote(path)
  }

  predicate IsBlank(c: char) {
    c == ' ' || c == '\t'
  }

  /** The characters section 2.2 of the POSIX Shell Command Language says must or may have to
      be quoted, beside blanks, quotes, the backslash, `=` and `%`. */
  predicate IsSpecial(c: char) {
    || c == '|' || c == '&' || c == ';' || c == '<' || c == '>' || c == '(' || c == ')'
    || c == '$' || c == '`' || c == '"' || c == '\n' || c == '*' || c == '?' || c == '['
    || c == ']' || c == '#' || c == '~' || c == '!' || c == '{' || c == '}'
  }

  /** Reading words as sections 2.2.1 and 2.2.2 of the POSIX Shell Command Language do: a
      backslash keeps the next character, single quotes keep everything up to the next one,
      blanks end a word. `word` is the word being read, if one has begun. None where another
      character with a meaning of its own is met unquoted, or a quote stays open. */
  function ReadWords(s: string, quoted: bool, word: Option<string>, words: seq<string>): Option<seq<string>> {
    var read := word.GetOr("");
    if s == "" then
      if quoted then None else Some(words + (if word.Some? then [read] else []))
    else if quoted then
      if s[0] == QUOTE then ReadWords(s[1..], false, Some(read), words)
      else ReadWords(s[1..], true, Some(read + [s[0]]), words)
    else if s[0] == QUOTE then ReadWords(s[1..], true, Some(read), words)
    else if s[0] == '\\' then
      if |s| == 1 then None
      else if s[1] == '\n' then ReadWords(s[2..], false, word, words)
      else ReadWords(s[2..], false, Some(read + [s[1]]), words)
    else if IsBlank(s[0]) then
      ReadWords(s[1..], false, None, words + (if word.Some? then [read] else []))
    else if IsSpecial(s[0]) then None
    else ReadWords(s[1..], false, Some(read + [s[0]]), words)
  }

  function Words(s: string): Option<seq<string>> {
    ReadWords(s, false, None, [])
  }

  /** Inside quotes, the replaced text adds the original characters. */
  lemma {:induction false} QuotedReads(path: string, rest: string, read: string, words: seq<string>)
    ensures ReadWords(Replace(path, QUOTE, ESCAPED_QUOTE) + rest, true, Some(read), words)
         == ReadWords(rest, true, Some(read + path), words)
  {
    if path == "" {
      assert read + path == read && Replace(path, QUOTE, ESCAPED_QUOTE) + rest == rest;
    } else {
      var tail := Replace(path[1..], QUOTE, ESCAPED_QUOTE) + rest;
      var s := Replace(path, QUOTE, ESCAPED_QUOTE) + rest;
      QuotedReads(path[1..], rest, read + [path[0]], words);
      assert read + [path[0]] + path[1..] == read + path;
      if path[0] == QUOTE {
        assert s == ESCAPED_QUOTE + tail;
        EscapedQuoteReads(tail, read, words);
      } else {
        assert s == [path[0]] + tail;
        assert s[1..] == tail;
      }
    }
  }

  /** Close, escaped quote, reopen. */
  lemma EscapedQuoteReads(tail: string, read: string, words: seq<string>)
    ensures ReadWords(ESCAPED_QUOTE + tail, true, Some(read), words)
         == ReadWords(tail, true, Some(read + [QUOTE]), words)
  {
    var closed := "\\''" + tail;
    var reopened := "'" + tail;
    assert (ESCAPED_QUOTE + tail)[1..] == closed;
    assert closed[2..] == reopened && reopened[1..] == tail;
    assert ReadWords(reopened, false, Some(read + [QUOTE]), words)
        == ReadWords(tail, true, Some(read + [QUOTE]), words);
    assert ReadWords(closed, false, Some(read), words) == ReadWords(reopened, false, Some(read + [QUOTE]), words);
  }

  lemma {:induction false} PlainReads(text: string, rest: string, word: Option<string>, words: seq<string>)
    requires AllPlain(text) && text != ""
    ensures ReadWords(text + rest, false, word, words)
         == ReadWords(rest, false, Some(word.GetOr("") + text), words)
  {
    var read := word.GetOr("") + [text[0]];
    assert text + rest == [text[0]] + (text[1..] + rest);
    PlainStep(text[0], text[1..] + rest, word, words);
    if |text| > 1 {
      PlainReads(text[1..], rest, Some(read), words);
      assert read + text[1..] == word.GetOr("") + text;
    } else {
      assert text == [text[0]] && text[1..] + rest == rest;
    }
  }

  lemma PlainStep(c: char, rest: string, word: Option<string>, words: seq<string>)
    requires IsPlain(c)
    ensures ReadWords([c] + rest, false, word, words) == ReadWords(rest, false, Some(word.GetOr("") + [c]), words)
  {
    assert ([c] + rest)[1..] == rest;
  }

  lemma BlankStep(rest: string, word: string, words: seq<string>)
    ensures ReadWords(" " + rest, false, Some(word), words) == ReadWords(rest, false, None, words + [word])
  {
    assert (" " + rest)[1..] == rest;
  }

  lemma QuoteReads(path: string, rest: string, words: seq<string>)
    ensures ReadWords(Quote(path) + rest, false, None, words) == ReadWords(rest, false, Some(path), words)
  {
    var body := Replace(path, QUOTE, ESCAPED_QUOTE);
    var s := Quote(path) + rest;
    assert s[1..] == body + ("'" + rest);
    QuotedReads(path, "'" + rest, "", words);
    assert "" + path == path;
    assert ("'" + rest)[1..] == rest;
  }

  lemma ShellQuoteReads(path: string, rest: string, words: seq<string>)
    requires path != ""
    ensures ReadWords(ShellQuote(path) + rest, false, None, words) == ReadWords(rest, false, Some(path), words)
  {
    if AllPlain(path) {
      PlainReads(path, rest, None, words);
      assert "" + path == path;
    } else {
      QuoteReads(path, rest, words);
    }
  }

  /** Either printer gives a shell exactly one word, the original; `shell_quote` needs a
      nonempty path, since it prints the empty one as nothing. */
  lemma QuotedIsOneWord(path: string)
    ensures Words(Quote(path)) == Some([path])
    ensures Words(ShellQuote(path)) == Some([path]) <==> path != ""
  {
    QuoteReads(path, "", []);
    assert Quote(path) + "" == Quote(path) && [] + [path] == [path];
    if path != "" {
      ShellQuoteReads(path, "", []);
      assert ShellQuote(path) + "" == ShellQuote(path);
    }
  }

  /** A command line: a quoted program and plain arguments. */
  function CommandLine(quotedProgram: string, arguments: seq<string>): string
    decreases |arguments|
  {
    if arguments == [] then quotedProgram
    else CommandLine(quotedProgram, arguments[..|arguments| - 1]) + " " + arguments[|arguments| - 1]
  }

  /** A shell runs the program with exactly these arguments. */
  lemma {:induction false} CommandLineReads(program: string, arguments: seq<string>, rest: string)
    requires program != ""
    requires forall i :: 0 <= i < |arguments| ==> arguments[i] != "" && AllPlain(arguments[i])
    ensures var all := [program] + arguments;
            ReadWords(CommandLine(ShellQuote(program), arguments) + rest, false, None, [])
            == ReadWords(rest, false, Some(all[|arguments|]), all[..|arguments|])
    decreases |arguments|
  {
    var all := [program] + arguments;
    if arguments == [] {
      ShellQuoteReads(program, rest, []);
    } else {
      var n := |arguments| - 1;
      var last := " " + arguments[n] + rest;
      CommandLineReads(program, arguments[..n], last);
      assert CommandLine(ShellQuote(program), arguments) + rest
          == CommandLine(ShellQuote(program), arguments[..n]) + last;
      assert ([program] + arguments[..n])[..n] == all[..n] && ([program] + arguments[..n])[n] == all[n];
      assert last == " " + (arguments[n] + rest);
      BlankStep(arguments[n] + rest, all[n], all[..n]);
      assert all[..n] + [all[n]] == all[..n + 1];
      PlainReads(arguments[n], rest, None, all[..n + 1]);
      assert "" + arguments[n] == arguments[n];
    }
  }

  /** `hook_command`: what a provider is configured to run. */
  function HookCommand(binary: string, provider: string): string {
    ShellQuote(binary) + " hook --provider " + provider
  }

  lemma HookCommandRuns(binary: string, provider: string)
    requires binary != "" && provider != "" && AllPlain(provider)
    ensures Words(HookCommand(binary, provider)) == Some([binary, "hook", "--provider", provider])
  {
    var a := ["hook", "--provider", provider];
    var q := ShellQuote(binary);
    assert a[..2] == ["hook", "--provider"] && a[..2][..1] == ["hook"] && a[..2][..1][..0] == [];
    assert CommandLine(q, ["hook"]) == q + " " + "hook";
    assert CommandLine(q, ["hook", "--provider"]) == q + " " + "hook" + " " + "--provider";
    assert HookCommand(binary, provider) == CommandLine(q, a) + "";
    CommandLineReads(binary, a, "");
    assert ([binary] + a)[..3] + [provider] == [binary, "hook", "--provider", provider];
  }

  // ----- XML text -----

  /** `xml`: five replacements, one after the other. */
  function Xml(s: string): string {
    Replace(Replace(Replace(Replace(Replace(s, '&', "&amp;"), '<', "&lt;"), '>', "&gt;"), '"', "&quot;"),
            '\'', "&apos;")
  }

  function Entity(c: char): string {
    match c
    case '&' => "&amp;"
    case '<' => "&lt;"
    case '>' => "&gt;"
    case '"' => "&quot;"
    case '\'' => "&apos;"
    case _ => [c]
  }

  /** One pass over the characters. */
  function Escape(s: string): string {
    if s == "" then "" else Entity(s[0]) + Escape(s[1..])
  }

  /** Reading text content with the predefined entities of section 4.6 of XML 1.0; None at a
      bare `<` or at any other reference. */
  function Unescape(s: string): Option<string> {
    if s == "" then Some("")
    else if "&amp;" <= s then (var r :- Unescape(s[5..]); Some("&" + r))
    else if "&lt;" <= s then (var r :- Unescape(s[4..]); Some("<" + r))
    else if "&gt;" <= s then (var r :- Unescape(s[4..]); Some(">" + r))
    else if "&quot;" <= s then (var r :- Unescape(s[6..]); Some("\"" + r))
    else if "&apos;" <= s then (var r :- Unescape(s[6..]); Some("'" + r))
    else if s[0] in "&<" then None
    else (var r :- Unescape(s[1..]); Some([s[0]] + r))
  }

  lemma {:induction false} ReplaceConcat(a: string, b: string, c: char, to: string)
    ensures Replace(a + b, c, to) == Replace(a, c, to) + Replace(b, c, to)
  {
    if a == "" {
      assert a + b == b;
    } else {
      assert (a + b)[1..] == a[1..] + b;
      ReplaceConcat(a[1..], b, c, to);
    }
  }

  lemma {:induction false} ReplaceAbsent(s: string, c: char, to: string)
    requires c !in s
    ensures Replace(s, c, to) == s
  {
    if s != "" {
      ReplaceAbsent(s[1..], c, to);
    }
  }

  /** The order of the replacements matters once: `&` goes first, so no later one touches the
      entities it or another has written. */
  lemma XmlOfOne(c: char)
    ensures Xml([c]) == Entity(c)
  {
    hide Replace;
    ReplaceOne(c, '&', "&amp;");
    ReplaceOne(c, '<', "&lt;");
    ReplaceOne(c, '>', "&gt;");
    ReplaceOne(c, '"', "&quot;");
    ReplaceOne(c, '\'', "&apos;");
    if c == '&' {
      ReplaceAbsent("&amp;", '<', "&lt;");
      LaterReplacements("&amp;");
    } else if c == '<' {
      LaterReplacements("&lt;");
    } else if c == '>' {
      LaterReplacements("&gt;");
    } else if c == '"' {
      LaterReplacements("&quot;");
    }
  }

  lemma LaterReplacements(entity: string)
    requires '>' !in entity && '"' !in entity && '\'' !in entity
    ensures Replace(entity, '>', "&gt;") == Replace(entity, '"', "&quot;") == Replace(entity, '\'', "&apos;") == entity
  {
    ReplaceAbsent(entity, '>', "&gt;");
    ReplaceAbsent(entity, '"', "&quot;");
    ReplaceAbsent(entity, '\'', "&apos;");
  }

  lemma ReplaceOne(x: char, c: char, to: string)
    ensures Replace([x], c, to) == if x == c then to else [x]
  {
    assert [x][1..] == "";
  }

  lemma XmlConcat(a: string, b: string)
    ensures Xml(a + b) == Xml(a) + Xml(b)
  {
    var a1, b1 := Replace(a, '&', "&amp;"), Replace(b, '&', "&amp;");
    var a2, b2 := Replace(a1, '<', "&lt;"), Replace(b1, '<', "&lt;");
    var a3, b3 := Replace(a2, '>', "&gt;"), Replace(b2, '>', "&gt;");
    var a4, b4 := Replace(a3, '"', "&quot;"), Replace(b3, '"', "&quot;");
    ReplaceConcat(a, b, '&', "&amp;");
    ReplaceConcat(a1, b1, '<', "&lt;");
    ReplaceConcat(a2, b2, '>', "&gt;");
    ReplaceConcat(a3, b3, '"', "&quot;");
    ReplaceConcat(a4, b4, '\'', "&apos;");
  }

  /** Five passes are one. */
  lemma {:induction false} XmlIsOnePass(s: string)
    ensures Xml(s) == Escape(s)
  {
    if s != "" {
      assert s == [s[0]] + s[1..];
      XmlConcat([s[0]], s[1..]);
      XmlOfOne(s[0]);
      XmlIsOnePass(s[1..]);
    }
  }

  lemma {:induction false} EscapeReads(s: string)
    ensures Unescape(Escape(s)) == Some(s)
  {
    if s != "" {
      EscapeReads(s[1..]);
      EntityReads(s[0], Escape(s[1..]));
      assert [s[0]] + s[1..] == s;
    }
  }

  lemma EntityReads(c: char, rest: string)
    ensures Unescape(Entity(c) + rest)
         == match Unescape(rest) case None => None case Some(r) => Some([c] + r)
  {
    var e := Entity(c);
    var s := e + rest;
    assert s[|e|..] == rest && e <= s;
    if c in "&<>\"'" {
      assert s[1] == e[1] && s[2] == e[2];
    } else {
      assert s[0] == c;
    }
  }

  /** An XML reader gets the original back. */
  lemma XmlReads(s: string)
    ensures Unescape(Xml(s)) == Some(s)
  {
    XmlIsOnePass(s);
    EscapeReads(s);
  }
}
