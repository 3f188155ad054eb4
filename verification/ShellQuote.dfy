/**
 * Quoting words for a printed shell command, against a reader of the POSIX.1-2017
 * Shell Command Language: sections 2.2.1 (escape character) and 2.2.2 (single
 * quotes), words ended by blanks as in section 2.3.
 */
module ShellQuote {
  import opened Ordering

  predicate Alphanumeric(c: char) {
    'a' <= c <= 'z' || 'A' <= c <= 'Z' || '0' <= c <= '9'
  }

  predicate Plain(c: char) {
    Alphanumeric(c) || c == '/' || c == '.' || c == '_' || c == ':' || c == '-'
  }

  predicate AllPlain(s: string) {
    forall c <- s :: Plain(c)
  }

  /** Every quote ends the quoted stretch, stands escaped, and begins a new stretch. */
  function EscapeQuotes(word: string): string {
    if word == [] then []
    else (if word[0] == '\'' then "'\\''" else [word[0]]) + EscapeQuotes(word[1..])
  }

  function Quote(word: string): string {
    if word != [] && AllPlain(word) then word else "'" + EscapeQuotes(word) + "'"
  }

  // ---------- the reader ----------

  predicate Blank(c: char) {
    c == ' ' || c == '\t'
  }

  /**
   * The other characters that section 2.2 says must or may need to be quoted to
   * stand for themselves. The reader gives up on one it meets unquoted.
   */
  predicate Special(c: char) {
    || c == '|' || c == '&' || c == ';' || c == '<' || c == '>' || c == '(' || c == ')' || c == '$'
    || c == '`' || c == '"' || c == '\n' || c == '*' || c == '?' || c == '[' || c == '#' || c == '~'
    || c == '=' || c == '%'
  }

  /** Between words, inside one, or inside a single-quoted stretch of one; the word read so far. */
  datatype Mode = Between | Inside(word: string) | Quoted(word: string)

  function WordSoFar(mode: Mode): string {
    if mode.Between? then [] else mode.word
  }

  /** The words of `text`, or none when it is not one finished list of plainly quoted words. */
  function Read(text: string, mode: Mode, words: seq<string>): Option<seq<string>>
    decreases |text|
  {
    if text == [] then
      match mode
      case Between => Some(words)
      case Inside(word) => Some(words + [word])
      case Quoted(_) => None
    else if mode.Quoted? then
      if text[0] == '\'' then Read(text[1..], Inside(mode.word), words)
      else Read(text[1..], Quoted(mode.word + [text[0]]), words)
    else if text[0] == '\\' then
      if |text| == 1 then None
      else if text[1] == '\n' then Read(text[2..], mode, words)
      else Read(text[2..], Inside(WordSoFar(mode) + [text[1]]), words)
    else if text[0] == '\'' then Read(text[1..], Quoted(WordSoFar(mode)), words)
    else if Blank(text[0]) then
      Read(text[1..], Between, if mode.Inside? then words + [mode.word] else words)
    else if Special(text[0]) then None
    else Read(text[1..], Inside(WordSoFar(mode) + [text[0]]), words)
  }

  // ---------- quoting is undone by reading ----------

  lemma {:induction false} ReadsPlain(word: string, rest: string, mode: Mode, words: seq<string>)
    requires AllPlain(word) && word != [] && !mode.Quoted?
    ensures Read(word + rest, mode, words) == Read(rest, Inside(WordSoFar(mode) + word), words)
    decreases |word|
  {
    var text, mode' := word + rest, Inside(WordSoFar(mode) + [word[0]]);
    assert text[0] == word[0] && text[1..] == word[1..] + rest && word[0] in word;
    assert Read(text, mode, words) == Read(word[1..] + rest, mode', words);
    assert WordSoFar(mode) + [word[0]] + word[1..] == WordSoFar(mode) + word;
    if |word| > 1 {
      ReadsPlain(word[1..], rest, mode', words);
    } else {
      assert word[1..] + rest == rest && word == [word[0]];
    }
  }

  lemma ReadsEscapedQuote(rest: string, word: string, words: seq<string>)
    ensures Read("'\\''" + rest, Quoted(word), words) == Read(rest, Quoted(word + "'"), words)
  {
    var afterQuote, afterEscape := "\\''" + rest, "'" + rest;
    assert ("'\\''" + rest)[1..] == afterQuote;
    assert afterQuote[2..] == afterEscape && afterEscape[1..] == rest;
    assert Read(afterQuote, Inside(word), words) == Read(afterEscape, Inside(word + ['\'']), words);
    assert Read(afterEscape, Inside(word + "'"), words) == Read(rest, Quoted(word + "'"), words);
  }

  lemma {:induction false} ReadsEscaped(body: string, rest: string, word: string, words: seq<string>)
    ensures Read(EscapeQuotes(body) + rest, Quoted(word), words) == Read(rest, Quoted(word + body), words)
    decreases |body|
  {
    if body == [] {
      assert EscapeQuotes(body) + rest == rest && word + body == word;
    } else {
      var more := EscapeQuotes(body[1..]) + rest;
      ReadsEscaped(body[1..], rest, word + [body[0]], words);
      assert word + [body[0]] + body[1..] == word + body;
      if body[0] == '\'' {
        assert EscapeQuotes(body) + rest == "'\\''" + more;
        ReadsEscapedQuote(more, word, words);
      } else {
        assert EscapeQuotes(body) + rest == [body[0]] + more;
        assert ([body[0]] + more)[1..] == more;
      }
    }
  }

  /** Between words, a quoted word leaves the reader inside exactly that word. */
  lemma ReadsQuoted(word: string, rest: string, words: seq<string>)
    ensures Read(Quote(word) + rest, Between, words) == Read(rest, Inside(word), words)
  {
    if word != [] && AllPlain(word) {
      ReadsPlain(word, rest, Between, words);
      assert [] + word == word;
    } else {
      var body := EscapeQuotes(word) + ("'" + rest);
      assert Quote(word) + rest == "'" + body;
      assert ("'" + body)[1..] == body;
      ReadsEscaped(word, "'" + rest, [], words);
      assert [] + word == word;
      assert ("'" + rest)[1..] == rest;
    }
  }

  /** Whatever the word, reading its quotation gives that one word. */
  lemma QuoteRoundTrip(word: string)
    ensures Read(Quote(word), Between, []) == Some([word])
  {
    ReadsQuoted(word, [], []);
    assert Quote(word) + [] == Quote(word);
    assert [] + [word] == [word];
  }

  /** A command line: the quotations of its words, a space between each two. */
  function CommandLine(words: seq<string>): string {
    if words == [] then []
    else if |words| == 1 then Quote(words[0])
    else Quote(words[0]) + " " + CommandLine(words[1..])
  }

  lemma {:induction false} ReadsCommandLine(words: seq<string>, before: seq<string>)
    ensures Read(CommandLine(words), Between, before) == Some(before + words)
    decreases |words|
  {
    if words == [] {
      assert before + words == before;
    } else if |words| == 1 {
      ReadsQuoted(words[0], [], before);
      assert Quote(words[0]) + [] == Quote(words[0]) && before + words == before + [words[0]];
    } else {
      var rest := " " + CommandLine(words[1..]);
      ReadsQuoted(words[0], rest, before);
      assert Quote(words[0]) + " " + CommandLine(words[1..]) == Quote(words[0]) + rest;
      assert rest[1..] == CommandLine(words[1..]);
      ReadsCommandLine(words[1..], before + [words[0]]);
      assert before + [words[0]] + words[1..] == before + words;
    }
  }

  /** A command line printed word by word reads back as the same words, in order, none split, joined or lost. */
  lemma CommandLineRoundTrip(words: seq<string>)
    ensures Read(CommandLine(words), Between, []) == Some(words)
  {
    ReadsCommandLine(words, []);
    assert [] + words == words;
  }

  // ---------- what is quoted ----------

  /** A word is printed as it is exactly when it is not empty and all of it is letters, digits and `/ . _ : -`. */
  lemma PlainIsUnquoted(word: string)
    ensures Quote(word) == word <==>
            && word != []
            && forall c <- word :: 'a' <= c <= 'z' || 'A' <= c <= 'Z' || '0' <= c <= '9' || c in {'/', '.', '_', ':', '-'}
    ensures Quote(word) != word ==> |Quote(word)| >= 2 && Quote(word)[0] == '\'' && Quote(word)[|Quote(word)| - 1] == '\''
  {
    if Quote(word) == word && !AllPlain(word) {
      EscapesAreLonger(word);
    }
  }

  lemma {:induction false} EscapesAreLonger(word: string)
    ensures |EscapeQuotes(word)| >= |word|
  {
    if word != [] { EscapesAreLonger(word[1..]); }
  }
}
