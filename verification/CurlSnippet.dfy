/**
 * A request printed as a shell command (ui/lib/apiTryIt.ts:142-160), against the quoting rules of
 * the Shell Command Language: section 2.2 (Quoting) and the token rules of section 2.3 of
 * IEEE Std 1003.1, chapter 2 of the Shell & Utilities volume.
 */
module CurlSnippet {
  import opened Wrappers

  datatype Header = Header(key: string, value: string)

  // ---------------------------------------------------------------- the printer

  const ESCAPED_QUOTE := "'\"'\"'"

  /** Every single quote closes the quotes, appears in double quotes, and opens them again. */
  function Escape(s: string): string {
    if s == "" then "" else (if s[0] == '\'' then ESCAPED_QUOTE else [s[0]]) + Escape(s[1..])
  }

  function ShellQuote(value: string): string { "'" + Escape(value) + "'" }

  const LINE_JOIN := " \\\n"

  function HeaderText(h: Header): string { h.key + ": " + h.value }

  function HeaderLines(headers: seq<Header>): string {
    if headers == [] then ""
    else HeaderLines(headers[..|headers| - 1]) + LINE_JOIN + HeaderLine(headers[|headers| - 1])
  }

  function HeaderLine(h: Header): string { "  --header " + ShellQuote(HeaderText(h)) }

  /** `verb` is the upper-cased method, `headers` the entries in iteration order. */
  function CurlText(verb: string, url: string, headers: seq<Header>, body: Option<string>): string {
    "curl --request " + verb + " " + ShellQuote(url) + HeaderLines(headers)
    + if body.Some? && body.value != "" then LINE_JOIN + "  --data-raw " + ShellQuote(body.value) else ""
  }

  function Join(lines: seq<string>, separator: string): string {
    if lines == [] then ""
    else if |lines| == 1 then lines[0]
    else Join(lines[..|lines| - 1], separator) + separator + lines[|lines| - 1]
  }

  method BuildCurlSnippet(verb: string, url: string, headers: seq<Header>, body: Option<string>) returns (text: string)
    ensures text == CurlText(verb, url, headers, body)
  {
    hide HeaderLine, ShellQuote;
    var first := "curl --request " + verb + " " + ShellQuote(url);
    var lines := [first];
    for i := 0 to |headers|
      invariant |lines| == i + 1 && Join(lines, LINE_JOIN) == first + HeaderLines(headers[..i])
    {
      ghost var before := lines;
      lines := lines + [HeaderLine(headers[i])];
      assert lines[..|lines| - 1] == before && headers[..i + 1][..i] == headers[..i];
      assert first + HeaderLines(headers[..i]) + LINE_JOIN + HeaderLine(headers[i])
          == first + HeaderLines(headers[..i + 1]);
    }
    assert headers[..|headers|] == headers;
    if body.Some? && |body.value| > 0 {
      ghost var before := lines;
      lines := lines + ["  --data-raw " + ShellQuote(body.value)];
      assert lines[..|lines| - 1] == before;
    }
    return Join(lines, LINE_JOIN);
  }

  // ---------------------------------------------------------------- the reader

  datatype Mode = Unquoted | Single | Double

  /** Characters that section 2.2 says must, or may have to, be quoted; and NUL. */
  predicate NeedsQuoting(c: char) {
    || c == '|' || c == '&' || c == ';' || c == '<' || c == '>' || c == '(' || c == ')' || c == '$' || c == '`'
    || c == '\\' || c == '"' || c == '\'' || c == ' ' || c == '\t' || c == '\n'
    || c == '*' || c == '?' || c == '[' || c == '#' || c == '~' || c == '=' || c == '%' || c == '\0'
  }

  function OrEmpty(word: Option<string>): string { if word.Some? then word.value else "" }

  function Prepend(word: Option<string>, rest: Option<seq<string>>): Option<seq<string>> {
    if word.None? || rest.None? then rest else Some([word.value] + rest.value)
  }

  /**
   * The words of one simple command. None stands for anything the command does not need: an
   * operator, an expansion, a pattern, a comment, a second command, or unfinished quotes.
   */
  function Words(s: string, mode: Mode, word: Option<string>): Option<seq<string>>
    decreases |s|
  {
    if s == "" then if mode == Unquoted then Prepend(word, Some([])) else None
    else if s[0] == '\0' then None
    else
      match mode
      case Single =>
        if s[0] == '\'' then Words(s[1..], Unquoted, word)
        else Words(s[1..], Single, Some(OrEmpty(word) + [s[0]]))
      case Double =>
        if s[0] == '"' then Words(s[1..], Unquoted, word)
        else if s[0] == '$' || s[0] == '`' then None
        else if s[0] == '\\' && |s| > 1 && s[1] == '\n' then Words(s[2..], Double, word)
        else if s[0] == '\\' && |s| > 1 && (s[1] == '$' || s[1] == '`' || s[1] == '"' || s[1] == '\\')
            then Words(s[2..], Double, Some(OrEmpty(word) + [s[1]]))
        else Words(s[1..], Double, Some(OrEmpty(word) + [s[0]]))
      case Unquoted =>
        if s[0] == '\'' then Words(s[1..], Single, Some(OrEmpty(word)))
        else if s[0] == '"' then Words(s[1..], Double, Some(OrEmpty(word)))
        else if s[0] == '\\' then
          if |s| == 1 || s[1] == '\0' then None
          else if s[1] == '\n' then Words(s[2..], Unquoted, word)
          else Words(s[2..], Unquoted, Some(OrEmpty(word) + [s[1]]))
        else if s[0] == ' ' || s[0] == '\t' then Prepend(word, Words(s[1..], Unquoted, None))
        else if NeedsQuoting(s[0]) then None
        else Words(s[1..], Unquoted, Some(OrEmpty(word) + [s[0]]))
  }

  function CommandWords(s: string): Option<seq<string>> { Words(s, Unquoted, None) }

  // ---------------------------------------------------------------- quoting is inverted

  predicate NulFree(s: string) { forall i :: 0 <= i < |s| ==> s[i] != '\0' }

  predicate Plain(s: string) { s != "" && forall i :: 0 <= i < |s| ==> !NeedsQuoting(s[i]) }

  lemma {:induction false} EscapedQuoteReads(rest: string, w: string)
    ensures Words(ESCAPED_QUOTE + rest, Single, Some(w)) == Words(rest, Single, Some(w + "'"))
  {
    var s := ESCAPED_QUOTE + rest;
    assert s[1..][0] == '"' && s[1..][1..] == s[2..];
    assert s[2..][0] == '\'' && s[2..][1..] == s[3..];
    assert s[3..][0] == '"' && s[3..][1..] == s[4..];
    assert s[4..][0] == '\'' && s[4..][1..] == s[5..] == rest;
    assert Words(s, Single, Some(w)) == Words(s[1..], Unquoted, Some(w));
    assert Words(s[1..], Unquoted, Some(w)) == Words(s[2..], Double, Some(w));
    assert Words(s[2..], Double, Some(w)) == Words(s[3..], Double, Some(w + "'"));
    assert Words(s[3..], Double, Some(w + "'")) == Words(s[4..], Unquoted, Some(w + "'"));
  }

  lemma {:induction false} EscapeReads(v: string, rest: string, w: string)
    requires NulFree(v)
    ensures Words(Escape(v) + ("'" + rest), Single, Some(w)) == Words(rest, Unquoted, Some(w + v))
  {
    if v == "" {
      assert Escape(v) + ("'" + rest) == "'" + rest;
      assert ("'" + rest)[1..] == rest && w + v == w;
    } else {
      var tail := Escape(v[1..]) + ("'" + rest);
      EscapeReads(v[1..], rest, w + [v[0]]);
      hide NulFree;
      assert w + [v[0]] + v[1..] == w + v;
      if v[0] == '\'' {
        assert Escape(v) + ("'" + rest) == ESCAPED_QUOTE + tail;
        EscapedQuoteReads(tail, w);
      } else {
        assert Escape(v) + ("'" + rest) == [v[0]] + tail;
        assert ([v[0]] + tail)[1..] == tail;
      }
    }
  }

  /** Whatever the value, reading its quoted form adds exactly the value to the current word. */
  lemma {:induction false} QuoteReads(v: string, rest: string)
    requires NulFree(v)
    ensures Words(ShellQuote(v) + rest, Unquoted, None) == Words(rest, Unquoted, Some(v))
  {
    var s := ShellQuote(v) + rest;
    assert s[1..] == Escape(v) + ("'" + rest);
    EscapeReads(v, rest, "");
    assert "" + v == v;
  }

  lemma {:induction false} PlainReads(p: string, rest: string, word: Option<string>)
    requires Plain(p)
    ensures Words(p + rest, Unquoted, word) == Words(rest, Unquoted, Some(OrEmpty(word) + p))
  {
    var s := p + rest;
    assert s[1..] == p[1..] + rest;
    if |p| > 1 {
      PlainReads(p[1..], rest, Some(OrEmpty(word) + [p[0]]));
      assert OrEmpty(word) + [p[0]] + p[1..] == OrEmpty(word) + p;
    } else {
      assert p[1..] + rest == rest && [p[0]] == p;
    }
  }

  lemma {:induction false} BlankReads(rest: string, word: Option<string>)
    ensures Words(" " + rest, Unquoted, word) == Prepend(word, Words(rest, Unquoted, None))
  {
    assert (" " + rest)[1..] == rest;
  }

  /** A continued line is white space between two words. */
  lemma {:induction false} LineJoinReads(rest: string, word: string)
    ensures Words(LINE_JOIN + ("  " + rest), Unquoted, Some(word)) == Prepend(Some(word), Words(rest, Unquoted, None))
  {
    var s := LINE_JOIN + ("  " + rest);
    assert s == " " + s[1..];
    BlankReads(s[1..], Some(word));
    assert s[1..][0] == '\\' && s[1..][1] == '\n' && s[1..][2..] == " " + (" " + rest);
    BlankReads(" " + rest, None);
    BlankReads(rest, None);
  }

  /** `flag`, a blank, a quoted value: two words. */
  lemma {:induction false} OptionReads(flag: string, v: string, rest: string)
    requires Plain(flag) && NulFree(v)
    ensures Words(flag + (" " + (ShellQuote(v) + rest)), Unquoted, None)
         == Prepend(Some(flag), Words(rest, Unquoted, Some(v)))
  {
    PlainReads(flag, " " + (ShellQuote(v) + rest), None);
    assert "" + flag == flag;
    BlankReads(ShellQuote(v) + rest, Some(flag));
    QuoteReads(v, rest);
  }

  // The fixed words of the command, named so that proofs can treat them as wholes.

  function Curl(): string { "curl" }
  function RequestFlag(): string { "--request" }
  function HeaderFlag(): string { "--header" }
  function BodyFlag(): string { "--data-raw" }

  lemma {:induction false} FlagsPlain()
    ensures Plain(Curl()) && Plain(RequestFlag()) && Plain(HeaderFlag()) && Plain(BodyFlag())
  {
    assert forall i :: 0 <= i < |Curl()| ==> 'a' <= Curl()[i] <= 'z';
    assert forall i :: 0 <= i < |RequestFlag()| ==> 'a' <= RequestFlag()[i] <= 'z' || RequestFlag()[i] == '-';
    assert forall i :: 0 <= i < |HeaderFlag()| ==> 'a' <= HeaderFlag()[i] <= 'z' || HeaderFlag()[i] == '-';
    assert forall i :: 0 <= i < |BodyFlag()| ==> 'a' <= BodyFlag()[i] <= 'z' || BodyFlag()[i] == '-';
  }

  function HeaderWords(headers: seq<Header>): seq<string> {
    if headers == [] then [] else [HeaderFlag(), HeaderText(headers[0])] + HeaderWords(headers[1..])
  }

  function BodyWords(body: Option<string>): seq<string> {
    if body.Some? && body.value != "" then [BodyFlag(), body.value] else []
  }

  function BodyLine(body: Option<string>): string {
    if body.Some? && body.value != "" then LINE_JOIN + "  --data-raw " + ShellQuote(body.value) else ""
  }

  lemma {:induction false} HeaderLinesFront(headers: seq<Header>)
    requires headers != []
    ensures HeaderLines(headers) == LINE_JOIN + HeaderLine(headers[0]) + HeaderLines(headers[1..])
  {
    hide HeaderLine, HeaderLines;
    var n := |headers| - 1;
    HeaderLinesLast(headers);
    if n == 0 {
      assert headers[..0] == [] && headers[1..] == [];
      NoHeaders();
    } else {
      HeaderLinesFront(headers[..n]);
      HeaderLinesLast(headers[1..]);
      assert headers[..n][1..] == headers[1..][..n - 1] && headers[..n][0] == headers[0];
      assert headers[1..][n - 1] == headers[n];
    }
  }

  lemma {:induction false} HeaderLinesLast(headers: seq<Header>)
    requires headers != []
    ensures var n := |headers| - 1;
            HeaderLines(headers) == HeaderLines(headers[..n]) + LINE_JOIN + HeaderLine(headers[n])
  {
  }

  lemma {:induction false} NoHeaders()
    ensures HeaderLines([]) == ""
  {
  }

  lemma {:induction false} BodyShape(quoted: string)
    ensures LINE_JOIN + "  --data-raw " + quoted == LINE_JOIN + ("  " + (BodyFlag() + (" " + (quoted + ""))))
  {
    assert "  --data-raw " == "  " + BodyFlag() + " ";
  }

  lemma {:induction false} HeaderShape(quoted: string, lines: string, end: string)
    ensures LINE_JOIN + ("  --header " + quoted) + lines + end
         == LINE_JOIN + ("  " + (HeaderFlag() + (" " + (quoted + (lines + end)))))
  {
    assert "  --header " == "  " + HeaderFlag() + " ";
  }

  lemma {:induction false} CommandShape(verb: string, quoted: string, lines: string, end: string)
    ensures "curl --request " + verb + " " + quoted + lines + end
         == Curl() + (" " + (RequestFlag() + (" " + (verb + (" " + (quoted + (lines + end)))))))
  {
    assert "curl --request " == Curl() + " " + RequestFlag() + " ";
  }

  lemma {:induction false} BodyReads(body: Option<string>, word: string)
    requires body.Some? ==> NulFree(body.value)
    ensures Words(BodyLine(body), Unquoted, Some(word)) == Some([word] + BodyWords(body))
  {
    hide BodyFlag, Plain, NulFree, ShellQuote, Escape;
    FlagsPlain();
    if body.Some? && body.value != "" {
      BodyShape(ShellQuote(body.value));
      LineJoinReads(BodyFlag() + (" " + (ShellQuote(body.value) + "")), word);
      OptionReads(BodyFlag(), body.value, "");
      assert [body.value] + [] == [body.value];
      assert [BodyFlag()] + [body.value] == BodyWords(body);
    } else {
      assert [word] + BodyWords(body) == [word] && [word] + [] == [word];
    }
  }

  lemma {:induction false} HeadersRead(headers: seq<Header>, body: Option<string>, word: string)
    requires forall h :: h in headers ==> NulFree(HeaderText(h))
    requires body.Some? ==> NulFree(body.value)
    ensures Words(HeaderLines(headers) + BodyLine(body), Unquoted, Some(word))
         == Some([word] + HeaderWords(headers) + BodyWords(body))
    decreases |headers|
  {
    hide Words, HeaderLines, BodyLine, Escape, ShellQuote, Plain, NulFree, BodyWords, HeaderFlag, HeaderText;
    if headers == [] {
      BodyReads(body, word);
      NoHeaderLines();
      assert "" + BodyLine(body) == BodyLine(body);
      assert [word] + HeaderWords(headers) + BodyWords(body) == [word] + BodyWords(body);
    } else {
      FlagsPlain();
      var text, more := HeaderText(headers[0]), HeaderLines(headers[1..]) + BodyLine(body);
      HeaderLinesFront(headers);
      HeaderShape(ShellQuote(text), HeaderLines(headers[1..]), BodyLine(body));
      LineJoinReads(HeaderFlag() + (" " + (ShellQuote(text) + more)), word);
      OptionReads(HeaderFlag(), text, more);
      HeadersRead(headers[1..], body, text);
      assert [word] + ([HeaderFlag()] + ([text] + HeaderWords(headers[1..]) + BodyWords(body)))
          == [word] + HeaderWords(headers) + BodyWords(body);
    }
  }

  lemma {:induction false} NoHeaderLines()
    ensures HeaderLines([]) == ""
  {
  }

  /**
   * The shell reads the snippet as exactly one argument each for method, URL, every header and
   * the body, for all values without NUL and every method that is a plain word.
   */
  lemma {:induction false} SnippetRoundTrips(verb: string, url: string, headers: seq<Header>, body: Option<string>)
    requires Plain(verb) && NulFree(url)
    requires forall h :: h in headers ==> NulFree(HeaderText(h))
    requires body.Some? ==> NulFree(body.value)
    ensures CommandWords(CurlText(verb, url, headers, body))
         == Some([Curl(), RequestFlag(), verb, url] + HeaderWords(headers) + BodyWords(body))
  {
    hide Words, HeaderLines, BodyLine, Escape, ShellQuote, Plain, NulFree, HeaderWords, BodyWords, Curl, RequestFlag;
    FlagsPlain();
    var more := HeaderLines(headers) + BodyLine(body);
    var fromUrl := ShellQuote(url) + more;
    var fromVerb := verb + (" " + fromUrl);
    var fromFlag := RequestFlag() + (" " + fromVerb);
    assert CurlText(verb, url, headers, body) == Curl() + (" " + fromFlag) by {
      CommandShape(verb, ShellQuote(url), HeaderLines(headers), BodyLine(body));
      BodyLineIs(body);
    }
    PlainReads(Curl(), " " + fromFlag, None);
    BlankReads(fromFlag, Some(Curl()));
    PlainReads(RequestFlag(), " " + fromVerb, None);
    BlankReads(fromVerb, Some(RequestFlag()));
    OptionReads(verb, url, more);
    HeadersRead(headers, body, url);
    assert "" + Curl() == Curl() && "" + RequestFlag() == RequestFlag();
    var rest := [url] + HeaderWords(headers) + BodyWords(body);
    assert [Curl()] + ([RequestFlag()] + ([verb] + rest))
        == [Curl(), RequestFlag(), verb, url] + HeaderWords(headers) + BodyWords(body);
  }

  lemma {:induction false} BodyLineIs(body: Option<string>)
    ensures BodyLine(body) ==
              if body.Some? && body.value != "" then LINE_JOIN + "  --data-raw " + ShellQuote(body.value) else ""
  {
  }

  // ---------------------------------------------------------------- word by word, letter by letter

  lemma {:induction false} HeaderWordsAt(headers: seq<Header>, i: nat)
    requires i < |headers|
    ensures |HeaderWords(headers)| == 2 * |headers|
    ensures HeaderWords(headers)[2 * i] == "--header"
    ensures HeaderWords(headers)[2 * i + 1] == headers[i].key + ": " + headers[i].value
  {
    if |headers| > 1 { HeaderWordsAt(headers[1..], if i == 0 then 0 else i - 1); }
  }

  /** Of the words that the shell reads, each is the one it ought to be, in its place. */
  lemma {:induction false} SnippetSays(verb: string, url: string, headers: seq<Header>, body: Option<string>)
    requires Plain(verb) && NulFree(url)
    requires forall h :: h in headers ==> NulFree(h.key) && NulFree(h.value)
    requires body.Some? ==> NulFree(body.value)
    ensures var read := CommandWords(CurlText(verb, url, headers, body));
            var n, sent := 4 + 2 * |headers|, body.Some? && body.value != "";
            && read.Some? && |read.value| == n + (if sent then 2 else 0)
            && read.value[..4] == ["curl", "--request", verb, url]
            && (forall i :: 0 <= i < |headers| ==> OptionAt(read.value, 4 + 2 * i, "--header",
                                                            headers[i].key + ": " + headers[i].value))
            && (sent ==> OptionAt(read.value, n, "--data-raw", body.value))
  {
    hide Words, CurlText, Plain;
    forall h | h in headers ensures NulFree(HeaderText(h)) {
    }
    SnippetRoundTrips(verb, url, headers, body);
    var rest := HeaderWords(headers);
    var words := [Curl(), RequestFlag(), verb, url] + rest + BodyWords(body);
    if headers != [] { HeaderWordsAt(headers, 0); }
    forall i | 0 <= i < |headers|
      ensures OptionAt(words, 4 + 2 * i, "--header", headers[i].key + ": " + headers[i].value)
    {
      HeaderWordsAt(headers, i);
      assert words[4 + 2 * i] == rest[2 * i] && words[5 + 2 * i] == rest[2 * i + 1];
    }
  }

  ghost predicate OptionAt(words: seq<string>, i: nat, flag: string, value: string) {
    i + 1 < |words| && words[i] == flag && words[i + 1] == value
  }

  /** Words of letters and hyphens, as the methods of HTTP are, need no quotes. */
  lemma {:induction false} LettersArePlain(verb: string)
    requires verb != ""
    requires forall i :: 0 <= i < |verb| ==> 'A' <= verb[i] <= 'Z' || verb[i] == '-'
    ensures Plain(verb)
  {
    assert forall c: char :: 'A' <= c <= 'Z' || c == '-' ==> !NeedsQuoting(c);
  }

  /** The text as printed: without headers and body it is one line. */
  lemma {:induction false} FirstLineIsWritten(verb: string, url: string)
    ensures CurlText(verb, url, [], None) == "curl --request " + verb + " '" + Escape(url) + "'"
  {
    hide Escape;
  }

  /** One more header is one more line, quoted as a whole. */
  lemma {:induction false} HeaderIsWritten(verb: string, url: string, headers: seq<Header>, h: Header)
    ensures CurlText(verb, url, headers + [h], None)
         == CurlText(verb, url, headers, None) + (" \\\n  --header '" + Escape(h.key + ": " + h.value) + "'")
  {
    hide HeaderLines, Escape, ShellQuote, HeaderLine;
    assert (headers + [h])[..|headers|] == headers;
    HeaderLinesLast(headers + [h]);
    HeaderLineIsWritten(h);
    CurlTextEnds(verb, url, headers, None);
    CurlTextEnds(verb, url, headers + [h], None);
  }

  lemma {:induction false} HeaderLineIsWritten(h: Header)
    ensures LINE_JOIN + HeaderLine(h) == " \\\n  --header '" + Escape(h.key + ": " + h.value) + "'"
  {
    hide Escape;
  }

  lemma {:induction false} CurlTextEnds(verb: string, url: string, headers: seq<Header>, body: Option<string>)
    ensures CurlText(verb, url, headers, body)
         == ("curl --request " + verb + " " + ShellQuote(url)) + HeaderLines(headers) + BodyLine(body)
  {
    hide HeaderLines, ShellQuote;
    BodyLineIs(body);
    hide BodyLine;
  }

  /** The body is the last line, if it is not empty. */
  lemma {:induction false} BodyIsWritten(verb: string, url: string, headers: seq<Header>, body: string)
    ensures CurlText(verb, url, headers, Some("")) == CurlText(verb, url, headers, None)
    ensures body != "" ==>
              CurlText(verb, url, headers, Some(body))
              == CurlText(verb, url, headers, None) + (" \\\n  --data-raw '" + Escape(body) + "'")
  {
    hide HeaderLines, Escape, CurlText, ShellQuote, BodyLine;
    CurlTextEnds(verb, url, headers, None);
    CurlTextEnds(verb, url, headers, Some(body));
    CurlTextEnds(verb, url, headers, Some(""));
    NoBodyLine();
    if body != "" {
      BodyLineIs(Some(body));
      BodyLineIsWritten(body);
    }
  }

  lemma {:induction false} NoBodyLine()
    ensures BodyLine(None) == "" && BodyLine(Some("")) == ""
  {
  }

  lemma {:induction false} BodyLineIsWritten(body: string)
    ensures LINE_JOIN + "  --data-raw " + ShellQuote(body) == " \\\n  --data-raw '" + Escape(body) + "'"
  {
    hide Escape;
  }

  /** Escaping goes character by character. */
  lemma {:induction false} EscapeAppend(s: string, t: string)
    ensures Escape(s + t) == Escape(s) + Escape(t)
  {
    if s == "" {
      assert s + t == t;
    } else {
      EscapeAppend(s[1..], t);
      assert (s + t)[1..] == s[1..] + t;
      hide ESCAPED_QUOTE;
    }
  }

  /** Of the characters, only the single quote is escaped. */
  lemma {:induction false} EscapeOne(c: char)
    ensures Escape([c]) == if c == '\'' then "'\"'\"'" else [c]
  {
    assert [c][1..] == "" && Escape("") == "";
  }
}
