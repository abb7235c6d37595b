/** Two escape functions, each against the reader that has to undo it: an HTML entity
    decoder, and a shell's quoting rules (sections 2.2 and 2.3 of the Shell Command
    Language volume of IEEE Std 1003.1-2017). */
module Escapes {
  import opened Common

  // `s.replace(c, t)` for a single character.
  function ReplaceChar(s: string, c: char, t: string): string {
    if s == "" then "" else (if s[0] == c then t else [s[0]]) + ReplaceChar(s[1..], c, t)
  }

  lemma {:induction false} ReplaceConcat(a: string, b: string, c: char, t: string)
    ensures ReplaceChar(a + b, c, t) == ReplaceChar(a, c, t) + ReplaceChar(b, c, t)
  {
    if a == "" {
      assert a + b == b;
    } else {
      assert (a + b)[1..] == a[1..] + b;
      ReplaceConcat(a[1..], b, c, t);
    }
  }

  // ------------------------------------------------ HTML

  // `_escape_html`: five replacements in a row.
  function EscapeHtml(s: string): string {
    ReplaceChar(
      ReplaceChar(
        ReplaceChar(
          ReplaceChar(
            ReplaceChar(s, '&', "&amp;"), '<', "&lt;"), '>', "&gt;"), '\"', "&quot;"), '\'', "&#39;")
  }

  function Entity(c: char): string {
    if c == '&' then "&amp;"
    else if c == '<' then "&lt;"
    else if c == '>' then "&gt;"
    else if c == '\"' then "&quot;"
    else if c == '\'' then "&#39;"
    else [c]
  }

  function OnePass(s: string): string {
    if s == "" then "" else Entity(s[0]) + OnePass(s[1..])
  }

  lemma EscapeConcat(a: string, b: string)
    ensures EscapeHtml(a + b) == EscapeHtml(a) + EscapeHtml(b)
  {
    var a1, b1 := ReplaceChar(a, '&', "&amp;"), ReplaceChar(b, '&', "&amp;");
    var a2, b2 := ReplaceChar(a1, '<', "&lt;"), ReplaceChar(b1, '<', "&lt;");
    var a3, b3 := ReplaceChar(a2, '>', "&gt;"), ReplaceChar(b2, '>', "&gt;");
    var a4, b4 := ReplaceChar(a3, '\"', "&quot;"), ReplaceChar(b3, '\"', "&quot;");
    ReplaceConcat(a, b, '&', "&amp;");
    ReplaceConcat(a1, b1, '<', "&lt;");
    ReplaceConcat(a2, b2, '>', "&gt;");
    ReplaceConcat(a3, b3, '\"', "&quot;");
    ReplaceConcat(a4, b4, '\'', "&#39;");
  }

  lemma {:induction false} ReplaceAbsent(s: string, c: char, t: string)
    requires c !in s
    ensures ReplaceChar(s, c, t) == s
  {
    if s == "" {
    } else {
      ReplaceAbsent(s[1..], c, t);
    }
  }

  lemma ReplaceOne(c: char, d: char, t: string)
    ensures ReplaceChar([c], d, t) == if c == d then t else [c]
  {
    assert [c][1..] == "";
  }

  // No later replacement touches what an earlier one wrote.
  lemma WrittenStays(e: string)
    requires e in {"&lt;", "&gt;", "&quot;", "&#39;", "&amp;"}
    ensures ReplaceChar(e, '<', "&lt;") == e && ReplaceChar(e, '>', "&gt;") == e
    ensures ReplaceChar(e, '\"', "&quot;") == e && ReplaceChar(e, '\'', "&#39;") == e
  {
    hide ReplaceChar;
    ReplaceAbsent(e, '<', "&lt;");
    ReplaceAbsent(e, '>', "&gt;");
    ReplaceAbsent(e, '\"', "&quot;");
    ReplaceAbsent(e, '\'', "&#39;");
  }

  lemma EscapeOne(c: char)
    ensures EscapeHtml([c]) == Entity(c)
  {
    hide ReplaceChar;
    ReplaceOne(c, '&', "&amp;");
    ReplaceOne(c, '<', "&lt;");
    ReplaceOne(c, '>', "&gt;");
    ReplaceOne(c, '\"', "&quot;");
    ReplaceOne(c, '\'', "&#39;");
    if Entity(c) != [c] {
      WrittenStays(Entity(c));
    }
  }

  // The chain of replacements is a single pass over the characters.
  lemma {:induction false} EscapeIsOnePass(s: string)
    ensures EscapeHtml(s) == OnePass(s)
  {
    if s == "" {
    } else {
      hide EscapeHtml, Entity;
      EscapeOne(s[0]);
      EscapeIsOnePass(s[1..]);
      EscapeConcat([s[0]], s[1..]);
      assert [s[0]] + s[1..] == s;
    }
  }

  // A reader of character references.
  function UnescapeHtml(s: string): string {
    if s == "" then ""
    else if "&amp;" <= s then "&" + UnescapeHtml(s[5..])
    else if "&lt;" <= s then "<" + UnescapeHtml(s[4..])
    else if "&gt;" <= s then ">" + UnescapeHtml(s[4..])
    else if "&quot;" <= s then "\"" + UnescapeHtml(s[6..])
    else if "&#39;" <= s then "'" + UnescapeHtml(s[5..])
    else [s[0]] + UnescapeHtml(s[1..])
  }

  lemma UnescapeEntity(c: char, rest: string)
    ensures UnescapeHtml(Entity(c) + rest) == [c] + UnescapeHtml(rest)
  {
    var e := Entity(c);
    var s := e + rest;
    assert e <= s && s[|e|..] == rest;
    if c in {'&', '<', '>', '\"', '\''} {
      assert s[0] == '&' && s[1] == e[1] && s[2] == e[2];
    } else {
      assert s[0] == c && c != '&';
    }
  }

  // The escaped text decodes to the original, for every string.
  lemma {:induction false} HtmlRoundTrip(s: string)
    ensures UnescapeHtml(EscapeHtml(s)) == s
    decreases s
  {
    EscapeIsOnePass(s);
    if s == "" {
    } else {
      hide EscapeHtml, UnescapeHtml;
      UnescapeEntity(s[0], OnePass(s[1..]));
      EscapeIsOnePass(s[1..]);
      HtmlRoundTrip(s[1..]);
    }
  }

  const REFERENCES := {"&amp;", "&lt;", "&gt;", "&quot;", "&#39;"}

  ghost predicate ReferenceAt(s: string, i: nat)
    requires i < |s|
  {
    exists e :: e in REFERENCES && e <= s[i..]
  }

  // No character that could open a tag or close an attribute, and no ampersand but those that
  // begin a character reference.
  ghost predicate Harmless(s: string) {
    forall i :: 0 <= i < |s| ==> s[i] !in {'<', '>', '\"', '\''} && (s[i] == '&' ==> ReferenceAt(s, i))
  }

  lemma HarmlessConcat(a: string, b: string)
    requires Harmless(a) && Harmless(b)
    ensures Harmless(a + b)
  {
    var s := a + b;
    forall i | 0 <= i < |s| && s[i] == '&' ensures ReferenceAt(s, i) {
      if i < |a| {
        assert ReferenceAt(a, i);
        var e :| e in REFERENCES && e <= a[i..];
        assert s[i..] == a[i..] + b;
        assert e <= s[i..];
      } else {
        assert ReferenceAt(b, i - |a|);
        assert s[i..] == b[i - |a|..];
      }
    }
  }

  lemma HarmlessEntity(c: char)
    ensures Harmless(Entity(c))
  {
    var e := Entity(c);
    if e in REFERENCES {
      assert e <= e[0..];
      assert ReferenceAt(e, 0);
    }
  }

  // The escaped text is harmless, for every string.
  lemma {:induction false} EscapedIsHarmless(s: string)
    ensures Harmless(EscapeHtml(s))
  {
    EscapeIsOnePass(s);
    if s == "" {
    } else {
      hide EscapeHtml, Harmless, Entity;
      EscapeIsOnePass(s[1..]);
      EscapedIsHarmless(s[1..]);
      HarmlessEntity(s[0]);
      HarmlessConcat(Entity(s[0]), OnePass(s[1..]));
    }
  }

  // ------------------------------------------------ shell

  // `_shell_escape`: a quote becomes quote, double-quoted quote, quote.
  function ShellEscape(s: string): string {
    ReplaceChar(s, '\'', "'\"'\"'")
  }

  // Section 2.2.2: everything up to the next single quote, literally.
  function SingleQuoted(s: string): (r: Option<(string, string)>)
    ensures r.Some? ==> |r.value.1| < |s|
  {
    if s == "" then None
    else if s[0] == '\'' then Some(("", s[1..]))
    else
      match SingleQuoted(s[1..])
      case None => None
      case Some((body, rest)) => Some(([s[0]] + body, rest))
  }

  // Section 2.2.3: the dollar sign and the backquote keep their special meaning and are
  // refused here; a backslash escapes only the five characters listed there.
  function DoubleQuoted(s: string): (r: Option<(string, string)>)
    ensures r.Some? ==> |r.value.1| < |s|
  {
    if s == "" || s[0] in {'$', '`'} then None
    else if s[0] == '\"' then Some(("", s[1..]))
    else if s[0] == '\\' && |s| > 1 && s[1] in {'$', '`', '\"', '\\', '\n'} then
      match DoubleQuoted(s[2..])
      case None => None
      case Some((body, rest)) => Some(((if s[1] == '\n' then "" else [s[1]]) + body, rest))
    else
      match DoubleQuoted(s[1..])
      case None => None
      case Some((body, rest)) => Some(([s[0]] + body, rest))
  }

  datatype Token = Word(text: string) | AndIf

  function Flush(word: Option<string>): seq<Token> {
    match word case None => [] case Some(w) => [Word(w)]
  }

  function Extend(word: Option<string>, more: string): Option<string> {
    match word case None => Some(more) case Some(w) => Some(w + more)
  }

  // Characters that stand for themselves outside quotes wherever they occur in a word.
  predicate IsPlain(c: char) {
    'a' <= c <= 'z' || 'A' <= c <= 'Z' || '0' <= c <= '9' || c in {'_', '=', '-', '.', '/', ',', ':', '@', '%', '+'}
  }

  function Then(tokens: seq<Token>, rest: Option<seq<Token>>): Option<seq<Token>> {
    match rest case None => None case Some(more) => Some(tokens + more)
  }

  // The words and and-lists of a command line; `word` is the word being read. Whatever would
  // be expanded, or is another operator, is refused.
  function Lex(s: string, word: Option<string>): Option<seq<Token>>
    decreases |s|
  {
    if s == "" then Some(Flush(word))
    else if s[0] == '\'' then
      match SingleQuoted(s[1..])
      case None => None
      case Some((body, rest)) => Lex(rest, Extend(word, body))
    else if s[0] == '\"' then
      match DoubleQuoted(s[1..])
      case None => None
      case Some((body, rest)) => Lex(rest, Extend(word, body))
    else if s[0] == '\\' && |s| > 1 then
      Lex(s[2..], if s[1] == '\n' then word else Extend(word, [s[1]]))
    else if s[0] in {' ', '\t'} then Then(Flush(word), Lex(s[1..], None))
    else if s[0] == '&' && |s| > 1 && s[1] == '&' then Then(Flush(word) + [AndIf], Lex(s[2..], None))
    else if IsPlain(s[0]) then Lex(s[1..], Extend(word, [s[0]]))
    else None
  }

  function FirstQuote(s: string): (n: nat)
    ensures n <= |s| && '\'' !in s[..n] && (n < |s| ==> s[n] == '\'')
  {
    if s == "" || s[0] == '\'' then 0 else 1 + FirstQuote(s[1..])
  }

  lemma {:induction false} SingleQuotedStops(body: string, rest: string)
    requires '\'' !in body
    ensures SingleQuoted(body + "'" + rest) == Some((body, rest))
  {
    var s := body + "'" + rest;
    if body == "" {
      assert s[1..] == rest;
    } else {
      SingleQuotedStops(body[1..], rest);
      assert s[1..] == body[1..] + "'" + rest;
      assert [body[0]] + body[1..] == body;
    }
  }

  // Where the quoted text of an escaped string breaks off.
  lemma Pieces(body: string, escaped: string, rest: string, whole: string)
    requires whole == body + ("'\"'\"'" + escaped)
    ensures "'" + whole + "'" + rest == "'" + (body + "'" + ("\"'\"" + ("'" + escaped + "'" + rest)))
  {
    assert "'\"'\"'" == "'" + "\"'\"" + "'";
  }

  // Between the quotes an escaped string reads as the string.
  lemma {:induction false} QuotedReads(v: string, rest: string, word: Option<string>)
    ensures Lex("'" + ShellEscape(v) + "'" + rest, word) == Lex(rest, Extend(word, v))
    decreases |v|
  {
    hide Lex, SingleQuoted, ReplaceChar;
    var n := FirstQuote(v);
    var body := v[..n];
    ReplaceAbsent(body, '\'', "'\"'\"'");
    if n == |v| {
      assert body == v;
      SingleQuotedStops(v, rest);
      OpenQuote(ShellEscape(v) + "'" + rest, v, rest, word);
      assert "'" + (ShellEscape(v) + "'" + rest) == "'" + ShellEscape(v) + "'" + rest;
    } else {
      var w := v[n + 1..];
      assert v == body + ("'" + w);
      ReplaceConcat(body, "'" + w, '\'', "'\"'\"'");
      EscapeQuote(w);
      var tail := "\"'\"" + ("'" + ShellEscape(w) + "'" + rest);
      Pieces(body, ShellEscape(w), rest, ShellEscape(v));
      SingleQuotedStops(body, tail);
      OpenQuote(body + "'" + tail, body, tail, word);
      QuoteInQuotes("'" + ShellEscape(w) + "'" + rest, Extend(word, body));
      QuotedReads(w, rest, Extend(Extend(word, body), "'"));
      ExtendTwice(word, body, "'", w, v);
    }
  }

  lemma EscapeQuote(w: string)
    ensures ReplaceChar("'" + w, '\'', "'\"'\"'") == "'\"'\"'" + ShellEscape(w)
  {
    assert ("'" + w)[1..] == w;
  }

  lemma OpenQuote(s: string, body: string, rest: string, word: Option<string>)
    requires SingleQuoted(s) == Some((body, rest))
    ensures Lex("'" + s, word) == Lex(rest, Extend(word, body))
  {
    assert ("'" + s)[1..] == s;
  }

  // A double-quoted single quote.
  lemma QuoteInQuotes(rest: string, word: Option<string>)
    ensures Lex("\"'\"" + rest, word) == Lex(rest, Extend(word, "'"))
  {
    var s := "\"'\"" + rest;
    var t := s[1..];
    assert t == "'\"" + rest;
    assert t[1..] == "\"" + rest && t[1..][1..] == rest;
    assert DoubleQuoted(t[1..]) == Some(("", rest));
    assert [t[0]] + "" == "'";
    assert DoubleQuoted(t) == Some(("'", rest));
  }

  lemma ExtendTwice(word: Option<string>, a: string, b: string, c: string, abc: string)
    requires abc == a + (b + c)
    ensures Extend(Extend(Extend(word, a), b), c) == Extend(word, abc)
  {
    match word
    case None => assert a + b + c == abc;
    case Some(w) => assert w + a + b + c == w + abc;
  }

  // A single-quoted escaped string is one word: the string itself, for every string.
  lemma ShellRoundTrip(v: string)
    ensures Lex("'" + ShellEscape(v) + "'", None) == Some([Word(v)])
  {
    QuotedReads(v, "", None);
    assert "'" + ShellEscape(v) + "'" + "" == "'" + ShellEscape(v) + "'";
  }

  lemma {:induction false} PlainReads(p: string, rest: string, word: Option<string>)
    requires p != "" && forall i :: 0 <= i < |p| ==> IsPlain(p[i])
    ensures Lex(p + rest, word) == Lex(rest, Extend(word, p))
    decreases |p|
  {
    assert (p + rest)[1..] == p[1..] + rest;
    if |p| == 1 {
      assert p[1..] + rest == rest && [p[0]] == p;
    } else {
      PlainReads(p[1..], rest, Extend(word, [p[0]]));
      ExtendTwice(word, [p[0]], p[1..], "", p);
      match word
      case None => assert [p[0]] + p[1..] == p;
      case Some(w) => assert w + [p[0]] + p[1..] == w + p;
    }
  }

  // ------------------------------------------------ the command that exports the variables

  type Env = seq<(string, string)>

  ghost predicate IsName(k: string) {
    k != "" && forall i :: 0 <= i < |k| ==> IsPlain(k[i]) && k[i] != '='
  }

  function ExportPart(k: string, v: string): string {
    "export " + k + "='" + ShellEscape(v) + "'"
  }

  // ' && '.join(parts)
  function ExportCommand(env: Env): string {
    if env == [] then ""
    else if |env| == 1 then ExportPart(env[0].0, env[0].1)
    else ExportPart(env[0].0, env[0].1) + " && " + ExportCommand(env[1..])
  }

  // One `export` of one assignment per variable, joined by and-lists.
  function ExportTokens(env: Env): seq<Token> {
    if env == [] then []
    else
      var first := [Word("export"), Word(env[0].0 + "=" + env[0].1)];
      if |env| == 1 then first else first + [AndIf] + ExportTokens(env[1..])
  }

  lemma PartReads(k: string, v: string, rest: string)
    requires IsName(k)
    ensures Lex(ExportPart(k, v) + rest, None) == Then([Word("export")], Lex(rest, Some(k + "=" + v)))
  {
    var quoted := "'" + ShellEscape(v) + "'" + rest;
    var assignment := k + "=" + quoted;
    assert ExportPart(k, v) + rest == "export" + (" " + assignment);
    PlainReads("export", " " + assignment, None);
    assert (" " + assignment)[1..] == assignment;
    PlainReads(k + "=", quoted, None);
    QuotedReads(v, rest, Some(k + "="));
  }

  // The shell reads the command as exactly these assignments, whatever the values contain.
  lemma {:induction false} ExportsReadBack(env: Env)
    requires forall i :: 0 <= i < |env| ==> IsName(env[i].0)
    ensures Lex(ExportCommand(env), None) == Some(ExportTokens(env))
  {
    hide Lex, ExportPart;
    if env == [] {
      LexEnd(None);
    } else {
      var (k, v) := env[0];
      var w := k + "=" + v;
      if |env| == 1 {
        PartReads(k, v, "");
        LexEnd(Some(w));
        assert ExportPart(k, v) + "" == ExportPart(k, v);
        assert [Word("export")] + [Word(w)] == [Word("export"), Word(w)];
      } else {
        var rest := env[1..];
        var next, more := ExportCommand(rest), ExportTokens(rest);
        assert forall i :: 0 <= i < |rest| ==> rest[i] == env[i + 1];
        ExportsReadBack(rest);
        assert ExportPart(k, v) + " && " + next == ExportPart(k, v) + (" && " + next);
        PartReads(k, v, " && " + next);
        JoinReads(next, w);
        assert [Word("export")] + ([Word(w), AndIf] + more) == [Word("export"), Word(w)] + [AndIf] + more;
      }
    }
  }

  lemma LexEnd(word: Option<string>)
    ensures Lex("", word) == Some(Flush(word))
  {
  }

  lemma JoinReads(next: string, w: string)
    requires Lex(next, None).Some?
    ensures Lex(" && " + next, Some(w)) == Some([Word(w), AndIf] + Lex(next, None).value)
  {
    var s, t, u := " && " + next, "&& " + next, " " + next;
    assert s[1..] == t && t[2..] == u && u[1..] == next;
    var more := Lex(next, None).value;
    assert [] + more == more;
    assert Lex(u, None) == Some(more);
    assert Flush(None) + [AndIf] == [AndIf];
    assert Lex(t, None) == Some([AndIf] + more);
    assert [Word(w)] + ([AndIf] + more) == [Word(w), AndIf] + more;
  }
}
