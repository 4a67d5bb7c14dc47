/**
  The default test cases of the generated `Test.main` (lib/core.js:45-51 and
  637): the test case text is split at newlines and every line becomes a
  Java string literal through `addQuote`. A line that `JSON.parse` reads as
  a string is kept as it is; any other JSON value is put between quotes
  with every `"` escaped; text that is not JSON makes `JSON.parse` throw.

  `JSON.parse` is not modelled: what it makes of a line is the parameter
  `parse`.
*/
module AddQuoting {
  import opened Base

  /** What `JSON.parse` makes of a line. */
  datatype Parsed = NotJson | JsonString | JsonOther

  /** `json.replace(/"/g, '\\"')`: a backslash before every quote, and nothing else changed. */
  function EscapeQuotes(s: string): (e: string)
    ensures |e| >= |s|
    ensures e == [] <==> s == []
  {
    if s == [] then []
    else (if s[0] == '"' then "\\\"" else [s[0]]) + EscapeQuotes(s[1..])
  }

  /** Reads `\"` back as `"`; every other character stands for itself. */
  function UnescapeQuotes(e: string): string
  {
    if e == [] then []
    else if |e| >= 2 && e[0] == '\\' && e[1] == '"' then "\"" + UnescapeQuotes(e[2..])
    else [e[0]] + UnescapeQuotes(e[1..])
  }

  /** Every quote is preceded by a backslash, so no quote of the text ends the literal early. */
  predicate NoBareQuote(e: string)
  {
    forall k :: 0 <= k < |e| && e[k] == '"' ==> k > 0 && e[k - 1] == '\\'
  }

  /** `addQuote(json)`, with `JSON.parse(json)` given as `parsed`. */
  function AddQuote(json: string, parsed: Parsed): (r: Result<string>)
    ensures r.Err? <==> parsed == NotJson
    ensures r.Err? ==> r.error == SyntaxError
    ensures r.Ok? ==> |r.value| >= |json|
  {
    match parsed
    case NotJson => Err(SyntaxError)
    case JsonString => Ok(json)
    case JsonOther => Ok("\"" + EscapeQuotes(json) + "\"")
  }

  lemma {:induction false} EscapeHead(s: string)
    requires s != []
    ensures EscapeQuotes(s)[0] != '"'
  {
  }

  /** Escaping is undone by reading `\"` back as `"`: the quotes and all other characters survive. */
  lemma {:induction false} EscapeRoundTrip(s: string)
    ensures UnescapeQuotes(EscapeQuotes(s)) == s
  {
    if s != [] {
      var rest := EscapeQuotes(s[1..]);
      EscapeRoundTrip(s[1..]);
      if s[0] == '"' {
        assert EscapeQuotes(s) == "\\\"" + rest;
        assert ("\\\"" + rest)[2..] == rest;
      } else {
        assert EscapeQuotes(s) == [s[0]] + rest;
        assert ([s[0]] + rest)[1..] == rest;
        if rest != [] {
          EscapeHead(s[1..]);
        }
      }
    }
  }

  lemma {:induction false} EscapeNoBareQuote(s: string)
    ensures NoBareQuote(EscapeQuotes(s))
  {
    if s != [] {
      EscapeNoBareQuote(s[1..]);
      var head := if s[0] == '"' then "\\\"" else [s[0]];
      var e := head + EscapeQuotes(s[1..]);
      forall k | 0 <= k < |e| && e[k] == '"'
        ensures k > 0 && e[k - 1] == '\\'
      {
        if k >= |head| {
          assert e[k] == EscapeQuotes(s[1..])[k - |head|];
        }
      }
    }
  }

  /**
    `addQuote`: throws on text that is not JSON; returns a JSON string line
    unchanged; wraps any other line in quotes, with every quote inside
    escaped and nothing else changed.
  */
  lemma AddQuoteCases(json: string, parsed: Parsed)
    ensures AddQuote(json, parsed).Err? <==> parsed == NotJson
    ensures parsed == JsonString ==> AddQuote(json, parsed) == Ok(json)
    ensures parsed == JsonOther ==>
      var lit := AddQuote(json, parsed).value;
      && |lit| >= 2 && lit[0] == '"' && lit[|lit| - 1] == '"'
      && NoBareQuote(lit[1..|lit| - 1])
      && UnescapeQuotes(lit[1..|lit| - 1]) == json
  {
    if parsed == JsonOther {
      var lit := AddQuote(json, parsed).value;
      assert lit[1..|lit| - 1] == EscapeQuotes(json);
      EscapeRoundTrip(json);
      EscapeNoBareQuote(json);
    }
  }

  /** `s.split('\n')`: the pieces between newlines; an empty text is one empty line. */
  function SplitLines(s: string): (lines: seq<string>)
    ensures |lines| >= 1
  {
    if s == [] then [""]
    else if s[0] == '\n' then [""] + SplitLines(s[1..])
    else
      var rest := SplitLines(s[1..]);
      [[s[0]] + rest[0]] + rest[1..]
  }

  /** No line that `SplitLines` gives holds a newline. */
  lemma {:induction false} SplitNoNewline(s: string)
    ensures forall k :: 0 <= k < |SplitLines(s)| ==> '\n' !in SplitLines(s)[k]
  {
    if s != [] {
      var rest := SplitLines(s[1..]);
      SplitNoNewline(s[1..]);
      var lines := SplitLines(s);
      if s[0] != '\n' {
        forall k | 0 <= k < |lines|
          ensures '\n' !in lines[k]
        {
          if k > 0 {
            assert lines[k] == rest[k];
          }
        }
      }
    }
  }

  /** Splitting at newlines loses nothing: the lines hold no newline and joining them with newlines gives the text back. */
  lemma {:induction false} SplitJoin(s: string)
    ensures Join(SplitLines(s), "\n") == s
    ensures forall k :: 0 <= k < |SplitLines(s)| ==> '\n' !in SplitLines(s)[k]
  {
    SplitNoNewline(s);
    if s != [] {
      var rest := SplitLines(s[1..]);
      SplitJoin(s[1..]);
      if s[0] == '\n' {
        JoinEmptyHead(rest, "\n");
      } else {
        JoinExtendHead(s[0], rest, "\n");
      }
      assert s == [s[0]] + s[1..];
    }
  }

  /** An empty first part puts one separator before the rest. */
  lemma JoinEmptyHead(rest: seq<string>, sep: string)
    requires |rest| >= 1
    ensures Join([""] + rest, sep) == sep + Join(rest, sep)
  {
    assert ([""] + rest)[1..] == rest;
  }

  /** A character put before the first part is put before the whole text. */
  lemma JoinExtendHead(c: char, rest: seq<string>, sep: string)
    requires |rest| >= 1
    ensures Join([[c] + rest[0]] + rest[1..], sep) == [c] + Join(rest, sep)
  {
    var parts := [[c] + rest[0]] + rest[1..];
    assert parts[0] == [c] + rest[0] && parts[1..] == rest[1..];
    if |rest| > 1 {
      assert Join(parts, sep) == [c] + rest[0] + sep + Join(rest[1..], sep);
    }
  }

  /** The lines of the test case through `addQuote`, in order; the first that is not JSON throws. */
  function QuoteLines(lines: seq<string>, parse: string -> Parsed): (r: Result<seq<string>>)
    ensures r.Err? ==> r.error == SyntaxError
    ensures r.Ok? ==> |r.value| == |lines|
  {
    if lines == [] then Ok([])
    else
      match AddQuote(lines[0], parse(lines[0]))
      case Err(e) => Err(e)
      case Ok(lit) =>
        match QuoteLines(lines[1..], parse)
        case Err(e) => Err(e)
        case Ok(rest) => Ok([lit] + rest)
  }

  /**
    The initialiser of `testcase` at lib/core.js:637: the quoted lines
    joined with `, `.
  */
  function TestcaseInit(testcase: string, parse: string -> Parsed): (r: Result<string>)
    ensures r.Ok? <==> AllJson(SplitLines(testcase), parse)
    ensures r.Err? ==> r.error == SyntaxError
  {
    var lines := SplitLines(testcase);
    QuoteLinesShape(lines, parse);
    match QuoteLines(lines, parse)
    case Err(e) => Err(e)
    case Ok(lits) => Ok(Join(lits, ", "))
  }

  /** `JSON.parse` takes every line. */
  predicate AllJson(lines: seq<string>, parse: string -> Parsed)
  {
    forall k :: 0 <= k < |lines| ==> parse(lines[k]) != NotJson
  }

  /** One literal per line, each the line through `addQuote`, unless some line is not JSON. */
  lemma {:induction false} QuoteLinesShape(lines: seq<string>, parse: string -> Parsed)
    ensures QuoteLines(lines, parse).Ok? <==> AllJson(lines, parse)
    ensures QuoteLines(lines, parse).Ok? ==>
      |QuoteLines(lines, parse).value| == |lines| &&
      forall k :: 0 <= k < |lines| ==> QuoteLines(lines, parse).value[k] == AddQuote(lines[k], parse(lines[k])).value
  {
    if lines != [] {
      QuoteLinesShape(lines[1..], parse);
      assert forall k :: 0 < k < |lines| ==> lines[k] == lines[1..][k - 1];
    }
  }

  /** The character an escape `\x` of a Java literal stands for, for the escapes modelled here. */
  function Unescaped(x: char): Option<char>
  {
    if x == '"' then Some('"') else if x == '\\' then Some('\\')
    else if x == 'n' then Some('\n') else if x == 'r' then Some('\r')
    else if x == 't' then Some('\t') else None
  }

  /**
    The value of a Java string literal with body `e`, or `None` when `e`
    is not the body of one literal: a bare `"` would end it early, a line
    break may not occur in it, and an escape other than those below is not
    modelled.
  */
  function JavaLiteralValue(e: string): Option<string>
  {
    if e == [] then Some([])
    else if e[0] == '"' || e[0] == '\n' || e[0] == '\r' then None
    else if e[0] != '\\' then
      match JavaLiteralValue(e[1..])
      case None => None
      case Some(v) => Some([e[0]] + v)
    else if |e| < 2 then None
    else
      match Unescaped(e[1])
      case None => None
      case Some(ch) =>
        match JavaLiteralValue(e[2..])
        case None => None
        case Some(v) => Some([ch] + v)
  }

  lemma EscapeCons(c: char, rest: string)
    ensures EscapeQuotes([c] + rest) == (if c == '"' then ['\\', '"'] else [c]) + EscapeQuotes(rest)
  {
    assert ([c] + rest)[1..] == rest;
  }

  /** A character that needs no escape stands for itself in a literal. */
  lemma ValuePlain(c: char, rest: string, v: string)
    requires c != '"' && c != '\n' && c != '\r' && c != '\\'
    requires JavaLiteralValue(rest) == Some(v)
    ensures JavaLiteralValue([c] + rest) == Some([c] + v)
  {
    assert ([c] + rest)[1..] == rest;
  }

  /** An escape `\x` stands for one character in a literal. */
  lemma ValueEscape(x: char, rest: string, v: string)
    requires Unescaped(x).Some?
    requires JavaLiteralValue(rest) == Some(v)
    ensures JavaLiteralValue(['\\', x] + rest) == Some([Unescaped(x).value] + v)
  {
    assert (['\\', x] + rest)[2..] == rest;
  }

  /**
    Read as a Java literal, the escaped text is never longer than the line,
    and it is as long only when the line has no backslash: every backslash
    of the line starts an escape that swallows the next character.
  */
  lemma {:induction false} EscapedValueShrinks(s: string, v: string)
    requires JavaLiteralValue(EscapeQuotes(s)) == Some(v)
    ensures |v| <= |s|
    ensures |v| == |s| ==> '\\' !in s
  {
    if s != [] {
      var r := s[1..];
      var er := EscapeQuotes(r);
      if s[0] == '"' {
        assert EscapeQuotes(s) == ['\\', '"'] + er;
        assert (['\\', '"'] + er)[2..] == er;
        EscapedValueShrinks(r, v[1..]);
      } else if s[0] != '\\' {
        assert EscapeQuotes(s) == [s[0]] + er;
        assert ([s[0]] + er)[1..] == er;
        EscapedValueShrinks(r, v[1..]);
      } else {
        assert EscapeQuotes(s) == ['\\'] + er;
        var e := ['\\'] + er;
        assert |e| >= 2 && Unescaped(e[1]).Some?;
        // after `\\`, an escaped quote would leave a bare `"`: only `r[0] != '"'` decodes
        if r[0] != '"' {
          assert er == [r[0]] + EscapeQuotes(r[1..]);
          assert e[2..] == EscapeQuotes(r[1..]);
          EscapedValueShrinks(r[1..], v[1..]);
        }
      }
    }
  }

  /**
    Backslashes are not escaped: for any line holding a backslash that is
    not a JSON string, the Java value of the literal `addQuote` builds is
    not the line (or the text is no single literal at all), so the harness
    runs a different test case. The line `["\\"]` is one.
  */
  lemma BackslashLost(json: string)
    requires '\\' in json
    ensures AddQuote(json, JsonOther).Ok?
    ensures var lit := AddQuote(json, JsonOther).value;
      |lit| >= 2 && JavaLiteralValue(lit[1..|lit| - 1]) != Some(json)
  {
    var lit := AddQuote(json, JsonOther).value;
    assert lit[1..|lit| - 1] == EscapeQuotes(json);
    if JavaLiteralValue(EscapeQuotes(json)) == Some(json) {
      EscapedValueShrinks(json, json);
    }
  }

  /** `json.replace(/[\\"\r\n]/g, ...)`: backslashes, quotes and line breaks all escaped. */
  function EscapeJava(s: string): string
  {
    if s == [] then []
    else
      (if s[0] == '"' then "\\\"" else if s[0] == '\\' then "\\\\"
       else if s[0] == '\n' then "\\n" else if s[0] == '\r' then "\\r" else [s[0]])
      + EscapeJava(s[1..])
  }

  /** `addQuote` with every character Java treats specially escaped. */
  function AddQuoteEscaped(json: string, parsed: Parsed): Result<string>
  {
    match parsed
    case NotJson => Err(SyntaxError)
    case JsonString => Ok(json)
    case JsonOther => Ok("\"" + EscapeJava(json) + "\"")
  }

  /** With backslashes escaped too, the Java value of the literal is exactly the line. */
  lemma {:induction false} EscapeJavaRoundTrip(s: string)
    ensures JavaLiteralValue(EscapeJava(s)) == Some(s)
  {
    if s != [] {
      EscapeJavaRoundTrip(s[1..]);
      var rest := EscapeJava(s[1..]);
      assert s == [s[0]] + s[1..];
      if s[0] == '"' || s[0] == '\\' || s[0] == '\n' || s[0] == '\r' {
        var x := if s[0] == '\n' then 'n' else if s[0] == '\r' then 'r' else s[0];
        assert EscapeJava(s) == ['\\', x] + rest;
        ValueEscape(x, rest, s[1..]);
      } else {
        assert EscapeJava(s) == [s[0]] + rest;
        ValuePlain(s[0], rest, s[1..]);
      }
    }
  }

  lemma AddQuoteEscapedValue(json: string)
    ensures AddQuoteEscaped(json, JsonOther).Ok?
    ensures var lit := AddQuoteEscaped(json, JsonOther).value;
      |lit| >= 2 && lit[0] == '"' && lit[|lit| - 1] == '"' && JavaLiteralValue(lit[1..|lit| - 1]) == Some(json)
  {
    var lit := AddQuoteEscaped(json, JsonOther).value;
    assert lit[1..|lit| - 1] == EscapeJava(json);
    EscapeJavaRoundTrip(json);
  }
}
