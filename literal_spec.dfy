/**
  The test-case literal grammar read by the generated Java class
  `TestCaseParser` (lib/core.js:652-758), stated as functions of the input
  string and the cursor position `curPos` before the call. Each function
  returns the parsed value together with the new cursor, or the exception
  the Java code would throw.

  Escapes are those of the Java text after template unescaping: the
  character tested at lib/core.js:663 is one backslash.
*/
module LiteralSpec {
  import opened Base

  /** What `parseList` puts in its `List<Object>`: null, an Integer or Double (kept as its token text), a String, a nested list. */
  datatype Value = Null | Num(token: string, isFloating: bool) | Str(text: string) | List(items: seq<Value>)

  /**
    What `instanceof Integer` and the cast `(Integer)` see in an element: the
    `int` of an integral token. `parseNumber` only returns integral tokens that
    `Integer.parseInt` took (`NumberAtSound`).
  */
  function IntegerValue(v: Value): (n: Option<int>)
    ensures n.Some? ==> v.Num? && !v.isFloating && InInt32(n.value)
  {
    if v.Num? && !v.isFloating then JavaParseInt(v.token) else None
  }

  /** `r` is a success carrying `v` and the cursor `e`. */
  predicate Yields<T(==)>(r: Result<(T, nat)>, v: T, e: nat)
  {
    r.Ok? && r.value.0 == v && r.value.1 == e
  }

  /** `r` is a success carrying the cursor `e`. */
  predicate SkipsTo(r: Result<nat>, e: nat)
  {
    r.Ok? && r.value == e
  }

  /** Position `p` of `s` spells out `x`. */
  predicate At(s: string, p: nat, x: string)
  {
    p + |x| <= |s| && forall k :: 0 <= k < |x| ==> s[p + k] == x[k]
  }

  lemma AtConcat(s: string, p: nat, x: string, y: string)
    requires At(s, p, x + y)
    ensures At(s, p, x) && At(s, p + |x|, y)
  {
    forall k | 0 <= k < |x| ensures s[p + k] == x[k] {
      assert (x + y)[k] == x[k];
    }
    forall k | 0 <= k < |y| ensures s[p + |x| + k] == y[k] {
      assert (x + y)[|x| + k] == y[k];
    }
  }

  lemma AtHead(s: string, p: nat, x: string)
    requires At(s, p, x) && |x| > 0
    ensures p < |s| && s[p] == x[0]
  {
    assert s[p + 0] == x[0];
  }

  // ---------------------------------------------------------------------------
  // parseString (lib/core.js:655-693)
  // ---------------------------------------------------------------------------

  /** The text appended for the character after a backslash; the `'\\'` case at lib/core.js:673 is kept although it is never reached. */
  function EscapeTarget(c: char): string
  {
    match c
    case '"' => "\""
    case '\\' => "\\"
    case 't' => "\t"
    case 'n' => "\n"
    case _ => ""
  }

  /**
    The loop of `parseString` from index `i` with the escape flag and the text
    so far: the decoded text and the index of the closing quote, if any.
  */
  function StringScan(s: string, i: nat, escape: bool, acc: string): (r: (string, Option<nat>))
    requires i <= |s|
    decreases |s| - i
    ensures r.1.Some? ==> i <= r.1.value < |s| && s[r.1.value] == '"'
    ensures '\\' !in acc ==> '\\' !in r.0
  {
    if i == |s| then (acc, None)
    else if s[i] == '\\' then StringScan(s, i + 1, true, acc)
    else if escape then StringScan(s, i + 1, false, acc + EscapeTarget(s[i]))
    else if s[i] == '"' then (acc, Some(i))
    else StringScan(s, i + 1, false, acc + [s[i]])
  }

  /**
    Index `k` holds a quote that ends the string scanned from `i`: it is not
    escaped, that is the character before it is no backslash (at `i` itself,
    the escape flag the scan starts with decides). Every backslash sets the
    flag and every other character clears it, so this is the flag's value.
  */
  predicate Closes(s: string, i: nat, escape: bool, k: nat)
  {
    i <= k < |s| && s[k] == '"' && !(if k == i then escape else s[k - 1] == '\\')
  }

  /**
    The scan stops at the first quote that no backslash escapes, and finds
    none exactly when there is none.
  */
  lemma {:induction false} StringScanCloses(s: string, i: nat, escape: bool, acc: string)
    requires i <= |s|
    ensures match StringScan(s, i, escape, acc).1
      case Some(k) => Closes(s, i, escape, k) && forall m :: i <= m < k ==> !Closes(s, i, escape, m)
      case None => forall m :: i <= m < |s| ==> !Closes(s, i, escape, m)
    decreases |s| - i
  {
    if i < |s| && !(s[i] == '"' && !escape) {
      var e := s[i] == '\\';
      var a := if s[i] == '\\' then acc else if escape then acc + EscapeTarget(s[i]) else acc + [s[i]];
      assert StringScan(s, i, escape, acc) == StringScan(s, i + 1, e, a);
      StringScanCloses(s, i + 1, e, a);
      assert !Closes(s, i, escape, i);
      assert forall m :: i + 1 <= m ==> (Closes(s, i, escape, m) <==> Closes(s, i + 1, e, m));
    }
  }

  /** A backslash followed by a character other than a quote, `t`, `n` or a backslash adds nothing. */
  lemma ScanDropsUnknownEscape(s: string, i: nat, escape: bool, acc: string)
    requires i + 1 < |s| && s[i] == '\\'
    requires s[i + 1] !in {'"', 't', 'n', '\\'}
    ensures StringScan(s, i, escape, acc) == StringScan(s, i + 2, false, acc)
  {
    assert StringScan(s, i + 1, true, acc) == StringScan(s, i + 2, false, acc + EscapeTarget(s[i + 1]));
    assert acc + EscapeTarget(s[i + 1]) == acc;
  }

  /** `\\` adds nothing: the second backslash only escapes the character after it. */
  lemma ScanDoubleBackslash(s: string, i: nat, escape: bool, acc: string)
    requires i + 1 < |s| && s[i] == '\\' && s[i + 1] == '\\'
    ensures StringScan(s, i, escape, acc) == StringScan(s, i + 1, true, acc)
  {
  }

  /** So `\\"` adds a quote and does not end the string. */
  lemma ScanBackslashesQuote(s: string, i: nat, escape: bool, acc: string)
    requires i + 2 < |s| && s[i] == '\\' && s[i + 1] == '\\' && s[i + 2] == '"'
    ensures StringScan(s, i, escape, acc) == StringScan(s, i + 3, false, acc + "\"")
  {
    assert StringScan(s, i + 1, true, acc) == StringScan(s, i + 2, true, acc);
  }

  /**
    `parseString` called with the cursor at `p` (the opening quote): the
    decoded text and the cursor afterwards.
  */
  function StringAt(s: string, p: nat): (r: (string, nat))
    ensures r.1 > p
    ensures p < |s| ==> r.1 <= |s|
    ensures p + 1 >= |s| ==> r == (s, p + 1)
    ensures p + 1 < |s| ==> '\\' !in r.0
    ensures p + 1 < |s| && r.1 != p + 1 ==> p + 1 < r.1 && s[r.1 - 1] == '"'
  {
    var q := p + 1;
    if q >= |s| then (s, q)
    else
      var (text, close) := StringScan(s, q, false, []);
      (text, if close.Some? then close.value + 1 else q)
  }

  /**
    After `parseString` with the opening quote at `q - 1`, the cursor is
    just past the first quote that no backslash escapes, or stays at `q`
    when there is no such quote.
  */
  lemma StringAtCloses(s: string, q: nat)
    requires 1 <= q < |s|
    ensures StringAt(s, q - 1).1 == q <==> forall m :: q <= m < |s| ==> !Closes(s, q, false, m)
    ensures StringAt(s, q - 1).1 != q ==>
      Closes(s, q, false, StringAt(s, q - 1).1 - 1) &&
      forall m :: q <= m < StringAt(s, q - 1).1 - 1 ==> !Closes(s, q, false, m)
  {
    StringScanCloses(s, q, false, []);
  }

  // ---------------------------------------------------------------------------
  // parseNumber (lib/core.js:695-717)
  // ---------------------------------------------------------------------------

  /** `Character.isDigit(ch) || ch == '.'`, on ASCII digits. */
  predicate IsNumChar(c: char) { IsDigit(c) || c == '.' }

  predicate AllNumChars(run: string) { forall i :: 0 <= i < |run| ==> IsNumChar(run[i]) }

  predicate HasDigit(t: string) { exists i :: 0 <= i < |t| && IsDigit(t[i]) }

  /** The maximal run of digits and dots starting at `q`. */
  function RunText(s: string, q: nat): (run: string)
    requires q <= |s|
    decreases |s| - q
    ensures At(s, q, run) && AllNumChars(run)
    ensures q + |run| == |s| || !IsNumChar(s[q + |run|])
  {
    if q < |s| && IsNumChar(s[q]) then
      var rest := RunText(s, q + 1);
      var run := [s[q]] + rest;
      assert forall k :: 1 <= k < |run| ==> run[k] == rest[k - 1];
      run
    else []
  }

  /** The run is determined by the text it spells and the character after it. */
  lemma {:induction false} RunTextIs(s: string, q: nat, run: string)
    requires At(s, q, run) && AllNumChars(run)
    requires q + |run| == |s| || !IsNumChar(s[q + |run|])
    ensures RunText(s, q) == run
    decreases |run|
  {
    if run != [] {
      AtHead(s, q, run);
      assert run == [run[0]] + run[1..];
      AtConcat(s, q, [run[0]], run[1..]);
      RunTextIs(s, q + 1, run[1..]);
    }
  }

  function DotCount(s: string): nat
  {
    if s == [] then 0 else (if s[0] == '.' then 1 else 0) + DotCount(s[1..])
  }

  /** `Double.parseDouble` on a run of digits and dots succeeds exactly when there is one dot and at least one digit. */
  predicate ParsesAsDouble(run: string)
  {
    DotCount(run) == 1 && |run| >= 2
  }

  /** A token without its leading `-`. */
  function Unsigned(t: string): string
  {
    if |t| > 0 && t[0] == '-' then t[1..] else t
  }

  /**
    The tokens `parseNumber` accepts, independently of any cursor: an optional
    `-`, then digits and dots; with a dot, exactly one dot and a digit; without,
    an `int` that `Integer.parseInt` takes.
  */
  predicate ValidNumberToken(t: string)
  {
    AllNumChars(Unsigned(t)) && if '.' in t then ParsesAsDouble(Unsigned(t)) else JavaParseInt(t).Some?
  }

  /** The kept sign: `-` stays in the token, `+` is dropped. */
  function SignText(s: string, p: nat): (sign: string)
    requires p < |s|
    ensures sign == "" || sign == "-"
  {
    if s[p] == '-' then "-" else ""
  }

  /** The index after the optional sign at `p`. */
  function SignEnd(s: string, p: nat): (q: nat)
    requires p < |s|
    ensures q == p || q == p + 1
  {
    if s[p] == '-' || s[p] == '+' then p + 1 else p
  }

  /**
    `parseNumber` with the cursor at `p`: the token is the kept `-` (a `+` is
    dropped) followed by the maximal run of digits and dots; it is a Double when
    it holds a dot and an Integer otherwise. `charAt` past the end throws, and
    so do `Integer.parseInt` and `Double.parseDouble` on a malformed token.
  */
  function NumberAt(s: string, p: nat): (r: Result<(Value, nat)>)
    ensures r.Ok? ==> p < r.value.1 <= |s| && r.value.0.Num?
  {
    if p >= |s| then Err(StringIndexOutOfBounds)
    else
      var q := SignEnd(s, p);
      var run := RunText(s, q);
      var token := SignText(s, p) + run;
      if '.' in token then
        if ParsesAsDouble(run) then Ok((Num(token, true), q + |run|)) else Err(NumberFormat)
      else if JavaParseInt(token).Some? then Ok((Num(token, false), q + |run|))
      else Err(NumberFormat)
  }

  /**
    Every token `parseNumber` returns is well formed, is floating exactly when
    it holds a dot, and holds a digit: an empty run or a lone sign throws.
  */
  lemma NumberAtSound(s: string, p: nat)
    requires NumberAt(s, p).Ok?
    ensures ValidNumberToken(NumberAt(s, p).value.0.token)
    ensures NumberAt(s, p).value.0.isFloating <==> '.' in NumberAt(s, p).value.0.token
    ensures HasDigit(NumberAt(s, p).value.0.token)
  {
    var sign, run := SignText(s, p), RunText(s, SignEnd(s, p));
    TokenParts(sign, run);
    if '.' in run {
      var i := DoubleRunHasDigit(run);
      assert (sign + run)[|sign| + i] == run[i];
    } else {
      IntTokenEndsInDigit(sign + run);
    }
  }

  lemma TokenParts(sign: string, run: string)
    requires sign == "" || sign == "-"
    requires AllNumChars(run)
    ensures Unsigned(sign + run) == run
    ensures '.' in sign + run <==> '.' in run
  {
    if sign == "-" { assert (sign + run)[1..] == run; } else { assert sign + run == run; }
  }

  lemma IntTokenEndsInDigit(token: string)
    requires JavaParseInt(token).Some?
    ensures HasDigit(token)
  {
    assert IsDigit(token[|token| - 1]);
  }

  /** A run that `Double.parseDouble` accepts holds a digit. */
  lemma DoubleRunHasDigit(run: string) returns (i: nat)
    requires AllNumChars(run)
    requires ParsesAsDouble(run)
    ensures i < |run| && IsDigit(run[i])
  {
    if forall j :: 0 <= j < |run| ==> run[j] == '.' {
      AllDotsCount(run);
    }
    i :| 0 <= i < |run| && run[i] != '.';
  }

  lemma {:induction false} AllDotsCount(s: string)
    requires forall i :: 0 <= i < |s| ==> s[i] == '.'
    ensures DotCount(s) == |s|
  {
    if s != [] { AllDotsCount(s[1..]); }
  }

  // ---------------------------------------------------------------------------
  // parseList (lib/core.js:719-757)
  // ---------------------------------------------------------------------------

  predicate IsBlank(c: char) { c == '\r' || c == '\n' || c == '\t' || c == ' ' }

  /** `while (str.charAt(curPos) == ' ') curPos++;`: the first non-space at or after `q`; running off the end throws. */
  function SkipSpaces(s: string, q: nat): (r: Result<nat>)
    decreases |s| - q
    ensures r.Ok? ==> q <= r.value < |s| && s[r.value] != ' '
    ensures r.Ok? ==> forall k :: q <= k < r.value ==> s[k] == ' '
    ensures r.Err? ==> r.error == StringIndexOutOfBounds && forall k :: q <= k < |s| ==> s[k] == ' '
  {
    if q >= |s| then Err(StringIndexOutOfBounds)
    else if s[q] == ' ' then SkipSpaces(s, q + 1)
    else Ok(q)
  }

  /**
    The `null` probe of lib/core.js:729-730: the `&&` chain reads up to three
    characters past `q` and throws when it reaches the end first.
  */
  function NullAt(s: string, q: nat): (r: Result<bool>)
    requires q < |s|
    ensures (r.Ok? && r.value) <==> At(s, q, "null")
    ensures r.Err? <==> q + 4 > |s| && At(s, q, "null"[..|s| - q])
  {
    NullSpelled(s, q);
    if s[q] != 'n' then Ok(false)
    else if q + 1 >= |s| then Err(StringIndexOutOfBounds)
    else if s[q + 1] != 'u' then Ok(false)
    else if q + 2 >= |s| then Err(StringIndexOutOfBounds)
    else if s[q + 2] != 'l' then Ok(false)
    else if q + 3 >= |s| then Err(StringIndexOutOfBounds)
    else Ok(s[q + 3] == 'l')
  }

  /** Position `q` spells `null`, or a prefix of it that reaches the end of `s`, character by character. */
  lemma NullSpelled(s: string, q: nat)
    requires q < |s|
    ensures At(s, q, "null") <==>
      q + 4 <= |s| && s[q] == 'n' && s[q + 1] == 'u' && s[q + 2] == 'l' && s[q + 3] == 'l'
    ensures q + 4 > |s| ==> (At(s, q, "null"[..|s| - q]) <==>
      s[q] == 'n' && (q + 1 < |s| ==> s[q + 1] == 'u') && (q + 2 < |s| ==> s[q + 2] == 'l'))
  {
    if At(s, q, "null") {
      assert s[q + 0] == "null"[0] && s[q + 1] == "null"[1];
      assert s[q + 2] == "null"[2] && s[q + 3] == "null"[3];
    }
    if q + 4 > |s| && At(s, q, "null"[..|s| - q]) {
      var pre := "null"[..|s| - q];
      assert s[q + 0] == pre[0];
      if q + 1 < |s| { assert s[q + 1] == pre[1]; }
      if q + 2 < |s| { assert s[q + 2] == pre[2]; }
    }
  }

  /**
    `parseList` with the cursor at `p` (the opening bracket): the elements and
    the cursor afterwards. When the bracket is the last character the list is
    empty.
  */
  function ListAt(s: string, p: nat): (r: Result<(seq<Value>, nat)>)
    decreases |s| - p, 0
    ensures r.Ok? ==> p < r.value.1 && (p < |s| ==> r.value.1 <= |s|)
  {
    var q := p + 1;
    if q >= |s| then Ok(([], q))
    else
      match SkipSpaces(s, q)
      case Err(e) => Err(e)
      case Ok(q') => ListLoop(s, q', [])
  }

  /** What one pass of the loop body of `parseList` does: add an element, skip a separator, or leave the loop. */
  datatype Step = Element(value: Value, next: nat) | Separator(next: nat) | Close(next: nat)

  /**
    One pass of the `while (curPos < str.length())` body of `parseList` with
    the cursor at `q`, tested in the order of lib/core.js:729-756: `null`, a
    comma and the spaces after it, a nested list, the closing bracket, a
    string, a blank, and otherwise a number.
  */
  function StepAt(s: string, q: nat): (r: Result<Step>)
    requires q < |s|
    decreases |s| - q, 1
    ensures r.Ok? ==> q < r.value.next <= |s|
  {
    match NullAt(s, q)
    case Err(e) => Err(e)
    case Ok(isNull) =>
      if isNull then Ok(Element(Null, q + 4))
      else if s[q] == ',' then
        match SkipSpaces(s, q + 1)
        case Err(e) => Err(e)
        case Ok(q') => Ok(Separator(q'))
      else if s[q] == '[' then
        match ListAt(s, q)
        case Err(e) => Err(e)
        case Ok((items, q')) => Ok(Element(List(items), q'))
      else if s[q] == ']' then Ok(Close(q + 1))
      else if s[q] == '"' then
        var (text, q') := StringAt(s, q);
        Ok(Element(Str(text), q'))
      else if IsBlank(s[q]) then Ok(Separator(q + 1))
      else
        match NumberAt(s, q)
        case Err(e) => Err(e)
        case Ok((v, q')) => Ok(Element(v, q'))
  }

  /**
    The loop of `parseList` with the cursor at `q` and the elements `acc`
    collected so far. Every pass moves the cursor forward or throws; the end
    of input returns what was collected.
  */
  function ListLoop(s: string, q: nat, acc: seq<Value>): (r: Result<(seq<Value>, nat)>)
    requires q <= |s|
    decreases |s| - q, 2
    ensures r.Ok? ==> q <= r.value.1 <= |s|
  {
    if q == |s| then Ok((acc, q))
    else
      match StepAt(s, q)
      case Err(e) => Err(e)
      case Ok(Element(v, q')) => ListLoop(s, q', acc + [v])
      case Ok(Separator(q')) => ListLoop(s, q', acc)
      case Ok(Close(q')) => Ok((acc, q'))
  }

  // ---------------------------------------------------------------------------
  // Writing a value back as a literal, and reading it again
  // ---------------------------------------------------------------------------

  /** The escape that `parseString` turns back into `c`. */
  function EscapeChar(c: char): string
  {
    if c == '"' then "\\\"" else if c == '\t' then "\\t" else if c == '\n' then "\\n" else [c]
  }

  function Escape(x: string): string
  {
    if x == [] then [] else EscapeChar(x[0]) + Escape(x[1..])
  }

  /**
    Values that have a literal: numbers whose token `parseNumber` accepts, and
    strings without a backslash, since no escape decodes to one.
  */
  predicate WellFormed(v: Value)
    decreases v, 1
  {
    match v
    case Null => true
    case Num(t, f) => ValidNumberToken(t) && f == ('.' in t)
    case Str(x) => '\\' !in x
    case List(items) => AllWellFormed(items)
  }

  predicate AllWellFormed(items: seq<Value>)
    decreases items, 0
  {
    items == [] || (WellFormed(items[0]) && AllWellFormed(items[1..]))
  }

  /** A literal for `v`, with `pad` spaces after each opening bracket and each comma. */
  function Serialize(v: Value, pad: nat): string
    decreases v, 1
  {
    match v
    case Null => "null"
    case Num(t, _) => t
    case Str(x) => "\"" + (Escape(x) + "\"")
    case List(items) => "[" + (Spaces(pad) + (SerializeItems(items, pad) + "]"))
  }

  function SerializeItems(items: seq<Value>, pad: nat): string
    decreases items, 0
  {
    if items == [] then ""
    else if |items| == 1 then Serialize(items[0], pad)
    else Serialize(items[0], pad) + ("," + (Spaces(pad) + SerializeItems(items[1..], pad)))
  }

  /** The characters a literal can start with. */
  predicate StartsElement(c: char)
  {
    c == 'n' || c == '"' || c == '[' || c == '-' || IsNumChar(c)
  }

  lemma SerializeHead(v: Value, pad: nat)
    requires WellFormed(v)
    ensures |Serialize(v, pad)| > 0 && StartsElement(Serialize(v, pad)[0])
  {
    if v.Num? {
      assert Unsigned(v.token) == v.token ==> v.token[0] == Unsigned(v.token)[0];
    }
  }

  lemma SerializeItemsHead(items: seq<Value>, pad: nat)
    requires |items| > 0 && WellFormed(items[0])
    ensures |SerializeItems(items, pad)| > 0
    ensures SerializeItems(items, pad)[0] == Serialize(items[0], pad)[0]
    ensures StartsElement(SerializeItems(items, pad)[0])
  {
    SerializeHead(items[0], pad);
  }

  lemma {:induction false} SkipSpacesIs(s: string, q: nat, n: nat)
    requires q + n < |s| && s[q + n] != ' '
    requires forall k :: q <= k < q + n ==> s[k] == ' '
    ensures SkipsTo(SkipSpaces(s, q), q + n)
    decreases n
  {
    if n > 0 { SkipSpacesIs(s, q + 1, n - 1); }
  }

  lemma {:induction false} ScanEscaped(s: string, i: nat, x: string, acc: string)
    requires '\\' !in x
    requires At(s, i, Escape(x))
    requires i + |Escape(x)| < |s| && s[i + |Escape(x)|] == '"'
    ensures StringScan(s, i, false, acc).0 == acc + x
    ensures StringScan(s, i, false, acc).1 == Some(i + |Escape(x)|)
    decreases |x|
  {
    if x == [] {
      assert acc + x == acc;
    } else {
      var c, e := x[0], EscapeChar(x[0]);
      AtConcat(s, i, e, Escape(x[1..]));
      assert c != '\\' by { assert c in x; }
      ScanChar(s, i, c, acc);
      assert '\\' !in x[1..];
      ScanEscaped(s, i + |e|, x[1..], acc + [c]);
      assert acc + [c] + x[1..] == acc + x;
    }
  }

  /** The loop of `parseString` decodes the escape of one character. */
  lemma ScanChar(s: string, i: nat, c: char, acc: string)
    requires c != '\\' && At(s, i, EscapeChar(c))
    ensures StringScan(s, i, false, acc) == StringScan(s, i + |EscapeChar(c)|, false, acc + [c])
  {
    var e := EscapeChar(c);
    AtHead(s, i, e);
    if |e| == 2 {
      assert s[i + 1] == e[1];
      assert EscapeTarget(e[1]) == [c];
    }
  }

  /** `parseString` decodes what `Escape` encodes. */
  lemma StringRoundTrip(s: string, p: nat, x: string)
    requires '\\' !in x
    requires At(s, p, "\"" + (Escape(x) + "\""))
    ensures StringAt(s, p).0 == x && StringAt(s, p).1 == p + |Escape(x)| + 2
  {
    AtConcat(s, p, "\"", Escape(x) + "\"");
    AtConcat(s, p + 1, Escape(x), "\"");
    AtHead(s, p + 1 + |Escape(x)|, "\"");
    ScanEscaped(s, p + 1, x, []);
    assert [] + x == x;
  }

  lemma ValidTokenHead(t: string)
    requires ValidNumberToken(t)
    ensures |t| > 0 && (t[0] == '-' || IsNumChar(t[0]))
  {
    if t != [] && t[0] != '-' { assert Unsigned(t) == t; }
  }

  /** `parseNumber` reads back any token it accepts, when no digit or dot follows the token. */
  lemma NumberRoundTrip(s: string, p: nat, t: string)
    requires ValidNumberToken(t)
    requires At(s, p, t)
    requires p + |t| == |s| || !IsNumChar(s[p + |t|])
    ensures Yields(NumberAt(s, p), Num(t, '.' in t), p + |t|)
  {
    ValidTokenHead(t);
    SignSplit(s, p, t);
    var q, run := SignEnd(s, p), Unsigned(t);
    RunTextIs(s, q, run);
    NumberAtToken(s, p, q, run, t);
  }

  /** Where the sign of a token ends and its run of digits and dots begins. */
  lemma SignSplit(s: string, p: nat, t: string)
    requires |t| > 0 && (t[0] == '-' || IsNumChar(t[0]))
    requires At(s, p, t)
    ensures p < |s| && SignEnd(s, p) + |Unsigned(t)| == p + |t|
    ensures At(s, SignEnd(s, p), Unsigned(t))
    ensures t == SignText(s, p) + Unsigned(t)
  {
    AtHead(s, p, t);
    if t[0] == '-' {
      assert t == [t[0]] + t[1..];
      AtConcat(s, p, [t[0]], t[1..]);
    }
  }

  lemma NumberAtToken(s: string, p: nat, q: nat, run: string, t: string)
    requires p < |s| && q == SignEnd(s, p) && run == RunText(s, q)
    requires t == SignText(s, p) + run && Unsigned(t) == run
    requires ValidNumberToken(t)
    ensures Yields(NumberAt(s, p), Num(t, '.' in t), q + |run|)
  {
    if '.' in t {
      NumberAtDouble(s, p, q, run, t);
    } else {
      NumberAtInt(s, p, q, run, t);
    }
  }

  lemma NumberAtDouble(s: string, p: nat, q: nat, run: string, t: string)
    requires p < |s| && q == SignEnd(s, p) && run == RunText(s, q)
    requires t == SignText(s, p) + run
    requires '.' in t && ParsesAsDouble(run)
    ensures Yields(NumberAt(s, p), Num(t, true), q + |run|)
  {
  }

  lemma NumberAtInt(s: string, p: nat, q: nat, run: string, t: string)
    requires p < |s| && q == SignEnd(s, p) && run == RunText(s, q)
    requires t == SignText(s, p) + run
    requires '.' !in t && JavaParseInt(t).Some?
    ensures Yields(NumberAt(s, p), Num(t, false), q + |run|)
  {
  }

  /** `r` is a successful pass of the loop body ending in `st`. */
  predicate StepsTo(r: Result<Step>, st: Step)
  {
    r.Ok? && r.value == st
  }

  // One pass of the loop body of `parseList` on each kind of input.

  lemma StepNull(s: string, q: nat)
    requires At(s, q, "null")
    ensures StepsTo(StepAt(s, q), Element(Null, q + 4))
  {
    AtHead(s, q, "null");
  }

  lemma StepNumber(s: string, q: nat, v: Value, e: nat)
    requires q < |s| && (s[q] == '-' || IsNumChar(s[q]))
    requires Yields(NumberAt(s, q), v, e)
    ensures StepsTo(StepAt(s, q), Element(v, e))
  {
    assert NullAt(s, q) == Ok(false);
    assert !IsBlank(s[q]);
    assert s[q] != ',' && s[q] != '[' && s[q] != ']' && s[q] != '"';
  }

  lemma StepString(s: string, q: nat)
    requires q < |s| && s[q] == '"'
    ensures StepsTo(StepAt(s, q), Element(Str(StringAt(s, q).0), StringAt(s, q).1))
  {
  }

  lemma StepList(s: string, q: nat, items: seq<Value>, e: nat)
    requires q < |s| && s[q] == '['
    requires Yields(ListAt(s, q), items, e)
    ensures StepsTo(StepAt(s, q), Element(List(items), e))
  {
  }

  lemma StepComma(s: string, q: nat, e: nat)
    requires q < |s| && s[q] == ','
    requires SkipsTo(SkipSpaces(s, q + 1), e)
    ensures StepsTo(StepAt(s, q), Separator(e))
  {
  }

  lemma StepClose(s: string, q: nat)
    requires q < |s| && s[q] == ']'
    ensures StepsTo(StepAt(s, q), Close(q + 1))
  {
  }

  lemma StepBlank(s: string, q: nat)
    requires q < |s| && IsBlank(s[q])
    ensures StepsTo(StepAt(s, q), Separator(q + 1))
  {
  }

  /** Any other character starts a number, and what `parseNumber` returns or throws is the outcome of the pass. */
  lemma StepOther(s: string, q: nat)
    requires q < |s| && NullAt(s, q) == Ok(false)
    requires s[q] != ',' && s[q] != '[' && s[q] != ']' && s[q] != '"' && !IsBlank(s[q])
    ensures NumberAt(s, q).Ok? ==> StepsTo(StepAt(s, q), Element(NumberAt(s, q).value.0, NumberAt(s, q).value.1))
    ensures NumberAt(s, q).Err? ==> StepAt(s, q) == Err(NumberAt(s, q).error)
  {
  }

  /** A `null` probe that runs off the end throws out of the pass. */
  lemma StepNullError(s: string, q: nat)
    requires q < |s| && NullAt(s, q).Err?
    ensures StepAt(s, q) == Err(NullAt(s, q).error)
  {
  }

  /** Spaces after a comma that run to the end throw out of the pass. */
  lemma StepCommaError(s: string, q: nat)
    requires q < |s| && s[q] == ',' && SkipSpaces(s, q + 1).Err?
    ensures StepAt(s, q) == Err(SkipSpaces(s, q + 1).error)
  {
  }

  /** An exception in a nested list is the outcome of the pass. */
  lemma StepListError(s: string, q: nat)
    requires q < |s| && s[q] == '[' && ListAt(s, q).Err?
    ensures StepAt(s, q) == Err(ListAt(s, q).error)
  {
  }

  // How the loop of `parseList` continues after each kind of pass.

  lemma LoopElement(s: string, q: nat, acc: seq<Value>, v: Value, e: nat)
    requires q < |s| && StepsTo(StepAt(s, q), Element(v, e))
    ensures e <= |s| && ListLoop(s, q, acc) == ListLoop(s, e, acc + [v])
  {
  }

  lemma LoopSeparator(s: string, q: nat, acc: seq<Value>, e: nat)
    requires q < |s| && StepsTo(StepAt(s, q), Separator(e))
    ensures e <= |s| && ListLoop(s, q, acc) == ListLoop(s, e, acc)
  {
  }

  lemma LoopClose(s: string, q: nat, acc: seq<Value>, e: nat)
    requires q < |s| && StepsTo(StepAt(s, q), Close(e))
    ensures Yields(ListLoop(s, q, acc), acc, e)
  {
  }

  lemma LoopError(s: string, q: nat, acc: seq<Value>, e: Error)
    requires q < |s| && StepAt(s, q) == Err(e)
    ensures ListLoop(s, q, acc) == Err(e)
  {
  }

  /** One pass of the loop body of `parseList` reads back the literal of `v` and moves just past it. */
  lemma {:induction false} ElementRoundTrip(s: string, q: nat, v: Value, pad: nat)
    requires WellFormed(v)
    requires At(s, q, Serialize(v, pad))
    requires q + |Serialize(v, pad)| == |s| || s[q + |Serialize(v, pad)|] == ',' || s[q + |Serialize(v, pad)|] == ']'
    ensures StepsTo(StepAt(s, q), Element(v, q + |Serialize(v, pad)|))
    decreases v, 6
  {
    match v
    case Null => StepNull(s, q);
    case Num(_, _) => NumElement(s, q, v, pad);
    case Str(_) => StrElement(s, q, v, pad);
    case List(_) => ListElement(s, q, v, pad);
  }

  lemma NumElement(s: string, q: nat, v: Value, pad: nat)
    requires v.Num? && WellFormed(v)
    requires At(s, q, Serialize(v, pad))
    requires q + |Serialize(v, pad)| == |s| || s[q + |Serialize(v, pad)|] == ',' || s[q + |Serialize(v, pad)|] == ']'
    ensures StepsTo(StepAt(s, q), Element(v, q + |Serialize(v, pad)|))
  {
    var t, lit := v.token, Serialize(v, pad);
    assert lit == t && v == Num(t, '.' in t);
    ValidTokenHead(t);
    AtHead(s, q, lit);
    NumberRoundTrip(s, q, t);
    StepNumber(s, q, v, q + |lit|);
  }

  lemma StrElement(s: string, q: nat, v: Value, pad: nat)
    requires v.Str? && WellFormed(v)
    requires At(s, q, Serialize(v, pad))
    ensures StepsTo(StepAt(s, q), Element(v, q + |Serialize(v, pad)|))
  {
    var x, lit := v.text, Serialize(v, pad);
    assert lit == "\"" + (Escape(x) + "\"");
    AtHead(s, q, lit);
    StringRoundTrip(s, q, x);
    StepString(s, q);
  }

  lemma {:induction false} ListElement(s: string, q: nat, v: Value, pad: nat)
    requires v.List? && WellFormed(v)
    requires At(s, q, Serialize(v, pad))
    ensures StepsTo(StepAt(s, q), Element(v, q + |Serialize(v, pad)|))
    decreases v, 5
  {
    var items, e := v.items, q + |Serialize(v, pad)|;
    ListLiteralHead(v, pad);
    AtHead(s, q, Serialize(v, pad));
    ListRoundTrip(s, q, items, pad);
    StepList(s, q, items, e);
  }

  lemma ListLiteralHead(v: Value, pad: nat)
    requires v.List?
    ensures v == List(v.items)
    ensures |Serialize(v, pad)| > 0 && Serialize(v, pad)[0] == '['
  {
    var body := Spaces(pad) + SerializeItems(v.items, pad) + "]";
    assert Serialize(v, pad) == "[" + body;
  }

  /** `parseList` reads back the literal of a list of well-formed values. */
  lemma {:induction false} ListRoundTrip(s: string, p: nat, items: seq<Value>, pad: nat)
    requires AllWellFormed(items)
    requires At(s, p, Serialize(List(items), pad))
    ensures Yields(ListAt(s, p), items, p + |Serialize(List(items), pad)|)
    decreases items, 4
  {
    ListLayout(s, p, items, pad);
    ListBodyRoundTrip(s, p, items, pad, p + |Serialize(List(items), pad)|);
  }

  lemma {:induction false} ListBodyRoundTrip(s: string, p: nat, items: seq<Value>, pad: nat, e: nat)
    requires AllWellFormed(items)
    requires var q := p + 1 + pad;
      && p + 1 < |s|
      && SkipsTo(SkipSpaces(s, p + 1), q)
      && At(s, q, SerializeItems(items, pad))
      && q + |SerializeItems(items, pad)| < |s|
      && s[q + |SerializeItems(items, pad)|] == ']'
      && e == q + |SerializeItems(items, pad)| + 1
    ensures Yields(ListAt(s, p), items, e)
    decreases items, 3
  {
    var q := p + 1 + pad;
    ItemsRoundTrip(s, q, items, pad, []);
    assert [] + items == items;
    ListAtStart(s, p, q, items, e);
  }

  /** After the opening bracket and the spaces after it, `parseList` runs its loop with no elements yet. */
  lemma ListAtStart(s: string, p: nat, q: nat, items: seq<Value>, e: nat)
    requires p + 1 < |s| && SkipsTo(SkipSpaces(s, p + 1), q)
    requires q <= |s| && Yields(ListLoop(s, q, []), items, e)
    ensures Yields(ListAt(s, p), items, e)
  {
  }

  /** Where the parts of the literal of a list lie. */
  lemma ListLayout(s: string, p: nat, items: seq<Value>, pad: nat)
    requires items != [] ==> WellFormed(items[0])
    requires At(s, p, Serialize(List(items), pad))
    ensures var q := p + 1 + pad;
      && p + 1 < |s|
      && SkipsTo(SkipSpaces(s, p + 1), q)
      && At(s, q, SerializeItems(items, pad))
      && q + |SerializeItems(items, pad)| < |s|
      && s[q + |SerializeItems(items, pad)|] == ']'
      && p + |Serialize(List(items), pad)| == q + |SerializeItems(items, pad)| + 1
  {
    var body := SerializeItems(items, pad);
    AtConcat(s, p, "[", Spaces(pad) + (body + "]"));
    ListBodyLayout(s, p + 1, items, pad);
  }

  lemma ListBodyLayout(s: string, p: nat, items: seq<Value>, pad: nat)
    requires items != [] ==> WellFormed(items[0])
    requires At(s, p, Spaces(pad) + (SerializeItems(items, pad) + "]"))
    ensures var q := p + pad;
      && SkipsTo(SkipSpaces(s, p), q)
      && At(s, q, SerializeItems(items, pad))
      && q + |SerializeItems(items, pad)| < |s|
      && s[q + |SerializeItems(items, pad)|] == ']'
  {
    var body := SerializeItems(items, pad);
    AtConcat(s, p, Spaces(pad), body + "]");
    AtConcat(s, p + pad, body, "]");
    AtHead(s, p + pad + |body|, "]");
    if items != [] {
      SerializeItemsHead(items, pad);
    }
    SkipPadding(s, p, pad, body + "]");
  }

  lemma SpacesAt(s: string, q: nat, n: nat)
    requires At(s, q, Spaces(n))
    ensures forall k :: q <= k < q + n ==> s[k] == ' '
  {
    forall k | q <= k < q + n ensures s[k] == ' ' {
      assert s[q + (k - q)] == Spaces(n)[k - q];
    }
  }

  /**
    The loop of `parseList` reads back the literals of `items`, separated by
    commas and padding, up to a closing bracket or the end of the input.
  */
  lemma {:induction false} ItemsRoundTrip(s: string, q: nat, items: seq<Value>, pad: nat, acc: seq<Value>)
    requires AllWellFormed(items)
    requires At(s, q, SerializeItems(items, pad))
    requires q + |SerializeItems(items, pad)| == |s| || s[q + |SerializeItems(items, pad)|] == ']'
    ensures Yields(ListLoop(s, q, acc), acc + items, ClosedAt(s, q + |SerializeItems(items, pad)|))
    decreases items, 2
  {
    if items == [] {
      LoopEnd(s, q, acc);
      assert acc + items == acc;
    } else if |items| == 1 {
      ItemsOne(s, q, items, pad, acc);
    } else {
      var q1, e := q + |Serialize(items[0], pad)|, q + |SerializeItems(items, pad)|;
      ConsLayout(s, q, items, pad, q1, e);
      ItemsCons(s, q, items, pad, acc, q1, e);
    }
  }

  lemma {:induction false} ItemsOne(s: string, q: nat, items: seq<Value>, pad: nat, acc: seq<Value>)
    requires |items| == 1 && WellFormed(items[0])
    requires At(s, q, SerializeItems(items, pad))
    requires q + |SerializeItems(items, pad)| == |s| || s[q + |SerializeItems(items, pad)|] == ']'
    ensures Yields(ListLoop(s, q, acc), acc + items, ClosedAt(s, q + |SerializeItems(items, pad)|))
    decreases items, 1
  {
    var e := q + |Serialize(items[0], pad)|;
    assert SerializeItems(items, pad) == Serialize(items[0], pad);
    ElementRoundTrip(s, q, items[0], pad);
    LoopElement(s, q, acc, items[0], e);
    LoopEnd(s, e, acc + [items[0]]);
    assert acc + [items[0]] == acc + items;
  }

  lemma {:induction false} ItemsCons(s: string, q: nat, items: seq<Value>, pad: nat, acc: seq<Value>, q1: nat, e: nat)
    requires |items| >= 2 && AllWellFormed(items)
    requires q1 == q + |Serialize(items[0], pad)|
    requires At(s, q, Serialize(items[0], pad))
    requires q1 < |s| && s[q1] == ','
    requires SkipsTo(SkipSpaces(s, q1 + 1), q1 + 1 + pad)
    requires At(s, q1 + 1 + pad, SerializeItems(items[1..], pad))
    requires e == q1 + 1 + pad + |SerializeItems(items[1..], pad)|
    requires e == |s| || s[e] == ']'
    ensures Yields(ListLoop(s, q, acc), acc + items, ClosedAt(s, e))
    decreases items, 1
  {
    ConsHead(s, q, items, pad, acc, q1);
    ItemsRoundTrip(s, q1 + 1 + pad, items[1..], pad, acc + [items[0]]);
    LoopThen(s, q, q1 + 1 + pad, acc, items, ClosedAt(s, e));
  }

  /** Reading the first element, then the rest, reads all of `items`. */
  lemma LoopThen(s: string, q: nat, q2: nat, acc: seq<Value>, items: seq<Value>, e: nat)
    requires |items| > 0 && q <= |s| && q2 <= |s|
    requires ListLoop(s, q, acc) == ListLoop(s, q2, acc + [items[0]])
    requires Yields(ListLoop(s, q2, acc + [items[0]]), acc + [items[0]] + items[1..], e)
    ensures Yields(ListLoop(s, q, acc), acc + items, e)
  {
    assert acc + [items[0]] + items[1..] == acc + items;
  }

  /** The first element of two or more, and the comma and padding after it. */
  lemma {:induction false} ConsHead(s: string, q: nat, items: seq<Value>, pad: nat, acc: seq<Value>, q1: nat)
    requires |items| >= 2 && WellFormed(items[0])
    requires q1 == q + |Serialize(items[0], pad)|
    requires At(s, q, Serialize(items[0], pad))
    requires q1 < |s| && s[q1] == ','
    requires SkipsTo(SkipSpaces(s, q1 + 1), q1 + 1 + pad)
    ensures q1 + 1 + pad <= |s| && ListLoop(s, q, acc) == ListLoop(s, q1 + 1 + pad, acc + [items[0]])
    decreases items, 0
  {
    ElementRoundTrip(s, q, items[0], pad);
    LoopElementSeparator(s, q, acc, items[0], q1, q1 + 1 + pad);
  }

  /** An element followed by a comma and its padding adds the element and moves past both. */
  lemma LoopElementSeparator(s: string, q: nat, acc: seq<Value>, v: Value, q1: nat, q2: nat)
    requires q < |s| && StepsTo(StepAt(s, q), Element(v, q1))
    requires q1 < |s| && s[q1] == ','
    requires SkipsTo(SkipSpaces(s, q1 + 1), q2)
    ensures q2 <= |s| && ListLoop(s, q, acc) == ListLoop(s, q2, acc + [v])
  {
    LoopElement(s, q, acc, v, q1);
    StepComma(s, q1, q2);
    LoopSeparator(s, q1, acc + [v], q2);
  }

  /** At the end of the input, or at a closing bracket, the loop of `parseList` returns what it has. */
  lemma LoopEnd(s: string, e: nat, acc: seq<Value>)
    requires e == |s| || (e < |s| && s[e] == ']')
    ensures Yields(ListLoop(s, e, acc), acc, ClosedAt(s, e))
  {
    if e < |s| {
      StepClose(s, e);
      LoopClose(s, e, acc, e + 1);
    }
  }

  /** Where the parts of the literal of two or more elements lie. */
  lemma ConsLayout(s: string, q: nat, items: seq<Value>, pad: nat, q1: nat, e: nat)
    requires |items| >= 2 && AllWellFormed(items[1..])
    requires q1 == q + |Serialize(items[0], pad)| && e == q + |SerializeItems(items, pad)|
    requires At(s, q, SerializeItems(items, pad))
    ensures At(s, q, Serialize(items[0], pad))
    ensures q1 < |s| && s[q1] == ','
    ensures SkipsTo(SkipSpaces(s, q1 + 1), q1 + 1 + pad)
    ensures At(s, q1 + 1 + pad, SerializeItems(items[1..], pad))
    ensures e == q1 + 1 + pad + |SerializeItems(items[1..], pad)|
  {
    var first, rest := Serialize(items[0], pad), SerializeItems(items[1..], pad);
    AtConcat(s, q, first, "," + (Spaces(pad) + rest));
    SerializeItemsHead(items[1..], pad);
    CommaLayout(s, q1, pad, rest);
  }

  /** A comma, its padding, then the literal of the next element. */
  lemma CommaLayout(s: string, q1: nat, pad: nat, rest: string)
    requires At(s, q1, "," + (Spaces(pad) + rest))
    requires |rest| > 0 && rest[0] != ' '
    ensures q1 < |s| && s[q1] == ','
    ensures SkipsTo(SkipSpaces(s, q1 + 1), q1 + 1 + pad)
    ensures At(s, q1 + 1 + pad, rest)
  {
    AtConcat(s, q1, ",", Spaces(pad) + rest);
    AtConcat(s, q1 + 1, Spaces(pad), rest);
    AtHead(s, q1, "," + (Spaces(pad) + rest));
    SkipPadding(s, q1 + 1, pad, rest);
  }

  /** Skipping the padding in front of a literal stops at the literal. */
  lemma SkipPadding(s: string, q: nat, pad: nat, rest: string)
    requires At(s, q, Spaces(pad) + rest)
    requires |rest| > 0 && rest[0] != ' '
    ensures SkipsTo(SkipSpaces(s, q), q + pad)
  {
    AtConcat(s, q, Spaces(pad), rest);
    AtHead(s, q + pad, rest);
    SpacesAt(s, q, pad);
    SkipSpacesIs(s, q, pad);
  }

  /** The cursor after the loop of `parseList` stops at `e`: past the closing bracket, if there is one. */
  function ClosedAt(s: string, e: nat): nat
  {
    if e < |s| then e + 1 else e
  }
}
