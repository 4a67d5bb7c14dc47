/**
  `NestedInteger.deserialize` of the generated Java (lib/core.js:498-533): a
  character scanner with a stack of open lists, the list being filled
  (`current`) and the pending characters of a number (`subInteger`).

  Each `NestedInteger` is referenced from one place only (the stack,
  `current`, or the list it was added to), and none is changed after it
  is added to its parent, so the lists are modelled as values.
*/
module NestedIntegers {
  import opened Base

  /** A `NestedInteger`: an integer, or a list of them. */
  datatype NestedInteger = Int(n: int) | Nested(items: seq<NestedInteger>)

  /**
    The state of the scanner: the contents of the open lists, outermost
    first, and the pending characters. The last open list is `current` and
    the ones before it are the stack; no open list is `current == null`.
  */
  datatype Scan = Scan(open: seq<seq<NestedInteger>>, pending: string)

  /** The open lists for the Java variables `stack` and `current`. */
  function Frames(stack: seq<seq<NestedInteger>>, current: Option<seq<NestedInteger>>): seq<seq<NestedInteger>>
  {
    if current.Some? then stack + [current.value] else stack
  }

  /**
    `current.add(new NestedInteger(Integer.parseInt(subInteger.toString())))`
    when characters are pending. The argument is evaluated before the call,
    so a malformed number throws before a `null` `current` does.
  */
  function Flush(open: seq<seq<NestedInteger>>, pending: string): (r: Result<seq<seq<NestedInteger>>>)
    ensures r.Ok? ==> |r.value| == |open|
  {
    if |pending| == 0 then Ok(open)
    else
      match JavaParseInt(pending)
      case None => Err(NumberFormat)
      case Some(n) =>
        if open == [] then Err(NullPointer)
        else Ok(open[..|open| - 1] + [open[|open| - 1] + [Int(n)]])
  }

  /** `]` with nothing pending: the finished `current` is added to the list below it, if there is one. */
  function Close(open: seq<seq<NestedInteger>>): seq<seq<NestedInteger>>
  {
    if |open| >= 2 then open[..|open| - 2] + [open[|open| - 2] + [Nested(open[|open| - 1])]]
    else open
  }

  /** One pass of the loop of lib/core.js:503-527 on the character `c`. */
  function Step(st: Scan, c: char): Result<Scan>
  {
    if c == '[' then Ok(Scan(st.open + [[]], ""))
    else if c == ']' then
      match Flush(st.open, st.pending)
      case Err(e) => Err(e)
      case Ok(open) => Ok(Scan(Close(open), ""))
    else if c == ',' then
      match Flush(st.open, st.pending)
      case Err(e) => Err(e)
      case Ok(open) => Ok(Scan(open, ""))
    else Ok(Scan(st.open, st.pending + [c]))
  }

  /** The scanner run over `s` from the state `st`. */
  function Process(s: string, st: Scan): Result<Scan>
  {
    if s == [] then Ok(st)
    else
      match Step(st, s[0])
      case Err(e) => Err(e)
      case Ok(st') => Process(s[1..], st')
  }

  /** After the loop: a pending number wins; otherwise `current`, which may be `null`. */
  function Finish(st: Scan): Result<Option<NestedInteger>>
  {
    if |st.pending| > 0 then
      match JavaParseInt(st.pending)
      case None => Err(NumberFormat)
      case Some(n) => Ok(Some(Int(n)))
    else if st.open == [] then Ok(None)
    else Ok(Some(Nested(st.open[|st.open| - 1])))
  }

  /**
    `deserialize` throws only `NumberFormatException` and
    `NullPointerException`, and returns `null` only for a text without `[`.
  */
  function Deserialized(s: string): (r: Result<Option<NestedInteger>>)
    ensures r.Err? ==> r.error in {NumberFormat, NullPointer}
    ensures r == Ok(None) ==> '[' !in s
  {
    ProcessShape(s, Scan([], ""));
    match Process(s, Scan([], ""))
    case Err(e) => Err(e)
    case Ok(st) => Finish(st)
  }

  /**
    A pass throws only when a pending number is added at `]` or `,`; the
    characters `[`, `]` and `,` end the pending text and every other one
    extends it; `[` opens one more list, and no pass closes the last one.
  */
  lemma StepShape(st: Scan, c: char)
    ensures var r := Step(st, c);
      && (r.Err? ==> (c == ']' || c == ',') && |st.pending| > 0 && r.error in {NumberFormat, NullPointer})
      && (r.Ok? ==> (r.value.pending == [] <==> c in {'[', ']', ','}))
      && (r.Ok? && c == '[' ==> |r.value.open| == |st.open| + 1)
      && (r.Ok? && st.open != [] ==> r.value.open != [])
  {
  }

  /** The scanner throws only what `Step` throws, and once a list is open one stays open. */
  lemma {:induction false} ProcessShape(s: string, st: Scan)
    ensures Process(s, st).Err? ==> Process(s, st).error in {NumberFormat, NullPointer}
    ensures Process(s, st).Ok? && (st.open != [] || '[' in s) ==> Process(s, st).value.open != []
  {
    if s != [] {
      var r := Step(st, s[0]);
      if r.Ok? {
        StepShape(st, s[0]);
        ProcessShape(s[1..], r.value);
        assert '[' in s ==> s[0] == '[' || '[' in s[1..];
      }
    }
  }

  /** `NestedInteger.deserialize(s)`. */
  method Deserialize(s: string) returns (r: Result<Option<NestedInteger>>)
    ensures r == Deserialized(s)
  {
    var stack: seq<seq<NestedInteger>> := [];
    var current: Option<seq<NestedInteger>> := None;
    var subInteger := "";
    for i := 0 to |s|
      invariant stack != [] ==> current.Some?
      invariant Process(s[i..], Scan(Frames(stack, current), subInteger)) == Process(s, Scan([], ""))
    {
      assert s[i..][1..] == s[i + 1..];
      ghost var st := Scan(Frames(stack, current), subInteger);
      if s[i] == '[' {
        if current.Some? {
          stack := stack + [current.value];
        }
        current := Some([]);
        subInteger := "";
      } else if s[i] == ']' {
        if |subInteger| > 0 {
          var n := JavaParseInt(subInteger);
          if n.None? {
            return Err(NumberFormat);
          }
          if current.None? {
            return Err(NullPointer);
          }
          assert st.open[..|st.open| - 1] == stack;
          current := Some(current.value + [Int(n.value)]);
          subInteger := "";
        }
        ghost var open := Frames(stack, current);
        assert open == Flush(st.open, st.pending).value;
        if |stack| > 0 {
          assert open[..|open| - 2] == stack[..|stack| - 1];
          var top := stack[|stack| - 1];
          stack := stack[..|stack| - 1];
          current := Some(top + [Nested(current.value)]);
        }
      } else if s[i] == ',' {
        if |subInteger| > 0 {
          var n := JavaParseInt(subInteger);
          if n.None? {
            return Err(NumberFormat);
          }
          if current.None? {
            return Err(NullPointer);
          }
          assert st.open[..|st.open| - 1] == stack;
          current := Some(current.value + [Int(n.value)]);
        }
        subInteger := "";
      } else {
        subInteger := subInteger + [s[i]];
      }
      assert Step(st, s[i]) == Ok(Scan(Frames(stack, current), subInteger));
    }
    assert s[|s|..] == [];
    var st := Scan(Frames(stack, current), subInteger);
    if |subInteger| > 0 {
      var n := JavaParseInt(subInteger);
      if n.None? {
        return Err(NumberFormat);
      }
      return Ok(Some(Int(n.value)));
    }
    if current.None? {
      return Ok(None);
    }
    return Ok(Some(Nested(current.value)));
  }

  /**
    `deserialize(s).getList()` as the `list<NestedInteger>` argument of
    lib/core.js:391-395: `null` for an integer, and a
    `NullPointerException` when `deserialize` returned `null`.
  */
  function GetList(x: Option<NestedInteger>): (r: Result<Option<seq<NestedInteger>>>)
    ensures r.Ok? <==> x.Some?
    ensures r.Ok? ==> (r.value.Some? <==> x.value.Nested?)
  {
    match x
    case None => Err(NullPointer)
    case Some(Int(_)) => Ok(None)
    case Some(Nested(items)) => Ok(Some(items))
  }

  /** The bracketed text that `deserialize` reads back: `,` between items, no spaces. */
  function Serialize(x: NestedInteger): string
    decreases x, 1
  {
    match x
    case Int(n) => IntToString(n)
    case Nested(items) => "[" + SerializeItems(items) + "]"
  }

  function SerializeItems(items: seq<NestedInteger>): string
    decreases items, 0
  {
    if items == [] then ""
    else if |items| == 1 then Serialize(items[0])
    else Serialize(items[0]) + "," + SerializeItems(items[1..])
  }

  /** Every integer fits an `int`, as `Integer.parseInt` demands. */
  predicate Int32s(x: NestedInteger)
    decreases x, 1
  {
    match x
    case Int(n) => InInt32(n)
    case Nested(items) => AllInt32s(items)
  }

  predicate AllInt32s(items: seq<NestedInteger>)
    decreases items, 0
  {
    items == [] || (Int32s(items[0]) && AllInt32s(items[1..]))
  }

  /** The scanner goes on from where it stopped, or keeps the exception. */
  function Then(r: Result<Scan>, s: string): Result<Scan>
  {
    match r
    case Err(e) => Err(e)
    case Ok(st) => Process(s, st)
  }

  /** Scanning two texts one after the other is scanning their concatenation. */
  lemma {:induction false} ProcessAppend(a: string, b: string, st: Scan)
    ensures Process(a + b, st) == Then(Process(a, st), b)
  {
    if a == [] {
      assert a + b == b;
    } else {
      assert (a + b)[0] == a[0] && (a + b)[1..] == a[1..] + b;
      match Step(st, a[0])
      case Err(_) =>
      case Ok(st') => ProcessAppend(a[1..], b, st');
    }
  }

  /** A text without brackets or commas. */
  predicate Plain(p: string)
  {
    forall k :: 0 <= k < |p| ==> p[k] != '[' && p[k] != ']' && p[k] != ','
  }

  /** A text without brackets or commas only adds to the pending characters. */
  lemma {:induction false} ProcessPlain(p: string, st: Scan)
    requires Plain(p)
    ensures Process(p, st) == Ok(Scan(st.open, st.pending + p))
  {
    if p == [] {
      assert st.pending + p == st.pending;
    } else {
      ProcessPlain(p[1..], Scan(st.open, st.pending + [p[0]]));
      assert st.pending + [p[0]] + p[1..] == st.pending + p;
    }
  }

  lemma IntTextPlain(n: int)
    ensures Plain(IntToString(n))
  {
    var digits := NatToDigits(if n < 0 then -n else n);
    assert forall k :: 0 <= k < |digits| ==> IsDigit(digits[k]);
  }

  /** The innermost open list with `x` added. */
  function Added(open: seq<seq<NestedInteger>>, x: NestedInteger): seq<seq<NestedInteger>>
    requires open != []
  {
    open[..|open| - 1] + [open[|open| - 1] + [x]]
  }

  /**
    The state after the text of `x` inside an open list: an integer is still
    pending, a list has been added; the next `,` or `]` leaves both added.
  */
  function AfterElement(open: seq<seq<NestedInteger>>, x: NestedInteger): Scan
    requires open != []
  {
    if x.Int? then Scan(open, IntToString(x.n)) else Scan(Added(open, x), "")
  }

  lemma {:induction false} ElementRoundTrip(x: NestedInteger, open: seq<seq<NestedInteger>>)
    requires Int32s(x) && open != []
    ensures Process(Serialize(x), Scan(open, "")) == Ok(AfterElement(open, x))
    ensures Flush(AfterElement(open, x).open, AfterElement(open, x).pending) == Ok(Added(open, x))
    decreases x, 1
  {
    match x
    case Int(n) =>
      IntTextPlain(n);
      ProcessPlain(IntToString(n), Scan(open, ""));
      assert "" + IntToString(n) == IntToString(n);
      ParseIntToString(n);
    case Nested(items) =>
      var s := "[" + SerializeItems(items) + "]";
      assert s[0] == '[' && s[1..] == SerializeItems(items) + "]";
      var none: seq<NestedInteger> := [];
      assert Step(Scan(open, ""), '[') == Ok(Scan(open + [none], ""));
      ItemsRoundTrip(items, open, none);
      var inner := open + [none + items];
      assert inner[..|inner| - 2] == open[..|open| - 1];
      assert inner[|inner| - 2] == open[|open| - 1] && inner[|inner| - 1] == items;
      assert Close(inner) == Added(open, x);
  }

  lemma ScanClose(st: Scan, open: seq<seq<NestedInteger>>)
    requires Flush(st.open, st.pending) == Ok(open)
    ensures Process("]", st) == Ok(Scan(Close(open), ""))
  {
    assert "]"[0] == ']' && "]"[1..] == [];
  }

  lemma ScanComma(st: Scan, open: seq<seq<NestedInteger>>, tail: string)
    requires Flush(st.open, st.pending) == Ok(open)
    ensures Process("," + tail, st) == Process(tail, Scan(open, ""))
  {
    assert ("," + tail)[0] == ',' && ("," + tail)[1..] == tail;
  }

  /**
    The items after `[`, then the closing `]`: the list they fill holds them
    all and is added to the list around it.
  */
  lemma {:induction false} ItemsRoundTrip(items: seq<NestedInteger>, open: seq<seq<NestedInteger>>, acc: seq<NestedInteger>)
    requires AllInt32s(items)
    ensures Process(SerializeItems(items) + "]", Scan(open + [acc], "")) == Ok(Scan(Close(open + [acc + items]), ""))
    decreases items, 1
  {
    if items == [] {
      assert SerializeItems(items) + "]" == "]";
      assert acc + items == acc;
    } else if |items| == 1 {
      LastItem(items, open, acc);
    } else {
      NextItem(items, open, acc);
    }
  }

  /** The last item, then `]`. */
  lemma {:induction false} LastItem(items: seq<NestedInteger>, open: seq<seq<NestedInteger>>, acc: seq<NestedInteger>)
    requires AllInt32s(items) && |items| == 1
    ensures Process(SerializeItems(items) + "]", Scan(open + [acc], "")) == Ok(Scan(Close(open + [acc + items]), ""))
    decreases items, 0
  {
    var st := Scan(open + [acc], "");
    var x := items[0];
    ElementRoundTrip(x, open + [acc]);
    var after := AfterElement(open + [acc], x);
    assert Added(open + [acc], x) == open + [acc + [x]];
    ProcessAppend(Serialize(x), "]", st);
    ScanClose(after, open + [acc + [x]]);
    assert acc + items == acc + [x];
  }

  /** An item followed by `,` and the items after it. */
  lemma {:induction false} NextItem(items: seq<NestedInteger>, open: seq<seq<NestedInteger>>, acc: seq<NestedInteger>)
    requires AllInt32s(items) && |items| >= 2
    ensures Process(SerializeItems(items) + "]", Scan(open + [acc], "")) == Ok(Scan(Close(open + [acc + items]), ""))
    decreases items, 0
  {
    var st := Scan(open + [acc], "");
    var x := items[0];
    ElementRoundTrip(x, open + [acc]);
    var after := AfterElement(open + [acc], x);
    assert Added(open + [acc], x) == open + [acc + [x]];
    var tail := SerializeItems(items[1..]) + "]";
    assert SerializeItems(items) + "]" == Serialize(x) + ("," + tail);
    ProcessAppend(Serialize(x), "," + tail, st);
    ScanComma(after, open + [acc + [x]], tail);
    ItemsRoundTrip(items[1..], open, acc + [x]);
    assert acc + [x] + items[1..] == acc + items;
  }

  /** The text of a list read from the top level, whatever was pending: one open list holding the items. */
  lemma TopLevelList(items: seq<NestedInteger>, pending: string)
    requires AllInt32s(items)
    ensures Process(Serialize(Nested(items)), Scan([], pending)) == Ok(Scan([items], ""))
  {
    var s := Serialize(Nested(items));
    assert s[0] == '[' && s[1..] == SerializeItems(items) + "]";
    var none: seq<NestedInteger> := [];
    var nothing: seq<seq<NestedInteger>> := [];
    assert Step(Scan(nothing, pending), '[') == Ok(Scan(nothing + [none], ""));
    ItemsRoundTrip(items, nothing, none);
    assert none + items == items;
    assert nothing + [items] == [items];
  }

  /**
    `deserialize` reads back every nested integer from its text, and
    `getList` gives back the items of a list.
  */
  lemma DeserializeRoundTrip(x: NestedInteger)
    requires Int32s(x)
    ensures Deserialized(Serialize(x)) == Ok(Some(x))
    ensures x.Nested? ==> GetList(Deserialized(Serialize(x)).value) == Ok(Some(x.items))
  {
    match x
    case Int(n) =>
      IntTextPlain(n);
      ProcessPlain(IntToString(n), Scan([], ""));
      assert "" + IntToString(n) == IntToString(n);
      ParseIntToString(n);
    case Nested(items) =>
      TopLevelList(items, "");
  }

  /** `[` starts a new list and drops what was pending: text before the list is ignored. */
  lemma DroppedPending(p: string, items: seq<NestedInteger>)
    requires Plain(p) && AllInt32s(items)
    ensures Deserialized(p + Serialize(Nested(items))) == Ok(Some(Nested(items)))
  {
    ProcessAppend(p, Serialize(Nested(items)), Scan([], ""));
    ProcessPlain(p, Scan([], ""));
    TopLevelList(items, "" + p);
  }

  /** Text after the closing `]` is pending at the end and wins over the list. */
  lemma TrailingNumber(items: seq<NestedInteger>, n: int)
    requires AllInt32s(items) && InInt32(n)
    ensures Deserialized(Serialize(Nested(items)) + IntToString(n)) == Ok(Some(Int(n)))
  {
    ProcessAppend(Serialize(Nested(items)), IntToString(n), Scan([], ""));
    TopLevelList(items, "");
    IntTextPlain(n);
    ProcessPlain(IntToString(n), Scan([items], ""));
    assert "" + IntToString(n) == IntToString(n);
    ParseIntToString(n);
  }

  /** A number followed by `,` or `]` before any `[` calls `add` on a `null` `current`. */
  lemma NullCurrent(n: int, c: char, rest: string)
    requires InInt32(n)
    requires c == ',' || c == ']'
    ensures Deserialized(IntToString(n) + [c] + rest) == Err(NullPointer)
  {
    ProcessAppend(IntToString(n), [c] + rest, Scan([], ""));
    IntTextPlain(n);
    ProcessPlain(IntToString(n), Scan([], ""));
    assert "" + IntToString(n) == IntToString(n);
    ParseIntToString(n);
    assert IntToString(n) + [c] + rest == IntToString(n) + ([c] + rest);
    assert ([c] + rest)[0] == c;
  }

  /**
    Pending text that is not an `int` throws at the `]` that ends it, and at
    the end of the input; blanks are pending text, so `[ 1]` throws.
  */
  lemma MalformedNumber(p: string)
    requires Plain(p) && |p| > 0 && JavaParseInt(p).None?
    ensures Deserialized("[" + p + "]") == Err(NumberFormat)
    ensures Deserialized(p) == Err(NumberFormat)
    ensures JavaParseInt(" 1").None?
  {
    var none: seq<NestedInteger> := [];
    var nothing: seq<seq<NestedInteger>> := [];
    var s := "[" + p + "]";
    assert s[0] == '[' && s[1..] == p + "]";
    assert nothing + [none] == [none];
    assert Step(Scan(nothing, ""), '[') == Ok(Scan([none], ""));
    ProcessAppend(p, "]", Scan([none], ""));
    assert Step(Scan([none], p), ']') == Err(NumberFormat);
    ProcessPlain(p, Scan([none], ""));
    assert "" + p == p;
    assert "]"[0] == ']';
    ProcessPlain(p, Scan(nothing, ""));
    assert " 1"[1..] == "1";
  }

  /** An empty text gives `null`, and `getList()` on it throws. */
  lemma EmptyTextExample()
    ensures Deserialized("") == Ok(None)
    ensures GetList(Deserialized("").value) == Err(NullPointer)
  {
  }

  lemma SingleDigits()
    ensures Serialize(Int(1)) == "1" && Serialize(Int(2)) == "2" && Serialize(Int(3)) == "3" && Serialize(Int(4)) == "4"
  {
  }

  lemma InnerListText()
    ensures Serialize(Nested([Int(2), Int(3)])) == "[2,3]"
  {
    SingleDigits();
    assert [Int(2), Int(3)][1..] == [Int(3)];
    assert SerializeItems([Int(2), Int(3)]) == "2" + "," + "3" == "2,3";
  }

  /** The text of the list with the children 1, [2,3] and 4. */
  lemma MixedListText(x: NestedInteger)
    requires x == Nested([Int(1), Nested([Int(2), Int(3)]), Int(4)])
    ensures Int32s(x) && Serialize(x) == "[1,[2,3],4]"
  {
    var inner := Nested([Int(2), Int(3)]);
    var items := [Int(1), inner, Int(4)];
    assert items[1..] == [inner, Int(4)];
    assert [inner, Int(4)][1..] == [Int(4)];
    assert [Int(2), Int(3)][1..] == [Int(3)];
    assert AllInt32s([Int(2), Int(3)]);
    assert AllInt32s([inner, Int(4)]) && AllInt32s(items);
    SingleDigits();
    InnerListText();
    var tail := SerializeItems([inner, Int(4)]);
    assert tail == "[2,3]" + "," + "4" == "[2,3],4";
    var body := SerializeItems(items);
    assert body == "1" + "," + tail == "1,[2,3],4";
    assert Serialize(x) == "[" + body + "]" == "[1,[2,3],4]";
  }

  /** `[1,[2,3],4]`: a list with the children 1, [2,3] and 4, in order. */
  lemma MixedListExample()
    ensures Deserialized("[1,[2,3],4]") == Ok(Some(Nested([Int(1), Nested([Int(2), Int(3)]), Int(4)])))
  {
    var x := Nested([Int(1), Nested([Int(2), Int(3)]), Int(4)]);
    MixedListText(x);
    DeserializeRoundTrip(x);
  }

  /** `[]` is the empty list, and `5` the integer 5. */
  lemma EmptyAndNumberExample()
    ensures Deserialized("[]") == Ok(Some(Nested([])))
    ensures Deserialized("5") == Ok(Some(Int(5)))
  {
    DeserializeRoundTrip(Nested([]));
    DeserializeRoundTrip(Int(5));
  }
}
