/**
  The Java branch of `core.exportProblem` (lib/core.js:152-651): one pass
  over the parameters of the problem's template pushes the lines that read
  each argument into `codeArray` and the argument's identifier into
  `paramArray`, and records in the single slot `extClassName` the helper
  class the harness needs; the return type then picks how the result is
  printed and may overwrite that slot.

  The emitted Java text is kept opaque: a line of `codeArray` is the k-th
  template line of the case for a type, for one parameter name and
  test-case index, or the comment of the default case.
*/
module HarnessGen {
  import opened Base

  /** One entry of `problem.templateMeta.params`. */
  datatype Param = Param(name: string, typ: string)

  datatype Line =
    | Template(key: string, name: string, index: nat, part: nat)
    | Comment(text: string)

  /** How the result is printed: `returnCode` and the helpers it needs. */
  datatype Printer =
    | Padding         // `returnCode` keeps its initial indentation: nothing is printed
    | PrintLine       // `System.out.println(res)`
    | PrintChain      // the `" -> "` walk over a `ListNode`
    | PrintTree       // `printTree(res)`
    | DeepToString    // `Arrays.deepToString(res)`
    | ArrayToString   // `Arrays.toString(res)`
    | ValueOf         // `String.valueOf(res)`

  /** The state the loop and the return switch leave behind. */
  datatype Harness = Harness(
    codeArray: seq<Line>,
    paramArray: seq<string>,
    extClassName: string,
    returnCode: Printer,
    resEquation: string,
    otherFunc: bool)  // whether the two `printTree` methods are emitted

  /**
    The number of lines the case of the parameter switch for `typ` pushes,
    or 0 when the switch has no case for it (every case pushes at least one).
  */
  function CaseLength(typ: string): nat
  {
    if typ in {"integer[]", "string[]", "list<double>", "double[]", "long[]", "character[]",
               "boolean[]", "list<boolean>", "list<string>", "list<String>", "list<long>", "list<integer>"} then 3
    else if typ in {"long", "character", "double", "boolean", "integer", "string", "list<NestedInteger>"} then 1
    else if typ in {"ListNode", "TreeNode"} then 2
    else if typ == "list<TreeNode>" then 8
    else if typ in {"ListNode[]", "character[][]"} then 15
    else if typ in {"integer[][]", "list<list<integer>>", "list<list<long>>", "list<list<string>>"} then 13
    else 0
  }

  /** `list<string>` and `list<String>` fall through to one case. */
  function CaseKey(typ: string): string
  {
    if typ == "list<String>" then "list<string>" else typ
  }

  /** The line of the default case. */
  function Unsupported(typ: string): Line
  {
    Comment("        // " + typ + " not supported")
  }

  /** The lines the switch pushes for the parameter `p` read from `testcase[i]`. */
  function CaseLines(p: Param, i: nat): (lines: seq<Line>)
    ensures |lines| >= 1
    ensures (exists k :: 0 <= k < |lines| && lines[k].Comment?) <==> CaseLength(p.typ) == 0
    ensures CaseLength(p.typ) == 0 ==> lines == [Unsupported(p.typ)]
    ensures forall k :: 0 <= k < |lines| && lines[k].Template? ==>
      lines[k] == Template(CaseKey(p.typ), p.name, i, k)
  {
    if CaseLength(p.typ) > 0 then
      seq(CaseLength(p.typ), k requires 0 <= k < CaseLength(p.typ) => Template(CaseKey(p.typ), p.name, i, k))
    else
      var lines := [Unsupported(p.typ)];
      assert lines[0].Comment?;
      lines
  }

  /** The identifier the switch pushes into `paramArray` for `p`. */
  function Entry(p: Param): (e: string)
    ensures |p.name| <= |e| && e[..|p.name|] == p.name
  {
    if p.typ in {"ListNode[]", "character[][]", "integer[][]"} then p.name + "Array"
    else if p.typ in {"list<list<integer>>", "list<list<long>>", "list<list<string>>"} then p.name + "ListList"
    else p.name
  }

  /** The write to `extClassName` in the case for a parameter type, if any. */
  function ParamExt(typ: string): (ext: Option<string>)
    ensures ext.Some? ==> CaseLength(typ) > 0 && ext.value in {"ListNode", "TreeNode", "NestedInteger"}
  {
    if typ == "ListNode" || typ == "ListNode[]" then Some("ListNode")
    else if typ == "TreeNode" || typ == "list<TreeNode>" then Some("TreeNode")
    else if typ == "list<NestedInteger>" then Some("NestedInteger")
    else None
  }

  /** The write to `extClassName` in the return switch, if any. */
  function ReturnExt(returnType: string): (ext: Option<string>)
    ensures ext.Some? <==> ReturnPrinter(returnType) in {PrintChain, PrintTree}
    ensures ext.Some? ==> ext.value == returnType
  {
    if returnType == "ListNode" || returnType == "TreeNode" then Some(returnType) else None
  }

  /** The return switch of lib/core.js:403-457. */
  function ReturnPrinter(returnType: string): (p: Printer)
    ensures p == Padding <==> returnType == "void"
  {
    if returnType == "string" then PrintLine
    else if returnType == "ListNode" then PrintChain
    else if returnType == "TreeNode" then PrintTree
    else if returnType == "void" then Padding
    else if returnType in {"character[][]", "integer[][]"} then DeepToString
    else if returnType in {"integer[]", "double[]", "string[]"} then ArrayToString
    else ValueOf
  }

  /** The text before the call: `void` leaves the result unassigned. */
  function ResEquation(returnType: string): (r: string)
    ensures r == "" <==> returnType == "void"
  {
    if returnType == "void" then "" else "var res = "
  }

  /** All of `codeArray` after the parameters `params`, in declaration order. */
  function CodeLines(params: seq<Param>): seq<Line>
  {
    if params == [] then []
    else CodeLines(params[..|params| - 1]) + CaseLines(params[|params| - 1], |params| - 1)
  }

  function Entries(params: seq<Param>): seq<string>
  {
    seq(|params|, k requires 0 <= k < |params| => Entry(params[k]))
  }

  /** The writes to `extClassName`, in program order: one per parameter, then the return type's. */
  function Writes(params: seq<Param>, returnType: string): seq<Option<string>>
  {
    seq(|params|, k requires 0 <= k < |params| => ParamExt(params[k].typ)) + [ReturnExt(returnType)]
  }

  /** The slot after a sequence of writes, starting from `''`. */
  function LastWrite(writes: seq<Option<string>>): (slot: string)
    ensures (exists k :: 0 <= k < |writes| && writes[k] == Some(slot)) ||
      (slot == "" && forall k :: 0 <= k < |writes| ==> writes[k].None?)
  {
    if writes == [] then ""
    else
      match writes[|writes| - 1]
      case Some(c) => c
      case None => LastWrite(writes[..|writes| - 1])
  }

  /** The code generation of the Java branch for a template with `params` and `returnType`. */
  method GenerateJava(params: seq<Param>, returnType: string) returns (h: Harness)
    ensures h.codeArray == CodeLines(params)
    ensures h.paramArray == Entries(params)
    ensures h.extClassName == LastWrite(Writes(params, returnType))
    ensures h.returnCode == ReturnPrinter(returnType)
    ensures h.resEquation == ResEquation(returnType)
    ensures h.otherFunc <==> returnType == "TreeNode"
  {
    var codeArray: seq<Line> := [];
    var paramArray: seq<string> := [];
    var extClassName := "";
    ghost var writes := Writes(params, returnType);
    for i := 0 to |params|
      invariant codeArray == CodeLines(params[..i])
      invariant paramArray == Entries(params[..i])
      invariant extClassName == LastWrite(writes[..i])
    {
      PassStep(params, returnType, i);
      // one case of the parameter switch (lib/core.js:163-400)
      codeArray := codeArray + CaseLines(params[i], i);
      paramArray := paramArray + [Entry(params[i])];
      var ext := ParamExt(params[i].typ);
      if ext.Some? {
        extClassName := ext.value;
      }
    }
    PassEnd(params, returnType);
    // the return switch (lib/core.js:403-457)
    var returnExt := ReturnExt(returnType);
    if returnExt.Some? {
      extClassName := returnExt.value;
    }
    h := Harness(codeArray, paramArray, extClassName, ReturnPrinter(returnType), ResEquation(returnType), returnType == "TreeNode");
  }

  /** What one pass of the parameter loop adds to each spec function. */
  lemma PassStep(params: seq<Param>, returnType: string, i: nat)
    requires i < |params|
    ensures CodeLines(params[..i + 1]) == CodeLines(params[..i]) + CaseLines(params[i], i)
    ensures Entries(params[..i + 1]) == Entries(params[..i]) + [Entry(params[i])]
    ensures LastWrite(Writes(params, returnType)[..i + 1]) ==
      match ParamExt(params[i].typ) case Some(c) => c case None => LastWrite(Writes(params, returnType)[..i])
  {
    var q := params[..i + 1];
    assert q[..i] == params[..i] && q[i] == params[i];
    assert CodeLines(q) == CodeLines(q[..i]) + CaseLines(q[i], i);
    WriteStep(Writes(params, returnType), i);
    EntriesStep(params, i);
  }

  lemma EntriesStep(params: seq<Param>, i: nat)
    requires i < |params|
    ensures Entries(params[..i + 1]) == Entries(params[..i]) + [Entry(params[i])]
  {
    var a, b := Entries(params[..i + 1]), Entries(params[..i]) + [Entry(params[i])];
    assert |a| == |b|;
    forall k | 0 <= k < |a|
      ensures a[k] == b[k]
    {
      if k < i {
        assert b[k] == Entries(params[..i])[k];
      }
    }
  }

  lemma WriteStep(writes: seq<Option<string>>, i: nat)
    requires i < |writes|
    ensures LastWrite(writes[..i + 1]) == match writes[i] case Some(c) => c case None => LastWrite(writes[..i])
  {
    assert writes[..i + 1][..i] == writes[..i];
  }

  lemma PassEnd(params: seq<Param>, returnType: string)
    ensures params[..|params|] == params
    ensures LastWrite(Writes(params, returnType)) ==
      match ReturnExt(returnType) case Some(c) => c case None => LastWrite(Writes(params, returnType)[..|params|])
  {
    var writes := Writes(params, returnType);
    assert writes[..|params|] + [ReturnExt(returnType)] == writes;
  }

  /** Where the lines of parameter `k` start in `codeArray`. */
  function Offset(params: seq<Param>, k: nat): nat
    requires k <= |params|
  {
    |CodeLines(params[..k])|
  }

  /** The lines pushed for the first parameters stay as they are when later ones are pushed. */
  lemma {:induction false} CodeLinesPrefix(params: seq<Param>, j: nat)
    requires j <= |params|
    ensures |CodeLines(params[..j])| <= |CodeLines(params)|
    ensures CodeLines(params)[..|CodeLines(params[..j])|] == CodeLines(params[..j])
    decreases |params| - j
  {
    if j < |params| {
      var n := |params|;
      assert params[..n][..n - 1] == params[..n - 1];
      CodeLinesPrefix(params[..n - 1], j);
      assert params[..n - 1][..j] == params[..j];
      assert params[..n] == params;
    } else {
      assert params[..j] == params;
    }
  }

  /**
    The lines of parameter `k` form one block at `Offset(params, k)`, after
    the blocks of the parameters before it: the case lines for its type,
    with its name and test-case index `k`, or the single comment line when
    the switch has no case for its type.
  */
  lemma CodeLinesBlock(params: seq<Param>, k: nat)
    requires k < |params|
    ensures Offset(params, k) + |CaseLines(params[k], k)| == Offset(params, k + 1) <= |CodeLines(params)|
    ensures CodeLines(params)[Offset(params, k)..Offset(params, k + 1)] == CaseLines(params[k], k)
    ensures CaseLength(params[k].typ) == 0 ==>
      CodeLines(params)[Offset(params, k)..Offset(params, k + 1)] == [Comment("        // " + params[k].typ + " not supported")]
    ensures forall l :: l in CodeLines(params)[Offset(params, k)..Offset(params, k + 1)] && l.Template? ==>
      l.name == params[k].name && l.index == k && l.key == CaseKey(params[k].typ)
  {
    var prefix := params[..k + 1];
    assert prefix[..k] == params[..k];
    assert CodeLines(prefix) == CodeLines(params[..k]) + CaseLines(params[k], k);
    CodeLinesPrefix(params, k + 1);
  }

  /**
    The single slot keeps the last write: nothing written leaves `''`, and
    otherwise the slot holds the value of the write after which only
    non-writes follow.
  */
  lemma {:induction false} LastWriteWins(writes: seq<Option<string>>)
    ensures (forall k :: 0 <= k < |writes| ==> writes[k].None?) ==> LastWrite(writes) == ""
    ensures forall k ::
      (0 <= k < |writes| && writes[k].Some? && forall m :: k < m < |writes| ==> writes[m].None?) ==>
      LastWrite(writes) == writes[k].value
  {
    if writes != [] {
      var n := |writes|;
      LastWriteWins(writes[..n - 1]);
      assert forall k :: 0 <= k < n - 1 ==> writes[..n - 1][k] == writes[k];
    }
  }

  /**
    The return type's write comes last: a `ListNode` or `TreeNode` result
    decides the helper class whatever the parameters wrote; otherwise the
    last parameter with a helper class decides it, and none leaves `''`.
  */
  lemma ReturnTypeOverrides(params: seq<Param>, returnType: string)
    ensures ReturnExt(returnType).Some? ==> LastWrite(Writes(params, returnType)) == returnType
    ensures ReturnExt(returnType).None? && (forall k :: 0 <= k < |params| ==> ParamExt(params[k].typ).None?) ==>
      LastWrite(Writes(params, returnType)) == ""
    ensures forall k ::
      (0 <= k < |params| && ReturnExt(returnType).None? && ParamExt(params[k].typ).Some? &&
       forall m :: k < m < |params| ==> ParamExt(params[m].typ).None?) ==>
      LastWrite(Writes(params, returnType)) == ParamExt(params[k].typ).value
  {
    var writes := Writes(params, returnType);
    LastWriteWins(writes);
    assert forall k :: 0 <= k < |params| ==> writes[k] == ParamExt(params[k].typ);
  }

  /** A `ListNode` parameter with a `TreeNode` result gets only the `TreeNode` class. */
  lemma ListNodeParamTreeResult(name: string)
    ensures LastWrite(Writes([Param(name, "ListNode")], "TreeNode")) == "TreeNode"
  {
    ReturnTypeOverrides([Param(name, "ListNode")], "TreeNode");
  }
}
