/**
  The result printers of the generated Java: the `ListNode` return walks the
  chain printing `a -> b -> c` (lib/core.js:409-416), and `printTree`
  prints a tree one node per line, children indented under their parent
  (lib/core.js:422-439). A printer is modelled by the text, or the lines,
  it writes.
*/
module Printers {
  import opened Base

  // The ListNode printer

  function Strings(vals: seq<int>): (s: seq<string>)
    ensures |s| == |vals|
  {
    seq(|vals|, k requires 0 <= k < |vals| => IntToString(vals[k]))
  }

  /** The node values in chain order, with ` -> ` between neighbours. */
  function Arrows(vals: seq<int>): string
  {
    Join(Strings(vals), " -> ")
  }

  /** Joining two non-empty lists of parts puts one separator between their two joins. */
  lemma {:induction false} JoinAppend(p: seq<string>, q: seq<string>, sep: string)
    requires p != [] && q != []
    ensures Join(p + q, sep) == Join(p, sep) + sep + Join(q, sep)
    decreases |p|
  {
    if |p| == 1 {
      assert (p + q)[1..] == q;
    } else {
      assert (p + q)[1..] == p[1..] + q;
      JoinAppend(p[1..], q, sep);
    }
  }

  lemma JoinSnoc(parts: seq<string>, x: string, sep: string)
    requires parts != []
    ensures Join(parts + [x], sep) == Join(parts, sep) + sep + x
  {
    JoinAppend(parts, [x], sep);
  }

  /**
    The `while (res != null)` loop: each node prints its value, and ` -> `
    when a node follows; then `println` ends the line.
  */
  method PrintChain(chain: seq<int>) returns (out: string)
    ensures out == Arrows(chain) + "\n"
  {
    out := "";
    var i := 0;
    while i < |chain|
      invariant 0 <= i <= |chain|
      invariant i == 0 ==> out == ""
      invariant 0 < i ==> out == Arrows(chain[..i]) + (if i < |chain| then " -> " else "")
    {
      if i == 0 {
        assert Strings(chain[..1]) == [IntToString(chain[0])];
      } else {
        assert chain[..i + 1] == chain[..i] + [chain[i]];
        assert Strings(chain[..i + 1]) == Strings(chain[..i]) + [IntToString(chain[i])];
        JoinSnoc(Strings(chain[..i]), IntToString(chain[i]), " -> ");
      }
      out := out + IntToString(chain[i]);
      i := i + 1;
      if i < |chain| {
        out := out + " -> ";
      }
    }
    assert chain[..i] == chain;
    out := out + "\n";
  }

  function Count(s: string, c: char): nat
  {
    if s == [] then 0 else (if s[0] == c then 1 else 0) + Count(s[1..], c)
  }

  lemma {:induction false} CountAppend(s: string, t: string, c: char)
    ensures Count(s + t, c) == Count(s, c) + Count(t, c)
  {
    if s == [] {
      assert s + t == t;
    } else {
      assert (s + t)[1..] == s[1..] + t;
      CountAppend(s[1..], t, c);
    }
  }

  lemma {:induction false} NoArrowInNumber(v: int)
    ensures Count(IntToString(v), '>') == 0
  {
    var s := IntToString(v);
    forall i | 0 <= i < |s| ensures s[i] != '>' {
      if v >= 0 {
        assert IsDigit(NatToDigits(v)[i]);
      } else if i > 0 {
        assert s[i] == NatToDigits(-v)[i - 1];
      }
    }
    CountAbsent(s, '>');
  }

  lemma {:induction false} CountAbsent(s: string, c: char)
    requires forall i :: 0 <= i < |s| ==> s[i] != c
    ensures Count(s, c) == 0
  {
    if s != [] {
      CountAbsent(s[1..], c);
    }
  }

  /** A chain of `n` nodes prints `n - 1` arrows, one between each pair of neighbours. */
  lemma {:induction false} ArrowCount(vals: seq<int>)
    ensures Count(Arrows(vals), '>') == if vals == [] then 0 else |vals| - 1
    decreases |vals|
  {
    if |vals| == 1 {
      NoArrowInNumber(vals[0]);
    } else if |vals| > 1 {
      var rest := vals[..|vals| - 1];
      assert vals == rest + [vals[|vals| - 1]];
      assert Strings(vals) == Strings(rest) + [IntToString(vals[|vals| - 1])];
      JoinSnoc(Strings(rest), IntToString(vals[|vals| - 1]), " -> ");
      ArrowCount(rest);
      NoArrowInNumber(vals[|vals| - 1]);
      CountAppend(Arrows(rest), " -> ", '>');
      CountAppend(Arrows(rest) + " -> ", IntToString(vals[|vals| - 1]), '>');
      assert Count(" -> ", '>') == 1;
    }
  }

  /** The text of two chains linked one after the other is their two texts joined by one arrow. */
  lemma {:induction false} ArrowsAppend(a: seq<int>, b: seq<int>)
    requires a != [] && b != []
    ensures Arrows(a + b) == Arrows(a) + " -> " + Arrows(b)
  {
    assert Strings(a + b) == Strings(a) + Strings(b);
    JoinAppend(Strings(a), Strings(b), " -> ");
  }

  // The TreeNode printer

  /** A finite tree; `Nil` is a `null` child. */
  datatype Tree = Nil | Node(val: int, left: Tree, right: Tree)

  /**
    One line below the root: the indentation, the label (`├──(R) ` when
    `isRight`, `└──(L) ` otherwise) and the value, `None` for `<null>`.
  */
  datatype Line = Line(prefix: string, right: bool, val: Option<int>)

  function Text(l: Line): string
  {
    l.prefix + (if l.right then "├──(R) " else "└──(L) ") + (match l.val case None => "<null>" case Some(v) => IntToString(v))
  }

  function Texts(ls: seq<Line>): (r: seq<string>)
    ensures |r| == |ls|
  {
    seq(|ls|, k requires 0 <= k < |ls| => Text(ls[k]))
  }

  function Indent(isRight: bool): string
  {
    if isRight then "│   " else "    "
  }

  function Label(t: Tree): Option<int>
  {
    match t
    case Nil => None
    case Node(v, _, _) => Some(v)
  }

  function Size(t: Tree): nat
  {
    match t
    case Nil => 0
    case Node(_, l, r) => 1 + Size(l) + Size(r)
  }

  /**
    `printTree(n, prefix, isRight)` as written: the left child first,
    flagged as right. A subtree of `n` nodes prints `2n + 1` lines, one per
    node and one per `null` child, starting with its own.
  */
  function Branch(n: Tree, prefix: string, isRight: bool): (lines: seq<Line>)
    ensures |lines| == 2 * Size(n) + 1
    ensures lines[0] == Line(prefix, isRight, Label(n))
  {
    match n
    case Nil => [Line(prefix, isRight, None)]
    case Node(v, l, r) =>
      [Line(prefix, isRight, Some(v))] + Branch(l, prefix + Indent(isRight), true) + Branch(r, prefix + Indent(isRight), false)
  }

  /**
    `printTree(node)`: the root's value, then its right child flagged right,
    then its left child; `2n + 1` lines for a tree of `n` nodes.
  */
  function PrintTree(t: Tree): (out: seq<string>)
    ensures |out| == 2 * Size(t) + 1
    ensures out[0] == match t case Nil => "<null>" case Node(v, _, _) => IntToString(v)
  {
    match t
    case Nil => ["<null>"]
    case Node(v, l, r) => [IntToString(v)] + Texts(Branch(r, "", true)) + Texts(Branch(l, "", false))
  }

  /** Below the root, the line after a node is its left child's, and it carries the `(R)` label. */
  lemma LeftChildLabelledRight(v: int, l: Tree, r: Tree, prefix: string, isRight: bool)
    ensures |Branch(Node(v, l, r), prefix, isRight)| > 1
    ensures Branch(Node(v, l, r), prefix, isRight)[1] == Line(prefix + Indent(isRight), true, Label(l))
  {
    assert Branch(l, prefix + Indent(isRight), true)[0] == Line(prefix + Indent(isRight), true, Label(l));
  }

  /** At the root the labels are right: the line after the root is its right child's, marked `(R)`. */
  lemma RootChildrenLabelled(v: int, l: Tree, r: Tree)
    ensures |PrintTree(Node(v, l, r))| == 2 * Size(r) + 2 * Size(l) + 3
    ensures PrintTree(Node(v, l, r))[1] == Text(Line("", true, Label(r)))
    ensures PrintTree(Node(v, l, r))[2 * Size(r) + 2] == Text(Line("", false, Label(l)))
  {
    assert Branch(r, "", true)[0] == Line("", true, Label(r));
    assert Branch(l, "", false)[0] == Line("", false, Label(l));
  }

  /** The corrected `printTree(n, prefix, isRight)`: the right child first, flagged right, as at the root. */
  function BranchFixed(n: Tree, prefix: string, isRight: bool): seq<Line>
  {
    match n
    case Nil => [Line(prefix, isRight, None)]
    case Node(v, l, r) =>
      [Line(prefix, isRight, Some(v))] + BranchFixed(r, prefix + Indent(isRight), true) + BranchFixed(l, prefix + Indent(isRight), false)
  }

  function PrintTreeFixed(t: Tree): seq<string>
  {
    match t
    case Nil => ["<null>"]
    case Node(v, l, r) => [IntToString(v)] + Texts(BranchFixed(r, "", true)) + Texts(BranchFixed(l, "", false))
  }

  /** The way from a node down to one of its descendants: `true` for a right step. */
  function Prepend(step: bool, paths: seq<seq<bool>>): (r: seq<seq<bool>>)
    ensures |r| == |paths|
  {
    seq(|paths|, k requires 0 <= k < |paths| => [step] + paths[k])
  }

  /**
    The positions in `n`, nodes and `null` children, in pre-order: a node,
    then the positions below its right child and then its left child when
    `rightFirst`, the other way round otherwise.
  */
  function Paths(n: Tree, rightFirst: bool): seq<seq<bool>>
  {
    match n
    case Nil => [[]]
    case Node(_, l, r) =>
      if rightFirst then [[]] + Prepend(true, Paths(r, rightFirst)) + Prepend(false, Paths(l, rightFirst))
      else [[]] + Prepend(false, Paths(l, rightFirst)) + Prepend(true, Paths(r, rightFirst))
  }

  /** What is at `path` below `n`: a node's value, or `None` for `null`. */
  function At(n: Tree, path: seq<bool>): Option<int>
  {
    if path == [] then Label(n)
    else
      match n
      case Nil => None
      case Node(_, l, r) => At(if path[0] then r else l, path[1..])
  }

  /**
    `lines` label the positions `paths` below `n`: the `k`-th line shows
    what is at the `k`-th position, and carries `(R)` exactly when the last
    step to it is a right step, or exactly when it is a left step when
    `swapped` (`isRight` for `n` itself).
  */
  predicate LabelledBy(n: Tree, lines: seq<Line>, paths: seq<seq<bool>>, isRight: bool, swapped: bool)
  {
    && |lines| == |paths|
    && forall k :: 0 <= k < |paths| ==>
      lines[k].val == At(n, paths[k]) &&
      lines[k].right == (if paths[k] == [] then isRight else paths[k][|paths[k]| - 1] != swapped)
  }

  /**
    `printTree(n, prefix, isRight)` as written walks the left child first,
    and labels every line by the opposite side: `(R)` exactly when the last
    step to its node goes left.
  */
  lemma {:induction false} BranchLabels(n: Tree, prefix: string, isRight: bool)
    ensures LabelledBy(n, Branch(n, prefix, isRight), Paths(n, false), isRight, true)
  {
    match n
    case Nil =>
    case Node(v, l, r) =>
      var p := prefix + Indent(isRight);
      BranchLabels(l, p, true);
      BranchLabels(r, p, false);
      var a, b := Branch(l, p, true), Branch(r, p, false);
      StepDownAll(n, false, Paths(l, false), a, isRight, true);
      StepDownAll(n, true, Paths(r, false), b, isRight, true);
      var root := [Line(prefix, isRight, Some(v))];
      assert LabelledBy(n, root, [[]], isRight, true);
      LabelledConcat(n, root, a, [[]], Prepend(false, Paths(l, false)), isRight, true);
      LabelledConcat(n, root + a, b, [[]] + Prepend(false, Paths(l, false)), Prepend(true, Paths(r, false)), isRight, true);
  }

  /** The corrected printer walks the right child first and labels every line by the side its node hangs on. */
  lemma {:induction false} BranchFixedLabels(n: Tree, prefix: string, isRight: bool)
    ensures LabelledBy(n, BranchFixed(n, prefix, isRight), Paths(n, true), isRight, false)
  {
    match n
    case Nil =>
    case Node(v, l, r) =>
      var p := prefix + Indent(isRight);
      BranchFixedLabels(r, p, true);
      BranchFixedLabels(l, p, false);
      var a, b := BranchFixed(r, p, true), BranchFixed(l, p, false);
      StepDownAll(n, true, Paths(r, true), a, isRight, false);
      StepDownAll(n, false, Paths(l, true), b, isRight, false);
      var root := [Line(prefix, isRight, Some(v))];
      assert LabelledBy(n, root, [[]], isRight, false);
      LabelledConcat(n, root, a, [[]], Prepend(true, Paths(r, true)), isRight, false);
      LabelledConcat(n, root + a, b, [[]] + Prepend(true, Paths(r, true)), Prepend(false, Paths(l, true)), isRight, false);
  }

  /** Labels for the positions below a child are labels for the positions one step further down. */
  lemma StepDownAll(n: Tree, step: bool, paths: seq<seq<bool>>, lines: seq<Line>, isRight: bool, swapped: bool)
    requires n.Node?
    requires LabelledBy(if step then n.right else n.left, lines, paths, step != swapped, swapped)
    ensures LabelledBy(n, lines, Prepend(step, paths), isRight, swapped)
  {
    forall k | 0 <= k < |paths|
      ensures lines[k].val == At(n, Prepend(step, paths)[k])
      ensures lines[k].right == (Prepend(step, paths)[k][|Prepend(step, paths)[k]| - 1] != swapped)
    {
      StepDown(n, step, paths[k], lines[k], swapped);
    }
  }

  /** Labelled blocks placed one after the other stay labelled. */
  lemma LabelledConcat(n: Tree, x: seq<Line>, y: seq<Line>, px: seq<seq<bool>>, py: seq<seq<bool>>, isRight: bool, swapped: bool)
    requires LabelledBy(n, x, px, isRight, swapped) && LabelledBy(n, y, py, isRight, swapped)
    ensures LabelledBy(n, x + y, px + py, isRight, swapped)
  {
    forall k | |x| <= k < |x| + |y|
      ensures (x + y)[k] == y[k - |x|] && (px + py)[k] == py[k - |x|]
    {
    }
  }

  /** A line labelled for a position below a child is labelled for the position one step further down. */
  lemma StepDown(n: Tree, step: bool, q: seq<bool>, line: Line, swapped: bool)
    requires n.Node?
    requires line.val == At(if step then n.right else n.left, q)
    requires line.right == (if q == [] then step != swapped else q[|q| - 1] != swapped)
    ensures line.val == At(n, [step] + q)
    ensures line.right == (([step] + q)[|[step] + q| - 1] != swapped)
  {
    assert ([step] + q)[0] == step && ([step] + q)[1..] == q;
  }

  /** The corrected printer prints the root and then what the corrected branches print. */
  lemma PrintTreeFixedLabels(v: int, l: Tree, r: Tree)
    ensures PrintTreeFixed(Node(v, l, r)) ==
      [IntToString(v)] + Texts(BranchFixed(r, "", true)) + Texts(BranchFixed(l, "", false))
    ensures |PrintTreeFixed(Node(v, l, r))| == 1 + |Paths(r, true)| + |Paths(l, true)|
  {
    BranchFixedLabels(r, "", true);
    BranchFixedLabels(l, "", false);
  }
}
