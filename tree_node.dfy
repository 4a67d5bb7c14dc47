/**
  `TreeNode.construct` of the generated Java (lib/core.js:554-582): builds a
  binary tree from a level-order list with `null` holes. The nodes are kept
  in the array `arr` indexed like the list, and the `left`/`right` fields
  of node `i` are recorded as the index of the node they point to, so the
  linking loop works on three arrays instead of the heap.
*/
module TreeBuild {
  import opened Base
  import opened LiteralSpec

  /** A `left` or `right` field that was never assigned, i.e. still `null`. */
  const Unset: int := -1

  /**
    The tree that `construct` returns: the value of each node (`None` for a
    `null` entry) and the index assigned to each node's `left` and `right`.
    The root is node 0; the tree is `null` when there is no node 0 or it is a
    `null` entry. A child index may name a `null` entry, which leaves that
    field `null`.
  */
  datatype Links = Links(vals: seq<Option<int>>, left: seq<int>, right: seq<int>)

  /** The number of non-null entries before index `i`: every one of them takes up two child slots. */
  function Rank(list: seq<Value>, i: nat): (r: nat)
    requires i <= |list|
    ensures r <= i
  {
    if i == 0 then 0 else Rank(list, i - 1) + (if list[i - 1] != Null then 1 else 0)
  }

  /** Every non-null entry is an `Integer`, so the casts of the first loop succeed. */
  predicate CastsToInteger(list: seq<Value>)
  {
    forall i :: 0 <= i < |list| ==> list[i] == Null || IntegerValue(list[i]).Some?
  }

  /** The node values after the first loop. */
  function Vals(list: seq<Value>): (vals: seq<Option<int>>)
    ensures |vals| == |list|
  {
    seq(|list|, i requires 0 <= i < |list| => if list[i] == Null then None else IntegerValue(list[i]))
  }

  /** The linking loop runs out of entries while slots remain, and reads `arr[n]`. */
  predicate Overruns(list: seq<Value>)
  {
    |list| > 0 && 1 + 2 * Rank(list, |list|) < |list|
  }

  /** The index assigned to `left` of node `i`: `j` when node `i` is reached is one past twice its rank. */
  function LeftSlot(list: seq<Value>, i: nat): (slot: int)
    requires i < |list|
    ensures slot == Unset || 1 <= slot < |list|
  {
    if list[i] != Null && 1 + 2 * Rank(list, i) < |list| then 1 + 2 * Rank(list, i) else Unset
  }

  function RightSlot(list: seq<Value>, i: nat): (slot: int)
    requires i < |list|
    ensures slot == Unset || 2 <= slot < |list|
  {
    if list[i] != Null && 2 + 2 * Rank(list, i) < |list| then 2 + 2 * Rank(list, i) else Unset
  }

  function LeftSlots(list: seq<Value>): (s: seq<int>)
    ensures |s| == |list|
  {
    seq(|list|, i requires 0 <= i < |list| => LeftSlot(list, i))
  }

  function RightSlots(list: seq<Value>): (s: seq<int>)
    ensures |s| == |list|
  {
    seq(|list|, i requires 0 <= i < |list| => RightSlot(list, i))
  }

  lemma {:induction false} RankMonotone(list: seq<Value>, i: nat, k: nat)
    requires i <= k <= |list|
    ensures Rank(list, i) <= Rank(list, k)
    decreases k - i
  {
    if i < k {
      RankMonotone(list, i, k - 1);
    }
  }

  /** A non-null entry before `k` ranks strictly below it. */
  lemma RankStrict(list: seq<Value>, i: nat, k: nat)
    requires i < k <= |list| && list[i] != Null
    ensures Rank(list, i) < Rank(list, k)
  {
    RankMonotone(list, i + 1, k);
  }

  /** The linking loop reads past the array only when some entry is `null`. */
  lemma OverrunNeedsNull(list: seq<Value>)
    ensures Overruns(list) ==> exists i :: 0 <= i < |list| && list[i] == Null
  {
    if forall k :: 0 <= k < |list| ==> list[k] != Null {
      RankWithoutNulls(list, |list|);
    }
  }

  /**
    `TreeNode.construct(list)`: `null` for an empty list; otherwise the casts
    of the first loop, then the two-index linking loop of lib/core.js:572-580.
  */
  method Construct(list: seq<Value>) returns (r: Result<Links>)
    ensures |list| == 0 ==> r == Ok(Links([], [], []))
    ensures |list| > 0 && !CastsToInteger(list) ==> r == Err(ClassCast)
    ensures |list| > 0 && CastsToInteger(list) && Overruns(list) ==> r == Err(ArrayIndexOutOfBounds)
    ensures |list| > 0 && CastsToInteger(list) && !Overruns(list) ==>
      r == Ok(Links(Vals(list), LeftSlots(list), RightSlots(list)))
  {
    var n := |list|;
    if n == 0 {
      return Ok(Links([], [], []));
    }
    var arr := new Option<int>[n];
    var i := 0;
    while i < n
      invariant 0 <= i <= n
      invariant forall k :: 0 <= k < i ==> arr[k] == Vals(list)[k]
      invariant forall k :: 0 <= k < i ==> list[k] == Null || IntegerValue(list[k]).Some?
    {
      if list[i] == Null {
        arr[i] := None;
      } else {
        var v := IntegerValue(list[i]);
        if v.None? {
          return Err(ClassCast);
        }
        arr[i] := v;
      }
      i := i + 1;
    }
    assert arr[..] == Vals(list);
    var left := seq(n, _ => Unset);
    var right := seq(n, _ => Unset);
    i := 0;
    var j := 1;
    while j < n
      invariant 0 <= i <= n
      invariant arr[..] == Vals(list)
      invariant j == 1 + 2 * Rank(list, i) || (n <= j && j == 2 * Rank(list, i))
      invariant |left| == n && |right| == n
      invariant forall k :: 0 <= k < i ==> left[k] == LeftSlot(list, k) && right[k] == RightSlot(list, k)
      invariant forall k :: i <= k < n ==> left[k] == Unset && right[k] == Unset
      decreases n - j, n - i
    {
      if i >= n {
        return Err(ArrayIndexOutOfBounds);
      }
      assert arr[i] == Vals(list)[i];
      assert Rank(list, i + 1) == Rank(list, i) + (if list[i] != Null then 1 else 0);
      if arr[i].None? {
        i := i + 1;
        continue;
      }
      left := left[i := j];
      j := j + 1;
      if j < n {
        right := right[i := j];
        j := j + 1;
      }
      i := i + 1;
    }
    forall k | i <= k < n
      ensures LeftSlot(list, k) == Unset && RightSlot(list, k) == Unset
    {
      RankMonotone(list, i, k);
    }
    RankMonotone(list, i, n);
    assert left == LeftSlots(list);
    assert right == RightSlots(list);
    return Ok(Links(arr[..], left, right));
  }

  /** The values after the first loop: a number for every `Integer` entry, `null` for a `null` one. */
  lemma ValsShape(list: seq<Value>)
    ensures forall i :: 0 <= i < |list| && Vals(list)[i].Some? ==> list[i] != Null && InInt32(Vals(list)[i].value)
    ensures CastsToInteger(list) ==> forall i :: 0 <= i < |list| ==> (Vals(list)[i].None? <==> list[i] == Null)
  {
  }

  /**
    Only nodes get children; a right child comes just after the same
    node's left child; and a later node's children come after an earlier
    node's, so the slots are handed out in the order of the nodes.
  */
  lemma SlotsShape(list: seq<Value>)
    ensures forall i :: 0 <= i < |list| && LeftSlots(list)[i] != Unset ==> list[i] != Null
    ensures forall i :: 0 <= i < |list| && RightSlots(list)[i] != Unset ==>
      RightSlots(list)[i] == LeftSlots(list)[i] + 1
    ensures forall a, b :: 0 <= a < b < |list| && LeftSlots(list)[a] != Unset && LeftSlots(list)[b] != Unset ==>
      LeftSlots(list)[a] < LeftSlots(list)[b]
    ensures forall a, b :: 0 <= a < b < |list| && RightSlots(list)[a] != Unset && RightSlots(list)[b] != Unset ==>
      RightSlots(list)[a] < RightSlots(list)[b]
  {
    forall a, b | 0 <= a < b < |list| && list[a] != Null
      ensures Rank(list, a) < Rank(list, b)
    {
      RankStrict(list, a, b);
    }
  }

  /**
    No index is handed out twice: two different nodes never share a child
    slot, and a node's two children are different slots.
  */
  lemma SlotsAssignedOnce(list: seq<Value>, a: nat, b: nat)
    requires a < b < |list|
    ensures LeftSlot(list, a) != Unset ==>
      LeftSlot(list, a) != LeftSlot(list, b) && LeftSlot(list, a) != RightSlot(list, b)
    ensures RightSlot(list, a) != Unset ==>
      RightSlot(list, a) != LeftSlot(list, b) && RightSlot(list, a) != RightSlot(list, b)
    ensures LeftSlot(list, a) != Unset ==> LeftSlot(list, a) != RightSlot(list, a)
  {
    if list[a] != Null {
      RankStrict(list, a, b);
    }
  }

  /** Null entries take no slot: the slots are handed out in order, with no gap, to the non-null entries. */
  lemma {:induction false} RankAttained(list: seq<Value>, n: nat, r: nat) returns (i: nat)
    requires n <= |list| && r < Rank(list, n)
    ensures i < n && list[i] != Null && Rank(list, i) == r
  {
    if Rank(list, n - 1) == r {
      i := n - 1;
    } else {
      i := RankAttained(list, n - 1, r);
    }
  }

  /** Every index from 1 up to the slots the non-null entries take, and below `n`, is some node's child. */
  lemma SlotsWithoutGaps(list: seq<Value>, k: nat)
    requires 1 <= k < |list| && k <= 2 * Rank(list, |list|)
    ensures exists i :: 0 <= i < |list| && (LeftSlot(list, i) == k || RightSlot(list, i) == k)
  {
    var i := RankAttained(list, |list|, (k - 1) / 2);
    assert LeftSlot(list, i) == k || RightSlot(list, i) == k;
  }

  lemma {:induction false} RankWithoutNulls(list: seq<Value>, i: nat)
    requires i <= |list|
    requires forall k :: 0 <= k < |list| ==> list[k] != Null
    ensures Rank(list, i) == i
  {
    if i > 0 {
      RankWithoutNulls(list, i - 1);
    }
  }

  /** Without null entries the list is a heap layout: the children of entry `i` are entries `2i+1` and `2i+2`. */
  lemma HeapLayout(list: seq<Value>, i: nat)
    requires i < |list|
    requires forall k :: 0 <= k < |list| ==> list[k] != Null
    ensures LeftSlot(list, i) == if 2 * i + 1 < |list| then 2 * i + 1 else Unset
    ensures RightSlot(list, i) == if 2 * i + 2 < |list| then 2 * i + 2 else Unset
    ensures !Overruns(list)
  {
    RankWithoutNulls(list, i);
    RankWithoutNulls(list, |list|);
  }

  /** `[1,null,null,2]`: the two nulls take no slot, so when entry 3 is reached `j` is 3 and node 3 becomes its own left child. */
  lemma SelfChildExample()
    ensures var list := [Num("1", false), Null, Null, Num("2", false)];
      && CastsToInteger(list) && !Overruns(list)
      && LeftSlot(list, 0) == 1 && RightSlot(list, 0) == 2
      && LeftSlot(list, 3) == 3 && RightSlot(list, 3) == Unset
  {
    var list := [Num("1", false), Null, Null, Num("2", false)];
    assert JavaParseInt("1") == Some(1) by { assert DigitsValue("1") == 1; }
    assert JavaParseInt("2") == Some(2) by { assert DigitsValue("2") == 2; }
    assert Rank(list, 3) == 1;
  }

  /** `[null,null]`: no node takes a slot, so the loop reaches `arr[2]` past the end. */
  lemma OverrunExample()
    ensures CastsToInteger([Null, Null]) && Overruns([Null, Null])
  {
    assert Rank([Null, Null], 2) == 0;
  }
}
