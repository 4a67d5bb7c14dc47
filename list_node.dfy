/**
  The `ListNode` arguments of the generated Java (lib/core.js:256-288): the
  parsed list is walked with a dummy head, and a new node is linked after
  the tail for every `Integer` item. A chain is recorded as the sequence of
  its node values, from the first node after the dummy; the empty sequence
  is `dummy.next == null`.
*/
module ListChain {
  import opened Base
  import opened LiteralSpec

  /** The values of the nodes linked for `items`: one per `Integer` item, in list order. */
  function IntegerItems(items: seq<Value>): (chain: seq<int>)
    ensures |chain| <= |items|
    ensures forall k :: 0 <= k < |chain| ==> InInt32(chain[k])
  {
    if items == [] then []
    else (match IntegerValue(items[0]) case Some(n) => [n] case None => []) + IntegerItems(items[1..])
  }

  /**
    The loop of lib/core.js:262-268: `head` is the last node linked, and
    `head.next = new ListNode((int)item)` appends after it.
  */
  method BuildChain(items: seq<Value>) returns (chain: seq<int>)
    ensures chain == IntegerItems(items)
  {
    chain := [];
    var i := 0;
    while i < |items|
      invariant 0 <= i <= |items|
      invariant chain == IntegerItems(items[..i])
    {
      var item := items[i];
      assert items[..i + 1] == items[..i] + [item];
      IntegerItemsAppend(items[..i], [item]);
      assert [item][1..] == [];
      match IntegerValue(item) {
        case Some(n) => chain := chain + [n];
        case None =>
      }
      i := i + 1;
    }
    assert items[..i] == items;
  }

  /** Building over two lists one after the other builds the two chains one after the other. */
  lemma {:induction false} IntegerItemsAppend(a: seq<Value>, b: seq<Value>)
    ensures IntegerItems(a + b) == IntegerItems(a) + IntegerItems(b)
  {
    if a == [] {
      assert a + b == b;
    } else {
      assert (a + b)[1..] == a[1..] + b;
      IntegerItemsAppend(a[1..], b);
    }
  }

  /** Every node value comes from an `Integer` item, and there is one node per such item. */
  lemma {:induction false} IntegerItemsFrom(items: seq<Value>)
    ensures |IntegerItems(items)| <= |items|
    ensures forall x :: x in IntegerItems(items) ==> exists k :: 0 <= k < |items| && IntegerValue(items[k]) == Some(x)
  {
    if items != [] {
      IntegerItemsFrom(items[1..]);
      forall x | x in IntegerItems(items)
        ensures exists k :: 0 <= k < |items| && IntegerValue(items[k]) == Some(x)
      {
        if IntegerValue(items[0]) == Some(x) {
        } else {
          var k :| 0 <= k < |items[1..]| && IntegerValue(items[1..][k]) == Some(x);
          assert IntegerValue(items[k + 1]) == Some(x);
        }
      }
    }
  }

  /** Items that are all `Integer`s give one node each, in order. */
  lemma {:induction false} AllIntegers(items: seq<Value>)
    requires forall k :: 0 <= k < |items| ==> IntegerValue(items[k]).Some?
    ensures |IntegerItems(items)| == |items|
    ensures forall k :: 0 <= k < |items| ==> IntegerItems(items)[k] == IntegerValue(items[k]).value
  {
    if items != [] {
      var rest := items[1..];
      assert forall k :: 0 <= k < |rest| ==> rest[k] == items[k + 1];
      AllIntegers(rest);
      var n := IntegerValue(items[0]).value;
      assert IntegerItems(items) == [n] + IntegerItems(rest);
      forall k | 0 <= k < |items|
        ensures IntegerItems(items)[k] == IntegerValue(items[k]).value
      {
        if k > 0 {
          assert IntegerItems(items)[k] == IntegerItems(rest)[k - 1];
        }
      }
    }
  }

  /** `null`, `Double`, `String` and nested-list items give no node; a list of only those gives `null`. */
  lemma {:induction false} NoIntegers(items: seq<Value>)
    requires forall k :: 0 <= k < |items| ==> IntegerValue(items[k]).None?
    ensures IntegerItems(items) == []
  {
    if items != [] {
      NoIntegers(items[1..]);
    }
  }

  /**
    The `ListNode[]` argument of lib/core.js:272-288: one chain per element
    of the outer list. `((List<?>) list).size()` throws `NullPointerException`
    on a `null` element and `ClassCastException` on any other non-list.
  */
  function Chains(lists: seq<Value>): (r: Result<seq<seq<int>>>)
    ensures r.Err? ==> r.error == NullPointer || r.error == ClassCast
    ensures r.Ok? ==> |r.value| == |lists|
  {
    if lists == [] then Ok([])
    else if lists[0] == Null then Err(NullPointer)
    else if !lists[0].List? then Err(ClassCast)
    else
      match Chains(lists[1..])
      case Err(e) => Err(e)
      case Ok(rest) => Ok([IntegerItems(lists[0].items)] + rest)
  }

  /** The chains put before the outcome for the remaining elements. */
  function Prepend(chains: seq<seq<int>>, r: Result<seq<seq<int>>>): Result<seq<seq<int>>>
  {
    match r
    case Err(e) => Err(e)
    case Ok(rest) => Ok(chains + rest)
  }

  lemma PrependNothing(r: Result<seq<seq<int>>>)
    ensures Prepend([], r) == r
  {
    if r.Ok? { assert [] + r.value == r.value; }
  }

  lemma PrependOne(chains: seq<seq<int>>, chain: seq<int>, r: Result<seq<seq<int>>>)
    ensures Prepend(chains, Prepend([chain], r)) == Prepend(chains + [chain], r)
  {
    if r.Ok? { assert chains + ([chain] + r.value) == chains + [chain] + r.value; }
  }

  method BuildChains(lists: seq<Value>) returns (r: Result<seq<seq<int>>>)
    ensures r == Chains(lists)
  {
    var chains: seq<seq<int>> := [];
    var i := 0;
    assert lists[i..] == lists;
    PrependNothing(Chains(lists));
    while i < |lists|
      invariant 0 <= i <= |lists|
      invariant Prepend(chains, Chains(lists[i..])) == Chains(lists)
    {
      var list := lists[i];
      assert lists[i..][1..] == lists[i + 1..];
      if list == Null {
        return Err(NullPointer);
      }
      if !list.List? {
        return Err(ClassCast);
      }
      var chain := BuildChain(list.items);
      PrependOne(chains, chain, Chains(lists[i + 1..]));
      chains := chains + [chain];
      i := i + 1;
    }
    assert lists[i..] == [] && chains + [] == chains;
    return Ok(chains);
  }

  /** The array has one slot per element, each the chain of that element, exactly when every element is a list. */
  lemma {:induction false} ChainsShape(lists: seq<Value>)
    ensures Chains(lists).Ok? <==> forall k :: 0 <= k < |lists| ==> lists[k].List?
    ensures Chains(lists).Ok? ==> |Chains(lists).value| == |lists|
    ensures Chains(lists).Ok? ==>
      forall k :: 0 <= k < |lists| ==> Chains(lists).value[k] == IntegerItems(lists[k].items)
  {
    if lists != [] {
      ChainsShape(lists[1..]);
      if Chains(lists).Ok? {
        var rest := Chains(lists[1..]).value;
        forall k | 0 <= k < |lists|
          ensures Chains(lists).value[k] == IntegerItems(lists[k].items)
        {
          if k > 0 { assert lists[k] == lists[1..][k - 1]; }
        }
      }
      if forall k :: 0 <= k < |lists| ==> lists[k].List? {
        assert forall k :: 0 <= k < |lists[1..]| ==> lists[1..][k] == lists[k + 1];
      }
    }
  }
}
