/**
  The filtering of `core.filterProblems` (lib/core.js:41-89): every letter
  of the query that has a handler keeps the problems its predicate accepts,
  an upper-case letter keeping those its lower-case letter drops; then every
  tag keeps the problems whose category is the tag or whose companies or
  tags mention it.
*/
module ProblemFilter {
  import opened Base

  /**
    The fields of a problem the filter reads. `companies` and `tags` are
    `None` when they are not arrays, which `hasTag` checks first.
  */
  datatype Problem = Problem(
    level: string,
    state: string,
    locked: bool,
    starred: bool,
    category: string,
    companies: Option<seq<string>>,
    tags: Option<seq<string>>)

  /** The predicates of `QUERY_HANDLERS`; `Not` is `_.negate`. */
  datatype Check = Level | ACed | Locked | Starred
  datatype Handler = Is(check: Check) | Not(check: Check)

  /** `QUERY_HANDLERS[q]`: the twelve letters with a handler, `undefined` for any other. */
  function HandlerOf(q: char): (h: Option<Handler>)
    ensures h.Some? ==> (h.value.Not? <==> 'A' <= q <= 'Z')
    ensures h.Some? && h.value.check == Level ==> ToLower(q) in {'e', 'm', 'h'}
  {
    if q in {'e', 'm', 'h'} then Some(Is(Level))
    else if q in {'E', 'M', 'H'} then Some(Not(Level))
    else if q == 'l' then Some(Is(Locked))
    else if q == 'L' then Some(Not(Locked))
    else if q == 'd' then Some(Is(ACed))
    else if q == 'D' then Some(Not(ACed))
    else if q == 's' then Some(Is(Starred))
    else if q == 'S' then Some(Not(Starred))
    else None
  }

  /**
    `isLevel`, `isACed`, `isLocked` and `isStarred` on a problem and the
    query letter: `x.level[0]` is `undefined` on an empty level and its
    `toLowerCase()` throws.
  */
  function Test(c: Check, x: Problem, q: char): (r: Result<bool>)
    ensures r.Err? <==> c == Level && |x.level| == 0
    ensures r.Err? ==> r.error == TypeError
  {
    match c
    case Level => if |x.level| == 0 then Err(TypeError) else Ok(ToLower(x.level[0]) == ToLower(q))
    case ACed => Ok(x.state == "ac")
    case Locked => Ok(x.locked)
    case Starred => Ok(x.starred)
  }

  function Apply(h: Handler, x: Problem, q: char): Result<bool>
  {
    match h
    case Is(c) => Test(c, x, q)
    case Not(c) =>
      match Test(c, x, q)
      case Err(e) => Err(e)
      case Ok(b) => Ok(!b)
  }

  /** `problems.filter(x => f(x, q))`: in order, and the first throw ends it. */
  function FilterBy(ps: seq<Problem>, h: Handler, q: char): Result<seq<Problem>>
  {
    if ps == [] then Ok([])
    else
      match Apply(h, ps[0], q)
      case Err(e) => Err(e)
      case Ok(keep) =>
        match FilterBy(ps[1..], h, q)
        case Err(e) => Err(e)
        case Ok(rest) => Ok((if keep then [ps[0]] else []) + rest)
  }

  /** One letter of the query: no handler leaves the problems as they are. */
  function QueryStep(ps: seq<Problem>, q: char): Result<seq<Problem>>
  {
    match HandlerOf(q)
    case None => Ok(ps)
    case Some(h) => FilterBy(ps, h, q)
  }

  /** The letters of the query, one after the other. */
  function ApplyQuery(ps: seq<Problem>, query: string): Result<seq<Problem>>
    decreases query
  {
    if query == [] then Ok(ps)
    else
      match QueryStep(ps, query[0])
      case Err(e) => Err(e)
      case Ok(next) => ApplyQuery(next, query[1..])
  }

  /** `hasTag(o, tag)`: `o` is an array and one of its entries contains the lower-cased tag. */
  predicate HasTag(o: Option<seq<string>>, tag: string): (b: bool)
    ensures b ==> o.Some? && |o.value| > 0
    ensures o.Some? && |o.value| > 0 && tag == "" ==> b
  {
    assert o.Some? && |o.value| > 0 && tag == "" ==> OccursAt(o.value[0], LowerString(tag), 0);
    o.Some? && exists k :: 0 <= k < |o.value| && ContainsSubstring(o.value[k], LowerString(tag))
  }

  /** A problem whose `companies` and `tags` are not arrays matches only its own category. */
  predicate MatchesTag(x: Problem, t: string): (b: bool)
    ensures x.companies.None? && x.tags.None? ==> (b <==> x.category == t)
  {
    x.category == t || HasTag(x.companies, t) || HasTag(x.tags, t)
  }

  function FilterTag(ps: seq<Problem>, t: string): (r: seq<Problem>)
  {
    if ps == [] then []
    else (if MatchesTag(ps[0], t) then [ps[0]] else []) + FilterTag(ps[1..], t)
  }

  /** The tags, one after the other. */
  function ApplyTags(ps: seq<Problem>, tags: seq<string>): seq<Problem>
    decreases tags
  {
    if tags == [] then ps else ApplyTags(FilterTag(ps, tags[0]), tags[1..])
  }

  /** Tags never throw: only the query can. */
  function Filtered(problems: seq<Problem>, query: string, tags: seq<string>): (r: Result<seq<Problem>>)
    ensures r.Err? <==> ApplyQuery(problems, query).Err?
    ensures r.Err? ==> r.error == TypeError
  {
    ApplyQueryError(problems, query);
    match ApplyQuery(problems, query)
    case Err(e) => Err(e)
    case Ok(ps) => Ok(ApplyTags(ps, tags))
  }

  /** The only exception a query throws is the `TypeError` of an empty level. */
  lemma {:induction false} ApplyQueryError(ps: seq<Problem>, query: string)
    ensures ApplyQuery(ps, query).Err? ==> ApplyQuery(ps, query).error == TypeError
    decreases query
  {
    if query != [] {
      match HandlerOf(query[0]) {
        case None =>
          ApplyQueryError(ps, query[1..]);
        case Some(h) =>
          FilterByError(ps, h, query[0]);
          if FilterBy(ps, h, query[0]).Ok? {
            ApplyQueryError(FilterBy(ps, h, query[0]).value, query[1..]);
          }
      }
    }
  }

  lemma {:induction false} FilterByError(ps: seq<Problem>, h: Handler, q: char)
    ensures FilterBy(ps, h, q).Err? ==> FilterBy(ps, h, q).error == TypeError
  {
    if ps != [] {
      FilterByError(ps[1..], h, q);
    }
  }

  /** `hasTag` lower-cases the tag, so the case of the tag does not matter. */
  lemma HasTagIgnoresCase(o: Option<seq<string>>, tag: string)
    ensures HasTag(o, tag) <==> HasTag(o, LowerString(tag))
  {
    assert LowerString(LowerString(tag)) == LowerString(tag);
  }

  /** The body of the `getProblems` callback of `filterProblems`, with the problems given. */
  method FilterProblems(problems: seq<Problem>, query: string, tags: seq<string>) returns (r: Result<seq<Problem>>)
    ensures r == Filtered(problems, query, tags)
  {
    var ps := problems;
    for i := 0 to |query|
      invariant ApplyQuery(ps, query[i..]) == ApplyQuery(problems, query)
    {
      assert query[i..][0] == query[i] && query[i..][1..] == query[i + 1..];
      var f := HandlerOf(query[i]);
      if f.None? {
        continue;
      }
      var next := FilterBy(ps, f.value, query[i]);
      if next.Err? {
        return Err(next.error);
      }
      ps := next.value;
    }
    assert query[|query|..] == [];
    ghost var afterQuery := ps;
    for i := 0 to |tags|
      invariant ApplyTags(ps, tags[i..]) == ApplyTags(afterQuery, tags)
    {
      assert tags[i..][0] == tags[i] && tags[i..][1..] == tags[i + 1..];
      ps := FilterTag(ps, tags[i]);
    }
    assert tags[|tags|..] == [];
    return Ok(ps);
  }

  // The reference definitions: one pass over the problems, in order.

  /** The elements of `s` that `p` accepts, in the order of `s`. */
  function Select<T>(s: seq<T>, p: T -> bool): seq<T>
  {
    if s == [] then [] else (if p(s[0]) then [s[0]] else []) + Select(s[1..], p)
  }

  /** `a` is `b` with some elements left out and the rest in their order. */
  predicate Subsequence<T(==)>(a: seq<T>, b: seq<T>)
    decreases |b|
  {
    a == [] || (b != [] && ((a[0] == b[0] && Subsequence(a[1..], b[1..])) || Subsequence(a, b[1..])))
  }

  /** Every handled letter of the query accepts `x`. */
  predicate Passes(x: Problem, query: string)
  {
    forall j :: 0 <= j < |query| && HandlerOf(query[j]).Some? ==> Apply(HandlerOf(query[j]).value, x, query[j]) == Ok(true)
  }

  /** No handled letter of the query throws on `x`. */
  predicate NoThrow(x: Problem, query: string)
  {
    forall j :: 0 <= j < |query| && HandlerOf(query[j]).Some? ==> Apply(HandlerOf(query[j]).value, x, query[j]).Ok?
  }

  /** Every tag matches `x`. */
  predicate TagsMatch(x: Problem, tags: seq<string>)
  {
    forall j :: 0 <= j < |tags| ==> MatchesTag(x, tags[j])
  }

  lemma SubsequenceRefl<T>(a: seq<T>)
    ensures Subsequence(a, a)
  {
  }

  lemma {:induction false} SubsequenceTrans<T>(a: seq<T>, b: seq<T>, c: seq<T>)
    requires Subsequence(a, b) && Subsequence(b, c)
    ensures Subsequence(a, c)
    decreases |c|
  {
    if a != [] {
      if b[0] == c[0] && Subsequence(b[1..], c[1..]) {
        if a[0] == b[0] && Subsequence(a[1..], b[1..]) {
          SubsequenceTrans(a[1..], b[1..], c[1..]);
        } else {
          SubsequenceTrans(a, b[1..], c[1..]);
        }
      } else {
        SubsequenceTrans(a, b, c[1..]);
      }
    }
  }

  /** Membership in a selection, its length, and its order. */
  lemma {:induction false} SelectFacts<T>(s: seq<T>, p: T -> bool)
    ensures forall x :: x in Select(s, p) <==> x in s && p(x)
    ensures |Select(s, p)| <= |s|
    ensures Subsequence(Select(s, p), s)
  {
    if s != [] {
      SelectFacts(s[1..], p);
      assert s == [s[0]] + s[1..];
      var a := Select(s, p);
      if p(s[0]) {
        assert a[0] == s[0] && a[1..] == Select(s[1..], p);
      } else {
        assert a == Select(s[1..], p);
      }
      assert Subsequence(a, s);
    }
  }

  /** What a selection keeps and what the opposite selection keeps add up to the whole. */
  lemma {:induction false} SelectSplit<T>(s: seq<T>, p: T -> bool, q: T -> bool)
    requires forall x :: x in s ==> q(x) == !p(x)
    ensures |Select(s, p)| + |Select(s, q)| == |s|
  {
    if s != [] {
      SelectSplit(s[1..], p, q);
    }
  }

  /** Selecting twice is selecting once by both. */
  lemma {:induction false} SelectCompose<T>(s: seq<T>, p: T -> bool, q: T -> bool, r: T -> bool)
    requires forall x :: r(x) == (p(x) && q(x))
    ensures Select(Select(s, p), q) == Select(s, r)
  {
    if s != [] {
      SelectCompose(s[1..], p, q, r);
      if p(s[0]) {
        assert Select(s, p) == [s[0]] + Select(s[1..], p);
        assert Select(s, p)[1..] == Select(s[1..], p);
      } else {
        assert Select(s, p) == Select(s[1..], p);
      }
    }
  }

  lemma {:induction false} SelectSame<T>(s: seq<T>, p: T -> bool, q: T -> bool)
    requires forall x :: x in s ==> p(x) == q(x)
    ensures Select(s, p) == Select(s, q)
  {
    if s != [] {
      SelectSame(s[1..], p, q);
    }
  }

  /**
    A handler throws exactly on a level letter and a problem with an empty
    level, and what it throws is a `TypeError`.
  */
  lemma ApplyThrows(h: Handler, x: Problem, q: char)
    ensures Apply(h, x, q).Err? <==> h.check == Level && |x.level| == 0
    ensures Apply(h, x, q).Err? ==> Apply(h, x, q).error == TypeError
  {
  }

  /**
    Upper case keeps exactly what lower case drops: `E`, `M`, `H`, `L`, `D`
    and `S` are the negations of `e`, `m`, `h`, `l`, `d` and `s`.
  */
  lemma UpperNegatesLower(x: Problem, lower: char, upper: char)
    requires (lower, upper) in {('e', 'E'), ('m', 'M'), ('h', 'H'), ('l', 'L'), ('d', 'D'), ('s', 'S')}
    ensures HandlerOf(lower).Some? && HandlerOf(upper).Some?
    ensures Apply(HandlerOf(upper).value, x, upper).Ok? <==> Apply(HandlerOf(lower).value, x, lower).Ok?
    ensures Apply(HandlerOf(lower).value, x, lower).Ok? ==>
      Apply(HandlerOf(upper).value, x, upper).value == !Apply(HandlerOf(lower).value, x, lower).value
  {
  }

  /** Letters other than the twelve handled ones filter nothing. */
  lemma Unhandled(q: char)
    ensures HandlerOf(q).None? <==> q !in {'e', 'm', 'h', 'E', 'M', 'H', 'l', 'L', 'd', 'D', 's', 'S'}
  {
  }

  /** `filter` throws when the predicate throws on some problem, and otherwise selects. */
  lemma {:induction false} FilterByOutcome(ps: seq<Problem>, h: Handler, q: char)
    ensures FilterBy(ps, h, q).Err? <==> exists k :: 0 <= k < |ps| && Apply(h, ps[k], q).Err?
    ensures FilterBy(ps, h, q).Err? ==> FilterBy(ps, h, q).error == TypeError
    ensures FilterBy(ps, h, q).Ok? ==> FilterBy(ps, h, q).value == Select(ps, x => Apply(h, x, q) == Ok(true))
  {
    if ps != [] {
      FilterByOutcome(ps[1..], h, q);
      ApplyThrows(h, ps[0], q);
      if exists k :: 0 <= k < |ps[1..]| && Apply(h, ps[1..][k], q).Err? {
        var k :| 0 <= k < |ps[1..]| && Apply(h, ps[1..][k], q).Err?;
        assert Apply(h, ps[k + 1], q).Err?;
      }
      if exists k :: 0 <= k < |ps| && Apply(h, ps[k], q).Err? {
        var k :| 0 <= k < |ps| && Apply(h, ps[k], q).Err?;
        if k > 0 {
          assert Apply(h, ps[1..][k - 1], q).Err?;
        }
      }
    }
  }

  /** A letter with a lower and an upper case splits the problems it is applied to between them. */
  lemma FilterByUpperLower(ps: seq<Problem>, lower: char, upper: char)
    requires (lower, upper) in {('e', 'E'), ('m', 'M'), ('h', 'H'), ('l', 'L'), ('d', 'D'), ('s', 'S')}
    requires QueryStep(ps, lower).Ok?
    ensures QueryStep(ps, upper).Ok?
    ensures |QueryStep(ps, lower).value| + |QueryStep(ps, upper).value| == |ps|
    ensures forall x :: x in QueryStep(ps, upper).value <==> x in ps && x !in QueryStep(ps, lower).value
  {
    var hl, hu := HandlerOf(lower).value, HandlerOf(upper).value;
    FilterByOutcome(ps, hl, lower);
    FilterByOutcome(ps, hu, upper);
    forall x ensures Apply(hu, x, upper).Ok? <==> Apply(hl, x, lower).Ok? {
      UpperNegatesLower(x, lower, upper);
    }
    var p := x => Apply(hl, x, lower) == Ok(true);
    var q := x => Apply(hu, x, upper) == Ok(true);
    forall x | x in ps ensures q(x) == !p(x) {
      UpperNegatesLower(x, lower, upper);
    }
    SelectSplit(ps, p, q);
    SelectFacts(ps, p);
    SelectFacts(ps, q);
  }

  /** The query applied to `a + b` is the query `a`, then the query `b` on what is left. */
  lemma {:induction false} ApplyQueryAppend(ps: seq<Problem>, a: string, b: string)
    ensures ApplyQuery(ps, a + b) ==
      match ApplyQuery(ps, a)
      case Err(e) => Err(e)
      case Ok(rest) => ApplyQuery(rest, b)
    decreases a
  {
    if a == [] {
      assert a + b == b;
    } else {
      assert (a + b)[0] == a[0] && (a + b)[1..] == a[1..] + b;
      match QueryStep(ps, a[0])
      case Err(e) =>
      case Ok(next) => ApplyQueryAppend(next, a[1..], b);
    }
  }

  /** A letter without a handler can be taken out of the query without changing the outcome. */
  lemma UnhandledIgnored(ps: seq<Problem>, a: string, q: char, b: string)
    requires HandlerOf(q).None?
    ensures ApplyQuery(ps, a + [q] + b) == ApplyQuery(ps, a + b)
  {
    ApplyQueryAppend(ps, a, [q] + b);
    ApplyQueryAppend(ps, a, b);
    assert a + [q] + b == a + ([q] + b);
    if ApplyQuery(ps, a).Ok? {
      assert ([q] + b)[0] == q && ([q] + b)[1..] == b;
    }
  }

  /** Whatever the query keeps is in the order of the problems it was given. */
  lemma {:induction false} ApplyQueryOrder(ps: seq<Problem>, query: string)
    requires ApplyQuery(ps, query).Ok?
    ensures Subsequence(ApplyQuery(ps, query).value, ps)
    decreases query
  {
    if query == [] {
      SubsequenceRefl(ps);
    } else {
      var next := QueryStep(ps, query[0]).value;
      match HandlerOf(query[0]) {
        case None => SubsequenceRefl(ps);
        case Some(h) =>
          FilterByOutcome(ps, h, query[0]);
          SelectFacts(ps, x => Apply(h, x, query[0]) == Ok(true));
      }
      ApplyQueryOrder(next, query[1..]);
      SubsequenceTrans(ApplyQuery(ps, query).value, next, ps);
    }
  }

  /** When no letter throws, the query keeps exactly the problems every handled letter accepts, in order. */
  lemma {:induction false} ApplyQueryOnePass(ps: seq<Problem>, query: string)
    requires forall k :: 0 <= k < |ps| ==> NoThrow(ps[k], query)
    ensures ApplyQuery(ps, query) == Ok(Select(ps, x => Passes(x, query)))
    decreases query
  {
    if query == [] {
      SelectSame(ps, x => Passes(x, query), x => true);
      SelectAll(ps);
    } else {
      var q := query[0];
      var rest := query[1..];
      assert forall x :: NoThrow(x, query) ==> NoThrow(x, rest) by {
        forall x | NoThrow(x, query) ensures NoThrow(x, rest) {
          forall j | 0 <= j < |rest| && HandlerOf(rest[j]).Some?
            ensures Apply(HandlerOf(rest[j]).value, x, rest[j]).Ok?
          {
            assert rest[j] == query[j + 1];
          }
        }
      }
      var first: Problem -> bool;
      match HandlerOf(q) {
        case None =>
          first := x => true;
          SelectSame(ps, first, x => true);
          SelectAll(ps);
        case Some(h) =>
          first := x => Apply(h, x, q) == Ok(true);
          FilterByOutcome(ps, h, q);
      }
      var next := Select(ps, first);
      assert QueryStep(ps, q) == Ok(next);
      SelectFacts(ps, first);
      forall k | 0 <= k < |next| ensures NoThrow(next[k], rest) {
        assert next[k] in ps;
      }
      ApplyQueryOnePass(next, rest);
      SelectCompose(ps, first, x => Passes(x, rest), x => first(x) && Passes(x, rest));
      forall x | x in ps ensures (first(x) && Passes(x, rest)) == Passes(x, query) {
        if Passes(x, query) {
          forall j | 0 <= j < |rest| && HandlerOf(rest[j]).Some?
            ensures Apply(HandlerOf(rest[j]).value, x, rest[j]) == Ok(true)
          {
            assert rest[j] == query[j + 1];
          }
          assert query[0] == q;
        }
        if first(x) && Passes(x, rest) {
          forall j | 0 <= j < |query| && HandlerOf(query[j]).Some?
            ensures Apply(HandlerOf(query[j]).value, x, query[j]) == Ok(true)
          {
            if j > 0 {
              assert query[j] == rest[j - 1];
            }
          }
        }
      }
      SelectSame(ps, x => first(x) && Passes(x, rest), x => Passes(x, query));
    }
  }

  lemma {:induction false} SelectAll<T>(s: seq<T>)
    ensures Select(s, x => true) == s
  {
    if s != [] {
      SelectAll(s[1..]);
    }
  }

  lemma {:induction false} FilterTagSelects(ps: seq<Problem>, t: string)
    ensures FilterTag(ps, t) == Select(ps, x => MatchesTag(x, t))
  {
    if ps != [] {
      FilterTagSelects(ps[1..], t);
    }
  }

  /** The tags keep exactly the problems that match every tag, in order. */
  lemma {:induction false} ApplyTagsOnePass(ps: seq<Problem>, tags: seq<string>)
    ensures ApplyTags(ps, tags) == Select(ps, x => TagsMatch(x, tags))
    decreases tags
  {
    if tags == [] {
      SelectSame(ps, x => TagsMatch(x, tags), x => true);
      SelectAll(ps);
    } else {
      var t, rest := tags[0], tags[1..];
      FilterTagSelects(ps, t);
      ApplyTagsOnePass(FilterTag(ps, t), rest);
      SelectCompose(ps, x => MatchesTag(x, t), x => TagsMatch(x, rest), x => MatchesTag(x, t) && TagsMatch(x, rest));
      forall x | x in ps ensures (MatchesTag(x, t) && TagsMatch(x, rest)) == TagsMatch(x, tags) {
        if TagsMatch(x, tags) {
          forall j | 0 <= j < |rest| ensures MatchesTag(x, rest[j]) {
            assert rest[j] == tags[j + 1];
          }
        }
        if MatchesTag(x, t) && TagsMatch(x, rest) {
          forall j | 0 <= j < |tags| ensures MatchesTag(x, tags[j]) {
            if j > 0 {
              assert tags[j] == rest[j - 1];
            }
          }
        }
      }
      SelectSame(ps, x => MatchesTag(x, t) && TagsMatch(x, rest), x => TagsMatch(x, tags));
    }
  }

  /**
    `filterProblems` keeps exactly the problems that every handled letter
    of the query and every tag accept, in their original order, unless a
    level letter meets a problem with an empty level.
  */
  lemma FilteredOnePass(problems: seq<Problem>, query: string, tags: seq<string>)
    requires forall k :: 0 <= k < |problems| ==> NoThrow(problems[k], query)
    ensures Filtered(problems, query, tags) == Ok(Select(problems, x => Passes(x, query) && TagsMatch(x, tags)))
    ensures forall x :: x in Filtered(problems, query, tags).value <==> x in problems && Passes(x, query) && TagsMatch(x, tags)
  {
    ApplyQueryOnePass(problems, query);
    var kept := Select(problems, x => Passes(x, query));
    ApplyTagsOnePass(kept, tags);
    SelectCompose(problems, x => Passes(x, query), x => TagsMatch(x, tags), x => Passes(x, query) && TagsMatch(x, tags));
    SelectFacts(problems, x => Passes(x, query) && TagsMatch(x, tags));
  }

  /** Whatever `filterProblems` returns is in the order of the problems it was given. */
  lemma FilteredOrder(problems: seq<Problem>, query: string, tags: seq<string>)
    requires Filtered(problems, query, tags).Ok?
    ensures Subsequence(Filtered(problems, query, tags).value, problems)
  {
    ApplyQueryOrder(problems, query);
    var kept := ApplyQuery(problems, query).value;
    ApplyTagsOnePass(kept, tags);
    SelectFacts(kept, x => TagsMatch(x, tags));
    SubsequenceTrans(Filtered(problems, query, tags).value, kept, problems);
  }
}
