/** Intersecting sorted inputs in one pass, against the plain quadratic filter. */
module SortedIntersection {

  ghost predicate Ascending(s: seq<int>) {
    forall i, j :: 0 <= i < j < |s| ==> s[i] <= s[j]
  }

  predicate InEvery(x: int, others: seq<seq<int>>) {
    forall k :: 0 <= k < |others| ==> x in others[k]
  }

  function Filtered(first: seq<int>, others: seq<seq<int>>): seq<int> {
    if first == [] then []
    else
      var (rest, last) := (Filtered(first[..|first| - 1], others), first[|first| - 1]);
      if InEvery(last, others) then rest + [last] else rest
  }

  /** The items of the first input found in every other, in its order, as often as
      it holds them. */
  function Intersection(inputs: seq<seq<int>>): seq<int> {
    if inputs == [] then [] else Filtered(inputs[0], inputs[1..])
  }

  // --- any number of sorted inputs

  /** Every item already passed is below `bound`. */
  ghost predicate Behind(input: seq<int>, cursor: nat, bound: int) {
    cursor <= |input| && forall i :: 0 <= i < cursor ==> input[i] < bound
  }

  ghost predicate AllBehind(others: seq<seq<int>>, cursors: seq<nat>, bound: int) {
    |cursors| == |others| && forall k :: 0 <= k < |others| ==> Behind(others[k], cursors[k], bound)
  }

  method Seek(input: seq<int>, cursor: nat, x: int) returns (after: nat, found: bool)
    requires Ascending(input) && Behind(input, cursor, x)
    ensures Behind(input, after, x)
    ensures found <==> x in input
  {
    after := cursor;
    while after < |input| && input[after] < x
      invariant Behind(input, after, x)
    {
      after := after + 1;
    }
    found := after < |input| && input[after] == x;
    assert forall i :: after <= i < |input| ==> input[after] <= input[i];
  }

  /** Asks the inputs in turn, giving up at the first that lacks `x`: the later
      cursors then stay where they were, which is still behind. */
  method Probe(others: seq<seq<int>>, cursors: array<nat>, x: int) returns (found: bool)
    requires forall k :: 0 <= k < |others| ==> Ascending(others[k])
    requires AllBehind(others, cursors[..], x)
    modifies cursors
    ensures AllBehind(others, cursors[..], x)
    ensures found <==> InEvery(x, others)
  {
    for k := 0 to |others|
      invariant AllBehind(others, cursors[..], x)
      invariant forall l :: 0 <= l < k ==> x in others[l]
    {
      assert Behind(others[k], cursors[..][k], x);
      var after, has := Seek(others[k], cursors[k], x);
      ghost var before := cursors[..];
      cursors[k] := after;
      assert cursors[..] == before[k := after];
      if !has { return false; }
    }
    return true;
  }

  lemma LaterBound(others: seq<seq<int>>, cursors: seq<nat>, bound: int, later: int)
    requires AllBehind(others, cursors, bound) && bound <= later
    ensures AllBehind(others, cursors, later)
  {
  }

  /** One pass with a cursor an input yields what the quadratic filter does. */
  method IntersectionSorted(inputs: seq<seq<int>>) returns (out: seq<int>)
    requires forall k :: 0 <= k < |inputs| ==> Ascending(inputs[k])
    ensures out == Intersection(inputs)
  {
    out := [];
    if |inputs| == 0 { return; }
    var (first, others) := (inputs[0], inputs[1..]);
    var cursors := new nat[|others|](_ => 0);
    for i := 0 to |first|
      invariant out == Filtered(first[..i], others)
      invariant if i == 0 then forall k :: 0 <= k < |others| ==> cursors[k] == 0 else AllBehind(others, cursors[..], first[i - 1])
    {
      var x := first[i];
      if i > 0 { LaterBound(others, cursors[..], first[i - 1], x); }
      var found := Probe(others, cursors, x);
      assert first[..i + 1][..i] == first[..i];
      if found { out := out + [x]; }
    }
    assert first[..|first|] == first;
  }

  // --- two sorted streams

  /** An item of `a` is kept while `b` has as many of it as `a` had so far. */
  function KeepCounted(a: seq<int>, b: seq<int>): seq<int> {
    if a == [] then []
    else
      var (before, last) := (a[..|a| - 1], a[|a| - 1]);
      var rest := KeepCounted(before, b);
      if multiset(before)[last] < multiset(b)[last] then rest + [last] else rest
  }

  lemma KeepOne(done: seq<int>, x: int, b: seq<int>)
    ensures KeepCounted(done + [x], b)
         == if multiset(done)[x] < multiset(b)[x] then KeepCounted(done, b) + [x] else KeepCounted(done, b)
  {
  }

  /** Each value comes out as often as both streams have it. */
  lemma {:induction false} KeepsTheSmallerCount(a: seq<int>, b: seq<int>)
    ensures multiset(KeepCounted(a, b)) == multiset(a) * multiset(b)
  {
    if a != [] {
      var (before, last) := (a[..|a| - 1], a[|a| - 1]);
      assert a == before + [last];
      KeepsTheSmallerCount(before, b);
    }
  }

  lemma {:induction false} KeepsTheOrder(a: seq<int>, b: seq<int>)
    requires Ascending(a)
    ensures Ascending(KeepCounted(a, b))
    ensures forall i :: 0 <= i < |KeepCounted(a, b)| ==> KeepCounted(a, b)[i] <= a[|a| - 1]
  {
    if |a| > 0 {
      var before := a[..|a| - 1];
      KeepsTheOrder(before, b);
      assert |before| > 0 ==> before[|before| - 1] <= a[|a| - 1];
    }
  }

  /** With no item of `a` repeated, that is the plain intersection. */
  lemma {:induction false} DistinctIsIntersection(a: seq<int>, b: seq<int>)
    requires forall i, j :: 0 <= i < j < |a| ==> a[i] != a[j]
    ensures KeepCounted(a, b) == Intersection([a, b])
  {
    assert [a, b][1..] == [b];
    if a != [] {
      var (before, last) := (a[..|a| - 1], a[|a| - 1]);
      DistinctIsIntersection(before, b);
      assert [before, b][1..] == [b];
      assert last !in before;
      assert InEvery(last, [b]) <==> last in b by {
        assert [b][0] == b;
      }
    }
  }

  function Min(a: nat, b: nat): nat { if a < b then a else b }

  /** Of every value still to come, as many are consumed from `b` as were kept. */
  ghost predicate Consumed(done: seq<int>, b: seq<int>, j: nat) {
    && j <= |b|
    && forall y :: (done == [] || done[|done| - 1] <= y) ==> multiset(b[..j])[y] == Min(multiset(done)[y], multiset(b)[y])
  }

  lemma AboveAll(s: seq<int>, x: int, y: int)
    requires Ascending(s + [x]) && x < y
    ensures multiset(s)[y] == 0
  {
    var longer := s + [x];
    forall i | 0 <= i < |s| ensures s[i] <= x {
      assert longer[i] <= longer[|s|];
    }
    assert y !in s;
  }

  lemma SplitCount(b: seq<int>, j: nat, y: int)
    requires j <= |b|
    ensures multiset(b)[y] == multiset(b[..j])[y] + multiset(b[j..])[y]
  {
    assert b == b[..j] + b[j..];
  }

  lemma PassOne(b: seq<int>, j: nat)
    requires j < |b|
    ensures multiset(b[..j + 1]) == multiset(b[..j]) + multiset{b[j]}
  {
    assert b[..j + 1] == b[..j] + [b[j]];
  }

  /** Whether or not `x` was found, what was consumed matches again. */
  lemma ConsumedNext(done: seq<int>, x: int, b: seq<int>, j: nat, after: nat, found: bool)
    requires Ascending(done + [x]) && Consumed(done, b, j) && j <= after <= |b|
    requires forall y :: x <= y ==> multiset(b[..after])[y] == multiset(b[..j])[y] + (if found && y == x then 1 else 0)
    requires !found ==> multiset(b[after..])[x] == 0
    ensures found <==> multiset(done)[x] < multiset(b)[x]
    ensures Consumed(done + [x], b, after)
  {
    assert done != [] ==> (done + [x])[|done| - 1] <= (done + [x])[|done|];
    SplitCount(b, after, x);
    forall y | x < y ensures multiset(b[..after])[y] == Min(multiset(done + [x])[y], multiset(b)[y]) {
      AboveAll(done, x, y);
    }
  }

  /** What was passed over from `j` on is below `x`. */
  ghost predicate PassedBelow(b: seq<int>, j: nat, after: nat, x: int)
    requires j <= after <= |b|
  {
    forall y :: x <= y ==> multiset(b[..after])[y] == multiset(b[..j])[y]
  }

  lemma NoneLeft(b: seq<int>, after: nat, x: int)
    requires Ascending(b) && after <= |b| && (after < |b| ==> x < b[after])
    ensures multiset(b[after..])[x] == 0
  {
    assert forall i :: after <= i < |b| ==> b[after] <= b[i];
    assert x !in b[after..];
  }

  method NextMatch(ghost done: seq<int>, b: seq<int>, j: nat, x: int) returns (found: bool, after: nat)
    requires Ascending(b) && Ascending(done + [x]) && Consumed(done, b, j)
    ensures found <==> multiset(done)[x] < multiset(b)[x]
    ensures Consumed(done + [x], b, after)
  {
    after := j;
    while after < |b| && b[after] <= x
      invariant j <= after <= |b| && PassedBelow(b, j, after, x)
    {
      PassOne(b, after);
      after := after + 1;
      if b[after - 1] == x {
        ConsumedNext(done, x, b, j, after, true);
        return true, after;
      }
    }
    NoneLeft(b, after, x);
    ConsumedNext(done, x, b, j, after, false);
    found := false;
  }

  lemma NothingConsumed(b: seq<int>)
    ensures Consumed([], b, 0)
  {
  }

  lemma AscendingUpTo(a: seq<int>, i: nat)
    requires Ascending(a) && i < |a|
    ensures a[..i + 1] == a[..i] + [a[i]] && Ascending(a[..i] + [a[i]])
  {
    assert a[..i + 1] == a[..i] + [a[i]];
  }

  method IntersectionSortedStream2(a: seq<int>, b: seq<int>) returns (out: seq<int>)
    requires Ascending(a) && Ascending(b)
    ensures out == KeepCounted(a, b)
  {
    out := [];
    var j := 0;
    NothingConsumed(b);
    assert a[..0] == [];
    for i := 0 to |a|
      invariant out == KeepCounted(a[..i], b)
      invariant Consumed(a[..i], b, j)
    {
      ghost var done := a[..i];
      AscendingUpTo(a, i);
      KeepOne(done, a[i], b);
      var found;
      found, j := NextMatch(done, b, j, a[i]);
      if found { out := out + [a[i]]; }
    }
    assert a[..|a|] == a;
  }

  // --- the intersection, item by item

  lemma {:induction false} FilteredIs(first: seq<int>, others: seq<seq<int>>, x: int)
    ensures multiset(Filtered(first, others))[x] == if InEvery(x, others) then multiset(first)[x] else 0
  {
    if first != [] {
      var (rest, last) := (first[..|first| - 1], first[|first| - 1]);
      FilteredIs(rest, others, x);
      assert first == rest + [last];
    }
  }

  /** For any number of inputs: an item comes out as often as the first input has it
      if every input has it, and else not at all. */
  lemma IntersectionIs(inputs: seq<seq<int>>, x: int)
    requires inputs != []
    ensures (forall k :: 0 <= k < |inputs| ==> x in inputs[k]) ==>
              multiset(Intersection(inputs))[x] == multiset(inputs[0])[x]
    ensures (exists k :: 0 <= k < |inputs| && x !in inputs[k]) ==> x !in Intersection(inputs)
  {
    FilteredIs(inputs[0], inputs[1..], x);
    if k :| 0 <= k < |inputs| && x !in inputs[k] {
      assert k > 0 ==> inputs[1..][k - 1] == inputs[k];
      assert multiset(Intersection(inputs))[x] == 0;
    }
  }

  /** The items stay in the order of the first input. */
  lemma {:induction false} FilteredAscends(first: seq<int>, others: seq<seq<int>>)
    requires Ascending(first)
    ensures Ascending(Filtered(first, others))
    ensures forall i :: 0 <= i < |Filtered(first, others)| ==> Filtered(first, others)[i] <= first[|first| - 1]
  {
    if first != [] {
      var rest := first[..|first| - 1];
      FilteredAscends(rest, others);
      assert rest != [] ==> rest[|rest| - 1] <= first[|first| - 1];
    }
  }
}
