/** State resolution's ordering of power events: Kahn's algorithm over the
    auth graph with a priority queue for the nodes that are ready.

    An event ID is known by its place in the order of IDs. */
module TopologicalSort {
  import opened Options

  datatype Id = Id(place: int)

  /** Each event and the events it depends on. */
  type Graph = map<Id, set<Id>>

  /** The sender's power level and the event's timestamp. */
  datatype Rank = Rank(power: int, timestamp: int)

  datatype Result = Ok(sorted: seq<Id>) | NotFound(id: Id)

  /** The order of `TieBreaker`: higher power, then earlier, then lower ID. */
  predicate Before(ranks: map<Id, Rank>, a: Id, b: Id)
    requires a in ranks && b in ranks
  {
    var (x, y) := (ranks[a], ranks[b]);
    x.power > y.power
    || (x.power == y.power && (x.timestamp < y.timestamp
                               || (x.timestamp == y.timestamp && a.place < b.place)))
  }

  function Nodes(s: seq<Id>): set<Id> {
    set x | x in s
  }

  /** The events not yet placed whose dependencies all are. */
  function Ready(g: Graph, placed: set<Id>): set<Id> {
    set n | n in g && n !in placed && g[n] <= placed
  }

  /** Every event comes after everything it depends on, and none comes twice. */
  ghost predicate Topological(g: Graph, s: seq<Id>) {
    forall i :: 0 <= i < |s| ==> s[i] in Ready(g, Nodes(s[..i]))
  }

  /** Each event is the first, in tie-breaking order, that could come next. */
  ghost predicate Greedy(g: Graph, ranks: map<Id, Rank>, s: seq<Id>) {
    forall i :: 0 <= i < |s| ==> IsFirst(ranks, Ready(g, Nodes(s[..i])), s[i])
  }

  ghost predicate IsFirst(ranks: map<Id, Rank>, ready: set<Id>, n: Id) {
    && n in ready && n in ranks
    && forall m :: m in ready && m in ranks && m != n ==> Before(ranks, n, m)
  }

  /** What the sort promises: a greedy order that nothing can extend. */
  ghost predicate Sorted(g: Graph, ranks: map<Id, Rank>, s: seq<Id>) {
    Topological(g, s) && Greedy(g, ranks, s) && Ready(g, Nodes(s)) == {} && Nodes(s) <= ranks.Keys
  }

  // --- what the promise means

  /** The result is the only one possible, whatever order the hash maps are
      walked in. */
  lemma {:induction false} SortedIsUnique(g: Graph, ranks: map<Id, Rank>, s: seq<Id>, t: seq<Id>)
    requires Sorted(g, ranks, s) && Sorted(g, ranks, t)
    ensures s == t
  {
    var n := CommonPrefix(g, ranks, s, t, 0);
  }

  lemma OneFirst(ranks: map<Id, Rank>, ready: set<Id>, a: Id, b: Id)
    requires IsFirst(ranks, ready, a) && IsFirst(ranks, ready, b)
    ensures a == b
  {
  }

  lemma CommonPrefix(g: Graph, ranks: map<Id, Rank>, s: seq<Id>, t: seq<Id>, k: nat) returns (n: nat)
    requires Sorted(g, ranks, s) && Sorted(g, ranks, t)
    requires k <= |s| && k <= |t| && s[..k] == t[..k]
    ensures n == |s| == |t| && s == t
    decreases |s| - k
  {
    assert s == s[..|s|] && t == t[..|t|];
    assert k < |t| ==> t[k] in Ready(g, Nodes(t[..k]));
    if k == |s| {
      n := k;
    } else {
      assert s[k] in Ready(g, Nodes(s[..k]));
      var ready := Ready(g, Nodes(s[..k]));
      OneFirst(ranks, ready, s[k], t[k]);
      assert s[..k + 1] == s[..k] + [s[k]] && t[..k + 1] == t[..k] + [t[k]];
      n := CommonPrefix(g, ranks, s, t, k + 1);
    }
  }

  /** Nothing that could be ordered is left out: every dependency order of the
      graph places only events the sort places too. */
  lemma {:induction false} SortedIsMaximal(g: Graph, ranks: map<Id, Rank>, s: seq<Id>, other: seq<Id>)
    requires Sorted(g, ranks, s) && Topological(g, other)
    ensures Nodes(other) <= Nodes(s)
  {
    if other != [] {
      var k := |other| - 1;
      forall i | 0 <= i < k ensures other[..k][i] in Ready(g, Nodes(other[..k][..i])) {
        assert other[..k][..i] == other[..i];
      }
      SortedIsMaximal(g, ranks, s, other[..k]);
      var last := other[k];
      assert other == other[..k] + [last];
      assert last in Nodes(s) || last in Ready(g, Nodes(s));
    }
  }

  /** Among all dependency orders it is the first in tie-breaking order: where
      another one departs from it, the other places a later event. */
  lemma SortedIsLeast(g: Graph, ranks: map<Id, Rank>, s: seq<Id>, other: seq<Id>, k: nat)
    requires Sorted(g, ranks, s) && Topological(g, other)
    requires k < |other| && k <= |s| && other[..k] == s[..k]
    ensures k < |s| && other[k] in ranks
    ensures other[k] == s[k] || Before(ranks, s[k], other[k])
  {
    assert other[k] in Ready(g, Nodes(s[..k]));
    SortedIsMaximal(g, ranks, s, other);
    assert other[k] in Nodes(other);
    assert s[..|s|] == s;
  }

  /** By power from the top; of equal power by time; of equal time by ID. */
  ghost predicate RanksFirst(ranks: map<Id, Rank>, a: Id, b: Id) {
    && a in ranks && b in ranks && ranks[b].power <= ranks[a].power
    && (ranks[a].power == ranks[b].power ==> ranks[a].timestamp <= ranks[b].timestamp)
    && (ranks[a] == ranks[b] ==> a.place < b.place)
  }

  /** An event that could have come where another one stands ranks below it. */
  lemma RankDecides(g: Graph, ranks: map<Id, Rank>, s: seq<Id>, i: nat, j: nat)
    requires Sorted(g, ranks, s) && i < j < |s| && s[j] in g && g[s[j]] <= Nodes(s[..i])
    ensures RanksFirst(ranks, s[i], s[j])
  {
    Distinct(g, s);
    assert s[j] !in s[..i] && s[j] in Nodes(s);
    assert IsFirst(ranks, Ready(g, Nodes(s[..i])), s[i]);
  }

  /** An event without a rank that some dependency order reaches leaves nothing
      the sort could answer. */
  lemma MissingRankHasNoAnswer(g: Graph, ranks: map<Id, Rank>, s: seq<Id>, id: Id, answer: seq<Id>)
    requires Topological(g, s) && id in Ready(g, Nodes(s)) && id !in ranks
    ensures !Sorted(g, ranks, answer)
  {
    var t := s + [id];
    forall i | 0 <= i < |t| ensures t[i] in Ready(g, Nodes(t[..i])) {
      assert t[..i] == s[..i];
      assert s[..|s|] == s;
    }
    assert id in Nodes(t) by { assert t[|s|] == id; }
    if Sorted(g, ranks, answer) {
      SortedIsMaximal(g, ranks, answer, t);
    }
  }

  /** No cycles and no dangling dependencies: each event has a depth above
      everything it depends on. */
  ghost predicate Grounded(g: Graph, depth: Id -> nat) {
    forall n, m :: n in g && m in g[n] ==> m in g && depth(m) < depth(n)
  }

  /** Such a graph is placed whole. */
  lemma GroundedIsPlacedWhole(g: Graph, ranks: map<Id, Rank>, s: seq<Id>, depth: Id -> nat)
    requires Sorted(g, ranks, s) && Grounded(g, depth)
    ensures Nodes(s) == g.Keys && |s| == |g|
  {
    forall i | 0 <= i < |s| ensures s[i] in g {
      assert s[i] in Ready(g, Nodes(s[..i]));
    }
    forall n | n in g ensures n in s { IsPlaced(g, ranks, s, depth, n); }
    Distinct(g, s);
    SizeOfDistinct(s);
  }

  lemma {:induction false} IsPlaced(g: Graph, ranks: map<Id, Rank>, s: seq<Id>, depth: Id -> nat, n: Id)
    requires Sorted(g, ranks, s) && Grounded(g, depth) && n in g
    ensures n in s
    decreases depth(n)
  {
    forall m | m in g[n] ensures m in s { IsPlaced(g, ranks, s, depth, m); }
    assert n in Nodes(s) || n in Ready(g, Nodes(s));
  }

  lemma Distinct(g: Graph, s: seq<Id>)
    requires Topological(g, s)
    ensures forall i, j :: 0 <= i < j < |s| ==> s[i] != s[j]
  {
  }

  lemma {:induction false} SizeOfDistinct(s: seq<Id>)
    requires forall i, j :: 0 <= i < j < |s| ==> s[i] != s[j]
    ensures |Nodes(s)| == |s|
  {
    if s == [] {
      assert Nodes(s) == {};
    } else {
      var k := |s| - 1;
      SizeOfDistinct(s[..k]);
      assert s == s[..k] + [s[k]];
      assert s[k] !in s[..k];
      assert Nodes(s) == Nodes(s[..k]) + {s[k]};
    }
  }

  // --- the algorithm

  lemma {:induction false} FirstExists(ranks: map<Id, Rank>, ready: set<Id>) returns (first: Id)
    requires ready != {} && ready <= ranks.Keys
    ensures IsFirst(ranks, ready, first)
    decreases |ready|
  {
    assert exists n :: n in ready;
    var n :| n in ready;
    if ready == {n} { return n; }
    assert ready == {n} + (ready - {n});
    first := FirstExists(ranks, ready - {n});
    if Before(ranks, n, first) { first := n; }
  }

  /** `heap.pop()`: takes the first of the ready events. */
  method PopFirst(heap: set<Id>, ranks: map<Id, Rank>) returns (node: Id, rest: set<Id>)
    requires heap != {} && heap <= ranks.Keys
    ensures IsFirst(ranks, heap, node) && rest == heap - {node}
    ensures forall m :: m in rest ==> RanksFirst(ranks, node, m)
  {
    ghost var _ := FirstExists(ranks, heap);
    node :| node in heap && forall m :: m in heap && m != node ==> Before(ranks, node, m);
    rest := heap - {node};
  }

  /** `reverse[n]` lists who depends on `n`, as far as the events outside `todo`
      say, and covers everything they name. */
  ghost predicate Inverse(g: Graph, reverse: Graph, todo: set<Id>) {
    && g.Keys - todo <= reverse.Keys
    && (forall n, p :: n in reverse ==> (p in reverse[n] <==> p in g && p !in todo && n in g[p]))
    && (forall n, p :: p in g && p !in todo && n in g[p] ==> n in reverse)
  }

  /** `r` is `reverse` with `node` recorded as a dependant of `edges`. */
  ghost predicate Recorded(reverse: Graph, node: Id, edges: set<Id>, r: Graph) {
    && r.Keys == reverse.Keys + {node} + edges
    && forall n, p :: n in r ==> (p in r[n] <==> (n in reverse && p in reverse[n]) || (n in edges && p == node))
  }

  lemma RecordNone(reverse: Graph, node: Id, none: set<Id>)
    requires none == {}
    ensures Recorded(reverse, node, none, if node in reverse then reverse else reverse[node := {}])
  {
  }

  function Depend(r: Graph, edge: Id, node: Id): Graph {
    r[edge := (if edge in r then r[edge] else {}) + {node}]
  }

  lemma RecordOne(reverse: Graph, node: Id, edges: set<Id>, r: Graph, edge: Id)
    requires Recorded(reverse, node, edges, r)
    ensures Recorded(reverse, node, edges + {edge}, Depend(r, edge, node))
  {
  }

  /** Records `node` as a dependant of each of its dependencies. */
  method AddDependant(reverse: Graph, node: Id, edges: set<Id>) returns (r: Graph)
    ensures Recorded(reverse, node, edges, r)
  {
    r := if node in reverse then reverse else reverse[node := {}];
    var todo := edges;
    ghost var done: set<Id> := {};
    RecordNone(reverse, node, done);
    while todo != {}
      invariant done + todo == edges && Recorded(reverse, node, done, r)
      decreases |todo|
    {
      var edge :| edge in todo;
      RecordOne(reverse, node, done, r, edge);
      r := Depend(r, edge, node);
      todo, done := todo - {edge}, done + {edge};
    }
  }

  /** The first pass: who depends on whom, and which events wait for nothing.
      It stops at an event that has no rank. */
  method Invert(g: Graph, ranks: map<Id, Rank>) returns (reverse: Graph, heap: set<Id>, missing: Option<Id>)
    ensures missing.Some? ==> missing.value in Ready(g, {}) && missing.value !in ranks
    ensures missing.None? ==> heap == Ready(g, {}) && heap <= ranks.Keys && Inverse(g, reverse, {})
  {
    reverse, heap, missing := map[], {}, None;
    var todo := g.Keys;
    while todo != {}
      invariant todo <= g.Keys && Inverse(g, reverse, todo) && missing.None?
      invariant heap <= ranks.Keys && forall n :: n in heap <==> n in g && n !in todo && g[n] == {}
      decreases |todo|
    {
      var node :| node in todo;
      if g[node] == {} {
        if node !in ranks {
          missing := Some(node);
          return;
        }
        heap := heap + {node};
      }
      ghost var before := reverse;
      reverse := AddDependant(reverse, node, g[node]);
      InverseGrows(g, before, todo, node, reverse);
      todo := todo - {node};
    }
  }

  lemma InverseGrows(g: Graph, reverse: Graph, todo: set<Id>, node: Id, r: Graph)
    requires Inverse(g, reverse, todo) && node in todo && todo <= g.Keys && Recorded(reverse, node, g[node], r)
    ensures Inverse(g, r, todo - {node})
  {
  }

  /** `waiting` is what each event still waits for once `placed` is placed. */
  ghost predicate Waits(g: Graph, waiting: Graph, placed: set<Id>) {
    waiting.Keys == g.Keys && forall n :: n in g ==> waiting[n] == g[n] - placed
  }

  /** As `Waits` with `node` placed too, except that `todo` still waits for it. */
  ghost predicate WaitsBut(g: Graph, waiting: Graph, placed: set<Id>, node: Id, todo: set<Id>) {
    && waiting.Keys == g.Keys
    && forall n :: n in g ==> waiting[n] == if n in todo then g[n] - placed else g[n] - placed - {node}
  }

  lemma ReleaseOne(g: Graph, w: Graph, placed: set<Id>, node: Id, todo: set<Id>, parent: Id)
    requires WaitsBut(g, w, placed, node, todo) && parent in todo && parent in g && node !in placed
    ensures WaitsBut(g, w[parent := w[parent] - {node}], placed, node, todo - {parent})
    ensures w[parent] - {node} == {} <==> g[parent] <= placed + {node}
  {
    assert w[parent] - {node} == g[parent] - (placed + {node});
  }

  /** Removes the placed `node` from its dependants' dependencies; the ones
      left waiting for nothing are now ready. */
  method Release(g: Graph, ranks: map<Id, Rank>, node: Id, dependants: set<Id>, waiting: Graph, ghost placed: set<Id>)
    returns (w: Graph, freed: set<Id>, missing: Option<Id>)
    requires forall p :: p in dependants <==> p in g && node in g[p]
    requires dependants !! placed + {node} && node !in placed && Waits(g, waiting, placed)
    ensures missing.Some? ==> missing.value in Ready(g, placed + {node}) && missing.value !in ranks
    ensures missing.None? ==>
              && Waits(g, w, placed + {node}) && freed <= ranks.Keys
              && forall n :: n in freed <==> n in dependants && g[n] <= placed + {node}
  {
    w, freed, missing := waiting, {}, None;
    var todo := dependants;
    while todo != {}
      invariant todo <= dependants && w.Keys == g.Keys && freed <= ranks.Keys && missing.None?
      invariant WaitsBut(g, w, placed, node, todo)
      invariant forall n :: n in freed <==> n in dependants && n !in todo && g[n] <= placed + {node}
      decreases |todo|
    {
      var parent :| parent in todo;
      ReleaseOne(g, w, placed, node, todo, parent);
      todo := todo - {parent};
      w := w[parent := w[parent] - {node}];
      if w[parent] == {} {
        if parent !in ranks {
          missing := Some(parent);
          return;
        }
        freed := freed + {parent};
      }
    }
    NoneWaits(g, w, placed, node, todo);
  }

  lemma NoneWaits(g: Graph, w: Graph, placed: set<Id>, node: Id, todo: set<Id>)
    requires WaitsBut(g, w, placed, node, todo) && todo == {}
    ensures Waits(g, w, placed + {node})
  {
  }

  /** Nobody who depends on a ready event has been placed. */
  lemma DependantsWait(g: Graph, reverse: Graph, s: seq<Id>, node: Id)
    requires Topological(g, s) && node in Ready(g, Nodes(s)) && Inverse(g, reverse, {})
    ensures forall p :: p in reverse[node] <==> p in g && node in g[p]
    ensures reverse[node] !! Nodes(s) + {node}
  {
  }

  /** The loop's state: a sorted prefix, the events ready to follow it, and
      what the others still wait for. */
  ghost predicate Sorting(g: Graph, ranks: map<Id, Rank>, sorted: seq<Id>, heap: set<Id>, waiting: Graph) {
    && Partial(g, ranks, sorted)
    && heap == Ready(g, Nodes(sorted)) && heap <= ranks.Keys
    && Waits(g, waiting, Nodes(sorted))
  }

  /** Some dependency order comes to where `id` could be placed. */
  ghost predicate Reached(g: Graph, id: Id) {
    exists s :: Topological(g, s) && id in Ready(g, Nodes(s))
  }

  lemma NothingPlaced(g: Graph, ranks: map<Id, Rank>)
    ensures Ready(g, {}) <= ranks.Keys ==> Sorting(g, ranks, [], Ready(g, {}), g)
    ensures forall id :: id in Ready(g, {}) ==> Reached(g, id)
  {
    var none: seq<Id> := [];
    assert Nodes(none) == {} && Topological(g, none);
  }

  lemma FewerLeft(g: Graph, s: seq<Id>, n: Id)
    requires n in g && n !in Nodes(s)
    ensures |g.Keys - Nodes(s + [n])| < |g.Keys - Nodes(s)|
  {
    assert g.Keys - Nodes(s + [n]) == g.Keys - Nodes(s) - {n};
  }

  /** One turn of the loop: places the first ready event. */
  method PlaceNext(g: Graph, ranks: map<Id, Rank>, reverse: Graph, sorted: seq<Id>, heap: set<Id>, waiting: Graph)
    returns (node: Id, heap': set<Id>, waiting': Graph, missing: Option<Id>)
    requires Sorting(g, ranks, sorted, heap, waiting) && heap != {} && Inverse(g, reverse, {})
    ensures node in g && node !in Nodes(sorted) && Partial(g, ranks, sorted + [node])
    ensures missing.None? ==> Sorting(g, ranks, sorted + [node], heap', waiting')
    ensures missing.Some? ==> Reached(g, missing.value) && missing.value !in ranks
  {
    var rest, freed;
    node, rest := PopFirst(heap, ranks);
    DependantsWait(g, reverse, sorted, node);
    Extend(g, ranks, sorted, node);
    waiting', freed, missing := Release(g, ranks, node, reverse[node], waiting, Nodes(sorted));
    heap' := rest + freed;
    if missing.None? {
      NextReady(g, Nodes(sorted), node, freed);
    }
  }

  /** `lexicographical_topological_sort`: the result is the sorted order, or
      an event that had to be placed but has no rank. */
  method Sort(g: Graph, ranks: map<Id, Rank>) returns (result: Result)
    ensures result.Ok? ==> Sorted(g, ranks, result.sorted)
    ensures result.NotFound? ==> result.id !in ranks && Reached(g, result.id)
  {
    var reverse, heap, missing := Invert(g, ranks);
    var sorted: seq<Id> := [];
    NothingPlaced(g, ranks);
    if missing.Some? {
      return NotFound(missing.value);
    }
    var waiting := g;
    while heap != {}
      invariant Sorting(g, ranks, sorted, heap, waiting)
      decreases |g.Keys - Nodes(sorted)|
    {
      var node;
      node, heap, waiting, missing := PlaceNext(g, ranks, reverse, sorted, heap, waiting);
      FewerLeft(g, sorted, node);
      sorted := sorted + [node];
      if missing.Some? {
        return NotFound(missing.value);
      }
    }
    return Ok(sorted);
  }

  lemma NextReady(g: Graph, placed: set<Id>, node: Id, freed: set<Id>)
    requires node in Ready(g, placed)
    requires forall n :: n in freed <==> n in g && node in g[n] && g[n] <= placed + {node}
    requires forall n :: n in freed ==> n !in placed + {node}
    ensures Ready(g, placed + {node}) == Ready(g, placed) - {node} + freed
  {
  }

  ghost predicate Partial(g: Graph, ranks: map<Id, Rank>, s: seq<Id>) {
    Topological(g, s) && Greedy(g, ranks, s) && Nodes(s) <= ranks.Keys
  }

  lemma Extend(g: Graph, ranks: map<Id, Rank>, s: seq<Id>, n: Id)
    requires Partial(g, ranks, s) && IsFirst(ranks, Ready(g, Nodes(s)), n)
    ensures Partial(g, ranks, s + [n]) && Nodes(s + [n]) == Nodes(s) + {n}
  {
    forall i | 0 <= i < |s + [n]|
      ensures IsFirst(ranks, Ready(g, Nodes((s + [n])[..i])), (s + [n])[i])
      ensures (s + [n])[i] in Ready(g, Nodes((s + [n])[..i]))
    {
      assert (s + [n])[..i] == s[..i];
      assert s[..|s|] == s;
    }
  }
}
