/** State resolution's walks over the auth graph: the conflicted state
    subgraph of version 2.1, and the graph handed to the power-event sort. */
module AuthGraph {
  import opened TopologicalSort

  /** The auth events each known event lists; an event that cannot be fetched
      lists none. */
  type Auth = map<Id, seq<Id>>

  function AuthOf(auth: Auth, id: Id): seq<Id> {
    if id in auth then auth[id] else []
  }

  /** Following auth events, one to the next. */
  ghost predicate IsPath(auth: Auth, p: seq<Id>) {
    p != [] && forall i :: 0 <= i < |p| - 1 ==> Link(auth, p, i)
  }

  ghost predicate Link(auth: Auth, p: seq<Id>, i: nat)
    requires i < |p| - 1
  {
    p[i + 1] in AuthOf(auth, p[i])
  }

  ghost predicate PathBetween(auth: Auth, p: seq<Id>, from: Id, to: Id) {
    IsPath(auth, p) && p[0] == from && p[|p| - 1] == to
  }

  ghost predicate Leads(auth: Auth, from: Id, to: Id) {
    exists p :: PathBetween(auth, p, from, to)
  }

  /** An event that conflicts, or from which a conflicted event is reached. */
  ghost predicate Reaches(auth: Auth, conflicted: set<Id>, id: Id) {
    exists c :: c in conflicted && Leads(auth, id, c)
  }

  ghost predicate ReachedFrom(auth: Auth, conflicted: set<Id>, id: Id) {
    exists c :: c in conflicted && Leads(auth, c, id)
  }

  /** On an auth path between two conflicted events, endpoints included. */
  ghost predicate OnConflictedPath(auth: Auth, conflicted: set<Id>, id: Id) {
    exists p, i :: IsPath(auth, p) && p[0] in conflicted && p[|p| - 1] in conflicted && 0 <= i < |p| && p[i] == id
  }

  /** No event is among the events that authorise it: an event's ID is a hash
      over the auth events it lists. */
  ghost predicate Acyclic(auth: Auth, depth: Id -> nat) {
    forall n, c :: n in auth && c in auth[n] ==> depth(c) < depth(n)
  }

  // --- paths

  lemma Here(auth: Auth, id: Id)
    ensures Leads(auth, id, id)
  {
    assert PathBetween(auth, [id], id, id);
  }

  lemma StepThen(auth: Auth, from: Id, via: Id, to: Id)
    requires via in AuthOf(auth, from) && Leads(auth, via, to)
    ensures Leads(auth, from, to)
  {
    var p :| PathBetween(auth, p, via, to);
    var q := [from] + p;
    forall i | 0 <= i < |q| - 1 ensures Link(auth, q, i) {
      if i > 0 { assert Link(auth, p, i - 1); assert q[i] == p[i - 1] && q[i + 1] == p[i]; }
    }
    assert PathBetween(auth, q, from, to);
  }

  lemma ThenStep(auth: Auth, from: Id, via: Id, to: Id)
    requires Leads(auth, from, via) && to in AuthOf(auth, via)
    ensures Leads(auth, from, to)
  {
    var p :| PathBetween(auth, p, from, via);
    var q := p + [to];
    forall i | 0 <= i < |q| - 1 ensures Link(auth, q, i) {
      assert q[i] == p[i];
      if i + 1 < |p| { assert Link(auth, p, i); assert q[i + 1] == p[i + 1]; }
    }
    assert PathBetween(auth, q, from, to);
  }

  /** The verdict of the post-order walk. */
  lemma ReachesStep(auth: Auth, conflicted: set<Id>, id: Id)
    ensures Reaches(auth, conflicted, id)
       <==> id in conflicted || exists a :: a in AuthOf(auth, id) && Reaches(auth, conflicted, a)
  {
    if id in conflicted {
      Here(auth, id);
    } else {
      if Reaches(auth, conflicted, id) {
        var c :| c in conflicted && Leads(auth, id, c);
        var p :| PathBetween(auth, p, id, c);
        var a := p[1];
        assert PathBetween(auth, p[1..], a, c) by {
          forall i | 0 <= i < |p[1..]| - 1 ensures Link(auth, p[1..], i) {
            assert Link(auth, p, i + 1);
          }
        }
        assert Link(auth, p, 0);
        assert Leads(auth, a, c);
        assert Reaches(auth, conflicted, a);
      }
      if a :| a in AuthOf(auth, id) && Reaches(auth, conflicted, a) {
        var c :| c in conflicted && Leads(auth, a, c);
        StepThen(auth, id, a, c);
      }
    }
  }

  lemma OnPathMeansBothWays(auth: Auth, conflicted: set<Id>, id: Id)
    ensures OnConflictedPath(auth, conflicted, id) <==> ReachedFrom(auth, conflicted, id) && Reaches(auth, conflicted, id)
  {
    if OnConflictedPath(auth, conflicted, id) {
      var p, i :| IsPath(auth, p) && p[0] in conflicted && p[|p| - 1] in conflicted && 0 <= i < |p| && p[i] == id;
      var before := p[..i + 1];
      forall j | 0 <= j < |before| - 1 ensures Link(auth, before, j) { assert Link(auth, p, j); }
      forall j | 0 <= j < |p| - i - 1 ensures Link(auth, p[i..], j) { assert Link(auth, p, i + j); }
      assert PathBetween(auth, before, p[0], id);
      assert PathBetween(auth, p[i..], id, p[|p| - 1]);
      assert Leads(auth, p[0], id) && Leads(auth, id, p[|p| - 1]);
    }
    if ReachedFrom(auth, conflicted, id) && Reaches(auth, conflicted, id) {
      var c :| c in conflicted && Leads(auth, c, id);
      var d :| d in conflicted && Leads(auth, id, d);
      var p :| PathBetween(auth, p, c, id);
      var q :| PathBetween(auth, q, id, d);
      var i := |p| - 1;
      var r := p + q[1..];
      forall j | 0 <= j < |r| - 1 ensures Link(auth, r, j) {
        if j < i { assert Link(auth, p, j); assert r[j] == p[j] && r[j + 1] == p[j + 1]; }
        else { assert Link(auth, q, j - i); assert r[j] == q[j - i] && r[j + 1] == q[j + 1 - i]; }
      }
      assert IsPath(auth, r) && r[0] == c && r[i] == id && r[|r| - 1] == d;
    }
  }

  // --- the post-order walk

  /** A stack entry, and whether its auth events were pushed already. */
  datatype Frame = Frame(id: Id, expanded: bool)

  ghost predicate Stacked(stack: seq<Frame>, from: nat, id: Id) {
    exists j :: from <= j < |stack| && stack[j].id == id
  }

  ghost predicate Awaited(stack: seq<Frame>, id: Id) {
    exists j :: 0 <= j < |stack| && stack[j] == Frame(id, true)
  }

  /** Everything a walk from these events can come to. */
  ghost function Sources(auth: Auth, conflicted: set<Id>): iset<Id> {
    iset id | ReachedFrom(auth, conflicted, id)
  }

  ghost predicate Closed(auth: Auth, known: iset<Id>) {
    forall n, a :: n in known && a in AuthOf(auth, n) ==> a in known
  }

  lemma SourcesAreClosed(auth: Auth, conflicted: set<Id>)
    ensures Closed(auth, Sources(auth, conflicted))
  {
    forall n, a | n in Sources(auth, conflicted) && a in AuthOf(auth, n) ensures a in Sources(auth, conflicted) {
      ReachedStep(auth, conflicted, n, a);
    }
  }

  /** What the walk has seen is `known`, and covers the conflicted events. */
  ghost predicate Sound(auth: Auth, known: iset<Id>, conflicted: set<Id>, stack: seq<Frame>, seen: Auth) {
    && (forall i :: 0 <= i < |stack| ==> stack[i].id in known)
    && (forall v :: v in seen ==> v in known && seen[v] == AuthOf(auth, v))
    && (forall c :: c in conflicted ==> c in seen || Stacked(stack, 0, c))
  }

  /** The stack discipline: an expanded event waits below everything it
      authorises itself by that has no verdict yet, and all above it is deeper. */
  ghost predicate Disciplined(auth: Auth, depth: Id -> nat, stack: seq<Frame>, seen: Auth, verdict: map<Id, bool>) {
    && verdict.Keys <= seen.Keys
    && (forall v :: v in seen ==> v in verdict || Awaited(stack, v))
    && (forall k :: 0 <= k < |stack| && stack[k].expanded ==> stack[k].id in seen)
    && (forall k :: 0 <= k < |stack| && stack[k].expanded ==> Covered(auth, stack, verdict, k))
    && (forall j, k :: 0 <= j < k < |stack| && stack[j].expanded ==> depth(stack[k].id) < depth(stack[j].id))
  }

  ghost predicate Covered(auth: Auth, stack: seq<Frame>, verdict: map<Id, bool>, k: nat)
    requires k < |stack|
  {
    forall a :: a in AuthOf(auth, stack[k].id) ==> a in verdict || Stacked(stack, k + 1, a)
  }

  /** Every verdict given is right, and covers the event's own auth events. */
  ghost predicate Decided(auth: Auth, conflicted: set<Id>, verdict: map<Id, bool>) {
    forall v :: v in verdict ==>
      && verdict[v] == Reaches(auth, conflicted, v)
      && forall a :: a in AuthOf(auth, v) ==> a in verdict
  }

  lemma StackedBelow(rest: seq<Frame>, top: Frame, from: nat, id: Id)
    requires Stacked(rest + [top], from, id)
    ensures Stacked(rest, from, id) || (top.id == id && from <= |rest|)
  {
  }

  lemma AwaitedBelow(rest: seq<Frame>, top: Frame, id: Id)
    requires Awaited(rest + [top], id) && top != Frame(id, true)
    ensures Awaited(rest, id)
  {
  }

  /** Popping an expanded event: its verdict can be given. */
  lemma Finish(auth: Auth, known: iset<Id>, conflicted: set<Id>, depth: Id -> nat, rest: seq<Frame>, id: Id, seen: Auth, verdict: map<Id, bool>, verdict': map<Id, bool>)
    requires var stack := rest + [Frame(id, true)];
             Sound(auth, known, conflicted, stack, seen) && Disciplined(auth, depth, stack, seen, verdict)
    requires Decided(auth, conflicted, verdict)
    requires verdict' == verdict[id := id in conflicted || exists a :: a in AuthOf(auth, id) && a in verdict && verdict[a]]
    ensures Sound(auth, known, conflicted, rest, seen) && Disciplined(auth, depth, rest, seen, verdict')
    ensures Decided(auth, conflicted, verdict')
  {
    var stack := rest + [Frame(id, true)];
    assert stack[|rest|] == Frame(id, true);
    assert Covered(auth, stack, verdict, |rest|);
    PopSound(auth, known, conflicted, rest, Frame(id, true), seen);
    FinishDecided(auth, conflicted, id, verdict, verdict');
    FinishDisciplined(auth, depth, rest, id, seen, verdict, verdict');
  }

  /** Popping an event already seen loses nothing. */
  lemma PopSound(auth: Auth, known: iset<Id>, conflicted: set<Id>, rest: seq<Frame>, top: Frame, seen: Auth)
    requires Sound(auth, known, conflicted, rest + [top], seen) && top.id in seen
    ensures Sound(auth, known, conflicted, rest, seen)
  {
    var stack := rest + [top];
    assert forall i :: 0 <= i < |rest| ==> stack[i] == rest[i];
    forall c | c in conflicted ensures c in seen || Stacked(rest, 0, c) {
      if c !in seen { StackedBelow(rest, top, 0, c); }
    }
  }

  lemma FinishDecided(auth: Auth, conflicted: set<Id>, id: Id, verdict: map<Id, bool>, verdict': map<Id, bool>)
    requires Decided(auth, conflicted, verdict) && forall a :: a in AuthOf(auth, id) ==> a in verdict
    requires verdict' == verdict[id := id in conflicted || exists a :: a in AuthOf(auth, id) && a in verdict && verdict[a]]
    ensures Decided(auth, conflicted, verdict')
  {
    ReachesStep(auth, conflicted, id);
  }

  lemma FinishDisciplined(auth: Auth, depth: Id -> nat, rest: seq<Frame>, id: Id, seen: Auth, verdict: map<Id, bool>, verdict': map<Id, bool>)
    requires Disciplined(auth, depth, rest + [Frame(id, true)], seen, verdict) && verdict'.Keys == verdict.Keys + {id} && id in seen
    ensures Disciplined(auth, depth, rest, seen, verdict')
  {
    var top := Frame(id, true);
    var stack := rest + [top];
    assert forall i :: 0 <= i < |rest| ==> stack[i] == rest[i];
    forall v | v in seen ensures v in verdict' || Awaited(rest, v) {
      if v !in verdict && v != id { AwaitedBelow(rest, top, v); }
    }
    forall k | 0 <= k < |rest| && rest[k].expanded ensures Covered(auth, rest, verdict', k) {
      assert Covered(auth, stack, verdict, k);
      forall a | a in AuthOf(auth, rest[k].id) ensures a in verdict' || Stacked(rest, k + 1, a) {
        if a !in verdict { StackedBelow(rest, top, k + 1, a); }
      }
    }
  }

  /** Popping an event that was pushed again after it was seen. */
  lemma Skip(auth: Auth, known: iset<Id>, conflicted: set<Id>, depth: Id -> nat, rest: seq<Frame>, id: Id, seen: Auth, verdict: map<Id, bool>)
    requires Acyclic(auth, depth) && id in seen
    requires var stack := rest + [Frame(id, false)];
             Sound(auth, known, conflicted, stack, seen) && Disciplined(auth, depth, stack, seen, verdict)
    ensures Sound(auth, known, conflicted, rest, seen) && Disciplined(auth, depth, rest, seen, verdict)
  {
    var top := Frame(id, false);
    var stack := rest + [top];
    assert forall i :: 0 <= i < |rest| ==> stack[i] == rest[i];
    PopSound(auth, known, conflicted, rest, top, seen);
    forall v | v in seen ensures v in verdict || Awaited(rest, v) {
      if v !in verdict { AwaitedBelow(rest, top, v); }
    }
    forall k | 0 <= k < |rest| && rest[k].expanded ensures Covered(auth, rest, verdict, k) {
      assert Covered(auth, stack, verdict, k);
      forall a | a in AuthOf(auth, rest[k].id) ensures a in verdict || Stacked(rest, k + 1, a) {
        if a !in verdict {
          StackedBelow(rest, top, k + 1, a);
          if a == id {
            var j :| 0 <= j < |rest| && rest[j] == Frame(id, true);
            assert depth(id) < depth(rest[k].id);
            assert j > k;
          }
        }
      }
    }
  }

  /** The auth events not seen yet, pushed to be walked. */
  function Unseen(ids: seq<Id>, seen: Auth): (r: seq<Frame>)
    ensures forall f :: f in r <==> f.id in ids && f.id !in seen && !f.expanded
  {
    if ids == [] then []
    else (if ids[0] in seen then [] else [Frame(ids[0], false)]) + Unseen(ids[1..], seen)
  }

  /** `stack'` is `stack` with its last event expanded and its unseen auth
      events on top of it. */
  ghost predicate Expansion(auth: Auth, stack: seq<Frame>, seen: Auth, stack': seq<Frame>)
    requires stack != []
  {
    var n := |stack| - 1;
    var ids := AuthOf(auth, stack[n].id);
    && n < |stack'| && stack'[n] == Frame(stack[n].id, true)
    && (forall i :: 0 <= i < n ==> stack'[i] == stack[i])
    && (forall i :: n < i < |stack'| ==> !stack'[i].expanded && stack'[i].id in ids)
    && (forall a :: a in ids && a !in seen ==> Stacked(stack', n + 1, a))
  }

  lemma UnseenExpands(auth: Auth, stack: seq<Frame>, seen: Auth)
    requires stack != []
    ensures var n := |stack| - 1;
            Expansion(auth, stack, seen, stack[..n] + [Frame(stack[n].id, true)] + Unseen(AuthOf(auth, stack[n].id), seen))
  {
    var n := |stack| - 1;
    var ids := AuthOf(auth, stack[n].id);
    var pushed := Unseen(ids, seen);
    var stack' := stack[..n] + [Frame(stack[n].id, true)] + pushed;
    forall i | n < i < |stack'| ensures !stack'[i].expanded && stack'[i].id in ids {
      assert stack'[i] == pushed[i - n - 1];
      assert stack'[i] in pushed;
    }
    forall a | a in ids && a !in seen ensures Stacked(stack', n + 1, a) {
      assert Frame(a, false) in pushed;
      var i :| 0 <= i < |pushed| && pushed[i] == Frame(a, false);
      assert stack'[n + 1 + i].id == a;
    }
  }

  lemma ExpandSound(auth: Auth, known: iset<Id>, conflicted: set<Id>, stack: seq<Frame>, seen: Auth, stack': seq<Frame>)
    requires Closed(auth, known) && stack != [] && Sound(auth, known, conflicted, stack, seen) && Expansion(auth, stack, seen, stack')
    ensures var id := stack[|stack| - 1].id; Sound(auth, known, conflicted, stack', seen[id := AuthOf(auth, id)])
  {
  }

  lemma ReachedStep(auth: Auth, conflicted: set<Id>, id: Id, a: Id)
    requires ReachedFrom(auth, conflicted, id) && a in AuthOf(auth, id)
    ensures ReachedFrom(auth, conflicted, a)
  {
    var c :| c in conflicted && Leads(auth, c, id);
    ThenStep(auth, c, id, a);
  }

  lemma StaysStacked(auth: Auth, stack: seq<Frame>, seen: Auth, stack': seq<Frame>, from: nat, id: Id)
    requires stack != [] && Expansion(auth, stack, seen, stack')
    ensures Stacked(stack, from, id) ==> Stacked(stack', from, id)
    ensures Awaited(stack, id) && !stack[|stack| - 1].expanded ==> Awaited(stack', id)
  {
  }

  /** Popping an event for the first time: it waits below its auth events. */
  lemma ExpandDisciplined(auth: Auth, depth: Id -> nat, stack: seq<Frame>, seen: Auth, verdict: map<Id, bool>, stack': seq<Frame>)
    requires Acyclic(auth, depth) && stack != [] && !stack[|stack| - 1].expanded
    requires Disciplined(auth, depth, stack, seen, verdict) && Expansion(auth, stack, seen, stack')
    ensures var id := stack[|stack| - 1].id; Disciplined(auth, depth, stack', seen[id := AuthOf(auth, id)], verdict)
  {
    forall v | v in seen && v !in verdict ensures Awaited(stack', v) {
      StaysStacked(auth, stack, seen, stack', 0, v);
    }
    assert Awaited(stack', stack[|stack| - 1].id);
    ExpandSees(auth, stack, seen, stack');
    forall k | 0 <= k < |stack'| && stack'[k].expanded ensures Covered(auth, stack', verdict, k) {
      ExpandCovers(auth, depth, stack, seen, verdict, stack', k);
    }
    ExpandDeepens(auth, depth, stack, seen, verdict, stack');
  }

  lemma ExpandSees(auth: Auth, stack: seq<Frame>, seen: Auth, stack': seq<Frame>)
    requires stack != [] && Expansion(auth, stack, seen, stack')
    requires forall k :: 0 <= k < |stack| && stack[k].expanded ==> stack[k].id in seen
    ensures forall k :: 0 <= k < |stack'| && stack'[k].expanded ==> stack'[k].id in seen || stack'[k].id == stack[|stack| - 1].id
  {
  }

  lemma ExpandCovers(auth: Auth, depth: Id -> nat, stack: seq<Frame>, seen: Auth, verdict: map<Id, bool>, stack': seq<Frame>, k: nat)
    requires Acyclic(auth, depth) && stack != [] && !stack[|stack| - 1].expanded
    requires Disciplined(auth, depth, stack, seen, verdict) && Expansion(auth, stack, seen, stack')
    requires k < |stack'| && stack'[k].expanded
    ensures Covered(auth, stack', verdict, k)
  {
    var n := |stack| - 1;
    assert k <= n;
    forall a | a in AuthOf(auth, stack'[k].id) && a !in verdict ensures Stacked(stack', k + 1, a) {
      if k < n {
        assert Covered(auth, stack, verdict, k);
        StaysStacked(auth, stack, seen, stack', k + 1, a);
      } else {
        SeenChildHasVerdict(auth, depth, stack, seen, verdict, a);
      }
    }
  }

  lemma ExpandDeepens(auth: Auth, depth: Id -> nat, stack: seq<Frame>, seen: Auth, verdict: map<Id, bool>, stack': seq<Frame>)
    requires Acyclic(auth, depth) && stack != []
    requires Disciplined(auth, depth, stack, seen, verdict) && Expansion(auth, stack, seen, stack')
    ensures forall j, k :: 0 <= j < k < |stack'| && stack'[j].expanded ==> depth(stack'[k].id) < depth(stack'[j].id)
  {
  }

  /** An auth event seen before the event itself has its verdict: were it still
      waiting, it would be waiting below and so be deeper. */
  lemma SeenChildHasVerdict(auth: Auth, depth: Id -> nat, stack: seq<Frame>, seen: Auth, verdict: map<Id, bool>, a: Id)
    requires Acyclic(auth, depth) && stack != [] && !stack[|stack| - 1].expanded
    requires Disciplined(auth, depth, stack, seen, verdict) && a in AuthOf(auth, stack[|stack| - 1].id)
    ensures a in seen ==> a in verdict
  {
  }

  /** Everything the walk started from or went on to was given a verdict. */
  lemma {:induction false} AllDecided(auth: Auth, conflicted: set<Id>, verdict: map<Id, bool>, p: seq<Id>)
    requires Decided(auth, conflicted, verdict) && conflicted <= verdict.Keys
    requires IsPath(auth, p) && p[0] in conflicted
    ensures p[|p| - 1] in verdict
  {
    if |p| > 1 {
      var q := p[..|p| - 1];
      forall i | 0 <= i < |q| - 1 ensures Link(auth, q, i) {
        assert Link(auth, p, i);
      }
      AllDecided(auth, conflicted, verdict, q);
      assert Link(auth, p, |p| - 2);
    }
  }

  method PushAll(ids: set<Id>) returns (stack: seq<Frame>)
    ensures forall f :: f in stack <==> f.id in ids && !f.expanded
  {
    stack := [];
    var todo := ids;
    while todo != {}
      invariant todo <= ids && forall f :: f in stack <==> f.id in ids && f.id !in todo && !f.expanded
      decreases |todo|
    {
      var id :| id in todo;
      stack := stack + [Frame(id, false)];
      todo := todo - {id};
    }
  }

  /** Every event the walk can meet. */
  function Universe(auth: Auth, conflicted: set<Id>): set<Id> {
    conflicted + auth.Keys + (set n, a | n in auth && a in auth[n] :: a)
  }

  lemma {:induction false} StaysInUniverse(auth: Auth, conflicted: set<Id>, p: seq<Id>)
    requires IsPath(auth, p) && p[0] in conflicted
    ensures p[|p| - 1] in Universe(auth, conflicted)
  {
    if |p| > 1 {
      assert Link(auth, p, |p| - 2);
    }
  }

  /** What the loop keeps. */
  ghost predicate Walking(auth: Auth, conflicted: set<Id>, depth: Id -> nat, stack: seq<Frame>, seen: Auth, verdict: map<Id, bool>) {
    && Sound(auth, Sources(auth, conflicted), conflicted, stack, seen)
    && Disciplined(auth, depth, stack, seen, verdict)
    && Decided(auth, conflicted, verdict)
  }

  /** One turn of the loop. */
  method Walk(auth: Auth, conflicted: set<Id>, stack: seq<Frame>, seen: Auth, verdict: map<Id, bool>, ghost depth: Id -> nat)
    returns (stack': seq<Frame>, seen': Auth, verdict': map<Id, bool>)
    requires Acyclic(auth, depth) && stack != [] && Walking(auth, conflicted, depth, stack, seen, verdict)
    ensures Walking(auth, conflicted, depth, stack', seen', verdict')
    ensures (seen' == seen && |stack'| < |stack|)
         || exists id :: id in Universe(auth, conflicted) && id !in seen && seen' == seen[id := AuthOf(auth, id)]
  {
    var n := |stack| - 1;
    var id, rest := stack[n].id, stack[..n];
    assert stack == rest + [stack[n]];
    stack', seen', verdict' := rest, seen, verdict;
    ghost var known := Sources(auth, conflicted);
    if stack[n].expanded {
      var reaches := id in conflicted || exists a :: a in seen[id] && a in verdict && verdict[a];
      verdict' := verdict[id := reaches];
      Finish(auth, known, conflicted, depth, rest, id, seen, verdict, verdict');
    } else if id in seen {
      Skip(auth, known, conflicted, depth, rest, id, seen, verdict);
    } else {
      var authEvents := AuthOf(auth, id);
      stack' := rest + [Frame(id, true)] + Unseen(authEvents, seen);
      seen' := seen[id := authEvents];
      UnseenExpands(auth, stack, seen);
      SourcesAreClosed(auth, conflicted);
      ExpandSound(auth, known, conflicted, stack, seen, stack');
      ExpandDisciplined(auth, depth, stack, seen, verdict, stack');
      InUniverse(auth, conflicted, id);
    }
  }

  /** `conflicted_state_subgraph`. */
  method ConflictedSubgraph(auth: Auth, conflicted: set<Id>, ghost depth: Id -> nat) returns (subgraph: set<Id>)
    requires Acyclic(auth, depth)
    ensures forall id :: id in subgraph <==> OnConflictedPath(auth, conflicted, id)
  {
    var stack := PushAll(conflicted);
    var seen: Auth := map[];
    var verdict: map<Id, bool> := map[];
    StartSound(auth, conflicted, stack);
    ghost var left := Universe(auth, conflicted);
    while stack != []
      invariant Walking(auth, conflicted, depth, stack, seen, verdict)
      invariant left == Universe(auth, conflicted) - seen.Keys
      decreases left, |stack|
    {
      stack, seen, verdict := Walk(auth, conflicted, stack, seen, verdict, depth);
      left := Universe(auth, conflicted) - seen.Keys;
    }
    WalkedAll(auth, conflicted, depth, seen, verdict);
    subgraph := set id | id in verdict && verdict[id];
  }

  lemma StartSound(auth: Auth, conflicted: set<Id>, stack: seq<Frame>)
    requires forall f :: f in stack <==> f.id in conflicted && !f.expanded
    ensures Sound(auth, Sources(auth, conflicted), conflicted, stack, map[])
    ensures forall i :: 0 <= i < |stack| ==> !stack[i].expanded
  {
    forall i | 0 <= i < |stack| ensures ReachedFrom(auth, conflicted, stack[i].id) && !stack[i].expanded {
      assert stack[i] in stack;
      Here(auth, stack[i].id);
    }
    forall c | c in conflicted ensures Stacked(stack, 0, c) {
      assert Frame(c, false) in stack;
    }
  }

  lemma InUniverse(auth: Auth, conflicted: set<Id>, id: Id)
    requires ReachedFrom(auth, conflicted, id)
    ensures id in Universe(auth, conflicted)
  {
    var c :| c in conflicted && Leads(auth, c, id);
    var p :| PathBetween(auth, p, c, id);
    StaysInUniverse(auth, conflicted, p);
  }

  /** With nothing left on the stack, the verdicts cover all that was met. */
  lemma WalkedAll(auth: Auth, conflicted: set<Id>, depth: Id -> nat, seen: Auth, verdict: map<Id, bool>)
    requires Walking(auth, conflicted, depth, [], seen, verdict)
    ensures forall id :: id in verdict && verdict[id] <==> OnConflictedPath(auth, conflicted, id)
  {
    forall id ensures id in verdict && verdict[id] <==> OnConflictedPath(auth, conflicted, id) {
      Answer(auth, conflicted, verdict, id);
    }
  }

  lemma Answer(auth: Auth, conflicted: set<Id>, verdict: map<Id, bool>, id: Id)
    requires Decided(auth, conflicted, verdict) && conflicted <= verdict.Keys
    requires id in verdict ==> ReachedFrom(auth, conflicted, id)
    ensures id in verdict && verdict[id] <==> OnConflictedPath(auth, conflicted, id)
  {
    OnPathMeansBothWays(auth, conflicted, id);
    if ReachedFrom(auth, conflicted, id) {
      ReachedIsDecided(auth, conflicted, verdict, id);
    }
  }

  lemma ReachedIsDecided(auth: Auth, conflicted: set<Id>, verdict: map<Id, bool>, id: Id)
    requires Decided(auth, conflicted, verdict) && conflicted <= verdict.Keys && ReachedFrom(auth, conflicted, id)
    ensures id in verdict
  {
    var c :| c in conflicted && Leads(auth, c, id);
    var p :| PathBetween(auth, p, c, id);
    AllDecided(auth, conflicted, verdict, p);
  }

  // --- the graph of power events

  /** The auth events that are in the full conflicted set. */
  ghost function Within(auth: Auth, diff: set<Id>): Auth {
    map n | n in auth :: Kept(auth[n], diff)
  }

  function Kept(ids: seq<Id>, diff: set<Id>): (r: seq<Id>)
    ensures forall a :: a in r <==> a in ids && a in diff
  {
    if ids == [] then [] else (if ids[0] in diff then [ids[0]] else []) + Kept(ids[1..], diff)
  }

  /** What the loop keeps: the graph holds whole events, everything is
      `known`, and an event of the graph met again on the stack waits below
      the auth events still to be added. */
  ghost predicate Building(auth: Auth, diff: set<Id>, known: iset<Id>, stack: seq<Id>, g: Graph) {
    && (forall i :: 0 <= i < |stack| ==> stack[i] in known)
    && (forall n :: n in g ==> n in known)
    && (forall n :: n in g ==> HasItsEdges(auth, diff, g, n))
    && (forall n, a :: n in g && a in g[n] ==> a in g || a in stack)
    && (forall k :: 0 <= k < |stack| && stack[k] in g ==> NextUp(stack, g, k))
  }

  ghost predicate HasItsEdges(auth: Auth, diff: set<Id>, g: Graph, n: Id)
    requires n in g
  {
    forall a :: a in g[n] <==> a in AuthOf(auth, n) && a in diff
  }

  ghost predicate NextUp(stack: seq<Id>, g: Graph, k: nat)
    requires k < |stack| && stack[k] in g
  {
    forall a :: a in g[stack[k]] ==> a in g || a in stack[k + 1..]
  }

  /** One event of the loop: its edges, and the auth events to go on to. */
  method AddEvent(auth: Auth, diff: set<Id>, id: Id, g: Graph) returns (g': Graph, push: seq<Id>)
    ensures Added(auth, diff, id, g, g', push)
  {
    g', push := if id in g then g else g[id := {}], [];
    var ids := AuthOf(auth, id);
    for i := 0 to |ids|
      invariant g'.Keys == g.Keys + {id}
      invariant forall n :: n in g && n != id ==> g'[n] == g[n]
      invariant forall a :: a in g'[id] <==> (id in g && a in g[id]) || (a in ids[..i] && a in diff)
      invariant forall a :: a in push <==> a in ids[..i] && a in diff && a !in g && a != id
    {
      var a := ids[i];
      if a in diff {
        if a !in g' {
          push := push + [a];
        }
        g' := g'[id := g'[id] + {a}];
      }
    }
  }

  lemma WithinAuth(auth: Auth, diff: set<Id>, n: Id, a: Id)
    ensures a in AuthOf(Within(auth, diff), n) <==> a in AuthOf(auth, n) && a in diff
  {
  }

  /** `g'` and `push` are what `AddEvent` leaves of `g` for `id`. */
  ghost predicate Added(auth: Auth, diff: set<Id>, id: Id, g: Graph, g': Graph, push: seq<Id>) {
    && g'.Keys == g.Keys + {id}
    && (forall n :: n in g && n != id ==> g'[n] == g[n])
    && (forall a :: a in g'[id] <==> (id in g && a in g[id]) || (a in AuthOf(auth, id) && a in diff))
    && (forall a :: a in push <==> a in AuthOf(auth, id) && a in diff && a !in g && a != id)
  }

  lemma BuildStep(auth: Auth, diff: set<Id>, known: iset<Id>, rest: seq<Id>, id: Id, g: Graph, g': Graph, push: seq<Id>)
    requires Closed(Within(auth, diff), known) && Building(auth, diff, known, rest + [id], g) && Added(auth, diff, id, g, g', push)
    ensures Building(auth, diff, known, rest + push, g')
    ensures id in g ==> push == []
  {
    var stack := rest + [id];
    assert stack[|rest|] == id;
    BuildEdges(auth, diff, rest, id, g, g', push);
    forall i | 0 <= i < |rest + push| ensures (rest + push)[i] in known {
      BuildReached(auth, diff, known, rest, id, push, i);
    }
    forall k | 0 <= k < |rest + push| && (rest + push)[k] in g' ensures NextUp(rest + push, g', k) {
      BuildNextUp(rest, id, g, g', push, k);
    }
  }

  lemma BuildEdges(auth: Auth, diff: set<Id>, rest: seq<Id>, id: Id, g: Graph, g': Graph, push: seq<Id>)
    requires (forall n :: n in g ==> HasItsEdges(auth, diff, g, n)) && Added(auth, diff, id, g, g', push)
    requires id in g ==> NextUp(rest + [id], g, |rest|)
    ensures forall n :: n in g' ==> HasItsEdges(auth, diff, g', n)
    ensures id in g ==> push == []
  {
    assert (rest + [id])[|rest|] == id;
    assert push == [] || push[0] in push;
    assert id in g ==> HasItsEdges(auth, diff, g, id);
  }

  lemma BuildReached(auth: Auth, diff: set<Id>, known: iset<Id>, rest: seq<Id>, id: Id, push: seq<Id>, i: nat)
    requires Closed(Within(auth, diff), known) && i < |rest + push|
    requires id in known && forall j :: 0 <= j < |rest| ==> (rest + [id])[j] in known
    requires forall a :: a in push ==> a in AuthOf(auth, id) && a in diff
    ensures (rest + push)[i] in known
  {
    var n := (rest + push)[i];
    if i < |rest| {
      assert n == (rest + [id])[i];
    } else {
      assert n in push;
      WithinAuth(auth, diff, id, n);
    }
  }

  lemma BuildNextUp(rest: seq<Id>, id: Id, g: Graph, g': Graph, push: seq<Id>, k: nat)
    requires forall k :: 0 <= k < |rest + [id]| && (rest + [id])[k] in g ==> NextUp(rest + [id], g, k)
    requires g'.Keys == g.Keys + {id} && forall n :: n in g && n != id ==> g'[n] == g[n]
    requires forall a :: a in g'[id] && a !in g && a != id ==> a in push
    requires forall a :: a in push ==> a !in g && a != id
    requires k < |rest + push| && (rest + push)[k] in g'
    ensures NextUp(rest + push, g', k)
  {
    var stack, stack' := rest + [id], rest + push;
    var n := stack'[k];
    assert k < |rest| || n in push;
    assert stack[k] == n && stack'[k + 1..] == rest[k + 1..] + push && stack[k + 1..] == rest[k + 1..] + [id];
    assert n in g ==> NextUp(stack, g, k);
  }

  lemma ChainStarts(auth: Auth, diff: set<Id>, event: Id, g: Graph, start: set<Id>)
    requires event in start && Building(auth, diff, Sources(Within(auth, diff), start), [], g)
    ensures Building(auth, diff, Sources(Within(auth, diff), start), [event], g)
  {
    Here(Within(auth, diff), event);
    assert event in g ==> NextUp([event], g, 0);
  }

  /** `add_event_and_auth_chain_to_graph`. */
  method AddChain(auth: Auth, diff: set<Id>, event: Id, g: Graph, ghost start: set<Id>) returns (g': Graph)
    requires event in start && Building(auth, diff, Sources(Within(auth, diff), start), [], g)
    ensures Building(auth, diff, Sources(Within(auth, diff), start), [], g') && g.Keys + {event} <= g'.Keys
  {
    g' := g;
    var stack := [event];
    ChainStarts(auth, diff, event, g, start);
    ghost var known := Sources(Within(auth, diff), start);
    SourcesAreClosed(Within(auth, diff), start);
    ghost var universe := Universe(Within(auth, diff), start);
    while stack != []
      invariant Building(auth, diff, known, stack, g')
      invariant g.Keys <= g'.Keys && (event in g' || stack == [event])
      decreases universe - g'.Keys, |stack|
    {
      var n := |stack| - 1;
      var id, rest := stack[n], stack[..n];
      var next, push := AddEvent(auth, diff, id, g');
      assert stack == rest + [id];
      BuildStep(auth, diff, known, rest, id, g', next, push);
      InUniverse(Within(auth, diff), start, id);
      g', stack := next, rest + push;
    }
  }

  /** The graph `reverse_topological_power_sort` sorts. */
  method BuildGraph(auth: Auth, diff: set<Id>, events: seq<Id>) returns (g: Graph)
    ensures IsAuthGraph(auth, diff, Nodes(events), g)
  {
    g := map[];
    for i := 0 to |events|
      invariant Building(auth, diff, Sources(Within(auth, diff), Nodes(events)), [], g)
      invariant forall j :: 0 <= j < i ==> events[j] in g
    {
      g := AddChain(auth, diff, events[i], g, Nodes(events));
    }
    BuildIsWhole(auth, diff, Nodes(events), g);
  }

  /** The events reached from `start` inside `diff`, each with its auth events
      there. */
  ghost predicate IsAuthGraph(auth: Auth, diff: set<Id>, start: set<Id>, g: Graph) {
    && (forall n :: n in g <==> ReachedFrom(Within(auth, diff), start, n))
    && (forall n :: n in g ==> HasItsEdges(auth, diff, g, n))
  }

  lemma BuildIsWhole(auth: Auth, diff: set<Id>, start: set<Id>, g: Graph)
    requires Building(auth, diff, Sources(Within(auth, diff), start), [], g) && start <= g.Keys
    ensures IsAuthGraph(auth, diff, start, g)
  {
    BuildIsClosed(auth, diff, Sources(Within(auth, diff), start), g);
    forall n | ReachedFrom(Within(auth, diff), start, n) ensures n in g {
      var s :| s in start && Leads(Within(auth, diff), s, n);
      var p :| PathBetween(Within(auth, diff), p, s, n);
      PathStaysIn(Within(auth, diff), g.Keys, p);
    }
  }

  ghost predicate ClosedSet(auth: Auth, ids: set<Id>) {
    forall n, a :: n in ids && a in AuthOf(auth, n) ==> a in ids
  }

  lemma BuildIsClosed(auth: Auth, diff: set<Id>, known: iset<Id>, g: Graph)
    requires Building(auth, diff, known, [], g)
    ensures ClosedSet(Within(auth, diff), g.Keys)
  {
    forall n, a | n in g && a in AuthOf(Within(auth, diff), n) ensures a in g {
      WithinAuth(auth, diff, n, a);
      assert HasItsEdges(auth, diff, g, n);
    }
  }

  lemma {:induction false} PathStaysIn(auth: Auth, ids: set<Id>, p: seq<Id>)
    requires ClosedSet(auth, ids) && IsPath(auth, p) && p[0] in ids
    ensures p[|p| - 1] in ids
  {
    if |p| > 1 {
      var q := p[..|p| - 1];
      forall i | 0 <= i < |q| - 1 ensures Link(auth, q, i) { assert Link(auth, p, i); }
      PathStaysIn(auth, ids, q);
      assert Link(auth, p, |p| - 2);
    }
  }

  /** All that authorises the event inside the difference is placed. */
  ghost predicate AuthorisedBy(auth: Auth, diff: set<Id>, n: Id, placed: seq<Id>) {
    forall a :: a in AuthOf(auth, n) && a in diff ==> a in placed
  }

  lemma RankDecidesHere(auth: Auth, diff: set<Id>, start: set<Id>, g: Graph, ranks: map<Id, Rank>, s: seq<Id>, i: nat, j: nat)
    requires IsAuthGraph(auth, diff, start, g) && Sorted(g, ranks, s) && i < j < |s| && AuthorisedBy(auth, diff, s[j], s[..i])
    ensures RanksFirst(ranks, s[i], s[j])
  {
    assert s[j] in Ready(g, Nodes(s[..j]));
    assert HasItsEdges(auth, diff, g, s[j]);
    RankDecides(g, ranks, s, i, j);
  }

  /** `reverse_topological_power_sort`: the power events and everything in the
      conflicted set that authorises them, each after what authorises it. */
  method PowerSort(auth: Auth, diff: set<Id>, events: seq<Id>, ranks: map<Id, Rank>, ghost depth: Id -> nat) returns (result: Result)
    requires Acyclic(auth, depth)
    ensures result.Ok? <==> forall n :: ReachedFrom(Within(auth, diff), Nodes(events), n) ==> n in ranks
    ensures result.Ok? ==>
              var s := result.sorted;
              && (forall n :: n in s <==> ReachedFrom(Within(auth, diff), Nodes(events), n))
              && (forall i, j :: 0 <= i < |s| && 0 <= j < |s| && i != j && Leads(Within(auth, diff), s[i], s[j]) ==> j < i)
              && (forall i, j :: 0 <= i < j < |s| && AuthorisedBy(auth, diff, s[j], s[..i]) ==> RanksFirst(ranks, s[i], s[j]))
              && exists g :: IsAuthGraph(auth, diff, Nodes(events), g) && Sorted(g, ranks, s)
  {
    var g := BuildGraph(auth, diff, events);
    result := Sort(g, ranks);
    if result.Ok? {
      var s := result.sorted;
      ghost var start := Nodes(events);
      AuthGraphIsGrounded(auth, diff, start, g, depth);
      GroundedIsPlacedWhole(g, ranks, s, depth);
      forall i, j | 0 <= i < |s| && 0 <= j < |s| && i != j && Leads(Within(auth, diff), s[i], s[j]) ensures j < i {
        AuthComesFirst(auth, diff, start, g, ranks, s, i, j);
      }
      forall i, j | 0 <= i < j < |s| && AuthorisedBy(auth, diff, s[j], s[..i]) ensures RanksFirst(ranks, s[i], s[j]) {
        RankDecidesHere(auth, diff, start, g, ranks, s, i, j);
      }
      assert forall n :: n in s <==> n in Nodes(s);
    }
  }

  lemma AuthGraphIsGrounded(auth: Auth, diff: set<Id>, start: set<Id>, g: Graph, depth: Id -> nat)
    requires Acyclic(auth, depth) && IsAuthGraph(auth, diff, start, g)
    ensures Grounded(g, depth)
  {
    forall n, a | n in g && a in g[n] ensures a in g && depth(a) < depth(n) {
      assert HasItsEdges(auth, diff, g, n);
      WithinAuth(auth, diff, n, a);
      ReachedStep(Within(auth, diff), start, n, a);
    }
  }

  /** Everything an event leads to inside the difference comes before it. */
  lemma AuthComesFirst(auth: Auth, diff: set<Id>, start: set<Id>, g: Graph, ranks: map<Id, Rank>, s: seq<Id>, i: nat, j: nat)
    requires IsAuthGraph(auth, diff, start, g) && Sorted(g, ranks, s) && i < |s| && j < |s|
    requires Leads(Within(auth, diff), s[i], s[j]) && i != j
    ensures j < i
  {
    var p :| PathBetween(Within(auth, diff), p, s[i], s[j]);
    PathComesFirst(auth, diff, start, g, ranks, s, i, j, p);
  }

  lemma {:induction false} PathComesFirst(auth: Auth, diff: set<Id>, start: set<Id>, g: Graph, ranks: map<Id, Rank>, s: seq<Id>,
                                          i: nat, j: nat, p: seq<Id>)
    requires IsAuthGraph(auth, diff, start, g) && Sorted(g, ranks, s) && i < |s| && j < |s|
    requires PathBetween(Within(auth, diff), p, s[i], s[j])
    ensures j <= i
    decreases |p|
  {
    if |p| == 1 {
      Distinct(g, s);
    } else {
      PathGoesOn(Within(auth, diff), p, s[i], s[j]);
      var k := NextComesFirst(auth, diff, start, g, ranks, s, i, p[1]);
      PathComesFirst(auth, diff, start, g, ranks, s, k, j, p[1..]);
    }
  }

  lemma PathGoesOn(auth: Auth, p: seq<Id>, from: Id, to: Id)
    requires PathBetween(auth, p, from, to) && |p| > 1
    ensures p[1] in AuthOf(auth, from) && PathBetween(auth, p[1..], p[1], to)
  {
    assert Link(auth, p, 0);
    var rest := p[1..];
    forall m | 0 <= m < |rest| - 1 ensures Link(auth, rest, m) { assert Link(auth, p, m + 1); }
  }

  lemma NextComesFirst(auth: Auth, diff: set<Id>, start: set<Id>, g: Graph, ranks: map<Id, Rank>, s: seq<Id>, i: nat, a: Id) returns (k: nat)
    requires IsAuthGraph(auth, diff, start, g) && Sorted(g, ranks, s) && i < |s|
    requires a in AuthOf(Within(auth, diff), s[i])
    ensures k < i && s[k] == a
  {
    assert s[i] in Ready(g, Nodes(s[..i])) && HasItsEdges(auth, diff, g, s[i]);
    WithinAuth(auth, diff, s[i], a);
    k :| 0 <= k < i && s[k] == a;
  }
}
