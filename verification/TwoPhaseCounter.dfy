/** The two-phase counter behind the database's sequence numbers: a number is
    dispatched when a write begins and retired when it ends, in any order, and
    readers see only up to the frontier below which nothing is in flight. */
module TwoPhaseCounter {
  import opened Options

  const U64_MAX: nat := 0xFFFF_FFFF_FFFF_FFFF

  /** `pending` are the numbers handed out and not yet retired. */
  datatype State = State(dispatched: nat, pending: seq<nat>)

  function Start(init: nat): State {
    State(init, [])
  }

  /** The frontier: the newest number readers may see. */
  function Retired(s: State): nat {
    if s.pending == [] then s.dispatched else SaturatingPred(s.pending[0])
  }

  function SaturatingPred(n: nat): nat {
    if n == 0 then 0 else n - 1
  }

  /** Hands out the next number, if the commit goes through. */
  function Dispatch(s: State, committed: bool): (State, Option<nat>) {
    if s.dispatched >= U64_MAX || !committed then (s, None)
    else (State(s.dispatched + 1, s.pending + [s.dispatched + 1]), Some(s.dispatched + 1))
  }

  function IndexOf(pending: seq<nat>, id: nat): (index: Option<nat>)
    ensures index.None? ==> id !in pending
    ensures index.Some? ==> index.value < |pending| && pending[index.value] == id
  {
    if pending == [] then None
    else if pending[0] == id then Some(0)
    else match IndexOf(pending[1..], id)
      case None => None
      case Some(i) => Some(i + 1)
  }

  /** Retires a number; only the oldest one moves the frontier and releases. */
  function Retire(s: State, id: nat): (State, Option<nat>) {
    match IndexOf(s.pending, id)
    case None => (s, None)
    case Some(i) =>
      var pending := s.pending[..i] + s.pending[i + 1..];
      (State(s.dispatched, pending),
       if i != 0 then None else if pending == [] then Some(s.dispatched) else Some(id))
  }

  ghost predicate Ascending(s: seq<nat>) {
    forall i, j :: 0 <= i < j < |s| ==> s[i] < s[j]
  }

  /** The counter behind its lock. */
  class Counter {
    var dispatched: nat
    var pending: seq<nat>

    ghost function View(): State
      reads this
    {
      State(dispatched, pending)
    }

    constructor (init: nat)
      ensures View() == Start(init)
    {
      dispatched, pending := init, [];
    }

    method Next(committed: bool) returns (retired: nat, id: Option<nat>)
      modifies this
      ensures (View(), id) == Dispatch(old(View()), committed)
      ensures retired == Retired(old(View()))
    {
      retired, id := if pending == [] then dispatched else SaturatingPred(pending[0]), None;
      if dispatched >= U64_MAX || !committed {
        return;
      }
      dispatched, pending := dispatched + 1, pending + [dispatched + 1];
      id := Some(dispatched);
    }

    /** Dropping a permit; the pending numbers are searched by bisection. */
    method Drop(id: nat) returns (released: Option<nat>)
      requires Ascending(pending)
      modifies this
      ensures (View(), released) == Retire(old(View()), id)
    {
      var lo, hi := 0, |pending|;
      while lo < hi
        invariant 0 <= lo <= hi <= |pending|
        invariant id !in pending[..lo] && id !in pending[hi..]
      {
        var mid := (lo + hi) / 2;
        if pending[mid] < id {
          lo := mid + 1;
        } else if pending[mid] > id {
          hi := mid;
        } else {
          IndexIsUnique(pending, id, mid);
          pending := pending[..mid] + pending[mid + 1..];
          released := if mid != 0 then None else if pending == [] then Some(dispatched) else Some(id);
          return;
        }
      }
      assert id !in pending;
      return None;
    }
  }

  lemma IndexIsUnique(pending: seq<nat>, id: nat, i: nat)
    requires Ascending(pending) && i < |pending| && pending[i] == id
    ensures IndexOf(pending, id) == Some(i)
  {
  }

  // --- whole runs

  datatype Event = Draw(committed: bool) | Finish(id: nat)

  /** A run from `init`: the state, the numbers finished, and those released. */
  datatype Trace = Trace(init: nat, state: State, finished: set<nat>, released: seq<nat>)

  function Run(init: nat, events: seq<Event>): Trace {
    if events == [] then Trace(init, Start(init), {}, [])
    else After(Run(init, events[..|events| - 1]), events[|events| - 1])
  }

  function After(t: Trace, e: Event): Trace {
    match e
    case Draw(committed) => t.(state := Dispatch(t.state, committed).0)
    case Finish(id) =>
      var (s, r) := Retire(t.state, id);
      Trace(t.init, s, if id in t.state.pending then t.finished + {id} else t.finished,
            if r.Some? then t.released + [r.value] else t.released)
  }

  /** A number was drawn and its write has ended. */
  ghost predicate Settled(t: Trace, n: nat) {
    t.init < n <= t.state.dispatched && n in t.finished
  }

  /** `n` is a frontier nothing in flight lies below. */
  ghost predicate SettledUpTo(t: Trace, n: nat) {
    forall k: nat :: t.init < k <= n ==> Settled(t, k)
  }

  ghost predicate Inv(t: Trace) {
    && t.init <= t.state.dispatched
    && Ascending(t.state.pending)
    && (forall n :: n in t.state.pending <==> t.init < n <= t.state.dispatched && n !in t.finished)
    && (forall n :: n in t.finished ==> t.init < n <= t.state.dispatched)
    && (forall i :: 0 <= i < |t.released| ==> t.released[i] <= Retired(t.state))
    && Ascending(t.released)
  }

  lemma DrawKeepsInv(t: Trace, committed: bool)
    requires Inv(t)
    ensures Inv(After(t, Draw(committed))) && Retired(After(t, Draw(committed)).state) == Retired(t.state)
    ensures After(t, Draw(committed)).released == t.released
  {
    var t' := After(t, Draw(committed));
    var s := t.state;
    assert forall i :: 0 <= i < |s.pending| ==> s.pending[i] in s.pending;
    assert s.pending != [] ==> s.pending[0] in s.pending;
    assert t'.state.pending != [] ==> t'.state.pending[0] == (if s.pending == [] then s.dispatched + 1 else s.pending[0]);
  }

  lemma FinishKeepsInv(t: Trace, id: nat)
    requires Inv(t)
    ensures Inv(After(t, Finish(id))) && Retired(t.state) <= Retired(After(t, Finish(id)).state)
    ensures t.released <= After(t, Finish(id)).released
  {
    if id in t.state.pending {
      var i := IndexOf(t.state.pending, id).value;
      Removed(t.state.pending, i);
      PendingFinishes(t, i, After(t, Finish(id)));
    }
  }

  lemma PendingFinishes(t: Trace, i: nat, t': Trace)
    requires Inv(t) && i < |t.state.pending| && t'.init == t.init && t'.state.dispatched == t.state.dispatched
    requires var (p, q) := (t.state.pending, t'.state.pending);
             && Ascending(q) && (forall n :: n in q <==> n in p && n != p[i])
             && (q != [] ==> p[0] <= q[0] && (i == 0 ==> p[0] < q[0]))
             && t'.finished == t.finished + {p[i]}
             && t'.released == t.released + (if i != 0 then [] else if q == [] then [t.state.dispatched] else [p[0]])
    ensures Inv(t') && Retired(t.state) <= Retired(t'.state)
  {
  }

  lemma Removed(p: seq<nat>, i: nat)
    requires Ascending(p) && i < |p|
    ensures var q := p[..i] + p[i + 1..];
            && Ascending(q) && (forall n :: n in q <==> n in p && n != p[i])
            && (q != [] ==> p[0] <= q[0] && (i == 0 ==> p[0] < q[0]))
  {
  }

  lemma StepKeepsInv(t: Trace, e: Event)
    requires Inv(t)
    ensures Inv(After(t, e)) && Retired(t.state) <= Retired(After(t, e).state)
    ensures t.released <= After(t, e).released && After(t, e).init == t.init
  {
    match e
    case Draw(committed) => DrawKeepsInv(t, committed);
    case Finish(id) => FinishKeepsInv(t, id);
  }

  lemma {:induction false} AlwaysInv(init: nat, events: seq<Event>)
    ensures Inv(Run(init, events)) && Run(init, events).init == init
  {
    if events != [] {
      var n := |events| - 1;
      AlwaysInv(init, events[..n]);
      StepKeepsInv(Run(init, events[..n]), events[n]);
    }
  }

  /** After every run, whatever order writes end in, the frontier is exactly the
      newest number with nothing in flight at or below it. */
  lemma FrontierIsExact(init: nat, events: seq<Event>, n: nat)
    requires init <= n <= Run(init, events).state.dispatched
    ensures SettledUpTo(Run(init, events), n) <==> n <= Retired(Run(init, events).state)
  {
    var t := Run(init, events);
    AlwaysInv(init, events);
    var p := t.state.pending;
    if p != [] {
      assert p[0] in p;
      assert forall k :: k in p ==> p[0] <= k;
      assert n >= p[0] ==> !Settled(t, p[0]);
    }
  }

  /** The frontier never moves back, and no release is taken back. */
  lemma {:induction false} FrontierNeverMovesBack(init: nat, events: seq<Event>, more: seq<Event>)
    ensures Retired(Run(init, events).state) <= Retired(Run(init, events + more).state)
    ensures Run(init, events).released <= Run(init, events + more).released
  {
    if more == [] {
      assert events + more == events;
    } else {
      var n := |more| - 1;
      var earlier := events + more[..n];
      FrontierNeverMovesBack(init, events, more[..n]);
      assert events + more == earlier + [more[n]];
      OneStepForward(init, earlier, more[n]);
    }
  }

  lemma OneStepForward(init: nat, events: seq<Event>, e: Event)
    ensures Retired(Run(init, events).state) <= Retired(Run(init, events + [e]).state)
    ensures Run(init, events).released <= Run(init, events + [e]).released
  {
    AlwaysInv(init, events);
    RunStep(init, events, e);
    StepKeepsInv(Run(init, events), e);
  }

  /** What is released keeps rising, and never passes the frontier. */
  lemma ReleasesRise(init: nat, events: seq<Event>)
    ensures var t := Run(init, events);
            Ascending(t.released) && forall i :: 0 <= i < |t.released| ==> SettledUpTo(t, t.released[i])
  {
    AlwaysInv(init, events);
    var t := Run(init, events);
    forall i | 0 <= i < |t.released| ensures SettledUpTo(t, t.released[i]) {
      var r := t.released[i];
      assert t.state.pending != [] ==> t.state.pending[0] in t.state.pending;
      if init <= r { FrontierIsExact(init, events, r); }
    }
  }

  lemma RunStep(init: nat, events: seq<Event>, e: Event)
    ensures Run(init, events + [e]) == After(Run(init, events), e)
  {
  }

  /** The number released is the new frontier exactly when the next number in
      flight follows it, or none is in flight: otherwise numbers that ended out
      of turn are visible but not yet released. */
  lemma ReleaseMayLag(init: nat, events: seq<Event>, id: nat)
    requires var s := Run(init, events).state; s.pending != [] && s.pending[0] == id
    ensures var s := Run(init, events).state;
            var (s', r) := Retire(s, id);
            r.Some? && (r.value == Retired(s') <==> s'.pending == [] || s'.pending[0] == id + 1)
  {
    AlwaysInv(init, events);
  }

  lemma DrawsThree()
    ensures var t := Run(0, [] + [Draw(true)] + [Draw(true)] + [Draw(true)]);
            t.state == State(3, [1, 2, 3]) && t.released == []
  {
    RunStep(0, [], Draw(true));
    RunStep(0, [] + [Draw(true)], Draw(true));
    RunStep(0, [] + [Draw(true)] + [Draw(true)], Draw(true));
    assert [] + [1] + [2] + [3] == [1, 2, 3];
  }

  lemma SecondFinishes(t: Trace)
    requires t.state == State(3, [1, 2, 3]) && t.released == []
    ensures var u := After(t, Finish(2)); u.state == State(3, [1, 3]) && u.released == []
  {
    assert [1, 2, 3][1..] == [2, 3] && [1, 2, 3][..1] + [1, 2, 3][2..] == [1, 3];
  }

  lemma FirstFinishes(t: Trace)
    requires t.state == State(3, [1, 3]) && t.released == []
    ensures var u := After(t, Finish(1)); Retired(u.state) == 2 && u.released == [1]
  {
    assert [1, 3][..0] + [1, 3][1..] == [3];
  }

  /** Number 2 ends out of turn: when 1 ends too, the frontier is 2 and 1 is
      released. */
  lemma ReleaseLags()
    ensures var t := Run(0, [] + [Draw(true)] + [Draw(true)] + [Draw(true)] + [Finish(2)] + [Finish(1)]);
            Retired(t.state) == 2 && t.released == [1]
  {
    var drawn := [] + [Draw(true)] + [Draw(true)] + [Draw(true)];
    DrawsThree();
    RunStep(0, drawn, Finish(2));
    SecondFinishes(Run(0, drawn));
    RunStep(0, drawn + [Finish(2)], Finish(1));
    FirstFinishes(Run(0, drawn + [Finish(2)]));
  }
}
