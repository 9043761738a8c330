/** Room state stored as layers of differences: each stored state names a
    parent and what it adds to and removes from it, and a new state is folded
    into older layers when its difference has grown too large. */
module StateCompressor {
  import opened Options

  /** A state event in short form: what slot it fills, and which event fills it. */
  datatype Entry = Entry(key: nat, event: nat)

  type State = set<Entry>

  /** Short state hashes are drawn from one rising counter. */
  type Hash = nat

  datatype Diff = Diff(parent: Option<Hash>, added: State, removed: State)

  /** One frame of a loaded chain. */
  datatype Info = Info(hash: Hash, full: State, added: State, removed: State)

  type Store = map<Hash, Diff>

  /** A parent is always older, so chains end. */
  ghost predicate Rooted(s: Store) {
    forall h :: h in s && s[h].parent.Some? ==> s[h].parent.value in s && s[h].parent.value < h
  }

  /** The state a hash stands for. */
  ghost function Full(s: Store, h: Hash): State
    requires Rooted(s) && h in s
    decreases h
  {
    match s[h].parent
    case None => s[h].added
    case Some(p) => Full(s, p) + s[h].added - s[h].removed
  }

  ghost function Base(s: Store, h: Hash): State
    requires Rooted(s) && h in s
  {
    if s[h].parent.Some? then Full(s, s[h].parent.value) else {}
  }

  ghost function Depth(s: Store, h: Hash): nat
    requires Rooted(s) && h in s
    decreases h
  {
    match s[h].parent
    case None => 1
    case Some(p) => 1 + Depth(s, p)
  }

  /** A difference against `base` says nothing twice: what it adds is new, what
      it removes is there. */
  ghost predicate Exact(base: State, added: State, removed: State) {
    added !! base && removed <= base
  }

  /** The deepest chain the layering leaves. */
  const MAX_LAYERS: nat := 4

  ghost predicate Valid(s: Store) {
    && Rooted(s)
    && forall h :: h in s ==> Exact(Base(s, h), s[h].added, s[h].removed) && Depth(s, h) <= MAX_LAYERS
  }

  /** The chain of frames from a hash's root down to itself. */
  ghost function Chain(s: Store, h: Hash): (r: seq<Info>)
    requires Rooted(s) && h in s
    ensures |r| == Depth(s, h) && r[|r| - 1] == Info(h, Full(s, h), s[h].added, s[h].removed)
    decreases h
  {
    var frame := Info(h, Full(s, h), s[h].added, s[h].removed);
    match s[h].parent
    case None => [frame]
    case Some(p) => Chain(s, p) + [frame]
  }

  ghost predicate IsChain(s: Store, frames: seq<Info>) {
    Rooted(s) && (frames == [] || (var h := frames[|frames| - 1].hash; h in s && frames == Chain(s, h)))
  }

  ghost function Top(frames: seq<Info>): State {
    if frames == [] then {} else frames[|frames| - 1].full
  }

  /** The chain's newest hash, and so every hash of it, is older than `h`. */
  ghost predicate Below(frames: seq<Info>, h: Hash) {
    frames != [] ==> frames[|frames| - 1].hash < h
  }

  /** Storing a new hash disturbs nothing stored before. */
  lemma {:induction false} StoreKeeps(s: Store, h: Hash, d: Diff, k: Hash)
    requires Rooted(s) && h !in s && k in s
    requires d.parent.Some? ==> d.parent.value in s && d.parent.value < h
    ensures Rooted(s[h := d]) && Full(s[h := d], k) == Full(s, k) && Depth(s[h := d], k) == Depth(s, k)
    ensures Chain(s[h := d], k) == Chain(s, k)
    decreases k
  {
    if s[k].parent.Some? { StoreKeeps(s, h, d, s[k].parent.value); }
  }

  lemma StoreIsValid(s: Store, h: Hash, d: Diff)
    requires Valid(s) && Storable(s, d) && h !in s && (d.parent.Some? ==> d.parent.value < h)
    ensures Valid(s[h := d]) && Full(s[h := d], h) == Meaning(s, d)
  {
    var s' := s[h := d];
    forall k | k in s ensures Rooted(s') && Full(s', k) == Full(s, k) && Depth(s', k) == Depth(s, k) {
      StoreKeeps(s, h, d, k);
    }
    assert Rooted(s');
    forall k | k in s' ensures Exact(Base(s', k), s'[k].added, s'[k].removed) && Depth(s', k) <= MAX_LAYERS {
    }
  }

  // --- folding a difference into the layer below

  /** What `merge_into_parent` computes, in whatever order the sets are walked. */
  function Merged(parent: Info, added: State, removed: State): (State, State) {
    var removed' := parent.removed + (removed - parent.added);
    (parent.added - removed + (added - removed'), removed' - added)
  }

  /** One loop of it: each item undoes its opposite or is recorded itself. */
  method Cancel(opposite: State, same: State, items: State) returns (o: State, s: State)
    ensures o == opposite - items && s == same + (items - opposite)
  {
    o, s := opposite, same;
    var todo := items;
    while todo != {}
      invariant todo <= items
      invariant forall e :: e in o <==> e in opposite && (e in items ==> e in todo)
      invariant forall e :: e in s <==> e in same || (e in items && e !in todo && e !in opposite)
      decreases |todo|
    {
      var e :| e in todo;
      if e in o { o := o - {e}; } else { s := s + {e}; }
      todo := todo - {e};
    }
  }

  method MergeIntoParent(parent: Info, added: State, removed: State) returns (a: State, r: State)
    ensures (a, r) == Merged(parent, added, removed)
  {
    a, r := Cancel(parent.added, parent.removed, removed);
    r, a := Cancel(r, a, added);
  }

  /** Folding keeps the meaning: the merged difference, against the layer
      below, gives the same state, and is again exact. */
  lemma MergedMeansTheSame(base: State, parent: Info, added: State, removed: State)
    requires Exact(base, parent.added, parent.removed) && parent.full == base + parent.added - parent.removed
    requires Exact(parent.full, added, removed)
    ensures var (a, r) := Merged(parent, added, removed);
            Exact(base, a, r) && base + a - r == parent.full + added - removed
  {
  }

  /** Whether a difference is folded into the layer it is against: when the
      chain is full, or the difference is large beside that layer's own. */
  predicate Folds(layers: nat, diffsum: nat, diffToSibling: nat, parentDiff: nat) {
    layers >= MAX_LAYERS || diffsum * diffsum >= 2 * diffToSibling * parentDiff
  }

  ghost function Meaning(s: Store, d: Diff): State
    requires Rooted(s) && (d.parent.Some? ==> d.parent.value in s)
  {
    (if d.parent.Some? then Full(s, d.parent.value) else {}) + d.added - d.removed
  }

  /** What may be stored: exact, and not too deep. */
  ghost predicate Storable(s: Store, d: Diff) {
    && Rooted(s)
    && (d.parent.Some? ==> d.parent.value in s && Depth(s, d.parent.value) < MAX_LAYERS)
    && Exact(if d.parent.Some? then Full(s, d.parent.value) else {}, d.added, d.removed)
  }

  /** The difference is stored as it is against the top of a chain of at most three,
      if the square of its size is below twice the product of its sibling's and the
      top's, and otherwise not against the top. */
  ghost predicate LayeredBySize(added: State, removed: State, diffToSibling: nat, parents: seq<Info>, d: Diff) {
    if parents == [] then d == Diff(None, added, removed)
    else
      var top := parents[|parents| - 1];
      if |parents| <= 3 && Smaller(added, removed, diffToSibling, top)
      then d == Diff(Some(top.hash), added, removed)
      else d.parent != Some(top.hash)
  }

  ghost function Smaller(added: State, removed: State, diffToSibling: nat, top: Info): bool {
    var (size, beside) := (|added| + |removed|, |top.added| + |top.removed|);
    size * size < 2 * diffToSibling * beside
  }

  method Decide(layers: nat, added: State, removed: State, diffToSibling: nat, top: Info) returns (fold: bool)
    ensures fold <==> !(layers <= 3 && Smaller(added, removed, diffToSibling, top))
  {
    fold := Folds(layers, |added| + |removed|, diffToSibling, |top.added| + |top.removed|);
  }

  /** The recursion of `save_state_from_diff`: the difference is stored against
      the top of `parents`, against one further down, or whole, and means the
      same state in each case. */
  method ChooseLayer(ghost s: Store, added: State, removed: State, diffToSibling: nat, parents: seq<Info>) returns (d: Diff)
    requires Valid(s) && IsChain(s, parents) && Exact(Top(parents), added, removed)
    ensures Storable(s, d) && Meaning(s, d) == Top(parents) + added - removed
    ensures d.parent.Some? ==> parents != [] && d.parent.value <= parents[|parents| - 1].hash
    ensures LayeredBySize(added, removed, diffToSibling, parents, d)
    decreases |parents|
  {
    if parents == [] {
      return Diff(None, added, removed);
    }
    var n := |parents| - 1;
    var parent, below := parents[n], parents[..n];
    var fold := Decide(|parents|, added, removed, diffToSibling, parent);
    if fold {
      FoldKeepsMeaning(s, parents, added, removed);
      var a, r := MergeIntoParent(parent, added, removed);
      d := ChooseLayer(s, a, r, |added| + |removed|, below);
    } else {
      AgainstTopMeans(s, parents, added, removed);
      d := Diff(Some(parent.hash), added, removed);
    }
  }

  lemma FoldKeepsMeaning(s: Store, parents: seq<Info>, added: State, removed: State)
    requires Valid(s) && parents != [] && IsChain(s, parents) && Exact(Top(parents), added, removed)
    ensures var n := |parents| - 1;
            var (a, r) := Merged(parents[n], added, removed);
            && IsChain(s, parents[..n]) && Below(parents[..n], parents[n].hash) && Exact(Top(parents[..n]), a, r)
            && Top(parents[..n]) + a - r == Top(parents) + added - removed
  {
    var n := |parents| - 1;
    MergedMeansTheSame(Top(parents[..n]), parents[n], added, removed);
  }

  lemma AgainstTopMeans(s: Store, parents: seq<Info>, added: State, removed: State)
    requires Valid(s) && parents != [] && IsChain(s, parents) && Exact(Top(parents), added, removed)
    requires |parents| < MAX_LAYERS
    ensures var d := Diff(Some(parents[|parents| - 1].hash), added, removed);
            Storable(s, d) && Meaning(s, d) == Top(parents) + added - removed
  {
  }

  // --- the service

  /** No slot is filled twice. */
  ghost predicate OnePerKey(state: State) {
    forall e, f :: e in state && f in state && e.key == f.key ==> e == f
  }

  /** `after` is `base` with the entry in its slot. */
  ghost predicate Puts(base: State, entry: Entry, after: State) {
    forall e :: e in after <==> e == entry || (e in base && e.key != entry.key)
  }

  lemma PutsEntry(base: State, entry: Entry, replaced: State)
    requires OnePerKey(base) && entry !in replaced
    requires forall e :: e in replaced <==> e in base && e.key == entry.key
    ensures OnePerKey(base + {entry} - replaced) && Puts(base, entry, base + {entry} - replaced)
    ensures Exact(base, {entry}, replaced)
  {
  }

  ghost predicate Older(s: Store, counter: Hash) {
    forall h :: h in s ==> h <= counter
  }

  ghost predicate Caches(s: Store, cache: map<Hash, seq<Info>>)
    requires Rooted(s)
  {
    forall h :: h in cache ==> h in s && cache[h] == Chain(s, h)
  }

  ghost predicate Hashed(s: Store, hashes: map<State, Hash>)
    requires Rooted(s)
  {
    forall state :: state in hashes ==> hashes[state] in s && Full(s, hashes[state]) == state
  }

  /** What was stored before stands for what it stood for. */
  ghost predicate Keeps(before: Store, after: Store)
    requires Rooted(before) && Rooted(after)
  {
    forall k :: k in before ==> k in after && Full(after, k) == Full(before, k)
  }

  class Service {
    var diffs: Store
    var cache: map<Hash, seq<Info>>

    /** The short hash of each state saved by its contents; the state itself
        stands for its SHA-256. */
    var hashes: map<State, Hash>

    var counter: Hash

    ghost predicate Sound()
      reads this
    {
      Valid(diffs) && Older(diffs, counter) && Caches(diffs, cache) && Hashed(diffs, hashes)
    }

    constructor ()
      ensures Sound() && diffs == map[]
    {
      diffs, cache, hashes, counter := map[], map[], map[], 0;
    }

    /** `load_shortstatehash_info`; `evicted` is what the LRU cache drops for
        the chains it takes in. */
    method Load(h: Hash, evicted: set<Hash>) returns (frames: Option<seq<Info>>)
      requires Sound()
      modifies this`cache
      ensures Sound()
      ensures frames.Some? <==> h in diffs
      ensures frames.Some? ==> frames.value == Chain(diffs, h)
      decreases h
    {
      if h in cache {
        return Some(cache[h]);
      }
      if h !in diffs {
        return None;
      }
      var d := diffs[h];
      if d.parent.None? {
        frames := Some([Info(h, d.added, d.added, d.removed)]);
      } else {
        var below := Load(d.parent.value, evicted);
        var full := below.value[|below.value| - 1].full + d.added - d.removed;
        frames := Some(below.value + [Info(h, full, d.added, d.removed)]);
      }
      cache := cache[h := frames.value] - evicted;
    }

    /** `save_state_from_diff`. */
    method SaveFromDiff(h: Hash, added: State, removed: State, diffToSibling: nat, parents: seq<Info>)
      requires Sound() && h <= counter && h !in diffs
      requires IsChain(diffs, parents) && Below(parents, h) && Exact(Top(parents), added, removed)
      modifies this`diffs
      ensures Sound() && diffs.Keys == old(diffs.Keys) + {h}
      ensures Keeps(old(diffs), diffs)
      ensures Full(diffs, h) == Top(parents) + added - removed
    {
      var d := ChooseLayer(diffs, added, removed, diffToSibling, parents);
      Store(h, d);
    }

    method Store(h: Hash, d: Diff)
      requires Sound() && Storable(diffs, d) && h <= counter && h !in diffs && (d.parent.Some? ==> d.parent.value < h)
      modifies this`diffs
      ensures Sound() && diffs == old(diffs)[h := d]
      ensures Keeps(old(diffs), diffs)
      ensures Full(diffs, h) == old(Meaning(diffs, d))
    {
      StoreIsValid(diffs, h, d);
      forall k | k in diffs ensures Full(diffs[h := d], k) == Full(diffs, k) && Chain(diffs[h := d], k) == Chain(diffs, k) {
        StoreKeeps(diffs, h, d, k);
      }
      diffs := diffs[h := d];
    }

    /** The state behind an optional hash; nothing for one never stored. */
    ghost function StateOf(h: Option<Hash>): State
      requires Sound()
      reads this
    {
      if h.Some? && h.value in diffs then Full(diffs, h.value) else {}
    }

    /** The chain a new state builds on; no chain for a hash never stored. */
    method LoadPrevious(previous: Option<Hash>, evicted: set<Hash>) returns (frames: Option<seq<Info>>)
      requires Sound()
      modifies this`cache
      ensures Sound() && StateOf(previous) == old(StateOf(previous))
      ensures frames.None? <==> previous.Some? && previous.value !in diffs
      ensures frames.Some? ==> IsChain(diffs, frames.value) && Below(frames.value, counter + 1) && Top(frames.value) == StateOf(previous)
      ensures frames.Some? && frames.value != [] ==> previous == Some(frames.value[|frames.value| - 1].hash)
    {
      if previous.None? {
        return Some([]);
      }
      frames := Load(previous.value, evicted);
    }

    /** The hash that stands for the state's contents, or a new one. */
    method HashOf(state: State) returns (h: Hash, existed: bool)
      requires Sound()
      modifies this`counter
      ensures Sound() && old(counter) <= counter && h <= counter
      ensures existed ==> h in diffs && Full(diffs, h) == state
      ensures !existed ==> h !in diffs && old(counter) < h
    {
      existed := state in hashes;
      if existed {
        h := hashes[state];
      } else {
        counter := counter + 1;
        h := counter;
      }
    }

    /** The state is stored under its new hash, and found by its contents. */
    method SaveNew(h: Hash, state: State, added: State, removed: State, diffToSibling: nat, parents: seq<Info>)
      requires Sound() && h <= counter && h !in diffs && IsChain(diffs, parents) && Below(parents, h)
      requires added == state - Top(parents) && removed == Top(parents) - state
      modifies this`diffs, this`hashes
      ensures Sound() && h in diffs && Full(diffs, h) == state && Keeps(old(diffs), diffs)
    {
      assert Top(parents) + added - removed == state;
      SaveFromDiff(h, added, removed, diffToSibling, parents);
      hashes := hashes[state := h];
    }

    /** `save_state`, and `set_event_state` but for the weight it gives a
        sibling's difference: whatever layers it picks, the hash returned stands
        for exactly the state given, and what was stored before is untouched. */
    method SaveState(previous: Option<Hash>, state: State, diffToSibling: nat, evicted: set<Hash>)
      returns (h: Hash, added: State, removed: State)
      requires Sound() && (previous.Some? ==> previous.value <= counter)
      modifies this
      ensures Sound() && h in diffs && Full(diffs, h) == state
      ensures Keeps(old(diffs), diffs)
      ensures added == state - old(StateOf(previous)) && removed == old(StateOf(previous)) - state
    {
      var existed;
      h, existed := HashOf(state);
      if previous == Some(h) {
        return h, {}, {};
      }
      var frames := LoadPrevious(previous, evicted);
      var parents := if frames.Some? then frames.value else [];
      var base := if parents == [] then {} else parents[|parents| - 1].full;
      added, removed := state - base, base - state;
      if !existed {
        SaveNew(h, state, added, removed, diffToSibling, parents);
      }
    }

    /** `append_to_state`: puts one event in its slot, in place of the event
        that filled it; `None` when the room's own state cannot be loaded. */
    method AppendToState(previous: Option<Hash>, entry: Entry, evicted: set<Hash>) returns (h: Option<Hash>)
      requires Sound() && OnePerKey(StateOf(previous))
      modifies this
      ensures Sound()
      ensures Keeps(old(diffs), diffs)
      ensures h.None? <==> previous.Some? && previous.value !in old(diffs)
      ensures h.Some? ==>
                h.value in diffs && OnePerKey(Full(diffs, h.value)) && Puts(old(StateOf(previous)), entry, Full(diffs, h.value))
    {
      var frames := LoadPrevious(previous, evicted);
      if frames.None? {
        return None;
      }
      var parents := frames.value;
      var base := if parents == [] then {} else parents[|parents| - 1].full;
      var inSlot := set e | e in base && e.key == entry.key;
      var replaced: State := {};
      if inSlot != {} {
        var first :| first in inSlot;
        if first == entry {
          return previous;
        }
        replaced := {first};
      }
      PutsEntry(base, entry, replaced);
      counter := counter + 1;
      SaveFromDiff(counter, {entry}, replaced, 2, parents);
      h := Some(counter);
    }
  }
}
