/** The stored form of a state difference: a parent, the entries added, and,
    after a zero word, the entries removed. A word is a big-endian u64. */
module StateDiffCodec {
  import opened StateCompressor
  import opened Options

  /** The order a `BTreeSet` of compressed events is walked in. */
  predicate Before(a: Entry, b: Entry) {
    a.key < b.key || (a.key == b.key && a.event < b.event)
  }

  ghost predicate Lists(list: seq<Entry>, state: State) {
    && (forall e :: e in list <==> e in state)
    && forall i, j :: 0 <= i < j < |list| ==> Before(list[i], list[j])
  }

  function Words(list: seq<Entry>): seq<nat> {
    if list == [] then [] else [list[0].key, list[0].event] + Words(list[1..])
  }

  /** `save_statediff`, the sets given in the order they are walked. */
  function Encode(parent: Option<Hash>, added: seq<Entry>, removed: seq<Entry>): seq<nat> {
    [if parent.Some? then parent.value else 0] + Body(added, removed)
  }

  /** What the reading loop makes of the words from where it stands. */
  function Read(words: seq<nat>, adding: bool): (State, State) {
    if |words| < 2 then ({}, {})
    else if adding && words[0] == 0 then Read(words[1..], false)
    else
      var (a, r) := Read(words[2..], adding);
      var e := {Entry(words[0], words[1])};
      if adding then (a + e, r) else (a, r + e)
  }

  function Decoded(value: seq<nat>): Diff
    requires value != []
  {
    var (a, r) := Read(value[1..], true);
    Diff(if value[0] == 0 then None else Some(value[0]), a, r)
  }

  /** `get_statediff`. */
  method Decode(value: seq<nat>) returns (d: Diff)
    requires value != []
    ensures d == Decoded(value)
  {
    var adding := true;
    var added: State, removed: State := {}, {};
    var i := 1;
    while i + 2 <= |value|
      invariant 1 <= i <= |value|
      invariant Read(value[1..], true).0 == added + Read(value[i..], adding).0
      invariant Read(value[1..], true).1 == removed + Read(value[i..], adding).1
      decreases |value| - i
    {
      var rest := value[i..];
      if adding && value[i] == 0 {
        assert rest[1..] == value[i + 1..];
        adding := false;
        i := i + 1;
      } else {
        assert rest[2..] == value[i + 2..];
        var e := Entry(value[i], value[i + 1]);
        if adding { added := added + {e}; } else { removed := removed + {e}; }
        i := i + 2;
      }
    }
    d := Diff(if value[0] == 0 then None else Some(value[0]), added, removed);
  }

  lemma {:induction false} ReadRemoved(list: seq<Entry>)
    ensures Read(Words(list), false).0 == {} && Read(Words(list), false).1 == (set e | e in list)
  {
    if list != [] {
      ReadRemoved(list[1..]);
      var w := Words(list);
      assert w[2..] == Words(list[1..]);
      assert list == [list[0]] + list[1..];
    }
  }

  lemma ReadOne(e: Entry, rest: seq<nat>)
    requires e.key != 0
    ensures Read([e.key, e.event] + rest, true) == (Read(rest, true).0 + {e}, Read(rest, true).1)
  {
    assert ([e.key, e.event] + rest)[2..] == rest;
  }

  lemma {:induction false} ReadAdded(list: seq<Entry>, tail: seq<nat>)
    requires forall e :: e in list ==> e.key != 0
    ensures Read(Words(list) + tail, true).0 == Read(tail, true).0 + (set e | e in list)
    ensures Read(Words(list) + tail, true).1 == Read(tail, true).1
  {
    if list == [] {
      assert Words(list) + tail == tail;
    } else {
      ReadAdded(list[1..], tail);
      assert Words(list) + tail == [list[0].key, list[0].event] + (Words(list[1..]) + tail);
      ReadOne(list[0], Words(list[1..]) + tail);
      assert list == [list[0]] + list[1..];
    }
  }

  function Body(added: seq<Entry>, removed: seq<Entry>): seq<nat> {
    Words(added) + (if removed == [] then [] else [0] + Words(removed))
  }

  lemma ReadsBack(added: seq<Entry>, removed: seq<Entry>)
    requires forall e :: e in added ==> e.key != 0
    ensures Read(Body(added, removed), true).0 == (set e | e in added)
    ensures Read(Body(added, removed), true).1 == (set e | e in removed)
  {
    var tail := if removed == [] then [] else [0] + Words(removed);
    ReadRemoved(removed);
    assert removed != [] ==> tail[1..] == Words(removed) && |Words(removed)| >= 2;
    ReadAdded(added, tail);
  }

  /** An entry for slot zero comes first and is taken for the separator. */
  lemma SlotZeroIsLost(added: seq<Entry>, removed: seq<Entry>)
    requires added != [] && added[0].key == 0
    ensures Read(Body(added, removed), true).0 == {}
  {
    var w := Body(added, removed);
    assert |Words(added)| >= 2 && w[0] == 0;
    NothingAdded(w[1..]);
  }

  /** A difference comes back as it was stored exactly when its parent is not
      hash zero and none of the entries it adds fills slot zero. */
  lemma RoundTrip(parent: Option<Hash>, added: seq<Entry>, removed: seq<Entry>, a: State, r: State)
    requires Lists(added, a) && Lists(removed, r)
    ensures Decoded(Encode(parent, added, removed)) == Diff(parent, a, r)
       <==> parent != Some(0) && forall e :: e in a ==> e.key != 0
  {
    assert Encode(parent, added, removed)[1..] == Body(added, removed);
    assert a == (set e | e in added) && r == (set e | e in removed);
    if e :| e in a && e.key == 0 {
      var i :| 0 <= i < |added| && added[i] == e;
      assert i == 0 || Before(added[0], added[i]);
      SlotZeroIsLost(added, removed);
    } else {
      ReadsBack(added, removed);
    }
  }

  lemma {:induction false} NothingAdded(words: seq<nat>)
    ensures Read(words, false).0 == {}
  {
    if |words| >= 2 { NothingAdded(words[2..]); }
  }

  // --- where each word stands

  lemma {:induction false} WordsAt(list: seq<Entry>, i: nat)
    requires i < |list|
    ensures |Words(list)| == 2 * |list| && Words(list)[2 * i] == list[i].key && Words(list)[2 * i + 1] == list[i].event
  {
    if |list| > 1 { WordsAt(list[1..], if i == 0 then 0 else i - 1); }
  }

  lemma WordsLength(list: seq<Entry>)
    ensures |Words(list)| == 2 * |list|
  {
    if list != [] { WordsAt(list, 0); }
  }

  /** The parent's word is first; the entries added follow, slot before event; a zero
      stands before the entries removed, if there are any. */
  lemma EncodedAt(parent: Option<Hash>, added: seq<Entry>, removed: seq<Entry>)
    ensures var (w, n) := (Encode(parent, added, removed), 1 + 2 * |added|);
            && |w| == (if removed == [] then n else n + 1 + 2 * |removed|)
            && w[0] == (if parent.Some? then parent.value else 0)
            && (forall i :: 0 <= i < |added| ==> w[2 * i + 1] == added[i].key && w[2 * i + 2] == added[i].event)
            && (removed != [] ==> w[n] == 0)
            && (forall i :: 0 <= i < |removed| ==> w[n + 2 * i + 1] == removed[i].key && w[n + 2 * i + 2] == removed[i].event)
  {
    WordsLength(added);
    WordsLength(removed);
    forall i | 0 <= i < |added|
      ensures Words(added)[2 * i] == added[i].key && Words(added)[2 * i + 1] == added[i].event { WordsAt(added, i); }
    forall i | 0 <= i < |removed|
      ensures Words(removed)[2 * i] == removed[i].key && Words(removed)[2 * i + 1] == removed[i].event { WordsAt(removed, i); }
  }
}
