/** How the console folds a room's edits, reactions, thread replies and
    redactions into the events they relate to. */
module Relations {
  import opened Chat
  import opened Events
  import opened Options
  import RoomStore

  // --- which events count, and what each says about another

  function Target(ev: Event): string {
    if ev.redacts != "" then ev.redacts else ev.targetInContent
  }

  /** The IDs some redaction of the timeline names, wherever it stands. */
  function Targets(tl: seq<Event>): set<string> {
    set ev | ev in tl && ev.kind.Redaction? :: Target(ev)
  }

  /** An event the server itself marked as redacted. */
  function MarkedIds(tl: seq<Event>): set<string> {
    set ev | ev in tl && ev.redactedBecause :: ev.id
  }

  /** Event `i` is passed over: something redacts it, or it, or an earlier
      event of the same ID, is marked. */
  predicate Dropped(tl: seq<Event>, i: nat)
    requires i < |tl|
  {
    tl[i].id in Targets(tl) || tl[i].id in MarkedIds(tl[..i + 1])
  }

  /** What one event says about another. */
  datatype Says =
    | Nothing
    | React(target: string, key: string, sender: string)
    | Edit(target: string, body: string)
    | Reply(target: string)

  function SaysOf(ev: Event): Says {
    if ev.message.None? || ev.message.value.relatesTo.None? then Nothing
    else
      var (m, to) := (ev.message.value, ev.message.value.relatesTo.value);
      if ev.kind.Reaction? && to.rel.Annotation? then React(to.event, to.key, ev.sender)
      else if ev.kind.Message? && to.rel.Replace? && m.newBody.Some? then Edit(to.event, m.newBody.value)
      else if to.rel.Thread? then Reply(to.event)
      else Nothing
  }

  function Said(tl: seq<Event>): seq<Says> {
    seq(|tl|, i requires 0 <= i < |tl| => if Dropped(tl, i) then Nothing else SaysOf(tl[i]))
  }

  // --- what a whole timeline says about one event

  /** The newest edit's text. */
  function Edited(s: seq<Says>, target: string): Option<string> {
    if s == [] then None
    else
      var last := s[|s| - 1];
      if last.Edit? && last.target == target then Some(last.body) else Edited(s[..|s| - 1], target)
  }

  function Replies(s: seq<Says>, target: string): nat {
    if s == [] then 0
    else Replies(s[..|s| - 1], target) + (if s[|s| - 1] == Reply(target) then 1 else 0)
  }

  /** The reaction keys, in the order first seen. */
  function Keys(s: seq<Says>, target: string): seq<string> {
    if s == [] then []
    else
      var (keys, last) := (Keys(s[..|s| - 1], target), s[|s| - 1]);
      if last.React? && last.target == target && last.key !in keys then keys + [last.key] else keys
  }

  function Senders(s: seq<Says>, target: string, key: string): set<string> {
    set x | x in s && x.React? && x.target == target && x.key == key :: x.sender
  }

  // --- the same, event by event

  /** Keys are each listed once, exactly those used, and an earlier one was first
      used before any later one. */
  lemma {:induction false} KeysAreFirstSeen(s: seq<Says>, target: string)
    ensures var keys := Keys(s, target);
            && (forall i, j :: 0 <= i < j < |keys| ==> keys[i] != keys[j])
            && (forall k :: k in keys <==> Senders(s, target, k) != {})
            && (forall i, j :: 0 <= i < j < |keys| ==> UsedBefore(s, target, keys[i], keys[j]))
  {
    if s != [] {
      var n := |s| - 1;
      KeysAreFirstSeen(s[..n], target);
      var (keys, last) := (Keys(s[..n], target), s[n]);
      assert s == s[..n] + [last];
      forall k ensures k in Keys(s, target) <==> Senders(s, target, k) != {} {
        SendersPush(s[..n], last, target, k);
      }
      forall i, j | 0 <= i < j < |Keys(s, target)| ensures UsedBefore(s, target, Keys(s, target)[i], Keys(s, target)[j]) {
        KeyOrderPush(s[..n], last, target, i, j);
      }
    }
  }

  ghost predicate Uses(x: Says, target: string, key: string) {
    x.React? && x.target == target && x.key == key
  }

  /** Some use of `a` comes before every use of `b`. */
  ghost predicate UsedBefore(s: seq<Says>, target: string, a: string, b: string) {
    exists i :: 0 <= i < |s| && Uses(s[i], target, a) && forall j :: 0 <= j <= i ==> !Uses(s[j], target, b)
  }

  lemma SendersPush(s: seq<Says>, x: Says, target: string, key: string)
    ensures Senders(s + [x], target, key) == Senders(s, target, key) + (if Uses(x, target, key) then {x.sender} else {})
  {
  }

  lemma UsersAreSenders(s: seq<Says>, target: string, key: string)
    ensures Senders(s, target, key) == {} ==> forall x :: x in s ==> !Uses(x, target, key)
  {
    assert forall x :: x in s && Uses(x, target, key) ==> x.sender in Senders(s, target, key);
  }

  lemma KeyOrderPush(s: seq<Says>, x: Says, target: string, i: nat, j: nat)
    requires forall k :: k in Keys(s, target) <==> Senders(s, target, k) != {}
    requires forall i, j :: 0 <= i < j < |Keys(s, target)| ==> UsedBefore(s, target, Keys(s, target)[i], Keys(s, target)[j])
    requires i < j < |Keys(s + [x], target)|
    ensures var keys := Keys(s + [x], target); UsedBefore(s + [x], target, keys[i], keys[j])
  {
    assert (s + [x])[..|s|] == s;
    var (old_, keys) := (Keys(s, target), Keys(s + [x], target));
    if j < |old_| {
      assert UsedBefore(s, target, old_[i], old_[j]);
      var k :| 0 <= k < |s| && Uses(s[k], target, old_[i]) && forall l :: 0 <= l <= k ==> !Uses(s[l], target, old_[j]);
      assert (s + [x])[k] == s[k];
      assert forall l :: 0 <= l <= k ==> (s + [x])[l] == s[l];
    } else {
      assert keys[i] in old_;
      var who :| who in Senders(s, target, keys[i]);
      var y :| y in s && Uses(y, target, keys[i]) && y.sender == who;
      var k :| 0 <= k < |s| && s[k] == y;
      assert (s + [x])[k] == y;
      UsersAreSenders(s, target, keys[j]);
      forall l | 0 <= l <= k ensures !Uses((s + [x])[l], target, keys[j]) {
        assert (s + [x])[l] == s[l] && s[l] in s;
      }
    }
  }

  /** The text shown is the last edit's. */
  ghost predicate Edits(x: Says, target: string) {
    x.Edit? && x.target == target
  }

  ghost predicate LastEdit(s: seq<Says>, target: string, i: nat)
    requires i < |s|
  {
    Edits(s[i], target) && forall j :: i < j < |s| ==> !Edits(s[j], target)
  }

  lemma {:induction false} EditedIsLast(s: seq<Says>, target: string)
    ensures Edited(s, target).None? <==> forall i :: 0 <= i < |s| ==> !Edits(s[i], target)
    ensures Edited(s, target).Some? ==> exists i :: 0 <= i < |s| && LastEdit(s, target, i) && s[i].body == Edited(s, target).value
  {
    if s != [] {
      var n := |s| - 1;
      EditedIsLast(s[..n], target);
      if Edits(s[n], target) {
        assert LastEdit(s, target, n);
      } else if Edited(s, target).Some? {
        var i :| 0 <= i < n && LastEdit(s[..n], target, i) && s[..n][i].body == Edited(s, target).value;
        assert LastEdit(s, target, i);
      }
    }
  }

  ghost function RepliesAt(s: seq<Says>, target: string): set<int> {
    set i | 0 <= i < |s| && s[i] == Reply(target)
  }

  lemma RepliesAtPush(s: seq<Says>, x: Says, target: string)
    ensures |RepliesAt(s + [x], target)| == |RepliesAt(s, target)| + (if x == Reply(target) then 1 else 0)
  {
    assert RepliesAt(s + [x], target) == RepliesAt(s, target) + (if x == Reply(target) then {|s|} else {});
  }

  lemma {:induction false} RepliesAreCounted(s: seq<Says>, target: string)
    ensures Replies(s, target) == |RepliesAt(s, target)|
  {
    if s != [] {
      var (rest, last) := (s[..|s| - 1], s[|s| - 1]);
      RepliesAreCounted(rest, target);
      assert s == rest + [last];
      RepliesAtPush(rest, last, target);
    }
  }

  // --- the index the console builds

  datatype Tally = Tally(key: string, senders: seq<string>)

  datatype Index = Index(redacted: set<string>, edits: map<string, string>, reactions: map<string, seq<Tally>>, replies: map<string, nat>)

  function Lookup(m: map<string, string>, id: string): Option<string> {
    if id in m then Some(m[id]) else None
  }

  function CountOf(m: map<string, nat>, id: string): nat {
    if id in m then m[id] else 0
  }

  function TalliesOf(m: map<string, seq<Tally>>, id: string): seq<Tally> {
    if id in m then m[id] else []
  }

  ghost predicate Lists(names: seq<string>, who: set<string>) {
    && (forall i, j :: 0 <= i < j < |names| ==> names[i] != names[j])
    && (forall x :: x in names <==> x in who)
  }

  ghost predicate TallyIs(tally: Tally, key: string, s: seq<Says>, target: string) {
    tally.key == key && Lists(tally.senders, Senders(s, target, key))
  }

  /** One tally a key, in the order first seen, each sender once. */
  ghost predicate TalliesAre(list: seq<Tally>, s: seq<Says>, target: string) {
    && |list| == |Keys(s, target)|
    && forall i :: 0 <= i < |list| ==> TallyIs(list[i], Keys(s, target)[i], s, target)
  }

  ghost predicate ReactionsAre(m: map<string, seq<Tally>>, s: seq<Says>) {
    forall t :: TalliesAre(TalliesOf(m, t), s, t)
  }

  ghost predicate EditsAre(m: map<string, string>, s: seq<Says>) {
    forall t :: Lookup(m, t) == Edited(s, t)
  }

  ghost predicate RepliesAre(m: map<string, nat>, s: seq<Says>) {
    forall t :: CountOf(m, t) == Replies(s, t)
  }

  ghost predicate Describes(rel: Index, s: seq<Says>) {
    EditsAre(rel.edits, s) && RepliesAre(rel.replies, s) && ReactionsAre(rel.reactions, s)
  }

  /** A tally of another key, or of another event, is not moved by a reaction. */
  lemma TallyKept(tally: Tally, key: string, s: seq<Says>, x: Says, target: string)
    requires TallyIs(tally, key, s, target) && !Uses(x, target, key)
    ensures TallyIs(tally, key, s + [x], target)
  {
  }

  lemma TallyGains(tally: Tally, key: string, s: seq<Says>, x: Says, target: string)
    requires TallyIs(tally, key, s, target) && Uses(x, target, key)
    ensures TallyIs(if x.sender in tally.senders then tally else tally.(senders := tally.senders + [x.sender]), key, s + [x], target)
  {
  }

  lemma KeysPush(s: seq<Says>, x: Says, target: string)
    ensures Keys(s + [x], target)
         == if x.React? && x.target == target && x.key !in Keys(s, target) then Keys(s, target) + [x.key] else Keys(s, target)
  {
  }

  /** Nothing said about an event, nothing changes for it. */
  lemma TalliesKept(list: seq<Tally>, s: seq<Says>, x: Says, target: string)
    requires TalliesAre(list, s, target) && !(x.React? && x.target == target)
    ensures TalliesAre(list, s + [x], target)
  {
  }

  lemma TalliesGain(list: seq<Tally>, i: nat, s: seq<Says>, x: Says)
    requires x.React? && TalliesAre(list, s, x.target) && i < |list| && list[i].key == x.key
    ensures TalliesAre(list[i := if x.sender in list[i].senders then list[i] else list[i].(senders := list[i].senders + [x.sender])], s + [x], x.target)
  {
    KeysPush(s, x, x.target);
    KeysAreFirstSeen(s, x.target);
    var keys := Keys(s, x.target);
    TallyGains(list[i], keys[i], s, x, x.target);
    forall j | 0 <= j < |list| && j != i ensures TallyIs(list[j], keys[j], s + [x], x.target) {
      TallyKept(list[j], keys[j], s, x, x.target);
    }
  }

  lemma NobodyYet(list: seq<Tally>, s: seq<Says>, x: Says)
    requires x.React? && TalliesAre(list, s, x.target)
    requires forall i :: 0 <= i < |list| ==> list[i].key != x.key
    ensures x.key !in Keys(s, x.target) && Senders(s, x.target, x.key) == {}
  {
    var keys := Keys(s, x.target);
    forall j | 0 <= j < |keys| ensures keys[j] != x.key { assert TallyIs(list[j], keys[j], s, x.target); }
    KeysAreFirstSeen(s, x.target);
  }

  lemma TalliesGrow(list: seq<Tally>, s: seq<Says>, x: Says)
    requires x.React? && TalliesAre(list, s, x.target)
    requires forall i :: 0 <= i < |list| ==> list[i].key != x.key
    ensures TalliesAre(list + [Tally(x.key, [x.sender])], s + [x], x.target)
  {
    KeysPush(s, x, x.target);
    var keys := Keys(s, x.target);
    NobodyYet(list, s, x);
    SendersPush(s, x, x.target, x.key);
    forall j | 0 <= j < |list| ensures TallyIs(list[j], keys[j], s + [x], x.target) {
      TallyKept(list[j], keys[j], s, x, x.target);
    }
  }

  lemma TalliesReplaced(reactions: map<string, seq<Tally>>, target: string, list: seq<Tally>, s: seq<Says>)
    requires TalliesAre(list, s, target)
    requires forall t :: t != target ==> TalliesAre(TalliesOf(reactions, t), s, t)
    ensures ReactionsAre(reactions[target := list], s)
  {
    var after := reactions[target := list];
    forall t ensures TalliesAre(TalliesOf(after, t), s, t) {
      assert t != target ==> TalliesOf(after, t) == TalliesOf(reactions, t);
    }
  }

  /** Records one reaction; `s` is what the tallies already stand for. */
  method AddReaction(reactions: map<string, seq<Tally>>, target: string, key: string, sender: string, ghost s: seq<Says>)
    returns (after: map<string, seq<Tally>>)
    requires ReactionsAre(reactions, s)
    ensures ReactionsAre(after, s + [React(target, key, sender)])
  {
    ghost var x := React(target, key, sender);
    var list := TalliesOf(reactions, target);
    forall t | t != target ensures TalliesAre(TalliesOf(reactions, t), s + [x], t) {
      TalliesKept(TalliesOf(reactions, t), s, x, t);
    }
    var i := 0;
    while i < |list|
      invariant i <= |list| && forall j :: 0 <= j < i ==> list[j].key != key
    {
      if list[i].key == key {
        TalliesGain(list, i, s, x);
        if sender !in list[i].senders {
          list := list[i := list[i].(senders := list[i].senders + [sender])];
        }
        TalliesReplaced(reactions, target, list, s + [x]);
        after := reactions[target := list];
        return;
      }
      i := i + 1;
    }
    TalliesGrow(list, s, x);
    TalliesReplaced(reactions, target, list + [Tally(key, [sender])], s + [x]);
    after := reactions[target := list + [Tally(key, [sender])]];
  }

  lemma EditsPush(s: seq<Says>, x: Says, t: string)
    ensures Edited(s + [x], t) == if x.Edit? && x.target == t then Some(x.body) else Edited(s, t)
    ensures Replies(s + [x], t) == Replies(s, t) + (if x == Reply(t) then 1 else 0)
  {
  }

  /** Folds in what one event says. */
  method AddSaying(rel: Index, x: Says, ghost s: seq<Says>) returns (after: Index)
    requires Describes(rel, s)
    ensures Describes(after, s + [x]) && after.redacted == rel.redacted
  {
    forall t ensures Edited(s + [x], t) == if x.Edit? && x.target == t then Some(x.body) else Edited(s, t) {
      EditsPush(s, x, t);
    }
    forall t ensures Replies(s + [x], t) == Replies(s, t) + (if x == Reply(t) then 1 else 0) {
      EditsPush(s, x, t);
    }
    if !x.React? {
      forall t ensures TalliesAre(TalliesOf(rel.reactions, t), s + [x], t) {
        TalliesKept(TalliesOf(rel.reactions, t), s, x, t);
      }
    }
    match x {
      case Nothing =>
        after := rel;
      case React(target, key, sender) =>
        var reactions := AddReaction(rel.reactions, target, key, sender, s);
        after := rel.(reactions := reactions);
      case Edit(target, body) =>
        after := rel.(edits := rel.edits[target := body]);
      case Reply(target) =>
        after := rel.(replies := rel.replies[target := CountOf(rel.replies, target) + 1]);
    }
  }

  /** The IDs that are shown as redacted. */
  function Gone(tl: seq<Event>): set<string> {
    Targets(tl) + MarkedIds(tl)
  }

  lemma TargetsPush(tl: seq<Event>, ev: Event)
    ensures Targets(tl + [ev]) == Targets(tl) + (if ev.kind.Redaction? then {Target(ev)} else {})
    ensures MarkedIds(tl + [ev]) == MarkedIds(tl) + (if ev.redactedBecause then {ev.id} else {})
  {
  }

  method CollectTargets(tl: seq<Event>) returns (redacted: set<string>)
    ensures redacted == Targets(tl)
  {
    redacted := {};
    for i := 0 to |tl|
      invariant redacted == Targets(tl[..i])
    {
      TargetsPush(tl[..i], tl[i]);
      assert tl[..i] + [tl[i]] == tl[..i + 1];
      if tl[i].kind.Redaction? {
        redacted := redacted + {Target(tl[i])};
      }
    }
    assert tl[..|tl|] == tl;
  }

  lemma NextMarked(tl: seq<Event>, i: nat)
    requires i < |tl|
    ensures MarkedIds(tl[..i + 1]) == MarkedIds(tl[..i]) + (if tl[i].redactedBecause then {tl[i].id} else {})
  {
    TargetsPush(tl[..i], tl[i]);
    assert tl[..i] + [tl[i]] == tl[..i + 1];
  }

  /** What the index's `redacted` so far tells of the next event. */
  lemma NextDropped(tl: seq<Event>, i: nat)
    requires i < |tl|
    ensures Dropped(tl, i) <==> tl[i].id in Targets(tl) + MarkedIds(tl[..i]) || tl[i].redactedBecause
  {
    NextMarked(tl, i);
  }

  /** The index of a whole timeline: it answers, for every event ID, what the
      events that count say about it, in one pass over the timeline after the
      redactions have been collected. */
  method BuildIndex(tl: seq<Event>) returns (rel: Index)
    ensures rel.redacted == Gone(tl)
    ensures Describes(rel, Said(tl))
  {
    var redacted := CollectTargets(tl);
    rel := Index(redacted, map[], map[], map[]);
    for i := 0 to |tl|
      invariant rel.redacted == Targets(tl) + MarkedIds(tl[..i])
      invariant Describes(rel, Said(tl)[..i])
    {
      var ev := tl[i];
      ghost var s := Said(tl)[..i];
      NextMarked(tl, i);
      NextDropped(tl, i);
      assert s + [Said(tl)[i]] == Said(tl)[..i + 1];
      var says := Nothing;
      if ev.id in rel.redacted || ev.redactedBecause {
        rel := rel.(redacted := rel.redacted + {ev.id});
      } else {
        says := SaysOf(ev);
      }
      rel := AddSaying(rel, says, s);
    }
    assert tl[..|tl|] == tl && Said(tl)[..|tl|] == Said(tl);
  }

  // --- the timeline as the chat shows it

  /** How one event is drawn before replies and reactions are added: None for an
      event that is not shown. `describe` words a membership, name or topic change. */
  function Draw(ev: Event, redacted: bool, edit: Option<string>, describe: Event -> Option<Display>): Option<Display> {
    var blank := Display("", ev.sender, Plain, "", false, false, 0, []);
    if ev.kind.Message? && redacted then Some(blank.(redacted := true))
    else if ev.kind.Message? then
      if ev.message.None? || Folds(ev.message.value) then None
      else
        var m := ev.message.value;
        var kind := match m.msgType case Text => Plain case Emote => EmoteKind case Notice => NoticeKind;
        Some(blank.(kind := kind, body := if edit.Some? then edit.value else m.body, edited := edit.Some?))
    else if ev.kind.Encrypted? then
      Some(if redacted then blank.(redacted := true) else blank.(kind := NoticeKind, body := ENCRYPTED))
    else if ev.kind.Member? || ev.kind.RoomName? || ev.kind.Topic? then describe(ev)
    else None
  }

  /** An edit or a thread reply, shown only at the event it relates to. */
  predicate Folds(m: MessageContent) {
    m.relatesTo.Some? && (m.relatesTo.value.rel.Replace? || m.relatesTo.value.rel.Thread?)
  }

  ghost function ShownReactions(s: seq<Says>, target: string, self: string): seq<Shown> {
    var keys := Keys(s, target);
    seq(|keys|, i requires 0 <= i < |keys| => Shown(keys[i], |Senders(s, target, keys[i])|, self in Senders(s, target, keys[i])))
  }

  /** What event `ev` looks like when `s` is said and `gone` is redacted. */
  ghost function View(s: seq<Says>, gone: set<string>, self: string, describe: Event -> Option<Display>, ev: Event): Option<Display> {
    match Draw(ev, ev.id in gone, Edited(s, ev.id), describe)
    case None => None
    case Some(d) => Some(d.(event := ev.id, replies := Replies(s, ev.id), reactions := ShownReactions(s, ev.id, self)))
  }

  ghost function Views(s: seq<Says>, gone: set<string>, self: string, describe: Event -> Option<Display>, events: seq<Event>): seq<Display> {
    if events == [] then []
    else
      var n := |events| - 1;
      var rest := Views(s, gone, self, describe, events[..n]);
      match View(s, gone, self, describe, events[n])
      case None => rest
      case Some(d) => rest + [d]
  }

  lemma {:induction false} ListsHasSize(names: seq<string>, who: set<string>)
    requires Lists(names, who)
    ensures |names| == |who|
  {
    if names == [] {
      assert who == {};
    } else {
      var n := |names| - 1;
      var rest := who - {names[n]};
      forall x ensures x in names[..n] <==> x in rest {
        assert x in names[..n] ==> exists i :: 0 <= i < n && names[i] == x;
      }
      ListsHasSize(names[..n], rest);
      assert who == rest + {names[n]};
    }
  }

  method DrawReactions(list: seq<Tally>, self: string, ghost s: seq<Says>, ghost target: string) returns (shown: seq<Shown>)
    requires TalliesAre(list, s, target)
    ensures shown == ShownReactions(s, target, self)
  {
    shown := [];
    for i := 0 to |list|
      invariant shown == ShownReactions(s, target, self)[..i]
    {
      ListsHasSize(list[i].senders, Senders(s, target, list[i].key));
      shown := shown + [Shown(list[i].key, |list[i].senders|, self in list[i].senders)];
    }
  }

  // --- what the index says, by the events' own fields

  lemma RedactsIs(tl: seq<Event>, id: string)
    ensures id in Targets(tl) <==> exists i :: 0 <= i < |tl| && Redacts(tl[i], id)
  {
    if id in Targets(tl) {
      var ev :| ev in tl && ev.kind.Redaction? && Target(ev) == id;
      var i :| 0 <= i < |tl| && tl[i] == ev;
      assert Redacts(tl[i], id);
    }
  }

  lemma GoneIs(tl: seq<Event>, id: string)
    ensures id in Gone(tl) <==> Redacted(tl, id)
  {
    RedactsIs(tl, id);
    if id in MarkedIds(tl) {
      var ev :| ev in tl && ev.redactedBecause && ev.id == id;
      var i :| 0 <= i < |tl| && tl[i] == ev;
      assert tl[i].redactedBecause && tl[i].id == id;
    }
  }

  lemma CountsIs(tl: seq<Event>, j: nat)
    requires j < |tl|
    ensures Counts(tl, j) <==> !Dropped(tl, j)
  {
    RedactsIs(tl, tl[j].id);
    var upTo := tl[..j + 1];
    if tl[j].id in MarkedIds(upTo) {
      var ev :| ev in upTo && ev.redactedBecause && ev.id == tl[j].id;
      var i :| 0 <= i < |upTo| && upTo[i] == ev;
      assert tl[i].redactedBecause && tl[i].id == tl[j].id;
    } else {
      forall i | 0 <= i <= j && tl[i].redactedBecause ensures tl[i].id != tl[j].id { assert upTo[i] in upTo; }
    }
  }

  /** What event `j` says, as the fields have it. */
  lemma SaidIs(tl: seq<Event>, j: nat, t: string, key: string)
    requires j < |tl|
    ensures var x := Said(tl)[j];
            && (Edits(x, t) <==> EditedBy(tl, t, j))
            && (Edits(x, t) ==> Some(x.body) == tl[j].message.value.newBody)
            && (x == Reply(t) <==> Counts(tl, j) && IsReply(tl[j], t))
            && (Uses(x, t, key) <==> ReactedBy(tl, t, key, j))
            && (Uses(x, t, key) ==> x.sender == tl[j].sender)
  {
    CountsIs(tl, j);
  }

  lemma RepliesIs(tl: seq<Event>, t: string)
    ensures Replies(Said(tl), t) == |RepliesTo(tl, t)|
  {
    RepliesAreCounted(Said(tl), t);
    forall j | 0 <= j < |tl| ensures Said(tl)[j] == Reply(t) <==> Counts(tl, j) && IsReply(tl[j], t) { SaidIs(tl, j, t, ""); }
    assert RepliesAt(Said(tl), t) == RepliesTo(tl, t);
  }

  lemma SendersIs(tl: seq<Event>, t: string, key: string)
    ensures Senders(Said(tl), t, key) == Reactors(tl, t, key)
  {
    var s := Said(tl);
    forall who ensures who in Senders(s, t, key) <==> who in Reactors(tl, t, key) {
      if who in Senders(s, t, key) {
        var x :| x in s && Uses(x, t, key) && x.sender == who;
        var j :| 0 <= j < |s| && s[j] == x;
        SaidIs(tl, j, t, key);
      }
      if who in Reactors(tl, t, key) {
        var j :| 0 <= j < |tl| && ReactedBy(tl, t, key, j) && tl[j].sender == who;
        SaidIs(tl, j, t, key);
        assert s[j] in s;
      }
    }
  }

  lemma UsedBeforeIs(tl: seq<Event>, t: string, a: string, b: string)
    ensures UsedBefore(Said(tl), t, a, b) ==> UsedFirst(tl, t, a, b)
  {
    var s := Said(tl);
    if UsedBefore(s, t, a, b) {
      var i :| 0 <= i < |s| && Uses(s[i], t, a) && forall j :: 0 <= j <= i ==> !Uses(s[j], t, b);
      SaidIs(tl, i, t, a);
      forall k | 0 <= k <= i ensures !ReactedBy(tl, t, b, k) { SaidIs(tl, k, t, b); }
    }
  }

  lemma ListsKeys(s: seq<Says>, t: string, self: string, key: string)
    ensures Chat.Lists(ShownReactions(s, t, self), key) <==> key in Keys(s, t)
  {
    var (keys, list) := (Keys(s, t), ShownReactions(s, t, self));
    if key in keys {
      var a :| 0 <= a < |keys| && keys[a] == key;
      assert list[a].key == key;
    }
  }

  lemma KeyOrder(s: seq<Says>, t: string, keys: seq<string>, a: nat, b: nat)
    requires keys == Keys(s, t) && a < b < |keys|
    ensures UsedBefore(s, t, keys[a], keys[b])
  {
    KeysAreFirstSeen(s, t);
  }

  lemma ReactionsIs(tl: seq<Event>, t: string, self: string)
    ensures Tallied(tl, t, self, ShownReactions(Said(tl), t, self))
  {
    var (s, keys, list) := (Said(tl), Keys(Said(tl), t), ShownReactions(Said(tl), t, self));
    KeysAreFirstSeen(s, t);
    forall key ensures Chat.Lists(list, key) <==> Reactors(tl, t, key) != {} {
      SendersIs(tl, t, key);
      ListsKeys(s, t, self, key);
    }
    forall a | 0 <= a < |list|
      ensures list[a].count == |Reactors(tl, t, list[a].key)| && (list[a].mine <==> self in Reactors(tl, t, list[a].key))
    {
      SendersIs(tl, t, keys[a]);
    }
    forall a, b | 0 <= a < b < |list| ensures UsedFirst(tl, t, list[a].key, list[b].key) {
      KeyOrder(s, t, keys, a, b);
      UsedBeforeIs(tl, t, keys[a], keys[b]);
    }
  }

  lemma TextIs(tl: seq<Event>, i: nat, d: Display)
    requires i < |tl| && tl[i].message.Some?
    requires var edit := Edited(Said(tl), tl[i].id);
             d.edited == edit.Some? && d.body == if edit.Some? then edit.value else tl[i].message.value.body
    ensures HasText(tl, i, d)
  {
    var (s, t) := (Said(tl), tl[i].id);
    EditedIsLast(s, t);
    if d.edited {
      var j :| 0 <= j < |s| && LastEdit(s, t, j) && s[j].body == Edited(s, t).value;
      SaidIs(tl, j, t, "");
      forall k | j < k < |tl| ensures !EditedBy(tl, t, k) { SaidIs(tl, k, t, ""); }
      assert Chat.LastEdit(tl, t, j);
    } else {
      forall k | 0 <= k < |tl| ensures !EditedBy(tl, t, k) { SaidIs(tl, k, t, ""); }
    }
  }

  lemma DrawnIs(tl: seq<Event>, i: nat, describe: Event -> Option<Display>, d: Display)
    requires i < |tl|
    requires var ev := tl[i];
             var drawn := Draw(ev, ev.id in Gone(tl), Edited(Said(tl), ev.id), describe);
             drawn.Some? && d == drawn.value.(event := d.event, replies := d.replies, reactions := d.reactions)
    ensures LooksLike(tl, i, describe, d)
  {
    GoneIs(tl, tl[i].id);
    if tl[i].kind.Message? && tl[i].id !in Gone(tl) { TextIs(tl, i, d); }
  }

  /** What the index makes of one event is what it should look like. */
  lemma ViewIs(tl: seq<Event>, i: nat, self: string, describe: Event -> Option<Display>)
    requires i < |tl|
    ensures var view := View(Said(tl), Gone(tl), self, describe, tl[i]);
            && (view.Some? <==> IsShown(tl, i, describe))
            && (view.Some? ==> Depicts(tl, i, self, describe, view.value))
  {
    var (ev, t) := (tl[i], tl[i].id);
    GoneIs(tl, t);
    var view := View(Said(tl), Gone(tl), self, describe, ev);
    if view.Some? {
      RepliesIs(tl, t);
      ReactionsIs(tl, t, self);
      DrawnIs(tl, i, describe, view.value);
    }
  }

  /** The events shown of the first `n`. */
  ghost function ShownAt(s: seq<Says>, gone: set<string>, self: string, describe: Event -> Option<Display>, tl: seq<Event>, n: nat): seq<nat>
    requires n <= |tl|
  {
    if n == 0 then []
    else
      var rest := ShownAt(s, gone, self, describe, tl, n - 1);
      if View(s, gone, self, describe, tl[n - 1]).Some? then rest + [n - 1] else rest
  }

  lemma {:induction false} ViewsAt(s: seq<Says>, gone: set<string>, self: string, describe: Event -> Option<Display>, tl: seq<Event>, n: nat)
    requires n <= |tl|
    ensures var (at, out) := (ShownAt(s, gone, self, describe, tl, n), Views(s, gone, self, describe, tl[..n]));
            && |at| == |out| && (forall a, b :: 0 <= a < b < |at| ==> at[a] < at[b])
            && (forall a :: 0 <= a < |at| ==> at[a] < n && View(s, gone, self, describe, tl[at[a]]) == Some(out[a]))
            && (forall i :: 0 <= i < n && View(s, gone, self, describe, tl[i]).Some? ==> i in at)
  {
    if n > 0 {
      ViewsAt(s, gone, self, describe, tl, n - 1);
      assert tl[..n][..n - 1] == tl[..n - 1];
      var (rest, at) := (ShownAt(s, gone, self, describe, tl, n - 1), ShownAt(s, gone, self, describe, tl, n));
      if View(s, gone, self, describe, tl[n - 1]).Some? { assert at[|rest|] == n - 1; }
      forall i | 0 <= i < n - 1 && i in rest ensures i in at { }
    }
  }

  lemma ViewsPicture(tl: seq<Event>, self: string, describe: Event -> Option<Display>)
    ensures var (s, gone) := (Said(tl), Gone(tl));
            Pictures(tl, self, describe, ShownAt(s, gone, self, describe, tl, |tl|), Views(s, gone, self, describe, tl))
  {
    ViewsAt(Said(tl), Gone(tl), self, describe, tl, |tl|);
    assert tl[..|tl|] == tl;
    forall i | 0 <= i < |tl|
      ensures var view := View(Said(tl), Gone(tl), self, describe, tl[i]);
              (view.Some? <==> IsShown(tl, i, describe)) && (view.Some? ==> Depicts(tl, i, self, describe, view.value))
    {
      ViewIs(tl, i, self, describe);
    }
  }

  /** The chat shows each event that is to be shown, once and in timeline order, as
      what the whole timeline says about it. */
  method Messages(tl: seq<Event>, self: string, describe: Event -> Option<Display>) returns (out: seq<Display>)
    ensures out == Views(Said(tl), Gone(tl), self, describe, tl)
    ensures exists at :: Pictures(tl, self, describe, at, out)
  {
    var rel := BuildIndex(tl);
    out := [];
    for i := 0 to |tl|
      invariant out == Views(Said(tl), Gone(tl), self, describe, tl[..i])
    {
      var ev := tl[i];
      assert tl[..i + 1][..i] == tl[..i];
      var drawn := Draw(ev, ev.id in rel.redacted, Lookup(rel.edits, ev.id), describe);
      if drawn.Some? {
        var shown := DrawReactions(TalliesOf(rel.reactions, ev.id), self, Said(tl), ev.id);
        out := out + [drawn.value.(event := ev.id, replies := CountOf(rel.replies, ev.id), reactions := shown)];
      }
    }
    assert tl[..|tl|] == tl;
    ViewsPicture(tl, self, describe);
  }

  // --- where a redaction stands does not matter

  function Kept(tl: seq<Event>): seq<Event> {
    if tl == [] then []
    else
      var (rest, last) := (Kept(tl[..|tl| - 1]), tl[|tl| - 1]);
      if last.kind.Redaction? then rest else rest + [last]
  }

  ghost function Redactions(tl: seq<Event>): set<Event> {
    set ev | ev in tl && ev.kind.Redaction?
  }

  function SaysUnless(gone: set<string>, ev: Event): Says {
    if ev.id in gone then Nothing else SaysOf(ev)
  }

  function SaidUnless(gone: set<string>, events: seq<Event>): seq<Says> {
    seq(|events|, i requires 0 <= i < |events| => SaysUnless(gone, events[i]))
  }

  lemma SaidOfDistinct(tl: seq<Event>)
    requires DistinctIds(tl)
    ensures Said(tl) == SaidUnless(Gone(tl), tl)
  {
  }

  lemma SaidUnlessPush(gone: set<string>, events: seq<Event>, ev: Event)
    ensures SaidUnless(gone, events + [ev]) == SaidUnless(gone, events) + [SaysUnless(gone, ev)]
  {
  }

  /** The two say the same about event `t`, its replies aside. */
  ghost predicate AgreeOn(a: seq<Says>, b: seq<Says>, t: string) {
    && Edited(a, t) == Edited(b, t)
    && Keys(a, t) == Keys(b, t)
    && forall k :: Senders(a, t, k) == Senders(b, t, k)
  }

  lemma AgreePush(a: seq<Says>, b: seq<Says>, x: Says, t: string)
    requires AgreeOn(a, b, t)
    ensures AgreeOn(a + [x], b + [x], t)
    ensures !x.Edit? && !x.React? ==> AgreeOn(a + [x], b, t)
  {
    EditsPush(a, x, t);
    EditsPush(b, x, t);
    KeysPush(a, x, t);
    KeysPush(b, x, t);
    forall k ensures Senders(a + [x], t, k) == Senders(b + [x], t, k)
             ensures !x.React? ==> Senders(a + [x], t, k) == Senders(b, t, k) {
      SendersPush(a, x, t, k);
      SendersPush(b, x, t, k);
    }
  }

  /** Redactions neither edit nor react. */
  lemma {:induction false} RedactionsSayLittle(gone: set<string>, events: seq<Event>, t: string)
    ensures AgreeOn(SaidUnless(gone, events), SaidUnless(gone, Kept(events)), t)
  {
    if events == [] {
      assert SaidUnless(gone, events) == SaidUnless(gone, Kept(events));
    } else {
      var (rest, last) := (events[..|events| - 1], events[|events| - 1]);
      RedactionsSayLittle(gone, rest, t);
      assert events == rest + [last];
      SaidUnlessPush(gone, rest, last);
      SaidUnlessPush(gone, Kept(rest), last);
      AgreePush(SaidUnless(gone, rest), SaidUnless(gone, Kept(rest)), SaysUnless(gone, last), t);
      assert Kept(events) == if last.kind.Redaction? then Kept(rest) else Kept(rest) + [last];
    }
  }

  ghost function Repliers(gone: set<string>, events: seq<Event>, t: string): set<Event> {
    set ev | ev in events && SaysUnless(gone, ev) == Reply(t)
  }

  lemma RepliersPush(gone: set<string>, events: seq<Event>, ev: Event, t: string)
    ensures Repliers(gone, events + [ev], t) == Repliers(gone, events, t) + (if SaysUnless(gone, ev) == Reply(t) then {ev} else {})
  {
  }

  /** Replies counted by event, whatever their order. */
  lemma {:induction false} RepliesByEvent(gone: set<string>, events: seq<Event>, t: string)
    requires DistinctIds(events)
    ensures Replies(SaidUnless(gone, events), t) == |Repliers(gone, events, t)|
  {
    if events == [] {
      assert Repliers(gone, events, t) == {};
    } else {
      var (rest, last) := (events[..|events| - 1], events[|events| - 1]);
      RepliesByEvent(gone, rest, t);
      assert events == rest + [last];
      SaidUnlessPush(gone, rest, last);
      EditsPush(SaidUnless(gone, rest), SaysUnless(gone, last), t);
      RepliersPush(gone, rest, last, t);
      assert last !in rest;
    }
  }

  lemma {:induction false} KeptIs(tl: seq<Event>)
    ensures forall ev :: ev in Kept(tl) <==> ev in tl && !ev.kind.Redaction?
  {
    if tl != [] {
      KeptIs(tl[..|tl| - 1]);
      assert tl == tl[..|tl| - 1] + [tl[|tl| - 1]];
    }
  }

  lemma ViewsPush(s: seq<Says>, gone: set<string>, self: string, describe: Event -> Option<Display>, events: seq<Event>, ev: Event)
    ensures var (rest, view) := (Views(s, gone, self, describe, events), View(s, gone, self, describe, ev));
            Views(s, gone, self, describe, events + [ev]) == if view.Some? then rest + [view.value] else rest
  {
    assert (events + [ev])[..|events|] == events;
  }

  lemma RedactionIsNotShown(s: seq<Says>, gone: set<string>, self: string, describe: Event -> Option<Display>, ev: Event)
    requires ev.kind.Redaction?
    ensures View(s, gone, self, describe, ev) == None
  {
  }

  lemma {:induction false} RedactionsAreNotShown(s: seq<Says>, gone: set<string>, self: string, describe: Event -> Option<Display>, tl: seq<Event>)
    ensures Views(s, gone, self, describe, tl) == Views(s, gone, self, describe, Kept(tl))
  {
    if tl != [] {
      var (rest, last) := (tl[..|tl| - 1], tl[|tl| - 1]);
      RedactionsAreNotShown(s, gone, self, describe, rest);
      assert tl == rest + [last];
      ViewsPush(s, gone, self, describe, rest, last);
      if last.kind.Redaction? {
        RedactionIsNotShown(s, gone, self, describe, last);
      } else {
        ViewsPush(s, gone, self, describe, Kept(rest), last);
      }
    }
  }

  /** The two say the same about every event. */
  ghost predicate SayTheSame(a: seq<Says>, b: seq<Says>) {
    forall t :: AgreeOn(a, b, t) && Replies(a, t) == Replies(b, t)
  }

  lemma {:induction false} SameSayingsSameViews(
    a: seq<Says>, b: seq<Says>, gone: set<string>, self: string, describe: Event -> Option<Display>, events: seq<Event>)
    requires SayTheSame(a, b)
    ensures Views(a, gone, self, describe, events) == Views(b, gone, self, describe, events)
  {
    if events != [] {
      var (rest, last) := (events[..|events| - 1], events[|events| - 1]);
      SameSayingsSameViews(a, b, gone, self, describe, rest);
      assert AgreeOn(a, b, last.id);
      assert ShownReactions(a, last.id, self) == ShownReactions(b, last.id, self);
    }
  }

  lemma MovedRedactionsSayTheSame(a: seq<Event>, b: seq<Event>)
    requires DistinctIds(a) && DistinctIds(b)
    requires Kept(a) == Kept(b) && Redactions(a) == Redactions(b)
    ensures Gone(a) == Gone(b)
    ensures SayTheSame(Said(a), Said(b))
  {
    KeptIs(a);
    KeptIs(b);
    assert forall ev :: ev in a <==> ev in Kept(a) || ev in Redactions(a);
    assert forall ev :: ev in b <==> ev in Kept(b) || ev in Redactions(b);
    assert Targets(a) == Targets(b);
    assert MarkedIds(a) == MarkedIds(b);
    SaidOfDistinct(a);
    SaidOfDistinct(b);
    var gone := Gone(a);
    forall t ensures AgreeOn(Said(a), Said(b), t) && Replies(Said(a), t) == Replies(Said(b), t) {
      RedactionsSayLittle(gone, a, t);
      RedactionsSayLittle(gone, b, t);
      RepliesByEvent(gone, a, t);
      RepliesByEvent(gone, b, t);
      assert Repliers(gone, a, t) == Repliers(gone, b, t);
    }
  }

  /** Redactions may arrive before or after what they redact, and in any order:
      the chat looks the same wherever they stand. */
  lemma RedactionOrderIsInvisible(a: seq<Event>, b: seq<Event>, self: string, describe: Event -> Option<Display>)
    requires DistinctIds(a) && DistinctIds(b)
    requires Kept(a) == Kept(b) && Redactions(a) == Redactions(b)
    ensures Views(Said(a), Gone(a), self, describe, a) == Views(Said(b), Gone(b), self, describe, b)
  {
    MovedRedactionsSayTheSame(a, b);
    RedactionsAreNotShown(Said(a), Gone(a), self, describe, a);
    RedactionsAreNotShown(Said(b), Gone(b), self, describe, b);
    SameSayingsSameViews(Said(a), Said(b), Gone(a), self, describe, Kept(a));
  }

  /** In two runs of the store that leave the same events in a room, but for where
      the redactions stand, the chat looks the same. */
  lemma StoredRedactionsMayStandAnywhere(
    xs: seq<RoomStore.Action>, ys: seq<RoomStore.Action>, id: string, self: string, describe: Event -> Option<Display>)
    requires RoomStore.Run(xs, id).room.Some? && RoomStore.Run(ys, id).room.Some?
    requires var (a, b) := (RoomStore.Run(xs, id).room.value.timeline, RoomStore.Run(ys, id).room.value.timeline);
             Kept(a) == Kept(b) && Redactions(a) == Redactions(b)
    ensures var (a, b) := (RoomStore.Run(xs, id).room.value.timeline, RoomStore.Run(ys, id).room.value.timeline);
            Views(Said(a), Gone(a), self, describe, a) == Views(Said(b), Gone(b), self, describe, b)
  {
    RoomStore.TimelinesStayDistinct(xs, id);
    RoomStore.TimelinesStayDistinct(ys, id);
    RedactionOrderIsInvisible(RoomStore.Run(xs, id).room.value.timeline, RoomStore.Run(ys, id).room.value.timeline, self, describe);
  }

  function Reacting(id: string, target: string, key: string, sender: string): Event {
    Event(Reaction, None, sender, id, "", "", Some(MessageContent(Text, "", Some(RelatesTo(Annotation, target, key)), None)), "", false)
  }

  function MarkedRedaction(id: string): Event {
    Event(Redaction, None, "", id, "", "", None, "", true)
  }

  /** Were a redaction to share its ID with a reaction, where it stands would
      tell: the reaction counts only before it. */
  lemma SharedIdTells(id: string, target: string, key: string, sender: string)
    requires id != ""
    ensures var (reaction, redaction) := (Reacting(id, target, key, sender), MarkedRedaction(id));
            && Senders(Said([reaction, redaction]), target, key) == {sender}
            && Senders(Said([redaction, reaction]), target, key) == {}
  {
    var (reaction, redaction) := (Reacting(id, target, key, sender), MarkedRedaction(id));
    SharedFirst(reaction, redaction);
    SharedLast(reaction, redaction);
    var x := React(target, key, sender);
    assert Said([reaction, redaction]) == [x, Nothing] && [x, Nothing][0] in [x, Nothing];
    assert Said([redaction, reaction]) == [Nothing, Nothing];
  }

  lemma SharedFirst(reaction: Event, redaction: Event)
    requires reaction.kind.Reaction? && redaction.kind.Redaction? && reaction.id != "" && Target(redaction) == ""
    requires !reaction.redactedBecause && redaction.redactedBecause && redaction.id == reaction.id
    ensures !Dropped([reaction, redaction], 0) && Dropped([reaction, redaction], 1)
  {
    var a := [reaction, redaction];
    assert a[..1] == [reaction] && a[..2] == a;
    assert redaction in a;
  }

  lemma SharedLast(reaction: Event, redaction: Event)
    requires redaction.redactedBecause && redaction.id == reaction.id
    ensures Dropped([redaction, reaction], 0) && Dropped([redaction, reaction], 1)
  {
    var b := [redaction, reaction];
    assert b[..1] == [redaction] && b[..2] == b;
    assert redaction in b && redaction in b[..1];
  }
}
