/** The console's store of joined rooms: sync responses are folded in, and
    messages sent from here are kept until a sync echoes them. */
module RoomStore {
  import opened Events
  import opened Options

  const TIMELINE_CAP: nat := 500

  datatype Slot = Slot(kind: EventType, key: string)

  datatype Room = Room(state: map<Slot, Event>, timeline: seq<Event>)

  datatype Pending = Pending(txn: string, body: string, waiting: bool, failed: bool)

  /** What a sync says of a room the user is in. */
  datatype Joined = Joined(state: seq<Event>, timeline: seq<Event>)

  datatype Response = Response(leave: set<string>, join: map<string, Joined>)

  const EMPTY_ROOM := Room(map[], [])

  // --- one room's events

  function Ids(events: seq<Event>): set<string> {
    set ev | ev in events :: ev.id
  }

  function Transactions(events: seq<Event>): set<string> {
    set ev | ev in events && ev.transaction != "" :: ev.transaction
  }

  /** The events whose ID is neither held nor that of an earlier event. */
  function NewOnes(held: set<string>, events: seq<Event>): seq<Event> {
    if events == [] then []
    else
      var (rest, last) := (events[..|events| - 1], events[|events| - 1]);
      var before := NewOnes(held, rest);
      if last.id in held || last.id in Ids(rest) then before else before + [last]
  }

  function Newest(events: seq<Event>): seq<Event> {
    if |events| > TIMELINE_CAP then events[|events| - TIMELINE_CAP..] else events
  }

  function SetState(state: map<Slot, Event>, ev: Event): map<Slot, Event> {
    if ev.stateKey.None? then state else state[Slot(ev.kind, ev.stateKey.value) := ev]
  }

  function SetAll(state: map<Slot, Event>, events: seq<Event>): map<Slot, Event> {
    if events == [] then state else SetState(SetAll(state, events[..|events| - 1]), events[|events| - 1])
  }

  function Without(pending: seq<Pending>, txns: set<string>): seq<Pending> {
    if pending == [] then []
    else
      var n := |pending| - 1;
      var before := Without(pending[..n], txns);
      if pending[n].txn in txns then before else before + [pending[n]]
  }

  function Marked(pending: seq<Pending>, txn: string): seq<Pending> {
    seq(|pending|, i requires 0 <= i < |pending| =>
      if pending[i].txn == txn then pending[i].(waiting := false, failed := true) else pending[i])
  }

  // --- one room's view of the store, and what each call does to it

  datatype Chat = Chat(room: Option<Room>, pending: seq<Pending>)

  datatype Action =
    | Synced(resp: Response)
    | Sent(id: string, txn: string, body: string)
    | Refused(id: string, txn: string)

  function JoinedRoom(room: Room, joined: Joined): Room {
    Room(SetAll(SetAll(room.state, joined.state), joined.timeline),
         Newest(room.timeline + NewOnes(Ids(room.timeline), joined.timeline)))
  }

  function RoomOr(room: Option<Room>): Room {
    if room.Some? then room.value else EMPTY_ROOM
  }

  function AfterLeave(c: Chat, resp: Response, id: string): Chat {
    if id in resp.leave then Chat(None, []) else c
  }

  function AfterJoin(c: Chat, joined: Joined): Chat {
    Chat(Some(JoinedRoom(RoomOr(c.room), joined)), Without(c.pending, Transactions(joined.timeline)))
  }

  /** A sync applied but for the rooms of `todo`. */
  function AfterSome(c: Chat, resp: Response, id: string, todo: set<string>): Chat {
    var left := AfterLeave(c, resp, id);
    if id in resp.join && id !in todo then AfterJoin(left, resp.join[id]) else left
  }

  function After(c: Chat, act: Action, id: string): Chat {
    match act
    case Synced(resp) => AfterSome(c, resp, id, {})
    case Sent(room, txn, body) =>
      if room == id then c.(pending := c.pending + [Pending(txn, body, true, false)]) else c
    case Refused(room, txn) =>
      if room == id then c.(pending := Marked(c.pending, txn)) else c
  }

  /** Room `id` after a whole run of the store. */
  function Run(acts: seq<Action>, id: string): Chat {
    if acts == [] then Chat(None, []) else After(Run(acts[..|acts| - 1], id), acts[|acts| - 1], id)
  }

  // --- the store

  lemma IdsPush(events: seq<Event>, ev: Event)
    ensures Ids(events + [ev]) == Ids(events) + {ev.id}
    ensures Transactions(events + [ev]) == Transactions(events) + (if ev.transaction != "" then {ev.transaction} else {})
  {
  }

  lemma {:induction false} WithoutNone(pending: seq<Pending>)
    ensures Without(pending, {}) == pending
  {
    if pending != [] { WithoutNone(pending[..|pending| - 1]); }
  }

  lemma WithoutPush(pending: seq<Pending>, p: Pending, txns: set<string>)
    ensures Without(pending + [p], txns) == if p.txn in txns then Without(pending, txns) else Without(pending, txns) + [p]
  {
  }

  lemma {:induction false} WithoutTwice(pending: seq<Pending>, a: set<string>, b: set<string>)
    ensures Without(Without(pending, a), b) == Without(pending, a + b)
  {
    if pending != [] {
      var n := |pending| - 1;
      WithoutTwice(pending[..n], a, b);
      WithoutPush(Without(pending[..n], a), pending[n], b);
    }
  }

  /** `room` with the events `done` of a sync's timeline folded in. */
  ghost predicate Folded(room: Room, done: seq<Event>, after: Room, seen: set<string>) {
    && seen == Ids(room.timeline) + Ids(done)
    && after.state == SetAll(room.state, done)
    && after.timeline == room.timeline + NewOnes(Ids(room.timeline), done)
  }

  lemma FoldOne(room: Room, done: seq<Event>, ev: Event, after: Room, seen: set<string>)
    requires Folded(room, done, after, seen)
    ensures Folded(room, done + [ev],
                   Room(SetState(after.state, ev), if ev.id in seen then after.timeline else after.timeline + [ev]), seen + {ev.id})
  {
  }

  lemma SettleOne(pending: seq<Pending>, done: seq<Event>, ev: Event)
    ensures Without(pending, Transactions(done + [ev]))
         == if ev.transaction == "" then Without(pending, Transactions(done)) else Without(Without(pending, Transactions(done)), {ev.transaction})
  {
  }

  class Store {
    var rooms: map<string, Room>
    var pending: map<string, seq<Pending>>

    function PendingOf(id: string): seq<Pending>
      reads this
    {
      if id in pending then pending[id] else []
    }

    function RoomOf(id: string): Option<Room>
      reads this
    {
      if id in rooms then Some(rooms[id]) else None
    }

    ghost function View(id: string): Chat
      reads this
    {
      Chat(RoomOf(id), PendingOf(id))
    }

    constructor ()
      ensures forall id :: View(id) == Run([], id)
    {
      rooms, pending := map[], map[];
    }

    method Settle(id: string, txn: string)
      modifies this`pending
      ensures PendingOf(id) == Without(old(PendingOf(id)), {txn})
      ensures forall other :: other != id ==> PendingOf(other) == old(PendingOf(other))
    {
      var (all, kept) := (PendingOf(id), []);
      for i := 0 to |all|
        invariant kept == Without(all[..i], {txn})
        invariant pending == old(pending)
      {
        assert all[..i + 1][..i] == all[..i];
        if all[i].txn != txn { kept := kept + [all[i]]; }
      }
      assert all[..|all|] == all;
      pending := pending[id := kept];
    }

    method ApplyTimeline(id: string, room: Room, events: seq<Event>) returns (after: Room)
      modifies this`pending
      ensures after.state == SetAll(room.state, events)
      ensures after.timeline == room.timeline + NewOnes(Ids(room.timeline), events)
      ensures PendingOf(id) == Without(old(PendingOf(id)), Transactions(events))
      ensures forall other :: other != id ==> PendingOf(other) == old(PendingOf(other))
    {
      after := room;
      var seen := Ids(room.timeline);
      ghost var was := PendingOf(id);
      WithoutNone(was);
      assert Transactions(events[..0]) == {} && Ids(events[..0]) == {};
      for i := 0 to |events|
        invariant Folded(room, events[..i], after, seen)
        invariant PendingOf(id) == Without(was, Transactions(events[..i]))
        invariant forall other :: other != id ==> PendingOf(other) == old(PendingOf(other))
      {
        var ev := events[i];
        assert events[..i + 1] == events[..i] + [ev];
        FoldOne(room, events[..i], ev, after, seen);
        SettleOne(was, events[..i], ev);
        after := after.(state := SetState(after.state, ev));
        if ev.transaction != "" {
          Settle(id, ev.transaction);
        }
        if ev.id !in seen {
          after := after.(timeline := after.timeline + [ev]);
        }
        seen := seen + {ev.id};
      }
      assert events[..|events|] == events;
    }

    method ApplyRoom(id: string, joined: Joined)
      modifies this
      ensures View(id) == AfterJoin(old(View(id)), joined)
      ensures forall other :: other != id ==> View(other) == old(View(other))
    {
      var room := if id in rooms then rooms[id] else EMPTY_ROOM;
      for i := 0 to |joined.state|
        invariant room == RoomOr(old(RoomOf(id))).(state := SetAll(RoomOr(old(RoomOf(id))).state, joined.state[..i]))
        invariant rooms == old(rooms) && pending == old(pending)
      {
        assert joined.state[..i + 1][..i] == joined.state[..i];
        room := room.(state := SetState(room.state, joined.state[i]));
      }
      assert joined.state[..|joined.state|] == joined.state;
      room := ApplyTimeline(id, room, joined.timeline);
      if |room.timeline| > TIMELINE_CAP {
        room := room.(timeline := room.timeline[|room.timeline| - TIMELINE_CAP..]);
      }
      rooms := rooms[id := room];
    }

    method Apply(resp: Response)
      modifies this
      ensures forall id :: View(id) == After(old(View(id)), Synced(resp), id)
    {
      rooms, pending := rooms - resp.leave, pending - resp.leave;
      assert forall id :: View(id) == AfterLeave(old(View(id)), resp, id);
      var todo := resp.join.Keys;
      while todo != {}
        invariant todo <= resp.join.Keys
        invariant forall id :: View(id) == AfterSome(old(View(id)), resp, id, todo)
      {
        var id :| id in todo;
        ApplyRoom(id, resp.join[id]);
        todo := todo - {id};
      }
    }

    method Send(id: string, txn: string, body: string)
      modifies this`pending
      ensures forall other :: View(other) == After(old(View(other)), Sent(id, txn, body), other)
    {
      pending := pending[id := PendingOf(id) + [Pending(txn, body, true, false)]];
    }

    method Fail(id: string, txn: string)
      modifies this`pending
      ensures forall other :: View(other) == After(old(View(other)), Refused(id, txn), other)
    {
      if id in pending {
        var list := pending[id];
        for i := 0 to |list|
          invariant |list| == |old(pending[id])|
          invariant forall j :: 0 <= j < |list| ==>
                      list[j] == if j < i then Marked(old(pending[id]), txn)[j] else old(pending[id])[j]
          invariant pending == old(pending)
        {
          if list[i].txn == txn {
            list := list[i := list[i].(waiting := false, failed := true)];
          }
        }
        assert list == Marked(old(pending[id]), txn);
        pending := pending[id := list];
      }
    }
  }

  // --- every run

  lemma DistinctPush(events: seq<Event>, ev: Event)
    requires DistinctIds(events) && ev.id !in Ids(events)
    ensures DistinctIds(events + [ev])
  {
  }

  lemma {:induction false} NewOnesAreNew(held: set<string>, events: seq<Event>)
    ensures DistinctIds(NewOnes(held, events))
    ensures Ids(NewOnes(held, events)) == Ids(events) - held
  {
    if events == [] {
      assert Ids(events) == {};
    } else {
      var (rest, last) := (events[..|events| - 1], events[|events| - 1]);
      NewOnesAreNew(held, rest);
      assert events == rest + [last];
      IdsPush(rest, last);
      if last.id !in held && last.id !in Ids(rest) {
        IdsPush(NewOnes(held, rest), last);
        DistinctPush(NewOnes(held, rest), last);
      }
    }
  }

  lemma {:induction false} JoinedIsDistinct(held: seq<Event>, events: seq<Event>)
    requires DistinctIds(held)
    ensures DistinctIds(held + NewOnes(Ids(held), events))
  {
    if events == [] {
      assert held + [] == held;
    } else {
      var (rest, last) := (events[..|events| - 1], events[|events| - 1]);
      var new_ := NewOnes(Ids(held), rest);
      JoinedIsDistinct(held, rest);
      NewOnesAreNew(Ids(held), rest);
      if last.id !in Ids(held) && last.id !in Ids(rest) {
        IdsJoin(held, new_);
        DistinctPush(held + new_, last);
        assert held + (new_ + [last]) == held + new_ + [last];
      }
    }
  }

  /** After every run each room holds at most the cap, each event once. */
  lemma {:induction false} TimelinesStayDistinct(acts: seq<Action>, id: string)
    ensures Run(acts, id).room.Some? ==>
              DistinctIds(Run(acts, id).room.value.timeline) && |Run(acts, id).room.value.timeline| <= TIMELINE_CAP
  {
    if acts != [] {
      var (before, act) := (acts[..|acts| - 1], acts[|acts| - 1]);
      TimelinesStayDistinct(before, id);
      if act.Synced? && id in act.resp.join {
        var held := RoomOr(AfterLeave(Run(before, id), act.resp, id).room).timeline;
        JoinedIsDistinct(held, act.resp.join[id].timeline);
      }
    }
  }

  // --- state: the last event for each slot since the room was joined

  predicate Fills(ev: Event, slot: Slot) {
    ev.stateKey.Some? && slot == Slot(ev.kind, ev.stateKey.value)
  }

  /** Every event that could have set state, since the room was last left. */
  function StateLog(acts: seq<Action>, id: string): seq<Event> {
    if acts == [] then []
    else
      var (log, act) := (StateLog(acts[..|acts| - 1], id), acts[|acts| - 1]);
      if act.Synced? then
        var kept := if id in act.resp.leave then [] else log;
        if id in act.resp.join then kept + act.resp.join[id].state + act.resp.join[id].timeline else kept
      else log
  }

  /** `state` holds, of each slot, the last event of `log` that fills it. */
  ghost predicate HoldsLast(state: map<Slot, Event>, log: seq<Event>) {
    forall slot ::
      && (slot in state ==> IsLast(state[slot], slot, log))
      && (slot !in state ==> forall i :: 0 <= i < |log| ==> !Fills(log[i], slot))
  }

  ghost predicate IsLast(ev: Event, slot: Slot, log: seq<Event>) {
    exists i :: 0 <= i < |log| && log[i] == ev && Fills(ev, slot) && forall j :: i < j < |log| ==> !Fills(log[j], slot)
  }

  lemma SetKeepsLast(state: map<Slot, Event>, log: seq<Event>, ev: Event)
    requires HoldsLast(state, log)
    ensures HoldsLast(SetState(state, ev), log + [ev])
  {
    var (after, longer) := (SetState(state, ev), log + [ev]);
    forall slot | slot in after ensures IsLast(after[slot], slot, longer) {
      if Fills(ev, slot) {
        assert longer[|log|] == ev;
      } else {
        assert IsLast(state[slot], slot, log);
        var i :| 0 <= i < |log| && log[i] == state[slot] && Fills(state[slot], slot) && forall j :: i < j < |log| ==> !Fills(log[j], slot);
        assert longer[i] == after[slot];
      }
    }
  }

  lemma {:induction false} SetAllKeepsLast(state: map<Slot, Event>, log: seq<Event>, events: seq<Event>)
    requires HoldsLast(state, log)
    ensures HoldsLast(SetAll(state, events), log + events)
  {
    if events == [] {
      assert log + events == log;
    } else {
      var n := |events| - 1;
      SetAllKeepsLast(state, log, events[..n]);
      SetKeepsLast(SetAll(state, events[..n]), log + events[..n], events[n]);
      assert log + events[..n] + [events[n]] == log + events;
    }
  }

  /** A room's state is, slot by slot, the last state event a sync has given
      for it since the room was joined. */
  lemma {:induction false} StateIsTheLastGiven(acts: seq<Action>, id: string)
    ensures HoldsLast(RoomOr(Run(acts, id).room).state, StateLog(acts, id))
  {
    if acts != [] {
      var (before, act) := (acts[..|acts| - 1], acts[|acts| - 1]);
      StateIsTheLastGiven(before, id);
      if act.Synced? && id in act.resp.join {
        var room := RoomOr(AfterLeave(Run(before, id), act.resp, id).room);
        var kept := if id in act.resp.leave then [] else StateLog(before, id);
        var joined := act.resp.join[id];
        assert HoldsLast(room.state, kept);
        SetAllKeepsLast(room.state, kept, joined.state);
        SetAllKeepsLast(SetAll(room.state, joined.state), kept + joined.state, joined.timeline);
      }
    }
  }

  // --- the timeline: everything delivered, once, unless a dropped event returns

  function Delivered(acts: seq<Action>, id: string): seq<Event> {
    if acts == [] then []
    else
      var (log, act) := (Delivered(acts[..|acts| - 1], id), acts[|acts| - 1]);
      if act.Synced? then
        var kept := if id in act.resp.leave then [] else log;
        if id in act.resp.join then kept + act.resp.join[id].timeline else kept
      else log
  }

  /** The timeline is the newest of all that was delivered since joining, each
      event where it first came. */
  predicate IsNewest(acts: seq<Action>, id: string) {
    RoomOr(Run(acts, id).room).timeline == Newest(NewOnes({}, Delivered(acts, id)))
  }

  /** Of what the batch appends, nothing that stays was delivered before. */
  predicate Harmless(held: seq<Event>, log: seq<Event>, batch: seq<Event>) {
    var new_ := Newest(NewOnes(Ids(held), batch));
    forall i :: 0 <= i < |new_| ==> new_[i].id !in Ids(log)
  }

  /** No sync brings an event back that had been dropped off the old end, unless
      as many new ones push it out again. */
  predicate NothingReturns(acts: seq<Action>, id: string) {
    acts == []
    || (var (before, act) := (acts[..|acts| - 1], acts[|acts| - 1]);
        && NothingReturns(before, id)
        && (act.Synced? && id in act.resp.join && id !in act.resp.leave ==>
              Harmless(RoomOr(Run(before, id).room).timeline, Delivered(before, id), act.resp.join[id].timeline)))
  }

  lemma IdsJoin(a: seq<Event>, b: seq<Event>)
    ensures Ids(a + b) == Ids(a) + Ids(b)
  {
    assert forall e :: e in a + b <==> e in a || e in b;
  }

  lemma NewOnesPush(held: set<string>, events: seq<Event>, ev: Event)
    ensures NewOnes(held, events + [ev])
         == if ev.id in held || ev.id in Ids(events) then NewOnes(held, events) else NewOnes(held, events) + [ev]
  {
    assert (events + [ev])[..|events|] == events;
  }

  lemma {:induction false} NewOnesSplit(held: set<string>, a: seq<Event>, b: seq<Event>)
    ensures NewOnes(held, a + b) == NewOnes(held, a) + NewOnes(held + Ids(a), b)
  {
    if b == [] {
      assert a + b == a;
    } else {
      var (rest, last) := (b[..|b| - 1], b[|b| - 1]);
      NewOnesSplit(held, a, rest);
      assert a + b == (a + rest) + [last] && b == rest + [last];
      SplitOneMore(held, a, rest, last, NewOnes(held, a), NewOnes(held + Ids(a), rest));
    }
  }

  lemma SplitOneMore(held: set<string>, a: seq<Event>, b: seq<Event>, ev: Event, x: seq<Event>, y: seq<Event>)
    requires NewOnes(held, a + b) == x + y && NewOnes(held + Ids(a), b) == y
    ensures NewOnes(held, a + b + [ev]) == x + NewOnes(held + Ids(a), b + [ev])
  {
    NewOnesPush(held, a + b, ev);
    NewOnesPush(held + Ids(a), b, ev);
    assert ev.id in held || ev.id in Ids(a + b) <==> ev.id in held + Ids(a) || ev.id in Ids(b) by { IdsJoin(a, b); }
    PushLast(x, y, ev);
  }

  lemma PushLast(x: seq<Event>, y: seq<Event>, ev: Event)
    ensures x + y + [ev] == x + (y + [ev])
  {
  }

  /** The events whose ID is not among `ids`. */
  function Others(events: seq<Event>, ids: set<string>): seq<Event> {
    if events == [] then []
    else
      var (rest, last) := (Others(events[..|events| - 1], ids), events[|events| - 1]);
      if last.id in ids then rest else rest + [last]
  }

  lemma {:induction false} OthersAcross(a: seq<Event>, b: seq<Event>, ids: set<string>)
    ensures Others(a + b, ids) == Others(a, ids) + Others(b, ids)
  {
    if b == [] {
      assert a + b == a;
    } else {
      OthersAcross(a, b[..|b| - 1], ids);
      assert (a + b)[..|a + b| - 1] == a + b[..|b| - 1];
    }
  }

  lemma {:induction false} OthersOf(events: seq<Event>, ids: set<string>)
    ensures forall i :: 0 <= i < |Others(events, ids)| ==> Others(events, ids)[i].id !in ids
    ensures (forall i :: 0 <= i < |events| ==> events[i].id !in ids) ==> Others(events, ids) == events
  {
    if events != [] { OthersOf(events[..|events| - 1], ids); }
  }

  /** Holding more only leaves more out. */
  lemma {:induction false} HoldingMore(few: set<string>, all: set<string>, batch: seq<Event>)
    requires few <= all
    ensures NewOnes(all, batch) == Others(NewOnes(few, batch), all)
  {
    if batch != [] {
      var (rest, last) := (batch[..|batch| - 1], batch[|batch| - 1]);
      HoldingMore(few, all, rest);
      var before := NewOnes(few, rest);
      assert (before + [last])[..|before|] == before;
    }
  }

  lemma NewestAbsorbs(a: seq<Event>, b: seq<Event>)
    ensures Newest(Newest(a) + b) == Newest(a + b)
  {
  }

  /** Seen from the end, the newest are the events themselves. */
  lemma FromTheEnd(front: seq<Event>, x: Event, end: seq<Event>)
    requires |end| < TIMELINE_CAP
    ensures var t := Newest(front + [x] + end); |end| < |t| && t[|t| - 1 - |end|] == x
  {
  }

  lemma {:induction false} LastOf(events: seq<Event>, ids: set<string>, i: nat) returns (j: nat)
    requires i < |events| && events[i].id in ids
    ensures i <= j < |events| && events[j].id in ids && forall k :: j < k < |events| ==> events[k].id !in ids
  {
    var last := |events| - 1;
    if events[last].id in ids {
      j := last;
    } else {
      j := LastOf(events[..last], ids, i);
    }
  }

  lemma NewestOfEnd(a: seq<Event>, b: seq<Event>)
    requires |b| == TIMELINE_CAP
    ensures Newest(a + b) == b
  {
  }

  lemma SameEnd(x: seq<Event>, a: seq<Event>, y: seq<Event>, c: seq<Event>, b: seq<Event>)
    requires |b| == TIMELINE_CAP
    ensures Newest(x + (a + b)) == Newest(y + (c + b))
  {
    assert x + (a + b) == (x + a) + b;
    assert y + (c + b) == (y + c) + b;
    NewestOfEnd(x + a, b);
    NewestOfEnd(y + c, b);
  }

  lemma LongBatchKeeps(all: seq<Event>, a: seq<Event>, b: seq<Event>, ids: set<string>)
    requires |b| == TIMELINE_CAP && Others(b, ids) == b
    ensures Newest(Newest(all) + (a + b)) == Newest(all + Others(a + b, ids))
  {
    OthersAcross(a, b, ids);
    SameEnd(Newest(all), a, all, Others(a, ids), b);
  }

  /** What stays of the batch was not delivered before: then nothing is amiss. */
  lemma HarmlessKeeps(all: seq<Event>, added: seq<Event>, ids: set<string>)
    requires Others(Newest(added), ids) == Newest(added)
    ensures Newest(Newest(all) + added) == Newest(all + Others(added, ids))
  {
    if |added| <= TIMELINE_CAP {
      NewestAbsorbs(all, added);
    } else {
      var a := added[..|added| - TIMELINE_CAP];
      assert added == a + Newest(added);
      LongBatchKeeps(all, a, Newest(added), ids);
    }
  }

  lemma DifferInside(f: seq<Event>, x: Event, g: seq<Event>, y: Event, end: seq<Event>)
    requires |end| < TIMELINE_CAP && x != y
    ensures Newest(f + [x] + end) != Newest(g + [y] + end)
  {
    FromTheEnd(f, x, end);
    FromTheEnd(g, y, end);
  }

  lemma OthersEnd(a: seq<Event>, ev: Event, end: seq<Event>, ids: set<string>)
    requires ev.id in ids && Others(end, ids) == end
    ensures Others(a + [ev] + end, ids) == Others(a, ids) + end
  {
    OthersAcross(a + [ev], end, ids);
    assert (a + [ev])[..|a|] == a;
  }

  /** The event that ought to stand there instead. */
  lemma StandsInstead(all: seq<Event>, kept: seq<Event>, end: seq<Event>) returns (front: seq<Event>, instead: Event)
    requires all != []
    ensures all + (kept + end) == front + [instead] + end
    ensures instead == if kept == [] then all[|all| - 1] else kept[|kept| - 1]
  {
    var both := all + kept;
    front, instead := both[..|both| - 1], both[|both| - 1];
    assert both == front + [instead];
  }

  lemma StandsWrong(held: seq<Event>, all: seq<Event>, a: seq<Event>, ev: Event, kept: seq<Event>, end: seq<Event>)
    requires |end| < TIMELINE_CAP && all != [] && ev != all[|all| - 1] && (kept != [] ==> ev != kept[|kept| - 1])
    ensures Newest(held + (a + [ev] + end)) != Newest(all + (kept + end))
  {
    var front, instead := StandsInstead(all, kept, end);
    assert held + (a + [ev] + end) == (held + a) + [ev] + end;
    DifferInside(held + a, ev, front, instead, end);
  }

  /** An event brought back, with only new ones after it, stands where another
      should. */
  lemma ReturnedShows(all: seq<Event>, a: seq<Event>, ev: Event, end: seq<Event>, ids: set<string>)
    requires |end| < TIMELINE_CAP && ev.id in ids && Others(end, ids) == end
    requires all != [] && ev.id != all[|all| - 1].id
    ensures Newest(Newest(all) + (a + [ev] + end)) != Newest(all + Others(a + [ev] + end, ids))
  {
    OthersEnd(a, ev, end, ids);
    OthersOf(a, ids);
    StandsWrong(Newest(all), all, a, ev, Others(a, ids), end);
  }

  lemma LastReturned(added: seq<Event>, ids: set<string>, i: nat) returns (a: seq<Event>, ev: Event, end: seq<Event>)
    requires i < |added| <= i + TIMELINE_CAP && added[i].id in ids
    ensures added == a + [ev] + end && ev in added && ev.id in ids
    ensures |end| < TIMELINE_CAP && Others(end, ids) == end
  {
    var j := LastOf(added, ids, i);
    a, ev, end := added[..j], added[j], added[j + 1..];
    OthersOf(end, ids);
  }

  lemma SomeReturned(all: seq<Event>, added: seq<Event>, ids: set<string>, i: nat)
    requires i < |added| <= i + TIMELINE_CAP && added[i].id in ids
    requires all != [] && forall j :: 0 <= j < |added| ==> added[j].id != all[|all| - 1].id
    ensures Newest(Newest(all) + added) != Newest(all + Others(added, ids))
  {
    var a, ev, end := LastReturned(added, ids, i);
    ReturnedShows(all, a, ev, end, ids);
  }

  /** What a batch adds to all delivered is what it appends, less what was
      delivered before. */
  lemma AddsOthers(held: seq<Event>, log: seq<Event>, batch: seq<Event>)
    requires held == Newest(NewOnes({}, log))
    ensures Ids(NewOnes({}, log)) == Ids(log)
    ensures NewOnes({}, log + batch) == NewOnes({}, log) + Others(NewOnes(Ids(held), batch), Ids(log))
  {
    NewOnesSplit({}, log, batch);
    NewOnesAreNew({}, log);
    assert {} + Ids(log) == Ids(log) && Ids(held) <= Ids(NewOnes({}, log));
    HoldingMore(Ids(held), Ids(log), batch);
  }

  lemma HarmfulShows(all: seq<Event>, log: seq<Event>, batch: seq<Event>)
    requires Ids(all) == Ids(log) && !Harmless(Newest(all), log, batch)
    ensures var added := NewOnes(Ids(Newest(all)), batch); Newest(Newest(all) + added) != Newest(all + Others(added, Ids(log)))
  {
    var added := NewOnes(Ids(Newest(all)), batch);
    var i :| 0 <= i < |Newest(added)| && Newest(added)[i].id in Ids(log);
    LastIsHeld(all, log, batch, added);
    NewestFromTheEnd(added, i);
    SomeReturned(all, added, Ids(log), |added| - |Newest(added)| + i);
  }

  lemma NewestFromTheEnd(events: seq<Event>, i: nat)
    requires i < |Newest(events)|
    ensures var j := |events| - |Newest(events)| + i; 0 <= j < |events| <= j + TIMELINE_CAP && Newest(events)[i] == events[j]
  {
  }

  /** One sync keeps the timeline the newest of what was delivered if and only if
      it is harmless. */
  lemma NewestStepIff(held: seq<Event>, log: seq<Event>, batch: seq<Event>)
    requires held == Newest(NewOnes({}, log))
    ensures Newest(held + NewOnes(Ids(held), batch)) == Newest(NewOnes({}, log + batch)) <==> Harmless(held, log, batch)
  {
    AddsOthers(held, log, batch);
    var (all, added) := (NewOnes({}, log), NewOnes(Ids(held), batch));
    if Harmless(held, log, batch) {
      OthersOf(Newest(added), Ids(log));
      HarmlessKeeps(all, added, Ids(log));
    } else {
      HarmfulShows(all, log, batch);
    }
  }

  lemma LastIsHeld(all: seq<Event>, log: seq<Event>, batch: seq<Event>, added: seq<Event>)
    requires Ids(all) == Ids(log) && log != [] && added == NewOnes(Ids(Newest(all)), batch)
    ensures all != [] && forall j :: 0 <= j < |added| ==> added[j].id != all[|all| - 1].id
  {
    assert log[0].id in Ids(all);
    var held := Newest(all);
    assert held[|held| - 1] == all[|all| - 1] && held[|held| - 1] in held;
    NewOnesAreNew(Ids(held), batch);
    forall j | 0 <= j < |added| ensures added[j].id !in Ids(held) { assert added[j] in added; }
  }

  ghost predicate NewestUpTo(acts: seq<Action>, n: nat, id: string)
    requires n <= |acts|
  {
    IsNewest(acts[..n], id)
  }

  ghost predicate NewestThroughout(acts: seq<Action>, id: string) {
    forall n :: 0 <= n <= |acts| ==> NewestUpTo(acts, n, id)
  }

  lemma ThroughoutPush(before: seq<Action>, act: Action, id: string)
    ensures NewestThroughout(before + [act], id) <==> NewestThroughout(before, id) && IsNewest(before + [act], id)
  {
    var acts := before + [act];
    assert acts[..|acts|] == acts;
    forall n | 0 <= n <= |before| ensures NewestUpTo(acts, n, id) <==> NewestUpTo(before, n, id) {
      assert acts[..n] == before[..n];
    }
    assert NewestUpTo(acts, |acts|, id) <==> IsNewest(acts, id);
  }

  /** In every run, the timeline is at every moment the newest of all that was
      delivered since joining, if and only if nothing dropped returns to stay. */
  lemma {:induction false} TimelineIsNewestIff(acts: seq<Action>, id: string)
    ensures NewestThroughout(acts, id) <==> NothingReturns(acts, id)
  {
    if acts == [] {
      assert forall n :: 0 <= n <= |acts| ==> acts[..n] == [];
    } else {
      var (before, act) := (acts[..|acts| - 1], acts[|acts| - 1]);
      TimelineIsNewestIff(before, id);
      assert acts == before + [act];
      ThroughoutPush(before, act, id);
      assert NewestThroughout(before, id) ==> IsNewest(before, id) by {
        assert before[..|before|] == before;
        assert NewestThroughout(before, id) ==> NewestUpTo(before, |before|, id);
      }
      if IsNewest(before, id) { NewestMore(acts, id); }
    }
  }

  lemma NewestMore(acts: seq<Action>, id: string)
    requires acts != [] && IsNewest(acts[..|acts| - 1], id)
    ensures var (before, act) := (acts[..|acts| - 1], acts[|acts| - 1]);
            IsNewest(acts, id) <==>
              (act.Synced? && id in act.resp.join && id !in act.resp.leave ==>
                 Harmless(RoomOr(Run(before, id).room).timeline, Delivered(before, id), act.resp.join[id].timeline))
  {
    var (before, act) := (acts[..|acts| - 1], acts[|acts| - 1]);
    if act.Synced? && id in act.resp.join {
      var log := if id in act.resp.leave then [] else Delivered(before, id);
      var held := RoomOr(AfterLeave(Run(before, id), act.resp, id).room).timeline;
      NewestStepIff(held, log, act.resp.join[id].timeline);
    }
  }

  // --- a run in which a dropped event returns

  function Plain(n: nat): Event {
    Event(Message, None, "", seq(n, _ => 'a'), "", "", None, "", false)
  }

  /** `n` events, no two with the same ID. */
  function Batch(n: nat): seq<Event> {
    seq(n, i requires 0 <= i < n => Plain(i))
  }

  lemma {:induction false} AllAreNew(held: set<string>, events: seq<Event>)
    requires DistinctIds(events) && forall i :: 0 <= i < |events| ==> events[i].id !in held
    ensures NewOnes(held, events) == events
  {
    if events != [] {
      var (rest, last) := (events[..|events| - 1], events[|events| - 1]);
      AllAreNew(held, rest);
      assert last.id !in Ids(rest) by { assert forall e :: e in rest ==> e.id != last.id; }
    }
  }

  lemma BatchIsDistinct(n: nat)
    ensures DistinctIds(Batch(n))
  {
    forall i, j | 0 <= i < j < n ensures Batch(n)[i].id != Batch(n)[j].id {
      assert |Batch(n)[i].id| == i && |Batch(n)[j].id| == j;
    }
  }

  function Sync(id: string, events: seq<Event>): Action {
    Synced(Response({}, map[id := Joined([], events)]))
  }

  lemma FirstSync(id: string, events: seq<Event>)
    ensures var s := [Sync(id, events)];
            RoomOr(Run(s, id).room).timeline == Newest(NewOnes({}, events)) && Delivered(s, id) == events
  {
    var s := [Sync(id, events)];
    assert s[..0] == [] && Ids([]) == {};
    assert [] + NewOnes({}, events) == NewOnes({}, events) && [] + events == events;
  }

  lemma JoinsFull(id: string)
    ensures var s := [Sync(id, Batch(TIMELINE_CAP + 1))];
            && RoomOr(Run(s, id).room).timeline == Newest(Batch(TIMELINE_CAP + 1))
            && Delivered(s, id) == Batch(TIMELINE_CAP + 1) && IsNewest(s, id)
  {
    BatchIsDistinct(TIMELINE_CAP + 1);
    AllAreNew({}, Batch(TIMELINE_CAP + 1));
    FirstSync(id, Batch(TIMELINE_CAP + 1));
  }

  lemma FirstIsNotHeld()
    ensures Plain(0).id !in Ids(Newest(Batch(TIMELINE_CAP + 1)))
  {
    var log := Batch(TIMELINE_CAP + 1);
    var held := Newest(log);
    forall i | 0 <= i < |held| ensures |held[i].id| == i + 1 { assert held[i] == log[i + 1]; }
  }

  lemma FirstIsDropped()
    ensures var (log, again) := (Batch(TIMELINE_CAP + 1), [Plain(0)]); !Harmless(Newest(log), log, again)
  {
    FirstIsNotHeld();
    assert Batch(TIMELINE_CAP + 1)[0] == Plain(0);
    DroppedIsHarmful(Batch(TIMELINE_CAP + 1), Plain(0));
  }

  lemma DroppedIsHarmful(log: seq<Event>, ev: Event)
    requires ev in log && ev.id !in Ids(Newest(log))
    ensures !Harmless(Newest(log), log, [ev])
  {
    AllAreNew(Ids(Newest(log)), [ev]);
    assert Newest([ev])[0] == ev && ev.id in Ids(log);
  }

  lemma ReturnsAfter(first: seq<Action>, log: seq<Event>, again: seq<Event>, id: string)
    requires IsNewest(first, id) && RoomOr(Run(first, id).room).timeline == Newest(log) && Delivered(first, id) == log
    requires !Harmless(Newest(log), log, again)
    ensures !IsNewest(first + [Sync(id, again)], id)
  {
    assert (first + [Sync(id, again)])[..|first|] == first;
    NewestMore(first + [Sync(id, again)], id);
  }

  /** One event more than a timeline holds, and then the first of them again. */
  lemma DroppedEventReturns(id: string)
    ensures IsNewest([Sync(id, Batch(TIMELINE_CAP + 1))], id)
    ensures !IsNewest([Sync(id, Batch(TIMELINE_CAP + 1))] + [Sync(id, [Plain(0)])], id)
  {
    JoinsFull(id);
    FirstIsDropped();
    ReturnsAfter([Sync(id, Batch(TIMELINE_CAP + 1))], Batch(TIMELINE_CAP + 1), [Plain(0)], id);
  }

  // --- pending messages

  /** `act` takes away room `id`'s pending messages of this transaction. */
  predicate Settles(act: Action, id: string, txn: string) {
    act.Synced? && (id in act.resp.leave || (id in act.resp.join && txn in Transactions(act.resp.join[id].timeline)))
  }

  /** Send number `i` of the run still waits: nothing since has echoed it, and
      the room was not left. */
  predicate Outstanding(acts: seq<Action>, i: nat, id: string)
    requires i < |acts|
  {
    acts[i].Sent? && acts[i].id == id && forall j :: i < j < |acts| ==> !Settles(acts[j], id, acts[i].txn)
  }

  predicate RefusedSince(acts: seq<Action>, i: nat, id: string, txn: string)
    requires i < |acts|
  {
    exists j :: i < j < |acts| && acts[j] == Refused(id, txn)
  }

  function Entry(acts: seq<Action>, i: nat, id: string): Pending
    requires i < |acts| && acts[i].Sent?
  {
    var failed := RefusedSince(acts, i, id, acts[i].txn);
    Pending(acts[i].txn, acts[i].body, !failed, failed)
  }

  /** The outstanding among the first `n` acts, in the order sent. */
  function OutstandingList(acts: seq<Action>, n: nat, id: string): seq<Pending>
    requires n <= |acts|
  {
    if n == 0 then []
    else
      var before := OutstandingList(acts, n - 1, id);
      if Outstanding(acts, n - 1, id) then before + [Entry(acts, n - 1, id)] else before
  }

  /** What one more act does to the pending messages already there. */
  function PendingAfter(pending: seq<Pending>, act: Action, id: string): seq<Pending> {
    match act
    case Synced(resp) =>
      var left := if id in resp.leave then [] else pending;
      if id in resp.join then Without(left, Transactions(resp.join[id].timeline)) else left
    case Sent(_, _, _) => pending
    case Refused(room, txn) => if room == id then Marked(pending, txn) else pending
  }

  /** Each entry fares on its own. */
  lemma PendingAfterPush(pending: seq<Pending>, p: Pending, act: Action, id: string)
    ensures PendingAfter(pending + [p], act, id) == PendingAfter(pending, act, id) + PendingAfter([p], act, id)
  {
    if act.Synced? && id in act.resp.join {
      WithoutPush(pending, p, Transactions(act.resp.join[id].timeline));
      AloneAfter(p, act, id);
    } else if act.Refused? && act.id == id {
      var (one, all) := (Marked([p], act.txn), Marked(pending, act.txn));
      assert Marked(pending + [p], act.txn) == all + one;
    }
  }

  lemma AloneAfter(p: Pending, act: Action, id: string)
    ensures Settles(act, id, p.txn) ==> PendingAfter([p], act, id) == []
    ensures act.Synced? && !Settles(act, id, p.txn) ==> PendingAfter([p], act, id) == [p]
    ensures act.Refused? ==> PendingAfter([p], act, id) == [if act == Refused(id, p.txn) then p.(waiting := false, failed := true) else p]
  {
    if act.Synced? && id in act.resp.join {
      WithoutPush([], p, Transactions(act.resp.join[id].timeline));
      assert [] + [p] == [p];
    }
  }

  lemma OneEntry(acts: seq<Action>, act: Action, i: nat, id: string)
    requires i < |acts| && Outstanding(acts, i, id)
    ensures PendingAfter([Entry(acts, i, id)], act, id)
         == if Outstanding(acts + [act], i, id) then [Entry(acts + [act], i, id)] else []
  {
    var longer := acts + [act];
    assert forall j :: i < j < |acts| ==> longer[j] == acts[j];
    assert longer[|acts|] == act;
    AloneAfter(Entry(acts, i, id), act, id);
    assert Outstanding(longer, i, id) <==> !Settles(act, id, acts[i].txn);
    assert RefusedSince(longer, i, id, acts[i].txn) <==> RefusedSince(acts, i, id, acts[i].txn) || act == Refused(id, acts[i].txn);
  }

  lemma {:induction false} ListAfter(acts: seq<Action>, act: Action, n: nat, id: string)
    requires n <= |acts|
    ensures OutstandingList(acts + [act], n, id) == PendingAfter(OutstandingList(acts, n, id), act, id)
  {
    if n == 0 {
      assert OutstandingList(acts, n, id) == [];
    } else {
      ListAfter(acts, act, n - 1, id);
      if Outstanding(acts, n - 1, id) {
        PendingAfterPush(OutstandingList(acts, n - 1, id), Entry(acts, n - 1, id), act, id);
        OneEntry(acts, act, n - 1, id);
      } else {
        StaysSettled(acts, act, n - 1, id);
      }
    }
  }

  lemma StaysSettled(acts: seq<Action>, act: Action, i: nat, id: string)
    requires i < |acts| && !Outstanding(acts, i, id)
    ensures !Outstanding(acts + [act], i, id)
  {
    var longer := acts + [act];
    assert longer[i] == acts[i];
    if acts[i].Sent? && acts[i].id == id {
      var j :| i < j < |acts| && Settles(acts[j], id, acts[i].txn);
      assert longer[j] == acts[j];
    }
  }

  /** After every run, the pending messages of a room are exactly the sends that
      nothing has echoed and no leave has wiped, in the order sent, each marked
      failed exactly if it was refused since. */
  lemma {:induction false} PendingIsOutstanding(acts: seq<Action>, id: string)
    ensures Run(acts, id).pending == OutstandingList(acts, |acts|, id)
  {
    if acts != [] {
      var (before, act) := (acts[..|acts| - 1], acts[|acts| - 1]);
      PendingIsOutstanding(before, id);
      assert acts == before + [act];
      ListAfter(before, act, |before|, id);
      assert After(Run(before, id), act, id).pending
          == PendingAfter(Run(before, id).pending, act, id) + (if act.Sent? && act.id == id then [Pending(act.txn, act.body, true, false)] else []);
    }
  }

  // --- what a sync appends, place by place

  /** Event `i` is the first of its ID, and that ID is not held. */
  predicate FirstAt(held: set<string>, events: seq<Event>, i: nat)
    requires i < |events|
  {
    events[i].id !in held && forall j :: 0 <= j < i ==> events[j].id != events[i].id
  }

  /** The places of the first `n` events that are the first of their ID. */
  function FirstsAt(held: set<string>, events: seq<Event>, n: nat): seq<nat>
    requires n <= |events|
  {
    if n == 0 then []
    else
      var rest := FirstsAt(held, events, n - 1);
      if FirstAt(held, events, n - 1) then rest + [n - 1] else rest
  }

  lemma FirstIsNew(held: set<string>, events: seq<Event>, n: nat)
    requires n < |events|
    ensures FirstAt(held, events, n) <==> events[n].id !in held && events[n].id !in Ids(events[..n])
  {
    forall j | 0 <= j < n ensures events[j] in events[..n] { assert events[..n][j] == events[j]; }
  }

  /** `out` is, in order, the events at the places `at`: those below `n` that are the
      first of their ID, and no other. */
  ghost predicate FirstsOf(held: set<string>, events: seq<Event>, n: nat, at: seq<nat>, out: seq<Event>)
    requires n <= |events|
  {
    && |at| == |out| && (forall a, b :: 0 <= a < b < |at| ==> at[a] < at[b])
    && (forall a :: 0 <= a < |at| ==> at[a] < n && FirstAt(held, events, at[a]) && out[a] == events[at[a]])
    && (forall i :: 0 <= i < n && FirstAt(held, events, i) ==> i in at)
  }

  lemma OnePlaceMore(held: set<string>, events: seq<Event>, n: nat, at: seq<nat>, out: seq<Event>)
    requires n < |events| && FirstsOf(held, events, n, at, out)
    ensures if FirstAt(held, events, n) then FirstsOf(held, events, n + 1, at + [n], out + [events[n]])
            else FirstsOf(held, events, n + 1, at, out)
  {
    if FirstAt(held, events, n) {
      var more := at + [n];
      assert more[|at|] == n;
      forall i | 0 <= i < n && i in at ensures i in more { }
    }
  }

  lemma {:induction false} NewOnesAt(held: set<string>, events: seq<Event>, n: nat)
    requires n <= |events|
    ensures FirstsOf(held, events, n, FirstsAt(held, events, n), NewOnes(held, events[..n]))
  {
    if n > 0 {
      NewOnesAt(held, events, n - 1);
      NewOnesNext(held, events, n - 1, FirstsAt(held, events, n - 1), FirstsAt(held, events, n));
    }
  }

  lemma NewOnesNext(held: set<string>, events: seq<Event>, n: nat, at: seq<nat>, at': seq<nat>)
    requires n < |events| && FirstsOf(held, events, n, at, NewOnes(held, events[..n]))
    requires at' == if FirstAt(held, events, n) then at + [n] else at
    ensures FirstsOf(held, events, n + 1, at', NewOnes(held, events[..n + 1]))
  {
    FirstIsNew(held, events, n);
    assert events[..n + 1] == events[..n] + [events[n]];
    NewOnesPush(held, events[..n], events[n]);
    OnePlaceMore(held, events, n, at, NewOnes(held, events[..n]));
  }

  /** What is appended is, in order, every event that is the first of its ID and not
      held, and no other. */
  lemma NewOnesAreTheFirsts(held: set<string>, events: seq<Event>)
    ensures exists at :: FirstsOf(held, events, |events|, at, NewOnes(held, events))
  {
    NewOnesAt(held, events, |events|);
    assert events[..|events|] == events;
  }
}
