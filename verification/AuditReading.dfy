/** Reading the audit log to its end: a first page, and then one older page after
    another. */
module AuditReading {
  import opened AuditPaging
  import opened Options

  /** All that is stored, newest first. */
  function NewestFirst(arrivals: seq<Id>): seq<Id> {
    Reversed(Stored(arrivals))
  }

  function Min(a: nat, b: nat): nat { if a < b then a else b }

  // --- a page is a piece of the log

  ghost predicate Distinct(ids: seq<Id>) {
    forall i, j :: 0 <= i < j < |ids| ==> ids[i] != ids[j]
  }

  lemma {:induction false} InsertedSize(log: seq<Id>, id: Id)
    requires id !in log
    ensures |Inserted(log, id)| == |log| + 1
  {
    if log != [] { InsertedSize(log[..|log| - 1], id); }
  }

  lemma {:induction false} StoredSize(arrivals: seq<Id>)
    requires Distinct(arrivals)
    ensures |Stored(arrivals)| == |arrivals|
  {
    if arrivals != [] {
      var (rest, last) := (arrivals[..|arrivals| - 1], arrivals[|arrivals| - 1]);
      StoredSize(rest);
      StoredIs(rest);
      InsertedSize(Stored(rest), last);
    }
  }

  lemma {:induction false} BelowHigh(log: seq<Id>, before: Id)
    requires forall i :: 0 <= i < |log| ==> log[i] < before
    ensures Below(log, before) == log
  {
    if log != [] { BelowHigh(log[..|log| - 1], before); }
  }

  lemma {:induction false} BelowAt(log: seq<Id>, i: nat)
    requires Ascending(log) && i < |log| && log[i] > 0
    ensures Below(log, log[i]) == log[..i]
  {
    var (rest, last) := (log[..|log| - 1], log[|log| - 1]);
    if i == |rest| {
      BelowHigh(rest, last);
    } else {
      BelowAt(rest, i);
      assert rest[..i] == log[..i];
    }
  }

  /** The cursor that asks for what comes after the newest `c`. */
  function CursorAt(all: seq<Id>, c: nat): Id
    requires c <= |all|
  {
    if c == 0 then 0 else all[c - 1]
  }

  /** The page asked for at `c`: what comes next, and where to go on if it is full. */
  function PageAt(all: seq<Id>, c: nat): Page
    requires c <= |all|
  {
    Page(all[c..Min(c + PAGE_SIZE, |all|)], if c + PAGE_SIZE <= |all| then all[c + PAGE_SIZE - 1] else 0)
  }

  lemma PieceOf(log: seq<Id>, c: nat)
    requires c <= |log|
    ensures Prefix(Reversed(log[..|log| - c]), PAGE_SIZE) == Reversed(log)[c..Min(c + PAGE_SIZE, |log|)]
  {
  }

  lemma BelowCursor(log: seq<Id>, c: nat)
    requires Ascending(log) && c <= |log| && forall i :: 0 <= i < |log| ==> log[i] > 0
    ensures Below(log, CursorAt(Reversed(log), c)) == log[..|log| - c]
  {
    if c == 0 {
      BelowAll(log);
      assert log[..|log|] == log;
    } else {
      BelowAt(log, |log| - c);
    }
  }

  lemma ServesPiece(log: seq<Id>, c: nat, before: Id)
    requires c <= |log| && Below(log, before) == log[..|log| - c]
    ensures ServePage(log, before, Some(PAGE_SIZE)) == PageAt(Reversed(log), c)
  {
    PieceOf(log, c);
  }

  lemma ServesNext(arrivals: seq<Id>, c: nat)
    requires (forall x :: x in arrivals ==> x > 0) && c <= |NewestFirst(arrivals)|
    ensures ServePage(Stored(arrivals), CursorAt(NewestFirst(arrivals), c), Some(PAGE_SIZE)) == PageAt(NewestFirst(arrivals), c)
  {
    var log := Stored(arrivals);
    StoredIs(arrivals);
    forall i | 0 <= i < |log| ensures log[i] > 0 { assert log[i] in log; }
    BelowCursor(log, c);
    ServesPiece(log, c, CursorAt(Reversed(log), c));
  }

  // --- one round of asking, serving and taking

  /** The newest `c` are held, and the cursor leads on if there were so many. */
  ghost predicate ReadTo(v: View, all: seq<Id>, c: nat) {
    v.records == all[..Min(c, |all|)] && v.next == if 0 < c <= |all| then all[c - 1] else 0
  }

  /** The steps, then a page asked for, served and taken. */
  function Round(steps: seq<Step>, ask: Step): seq<Step> {
    var i := |Run(steps).asked|;
    steps + [ask] + [Serve(i)] + [Deliver(i)]
  }

  lemma RoundRuns(steps: seq<Step>, ask: Step)
    ensures var (s, i) := (Run(steps), |Run(steps).asked|);
            Run(Round(steps, ask)) == After(After(After(s, ask), Serve(i)), Deliver(i))
  {
    var i := |Run(steps).asked|;
    OneStepMore(steps, ask);
    OneStepMore(steps + [ask], Serve(i));
    OneStepMore(steps + [ask] + [Serve(i)], Deliver(i));
  }

  lemma TakesFirst(s: State)
    ensures var (i, p) := (|s.asked|, Answer(s.arrivals, 0).page);
            var t := After(After(After(s, AskFirst), Serve(i)), Deliver(i));
            t.arrivals == s.arrivals && t.view.records == p.records && t.view.next == p.next
  {
    var p := Answer(s.arrivals, 0).page;
    assert [] + p.records == p.records;
  }

  lemma TakesOlder(s: State)
    requires s.view.next != 0
    ensures var (i, p) := (|s.asked|, Answer(s.arrivals, s.view.next).page);
            var t := After(After(After(s, AskOlder), Serve(i)), Deliver(i));
            t.arrivals == s.arrivals && t.view.records == s.view.records + p.records && t.view.next == p.next
  {
  }

  lemma NothingOlder(s: State)
    requires s.view.next == 0
    ensures var i := |s.asked|; After(After(After(s, AskOlder), Serve(i)), Deliver(i)) == s
  {
  }

  lemma ReadsOn(s: State, t: State, all: seq<Id>, c: nat)
    requires ReadTo(s.view, all, c) && c <= |all|
    requires t.view.records == s.view.records + PageAt(all, c).records && t.view.next == PageAt(all, c).next
    ensures ReadTo(t.view, all, c + PAGE_SIZE)
  {
    assert all[..c] + all[c..Min(c + PAGE_SIZE, |all|)] == all[..Min(c + PAGE_SIZE, |all|)];
  }

  lemma FirstRound(steps: seq<Step>)
    ensures var (s, t) := (Run(steps), Run(Round(steps, AskFirst)));
            t.arrivals == s.arrivals && ReadTo(t.view, NewestFirst(s.arrivals), PAGE_SIZE)
  {
    var s := Run(steps);
    AlwaysInv(steps);
    RoundRuns(steps, AskFirst);
    TakesFirst(s);
    ServesNext(s.arrivals, 0);
  }

  lemma OlderRound(steps: seq<Step>, all: seq<Id>, c: nat)
    requires all == NewestFirst(Run(steps).arrivals) && ReadTo(Run(steps).view, all, c) && 0 < c
    ensures var (s, t) := (Run(steps), Run(Round(steps, AskOlder)));
            t.arrivals == s.arrivals && ReadTo(t.view, all, c + PAGE_SIZE)
  {
    var s := Run(steps);
    AlwaysInv(steps);
    RoundRuns(steps, AskOlder);
    StoredIs(s.arrivals);
    if c <= |all| {
      assert all[c - 1] in Stored(s.arrivals);
      TakesOlder(s);
      ServesNext(s.arrivals, c);
      ReadsOn(s, Run(Round(steps, AskOlder)), all, c);
    } else {
      NothingOlder(s);
    }
  }

  // --- any number of rounds

  /** The steps, then a first page and `k` older ones. */
  function Reads(steps: seq<Step>, k: nat): seq<Step> {
    if k == 0 then Round(steps, AskFirst) else Round(Reads(steps, k - 1), AskOlder)
  }

  /** The log is as it was, and read so far. */
  ghost predicate HasRead(arrivals: seq<Id>, s: State, c: nat) {
    s.arrivals == arrivals && ReadTo(s.view, NewestFirst(arrivals), c)
  }

  lemma {:induction false} RoundsRead(steps: seq<Step>, arrivals: seq<Id>, k: nat)
    requires arrivals == Run(steps).arrivals
    ensures HasRead(arrivals, Run(Reads(steps, k)), PAGE_SIZE * (k + 1))
  {
    if k == 0 {
      FirstRound(steps);
    } else {
      RoundsRead(steps, arrivals, k - 1);
      NextRead(Reads(steps, k - 1), arrivals, PAGE_SIZE * k);
    }
  }

  lemma NextRead(steps: seq<Step>, arrivals: seq<Id>, c: nat)
    requires HasRead(arrivals, Run(steps), c) && 0 < c
    ensures HasRead(arrivals, Run(Round(steps, AskOlder)), c + PAGE_SIZE)
  {
    OlderRound(steps, NewestFirst(arrivals), c);
  }

  /** Newest first, the newest `c` of what was recorded, or all if there were not so
      many, and a cursor exactly if there were. */
  ghost predicate ShowsNewest(v: View, arrivals: seq<Id>, c: nat) {
    && Descending(v.records) && |v.records| == Min(c, |arrivals|)
    && (forall x :: x in v.records ==> x in arrivals)
    && (forall x, y :: x in arrivals && x !in v.records && y in v.records ==> x < y)
    && (v.next != 0 <==> c <= |arrivals|)
  }

  lemma NewestFirstIs(arrivals: seq<Id>)
    requires Distinct(arrivals)
    ensures Descending(NewestFirst(arrivals)) && |NewestFirst(arrivals)| == |arrivals|
    ensures forall x :: x in NewestFirst(arrivals) <==> x in arrivals
  {
    StoredIs(arrivals);
    StoredSize(arrivals);
    ReversedDescends(Stored(arrivals));
    forall x ensures x in NewestFirst(arrivals) <==> x in Stored(arrivals) { InReversed(Stored(arrivals), x); }
  }

  lemma ReversedDescends(log: seq<Id>)
    requires Ascending(log)
    ensures Descending(Reversed(log)) && |Reversed(log)| == |log|
  {
  }

  lemma InReversed(log: seq<Id>, x: Id)
    ensures x in Reversed(log) <==> x in log
  {
    var all := Reversed(log);
    if x in log {
      var i :| 0 <= i < |log| && log[i] == x;
      assert all[|log| - 1 - i] == x;
    }
  }

  lemma ReadShows(v: View, arrivals: seq<Id>, c: nat)
    requires Distinct(arrivals) && (forall x :: x in arrivals ==> x > 0) && 0 < c && ReadTo(v, NewestFirst(arrivals), c)
    ensures ShowsNewest(v, arrivals, c)
  {
    NewestFirstIs(arrivals);
    var (all, n) := (NewestFirst(arrivals), Min(c, |arrivals|));
    forall x | x in v.records ensures x in arrivals { assert x in all; }
    forall x, y | x in arrivals && x !in v.records && y in v.records ensures x < y {
      var i :| 0 <= i < |all| && all[i] == x;
      var j :| 0 <= j < n && all[j] == y;
      assert i >= n;
    }
    if c <= |arrivals| { assert all[c - 1] in all; }
  }

  /** From every state a run can reach, while nothing is recorded, a first page and
      `k` older ones show exactly the newest 200 records for each page. */
  lemma PagesShowTheNewest(steps: seq<Step>, k: nat)
    ensures Run(Reads(steps, k)).arrivals == Run(steps).arrivals
    ensures ShowsNewest(Run(Reads(steps, k)).view, Run(steps).arrivals, 200 * (k + 1))
  {
    AlwaysInv(steps);
    RoundsRead(steps, Run(steps).arrivals, k);
    ReadShows(Run(Reads(steps, k)).view, Run(steps).arrivals, 200 * (k + 1));
  }

  /** And enough of them show every record, with no cursor left. */
  lemma ReadingReachesTheEnd(steps: seq<Step>, k: nat)
    requires |Run(steps).arrivals| < 200 * (k + 1)
    ensures var v := Run(Reads(steps, k)).view;
            v.next == 0 && Descending(v.records) && |v.records| == |Run(steps).arrivals|
            && forall x :: x in Run(steps).arrivals <==> x in v.records
  {
    AlwaysInv(steps);
    RoundsRead(steps, Run(steps).arrivals, k);
    NewestFirstIs(Run(steps).arrivals);
    var all := NewestFirst(Run(steps).arrivals);
    assert all[..|all|] == all;
  }
}
