/** Paging through the audit log from the console: pages are served newest first,
    strictly older than a cursor, and answers arrive in any order. Records are
    stored, and read, in the order of their IDs, which need not be the order they
    were recorded in. */
module AuditPaging {
  import opened Options

  /** A record's ID, which orders the log; zero stands for no cursor. */
  type Id = nat

  const PAGE_SIZE: nat := 200

  // --- the server

  /** The store with one more record; an ID already there is overwritten. */
  function Inserted(log: seq<Id>, id: Id): seq<Id> {
    if log == [] then [id]
    else
      var (rest, last) := (log[..|log| - 1], log[|log| - 1]);
      if last < id then log + [id] else if last == id then log else Inserted(rest, id) + [last]
  }

  /** The store after some records, by ID. */
  function Stored(arrivals: seq<Id>): seq<Id> {
    if arrivals == [] then [] else Inserted(Stored(arrivals[..|arrivals| - 1]), arrivals[|arrivals| - 1])
  }

  function Below(log: seq<Id>, before: Id): seq<Id> {
    if log == [] then []
    else
      var (rest, last) := (Below(log[..|log| - 1], before), log[|log| - 1]);
      if before == 0 || last < before then rest + [last] else rest
  }

  function Reversed(ids: seq<Id>): seq<Id> {
    seq(|ids|, i requires 0 <= i < |ids| => ids[|ids| - 1 - i])
  }

  function Prefix(ids: seq<Id>, limit: nat): seq<Id> {
    if |ids| <= limit then ids else ids[..limit]
  }

  function Clamped(limit: Option<nat>): nat {
    var n := if limit.Some? then limit.value else 100;
    if n < 1 then 1 else if n > 1000 then 1000 else n
  }

  datatype Page = Page(records: seq<Id>, next: Id)

  /** The newest records older than `before`, and, if the page is full, the
      cursor of the next one. */
  function ServePage(log: seq<Id>, before: Id, limit: Option<nat>): Page {
    var records := Prefix(Reversed(Below(log, before)), Clamped(limit));
    Page(records, if |records| == Clamped(limit) then records[|records| - 1] else 0)
  }

  // --- the console

  datatype View = View(records: seq<Id>, next: Id, loaded: bool)

  /** An older page asked for with a cursor the view no longer holds is dropped. */
  predicate Fits(v: View, before: Id) {
    before == 0 || before == v.next
  }

  function Took(v: View, page: Page, before: Id): View {
    if Fits(v, before) then View((if before == 0 then [] else v.records) + page.records, page.next, true) else v
  }

  // --- runs

  datatype Asked = Asked(gen: nat, before: Id, answer: Option<Served>)

  /** `at` is how many records there were when the page was served. */
  datatype Served = Served(before: Id, page: Page, at: nat)

  /** `arrivals` are the records in the order they came, and `pages` the answers
      the view is made of. */
  datatype State = State(arrivals: seq<Id>, view: View, pages: seq<Served>, gen: nat, asked: seq<Asked>)

  datatype Step =
    | Recorded(id: Id)
    | AskFirst
    | AskOlder
    | Serve(i: nat)
    | Deliver(i: nat)
    | SignIn

  const EMPTY := View([], 0, false)
  const START := State([], EMPTY, [], 0, [])

  predicate Taken(s: State, i: nat) {
    i < |s.asked| && s.asked[i].answer.Some? && s.asked[i].gen == s.gen
  }

  function Delivered(s: State, served: Served): State {
    s.(view := Took(s.view, served.page, served.before),
       pages := if !Fits(s.view, served.before) then s.pages else if served.before == 0 then [served] else s.pages + [served])
  }

  function Answer(arrivals: seq<Id>, before: Id): Served {
    Served(before, ServePage(Stored(arrivals), before, Some(PAGE_SIZE)), |arrivals|)
  }

  function After(s: State, step: Step): State {
    match step
    case Recorded(id) => if id == 0 || id in s.arrivals then s else s.(arrivals := s.arrivals + [id])
    case AskFirst => s.(asked := s.asked + [Asked(s.gen, 0, None)])
    case AskOlder => if s.view.next == 0 then s else s.(asked := s.asked + [Asked(s.gen, s.view.next, None)])
    case Serve(i) =>
      if i < |s.asked| && s.asked[i].answer.None?
      then s.(asked := s.asked[i := s.asked[i].(answer := Some(Answer(s.arrivals, s.asked[i].before)))])
      else s
    case Deliver(i) => if Taken(s, i) then Delivered(s, s.asked[i].answer.value) else s
    case SignIn => s.(view := EMPTY, pages := [], gen := s.gen + 1)
  }

  function Run(steps: seq<Step>): State {
    if steps == [] then START else After(Run(steps[..|steps| - 1]), steps[|steps| - 1])
  }

  // --- what is promised, and exactly when it is kept

  /** The view speaks for the IDs from its newest record down to its oldest, or
      all the way down once no cursor is left. */
  predicate SpeaksFor(v: View, id: Id) {
    v.records != [] && id <= v.records[0] && (v.next == 0 || v.records[|v.records| - 1] <= id)
  }

  /** Every record the view speaks for is in it. */
  ghost predicate NoHole(s: State) {
    forall id :: id in s.arrivals && SpeaksFor(s.view, id) ==> id in s.view.records
  }

  /** The place of a page: from its cursor, or from its first record, down to its
      last record, or all the way down if it is not full. */
  predicate InPlace(p: Served, id: Id) {
    && p.page.next <= id
    && if p.before != 0 then id < p.before else p.page.records != [] && id <= p.page.records[0]
  }

  /** Record number `m` came after page `p` was served, and in its place. */
  ghost predicate Late(s: State, p: Served, m: nat)
    requires m < |s.arrivals|
  {
    p.at <= m && InPlace(p, s.arrivals[m])
  }

  ghost predicate NoneLate(s: State) {
    forall k, m :: 0 <= k < |s.pages| && 0 <= m < |s.arrivals| ==> !Late(s, s.pages[k], m)
  }

  // --- the store is sorted, and a page is a stretch of it

  ghost predicate Ascending(log: seq<Id>) {
    forall i, j :: 0 <= i < j < |log| ==> log[i] < log[j]
  }

  ghost predicate Descending(log: seq<Id>) {
    forall i, j :: 0 <= i < j < |log| ==> log[i] > log[j]
  }

  lemma {:induction false} InsertedIs(log: seq<Id>, id: Id)
    requires Ascending(log)
    ensures Ascending(Inserted(log, id))
    ensures forall x :: x in Inserted(log, id) <==> x in log || x == id
  {
    if log != [] {
      var (rest, last) := (log[..|log| - 1], log[|log| - 1]);
      assert log == rest + [last];
      if last > id {
        InsertedIs(rest, id);
        var before := Inserted(rest, id);
        forall i | 0 <= i < |before| ensures before[i] < last { assert before[i] in before; }
      }
    }
  }

  lemma {:induction false} StoredIs(arrivals: seq<Id>)
    ensures Ascending(Stored(arrivals))
    ensures forall x :: x in Stored(arrivals) <==> x in arrivals
  {
    if arrivals != [] {
      var (rest, last) := (arrivals[..|arrivals| - 1], arrivals[|arrivals| - 1]);
      assert arrivals == rest + [last];
      StoredIs(rest);
      InsertedIs(Stored(rest), last);
    }
  }

  lemma {:induction false} BelowIs(log: seq<Id>, before: Id)
    requires Ascending(log)
    ensures Ascending(Below(log, before))
    ensures forall x :: x in Below(log, before) <==> x in log && (before == 0 || x < before)
  {
    if log != [] {
      var (rest, last) := (log[..|log| - 1], log[|log| - 1]);
      assert log == rest + [last];
      BelowIs(rest, before);
      var below := Below(rest, before);
      forall i | 0 <= i < |below| ensures below[i] < last { assert below[i] in below; }
    }
  }

  /** The newest few of an ascending list are those from the last of them up. */
  lemma NewestFew(ids: seq<Id>, limit: nat)
    requires Ascending(ids) && 0 < limit
    ensures var few := Prefix(Reversed(ids), limit);
            && Descending(few) && |few| <= limit
            && forall x :: x in few <==> x in ids && (|few| == limit ==> few[limit - 1] <= x)
  {
    var few := Prefix(Reversed(ids), limit);
    FewFromTheEnd(ids, limit);
    forall x | x in few ensures x in ids && (|few| == limit ==> few[limit - 1] <= x) {
      var i :| 0 <= i < |few| && few[i] == x;
      assert few[i] == ids[|ids| - 1 - i];
    }
    forall x | x in ids && (|few| == limit ==> few[limit - 1] <= x) ensures x in few {
      var i :| 0 <= i < |ids| && ids[i] == x;
      assert few[|ids| - 1 - i] == x;
    }
  }

  lemma FewFromTheEnd(ids: seq<Id>, limit: nat)
    ensures var few := Prefix(Reversed(ids), limit);
            && |few| == (if limit < |ids| then limit else |ids|)
            && forall i :: 0 <= i < |few| ==> few[i] == ids[|ids| - 1 - i]
  {
  }

  /** A page holds exactly the records of its place that there were when it was
      served, newest first. */
  ghost predicate Holds(arrivals: seq<Id>, p: Served) {
    && p.at <= |arrivals| && Descending(p.page.records)
    && (forall x :: x in p.page.records <==> x in arrivals[..p.at] && InPlace(p, x))
    && (p.before != 0 ==> p.before in arrivals[..p.at])
    && (p.before == 0 ==> forall x :: x in arrivals[..p.at] ==> p.page.records != [] && x <= p.page.records[0])
    && (p.page.next != 0 ==> p.page.records != [] && p.page.next == p.page.records[|p.page.records| - 1])
  }

  lemma PageIsItsPlace(arrivals: seq<Id>, before: Id)
    requires (forall x :: x in arrivals ==> x > 0) && (before != 0 ==> before in arrivals)
    ensures Holds(arrivals, Answer(arrivals, before))
  {
    var log := Stored(arrivals);
    StoredIs(arrivals);
    BelowIs(log, before);
    NewestFew(Below(log, before), PAGE_SIZE);
    var p := Answer(arrivals, before);
    var few := p.page.records;
    assert arrivals[..|arrivals|] == arrivals;
    forall x ensures x in few <==> x in arrivals && InPlace(p, x) {
      if before == 0 && x in few {
        var i :| 0 <= i < |few| && few[i] == x;
        assert few[0] >= x;
      }
      if before == 0 && x in arrivals && InPlace(p, x) {
        assert x in Below(log, before);
      }
    }
  }

  // --- the view is its pages, one below the other

  function Records(pages: seq<Served>): seq<Id> {
    if pages == [] then [] else Records(pages[..|pages| - 1]) + pages[|pages| - 1].page.records
  }

  /** Each page continues the one before it. */
  ghost predicate Linked(pages: seq<Served>) {
    && (pages != [] ==> pages[0].before == 0)
    && forall k :: 0 < k < |pages| ==> pages[k].before != 0 && pages[k].before == pages[k - 1].page.next
  }

  ghost predicate AllHold(arrivals: seq<Id>, pages: seq<Served>) {
    forall k :: 0 <= k < |pages| ==> Holds(arrivals, pages[k])
  }

  ghost predicate Shows(v: View, pages: seq<Served>) {
    if pages == [] then v == EMPTY else v == View(Records(pages), pages[|pages| - 1].page.next, true)
  }

  /** The view is what its pages make it. */
  ghost predicate Made(arrivals: seq<Id>, v: View, pages: seq<Served>) {
    Linked(pages) && AllHold(arrivals, pages) && Shows(v, pages)
  }

  ghost predicate Honest(arrivals: seq<Id>, q: Asked) {
    && (q.before != 0 ==> q.before in arrivals)
    && (q.answer.Some? ==> q.answer.value.before == q.before && Holds(arrivals, q.answer.value))
  }

  ghost predicate Inv(s: State) {
    && (forall m :: 0 <= m < |s.arrivals| ==> s.arrivals[m] > 0)
    && (forall m, n :: 0 <= m < n < |s.arrivals| ==> s.arrivals[m] != s.arrivals[n])
    && Made(s.arrivals, s.view, s.pages)
    && forall i :: 0 <= i < |s.asked| ==> Honest(s.arrivals, s.asked[i])
  }

  lemma HoldsForLonger(arrivals: seq<Id>, id: Id, p: Served)
    requires Holds(arrivals, p)
    ensures Holds(arrivals + [id], p)
  {
    assert (arrivals + [id])[..p.at] == arrivals[..p.at];
  }

  /** A cursor names a record. */
  lemma NextIsRecorded(arrivals: seq<Id>, p: Served)
    requires Holds(arrivals, p) && p.page.next != 0
    ensures p.page.next in arrivals
  {
    assert p.page.next in p.page.records;
  }

  lemma RecordedKeeps(s: State, id: Id)
    requires Inv(s) && id > 0 && id !in s.arrivals
    ensures Inv(s.(arrivals := s.arrivals + [id]))
  {
    var longer := s.arrivals + [id];
    forall k | 0 <= k < |s.pages| ensures Holds(longer, s.pages[k]) { HoldsForLonger(s.arrivals, id, s.pages[k]); }
    forall i | 0 <= i < |s.asked| ensures Honest(longer, s.asked[i]) {
      assert Honest(s.arrivals, s.asked[i]);
      if s.asked[i].answer.Some? { HoldsForLonger(s.arrivals, id, s.asked[i].answer.value); }
    }
  }

  lemma ServedKeeps(s: State, i: nat)
    requires Inv(s) && i < |s.asked| && s.asked[i].answer.None?
    ensures Inv(s.(asked := s.asked[i := s.asked[i].(answer := Some(Answer(s.arrivals, s.asked[i].before)))]))
  {
    assert Honest(s.arrivals, s.asked[i]);
    PageIsItsPlace(s.arrivals, s.asked[i].before);
  }

  lemma AskedKeeps(s: State, before: Id)
    requires Inv(s) && (before != 0 ==> before in s.arrivals)
    ensures Inv(s.(asked := s.asked + [Asked(s.gen, before, None)]))
  {
  }

  lemma StepKeeps(s: State, step: Step)
    requires Inv(s)
    ensures Inv(After(s, step))
  {
    match step {
      case Recorded(id) =>
        if id != 0 && id !in s.arrivals { RecordedKeeps(s, id); }
      case AskFirst => AskedKeeps(s, 0);
      case AskOlder =>
        if s.view.next != 0 {
          NextIsRecorded(s.arrivals, s.pages[|s.pages| - 1]);
          AskedKeeps(s, s.view.next);
        }
      case Serve(i) =>
        if i < |s.asked| && s.asked[i].answer.None? { ServedKeeps(s, i); }
      case Deliver(i) =>
        if Taken(s, i) {
          assert Honest(s.arrivals, s.asked[i]);
          TakenKeeps(s, s.asked[i].answer.value);
        }
      case SignIn =>
    }
  }

  lemma TakenKeeps(s: State, p: Served)
    requires Made(s.arrivals, s.view, s.pages) && Holds(s.arrivals, p)
    ensures var s' := Delivered(s, p); Made(s'.arrivals, s'.view, s'.pages)
  {
    if p.before == 0 {
      FirstMade(s.arrivals, s.view, p);
    } else if p.before == s.view.next {
      OlderMade(s.arrivals, s.view, s.pages, p);
    }
  }

  lemma FirstMade(arrivals: seq<Id>, v: View, p: Served)
    requires Holds(arrivals, p) && p.before == 0
    ensures Made(arrivals, Took(v, p.page, p.before), [p])
  {
    assert [p][..0] == [];
  }

  /** The page after the view's cursor continues it. */
  lemma OlderMade(arrivals: seq<Id>, v: View, pages: seq<Served>, p: Served)
    requires Made(arrivals, v, pages) && Holds(arrivals, p) && p.before == v.next != 0
    ensures Made(arrivals, Took(v, p.page, p.before), pages + [p])
  {
    var more := pages + [p];
    assert more[..|pages|] == pages;
    forall k | 0 <= k < |more| ensures Holds(arrivals, more[k]) { }
  }

  lemma {:induction false} AlwaysInv(steps: seq<Step>)
    ensures Inv(Run(steps))
  {
    if steps != [] {
      AlwaysInv(steps[..|steps| - 1]);
      StepKeeps(Run(steps[..|steps| - 1]), steps[|steps| - 1]);
    }
  }

  // --- places lie one below the other

  /** The page's records lie in its place, newest first, down to its cursor. */
  ghost predicate Stretch(p: Served) {
    && Descending(p.page.records)
    && (forall x :: x in p.page.records ==> InPlace(p, x))
    && (p.page.next != 0 ==> p.page.records != [] && p.page.next == p.page.records[|p.page.records| - 1])
  }

  /** Pages that continue one another. */
  ghost predicate Chain(pages: seq<Served>) {
    Linked(pages) && forall k :: 0 <= k < |pages| ==> Stretch(pages[k])
  }

  lemma PagesChain(s: State)
    requires Inv(s)
    ensures Chain(s.pages)
  {
    forall k | 0 <= k < |s.pages| ensures Stretch(s.pages[k]) { assert Holds(s.arrivals, s.pages[k]); }
  }

  ghost predicate SomePlace(pages: seq<Served>, id: Id) {
    exists k :: 0 <= k < |pages| && InPlace(pages[k], id)
  }

  lemma StackDescends(above: seq<Id>, here: seq<Id>, bound: Id)
    requires Descending(above) && Descending(here)
    requires forall i :: 0 <= i < |above| ==> above[i] >= bound
    requires forall i :: 0 <= i < |here| ==> here[i] < bound
    ensures Descending(above + here)
  {
  }

  /** The chain's records are newest first all the way, down to its cursor. */
  ghost predicate Runs(records: seq<Id>, next: Id) {
    && Descending(records)
    && (forall i :: 0 <= i < |records| ==> next <= records[i])
    && (next != 0 ==> records != [] && records[|records| - 1] == next)
  }

  lemma {:induction false} ChainRuns(pages: seq<Served>)
    requires Chain(pages) && pages != []
    ensures Runs(Records(pages), pages[|pages| - 1].page.next)
  {
    var (rest, p) := (pages[..|pages| - 1], pages[|pages| - 1]);
    assert Stretch(p);
    forall i | 0 <= i < |p.page.records| ensures InPlace(p, p.page.records[i]) { assert p.page.records[i] in p.page.records; }
    if rest == [] {
      assert Records(pages) == [] + p.page.records;
    } else {
      ChainRuns(rest);
      StackDescends(Records(rest), p.page.records, p.before);
    }
  }

  lemma OnePlaceMore(pages: seq<Served>, p: Served, id: Id)
    ensures SomePlace(pages + [p], id) <==> SomePlace(pages, id) || InPlace(p, id)
  {
    var more := pages + [p];
    assert InPlace(p, id) ==> InPlace(more[|pages|], id);
    forall k | 0 <= k < |pages| ensures more[k] == pages[k] { }
  }

  /** The IDs a chain of pages speaks for. */
  ghost predicate Spoken(pages: seq<Served>, id: Id) {
    pages != [] && Records(pages) != [] && pages[|pages| - 1].page.next <= id <= Records(pages)[0]
  }

  lemma {:induction false} SpokenIsSomePlace(pages: seq<Served>, id: Id)
    requires Chain(pages)
    ensures Spoken(pages, id) <==> SomePlace(pages, id)
  {
    if pages != [] {
      var (rest, p) := (pages[..|pages| - 1], pages[|pages| - 1]);
      assert pages == rest + [p];
      ChainEnds(rest, p);
      OnePlaceMore(rest, p, id);
      if rest == [] {
        SpokenFirst(p, id);
      } else {
        SpokenIsSomePlace(rest, id);
        SpokenFurther(rest, p, id);
      }
    }
  }

  lemma ChainEnds(rest: seq<Served>, p: Served)
    requires Chain(rest + [p])
    ensures Chain(rest) && Stretch(p)
    ensures if rest == [] then p.before == 0 else p.before == rest[|rest| - 1].page.next != 0
  {
    var pages := rest + [p];
    forall k | 0 <= k < |rest| ensures Stretch(rest[k]) { assert pages[k] == rest[k]; }
    forall k | 0 < k < |rest| ensures rest[k].before != 0 && rest[k].before == rest[k - 1].page.next {
      assert pages[k] == rest[k] && pages[k - 1] == rest[k - 1];
    }
    assert rest != [] ==> pages[0] == rest[0];
    assert pages[|rest|] == p && (rest != [] ==> pages[|rest| - 1] == rest[|rest| - 1]);
  }

  lemma SpokenFirst(p: Served, id: Id)
    requires p.before == 0 && Stretch(p)
    ensures Spoken([] + [p], id) <==> InPlace(p, id)
  {
    assert [p][..0] == [] && [] + [p] == [p] && Records([p]) == [] + p.page.records == p.page.records;
  }

  lemma SpokenFurther(rest: seq<Served>, p: Served, id: Id)
    requires Chain(rest) && rest != [] && Stretch(p) && p.before == rest[|rest| - 1].page.next != 0
    ensures Spoken(rest + [p], id) <==> Spoken(rest, id) || InPlace(p, id)
  {
    ChainRuns(rest);
    var above := Records(rest);
    assert (rest + [p])[..|rest|] == rest;
    assert above[0] >= above[|above| - 1] == p.before;
    assert Records(rest + [p])[0] == above[0];
    assert p.page.next != 0 ==> p.page.next in p.page.records;
  }

  /** A later page's place ends where an earlier one's cursor is. */
  lemma {:induction false} LaterIsBelow(pages: seq<Served>, k: nat, l: nat)
    requires Chain(pages) && k < l < |pages|
    ensures pages[l].before <= pages[k].page.next
  {
    if k + 1 < l {
      LaterIsBelow(pages, k, l - 1);
      assert pages[l].before == pages[l - 1].page.next != 0;
      assert Stretch(pages[l - 1]) && pages[l - 1].page.next in pages[l - 1].page.records;
    }
  }

  lemma {:induction false} InSomePage(pages: seq<Served>, id: Id)
    ensures id in Records(pages) <==> exists k :: 0 <= k < |pages| && id in pages[k].page.records
  {
    if pages != [] {
      InSomePage(pages[..|pages| - 1], id);
      assert pages == pages[..|pages| - 1] + [pages[|pages| - 1]];
    }
  }

  /** What is held of a page's place, that page holds. */
  lemma HeldWhereItBelongs(pages: seq<Served>, id: Id, k: nat)
    requires Chain(pages) && k < |pages| && InPlace(pages[k], id)
    ensures id in Records(pages) <==> id in pages[k].page.records
  {
    InSomePage(pages, id);
    if id in Records(pages) {
      var l :| 0 <= l < |pages| && id in pages[l].page.records;
      assert Stretch(pages[l]);
      if k < l { LaterIsBelow(pages, k, l); }
      if l < k { LaterIsBelow(pages, l, k); }
    }
  }

  lemma SpeaksForIsSpoken(s: State, id: Id)
    requires Inv(s)
    ensures SpeaksFor(s.view, id) <==> SomePlace(s.pages, id)
  {
    PagesChain(s);
    SpokenIsSomePlace(s.pages, id);
    if s.pages != [] { ChainRuns(s.pages); }
  }

  lemma HoleFromLate(s: State, k: nat, m: nat)
    requires Inv(s) && k < |s.pages| && m < |s.arrivals| && Late(s, s.pages[k], m)
    ensures !NoHole(s)
  {
    var (p, id) := (s.pages[k], s.arrivals[m]);
    SpeaksForIsSpoken(s, id);
    PagesChain(s);
    HeldWhereItBelongs(s.pages, id, k);
    assert Holds(s.arrivals, p);
    assert id !in s.arrivals[..p.at];
    assert id in s.arrivals;
  }

  lemma HeldUnlessLate(s: State, m: nat)
    requires Inv(s) && NoneLate(s) && m < |s.arrivals| && SpeaksFor(s.view, s.arrivals[m])
    ensures s.arrivals[m] in s.view.records
  {
    var id := s.arrivals[m];
    SpeaksForIsSpoken(s, id);
    var k :| 0 <= k < |s.pages| && InPlace(s.pages[k], id);
    assert !Late(s, s.pages[k], m) && Holds(s.arrivals, s.pages[k]);
    assert s.arrivals[..s.pages[k].at][m] == id;
    PagesChain(s);
    HeldWhereItBelongs(s.pages, id, k);
  }

  /** In every run, whatever order records and answers come in, the view lacks no
      record it speaks for if and only if no record came, after one of its pages
      was served, in that page's place. */
  lemma NoHoleIff(steps: seq<Step>)
    ensures NoHole(Run(steps)) <==> NoneLate(Run(steps))
  {
    AlwaysInv(steps);
    var s := Run(steps);
    if NoneLate(s) {
      forall id | id in s.arrivals && SpeaksFor(s.view, id) ensures id in s.view.records {
        var m :| 0 <= m < |s.arrivals| && s.arrivals[m] == id;
        HeldUnlessLate(s, m);
      }
    } else {
      var k, m :| 0 <= k < |s.pages| && 0 <= m < |s.arrivals| && Late(s, s.pages[k], m);
      HoleFromLate(s, k, m);
    }
  }

  /** In every run the records held are strictly newest first, all of them
      recorded, from the newest there was when the first page was served. */
  lemma AlwaysInOrder(steps: seq<Step>)
    ensures var s := Run(steps);
            && Descending(s.view.records)
            && (forall x :: x in s.view.records ==> x in s.arrivals)
            && (s.pages != [] ==> Newest(s.view.records, s.arrivals, s.pages[0].at))
  {
    AlwaysInv(steps);
    var s := Run(steps);
    PagesChain(s);
    if s.pages != [] {
      ChainRuns(s.pages);
      StartsNewest(s);
      forall x | x in s.view.records ensures x in s.arrivals { HeldIsRecorded(s, x); }
    }
  }

  lemma HeldIsRecorded(s: State, x: Id)
    requires Inv(s) && x in s.view.records
    ensures x in s.arrivals
  {
    InSomePage(s.pages, x);
    var k :| 0 <= k < |s.pages| && x in s.pages[k].page.records;
    assert Holds(s.arrivals, s.pages[k]);
  }

  lemma StartsNewest(s: State)
    requires Inv(s) && s.pages != []
    ensures Newest(s.view.records, s.arrivals, s.pages[0].at)
  {
    assert Holds(s.arrivals, s.pages[0]);
    FirstComesFirst(s.pages);
  }

  /** `records` starts with the newest of the first `at` arrivals. */
  ghost predicate Newest(records: seq<Id>, arrivals: seq<Id>, at: nat) {
    at <= |arrivals| && forall x :: x in arrivals[..at] ==> records != [] && x <= records[0]
  }

  lemma {:induction false} FirstComesFirst(pages: seq<Served>)
    requires pages != []
    ensures pages[0].page.records <= Records(pages)
  {
    if |pages| > 1 {
      FirstComesFirst(pages[..|pages| - 1]);
    } else {
      assert pages[..0] == [] && [] + pages[0].page.records == pages[0].page.records;
    }
  }

  /** Records come in the order of their IDs. */
  ghost predicate Appends(steps: seq<Step>) {
    Ascending(Run(steps).arrivals)
  }

  /** Over a log that only grows at its end, in every interleaving, the view lacks
      nothing it speaks for: it is a gapless run, and with no cursor left it holds
      the oldest record. */
  lemma AlwaysGapless(steps: seq<Step>)
    requires Appends(steps)
    ensures NoHole(Run(steps))
  {
    AlwaysInv(steps);
    var s := Run(steps);
    forall k, m | 0 <= k < |s.pages| && 0 <= m < |s.arrivals| ensures !Late(s, s.pages[k], m) {
      NeverLate(s, s.pages[k], m);
    }
    NoHoleIff(steps);
  }

  lemma NeverLate(s: State, p: Served, m: nat)
    requires Ascending(s.arrivals) && Holds(s.arrivals, p) && m < |s.arrivals|
    ensures !Late(s, p, m)
  {
    assert forall x :: x in s.arrivals[..p.at] && p.at <= m ==> x < s.arrivals[m];
    assert p.page.records != [] ==> p.page.records[0] in p.page.records;
  }

  // --- a record that lands in a page on its way

  lemma OneStepMore(steps: seq<Step>, step: Step)
    ensures Run(steps + [step]) == After(Run(steps), step)
  {
    assert (steps + [step])[..|steps|] == steps;
  }

  lemma InsertedLast(log: seq<Id>, id: Id)
    requires log == [] || log[|log| - 1] < id
    ensures Inserted(log, id) == log + [id]
  {
  }

  lemma {:induction false} StoredInOrder(arrivals: seq<Id>)
    requires Ascending(arrivals)
    ensures Stored(arrivals) == arrivals
  {
    if arrivals != [] {
      var (rest, last) := (arrivals[..|arrivals| - 1], arrivals[|arrivals| - 1]);
      StoredInOrder(rest);
      InsertedLast(rest, last);
    }
  }

  lemma {:induction false} BelowAll(log: seq<Id>)
    ensures Below(log, 0) == log
  {
    if log != [] { BelowAll(log[..|log| - 1]); }
  }

  /** With little recorded, and in order, the first page is all of it. */
  lemma ShortPage(arrivals: seq<Id>)
    requires Ascending(arrivals) && |arrivals| < PAGE_SIZE
    ensures Answer(arrivals, 0) == Served(0, Page(Reversed(arrivals), 0), |arrivals|)
  {
    StoredInOrder(arrivals);
    BelowAll(arrivals);
  }

  lemma FirstRefresh(s: State)
    requires s.asked == []
    ensures var t := After(After(After(s, AskFirst), Serve(0)), Deliver(0));
            t.arrivals == s.arrivals && t.gen == s.gen && |t.asked| == 1
  {
  }

  lemma SecondRefresh(s: State)
    requires s.arrivals == [10, 20] && |s.asked| == 1
    ensures var t := After(After(After(After(s, Recorded(30)), Recorded(40)), AskFirst), Serve(1));
            && t.arrivals == [10, 20, 30, 40] && t.gen == s.gen && |t.asked| == 2
            && t.asked[1] == Asked(s.gen, 0, Some(Served(0, Page([40, 30, 20, 10], 0), 4)))
  {
    var t := After(After(After(s, Recorded(30)), Recorded(40)), AskFirst);
    assert t.arrivals == [10, 20] + [30] + [40] == [10, 20, 30, 40];
    FourPage();
  }

  lemma FourPage()
    ensures Answer([10, 20, 30, 40], 0) == Served(0, Page([40, 30, 20, 10], 0), 4)
  {
    ShortPage([10, 20, 30, 40]);
    assert Reversed([10, 20, 30, 40]) == [40, 30, 20, 10];
  }

  function TwoRecorded(): seq<Step> {
    [] + [Recorded(10)] + [Recorded(20)]
  }

  lemma RecordsTwo()
    ensures Run(TwoRecorded()).arrivals == [10, 20] && Run(TwoRecorded()).asked == []
  {
    OneStepMore([], Recorded(10));
    OneStepMore([] + [Recorded(10)], Recorded(20));
    assert [] + [10] + [20] == [10, 20];
  }

  function Refreshed(): seq<Step> {
    TwoRecorded() + [AskFirst] + [Serve(0)] + [Deliver(0)]
  }

  lemma RefreshesOnce()
    ensures Run(Refreshed()).arrivals == [10, 20] && |Run(Refreshed()).asked| == 1
  {
    var a := TwoRecorded();
    RecordsTwo();
    OneStepMore(a, AskFirst);
    OneStepMore(a + [AskFirst], Serve(0));
    OneStepMore(a + [AskFirst] + [Serve(0)], Deliver(0));
    FirstRefresh(Run(a));
  }

  function PageOnItsWay(): seq<Step> {
    Refreshed() + [Recorded(30)] + [Recorded(40)] + [AskFirst] + [Serve(1)]
  }

  lemma RefreshesAgain()
    ensures var s := Run(PageOnItsWay());
            && s.arrivals == [10, 20, 30, 40] && |s.asked| == 2
            && s.asked[1] == Asked(s.gen, 0, Some(Served(0, Page([40, 30, 20, 10], 0), 4)))
  {
    var b := Refreshed();
    RefreshesOnce();
    OneStepMore(b, Recorded(30));
    OneStepMore(b + [Recorded(30)], Recorded(40));
    OneStepMore(b + [Recorded(30)] + [Recorded(40)], AskFirst);
    OneStepMore(b + [Recorded(30)] + [Recorded(40)] + [AskFirst], Serve(1));
    SecondRefresh(Run(b));
  }

  lemma LateTaken(s: State)
    requires s.arrivals == [10, 20, 30, 40] && |s.asked| == 2
    requires s.asked[1] == Asked(s.gen, 0, Some(Served(0, Page([40, 30, 20, 10], 0), 4)))
    ensures var t := After(After(s, Recorded(35)), Deliver(1));
            t.view.records == [40, 30, 20, 10] && 35 in t.arrivals && !NoHole(t)
  {
    var t := After(After(s, Recorded(35)), Deliver(1));
    assert t.arrivals == [10, 20, 30, 40] + [35];
    assert t.view.records == [] + [40, 30, 20, 10] == [40, 30, 20, 10];
    assert 35 in t.arrivals && SpeaksFor(t.view, 35) && 35 !in t.view.records;
  }

  /** The record sorts outside all that is held when it comes, and is missing once
      the page that was on its way is taken. */
  lemma LateRecordIsMissed()
    ensures var s := Run(PageOnItsWay() + [Recorded(35)] + [Deliver(1)]);
            s.view.records == [40, 30, 20, 10] && 35 in s.arrivals && !NoHole(s)
  {
    var steps := PageOnItsWay();
    RefreshesAgain();
    OneStepMore(steps, Recorded(35));
    OneStepMore(steps + [Recorded(35)], Deliver(1));
    LateTaken(Run(steps));
  }

  // --- answers asked for under an earlier sign-in

  /** Polls are only added; none changes who asked it. */
  ghost predicate KeepsAsked(s: State, s': State) {
    && s.gen <= s'.gen && |s.asked| <= |s'.asked|
    && forall i :: 0 <= i < |s.asked| ==> s'.asked[i].gen == s.asked[i].gen
  }

  lemma {:induction false} RunKeepsAsked(steps: seq<Step>, more: seq<Step>)
    ensures KeepsAsked(Run(steps), Run(steps + more))
  {
    if more == [] {
      assert steps + more == steps;
    } else {
      var (rest, last) := (more[..|more| - 1], more[|more| - 1]);
      RunKeepsAsked(steps, rest);
      assert steps + more == steps + rest + [last];
      OneStepMore(steps + rest, last);
    }
  }

  lemma {:induction false} AskedByNow(steps: seq<Step>)
    ensures forall i :: 0 <= i < |Run(steps).asked| ==> Run(steps).asked[i].gen <= Run(steps).gen
  {
    if steps != [] { AskedByNow(steps[..|steps| - 1]); }
  }

  /** In every run, an answer asked for before a sign-in changes nothing, however
      long after the sign-in it comes. */
  lemma OldAnswersAreDropped(steps: seq<Step>, more: seq<Step>, i: nat)
    requires i < |Run(steps).asked|
    ensures var s := Run(steps + [SignIn] + more); After(s, Deliver(i)) == s
  {
    AskedByNow(steps);
    OneStepMore(steps, SignIn);
    RunKeepsAsked(steps + [SignIn], more);
  }
}
