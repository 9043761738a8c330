/** Following the server's log from the console: the server's bounded buffer, the
    lines it answers a poll with, and the view the answers are merged into. */
module LogFollow {
  import opened Options

  const CAPACITY: nat := 1000
  const LOG_LINES: nat := 500

  datatype Line = Line(number: int, text: string)

  function Min(a: int, b: int): int { if a < b then a else b }

  function Max(a: int, b: int): int { if a < b then b else a }

  // --- the server

  /** The buffer after one more line; the oldest goes when it is full. */
  function Capture(lines: seq<Line>, first: int, text: string): seq<Line> {
    var number := if lines == [] then first else lines[|lines| - 1].number + 1;
    (if |lines| == CAPACITY then lines[1..] else lines) + [Line(number, text)]
  }

  function Reversed(lines: seq<Line>): seq<Line> {
    seq(|lines|, i requires 0 <= i < |lines| => lines[|lines| - 1 - i])
  }

  function Prefix(lines: seq<Line>, limit: nat): seq<Line> {
    lines[..Min(|lines|, limit)]
  }

  function SkipThrough(lines: seq<Line>, since: int): seq<Line> {
    if lines == [] || lines[0].number > since then lines else SkipThrough(lines[1..], since)
  }

  function LinesSince(lines: seq<Line>, since: int, limit: nat): seq<Line> {
    if lines != [] && since > lines[|lines| - 1].number then Prefix(Reversed(lines), limit)
    else Reversed(Prefix(SkipThrough(lines, since), limit))
  }

  /** What a poll is answered with; a place of zero asks for the whole buffer. */
  function Answer(lines: seq<Line>, since: int): seq<Line> {
    if since == 0 then Prefix(Reversed(lines), LOG_LINES) else LinesSince(lines, since, LOG_LINES)
  }

  // --- the console

  function Above(lines: seq<Line>, newest: int): seq<Line> {
    if lines == [] then []
    else
      var (rest, last) := (Above(lines[..|lines| - 1], newest), lines[|lines| - 1]);
      if last.number > newest then rest + [last] else rest
  }

  function NewestHeld(held: seq<Line>): int {
    if held == [] then -1 else held[0].number
  }

  /** The new lines that start over below everything held replace it. */
  predicate StartsOver(held: seq<Line>, lines: seq<Line>) {
    lines != [] && lines[0].number < NewestHeld(held)
  }

  function Merged(held: seq<Line>, lines: seq<Line>, limit: nat): seq<Line> {
    var kept := if StartsOver(held, lines) then [] else held;
    Prefix(Above(lines, NewestHeld(kept)) + kept, limit)
  }

  method MergeLogs(held: seq<Line>, lines: seq<Line>, limit: nat) returns (merged: seq<Line>)
    ensures merged == Merged(held, lines, limit)
  {
    var (kept, newest) := (held, -1);
    if |held| > 0 { newest := held[0].number; }
    if |lines| > 0 && lines[0].number < newest { kept, newest := [], -1; }
    merged := [];
    for i := 0 to |lines|
      invariant merged == Above(lines[..i], newest)
    {
      assert lines[..i + 1][..i] == lines[..i];
      if lines[i].number > newest { merged := merged + [lines[i]]; }
    }
    assert lines[..|lines|] == lines;
    merged := merged + kept;
    merged := merged[..Min(|merged|, limit)];
  }

  function Cursor(view: seq<Line>): int {
    if view == [] then 0 else view[0].number
  }

  function Took(view: seq<Line>, lines: seq<Line>, since: int): seq<Line> {
    Merged(if since == 0 then [] else view, lines, LOG_LINES)
  }

  // --- whatever arrives

  ghost predicate Descending(lines: seq<Line>) {
    forall i, j :: 0 <= i < j < |lines| ==> lines[i].number > lines[j].number
  }

  lemma {:induction false} AboveKeeps(lines: seq<Line>, newest: int)
    requires Descending(lines)
    ensures Descending(Above(lines, newest))
    ensures forall i :: 0 <= i < |Above(lines, newest)| ==>
              Above(lines, newest)[i].number > newest && Above(lines, newest)[i].number >= lines[|lines| - 1].number
  {
    if |lines| > 0 {
      var (rest, last) := (lines[..|lines| - 1], lines[|lines| - 1]);
      AboveKeeps(rest, newest);
      assert |rest| > 0 ==> rest[|rest| - 1].number > last.number;
    }
  }

  lemma StackDescends(above: seq<Line>, kept: seq<Line>)
    requires Descending(above) && Descending(kept)
    requires forall i :: 0 <= i < |above| ==> above[i].number > NewestHeld(kept)
    ensures Descending(above + kept)
  {
  }

  /** Whatever is merged into whatever view, the view stays newest first, each
      number once, within the limit. */
  lemma MergedDescends(held: seq<Line>, lines: seq<Line>, limit: nat)
    requires Descending(held) && Descending(lines)
    ensures Descending(Merged(held, lines, limit)) && |Merged(held, lines, limit)| <= limit
  {
    var kept := if StartsOver(held, lines) then [] else held;
    var above := Above(lines, NewestHeld(kept));
    AboveKeeps(lines, NewestHeld(kept));
    StackDescends(above, kept);
    PrefixDescends(above + kept, limit);
  }

  lemma PrefixDescends(lines: seq<Line>, limit: nat)
    requires Descending(lines)
    ensures Descending(Prefix(lines, limit)) && |Prefix(lines, limit)| <= limit
  {
  }

  datatype Arrival = Arrival(lines: seq<Line>, since: int)

  /** The view after any answers whatever, in any order. */
  function TookAll(arrivals: seq<Arrival>): seq<Line> {
    if arrivals == [] then []
    else
      var last := arrivals[|arrivals| - 1];
      Took(TookAll(arrivals[..|arrivals| - 1]), last.lines, last.since)
  }

  lemma {:induction false} ViewAlwaysDescends(arrivals: seq<Arrival>)
    requires forall i :: 0 <= i < |arrivals| ==> Descending(arrivals[i].lines)
    ensures Descending(TookAll(arrivals)) && |TookAll(arrivals)| <= LOG_LINES
  {
    if arrivals != [] {
      var (rest, last) := (arrivals[..|arrivals| - 1], arrivals[|arrivals| - 1]);
      ViewAlwaysDescends(rest);
      MergedDescends(if last.since == 0 then [] else TookAll(rest), last.lines, LOG_LINES);
    }
  }

  lemma {:induction false} NoneAbove(lines: seq<Line>, newest: int)
    requires forall i :: 0 <= i < |lines| ==> lines[i].number <= newest
    ensures Above(lines, newest) == []
  {
    if lines != [] { NoneAbove(lines[..|lines| - 1], newest); }
  }

  lemma {:induction false} AboveStartsWith(lines: seq<Line>, newest: int)
    requires lines != [] && lines[0].number > newest
    ensures Above(lines, newest) != [] && Above(lines, newest)[0] == lines[0]
  {
    if |lines| > 1 { AboveStartsWith(lines[..|lines| - 1], newest); }
  }

  /** The newest line of an answer is the newest of the view it is merged into,
      or has its number. */
  lemma MergedStarts(held: seq<Line>, lines: seq<Line>)
    requires lines != [] && Descending(lines) && lines[0].number >= 0
    ensures var once := Merged(held, lines, LOG_LINES); once != [] && once[0].number == lines[0].number
  {
    var kept := if StartsOver(held, lines) then [] else held;
    if lines[0].number > NewestHeld(kept) {
      AboveStartsWith(lines, NewestHeld(kept));
    } else {
      NoneAbove(lines, NewestHeld(kept));
    }
  }

  lemma NothingNew(once: seq<Line>, lines: seq<Line>)
    requires Descending(lines) && |once| <= LOG_LINES && (lines != [] ==> once != [] && once[0].number == lines[0].number)
    ensures Merged(once, lines, LOG_LINES) == once
  {
    NoneAbove(lines, if once == [] then 0 else once[0].number);
    assert [] + once == once;
  }

  /** An answer merged again changes nothing. */
  lemma MergingAgainChangesNothing(view: seq<Line>, lines: seq<Line>, since: int)
    requires Descending(lines) && forall i :: 0 <= i < |lines| ==> lines[i].number >= 0
    ensures Took(Took(view, lines, since), lines, since) == Took(view, lines, since)
  {
    if since != 0 {
      if lines != [] { MergedStarts(view, lines); }
      NothingNew(Merged(view, lines, LOG_LINES), lines);
    }
  }

  // --- the server's log, and pieces of it

  /** Everything the server ever logged: line `i` is numbered `first + i`. */
  function OldestFirst(first: int, log: seq<string>, lo: nat, hi: nat): seq<Line>
    requires lo <= hi <= |log|
  {
    seq(hi - lo, i requires 0 <= i < hi - lo => Line(first + lo + i, log[lo + i]))
  }

  function NewestFirst(first: int, log: seq<string>, lo: nat, hi: nat): seq<Line>
    requires lo <= hi <= |log|
  {
    seq(hi - lo, i requires 0 <= i < hi - lo => Line(first + hi - 1 - i, log[hi - 1 - i]))
  }

  /** The newest lines as the view shows them when the log is `n` long. */
  function NewestAt(first: int, log: seq<string>, n: nat): seq<Line>
    requires n <= |log|
  {
    NewestFirst(first, log, Max(0, n - LOG_LINES), n)
  }

  function BufferAt(first: int, log: seq<string>, n: nat): seq<Line>
    requires n <= |log|
  {
    OldestFirst(first, log, Max(0, n - CAPACITY), n)
  }

  lemma CaptureKeepsBuffer(first: int, log: seq<string>, text: string)
    ensures Capture(BufferAt(first, log, |log|), first, text) == BufferAt(first, log + [text], |log| + 1)
  {
  }

  lemma {:induction false} SkipsOld(old_: seq<Line>, new_: seq<Line>, since: int)
    requires forall i :: 0 <= i < |old_| ==> old_[i].number <= since
    requires new_ != [] ==> new_[0].number > since
    ensures SkipThrough(old_ + new_, since) == new_
  {
    if old_ == [] {
      assert old_ + new_ == new_;
    } else {
      assert (old_ + new_)[1..] == old_[1..] + new_;
      SkipsOld(old_[1..], new_, since);
    }
  }

  lemma SkipOld(first: int, log: seq<string>, lo: nat, hi: nat, since: int)
    requires lo <= hi <= |log|
    ensures var from := Min(hi, Max(lo, since - first + 1));
            SkipThrough(OldestFirst(first, log, lo, hi), since) == OldestFirst(first, log, from, hi)
  {
    var from := Min(hi, Max(lo, since - first + 1));
    var (old_, new_) := (OldestFirst(first, log, lo, from), OldestFirst(first, log, from, hi));
    assert old_ + new_ == OldestFirst(first, log, lo, hi);
    SkipsOld(old_, new_, since);
  }

  /** Where an answer starts and ends: from the place asked, or from the oldest
      line still kept, up to the limit. Place `j` is just after line `j - 1`. */
  function From(n: nat, place: nat): nat {
    if place == 0 then Max(0, n - LOG_LINES) else Max(place, n - CAPACITY)
  }

  function To(n: nat, place: nat): nat {
    if place == 0 then n else Min(n, From(n, place) + LOG_LINES)
  }

  function Since(first: int, place: nat): int {
    if place == 0 then 0 else first + place - 1
  }

  lemma AnswerIs(first: int, log: seq<string>, n: nat, place: nat)
    requires first >= 1 && n <= |log| && place <= n
    ensures From(n, place) <= To(n, place) <= n
    ensures Answer(BufferAt(first, log, n), Since(first, place)) == NewestFirst(first, log, From(n, place), To(n, place))
  {
    if place > 0 {
      AnswerFromPlace(first, log, n, place);
    } else {
      AnswerWhole(first, log, n);
    }
  }

  lemma AnswerWhole(first: int, log: seq<string>, n: nat)
    requires n <= |log|
    ensures Prefix(Reversed(BufferAt(first, log, n)), LOG_LINES) == NewestAt(first, log, n)
  {
  }

  lemma AnswerFromPlace(first: int, log: seq<string>, n: nat, place: nat)
    requires n <= |log| && 0 < place <= n
    ensures LinesSince(BufferAt(first, log, n), first + place - 1, LOG_LINES)
         == NewestFirst(first, log, From(n, place), To(n, place))
  {
    var lines := BufferAt(first, log, n);
    assert lines[|lines| - 1].number == first + n - 1;
    SkipOld(first, log, Max(0, n - CAPACITY), n, first + place - 1);
    PrefixReversed(first, log, From(n, place), n);
  }

  lemma PrefixReversed(first: int, log: seq<string>, lo: nat, hi: nat)
    requires lo <= hi <= |log|
    ensures Reversed(Prefix(OldestFirst(first, log, lo, hi), LOG_LINES)) == NewestFirst(first, log, lo, Min(hi, lo + LOG_LINES))
  {
  }

  lemma {:induction false} AboveWindow(first: int, log: seq<string>, lo: nat, hi: nat, k: nat)
    requires lo <= hi <= |log|
    ensures Above(NewestFirst(first, log, lo, hi), first + k - 1) == NewestFirst(first, log, Min(hi, Max(lo, k)), hi)
    decreases hi - lo
  {
    if lo < hi {
      var lines := NewestFirst(first, log, lo, hi);
      assert lines[..|lines| - 1] == NewestFirst(first, log, lo + 1, hi);
      AboveWindow(first, log, lo + 1, hi, k);
    }
  }

  lemma WindowsJoin(first: int, log: seq<string>, lo: nat, mid: nat, hi: nat)
    requires lo <= mid <= hi <= |log|
    ensures NewestFirst(first, log, mid, hi) + NewestFirst(first, log, lo, mid) == NewestFirst(first, log, lo, hi)
  {
  }

  lemma PrefixWindow(first: int, log: seq<string>, lo: nat, hi: nat, below: seq<Line>)
    requires lo <= hi <= |log| && (below == [] || hi - lo == LOG_LINES)
    ensures Prefix(NewestFirst(first, log, lo, hi) + below, LOG_LINES) == NewestFirst(first, log, Max(lo, hi - LOG_LINES), hi)
  {
  }

  /** How an answer that ends at `to` moves a view of the newest lines at `hi`. */
  lemma MergeWindows(first: int, log: seq<string>, hi: nat, from: nat, to: nat)
    requires first >= 1 && 0 < hi <= |log| && from < to <= |log|
    requires from <= hi || to - from == LOG_LINES
    requires to >= hi
    ensures Merged(NewestAt(first, log, hi), NewestFirst(first, log, from, to), LOG_LINES) == NewestAt(first, log, to)
  {
    AboveWindow(first, log, from, to, hi);
    var held := NewestAt(first, log, hi);
    var above := NewestFirst(first, log, Max(from, hi), to);
    assert NewestHeld(held) == first + hi - 1;
    if from <= hi {
      WindowsJoin(first, log, Max(0, hi - LOG_LINES), hi, to);
      PrefixWindow(first, log, Max(0, hi - LOG_LINES), to, []);
      assert above + held + [] == above + held;
    } else {
      PrefixWindow(first, log, from, to, held);
    }
  }

  lemma {:induction false} AllAbove(lines: seq<Line>, newest: int)
    requires forall i :: 0 <= i < |lines| ==> lines[i].number > newest
    ensures Above(lines, newest) == lines
  {
    if lines != [] { AllAbove(lines[..|lines| - 1], newest); }
  }

  /** Where a view ends up that takes an answer made when the log was `n` long,
      asked from `place`. */
  function TakenTo(n: nat, place: nat, hi: nat): nat {
    if 0 < place && To(n, place) <= From(n, place) then hi else To(n, place)
  }

  /** The answer is the whole buffer's, or empty, or as long as the view can be, or
      ends where the view stands, or starts no later than that and ends later. */
  predicate Joins(n: nat, place: nat, hi: nat) {
    var (from, to) := (From(n, place), To(n, place));
    place == 0 || to <= from || to - from == LOG_LINES || to == hi || from <= hi < to
  }

  lemma ShortWindow(first: int, log: seq<string>, from: nat, to: nat)
    requires first >= 1 && 0 < from < to <= |log| && to - from <= LOG_LINES
    ensures NewestFirst(first, log, from, to) == NewestAt(first, log, to) <==> to - from == LOG_LINES
  {
    assert |NewestAt(first, log, to)| == to - Max(0, to - LOG_LINES);
  }

  /** Lines that end below the view, or find it empty, replace it. */
  lemma Replaced(first: int, log: seq<string>, hi: nat, from: nat, to: nat)
    requires first >= 1 && hi <= |log| && from < to <= |log| && to - from <= LOG_LINES && (to < hi || hi == 0)
    ensures Merged(NewestAt(first, log, hi), NewestFirst(first, log, from, to), LOG_LINES) == NewestFirst(first, log, from, to)
  {
    var lines := NewestFirst(first, log, from, to);
    AllAbove(lines, -1);
    assert lines + [] == lines;
  }

  /** Lines that start above the view, too few to fill it, leave a hole. */
  lemma LeavesAHole(first: int, log: seq<string>, hi: nat, from: nat, to: nat)
    requires first >= 1 && 0 < hi < from < to <= |log| && to - from < LOG_LINES
    ensures Merged(NewestAt(first, log, hi), NewestFirst(first, log, from, to), LOG_LINES) != NewestAt(first, log, to)
  {
    var (held, lines) := (NewestAt(first, log, hi), NewestFirst(first, log, from, to));
    AllAbove(lines, first + hi - 1);
    var merged := Merged(held, lines, LOG_LINES);
    assert merged == Prefix(lines + held, LOG_LINES);
    assert merged[to - from].number == first + hi - 1;
    assert NewestAt(first, log, to)[to - from].number == first + from - 1;
  }

  lemma MergeIff(first: int, log: seq<string>, hi: nat, from: nat, to: nat)
    requires first >= 1 && hi <= |log| && 0 < from < to <= |log| && to - from <= LOG_LINES
    ensures Merged(NewestAt(first, log, hi), NewestFirst(first, log, from, to), LOG_LINES) == NewestAt(first, log, to)
       <==> to - from == LOG_LINES || to == hi || from <= hi < to
  {
    if to < hi || hi == 0 {
      Replaced(first, log, hi, from, to);
      ShortWindow(first, log, from, to);
    } else if from <= hi || to - from == LOG_LINES {
      MergeWindows(first, log, hi, from, to);
    } else {
      LeavesAHole(first, log, hi, from, to);
    }
  }

  /** A view of one moment shows one again exactly if the answer joins on to it. */
  lemma TookMoment(first: int, log: seq<string>, hi: nat, n: nat, place: nat)
    requires first >= 1 && hi <= |log| && place <= n <= |log|
    ensures var after := Took(NewestAt(first, log, hi), Answer(BufferAt(first, log, n), Since(first, place)), Since(first, place));
            after == NewestAt(first, log, TakenTo(n, place, hi)) <==> Joins(n, place, hi)
  {
    AnswerIs(first, log, n, place);
    var (from, to) := (From(n, place), To(n, place));
    var lines := NewestFirst(first, log, from, to);
    if place == 0 {
      AllAbove(lines, -1);
      assert lines + [] == lines;
    } else if to <= from {
      NothingNew(NewestAt(first, log, hi), lines);
    } else {
      MergeIff(first, log, hi, from, to);
    }
  }

  /** An answer made when the log was `n` long, asked from `place`, taken by a
      view of the newest lines at `hi`. */
  lemma TakenInTime(first: int, log: seq<string>, hi: nat, n: nat, place: nat)
    requires first >= 1 && place <= hi <= n <= |log|
    requires place == 0 || hi <= From(n, place) + LOG_LINES
    ensures place == 0 || place <= hi <= To(n, place)
    ensures To(n, place) <= n
    ensures Took(NewestAt(first, log, hi), Answer(BufferAt(first, log, n), Since(first, place)), Since(first, place))
         == NewestAt(first, log, To(n, place))
  {
    TookMoment(first, log, hi, n, place);
  }

  /** An answer asked from a place the view has moved more than the limit past
      is taken for a restart: the view goes back to what the answer holds. */
  lemma TakenLate(first: int, log: seq<string>, hi: nat, n: nat, place: nat)
    requires first >= 1 && 0 < place <= hi <= n <= |log|
    requires From(n, place) + LOG_LINES < hi
    ensures To(n, place) < hi
    ensures Took(NewestAt(first, log, hi), Answer(BufferAt(first, log, n), Since(first, place)), Since(first, place))
         == NewestAt(first, log, To(n, place))
  {
    TookMoment(first, log, hi, n, place);
  }

  /** Two moments show the same lines only if they are the same. */
  lemma NewestTells(first: int, log: seq<string>, a: nat, b: nat)
    requires a <= |log| && b <= |log|
    ensures NewestAt(first, log, a) == NewestAt(first, log, b) <==> a == b
  {
    if a != b && a > 0 && b > 0 {
      assert NewestAt(first, log, a)[0].number != NewestAt(first, log, b)[0].number;
    }
  }

  /** Up to date exactly when no more than the limit had been logged since the
      place asked from. */
  lemma UpToDateIff(first: int, log: seq<string>, hi: nat, n: nat, place: nat)
    requires first >= 1 && place <= hi <= n <= |log|
    ensures Took(NewestAt(first, log, hi), Answer(BufferAt(first, log, n), Since(first, place)), Since(first, place))
            == NewestAt(first, log, n)
       <==> place == 0 || n - place <= LOG_LINES
  {
    if place == 0 || hi <= From(n, place) + LOG_LINES {
      TakenInTime(first, log, hi, n, place);
    } else {
      TakenLate(first, log, hi, n, place);
    }
    NewestTells(first, log, To(n, place), n);
  }

  // --- polls that overlap, are answered late, twice or never, and sign-ins

  datatype Served = Served(moment: nat, lines: seq<Line>)

  datatype Asked = Asked(gen: nat, since: int, answer: Option<Served>)

  /** `log` is all the server ever logged and `lines` its buffer; `latest` is how
      long the log was when the last answer taken was made. */
  datatype State = State(log: seq<string>, lines: seq<Line>, view: seq<Line>, gen: nat, asked: seq<Asked>, latest: nat)

  datatype Step =
    | Logged(text: string)
    | Ask(whole: bool)
    | Serve(i: nat)
    | Deliver(i: nat)
    | SignIn

  const START := State([], [], [], 0, [], 0)

  predicate Taken(s: State, i: nat) {
    i < |s.asked| && s.asked[i].answer.Some? && s.asked[i].gen == s.gen
  }

  function After(first: int, s: State, step: Step): State {
    match step
    case Logged(text) => s.(log := s.log + [text], lines := Capture(s.lines, first, text))
    case Ask(whole) => s.(asked := s.asked + [Asked(s.gen, if whole then 0 else Cursor(s.view), None)])
    case Serve(i) =>
      if i < |s.asked| && s.asked[i].answer.None?
      then s.(asked := s.asked[i := s.asked[i].(answer := Some(Served(|s.log|, Answer(s.lines, s.asked[i].since))))])
      else s
    case Deliver(i) =>
      if Taken(s, i)
      then s.(view := Took(s.view, s.asked[i].answer.value.lines, s.asked[i].since), latest := s.asked[i].answer.value.moment)
      else s
    case SignIn => s.(view := [], gen := s.gen + 1, latest := 0)
  }

  function Run(first: int, steps: seq<Step>): State {
    if steps == [] then START else After(first, Run(first, steps[..|steps| - 1]), steps[|steps| - 1])
  }

  lemma OneMore(first: int, steps: seq<Step>, step: Step)
    ensures Run(first, steps + [step]) == After(first, Run(first, steps), step)
  {
    assert (steps + [step])[..|steps|] == steps;
  }

  lemma NextState(first: int, steps: seq<Step>, n: nat)
    requires n < |steps|
    ensures Run(first, steps[..n + 1]) == After(first, Run(first, steps[..n]), steps[n])
  {
    assert steps[..n + 1] == steps[..n] + [steps[n]];
    OneMore(first, steps[..n], steps[n]);
  }

  /** How many lines there were when the one numbered `since` was the newest. */
  function Place(first: int, since: int): nat {
    if since < first then 0 else since - first + 1
  }

  /** Where the view stands: how many lines there were when its newest line was the
      newest. */
  function ViewPlace(first: int, s: State): nat {
    Place(first, Cursor(s.view))
  }

  // --- what holds in every run

  /** A number that names no line, or one the server logged. */
  ghost predicate Names(first: int, log: seq<string>, number: int) {
    number == 0 || first <= number < first + |log|
  }

  /** A poll names a place the view has been at, and its answer is what the
      server's buffer gave at that moment. */
  ghost predicate Honest(first: int, log: seq<string>, q: Asked) {
    && Names(first, log, q.since)
    && (q.answer.Some? ==>
          && Place(first, q.since) <= q.answer.value.moment <= |log|
          && q.answer.value.lines == Answer(BufferAt(first, log, q.answer.value.moment), q.since))
  }

  ghost predicate Fair(first: int, s: State) {
    && s.lines == BufferAt(first, s.log, |s.log|)
    && |s.view| <= LOG_LINES && Names(first, s.log, Cursor(s.view))
    && forall i :: 0 <= i < |s.asked| ==> Honest(first, s.log, s.asked[i])
  }

  lemma LoggingKeepsThePast(first: int, log: seq<string>, text: string, n: nat)
    requires n <= |log|
    ensures BufferAt(first, log + [text], n) == BufferAt(first, log, n)
    ensures NewestAt(first, log + [text], n) == NewestAt(first, log, n)
  {
  }

  lemma LoggedIsFair(first: int, s: State, text: string)
    requires first >= 1 && Fair(first, s)
    ensures Fair(first, After(first, s, Logged(text)))
  {
    CaptureKeepsBuffer(first, s.log, text);
    forall i | 0 <= i < |s.asked| ensures Honest(first, s.log + [text], s.asked[i]) {
      assert Honest(first, s.log, s.asked[i]);
      if s.asked[i].answer.Some? { LoggingKeepsThePast(first, s.log, text, s.asked[i].answer.value.moment); }
    }
  }

  lemma WindowDescends(first: int, log: seq<string>, lo: nat, hi: nat)
    requires first >= 1 && lo < hi <= |log|
    ensures var lines := NewestFirst(first, log, lo, hi);
            Descending(lines) && lines != [] && lines[0].number == first + hi - 1 >= 0
  {
  }

  /** Whatever the view holds, only its place and the answer's decide where it
      stands next. */
  lemma TookPlace(first: int, log: seq<string>, view: seq<Line>, n: nat, place: nat)
    requires first >= 1 && place <= n <= |log| && |view| <= LOG_LINES
    ensures var after := Took(view, Answer(BufferAt(first, log, n), Since(first, place)), Since(first, place));
            && |after| <= LOG_LINES
            && Cursor(after) == if 0 < place && To(n, place) <= From(n, place) then Cursor(view) else Since(first, To(n, place))
  {
    AnswerIs(first, log, n, place);
    var lines := NewestFirst(first, log, From(n, place), To(n, place));
    if From(n, place) < To(n, place) {
      WindowDescends(first, log, From(n, place), To(n, place));
      MergedStarts(if place == 0 then [] else view, lines);
    } else {
      NothingNew(if place == 0 then [] else view, lines);
    }
  }

  lemma TookNamed(first: int, log: seq<string>, view: seq<Line>, n: nat, since: int)
    requires first >= 1 && Place(first, since) <= n <= |log| && Names(first, log, since)
    requires |view| <= LOG_LINES && Names(first, log, Cursor(view))
    ensures var after := Took(view, Answer(BufferAt(first, log, n), since), since);
            && Place(first, Cursor(after)) == TakenTo(n, Place(first, since), Place(first, Cursor(view)))
            && |after| <= LOG_LINES && Names(first, log, Cursor(after))
  {
    assert since == Since(first, Place(first, since));
    TookPlace(first, log, view, n, Place(first, since));
  }

  lemma TakenPlace(first: int, s: State, i: nat)
    requires first >= 1 && Fair(first, s) && Taken(s, i)
    ensures var (q, s') := (s.asked[i], After(first, s, Deliver(i)));
            && ViewPlace(first, s') == TakenTo(q.answer.value.moment, Place(first, q.since), ViewPlace(first, s))
            && |s'.view| <= LOG_LINES && Names(first, s.log, Cursor(s'.view))
  {
    assert Honest(first, s.log, s.asked[i]);
    TookNamed(first, s.log, s.view, s.asked[i].answer.value.moment, s.asked[i].since);
  }

  lemma FairStep(first: int, s: State, step: Step)
    requires first >= 1 && Fair(first, s)
    ensures Fair(first, After(first, s, step))
  {
    match step {
      case Logged(text) => LoggedIsFair(first, s, text);
      case Deliver(i) =>
        if Taken(s, i) { TakenPlace(first, s, i); }
      case Serve(i) =>
        if i < |s.asked| { assert Honest(first, s.log, s.asked[i]); }
      case _ =>
    }
  }

  lemma {:induction false} AlwaysFair(first: int, steps: seq<Step>)
    requires first >= 1
    ensures Fair(first, Run(first, steps))
  {
    if steps != [] {
      AlwaysFair(first, steps[..|steps| - 1]);
      FairStep(first, Run(first, steps[..|steps| - 1]), steps[|steps| - 1]);
    }
  }

  // --- exactly when the view never goes back

  /** The answer that the step takes, if it takes one: when it was made, and the
      place it was asked from. */
  predicate Takes(first: int, s: State, step: Step, n: nat, place: nat) {
    step.Deliver? && Taken(s, step.i) && n == s.asked[step.i].answer.value.moment && place == Place(first, s.asked[step.i].since)
  }

  /** The answer ends no earlier than the view stands, or holds nothing. */
  predicate EndsLater(n: nat, place: nat, hi: nat) {
    hi <= To(n, place) || (0 < place && To(n, place) <= From(n, place))
  }

  ghost predicate KeepsPlace(first: int, s: State, step: Step) {
    forall n, place :: Takes(first, s, step, n, place) ==> EndsLater(n, place, ViewPlace(first, s))
  }

  lemma KeepsPlaceIff(first: int, s: State, step: Step)
    requires first >= 1 && Fair(first, s) && !step.SignIn?
    ensures ViewPlace(first, s) <= ViewPlace(first, After(first, s, step)) <==> KeepsPlace(first, s, step)
  {
    if step.Deliver? && Taken(s, step.i) {
      TakenPlace(first, s, step.i);
      assert Takes(first, s, step, s.asked[step.i].answer.value.moment, Place(first, s.asked[step.i].since));
    }
  }

  /** Step `n` does not take the view back, unless it is a sign-in. */
  ghost predicate GoesOn(first: int, steps: seq<Step>, n: nat)
    requires n < |steps|
  {
    !steps[n].SignIn? ==> ViewPlace(first, Run(first, steps[..n])) <= ViewPlace(first, Run(first, steps[..n + 1]))
  }

  ghost predicate KeepsPlaceAt(first: int, steps: seq<Step>, n: nat)
    requires n < |steps|
  {
    !steps[n].SignIn? ==> KeepsPlace(first, Run(first, steps[..n]), steps[n])
  }

  /** In every run, however polls overlap and in whatever order, however often and
      however late answers are taken, the view never goes back but at a sign-in,
      if and only if every answer taken ends no earlier than the view stands or
      holds nothing. */
  lemma NeverGoesBackIff(first: int, steps: seq<Step>)
    requires first >= 1
    ensures (forall n :: 0 <= n < |steps| ==> GoesOn(first, steps, n)) <==> (forall n :: 0 <= n < |steps| ==> KeepsPlaceAt(first, steps, n))
  {
    forall n | 0 <= n < |steps| ensures GoesOn(first, steps, n) <==> KeepsPlaceAt(first, steps, n) {
      AlwaysFair(first, steps[..n]);
      NextState(first, steps, n);
      if !steps[n].SignIn? { KeepsPlaceIff(first, Run(first, steps[..n]), steps[n]); }
    }
  }

  // --- exactly when the view is a moment of the log

  lemma PlaceOfNewest(first: int, log: seq<string>, hi: nat)
    requires first >= 1 && hi <= |log|
    ensures Place(first, Cursor(NewestAt(first, log, hi))) == hi
    ensures Cursor(NewestAt(first, log, hi)) == Since(first, hi)
  {
  }

  /** The view is exactly the newest lines as they stood where it stands. */
  ghost predicate Whole(first: int, log: seq<string>, view: seq<Line>) {
    var hi := Place(first, Cursor(view));
    hi <= |log| && view == NewestAt(first, log, hi)
  }

  /** The view is exactly the newest lines as they stood at some moment. */
  ghost predicate AtAMoment(first: int, s: State) {
    exists m: nat :: m <= |s.log| && s.view == NewestAt(first, s.log, m)
  }

  lemma TheMoment(first: int, s: State)
    requires first >= 1
    ensures AtAMoment(first, s) <==> Whole(first, s.log, s.view)
  {
    if AtAMoment(first, s) {
      var m: nat :| m <= |s.log| && s.view == NewestAt(first, s.log, m);
      PlaceOfNewest(first, s.log, m);
    }
  }

  ghost predicate KeepsMoment(first: int, s: State, step: Step) {
    forall n, place :: Takes(first, s, step, n, place) ==> Joins(n, place, ViewPlace(first, s))
  }

  lemma DeliverWholeIff(first: int, s: State, i: nat)
    requires first >= 1 && Fair(first, s) && Whole(first, s.log, s.view) && Taken(s, i)
    ensures Whole(first, s.log, After(first, s, Deliver(i)).view)
       <==> Joins(s.asked[i].answer.value.moment, Place(first, s.asked[i].since), ViewPlace(first, s))
  {
    assert Honest(first, s.log, s.asked[i]);
    TookWholeIff(first, s.log, s.view, s.asked[i].answer.value.moment, s.asked[i].since);
  }

  lemma TookWholeIff(first: int, log: seq<string>, view: seq<Line>, n: nat, since: int)
    requires first >= 1 && Place(first, since) <= n <= |log| && Names(first, log, since)
    requires |view| <= LOG_LINES && Names(first, log, Cursor(view)) && Whole(first, log, view)
    ensures Whole(first, log, Took(view, Answer(BufferAt(first, log, n), since), since))
       <==> Joins(n, Place(first, since), Place(first, Cursor(view)))
  {
    assert since == Since(first, Place(first, since));
    TookNamed(first, log, view, n, since);
    TookMoment(first, log, Place(first, Cursor(view)), n, Place(first, since));
  }

  lemma WholeIff(first: int, s: State, step: Step)
    requires first >= 1 && Fair(first, s) && Whole(first, s.log, s.view)
    ensures var s' := After(first, s, step); Whole(first, s'.log, s'.view) <==> KeepsMoment(first, s, step)
  {
    if step.Deliver? && Taken(s, step.i) {
      DeliverWholeIff(first, s, step.i);
      assert Takes(first, s, step, s.asked[step.i].answer.value.moment, Place(first, s.asked[step.i].since));
    } else if step.Logged? {
      LoggingKeepsThePast(first, s.log, step.text, ViewPlace(first, s));
    } else if step.SignIn? {
      assert [] == NewestAt(first, s.log, 0);
    }
  }

  ghost predicate MomentAt(first: int, steps: seq<Step>, n: nat)
    requires n <= |steps|
  {
    AtAMoment(first, Run(first, steps[..n]))
  }

  ghost predicate KeepsMomentAt(first: int, steps: seq<Step>, n: nat)
    requires n < |steps|
  {
    KeepsMoment(first, Run(first, steps[..n]), steps[n])
  }

  lemma MomentsStart(first: int, steps: seq<Step>)
    ensures MomentAt(first, steps, 0)
  {
    assert Run(first, steps[..0]).view == NewestAt(first, [], 0);
  }

  lemma MomentStep(first: int, steps: seq<Step>, n: nat)
    requires first >= 1 && n < |steps| && MomentAt(first, steps, n)
    ensures MomentAt(first, steps, n + 1) <==> KeepsMomentAt(first, steps, n)
  {
    var (s, s') := (Run(first, steps[..n]), Run(first, steps[..n + 1]));
    AlwaysFair(first, steps[..n]);
    NextState(first, steps, n);
    TheMoment(first, s);
    TheMoment(first, s');
    WholeIff(first, s, steps[n]);
  }

  lemma {:induction false} JoinedIsAMoment(first: int, steps: seq<Step>, m: nat)
    requires first >= 1 && m <= |steps| && forall n :: 0 <= n < m ==> KeepsMomentAt(first, steps, n)
    ensures MomentAt(first, steps, m)
  {
    if m == 0 {
      MomentsStart(first, steps);
    } else {
      JoinedIsAMoment(first, steps, m - 1);
      MomentStep(first, steps, m - 1);
    }
  }

  /** In every run the view is, at every point, exactly the newest lines as they
      stood at some moment, if and only if every answer taken joins on to it. */
  lemma AlwaysAMomentIff(first: int, steps: seq<Step>)
    requires first >= 1
    ensures (forall n :: 0 <= n <= |steps| ==> MomentAt(first, steps, n)) <==> (forall n :: 0 <= n < |steps| ==> KeepsMomentAt(first, steps, n))
  {
    if forall n :: 0 <= n <= |steps| ==> MomentAt(first, steps, n) {
      forall n | 0 <= n < |steps| ensures KeepsMomentAt(first, steps, n) { MomentStep(first, steps, n); }
    }
    if forall n :: 0 <= n < |steps| ==> KeepsMomentAt(first, steps, n) {
      forall m | 0 <= m <= |steps| ensures MomentAt(first, steps, m) { JoinedIsAMoment(first, steps, m); }
    }
  }

  // --- answers taken in the order they were made

  ghost predicate InOrder(s: State, step: Step) {
    step.Deliver? && Taken(s, step.i) ==> s.latest <= s.asked[step.i].answer.value.moment
  }

  ghost predicate InOrderAt(first: int, steps: seq<Step>, n: nat)
    requires n < |steps|
  {
    InOrder(Run(first, steps[..n]), steps[n])
  }

  /** The view is the newest lines of the log as it was at the last answer taken. */
  ghost predicate UpToDate(first: int, s: State) {
    s.latest <= |s.log| && s.view == NewestAt(first, s.log, s.latest)
  }

  /** No poll of this sign-in asks from a place past the last answer. */
  ghost predicate Past(first: int, s: State) {
    forall i :: 0 <= i < |s.asked| ==> s.asked[i].gen <= s.gen && (s.asked[i].gen == s.gen ==> Place(first, s.asked[i].since) <= s.latest)
  }

  /** The answer taken, if one is, was asked for the whole buffer, or from a place
      no more than the limit behind. */
  ghost predicate Recent(first: int, s: State, step: Step) {
    forall n: nat, place: nat :: Takes(first, s, step, n, place) ==> place == 0 || n - place <= LOG_LINES
  }

  lemma PastStep(first: int, s: State, step: Step)
    requires first >= 1 && UpToDate(first, s) && Past(first, s) && InOrder(s, step)
    ensures Past(first, After(first, s, step))
  {
    PlaceOfNewest(first, s.log, s.latest);
  }

  lemma DeliverUpToDateIff(first: int, s: State, i: nat)
    requires first >= 1 && Fair(first, s) && UpToDate(first, s) && Past(first, s) && Taken(s, i) && InOrder(s, Deliver(i))
    ensures UpToDate(first, After(first, s, Deliver(i)))
       <==> Place(first, s.asked[i].since) == 0 || s.asked[i].answer.value.moment - Place(first, s.asked[i].since) <= LOG_LINES
  {
    var q := s.asked[i];
    assert Honest(first, s.log, q);
    UpToDateIff(first, s.log, s.latest, q.answer.value.moment, Place(first, q.since));
  }

  lemma UpToDateStepIff(first: int, s: State, step: Step)
    requires first >= 1 && Fair(first, s) && UpToDate(first, s) && Past(first, s) && InOrder(s, step)
    ensures UpToDate(first, After(first, s, step)) <==> Recent(first, s, step)
  {
    if step.Deliver? && Taken(s, step.i) {
      DeliverUpToDateIff(first, s, step.i);
      assert Takes(first, s, step, s.asked[step.i].answer.value.moment, Place(first, s.asked[step.i].since));
    } else if step.Logged? {
      LoggingKeepsThePast(first, s.log, step.text, s.latest);
    } else if step.SignIn? {
      assert [] == NewestAt(first, s.log, 0);
    }
  }

  ghost predicate UpToDateAt(first: int, steps: seq<Step>, n: nat)
    requires n <= |steps|
  {
    UpToDate(first, Run(first, steps[..n]))
  }

  ghost predicate RecentAt(first: int, steps: seq<Step>, n: nat)
    requires n < |steps|
  {
    Recent(first, Run(first, steps[..n]), steps[n])
  }

  /** Up to date so far, with no poll ahead of the last answer. */
  ghost predicate OnTime(first: int, steps: seq<Step>, n: nat)
    requires n <= |steps|
  {
    UpToDateAt(first, steps, n) && Past(first, Run(first, steps[..n]))
  }

  lemma UpToDateStart(first: int, steps: seq<Step>)
    ensures OnTime(first, steps, 0)
  {
    assert Run(first, steps[..0]).view == NewestAt(first, [], 0);
  }

  lemma UpToDateStep(first: int, steps: seq<Step>, n: nat)
    requires first >= 1 && n < |steps| && OnTime(first, steps, n) && InOrderAt(first, steps, n)
    ensures UpToDateAt(first, steps, n + 1) <==> RecentAt(first, steps, n)
    ensures UpToDateAt(first, steps, n + 1) ==> OnTime(first, steps, n + 1)
  {
    AlwaysFair(first, steps[..n]);
    NextState(first, steps, n);
    PastStep(first, Run(first, steps[..n]), steps[n]);
    UpToDateStepIff(first, Run(first, steps[..n]), steps[n]);
  }

  lemma {:induction false} RecentIsOnTime(first: int, steps: seq<Step>, m: nat)
    requires first >= 1 && m <= |steps| && forall n :: 0 <= n < |steps| ==> InOrderAt(first, steps, n)
    requires forall n :: 0 <= n < m ==> RecentAt(first, steps, n)
    ensures OnTime(first, steps, m)
  {
    if m == 0 {
      UpToDateStart(first, steps);
    } else {
      RecentIsOnTime(first, steps, m - 1);
      assert InOrderAt(first, steps, m - 1) && RecentAt(first, steps, m - 1);
      UpToDateStep(first, steps, m - 1);
    }
  }

  lemma {:induction false} StaysOnTime(first: int, steps: seq<Step>, m: nat)
    requires first >= 1 && m <= |steps| && forall n :: 0 <= n < |steps| ==> InOrderAt(first, steps, n)
    requires forall n :: 0 <= n <= m ==> UpToDateAt(first, steps, n)
    ensures OnTime(first, steps, m)
  {
    if m == 0 {
      UpToDateStart(first, steps);
    } else {
      StaysOnTime(first, steps, m - 1);
      assert InOrderAt(first, steps, m - 1) && UpToDateAt(first, steps, m);
      UpToDateStep(first, steps, m - 1);
    }
  }

  /** In every run that takes answers in the order the server made them, the view
      is at every point the newest lines of the log as it was at the last answer,
      if and only if every answer taken was asked for the whole buffer, or from a
      place no more than the limit behind. */
  lemma NewestInOrderIff(first: int, steps: seq<Step>)
    requires first >= 1 && forall n :: 0 <= n < |steps| ==> InOrderAt(first, steps, n)
    ensures (forall n :: 0 <= n <= |steps| ==> UpToDateAt(first, steps, n)) <==> (forall n :: 0 <= n < |steps| ==> RecentAt(first, steps, n))
  {
    if forall n :: 0 <= n <= |steps| ==> UpToDateAt(first, steps, n) {
      forall m | 0 <= m < |steps| ensures RecentAt(first, steps, m) {
        StaysOnTime(first, steps, m);
        UpToDateStep(first, steps, m);
      }
    }
    if forall n :: 0 <= n < |steps| ==> RecentAt(first, steps, n) {
      forall m | 0 <= m <= |steps| ensures UpToDateAt(first, steps, m) { RecentIsOnTime(first, steps, m); }
    }
  }

  // --- timely answers keep both

  /** Made in order, and from no more than the limit below where the view stands. */
  predicate Timely(first: int, s: State, step: Step) {
    step.Deliver? && Taken(s, step.i) ==>
      var (n, place) := (s.asked[step.i].answer.value.moment, Place(first, s.asked[step.i].since));
      s.latest <= n && (place == 0 || ViewPlace(first, s) <= From(n, place) + LOG_LINES)
  }

  ghost predicate TimelyAt(first: int, steps: seq<Step>, n: nat)
    requires n < |steps|
  {
    Timely(first, Run(first, steps[..n]), steps[n])
  }

  /** No poll of this sign-in asks from past the view, nor the view shows lines
      past the last answer. */
  ghost predicate Behind(first: int, s: State) {
    && ViewPlace(first, s) <= s.latest
    && forall i :: 0 <= i < |s.asked| ==>
         s.asked[i].gen <= s.gen && (s.asked[i].gen == s.gen ==> Place(first, s.asked[i].since) <= ViewPlace(first, s))
  }

  lemma TimelyKeeps(first: int, s: State, step: Step)
    requires first >= 1 && Behind(first, s) && Timely(first, s, step)
    ensures KeepsPlace(first, s, step) && KeepsMoment(first, s, step)
  {
  }

  lemma StaysBehind(first: int, s: State, step: Step)
    requires first >= 1 && Fair(first, s) && Behind(first, s) && Timely(first, s, step)
    ensures Behind(first, After(first, s, step))
  {
    if step.Deliver? && Taken(s, step.i) {
      assert Honest(first, s.log, s.asked[step.i]);
      TakenPlace(first, s, step.i);
    }
  }

  lemma {:induction false} TimelyIsBehind(first: int, steps: seq<Step>, m: nat)
    requires first >= 1 && m <= |steps| && forall n :: 0 <= n < |steps| ==> TimelyAt(first, steps, n)
    ensures Behind(first, Run(first, steps[..m]))
  {
    if m > 0 {
      TimelyIsBehind(first, steps, m - 1);
      AlwaysFair(first, steps[..m - 1]);
      NextState(first, steps, m - 1);
      assert TimelyAt(first, steps, m - 1);
      StaysBehind(first, Run(first, steps[..m - 1]), steps[m - 1]);
    }
  }

  lemma TimelyKeepsAt(first: int, steps: seq<Step>, n: nat)
    requires first >= 1 && n < |steps| && forall k :: 0 <= k < |steps| ==> TimelyAt(first, steps, k)
    ensures KeepsPlaceAt(first, steps, n) && KeepsMomentAt(first, steps, n)
  {
    TimelyIsBehind(first, steps, n);
    assert TimelyAt(first, steps, n);
    TimelyKeeps(first, Run(first, steps[..n]), steps[n]);
  }

  /** In every timely run the view is always exactly the newest lines as they stood
      at some moment. */
  lemma AlwaysAMoment(first: int, steps: seq<Step>, m: nat)
    requires first >= 1 && m <= |steps| && forall n :: 0 <= n < |steps| ==> TimelyAt(first, steps, n)
    ensures AtAMoment(first, Run(first, steps[..m]))
  {
    forall n | 0 <= n < |steps| ensures KeepsMomentAt(first, steps, n) { TimelyKeepsAt(first, steps, n); }
    AlwaysAMomentIff(first, steps);
    assert MomentAt(first, steps, m);
  }

  lemma TimelyGoesOn(first: int, steps: seq<Step>, m: nat)
    requires first >= 1 && m < |steps| && forall n :: 0 <= n < |steps| ==> TimelyAt(first, steps, n)
    ensures GoesOn(first, steps, m)
  {
    forall n | 0 <= n < |steps| ensures KeepsPlaceAt(first, steps, n) { TimelyKeepsAt(first, steps, n); }
    NeverGoesBackIff(first, steps);
  }

  /** In every timely run, between sign-ins, that moment never goes back. */
  lemma {:induction false} ViewNeverGoesBack(first: int, steps: seq<Step>, i: nat, j: nat)
    requires first >= 1 && i <= j <= |steps| && forall n :: 0 <= n < |steps| ==> TimelyAt(first, steps, n)
    requires forall n :: i <= n < j ==> !steps[n].SignIn?
    ensures ViewPlace(first, Run(first, steps[..i])) <= ViewPlace(first, Run(first, steps[..j]))
    decreases j
  {
    if i < j {
      ViewNeverGoesBack(first, steps, i, j - 1);
      TimelyGoesOn(first, steps, j - 1);
    }
  }

  // --- runs that part from these, and how a reader catches up

  lemma ReplacesAll(held: seq<Line>, lines: seq<Line>)
    requires |lines| <= LOG_LINES && StartsOver(held, lines)
    requires forall i :: 0 <= i < |lines| ==> lines[i].number >= 0
    ensures Merged(held, lines, LOG_LINES) == lines
  {
    AllAbove(lines, -1);
    assert lines + [] == lines;
  }

  lemma StacksOn(held: seq<Line>, lines: seq<Line>)
    requires |held| + |lines| <= LOG_LINES
    requires forall i :: 0 <= i < |lines| ==> lines[i].number > NewestHeld(held)
    ensures Merged(held, lines, LOG_LINES) == lines + held
  {
    AllAbove(lines, NewestHeld(held));
  }

  /** A short answer: the lines after the place, newest first. */
  lemma ShortAnswer(old_: seq<Line>, new_: seq<Line>, since: int)
    requires since != 0 && forall i :: 0 <= i < |old_| ==> old_[i].number <= since
    requires 0 < |new_| <= LOG_LINES && new_[0].number > since && new_[|new_| - 1].number > since
    ensures Answer(old_ + new_, since) == Reversed(new_)
  {
    SkipsOld(old_, new_, since);
  }

  lemma OneLineAnswer(l: Line)
    requires l.number >= 0
    ensures Answer([l], 0) == [l] && forall view :: Took(view, [l], 0) == [l]
  {
    assert Reversed([l]) == [l];
    StacksOn([], [l]);
    assert [l] + [] == [l];
  }

  lemma FirstLine(a: string)
    ensures var s := After(1, After(1, START, Logged(a)), Ask(true));
            s.log == [a] && s.lines == [Line(1, a)] && s.view == [] && s.gen == 0 && s.asked == [Asked(0, 0, None)]
  {
  }

  lemma FirstAnswer(s: State, l: Line)
    requires s.lines == [l] && l.number == 1 && s.gen == 0 && s.asked == [Asked(0, 0, None)]
    ensures var t := After(1, After(1, After(1, s, Serve(0)), Deliver(0)), Ask(false));
            && t.log == s.log && t.lines == [l] && t.view == [l] && t.gen == 0
            && |t.asked| == 2 && t.asked[1] == Asked(0, 1, None)
  {
    OneLineAnswer(l);
  }

  function OnePolled(a: string): seq<Step> {
    [] + [Logged(a)] + [Ask(true)] + [Serve(0)] + [Deliver(0)] + [Ask(false)]
  }

  /** One line logged and shown, and a poll from it on its way. */
  lemma OneShown(a: string)
    ensures var s := Run(1, OnePolled(a));
            && s.log == [a] && s.lines == [Line(1, a)] && s.view == [Line(1, a)] && s.gen == 0
            && |s.asked| == 2 && s.asked[1] == Asked(0, 1, None)
  {
    var x := [] + [Logged(a)] + [Ask(true)];
    OneMore(1, [], Logged(a));
    OneMore(1, [] + [Logged(a)], Ask(true));
    FirstLine(a);
    OneMore(1, x, Serve(0));
    OneMore(1, x + [Serve(0)], Deliver(0));
    OneMore(1, x + [Serve(0)] + [Deliver(0)], Ask(false));
    FirstAnswer(Run(1, x), Line(1, a));
  }

  /** The steps, and then each text logged. */
  function ThenLogged(steps: seq<Step>, texts: seq<string>): seq<Step> {
    if texts == [] then steps else ThenLogged(steps, texts[..|texts| - 1]) + [Logged(texts[|texts| - 1])]
  }

  ghost predicate OnlyLogged(s: State, t: State, texts: seq<string>) {
    t.log == s.log + texts && t.view == s.view && t.gen == s.gen && t.asked == s.asked
  }

  lemma OneMoreLogged(first: int, s: State, t: State, texts: seq<string>, text: string)
    requires OnlyLogged(s, t, texts)
    ensures OnlyLogged(s, After(first, t, Logged(text)), texts + [text])
  {
    assert s.log + texts + [text] == s.log + (texts + [text]);
  }

  lemma {:induction false} LoggingOnlyLogs(first: int, steps: seq<Step>, texts: seq<string>)
    ensures OnlyLogged(Run(first, steps), Run(first, ThenLogged(steps, texts)), texts)
  {
    if texts != [] {
      var (rest, last) := (texts[..|texts| - 1], texts[|texts| - 1]);
      LoggingOnlyLogs(first, steps, rest);
      OneMore(first, ThenLogged(steps, rest), Logged(last));
      OneMoreLogged(first, Run(first, steps), Run(first, ThenLogged(steps, rest)), rest, last);
      assert rest + [last] == texts;
    }
  }

  lemma AnsweredFar(s: State, log: seq<string>)
    requires Fair(1, s) && s.log == log && |log| > 1 + LOG_LINES && s.view == NewestAt(1, log, 1)
    requires s.gen == 0 && |s.asked| == 2 && s.asked[1] == Asked(0, 1, None)
    ensures var t := After(1, After(1, s, Serve(1)), Deliver(1)); t.latest == |log| && t.log == log && t.view != NewestAt(1, log, |log|)
  {
    UpToDateIff(1, log, 1, |log|, 1);
  }

  /** The limit's worth of lines is answered oldest first, so a reader further
      behind does not see the newest line. */
  lemma FarBehindIsNotUpToDate(a: string, texts: seq<string>)
    requires |texts| > LOG_LINES
    ensures var s := Run(1, ThenLogged(OnePolled(a), texts) + [Serve(1)] + [Deliver(1)]);
            s.log == [a] + texts && s.latest == |s.log| && s.view != NewestAt(1, s.log, |s.log|)
  {
    OneShown(a);
    var x := ThenLogged(OnePolled(a), texts);
    LoggingOnlyLogs(1, OnePolled(a), texts);
    AlwaysFair(1, x);
    assert [Line(1, a)] == NewestAt(1, [a] + texts, 1);
    AnsweredFar(Run(1, x), [a] + texts);
    OneMore(1, x, Serve(1));
    OneMore(1, x + [Serve(1)], Deliver(1));
  }

  /** The first poll is answered after one more line. */
  lemma FirstPollAnswered(s: State, l1: Line, b: string)
    requires s.lines == [l1] && l1.number == 1 && s.gen == 0 && |s.asked| == 2 && s.asked[1] == Asked(0, 1, None)
    ensures var t := After(1, After(1, s, Logged(b)), Serve(1));
            && t.lines == [l1, Line(2, b)] && t.view == s.view && t.gen == 0 && |t.asked| == 2
            && t.asked[1].gen == 0 && t.asked[1].since == 1
            && t.asked[1].answer.Some? && t.asked[1].answer.value.lines == [Line(2, b)]
  {
    var l2 := Line(2, b);
    assert [l1] + [l2] == [l1, l2];
    ShortAnswer([l1], [l2], 1);
    assert Reversed([l2]) == [l2];
  }

  /** Another is answered after one more, and taken first. */
  lemma SecondTakenFirst(s: State, l1: Line, l2: Line, c: string)
    requires s.lines == [l1, l2] && l1.number == 1 && l2.number == 2 && s.view == [l1] && s.gen == 0 && |s.asked| == 2
    ensures var t := After(1, After(1, After(1, After(1, s, Ask(false)), Logged(c)), Serve(2)), Deliver(2));
            && t.lines == [l1, l2, Line(3, c)] && t.view == [Line(3, c), l2, l1] && t.gen == 0
            && |t.asked| == 3 && t.asked[1] == s.asked[1]
  {
    var l3 := Line(3, c);
    assert [l1, l2] + [l3] == [l1, l2, l3] == [l1] + [l2, l3];
    ShortAnswer([l1], [l2, l3], 1);
    assert Reversed([l2, l3]) == [l3, l2];
    StacksOn([l1], [l3, l2]);
  }

  /** A poll goes out from line 3, and the late answer takes the view back. */
  lemma LateTaken(s: State, l1: Line, l2: Line, l3: Line)
    requires l1.number == 1 && l2.number == 2 && l3.number == 3 && s.view == [l3, l2, l1] && s.gen == 0
    requires |s.asked| == 3 && s.asked[1].gen == 0 && s.asked[1].since == 1
    requires s.asked[1].answer.Some? && s.asked[1].answer.value.lines == [l2]
    ensures var t := After(1, After(1, s, Ask(false)), Deliver(1));
            t.lines == s.lines && t.view == [l2] && t.gen == 0 && |t.asked| == 4 && t.asked[3] == Asked(0, 3, None)
  {
    ReplacesAll([l3, l2, l1], [l2]);
  }

  /** That poll's answer skips line 3. */
  lemma NextTaken(s: State, l1: Line, l2: Line, l3: Line, d: string)
    requires l1.number == 1 && l2.number == 2 && l3.number == 3 && s.lines == [l1, l2, l3]
    requires s.view == [l2] && s.gen == 0 && |s.asked| == 4 && s.asked[3] == Asked(0, 3, None)
    ensures After(1, After(1, After(1, s, Logged(d)), Serve(3)), Deliver(3)).view == [Line(4, d), l2]
  {
    var l4 := Line(4, d);
    ShortAnswer([l1, l2, l3], [l4], 3);
    assert Reversed([l4]) == [l4];
    StacksOn([l2], [l4]);
  }

  /** Answers taken out of order can leave a hole: line 3 was held, a late answer
      takes the view back, and the next one skips over it. */
  lemma LateAnswerLeavesAHole(a: string, b: string, c: string, d: string)
    ensures var steps := OnePolled(a) + [Logged(b)] + [Serve(1)] + [Ask(false)] + [Logged(c)] + [Serve(2)] + [Deliver(2)];
            && Run(1, steps).view == [Line(3, c), Line(2, b), Line(1, a)]
            && Run(1, steps + [Ask(false)] + [Deliver(1)] + [Logged(d)] + [Serve(3)] + [Deliver(3)]).view == [Line(4, d), Line(2, b)]
  {
    OneShown(a);
    var x := OnePolled(a);
    OneMore(1, x, Logged(b));
    OneMore(1, x + [Logged(b)], Serve(1));
    var y := x + [Logged(b)] + [Serve(1)];
    OneMore(1, y, Ask(false));
    OneMore(1, y + [Ask(false)], Logged(c));
    OneMore(1, y + [Ask(false)] + [Logged(c)], Serve(2));
    OneMore(1, y + [Ask(false)] + [Logged(c)] + [Serve(2)], Deliver(2));
    FirstPollAnswered(Run(1, x), Line(1, a), b);
    SecondTakenFirst(Run(1, y), Line(1, a), Line(2, b), c);
    var steps := y + [Ask(false)] + [Logged(c)] + [Serve(2)] + [Deliver(2)];
    OneMore(1, steps, Ask(false));
    OneMore(1, steps + [Ask(false)], Deliver(1));
    OneMore(1, steps + [Ask(false)] + [Deliver(1)], Logged(d));
    OneMore(1, steps + [Ask(false)] + [Deliver(1)] + [Logged(d)], Serve(3));
    OneMore(1, steps + [Ask(false)] + [Deliver(1)] + [Logged(d)] + [Serve(3)], Deliver(3));
    LateTaken(Run(1, steps), Line(1, a), Line(2, b), Line(3, c));
    NextTaken(Run(1, steps + [Ask(false)] + [Deliver(1)]), Line(1, a), Line(2, b), Line(3, c), d);
  }

  /** One more poll, from the newest line held, while the log stands still. */
  function Poll(lines: seq<Line>, view: seq<Line>): seq<Line> {
    Took(view, Answer(lines, Cursor(view)), Cursor(view))
  }

  function PolledTo(n: nat, hi: nat, times: nat): nat
    requires hi <= n
    ensures hi <= PolledTo(n, hi, times) <= n
  {
    if times == 0 then hi else To(n, PolledTo(n, hi, times - 1))
  }

  lemma {:induction false} PolledFar(n: nat, hi: nat, times: nat)
    requires hi <= n
    ensures PolledTo(n, hi, times) < n ==> hi + 500 * times <= PolledTo(n, hi, times)
  {
    if times > 0 { PolledFar(n, hi, times - 1); }
  }

  ghost predicate PollAt(lines: seq<Line>, views: seq<seq<Line>>, k: nat)
    requires k + 1 < |views|
  {
    views[k + 1] == Poll(lines, views[k])
  }

  lemma PollOnce(first: int, log: seq<string>, at: nat, view: seq<Line>)
    requires first >= 1 && at <= |log| && view == NewestAt(first, log, at)
    ensures Poll(BufferAt(first, log, |log|), view) == NewestAt(first, log, To(|log|, at))
  {
    PlaceOfNewest(first, log, at);
    TakenInTime(first, log, at, |log|, at);
  }

  lemma {:induction false} PollsReach(first: int, log: seq<string>, hi: nat, views: seq<seq<Line>>, k: nat)
    requires first >= 1 && hi <= |log| && k < |views| && views[0] == NewestAt(first, log, hi)
    requires forall j :: 0 <= j < |views| - 1 ==> PollAt(BufferAt(first, log, |log|), views, j)
    ensures views[k] == NewestAt(first, log, PolledTo(|log|, hi, k))
  {
    if k > 0 {
      PollsReach(first, log, hi, views, k - 1);
      assert PollAt(BufferAt(first, log, |log|), views, k - 1);
      PollOnce(first, log, PolledTo(|log|, hi, k - 1), views[k - 1]);
    }
  }

  /** A reader any distance behind, polling again and again while the log stands
      still, is up to date after enough polls. */
  lemma PollingCatchesUp(first: int, log: seq<string>, hi: nat, views: seq<seq<Line>>)
    requires first >= 1 && hi <= |log| && views != [] && views[0] == NewestAt(first, log, hi)
    requires forall j :: 0 <= j < |views| - 1 ==> PollAt(BufferAt(first, log, |log|), views, j)
    requires |log| - hi <= 500 * (|views| - 1)
    ensures views[|views| - 1] == NewestAt(first, log, |log|)
  {
    PolledFar(|log|, hi, |views| - 1);
    PollsReach(first, log, hi, views, |views| - 1);
  }

  // --- answers asked for under an earlier sign-in

  /** Polls are only added; none changes who asked it. */
  ghost predicate KeepsAsked(s: State, s': State) {
    && s.gen <= s'.gen && |s.asked| <= |s'.asked|
    && forall i :: 0 <= i < |s.asked| ==> s'.asked[i].gen == s.asked[i].gen
  }

  lemma StepKeepsAsked(first: int, s: State, step: Step)
    ensures KeepsAsked(s, After(first, s, step))
  {
  }

  lemma {:induction false} RunKeepsAsked(first: int, steps: seq<Step>, more: seq<Step>)
    ensures KeepsAsked(Run(first, steps), Run(first, steps + more))
  {
    if more == [] {
      assert steps + more == steps;
    } else {
      var (rest, last) := (more[..|more| - 1], more[|more| - 1]);
      RunKeepsAsked(first, steps, rest);
      assert steps + more == steps + rest + [last];
      OneMore(first, steps + rest, last);
      StepKeepsAsked(first, Run(first, steps + rest), last);
    }
  }

  lemma {:induction false} AskedByNow(first: int, steps: seq<Step>)
    ensures forall i :: 0 <= i < |Run(first, steps).asked| ==> Run(first, steps).asked[i].gen <= Run(first, steps).gen
  {
    if steps != [] { AskedByNow(first, steps[..|steps| - 1]); }
  }

  /** In every run, an answer to a poll made before a sign-in changes nothing,
      however long after the sign-in it comes. */
  lemma OldAnswersAreDropped(first: int, steps: seq<Step>, more: seq<Step>, i: nat)
    requires i < |Run(first, steps).asked|
    ensures var s := Run(first, steps + [SignIn] + more); After(first, s, Deliver(i)) == s
  {
    AskedByNow(first, steps);
    OneMore(first, steps, SignIn);
    RunKeepsAsked(first, steps + [SignIn], more);
  }
}
