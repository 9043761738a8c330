/** The recorder's palette: median cut over the colours of the frames, each
    weighted by how many pixels have it. Boxes are ranges of one array, which
    is sorted in place as they are split. */
module MedianCut {
  import opened Images

  datatype Weighted = Weighted(c: Color, n: nat)

  /** Box: `all[lo..hi]`. */
  datatype Range = Range(lo: nat, hi: nat)

  const PALETTE_SIZE: nat := 256

  function Channel(c: Color, ch: nat): int {
    if ch == 0 then c.r else if ch == 1 then c.g else c.b
  }

  function Weight(s: seq<Weighted>): nat {
    if s == [] then 0 else Weight(s[..|s| - 1]) + s[|s| - 1].n
  }

  /** The channel's total over a box, each colour counted by its weight. */
  function Mass(s: seq<Weighted>, ch: nat): int {
    if s == [] then 0 else Mass(s[..|s| - 1], ch) + Channel(s[|s| - 1].c, ch) * s[|s| - 1].n
  }

  /** The same of any part of a colour. */
  function Total(s: seq<Weighted>, part: Color -> int): int {
    if s == [] then 0 else Total(s[..|s| - 1], part) + part(s[|s| - 1].c) * s[|s| - 1].n
  }

  lemma {:induction false} MassIsTotal(s: seq<Weighted>, ch: nat, part: Color -> int)
    requires forall c :: part(c) == Channel(c, ch)
    ensures Mass(s, ch) == Total(s, part)
  {
    if s != [] { MassIsTotal(s[..|s| - 1], ch, part); }
  }

  ghost predicate Between(s: seq<Weighted>, ch: nat, lo: int, hi: int) {
    forall i :: 0 <= i < |s| ==> lo <= Channel(s[i].c, ch) <= hi
  }

  /** `lo` and `hi` are the channel's least and greatest values in the box. */
  ghost predicate Spans(s: seq<Weighted>, ch: nat, lo: int, hi: int) {
    && Between(s, ch, lo, hi)
    && (exists i :: 0 <= i < |s| && Channel(s[i].c, ch) == lo)
    && (exists i :: 0 <= i < |s| && Channel(s[i].c, ch) == hi)
  }

  // --- averages

  lemma {:induction false} MassIsBetween(s: seq<Weighted>, ch: nat, lo: int, hi: int)
    requires Between(s, ch, lo, hi)
    ensures lo * Weight(s) <= Mass(s, ch) <= hi * Weight(s)
  {
    if s != [] {
      var n := |s| - 1;
      MassIsBetween(s[..n], ch, lo, hi);
      var (v, w) := (Channel(s[n].c, ch), s[n].n);
      assert lo * (Weight(s[..n]) + w) == lo * Weight(s[..n]) + lo * w;
      assert hi * (Weight(s[..n]) + w) == hi * Weight(s[..n]) + hi * w;
      Scaled(lo, v, w);
      Scaled(v, hi, w);
    }
  }

  lemma Scaled(a: int, b: int, w: nat)
    requires a <= b
    ensures a * w <= b * w
  {
  }

  lemma QuotientIsBetween(sum: int, w: nat, lo: int, hi: int)
    requires 0 < w && lo * w <= sum <= hi * w
    ensures lo <= sum / w <= hi
  {
    var q := sum / w;
    assert sum == q * w + sum % w;
    if q < lo { Scaled(q + 1, lo, w); }
    if q > hi { Scaled(hi + 1, q, w); }
  }

  lemma {:induction false} WeightIsPositive(s: seq<Weighted>)
    requires s != [] && forall i :: 0 <= i < |s| ==> 0 < s[i].n
    ensures 0 < Weight(s)
  {
  }

  /** The average colour of one box, at full alpha. */
  method Average(s: seq<Weighted>) returns (c: Color)
    requires s != [] && forall i :: 0 <= i < |s| ==> 0 < s[i].n
    ensures c.a == 255
    ensures c.r == Mass(s, 0) / Weight(s) && c.g == Mass(s, 1) / Weight(s) && c.b == Mass(s, 2) / Weight(s)
    ensures c.r == Total(s, (x: Color) => x.r) / Weight(s)
    ensures c.g == Total(s, (x: Color) => x.g) / Weight(s)
    ensures c.b == Total(s, (x: Color) => x.b) / Weight(s)
    ensures forall ch, lo, hi :: 0 <= ch < 3 && Between(s, ch, lo, hi) ==> lo <= Channel(c, ch) <= hi
  {
    var r, g, b, n := 0, 0, 0, 0;
    var i := 0;
    while i < |s|
      invariant 0 <= i <= |s|
      invariant r == Mass(s[..i], 0) && g == Mass(s[..i], 1) && b == Mass(s[..i], 2) && n == Weight(s[..i])
    {
      var w := s[i];
      assert s[..i + 1][..i] == s[..i];
      r, g, b, n := r + w.c.r * w.n, g + w.c.g * w.n, b + w.c.b * w.n, n + w.n;
      i := i + 1;
    }
    assert s[..i] == s;
    WeightIsPositive(s);
    AverageIsBetween(s, 0, 0, 255);
    AverageIsBetween(s, 1, 0, 255);
    AverageIsBetween(s, 2, 0, 255);
    c := Color(r / n, g / n, b / n, 255);
    MassIsTotal(s, 0, (x: Color) => x.r);
    MassIsTotal(s, 1, (x: Color) => x.g);
    MassIsTotal(s, 2, (x: Color) => x.b);
    forall ch, lo, hi | 0 <= ch < 3 && Between(s, ch, lo, hi) ensures lo <= Channel(c, ch) <= hi {
      AverageIsBetween(s, ch, lo, hi);
    }
  }

  lemma AverageIsBetween(s: seq<Weighted>, ch: nat, lo: int, hi: int)
    requires 0 < Weight(s) && Between(s, ch, lo, hi)
    ensures lo <= Mass(s, ch) / Weight(s) <= hi
  {
    MassIsBetween(s, ch, lo, hi);
    QuotientIsBetween(Mass(s, ch), Weight(s), lo, hi);
  }

  // --- the widest channel of a box

  function Min(a: int, b: int): int {
    if a < b then a else b
  }

  function Max(a: int, b: int): int {
    if a > b then a else b
  }

  /** The running extremes of a channel, from the starting values 255 and 0. */
  ghost predicate Tracks(s: seq<Weighted>, ch: nat, lo: int, hi: int) {
    if s == [] then lo == 255 && hi == 0 else Spans(s, ch, lo, hi)
  }

  lemma TrackOne(s: seq<Weighted>, w: Weighted, ch: nat, lo: int, hi: int)
    requires Tracks(s, ch, lo, hi)
    ensures Tracks(s + [w], ch, Min(lo, Channel(w.c, ch)), Max(hi, Channel(w.c, ch)))
  {
    var t, v := s + [w], Channel(w.c, ch);
    assert t[|s|] == w;
    forall i | 0 <= i < |t| ensures Min(lo, v) <= Channel(t[i].c, ch) <= Max(hi, v) {
      if i < |s| { assert t[i] == s[i]; }
    }
    if s != [] {
      var i :| 0 <= i < |s| && Channel(s[i].c, ch) == lo;
      var j :| 0 <= j < |s| && Channel(s[j].c, ch) == hi;
      assert t[i] == s[i] && t[j] == s[j];
    }
  }

  /** `range` is the widest spread a channel has in the box, and `ch` the first
      channel to have it. */
  ghost predicate IsWidest(s: seq<Weighted>, ch: nat, range: int) {
    && ch < 3 && (exists lo, hi :: Spans(s, ch, lo, hi) && range == hi - lo)
    && (forall k, lo, hi :: 0 <= k < 3 && Spans(s, k, lo, hi) ==> hi - lo <= range && (k < ch ==> hi - lo < range))
  }

  method Widest(box: seq<Weighted>) returns (best: nat, range: int)
    requires box != []
    ensures IsWidest(box, best, range) && 0 <= range
  {
    var lo, hi := [255, 255, 255], [0, 0, 0];
    var i := 0;
    while i < |box|
      invariant 0 <= i <= |box| && |lo| == |hi| == 3
      invariant forall k :: 0 <= k < 3 ==> Tracks(box[..i], k, lo[k], hi[k])
    {
      assert box[..i + 1] == box[..i] + [box[i]];
      var ch := 0;
      while ch < 3
        invariant 0 <= ch <= 3 && |lo| == |hi| == 3
        invariant forall k :: 0 <= k < ch ==> Tracks(box[..i + 1], k, lo[k], hi[k])
        invariant forall k :: ch <= k < 3 ==> Tracks(box[..i], k, lo[k], hi[k])
      {
        var v := Channel(box[i].c, ch);
        TrackOne(box[..i], box[i], ch, lo[ch], hi[ch]);
        lo, hi := lo[ch := Min(lo[ch], v)], hi[ch := Max(hi[ch], v)];
        ch := ch + 1;
      }
      i := i + 1;
    }
    assert box[..i] == box;
    best := 0;
    var ch := 1;
    while ch < 3
      invariant 1 <= ch <= 3 && best < ch
      invariant forall k :: 0 <= k < ch ==> hi[k] - lo[k] <= hi[best] - lo[best]
      invariant forall k :: 0 <= k < best ==> hi[k] - lo[k] < hi[best] - lo[best]
    {
      if hi[ch] - lo[ch] > hi[best] - lo[best] { best := ch; }
      ch := ch + 1;
    }
    range := hi[best] - lo[best];
    WidestSpans(box, lo, hi, best);
  }

  lemma WidestSpans(box: seq<Weighted>, lo: seq<int>, hi: seq<int>, best: nat)
    requires box != [] && |lo| == |hi| == 3 && best < 3
    requires forall k :: 0 <= k < 3 ==> Tracks(box, k, lo[k], hi[k])
    requires forall k :: 0 <= k < 3 ==> hi[k] - lo[k] <= hi[best] - lo[best]
    requires forall k :: 0 <= k < best ==> hi[k] - lo[k] < hi[best] - lo[best]
    ensures IsWidest(box, best, hi[best] - lo[best]) && 0 <= hi[best] - lo[best]
  {
    assert Spans(box, best, lo[best], hi[best]);
    forall k, l, h | 0 <= k < 3 && Spans(box, k, l, h) ensures l == lo[k] && h == hi[k] {
      SpanIsUnique(box, k, l, h, lo[k], hi[k]);
    }
  }

  lemma SpanIsUnique(s: seq<Weighted>, ch: nat, lo: int, hi: int, lo': int, hi': int)
    requires Spans(s, ch, lo, hi) && Spans(s, ch, lo', hi')
    ensures lo == lo' && hi == hi'
  {
  }

  // --- sorting a box, and where to cut it

  ghost predicate Ordered(s: seq<Weighted>, ch: nat) {
    forall i, j :: 0 <= i < j < |s| ==> Channel(s[i].c, ch) <= Channel(s[j].c, ch)
  }

  function Insert(s: seq<Weighted>, w: Weighted, ch: nat): (r: seq<Weighted>)
    ensures multiset(r) == multiset(s) + multiset{w} && |r| == |s| + 1
    ensures Ordered(s, ch) ==> Ordered(r, ch)
  {
    if s == [] || Channel(w.c, ch) < Channel(s[0].c, ch) then
      InsertFirst(s, w, ch);
      [w] + s
    else
      var t := Insert(s[1..], w, ch);
      InsertLater(s, t, w, ch);
      InsertKeepsFirst(s, t, w, ch);
      [s[0]] + t
  }

  lemma InsertFirst(s: seq<Weighted>, w: Weighted, ch: nat)
    requires s == [] || Channel(w.c, ch) < Channel(s[0].c, ch)
    ensures multiset([w] + s) == multiset(s) + multiset{w}
    ensures Ordered(s, ch) ==> Ordered([w] + s, ch)
  {
  }

  lemma InsertLater(s: seq<Weighted>, t: seq<Weighted>, w: Weighted, ch: nat)
    requires s != [] && multiset(t) == multiset(s[1..]) + multiset{w}
    ensures multiset([s[0]] + t) == multiset(s) + multiset{w}
  {
    assert s == [s[0]] + s[1..];
  }

  lemma InsertKeepsFirst(s: seq<Weighted>, t: seq<Weighted>, w: Weighted, ch: nat)
    requires s != [] && Channel(s[0].c, ch) <= Channel(w.c, ch) && multiset(t) == multiset(s[1..]) + multiset{w}
    requires Ordered(s[1..], ch) ==> Ordered(t, ch)
    ensures Ordered(s, ch) ==> Ordered([s[0]] + t, ch)
  {
    if Ordered(s, ch) {
      forall j | 0 <= j < |t| ensures Channel(s[0].c, ch) <= Channel(t[j].c, ch) {
        assert t[j] in multiset(t);
        assert t[j] == w || t[j] in s[1..];
      }
    }
  }

  /** What `sort.Slice` may leave: the same elements, in order of the channel. */
  function SortedBy(s: seq<Weighted>, ch: nat): (r: seq<Weighted>)
    ensures multiset(r) == multiset(s) && |r| == |s| && Ordered(r, ch)
  {
    if s == [] then []
    else
      assert s == [s[0]] + s[1..];
      Insert(SortedBy(s[1..], ch), s[0], ch)
  }

  method WriteBack(a: array<Weighted>, lo: nat, s: seq<Weighted>)
    requires lo + |s| <= a.Length
    modifies a
    ensures a[..] == old(a[..lo]) + s + old(a[lo + |s|..])
  {
    var i := 0;
    while i < |s|
      invariant 0 <= i <= |s|
      invariant forall k :: 0 <= k < a.Length ==> a[k] == if lo <= k < lo + i then s[k - lo] else old(a[k])
    {
      a[lo + i] := s[i];
      i := i + 1;
    }
  }

  /** `sort.Slice` on a box, in place. */
  method SortRange(a: array<Weighted>, lo: nat, hi: nat, ch: nat)
    requires lo <= hi <= a.Length
    modifies a
    ensures a[..lo] == old(a[..lo]) && a[hi..] == old(a[hi..])
    ensures Ordered(a[lo..hi], ch) && multiset(a[lo..hi]) == old(multiset(a[lo..hi]))
    ensures multiset(a[..]) == old(multiset(a[..]))
  {
    var sorted := SortedBy(a[lo..hi], ch);
    ghost var before := a[..];
    WriteBack(a, lo, sorted);
    Rewritten(before, a[..], lo, hi, sorted);
  }

  lemma Rewritten(s: seq<Weighted>, t: seq<Weighted>, lo: nat, hi: nat, piece: seq<Weighted>)
    requires lo <= hi <= |s| && |piece| == hi - lo && t == s[..lo] + piece + s[hi..] && multiset(piece) == multiset(s[lo..hi])
    ensures |t| == |s| && t[..lo] == s[..lo] && t[lo..hi] == piece && t[hi..] == s[hi..] && multiset(t) == multiset(s)
  {
    assert t[lo..hi] == piece && t[hi..] == s[hi..];
    SameElsewhere(s, t, lo, hi);
  }

  lemma SameElsewhere(s: seq<Weighted>, t: seq<Weighted>, lo: nat, hi: nat)
    requires lo <= hi <= |s| == |t| && t[..lo] == s[..lo] && t[hi..] == s[hi..]
    requires multiset(t[lo..hi]) == multiset(s[lo..hi])
    ensures multiset(t) == multiset(s)
  {
    assert s == s[..lo] + s[lo..hi] + s[hi..];
    assert t == t[..lo] + t[lo..hi] + t[hi..];
  }

  /** Where a sorted box is cut: after the first prefix holding half its weight,
      leaving neither side empty. */
  ghost predicate IsCut(s: seq<Weighted>, cut: nat) {
    && 1 <= cut <= |s| - 1
    && (cut == |s| - 1 || Weight(s) / 2 <= Weight(s[..cut]))
    && (cut == 1 || Weight(s[..cut - 1]) < Weight(s) / 2)
  }

  method FindCut(box: seq<Weighted>) returns (cut: nat)
    requires 2 <= |box|
    ensures IsCut(box, cut)
  {
    var total := 0;
    var i := 0;
    while i < |box|
      invariant 0 <= i <= |box| && total == Weight(box[..i])
    {
      assert box[..i + 1][..i] == box[..i];
      total := total + box[i].n;
      i := i + 1;
    }
    assert box[..i] == box;
    var half, acc := total / 2, 0;
    cut := 1;
    i := 0;
    assert box[..|box|] == box;
    while i < |box|
      invariant 0 <= i <= |box| && acc == Weight(box[..i]) && (i == 0 || acc < half) && cut == 1
    {
      assert box[..i + 1][..i] == box[..i];
      acc := acc + box[i].n;
      if acc >= half {
        cut := Max(1, Min(i + 1, |box| - 1));
        assert i + 1 > |box| - 1 ==> box[..i][..i - 1] == box[..i - 1];
        return;
      }
      i := i + 1;
    }
    assert false;
  }

  // --- the boxes

  /** Each element of the array is in exactly one box, none of them empty;
      `owner[k]` is the box `all[k]` is in. */
  ghost predicate Partition(boxes: seq<Range>, owner: seq<nat>) {
    && (forall i :: 0 <= i < |boxes| ==> boxes[i].lo < boxes[i].hi <= |owner|)
    && (forall k :: 0 <= k < |owner| ==> owner[k] < |boxes|)
    && (forall k, i :: 0 <= k < |owner| && 0 <= i < |boxes| ==> Owns(boxes[i], k, owner[k] == i))
  }

  /** Element `k` lies in the box exactly if it is said to. */
  ghost predicate Owns(box: Range, k: nat, said: bool) {
    box.lo <= k < box.hi <==> said
  }

  /** A partition of `n` elements. */
  ghost predicate Tiling(boxes: seq<Range>, owner: seq<nat>, n: nat) {
    Partition(boxes, owner) && |owner| == n == Sizes(boxes)
  }

  ghost function Sizes(boxes: seq<Range>): int {
    if boxes == [] then 0 else Sizes(boxes[..|boxes| - 1]) + boxes[|boxes| - 1].hi - boxes[|boxes| - 1].lo
  }

  ghost function SplitOwner(owner: seq<nat>, cut: nat, hi: nat, box: nat): seq<nat> {
    seq(|owner|, k requires 0 <= k < |owner| => if cut <= k < hi then box else owner[k])
  }

  lemma SplitKeepsPartition(boxes: seq<Range>, owner: seq<nat>, i: nat, cut: nat)
    requires Partition(boxes, owner) && i < |boxes| && boxes[i].lo < cut < boxes[i].hi
    ensures var b := boxes[i];
            Partition(boxes[i := Range(b.lo, cut)] + [Range(cut, b.hi)], SplitOwner(owner, cut, b.hi, |boxes|))
  {
    var b := boxes[i];
    var boxes' := boxes[i := Range(b.lo, cut)] + [Range(cut, b.hi)];
    var owner' := SplitOwner(owner, cut, b.hi, |boxes|);
    forall k, j | 0 <= k < |owner'| && 0 <= j < |boxes'| ensures Owns(boxes'[j], k, owner'[k] == j) {
      assert Owns(b, k, owner[k] == i);
      if j < |boxes| && j != i { assert boxes'[j] == boxes[j] && Owns(boxes[j], k, owner[k] == j); }
    }
  }

  lemma {:induction false} SizesUpdate(boxes: seq<Range>, i: nat, b: Range)
    requires i < |boxes|
    ensures Sizes(boxes[i := b]) == Sizes(boxes) - (boxes[i].hi - boxes[i].lo) + (b.hi - b.lo)
  {
    var n := |boxes| - 1;
    if i == n {
      assert boxes[i := b][..n] == boxes[..n];
    } else {
      assert boxes[i := b][..n] == boxes[..n][i := b];
      SizesUpdate(boxes[..n], i, b);
    }
  }

  lemma SplitKeepsSizes(boxes: seq<Range>, i: nat, cut: nat)
    requires i < |boxes| && boxes[i].lo <= cut <= boxes[i].hi
    ensures Sizes(boxes[i := Range(boxes[i].lo, cut)] + [Range(cut, boxes[i].hi)]) == Sizes(boxes)
  {
    var s := boxes[i := Range(boxes[i].lo, cut)];
    SizesUpdate(boxes, i, Range(boxes[i].lo, cut));
    assert (s + [Range(cut, boxes[i].hi)])[..|s|] == s;
  }

  /** Fewer boxes than elements: some box holds two. */
  lemma {:induction false} Pigeonhole(boxes: seq<Range>)
    requires forall i :: 0 <= i < |boxes| ==> boxes[i].hi - boxes[i].lo < 2
    ensures Sizes(boxes) <= |boxes|
  {
    if boxes != [] { Pigeonhole(boxes[..|boxes| - 1]); }
  }

  ghost predicate Splittable(b: Range) {
    b.lo + 2 <= b.hi
  }

  /** The box to split next: the first with the widest channel range among
      those that can be split. */
  ghost predicate IsBest(all: seq<Weighted>, boxes: seq<Range>, best: int, ch: nat)
    requires forall i :: 0 <= i < |boxes| ==> boxes[i].lo <= boxes[i].hi <= |all|
  {
    && 0 <= best < |boxes| && Splittable(boxes[best])
    && exists range ::
         && IsWidest(all[boxes[best].lo..boxes[best].hi], ch, range)
         && forall i, k, r :: 0 <= i < |boxes| && Splittable(boxes[i]) && IsWidest(all[boxes[i].lo..boxes[i].hi], k, r) ==>
              r <= range && (i < best ==> r < range)
  }

  lemma WidestIsUnique(s: seq<Weighted>, k: nat, r: int, k': nat, r': int)
    requires IsWidest(s, k, r) && IsWidest(s, k', r')
    ensures r == r'
  {
  }

  method FindBest(all: seq<Weighted>, boxes: seq<Range>) returns (best: int, ch: nat)
    requires forall i :: 0 <= i < |boxes| ==> boxes[i].lo < boxes[i].hi <= |all|
    ensures best < 0 ==> forall i :: 0 <= i < |boxes| ==> !Splittable(boxes[i])
    ensures 0 <= best ==> IsBest(all, boxes, best, ch)
  {
    var range := -1;
    best, ch := -1, 0;
    var i := 0;
    while i < |boxes|
      invariant 0 <= i <= |boxes| && best < i
      invariant best < 0 ==> range == -1 && forall j :: 0 <= j < i ==> !Splittable(boxes[j])
      invariant 0 <= best ==> Splittable(boxes[best]) && IsWidest(all[boxes[best].lo..boxes[best].hi], ch, range)
      invariant forall j, k, r :: 0 <= j < i && Splittable(boxes[j]) && IsWidest(all[boxes[j].lo..boxes[j].hi], k, r) ==>
                  r <= range && (j < best ==> r < range)
    {
      var b := boxes[i];
      if b.lo + 2 <= b.hi {
        var k, r := Widest(all[b.lo..b.hi]);
        forall k', r' | IsWidest(all[b.lo..b.hi], k', r') ensures r' == r { WidestIsUnique(all[b.lo..b.hi], k, r, k', r'); }
        if r > range {
          best, range, ch := i, r, k;
        }
      }
      i := i + 1;
    }
  }

  /** The colours in their present order, and the boxes they are cut into. */
  datatype Stage = Stage(all: seq<Weighted>, boxes: seq<Range>)

  ghost predicate BoxesFit(s: Stage) {
    forall i :: 0 <= i < |s.boxes| ==> s.boxes[i].lo < s.boxes[i].hi <= |s.all|
  }

  /** The best box of `s` is sorted by its widest channel and cut in two at its
      median; every other colour stays where it is. */
  ghost predicate SplitsAt(s: Stage, t: Stage, best: int, ch: nat, cut: nat) {
    && BoxesFit(s) && IsBest(s.all, s.boxes, best, ch)
    && var (lo, hi) := (s.boxes[best].lo, s.boxes[best].hi);
    && |t.all| == |s.all| && t.all[..lo] == s.all[..lo] && t.all[hi..] == s.all[hi..]
    && Ordered(t.all[lo..hi], ch) && multiset(t.all[lo..hi]) == multiset(s.all[lo..hi])
    && IsCut(t.all[lo..hi], cut) && t.boxes == Halved(s.boxes, best, cut)
  }

  /** Box `best` keeps its first `cut` elements; the rest become a new box. */
  function Halved(boxes: seq<Range>, best: nat, cut: nat): seq<Range>
    requires best < |boxes|
  {
    var b := boxes[best];
    boxes[best := Range(b.lo, b.lo + cut)] + [Range(b.lo + cut, b.hi)]
  }

  ghost predicate IsSplit(s: Stage, t: Stage) {
    exists best, ch, cut :: SplitsAt(s, t, best, ch, cut)
  }

  /** Splits in turn, from one box holding everything. */
  ghost predicate AreSplits(stages: seq<Stage>, first: seq<Weighted>, last: Stage) {
    && stages != [] && stages[0] == Stage(first, [Range(0, |first|)]) && stages[|stages| - 1] == last
    && forall i :: 0 < i < |stages| ==> IsSplit(stages[i - 1], stages[i])
  }

  lemma OneSplitMore(stages: seq<Stage>, first: seq<Weighted>, last: Stage, next: Stage)
    requires AreSplits(stages, first, last) && IsSplit(last, next)
    ensures AreSplits(stages + [next], first, next)
  {
  }

  /** A whole cut into as many boxes as the palette holds. */
  ghost predicate IsMedianCut(stages: seq<Stage>, first: seq<Weighted>, last: Stage) {
    AreSplits(stages, first, last) && |stages| == PALETTE_SIZE
  }

  method SortAndCut(all: array<Weighted>, lo: nat, hi: nat, ch: nat) returns (cut: nat)
    requires lo + 2 <= hi <= all.Length
    modifies all
    ensures all[..][..lo] == old(all[..])[..lo] && all[..][hi..] == old(all[..])[hi..]
    ensures Ordered(all[..][lo..hi], ch) && multiset(all[..][lo..hi]) == multiset(old(all[..])[lo..hi])
    ensures multiset(all[..]) == old(multiset(all[..]))
    ensures IsCut(all[..][lo..hi], cut)
  {
    ghost var was := all[..];
    assert was[..lo] == all[..lo] && was[hi..] == all[hi..] && was[lo..hi] == all[lo..hi];
    SortRange(all, lo, hi, ch);
    ghost var now := all[..];
    assert now[..lo] == all[..lo] && now[hi..] == all[hi..] && now[lo..hi] == all[lo..hi];
    cut := FindCut(all[lo..hi]);
  }

  /** The best box is sorted by its widest channel and cut in two, in place. */
  method SplitAt(all: array<Weighted>, boxes: seq<Range>, best: nat, ch: nat) returns (boxes': seq<Range>, cut: nat)
    requires BoxesFit(Stage(all[..], boxes)) && IsBest(all[..], boxes, best, ch)
    modifies all
    ensures multiset(all[..]) == old(multiset(all[..]))
    ensures IsSplit(Stage(old(all[..]), boxes), Stage(all[..], boxes'))
    ensures 0 < cut < boxes[best].hi - boxes[best].lo && boxes' == Halved(boxes, best, cut)
  {
    ghost var was := all[..];
    cut := SortAndCut(all, boxes[best].lo, boxes[best].hi, ch);
    boxes' := Halved(boxes, best, cut);
    SplitHere(was, all[..], boxes, boxes', best, ch, cut);
  }

  /** While there are fewer boxes than colours, one can be split. */
  method BestBox(all: seq<Weighted>, boxes: seq<Range>, ghost owner: seq<nat>) returns (best: nat, ch: nat)
    requires Tiling(boxes, owner, |all|) && |boxes| < |all|
    ensures BoxesFit(Stage(all, boxes)) && IsBest(all, boxes, best, ch)
  {
    var found;
    found, ch := FindBest(all, boxes);
    if found < 0 {
      Pigeonhole(boxes);
      assert false;
    }
    best := found;
  }

  /** One turn of the loop. */
  method SplitBest(all: array<Weighted>, boxes: seq<Range>, ghost owner: seq<nat>)
    returns (boxes': seq<Range>, ghost owner': seq<nat>)
    requires Tiling(boxes, owner, all.Length) && |boxes| < all.Length
    modifies all
    ensures Tiling(boxes', owner', all.Length) && |boxes'| == |boxes| + 1
    ensures multiset(all[..]) == old(multiset(all[..]))
    ensures IsSplit(Stage(old(all[..]), boxes), Stage(all[..], boxes'))
  {
    var best, ch := BestBox(all[..], boxes, owner);
    var cut;
    boxes', cut := SplitAt(all, boxes, best, ch);
    owner' := SplitOwner(owner, boxes[best].lo + cut, boxes[best].hi, |boxes|);
    StageSplits(boxes, boxes', owner, owner', best, cut);
  }

  lemma SplitHere(was: seq<Weighted>, now: seq<Weighted>, boxes: seq<Range>, boxes': seq<Range>, best: int, ch: nat, cut: nat)
    requires BoxesFit(Stage(was, boxes)) && IsBest(was, boxes, best, ch)
    requires var (lo, hi) := (boxes[best].lo, boxes[best].hi);
             && |now| == |was| && now[..lo] == was[..lo] && now[hi..] == was[hi..]
             && Ordered(now[lo..hi], ch) && multiset(now[lo..hi]) == multiset(was[lo..hi])
             && IsCut(now[lo..hi], cut) && boxes' == Halved(boxes, best, cut)
    ensures IsSplit(Stage(was, boxes), Stage(now, boxes'))
  {
    assert SplitsAt(Stage(was, boxes), Stage(now, boxes'), best, ch, cut);
  }

  lemma StageSplits(boxes: seq<Range>, boxes': seq<Range>, owner: seq<nat>, owner': seq<nat>, best: int, cut: nat)
    requires 0 <= best < |boxes| && Tiling(boxes, owner, |owner|)
    requires 0 < cut < boxes[best].hi - boxes[best].lo && boxes' == Halved(boxes, best, cut)
    requires owner' == SplitOwner(owner, boxes[best].lo + cut, boxes[best].hi, |boxes|)
    ensures Tiling(boxes', owner', |owner|)
  {
    SplitKeepsPartition(boxes, owner, best, boxes[best].lo + cut);
    SplitKeepsSizes(boxes, best, boxes[best].lo + cut);
  }

  /** The median cut of more colours than the palette holds. */
  method Cut(all: array<Weighted>) returns (boxes: seq<Range>, ghost owner: seq<nat>, ghost stages: seq<Stage>)
    requires PALETTE_SIZE < all.Length
    modifies all
    ensures Partition(boxes, owner) && |owner| == all.Length && |boxes| == PALETTE_SIZE
    ensures multiset(all[..]) == old(multiset(all[..]))
    ensures IsMedianCut(stages, old(all[..]), Stage(all[..], boxes))
  {
    boxes, owner := [Range(0, all.Length)], seq(all.Length, _ => 0);
    assert Sizes(boxes) == all.Length by { assert boxes[..0] == []; }
    stages := [Stage(all[..], boxes)];
    while |boxes| < PALETTE_SIZE
      invariant Tiling(boxes, owner, all.Length) && |boxes| <= PALETTE_SIZE
      invariant multiset(all[..]) == old(multiset(all[..]))
      invariant |stages| == |boxes| && AreSplits(stages, old(all[..]), Stage(all[..], boxes))
      decreases PALETTE_SIZE - |boxes|
    {
      ghost var before := Stage(all[..], boxes);
      boxes, owner := SplitBest(all, boxes, owner);
      OneSplitMore(stages, old(all[..]), before, Stage(all[..], boxes));
      stages := stages + [Stage(all[..], boxes)];
    }
  }

  // --- counting the colours

  ghost function Points(r: Rect): set<Point> {
    set x, y | r.minX <= x < r.maxX && r.minY <= y < r.maxY :: Point(x, y)
  }

  /** The pixels of one colour a scan has passed. */
  ghost function PassedIn(image: Image, x: int, y: int, c: Color): set<Point> {
    set p | p in Points(image.bounds) && image.bounds.Passed(x, y, p) && image.At(p) == c
  }

  ghost function PixelsOf(image: Image, c: Color): nat {
    |set p | p in Points(image.bounds) && image.At(p) == c|
  }

  /** How many pixels of the frames have a colour. */
  ghost function Pixels(frames: seq<Frame>, c: Color): nat {
    if frames == [] then 0
    else Pixels(frames[..|frames| - 1], c) + PixelsOf(frames[|frames| - 1].image, c)
  }

  function CountOf(counts: map<Color, nat>, c: Color): nat {
    if c in counts then counts[c] else 0
  }

  /** `counts` is right, and names no colour that is not there. */
  ghost predicate Counts(counts: map<Color, nat>, frames: seq<Frame>) {
    forall c :: (c in counts <==> 0 < Pixels(frames, c)) && CountOf(counts, c) == Pixels(frames, c)
  }

  /** The count part-way through the last frame's scan. */
  ghost predicate Counting(counts: map<Color, nat>, frames: seq<Frame>, image: Image, x: int, y: int) {
    forall c :: (c in counts <==> 0 < CountOf(counts, c))
             && CountOf(counts, c) == Pixels(frames, c) + |PassedIn(image, x, y, c)|
  }

  lemma PassOne(image: Image, p: Point, c: Color)
    requires image.bounds.Has(p)
    ensures |PassedIn(image, p.x + 1, p.y, c)| == |PassedIn(image, p.x, p.y, c)| + (if c == image.At(p) then 1 else 0)
  {
    var before, after := PassedIn(image, p.x, p.y, c), PassedIn(image, p.x + 1, p.y, c);
    assert p in Points(image.bounds) && p !in before;
    forall q ensures image.bounds.Passed(p.x + 1, p.y, q) <==> image.bounds.Passed(p.x, p.y, q) || q == p { PassedNext(image.bounds, p, q); }
    assert after == before + (if c == image.At(p) then {p} else {});
  }

  lemma PassedNext(r: Rect, p: Point, q: Point)
    requires r.Has(p)
    ensures r.Passed(p.x + 1, p.y, q) <==> r.Passed(p.x, p.y, q) || q == p
  {
  }

  lemma CountOne(counts: map<Color, nat>, frames: seq<Frame>, image: Image, p: Point)
    requires Counting(counts, frames, image, p.x, p.y) && image.bounds.Has(p)
    ensures var c := image.At(p);
            Counting(counts[c := CountOf(counts, c) + 1], frames, image, p.x + 1, p.y)
  {
    var d := image.At(p);
    var counts' := counts[d := CountOf(counts, d) + 1];
    forall c ensures (c in counts' <==> 0 < CountOf(counts', c))
                  && CountOf(counts', c) == Pixels(frames, c) + |PassedIn(image, p.x + 1, p.y, c)|
    {
      PassOne(image, p, c);
    }
  }

  lemma CountRow(counts: map<Color, nat>, frames: seq<Frame>, image: Image, y: int)
    requires Counting(counts, frames, image, Max(image.bounds.minX, image.bounds.maxX), y)
    ensures Counting(counts, frames, image, image.bounds.minX, y + 1)
  {
    forall c ensures PassedIn(image, image.bounds.minX, y + 1, c) == PassedIn(image, Max(image.bounds.minX, image.bounds.maxX), y, c) {
    }
  }

  lemma CountImage(counts: map<Color, nat>, frames: seq<Frame>, f: Frame, y: int)
    requires Counting(counts, frames, f.image, f.image.bounds.minX, y) && f.image.bounds.maxY <= y
    ensures Counts(counts, frames + [f])
  {
    assert (frames + [f])[..|frames|] == frames;
    forall c ensures PassedIn(f.image, f.image.bounds.minX, y, c) == (set p | p in Points(f.image.bounds) && f.image.At(p) == c) {
    }
  }

  lemma CountStart(counts: map<Color, nat>, frames: seq<Frame>, image: Image)
    requires Counts(counts, frames)
    ensures Counting(counts, frames, image, image.bounds.minX, image.bounds.minY)
  {
  }

  method CountFrame(known: map<Color, nat>, ghost frames: seq<Frame>, f: Frame) returns (counts: map<Color, nat>)
    requires Counts(known, frames)
    ensures Counts(counts, frames + [f])
  {
    counts := known;
    var image, b := f.image, f.image.bounds;
    CountStart(counts, frames, image);
    var y := b.minY;
    while y < b.maxY
      invariant b.minY <= y && Counting(counts, frames, image, b.minX, y)
      decreases b.maxY - y
    {
      var x := b.minX;
      while x < b.maxX
        invariant b.minX <= x <= Max(b.minX, b.maxX) && Counting(counts, frames, image, x, y)
        decreases b.maxX - x
      {
        var c := image.At(Point(x, y));
        CountOne(counts, frames, image, Point(x, y));
        counts := counts[c := CountOf(counts, c) + 1];
        x := x + 1;
      }
      CountRow(counts, frames, image, y);
      y := y + 1;
    }
    CountImage(counts, frames, f, y);
  }

  method CountColours(frames: seq<Frame>) returns (counts: map<Color, nat>)
    ensures Counts(counts, frames)
  {
    counts := map[];
    for i := 0 to |frames|
      invariant Counts(counts, frames[..i])
    {
      counts := CountFrame(counts, frames[..i], frames[i]);
      assert frames[..i + 1] == frames[..i] + [frames[i]];
    }
    assert frames[..|frames|] == frames;
  }

  // --- the palette

  /** The colours of the frames, each with its number of pixels, in some order. */
  ghost predicate Lists(all: seq<Weighted>, frames: seq<Frame>) {
    && (forall i :: 0 <= i < |all| ==> all[i].n == Pixels(frames, all[i].c) && 0 < all[i].n)
    && (forall c :: 0 < Pixels(frames, c) ==> exists i :: 0 <= i < |all| && all[i].c == c)
    && (forall i, j :: 0 <= i < j < |all| ==> all[i].c != all[j].c)
  }

  /** All but the colours of `todo` are listed. */
  ghost predicate Listed(all: seq<Weighted>, counts: map<Color, nat>, todo: set<Color>) {
    && todo <= counts.Keys && |all| + |todo| == |counts|
    && (forall i :: 0 <= i < |all| ==> all[i].c in counts && all[i].c !in todo && all[i].n == counts[all[i].c])
    && (forall c :: c in counts && c !in todo ==> exists i :: 0 <= i < |all| && all[i].c == c)
    && (forall i, j :: 0 <= i < j < |all| ==> all[i].c != all[j].c)
  }

  lemma ListOne(all: seq<Weighted>, counts: map<Color, nat>, todo: set<Color>, c: Color)
    requires Listed(all, counts, todo) && c in todo
    ensures Listed(all + [Weighted(c, counts[c])], counts, todo - {c})
  {
    var more := all + [Weighted(c, counts[c])];
    assert more[|all|].c == c;
    forall d | d in counts && d !in todo ensures exists i :: 0 <= i < |more| && more[i].c == d {
      var i :| 0 <= i < |all| && all[i].c == d;
      assert more[i].c == d;
    }
  }

  method ListColours(counts: map<Color, nat>, ghost frames: seq<Frame>) returns (all: seq<Weighted>)
    requires Counts(counts, frames)
    ensures Lists(all, frames) && |all| == |counts|
  {
    all := [];
    var todo := counts.Keys;
    while todo != {}
      invariant Listed(all, counts, todo)
      decreases |todo|
    {
      var c :| c in todo;
      ListOne(all, counts, todo, c);
      all := all + [Weighted(c, counts[c])];
      todo := todo - {c};
    }
  }

  /** Every palette entry is the average of its own box of a partition of the
      weighted colours, and so lies between that box's extremes. */
  ghost predicate Averages(pal: Palette, all: seq<Weighted>, boxes: seq<Range>, owner: seq<nat>) {
    && Partition(boxes, owner) && |owner| == |all| && |pal| == |boxes|
    && forall i :: 0 <= i < |pal| ==> AveragesBox(pal[i], all[boxes[i].lo..boxes[i].hi])
  }

  ghost predicate AveragesBox(c: Color, box: seq<Weighted>) {
    && 0 < Weight(box) && c.a == 255
    && c.r == Mass(box, 0) / Weight(box) && c.g == Mass(box, 1) / Weight(box) && c.b == Mass(box, 2) / Weight(box)
    && forall ch, lo, hi :: 0 <= ch < 3 && Between(box, ch, lo, hi) ==> lo <= Channel(c, ch) <= hi
  }

  method AverageBoxes(all: seq<Weighted>, boxes: seq<Range>, ghost owner: seq<nat>) returns (pal: Palette)
    requires Partition(boxes, owner) && |owner| == |all| && forall i :: 0 <= i < |all| ==> 0 < all[i].n
    ensures Averages(pal, all, boxes, owner)
  {
    pal := [];
    for i := 0 to |boxes|
      invariant |pal| == i
      invariant forall j :: 0 <= j < i ==> AveragesBox(pal[j], all[boxes[j].lo..boxes[j].hi])
    {
      var box := all[boxes[i].lo..boxes[i].hi];
      var c := Average(box);
      WeightIsPositive(box);
      pal := pal + [c];
    }
  }

  /** What the palette is made of. */
  datatype Provenance = Provenance(all: seq<Weighted>, boxes: seq<Range>, owner: seq<nat>, stages: seq<Stage>)

  /** The boxes are where a whole cut ended. */
  ghost predicate WasCut(from: Provenance) {
    from.stages != [] && IsMedianCut(from.stages, from.stages[0].all, Stage(from.all, from.boxes))
  }

  /** The cut of too many colours. */
  method CutPalette(list: seq<Weighted>, ghost frames: seq<Frame>) returns (pal: Palette, ghost from: Provenance)
    requires Lists(list, frames) && PALETTE_SIZE < |list|
    ensures Lists(from.all, frames) && |from.all| == |list| && |pal| == PALETTE_SIZE
    ensures Averages(pal, from.all, from.boxes, from.owner) && WasCut(from)
  {
    var a := new Weighted[|list|](i requires 0 <= i < |list| => list[i]);
    assert a[..] == list;
    var boxes; ghost var owner; ghost var stages;
    boxes, owner, stages := Cut(a);
    ReorderedLists(list, a[..], frames);
    pal := AverageBoxes(a[..], boxes, owner);
    from := Provenance(a[..], boxes, owner, stages);
  }

  /** `paletteOf`: every colour there is while they fit, otherwise exactly as
      many averages as the palette holds. */
  ghost predicate IsPalette(pal: Palette, frames: seq<Frame>, from: Provenance) {
    && Lists(from.all, frames)
    && if |from.all| <= PALETTE_SIZE
       then |pal| == |from.all| && forall i :: 0 <= i < |pal| ==> pal[i] == from.all[i].c
       else |pal| == PALETTE_SIZE && WasCut(from) && Averages(pal, from.all, from.boxes, from.owner)
  }

  ghost predicate IsPaletteOf(pal: Palette, frames: seq<Frame>) {
    exists from :: IsPalette(pal, frames, from)
  }

  method PaletteOf(frames: seq<Frame>) returns (pal: Palette)
    ensures IsPaletteOf(pal, frames)
  {
    var counts := CountColours(frames);
    var all := ListColours(counts, frames);
    ghost var from := Provenance(all, [], [], []);
    if |all| > PALETTE_SIZE {
      pal, from := CutPalette(all, frames);
    } else {
      pal := [];
      for i := 0 to |all|
        invariant |pal| == i && forall j :: 0 <= j < i ==> pal[j] == all[j].c
      {
        pal := pal + [all[i].c];
      }
    }
    assert IsPalette(pal, frames, from);
  }

  /** No more colours occur than the palette holds. */
  ghost predicate FewColours(frames: seq<Frame>) {
    exists all :: Lists(all, frames) && |all| <= PALETTE_SIZE
  }

  ghost function ColoursOf(all: seq<Weighted>): set<Color> {
    set w | w in all :: w.c
  }

  lemma {:induction false} ColoursAreCounted(all: seq<Weighted>)
    requires forall i, j :: 0 <= i < j < |all| ==> all[i].c != all[j].c
    ensures |ColoursOf(all)| == |all|
  {
    if all == [] {
      assert ColoursOf(all) == {};
    } else {
      var (rest, last) := (all[..|all| - 1], all[|all| - 1]);
      ColoursAreCounted(rest);
      assert forall w :: w in all <==> w in rest || w == last;
      assert ColoursOf(all) == ColoursOf(rest) + {last.c};
      assert last.c !in ColoursOf(rest);
    }
  }

  lemma ListsAreAlike(a: seq<Weighted>, b: seq<Weighted>, frames: seq<Frame>, c: Color)
    requires Lists(a, frames) && Lists(b, frames) && c in ColoursOf(a)
    ensures c in ColoursOf(b)
  {
    var w :| w in a && w.c == c;
    var i :| 0 <= i < |b| && b[i].c == c;
    assert b[i] in b;
  }

  /** However the colours are listed, there are as many. */
  lemma ListsAgree(a: seq<Weighted>, b: seq<Weighted>, frames: seq<Frame>)
    requires Lists(a, frames) && Lists(b, frames)
    ensures |a| == |b|
  {
    ColoursAreCounted(a);
    ColoursAreCounted(b);
    forall c | c in ColoursOf(a) ensures c in ColoursOf(b) { ListsAreAlike(a, b, frames, c); }
    forall c | c in ColoursOf(b) ensures c in ColoursOf(a) { ListsAreAlike(b, a, frames, c); }
    assert ColoursOf(a) == ColoursOf(b);
  }

  /** A colour some pixel has. */
  lemma {:induction false} PixelIsCounted(frames: seq<Frame>, i: nat, p: Point)
    requires i < |frames| && frames[i].image.bounds.Has(p)
    ensures 0 < Pixels(frames, frames[i].image.At(p))
  {
    var n := |frames| - 1;
    if i < n {
      PixelIsCounted(frames[..n], i, p);
    } else {
      var c := frames[i].image.At(p);
      var same := set q | q in Points(frames[i].image.bounds) && frames[i].image.At(q) == c;
      assert p in Points(frames[i].image.bounds);
      assert p in same;
    }
  }

  /** Every pixel's colour has its entry: itself while the colours fit, otherwise
      the average of the one box it ended up in. */
  lemma PaletteServes(pal: Palette, frames: seq<Frame>, i: nat, p: Point)
    requires IsPaletteOf(pal, frames) && i < |frames| && frames[i].image.bounds.Has(p)
    ensures 0 < |pal| <= PALETTE_SIZE
    ensures FewColours(frames) ==> frames[i].image.At(p) in pal
    ensures !FewColours(frames) ==>
              exists from, k :: IsPalette(pal, frames, from) && Served(pal, from, frames[i].image.At(p), k)
  {
    var from :| IsPalette(pal, frames, from);
    PixelIsCounted(frames, i, p);
    var k :| 0 <= k < |from.all| && from.all[k].c == frames[i].image.At(p);
    if FewColours(frames) {
      var all :| Lists(all, frames) && |all| <= PALETTE_SIZE;
      ListsAgree(all, from.all, frames);
      assert pal[k] == from.all[k].c;
    } else {
      assert |from.all| > PALETTE_SIZE;
      assert Owns(from.boxes[from.owner[k]], k, from.owner[k] == from.owner[k]);
      assert Served(pal, from, frames[i].image.At(p), k);
    }
  }

  /** Colour `c` is number `k`, and its box's entry is the average of that box. */
  ghost predicate Served(pal: Palette, from: Provenance, c: Color, k: nat) {
    && k < |from.all| == |from.owner| && from.all[k].c == c
    && from.owner[k] < |pal| == |from.boxes|
    && var box := from.boxes[from.owner[k]];
    && box.lo <= k < box.hi <= |from.all| && AveragesBox(pal[from.owner[k]], from.all[box.lo..box.hi])
  }

  lemma {:induction false} ReorderedLists(s: seq<Weighted>, t: seq<Weighted>, frames: seq<Frame>)
    requires Lists(s, frames) && multiset(s) == multiset(t)
    ensures Lists(t, frames) && |t| == |s|
  {
    assert |multiset(s)| == |s| && |multiset(t)| == |t|;
    forall i | 0 <= i < |t| ensures t[i].n == Pixels(frames, t[i].c) && 0 < t[i].n {
      assert t[i] in multiset(t);
      assert t[i] in s;
    }
    forall c | 0 < Pixels(frames, c) ensures exists i :: 0 <= i < |t| && t[i].c == c {
      var j :| 0 <= j < |s| && s[j].c == c;
      assert s[j] in multiset(s);
      assert s[j] in t;
      var i :| 0 <= i < |t| && t[i] == s[j];
    }
    forall i, j | 0 <= i < j < |t| ensures t[i].c != t[j].c {
      Twice(s, t, i, j, frames);
    }
  }

  lemma Twice(s: seq<Weighted>, t: seq<Weighted>, i: nat, j: nat, frames: seq<Frame>)
    requires Lists(s, frames) && multiset(s) == multiset(t) && i < j < |t|
    ensures t[i].c != t[j].c
  {
    assert t[i] in multiset(t) && t[j] in multiset(t);
    var k :| 0 <= k < |s| && s[k] == t[i];
    var l :| 0 <= l < |s| && s[l] == t[j];
    if t[i].c == t[j].c {
      assert k == l;
      Multiplicity(t, i, j);
      OnlyOnce(s, k);
    }
  }

  lemma Multiplicity(t: seq<Weighted>, i: nat, j: nat)
    requires i < j < |t| && t[i] == t[j]
    ensures multiset(t)[t[i]] >= 2
  {
    assert t == t[..j] + [t[j]] + t[j + 1..];
    assert t[i] == t[..j][i];
    assert t[i] in multiset(t[..j]);
  }

  lemma OnlyOnce(s: seq<Weighted>, k: nat)
    requires k < |s| && forall i, j :: 0 <= i < j < |s| ==> s[i].c != s[j].c
    ensures multiset(s)[s[k]] == 1
  {
    assert s == s[..k] + [s[k]] + s[k + 1..];
    assert s[k] !in s[..k] && s[k] !in s[k + 1..];
    assert multiset(s) == multiset(s[..k]) + multiset{s[k]} + multiset(s[k + 1..]);
  }

  // --- no pixel is lost

  ghost function Area(frames: seq<Frame>): nat {
    if frames == [] then 0 else Area(frames[..|frames| - 1]) + |Points(frames[|frames| - 1].image.bounds)|
  }

  ghost function PixelsIn(image: Image, colours: set<Color>): set<Point> {
    set p | p in Points(image.bounds) && image.At(p) in colours
  }

  /** The pixels of the frames whose colour is listed, colour by colour. */
  ghost function Covered(frames: seq<Frame>, all: seq<Weighted>): nat {
    if all == [] then 0 else Covered(frames, all[..|all| - 1]) + Pixels(frames, all[|all| - 1].c)
  }

  ghost function CoveredIn(image: Image, all: seq<Weighted>): nat {
    if all == [] then 0 else CoveredIn(image, all[..|all| - 1]) + PixelsOf(image, all[|all| - 1].c)
  }

  ghost predicate EachOnce(all: seq<Weighted>) {
    forall i, j :: 0 <= i < j < |all| ==> all[i].c != all[j].c
  }

  lemma OneColourMore(image: Image, colours: set<Color>, c: Color)
    requires c !in colours
    ensures |PixelsIn(image, colours + {c})| == |PixelsIn(image, colours)| + PixelsOf(image, c)
  {
    var here := set p | p in Points(image.bounds) && image.At(p) == c;
    assert PixelsIn(image, colours + {c}) == PixelsIn(image, colours) + here;
    assert PixelsIn(image, colours) !! here;
  }

  lemma {:induction false} CoveredIs(image: Image, all: seq<Weighted>)
    requires EachOnce(all)
    ensures CoveredIn(image, all) == |PixelsIn(image, ColoursOf(all))|
  {
    if all == [] {
      assert PixelsIn(image, ColoursOf(all)) == {};
    } else {
      var (rest, last) := (all[..|all| - 1], all[|all| - 1]);
      CoveredIs(image, rest);
      assert all == rest + [last];
      assert ColoursOf(all) == ColoursOf(rest) + {last.c};
      assert last.c !in ColoursOf(rest);
      OneColourMore(image, ColoursOf(rest), last.c);
    }
  }

  lemma {:induction false} CoveredPush(frames: seq<Frame>, f: Frame, all: seq<Weighted>)
    ensures Covered(frames + [f], all) == Covered(frames, all) + CoveredIn(f.image, all)
  {
    if all != [] {
      CoveredPush(frames, f, all[..|all| - 1]);
      assert (frames + [f])[..|frames|] == frames;
    }
  }

  lemma {:induction false} NothingCovered(all: seq<Weighted>)
    ensures Covered([], all) == 0
  {
    if all != [] { NothingCovered(all[..|all| - 1]); }
  }

  lemma PixelsGrow(frames: seq<Frame>, f: Frame, c: Color)
    ensures Pixels(frames + [f], c) == Pixels(frames, c) + PixelsOf(f.image, c)
  {
    assert (frames + [f])[..|frames|] == frames;
  }

  /** Every colour of the frames is listed. */
  ghost predicate ListsAll(all: seq<Weighted>, frames: seq<Frame>) {
    forall c :: 0 < Pixels(frames, c) ==> c in ColoursOf(all)
  }

  lemma SomePixel(image: Image, p: Point)
    requires p in Points(image.bounds)
    ensures 0 < PixelsOf(image, image.At(p))
  {
    var here := set q | q in Points(image.bounds) && image.At(q) == image.At(p);
    assert p in here;
    assert 0 < |here|;
  }

  lemma LastFrameCovered(frames: seq<Frame>, f: Frame, all: seq<Weighted>)
    requires EachOnce(all) && ListsAll(all, frames + [f])
    ensures CoveredIn(f.image, all) == |Points(f.image.bounds)|
  {
    CoveredIs(f.image, all);
    forall p | p in Points(f.image.bounds) ensures f.image.At(p) in ColoursOf(all) {
      var c := f.image.At(p);
      PixelsGrow(frames, f, c);
      SomePixel(f.image, p);
      assert 0 < Pixels(frames + [f], c);
    }
    assert PixelsIn(f.image, ColoursOf(all)) == Points(f.image.bounds);
  }

  lemma {:induction false} CoversAll(frames: seq<Frame>, all: seq<Weighted>)
    requires EachOnce(all) && ListsAll(all, frames)
    ensures Covered(frames, all) == Area(frames)
  {
    if frames == [] {
      NothingCovered(all);
    } else {
      var (rest, f) := (frames[..|frames| - 1], frames[|frames| - 1]);
      assert frames == rest + [f];
      forall c | 0 < Pixels(rest, c) ensures c in ColoursOf(all) { PixelsGrow(rest, f, c); }
      CoversAll(rest, all);
      CoveredPush(rest, f, all);
      LastFrameCovered(rest, f, all);
    }
  }

  lemma {:induction false} WeightIsCovered(frames: seq<Frame>, all: seq<Weighted>)
    requires forall i :: 0 <= i < |all| ==> all[i].n == Pixels(frames, all[i].c)
    ensures Weight(all) == Covered(frames, all)
  {
    if all != [] { WeightIsCovered(frames, all[..|all| - 1]); }
  }

  /** The colours listed weigh as much as the frames have pixels. */
  lemma WeightIsArea(all: seq<Weighted>, frames: seq<Frame>)
    requires Lists(all, frames)
    ensures Weight(all) == Area(frames)
  {
    WeightIsCovered(frames, all);
    forall c | 0 < Pixels(frames, c) ensures c in ColoursOf(all) {
      var i :| 0 <= i < |all| && all[i].c == c;
    }
    CoversAll(frames, all);
  }
}
