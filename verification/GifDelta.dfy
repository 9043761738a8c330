/** The recorder's GIF encoder: one palette, and each frame after the first
    stored as the rectangle that changed. */
module GifDelta {
  import opened Images
  import MedianCut
  import opened Options

  function Min(a: int, b: int): int {
    if a < b then a else b
  }

  function Max(a: int, b: int): int {
    if a > b then a else b
  }

  ghost predicate Differs(a: Image, b: Image, p: Point) {
    b.bounds.Has(p) && a.At(p) != b.At(p)
  }

  /** A change the scan notices: it takes a largest column below zero for none. */
  ghost predicate Noticed(a: Image, b: Image) {
    exists p :: Differs(a, b, p) && 0 <= p.x
  }

  /** `r` holds every change, and no side of it can be moved in, except for the
      lower one, at row zero, when every change lies above row -1. */
  ghost predicate Encloses(a: Image, b: Image, r: Rect) {
    && (forall p :: Differs(a, b, p) ==> r.Has(p))
    && (exists p :: Differs(a, b, p) && p.x == r.minX)
    && (exists p :: Differs(a, b, p) && p.y == r.minY)
    && (exists p :: Differs(a, b, p) && p.x == r.maxX - 1)
    && ((exists p :: Differs(a, b, p) && -1 <= p.y) <==> (exists p :: Differs(a, b, p) && p.y == r.maxY - 1))
    && ((forall p :: Differs(a, b, p) ==> p.y < -1) ==> r.maxY == 0)
  }

  /** The extremes seen so far, inclusive. */
  datatype Extent = Extent(minX: int, minY: int, maxX: int, maxY: int) {
    predicate Holds(p: Point) {
      minX <= p.x <= maxX && minY <= p.y <= maxY
    }

    function Grown(p: Point): Extent {
      Extent(Min(minX, p.x), Min(minY, p.y), Max(maxX, p.x), Max(maxY, p.y))
    }
  }

  /** Where each extreme was seen. */
  datatype Sides = Sides(left: Point, top: Point, right: Point, bottom: Point)

  /** What the scan has established when it stands at column `x` of row `y`. */
  ghost predicate Scanned(a: Image, b: Image, x: int, y: int, e: Extent, at: Sides) {
    && (forall p :: Differs(a, b, p) && b.bounds.Passed(x, y, p) ==> e.Holds(p))
    && Seen(a, b, e, at)
  }

  ghost predicate Seen(a: Image, b: Image, e: Extent, at: Sides) {
    && (e.minX < b.bounds.maxX ==> Differs(a, b, at.left) && at.left.x == e.minX)
    && (e.minY < b.bounds.maxY ==> Differs(a, b, at.top) && at.top.y == e.minY)
    && (e.maxX != -1 ==> Differs(a, b, at.right) && at.right.x == e.maxX)
    && (e.maxY != -1 ==> Differs(a, b, at.bottom) && at.bottom.y == e.maxY)
    && e.minX <= b.bounds.maxX && e.minY <= b.bounds.maxY && -1 <= e.maxX && -1 <= e.maxY
  }

  ghost function Sighted(e: Extent, at: Sides, p: Point): Sides {
    Sides(if p.x < e.minX then p else at.left, if p.y < e.minY then p else at.top,
          if p.x > e.maxX then p else at.right, if p.y > e.maxY then p else at.bottom)
  }

  lemma LookAt(a: Image, b: Image, p: Point, e: Extent, at: Sides)
    requires Scanned(a, b, p.x, p.y, e, at) && b.bounds.Has(p)
    ensures Differs(a, b, p) ==> Scanned(a, b, p.x + 1, p.y, e.Grown(p), Sighted(e, at, p))
    ensures !Differs(a, b, p) ==> Scanned(a, b, p.x + 1, p.y, e, at)
  {
    forall q | Differs(a, b, q) && b.bounds.Passed(p.x + 1, p.y, q)
      ensures Differs(a, b, p) ==> e.Grown(p).Holds(q)
      ensures !Differs(a, b, p) ==> e.Holds(q)
    {
      assert q == p || b.bounds.Passed(p.x, p.y, q);
    }
  }

  lemma NextRow(a: Image, b: Image, y: int, e: Extent, at: Sides)
    requires Scanned(a, b, Max(b.bounds.minX, b.bounds.maxX), y, e, at)
    ensures Scanned(a, b, b.bounds.minX, y + 1, e, at)
  {
  }

  lemma ScanEnds(a: Image, b: Image, y: int, e: Extent, at: Sides)
    requires Scanned(a, b, b.bounds.minX, y, e, at) && b.bounds.maxY <= y
    ensures 0 <= e.maxX <==> Noticed(a, b)
    ensures 0 <= e.maxX ==> Encloses(a, b, Rect(e.minX, e.minY, e.maxX + 1, e.maxY + 1))
  {
  }

  /** `diff`. */
  method Diff(a: Image, b: Image) returns (changed: Option<Rect>)
    ensures changed.Some? <==> Noticed(a, b)
    ensures changed.Some? ==> Encloses(a, b, changed.value)
  {
    var bounds := b.bounds;
    var e := Extent(bounds.maxX, bounds.maxY, -1, -1);
    ghost var origin := Point(0, 0);
    ghost var at := Sides(origin, origin, origin, origin);
    var y := bounds.minY;
    while y < bounds.maxY
      invariant bounds.minY <= y && Scanned(a, b, bounds.minX, y, e, at)
      decreases bounds.maxY - y
    {
      var x := bounds.minX;
      while x < bounds.maxX
        invariant bounds.minX <= x <= Max(bounds.minX, bounds.maxX) && Scanned(a, b, x, y, e, at)
        decreases bounds.maxX - x
      {
        var p := Point(x, y);
        LookAt(a, b, p, e, at);
        if a.At(p) != b.At(p) {
          at := Sighted(e, at, p);
          e := e.Grown(p);
        }
        x := x + 1;
      }
      NextRow(a, b, y, e, at);
      y := y + 1;
    }
    ScanEnds(a, b, y, e, at);
    changed := if e.maxX < 0 then None else Some(Rect(e.minX, e.minY, e.maxX + 1, e.maxY + 1));
  }

  // --- the encoder

  /** One stored image: palette indices over a rectangle, shown over what was
      there before. */
  datatype Patch = Patch(rect: Rect, indices: map<Point, nat>)

  datatype Gif = Gif(patches: seq<Patch>, delays: seq<int>)

  /** The last patch stays up longer. */
  function Prolonged(out: Gif, delay: int): Gif
    requires out.delays != []
  {
    var last := |out.delays| - 1;
    Gif(out.patches, out.delays[last := out.delays[last] + delay])
  }

  /** `patch` is `rect` of the image, each pixel as its palette index. */
  ghost predicate Stores(patch: Patch, image: Image, rect: Rect, pal: Palette, index: (Palette, Color) -> nat) {
    && patch.rect == rect
    && (forall p :: p in patch.indices <==> rect.Has(p))
    && (forall p :: p in patch.indices ==> patch.indices[p] == index(pal, image.At(p)))
  }

  /** What the decoder shows after drawing some patches in order. */
  ghost function Shown(patches: seq<Patch>): map<Point, nat> {
    if patches == [] then map[] else Shown(patches[..|patches| - 1]) + patches[|patches| - 1].indices
  }

  /** The screen shows the image, pixel for pixel as the palette has it. */
  ghost predicate Shows(screen: map<Point, nat>, image: Image, pal: Palette, index: (Palette, Color) -> nat) {
    forall p :: image.bounds.Has(p) ==> p in screen && screen[p] == index(pal, image.At(p))
  }

  /** The cache of indices looked up before. */
  ghost predicate Recalls(lookup: map<Color, nat>, pal: Palette, index: (Palette, Color) -> nat) {
    forall c :: c in lookup ==> lookup[c] == index(pal, c)
  }

  ghost predicate Filled(rect: Rect, x: int, y: int, indices: map<Point, nat>, image: Image, pal: Palette, index: (Palette, Color) -> nat) {
    && (forall p :: p in indices <==> rect.Passed(x, y, p))
    && (forall p :: p in indices ==> indices[p] == index(pal, image.At(p)))
  }

  lemma FillOne(rect: Rect, p: Point, indices: map<Point, nat>, image: Image, pal: Palette, index: (Palette, Color) -> nat)
    requires Filled(rect, p.x, p.y, indices, image, pal, index) && rect.Has(p)
    ensures Filled(rect, p.x + 1, p.y, indices[p := index(pal, image.At(p))], image, pal, index)
  {
  }

  lemma FillRow(rect: Rect, y: int, indices: map<Point, nat>, image: Image, pal: Palette, index: (Palette, Color) -> nat)
    requires Filled(rect, Max(rect.minX, rect.maxX), y, indices, image, pal, index)
    ensures Filled(rect, rect.minX, y + 1, indices, image, pal, index)
  {
  }

  /** Palettises one rectangle of an image. An index is kept in eight bits. */
  method Palettise(image: Image, rect: Rect, pal: Palette, index: (Palette, Color) -> nat, known: map<Color, nat>)
    returns (patch: Patch, lookup: map<Color, nat>)
    requires Matches(index) && |pal| <= 256 && Recalls(known, pal, index)
    requires forall p :: rect.Has(p) ==> pal != []
    ensures Stores(patch, image, rect, pal, index) && Recalls(lookup, pal, index)
  {
    lookup := known;
    var indices: map<Point, nat> := map[];
    var y := rect.minY;
    while y < rect.maxY
      invariant rect.minY <= y <= Max(rect.minY, rect.maxY)
      invariant Filled(rect, rect.minX, y, indices, image, pal, index) && Recalls(lookup, pal, index)
      decreases rect.maxY - y
    {
      var x := rect.minX;
      while x < rect.maxX
        invariant rect.minX <= x <= Max(rect.minX, rect.maxX)
        invariant Filled(rect, x, y, indices, image, pal, index) && Recalls(lookup, pal, index)
        decreases rect.maxX - x
      {
        var p := Point(x, y);
        var c := image.At(p);
        assert rect.Has(p);
        if c !in lookup {
          assert MatchesAt(index, pal, c);
          lookup := lookup[c := index(pal, c) % 256];
        }
        FillOne(rect, p, indices, image, pal, index);
        indices := indices[p := lookup[c]];
        x := x + 1;
      }
      FillRow(rect, y, indices, image, pal, index);
      y := y + 1;
    }
    patch := Patch(rect, indices);
  }

  /** Frames the recorder makes: all over one rectangle, right of column zero. */
  ghost predicate Regular(frames: seq<Frame>) {
    forall i :: 0 <= i < |frames| ==>
      frames[i].image.bounds == frames[0].image.bounds && 0 <= frames[i].image.bounds.minX
  }

  /** Drawing a patch of what changed turns the old picture into the new one. */
  lemma PatchTurnsIntoNext(screen: map<Point, nat>, a: Image, b: Image, patch: Patch, rect: Rect, pal: Palette, index: (Palette, Color) -> nat)
    requires a.bounds == b.bounds && Shows(screen, a, pal, index) && Stores(patch, b, rect, pal, index)
    requires forall p :: Differs(a, b, p) ==> rect.Has(p)
    ensures Shows(screen + patch.indices, b, pal, index)
  {
  }

  /** Where nothing is noticed right of column zero, nothing changed. */
  lemma UnnoticedIsUnchanged(screen: map<Point, nat>, a: Image, b: Image, pal: Palette, index: (Palette, Color) -> nat)
    requires a.bounds == b.bounds && 0 <= b.bounds.minX && Shows(screen, a, pal, index) && !Noticed(a, b)
    ensures Shows(screen, b, pal, index)
  {
  }

  function Sum(xs: seq<int>): int {
    if xs == [] then 0 else Sum(xs[..|xs| - 1]) + xs[|xs| - 1]
  }

  function Delays(frames: seq<Frame>): seq<int> {
    seq(|frames|, i requires 0 <= i < |frames| => frames[i].delay)
  }

  /** The time the input gives to the frames shown by patch number `k`. */
  ghost function Held(frames: seq<Frame>, upto: seq<nat>, k: nat): int
    requires |upto| == |frames|
  {
    if frames == [] then 0
    else
      var n := |frames| - 1;
      Held(frames[..n], upto[..n], k) + (if upto[n] == k then frames[n].delay else 0)
  }

  /** From one to `total`, one more or none at a time. */
  ghost predicate Climbs(upto: seq<nat>, total: nat) {
    && (forall i :: 0 <= i < |upto| ==> 1 <= upto[i] <= total)
    && (upto == [] ==> total == 0)
    && (upto != [] ==> upto[0] == 1 && upto[|upto| - 1] == total)
    && (forall i :: 0 < i < |upto| ==> upto[i - 1] <= upto[i] <= upto[i - 1] + 1)
  }

  lemma ClimbsOn(upto: seq<nat>, total: nat, next: nat)
    requires Climbs(upto, total) && (next == total + 1 || (next == total && upto != []))
    ensures Climbs(upto + [next], next)
  {
  }

  /** How the output plays the input: after input frame `i`, the first `upto[i]`
      patches have been drawn, one more or none with each frame, and each patch
      stays up as long as the frames it stands for together. */
  ghost predicate Timed(frames: seq<Frame>, out: Gif, upto: seq<nat>) {
    && |upto| == |frames| && |out.patches| == |out.delays|
    && Climbs(upto, |out.patches|)
    && (forall j :: 0 <= j < |out.delays| ==> out.delays[j] == Held(frames, upto, j + 1))
    && Sum(out.delays) == Sum(Delays(frames))
  }

  /** Replaying shows, after each input frame, exactly that frame. */
  ghost predicate Replays(frames: seq<Frame>, out: Gif, upto: seq<nat>, pal: Palette, index: (Palette, Color) -> nat)
    requires |upto| == |frames| && forall i :: 0 <= i < |upto| ==> upto[i] <= |out.patches|
  {
    forall i :: 0 <= i < |frames| ==> Shows(Shown(out.patches[..upto[i]]), frames[i].image, pal, index)
  }

  lemma {:induction false} NothingHeldBeyond(frames: seq<Frame>, upto: seq<nat>, k: nat)
    requires |upto| == |frames| && forall i :: 0 <= i < |upto| ==> upto[i] != k
    ensures Held(frames, upto, k) == 0
  {
    if frames != [] { NothingHeldBeyond(frames[..|frames| - 1], upto[..|frames| - 1], k); }
  }

  lemma SumPush(xs: seq<int>, x: int)
    ensures Sum(xs + [x]) == Sum(xs) + x
  {
  }

  lemma SumBumpLast(xs: seq<int>, x: int)
    requires xs != []
    ensures Sum(xs[|xs| - 1 := xs[|xs| - 1] + x]) == Sum(xs) + x
  {
  }

  lemma HeldPush(frames: seq<Frame>, upto: seq<nat>, f: Frame, u: nat, k: nat)
    requires |upto| == |frames|
    ensures Held(frames + [f], upto + [u], k) == Held(frames, upto, k) + (if u == k then f.delay else 0)
  {
  }

  lemma DelaysPush(frames: seq<Frame>, f: Frame)
    ensures Sum(Delays(frames + [f])) == Sum(Delays(frames)) + f.delay
  {
    assert Delays(frames + [f]) == Delays(frames) + [f.delay];
    SumPush(Delays(frames), f.delay);
  }

  /** A frame like the one before: the last delay grows. */
  lemma TimedHold(frames: seq<Frame>, out: Gif, upto: seq<nat>, f: Frame)
    requires Timed(frames, out, upto) && frames != []
    ensures var n := |out.delays| - 1;
            Timed(frames + [f], Gif(out.patches, out.delays[n := out.delays[n] + f.delay]), upto + [|out.patches|])
  {
    var n := |out.delays| - 1;
    ClimbsOn(upto, |out.patches|, |out.patches|);
    SumBumpLast(out.delays, f.delay);
    DelaysPush(frames, f);
    var delays := out.delays[n := out.delays[n] + f.delay];
    forall j | 0 <= j < |delays| ensures delays[j] == Held(frames + [f], upto + [|out.patches|], j + 1)
    {
      HeldPush(frames, upto, f, |out.patches|, j + 1);
    }
  }

  /** A frame that changed: a patch and its delay are added. */
  lemma TimedPush(frames: seq<Frame>, out: Gif, upto: seq<nat>, f: Frame, patch: Patch)
    requires Timed(frames, out, upto)
    ensures Timed(frames + [f], Gif(out.patches + [patch], out.delays + [f.delay]), upto + [|out.patches| + 1])
  {
    var n := |out.patches|;
    ClimbsOn(upto, n, n + 1);
    SumPush(out.delays, f.delay);
    DelaysPush(frames, f);
    NothingHeldBeyond(frames, upto, n + 1);
    var delays := out.delays + [f.delay];
    forall j | 0 <= j < |delays| ensures delays[j] == Held(frames + [f], upto + [n + 1], j + 1)
    {
      HeldPush(frames, upto, f, n + 1, j + 1);
    }
  }

  lemma ReplaysPush(frames: seq<Frame>, out: Gif, upto: seq<nat>, f: Frame, out': Gif, k: nat, pal: Palette, index: (Palette, Color) -> nat)
    requires |upto| == |frames| && (forall i :: 0 <= i < |upto| ==> upto[i] <= |out.patches|) && out.patches <= out'.patches
    requires Replays(frames, out, upto, pal, index) && k == |out'.patches|
    requires Shows(Shown(out'.patches), f.image, pal, index)
    ensures Replays(frames + [f], out', upto + [k], pal, index)
  {
    var (fs, us) := (frames + [f], upto + [k]);
    forall i | 0 <= i < |fs| ensures Shows(Shown(out'.patches[..us[i]]), fs[i].image, pal, index) {
      if i < |frames| {
        assert out'.patches[..us[i]] == out.patches[..upto[i]];
      } else {
        assert out'.patches[..us[i]] == out'.patches;
      }
    }
  }

  /** There is a colour to paint any pixel with. */
  ghost predicate Paintable(frames: seq<Frame>, pal: Palette) {
    forall i, p :: 0 <= i < |frames| && frames[i].image.bounds.Has(p) ==> pal != []
  }

  /** What the loop has done after `n` frames. */
  ghost predicate Encoded(frames: seq<Frame>, n: nat, prev: Option<Image>, out: Gif, upto: seq<nat>, pal: Palette, index: (Palette, Color) -> nat)
    requires n <= |frames|
  {
    && Timed(frames[..n], out, upto) && (prev.None? <==> n == 0)
    && (Regular(frames) ==> Replays(frames[..n], out, upto, pal, index))
    && (Regular(frames) && prev.Some? ==>
          prev.value.bounds == frames[0].image.bounds && Shows(Shown(out.patches), prev.value, pal, index))
  }

  lemma ChangeIsPaintable(frames: seq<Frame>, n: nat, prev: Image, pal: Palette)
    requires n < |frames| && Paintable(frames, pal) && Noticed(prev, frames[n].image)
    ensures pal != []
  {
  }

  /** The end of a turn: the rectangle becomes a patch with its delay. */
  method AddPatch(frames: seq<Frame>, n: nat, ghost prev: Option<Image>, out: Gif, rect: Rect, pal: Palette,
                  index: (Palette, Color) -> nat, known: map<Color, nat>, ghost upto: seq<nat>)
    returns (out': Gif, lookup: map<Color, nat>, ghost upto': seq<nat>)
    requires Matches(index) && |pal| <= 256 && Recalls(known, pal, index)
    requires n < |frames| && Encoded(frames, n, prev, out, upto, pal, index) && Paintable(frames, pal)
    requires if prev.Some? then Noticed(prev.value, frames[n].image) && Encloses(prev.value, frames[n].image, rect) else rect == frames[n].image.bounds
    ensures Encoded(frames, n + 1, Some(frames[n].image), out', upto', pal, index) && Recalls(lookup, pal, index)
  {
    if prev.Some? { ChangeIsPaintable(frames, n, prev.value, pal); }
    var patch;
    patch, lookup := Palettise(frames[n].image, rect, pal, index, known);
    PushStep(frames, n, prev, out, upto, patch, rect, pal, index);
    out', upto' := Gif(out.patches + [patch], out.delays + [frames[n].delay]), upto + [|out.patches| + 1];
  }

  /** One turn of the loop of `WriteGIF`. */
  method AddFrame(frames: seq<Frame>, n: nat, prev: Option<Image>, out: Gif, pal: Palette, index: (Palette, Color) -> nat,
                  known: map<Color, nat>, ghost upto: seq<nat>)
    returns (prev': Option<Image>, out': Gif, lookup: map<Color, nat>, ghost upto': seq<nat>)
    requires Matches(index) && |pal| <= 256 && Paintable(frames, pal) && Recalls(known, pal, index)
    requires n < |frames| && Encoded(frames, n, prev, out, upto, pal, index)
    ensures Encoded(frames, n + 1, prev', out', upto', pal, index) && Recalls(lookup, pal, index)
  {
    var f := frames[n];
    var rect := f.image.bounds;
    if prev.Some? {
      var changed := Diff(prev.value, f.image);
      if changed.None? {
        HoldStep(frames, n, prev.value, out, upto, pal, index);
        return prev, Prolonged(out, f.delay), known, upto + [|out.patches|];
      }
      rect := changed.value;
    }
    prev' := Some(f.image);
    out', lookup, upto' := AddPatch(frames, n, prev, out, rect, pal, index, known, upto);
  }

  /** The patches are timed, and replay: `upto[i]` of them are drawn by frame `i`. */
  ghost predicate Faithful(frames: seq<Frame>, out: Gif, upto: seq<nat>, pal: Palette, index: (Palette, Color) -> nat) {
    Timed(frames, out, upto) && (Regular(frames) ==> Replays(frames, out, upto, pal, index))
  }

  /** The loop of `WriteGIF`, with the palette chosen. */
  method Encode(frames: seq<Frame>, pal: Palette, index: (Palette, Color) -> nat) returns (out: Gif)
    requires Matches(index) && |pal| <= 256 && Paintable(frames, pal)
    ensures exists upto :: Faithful(frames, out, upto, pal, index)
  {
    out := Gif([], []);
    ghost var upto: seq<nat> := [];
    var lookup: map<Color, nat> := map[];
    var prev: Option<Image> := None;
    var n := 0;
    while n < |frames|
      invariant n <= |frames| && Encoded(frames, n, prev, out, upto, pal, index) && Recalls(lookup, pal, index)
    {
      prev, out, lookup, upto := AddFrame(frames, n, prev, out, pal, index, lookup, upto);
      n := n + 1;
    }
    assert frames[..n] == frames;
    assert Faithful(frames, out, upto, pal, index);
  }

  lemma HoldStep(frames: seq<Frame>, n: nat, prev: Image, out: Gif, upto: seq<nat>, pal: Palette, index: (Palette, Color) -> nat)
    requires n < |frames| && Encoded(frames, n, Some(prev), out, upto, pal, index) && !Noticed(prev, frames[n].image)
    ensures out.delays != []
    ensures Encoded(frames, n + 1, Some(prev), Prolonged(out, frames[n].delay), upto + [|out.patches|], pal, index)
  {
    var f := frames[n];
    assert frames[..n + 1] == frames[..n] + [f];
    TimedHold(frames[..n], out, upto, f);
    if Regular(frames) {
      UnnoticedIsUnchanged(Shown(out.patches), prev, f.image, pal, index);
      ReplaysPush(frames[..n], out, upto, f, Prolonged(out, f.delay), |out.patches|, pal, index);
    }
  }

  lemma PushStep(frames: seq<Frame>, n: nat, prev: Option<Image>, out: Gif, upto: seq<nat>, patch: Patch, rect: Rect, pal: Palette, index: (Palette, Color) -> nat)
    requires n < |frames| && Encoded(frames, n, prev, out, upto, pal, index)
    requires Stores(patch, frames[n].image, rect, pal, index)
    requires if prev.Some? then Encloses(prev.value, frames[n].image, rect) else rect == frames[n].image.bounds
    ensures var out' := Gif(out.patches + [patch], out.delays + [frames[n].delay]);
            Encoded(frames, n + 1, Some(frames[n].image), out', upto + [|out.patches| + 1], pal, index)
  {
    var f := frames[n];
    assert frames[..n + 1] == frames[..n] + [f];
    TimedPush(frames[..n], out, upto, f, patch);
    if Regular(frames) {
      DrawnShows(prev, out.patches, f.image, patch, rect, pal, index);
      ReplaysPush(frames[..n], out, upto, f, Gif(out.patches + [patch], out.delays + [f.delay]), |out.patches| + 1, pal, index);
    }
  }

  lemma DrawnShows(prev: Option<Image>, patches: seq<Patch>, image: Image, patch: Patch, rect: Rect, pal: Palette, index: (Palette, Color) -> nat)
    requires Stores(patch, image, rect, pal, index)
    requires if prev.Some? then Encloses(prev.value, image, rect) else rect == image.bounds
    requires prev.Some? ==> prev.value.bounds == image.bounds && Shows(Shown(patches), prev.value, pal, index)
    ensures Shows(Shown(patches + [patch]), image, pal, index)
  {
    assert (patches + [patch])[..|patches|] == patches;
    assert Shown(patches + [patch]) == Shown(patches) + patch.indices;
    if prev.Some? {
      PatchTurnsIntoNext(Shown(patches), prev.value, image, patch, rect, pal, index);
    }
  }

  /** `WriteGIF`, up to writing the file: the replay shows every frame as the
      palette has it, which is exactly as it was while the colours fit. */
  method WriteGif(frames: seq<Frame>, index: (Palette, Color) -> nat) returns (out: Gif, pal: Palette)
    requires Matches(index)
    ensures MedianCut.IsPaletteOf(pal, frames)
    ensures exists upto ::
              && Faithful(frames, out, upto, pal, index)
              && (Regular(frames) && MedianCut.FewColours(frames) ==> ReplaysExactly(frames, out, upto, pal))
  {
    pal := MedianCut.PaletteOf(frames);
    forall i, p | 0 <= i < |frames| && frames[i].image.bounds.Has(p) ensures pal != [] {
      MedianCut.PaletteServes(pal, frames, i, p);
    }
    out := Encode(frames, pal, index);
    ghost var upto :| Faithful(frames, out, upto, pal, index);
    if Regular(frames) && MedianCut.FewColours(frames) {
      FittingIsExact(frames, out, upto, pal, index);
    }
  }

  /** Each frame comes back colour for colour. */
  ghost predicate ReplaysExactly(frames: seq<Frame>, out: Gif, upto: seq<nat>, pal: Palette)
    requires |upto| == |frames| && forall i :: 0 <= i < |upto| ==> upto[i] <= |out.patches|
  {
    forall i, p :: 0 <= i < |frames| && frames[i].image.bounds.Has(p) ==>
      var screen := Shown(out.patches[..upto[i]]);
      p in screen && screen[p] < |pal| && pal[screen[p]] == frames[i].image.At(p)
  }

  lemma FittingIsExact(frames: seq<Frame>, out: Gif, upto: seq<nat>, pal: Palette, index: (Palette, Color) -> nat)
    requires Matches(index) && MedianCut.IsPaletteOf(pal, frames) && MedianCut.FewColours(frames)
    requires |upto| == |frames| && (forall i :: 0 <= i < |upto| ==> upto[i] <= |out.patches|)
    requires Replays(frames, out, upto, pal, index)
    ensures ReplaysExactly(frames, out, upto, pal)
  {
    forall i, p | 0 <= i < |frames| && frames[i].image.bounds.Has(p)
      ensures var screen := Shown(out.patches[..upto[i]]);
              p in screen && screen[p] < |pal| && pal[screen[p]] == frames[i].image.At(p)
    {
      MedianCut.PaletteServes(pal, frames, i, p);
      assert MatchesAt(index, pal, frames[i].image.At(p));
      assert Shows(Shown(out.patches[..upto[i]]), frames[i].image, pal, index);
    }
  }

  /** A change left of column zero is not noticed: the condition on the bounds
      is needed. */
  lemma LeftOfZeroIsMissed(c: Color, d: Color) returns (a: Image, b: Image)
    requires c != d
    ensures a.bounds == b.bounds && a.At(Point(-1, 0)) != b.At(Point(-1, 0)) && b.bounds.Has(Point(-1, 0))
    ensures !Noticed(a, b)
  {
    var p := Point(-1, 0);
    var bounds := Rect(-1, 0, 0, 1);
    a, b := Image(bounds, map[p := c]), Image(bounds, map[p := d]);
    forall q ensures !(Differs(a, b, q) && 0 <= q.x) {
    }
  }

  /** With every change above row -1 the rectangle is not the smallest: its lower
      side stays at row zero. */
  lemma LowerSideIsLoose(c: Color, d: Color) returns (a: Image, b: Image, smallest: Rect)
    requires c != d
    ensures Noticed(a, b) && !Encloses(a, b, smallest)
    ensures forall p :: Differs(a, b, p) <==> smallest.Has(p)
  {
    var p := Point(0, -2);
    smallest := Rect(0, -2, 1, -1);
    a, b := Image(smallest, map[p := c]), Image(smallest, map[p := d]);
    assert Differs(a, b, p);
    forall q ensures Differs(a, b, q) <==> smallest.Has(q) {
      assert smallest.Has(q) ==> q == p;
    }
  }
}
