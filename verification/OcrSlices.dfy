/** Slicing a tall image into overlapping horizontal chunks for OCR. */
module OcrSlices {

  const SLICE_HEIGHT_THRESHOLD: nat := 2000
  const SLICE_OVERLAP: nat := 100

  /** The pixel rows from `start` up to but not including `end`. */
  datatype Slice = Slice(start: int, end: int)

  function Max(a: int, b: int): int {
    if a >= b then a else b
  }

  function Min(a: int, b: int): int {
    if a <= b then a else b
  }

  function SliceCount(h: nat, t: nat): nat
    requires t > 0
  {
    (h + t - 1) / t
  }

  function SliceAt(h: nat, t: nat, o: nat, i: nat): Slice
    requires t > 0
  {
    Slice(Max(0, i * t - if i > 0 then o else 0),
          Min(h, (i + 1) * t + if i < SliceCount(h, t) - 1 then o else 0))
  }

  /** The slice loop, for a threshold `t` and an overlap `o`. */
  method Slices(h: nat, t: nat, o: nat) returns (slices: seq<Slice>)
    requires t > 0
    ensures |slices| == SliceCount(h, t)
    ensures forall i :: 0 <= i < |slices| ==> slices[i] == SliceAt(h, t, o, i)
  {
    slices := [];
    var count := (h + t - 1) / t;
    for i := 0 to count
      invariant |slices| == i
      invariant forall j :: 0 <= j < i ==> slices[j] == SliceAt(h, t, o, j)
    {
      var yStart := i * t;
      if i > 0 {
        yStart := yStart - o;
      }
      var yEnd := (i + 1) * t;
      if i < count - 1 {
        yEnd := yEnd + o;
      }
      slices := slices + [Slice(Max(0, yStart), Min(h, yEnd))];
    }
  }

  /** The last slice begins before the bottom of the image, and the slices reach the bottom. */
  lemma CountIs(h: nat, t: nat)
    requires t > 0 && h > 0
    ensures var n := SliceCount(h, t); n >= 1 && (n - 1) * t < h <= n * t
  {
    var n := SliceCount(h, t);
    assert n * t == h + t - 1 - (h + t - 1) % t;
    assert (n - 1) * t == n * t - t;
  }

  lemma {:induction false} Monotone(a: int, b: int, t: nat)
    requires a <= b
    ensures a * t <= b * t
  {
    assert b * t - a * t == (b - a) * t;
  }

  predicate Inside(y: int, b: int, s: Slice) {
    s.start <= y && y + b <= s.end
  }

  /** Each slice is a non-empty piece of the image, at most two overlaps taller than the threshold. */
  lemma SliceFits(h: nat, t: nat, o: nat, i: nat)
    requires t > 0 && o <= t && h > 0 && i < SliceCount(h, t)
    ensures var s := SliceAt(h, t, o, i);
            0 <= s.start < s.end <= h && s.end - s.start <= t + 2 * o
  {
    var n := SliceCount(h, t);
    CountIs(h, t);
    Monotone(i, n - 1, t);
    assert (i + 1) * t == i * t + t;
    if i > 0 {
      Monotone(1, i, t);
    }
  }

  /** A band of at most `2 * o + 1` rows that starts in block `i` lies in slice `i` or the next. */
  lemma BandIn(h: nat, t: nat, o: nat, y: int, b: int, i: nat) returns (k: nat)
    requires t > 0 && o <= t && h > 0 && i < SliceCount(h, t)
    requires i * t <= y < (i + 1) * t && 0 <= b <= 2 * o + 1 && y + b <= h
    ensures k < SliceCount(h, t) && Inside(y, b, SliceAt(h, t, o, k))
  {
    var n := SliceCount(h, t);
    CountIs(h, t);
    k := i;
    assert (i + 1) * t == i * t + t;
    assert (i + 2) * t == i * t + t + t;
    if i == n - 1 {
      assert n * t == (i + 1) * t;
    } else if y + b > (i + 1) * t + o {
      k := i + 1;
    }
  }

  lemma BlockOf(y: nat, t: nat) returns (i: nat)
    requires t > 0
    ensures i * t <= y < (i + 1) * t && i == y / t
  {
    i := y / t;
    assert y == i * t + y % t;
    assert (i + 1) * t == i * t + t;
  }

  /** Some slice contains the whole band of `b` rows from `y` on. */
  ghost predicate Seen(h: nat, t: nat, o: nat, y: nat, b: nat)
    requires t > 0
  {
    exists k: nat :: k < SliceCount(h, t) && Inside(y, b, SliceAt(h, t, o, k))
  }

  /** Every band of at most `2 * o + 1` rows lies wholly inside at least one slice; with `b` = 1,
      the slices cover the image. */
  lemma BandsAreSeen(h: nat, t: nat, o: nat, y: nat, b: nat)
    requires t > 0 && o <= t && h > 0 && 1 <= b <= 2 * o + 1 && y + b <= h
    ensures Seen(h, t, o, y, b)
  {
    var n := SliceCount(h, t);
    CountIs(h, t);
    var i := BlockOf(y, t);
    if i >= n {
      Monotone(n, i, t);
      assert false;
    }
    var k := BandIn(h, t, o, y, b, i);
  }

  /** A taller band can fall between slices: this one starts just above the second slice and ends
      below the first. */
  lemma TallBandMissed(h: nat, t: nat, o: nat, b: nat) returns (y: nat)
    requires t > 0 && o < t && h > t + o && 2 * o + 2 <= b <= h
    ensures y + b <= h
    ensures !Seen(h, t, o, y, b)
  {
    y := Min(t - o - 1, h - b);
    CountIs(h, t);
    forall k: nat | k < SliceCount(h, t) ensures !Inside(y, b, SliceAt(h, t, o, k)) {
      if k > 0 {
        Monotone(1, k, t);
      }
    }
  }

  /** For an image taller than the first slice can be, every band of `b` rows is seen whole by some
      slice exactly when `b` is at most twice the overlap plus one. */
  lemma BandsSeenIff(h: nat, t: nat, o: nat, b: nat)
    requires t > 0 && o < t && h > t + o && 1 <= b <= h
    ensures (forall y: nat :: y + b <= h ==> Seen(h, t, o, y, b)) <==> b <= 2 * o + 1
  {
    if b <= 2 * o + 1 {
      forall y: nat | y + b <= h ensures Seen(h, t, o, y, b) {
        BandsAreSeen(h, t, o, y, b);
      }
    } else {
      var y := TallBandMissed(h, t, o, b);
      assert y + b <= h && !Seen(h, t, o, y, b);
    }
  }

  /** With the program's threshold and overlap, an image of more than 2100 rows is sliced so that
      every band of 201 rows is seen whole, and some band of 202 rows is not. */
  lemma ProgramBands(h: nat)
    requires h > 2100
    ensures forall y: nat :: y + 201 <= h ==> Seen(h, SLICE_HEIGHT_THRESHOLD, SLICE_OVERLAP, y, 201)
    ensures exists y: nat :: y + 202 <= h && !Seen(h, SLICE_HEIGHT_THRESHOLD, SLICE_OVERLAP, y, 202)
  {
    BandsSeenIff(h, SLICE_HEIGHT_THRESHOLD, SLICE_OVERLAP, 201);
    BandsSeenIff(h, SLICE_HEIGHT_THRESHOLD, SLICE_OVERLAP, 202);
  }
}
