/**
 * ColorFinder: the main colour of a bitmap by coarse-to-fine weighted bucketing.
 * A per-colour statistics table (count over the whole image, saturation weight) is built once;
 * then four passes at right-shifts 6, 4, 2, 0 bucket the sampled pixels by their shifted
 * colour, each pass admitting only the pixels that fall in the previous pass's winning bucket.
 * HashMaps are map values that the methods reassign.
 */
module ColorFinder {
  import opened Rgb
  import opened Results
  import opened ShiftedColors
  import opened SaturationWeight

  /** Above this many pixels the passes sample every second pixel on both axes. */
  const SampleThreshold: int := 180 * 180

  /** The shifts of the four passes, in order. */
  const Shifts: seq<int> := [6, 4, 2, 0]

  /** ColorStats: how many pixels have the colour, and the colour's weight. */
  datatype ColorStats = ColorStats(count: nat, weight: real)

  datatype ColorError = EmptyImage

  /** A decoded bitmap: `pixels[y][x]` is the colour at column x of row y. */
  datatype Image = Image(width: nat, height: nat, pixels: seq<seq<Color>>)

  ghost predicate ValidImage(img: Image)
  {
    && |img.pixels| == img.height
    && forall y :: 0 <= y < |img.pixels| ==> |img.pixels[y]| == img.width
  }

  /** The sampling step: 1 or 2. */
  type Step = k: int | k == 1 || k == 2 witness 1

  // ---------------------------------------------------------------------------------------
  // The statistics table (buildColorMap)
  // ---------------------------------------------------------------------------------------

  /** The pixels of the rows in row-major order. */
  function Flatten(rows: seq<seq<Color>>): seq<Color>
  {
    if rows == [] then [] else Flatten(rows[..|rows| - 1]) + rows[|rows| - 1]
  }

  /** Every pixel of the image, in the order buildColorMap visits them. */
  function Pixels(img: Image): seq<Color>
  {
    Flatten(img.pixels)
  }

  /** `colorStats.merge(color, new ColorStats(1, getWeight(color)), ...)`. */
  function MergeColor(stats: map<Color, ColorStats>, c: Color): (r: map<Color, ColorStats>)
    ensures r.Keys == stats.Keys + {c}
    ensures forall d :: d in stats && d != c ==> r[d] == stats[d]
  {
    if c in stats then stats[c := ColorStats(stats[c].count + 1, stats[c].weight)]
    else stats[c := ColorStats(1, Weight(c))]
  }

  /** The table buildColorMap produces after visiting `ps` in order. */
  function StatsOf(ps: seq<Color>): map<Color, ColorStats>
  {
    if ps == [] then map[] else MergeColor(StatsOf(ps[..|ps| - 1]), ps[|ps| - 1])
  }

  lemma StatsOfSnoc(ps: seq<Color>, c: Color)
    ensures StatsOf(ps + [c]) == MergeColor(StatsOf(ps), c)
  {
    assert (ps + [c])[..|ps|] == ps;
  }

  /**
   * The table maps exactly the colours of `ps`, each to its number of occurrences and its
   * weight.
   */
  lemma {:induction false} StatsOfCounts(ps: seq<Color>)
    ensures forall c :: c in StatsOf(ps) <==> c in ps
    ensures forall c :: c in StatsOf(ps) ==> StatsOf(ps)[c] == ColorStats(multiset(ps)[c], Weight(c))
  {
    if ps != [] {
      var init, last := ps[..|ps| - 1], ps[|ps| - 1];
      assert ps == init + [last];
      StatsOfCounts(init);
      assert multiset(ps) == multiset(init) + multiset{last};
    }
  }

  /** The sum of the counts of a table. */
  ghost function TotalCount(m: map<Color, ColorStats>): nat
    decreases |m|
  {
    if m == map[] then 0
    else
      assert exists c :: c in m by {
        assert m.Keys != {};
      }
      var c :| c in m; m[c].count + TotalCount(m - {c})
  }

  lemma {:induction false} TotalCountRemove(m: map<Color, ColorStats>, c: Color)
    requires c in m
    ensures TotalCount(m) == m[c].count + TotalCount(m - {c})
    decreases |m|
  {
    var d :| d in m && TotalCount(m) == m[d].count + TotalCount(m - {d});
    if d != c {
      TotalCountRemove(m - {d}, c);
      TotalCountRemove(m - {c}, d);
      assert m - {d} - {c} == m - {c} - {d};
    }
  }

  lemma TotalCountMerge(m: map<Color, ColorStats>, c: Color)
    ensures TotalCount(MergeColor(m, c)) == TotalCount(m) + 1
  {
    var m' := MergeColor(m, c);
    TotalCountRemove(m', c);
    if c in m {
      TotalCountRemove(m, c);
      assert m' - {c} == m - {c};
    } else {
      assert m' - {c} == m;
    }
  }

  /** The counts of the table built from `ps` add up to |ps|. */
  lemma {:induction false} TotalCountStatsOf(ps: seq<Color>)
    ensures TotalCount(StatsOf(ps)) == |ps|
  {
    if ps != [] {
      TotalCountStatsOf(ps[..|ps| - 1]);
      TotalCountMerge(StatsOf(ps[..|ps| - 1]), ps[|ps| - 1]);
    }
  }

  lemma {:induction false} FlattenLength(rows: seq<seq<Color>>, w: nat)
    requires forall y :: 0 <= y < |rows| ==> |rows[y]| == w
    ensures |Flatten(rows)| == |rows| * w
  {
    if rows != [] {
      FlattenLength(rows[..|rows| - 1], w);
    }
  }

  lemma {:induction false} FlattenContains(rows: seq<seq<Color>>)
    ensures forall c :: c in Flatten(rows) <==> exists y :: 0 <= y < |rows| && c in rows[y]
  {
    if rows != [] {
      var init := rows[..|rows| - 1];
      FlattenContains(init);
      forall c | c in Flatten(rows)
        ensures exists y :: 0 <= y < |rows| && c in rows[y]
      {
        if c in Flatten(init) {
          var y :| 0 <= y < |init| && c in init[y];
          assert rows[y] == init[y];
        }
      }
      forall c, y | 0 <= y < |rows| && c in rows[y]
        ensures c in Flatten(rows)
      {
        if y < |init| {
          assert init[y] == rows[y];
        }
      }
    }
  }

  lemma VisitPixel(done: seq<Color>, row: seq<Color>, x: nat)
    requires x < |row|
    ensures StatsOf(done + row[..x + 1]) == MergeColor(StatsOf(done + row[..x]), row[x])
  {
    assert done + row[..x + 1] == (done + row[..x]) + [row[x]];
    StatsOfSnoc(done + row[..x], row[x]);
  }

  lemma FlattenSnoc(rows: seq<seq<Color>>, y: nat)
    requires y < |rows|
    ensures Flatten(rows[..y + 1]) == Flatten(rows[..y]) + rows[y][..|rows[y]|]
  {
    assert rows[..y + 1][..y] == rows[..y];
    assert rows[y][..|rows[y]|] == rows[y];
  }

  /**
   * buildColorMap: one pass over every pixel (not sampled), merging each colour into the
   * table.
   */
  method BuildColorMap(img: Image) returns (stats: map<Color, ColorStats>)
    requires ValidImage(img)
    ensures stats == StatsOf(Pixels(img))
  {
    stats := map[];
    var y := 0;
    while y < img.height
      invariant 0 <= y <= img.height
      invariant stats == StatsOf(Flatten(img.pixels[..y]))
    {
      var row := img.pixels[y];
      ghost var done := Flatten(img.pixels[..y]);
      assert done + row[..0] == done;
      var x := 0;
      while x < img.width
        invariant 0 <= x <= img.width
        invariant stats == StatsOf(done + row[..x])
      {
        var color := row[x];
        VisitPixel(done, row, x);
        stats := MergeColor(stats, color);
        x := x + 1;
      }
      FlattenSnoc(img.pixels, y);
      y := y + 1;
    }
    assert img.pixels[..y] == img.pixels;
  }

  /** Every colour of the image is in a table that `stats` names. */
  ghost predicate CoversImage(stats: map<Color, ColorStats>, img: Image)
  {
    forall y | 0 <= y < |img.pixels| :: forall c | c in img.pixels[y] :: c in stats
  }

  /**
   * The table of buildColorMap: its keys are exactly the image's colours, each with its pixel
   * count over the whole image and its weight; the counts add up to width * height.
   */
  lemma StatsCoverImage(img: Image)
    ensures CoversImage(StatsOf(Pixels(img)), img)
  {
    StatsOfCounts(Pixels(img));
    FlattenContains(img.pixels);
  }

  lemma ColorMapProperties(img: Image)
    requires ValidImage(img)
    ensures CoversImage(StatsOf(Pixels(img)), img)
    ensures forall c :: c in StatsOf(Pixels(img)) <==> c in Pixels(img)
    ensures forall c :: c in StatsOf(Pixels(img)) ==>
      StatsOf(Pixels(img))[c] == ColorStats(multiset(Pixels(img))[c], Weight(c))
    ensures TotalCount(StatsOf(Pixels(img))) == img.width * img.height
  {
    StatsOfCounts(Pixels(img));
    FlattenContains(img.pixels);
    TotalCountStatsOf(Pixels(img));
    FlattenLength(img.pixels, img.width);
  }

  // ---------------------------------------------------------------------------------------
  // One pass (findMainColorStep)
  // ---------------------------------------------------------------------------------------

  /** getStepLength: sample every second pixel beyond 180*180 pixels. */
  function StepLength(img: Image): (k: Step)
    ensures k == 2 <==> img.width * img.height > 180 * 180
  {
    if img.width * img.height > SampleThreshold then 2 else 1
  }

  /** Java masks a shift distance of an int to its five low bits. */
  function ShiftDistance(s: int): nat
  {
    s % 32
  }

  /** getShiftedColor: the bucket key of a colour at a shift. */
  function GetShiftedColor(c: Color, shift: int): (k: ShiftedColor)
    ensures k.shift == shift
    ensures var p := Pow2(shift % 32);
      && k.color.r == c.r / p && k.color.g == c.g / p && k.color.b == c.b / p
  {
    ShrIsDivision(c.r, ShiftDistance(shift));
    ShrIsDivision(c.g, ShiftDistance(shift));
    ShrIsDivision(c.b, ShiftDistance(shift));
    ShiftedColor(shift, ShiftColor(c, ShiftDistance(shift)))
  }

  /** matchTargetColor: no target, or every channel shifted by the target's shift is the target's. */
  predicate MatchTargetColor(target: Option<ShiftedColor>, c: Color)
  {
    || target.None?
    || (&& target.value.Red() == Shr(c.r, ShiftDistance(target.value.shift))
        && target.value.Green() == Shr(c.g, ShiftDistance(target.value.shift))
        && target.value.Blue() == Shr(c.b, ShiftDistance(target.value.shift)))
  }

  /** A target admits a colour exactly when the colour's key at the target's shift is the target. */
  lemma MatchIsSameBucket(t: ShiftedColor, c: Color)
    ensures MatchTargetColor(Some(t), c) <==> GetShiftedColor(c, t.shift) == t
  {
  }

  /** What one admitted pixel adds to its bucket: floor(weight * count * 100) / 100. */
  function Contribution(s: ColorStats): real
  {
    ((s.weight * (s.count as real) * 100.0).Floor as real) / 100.0
  }

  /**
   * The contribution is exact in hundredths:
   * floor(weight * n * 100) = n * 100 + (n * 100000 * S) / 65535, S the squared differences.
   */
  lemma ContributionInHundredths(c: Color, n: nat)
    ensures (Weight(c) * (n as real) * 100.0).Floor == n * 100 + (n * 100000 * SquaredDifferences(c)) / 65535
  {
    var s := SquaredDifferences(c);
    var big := n * 100000 * s;
    var q, rem := big / 65535, big % 65535;
    assert big == q * 65535 + rem;
    var x := Weight(c) * (n as real) * 100.0;
    assert Weight(c) == (s as real) / 65535.0 * 1000.0 + 1.0;
    assert x == (n as real) * 100.0 + (n as real) * (s as real) * 100000.0 / 65535.0;
    assert (big as real) == (n as real) * (s as real) * 100000.0;
    assert x == ((n * 100 + q) as real) + (rem as real) / 65535.0;
  }

  /**
   * increaseColorWeight: the admitted pixel's bucket grows by the colour's contribution; no
   * other bucket changes.
   */
  function IncreaseColorWeight(weighted: map<ShiftedColor, real>, stats: map<Color, ColorStats>,
                               c: Color, shift: int): (r: map<ShiftedColor, real>)
    requires c in stats
    ensures var key := GetShiftedColor(c, shift);
      && r.Keys == weighted.Keys + {key}
      && r[key] == (if key in weighted then weighted[key] else 0.0) + Contribution(stats[c])
      && forall k :: k in weighted && k != key ==> r[k] == weighted[k]
  {
    var key := GetShiftedColor(c, shift);
    var toAdd := Contribution(stats[c]);
    weighted[key := if key in weighted then weighted[key] + toAdd else toAdd]
  }

  /** Every colour of `ps` has an entry in `stats`. */
  ghost predicate Covers(stats: map<Color, ColorStats>, ps: seq<Color>)
    decreases |ps|
  {
    ps == [] || (ps[0] in stats && Covers(stats, ps[1..]))
  }

  lemma {:induction false} CoversIff(stats: map<Color, ColorStats>, ps: seq<Color>)
    ensures Covers(stats, ps) <==> forall c | c in ps :: c in stats
    decreases |ps|
  {
    if ps != [] {
      CoversIff(stats, ps[1..]);
      assert ps == [ps[0]] + ps[1..];
    }
  }

  /** The loop body of a pass for one sampled pixel. */
  function PassStep(weighted: map<ShiftedColor, real>, stats: map<Color, ColorStats>, c: Color,
                    shift: int, target: Option<ShiftedColor>): map<ShiftedColor, real>
    requires c in stats
  {
    if MatchTargetColor(target, c) then IncreaseColorWeight(weighted, stats, c, shift) else weighted
  }

  /** The bucket weights after processing the pixels `ps` in order. */
  function Accumulate(weighted: map<ShiftedColor, real>, ps: seq<Color>, stats: map<Color, ColorStats>,
                      shift: int, target: Option<ShiftedColor>): map<ShiftedColor, real>
    requires Covers(stats, ps)
    decreases |ps|
  {
    if ps == [] then weighted
    else Accumulate(PassStep(weighted, stats, ps[0], shift, target), ps[1..], stats, shift, target)
  }

  lemma AccumulateCons(w: map<ShiftedColor, real>, c: Color, tail: seq<Color>,
                        stats: map<Color, ColorStats>, shift: int, target: Option<ShiftedColor>)
    requires c in stats && Covers(stats, tail)
    ensures Covers(stats, [c] + tail)
    ensures Accumulate(w, [c] + tail, stats, shift, target)
         == Accumulate(PassStep(w, stats, c, shift, target), tail, stats, shift, target)
  {
    assert ([c] + tail)[0] == c && ([c] + tail)[1..] == tail;
  }

  lemma {:induction false} AccumulateAppend(w: map<ShiftedColor, real>, a: seq<Color>, b: seq<Color>,
                                            stats: map<Color, ColorStats>, shift: int,
                                            target: Option<ShiftedColor>)
    requires Covers(stats, a) && Covers(stats, b)
    ensures Covers(stats, a + b)
    decreases |a|
    ensures Accumulate(w, a + b, stats, shift, target)
         == Accumulate(Accumulate(w, a, stats, shift, target), b, stats, shift, target)
  {
    if a != [] {
      assert (a + b)[0] == a[0];
      assert (a + b)[1..] == a[1..] + b;
      AccumulateAppend(PassStep(w, stats, a[0], shift, target), a[1..], b, stats, shift, target);
    } else {
      assert a + b == b;
    }
  }

  /**
   * A bucket exists after the pixels `ps` exactly when it existed before or some pixel of `ps`
   * is admitted and falls in it.
   */
  lemma {:induction false} AccumulateKeys(w: map<ShiftedColor, real>, ps: seq<Color>,
                                          stats: map<Color, ColorStats>, shift: int,
                                          target: Option<ShiftedColor>)
    requires Covers(stats, ps)
    ensures forall k :: k in Accumulate(w, ps, stats, shift, target) <==>
      (k in w || exists c :: c in ps && MatchTargetColor(target, c) && GetShiftedColor(c, shift) == k)
    decreases |ps|
  {
    if ps != [] {
      AccumulateKeys(PassStep(w, stats, ps[0], shift, target), ps[1..], stats, shift, target);
      assert ps == [ps[0]] + ps[1..];
      forall k | exists c :: c in ps && MatchTargetColor(target, c) && GetShiftedColor(c, shift) == k
        ensures k in Accumulate(w, ps, stats, shift, target)
      {
        var c :| c in ps && MatchTargetColor(target, c) && GetShiftedColor(c, shift) == k;
        if c != ps[0] {
          assert c in ps[1..];
        }
      }
    }
  }

  /** The pixels of one row the pass visits: indices 0, step, 2*step, ... */
  function SampleRow(row: seq<Color>, step: Step): seq<Color>
    decreases |row|
  {
    if row == [] then []
    else [row[0]] + (if |row| <= step then [] else SampleRow(row[step..], step))
  }

  /** The pixels the pass visits, row by row, rows 0, step, 2*step, ... */
  function SampleRows(rows: seq<seq<Color>>, step: Step): seq<Color>
    decreases |rows|
  {
    if rows == [] then []
    else SampleRow(rows[0], step) + (if |rows| <= step then [] else SampleRows(rows[step..], step))
  }

  /** The sampled pixels of an image, in the order findMainColorStep visits them. */
  function SampledPixels(img: Image): seq<Color>
  {
    SampleRows(img.pixels, StepLength(img))
  }

  lemma {:induction false} SampleRowAll(row: seq<Color>)
    ensures SampleRow(row, 1) == row
    decreases |row|
  {
    if row != [] && |row| > 1 {
      SampleRowAll(row[1..]);
    }
  }

  lemma {:induction false} FlattenCons(r: seq<Color>, rest: seq<seq<Color>>)
    ensures Flatten([r] + rest) == r + Flatten(rest)
    decreases |rest|
  {
    if rest != [] {
      assert ([r] + rest)[..|rest|] == [r] + rest[..|rest| - 1];
      FlattenCons(r, rest[..|rest| - 1]);
    }
  }

  lemma {:induction false} SampleRowsAll(rows: seq<seq<Color>>)
    ensures SampleRows(rows, 1) == Flatten(rows)
    decreases |rows|
  {
    if rows != [] {
      SampleRowAll(rows[0]);
      if |rows| > 1 {
        SampleRowsAll(rows[1..]);
      }
      assert rows == [rows[0]] + rows[1..];
      FlattenCons(rows[0], rows[1..]);
    }
  }

  /** Up to 180*180 pixels the step is 1, and every pixel of the image is visited, in row-major order. */
  lemma SmallImageFullySampled(img: Image)
    requires img.width * img.height <= SampleThreshold
    ensures SampledPixels(img) == Pixels(img)
  {
    SampleRowsAll(img.pixels);
  }

  lemma {:induction false} SampleRowHalf(row: seq<Color>)
    ensures |SampleRow(row, 2)| == (|row| + 1) / 2
    decreases |row|
  {
    if row != [] && |row| > 2 {
      SampleRowHalf(row[2..]);
    }
  }

  lemma {:induction false} SampleRowsHalf(rows: seq<seq<Color>>, w: nat)
    requires forall y :: 0 <= y < |rows| ==> |rows[y]| == w
    ensures |SampleRows(rows, 2)| == (|rows| + 1) / 2 * ((w + 1) / 2)
    decreases |rows|
  {
    if rows != [] {
      SampleRowHalf(rows[0]);
      if |rows| > 2 {
        SampleRowsHalf(rows[2..], w);
        assert (|rows| + 1) / 2 == (|rows[2..]| + 1) / 2 + 1;
      }
    }
  }

  /**
   * Beyond 180*180 pixels the step is 2: a pass visits every second row and every second
   * pixel of it, ceil(width/2) * ceil(height/2) pixels in all, and only pixels of the image.
   */
  lemma LargeImageSampledEveryOther(img: Image)
    requires ValidImage(img) && img.width * img.height > SampleThreshold
    ensures |SampledPixels(img)| == (img.width + 1) / 2 * ((img.height + 1) / 2)
    ensures forall c :: c in SampledPixels(img) ==> c in Pixels(img)
  {
    SampleRowsHalf(img.pixels, img.width);
    SampleRowsSubset(img.pixels, 2);
    FlattenContains(img.pixels);
  }

  function Drop<T>(s: seq<T>, n: nat): (r: seq<T>)
    ensures |r| == if n < |s| then |s| - n else 0
  {
    if n < |s| then s[n..] else []
  }

  lemma SampleRowUnfold(row: seq<Color>, x: nat, step: Step)
    requires x < |row|
    ensures SampleRow(Drop(row, x), step) == [row[x]] + SampleRow(Drop(row, x + step), step)
  {
    var rest := row[x..];
    if |rest| > step {
      assert rest[step..] == row[x + step..];
    }
  }

  lemma SampleRowsUnfold(rows: seq<seq<Color>>, y: nat, step: Step)
    requires y < |rows|
    ensures SampleRows(Drop(rows, y), step) == SampleRow(rows[y], step) + SampleRows(Drop(rows, y + step), step)
  {
    var rest := rows[y..];
    if |rest| > step {
      assert rest[step..] == rows[y + step..];
    }
  }

  lemma {:induction false} SampleRowSubset(row: seq<Color>, step: Step)
    ensures forall c :: c in SampleRow(row, step) ==> c in row
    decreases |row|
  {
    if |row| > step {
      SampleRowSubset(row[step..], step);
      forall c | c in SampleRow(row[step..], step) ensures c in row {
        var j :| 0 <= j < |row[step..]| && row[step..][j] == c;
        assert row[step + j] == c;
      }
    }
  }

  lemma {:induction false} SampleRowsSubset(rows: seq<seq<Color>>, step: Step)
    ensures forall c :: c in SampleRows(rows, step) ==> exists y :: 0 <= y < |rows| && c in rows[y]
    decreases |rows|
  {
    if rows != [] {
      SampleRowSubset(rows[0], step);
      if |rows| > step {
        SampleRowsSubset(rows[step..], step);
        forall c | c in SampleRows(rows[step..], step)
          ensures exists y :: 0 <= y < |rows| && c in rows[y]
        {
          var y :| 0 <= y < |rows[step..]| && c in rows[step..][y];
          assert rows[step + y] == rows[step..][y];
        }
      }
    }
  }

  /** Whatever a pass visits is covered by a table that covers the image. */
  lemma SamplesCovered(stats: map<Color, ColorStats>, img: Image, y: nat, x: nat, step: Step)
    requires CoversImage(stats, img)
    ensures y < |img.pixels| ==> Covers(stats, SampleRow(Drop(img.pixels[y], x), step))
    ensures Covers(stats, SampleRows(Drop(img.pixels, y), step))
  {
    if y < |img.pixels| {
      SampleRowSubset(Drop(img.pixels[y], x), step);
    }
    SampleRowsSubset(Drop(img.pixels, y), step);
    forall c | c in SampleRows(Drop(img.pixels, y), step) ensures c in stats {
      var y' :| 0 <= y' < |Drop(img.pixels, y)| && c in Drop(img.pixels, y)[y'];
      assert Drop(img.pixels, y)[y'] == img.pixels[y + y'];
    }
    CoversIff(stats, SampleRows(Drop(img.pixels, y), step));
    if y < |img.pixels| {
      CoversIff(stats, SampleRow(Drop(img.pixels[y], x), step));
    }
  }

  /** The bucket weights of a pass, as a function of the image, the table, the shift and the target. */
  function PassWeights(img: Image, stats: map<Color, ColorStats>, shift: int,
                       target: Option<ShiftedColor>): map<ShiftedColor, real>
    requires CoversImage(stats, img)
  {
    SamplesCovered(stats, img, 0, 0, StepLength(img));
    assert Drop(img.pixels, 0) == img.pixels;
    Accumulate(map[], SampledPixels(img), stats, shift, target)
  }

  /** `k` is a heaviest bucket of `weighted`. */
  ghost predicate IsMaxKey(weighted: map<ShiftedColor, real>, k: ShiftedColor)
  {
    k in weighted && forall j :: j in weighted ==> weighted[j] <= weighted[k]
  }

  /**
   * getColorWithMaxWeight: Stream.max over the entries, which keeps the first of equal
   * maxima in the map's iteration order; that order is left unspecified here.
   */
  method GetColorWithMaxWeight(weighted: map<ShiftedColor, real>) returns (r: Option<ShiftedColor>)
    ensures r.None? <==> weighted == map[]
    ensures r.Some? ==> IsMaxKey(weighted, r.value)
  {
    var todo := weighted.Keys;
    r := None;
    while todo != {}
      invariant todo <= weighted.Keys
      invariant r.None? <==> todo == weighted.Keys
      invariant r.Some? ==> r.value in weighted
      invariant r.Some? ==> forall j :: j in weighted.Keys - todo ==> weighted[j] <= weighted[r.value]
      decreases todo
    {
      var k :| k in todo;
      if r.None? || weighted[k] > weighted[r.value] {
        r := Some(k);
      }
      todo := todo - {k};
    }
    if r.None? {
      assert weighted.Keys == {};
    }
  }

  /** getColorWithMaxWeightOrThrow: no bucket at all is an EmptyImageException. */
  method GetColorWithMaxWeightOrThrow(weighted: map<ShiftedColor, real>) returns (r: Result<ShiftedColor, ColorError>)
    ensures r.Failure? <==> weighted == map[]
    ensures r.Success? ==> IsMaxKey(weighted, r.value)
  {
    var winning := GetColorWithMaxWeight(weighted);
    if winning.None? {
      return Failure(EmptyImage);
    }
    return Success(winning.value);
  }

  /**
   * The inner loop of findMainColorStep over one row: every `step`-th pixel, from column 0,
   * is added to its bucket when the target admits it.
   */
  method AccumulateRow(weighted: map<ShiftedColor, real>, row: seq<Color>, stats: map<Color, ColorStats>,
                       step: Step, shift: int, target: Option<ShiftedColor>)
    returns (result: map<ShiftedColor, real>)
    requires forall c | c in row :: c in stats
    ensures Covers(stats, SampleRow(row, step))
    ensures result == Accumulate(weighted, SampleRow(row, step), stats, shift, target)
  {
    SampleRowSubset(row, step);
    CoversIff(stats, SampleRow(row, step));
    result := weighted;
    assert Drop(row, 0) == row;
    var x := 0;
    while x < |row|
      invariant 0 <= x
      invariant Covers(stats, SampleRow(Drop(row, x), step))
      invariant Accumulate(result, SampleRow(Drop(row, x), step), stats, shift, target)
             == Accumulate(weighted, SampleRow(row, step), stats, shift, target)
      decreases |row| - x
    {
      var color := row[x];
      SampleRowUnfold(row, x, step);
      SampleRowSubset(Drop(row, x + step), step);
      forall c | c in Drop(row, x + step) ensures c in row {
        var j :| 0 <= j < |Drop(row, x + step)| && Drop(row, x + step)[j] == c;
        assert row[x + step + j] == c;
      }
      assert color in row;
      CoversIff(stats, SampleRow(Drop(row, x + step), step));
      AccumulateCons(result, color, SampleRow(Drop(row, x + step), step), stats, shift, target);
      if MatchTargetColor(target, color) {
        result := IncreaseColorWeight(result, stats, color, shift);
      }
      x := x + step;
    }
  }

  /** Processing the rows from `y` is processing row `y`, then the rows from `y + step`. */
  lemma AccumulateRows(w: map<ShiftedColor, real>, img: Image, y: nat, stats: map<Color, ColorStats>,
                       step: Step, shift: int, target: Option<ShiftedColor>)
    requires CoversImage(stats, img) && y < |img.pixels|
    ensures forall c | c in img.pixels[y] :: c in stats
    ensures Covers(stats, SampleRow(img.pixels[y], step))
    ensures Covers(stats, SampleRows(Drop(img.pixels, y), step))
    ensures Covers(stats, SampleRows(Drop(img.pixels, y + step), step))
    ensures Accumulate(w, SampleRows(Drop(img.pixels, y), step), stats, shift, target)
         == Accumulate(Accumulate(w, SampleRow(img.pixels[y], step), stats, shift, target),
                       SampleRows(Drop(img.pixels, y + step), step), stats, shift, target)
  {
    SamplesCovered(stats, img, y, 0, step);
    SamplesCovered(stats, img, y + step, 0, step);
    SampleRowsUnfold(img.pixels, y, step);
    assert Drop(img.pixels[y], 0) == img.pixels[y];
    AccumulateAppend(w, SampleRow(img.pixels[y], step), SampleRows(Drop(img.pixels, y + step), step),
                     stats, shift, target);
  }

  /** One iteration of findMainColorStep's outer loop: row `y`, leaving the rows from `y + step`. */
  method AccumulateSampledRow(weighted: map<ShiftedColor, real>, img: Image, y: nat, stats: map<Color, ColorStats>,
                              step: Step, shift: int, target: Option<ShiftedColor>) returns (w: map<ShiftedColor, real>)
    requires CoversImage(stats, img) && y < |img.pixels|
    ensures Covers(stats, SampleRows(Drop(img.pixels, y), step))
    ensures Covers(stats, SampleRows(Drop(img.pixels, y + step), step))
    ensures Accumulate(weighted, SampleRows(Drop(img.pixels, y), step), stats, shift, target)
         == Accumulate(w, SampleRows(Drop(img.pixels, y + step), step), stats, shift, target)
  {
    AccumulateRows(weighted, img, y, stats, step, shift, target);
    w := AccumulateRow(weighted, img.pixels[y], stats, step, shift, target);
  }

  /**
   * findMainColorStep: visit the sampled pixels row by row, add every admitted one to its
   * bucket, and return a heaviest bucket.
   */
  method FindMainColorStep(img: Image, stats: map<Color, ColorStats>, shift: int,
                           target: Option<ShiftedColor>) returns (r: Result<ShiftedColor, ColorError>)
    requires ValidImage(img)
    requires CoversImage(stats, img)
    ensures r.Failure? <==> PassWeights(img, stats, shift, target) == map[]
    ensures r.Success? ==> IsMaxKey(PassWeights(img, stats, shift, target), r.value)
  {
    var weighted: map<ShiftedColor, real> := map[];
    var step := StepLength(img);
    ghost var final := PassWeights(img, stats, shift, target);
    assert Drop(img.pixels, 0) == img.pixels;
    SamplesCovered(stats, img, 0, 0, step);
    var y: nat := 0;
    while y < img.height
      invariant Covers(stats, SampleRows(Drop(img.pixels, y), step))
      invariant Accumulate(weighted, SampleRows(Drop(img.pixels, y), step), stats, shift, target) == final
      decreases img.height - y
    {
      weighted := AccumulateSampledRow(weighted, img, y, stats, step, shift, target);
      y := y + step;
    }
    r := GetColorWithMaxWeightOrThrow(weighted);
  }

  // ---------------------------------------------------------------------------------------
  // Properties of a pass
  // ---------------------------------------------------------------------------------------

  /** The buckets of a pass are the keys, at the pass's shift, of its admitted sampled pixels. */
  lemma PassKeys(img: Image, stats: map<Color, ColorStats>, shift: int, target: Option<ShiftedColor>)
    requires CoversImage(stats, img)
    ensures forall k :: k in PassWeights(img, stats, shift, target) <==>
      exists c :: c in SampledPixels(img) && MatchTargetColor(target, c) && GetShiftedColor(c, shift) == k
  {
    SamplesCovered(stats, img, 0, 0, StepLength(img));
    assert Drop(img.pixels, 0) == img.pixels;
    AccumulateKeys(map[], SampledPixels(img), stats, shift, target);
  }

  /** A pass has no bucket (and throws) exactly when no sampled pixel is admitted. */
  lemma PassEmptyIff(img: Image, stats: map<Color, ColorStats>, shift: int, target: Option<ShiftedColor>)
    requires CoversImage(stats, img)
    ensures PassWeights(img, stats, shift, target) == map[] <==>
      forall c :: c in SampledPixels(img) ==> !MatchTargetColor(target, c)
  {
    PassKeys(img, stats, shift, target);
    if PassWeights(img, stats, shift, target) != map[] {
      var k :| k in PassWeights(img, stats, shift, target);
    }
    if exists c :: c in SampledPixels(img) && MatchTargetColor(target, c) {
      var c :| c in SampledPixels(img) && MatchTargetColor(target, c);
      assert GetShiftedColor(c, shift) in PassWeights(img, stats, shift, target);
    }
  }

  lemma SampleRowEmpty(row: seq<Color>, step: Step)
    ensures SampleRow(row, step) == [] <==> row == []
  {
  }

  lemma {:induction false} SampleRowsEmpty(rows: seq<seq<Color>>, step: Step, w: nat)
    requires forall y :: 0 <= y < |rows| ==> |rows[y]| == w
    ensures SampleRows(rows, step) == [] <==> (rows == [] || w == 0)
    decreases |rows|
  {
    if rows != [] {
      SampleRowEmpty(rows[0], step);
      if |rows| > step {
        SampleRowsEmpty(rows[step..], step, w);
      }
    }
  }

  /** The sampled pixels are empty exactly for an image without pixels. */
  lemma SampledPixelsEmpty(img: Image)
    requires ValidImage(img)
    ensures SampledPixels(img) == [] <==> img.width == 0 || img.height == 0
  {
    SampleRowsEmpty(img.pixels, StepLength(img), img.width);
  }

  /** The first pass (no target) throws exactly on an image with no pixel. */
  lemma FirstPassEmptyIff(img: Image, stats: map<Color, ColorStats>, shift: int)
    requires ValidImage(img) && CoversImage(stats, img)
    ensures PassWeights(img, stats, shift, None) == map[] <==> img.width == 0 || img.height == 0
  {
    PassEmptyIff(img, stats, shift, None);
    SampledPixelsEmpty(img);
    if SampledPixels(img) != [] {
      assert SampledPixels(img)[0] in SampledPixels(img);
    }
  }

  /** A pass targeting a bucket of an earlier pass always admits a pixel, so never throws. */
  lemma LaterPassNonEmpty(img: Image, stats: map<Color, ColorStats>, prevShift: int,
                          prevTarget: Option<ShiftedColor>, t: ShiftedColor, shift: int)
    requires CoversImage(stats, img)
    requires t in PassWeights(img, stats, prevShift, prevTarget)
    ensures PassWeights(img, stats, shift, Some(t)) != map[]
  {
    PassKeys(img, stats, prevShift, prevTarget);
    var c :| c in SampledPixels(img) && MatchTargetColor(prevTarget, c) && GetShiftedColor(c, prevShift) == t;
    PassKeys(img, stats, shift, Some(t));
    assert GetShiftedColor(c, shift) in PassWeights(img, stats, shift, Some(t));
  }

  /**
   * A bucket of a pass targeting `t` refines `t`: its shift is the pass's, and its colour
   * shifted further by the difference of shifts is `t`'s colour.
   */
  lemma BucketRefinesTarget(img: Image, stats: map<Color, ColorStats>, shift: int, t: ShiftedColor,
                            k: ShiftedColor)
    requires CoversImage(stats, img)
    requires 0 <= shift <= t.shift < 32
    requires k in PassWeights(img, stats, shift, Some(t))
    ensures k.shift == shift
    ensures ShiftColor(k.color, t.shift - shift) == t.color
  {
    PassKeys(img, stats, shift, Some(t));
    var c :| c in SampledPixels(img) && MatchTargetColor(Some(t), c) && GetShiftedColor(c, shift) == k;
    KeyRefinesTarget(t, c, shift);
  }

  lemma KeyRefinesTarget(t: ShiftedColor, c: Color, shift: int)
    requires 0 <= shift <= t.shift < 32
    requires MatchTargetColor(Some(t), c)
    ensures ShiftColor(GetShiftedColor(c, shift).color, t.shift - shift) == t.color
  {
    MatchedColor(t, c);
    assert ShiftDistance(shift) == shift;
    ShiftColorShiftColor(c, shift, t.shift - shift);
  }

  /** A colour admitted by a target with an in-range shift shifts to the target's colour. */
  lemma MatchedColor(t: ShiftedColor, c: Color)
    requires 0 <= t.shift < 32
    requires MatchTargetColor(Some(t), c)
    ensures ShiftColor(c, t.shift) == t.color
  {
    assert ShiftDistance(t.shift) == t.shift;
  }

  lemma ShiftColorZero(c: Color)
    ensures ShiftColor(c, 0) == c
  {
  }

  /** A bucket at shift 0 is a colour of some sampled pixel. */
  lemma ShiftZeroBucketIsPixel(img: Image, stats: map<Color, ColorStats>, target: Option<ShiftedColor>,
                               k: ShiftedColor)
    requires CoversImage(stats, img)
    requires k in PassWeights(img, stats, 0, target)
    ensures k.color in SampledPixels(img)
  {
    PassKeys(img, stats, 0, target);
    var c :| c in SampledPixels(img) && MatchTargetColor(target, c) && GetShiftedColor(c, 0) == k;
    ShiftColorZero(c);
  }

  // ---------------------------------------------------------------------------------------
  // The four passes (findMainColor)
  // ---------------------------------------------------------------------------------------

  /**
   * `ws` are winners of the four passes on the table of buildColorMap: the first with no
   * target, each later one targeting the previous winner, at shifts 6, 4, 2, 0.
   */
  ghost predicate IsWinnerChain(img: Image, ws: seq<ShiftedColor>)
    requires ValidImage(img)
  {
    StatsCoverImage(img);
    var stats := StatsOf(Pixels(img));
    && |ws| == 4
    && IsMaxKey(PassWeights(img, stats, Shifts[0], None), ws[0])
    && IsMaxKey(PassWeights(img, stats, Shifts[1], Some(ws[0])), ws[1])
    && IsMaxKey(PassWeights(img, stats, Shifts[2], Some(ws[1])), ws[2])
    && IsMaxKey(PassWeights(img, stats, Shifts[3], Some(ws[2])), ws[3])
  }

  /**
   * findMainColor: EmptyImageException exactly for an image without pixels; otherwise the
   * colour of the last winner of a chain of four passes, which is a sampled pixel's colour.
   */
  method FindMainColor(img: Image) returns (r: Result<Color, ColorError>)
    requires ValidImage(img)
    ensures r.Failure? <==> img.width == 0 || img.height == 0
    ensures r.Success? ==> exists ws: seq<ShiftedColor> :: IsWinnerChain(img, ws) && r.value == ws[3].color
    ensures r.Success? ==> r.value in SampledPixels(img)
  {
    var colorStatsMap := BuildColorMap(img);
    StatsCoverImage(img);
    var result := FindMainColorStep(img, colorStatsMap, 6, None);
    FirstPassEmptyIff(img, colorStatsMap, 6);
    if result.Failure? {
      return Failure(result.error);
    }
    var w6 := result.value;
    LaterPassNonEmpty(img, colorStatsMap, 6, None, w6, 4);
    result := FindMainColorStep(img, colorStatsMap, 4, Some(w6));
    assert result.Success?;
    var w4 := result.value;
    LaterPassNonEmpty(img, colorStatsMap, 4, Some(w6), w4, 2);
    result := FindMainColorStep(img, colorStatsMap, 2, Some(w4));
    assert result.Success?;
    var w2 := result.value;
    LaterPassNonEmpty(img, colorStatsMap, 2, Some(w4), w2, 0);
    result := FindMainColorStep(img, colorStatsMap, 0, Some(w2));
    assert result.Success?;
    var w0 := result.value;
    ShiftZeroBucketIsPixel(img, colorStatsMap, Some(w2), w0);
    assert IsWinnerChain(img, [w6, w4, w2, w0]);
    return Success(w0.color);
  }

  /**
   * Along a chain of winners the shifts are 6, 4, 2, 0, each winner refines the previous one
   * channel-wise, and the final colour is the colour of a sampled pixel.
   */
  lemma WinnerChainRefines(img: Image, ws: seq<ShiftedColor>)
    requires ValidImage(img) && IsWinnerChain(img, ws)
    ensures ws[0].shift == 6 && ws[1].shift == 4 && ws[2].shift == 2 && ws[3].shift == 0
    ensures ShiftColor(ws[1].color, 2) == ws[0].color
    ensures ShiftColor(ws[2].color, 2) == ws[1].color
    ensures ShiftColor(ws[3].color, 2) == ws[2].color
    ensures ws[3].color in SampledPixels(img)
  {
    StatsCoverImage(img);
    var stats := StatsOf(Pixels(img));
    PassKeys(img, stats, 6, None);
    BucketRefinesTarget(img, stats, 4, ws[0], ws[1]);
    BucketRefinesTarget(img, stats, 2, ws[1], ws[2]);
    BucketRefinesTarget(img, stats, 0, ws[2], ws[3]);
    ShiftZeroBucketIsPixel(img, stats, Some(ws[2]), ws[3]);
  }

  /** A 1x1 image of one colour. */
  function OnePixel(c: Color): Image
  {
    Image(1, 1, [[c]])
  }

  /** On a 1x1 image the main colour is the pixel's colour (white gives ffffff, black 000000). */
  lemma OnePixelMainColor(c: Color, ws: seq<ShiftedColor>)
    requires IsWinnerChain(OnePixel(c), ws)
    ensures ws[3].color == c
  {
    WinnerChainRefines(OnePixel(c), ws);
    assert SampledPixels(OnePixel(c)) == [c];
  }
}
