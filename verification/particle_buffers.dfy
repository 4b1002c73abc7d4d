/**
  The two point buffers of the particle image: the target grid, where every
  point ends up, and the scattered start positions it flies in from. Both
  are flat arrays of numbers, three per point (x, y, z), filled by a nested
  loop over columns (outer) and lines (inner), so point `k` of either buffer
  belongs to column `k / nbLines` and line `k % nbLines`.
 */
module ParticleBuffers {

  /** Density factor of the grid. */
  const Multiplier: nat := 18
  /** Columns of the configured grid. */
  const NbColumns: nat := 16 * Multiplier
  /** Lines of the configured grid. */
  const NbLines: nat := 16 * Multiplier
  /** Upper end of the random start depth. */
  const MaxDepth: real := 800.0

  /** One point read out of a flat buffer. */
  datatype Vec3 = Vec3(x: real, y: real, z: real)

  /** Number of points of a grid with the given dimensions. */
  function PointCount(nbColumns: nat, nbLines: nat): nat {
    nbColumns * nbLines
  }

  /** Point `k` of a flat buffer that holds three numbers per point. */
  function PointAt(buf: seq<real>, k: nat): Vec3
    requires 3 * k + 2 < |buf|
  {
    Vec3(buf[3 * k], buf[3 * k + 1], buf[3 * k + 2])
  }

  /** Flat point index of column `i`, line `y`, in column-major order. */
  function FlatIndex(i: nat, y: nat, nbLines: nat): nat {
    i * nbLines + y
  }

  /** Column of flat point `k`. */
  function ColumnOf(k: nat, nbLines: nat): nat {
    if nbLines == 0 then 0 else k / nbLines
  }

  /** Line of flat point `k`. */
  function LineOf(k: nat, nbLines: nat): nat {
    if nbLines == 0 then 0 else k % nbLines
  }

  /**
    A uniform draw from `[low, high)` given a sample `r` of the platform's
    uniform generator, which lies in `[0, 1)`.
   */
  function RandFloat(low: real, high: real, r: real): (v: real)
    ensures low <= high && 0.0 <= r < 1.0 ==> low <= v <= high
    ensures low < high && 0.0 <= r < 1.0 ==> v < high
  {
    var span := high - low;
    assert 0.0 <= r < 1.0 && span > 0.0 ==> r * span < 1.0 * span;
    low + r * span
  }

  /** Every sample lies in the generator's range `[0, 1)`. */
  predicate UnitSamples(samples: seq<real>) {
    forall j :: 0 <= j < |samples| ==> 0.0 <= samples[j] < 1.0
  }

  /** Where flat point `k` ends up: its column and line, at depth 0. */
  function TargetPoint(k: nat, nbLines: nat): Vec3 {
    Vec3(ColumnOf(k, nbLines) as real, LineOf(k, nbLines) as real, 0.0)
  }

  /**
    Where flat point `k` starts: its column and line shifted by half the grid
    size, at a random depth drawn from the `k`-th sample.
   */
  function StartPoint(k: nat, nbColumns: nat, nbLines: nat, sample: real): Vec3 {
    Vec3(ColumnOf(k, nbLines) as real - nbColumns as real / 2.0,
         LineOf(k, nbLines) as real - nbLines as real / 2.0,
         RandFloat(0.0, MaxDepth, sample))
  }

  /** `vertices` is the target buffer of an `nbColumns` by `nbLines` grid. */
  predicate IsTargetBuffer(vertices: seq<real>, nbColumns: nat, nbLines: nat) {
    && |vertices| == 3 * PointCount(nbColumns, nbLines)
    && forall k: nat :: k < PointCount(nbColumns, nbLines) ==>
         PointAt(vertices, k) == TargetPoint(k, nbLines)
  }

  /** `starts` is the start buffer of the grid, drawn from `samples` in point order. */
  predicate IsStartBuffer(starts: seq<real>, nbColumns: nat, nbLines: nat, samples: seq<real>) {
    && |starts| == 3 * PointCount(nbColumns, nbLines)
    && |samples| == PointCount(nbColumns, nbLines)
    && forall k: nat :: k < PointCount(nbColumns, nbLines) ==>
         PointAt(starts, k) == StartPoint(k, nbColumns, nbLines, samples[k])
  }

  /** Euclidean division is determined by any quotient/remainder pair. */
  lemma DivModUnique(k: int, d: int, q: int, r: int)
    requires d > 0 && 0 <= r < d && k == q * d + r
    ensures k / d == q && k % d == r
  {
    var q', r' := k / d, k % d;
    var e := q - q';
    assert e * d == r' - r;
    assert -d < e * d < d;
  }

  /** Column and line recover the pair a flat index was made from. */
  lemma FlatIndexRoundTrip(i: nat, y: nat, nbLines: nat)
    requires y < nbLines
    ensures ColumnOf(FlatIndex(i, y, nbLines), nbLines) == i
    ensures LineOf(FlatIndex(i, y, nbLines), nbLines) == y
  {
    DivModUnique(i * nbLines + y, nbLines, i, y);
  }

  /** A flat index made from an in-range column and line is an in-range point. */
  lemma FlatIndexInRange(i: nat, y: nat, nbColumns: nat, nbLines: nat)
    requires i < nbColumns && y < nbLines
    ensures FlatIndex(i, y, nbLines) < PointCount(nbColumns, nbLines)
  {
    assert (i + 1) * nbLines <= nbColumns * nbLines;
  }


  /** The first `n` points of both buffers are built, and nothing more. */
  predicate BuiltPrefix(vertices: seq<real>, intPositions: seq<real>, n: nat,
                        nbColumns: nat, nbLines: nat, samples: seq<real>) {
    && n <= |samples|
    && |vertices| == |intPositions| == 3 * n
    && forall k: nat :: k < n ==>
         && PointAt(vertices, k) == TargetPoint(k, nbLines)
         && PointAt(intPositions, k) == StartPoint(k, nbColumns, nbLines, samples[k])
  }

  /** Appending the points of column `i`, line `y` extends a built prefix by one point. */
  lemma BuiltPrefixStep(vertices: seq<real>, intPositions: seq<real>, i: nat, y: nat,
                        nbColumns: nat, nbLines: nat, samples: seq<real>)
    requires i < nbColumns && y < nbLines
    requires |samples| == PointCount(nbColumns, nbLines)
    requires BuiltPrefix(vertices, intPositions, FlatIndex(i, y, nbLines), nbColumns, nbLines, samples)
    ensures FlatIndex(i, y, nbLines) < |samples|
    ensures BuiltPrefix(
      vertices + [i as real, y as real, 0.0],
      intPositions + [i as real - nbColumns as real / 2.0,
                      y as real - nbLines as real / 2.0,
                      RandFloat(0.0, MaxDepth, samples[FlatIndex(i, y, nbLines)])],
      FlatIndex(i, y, nbLines) + 1, nbColumns, nbLines, samples)
  {
    var k := FlatIndex(i, y, nbLines);
    FlatIndexRoundTrip(i, y, nbLines);
    FlatIndexInRange(i, y, nbColumns, nbLines);
    var v := vertices + [i as real, y as real, 0.0];
    var p := intPositions + [i as real - nbColumns as real / 2.0,
                             y as real - nbLines as real / 2.0,
                             RandFloat(0.0, MaxDepth, samples[k])];
    assert PointAt(v, k) == TargetPoint(k, nbLines);
    assert PointAt(p, k) == StartPoint(k, nbColumns, nbLines, samples[k]);
    forall j: nat | j < k
      ensures PointAt(v, j) == PointAt(vertices, j)
      ensures PointAt(p, j) == PointAt(intPositions, j)
    {
    }
  }

  /**
    Builds the target and start buffers exactly as the nested loop does:
    outer loop over columns, inner over lines, each step appending one
    target point and one start point and consuming one random sample.
   */
  method BuildBuffers(nbColumns: nat, nbLines: nat, samples: seq<real>)
    returns (vertices: seq<real>, intPositions: seq<real>)
    requires |samples| == PointCount(nbColumns, nbLines)
    ensures IsTargetBuffer(vertices, nbColumns, nbLines)
    ensures IsStartBuffer(intPositions, nbColumns, nbLines, samples)
  {
    vertices := [];
    intPositions := [];
    var i := 0;
    while i < nbColumns
      invariant 0 <= i <= nbColumns
      invariant BuiltPrefix(vertices, intPositions, i * nbLines, nbColumns, nbLines, samples)
    {
      var y := 0;
      while y < nbLines
        invariant 0 <= y <= nbLines
        invariant BuiltPrefix(vertices, intPositions, FlatIndex(i, y, nbLines),
                              nbColumns, nbLines, samples)
      {
        BuiltPrefixStep(vertices, intPositions, i, y, nbColumns, nbLines, samples);
        var point := [i as real, y as real, 0.0];
        var initPoint := [i as real - nbColumns as real / 2.0,
                          y as real - nbLines as real / 2.0,
                          RandFloat(0.0, MaxDepth, samples[FlatIndex(i, y, nbLines)])];
        vertices := vertices + point;
        intPositions := intPositions + initPoint;
        y := y + 1;
      }
      assert FlatIndex(i, nbLines, nbLines) == (i + 1) * nbLines;
      i := i + 1;
    }
  }

  /** Builds the buffers of the configured 288 by 288 grid. */
  method BuildImageBuffers(samples: seq<real>)
    returns (vertices: seq<real>, intPositions: seq<real>)
    requires |samples| == PointCount(NbColumns, NbLines)
    ensures |vertices| == |intPositions| == 248832
    ensures IsTargetBuffer(vertices, NbColumns, NbLines)
    ensures IsStartBuffer(intPositions, NbColumns, NbLines, samples)
  {
    vertices, intPositions := BuildBuffers(NbColumns, NbLines, samples);
  }

  /** The configured grid: 288 columns and lines, 82,944 points, an exact half-width of 144. */
  lemma ConfiguredGrid()
    ensures NbColumns == NbLines == 288
    ensures PointCount(NbColumns, NbLines) == 82944
    ensures NbColumns as real / 2.0 == 144.0 && NbLines as real / 2.0 == 144.0
  {
  }

  /** Every cell `(i, y)` of the grid is in the target buffer, at flat index `i * nbLines + y`. */
  lemma TargetHasEveryCell(vertices: seq<real>, nbColumns: nat, nbLines: nat)
    requires IsTargetBuffer(vertices, nbColumns, nbLines)
    ensures forall i: nat, y: nat :: i < nbColumns && y < nbLines ==>
      && FlatIndex(i, y, nbLines) < PointCount(nbColumns, nbLines)
      && PointAt(vertices, FlatIndex(i, y, nbLines)) == Vec3(i as real, y as real, 0.0)
  {
    forall i: nat, y: nat | i < nbColumns && y < nbLines
      ensures FlatIndex(i, y, nbLines) < PointCount(nbColumns, nbLines)
      ensures PointAt(vertices, FlatIndex(i, y, nbLines)) == Vec3(i as real, y as real, 0.0)
    {
      FlatIndexInRange(i, y, nbColumns, nbLines);
      FlatIndexRoundTrip(i, y, nbLines);
    }
  }

  /** Every target point is a cell of the grid, at depth 0. */
  lemma TargetPointsInGrid(vertices: seq<real>, nbColumns: nat, nbLines: nat)
    requires IsTargetBuffer(vertices, nbColumns, nbLines)
    ensures forall k: nat :: k < PointCount(nbColumns, nbLines) ==>
      && 0.0 <= PointAt(vertices, k).x < nbColumns as real
      && 0.0 <= PointAt(vertices, k).y < nbLines as real
      && PointAt(vertices, k).z == 0.0
  {

  }

  /** No two target points coincide, so no cell appears twice. */
  lemma TargetPointsDistinct(vertices: seq<real>, nbColumns: nat, nbLines: nat)
    requires IsTargetBuffer(vertices, nbColumns, nbLines)
    ensures forall k1: nat, k2: nat ::
      (k1 < PointCount(nbColumns, nbLines) && k2 < PointCount(nbColumns, nbLines) &&
       PointAt(vertices, k1) == PointAt(vertices, k2)) ==> k1 == k2
  {

  }

  /**
    Index alignment: point `k` of the start buffer lies over the same cell as
    point `k` of the target buffer, shifted by half the grid size in x and y.
   */
  lemma StartAlignedWithTarget(vertices: seq<real>, starts: seq<real>,
                               nbColumns: nat, nbLines: nat, samples: seq<real>)
    requires IsTargetBuffer(vertices, nbColumns, nbLines)
    requires IsStartBuffer(starts, nbColumns, nbLines, samples)
    ensures forall k: nat :: k < PointCount(nbColumns, nbLines) ==>
      && PointAt(starts, k).x == PointAt(vertices, k).x - nbColumns as real / 2.0
      && PointAt(starts, k).y == PointAt(vertices, k).y - nbLines as real / 2.0
  {
  }

  /** With generator samples in `[0, 1)`, every start depth lies in `[0, 800)`. */
  lemma StartDepthBounded(starts: seq<real>, nbColumns: nat, nbLines: nat, samples: seq<real>)
    requires IsStartBuffer(starts, nbColumns, nbLines, samples)
    requires UnitSamples(samples)
    ensures forall k: nat :: k < PointCount(nbColumns, nbLines) ==>
      0.0 <= PointAt(starts, k).z < MaxDepth
  {
  }

  /** The buffers depend on the samples only through the depths: equal samples, equal buffers. */
  lemma BuffersDeterministic(v1: seq<real>, v2: seq<real>, s1: seq<real>, s2: seq<real>,
                             nbColumns: nat, nbLines: nat, samples: seq<real>)
    requires IsTargetBuffer(v1, nbColumns, nbLines) && IsTargetBuffer(v2, nbColumns, nbLines)
    requires IsStartBuffer(s1, nbColumns, nbLines, samples)
    requires IsStartBuffer(s2, nbColumns, nbLines, samples)
    ensures v1 == v2 && s1 == s2
  {
    forall j | 0 <= j < |v1|
      ensures v1[j] == v2[j] && s1[j] == s2[j]
    {
      var k := j / 3;
      assert PointAt(v1, k) == PointAt(v2, k);
      assert PointAt(s1, k) == PointAt(s2, k);
    }
  }
}
