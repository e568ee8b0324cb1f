/** Fractal height-map synthesis, `Noise.GenerateNoiseMap`: per-octave
    sampling offsets from a seeded stream, layered Perlin samples with
    geometric amplitude and frequency, a running extremum scan, and the
    `InverseLerp` rescale into [0, 1].

    The engine's Perlin sampler is a parameter `perlin`; the seeded
    `System.Random` is the stream `draws`, whose k-th element is the k-th
    value `Next(-100000, 100000)` returns. */
module Noise {
  import opened Wrappers
  import opened EngineTypes
  import opened Mathf
  import opened Grid

  /** The replacement for a scale that is not positive. */
  const ScaleFloor: real := 0.0001

  /** Octave offsets are drawn from [-RandomBound, RandomBound). */
  const RandomBound: int := 100000

  /** `float.MaxValue`, the sentinel the running minimum starts from. */
  const FloatMaxValue: real := 340282346638528859811704183484516925440.0

  /** The exception allocating an array of negative length raises. */
  datatype NoiseError = NegativeSize

  /** The stream keeps `Next(-100000, 100000)`'s promise: every draw lies in
      [-100000, 100000). */
  ghost predicate DrawsInRange(draws: nat -> int) {
    forall k: nat :: -RandomBound <= draws(k) < RandomBound
  }

  // ---------------------------------------------------------------------
  // Octave offsets and scale.
  // ---------------------------------------------------------------------

  /** The first `octaves` sampling offsets, the x component of octave `i`
      from draw `2i` and the y component from draw `2i + 1`, each shifted by
      the caller's `offset`. */
  function OctaveOffsets(draws: nat -> int, octaves: nat, offset: Vector2): (r: seq<Vector2>)
    ensures |r| == octaves
    ensures forall i :: 0 <= i < octaves ==>
              r[i] == Vector2(draws(2 * i) as real + offset.x, draws(2 * i + 1) as real + offset.y)
  {
    if octaves == 0 then []
    else
      var i := octaves - 1;
      OctaveOffsets(draws, i, offset) + [Vector2(draws(2 * i) as real + offset.x, draws(2 * i + 1) as real + offset.y)]
  }

  /** With a stream that keeps its promise, every offset component lies
      within 100000 of the caller's offset, below on the closed side. */
  lemma OctaveOffsetsInRange(draws: nat -> int, octaves: nat, offset: Vector2)
    requires DrawsInRange(draws)
    ensures forall i :: 0 <= i < octaves ==>
              && offset.x - RandomBound as real <= OctaveOffsets(draws, octaves, offset)[i].x < offset.x + RandomBound as real
              && offset.y - RandomBound as real <= OctaveOffsets(draws, octaves, offset)[i].y < offset.y + RandomBound as real
  {
    var r := OctaveOffsets(draws, octaves, offset);
    forall i | 0 <= i < octaves
      ensures offset.x - RandomBound as real <= r[i].x < offset.x + RandomBound as real
      ensures offset.y - RandomBound as real <= r[i].y < offset.y + RandomBound as real
    {
      assert -RandomBound <= draws(2 * i) < RandomBound;
      assert -RandomBound <= draws(2 * i + 1) < RandomBound;
    }
  }

  /** The scale actually used: a scale that is not positive becomes
      `ScaleFloor`, a positive one is kept, so sampling never divides by zero. */
  function EffectiveScale(scale: real): (r: real)
    ensures r > 0.0
    ensures scale > 0.0 ==> r == scale
    ensures scale <= 0.0 ==> r == ScaleFloor
  {
    if scale <= 0.0 then ScaleFloor else scale
  }

  // ---------------------------------------------------------------------
  // Octave accumulation.
  // ---------------------------------------------------------------------

  /** Where the per-cell accumulation samples: the half extents that centre
      sampling, the effective scale and one offset per octave. */
  datatype Sampling = Sampling(halfWidth: real, halfHeight: real, scale: real, offsets: seq<Vector2>)
  {
    predicate Valid() { scale > 0.0 }
  }

  /** The sample coordinate of a cell along one axis: centred on `half`,
      divided by the scale, stretched by the octave's frequency and shifted
      by the octave's offset. */
  function SampleCoord(cell: int, half: real, scale: real, frequency: real, offset: real): real
    requires scale > 0.0
  {
    (cell as real - half) / scale * frequency + offset
  }

  /** The Perlin sample octave `i` takes for cell (x, y) at the given frequency. */
  function OctaveSample(perlin: (real, real) -> real, s: Sampling, x: int, y: int, i: nat, frequency: real): real
    requires s.Valid() && i < |s.offsets|
  {
    perlin(SampleCoord(x, s.halfWidth, s.scale, frequency, s.offsets[i].x),
           SampleCoord(y, s.halfHeight, s.scale, frequency, s.offsets[i].y))
  }

  /** What octave `i` adds to the cell's height: the sample rescaled from
      [0, 1] to [-1, 1], weighted by the amplitude. */
  function OctaveTerm(perlin: (real, real) -> real, s: Sampling, x: int, y: int, i: nat,
                      amplitude: real, frequency: real): real
    requires s.Valid() && i < |s.offsets|
  {
    (OctaveSample(perlin, s, x, y, i, frequency) * 2.0 - 1.0) * amplitude
  }

  /** Reference definition: the first `n` octaves of cell (x, y) summed in
      closed form, octave `i` weighted by `persistance^i` and sampled at
      frequency `lacunarity^i`, the sample rescaled from [0, 1] to [-1, 1]. */
  function OctaveSum(perlin: (real, real) -> real, s: Sampling, persistance: real, lacunarity: real,
                     x: int, y: int, n: nat): real
    requires s.Valid() && n <= |s.offsets|
  {
    if n == 0 then 0.0
    else
      var i := n - 1;
      OctaveSum(perlin, s, persistance, lacunarity, x, y, i)
        + OctaveTerm(perlin, s, x, y, i, Pow(persistance, i), Pow(lacunarity, i))
  }

  /** The octave loop as written: running amplitude and frequency, each
      octave adding `(perlin * 2 - 1) * amplitude`, then multiplying the
      amplitude by the persistance and the frequency by the lacunarity. */
  function Accumulate(perlin: (real, real) -> real, s: Sampling, persistance: real, lacunarity: real,
                      x: int, y: int, i: nat, amplitude: real, frequency: real, noiseHeight: real): real
    requires s.Valid() && i <= |s.offsets|
    decreases |s.offsets| - i
  {
    if i == |s.offsets| then noiseHeight
    else
      Accumulate(perlin, s, persistance, lacunarity, x, y, i + 1, amplitude * persistance, frequency * lacunarity,
                 noiseHeight + OctaveTerm(perlin, s, x, y, i, amplitude, frequency))
  }

  /** One turn of the octave loop. */
  lemma AccumulateStep(perlin: (real, real) -> real, s: Sampling, persistance: real, lacunarity: real,
                       x: int, y: int, i: nat, amplitude: real, frequency: real, noiseHeight: real)
    requires s.Valid() && i < |s.offsets|
    ensures Accumulate(perlin, s, persistance, lacunarity, x, y, i, amplitude, frequency, noiseHeight)
         == Accumulate(perlin, s, persistance, lacunarity, x, y, i + 1, amplitude * persistance,
                       frequency * lacunarity, noiseHeight + OctaveTerm(perlin, s, x, y, i, amplitude, frequency))
  {
  }

  /** From octave `i` on, with the running values the loop has at octave `i`
      (amplitude `persistance^i`, frequency `lacunarity^i`, the first `i`
      octaves summed), the loop ends at the full closed-form sum. */
  lemma {:induction false} AccumulateIsOctaveSum(perlin: (real, real) -> real, s: Sampling, persistance: real,
                                                 lacunarity: real, x: int, y: int, i: nat)
    requires s.Valid() && i <= |s.offsets|
    ensures Accumulate(perlin, s, persistance, lacunarity, x, y, i, Pow(persistance, i), Pow(lacunarity, i),
                       OctaveSum(perlin, s, persistance, lacunarity, x, y, i))
            == OctaveSum(perlin, s, persistance, lacunarity, x, y, |s.offsets|)
    decreases |s.offsets| - i
  {
    if i < |s.offsets| {
      var amplitude, frequency := Pow(persistance, i), Pow(lacunarity, i);
      var sum := OctaveSum(perlin, s, persistance, lacunarity, x, y, i);
      var term := OctaveTerm(perlin, s, x, y, i, amplitude, frequency);
      assert Pow(persistance, i + 1) == amplitude * persistance;
      assert Pow(lacunarity, i + 1) == frequency * lacunarity;
      assert OctaveSum(perlin, s, persistance, lacunarity, x, y, i + 1) == sum + term;
      AccumulateStep(perlin, s, persistance, lacunarity, x, y, i, amplitude, frequency, sum);
      AccumulateIsOctaveSum(perlin, s, persistance, lacunarity, x, y, i + 1);
    }
  }

  /** The raw (unnormalised) height of cell (x, y): the octave loop started
      with amplitude 1, frequency 1 and height 0. */
  function RawHeight(perlin: (real, real) -> real, s: Sampling, persistance: real, lacunarity: real,
                     x: int, y: int): (h: real)
    requires s.Valid()
    ensures h == OctaveSum(perlin, s, persistance, lacunarity, x, y, |s.offsets|)
    ensures |s.offsets| == 0 ==> h == 0.0
  {
    AccumulateIsOctaveSum(perlin, s, persistance, lacunarity, x, y, 0);
    Accumulate(perlin, s, persistance, lacunarity, x, y, 0, 1.0, 1.0, 0.0)
  }

  /** The first pass's values, before normalisation. */
  function RawMap(perlin: (real, real) -> real, s: Sampling, persistance: real, lacunarity: real,
                  mapWidth: nat, mapHeight: nat): (m: HeightMap)
    requires s.Valid()
    ensures m.Valid() && m.width == mapWidth && m.height == mapHeight
    ensures forall x, y :: 0 <= x < mapWidth && 0 <= y < mapHeight ==>
              m.At(x, y) == OctaveSum(perlin, s, persistance, lacunarity, x, y, |s.offsets|)
  {
    HeightMap(mapWidth, mapHeight,
              seq(mapWidth, x => seq(mapHeight, y => RawHeight(perlin, s, persistance, lacunarity, x, y))))
  }

  // ---------------------------------------------------------------------
  // Scan order and extremum tracking.
  // ---------------------------------------------------------------------

  /** The first `n` rows of a map, each row left to right: the order the
      first pass visits cells in. */
  function ScanRows(m: HeightMap, n: nat): (vals: seq<real>)
    requires m.Valid() && n <= m.height
    ensures |vals| == n * m.width
  {
    if n == 0 then []
    else ScanRows(m, n - 1) + seq(m.width, x requires 0 <= x < m.width => m.At(x, n - 1))
  }

  /** Every cell of the map, in the order the first pass visits them. */
  function ScanOrder(m: HeightMap): seq<real>
    requires m.Valid()
  {
    ScanRows(m, m.height)
  }

  /** The scan visits cell (x, y) at its flat index `y * width + x`. */
  lemma {:induction false} ScanRowsAt(m: HeightMap, n: nat, x: nat, y: nat)
    requires m.Valid() && n <= m.height && x < m.width && y < n
    ensures Index(m.width, x, y) < |ScanRows(m, n)|
    ensures ScanRows(m, n)[Index(m.width, x, y)] == m.At(x, y)
  {
    if y < n - 1 {
      ScanRowsAt(m, n - 1, x, y);
    }
  }

  /** Each value of the scan is the value of some cell. */
  lemma {:induction false} ScanRowsFromCells(m: HeightMap, n: nat, k: nat)
    requires m.Valid() && n <= m.height && k < |ScanRows(m, n)|
    ensures exists x, y :: 0 <= x < m.width && 0 <= y < n && ScanRows(m, n)[k] == m.At(x, y)
  {
    var prev := ScanRows(m, n - 1);
    if k < |prev| {
      ScanRowsFromCells(m, n - 1, k);
    } else {
      var x := k - |prev|;
      assert ScanRows(m, n)[k] == m.At(x, n - 1);
    }
  }

  /** The running extrema; `None` is the sentinel start value
      (`float.MinValue` for the maximum, `float.MaxValue` for the minimum). */
  datatype Extrema = Extrema(max: Option<real>, min: Option<real>)

  const Unset: Extrema := Extrema(None, None)

  /** `v` is the largest value of `vals`. */
  ghost predicate IsMaxOf(vals: seq<real>, v: real) {
    (exists k :: 0 <= k < |vals| && vals[k] == v) && forall k :: 0 <= k < |vals| ==> vals[k] <= v
  }

  /** `v` is the smallest value of `vals`. */
  ghost predicate IsMinOf(vals: seq<real>, v: real) {
    (exists k :: 0 <= k < |vals| && vals[k] == v) && forall k :: 0 <= k < |vals| ==> v <= vals[k]
  }

  /** One step of the tracking as written: a value above the running
      maximum raises it, and only a value that does not is compared with the
      running minimum (`if` ... `else if`). */
  function TrackAsWritten(e: Extrema, v: real): Extrema {
    if e.max.None? || v > e.max.value then e.(max := Some(v))
    else if e.min.None? || v < e.min.value then e.(min := Some(v))
    else e
  }

  /** The tracking as written, run over the values in scan order. */
  function ScanAsWritten(vals: seq<real>): Extrema {
    if |vals| == 0 then Unset else TrackAsWritten(ScanAsWritten(vals[..|vals| - 1]), vals[|vals| - 1])
  }

  /** One step of the corrected tracking: the value is compared with both
      running extrema independently. */
  function Track(e: Extrema, v: real): Extrema {
    Extrema(if e.max.None? || v > e.max.value then Some(v) else e.max,
            if e.min.None? || v < e.min.value then Some(v) else e.min)
  }

  /** The corrected tracking, run over the values in scan order. */
  function Scan(vals: seq<real>): Extrema {
    if |vals| == 0 then Unset else Track(Scan(vals[..|vals| - 1]), vals[|vals| - 1])
  }

  /** Value `k` of the scan raised the running maximum: it is strictly above
      every value before it (the first value always is). */
  ghost predicate RaisesMax(vals: seq<real>, k: int)
    requires 0 <= k < |vals|
  {
    forall j :: 0 <= j < k ==> vals[j] < vals[k]
  }

  /** The corrected scan finds the true maximum and minimum, and is unset
      exactly on an empty map. */
  lemma {:induction false} ScanFindsExtrema(vals: seq<real>)
    ensures Scan(vals).max.Some? <==> |vals| > 0
    ensures Scan(vals).min.Some? <==> |vals| > 0
    ensures |vals| > 0 ==> IsMaxOf(vals, Scan(vals).max.value) && IsMinOf(vals, Scan(vals).min.value)
  {
    if |vals| > 0 {
      var prefix := vals[..|vals| - 1];
      ScanFindsExtrema(prefix);
      assert forall k :: 0 <= k < |prefix| ==> prefix[k] == vals[k];
    }
  }

  /** As written the maximum is still the true maximum: a value that is
      compared only with the minimum is never above the running maximum. */
  lemma {:induction false} ScanAsWrittenMax(vals: seq<real>)
    ensures ScanAsWritten(vals).max.Some? <==> |vals| > 0
    ensures |vals| > 0 ==> IsMaxOf(vals, ScanAsWritten(vals).max.value)
  {
    if |vals| > 0 {
      var prefix := vals[..|vals| - 1];
      ScanAsWrittenMax(prefix);
      assert forall k :: 0 <= k < |prefix| ==> prefix[k] == vals[k];
    }
  }

  /** As written the minimum is the smallest value among those that did not
      raise the running maximum, and unset when every value raised it; in
      particular the first value is never a candidate. */
  lemma {:induction false} ScanAsWrittenMin(vals: seq<real>)
    ensures ScanAsWritten(vals).min.None? <==> forall k :: 0 <= k < |vals| ==> RaisesMax(vals, k)
    ensures ScanAsWritten(vals).min.Some? ==>
              && (exists k :: 0 <= k < |vals| && !RaisesMax(vals, k) && vals[k] == ScanAsWritten(vals).min.value)
              && (forall k :: 0 <= k < |vals| && !RaisesMax(vals, k) ==> ScanAsWritten(vals).min.value <= vals[k])
  {
    if |vals| > 0 {
      var n := |vals| - 1;
      var prefix := vals[..n];
      ScanAsWrittenMin(prefix);
      ScanAsWrittenMax(prefix);
      assert forall k :: 0 <= k < n ==> prefix[k] == vals[k];
      assert forall k :: 0 <= k < n ==> (RaisesMax(prefix, k) <==> RaisesMax(vals, k));
      var e := ScanAsWritten(prefix);
      if n > 0 {
        assert RaisesMax(vals, n) <==> vals[n] > e.max.value;
      }
    }
  }

  /** Consequently the tracked minimum, when set, is never below the true
      minimum, and it never comes from the first value scanned. */
  lemma ScanAsWrittenMinBound(vals: seq<real>)
    requires |vals| > 0
    ensures ScanAsWritten(vals).min.Some? ==>
              && (forall k :: 0 <= k < |vals| && ScanAsWritten(vals).min.value > vals[k] ==> RaisesMax(vals, k))
              && (exists k :: 1 <= k < |vals| && vals[k] == ScanAsWritten(vals).min.value)
  {
    ScanAsWrittenMin(vals);
    assert RaisesMax(vals, 0);
  }

  /** `v` is the value of some cell of `m` and no cell is lower. */
  ghost predicate IsLowest(m: HeightMap, v: real)
    requires m.Valid()
  {
    && (exists x, y :: 0 <= x < m.width && 0 <= y < m.height && m.At(x, y) == v)
    && (forall x, y :: 0 <= x < m.width && 0 <= y < m.height ==> v <= m.At(x, y))
  }

  /** `v` is the value of some cell of `m` and no cell is higher. */
  ghost predicate IsHighest(m: HeightMap, v: real)
    requires m.Valid()
  {
    && (exists x, y :: 0 <= x < m.width && 0 <= y < m.height && m.At(x, y) == v)
    && (forall x, y :: 0 <= x < m.width && 0 <= y < m.height ==> m.At(x, y) <= v)
  }

  /** Scanning a non-empty map with the corrected tracking yields its lowest
      and highest cell values. */
  lemma ScanOrderExtrema(raw: HeightMap)
    requires raw.Valid() && raw.width > 0 && raw.height > 0
    ensures Scan(ScanOrder(raw)).min.Some? && Scan(ScanOrder(raw)).max.Some?
    ensures IsLowest(raw, Scan(ScanOrder(raw)).min.value)
    ensures IsHighest(raw, Scan(ScanOrder(raw)).max.value)
  {
    var vals := ScanOrder(raw);
    ScanRowsAt(raw, raw.height, 0, 0);
    ScanFindsExtrema(vals);
    var e := Scan(vals);
    var i :| 0 <= i < |vals| && vals[i] == e.min.value;
    ScanRowsFromCells(raw, raw.height, i);
    var j :| 0 <= j < |vals| && vals[j] == e.max.value;
    ScanRowsFromCells(raw, raw.height, j);
    forall x, y | 0 <= x < raw.width && 0 <= y < raw.height
      ensures e.min.value <= raw.At(x, y) <= e.max.value
    {
      ScanRowsAt(raw, raw.height, x, y);
    }
  }

  // ---------------------------------------------------------------------
  // Normalisation.
  // ---------------------------------------------------------------------

  /** The ends the rescale uses: the tracked extrema, an unset one standing
      for its sentinel start value. */
  function Bounds(e: Extrema): (real, real) {
    (e.min.GetOr(FloatMaxValue), e.max.GetOr(-FloatMaxValue))
  }

  /** The second pass: every cell replaced by `InverseLerp(lo, hi, cell)`. */
  function Normalise(raw: HeightMap, lo: real, hi: real): (m: HeightMap)
    requires raw.Valid()
    ensures m.Valid() && m.width == raw.width && m.height == raw.height
    ensures forall x, y :: 0 <= x < m.width && 0 <= y < m.height ==> 0.0 <= m.At(x, y) <= 1.0
    ensures forall x, y :: 0 <= x < m.width && 0 <= y < m.height ==> m.At(x, y) == InverseLerp(lo, hi, raw.At(x, y))
  {
    HeightMap(raw.width, raw.height,
              seq(raw.width, x requires 0 <= x < raw.width =>
                    seq(raw.height, y requires 0 <= y < raw.height => InverseLerp(lo, hi, raw.At(x, y)))))
  }

  /** The second pass with the extrema the corrected tracking finds. */
  function NormaliseByExtrema(raw: HeightMap): (m: HeightMap)
    requires raw.Valid()
    ensures m.Valid() && m.width == raw.width && m.height == raw.height
  {
    var b := Bounds(Scan(ScanOrder(raw)));
    Normalise(raw, b.0, b.1)
  }

  /** A raw map whose cells all hold one value. */
  ghost predicate Flat(raw: HeightMap, c: real)
    requires raw.Valid()
  {
    forall x, y :: 0 <= x < raw.width && 0 <= y < raw.height ==> raw.At(x, y) == c
  }

  /** A scan of a flat map holds only that value. */
  lemma {:induction false} ScanRowsFlat(raw: HeightMap, c: real, n: nat)
    requires raw.Valid() && n <= raw.height && Flat(raw, c)
    ensures forall k :: 0 <= k < |ScanRows(raw, n)| ==> ScanRows(raw, n)[k] == c
  {
    if n > 0 {
      ScanRowsFlat(raw, c, n - 1);
    }
  }

  // ---------------------------------------------------------------------
  // The generator.
  // ---------------------------------------------------------------------

  /** The sampling set-up of a call: half extents, the effective scale and
      the octave offsets drawn from the stream. */
  function SamplingFor(mapWidth: nat, mapHeight: nat, draws: nat -> int, scale: real, octaves: nat,
                       offset: Vector2): (s: Sampling)
    ensures s.Valid() && |s.offsets| == octaves
  {
    Sampling(mapWidth as real / 2.0, mapHeight as real / 2.0, EffectiveScale(scale), OctaveOffsets(draws, octaves, offset))
  }

  /** `GenerateNoiseMap`, as written: a negative width, height or octave
      count raises; otherwise every cell of a map of the requested size is
      its raw octave sum rescaled between the bounds the `if` ... `else if`
      tracking leaves, and lies in [0, 1]. */
  function GenerateNoiseMap(mapWidth: int, mapHeight: int, draws: nat -> int, scale: real, octaves: int,
                            persistance: real, lacunarity: real, offset: Vector2,
                            perlin: (real, real) -> real): (r: Result<HeightMap, NoiseError>)
    ensures r.Success? <==> mapWidth >= 0 && mapHeight >= 0 && octaves >= 0
    ensures r.Success? ==> r.value.Valid() && r.value.width == mapWidth && r.value.height == mapHeight
    ensures r.Success? ==> forall x, y :: 0 <= x < mapWidth && 0 <= y < mapHeight ==> 0.0 <= r.value.At(x, y) <= 1.0
  {
    if mapWidth < 0 || mapHeight < 0 || octaves < 0 then Failure(NegativeSize)
    else
      var s := SamplingFor(mapWidth, mapHeight, draws, scale, octaves, offset);
      var raw := RawMap(perlin, s, persistance, lacunarity, mapWidth, mapHeight);
      Success(NormaliseAsWritten(raw))
  }

  /** `GenerateNoiseMap` with the corrected extremum tracking: the same
      failures and sizes, every cell in [0, 1]. */
  function GenerateNoiseMapCorrected(mapWidth: int, mapHeight: int, draws: nat -> int, scale: real, octaves: int,
                                     persistance: real, lacunarity: real, offset: Vector2,
                                     perlin: (real, real) -> real): (r: Result<HeightMap, NoiseError>)
    ensures r.Success? <==> mapWidth >= 0 && mapHeight >= 0 && octaves >= 0
    ensures r.Success? ==> r.value.Valid() && r.value.width == mapWidth && r.value.height == mapHeight
    ensures r.Success? ==> forall x, y :: 0 <= x < mapWidth && 0 <= y < mapHeight ==> 0.0 <= r.value.At(x, y) <= 1.0
  {
    if mapWidth < 0 || mapHeight < 0 || octaves < 0 then Failure(NegativeSize)
    else
      var s := SamplingFor(mapWidth, mapHeight, draws, scale, octaves, offset);
      var raw := RawMap(perlin, s, persistance, lacunarity, mapWidth, mapHeight);
      Success(NormaliseByExtrema(raw))
  }

  /** The raw octave sums `GenerateNoiseMap` computes for a call. */
  function RawMapFor(mapWidth: nat, mapHeight: nat, draws: nat -> int, scale: real, octaves: nat,
                     persistance: real, lacunarity: real, offset: Vector2,
                     perlin: (real, real) -> real): (raw: HeightMap)
    ensures raw.Valid() && raw.width == mapWidth && raw.height == mapHeight
  {
    RawMap(perlin, SamplingFor(mapWidth, mapHeight, draws, scale, octaves, offset), persistance, lacunarity,
           mapWidth, mapHeight)
  }

  /** As written, every cell of a successful non-empty result is its raw
      octave sum rescaled between the bounds the `if` ... `else if` tracking
      leaves: a high end that is the highest raw value, and a low end that
      is either `float.MaxValue` or the raw value of some cell. */
  lemma GenerateNoiseMapRescales(mapWidth: nat, mapHeight: nat, draws: nat -> int, scale: real, octaves: nat,
                                 persistance: real, lacunarity: real, offset: Vector2,
                                 perlin: (real, real) -> real)
    requires mapWidth > 0 && mapHeight > 0
    ensures var r := GenerateNoiseMap(mapWidth, mapHeight, draws, scale, octaves, persistance, lacunarity, offset, perlin);
            var raw := RawMapFor(mapWidth, mapHeight, draws, scale, octaves, persistance, lacunarity, offset, perlin);
            var b := Bounds(ScanAsWritten(ScanOrder(raw)));
            && r.Success?
            && IsHighest(raw, b.1)
            && (b.0 == FloatMaxValue || exists x, y :: 0 <= x < mapWidth && 0 <= y < mapHeight && raw.At(x, y) == b.0)
            && forall x, y :: 0 <= x < mapWidth && 0 <= y < mapHeight ==>
                 r.value.At(x, y) == InverseLerp(b.0, b.1, raw.At(x, y))
  {
    var raw := RawMapFor(mapWidth, mapHeight, draws, scale, octaves, persistance, lacunarity, offset, perlin);
    AsWrittenBounds(raw);
    var r := GenerateNoiseMap(mapWidth, mapHeight, draws, scale, octaves, persistance, lacunarity, offset, perlin);
    assert r.value == NormaliseAsWritten(raw);
  }

  /** The bounds the as-written tracking hands to the rescale of a
      non-empty map: the high end is the highest cell value, and the low end
      is the sentinel or some cell's value. */
  lemma AsWrittenBounds(raw: HeightMap)
    requires raw.Valid() && raw.width > 0 && raw.height > 0
    ensures var b := Bounds(ScanAsWritten(ScanOrder(raw)));
            && IsHighest(raw, b.1)
            && (b.0 == FloatMaxValue || exists x, y :: 0 <= x < raw.width && 0 <= y < raw.height && raw.At(x, y) == b.0)
  {
    var vals := ScanOrder(raw);
    var e := ScanAsWritten(vals);
    ScanRowsAt(raw, raw.height, 0, 0);
    ScanAsWrittenMax(vals);
    ScanAsWrittenMin(vals);
    var j :| 0 <= j < |vals| && vals[j] == e.max.value;
    ScanRowsFromCells(raw, raw.height, j);
    forall x, y | 0 <= x < raw.width && 0 <= y < raw.height
      ensures raw.At(x, y) <= e.max.value
    {
      ScanRowsAt(raw, raw.height, x, y);
    }
    if e.min.Some? {
      var i :| 0 <= i < |vals| && !RaisesMax(vals, i) && vals[i] == e.min.value;
      ScanRowsFromCells(raw, raw.height, i);
    }
  }

  /** Every cell of a successful non-empty result of the corrected generator
      is its raw octave sum rescaled between the lowest and the highest raw
      value. */
  lemma CorrectedNoiseMapRescales(mapWidth: nat, mapHeight: nat, draws: nat -> int, scale: real, octaves: nat,
                                  persistance: real, lacunarity: real, offset: Vector2,
                                  perlin: (real, real) -> real)
    requires mapWidth > 0 && mapHeight > 0
    ensures var r := GenerateNoiseMapCorrected(mapWidth, mapHeight, draws, scale, octaves, persistance, lacunarity, offset, perlin);
            var raw := RawMapFor(mapWidth, mapHeight, draws, scale, octaves, persistance, lacunarity, offset, perlin);
            && r.Success?
            && exists lo, hi :: IsLowest(raw, lo) && IsHighest(raw, hi) &&
                 forall x, y :: 0 <= x < mapWidth && 0 <= y < mapHeight ==>
                   r.value.At(x, y) == InverseLerp(lo, hi, raw.At(x, y))
  {
    var raw := RawMapFor(mapWidth, mapHeight, draws, scale, octaves, persistance, lacunarity, offset, perlin);
    ScanOrderExtrema(raw);
    var e := Scan(ScanOrder(raw));
    var r := GenerateNoiseMapCorrected(mapWidth, mapHeight, draws, scale, octaves, persistance, lacunarity, offset, perlin);
    assert r.value == NormaliseByExtrema(raw);
    assert IsLowest(raw, e.min.value) && IsHighest(raw, e.max.value);
  }

  /** Consequences for a successful non-empty result of the corrected
      generator: a lowest raw cell maps to 0, a highest raw cell maps to 1
      unless the raw map is flat, and the order of raw values is kept. */
  lemma CorrectedNoiseMapOrder(mapWidth: nat, mapHeight: nat, draws: nat -> int, scale: real, octaves: nat,
                               persistance: real, lacunarity: real, offset: Vector2,
                               perlin: (real, real) -> real, x0: nat, y0: nat, x1: nat, y1: nat)
    requires x0 < mapWidth && y0 < mapHeight && x1 < mapWidth && y1 < mapHeight
    ensures var r := GenerateNoiseMapCorrected(mapWidth, mapHeight, draws, scale, octaves, persistance, lacunarity, offset, perlin);
            var raw := RawMapFor(mapWidth, mapHeight, draws, scale, octaves, persistance, lacunarity, offset, perlin);
            && r.Success?
            && (IsLowest(raw, raw.At(x0, y0)) ==> r.value.At(x0, y0) == 0.0)
            && (IsHighest(raw, raw.At(x0, y0)) && raw.At(x1, y1) < raw.At(x0, y0) ==> r.value.At(x0, y0) == 1.0)
            && (raw.At(x0, y0) <= raw.At(x1, y1) ==> r.value.At(x0, y0) <= r.value.At(x1, y1))
  {
    CorrectedNoiseMapRescales(mapWidth, mapHeight, draws, scale, octaves, persistance, lacunarity, offset, perlin);
    var raw := RawMapFor(mapWidth, mapHeight, draws, scale, octaves, persistance, lacunarity, offset, perlin);
    var r := GenerateNoiseMapCorrected(mapWidth, mapHeight, draws, scale, octaves, persistance, lacunarity, offset, perlin);
    var lo, hi :| IsLowest(raw, lo) && IsHighest(raw, hi) &&
                  forall x, y :: 0 <= x < mapWidth && 0 <= y < mapHeight ==>
                    r.value.At(x, y) == InverseLerp(lo, hi, raw.At(x, y));
    var u, v := raw.At(x0, y0), raw.At(x1, y1);
    assert lo <= u <= hi && lo <= v <= hi;
    assert IsLowest(raw, u) ==> u == lo;
    assert IsHighest(raw, u) ==> u == hi;
    if lo < hi && u <= v {
      InverseLerpMonotone(lo, hi, u, v);
    }
  }

  /** A flat non-empty raw map normalises to 0 everywhere under the
      corrected tracking. */
  lemma FlatMapNormalisesToZero(raw: HeightMap, c: real)
    requires raw.Valid() && raw.width > 0 && raw.height > 0 && Flat(raw, c)
    ensures forall x, y :: 0 <= x < raw.width && 0 <= y < raw.height ==> NormaliseByExtrema(raw).At(x, y) == 0.0
  {
    ScanOrderExtrema(raw);
  }

  // ---------------------------------------------------------------------
  // The extremum tracking as written, against the corrected one.
  // ---------------------------------------------------------------------

  /** The normalised map the as-written tracking produces. */
  function NormaliseAsWritten(raw: HeightMap): (m: HeightMap)
    requires raw.Valid()
    ensures m.Valid() && m.width == raw.width && m.height == raw.height
  {
    var b := Bounds(ScanAsWritten(ScanOrder(raw)));
    Normalise(raw, b.0, b.1)
  }

  /** When every value of the scan raises the running maximum (the scan is
      strictly increasing, a single cell included), the as-written minimum
      stays at its sentinel and every cell of the result becomes 1. */
  lemma AsWrittenRisingScanIsFlat(raw: HeightMap)
    requires raw.Valid() && raw.width > 0 && raw.height > 0
    requires forall k :: 0 <= k < |ScanOrder(raw)| ==> RaisesMax(ScanOrder(raw), k)
    requires forall x, y :: 0 <= x < raw.width && 0 <= y < raw.height ==> raw.At(x, y) < FloatMaxValue
    ensures forall x, y :: 0 <= x < raw.width && 0 <= y < raw.height ==> NormaliseAsWritten(raw).At(x, y) == 1.0
  {
    var vals := ScanOrder(raw);
    ScanAsWrittenMin(vals);
    ScanAsWrittenMax(vals);
    ScanRowsAt(raw, raw.height, 0, 0);
    var e := ScanAsWritten(vals);
    var k :| 0 <= k < |vals| && vals[k] == e.max.value;
    ScanRowsFromCells(raw, raw.height, k);
    forall x, y | 0 <= x < raw.width && 0 <= y < raw.height
      ensures raw.At(x, y) <= e.max.value
    {
      ScanRowsAt(raw, raw.height, x, y);
    }
  }

  /** As written, a scan of two or more equal values leaves both extrema at
      that value: the first sets the maximum, the second is not above it and
      so sets the minimum, and the rest change neither. */
  lemma {:induction false} AsWrittenConstantScan(vals: seq<real>, c: real)
    requires |vals| >= 2 && forall k :: 0 <= k < |vals| ==> vals[k] == c
    ensures ScanAsWritten(vals) == Extrema(Some(c), Some(c))
  {
    var prefix := vals[..|vals| - 1];
    if |vals| == 2 {
      AsWrittenSingleScan(prefix, c);
    } else {
      AsWrittenConstantScan(prefix, c);
    }
  }

  /** As written, a scan of a single value sets only the maximum. */
  lemma AsWrittenSingleScan(vals: seq<real>, c: real)
    requires |vals| == 1 && vals[0] == c
    ensures ScanAsWritten(vals) == Extrema(Some(c), None)
  {
    assert vals[..0] == [];
  }

  /** As written, a flat raw map of two or more cells normalises to 0
      everywhere, while a single cell (below `float.MaxValue`) becomes 1:
      its value raised the maximum, so the minimum keeps its sentinel. */
  lemma AsWrittenFlatMap(raw: HeightMap, c: real)
    requires raw.Valid() && raw.width > 0 && raw.height > 0 && Flat(raw, c)
    ensures raw.width * raw.height >= 2 ==>
              forall x, y :: 0 <= x < raw.width && 0 <= y < raw.height ==> NormaliseAsWritten(raw).At(x, y) == 0.0
    ensures raw.width * raw.height == 1 && c < FloatMaxValue ==> NormaliseAsWritten(raw).At(0, 0) == 1.0
    ensures raw.width * raw.height == 1 && c == FloatMaxValue ==> NormaliseAsWritten(raw).At(0, 0) == 0.0
  {
    AsWrittenFlatBounds(raw, c);
  }

  /** The bounds the as-written tracking leaves on a flat raw map: the value
      at both ends for two or more cells, the sentinel low end for one. */
  lemma AsWrittenFlatBounds(raw: HeightMap, c: real)
    requires raw.Valid() && raw.width > 0 && raw.height > 0 && Flat(raw, c)
    ensures raw.width * raw.height >= 2 ==> Bounds(ScanAsWritten(ScanOrder(raw))) == (c, c)
    ensures raw.width * raw.height == 1 ==> Bounds(ScanAsWritten(ScanOrder(raw))) == (FloatMaxValue, c)
  {
    var vals := ScanOrder(raw);
    assert |vals| == raw.width * raw.height;
    ScanRowsFlat(raw, c, raw.height);
    if |vals| >= 2 {
      AsWrittenConstantScan(vals, c);
    } else if |vals| == 1 {
      AsWrittenSingleScan(vals, c);
    }
  }

  /** The two trackings rescale alike whenever the true minimum is reached
      by a value that did not raise the running maximum: then the as-written
      minimum is the true one, and the maximum always is. */
  lemma AsWrittenAgreesWithCorrected(raw: HeightMap)
    requires raw.Valid()
    requires exists k :: 0 <= k < |ScanOrder(raw)| && !RaisesMax(ScanOrder(raw), k) && IsMinOf(ScanOrder(raw), ScanOrder(raw)[k])
    ensures NormaliseAsWritten(raw) == NormaliseByExtrema(raw)
  {
    var vals := ScanOrder(raw);
    var k :| 0 <= k < |vals| && !RaisesMax(vals, k) && IsMinOf(vals, vals[k]);
    ScanAsWrittenMax(vals);
    ScanAsWrittenMin(vals);
    ScanFindsExtrema(vals);
    var w, e := ScanAsWritten(vals), Scan(vals);
    assert w.max.value == e.max.value;
    assert w.min.Some?;
    var i :| 0 <= i < |vals| && !RaisesMax(vals, i) && vals[i] == w.min.value;
    assert w.min.value == vals[k] == e.min.value;
    assert Bounds(w) == Bounds(e);
  }

  /** Two cells side by side, raw values `a` then `b`. */
  function TwoCells(a: real, b: real): (m: HeightMap)
    ensures m.Valid() && m.width == 2 && m.height == 1
    ensures m.At(0, 0) == a && m.At(1, 0) == b
  {
    HeightMap(2, 1, [[a], [b]])
  }

  /** Two cells whose raw values rise from left to right (0 then 1, say):
      as written both cells become 1, the corrected tracking maps them to 0
      and 1. */
  lemma AsWrittenTwoCellMap(a: real, b: real)
    requires a < b < FloatMaxValue
    ensures NormaliseAsWritten(TwoCells(a, b)).At(0, 0) == 1.0 && NormaliseAsWritten(TwoCells(a, b)).At(1, 0) == 1.0
    ensures NormaliseByExtrema(TwoCells(a, b)).At(0, 0) == 0.0 && NormaliseByExtrema(TwoCells(a, b)).At(1, 0) == 1.0
  {
    TwoCellsBounds(a, b);
  }

  /** The ends each tracking hands to the rescale on two rising cells. */
  lemma TwoCellsBounds(a: real, b: real)
    requires a < b
    ensures Bounds(ScanAsWritten(ScanOrder(TwoCells(a, b)))) == (FloatMaxValue, b)
    ensures Bounds(Scan(ScanOrder(TwoCells(a, b)))) == (a, b)
  {
    var m := TwoCells(a, b);
    assert ScanRows(m, 0) == [];
    assert ScanOrder(m) == [a, b];
    assert [a, b][..1] == [a];
    assert [a][..0] == [];
    assert ScanAsWritten([a]) == Extrema(Some(a), None);
    assert ScanAsWritten([a, b]) == Extrema(Some(b), None);
    assert Scan([a]) == Extrema(Some(a), Some(a));
    assert Scan([a, b]) == Extrema(Some(b), Some(a));
  }

  /** The scan 0, 2, 1: as written the 0 raises the maximum and is never
      compared with the minimum, which ends at 1; the corrected minimum is 0. */
  lemma AsWrittenMissesFirstMinimum()
    ensures ScanAsWritten([0.0, 2.0, 1.0]) == Extrema(Some(2.0), Some(1.0))
    ensures Scan([0.0, 2.0, 1.0]) == Extrema(Some(2.0), Some(0.0))
  {
    assert [0.0, 2.0, 1.0][..2] == [0.0, 2.0];
    assert [0.0, 2.0][..1] == [0.0];
    assert [0.0][..0] == [];
  }
}
