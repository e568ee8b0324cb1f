/** The inspector-facing generator, `MapGenerator`: it asks `Noise` for a
    `mapChunkSize` x `mapChunkSize` height map, colours every cell by the
    first terrain band whose threshold is not below the cell's height, and
    keeps two settings in range when the inspector edits them.

    Displaying the result (`MapDisplay`, `TextureGenerator`) is not part of
    this model; the draw mode is kept only as a setting. */
module MapGenerator {
  import opened Wrappers
  import opened EngineTypes
  import opened Grid
  import Noise

  /** Side length of the generated square map. */
  const MapChunkSize: nat := 241

  /** A terrain band: cells up to `height` (and above every earlier band)
      are drawn in `colour`. */
  datatype TerrainType = TerrainType(name: string, height: real, colour: Colour)

  /** What the generator hands to the display. */
  datatype DrawMode = NoiseMap | ColourMap | Mesh

  /** The inspector settings. `seed` selects the random stream the octave
      offsets are drawn from; the stream itself is a parameter of
      `GenerateMap`. */
  datatype MapSettings = MapSettings(
    drawMode: DrawMode,
    levelOfDetail: int,
    noiseScale: real,
    octaves: int,
    persistance: real,
    lacunarity: real,
    seed: int,
    offset: Vector2,
    meshHeightMultiplier: real,
    autoUpdate: bool,
    regions: seq<TerrainType>)

  // ---------------------------------------------------------------------
  // Settings validation.
  // ---------------------------------------------------------------------

  /** `OnValidate`: a lacunarity below 1 is raised to 1 and a negative
      octave count to 0; nothing else changes. */
  function OnValidate(s: MapSettings): (r: MapSettings)
    ensures r.lacunarity >= 1.0 && r.octaves >= 0
    ensures s.lacunarity >= 1.0 ==> r.lacunarity == s.lacunarity
    ensures s.lacunarity < 1.0 ==> r.lacunarity == 1.0
    ensures s.octaves >= 0 ==> r.octaves == s.octaves
    ensures s.octaves < 0 ==> r.octaves == 0
    ensures r.(lacunarity := s.lacunarity, octaves := s.octaves) == s
  {
    var s1 := if s.lacunarity < 1.0 then s.(lacunarity := 1.0) else s;
    if s1.octaves < 0 then s1.(octaves := 0) else s1
  }

  /** Settings `OnValidate` leaves alone. */
  predicate InRange(s: MapSettings) {
    s.lacunarity >= 1.0 && s.octaves >= 0
  }

  /** Validation fixes exactly the out-of-range settings: settings already in
      range are returned unchanged, and validating twice is validating once. */
  lemma OnValidateIdempotent(s: MapSettings)
    ensures InRange(s) <==> OnValidate(s) == s
    ensures InRange(OnValidate(s))
    ensures OnValidate(OnValidate(s)) == OnValidate(s)
  {
  }

  // ---------------------------------------------------------------------
  // Classification of one height.
  // ---------------------------------------------------------------------

  /** Reference definition: the first band at or after `from` whose
      threshold is not below `h`. */
  function FirstRegionFrom(h: real, regions: seq<TerrainType>, from: nat): (r: Option<nat>)
    requires from <= |regions|
    ensures r.Some? ==> from <= r.value < |regions| && h <= regions[r.value].height
    ensures r.Some? ==> forall j :: from <= j < r.value ==> regions[j].height < h
    ensures r.None? <==> forall j :: from <= j < |regions| ==> regions[j].height < h
    decreases |regions| - from
  {
    if from == |regions| then None
    else if h <= regions[from].height then Some(from)
    else FirstRegionFrom(h, regions, from + 1)
  }

  /** The band a cell of height `h` falls in: the first whose threshold is
      not below `h`, or none when every threshold is below it. */
  function FirstRegion(h: real, regions: seq<TerrainType>): (r: Option<nat>)
    ensures r.Some? ==> r.value < |regions| && h <= regions[r.value].height
    ensures r.Some? ==> forall j :: 0 <= j < r.value ==> regions[j].height < h
    ensures r.None? <==> forall j :: 0 <= j < |regions| ==> regions[j].height < h
  {
    FirstRegionFrom(h, regions, 0)
  }

  /** The colour a cell of height `h` gets: its band's colour, or the colour
      a fresh colour array holds when no band takes it. */
  function RegionColour(h: real, regions: seq<TerrainType>): Colour {
    match FirstRegion(h, regions)
    case Some(i) => regions[i].colour
    case None => Clear
  }

  /** The region loop: scan the bands in order and stop at the first whose
      threshold is not below `h`. */
  method FindRegion(h: real, regions: seq<TerrainType>) returns (r: Option<nat>)
    ensures r == FirstRegion(h, regions)
  {
    r := None;
    var i := 0;
    while i < |regions|
      invariant 0 <= i <= |regions|
      invariant forall j :: 0 <= j < i ==> regions[j].height < h
    {
      if h <= regions[i].height {
        r := Some(i);
        break;
      }
      i := i + 1;
    }
    FirstRegionUnique(h, regions, r);
  }

  /** The first-match properties pin the band down: any answer that is a
      band not below `h` with every earlier band below `h`, or none when all
      are below, is `FirstRegion`'s. */
  lemma FirstRegionUnique(h: real, regions: seq<TerrainType>, r: Option<nat>)
    requires r.Some? ==> r.value < |regions| && h <= regions[r.value].height
    requires r.Some? ==> forall j :: 0 <= j < r.value ==> regions[j].height < h
    requires r.None? ==> forall j :: 0 <= j < |regions| ==> regions[j].height < h
    ensures r == FirstRegion(h, regions)
  {
    var f := FirstRegion(h, regions);
    if r.Some? && f.Some? {
      assert !(r.value < f.value) && !(f.value < r.value);
    }
  }

  /** Bands whose thresholds never decrease; equal thresholds are allowed. */
  predicate NonDecreasing(regions: seq<TerrainType>) {
    forall i, j :: 0 <= i < j < |regions| ==> regions[i].height <= regions[j].height
  }

  /** With non-decreasing thresholds the bands partition the heights into
      intervals: `h` falls in band `i` exactly when it lies above band
      `i - 1`'s threshold (if any) and at or below band `i`'s. A band whose
      threshold equals its predecessor's gets an empty interval. */
  lemma NonDecreasingBandsClassify(h: real, regions: seq<TerrainType>, i: nat)
    requires NonDecreasing(regions) && i < |regions|
    ensures FirstRegion(h, regions) == Some(i) <==>
              (i == 0 || regions[i - 1].height < h) && h <= regions[i].height
  {
    var f := FirstRegion(h, regions);
    if (i == 0 || regions[i - 1].height < h) && h <= regions[i].height {
      FirstRegionUnique(h, regions, Some(i));
    }
  }

  /** A band whose threshold is at least 1 catches every height in [0, 1]. */
  lemma TopBandCoversUnit(h: real, regions: seq<TerrainType>, top: nat)
    requires top < |regions| && regions[top].height >= 1.0 && 0.0 <= h <= 1.0
    ensures FirstRegion(h, regions).Some? && FirstRegion(h, regions).value <= top
  {
  }

  // ---------------------------------------------------------------------
  // Classification of a whole map.
  // ---------------------------------------------------------------------

  /** Cells (x', y) of row `y` with x' < x have their band's colour at their
      flat index. */
  ghost predicate RowClassified(noiseMap: HeightMap, regions: seq<TerrainType>, colourMap: seq<Colour>,
                                x: nat, y: nat)
    requires noiseMap.Valid() && x <= noiseMap.width && y < noiseMap.height
  {
    forall x' :: 0 <= x' < x ==>
      Index(noiseMap.width, x', y) < |colourMap| &&
      colourMap[Index(noiseMap.width, x', y)] == RegionColour(noiseMap.At(x', y), regions)
  }

  /** Every cell of the rows above `y` has its band's colour at its flat
      index. */
  ghost predicate RowsClassified(noiseMap: HeightMap, regions: seq<TerrainType>, colourMap: seq<Colour>, y: nat)
    requires noiseMap.Valid() && y <= noiseMap.height
  {
    forall x', y' :: 0 <= x' < noiseMap.width && 0 <= y' < y ==>
      Index(noiseMap.width, x', y') < |colourMap| &&
      colourMap[Index(noiseMap.width, x', y')] == RegionColour(noiseMap.At(x', y'), regions)
  }

  /** The middle loop: colour row `y`, touching no slot outside it. */
  method ClassifyRow(noiseMap: HeightMap, regions: seq<TerrainType>, y: nat, colourMap0: seq<Colour>)
    returns (colourMap: seq<Colour>)
    requires noiseMap.Valid() && y < noiseMap.height
    requires |colourMap0| == noiseMap.width * noiseMap.height
    requires forall k :: Index(noiseMap.width, 0, y) <= k < |colourMap0| ==> colourMap0[k] == Clear
    ensures |colourMap| == |colourMap0|
    ensures RowClassified(noiseMap, regions, colourMap, noiseMap.width, y)
    ensures forall k :: 0 <= k < |colourMap| && (k < Index(noiseMap.width, 0, y) || Index(noiseMap.width, noiseMap.width, y) <= k) ==>
              colourMap[k] == colourMap0[k]
  {
    var w := noiseMap.width;
    colourMap := colourMap0;
    var x := 0;
    while x < w
      invariant 0 <= x <= w
      invariant |colourMap| == |colourMap0|
      invariant RowClassified(noiseMap, regions, colourMap, x, y)
      invariant forall k :: 0 <= k < |colourMap| && (k < Index(w, 0, y) || Index(w, x, y) <= k) ==>
                  colourMap[k] == colourMap0[k]
    {
      var currentHeight := noiseMap.At(x, y);
      var i := FindRegion(currentHeight, regions);
      IndexInRange(w, noiseMap.height, x, y);
      var k := Index(w, x, y);
      if i.Some? {
        colourMap := colourMap[k := regions[i.value].colour];
      }
      assert colourMap[k] == RegionColour(currentHeight, regions);
      x := x + 1;
    }
  }

  /** The classification loop of `GenerateMap`: a fresh colour array of one
      slot per cell, and for each cell in row-major order the colour of the
      first band not below its height written at `y * width + x`; a cell no
      band takes keeps the fresh array's colour. */
  method ClassifyMap(noiseMap: HeightMap, regions: seq<TerrainType>) returns (colourMap: seq<Colour>)
    requires noiseMap.Valid()
    ensures |colourMap| == noiseMap.width * noiseMap.height
    ensures forall x, y :: 0 <= x < noiseMap.width && 0 <= y < noiseMap.height ==>
              Index(noiseMap.width, x, y) < |colourMap| &&
              colourMap[Index(noiseMap.width, x, y)] == RegionColour(noiseMap.At(x, y), regions)
  {
    var w, h := noiseMap.width, noiseMap.height;
    colourMap := seq(w * h, _ => Clear);
    var y := 0;
    while y < h
      invariant 0 <= y <= h
      invariant |colourMap| == w * h
      invariant RowsClassified(noiseMap, regions, colourMap, y)
      invariant forall k :: Index(w, 0, y) <= k < |colourMap| ==> colourMap[k] == Clear
    {
      var before := colourMap;
      colourMap := ClassifyRow(noiseMap, regions, y, colourMap);
      RowStep(noiseMap, regions, before, colourMap, y);
      y := y + 1;
    }
  }

  /** Colouring row `y` extends the classified rows by one and leaves the
      later slots fresh. */
  lemma RowStep(noiseMap: HeightMap, regions: seq<TerrainType>, before: seq<Colour>, after: seq<Colour>, y: nat)
    requires noiseMap.Valid() && y < noiseMap.height
    requires |before| == |after| == noiseMap.width * noiseMap.height
    requires RowsClassified(noiseMap, regions, before, y)
    requires forall k :: Index(noiseMap.width, 0, y) <= k < |before| ==> before[k] == Clear
    requires RowClassified(noiseMap, regions, after, noiseMap.width, y)
    requires forall k :: 0 <= k < |after| && (k < Index(noiseMap.width, 0, y) || Index(noiseMap.width, noiseMap.width, y) <= k) ==>
               after[k] == before[k]
    ensures RowsClassified(noiseMap, regions, after, y + 1)
    ensures forall k :: Index(noiseMap.width, 0, y + 1) <= k < |after| ==> after[k] == Clear
  {
    var w := noiseMap.width;
    assert Index(w, w, y) == Index(w, 0, y + 1);
    forall x', y' | 0 <= x' < w && 0 <= y' < y
      ensures Index(w, x', y') < |after| && after[Index(w, x', y')] == RegionColour(noiseMap.At(x', y'), regions)
    {
      RowOrder(w, x', y', 0, y);
    }
  }

  // ---------------------------------------------------------------------
  // The generator.
  // ---------------------------------------------------------------------

  /** What `GenerateMap` produces before display: the normalised height map
      and one colour per cell, row-major. */
  datatype GeneratedMap = GeneratedMap(noiseMap: HeightMap, colourMap: seq<Colour>)

  /** `GenerateMap` up to display: a `MapChunkSize`-square noise map from the
      settings, then the classification loop. `draws` is the stream the seeded
      random generator yields and `perlin` the engine's Perlin sampler. A
      negative octave count makes the noise generator raise. When some band's
      threshold is at least 1, every cell falls in a band. */
  method GenerateMap(s: MapSettings, draws: nat -> int, perlin: (real, real) -> real)
    returns (r: Result<GeneratedMap, Noise.NoiseError>)
    ensures r.Success? <==> s.octaves >= 0
    ensures r.Success? ==>
              Noise.GenerateNoiseMap(MapChunkSize, MapChunkSize, draws, s.noiseScale, s.octaves, s.persistance,
                                     s.lacunarity, s.offset, perlin) == Success(r.value.noiseMap)
    ensures r.Success? ==>
              && r.value.noiseMap.Valid()
              && r.value.noiseMap.width == MapChunkSize && r.value.noiseMap.height == MapChunkSize
              && |r.value.colourMap| == MapChunkSize * MapChunkSize
    ensures r.Success? ==> forall x, y :: 0 <= x < MapChunkSize && 0 <= y < MapChunkSize ==>
              Index(MapChunkSize, x, y) < |r.value.colourMap| &&
              r.value.colourMap[Index(MapChunkSize, x, y)] == RegionColour(r.value.noiseMap.At(x, y), s.regions)
    ensures r.Success? && (exists t :: 0 <= t < |s.regions| && s.regions[t].height >= 1.0) ==>
              forall x, y :: 0 <= x < MapChunkSize && 0 <= y < MapChunkSize ==>
                FirstRegion(r.value.noiseMap.At(x, y), s.regions).Some?
  {
    var noise := Noise.GenerateNoiseMap(MapChunkSize, MapChunkSize, draws, s.noiseScale, s.octaves, s.persistance,
                                        s.lacunarity, s.offset, perlin);
    if noise.Failure? {
      return Failure(noise.error);
    }
    var noiseMap := noise.value;
    var colourMap := ClassifyMap(noiseMap, s.regions);
    if t :| 0 <= t < |s.regions| && s.regions[t].height >= 1.0 {
      forall x, y | 0 <= x < MapChunkSize && 0 <= y < MapChunkSize
        ensures FirstRegion(noiseMap.At(x, y), s.regions).Some?
      {
        TopBandCoversUnit(noiseMap.At(x, y), s.regions, t);
      }
    }
    r := Success(GeneratedMap(noiseMap, colourMap));
  }
}
