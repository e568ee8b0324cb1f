# Procedural terrain generator: a Dafny model

This project models the generation core of a Unity procedural-terrain tool:

- **`Noise.GenerateNoiseMap`** builds a fractal height map.
  - Per-octave sampling offsets come from a seeded random stream.
  - Perlin samples are layered, with amplitude scaled by `persistance` and frequency by `lacunarity` at each octave.
  - A running min/max is tracked while the raw values are computed. A value is compared with the minimum only when it did not raise the maximum (see Findings).
  - Every cell is then rescaled into [0, 1] with `InverseLerp`.
- **`MapGenerator.GenerateMap`** asks for a 241 x 241 noise map. It colours each cell with the first terrain band whose threshold is not below the cell's height, writing the colour at `y * 241 + x`. `OnValidate` keeps `lacunarity >= 1` and `octaves >= 0`.
- **`MeshGenerator.GenerateTerrainMesh`** lays one centred vertex and one uv per height-map cell at flat index `y * width + x`. It emits two triangles per interior quad through the `MeshData.addTriangle` write cursor.

Modules:

| file | module | contents |
|---|---|---|
| Wrappers.dfy | `Wrappers` | `Option`, `Result` |
| EngineTypes.dfy | `EngineTypes` | `Vector2`, `Vector3`, `Colour` (float fields as `real`) |
| Mathf.dfy | `Mathf` | `Pow`, `Clamp01`, `InverseLerp` with the engine's documented behaviour |
| Grid.dfy | `Grid` | `HeightMap` (`float[,]` indexed `[x][y]`), the row-major flat index and its inverse |
| MeshGenerator.dfy | `MeshGenerator` | `MeshData`, its constructor, `addTriangle`, `GenerateTerrainMesh`, the reference triangle layout |
| Noise.dfy | `Noise` | octave offsets, the octave loop, extremum tracking (as written and corrected), normalisation, `GenerateNoiseMap` |
| MapGenerator.dfy | `MapGenerator` | settings, `OnValidate`, `TerrainType`, band lookup, the classification loop, `GenerateMap` |

Modelling choices:

- **Engine collaborators.** `Mathf.PerlinNoise` is the parameter `perlin`. The seeded `System.Random` is the stream `draws`, whose k-th element is the k-th value `Next(-100000, 100000)` returns. `DrawsInRange` states that promise where a lemma needs it.
- **Sentinels.** `float.MinValue` and `float.MaxValue` start the running extrema and are modelled as an unset `Option`. When an extremum is still unset at normalisation, the rescale gets the sentinel's value. For the minimum that is `FloatMaxValue`, the exact value of `float.MaxValue`.
- **Negative sizes.** An array allocated with a negative length raises.
  - `new float[w, h]` and `new Vector2[octaves]` do so in `GenerateNoiseMap`, which returns `Failure(NegativeSize)` for these inputs.
  - `new int[(meshWidth - 1) * (meshHeight - 1) * 6]` does so in the `MeshData` constructor, on a grid with no columns and two or more rows or the other way round. `NewMeshData` returns `Failure(NegativeSize)` there, and `GenerateTerrainMesh` passes that failure on.
- **Buffer overrun.** An `addTriangle` past the end of the buffer returns `Failure(IndexOutOfRange)`.
- **Unmatched cells.** A cell that no band takes keeps the fresh colour array's default, `Clear`. `RegionColour` gives `Clear` for it.
- **Mesh inputs.** `GenerateTerrainMesh` takes the height map alone. It has no height multiplier, curve or level-of-detail stride.
- **Negative octave count.** Only `OnValidate` clamps it. `GenerateNoiseMap` itself raises on it.
- **Code as written.** `Noise.GenerateNoiseMap` and `MeshGenerator.GenerateTerrainMesh` do what the code does, including the two defects under Findings. The corrected halves sit beside them: `Noise.GenerateNoiseMapCorrected`, and the slot count `MeshGenerator.TriangleSlots`.

## Model

| member | source | states |
|---|---|---|
| `Mathf.InverseLerp` | Assets/Scripts/Noise.cs:81 | the rescale lies in [0, 1]; equal ends give 0; the low end maps to 0 and the high end to 1; between ascending ends the result times the span is the distance from the low end; a value at or below the high end of descending ends gives 1 |
| `Mathf.InverseLerpMonotone` | Assets/Scripts/Noise.cs:77-83 | with ascending ends the rescale keeps the order of any two values |
| `Grid.IndexBijection` | Assets/Scripts/MapGenerator.cs:56 | the flat index `y * width + x` of every cell is in range, and the cell can be recovered from it, so every cell has its own slot |
| `MeshGenerator.NewMeshData` | Assets/Scripts/MeshGenerator.cs:52-57 | raises exactly when `(meshWidth - 1) * (meshHeight - 1) * 6` is negative; otherwise vertex and uv buffers have one slot per cell, the triangle buffer has that many slots, every slot holds its default value and the cursor is at 0 |
| `MeshGenerator.NewMeshDataFailsExactly` | Assets/Scripts/MeshGenerator.cs:56 | the constructor raises exactly on a grid with no columns and two or more rows, or no rows and two or more columns |
| `MeshGenerator.AddTriangle` | Assets/Scripts/MeshGenerator.cs:59-65 | succeeds exactly when three slots remain; the three indices land at the cursor in order, the cursor advances by 3, and neither other buffer changes |
| `MeshGenerator.AddTriangleKeepsOtherSlots` | Assets/Scripts/MeshGenerator.cs:59-65 | every triangle slot outside the three written keeps its value |
| `MeshGenerator.UvAt` | Assets/Scripts/MeshGenerator.cs:25 | each uv component of a cell lies in [0, 1) |
| `MeshGenerator.TriangleCount` | Assets/Scripts/MeshGenerator.cs:27-32 | the whole grid emits six indices per quad, `(width - 1) * (height - 1)` quads, and none for a grid with no rows or no columns |
| `MeshGenerator.RowTrianglesLength` | Assets/Scripts/MeshGenerator.cs:27-32 | a row emits six indices for every cell left of the right edge, and the bottom row emits none |
| `MeshGenerator.GridTrianglesLength` | Assets/Scripts/MeshGenerator.cs:19-36 | the first `n` rows emit `6 * (width - 1)` indices per row above the bottom one |
| `MeshGenerator.QuadTrianglesAt` | Assets/Scripts/MeshGenerator.cs:28-32 | quad (x, y) occupies the six slots at six times its rank among the quads, holding `(v, v+w+1, v+w)` then `(v+w+1, v, v+1)` |
| `MeshGenerator.GridTrianglesInRange` | Assets/Scripts/MeshGenerator.cs:28-32 | every emitted triangle index names a vertex, lying in [0, width * height) |
| `MeshGenerator.VertexCentred` | Assets/Scripts/MeshGenerator.cs:12-14 | the mesh is centred on the origin: mirrored columns have opposite x and mirrored rows opposite z |
| `MeshGenerator.FillRow` | Assets/Scripts/MeshGenerator.cs:21-35 | after row `y` the vertex index has advanced by a row, and every cell through the row's end has its vertex, uv and triangles in place |
| `MeshGenerator.FillCell` | Assets/Scripts/MeshGenerator.cs:23-34 | after cell (x, y) its vertex and uv are in place and the triangle buffer holds everything emitted through that cell |
| `MeshGenerator.GenerateTerrainMesh` | Assets/Scripts/MeshGenerator.cs:7-39 | raises exactly when the constructor does; otherwise the buffers have the allocated sizes; the cursor ends at six indices per quad, and the buffer up to it holds the reference layout, every index naming a vertex; with at least one row and one column the buffer is filled exactly; a 0 x 0 map leaves its six slots at 0 and the cursor at 0; each cell's vertex (centred, height from the map) and uv sit at `y * width + x` |
| `MeshGenerator.EmptyMapMesh` | Assets/Scripts/MeshGenerator.cs:16-19 | on a map with no rows the loop never runs: no vertices, cursor at 0, six unwritten slots with no columns, none with one column, and the constructor has raised with two or more |
| `MeshGenerator.SlotsAgreeOnNonEmptyGrids` | Assets/Scripts/MeshGenerator.cs:56 | the corrected slot count equals the count as written on every grid with at least one row and one column |
| `MeshGenerator.SlotsAgreeWhenAllocated` | Assets/Scripts/MeshGenerator.cs:56 | whenever the constructor succeeds on a grid with at least one row, it allocates the corrected slot count |
| `MeshGenerator.EmptyGridSlotsAsWritten` | Assets/Scripts/MeshGenerator.cs:56 | as written, an empty map gets six slots that no cell fills, and a zero-width map with two or more rows gets a negative size |
| `Noise.OctaveOffsets` | Assets/Scripts/Noise.cs:20-26 | one offset per octave; octave `i` takes draw `2i` for x and draw `2i + 1` for y, each shifted by the caller's offset |
| `Noise.OctaveOffsetsInRange` | Assets/Scripts/Noise.cs:23-24 | with draws in `[-100000, 100000)`, each offset component lies within that range of the caller's offset |
| `Noise.EffectiveScale` | Assets/Scripts/Noise.cs:29-32 | the scale used is always positive: a positive scale is kept, any other becomes 0.0001 |
| `Noise.AccumulateIsOctaveSum` | Assets/Scripts/Noise.cs:47-63 | the octave loop computes the closed-form sum over octaves `i` of `(perlin * 2 - 1) * persistance^i`, sampled at frequency `lacunarity^i` |
| `Noise.RawHeight` | Assets/Scripts/Noise.cs:47-63 | a cell's raw height is the closed-form octave sum, and 0 with no octaves |
| `Noise.RawMap` | Assets/Scripts/Noise.cs:42-74 | the first pass gives a map of the requested size holding each cell's octave sum |
| `Noise.ScanRowsAt` | Assets/Scripts/Noise.cs:42-45 | the first pass visits cell (x, y) at position `y * width + x` |
| `Noise.ScanRowsFromCells` | Assets/Scripts/Noise.cs:42-45 | every value the first pass visits is some cell's value |
| `Noise.ScanFindsExtrema` | Assets/Scripts/Noise.cs:66-69 | with the two comparisons independent, the tracked maximum and minimum are the true ones, and both are unset exactly on an empty map |
| `Noise.ScanAsWrittenMax` | Assets/Scripts/Noise.cs:66-67 | as written, the tracked maximum is still the true maximum |
| `Noise.ScanAsWrittenMin` | Assets/Scripts/Noise.cs:66-69 | as written, the tracked minimum is unset exactly when every value raised the maximum; otherwise it is the smallest of the values that did not |
| `Noise.ScanAsWrittenMinBound` | Assets/Scripts/Noise.cs:66-69 | as written, any value below the tracked minimum raised the maximum, and the minimum never comes from the first cell |
| `Noise.ScanOrderExtrema` | Assets/Scripts/Noise.cs:34-74 | on a non-empty map the corrected tracking yields the lowest and highest cell values |
| `Noise.Normalise` | Assets/Scripts/Noise.cs:77-83 | the second pass keeps the map's size, puts every cell in [0, 1], and gives each cell `InverseLerp(min, max, raw)` |
| `Noise.GenerateNoiseMap` | Assets/Scripts/Noise.cs:13-86 | as written: succeeds exactly when width, height and octaves are non-negative; the result has the requested size and every cell lies in [0, 1] |
| `Noise.GenerateNoiseMapRescales` | Assets/Scripts/Noise.cs:34-83 | as written, on a non-empty map every cell is its raw octave sum rescaled between the bounds the `if` ... `else if` tracking leaves: the high end is the highest raw value, the low end `float.MaxValue` or some cell's raw value |
| `Noise.AsWrittenBounds` | Assets/Scripts/Noise.cs:34-69 | as written, on a non-empty map the tracked maximum is the highest cell value and the minimum is its sentinel or some cell's value |
| `Noise.AsWrittenConstantScan` | Assets/Scripts/Noise.cs:66-69 | as written, two or more equal values leave both tracked extrema at that value |
| `Noise.AsWrittenFlatMap` | Assets/Scripts/Noise.cs:66-83 | as written, a flat raw map of two or more cells normalises to 0 everywhere; a single cell normalises to 1 below `float.MaxValue` and to 0 at exactly `float.MaxValue` |
| `Noise.AsWrittenRisingScanIsFlat` | Assets/Scripts/Noise.cs:66-69 | as written, when every visited value raises the maximum (a single cell included), every cell of the result becomes 1 |
| `Noise.AsWrittenAgreesWithCorrected` | Assets/Scripts/Noise.cs:66-83 | the code's normalisation equals the corrected one whenever the true minimum is reached by a value that did not raise the running maximum |
| `Noise.GenerateNoiseMapCorrected` | Assets/Scripts/Noise.cs:13-86 | with the two comparisons of lines 66-69 independent: the same failures and sizes, and every cell in [0, 1] |
| `Noise.CorrectedNoiseMapRescales` | Assets/Scripts/Noise.cs:34-83 | with independent comparisons, on a non-empty map every cell is its raw octave sum rescaled between the lowest and highest raw value |
| `Noise.CorrectedNoiseMapOrder` | Assets/Scripts/Noise.cs:77-83 | with independent comparisons, a lowest raw cell maps to 0, a highest raw cell maps to 1 unless the map is flat, and the order of raw values is kept |
| `Noise.FlatMapNormalisesToZero` | Assets/Scripts/Noise.cs:81 | with independent comparisons, a non-empty map whose raw cells are all equal normalises to 0 everywhere |
| `Noise.AsWrittenTwoCellMap` | Assets/Scripts/Noise.cs:66-69 | two cells rising left to right: as written both become 1, corrected they become 0 and 1 |
| `Noise.AsWrittenMissesFirstMinimum` | Assets/Scripts/Noise.cs:66-69 | on the values 0, 2, 1 the tracked minimum is 1 as written and 0 corrected |
| `MapGenerator.OnValidate` | Assets/Scripts/MapGenerator.cs:75-81 | afterwards `lacunarity >= 1` and `octaves >= 0`; an in-range value is kept, a lacunarity below 1 becomes 1, a negative octave count becomes 0, and no other setting changes |
| `MapGenerator.OnValidateIdempotent` | Assets/Scripts/MapGenerator.cs:75-81 | validation leaves settings unchanged exactly when they are already in range, and validating twice is the same as validating once |
| `MapGenerator.FirstRegionFrom` | Assets/Scripts/MapGenerator.cs:52-60 | the band found from `from` on has a threshold not below the height and every earlier band's is below it; none is found exactly when every threshold from `from` on is below the height |
| `MapGenerator.FirstRegion` | Assets/Scripts/MapGenerator.cs:52-60 | a cell falls in the first band whose threshold is not below its height, and in none exactly when every threshold is below it |
| `MapGenerator.FindRegion` | Assets/Scripts/MapGenerator.cs:52-60 | the loop with `break` finds exactly the first matching band |
| `MapGenerator.FirstRegionUnique` | Assets/Scripts/MapGenerator.cs:52-60 | any answer with the first-match properties is the band lookup's answer |
| `MapGenerator.NonDecreasingBandsClassify` | Assets/Scripts/MapGenerator.cs:52-60 | with non-decreasing thresholds (equal ones allowed) a height falls in band `i` exactly when it is above band `i - 1`'s threshold and at or below band `i`'s |
| `MapGenerator.TopBandCoversUnit` | Assets/Scripts/MapGenerator.cs:52-60 | a band with threshold at least 1 catches every height in [0, 1], at or before that band |
| `MapGenerator.ClassifyRow` | Assets/Scripts/MapGenerator.cs:47-61 | colouring row `y` gives every cell of the row its band's colour at `y * width + x` and leaves every slot outside the row unchanged |
| `MapGenerator.ClassifyMap` | Assets/Scripts/MapGenerator.cs:42-62 | one colour per cell; the slot `y * width + x` holds the cell's band colour, or `Clear` when no band takes it |
| `MapGenerator.GenerateMap` | Assets/Scripts/MapGenerator.cs:38-62 | succeeds exactly when octaves is non-negative; on success the noise map is the 241 x 241 output of `GenerateNoiseMap` and each slot `y * 241 + x` of the colour map holds the cell's band colour; when some band's threshold is at least 1, every cell falls in a band |

## Left out

- `MeshData.CreateMesh` is not modelled. It hands the buffers to the engine's `Mesh` and recomputes normals, which is all engine work.
- `Noise.GenerateFieldMap` is not modelled. It is Voronoi noise from the LibNoise library, and that library is not part of this model.
- The draw-mode dispatch of `GenerateMap` (`MapGenerator.cs:64-71`) is not modelled. That covers `FindObjectOfType<MapDisplay>`, the texture builders and the display calls, which are engine and UI code. `DrawMode` is kept only as a setting.
- Line 71 calls a four-argument `GenerateTerrainMesh` (with multiplier, curve and level of detail) that the mesh generator does not define. The model has only the one-argument generator. `meshHeightCurve` (an engine `AnimationCurve`) and `levelOfDetail` are not modelled.
- `TextureGenerator`, `MapDisplay` and the editor script are not part of this model.
- Floats are modelled as exact reals. Rounding, infinities and NaN are not modelled.
  - A raw height at or below `float.MinValue` (possible only with extreme persistance) would not raise the maximum in the code. The model treats the first value as always raising it.
- `Mathf.PerlinNoise` and `System.Random` are parameters (`perlin`, `draws`), not implementations. No range is assumed for `perlin`, so the raw heights are unconstrained.
- The inspector's `[Range]` attributes are not modelled. `levelOfDetail` and `persistance` are plain numbers.
- Noise.GenerateNoiseMap: its own contract states only the failure cases, the size and the [0, 1] range. The rescale between the tracked bounds is stated by `Noise.GenerateNoiseMapRescales`, and the flat-map cases by `Noise.AsWrittenFlatMap`. The code as written does not map the lowest cell to 0; see Findings.
- Noise.AsWrittenRisingScanIsFlat: assumes every raw value is below `float.MaxValue`, which holds for every finite float except `float.MaxValue` itself. A cell at exactly `float.MaxValue` meets the sentinel minimum, and the equal ends make `InverseLerp` return 0; `Noise.AsWrittenFlatMap` states that single-cell case.
- Noise.AsWrittenFlatMap: its single-cell clauses cover a raw value below or equal to `float.MaxValue`. A value above it is not a finite float and is not covered.
- MeshGenerator.NewMeshData: integers are unbounded, and the 32-bit wrap of C#'s `int` is not modelled. The model agrees with the code only while `meshWidth * meshHeight` (MeshGenerator.cs:54-55) and `(meshWidth - 1) * (meshHeight - 1) * 6` (MeshGenerator.cs:56) fit in an `int`. For a square grid that means up to 18919 cells per side. Beyond that the code's sizes wrap, and whether it raises, and where, depends on the wrapped value.
- MeshGenerator.NewMeshDataFailsExactly: characterises the failing grids under unbounded arithmetic only. It agrees with the code only while both sizes fit in an `int`.
- MeshGenerator.GenerateTerrainMesh: inherits the constructor's unbounded arithmetic, so it too holds only up to 18919 cells per side.
- MapGenerator.ClassifyMap: loops over the noise map's own width and height rather than the constant 241. `GenerateMap` passes it a 241 x 241 map, so the two agree.

## Findings

| source | as written | input that shows it | evidently intended | confidence | as-written member | corrected member |
|---|---|---|---|---|---|---|
| Assets/Scripts/Noise.cs:66-69 | `if (h > max) max = h; else if (h < min) min = h;` compares a value with the minimum only when it did not raise the maximum | Raw heights rising across the map, e.g. a 2 x 1 map with raw values 0 then 1. The minimum stays at `float.MaxValue`, so `InverseLerp(float.MaxValue, 1, v)` gives 1 for both cells; a single cell gives 1 too. On values 0, 2, 1 the minimum ends at 1 instead of 0. | Two independent comparisons, so the minimum is the true minimum and the map is rescaled to span [0, 1] | not executed | `Noise.ScanAsWritten` (with `Noise.GenerateNoiseMap`, `Noise.AsWrittenTwoCellMap`, `Noise.AsWrittenRisingScanIsFlat`, `Noise.AsWrittenFlatMap`, `Noise.AsWrittenMissesFirstMinimum`) | `Noise.Scan` (with `Noise.ScanFindsExtrema`, `Noise.GenerateNoiseMapCorrected`, `Noise.CorrectedNoiseMapRescales`) |
| Assets/Scripts/MeshGenerator.cs:56 | `new int[(meshWidth - 1) * (meshHeight - 1) * 6]` | A 0 x 0 height map gets 6 triangle slots that no cell fills, all still naming vertex 0 of a mesh with no vertices. A 0 x 2 map gets size -6, which raises. | Six slots per quad, so none for an empty grid | not executed | `MeshGenerator.TriangleSlotsAsWritten` (with `MeshGenerator.NewMeshData`, `MeshGenerator.GenerateTerrainMesh`, `MeshGenerator.EmptyGridSlotsAsWritten`) | `MeshGenerator.TriangleSlots` (with `MeshGenerator.TriangleCount`, `MeshGenerator.SlotsAgreeOnNonEmptyGrids`) |
