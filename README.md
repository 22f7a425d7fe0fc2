# robotevo2d core, modelled in Dafny

This project models three parts of the robotevo2d experiment code (2-D voxel-based soft robots):

- **`buildStringShape`**, from `Main`. It turns a body family (BIPED, WORM, T or PLUS) and a rigid-voxel count into a shape string over `r` (rigid), `s` (soft), `.` (empty) and `-` (row break).
- **The two fitness-landscape sweeps, `fixedControllerLandscape` and `fixedBodyLandscape`**, also from `Main`. Each writes a semicolon-separated file: a header, then per configuration and sample point one base row, then one row per step along `NOFTRIALS` random directions, each walked in `FRAGMENTATIONS` steps.
- **The genotype-to-brain plumbing of `Mappers`**: `argmax`; the brain consistency checks; heterogeneous parameter assignment (one slice per brain) and homogeneous assignment (every brain gets the whole vector); the example genotypes; the index-grid and placeholder rules of the reactive-body mappers.

## Modules

| file | module | content |
|---|---|---|
| results.dfy | `Results` | `Option`, `Result` and `Outcome` standing in for exceptions |
| shape_encoder.dfy | `ShapeEncoder` | the declarative encoding. Each family has a template and an ordered priority list of cells, and `Encode(shape, n)` marks the first `n` of them (saturating). The lemmas prove the described properties of that table. |
| shape_builder.dfy | `ShapeBuilder` | `buildStringShape` as written: a `array2<bool>` grid, the cascade of bounded marking loops, then the printing loops into a string. It is proved equal to `Encode`. |
| java_int.dfy | `JavaInt` | 32-bit `int` subtraction in the marking-loop bounds (see Findings) |
| landscape.dfy | `Landscape` | both sweeps as imperative loops, each proved equal to a specification function of its inputs |
| landscape_properties.dfy | `LandscapeProperties` | row counts, labels, order and failure handling of the files those functions describe |
| mappers.dfy | `Mappers` | `argmax`, the checks, and hetero and homo parameter assignment with their round trips |
| reactive.dfy | `Reactive` | the cell-index rule, the index grid, the placeholder rule and the integer-string example genotype |

What the model takes as inputs:

- **Randomness.** It is a parameter. `Draws` supplies the base genotype and the direction vectors of every point, already scaled; `nextDouble`, `nextGaussian` and the normalisation are not modelled.
- **The simulator.** The evaluator is a function `(Robot, Genotype) -> Option<real>`, where `None` is a `get()` that throws.
- **The robot mapper.** `mapper.exampleInput().size()` is a function `Robot -> nat`.
- **The file.** It is a sequence of `Line`s.
- **Futures.** They are joined in submission order, which is the order in which the source writes.

In `Mappers`, a brain is the value `Brain(nOfInputs, nOfOutputs, params)`. `params` is the parameter vector of its shallowest `NumericalParametrized` part, or `None` if it has none, and `setParams` replaces it. Java doubles are modelled as `real`.

## Model

| member | source | states |
|---|---|---|
| ShapeBuilder.BuildStringShape | io.github.ericmedvet.robotevo2d.main/src/main/java/io/github/ericmedvet/robotevo2d/main/Main.java:184-279 | the string built by the grid loops and the printing loops equals `Encode(shape, nOfRigids)`, for every shape and every count, with exact integers (see ## Findings) |
| ShapeBuilder.MarkBiped | io.github.ericmedvet.robotevo2d.main/src/main/java/io/github/ericmedvet/robotevo2d/main/Main.java:187-196 | after the BIPED loops, exactly the cells of the first `min(max(n,0),10)` priority places are rigid |
| ShapeBuilder.MarkWorm | io.github.ericmedvet.robotevo2d.main/src/main/java/io/github/ericmedvet/robotevo2d/main/Main.java:208-219 | after the WORM loop and the two guarded assignments, exactly the first `min(max(n,0),7)` priority cells are rigid |
| ShapeBuilder.MarkT | io.github.ericmedvet.robotevo2d.main/src/main/java/io/github/ericmedvet/robotevo2d/main/Main.java:228-236 | after the two T loops, exactly the grid cells among the first `min(max(n,0),11)` priority places are rigid (the eleventh place is not in the grid and is printed from the count alone) |
| ShapeBuilder.MarkPlus | io.github.ericmedvet.robotevo2d.main/src/main/java/io/github/ericmedvet/robotevo2d/main/Main.java:243-267 | after the seven PLUS loops, exactly the first `min(max(n,0),18)` priority cells are rigid |
| ShapeBuilder.MarkRun | io.github.ericmedvet.robotevo2d.main/src/main/java/io/github/ericmedvet/robotevo2d/main/Main.java:191-196 | one bounded loop `i < nOfRigids - offset && i < len` raises the marked count from `Saturate(n, offset)` to `Saturate(n, offset + len)`, with exact integers |
| ShapeBuilder.MarkIf | io.github.ericmedvet.robotevo2d.main/src/main/java/io/github/ericmedvet/robotevo2d/main/Main.java:214-219 | a guarded single assignment (`nOfRigids > 5`, `nOfRigids > 6`) adds exactly the next rank |
| ShapeBuilder.ShowBiped | io.github.ericmedvet.robotevo2d.main/src/main/java/io/github/ericmedvet/robotevo2d/main/Main.java:197-205 | the BIPED printing code writes the declarative encoding of the marked grid |
| ShapeBuilder.ShowWorm | io.github.ericmedvet.robotevo2d.main/src/main/java/io/github/ericmedvet/robotevo2d/main/Main.java:220-226 | the WORM printing code writes the declarative encoding of the marked grid |
| ShapeBuilder.ShowT | io.github.ericmedvet.robotevo2d.main/src/main/java/io/github/ericmedvet/robotevo2d/main/Main.java:237-241 | the T printing code, including the count-dependent head `nOfRigids < 11 ? "s" : "r"` and the constant final `s`, writes the encoding |
| ShapeBuilder.ShowPlus | io.github.ericmedvet.robotevo2d.main/src/main/java/io/github/ericmedvet/robotevo2d/main/Main.java:268-276 | the PLUS printing code writes the declarative encoding of the marked grid |
| ShapeBuilder.PrintingMatchesEncode | io.github.ericmedvet.robotevo2d.main/src/main/java/io/github/ericmedvet/robotevo2d/main/Main.java:197-205 | printing a grid whose rigid cells are exactly the first `k` priority cells gives `Encode` at every position |
| ShapeEncoder.Baselines | io.github.ericmedvet.robotevo2d.main/src/main/java/io/github/ericmedvet/robotevo2d/main/Main.java:186-276 | with no rigid cell the strings are `ssss-ssss-s..s`, `sssss-sssss`, `.ss.-.ss.-.ss.-.ss.-ssss` and `..ss..-..ss..-ssssss-ssssss-..ss..-..ss..` |
| ShapeEncoder.LayoutIsFixed | io.github.ericmedvet.robotevo2d.main/src/main/java/io/github/ericmedvet/robotevo2d/main/Main.java:197-276 | for every count the length is 14/11/24/41, `.` and `-` stay where the template has them, and only `r`/`s` vary |
| ShapeEncoder.RigidCountSaturates | io.github.ericmedvet.robotevo2d.main/src/main/java/io/github/ericmedvet/robotevo2d/main/Main.java:191-196 | the number of `r` is the count clamped to `0..cap`, with caps 10, 7, 11 and 18 |
| ShapeEncoder.OutOfRangeCounts | io.github.ericmedvet.robotevo2d.main/src/main/java/io/github/ericmedvet/robotevo2d/main/Main.java:211-219 | a negative count gives the same string as 0, and a count above the cap the same as the cap |
| ShapeEncoder.Monotone | io.github.ericmedvet.robotevo2d.main/src/main/java/io/github/ericmedvet/robotevo2d/main/Main.java:232-236 | every cell rigid for `n` is rigid for every `m >= n` |
| ShapeEncoder.IncrementAddsNextCell | io.github.ericmedvet.robotevo2d.main/src/main/java/io/github/ericmedvet/robotevo2d/main/Main.java:247-267 | below the cap, `n + 1` turns exactly one more cell, the next soft one in priority, rigid |
| ShapeEncoder.EncodeChar | io.github.ericmedvet.robotevo2d.main/src/main/java/io/github/ericmedvet/robotevo2d/main/Main.java:191-196 | a position is `r` exactly when its priority place is below the clamped count, and otherwise it keeps its template character |
| ShapeEncoder.BipedSaturated | io.github.ericmedvet.robotevo2d.main/src/main/java/io/github/ericmedvet/robotevo2d/main/Main.java:191-196 | BIPED at its cap is `rrrr-rrrr-r..r` |
| ShapeEncoder.WormSaturated | io.github.ericmedvet.robotevo2d.main/src/main/java/io/github/ericmedvet/robotevo2d/main/Main.java:211-219 | WORM at its cap is `rrrsr-srrrs` |
| ShapeEncoder.TSaturated | io.github.ericmedvet.robotevo2d.main/src/main/java/io/github/ericmedvet/robotevo2d/main/Main.java:232-241 | T at its cap is `.rr.-.rr.-.rr.-.rr.-rrrs` |
| ShapeEncoder.PlusSaturated | io.github.ericmedvet.robotevo2d.main/src/main/java/io/github/ericmedvet/robotevo2d/main/Main.java:247-276 | PLUS at its cap is `..rr..-..rr..-rrrsrr-rrsrrr-..rr..-..rr..` |
| ShapeEncoder.TSpecialCells | io.github.ericmedvet.robotevo2d.main/src/main/java/io/github/ericmedvet/robotevo2d/main/Main.java:241 | in T the last character is always `s`, and the head of the last row is `r` exactly when `n >= 11` |
| ShapeEncoder.PlusNeverRigid | io.github.ericmedvet.robotevo2d.main/src/main/java/io/github/ericmedvet/robotevo2d/main/Main.java:247-267 | in PLUS, grid cells [2][3] and [3][2] are never rigid |
| JavaInt.BipedNegativeCount | io.github.ericmedvet.robotevo2d.main/src/main/java/io/github/ericmedvet/robotevo2d/main/Main.java:194 | as written, for `nOfRigids = -2147483647` the bound `nOfRigids - 6` wraps to 2147483643 and the second BIPED loop runs 4 times; with exact integers it runs 0 times |
| JavaInt.BipedAsWritten | io.github.ericmedvet.robotevo2d.main/src/main/java/io/github/ericmedvet/robotevo2d/main/Main.java:191-205 | the BIPED string with Java's 32-bit loop bounds: the first loop marks `PassesAsWritten(n, 0, 6)` priority places, the second `PassesAsWritten(n, 6, 4)` places from 6 on |
| JavaInt.BipedAgreesWithoutWrap | io.github.ericmedvet.robotevo2d.main/src/main/java/io/github/ericmedvet/robotevo2d/main/Main.java:191-205 | for every count from `Integer.MIN_VALUE + 6` on, the string as written equals `Encode(BIPED, n)` |
| JavaInt.BipedNegativeString | io.github.ericmedvet.robotevo2d.main/src/main/java/io/github/ericmedvet/robotevo2d/main/Main.java:186-205 | as written, `buildStringShape(BIPED, -2147483647)` is `srrs-srrs-s..s`; with exact integers it is the all-soft `ssss-ssss-s..s` |
| JavaInt.MarkMiddleColumns | io.github.ericmedvet.robotevo2d.main/src/main/java/io/github/ericmedvet/robotevo2d/main/Main.java:194-202 | marking only the second BIPED loop's four cells prints `srrs-srrs-s..s` |
| JavaInt.WrappedRunsFully | io.github.ericmedvet.robotevo2d.main/src/main/java/io/github/ericmedvet/robotevo2d/main/Main.java:194 | whenever `nOfRigids - offset` wraps, the loop as written runs its full length, although the count is negative |
| JavaInt.AgreeWithoutWrap | io.github.ericmedvet.robotevo2d.main/src/main/java/io/github/ericmedvet/robotevo2d/main/Main.java:194 | when the subtraction does not wrap, the Java pass count equals the exact one |
| JavaInt.PassesAreMarked | io.github.ericmedvet.robotevo2d.main/src/main/java/io/github/ericmedvet/robotevo2d/main/Main.java:194 | the exact pass count is what MarkRun adds to the marked count, and it is 0 for a count of 0 or less |
| Landscape.SubmitPoint | io.github.ericmedvet.robotevo2d.main/src/main/java/io/github/ericmedvet/robotevo2d/main/Main.java:104-115 | the trial and step loops record exactly `Fragments(base, dirs)` (trial-major, steps 1..FRAGMENTATIONS) and submit each in that order |
| Landscape.Fragment | io.github.ericmedvet.robotevo2d.main/src/main/java/io/github/ericmedvet/robotevo2d/main/Main.java:108-111 | step `iter` has the base's length, and its offset from the base is `iter / FRAGMENTATIONS` times the direction in every component |
| Landscape.WritePoint | io.github.ericmedvet.robotevo2d.main/src/main/java/io/github/ericmedvet/robotevo2d/main/Main.java:116-125 | the `try` block writes the base row and then one row per result, and the first `get()` that throws ends it |
| Landscape.SweepPoints | io.github.ericmedvet.robotevo2d.main/src/main/java/io/github/ericmedvet/robotevo2d/main/Main.java:99-126 | the point loop produces `ConfigLines`: the points `0..NOFPOINTS-1` in order |
| Landscape.ControllerConfig | io.github.ericmedvet.robotevo2d.main/src/main/java/io/github/ericmedvet/robotevo2d/main/Main.java:96-98 | one configuration of the controller sweep uses the body `buildStringShape(shape, rigids)` and the given controller |
| Landscape.AppendControllerConfig | io.github.ericmedvet.robotevo2d.main/src/main/java/io/github/ericmedvet/robotevo2d/main/Main.java:95-127 | one pass of the `rigids` loop turns the file of the header and configurations `0..rigids-1` into the file of configurations `0..rigids` |
| Landscape.FixedControllerLandscape | io.github.ericmedvet.robotevo2d.main/src/main/java/io/github/ericmedvet/robotevo2d/main/Main.java:81-130 | the file is the header followed by the lines of the rigid counts `0..nOfShapes-1`, in order |
| Landscape.FixedBodyLandscape | io.github.ericmedvet.robotevo2d.main/src/main/java/io/github/ericmedvet/robotevo2d/main/Main.java:132-182 | the file is the header followed by the lines of the MLP configurations `neurons = 1..10` on the all-soft body |
| Landscape.FirstFailure | io.github.ericmedvet.robotevo2d.main/src/main/java/io/github/ericmedvet/robotevo2d/main/Main.java:118-122 | the index of the first result whose `get()` throws; every earlier one succeeded |
| LandscapeProperties.WalkEnds | io.github.ericmedvet.robotevo2d.main/src/main/java/io/github/ericmedvet/robotevo2d/main/Main.java:108-111 | step 0 would be the base, and the last step `FRAGMENTATIONS` is `base + dir` component by component |
| LandscapeProperties.EqualSteps | io.github.ericmedvet.robotevo2d.main/src/main/java/io/github/ericmedvet/robotevo2d/main/Main.java:108-111 | consecutive steps differ by `dir[i] / FRAGMENTATIONS` in every component |
| LandscapeProperties.SubmissionOrder | io.github.ericmedvet.robotevo2d.main/src/main/java/io/github/ericmedvet/robotevo2d/main/Main.java:104-113 | genotype `trial * FRAGMENTATIONS + iter - 1` is step `iter` of direction `trial`, and its segment label is `trial` |
| LandscapeProperties.NoFailure | io.github.ericmedvet.robotevo2d.main/src/main/java/io/github/ericmedvet/robotevo2d/main/Main.java:116-125 | `FirstFailure` reaches the end exactly when every evaluation returns |
| LandscapeProperties.WrittenRows | io.github.ericmedvet.robotevo2d.main/src/main/java/io/github/ericmedvet/robotevo2d/main/Main.java:116-122 | a failing base writes nothing; otherwise row 0 is the base with segment -1, and row `1 + j` pairs genotype `j` with result `j` and segment `j / FRAGMENTATIONS` |
| LandscapeProperties.PointComplete | io.github.ericmedvet.robotevo2d.main/src/main/java/io/github/ericmedvet/robotevo2d/main/Main.java:116-125 | a point writes at most `1 + NOFTRIALS * FRAGMENTATIONS` rows, and exactly that many if and only if no evaluation throws |
| LandscapeProperties.PointTruncated | io.github.ericmedvet.robotevo2d.main/src/main/java/io/github/ericmedvet/robotevo2d/main/Main.java:118-125 | if the step `(trial, iter)` throws, the point writes at most `trial * FRAGMENTATIONS + iter` rows |
| LandscapeProperties.PointLabels | io.github.ericmedvet.robotevo2d.main/src/main/java/io/github/ericmedvet/robotevo2d/main/Main.java:117-121 | every row of a point carries its configuration and point number |
| LandscapeProperties.PointAtBounds | io.github.ericmedvet.robotevo2d.main/src/main/java/io/github/ericmedvet/robotevo2d/main/Main.java:99-126 | a point of a configuration writes at most POINTROWS rows, exactly POINTROWS if its evaluator never throws, all labelled with that point |
| LandscapeProperties.ConfigRows | io.github.ericmedvet.robotevo2d.main/src/main/java/io/github/ericmedvet/robotevo2d/main/Main.java:99-126 | a configuration writes at most `NOFPOINTS * POINTROWS` rows (exactly that many if its evaluator never throws), all data rows of that configuration, with points `0..NOFPOINTS-1` in non-decreasing order |
| LandscapeProperties.ControllerBodies | io.github.ericmedvet.robotevo2d.main/src/main/java/io/github/ericmedvet/robotevo2d/main/Main.java:95-97 | configuration `rigids` of the controller sweep has `min(rigids, cap)` rigid voxels, and counts beyond the cap repeat the saturated body |
| LandscapeProperties.BodyRobots | io.github.ericmedvet.robotevo2d.main/src/main/java/io/github/ericmedvet/robotevo2d/main/Main.java:134-149 | every configuration of the body sweep uses the all-soft template body and an MLP with inner-layer ratio `neurons / 2` |
| LandscapeProperties.ControllerFile | io.github.ericmedvet.robotevo2d.main/src/main/java/io/github/ericmedvet/robotevo2d/main/Main.java:90-127 | the controller-sweep file is one header followed only by data rows with rigid counts in `0..nOfShapes-1` and points in `0..NOFPOINTS-1`, ordered by (configuration, point), and at most `1 + nOfShapes * NOFPOINTS * POINTROWS` lines |
| LandscapeProperties.BodyFile | io.github.ericmedvet.robotevo2d.main/src/main/java/io/github/ericmedvet/robotevo2d/main/Main.java:142-179 | the body-sweep file is one header followed only by data rows with neurons in `1..10`, ordered by (configuration, point), of at most `1 + 10 * NOFPOINTS * POINTROWS` lines |
| LandscapeProperties.ControllerFileLength | io.github.ericmedvet.robotevo2d.main/src/main/java/io/github/ericmedvet/robotevo2d/main/Main.java:90-127 | when the evaluator never throws, the controller-sweep file has exactly `1 + nOfShapes * NOFPOINTS * (1 + NOFTRIALS * FRAGMENTATIONS)` lines (none for `nOfShapes <= 0` but the header) |
| LandscapeProperties.BodyFileLength | io.github.ericmedvet.robotevo2d.main/src/main/java/io/github/ericmedvet/robotevo2d/main/Main.java:142-179 | when the evaluator never throws, the body-sweep file has exactly `1 + 10 * NOFPOINTS * (1 + NOFTRIALS * FRAGMENTATIONS)` lines |
| Mappers.Argmax | io.github.ericmedvet.robotevo2d.main/src/main/java/io/github/ericmedvet/robotevo2d/main/builders/Mappers.java:57-68 | an empty array throws `Empty array`; otherwise the result is the index of a maximum, and the lowest such index |
| Mappers.FirstMax | io.github.ericmedvet.robotevo2d.main/src/main/java/io/github/ericmedvet/robotevo2d/main/builders/Mappers.java:61-67 | the loop's candidate: an in-bounds index whose value is at least every other, and strictly above all earlier ones |
| Mappers.FirstMaxUnique | io.github.ericmedvet.robotevo2d.main/src/main/java/io/github/ericmedvet/robotevo2d/main/builders/Mappers.java:61-67 | the lowest maximal index is unique, so the loop's answer is determined |
| Mappers.Distinct | io.github.ericmedvet.robotevo2d.main/src/main/java/io/github/ericmedvet/robotevo2d/main/builders/Mappers.java:109-116 | `distinct().toList()` keeps every value, invents none, and repeats none |
| Mappers.DistinctInOrder | io.github.ericmedvet.robotevo2d.main/src/main/java/io/github/ericmedvet/robotevo2d/main/builders/Mappers.java:109-116 | the distinct values come in the order of their first occurrences in the list |
| Mappers.OneDistinct | io.github.ericmedvet.robotevo2d.main/src/main/java/io/github/ericmedvet/robotevo2d/main/builders/Mappers.java:117-124 | exactly one distinct value if and only if the list is non-empty and constant |
| Mappers.CheckIOSizeConsistency | io.github.ericmedvet.robotevo2d.main/src/main/java/io/github/ericmedvet/robotevo2d/main/builders/Mappers.java:108-125 | passes if and only if there is at least one brain and all brains share the first brain's input and output sizes |
| Mappers.CheckNumericalParametrizedSizeConsistency | io.github.ericmedvet.robotevo2d.main/src/main/java/io/github/ericmedvet/robotevo2d/main/builders/Mappers.java:127-139 | passes if and only if there is at least one brain, every brain has a parameter vector, and all vectors have the same length; a missing vector fails |
| Mappers.CheckType | io.github.ericmedvet.robotevo2d.main/src/main/java/io/github/ericmedvet/robotevo2d/main/builders/Mappers.java:141-148 | passes if and only if every brain has a `NumericalParametrized` part, and otherwise fails with the number of brains |
| Mappers.DsToNpHeteroBrains | io.github.ericmedvet.robotevo2d.main/src/main/java/io/github/ericmedvet/robotevo2d/main/builders/Mappers.java:151-192 | without such parts it fails at build time; a value list whose length differs from the sum of the sizes is rejected with both numbers; otherwise brain `k` gets slice `k` and nothing else changes |
| Mappers.AssignSlices | io.github.ericmedvet.robotevo2d.main/src/main/java/io/github/ericmedvet/robotevo2d/main/builders/Mappers.java:173-186 | the running-offset loop gives brain `k` the values `[c_k, c_k + size_k)`, where `c_k` is the sum of the earlier sizes |
| Mappers.OffsetStep | io.github.ericmedvet.robotevo2d.main/src/main/java/io/github/ericmedvet/robotevo2d/main/builders/Mappers.java:185 | the slices are consecutive: each starts where the previous ends |
| Mappers.HeteroSlicesCover | io.github.ericmedvet.robotevo2d.main/src/main/java/io/github/ericmedvet/robotevo2d/main/builders/Mappers.java:173-186 | the assigned parameter vectors, concatenated, give back the whole value list |
| Mappers.HeteroRoundTrip | io.github.ericmedvet.robotevo2d.main/src/main/java/io/github/ericmedvet/robotevo2d/main/builders/Mappers.java:173-186 | concatenating the brains' own vectors and assigning them back returns the same brains |
| Mappers.HeteroKeepsShape | io.github.ericmedvet.robotevo2d.main/src/main/java/io/github/ericmedvet/robotevo2d/main/builders/Mappers.java:174-186 | every brain keeps its input size, output size and parameter-vector length |
| Mappers.HeteroExample | io.github.ericmedvet.robotevo2d.main/src/main/java/io/github/ericmedvet/robotevo2d/main/builders/Mappers.java:190 | the example genotype is `overallBrainSize` zeros, exactly the length the mapping accepts |
| Mappers.HomoBrainSize | io.github.ericmedvet.robotevo2d.main/src/main/java/io/github/ericmedvet/robotevo2d/main/builders/Mappers.java:280-289 | the build-time checks pass if and only if there is at least one brain, all have a parameter vector, and they share input, output and parameter sizes; the size is then the common one |
| Mappers.DsToNpHomoBrains | io.github.ericmedvet.robotevo2d.main/src/main/java/io/github/ericmedvet/robotevo2d/main/builders/Mappers.java:290-304 | a length different from the common size is rejected with both numbers; otherwise every brain gets the whole vector and keeps its input and output sizes |
| Mappers.HomoExample | io.github.ericmedvet.robotevo2d.main/src/main/java/io/github/ericmedvet/robotevo2d/main/builders/Mappers.java:306 | the example genotype is `brainSize` zeros |
| Mappers.HomoExampleAccepted | io.github.ericmedvet.robotevo2d.main/src/main/java/io/github/ericmedvet/robotevo2d/main/builders/Mappers.java:290-306 | the example genotype is accepted by the mapping |
| Mappers.HomoRoundTrip | io.github.ericmedvet.robotevo2d.main/src/main/java/io/github/ericmedvet/robotevo2d/main/builders/Mappers.java:296-303 | brains that already share one vector are unchanged by being handed that vector |
| Mappers.FixedBodyVoxelSizes | io.github.ericmedvet.robotevo2d.main/src/main/java/io/github/ericmedvet/robotevo2d/main/builders/Mappers.java:355-369 | passes if and only if some voxel is not NONE and all such voxels share input and output sizes, and gives those sizes |
| Reactive.CellIndex | io.github.ericmedvet.robotevo2d.main/src/main/java/io/github/ericmedvet/robotevo2d/main/builders/Mappers.java:395-397 | an empty output throws; otherwise the index is in `0..|output|`, is 0 if and only if no output is positive, and otherwise names the first maximal output, which is positive |
| Reactive.IndexGrid | io.github.ericmedvet.robotevo2d.main/src/main/java/io/github/ericmedvet/robotevo2d/main/builders/Mappers.java:394-398 | the grid fails if and only if some cell's output is empty, and otherwise has `w` columns of `h` cells |
| Reactive.CellPoint | io.github.ericmedvet.robotevo2d.main/src/main/java/io/github/ericmedvet/robotevo2d/main/builders/Mappers.java:394-395 | cell `(x, y)` is queried at the point `(x / w, y / h)`, which lies in `[0, 1) x [0, 1)` |
| Reactive.IndexesInRange | io.github.ericmedvet.robotevo2d.main/src/main/java/io/github/ericmedvet/robotevo2d/main/builders/Mappers.java:394-398 | every cell index lies between 0 and the size of that cell's output |
| Reactive.MaxOrZero | io.github.ericmedvet.robotevo2d.main/src/main/java/io/github/ericmedvet/robotevo2d/main/builders/Mappers.java:321 | `max().orElse(0)` is 0 on an empty grid and otherwise a cell value no smaller than any other |
| Reactive.BodyOf | io.github.ericmedvet.robotevo2d.main/src/main/java/io/github/ericmedvet/robotevo2d/main/builders/Mappers.java:321-328 | the placeholder body exactly when no cell value is positive and some cell is 0 or there are none; otherwise the grid of the cell values |
| Reactive.PlaceholderRule | io.github.ericmedvet.robotevo2d.main/src/main/java/io/github/ericmedvet/robotevo2d/main/builders/Mappers.java:321-322 | for non-negative indexes, the placeholder body appears if and only if every cell is 0 |
| Reactive.PlaceholderWithNegatives | io.github.ericmedvet.robotevo2d.main/src/main/java/io/github/ericmedvet/robotevo2d/main/builders/Mappers.java:321 | the rule tests the maximum for equality with 0, so a grid of negative values only is not the placeholder |
| Reactive.NmrfToReactiveGridVsr | io.github.ericmedvet.robotevo2d.main/src/main/java/io/github/ericmedvet/robotevo2d/main/builders/Mappers.java:394-401 | the index grid and the placeholder decision throw if and only if some cell's output is empty |
| Reactive.LookupsInRange | io.github.ericmedvet.robotevo2d.main/src/main/java/io/github/ericmedvet/robotevo2d/main/builders/Mappers.java:394-407 | when no cell's output has more values than there are available voxels (as for the example function), every index is at most `availableVoxels.size()`, so each lookup `availableVoxels.get(i - 1)` of a positive index is in range |
| Reactive.NmrfPlaceholder | io.github.ericmedvet.robotevo2d.main/src/main/java/io/github/ericmedvet/robotevo2d/main/builders/Mappers.java:394-401 | the function produces the placeholder body if and only if no output at any cell is positive |
| Reactive.CellsAllZero | io.github.ericmedvet.robotevo2d.main/src/main/java/io/github/ericmedvet/robotevo2d/main/builders/Mappers.java:400 | every value of the grid laid out cell after cell is 0 if and only if every cell is 0 |
| Reactive.IsToReactiveGridVsrExample | io.github.ericmedvet.robotevo2d.main/src/main/java/io/github/ericmedvet/robotevo2d/main/builders/Mappers.java:316 | the example is `w * h` zero genes with bounds 0 and `availableVoxels.size() + 1`; a negative `w * h` makes `nCopies` throw |
| Reactive.ExampleIsPlaceholder | io.github.ericmedvet.robotevo2d.main/src/main/java/io/github/ericmedvet/robotevo2d/main/builders/Mappers.java:316-322 | every example gene is within its bounds, and the example maps to the placeholder body |

## Left out

- The simulator and fitness extraction: the evaluator is a parameter.
- Thread pools and futures: results are joined in submission order.
- Random draws, the Gaussian directions and their normalisation to `SEGMENTLENGTH`: the base and the direction vectors are inputs.
- Floating point: genotypes, ticks and outputs are exact reals; NaN in `argmax` is not modelled.
- `serialize` (Java serialization in Base64) and number formatting: a row holds the genotype and fitness as values.
- Writer I/O: the file is a sequence of lines, and `printStackTrace` is a no-op.
- The file-name quirk in `main`, where both tasks write the same file: not modelled.
- An exception from building the mapper (`nb.build`, `exampleInput`) would abort a sweep. The model takes it not to happen; `nOfParams` is a parameter.
- The robot description string: the model keeps only the body string and the controller.
- `GridUtils.fit`, `GridUtils.largestConnected`, `Grid.create` and the reactive voxel suppliers are foreign. The body keeps the index values; `Grid.create(w, h, genes)` is taken to hold the genes in order, and `w` and `h` are natural numbers.
- Reactive.NmrfToReactiveGridVsr: the lookup `availableVoxels.get(i - 1)` (Mappers.java lines 327 and 406) throws when a kept cell's index exceeds `availableVoxels.size()`; which cells are kept depends on the foreign `largestConnected`, so that failure is not modelled. `Reactive.LookupsInRange` gives a condition under which it cannot happen.
- Reactive.IsToReactiveGridVsrExample: `w * h` is computed with exact integers, not 32-bit wrap-around.
- `noisedDsToNIV`, `bodyBrainHomoDistributedVSR` and `ndsToFixedBodyCentralizedVSR`: outside this model, apart from the consistency check of `ndsToFixedBodyHomoDistributedVSR`.
- `builder.build(...)` in the hetero and homo suppliers: the freshly built brains are taken to equal `target`'s brains.
- Mappers.DsToNpHeteroBrains: the sum of the brain sizes is exact, not a 32-bit `int` sum.
- `Composed.shallowest` and `setParams`: brains are values and assignment returns new brains, so sharing between brains is not modelled.
- Mappers.FixedBodyVoxelSizes: the per-voxel sizes from `DistributedNumGridVSR.nOfInputs/nOfOutputs` are inputs. The brain built from them and the distributed robot are not modelled.
- The nmrf example function (`MultivariateRealFunction.from(vs -> vs, …)`) is foreign and not modelled.
- The message of `checkNumericalParametrizedSizeConsistency` says "output size"; errors are modelled by kind and data, not text.

## Findings

| source | as written | input that shows it | evidently intended | confidence | as-written member | corrected member |
|---|---|---|---|---|---|---|
| io.github.ericmedvet.robotevo2d.main/src/main/java/io/github/ericmedvet/robotevo2d/main/Main.java:194 | the bound `nOfRigids - 6` is a 32-bit `int` subtraction, and it wraps for counts near `Integer.MIN_VALUE` (likewise `- 5`, `- 8` … `- 16` at 235 and 250-265) | `buildStringShape(BIPED, -2147483647)`: the bound becomes 2147483643, so four voxels are marked rigid for a negative count and the string is `srrs-srrs-s..s` instead of `ssss-ssss-s..s` | a negative count behaves like 0 (no rigid voxel), as it does for every count that does not wrap | not executed; the sweeps only pass counts `0..nOfShapes-1` | JavaInt.BipedNegativeString | ShapeBuilder.MarkRun |

For that row:

- **As-written member.** `JavaInt.PassesAsWritten` models the source's loop bound, and `JavaInt.BipedAsWritten` the BIPED string built with it. `JavaInt.BipedNegativeCount` and `JavaInt.WrappedRunsFully` state the discrepancy in the pass counts, and `JavaInt.BipedNegativeString` in the printed string. `JavaInt.BipedAgreesWithoutWrap` shows that the two strings differ only where a bound wraps.
- **Corrected member.** `ShapeBuilder.MarkRun` uses exact integers, and the rest of the model builds on it. For it:
  - `JavaInt.PassesAreMarked` and `ShapeEncoder.OutOfRangeCounts` prove that a count of 0 or less marks nothing;
  - `ShapeBuilder.BuildStringShape` proves that the whole result is then `Encode(shape, 0)`.

