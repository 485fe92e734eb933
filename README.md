# Wireframe renderer core in Dafny

A model of the core of a small C++ wireframe renderer. The renderer:

1. reads objects (vertexes and triangular faces) and a scene description;
2. stores transformed copies of the objects;
3. projects every copy through the camera and perspective matrices onto a pixel grid;
4. draws the three edges of every face with Bresenham's line algorithm into a shading grid of `yres` rows and `xres` columns, with optional two-cell antialiasing.

The project has six modules:

- `Decimal` (`decimal.dfy`): `std::to_string` on non-negative integers.
- `Color` (`color.dfy`): the colour helpers of `color.cpp`, with `std::size_t` arithmetic taken modulo 2^64.
- `Transformation` (`transformation.dfy`):
  - 4x4 matrices over the reals;
  - the translation, rotation and scaling builders;
  - `isIdentity`;
  - the classification of a tokenised transformation line by its tag (`SpecOf`);
  - the left-multiplying fold of `computeGrandProduct`.
- `Objects` (`objects.dfy`):
  - vertexes, faces and grid pixels;
  - the reserved index 0;
  - `copy()`;
  - the line classification of `processFile` over already tokenised lines.
- `Raster` (`raster.dfy`): what `bresenhamRasterize` draws, stated as values:
  - `Orient` is the frame the segment is brought into;
  - `Rise` is the rounded ideal line that the `eps_d` recurrence tracks;
  - `LineWrites` is the sequence of `plotPoint` calls;
  - `Shade` is the value a cell has after a sequence of calls.
- `Wireframe` (`wireframe.dfy`): the class `Wireframe`, with:
  - the `objects` and `copies` maps as `map` fields;
  - the shading grid as an `array2<real>` field;
  - the methods `SaveTransformedCopy`, `ProcessTransformBlocks`, `ApplyTransforms`, `PlotPoint`, `BresenhamRasterize` and `Plot`.

  It also holds the specification functions for these methods:
  - `SaveCopy` and `SaveAll`: the copies map after one block and after all blocks;
  - `ToGrid`: a copy after projection;
  - `FaceWrites`, `FacesWrites` and `SceneWrites`: the `plotPoint` calls of one face, of an object's faces and of a whole scene.

The imperative methods are proved against these functions. Each loop is proved with its invariants:
- the copy-name search;
- the vertex loops;
- the `eps_d` loop of `bresenhamRasterize`, whose invariant is `eps_d == k * dBase - rise * dIncr` with `-dIncr <= 2 * eps_d < dIncr`;
- the grid-zeroing and drawing loops of `plot`.

The lemmas then state what the renderer promises about those functions.

External inputs become parameters:
- `stod` and `stoi`, the string-to-number conversions;
- `round` from `<cmath>`;
- the tolerance of `isClose` (utils.h is not part of this model);
- the cosine and sine of a rotation angle and Eigen's `normalize` of its axis, bundled with `stod` as `Numerics` for transformation lines;
- the iteration order of `std::map`, passed to `Plot` as a sorted key sequence.

Floats and doubles are modelled as reals.

The two slope tests on the float `slope` are modelled as exact integer tests. `SlopeIsNegativeIff` and `SlopeIsSteepIff` prove that the real-valued tests at wireframe.cpp:238 and 254 are exactly `dy < 0` and `|dy| > dx`. Float rounding could make them differ only for coordinates of 2^24 and more.

The comment at wireframe.cpp:179-182 describes a different NDC-to-pixel mapping from the code at wireframe.cpp:183-187. `GridPixel` follows the code.

## Model

| member | source | states |
|---|---|---|
| Decimal.NatToString | color.cpp:35-38 | the decimal of n is a non-empty string of digits with no leading zero, one digit exactly when n < 10 and starting with '0' exactly when n == 0 |
| Decimal.NatToStringValue | color.cpp:35-38 | the digits of to_string(n), read most significant first, denote n |
| Decimal.NatToStringInjective | wireframe.cpp:24-27 | different numbers have different decimals, so copy numbers give different names |
| Decimal.NatToStringExamples | color.cpp:35-38 | to_string of 1, 2, 3 and 255 |
| Color.ToSize | color.cpp:32 | conversion to size_t keeps values in range and is congruent modulo 2^64 |
| Color.InitColor | color.cpp:5-8 | the colour holds exactly the given components |
| Color.ScaleColor | color.cpp:10-14 | for a factor of at least 0 each channel is factor * c with its fraction dropped; ScaleByZero, ScaleByOne and ScaleNoIncrease fix the cases 0, 1 and [0, 1] |
| Color.ScaleByZero | color.cpp:10-14 | scaleColor by 0 gives (0, 0, 0) |
| Color.ScaleByOne | color.cpp:10-14 | scaleColor by 1 keeps every colour whose channels fit an int |
| Color.ScaleChannelNoIncrease | color.cpp:11-13 | for a factor in [0, 1] a truncated channel never exceeds the original |
| Color.ScaleNoIncrease | color.cpp:10-14 | for a factor in [0, 1] no channel of scaleColor increases |
| Color.NegateColor | color.cpp:31-33 | each channel of at most 255 becomes 255 minus it |
| Color.NegateTwice | color.cpp:31-33 | negateColor is an involution on every colour, wrapped channels included |
| Color.NegateChannelTwice | color.cpp:32 | the unsigned subtraction 255 - c undone by a second one, also when it wraps |
| Color.NegateWraps | color.cpp:32 | a channel above 255 wraps to 2^64 - 1 instead of going negative |
| Color.ToString | color.cpp:35-38 | the text has at least five characters, only digits and spaces, and neither starts nor ends with a space; ToStringInjective reads r, g and b back from it |
| Color.ToStringInjective | color.cpp:35-38 | toString's decimals with single spaces determine r, g and b |
| Color.ToStringWhite | color.cpp:35-38 | the white of output renders as "255 255 255" |
| Transformation.TransposeCombines | transformation.cpp:103 | the transpose of b times u combines the rows of b with weights u |
| Transformation.RowTimesMatrix | transformation.cpp:103 | (u * b) . v == u . (b * v) |
| Transformation.ApplyMul | transformation.cpp:103 | (a * b) * v == a * (b * v): a product applies its right factor first |
| Transformation.Translation | transformation.cpp:15-22 | the last row is (0, 0, 0, 1), so w is kept; TranslationMovesPoint, TranslationsCompose and NeutralBuilders state what it does to points |
| Transformation.Rotation | transformation.cpp:24-40 | the last row is (0, 0, 0, 1) and there is no translation part; RotationRodrigues states that it turns points counterclockwise about its axis by the angle of c and s, and RotationFixesAxis and RotationOrthogonal follow for a unit axis |
| Transformation.RotationRodrigues | transformation.cpp:31-38 | the matrix maps p to c p + (1 - c)(r . p) r + s (r x p), Rodrigues' counterclockwise rotation formula, for any axis r |
| Transformation.RotationQuarterTurn | transformation.cpp:31-38 | a quarter turn (c = 0, s = 1) about +z takes (1, 0, 0) to (0, 1, 0) |
| Transformation.Scaling | transformation.cpp:42-49 | the last row is (0, 0, 0, 1) and there is no translation part; ScalingScalesPoint, ScalingsCompose and NeutralBuilders state what it does to points |
| Transformation.TranslationMovesPoint | transformation.cpp:15-22 | translation(tx, ty, tz) moves (x, y, z, 1) to (x + tx, y + ty, z + tz, 1) |
| Transformation.ScalingScalesPoint | transformation.cpp:42-49 | scaling(sx, sy, sz) maps (x, y, z, 1) to (sx x, sy y, sz z, 1) |
| Transformation.TranslationsCompose | transformation.cpp:15-22 | translation(b) * translation(a) == translation(a + b) |
| Transformation.ScalingsCompose | transformation.cpp:42-49 | scalings compose to the component-wise product of their factors |
| Transformation.NeutralBuilders | transformation.cpp:15-49 | translation(0, 0, 0) and scaling(1, 1, 1) are the identity |
| Transformation.RotationRows | transformation.cpp:31-38 | the three rows of rotation are cyclic shifts of two row shapes over the shifted axis |
| Transformation.LeadFixesAxisPoly | transformation.cpp:32-33 | for a unit axis row 0 of the rotation dotted with the axis gives its first component |
| Transformation.LeadNormPoly | transformation.cpp:32-33 | for a unit axis and c^2 + s^2 = 1 row 0 has unit length |
| Transformation.LeadNextPoly | transformation.cpp:32-35 | for a unit axis and c^2 + s^2 = 1 rows 0 and 1 are orthogonal |
| Transformation.LeadNextDots | transformation.cpp:32-35 | row 0 fixes the axis component, has unit length and is orthogonal to row 1 |
| Transformation.RotationFixesAxis | transformation.cpp:31-38 | for a unit axis the rotation maps (rx, ry, rz, 1) to itself |
| Transformation.RotationIsLinear | transformation.cpp:31-38 | the rotation's last row and column are (0, 0, 0, 1) |
| Transformation.RotationOrthogonal | transformation.cpp:31-38 | for a unit axis and c^2 + s^2 = 1 the rotation times its transpose is the identity |
| Transformation.IsIdentity | transformation.cpp:51-65 | true exactly when every entry is within the tolerance of the identity's entry |
| Transformation.NeutralBuildersNearIdentity | transformation.cpp:51-65 | isIdentity accepts the identity, translation(0, 0, 0) and scaling(1, 1, 1) |
| Transformation.FarEntryNotIdentity | transformation.cpp:57-61 | one entry outside the tolerance makes isIdentity false |
| Transformation.GrandProduct | transformation.cpp:97-103 | every fold of translations, rotations and scalings has last row (0, 0, 0, 1); GrandProductAppliesInOrder states that it applies the lines in file order |
| Transformation.ApplyInOrderSnoc | transformation.cpp:97-103 | applying one more line in file order applies its matrix last |
| Transformation.GrandProductAppliesInOrder | transformation.cpp:97-103 | the fold Tn * ... * T1 applied to a point acts as T1 first and Tn last |
| Transformation.GrandProductSnoc | transformation.cpp:103 | one further line multiplies the fold on the left |
| Transformation.GrandProductPrefix | transformation.cpp:97-103 | the fold of i + 1 lines is line i times the fold of the first i |
| Transformation.GrandProductOfThree | transformation.cpp:97-103 | three lines fold to T3 * (T2 * T1) |
| Transformation.TranslationLinesCompose | transformation.cpp:88-103 | two translation lines fold to the translation by their sum |
| Transformation.SpecOf | transformation.cpp:88-95 | a line is a translation exactly when its tag starts with 't', a rotation exactly when it starts with 'r' and a scaling otherwise, with its numbers read by stod and the rotation axis normalised |
| Transformation.ScalingIsTheFallback | transformation.cpp:88-95 | the tags "s", "x", "T" and the empty tag scale, and "translate" translates |
| Transformation.ComputeGrandProduct | transformation.cpp:81-104 | the loop classifies each tokenised line by its tag and, with first_run, returns the fold of the lines' matrices |
| Objects.InitVertex | object.cpp:11-17 | the vertex stores a, b, c as x, y, z |
| Objects.InitFace | object.cpp:19-25 | the face stores a, b, c as v1, v2, v3 |
| Objects.InitGridVertex | object.cpp:27-32 | the pixel stores a, b as x, y |
| Objects.Init | object.cpp:34-37 | init appends the reserved vertex (0, 0, 0) and the reserved pixel (0, 0) and changes nothing else |
| Objects.NewObject | object.cpp:39-41 | a new Object is unnamed, has one vertex (0, 0, 0), one pixel (0, 0) and no faces |
| Objects.Copy | object.cpp:48-54 | copy keeps name, vertexes and faces, and its pixels are only the reserved one |
| Objects.CopyIsReserved | object.cpp:48-54 | a copy is reserved at index 0 and keeps its faces addressing its vertexes |
| Objects.BeforeFirstDot | object.cpp:69-72 | the name is the longest prefix of the file name without a '.' |
| Objects.DotNameIsShorter | object.cpp:57-72 | a file name that passed the ".obj" test has a '.', so erasing from it is defined |
| Objects.DotObjIsSubstringTest | object.cpp:57-59 | ".obj" is a substring test: "box.obj.bak" passes and is named "box", "obj" fails |
| Objects.FirstChar | object.cpp:78 | the tag's first character, and '\0' for an empty tag as std::string's index at size() gives; a non-'\0' result is the tag's first character |
| Objects.EveryLineCounts | object.cpp:75-86 | every line adds exactly one entry, a vertex for a 'v' line and a face otherwise |
| Objects.VertexLinePosition | object.cpp:75-86 | the j-th 'v' line in file order becomes the j-th vertex after the reserved one |
| Objects.ProcessFile | object.cpp:56-89 | it fails exactly without ".obj", and otherwise names an unnamed object and appends vertexes and faces in file order |
| Objects.LoadObject | object.cpp:43-46 | Object(filename) is reserved, named up to the first '.', vertex i is the i-th 'v' line, faces in file order |
| Raster.SlopeIsNegativeIff | wireframe.cpp:226-243 | the float test slope < 0 holds exactly when dy < 0, dx == 0 included |
| Raster.SlopeIsSteepIff | wireframe.cpp:254 | after reflection the float test on the slope holds exactly when dy > dx |
| Raster.Orient | wireframe.cpp:216-261 | endpoints ordered by x; reflection exactly for negative slopes; steep exactly when abs(dy) > abs(dx); extents max(abs(dx), abs(dy)) and the other |
| Raster.RiseNearIdeal | wireframe.cpp:305-311 | the rounded rise keeps -dIncr <= 2 eps_d < dIncr |
| Raster.RiseUnique | wireframe.cpp:305-311 | any base within half a pixel of the ideal line is the rounded rise |
| Raster.RiseStep | wireframe.cpp:305-311 | per step the base coordinate rises by 0 or 1 |
| Raster.RiseRange | wireframe.cpp:263-312 | the base goes from lower's to upper's coordinate and stays between them |
| Raster.InBound | wireframe.cpp:196-201 | pointInBound(y, x) is true exactly when 0 <= y < yres and 0 <= x < xres |
| Raster.ShadeAppend | wireframe.cpp:204-208 | one more plotPoint sets its cell and leaves every other cell |
| Raster.ShadeConcat | wireframe.cpp:204-208 | two runs of plotPoint calls in sequence act as the second run over the grid the first left |
| Raster.ShadeUntouched | wireframe.cpp:204-208 | a cell no call names keeps its value |
| Raster.ShadeInUnit | wireframe.h:40-41 | shades in [0, 1] over a value in [0, 1] leave a value in [0, 1] |
| Raster.TracedPlain | wireframe.cpp:278-301 | without antialiasing every step plots exactly its main cell at shade 1 |
| Raster.TracedShadesInUnit | wireframe.cpp:268-301 | every shade the loop writes lies in [0, 1] |
| Raster.LineShadesInUnit | wireframe.cpp:211-315 | every shade a segment writes lies in [0, 1] |
| Raster.OffGridWritesNothing | wireframe.cpp:212-214 | a segment with an endpoint off the grid leaves every cell as it was |
| Raster.CellInBox | wireframe.cpp:263-312 | every main cell lies in the bounding box of the two endpoints |
| Raster.Endpoints | wireframe.cpp:263-312 | the first main cell is the lower endpoint and the last the upper one |
| Raster.PlainLine | wireframe.cpp:251-312 | without antialiasing max(abs(dx), abs(dy)) + 1 cells at 1.0, all on the grid, one per iterated coordinate, first and last the endpoints |
| Raster.MainCellsStep | wireframe.cpp:305-311 | in the reflected frame the base coordinate never decreases and rises by at most 1 per step |
| Raster.VerticalLine | wireframe.cpp:227-261 | a vertical segment takes the steep branch and keeps its column |
| Raster.SwapSymmetric | wireframe.cpp:216-224 | with distinct columns swapping the endpoints gives the same writes |
| Raster.AntialiasedSteps | wireframe.cpp:268-295 | an interior antialiased step writes 1 - m and m to two adjacent cells, m = dBase / dIncr in [0, 1], and the ends get 1.0 |
| Raster.IntensityInUnit | wireframe.cpp:269-270 | the antialiasing intensity dBase / dIncr lies in [0, 1] |
| Raster.HorizontalLine | wireframe.cpp:251-312 | (x0, y)-(x0 + n, y), such as (0,5)-(10,5), lights the n + 1 cells of its row |
| Raster.DiagonalLine | wireframe.cpp:251-312 | (x0, y0)-(x0 + n, y0 + n), such as (0,0)-(5,5), lights the n + 1 diagonal cells |
| Wireframe.CopyNameParts | wireframe.cpp:24-27 | a copy name is the object's name, then "_copy", then digits that denote the copy number |
| Wireframe.CopyNameInjective | wireframe.cpp:24-27 | different copy numbers give different copy names |
| Wireframe.CopyNamesHas | wireframe.cpp:25-28 | the names of copies 1 to n include every one of them |
| Wireframe.CopyNamesLack | wireframe.cpp:25-28 | the names of copies 1 to n do not include a later one |
| Wireframe.CopyNamesCard | wireframe.cpp:25-28 | there are n names of copies 1 to n, so the search ends |
| Wireframe.FreeFrom | wireframe.cpp:23-28 | searching from k finds a free number at least k with every number before it taken |
| Wireframe.FreeCopyNumber | wireframe.cpp:23-28 | the copy number is the least n >= 1 whose name is not a key |
| Wireframe.FreeFromStart | wireframe.cpp:23-28 | a search that stops at k has found the least free number |
| Wireframe.FreeCopyName | wireframe.cpp:22-29 | the loop returns the name objectName_copyN of the least free N |
| Wireframe.TransformVertexes | wireframe.cpp:32-38 | vertex 0 is kept and every later vertex is transformed and divided by w |
| Wireframe.TransformCopyVertexes | wireframe.cpp:32-38 | the in-place loop computes exactly those vertexes |
| Wireframe.AffineKeepsW | wireframe.cpp:32-38 | a matrix with last row (0, 0, 0, 1) keeps w == 1, so nothing is divided |
| Wireframe.TransformTwice | wireframe.cpp:171-177 | transforming twice with a division by w each time is one transformation by the product |
| Wireframe.TransformedCopy | wireframe.cpp:20-38 | the stored copy has the new name, the object's faces, only the reserved pixel and the transformed vertexes |
| Wireframe.BlockProjectable | wireframe.cpp:123-140 | a block's fold never leads to a division by zero |
| Wireframe.SaveAllAddsOnePerBlock | wireframe.cpp:107-142 | every block adds one new copy and no existing copy changes |
| Wireframe.GridCoordsEdges | wireframe.cpp:183-187 | before rounding, the left and top edges of the view volume map to a quarter of the resolution, the right and bottom edges to three quarters |
| Wireframe.GridPixels | wireframe.cpp:183-189 | one grid pixel per vertex, in order |
| Wireframe.ToGrid | wireframe.cpp:171-189 | projection keeps name and faces and sends the vertexes to NDC |
| Wireframe.ToGridAligns | wireframe.cpp:171-189 | a fresh copy ends with one pixel per vertex, pixel i the cell of vertex i, so face indexes address pixels |
| Wireframe.TriangleEdges | wireframe.cpp:338-340 | a face's outline is drawn as edges v1-v2, v2-v3, v3-v1, in that order |
| Wireframe.PathShadesInUnit | wireframe.cpp:338-340 | every shade of a drawn outline lies in [0, 1] |
| Wireframe.FacesShadesInUnit | wireframe.cpp:332-341 | every shade of an object's faces lies in [0, 1] |
| Wireframe.SceneShadesInUnit | wireframe.cpp:330-342 | every shade plot writes lies in [0, 1] |
| Wireframe.SceneCellsInUnit | wireframe.h:40-41 | every cell of the grid plot leaves lies in [0, 1] |
| Wireframe.Orientation | wireframe.cpp:216-261 | the set-up code computes the frame of Orient, and the slope that the loop uses |
| Wireframe.BresenhamStep | wireframe.cpp:305-311 | one update of eps_d and base keeps eps_d == k dBase - rise dIncr in [-dIncr/2, dIncr/2) and base on the rounded line |
| Wireframe.Wireframe.SaveTransformedCopy | wireframe.cpp:16-41 | copies gains exactly the key objectName_copyN for the least free N, holding the transformed copy, and nothing else changes |
| Wireframe.Wireframe.ProcessTransformBlocks | wireframe.cpp:103-142 | each block's tokenised lines are classified and folded as computeGrandProduct does and the copy is saved, in file order |
| Wireframe.Wireframe.ProjectCopy | wireframe.cpp:169-190 | one copy's pass projects every vertex but 0 and appends its pixel |
| Wireframe.Wireframe.ProjectNext | wireframe.cpp:167-191 | one turn of the copy loop projects the copy under key and leaves every other copy |
| Wireframe.Wireframe.ApplyTransforms | wireframe.cpp:165-193 | every copy becomes its projection by the camera then perspective matrix, with the same keys |
| Wireframe.Wireframe.PlotPoint | wireframe.cpp:204-208 | the cell (y, x) gets the shade when it is on the grid, and every other cell keeps its value |
| Wireframe.Wireframe.BresenhamRasterize | wireframe.cpp:211-315 | every cell ends with the last shade the segment's calls wrote to it, or keeps its value |
| Wireframe.Wireframe.PlotIncrement | wireframe.cpp:264-303 | one turn of the loop writes the step's main cell, and on an antialiased interior step its neighbour |
| Wireframe.Wireframe.PlotFace | wireframe.cpp:334-340 | the three edges of a face drawn in order |
| Wireframe.Wireframe.PlotNextFace | wireframe.cpp:332-341 | face k drawn over the faces before it |
| Wireframe.Wireframe.PlotCopy | wireframe.cpp:332-341 | all faces of a copy, in face order |
| Wireframe.Wireframe.PlotNextCopy | wireframe.cpp:330-342 | copy keys[i] drawn over the copies before it |
| Wireframe.ZeroGrid | wireframe.cpp:320-326 | a fresh rows x cols grid with every cell 0 |
| Wireframe.Wireframe.Plot | wireframe.cpp:318-343 | a fresh yres x xres grid, every cell starting at 0, holding the last shade drawn over it by every face of every copy in map order |

The lemmas `DotLinear`, `ShiftKeepsDot`, `LeadAxisSum`, `LeadLeadSum`, `LeadNextSum`, `LeadApply`, `CombinesX`, `CombinesY`, `CombinesZ`, `CombinesW`, `SplitAtFirstSpace`, `CountPrefixBound`, `ApplyTimes`, `DotTimes`, `DivideScaled`, `GridPixelsSnoc` and `DivSelf` are algebra and counting steps of the proofs above and have no row, and so is `Snapshot`, the ghost read-out of the grid that the drawing loops use to refer to the grid before a step. `CopyName` (wireframe.cpp:24-27), `GridCoords` and `GridPixel` (wireframe.cpp:183-187) are the specification functions of those lines; `CopyNameParts`, `CopyNameInjective` and `GridCoordsEdges` state what they compute.

## Left out

- File and console I/O is not modelled:
  - reading the format, object and transformation files;
  - writing the PPM (`output`);
  - `printContents` and `printPixels`;
  - `main` and `usage`.

  `ProcessFile` and `ComputeGrandProduct` take the already tokenised lines. `ProcessTransformBlocks` takes each block as its object name and its tokenised lines, already grouped at the empty lines.
- Objects.ProcessFile leaves out the failure to open the file, which needs I/O. It also requires every line to have a tag and three numbers: `line[0]` and `element[1..3]` on a shorter line are undefined in the source.
- Transformation.ComputeGrandProduct requires at least one line, and every line to hold its tag and the numbers the tag reads (four for 'r', three otherwise); `element[i]` past the end is undefined in the source. With none the source returns an uninitialised Eigen matrix. Its ".txt" test and file reading are left out as I/O.
- Wireframe.Wireframe.ProcessTransformBlocks requires every block to name a known object and to have at least one line.
  - `objects[objectName]` silently inserts a default Object for an unknown name.
  - A block without lines reuses the previous block's matrix, or an uninitialised one.
  - A trailing empty line leaves `objectName` empty, so wireframe.cpp:142 reads `objects[""]`, which inserts a default Object, and stores its copy under the key "_copy1".

  None of these paths is modelled.
- Wireframe.Wireframe.SaveTransformedCopy and Wireframe.Wireframe.ApplyTransforms require w != 0 for every transformed vertex. The source would divide by zero and later cast the resulting NaN to int.
- Wireframe.Wireframe.ApplyTransforms requires `right != left` and `top != bottom`, the divisors of the grid mapping.
- Wireframe.Wireframe.Plot requires every face index to address an existing pixel. The source reads out of bounds otherwise.
- Wireframe.Wireframe.Plot takes the `std::map` iteration order as a parameter `keys`: the copy names in ascending order, each once.
- `computeTransforms` and Eigen's `inverse` are left out.
  - The camera and perspective matrices are fields given to the constructor.
  - Rotation takes the axis already normalised and the cosine and sine of the angle as reals `c` and `s`. `SpecOf` reads a rotation line through the parameters `normalize`, `cos` and `sin` of `Numerics`, which stand for Eigen's `normalize` and `<cmath>`.
- Floating point is modelled as exact real arithmetic:
  - the float `slope` and intensity of `bresenhamRasterize`;
  - the double matrix arithmetic;
  - the float product `factor * c` of `scaleColor`, which converts the size_t channel to float.

  Raster.Orient states the float slope tests as the integer tests `dy < 0` and `abs(dy) > abs(dx)`. These are the exact-arithmetic meaning of the tests, proved by `SlopeIsNegativeIff` and `SlopeIsSteepIff`. Float rounding of the slope could change the steep test only for coordinates of 2^24 and more.
- Raster.Rise and the `eps_d` loop use unbounded integers. At wireframe.cpp:308 `eps_d << 1` is taken after `eps_d += d_base`, so it computes 2 (eps_d + dBase), which approaches 3 dIncr and overflows an int once dIncr exceeds about 2^29. On some steps `eps_d` is negative at that shift (dBase = 1, dIncr = 5 gives -1 on the fourth step), and left-shifting a negative int is undefined before C++20; the model takes the shift as multiplication by 2. `2 * lower.y - y` overflows only beyond 2^30.
- Color.ScaleColor requires each product `factor * c` to fit an int. The source's `(int)` cast is undefined otherwise. Its product is exact here: from 2^24 on, the source's conversion of the channel to float rounds, so scaleColor((16777217, 0, 0), 1.0) gives 16777216 there while `ScaleByOne` keeps 16777217. `ScaleByOne` and `ScaleNoIncrease` therefore hold in real arithmetic, and for the float product only for channels below 2^24.
- The helpers `randNum`, `randColor` and `checkRotationMatrix` (randomness), `splitBySpace` and `isClose` (utils.h), and `destruct` (memory management) are not part of this model. `isClose` appears only as a tolerance parameter.
- `plot` and `applyTransforms` are modelled with helper methods:
  - the body of each loop of `plot` and of `applyTransforms` is a helper method (`PlotNextCopy`, `PlotNextFace`, `ProjectNext`);
  - drawing one face is `PlotFace`;
  - one turn of `bresenhamRasterize`'s loop is `PlotIncrement`.

  Each does what that part of the source does.
- The outline of a face is specified as the polyline v1, v2, v3, v1 (`PathWrites`). `TriangleEdges` proves that this is the three `bresenhamRasterize` calls of wireframe.cpp:338-340, in order.
