# QR multi-detector geometry, in Dafny

A model of the geometric core of gozxing's QR multi-detector, with proofs. It covers four things:

- `DetectArea` locates every QR code in an image. For each code it reports an `Area`. An `Area` holds the code's rectangle in the image and its rectangle on the "paper", meaning the sheet turned so that the code reads upright. It also holds the clockwise angle of that turn.
- `DetectMulti` collects the decoded results of all candidates, best effort.
- `ResultPoint_OrderBestPatterns` puts the three finder-pattern centres of a code into the canonical order [A, B, C].
- `Area.String` prints an `Area`.

The model has five modules:

- `Wrappers` holds `Option` and `Result`.
- `ResultPoints` (result_point.go) covers:
  - the point type and the squared distance;
  - the cross product;
  - the ordering, both as a function on three points and as an in-place method on an array.
- `Decimal` renders an `int` as Go's `%d` does. It also has the parser that inverts that rendering.
- `BarcodeArea` (barcode_area.go) covers:
  - the `Point`, `Rectangle` and `Area` values;
  - their text forms;
  - a parser that reads the text back.
- `MultiDetector` (qrcode/detector/multi_detector.go) covers:
  - truncation and the `min`/`max` closures;
  - the border size;
  - `rotatePaper`;
  - the orientation switch and the `Area` built for one candidate;
  - the two detection loops.

The model makes these choices:

- Coordinates are `real`, and Go's `int(f)` is truncation toward zero (`Trunc`).
- Distances are compared through their squares, which order non-negative lengths the same way (`SquareMonotone`).
- The collaborators the detector calls enter as parameters:
  - the finder's outcome is a `Result` of a candidate list or an error;
  - the module size is a function of the candidate;
  - per-candidate processing is a function returning a `Result`;
  - the image is its width and height.
- `Area` is a value. Printing it therefore cannot change it, and equal fields print equal text.

Points of the code's behaviour worth noting:

- The four orientation conditions of the switch in `DetectArea` can hold together; the first in the order 0, 90, 180, 270 wins. `OverlappingCases` gives a triple that satisfies both the 0 and the 90 condition.
- A candidate that matches no condition still appends Go's zero `Area`.
- The first candidate whose module size is below 1 ends the whole `DetectArea` call with NotFound. The Areas built so far are still returned.
- The border is `int(3.5*moduleSize + 0.5)` (qrcode/detector/multi_detector.go:90), which rounds half up. The comment on that line says "round up", but the result is not the ceiling of 3.5 modules: a module size of 1.2 gives 4, not 5 (`BorderSizeRounding`).
- Equal image and paper rectangles do not imply rotation 0 (`EqualRectanglesWhenHalfTurned`).

## Model

| member | source | states |
|---|---|---|
| `ResultPoints.NewResultPoint` | result_point.go:17-27 | the new point's GetX and GetY return the given coordinates |
| `ResultPoints.SquaredDistance` | result_point.go:68-70 | the squared distance is never negative |
| `ResultPoints.SquareMonotone` | result_point.go:68-70 | for non-negative lengths, a <= b exactly when a*a <= b*b, so squared distances compare as distances do |
| `ResultPoints.SquaredDistanceSymmetric` | result_point.go:68-70 | distance(p, q) = distance(q, p) |
| `ResultPoints.CrossProductZAntisymmetric` | result_point.go:72-76 | crossProductZ(A, B, C) = -crossProductZ(C, B, A) |
| `ResultPoints.CornerIndex` | result_point.go:34-53 | the chosen B is opposite a longest side; every side of an earlier vertex in the tie order (1-2, then 0-2, then 0-1) is strictly shorter |
| `ResultPoints.InitialGuess` | result_point.go:41-53 | the guess has three points with the chosen corner in the middle |
| `ResultPoints.OrderedBest` | result_point.go:32-66 | the ordered triple has three points with the chosen corner as B |
| `ResultPoints.OrderedBestPermutation` | result_point.go:32-65 | the ordered triple is a permutation of the input (equal multisets) |
| `ResultPoints.OrderedBestSwapsOnlyEnds` | result_point.go:59-65 | the winding fix keeps B and either keeps the guess or exchanges A and C |
| `ResultPoints.SidesOfOrdered` | result_point.go:29-53 | the ordered triple has the input's side lengths; the longest is the side opposite B |
| `ResultPoints.OrderedBestLongestSide` | result_point.go:29-53 | after ordering, AB <= AC and BC <= AC |
| `ResultPoints.OrderedBestWinding` | result_point.go:59-61 | after ordering, crossProductZ(A, B, C) >= 0 |
| `ResultPoints.OrderedBestUniqueLongest` | result_point.go:41-53 | a strictly longest side puts the vertex opposite it in the middle |
| `ResultPoints.OrderedBestIdempotent` | result_point.go:32-65 | with a strictly longest side, ordering an ordered triple changes nothing |
| `ResultPoints.OrderedBestNotIdempotentUnderTie` | result_point.go:41-61 | under a tie for the longest side, a second ordering gives a different triple, for a concrete input |
| `ResultPoints.RightTriangleCorner` | result_point.go:32-65 | for a 3-4-5 triangle in any of its six input orders, B is the right-angle corner and the winding is non-negative |
| `ResultPoints.OrderBestPatterns` | result_point.go:32-66 | the first three slots become OrderedBest of their old contents; later slots are untouched |
| `Decimal.NatToString` | barcode_area.go:16 | the rendering is a non-empty run of digits with no leading zero |
| `Decimal.IntToString` | barcode_area.go:16 | the rendering starts with '-' exactly for negative values; non-negative values print as digits only |
| `Decimal.NatToStringRoundTrip` | barcode_area.go:16 | the digits denote the rendered number |
| `Decimal.IntToStringRoundTrip` | barcode_area.go:16 | parsing a rendered integer followed by a non-digit gives back the integer and the rest |
| `Decimal.IntToStringInjective` | barcode_area.go:16 | different integers print differently |
| `BarcodeArea.RectangleRoundTrip` | barcode_area.go:10-16 | a rectangle's "(minX,minY)-(maxX,maxY)" text parses back to the rectangle, whatever follows it |
| `BarcodeArea.AreaStringRoundTrip` | barcode_area.go:15-17 | parsing "Image:<rect> Paper:<rect> Rotate:<angle>" gives back the Area |
| `BarcodeArea.AreaStringInjective` | barcode_area.go:9-17 | two Areas print the same text exactly when their three fields are equal |
| `BarcodeArea.ZeroAreaString` | barcode_area.go:9-17 | the zero Area prints as "Image:(0,0)-(0,0) Paper:(0,0)-(0,0) Rotate:0" |
| `BarcodeArea.SignedRectangleString` | barcode_area.go:10-16 | negative coordinates print with a minus sign: "(-8,-8)-(68,68)" |
| `MultiDetector.Trunc` | qrcode/detector/multi_detector.go:90 | int(f) truncates toward zero: the result is within 1 of f, on f's side of zero |
| `MultiDetector.TruncMonotone` | qrcode/detector/multi_detector.go:43-54 | truncation never reverses an order |
| `MultiDetector.MinTrunc` | qrcode/detector/multi_detector.go:43-48 | the min closure returns the truncation of one argument, and it is no larger than either truncation |
| `MultiDetector.MaxTrunc` | qrcode/detector/multi_detector.go:49-54 | the max closure returns the truncation of one argument, and it is no smaller than either truncation |
| `MultiDetector.BorderSize` | qrcode/detector/multi_detector.go:90 | for a non-negative module size, the border is 3.5 modules rounded half up |
| `MultiDetector.BorderSizeAtLeastFour` | qrcode/detector/multi_detector.go:80-90 | every accepted module size (>= 1) gives a border of at least 4 |
| `MultiDetector.BorderSizeRounding` | qrcode/detector/multi_detector.go:90 | module sizes 1 and 5 give borders 4 and 18; 1.2 gives 4 although 3.5 x 1.2 > 4 |
| `MultiDetector.RotatePaperIdentity` | qrcode/detector/multi_detector.go:139-143 | angle 0 leaves the point unchanged |
| `MultiDetector.RotatePaperUnknownAngle` | qrcode/detector/multi_detector.go:139-155 | an angle outside {0, 90, 180, 270} gives (0, 0) |
| `MultiDetector.RotatePaper180Involution` | qrcode/detector/multi_detector.go:147-149 | two half turns of a W x H sheet give back any integer point |
| `MultiDetector.RotatePaperQuarterTurnsUndo` | qrcode/detector/multi_detector.go:144-152 | 90 on W x H and then 270 on H x W gives back the point, and so does the reverse order |
| `MultiDetector.RotatePaperTwoQuarterTurns` | qrcode/detector/multi_detector.go:144-149 | 90 on W x H and then 90 on H x W equals 180 on W x H |
| `MultiDetector.RotatePaperStaysOnSheet` | qrcode/detector/multi_detector.go:139-155 | a point on the sheet lands on the turned sheet, whose sides swap under a quarter turn |
| `MultiDetector.Classify` | qrcode/detector/multi_detector.go:92-130 | a chosen orientation's condition holds, and no condition earlier in the order 0, 90, 180, 270 holds |
| `MultiDetector.CandidateArea` | qrcode/detector/multi_detector.go:90-131 | Rotate is the chosen orientation's angle, always 0, 90, 180 or 270; Rotate 0 gives paper = image; no match gives the zero Area |
| `MultiDetector.CandidateAreaSpansBorder` | qrcode/detector/multi_detector.go:93-129 | in every matched case, both rectangles have Max - Min >= 2 x border on each axis |
| `MultiDetector.PaperCornersInsideImage` | qrcode/detector/multi_detector.go:100-129 | for a non-negative border, the paper corners turned back to the image frame lie inside the image rectangle |
| `MultiDetector.OverlappingCases` | qrcode/detector/multi_detector.go:93-109 | topLeft (10,10), topRight (50,50), bottomLeft (5,50) meets both the 0 and the 90 condition, and 0 is chosen |
| `MultiDetector.UprightExample` | qrcode/detector/multi_detector.go:90-99 | topLeft (10,10), topRight (50,10), bottomLeft (10,50) with module size 5 gives image (-8,-8)-(68,68), paper equal, Rotate 0 |
| `MultiDetector.EqualRectanglesWhenHalfTurned` | qrcode/detector/multi_detector.go:110-119 | a half-turned code centred on a square image has paper = image with Rotate 180 |
| `MultiDetector.FirstSmallModule` | qrcode/detector/multi_detector.go:69-83 | all candidates before the index have module size >= 1, and the one at the index (if any) is below 1 |
| `MultiDetector.DetectArea` | qrcode/detector/multi_detector.go:42-135 | a finder error comes back unchanged with no Areas; otherwise there is one Area per candidate, in order, up to the first small module, which ends the call with NotFound; with no small module there is no error |
| `MultiDetector.Successes` | qrcode/detector/multi_detector.go:30-38 | there are never more results than candidates |
| `MultiDetector.SuccessIndices` | qrcode/detector/multi_detector.go:30-38 | the increasing positions of exactly the candidates whose processing succeeds |
| `MultiDetector.SuccessesAreSuccessfulInOrder` | qrcode/detector/multi_detector.go:30-38 | the j-th result is the result of the j-th successful candidate, so the results are the in-order subsequence of successes |
| `MultiDetector.SuccessesWhenAllSucceed` | qrcode/detector/multi_detector.go:30-38 | when every candidate succeeds, nothing is dropped |
| `MultiDetector.DetectMulti` | qrcode/detector/multi_detector.go:20-40 | NotFound exactly when the finder fails (wrapping its error) or finds nothing; otherwise no error and the successful results in order, never more than the candidates |

## Left out

- The hints map and the result-point callback (qrcode/detector/multi_detector.go:22, 56-60). These are dynamic type assertions on an untyped map. The callback is only observed and never changes a result, so the write of `this.resultPointCallback` in `DetectArea` is not modelled.
- `NewMultiDetector`, `NewDetector`, `GetImage` and the bit matrix. The image is only its width and height.
- The finder search (`NewMultiFinderPatternFinder`, `FindMulti`) is a parameter: its outcome as a `Result`.
- The module-size estimate (`calculateModuleSize`) is a parameter: a function of the candidate.
- Per-candidate decoding (`ProcessFinderPatternInfo`) is a parameter: a function returning a `Result` of an abstract result type.
- IEEE float64 rounding, NaN and infinities. Coordinates are exact reals.
- `int(f)` for floats outside Go's int range, and overflow of Go's `int` arithmetic. Integers are unbounded.
- The square root in `distance`. Only the comparisons of distances are used, and squared distances give the same comparisons.
- Error messages. The module-size NotFound carries the size instead of the formatted text. A finder failure carries an opaque reason.
- Go returns nil slices on its error paths. The model returns empty sequences.
- The internals of `fmt.Sprintf`, `strconv` and `image.Rectangle.String`. The `Decimal` module renders `%d`, and the rest is concatenation.
- The commented-out logging (qrcode/detector/multi_detector.go:74-76, 84).
- ResultPoints.OrderBestPatterns: requires at least three entries. The Go function indexes `patterns[0..2]` unchecked and panics on a shorter slice.
- ResultPoints.OrderBestPatterns: the permutation property is proved for `OrderedBest` (`OrderedBestPermutation`) rather than stated again on the array.
- `ResultPoint` is an interface in Go. Here it is a value with `GetX` and `GetY`, so sharing of point objects is not modelled.
