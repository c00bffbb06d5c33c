/**
 * The QR multi-detector (qrcode/detector/multi_detector.go): turning a
 * point on a sheet, classifying a finder triple into one of four
 * rotations, building the image and paper rectangles of a barcode, and the
 * two loops that collect one result per candidate.
 *
 * The finder search, the module-size estimate and the per-candidate decoder
 * are collaborators outside this model: they enter as parameters (the
 * finder's outcome, a module-size function, a processing function), and
 * the image enters as its width and height.
 */
module MultiDetector {
  import opened Wrappers
  import opened ResultPoints
  import opened BarcodeArea

  /** The three finder-pattern centres of one candidate code. */
  datatype FinderPatternInfo = FinderPatternInfo(topLeft: ResultPoint, topRight: ResultPoint, bottomLeft: ResultPoint)

  /** The errors the detector reports. */
  datatype Error =
    | FinderFailure(reason: string)          // whatever the finder collaborator returned
    | NotFoundWrapping(cause: Option<Error>) // WrapNotFoundException(cause)
    | NotFoundModuleSize(moduleSize: real)   // NewNotFoundException("moduleSize = %v", moduleSize)

  /** Go's int(f) on a float64: truncation toward zero. */
  function Trunc(r: real): (t: int)
    ensures r >= 0.0 ==> 0 <= t && t as real <= r < t as real + 1.0
    ensures r < 0.0 ==> t <= 0 && t as real - 1.0 < r <= t as real
  {
    if r >= 0.0 then r.Floor else -((-r).Floor)
  }

  lemma TruncMonotone(a: real, b: real)
    requires a <= b
    ensures Trunc(a) <= Trunc(b)
  {
    if 0.0 <= a {
      assert (Trunc(a) as real) <= a <= b < (Trunc(b) as real) + 1.0;
    } else if b < 0.0 {
      assert (Trunc(a) as real) - 1.0 < a <= b <= Trunc(b) as real;
    }
  }

  /** The min closure of DetectArea: the truncation of the smaller value. */
  function MinTrunc(a: real, b: real): (r: int)
    ensures r == Trunc(a) || r == Trunc(b)
    ensures r <= Trunc(a) && r <= Trunc(b)
  {
    if a > b then TruncMonotone(b, a); Trunc(b) else TruncMonotone(a, b); Trunc(a)
  }

  /** The max closure of DetectArea: the truncation of the larger value. */
  function MaxTrunc(a: real, b: real): (r: int)
    ensures r == Trunc(a) || r == Trunc(b)
    ensures r >= Trunc(a) && r >= Trunc(b)
  {
    if a < b then TruncMonotone(a, b); Trunc(b) else TruncMonotone(b, a); Trunc(a)
  }

  /** The quiet zone added around the finder patterns: 3.5 modules, rounded half up. */
  function BorderSize(moduleSize: real): (b: int)
    ensures moduleSize >= 0.0 ==> b as real <= 3.5 * moduleSize + 0.5 < b as real + 1.0
  {
    Trunc(3.5 * moduleSize + 0.5)
  }

  /** Every candidate DetectArea accepts gets a border of at least four pixels. */
  lemma BorderSizeAtLeastFour(moduleSize: real)
    requires moduleSize >= 1.0
    ensures BorderSize(moduleSize) >= 4
  {
    TruncMonotone(4.0, 3.5 * moduleSize + 0.5);
  }

  /** The border rounds 3.5 modules to the nearest integer, halves up; it is not the ceiling of 3.5 modules. */
  lemma BorderSizeRounding()
    ensures BorderSize(1.0) == 4 && BorderSize(5.0) == 18
    ensures BorderSize(1.2) == 4 && 3.5 * 1.2 > 4.0
  {
    assert Trunc(4.0) == 4 && Trunc(18.0) == 18 && Trunc(4.7) == 4;
  }

  /**
   * rotatePaper: where (x, y) on a width x height sheet lands once the sheet
   * is turned clockwise by angle; an angle other than 0, 90, 180 or 270
   * leaves both named results at zero.
   */
  function RotatePaper(angle: int, width: int, height: int, x: int, y: int): Point
  {
    if angle == 0 then Point(x, y)
    else if angle == 90 then Point(height - y, x)
    else if angle == 180 then Point(width - x, height - y)
    else if angle == 270 then Point(y, width - x)
    else Point(0, 0)
  }

  lemma RotatePaperIdentity(width: int, height: int, x: int, y: int)
    ensures RotatePaper(0, width, height, x, y) == Point(x, y)
  {
  }

  lemma RotatePaperUnknownAngle(angle: int, width: int, height: int, x: int, y: int)
    requires angle != 0 && angle != 90 && angle != 180 && angle != 270
    ensures RotatePaper(angle, width, height, x, y) == Point(0, 0)
  {
  }

  /** A half turn undone by another half turn. */
  lemma RotatePaper180Involution(width: int, height: int, x: int, y: int)
    ensures var p := RotatePaper(180, width, height, x, y);
            RotatePaper(180, width, height, p.x, p.y) == Point(x, y)
  {
  }

  /** A quarter turn of a width x height sheet is undone by a three-quarter turn of the turned (height x width) sheet, in either order. */
  lemma RotatePaperQuarterTurnsUndo(width: int, height: int, x: int, y: int)
    ensures var p := RotatePaper(90, width, height, x, y);
            RotatePaper(270, height, width, p.x, p.y) == Point(x, y)
    ensures var q := RotatePaper(270, width, height, x, y);
            RotatePaper(90, height, width, q.x, q.y) == Point(x, y)
  {
  }

  /** Two quarter turns make a half turn. */
  lemma RotatePaperTwoQuarterTurns(width: int, height: int, x: int, y: int)
    ensures var p := RotatePaper(90, width, height, x, y);
            RotatePaper(90, height, width, p.x, p.y) == RotatePaper(180, width, height, x, y)
  {
  }

  /** A point on the sheet stays on the turned sheet, whose sides swap under a quarter turn. */
  lemma RotatePaperStaysOnSheet(angle: int, width: int, height: int, x: int, y: int)
    requires 0 <= x <= width && 0 <= y <= height
    ensures var p := RotatePaper(angle, width, height, x, y);
            if angle == 90 || angle == 270 then 0 <= p.x <= height && 0 <= p.y <= width
            else 0 <= p.x <= width && 0 <= p.y <= height
  {
  }

  /** The four rotations DetectArea recognises, and the case where none applies. */
  datatype Orientation = Upright | Clockwise90 | Clockwise180 | Clockwise270 | Unmatched

  /** Position of an orientation in the switch; Unmatched comes after every case. */
  function Rank(o: Orientation): nat {
    match o
    case Upright => 0
    case Clockwise90 => 1
    case Clockwise180 => 2
    case Clockwise270 => 3
    case Unmatched => 4
  }

  /** The case condition of each orientation, on the positions of the three patterns. */
  predicate Matches(info: FinderPatternInfo, o: Orientation) {
    var tl, tr, bl := info.topLeft, info.topRight, info.bottomLeft;
    match o
    case Upright => tl.GetX() < tr.GetX() && tl.GetY() < bl.GetY()
    case Clockwise90 => tl.GetX() > bl.GetX() && tl.GetY() < tr.GetY()
    case Clockwise180 => tl.GetX() > tr.GetX() && tl.GetY() > bl.GetY()
    case Clockwise270 => tl.GetX() < bl.GetX() && tl.GetY() > tr.GetY()
    case Unmatched => false
  }

  /** The switch of DetectArea: the first case, in the order 0, 90, 180, 270, whose condition holds. */
  function Classify(info: FinderPatternInfo): (o: Orientation)
    ensures o != Unmatched ==> Matches(info, o)
    ensures forall earlier: Orientation :: Rank(earlier) < Rank(o) ==> !Matches(info, earlier)
  {
    if Matches(info, Upright) then Upright
    else if Matches(info, Clockwise90) then Clockwise90
    else if Matches(info, Clockwise180) then Clockwise180
    else if Matches(info, Clockwise270) then Clockwise270
    else Unmatched
  }

  /** The value stored in Area.Rotate for an orientation; the zero Area keeps 0. */
  function Angle(o: Orientation): int {
    match o
    case Upright => 0
    case Clockwise90 => 90
    case Clockwise180 => 180
    case Clockwise270 => 270
    case Unmatched => 0
  }

  /** The Area DetectArea appends for one candidate, on a width x height image, with border b. */
  function CandidateArea(width: int, height: int, info: FinderPatternInfo, b: int): (a: Area)
    ensures a.rotate == Angle(Classify(info))
    ensures a.rotate == 0 || a.rotate == 90 || a.rotate == 180 || a.rotate == 270
    ensures a.rotate == 0 ==> a.paperRectangle == a.imageRectangle
    ensures Classify(info) == Unmatched ==> a == ZeroArea
  {
    var tl, tr, bl := info.topLeft, info.topRight, info.bottomLeft;
    match Classify(info)
    case Upright =>
      var image := Rectangle(Point(MinTrunc(tl.GetX(), bl.GetX()) - b, MinTrunc(tl.GetY(), tr.GetY()) - b),
                             Point(Trunc(tr.GetX()) + b, Trunc(bl.GetY()) + b));
      Area(image, image, 0)
    case Clockwise90 =>
      Area(Rectangle(Point(Trunc(bl.GetX()) - b, MinTrunc(tl.GetY(), bl.GetY()) - b),
                     Point(MaxTrunc(tl.GetX(), tr.GetX()) + b, Trunc(tr.GetY()) + b)),
           Rectangle(RotatePaper(270, width, height, Trunc(tl.GetX()) + b, Trunc(tl.GetY()) - b),
                     RotatePaper(270, width, height, Trunc(bl.GetX()) - b, Trunc(tr.GetY()) + b)),
           90)
    case Clockwise180 =>
      Area(Rectangle(Point(Trunc(tr.GetX()) - b, Trunc(bl.GetY()) - b),
                     Point(MaxTrunc(tl.GetX(), bl.GetX()) + b, MaxTrunc(tl.GetY(), tr.GetY()) + b)),
           Rectangle(RotatePaper(180, width, height, Trunc(tl.GetX()) + b, Trunc(tl.GetY()) + b),
                     RotatePaper(180, width, height, Trunc(tr.GetX()) - b, Trunc(bl.GetY()) - b)),
           180)
    case Clockwise270 =>
      Area(Rectangle(Point(MinTrunc(tl.GetX(), tr.GetX()) - b, Trunc(tr.GetY()) - b),
                     Point(Trunc(bl.GetX()) + b, MaxTrunc(tl.GetY(), bl.GetY()) + b)),
           Rectangle(RotatePaper(90, width, height, Trunc(tl.GetX()) - b, Trunc(tl.GetY()) + b),
                     RotatePaper(90, width, height, Trunc(bl.GetX()) + b, Trunc(tr.GetY()) - b)),
           270)
    case Unmatched =>
      ZeroArea
  }

  /** Both sides of r span at least 2b. */
  predicate SpansBorder(r: Rectangle, b: int) {
    r.max.x - r.min.x >= 2 * b && r.max.y - r.min.y >= 2 * b
  }

  /** Every matched case yields two rectangles at least 2b wide and 2b high. */
  lemma CandidateAreaSpansBorder(width: int, height: int, info: FinderPatternInfo, b: int)
    requires Classify(info) != Unmatched
    ensures var a := CandidateArea(width, height, info, b);
            SpansBorder(a.imageRectangle, b) && SpansBorder(a.paperRectangle, b)
  {
    var tl, tr, bl := info.topLeft, info.topRight, info.bottomLeft;
    match Classify(info)
    case Upright =>
      TruncMonotone(tl.GetX(), tr.GetX());
      TruncMonotone(tl.GetY(), bl.GetY());
    case Clockwise90 =>
      TruncMonotone(bl.GetX(), tl.GetX());
      TruncMonotone(tl.GetY(), tr.GetY());
    case Clockwise180 =>
      TruncMonotone(tr.GetX(), tl.GetX());
      TruncMonotone(bl.GetY(), tl.GetY());
    case Clockwise270 =>
      TruncMonotone(tl.GetX(), bl.GetX());
      TruncMonotone(tr.GetY(), tl.GetY());
  }

  /**
   * Turns a point of the paper frame back into the image frame: the paper
   * of an Area with Rotate r was made by turning the W x H image the other
   * way, so turning the (W x H, or H x W after a quarter turn) paper by r
   * restores it.
   */
  function TurnBack(rotate: int, width: int, height: int, p: Point): Point {
    if rotate == 90 || rotate == 270 then RotatePaper(rotate, height, width, p.x, p.y)
    else RotatePaper(rotate, width, height, p.x, p.y)
  }

  predicate Inside(p: Point, r: Rectangle) {
    r.min.x <= p.x <= r.max.x && r.min.y <= p.y <= r.max.y
  }

  /** The paper rectangle is the image region seen on the turned sheet: its corners, turned back, lie in the image rectangle. */
  lemma PaperCornersInsideImage(width: int, height: int, info: FinderPatternInfo, b: int)
    requires b >= 0
    ensures var a := CandidateArea(width, height, info, b);
            Inside(TurnBack(a.rotate, width, height, a.paperRectangle.min), a.imageRectangle) &&
            Inside(TurnBack(a.rotate, width, height, a.paperRectangle.max), a.imageRectangle)
  {
    var tl, tr, bl := info.topLeft, info.topRight, info.bottomLeft;
    match Classify(info)
    case Upright =>
      TruncMonotone(tl.GetX(), tr.GetX());
      TruncMonotone(tl.GetY(), bl.GetY());
    case Clockwise90 =>
      TruncMonotone(bl.GetX(), tl.GetX());
      TruncMonotone(tl.GetY(), tr.GetY());
    case Clockwise180 =>
      TruncMonotone(tr.GetX(), tl.GetX());
      TruncMonotone(bl.GetY(), tl.GetY());
    case Clockwise270 =>
      TruncMonotone(tl.GetX(), bl.GetX());
      TruncMonotone(tr.GetY(), tl.GetY());
    case Unmatched =>
  }

  /** A triple whose top-right lies to the lower right and bottom-left to the lower left satisfies the 0 and the 90 case; the 0 case wins. */
  lemma OverlappingCases()
    ensures var info := FinderPatternInfo(ResultPointBase(10.0, 10.0), ResultPointBase(50.0, 50.0), ResultPointBase(5.0, 50.0));
            Matches(info, Upright) && Matches(info, Clockwise90) && Classify(info) == Upright
  {
  }

  /** An upright code with module size 5: a border of 18 around the truncated pattern centres. */
  lemma UprightExample()
    ensures var info := FinderPatternInfo(ResultPointBase(10.0, 10.0), ResultPointBase(50.0, 10.0), ResultPointBase(10.0, 50.0));
            var a := CandidateArea(100, 100, info, BorderSize(5.0));
            a.rotate == 0 && a.imageRectangle == Rectangle(Point(-8, -8), Point(68, 68)) && a.paperRectangle == a.imageRectangle
  {
    assert BorderSize(5.0) == 18;
    assert Trunc(10.0) == 10 && Trunc(50.0) == 50;
  }

  /** Equal image and paper rectangles do not mean an upright code: a centred half-turned code on a square image has them too. */
  lemma EqualRectanglesWhenHalfTurned()
    ensures var info := FinderPatternInfo(ResultPointBase(50.0, 50.0), ResultPointBase(10.0, 50.0), ResultPointBase(50.0, 10.0));
            var a := CandidateArea(60, 60, info, 4);
            a.rotate == 180 && a.paperRectangle == a.imageRectangle
  {
    assert Trunc(10.0) == 10 && Trunc(50.0) == 50;
  }

  /** The index of the first candidate whose module size is below 1, or |infos| when there is none. */
  function FirstSmallModule(infos: seq<FinderPatternInfo>, moduleSize: FinderPatternInfo -> real): (k: nat)
    ensures k <= |infos|
    ensures forall j :: 0 <= j < k ==> moduleSize(infos[j]) >= 1.0
    ensures k < |infos| ==> moduleSize(infos[k]) < 1.0
  {
    if infos == [] then 0
    else if moduleSize(infos[0]) < 1.0 then 0
    else 1 + FirstSmallModule(infos[1..], moduleSize)
  }

  /**
   * DetectArea over the finder's outcome: a finder error is returned as it
   * is; otherwise one Area per candidate, in order, until the first
   * candidate whose module size is below 1, which ends the call with
   * NotFound and the Areas built so far.
   */
  method DetectArea(width: int, height: int, found: Result<seq<FinderPatternInfo>, Error>,
                    moduleSize: FinderPatternInfo -> real)
    returns (areas: seq<Area>, e: Option<Error>)
    ensures found.Failure? ==> areas == [] && e == Some(found.error)
    ensures found == Success([]) ==> areas == [] && e == None
    ensures found.Success? ==>
              var infos := found.value;
              var k := FirstSmallModule(infos, moduleSize);
              |areas| == k &&
              (forall j :: 0 <= j < k ==>
                 areas[j] == CandidateArea(width, height, infos[j], BorderSize(moduleSize(infos[j])))) &&
              e == (if k < |infos| then Some(NotFoundModuleSize(moduleSize(infos[k]))) else None)
  {
    areas, e := [], None;
    if found.Failure? {
      e := Some(found.error);
      return;
    }
    var infos := found.value;
    var i := 0;
    while i < |infos|
      invariant 0 <= i <= |infos|
      invariant |areas| == i
      invariant forall j :: 0 <= j < i ==> moduleSize(infos[j]) >= 1.0
      invariant forall j :: 0 <= j < i ==>
                  areas[j] == CandidateArea(width, height, infos[j], BorderSize(moduleSize(infos[j])))
    {
      var info := infos[i];
      var size := moduleSize(info);
      if size < 1.0 {
        e := Some(NotFoundModuleSize(size));
        return;
      }
      var borderSize := BorderSize(size);
      areas := areas + [CandidateArea(width, height, info, borderSize)];
      i := i + 1;
    }
  }

  /** The results of the candidates whose processing succeeds, in candidate order. */
  function Successes<R>(infos: seq<FinderPatternInfo>, process: FinderPatternInfo -> Result<R, Error>): (r: seq<R>)
    ensures |r| <= |infos|
  {
    if infos == [] then []
    else
      var previous := Successes(infos[..|infos| - 1], process);
      match process(infos[|infos| - 1])
      case Success(v) => previous + [v]
      case Failure(_) => previous
  }

  /** The positions of the candidates whose processing succeeds, increasing. */
  function SuccessIndices<R>(infos: seq<FinderPatternInfo>, process: FinderPatternInfo -> Result<R, Error>): (ix: seq<nat>)
    ensures forall j :: 0 <= j < |ix| ==> ix[j] < |infos| && process(infos[ix[j]]).Success?
    ensures forall j, k :: 0 <= j < k < |ix| ==> ix[j] < ix[k]
    ensures forall i :: 0 <= i < |infos| && process(infos[i]).Success? ==> i in ix
  {
    if infos == [] then []
    else
      var n := |infos| - 1;
      var previous := SuccessIndices(infos[..n], process);
      if process(infos[n]).Success? then previous + [n] else previous
  }

  /** Successes keeps exactly the successful candidates, in order: its j-th entry is the result of the j-th successful one. */
  lemma {:induction false} SuccessesAreSuccessfulInOrder<R>(infos: seq<FinderPatternInfo>, process: FinderPatternInfo -> Result<R, Error>)
    ensures var r, ix := Successes(infos, process), SuccessIndices(infos, process);
            |r| == |ix| && forall j :: 0 <= j < |r| ==> r[j] == process(infos[ix[j]]).value
  {
    if infos != [] {
      var n := |infos| - 1;
      var prefix := infos[..n];
      SuccessesAreSuccessfulInOrder(prefix, process);
      var r0, ix0 := Successes(prefix, process), SuccessIndices(prefix, process);
      var r, ix := Successes(infos, process), SuccessIndices(infos, process);
      if process(infos[n]).Success? {
        assert r == r0 + [process(infos[n]).value] && ix == ix0 + [n];
      } else {
        assert r == r0 && ix == ix0;
      }
      forall j | 0 <= j < |r|
        ensures r[j] == process(infos[ix[j]]).value
      {
        if j < |r0| {
          assert ix[j] == ix0[j] && prefix[ix0[j]] == infos[ix0[j]];
        }
      }
    }
  }

  /** When every candidate is processed successfully, nothing is dropped. */
  lemma {:induction false} SuccessesWhenAllSucceed<R>(infos: seq<FinderPatternInfo>, process: FinderPatternInfo -> Result<R, Error>)
    requires forall i :: 0 <= i < |infos| ==> process(infos[i]).Success?
    ensures var r := Successes(infos, process);
            |r| == |infos| && forall i :: 0 <= i < |infos| ==> r[i] == process(infos[i]).value
  {
    if infos != [] {
      var n := |infos| - 1;
      assert forall i :: 0 <= i < n ==> infos[..n][i] == infos[i];
      SuccessesWhenAllSucceed(infos[..n], process);
    }
  }

  /**
   * DetectMulti over the finder's outcome: NotFound (wrapping the finder's
   * error, if any) when the finder fails or finds nothing; otherwise the
   * results of the candidates that process successfully, the others
   * silently dropped.
   */
  method DetectMulti<R>(found: Result<seq<FinderPatternInfo>, Error>, process: FinderPatternInfo -> Result<R, Error>)
    returns (result: seq<R>, e: Option<Error>)
    ensures e.Some? <==> found.Failure? || found.value == []
    ensures found.Failure? ==> result == [] && e == Some(NotFoundWrapping(Some(found.error)))
    ensures found == Success([]) ==> result == [] && e == Some(NotFoundWrapping(None))
    ensures found.Success? ==> |result| <= |found.value|
    ensures found.Success? && found.value != [] ==> result == Successes(found.value, process)
  {
    if found.Failure? {
      return [], Some(NotFoundWrapping(Some(found.error)));
    }
    var infos := found.value;
    if |infos| == 0 {
      return [], Some(NotFoundWrapping(None));
    }
    result, e := [], None;
    var i := 0;
    while i < |infos|
      invariant 0 <= i <= |infos|
      invariant result == Successes(infos[..i], process)
    {
      var r := process(infos[i]);
      assert infos[..i + 1][..i] == infos[..i];
      if r.Success? {
        result := result + [r.value];
      }
      i := i + 1;
    }
    assert infos[..i] == infos;
  }
}
