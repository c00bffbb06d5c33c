/**
 * The Area record a detector reports for each barcode it finds, and its
 * text form "Image:<rect> Paper:<rect> Rotate:<angle>", where a rectangle
 * prints as image.Rectangle does, "(minX,minY)-(maxX,maxY)".
 * A parser for that text is the partner that shows nothing is lost.
 */
module BarcodeArea {
  import opened Wrappers
  import opened Decimal

  /** image.Point: integer pixel coordinates. */
  datatype Point = Point(x: int, y: int)

  /** image.Rectangle: the Min and Max corners. */
  datatype Rectangle = Rectangle(min: Point, max: Point)

  /**
   * Where a barcode lies in the image without rotation (imageRectangle),
   * where it lies once the sheet is turned upright (paperRectangle), and
   * the clockwise angle of that turn.
   */
  datatype Area = Area(imageRectangle: Rectangle, paperRectangle: Rectangle, rotate: int)

  /** Go's zero value for Area. */
  const ZeroArea := Area(Rectangle(Point(0, 0), Point(0, 0)), Rectangle(Point(0, 0), Point(0, 0)), 0)

  function PointString(p: Point): string {
    "(" + IntToString(p.x) + "," + IntToString(p.y) + ")"
  }

  function RectangleString(r: Rectangle): string {
    PointString(r.min) + "-" + PointString(r.max)
  }

  /** Area.String. */
  function AreaString(a: Area): string {
    "Image:" + RectangleString(a.imageRectangle) + " Paper:" + RectangleString(a.paperRectangle)
      + " Rotate:" + IntToString(a.rotate)
  }

  /** Strips the literal lit from the front of s. */
  function Expect(lit: string, s: string): (r: Option<string>)
    ensures r.Some? <==> |lit| <= |s| && s[..|lit|] == lit
  {
    if |lit| <= |s| && s[..|lit|] == lit then Some(s[|lit|..]) else None
  }

  function ParsePoint(s: string): Option<(Point, string)> {
    match Expect("(", s)
    case None => None
    case Some(s1) =>
      match ParseInt(s1)
      case None => None
      case Some((x, s2)) =>
        match Expect(",", s2)
        case None => None
        case Some(s3) =>
          match ParseInt(s3)
          case None => None
          case Some((y, s4)) =>
            match Expect(")", s4)
            case None => None
            case Some(s5) => Some((Point(x, y), s5))
  }

  function ParseRectangle(s: string): Option<(Rectangle, string)> {
    match ParsePoint(s)
    case None => None
    case Some((lo, s1)) =>
      match Expect("-", s1)
      case None => None
      case Some(s2) =>
        match ParsePoint(s2)
        case None => None
        case Some((hi, s3)) => Some((Rectangle(lo, hi), s3))
  }

  /** Reads back a whole Area text; anything left over is an error. */
  function ParseArea(s: string): Option<Area> {
    match Expect("Image:", s)
    case None => None
    case Some(s1) =>
      match ParseRectangle(s1)
      case None => None
      case Some((image, s2)) =>
        match Expect(" Paper:", s2)
        case None => None
        case Some(s3) =>
          match ParseRectangle(s3)
          case None => None
          case Some((paper, s4)) =>
            match Expect(" Rotate:", s4)
            case None => None
            case Some(s5) =>
              match ParseInt(s5)
              case None => None
              case Some((rotate, s6)) => if s6 == [] then Some(Area(image, paper, rotate)) else None
  }

  lemma ExpectLiteral(lit: string, rest: string)
    ensures Expect(lit, lit + rest) == Some(rest)
  {
    assert (lit + rest)[..|lit|] == lit;
    assert (lit + rest)[|lit|..] == rest;
  }

  lemma PointRoundTrip(p: Point, rest: string)
    ensures ParsePoint(PointString(p) + rest) == Some((p, rest))
  {
    var sx, sy := IntToString(p.x), IntToString(p.y);
    var t4 := ")" + rest;
    var t3 := sy + t4;
    var t2 := "," + t3;
    var t1 := sx + t2;
    Assoc("(" + sx + "," + sy, ")", rest);
    Assoc("(" + sx + ",", sy, t4);
    Assoc("(" + sx, ",", t3);
    Assoc("(", sx, t2);
    var s := PointString(p) + rest;
    assert s == "(" + t1;
    ExpectLiteral("(", t1);
    assert t2[0] == ',';
    IntToStringRoundTrip(p.x, t2);
    ExpectLiteral(",", t3);
    assert t4[0] == ')';
    IntToStringRoundTrip(p.y, t4);
    ExpectLiteral(")", rest);
    PointSteps(s, t1, p.x, t2, t3, p.y, t4, rest);
  }

  lemma PointSteps(s: string, s1: string, x: int, s2: string, s3: string, y: int, s4: string, s5: string)
    requires Expect("(", s) == Some(s1)
    requires ParseInt(s1) == Some((x, s2))
    requires Expect(",", s2) == Some(s3)
    requires ParseInt(s3) == Some((y, s4))
    requires Expect(")", s4) == Some(s5)
    ensures ParsePoint(s) == Some((Point(x, y), s5))
  {
  }

  lemma RectangleRoundTrip(r: Rectangle, rest: string)
    ensures ParseRectangle(RectangleString(r) + rest) == Some((r, rest))
  {
    var t2 := PointString(r.max) + rest;
    var t1 := "-" + t2;
    Assoc(PointString(r.min) + "-", PointString(r.max), rest);
    Assoc(PointString(r.min), "-", t2);
    var s := RectangleString(r) + rest;
    assert s == PointString(r.min) + t1;
    PointRoundTrip(r.min, t1);
    ExpectLiteral("-", t2);
    PointRoundTrip(r.max, rest);
    RectangleSteps(s, r.min, t1, t2, r.max, rest);
  }

  lemma RectangleSteps(s: string, lo: Point, s1: string, s2: string, hi: Point, s3: string)
    requires ParsePoint(s) == Some((lo, s1))
    requires Expect("-", s1) == Some(s2)
    requires ParsePoint(s2) == Some((hi, s3))
    ensures ParseRectangle(s) == Some((Rectangle(lo, hi), s3))
  {
  }

  /** The text form loses nothing: parsing it gives back the Area. */
  lemma AreaStringRoundTrip(a: Area)
    ensures ParseArea(AreaString(a)) == Some(a)
  {
    var r1, r2, sr := RectangleString(a.imageRectangle), RectangleString(a.paperRectangle), IntToString(a.rotate);
    var t5 := " Rotate:" + sr;
    var t4 := r2 + t5;
    var t3 := " Paper:" + t4;
    var t2 := r1 + t3;
    Assoc("Image:" + r1 + " Paper:" + r2, " Rotate:", sr);
    Assoc("Image:" + r1 + " Paper:", r2, t5);
    Assoc("Image:" + r1, " Paper:", t4);
    Assoc("Image:", r1, t3);
    var s := AreaString(a);
    assert s == "Image:" + t2;
    ExpectLiteral("Image:", t2);
    RectangleRoundTrip(a.imageRectangle, t3);
    ExpectLiteral(" Paper:", t4);
    RectangleRoundTrip(a.paperRectangle, t5);
    ExpectLiteral(" Rotate:", sr);
    IntToStringRoundTrip(a.rotate, []);
    assert sr + [] == sr;
    AreaSteps(s, t2, a.imageRectangle, t3, t4, a.paperRectangle, t5, sr, a.rotate);
  }

  lemma AreaSteps(s: string, s1: string, image: Rectangle, s2: string, s3: string, paper: Rectangle,
                  s4: string, s5: string, rotate: int)
    requires Expect("Image:", s) == Some(s1)
    requires ParseRectangle(s1) == Some((image, s2))
    requires Expect(" Paper:", s2) == Some(s3)
    requires ParseRectangle(s3) == Some((paper, s4))
    requires Expect(" Rotate:", s4) == Some(s5)
    requires ParseInt(s5) == Some((rotate, []))
    ensures ParseArea(s) == Some(Area(image, paper, rotate))
  {
  }

  /** Two Areas print alike exactly when their three fields are equal. */
  lemma AreaStringInjective(a: Area, b: Area)
    ensures AreaString(a) == AreaString(b) <==> a == b
  {
    AreaStringRoundTrip(a);
    AreaStringRoundTrip(b);
  }

  /** The zero Area prints with every number as 0. */
  lemma ZeroAreaString()
    ensures AreaString(ZeroArea) == "Image:(0,0)-(0,0)" + " Paper:(0,0)-(0,0)" + " Rotate:0"
  {
    var zero := RectangleString(Rectangle(Point(0, 0), Point(0, 0)));
    assert IntToString(0) == "0";
    assert PointString(Point(0, 0)) == "(0,0)";
    assert zero == "(0,0)-(0,0)";
    assert "Image:" + zero == "Image:(0,0)-(0,0)";
    Assoc("Image:(0,0)-(0,0)", " Paper:", zero);
    assert " Paper:" + zero == " Paper:(0,0)-(0,0)";
    Assoc("Image:(0,0)-(0,0)" + " Paper:(0,0)-(0,0)", " Rotate:", "0");
  }

  /** Negative coordinates print with a minus sign. */
  lemma SignedRectangleString()
    ensures RectangleString(Rectangle(Point(-8, -8), Point(68, 68))) == "(-8,-8)-(68,68)"
  {
    assert IntToString(-8) == "-8";
    assert IntToString(68) == "68";
    assert PointString(Point(-8, -8)) == "(-8,-8)";
    assert PointString(Point(68, 68)) == "(68,68)";
  }
}
