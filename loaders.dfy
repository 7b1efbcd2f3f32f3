/**
 * The two annotation loaders, `load_original_boxes` and `load_yolo_boxes`.
 * A file is the sequence of its lines; `float()` on a token is the parameter
 * `parse`, any function from a token to an optional real.
 * Each line has one outcome: skipped silently (blank or comment), a warning,
 * or a kept record. The specification functions give the outcome per line;
 * the loader methods walk the lines as the source does and are proved to
 * return exactly the kept records and the warnings, in file order.
 */
module Loaders {

  import opened Wrappers
  import opened Text
  import opened Geometry

  /** Why a line was rejected: fewer than five tokens, a coordinate that is not
      a number, or a box with non-positive width or height. */
  datatype Warning = Malformed | NonNumeric | Degenerate

  /** A warning with the 1-based number of the offending line. */
  datatype LineWarning = LineWarning(line: nat, kind: Warning)

  datatype LineResult<T> = Skip | Warn(kind: Warning) | Keep(value: T)

  /** A record of the original format, `<label> <x1> <y1> <x2> <y2>`; `name` is the label
      (`label` is a reserved word in Dafny). */
  datatype BoxRecord = BoxRecord(name: string, box: Box)

  /** A YOLO record: the normalised class id and the clipped corner box. */
  datatype ClassBox = ClassBox(classId: string, box: Box)

  /** Python's `float()` on one token: `None` where it raises `ValueError`. */
  type NumberParser = string -> Option<real>

  /** A stripped line the loaders pass over without a warning. */
  predicate Ignored(stripped: string)
  {
    stripped == [] || stripped[0] == '#'
  }

  /** The whitespace-separated tokens of a line, as `line.strip().split()`. */
  function Tokens(line: string): seq<string>
  {
    Words(Strip(line))
  }

  /** `map(float, parts[1:5])`: the four numbers, or `None` if any fails. */
  function ParseFour(parts: seq<string>, parse: NumberParser): (r: Option<(real, real, real, real)>)
    requires |parts| >= 5
    ensures r.Some? <==> (forall k :: 1 <= k < 5 ==> parse(parts[k]).Some?)
    ensures r.Some? ==> r.value == (parse(parts[1]).value, parse(parts[2]).value,
                                    parse(parts[3]).value, parse(parts[4]).value)
  {
    match (parse(parts[1]), parse(parts[2]), parse(parts[3]), parse(parts[4]))
    case (Some(a), Some(b), Some(c), Some(d)) => Some((a, b, c, d))
    case _ => None
  }

  /** Tokens 1 to 4 of a line all parse as numbers. */
  predicate CoordsParse(parts: seq<string>, parse: NumberParser)
    requires |parts| >= 5
  {
    forall k :: 1 <= k < 5 ==> parse(parts[k]).Some?
  }

  /** The box made of the numbers of tokens 1 to 4, in the order they are written. */
  function CoordsBox(parts: seq<string>, parse: NumberParser): Box
    requires |parts| >= 5 && CoordsParse(parts, parse)
  {
    Box(parse(parts[1]).value, parse(parts[2]).value, parse(parts[3]).value, parse(parts[4]).value)
  }

  /** One line of the original format: skipped exactly when blank or a comment;
      otherwise a warning for fewer than five tokens, for a coordinate that is not
      a number, or for a box without positive width and height; and otherwise the
      record of the first token and the four numbers as written. */
  function ParseOriginalLine(line: string, parse: NumberParser): (r: LineResult<BoxRecord>)
    ensures r.Skip? <==> Ignored(Strip(line))
    ensures var t := Tokens(line);
      !Ignored(Strip(line)) && |t| < 5 ==> r == Warn(Malformed)
    ensures var t := Tokens(line);
      !Ignored(Strip(line)) && |t| >= 5 && !CoordsParse(t, parse) ==> r == Warn(NonNumeric)
    ensures var t := Tokens(line);
      (!Ignored(Strip(line)) && |t| >= 5 && CoordsParse(t, parse) && !NonDegenerate(CoordsBox(t, parse)))
      ==> r == Warn(Degenerate)
    ensures var t := Tokens(line);
      r.Keep? <==> !Ignored(Strip(line)) && |t| >= 5 && CoordsParse(t, parse) && NonDegenerate(CoordsBox(t, parse))
    ensures var t := Tokens(line);
      r.Keep? ==> |t| >= 5 && CoordsParse(t, parse) && r.value == BoxRecord(t[0], CoordsBox(t, parse))
  {
    var stripped := Strip(line);
    if Ignored(stripped) then Skip
    else
      var parts := Words(stripped);
      if |parts| < 5 then Warn(Malformed)
      else match ParseFour(parts, parse)
        case None => Warn(NonNumeric)
        case Some((x1, y1, x2, y2)) =>
          if x2 <= x1 || y2 <= y1 then Warn(Degenerate)
          else Keep(BoxRecord(parts[0], Box(x1, y1, x2, y2)))
  }

  /** `str(int(float(token)))`, or the token itself when `float()` rejects it. */
  function ClassIdOf(token: string, parse: NumberParser): string
  {
    match parse(token)
    case Some(v) => IntToDecimal(Truncate(v))
    case None => token
  }

  /** The corner box of a YOLO centre/size record, clipped to the unit square:
      it lies in the square and within the unclipped box, keeps every corner
      coordinate of the unclipped box that is already in [0, 1], and sets a
      coordinate outside [0, 1] to the edge it crosses, 0 or 1. */
  function YoloCorners(xc: real, yc: real, w: real, h: real): (b: Box)
    ensures 0.0 <= b.x1 && b.x2 <= 1.0 && 0.0 <= b.y1 && b.y2 <= 1.0
    ensures xc - w / 2.0 <= b.x1 && b.x2 <= xc + w / 2.0
    ensures yc - h / 2.0 <= b.y1 && b.y2 <= yc + h / 2.0
    ensures 0.0 <= xc - w / 2.0 ==> b.x1 == xc - w / 2.0
    ensures 0.0 <= yc - h / 2.0 ==> b.y1 == yc - h / 2.0
    ensures xc + w / 2.0 <= 1.0 ==> b.x2 == xc + w / 2.0
    ensures yc + h / 2.0 <= 1.0 ==> b.y2 == yc + h / 2.0
    ensures xc - w / 2.0 < 0.0 ==> b.x1 == 0.0
    ensures yc - h / 2.0 < 0.0 ==> b.y1 == 0.0
    ensures 1.0 < xc + w / 2.0 ==> b.x2 == 1.0
    ensures 1.0 < yc + h / 2.0 ==> b.y2 == 1.0
  {
    Box(Max(0.0, xc - w / 2.0), Max(0.0, yc - h / 2.0),
        Min(1.0, xc + w / 2.0), Min(1.0, yc + h / 2.0))
  }

  /** The clipped corner box of the centre/size numbers of tokens 1 to 4. */
  function YoloBox(parts: seq<string>, parse: NumberParser): Box
    requires |parts| >= 5 && CoordsParse(parts, parse)
  {
    YoloCorners(parse(parts[1]).value, parse(parts[2]).value, parse(parts[3]).value, parse(parts[4]).value)
  }

  /** One line of the YOLO format: skipped exactly when blank or a comment;
      otherwise a warning for fewer than five tokens, for a coordinate that is not
      a number, or for a clipped box without positive width and height; and
      otherwise the normalised class id of the first token with the clipped box. */
  function ParseYoloLine(line: string, parse: NumberParser): (r: LineResult<ClassBox>)
    ensures r.Keep? ==> NonDegenerate(r.value.box) && InUnitSquare(r.value.box)
    ensures r.Skip? <==> Ignored(Strip(line))
    ensures var t := Tokens(line);
      !Ignored(Strip(line)) && |t| < 5 ==> r == Warn(Malformed)
    ensures var t := Tokens(line);
      !Ignored(Strip(line)) && |t| >= 5 && !CoordsParse(t, parse) ==> r == Warn(NonNumeric)
    ensures var t := Tokens(line);
      (!Ignored(Strip(line)) && |t| >= 5 && CoordsParse(t, parse) && !NonDegenerate(YoloBox(t, parse)))
      ==> r == Warn(Degenerate)
    ensures var t := Tokens(line);
      r.Keep? <==> !Ignored(Strip(line)) && |t| >= 5 && CoordsParse(t, parse) && NonDegenerate(YoloBox(t, parse))
    ensures var t := Tokens(line);
      r.Keep? ==> |t| >= 5 && CoordsParse(t, parse) && r.value == ClassBox(ClassIdOf(t[0], parse), YoloBox(t, parse))
  {
    var stripped := Strip(line);
    if Ignored(stripped) then Skip
    else
      var parts := Words(stripped);
      if |parts| < 5 then Warn(Malformed)
      else
        var classId := ClassIdOf(parts[0], parse);
        match ParseFour(parts, parse)
        case None => Warn(NonNumeric)
        case Some((xc, yc, w, h)) =>
          var b := YoloCorners(xc, yc, w, h);
          if b.x2 <= b.x1 || b.y2 <= b.y1 then Warn(Degenerate)
          else Keep(ClassBox(classId, b))
  }

  function OriginalResults(lines: seq<string>, parse: NumberParser): (rs: seq<LineResult<BoxRecord>>)
    ensures |rs| == |lines|
    ensures forall i :: 0 <= i < |lines| ==> rs[i] == ParseOriginalLine(lines[i], parse)
  {
    seq(|lines|, i requires 0 <= i < |lines| => ParseOriginalLine(lines[i], parse))
  }

  function YoloResults(lines: seq<string>, parse: NumberParser): (rs: seq<LineResult<ClassBox>>)
    ensures |rs| == |lines|
    ensures forall i :: 0 <= i < |lines| ==> rs[i] == ParseYoloLine(lines[i], parse)
  {
    seq(|lines|, i requires 0 <= i < |lines| => ParseYoloLine(lines[i], parse))
  }

  /** The kept values, in line order. */
  function Kept<T>(rs: seq<LineResult<T>>): seq<T>
  {
    if rs == [] then []
    else Kept(rs[..|rs| - 1]) + (if rs[|rs| - 1].Keep? then [rs[|rs| - 1].value] else [])
  }

  /** The warnings, each with its 1-based line number, in line order. */
  function Warnings<T>(rs: seq<LineResult<T>>): seq<LineWarning>
  {
    if rs == [] then []
    else
      var last := rs[|rs| - 1];
      Warnings(rs[..|rs| - 1]) + (if last.Warn? then [LineWarning(|rs|, last.kind)] else [])
  }

  /** Number of lines passed over silently. */
  function SkipCount<T>(rs: seq<LineResult<T>>): nat
  {
    if rs == [] then 0
    else SkipCount(rs[..|rs| - 1]) + (if rs[|rs| - 1].Skip? then 1 else 0)
  }

  /** Kept records keep file order: the records of a file split in two are the
      records of the first part followed by those of the second. */
  lemma {:induction false} KeptAppend<T>(a: seq<LineResult<T>>, b: seq<LineResult<T>>)
    ensures Kept(a + b) == Kept(a) + Kept(b)
    decreases |b|
  {
    if b != [] {
      var ab := a + b;
      assert ab[..|ab| - 1] == a + b[..|b| - 1];
      KeptAppend(a, b[..|b| - 1]);
    } else {
      assert a + b == a;
    }
  }

  /** A value is kept exactly when some line yielded it. */
  lemma {:induction false} KeptMembers<T>(rs: seq<LineResult<T>>)
    ensures forall v :: v in Kept(rs) <==> exists i :: 0 <= i < |rs| && rs[i] == Keep(v)
  {
    if rs != [] {
      var init := rs[..|rs| - 1];
      KeptMembers(init);
      forall v | (exists i :: 0 <= i < |rs| && rs[i] == Keep(v))
        ensures v in Kept(rs)
      {
        var i :| 0 <= i < |rs| && rs[i] == Keep(v);
        if i < |rs| - 1 { assert init[i] == Keep(v); }
      }
    }
  }

  /** Every line is accounted for exactly once: as a kept record, a warning,
      or a silent skip. */
  lemma {:induction false} LinesAccounted<T>(rs: seq<LineResult<T>>)
    ensures |Kept(rs)| + |Warnings(rs)| + SkipCount(rs) == |rs|
  {
    if rs != [] {
      LinesAccounted(rs[..|rs| - 1]);
    }
  }

  /** Warnings name lines that exist and produced that warning, in increasing order. */
  lemma {:induction false} WarningsPointToLines<T>(rs: seq<LineResult<T>>)
    ensures forall k :: 0 <= k < |Warnings(rs)| ==>
      1 <= Warnings(rs)[k].line <= |rs| && rs[Warnings(rs)[k].line - 1] == Warn(Warnings(rs)[k].kind)
    ensures forall k, l :: 0 <= k < l < |Warnings(rs)| ==> Warnings(rs)[k].line < Warnings(rs)[l].line
  {
    if rs != [] {
      var init := rs[..|rs| - 1];
      WarningsPointToLines(init);
      var ws := Warnings(rs);
      forall k | 0 <= k < |Warnings(init)|
        ensures ws[k] == Warnings(init)[k] && ws[k].line <= |init|
        ensures rs[ws[k].line - 1] == init[ws[k].line - 1]
      {
      }
    }
  }

  /** Every record of the original loader has positive width and height. */
  lemma OriginalRecordsNonDegenerate(lines: seq<string>, parse: NumberParser)
    ensures forall r :: r in Kept(OriginalResults(lines, parse)) ==> NonDegenerate(r.box)
  {
    KeptMembers(OriginalResults(lines, parse));
  }

  /** Every YOLO box is non-degenerate and inside the unit square. */
  lemma YoloBoxesClipped(lines: seq<string>, parse: NumberParser)
    ensures forall b :: b in Kept(YoloResults(lines, parse)) ==>
      0.0 <= b.box.x1 < b.box.x2 <= 1.0 && 0.0 <= b.box.y1 < b.box.y2 <= 1.0
  {
    var rs := YoloResults(lines, parse);
    KeptMembers(rs);
    forall b: ClassBox | b in Kept(rs)
      ensures 0.0 <= b.box.x1 < b.box.x2 <= 1.0 && 0.0 <= b.box.y1 < b.box.y2 <= 1.0
    {
      var i :| 0 <= i < |rs| && rs[i] == Keep(b);
      assert ParseYoloLine(lines[i], parse).Keep?;
    }
  }

  /** Tokens after the fifth never change what a line of the original format yields. */
  lemma ExtraTokensIgnoredOriginal(line1: string, line2: string, parse: NumberParser)
    requires !Ignored(Strip(line1)) && !Ignored(Strip(line2))
    requires |Tokens(line1)| >= 5 && |Tokens(line2)| >= 5
    requires Tokens(line1)[..5] == Tokens(line2)[..5]
    ensures ParseOriginalLine(line1, parse) == ParseOriginalLine(line2, parse)
  {
    FirstFive(Tokens(line1), Tokens(line2));
  }

  /** Tokens after the fifth never change what a line of the YOLO format yields. */
  lemma ExtraTokensIgnoredYolo(line1: string, line2: string, parse: NumberParser)
    requires !Ignored(Strip(line1)) && !Ignored(Strip(line2))
    requires |Tokens(line1)| >= 5 && |Tokens(line2)| >= 5
    requires Tokens(line1)[..5] == Tokens(line2)[..5]
    ensures ParseYoloLine(line1, parse) == ParseYoloLine(line2, parse)
  {
    FirstFive(Tokens(line1), Tokens(line2));
  }

  lemma FirstFive(p1: seq<string>, p2: seq<string>)
    requires |p1| >= 5 && |p2| >= 5 && p1[..5] == p2[..5]
    ensures p1[0] == p2[0] && p1[1] == p2[1] && p1[2] == p2[2] && p1[3] == p2[3] && p1[4] == p2[4]
  {
    assert p1[0] == p1[..5][0] && p2[0] == p2[..5][0];
    assert p1[1] == p1[..5][1] && p2[1] == p2[..5][1];
    assert p1[2] == p1[..5][2] && p2[2] == p2[..5][2];
    assert p1[3] == p1[..5][3] && p2[3] == p2[..5][3];
    assert p1[4] == p1[..5][4] && p2[4] == p2[..5][4];
  }

  /** A class token that parses as a non-negative number becomes the digit string
      of its truncated value, which `int()` reads back as that value. */
  lemma ClassIdNumeric(token: string, parse: NumberParser, v: real)
    requires parse(token) == Some(v) && v >= 0.0
    ensures IsDigits(ClassIdOf(token, parse))
    ensures DigitsValue(ClassIdOf(token, parse)) == Truncate(v)
  {
    TruncateTowardZero(v);
    DecimalRoundTrip(Truncate(v));
  }

  /** A class token that `float()` rejects is kept verbatim. */
  lemma ClassIdRaw(token: string, parse: NumberParser)
    requires parse(token) == None
    ensures ClassIdOf(token, parse) == token
  {
  }

  lemma IntToDecimalInjective(i: int, j: int)
    requires IntToDecimal(i) == IntToDecimal(j)
    ensures i == j
  {
    if i < 0 && j < 0 {
      assert IntToDecimal(i)[1..] == NatToDecimal(-i);
      assert IntToDecimal(j)[1..] == NatToDecimal(-j);
      NatToDecimalInjective(-i, -j);
    } else if i >= 0 && j >= 0 {
      NatToDecimalInjective(i, j);
    }
  }

  /** Two numeric class tokens give the same class id exactly when their values
      truncate to the same integer: "3", "3.0" and "3.5" all name class "3". */
  lemma ClassIdCoercion(t1: string, t2: string, parse: NumberParser, v1: real, v2: real)
    requires parse(t1) == Some(v1) && parse(t2) == Some(v2)
    ensures ClassIdOf(t1, parse) == ClassIdOf(t2, parse) <==> Truncate(v1) == Truncate(v2)
  {
    if ClassIdOf(t1, parse) == ClassIdOf(t2, parse) {
      IntToDecimalInjective(Truncate(v1), Truncate(v2));
    }
  }

  /** Kept values and warnings of the first `n` lines extend those of the first
      `n - 1` by what line `n` yields. */
  lemma StepFacts<T>(rs: seq<LineResult<T>>, n: nat, r: LineResult<T>)
    requires 1 <= n <= |rs| && rs[n - 1] == r
    ensures Kept(rs[..n]) == Kept(rs[..n - 1]) + (if r.Keep? then [r.value] else [])
    ensures Warnings(rs[..n]) == Warnings(rs[..n - 1]) + (if r.Warn? then [LineWarning(n, r.kind)] else [])
  {
    assert rs[..n][..n - 1] == rs[..n - 1];
  }

  /** `load_original_boxes`: the kept records and the warnings of a file, each
      line read as the loop body reads it. */
  method LoadOriginalBoxes(lines: seq<string>, parse: NumberParser)
    returns (records: seq<BoxRecord>, warnings: seq<LineWarning>)
    ensures records == Kept(OriginalResults(lines, parse))
    ensures warnings == Warnings(OriginalResults(lines, parse))
    ensures forall k :: 0 <= k < |records| ==> NonDegenerate(records[k].box)
  {
    ghost var rs := OriginalResults(lines, parse);
    records, warnings := [], [];
    for i := 0 to |lines|
      invariant records == Kept(rs[..i])
      invariant warnings == Warnings(rs[..i])
      invariant forall k :: 0 <= k < |records| ==> NonDegenerate(records[k].box)
    {
      StepFacts(rs, i + 1, rs[i]);
      var stripped := Strip(lines[i]);
      if stripped == [] || stripped[0] == '#' {
        continue;
      }
      var parts := Words(stripped);
      if |parts| < 5 {
        warnings := warnings + [LineWarning(i + 1, Malformed)];
        continue;
      }
      var name := parts[0];
      var coords := ParseFour(parts, parse);
      if coords.None? {
        warnings := warnings + [LineWarning(i + 1, NonNumeric)];
        continue;
      }
      var (x1, y1, x2, y2) := coords.value;
      if x2 <= x1 || y2 <= y1 {
        warnings := warnings + [LineWarning(i + 1, Degenerate)];
        continue;
      }
      records := records + [BoxRecord(name, Box(x1, y1, x2, y2))];
    }
    assert rs[..|lines|] == rs;
  }

  /** `load_yolo_boxes`: the kept (class id, clipped box) records and the
      warnings, each line read as the loop body reads it. */
  method LoadYoloBoxes(lines: seq<string>, parse: NumberParser)
    returns (boxes: seq<ClassBox>, warnings: seq<LineWarning>)
    ensures boxes == Kept(YoloResults(lines, parse))
    ensures warnings == Warnings(YoloResults(lines, parse))
    ensures forall k :: 0 <= k < |boxes| ==> NonDegenerate(boxes[k].box) && InUnitSquare(boxes[k].box)
  {
    ghost var rs := YoloResults(lines, parse);
    boxes, warnings := [], [];
    for i := 0 to |lines|
      invariant boxes == Kept(rs[..i])
      invariant warnings == Warnings(rs[..i])
      invariant forall k :: 0 <= k < |boxes| ==> NonDegenerate(boxes[k].box) && InUnitSquare(boxes[k].box)
    {
      StepFacts(rs, i + 1, rs[i]);
      var stripped := Strip(lines[i]);
      if stripped == [] || stripped[0] == '#' {
        continue;
      }
      var parts := Words(stripped);
      if |parts| < 5 {
        warnings := warnings + [LineWarning(i + 1, Malformed)];
        continue;
      }
      var classId := ClassIdOf(parts[0], parse);
      var coords := ParseFour(parts, parse);
      if coords.None? {
        warnings := warnings + [LineWarning(i + 1, NonNumeric)];
        continue;
      }
      var (xc, yc, w, h) := coords.value;
      var x1 := Max(0.0, xc - w / 2.0);
      var y1 := Max(0.0, yc - h / 2.0);
      var x2 := Min(1.0, xc + w / 2.0);
      var y2 := Min(1.0, yc + h / 2.0);
      assert Box(x1, y1, x2, y2) == YoloCorners(xc, yc, w, h);
      if x2 <= x1 || y2 <= y1 {
        warnings := warnings + [LineWarning(i + 1, Degenerate)];
        continue;
      }
      boxes := boxes + [ClassBox(classId, Box(x1, y1, x2, y2))];
    }
    assert rs[..|lines|] == rs;
  }

}
