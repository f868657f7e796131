/**
 * The box walls of printing/create_airflow_box.py: `create_wall_mesh` cuts an inner box out
 * of an outer box and then cuts each of two copies with an offset box, leaving two L-shaped
 * wall pieces; around it, the wall-type prompt, the box script's input loop and its output
 * file names. Meshes are a type parameter; `cube` stands for meshlib's `makeCube` followed by
 * the translation, and `difference` for `boolean(..., DifferenceAB).mesh`, which the script
 * uses without checking validity.
 */
module AirflowBox {
  import opened Wrappers
  import opened Strings
  import opened Airflow

  datatype Vec = Vec(x: real, y: real, z: real)

  /**
   * A box of the given size moved by `offset`. All of the script's cubes share meshlib's
   * anchor, so coordinates here are measured from that common anchor.
   */
  datatype Box = Box(size: Vec, offset: Vec)

  function OuterBox(width: real, length: real, height: real): Box
  {
    Box(Vec(width, length, height), Vec(0.0, 0.0, 0.0))
  }

  /** Thinner by the wall thickness on every side, 2 taller, moved by `(t, t, 0)`. */
  function InnerBox(width: real, length: real, height: real, t: real): Box
  {
    Box(Vec(width - 2.0 * t, length - 2.0 * t, height + 2.0), Vec(t, t, 0.0))
  }

  /** The cutter that removes the north and east walls from the first copy. */
  function NorthEastCutter(width: real, length: real, height: real, t: real): Box
  {
    Box(Vec(width, length, height + 2.0), Vec(t, t, -1.0))
  }

  /** The cutter that removes the south and west walls from the second copy. */
  function SouthWestCutter(width: real, length: real, height: real, t: real): Box
  {
    Box(Vec(width, length, height + 2.0), Vec(-t, -t, -1.0))
  }

  /**
   * `create_wall_mesh`: whatever `wall_type` is, two pieces, each the outer box minus the inner
   * box, the first then minus the north-east cutter and the second minus the south-west one.
   */
  function CreateWallMesh<M>(width: real, length: real, height: real, t: real, wallType: string,
                             cube: Box -> M, difference: (M, M) -> M): (r: seq<M>)
    ensures |r| == 2
    ensures r[0] == difference(difference(cube(OuterBox(width, length, height)), cube(InnerBox(width, length, height, t))),
                               cube(NorthEastCutter(width, length, height, t)))
    ensures r[1] == difference(difference(cube(OuterBox(width, length, height)), cube(InnerBox(width, length, height, t))),
                               cube(SouthWestCutter(width, length, height, t)))
  {
    var outer := cube(OuterBox(width, length, height));
    var inner := cube(InnerBox(width, length, height, t));
    var walls := difference(outer, inner);
    [difference(walls, cube(NorthEastCutter(width, length, height, t))),
     difference(walls, cube(SouthWestCutter(width, length, height, t)))]
  }

  /** The wall type is never consulted: both answers give the same two pieces. */
  lemma WallTypeIgnored<M>(width: real, length: real, height: real, t: real, w1: string, w2: string,
                           cube: Box -> M, difference: (M, M) -> M)
    ensures CreateWallMesh(width, length, height, t, w1, cube, difference) == CreateWallMesh(width, length, height, t, w2, cube, difference)
  {
  }

  /** Strictly inside a box. */
  predicate Inside(b: Box, p: Vec)
  {
    && b.offset.x < p.x < b.offset.x + b.size.x
    && b.offset.y < p.y < b.offset.y + b.size.y
    && b.offset.z < p.z < b.offset.z + b.size.z
  }

  /** In a box or on its boundary. */
  predicate Touches(b: Box, p: Vec)
  {
    && b.offset.x <= p.x <= b.offset.x + b.size.x
    && b.offset.y <= p.y <= b.offset.y + b.size.y
    && b.offset.z <= p.z <= b.offset.z + b.size.z
  }

  /** Interior points of the walls: inside the outer box and clear of the inner box. */
  predicate InWalls(width: real, length: real, height: real, t: real, p: Vec)
  {
    Inside(OuterBox(width, length, height), p) && !Touches(InnerBox(width, length, height, t), p)
  }

  /** Interior points of the first piece: the walls, clear of the north-east cutter. */
  predicate InPiece1(width: real, length: real, height: real, t: real, p: Vec)
  {
    InWalls(width, length, height, t, p) && !Touches(NorthEastCutter(width, length, height, t), p)
  }

  /** Interior points of the second piece: the walls, clear of the south-west cutter. */
  predicate InPiece2(width: real, length: real, height: real, t: real, p: Vec)
  {
    InWalls(width, length, height, t, p) && !Touches(SouthWestCutter(width, length, height, t), p)
  }

  /** The first piece is the south and west walls: the part of the box within `t` of `x = 0` or `y = 0`. */
  lemma Piece1IsSouthWest(width: real, length: real, height: real, t: real, p: Vec)
    requires t > 0.0
    ensures InPiece1(width, length, height, t, p) <==> Inside(OuterBox(width, length, height), p) && (p.x < t || p.y < t)
  {
  }

  /** The second piece is the north and east walls: the part within `t` of `x = width` or `y = length`. */
  lemma Piece2IsNorthEast(width: real, length: real, height: real, t: real, p: Vec)
    requires t > 0.0
    ensures InPiece2(width, length, height, t, p) <==>
      Inside(OuterBox(width, length, height), p) && (p.x > width - t || p.y > length - t)
  {
  }

  /** Together the two pieces make up all of the walls. */
  lemma PiecesCoverWalls(width: real, length: real, height: real, t: real, p: Vec)
    requires t > 0.0
    ensures InWalls(width, length, height, t, p) <==> InPiece1(width, length, height, t, p) || InPiece2(width, length, height, t, p)
  {
    Piece1IsSouthWest(width, length, height, t, p);
    Piece2IsNorthEast(width, length, height, t, p);
  }

  /** The two pieces overlap only in the north-west and south-east `t` by `t` corner columns. */
  lemma PiecesOverlapInCorners(width: real, length: real, height: real, t: real, p: Vec)
    requires 0.0 < t && 2.0 * t <= width && 2.0 * t <= length
    ensures InPiece1(width, length, height, t, p) && InPiece2(width, length, height, t, p) <==>
      Inside(OuterBox(width, length, height), p) && ((p.x < t && p.y > length - t) || (p.x > width - t && p.y < t))
  {
    Piece1IsSouthWest(width, length, height, t, p);
    Piece2IsNorthEast(width, length, height, t, p);
  }

  /**
   * One answer to the wall-type prompt: lower-cased, `full` when empty, and accepted only as
   * `full`, `l-shaped` or `l`.
   */
  function AcceptWallType(line: string): (r: Option<string>)
    ensures r.Some? ==> r.value == "full" || r.value == "l-shaped" || r.value == "l"
    ensures line == "" ==> r == Some("full")
    ensures line != "" ==> (r.Some? <==> Lower(line) == "full" || Lower(line) == "l-shaped" || Lower(line) == "l")
    ensures line != "" && r.Some? ==> r.value == Lower(line)
  {
    var wallType := OrDefault(Lower(line), "full");
    if wallType == "full" || wallType == "l-shaped" || wallType == "l" then Some(wallType) else None
  }

  /** The wall-type answer does not depend on letter case. */
  lemma WallTypeIgnoresCase(line: string)
    ensures AcceptWallType(Lower(line)) == AcceptWallType(line)
  {
    LowerIdempotent(line);
  }

  datatype BoxSettings = BoxSettings(
    width: real, length: real, height: real, thickness: real, holeRadius: real, holeSpacing: real,
    outputPrefix: string, wallType: string)

  const DefaultOutputPrefix: string := "airflow"

  /**
   * The settings `get_user_input` of the box script reads: positive width, length and height
   * without defaults; thickness, radius and spacing defaulting to 1.5, 1.0 and 5.0; the prefix
   * from the next line, `airflow` when it is empty; then the first accepted wall type after
   * it. `None` when the input runs out.
   */
  function BoxUserInput(lines: seq<string>, parse: string -> Option<real>): Option<BoxSettings>
  {
    var width := FirstAnswer(lines, 0, Required(parse));
    if width.None? then None else
    var length := FirstAnswer(lines, width.value.1, Required(parse));
    if length.None? then None else
    var height := FirstAnswer(lines, length.value.1, Required(parse));
    if height.None? then None else
    var sizes := DefaultedAnswers(lines, height.value.1, parse);
    if sizes.None? then None else
    var next := sizes.value.3;
    if next >= |lines| then None else
    var wallType := FirstAnswer(lines, next + 1, AcceptWallType);
    if wallType.None? then None
    else Some(BoxSettings(width.value.0, length.value.0, height.value.0, sizes.value.0, sizes.value.1,
                          sizes.value.2, OrDefault(lines[next], DefaultOutputPrefix), wallType.value.0))
  }

  /** Whatever is typed, accepted settings have six positive numbers and a non-empty prefix. */
  lemma BoxUserInputPositive(lines: seq<string>, parse: string -> Option<real>)
    ensures var r := BoxUserInput(lines, parse);
      r.Some? ==> (r.value.width > 0.0 && r.value.length > 0.0 && r.value.height > 0.0
                   && r.value.thickness > 0.0 && r.value.holeRadius > 0.0 && r.value.holeSpacing > 0.0
                   && r.value.outputPrefix != "")
  {
    var width := FirstAnswer(lines, 0, Required(parse));
    FirstAnswerAccepted(lines, 0, Required(parse));
    if width.Some? {
      var length := FirstAnswer(lines, width.value.1, Required(parse));
      FirstAnswerAccepted(lines, width.value.1, Required(parse));
      if length.Some? {
        var height := FirstAnswer(lines, length.value.1, Required(parse));
        FirstAnswerAccepted(lines, length.value.1, Required(parse));
        if height.Some? {
          DefaultedAnswersPositive(lines, height.value.1, parse);
        }
      }
    }
  }

  /** Whatever is typed, an accepted wall type is `full`, `l-shaped` or `l`. */
  lemma BoxUserInputWallTypeValid(lines: seq<string>, parse: string -> Option<real>)
    ensures var r := BoxUserInput(lines, parse);
      r.Some? ==> r.value.wallType == "full" || r.value.wallType == "l-shaped" || r.value.wallType == "l"
  {
    var r := BoxUserInput(lines, parse);
    if r.Some? {
      var width := FirstAnswer(lines, 0, Required(parse));
      var length := FirstAnswer(lines, width.value.1, Required(parse));
      var height := FirstAnswer(lines, length.value.1, Required(parse));
      var next := DefaultedAnswers(lines, height.value.1, parse).value.3;
      var wallType := FirstAnswer(lines, next + 1, AcceptWallType);
      assert r.value.wallType == wallType.value.0;
      FirstAnswerAccepted(lines, next + 1, AcceptWallType);
    }
  }

  /** `get_user_input` of the box script: the six prompt loops, the prefix prompt and the wall-type loop. */
  method GetBoxUserInput(lines: seq<string>, parse: string -> Option<real>) returns (r: Option<BoxSettings>)
    ensures r == BoxUserInput(lines, parse)
  {
    var width := FirstAccepted(lines, 0, Required(parse));
    if width.None? { return None; }
    var length := FirstAccepted(lines, width.value.1, Required(parse));
    if length.None? { return None; }
    var height := FirstAccepted(lines, length.value.1, Required(parse));
    if height.None? { return None; }
    var thickness := FirstAccepted(lines, height.value.1, WithDefault(DefaultThickness, parse));
    if thickness.None? {
      assert DefaultedAnswers(lines, height.value.1, parse).None?;
      return None;
    }
    var holeRadius := FirstAccepted(lines, thickness.value.1, WithDefault(DefaultHoleRadius, parse));
    if holeRadius.None? {
      assert DefaultedAnswers(lines, height.value.1, parse).None?;
      return None;
    }
    var holeSpacing := FirstAccepted(lines, holeRadius.value.1, WithDefault(DefaultHoleSpacing, parse));
    if holeSpacing.None? {
      assert DefaultedAnswers(lines, height.value.1, parse).None?;
      return None;
    }
    assert DefaultedAnswers(lines, height.value.1, parse)
      == Some((thickness.value.0, holeRadius.value.0, holeSpacing.value.0, holeSpacing.value.1));
    var next := holeSpacing.value.1;
    if next >= |lines| { return None; }
    var outputPrefix := OrDefault(lines[next], DefaultOutputPrefix);
    var wallType := FirstAccepted(lines, next + 1, AcceptWallType);
    if wallType.None? { return None; }
    return Some(BoxSettings(width.value.0, length.value.0, height.value.0, thickness.value.0,
                            holeRadius.value.0, holeSpacing.value.0, outputPrefix, wallType.value.0));
  }

  /** Typing the three sizes and pressing enter at every other prompt gives the defaults and a full box. */
  lemma BoxUserInputDefaults(a: string, b: string, c: string, x: real, y: real, z: real, parse: string -> Option<real>)
    requires a != "" && parse(a) == Some(x) && x > 0.0
    requires b != "" && parse(b) == Some(y) && y > 0.0
    requires c != "" && parse(c) == Some(z) && z > 0.0
    ensures BoxUserInput([a, b, c, "", "", "", "", ""], parse)
      == Some(BoxSettings(x, y, z, DefaultThickness, DefaultHoleRadius, DefaultHoleSpacing, DefaultOutputPrefix, "full"))
  {
    var lines := [a, b, c, "", "", "", "", ""];
    assert FirstAnswer(lines, 0, Required(parse)) == Some((x, 1));
    assert FirstAnswer(lines, 1, Required(parse)) == Some((y, 2));
    assert FirstAnswer(lines, 2, Required(parse)) == Some((z, 3));
    assert FirstAnswer(lines, 3, WithDefault(DefaultThickness, parse)) == Some((DefaultThickness, 4));
    assert FirstAnswer(lines, 4, WithDefault(DefaultHoleRadius, parse)) == Some((DefaultHoleRadius, 5));
    assert FirstAnswer(lines, 5, WithDefault(DefaultHoleSpacing, parse)) == Some((DefaultHoleSpacing, 6));
    assert FirstAnswer(lines, 7, AcceptWallType) == Some(("full", 8));
  }

  /**
   * The wall type is the first accepted answer after the prefix: with the numbers and the
   * prefix `p` typed, a rejected answer `bad` is asked again and `good` decides the type.
   */
  lemma BoxUserInputWallType(ls: seq<string>, v: seq<real>, bad: string, good: string, parse: string -> Option<real>)
    requires |ls| == 7 && |v| == 6
    requires forall k :: 0 <= k < 6 ==> ls[k] != "" && parse(ls[k]) == Some(v[k]) && v[k] > 0.0
    requires ls[6] != ""
    requires AcceptWallType(bad) == None && AcceptWallType(good).Some?
    ensures BoxUserInput(ls + [bad, good], parse)
      == Some(BoxSettings(v[0], v[1], v[2], v[3], v[4], v[5], ls[6], AcceptWallType(good).value))
  {
    var lines := ls + [bad, good];
    assert FirstAnswer(lines, 0, Required(parse)) == Some((v[0], 1));
    assert FirstAnswer(lines, 1, Required(parse)) == Some((v[1], 2));
    assert FirstAnswer(lines, 2, Required(parse)) == Some((v[2], 3));
    assert FirstAnswer(lines, 3, WithDefault(DefaultThickness, parse)) == Some((v[3], 4));
    assert FirstAnswer(lines, 4, WithDefault(DefaultHoleRadius, parse)) == Some((v[4], 5));
    assert FirstAnswer(lines, 5, WithDefault(DefaultHoleSpacing, parse)) == Some((v[5], 6));
    assert FirstAnswer(lines, 8, AcceptWallType) == Some((AcceptWallType(good).value, 9));
    assert FirstAnswer(lines, 7, AcceptWallType) == Some((AcceptWallType(good).value, 9));
  }

  /** The four files `main` saves, in order; the wall type plays no part. */
  function BoxOutputFiles(prefix: string): (r: seq<string>)
    ensures |r| == 4
    ensures forall i :: 0 <= i < 4 ==> StartsWith(r[i], prefix) && EndsWith(r[i], ".stl")
  {
    [prefix + "_top.stl", prefix + "_bottom.stl", prefix + "_walls_l1.stl", prefix + "_walls_l2.stl"]
  }

  /** The four files saved have four different names, so none overwrites another. */
  lemma BoxOutputFilesDistinct(prefix: string)
    ensures forall i, j :: 0 <= i < j < 4 ==> BoxOutputFiles(prefix)[i] != BoxOutputFiles(prefix)[j]
  {
    var r := BoxOutputFiles(prefix);
    var n := |prefix|;
    assert r[0][n + 1] == 't' && r[1][n + 1] == 'b' && r[2][n + 1] == 'w' && r[3][n + 1] == 'w';
    assert r[2][n + 8] == '1' && r[3][n + 8] == '2';
  }

  /**
   * The list of created files that `main` reports at the end, as written: for the `full` wall
   * type it names one `_walls.stl` file instead of the two wall pieces actually saved.
   */
  function ReportedFilesAsWritten(prefix: string, wallType: string): (r: seq<string>)
    ensures wallType == "full" ==> |r| == 3
    ensures wallType != "full" ==> r == BoxOutputFiles(prefix)
  {
    [prefix + "_top.stl", prefix + "_bottom.stl"]
      + (if wallType == "full" then [prefix + "_walls.stl"] else [prefix + "_walls_l1.stl", prefix + "_walls_l2.stl"])
  }

  /** With the default wall type the report names a file that is never saved. */
  lemma ReportedFileNeverSaved()
    ensures "airflow_walls.stl" in ReportedFilesAsWritten("airflow", "full")
    ensures "airflow_walls.stl" !in BoxOutputFiles("airflow")
  {
    var saved := BoxOutputFiles("airflow");
    assert ReportedFilesAsWritten("airflow", "full")[2] == "airflow_walls.stl";
    forall i | 0 <= i < 4
      ensures saved[i] != "airflow_walls.stl"
    {
      assert saved[i][8] != "airflow_walls.stl"[8] || |saved[i]| != |"airflow_walls.stl"|;
    }
  }

  /** The report as intended: exactly the files saved, whatever the wall type. */
  function ReportedFiles(prefix: string, wallType: string): (r: seq<string>)
    ensures |r| == 4
    ensures wallType != "full" ==> r == ReportedFilesAsWritten(prefix, wallType)
  {
    BoxOutputFiles(prefix)
  }

  /** The intended report names every saved file once and nothing else. */
  lemma ReportedFilesAreSaved(prefix: string, wallType: string)
    ensures forall f :: f in ReportedFiles(prefix, wallType) <==> f in BoxOutputFiles(prefix)
    ensures forall i, j :: 0 <= i < j < |ReportedFiles(prefix, wallType)| ==> ReportedFiles(prefix, wallType)[i] != ReportedFiles(prefix, wallType)[j]
  {
    BoxOutputFilesDistinct(prefix);
  }
}
