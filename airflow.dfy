/**
 * Cutting the airflow holes: the hole cutters, the fold of `add_airflow_holes` that subtracts
 * one cutter after another and keeps the previous mesh when a subtraction fails, the
 * re-prompting input loops of `get_user_input`, and the output format checks of
 * 3d-mesh/airflow.py. Meshes are a type parameter `M`, and the boolean difference is a
 * parameter that yields `None` when the result is invalid or the library raises.
 */
module Airflow {
  import opened Wrappers
  import opened Strings
  import opened HoleGrid
  import opened Seqs

  /** An upright cylindrical cutter at `(x, y)` spanning the heights `zMin..zMax`. */
  datatype Cylinder = Cylinder(x: real, y: real, radius: real, zMin: real, zMax: real)

  /**
   * The cutter of 3d-mesh/airflow.py: trimesh's cylinder is centred on its origin, is given
   * radius `hole_diameter / 2` and height `thickness + 2` and is moved to `(x, y, 0)`; the
   * plate is centred on z = 0 too, so the cutter sticks out 1 beyond both of its faces.
   */
  function CenteredCutter(p: Point, thickness: real, holeDiameter: real): (c: Cylinder)
    ensures c.x == p.x && c.y == p.y && c.radius == holeDiameter / 2.0
    ensures c.zMax - c.zMin == thickness + 2.0
    ensures c.zMin == -thickness / 2.0 - 1.0 && c.zMax == thickness / 2.0 + 1.0
  {
    Cylinder(p.x, p.y, holeDiameter / 2.0, -(thickness + 2.0) / 2.0, (thickness + 2.0) / 2.0)
  }

  /**
   * The cutter of `add_airflow_holes`: meshlib's cylinder rises from its origin by its length
   * `thickness + 2` and is moved to `(x, y, center_z - thickness / 2 - 1)`, so it sticks out
   * 1 beyond both faces of a plate of that thickness centred on `center_z`.
   */
  function MeshlibCutter(p: Point, centerZ: real, thickness: real, radius: real): (c: Cylinder)
    ensures c.x == p.x && c.y == p.y && c.radius == radius
    ensures c.zMax - c.zMin == thickness + 2.0
    ensures c.zMin == centerZ - thickness / 2.0 - 1.0 && c.zMax == centerZ + thickness / 2.0 + 1.0
  {
    var base := centerZ - thickness / 2.0 - 1.0;
    Cylinder(p.x, p.y, radius, base, base + (thickness + 2.0))
  }

  /** What `add_airflow_holes` reads from the mesh's bounding box. */
  datatype Bounds = Bounds(minX: real, maxX: real, minY: real, maxY: real, centerZ: real)

  /** One axis of holes: from `lo + spacing`, in steps of it, below `hi - spacing`. */
  function Axis(lo: real, hi: real, spacing: real): Option<seq<real>>
  {
    Arange(lo + spacing, hi - spacing, spacing)
  }

  /** The hole positions of `add_airflow_holes`, x-major, for a non-zero spacing. */
  function HolePositions(b: Bounds, spacing: real): seq<Point>
    requires spacing != 0.0
  {
    Grid(Axis(b.minX, b.maxX, spacing).value, Axis(b.minY, b.maxY, spacing).value, 0.0, 0.0)
  }

  /** The cutters of `add_airflow_holes`, one per hole position, in order. */
  function HoleCutters(ps: seq<Point>, centerZ: real, thickness: real, radius: real): (cs: seq<Cylinder>)
    ensures |cs| == |ps|
  {
    seq(|ps|, i requires 0 <= i < |ps| => MeshlibCutter(ps[i], centerZ, thickness, radius))
  }

  /**
   * The mesh after subtracting the cutters in order, where a subtraction that fails leaves the
   * mesh as it was.
   */
  function ApplyCutters<M>(mesh: M, cutters: seq<Cylinder>, subtract: (M, Cylinder) -> Option<M>): M
  {
    if cutters == [] then mesh
    else
      var prev := ApplyCutters(mesh, cutters[..|cutters| - 1], subtract);
      match subtract(prev, cutters[|cutters| - 1])
      case None => prev
      case Some(m) => m
  }

  lemma ApplyCuttersStep<M>(mesh: M, cutters: seq<Cylinder>, c: Cylinder, subtract: (M, Cylinder) -> Option<M>)
    ensures var prev := ApplyCutters(mesh, cutters, subtract);
      ApplyCutters(mesh, cutters + [c], subtract) == if subtract(prev, c).Some? then subtract(prev, c).value else prev
  {
    assert (cutters + [c])[..|cutters|] == cutters;
  }

  /** The cutters whose subtraction succeeds along the way, in order. */
  function Succeeded<M>(mesh: M, cutters: seq<Cylinder>, subtract: (M, Cylinder) -> Option<M>): (r: seq<Cylinder>)
    ensures |r| <= |cutters|
    ensures forall c :: c in r ==> c in cutters
  {
    if cutters == [] then []
    else
      var init := cutters[..|cutters| - 1];
      var last := cutters[|cutters| - 1];
      if subtract(ApplyCutters(mesh, init, subtract), last).Some? then Succeeded(mesh, init, subtract) + [last]
      else Succeeded(mesh, init, subtract)
  }

  /** Subtracting every cutter in order, failing as soon as one subtraction fails. */
  function StrictApply<M>(mesh: M, cutters: seq<Cylinder>, subtract: (M, Cylinder) -> Option<M>): Option<M>
  {
    if cutters == [] then Some(mesh)
    else
      match StrictApply(mesh, cutters[..|cutters| - 1], subtract)
      case None => None
      case Some(m) => subtract(m, cutters[|cutters| - 1])
  }

  /** Subtracting `a` and then `b` is subtracting `a + b`. */
  lemma {:induction false} ApplyCuttersAppend<M>(mesh: M, a: seq<Cylinder>, b: seq<Cylinder>, subtract: (M, Cylinder) -> Option<M>)
    ensures ApplyCutters(mesh, a + b, subtract) == ApplyCutters(ApplyCutters(mesh, a, subtract), b, subtract)
    decreases |b|
  {
    if b == [] {
      assert a + b == a;
    } else {
      var init := b[..|b| - 1];
      ApplyCuttersAppend(mesh, a, init, subtract);
      assert (a + b)[..|a + b| - 1] == a + init;
    }
  }

  /** The result is the strict, in-order application of exactly the successful subtractions. */
  lemma {:induction false} SucceededApply<M>(mesh: M, cutters: seq<Cylinder>, subtract: (M, Cylinder) -> Option<M>)
    ensures StrictApply(mesh, Succeeded(mesh, cutters, subtract), subtract) == Some(ApplyCutters(mesh, cutters, subtract))
    decreases |cutters|
  {
    if cutters != [] {
      var init := cutters[..|cutters| - 1];
      var last := cutters[|cutters| - 1];
      SucceededApply(mesh, init, subtract);
      var s := Succeeded(mesh, init, subtract);
      if subtract(ApplyCutters(mesh, init, subtract), last).Some? {
        assert (s + [last])[..|s + [last]| - 1] == s;
      }
    }
  }

  /** When every subtraction from the mesh fails, the mesh comes back unchanged. */
  lemma {:induction false} AllFailedUnchanged<M>(mesh: M, cutters: seq<Cylinder>, subtract: (M, Cylinder) -> Option<M>)
    requires forall i :: 0 <= i < |cutters| ==> subtract(mesh, cutters[i]).None?
    ensures ApplyCutters(mesh, cutters, subtract) == mesh
    ensures Succeeded(mesh, cutters, subtract) == []
    decreases |cutters|
  {
    if cutters != [] {
      AllFailedUnchanged(mesh, cutters[..|cutters| - 1], subtract);
    }
  }

  /**
   * `add_airflow_holes` (create_airflow.py, printing/create_airflow.py and the copy in
   * printing/create_airflow_box.py): the grid of hole positions, then one cutter per position
   * subtracted in order, skipping the ones whose subtraction fails. A zero spacing makes
   * `np.arange` raise.
   */
  method AddAirflowHoles<M>(mesh: M, b: Bounds, thickness: real, holeRadius: real, holeSpacing: real,
                            subtract: (M, Cylinder) -> Option<M>)
    returns (r: Option<M>)
    ensures r.None? <==> holeSpacing == 0.0
    ensures r.Some? ==> r.value == ApplyCutters(mesh, HoleCutters(HolePositions(b, holeSpacing), b.centerZ, thickness, holeRadius), subtract)
  {
    var xPositions := Arange(b.minX + holeSpacing, b.maxX - holeSpacing, holeSpacing);
    var yPositions := Arange(b.minY + holeSpacing, b.maxY - holeSpacing, holeSpacing);
    if xPositions.None? || yPositions.None? {
      return None;
    }
    var holePositions := GridPositions(xPositions.value, yPositions.value, 0.0, 0.0);
    assert holePositions == HolePositions(b, holeSpacing);
    var resultMesh := CutHoles(mesh, holePositions, b.centerZ, thickness, holeRadius, subtract);
    return Some(resultMesh);
  }

  /** The loop of `add_airflow_holes` over the hole positions: one cutter each, a failed subtraction skipped. */
  method CutHoles<M>(mesh: M, holePositions: seq<Point>, centerZ: real, thickness: real, holeRadius: real,
                     subtract: (M, Cylinder) -> Option<M>)
    returns (resultMesh: M)
    ensures resultMesh == ApplyCutters(mesh, HoleCutters(holePositions, centerZ, thickness, holeRadius), subtract)
  {
    ghost var cutters := HoleCutters(holePositions, centerZ, thickness, holeRadius);
    resultMesh := mesh;
    ghost var done: seq<Cylinder> := [];
    var i := 0;
    while i < |holePositions|
      invariant i <= |holePositions|
      invariant done == cutters[..i]
      invariant resultMesh == ApplyCutters(mesh, done, subtract)
    {
      var hole := MeshlibCutter(holePositions[i], centerZ, thickness, holeRadius);
      assert hole == cutters[i];
      TakeSnoc(cutters, i);
      ApplyCuttersStep(mesh, done, hole, subtract);
      var operation := subtract(resultMesh, hole);
      if operation.Some? {
        resultMesh := operation.value;
      }
      done := done + [hole];
      i := i + 1;
    }
    TakeAll(cutters);
  }

  /** Every hole centre is at least one spacing inside the bounding box: `min + S <= x < max - S`. */
  lemma HolesInsideBounds(b: Bounds, spacing: real)
    requires spacing > 0.0
    ensures forall p :: p in HolePositions(b, spacing) ==>
      b.minX + spacing <= p.x < b.maxX - spacing && b.minY + spacing <= p.y < b.maxY - spacing
  {
    ArangeRising(b.minX + spacing, b.maxX - spacing, spacing);
    ArangeRising(b.minY + spacing, b.maxY - spacing, spacing);
    GridWithin(Axis(b.minX, b.maxX, spacing).value, Axis(b.minY, b.maxY, spacing).value, 0.0, 0.0,
      b.minX + spacing, b.maxX - spacing, b.minY + spacing, b.maxY - spacing);
  }

  /** A mesh at most two spacings wide or long gets no hole and comes back unchanged. */
  lemma NarrowMeshUnchanged<M>(mesh: M, b: Bounds, thickness: real, holeRadius: real, spacing: real,
                               subtract: (M, Cylinder) -> Option<M>)
    requires spacing > 0.0 && (b.maxX - b.minX <= 2.0 * spacing || b.maxY - b.minY <= 2.0 * spacing)
    ensures HolePositions(b, spacing) == []
    ensures ApplyCutters(mesh, HoleCutters(HolePositions(b, spacing), b.centerZ, thickness, holeRadius), subtract) == mesh
  {
    if b.maxX - b.minX <= 2.0 * spacing {
      ArangeEmpty(b.minX + spacing, b.maxX - spacing, spacing);
    } else {
      ArangeEmpty(b.minY + spacing, b.maxY - spacing, spacing);
    }
    assert HoleCutters([], b.centerZ, thickness, holeRadius) == [];
  }

  /**
   * One answer to a numeric prompt of `get_user_input`: the typed text (or the default when
   * nothing was typed and there is one), parsed, and accepted only if positive. `float("")`
   * always raises, so an empty answer to a prompt without a default is always rejected.
   */
  function AcceptPositive(line: string, default: Option<real>, parse: string -> Option<real>): (r: Option<real>)
    ensures r.Some? ==> r.value > 0.0
    ensures line == "" && default.Some? && default.value > 0.0 ==> r == default
    ensures line == "" && default.None? ==> r == None
    ensures line != "" ==> (r.Some? <==> parse(line).Some? && parse(line).value > 0.0)
    ensures r.Some? && line != "" ==> r == parse(line)
  {
    if line == "" then
      if default.Some? && default.value > 0.0 then default else None
    else
      match parse(line)
      case None => None
      case Some(v) => if v > 0.0 then Some(v) else None
  }

  /** The answers a prompt without a default accepts. */
  function Required(parse: string -> Option<real>): string -> Option<real>
  {
    line => AcceptPositive(line, None, parse)
  }

  /** The answers a prompt with default `d` accepts. */
  function WithDefault(d: real, parse: string -> Option<real>): string -> Option<real>
  {
    line => AcceptPositive(line, Some(d), parse)
  }

  /**
   * What a `while True` prompt loop reads from the remaining input lines from `start`: the
   * first answer `accept` takes, with the index of the line after it; `None` when the input
   * runs out first.
   */
  function FirstAnswer<T>(lines: seq<string>, start: nat, accept: string -> Option<T>): (r: Option<(T, nat)>)
    decreases |lines| - start
  {
    if start >= |lines| then None
    else
      match accept(lines[start])
      case Some(v) => Some((v, start + 1))
      case None => FirstAnswer(lines, start + 1, accept)
  }

  /** The answer is the one `accept` gives for the line just before the returned index. */
  lemma {:induction false} FirstAnswerAccepted<T>(lines: seq<string>, start: nat, accept: string -> Option<T>)
    ensures var r := FirstAnswer(lines, start, accept);
      r.Some? ==> start < r.value.1 <= |lines| && accept(lines[r.value.1 - 1]) == Some(r.value.0)
    decreases |lines| - start
  {
    if start < |lines| && accept(lines[start]).None? {
      FirstAnswerAccepted(lines, start + 1, accept);
    }
  }

  /** Every line the prompt loop reads before its answer is rejected; with no answer, all are. */
  lemma {:induction false} FirstAnswerRejectsBefore<T>(lines: seq<string>, start: nat, accept: string -> Option<T>)
    ensures FirstAnswer(lines, start, accept).None? ==> forall k :: start <= k < |lines| ==> accept(lines[k]).None?
    ensures FirstAnswer(lines, start, accept).Some? ==>
      forall k :: start <= k < |lines| && k < FirstAnswer(lines, start, accept).value.1 - 1 ==> accept(lines[k]).None?
    decreases |lines| - start
  {
    if start < |lines| && accept(lines[start]).None? {
      FirstAnswerRejectsBefore(lines, start + 1, accept);
    }
  }

  /** The prompt loop itself, reading one line per round until an answer is accepted. */
  method FirstAccepted<T>(lines: seq<string>, start: nat, accept: string -> Option<T>) returns (r: Option<(T, nat)>)
    ensures r == FirstAnswer(lines, start, accept)
  {
    if start > |lines| {
      return None;
    }
    var i := start;
    while i < |lines|
      invariant start <= i <= |lines|
      invariant FirstAnswer(lines, i, accept) == FirstAnswer(lines, start, accept)
    {
      var answer := accept(lines[i]);
      if answer.Some? {
        return Some((answer.value, i + 1));
      }
      i := i + 1;
    }
    return None;
  }

  const DefaultThickness: real := 1.5
  const DefaultHoleRadius: real := 1.0
  const DefaultHoleSpacing: real := 5.0
  const DefaultOutputFile: string := "airflow_mesh.stl"

  /**
   * The thickness, radius and spacing prompts read one after another from line `start`, each
   * repeated until a positive answer and defaulting to 1.5, 1.0 and 5.0; with the line after.
   */
  function DefaultedAnswers(lines: seq<string>, start: nat, parse: string -> Option<real>): Option<(real, real, real, nat)>
  {
    var thickness := FirstAnswer(lines, start, WithDefault(DefaultThickness, parse));
    if thickness.None? then None else
    var holeRadius := FirstAnswer(lines, thickness.value.1, WithDefault(DefaultHoleRadius, parse));
    if holeRadius.None? then None else
    var holeSpacing := FirstAnswer(lines, holeRadius.value.1, WithDefault(DefaultHoleSpacing, parse));
    if holeSpacing.None? then None
    else Some((thickness.value.0, holeRadius.value.0, holeSpacing.value.0, holeSpacing.value.1))
  }

  /** `input(...) or default`: an empty answer gives the default. */
  function OrDefault(line: string, default: string): (r: string)
    ensures line != "" ==> r == line
    ensures line == "" ==> r == default
  {
    if line == "" then default else line
  }

  datatype AirflowSettings = AirflowSettings(
    width: real, length: real, thickness: real, holeRadius: real, holeSpacing: real, outputFile: string)

  /**
   * The settings `get_user_input` of create_airflow.py (and printing/create_airflow.py) reads:
   * width and length from the first positive answers, then thickness, radius and spacing from
   * the first positive answers after them, an empty answer giving 1.5, 1.0 and 5.0, and the
   * file name from the next line, `airflow_mesh.stl` when it is empty. `None` when the input
   * runs out.
   */
  function UserInput(lines: seq<string>, parse: string -> Option<real>): Option<AirflowSettings>
  {
    var width := FirstAnswer(lines, 0, Required(parse));
    if width.None? then None else
    var length := FirstAnswer(lines, width.value.1, Required(parse));
    if length.None? then None else
    var sizes := DefaultedAnswers(lines, length.value.1, parse);
    if sizes.None? then None else
    var next := sizes.value.3;
    if next >= |lines| then None
    else Some(AirflowSettings(width.value.0, length.value.0, sizes.value.0, sizes.value.1, sizes.value.2,
                              OrDefault(lines[next], DefaultOutputFile)))
  }

  /** All three defaulted answers are positive, and the prompts read at least one line. */
  lemma DefaultedAnswersPositive(lines: seq<string>, start: nat, parse: string -> Option<real>)
    ensures var r := DefaultedAnswers(lines, start, parse);
      r.Some? ==> r.value.0 > 0.0 && r.value.1 > 0.0 && r.value.2 > 0.0 && start < r.value.3 <= |lines|
  {
    var thickness := FirstAnswer(lines, start, WithDefault(DefaultThickness, parse));
    FirstAnswerAccepted(lines, start, WithDefault(DefaultThickness, parse));
    if thickness.Some? {
      var holeRadius := FirstAnswer(lines, thickness.value.1, WithDefault(DefaultHoleRadius, parse));
      FirstAnswerAccepted(lines, thickness.value.1, WithDefault(DefaultHoleRadius, parse));
      if holeRadius.Some? {
        FirstAnswerAccepted(lines, holeRadius.value.1, WithDefault(DefaultHoleSpacing, parse));
      }
    }
  }

  /** Whatever is typed, accepted settings have five positive numbers and a non-empty file name. */
  lemma UserInputPositive(lines: seq<string>, parse: string -> Option<real>)
    ensures var r := UserInput(lines, parse);
      r.Some? ==> (r.value.width > 0.0 && r.value.length > 0.0 && r.value.thickness > 0.0
                   && r.value.holeRadius > 0.0 && r.value.holeSpacing > 0.0 && r.value.outputFile != "")
  {
    var width := FirstAnswer(lines, 0, Required(parse));
    FirstAnswerAccepted(lines, 0, Required(parse));
    if width.Some? {
      var length := FirstAnswer(lines, width.value.1, Required(parse));
      FirstAnswerAccepted(lines, width.value.1, Required(parse));
      if length.Some? {
        DefaultedAnswersPositive(lines, length.value.1, parse);
      }
    }
  }

  /** `get_user_input`: the five prompt loops and the file-name prompt, one after another. */
  method GetUserInput(lines: seq<string>, parse: string -> Option<real>) returns (r: Option<AirflowSettings>)
    ensures r == UserInput(lines, parse)
  {
    var width := FirstAccepted(lines, 0, Required(parse));
    if width.None? { return None; }
    var length := FirstAccepted(lines, width.value.1, Required(parse));
    if length.None? { return None; }
    var thickness := FirstAccepted(lines, length.value.1, WithDefault(DefaultThickness, parse));
    if thickness.None? {
      assert DefaultedAnswers(lines, length.value.1, parse).None?;
      return None;
    }
    var holeRadius := FirstAccepted(lines, thickness.value.1, WithDefault(DefaultHoleRadius, parse));
    if holeRadius.None? {
      assert DefaultedAnswers(lines, length.value.1, parse).None?;
      return None;
    }
    var holeSpacing := FirstAccepted(lines, holeRadius.value.1, WithDefault(DefaultHoleSpacing, parse));
    if holeSpacing.None? {
      assert DefaultedAnswers(lines, length.value.1, parse).None?;
      return None;
    }
    assert DefaultedAnswers(lines, length.value.1, parse)
      == Some((thickness.value.0, holeRadius.value.0, holeSpacing.value.0, holeSpacing.value.1));
    var next := holeSpacing.value.1;
    if next >= |lines| { return None; }
    var outputFile := OrDefault(lines[next], DefaultOutputFile);
    return Some(AirflowSettings(width.value.0, length.value.0, thickness.value.0, holeRadius.value.0,
                                holeSpacing.value.0, outputFile));
  }

  /** Typing a width and a length and pressing enter at the other prompts gives the defaults. */
  lemma UserInputDefaults(a: string, b: string, x: real, y: real, parse: string -> Option<real>)
    requires a != "" && parse(a) == Some(x) && x > 0.0
    requires b != "" && parse(b) == Some(y) && y > 0.0
    ensures UserInput([a, b, "", "", "", ""], parse)
      == Some(AirflowSettings(x, y, DefaultThickness, DefaultHoleRadius, DefaultHoleSpacing, DefaultOutputFile))
  {
    var lines := [a, b, "", "", "", ""];
    assert FirstAnswer(lines, 0, Required(parse)) == Some((x, 1));
    assert FirstAnswer(lines, 1, Required(parse)) == Some((y, 2));
    assert FirstAnswer(lines, 2, WithDefault(DefaultThickness, parse)) == Some((DefaultThickness, 3));
    assert FirstAnswer(lines, 3, WithDefault(DefaultHoleRadius, parse)) == Some((DefaultHoleRadius, 4));
    assert FirstAnswer(lines, 4, WithDefault(DefaultHoleSpacing, parse)) == Some((DefaultHoleSpacing, 5));
  }

  /** Six accepted answers in a row are the settings, in prompt order. */
  lemma UserInputTyped(ls: seq<string>, v: seq<real>, parse: string -> Option<real>)
    requires |ls| == 6 && |v| == 5
    requires forall k :: 0 <= k < 5 ==> ls[k] != "" && parse(ls[k]) == Some(v[k]) && v[k] > 0.0
    requires ls[5] != ""
    ensures UserInput(ls, parse) == Some(AirflowSettings(v[0], v[1], v[2], v[3], v[4], ls[5]))
  {
    assert FirstAnswer(ls, 0, Required(parse)) == Some((v[0], 1));
    assert FirstAnswer(ls, 1, Required(parse)) == Some((v[1], 2));
    assert FirstAnswer(ls, 2, WithDefault(DefaultThickness, parse)) == Some((v[2], 3));
    assert FirstAnswer(ls, 3, WithDefault(DefaultHoleRadius, parse)) == Some((v[3], 4));
    assert FirstAnswer(ls, 4, WithDefault(DefaultHoleSpacing, parse)) == Some((v[4], 5));
  }

  /** A rejected width (empty, not a number, or not positive) is asked for again. */
  lemma UserInputRetriesWidth(bad: string, a: string, b: string, x: real, y: real, parse: string -> Option<real>)
    requires AcceptPositive(bad, None, parse) == None
    requires a != "" && parse(a) == Some(x) && x > 0.0
    requires b != "" && parse(b) == Some(y) && y > 0.0
    ensures UserInput([bad, a, b, "", "", "", ""], parse)
      == Some(AirflowSettings(x, y, DefaultThickness, DefaultHoleRadius, DefaultHoleSpacing, DefaultOutputFile))
  {
    var lines := [bad, a, b, "", "", "", ""];
    assert FirstAnswer(lines, 1, Required(parse)) == Some((x, 2));
    assert FirstAnswer(lines, 0, Required(parse)) == Some((x, 2));
    assert FirstAnswer(lines, 2, Required(parse)) == Some((y, 3));
    assert FirstAnswer(lines, 3, WithDefault(DefaultThickness, parse)) == Some((DefaultThickness, 4));
    assert FirstAnswer(lines, 4, WithDefault(DefaultHoleRadius, parse)) == Some((DefaultHoleRadius, 5));
    assert FirstAnswer(lines, 5, WithDefault(DefaultHoleSpacing, parse)) == Some((DefaultHoleSpacing, 6));
  }

  /** `save_mesh` of 3d-mesh/airflow.py saves only as `stl`, `obj` or `ply`, in any letter case. */
  function CheckFormat(format: string): (r: Result<(), string>)
    ensures r.Ok? <==> Lower(format) == "stl" || Lower(format) == "obj" || Lower(format) == "ply"
    ensures r.Err? ==> r.error == "Unsupported format: " + format
  {
    var f := Lower(format);
    if f == "stl" || f == "obj" || f == "ply" then Ok(()) else Err("Unsupported format: " + format)
  }

  lemma LowerIdempotent(s: string)
    ensures Lower(Lower(s)) == Lower(s)
  {
  }

  /** The format check does not depend on letter case. */
  lemma CheckFormatIgnoresCase(format: string)
    ensures CheckFormat(Lower(format)).Ok? == CheckFormat(format).Ok?
  {
    LowerIdempotent(format);
  }

  /** `main` of 3d-mesh/airflow.py: `.<format>` is appended unless the name already ends with it. */
  function WithExtension(file: string, format: string): (r: string)
    ensures EndsWith(r, "." + format)
    ensures EndsWith(file, "." + format) ==> r == file
    ensures !EndsWith(file, "." + format) ==> r == file + "." + format
  {
    if EndsWith(file, "." + format) then file
    else
      EndsWithAppended(file, "." + format);
      file + ("." + format)
  }

  /** Adding the extension a second time changes nothing. */
  lemma WithExtensionIdempotent(file: string, format: string)
    ensures WithExtension(WithExtension(file, format), format) == WithExtension(file, format)
  {
  }
}
