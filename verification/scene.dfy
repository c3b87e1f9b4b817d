/** The two scene serialisers of the Luxrender adapter: a camera pose becomes a `LookAt`
    directive and a coloured triangle mesh becomes a named matte material plus a
    `Shape "mesh"` block, both in LuxRender's scene-description text. Python's `str`
    of a float is left abstract: every function takes it as the parameter `numStr`. */
module LuxScene {
  import opened Text

  datatype Vec3 = Vec3(x: real, y: real, z: real)

  /** The camera's orientation; the adapter receives it and never reads it. */
  datatype Rotation = Rotation(q0: real, q1: real, q2: real, q3: real)

  datatype Color = Color(r: real, g: real, b: real)

  /** One triangle: three indices into the mesh's point list. */
  datatype Tri = Tri(i0: int, i1: int, i2: int)

  /** A triangulated mesh: its points and triangles (the mesh topology) and one normal
      per point. Nothing ties the three lists together. */
  datatype Mesh = Mesh(points: seq<Vec3>, facets: seq<Tri>, normals: seq<Vec3>)

  /** The host's view of the exported object; only its name is used. */
  datatype ViewObject = ViewObject(name: string)

  /** Python's `str` of a float never holds a space or a newline, so each number is one
      token on one line. */
  ghost predicate OneTokenNumbers(numStr: real -> string)
  {
    forall v :: ' ' !in numStr(v) && '\n' !in numStr(v)
  }

  /** A vector's three coordinates, space separated. */
  function VecText(numStr: real -> string, v: Vec3): string
  {
    numStr(v.x) + " " + numStr(v.y) + " " + numStr(v.z)
  }

  /** The same three coordinates as a token list. */
  function VecTokens(numStr: real -> string, v: Vec3): seq<string>
  {
    [numStr(v.x), numStr(v.y), numStr(v.z)]
  }

  lemma VecTextIsJoin(numStr: real -> string, v: Vec3)
    ensures VecText(numStr, v) == Join(VecTokens(numStr, v), ' ')
  {
    var ts := VecTokens(numStr, v);
    assert ts[1..] == [numStr(v.y), numStr(v.z)];
    assert ts[1..][1..] == [numStr(v.z)];
    assert Join(ts[1..][1..], ' ') == numStr(v.z);
    assert Join(ts[1..], ' ') == numStr(v.y) + [' '] + numStr(v.z);
    assert Join(ts, ' ') == numStr(v.x) + [' '] + (numStr(v.y) + [' '] + numStr(v.z));
  }

  const CameraComment := "# declares position and view direction"
  const GeneratorComment := "# Generated by FreeCAD " + "(http://www.freecadweb.org/)"

  /** The `LookAt` line of the camera text. */
  function LookAtLine(numStr: real -> string, pos: Vec3, up: Vec3, target: Vec3): string
  {
    "LookAt " + VecText(numStr, pos) + " " + VecText(numStr, target) + " " + VecText(numStr, up)
  }

  /** writeCamera: two comment lines, then `LookAt` with position, target and up. */
  function WriteCamera(numStr: real -> string, pos: Vec3, rot: Rotation, up: Vec3, target: Vec3): (cam: string)
    ensures |cam| > 0 && cam[|cam| - 1] == '\n'
  {
    CameraComment + "\n" + GeneratorComment + "\n" + LookAtLine(numStr, pos, up, target) + "\n"
  }

  /** The nine numbers of the `LookAt` directive in the order the format expects them. */
  function CameraNumbers(numStr: real -> string, pos: Vec3, up: Vec3, target: Vec3): (ns: seq<string>)
    ensures |ns| == 9
    ensures ns[0] == numStr(pos.x) && ns[1] == numStr(pos.y) && ns[2] == numStr(pos.z)
    ensures ns[3] == numStr(target.x) && ns[4] == numStr(target.y) && ns[5] == numStr(target.z)
    ensures ns[6] == numStr(up.x) && ns[7] == numStr(up.y) && ns[8] == numStr(up.z)
  {
    VecTokens(numStr, pos) + VecTokens(numStr, target) + VecTokens(numStr, up)
  }

  /** The `LookAt` line is the keyword and the nine numbers joined by single spaces. */
  lemma LookAtLineIsJoin(numStr: real -> string, pos: Vec3, up: Vec3, target: Vec3)
    ensures LookAtLine(numStr, pos, up, target) == Join(["LookAt"] + CameraNumbers(numStr, pos, up, target), ' ')
  {
    var p, t, u := VecTokens(numStr, pos), VecTokens(numStr, target), VecTokens(numStr, up);
    var j1 := "LookAt" + " " + VecText(numStr, pos);
    var j2 := j1 + " " + VecText(numStr, target);
    var j3 := j2 + " " + VecText(numStr, up);
    assert Join(["LookAt"] + p, ' ') == j1 by {
      VecTextIsJoin(numStr, pos);
      JoinAppend(["LookAt"], p, ' ');
    }
    assert Join(["LookAt"] + p + t, ' ') == j2 by {
      VecTextIsJoin(numStr, target);
      JoinAppend(["LookAt"] + p, t, ' ');
    }
    assert Join(["LookAt"] + p + t + u, ' ') == j3 by {
      VecTextIsJoin(numStr, up);
      JoinAppend(["LookAt"] + p + t, u, ' ');
    }
    assert ["LookAt"] + p + t + u == ["LookAt"] + CameraNumbers(numStr, pos, up, target);
    assert LookAtLine(numStr, pos, up, target) == j3;
  }

  /** Under one-token numbers the `LookAt` tokens hold neither a space nor a newline. */
  lemma LookAtTokensFree(numStr: real -> string, pos: Vec3, up: Vec3, target: Vec3)
    requires OneTokenNumbers(numStr)
    ensures var tokens := ["LookAt"] + CameraNumbers(numStr, pos, up, target);
            Free(tokens, ' ') && Free(tokens, '\n')
  {
    var tokens := ["LookAt"] + CameraNumbers(numStr, pos, up, target);
    forall i | 0 <= i < |tokens| ensures ' ' !in tokens[i] && '\n' !in tokens[i] {
      if i == 0 {
        assert tokens[0] == "LookAt";
      } else {
        assert tokens[i] == CameraNumbers(numStr, pos, up, target)[i - 1];
      }
    }
  }

  /** The camera text is its three lines, each ended by a newline. */
  lemma CameraIsLines(numStr: real -> string, pos: Vec3, rot: Rotation, up: Vec3, target: Vec3)
    ensures WriteCamera(numStr, pos, rot, up, target)
            == Terminated([CameraComment, GeneratorComment, LookAtLine(numStr, pos, up, target)], '\n')
  {
    var look := LookAtLine(numStr, pos, up, target);
    var ls := [CameraComment, GeneratorComment, look];
    assert ls[1..] == [GeneratorComment, look];
    assert ls[1..][1..] == [look];
    assert ls[1..][1..][1..] == [];
    assert Terminated(ls[1..][1..], '\n') == look + "\n";
    assert Terminated(ls[1..], '\n') == GeneratorComment + "\n" + (look + "\n");
    assert Terminated(ls, '\n') == CameraComment + "\n" + (GeneratorComment + "\n" + (look + "\n"));
  }

  /** The two comment lines hold no newline. */
  lemma CommentsOneLine()
    ensures '\n' !in CameraComment && '\n' !in GeneratorComment
  {
  }

  /** The camera text is three lines; the last is `LookAt` followed by exactly the nine
      numbers position, target, up, each one token. */
  lemma CameraLookAt(numStr: real -> string, pos: Vec3, rot: Rotation, up: Vec3, target: Vec3)
    requires OneTokenNumbers(numStr)
    ensures var lines := Split(WriteCamera(numStr, pos, rot, up, target), '\n');
            && |lines| == 4
            && lines[0] == CameraComment && lines[1] == GeneratorComment && lines[3] == ""
            && Split(lines[2], ' ') == ["LookAt"] + CameraNumbers(numStr, pos, up, target)
  {
    var tokens := ["LookAt"] + CameraNumbers(numStr, pos, up, target);
    var look := LookAtLine(numStr, pos, up, target);
    LookAtLineIsJoin(numStr, pos, up, target);
    LookAtTokensFree(numStr, pos, up, target);
    SplitJoin(tokens, ' ');
    NoCharInJoin(tokens, ' ', '\n');
    CameraIsLines(numStr, pos, rot, up, target);
    var ls := [CameraComment, GeneratorComment, look];
    CommentsOneLine();
    assert Free(ls, '\n');
    SplitTerminated(ls, '\n');
  }

  /** A character that is neither the separator nor in any field is not in the join. */
  lemma {:induction false} NoCharInJoin(ts: seq<string>, sep: char, c: char)
    requires c != sep && Free(ts, c)
    ensures c !in Join(ts, sep)
    decreases |ts|
  {
    if |ts| > 1 {
      assert Free(ts[1..], c) by {
        forall i | 0 <= i < |ts[1..]| ensures c !in ts[1..][i] {
          assert ts[1..][i] == ts[i + 1];
        }
      }
      NoCharInJoin(ts[1..], sep, c);
    }
  }

  /** The camera text does not depend on the rotation. */
  lemma CameraIgnoresRotation(numStr: real -> string, pos: Vec3, r1: Rotation, r2: Rotation, up: Vec3, target: Vec3)
    ensures WriteCamera(numStr, pos, r1, up, target) == WriteCamera(numStr, pos, r2, up, target)
  {
  }

  // ---------------------------------------------------------------------------
  // writeObject

  /** A run of numbers each followed by one space, as the adapter's loops build the
      `point P` and `normal N` arrays: three coordinates per vector, in list order. */
  function VecRun(numStr: real -> string, vs: seq<Vec3>): string
    decreases |vs|
  {
    if |vs| == 0 then ""
    else numStr(vs[0].x) + " " + numStr(vs[0].y) + " " + numStr(vs[0].z) + " " + VecRun(numStr, vs[1..])
  }

  /** The run of triangle indices, three per triangle, each followed by one space. */
  function TriRun(ts: seq<Tri>): string
    decreases |ts|
  {
    if |ts| == 0 then ""
    else IntStr(ts[0].i0) + " " + IntStr(ts[0].i1) + " " + IntStr(ts[0].i2) + " " + TriRun(ts[1..])
  }

  /** Reference order for a vector run: the coordinates of each vector in turn. */
  function Coordinates(numStr: real -> string, vs: seq<Vec3>): (r: seq<string>)
    ensures |r| == 3 * |vs|
    decreases |vs|
  {
    if |vs| == 0 then [] else VecTokens(numStr, vs[0]) + Coordinates(numStr, vs[1..])
  }

  /** Coordinate `j` of vector `k` is token `3k + j`. */
  lemma {:induction false} CoordinatesAt(numStr: real -> string, vs: seq<Vec3>, k: nat)
    requires k < |vs|
    ensures var r := Coordinates(numStr, vs);
            r[3 * k] == numStr(vs[k].x) && r[3 * k + 1] == numStr(vs[k].y) && r[3 * k + 2] == numStr(vs[k].z)
    decreases k
  {
    if k > 0 {
      var r := Coordinates(numStr, vs);
      var rest := Coordinates(numStr, vs[1..]);
      CoordinatesAt(numStr, vs[1..], k - 1);
      assert vs[1..][k - 1] == vs[k];
      assert r[3 * k] == rest[3 * (k - 1)];
      assert r[3 * k + 1] == rest[3 * (k - 1) + 1];
      assert r[3 * k + 2] == rest[3 * (k - 1) + 2];
    }
  }

  /** Reference order for the index run: the three indices of each triangle in turn,
      printed as they are. */
  function Indices(ts: seq<Tri>): (r: seq<string>)
    ensures |r| == 3 * |ts|
    decreases |ts|
  {
    if |ts| == 0 then [] else [IntStr(ts[0].i0), IntStr(ts[0].i1), IntStr(ts[0].i2)] + Indices(ts[1..])
  }

  /** Index `j` of triangle `k` is token `3k + j`. */
  lemma {:induction false} IndicesAt(ts: seq<Tri>, k: nat)
    requires k < |ts|
    ensures var r := Indices(ts);
            r[3 * k] == IntStr(ts[k].i0) && r[3 * k + 1] == IntStr(ts[k].i1) && r[3 * k + 2] == IntStr(ts[k].i2)
    decreases k
  {
    if k > 0 {
      var r := Indices(ts);
      var rest := Indices(ts[1..]);
      IndicesAt(ts[1..], k - 1);
      assert ts[1..][k - 1] == ts[k];
      assert r[3 * k] == rest[3 * (k - 1)];
      assert r[3 * k + 1] == rest[3 * (k - 1) + 1];
      assert r[3 * k + 2] == rest[3 * (k - 1) + 2];
    }
  }

  /** Reads triangles back from index tokens, three at a time. */
  function ReadTris(tokens: seq<string>): seq<Tri>
    decreases |tokens|
  {
    if |tokens| < 3 then []
    else [Tri(IntValue(tokens[0]), IntValue(tokens[1]), IntValue(tokens[2]))] + ReadTris(tokens[3..])
  }

  /** The index tokens give back exactly the triangles: no reindexing, reordering or
      deduplication. */
  lemma {:induction false} IndicesRoundTrip(ts: seq<Tri>)
    ensures ReadTris(Indices(ts)) == ts
    decreases |ts|
  {
    if |ts| > 0 {
      var r := Indices(ts);
      assert r[3..] == Indices(ts[1..]);
      IntStrRoundTrip(ts[0].i0);
      IntStrRoundTrip(ts[0].i1);
      IntStrRoundTrip(ts[0].i2);
      IndicesRoundTrip(ts[1..]);
      assert [ts[0]] + ts[1..] == ts;
    }
  }

  /** Three tokens, each followed by a space, in front of a run of terminated tokens. */
  lemma ThreeTerminated(a: string, b: string, c: string, rest: seq<string>)
    ensures a + " " + b + " " + c + " " + Terminated(rest, ' ') == Terminated([a, b, c] + rest, ' ')
  {
    var head := [a, b, c];
    assert head[1..] == [b, c];
    assert head[1..][1..] == [c];
    assert head[1..][1..][1..] == [];
    assert Terminated([c], ' ') == c + " " + "";
    assert Terminated([b, c], ' ') == b + " " + Terminated([c], ' ');
    assert Terminated(head, ' ') == a + " " + Terminated([b, c], ' ');
    TerminatedAppend(head, rest, ' ');
  }

  /** The vector run is the coordinate tokens, each followed by a space. */
  lemma {:induction false} VecRunTokens(numStr: real -> string, vs: seq<Vec3>)
    ensures VecRun(numStr, vs) == Terminated(Coordinates(numStr, vs), ' ')
    decreases |vs|
  {
    if |vs| > 0 {
      VecRunTokens(numStr, vs[1..]);
      ThreeTerminated(numStr(vs[0].x), numStr(vs[0].y), numStr(vs[0].z), Coordinates(numStr, vs[1..]));
    }
  }

  /** The index run is the index tokens, each followed by a space. */
  lemma {:induction false} TriRunTokens(ts: seq<Tri>)
    ensures TriRun(ts) == Terminated(Indices(ts), ' ')
    decreases |ts|
  {
    if |ts| > 0 {
      TriRunTokens(ts[1..]);
      ThreeTerminated(IntStr(ts[0].i0), IntStr(ts[0].i1), IntStr(ts[0].i2), Indices(ts[1..]));
    }
  }

  /** Integer text never holds a space or a newline. */
  lemma IntStrOneToken(i: int)
    ensures ' ' !in IntStr(i) && '\n' !in IntStr(i)
  {
    var s := IntStr(i);
    IntStrShape(i);
    forall k | 0 <= k < |s| ensures s[k] != ' ' && s[k] != '\n' {
      assert IsIntChar(s[k]);
    }
  }

  /** No index token holds a space or a newline. */
  lemma {:induction false} IndicesOneToken(ts: seq<Tri>)
    ensures Free(Indices(ts), ' ') && Free(Indices(ts), '\n')
    decreases |ts|
  {
    if |ts| > 0 {
      var r := Indices(ts);
      IndicesOneToken(ts[1..]);
      IntStrOneToken(ts[0].i0);
      IntStrOneToken(ts[0].i1);
      IntStrOneToken(ts[0].i2);
      forall i | 0 <= i < |r| ensures ' ' !in r[i] && '\n' !in r[i] {
        if i >= 3 {
          assert r[i] == Indices(ts[1..])[i - 3];
        }
      }
    }
  }

  /** Under one-token numbers no coordinate token holds a space or a newline. */
  lemma {:induction false} CoordinatesOneToken(numStr: real -> string, vs: seq<Vec3>)
    requires OneTokenNumbers(numStr)
    ensures Free(Coordinates(numStr, vs), ' ') && Free(Coordinates(numStr, vs), '\n')
    decreases |vs|
  {
    if |vs| > 0 {
      var r := Coordinates(numStr, vs);
      CoordinatesOneToken(numStr, vs[1..]);
      forall i | 0 <= i < |r| ensures ' ' !in r[i] && '\n' !in r[i] {
        if i >= 3 {
          assert r[i] == Coordinates(numStr, vs[1..])[i - 3];
        }
      }
    }
  }

  /** Splitting the index run on spaces gives each index once, in input order, then the
      empty field left by the trailing space. */
  lemma TriRunSplit(ts: seq<Tri>)
    ensures Split(TriRun(ts), ' ') == Indices(ts) + [""]
  {
    TriRunTokens(ts);
    IndicesOneToken(ts);
    SplitTerminated(Indices(ts), ' ');
  }

  /** Splitting a vector run on spaces gives three coordinates per vector, in input order,
      then the empty field left by the trailing space. */
  lemma VecRunSplit(numStr: real -> string, vs: seq<Vec3>)
    requires OneTokenNumbers(numStr)
    ensures Split(VecRun(numStr, vs), ' ') == Coordinates(numStr, vs) + [""]
  {
    VecRunTokens(numStr, vs);
    CoordinatesOneToken(numStr, vs);
    SplitTerminated(Coordinates(numStr, vs), ' ');
  }

  /** The name the material is declared under and referenced by. */
  function MaterialName(name: string): string
  {
    name + "_mat"
  }

  const SigmaLine := "    \"float sigma\" [0.2]"
  const MatteLine := "    \"string type\" [\"matte\"]"
  const TransparencyKey := "    \"float transparency\" [\""
  const TransformLine := "Transform [1 0 0 0 0 1 0 0 0 0 1 0 0 0 0 1]"
  const ShapeLine := "Shape \"mesh\""
  const TangentsLine := "    \"bool generatetangents\" [\"false\"]"
  const AttributeEndLine := "AttributeEnd # \"\""

  /** The transparency attribute, its value written as a quoted string. */
  function TransparencyLine(numStr: real -> string, alpha: real): string
  {
    TransparencyKey + numStr(alpha) + "\"]"
  }

  /** The lines of the material block: name, colour, the fixed sigma and type, and the
      transparency line exactly when alpha is below one. */
  function MaterialLines(numStr: real -> string, name: string, color: Color, alpha: real): (ls: seq<string>)
    ensures |ls| == (if alpha < 1.0 then 5 else 4)
  {
    ["MakeNamedMaterial " + Quoted(MaterialName(name)),
     "    \"color Kd\" [" + numStr(color.r) + " " + numStr(color.g) + " " + numStr(color.b) + "]",
     SigmaLine,
     MatteLine]
    + (if alpha < 1.0 then [TransparencyLine(numStr, alpha)] else [])
  }

  /** The lines of the shape block, from `AttributeBegin` to `AttributeEnd`. */
  function ShapeLines(numStr: real -> string, name: string, mesh: Mesh): (ls: seq<string>)
    ensures |ls| == 10
  {
    ["AttributeBegin #  " + Quoted(name),
     TransformLine,
     "NamedMaterial " + Quoted(MaterialName(name)),
     ShapeLine,
     "    \"integer triindices\" [" + TriRun(mesh.facets) + "]",
     "    \"point P\" [" + VecRun(numStr, mesh.points) + "]",
     "    \"normal N\" [" + VecRun(numStr, mesh.normals) + "]",
     TangentsLine,
     "    \"string name\" [" + Quoted(name) + "]",
     AttributeEndLine]
  }

  /** The object's lines: material block, one blank line, shape block. */
  function ObjectLines(numStr: real -> string, view: ViewObject, mesh: Mesh, color: Color, alpha: real): seq<string>
  {
    MaterialLines(numStr, view.name, color, alpha) + [""] + ShapeLines(numStr, view.name, mesh)
  }

  /** writeObject: the object's lines, each ended by a newline, as the adapter appends
      them one by one. */
  function WriteObject(numStr: real -> string, view: ViewObject, mesh: Mesh, color: Color, alpha: real): (objdef: string)
  {
    Terminated(ObjectLines(numStr, view, mesh, color, alpha), '\n')
  }

  /** The fixed text of the material block holds no newline. */
  lemma MaterialLiteralsOneLine()
    ensures '\n' !in "MakeNamedMaterial " && '\n' !in "    \"color Kd\" [" && '\n' !in "]"
    ensures '\n' !in SigmaLine && '\n' !in MatteLine
    ensures '\n' !in TransparencyKey && '\n' !in "\"]"
  {
  }

  /** The fixed text of the shape block's head holds no newline. */
  lemma ShapeHeadLiteralsOneLine()
    ensures '\n' !in "AttributeBegin #  " && '\n' !in "NamedMaterial " && '\n' !in ShapeLine
  {
  }

  /** The transform and tangents lines hold no newline. */
  lemma ShapeConstantsOneLine()
    ensures '\n' !in TransformLine && '\n' !in TangentsLine
  {
  }

  /** The fixed text around the shape block's arrays and name holds no newline. */
  lemma ShapeLiteralsOneLine()
    ensures '\n' !in "    \"integer triindices\" [" && '\n' !in "    \"point P\" [" && '\n' !in "    \"normal N\" ["
    ensures '\n' !in "    \"string name\" [" && '\n' !in AttributeEndLine && '\n' !in "\""
  {
  }

  /** A character that is neither the terminator nor in any token is not in the run. */
  lemma {:induction false} NoCharInTerminated(ts: seq<string>, t: char, c: char)
    requires c != t && Free(ts, c)
    ensures c !in Terminated(ts, t)
    decreases |ts|
  {
    if |ts| > 0 {
      assert Free(ts[1..], c) by {
        forall i | 0 <= i < |ts[1..]| ensures c !in ts[1..][i] {
          assert ts[1..][i] == ts[i + 1];
        }
      }
      NoCharInTerminated(ts[1..], t, c);
    }
  }

  /** With one-line numbers and name, no material line holds a newline. */
  lemma MaterialOneLine(numStr: real -> string, name: string, color: Color, alpha: real)
    requires OneTokenNumbers(numStr) && '\n' !in name
    ensures Free(MaterialLines(numStr, name, color, alpha), '\n')
  {
    MaterialLiteralsOneLine();
    assert '\n' !in numStr(color.r) && '\n' !in numStr(color.g) && '\n' !in numStr(color.b);
    assert '\n' !in numStr(alpha);
    assert '\n' !in MaterialName(name);
  }

  /** With one-token numbers and a one-line name, no shape line holds a newline. */
  lemma ShapeOneLine(numStr: real -> string, name: string, mesh: Mesh)
    requires OneTokenNumbers(numStr) && '\n' !in name
    ensures Free(ShapeLines(numStr, name, mesh), '\n')
  {
    ShapeHeadLiteralsOneLine();
    ShapeConstantsOneLine();
    ShapeLiteralsOneLine();
    assert '\n' !in VecRun(numStr, mesh.points) by {
      VecRunTokens(numStr, mesh.points);
      CoordinatesOneToken(numStr, mesh.points);
      NoCharInTerminated(Coordinates(numStr, mesh.points), ' ', '\n');
    }
    assert '\n' !in VecRun(numStr, mesh.normals) by {
      VecRunTokens(numStr, mesh.normals);
      CoordinatesOneToken(numStr, mesh.normals);
      NoCharInTerminated(Coordinates(numStr, mesh.normals), ' ', '\n');
    }
    assert '\n' !in TriRun(mesh.facets) by {
      TriRunTokens(mesh.facets);
      IndicesOneToken(mesh.facets);
      NoCharInTerminated(Indices(mesh.facets), ' ', '\n');
    }
    assert '\n' !in MaterialName(name);
  }

  /** With one-token numbers and a one-line name, no object line holds a newline. */
  lemma ObjectLinesOneLine(numStr: real -> string, view: ViewObject, mesh: Mesh, color: Color, alpha: real)
    requires OneTokenNumbers(numStr) && '\n' !in view.name
    ensures Free(ObjectLines(numStr, view, mesh, color, alpha), '\n')
  {
    var ls := ObjectLines(numStr, view, mesh, color, alpha);
    var m := MaterialLines(numStr, view.name, color, alpha);
    var sh := ShapeLines(numStr, view.name, mesh);
    MaterialOneLine(numStr, view.name, color, alpha);
    ShapeOneLine(numStr, view.name, mesh);
    forall i | 0 <= i < |ls| ensures '\n' !in ls[i] {
      if i < |m| {
        assert ls[i] == m[i];
      } else if i > |m| {
        assert ls[i] == sh[i - |m| - 1];
      }
    }
  }

  /** The object text splits into exactly the object's lines, then the empty field after
      the final newline. */
  lemma ObjectTextLines(numStr: real -> string, view: ViewObject, mesh: Mesh, color: Color, alpha: real)
    requires OneTokenNumbers(numStr) && '\n' !in view.name
    ensures Split(WriteObject(numStr, view, mesh, color, alpha), '\n') == ObjectLines(numStr, view, mesh, color, alpha) + [""]
  {
    ObjectLinesOneLine(numStr, view, mesh, color, alpha);
    SplitTerminated(ObjectLines(numStr, view, mesh, color, alpha), '\n');
  }

  /** How far the optional transparency line pushes the later lines down. */
  function Shift(alpha: real): nat
  {
    if alpha < 1.0 then 1 else 0
  }

  /** Material block, blank line, then `AttributeBegin` ... `AttributeEnd`, in that order,
      and nothing after the final newline. */
  lemma ObjectLayout(numStr: real -> string, view: ViewObject, mesh: Mesh, color: Color, alpha: real)
    requires OneTokenNumbers(numStr) && '\n' !in view.name
    ensures var ls := Split(WriteObject(numStr, view, mesh, color, alpha), '\n');
            var o := Shift(alpha);
            && |ls| == 16 + o
            && StartsWith(ls[0], "MakeNamedMaterial ")
            && ls[4 + o] == ""
            && StartsWith(ls[5 + o], "AttributeBegin")
            && ls[14 + o] == AttributeEndLine
            && ls[15 + o] == ""
  {
    ObjectTextLines(numStr, view, mesh, color, alpha);
    var ls := Split(WriteObject(numStr, view, mesh, color, alpha), '\n');
    var o := Shift(alpha);
    var m := MaterialLines(numStr, view.name, color, alpha);
    var sh := ShapeLines(numStr, view.name, mesh);
    assert ls == m + [""] + sh + [""];
    assert ls[0] == m[0];
    assert ls[5 + o] == sh[0];
    assert ls[14 + o] == sh[9];
  }

  /** None of the four always-present material lines is a transparency line. */
  lemma MaterialHeadNotTransparency(numStr: real -> string, name: string, color: Color, alpha: real)
    ensures forall i :: 0 <= i < 4 ==> !StartsWith(MaterialLines(numStr, name, color, alpha)[i], TransparencyKey)
  {
    var m := MaterialLines(numStr, name, color, alpha);
    DiffersAt(m[0], TransparencyKey, 0);
    DiffersAt(m[1], TransparencyKey, 5);
    DiffersAt(m[2], TransparencyKey, 11);
    DiffersAt(m[3], TransparencyKey, 5);
  }

  /** The first five lines of the shape block are not transparency lines. */
  lemma ShapeHeadNotTransparency(numStr: real -> string, name: string, mesh: Mesh)
    ensures forall j :: 0 <= j < 5 ==> !StartsWith(ShapeLines(numStr, name, mesh)[j], TransparencyKey)
  {
    var sh := ShapeLines(numStr, name, mesh);
    assert !StartsWith(sh[0], TransparencyKey) by { DiffersAt(sh[0], TransparencyKey, 0); }
    assert !StartsWith(sh[1], TransparencyKey) by { DiffersAt(sh[1], TransparencyKey, 0); }
    assert !StartsWith(sh[2], TransparencyKey) by { DiffersAt(sh[2], TransparencyKey, 0); }
    assert !StartsWith(sh[3], TransparencyKey) by { DiffersAt(sh[3], TransparencyKey, 0); }
    assert !StartsWith(sh[4], TransparencyKey) by { DiffersAt(sh[4], TransparencyKey, 5); }
  }

  /** The last five lines of the shape block are not transparency lines. */
  lemma ShapeTailNotTransparency(numStr: real -> string, name: string, mesh: Mesh)
    ensures forall j :: 5 <= j < 10 ==> !StartsWith(ShapeLines(numStr, name, mesh)[j], TransparencyKey)
  {
    var sh := ShapeLines(numStr, name, mesh);
    assert !StartsWith(sh[5], TransparencyKey) by { DiffersAt(sh[5], TransparencyKey, 5); }
    assert !StartsWith(sh[6], TransparencyKey) by { DiffersAt(sh[6], TransparencyKey, 5); }
    assert !StartsWith(sh[7], TransparencyKey) by { DiffersAt(sh[7], TransparencyKey, 5); }
    assert !StartsWith(sh[8], TransparencyKey) by { DiffersAt(sh[8], TransparencyKey, 5); }
    assert !StartsWith(sh[9], TransparencyKey) by { DiffersAt(sh[9], TransparencyKey, 0); }
  }

  /** No line of the shape block is a transparency line. */
  lemma ShapeNotTransparency(numStr: real -> string, name: string, mesh: Mesh)
    ensures forall j :: 0 <= j < 10 ==> !StartsWith(ShapeLines(numStr, name, mesh)[j], TransparencyKey)
  {
    ShapeHeadNotTransparency(numStr, name, mesh);
    ShapeTailNotTransparency(numStr, name, mesh);
  }

  /** The object text has a transparency line if and only if alpha is strictly below one;
      that line is the fifth and carries alpha as a quoted string. */
  lemma TransparencyIffBelowOne(numStr: real -> string, view: ViewObject, mesh: Mesh, color: Color, alpha: real)
    requires OneTokenNumbers(numStr) && '\n' !in view.name
    ensures var ls := Split(WriteObject(numStr, view, mesh, color, alpha), '\n');
            && |ls| == 16 + Shift(alpha)
            && (alpha < 1.0 <==> exists i :: 0 <= i < |ls| && StartsWith(ls[i], TransparencyKey))
            && (alpha < 1.0 ==> ls[4] == TransparencyKey + numStr(alpha) + "\"]")
  {
    ObjectTextLines(numStr, view, mesh, color, alpha);
    var ls := Split(WriteObject(numStr, view, mesh, color, alpha), '\n');
    var m := MaterialLines(numStr, view.name, color, alpha);
    var sh := ShapeLines(numStr, view.name, mesh);
    assert ls == m + [""] + sh + [""];
    if alpha < 1.0 {
      assert ls[4] == m[4] == TransparencyLine(numStr, alpha);
      assert ls[4][..|TransparencyKey|] == TransparencyKey;
    } else {
      MaterialHeadNotTransparency(numStr, view.name, color, alpha);
      ShapeNotTransparency(numStr, view.name, mesh);
      forall i | 0 <= i < |ls| ensures !StartsWith(ls[i], TransparencyKey) {
        if i < 4 {
          assert ls[i] == m[i];
        } else if 5 <= i < 15 {
          assert ls[i] == sh[i - 5];
        }
      }
    }
  }

  const DeclareMaterialKey := "MakeNamedMaterial "
  const UseMaterialKey := "NamedMaterial "

  /** Only the first material line declares a material, and none refers to one. */
  lemma MaterialDeclaredOnce(numStr: real -> string, name: string, color: Color, alpha: real)
    ensures var m := MaterialLines(numStr, name, color, alpha);
            && (forall i :: 0 <= i < |m| ==> (StartsWith(m[i], DeclareMaterialKey) <==> i == 0))
            && (forall i :: 0 <= i < |m| ==> !StartsWith(m[i], UseMaterialKey))
  {
    var m := MaterialLines(numStr, name, color, alpha);
    assert StartsWith(m[0], DeclareMaterialKey) by {
      assert m[0] == DeclareMaterialKey + Quoted(MaterialName(name));
    }
    assert !StartsWith(m[0], UseMaterialKey) by { DiffersAt(m[0], UseMaterialKey, 0); }
    forall i | 1 <= i < |m|
      ensures !StartsWith(m[i], DeclareMaterialKey) && !StartsWith(m[i], UseMaterialKey)
    {
      assert m[i][0] == ' ';
      DiffersAt(m[i], DeclareMaterialKey, 0);
      DiffersAt(m[i], UseMaterialKey, 0);
    }
  }

  /** Only the third shape line refers to a material, and none declares one. */
  lemma ShapeReferencesOnce(numStr: real -> string, name: string, mesh: Mesh)
    ensures var sh := ShapeLines(numStr, name, mesh);
            && (forall j :: 0 <= j < 10 ==> !StartsWith(sh[j], DeclareMaterialKey))
            && (forall j :: 0 <= j < 10 ==> (StartsWith(sh[j], UseMaterialKey) <==> j == 2))
  {
    var sh := ShapeLines(numStr, name, mesh);
    assert StartsWith(sh[2], UseMaterialKey) by {
      assert sh[2] == UseMaterialKey + Quoted(MaterialName(name));
    }
    forall j | 0 <= j < 10
      ensures !StartsWith(sh[j], DeclareMaterialKey)
      ensures j != 2 ==> !StartsWith(sh[j], UseMaterialKey)
    {
      assert sh[j][0] in {'A', 'T', 'N', 'S', ' '};
      DiffersAt(sh[j], DeclareMaterialKey, 0);
      if j != 2 {
        DiffersAt(sh[j], UseMaterialKey, 0);
      }
    }
  }

  /** Among the object's lines, only the first declares a material and only the shape
      block's third refers to one. */
  lemma ObjectMaterialOnce(numStr: real -> string, view: ViewObject, mesh: Mesh, color: Color, alpha: real)
    ensures var ls := ObjectLines(numStr, view, mesh, color, alpha);
            var o := Shift(alpha);
            && (forall i :: 0 <= i < |ls| ==> (StartsWith(ls[i], DeclareMaterialKey) <==> i == 0))
            && (forall i :: 0 <= i < |ls| ==> (StartsWith(ls[i], UseMaterialKey) <==> i == 7 + o))
  {
    var ls := ObjectLines(numStr, view, mesh, color, alpha);
    var m := MaterialLines(numStr, view.name, color, alpha);
    var sh := ShapeLines(numStr, view.name, mesh);
    MaterialDeclaredOnce(numStr, view.name, color, alpha);
    ShapeReferencesOnce(numStr, view.name, mesh);
    forall i | 0 <= i < |ls|
      ensures StartsWith(ls[i], DeclareMaterialKey) <==> i == 0
      ensures StartsWith(ls[i], UseMaterialKey) <==> i == 7 + Shift(alpha)
    {
      if i < |m| {
        assert ls[i] == m[i];
      } else if i == |m| {
        assert ls[i] == "";
      } else {
        assert ls[i] == sh[i - |m| - 1];
      }
    }
  }

  /** The same holds of the lines of the written text, whose last field is empty. */
  lemma TextMaterialOnce(numStr: real -> string, view: ViewObject, mesh: Mesh, color: Color, alpha: real)
    requires OneTokenNumbers(numStr) && '\n' !in view.name
    ensures var ls := Split(WriteObject(numStr, view, mesh, color, alpha), '\n');
            var o := Shift(alpha);
            && (forall i :: 0 <= i < |ls| ==> (StartsWith(ls[i], DeclareMaterialKey) <==> i == 0))
            && (forall i :: 0 <= i < |ls| ==> (StartsWith(ls[i], UseMaterialKey) <==> i == 7 + o))
  {
    ObjectTextLines(numStr, view, mesh, color, alpha);
    ObjectMaterialOnce(numStr, view, mesh, color, alpha);
    var obj := ObjectLines(numStr, view, mesh, color, alpha);
    var ls := obj + [""];
    forall i | 0 <= i < |ls|
      ensures StartsWith(ls[i], DeclareMaterialKey) <==> i == 0
      ensures StartsWith(ls[i], UseMaterialKey) <==> i == 7 + Shift(alpha)
    {
      if i < |obj| {
        assert ls[i] == obj[i];
      } else {
        assert ls[i] == "";
        assert |obj| == 15 + Shift(alpha);
      }
    }
  }

  /** Where the material's declaration and reference, and the object's name, sit among
      the lines of the written text. */
  lemma MaterialLinesPlaced(numStr: real -> string, view: ViewObject, mesh: Mesh, color: Color, alpha: real)
    requires OneTokenNumbers(numStr) && '\n' !in view.name
    ensures var ls := Split(WriteObject(numStr, view, mesh, color, alpha), '\n');
            var o := Shift(alpha);
            var mat := view.name + "_mat";
            && |ls| == 16 + o
            && ls[0] == "MakeNamedMaterial \"" + mat + "\""
            && ls[7 + o] == "NamedMaterial \"" + mat + "\""
            && ls[5 + o] == "AttributeBegin #  \"" + view.name + "\""
            && ls[13 + o] == "    \"string name\" [\"" + view.name + "\"]"
  {
    ObjectLayout(numStr, view, mesh, color, alpha);
    ObjectTextLines(numStr, view, mesh, color, alpha);
    var ls := Split(WriteObject(numStr, view, mesh, color, alpha), '\n');
    var o := Shift(alpha);
    var m := MaterialLines(numStr, view.name, color, alpha);
    var sh := ShapeLines(numStr, view.name, mesh);
    assert ls == m + [""] + sh + [""];
    assert ls[0] == m[0];
    assert ls[7 + o] == sh[2];
    assert ls[5 + o] == sh[0];
    assert ls[13 + o] == sh[8];
  }

  /** The material is declared under `name_mat` and the shape refers to that same name;
      no other line declares or refers to a material. The object's own name opens the
      block and names the shape. */
  lemma MaterialNameShared(numStr: real -> string, view: ViewObject, mesh: Mesh, color: Color, alpha: real)
    requires OneTokenNumbers(numStr) && '\n' !in view.name
    ensures var ls := Split(WriteObject(numStr, view, mesh, color, alpha), '\n');
            var o := Shift(alpha);
            var mat := view.name + "_mat";
            && |ls| == 16 + o
            && ls[0] == "MakeNamedMaterial \"" + mat + "\""
            && ls[7 + o] == "NamedMaterial \"" + mat + "\""
            && ls[5 + o] == "AttributeBegin #  \"" + view.name + "\""
            && ls[13 + o] == "    \"string name\" [\"" + view.name + "\"]"
            && (forall i :: 0 <= i < |ls| ==> (StartsWith(ls[i], DeclareMaterialKey) <==> i == 0))
            && (forall i :: 0 <= i < |ls| ==> (StartsWith(ls[i], UseMaterialKey) <==> i == 7 + o))
  {
    MaterialLinesPlaced(numStr, view, mesh, color, alpha);
    TextMaterialOnce(numStr, view, mesh, color, alpha);
  }

  /** Whatever the input, the sigma, type, transform and tangent lines are the same
      constants, at the same places relative to the optional transparency line. */
  lemma ObjectConstants(numStr: real -> string, view: ViewObject, mesh: Mesh, color: Color, alpha: real)
    requires OneTokenNumbers(numStr) && '\n' !in view.name
    ensures var ls := Split(WriteObject(numStr, view, mesh, color, alpha), '\n');
            var o := Shift(alpha);
            && |ls| == 16 + o
            && ls[2] == "    \"float sigma\" [0.2]"
            && ls[3] == "    \"string type\" [\"matte\"]"
            && ls[6 + o] == "Transform [1 0 0 0 0 1 0 0 0 0 1 0 0 0 0 1]"
            && ls[8 + o] == "Shape \"mesh\""
            && ls[12 + o] == "    \"bool generatetangents\" [\"false\"]"
  {
    ObjectLayout(numStr, view, mesh, color, alpha);
    ObjectTextLines(numStr, view, mesh, color, alpha);
    var ls := Split(WriteObject(numStr, view, mesh, color, alpha), '\n');
    var o := Shift(alpha);
    var m := MaterialLines(numStr, view.name, color, alpha);
    var sh := ShapeLines(numStr, view.name, mesh);
    assert ls == m + [""] + sh + [""];
    assert ls[2] == m[2] && ls[3] == m[3];
    assert ls[6 + o] == sh[1];
    assert ls[8 + o] == sh[3];
    assert ls[12 + o] == sh[7];
  }

  /** The colour line carries the three components in order, space separated, each
      one token. */
  lemma ObjectColor(numStr: real -> string, view: ViewObject, mesh: Mesh, color: Color, alpha: real)
    requires OneTokenNumbers(numStr) && '\n' !in view.name
    ensures var ls := Split(WriteObject(numStr, view, mesh, color, alpha), '\n');
            var rgb := [numStr(color.r), numStr(color.g), numStr(color.b)];
            && |ls| == 16 + Shift(alpha)
            && ls[1] == "    \"color Kd\" [" + Join(rgb, ' ') + "]"
            && Split(Join(rgb, ' '), ' ') == rgb
  {
    ObjectLayout(numStr, view, mesh, color, alpha);
    ObjectTextLines(numStr, view, mesh, color, alpha);
    var ls := Split(WriteObject(numStr, view, mesh, color, alpha), '\n');
    var m := MaterialLines(numStr, view.name, color, alpha);
    var sh := ShapeLines(numStr, view.name, mesh);
    assert ls == m + [""] + sh + [""];
    assert ls[1] == m[1];
    var v := Vec3(color.r, color.g, color.b);
    var rgb := VecTokens(numStr, v);
    VecTextIsJoin(numStr, v);
    assert Free(rgb, ' ') by {
      forall i | 0 <= i < |rgb| ensures ' ' !in rgb[i] {
      }
    }
    SplitJoin(rgb, ' ');
  }

  /** The index, point and normal arrays hold three tokens per input element, each
      followed by a space, in input order; the indices read back as the very triangles
      given. */
  lemma ObjectArrays(numStr: real -> string, view: ViewObject, mesh: Mesh, color: Color, alpha: real)
    requires OneTokenNumbers(numStr) && '\n' !in view.name
    ensures var ls := Split(WriteObject(numStr, view, mesh, color, alpha), '\n');
            var o := Shift(alpha);
            && |ls| == 16 + o
            && ls[9 + o] == "    \"integer triindices\" [" + TriRun(mesh.facets) + "]"
            && ls[10 + o] == "    \"point P\" [" + VecRun(numStr, mesh.points) + "]"
            && ls[11 + o] == "    \"normal N\" [" + VecRun(numStr, mesh.normals) + "]"
            && Split(TriRun(mesh.facets), ' ') == Indices(mesh.facets) + [""]
            && Split(VecRun(numStr, mesh.points), ' ') == Coordinates(numStr, mesh.points) + [""]
            && Split(VecRun(numStr, mesh.normals), ' ') == Coordinates(numStr, mesh.normals) + [""]
            && ReadTris(Indices(mesh.facets)) == mesh.facets
  {
    ObjectLayout(numStr, view, mesh, color, alpha);
    ObjectTextLines(numStr, view, mesh, color, alpha);
    var ls := Split(WriteObject(numStr, view, mesh, color, alpha), '\n');
    var o := Shift(alpha);
    var m := MaterialLines(numStr, view.name, color, alpha);
    var sh := ShapeLines(numStr, view.name, mesh);
    assert ls == m + [""] + sh + [""];
    assert ls[9 + o] == sh[4];
    assert ls[10 + o] == sh[5];
    assert ls[11 + o] == sh[6];
    TriRunSplit(mesh.facets);
    VecRunSplit(numStr, mesh.points);
    VecRunSplit(numStr, mesh.normals);
    IndicesRoundTrip(mesh.facets);
  }
}
