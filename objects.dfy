/**
 * The scene entities of object.h and the template/copy structure of
 * object.cpp: vertexes, faces and pixel-grid vertexes, the reserved index 0,
 * copy(), and the line classification of processFile over already tokenised
 * lines.
 *
 * An Object is a value here: the renderer keeps Objects by value in std::map
 * and copy() returns one, so no two names ever share an Object.
 */
module Objects {

  datatype Result<T> = Success(value: T) | Failure(error: string)

  /** vertex_t: a point in world or NDC space. */
  datatype Vertex = Vertex(x: real, y: real, z: real)

  /** face_t: three 1-based indexes into an Object's vertexes (and pixels). */
  datatype Face = Face(v1: int, v2: int, v3: int)

  /** grid_vertex_t: a cell of the pixel grid, column x and row y. */
  datatype Pixel = Pixel(x: int, y: int)

  datatype Object = Object(name: string, vertexes: seq<Vertex>, faces: seq<Face>, pixels: seq<Pixel>)

  function InitVertex(a: real, b: real, c: real): (v: Vertex)
    ensures v.x == a && v.y == b && v.z == c
  {
    Vertex(a, b, c)
  }

  function InitFace(a: int, b: int, c: int): (f: Face)
    ensures f.v1 == a && f.v2 == b && f.v3 == c
  {
    Face(a, b, c)
  }

  function InitGridVertex(a: int, b: int): (p: Pixel)
    ensures p.x == a && p.y == b
  {
    Pixel(a, b)
  }

  /** The placeholder that occupies index 0 of vertexes and of pixels. */
  const ReservedVertex: Vertex := Vertex(0.0, 0.0, 0.0)
  const ReservedPixel: Pixel := Pixel(0, 0)

  /** Object::init: pushes the reserved vertex and the reserved pixel. */
  function Init(o: Object): (r: Object)
    ensures r.vertexes == o.vertexes + [ReservedVertex] && r.pixels == o.pixels + [ReservedPixel]
    ensures r.name == o.name && r.faces == o.faces
  {
    o.(vertexes := o.vertexes + [ReservedVertex], pixels := o.pixels + [ReservedPixel])
  }

  /** Object(): an unnamed object holding only the reserved entries. */
  function NewObject(): (o: Object)
    ensures o.name == "" && o.vertexes == [ReservedVertex] && o.faces == [] && o.pixels == [ReservedPixel]
  {
    Init(Object("", [], [], []))
  }

  /** An object whose index 0 is reserved in both vertexes and pixels. */
  predicate Reserved(o: Object) {
    |o.vertexes| >= 1 && o.vertexes[0] == ReservedVertex && |o.pixels| >= 1 && o.pixels[0] == ReservedPixel
  }

  /** Every face index names an existing vertex other than the reserved one. */
  predicate FacesAddressVertexes(o: Object) {
    forall i | 0 <= i < |o.faces| ::
      var f := o.faces[i];
      0 < f.v1 < |o.vertexes| && 0 < f.v2 < |o.vertexes| && 0 < f.v3 < |o.vertexes|
  }

  /** Every face index names an existing pixel. */
  predicate FacesAddressPixels(o: Object) {
    forall i | 0 <= i < |o.faces| ::
      var f := o.faces[i];
      0 <= f.v1 < |o.pixels| && 0 <= f.v2 < |o.pixels| && 0 <= f.v3 < |o.pixels|
  }

  /**
   * copy(): a default-constructed Object whose name, vertexes and faces are
   * overwritten with the source's, so its pixels are only the reserved one.
   */
  function Copy(o: Object): (c: Object)
    ensures c.name == o.name && c.vertexes == o.vertexes && c.faces == o.faces
    ensures c.pixels == [ReservedPixel]
  {
    var blank := NewObject();
    blank.(name := o.name, vertexes := o.vertexes, faces := o.faces)
  }

  /** A copy of an object with a reserved vertex is reserved again, whatever the source's pixels. */
  lemma CopyIsReserved(o: Object)
    requires |o.vertexes| >= 1 && o.vertexes[0] == ReservedVertex
    ensures Reserved(Copy(o))
    ensures FacesAddressVertexes(o) ==> FacesAddressVertexes(Copy(o))
  {
  }

  /** t occurs in s starting at index i. */
  predicate OccursAt(s: string, t: string, i: nat) {
    i + |t| <= |s| && s[i..i + |t|] == t
  }

  /** std::string::find(t) != npos: t occurs somewhere in s. */
  predicate Contains(s: string, t: string) {
    exists i | 0 <= i <= |s| - |t| :: OccursAt(s, t, i)
  }

  /** The part of s before its first '.', all of s when it has none. */
  function BeforeFirstDot(s: string): (r: string)
    ensures r <= s && '.' !in r
    ensures |r| < |s| ==> s[|r|] == '.'
  {
    if s == [] || s[0] == '.' then [] else [s[0]] + BeforeFirstDot(s[1..])
  }

  /** A name containing ".obj" has a dot, so erasing from the first dot is defined and shortens it. */
  lemma {:induction false} DotNameIsShorter(s: string)
    requires Contains(s, ".obj")
    ensures |BeforeFirstDot(s)| < |s|
  {
    var i :| 0 <= i <= |s| - 4 && OccursAt(s, ".obj", i);
    assert s[i] == s[i..i + 4][0] == '.';
    var r := BeforeFirstDot(s);
    assert forall k | 0 <= k < |r| :: r[k] == s[k] && r[k] != '.';
    assert |r| <= i;
  }

  /** ".obj" is tested as a substring, so it need not be the extension. */
  lemma DotObjIsSubstringTest()
    ensures Contains("box.obj.bak", ".obj")
    ensures !Contains("obj", ".obj")
    ensures BeforeFirstDot("box.obj.bak") == "box"
  {
    assert OccursAt("box.obj.bak", ".obj", 3);
  }

  /** element[0][0]: std::string gives '\0' at index size(), so an empty first token reads as '\0'. */
  function FirstChar(s: string): (c: char)
    ensures |s| > 0 ==> c == s[0]
    ensures |s| == 0 ==> c == '\0'
    ensures c != '\0' ==> |s| > 0 && s[0] == c
  {
    if |s| > 0 then s[0] else '\0'
  }

  /** A tokenised line of an .obj file: at least the tag and three numbers. */
  predicate WellFormedLine(tokens: seq<string>) {
    |tokens| >= 4
  }

  predicate IsVertexLine(tokens: seq<string>) {
    |tokens| >= 1 && FirstChar(tokens[0]) == 'v'
  }

  /** The vertexes that the 'v' lines denote, in file order; stod is the string-to-double conversion. */
  function VertexesOf(lines: seq<seq<string>>, stod: string -> real): seq<Vertex>
    requires forall i | 0 <= i < |lines| :: WellFormedLine(lines[i])
  {
    if lines == [] then []
    else
      var l := lines[|lines| - 1];
      assert WellFormedLine(l);
      VertexesOf(lines[..|lines| - 1], stod)
        + (if IsVertexLine(l) then [InitVertex(stod(l[1]), stod(l[2]), stod(l[3]))] else [])
  }

  /** The faces that all other lines denote, in file order; stoi is the string-to-int conversion. */
  function FacesOf(lines: seq<seq<string>>, stoi: string -> int): seq<Face>
    requires forall i | 0 <= i < |lines| :: WellFormedLine(lines[i])
  {
    if lines == [] then []
    else
      var l := lines[|lines| - 1];
      assert WellFormedLine(l);
      FacesOf(lines[..|lines| - 1], stoi)
        + (if IsVertexLine(l) then [] else [InitFace(stoi(l[1]), stoi(l[2]), stoi(l[3]))])
  }

  /** The number of 'v' lines. */
  function CountVertexLines(lines: seq<seq<string>>): nat
  {
    if lines == [] then 0
    else CountVertexLines(lines[..|lines| - 1]) + (if IsVertexLine(lines[|lines| - 1]) then 1 else 0)
  }

  /** Every line contributes exactly one entry: a vertex if it is tagged 'v', a face otherwise. */
  lemma {:induction false} EveryLineCounts(lines: seq<seq<string>>, stod: string -> real, stoi: string -> int)
    requires forall i | 0 <= i < |lines| :: WellFormedLine(lines[i])
    ensures |VertexesOf(lines, stod)| == CountVertexLines(lines)
    ensures |VertexesOf(lines, stod)| + |FacesOf(lines, stoi)| == |lines|
  {
    if lines != [] {
      EveryLineCounts(lines[..|lines| - 1], stod, stoi);
    }
  }

  /**
   * File order is kept: the vertex of the j-th line, when that line is a 'v'
   * line, is the vertex with 1-based index CountVertexLines(lines[..j + 1]),
   * which is what a face line refers to.
   */
  lemma {:induction false} VertexLinePosition(lines: seq<seq<string>>, stod: string -> real, j: nat)
    requires forall i | 0 <= i < |lines| :: WellFormedLine(lines[i])
    requires j < |lines| && IsVertexLine(lines[j])
    ensures var vs := VertexesOf(lines, stod); var n := CountVertexLines(lines[..j + 1]);
      1 <= n <= |vs| && vs[n - 1] == InitVertex(stod(lines[j][1]), stod(lines[j][2]), stod(lines[j][3]))
  {
    var init := lines[..|lines| - 1];
    EveryLineCounts(lines, stod, x => 0);
    EveryLineCounts(lines[..j + 1], stod, x => 0);
    if j == |lines| - 1 {
      assert lines[..j + 1] == lines;
      EveryLineCounts(init, stod, x => 0);
    } else {
      assert lines[..j + 1] == init[..j + 1];
      VertexLinePosition(init, stod, j);
      EveryLineCounts(init[..j + 1], stod, x => 0);
      EveryLineCounts(init, stod, x => 0);
      CountPrefixBound(init, j + 1);
    }
  }

  /** A prefix has no more 'v' lines than the whole. */
  lemma {:induction false} CountPrefixBound(lines: seq<seq<string>>, k: nat)
    requires k <= |lines|
    ensures CountVertexLines(lines[..k]) <= CountVertexLines(lines)
    decreases |lines|
  {
    if k < |lines| {
      assert lines[..|lines| - 1][..k] == lines[..k];
      CountPrefixBound(lines[..|lines| - 1], k);
    } else {
      assert lines[..k] == lines;
    }
  }

  /**
   * processFile over the already tokenised lines of the file: rejects a file
   * name without ".obj", names an unnamed object after the file name up to
   * its first '.', then appends one vertex per 'v' line and one face per
   * other line, in file order.
   */
  method ProcessFile(o: Object, filename: string, lines: seq<seq<string>>, stod: string -> real, stoi: string -> int)
    returns (r: Result<Object>)
    requires forall i | 0 <= i < |lines| :: WellFormedLine(lines[i])
    ensures !Contains(filename, ".obj") <==> r.Failure?
    ensures r.Success? ==>
      && r.value.name == (if o.name == "" then BeforeFirstDot(filename) else o.name)
      && r.value.vertexes == o.vertexes + VertexesOf(lines, stod)
      && r.value.faces == o.faces + FacesOf(lines, stoi)
      && r.value.pixels == o.pixels
  {
    if !Contains(filename, ".obj") {
      return Failure("File " + filename + " needs to be a .obj file.");
    }
    var name := o.name;
    if |name| == 0 {
      DotNameIsShorter(filename);
      name := BeforeFirstDot(filename);
    }
    var vertexes, faces := o.vertexes, o.faces;
    for k := 0 to |lines|
      invariant vertexes == o.vertexes + VertexesOf(lines[..k], stod)
      invariant faces == o.faces + FacesOf(lines[..k], stoi)
    {
      var element := lines[k];
      assert lines[..k + 1][..k] == lines[..k];
      if FirstChar(element[0]) == 'v' {
        vertexes := vertexes + [InitVertex(stod(element[1]), stod(element[2]), stod(element[3]))];
      } else {
        faces := faces + [InitFace(stoi(element[1]), stoi(element[2]), stoi(element[3]))];
      }
    }
    assert lines[..|lines|] == lines;
    return Success(Object(name, vertexes, faces, o.pixels));
  }

  /**
   * Object(filename): the reserved entries, then processFile. Vertex i >= 1
   * of the result is the i-th 'v' line of the file.
   */
  method LoadObject(filename: string, lines: seq<seq<string>>, stod: string -> real, stoi: string -> int)
    returns (r: Result<Object>)
    requires forall i | 0 <= i < |lines| :: WellFormedLine(lines[i])
    ensures !Contains(filename, ".obj") <==> r.Failure?
    ensures r.Success? ==>
      && Reserved(r.value)
      && r.value.name == BeforeFirstDot(filename) && '.' !in r.value.name
      && r.value.vertexes[1..] == VertexesOf(lines, stod)
      && |r.value.vertexes| == CountVertexLines(lines) + 1
      && r.value.faces == FacesOf(lines, stoi)
      && r.value.pixels == [ReservedPixel]
  {
    r := ProcessFile(NewObject(), filename, lines, stod, stoi);
    EveryLineCounts(lines, stod, stoi);
  }
}
