/**
 * The Wireframe scene (wireframe.h) and the parts of wireframe.cpp that copy
 * and transform objects, map them to the pixel grid and draw their faces:
 * saveTransformedCopy, the transform blocks of processFormatFile,
 * applyTransforms, plotPoint, bresenhamRasterize and plot.
 */
module Wireframe {
  import opened Decimal
  import opened Transformation
  import opened Objects
  import opened Raster

  /** perspective_t: the frustum parameters of the format file. */
  datatype Perspective = Perspective(near: real, far: real, left: real, right: real, top: real, bottom: real)

  /** One block of transformation lines: the object's name line, then its transformation lines. */
  datatype TransformBlock = TransformBlock(objectName: string, lines: seq<seq<string>>)

  /*
   * Copy names.
   */

  /** objectName + "_copy" + to_string(n). */
  function CopyName(objectName: string, n: nat): string
  {
    objectName + "_copy" + NatToString(n)
  }

  /** A copy name is the object's name, then "_copy", then digits that denote the copy number. */
  lemma CopyNameParts(objectName: string, n: nat)
    ensures var name := CopyName(objectName, n);
      && |name| == |objectName| + 5 + |NatToString(n)|
      && name[..|objectName|] == objectName && name[|objectName|..|objectName| + 5] == "_copy"
      && IsDigits(name[|objectName| + 5..]) && DecimalValue(name[|objectName| + 5..]) == n
  {
    var name := CopyName(objectName, n);
    assert name[|objectName| + 5..] == NatToString(n);
    NatToStringValue(n);
  }

  lemma CopyNameInjective(objectName: string, a: nat, b: nat)
    requires CopyName(objectName, a) == CopyName(objectName, b)
    ensures a == b
  {
    var s, t := CopyName(objectName, a), CopyName(objectName, b);
    var p := |objectName + "_copy"|;
    assert s[p..] == NatToString(a);
    assert t[p..] == NatToString(b);
    NatToStringInjective(a, b);
  }

  /** The names of copies 1 to n. */
  function CopyNames(objectName: string, n: nat): set<string>
  {
    if n == 0 then {} else CopyNames(objectName, n - 1) + {CopyName(objectName, n)}
  }

  lemma {:induction false} CopyNamesHas(objectName: string, n: nat, j: nat)
    requires 1 <= j <= n
    ensures CopyName(objectName, j) in CopyNames(objectName, n)
  {
    if j < n {
      CopyNamesHas(objectName, n - 1, j);
    }
  }

  lemma {:induction false} CopyNamesLack(objectName: string, n: nat, m: nat)
    requires m > n
    ensures CopyName(objectName, m) !in CopyNames(objectName, n)
  {
    if n > 0 {
      CopyNamesLack(objectName, n - 1, m);
      if CopyName(objectName, m) == CopyName(objectName, n) {
        CopyNameInjective(objectName, m, n);
      }
    }
  }

  lemma {:induction false} CopyNamesCard(objectName: string, n: nat)
    ensures |CopyNames(objectName, n)| == n
  {
    if n > 0 {
      CopyNamesCard(objectName, n - 1);
      CopyNamesLack(objectName, n - 1, n);
    }
  }

  lemma {:induction false} SubsetCard<T>(a: set<T>, b: set<T>)
    requires a <= b
    ensures |a| <= |b|
    decreases |a|
  {
    if a != {} {
      var x :| x in a;
      SubsetCard(a - {x}, b - {x});
    }
  }

  /** The copy number the search loop settles on when it has checked 1 to k - 1. */
  function FreeFrom(keys: set<string>, objectName: string, k: nat): (n: nat)
    requires k >= 1 && CopyNames(objectName, k - 1) <= keys
    ensures n >= k && CopyName(objectName, n) !in keys
    ensures forall j | 1 <= j < n :: CopyName(objectName, j) in keys
    decreases |keys| - (k - 1)
  {
    CopyNamesCard(objectName, k - 1);
    SubsetCard(CopyNames(objectName, k - 1), keys);
    forall j | 1 <= j < k
      ensures CopyName(objectName, j) in keys
    {
      CopyNamesHas(objectName, k - 1, j);
    }
    if CopyName(objectName, k) !in keys then k
    else
      CopyNamesCard(objectName, k);
      SubsetCard(CopyNames(objectName, k), keys);
      FreeFrom(keys, objectName, k + 1)
  }

  /** The least n >= 1 whose copy name is not yet taken. */
  function FreeCopyNumber(keys: set<string>, objectName: string): (n: nat)
    ensures n >= 1 && CopyName(objectName, n) !in keys
    ensures forall j | 1 <= j < n :: CopyName(objectName, j) in keys
  {
    FreeFrom(keys, objectName, 1)
  }

  /*
   * Vertex transformation.
   */

  function PointOf(v: Vertex): Vec4
  {
    Point(v.x, v.y, v.z)
  }

  /** The homogeneous image of v under m has a non-zero w. */
  predicate Projectable(m: Matrix4, v: Vertex) {
    Apply(m, PointOf(v)).w != 0.0
  }

  /** m applied to (x, y, z, 1), then divided by w. */
  function TransformVertex(m: Matrix4, v: Vertex): Vertex
    requires Projectable(m, v)
  {
    var r := Apply(m, PointOf(v));
    Vertex(r.x / r.w, r.y / r.w, r.z / r.w)
  }

  predicate AllProjectable(m: Matrix4, vs: seq<Vertex>) {
    forall i | 1 <= i < |vs| :: Projectable(m, vs[i])
  }

  /** The vertexes with every one but the reserved vertex 0 transformed. */
  function TransformVertexes(m: Matrix4, vs: seq<Vertex>): (r: seq<Vertex>)
    requires AllProjectable(m, vs)
    ensures |r| == |vs| && (|vs| > 0 ==> r[0] == vs[0])
    ensures forall i | 1 <= i < |vs| :: r[i] == TransformVertex(m, vs[i])
  {
    seq(|vs|, i requires 0 <= i < |vs| => if i == 0 then vs[0] else TransformVertex(m, vs[i]))
  }

  /** A matrix whose last row is (0, 0, 0, 1) keeps w == 1, so nothing is divided. */
  lemma AffineKeepsW(m: Matrix4, v: Vertex)
    requires m.r3 == Vec4(0.0, 0.0, 0.0, 1.0)
    ensures Apply(m, PointOf(v)).w == 1.0
    ensures TransformVertex(m, v) == Vertex(Dot(m.r0, PointOf(v)), Dot(m.r1, PointOf(v)), Dot(m.r2, PointOf(v)))
  {
  }

  lemma TimesPoint(k: real, q: Vec4)
    requires q.w != 0.0 && k == 1.0 / q.w
    ensures Times(k, q) == Point(q.x / q.w, q.y / q.w, q.z / q.w)
  {
  }

  /**
   * Transforming in two stages, each with its division by w, is transforming
   * once by the product: the division commutes with the second matrix.
   */
  lemma TransformTwice(a: Matrix4, b: Matrix4, v: Vertex)
    requires Projectable(b, v) && Projectable(a, TransformVertex(b, v))
    ensures Projectable(Mul(a, b), v)
    ensures TransformVertex(a, TransformVertex(b, v)) == TransformVertex(Mul(a, b), v)
  {
    var q := Apply(b, PointOf(v));
    var k := 1.0 / q.w;
    TimesPoint(k, q);
    assert PointOf(TransformVertex(b, v)) == Times(k, q);
    ApplyTimes(a, k, q);
    ApplyMul(a, b, PointOf(v));
    var r := Apply(a, q);
    assert Apply(a, Times(k, q)) == Times(k, r);
    assert r.w != 0.0;
    DivideScaled(k, r);
  }

  lemma ApplyTimes(m: Matrix4, k: real, q: Vec4)
    ensures Apply(m, Times(k, q)) == Times(k, Apply(m, q))
  {
    DotTimes(m.r0, k, q);
    DotTimes(m.r1, k, q);
    DotTimes(m.r2, k, q);
    DotTimes(m.r3, k, q);
  }

  lemma DotTimes(u: Vec4, k: real, q: Vec4)
    ensures Dot(u, Times(k, q)) == Dot(u, q) * k
  {
    calc {
      Dot(u, Times(k, q));
      u.x * (q.x * k) + u.y * (q.y * k) + u.z * (q.z * k) + u.w * (q.w * k);
      (u.x * q.x + u.y * q.y + u.z * q.z + u.w * q.w) * k;
    }
  }

  lemma DivideScaled(k: real, r: Vec4)
    requires k != 0.0 && r.w != 0.0
    ensures Times(k, r).w != 0.0
    ensures Times(k, r).x / Times(k, r).w == r.x / r.w
    ensures Times(k, r).y / Times(k, r).w == r.y / r.w
    ensures Times(k, r).z / Times(k, r).w == r.z / r.w
  {
    ProductNonZero(r.w, k);
    CancelScale(r.x, r.w, k);
    CancelScale(r.y, r.w, k);
    CancelScale(r.z, r.w, k);
  }

  lemma ProductNonZero(a: real, b: real)
    requires a != 0.0 && b != 0.0
    ensures a * b != 0.0
  {
  }

  lemma CancelScale(a: real, w: real, k: real)
    requires w != 0.0 && k != 0.0
    ensures w * k != 0.0 && (a * k) / (w * k) == a / w
  {
    ProductNonZero(w, k);
  }

  /** The copy saveTransformedCopy stores: copy() of the object, renamed, its vertexes transformed. */
  function TransformedCopy(o: Object, name: string, m: Matrix4): (c: Object)
    requires AllProjectable(m, o.vertexes)
    ensures c.name == name && c.faces == o.faces && c.pixels == [ReservedPixel]
    ensures c.vertexes == TransformVertexes(m, o.vertexes)
  {
    Copy(o).(name := name, vertexes := TransformVertexes(m, o.vertexes))
  }

  /** The name probe of saveTransformedCopy: objectName_copyN for the least N >= 1 not among keys. */
  method FreeCopyName(keys: set<string>, objectName: string) returns (nameAttempt: string)
    ensures nameAttempt == CopyName(objectName, FreeCopyNumber(keys, objectName))
  {
    var copyNumber := 1;
    nameAttempt := CopyName(objectName, copyNumber);
    ghost var tried: set<string> := {};
    CopyNamesCard(objectName, 0);
    while nameAttempt in keys
      invariant copyNumber >= 1 && nameAttempt == CopyName(objectName, copyNumber)
      invariant tried == CopyNames(objectName, copyNumber - 1) && tried <= keys
      decreases |keys| - |tried|
    {
      CopyNamesCard(objectName, copyNumber - 1);
      CopyNamesCard(objectName, copyNumber);
      SubsetCard(tried + {nameAttempt}, keys);
      tried := tried + {nameAttempt};
      copyNumber := copyNumber + 1;
      nameAttempt := CopyName(objectName, copyNumber);
    }
    FreeFromStart(keys, objectName, copyNumber);
  }

  /** The vertex loop of saveTransformedCopy: every vertex but the reserved vertex 0 is transformed and divided by w. */
  method TransformCopyVertexes(transformation: Matrix4, vertexes: seq<Vertex>) returns (vs: seq<Vertex>)
    requires AllProjectable(transformation, vertexes)
    ensures vs == TransformVertexes(transformation, vertexes)
  {
    vs := vertexes;
    var i := 1;
    while i < |vs|
      invariant 1 <= i && |vs| == |vertexes|
      invariant forall j | 0 <= j < |vs| :: vs[j] == if 1 <= j < i then TransformVertex(transformation, vertexes[j])
                                                    else vertexes[j]
    {
      var point := PointOf(vs[i]);
      var result := Apply(transformation, point);
      vs := vs[i := Vertex(result.x / result.w, result.y / result.w, result.z / result.w)];
      i := i + 1;
    }
  }

  /** copies after saveTransformedCopy(objects, copies, objectName, m). */
  function SaveCopy(copies: map<string, Object>, objects: map<string, Object>, objectName: string, m: Matrix4)
    : map<string, Object>
    requires objectName in objects && AllProjectable(m, objects[objectName].vertexes)
  {
    var name := CopyName(objectName, FreeCopyNumber(copies.Keys, objectName));
    copies[name := TransformedCopy(objects[objectName], name, m)]
  }

  predicate ValidBlock(objects: map<string, Object>, b: TransformBlock) {
    && b.objectName in objects && |b.lines| > 0
    && forall i | 0 <= i < |b.lines| :: WellFormedSpecLine(b.lines[i])
  }

  /** The matrix of a block: the fold of its classified lines. */
  function BlockMatrix(b: TransformBlock, num: Numerics): Matrix4
    requires |b.lines| > 0 && forall i | 0 <= i < |b.lines| :: WellFormedSpecLine(b.lines[i])
  {
    GrandProduct(SpecsOf(b.lines, num))
  }

  lemma BlockProjectable(objects: map<string, Object>, b: TransformBlock, num: Numerics)
    requires ValidBlock(objects, b)
    ensures AllProjectable(BlockMatrix(b, num), objects[b.objectName].vertexes)
  {
    forall v: Vertex
      ensures Projectable(BlockMatrix(b, num), v)
    {
      AffineKeepsW(BlockMatrix(b, num), v);
    }
  }

  /** copies after the transform blocks, each saved with the fold of its lines, in file order. */
  function SaveAll(copies: map<string, Object>, objects: map<string, Object>, blocks: seq<TransformBlock>,
                   num: Numerics): map<string, Object>
    requires forall i | 0 <= i < |blocks| :: ValidBlock(objects, blocks[i])
  {
    if blocks == [] then copies
    else
      var last := blocks[|blocks| - 1];
      BlockProjectable(objects, last, num);
      SaveCopy(SaveAll(copies, objects, blocks[..|blocks| - 1], num), objects, last.objectName, BlockMatrix(last, num))
  }

  /** Every block adds one new copy and no existing copy changes. */
  lemma {:induction false} SaveAllAddsOnePerBlock(copies: map<string, Object>, objects: map<string, Object>,
                                                  blocks: seq<TransformBlock>, num: Numerics)
    requires forall i | 0 <= i < |blocks| :: ValidBlock(objects, blocks[i])
    ensures var r := SaveAll(copies, objects, blocks, num);
      |r.Keys| == |copies.Keys| + |blocks| && forall k | k in copies :: k in r && r[k] == copies[k]
  {
    if blocks != [] {
      var init := blocks[..|blocks| - 1];
      SaveAllAddsOnePerBlock(copies, objects, init, num);
      var prev := SaveAll(copies, objects, init, num);
      var last := blocks[|blocks| - 1];
      var name := CopyName(last.objectName, FreeCopyNumber(prev.Keys, last.objectName));
      assert SaveAll(copies, objects, blocks, num).Keys == prev.Keys + {name};
    }
  }

  /*
   * The NDC-to-grid mapping of applyTransforms.
   */

  /** The unrounded grid coordinates of an NDC vertex, x first. */
  function GridCoords(v: Vertex, p: Perspective, xres: int, yres: int): (real, real)
    requires p.right != p.left && p.top != p.bottom
  {
    (0.5 * (xres as real) * ((v.x - p.left) / (p.right - p.left) + 0.5),
     0.5 * (yres as real) * ((p.top - v.y) / (p.top - p.bottom) + 0.5))
  }

  /** The grid cell of an NDC vertex; round is the rounding function of <cmath>. */
  function GridPixel(v: Vertex, p: Perspective, xres: int, yres: int, round: real -> int): Pixel
    requires p.right != p.left && p.top != p.bottom
  {
    var (gx, gy) := GridCoords(v, p, xres, yres);
    InitGridVertex(round(gx), round(gy))
  }

  /**
   * The mapping at the edges of the view volume: left and top go to a
   * quarter of the resolution, right and bottom to three quarters.
   */
  lemma GridCoordsEdges(p: Perspective, xres: int, yres: int, z: real)
    requires p.right != p.left && p.top != p.bottom
    ensures GridCoords(Vertex(p.left, p.top, z), p, xres, yres) == (0.25 * (xres as real), 0.25 * (yres as real))
    ensures GridCoords(Vertex(p.right, p.bottom, z), p, xres, yres) == (0.75 * (xres as real), 0.75 * (yres as real))
  {
    var xr, yr, dx, dy := xres as real, yres as real, p.right - p.left, p.top - p.bottom;
    DivSelf(dx);
    DivSelf(dy);
    var lt := GridCoords(Vertex(p.left, p.top, z), p, xres, yres);
    assert lt.0 == 0.25 * xr && lt.1 == 0.25 * yr;
    var rb := GridCoords(Vertex(p.right, p.bottom, z), p, xres, yres);
    assert rb.0 == 0.75 * xr && rb.1 == 0.75 * yr;
  }

  lemma DivSelf(d: real)
    requires d != 0.0
    ensures d / d == 1.0
  {
  }

  function GridPixels(vs: seq<Vertex>, p: Perspective, xres: int, yres: int, round: real -> int): (r: seq<Pixel>)
    requires p.right != p.left && p.top != p.bottom
    ensures |r| == |vs|
    ensures forall i | 0 <= i < |vs| :: r[i] == GridPixel(vs[i], p, xres, yres, round)
  {
    seq(|vs|, i requires 0 <= i < |vs| => GridPixel(vs[i], p, xres, yres, round))
  }

  lemma GridPixelsSnoc(vs: seq<Vertex>, i: nat, p: Perspective, xres: int, yres: int, round: real -> int)
    requires p.right != p.left && p.top != p.bottom && 1 <= i < |vs|
    ensures GridPixels(vs[1..i + 1], p, xres, yres, round)
            == GridPixels(vs[1..i], p, xres, yres, round) + [GridPixel(vs[i], p, xres, yres, round)]
  {
  }

  /** A copy after applyTransforms: vertexes in NDC, one grid pixel appended per vertex after the reserved one. */
  function ToGrid(o: Object, m: Matrix4, p: Perspective, xres: int, yres: int, round: real -> int): (r: Object)
    requires AllProjectable(m, o.vertexes) && p.right != p.left && p.top != p.bottom
    ensures r.name == o.name && r.faces == o.faces
    ensures r.vertexes == TransformVertexes(m, o.vertexes)
  {
    var vs := TransformVertexes(m, o.vertexes);
    o.(vertexes := vs, pixels := o.pixels + GridPixels(if |vs| == 0 then [] else vs[1..], p, xres, yres, round))
  }

  /**
   * A fresh copy (only the reserved pixel) leaves applyTransforms with one
   * pixel per vertex, so the face indexes into vertexes also index pixels,
   * pixel i being the cell of vertex i.
   */
  lemma ToGridAligns(o: Object, m: Matrix4, p: Perspective, xres: int, yres: int, round: real -> int)
    requires AllProjectable(m, o.vertexes) && p.right != p.left && p.top != p.bottom
    requires o.pixels == [ReservedPixel] && |o.vertexes| >= 1
    ensures var r := ToGrid(o, m, p, xres, yres, round);
      && |r.pixels| == |r.vertexes|
      && r.pixels[0] == ReservedPixel
      && (forall i | 1 <= i < |r.vertexes| :: r.pixels[i] == GridPixel(r.vertexes[i], p, xres, yres, round))
      && (FacesAddressVertexes(o) ==> FacesAddressPixels(r))
  {
    var vs := TransformVertexes(m, o.vertexes);
    var gs := GridPixels(vs[1..], p, xres, yres, round);
    var r := ToGrid(o, m, p, xres, yres, round);
    assert r.pixels == [ReservedPixel] + gs && r.faces == o.faces;
    forall i | 1 <= i < |r.vertexes|
      ensures r.pixels[i] == GridPixel(r.vertexes[i], p, xres, yres, round)
    {
      assert r.pixels[i] == gs[i - 1] && vs[1..][i - 1] == vs[i];
    }
  }

  /*
   * Drawing.
   */

  /** bresenhamRasterize as a function of the two endpoints. */
  function LineDraw(xres: int, yres: int, antialias: bool): (Pixel, Pixel) -> seq<Plot>
  {
    (a: Pixel, b: Pixel) => LineWrites(xres, yres, a, b, antialias)
  }

  /** The writes of drawing the polyline ps with draw, segment by segment, from its first point to its last. */
  function PathWrites(draw: (Pixel, Pixel) -> seq<Plot>, ps: seq<Pixel>): seq<Plot>
  {
    if |ps| < 2 then []
    else PathWrites(draw, ps[..|ps| - 1]) + draw(ps[|ps| - 2], ps[|ps| - 1])
  }

  /** A face is drawn as the closed outline through its three pixels. */
  function FaceWrites(xres: int, yres: int, o: Object, face: Face, antialias: bool): seq<Plot>
    requires 0 <= face.v1 < |o.pixels| && 0 <= face.v2 < |o.pixels| && 0 <= face.v3 < |o.pixels|
  {
    PathWrites(LineDraw(xres, yres, antialias),
               [o.pixels[face.v1], o.pixels[face.v2], o.pixels[face.v3], o.pixels[face.v1]])
  }

  /** The outline of a triangle is its three edges v1-v2, v2-v3, v3-v1, in that order. */
  lemma TriangleEdges(draw: (Pixel, Pixel) -> seq<Plot>, v1: Pixel, v2: Pixel, v3: Pixel)
    ensures PathWrites(draw, [v1, v2, v3, v1]) == draw(v1, v2) + draw(v2, v3) + draw(v3, v1)
  {
    assert [v1, v2][..1] == [v1];
    assert PathWrites(draw, [v1, v2]) == draw(v1, v2);
    assert [v1, v2, v3][..2] == [v1, v2];
    assert [v1, v2, v3, v1][..3] == [v1, v2, v3];
  }

  /** No write of a polyline drawn by bresenhamRasterize has a shade outside [0, 1]. */
  lemma {:induction false} PathShadesInUnit(xres: int, yres: int, ps: seq<Pixel>, antialias: bool)
    ensures ShadesInUnit(PathWrites(LineDraw(xres, yres, antialias), ps))
  {
    if |ps| >= 2 {
      PathShadesInUnit(xres, yres, ps[..|ps| - 1], antialias);
      LineShadesInUnit(xres, yres, ps[|ps| - 2], ps[|ps| - 1], antialias);
    }
  }

  /** The writes of the first n faces of o. */
  function FacesWrites(xres: int, yres: int, o: Object, n: nat, antialias: bool): seq<Plot>
    requires FacesAddressPixels(o) && n <= |o.faces|
  {
    if n == 0 then []
    else FacesWrites(xres, yres, o, n - 1, antialias) + FaceWrites(xres, yres, o, o.faces[n - 1], antialias)
  }

  predicate AllFacesAddressPixels(copies: map<string, Object>) {
    forall k | k in copies :: FacesAddressPixels(copies[k])
  }

  /** The writes of plot: every face of every copy, copies in the order keys gives. */
  function SceneWrites(xres: int, yres: int, copies: map<string, Object>, keys: seq<string>, antialias: bool)
    : seq<Plot>
    requires AllFacesAddressPixels(copies)
    requires forall i | 0 <= i < |keys| :: keys[i] in copies
  {
    if keys == [] then []
    else
      var o := copies[keys[|keys| - 1]];
      SceneWrites(xres, yres, copies, keys[..|keys| - 1], antialias) + FacesWrites(xres, yres, o, |o.faces|, antialias)
  }

  /** No write of a scene has a shade outside [0, 1]. */
  lemma {:induction false} SceneShadesInUnit(xres: int, yres: int, copies: map<string, Object>, keys: seq<string>,
                                             antialias: bool)
    requires AllFacesAddressPixels(copies)
    requires forall i | 0 <= i < |keys| :: keys[i] in copies
    ensures ShadesInUnit(SceneWrites(xres, yres, copies, keys, antialias))
  {
    if keys != [] {
      SceneShadesInUnit(xres, yres, copies, keys[..|keys| - 1], antialias);
      var o := copies[keys[|keys| - 1]];
      FacesShadesInUnit(xres, yres, o, |o.faces|, antialias);
    }
  }

  /** Every cell of the grid plot leaves holds a shade in [0, 1], the range wireframe.h documents for it. */
  lemma SceneCellsInUnit(xres: int, yres: int, copies: map<string, Object>, keys: seq<string>, antialias: bool,
                         c: Pixel)
    requires AllFacesAddressPixels(copies)
    requires forall i | 0 <= i < |keys| :: keys[i] in copies
    ensures 0.0 <= Shade(SceneWrites(xres, yres, copies, keys, antialias), c, 0.0) <= 1.0
  {
    SceneShadesInUnit(xres, yres, copies, keys, antialias);
    ShadeInUnit(SceneWrites(xres, yres, copies, keys, antialias), c, 0.0);
  }

  lemma {:induction false} FacesShadesInUnit(xres: int, yres: int, o: Object, n: nat, antialias: bool)
    requires FacesAddressPixels(o) && n <= |o.faces|
    ensures ShadesInUnit(FacesWrites(xres, yres, o, n, antialias))
  {
    if n > 0 {
      FacesShadesInUnit(xres, yres, o, n - 1, antialias);
      var face := o.faces[n - 1];
      PathShadesInUnit(xres, yres, [o.pixels[face.v1], o.pixels[face.v2], o.pixels[face.v3], o.pixels[face.v1]],
                       antialias);
    }
  }

  /** std::string's operator<: lexicographic by character. */
  predicate StringLess(a: string, b: string)
  {
    if a == [] then b != []
    else if b == [] then false
    else if a[0] != b[0] then a[0] < b[0]
    else StringLess(a[1..], b[1..])
  }

  /** keys lists the copies in std::map's iteration order: ascending, each once. */
  predicate IterationOrder(keys: seq<string>, copies: map<string, Object>) {
    && (forall i | 0 <= i < |keys| :: keys[i] in copies)
    && (forall k | k in copies :: k in keys)
    && (forall i, j | 0 <= i < j < |keys| :: StringLess(keys[i], keys[j]))
  }

  /** The grid as rows of values. */
  function Snapshot(g: array2<real>): (s: seq<seq<real>>)
    reads g
    ensures |s| == g.Length0 && forall y | 0 <= y < |s| :: |s[y]| == g.Length1
    ensures forall y, x | 0 <= y < g.Length0 && 0 <= x < g.Length1 :: s[y][x] == g[y, x]
  {
    seq(g.Length0, y requires 0 <= y < g.Length0 reads g =>
      seq(g.Length1, x requires 0 <= x < g.Length1 reads g => g[y, x]))
  }

  /**
   * The set-up of bresenhamRasterize: orders the endpoints by x, reflects a
   * negative slope over y = lower.y and chooses the iterated axis, the base
   * axis and their extents.
   */
  method Orientation(v1: Pixel, v2: Pixel)
    returns (lower: Pixel, negativeSlope: bool, slope: real, inverseSlope: real,
             base: int, dBase: int, incrLow: int, incrUp: int, dIncr: int, iterateOverX: bool)
    ensures var f := Orient(v1, v2);
      && f.lower == lower && f.negative == negativeSlope && f.steep == !iterateOverX
      && f.base0 == base && f.dBase == dBase && f.incrLow == incrLow && f.incrUp == incrUp && f.dIncr == dIncr
      && (iterateOverX ==> slope == Intensity(f)) && (!iterateOverX ==> inverseSlope == Intensity(f))
  {
    var upper;
    lower, upper := v1, v2;
    if !(v1.x < v2.x) {
      lower, upper := v2, v1;
    }

    var dx := upper.x - lower.x;
    var dy := upper.y - lower.y;

    negativeSlope := false;
    SlopeIsNegativeIff(dx, dy);
    if SlopeIsNegative(dx, dy) {
      negativeSlope := true;
      upper := upper.(y := 2 * lower.y - upper.y);
      dy := -dy;
    }
    // slope and 1/slope after the reflection; 1/slope is 0 for a vertical segment (1/inf)
    slope := if dx == 0 then 0.0 else (dy as real) / (dx as real);
    inverseSlope := if dy == 0 then 0.0 else (dx as real) / (dy as real);

    base, dBase := lower.y, dy;
    incrLow, incrUp, dIncr := lower.x, upper.x, dx;
    iterateOverX := true;
    SlopeIsSteepIff(dx, dy);
    if SlopeIsSteep(dx, dy) {
      base := lower.x;
      dBase := dx;
      incrLow := lower.y;
      incrUp := upper.y;
      dIncr := dy;
      iterateOverX := false;
    }
  }

  class Wireframe {
    /** PPM resolution. */
    const xres: nat
    const yres: nat
    var perspec: Perspective
    var camSpaceTransform: Matrix4
    var perspecProjTransform: Matrix4
    /** The objects read from the format file, by name. */
    var objects: map<string, Object>
    /** The transformed copies, by copy name. */
    var copies: map<string, Object>
    /** The shading grid, yres rows of xres cells, each in [0, 1]. */
    var grid: array2<real>

    /**
     * A scene over already read objects and already computed camera and
     * perspective matrices, with no copies and no grid yet.
     */
    constructor(xres: nat, yres: nat, perspec: Perspective, camSpaceTransform: Matrix4,
                perspecProjTransform: Matrix4, objects: map<string, Object>)
      ensures this.xres == xres && this.yres == yres && this.perspec == perspec
      ensures this.camSpaceTransform == camSpaceTransform && this.perspecProjTransform == perspecProjTransform
      ensures this.objects == objects && copies == map[]
    {
      this.xres := xres;
      this.yres := yres;
      this.perspec := perspec;
      this.camSpaceTransform := camSpaceTransform;
      this.perspecProjTransform := perspecProjTransform;
      this.objects := objects;
      copies := map[];
      grid := new real[0, 0];
    }

    /** The grid has been allocated at the resolution. */
    predicate GridReady()
      reads this
    {
      grid.Length0 == yres && grid.Length1 == xres
    }

    /**
     * saveTransformedCopy: stores copy() of the named object under the first
     * free name objectName_copyN, with every vertex but the reserved one
     * transformed by the matrix and divided by w.
     */
    method SaveTransformedCopy(objectName: string, transformation: Matrix4)
      requires objectName in objects && AllProjectable(transformation, objects[objectName].vertexes)
      modifies this
      ensures objects == old(objects) && grid == old(grid) && perspec == old(perspec)
      ensures camSpaceTransform == old(camSpaceTransform) && perspecProjTransform == old(perspecProjTransform)
      ensures copies == SaveCopy(old(copies), objects, objectName, transformation)
      ensures var n := FreeCopyNumber(old(copies).Keys, objectName);
        && CopyName(objectName, n) !in old(copies)
        && (forall j | 1 <= j < n :: CopyName(objectName, j) in old(copies))
        && copies.Keys == old(copies).Keys + {CopyName(objectName, n)}
        && copies[CopyName(objectName, n)].vertexes == TransformVertexes(transformation, objects[objectName].vertexes)
    {
      var objCopy := Copy(objects[objectName]);
      var nameAttempt := FreeCopyName(copies.Keys, objectName);
      objCopy := objCopy.(name := nameAttempt);
      var vs := TransformCopyVertexes(transformation, objCopy.vertexes);
      objCopy := objCopy.(vertexes := vs);
      copies := copies[objCopy.name := objCopy];
    }

    /**
     * The transform blocks of processFormatFile, in file order: each block's
     * lines are folded as computeGrandProduct folds them and the copy is
     * saved with the result.
     */
    method ProcessTransformBlocks(blocks: seq<TransformBlock>, num: Numerics)
      requires forall i | 0 <= i < |blocks| :: ValidBlock(objects, blocks[i])
      modifies this
      ensures objects == old(objects) && grid == old(grid) && perspec == old(perspec)
      ensures camSpaceTransform == old(camSpaceTransform) && perspecProjTransform == old(perspecProjTransform)
      ensures copies == SaveAll(old(copies), objects, blocks, num)
    {
      for i := 0 to |blocks|
        invariant objects == old(objects) && grid == old(grid) && perspec == old(perspec)
        invariant camSpaceTransform == old(camSpaceTransform) && perspecProjTransform == old(perspecProjTransform)
        invariant copies == SaveAll(old(copies), objects, blocks[..i], num)
      {
        var block := blocks[i];
        var transformation := ComputeGrandProduct(block.lines, num);
        BlockProjectable(objects, block, num);
        SaveTransformedCopy(block.objectName, transformation);
        assert blocks[..i + 1][..i] == blocks[..i];
      }
      assert blocks[..|blocks|] == blocks;
    }

    /** The camera-then-perspective matrix of applyTransforms. */
    function NdcTransform(): Matrix4
      reads this
    {
      Mul(perspecProjTransform, camSpaceTransform)
    }

    predicate CanProject()
      reads this
    {
      && perspec.right != perspec.left && perspec.top != perspec.bottom
      && forall k | k in copies :: AllProjectable(NdcTransform(), copies[k].vertexes)
    }

    /** One copy's pass of applyTransforms: every vertex but 0 projected, and its grid pixel appended. */
    method ProjectCopy(copy: Object, m: Matrix4, round: real -> int) returns (r: Object)
      requires AllProjectable(m, copy.vertexes) && perspec.right != perspec.left && perspec.top != perspec.bottom
      ensures r == ToGrid(copy, m, perspec, xres, yres, round)
    {
      var vs, pixels := copy.vertexes, copy.pixels;
      ghost var ndc := TransformVertexes(m, copy.vertexes);
      var i := 1;
      while i < |vs|
        invariant 1 <= i && (|vs| > 0 ==> i <= |vs|) && |vs| == |copy.vertexes|
        invariant forall j | 0 <= j < |vs| :: vs[j] == if 1 <= j < i then ndc[j] else copy.vertexes[j]
        invariant pixels == copy.pixels + GridPixels(if |vs| == 0 then [] else ndc[1..i], perspec, xres, yres, round)
      {
        var point := PointOf(vs[i]);
        var result := Apply(m, point);
        vs := vs[i := Vertex(result.x / result.w, result.y / result.w, result.z / result.w)];
        assert vs[i] == ndc[i];
        GridPixelsSnoc(ndc, i, perspec, xres, yres, round);
        pixels := pixels + [GridPixel(vs[i], perspec, xres, yres, round)];
        i := i + 1;
      }
      assert vs == ndc;
      r := copy.(vertexes := vs, pixels := pixels);
    }

    /**
     * applyTransforms: every copy's vertexes (but the reserved one) go to NDC
     * and each gets its grid pixel appended. Copies are independent of each
     * other, so the order in which they are visited does not matter.
     */
    method ApplyTransforms(round: real -> int)
      requires CanProject()
      modifies this
      ensures objects == old(objects) && grid == old(grid) && perspec == old(perspec)
      ensures camSpaceTransform == old(camSpaceTransform) && perspecProjTransform == old(perspecProjTransform)
      ensures copies.Keys == old(copies).Keys
      ensures forall k | k in copies :: copies[k] == ToGrid(old(copies)[k], NdcTransform(), perspec, xres, yres, round)
    {
      var m := Mul(perspecProjTransform, camSpaceTransform);
      ghost var c0 := copies;
      var todo := copies.Keys;
      while todo != {}
        invariant objects == old(objects) && grid == old(grid) && perspec == old(perspec)
        invariant camSpaceTransform == old(camSpaceTransform) && perspecProjTransform == old(perspecProjTransform)
        invariant Projected(c0, copies, todo, m, round)
        decreases |todo|
      {
        var key :| key in todo;
        ProjectNext(key, m, round, todo, c0);
        todo := todo - {key};
      }
    }

    /** Copies outside todo are projections of their c0 entries, the others still are their c0 entries. */
    predicate Projected(c0: map<string, Object>, c: map<string, Object>, todo: set<string>, m: Matrix4,
                        round: real -> int)
      reads this
    {
      && perspec.right != perspec.left && perspec.top != perspec.bottom
      && (forall k | k in c0 :: AllProjectable(m, c0[k].vertexes))
      && todo <= c.Keys == c0.Keys
      && forall k | k in c :: c[k] == if k in todo then c0[k] else ToGrid(c0[k], m, perspec, xres, yres, round)
    }

    /** One turn of applyTransforms' copy loop: the copy under key is projected in place. */
    method ProjectNext(key: string, m: Matrix4, round: real -> int, ghost todo: set<string>,
                       ghost c0: map<string, Object>)
      requires key in todo && Projected(c0, copies, todo, m, round)
      modifies this
      ensures objects == old(objects) && grid == old(grid) && perspec == old(perspec)
      ensures camSpaceTransform == old(camSpaceTransform) && perspecProjTransform == old(perspecProjTransform)
      ensures Projected(c0, copies, todo - {key}, m, round)
    {
      var copy := ProjectCopy(copies[key], m, round);
      copies := copies[key := copy];
    }

    /** plotPoint: writes the shade when (y, x) is on the grid, and nothing otherwise. */
    method PlotPoint(y: int, x: int, shade: real)
      requires GridReady()
      modifies grid
      ensures forall y', x' {:trigger grid[y', x']} | 0 <= y' < yres && 0 <= x' < xres ::
        grid[y', x'] == if Pixel(x', y') == Pixel(x, y) then shade else old(grid[y', x'])
    {
      if InBound(xres, yres, Pixel(x, y)) {
        grid[y, x] := shade;
      }
    }

    /**
     * bresenhamRasterize: every cell of the grid ends up with the last shade
     * the segment's plotPoint calls wrote to it, or keeps its value.
     */
    method BresenhamRasterize(v1: Pixel, v2: Pixel, antialias: bool)
      requires GridReady()
      modifies grid
      ensures forall y, x {:trigger grid[y, x]} | 0 <= y < yres && 0 <= x < xres ::
        grid[y, x] == Shade(LineWrites(xres, yres, v1, v2, antialias), Pixel(x, y), old(grid[y, x]))
    {
      if !InBound(xres, yres, v1) || !InBound(xres, yres, v2) {
        return;
      }

      var lower, negativeSlope, slope, inverseSlope, base, dBase, incrLow, incrUp, dIncr, iterateOverX :=
        Orientation(v1, v2);
      ghost var f := Orient(v1, v2);
      ghost var g0 := Snapshot(grid);
      ghost var written: seq<Plot> := [];

      var epsD := 0;
      // steps taken and the rise of base so far
      ghost var steps, rise := 0, 0;
      if dIncr > 0 {
        RiseUnique(dBase, dIncr, 0, 0);
      }
      for incr := incrLow to incrUp + 1
        invariant steps == incr - incrLow && rise == base - f.base0
        invariant epsD == steps * dBase - rise * dIncr
        invariant dIncr > 0 ==> -dIncr <= 2 * epsD < dIncr
        invariant incr <= incrUp ==> rise == Rise(dBase, dIncr, steps)
        invariant written == Traced(f, antialias, steps)
        invariant forall y, x {:trigger grid[y, x]} | 0 <= y < yres && 0 <= x < xres ::
          grid[y, x] == Shade(written, Pixel(x, y), g0[y][x])
      {
        ghost var k, r, eps := steps, rise, epsD;
        label before:
        PlotIncrement(f, antialias, lower, negativeSlope, iterateOverX, incr, incrLow, incrUp, base,
                      slope, inverseSlope);
        forall y, x {:trigger grid[y, x]} | 0 <= y < yres && 0 <= x < xres
          ensures grid[y, x] == Shade(written + StepPlots(f, antialias, k), Pixel(x, y), g0[y][x])
        {
          assert old@before(grid[y, x]) == Shade(written, Pixel(x, y), g0[y][x]);
          ShadeConcat(written, StepPlots(f, antialias, k), Pixel(x, y), g0[y][x]);
        }
        written := written + StepPlots(f, antialias, k);

        epsD := epsD + dBase;

        if 2 * epsD >= dIncr {
          base := base + 1;
          epsD := epsD - dIncr;
        }
        steps, rise := k + 1, base - f.base0;
        BresenhamStep(dBase, dIncr, k, r, eps, steps, rise, epsD);
      }
      assert written == LineWrites(xres, yres, v1, v2, antialias);
    }

    /**
     * The body of bresenhamRasterize's loop at one value of incr: the main
     * cell at the current base (reflected back on a negative slope) and, on
     * an antialiased interior step, its neighbour, shaded by the fractional
     * slope.
     */
    method PlotIncrement(ghost f: Frame, antialias: bool, lower: Pixel, negativeSlope: bool, iterateOverX: bool,
                         incr: int, incrLow: int, incrUp: int, base: int, slope: real, inverseSlope: real)
      requires GridReady()
      requires f.lower == lower && f.negative == negativeSlope && f.steep == !iterateOverX
      requires f.incrLow == incrLow && f.incrUp == incrUp && f.dIncr == incrUp - incrLow
      requires incrLow <= incr <= incrUp && base == f.base0 + Rise(f.dBase, f.dIncr, incr - incrLow)
      requires iterateOverX ==> slope == Intensity(f)
      requires !iterateOverX ==> inverseSlope == Intensity(f)
      modifies grid
      ensures forall y, x {:trigger grid[y, x]} | 0 <= y < yres && 0 <= x < xres ::
        grid[y, x] == Shade(StepPlots(f, antialias, incr - incrLow), Pixel(x, y), old(grid[y, x]))
    {
      ghost var k := incr - incrLow;
      CellsAt(f, k, base - f.base0);
      assert (incr != incrLow && incr != incrUp) == (k != 0 && k != f.dIncr);
      if iterateOverX {
        if antialias && incr != incrLow && incr != incrUp {
          var floatBase := (base as real) + slope;
          var intensity := floatBase - (base as real);
          assert intensity == Intensity(f);
          if negativeSlope {
            PlotPoint(2 * lower.y - base, incr, 1.0 - intensity);
            PlotPoint(2 * lower.y - base - 1, incr, intensity);
            assert StepPlots(f, antialias, k) == [Raster.Plot(Pixel(incr, 2 * lower.y - base), 1.0 - intensity),
                Raster.Plot(Pixel(incr, 2 * lower.y - base - 1), intensity)];
            forall y, x {:trigger grid[y, x]} | 0 <= y < yres && 0 <= x < xres
              ensures grid[y, x] == Shade(StepPlots(f, antialias, k), Pixel(x, y), old(grid[y, x]))
            {
              ShadeTwo(Raster.Plot(Pixel(incr, 2 * lower.y - base), 1.0 - intensity),
                       Raster.Plot(Pixel(incr, 2 * lower.y - base - 1), intensity),
                       Pixel(x, y), old(grid[y, x]));
            }
          } else {
            PlotPoint(base, incr, 1.0 - intensity);
            PlotPoint(base + 1, incr, intensity);
            assert StepPlots(f, antialias, k) == [Raster.Plot(Pixel(incr, base), 1.0 - intensity),
                Raster.Plot(Pixel(incr, base + 1), intensity)];
            forall y, x {:trigger grid[y, x]} | 0 <= y < yres && 0 <= x < xres
              ensures grid[y, x] == Shade(StepPlots(f, antialias, k), Pixel(x, y), old(grid[y, x]))
            {
              ShadeTwo(Raster.Plot(Pixel(incr, base), 1.0 - intensity),
                       Raster.Plot(Pixel(incr, base + 1), intensity),
                       Pixel(x, y), old(grid[y, x]));
            }
          }
        } else {
          if negativeSlope {
            PlotPoint(2 * lower.y - base, incr, 1.0);
            assert StepPlots(f, antialias, k) == [Raster.Plot(Pixel(incr, 2 * lower.y - base), 1.0)];
            forall y, x {:trigger grid[y, x]} | 0 <= y < yres && 0 <= x < xres
              ensures grid[y, x] == Shade(StepPlots(f, antialias, k), Pixel(x, y), old(grid[y, x]))
            {
              ShadeOne(Raster.Plot(Pixel(incr, 2 * lower.y - base), 1.0), Pixel(x, y), old(grid[y, x]));
            }
          } else {
            PlotPoint(base, incr, 1.0);
            assert StepPlots(f, antialias, k) == [Raster.Plot(Pixel(incr, base), 1.0)];
            forall y, x {:trigger grid[y, x]} | 0 <= y < yres && 0 <= x < xres
              ensures grid[y, x] == Shade(StepPlots(f, antialias, k), Pixel(x, y), old(grid[y, x]))
            {
              ShadeOne(Raster.Plot(Pixel(incr, base), 1.0), Pixel(x, y), old(grid[y, x]));
            }
          }
        }
      } else {
        if antialias && incr != incrLow && incr != incrUp {
          var floatBase := (base as real) + inverseSlope;
          var intensity := floatBase - (base as real);
          assert intensity == Intensity(f);
          if negativeSlope {
            PlotPoint(2 * lower.y - incr, base, 1.0 - intensity);
            PlotPoint(2 * lower.y - incr, base + 1, intensity);
            assert StepPlots(f, antialias, k) == [Raster.Plot(Pixel(base, 2 * lower.y - incr), 1.0 - intensity),
                Raster.Plot(Pixel(base + 1, 2 * lower.y - incr), intensity)];
            forall y, x {:trigger grid[y, x]} | 0 <= y < yres && 0 <= x < xres
              ensures grid[y, x] == Shade(StepPlots(f, antialias, k), Pixel(x, y), old(grid[y, x]))
            {
              ShadeTwo(Raster.Plot(Pixel(base, 2 * lower.y - incr), 1.0 - intensity),
                       Raster.Plot(Pixel(base + 1, 2 * lower.y - incr), intensity),
                       Pixel(x, y), old(grid[y, x]));
            }
          } else {
            PlotPoint(incr, base, 1.0 - intensity);
            PlotPoint(incr, base + 1, intensity);
            assert StepPlots(f, antialias, k) == [Raster.Plot(Pixel(base, incr), 1.0 - intensity),
                Raster.Plot(Pixel(base + 1, incr), intensity)];
            forall y, x {:trigger grid[y, x]} | 0 <= y < yres && 0 <= x < xres
              ensures grid[y, x] == Shade(StepPlots(f, antialias, k), Pixel(x, y), old(grid[y, x]))
            {
              ShadeTwo(Raster.Plot(Pixel(base, incr), 1.0 - intensity),
                       Raster.Plot(Pixel(base + 1, incr), intensity),
                       Pixel(x, y), old(grid[y, x]));
            }
          }
        } else {
          if negativeSlope {
            PlotPoint(2 * lower.y - incr, base, 1.0);
            assert StepPlots(f, antialias, k) == [Raster.Plot(Pixel(base, 2 * lower.y - incr), 1.0)];
            forall y, x {:trigger grid[y, x]} | 0 <= y < yres && 0 <= x < xres
              ensures grid[y, x] == Shade(StepPlots(f, antialias, k), Pixel(x, y), old(grid[y, x]))
            {
              ShadeOne(Raster.Plot(Pixel(base, 2 * lower.y - incr), 1.0), Pixel(x, y), old(grid[y, x]));
            }
          } else {
            PlotPoint(incr, base, 1.0);
            assert StepPlots(f, antialias, k) == [Raster.Plot(Pixel(base, incr), 1.0)];
            forall y, x {:trigger grid[y, x]} | 0 <= y < yres && 0 <= x < xres
              ensures grid[y, x] == Shade(StepPlots(f, antialias, k), Pixel(x, y), old(grid[y, x]))
            {
              ShadeOne(Raster.Plot(Pixel(base, incr), 1.0), Pixel(x, y), old(grid[y, x]));
            }
          }
        }
      }
    }

    /** The three edges of a face, drawn v1-v2, v2-v3, v3-v1. */
    method PlotFace(o: Object, face: Face, antialias: bool)
      requires GridReady()
      requires 0 <= face.v1 < |o.pixels| && 0 <= face.v2 < |o.pixels| && 0 <= face.v3 < |o.pixels|
      modifies grid
      ensures forall y, x {:trigger grid[y, x]} | 0 <= y < yres && 0 <= x < xres ::
        grid[y, x] == Shade(FaceWrites(xres, yres, o, face, antialias), Pixel(x, y), old(grid[y, x]))
    {
      var v1, v2, v3 := o.pixels[face.v1], o.pixels[face.v2], o.pixels[face.v3];
      ghost var l1, l2, l3 := LineWrites(xres, yres, v1, v2, antialias), LineWrites(xres, yres, v2, v3, antialias),
                              LineWrites(xres, yres, v3, v1, antialias);
      TriangleEdges(LineDraw(xres, yres, antialias), v1, v2, v3);
      BresenhamRasterize(v1, v2, antialias);
      label edge2:
      BresenhamRasterize(v2, v3, antialias);
      forall y, x {:trigger grid[y, x]} | 0 <= y < yres && 0 <= x < xres
        ensures grid[y, x] == Shade(l1 + l2, Pixel(x, y), old(grid[y, x]))
      {
        assert old@edge2(grid[y, x]) == Shade(l1, Pixel(x, y), old(grid[y, x]));
        ShadeConcat(l1, l2, Pixel(x, y), old(grid[y, x]));
      }
      label edge3:
      BresenhamRasterize(v3, v1, antialias);
      forall y, x {:trigger grid[y, x]} | 0 <= y < yres && 0 <= x < xres
        ensures grid[y, x] == Shade(FaceWrites(xres, yres, o, face, antialias), Pixel(x, y), old(grid[y, x]))
      {
        assert old@edge3(grid[y, x]) == Shade(l1 + l2, Pixel(x, y), old(grid[y, x]));
        ShadeConcat(l1 + l2, l3, Pixel(x, y), old(grid[y, x]));
      }
    }

    /** One turn of plot's face loop: face k drawn over the faces before it, which were drawn over g0. */
    method PlotNextFace(o: Object, k: nat, antialias: bool, ghost g0: seq<seq<real>>)
      requires GridReady() && FacesAddressPixels(o) && k < |o.faces|
      requires |g0| == yres && forall y | 0 <= y < yres :: |g0[y]| == xres
      requires forall y, x {:trigger grid[y, x]} | 0 <= y < yres && 0 <= x < xres ::
        grid[y, x] == Shade(FacesWrites(xres, yres, o, k, antialias), Pixel(x, y), g0[y][x])
      modifies grid
      ensures forall y, x {:trigger grid[y, x]} | 0 <= y < yres && 0 <= x < xres ::
        grid[y, x] == Shade(FacesWrites(xres, yres, o, k + 1, antialias), Pixel(x, y), g0[y][x])
    {
      var face := o.faces[k];
      PlotFace(o, face, antialias);
      forall y, x {:trigger grid[y, x]} | 0 <= y < yres && 0 <= x < xres
        ensures grid[y, x] == Shade(FacesWrites(xres, yres, o, k + 1, antialias), Pixel(x, y), g0[y][x])
      {
        assert old(grid[y, x]) == Shade(FacesWrites(xres, yres, o, k, antialias), Pixel(x, y), g0[y][x]);
        ShadeConcat(FacesWrites(xres, yres, o, k, antialias), FaceWrites(xres, yres, o, face, antialias),
                    Pixel(x, y), g0[y][x]);
      }
    }

    /** Every face of one copy, in the order of its face list. */
    method PlotCopy(o: Object, antialias: bool)
      requires GridReady() && FacesAddressPixels(o)
      modifies grid
      ensures forall y, x {:trigger grid[y, x]} | 0 <= y < yres && 0 <= x < xres ::
        grid[y, x] == Shade(FacesWrites(xres, yres, o, |o.faces|, antialias), Pixel(x, y), old(grid[y, x]))
    {
      ghost var g0 := Snapshot(grid);
      for k := 0 to |o.faces|
        invariant forall y, x {:trigger grid[y, x]} | 0 <= y < yres && 0 <= x < xres ::
          grid[y, x] == Shade(FacesWrites(xres, yres, o, k, antialias), Pixel(x, y), g0[y][x])
      {
        PlotNextFace(o, k, antialias, g0);
      }
    }

    /** One turn of plot's copy loop: copy keys[i] drawn over the copies before it. */
    method PlotNextCopy(antialias: bool, keys: seq<string>, i: nat)
      requires GridReady() && AllFacesAddressPixels(copies) && i < |keys|
      requires forall j | 0 <= j < |keys| :: keys[j] in copies
      requires forall y, x {:trigger grid[y, x]} | 0 <= y < yres && 0 <= x < xres ::
        grid[y, x] == Shade(SceneWrites(xres, yres, copies, keys[..i], antialias), Pixel(x, y), 0.0)
      modifies grid
      ensures forall y, x {:trigger grid[y, x]} | 0 <= y < yres && 0 <= x < xres ::
        grid[y, x] == Shade(SceneWrites(xres, yres, copies, keys[..i + 1], antialias), Pixel(x, y), 0.0)
    {
      var o := copies[keys[i]];
      assert keys[..i + 1][..i] == keys[..i];
      ghost var done := SceneWrites(xres, yres, copies, keys[..i], antialias);
      PlotCopy(o, antialias);
      forall y, x {:trigger grid[y, x]} | 0 <= y < yres && 0 <= x < xres
        ensures grid[y, x] == Shade(SceneWrites(xres, yres, copies, keys[..i + 1], antialias), Pixel(x, y), 0.0)
      {
        assert old(grid[y, x]) == Shade(done, Pixel(x, y), 0.0);
        ShadeConcat(done, FacesWrites(xres, yres, o, |o.faces|, antialias), Pixel(x, y), 0.0);
      }
    }

    method Plot(antialias: bool, keys: seq<string>)
      requires IterationOrder(keys, copies) && AllFacesAddressPixels(copies)
      modifies this
      ensures objects == old(objects) && copies == old(copies) && perspec == old(perspec)
      ensures camSpaceTransform == old(camSpaceTransform) && perspecProjTransform == old(perspecProjTransform)
      ensures fresh(grid) && GridReady()
      ensures forall y, x {:trigger grid[y, x]} | 0 <= y < yres && 0 <= x < xres ::
        grid[y, x] == Shade(SceneWrites(xres, yres, copies, keys, antialias), Pixel(x, y), 0.0)
    {
      grid := ZeroGrid(yres, xres);

      for i := 0 to |keys|
        invariant fresh(grid) && GridReady()
        invariant objects == old(objects) && copies == old(copies) && perspec == old(perspec)
        invariant camSpaceTransform == old(camSpaceTransform) && perspecProjTransform == old(perspecProjTransform)
        invariant forall y, x {:trigger grid[y, x]} | 0 <= y < yres && 0 <= x < xres ::
          grid[y, x] == Shade(SceneWrites(xres, yres, copies, keys[..i], antialias), Pixel(x, y), 0.0)
      {
        PlotNextCopy(antialias, keys, i);
      }
      assert keys[..|keys|] == keys;
    }
  }

  /** The grid plot allocates: rows lines of cols cells, every cell set to 0 by the nested loop. */
  method ZeroGrid(rows: nat, cols: nat) returns (g: array2<real>)
    ensures fresh(g) && g.Length0 == rows && g.Length1 == cols
    ensures forall y, x {:trigger g[y, x]} | 0 <= y < rows && 0 <= x < cols :: g[y, x] == 0.0
  {
    g := new real[rows, cols];
    for y := 0 to rows
      modifies g
      invariant forall y', x | 0 <= y' < y && 0 <= x < cols :: g[y', x] == 0.0
    {
      for x := 0 to cols
        modifies g
        invariant forall y', x' | 0 <= y' < y && 0 <= x' < cols :: g[y', x'] == 0.0
        invariant forall x' | 0 <= x' < x :: g[y, x'] == 0.0
      {
        g[y, x] := 0.0;
      }
    }
  }

  /**
   * One step of the error term eps_d = k * dBase - r * dIncr: adding dBase,
   * and taking away dIncr when 2 * eps_d reaches dIncr, keeps it in
   * [-dIncr/2, dIncr/2) after k + 1 steps.
   */
  lemma BresenhamStep(dBase: int, dIncr: int, k: int, r: int, eps: int, k': int, r': int, eps': int)
    requires 0 <= dBase <= dIncr && eps == k * dBase - r * dIncr
    requires dIncr > 0 ==> -dIncr <= 2 * eps < dIncr
    requires k' == k + 1
    requires if 2 * (eps + dBase) >= dIncr then r' == r + 1 && eps' == eps + dBase - dIncr
             else r' == r && eps' == eps + dBase
    ensures eps' == k' * dBase - r' * dIncr
    ensures dIncr > 0 ==> -dIncr <= 2 * eps' < dIncr && r' == Rise(dBase, dIncr, k')
  {
    assert k' * dBase == k * dBase + dBase;
    assert (r + 1) * dIncr == r * dIncr + dIncr;
    if dIncr > 0 {
      RiseUnique(dBase, dIncr, k', r');
    }
  }

  /** The copy search leaves no free number below the one it settles on. */
  lemma FreeFromStart(keys: set<string>, objectName: string, k: nat)
    requires k >= 1 && CopyNames(objectName, k - 1) <= keys && CopyName(objectName, k) !in keys
    ensures FreeCopyNumber(keys, objectName) == k
  {
    forall j | 1 <= j < k
      ensures CopyName(objectName, j) in keys
    {
      CopyNamesHas(objectName, k - 1, j);
    }
  }
}
