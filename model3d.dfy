/** gps::Model3D: loading a Wavefront OBJ model into meshes (from the parsed
    output of the OBJ reader), the per-model texture cache, the vertical flip of
    decoded images, and the bounding-box queries over all vertex positions. */
module Model3D {
  import opened Vectors

  // ---------------------------------------------------------------------------
  // Mesh data

  datatype Vertex = Vertex(position: Vec3, normal: Vec3, texCoords: Vec2)

  /** A texture known to the GPU: its name (id), its role (kind) and its file path. */
  datatype Texture = Texture(id: nat, kind: string, path: string)

  datatype Material = Material(ambient: Vec3, diffuse: Vec3, specular: Vec3)

  datatype Mesh = Mesh(vertices: seq<Vertex>, indices: seq<nat>, textures: seq<Texture>, material: Material)

  const White := Vec3(1.0, 1.0, 1.0)

  /** The material a shape gets when it names none. */
  const DefaultMaterial := Material(White, White, White)

  /** Indices are stored as 32-bit GLuint. */
  const UINT32_RANGE := 0x1_0000_0000

  // ---------------------------------------------------------------------------
  // Output of the OBJ reader (tinyobj), taken as given

  /** Indices into the flat attribute arrays; -1 marks an absent texture coordinate. */
  datatype Index = Index(vertexIndex: int, normalIndex: int, texcoordIndex: int)

  /** Flat attribute arrays: 3 reals per position and per normal, 2 per texture coordinate. */
  datatype Attrib = Attrib(vertices: seq<real>, normals: seq<real>, texcoords: seq<real>)

  datatype Shape = Shape(indices: seq<Index>, numFaceVertices: seq<nat>, materialIds: seq<int>)

  datatype ObjMaterial = ObjMaterial(
    ambient: Vec3, diffuse: Vec3, specular: Vec3,
    ambientTexname: string, diffuseTexname: string, specularTexname: string)

  datatype ObjData = ObjData(attrib: Attrib, shapes: seq<Shape>, materials: seq<ObjMaterial>)

  // ---------------------------------------------------------------------------
  // Base path of LoadModel

  /** std::string::find_last_of for one character, with -1 for npos. */
  function LastIndexOf(s: string, c: char): (r: int)
    ensures -1 <= r < |s|
    ensures r >= 0 ==> s[r] == c
    ensures forall k :: r < k < |s| ==> s[k] != c
  {
    if s == [] then -1
    else if s[|s| - 1] == c then |s| - 1
    else LastIndexOf(s[..|s| - 1], c)
  }

  /** The directory prefix LoadModel hands to the OBJ reader: the file name up to
      and including its last '/', or the whole name followed by '/' when it has none. */
  function BasePath(fileName: string): (r: string)
    ensures |r| > 0 && r[|r| - 1] == '/'
    ensures '/' !in fileName ==> r == fileName + "/"
    ensures '/' in fileName ==> |r| <= |fileName| && r == fileName[..|r|] && '/' !in fileName[|r|..]
  {
    var i := LastIndexOf(fileName, '/');
    (if i < 0 then fileName else fileName[..i]) + "/"
  }

  // ---------------------------------------------------------------------------
  // Flattening faces (the face loop of ReadOBJ)

  /** The number of vertex slots the faces use: the sum of the per-face counts. */
  function FaceVertexCount(nfv: seq<nat>): nat {
    if nfv == [] then 0 else FaceVertexCount(nfv[..|nfv| - 1]) + nfv[|nfv| - 1]
  }

  lemma {:induction false} FaceVertexCountPrefix(nfv: seq<nat>, i: nat)
    requires i <= |nfv|
    ensures FaceVertexCount(nfv[..i]) <= FaceVertexCount(nfv)
  {
    if i < |nfv| {
      assert nfv[..|nfv| - 1][..i] == nfv[..i];
      FaceVertexCountPrefix(nfv[..|nfv| - 1], i);
    } else {
      assert nfv[..i] == nfv;
    }
  }

  /** The reads ReadOBJ makes through idx stay inside the attribute arrays. The
      texture coordinate may be absent (-1); the normal may not, since it is read
      without a check. */
  predicate IndexValid(attrib: Attrib, idx: Index) {
    && 0 <= idx.vertexIndex && 3 * idx.vertexIndex + 2 < |attrib.vertices|
    && 0 <= idx.normalIndex && 3 * idx.normalIndex + 2 < |attrib.normals|
    && (idx.texcoordIndex == -1 || (0 <= idx.texcoordIndex && 2 * idx.texcoordIndex + 1 < |attrib.texcoords|))
  }

  /** The vertex ReadOBJ builds for one face corner. */
  function MakeVertex(attrib: Attrib, idx: Index): (v: Vertex)
    requires IndexValid(attrib, idx)
    ensures idx.texcoordIndex == -1 ==> v.texCoords == Vec2(0.0, 0.0)
  {
    var vi, ni := 3 * idx.vertexIndex, 3 * idx.normalIndex;
    Vertex(
      Vec3(attrib.vertices[vi], attrib.vertices[vi + 1], attrib.vertices[vi + 2]),
      Vec3(attrib.normals[ni], attrib.normals[ni + 1], attrib.normals[ni + 2]),
      if idx.texcoordIndex != -1
      then Vec2(attrib.texcoords[2 * idx.texcoordIndex], attrib.texcoords[2 * idx.texcoordIndex + 1])
      else Vec2(0.0, 0.0))
  }

  /** Every face corner ReadOBJ visits exists and indexes valid attributes. */
  predicate ShapeReadable(attrib: Attrib, shape: Shape) {
    && FaceVertexCount(shape.numFaceVertices) <= |shape.indices|
    && forall k :: 0 <= k < FaceVertexCount(shape.numFaceVertices) ==> IndexValid(attrib, shape.indices[k])
  }

  /** The face loop of ReadOBJ: one vertex per face corner, in order, and the
      sequential index list 0, 1, 2, ... (as 32-bit values). */
  method FlattenFaces(attrib: Attrib, shape: Shape) returns (vertices: seq<Vertex>, indices: seq<nat>)
    requires ShapeReadable(attrib, shape)
    ensures |vertices| == |indices| == FaceVertexCount(shape.numFaceVertices)
    ensures forall k :: 0 <= k < |vertices| ==> vertices[k] == MakeVertex(attrib, shape.indices[k])
    ensures forall k :: 0 <= k < |indices| ==> indices[k] == k % UINT32_RANGE
  {
    var nfv := shape.numFaceVertices;
    vertices, indices := [], [];
    var indexOffset := 0;
    var f := 0;
    while f < |nfv|
      invariant 0 <= f <= |nfv|
      invariant indexOffset == FaceVertexCount(nfv[..f]) <= FaceVertexCount(nfv)
      invariant |vertices| == |indices| == indexOffset
      invariant forall k :: 0 <= k < indexOffset ==> vertices[k] == MakeVertex(attrib, shape.indices[k])
      invariant forall k :: 0 <= k < indexOffset ==> indices[k] == k % UINT32_RANGE
    {
      var fv := nfv[f];
      assert nfv[..f + 1][..f] == nfv[..f];
      FaceVertexCountPrefix(nfv, f + 1);
      assert indexOffset + fv <= FaceVertexCount(nfv);
      var v := 0;
      while v < fv
        invariant 0 <= v <= fv
        invariant |vertices| == |indices| == indexOffset + v
        invariant forall k :: 0 <= k < indexOffset + v ==> vertices[k] == MakeVertex(attrib, shape.indices[k])
        invariant forall k :: 0 <= k < indexOffset + v ==> indices[k] == k % UINT32_RANGE
      {
        var currentVertex := ReadCorner(attrib, shape.indices[indexOffset + v]);
        vertices := vertices + [currentVertex];
        indices := indices + [(indexOffset + v) % UINT32_RANGE];
        v := v + 1;
      }
      indexOffset := indexOffset + fv;
      f := f + 1;
    }
    assert nfv[..|nfv|] == nfv;
  }

  /** The attribute reads for one face corner: position and normal always, the
      texture coordinate only when the corner has one, (0, 0) otherwise. */
  method ReadCorner(attrib: Attrib, idx: Index) returns (v: Vertex)
    requires IndexValid(attrib, idx)
    ensures v == MakeVertex(attrib, idx)
  {
    var vx := attrib.vertices[3 * idx.vertexIndex + 0];
    var vy := attrib.vertices[3 * idx.vertexIndex + 1];
    var vz := attrib.vertices[3 * idx.vertexIndex + 2];
    var nx := attrib.normals[3 * idx.normalIndex + 0];
    var ny := attrib.normals[3 * idx.normalIndex + 1];
    var nz := attrib.normals[3 * idx.normalIndex + 2];
    var tx := 0.0;
    var ty := 0.0;

    if idx.texcoordIndex != -1 {
      tx := attrib.texcoords[2 * idx.texcoordIndex + 0];
      ty := attrib.texcoords[2 * idx.texcoordIndex + 1];
    }

    v := Vertex(Vec3(vx, vy, vz), Vec3(nx, ny, nz), Vec2(tx, ty));
  }

  /** When fewer than 2^32 corners are flattened, index k is exactly k. */
  lemma SequentialIndices(indices: seq<nat>)
    requires |indices| <= UINT32_RANGE
    requires forall k :: 0 <= k < |indices| ==> indices[k] == k % UINT32_RANGE
    ensures forall k :: 0 <= k < |indices| ==> indices[k] == k
  {
  }

  // ---------------------------------------------------------------------------
  // Materials

  /** The material index ReadOBJ consults: the shape's first material id when the
      shape lists any and the file defines any, otherwise -1 (none). */
  function MaterialIndex(shape: Shape, materials: seq<ObjMaterial>): int {
    if |shape.materialIds| > 0 && |materials| > 0 then shape.materialIds[0] else -1
  }

  /** The material index is -1 or names a defined material. */
  predicate MaterialRefValid(shape: Shape, materials: seq<ObjMaterial>) {
    var i := MaterialIndex(shape, materials);
    i == -1 || 0 <= i < |materials|
  }

  /** The colours of a shape's mesh: white unless it names a defined material. */
  function ShapeMaterial(shape: Shape, materials: seq<ObjMaterial>): (m: Material)
    requires MaterialRefValid(shape, materials)
    ensures MaterialIndex(shape, materials) == -1 ==> m == DefaultMaterial
    ensures MaterialIndex(shape, materials) != -1 ==>
      var om := materials[MaterialIndex(shape, materials)];
      m == Material(om.ambient, om.diffuse, om.specular)
  {
    var i := MaterialIndex(shape, materials);
    if i != -1 then Material(materials[i].ambient, materials[i].diffuse, materials[i].specular)
    else DefaultMaterial
  }

  /** The cache request for one texture slot of a material: none when its file
      name is empty, else the name appended to the base path. */
  function NamedRequest(basePath: string, name: string, kind: string): seq<(string, string)> {
    if name != "" then [(basePath + name, kind)] else []
  }

  /** The (path, kind) pairs a shape's material asks the texture cache for, in
      order: ambient, diffuse, specular, each only when its file name is set. */
  function TextureRequests(shape: Shape, materials: seq<ObjMaterial>, basePath: string): seq<(string, string)>
    requires MaterialRefValid(shape, materials)
  {
    var i := MaterialIndex(shape, materials);
    if i == -1 then []
    else
      var m := materials[i];
      NamedRequest(basePath, m.ambientTexname, "ambientTexture")
      + NamedRequest(basePath, m.diffuseTexname, "diffuseTexture")
      + NamedRequest(basePath, m.specularTexname, "specularTexture")
  }

  /** The textures answer the requests one for one, path by path. */
  predicate PathsMatch(ts: seq<Texture>, requests: seq<(string, string)>) {
    |ts| == |requests| && forall j :: 0 <= j < |ts| ==> ts[j].path == requests[j].0
  }

  lemma PathsMatchAppend(a: seq<Texture>, ra: seq<(string, string)>, b: seq<Texture>, rb: seq<(string, string)>)
    requires PathsMatch(a, ra) && PathsMatch(b, rb)
    ensures PathsMatch(a + b, ra + rb)
  {
    forall j | 0 <= j < |a + b| ensures (a + b)[j].path == (ra + rb)[j].0 {
      if j >= |a| {
        assert (a + b)[j] == b[j - |a|];
      }
    }
  }

  // ---------------------------------------------------------------------------
  // Texture cache

  /** The first cache entry with the given path, or -1. */
  function FindTexture(ts: seq<Texture>, path: string): (r: int)
    ensures -1 <= r < |ts|
    ensures r >= 0 ==> ts[r].path == path && forall k :: 0 <= k < r ==> ts[k].path != path
    ensures r == -1 ==> forall k :: 0 <= k < |ts| ==> ts[k].path != path
  {
    if ts == [] then -1
    else
      var r := FindTexture(ts[..|ts| - 1], path);
      if r >= 0 then r
      else if ts[|ts| - 1].path == path then |ts| - 1
      else -1
  }

  /** LoadTexture as a function of the cache: the new cache and the texture returned. */
  function CacheLoad(ts: seq<Texture>, path: string, kind: string, newId: nat): (seq<Texture>, Texture) {
    var i := FindTexture(ts, path);
    if i >= 0 then (ts, ts[i]) else (ts + [Texture(newId, kind, path)], Texture(newId, kind, path))
  }

  /** No two cache entries share a path. */
  ghost predicate DistinctPaths(ts: seq<Texture>) {
    forall i, j :: 0 <= i < j < |ts| ==> ts[i].path != ts[j].path
  }

  /** A load returns an entry with the requested path that is now in the cache;
      the cache is unchanged on a hit and grows by exactly that entry on a miss;
      paths stay distinct. */
  lemma CacheLoadSpec(ts: seq<Texture>, path: string, kind: string, newId: nat)
    ensures var (ts', t) := CacheLoad(ts, path, kind, newId);
      && t.path == path && t in ts' && ts <= ts'
      && ((exists k :: 0 <= k < |ts| && ts[k].path == path) ==> ts' == ts)
      && ((forall k :: 0 <= k < |ts| ==> ts[k].path != path) ==> ts' == ts + [Texture(newId, kind, path)])
      && (DistinctPaths(ts) ==> DistinctPaths(ts'))
  {
  }

  /** Loading a path a second time (with any kind and id) is a hit: it returns
      the same texture and leaves the cache as the first load left it. */
  lemma CacheLoadIdempotent(ts: seq<Texture>, path: string, kind: string, newId: nat, kind2: string, newId2: nat)
    ensures var (ts', t) := CacheLoad(ts, path, kind, newId);
      CacheLoad(ts', path, kind2, newId2) == (ts', t)
  {
    var i := FindTexture(ts, path);
    if i < 0 {
      var ts' := ts + [Texture(newId, kind, path)];
      assert ts'[..|ts'| - 1] == ts;
    }
  }

  // ---------------------------------------------------------------------------
  // Bounding box

  /** The positions of a vertex list, in order. */
  function Positions(vs: seq<Vertex>): (ps: seq<Vec3>)
    ensures |ps| == |vs| && forall k :: 0 <= k < |vs| ==> ps[k] == vs[k].position
  {
    seq(|vs|, k requires 0 <= k < |vs| => vs[k].position)
  }

  /** All vertex positions of all meshes, mesh by mesh. */
  function AllPositions(ms: seq<Mesh>): seq<Vec3> {
    if ms == [] then [] else AllPositions(ms[..|ms| - 1]) + Positions(ms[|ms| - 1].vertices)
  }

  /** AllPositions lists exactly the positions of the meshes' vertices. */
  lemma {:induction false} AllPositionsIff(ms: seq<Mesh>, p: Vec3)
    ensures p in AllPositions(ms) <==>
      exists i, v :: 0 <= i < |ms| && 0 <= v < |ms[i].vertices| && ms[i].vertices[v].position == p
  {
    if ms != [] {
      var init, last := ms[..|ms| - 1], ms[|ms| - 1];
      AllPositionsIff(init, p);
      if p in AllPositions(ms) {
        if p in AllPositions(init) {
          var i, v :| 0 <= i < |init| && 0 <= v < |init[i].vertices| && init[i].vertices[v].position == p;
          assert ms[i] == init[i];
        } else {
          var ps := Positions(last.vertices);
          assert p in ps;
          var v :| 0 <= v < |ps| && ps[v] == p;
          assert ms[|ms| - 1].vertices[v].position == p;
        }
      }
      if exists i, v :: 0 <= i < |ms| && 0 <= v < |ms[i].vertices| && ms[i].vertices[v].position == p {
        var i, v :| 0 <= i < |ms| && 0 <= v < |ms[i].vertices| && ms[i].vertices[v].position == p;
        if i < |ms| - 1 {
          assert init[i] == ms[i];
          assert p in AllPositions(init);
        } else {
          assert Positions(last.vertices)[v] == p;
        }
      }
    }
  }

  /** The running glm::min over ps, seeded with acc. */
  function FoldMin(acc: Vec3, ps: seq<Vec3>): Vec3 {
    if ps == [] then acc else Min(FoldMin(acc, ps[..|ps| - 1]), ps[|ps| - 1])
  }

  /** The running glm::max over ps, seeded with acc. */
  function FoldMax(acc: Vec3, ps: seq<Vec3>): Vec3 {
    if ps == [] then acc else Max(FoldMax(acc, ps[..|ps| - 1]), ps[|ps| - 1])
  }

  lemma {:induction false} FoldMinBelow(acc: Vec3, ps: seq<Vec3>)
    ensures LessEq(FoldMin(acc, ps), acc)
    ensures forall k :: 0 <= k < |ps| ==> LessEq(FoldMin(acc, ps), ps[k])
  {
    if ps != [] {
      FoldMinBelow(acc, ps[..|ps| - 1]);
    }
  }

  lemma {:induction false} FoldMaxAbove(acc: Vec3, ps: seq<Vec3>)
    ensures LessEq(acc, FoldMax(acc, ps))
    ensures forall k :: 0 <= k < |ps| ==> LessEq(ps[k], FoldMax(acc, ps))
  {
    if ps != [] {
      FoldMaxAbove(acc, ps[..|ps| - 1]);
    }
  }

  /** Each component of the fold is the seed's or that of some element. */
  lemma {:induction false} FoldMinAttained(acc: Vec3, ps: seq<Vec3>)
    ensures var r := FoldMin(acc, ps);
      && (r.x == acc.x || exists k :: 0 <= k < |ps| && r.x == ps[k].x)
      && (r.y == acc.y || exists k :: 0 <= k < |ps| && r.y == ps[k].y)
      && (r.z == acc.z || exists k :: 0 <= k < |ps| && r.z == ps[k].z)
  {
    if ps != [] {
      var init := ps[..|ps| - 1];
      FoldMinAttained(acc, init);
      forall k | 0 <= k < |init| ensures init[k] == ps[k] { }
    }
  }

  lemma {:induction false} FoldMaxAttained(acc: Vec3, ps: seq<Vec3>)
    ensures var r := FoldMax(acc, ps);
      && (r.x == acc.x || exists k :: 0 <= k < |ps| && r.x == ps[k].x)
      && (r.y == acc.y || exists k :: 0 <= k < |ps| && r.y == ps[k].y)
      && (r.z == acc.z || exists k :: 0 <= k < |ps| && r.z == ps[k].z)
  {
    if ps != [] {
      var init := ps[..|ps| - 1];
      FoldMaxAttained(acc, init);
      forall k | 0 <= k < |init| ensures init[k] == ps[k] { }
    }
  }

  /** getMinBounds as a function of the meshes. */
  function MinBounds(ms: seq<Mesh>): Vec3 {
    if ms == [] then Zero else FoldMin(Splat(FLT_MAX), AllPositions(ms))
  }

  /** getMaxBounds as a function of the meshes. */
  function MaxBounds(ms: seq<Mesh>): Vec3 {
    if ms == [] then Zero else FoldMax(Splat(-FLT_MAX), AllPositions(ms))
  }

  /** getCenter as a function of the meshes. */
  function Center(ms: seq<Mesh>): Vec3 {
    if ms == [] then Zero else Scale(Add(FoldMin(Splat(FLT_MAX), AllPositions(ms)), FoldMax(Splat(-FLT_MAX), AllPositions(ms))), 0.5)
  }

  /** Every vertex lies inside the box [MinBounds, MaxBounds]. */
  lemma BoundsEnclose(ms: seq<Mesh>, i: nat, v: nat)
    requires i < |ms| && v < |ms[i].vertices|
    ensures LessEq(MinBounds(ms), ms[i].vertices[v].position)
    ensures LessEq(ms[i].vertices[v].position, MaxBounds(ms))
  {
    var ps := AllPositions(ms);
    var p := ms[i].vertices[v].position;
    AllPositionsIff(ms, p);
    var k :| 0 <= k < |ps| && ps[k] == p;
    FoldMinBelow(Splat(FLT_MAX), ps);
    FoldMaxAbove(Splat(-FLT_MAX), ps);
  }

  /** With at least one vertex, all of them finite floats, every component of
      MinBounds and of MaxBounds is that component of some vertex. */
  lemma BoundsAttained(ms: seq<Mesh>)
    requires AllPositions(ms) != []
    requires forall k :: 0 <= k < |AllPositions(ms)| ==> Finite(AllPositions(ms)[k])
    ensures var ps, lo := AllPositions(ms), MinBounds(ms);
      && (exists k :: 0 <= k < |ps| && lo.x == ps[k].x)
      && (exists k :: 0 <= k < |ps| && lo.y == ps[k].y)
      && (exists k :: 0 <= k < |ps| && lo.z == ps[k].z)
    ensures var ps, hi := AllPositions(ms), MaxBounds(ms);
      && (exists k :: 0 <= k < |ps| && hi.x == ps[k].x)
      && (exists k :: 0 <= k < |ps| && hi.y == ps[k].y)
      && (exists k :: 0 <= k < |ps| && hi.z == ps[k].z)
  {
    var ps := AllPositions(ms);
    assert ms != [];
    FoldMinBelow(Splat(FLT_MAX), ps);
    FoldMinAttained(Splat(FLT_MAX), ps);
    FoldMaxAbove(Splat(-FLT_MAX), ps);
    FoldMaxAttained(Splat(-FLT_MAX), ps);
    assert Finite(ps[0]);
  }

  /** With at least one vertex, the centre is the midpoint of the box and lies in it. */
  lemma CenterInBox(ms: seq<Mesh>)
    requires AllPositions(ms) != []
    ensures Center(ms) == Scale(Add(MinBounds(ms), MaxBounds(ms)), 0.5)
    ensures LessEq(MinBounds(ms), Center(ms)) && LessEq(Center(ms), MaxBounds(ms))
  {
    var ps := AllPositions(ms);
    assert ms != [];
    FoldMinBelow(Splat(FLT_MAX), ps);
    FoldMaxAbove(Splat(-FLT_MAX), ps);
    assert LessEq(MinBounds(ms), ps[0]) && LessEq(ps[0], MaxBounds(ms));
  }

  /** Meshes without any vertex: the box is the empty box [FLT_MAX, -FLT_MAX]
      and the centre is the origin. Without meshes all three are the origin. */
  lemma BoundsWithoutVertices(ms: seq<Mesh>)
    requires AllPositions(ms) == []
    ensures ms == [] ==> MinBounds(ms) == Zero && MaxBounds(ms) == Zero && Center(ms) == Zero
    ensures ms != [] ==> MinBounds(ms) == Splat(FLT_MAX) && MaxBounds(ms) == Splat(-FLT_MAX) && Center(ms) == Zero
  {
  }

  // ---------------------------------------------------------------------------
  // Vertical flip of a decoded RGBA image (ReadTextureFromFile)

  newtype byte = b: int | 0 <= b < 256

  /** n bytes make whole rows of w bytes each. */
  predicate WholeRows(n: nat, w: nat)
    decreases n
  {
    n == 0 || (0 < w <= n && WholeRows(n - w, w))
  }

  /** The image with its rows of w bytes in reverse order (for a row width of
      zero, or at most one row, the image itself). */
  function Flipped(s: seq<byte>, w: nat): (r: seq<byte>)
    ensures |r| == |s|
    decreases |s|
  {
    if w == 0 || |s| <= w then s
    else Flipped(s[w..], w) + s[..w]
  }

  /** Flipping a + b, with a made of whole rows, puts b's flipped rows before a's. */
  lemma {:induction false} FlippedAppend(a: seq<byte>, b: seq<byte>, w: nat)
    requires WholeRows(|a|, w)
    ensures Flipped(a + b, w) == Flipped(b, w) + Flipped(a, w)
    decreases |a|
  {
    if a == [] {
      assert a + b == b;
    } else {
      assert (a + b)[w..] == a[w..] + b;
      assert (a + b)[..w] == a[..w];
      FlippedAppend(a[w..], b, w);
      if |a| == w {
        assert a[w..] == [] && a[..w] == a;
      }
    }
  }

  /** Flipping twice gives back an image made of whole rows. */
  lemma {:induction false} FlipTwice(s: seq<byte>, w: nat)
    requires WholeRows(|s|, w)
    ensures Flipped(Flipped(s, w), w) == s
    decreases |s|
  {
    if w > 0 && |s| > w {
      var tail := s[w..];
      FlipTwice(tail, w);
      FlippedAppend(Flipped(tail, w), s[..w], w);
      assert s[..w] + tail == s;
    }
  }

  /** Row r of the flipped image of h rows is row h - 1 - r of the original. */
  lemma FlippedRow(s: seq<byte>, w: nat, h: nat, r: nat)
    requires |s| == RowStart(h, w) && r < h
    ensures RowStart(r, w) <= RowStart(r + 1, w) <= |s| && RowStart(h - 1 - r, w) <= RowStart(h - r, w) <= |s|
    ensures Flipped(s, w)[RowStart(r, w)..RowStart(r + 1, w)] == s[RowStart(h - 1 - r, w)..RowStart(h - r, w)]
  {
    RowStartMono(h - r, h, w);
    RowStartNext(r, r + 1, w);
    RowStartNext(h - 1 - r, h - r, w);
    RowStartAdd(r, h - r, w);
    RowStartAdd(r + 1, h - 1 - r, w);
    RowStartWhole(h - 1 - r, w);
    FlippedRowAt(s, w, RowStart(h - 1 - r, w), RowStart(h - r, w), RowStart(r, w), RowStart(r + 1, w));
  }

  /** The row at byte offset lo of an image lands at offset |s| - (lo + w) once flipped. */
  lemma FlippedRowAt(s: seq<byte>, w: nat, lo: nat, hi: nat, a: nat, b: nat)
    requires WholeRows(lo, w) && hi == lo + w && hi <= |s| && a == |s| - hi && b == |s| - lo
    ensures Flipped(s, w)[a..b] == s[lo..hi]
  {
    FlipDone(s, w, lo, hi);
    MiddleSlice(Flipped(s[hi..], w), s[lo..hi], Flipped(s[..lo], w));
  }

  lemma MiddleSlice<T>(x: seq<T>, m: seq<T>, y: seq<T>)
    ensures (x + m + y)[|x|..|x| + |m|] == m
  {
    assert (x + m + y)[|x|..|x| + |m|] == (x + m)[|x|..];
  }

  /** Offsets of rows add up. */
  lemma {:induction false} RowStartAdd(a: nat, b: nat, w: nat)
    ensures RowStart(a + b, w) == RowStart(a, w) + RowStart(b, w)
    decreases b
  {
    if b > 0 {
      RowStartAdd(a, b - 1, w);
      assert a + b - 1 == a + (b - 1);
    }
  }

  /** The middle row of an image with an odd number of rows stays in place. */
  lemma FlipKeepsMiddleRow(s: seq<byte>, w: nat, h: nat)
    requires |s| == RowStart(h, w) && h % 2 == 1
    ensures RowStart(h / 2 + 1, w) <= |s|
    ensures Flipped(s, w)[RowStart(h / 2, w)..RowStart(h / 2 + 1, w)] == s[RowStart(h / 2, w)..RowStart(h / 2 + 1, w)]
  {
    FlippedRow(s, w, h, h / 2);
    assert h - 1 - h / 2 == h / 2 && h - h / 2 == h / 2 + 1;
  }

  /** s with its w-byte blocks at top and bottom exchanged, byte by byte. */
  function SwapBlocksOf(s: seq<byte>, top: nat, bottom: nat, w: nat): (r: seq<byte>)
    requires top + w <= bottom && bottom + w <= |s|
    ensures |r| == |s|
  {
    seq(|s|, i requires 0 <= i < |s| =>
      if top <= i < top + w then s[i + (bottom - top)]
      else if bottom <= i < bottom + w then s[i - (bottom - top)]
      else s[i])
  }

  /** The swapped sequence as five slices: the part before the top block (which
      ends at next), the bottom block (which ends at hi), the part between the
      blocks, the top block, and the rest. */
  lemma SwapBlocksConcat(s: seq<byte>, top: nat, bottom: nat, w: nat, next: nat, hi: nat)
    requires next == top + w && hi == bottom + w && next <= bottom && hi <= |s|
    ensures SwapBlocksOf(s, top, bottom, w)
      == s[..top] + s[bottom..hi] + s[next..bottom] + s[top..next] + s[hi..]
  {
    var swapped := SwapBlocksOf(s, top, bottom, w);
    var rhs := s[..top] + s[bottom..hi] + s[next..bottom] + s[top..next] + s[hi..];
    assert |rhs| == |swapped|;
    forall i | 0 <= i < |rhs| ensures swapped[i] == rhs[i] {
      if i < top {
      } else if i < next {
      } else if i < bottom {
      } else if i < hi {
      } else {
      }
    }
  }

  /** Swapping the w-byte blocks at top and bottom, as the column loop does. */
  lemma SwapBlocks(before: seq<byte>, after: seq<byte>, top: nat, bottom: nat, w: nat)
    requires top + w <= bottom && bottom + w <= |before| == |after|
    requires forall i :: 0 <= i < |before| && !(top <= i < top + w) && !(bottom <= i < bottom + w) ==> after[i] == before[i]
    requires forall i :: top <= i < top + w ==> after[i] == before[i + (bottom - top)]
    requires forall i :: bottom <= i < bottom + w ==> after[i] == before[i - (bottom - top)]
    ensures after == SwapBlocksOf(before, top, bottom, w)
  {
    var swapped := SwapBlocksOf(before, top, bottom, w);
    forall i | 0 <= i < |after| ensures after[i] == swapped[i] {
    }
  }

  /** The state of the row loop, with lo and hi the byte offsets where the
      untouched middle begins and ends: the rows after hi, flipped, then the
      untouched middle, then the rows before lo, flipped. */
  ghost function Phase(orig: seq<byte>, w: nat, lo: nat, hi: nat): seq<byte>
    requires lo <= hi <= |orig|
  {
    Flipped(orig[hi..], w) + orig[lo..hi] + Flipped(orig[..lo], w)
  }

  /** The five blocks the swap rearranges, located in fb + mid + fa. */
  lemma PhaseBlocks(before: seq<byte>, fb: seq<byte>, mid: seq<byte>, fa: seq<byte>, lo: nat, bottom: nat, w: nat, next: nat, hi: nat)
    requires next == lo + w && hi == bottom + w
    requires before == fb + mid + fa && |fb| == lo && next <= bottom && |mid| == hi - lo
    ensures before[..lo] == fb && before[hi..] == fa
    ensures before[lo..next] == mid[..w]
    ensures before[next..bottom] == mid[w..bottom - lo]
    ensures before[bottom..hi] == mid[bottom - lo..]
  {
  }

  /** The same blocks read from orig, of which mid is the slice orig[lo..hi]. */
  lemma MiddleBlocks(orig: seq<byte>, lo: nat, bottom: nat, w: nat, next: nat, hi: nat)
    requires next == lo + w && hi == bottom + w && next <= bottom && hi <= |orig|
    ensures orig[lo..hi][..w] == orig[lo..next]
    ensures orig[lo..hi][w..bottom - lo] == orig[next..bottom]
    ensures orig[lo..hi][bottom - lo..] == orig[bottom..hi]
  {
    var mid := orig[lo..hi];
    forall k | lo <= k < hi
      ensures mid[k - lo] == orig[k]
    {
    }
  }

  /** Regrouping five concatenated blocks. */
  lemma Regroup<T>(a: seq<T>, b: seq<T>, c: seq<T>, d: seq<T>, e: seq<T>)
    ensures a + b + c + d + e == (a + b) + c + (d + e)
  {
  }

  /** The five blocks of the loop state that a swap of the rows at lo and bottom
      rearranges, in their swapped order. */
  lemma SwappedPieces(orig: seq<byte>, w: nat, lo: nat, bottom: nat, next: nat, hi: nat, before: seq<byte>)
    requires next == lo + w && hi == bottom + w
    requires next <= bottom && hi <= |orig| && |orig| - hi == lo
    requires before == Phase(orig, w, lo, hi)
    ensures |before| == |orig|
    ensures before[..lo] + before[bottom..hi] + before[next..bottom] + before[lo..next] + before[hi..]
      == Flipped(orig[hi..], w) + orig[bottom..hi] + orig[next..bottom] + orig[lo..next] + Flipped(orig[..lo], w)
  {
    PhaseBlocks(before, Flipped(orig[hi..], w), orig[lo..hi], Flipped(orig[..lo], w), lo, bottom, w, next, hi);
    MiddleBlocks(orig, lo, bottom, w, next, hi);
  }

  /** The rows from bottom on, flipped, end with the row at bottom. */
  lemma FlippedEndsWithRow(orig: seq<byte>, w: nat, bottom: nat, hi: nat)
    requires hi == bottom + w && hi <= |orig|
    ensures Flipped(orig[bottom..], w) == Flipped(orig[hi..], w) + orig[bottom..hi]
  {
    assert WholeRows(w, w) by {
      assert w == 0 || WholeRows(w - w, w);
    }
    FlippedAppend(orig[bottom..hi], orig[hi..], w);
    assert orig[bottom..hi] + orig[hi..] == orig[bottom..];
  }

  /** The rows up to next, whole rows when those before lo are, flipped, start
      with the row at lo. */
  lemma FlippedStartsWithRow(orig: seq<byte>, w: nat, lo: nat, next: nat)
    requires next == lo + w && next <= |orig| && WholeRows(lo, w)
    ensures WholeRows(next, w)
    ensures Flipped(orig[..next], w) == orig[lo..next] + Flipped(orig[..lo], w)
  {
    FlippedAppend(orig[..lo], orig[lo..next], w);
    assert orig[..lo] + orig[lo..next] == orig[..next];
    assert w == 0 || WholeRows(next - w, w);
  }

  /** One more row swap, of the rows at byte offsets lo and bottom, advances the
      loop state by one row: the rows before next and from bottom on are done. */
  lemma FlipStep(orig: seq<byte>, w: nat, lo: nat, bottom: nat, next: nat, hi: nat, before: seq<byte>)
    requires next == lo + w && hi == bottom + w
    requires next <= bottom && hi <= |orig| && |orig| - hi == lo && WholeRows(lo, w)
    requires before == Phase(orig, w, lo, hi)
    ensures |before| == |orig| && WholeRows(next, w)
    ensures SwapBlocksOf(before, lo, bottom, w) == Phase(orig, w, next, bottom)
  {
    SwapBlocksConcat(before, lo, bottom, w, next, hi);
    SwappedPieces(orig, w, lo, bottom, next, hi, before);
    FlippedEndsWithRow(orig, w, bottom, hi);
    FlippedStartsWithRow(orig, w, lo, next);
    Regroup(Flipped(orig[hi..], w), orig[bottom..hi], orig[next..bottom], orig[lo..next], Flipped(orig[..lo], w));
  }

  /** Flipping rows a followed by at most one row puts that row first. */
  lemma FlippedThenRow(a: seq<byte>, mid: seq<byte>, w: nat)
    requires WholeRows(|a|, w) && (|mid| == 0 || |mid| == w)
    ensures WholeRows(|a + mid|, w)
    ensures Flipped(a + mid, w) == mid + Flipped(a, w)
  {
    assert Flipped(mid, w) == mid;
    FlippedAppend(a, mid, w);
    assert |mid| == 0 || w == 0 || WholeRows(|a + mid| - w, w);
  }

  /** Flipping rows a, then at most one middle row, then rows b. */
  lemma FlippedAroundRow(a: seq<byte>, mid: seq<byte>, b: seq<byte>, w: nat)
    requires WholeRows(|a|, w) && (|mid| == 0 || |mid| == w)
    ensures Flipped(a + mid + b, w) == Flipped(b, w) + mid + Flipped(a, w)
  {
    FlippedThenRow(a, mid, w);
    FlippedAppend(a + mid, b, w);
    Regroup3(Flipped(b, w), mid, Flipped(a, w));
  }

  /** When the loop stops, the middle is empty or one row, and the whole image is flipped. */
  lemma FlipDone(orig: seq<byte>, w: nat, lo: nat, hi: nat)
    requires lo <= hi <= |orig| && WholeRows(lo, w) && (hi == lo || hi == lo + w)
    ensures Phase(orig, w, lo, hi) == Flipped(orig, w)
  {
    assert orig == orig[..lo] + orig[lo..hi] + orig[hi..];
    FlippedAroundRow(orig[..lo], orig[lo..hi], orig[hi..], w);
  }

  lemma Regroup3<T>(a: seq<T>, b: seq<T>, c: seq<T>)
    ensures a + (b + c) == a + b + c
  {
  }

  /** The byte offset of row r in rows of w bytes. */
  function RowStart(r: nat, w: nat): nat {
    if r == 0 then 0 else RowStart(r - 1, w) + w
  }

  lemma {:induction false} RowStartIsProduct(r: nat, w: nat)
    ensures RowStart(r, w) == r * w
  {
    if r > 0 {
      RowStartIsProduct(r - 1, w);
      assert r * w == (r - 1) * w + w;
    }
  }

  lemma {:induction false} RowStartMono(a: nat, b: nat, w: nat)
    requires a <= b
    ensures RowStart(a, w) <= RowStart(b, w)
    decreases b
  {
    if a < b {
      RowStartMono(a, b - 1, w);
    }
  }

  /** The first r rows are whole rows. */
  lemma {:induction false} RowStartWhole(r: nat, w: nat)
    ensures WholeRows(RowStart(r, w), w)
  {
    if r > 0 {
      RowStartWhole(r - 1, w);
      assert RowStart(r, w) - w == RowStart(r - 1, w);
    }
  }

  /** b is the row after a. */
  lemma RowStartNext(a: nat, b: nat, w: nat)
    requires b == a + 1
    ensures RowStart(b, w) == RowStart(a, w) + w
  {
  }

  /** The rows at RowStart(row) and RowStart(y - row - 1) that iteration `row`
      swaps lie inside an image of y rows. */
  lemma RowBounds(w: nat, y: nat, row: nat)
    requires 2 * row + 2 <= y
    ensures RowStart(row, w) + w <= RowStart(y - row - 1, w) && RowStart(y - row - 1, w) + w <= RowStart(y, w)
  {
    RowStartMono(row + 1, y - row - 1, w);
    RowStartMono(y - row, y, w);
    RowStartNext(y - row - 1, y - row, w);
  }

  /** The image after the first r iterations of the row loop: iteration i swaps
      row i with row y - 1 - i. */
  ghost function SwapsDone(orig: seq<byte>, w: nat, y: nat, r: nat): (s: seq<byte>)
    requires |orig| == RowStart(y, w) && 2 * r <= y
    ensures |s| == |orig|
    decreases r
  {
    if r == 0 then orig
    else
      RowBounds(w, y, r - 1);
      SwapBlocksOf(SwapsDone(orig, w, y, r - 1), RowStart(r - 1, w), RowStart(y - (r - 1) - 1, w), w)
  }

  /** Iteration r - 1 of the row loop, the one that swaps the rows at byte offsets
      RowStart(r - 1) and RowStart(y - r), turns the loop state for r - 1 into the
      loop state for r. */
  lemma FlipIteration(orig: seq<byte>, w: nat, y: nat, r: nat, before: seq<byte>)
    requires 0 < r && 2 * r <= y
    requires RowStart(r - 1, w) <= RowStart(y - (r - 1), w) == |orig| - RowStart(r - 1, w)
    requires before == Phase(orig, w, RowStart(r - 1, w), RowStart(y - (r - 1), w))
    ensures RowStart(r - 1, w) + w <= RowStart(y - (r - 1) - 1, w) && RowStart(y - (r - 1) - 1, w) + w <= |before|
    ensures SwapBlocksOf(before, RowStart(r - 1, w), RowStart(y - (r - 1) - 1, w), w)
      == Phase(orig, w, RowStart(r, w), RowStart(y - r, w))
    ensures RowStart(r, w) <= RowStart(y - r, w) == |orig| - RowStart(r, w)
  {
    RowStartNext(r - 1, r, w);
    RowStartNext(y - (r - 1) - 1, y - (r - 1), w);
    RowStartMono(r, y - (r - 1) - 1, w);
    RowStartWhole(r - 1, w);
    assert y - (r - 1) - 1 == y - r;
    FlipStep(orig, w, RowStart(r - 1, w), RowStart(y - (r - 1) - 1, w), RowStart(r, w), RowStart(y - (r - 1), w), before);
  }

  /** If the loop state after r - 1 iterations is the one Phase describes, so is
      the state after r. */
  lemma SwapsDonePhaseStep(orig: seq<byte>, w: nat, y: nat, r: nat)
    requires |orig| == RowStart(y, w) && 0 < r && 2 * r <= y
    requires RowStart(r - 1, w) <= RowStart(y - (r - 1), w) == |orig| - RowStart(r - 1, w)
    requires SwapsDone(orig, w, y, r - 1) == Phase(orig, w, RowStart(r - 1, w), RowStart(y - (r - 1), w))
    ensures RowStart(r, w) <= RowStart(y - r, w) == |orig| - RowStart(r, w)
    ensures SwapsDone(orig, w, y, r) == Phase(orig, w, RowStart(r, w), RowStart(y - r, w))
  {
    FlipIteration(orig, w, y, r, SwapsDone(orig, w, y, r - 1));
  }

  /** Before the first iteration the whole image is the untouched middle. */
  lemma PhaseStart(orig: seq<byte>, w: nat)
    ensures Phase(orig, w, 0, |orig|) == orig
  {
    assert orig[0..|orig|] == orig;
  }

  /** After r iterations the image is in the state Phase describes. */
  lemma {:induction false} SwapsDonePhase(orig: seq<byte>, w: nat, y: nat, r: nat)
    requires |orig| == RowStart(y, w) && 2 * r <= y
    ensures RowStart(r, w) <= RowStart(y - r, w) == |orig| - RowStart(r, w)
    ensures SwapsDone(orig, w, y, r) == Phase(orig, w, RowStart(r, w), RowStart(y - r, w))
  {
    if r == 0 {
      PhaseStart(orig, w);
      assert y - r == y;
    } else {
      SwapsDonePhase(orig, w, y, r - 1);
      SwapsDonePhaseStep(orig, w, y, r);
    }
  }

  /** The y / 2 iterations of the row loop flip the whole image. */
  lemma SwapsDoneFlips(orig: seq<byte>, w: nat, y: nat)
    requires |orig| == RowStart(y, w)
    ensures SwapsDone(orig, w, y, y / 2) == Flipped(orig, w)
  {
    var m := y / 2;
    SwapsDonePhase(orig, w, y, m);
    RowStartWhole(m, w);
    if y != m + m {
      RowStartNext(m, y - m, w);
    }
    FlipDone(orig, w, RowStart(m, w), RowStart(y - m, w));
  }

  /** The column loop of the flip: swaps the w bytes at top with the w bytes at bottom. */
  method SwapRows(image: array<byte>, top: nat, bottom: nat, w: nat)
    requires top + w <= bottom && bottom + w <= image.Length
    modifies image
    ensures image[..] == SwapBlocksOf(old(image[..]), top, bottom, w)
  {
    ghost var before := image[..];
    var col := 0;
    while col < w
      invariant 0 <= col <= w
      invariant forall i :: 0 <= i < image.Length && !(top <= i < top + col) && !(bottom <= i < bottom + col) ==> image[i] == before[i]
      invariant forall i :: top <= i < top + col ==> image[i] == before[i + (bottom - top)]
      invariant forall i :: bottom <= i < bottom + col ==> image[i] == before[i - (bottom - top)]
    {
      var temp := image[top + col];
      image[top + col] := image[bottom + col];
      image[bottom + col] := temp;
      col := col + 1;
    }
    SwapBlocks(before, image[..], top, bottom, w);
  }

  /** One iteration of the row loop: swaps row `row` with row y - 1 - row. */
  method SwapRowPair(image: array<byte>, w: nat, y: nat, row: nat, ghost orig: seq<byte>)
    requires |orig| == RowStart(y, w) && 2 * row + 2 <= y
    requires image[..] == SwapsDone(orig, w, y, row)
    modifies image
    ensures image[..] == SwapsDone(orig, w, y, row + 1)
  {
    RowBounds(w, y, row);
    var top := RowStart(row, w);
    var bottom := RowStart(y - row - 1, w);
    SwapRows(image, top, bottom, w);
  }

  /** The row-flip loop of ReadTextureFromFile on the decoded x-by-y RGBA buffer:
      row r is swapped with row y - 1 - r for every r < y / 2. */
  method FlipRows(image: array<byte>, x: nat, y: nat)
    requires image.Length == RowStart(y, x * 4)
    modifies image
    ensures image[..] == Flipped(old(image[..]), x * 4)
  {
    var widthInBytes := x * 4;
    var halfHeight := y / 2;
    ghost var orig := image[..];

    var row := 0;
    while row < halfHeight
      invariant 0 <= row <= halfHeight
      invariant image[..] == SwapsDone(orig, widthInBytes, y, row)
    {
      SwapRowPair(image, widthInBytes, y, row, orig);
      row := row + 1;
    }
    SwapsDoneFlips(orig, widthInBytes, y);
  }

  // ---------------------------------------------------------------------------
  // The model object

  /** Every shape of the parsed file can be read as ReadOBJ reads it. */
  predicate ObjReadable(obj: ObjData) {
    forall s :: s in obj.shapes ==> ShapeReadable(obj.attrib, s) && MaterialRefValid(s, obj.materials)
  }

  /** m is the mesh ReadOBJ builds from shape. */
  ghost predicate MeshFrom(m: Mesh, obj: ObjData, shape: Shape, basePath: string)
    requires ShapeReadable(obj.attrib, shape) && MaterialRefValid(shape, obj.materials)
  {
    && |m.vertices| == |m.indices| == FaceVertexCount(shape.numFaceVertices)
    && (forall k :: 0 <= k < |m.vertices| ==> m.vertices[k] == MakeVertex(obj.attrib, shape.indices[k]))
    && (forall k :: 0 <= k < |m.indices| ==> m.indices[k] == k % UINT32_RANGE)
    && m.material == ShapeMaterial(shape, obj.materials)
    && PathsMatch(m.textures, TextureRequests(shape, obj.materials, basePath))
  }

  /** `after` is `before` followed by one mesh per shape of obj, in order. */
  ghost predicate Loaded(before: seq<Mesh>, after: seq<Mesh>, obj: ObjData, basePath: string)
    requires ObjReadable(obj)
  {
    && |after| == |before| + |obj.shapes|
    && after[..|before|] == before
    && forall i :: 0 <= i < |obj.shapes| ==> MeshFrom(after[|before| + i], obj, obj.shapes[i], basePath)
  }

  class Model3D {
    var meshes: seq<Mesh>
    var loadedTextures: seq<Texture>

    /** A model as the program declares it, before anything is loaded. */
    constructor ()
      ensures meshes == [] && loadedTextures == []
    {
      meshes := [];
      loadedTextures := [];
    }

    /** LoadModel(fileName): reads the file (given here as its parsed content)
        with the directory part of fileName as base path for material textures. */
    method LoadModel(fileName: string, obj: ObjData, textureIds: string -> nat)
      requires ObjReadable(obj)
      modifies this
      ensures Loaded(old(meshes), meshes, obj, BasePath(fileName))
      ensures old(loadedTextures) <= loadedTextures
      ensures DistinctPaths(old(loadedTextures)) ==> DistinctPaths(loadedTextures)
    {
      var basePath := BasePath(fileName);
      ReadOBJ(fileName, basePath, obj, textureIds);
    }

    /** LoadModel(fileName, basePath): the same with an explicit base path. */
    method LoadModelWithBasePath(fileName: string, basePath: string, obj: ObjData, textureIds: string -> nat)
      requires ObjReadable(obj)
      modifies this
      ensures Loaded(old(meshes), meshes, obj, basePath)
      ensures old(loadedTextures) <= loadedTextures
      ensures DistinctPaths(old(loadedTextures)) ==> DistinctPaths(loadedTextures)
    {
      ReadOBJ(fileName, basePath, obj, textureIds);
    }

    /** ReadOBJ: appends one mesh per shape of the parsed file. `obj` is what the
        OBJ reader returned for fileName; textureIds(path) is the GPU texture
        name that reading and uploading the image at path yields. */
    method ReadOBJ(fileName: string, basePath: string, obj: ObjData, textureIds: string -> nat)
      requires ObjReadable(obj)
      modifies this
      ensures Loaded(old(meshes), meshes, obj, basePath)
      ensures forall i, t :: |old(meshes)| <= i < |meshes| && t in meshes[i].textures ==> t in loadedTextures
      ensures old(loadedTextures) <= loadedTextures
      ensures DistinctPaths(old(loadedTextures)) ==> DistinctPaths(loadedTextures)
    {
      var s := 0;
      while s < |obj.shapes|
        invariant 0 <= s <= |obj.shapes|
        invariant |meshes| == |old(meshes)| + s && meshes[..|old(meshes)|] == old(meshes)
        invariant forall i :: 0 <= i < s ==> MeshFrom(meshes[|old(meshes)| + i], obj, obj.shapes[i], basePath)
        invariant forall i, t :: |old(meshes)| <= i < |meshes| && t in meshes[i].textures ==> t in loadedTextures
        invariant old(loadedTextures) <= loadedTextures
        invariant DistinctPaths(old(loadedTextures)) ==> DistinctPaths(loadedTextures)
      {
        assert obj.shapes[s] in obj.shapes;
        ghost var cacheBefore := loadedTextures;
        var mesh := BuildMesh(obj, obj.shapes[s], basePath, textureIds);
        PrefixKeepsMembers(cacheBefore, loadedTextures);
        meshes := meshes + [mesh];
        s := s + 1;
      }
    }

    /** The body of ReadOBJ's shape loop: the flattened faces, the material
        colours and the textures of one shape. */
    method BuildMesh(obj: ObjData, shape: Shape, basePath: string, textureIds: string -> nat) returns (mesh: Mesh)
      requires ShapeReadable(obj.attrib, shape) && MaterialRefValid(shape, obj.materials)
      modifies this`loadedTextures
      ensures MeshFrom(mesh, obj, shape, basePath)
      ensures forall t :: t in mesh.textures ==> t in loadedTextures
      ensures old(loadedTextures) <= loadedTextures
      ensures DistinctPaths(old(loadedTextures)) ==> DistinctPaths(loadedTextures)
    {
      var vertices, indices := FlattenFaces(obj.attrib, shape);
      var material := ShapeMaterial(shape, obj.materials);
      var textures := LoadMaterialTextures(shape, obj.materials, basePath, textureIds);
      mesh := Mesh(vertices, indices, textures, material);
    }

    /** The texture part of ReadOBJ for one shape: the ambient, diffuse and
        specular textures its material names, each loaded through the cache. */
    method LoadMaterialTextures(shape: Shape, materials: seq<ObjMaterial>, basePath: string, textureIds: string -> nat)
      returns (textures: seq<Texture>)
      requires MaterialRefValid(shape, materials)
      modifies this`loadedTextures
      ensures PathsMatch(textures, TextureRequests(shape, materials, basePath))
      ensures forall t :: t in textures ==> t in loadedTextures
      ensures old(loadedTextures) <= loadedTextures
      ensures DistinctPaths(old(loadedTextures)) ==> DistinctPaths(loadedTextures)
    {
      textures := [];
      var materialId := MaterialIndex(shape, materials);
      if materialId != -1 {
        var m := materials[materialId];
        var ambient := LoadNamedTexture(basePath, m.ambientTexname, "ambientTexture", textureIds);
        ghost var afterAmbient := loadedTextures;
        var diffuse := LoadNamedTexture(basePath, m.diffuseTexname, "diffuseTexture", textureIds);
        ghost var afterDiffuse := loadedTextures;
        var specular := LoadNamedTexture(basePath, m.specularTexname, "specularTexture", textureIds);
        PrefixKeepsMembers(afterAmbient, loadedTextures);
        PrefixKeepsMembers(afterDiffuse, loadedTextures);
        PathsMatchAppend(ambient, NamedRequest(basePath, m.ambientTexname, "ambientTexture"),
          diffuse, NamedRequest(basePath, m.diffuseTexname, "diffuseTexture"));
        PathsMatchAppend(ambient + diffuse,
          NamedRequest(basePath, m.ambientTexname, "ambientTexture") + NamedRequest(basePath, m.diffuseTexname, "diffuseTexture"),
          specular, NamedRequest(basePath, m.specularTexname, "specularTexture"));
        textures := ambient + diffuse + specular;
      }
    }

    /** One texture slot of a material: loads basePath + name through the cache
        unless the name is empty. */
    method LoadNamedTexture(basePath: string, name: string, kind: string, textureIds: string -> nat)
      returns (textures: seq<Texture>)
      modifies this`loadedTextures
      ensures PathsMatch(textures, NamedRequest(basePath, name, kind))
      ensures name == "" ==> textures == [] && loadedTextures == old(loadedTextures)
      ensures name != "" ==> |textures| == 1
      ensures name != "" ==>
        (loadedTextures, textures[0]) == CacheLoad(old(loadedTextures), basePath + name, kind, textureIds(basePath + name))
      ensures forall t :: t in textures ==> t in loadedTextures
      ensures old(loadedTextures) <= loadedTextures
      ensures DistinctPaths(old(loadedTextures)) ==> DistinctPaths(loadedTextures)
    {
      textures := [];
      if name != "" {
        var t := LoadTexture(basePath + name, kind, textureIds(basePath + name));
        textures := [t];
      }
    }

    /** LoadTexture: returns the cached texture with this path, or creates one
        (with the GPU name newId) and appends it to the cache. */
    method LoadTexture(path: string, kind: string, newId: nat) returns (t: Texture)
      modifies this`loadedTextures
      ensures (loadedTextures, t) == CacheLoad(old(loadedTextures), path, kind, newId)
      ensures t.path == path && t in loadedTextures && old(loadedTextures) <= loadedTextures
      ensures DistinctPaths(old(loadedTextures)) ==> DistinctPaths(loadedTextures)
    {
      CacheLoadSpec(loadedTextures, path, kind, newId);
      var i := 0;
      while i < |loadedTextures|
        invariant 0 <= i <= |loadedTextures|
        invariant forall k :: 0 <= k < i ==> loadedTextures[k].path != path
      {
        if loadedTextures[i].path == path {
          return loadedTextures[i];
        }
        i := i + 1;
      }

      t := Texture(newId, kind, path);
      loadedTextures := loadedTextures + [t];
    }

    /** getMinBounds */
    method GetMinBounds() returns (minV: Vec3)
      ensures minV == MinBounds(meshes)
      ensures forall i, v :: 0 <= i < |meshes| && 0 <= v < |meshes[i].vertices| ==> LessEq(minV, meshes[i].vertices[v].position)
    {
      if meshes == [] {
        return Zero;
      }
      minV := Splat(FLT_MAX);
      var i := 0;
      while i < |meshes|
        invariant 0 <= i <= |meshes|
        invariant minV == FoldMin(Splat(FLT_MAX), AllPositions(meshes[..i]))
      {
        var v := 0;
        assert Positions(meshes[i].vertices[..0]) == [];
        assert AllPositions(meshes[..i]) + [] == AllPositions(meshes[..i]);
        while v < |meshes[i].vertices|
          invariant 0 <= v <= |meshes[i].vertices|
          invariant minV == FoldMin(Splat(FLT_MAX), AllPositions(meshes[..i]) + Positions(meshes[i].vertices[..v]))
        {
          var p := meshes[i].vertices[v].position;
          minV := Min(minV, p);
          PositionsSnoc(meshes[i].vertices, v, AllPositions(meshes[..i]));
          v := v + 1;
        }
        AllPositionsSnoc(meshes, i);
        i := i + 1;
      }
      assert meshes[..|meshes|] == meshes;
      forall i, v | 0 <= i < |meshes| && 0 <= v < |meshes[i].vertices|
        ensures LessEq(minV, meshes[i].vertices[v].position)
      {
        BoundsEnclose(meshes, i, v);
      }
    }

    /** getMaxBounds */
    method GetMaxBounds() returns (maxV: Vec3)
      ensures maxV == MaxBounds(meshes)
      ensures forall i, v :: 0 <= i < |meshes| && 0 <= v < |meshes[i].vertices| ==> LessEq(meshes[i].vertices[v].position, maxV)
    {
      if meshes == [] {
        return Zero;
      }
      maxV := Splat(-FLT_MAX);
      var i := 0;
      while i < |meshes|
        invariant 0 <= i <= |meshes|
        invariant maxV == FoldMax(Splat(-FLT_MAX), AllPositions(meshes[..i]))
      {
        var v := 0;
        assert Positions(meshes[i].vertices[..0]) == [];
        assert AllPositions(meshes[..i]) + [] == AllPositions(meshes[..i]);
        while v < |meshes[i].vertices|
          invariant 0 <= v <= |meshes[i].vertices|
          invariant maxV == FoldMax(Splat(-FLT_MAX), AllPositions(meshes[..i]) + Positions(meshes[i].vertices[..v]))
        {
          var p := meshes[i].vertices[v].position;
          maxV := Max(maxV, p);
          PositionsSnoc(meshes[i].vertices, v, AllPositions(meshes[..i]));
          v := v + 1;
        }
        AllPositionsSnoc(meshes, i);
        i := i + 1;
      }
      assert meshes[..|meshes|] == meshes;
      forall i, v | 0 <= i < |meshes| && 0 <= v < |meshes[i].vertices|
        ensures LessEq(meshes[i].vertices[v].position, maxV)
      {
        BoundsEnclose(meshes, i, v);
      }
    }

    /** getCenter */
    method GetCenter() returns (c: Vec3)
      ensures c == Center(meshes)
      ensures AllPositions(meshes) != [] ==> LessEq(MinBounds(meshes), c) && LessEq(c, MaxBounds(meshes))
    {
      if meshes == [] {
        return Zero;
      }
      var minV := Splat(FLT_MAX);
      var maxV := Splat(-FLT_MAX);
      var i := 0;
      while i < |meshes|
        invariant 0 <= i <= |meshes|
        invariant minV == FoldMin(Splat(FLT_MAX), AllPositions(meshes[..i]))
        invariant maxV == FoldMax(Splat(-FLT_MAX), AllPositions(meshes[..i]))
      {
        var v := 0;
        assert Positions(meshes[i].vertices[..0]) == [];
        assert AllPositions(meshes[..i]) + [] == AllPositions(meshes[..i]);
        while v < |meshes[i].vertices|
          invariant 0 <= v <= |meshes[i].vertices|
          invariant minV == FoldMin(Splat(FLT_MAX), AllPositions(meshes[..i]) + Positions(meshes[i].vertices[..v]))
          invariant maxV == FoldMax(Splat(-FLT_MAX), AllPositions(meshes[..i]) + Positions(meshes[i].vertices[..v]))
        {
          var p := meshes[i].vertices[v].position;
          minV := Min(minV, p);
          maxV := Max(maxV, p);
          PositionsSnoc(meshes[i].vertices, v, AllPositions(meshes[..i]));
          v := v + 1;
        }
        AllPositionsSnoc(meshes, i);
        i := i + 1;
      }
      assert meshes[..|meshes|] == meshes;
      c := Scale(Add(minV, maxV), 0.5);
      if AllPositions(meshes) != [] {
        CenterInBox(meshes);
      }
    }
  }

  /** What a sequence holds, any extension of it holds too. */
  lemma PrefixKeepsMembers<T>(a: seq<T>, b: seq<T>)
    requires a <= b
    ensures forall t :: t in a ==> t in b
  {
    forall t | t in a ensures t in b {
      var k :| 0 <= k < |a| && a[k] == t;
      assert b[k] == t;
    }
  }

  /** One more vertex extends the scanned positions by its position. */
  lemma PositionsSnoc(vs: seq<Vertex>, v: nat, prefix: seq<Vec3>)
    requires v < |vs|
    ensures prefix + Positions(vs[..v + 1]) == (prefix + Positions(vs[..v])) + [vs[v].position]
  {
    assert Positions(vs[..v + 1]) == Positions(vs[..v]) + [vs[v].position];
  }

  /** One more mesh extends the scanned positions by all of its positions. */
  lemma AllPositionsSnoc(ms: seq<Mesh>, i: nat)
    requires i < |ms|
    ensures AllPositions(ms[..i + 1]) == AllPositions(ms[..i]) + Positions(ms[i].vertices[..|ms[i].vertices|])
  {
    assert ms[..i + 1][..i] == ms[..i];
    assert ms[i].vertices[..|ms[i].vertices|] == ms[i].vertices;
  }
}
