/** The Earth: a UV sphere laid out as a plain triangle list (no index
    buffer), and the per-frame check that binds the surface texture to the
    material once the image has loaded. */
module Earth {
  import opened Wrappers
  import opened Vectors
  import opened RealMath

  // ---------------------------------------------------------------------------
  // The UV sphere
  // ---------------------------------------------------------------------------

  /** A grid point of the sphere: `stack` counts rings from the north pole
      (0) to the south pole (`stacks`), `sector` counts meridians from 0 to
      `sectors`; the last meridian coincides with the first in space but not
      in texture coordinates. */
  datatype GridPoint = GridPoint(stack: nat, sector: nat)

  datatype Uv = Uv(u: real, v: real)

  /** The three vertex attribute lists of a triangle-list mesh. */
  datatype Mesh = Mesh(positions: seq<Vec3>, normals: seq<Vec3>, uvs: seq<Uv>)

  /** The position of a grid point on the sphere: polar angle from +Y, azimuth in the XZ plane. */
  function VertexPosition(ops: Ops, radius: real, stacks: nat, sectors: nat, p: GridPoint): (v: Vec3)
    requires stacks > 0 && sectors > 0
    ensures TrigLaw(ops) ==> NormSq(v) == radius * radius
    ensures TrigLaw(ops) && p.stack == 0 ==> v == Vec3(0.0, radius, 0.0)
  {
    var phi := p.stack as real * (Pi / stacks as real);
    var theta := p.sector as real * (2.0 * Pi / sectors as real);
    SphereNorm(ops, radius, phi, theta);
    Vec3(radius * ops.sin(phi) * ops.cos(theta), radius * ops.cos(phi), radius * ops.sin(phi) * ops.sin(theta))
  }

  /** The spherical parametrisation has norm `radius` at every polar angle and azimuth. */
  lemma SphereNorm(ops: Ops, radius: real, phi: real, theta: real)
    ensures TrigLaw(ops) ==>
      NormSq(Vec3(radius * ops.sin(phi) * ops.cos(theta), radius * ops.cos(phi), radius * ops.sin(phi) * ops.sin(theta)))
        == radius * radius
  {
    if TrigLaw(ops) {
      var s, c, st, ct := ops.sin(phi), ops.cos(phi), ops.sin(theta), ops.cos(theta);
      assert s * s + c * c == 1.0;
      assert st * st + ct * ct == 1.0;
      assert NormSq(Vec3(radius * s * ct, radius * c, radius * s * st))
        == radius * radius * (s * s * (ct * ct + st * st) + c * c);
    }
  }

  /** The texture coordinate of a grid point: u along the sectors, v along the stacks. */
  function VertexUv(stacks: nat, sectors: nat, p: GridPoint): Uv
    requires stacks > 0 && sectors > 0
  {
    Uv(p.sector as real / sectors as real, p.stack as real / stacks as real)
  }

  /** The attributes emitted for a list of grid points, one vertex per point;
      the normal is the normalised position (zero for the zero vector). */
  function MeshOf(ops: Ops, radius: real, stacks: nat, sectors: nat, cs: seq<GridPoint>): (m: Mesh)
    requires stacks > 0 && sectors > 0
    ensures |m.positions| == |m.normals| == |m.uvs| == |cs|
  {
    Mesh(
      seq(|cs|, k requires 0 <= k < |cs| => VertexPosition(ops, radius, stacks, sectors, cs[k])),
      seq(|cs|, k requires 0 <= k < |cs| => Normalize(ops, VertexPosition(ops, radius, stacks, sectors, cs[k]))),
      seq(|cs|, k requires 0 <= k < |cs| => VertexUv(stacks, sectors, cs[k])))
  }

  /** The corners emitted for the quad whose top-left corner is (i, j):
      top-left, top-right, bottom-left unless the row touches the north pole,
      then top-right, bottom-right, bottom-left unless it touches the south pole. */
  function CellCorners(stacks: nat, i: nat, j: nat): seq<GridPoint>
  {
    (if i != 0 then [GridPoint(i, j), GridPoint(i, j + 1), GridPoint(i + 1, j)] else [])
      + (if i != stacks - 1 then [GridPoint(i, j + 1), GridPoint(i + 1, j + 1), GridPoint(i + 1, j)] else [])
  }

  /** The corners of the first `cells` quads of row i, in loop order. */
  function RowCorners(stacks: nat, i: nat, cells: nat): seq<GridPoint>
  {
    if cells == 0 then [] else RowCorners(stacks, i, cells - 1) + CellCorners(stacks, i, cells - 1)
  }

  /** The corners of the first `rows` rows, in loop order. */
  function GridCorners(stacks: nat, rows: nat, sectors: nat): seq<GridPoint>
  {
    if rows == 0 then [] else GridCorners(stacks, rows - 1, sectors) + RowCorners(stacks, rows - 1, sectors)
  }

  /** Every corner the whole sphere emits. */
  function SphereCorners(stacks: nat, sectors: nat): seq<GridPoint>
  {
    GridCorners(stacks, stacks, sectors)
  }

  /** The lists of `a` followed by those of `b`. */
  function Concat(a: Mesh, b: Mesh): Mesh
  {
    Mesh(a.positions + b.positions, a.normals + b.normals, a.uvs + b.uvs)
  }

  lemma MeshOfAppend(ops: Ops, radius: real, stacks: nat, sectors: nat, cs: seq<GridPoint>, more: seq<GridPoint>)
    requires stacks > 0 && sectors > 0
    ensures MeshOf(ops, radius, stacks, sectors, cs + more) ==
      Concat(MeshOf(ops, radius, stacks, sectors, cs), MeshOf(ops, radius, stacks, sectors, more))
  {
  }

  /** One quad of the loop: the attributes of its corners pushed after `m`,
      the upper triangle unless the row touches the north pole, the lower
      one unless it touches the south pole. */
  method EmitCell(ops: Ops, radius: real, stacks: nat, sectors: nat, i: nat, j: nat, m: Mesh) returns (r: Mesh)
    requires stacks > 0 && sectors > 0
    ensures r == Concat(m, MeshOf(ops, radius, stacks, sectors, CellCorners(stacks, i, j)))
  {
    var tl, bl, tr, br := GridPoint(i, j), GridPoint(i + 1, j), GridPoint(i, j + 1), GridPoint(i + 1, j + 1);
    r := m;
    ghost var first: seq<GridPoint> := [];
    ghost var second: seq<GridPoint> := [];
    ConcatEmpty(ops, radius, stacks, sectors, m);
    if i != 0 {
      r := PushTriangle(ops, radius, stacks, sectors, r, tl, tr, bl);
      first := [tl, tr, bl];
    }
    assert r == Concat(m, MeshOf(ops, radius, stacks, sectors, first));
    ghost var mid := r;
    if i != stacks - 1 {
      r := PushTriangle(ops, radius, stacks, sectors, r, tr, br, bl);
      second := [tr, br, bl];
    }
    assert r == Concat(mid, MeshOf(ops, radius, stacks, sectors, second)) by {
      ConcatEmpty(ops, radius, stacks, sectors, mid);
    }
    assert CellCorners(stacks, i, j) == first + second;
    ConcatAssoc(m, MeshOf(ops, radius, stacks, sectors, first), MeshOf(ops, radius, stacks, sectors, second));
    MeshOfAppend(ops, radius, stacks, sectors, first, second);
  }

  /** Pushes the position, normal and texture coordinate of three corners. */
  method PushTriangle(ops: Ops, radius: real, stacks: nat, sectors: nat, m: Mesh, a: GridPoint, b: GridPoint, c: GridPoint)
    returns (r: Mesh)
    requires stacks > 0 && sectors > 0
    ensures r == Concat(m, MeshOf(ops, radius, stacks, sectors, [a, b, c]))
  {
    var pa, pb, pc := VertexPosition(ops, radius, stacks, sectors, a), VertexPosition(ops, radius, stacks, sectors, b),
                      VertexPosition(ops, radius, stacks, sectors, c);
    var tri := MeshOf(ops, radius, stacks, sectors, [a, b, c]);
    assert tri.positions == [pa, pb, pc];
    assert tri.normals == [Normalize(ops, pa), Normalize(ops, pb), Normalize(ops, pc)];
    assert tri.uvs == [VertexUv(stacks, sectors, a), VertexUv(stacks, sectors, b), VertexUv(stacks, sectors, c)];
    r := Mesh(m.positions + [pa, pb, pc],
              m.normals + [Normalize(ops, pa), Normalize(ops, pb), Normalize(ops, pc)],
              m.uvs + [VertexUv(stacks, sectors, a), VertexUv(stacks, sectors, b), VertexUv(stacks, sectors, c)]);
  }

  /** `create_uv_sphere`: the nested loop over stacks and sectors, pushing the
      attributes of each emitted corner to three parallel lists. The result is
      the mesh of `SphereCorners`, so it has 2·sectors·(stacks − 1) triangles,
      three parallel lists of equal length, and texture coordinates in the
      unit square. A zero count gives an empty mesh. */
  method CreateUvSphere(ops: Ops, radius: real, sectors: nat, stacks: nat) returns (m: Mesh)
    ensures stacks == 0 || sectors == 0 ==> m == Mesh([], [], [])
    ensures stacks > 0 && sectors > 0 ==> m == MeshOf(ops, radius, stacks, sectors, SphereCorners(stacks, sectors))
    ensures |m.positions| == |m.normals| == |m.uvs| == 3 * TriangleCount(stacks, sectors)
    ensures forall k :: 0 <= k < |m.uvs| ==> 0.0 <= m.uvs[k].u <= 1.0 && 0.0 <= m.uvs[k].v <= 1.0
  {
    m := Mesh([], [], []);
    SphereCornersCount(stacks, sectors);
    if stacks == 0 || sectors == 0 {
      return;
    }
    var i := 0;
    while i < stacks
      invariant 0 <= i <= stacks
      invariant m == MeshOf(ops, radius, stacks, sectors, GridCorners(stacks, i, sectors))
    {
      m := EmitRow(ops, radius, stacks, sectors, i, m);
      MeshOfAppend(ops, radius, stacks, sectors, GridCorners(stacks, i, sectors), RowCorners(stacks, i, sectors));
      i := i + 1;
    }
    SphereUvsInUnitSquare(ops, radius, stacks, sectors);
  }

  /** The inner loop of `create_uv_sphere`: the quads of row i, left to right,
      pushed after `m`. */
  method EmitRow(ops: Ops, radius: real, stacks: nat, sectors: nat, i: nat, m: Mesh) returns (r: Mesh)
    requires stacks > 0 && sectors > 0
    ensures r == Concat(m, MeshOf(ops, radius, stacks, sectors, RowCorners(stacks, i, sectors)))
  {
    r := m;
    var j := 0;
    ConcatEmpty(ops, radius, stacks, sectors, m);
    while j < sectors
      invariant 0 <= j <= sectors
      invariant r == Concat(m, MeshOf(ops, radius, stacks, sectors, RowCorners(stacks, i, j)))
    {
      ghost var done := MeshOf(ops, radius, stacks, sectors, RowCorners(stacks, i, j));
      ghost var cell := MeshOf(ops, radius, stacks, sectors, CellCorners(stacks, i, j));
      r := EmitCell(ops, radius, stacks, sectors, i, j, r);
      assert r == Concat(Concat(m, done), cell);
      MeshOfAppend(ops, radius, stacks, sectors, RowCorners(stacks, i, j), CellCorners(stacks, i, j));
      ConcatAssoc(m, done, cell);
      j := j + 1;
    }
  }

  lemma ConcatAssoc(a: Mesh, b: Mesh, c: Mesh)
    ensures Concat(Concat(a, b), c) == Concat(a, Concat(b, c))
  {
  }

  lemma ConcatEmpty(ops: Ops, radius: real, stacks: nat, sectors: nat, m: Mesh)
    requires stacks > 0 && sectors > 0
    ensures Concat(m, MeshOf(ops, radius, stacks, sectors, [])) == m
  {
    var e := MeshOf(ops, radius, stacks, sectors, []);
    assert e.positions == [] && e.normals == [] && e.uvs == [];
  }

  /** The number of triangles a sphere of `stacks` rows and `sectors` columns has. */
  function TriangleCount(stacks: nat, sectors: nat): int
  {
    if stacks == 0 then 0 else 2 * sectors * (stacks - 1)
  }

  lemma CellCornersCount(stacks: nat, i: nat, j: nat)
    ensures |CellCorners(stacks, i, j)| == (if i != 0 then 3 else 0) + (if i != stacks - 1 then 3 else 0)
  {
  }

  lemma {:induction false} RowCornersCount(stacks: nat, i: nat, cells: nat)
    ensures |RowCorners(stacks, i, cells)| == cells * ((if i != 0 then 3 else 0) + (if i != stacks - 1 then 3 else 0))
  {
    if cells > 0 {
      RowCornersCount(stacks, i, cells - 1);
      CellCornersCount(stacks, i, cells - 1);
    }
  }

  /** After `rows` full rows (rows ≤ stacks) the loop has emitted 3·sectors
      corners per triangle: two triangles a row, minus one for the first row
      and one for the last. */
  lemma {:induction false} GridCornersCount(stacks: nat, rows: nat, sectors: nat)
    requires rows <= stacks
    ensures |GridCorners(stacks, rows, sectors)| ==
      3 * sectors * (2 * rows - (if rows >= 1 then 1 else 0) - (if rows == stacks && stacks >= 1 then 1 else 0))
  {
    if rows > 0 {
      GridCornersCount(stacks, rows - 1, sectors);
      RowCornersCount(stacks, rows - 1, sectors);
      var c := (if rows - 1 != 0 then 3 else 0) + (if rows - 1 != stacks - 1 then 3 else 0);
      var before := 2 * (rows - 1) - (if rows - 1 >= 1 then 1 else 0);
      var after := 2 * rows - (if rows >= 1 then 1 else 0) - (if rows == stacks && stacks >= 1 then 1 else 0);
      assert |GridCorners(stacks, rows, sectors)|
          == |GridCorners(stacks, rows - 1, sectors)| + |RowCorners(stacks, rows - 1, sectors)|;
      CountArith(sectors, before, c, after);
    }
  }

  lemma CountArith(sectors: int, before: int, c: int, after: int)
    requires 3 * before + c == 3 * after
    ensures 3 * sectors * before + sectors * c == 3 * sectors * after
  {
    assert sectors * (3 * before + c) == sectors * (3 * after);
  }

  /** Exactly 2·sectors·(stacks − 1) triangles: the poles' rows have one
      triangle per quad, every other row two. */
  lemma SphereCornersCount(stacks: nat, sectors: nat)
    ensures |SphereCorners(stacks, sectors)| == 3 * TriangleCount(stacks, sectors)
  {
    GridCornersCount(stacks, stacks, sectors);
    if stacks > 0 {
      assert 3 * sectors * (2 * stacks - 1 - 1) == 3 * (2 * sectors * (stacks - 1));
    }
  }

  /** Every grid point lies within the first `rows` rows' lower edge and the last meridian. */
  predicate InGrid(cs: seq<GridPoint>, rows: nat, sectors: nat)
  {
    forall k :: 0 <= k < |cs| ==> cs[k].stack <= rows && cs[k].sector <= sectors
  }

  lemma {:induction false} RowInGrid(stacks: nat, i: nat, cells: nat, sectors: nat)
    requires cells <= sectors
    ensures InGrid(RowCorners(stacks, i, cells), i + 1, sectors)
  {
    if cells > 0 {
      RowInGrid(stacks, i, cells - 1, sectors);
    }
  }

  lemma {:induction false} GridInGrid(stacks: nat, rows: nat, sectors: nat)
    ensures InGrid(GridCorners(stacks, rows, sectors), rows, sectors)
  {
    if rows > 0 {
      GridInGrid(stacks, rows - 1, sectors);
      RowInGrid(stacks, rows - 1, sectors, sectors);
    }
  }

  lemma FractionInUnit(a: nat, b: nat)
    requires 0 < b && a <= b
    ensures 0.0 <= a as real / b as real <= 1.0
  {
    var q := a as real / b as real;
    assert q * b as real == a as real;
  }

  /** Every texture coordinate of the sphere lies in the unit square. */
  lemma SphereUvsInUnitSquare(ops: Ops, radius: real, stacks: nat, sectors: nat)
    requires stacks > 0 && sectors > 0
    ensures var m := MeshOf(ops, radius, stacks, sectors, SphereCorners(stacks, sectors));
      forall k :: 0 <= k < |m.uvs| ==> 0.0 <= m.uvs[k].u <= 1.0 && 0.0 <= m.uvs[k].v <= 1.0
  {
    var cs := SphereCorners(stacks, sectors);
    GridInGrid(stacks, stacks, sectors);
    forall k | 0 <= k < |cs|
      ensures var uv := VertexUv(stacks, sectors, cs[k]); 0.0 <= uv.u <= 1.0 && 0.0 <= uv.v <= 1.0
    {
      FractionInUnit(cs[k].sector, sectors);
      FractionInUnit(cs[k].stack, stacks);
    }
  }

  /** Every vertex lies on the sphere of the given radius, and every normal of
      a non-degenerate sphere is a unit vector along the position. */
  lemma VertexOnSphere(ops: Ops, radius: real, stacks: nat, sectors: nat, p: GridPoint)
    requires stacks > 0 && sectors > 0
    requires Lawful(ops)
    ensures NormSq(VertexPosition(ops, radius, stacks, sectors, p)) == radius * radius
    ensures radius != 0.0 ==> NormSq(Normalize(ops, VertexPosition(ops, radius, stacks, sectors, p))) == 1.0
  {
    var phi := p.stack as real * (Pi / stacks as real);
    var theta := p.sector as real * (2.0 * Pi / sectors as real);
    var s, c, st, ct := ops.sin(phi), ops.cos(phi), ops.sin(theta), ops.cos(theta);
    assert s * s + c * c == 1.0;
    assert st * st + ct * ct == 1.0;
    var pos := VertexPosition(ops, radius, stacks, sectors, p);
    assert NormSq(pos) == radius * radius * (s * s * (ct * ct + st * st) + c * c);
    assert s * s * (ct * ct + st * st) + c * c == 1.0;
    assert NormSq(pos) == radius * radius;
    if radius != 0.0 {
      calc {
        NormSq(pos);
      ==
        radius * radius;
      > { SquarePositive(radius); }
        0.0;
      }
      NormalizeUnit(ops, pos);
    }
  }

  lemma SquarePositive(r: real)
    requires r != 0.0
    ensures r * r > 0.0
  {
  }

  /** A triangle is sound when its three corners are distinct grid points
      and no two of them sit on the same pole, where all sectors meet. */
  predicate SoundTriangle(a: GridPoint, b: GridPoint, c: GridPoint, stacks: nat)
  {
    && a != b && b != c && a != c
    && !(a.stack == 0 && b.stack == 0) && !(b.stack == 0 && c.stack == 0) && !(a.stack == 0 && c.stack == 0)
    && !(a.stack == stacks && b.stack == stacks) && !(b.stack == stacks && c.stack == stacks)
    && !(a.stack == stacks && c.stack == stacks)
  }

  /** Corner t of a triangle list, read as the t-th triangle. */
  predicate TriangleSound(cs: seq<GridPoint>, t: nat, stacks: nat)
    requires 3 * t + 2 < |cs|
  {
    SoundTriangle(cs[3 * t], cs[3 * t + 1], cs[3 * t + 2], stacks)
  }

  /** A corner list is whole triangles, each of them sound. */
  ghost predicate AllSound(cs: seq<GridPoint>, stacks: nat)
  {
    |cs| % 3 == 0 && forall t: nat | t < |cs| / 3 :: TriangleSound(cs, t, stacks)
  }

  lemma AllSoundAppend(a: seq<GridPoint>, b: seq<GridPoint>, stacks: nat)
    requires AllSound(a, stacks) && AllSound(b, stacks)
    ensures AllSound(a + b, stacks)
  {
    var ab := a + b;
    forall t: nat | t < |ab| / 3
      ensures TriangleSound(ab, t, stacks)
    {
      if 3 * t < |a| {
        assert TriangleSound(a, t, stacks);
        assert ab[3 * t] == a[3 * t] && ab[3 * t + 1] == a[3 * t + 1] && ab[3 * t + 2] == a[3 * t + 2];
      } else {
        var u: nat := t - |a| / 3;
        assert 3 * u == 3 * t - |a|;
        assert TriangleSound(b, u, stacks);
        assert ab[3 * t] == b[3 * u] && ab[3 * t + 1] == b[3 * u + 1] && ab[3 * t + 2] == b[3 * u + 2];
      }
    }
  }

  /** The quads skip exactly the triangles that would fold onto a pole. */
  lemma CellSound(stacks: nat, i: nat, j: nat)
    requires i < stacks
    ensures AllSound(CellCorners(stacks, i, j), stacks)
  {
    var first := if i != 0 then [GridPoint(i, j), GridPoint(i, j + 1), GridPoint(i + 1, j)] else [];
    var second := if i != stacks - 1 then [GridPoint(i, j + 1), GridPoint(i + 1, j + 1), GridPoint(i + 1, j)] else [];
    assert AllSound(first, stacks) by {
      if i != 0 {
        assert TriangleSound(first, 0, stacks);
      }
    }
    assert AllSound(second, stacks) by {
      if i != stacks - 1 {
        assert TriangleSound(second, 0, stacks);
      }
    }
    AllSoundAppend(first, second, stacks);
  }

  lemma {:induction false} RowSound(stacks: nat, i: nat, cells: nat)
    requires i < stacks
    ensures AllSound(RowCorners(stacks, i, cells), stacks)
  {
    if cells > 0 {
      RowSound(stacks, i, cells - 1);
      CellSound(stacks, i, cells - 1);
      AllSoundAppend(RowCorners(stacks, i, cells - 1), CellCorners(stacks, i, cells - 1), stacks);
    }
  }

  /** Every triangle of the sphere is sound: none is collapsed at a pole. */
  lemma {:induction false} GridSound(stacks: nat, rows: nat, sectors: nat)
    requires rows <= stacks
    ensures AllSound(GridCorners(stacks, rows, sectors), stacks)
  {
    if rows > 0 {
      GridSound(stacks, rows - 1, sectors);
      RowSound(stacks, rows - 1, sectors);
      AllSoundAppend(GridCorners(stacks, rows - 1, sectors), RowCorners(stacks, rows - 1, sectors), stacks);
    }
  }

  /** What the first-row and last-row rules prevent: the skipped triangles
      would have two corners on a pole. */
  lemma SkippedTrianglesDegenerate(stacks: nat, j: nat)
    requires stacks > 0
    ensures !SoundTriangle(GridPoint(0, j), GridPoint(0, j + 1), GridPoint(1, j), stacks)
    ensures !SoundTriangle(GridPoint(stacks - 1, j + 1), GridPoint(stacks, j + 1), GridPoint(stacks, j), stacks)
  {
  }

  // ---------------------------------------------------------------------------
  // The Earth entity
  // ---------------------------------------------------------------------------

  /** The Earth's radius in km, and the sphere's resolution. */
  const EarthRadius: real := 6371.0
  const EarthSectors: nat := 64
  const EarthStacks: nat := 32

  /** `EarthBundle::new` builds its mesh with these parameters: 3968 triangles. */
  method EarthMesh(ops: Ops) returns (m: Mesh)
    ensures |m.positions| == |m.normals| == |m.uvs| == 3 * 3968
    ensures m == MeshOf(ops, EarthRadius, EarthStacks, EarthSectors, SphereCorners(EarthStacks, EarthSectors))
  {
    m := CreateUvSphere(ops, EarthRadius, EarthSectors, EarthStacks);
  }

  // ---------------------------------------------------------------------------
  // Texture binding
  // ---------------------------------------------------------------------------

  /** Asset handles, by identity. */
  type Handle = nat

  datatype Color = Color(r: real, g: real, b: real, a: real)

  const White: Color := Color(1.0, 1.0, 1.0, 1.0)

  datatype Material = Material(baseColorTexture: Option<Handle>, baseColor: Color)

  /** An Earth entity: its texture image and its material. */
  datatype EarthEntity = EarthEntity(texture: Handle, material: Handle)

  /** The two console messages the check can print. */
  datatype Message = TextureLoaded | StillLoading

  /** The check's state: its `has_logged` latch, the material assets, and what it printed. */
  datatype TextureState = TextureState(logged: bool, materials: map<Handle, Material>, log: seq<Message>)

  /** The check for one Earth entity. `loaded` says which images are present. */
  function CheckOne(st: TextureState, loaded: set<Handle>, earth: EarthEntity): (r: TextureState)
    ensures earth.texture in loaded ==> r.logged
    ensures earth.texture !in loaded ==> r.materials == st.materials && r.logged == st.logged
    ensures r.materials.Keys == st.materials.Keys
  {
    if earth.texture in loaded then
      var log := if !st.logged then st.log + [TextureLoaded] else st.log;
      var materials :=
        if earth.material in st.materials then
          var mat := st.materials[earth.material];
          var texture := if mat.baseColorTexture.None? then Some(earth.texture) else mat.baseColorTexture;
          st.materials[earth.material := Material(texture, White)]
        else st.materials;
      TextureState(true, materials, log)
    else
      TextureState(st.logged, st.materials, if !st.logged then st.log + [StillLoading] else st.log)
  }

  /** `check_earth_texture_loaded`: the check for every Earth entity in turn. */
  function CheckEarthTextureLoaded(st: TextureState, loaded: set<Handle>, earths: seq<EarthEntity>): (r: TextureState)
    ensures r.materials.Keys == st.materials.Keys
    ensures r.logged <==> st.logged || exists k :: 0 <= k < |earths| && earths[k].texture in loaded
    ensures st.logged ==> r.log == st.log
  {
    if earths == [] then st
    else CheckOne(CheckEarthTextureLoaded(st, loaded, earths[..|earths| - 1]), loaded, earths[|earths| - 1])
  }

  function CountLoaded(log: seq<Message>): nat
  {
    if log == [] then 0 else CountLoaded(log[..|log| - 1]) + (if log[|log| - 1] == TextureLoaded then 1 else 0)
  }

  /** The latch records whether the success message has been printed. */
  predicate LatchAgrees(st: TextureState)
  {
    CountLoaded(st.log) == if st.logged then 1 else 0
  }

  lemma CheckOneKeepsLatch(st: TextureState, loaded: set<Handle>, earth: EarthEntity)
    requires LatchAgrees(st)
    ensures LatchAgrees(CheckOne(st, loaded, earth))
  {
    var r := CheckOne(st, loaded, earth);
    if r.log != st.log {
      assert r.log[..|r.log| - 1] == st.log;
    }
  }

  lemma {:induction false} CheckKeepsLatch(st: TextureState, loaded: set<Handle>, earths: seq<EarthEntity>)
    requires LatchAgrees(st)
    ensures LatchAgrees(CheckEarthTextureLoaded(st, loaded, earths))
  {
    if earths != [] {
      CheckKeepsLatch(st, loaded, earths[..|earths| - 1]);
      CheckOneKeepsLatch(CheckEarthTextureLoaded(st, loaded, earths[..|earths| - 1]), loaded, earths[|earths| - 1]);
    }
  }

  /** The check over a run of frames, each with its own set of loaded images. */
  function CheckFrames(st: TextureState, frames: seq<set<Handle>>, earths: seq<EarthEntity>): TextureState
  {
    if frames == [] then st
    else CheckEarthTextureLoaded(CheckFrames(st, frames[..|frames| - 1], earths), frames[|frames| - 1], earths)
  }

  /** However many frames and entities, the success message is printed at
      most once: exactly once if some frame saw a loaded image, never before. */
  lemma {:induction false} LoadedLoggedOnce(materials: map<Handle, Material>, frames: seq<set<Handle>>, earths: seq<EarthEntity>)
    ensures var r := CheckFrames(TextureState(false, materials, []), frames, earths);
      CountLoaded(r.log) <= 1 && (CountLoaded(r.log) == 1 <==> r.logged)
  {
    if frames != [] {
      LoadedLoggedOnce(materials, frames[..|frames| - 1], earths);
      CheckKeepsLatch(CheckFrames(TextureState(false, materials, []), frames[..|frames| - 1], earths), frames[|frames| - 1], earths);
    }
  }

  /** Once an Earth's image is present its material (if it exists) has a
      texture and a white base colour; a texture already set is kept. */
  lemma MaterialBound(st: TextureState, loaded: set<Handle>, earth: EarthEntity)
    requires earth.texture in loaded && earth.material in st.materials
    ensures var mat := CheckOne(st, loaded, earth).materials[earth.material];
      && mat.baseColorTexture.Some? && mat.baseColor == White
      && (st.materials[earth.material].baseColorTexture.Some? ==> mat.baseColorTexture == st.materials[earth.material].baseColorTexture)
      && (st.materials[earth.material].baseColorTexture.None? ==> mat.baseColorTexture == Some(earth.texture))
  {
  }

  /** Other materials are left alone. */
  lemma OtherMaterialsUnchanged(st: TextureState, loaded: set<Handle>, earth: EarthEntity, h: Handle)
    requires h != earth.material && h in st.materials
    ensures CheckOne(st, loaded, earth).materials[h] == st.materials[h]
  {
  }
}
