/**
 * The linear system of `calibrate` in scripts/calibrate.py. For N
 * camera-frame points `p_i` and N world points `w_i` it builds a 3N x 12
 * matrix `A` and a right-hand side `b` of length 3N such that, for the
 * twelve unknowns `x` laid out as the rows of a 3x3 matrix `M` followed by
 * a translation `t`, `A . x` is the stack of the `M . p_i + t` and `b` is
 * the stack of the `w_i`.
 *
 * The least-squares solve of `A . x = b` and the SVD that follows it are
 * not part of this model; `Unpack` is the layout the source reads the
 * solution with.
 */
module Calibration {
  import opened Wrappers
  import opened Geometry
  import opened Preparation

  /** Nine entries of `M`, row by row, then the three of `t`. */
  const Unknowns: nat := 12

  /** The rigid-body transform read off a solution: `w = rot . p + t`. */
  datatype Pose = Pose(rot: Mat3, t: Vec3)

  function Transform(pose: Pose, p: Vec3): Vec3
  {
    Add(MulVec(pose.rot, p), pose.t)
  }

  /** Every point pushed through `pose`, in order. */
  function Predict(pose: Pose, ps: seq<Vec3>): (ws: seq<Vec3>)
    ensures |ws| == |ps|
    ensures forall i :: 0 <= i < |ps| ==> ws[i] == Transform(pose, ps[i])
  {
    seq(|ps|, i requires 0 <= i < |ps| => Transform(pose, ps[i]))
  }

  // ---------------------------------------------------------------------
  // Vectors of reals as sequences
  // ---------------------------------------------------------------------

  function Zeros(n: nat): (z: seq<real>)
    ensures |z| == n
    ensures forall i :: 0 <= i < n ==> z[i] == 0.0
  {
    seq(n, _ => 0.0)
  }

  function Dot(u: seq<real>, v: seq<real>): real
    requires |u| == |v|
  {
    if |u| == 0 then 0.0 else u[0] * v[0] + Dot(u[1..], v[1..])
  }

  lemma {:induction false} DotAppend(u1: seq<real>, u2: seq<real>, v1: seq<real>, v2: seq<real>)
    requires |u1| == |v1| && |u2| == |v2|
    ensures Dot(u1 + u2, v1 + v2) == Dot(u1, v1) + Dot(u2, v2)
  {
    if |u1| > 0 {
      assert (u1 + u2)[1..] == u1[1..] + u2;
      assert (v1 + v2)[1..] == v1[1..] + v2;
      DotAppend(u1[1..], u2, v1[1..], v2);
    } else {
      assert u1 + u2 == u2 && v1 + v2 == v2;
    }
  }

  lemma {:induction false} DotZeros(v: seq<real>)
    ensures Dot(Zeros(|v|), v) == 0.0
  {
    if |v| > 0 {
      assert Zeros(|v|)[1..] == Zeros(|v| - 1);
      DotZeros(v[1..]);
    }
  }

  /** The product of a matrix given by its rows with a vector. */
  function MatVec(a: seq<seq<real>>, x: seq<real>): (y: seq<real>)
    requires forall r :: 0 <= r < |a| ==> |a[r]| == |x|
    ensures |y| == |a|
    ensures forall r :: 0 <= r < |a| ==> y[r] == Dot(a[r], x)
  {
    seq(|a|, r requires 0 <= r < |a| => Dot(a[r], x))
  }

  function Coords(p: Vec3): (s: seq<real>)
    ensures |s| == 3
    ensures forall k :: 0 <= k < 3 ==> s[k] == p.At(k)
  {
    [p.x, p.y, p.z]
  }

  // ---------------------------------------------------------------------
  // The layout of the unknowns
  // ---------------------------------------------------------------------

  /** `R = [x[:3], x[3:6], x[6:9]]` and `t = x[9:]`. */
  function Unpack(x: seq<real>): (pose: Pose)
    requires |x| == Unknowns
    ensures forall k, j :: 0 <= k < 3 && 0 <= j < 3 ==> pose.rot.Row(k).At(j) == x[3 * k + j]
    ensures forall k :: 0 <= k < 3 ==> pose.t.At(k) == x[9 + k]
  {
    Pose(Mat3(Vec3(x[0], x[1], x[2]), Vec3(x[3], x[4], x[5]), Vec3(x[6], x[7], x[8])),
         Vec3(x[9], x[10], x[11]))
  }

  /** The inverse layout: the rows of `rot`, then `t`. */
  function Pack(pose: Pose): (x: seq<real>)
    ensures |x| == Unknowns
  {
    Coords(pose.rot.r0) + Coords(pose.rot.r1) + Coords(pose.rot.r2) + Coords(pose.t)
  }

  lemma UnpackPack(pose: Pose)
    ensures Unpack(Pack(pose)) == pose
  {
    var x := Pack(pose);
    assert x[0] == pose.rot.r0.x && x[4] == pose.rot.r1.y && x[8] == pose.rot.r2.z && x[11] == pose.t.z;
  }

  lemma PackUnpack(x: seq<real>)
    requires |x| == Unknowns
    ensures Pack(Unpack(x)) == x
  {
    var y := Pack(Unpack(x));
    assert forall j :: 0 <= j < Unknowns ==> y[j] == x[j];
  }

  // ---------------------------------------------------------------------
  // The coefficient matrix A
  // ---------------------------------------------------------------------

  /**
   * Row `3i + k` of `A` for the camera point `p = p_i`: zeros, `p` in
   * columns `3k .. 3k+2`, zeros, and a single 1 in column `9 + k`.
   */
  function DesignRow(p: Vec3, k: nat): (row: seq<real>)
    requires k < 3
    ensures |row| == Unknowns
  {
    Zeros(3 * k) + Coords(p) + Zeros(6 - 3 * k) + Zeros(k) + [1.0] + Zeros(2 - k)
  }

  /** The entries of a row: four are written, every other one is zero. */
  lemma DesignRowEntries(p: Vec3, k: nat, c: nat)
    requires k < 3 && c < Unknowns
    ensures DesignRow(p, k)[c] ==
      if 3 * k <= c < 3 * k + 3 then p.At(c - 3 * k)
      else if c == 9 + k then 1.0
      else 0.0
  {
    var front := Zeros(3 * k) + Coords(p) + Zeros(6 - 3 * k);
    var back := Zeros(k) + [1.0] + Zeros(2 - k);
    assert DesignRow(p, k) == front + back;
    if c < 9 {
      assert DesignRow(p, k)[c] == front[c];
      if c < 3 * k {
        assert front[c] == Zeros(3 * k)[c];
      } else if c < 3 * k + 3 {
        assert front[c] == Coords(p)[c - 3 * k];
      } else {
        assert front[c] == Zeros(6 - 3 * k)[c - 3 * k - 3];
      }
    } else {
      assert DesignRow(p, k)[c] == back[c - 9];
    }
  }

  lemma DotCoords(p: Vec3, y: seq<real>)
    requires |y| == 3
    ensures Dot(Coords(p), y) == p.x * y[0] + p.y * y[1] + p.z * y[2]
  {
    assert Coords(p)[1..] == [p.y, p.z] && [p.y, p.z][1..] == [p.z];
    assert Dot([p.z], y[2..]) == p.z * y[2];
  }

  /** The first nine columns of row `3i + k`: `p` placed at columns `3k .. 3k+2`. */
  lemma FrontDot(p: Vec3, k: nat, x: seq<real>)
    requires k < 3 && |x| == Unknowns
    ensures Dot(Zeros(3 * k) + Coords(p) + Zeros(6 - 3 * k), x[..9]) ==
            p.x * x[3 * k] + p.y * x[3 * k + 1] + p.z * x[3 * k + 2]
  {
    var y0, y1, y2 := x[..3 * k], x[3 * k..3 * k + 3], x[3 * k + 3..9];
    assert x[..9] == y0 + y1 + y2;
    DotAppend(Zeros(3 * k) + Coords(p), Zeros(6 - 3 * k), y0 + y1, y2);
    DotAppend(Zeros(3 * k), Coords(p), y0, y1);
    DotZeros(y0);
    DotZeros(y2);
    DotCoords(p, y1);
  }

  /** The last three columns of row `3i + k`: a single 1 at column `9 + k`. */
  lemma BackDot(k: nat, x: seq<real>)
    requires k < 3 && |x| == Unknowns
    ensures Dot(Zeros(k) + [1.0] + Zeros(2 - k), x[9..]) == x[9 + k]
  {
    var y0, y1, y2 := x[9..9 + k], x[9 + k..10 + k], x[10 + k..];
    assert x[9..] == y0 + y1 + y2;
    DotAppend(Zeros(k) + [1.0], Zeros(2 - k), y0 + y1, y2);
    DotAppend(Zeros(k), [1.0], y0, y1);
    DotZeros(y0);
    DotZeros(y2);
    assert Dot([1.0], y1) == x[9 + k];
  }

  /** Only the four written entries of a row contribute to its product with `x`. */
  lemma DesignRowDot(p: Vec3, k: nat, x: seq<real>)
    requires k < 3 && |x| == Unknowns
    ensures Dot(DesignRow(p, k), x) == p.x * x[3 * k] + p.y * x[3 * k + 1] + p.z * x[3 * k + 2] + x[9 + k]
  {
    var front, back := Zeros(3 * k) + Coords(p) + Zeros(6 - 3 * k), Zeros(k) + [1.0] + Zeros(2 - k);
    assert DesignRow(p, k) == front + back;
    assert x == x[..9] + x[9..];
    DotAppend(front, back, x[..9], x[9..]);
    FrontDot(p, k, x);
    BackDot(k, x);
  }

  /** Coordinate `k` of the transformed point, read off the twelve unknowns. */
  lemma TransformAt(p: Vec3, k: nat, x: seq<real>)
    requires k < 3 && |x| == Unknowns
    ensures Transform(Unpack(x), p).At(k) == p.x * x[3 * k] + p.y * x[3 * k + 1] + p.z * x[3 * k + 2] + x[9 + k]
  {
  }

  /** One row of `A . x` is one coordinate of the transformed point. */
  lemma DesignRowProduct(p: Vec3, k: nat, x: seq<real>)
    requires k < 3 && |x| == Unknowns
    ensures Dot(DesignRow(p, k), x) == Transform(Unpack(x), p).At(k)
  {
    DesignRowDot(p, k, x);
    TransformAt(p, k, x);
  }

  /** All rows of `A`: three per camera point, in point order. */
  function DesignMatrix(ps: seq<Vec3>): (a: seq<seq<real>>)
    ensures |a| == 3 * |ps|
    ensures forall r :: 0 <= r < |a| ==> |a[r]| == Unknowns
  {
    if ps == [] then []
    else [DesignRow(ps[0], 0), DesignRow(ps[0], 1), DesignRow(ps[0], 2)] + DesignMatrix(ps[1..])
  }

  /** Row `r` of `A` is row `r % 3` of the block of point `r / 3`. */
  lemma {:induction false} DesignMatrixRow(ps: seq<Vec3>, r: nat)
    requires r < 3 * |ps|
    ensures r / 3 < |ps| && DesignMatrix(ps)[r] == DesignRow(ps[r / 3], r % 3)
  {
    var block := [DesignRow(ps[0], 0), DesignRow(ps[0], 1), DesignRow(ps[0], 2)];
    assert DesignMatrix(ps) == block + DesignMatrix(ps[1..]);
    if r < 3 {
      assert DesignMatrix(ps)[r] == block[r];
    } else {
      DesignMatrixRow(ps[1..], r - 3);
      assert (r - 3) / 3 == r / 3 - 1 && (r - 3) % 3 == r % 3;
      assert DesignMatrix(ps)[r] == DesignMatrix(ps[1..])[r - 3];
    }
  }

  /**
   * `A` is 3N x 12, row `3i + k` holds `p_i` in columns `3k .. 3k+2` and 1
   * in column `9 + k`, and every other entry is zero.
   */
  lemma DesignMatrixEntries(ps: seq<Vec3>, r: nat, c: nat)
    requires r < 3 * |ps| && c < Unknowns
    ensures |DesignMatrix(ps)| == 3 * |ps| && |DesignMatrix(ps)[r]| == Unknowns
    ensures DesignMatrix(ps)[r][c] ==
      if 3 * (r % 3) <= c < 3 * (r % 3) + 3 then ps[r / 3].At(c - 3 * (r % 3))
      else if c == 9 + r % 3 then 1.0
      else 0.0
  {
    DesignMatrixRow(ps, r);
    DesignRowEntries(ps[r / 3], r % 3, c);
  }

  // ---------------------------------------------------------------------
  // The right-hand side b
  // ---------------------------------------------------------------------

  /** Row-major flattening of a list of points: `np.reshape(p_world, 3*N)`. */
  function Flatten(ws: seq<Vec3>): (b: seq<real>)
    ensures |b| == 3 * |ws|
    ensures forall i, k :: 0 <= i < |ws| && 0 <= k < 3 ==> b[3 * i + k] == ws[i].At(k)
  {
    if ws == [] then [] else Coords(ws[0]) + Flatten(ws[1..])
  }

  lemma FlattenInjective(us: seq<Vec3>, ws: seq<Vec3>)
    requires |us| == |ws|
    ensures Flatten(us) == Flatten(ws) <==> us == ws
  {
    if Flatten(us) == Flatten(ws) {
      forall i | 0 <= i < |us|
        ensures us[i] == ws[i]
      {
        assert Flatten(us)[3 * i] == Flatten(ws)[3 * i];
        assert Flatten(us)[3 * i + 1] == Flatten(ws)[3 * i + 1];
        assert Flatten(us)[3 * i + 2] == Flatten(ws)[3 * i + 2];
        assert us[i].At(0) == ws[i].At(0) && us[i].At(1) == ws[i].At(1) && us[i].At(2) == ws[i].At(2);
      }
    }
  }

  // ---------------------------------------------------------------------
  // What the system means
  // ---------------------------------------------------------------------

  /** `A . x` is `rot . p_i + t` stacked over all i, for the unpacked `x`. */
  lemma SystemProduct(ps: seq<Vec3>, x: seq<real>)
    requires |x| == Unknowns
    ensures MatVec(DesignMatrix(ps), x) == Flatten(Predict(Unpack(x), ps))
  {
    var a := DesignMatrix(ps);
    var lhs := MatVec(a, x);
    var rhs := Flatten(Predict(Unpack(x), ps));
    forall r | 0 <= r < |lhs|
      ensures lhs[r] == rhs[r]
    {
      DesignMatrixRow(ps, r);
      DesignRowProduct(ps[r / 3], r % 3, x);
      assert r == 3 * (r / 3) + r % 3;
    }
  }

  /**
   * `x` solves `A . x = b` exactly iff the pose it unpacks to maps every
   * camera point onto its world point.
   */
  lemma ExactSolution(ps: seq<Vec3>, ws: seq<Vec3>, x: seq<real>)
    requires |ps| == |ws| && |x| == Unknowns
    ensures MatVec(DesignMatrix(ps), x) == Flatten(ws) <==>
            forall i :: 0 <= i < |ps| ==> Transform(Unpack(x), ps[i]) == ws[i]
  {
    SystemProduct(ps, x);
    FlattenInjective(Predict(Unpack(x), ps), ws);
  }

  // ---------------------------------------------------------------------
  // Filling A in place, and the whole of `calibrate` up to the solve
  // ---------------------------------------------------------------------

  /** `a` holds exactly the coefficient matrix for the points `ps`. */
  ghost predicate IsDesign(a: array2<real>, ps: seq<Vec3>)
    reads a
  {
    && a.Length0 == 3 * |ps| && a.Length1 == Unknowns
    && forall r, c :: 0 <= r < a.Length0 && 0 <= c < a.Length1 ==> a[r, c] == DesignMatrix(ps)[r][c]
  }

  /** The twelve assignments for point `i` into rows `3i .. 3i+2` of a zeroed `a`. */
  method WriteBlock(a: array2<real>, i: nat, p: Vec3)
    requires 3 * i + 3 <= a.Length0 && a.Length1 == Unknowns
    requires forall r, c :: 3 * i <= r < 3 * i + 3 && 0 <= c < Unknowns ==> a[r, c] == 0.0
    modifies a
    ensures forall k, c :: 0 <= k < 3 && 0 <= c < Unknowns ==> a[3 * i + k, c] == DesignRow(p, k)[c]
    ensures forall r, c :: 0 <= r < a.Length0 && 0 <= c < Unknowns && (r < 3 * i || 3 * i + 3 <= r) ==>
      a[r, c] == old(a[r, c])
  {
    a[3 * i, 0] := p.x;
    a[3 * i, 1] := p.y;
    a[3 * i, 2] := p.z;
    a[3 * i, 9] := 1.0;
    a[3 * i + 1, 3] := p.x;
    a[3 * i + 1, 4] := p.y;
    a[3 * i + 1, 5] := p.z;
    a[3 * i + 1, 10] := 1.0;
    a[3 * i + 2, 6] := p.x;
    a[3 * i + 2, 7] := p.y;
    a[3 * i + 2, 8] := p.z;
    a[3 * i + 2, 11] := 1.0;
    forall k, c | 0 <= k < 3 && 0 <= c < Unknowns
      ensures a[3 * i + k, c] == DesignRow(p, k)[c]
    {
      DesignRowEntries(p, k, c);
    }
  }

  /** `A = np.zeros((3*dim, 12))`, then three rows per point. */
  method AssembleDesign(ps: seq<Vec3>) returns (a: array2<real>)
    ensures fresh(a)
    ensures IsDesign(a, ps)
  {
    var dim := |ps|;
    a := new real[3 * dim, Unknowns]((r, c) => 0.0);
    for i := 0 to dim
      invariant a.Length0 == 3 * dim && a.Length1 == Unknowns
      invariant forall r, c :: 0 <= r < 3 * i && 0 <= c < Unknowns ==> a[r, c] == DesignMatrix(ps)[r][c]
      invariant forall r, c :: 3 * i <= r < 3 * dim && 0 <= c < Unknowns ==> a[r, c] == 0.0
    {
      WriteBlock(a, i, ps[i]);
      forall r, c | 3 * i <= r < 3 * i + 3 && 0 <= c < Unknowns
        ensures a[r, c] == DesignMatrix(ps)[r][c]
      {
        DesignMatrixRow(ps, r);
        assert r / 3 == i && a[3 * i + r % 3, c] == DesignRow(ps[i], r % 3)[c];
      }
    }
  }

  /** What a solve is handed: the assembled `A` and `b`. */
  datatype System = System(a: array2<real>, b: seq<real>)

  /** The exceptions `calibrate` raises before it reaches the solve. */
  datatype SolveError =
    | StackError        // no clicks: `np.hstack` cannot join a (0,) array with a (0, 1) one (ValueError)
    | DepthIndexError   // a click off the depth image: `I_depth[c[1], c[0]]` raises IndexError
    | ReshapeError      // `np.reshape(p_world, 3*dim)` with a world table of another length

  /**
   * `calibrate` up to the least-squares solve: the camera points of the
   * clicks, then `A` and `b`. An empty click list fails at the homogeneous
   * lift, then the depth lookup can fail, then the reshape.
   */
  method Calibrate(kinv: Mat3, img: Image, coords: seq<Pixel>, world: seq<Vec3>)
    returns (r: Result<System, SolveError>)
    ensures r == Err(StackError) <==> coords == []
    ensures r == Err(DepthIndexError) <==> coords != [] && !AllInBounds(img, coords)
    ensures r == Err(ReshapeError) <==> coords != [] && AllInBounds(img, coords) && |world| != |coords|
    ensures r.Ok? ==> && fresh(r.value.a)
                      && IsDesign(r.value.a, CameraPoints(kinv, img, coords))
                      && r.value.b == Flatten(world)
  {
    if coords == [] {
      return Err(StackError);
    }
    if !AllInBounds(img, coords) {
      return Err(DepthIndexError);
    }
    var pCamera := CameraPoints(kinv, img, coords);
    var a := AssembleDesign(pCamera);
    if |world| != |coords| {
      return Err(ReshapeError);
    }
    r := Ok(System(a, Flatten(world)));
  }
}
