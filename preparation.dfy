/**
 * Turning clicked pixels into camera-frame points, the first half of
 * `calibrate` in scripts/calibrate.py: homogeneous lift of each click,
 * the ray `K^-1 . (u, v, 1)`, the depth sample under the click, scaling
 * by depth / 1000 (millimetres to metres), and the fixed remap from the
 * optical frame (x right, y down, z forward) to the frame with x out,
 * y left, z up.
 *
 * The inverse intrinsic matrix is an input (`kinv`): computing it with
 * `np.linalg.inv` is not part of this model.
 */
module Preparation {
  import opened Geometry

  /** A raw depth sample: the depth image is decoded as 16UC1. */
  type Depth16 = d: nat | d < 0x1_0000

  /** A depth image as a list of rows; `img[row][column]`. */
  type Image = seq<seq<Depth16>>

  /** A clicked pixel: `x` is the column, `y` the row. */
  datatype Pixel = Pixel(x: int, y: int)

  /** Depth is stored in millimetres; world points are in metres. */
  const DepthScale: real := 1000.0

  /** numpy accepts an index `i` into an axis of length `len` iff `-len <= i < len`. */
  predicate IndexOk(i: int, len: nat)
  {
    -(len as int) <= i < len
  }

  /** The position numpy reads for an accepted index: negative ones count from the end. */
  function Wrap(i: int, len: nat): (j: nat)
    requires IndexOk(i, len)
    ensures j < len
    ensures j == i || j == i + len
    ensures 0 <= i ==> j == i
  {
    if i < 0 then i + len else i
  }

  /** `I_depth[y, x]` does not raise IndexError. */
  predicate InBounds(img: Image, px: Pixel)
  {
    IndexOk(px.y, |img|) && IndexOk(px.x, |img[Wrap(px.y, |img|)]|)
  }

  predicate AllInBounds(img: Image, cs: seq<Pixel>)
  {
    forall i :: 0 <= i < |cs| ==> InBounds(img, cs[i])
  }

  /** The homogeneous coordinates `(u, v, 1)` of a click. */
  function Lift(px: Pixel): (v: Vec3)
    ensures v.z == 1.0
  {
    Vec3(px.x as real, px.y as real, 1.0)
  }

  /** Different clicks lift to different homogeneous points. */
  lemma LiftInjective(p: Pixel, q: Pixel)
    ensures Lift(p) == Lift(q) <==> p == q
  {
    if Lift(p) == Lift(q) {
      assert Lift(p).x == Lift(q).x && Lift(p).y == Lift(q).y;
    }
  }

  /** The depth sample under a click, `I_depth[y, x]`: row `y`, column `x`. */
  function DepthAt(img: Image, px: Pixel): (d: Depth16)
    requires InBounds(img, px)
    ensures 0 <= px.x && 0 <= px.y ==> d == img[px.y][px.x]
    ensures px.y < 0 && 0 <= px.x ==> d == img[|img| + px.y][px.x]
  {
    var row := Wrap(px.y, |img|);
    img[row][Wrap(px.x, |img[row]|)]
  }

  /** The list of depth samples, one per click, in click order. */
  function DepthSamples(img: Image, cs: seq<Pixel>): (s: seq<Depth16>)
    requires AllInBounds(img, cs)
    ensures |s| == |cs|
    ensures forall i :: 0 <= i < |cs| ==> s[i] == DepthAt(img, cs[i])
    ensures forall i :: 0 <= i < |cs| && 0 <= cs[i].x && 0 <= cs[i].y ==> s[i] == img[cs[i].y][cs[i].x]
    ensures forall i :: 0 <= i < |cs| && cs[i].y < 0 && 0 <= cs[i].x ==> s[i] == img[|img| + cs[i].y][cs[i].x]
  {
    if cs == [] then [] else [DepthAt(img, cs[0])] + DepthSamples(img, cs[1..])
  }

  /** The optical-frame point of a click at raw depth `d`. */
  function BackProject(kinv: Mat3, px: Pixel, d: Depth16): (p: Vec3)
    ensures d == 0 ==> p == Zero
  {
    Scale(MulVec(kinv, Lift(px)), d as real / DepthScale)
  }

  /** The fixed axis remap `[[0,0,1],[-1,0,0],[0,-1,0]]`. */
  const AxisRemap: Mat3 := Mat3(Vec3(0.0, 0.0, 1.0), Vec3(-1.0, 0.0, 0.0), Vec3(0.0, -1.0, 0.0))

  /** Re-expresses an optical-frame point in the x-out, y-left, z-up frame. */
  function Remap(v: Vec3): (r: Vec3)
    ensures r == Vec3(v.z, -v.x, -v.y)
    ensures NormSq(r) == NormSq(v)
  {
    MulVec(AxisRemap, v)
  }

  /** The camera-frame points handed to the linear-system builder. */
  function CameraPoints(kinv: Mat3, img: Image, cs: seq<Pixel>): (ps: seq<Vec3>)
    requires AllInBounds(img, cs)
    ensures |ps| == |cs|
    ensures forall i :: 0 <= i < |cs| ==> ps[i] == Remap(BackProject(kinv, cs[i], DepthAt(img, cs[i])))
  {
    var s := DepthSamples(img, cs);
    seq(|cs|, i requires 0 <= i < |cs| => Remap(BackProject(kinv, cs[i], s[i])))
  }

  /** A click over a zero depth sample becomes the camera origin. */
  lemma ZeroDepthIsOrigin(kinv: Mat3, img: Image, cs: seq<Pixel>, i: nat)
    requires AllInBounds(img, cs) && i < |cs|
    requires DepthAt(img, cs[i]) == 0
    ensures CameraPoints(kinv, img, cs)[i] == Zero
  {
  }

  /** The transpose of the remap matrix, written out. */
  const AxisRemapT: Mat3 := Mat3(Vec3(0.0, -1.0, 0.0), Vec3(0.0, 0.0, -1.0), Vec3(1.0, 0.0, 0.0))

  lemma AxisRemapTranspose()
    ensures Transpose(AxisRemap) == AxisRemapT
    ensures Transpose(AxisRemapT) == AxisRemap
  {
  }

  /**
   * The remap matrix is orthogonal: its transpose undoes it on either side,
   * which is `R^T . R = R . R^T = I` read on every vector.
   */
  lemma AxisRemapIsOrthogonal(v: Vec3)
    ensures MulVec(Transpose(AxisRemap), MulVec(AxisRemap, v)) == v
    ensures MulVec(AxisRemap, MulVec(Transpose(AxisRemap), v)) == v
  {
    AxisRemapTranspose();
    assert MulVec(AxisRemapT, v) == Vec3(-v.y, -v.z, v.x);
  }

  /** Together with orthogonality: the remap is a proper rotation, not a reflection. */
  lemma AxisRemapDet()
    ensures Det(AxisRemap) == 1.0
  {
  }

  lemma MulVecMatMul(a: Mat3, b: Mat3, v: Vec3)
    ensures MulVec(MatMul(a, b), v) == MulVec(a, MulVec(b, v))
  {
    RowTimesDot(a.r0, b, v);
    RowTimesDot(a.r1, b, v);
    RowTimesDot(a.r2, b, v);
  }

  lemma RowTimesDot(w: Vec3, b: Mat3, v: Vec3)
    ensures Dot3(RowTimes(w, b), v) == Dot3(w, MulVec(b, v))
  {
    calc {
      Dot3(RowTimes(w, b), v);
      (w.x * b.r0.x + w.y * b.r1.x + w.z * b.r2.x) * v.x
        + (w.x * b.r0.y + w.y * b.r1.y + w.z * b.r2.y) * v.y
        + (w.x * b.r0.z + w.y * b.r1.z + w.z * b.r2.z) * v.z;
      w.x * (b.r0.x * v.x + b.r0.y * v.y + b.r0.z * v.z)
        + w.y * (b.r1.x * v.x + b.r1.y * v.y + b.r1.z * v.z)
        + w.z * (b.r2.x * v.x + b.r2.y * v.y + b.r2.z * v.z);
      Dot3(w, MulVec(b, v));
    }
  }

  lemma MulVecScale(m: Mat3, v: Vec3, s: real)
    ensures MulVec(m, Scale(v, s)) == Scale(MulVec(m, v), s)
  {
  }

  /**
   * Back-projection inverts projection: pushing the back-projected point
   * through `K` gives the homogeneous pixel scaled by the depth in metres.
   */
  lemma BackProjectRoundTrip(k: Mat3, kinv: Mat3, px: Pixel, d: Depth16)
    requires MatMul(k, kinv) == Identity
    ensures MulVec(k, BackProject(kinv, px, d)) == Scale(Lift(px), d as real / DepthScale)
  {
    var s := d as real / DepthScale;
    calc {
      MulVec(k, BackProject(kinv, px, d));
      MulVec(k, Scale(MulVec(kinv, Lift(px)), s));
      { MulVecScale(k, MulVec(kinv, Lift(px)), s); }
      Scale(MulVec(k, MulVec(kinv, Lift(px))), s);
      { MulVecMatMul(k, kinv, Lift(px)); }
      Scale(MulVec(Identity, Lift(px)), s);
    }
  }

  /**
   * With a non-zero depth, dividing that projection by its third coordinate
   * recovers the click.
   */
  lemma ReprojectionRecoversClick(k: Mat3, kinv: Mat3, px: Pixel, d: Depth16)
    requires MatMul(k, kinv) == Identity
    requires d != 0
    ensures var q := MulVec(k, BackProject(kinv, px, d));
      q.z != 0.0 && q.x / q.z == px.x as real && q.y / q.z == px.y as real
  {
    var s := d as real / DepthScale;
    BackProjectRoundTrip(k, kinv, px, d);
    var q, l := MulVec(k, BackProject(kinv, px, d)), Lift(px);
    assert q == Scale(l, s);
    DivideOut(l.x, s, q.x, q.z);
    DivideOut(l.y, s, q.y, q.z);
  }

  /** A coordinate scaled by `s`, divided by `1` scaled by `s`, is the coordinate. */
  lemma DivideOut(a: real, s: real, qa: real, qz: real)
    requires s > 0.0 && qa == a * s && qz == 1.0 * s
    ensures qz != 0.0 && qa / qz == a
  {
    assert qz == s;
  }

  /**
   * Projection inverts back-projection: a camera-frame point that `K` sends
   * to the homogeneous click scaled by the depth in metres is exactly the
   * point that click and depth back-project to.
   */
  lemma ProjectThenBackProject(k: Mat3, kinv: Mat3, p: Vec3, px: Pixel, d: Depth16)
    requires MatMul(kinv, k) == Identity
    requires MulVec(k, p) == Scale(Lift(px), d as real / DepthScale)
    ensures BackProject(kinv, px, d) == p
  {
    var s := d as real / DepthScale;
    calc {
      BackProject(kinv, px, d);
      Scale(MulVec(kinv, Lift(px)), s);
      { MulVecScale(kinv, Lift(px), s); }
      MulVec(kinv, Scale(Lift(px), s));
      MulVec(kinv, MulVec(k, p));
      { MulVecMatMul(kinv, k, p); }
      MulVec(Identity, p);
    }
  }

  /**
   * With a pinhole intrinsic matrix, whose inverse has last row (0, 0, 1),
   * the optical depth of the back-projected point is the sample in metres.
   */
  lemma BackProjectDepth(kinv: Mat3, px: Pixel, d: Depth16)
    requires kinv.r2 == Vec3(0.0, 0.0, 1.0)
    ensures BackProject(kinv, px, d).z == d as real / DepthScale
    ensures Remap(BackProject(kinv, px, d)).x == d as real / DepthScale
  {
  }
}
