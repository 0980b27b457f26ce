/**
 Three-component real vectors, standing in for the THREE.Vector3 values a fish
 carries (position, velocity, acceleration), and the length clamp the update
 step applies to the velocity.

 Reals have no square root in Dafny, so a vector's length is passed in as a
 number together with the fact that it IS the length (`IsLengthOf`).
 */
module Vectors {

  datatype Vec3 = Vec3(x: real, y: real, z: real)

  const Zero: Vec3 := Vec3(0.0, 0.0, 0.0)

  function Add(a: Vec3, b: Vec3): Vec3 {
    Vec3(a.x + b.x, a.y + b.y, a.z + b.z)
  }

  function Scale(v: Vec3, k: real): Vec3 {
    Vec3(k * v.x, k * v.y, k * v.z)
  }

  /** The squared Euclidean length. */
  function LengthSq(v: Vec3): real {
    v.x * v.x + v.y * v.y + v.z * v.z
  }

  /** `len` is the Euclidean length of `v`. */
  predicate IsLengthOf(len: real, v: Vec3) {
    len >= 0.0 && len * len == LengthSq(v)
  }

  /** Coordinate `k` of `v`: 0 is x, 1 is y, 2 is z. */
  function Coord(v: Vec3, k: nat): real
    requires k < 3
  {
    if k == 0 then v.x else if k == 1 then v.y else v.z
  }

  function Min(a: real, b: real): real { if a <= b then a else b }

  function Max(a: real, b: real): real { if a >= b then a else b }

  /** Scaling by `k` scales the squared length by `k * k`. */
  lemma ScaleLengthSq(v: Vec3, k: real)
    ensures LengthSq(Scale(v, k)) == (k * k) * LengthSq(v)
  {
  }

  lemma SquareOfProduct(a: real, b: real)
    ensures (a * a) * (b * b) == (a * b) * (a * b)
  {
  }

  /** For non-negative reals, comparing squares compares the numbers. */
  lemma SquareMonotone(a: real, b: real)
    requires 0.0 <= a && 0.0 <= b
    ensures a <= b <==> a * a <= b * b
  {
    if a <= b {
      SquareGrows(a, b);
    } else {
      SquareGrows(b, a);
    }
  }

  /** Between non-negative reals, the larger one has the larger square. */
  lemma SquareGrows(a: real, b: real)
    requires 0.0 <= a <= b
    ensures a * a <= b * b
    ensures a < b ==> a * a < b * b
  {
    ProductSign(b - a, b + a);
    assert (b - a) * (b + a) == b * b - a * a;
  }

  /** A product of non-negative reals is non-negative, and positive when both are. */
  lemma ProductSign(x: real, y: real)
    requires 0.0 <= x && 0.0 <= y
    ensures 0.0 <= x * y
    ensures 0.0 < x && 0.0 < y ==> 0.0 < x * y
  {
  }

  /** A number divided by a larger positive one gives a fraction in [0, 1). */
  lemma FractionBelowOne(m: real, d: real)
    requires 0.0 <= m < d
    ensures 0.0 <= m / d < 1.0
  {
  }

  lemma DivSelf(d: real)
    requires d != 0.0
    ensures d / d == 1.0
  {
  }

  /** Dividing by a non-zero number and multiplying back is the identity. */
  lemma DivMul(c: real, d: real)
    requires d != 0.0
    ensures (c / d) * d == c
  {
  }

  /**
   THREE.Vector3.clampLength(0, hi), the only way the update step calls it,
   given the length `len` of `v`: divide by the length (by 1 when the length
   is 0, the `length || 1` guard) and multiply by the length clamped into
   [0, hi].
   */
  function ClampLength(v: Vec3, hi: real, len: real): Vec3 {
    var divisor := if len == 0.0 then 1.0 else len;
    Scale(v, Max(0.0, Min(hi, len)) / divisor)
  }

  /**
   What clampLength promises: the result is `v` scaled by a non-negative
   factor and its length is `len` clamped into [0, hi]; a vector of length
   zero comes back as the zero vector and a non-zero one whose length is
   already within `hi` comes back unchanged.
   */
  lemma ClampLengthSpec(v: Vec3, hi: real, len: real)
    requires IsLengthOf(len, v)
    ensures len == 0.0 ==> ClampLength(v, hi, len) == Zero
    ensures 0.0 < len <= hi ==> ClampLength(v, hi, len) == v
    ensures len > 0.0 ==>
      LengthSq(ClampLength(v, hi, len)) == Max(0.0, Min(hi, len)) * Max(0.0, Min(hi, len))
    ensures exists k :: 0.0 <= k && ClampLength(v, hi, len) == Scale(v, k)
  {
    if len == 0.0 {
      assert ClampLength(v, hi, len) == Scale(v, 0.0);
    } else {
      ClampScales(v, hi, len);
      if len <= hi {
        DivSelf(len);
      }
    }
  }

  /** For a positive length the clamp scales by `c / len` and has squared length `c * c`. */
  lemma ClampScales(v: Vec3, hi: real, len: real)
    requires IsLengthOf(len, v) && len > 0.0
    ensures ClampLength(v, hi, len) == Scale(v, Max(0.0, Min(hi, len)) / len)
    ensures LengthSq(ClampLength(v, hi, len)) == Max(0.0, Min(hi, len)) * Max(0.0, Min(hi, len))
    ensures 0.0 <= Max(0.0, Min(hi, len)) / len
  {
    var c := Max(0.0, Min(hi, len));
    var k := c / len;
    DivMul(c, len);
    ScaleLengthSq(v, k);
    SquareOfProduct(k, len);
  }

  /**
   Reference meaning of "clamp the length of `v` to at most `m`": the
   result is `v` shrunk (never stretched or turned) along its own direction,
   keeping its length when that is within `m` and cut to exactly `m`
   otherwise.
   */
  ghost predicate IsClampOf(r: Vec3, v: Vec3, m: real) {
    && (exists k :: 0.0 <= k <= 1.0 && r == Scale(v, k))
    && (LengthSq(v) <= m * m ==> LengthSq(r) == LengthSq(v))
    && (LengthSq(v) > m * m ==> LengthSq(r) == m * m)
  }

  /** clampLength(0, m) is the clamp of `IsClampOf`, so it bounds the length by `m`. */
  lemma ClampLengthIsClamp(v: Vec3, m: real, len: real)
    requires IsLengthOf(len, v) && 0.0 <= m
    ensures IsClampOf(ClampLength(v, m, len), v, m)
    ensures LengthSq(ClampLength(v, m, len)) <= m * m
  {
    var r := ClampLength(v, m, len);
    SquareMonotone(len, m);
    if len == 0.0 {
      assert r == Scale(v, 0.0);
    } else if len <= m {
      ClampLengthSpec(v, m, len);
      assert r == Scale(v, 1.0);
    } else {
      ClampScales(v, m, len);
      FractionBelowOne(m, len);
      assert r == Scale(v, m / len);
    }
  }
}
