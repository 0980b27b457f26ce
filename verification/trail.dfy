/**
 The per-fish trail: a bounded, newest-first history of positions
 (`trailPoints`) and its encoding into the two render buffers of the trail
 geometry, a flat `position` array with three numbers per point and a
 `size` array with one weight per point (Fish.updateTrail, main.js).
 */
module Trails {
  import opened Vectors

  /** The trail length the fish constructor sets (`maxTrailLength`). */
  const MaxTrailLength: nat := 20

  /** The two buffer attributes of the trail geometry. */
  datatype Geometry = Geometry(positions: seq<real>, sizes: seq<real>)

  /** The trail points, their cap, and the geometry last built from them. */
  datatype Trail = Trail(points: seq<Vec3>, cap: nat, geometry: Geometry)

  /** The trail a fish starts with: no points, the geometry has no data. */
  const EmptyTrail: Trail := Trail([], MaxTrailLength, Geometry([], []))

  // ---------------------------------------------------------------------
  // The bounded history
  // ---------------------------------------------------------------------

  /**
   `unshift` the position, then `pop` once if the list is now longer than
   the cap. A list already over the cap loses only one point per call.
   */
  function Push(trail: seq<Vec3>, p: Vec3, cap: nat): (r: seq<Vec3>)
    ensures |trail| <= cap ==> |r| <= cap
    ensures |trail| < cap ==> |r| == |trail| + 1
    ensures |trail| >= cap ==> |r| == |trail|
    ensures |r| > 0 ==> r[0] == p && r[1..] <= trail
  {
    var grown := [p] + trail;
    if |grown| > cap then grown[..|grown| - 1] else grown
  }

  /** Reference history: the newest `cap` entries of a newest-first list. */
  function Window(s: seq<Vec3>, cap: nat): seq<Vec3> {
    s[..if |s| <= cap then |s| else cap]
  }

  /** On a trail within its cap, a push keeps exactly the newest `cap` points. */
  lemma PushIsWindow(trail: seq<Vec3>, p: Vec3, cap: nat)
    requires |trail| <= cap
    ensures Push(trail, p, cap) == Window([p] + trail, cap)
  {
  }

  /**
   Pushing `ps` in order, `ps[0]` first: the trail after `|ps|` calls of
   `updateTrail` with nothing else touching it.
   */
  function PushAll(trail: seq<Vec3>, ps: seq<Vec3>, cap: nat): (r: seq<Vec3>)
    ensures |trail| <= cap ==> |r| <= cap
  {
    if |ps| == 0 then trail
    else Push(PushAll(trail, ps[..|ps| - 1], cap), ps[|ps| - 1], cap)
  }

  /**
   After the pushes, entry `i` is the position recorded `i` calls ago, and
   the old points follow behind the new ones until the cap cuts them off.
   */
  lemma {:induction false} PushAllHistory(trail: seq<Vec3>, ps: seq<Vec3>, cap: nat)
    requires |trail| <= cap
    ensures |PushAll(trail, ps, cap)| == if |ps| + |trail| <= cap then |ps| + |trail| else cap
    ensures forall i :: 0 <= i < |PushAll(trail, ps, cap)| ==>
      PushAll(trail, ps, cap)[i] == if i < |ps| then ps[|ps| - 1 - i] else trail[i - |ps|]
  {
    if |ps| > 0 {
      var front := ps[..|ps| - 1];
      var before := PushAll(trail, front, cap);
      PushAllHistory(trail, front, cap);
      var r := PushAll(trail, ps, cap);
      assert r == Push(before, ps[|ps| - 1], cap);
      forall i | 0 <= i < |r|
        ensures r[i] == if i < |ps| then ps[|ps| - 1 - i] else trail[i - |ps|]
      {
        if i > 0 {
          assert r[i] == before[i - 1];
        }
      }
    }
  }

  // ---------------------------------------------------------------------
  // The position buffer
  // ---------------------------------------------------------------------

  /** The trail flattened to x, y, z of point 0, then of point 1, and so on. */
  function Flatten(points: seq<Vec3>): (r: seq<real>)
    ensures |r| == 3 * |points|
    ensures forall i, k :: 0 <= i < |points| && 0 <= k < 3 ==> r[3 * i + k] == Coord(points[i], k)
  {
    if |points| == 0 then []
    else
      var rest := Flatten(points[1..]);
      var r := [points[0].x, points[0].y, points[0].z] + rest;
      assert forall i :: 1 <= i < |points| ==> points[1..][i - 1] == points[i];
      r
  }

  /** Reads a flat buffer back as points, three numbers at a time. */
  function Unflatten(flat: seq<real>): (r: seq<Vec3>)
    requires |flat| % 3 == 0
    ensures 3 * |r| == |flat|
  {
    if |flat| == 0 then []
    else [Vec3(flat[0], flat[1], flat[2])] + Unflatten(flat[3..])
  }

  /** Any buffer with the position layout of `points` is their flattening. */
  lemma {:induction false} LayoutDeterminesFlatten(points: seq<Vec3>, flat: seq<real>)
    requires |flat| == 3 * |points|
    requires forall i, k :: 0 <= i < |points| && 0 <= k < 3 ==> flat[3 * i + k] == Coord(points[i], k)
    ensures flat == Flatten(points)
  {
    if |points| > 0 {
      var tail, rest := points[1..], flat[3..];
      forall i, k | 0 <= i < |tail| && 0 <= k < 3
        ensures rest[3 * i + k] == Coord(tail[i], k)
      {
        assert rest[3 * i + k] == flat[3 * (i + 1) + k];
        assert tail[i] == points[i + 1];
      }
      LayoutDeterminesFlatten(tail, rest);
      assert flat[0] == Coord(points[0], 0) && flat[1] == Coord(points[0], 1) && flat[2] == Coord(points[0], 2);
      assert flat == [flat[0], flat[1], flat[2]] + rest;
    }
  }

  /** Decoding the position buffer gives back the trail exactly. */
  lemma {:induction false} UnflattenFlatten(points: seq<Vec3>)
    ensures Unflatten(Flatten(points)) == points
  {
    if |points| > 0 {
      var f := Flatten(points);
      assert f[3..] == Flatten(points[1..]);
      UnflattenFlatten(points[1..]);
      assert f[0] == points[0].x && f[1] == points[0].y && f[2] == points[0].z;
    }
  }

  /** Every buffer of whole points is the flattening of its decoding. */
  lemma {:induction false} FlattenUnflatten(flat: seq<real>)
    requires |flat| % 3 == 0
    ensures Flatten(Unflatten(flat)) == flat
  {
    if |flat| > 0 {
      FlattenUnflatten(flat[3..]);
      var u := Unflatten(flat);
      assert u[1..] == Unflatten(flat[3..]);
      assert flat == [flat[0], flat[1], flat[2]] + flat[3..];
    }
  }

  // ---------------------------------------------------------------------
  // The size buffer
  // ---------------------------------------------------------------------

  /** `(1 - i / n) * 2`: the weight of point `i` of `n`. */
  function SizeWeight(i: nat, n: nat): real
    requires i < n
  {
    (1.0 - (i as real) / (n as real)) * 2.0
  }

  /** The size buffer for a trail of `n` points. */
  function Sizes(n: nat): (r: seq<real>)
    ensures |r| == n
    ensures forall i :: 0 <= i < n ==> r[i] == SizeWeight(i, n)
  {
    seq(n, i requires 0 <= i < n => SizeWeight(i, n))
  }

  /** A smaller numerator over the same positive denominator gives a smaller fraction. */
  lemma DivStrictlyMonotone(a: real, b: real, d: real)
    requires a < b && 0.0 < d
    ensures a / d < b / d
  {
    DivMul(a, d);
    DivMul(b, d);
  }

  /**
   The newest point is drawn at size 2, the sizes fall strictly towards the
   oldest point, and even the oldest keeps a positive size, `2 / n`.
   */
  lemma SizesShape(n: nat)
    ensures n > 0 ==> Sizes(n)[0] == 2.0
    ensures n > 0 ==> Sizes(n)[n - 1] == 2.0 / (n as real)
    ensures forall i :: 0 <= i < n ==> Sizes(n)[i] > 0.0
    ensures forall i, j :: 0 <= i < j < n ==> Sizes(n)[i] > Sizes(n)[j]
  {
    var s := Sizes(n);
    forall i | 0 <= i < n
      ensures s[i] > 0.0
    {
      FractionBelowOne(i as real, n as real);
    }
    forall i, j | 0 <= i < j < n
      ensures s[i] > s[j]
    {
      DivStrictlyMonotone(i as real, j as real, n as real);
    }
    if n > 0 {
      LastWeight(n);
    }
  }

  lemma LastWeight(n: nat)
    requires n > 0
    ensures SizeWeight(n - 1, n) == 2.0 / (n as real)
  {
    var d := n as real;
    DivMul((n - 1) as real, d);
    DivMul(1.0, d);
    assert ((n - 1) as real) / d == 1.0 - 1.0 / d;
  }

  // ---------------------------------------------------------------------
  // updateTrail
  // ---------------------------------------------------------------------

  /** The geometry built from a list of points: their flattening and their sizes. */
  function Encode(points: seq<Vec3>): (g: Geometry)
    ensures |g.positions| == 3 * |points| && |g.sizes| == |points|
    ensures forall i, k :: 0 <= i < |points| && 0 <= k < 3 ==>
      g.positions[3 * i + k] == Coord(points[i], k)
    ensures forall i :: 0 <= i < |points| ==> g.sizes[i] == SizeWeight(i, |points|)
  {
    Geometry(Flatten(points), Sizes(|points|))
  }

  /** The geometry shows the trail's current points. */
  predicate Consistent(t: Trail) {
    t.geometry == Encode(t.points)
  }

  /**
   The buffers built by the loop of updateTrail: one pass over the points,
   writing coordinates at `3i`, `3i + 1`, `3i + 2` and the weight at `i`.
   */
  method EncodeBuffers(points: seq<Vec3>) returns (positions: seq<real>, sizes: seq<real>)
    ensures Geometry(positions, sizes) == Encode(points)
  {
    var n := |points|;
    var pos := new real[3 * n];
    var sz := new real[n];
    var i := 0;
    while i < n
      invariant 0 <= i <= n
      invariant forall j, k :: 0 <= j < i && 0 <= k < 3 ==> pos[3 * j + k] == Coord(points[j], k)
      invariant forall j :: 0 <= j < i ==> sz[j] == SizeWeight(j, n)
    {
      pos[i * 3] := points[i].x;
      pos[i * 3 + 1] := points[i].y;
      pos[i * 3 + 2] := points[i].z;
      sz[i] := SizeWeight(i, n);
      i := i + 1;
    }
    positions, sizes := pos[..], sz[..];
    LayoutDeterminesFlatten(points, positions);
  }

  /**
   Fish.updateTrail given the fish's current position: push it, keeping
   the trail within its cap, then rebuild both buffers from the new points,
   three coordinates per point and the weight `(1 - i/n) * 2` per point.
   */
  function UpdateTrail(t: Trail, p: Vec3): (r: Trail)
    ensures r.cap == t.cap
    ensures |t.points| <= t.cap ==> |r.points| <= t.cap
    ensures |t.points| < t.cap ==> |r.points| == |t.points| + 1
    ensures |t.points| >= t.cap ==> |r.points| == |t.points|
    ensures |r.points| > 0 ==> r.points[0] == p && r.points[1..] <= t.points
    ensures |r.geometry.positions| == 3 * |r.points| && |r.geometry.sizes| == |r.points|
    ensures forall i, k :: 0 <= i < |r.points| && 0 <= k < 3 ==>
      r.geometry.positions[3 * i + k] == Coord(r.points[i], k)
    ensures forall i :: 0 <= i < |r.points| ==> r.geometry.sizes[i] == SizeWeight(i, |r.points|)
  {
    var points := Push(t.points, p, t.cap);
    Trail(points, t.cap, Encode(points))
  }

  /**
   A trail whose buffers have the layout updateTrail writes (three
   coordinates per point, point-major, and the weight `(1 - i/n) * 2` per
   point) shows its points: the buffers are exactly their encoding.
   */
  lemma LayoutIsConsistent(r: Trail)
    requires |r.geometry.positions| == 3 * |r.points| && |r.geometry.sizes| == |r.points|
    requires forall i, k :: 0 <= i < |r.points| && 0 <= k < 3 ==>
      r.geometry.positions[3 * i + k] == Coord(r.points[i], k)
    requires forall i :: 0 <= i < |r.points| ==> r.geometry.sizes[i] == SizeWeight(i, |r.points|)
    ensures Consistent(r)
  {
    LayoutDeterminesFlatten(r.points, r.geometry.positions);
    assert r.geometry.sizes == Sizes(|r.points|);
  }

  /**
   A trail known to be the result of pushes, read as a history: its length
   is `min(k + old length, cap)` and entry `i` is the `i`-th newest push.
   */
  lemma PushAllRecent(t: seq<Vec3>, trail: seq<Vec3>, ps: seq<Vec3>, cap: nat)
    requires |trail| <= cap && t == PushAll(trail, ps, cap)
    ensures |t| == if |ps| + |trail| <= cap then |ps| + |trail| else cap
    ensures forall i :: 0 <= i < |ps| && i < cap ==> t[i] == ps[|ps| - 1 - i]
  {
    PushAllHistory(trail, ps, cap);
    forall i | 0 <= i < |ps| && i < cap
      ensures t[i] == ps[|ps| - 1 - i]
    {
      assert i < |t|;
    }
  }
}
