/**
Scenes of textured triangles, and the culling that sends only triangles near the
region to replace: inside that region the picture stays the same. Coordinates
are real numbers.
*/
module SceneCulling {
  import opened Base

  datatype Vertex = Vertex(x: real, y: real, attributes: nat)

  datatype Batch = Batch(texture: u64, first: nat, count: nat)

  datatype Scene = Scene(vertices: seq<Vertex>, batches: seq<Batch>)

  datatype Triangle = Triangle(a: Vertex, b: Vertex, c: Vertex)

  datatype Bounds = Bounds(left: real, top: real, right: real, bottom: real)
  {
    predicate Has(x: real, y: real) { left <= x <= right && top <= y <= bottom }
  }

  /** Every batch lies within the vertices. */
  ghost predicate InRange(s: Scene) {
    forall k :: 0 <= k < |s.batches| ==> s.batches[k].first + s.batches[k].count <= |s.vertices|
  }

  function PushBatch(batches: seq<Batch>, texture: u64, first: nat, end: nat): seq<Batch>
    requires first <= end
  {
    if first == end then batches else batches + [Batch(texture, first, end - first)]
  }

  /** Append vertices as one batch. */
  function Append(s: Scene, texture: u64, vertices: seq<Vertex>): (r: Scene)
    ensures InRange(s) ==> InRange(r)
  {
    Scene(s.vertices + vertices, PushBatch(s.batches, texture, |s.vertices|, |s.vertices| + |vertices|))
  }

  /** Whole triangles, in order; a rest of fewer than three vertices is none. */
  function Triangles(vs: seq<Vertex>): seq<Triangle> {
    if |vs| < 3 then [] else [Triangle(vs[0], vs[1], vs[2])] + Triangles(vs[3..])
  }

  /** All corners on the far side of one edge of the region. */
  predicate Outside(a: Vertex, b: Vertex, c: Vertex, r: Bounds) {
    || (a.x < r.left && b.x < r.left && c.x < r.left)
    || (a.x > r.right && b.x > r.right && c.x > r.right)
    || (a.y < r.top && b.y < r.top && c.y < r.top)
    || (a.y > r.bottom && b.y > r.bottom && c.y > r.bottom)
  }

  function Kept(vs: seq<Vertex>, r: Bounds): seq<Vertex> {
    if |vs| < 3 then []
    else (if Outside(vs[0], vs[1], vs[2], r) then [] else vs[..3]) + Kept(vs[3..], r)
  }

  // What a scene shows at a point.

  /** The point is a weighted mean of the corners. */
  predicate Weighs(t: Triangle, u: real, v: real, w: real, x: real, y: real) {
    && u >= 0.0 && v >= 0.0 && w >= 0.0 && u + v + w == 1.0
    && x == u * t.a.x + v * t.b.x + w * t.c.x && y == u * t.a.y + v * t.b.y + w * t.c.y
  }

  ghost predicate Covers(t: Triangle, x: real, y: real) {
    exists u: real, v: real, w: real :: Weighs(t, u, v, w, x, y)
  }

  /** The triangles of one batch that cover the point, in painting order. */
  ghost function Covering(texture: u64, ts: seq<Triangle>, x: real, y: real): seq<(u64, Triangle)> {
    if ts == [] then []
    else (if Covers(ts[0], x, y) then [(texture, ts[0])] else []) + Covering(texture, ts[1..], x, y)
  }

  /** Everything the first `n` batches paint at the point, in painting order. */
  ghost function Picture(s: Scene, n: nat, x: real, y: real): seq<(u64, Triangle)>
    requires InRange(s) && n <= |s.batches|
  {
    if n == 0 then [] else
    var b := s.batches[n - 1];
    Picture(s, n - 1, x, y) + Covering(b.texture, Triangles(s.vertices[b.first..b.first + b.count]), x, y)
  }

  ghost function Painted(s: Scene, x: real, y: real): seq<(u64, Triangle)>
    requires InRange(s)
  {
    Picture(s, |s.batches|, x, y)
  }

  lemma MeanBelow(u: real, v: real, w: real, a: real, b: real, c: real, m: real)
    requires u >= 0.0 && v >= 0.0 && w >= 0.0 && u + v + w == 1.0 && a < m && b < m && c < m
    ensures u * a + v * b + w * c < m
  {
    Weigh(u, m - a);
    Weigh(v, m - b);
    Weigh(w, m - c);
    assert u * m + v * m + w * m == (u + v + w) * m;
  }

  lemma Weigh(u: real, d: real)
    requires u >= 0.0 && d > 0.0
    ensures u * d >= 0.0 && (u > 0.0 ==> u * d > 0.0)
  {
  }

  lemma MeanAbove(u: real, v: real, w: real, a: real, b: real, c: real, m: real)
    requires u >= 0.0 && v >= 0.0 && w >= 0.0 && u + v + w == 1.0 && a > m && b > m && c > m
    ensures u * a + v * b + w * c > m
  {
    Weigh(u, a - m);
    Weigh(v, b - m);
    Weigh(w, c - m);
    assert u * m + v * m + w * m == (u + v + w) * m;
  }

  /** A triangle beyond an edge of the region covers no point of it. */
  lemma OutsideCoversNothing(t: Triangle, r: Bounds, x: real, y: real)
    requires Outside(t.a, t.b, t.c, r) && r.Has(x, y)
    ensures !Covers(t, x, y)
  {
    forall u: real, v: real, w: real | Weighs(t, u, v, w, x, y) ensures false {
      if t.a.x < r.left && t.b.x < r.left && t.c.x < r.left {
        MeanBelow(u, v, w, t.a.x, t.b.x, t.c.x, r.left);
      } else if t.a.x > r.right && t.b.x > r.right && t.c.x > r.right {
        MeanAbove(u, v, w, t.a.x, t.b.x, t.c.x, r.right);
      } else if t.a.y < r.top && t.b.y < r.top && t.c.y < r.top {
        MeanBelow(u, v, w, t.a.y, t.b.y, t.c.y, r.top);
      } else {
        MeanAbove(u, v, w, t.a.y, t.b.y, t.c.y, r.bottom);
      }
    }
  }

  lemma {:induction false} KeptCovers(texture: u64, vs: seq<Vertex>, r: Bounds, x: real, y: real)
    requires r.Has(x, y)
    ensures Covering(texture, Triangles(Kept(vs, r)), x, y) == Covering(texture, Triangles(vs), x, y)
  {
    hide Covers;
    if |vs| >= 3 {
      var t, rest := Triangle(vs[0], vs[1], vs[2]), Kept(vs[3..], r);
      KeptCovers(texture, vs[3..], r, x, y);
      assert Triangles(vs)[1..] == Triangles(vs[3..]);
      if Outside(vs[0], vs[1], vs[2], r) {
        OutsideCoversNothing(t, r, x, y);
        assert Kept(vs, r) == rest;
      } else {
        assert Kept(vs, r) == vs[..3] + rest && (vs[..3] + rest)[3..] == rest;
        assert Triangles(Kept(vs, r))[1..] == Triangles(rest);
      }
    }
  }

  lemma {:induction false} PicturePrefix(s: Scene, s': Scene, n: nat, x: real, y: real)
    requires InRange(s) && InRange(s') && s.vertices <= s'.vertices && s.batches <= s'.batches && n <= |s.batches|
    ensures Picture(s', n, x, y) == Picture(s, n, x, y)
  {
    hide Covering, Triangles;
    if n > 0 {
      PicturePrefix(s, s', n - 1, x, y);
      var b := s.batches[n - 1];
      assert s'.batches[n - 1] == b;
      assert s'.vertices[b.first..b.first + b.count] == s.vertices[b.first..b.first + b.count];
    }
  }

  /** Appending a batch paints its triangles on top. */
  lemma AppendPaints(s: Scene, texture: u64, vs: seq<Vertex>, x: real, y: real)
    requires InRange(s)
    ensures Painted(Append(s, texture, vs), x, y) == Painted(s, x, y) + Covering(texture, Triangles(vs), x, y)
  {
    hide Covering, Triangles, Picture;
    var s' := Append(s, texture, vs);
    PicturePrefix(s, s', |s.batches|, x, y);
    if vs == [] {
      NothingCovers(texture, x, y);
    } else {
      var n := |s.batches|;
      assert s'.batches[n] == Batch(texture, |s.vertices|, |vs|);
      assert s'.vertices[|s.vertices|..|s.vertices| + |vs|] == vs;
      PictureNext(s', n, x, y);
    }
  }

  lemma PictureNext(s: Scene, n: nat, x: real, y: real)
    requires InRange(s) && n < |s.batches|
    ensures var b := s.batches[n];
      Picture(s, n + 1, x, y) == Picture(s, n, x, y) + Covering(b.texture, Triangles(s.vertices[b.first..b.first + b.count]), x, y)
  {
  }

  lemma NothingCovers(texture: u64, x: real, y: real)
    ensures Covering(texture, Triangles([]), x, y) == []
  {
  }

  /** The culled scene of the first `n` batches. */
  function Culled(s: Scene, r: Bounds, n: nat): (c: Scene)
    requires InRange(s) && n <= |s.batches|
    ensures InRange(c)
  {
    if n == 0 then Scene([], []) else
    var b := s.batches[n - 1];
    Append(Culled(s, r, n - 1), b.texture, Kept(s.vertices[b.first..b.first + b.count], r))
  }

  /** Inside the region, culling changes nothing of what is painted, nor its order. */
  lemma {:induction false} CullingKeepsPicture(s: Scene, r: Bounds, n: nat, x: real, y: real)
    requires InRange(s) && n <= |s.batches| && r.Has(x, y)
    ensures Painted(Culled(s, r, n), x, y) == Picture(s, n, x, y)
  {
    hide Covering, Triangles, Kept, Append, Painted;
    if n > 0 {
      CullingKeepsPicture(s, r, n - 1, x, y);
      var b := s.batches[n - 1];
      var vs := s.vertices[b.first..b.first + b.count];
      AppendPaints(Culled(s, r, n - 1), b.texture, Kept(vs, r), x, y);
      KeptCovers(b.texture, vs, r, x, y);
    } else {
      EmptyPaints(x, y);
    }
  }

  lemma EmptyPaints(x: real, y: real)
    ensures Painted(Scene([], []), x, y) == []
  {
  }

  /** The culling loop: batch by batch, triangle by triangle. */
  method Cull(s: Scene, r: Bounds) returns (c: Scene)
    requires InRange(s)
    ensures c == Culled(s, r, |s.batches|)
  {
    hide Kept, Append;
    c := Scene([], []);
    for n := 0 to |s.batches|
      invariant c == Culled(s, r, n)
    {
      var b := s.batches[n];
      var kept := KeepTriangles(s.vertices[b.first..b.first + b.count], r);
      c := Append(c, b.texture, kept);
    }
  }

  method KeepTriangles(vs: seq<Vertex>, r: Bounds) returns (kept: seq<Vertex>)
    ensures kept == Kept(vs, r)
  {
    hide Outside, Kept;
    kept := [];
    var at := 0;
    ghost var rest := vs;
    while at + 3 <= |vs|
      invariant 0 <= at <= |vs| && rest == vs[at..] && kept + Kept(rest, r) == Kept(vs, r)
    {
      KeptNext(rest, r, kept);
      if !Outside(vs[at], vs[at + 1], vs[at + 2], r) { kept := kept + vs[at..at + 3]; }
      rest := rest[3..];
      at := at + 3;
    }
    KeptEnd(rest, r);
  }

  lemma KeptNext(rest: seq<Vertex>, r: Bounds, kept: seq<Vertex>)
    requires |rest| >= 3
    ensures kept + Kept(rest, r)
      == (if Outside(rest[0], rest[1], rest[2], r) then kept else kept + rest[..3]) + Kept(rest[3..], r)
  {
  }

  lemma KeptEnd(rest: seq<Vertex>, r: Bounds)
    requires |rest| < 3
    ensures Kept(rest, r) == []
  {
  }
}
