/**
Scene composition on the GPU path. Geometry is cached for the whole desktop and
for each surface; every scene composed with the caches, after any mix of
successful and failed calls, is the scene a compositor without caches builds.
*/
module GpuScene {
  import opened Base
  import opened SceneCulling

  type Size = (u32, u32)

  const WHITE_TEXTURE_KEY: u64 := 0xffff_ffff_ffff_ffff

  datatype SurfaceKey = SurfaceKey(
    handle: u64,
    generation: u64,
    position: (i32, i32),
    size: Size,
    format: u32,
    clip: Option<nat>)

  /** A shown surface: its key and what it holds at the moment. */
  datatype Layer = Layer(key: SurfaceKey, content: nat)

  datatype DesktopKey = DesktopKey(size: Size, surfaces: seq<SurfaceKey>)

  datatype SurfaceGeometry = SurfaceGeometry(key: SurfaceKey, size: Size, vertices: seq<Vertex>)

  /** Deterministic geometry: the full-screen quad, the triangles of a surface, and the change to device coordinates. */
  datatype Painter = Painter(
    full: Size -> seq<Vertex>,
    generate: (nat, SurfaceKey, Size) -> Option<seq<Vertex>>,
    normalize: (Vertex, Size) -> Vertex)
  {
    ghost predicate Quads() { forall size :: |full(size)| == 6 }
  }

  /** Frames of overlays drawn above the desktop: the frame counter and the cursor. */
  datatype Overlay = Overlay(texture: u64, vertices: seq<Vertex>)

  /** One call of `compose`; `replaced` is the quad of the region to replace, when there is one. */
  datatype Frame = Frame(
    size: Size,
    layers: seq<Layer>,
    overlays: seq<Overlay>,
    replaced: Option<seq<Vertex>>,
    region: Bounds,
    displayed: bool,
    texturesReady: bool,
    encodes: Scene -> bool)
  {
    predicate Valid() { replaced.Some? ==> |replaced.value| == 6 }

    function Key(): DesktopKey { DesktopKey(size, Keys(layers)) }
  }

  function Keys(layers: seq<Layer>): (r: seq<SurfaceKey>)
    ensures |r| == |layers| && forall i :: 0 <= i < |r| ==> r[i] == layers[i].key
  {
    seq(|layers|, i requires 0 <= i < |layers| => layers[i].key)
  }

  // Composition without caches.

  /** The desktop: the full-screen quad, then each surface in stacking order. */
  function Desktop(p: Painter, size: Size, layers: seq<Layer>, n: nat): (r: Option<Scene>)
    requires n <= |layers|
    ensures r.Some? ==> InRange(r.value)
  {
    if n == 0 then Some(Append(Scene([], []), WHITE_TEXTURE_KEY, p.full(size))) else
    var below := Desktop(p, size, layers, n - 1);
    var l := layers[n - 1];
    var own := p.generate(l.content, l.key, size);
    if below.None? || own.None? then None else Some(Append(below.value, l.key.handle, own.value))
  }

  function WithOverlays(s: Scene, overlays: seq<Overlay>, n: nat): (r: Scene)
    requires n <= |overlays|
    ensures InRange(s) ==> InRange(r)
  {
    if n == 0 then s else Append(WithOverlays(s, overlays, n - 1), overlays[n - 1].texture, overlays[n - 1].vertices)
  }

  function Normalized(p: Painter, size: Size, vertices: seq<Vertex>): (r: seq<Vertex>)
    ensures |r| == |vertices| && forall i :: 0 <= i < |r| ==> r[i] == p.normalize(vertices[i], size)
  {
    seq(|vertices|, i requires 0 <= i < |vertices| => p.normalize(vertices[i], size))
  }

  /** The whole scene of a frame, built without caches. */
  function WholeScene(p: Painter, f: Frame): (r: Option<Scene>)
    requires f.Valid()
    ensures r.Some? ==> InRange(r.value)
  {
    if !f.displayed || !f.texturesReady then None else
    var desktop := Desktop(p, f.size, f.layers, |f.layers|);
    if desktop.None? || f.replaced.None? then None else
    var raw := WithOverlays(desktop.value, f.overlays, |f.overlays|);
    var vertices := Normalized(p, f.size, raw.vertices);
    if |vertices| < 6 then None else Some(Scene(f.replaced.value + vertices[6..], raw.batches))
  }

  /** What a compositor with empty caches makes of a frame: the whole scene, culled to the region to replace. */
  function Rebuilt(p: Painter, f: Frame): Option<Scene>
    requires f.Valid()
  {
    var whole := WholeScene(p, f);
    if whole.None? then None else
    var culled := Culled(whole.value, f.region, |whole.value.batches|);
    if f.encodes(culled) then Some(culled) else None
  }

  // The caches are right.

  /** Contents are determined by handle and content generation, the same way in every call. */
  ghost predicate Settled(world: (u64, u64) -> nat, layers: seq<Layer>) {
    forall i :: 0 <= i < |layers| ==> layers[i].content == world(layers[i].key.handle, layers[i].key.generation)
  }

  predicate GeometryRight(p: Painter, world: (u64, u64) -> nat, g: SurfaceGeometry) {
    p.generate(world(g.key.handle, g.key.generation), g.key, g.size) == Some(g.vertices)
  }

  function LayersOf(world: (u64, u64) -> nat, keys: seq<SurfaceKey>): (r: seq<Layer>)
    ensures |r| == |keys| && forall i :: 0 <= i < |r| ==> r[i] == Layer(keys[i], world(keys[i].handle, keys[i].generation))
  {
    seq(|keys|, i requires 0 <= i < |keys| => Layer(keys[i], world(keys[i].handle, keys[i].generation)))
  }

  /** The first part of the scene is the desktop of that key, apart from its first quad. */
  ghost predicate DesktopRight(p: Painter, world: (u64, u64) -> nat, key: DesktopKey, s: Scene, nv: nat, nb: nat) {
    && 6 <= nv <= |s.vertices| && nb <= |s.batches|
    && var scene := Desktop(p, key.size, LayersOf(world, key.surfaces), |key.surfaces|);
    && scene.Some? && |scene.value.vertices| == nv
    && s.vertices[6..nv] == Normalized(p, key.size, scene.value.vertices)[6..]
    && s.batches[..nb] == scene.value.batches
  }

  lemma SettledLayers(world: (u64, u64) -> nat, layers: seq<Layer>)
    requires Settled(world, layers)
    ensures LayersOf(world, Keys(layers)) == layers
  {
  }

  lemma {:induction false} DesktopHasQuad(p: Painter, size: Size, layers: seq<Layer>, n: nat)
    requires p.Quads() && n <= |layers| && Desktop(p, size, layers, n).Some?
    ensures |Desktop(p, size, layers, n).value.vertices| >= 6
  {
    if n > 0 { DesktopHasQuad(p, size, layers, n - 1); }
  }

  lemma {:induction false} DesktopStops(p: Painter, size: Size, layers: seq<Layer>, n: nat, m: nat)
    requires n <= m <= |layers| && Desktop(p, size, layers, n).None?
    ensures Desktop(p, size, layers, m).None?
    decreases m
  {
    if n < m { DesktopStops(p, size, layers, n, m - 1); }
  }

  lemma {:induction false} OverlaysExtend(s: Scene, overlays: seq<Overlay>, n: nat)
    requires n <= |overlays|
    ensures s.vertices <= WithOverlays(s, overlays, n).vertices && s.batches <= WithOverlays(s, overlays, n).batches
  {
    if n > 0 { OverlaysExtend(s, overlays, n - 1); }
  }

  /** Overlays depend on the desktop below only through its batches and the number of its vertices. */
  lemma {:induction false} OverlaysShift(s: Scene, s': Scene, overlays: seq<Overlay>, n: nat)
    requires n <= |overlays| && |s.vertices| == |s'.vertices| && s.batches == s'.batches
    ensures WithOverlays(s, overlays, n).batches == WithOverlays(s', overlays, n).batches
    ensures |s.vertices| <= |WithOverlays(s, overlays, n).vertices| == |WithOverlays(s', overlays, n).vertices|
    ensures WithOverlays(s, overlays, n).vertices[|s.vertices|..] == WithOverlays(s', overlays, n).vertices[|s.vertices|..]
  {
    if n > 0 {
      OverlaysShift(s, s', overlays, n - 1);
      var below, below' := WithOverlays(s, overlays, n - 1), WithOverlays(s', overlays, n - 1);
      var own := overlays[n - 1].vertices;
      assert (below.vertices + own)[|s.vertices|..] == below.vertices[|s.vertices|..] + own;
      assert (below'.vertices + own)[|s.vertices|..] == below'.vertices[|s.vertices|..] + own;
    }
  }

  /** The desktop before overlays: just rebuilt, or kept from the last scene with only its first quad stale. */
  predicate Staged(p: Painter, size: Size, desktop: Scene, below: Scene, from: nat) {
    && |below.vertices| == |desktop.vertices| >= 6 && below.batches == desktop.batches
    && (|| (from == 0 && below.vertices == desktop.vertices)
        || (from == |below.vertices| && below.vertices[6..] == Normalized(p, size, desktop.vertices)[6..]))
  }

  /** Normalizing what is not yet normalized gives the same vertices after the first quad, and keeps the desktop. */
  lemma Finishing(p: Painter, size: Size, desktop: Scene, below: Scene, from: nat, overlays: seq<Overlay>)
    requires Staged(p, size, desktop, below, from)
    ensures var top := WithOverlays(below, overlays, |overlays|);
      var raw := WithOverlays(desktop, overlays, |overlays|);
      && from <= |top.vertices| == |raw.vertices| && top.batches == raw.batches && desktop.batches <= raw.batches
      && |desktop.vertices| <= |raw.vertices|
      && var out := top.vertices[..from] + Normalized(p, size, top.vertices[from..]);
      && out[6..] == Normalized(p, size, raw.vertices)[6..]
      && out[6..|desktop.vertices|] == Normalized(p, size, desktop.vertices)[6..]
  {
    var n, k := |overlays|, |desktop.vertices|;
    OverlaysShift(below, desktop, overlays, n);
    OverlaysExtend(below, overlays, n);
    OverlaysExtend(desktop, overlays, n);
    hide WithOverlays;
    var top, raw := WithOverlays(below, overlays, n), WithOverlays(desktop, overlays, n);
    var out := top.vertices[..from] + Normalized(p, size, top.vertices[from..]);
    var whole := Normalized(p, size, raw.vertices);
    forall i | 6 <= i < |out| ensures out[i] == whole[i] {
      if i < k {
        assert top.vertices[i] == below.vertices[i] && raw.vertices[i] == desktop.vertices[i];
        if from > 0 {
          assert below.vertices[i] == below.vertices[6..][i - 6];
          assert Normalized(p, size, desktop.vertices)[i] == Normalized(p, size, desktop.vertices)[6..][i - 6];
        }
      } else {
        assert top.vertices[i] == top.vertices[k..][i - k] && raw.vertices[i] == raw.vertices[k..][i - k];
      }
    }
    assert out[6..] == whole[6..];
    forall i | 6 <= i < k ensures out[i] == Normalized(p, size, desktop.vertices)[i] {
      assert raw.vertices[i] == desktop.vertices[i];
    }
  }

  // What a composed frame paints.

  /** Every layer has geometry, and the frame has what else it needs before it is encoded. */
  predicate Composable(p: Painter, f: Frame) {
    && f.displayed && f.texturesReady && f.replaced.Some?
    && forall i :: 0 <= i < |f.layers| ==> p.generate(f.layers[i].content, f.layers[i].key, f.size).Some?
  }

  /** The layers' own triangles that cover the point, in device coordinates, each under its layer's handle. */
  ghost function LayersPaint(p: Painter, size: Size, layers: seq<Layer>, x: real, y: real): seq<(u64, Triangle)>
    requires forall i :: 0 <= i < |layers| ==> p.generate(layers[i].content, layers[i].key, size).Some?
  {
    if layers == [] then [] else
    var l := layers[|layers| - 1];
    LayersPaint(p, size, layers[..|layers| - 1], x, y)
    + Covering(l.key.handle, Triangles(Normalized(p, size, p.generate(l.content, l.key, size).value)), x, y)
  }

  ghost function OverlaysPaint(p: Painter, size: Size, overlays: seq<Overlay>, x: real, y: real): seq<(u64, Triangle)> {
    if overlays == [] then [] else
    var o := overlays[|overlays| - 1];
    OverlaysPaint(p, size, overlays[..|overlays| - 1], x, y)
    + Covering(o.texture, Triangles(Normalized(p, size, o.vertices)), x, y)
  }

  /** In the region to replace: the replaced quad, above it each layer, above them the overlays, and nothing else. */
  ghost predicate PaintsFrame(p: Painter, f: Frame, s: Scene)
    requires Composable(p, f)
  {
    && InRange(s)
    && forall x: real, y: real :: f.region.Has(x, y) ==>
         Painted(s, x, y) == Covering(WHITE_TEXTURE_KEY, Triangles(f.replaced.value), x, y)
                             + LayersPaint(p, f.size, f.layers, x, y) + OverlaysPaint(p, f.size, f.overlays, x, y)
  }

  /** A scene in device coordinates, with its first quad replaced. */
  function Finish(p: Painter, size: Size, quad: seq<Vertex>, s: Scene): (r: Scene)
    requires |quad| == 6 <= |s.vertices|
    ensures InRange(s) ==> InRange(r)
  {
    Scene(quad + Normalized(p, size, s.vertices)[6..], s.batches)
  }

  /** Finishing a scene and appending to it can be done in either order. */
  lemma FinishAppends(p: Painter, size: Size, quad: seq<Vertex>, s: Scene, texture: u64, vs: seq<Vertex>)
    requires |quad| == 6 <= |s.vertices|
    ensures Finish(p, size, quad, Append(s, texture, vs))
         == Append(Finish(p, size, quad, s), texture, Normalized(p, size, vs))
  {
    assert Normalized(p, size, s.vertices + vs) == Normalized(p, size, s.vertices) + Normalized(p, size, vs);
    assert quad + (Normalized(p, size, s.vertices) + Normalized(p, size, vs))[6..]
        == quad + Normalized(p, size, s.vertices)[6..] + Normalized(p, size, vs);
  }

  /** What is appended before finishing is painted on top, in device coordinates. */
  lemma FinishPaints(p: Painter, size: Size, quad: seq<Vertex>, s: Scene, texture: u64, vs: seq<Vertex>, x: real, y: real)
    requires |quad| == 6 <= |s.vertices| && InRange(s)
    ensures |Append(s, texture, vs).vertices| >= 6 && InRange(Append(s, texture, vs))
    ensures Painted(Finish(p, size, quad, Append(s, texture, vs)), x, y)
         == Painted(Finish(p, size, quad, s), x, y) + Covering(texture, Triangles(Normalized(p, size, vs)), x, y)
  {
    hide Covering, Triangles, Painted, InRange, Normalized;
    FinishAppends(p, size, quad, s, texture, vs);
    AppendPaints(Finish(p, size, quad, s), texture, Normalized(p, size, vs), x, y);
  }

  lemma Reassociate<T>(a: seq<T>, b: seq<T>, c: seq<T>)
    ensures (a + b) + c == a + (b + c)
  {
  }

  lemma {:induction false} DesktopIff(p: Painter, size: Size, layers: seq<Layer>, n: nat)
    requires n <= |layers|
    ensures Desktop(p, size, layers, n).Some? <==>
      forall i :: 0 <= i < n ==> p.generate(layers[i].content, layers[i].key, size).Some?
  {
    if n > 0 { DesktopIff(p, size, layers, n - 1); }
  }

  lemma {:induction false} DesktopPaints(p: Painter, size: Size, quad: seq<Vertex>, layers: seq<Layer>, n: nat, x: real,
                                         y: real)
    requires p.Quads() && |quad| == 6 && n <= |layers| && Desktop(p, size, layers, n).Some?
    requires forall i :: 0 <= i < n ==> p.generate(layers[i].content, layers[i].key, size).Some?
    ensures var d := Desktop(p, size, layers, n).value;
      && |d.vertices| >= 6
      && Painted(Finish(p, size, quad, d), x, y)
         == Covering(WHITE_TEXTURE_KEY, Triangles(quad), x, y) + LayersPaint(p, size, layers[..n], x, y)
  {
    hide Covering, Triangles, Painted, Append, Finish, Normalized;
    DesktopHasQuad(p, size, layers, n);
    if n == 0 {
      FirstQuad(p, size, quad);
      AppendPaints(Scene([], []), WHITE_TEXTURE_KEY, quad, x, y);
      EmptyPaints(x, y);
    } else {
      DesktopPaints(p, size, quad, layers, n - 1, x, y);
      var below, l := Desktop(p, size, layers, n - 1).value, layers[n - 1];
      var own := p.generate(l.content, l.key, size).value;
      FinishPaints(p, size, quad, below, l.key.handle, own, x, y);
      assert layers[..n][..n - 1] == layers[..n - 1];
      Reassociate(Covering(WHITE_TEXTURE_KEY, Triangles(quad), x, y), LayersPaint(p, size, layers[..n - 1], x, y),
                  Covering(l.key.handle, Triangles(Normalized(p, size, own)), x, y));
    }
  }

  lemma FirstQuad(p: Painter, size: Size, quad: seq<Vertex>)
    requires p.Quads() && |quad| == 6
    ensures |Append(Scene([], []), WHITE_TEXTURE_KEY, p.full(size)).vertices| == 6
    ensures Finish(p, size, quad, Append(Scene([], []), WHITE_TEXTURE_KEY, p.full(size)))
         == Append(Scene([], []), WHITE_TEXTURE_KEY, quad)
  {
  }

  lemma {:induction false} OverlaysPaintAbove(p: Painter, size: Size, quad: seq<Vertex>, s: Scene, overlays: seq<Overlay>,
                                             n: nat, x: real, y: real)
    requires |quad| == 6 <= |s.vertices| && InRange(s) && n <= |overlays|
    ensures var top := WithOverlays(s, overlays, n);
      && |top.vertices| >= 6 && InRange(top)
      && Painted(Finish(p, size, quad, top), x, y)
         == Painted(Finish(p, size, quad, s), x, y) + OverlaysPaint(p, size, overlays[..n], x, y)
  {
    hide Covering, Triangles, Painted, Append, Finish, Normalized, InRange;
    if n > 0 {
      OverlaysPaintAbove(p, size, quad, s, overlays, n - 1, x, y);
      var below, o := WithOverlays(s, overlays, n - 1), overlays[n - 1];
      FinishPaints(p, size, quad, below, o.texture, o.vertices, x, y);
      assert overlays[..n][..n - 1] == overlays[..n - 1];
      Reassociate(Painted(Finish(p, size, quad, s), x, y), OverlaysPaint(p, size, overlays[..n - 1], x, y),
                  Covering(o.texture, Triangles(Normalized(p, size, o.vertices)), x, y));
    }
  }

  /** The whole scene exists exactly when the frame is composable, and paints it. */
  lemma WholePaints(p: Painter, f: Frame, x: real, y: real)
    requires p.Quads() && f.Valid()
    ensures WholeScene(p, f).Some? <==> Composable(p, f)
    ensures Composable(p, f) ==>
      Painted(WholeScene(p, f).value, x, y)
      == Covering(WHITE_TEXTURE_KEY, Triangles(f.replaced.value), x, y)
         + LayersPaint(p, f.size, f.layers, x, y) + OverlaysPaint(p, f.size, f.overlays, x, y)
  {
    hide Desktop, Covering, Triangles, Painted, WithOverlays, InRange, LayersPaint, OverlaysPaint;
    DesktopIff(p, f.size, f.layers, |f.layers|);
    if Composable(p, f) {
      var desktop := Desktop(p, f.size, f.layers, |f.layers|).value;
      DesktopPaints(p, f.size, f.replaced.value, f.layers, |f.layers|, x, y);
      OverlaysPaintAbove(p, f.size, f.replaced.value, desktop, f.overlays, |f.overlays|, x, y);
      assert f.layers[..|f.layers|] == f.layers && f.overlays[..|f.overlays|] == f.overlays;
    }
  }

  /**
  A frame is composed exactly when it is composable and its scene, which paints the frame, can be encoded; what is
  sent then paints the frame.
  */
  lemma RebuiltPaints(p: Painter, f: Frame) returns (s: Scene)
    requires p.Quads() && f.Valid()
    ensures Rebuilt(p, f) == (if Composable(p, f) && f.encodes(s) then Some(s) else None)
    ensures Composable(p, f) ==> PaintsFrame(p, f, s)
  {
    hide WholeScene, Painted, Culled, LayersPaint, OverlaysPaint, Covering, Triangles;
    WholePaints(p, f, 0.0, 0.0);
    if !Composable(p, f) { return Scene([], []); }
    var whole := WholeScene(p, f).value;
    s := Culled(whole, f.region, |whole.batches|);
    forall x: real, y: real | f.region.Has(x, y)
      ensures Painted(s, x, y) == Covering(WHITE_TEXTURE_KEY, Triangles(f.replaced.value), x, y)
                                  + LayersPaint(p, f.size, f.layers, x, y) + OverlaysPaint(p, f.size, f.overlays, x, y)
    {
      WholePaints(p, f, x, y);
      CullingKeepsPicture(whole, f.region, |whole.batches|, x, y);
      PaintedIs(whole, x, y);
    }
  }

  lemma PaintedIs(s: Scene, x: real, y: real)
    requires InRange(s)
    ensures Painted(s, x, y) == Picture(s, |s.batches|, x, y)
  {
  }

  class Compositor {
    const painter: Painter
    var vertices: seq<Vertex>
    var batches: seq<Batch>
    var desktopKey: Option<DesktopKey>
    var desktopVertices: nat
    var desktopBatches: nat
    var geometry: seq<SurfaceGeometry>

    /** Cached surface geometry is what would be generated again; so is the cached desktop, after its first quad. */
    ghost predicate Valid(world: (u64, u64) -> nat)
      reads this
    {
      && painter.Quads()
      && (forall i :: 0 <= i < |geometry| ==> GeometryRight(painter, world, geometry[i]))
      && (desktopKey.Some? ==>
            DesktopRight(painter, world, desktopKey.value, Scene(vertices, batches), desktopVertices, desktopBatches))
    }

    constructor (p: Painter)
      requires p.Quads()
      ensures painter == p && geometry == [] && desktopKey.None?
    {
      painter := p;
      vertices, batches, desktopKey, desktopVertices, desktopBatches, geometry := [], [], None, 0, 0, [];
    }

    /** Forget geometry of surfaces that are no longer shown. */
    method Retain(keys: seq<SurfaceKey>)
      modifies this`geometry
      ensures forall g :: g in geometry <==> g in old(geometry) && exists k :: 0 <= k < |keys| && keys[k].handle == g.key.handle
    {
      var kept := [];
      for i := 0 to |geometry|
        invariant geometry == old(geometry)
        invariant forall g :: g in kept <==>
          g in geometry[..i] && exists k :: 0 <= k < |keys| && keys[k].handle == g.key.handle
      {
        if exists k :: 0 <= k < |keys| && keys[k].handle == geometry[i].key.handle { kept := kept + [geometry[i]]; }
      }
      geometry := kept;
    }

    method FindGeometry(handle: u64) returns (r: Option<nat>)
      ensures r.Some? ==> r.value < |geometry| && geometry[r.value].key.handle == handle
    {
      for i := 0 to |geometry| {
        if geometry[i].key.handle == handle { return Some(i); }
      }
      r := None;
    }

    /** The geometry of one surface, from the cache when its key and the display size are unchanged. */
    method SurfaceVertices(l: Layer, size: Size, ghost world: (u64, u64) -> nat) returns (r: Option<seq<Vertex>>)
      requires l.content == world(l.key.handle, l.key.generation)
      requires forall i :: 0 <= i < |geometry| ==> GeometryRight(painter, world, geometry[i])
      modifies this`geometry
      ensures forall i :: 0 <= i < |geometry| ==> GeometryRight(painter, world, geometry[i])
      ensures r == painter.generate(l.content, l.key, size)
    {
      var at := FindGeometry(l.key.handle);
      if at.None? || geometry[at.value].key != l.key || geometry[at.value].size != size {
        var own := painter.generate(l.content, l.key, size);
        if own.None? { return None; }
        var renewed := SurfaceGeometry(l.key, size, own.value);
        geometry := if at.Some? then geometry[at.value := renewed] else geometry + [renewed];
      }
      r := Some(geometry[if at.Some? then at.value else |geometry| - 1].vertices);
    }

    /** Rebuild the desktop, surface by surface. */
    method BuildDesktop(size: Size, layers: seq<Layer>, ghost world: (u64, u64) -> nat) returns (ok: bool)
      requires painter.Quads() && Settled(world, layers)
      requires forall i :: 0 <= i < |geometry| ==> GeometryRight(painter, world, geometry[i])
      modifies this`geometry, this`vertices, this`batches
      ensures forall i :: 0 <= i < |geometry| ==> GeometryRight(painter, world, geometry[i])
      ensures ok <==> Desktop(painter, size, layers, |layers|).Some?
      ensures ok ==> Scene(vertices, batches) == Desktop(painter, size, layers, |layers|).value
    {
      vertices := painter.full(size);
      batches := PushBatch([], WHITE_TEXTURE_KEY, 0, |vertices|);
      assert Scene([], []).vertices + vertices == vertices;
      for n := 0 to |layers|
        invariant forall i :: 0 <= i < |geometry| ==> GeometryRight(painter, world, geometry[i])
        invariant Desktop(painter, size, layers, n) == Some(Scene(vertices, batches))
      {
        var own := SurfaceVertices(layers[n], size, world);
        if own.None? {
          DesktopStops(painter, size, layers, n + 1, |layers|);
          return false;
        }
        var first := |vertices|;
        vertices := vertices + own.value;
        batches := PushBatch(batches, layers[n].key.handle, first, |vertices|);
      }
      ok := true;
    }

    method PushOverlays(overlays: seq<Overlay>)
      modifies this`vertices, this`batches
      ensures Scene(vertices, batches) == WithOverlays(Scene(old(vertices), old(batches)), overlays, |overlays|)
    {
      for n := 0 to |overlays|
        invariant Scene(vertices, batches) == WithOverlays(Scene(old(vertices), old(batches)), overlays, n)
      {
        var first := |vertices|;
        vertices := vertices + overlays[n].vertices;
        batches := PushBatch(batches, overlays[n].texture, first, |vertices|);
      }
    }

    /** Keep the desktop of the last scene when nothing in its key changed, else rebuild it. */
    method Stage(f: Frame, ghost world: (u64, u64) -> nat) returns (ok: bool, from: nat)
      requires Valid(world) && Settled(world, f.layers)
      modifies this
      ensures painter.Quads() && desktopKey.None?
      ensures forall i :: 0 <= i < |geometry| ==> GeometryRight(painter, world, geometry[i])
      ensures ok <==> Desktop(painter, f.size, f.layers, |f.layers|).Some?
      ensures ok ==>
        Staged(painter, f.size, Desktop(painter, f.size, f.layers, |f.layers|).value, Scene(vertices, batches), from)
    {
      Retain(Keys(f.layers));
      assert forall i :: 0 <= i < |geometry| ==> geometry[i] in geometry;
      SettledLayers(world, f.layers);
      var reuse := desktopKey == Some(f.Key());
      desktopKey := None;
      if reuse {
        vertices, batches := vertices[..desktopVertices], batches[..desktopBatches];
        return true, |vertices|;
      }
      from := 0;
      ok := BuildDesktop(f.size, f.layers, world);
      if ok { DesktopHasQuad(painter, f.size, f.layers, |f.layers|); }
    }

    /**
    Any call, cached or not, gives exactly what an empty compositor gives, and keeps the caches right. It fails only
    where the frame cannot be composed or the scene that paints it cannot be encoded.
    */
    method Compose(f: Frame, ghost world: (u64, u64) -> nat) returns (r: Option<Scene>)
      requires Valid(world) && f.Valid() && Settled(world, f.layers)
      modifies this
      ensures Valid(world)
      ensures r == Rebuilt(painter, f)
      ensures r.Some? ==> Composable(painter, f) && PaintsFrame(painter, f, r.value) && f.encodes(r.value)
      ensures r.None? && Composable(painter, f) ==> exists s :: PaintsFrame(painter, f, s) && !f.encodes(s)
    {
      hide Composable, PaintsFrame, Desktop, WithOverlays, Staged, Settled, WholeScene, DesktopRight, Normalized, Culled,
        InRange;
      RebuiltIs(painter, f);
      ghost var painting := RebuiltPaints(painter, f);
      if !f.displayed || !f.texturesReady { return None; }
      var ok, from := Stage(f, world);
      if !ok { return None; }
      ghost var below := Scene(vertices, batches);
      StagedSizes(painter, f.size, Desktop(painter, f.size, f.layers, |f.layers|).value, below, from);
      desktopVertices, desktopBatches := |vertices|, |batches|;
      OverlaysExtend(below, f.overlays, |f.overlays|);
      PushOverlays(f.overlays);
      vertices := vertices[..from] + Normalized(painter, f.size, vertices[from..]);
      if f.replaced.None? { return None; }
      vertices := f.replaced.value + vertices[6..];
      Finished(painter, world, f, below, from, Scene(vertices, batches));
      var culled := Cull(Scene(vertices, batches), f.region);
      if !f.encodes(culled) { return None; }
      desktopKey := Some(f.Key());
      r := Some(culled);
    }
  }

  /** When there is no scene at all. */
  lemma RebuiltIs(p: Painter, f: Frame)
    requires f.Valid()
    ensures !f.displayed || !f.texturesReady || f.replaced.None? ==> WholeScene(p, f).None?
    ensures Desktop(p, f.size, f.layers, |f.layers|).None? ==> WholeScene(p, f).None?
  {
  }

  /** The finished scene is the rebuilt one, and its first part may be kept for the next call. */
  lemma Finished(p: Painter, world: (u64, u64) -> nat, f: Frame, below: Scene, from: nat, s: Scene)
    requires f.Valid() && f.replaced.Some? && f.displayed && f.texturesReady && Settled(world, f.layers)
    requires Desktop(p, f.size, f.layers, |f.layers|).Some?
    requires Staged(p, f.size, Desktop(p, f.size, f.layers, |f.layers|).value, below, from)
    requires var top := WithOverlays(below, f.overlays, |f.overlays|);
      && |top.vertices| >= from && s.batches == top.batches
      && var out := top.vertices[..from] + Normalized(p, f.size, top.vertices[from..]);
      |out| >= 6 && s.vertices == f.replaced.value + out[6..]
    ensures WholeScene(p, f) == Some(s)
    ensures DesktopRight(p, world, f.Key(), s, |below.vertices|, |below.batches|)
  {
    hide Desktop, WithOverlays, InRange;
    var desktop := Desktop(p, f.size, f.layers, |f.layers|).value;
    Finishing(p, f.size, desktop, below, from, f.overlays);
    SettledLayers(world, f.layers);
    var top := WithOverlays(below, f.overlays, |f.overlays|);
    var out := top.vertices[..from] + Normalized(p, f.size, top.vertices[from..]);
    assert s.vertices[6..|below.vertices|] == out[6..|below.vertices|];
  }

  lemma StagedSizes(p: Painter, size: Size, desktop: Scene, below: Scene, from: nat)
    requires Staged(p, size, desktop, below, from)
    ensures |below.vertices| == |desktop.vertices| >= 6 && from <= |below.vertices|
  {
  }

  /** Any sequence of calls on one compositor: each answer is that of a compositor without caches. */
  method ComposeAll(p: Painter, frames: seq<Frame>, ghost world: (u64, u64) -> nat) returns (scenes: seq<Option<Scene>>)
    requires p.Quads()
    requires forall i :: 0 <= i < |frames| ==> frames[i].Valid() && Settled(world, frames[i].layers)
    ensures |scenes| == |frames| && forall i :: 0 <= i < |frames| ==> scenes[i] == Rebuilt(p, frames[i])
    ensures forall i :: 0 <= i < |frames| && scenes[i].Some? ==>
      Composable(p, frames[i]) && PaintsFrame(p, frames[i], scenes[i].value)
  {
    hide Settled, Rebuilt, Composable, PaintsFrame;
    var compositor := new Compositor(p);
    scenes := [];
    for n := 0 to |frames|
      invariant compositor.painter == p && compositor.Valid(world) && fresh(compositor)
      invariant |scenes| == n && forall i :: 0 <= i < n ==> scenes[i] == Rebuilt(p, frames[i])
      invariant forall i :: 0 <= i < n && scenes[i].Some? ==>
        Composable(p, frames[i]) && PaintsFrame(p, frames[i], scenes[i].value)
    {
      var scene := compositor.Compose(frames[n], world);
      scenes := scenes + [scene];
    }
  }
}
