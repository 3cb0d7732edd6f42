/**
Software composition into a frame buffer, limited to the damaged rectangle, and
the loop that queues damage and presents it. Colours, blending and coverage are
arbitrary functions of the pixel.
*/
module Painting {
  import opened Base
  import opened Damage

  type Pixel = nat

  /** New colour of a pixel from its position and the colour below. */
  type Brush = (nat, nat, Pixel) -> Pixel

  /** One drawing step of the composition, in painter's order. */
  datatype Stroke =
    | Backdrop(color: Pixel)
    | Shadow(area: Rect, occluder: Rect, corner: nat, brush: Brush)
    | Blit(area: Rect, brush: Brush)
    | Cursor(brush: Brush)

  // What each stroke does to one pixel.

  /** The pixels of a rectangle within a frame. */
  predicate Inside(r: Rect, w: nat, h: nat, x: nat, y: nat) { x < w && y < h && r.Covers(x, y) }

  /** The columns a shadow skips in one row, as the ends of its left and right part. */
  function LeftEnd(occluder: Rect, corner: nat, w: nat, h: nat, y: nat): nat {
    if CornerRow(occluder, corner, h, y) then Max(occluder.x, 0) + corner else Max(occluder.x, 0)
  }

  function RightStart(occluder: Rect, corner: nat, w: nat, h: nat, y: nat): nat {
    var right := Max(Min(occluder.x + occluder.width, w), 0);
    if CornerRow(occluder, corner, h, y) then Max(right - corner, 0) else right
  }

  predicate CornerRow(occluder: Rect, corner: nat, h: nat, y: nat) {
    var bottom := Max(Min(occluder.y + occluder.height, h), 0);
    y < Max(occluder.y, 0) + corner || y >= Max(bottom - corner, 0)
  }

  predicate OccludedRow(occluder: Rect, h: nat, y: nat) {
    Max(occluder.y, 0) <= y < Max(Min(occluder.y + occluder.height, h), 0)
  }

  /** The shadow of one pixel: a row beside the window is drawn in two parts, which may overlap. */
  function ShadowAt(s: Stroke, w: nat, h: nat, x: nat, y: nat, p: Pixel): Pixel
    requires s.Shadow?
  {
    if !Inside(s.area, w, h, x, y) then p
    else if !OccludedRow(s.occluder, h, y) then s.brush(x, y, p)
    else
      var once := if x < LeftEnd(s.occluder, s.corner, w, h, y) then s.brush(x, y, p) else p;
      if RightStart(s.occluder, s.corner, w, h, y) <= x then s.brush(x, y, once) else once
  }

  function StrokeAt(s: Stroke, w: nat, h: nat, x: nat, y: nat, p: Pixel): Pixel {
    match s
    case Backdrop(color) => color
    case Shadow(_, _, _, _) => ShadowAt(s, w, h, x, y, p)
    case Blit(area, brush) => if Inside(area, w, h, x, y) then brush(x, y, p) else p
    case Cursor(brush) => brush(x, y, p)
  }

  /** A pixel after the first `n` strokes. */
  function PixelAt(strokes: seq<Stroke>, n: nat, w: nat, h: nat, x: nat, y: nat, p: Pixel): Pixel
    requires n <= |strokes|
  {
    if n == 0 then p else StrokeAt(strokes[n - 1], w, h, x, y, PixelAt(strokes, n - 1, w, h, x, y, p))
  }

  /** A scene starts with the backdrop, so it does not depend on what the frame held. */
  predicate IsScene(strokes: seq<Stroke>) { |strokes| > 0 && strokes[0].Backdrop? }

  /** The colour of a pixel of the scene. */
  function ColorOf(strokes: seq<Stroke>, w: nat, h: nat, x: nat, y: nat): Pixel {
    PixelAt(strokes, |strokes|, w, h, x, y, 0)
  }

  lemma {:induction false} BackdropHides(strokes: seq<Stroke>, n: nat, w: nat, h: nat, x: nat, y: nat, p: Pixel, q: Pixel)
    requires IsScene(strokes) && 1 <= n <= |strokes|
    ensures PixelAt(strokes, n, w, h, x, y, p) == PixelAt(strokes, n, w, h, x, y, q)
  {
    if n > 1 { BackdropHides(strokes, n - 1, w, h, x, y, p, q); }
  }

  // The frame buffer.

  function At(w: nat, x: nat, y: nat): nat { y * w + x }

  lemma AtBound(w: nat, h: nat, x: nat, y: nat)
    requires x < w && y < h
    ensures At(w, x, y) < w * h
  {
    assert y * w + w == (y + 1) * w <= h * w;
  }

  lemma AtInjective(w: nat, x: nat, y: nat, x': nat, y': nat)
    requires x < w && x' < w && At(w, x, y) == At(w, x', y')
    ensures x == x' && y == y'
  {
    RowsApart(w, y, y');
    RowsApart(w, y', y);
  }

  lemma RowsApart(w: nat, y: nat, y': nat)
    ensures y < y' ==> y * w + w <= y' * w
  {
    if y < y' { assert (y + 1) * w <= y' * w; }
  }

  /** Pixel (x, y) of a flat frame. */
  function Get(frame: seq<Pixel>, w: nat, h: nat, x: nat, y: nat): Pixel
    requires |frame| == w * h && x < w && y < h
  {
    AtBound(w, h, x, y);
    frame[At(w, x, y)]
  }

  lemma GetPut(frame: seq<Pixel>, w: nat, h: nat, x: nat, y: nat, v: Pixel, x': nat, y': nat)
    requires |frame| == w * h && x < w && y < h && x' < w && y' < h && At(w, x, y) < |frame|
    ensures Get(frame[At(w, x, y) := v], w, h, x', y') == if x == x' && y == y' then v else Get(frame, w, h, x', y')
  {
    AtBound(w, h, x', y');
    if At(w, x, y) == At(w, x', y') { AtInjective(w, x, y, x', y'); }
  }

  /** Within columns `left..right` of row `y` the brush was applied; everything else is as before. */
  ghost predicate RowPainted(before: seq<Pixel>, after: seq<Pixel>, w: nat, h: nat, y: nat, left: nat, right: nat, brush: Brush)
  {
    && |before| == |after| == w * h
    && forall x': nat, y': nat :: x' < w && y' < h ==>
         Get(after, w, h, x', y') == if y' == y && left <= x' < right then brush(x', y', Get(before, w, h, x', y'))
                                     else Get(before, w, h, x', y')
  }

  class Frame {
    const width: nat
    const height: nat
    const pixels: array<Pixel>

    ghost predicate Valid() { pixels.Length == width * height }

    constructor (w: nat, h: nat)
      ensures Valid() && width == w && height == h && fresh(pixels)
    {
      width, height := w, h;
      pixels := new Pixel[w * h](_ => 0);
    }

    /** One row of a rectangle. */
    method PaintRow(y: nat, left: nat, right: nat, brush: Brush)
      requires Valid() && y < height && right <= width
      modifies pixels
      ensures RowPainted(old(pixels[..]), pixels[..], width, height, y, left, right, brush)
    {
      var x := left;
      while x < right
        invariant x <= right || x == left
        invariant RowPainted(old(pixels[..]), pixels[..], width, height, y, left, x, brush)
      {
        ghost var before := pixels[..];
        AtBound(width, height, x, y);
        var i := At(width, x, y);
        pixels[i] := brush(x, y, pixels[i]);
        assert pixels[..] == before[i := brush(x, y, before[i])];
        forall x': nat, y': nat | x' < width && y' < height
          ensures Get(pixels[..], width, height, x', y')
                  == if x' == x && y' == y then brush(x, y, before[i]) else Get(before, width, height, x', y')
        {
          GetPut(before, width, height, x, y, brush(x, y, before[i]), x', y');
        }
        x := x + 1;
      }
    }

    /** A rectangle of pixels, row by row. */
    method PaintArea(left: nat, top: nat, right: nat, bottom: nat, brush: Brush)
      requires Valid() && right <= width && bottom <= height
      modifies pixels
      ensures AreaPainted(old(pixels[..]), pixels[..], width, height, left, top, right, bottom, brush)
    {
      var y := top;
      while y < bottom
        invariant y <= bottom || y == top
        invariant AreaPainted(old(pixels[..]), pixels[..], width, height, left, top, right, y, brush)
      {
        PaintRow(y, left, right, brush);
        y := y + 1;
      }
    }

    /** The rows of a shadow, each beside a window in two parts. */
    method PaintShadow(s: Stroke, left: nat, top: nat, right: nat, bottom: nat)
      requires Valid() && s.Shadow? && right <= width && bottom <= height
      requires forall x: nat, y: nat :: left <= x < right && top <= y < bottom ==> Inside(s.area, width, height, x, y)
      modifies pixels
      ensures ShadowPainted(s, old(pixels[..]), pixels[..], width, height, left, top, right, bottom)
    {
      var y := top;
      while y < bottom
        invariant y <= bottom || y == top
        invariant ShadowPainted(s, old(pixels[..]), pixels[..], width, height, left, top, right, y)
      {
        ghost var before := pixels[..];
        if !OccludedRow(s.occluder, height, y) {
          PaintRow(y, left, right, s.brush);
        } else {
          var leftEnd, rightStart := LeftEnd(s.occluder, s.corner, width, height, y),
                                     RightStart(s.occluder, s.corner, width, height, y);
          PaintRow(y, left, Min(right, leftEnd), s.brush);
          PaintRow(y, Max(left, rightStart), right, s.brush);
        }
        assert ShadowPainted(s, before, pixels[..], width, height, left, y, right, y + 1);
        y := y + 1;
      }
    }

    /** One stroke, limited to the damaged rectangle. */
    method Draw(s: Stroke, damage: Rect)
      requires Valid() && Within(damage, width, height)
      modifies pixels
      ensures Drawn(s, damage, old(pixels[..]), pixels[..], width, height)
    {
      hide AreaPainted, ShadowPainted;
      var left, top, right, bottom := damage.x, damage.y, damage.x + damage.width, damage.y + damage.height;
      ghost var before := pixels[..];
      match s {
        case Backdrop(color) =>
          PaintArea(left, top, right, bottom, (_, _, _) => color);
          AreaIsDrawn(s, damage, before, pixels[..], width, height, left, top, right, bottom, (_, _, _) => color);
        case Cursor(brush) =>
          PaintArea(left, top, right, bottom, brush);
          AreaIsDrawn(s, damage, before, pixels[..], width, height, left, top, right, bottom, brush);
        case Blit(area, brush) =>
          left, top := Max(Max(area.x, 0), left), Max(Max(area.y, 0), top);
          right := Min(Max(Min(area.x + area.width, width), 0), right);
          bottom := Min(Max(Min(area.y + area.height, height), 0), bottom);
          if left < right && top < bottom {
            PaintArea(left, top, right, bottom, brush);
            AreaIsDrawn(s, damage, before, pixels[..], width, height, left, top, right, bottom, brush);
          }
        case Shadow(area, _, _, _) =>
          left, top := Max(Max(area.x, left), 0), Max(Max(area.y, top), 0);
          right := Max(Min(Min(area.x + area.width, right), width), 0);
          bottom := Max(Min(Min(area.y + area.height, bottom), height), 0);
          PaintShadow(s, left, top, right, bottom);
          ShadowIsDrawn(s, damage, before, pixels[..], width, height, left, top, right, bottom);
      }
    }

    /** Painting a scene into the damaged rectangle: inside, the colours of a full repaint; outside, nothing changes. */
    method Paint(strokes: seq<Stroke>, damage: Rect)
      requires Valid() && Within(damage, width, height) && IsScene(strokes)
      modifies pixels
      ensures |pixels[..]| == width * height
      ensures forall x: nat, y: nat :: x < width && y < height ==>
        Get(pixels[..], width, height, x, y)
        == if damage.Covers(x, y) then ColorOf(strokes, width, height, x, y)
           else Get(old(pixels[..]), width, height, x, y)
    {
      hide StrokeAt, PixelAt, Drawn;
      ghost var before := pixels[..];
      StartsPainted(strokes, damage, before, width, height);
      for n := 0 to |strokes|
        invariant Painted(strokes, n, damage, before, pixels[..], width, height)
      {
        ghost var now := pixels[..];
        Draw(strokes[n], damage);
        PaintedMore(strokes, n, damage, before, now, pixels[..], width, height);
      }
      forall x: nat, y: nat | x < width && y < height
        ensures Get(pixels[..], width, height, x, y)
                == if damage.Covers(x, y) then ColorOf(strokes, width, height, x, y) else Get(before, width, height, x, y)
      {
        BackdropHides(strokes, |strokes|, width, height, x, y, Get(before, width, height, x, y), 0);
      }
    }
  }

  /** A rectangle that lies in the frame. */
  predicate Within(r: Rect, w: nat, h: nat) { 0 <= r.x && r.x + r.width <= w && 0 <= r.y && r.y + r.height <= h }

  ghost predicate AreaPainted(before: seq<Pixel>, after: seq<Pixel>, w: nat, h: nat, left: nat, top: nat, right: nat,
                              bottom: nat, brush: Brush)
  {
    && |before| == |after| == w * h
    && forall x: nat, y: nat :: x < w && y < h ==>
         Get(after, w, h, x, y)
         == if top <= y < bottom && left <= x < right then brush(x, y, Get(before, w, h, x, y)) else Get(before, w, h, x, y)
  }

  ghost predicate ShadowPainted(s: Stroke, before: seq<Pixel>, after: seq<Pixel>, w: nat, h: nat, left: nat, top: nat,
                                right: nat, bottom: nat)
    requires s.Shadow?
  {
    && |before| == |after| == w * h
    && forall x: nat, y: nat :: x < w && y < h ==>
         Get(after, w, h, x, y)
         == if top <= y < bottom && left <= x < right then ShadowAt(s, w, h, x, y, Get(before, w, h, x, y))
            else Get(before, w, h, x, y)
  }

  /** The stroke was applied to the damaged pixels and to no other. */
  ghost predicate Drawn(s: Stroke, damage: Rect, before: seq<Pixel>, after: seq<Pixel>, w: nat, h: nat) {
    && |before| == |after| == w * h
    && forall x: nat, y: nat :: x < w && y < h ==>
         Get(after, w, h, x, y)
         == if damage.Covers(x, y) then StrokeAt(s, w, h, x, y, Get(before, w, h, x, y)) else Get(before, w, h, x, y)
  }

  lemma AreaIsDrawn(s: Stroke, damage: Rect, before: seq<Pixel>, after: seq<Pixel>, w: nat, h: nat, left: nat, top: nat,
                    right: nat, bottom: nat, brush: Brush)
    requires AreaPainted(before, after, w, h, left, top, right, bottom, brush)
    requires forall x: nat, y: nat, p :: x < w && y < h && damage.Covers(x, y) && top <= y < bottom && left <= x < right ==>
      StrokeAt(s, w, h, x, y, p) == brush(x, y, p)
    requires forall x: nat, y: nat, p ::
      x < w && y < h && damage.Covers(x, y) && !(top <= y < bottom && left <= x < right) ==> StrokeAt(s, w, h, x, y, p) == p
    requires forall x: nat, y: nat :: top <= y < bottom && left <= x < right ==> damage.Covers(x, y)
    ensures Drawn(s, damage, before, after, w, h)
  {
    hide StrokeAt;
  }

  lemma ShadowIsDrawn(s: Stroke, damage: Rect, before: seq<Pixel>, after: seq<Pixel>, w: nat, h: nat, left: nat, top: nat,
                      right: nat, bottom: nat)
    requires s.Shadow? && ShadowPainted(s, before, after, w, h, left, top, right, bottom)
    requires forall x: nat, y: nat :: x < w && y < h ==>
      (top <= y < bottom && left <= x < right <==> damage.Covers(x, y) && Inside(s.area, w, h, x, y))
    ensures Drawn(s, damage, before, after, w, h)
  {
  }

  /** After `n` strokes the damaged pixels have been through all of them. */
  ghost predicate Painted(strokes: seq<Stroke>, n: nat, damage: Rect, before: seq<Pixel>, after: seq<Pixel>, w: nat, h: nat)
    requires n <= |strokes|
  {
    && |before| == |after| == w * h
    && forall x: nat, y: nat :: x < w && y < h ==>
         Get(after, w, h, x, y)
         == if damage.Covers(x, y) then PixelAt(strokes, n, w, h, x, y, Get(before, w, h, x, y)) else Get(before, w, h, x, y)
  }

  lemma StartsPainted(strokes: seq<Stroke>, damage: Rect, before: seq<Pixel>, w: nat, h: nat)
    requires |before| == w * h
    ensures Painted(strokes, 0, damage, before, before, w, h)
  {
  }

  lemma PaintedMore(strokes: seq<Stroke>, n: nat, damage: Rect, before: seq<Pixel>, now: seq<Pixel>, after: seq<Pixel>,
                    w: nat, h: nat)
    requires n < |strokes| && Painted(strokes, n, damage, before, now, w, h)
    requires Drawn(strokes[n], damage, now, after, w, h)
    ensures Painted(strokes, n + 1, damage, before, after, w, h)
  {
    hide StrokeAt;
  }
}
