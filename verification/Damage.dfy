/**
Damage rectangles: merging, clipping to a frame, and the queue of pending
damage. Widths are 32 bits, so merging is exact only while spans fit.
*/
module Damage {
  import opened Base

  datatype Rect = Rect(x: i32, y: i32, width: u32, height: u32)
  {
    predicate Covers(px: int, py: int) { x <= px < x + width && y <= py < y + height }

    predicate Empty() { width == 0 || height == 0 }
  }

  function SpanX(a: Rect, b: Rect): int { Max(a.x + a.width, b.x + b.width) - Min(a.x, b.x) }

  function SpanY(a: Rect, b: Rect): int { Max(a.y + a.height, b.y + b.height) - Min(a.y, b.y) }

  /** The bounding box of both; its size is truncated to 32 bits. */
  function MergeDamage(first: Option<Rect>, second: Rect): Rect {
    match first
    case None => second
    case Some(a) =>
      Rect(Min(a.x, second.x), Min(a.y, second.y), SpanX(a, second) % U32_LIMIT, SpanY(a, second) % U32_LIMIT)
  }

  predicate Fits(a: Rect, b: Rect) { SpanX(a, b) < U32_LIMIT && SpanY(a, b) < U32_LIMIT }

  /** While the spans fit, the merged rectangle covers what either covered. */
  lemma MergeCovers(a: Rect, b: Rect, px: int, py: int)
    requires Fits(a, b)
    ensures a.Covers(px, py) || b.Covers(px, py) ==> MergeDamage(Some(a), b).Covers(px, py)
  {
  }

  /** For rectangles that cover something, nothing is lost exactly when the spans fit in 32 bits. */
  lemma MergeCoversIff(a: Rect, b: Rect)
    requires !a.Empty() && !b.Empty()
    ensures Fits(a, b) <==>
      forall px: int, py: int {:trigger a.Covers(px, py)} {:trigger b.Covers(px, py)} ::
        a.Covers(px, py) || b.Covers(px, py) ==> MergeDamage(Some(a), b).Covers(px, py)
  {
    if Fits(a, b) {
      forall px: int, py: int | a.Covers(px, py) || b.Covers(px, py) ensures MergeDamage(Some(a), b).Covers(px, py) {
        MergeCovers(a, b, px, py);
      }
    } else {
      var wide := if a.x + a.width >= b.x + b.width then a else b;
      var tall := if a.y + a.height >= b.y + b.height then a else b;
      if SpanX(a, b) >= U32_LIMIT {
        assert wide.Covers(wide.x + wide.width - 1, wide.y);
        assert !MergeDamage(Some(a), b).Covers(wide.x + wide.width - 1, wide.y);
      } else {
        assert tall.Covers(tall.x, tall.y + tall.height - 1);
        assert !MergeDamage(Some(a), b).Covers(tall.x, tall.y + tall.height - 1);
      }
    }
  }

  /** Merging can lose visible damage: the corner of the frame is damaged, and afterwards nothing of any frame is. */
  lemma MergeCanLose(w: nat, h: nat)
    requires 0 < w < 0x8000_0000 && 0 < h < 0x8000_0000
    ensures var a, b := Rect(-0x8000_0000, 0, 1, 1), Rect(0, 0, 0x8000_0000, 1);
      && b.Covers(0, 0) && Clip(Some(b), w, h).Some?
      && Clip(Some(MergeDamage(Some(a), b)), w, h).None?
  {
    assert SpanX(Rect(-0x8000_0000, 0, 1, 1), Rect(0, 0, 0x8000_0000, 1)) == U32_LIMIT;
  }

  /** The visible part of the damage; `None` damages the whole frame. */
  function Clip(damage: Option<Rect>, w: nat, h: nat): (r: Option<Rect>)
    requires w < 0x8000_0000 && h < 0x8000_0000
    ensures r.Some? ==> 0 <= r.value.x && r.value.x + r.value.width <= w && 0 <= r.value.y && r.value.y + r.value.height <= h
                        && !r.value.Empty()
  {
    if w == 0 || h == 0 then None else
    match damage
    case None => Some(Rect(0, 0, w, h))
    case Some(d) =>
      if d.Empty() then None else
      var left, top := Max(d.x, 0), Max(d.y, 0);
      var right, bottom := Max(Min(d.x + d.width, w), 0), Max(Min(d.y + d.height, h), 0);
      if right <= left || bottom <= top then None else Some(Rect(left, top, right - left, bottom - top))
  }

  /** Clipping keeps exactly the damaged pixels of the frame. */
  lemma ClipIsExact(damage: Option<Rect>, w: nat, h: nat, px: int, py: int)
    requires w < 0x8000_0000 && h < 0x8000_0000
    ensures (Clip(damage, w, h).Some? && Clip(damage, w, h).value.Covers(px, py))
      <==> 0 <= px < w && 0 <= py < h && (damage.Some? ==> damage.value.Covers(px, py))
  {
  }

  /** No update, a full redraw, or a damaged rectangle. */
  type Pending = Option<Option<Rect>>

  predicate Dirty(p: Pending, px: int, py: int) {
    p.Some? && (p.value.Some? ==> p.value.value.Covers(px, py))
  }

  function Queue(p: Pending, damage: Option<Rect>): Pending {
    if p.None? then Some(damage)
    else if p.value.Some? && damage.Some? then Some(Some(MergeDamage(p.value, damage.value)))
    else Some(None)
  }

  predicate QueueFits(p: Pending, damage: Option<Rect>) {
    p.Some? && p.value.Some? && damage.Some? ==> Fits(p.value.value, damage.value)
  }

  /** Queueing loses neither the damage queued before nor the new damage. */
  lemma QueueKeeps(p: Pending, damage: Option<Rect>, px: int, py: int)
    requires QueueFits(p, damage)
    ensures Dirty(p, px, py) || Dirty(Some(damage), px, py) ==> Dirty(Queue(p, damage), px, py)
  {
    if p.Some? && p.value.Some? && damage.Some? { MergeCovers(p.value.value, damage.value, px, py); }
  }
}
