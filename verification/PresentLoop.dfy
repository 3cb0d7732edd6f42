/**
The present loop on the software path: damage is queued while the scene
changes, then painted and transferred. What the display shows is tracked
through accepted, rejected and undelivered presents.
*/
module PresentLoop {
  import opened Base
  import opened Damage
  import opened Painting

  /** How a present ended: transferred, refused by the display, or never delivered to it. */
  datatype Delivery = Transferred | Rejected | Undelivered

  predicate Same(a: seq<Pixel>, strokes: seq<Stroke>, w: nat, h: nat, x: nat, y: nat)
    requires |a| == w * h && x < w && y < h
  {
    Get(a, w, h, x, y) == ColorOf(strokes, w, h, x, y)
  }

  /** Every pixel shows the scene, apart from those still waiting to be redrawn. */
  ghost predicate Current(a: seq<Pixel>, strokes: seq<Stroke>, pending: Pending, w: nat, h: nat)
    requires |a| == w * h
  {
    forall x: nat, y: nat :: x < w && y < h && !Dirty(pending, x, y) ==> Same(a, strokes, w, h, x, y)
  }

  /** Two scenes that look alike outside the damage. */
  ghost predicate DiffersWithin(a: seq<Stroke>, b: seq<Stroke>, damage: Option<Rect>, w: nat, h: nat) {
    forall x: nat, y: nat :: x < w && y < h && !Dirty(Some(damage), x, y) ==> ColorOf(a, w, h, x, y) == ColorOf(b, w, h, x, y)
  }

  /** Queueing the damage of a change accounts for every pixel that is no longer current. */
  lemma ChangeIsQueued(a: seq<Pixel>, before: seq<Stroke>, after: seq<Stroke>, pending: Pending, damage: Option<Rect>,
                       w: nat, h: nat)
    requires |a| == w * h && Current(a, before, pending, w, h)
    requires DiffersWithin(before, after, damage, w, h) && QueueFits(pending, damage)
    ensures Current(a, after, Queue(pending, damage), w, h)
  {
    hide Queue, ColorOf;
    forall x: nat, y: nat | x < w && y < h && !Dirty(Queue(pending, damage), x, y) ensures Same(a, after, w, h, x, y) {
      QueueKeeps(pending, damage, x, y);
      assert Same(a, before, w, h, x, y);
    }
  }

  /** The damaged pixels of `from` copied over `to`. */
  ghost predicate Copied(from: seq<Pixel>, to: seq<Pixel>, to': seq<Pixel>, rect: Rect, w: nat, h: nat) {
    && |from| == |to| == |to'| == w * h
    && forall x: nat, y: nat :: x < w && y < h ==>
         Get(to', w, h, x, y) == if rect.Covers(x, y) then Get(from, w, h, x, y) else Get(to, w, h, x, y)
  }

  /** The pixels of a frame, row by row. */
  function Rows(color: (nat, nat) -> Pixel, w: nat, h: nat): (r: seq<Pixel>)
    ensures |r| == w * h
  {
    if h == 0 then [] else Rows(color, w, h - 1) + seq(w, (x: nat) => color(x, h - 1))
  }

  lemma {:induction false} RowsAt(color: (nat, nat) -> Pixel, w: nat, h: nat, x: nat, y: nat)
    requires x < w && y < h
    ensures At(w, x, y) < w * h && Rows(color, w, h)[At(w, x, y)] == color(x, y)
  {
    AtBound(w, h, x, y);
    if y < h - 1 { RowsAt(color, w, h - 1, x, y); }
  }

  /**
  A present that is never delivered does no harm, whatever a display that was current held before it, exactly
  when the queued damage has no visible part.
  */
  lemma ForgottenIff(strokes: seq<Stroke>, damage: Option<Rect>, w: nat, h: nat)
    requires w < 0x8000_0000 && h < 0x8000_0000
    ensures (forall a: seq<Pixel> | |a| == w * h && Current(a, strokes, Some(damage), w, h) :: Current(a, strokes, None, w, h))
            <==> Clip(damage, w, h).None?
  {
    if Clip(damage, w, h).None? {
      forall x: nat, y: nat | x < w && y < h ensures !Dirty(Some(damage), x, y) { ClipIsExact(damage, w, h, x, y); }
    } else {
      var rect := Clip(damage, w, h).value;
      var color := (x: nat, y: nat) =>
          if Dirty(Some(damage), x, y) then ColorOf(strokes, w, h, x, y) + 1 else ColorOf(strokes, w, h, x, y);
      var a := Rows(color, w, h);
      forall x: nat, y: nat | x < w && y < h ensures Get(a, w, h, x, y) == color(x, y) { RowsAt(color, w, h, x, y); }
      ClipIsExact(damage, w, h, rect.x, rect.y);
      assert !Same(a, strokes, w, h, rect.x, rect.y);
      assert Current(a, strokes, Some(damage), w, h) && !Current(a, strokes, None, w, h);
    }
  }

  class Screen {
    const frame: Frame
    const shown: Frame
    var pending: Pending
    var contentsValid: bool
    ghost var scene: seq<Stroke>

    /** Between operations the frame buffer is current, apart from the queued damage, whenever it is trusted. */
    ghost predicate Valid()
      reads this, frame.pixels, shown.pixels
    {
      && frame.Valid() && shown.Valid() && frame.pixels != shown.pixels
      && frame.width == shown.width < 0x8000_0000 && frame.height == shown.height < 0x8000_0000
      && IsScene(scene)
      && (contentsValid ==> Current(frame.pixels[..], scene, pending, frame.width, frame.height))
    }

    /** The display is current as well, whenever the frame is trusted. */
    ghost predicate Delivered()
      requires Valid()
      reads this, frame.pixels, shown.pixels
    {
      contentsValid ==> Current(shown.pixels[..], scene, pending, frame.width, frame.height)
    }

    constructor (w: nat, h: nat, strokes: seq<Stroke>)
      requires w < 0x8000_0000 && h < 0x8000_0000 && IsScene(strokes)
      ensures Valid() && Delivered() && !contentsValid && pending.None? && scene == strokes
      ensures frame.width == w && frame.height == h && fresh(frame.pixels) && fresh(shown.pixels)
    {
      frame := new Frame(w, h);
      shown := new Frame(w, h);
      pending, contentsValid, scene := None, false, strokes;
    }

    /** The scene changes and the change's damage is queued. */
    method Change(ghost strokes: seq<Stroke>, damage: Option<Rect>)
      requires Valid() && IsScene(strokes) && QueueFits(pending, damage)
      requires DiffersWithin(scene, strokes, damage, frame.width, frame.height)
      modifies this`pending, this`scene
      ensures Valid() && scene == strokes && pending == Queue(old(pending), damage)
      ensures old(Delivered()) ==> Delivered()
    {
      if contentsValid {
        ChangeIsQueued(frame.pixels[..], scene, strokes, pending, damage, frame.width, frame.height);
        if Current(shown.pixels[..], scene, pending, frame.width, frame.height) {
          ChangeIsQueued(shown.pixels[..], scene, strokes, pending, damage, frame.width, frame.height);
        }
      }
      pending := Queue(pending, damage);
      scene := strokes;
    }

    /** Copy a rectangle of the frame to the display. */
    method Transfer(rect: Rect)
      requires Valid() && Within(rect, frame.width, frame.height)
      modifies shown.pixels
      ensures Copied(frame.pixels[..], old(shown.pixels[..]), shown.pixels[..], rect, frame.width, frame.height)
    {
      var w, h := frame.width, frame.height;
      ghost var before := shown.pixels[..];
      var y := rect.y;
      while y < rect.y + rect.height
        invariant rect.y <= y <= rect.y + rect.height
        invariant Copied(frame.pixels[..], before, shown.pixels[..], Rect(rect.x, rect.y, rect.width, y - rect.y), w, h)
      {
        var x := rect.x;
        while x < rect.x + rect.width
          invariant rect.x <= x <= rect.x + rect.width
          invariant |shown.pixels[..]| == w * h
          invariant forall x': nat, y': nat :: x' < w && y' < h ==>
            Get(shown.pixels[..], w, h, x', y')
            == if Rect(rect.x, rect.y, rect.width, y - rect.y).Covers(x', y') || (y' == y && rect.x <= x' < x)
               then Get(frame.pixels[..], w, h, x', y') else Get(before, w, h, x', y')
        {
          AtBound(w, h, x, y);
          ghost var now := shown.pixels[..];
          var i := At(w, x, y);
          shown.pixels[i] := frame.pixels[i];
          assert shown.pixels[..] == now[i := frame.pixels[i]];
          forall x': nat, y': nat | x' < w && y' < h
            ensures Get(shown.pixels[..], w, h, x', y')
                    == if x' == x && y' == y then Get(frame.pixels[..], w, h, x, y) else Get(now, w, h, x', y')
          {
            GetPut(now, w, h, x, y, frame.pixels[i], x', y');
          }
          x := x + 1;
        }
        y := y + 1;
      }
    }

    /**
    Paint and present the queued damage. A transferred present leaves the display showing the scene; a
    rejected one makes the next present a full one; an undelivered one is forgotten.
    */
    method Flush(strokes: seq<Stroke>, delivery: Delivery)
      requires Valid() && strokes == scene
      modifies this`pending, this`contentsValid, frame.pixels, shown.pixels
      ensures Valid() && pending.None?
      ensures delivery != Undelivered && old(Delivered()) ==> Delivered()
      ensures delivery == Transferred && old(pending).Some? && old(Delivered())
              && Clip(if old(contentsValid) then old(pending).value else None, frame.width, frame.height).Some? ==>
        contentsValid && Current(shown.pixels[..], scene, None, frame.width, frame.height)
      ensures delivery == Undelivered ==> shown.pixels[..] == old(shown.pixels[..])
      ensures delivery == Undelivered && old(pending).Some? && old(contentsValid) && old(Delivered()) ==>
        && (Clip(old(pending).value, frame.width, frame.height).None? ==> Delivered())
        && (Delivered() <==> AlreadyShown(old(pending)))
    {
      if pending.None? { return; }
      var damage := if contentsValid then pending.value else None;
      ghost var queued := pending;
      var rect := Clip(damage, frame.width, frame.height);
      pending := None;
      ghost var w, h := frame.width, frame.height;
      if rect.None? {
        forall x: nat, y: nat | x < w && y < h ensures contentsValid ==> !Dirty(queued, x, y) {
          ClipIsExact(damage, w, h, x, y);
        }
        return;
      }
      frame.Paint(strokes, rect.value);
      forall x: nat, y: nat | x < w && y < h
        ensures rect.value.Covers(x, y) <==> !contentsValid || Dirty(queued, x, y)
      {
        ClipIsExact(damage, w, h, x, y);
      }
      match delivery
      case Undelivered =>
      case Rejected => contentsValid := false;
      case Transferred =>
        contentsValid := true;
        Transfer(rect.value);
    }

    /** Every queued pixel happens to show the scene already. */
    ghost predicate AlreadyShown(queued: Pending)
      requires Valid()
      reads this, frame.pixels, shown.pixels
    {
      forall x: nat, y: nat :: x < frame.width && y < frame.height && Dirty(queued, x, y) ==>
        Same(shown.pixels[..], scene, frame.width, frame.height, x, y)
    }
  }

  /** An undelivered present leaves the display behind although nothing is queued any more. */
  method StaleAfterUndelivered() returns (screen: Screen)
    ensures screen.Valid() && screen.contentsValid && screen.pending.None? && !screen.Delivered()
  {
    var red, blue := [Backdrop(1)], [Backdrop(2)];
    screen := new Screen(1, 1, red);
    screen.Change(red, None);
    screen.Flush(red, Transferred);
    assert Same(screen.shown.pixels[..], red, 1, 1, 0, 0);
    assert ColorOf(red, 1, 1, 0, 0) == 1 && ColorOf(blue, 1, 1, 0, 0) == 2;
    screen.Change(blue, None);
    screen.Flush(blue, Undelivered);
    assert !Same(screen.shown.pixels[..], blue, 1, 1, 0, 0);
  }
}
