/**
Mediated presentation: the clipped damage of a frame is sent to the kernel in
tiles no larger than the transfer limit.
*/
module Tiling {
  import opened Base

  const BYTES_PER_PIXEL: nat := 4
  const MAX_DIMENSION: nat := 4096

  datatype Failure = Invalid | SizeLimit | Device

  datatype Geometry = Geometry(width: u32, height: u32, stride: u32, xrgb: bool)

  datatype DamageRect = DamageRect(x: u32, y: u32, width: u32, height: u32)
  {
    predicate Empty() { width == 0 || height == 0 }
  }

  datatype PresentFrame = PresentFrame(geometry: Geometry, pixels: seq<byte>, damage: DamageRect)

  datatype Transfer = Transfer(x: nat, y: nat, width: nat, rows: nat, bytes: seq<byte>)

  function ByteLen(g: Geometry): Result<nat, Failure> {
    if g.width == 0 || g.height == 0 || g.width > MAX_DIMENSION || g.height > MAX_DIMENSION
       || g.stride < g.width || g.stride > MAX_DIMENSION || !g.xrgb
    then Err(Invalid)
    else Ok(g.stride * BYTES_PER_PIXEL * g.height)
  }

  function Validate(f: PresentFrame): Option<Failure> {
    match ByteLen(f.geometry)
    case Err(e) => Some(e)
    case Ok(required) =>
      if |f.pixels| < required then Some(Invalid)
      else if f.damage.Empty() then None
      else if f.damage.x + f.damage.width >= U32_LIMIT || f.damage.y + f.damage.height >= U32_LIMIT then Some(SizeLimit)
      else if f.damage.x + f.damage.width > f.geometry.width || f.damage.y + f.damage.height > f.geometry.height
      then Some(Invalid)
      else None
  }

  // What is to be sent.

  predicate Holds(t: Transfer, px: int, py: int) { t.x <= px < t.x + t.width && t.y <= py < t.y + t.rows }

  /** Byte `c` of pixel (px, py) of the frame. */
  function SourceAt(f: PresentFrame, px: nat, py: nat, c: nat): nat {
    py * (f.geometry.stride * BYTES_PER_PIXEL) + px * BYTES_PER_PIXEL + c
  }

  /** The same byte inside a transfer that holds the pixel. */
  function TileAt(t: Transfer, px: nat, py: nat, c: nat): int {
    (py - t.y) * (t.width * BYTES_PER_PIXEL) + (px - t.x) * BYTES_PER_PIXEL + c
  }

  /** A transfer carries the frame's own bytes for each of its pixels. */
  ghost predicate Faithful(f: PresentFrame, t: Transfer) {
    forall px: nat, py: nat, c: nat :: Holds(t, px, py) && c < BYTES_PER_PIXEL ==>
      && 0 <= TileAt(t, px, py, c) < |t.bytes| && SourceAt(f, px, py, c) < |f.pixels|
      && t.bytes[TileAt(t, px, py, c)] == f.pixels[SourceAt(f, px, py, c)]
  }

  predicate InDone(px: int, py: int, x0: int, y0: int, x: int, bottom: int) { x0 <= px < x && y0 <= py < bottom }

  /** Some transfer holds the pixel. */
  ghost predicate Sent(sent: seq<Transfer>, px: int, py: int) {
    exists k :: 0 <= k < |sent| && Holds(sent[k], px, py)
  }

  /** No pixel is in two transfers. */
  ghost predicate Apart(sent: seq<Transfer>) {
    forall k, l, px: int, py: int :: 0 <= k < l < |sent| && Holds(sent[k], px, py) ==> !Holds(sent[l], px, py)
  }

  // Rows of bytes.

  /** `n` rows of `len` bytes, `stride` apart, from offset `at`, joined. */
  function Rows(pixels: seq<byte>, at: nat, stride: nat, len: nat, n: nat): (r: seq<byte>)
    requires n > 0 ==> at + (n - 1) * stride + len <= |pixels|
    ensures |r| == n * len
  {
    if n == 0 then [] else
    RowBefore(at, stride, len, n, |pixels|);
    Rows(pixels, at, stride, len, n - 1) + pixels[at + (n - 1) * stride..at + (n - 1) * stride + len]
  }

  lemma RowBefore(at: nat, stride: nat, len: nat, n: nat, limit: nat)
    requires n > 0 && at + (n - 1) * stride + len <= limit
    ensures n > 1 ==> at + (n - 2) * stride + len <= limit
  {
    if n > 1 { assert (n - 2) * stride <= (n - 1) * stride; }
  }

  lemma {:induction false} RowsAt(pixels: seq<byte>, at: nat, stride: nat, len: nat, n: nat, r: nat, b: nat)
    requires n > 0 ==> at + (n - 1) * stride + len <= |pixels|
    requires r < n && b < len
    ensures 0 <= r * len + b < n * len && 0 <= at + r * stride + b < |pixels|
    ensures Rows(pixels, at, stride, len, n)[r * len + b] == pixels[at + r * stride + b]
  {
    RowBefore(at, stride, len, n, |pixels|);
    if r < n - 1 {
      RowsAt(pixels, at, stride, len, n - 1, r, b);
    } else {
      assert n * len == (n - 1) * len + len;
    }
  }

  /** Rows that follow one another without a gap are one slice. */
  lemma {:induction false} RowsContiguous(pixels: seq<byte>, at: nat, len: nat, n: nat)
    requires n > 0 ==> at + (n - 1) * len + len <= |pixels|
    ensures at + n * len <= |pixels| || n == 0
    ensures n > 0 ==> Rows(pixels, at, len, len, n) == pixels[at..at + n * len]
  {
    if n > 0 {
      RowBefore(at, len, len, n, |pixels|);
      assert n * len == (n - 1) * len + len;
      if n > 1 { RowsContiguous(pixels, at, len, n - 1); }
    }
  }

  /** A tile made of rows of the frame is faithful. */
  lemma RowsAreFaithful(f: PresentFrame, t: Transfer)
    requires t.width > 0 && t.rows > 0
    requires SourceAt(f, t.x, t.y, 0) + (t.rows - 1) * (f.geometry.stride * BYTES_PER_PIXEL) + t.width * BYTES_PER_PIXEL
             <= |f.pixels|
    requires t.bytes == Rows(f.pixels, SourceAt(f, t.x, t.y, 0), f.geometry.stride * BYTES_PER_PIXEL,
                             t.width * BYTES_PER_PIXEL, t.rows)
    ensures Faithful(f, t)
  {
    forall px: nat, py: nat, c: nat | Holds(t, px, py) && c < BYTES_PER_PIXEL
      ensures 0 <= TileAt(t, px, py, c) < |t.bytes| && SourceAt(f, px, py, c) < |f.pixels|
      ensures t.bytes[TileAt(t, px, py, c)] == f.pixels[SourceAt(f, px, py, c)]
    {
      var stride, len := f.geometry.stride * BYTES_PER_PIXEL, t.width * BYTES_PER_PIXEL;
      RowsAt(f.pixels, SourceAt(f, t.x, t.y, 0), stride, len, t.rows, py - t.y, (px - t.x) * BYTES_PER_PIXEL + c);
      RowOffset(t.y, py - t.y, stride);
    }
  }

  lemma RowOffset(y: nat, r: nat, stride: nat)
    ensures (y + r) * stride == y * stride + r * stride
  {
  }

  /** The last row of a tile inside the frame ends inside its pixels. */
  lemma TileInBounds(f: PresentFrame, x: nat, y: nat, width: nat, rows: nat)
    requires Validate(f).None? && rows > 0 && x + width <= f.geometry.width && y + rows <= f.geometry.height
    ensures SourceAt(f, x, y, 0) + (rows - 1) * (f.geometry.stride * BYTES_PER_PIXEL) + width * BYTES_PER_PIXEL <= |f.pixels|
  {
    var stride := f.geometry.stride * BYTES_PER_PIXEL;
    assert y * stride + (rows - 1) * stride == (y + rows - 1) * stride;
    assert (y + rows - 1) * stride + stride == (y + rows) * stride <= f.geometry.height * stride;
    assert x * BYTES_PER_PIXEL + width * BYTES_PER_PIXEL <= stride;
  }

  lemma TransferFits(limit: nat, tileBytes: nat, rows: nat)
    requires 0 < tileBytes <= limit && rows <= limit / tileBytes
    ensures tileBytes * rows <= limit && rows * tileBytes <= limit
  {
    assert rows * tileBytes <= (limit / tileBytes) * tileBytes <= limit;
  }

  /** The bytes of one tile: one slice when its rows are contiguous in the frame, else copied row by row. */
  method TileBytes(f: PresentFrame, x: nat, y: nat, width: nat, rows: nat) returns (bytes: seq<byte>)
    requires Validate(f).None? && width > 0 && rows > 0
    requires x + width <= f.geometry.width && y + rows <= f.geometry.height
    ensures |bytes| == rows * (width * BYTES_PER_PIXEL)
    ensures Faithful(f, Transfer(x, y, width, rows, bytes))
  {
    hide Faithful, Validate, Rows;
    TileInBounds(f, x, y, width, rows);
    var sourceRow, tileBytes := f.geometry.stride * BYTES_PER_PIXEL, width * BYTES_PER_PIXEL;
    var source := SourceAt(f, x, y, 0);
    if tileBytes == sourceRow {
      RowsContiguous(f.pixels, source, tileBytes, rows);
      bytes := f.pixels[source..source + rows * tileBytes];
    } else {
      bytes := CopyRows(f.pixels, source, sourceRow, tileBytes, rows);
    }
    RowsAreFaithful(f, Transfer(x, y, width, rows, bytes));
  }

  method CopyRows(pixels: seq<byte>, at: nat, stride: nat, len: nat, rows: nat) returns (bytes: seq<byte>)
    requires rows > 0 && at + (rows - 1) * stride + len <= |pixels|
    ensures bytes == Rows(pixels, at, stride, len, rows)
  {
    bytes := [];
    for row := 0 to rows
      invariant row > 0 ==> at + (row - 1) * stride + len <= |pixels|
      invariant bytes == Rows(pixels, at, stride, len, row)
    {
      RowUpTo(at, stride, len, row, rows, |pixels|);
      bytes := bytes + pixels[at + row * stride..at + row * stride + len];
    }
  }

  lemma RowUpTo(at: nat, stride: nat, len: nat, row: nat, rows: nat, limit: nat)
    requires row < rows && at + (rows - 1) * stride + len <= limit
    ensures at + row * stride + len <= limit
  {
    assert row * stride <= (rows - 1) * stride;
  }

  /** Every transfer carries its own pixels of the frame, and fits the limit. */
  ghost predicate Proper(f: PresentFrame, sent: seq<Transfer>, limit: nat) {
    forall k :: 0 <= k < |sent| ==>
      && Faithful(f, sent[k]) && |sent[k].bytes| == sent[k].rows * (sent[k].width * BYTES_PER_PIXEL) <= limit
  }

  datatype Backend = Backend(geometry: Geometry, transferLimit: nat)
  {
    /** Send the rectangle from (damage.x, damage.y) to (right, bottom), tile by tile. */
    method PresentMediated(f: PresentFrame, right: nat, bottom: nat, fails: nat -> bool)
      returns (error: Option<Failure>, sent: seq<Transfer>)
      requires Validate(f).None?
      requires right <= f.geometry.width && bottom <= f.geometry.height
      requires f.damage.x <= right && f.damage.y <= bottom
      ensures Apart(sent) && Proper(f, sent, transferLimit)
      ensures forall px: int, py: int :: Sent(sent, px, py) ==> InDone(px, py, f.damage.x, f.damage.y, right, bottom)
      ensures error.None? ==>
        forall px: int, py: int :: InDone(px, py, f.damage.x, f.damage.y, right, bottom) ==> Sent(sent, px, py)
      ensures error == Some(SizeLimit) <==> transferLimit < BYTES_PER_PIXEL
      ensures error == Some(Device) ==> fails(|sent|)
      ensures error != Some(Invalid) && forall k :: 0 <= k < |sent| ==> !fails(k)
    {
      hide Faithful, Validate;
      sent := [];
      var maxWidth := transferLimit / BYTES_PER_PIXEL;
      if maxWidth == 0 { return Some(SizeLimit), []; }
      var x := f.damage.x;
      while x < right
        invariant f.damage.x <= x <= right && Apart(sent) && Proper(f, sent, transferLimit)
        invariant forall k :: 0 <= k < |sent| ==> !fails(k)
        invariant forall px: int, py: int :: Sent(sent, px, py) <==> InDone(px, py, f.damage.x, f.damage.y, x, bottom)
      {
        var tileWidth := Min(right - x, maxWidth);
        var tileBytes := tileWidth * BYTES_PER_PIXEL;
        var rowsPerTransfer := Max(transferLimit / tileBytes, 1);
        var y := f.damage.y;
        while y < bottom
          invariant f.damage.y <= y <= bottom && Apart(sent) && Proper(f, sent, transferLimit)
          invariant forall k :: 0 <= k < |sent| ==> !fails(k)
          invariant forall px: int, py: int :: Sent(sent, px, py) <==>
            InDone(px, py, f.damage.x, f.damage.y, x, bottom) || InDone(px, py, x, f.damage.y, x + tileWidth, y)
        {
          var rows := Min(bottom - y, rowsPerTransfer);
          AtLeastOneRow(transferLimit, tileBytes);
          TransferFits(transferLimit, tileBytes, rows);
          var bytes := TileBytes(f, x, y, tileWidth, rows);
          if fails(|sent|) { return Some(Device), sent; }
          var t := Transfer(x, y, tileWidth, rows, bytes);
          SentMore(sent, t);
          sent := sent + [t];
          y := y + rows;
        }
        x := x + tileWidth;
      }
      error := None;
    }

    /** Validate, clip to the display, and send; an empty or invisible damage sends nothing. */
    method Present(f: PresentFrame, fails: nat -> bool) returns (error: Option<Failure>, sent: seq<Transfer>)
      ensures Apart(sent) && Proper(f, sent, transferLimit)
      ensures forall px: int, py: int :: Sent(sent, px, py) ==> Visible(f, geometry, px, py)
      ensures error.None? ==> forall px: int, py: int :: Visible(f, geometry, px, py) ==> Sent(sent, px, py)
      ensures Validate(f).Some? ==> error == Validate(f) && sent == []
      ensures Validate(f).None? ==>
        && error != Some(Invalid)
        && (error == Some(SizeLimit) <==>
              transferLimit < BYTES_PER_PIXEL && Visible(f, geometry, f.damage.x, f.damage.y))
        && (error == Some(Device) ==> fails(|sent|))
      ensures forall k :: 0 <= k < |sent| ==> !fails(k)
    {
      hide Faithful;
      var invalid := Validate(f);
      if invalid.Some? { return invalid, []; }
      if f.damage.Empty() { return None, []; }
      var right := Min(f.damage.x + f.damage.width, geometry.width);
      var bottom := Min(f.damage.y + f.damage.height, geometry.height);
      var width := Min(Max(right - f.damage.x, 0), Max(f.geometry.width - f.damage.x, 0));
      if width == 0 || bottom <= f.damage.y { return None, []; }
      error, sent := PresentMediated(f, right, bottom, fails);
    }
  }

  /** A damaged pixel that the display has room for. */
  predicate Visible(f: PresentFrame, g: Geometry, px: int, py: int) {
    && f.damage.x <= px < f.damage.x + f.damage.width && f.damage.y <= py < f.damage.y + f.damage.height
    && px < g.width && py < g.height
  }

  lemma AtLeastOneRow(limit: nat, tileBytes: nat)
    requires 0 < tileBytes <= limit
    ensures limit / tileBytes >= 1
  {
    assert limit == limit / tileBytes * tileBytes + limit % tileBytes;
  }

  /** One more transfer adds exactly its own pixels. */
  lemma SentMore(sent: seq<Transfer>, t: Transfer)
    ensures forall px: int, py: int :: Sent(sent + [t], px, py) <==> Sent(sent, px, py) || Holds(t, px, py)
    ensures Apart(sent) && (forall px: int, py: int :: Holds(t, px, py) ==> !Sent(sent, px, py)) ==> Apart(sent + [t])
  {
    var more := sent + [t];
    forall px: int, py: int ensures Sent(more, px, py) <==> Sent(sent, px, py) || Holds(t, px, py) {
      assert more[|sent|] == t;
      if Sent(sent, px, py) {
        var k :| 0 <= k < |sent| && Holds(sent[k], px, py);
        assert Holds(more[k], px, py);
      }
    }
    if Apart(sent) && (forall px: int, py: int :: Holds(t, px, py) ==> !Sent(sent, px, py)) {
      forall k, l, px: int, py: int | 0 <= k < l < |more| && Holds(more[k], px, py) ensures !Holds(more[l], px, py) {
        assert Holds(sent[k], px, py);
      }
    }
  }
}
