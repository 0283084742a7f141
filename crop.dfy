/** imcrop: clamp a box into the image, validate it, slice. */
module Crop {
  import opened Images

  /** (x1, y1) is the top-left corner, (x2, y2) the bottom-right one; x runs along the width. */
  datatype Box = Box(x1: int, y1: int, x2: int, y2: int)

  /** One coordinate clipped into [0, bound]: np.maximum with 0, then np.minimum with the bound. */
  function Clamp(v: int, bound: nat): (r: int)
    ensures 0 <= r <= bound
    ensures 0 <= v <= bound ==> r == v
  {
    Min(Max(v, 0), bound)
  }

  /** The box once x is clipped into [0, width] and y into [0, height]. */
  function ClampBox(b: Box, width: nat, height: nat): (r: Box)
    ensures 0 <= r.x1 <= width && 0 <= r.x2 <= width
    ensures 0 <= r.y1 <= height && 0 <= r.y2 <= height
    ensures InBounds(b, width, height) ==> r == b
  {
    Box(Clamp(b.x1, width), Clamp(b.y1, height), Clamp(b.x2, width), Clamp(b.y2, height))
  }

  predicate InBounds(b: Box, width: nat, height: nat)
  {
    0 <= b.x1 <= width && 0 <= b.x2 <= width && 0 <= b.y1 <= height && 0 <= b.y2 <= height
  }

  /** Clamping twice is clamping once. */
  lemma ClampBoxIdempotent(b: Box, width: nat, height: nat)
    ensures ClampBox(ClampBox(b, width, height), width, height) == ClampBox(b, width, height)
  {
  }

  /** Clamping keeps the order of the two corners on each axis. */
  lemma ClampBoxMonotone(b: Box, width: nat, height: nat)
    ensures b.x1 <= b.x2 ==> ClampBox(b, width, height).x1 <= ClampBox(b, width, height).x2
    ensures b.y1 <= b.y2 ==> ClampBox(b, width, height).y1 <= ClampBox(b, width, height).y2
  {
  }

  /** The slice g[y1:y2, x1:x2, :] of an h x w x c block, for a box already inside it. */
  function CropGrid(g: Grid, h: nat, w: nat, c: nat, b: Box): (r: Grid)
    requires IsShape(g, h, w, c)
    requires 0 <= b.x1 <= b.x2 <= w && 0 <= b.y1 <= b.y2 <= h
    ensures IsShape(r, b.y2 - b.y1, b.x2 - b.x1, c)
    ensures forall i, j, k :: 0 <= i < b.y2 - b.y1 && 0 <= j < b.x2 - b.x1 && 0 <= k < c ==>
      r[i][j][k] == g[b.y1 + i][b.x1 + j][k]
  {
    seq(b.y2 - b.y1, i requires 0 <= i < b.y2 - b.y1 => g[b.y1 + i][b.x1..b.x2])
  }

  /** Cropping the whole image returns it unchanged. */
  lemma CropWholeGrid(g: Grid, h: nat, w: nat, c: nat)
    requires IsShape(g, h, w, c)
    ensures CropGrid(g, h, w, c, Box(0, 0, w, h)) == g
  {
    GridExtensionality(CropGrid(g, h, w, c, Box(0, 0, w, h)), g, h, w, c);
  }

  /** Cropping a crop is one crop of the combined box. */
  lemma CropOfCrop(g: Grid, h: nat, w: nat, c: nat, outer: Box, inner: Box)
    requires IsShape(g, h, w, c)
    requires 0 <= outer.x1 <= outer.x2 <= w && 0 <= outer.y1 <= outer.y2 <= h
    requires 0 <= inner.x1 <= inner.x2 <= outer.x2 - outer.x1 && 0 <= inner.y1 <= inner.y2 <= outer.y2 - outer.y1
    ensures CropGrid(CropGrid(g, h, w, c, outer), outer.y2 - outer.y1, outer.x2 - outer.x1, c, inner)
         == CropGrid(g, h, w, c, Box(outer.x1 + inner.x1, outer.y1 + inner.y1, outer.x1 + inner.x2, outer.y1 + inner.y2))
  {
    var once := CropGrid(g, h, w, c, outer);
    var twice := CropGrid(once, outer.y2 - outer.y1, outer.x2 - outer.x1, c, inner);
    var direct := CropGrid(g, h, w, c, Box(outer.x1 + inner.x1, outer.y1 + inner.y1, outer.x1 + inner.x2, outer.y1 + inner.y2));
    GridExtensionality(twice, direct, inner.y2 - inner.y1, inner.x2 - inner.x1, c);
  }

  /**
   * imcrop(img, box). A 0-D or 1-D image raises while its width is looked
   * up; otherwise the box is clamped, an inverted box is refused, and only
   * then is a rank other than 2 or 3 refused. Equal corners give an empty
   * crop, not an error. A 2-D image is held with one channel, so both
   * slicing branches take the same form here.
   */
  method Imcrop(img: Image, box: Box) returns (r: Result<Grid>)
    requires img.Valid()
    ensures img.rank < 2 ==> r == Failure(IndexOutOfRange)
    ensures img.rank >= 2 ==>
      var cb := ClampBox(box, img.data.Length1, img.data.Length0);
      && (cb.x1 > cb.x2 || cb.y1 > cb.y2 ==> r == Failure(InvertedBox))
      && (cb.x1 <= cb.x2 && cb.y1 <= cb.y2 && img.rank > 3 ==> r == Failure(UnsupportedRank))
      && (r.Success? <==> cb.x1 <= cb.x2 && cb.y1 <= cb.y2 && img.rank <= 3)
      && (r.Success? ==> r.value == CropGrid(Contents(img.data), img.data.Length0, img.data.Length1, img.data.Length2, cb))
  {
    if img.rank < 2 {
      return Failure(IndexOutOfRange);
    }
    var height, width := img.data.Length0, img.data.Length1;
    var b := new int[4];
    b[0], b[1], b[2], b[3] := Max(box.x1, 0), Max(box.y1, 0), Max(box.x2, 0), Max(box.y2, 0);
    b[0] := Min(b[0], width);
    b[1] := Min(b[1], height);
    b[2] := Min(b[2], width);
    b[3] := Min(b[3], height);
    var x1, y1, x2, y2 := b[0], b[1], b[2], b[3];
    assert Box(x1, y1, x2, y2) == ClampBox(box, width, height);
    if x1 > x2 || y1 > y2 {
      return Failure(InvertedBox);
    }
    if img.rank == 3 || img.rank == 2 {
      r := Success(CropGrid(Contents(img.data), height, width, img.data.Length2, Box(x1, y1, x2, y2)));
    } else {
      r := Failure(UnsupportedRank);
    }
  }
}
