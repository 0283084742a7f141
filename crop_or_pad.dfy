/**
 * resize_image_with_crop_or_pad: centre an image in a target canvas,
 * cropping an axis that is too long and zero-padding one that is too
 * short, each axis on its own.
 */
module CropOrPad {
  import opened Images
  import Crop

  /** The bounds [start:end] of a Python slice along one axis. */
  datatype Span = Span(start: int, end: int)
  {
    function Length(): int { end - start }
  }

  /**
   * The indices a slice with non-negative bounds really selects on an axis
   * of length n: numpy cuts both bounds down to n, and an end before the
   * start selects nothing.
   */
  function Clip(sp: Span, n: nat): (r: Span)
    requires 0 <= sp.start && 0 <= sp.end
    ensures 0 <= r.start <= r.end <= n
    ensures sp.start <= sp.end <= n ==> r == sp
    ensures sp.start <= n ==> r.start == sp.start
  {
    var s := Min(sp.start, n);
    Span(s, Max(s, Min(sp.end, n)))
  }

  /**
   * The destination and source slices the source writes for one axis,
   * source length s and target length t, before numpy clips them. In the
   * crop branch the destination end is t + 1, in the pad branch the
   * source end is s + 1.
   */
  function WrittenSpans(s: nat, t: nat): (r: (Span, Span))
    ensures r.0.start >= 0 && r.0.end >= 0 && r.1.start >= 0 && r.1.end >= 0
  {
    if s > t then (Span(0, t + 1), Span(s / 2 - t / 2, s / 2 - t / 2 + t))
    else (Span(t / 2 - s / 2, t / 2 - s / 2 + s), Span(0, s + 1))
  }

  /** The destination window on the target axis and the source window, as numpy clips them. */
  function Windows(s: nat, t: nat): (r: (Span, Span))
    ensures 0 <= r.0.start <= r.0.end <= t
    ensures 0 <= r.1.start <= r.1.end <= s
  {
    var (dst, src) := WrittenSpans(s, t);
    (Clip(dst, t), Clip(src, s))
  }

  /** A window of t samples starting at floor(s/2) - floor(t/2) lies inside [0, s) when t <= s. */
  lemma HalvesFit(s: nat, t: nat)
    requires t <= s
    ensures 0 <= s / 2 - t / 2 && s / 2 - t / 2 + t <= s
  {
    assert s / 2 * 2 <= s <= s / 2 * 2 + 1;
    assert t / 2 * 2 <= t <= t / 2 * 2 + 1;
  }

  /**
   * The +1 ends are harmless: after clipping, the two windows of an axis
   * have the same length, the shorter of s and t, and only the +1 end was
   * cut (by exactly one).
   */
  lemma WindowsMatch(s: nat, t: nat)
    ensures Windows(s, t).0.Length() == Windows(s, t).1.Length()
    ensures Windows(s, t).0.Length() == Min(s, t)
    ensures s > t ==>
      (Windows(s, t).1 == WrittenSpans(s, t).1 && Windows(s, t).0 == Span(0, t) && WrittenSpans(s, t).0.end == t + 1)
    ensures s <= t ==>
      (Windows(s, t).0 == WrittenSpans(s, t).0 && Windows(s, t).1 == Span(0, s) && WrittenSpans(s, t).1.end == s + 1)
  {
    if s > t {
      HalvesFit(s, t);
    } else {
      HalvesFit(t, s);
    }
  }

  /**
   * The centring rule stated directly: a crop reads the source from
   * floor(s/2) - floor(t/2) on; a pad places the source at offset
   * floor(t/2) - floor(s/2) and leaves everything else empty.
   */
  function Centred(s: nat, t: nat, i: nat): Option<int>
  {
    if s > t then Some(s / 2 - t / 2 + i)
    else if t / 2 - s / 2 <= i < t / 2 - s / 2 + s then Some(i - (t / 2 - s / 2))
    else None
  }

  /** The source index copied to target index i of an axis, or None where the target stays 0. */
  function SourceIndex(s: nat, t: nat, i: nat): (r: Option<int>)
    ensures r.Some? ==> 0 <= r.value < s
  {
    var (dst, src) := Windows(s, t);
    WindowsMatch(s, t);
    if dst.start <= i < dst.end then Some(src.start + (i - dst.start)) else None
  }

  /** The slices of the source select exactly the centring rule, on every target index. */
  lemma SourceIndexIsCentred(s: nat, t: nat, i: nat)
    requires i < t
    ensures SourceIndex(s, t, i) == Centred(s, t, i)
  {
    WindowsMatch(s, t);
  }

  /** Crop branch: every target index is filled, from floor(s/2) - floor(t/2) + i. */
  lemma CropAxis(s: nat, t: nat, i: nat)
    requires s > t && i < t
    ensures SourceIndex(s, t, i) == Some(s / 2 - t / 2 + i)
    ensures 0 <= s / 2 - t / 2 && s / 2 - t / 2 + t <= s
  {
    SourceIndexIsCentred(s, t, i);
  }

  /** Pad branch: the source sits at offset floor(t/2) - floor(s/2), inside the target; outside it nothing is copied. */
  lemma PadAxis(s: nat, t: nat, i: nat)
    requires s <= t && i < t
    ensures 0 <= t / 2 - s / 2 && t / 2 - s / 2 + s <= t
    ensures t / 2 - s / 2 <= i < t / 2 - s / 2 + s ==> SourceIndex(s, t, i) == Some(i - (t / 2 - s / 2))
    ensures !(t / 2 - s / 2 <= i < t / 2 - s / 2 + s) ==> SourceIndex(s, t, i) == None
  {
    SourceIndexIsCentred(s, t, i);
  }

  /** Equal lengths: the axis is copied unchanged. */
  lemma SameAxis(s: nat, i: nat)
    requires i < s
    ensures SourceIndex(s, s, i) == Some(i)
  {
    PadAxis(s, s, i);
  }

  /** A target no longer than the source reads from floor(s/2) - floor(t/2) on, equal lengths included. */
  lemma ShrinkAxis(s: nat, t: nat, i: nat)
    requires t <= s && i < t
    ensures SourceIndex(s, t, i) == Some(s / 2 - t / 2 + i)
  {
    if s == t { SameAxis(s, i); } else { CropAxis(s, t, i); }
  }

  /** Padding s to t and cropping t back to s lands on the index started from. */
  lemma PadThenCropAxis(s: nat, t: nat, i: nat)
    requires s <= t && i < s
    ensures SourceIndex(t, s, i).Some?
    ensures SourceIndex(s, t, SourceIndex(t, s, i).value) == Some(i)
  {
    if s == t {
      SameAxis(s, i);
    } else {
      CropAxis(t, s, i);
      PadAxis(s, t, t / 2 - s / 2 + i);
    }
  }

  /** Sample (i, j, k) of the resized block: copied from the source, or the padding value 0. */
  function ResizedSample(g: Grid, h: nat, w: nat, c: nat, th: nat, tw: nat, i: nat, j: nat, k: nat): int
    requires IsShape(g, h, w, c) && k < c
  {
    match (SourceIndex(h, th, i), SourceIndex(w, tw, j))
    case (Some(y), Some(x)) => g[y][x][k]
    case _ => 0
  }

  /** The th x tw x c block an h x w x c block becomes. */
  function Resized(g: Grid, h: nat, w: nat, c: nat, th: nat, tw: nat): (r: Grid)
    requires IsShape(g, h, w, c)
    ensures IsShape(r, th, tw, c)
    ensures forall i, j, k :: 0 <= i < th && 0 <= j < tw && 0 <= k < c ==> r[i][j][k] == ResizedSample(g, h, w, c, th, tw, i, j, k)
  {
    seq(th, i requires 0 <= i < th =>
      seq(tw, j requires 0 <= j < tw =>
        seq(c, k requires 0 <= k < c => ResizedSample(g, h, w, c, th, tw, i, j, k))))
  }

  /** Sample by sample, by the clipped windows: how the slice assignment fills the canvas. */
  lemma ResizedByWindows(g: Grid, h: nat, w: nat, c: nat, th: nat, tw: nat, i: nat, j: nat, k: nat)
    requires IsShape(g, h, w, c) && i < th && j < tw && k < c
    ensures var (dH, sH) := Windows(h, th);
      var (dW, sW) := Windows(w, tw);
      Resized(g, h, w, c, th, tw)[i][j][k] ==
        if dH.start <= i < dH.end && dW.start <= j < dW.end
        then g[sH.start + (i - dH.start)][sW.start + (j - dW.start)][k] else 0
  {
    WindowsMatch(h, th);
    WindowsMatch(w, tw);
  }

  /** Sample by sample, by the centring rule on each axis independently (crop on one, pad on the other included). */
  lemma ResizedAt(g: Grid, h: nat, w: nat, c: nat, th: nat, tw: nat, i: nat, j: nat, k: nat)
    requires IsShape(g, h, w, c) && i < th && j < tw && k < c
    ensures Resized(g, h, w, c, th, tw)[i][j][k] ==
      match (Centred(h, th, i), Centred(w, tw, j))
      case (Some(y), Some(x)) => g[y][x][k]
      case _ => 0
  {
    SourceIndexIsCentred(h, th, i);
    SourceIndexIsCentred(w, tw, j);
  }

  /** Target size equal to the source size: the image comes back unchanged. */
  lemma ResizeSameSize(g: Grid, h: nat, w: nat, c: nat)
    requires IsShape(g, h, w, c)
    ensures Resized(g, h, w, c, h, w) == g
  {
    forall i, j, k | 0 <= i < h && 0 <= j < w && 0 <= k < c
      ensures Resized(g, h, w, c, h, w)[i][j][k] == g[i][j][k]
    {
      SameAxis(h, i);
      SameAxis(w, j);
    }
    GridExtensionality(Resized(g, h, w, c, h, w), g, h, w, c);
  }

  lemma ShrinkAt(g: Grid, h: nat, w: nat, c: nat, th: nat, tw: nat, i: nat, j: nat, k: nat)
    requires IsShape(g, h, w, c) && th <= h && tw <= w && i < th && j < tw && k < c
    ensures h / 2 - th / 2 + i < h && w / 2 - tw / 2 + j < w
    ensures Resized(g, h, w, c, th, tw)[i][j][k] == g[h / 2 - th / 2 + i][w / 2 - tw / 2 + j][k]
  {
    ShrinkAxis(h, th, i);
    ShrinkAxis(w, tw, j);
  }

  /** The th x tw box centred in an h x w image, as imcrop takes it: (x1, y1, x2, y2). */
  function CentredBox(h: nat, w: nat, th: nat, tw: nat): (b: Crop.Box)
    requires th <= h && tw <= w
    ensures 0 <= b.x1 <= b.x2 <= w && 0 <= b.y1 <= b.y2 <= h
    ensures b.x2 - b.x1 == tw && b.y2 - b.y1 == th
  {
    HalvesFit(h, th);
    HalvesFit(w, tw);
    Crop.Box(w / 2 - tw / 2, h / 2 - th / 2, w / 2 - tw / 2 + tw, h / 2 - th / 2 + th)
  }

  /** Both axes shrink (or stay): the result is imcrop of the centred th x tw box, with no padding. */
  lemma ShrinkIsCentredCrop(g: Grid, h: nat, w: nat, c: nat, th: nat, tw: nat)
    requires IsShape(g, h, w, c) && th <= h && tw <= w
    ensures Resized(g, h, w, c, th, tw) == Crop.CropGrid(g, h, w, c, CentredBox(h, w, th, tw))
  {
    var b := CentredBox(h, w, th, tw);
    var cropped := Crop.CropGrid(g, h, w, c, b);
    var resized := Resized(g, h, w, c, th, tw);
    forall i, j, k | 0 <= i < th && 0 <= j < tw && 0 <= k < c
      ensures resized[i][j][k] == cropped[i][j][k]
    {
      ShrinkAt(g, h, w, c, th, tw, i, j, k);
    }
    GridExtensionality(resized, cropped, th, tw, c);
  }

  /** Both axes grow (or stay): the source sits at the centred offsets and every other sample is 0. */
  lemma GrowIsCentredPad(g: Grid, h: nat, w: nat, c: nat, th: nat, tw: nat, i: nat, j: nat, k: nat)
    requires IsShape(g, h, w, c) && h <= th && w <= tw
    requires i < th && j < tw && k < c
    ensures var oy, ox := th / 2 - h / 2, tw / 2 - w / 2;
      && 0 <= oy && oy + h <= th && 0 <= ox && ox + w <= tw
      && Resized(g, h, w, c, th, tw)[i][j][k] ==
           if oy <= i < oy + h && ox <= j < ox + w then g[i - oy][j - ox][k] else 0
  {
    PadAxis(h, th, i);
    PadAxis(w, tw, j);
  }

  /** Padding to a larger canvas and resizing back to the original size recovers the image. */
  lemma PadThenCropRoundTrip(g: Grid, h: nat, w: nat, c: nat, th: nat, tw: nat)
    requires IsShape(g, h, w, c) && h <= th && w <= tw
    ensures Resized(Resized(g, h, w, c, th, tw), th, tw, c, h, w) == g
  {
    var padded := Resized(g, h, w, c, th, tw);
    forall i, j, k | 0 <= i < h && 0 <= j < w && 0 <= k < c
      ensures Resized(padded, th, tw, c, h, w)[i][j][k] == g[i][j][k]
    {
      PadThenCropAxis(h, th, i);
      PadThenCropAxis(w, tw, j);
    }
    GridExtensionality(Resized(padded, th, tw, c, h, w), g, h, w, c);
  }

  /**
   * The slice assignment dst[rows, cols, :] = src[srcRows, srcCols, :] for
   * windows already inside both arrays and of equal lengths.
   */
  method CopyWindow(src: array3<int>, dst: array3<int>, srcRows: Span, srcCols: Span, rows: Span, cols: Span)
    requires src != dst && src.Length2 == dst.Length2
    requires 0 <= srcRows.start <= srcRows.end <= src.Length0 && 0 <= srcCols.start <= srcCols.end <= src.Length1
    requires 0 <= rows.start <= rows.end <= dst.Length0 && 0 <= cols.start <= cols.end <= dst.Length1
    requires rows.Length() == srcRows.Length() && cols.Length() == srcCols.Length()
    modifies dst
    ensures forall a, b, k :: 0 <= a < dst.Length0 && 0 <= b < dst.Length1 && 0 <= k < dst.Length2 ==>
      dst[a, b, k] ==
        if rows.start <= a < rows.end && cols.start <= b < cols.end
        then src[srcRows.start + (a - rows.start), srcCols.start + (b - cols.start), k] else old(dst[a, b, k])
  {
    var sy, sx, dy, dx := srcRows.start, srcCols.start, rows.start, cols.start;
    var ny, nx := rows.Length(), cols.Length();
    var i := 0;
    while i < ny
      invariant 0 <= i <= ny
      invariant forall a, b, k :: 0 <= a < dst.Length0 && 0 <= b < dst.Length1 && 0 <= k < dst.Length2 ==>
        dst[a, b, k] == if dy <= a < dy + i && dx <= b < dx + nx then src[sy + (a - dy), sx + (b - dx), k] else old(dst[a, b, k])
    {
      var j := 0;
      while j < nx
        invariant 0 <= j <= nx
        invariant forall a, b, k :: 0 <= a < dst.Length0 && 0 <= b < dst.Length1 && 0 <= k < dst.Length2 ==>
          dst[a, b, k] ==
            if (dy <= a < dy + i && dx <= b < dx + nx) || (a == dy + i && dx <= b < dx + j)
            then src[sy + (a - dy), sx + (b - dx), k] else old(dst[a, b, k])
      {
        var k := 0;
        while k < dst.Length2
          invariant 0 <= k <= dst.Length2
          invariant forall a, b, l :: 0 <= a < dst.Length0 && 0 <= b < dst.Length1 && 0 <= l < dst.Length2 ==>
            dst[a, b, l] ==
              if (dy <= a < dy + i && dx <= b < dx + nx) || (a == dy + i && dx <= b < dx + j) || (a == dy + i && b == dx + j && l < k)
              then src[sy + (a - dy), sx + (b - dx), l] else old(dst[a, b, l])
        {
          dst[dy + i, dx + j, k] := src[sy + i, sx + j, k];
          k := k + 1;
        }
        j := j + 1;
      }
      i := i + 1;
    }
  }

  /**
   * resize_image_with_crop_or_pad(img, (targetWidth, targetHeight)). A
   * 2-D image is handled through its channel axis of length 1 and comes
   * back 2-D. The input is not modified.
   */
  method ResizeImageWithCropOrPad(img: Image, targetWidth: int, targetHeight: int) returns (r: Image)
    requires img.Valid() && (img.rank == 2 || img.rank == 3)
    requires targetWidth >= 0 && targetHeight >= 0
    ensures fresh(r.data) && r.Valid() && r.rank == img.rank
    ensures r.data.Length0 == targetHeight && r.data.Length1 == targetWidth && r.data.Length2 == img.data.Length2
    ensures Contents(r.data) ==
      Resized(Contents(img.data), img.data.Length0, img.data.Length1, img.data.Length2, targetHeight, targetWidth)
  {
    var th, tw := targetHeight, targetWidth;
    var h, w, depth := img.data.Length0, img.data.Length1, img.data.Length2;
    var canvas := new int[th, tw, depth]((_, _, _) => 0);
    // the height slices (lines 34-43) and the width slices (lines 44-53)
    var (dstH, srcH) := WrittenSpans(h, th);
    var (dstW, srcW) := WrittenSpans(w, tw);
    // numpy clips every slice bound to its axis; the windows then match in length
    var dH, sH, dW, sW := Clip(dstH, th), Clip(srcH, h), Clip(dstW, tw), Clip(srcW, w);
    WindowsMatch(h, th);
    WindowsMatch(w, tw);
    CopyWindow(img.data, canvas, sH, sW, dH, dW);
    r := Image(canvas, img.rank);
    CanvasIsResized(img.data, canvas, dH, sH, dW, sW);
  }

  /** A zero canvas with the windows of both axes copied in holds the resized block. */
  lemma CanvasIsResized(src: array3<int>, canvas: array3<int>, dH: Span, sH: Span, dW: Span, sW: Span)
    requires canvas.Length2 == src.Length2
    requires (dH, sH) == Windows(src.Length0, canvas.Length0) && (dW, sW) == Windows(src.Length1, canvas.Length1)
    requires forall a, b, k :: 0 <= a < canvas.Length0 && 0 <= b < canvas.Length1 && 0 <= k < canvas.Length2 ==>
      canvas[a, b, k] ==
        if dH.start <= a < dH.end && dW.start <= b < dW.end
        then src[sH.start + (a - dH.start), sW.start + (b - dW.start), k] else 0
    ensures Contents(canvas) == Resized(Contents(src), src.Length0, src.Length1, src.Length2, canvas.Length0, canvas.Length1)
  {
    var g := Contents(src);
    var (h, w, c, th, tw) := (src.Length0, src.Length1, src.Length2, canvas.Length0, canvas.Length1);
    forall i, j, k | 0 <= i < th && 0 <= j < tw && 0 <= k < c
      ensures Contents(canvas)[i][j][k] == Resized(g, h, w, c, th, tw)[i][j][k]
    {
      ResizedByWindows(g, h, w, c, th, tw, i, j, k);
    }
    GridExtensionality(Contents(canvas), Resized(g, h, w, c, th, tw), th, tw, c);
  }
}
