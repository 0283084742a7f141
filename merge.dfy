/** mergeedge: add an edge map onto the colour channels of an image, capped at 255. */
module Merge {
  import opened Images

  /**
   * The validations, in the order the source evaluates them: the height
   * and width of both arrays are looked up (an array with too few axes
   * raises there), compared, then the edge map must be 2-D and the image
   * 2-D or 3-D. None when the call gets past all of them.
   */
  function MergeCheck(img: Image, edge: Image): (r: Option<Error>)
    ensures r == None <==>
      && edge.rank == 2 && (img.rank == 2 || img.rank == 3)
      && img.data.Length0 == edge.data.Length0 && img.data.Length1 == edge.data.Length1
    ensures img.rank >= 2 && edge.rank >= 2 ==>
      ((img.data.Length0 != edge.data.Length0 || img.data.Length1 != edge.data.Length1) <==> r == Some(SizeMismatch))
  {
    if img.rank == 0 || edge.rank == 0 then Some(IndexOutOfRange)
    else if img.data.Length0 != edge.data.Length0 then Some(SizeMismatch)
    else if img.rank == 1 || edge.rank == 1 then Some(IndexOutOfRange)
    else if img.data.Length1 != edge.data.Length1 then Some(SizeMismatch)
    else if edge.rank != 2 then Some(EdgeNotGrayscale)
    else if img.rank != 2 && img.rank != 3 then Some(UnsupportedRank)
    else None
  }

  /** Channels 0 to 2 become min(sample + edge, 255); channels from 3 on keep their samples. */
  function MergeGrid(g: Grid, e: Grid, h: nat, w: nat, c: nat): (r: Grid)
    requires IsShape(g, h, w, c) && IsShape(e, h, w, 1)
    ensures IsShape(r, h, w, c)
    ensures forall i, j, k :: 0 <= i < h && 0 <= j < w && 0 <= k < c ==>
      r[i][j][k] == if k < 3 then Min(g[i][j][k] + e[i][j][0], 255) else g[i][j][k]
  {
    seq(h, i requires 0 <= i < h =>
      seq(w, j requires 0 <= j < w =>
        seq(c, k requires 0 <= k < c => if k < 3 then Min(g[i][j][k] + e[i][j][0], 255) else g[i][j][k])))
  }

  /** Every sample of g lies in [lo, hi]. */
  ghost predicate InRange(g: Grid, h: nat, w: nat, c: nat, lo: int, hi: int)
    requires IsShape(g, h, w, c)
  {
    forall i, j, k :: 0 <= i < h && 0 <= j < w && 0 <= k < c ==> lo <= g[i][j][k] <= hi
  }

  /** Merging 8-bit images gives an 8-bit image, no darker than the original anywhere. */
  lemma MergeStaysInByteRange(g: Grid, e: Grid, h: nat, w: nat, c: nat)
    requires IsShape(g, h, w, c) && IsShape(e, h, w, 1)
    requires InRange(g, h, w, c, 0, 255) && InRange(e, h, w, 1, 0, 255)
    ensures InRange(MergeGrid(g, e, h, w, c), h, w, c, 0, 255)
    ensures forall i, j, k :: 0 <= i < h && 0 <= j < w && 0 <= k < c ==> g[i][j][k] <= MergeGrid(g, e, h, w, c)[i][j][k]
  {
    var r := MergeGrid(g, e, h, w, c);
    forall i, j, k | 0 <= i < h && 0 <= j < w && 0 <= k < c
      ensures 0 <= r[i][j][k] <= 255 && g[i][j][k] <= r[i][j][k]
    {
      assert 0 <= e[i][j][0] <= 255;
    }
  }

  /** A blank edge map changes nothing in an 8-bit image. */
  lemma MergeBlankEdge(g: Grid, e: Grid, h: nat, w: nat, c: nat)
    requires IsShape(g, h, w, c) && IsShape(e, h, w, 1)
    requires InRange(g, h, w, c, 0, 255) && InRange(e, h, w, 1, 0, 0)
    ensures MergeGrid(g, e, h, w, c) == g
  {
    forall i, j, k | 0 <= i < h && 0 <= j < w && 0 <= k < c
      ensures MergeGrid(g, e, h, w, c)[i][j][k] == g[i][j][k]
    {
      assert e[i][j][0] == 0;
    }
    GridExtensionality(MergeGrid(g, e, h, w, c), g, h, w, c);
  }

  /** A full edge (255) saturates channels 0 to 2 of an image with non-negative samples. */
  lemma MergeFullEdge(g: Grid, e: Grid, h: nat, w: nat, c: nat, i: nat, j: nat, k: nat)
    requires IsShape(g, h, w, c) && IsShape(e, h, w, 1)
    requires InRange(g, h, w, c, 0, 255)
    requires i < h && j < w && k < c && k < 3 && e[i][j][0] == 255
    ensures MergeGrid(g, e, h, w, c)[i][j][k] == 255
  {
    assert 0 <= g[i][j][k];
  }

  /**
   * img[:, :, ch] = np.minimum(img[:, :, ch] + edge, 255). The edge map may
   * share its storage with the image only for channel 0; each cell of the
   * edge is read before that cell is written.
   */
  method AddEdgePlane(a: array3<int>, e: array3<int>, ch: nat)
    requires a.Length0 == e.Length0 && a.Length1 == e.Length1 && e.Length2 == 1
    requires ch < a.Length2 && (a == e ==> ch == 0)
    modifies a
    ensures forall i, j, k :: 0 <= i < a.Length0 && 0 <= j < a.Length1 && 0 <= k < a.Length2 ==>
      a[i, j, k] == if k == ch then Min(old(a[i, j, k]) + old(e[i, j, 0]), 255) else old(a[i, j, k])
  {
    var i := 0;
    while i < a.Length0
      invariant 0 <= i <= a.Length0
      invariant forall p, q, k :: 0 <= p < a.Length0 && 0 <= q < a.Length1 && 0 <= k < a.Length2 ==>
        a[p, q, k] == if k == ch && p < i then Min(old(a[p, q, k]) + old(e[p, q, 0]), 255) else old(a[p, q, k])
      invariant forall p, q :: i <= p < e.Length0 && 0 <= q < e.Length1 ==> e[p, q, 0] == old(e[p, q, 0])
    {
      var j := 0;
      while j < a.Length1
        invariant 0 <= j <= a.Length1
        invariant forall p, q, k :: 0 <= p < a.Length0 && 0 <= q < a.Length1 && 0 <= k < a.Length2 ==>
          a[p, q, k] ==
            if k == ch && (p < i || (p == i && q < j)) then Min(old(a[p, q, k]) + old(e[p, q, 0]), 255) else old(a[p, q, k])
        invariant forall p, q :: 0 <= p < e.Length0 && 0 <= q < e.Length1 && (p > i || (p == i && q >= j)) ==>
          e[p, q, 0] == old(e[p, q, 0])
      {
        a[i, j, ch] := Min(a[i, j, ch] + e[i, j, 0], 255);
        j := j + 1;
      }
      i := i + 1;
    }
  }

  /** After channels 0, 1 and 2 took the edge in turn, the image holds the merged block. */
  lemma ThreePlanesMerged(a: array3<int>, g: Grid, e: Grid)
    requires a.Length2 >= 3 && IsShape(g, a.Length0, a.Length1, a.Length2) && IsShape(e, a.Length0, a.Length1, 1)
    requires forall i, j, k :: 0 <= i < a.Length0 && 0 <= j < a.Length1 && 0 <= k < a.Length2 ==>
      a[i, j, k] == if k < 3 then Min(g[i][j][k] + e[i][j][0], 255) else g[i][j][k]
    ensures Contents(a) == MergeGrid(g, e, a.Length0, a.Length1, a.Length2)
  {
    GridExtensionality(Contents(a), MergeGrid(g, e, a.Length0, a.Length1, a.Length2), a.Length0, a.Length1, a.Length2);
  }

  /** The 2-D branch: np.minimum(img + edge, 255) as a new array; the image is left alone. */
  method MergeFlat(img: array3<int>, edge: array3<int>) returns (out: array3<int>)
    requires img.Length2 == 1 && edge.Length2 == 1
    requires img.Length0 == edge.Length0 && img.Length1 == edge.Length1
    ensures fresh(out)
    ensures out.Length0 == img.Length0 && out.Length1 == img.Length1 && out.Length2 == 1
    ensures Contents(out) == MergeGrid(Contents(img), Contents(edge), img.Length0, img.Length1, 1)
  {
    var m := MergeGrid(Contents(img), Contents(edge), img.Length0, img.Length1, 1);
    out := new int[img.Length0, img.Length1, 1]((i, j, k) =>
      if 0 <= i < |m| && 0 <= j < |m[i]| && 0 <= k < |m[i][j]| then m[i][j][k] else 0);
    GridExtensionality(Contents(out), m, img.Length0, img.Length1, 1);
  }

  /**
   * mergeedge(img, edge), with the channel count checked before anything
   * is written: a failed call leaves the image as it was. A 3-D image is
   * updated in place and returned; a 2-D image gives a new array.
   */
  method MergeEdge(img: Image, edge: Image) returns (r: Result<Image>)
    requires img.Valid() && edge.Valid()
    modifies img.data
    ensures MergeCheck(img, edge).Some? ==> r == Failure(MergeCheck(img, edge).value) && unchanged(img.data)
    ensures MergeCheck(img, edge) == None && img.rank == 3 && img.data.Length2 < 3 ==>
      r == Failure(TooFewChannels) && unchanged(img.data)
    ensures MergeCheck(img, edge) == None && img.rank == 3 && img.data.Length2 >= 3 ==>
      && r == Success(img)
      && Contents(img.data) == MergeGrid(old(Contents(img.data)), old(Contents(edge.data)), img.data.Length0, img.data.Length1, img.data.Length2)
    ensures MergeCheck(img, edge) == None && img.rank == 2 ==>
      && r.Success? && r.value.rank == 2 && fresh(r.value.data) && unchanged(img.data)
      && r.value.data.Length0 == img.data.Length0 && r.value.data.Length1 == img.data.Length1 && r.value.data.Length2 == 1
      && Contents(r.value.data) == MergeGrid(Contents(img.data), Contents(edge.data), img.data.Length0, img.data.Length1, 1)
  {
    var failure := MergeCheck(img, edge);
    if failure.Some? {
      return Failure(failure.value);
    }
    if img.rank == 3 {
      if img.data.Length2 < 3 {
        return Failure(TooFewChannels);
      }
      ghost var g, e := Contents(img.data), Contents(edge.data);
      AddEdgePlane(img.data, edge.data, 0);
      AddEdgePlane(img.data, edge.data, 1);
      AddEdgePlane(img.data, edge.data, 2);
      ThreePlanesMerged(img.data, g, e);
      r := Success(img);
    } else {
      var out := MergeFlat(img.data, edge.data);
      r := Success(Image(out, 2));
    }
  }

  /**
   * mergeedge(img, edge) as the source has it. On a 3-D image with fewer
   * than three channels, lines 170 to 172 update the channels that exist,
   * one after the other, and the first missing one raises: the call fails
   * after the image was modified.
   */
  method MergeEdgeAsWritten(img: Image, edge: Image) returns (r: Result<Image>)
    requires img.Valid() && edge.Valid()
    modifies img.data
    ensures MergeCheck(img, edge).Some? ==> r == Failure(MergeCheck(img, edge).value) && unchanged(img.data)
    ensures MergeCheck(img, edge) == None && img.rank == 3 ==>
      && r == (if img.data.Length2 < 3 then Failure(IndexOutOfRange) else Success(img))
      && Contents(img.data) == MergeGrid(old(Contents(img.data)), old(Contents(edge.data)), img.data.Length0, img.data.Length1, img.data.Length2)
    ensures MergeCheck(img, edge) == None && img.rank == 2 ==>
      && r.Success? && r.value.rank == 2 && fresh(r.value.data) && unchanged(img.data)
      && Contents(r.value.data) == MergeGrid(Contents(img.data), Contents(edge.data), img.data.Length0, img.data.Length1, 1)
  {
    var failure := MergeCheck(img, edge);
    if failure.Some? {
      return Failure(failure.value);
    }
    if img.rank == 3 {
      var h, w, c := img.data.Length0, img.data.Length1, img.data.Length2;
      ghost var g, e := Contents(img.data), Contents(edge.data);
      if c < 1 {
        GridExtensionality(Contents(img.data), MergeGrid(g, e, h, w, c), h, w, c);
        return Failure(IndexOutOfRange);
      }
      AddEdgePlane(img.data, edge.data, 0);
      if c < 2 {
        GridExtensionality(Contents(img.data), MergeGrid(g, e, h, w, c), h, w, c);
        return Failure(IndexOutOfRange);
      }
      AddEdgePlane(img.data, edge.data, 1);
      if c < 3 {
        GridExtensionality(Contents(img.data), MergeGrid(g, e, h, w, c), h, w, c);
        return Failure(IndexOutOfRange);
      }
      AddEdgePlane(img.data, edge.data, 2);
      ThreePlanesMerged(img.data, g, e);
      r := Success(img);
    } else {
      var out := MergeFlat(img.data, edge.data);
      r := Success(Image(out, 2));
    }
  }

  /**
   * The discrepancy: a 1 x 1 image with one channel holding 0 and an edge
   * map holding 1. The call as written reports a failure, yet the merged
   * block it leaves behind differs from the image it was given.
   */
  lemma PartialWriteOnFailure()
    ensures var g, e := [[[0]]], [[[1]]];
      && IsShape(g, 1, 1, 1) && IsShape(e, 1, 1, 1)
      && MergeGrid(g, e, 1, 1, 1) != g
  {
    var g, e := [[[0]]], [[[1]]];
    assert MergeGrid(g, e, 1, 1, 1)[0][0][0] == 1;
  }
}
