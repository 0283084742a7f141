/** Pixel grids, the arrays the helpers receive, and the errors they raise. */
module Images {

  datatype Option<+T> = None | Some(value: T)

  /** Why a helper call raises instead of returning. */
  datatype Error =
    | IndexOutOfRange   // numpy IndexError: a shape entry or a channel index past the array's rank or extent
    | InvertedBox       // imcrop: the clamped box has x1 > x2 or y1 > y2
    | UnsupportedRank   // imcrop, mergeedge: the image is neither 2-D nor 3-D
    | SizeMismatch      // mergeedge: image and edge map differ in height or width
    | EdgeNotGrayscale  // mergeedge: the edge map is not 2-D
    | BadSelector       // imextremum: the selector is neither "max" nor "min"
    | EmptyReduction    // numpy refuses max/min of an array with no samples
    | TooFewChannels    // mergeedge, corrected: a 3-D image with fewer than three channels

  datatype Result<+T> = Success(value: T) | Failure(error: Error)

  /** Samples indexed [row][column][channel]. */
  type Grid = seq<seq<seq<int>>>

  function Min(a: int, b: int): int { if a <= b then a else b }
  function Max(a: int, b: int): int { if a >= b then a else b }

  /** g is a complete h x w x c block. */
  predicate IsShape(g: Grid, h: nat, w: nat, c: nat)
  {
    && |g| == h
    && (forall i :: 0 <= i < h ==> |g[i]| == w)
    && (forall i, j :: 0 <= i < h && 0 <= j < w ==> |g[i][j]| == c)
  }

  /**
   * A numpy array of the given rank. A 2-D array is held with a channel
   * axis of length 1. For rank 1 only data.Length0 is meaningful (its one
   * axis); for rank 4 and up only the first two axes are represented,
   * which is all the helpers look at before they reject such an array.
   */
  datatype Image = Image(data: array3<int>, rank: nat)
  {
    predicate Valid() { rank == 2 ==> data.Length2 == 1 }
  }

  /** The samples of an array as a value. */
  function Contents(a: array3<int>): (g: Grid)
    reads a
    ensures IsShape(g, a.Length0, a.Length1, a.Length2)
    ensures forall i, j, k :: 0 <= i < a.Length0 && 0 <= j < a.Length1 && 0 <= k < a.Length2 ==> g[i][j][k] == a[i, j, k]
  {
    seq(a.Length0, i requires 0 <= i < a.Length0 reads a =>
      seq(a.Length1, j requires 0 <= j < a.Length1 reads a =>
        seq(a.Length2, k requires 0 <= k < a.Length2 reads a => a[i, j, k])))
  }

  /** Two blocks of one shape that agree sample by sample are equal. */
  lemma GridExtensionality(g1: Grid, g2: Grid, h: nat, w: nat, c: nat)
    requires IsShape(g1, h, w, c) && IsShape(g2, h, w, c)
    requires forall i, j, k :: 0 <= i < h && 0 <= j < w && 0 <= k < c ==> g1[i][j][k] == g2[i][j][k]
    ensures g1 == g2
  {
    forall i | 0 <= i < h
      ensures g1[i] == g2[i]
    {
      forall j | 0 <= j < w
        ensures g1[i][j] == g2[i][j]
      {
        assert |g1[i][j]| == |g2[i][j]| == c;
      }
      assert |g1[i]| == |g2[i]| == w;
    }
  }
}
