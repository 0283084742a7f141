/** imextremum: the largest or smallest sample of an image. */
module Extremum {
  import opened Images

  /** The samples of one row, pixel by pixel, channel by channel. */
  function RowSamples(row: seq<seq<int>>): seq<int>
  {
    if row == [] then [] else row[0] + RowSamples(row[1..])
  }

  /** Every sample of the image in row-major order: what np.max and np.min range over. */
  function Samples(g: Grid): seq<int>
  {
    if g == [] then [] else RowSamples(g[0]) + Samples(g[1..])
  }

  /** x is the value of some sample of g. */
  ghost predicate IsSample(g: Grid, x: int)
  {
    exists i, j, k :: 0 <= i < |g| && 0 <= j < |g[i]| && 0 <= k < |g[i][j]| && g[i][j][k] == x
  }

  lemma {:induction false} RowSampleIn(row: seq<seq<int>>, j: nat, k: nat)
    requires j < |row| && k < |row[j]|
    ensures row[j][k] in RowSamples(row)
  {
    if j == 0 {
      assert row[0][k] in row[0];
    } else {
      RowSampleIn(row[1..], j - 1, k);
      assert row[1..][j - 1] == row[j];
    }
  }

  /** Every sample of the grid is among Samples(g). */
  lemma {:induction false} SampleIn(g: Grid, i: nat, j: nat, k: nat)
    requires i < |g| && j < |g[i]| && k < |g[i][j]|
    ensures g[i][j][k] in Samples(g)
  {
    if i == 0 {
      RowSampleIn(g[0], j, k);
    } else {
      SampleIn(g[1..], i - 1, j, k);
      assert g[1..][i - 1] == g[i];
    }
  }

  lemma {:induction false} RowSampleAt(row: seq<seq<int>>, x: int) returns (j: nat, k: nat)
    requires x in RowSamples(row)
    ensures j < |row| && k < |row[j]| && row[j][k] == x
  {
    if x in row[0] {
      j := 0;
      k :| 0 <= k < |row[0]| && row[0][k] == x;
    } else {
      var j', k' := RowSampleAt(row[1..], x);
      j, k := j' + 1, k';
    }
  }

  /** Everything in Samples(g) is a sample of the grid, at some index. */
  lemma {:induction false} SampleAt(g: Grid, x: int) returns (i: nat, j: nat, k: nat)
    requires x in Samples(g)
    ensures i < |g| && j < |g[i]| && k < |g[i][j]| && g[i][j][k] == x
  {
    if x in RowSamples(g[0]) {
      i := 0;
      j, k := RowSampleAt(g[0], x);
    } else {
      var i', j', k' := SampleAt(g[1..], x);
      i, j, k := i' + 1, j', k';
    }
  }

  /** Samples(g) holds exactly the grid's samples. */
  lemma SamplesAreTheGrid(g: Grid)
    ensures forall i, j, k :: 0 <= i < |g| && 0 <= j < |g[i]| && 0 <= k < |g[i][j]| ==> g[i][j][k] in Samples(g)
    ensures forall x :: x in Samples(g) ==> IsSample(g, x)
  {
    forall i, j, k | 0 <= i < |g| && 0 <= j < |g[i]| && 0 <= k < |g[i][j]|
      ensures g[i][j][k] in Samples(g)
    {
      SampleIn(g, i, j, k);
    }
    forall x | x in Samples(g)
      ensures IsSample(g, x)
    {
      var i, j, k := SampleAt(g, x);
    }
  }

  lemma {:induction false} RowSamplesCount(row: seq<seq<int>>, w: nat, c: nat)
    requires |row| == w && forall j :: 0 <= j < w ==> |row[j]| == c
    ensures |RowSamples(row)| == w * c
  {
    if w > 0 {
      RowSamplesCount(row[1..], w - 1, c);
      assert w * c == (w - 1) * c + c;
    }
  }

  /** An h x w x c image has h * w * c samples, so it has none exactly when one axis is empty. */
  lemma {:induction false} SamplesCount(g: Grid, h: nat, w: nat, c: nat)
    requires IsShape(g, h, w, c)
    ensures |Samples(g)| == h * (w * c)
  {
    if h > 0 {
      RowSamplesCount(g[0], w, c);
      assert IsShape(g[1..], h - 1, w, c);
      SamplesCount(g[1..], h - 1, w, c);
      MulStep(h, w * c);
    }
  }

  lemma MulStep(n: nat, m: nat)
    requires n > 0
    ensures n * m == (n - 1) * m + m
  {
  }

  function SeqMax(s: seq<int>): (m: int)
    requires |s| > 0
    ensures m in s && forall x :: x in s ==> x <= m
  {
    if |s| == 1 then s[0]
    else
      assert s == [s[0]] + s[1..];
      Max(s[0], SeqMax(s[1..]))
  }

  function SeqMin(s: seq<int>): (m: int)
    requires |s| > 0
    ensures m in s && forall x :: x in s ==> m <= x
  {
    if |s| == 1 then s[0]
    else
      assert s == [s[0]] + s[1..];
      Min(s[0], SeqMin(s[1..]))
  }

  /**
   * imextremum(img, type). "max" gives a sample no smaller than any other,
   * "min" one no larger; any other selector is refused before the image is
   * looked at, and an image without samples cannot be reduced.
   */
  function ImExtremum(g: Grid, kind: string): (r: Result<int>)
    ensures kind != "max" && kind != "min" ==> r == Failure(BadSelector)
    ensures kind == "max" || kind == "min" ==> (r.Failure? <==> Samples(g) == [])
    ensures r.Failure? ==> r.error == BadSelector || r.error == EmptyReduction
    ensures kind == "max" && r.Success? ==>
      IsSample(g, r.value) &&
      forall i, j, k :: 0 <= i < |g| && 0 <= j < |g[i]| && 0 <= k < |g[i][j]| ==> g[i][j][k] <= r.value
    ensures kind == "min" && r.Success? ==>
      IsSample(g, r.value) &&
      forall i, j, k :: 0 <= i < |g| && 0 <= j < |g[i]| && 0 <= k < |g[i][j]| ==> r.value <= g[i][j][k]
  {
    SamplesAreTheGrid(g);
    if kind == "max" then
      if Samples(g) == [] then Failure(EmptyReduction) else Success(SeqMax(Samples(g)))
    else if kind == "min" then
      if Samples(g) == [] then Failure(EmptyReduction) else Success(SeqMin(Samples(g)))
    else
      Failure(BadSelector)
  }

  /** On a well-formed image the reduction fails exactly when an axis has length 0. */
  lemma ExtremumOfEmpty(g: Grid, h: nat, w: nat, c: nat, kind: string)
    requires IsShape(g, h, w, c) && (kind == "max" || kind == "min")
    ensures ImExtremum(g, kind).Failure? <==> h == 0 || w == 0 || c == 0
  {
    SamplesCount(g, h, w, c);
    assert h * (w * c) == 0 <==> h == 0 || w == 0 || c == 0 by {
      if h > 0 && w > 0 && c > 0 {
        assert w * c > 0;
      }
    }
  }

  /** The minimum never exceeds the maximum. */
  lemma MinAtMostMax(g: Grid)
    requires ImExtremum(g, "max").Success?
    ensures ImExtremum(g, "min").Success? && ImExtremum(g, "min").value <= ImExtremum(g, "max").value
  {
    var x := ImExtremum(g, "max").value;
    var i, j, k :| 0 <= i < |g| && 0 <= j < |g[i]| && 0 <= k < |g[i][j]| && g[i][j][k] == x;
  }
}
