/**
  The progress display of frontend/src/components/ProgressBar.tsx (fill width, pending count,
  status line, colour theme, which stat tiles appear) and chunkArray of
  frontend/src/utils/progressDemo.ts, which cuts a list into batches.
 */
module Progress {
  import opened Geometry

  // ---------------------------------------------------------------- progress bar

  /** The fill width in percent: the progress value clamped to [0, 100]. */
  function FillWidth(value: real): (w: real)
    ensures 0.0 <= w <= 100.0
    ensures 0.0 <= value <= 100.0 ==> w == value
    ensures value < 0.0 ==> w == 0.0
    ensures value > 100.0 ==> w == 100.0
  {
    Min(Max(value, 0.0), 100.0)
  }

  /** Clamping twice is clamping once, and a larger value never gives a narrower fill. */
  lemma FillWidthIdempotentAndMonotone(v: real, u: real)
    ensures FillWidth(FillWidth(v)) == FillWidth(v)
    ensures v <= u ==> FillWidth(v) <= FillWidth(u)
  {
  }

  /** The files neither completed, processing nor failed; the subtraction is not clamped at zero. */
  function PendingFiles(total: int, completed: int, processing: int, errors: int): (p: int)
    ensures p + completed + processing + errors == total
  {
    total - completed - processing - errors
  }

  /** The pending count is never negative while the other three counts fit in the total. */
  lemma PendingFilesNonNegative(total: int, completed: int, processing: int, errors: int)
    requires completed + processing + errors <= total
    ensures PendingFiles(total, completed, processing, errors) >= 0
  {
  }

  /** Counts that overshoot the total show a negative pending tile: one file both completed and failed. */
  lemma PendingFilesCanGoNegative()
    ensures PendingFiles(1, 1, 0, 1) == -1
  {
  }

  datatype Status = NoFiles | AllDone | Processing | Waiting

  /** The status line, decided in this order: no files, all done, something processing, waiting. */
  function StatusOf(total: int, completed: int, processing: int): (r: Status)
    ensures r == NoFiles <==> total == 0
    ensures r == AllDone <==> total != 0 && completed == total
    ensures r == Processing <==> total != 0 && completed != total && processing > 0
    ensures r == Waiting <==> total != 0 && completed != total && processing <= 0
  {
    if total == 0 then NoFiles
    else if completed == total then AllDone
    else if processing > 0 then Processing
    else Waiting
  }

  /** Counts that are non-negative and fit in the total. */
  predicate Consistent(total: int, completed: int, processing: int, errors: int)
  {
    0 <= completed && 0 <= processing && 0 <= errors && completed + processing + errors <= total
  }

  /**
    With consistent counts the status line agrees with the tiles: "all done" leaves nothing
    processing, failed or pending, and "waiting" means some file is pending or failed.
   */
  lemma StatusAgreesWithCounts(total: int, completed: int, processing: int, errors: int)
    requires Consistent(total, completed, processing, errors)
    ensures StatusOf(total, completed, processing) == AllDone ==>
      processing == 0 && errors == 0 && PendingFiles(total, completed, processing, errors) == 0
    ensures StatusOf(total, completed, processing) == Waiting ==>
      processing == 0 && PendingFiles(total, completed, processing, errors) + errors > 0
    ensures StatusOf(total, completed, processing) == NoFiles ==>
      completed == 0 && processing == 0 && errors == 0
  {
  }

  datatype Theme = DefaultTheme | SuccessTheme | WarningTheme | ErrorTheme
  datatype Colour = Blue | Green | Yellow | Red

  /** The colour of the bar's track and fill classes for a theme; the default theme is blue. */
  function ThemeColour(t: Theme): (c: Colour)
    ensures c == Blue <==> t == DefaultTheme
  {
    match t
    case SuccessTheme => Green
    case WarningTheme => Yellow
    case ErrorTheme => Red
    case DefaultTheme => Blue
  }

  /** Different themes give different colours, so the theme can be read back from the bar. */
  lemma ThemeColourInjective(t: Theme, u: Theme)
    ensures ThemeColour(t) == ThemeColour(u) <==> t == u
  {
  }

  datatype Tile = TotalTile | CompletedTile | ProcessingTile | ErrorTile | PendingTile

  /** The stat tiles shown, in order; processing and error appear only for positive counts. */
  function Tiles(showDetails: bool, processing: int, errors: int): (r: seq<Tile>)
    ensures !showDetails ==> r == []
    ensures showDetails ==> |r| >= 3 && r[0] == TotalTile && r[1] == CompletedTile && r[|r| - 1] == PendingTile
    ensures ProcessingTile in r <==> showDetails && processing > 0
    ensures ErrorTile in r <==> showDetails && errors > 0
    ensures forall i, j :: 0 <= i < j < |r| ==> r[i] != r[j]
  {
    if !showDetails then []
    else
      [TotalTile, CompletedTile]
      + (if processing > 0 then [ProcessingTile] else [])
      + (if errors > 0 then [ErrorTile] else [])
      + [PendingTile]
  }

  // ---------------------------------------------------------------- batches

  /** The batches laid end to end. */
  function Flatten<T>(chunks: seq<seq<T>>): seq<T>
  {
    if |chunks| == 0 then [] else Flatten(chunks[..|chunks| - 1]) + chunks[|chunks| - 1]
  }

  lemma FlattenAppend<T>(chunks: seq<seq<T>>, c: seq<T>)
    ensures Flatten(chunks + [c]) == Flatten(chunks) + c
  {
    assert (chunks + [c])[..|chunks|] == chunks;
  }

  /** What the batches cut so far satisfy once the loop index has reached i. */
  ghost predicate Batched<T>(a: seq<T>, size: int, chunks: seq<seq<T>>, i: int)
  {
    && 0 <= i && i == |chunks| * size
    && Flatten(chunks) == a[..if i <= |a| then i else |a|]
    && (forall j :: 0 <= j < |chunks| ==> 0 < |chunks[j]| <= size)
    && (forall j :: 0 <= j < |chunks| - 1 ==> |chunks[j]| == size)
    && (i <= |a| ==> forall j :: 0 <= j < |chunks| ==> |chunks[j]| == size)
    && (|chunks| > 0 ==> i - size < |a|)
  }

  /** One more slice a[i : i + size] keeps the batches in order. */
  lemma BatchStep<T>(a: seq<T>, size: int, chunks: seq<seq<T>>, i: int)
    requires size >= 1 && i < |a| && Batched(a, size, chunks, i)
    ensures var hi := if i + size <= |a| then i + size else |a|;
      Batched(a, size, chunks + [a[i..hi]], i + size)
  {
    var hi := if i + size <= |a| then i + size else |a|;
    FlattenAppend(chunks, a[i..hi]);
    assert a[..i] + a[i..hi] == a[..hi];
  }

  /**
    chunkArray: consecutive slices array.slice(i, i + size) for i = 0, size, 2 size, ... below
    the length. A size below 1 never advances the loop, so it is excluded.
   */
  method ChunkArray<T>(a: seq<T>, size: int) returns (chunks: seq<seq<T>>)
    requires size >= 1
    ensures Flatten(chunks) == a
    ensures forall j :: 0 <= j < |chunks| ==> 0 < |chunks[j]| <= size
    ensures forall j :: 0 <= j < |chunks| - 1 ==> |chunks[j]| == size
    ensures |chunks| == (|a| + size - 1) / size
  {
    chunks := [];
    var i := 0;
    while i < |a|
      invariant Batched(a, size, chunks, i)
    {
      var hi := if i + size <= |a| then i + size else |a|;
      BatchStep(a, size, chunks, i);
      chunks := chunks + [a[i..hi]];
      i := i + size;
    }
    CeilDivIs(|a|, size, |chunks|);
  }

  /** k is the ceiling of n / d when k batches of d hold n items and k - 1 batches do not. */
  lemma CeilDivIs(n: nat, d: int, k: nat)
    requires d >= 1 && n <= k * d && (k == 0 || (k - 1) * d < n)
    ensures (n + d - 1) / d == k
  {
    var m := n + d - 1;
    if k > 0 {
      assert (k - 1) * d == k * d - d;
    }
    DivIs(m, d, k);
  }

  /** Integer division is the unique quotient. */
  lemma DivIs(m: int, d: int, k: int)
    requires d >= 1 && k * d <= m < k * d + d
    ensures m / d == k
  {
    var q := m / d;
    assert q * d <= m < q * d + d;
    if q < k {
      assert (q + 1) * d == q * d + d;
      MulMono(q + 1, k, d);
    } else if q > k {
      assert (k + 1) * d == k * d + d;
      MulMono(k + 1, q, d);
    }
  }

  lemma MulMono(a: int, b: int, d: int)
    requires a <= b && d >= 0
    ensures a * d <= b * d
  {
    assert b * d - a * d == (b - a) * d;
  }
}
