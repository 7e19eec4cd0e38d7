/** The ProgressBar and Skeleton of src/components/atoms/LoadingSpinner.tsx:
    the clamped bar width, the unclamped percentage label and the per-row
    heights of the skeleton placeholder. JavaScript numbers are reals. */
module LoadingSpinner {
  import opened Wrappers

  /** Math.min(100, Math.max(0, progress)): the bar's width in percent. */
  function BarWidth(progress: real): (w: real)
    ensures 0.0 <= w <= 100.0
    ensures 0.0 <= progress <= 100.0 ==> w == progress
    ensures progress < 0.0 ==> w == 0.0
    ensures progress > 100.0 ==> w == 100.0
  {
    var low := if 0.0 > progress then 0.0 else progress;
    if 100.0 < low then 100.0 else low
  }

  /** The clamp is monotone and leaves a width unchanged. */
  lemma BarWidthFacts(a: real, b: real)
    ensures a <= b ==> BarWidth(a) <= BarWidth(b)
    ensures BarWidth(BarWidth(a)) == BarWidth(a)
  {
  }

  /** Math.round: the nearest integer, halves rounding up. */
  function Round(x: real): (r: int)
    ensures r as real - 0.5 <= x < r as real + 0.5
  {
    (x + 0.5).Floor
  }

  /** An integer rounds to itself, and rounding is monotone. */
  lemma RoundFacts(n: int, x: real, y: real)
    ensures Round(n as real) == n
    ensures x <= y ==> Round(x) <= Round(y)
  {
  }

  /** The percentage label: shown only when showPercentage is set, and the
      rounded progress itself, not the clamped width. */
  function PercentLabel(progress: real, showPercentage: bool): (shown: Option<int>)
    ensures shown.Some? <==> showPercentage
    ensures shown.Some? ==> shown.value as real - 0.5 <= progress < shown.value as real + 0.5
  {
    if showPercentage then Some(Round(progress)) else None
  }

  /** Within [0, 100] the label lies within half a point of the bar; outside
      it, label and bar disagree: a progress of 150 shows a full bar labelled
      150, and one of -20 an empty bar labelled -20. */
  lemma LabelAgainstBar(progress: real)
    ensures 0.0 <= progress <= 100.0 ==>
              var l := PercentLabel(progress, true).value as real;
              l - 0.5 <= BarWidth(progress) < l + 0.5
    ensures progress >= 100.5 ==> PercentLabel(progress, true).value as real > BarWidth(progress)
    ensures progress < -0.5 ==> PercentLabel(progress, true).value as real < BarWidth(progress)
    ensures BarWidth(150.0) == 100.0 && PercentLabel(150.0, true) == Some(150)
    ensures BarWidth(-20.0) == 0.0 && PercentLabel(-20.0, true) == Some(-20)
  {
    RoundFacts(150, 150.0, 150.0);
    RoundFacts(-20, -20.0, -20.0);
  }

  /** One placeholder row of a Skeleton. */
  datatype Row = Row(width: string, height: string)

  /** The height of every row but the last. */
  const LineHeight := "16px"

  /** Array.from({ length: lines }) as a row count: a negative count gives
      no rows. */
  function RowCount(lines: int): (n: nat)
    ensures lines <= 0 ==> n == 0
    ensures lines > 0 ==> n == lines
  {
    if lines < 0 then 0 else lines
  }

  /** The rows of a Skeleton: all of the given width; the row whose index
      is lines - 1 has the given height, every other one 16px. */
  function SkeletonRows(width: string, height: string, lines: int): (rows: seq<Row>)
    ensures |rows| == RowCount(lines)
    ensures forall k :: 0 <= k < |rows| ==> rows[k].width == width
  {
    seq(RowCount(lines), k requires 0 <= k < RowCount(lines) =>
      Row(width, if k == lines - 1 then height else LineHeight))
  }

  /** For a positive count the last row alone has the given height: the
      rows are lines - 1 rows of 16px and then one of that height. No rows
      are drawn for a count of zero or less, and the default single line is
      one row of the given height. */
  lemma SkeletonShape(width: string, height: string, lines: int)
    ensures lines > 0 ==>
              SkeletonRows(width, height, lines) ==
              seq(lines - 1, _ => Row(width, LineHeight)) + [Row(width, height)]
    ensures lines <= 0 ==> SkeletonRows(width, height, lines) == []
    ensures SkeletonRows(width, height, 1) == [Row(width, height)]
  {
    if lines > 0 {
      var rows := SkeletonRows(width, height, lines);
      var expected := seq(lines - 1, _ => Row(width, LineHeight)) + [Row(width, height)];
      assert |rows| == |expected|;
      forall k | 0 <= k < |rows| ensures rows[k] == expected[k] {
        if k < lines - 1 {
          assert expected[k] == Row(width, LineHeight);
        }
      }
    }
    var one := SkeletonRows(width, height, 1);
    assert one[0] == Row(width, height);
  }
}
