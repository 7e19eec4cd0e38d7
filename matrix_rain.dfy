/** The MatrixRain effect of src/components/atoms/ParticleEffects.tsx: a
    column of 20 glyphs per 20 pixels of window width that shifts down one
    row on every 100 ms tick. Random draws are parameters. */
module MatrixRain {
  import opened Glyphs

  const ColumnWidth: nat := 20
  const RowsPerColumn: nat := 20

  /** Math.floor(innerWidth / 20) for a whole-pixel width. */
  function ColumnCount(innerWidth: nat): (n: nat)
    ensures n * ColumnWidth <= innerWidth < (n + 1) * ColumnWidth
  {
    innerWidth / ColumnWidth
  }

  /** The opacity of a glyph: 1 on the top row, then
      0.1 + 0.9 * (length - row) / length. */
  function RowOpacity(row: nat, length: nat): real
    requires row < length
  {
    if row == 0 then 1.0 else 0.1 + 0.9 * ((length - row) as real) / (length as real)
  }

  /** Opacity lies in (0.1, 1] and fades strictly from the top row down. */
  lemma RowOpacityFades(row: nat, lower: nat, length: nat)
    requires row < lower < length
    ensures 0.1 < RowOpacity(row, length) <= 1.0
    ensures 0.1 < RowOpacity(lower, length) < RowOpacity(row, length)
  {
    var n := length as real;
    assert 0.9 * ((length - lower) as real) < 0.9 * ((length - row) as real);
    assert 0.9 * ((length - row) as real) <= 0.9 * n;
    assert 0.9 * ((length - row) as real) / n <= 0.9;
    assert 0.9 * ((length - lower) as real) / n < 0.9 * ((length - row) as real) / n;
    if row == 0 {
      assert 0.9 * ((length - lower) as real) / n < 0.9;
    }
  }

  /** The columns state of one mounted effect. */
  class Rain {
    var columns: seq<string>

    /** Every column has 20 glyphs from the charset. */
    predicate Valid()
      reads this
    {
      forall c :: 0 <= c < |columns| ==> |columns[c]| == RowsPerColumn && FromCharset(columns[c])
    }

    /** The mount effect: one column per 20 pixels, each of 20 glyphs
        picked with its own draws. */
    constructor (innerWidth: nat, draws: seq<seq<real>>)
      requires |draws| == ColumnCount(innerWidth)
      requires forall c :: 0 <= c < |draws| ==> |draws[c]| == RowsPerColumn && AllDraws(draws[c])
      ensures Valid()
      ensures |columns| == ColumnCount(innerWidth)
      ensures forall c :: 0 <= c < |columns| ==> columns[c] == NewColumn(draws[c])
    {
      columns := seq(|draws|, c requires 0 <= c < |draws| && AllDraws(draws[c]) => NewColumn(draws[c]));
    }

    /** One tick: every column takes a new glyph on top and drops its last. */
    method Tick(draws: seq<real>)
      requires Valid() && |draws| == |columns| && AllDraws(draws)
      modifies this
      ensures Valid()
      ensures |columns| == |old(columns)|
      ensures forall c :: 0 <= c < |columns| ==>
                columns[c] == ShiftIn(old(columns)[c], PickChar(draws[c]))
    {
      var prev := columns;
      columns := seq(|prev|, c requires 0 <= c < |prev| => ShiftIn(prev[c], PickChar(draws[c])));
      forall c | 0 <= c < |columns| ensures FromCharset(columns[c]) {
        ShiftKeepsCharset(prev[c], draws[c]);
      }
    }
  }
}
