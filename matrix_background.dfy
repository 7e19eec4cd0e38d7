/** The MatrixBackground effect (src/components/atoms/MatrixBackground.tsx):
    a grid of 20-pixel cells whose glyph columns shift down one row every
    `speed` milliseconds, with per-row positions and speeds that the tick
    keeps. Random draws are parameters. */
module MatrixBackground {
  import opened Glyphs

  const CellSize: nat := 20
  const DefaultSpeed: nat := 50
  const DefaultOpacity: real := 0.1

  datatype Column = Column(chars: string, positions: seq<int>, speeds: seq<real>)

  /** Math.floor(innerWidth / 20) and Math.floor(innerHeight / 20). */
  function Cells(pixels: nat): (n: nat)
    ensures n * CellSize <= pixels < (n + 1) * CellSize
  {
    pixels / CellSize
  }

  /** A new column: rows glyphs, positions 0, 1, …, and speeds
      Math.random() * 0.5 + 0.1. */
  function NewGridColumn(charDraws: seq<real>, speedDraws: seq<real>): (col: Column)
    requires |charDraws| == |speedDraws| && AllDraws(charDraws) && AllDraws(speedDraws)
    ensures |col.chars| == |col.positions| == |col.speeds| == |charDraws|
    ensures FromCharset(col.chars)
    ensures forall i :: 0 <= i < |col.positions| ==> col.positions[i] == i
    ensures forall i :: 0 <= i < |col.speeds| ==> 0.1 <= col.speeds[i] < 0.6
  {
    Column(NewColumn(charDraws),
           seq(|charDraws|, i => i),
           seq(|speedDraws|, i requires 0 <= i < |speedDraws| => speedDraws[i] * 0.5 + 0.1))
  }

  /** The opacity of row `row`: 1 on top, then max(0.1, 1 - 0.1 * row). */
  function RowOpacity(row: nat): (o: real)
    ensures 0.1 <= o <= 1.0
    ensures row == 0 ==> o == 1.0
    ensures 0 < row < 9 ==> o == 1.0 - 0.1 * (row as real)
    ensures row >= 9 ==> o == 0.1
  {
    if row == 0 then 1.0
    else if 1.0 - (row as real) * 0.1 > 0.1 then 1.0 - (row as real) * 0.1 else 0.1
  }

  /** The columns state of one mounted background. */
  class Background {
    var columns: seq<Column>

    /** The mount effect for a window of the given size. */
    constructor (innerWidth: nat, innerHeight: nat, charDraws: seq<seq<real>>, speedDraws: seq<seq<real>>)
      requires |charDraws| == |speedDraws| == Cells(innerWidth)
      requires forall c :: 0 <= c < |charDraws| ==>
                 |charDraws[c]| == |speedDraws[c]| == Cells(innerHeight)
                 && AllDraws(charDraws[c]) && AllDraws(speedDraws[c])
      ensures |columns| == Cells(innerWidth)
      ensures forall c :: 0 <= c < |columns| ==> columns[c] == NewGridColumn(charDraws[c], speedDraws[c])
      ensures forall c :: 0 <= c < |columns| ==> |columns[c].chars| == Cells(innerHeight)
    {
      columns := seq(|charDraws|, c requires 0 <= c < |charDraws|
                       && |charDraws[c]| == |speedDraws[c]| && AllDraws(charDraws[c]) && AllDraws(speedDraws[c])
                       => NewGridColumn(charDraws[c], speedDraws[c]));
    }

    /** One run of the interval: each column's glyphs shift down one row
        under a new top glyph; positions and speeds stay as they are. */
    method Tick(draws: seq<real>)
      requires |draws| == |columns| && AllDraws(draws)
      modifies this
      ensures |columns| == |old(columns)|
      ensures forall c :: 0 <= c < |columns| ==>
                columns[c].chars == ShiftIn(old(columns)[c].chars, PickChar(draws[c]))
                && columns[c].positions == old(columns)[c].positions
                && columns[c].speeds == old(columns)[c].speeds
    {
      var prev := columns;
      columns := seq(|prev|, c requires 0 <= c < |prev| =>
                       prev[c].(chars := ShiftIn(prev[c].chars, PickChar(draws[c]))));
    }
  }

  /** A tick keeps the length of every column with at least one row and
      its glyphs in the charset; a column of a window under 20 pixels tall
      has no rows and grows to one glyph. */
  lemma TickLengths(col: Column, r: real)
    requires IsDraw(r) && FromCharset(col.chars)
    ensures |col.chars| >= 1 ==> |ShiftIn(col.chars, PickChar(r))| == |col.chars|
    ensures |col.chars| == 0 ==> |ShiftIn(col.chars, PickChar(r))| == 1
    ensures FromCharset(ShiftIn(col.chars, PickChar(r)))
  {
    ShiftKeepsCharset(col.chars, r);
  }
}
