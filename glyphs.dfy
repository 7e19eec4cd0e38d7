/** The falling-glyph columns shared by the two Matrix effects
    (src/components/atoms/ParticleEffects.tsx, MatrixRain, and
    src/components/atoms/MatrixBackground.tsx): the charset, the choice of
    a glyph from a random draw, and the one-row shift of a column. */
module Glyphs {

  /** Katakana, then digits, then upper-case Latin letters. */
  const Chars: string :=
    "アイウエオカキクケコサシスセソタチツテトナニヌネノハヒフヘホマミムメモヤユヨラリルレロワヲン0123456789ABCDEFGHIJKLMNOPQRSTUVWXYZ"

  /** A draw of Math.random(), in [0, 1). */
  predicate IsDraw(r: real) {
    0.0 <= r < 1.0
  }

  /** chars[Math.floor(r * chars.length)]. */
  function PickChar(r: real): (c: char)
    requires IsDraw(r)
    ensures c in Chars
  {
    var n := |Chars| as real;
    var k := (r * n).Floor;
    assert 0.0 <= r * n < n;
    Chars[k]
  }

  /** [c, ...column.slice(0, -1)]: the new glyph on top, the bottom one
      dropped. */
  function ShiftIn(column: string, c: char): (r: string)
    ensures |column| >= 1 ==> |r| == |column|
    ensures |column| == 0 ==> r == [c]
    ensures r[0] == c
    ensures forall k :: 1 <= k < |r| ==> r[k] == column[k - 1]
  {
    if column == [] then [c] else [c] + column[..|column| - 1]
  }

  /** Every glyph comes from the charset, and a shift keeps it so. */
  predicate FromCharset(column: string) {
    forall k :: 0 <= k < |column| ==> column[k] in Chars
  }

  lemma ShiftKeepsCharset(column: string, r: real)
    requires IsDraw(r) && FromCharset(column)
    ensures FromCharset(ShiftIn(column, PickChar(r)))
  {
  }

  /** A run of draws, one per glyph. */
  predicate AllDraws(draws: seq<real>) {
    forall k :: 0 <= k < |draws| ==> IsDraw(draws[k])
  }

  /** A column built from the draws, one glyph per draw, in order. */
  function NewColumn(draws: seq<real>): (col: string)
    requires AllDraws(draws)
    ensures |col| == |draws| && FromCharset(col)
  {
    seq(|draws|, k requires 0 <= k < |draws| => PickChar(draws[k]))
  }
}
