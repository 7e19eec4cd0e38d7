/** The star field of src/components/molecules/ScrollConstellation.tsx: the
    twelve stars the mount effect places on the window, and the rule that
    nothing is drawn before they exist. The window size is a parameter;
    None stands for a render without a window, where the effect returns
    before setting any star. */
module ScrollConstellation {
  import opened Wrappers
  import opened Text

  const StarCount: nat := 12

  /** A star; a coordinate is None where JavaScript's % by a zero window
      side yields NaN. */
  datatype Star = Star(x: Option<nat>, y: Option<nat>, id: string)

  /** a % b on non-negative numbers, NaN (None) for a zero divisor. */
  function JsMod(a: nat, b: nat): (r: Option<nat>)
    ensures b == 0 <==> r.None?
    ensures r.Some? ==> r.value < b && r.value == a - (a / b) * b
  {
    if b == 0 then None else Some(a % b)
  }

  function StarId(i: nat): string {
    "star-" + NatToString(i)
  }

  /** Different indices give different ids. */
  lemma {:induction false} StarIdInjective(i: nat, j: nat)
    requires StarId(i) == StarId(j)
    ensures i == j
  {
    assert StarId(i)[5..] == NatToString(i);
    assert StarId(j)[5..] == NatToString(j);
    NatToStringInjective(i, j);
  }

  /** The stars generated for a window of the given size. */
  function GenerateStars(width: nat, height: nat): (stars: seq<Star>)
    ensures |stars| == StarCount
    ensures forall i :: 0 <= i < |stars| ==>
              stars[i].x == JsMod(i * 100 + 50, width) &&
              stars[i].y == JsMod(i * 150 + 100, height) &&
              stars[i].id == StarId(i)
  {
    seq(StarCount, i requires 0 <= i < StarCount =>
      Star(JsMod(i * 100 + 50, width), JsMod(i * 150 + 100, height), StarId(i)))
  }

  /** On a window of positive size every star lies on it, and the stars'
      ids are pairwise distinct, as React's keys need. */
  lemma StarsOnWindow(width: nat, height: nat)
    ensures var stars := GenerateStars(width, height);
            && (width > 0 && height > 0 ==> forall i :: 0 <= i < |stars| ==>
                  stars[i].x.Some? && stars[i].x.value < width &&
                  stars[i].y.Some? && stars[i].y.value < height)
            && (forall i, j :: 0 <= i < j < |stars| ==> stars[i].id != stars[j].id)
  {
    var stars := GenerateStars(width, height);
    forall i, j | 0 <= i < j < |stars| ensures stars[i].id != stars[j].id {
      if stars[i].id == stars[j].id {
        StarIdInjective(i, j);
      }
    }
  }

  /** The stars state after the mount effect. */
  function MountedStars(window: Option<(nat, nat)>): (stars: seq<Star>)
    ensures window.None? ==> stars == []
    ensures window.Some? ==> stars == GenerateStars(window.value.0, window.value.1)
  {
    match window
    case None => []
    case Some((w, h)) => GenerateStars(w, h)
  }

  /** The component draws something exactly when the stars exist. */
  predicate Renders(stars: seq<Star>) {
    |stars| != 0
  }

  /** Before the effect, and without a window, nothing is drawn; once the
      effect has run with a window, all twelve stars are. */
  lemma RenderRule(window: Option<(nat, nat)>)
    ensures !Renders([])
    ensures Renders(MountedStars(window)) <==> window.Some?
  {
  }
}
