/** The cursor effects of src/components/atoms/HoverEffects.tsx: the
    ripple list of RippleEffect and the offsets of TiltCard, MagneticHover
    and ParallaxHover. getBoundingClientRect() is a Rect parameter of each
    event; Date.now() is a parameter too. */
module HoverEffects {
  import opened Wrappers
  import opened Seqs

  /** An element's bounding client rectangle. */
  datatype Rect = Rect(left: real, top: real, width: real, height: real)

  /** A cursor coordinate lies within an extent [start, start + size]. */
  predicate Within(client: real, start: real, size: real) {
    start <= client <= start + size
  }

  /* ---------- TiltCard ---------- */

  /** mouse / size - 0.5 for the cursor's offset into an extent: the
      cursor's place across the element, from -0.5 at one edge to 0.5 at
      the other and 0 in the middle. */
  function TiltPct(client: real, start: real, size: real): (pct: real)
    requires size > 0.0
    ensures Within(client, start, size) <==> -0.5 <= pct <= 0.5
    ensures pct == 0.0 <==> client == start + size / 2.0
    ensures client < start + size / 2.0 <==> pct < 0.0
  {
    ShareBounds(client - start, size);
    (client - start) / size - 0.5
  }

  /** Dividing by a positive size keeps the sign and maps [0, size] onto
      [0, 1]. */
  lemma ShareBounds(a: real, size: real)
    requires size > 0.0
    ensures 0.0 <= a / size <==> 0.0 <= a
    ensures a / size <= 1.0 <==> a <= size
    ensures a / size == 0.5 <==> a == size / 2.0
    ensures a / size < 0.5 <==> a < size / 2.0
  {
    var u := a / size;
    assert u * size == a;
    assert (u - 1.0) * size == a - size;
    assert (u - 0.5) * size == a - size / 2.0;
    ProductSign(u, size);
    ProductSign(u - 1.0, size);
    ProductSign(u - 0.5, size);
  }

  /** A product with a positive factor has the other factor's sign. */
  lemma ProductSign(x: real, size: real)
    requires size > 0.0
    ensures x * size < 0.0 <==> x < 0.0
    ensures x * size == 0.0 <==> x == 0.0
  {
    if x < 0.0 {
      assert x * size < 0.0 * size;
    } else if x > 0.0 {
      assert x * size > 0.0 * size;
    }
  }

  /** The x and y motion values of one TiltCard. */
  class Tilt {
    var x: real
    var y: real

    constructor ()
      ensures x == 0.0 && y == 0.0
    {
      x, y := 0.0, 0.0;
    }

    /** handleMouseMove; rect is None while the ref is not attached, and
        then nothing changes. */
    method MouseMove(rect: Option<Rect>, clientX: real, clientY: real)
      requires rect.Some? ==> rect.value.width > 0.0 && rect.value.height > 0.0
      modifies this
      ensures rect.None? ==> x == old(x) && y == old(y)
      ensures rect.Some? ==>
                x == TiltPct(clientX, rect.value.left, rect.value.width) &&
                y == TiltPct(clientY, rect.value.top, rect.value.height)
    {
      if rect.None? {
        return;
      }
      var r := rect.value;
      var mouseX := clientX - r.left;
      var mouseY := clientY - r.top;
      x := mouseX / r.width - 0.5;
      y := mouseY / r.height - 0.5;
    }

    /** handleMouseLeave: back to level. */
    method MouseLeave()
      modifies this
      ensures x == 0.0 && y == 0.0
    {
      x, y := 0.0, 0.0;
    }
  }

  /* ---------- MagneticHover ---------- */

  const DefaultStrength: real := 0.3
  const HoverScale: real := 1.05

  /** (client - centre) * strength along one axis. */
  function MagneticOffset(client: real, start: real, size: real, strength: real): (delta: real)
    ensures client == start + size / 2.0 ==> delta == 0.0
    ensures strength > 0.0 ==> (delta > 0.0 <==> client > start + size / 2.0)
  {
    (client - (start + size / 2.0)) * strength
  }

  /** With the default strength, a cursor inside the element moves it by
      at most 0.3 of half its size along each axis. */
  lemma MagneticBound(client: real, start: real, size: real)
    requires size >= 0.0 && Within(client, start, size)
    ensures var delta := MagneticOffset(client, start, size, DefaultStrength);
            -0.15 * size <= delta <= 0.15 * size
  {
  }

  /** The isHovered and mousePosition cells of one MagneticHover. */
  class Magnetic {
    const strength: real
    var isHovered: bool
    var posX: real
    var posY: real

    constructor (strength: real)
      ensures this.strength == strength && !isHovered && posX == 0.0 && posY == 0.0
    {
      this.strength := strength;
      isHovered, posX, posY := false, 0.0, 0.0;
    }

    /** The spring's target translation: the stored offset while hovered,
        none otherwise. */
    function Translation(): (t: (real, real))
      reads this
      ensures !isHovered ==> t == (0.0, 0.0)
      ensures isHovered ==> t == (posX, posY)
    {
      if isHovered then (posX, posY) else (0.0, 0.0)
    }

    /** The spring's target scale. */
    function Scale(): (s: real)
      reads this
      ensures s == (if isHovered then HoverScale else 1.0)
      ensures s >= 1.0
    {
      if isHovered then HoverScale else 1.0
    }

    method MouseEnter()
      modifies this
      ensures isHovered && posX == old(posX) && posY == old(posY)
    {
      isHovered := true;
    }

    /** Leaving stops the effect but keeps the last offset, which shows
        again on the next enter until the cursor moves. */
    method MouseLeave()
      modifies this
      ensures !isHovered && posX == old(posX) && posY == old(posY)
    {
      isHovered := false;
    }

    method MouseMove(rect: Rect, clientX: real, clientY: real)
      modifies this
      ensures posX == MagneticOffset(clientX, rect.left, rect.width, strength)
      ensures posY == MagneticOffset(clientY, rect.top, rect.height, strength)
      ensures isHovered == old(isHovered)
    {
      var centerX := rect.left + rect.width / 2.0;
      var centerY := rect.top + rect.height / 2.0;
      posX := (clientX - centerX) * strength;
      posY := (clientY - centerY) * strength;
    }
  }

  /* ---------- ParallaxHover ---------- */

  /** The depth when the caller passes none. */
  const DefaultDepth: real := 20.0

  /** ((client - centre) / size) * depth along one axis: for a cursor
      inside the element, within half the depth either way, and 0 at the
      centre. */
  function ParallaxOffset(client: real, start: real, size: real, depth: real): (delta: real)
    requires size > 0.0
    ensures depth >= 0.0 && Within(client, start, size) ==> -depth / 2.0 <= delta <= depth / 2.0
    ensures client == start + size / 2.0 ==> delta == 0.0
  {
    ParallaxBound(client, start, size, depth);
    ((client - (start + size / 2.0)) / size) * depth
  }

  /** The cursor's signed share of the size from the centre lies in
      [-1/2, 1/2] inside the element, and scaling by the depth keeps it
      within half the depth. */
  lemma ParallaxBound(client: real, start: real, size: real, depth: real)
    requires size > 0.0
    ensures var u := (client - (start + size / 2.0)) / size;
            depth >= 0.0 && Within(client, start, size) ==> -depth / 2.0 <= u * depth <= depth / 2.0
  {
    var u := (client - (start + size / 2.0)) / size;
    if depth >= 0.0 && Within(client, start, size) {
      assert u * size == client - (start + size / 2.0);
      assert -0.5 <= u <= 0.5;
      assert u * depth <= 0.5 * depth;
      assert -0.5 * depth <= u * depth;
    }
  }

  /** The mousePosition cell of one ParallaxHover. */
  class Parallax {
    const depth: real
    var posX: real
    var posY: real

    /** Mounting the component; an omitted depth is None and defaults to 20. */
    constructor (depth: Option<real>)
      ensures this.depth == if depth.Some? then depth.value else DefaultDepth
      ensures posX == 0.0 && posY == 0.0
    {
      this.depth := if depth.Some? then depth.value else DefaultDepth;
      posX, posY := 0.0, 0.0;
    }

    method MouseMove(rect: Rect, clientX: real, clientY: real)
      requires rect.width > 0.0 && rect.height > 0.0
      modifies this
      ensures posX == ParallaxOffset(clientX, rect.left, rect.width, depth)
      ensures posY == ParallaxOffset(clientY, rect.top, rect.height, depth)
    {
      var centerX := rect.left + rect.width / 2.0;
      var centerY := rect.top + rect.height / 2.0;
      var deltaX := (clientX - centerX) / rect.width;
      var deltaY := (clientY - centerY) / rect.height;
      posX, posY := deltaX * depth, deltaY * depth;
    }

    method MouseLeave()
      modifies this
      ensures posX == 0.0 && posY == 0.0
    {
      posX, posY := 0.0, 0.0;
    }
  }

  /* ---------- RippleEffect ---------- */

  /** A ripple at a point relative to the element, with its Date.now() id. */
  datatype Ripple = Ripple(x: real, y: real, id: int)

  /** The removal 600 ms after a click: prev.filter(r => r.id !== id). */
  function RemoveRipple(ripples: seq<Ripple>, id: int): seq<Ripple> {
    Filter(ripples, (r: Ripple) => r.id != id)
  }

  /** Removal deletes exactly the ripples with that id, keeping the others
      in order. */
  lemma RemoveRippleMeaning(ripples: seq<Ripple>, id: int)
    ensures var r := RemoveRipple(ripples, id);
            && IsSubsequence(r, ripples)
            && (forall k :: 0 <= k < |r| ==> r[k].id != id)
            && (forall k :: 0 <= k < |ripples| && ripples[k].id != id ==> ripples[k] in r)
  {
    FilterIsSubsequence(ripples, (r: Ripple) => r.id != id);
  }

  /** Two clicks in the same millisecond get the same id, so the first
      timer to fire removes both ripples at once. */
  lemma {:induction false} SameMillisecondRipples(prev: seq<Ripple>, a: Ripple, b: Ripple)
    requires a.id == b.id
    ensures RemoveRipple(prev + [a, b], a.id) == RemoveRipple(prev, a.id)
  {
    var keep := (r: Ripple) => r.id != a.id;
    FilterConcat(prev, [a, b], keep);
    FilterDropsAll([a, b], keep);
  }

  /** The ripples cell of one RippleEffect. */
  class Ripples {
    var ripples: seq<Ripple>

    constructor ()
      ensures ripples == []
    {
      ripples := [];
    }

    /** handleClick: one ripple at the click relative to the element's top
        left corner; the returned id is what its timer removes. */
    method Click(rect: Rect, clientX: real, clientY: real, now: int) returns (scheduled: int)
      modifies this
      ensures ripples == old(ripples) + [Ripple(clientX - rect.left, clientY - rect.top, now)]
      ensures scheduled == now
    {
      var x := clientX - rect.left;
      var y := clientY - rect.top;
      var newRipple := Ripple(x, y, now);
      ripples := ripples + [newRipple];
      scheduled := newRipple.id;
    }

    /** The click timer firing. */
    method Expire(id: int)
      modifies this
      ensures ripples == RemoveRipple(old(ripples), id)
    {
      ripples := RemoveRipple(ripples, id);
    }
  }
}
