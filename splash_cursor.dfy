/** The splash cursor (src/components/atoms/SplashCursor.tsx): clicks add
    splashes that a timer later removes by id, cursor moves add trail
    points that an interval trims to the last five, and mousedown/mouseup
    drive the pressed look. Date.now() + Math.random() ids and the event
    coordinates are parameters; the timers call the methods below. */
module SplashCursor {
  import opened Seqs

  /** A splash: its id, the click position and the click time. */
  datatype Splash = Splash(id: real, x: real, y: real, timestamp: real)

  /** A trail point at a cursor position. */
  datatype TrailPoint = TrailPoint(x: real, y: real, id: real)

  /** How many trail points the interval keeps. */
  const TrailKept: nat := 5

  /** The deferred removal of one splash: prev.filter(s => s.id !== id). */
  function RemoveSplash(splashes: seq<Splash>, id: real): seq<Splash> {
    Filter(splashes, (s: Splash) => s.id != id)
  }

  /** Removal deletes every splash with that id and only those: the others
      stay, in their order. */
  lemma RemoveSplashMeaning(splashes: seq<Splash>, id: real)
    ensures var r := RemoveSplash(splashes, id);
            && IsSubsequence(r, splashes)
            && (forall k :: 0 <= k < |r| ==> r[k].id != id)
            && (forall k :: 0 <= k < |splashes| && splashes[k].id != id ==> splashes[k] in r)
  {
    FilterIsSubsequence(splashes, (s: Splash) => s.id != id);
  }

  /** A click followed by the removal its timer schedules gives back the
      list from before the click, provided no earlier splash has the new id
      and nothing else changed the list in between. */
  lemma {:induction false} ClickThenExpire(prev: seq<Splash>, s: Splash)
    requires forall k :: 0 <= k < |prev| ==> prev[k].id != s.id
    ensures RemoveSplash(prev + [s], s.id) == prev
  {
    var keep := (t: Splash) => t.id != s.id;
    FilterConcat(prev, [s], keep);
    FilterKeepsAll(prev, keep);
    FilterDropsAll([s], keep);
  }

  /** One burst particle: its angle in degrees, its distance from the click
      and its hue. */
  datatype Burst = Burst(angle: real, distance: real, hue: int)

  /** The twelve particles of the main explosion: angle i·30°, distance
      40 + 3i, hue (i·30 + 180) mod 360. */
  function PrimaryBurst(): (r: seq<Burst>)
    ensures |r| == 12
    ensures forall i :: 0 <= i < 12 ==> 0.0 <= r[i].angle < 360.0 && 0 <= r[i].hue < 360
    ensures forall i, j :: 0 <= i < j < 12 ==> r[i].angle < r[j].angle && r[i].distance < r[j].distance
    ensures forall i, j :: 0 <= i < j < 12 ==> r[i].hue != r[j].hue
  {
    seq(12, i requires 0 <= i < 12 => Burst(i as real * 30.0, 40.0 + i as real * 3.0, (i * 30 + 180) % 360))
  }

  /** The eight particles of the secondary layer: angle i·45 + 22.5°,
      distance 60 + 4i, hue (i·45 + 270) mod 360. */
  function SecondaryBurst(): (r: seq<Burst>)
    ensures |r| == 8
    ensures forall i :: 0 <= i < 8 ==> 0.0 <= r[i].angle < 360.0 && 0 <= r[i].hue < 360
    ensures forall i, j :: 0 <= i < j < 8 ==> r[i].angle < r[j].angle && r[i].distance < r[j].distance
    ensures forall i, j :: 0 <= i < j < 8 ==> r[i].hue != r[j].hue
  {
    seq(8, i requires 0 <= i < 8 => Burst(22.5 + i as real * 45.0, 60.0 + i as real * 4.0, (i * 45 + 270) % 360))
  }

  /** The two layers never share a direction: no secondary angle is a
      main angle, since 22.5 + 45i is never a multiple of 30. */
  lemma BurstsInterleave()
    ensures forall i, j :: 0 <= i < 8 && 0 <= j < 12 ==>
              SecondaryBurst()[i].angle != PrimaryBurst()[j].angle
  {
  }

  /** The component's splashes, trail and isClicking cells, and the
      cursor position the cursor follows. */
  class SplashState {
    var splashes: seq<Splash>
    var trail: seq<TrailPoint>
    var isClicking: bool
    var mouseX: real
    var mouseY: real

    constructor ()
      ensures splashes == [] && trail == [] && !isClicking && mouseX == 0.0 && mouseY == 0.0
    {
      splashes, trail, isClicking, mouseX, mouseY := [], [], false, 0.0, 0.0;
    }

    /** handleMouseMove: follow the cursor and append one trail point; the
        trail is not capped here. */
    method MouseMove(x: real, y: real, id: real)
      modifies this
      ensures mouseX == x && mouseY == y
      ensures trail == old(trail) + [TrailPoint(x, y, id)]
      ensures |trail| == |old(trail)| + 1
      ensures splashes == old(splashes) && isClicking == old(isClicking)
    {
      mouseX, mouseY := x, y;
      trail := trail + [TrailPoint(x, y, id)];
    }

    /** handleClick: append one splash at the click; the returned id is the
        one its 1200 ms timer removes. */
    method Click(x: real, y: real, id: real, now: real) returns (scheduled: real)
      modifies this
      ensures splashes == old(splashes) + [Splash(id, x, y, now)]
      ensures scheduled == id
      ensures trail == old(trail) && isClicking == old(isClicking)
      ensures mouseX == old(mouseX) && mouseY == old(mouseY)
    {
      var newSplash := Splash(id, x, y, now);
      splashes := splashes + [newSplash];
      scheduled := newSplash.id;
    }

    /** The click timer firing. */
    method Expire(id: real)
      modifies this
      ensures splashes == RemoveSplash(old(splashes), id)
      ensures trail == old(trail) && isClicking == old(isClicking)
      ensures mouseX == old(mouseX) && mouseY == old(mouseY)
    {
      splashes := RemoveSplash(splashes, id);
    }

    /** One run of the 100 ms interval: trail.slice(-5). */
    method TrimTrail()
      modifies this
      ensures trail == TakeLast(old(trail), TrailKept)
      ensures |trail| <= TrailKept
      ensures splashes == old(splashes) && isClicking == old(isClicking)
      ensures mouseX == old(mouseX) && mouseY == old(mouseY)
    {
      trail := TakeLast(trail, TrailKept);
    }

    method MouseDown()
      modifies this
      ensures isClicking
      ensures splashes == old(splashes) && trail == old(trail)
      ensures mouseX == old(mouseX) && mouseY == old(mouseY)
    {
      isClicking := true;
    }

    method MouseUp()
      modifies this
      ensures !isClicking
      ensures splashes == old(splashes) && trail == old(trail)
      ensures mouseX == old(mouseX) && mouseY == old(mouseY)
    {
      isClicking := false;
    }
  }

  /** The trim keeps the last min(n, 5) points in order, and a second trim
      before any move changes nothing. */
  lemma TrimTrailFacts(trail: seq<TrailPoint>)
    ensures var t := TakeLast(trail, TrailKept);
            && |t| == (if |trail| < TrailKept then |trail| else TrailKept)
            && t == trail[|trail| - |t|..]
            && TakeLast(t, TrailKept) == t
  {
    TakeLastIdempotent(trail, TrailKept);
  }
}
