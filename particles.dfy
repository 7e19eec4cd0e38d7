/** The mouse-driven particle buffer of InteractiveParticles
    (src/components/atoms/ParticleEffects.tsx): particle creation from
    random draws, the spawn step capped by slice(-50), and the per-frame
    decay and filter. The mousemove listener, the 100 ms stop timer and the
    16 ms interval are methods a caller invokes. */
module InteractiveParticles {
  import opened Seqs

  datatype Particle = Particle(id: real, x: real, y: real, vx: real, vy: real,
                               size: real, color: string, life: real, maxLife: real)

  const Colors: seq<string> := ["#3b82f6", "#8b5cf6", "#ec4899", "#06b6d4", "#10b981"]

  /** The six Math.random() values createParticle draws, in the order the
      object literal evaluates them. */
  datatype ParticleDraws = ParticleDraws(id: real, vx: real, vy: real, size: real,
                                         color: real, maxLife: real)

  predicate IsDraw(r: real) {
    0.0 <= r < 1.0
  }

  predicate ValidDraws(d: ParticleDraws) {
    IsDraw(d.id) && IsDraw(d.vx) && IsDraw(d.vy) && IsDraw(d.size) && IsDraw(d.color) && IsDraw(d.maxLife)
  }

  /** A colour picked by colors[Math.floor(r * colors.length)]. */
  function PickColor(r: real): (c: string)
    requires IsDraw(r)
    ensures c in Colors
  {
    var k := (r * 5.0).Floor;
    assert 0.0 <= r * 5.0 < 5.0;
    Colors[k]
  }

  /** createParticle at the cursor position. */
  function CreateParticle(x: real, y: real, d: ParticleDraws): (p: Particle)
    requires ValidDraws(d)
    ensures p.x == x && p.y == y && p.id == d.id
    ensures p.life == 1.0
    ensures 30.0 <= p.maxLife < 90.0
    ensures 1.0 <= p.size < 5.0
    ensures -1.0 <= p.vx < 1.0 && -1.0 <= p.vy < 1.0
    ensures p.color in Colors
  {
    Particle(d.id, x, y, (d.vx - 0.5) * 2.0, (d.vy - 0.5) * 2.0, d.size * 4.0 + 1.0,
             PickColor(d.color), 1.0, d.maxLife * 60.0 + 30.0)
  }

  /** The state every particle of the buffer is in: still alive, never more
      than its initial life, with the lifetime createParticle gives. */
  predicate AllLive(ps: seq<Particle>) {
    forall k :: 0 <= k < |ps| ==> 0.0 < ps[k].life <= 1.0 && 30.0 <= ps[k].maxLife < 90.0
  }

  /** The map step of updateParticles. */
  function Advance(p: Particle): Particle
    requires p.maxLife > 0.0
  {
    p.(x := p.x + p.vx, y := p.y + p.vy, vx := p.vx * 0.99, vy := p.vy * 0.99,
       life := p.life - 1.0 / p.maxLife)
  }

  /** One frame moves a particle by its old velocity, damps the velocity by
      1%, lowers its life by exactly 1/maxLife and changes nothing else. */
  lemma AdvanceMeaning(p: Particle)
    requires p.maxLife > 0.0
    ensures var q := Advance(p);
            && q.x == p.x + p.vx && q.y == p.y + p.vy
            && q.vx == 0.99 * p.vx && q.vy == 0.99 * p.vy
            && q.life < p.life && q.life + 1.0 / p.maxLife == p.life
            && q.id == p.id && q.size == p.size && q.color == p.color && q.maxLife == p.maxLife
  {
  }

  function Advanced(ps: seq<Particle>): (r: seq<Particle>)
    requires forall k :: 0 <= k < |ps| ==> ps[k].maxLife > 0.0
    ensures |r| == |ps| && forall k :: 0 <= k < |ps| ==> r[k] == Advance(ps[k])
  {
    seq(|ps|, k requires 0 <= k < |ps| => Advance(ps[k]))
  }

  /** updateParticles: advance every particle, keep those with life left. */
  function Tick(ps: seq<Particle>): seq<Particle>
    requires forall k :: 0 <= k < |ps| ==> ps[k].maxLife > 0.0
  {
    Filter(Advanced(ps), (p: Particle) => p.life > 0.0)
  }

  /** A frame never adds particles and keeps their order; the survivors
      are the advanced particles that still have life, all of them. */
  lemma TickMeaning(ps: seq<Particle>)
    requires forall k :: 0 <= k < |ps| ==> ps[k].maxLife > 0.0
    ensures var r := Tick(ps);
            && |r| <= |ps|
            && IsSubsequence(r, Advanced(ps))
            && (forall k :: 0 <= k < |r| ==> r[k].life > 0.0)
            && (forall k :: 0 <= k < |ps| && Advance(ps[k]).life > 0.0 ==> Advance(ps[k]) in r)
  {
    var a := Advanced(ps);
    FilterIsSubsequence(a, (p: Particle) => p.life > 0.0);
    forall k | 0 <= k < |ps| && Advance(ps[k]).life > 0.0 ensures Advance(ps[k]) in Tick(ps) {
      assert a[k] == Advance(ps[k]);
    }
  }

  /** A frame keeps every particle of the buffer live. */
  lemma TickKeepsLive(ps: seq<Particle>)
    requires AllLive(ps)
    ensures AllLive(Tick(ps))
  {
    var a := Advanced(ps);
    var r := Tick(ps);
    forall k | 0 <= k < |r| ensures 0.0 < r[k].life <= 1.0 && 30.0 <= r[k].maxLife < 90.0 {
      assert r[k] in a;
      var m :| 0 <= m < |a| && a[m] == r[k];
      assert ps[m].life <= 1.0 && ps[m].maxLife > 0.0;
      assert 1.0 / ps[m].maxLife > 0.0;
    }
  }

  /** The number of particles slice(-50) keeps. */
  const Kept: nat := 50

  /** The spawn step: the last 50 particles, then the new one. */
  function Spawn(ps: seq<Particle>, p: Particle): seq<Particle> {
    TakeLast(ps, Kept) + [p]
  }

  /** A spawn leaves at most 51 particles, the new one last, preceded by the
      most recent min(50, n) old ones in their order. */
  lemma SpawnShape(ps: seq<Particle>, p: Particle)
    ensures var r := Spawn(ps, p);
            && 1 <= |r| <= Kept + 1
            && r[|r| - 1] == p
            && r[..|r| - 1] == ps[|ps| - (|r| - 1)..]
            && |r| - 1 == if |ps| < Kept then |ps| else Kept
  {
    var r := Spawn(ps, p);
    assert r[..|r| - 1] == TakeLast(ps, Kept);
  }

  /** The particle state of one mounted effect. */
  class ParticleField {
    var particles: seq<Particle>
    var mouseX: real
    var mouseY: real
    var isMouseMoving: bool

    /** At most 51 particles, all live. */
    predicate Valid()
      reads this
    {
      |particles| <= Kept + 1 && AllLive(particles)
    }

    constructor ()
      ensures particles == [] && mouseX == 0.0 && mouseY == 0.0 && !isMouseMoving
      ensures Valid()
    {
      particles, mouseX, mouseY, isMouseMoving := [], 0.0, 0.0, false;
    }

    /** handleMouseMove: record the cursor and, when the spawn draw exceeds
        0.7, spawn a particle there. */
    method MouseMove(x: real, y: real, spawnDraw: real, draws: ParticleDraws)
      requires Valid() && ValidDraws(draws)
      modifies this
      ensures Valid()
      ensures mouseX == x && mouseY == y && isMouseMoving
      ensures particles == if spawnDraw > 0.7 then Spawn(old(particles), CreateParticle(x, y, draws))
                           else old(particles)
    {
      mouseX, mouseY := x, y;
      isMouseMoving := true;
      if spawnDraw > 0.7 {
        var p := CreateParticle(x, y, draws);
        SpawnShape(particles, p);
        particles := Spawn(particles, p);
      }
    }

    /** handleMouseStop, run by the timer 100 ms after the last move. */
    method MouseStop()
      modifies this
      ensures !isMouseMoving
      ensures particles == old(particles) && mouseX == old(mouseX) && mouseY == old(mouseY)
    {
      isMouseMoving := false;
    }

    /** One run of the 16 ms interval. */
    method Update()
      requires Valid()
      modifies this
      ensures Valid()
      ensures particles == Tick(old(particles))
      ensures isMouseMoving == old(isMouseMoving)
    {
      TickKeepsLive(particles);
      TickMeaning(particles);
      particles := Tick(particles);
    }
  }
}
