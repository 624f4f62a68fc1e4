/** Particle records and the initialisation of the swarm. */
module Particles {
  import opened Objective

  /** One particle: current position and velocity, the best position it has
      visited, and the objective value there. */
  datatype Particle = Particle(x: real, y: real, vx: real, vy: real,
                               bestX: real, bestY: real, bestF: real)

  /** The results of the four uniform draws taken for one particle at
      initialisation: x and y from the position range, vx and vy from the
      velocity range. */
  datatype Draw = Draw(x: real, y: real, vx: real, vy: real)

  /** The personal-best value is the objective at the personal-best position. */
  predicate Consistent(p: Particle)
  {
    p.bestF == F(p.bestX, p.bestY)
  }

  /** p is the particle built from draw d: it starts at d with velocity d and
      its personal best is its starting position. */
  predicate SpawnedFrom(p: Particle, d: Draw)
  {
    p.x == d.x && p.y == d.y && p.vx == d.vx && p.vy == d.vy &&
    p.bestX == p.x && p.bestY == p.y && p.bestF == F(p.x, p.y)
  }

  /** The draw lies in the configured ranges (the same range for both axes). */
  predicate DrawInBounds(d: Draw, xMin: real, xMax: real, vMin: real, vMax: real)
  {
    xMin <= d.x <= xMax && xMin <= d.y <= xMax && vMin <= d.vx <= vMax && vMin <= d.vy <= vMax
  }

  /** The particle's position and velocity lie in the configured ranges. */
  predicate InBounds(p: Particle, xMin: real, xMax: real, vMin: real, vMax: real)
  {
    xMin <= p.x <= xMax && xMin <= p.y <= xMax && vMin <= p.vx <= vMax && vMin <= p.vy <= vMax
  }

  /** Builds the list of particles by appending one record per draw; `range(n)`
      with n <= 0 builds the empty list. */
  method InitializeParticles(n: int, xMin: real, xMax: real, vMin: real, vMax: real, draws: seq<Draw>)
    returns (particles: seq<Particle>)
    requires n <= |draws|
    ensures |particles| == if n < 0 then 0 else n
    ensures forall i :: 0 <= i < |particles| ==> SpawnedFrom(particles[i], draws[i])
    ensures forall i :: 0 <= i < |particles| ==> Consistent(particles[i])
    ensures forall i :: 0 <= i < |particles| ==>
      DrawInBounds(draws[i], xMin, xMax, vMin, vMax) ==> InBounds(particles[i], xMin, xMax, vMin, vMax)
  {
    particles := [];
    var k := 0;
    while k < n
      invariant 0 <= k <= |draws|
      invariant if n < 0 then k == 0 else k <= n
      invariant |particles| == k
      invariant forall i :: 0 <= i < k ==> SpawnedFrom(particles[i], draws[i])
    {
      var d := draws[k];
      particles := particles + [Particle(d.x, d.y, d.vx, d.vy, d.x, d.y, F(d.x, d.y))];
      k := k + 1;
    }
  }
}
