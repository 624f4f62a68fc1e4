/** One iteration of the swarm: every particle in index order gets a new
    velocity, moves, may improve its personal best and may take over the
    global best, which later particles of the same pass then follow. */
module Update {
  import opened Objective
  import opened Particles
  import opened GlobalBest

  /** Inertia weight w, cognitive coefficient c1, social coefficient c2. */
  datatype Params = Params(w: real, c1: real, c2: real)

  /** The two uniform draws r1, r2 taken for one particle. */
  datatype Coeffs = Coeffs(r1: real, r2: real)

  /** The swarm: the particle records and the index of the global best. */
  datatype State = State(particles: seq<Particle>, gb: nat)

  /** Every personal best is consistent with the objective and gb indexes a
      particle with the minimum personal-best value. */
  predicate Valid(st: State)
  {
    IsGlobalBest(st.particles, st.gb) &&
    forall i :: 0 <= i < |st.particles| ==> Consistent(st.particles[i])
  }

  /** The new velocity along one axis: inertia on the old velocity v, a pull
      towards the personal best and a pull towards the global best, from the
      current coordinate pos; no clamping. */
  function Velocity(v: real, pos: real, best: real, gbest: real, h: Params, r: Coeffs): real
  {
    h.w * v + h.c1 * r.r1 * (best - pos) + h.c2 * r.r2 * (gbest - pos)
  }

  /** The new record of a particle p, given the global-best record g current
      when p is processed. */
  function Move(p: Particle, g: Particle, h: Params, r: Coeffs): (q: Particle)
    ensures q.vx == Velocity(p.vx, p.x, p.bestX, g.bestX, h, r)
    ensures q.vy == Velocity(p.vy, p.y, p.bestY, g.bestY, h, r)
    ensures q.x == p.x + q.vx && q.y == p.y + q.vy
    ensures q.bestF <= p.bestF && q.bestF <= F(q.x, q.y)
    ensures Consistent(p) ==> Consistent(q)
    ensures F(q.x, q.y) < p.bestF ==> q.bestX == q.x && q.bestY == q.y && q.bestF == F(q.x, q.y)
    ensures !(F(q.x, q.y) < p.bestF) ==> q.bestX == p.bestX && q.bestY == p.bestY && q.bestF == p.bestF
  {
    var vx := Velocity(p.vx, p.x, p.bestX, g.bestX, h, r);
    var vy := Velocity(p.vy, p.y, p.bestY, g.bestY, h, r);
    var x := p.x + vx;
    var y := p.y + vy;
    if F(x, y) < p.bestF then Particle(x, y, vx, vy, x, y, F(x, y))
    else Particle(x, y, vx, vy, p.bestX, p.bestY, p.bestF)
  }

  /** The update of particle j: it moves following the current global best, and
      becomes the global best if its personal-best value is now strictly below
      that of the current global best (never when it already is the global best). */
  function StepAt(st: State, j: nat, h: Params, r: Coeffs): (st': State)
    requires st.gb < |st.particles| && j < |st.particles|
    ensures |st'.particles| == |st.particles| && st'.gb < |st'.particles|
    ensures st'.particles[j] == Move(st.particles[j], st.particles[st.gb], h, r)
    ensures forall i :: 0 <= i < |st.particles| && i != j ==> st'.particles[i] == st.particles[i]
    ensures st'.gb == st.gb || st'.gb == j
    ensures st.gb == j ==> st'.gb == j
    ensures st.gb != j ==> (st'.gb == j <==> st'.particles[j].bestF < st.particles[st.gb].bestF)
    ensures st'.particles[st'.gb].bestF <= st.particles[st.gb].bestF
  {
    var s := st.particles[j := Move(st.particles[j], st.particles[st.gb], h, r)];
    State(s, if s[j].bestF < s[st.gb].bestF then j else st.gb)
  }

  /** A single particle update restores the global-best invariant: whether or
      not particle j improves, and also when j is itself the global best. */
  lemma StepAtKeepsValid(st: State, j: nat, h: Params, r: Coeffs)
    requires st.gb < |st.particles| && j < |st.particles|
    requires Valid(st)
    ensures Valid(StepAt(st, j, h, r))
  {
  }

  /** The first k particle updates of one pass, particle i using draws rs[i]. */
  function PassPrefix(st: State, k: nat, h: Params, rs: seq<Coeffs>): (st': State)
    requires st.gb < |st.particles| && k <= |st.particles| <= |rs|
    ensures |st'.particles| == |st.particles| && st'.gb < |st'.particles|
    decreases k
  {
    if k == 0 then st else StepAt(PassPrefix(st, k - 1, h, rs), k - 1, h, rs[k - 1])
  }

  /** A whole pass over the swarm. */
  function Pass(st: State, h: Params, rs: seq<Coeffs>): (st': State)
    requires st.gb < |st.particles| <= |rs|
    ensures |st'.particles| == |st.particles| && st'.gb < |st'.particles|
  {
    PassPrefix(st, |st.particles|, h, rs)
  }

  /** After the first k updates of a pass the swarm is still valid: every
      personal best is consistent and gb indexes a minimum. */
  lemma {:induction false} PassPrefixValid(st: State, k: nat, h: Params, rs: seq<Coeffs>)
    requires st.gb < |st.particles| && k <= |st.particles| <= |rs|
    requires Valid(st)
    ensures Valid(PassPrefix(st, k, h, rs))
  {
    if k > 0 {
      PassPrefixValid(st, k - 1, h, rs);
      StepAtKeepsValid(PassPrefix(st, k - 1, h, rs), k - 1, h, rs[k - 1]);
    }
  }

  /** After the first k updates of a pass no personal-best value and not the
      global-best value has increased, and the particles not yet reached are
      untouched. */
  lemma {:induction false} PassPrefixMonotone(st: State, k: nat, h: Params, rs: seq<Coeffs>)
    requires st.gb < |st.particles| && k <= |st.particles| <= |rs|
    ensures forall i :: 0 <= i < |st.particles| ==>
      PassPrefix(st, k, h, rs).particles[i].bestF <= st.particles[i].bestF
    ensures forall i :: k <= i < |st.particles| ==> PassPrefix(st, k, h, rs).particles[i] == st.particles[i]
    ensures PassPrefix(st, k, h, rs).particles[PassPrefix(st, k, h, rs).gb].bestF <= st.particles[st.gb].bestF
  {
    if k > 0 {
      PassPrefixMonotone(st, k - 1, h, rs);
      var prev := PassPrefix(st, k - 1, h, rs);
      var cur := StepAt(prev, k - 1, h, rs[k - 1]);
      assert cur == PassPrefix(st, k, h, rs);
      forall i | 0 <= i < |st.particles|
        ensures cur.particles[i].bestF <= st.particles[i].bestF
      {
        assert cur.particles[i].bestF <= prev.particles[i].bestF;
      }
    }
  }

  /** A whole pass keeps the swarm valid and no personal-best value or
      global-best value increases. */
  lemma PassProperties(st: State, h: Params, rs: seq<Coeffs>)
    requires st.gb < |st.particles| <= |rs|
    ensures Valid(st) ==> Valid(Pass(st, h, rs))
    ensures forall i :: 0 <= i < |st.particles| ==> Pass(st, h, rs).particles[i].bestF <= st.particles[i].bestF
    ensures Pass(st, h, rs).particles[Pass(st, h, rs).gb].bestF <= st.particles[st.gb].bestF
  {
    if Valid(st) {
      PassPrefixValid(st, |st.particles|, h, rs);
    }
    PassPrefixMonotone(st, |st.particles|, h, rs);
  }

  /** The body of the inner loop for particle j, on the array in place. The
      record of the global best is read through gb after particle j has been
      written, so when gb == j it sees j's own new record, as the aliased
      dictionary does. */
  method UpdateParticle(a: array<Particle>, gb: nat, j: nat, h: Params, r: Coeffs) returns (gb': nat)
    requires gb < a.Length && j < a.Length
    modifies a
    ensures State(a[..], gb') == StepAt(State(old(a[..]), gb), j, h, r)
  {
    // global_best's best position is not written before particle j's own
    // best is, so reading it up front sees what lines 104-105 see.
    var p, g := a[j], a[gb];
    p := p.(vx := Velocity(p.vx, p.x, p.bestX, g.bestX, h, r));
    p := p.(vy := Velocity(p.vy, p.y, p.bestY, g.bestY, h, r));
    p := p.(x := p.x + p.vx);
    p := p.(y := p.y + p.vy);
    if F(p.x, p.y) < p.bestF {
      p := p.(bestX := p.x, bestY := p.y, bestF := F(p.x, p.y));
    }
    assert p == Move(a[j], g, h, r);
    a[j] := p;
    assert a[..] == old(a[..])[j := p];
    if a[j].bestF < a[gb].bestF {
      gb' := j;
    } else {
      gb' := gb;
    }
  }

  /** One iteration of `main`'s outer loop: every particle in index order,
      particle j using the draws rs[j]. */
  method Iterate(a: array<Particle>, gb: nat, h: Params, rs: seq<Coeffs>) returns (gb': nat)
    requires gb < a.Length <= |rs|
    modifies a
    ensures State(a[..], gb') == Pass(State(old(a[..]), gb), h, rs)
  {
    gb' := gb;
    for j := 0 to a.Length
      invariant gb' < a.Length
      invariant State(a[..], gb') == PassPrefix(State(old(a[..]), gb), j, h, rs)
    {
      gb' := UpdateParticle(a, gb', j, h, rs[j]);
    }
  }
}
