/** The driver of `main`: initialise the swarm, pick the first global best,
    then run the iterations, reporting the global-best value after each. */
module Optimizer {
  import opened Objective
  import opened Particles
  import opened GlobalBest
  import opened Update

  /** How a run ends: an empty swarm has no particle 0 to start the scan from;
      otherwise the final particles, the global-best index and the value
      reported after each iteration. */
  datatype Outcome =
    | IndexError
    | Finished(particles: seq<Particle>, gb: nat, history: seq<real>)

  predicate NonIncreasing(s: seq<real>)
  {
    forall i, j :: 0 <= i < j < |s| ==> s[j] <= s[i]
  }

  /** The global-best value of a swarm, as line 121 prints it. */
  function BestValue(st: State): real
    requires st.gb < |st.particles|
  {
    st.particles[st.gb].bestF
  }

  /** k whole passes over the swarm, each with the same draws rs. */
  function Passes(st: State, h: Params, rs: seq<Coeffs>, k: nat): (st': State)
    requires st.gb < |st.particles| <= |rs|
    ensures |st'.particles| == |st.particles| && st'.gb < |st'.particles|
    decreases k
  {
    if k == 0 then st else Pass(Passes(st, h, rs, k - 1), h, rs)
  }

  /** After k passes the swarm is still valid (if it was), and neither any
      personal-best value nor the global-best value has increased. */
  lemma {:induction false} PassesProperties(st: State, h: Params, rs: seq<Coeffs>, k: nat)
    requires st.gb < |st.particles| <= |rs|
    ensures Valid(st) ==> Valid(Passes(st, h, rs, k))
    ensures forall i :: 0 <= i < |st.particles| ==> Passes(st, h, rs, k).particles[i].bestF <= st.particles[i].bestF
    ensures BestValue(Passes(st, h, rs, k)) <= BestValue(st)
  {
    if k > 0 {
      PassesProperties(st, h, rs, k - 1);
      PassProperties(Passes(st, h, rs, k - 1), h, rs);
    }
  }

  /** The global-best value after more passes is never above the value after fewer. */
  lemma {:induction false} PassesBestNonIncreasing(st: State, h: Params, rs: seq<Coeffs>, i: nat, j: nat)
    requires st.gb < |st.particles| <= |rs|
    requires i <= j
    ensures BestValue(Passes(st, h, rs, j)) <= BestValue(Passes(st, h, rs, i))
  {
    if i < j {
      PassesBestNonIncreasing(st, h, rs, i, j - 1);
      PassProperties(Passes(st, h, rs, j - 1), h, rs);
    }
  }

  /** The values reported after passes 1..m never increase and none exceeds
      the starting global-best value. */
  lemma ReportedValues(st: State, h: Params, rs: seq<Coeffs>, history: seq<real>)
    requires st.gb < |st.particles| <= |rs|
    requires forall k :: 0 <= k < |history| ==> history[k] == BestValue(Passes(st, h, rs, k + 1))
    ensures NonIncreasing(history)
    ensures forall k :: 0 <= k < |history| ==> history[k] <= BestValue(st)
  {
    forall p, q | 0 <= p < q < |history|
      ensures history[q] <= history[p]
    {
      PassesBestNonIncreasing(st, h, rs, p + 1, q + 1);
    }
    forall k | 0 <= k < |history|
      ensures history[k] <= BestValue(st)
    {
      PassesProperties(st, h, rs, k + 1);
    }
  }

  /** The outer loop of `main`: `iterations` passes over the swarm, recording
      the global-best value after each (what line 121 prints). */
  method RunIterations(a: array<Particle>, gb: nat, h: Params, rs: seq<Coeffs>, iterations: int)
    returns (gb': nat, history: seq<real>)
    requires Valid(State(a[..], gb)) && a.Length <= |rs|
    modifies a
    ensures |history| == (if iterations < 0 then 0 else iterations)
    ensures State(a[..], gb') == Passes(State(old(a[..]), gb), h, rs, |history|)
    ensures forall k :: 0 <= k < |history| ==>
      history[k] == BestValue(Passes(State(old(a[..]), gb), h, rs, k + 1))
    ensures Valid(State(a[..], gb'))
    ensures forall k :: 0 <= k < a.Length ==> a[k].bestF <= old(a[k].bestF)
    ensures NonIncreasing(history)
    ensures |history| > 0 ==> history[|history| - 1] == a[gb'].bestF
    ensures forall k :: 0 <= k < |history| ==> history[k] <= old(a[gb].bestF)
  {
    gb', history := gb, [];
    ghost var start := State(a[..], gb);
    var i := 0;
    while i < iterations
      invariant if iterations < 0 then i == 0 else 0 <= i <= iterations
      invariant |history| == i && a.Length == |start.particles|
      invariant State(a[..], gb') == Passes(start, h, rs, i)
      invariant forall k :: 0 <= k < i ==> history[k] == BestValue(Passes(start, h, rs, k + 1))
    {
      gb' := Iterate(a, gb', h, rs);
      ghost var now := State(a[..], gb');
      assert now == Passes(start, h, rs, i + 1);
      assert a[gb'].bestF == BestValue(now);
      history := history + [a[gb'].bestF];
      i := i + 1;
    }
    PassesProperties(start, h, rs, i);
    ReportedValues(start, h, rs, history);
  }

  /** `main` with its configuration as parameters. draws[i] are the uniform
      draws of particle i; rs[j] are the draws (r1, r2) of particle j, the same
      in every iteration because the generator is reseeded at the start of each. */
  method Run(n: int, xMin: real, xMax: real, vMin: real, vMax: real, h: Params, iterations: int,
             draws: seq<Draw>, rs: seq<Coeffs>) returns (o: Outcome)
    requires n <= |draws| && n <= |rs|
    ensures o.IndexError? <==> n <= 0
    ensures o.Finished? ==> |o.particles| == n && Valid(State(o.particles, o.gb))
    ensures o.Finished? ==> o.particles[o.gb].bestF == MinBest(o.particles)
    ensures o.Finished? ==> forall i :: 0 <= i < n ==> o.particles[i].bestF <= F(draws[i].x, draws[i].y)
    ensures o.Finished? ==> |o.history| == (if iterations < 0 then 0 else iterations)
    ensures o.Finished? ==> NonIncreasing(o.history)
    ensures o.Finished? && |o.history| > 0 ==> o.history[|o.history| - 1] == o.particles[o.gb].bestF
    ensures o.Finished? ==> forall k, i :: 0 <= k < |o.history| && 0 <= i < n ==>
      o.history[k] <= F(draws[i].x, draws[i].y)
  {
    var ps := InitializeParticles(n, xMin, xMax, vMin, vMax, draws);
    var a := new Particle[|ps|](i requires 0 <= i < |ps| => ps[i]);
    assert a[..] == ps;
    var found := ScanGlobalBest(a);
    if found.None? {
      return IndexError;
    }
    var gb: nat := found.value;
    var history;
    gb, history := RunIterations(a, gb, h, rs, iterations);
    GlobalBestIsMinimum(a[..], gb);
    return Finished(a[..], gb, history);
  }
}
