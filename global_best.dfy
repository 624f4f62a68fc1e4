/** The global best: an index into the swarm whose personal-best value is the
    smallest, found first by a scan over all particles. */
module GlobalBest {
  import opened Particles

  datatype Option<T> = None | Some(value: T)

  /** gb indexes a particle whose personal-best value is no larger than any other's. */
  predicate IsGlobalBest(s: seq<Particle>, gb: int)
  {
    0 <= gb < |s| && forall i :: 0 <= i < |s| ==> s[gb].bestF <= s[i].bestF
  }

  /** The smallest personal-best value in a non-empty swarm, as an independent
      reference for the global best. */
  function MinBest(s: seq<Particle>): (m: real)
    requires |s| > 0
    ensures forall i :: 0 <= i < |s| ==> m <= s[i].bestF
    ensures exists i :: 0 <= i < |s| && m == s[i].bestF
  {
    if |s| == 1 then s[0].bestF
    else
      var rest := MinBest(s[1..]);
      assert forall i :: 1 <= i < |s| ==> s[i] == s[1..][i - 1];
      if s[0].bestF < rest then s[0].bestF else rest
  }

  /** Being the global best means carrying exactly the minimum personal-best value. */
  lemma GlobalBestIsMinimum(s: seq<Particle>, gb: int)
    requires 0 <= gb < |s|
    ensures IsGlobalBest(s, gb) <==> s[gb].bestF == MinBest(s)
  {
  }

  /** The scan of `main` before the iterations: start from particle 0 and move
      to a later particle only when its personal-best value is strictly smaller.
      An empty swarm has no particle 0 (Python raises IndexError). */
  method ScanGlobalBest(a: array<Particle>) returns (gb: Option<nat>)
    ensures gb.None? <==> a.Length == 0
    ensures gb.Some? ==> IsGlobalBest(a[..], gb.value)
    ensures gb.Some? ==> forall i :: 0 <= i < gb.value ==> a[gb.value].bestF < a[i].bestF
  {
    if a.Length == 0 {
      return None;
    }
    var g := 0;
    for i := 1 to a.Length
      invariant g < i
      invariant forall k :: 0 <= k < i ==> a[g].bestF <= a[k].bestF
      invariant forall k :: 0 <= k < g ==> a[g].bestF < a[k].bestF
    {
      if a[i].bestF < a[g].bestF {
        g := i;
      }
    }
    return Some(g);
  }
}
