# Particle swarm optimisation — the bookkeeping, verified

This project models the core of `particleSwarmOp.py`, a particle swarm optimiser that
searches the plane for the minimum of the bowl f(x, y) = (x-3)^2 + (y-2)^2.

The swarm is a list of particle records. Each record holds a position `(x, y)`, a velocity
`(vx, vy)`, the best position the particle has visited `(best_x, best_y)` and the objective
value there, `best_f`. The global best is not a copy: it refers to one of the particles.

The program does four things:

1. It builds the particles from uniform draws. Each particle's personal best starts at its
   starting position.
2. It scans the particles for the first one with the smallest `best_f`.
3. It runs a fixed number of iterations. Each iteration reseeds the random generator. Then it
   updates every particle in index order:
   - it computes a new velocity from inertia, a pull towards the personal best and a pull
     towards the global best as it stands at that moment;
   - it moves the particle;
   - it replaces the personal best only on strict improvement;
   - it makes the particle the global best if its `best_f` is strictly below the global best's.
4. It prints the global-best value after each iteration.

The model is split into modules by component:

- `Objective` (`objective.dfy`): `F`, the bowl, which is pure.
- `Particles` (`particles.dfy`): the `Particle` record and `InitializeParticles`. This is the
  append loop that builds the list.
- `GlobalBest` (`global_best.dfy`): the scan `ScanGlobalBest`, the invariant `IsGlobalBest`,
  and `MinBest`, an independent definition of the minimum `best_f`.
- `Update` (`update.dfy`): one particle update and one pass.
  - `Move`, `StepAt` and `PassPrefix` are functions that specify them.
  - `UpdateParticle` and `Iterate` are methods that do the same work in place on an
    `array<Particle>` and a global-best index `gb`.
  - Lemmas show that every update keeps the invariants.
- `Optimizer` (`optimizer.dfy`): `Run`, which is `main` without plotting. It covers
  initialisation, the first scan, the iterations and the values that are reported.
  `RunIterations` is the outer loop, proved equal to `Passes`, the k-fold `Pass`.

The aliased global best is modelled as an index into the array. `UpdateParticle` reads the
global best through `gb` after it writes particle `j`. So when `gb == j`, the final
comparison compares the particle with itself and `gb` stays. This is what the aliased
dictionary does at lines 118-119.

Coordinates are `real`. Randomness comes in as parameters:

- a `Draw` holds the four `r.uniform` results for one particle;
- a `Coeffs` holds `(r1, r2)` for one particle.

`Run` reuses one sequence of `Coeffs` in every iteration. This is because of the
`r.seed(777)` call at line 97.

Behaviour of the code worth stating plainly:

- The code does not reject `n <= 0` or inverted bounds as an invalid configuration. When
  `n <= 0`, the list is empty and `particles[0]` at line 90 raises `IndexError`. `Run`
  returns `IndexError` in that case. Inverted bounds are not checked.
- There is no early stop on a convergence threshold. The loop always runs `iterations` times.
- The generator is reseeded at every iteration; this is fixed behaviour, not an option.

## Model

| member | source | states |
|---|---|---|
| `Objective.F` | particleSwarmOp.py:22-23 | the objective is never negative |
| `Objective.FZeroExactlyAtCentre` | particleSwarmOp.py:22-23 | f is zero exactly at (3, 2), and (3, 2) is a global minimiser |
| `Particles.InitializeParticles` | particleSwarmOp.py:38-48 | returns max(n, 0) particles; particle i starts at draw i, and its personal best is its start with `best_f = f(x, y)`; if draw i lies in the position and velocity ranges, so does particle i |
| `GlobalBest.MinBest` | particleSwarmOp.py:89-93 | reference minimum: below or equal to every particle's `best_f` and attained by some particle |
| `GlobalBest.GlobalBestIsMinimum` | particleSwarmOp.py:117-119 | an index is a global best exactly when its `best_f` equals the minimum `best_f` over all particles |
| `GlobalBest.ScanGlobalBest` | particleSwarmOp.py:89-93 | an empty swarm has no global best (IndexError); otherwise it returns an index whose `best_f` is at most every particle's, strictly below that of every earlier particle, so ties go to the lowest index |
| `Update.Move` | particleSwarmOp.py:103-115 | new velocity from inertia, the personal best and the current global best's best position, with no clamping; position plus new velocity; `best_f` never increases and is at most f at the new position; consistency `best_f == f(best_x, best_y)` is kept; the best fields change exactly on strict improvement |
| `Update.StepAt` | particleSwarmOp.py:99-119 | particle j gets `Move` of itself under the global best current at that moment; every other particle is unchanged; the global best becomes j or stays; when it is not already j, it becomes j exactly when j's new `best_f` is strictly below the current global best's (so ties keep the earlier global best); it stays j when it already was j; its `best_f` never increases |
| `Update.StepAtKeepsValid` | particleSwarmOp.py:111-119 | after one particle update, personal bests are still consistent and the global best's `best_f` is again the minimum, also when the global best is j itself |
| `Update.PassPrefix` | particleSwarmOp.py:99-119 | the state after the first k particle updates of a pass, in index order, each under the global best left by the previous one; keeps the swarm's size and a valid global-best index |
| `Update.Pass` | particleSwarmOp.py:99-119 | the state after one whole pass over all particles; keeps the swarm's size and a valid global-best index |
| `Update.PassPrefixValid` | particleSwarmOp.py:99-119 | the invariant (consistent personal bests, global best is a minimum) holds after every single particle update of a pass |
| `Update.PassPrefixMonotone` | particleSwarmOp.py:99-119 | after the first k updates no particle's `best_f` has increased, particles from k on are untouched, and the global best's `best_f` has not increased |
| `Update.PassProperties` | particleSwarmOp.py:95-121 | a whole iteration keeps the invariant, and no personal-best or global-best value increases |
| `Update.UpdateParticle` | particleSwarmOp.py:100-119 | the in-place update of particle j on the array, with the aliased global best read through `gb`, leaves exactly the state `StepAt` specifies |
| `Update.Iterate` | particleSwarmOp.py:99-119 | the in-place inner loop over all particles in index order leaves exactly the state `Pass` specifies |
| `Optimizer.Passes` | particleSwarmOp.py:95-119 | the state after k whole iterations, each a `Pass` with the same draws; keeps the swarm's size and a valid global-best index |
| `Optimizer.PassesProperties` | particleSwarmOp.py:95-121 | after any number of iterations the swarm is still valid, no particle's `best_f` has increased and the global-best value has not increased |
| `Optimizer.PassesBestNonIncreasing` | particleSwarmOp.py:95-121 | the global-best value after j iterations is at most the value after i iterations, for every i <= j |
| `Optimizer.ReportedValues` | particleSwarmOp.py:121 | values that are the global-best values after iterations 1, 2, ... never increase and none exceeds the starting global-best value |
| `Optimizer.RunIterations` | particleSwarmOp.py:95-121 | the array and `gb` end as `Passes` of the starting swarm for `iterations` passes; `history[k]` is the global-best value after pass k+1 (what line 121 prints); the swarm stays valid, no `best_f` increases, the reported values never increase, the last is the final global best's `best_f`, and none exceeds the initial global best's |
| `Optimizer.Run` | particleSwarmOp.py:84-126 | IndexError exactly when `n <= 0`; otherwise n particles with consistent personal bests and a global best whose `best_f` equals the minimum; each particle's `best_f` is at most f at its starting draw; one reported value per iteration, never increasing, ending at the global best's value and at most every particle's initial value |

## Left out

- Plotting (`plot`, lines 50-57, and the checkpoints at lines 87 and 123-124) is graphical output.
- The console output is partly left out. The value printed at line 121 is returned as `history`. The final print at line 126 is left out.
- The random generator (`r.uniform`, `r.random`, `r.seed(777)`) is replaced by the draws it would return, passed in as parameters. Every iteration reuses the same `(r1, r2)` sequence, as the reseed causes.
- Floating point (rounding, overflow, NaN in the `<` comparisons) is not modelled. Coordinates are exact reals.
- The constants hard-coded in `main` (lines 63-82) are configuration. They are parameters of `Run`.
- The model claims nothing about convergence to (3, 2). The source does not guarantee it.
- Update.PassPrefix: its own contract states only the size and the index bound. What a pass preserves is stated by `Update.PassPrefixValid` and `Update.PassPrefixMonotone`.
- Update.Pass: its own contract states only the size and the index bound. What a pass preserves is stated by `Update.PassProperties`.
- Optimizer.Passes: its own contract states only the size and the index bound. What the iterations preserve is stated by `Optimizer.PassesProperties` and `Optimizer.PassesBestNonIncreasing`.
- Optimizer.Run: states the invariants of the final swarm and of the reported values, not the exact final positions. The exact final state, as `Passes` of the initial swarm, and the exact reported values are stated by `Optimizer.RunIterations`, which `Run` calls on the swarm built by `InitializeParticles` and `ScanGlobalBest`.
