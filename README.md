# Metropolis–Hastings chain and display masks

This project models two discrete pieces of a small MCMC demonstrator:

- **The random-walk Metropolis–Hastings loop** of `metropolis_hastings_proposals`
  (`mcmc.py`, module `Mcmc` in `mcmc.dfy`). The chain starts at `x_0`, or at the
  zero vector of dimension `x_dim` when `x_0` is `None`. At every one of the
  `n_proposals` steps it proposes `current + proposal_noise[i]`. It accepts the
  proposal outright when `pdf_ratio + proposal_ratio > 0`. Otherwise it accepts
  only when `acceptance_noise[i] > acceptance_prob`. It then appends the proposal
  or the unchanged current state. States are `seq<real>` with elementwise
  addition. The target log-density and the proposal log-density (the standard
  normal centred at the origin) are uninterpreted parameters of type
  `Vector -> real`. All randomness is passed in, so the loop is a deterministic
  function of its inputs. The method `MetropolisHastingsProposals` runs the
  loop with its cached log-densities. It is proved equal to the recursive
  specification `Chain`/`Prefix`, and the lemmas state what every step of a
  returned chain does.
- **The burn-in / sample-interval display masks** built in `interactive`
  (`plot.py`, module `Plot` in `plot.dfy`). numpy allocates an all-true and an
  all-false boolean array of length `n_proposals`. It clears `mask[:burn_in]`
  in the first and sets `mask[::interval]` in the second, then ANDs them. The
  model keeps the arrays and the in-place updates. Python's slice rules are
  written out: a negative stop counts from the end, a stop past the end is
  clipped, a negative step walks from the back, and a zero step raises. The
  slider callback (plot.py:85-91) repeats lines 63-69 word for word. Both sites
  are therefore modelled by the one method `BuildMask`. Its result is fixed by
  `DisplayMask(n, burn_in, interval)`, so rebuilding from unchanged slider
  values gives back the same mask.

`wrappers.dfy` holds the `Option` and `Result` types both modules use.

The loop is unreachable in the repository as written. `mcmc.py:28` unpacks the
density argument as a pair, and `mcmc.py:30-37` runs a TensorFlow-Probability
Hamiltonian Monte Carlo chain and returns. That path is taken whenever line 28
succeeds, that is, when the density argument is a pair. The repository's own
caller (plot.py:55, forwarded at metropolis_hastings.py:56) passes a bare
function, so line 28 raises a TypeError before either path runs. The model describes the intended
Metropolis–Hastings loop at `mcmc.py:55-100`. Inside that loop the target
density is called as `unnormalized_log_pdf`, the argument as passed in. The
model takes it to be the log-density function itself.

What the code does at its edges:

- Shapes are not checked up front. With NumPy inputs the code raises only
  when a step reaches a missing noise row or entry, and the model follows that
  raising behaviour. `acceptance_noise[i]` is read only on steps that do not
  improve the criterion. A short acceptance noise array therefore fails only
  if such a step reaches the missing entry (`Step`, `ImprovingStepAccepted`).
- `acceptance_prob` is unbounded, and its slider (metropolis_hastings.py:88)
  ranges over 0 to 1000.
- A zero or negative `n_proposals` makes `range` empty, and the code returns
  `[x_0]` (`Iterations`).
- The docstring promises `n_proposals` rows. The loop returns `n_proposals + 1`
  states, the first being `x_0`.

## Model

| member | source | states |
|---|---|---|
| `Mcmc.Zeros` | mcmc.py:55 | `np.zeros(x_dim)` has `x_dim` coordinates, every one 0 |
| `Mcmc.Add` | mcmc.py:72 | the proposal `current_x + proposal_noise[i,:]` has the same dimension, and coordinate k is the sum of the two coordinates k |
| `Mcmc.Prefix` | mcmc.py:55-98 | after k passes the list `proposals` has k + 1 states, starts with `x_0` (or the zero vector), and every state has `x_dim` coordinates |
| `Mcmc.PrefixFailureSticks` | mcmc.py:63-100 | an error raised at some step is the error of the whole call: no partial chain is returned |
| `Mcmc.PrefixOfPrefix` | mcmc.py:56-98 | the loop only appends: the list after j passes is a prefix of the list after k >= j passes |
| `Mcmc.ChainStep` | mcmc.py:69-98 | element i+1 of a returned chain is the outcome of step i applied to element i |
| `Mcmc.ChainStepRelation` | mcmc.py:69-98 | element i+1 of a returned chain is element i, or element i plus `proposal_noise[i]` elementwise |
| `Mcmc.ImprovingStepAccepted` | mcmc.py:79-87 | when `pdf_ratio + proposal_ratio > 0` at step i, element i+1 is the proposal, and the step has the same outcome for any acceptance noise |
| `Mcmc.NonImprovingStepDecidedByNoise` | mcmc.py:88-98 | when the ratio sum is <= 0, `acceptance_noise[i]` exists; the step takes the proposal if that entry is > `acceptance_prob`, and otherwise repeats element i exactly |
| `Mcmc.HighThresholdOnlyImproves` | mcmc.py:83-96 | if `acceptance_prob` is at least every acceptance-noise entry, the chain moves only on steps whose ratio sum is positive |
| `Mcmc.WellShapedPrefixSucceeds` | mcmc.py:55-98 | with a start of dimension `x_dim` and a noise row of that dimension and an acceptance entry for every step, no pass of the loop raises |
| `Mcmc.WellShapedChainSucceeds` | mcmc.py:55-100 | on such inputs the call returns a chain |
| `Mcmc.ExampleStep0` | mcmc.py:72-93 | in the worked run, step 0 lowers the criterion (its ratio sum is negative) and is still accepted, by its noise 0.9 > 0.5 |
| `Mcmc.ExampleStep1` | mcmc.py:72-87 | in the worked run, step 1 raises the criterion and is accepted |
| `Mcmc.ExampleStep2` | mcmc.py:72-96 | in the worked run, step 2 lowers the criterion, its noise 0.3 <= 0.5, and it is rejected |
| `Mcmc.ExampleChain` | mcmc.py:55-100 | a two-dimensional run with a quadratic target from the origin returns the chain (0,0), (1,1), (0,0), (0,0) |
| `Mcmc.MetropolisHastingsProposals` | mcmc.py:55-100 | the loop, with the two log-densities of the last appended state cached (a loop invariant), returns exactly `Chain` of its inputs: `n_proposals + 1` states (or just `x_0` for a negative count), starting at `x_0` or the zero vector, or the error Python raises |
| `Plot.SliceStop` | plot.py:64 | the end of `mask[:burn_in]` never passes the array length, and a non-negative `burn_in` is clipped to that length |
| `Plot.DisplayMaskKeeps` | plot.py:63-69 | the combined mask has `n_proposals` entries; entry i is true exactly when i is past the burn-in and on the interval stride; only a zero interval raises |
| `Plot.SliderMaskKeeps` | plot.py:48-69 | for slider values (burn-in >= 0, interval >= 1) entry i is kept exactly when i >= burn-in and i mod interval = 0 |
| `Plot.LongBurnInHidesAll` | plot.py:64-69 | a burn-in of at least `n_proposals` makes the combined mask all false |
| `Plot.MaskOmitsLastSample` | plot.py:63-66 | the mask has one entry fewer than a returned chain has states, so the last state has no mask entry |
| `Plot.ClearPrefix` | plot.py:64 | `mask[:stop] = False` turns the first `SliceStop(stop, n)` entries false and keeps the rest |
| `Plot.SetStride` | plot.py:67 | `mask[::step] = True` turns the entries on the stride true and keeps the rest; a zero step raises and changes nothing |
| `Plot.And` | plot.py:69 | `a & b` is a new array of the arrays' length, and entry i is `a[i] && b[i]` |
| `Plot.BuildMask` | plot.py:63-69 | building the two masks in place and ANDing them gives exactly `DisplayMask(n_proposals, burn_in, interval)`, or the zero-step error, in a newly allocated array; the callback at plot.py:85-91 runs the same lines, so it rebuilds the same mask |

## Left out

- Mcmc.Step: follows NumPy's indexing, where reading a missing row of `proposal_noise` or a missing entry of `acceptance_noise` raises (`ProposalNoiseMissing`, `AcceptanceNoiseMissing`). The repository's caller (metropolis_hastings.py:52-53) passes JAX arrays, whose out-of-bounds reads are clamped to the last row or entry instead of raising. That clamping is not modelled.
- The Hamiltonian Monte Carlo path at mcmc.py:28-37 and the commented-out block at mcmc.py:40-52: a foreign library call. It is the path taken whenever line 28 succeeds, that is, when the density argument is a pair; the repository's own caller passes a bare function, so line 28 raises before either path runs.
- `normal_log_pdf` (util.py) and `gaussian_mixture_log_pdf` (pdfs.py): floating-point numerics with matrix inverses, determinants and log-sum-exp. Both are uninterpreted `Vector -> real` parameters. An exception raised inside a density is not modelled.
- Floating point: states and log-densities are exact reals, so rounding, infinities and NaN comparisons are not modelled.
- numpy broadcasting: adding a length-1 noise row to a longer state, or a start point of length 1, would broadcast in numpy. The model reports such shapes as errors (`ProposalNoiseShape`, `StartShape`).
- A negative `x_dim`, for which `np.zeros` raises, is excluded by the type `nat`.
- The `MetropolisHastings` session class (metropolis_hastings.py): random-key splitting, noise drawing, the pandas DataFrame and the bokeh data source are library behaviour. The noise arrays it draws are inputs here.
- plot.py's figure, glyphs, `CDSView`/`BooleanFilter` wiring, the sliders' `on_change` registration and `curdoc`: UI and event plumbing. The slider values are plain parameters of `BuildMask`.
- Statistical properties (detailed balance, the stationary distribution, independence of the random streams) are probabilistic and not stated.
