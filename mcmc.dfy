/**
 * The random-walk Metropolis–Hastings accept/reject loop of
 * `metropolis_hastings_proposals` (mcmc.py).
 *
 * All randomness (the proposal noise and the acceptance noise) is handed in up
 * front, so the chain is a deterministic function of the inputs. The target
 * log-density and the proposal log-density (the standard normal log-density
 * centred at the origin) are left uninterpreted: they are parameters of type
 * `Vector -> real`.
 */
module Mcmc {
  import opened Wrappers

  /** A point of the state space R^x_dim. */
  type Vector = seq<real>

  /** An unnormalised log-density evaluated at one point. */
  type LogDensity = Vector -> real

  /** The ways in which the loop raises instead of returning a chain. */
  datatype Error =
    | StartShape                        // x_0 does not have x_dim coordinates
    | ProposalNoiseMissing(step: nat)   // proposal_noise has no row `step`
    | ProposalNoiseShape(step: nat)     // row `step` of proposal_noise does not fit the current state
    | AcceptanceNoiseMissing(step: nat) // acceptance_noise has no entry `step`

  /** The arguments of `metropolis_hastings_proposals`. */
  datatype Inputs = Inputs(
    logPdf: LogDensity,          // unnormalized_log_pdf
    proposalLogPdf: LogDensity,  // normal_log_pdf(., zeros(x_dim), eye(x_dim))
    proposalNoise: seq<Vector>,  // proposal_noise, one row per step
    acceptanceNoise: seq<real>,  // acceptance_noise, one entry per step
    acceptanceProb: real,        // acceptance_prob
    nProposals: int,             // n_proposals
    xDim: nat,                   // x_dim
    x0: Option<Vector>)          // x_0, None for the zero vector

  /** The zero vector of dimension d (`np.zeros(d)`). */
  function Zeros(d: nat): (z: Vector)
    ensures |z| == d
    ensures forall k :: 0 <= k < d ==> z[k] == 0.0
  {
    if d == 0 then [] else Zeros(d - 1) + [0.0]
  }

  /** Elementwise sum of two vectors of the same dimension. */
  function Add(u: Vector, v: Vector): (w: Vector)
    requires |u| == |v|
    ensures |w| == |u|
    ensures forall k :: 0 <= k < |w| ==> w[k] == u[k] + v[k]
  {
    if u == [] then [] else [u[0] + v[0]] + Add(u[1..], v[1..])
  }

  /** The state the chain starts from: x_0, or the zero vector when x_0 is None. */
  function StartState(inp: Inputs): Vector
  {
    if inp.x0.None? then Zeros(inp.xDim) else inp.x0.value
  }

  /** How many times `for i in range(n)` runs its body. */
  function Iterations(n: int): nat
  {
    if n < 0 then 0 else n
  }

  /** The acceptance criterion `pdf_ratio + proposal_ratio` for moving from `current` to `proposal`. */
  function RatioSum(inp: Inputs, current: Vector, proposal: Vector): real
  {
    (inp.logPdf(proposal) - inp.logPdf(current))
      + (inp.proposalLogPdf(proposal) - inp.proposalLogPdf(current))
  }

  /** Step i can form its proposal from `current`. */
  predicate CanPropose(inp: Inputs, i: nat, current: Vector)
  {
    i < |inp.proposalNoise| && |inp.proposalNoise[i]| == |current|
  }

  /** The proposal of step i: `current + proposal_noise[i, :]`. */
  function Proposal(inp: Inputs, i: nat, current: Vector): Vector
    requires CanPropose(inp, i, current)
  {
    Add(current, inp.proposalNoise[i])
  }

  /** The proposal of step i raises the acceptance criterion above zero. */
  predicate Improves(inp: Inputs, i: nat, current: Vector)
  {
    CanPropose(inp, i, current) && RatioSum(inp, current, Proposal(inp, i, current)) > 0.0
  }

  /**
   * One pass of the loop body from state `current`: the state appended to the
   * chain, or the error Python raises. The acceptance noise is only read when
   * the proposal does not improve the criterion.
   */
  function Step(inp: Inputs, i: nat, current: Vector): Result<Vector, Error>
  {
    if i >= |inp.proposalNoise| then Failure(ProposalNoiseMissing(i))
    else if |inp.proposalNoise[i]| != |current| then Failure(ProposalNoiseShape(i))
    else
      var proposal := Proposal(inp, i, current);
      if RatioSum(inp, current, proposal) > 0.0 then Success(proposal)
      else if i >= |inp.acceptanceNoise| then Failure(AcceptanceNoiseMissing(i))
      else if inp.acceptanceNoise[i] > inp.acceptanceProb then Success(proposal)
      else Success(current)
  }

  /**
   * The list `proposals` after k passes of the loop: the start state followed
   * by one state per step, every one of dimension x_dim.
   */
  function Prefix(inp: Inputs, k: nat): (r: Result<seq<Vector>, Error>)
    ensures r.Success? ==> |r.value| == k + 1 && r.value[0] == StartState(inp)
    ensures r.Success? ==> forall j :: 0 <= j <= k ==> |r.value[j]| == inp.xDim
    decreases k
  {
    if k == 0 then
      var x0 := StartState(inp);
      if |x0| != inp.xDim then Failure(StartShape) else Success([x0])
    else
      match Prefix(inp, k - 1)
      case Failure(e) => Failure(e)
      case Success(c) =>
        match Step(inp, k - 1, c[k - 1])
        case Failure(e) => Failure(e)
        case Success(x) => Success(c + [x])
  }

  /** The value `metropolis_hastings_proposals` returns, or the error it raises. */
  function Chain(inp: Inputs): Result<seq<Vector>, Error>
  {
    Prefix(inp, Iterations(inp.nProposals))
  }

  /** An error raised after k passes is the error of every longer run. */
  lemma {:induction false} PrefixFailureSticks(inp: Inputs, k: nat, m: nat)
    requires Prefix(inp, k).Failure?
    requires k <= m
    ensures Prefix(inp, m) == Prefix(inp, k)
    decreases m
  {
    if m > k {
      PrefixFailureSticks(inp, k, m - 1);
    }
  }

  /** A successful run of k passes extends the successful run of every j <= k passes. */
  lemma {:induction false} PrefixOfPrefix(inp: Inputs, k: nat, j: nat)
    requires Prefix(inp, k).Success?
    requires j <= k
    ensures Prefix(inp, j) == Success(Prefix(inp, k).value[..j + 1])
    decreases k
  {
    if j < k {
      var c := Prefix(inp, k - 1).value;
      assert Prefix(inp, k).value == c + [Prefix(inp, k).value[k]];
      PrefixOfPrefix(inp, k - 1, j);
      assert Prefix(inp, k).value[..j + 1] == c[..j + 1];
    } else {
      assert Prefix(inp, k).value[..j + 1] == Prefix(inp, k).value;
    }
  }

  /** Element i+1 of a returned chain is what step i makes of element i. */
  lemma ChainStep(inp: Inputs, c: seq<Vector>, i: nat)
    requires Chain(inp) == Success(c)
    requires i < Iterations(inp.nProposals)
    ensures Step(inp, i, c[i]) == Success(c[i + 1])
  {
    PrefixOfPrefix(inp, Iterations(inp.nProposals), i + 1);
    var p := c[..i + 2];
    assert p[i] == c[i] && p[i + 1] == c[i + 1];
    PrefixOfPrefix(inp, i + 1, i);
  }

  /**
   * Every step of a returned chain either repeats the previous state or moves
   * it by exactly that step's proposal noise.
   */
  lemma ChainStepRelation(inp: Inputs, c: seq<Vector>, i: nat)
    requires Chain(inp) == Success(c)
    requires i < Iterations(inp.nProposals)
    ensures CanPropose(inp, i, c[i])
    ensures c[i + 1] == c[i] || c[i + 1] == Add(c[i], inp.proposalNoise[i])
  {
    ChainStep(inp, c, i);
  }

  /**
   * A step whose proposal raises the criterion above zero is accepted, and the
   * outcome of that step is the same whatever the acceptance noise is.
   */
  lemma ImprovingStepAccepted(inp: Inputs, c: seq<Vector>, i: nat, otherNoise: seq<real>)
    requires Chain(inp) == Success(c)
    requires i < Iterations(inp.nProposals)
    requires Improves(inp, i, c[i])
    ensures c[i + 1] == Proposal(inp, i, c[i])
    ensures Step(inp.(acceptanceNoise := otherNoise), i, c[i]) == Success(c[i + 1])
  {
    ChainStep(inp, c, i);
  }

  /**
   * A step whose proposal does not raise the criterion above zero had an
   * acceptance-noise entry, and is accepted exactly when that entry exceeds
   * acceptance_prob; otherwise the state repeats unchanged.
   */
  lemma NonImprovingStepDecidedByNoise(inp: Inputs, c: seq<Vector>, i: nat)
    requires Chain(inp) == Success(c)
    requires i < Iterations(inp.nProposals)
    requires !Improves(inp, i, c[i])
    ensures CanPropose(inp, i, c[i]) && i < |inp.acceptanceNoise|
    ensures inp.acceptanceNoise[i] > inp.acceptanceProb ==> c[i + 1] == Proposal(inp, i, c[i])
    ensures inp.acceptanceNoise[i] <= inp.acceptanceProb ==> c[i + 1] == c[i]
  {
    ChainStep(inp, c, i);
  }

  /**
   * When acceptance_prob is at least every acceptance-noise entry, the chain
   * only moves on steps that improve the criterion.
   */
  lemma HighThresholdOnlyImproves(inp: Inputs, c: seq<Vector>, i: nat)
    requires Chain(inp) == Success(c)
    requires i < Iterations(inp.nProposals)
    requires forall j :: 0 <= j < |inp.acceptanceNoise| ==> inp.acceptanceNoise[j] <= inp.acceptanceProb
    ensures !Improves(inp, i, c[i]) ==> c[i + 1] == c[i]
    ensures c[i + 1] != c[i] ==> Improves(inp, i, c[i])
  {
    if !Improves(inp, i, c[i]) {
      NonImprovingStepDecidedByNoise(inp, c, i);
    }
  }

  /** The noise arrays have a row or entry for every step and fit the start state. */
  predicate WellShaped(inp: Inputs)
  {
    var n := Iterations(inp.nProposals);
    |StartState(inp)| == inp.xDim
    && n <= |inp.proposalNoise| && n <= |inp.acceptanceNoise|
    && forall i :: 0 <= i < n ==> |inp.proposalNoise[i]| == inp.xDim
  }

  /** Inputs of the shapes the caller promises never make the loop raise. */
  lemma {:induction false} WellShapedPrefixSucceeds(inp: Inputs, k: nat)
    requires WellShaped(inp)
    requires k <= Iterations(inp.nProposals)
    ensures Prefix(inp, k).Success?
    decreases k
  {
    if k > 0 {
      WellShapedPrefixSucceeds(inp, k - 1);
    }
  }

  /** A chain run on well-shaped inputs is always returned. */
  lemma WellShapedChainSucceeds(inp: Inputs)
    requires WellShaped(inp)
    ensures Chain(inp).Success?
  {
    WellShapedPrefixSucceeds(inp, Iterations(inp.nProposals));
  }

  /** A successful run of k passes followed by a successful step k is a run of k + 1 passes. */
  lemma PrefixExtend(inp: Inputs, k: nat, c: seq<Vector>, x: Vector)
    requires Prefix(inp, k) == Success(c)
    requires Step(inp, k, c[k]) == Success(x)
    ensures Prefix(inp, k + 1) == Success(c + [x])
  {
  }

  /** The log-density of the standard normal in two dimensions, up to its constant. */
  function QuadraticLogPdf(x: Vector): real
  {
    if |x| == 2 then -(x[0] * x[0] + x[1] * x[1]) / 2.0 else 0.0
  }

  /** The inputs of a worked three-step run from the origin. */
  function ExampleInputs(): Inputs
  {
    Inputs(QuadraticLogPdf, QuadraticLogPdf,
           [[1.0, 1.0], [-1.0, -1.0], [0.5, 0.5]], [0.9, 0.1, 0.3],
           0.5, 3, 2, None)
  }

  /** Step 0 of the worked run: (1, 1) lowers the criterion but its noise 0.9 exceeds 0.5. */
  lemma ExampleStep0()
    ensures RatioSum(ExampleInputs(), [0.0, 0.0], [1.0, 1.0]) < 0.0
    ensures Step(ExampleInputs(), 0, [0.0, 0.0]) == Success([1.0, 1.0])
  {
    var p := Add([0.0, 0.0], [1.0, 1.0]);
    assert p[0] == 1.0 && p[1] == 1.0;
    assert p == [1.0, 1.0];
    assert RatioSum(ExampleInputs(), [0.0, 0.0], p) == -2.0;
  }

  /** Step 1 of the worked run: back to the origin raises the criterion. */
  lemma ExampleStep1()
    ensures Step(ExampleInputs(), 1, [1.0, 1.0]) == Success([0.0, 0.0])
  {
    var p := Add([1.0, 1.0], [-1.0, -1.0]);
    assert p[0] == 0.0 && p[1] == 0.0;
    assert p == [0.0, 0.0];
    assert RatioSum(ExampleInputs(), [1.0, 1.0], p) == 2.0;
  }

  /** Step 2 of the worked run: (0.5, 0.5) lowers the criterion and its noise 0.3 does not exceed 0.5. */
  lemma ExampleStep2()
    ensures Step(ExampleInputs(), 2, [0.0, 0.0]) == Success([0.0, 0.0])
  {
  }

  /**
   * The worked run: the first step is accepted by its noise, the second
   * improves and is accepted, the third neither improves nor passes its
   * noise and is rejected.
   */
  lemma ExampleChain()
    ensures Chain(ExampleInputs()) == Success([[0.0, 0.0], [1.0, 1.0], [0.0, 0.0], [0.0, 0.0]])
  {
    var inp := ExampleInputs();
    var o, a := [0.0, 0.0], [1.0, 1.0];
    assert StartState(inp) == Zeros(2) == o;
    assert Prefix(inp, 0) == Success([o]);
    ExampleStep0();
    ExampleStep1();
    ExampleStep2();
    PrefixExtend(inp, 0, [o], a);
    assert [o] + [a] == [o, a];
    PrefixExtend(inp, 1, [o, a], o);
    assert [o, a] + [o] == [o, a, o];
    PrefixExtend(inp, 2, [o, a, o], o);
    assert [o, a, o] + [o] == [o, a, o, o];
  }

  /**
   * The loop of `metropolis_hastings_proposals`: it appends one state per
   * step to `proposals`, keeping the two log-densities of the last appended
   * state cached instead of re-evaluating them.
   */
  method MetropolisHastingsProposals(inp: Inputs) returns (r: Result<seq<Vector>, Error>)
    ensures r == Chain(inp)
    ensures r.Success? ==> |r.value| == Iterations(inp.nProposals) + 1 && r.value[0] == StartState(inp)
  {
    var x0 := if inp.x0.None? then Zeros(inp.xDim) else inp.x0.value;
    var proposals := [x0];
    var currentLikelihood := inp.logPdf(x0);
    if |x0| != inp.xDim {
      // normal_log_pdf cannot evaluate a point of the wrong dimension
      PrefixFailureSticks(inp, 0, Iterations(inp.nProposals));
      return Failure(StartShape);
    }
    var currentProposal := inp.proposalLogPdf(x0);
    var n := Iterations(inp.nProposals);
    for i := 0 to n
      invariant Prefix(inp, i) == Success(proposals)
      invariant currentLikelihood == inp.logPdf(proposals[i])
      invariant currentProposal == inp.proposalLogPdf(proposals[i])
    {
      var current := proposals[|proposals| - 1];
      if i >= |inp.proposalNoise| || |inp.proposalNoise[i]| != |current| {
        r := if i >= |inp.proposalNoise| then Failure(ProposalNoiseMissing(i)) else Failure(ProposalNoiseShape(i));
        PrefixFailureSticks(inp, i + 1, n);
        return;
      }
      var proposal := Add(current, inp.proposalNoise[i]);
      var proposalLikelihood := inp.logPdf(proposal);
      var proposalProposal := inp.proposalLogPdf(proposal);
      var pdfRatio := proposalLikelihood - currentLikelihood;
      var proposalRatio := proposalProposal - currentProposal;
      if pdfRatio + proposalRatio > 0.0 {
        current, currentLikelihood, currentProposal := proposal, proposalLikelihood, proposalProposal;
      } else if i >= |inp.acceptanceNoise| {
        r := Failure(AcceptanceNoiseMissing(i));
        PrefixFailureSticks(inp, i + 1, n);
        return;
      } else if inp.acceptanceNoise[i] > inp.acceptanceProb {
        current, currentLikelihood, currentProposal := proposal, proposalLikelihood, proposalProposal;
      }
      proposals := proposals + [current];
    }
    r := Success(proposals);
  }
}
