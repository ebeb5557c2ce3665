/** universalgp/inf/logistic_regression.py: the baseline logistic-regression
    loss (`LogReg`), the fair variant that re-weights the likelihood with a
    log-debiasing tensor (`FairLogReg`) and the equalized-odds variant that
    only swaps the tensor's source (`EqOddsLogReg`). The dense layer and
    TensorFlow's transcendental functions are inputs: a logit per example and
    the `Numerics` record. */
module LogisticRegression {
  import opened Base

  /** `log_sigmoid`, `sigmoid` and the two-term `reduce_logsumexp`, as given functions. */
  datatype Numerics = Numerics(logSigmoid: real -> real, sigmoid: real -> real, logSumExp: (real, real) -> real)

  /** One batch element: the dense layer's logit (output_dim 1), the label
      from `outputs` and the sensitive attribute from `features['sensitive']`. */
  datatype Example = Example(logit: real, y: int, s: int)

  /** A scalar TensorFlow may report as NaN: the mean over an empty batch. */
  datatype Scalar = Num(v: real) | NaN

  function Plus(a: Scalar, b: real): Scalar {
    match a
    case Num(x) => Num(x + b)
    case NaN => NaN
  }

  /** `-reduce_mean(xs)`. */
  function NegMean(xs: seq<real>): (r: Scalar)
    ensures r.NaN? <==> xs == []
    ensures r.Num? ==> r.v * |xs| as real == -Sum(xs)
  {
    if xs == [] then NaN else Num(-(Sum(xs) / |xs| as real))
  }

  /** The dictionary `inference` returns: 'loss', 'regr_loss', 'l2_loss'. */
  datatype Losses = Losses(loss: Scalar, regrLoss: Scalar, l2Loss: real)

  function MapValues(f: Example --> real, batch: seq<Example>): (r: seq<real>)
    requires forall k :: 0 <= k < |batch| ==> f.requires(batch[k])
    ensures |r| == |batch| && forall k :: 0 <= k < |r| ==> r[k] == f(batch[k])
  {
    seq(|batch|, k requires 0 <= k < |batch| => f(batch[k]))
  }

  // ---------------------------------------------------------------------------
  // LogReg
  // ---------------------------------------------------------------------------

  /** `-sigmoid_cross_entropy_with_logits(labels=y, logits=x)`, which is
      y * log σ(x) + (1 - y) * log σ(-x). */
  function LogCondProb(num: Numerics, e: Example): real {
    e.y as real * num.logSigmoid(e.logit) + (1.0 - e.y as real) * num.logSigmoid(-e.logit)
  }

  /** `LogReg.inference`: negated mean log conditional probability plus the
      L2 term of the dense layer (given as `l2`). */
  function BaseInference(num: Numerics, batch: seq<Example>, l2: real): Losses {
    var regr := NegMean(MapValues(e => LogCondProb(num, e), batch));
    Losses(Plus(regr, l2), regr, l2)
  }

  /** The baseline loss is `regr_loss + l2_loss`; `regr_loss` times the batch
      size is minus the summed log probability of each example's label, and an
      empty batch gives NaN. */
  lemma BaselineLoss(num: Numerics, batch: seq<Example>, l2: real)
    ensures var r := BaseInference(num, batch, l2);
            r.l2Loss == l2 &&
            (r.loss.NaN? <==> batch == []) && (r.regrLoss.NaN? <==> batch == []) &&
            (batch != [] ==> r.loss.v == r.regrLoss.v + l2) &&
            (batch != [] ==>
               r.regrLoss.v * |batch| as real == -Sum(MapValues(e => LogCondProb(num, e), batch)))
  {
  }

  /** A label of 1 scores log σ(x), a label of 0 scores log σ(-x). */
  lemma LogCondProbOfLabel(num: Numerics, e: Example)
    ensures e.y == 1 ==> LogCondProb(num, e) == num.logSigmoid(e.logit)
    ensures e.y == 0 ==> LogCondProb(num, e) == num.logSigmoid(-e.logit)
  {
  }

  /** `LogReg.call`: the sigmoid prediction and an all-zero tensor of the same shape. */
  function Call(num: Numerics, logits: seq<real>): (r: (seq<real>, seq<real>))
    ensures |r.0| == |logits| && |r.1| == |logits|
    ensures forall k :: 0 <= k < |logits| ==> r.0[k] == num.sigmoid(logits[k]) && r.1[k] == 0.0
  {
    (seq(|logits|, k requires 0 <= k < |logits| => num.sigmoid(logits[k])), seq(|logits|, _ => 0.0))
  }

  // ---------------------------------------------------------------------------
  // FairLogReg, EqOddsLogReg
  // ---------------------------------------------------------------------------

  /** The log-debiasing tensor: `t[y][s]` is the pair (ŷ = 0, ŷ = 1). */
  type DebiasTensor = seq<seq<(real, real)>>

  /** The (y, s) index of example `e` exists in `t`; `gather_nd` fails otherwise. */
  predicate InRange(t: DebiasTensor, e: Example) {
    0 <= e.y < |t| && 0 <= e.s < |t[e.y]|
  }

  predicate AllInRange(t: DebiasTensor, batch: seq<Example>) {
    forall k :: 0 <= k < |batch| ==> InRange(t, batch[k])
  }

  /** `reduce_logsumexp` over ŷ of the gathered row `t[y][s]` plus
      (log σ(-x), log σ(x)) — index 0 is ŷ = 0, index 1 is ŷ = 1. */
  function FairLogCondProb(num: Numerics, t: DebiasTensor, e: Example): real
    requires InRange(t, e)
  {
    var row := t[e.y][e.s];
    num.logSumExp(row.0 + num.logSigmoid(-e.logit), row.1 + num.logSigmoid(e.logit))
  }

  /** The training branch of `FairLogReg.inference` for a given tensor. */
  function FairTrainingLosses(num: Numerics, t: DebiasTensor, batch: seq<Example>, l2: real): Result<Losses> {
    if !AllInRange(t, batch) then Err(InvalidArgumentError)
    else
      var regr := NegMean(MapValues(e requires InRange(t, e) => FairLogCondProb(num, t, e), batch));
      Ok(Losses(Plus(regr, l2), regr, l2))
  }

  datatype Model = LogReg | FairLogReg | EqOddsLogReg

  /** What `debiasing_params_target_rate(args)` and
      `debiasing_params_target_tpr(args)` return for the run's arguments. */
  datatype DebiasSources = DebiasSources(targetRate: DebiasTensor, targetTpr: DebiasTensor)

  /** `_log_debiasing_parameters`: the one method `EqOddsLogReg` overrides. */
  function LogDebiasingParameters(model: Model, sources: DebiasSources): DebiasTensor
    requires model != LogReg
  {
    if model == FairLogReg then sources.targetRate else sources.targetTpr
  }

  /** `model.inference(features, outputs, is_train)`. */
  function Inference(model: Model, num: Numerics, sources: DebiasSources, batch: seq<Example>,
                     l2: real, isTrain: bool): Result<Losses>
  {
    if model == LogReg || !isTrain then Ok(BaseInference(num, batch, l2))
    else FairTrainingLosses(num, LogDebiasingParameters(model, sources), batch, l2)
  }

  /** Outside training every model returns exactly the baseline result. */
  lemma EvaluationUsesBaseline(model: Model, num: Numerics, sources: DebiasSources,
                               batch: seq<Example>, l2: real)
    ensures Inference(model, num, sources, batch, l2, false) == Ok(BaseInference(num, batch, l2))
  {
  }

  /** The per-example values of the fair loss: example k reads the row
      `t[y_k][s_k]` (true label first, then group), adds log σ(-x_k) to its
      ŷ = 0 entry and log σ(x_k) to its ŷ = 1 entry, and reduces with logsumexp. */
  function FairValues(num: Numerics, t: DebiasTensor, batch: seq<Example>): (v: seq<real>)
    requires AllInRange(t, batch)
    ensures |v| == |batch|
    ensures forall k :: 0 <= k < |batch| ==>
              v[k] == num.logSumExp(t[batch[k].y][batch[k].s].0 + num.logSigmoid(-batch[k].logit),
                                    t[batch[k].y][batch[k].s].1 + num.logSigmoid(batch[k].logit))
  {
    MapValues(e requires InRange(t, e) => FairLogCondProb(num, t, e), batch)
  }

  /** The training loss of the fair models fails exactly when some (y, s) is
      not an index of the tensor; otherwise it is the negated mean of the
      per-example values plus the same L2 term as the baseline. */
  lemma FairTrainingLoss(model: Model, num: Numerics, sources: DebiasSources,
                         batch: seq<Example>, l2: real)
    requires model != LogReg
    ensures var t := LogDebiasingParameters(model, sources);
            var r := Inference(model, num, sources, batch, l2, true);
            (r.Err? <==> exists k :: 0 <= k < |batch| && !InRange(t, batch[k])) &&
            (r.Ok? ==>
               r.value.l2Loss == l2 && r.value.loss == Plus(r.value.regrLoss, l2) &&
               (r.value.regrLoss.NaN? <==> batch == []) &&
               (batch != [] ==>
                  r.value.regrLoss.v * |batch| as real == -Sum(FairValues(num, t, batch))))
  {
  }

  /** `EqOddsLogReg` is `FairLogReg` reading the target-TPR tensor instead of the target-rate one. */
  lemma EqOddsSwapsSource(num: Numerics, sources: DebiasSources, batch: seq<Example>, l2: real, isTrain: bool)
    ensures Inference(EqOddsLogReg, num, sources, batch, l2, isTrain) ==
            Inference(FairLogReg, num, DebiasSources(sources.targetTpr, sources.targetRate), batch, l2, isTrain)
  {
  }

  /** With an all-zero tensor the fair training loss depends on the logits
      alone: labels and groups are marginalised away, so it is not the
      baseline loss. */
  lemma ZeroDebiasIgnoresLabels(num: Numerics, t: DebiasTensor, batch: seq<Example>, batch': seq<Example>, l2: real)
    requires forall y, s :: 0 <= y < |t| && 0 <= s < |t[y]| ==> t[y][s] == (0.0, 0.0)
    requires |batch| == |batch'| && AllInRange(t, batch) && AllInRange(t, batch')
    requires forall k :: 0 <= k < |batch| ==> batch[k].logit == batch'[k].logit
    ensures FairTrainingLosses(num, t, batch, l2) == FairTrainingLosses(num, t, batch', l2)
  {
    var f := e requires InRange(t, e) => FairLogCondProb(num, t, e);
    assert MapValues(f, batch) == MapValues(f, batch');
  }

  /** Since σ(-x) + σ(x) = 1, logsumexp(log σ(-x), log σ(x)) is 0 for the true
      functions. Under that identity the fair training loss with an all-zero
      tensor is the L2 term alone, whatever the batch: zero debiasing does not
      reproduce the baseline loss. */
  lemma ZeroDebiasLossIsL2(num: Numerics, t: DebiasTensor, batch: seq<Example>, l2: real)
    requires forall x :: num.logSumExp(num.logSigmoid(-x), num.logSigmoid(x)) == 0.0
    requires forall y, s :: 0 <= y < |t| && 0 <= s < |t[y]| ==> t[y][s] == (0.0, 0.0)
    requires batch != [] && AllInRange(t, batch)
    ensures FairTrainingLosses(num, t, batch, l2) == Ok(Losses(Num(l2), Num(0.0), l2))
  {
    var v := FairValues(num, t, batch);
    forall k | 0 <= k < |v| ensures v[k] == 0.0 {
      var e := batch[k];
      assert t[e.y][e.s] == (0.0, 0.0);
      assert v[k] == num.logSumExp(num.logSigmoid(-e.logit), num.logSigmoid(e.logit));
    }
    SumZeros(v);
    assert MapValues(e requires InRange(t, e) => FairLogCondProb(num, t, e), batch) == v;
  }

  lemma {:induction false} SumZeros(v: seq<real>)
    requires forall k :: 0 <= k < |v| ==> v[k] == 0.0
    ensures Sum(v) == 0.0
  {
    if v != [] {
      SumZeros(v[1..]);
    }
  }

  lemma MapValuesRemove(f: Example --> real, b: seq<Example>, p: nat, rest: seq<Example>)
    requires p < |b| && rest == b[..p] + b[p + 1..]
    requires forall k :: 0 <= k < |b| ==> f.requires(b[k])
    ensures forall k :: 0 <= k < |rest| ==> f.requires(rest[k])
    ensures MapValues(f, b)[..p] + MapValues(f, b)[p + 1..] == MapValues(f, rest)
  {
    forall k | 0 <= k < |rest| ensures f.requires(rest[k]) {
      assert rest[k] == if k < p then b[k] else b[k + 1];
    }
  }

  lemma {:induction false} SumMapPermutation(f: Example --> real, a: seq<Example>, b: seq<Example>)
    requires multiset(a) == multiset(b)
    requires forall k :: 0 <= k < |a| ==> f.requires(a[k])
    requires forall k :: 0 <= k < |b| ==> f.requires(b[k])
    ensures Sum(MapValues(f, a)) == Sum(MapValues(f, b))
    decreases |a|
  {
    if a == [] {
      assert |b| == |multiset(b)| == 0;
    } else {
      var p := MatchHead(a, b);
      var rest := b[..p] + b[p + 1..];
      MapValuesRemove(f, b, p, rest);
      SumMapPermutation(f, a[1..], rest);
      SumRemove(MapValues(f, b), p);
      assert MapValues(f, a)[1..] == MapValues(f, a[1..]);
    }
  }

  lemma InRangePermutation(t: DebiasTensor, a: seq<Example>, b: seq<Example>)
    requires multiset(a) == multiset(b) && AllInRange(t, a)
    ensures AllInRange(t, b)
  {
    forall k | 0 <= k < |b| ensures InRange(t, b[k]) {
      assert b[k] in multiset(a);
    }
  }

  /** The loss is a reduction: reordering the batch changes nothing, for every
      model, in training and in evaluation. */
  lemma BatchOrderIrrelevant(model: Model, num: Numerics, sources: DebiasSources,
                             batch: seq<Example>, batch': seq<Example>, l2: real, isTrain: bool)
    requires multiset(batch) == multiset(batch')
    ensures Inference(model, num, sources, batch, l2, isTrain) ==
            Inference(model, num, sources, batch', l2, isTrain)
  {
    assert |batch| == |multiset(batch)| == |batch'|;
    if model == LogReg || !isTrain {
      SumMapPermutation(e => LogCondProb(num, e), batch, batch');
    } else {
      var t := LogDebiasingParameters(model, sources);
      if AllInRange(t, batch) {
        InRangePermutation(t, batch, batch');
        SumMapPermutation(e requires InRange(t, e) => FairLogCondProb(num, t, e), batch, batch');
      } else if AllInRange(t, batch') {
        InRangePermutation(t, batch', batch);
      }
    }
  }
}
