/**
 * ProbeMeasure: the measure that carries a probe's pre-operation value. It
 * has no time derivatives, depends on the Acceleration stage and takes
 * component 0 of the probe's computeProbeValue.
 */
module ProbeMeasures {
  import opened Wrappers
  import opened FixedFormat
  import opened Host

  function NumTimeDerivatives(): (n: nat)
    ensures n == 0
  {
    0
  }

  function DependsOnStage(order: int): (st: Stage)
    ensures st == Acceleration
  {
    Acceleration
  }

  const DerivOrderMessagePrefix := "ProbeMeasure::Implementation::calcCachedValueVirtual(): derivOrder "
  const DerivOrderMessageSuffix := " seen but only 0 allowed."

  /**
   * The cached value of the measure for derivative order `derivOrder`. Only
   * order 0 is served; any other order fails the always-on assertion before
   * the probe value is read.
   */
  function CalcCachedValue(s: State, derivOrder: int, computeProbeValue: ProbeValueFunction): (r: Result<real, Exception>)
    requires AtLeast(s.stage, DependsOnStage(derivOrder))
    requires derivOrder == 0 ==> |computeProbeValue(s.snapshot)| >= 1
    ensures r.Success? <==> 0 <= derivOrder <= NumTimeDerivatives()
    ensures r.Success? ==> r.value == computeProbeValue(s.snapshot)[0]
    ensures r.Failure? ==>
      r.error == AssertionFailure(DerivOrderMessagePrefix + FormatInt(derivOrder) + DerivOrderMessageSuffix)
  {
    if derivOrder != 0 then
      Failure(AssertionFailure(DerivOrderMessagePrefix + FormatInt(derivOrder) + DerivOrderMessageSuffix))
    else
      var tmp := computeProbeValue(s.snapshot);
      Success(tmp[0])
  }

  /** The probe's pre-operation value: the measure read at order 0. */
  function PreOperationValue(s: State, computeProbeValue: ProbeValueFunction): (v: real)
    requires AtLeast(s.stage, Acceleration)
    requires |computeProbeValue(s.snapshot)| >= 1
    ensures CalcCachedValue(s, 0, computeProbeValue) == Success(v)
  {
    CalcCachedValue(s, 0, computeProbeValue).value
  }

  /** The assertion message names the rejected order, and distinct orders give distinct messages. */
  lemma RejectedOrderNamed(s: State, d: int, e: int, f: ProbeValueFunction)
    requires AtLeast(s.stage, Acceleration)
    requires d != 0 && e != 0 && d != e
    ensures CalcCachedValue(s, d, f).Failure? && CalcCachedValue(s, e, f).Failure?
    ensures CalcCachedValue(s, d, f) != CalcCachedValue(s, e, f)
  {
    var p, q := DerivOrderMessagePrefix, DerivOrderMessageSuffix;
    if CalcCachedValue(s, d, f) == CalcCachedValue(s, e, f) {
      var md, me := p + FormatInt(d) + q, p + FormatInt(e) + q;
      assert md == me;
      assert FormatInt(d) == md[|p|..|md| - |q|];
      assert FormatInt(e) == me[|p|..|me| - |q|];
      FormatIntInjective(d, e);
    }
  }
}
