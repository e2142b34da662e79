/**
 * Probe: a model component that reports one value derived from the state of
 * the simulation, after an optional operation ("", "integrate",
 * "differentiate" or "scale") chosen by a configuration string.
 */
module Probes {
  import opened Wrappers
  import opened FixedFormat
  import opened Host
  import opened ProbeMeasures

  /** The operation of the after-operation measure. */
  datatype Op = Identity | Integrate(initialCondition: real) | Differentiate | Scale(factor: real)

  /**
   * The after-operation measure bound at realization: its operation and the
   * computeProbeValue of the probe that realized it, which its operand reads.
   */
  datatype BoundMeasure = BoundMeasure(op: Op, operand: ProbeValueFunction)

  /** The configuration string each operation is selected by. */
  function OperationName(op: Op): string
  {
    match op
    case Identity => ""
    case Integrate(_) => "integrate"
    case Differentiate => "differentiate"
    case Scale(_) => "scale"
  }

  predicate IsSupportedOperation(operation: string)
  {
    operation == "" || operation == "integrate" || operation == "differentiate" || operation == "scale"
  }

  const InvalidOperationMessage := ": Invalid probe operation. Currently supports '', 'integrate', 'differentiate', and 'scale'."

  /**
   * The operation selection of createSystem: a supported operation string
   * becomes its measure, carrying the parameter where the operation uses one
   * (initial condition for "integrate", factor for "scale"); any other
   * string is an exception naming the probe's concrete class.
   */
  function SelectOperation(concreteClassName: string, operation: string, parameter: real): (r: Result<Op, Exception>)
    ensures r.Success? <==> IsSupportedOperation(operation)
    ensures r.Success? ==> OperationName(r.value) == operation
    ensures r.Success? && r.value.Integrate? ==> r.value.initialCondition == parameter
    ensures r.Success? && r.value.Scale? ==> r.value.factor == parameter
    ensures r.Failure? ==> r.error == OpenSimException(concreteClassName + InvalidOperationMessage)
  {
    if operation == "" then Success(Identity)
    else if operation == "integrate" then Success(Integrate(parameter))
    else if operation == "differentiate" then Success(Differentiate)
    else if operation == "scale" then Success(Scale(parameter))
    else Failure(OpenSimException(concreteClassName + InvalidOperationMessage))
  }

  /** Every measure is selected back from its own name and parameter. */
  lemma SelectOperationRoundTrip(concreteClassName: string, op: Op, parameter: real)
    requires op.Integrate? ==> op.initialCondition == parameter
    requires op.Scale? ==> op.factor == parameter
    ensures SelectOperation(concreteClassName, OperationName(op), parameter) == Success(op)
  {
  }

  /**
   * The operand (the pre-operation value) is read by the pass-through, the
   * differentiate and the scale measure; it needs the Acceleration stage and
   * a non-empty computeProbeValue. The integrate measure reports the host's
   * integral, a state variable of its own, and reads no operand.
   */
  predicate OperandReadable(op: Op, s: State, computeProbeValue: ProbeValueFunction)
  {
    !op.Integrate? ==> AtLeast(s.stage, Acceleration) && |computeProbeValue(s.snapshot)| >= 1
  }

  /**
   * The value of the after-operation measure in state `s`. The integral and
   * the derivative are the host's, of this measure's own operand; the probe
   * contributes the initial condition and the factor.
   */
  function AfterOperationValue(op: Op, s: State, computeProbeValue: ProbeValueFunction): (v: real)
    requires OperandReadable(op, s, computeProbeValue)
    ensures op.Identity? ==> v == computeProbeValue(s.snapshot)[0]
    ensures op.Scale? ==> v == op.factor * computeProbeValue(s.snapshot)[0]
    ensures op.Integrate? ==> v == op.initialCondition + s.integralOf(computeProbeValue)
    ensures op.Differentiate? ==> v == s.derivativeOf(computeProbeValue)
  {
    match op
    case Identity => PreOperationValue(s, computeProbeValue)
    case Integrate(initialCondition) => initialCondition + s.integralOf(computeProbeValue)
    case Differentiate => s.derivativeOf(computeProbeValue)
    case Scale(factor) => factor * PreOperationValue(s, computeProbeValue)
  }

  /**
   * What the selected operation reports: "" passes the probe value through,
   * "scale" multiplies it by the parameter (zero and negative factors
   * included), "integrate" adds the parameter to the host's integral,
   * "differentiate" reports the host's derivative, each of the probe's own
   * value. The host's integral is zero at the initial time (the model does
   * not derive that; it is what `integralOf` stands for), so "integrate"
   * then reports the parameter.
   */
  lemma OperationSemantics(concreteClassName: string, operation: string, parameter: real,
                           s: State, computeProbeValue: ProbeValueFunction)
    requires SelectOperation(concreteClassName, operation, parameter).Success?
    requires OperandReadable(SelectOperation(concreteClassName, operation, parameter).value, s, computeProbeValue)
    ensures var v := AfterOperationValue(SelectOperation(concreteClassName, operation, parameter).value, s, computeProbeValue);
      && (operation == "" ==> v == computeProbeValue(s.snapshot)[0])
      && (operation == "scale" ==> v == parameter * computeProbeValue(s.snapshot)[0])
      && (operation == "integrate" ==> v == parameter + s.integralOf(computeProbeValue))
      && (operation == "integrate" && s.integralOf(computeProbeValue) == 0.0 ==> v == parameter)
      && (operation == "differentiate" ==> v == s.derivativeOf(computeProbeValue))
  {
  }

  /**
   * Each measure integrates and differentiates its own operand: two probes
   * with the same operation and different values can report different
   * integrals and derivatives in the same state.
   */
  lemma HostQuantitiesPerOperand(s: State, f: ProbeValueFunction, g: ProbeValueFunction)
    requires f != g
    ensures exists t: State ::
      && t.stage == s.stage && t.snapshot == s.snapshot
      && AfterOperationValue(Integrate(0.0), t, f) != AfterOperationValue(Integrate(0.0), t, g)
      && (OperandReadable(Differentiate, t, f) && OperandReadable(Differentiate, t, g) ==>
            AfterOperationValue(Differentiate, t, f) != AfterOperationValue(Differentiate, t, g))
  {
    var t := State(s.stage, s.snapshot, h => if h == f then 1.0 else 0.0, h => if h == f then 1.0 else 0.0);
    assert AfterOperationValue(Integrate(0.0), t, f) != AfterOperationValue(Integrate(0.0), t, g);
  }

  /**
   * getRecordLabels: exactly one column label. The name alone when there is
   * no operation, name_scale_<"%f" of the parameter>X for "scale", and
   * name_<operation> otherwise. The "%f" text is written into a ten-char
   * buffer, so "scale" needs a parameter whose text fits.
   */
  function RecordLabels(name: string, operation: string, parameter: real): (labels: seq<string>)
    requires operation == "scale" ==> FitsTenCharBuffer(parameter)
    ensures |labels| == 1
    ensures name <= labels[0]
    ensures labels[0] == name <==> operation == ""
    ensures operation != "" && operation != "scale" ==> labels[0] == name + "_" + operation
    ensures operation == "scale" ==> labels[0] == name + "_scale_" + FormatF6(parameter) + "X"
  {
    if operation == "" then
      [name]
    else if operation == "scale" then
      var n := FormatF6(parameter);
      [name + "_" + operation + "_" + n + "X"]
    else
      [name + "_" + operation]
  }

  /**
   * For one probe name and supported operations, the label tells the
   * operation apart and, for "scale", the parameter as "%f" prints it.
   */
  lemma RecordLabelsDistinguish(name: string, o1: string, p1: real, o2: string, p2: real)
    requires IsSupportedOperation(o1) && IsSupportedOperation(o2)
    requires o1 == "scale" ==> FitsTenCharBuffer(p1)
    requires o2 == "scale" ==> FitsTenCharBuffer(p2)
    ensures RecordLabels(name, o1, p1) == RecordLabels(name, o2, p2) <==>
      o1 == o2 && (o1 == "scale" ==> FormatF6(p1) == FormatF6(p2))
  {
    var l1, l2 := RecordLabels(name, o1, p1)[0], RecordLabels(name, o2, p2)[0];
    var k := |name|;
    if o1 != o2 && o1 != "" && o2 != "" {
      assert l1[k + 1] == o1[0];
      assert l2[k + 1] == o2[0];
    }
    if l1 == l2 && o1 == o2 == "scale" {
      var f1, f2 := FormatF6(p1), FormatF6(p2);
      assert l1 == (name + "_scale_") + f1 + "X";
      assert l2 == (name + "_scale_") + f2 + "X";
      assert f1 == l1[k + 7..|l1| - 1] == f2;
    }
  }

  /** The scale label tells two parameters apart exactly when "%f" rounds them apart. */
  lemma ScaleLabelsAgree(name: string, p1: real, p2: real)
    requires FitsTenCharBuffer(p1) && FitsTenCharBuffer(p2)
    ensures RecordLabels(name, "scale", p1) == RecordLabels(name, "scale", p2) <==>
      (p1 < 0.0) == (p2 < 0.0) && RoundedMicros(p1) == RoundedMicros(p2)
  {
    RecordLabelsDistinguish(name, "scale", p1, "scale", p2);
    FormatF6Injective(p1, p2);
  }

  /** The labels of a probe named "M1". */
  lemma RecordLabelsExamples()
    ensures RecordLabels("M1", "", 0.0) == ["M1"]
    ensures RecordLabels("M1", "integrate", 0.0) == ["M1_integrate"]
    ensures FitsTenCharBuffer(2.0) && RecordLabels("M1", "scale", 2.0) == ["M1_scale_2.000000X"]
  {
    assert RoundedMicros(2.0) == 2000000;
    assert Zeros(2) == "00";
    assert Zeros(4) == "0000";
    assert Zeros(5) == "00000";
    assert FractionDigits(0) == "000000";
    assert FormatF6(2.0) == "2.000000";
    var integrated, scaled := RecordLabels("M1", "integrate", 0.0), RecordLabels("M1", "scale", 2.0);
    assert integrated == [integrated[0]] && integrated[0] == "M1" + "_" + "integrate" == "M1_integrate";
    assert scaled == [scaled[0]] && scaled[0] == "M1" + "_scale_" + "2.000000" + "X" == "M1_scale_2.000000X";
  }

  class Probe {
    /** getConcreteClassName(): the name of the probe's own class. */
    const concreteClassName: string
    /** computeProbeValue of the probe's own class. */
    const computeProbeValue: ProbeValueFunction
    var name: string
    var disabled: bool
    var operation: string
    var operationParameter: real
    /** The after-operation measure; None until createSystem binds one. */
    var afterOperation: Option<BoundMeasure>

    /** A new probe: enabled, no operation, parameter 0.0, nothing bound. */
    constructor (concreteClassName: string, computeProbeValue: ProbeValueFunction, name: string)
      ensures this.concreteClassName == concreteClassName && this.computeProbeValue == computeProbeValue
      ensures this.name == name
      ensures !disabled && operation == "" && operationParameter == 0.0
      ensures afterOperation == None
    {
      this.concreteClassName := concreteClassName;
      this.computeProbeValue := computeProbeValue;
      this.name := name;
      disabled := false;
      operation := "";
      operationParameter := 0.0;
      afterOperation := None;
    }

    /**
     * The copy constructor (a probe of the same class): the three properties
     * and the bound measure are copied, so the copy's measure still reads
     * the original probe.
     */
    constructor Copy(other: Probe)
      ensures concreteClassName == other.concreteClassName && computeProbeValue == other.computeProbeValue
      ensures name == other.name
      ensures disabled == other.disabled && operation == other.operation
      ensures operationParameter == other.operationParameter && afterOperation == other.afterOperation
    {
      concreteClassName := other.concreteClassName;
      computeProbeValue := other.computeProbeValue;
      name := other.name;
      disabled := other.disabled;
      operation := other.operation;
      operationParameter := other.operationParameter;
      afterOperation := other.afterOperation;
    }

    /**
     * copyData: the three properties and the bound measure, nothing else. The
     * bound measure keeps reading the probe that realized it.
     */
    method CopyData(other: Probe)
      modifies this`disabled, this`operation, this`operationParameter, this`afterOperation
      ensures disabled == old(other.disabled) && operation == old(other.operation)
      ensures operationParameter == old(other.operationParameter)
      ensures afterOperation == old(other.afterOperation)
    {
      disabled, operation, operationParameter, afterOperation :=
        other.disabled, other.operation, other.operationParameter, other.afterOperation;
    }

    /** operator=: the name (base class part) and then copyData. */
    method Assign(other: Probe)
      modifies this`name, this`disabled, this`operation, this`operationParameter, this`afterOperation
      ensures name == old(other.name)
      ensures disabled == old(other.disabled) && operation == old(other.operation)
      ensures operationParameter == old(other.operationParameter)
      ensures afterOperation == old(other.afterOperation)
    {
      name := other.name;
      CopyData(other);
    }

    function IsDisabled(): (isDisabled: bool)
      reads this
      ensures isDisabled == disabled
    {
      disabled
    }

    function GetOperation(): (op: string)
      reads this
      ensures op == operation
    {
      operation
    }

    function GetOperationParameter(): (parameter: real)
      reads this
      ensures parameter == operationParameter
    {
      operationParameter
    }

    method SetDisabled(isDisabled: bool)
      modifies this`disabled
      ensures IsDisabled() == isDisabled
    {
      disabled := isDisabled;
    }

    method SetOperation(operation: string)
      modifies this`operation
      ensures GetOperation() == operation
    {
      this.operation := operation;
    }

    method SetOperationParameter(operationParameter: real)
      modifies this`operationParameter
      ensures GetOperationParameter() == operationParameter
    {
      this.operationParameter := operationParameter;
    }

    /**
     * createSystem: bind the after-operation measure the operation string
     * selects, its operand reading this probe. An unsupported string throws
     * before anything is bound, so a measure bound earlier stays in place.
     */
    method CreateSystem() returns (thrown: Option<Exception>)
      modifies this`afterOperation
      ensures thrown.None? <==> IsSupportedOperation(operation)
      ensures thrown.None? ==>
        afterOperation.Some? && OperationName(afterOperation.value.op) == operation &&
        afterOperation == Some(BoundMeasure(SelectOperation(concreteClassName, operation, operationParameter).value,
                                            computeProbeValue))
      ensures thrown.Some? ==>
        afterOperation == old(afterOperation) &&
        thrown.value == OpenSimException(concreteClassName + InvalidOperationMessage)
    {
      match SelectOperation(concreteClassName, GetOperation(), GetOperationParameter())
      case Success(op) =>
        afterOperation := Some(BoundMeasure(op, computeProbeValue));
        thrown := None;
      case Failure(e) =>
        thrown := Some(e);
    }

    /** getRecordLabels of this probe. */
    function GetRecordLabels(): (labels: seq<string>)
      reads this
      requires operation == "scale" ==> FitsTenCharBuffer(operationParameter)
      ensures |labels| == 1
    {
      RecordLabels(name, operation, operationParameter)
    }

    /**
     * getRecordValues: the one value of the bound after-operation measure,
     * whose operand reads the probe that realized it.
     */
    function GetRecordValues(s: State): (values: seq<real>)
      reads this
      requires afterOperation.Some?
      requires OperandReadable(afterOperation.value.op, s, afterOperation.value.operand)
      ensures |values| == 1
      ensures values[0] == AfterOperationValue(afterOperation.value.op, s, afterOperation.value.operand)
    {
      [AfterOperationValue(afterOperation.value.op, s, afterOperation.value.operand)]
    }
  }

  /** getRecordLabels and getRecordValues agree in length: one column, one value. */
  lemma LabelsMatchValues(p: Probe, s: State)
    requires p.afterOperation.Some?
    requires OperandReadable(p.afterOperation.value.op, s, p.afterOperation.value.operand)
    requires p.operation == "scale" ==> FitsTenCharBuffer(p.operationParameter)
    ensures |p.GetRecordLabels()| == |p.GetRecordValues(s)|
  {
  }

  /**
   * After a successful createSystem (and no change of configuration since),
   * the one reported value is the probe's own value for "" and the
   * parameter times it for "scale".
   */
  lemma RealizedProbeReports(p: Probe, s: State)
    requires SelectOperation(p.concreteClassName, p.operation, p.operationParameter).Success?
    requires p.afterOperation ==
      Some(BoundMeasure(SelectOperation(p.concreteClassName, p.operation, p.operationParameter).value, p.computeProbeValue))
    requires AtLeast(s.stage, Acceleration)
    requires |p.computeProbeValue(s.snapshot)| >= 1
    ensures p.operation == "" ==> p.GetRecordValues(s) == [p.computeProbeValue(s.snapshot)[0]]
    ensures p.operation == "scale" ==> p.GetRecordValues(s) == [p.operationParameter * p.computeProbeValue(s.snapshot)[0]]
  {
    var values := p.GetRecordValues(s);
    assert values == [values[0]];
    match p.afterOperation.value.op
    case Scale(factor) =>
      var k, v := p.operationParameter, p.computeProbeValue(s.snapshot)[0];
      var w := k * v;
      assert values[0] == w;
      assert values == [w];
      assert w == p.operationParameter * p.computeProbeValue(s.snapshot)[0];
    case _ =>
  }
}
