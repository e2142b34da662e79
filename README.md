# Probe operator pipeline

A model of OpenSim's `Probe` (`OpenSim/Simulation/Model/Probe.cpp`): a model
component that reports one value computed from the simulation state, after an
optional operation selected by a configuration string.

- A probe has three properties: `isDisabled` (default `false`), `operation`
  (default `""`) and `operation_parameter` (default `0.0`). It also holds the
  after-operation measure that `createSystem` binds.
- `createSystem` selects that measure from the operation string:
  - `""` passes the probe value through;
  - `"integrate"` integrates it, starting from the parameter;
  - `"differentiate"` differentiates it;
  - `"scale"` multiplies it by the parameter.
  Any other string throws an exception. Its message is the concrete class
  name followed by `": Invalid probe operation. Currently supports '',
  'integrate', 'differentiate', and 'scale'."`.
- `getRecordLabels` returns one column label and `getRecordValues` one value.
  A `"scale"` label embeds the parameter printed with `"%f"` into a ten-char
  buffer.
- `ProbeMeasure` carries the pre-operation value. It has no time derivatives
  and depends on the Acceleration stage. It serves derivative order 0 only,
  as component 0 of `computeProbeValue`.

Files and modules:

- `wrappers.dfy` (`Wrappers`): `Option` and `Result`.
- `fixed_format.dfy` (`FixedFormat`): the text of printf's `"%f"` and `"%d"`.
  It covers round-half-even to six decimals, a read-back lemma for numerals,
  injectivity of the printed text, and the exact range of parameters whose
  text fits the ten-char buffer: -9.9999995 < x < 99.9999995.
- `host.dfy` (`Host`): the host's stage order, the state variables a probe
  value is computed from (time, coordinates, speeds, auxiliary states, their
  derivatives and the discrete variables), an evaluation state (with the host's integral and
  derivative of each operand) and the exceptions.
- `probe_measure.dfy` (`ProbeMeasures`): `ProbeMeasure::Implementation`.
- `probe.dfy` (`Probes`): operation selection, labels, after-operation
  values, and the class `Probe` with its fields, constructors, `copyData`,
  `operator=`, getters, setters and `createSystem`.

The code guards neither realization nor configuration, and the model follows it:

- `createSystem` does not refuse a second call; it binds a new measure.
- Setters do not refuse a change after realization.
- `getRecordValues` does not look at `isDisabled`.
- An unsupported operation throws before the assignment, so a measure bound by
  an earlier `createSystem` stays bound.

## Model

| member | source | states |
|---|---|---|
| `FixedFormat.RoundHalfEven` | OpenSim/Simulation/Model/Probe.cpp:348 | the integer "%f" rounds to lies within 1/2 of the value, and a tie goes to the even neighbour |
| `FixedFormat.RoundedMicrosClose` | OpenSim/Simulation/Model/Probe.cpp:348 | the printed parameter is within half a millionth of the parameter's magnitude |
| `FixedFormat.Decimal` | OpenSim/Simulation/Model/Probe.cpp:348 | a numeral is non-empty, all digits, and has no leading zero |
| `FixedFormat.DecimalRoundTrip` | OpenSim/Simulation/Model/Probe.cpp:348 | reading a printed numeral back gives the number |
| `FixedFormat.DecimalLength` | OpenSim/Simulation/Model/Probe.cpp:347-348 | a numeral has at most k digits exactly when the number is below 10^k |
| `FixedFormat.FractionDigits` | OpenSim/Simulation/Model/Probe.cpp:348 | "%f" prints exactly six fraction digits, and they read back as the fraction in millionths |
| `FixedFormat.FormatF6` | OpenSim/Simulation/Model/Probe.cpp:348 | the "%f" text starts with a minus sign exactly for negative values; after the sign come digits without a leading zero that read back as the whole millions of the rounded millionths, then a point and six digits that read back as the remaining millionths |
| `FixedFormat.FormatInt` | OpenSim/Simulation/Model/Probe.cpp:64-66 | "%d" starts with a minus sign exactly for negative numbers, and the digits after the sign read back as the magnitude |
| `FixedFormat.FormatIntInjective` | OpenSim/Simulation/Model/Probe.cpp:64-66 | two integers print alike under "%d" exactly when they are equal |
| `FixedFormat.FixedTextLength` | OpenSim/Simulation/Model/Probe.cpp:347-348 | the "%f" text is the sign, the integer digits and seven more characters |
| `FixedFormat.FixedTextInjective` | OpenSim/Simulation/Model/Probe.cpp:348 | the "%f" text determines the sign and the rounded magnitude, in both directions |
| `FixedFormat.FormatF6Injective` | OpenSim/Simulation/Model/Probe.cpp:348 | two values print alike under "%f" exactly when they have the same sign and round to the same millionths |
| `FixedFormat.RoundedBelow` | OpenSim/Simulation/Model/Probe.cpp:348 | the rounded magnitude is below 10^k exactly when the unrounded one is below 10^k - 1/2, the tie included |
| `FixedFormat.FitsTenCharBufferRange` | OpenSim/Simulation/Model/Probe.cpp:347-348 | the text and its NUL fit `char n[10]` exactly when -9.9999995 < parameter < 99.9999995 |
| `ProbeMeasures.NumTimeDerivatives` | OpenSim/Simulation/Model/Probe.cpp:58 | the probe measure has no time derivatives |
| `ProbeMeasures.DependsOnStage` | OpenSim/Simulation/Model/Probe.cpp:59-60 | every derivative order of the probe measure depends on the Acceleration stage |
| `ProbeMeasures.CalcCachedValue` | OpenSim/Simulation/Model/Probe.cpp:58-70 | at a state past the Acceleration stage, the value exists exactly for the derivative orders up to the number of time derivatives (0); it is component 0 of computeProbeValue, which must then have one; any other order fails the assertion with its message, whatever computeProbeValue holds |
| `ProbeMeasures.PreOperationValue` | OpenSim/Simulation/Model/Probe.cpp:181 | the pre-operation value is the measure read successfully at order 0 |
| `ProbeMeasures.RejectedOrderNamed` | OpenSim/Simulation/Model/Probe.cpp:64-66 | every nonzero order is rejected, and the assertion messages of two different orders differ |
| `Probes.SelectOperation` | OpenSim/Simulation/Model/Probe.cpp:192-227 | selection succeeds exactly for "", "integrate", "differentiate" and "scale"; the selected measure is named by the string and carries the parameter as initial condition or factor; any other string gives the exception with the class name and the fixed message |
| `Probes.SelectOperationRoundTrip` | OpenSim/Simulation/Model/Probe.cpp:192-210 | every measure is selected back from its own operation name and parameter |
| `Probes.AfterOperationValue` | OpenSim/Simulation/Model/Probe.cpp:192-210 | the bound measure's value: the operand for "", factor times the operand for "scale", initial condition plus the host's integral of this measure's own operand for "integrate", the host's derivative of that operand for "differentiate" |
| `Probes.OperationSemantics` | OpenSim/Simulation/Model/Probe.cpp:192-210 | "" reports the probe value; "scale" reports parameter times probe value for every parameter; "integrate" reports parameter plus the host's integral, so the parameter when that integral is zero (the initial time); "differentiate" reports the host's derivative; integral and derivative are those of the probe's own value |
| `Probes.HostQuantitiesPerOperand` | OpenSim/Simulation/Model/Probe.cpp:181-205 | each probe's integrate and differentiate measures are built over its own operand, so two probes with different values can report different integrals and derivatives in one state |
| `Probes.RecordLabels` | OpenSim/Simulation/Model/Probe.cpp:341-355 | exactly one label, starting with the name; it is the name alone exactly when the operation is ""; it is name_scale_<"%f" text>X for "scale" and name_<operation> otherwise |
| `Probes.RecordLabelsDistinguish` | OpenSim/Simulation/Model/Probe.cpp:341-355 | for one name and supported operations, two labels are equal exactly when the operations are equal and, for "scale", the parameters print alike |
| `Probes.ScaleLabelsAgree` | OpenSim/Simulation/Model/Probe.cpp:346-349 | two scale labels are equal exactly when the parameters have the same sign and round to the same millionths |
| `Probes.RecordLabelsExamples` | OpenSim/Simulation/Model/Probe.cpp:341-355 | probe "M1" is labelled "M1", "M1_integrate" and "M1_scale_2.000000X" |
| `Probes.LabelsMatchValues` | OpenSim/Simulation/Model/Probe.cpp:341-367 | a realized probe reports as many values as labels |
| `Probes.RealizedProbeReports` | OpenSim/Simulation/Model/Probe.cpp:361-367 | after a successful createSystem, the one reported value is the probe's own computeProbeValue component 0 for "" and parameter times it for "scale" |
| `Probes.Probe.constructor` | OpenSim/Simulation/Model/Probe.cpp:144-158 | a new probe of a given class is enabled, has operation "" and parameter 0.0, and has no measure bound |
| `Probes.Probe.Copy` | OpenSim/Simulation/Model/Probe.cpp:107-111 | the copy has the original's class, name, three properties and bound measure, so its measure still reads the original probe |
| `Probes.Probe.CopyData` | OpenSim/Simulation/Model/Probe.cpp:122-128 | the three properties and the bound measure are copied, so the measure still reads the probe that realized it; the name is not touched |
| `Probes.Probe.Assign` | OpenSim/Simulation/Model/Probe.cpp:254-262 | assignment copies the name, the three properties and the bound measure |
| `Probes.Probe.IsDisabled` | OpenSim/Simulation/Model/Probe.cpp:273-276 | returns the `isDisabled` property |
| `Probes.Probe.GetOperation` | OpenSim/Simulation/Model/Probe.cpp:284-287 | returns the `operation` property |
| `Probes.Probe.GetOperationParameter` | OpenSim/Simulation/Model/Probe.cpp:295-298 | returns the `operation_parameter` property |
| `Probes.Probe.SetDisabled` | OpenSim/Simulation/Model/Probe.cpp:305-308 | only `isDisabled` changes, and `IsDisabled` then returns the value set |
| `Probes.Probe.SetOperation` | OpenSim/Simulation/Model/Probe.cpp:315-318 | only `operation` changes, and `GetOperation` then returns the value set |
| `Probes.Probe.SetOperationParameter` | OpenSim/Simulation/Model/Probe.cpp:326-329 | only `operation_parameter` changes, and `GetOperationParameter` then returns the value set |
| `Probes.Probe.CreateSystem` | OpenSim/Simulation/Model/Probe.cpp:174-229 | it succeeds exactly for a supported operation, and then binds the measure that operation selects, its operand reading this probe's computeProbeValue; otherwise it throws the invalid-operation exception and leaves the bound measure as it was |
| `Probes.Probe.GetRecordLabels` | OpenSim/Simulation/Model/Probe.cpp:341-355 | the probe reports exactly one label |
| `Probes.Probe.GetRecordValues` | OpenSim/Simulation/Model/Probe.cpp:361-367 | exactly one value, the bound measure's value in the given state, read from the probe that realized the measure |

## Left out

- `Probes.RecordLabels` requires a "scale" parameter strictly between -9.9999995 and 99.9999995. Outside that range `sprintf` writes past the end of `char n[10]`, which is undefined behaviour; the model does not say what the label is then.
- The host library's measure objects are not modelled, because that library is not part of this model. This covers the measure cache and stage realization, and the adoption of each measure into the subsystem (`ProbeMeasure`, `Constant`, `Integrate`, `Differentiate`, `Scale`). The `BoundMeasure` held in `afterOperation` (the selected `Op` and the operand it reads) stands for the measure handle.
- Integration and differentiation are the host's numerics. A `State` carries, for each operand, the host's integral of it since the initial time and its derivative; how the host computes them from the history of states is not modelled, so nothing ties `Snapshot.time` to the integral; an integral of zero stands for the initial time. The model proves only how the probe uses them: the initial condition is the parameter, and differentiation reports the host's derivative.
- The Acceleration-stage dependency is a precondition (`Probes.OperandReadable`) on reading values through "", "differentiate" and "scale", the operations whose value reads the operand; "integrate" reports the host's state variable. The host's own stage checks are not modelled.
- `computeProbeValue` is defined by each probe subclass, so it is a constant function given to the constructor; it does not depend on the probe's other fields. Reading component 0 of an empty vector is undefined, so at least one component is required.
- `Probes.Probe.GetRecordValues` requires a bound measure: calling `getValue` on the empty measure handle before `createSystem` (Probe.cpp:364) is not modelled. The bound measure records the probe that realized it, so a copied or assigned probe reports the original probe's `computeProbeValue`, as the source does. The source holds the original by reference (`m_probe`, Probe.cpp:73), so this holds only while the original probe exists; lifetimes are not modelled.
- `getConcreteClassName` and the object name come from base classes. They are a constant and a field given to the constructor. The header `Probe.h` and the `ModelComponent`/`Object` base classes are not part of this model, nor are `setup` and the base calls in `createSystem`.
- `setDefaultsFromState` (Probe.cpp:235-242) is not modelled. It stores the operation string into the double-typed `operation_parameter` property, an evident defect.
- The property table (`addProperty`, `getPropertyValue`, `setPropertyValue`) is modelled as plain fields.
- `FixedFormat.FormatF6` follows correctly rounded "%f" (exact ties to even, as glibc prints). C runtimes that round exact ties away from zero print, for example, 0.0078125 as "0.007813" where the model gives 7812 millionths; those runtimes are not modelled.
- The host state is a `Snapshot` of real-valued sequences. Discrete variables of other types (the host allows any value type) are not represented.
- Doubles are modelled as `real`. Negative zero (which "%f" prints as "-0.000000"), infinities and NaN are not represented.
- A failed SimTK assertion carries source location text in its message. The model keeps only the formatted message.
- The sandbox files `testbedStretchController.cpp` and `MultiController.h` are not modelled. They build a model, wire controller connections and drive a simulation with console and visualizer output.
