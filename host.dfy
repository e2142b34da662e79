/**
 * What the probe sees of the host simulation: its staged evaluation order,
 * an evaluation state and the exceptions that reach the probe's callers.
 */
module Host {

  /** The host's realization stages, earliest first. */
  datatype Stage = Empty | Topology | Model | Instance | Time | Position | Velocity | Dynamics | Acceleration | Report

  function Level(st: Stage): nat
  {
    match st
    case Empty => 0
    case Topology => 1
    case Model => 2
    case Instance => 3
    case Time => 4
    case Position => 5
    case Velocity => 6
    case Dynamics => 7
    case Acceleration => 8
    case Report => 9
  }

  predicate AtLeast(st: Stage, required: Stage)
  {
    Level(st) >= Level(required)
  }

  /**
   * The state variables a probe's own value is computed from: the time, the
   * generalized coordinates and speeds, the auxiliary continuous states (such
   * as muscle activations and fiber lengths), the time derivatives of all
   * continuous states, and the discrete variables.
   */
  datatype Snapshot = Snapshot(time: real, q: seq<real>, u: seq<real>, z: seq<real>,
                               qDot: seq<real>, uDot: seq<real>, zDot: seq<real>, discrete: seq<real>)

  /** What computeProbeValue returns for a state; each probe kind supplies its own. */
  type ProbeValueFunction = Snapshot -> seq<real>

  /**
   * One evaluation state of the host. `stage` is how far it has been
   * realized and `snapshot` holds the values probes read. For each measured
   * quantity (the operand, a probe value function), `integralOf` and
   * `derivativeOf` give what the host's own integrate and differentiate
   * measures over that quantity hold in this state: its integral from the
   * initial time (zero at the initial time) and its time derivative.
   */
  datatype State = State(stage: Stage, snapshot: Snapshot,
                         integralOf: ProbeValueFunction -> real, derivativeOf: ProbeValueFunction -> real)

  /** An OpenSim exception, or a failed always-on assertion of the host library. */
  datatype Exception = OpenSimException(message: string) | AssertionFailure(message: string)
}
