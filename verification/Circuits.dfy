/** Circuits with their registers resolved to flat qubit and classical-bit positions (src/circuit/graph.ts). */
module Circuits {
  import opened Options

  /** A numeric angle, or an expression over a parameter that has no value yet. */
  datatype Parameter = Bound(angle: real) | Free(name: string)

  /** The gate names the engine's tables mention, case folded; every spelling is its own name. */
  datatype GateName =
    | Id | I | X | Y | Z | H | S | Sdg | T | Tdg | Sx | Sxdg
    | Rx | Ry | Rz | P | U1 | U2 | U | U3
    | Cx | Cnot | Cz | Cy | Ch | Swap | Crx | Cry | Crz | Cp | Cu1
    | Ccx | Toffoli | Cswap | Fredkin
    | Other(name: string)

  datatype Gate = Gate(name: GateName, parameters: seq<Parameter>, qubits: seq<nat>)

  /** Everything that may be the body of a condition. An empty barrier spans all qubits. */
  datatype Simple =
    | Apply(gate: Gate)
    | Measure(qubit: nat, clbit: nat)
    | Reset(qubit: nat)
    | Barrier(qubits: seq<nat>)

  /** A test of a whole classical register (its bit positions, lowest first), or of one bit of it. */
  datatype Condition = Condition(register: seq<nat>, bit: Option<nat>, equals: nat)

  datatype Operation = Plain(simple: Simple) | Conditional(condition: Condition, body: Simple)

  function BodyOf(operation: Operation): Simple {
    match operation
    case Plain(simple) => simple
    case Conditional(_, body) => body
  }

  predicate DistinctQubits(qubits: seq<nat>) {
    forall i, j :: 0 <= i < j < |qubits| ==> qubits[i] != qubits[j]
  }
}
