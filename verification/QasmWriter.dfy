/** Writing a circuit as OpenQASM text (src/circuit/qasm3.ts:1036-1103). */
module QasmWriter {
  import opened QasmText
  import opened QasmReader

  function Decimal(n: nat): string {
    if n < 10 then [(n + '0' as int) as char] else Decimal(n / 10) + [(n % 10 + '0' as int) as char]
  }

  /** Hardware qubits go out as `$n`, all others by register and index. */
  function FormatBit(bit: Bit): string {
    if bit.register == PHYSICAL then "$" + Decimal(bit.index) else bit.register + "[" + Decimal(bit.index) + "]"
  }

  function Join(parts: seq<string>): string {
    if |parts| == 0 then "" else if |parts| == 1 then parts[0] else parts[0] + ", " + Join(parts[1..])
  }

  function FormatBits(bits: seq<Bit>): seq<string> {
    seq(|bits|, i requires 0 <= i < |bits| => FormatBit(bits[i]))
  }

  function FormatParameters(parameters: seq<Parameter>): seq<string> {
    seq(|parameters|, i requires 0 <= i < |parameters| => parameters[i].text)
  }

  /** A simple operation without its semicolon. */
  function SimpleText(operation: SimpleOperation): string {
    match operation
    case Gate(name, parameters, qubits) =>
      name + (if |parameters| > 0 then "(" + Join(FormatParameters(parameters)) + ")" else "")
        + " " + Join(FormatBits(qubits))
    case Measure(qubit, clbit) => FormatBit(clbit) + " = measure " + FormatBit(qubit)
    case Reset(qubit) => "reset " + FormatBit(qubit)
    case Barrier(qubits) => if |qubits| == 0 then "barrier" else "barrier " + Join(FormatBits(qubits))
  }

  function ConditionText(condition: Condition): string {
    condition.register + (if condition.bit.Some? then "[" + Decimal(condition.bit.value) + "]" else "")
      + " == " + Decimal(condition.equals)
  }

  function OperationText(operation: Operation): string {
    match operation
    case Plain(simple) => SimpleText(simple)
    case Conditional(condition, body) => "if (" + ConditionText(condition) + ") " + SimpleText(body)
  }

  function RegisterText(kind: string, register: Register): string {
    kind + "[" + Decimal(register.size) + "] " + register.name
  }

  // ---------------------------------------------------------------- the lines of a document

  const VERSION := "OPENQASM 3"

  const LIBRARY := "stdgates.inc"

  function IncludeText(file: string): string {
    "include" + " " + ("\"" + file + "\"")
  }

  function Header(includeStdgates: bool): seq<string> {
    [VERSION + ";"] + (if includeStdgates then [IncludeText(LIBRARY) + ";"] else []) + [""]
  }

  /** Hardware qubits are not declared. */
  function QubitLines(registers: seq<Register>): seq<string> {
    if |registers| == 0 then []
    else
      var before, last := QubitLines(registers[..|registers| - 1]), registers[|registers| - 1];
      if last.name == PHYSICAL then before else before + [RegisterText("qubit", last) + ";"]
  }

  function ClbitLines(registers: seq<Register>): seq<string> {
    seq(|registers|, i requires 0 <= i < |registers| => RegisterText("bit", registers[i]) + ";")
  }

  function Gap(circuit: Circuit): seq<string> {
    if |circuit.qubits| > 0 || |circuit.clbits| > 0 then [""] else []
  }

  function OperationLines(operations: seq<Operation>): seq<string> {
    seq(|operations|, i requires 0 <= i < |operations| => OperationText(operations[i]) + ";")
  }

  function EmittedLines(circuit: Circuit, includeStdgates: bool): seq<string> {
    Header(includeStdgates) + QubitLines(circuit.qubits) + ClbitLines(circuit.clbits) + Gap(circuit)
      + OperationLines(circuit.operations)
  }

  method EmitQasm3(circuit: Circuit, includeStdgates: bool) returns (text: string)
    ensures text == Document(EmittedLines(circuit, includeStdgates))
  {
    hide RegisterText, OperationText, Document, IncludeText;
    var lines := [VERSION + ";"];
    if includeStdgates {
      lines := lines + [IncludeText(LIBRARY) + ";"];
    }
    lines := lines + [""];
    ghost var header := lines;
    assert header == Header(includeStdgates);
    hide Header;
    for i := 0 to |circuit.qubits|
      invariant lines == header + QubitLines(circuit.qubits[..i])
    {
      var register := circuit.qubits[i];
      assert circuit.qubits[..i + 1][..i] == circuit.qubits[..i];
      if register.name != PHYSICAL {
        lines := lines + [RegisterText("qubit", register) + ";"];
      }
    }
    assert circuit.qubits[..|circuit.qubits|] == circuit.qubits;
    ghost var declared := lines;
    assert declared == header + QubitLines(circuit.qubits);
    hide QubitLines;
    for i := 0 to |circuit.clbits|
      invariant lines == declared + ClbitLines(circuit.clbits)[..i]
    {
      lines := lines + [RegisterText("bit", circuit.clbits[i]) + ";"];
    }
    if |circuit.qubits| > 0 || |circuit.clbits| > 0 {
      lines := lines + [""];
    }
    ghost var head := lines;
    assert head == declared + ClbitLines(circuit.clbits) + Gap(circuit);
    hide ClbitLines, Gap;
    for i := 0 to |circuit.operations|
      invariant lines == head + OperationLines(circuit.operations)[..i]
    {
      lines := lines + [OperationText(circuit.operations[i]) + ";"];
    }
    assert lines == EmittedLines(circuit, includeStdgates);
    text := Document(lines);
  }
}
