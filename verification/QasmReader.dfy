/** Reading OpenQASM statements into a circuit (src/circuit/qasm3.ts:43-72, 222-275, 353-921, 1015-1034). */
module QasmReader {
  import opened Options
  import opened QasmText

  datatype Register = Register(name: string, size: nat)

  datatype Bit = Bit(register: string, index: nat)

  /** A literal number, by the text the host prints it as, or an expression kept as it was written. */
  datatype Parameter = Number(text: string) | Expression(text: string)

  datatype SimpleOperation =
    | Gate(name: string, parameters: seq<Parameter>, qubits: seq<Bit>)
    | Measure(qubit: Bit, clbit: Bit)
    | Reset(qubit: Bit)
    | Barrier(qubits: seq<Bit>)

  /** A test of one bit, or of a whole register. */
  datatype Condition = Condition(register: string, bit: Option<nat>, equals: nat)

  datatype Operation = Plain(operation: SimpleOperation) | Conditional(condition: Condition, body: SimpleOperation)

  datatype Circuit = Circuit(qubits: seq<Register>, clbits: seq<Register>, operations: seq<Operation>)

  /** An entry of the loss report. */
  datatype Loss = Loss(feature: string, line: Option<nat>)

  const PHYSICAL := "$physical"

  // ---------------------------------------------------------------- characters and numbers

  predicate IsDigit(c: char) { '0' <= c <= '9' }

  predicate IsLetter(c: char) { 'A' <= c <= 'Z' || 'a' <= c <= 'z' || c == '_' }

  predicate IsWord(c: char) { IsLetter(c) || IsDigit(c) }

  function WordLength(s: string): (n: nat)
    ensures n <= |s|
  {
    if |s| > 0 && IsWord(s[0]) then 1 + WordLength(s[1..]) else 0
  }

  function IdentifierLength(s: string): (n: nat)
    ensures n <= |s|
  {
    if |s| > 0 && IsLetter(s[0]) then WordLength(s) else 0
  }

  function DigitsLength(s: string): (n: nat)
    ensures n <= |s|
  {
    if |s| > 0 && IsDigit(s[0]) then 1 + DigitsLength(s[1..]) else 0
  }

  function ValueOf(digits: string): nat {
    if |digits| == 0 then 0
    else
      var last := digits[|digits| - 1];
      10 * ValueOf(digits[..|digits| - 1]) + if IsDigit(last) then last as int - '0' as int else 0
  }

  /** Lower case on the letters an identifier may hold. */
  function Lower(s: string): (lower: string)
    ensures |lower| == |s|
  {
    if |s| == 0 then ""
    else [if 'A' <= s[0] <= 'Z' then (s[0] as int + 32) as char else s[0]] + Lower(s[1..])
  }

  /** A run of white space becomes one space. */
  function Collapse(s: string): string {
    if |s| == 0 then ""
    else if !IsSpace(s[0]) then [s[0]] + Collapse(s[1..])
    else if |s| > 1 && IsSpace(s[1]) then Collapse(s[1..])
    else " " + Collapse(s[1..])
  }

  // ---------------------------------------------------------------- the pieces of the patterns

  /** What stands behind a text that must come first. */
  function Expect(s: string, token: string): Option<string> {
    if token <= s then Some(s[|token|..]) else None
  }

  function ReadIdentifier(s: string): Option<(string, string)> {
    var n := IdentifierLength(s);
    if n == 0 then None else Some((s[..n], s[n..]))
  }

  function ReadNumber(s: string): Option<(nat, string)> {
    var n := DigitsLength(s);
    if n == 0 then None else Some((ValueOf(s[..n]), s[n..]))
  }

  /** `[n]`, with spaces allowed inside. */
  function ReadIndex(s: string): Option<(nat, string)> {
    var open :- Expect(s, "[");
    var number :- ReadNumber(TrimStart(open));
    var rest :- Expect(TrimStart(number.1), "]");
    Some((number.0, rest))
  }

  /** `[+-]?(\d+\.?\d*|\.\d+)([eE][+-]?\d+)?` from end to end. */
  predicate IsDecimal(s: string) {
    var unsigned := if |s| > 0 && (s[0] == '+' || s[0] == '-') then s[1..] else s;
    var whole := DigitsLength(unsigned);
    var fraction := unsigned[whole..];
    var behind := if |fraction| > 0 && fraction[0] == '.' then fraction[1..] else fraction;
    var places := if |fraction| > 0 && fraction[0] == '.' then DigitsLength(behind) else 0;
    whole + places > 0 && IsExponent(behind[places..])
  }

  predicate IsExponent(s: string) {
    |s| > 0 ==>
      && (s[0] == 'e' || s[0] == 'E')
      && var power := if |s| > 1 && (s[1] == '+' || s[1] == '-') then s[2..] else s[1..];
      0 < DigitsLength(power) == |power|
  }

  function LeadingIdentifier(text: string): string {
    text[..IdentifierLength(text)]
  }

  function LeadingKeyword(text: string): string {
    Lower(LeadingIdentifier(text))
  }

  // ---------------------------------------------------------------- lists and calls

  function DepthAfter(c: char, depth: int): int {
    if c == '(' || c == '[' then depth + 1 else if c == ')' || c == ']' then depth - 1 else depth
  }

  /** The parts between the commas outside all brackets, the first beginning with what was already read. */
  function Parts(text: string, depth: int, current: string): seq<string>
    decreases |text|
  {
    if |text| == 0 then [current]
    else
      var deeper := DepthAfter(text[0], depth);
      if text[0] == ',' && deeper == 0 then [current] + Parts(text[1..], deeper, "")
      else Parts(text[1..], deeper, current + [text[0]])
  }

  function WithoutBlanks(parts: seq<string>): seq<string> {
    if |parts| == 0 then []
    else
      var before := WithoutBlanks(parts[..|parts| - 1]);
      if |Trim(parts[|parts| - 1])| > 0 then before + [parts[|parts| - 1]] else before
  }

  function TopLevel(text: string): seq<string> {
    WithoutBlanks(Parts(text, 0, ""))
  }

  method SplitTopLevel(text: string) returns (filled: seq<string>)
    ensures filled == TopLevel(text)
  {
    var parts := [];
    var depth := 0;
    var current := "";
    for i := 0 to |text|
      invariant Parts(text, 0, "") == parts + Parts(text[i..], depth, current)
    {
      var character := text[i];
      ghost var rest := text[i..];
      assert rest[0] == character && rest[1..] == text[i + 1..];
      if character == '(' || character == '[' {
        depth := depth + 1;
      } else if character == ')' || character == ']' {
        depth := depth - 1;
      }
      if character == ',' && depth == 0 {
        parts := parts + [current];
        current := "";
      } else {
        current := current + [character];
      }
    }
    assert text[|text|..] == "";
    parts := parts + [current];
    filled := [];
    for i := 0 to |parts|
      invariant filled == WithoutBlanks(parts[..i])
    {
      assert parts[..i + 1][..i] == parts[..i];
      if |Trim(parts[i])| > 0 { filled := filled + [parts[i]]; }
    }
    assert parts[..|parts|] == parts;
  }

  /** Where the parenthesis closes that brings the depth back to zero. */
  function ClosesAt(s: string, depth: int): Option<nat>
    decreases |s|
  {
    if |s| == 0 then None
    else
      var deeper := if s[0] == '(' then depth + 1 else if s[0] == ')' then depth - 1 else depth;
      if s[0] == ')' && deeper == 0 then Some(0)
      else
        var further :- ClosesAt(s[1..], deeper);
        Some(further + 1)
  }

  datatype Signature = Signature(name: string, parameterText: Option<string>, operandText: string)

  function LeadingSpaces(s: string): (n: nat)
    ensures n <= |s|
  {
    if |s| > 0 && s[0] == ' ' then 1 + LeadingSpaces(s[1..]) else 0
  }

  /** A name, the text between balanced parentheses if there are any, and the rest. */
  function CallSignature(text: string): Option<Signature> {
    var read :- ReadIdentifier(text);
    var rest := read.1[LeadingSpaces(read.1)..];
    if |rest| > 0 && rest[0] == '(' then
      var close :- ClosesAt(rest, 0);
      if 0 < close < |rest| then Some(Signature(read.0, Some(rest[1..close]), Trim(rest[close + 1..]))) else None
    else
      Some(Signature(read.0, None, Trim(rest)))
  }

  function ParametersOf(text: string, shown: string -> string): seq<Parameter> {
    var parts := if Trim(text) == "" then [] else TopLevel(Trim(text));
    seq(|parts|, i requires 0 <= i < |parts| => ParameterOf(Trim(parts[i]), shown))
  }

  /** The host reads a decimal as a number, which it prints in its own way. */
  function ParameterOf(value: string, shown: string -> string): Parameter {
    if IsDecimal(value) then Number(shown(value)) else Expression(value)
  }

  // ---------------------------------------------------------------- registers and operands

  function Find(registers: seq<Register>, name: string): Option<Register> {
    if |registers| == 0 then None
    else if registers[0].name == name then Some(registers[0])
    else Find(registers[1..], name)
  }

  /** The hardware register made, or widened, to hold an index. */
  function Widen(registers: seq<Register>, index: nat): seq<Register> {
    if |registers| == 0 then [Register(PHYSICAL, index + 1)]
    else if registers[0].name == PHYSICAL then
      [Register(PHYSICAL, if index + 1 > registers[0].size then index + 1 else registers[0].size)] + registers[1..]
    else [registers[0]] + Widen(registers[1..], index)
  }

  /** The bits an operand names, and the registers afterwards: only hardware qubits change them. */
  function ResolveOperand(
    operand: string, registers: seq<Register>, ofQubits: bool): Option<(seq<Bit>, seq<Register>)>
  {
    var text := Trim(operand);
    var read := ReadIdentifier(text);
    if read.Some? then
      var name, rest := read.value.0, read.value.1;
      if rest == "" then
        var register :- Find(registers, name);
        Some((seq(register.size, i requires 0 <= i < register.size => Bit(name, i)), registers))
      else
        var index :- ReadIndex(TrimStart(rest));
        var register :- Find(registers, name);
        if index.1 == "" && index.0 < register.size then Some(([Bit(name, index.0)], registers)) else None
    else
      var number :- Expect(text, "$");
      var index :- ReadNumber(number);
      if index.1 == "" && ofQubits then Some(([Bit(PHYSICAL, index.0)], Widen(registers, index.0))) else None
  }

  function ResolveAll(operands: seq<string>, registers: seq<Register>): Option<(seq<seq<Bit>>, seq<Register>)> {
    if |operands| == 0 then Some(([], registers))
    else
      var before :- ResolveAll(operands[..|operands| - 1], registers);
      var last :- ResolveOperand(operands[|operands| - 1], before.1, true);
      Some((before.0 + [last.0], last.1))
  }

  function Flatten(groups: seq<seq<Bit>>): seq<Bit> {
    if |groups| == 0 then [] else Flatten(groups[..|groups| - 1]) + groups[|groups| - 1]
  }

  function Widest(groups: seq<seq<Bit>>): nat {
    if |groups| == 0 then 0
    else
      var before, last := Widest(groups[..|groups| - 1]), |groups[|groups| - 1]|;
      if last > before then last else before
  }

  // ---------------------------------------------------------------- simple statements

  /** What one statement stands for: its operations, the qubit registers afterwards, and what it loses. */
  datatype Reading = Reading(operations: seq<SimpleOperation>, qubits: seq<Register>, loss: seq<Loss>)

  /** `measure` and an operand, behind an equals sign. */
  function MeasuredOperand(s: string): Option<string> {
    var rest :- Expect(TrimStart(s), "measure");
    if |rest| > 0 && IsSpace(rest[0]) && |TrimStart(rest)| > 0 then Some(TrimStart(rest)) else None
  }

  /** The first equals sign, from a position on, that a measurement follows. */
  function AssignedMeasure(text: string, from: nat): Option<(string, string)>
    decreases if from < |text| then |text| - from else 0
  {
    if from >= |text| then None
    else if text[from] == '=' && MeasuredOperand(text[from + 1..]).Some? then
      Some((text[..from], MeasuredOperand(text[from + 1..]).value))
    else AssignedMeasure(text, from + 1)
  }

  /** The first arrow, from a position on, with something behind it. */
  function SplitArrow(text: string, from: nat): Option<(string, string)>
    decreases if from < |text| then |text| - from else 0
  {
    if from >= |text| then None
    else if PairAt(text, '-', '>', from) && |TrimStart(text[from + 2..])| > 0 then
      Some((text[..from], TrimStart(text[from + 2..])))
    else SplitArrow(text, from + 1)
  }

  function ArrowMeasure(text: string): Option<(string, string)> {
    var rest :- Expect(text, "measure");
    if |rest| > 0 && IsSpace(rest[0]) then SplitArrow(TrimStart(rest), 1) else None
  }

  /** Both sides must be one bit wide. */
  function MeasureOf(
    qubit: string, clbit: string, qubits: seq<Register>, clbits: seq<Register>, loss: seq<Loss>): Option<Reading> {
    var classical :- ResolveOperand(clbit, clbits, false);
    var quantum :- ResolveOperand(qubit, qubits, true);
    if |quantum.0| == |classical.0| == 1 then
      Some(Reading([Measure(quantum.0[0], classical.0[0])], quantum.1, loss))
    else None
  }

  function GateOf(signature: Signature, qubits: seq<Register>, shown: string -> string): Option<Reading> {
    var parameters := ParametersOf(if signature.parameterText.Some? then signature.parameterText.value else "", shown);
    var resolved :- ResolveAll(TopLevel(signature.operandText), qubits);
    var groups := resolved.0;
    var width := Widest(groups);
    if exists k :: 0 <= k < |groups| && |groups[k]| != 1 && |groups[k]| != width then None
    else
      Some(Reading(
        seq(width, i requires 0 <= i < width =>
          Gate(signature.name, parameters,
               seq(|groups|, k requires 0 <= k < |groups| => BroadcastBit(groups[k], i)))),
        resolved.1, []))
  }

  /** The bit of an operand in the i-th copy of a broadcast gate. */
  function BroadcastBit(bits: seq<Bit>, i: nat): Bit {
    if |bits| == 1 then bits[0] else if i < |bits| then bits[i] else Bit("", 0)
  }

  function ParseOperation(
    text: string, line: nat, qubits: seq<Register>, clbits: seq<Register>, shown: string -> string): Option<Reading> {
    var assignment := AssignedMeasure(text, 1);
    if assignment.Some? then MeasureOf(assignment.value.1, assignment.value.0, qubits, clbits, [])
    else
      var arrow := ArrowMeasure(text);
      if arrow.Some? then
        MeasureOf(arrow.value.0, arrow.value.1, qubits, clbits, [Loss("openqasm2_measure_syntax", Some(line))])
      else if LeadingKeyword(text) == "reset" then
        var resolved :- ResolveOperand(text[|"reset"|..], qubits, true);
        if |resolved.0| == 1 then Some(Reading([Reset(resolved.0[0])], resolved.1, [])) else None
      else if LeadingKeyword(text) == "barrier" then
        var resolved :- ResolveAll(TopLevel(Trim(text[|"barrier"|..])), qubits);
        Some(Reading([Barrier(Flatten(resolved.0))], resolved.1, []))
      else
        var signature :- CallSignature(text);
        if signature.operandText == "" then None else GateOf(signature, qubits, shown)
  }

  // ---------------------------------------------------------------- conditions and declarations

  /** The comparison value: a number, or `true` and `false` in any case. */
  function ReadLiteral(s: string): Option<(nat, string)> {
    if ReadNumber(s).Some? then ReadNumber(s)
    else if |s| >= 4 && Lower(s[..4]) == "true" then Some((1, s[4..]))
    else if |s| >= 5 && Lower(s[..5]) == "false" then Some((0, s[5..]))
    else None
  }

  /** `if (c[i] == N) ...`, with the keyword in any case. */
  function IndexedCompare(text: string): Option<(Condition, string)> {
    if |text| < 2 || Lower(text[..2]) != "if" then None
    else
      var open :- Expect(TrimStart(text[2..]), "(");
      var name :- ReadIdentifier(TrimStart(open));
      var index :- ReadIndex(TrimStart(name.1));
      var equals :- Expect(TrimStart(index.1), "==");
      var value :- ReadLiteral(TrimStart(equals));
      var close :- Expect(TrimStart(value.1), ")");
      Some((Condition(name.0, Some(index.0), value.0), TrimStart(close)))
  }

  /** `if (c[i]) ...`. */
  function IndexedTruthy(text: string): Option<(Condition, string)> {
    var keyword :- Expect(text, "if");
    var open :- Expect(TrimStart(keyword), "(");
    var name :- ReadIdentifier(TrimStart(open));
    var index :- ReadIndex(TrimStart(name.1));
    var close :- Expect(TrimStart(index.1), ")");
    Some((Condition(name.0, Some(index.0), 1), TrimStart(close)))
  }

  /** `if (c == N) ...`. */
  function WholeRegister(text: string): Option<(Condition, string)> {
    var keyword :- Expect(text, "if");
    var open :- Expect(TrimStart(keyword), "(");
    var name :- ReadIdentifier(TrimStart(open));
    var equals :- Expect(TrimStart(name.1), "==");
    var value :- ReadNumber(TrimStart(equals));
    var close :- Expect(TrimStart(value.1), ")");
    Some((Condition(name.0, None, value.0), TrimStart(close)))
  }

  function ParseCondition(text: string): Option<(Condition, string)> {
    if IndexedCompare(text).Some? then IndexedCompare(text)
    else if IndexedTruthy(text).Some? then IndexedTruthy(text)
    else WholeRegister(text)
  }

  datatype Declaration = Declaration(ofQubits: bool, register: Register, legacy: bool)

  /** `qubit[4] q`, `bit c` and the like. */
  function ModernDeclaration(text: string): Option<Declaration> {
    var ofQubits := Expect(text, "qubit").Some?;
    var rest :- if ofQubits then Expect(text, "qubit") else Expect(text, "bit");
    var index := ReadIndex(TrimStart(rest));
    var tail := if index.Some? then index.value.1 else rest;
    var name := TrimStart(tail);
    if |tail| > 0 && IsSpace(tail[0]) && 0 < IdentifierLength(name) == |name| then
      Some(Declaration(ofQubits, Register(name, if index.Some? then index.value.0 else 1), false))
    else None
  }

  /** `qreg q[4]` and `creg c[4]`. */
  function LegacyDeclaration(text: string): Option<Declaration> {
    var ofQubits := Expect(text, "qreg").Some?;
    var rest :- if ofQubits then Expect(text, "qreg") else Expect(text, "creg");
    if |rest| == 0 || !IsSpace(rest[0]) then None
    else
      var name :- ReadIdentifier(TrimStart(rest));
      var index :- ReadIndex(TrimStart(name.1));
      if index.1 == "" then Some(Declaration(ofQubits, Register(name.0, index.0), true)) else None
  }

  function ParseDeclaration(text: string): Option<Declaration> {
    if ModernDeclaration(text).Some? then ModernDeclaration(text) else LegacyDeclaration(text)
  }

  // ---------------------------------------------------------------- the statement loop

  /** Everything the loop carries from one statement to the next. */
  datatype Program = Program(
    qubits: seq<Register>, clbits: seq<Register>, operations: seq<Operation>, loss: seq<Loss>,
    sawVersion: bool, pending: Option<Condition>, blockDepth: nat)

  datatype Outcome = Continue(program: Program) | Refuse(line: nat) | DefinesGate(line: nat)

  /** An operation goes out under the pending condition; outside a block the condition is then spent. */
  function Emit(program: Program, operation: SimpleOperation): Program {
    if program.pending.None? then program.(operations := program.operations + [Plain(operation)])
    else
      program.(
        operations := program.operations + [Conditional(program.pending.value, operation)],
        pending := if program.blockDepth == 0 then None else program.pending)
  }

  function EmitAll(program: Program, operations: seq<SimpleOperation>): Program
    decreases |operations|
  {
    if |operations| == 0 then program else EmitAll(Emit(program, operations[0]), operations[1..])
  }

  function ApplyStatement(text: string, line: nat, program: Program, shown: string -> string): Outcome {
    var reading := ParseOperation(text, line, program.qubits, program.clbits, shown);
    if reading.None? then Refuse(line)
    else
      var read := reading.value;
      Continue(EmitAll(program.(qubits := read.qubits, loss := program.loss + read.loss), read.operations))
  }

  /** `3.0` and the like behind the version keyword. */
  function VersionOf(text: string): Option<string> {
    var rest := if |text| >= 8 then text[8..] else "";
    var version := TrimStart(rest);
    if |version| > 0 && IsSpace(rest[0])
      && (forall i :: 0 <= i < |version| ==> IsDigit(version[i]) || version[i] == '.')
    then Some(version)
    else None
  }

  function ReadVersion(text: string, line: nat, program: Program): Outcome {
    var version := VersionOf(text);
    if version.None? then Refuse(line)
    else if version.value[0] == '2' then
      Continue(program.(loss := program.loss + [Loss("openqasm2_source", Some(line))], sawVersion := true))
    else if version.value[0] == '3' then Continue(program.(sawVersion := true))
    else Refuse(line)
  }

  /** The position of the next quotation mark, if any stands after at least one other character. */
  function QuoteAt(s: string, from: nat): Option<nat>
    decreases if from < |s| then |s| - from else 0
  {
    if from >= |s| then None else if s[from] == '"' then Some(from) else QuoteAt(s, from + 1)
  }

  /** The quoted name behind the first `include` that one follows. */
  function IncludedFile(text: string): Option<string> {
    if |text| == 0 then None
    else
      var here := IncludedHere(text);
      if here.Some? then here else IncludedFile(text[1..])
  }

  function IncludedHere(text: string): Option<string> {
    var rest :- Expect(text, "include");
    var open :- Expect(TrimStart(rest), "\"");
    var close :- QuoteAt(open, 0);
    if IsSpace(rest[0]) && 0 < close <= |open| then Some(open[..close]) else None
  }

  function ReadInclude(text: string, line: nat, program: Program): Outcome {
    var file := IncludedFile(text);
    if file.None? || file.value == "qelib1.inc" || file.value == "stdgates.inc" then Continue(program) else Refuse(line)
  }

  /**
   * Keywords with no place in the subset; the last two are found because the table is a host object with a prototype.
   */
  predicate IsUnsupported(keyword: string) {
    || keyword in {"def", "defcal", "cal", "defcalgrammar", "delay", "duration", "durationof", "stretch", "box", "for"}
    || keyword in {"while", "switch", "return", "extern", "input", "output", "pragma", "array", "let"}
    || keyword in {"ctrl", "negctrl", "inv", "pow"}
    || keyword in {"constructor", "__proto__"}
  }

  function ReadCondition(text: string, line: nat, program: Program, shown: string -> string): Outcome {
    var parsed := ParseCondition(text);
    if parsed.None? then Refuse(line)
    else
      var condition := parsed.value.0;
      var register := Find(program.clbits, condition.register);
      if register.None? || (condition.bit.Some? && condition.bit.value >= register.value.size) then Refuse(line)
      else
        var guarded := program.(pending := Some(condition));
        var body := Trim(parsed.value.1);
        if body == "" then Continue(guarded)
        else
          var applied := ApplyStatement(body, line, guarded, shown);
          if applied.Continue? then Continue(applied.program.(pending := None)) else applied
  }

  function Declare(declaration: Declaration, line: nat, program: Program): Outcome {
    var register := declaration.register;
    var known := if declaration.ofQubits then program.qubits else program.clbits;
    if Find(known, register.name).Some? then Refuse(line)
    else
      var loss := program.loss + if declaration.legacy then [Loss("openqasm2_register_syntax", Some(line))] else [];
      Continue(if declaration.ofQubits then program.(qubits := known + [register], loss := loss)
               else program.(clbits := known + [register], loss := loss))
  }

  /** One turn of the loop, up to the first gate definition. */
  function ReadStatement(statement: Statement, program: Program, shown: string -> string): Outcome {
    var text, line := Trim(Collapse(statement.text)), statement.line;
    var keyword := LeadingKeyword(text);
    if text == "" then Continue(program)
    else if text == "{" then
      Continue(if program.pending.Some? then program.(blockDepth := program.blockDepth + 1) else program)
    else if text == "}" then
      if program.blockDepth == 0 then Continue(program)
      else
        var left := program.(blockDepth := program.blockDepth - 1);
        Continue(if left.blockDepth == 0 then left.(pending := None) else left)
    else if keyword == "gate" then DefinesGate(line)
    else if keyword == "openqasm" then ReadVersion(text, line, program)
    else if keyword == "include" then ReadInclude(text, line, program)
    else if IsUnsupported(keyword) then Refuse(line)
    else if keyword == "if" then ReadCondition(text, line, program, shown)
    else
      var declaration := ParseDeclaration(text);
      if declaration.Some? then Declare(declaration.value, line, program)
      else ApplyStatement(text, line, program, shown)
  }

  const START := Program([], [], [], [], false, None, 0)

  function ReadStatements(statements: seq<Statement>, shown: string -> string): Outcome {
    if |statements| == 0 then Continue(START)
    else
      var before := ReadStatements(statements[..|statements| - 1], shown);
      if before.Continue? then ReadStatement(statements[|statements| - 1], before.program, shown) else before
  }

  datatype Result = Parsed(circuit: Circuit, loss: seq<Loss>) | Rejected(line: nat) | HasDefinitions(line: nat)

  function Finish(outcome: Outcome): Result {
    match outcome
    case Continue(program) =>
      Parsed(Circuit(program.qubits, program.clbits, program.operations),
             program.loss + if program.sawVersion then [] else [Loss("version_declaration", None)])
    case Refuse(line) => Rejected(line)
    case DefinesGate(line) => HasDefinitions(line)
  }

  /** The circuit a source text stands for. */
  function Parse(source: string, shown: string -> string): Result {
    Finish(ReadStatements(Statements(source), shown))
  }
}
