/** Which names a gate can be read back under (src/circuit/qasm3.ts:699-898). */
module QasmNames {
  import opened Options
  import opened QasmText
  import opened QasmReader
  import opened QasmWriter
  import opened QasmLexing
  import opened QasmOperations
  import opened QasmRoundTrip
  import opened QasmForms

  /** The line of a gate begins with its name. */
  lemma GateLeads(gate: SimpleOperation, qubits: seq<Register>, shown: string -> string) returns (rest: string)
    requires IsGateOf(gate, qubits, shown)
    ensures SimpleText(gate) == gate.name + rest && |rest| > 0 && !IsWord(rest[0])
    ensures HasNoEquals(SimpleText(gate))
  {
    hide Join, FormatBits, FormatParameters, IsIdentifier, HasNoEquals, HasNoDash, IsPlainText, ParensMatch;
    var operands := Join(FormatBits(gate.qubits));
    forall i | 0 <= i < |gate.qubits|
      ensures gate.qubits[i].register == PHYSICAL || IsIdentifier(gate.qubits[i].register)
    {
      QubitNamed(gate.qubits[i], qubits);
    }
    BitsArePlain(gate.qubits);
    NameNoEquals(gate.name);
    if |gate.parameters| == 0 {
      rest := " " + operands;
      assert SimpleText(gate) == gate.name + " " + operands;
      SeparatedNoEquals(gate.name, operands);
    } else {
      var inner := Join(FormatParameters(gate.parameters));
      rest := "(" + inner + ")" + " " + operands;
      assert SimpleText(gate) == gate.name + "(" + inner + ")" + " " + operands;
      ParametersRead(gate.parameters, shown);
      CallNoEquals(gate.name, inner, operands);
    }
  }

  /** What must not happen: the line adds the gate. */
  predicate AddsGate(outcome: Outcome, program: Program, gate: SimpleOperation) {
    outcome.Continue? && outcome.program.operations == program.operations + [Plain(gate)]
  }

  /** The words of other statements: the line is refused, or dropped, as the engine does with `include`. */
  lemma ReservedNamesAreLost(
    name: string, rest: string, line: nat, program: Program, gate: SimpleOperation, shown: string -> string)
    requires IsIdentifier(name) && (|rest| > 0 ==> !IsWord(rest[0])) && IsPlainText(name + rest)
    requires BeginsStatement(Lower(name)) && Lower(name) != "if"
    ensures var outcome := ReadStatement(Statement(name + rest, line), program, shown);
            && !AddsGate(outcome, program, gate)
            && (outcome.Continue? ==>
              outcome.program.operations == program.operations && Lower(name) in {"openqasm", "include"})
  {
    hide Collapse, Trim, Lower, LeadingKeyword, IsPlainText, IsIdentifier, VersionOf, IncludedFile, IsUnsupported;
    PlainStays(name + rest);
    KeywordReads(name, rest);
  }

  /** A condition adds conditionals before anything else, or nothing. */
  lemma ConditionAddsNoGate(text: string, line: nat, program: Program, gate: SimpleOperation, shown: string -> string)
    ensures !AddsGate(ReadCondition(text, line, program, shown), program, gate)
  {
    hide ParseCondition, ParseOperation, Find, Trim, EmitAll;
    var outcome := ReadCondition(text, line, program, shown);
    if outcome.Continue? {
      var condition := ParseCondition(text).value.0;
      var body := Trim(ParseCondition(text).value.1);
      if body != "" {
        var guarded := program.(pending := Some(condition));
        var read := ParseOperation(body, line, guarded.qubits, guarded.clbits, shown).value;
        var begun := guarded.(qubits := read.qubits, loss := guarded.loss + read.loss);
        GuardReaches(begun, read.operations);
        if |read.operations| > 0 {
          assert EmitAll(begun, read.operations).operations[|program.operations|]
            == Conditional(condition, read.operations[0]);
        }
      }
    }
  }

  lemma IfIsNoGate(
    name: string, rest: string, line: nat, program: Program, gate: SimpleOperation, shown: string -> string)
    requires IsIdentifier(name) && (|rest| > 0 ==> !IsWord(rest[0])) && IsPlainText(name + rest) && Lower(name) == "if"
    ensures !AddsGate(ReadStatement(Statement(name + rest, line), program, shown), program, gate)
  {
    hide Collapse, Trim, Lower, LeadingKeyword, IsPlainText, IsIdentifier, IsUnsupported, ReadCondition, AddsGate;
    PlainStays(name + rest);
    KeywordReads(name, rest);
    TwoLetters("if");
    ConditionAddsNoGate(name + rest, line, program, gate, shown);
  }

  lemma ResetParses(name: string, rest: string, line: nat, program: Program, shown: string -> string)
    requires IsIdentifier(name) && |rest| > 0 && !IsWord(rest[0]) && HasNoEquals(name + rest) && name != "measure"
    requires Lower(name) == "reset" || Lower(name) == "barrier"
    ensures var read := ParseOperation(name + rest, line, program.qubits, program.clbits, shown);
            read.Some? ==> |read.value.operations| == 1 && !read.value.operations[0].Gate?
  {
    hide Trim, Lower, IsIdentifier, HasNoEquals, AssignedMeasure, ArrowMeasure, CallSignature, GateOf, ResolveOperand,
         ResolveAll, Flatten, TopLevel, LeadingKeyword;
    KeywordReads(name, rest);
    NoAssignment(name + rest, 1);
    NoArrow(name, rest);
  }

  lemma AppliedAddsNoGate(text: string, line: nat, program: Program, gate: SimpleOperation, shown: string -> string)
    requires gate.Gate? && program.pending.None?
    requires var read := ParseOperation(text, line, program.qubits, program.clbits, shown);
             read.Some? ==> |read.value.operations| == 1 && !read.value.operations[0].Gate?
    ensures !AddsGate(ApplyStatement(text, line, program, shown), program, gate)
  {
    hide ParseOperation;
    var read := ParseOperation(text, line, program.qubits, program.clbits, shown);
    if read.Some? {
      var operation := read.value.operations[0];
      assert read.value.operations == [operation];
      EmitOne(program.(qubits := read.value.qubits, loss := program.loss + read.value.loss), operation);
      var outcome := ApplyStatement(text, line, program, shown);
      assert outcome.program.operations == program.operations + [Plain(operation)];
      assert outcome.program.operations[|program.operations|] == Plain(operation);
    }
  }

  /** A gate named like a reset or a barrier is read as one, or refused. */
  lemma ResetIsNoGate(
    name: string, rest: string, line: nat, program: Program, gate: SimpleOperation, shown: string -> string)
    requires IsIdentifier(name) && |rest| > 0 && !IsWord(rest[0]) && IsPlainText(name + rest)
      && HasNoEquals(name + rest)
    requires Lower(name) == "reset" || Lower(name) == "barrier"
    requires gate.Gate? && program.pending.None?
    ensures !AddsGate(ReadStatement(Statement(name + rest, line), program, shown), program, gate)
  {
    OtherWords(name);
    hide Collapse, Trim, Lower, IsPlainText, IsIdentifier, IsUnsupported, HasNoEquals, ParseDeclaration,
         LeadingKeyword, ApplyStatement, AddsGate, ParseOperation;
    PlainStays(name + rest);
    KeywordReads(name, rest);
    IsFree(Lower(name));
    NoDeclaration(name, rest);
    ResetParses(name, rest, line, program, shown);
    AppliedAddsNoGate(name + rest, line, program, gate, shown);
  }

  lemma IsFree(word: string)
    requires (|word| == 5 && word[0] == 'r') || (|word| == 7 && word[0] == 'b')
    ensures !BeginsStatement(word)
  {
  }

  /** Another word than the four of the declarations and than `measure`. */
  lemma OtherWords(name: string)
    requires Lower(name) == "reset" || Lower(name) == "barrier"
    ensures name !in {"qubit", "bit", "qreg", "creg"} && name != "measure"
  {
    hide Lower;
    LowerStays("qubit");
    LowerStays("bit");
    LowerStays("qreg");
    LowerStays("creg");
    LowerStays("measure");
  }

  lemma DeclarationAddsNothing(gate: SimpleOperation, line: nat, program: Program, shown: string -> string)
    requires IsGateOf(gate, program.qubits, shown) && LooksLikeDeclaration(gate)
    requires !BeginsStatement(Lower(gate.name))
    ensures !AddsGate(ReadStatement(Statement(SimpleText(gate), line), program, shown), program, gate)
  {
    hide Collapse, Trim, Lower, IsPlainText, IsIdentifier, IsUnsupported, ParseDeclaration, LeadingKeyword, Find,
         Decimal;
    var bit := gate.qubits[0];
    var rest := GateLeads(gate, program.qubits, shown);
    GateIsPlain(gate, program.qubits, shown);
    PlainStays(SimpleText(gate));
    KeywordReads(gate.name, rest);
    assert FormatBits(gate.qubits) == [FormatBit(bit)];
    var behind := bit.register + ("[" + Decimal(bit.index) + "]");
    assert SimpleText(gate) == gate.name + (" " + behind);
    LegacyDeclares(gate.name == "qreg", Register(bit.register, bit.index));
  }

  /**
   * The line of a gate with proper parameters and operands is read as that gate if and only if its name begins no
   * other statement, and the line is no declaration.
   */
  lemma GateLineIsReadExactlyWhen(gate: SimpleOperation, line: nat, program: Program, shown: string -> string)
    requires IsGateOf(gate, program.qubits, shown) && program.pending.None?
    ensures AddsGate(ReadStatement(Statement(SimpleText(gate), line), program, shown), program, gate)
            <==> IsGateName(gate.name) && StandsAlone(gate)
  {
    hide ReadStatement, SimpleText, IsPlainText, IsIdentifier, Lower, BeginsStatement, IsParameter, IsQubit,
         HasNoEquals, LooksLikeDeclaration;
    var rest := GateLeads(gate, program.qubits, shown);
    GateIsPlain(gate, program.qubits, shown);
    if !BeginsStatement(Lower(gate.name)) {
      if Lower(gate.name) == "reset" || Lower(gate.name) == "barrier" {
        ResetIsNoGate(gate.name, rest, line, program, gate, shown);
      } else if LooksLikeDeclaration(gate) {
        DeclarationAddsNothing(gate, line, program, shown);
      } else {
        PlainReads(gate, line, program, shown);
      }
    } else if Lower(gate.name) == "if" {
      IfIsNoGate(gate.name, rest, line, program, gate, shown);
    } else {
      ReservedNamesAreLost(gate.name, rest, line, program, gate, shown);
    }
  }

  /** A gate named `constructor` cannot be read back: the table of unsupported keywords is a host object. */
  lemma ConstructorIsRefused(gate: SimpleOperation, line: nat, program: Program, shown: string -> string)
    requires IsGateOf(gate, program.qubits, shown) && gate.name == "constructor"
    ensures ReadStatement(Statement(SimpleText(gate), line), program, shown) == Refuse(line)
  {
    hide Collapse, Trim, Lower, SimpleText, LeadingKeyword, IsPlainText, IsIdentifier, IsParameter, IsQubit,
         HasNoEquals;
    var rest := GateLeads(gate, program.qubits, shown);
    GateIsPlain(gate, program.qubits, shown);
    PlainStays(gate.name + rest);
    KeywordReads(gate.name, rest);
    LowerStays(gate.name);
  }
}
