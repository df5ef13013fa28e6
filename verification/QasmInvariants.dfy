/** What every accepted text yields, statement by statement (src/circuit/qasm3.ts:353-468, 669-921). */
module QasmInvariants {
  import opened Options
  import opened QasmText
  import opened QasmReader
  import opened QasmOperations
  import opened QasmRoundTrip

  /** A bit inside a register of the circuit. */
  predicate Holds(registers: seq<Register>, bit: Bit) {
    var register := Find(registers, bit.register);
    register.Some? && bit.index < register.value.size
  }

  predicate HoldsAll(registers: seq<Register>, bits: seq<Bit>) {
    forall i :: 0 <= i < |bits| ==> Holds(registers, bits[i])
  }

  predicate SimpleIsSound(operation: SimpleOperation, qubits: seq<Register>, clbits: seq<Register>) {
    && HoldsAll(qubits, QubitsOf(operation))
    && (operation.Measure? ==> Holds(clbits, operation.clbit))
  }

  predicate ConditionIsSound(condition: Condition, clbits: seq<Register>) {
    var register := Find(clbits, condition.register);
    register.Some? && (condition.bit.Some? ==> condition.bit.value < register.value.size)
  }

  predicate OperationIsSound(operation: Operation, qubits: seq<Register>, clbits: seq<Register>) {
    match operation
    case Plain(simple) => SimpleIsSound(simple, qubits, clbits)
    case Conditional(condition, body) => ConditionIsSound(condition, clbits) && SimpleIsSound(body, qubits, clbits)
  }

  predicate AllSound(operations: seq<Operation>, qubits: seq<Register>, clbits: seq<Register>) {
    forall i :: 0 <= i < |operations| ==> OperationIsSound(operations[i], qubits, clbits)
  }

  predicate AllSimpleSound(operations: seq<SimpleOperation>, qubits: seq<Register>, clbits: seq<Register>) {
    forall i :: 0 <= i < |operations| ==> SimpleIsSound(operations[i], qubits, clbits)
  }

  /** Names are unique, every operation stays inside the registers, and so does the pending condition. */
  predicate IsSound(program: Program) {
    && DistinctNames(program.qubits) && DistinctNames(program.clbits)
    && AllSound(program.operations, program.qubits, program.clbits)
    && (program.pending.Some? ==> ConditionIsSound(program.pending.value, program.clbits))
  }

  // ---------------------------------------------------------------- registers only grow

  ghost predicate Grows(before: seq<Register>, after: seq<Register>) {
    forall name: string :: Find(before, name).Some? ==>
      Find(after, name).Some? && Find(before, name).value.size <= Find(after, name).value.size
  }

  lemma {:induction false} FindIs(registers: seq<Register>, name: string)
    ensures Find(registers, name).Some? <==> exists i :: 0 <= i < |registers| && registers[i].name == name
    ensures Find(registers, name).Some? ==> Find(registers, name).value.name == name
    decreases |registers|
  {
    if |registers| > 0 {
      FindIs(registers[1..], name);
      if registers[0].name != name && Find(registers, name).Some? {
        var i :| 0 <= i < |registers[1..]| && registers[1..][i].name == name;
        assert registers[i + 1].name == name;
      }
      if i :| 0 <= i < |registers| && registers[i].name == name && registers[0].name != name {
        assert registers[1..][i - 1].name == name;
      }
    }
  }

  lemma {:induction false} WidenHolds(registers: seq<Register>, index: nat)
    ensures var hardware := Find(Widen(registers, index), PHYSICAL); hardware.Some? && index < hardware.value.size
    ensures Find(registers, PHYSICAL).Some? ==>
              Find(registers, PHYSICAL).value.size <= Find(Widen(registers, index), PHYSICAL).value.size
    ensures |registers| <= |Widen(registers, index)| <= |registers| + 1
    ensures forall i :: 0 <= i < |registers| ==> Widen(registers, index)[i].name == registers[i].name
    ensures |Widen(registers, index)| > |registers| ==>
              Widen(registers, index)[|registers|].name == PHYSICAL && Find(registers, PHYSICAL).None?
    decreases |registers|
  {
    if |registers| > 0 && registers[0].name != PHYSICAL {
      WidenHolds(registers[1..], index);
      assert Widen(registers, index)[1..] == Widen(registers[1..], index);
    } else if |registers| > 0 {
      assert Widen(registers, index)[1..] == registers[1..];
    }
  }

  lemma WidenGrows(registers: seq<Register>, index: nat)
    ensures Grows(registers, Widen(registers, index))
    ensures DistinctNames(registers) ==> DistinctNames(Widen(registers, index))
  {
    hide Find, Widen;
    WidenHolds(registers, index);
    FindIs(registers, PHYSICAL);
    forall name: string | Find(registers, name).Some?
      ensures Find(Widen(registers, index), name).Some?
           && Find(registers, name).value.size <= Find(Widen(registers, index), name).value.size
    {
      if name != PHYSICAL { WidenFinds(registers, index, name); }
    }
  }

  lemma {:induction false} AppendGrows(registers: seq<Register>, register: Register)
    requires Find(registers, register.name).None?
    ensures Grows(registers, registers + [register])
    ensures DistinctNames(registers) ==> DistinctNames(registers + [register])
  {
    hide Find;
    FindIs(registers, register.name);
    forall name: string | Find(registers, name).Some?
      ensures Find(registers + [register], name) == Find(registers, name)
    {
      FindBehind(registers, register, name);
    }
  }

  lemma HoldsGrows(before: seq<Register>, after: seq<Register>, bits: seq<Bit>)
    requires HoldsAll(before, bits) && Grows(before, after)
    ensures HoldsAll(after, bits)
  {
    hide Find;
    forall i | 0 <= i < |bits| ensures Holds(after, bits[i]) {
      assert Holds(before, bits[i]);
      assert Find(before, bits[i].register).Some?;
    }
  }

  lemma SoundGrows(
    operations: seq<Operation>, qubits: seq<Register>, clbits: seq<Register>, qubits': seq<Register>,
    clbits': seq<Register>)
    requires AllSound(operations, qubits, clbits) && Grows(qubits, qubits') && Grows(clbits, clbits')
    ensures AllSound(operations, qubits', clbits')
  {
    hide Find, HoldsAll;
    forall i | 0 <= i < |operations| ensures OperationIsSound(operations[i], qubits', clbits') {
      assert OperationIsSound(operations[i], qubits, clbits);
      var simple := BodyOf(operations[i]);
      HoldsGrows(qubits, qubits', QubitsOf(simple));
      if simple.Measure? { assert Find(clbits, simple.clbit.register).Some?; }
      if operations[i].Conditional? { assert Find(clbits, operations[i].condition.register).Some?; }
    }
  }

  // ---------------------------------------------------------------- operands and operations

  lemma ResolvesInside(operand: string, registers: seq<Register>, ofQubits: bool)
    requires DistinctNames(registers) && ResolveOperand(operand, registers, ofQubits).Some?
    ensures var resolved := ResolveOperand(operand, registers, ofQubits).value;
            HoldsAll(resolved.1, resolved.0) && Grows(registers, resolved.1) && DistinctNames(resolved.1)
            && (!ofQubits ==> resolved.1 == registers)
  {
    hide Trim, TrimStart, ReadIdentifier, ReadIndex, ReadNumber, Expect, Widen, Find;
    var text := Trim(operand);
    if ReadIdentifier(text).None? {
      var index := ReadNumber(Expect(text, "$").value).value.0;
      WidenGrows(registers, index);
      WidenHolds(registers, index);
    }
  }

  lemma GrowsOn(a: seq<Register>, b: seq<Register>, c: seq<Register>)
    requires Grows(a, b) && Grows(b, c)
    ensures Grows(a, c)
  {
    hide Find;
    forall name: string | Find(a, name).Some?
      ensures Find(c, name).Some? && Find(a, name).value.size <= Find(c, name).value.size
    {
      assert Find(b, name).Some?;
    }
  }

  lemma {:induction false} AllResolveInside(operands: seq<string>, registers: seq<Register>)
    requires DistinctNames(registers) && ResolveAll(operands, registers).Some?
    ensures var resolved := ResolveAll(operands, registers).value;
            && Grows(registers, resolved.1) && DistinctNames(resolved.1)
            && forall i :: 0 <= i < |resolved.0| ==> HoldsAll(resolved.1, resolved.0[i])
    decreases |operands|
  {
    hide ResolveOperand, Find, Grows, HoldsAll, DistinctNames;
    if |operands| > 0 {
      var n := |operands| - 1;
      AllResolveInside(operands[..n], registers);
      var before := ResolveAll(operands[..n], registers).value;
      ResolvesInside(operands[n], before.1, true);
      var last := ResolveOperand(operands[n], before.1, true).value;
      GrowsOn(registers, before.1, last.1);
      var all := before.0 + [last.0];
      forall i | 0 <= i < |all| ensures HoldsAll(last.1, all[i]) {
        if i < |before.0| { HoldsGrows(before.1, last.1, before.0[i]); }
      }
    } else {
      SameGrows(registers);
    }
  }

  lemma SameGrows(registers: seq<Register>)
    ensures Grows(registers, registers)
  {
  }

  lemma {:induction false} FlattenInside(groups: seq<seq<Bit>>, registers: seq<Register>)
    requires forall i :: 0 <= i < |groups| ==> HoldsAll(registers, groups[i])
    ensures HoldsAll(registers, Flatten(groups))
    decreases |groups|
  {
    if |groups| > 0 { FlattenInside(groups[..|groups| - 1], registers); }
  }

  lemma GateInside(signature: Signature, qubits: seq<Register>, clbits: seq<Register>, shown: string -> string)
    requires DistinctNames(qubits) && GateOf(signature, qubits, shown).Some?
    ensures var reading := GateOf(signature, qubits, shown).value;
            Grows(qubits, reading.qubits) && DistinctNames(reading.qubits)
              && AllSimpleSound(reading.operations, reading.qubits, clbits)
  {
    hide ResolveAll, TopLevel, ParametersOf, Find, Grows, DistinctNames, Holds, Widest;
    var operands := TopLevel(signature.operandText);
    AllResolveInside(operands, qubits);
    var groups := ResolveAll(operands, qubits).value.0;
    var after := ResolveAll(operands, qubits).value.1;
    var reading := GateOf(signature, qubits, shown).value;
    var width := Widest(groups);
    forall i | 0 <= i < |reading.operations| ensures SimpleIsSound(reading.operations[i], after, clbits) {
      var bits := reading.operations[i].qubits;
      forall k | 0 <= k < |bits| ensures Holds(after, bits[k]) {
        assert HoldsAll(after, groups[k]) && (|groups[k]| == 1 || |groups[k]| == width);
        assert bits[k] == BroadcastBit(groups[k], i);
        assert bits[k] == groups[k][if |groups[k]| == 1 then 0 else i];
      }
    }
  }

  lemma MeasureInside(qubit: string, clbit: string, qubits: seq<Register>, clbits: seq<Register>, loss: seq<Loss>)
    requires DistinctNames(qubits) && DistinctNames(clbits) && MeasureOf(qubit, clbit, qubits, clbits, loss).Some?
    ensures var reading := MeasureOf(qubit, clbit, qubits, clbits, loss).value;
            Grows(qubits, reading.qubits) && DistinctNames(reading.qubits)
              && AllSimpleSound(reading.operations, reading.qubits, clbits)
  {
    hide ResolveOperand, Find, Grows, DistinctNames, Holds;
    ResolvesInside(clbit, clbits, false);
    ResolvesInside(qubit, qubits, true);
  }

  lemma OperationInside(text: string, line: nat, qubits: seq<Register>, clbits: seq<Register>, shown: string -> string)
    requires DistinctNames(qubits) && DistinctNames(clbits) && ParseOperation(text, line, qubits, clbits, shown).Some?
    ensures var reading := ParseOperation(text, line, qubits, clbits, shown).value;
            Grows(qubits, reading.qubits) && DistinctNames(reading.qubits)
              && AllSimpleSound(reading.operations, reading.qubits, clbits)
  {
    hide ResolveOperand, ResolveAll, MeasureOf, GateOf, AssignedMeasure, ArrowMeasure, CallSignature, Lower,
         TopLevel, Trim, Find,
         Grows, DistinctNames, Holds, Flatten;
    var assignment, arrow := AssignedMeasure(text, 1), ArrowMeasure(text);
    if assignment.Some? {
      MeasureInside(assignment.value.1, assignment.value.0, qubits, clbits, []);
    } else if arrow.Some? {
      MeasureInside(arrow.value.0, arrow.value.1, qubits, clbits, [Loss("openqasm2_measure_syntax", Some(line))]);
    } else if LeadingKeyword(text) == "reset" {
      ResolvesInside(text[|"reset"|..], qubits, true);
    } else if LeadingKeyword(text) == "barrier" {
      var operands := TopLevel(Trim(text[|"barrier"|..]));
      AllResolveInside(operands, qubits);
      FlattenInside(ResolveAll(operands, qubits).value.0, ResolveAll(operands, qubits).value.1);
    } else {
      GateInside(CallSignature(text).value, qubits, clbits, shown);
    }
  }

  // ---------------------------------------------------------------- statements

  lemma {:induction false} EmitKeepsSound(program: Program, operations: seq<SimpleOperation>)
    requires IsSound(program) && AllSimpleSound(operations, program.qubits, program.clbits)
    ensures IsSound(EmitAll(program, operations))
    decreases |operations|
  {
    hide DistinctNames, SimpleIsSound, ConditionIsSound;
    if |operations| > 0 {
      var next := Emit(program, operations[0]);
      assert SimpleIsSound(operations[0], program.qubits, program.clbits);
      assert IsSound(next);
      assert forall i :: 0 <= i < |operations[1..]| ==> operations[1..][i] == operations[i + 1];
      EmitKeepsSound(next, operations[1..]);
    }
  }

  lemma ApplyKeepsSound(text: string, line: nat, program: Program, shown: string -> string)
    requires IsSound(program)
    ensures var outcome := ApplyStatement(text, line, program, shown); outcome.Continue? ==> IsSound(outcome.program)
  {
    hide ParseOperation, DistinctNames, AllSound, Grows, AllSimpleSound, ConditionIsSound, EmitAll;
    var reading := ParseOperation(text, line, program.qubits, program.clbits, shown);
    if reading.Some? {
      OperationInside(text, line, program.qubits, program.clbits, shown);
      SameGrows(program.clbits);
      SoundGrows(program.operations, program.qubits, program.clbits, reading.value.qubits, program.clbits);
      EmitKeepsSound(program.(qubits := reading.value.qubits, loss := program.loss + reading.value.loss),
                     reading.value.operations);
    }
  }

  lemma DeclareKeepsSound(declaration: Declaration, line: nat, program: Program)
    requires IsSound(program)
    ensures var outcome := Declare(declaration, line, program); outcome.Continue? ==> IsSound(outcome.program)
  {
    hide DistinctNames, AllSound, Find, Grows;
    var register := declaration.register;
    var known := if declaration.ofQubits then program.qubits else program.clbits;
    if Find(known, register.name).None? {
      AppendGrows(known, register);
      SameGrows(program.qubits);
      SameGrows(program.clbits);
      if declaration.ofQubits {
        SoundGrows(program.operations, program.qubits, program.clbits, known + [register], program.clbits);
      } else {
        SoundGrows(program.operations, program.qubits, program.clbits, program.qubits, known + [register]);
        if program.pending.Some? { ConditionGrows(program.pending.value, known, known + [register]); }
      }
    }
  }

  lemma ConditionGrows(condition: Condition, before: seq<Register>, after: seq<Register>)
    requires ConditionIsSound(condition, before) && Grows(before, after)
    ensures ConditionIsSound(condition, after)
  {
    assert Find(before, condition.register).Some?;
  }

  lemma ConditionKeepsSound(text: string, line: nat, program: Program, shown: string -> string)
    requires IsSound(program)
    ensures var outcome := ReadCondition(text, line, program, shown); outcome.Continue? ==> IsSound(outcome.program)
  {
    hide ParseCondition, Trim, DistinctNames, AllSound, ApplyStatement, Find;
    var parsed := ParseCondition(text);
    if parsed.Some? {
      var guarded := program.(pending := Some(parsed.value.0));
      if ConditionIsSound(parsed.value.0, program.clbits) {
        ApplyKeepsSound(Trim(parsed.value.1), line, guarded, shown);
      }
    }
  }

  /** Every statement keeps the names unique and everything inside the registers. */
  lemma StatementKeepsSound(statement: Statement, program: Program, shown: string -> string)
    requires IsSound(program)
    ensures var outcome := ReadStatement(statement, program, shown); outcome.Continue? ==> IsSound(outcome.program)
  {
    hide Trim, Collapse, LeadingKeyword, ReadCondition, ApplyStatement, Declare, ParseDeclaration,
         IsUnsupported, VersionOf, IncludedFile,
         DistinctNames, AllSound, ConditionIsSound;
    var text, line := Trim(Collapse(statement.text)), statement.line;
    ConditionKeepsSound(text, line, program, shown);
    ApplyKeepsSound(text, line, program, shown);
    if ParseDeclaration(text).Some? { DeclareKeepsSound(ParseDeclaration(text).value, line, program); }
  }

  lemma {:induction false} StatementsKeepSound(statements: seq<Statement>, shown: string -> string)
    ensures var outcome := ReadStatements(statements, shown); outcome.Continue? ==> IsSound(outcome.program)
    decreases |statements|
  {
    hide ReadStatement;
    if |statements| > 0 {
      var before := ReadStatements(statements[..|statements| - 1], shown);
      StatementsKeepSound(statements[..|statements| - 1], shown);
      if before.Continue? { StatementKeepsSound(statements[|statements| - 1], before.program, shown); }
    }
  }

  /** Whatever text is accepted: register names are unique, and every bit and condition lies inside its register. */
  lemma ParsedIsSound(source: string, shown: string -> string)
    ensures var result := Parse(source, shown);
            result.Parsed? ==>
              && DistinctNames(result.circuit.qubits) && DistinctNames(result.circuit.clbits)
              && AllSound(result.circuit.operations, result.circuit.qubits, result.circuit.clbits)
  {
    hide Statements, ReadStatements, DistinctNames, AllSound;
    StatementsKeepSound(Statements(source), shown);
  }
}
