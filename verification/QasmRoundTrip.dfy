/** Reading undoes writing (src/circuit/qasm3.ts:669-921, 1076-1103). */
module QasmRoundTrip {
  import opened Options
  import opened QasmText
  import opened QasmReader
  import opened QasmWriter
  import opened QasmLexing
  import opened QasmOperations

  // ---------------------------------------------------------------- which circuits

  /** Words a line cannot begin with unless it is that statement, in any case of letters. */
  predicate BeginsStatement(word: string) {
    word in {"gate", "openqasm", "include", "if"} || IsUnsupported(word)
  }

  /** `qreg q[i]` and `creg q[i]` declare a register, whatever is meant. */
  predicate LooksLikeDeclaration(simple: SimpleOperation) {
    && simple.Gate? && simple.name in {"qreg", "creg"}
    && |simple.parameters| == 0 && |simple.qubits| == 1 && simple.qubits[0].register != PHYSICAL
  }

  /** On a line of its own an operation must not read as another statement. */
  predicate StandsAlone(simple: SimpleOperation) {
    !BeginsStatement(Lower(Lead(simple))) && !LooksLikeDeclaration(simple)
  }

  predicate IsOperation(operation: Operation, qubits: seq<Register>, clbits: seq<Register>, shown: string -> string) {
    match operation
    case Plain(simple) => IsSimple(simple, qubits, clbits, shown) && StandsAlone(simple)
    case Conditional(condition, body) =>
      && IsSimple(body, qubits, clbits, shown)
      && IsIdentifier(condition.register)
      && var register := Find(clbits, condition.register);
      register.Some? && (condition.bit.Some? ==> condition.bit.value < register.value.size)
  }

  predicate DistinctNames(registers: seq<Register>) {
    forall i, j :: 0 <= i < j < |registers| ==> registers[i].name != registers[j].name
  }

  function BodyOf(operation: Operation): SimpleOperation {
    match operation
    case Plain(simple) => simple
    case Conditional(_, body) => body
  }

  function AllQubits(operations: seq<Operation>): seq<Bit> {
    if |operations| == 0 then []
    else AllQubits(operations[..|operations| - 1]) + QubitsOf(BodyOf(operations[|operations| - 1]))
  }

  /** The hardware register stands last and is as wide as the highest index in use. */
  predicate HardwareIsTight(circuit: Circuit) {
    var used := AllQubits(circuit.operations);
    && (forall b :: b in used && b.register == PHYSICAL ==>
          var hardware := Find(circuit.qubits, PHYSICAL);
          hardware.Some? && b.index < hardware.value.size)
    && forall i :: 0 <= i < |circuit.qubits| && circuit.qubits[i].name == PHYSICAL ==>
         && i == |circuit.qubits| - 1
         && circuit.qubits[i].size > 0
         && Bit(PHYSICAL, circuit.qubits[i].size - 1) in used
  }

  /** Distinct names, and operations over declared bits or hardware qubits that can be told apart when read. */
  predicate IsReadable(circuit: Circuit, shown: string -> string) {
    && DistinctNames(circuit.qubits) && DistinctNames(circuit.clbits)
    && (forall i :: 0 <= i < |circuit.qubits| ==>
      circuit.qubits[i].name == PHYSICAL || IsIdentifier(circuit.qubits[i].name))
    && (forall i :: 0 <= i < |circuit.clbits| ==> IsIdentifier(circuit.clbits[i].name))
    && forall i :: 0 <= i < |circuit.operations| ==>
      IsOperation(circuit.operations[i], circuit.qubits, circuit.clbits, shown)
  }

  // ---------------------------------------------------------------- one line

  lemma {:induction false} CollapseStays(s: string)
    requires IsClean(s) && (|s| > 0 ==> !IsSpace(s[|s| - 1]))
    ensures Collapse(s) == s
    decreases |s|
  {
    if |s| > 0 {
      forall i | 0 <= i < |s[1..]| ensures PlainCharacter(s[1..][i]) { assert PlainCharacter(s[i + 1]); }
      forall i | 0 < i < |s[1..]| ensures PlainPair(s[1..][i - 1], s[1..][i]) { assert PlainPair(s[i], s[i + 1]); }
      CollapseStays(s[1..]);
      assert PlainCharacter(s[0]);
      if |s| > 1 { assert PlainPair(s[0], s[1]) && PlainCharacter(s[1]); }
      assert [s[0]] + s[1..] == s;
    }
  }

  lemma PlainStays(text: string)
    requires IsPlainText(text)
    ensures Trim(Collapse(text)) == text && text != "" && text != "{" && text != "}"
  {
    CollapseStays(text);
    TrimTail(text);
    assert PlainCharacter(text[0]);
  }

  /** Where another word begins like a keyword, a further letter follows the keyword. */
  lemma NotThatWord(name: string, rest: string, word: string)
    requires IsIdentifier(name) && (|rest| > 0 ==> !IsWord(rest[0])) && name != word && AllWord(word)
    requires Expect(name + rest, word).Some?
    ensures var behind := Expect(name + rest, word).value;
            |behind| > 0 && IsWord(behind[0]) && TrimStart(behind) == behind && ReadIndex(behind).None?
  {
    var text := name + rest;
    assert forall i :: 0 <= i < |word| ==> IsWord(text[i]);
    assert |rest| > 0 ==> text[|name|] == rest[0];
    assert |word| <= |name| && name[..|word|] == word;
    assert |word| == |name| ==> name == word;
    assert text[|word|] == name[|word|];
  }

  /** A declaration begins with one of four words. */
  lemma NoDeclaration(name: string, rest: string)
    requires IsIdentifier(name) && name !in {"qubit", "bit", "qreg", "creg"} && (|rest| > 0 ==> !IsWord(rest[0]))
    ensures ParseDeclaration(name + rest).None?
  {
    hide ReadIndex, IdentifierLength, IsIdentifier, ReadIdentifier;
    var text := name + rest;
    TheFourWords();
    if Expect(text, "qubit").Some? { NotThatWord(name, rest, "qubit"); }
    if Expect(text, "bit").Some? { NotThatWord(name, rest, "bit"); }
    if Expect(text, "qreg").Some? { NotThatWord(name, rest, "qreg"); }
    if Expect(text, "creg").Some? { NotThatWord(name, rest, "creg"); }
  }

  lemma TheFourWords()
    ensures AllWord("qubit") && AllWord("bit") && AllWord("qreg") && AllWord("creg")
  {
  }

  /** The word a written operation begins with. */
  function Lead(operation: SimpleOperation): string {
    match operation
    case Gate(name, _, _) => name
    case Measure(_, clbit) => clbit.register
    case Reset(_) => "reset"
    case Barrier(_) => "barrier"
  }

  lemma TargetLeads(qubit: Bit, clbit: Bit)
    requires IsIdentifier(clbit.register)
    ensures SimpleText(Measure(qubit, clbit))
      == clbit.register + ("[" + (Decimal(clbit.index) + "] = measure " + FormatBit(qubit)))
  {
    hide Decimal;
    NotPhysical(clbit);
    var index, behind := Decimal(clbit.index), FormatBit(qubit);
    assert "]" + " = measure " + behind == "] = measure " + behind;
  }

  lemma SimpleLeads(operation: SimpleOperation, qubits: seq<Register>, clbits: seq<Register>, shown: string -> string)
      returns (rest: string)
    requires IsSimple(operation, qubits, clbits, shown)
    ensures SimpleText(operation) == Lead(operation) + rest && (|rest| > 0 ==> !IsWord(rest[0]))
      && IsIdentifier(Lead(operation))
  {
    hide Join, FormatBits, FormatBit, FormatParameters, Find, Decimal, IsIdentifier, IsParameter, IsQubit, Lower;
    ResetIsWord();
    match operation
    case Gate(name, parameters, bits) =>
      rest := (if |parameters| > 0 then "(" + Join(FormatParameters(parameters)) + ")" else "") + " "
        + Join(FormatBits(bits));
      assert SimpleText(operation) == name + rest;
    case Measure(qubit, clbit) =>
      rest := "[" + (Decimal(clbit.index) + "] = measure " + FormatBit(qubit));
      TargetLeads(qubit, clbit);
    case Reset(qubit) =>
      rest := " " + FormatBit(qubit);
      assert SimpleText(operation) == "reset" + rest;
    case Barrier(bits) =>
      rest := if |bits| == 0 then "" else " " + Join(FormatBits(bits));
      assert SimpleText(operation) == "barrier" + rest;
  }

  // ---------------------------------------------------------------- lines that are no declarations

  lemma ParenthesisDeclaresNothing(word: string, rest: string)
    requires word in {"qubit", "bit", "qreg", "creg"} && |rest| > 0 && rest[0] == '('
    ensures ParseDeclaration(word + rest).None?
  {
    hide ReadIdentifier, IdentifierLength;
    KindsApart(word, rest);
    assert ReadIndex(rest).None? && TrimStart(rest) == rest;
  }

  /** Which of the four words a text begins with. */
  lemma KindsApart(word: string, rest: string)
    requires word in {"qubit", "bit", "qreg", "creg"}
    ensures var text := word + rest;
      && Expect(text, "qubit") == (if word == "qubit" then Some(rest) else None)
      && Expect(text, "bit") == (if word == "bit" then Some(rest) else None)
      && Expect(text, "qreg") == (if word == "qreg" then Some(rest) else None)
      && Expect(text, "creg") == (if word == "creg" then Some(rest) else None)
  {
    var text := word + rest;
    ExpectReads(word, rest);
    assert text[0] == word[0] && text[1] == word[1];
  }

  lemma AssignmentDeclaresNothing(word: string, n: nat, more: string)
    requires word in {"qubit", "bit", "qreg", "creg"}
    ensures ParseDeclaration(word + ("[" + Decimal(n) + "]" + (" = " + more))).None?
  {
    hide ReadIdentifier, ReadIndex, Decimal;
    var tail := " = " + more;
    var rest := "[" + Decimal(n) + "]" + tail;
    KindsApart(word, rest);
    IndexReads(n, tail);
    assert TrimStart(rest) == rest && tail == " " + ("= " + more);
    SpaceSkipped("= " + more);
  }

  /** Operands begin with the first of them. */
  lemma OperandsBegin(bits: seq<Bit>) returns (tail: string)
    requires |bits| > 0
    ensures Join(FormatBits(bits)) == FormatBit(bits[0]) + tail
    ensures if |bits| == 1 then tail == "" else |tail| > 0 && tail[0] == ','
  {
    hide FormatBit;
    var texts := FormatBits(bits);
    tail := if |bits| == 1 then "" else ", " + Join(texts[1..]);
  }

  lemma OperandsDeclareNothing(word: string, bits: seq<Bit>)
    requires word in {"qubit", "bit", "qreg", "creg"} && |bits| > 0
    requires forall i :: 0 <= i < |bits| ==> bits[i].register == PHYSICAL || IsIdentifier(bits[i].register)
    requires word in {"qreg", "creg"} ==> |bits| > 1 || bits[0].register == PHYSICAL
    ensures ParseDeclaration(word + (" " + Join(FormatBits(bits)))).None?
  {
    hide ReadIndex, Decimal, Join, IsIdentifier;
    var operands := Join(FormatBits(bits));
    var tail := OperandsBegin(bits);
    KindsApart(word, " " + operands);
    FirstOperand(bits[0], tail);
    SpaceSkipped(operands);
    NoIndexAhead(operands);
  }

  lemma NoIndexAhead(s: string)
    requires |s| > 0 && s[0] != '['
    ensures ReadIndex(s).None?
  {
  }

  /** A written bit is no name of its own, and behind its index comes what follows it. */
  lemma FirstOperand(bit: Bit, tail: string)
    requires bit.register == PHYSICAL || IsIdentifier(bit.register)
    ensures var text := FormatBit(bit) + tail;
      && |text| > 0 && !IsSpace(text[0]) && text[0] != '[' && IdentifierLength(text) < |text|
      && (bit.register == PHYSICAL ==> ReadIdentifier(text).None?)
      && (bit.register != PHYSICAL ==>
            && ReadIdentifier(text).Some?
            && ReadIndex(TrimStart(ReadIdentifier(text).value.1)) == Some((bit.index, tail)))
  {
    hide Decimal, ReadIndex;
    var text := FormatBit(bit) + tail;
    if bit.register == PHYSICAL {
      assert text[0] == '$';
    } else {
      var index := "[" + Decimal(bit.index) + "]" + tail;
      assert text == bit.register + index;
      IdentifierReads(bit.register, index);
      NameIsPlain(bit.register);
      IndexReads(bit.index, tail);
      SpaceSkipped(index);
    }
  }

  lemma GateDeclaresNothing(name: string, parameters: seq<Parameter>, bits: seq<Bit>)
    requires name in {"qubit", "bit", "qreg", "creg"} && |bits| > 0
    requires forall i :: 0 <= i < |bits| ==> bits[i].register == PHYSICAL || IsIdentifier(bits[i].register)
    requires name in {"qreg", "creg"} && |parameters| == 0 ==> |bits| > 1 || bits[0].register == PHYSICAL
    ensures ParseDeclaration(SimpleText(Gate(name, parameters, bits))).None?
  {
    hide ParseDeclaration, IsIdentifier, Join, FormatBits, FormatParameters;
    var text := SimpleText(Gate(name, parameters, bits));
    if |parameters| > 0 {
      var behind := "(" + Join(FormatParameters(parameters)) + ")" + " " + Join(FormatBits(bits));
      assert text == name + behind;
      ParenthesisDeclaresNothing(name, behind);
    } else {
      assert text == name + (" " + Join(FormatBits(bits)));
      OperandsDeclareNothing(name, bits);
    }
  }

  lemma MeasureDeclaresNothing(qubit: Bit, clbit: Bit)
    requires clbit.register in {"qubit", "bit", "qreg", "creg"} && IsIdentifier(clbit.register)
    ensures ParseDeclaration(SimpleText(Measure(qubit, clbit))).None?
  {
    hide ParseDeclaration, IsIdentifier, FormatBit, SimpleText, Decimal;
    TargetLeads(qubit, clbit);
    var index, behind := Decimal(clbit.index), FormatBit(qubit);
    assert clbit.register + ("[" + (index + "] = measure " + behind))
        == clbit.register + ("[" + index + "]" + (" = " + ("measure " + behind)));
    AssignmentDeclaresNothing(clbit.register, clbit.index, "measure " + behind);
  }

  /** Nothing that stands alone is read as a declaration. */
  lemma DeclaresNothing(
    operation: SimpleOperation, qubits: seq<Register>, clbits: seq<Register>, shown: string -> string)
    requires IsSimple(operation, qubits, clbits, shown) && !LooksLikeDeclaration(operation)
    ensures ParseDeclaration(SimpleText(operation)).None?
  {
    hide ParseDeclaration, SimpleText, IsIdentifier, IsQubit, IsParameter, Lower, Find;
    var rest := SimpleLeads(operation, qubits, clbits, shown);
    if Lead(operation) !in {"qubit", "bit", "qreg", "creg"} {
      NoDeclaration(Lead(operation), rest);
    } else {
      match operation
      case Gate(name, parameters, bits) =>
        forall i | 0 <= i < |bits| ensures bits[i].register == PHYSICAL || IsIdentifier(bits[i].register) {
          QubitNamed(bits[i], qubits);
        }
        GateDeclaresNothing(name, parameters, bits);
      case Measure(qubit, clbit) => MeasureDeclaresNothing(qubit, clbit);
      case Reset(_) =>
      case Barrier(_) =>
    }
  }

  /** An operation on a line of its own is read as what it is. */
  lemma PlainReads(operation: SimpleOperation, line: nat, program: Program, shown: string -> string)
    requires IsOperation(Plain(operation), program.qubits, program.clbits, shown) && program.pending.None?
    ensures ReadStatement(Statement(SimpleText(operation), line), program, shown)
         == Continue(program.(operations := program.operations + [Plain(operation)],
                              qubits := TouchAll(program.qubits, QubitsOf(operation))))
  {
    hide ParseOperation, SimpleText, IsSimple, IsPlainText, Lower, Collapse, Trim, ParseDeclaration,
         LeadingKeyword, IsIdentifier, IsUnsupported, TouchAll, LooksLikeDeclaration;
    var text := SimpleText(operation);
    SimpleIsPlain(operation, program.qubits, program.clbits, shown);
    PlainStays(text);
    var rest := SimpleLeads(operation, program.qubits, program.clbits, shown);
    KeywordReads(Lead(operation), rest);
    DeclaresNothing(operation, program.qubits, program.clbits, shown);
    SimpleReads(operation, line, program.qubits, program.clbits, shown);
    EmitOne(program.(qubits := TouchAll(program.qubits, QubitsOf(operation))), operation);
    assert program.loss + [] == program.loss;
  }

  lemma EmitOne(program: Program, operation: SimpleOperation)
    ensures EmitAll(program, [operation]) == Emit(program, operation)
  {
    assert [operation][1..] == [];
  }

  lemma SpaceSkipped(s: string)
    requires |s| > 0 && !IsSpace(s[0])
    ensures TrimStart(s) == s && TrimStart(" " + s) == s
  {
    assert (" " + s)[1..] == s;
  }

  /** The part of a condition all three patterns begin with. */
  lemma ConditionOpens(register: string, rest: string)
    requires IsIdentifier(register) && |rest| > 0 && !IsWord(rest[0])
    ensures var text := "if (" + register + rest;
            && |text| > 2 && Lower(text[..2]) == "if" && Expect(text, "if") == Some(text[2..])
            && Expect(TrimStart(text[2..]), "(") == Some(register + rest)
            && TrimStart(register + rest) == register + rest
            && ReadIdentifier(register + rest) == Some((register, rest))
  {
    hide ReadIdentifier, IsIdentifier;
    var text, inner := "if (" + register + rest, "(" + (register + rest);
    assert text == "if" + (" " + inner) && text[..2] == "if" && text[2..] == " " + inner;
    LowerStays("if");
    SpaceSkipped(inner);
    ExpectReads("if", " " + inner);
    ExpectReads("(", register + rest);
    NameIsPlain(register);
    SpaceSkipped(register + rest);
    IdentifierReads(register, rest);
  }

  /** The comparison and what it guards. */
  lemma ComparisonReads(n: nat, body: string)
    requires IsTrimmed(body)
    ensures var rest := " == " + Decimal(n) + ") " + body;
            && Expect(TrimStart(rest), "==").Some?
            && var number := TrimStart(Expect(TrimStart(rest), "==").value);
            && ReadNumber(number).Some? && ReadNumber(number).value.0 == n
            && var close := Expect(TrimStart(ReadNumber(number).value.1), ")");
            && close.Some? && TrimStart(close.value) == body
  {
    hide Decimal, ReadNumber;
    var close := ")" + (" " + body);
    var number := Decimal(n) + close;
    var equals := "==" + (" " + number);
    var rest := " == " + Decimal(n) + ") " + body;
    assert rest == " " + equals;
    NumberReads(n, close);
    SpaceSkipped(equals);
    ExpectReads("==", " " + number);
    DecimalReads(n);
    SpaceSkipped(number);
    SpaceSkipped(close);
    ExpectReads(")", " " + body);
    SpaceSkipped(body);
  }

  lemma WholeReads(register: string, n: nat, body: string)
    requires IsIdentifier(register) && IsTrimmed(body)
    ensures ParseCondition("if (" + register + (" == " + Decimal(n) + ") " + body))
      == Some((Condition(register, None, n), body))
  {
    hide TrimStart, ReadIdentifier, ReadNumber, Decimal, Lower;
    var rest := " == " + Decimal(n) + ") " + body;
    ConditionOpens(register, rest);
    ComparisonReads(n, body);
    NoIndex(rest);
  }

  lemma NoIndex(rest: string)
    requires Expect(TrimStart(rest), "==").Some?
    ensures ReadIndex(TrimStart(rest)).None?
  {
  }

  lemma BitReads(register: string, bit: nat, n: nat, body: string)
    requires IsIdentifier(register) && IsTrimmed(body)
    ensures ParseCondition("if (" + register + ("[" + Decimal(bit) + "]" + (" == " + Decimal(n) + ") " + body)))
         == Some((Condition(register, Some(bit), n), body))
  {
    hide TrimStart, ReadIdentifier, ReadNumber, Decimal, Lower, ReadIndex;
    var rest := " == " + Decimal(n) + ") " + body;
    var index := "[" + Decimal(bit) + "]" + rest;
    ConditionOpens(register, index);
    IndexReads(bit, rest);
    SpaceSkipped(index);
    ComparisonReads(n, body);
  }

  lemma ConditionReads(condition: Condition, body: string)
    requires IsIdentifier(condition.register) && IsTrimmed(body)
    ensures ParseCondition("if (" + ConditionText(condition) + ") " + body) == Some((condition, body))
  {
    hide ParseCondition, Decimal;
    var text := "if (" + ConditionText(condition) + ") " + body;
    if condition.bit.Some? {
      BitReads(condition.register, condition.bit.value, condition.equals, body);
      assert text == "if (" + condition.register
                  + ("[" + Decimal(condition.bit.value) + "]" + (" == " + Decimal(condition.equals) + ") " + body));
    } else {
      WholeReads(condition.register, condition.equals, body);
      assert text == "if (" + condition.register + (" == " + Decimal(condition.equals) + ") " + body);
    }
  }

  lemma ConditionIsPlain(condition: Condition, body: string)
    requires IsIdentifier(condition.register) && IsPlainText(body)
    ensures IsPlainText("if (" + ConditionText(condition) + ") " + body)
  {
    hide Decimal, IsClean, IsTrimmed;
    NameIsPlain(condition.register);
    DecimalReads(condition.equals);
    DigitsArePlain(Decimal(condition.equals));
    EqualsIsPlain();
    var target := condition.register;
    if condition.bit.Some? {
      target := condition.register + "[" + Decimal(condition.bit.value) + "]";
      DecimalReads(condition.bit.value);
      IndexedIsPlain(condition.register, Decimal(condition.bit.value));
    } else {
      assert target + "" == target;
    }
    ConcatIsPlain(target, "==");
    ConcatIsPlain(target + " " + "==", Decimal(condition.equals));
    var inner := target + " " + "==" + " " + Decimal(condition.equals);
    assert ConditionText(condition) == inner;
    ParenthesesArePlain(inner);
    ConcatIsPlain("if", "(" + inner + ")");
    ConcatIsPlain("if" + " " + ("(" + inner + ")"), body);
    assert "if (" + inner + ") " + body == "if" + " " + ("(" + inner + ")") + " " + body;
  }

  lemma DigitsArePlain(digits: string)
    requires AllDigits(digits) && |digits| > 0
    ensures IsPlainText(digits)
  {
  }

  lemma IndexedIsPlain(name: string, digits: string)
    requires IsIdentifier(name) && AllDigits(digits)
    ensures IsPlainText(name + "[" + digits + "]")
  {
    OperandTextIsPlain(name + "[" + digits + "]");
  }

  lemma EqualsIsPlain()
    ensures IsPlainText("==") && IsPlainText("if")
  {
  }

  lemma ParenthesesArePlain(inner: string)
    requires IsPlainText(inner)
    ensures IsPlainText("(" + inner + ")")
  {
    hide IsClean;
    CommaIsClean();
    CleanConcat("(", inner);
    CleanConcat("(" + inner, ")");
  }

  /** A conditional is read as what it is, and no condition guards anything after it. */
  lemma ConditionalReads(operation: Operation, line: nat, program: Program, shown: string -> string)
    requires operation.Conditional? && IsOperation(operation, program.qubits, program.clbits, shown)
    ensures ReadStatement(Statement(OperationText(operation), line), program, shown)
         == Continue(program.(operations := program.operations + [operation],
                              qubits := TouchAll(program.qubits, QubitsOf(operation.body)),
                              pending := None))
  {
    hide ParseOperation, SimpleText, IsSimple, IsPlainText, Lower, Collapse, Trim, ParseDeclaration,
         LeadingKeyword, IsIdentifier, IsUnsupported,
         TouchAll, ConditionText, ParseCondition, Find;
    var condition, body := operation.condition, SimpleText(operation.body);
    var text := OperationText(operation);
    SimpleIsPlain(operation.body, program.qubits, program.clbits, shown);
    PlainIsTrimmed(body);
    ConditionIsPlain(condition, body);
    PlainStays(text);
    var rest := " (" + ConditionText(condition) + ") " + body;
    assert text == "if" + rest;
    IfIsWord();
    KeywordReads("if", rest);
    LowerStays("if");
    ConditionReads(condition, body);
    var guarded := program.(pending := Some(condition));
    SimpleReads(operation.body, line, program.qubits, program.clbits, shown);
    TrimTail(body);
    EmitOne(guarded.(qubits := TouchAll(program.qubits, QubitsOf(operation.body))), operation.body);
    assert program.loss + [] == program.loss;
  }

  lemma PlainIsTrimmed(text: string)
    requires IsPlainText(text)
    ensures IsTrimmed(text)
  {
  }

  lemma IfIsWord()
    ensures IsIdentifier("if") && !IsUnsupported("if")
  {
    var word := "if";
    TwoLetters(word);
  }

  lemma TwoLetters(word: string)
    requires |word| == 2
    ensures !IsUnsupported(word)
  {
  }

  // ---------------------------------------------------------------- the lines in front of the operations

  /** What has been read after some lines. */
  function After(lines: seq<string>, shown: string -> string): Outcome {
    ReadStatements(StatementsOf(lines), shown)
  }

  lemma AfterStatement(lines: seq<string>, text: string, program: Program, shown: string -> string)
    requires After(lines, shown) == Continue(program)
    ensures After(lines + [text + ";"], shown) == ReadStatement(Statement(text, |lines| + 1), program, shown)
  {
    hide ReadStatement;
    var all := lines + [text + ";"];
    assert all[..|all| - 1] == lines && (text + ";")[..|text|] == text;
    var statements := StatementsOf(all);
    assert statements[..|statements| - 1] == StatementsOf(lines);
  }

  lemma AfterBlank(lines: seq<string>, shown: string -> string)
    ensures After(lines + [""], shown) == After(lines, shown)
  {
    assert (lines + [""])[..|lines|] == lines;
  }

  lemma PlainLine(text: string)
    requires IsPlainText(text)
    ensures IsLine(text + ";")
  {
    assert (text + ";")[..|text|] == text;
  }

  lemma {:induction false} LowersTo(s: string, lower: string)
    requires |s| == |lower|
    requires forall i :: 0 <= i < |s| ==> lower[i] == if 'A' <= s[i] <= 'Z' then (s[i] as int + 32) as char else s[i]
    ensures Lower(s) == lower
    decreases |s|
  {
    if |s| > 0 {
      LowersTo(s[1..], lower[1..]);
      assert lower == [lower[0]] + lower[1..];
    }
  }

  lemma VersionKeyword(word: string)
    requires word == "OPENQASM"
    ensures IsIdentifier(word) && |word| == 8 && Lower(word) == "openqasm"
  {
    LowersTo(word, "openqasm");
  }

  lemma VersionNumber(text: string, number: string)
    requires |text| == 10 && text[8..] == " " + number && number == "3"
    ensures VersionOf(text) == Some(number)
  {
    SpaceSkipped(number);
    assert IsDigit(number[0]) && (" " + number)[0] == ' ';
  }

  lemma VersionIsPlain()
    ensures IsPlainText(VERSION)
  {
    hide IsPlainText, IsIdentifier, AllDigits;
    var word, number := "OPENQASM", "3";
    VersionKeyword(word);
    NameIsPlain(word);
    ThreeIsDigit(number);
    DigitsArePlain(number);
    ConcatIsPlain(word, number);
    assert word + " " + number == VERSION;
  }

  lemma ThreeIsDigit(number: string)
    requires number == "3"
    ensures AllDigits(number) && |number| > 0
  {
  }

  lemma VersionStatement(text: string, number: string, line: nat, program: Program, shown: string -> string)
    requires Trim(Collapse(text)) == text && text != "" && text != "{" && text != "}"
    requires LeadingKeyword(text) == "openqasm" && VersionOf(text) == Some(number) && |number| > 0 && number[0] == '3'
    ensures ReadStatement(Statement(text, line), program, shown) == Continue(program.(sawVersion := true))
  {
    hide Collapse, Trim, VersionOf, LeadingKeyword;
  }

  lemma VersionReads(line: nat, program: Program, shown: string -> string)
    ensures ReadStatement(Statement(VERSION, line), program, shown) == Continue(program.(sawVersion := true))
  {
    hide Collapse, Trim, Lower, VersionOf, LeadingKeyword, IsPlainText, IsIdentifier, ReadStatement;
    VersionIsPlain();
    PlainStays(VERSION);
    var word, number := "OPENQASM", "3";
    VersionKeyword(word);
    assert VERSION == word + (" " + number) && VERSION[8..] == " " + number;
    KeywordReads(word, " " + number);
    VersionNumber(VERSION, number);
    VersionStatement(VERSION, number, line, program, shown);
  }

  lemma QuotedIsPlain(file: string)
    requires file == LIBRARY
    ensures IsPlainText("\"" + file + "\"") && |file| > 0 && forall i :: 0 <= i < |file| ==> file[i] != '"'
  {
  }

  lemma IncludeKeyword(word: string)
    requires word == "include"
    ensures IsPlainText(word) && IsIdentifier(word) && Lower(word) == word
  {
    NameIsPlain(word);
    LowerStays(word);
  }

  lemma IncludeIsPlain(file: string)
    requires file == LIBRARY
    ensures IsPlainText(IncludeText(file))
  {
    hide IsPlainText;
    IncludeKeyword("include");
    QuotedIsPlain(file);
    ConcatIsPlain("include", "\"" + file + "\"");
  }

  lemma IncludeFinds(file: string)
    requires |file| > 0 && forall i :: 0 <= i < |file| ==> file[i] != '"'
    ensures IncludedFile(IncludeText(file)) == Some(file)
  {
    hide QuoteAt;
    var behind := file + "\"";
    var quoted := "\"" + behind;
    var text := IncludeText(file);
    assert text == "include" + (" " + quoted);
    ExpectReads("include", " " + quoted);
    SpaceSkipped(quoted);
    ExpectReads("\"", behind);
    QuoteFound(behind, 0, |file|);
    assert behind[..|file|] == file;
  }

  lemma IncludeReads(line: nat, program: Program, shown: string -> string)
    ensures ReadStatement(Statement(IncludeText(LIBRARY), line), program, shown) == Continue(program)
  {
    hide Collapse, Trim, Lower, LeadingKeyword, IsPlainText, IsIdentifier, IncludedFile;
    var file := LIBRARY;
    IncludeIsPlain(file);
    PlainStays(IncludeText(file));
    var rest := " " + ("\"" + file + "\"");
    assert IncludeText(file) == "include" + rest;
    IncludeKeyword("include");
    KeywordReads("include", rest);
    QuotedIsPlain(file);
    IncludeFinds(file);
  }

  lemma {:induction false} QuoteFound(s: string, from: nat, k: nat)
    requires from <= k < |s| && s[k] == '"' && forall i :: from <= i < k ==> s[i] != '"'
    ensures QuoteAt(s, from) == Some(k)
    decreases k - from
  {
    if from < k { QuoteFound(s, from + 1, k); }
  }

  lemma HeaderReads(includeStdgates: bool, shown: string -> string)
    ensures After(Header(includeStdgates), shown) == Continue(START.(sawVersion := true))
    ensures forall i :: 0 <= i < |Header(includeStdgates)| ==> IsLine(Header(includeStdgates)[i])
  {
    hide ReadStatement, ReadStatements, StatementsOf, IsLine, IsPlainText, IncludeText;
    NothingRead(shown);
    var first: seq<string> := [VERSION + ";"];
    VersionReads(1, START, shown);
    AfterStatement([], VERSION, START, shown);
    VersionIsPlain();
    PlainLine(VERSION);
    assert [] + [VERSION + ";"] == first;
    var read := START.(sawVersion := true);
    NothingIsLine();
    if includeStdgates {
      IncludeReads(2, read, shown);
      AfterStatement(first, IncludeText(LIBRARY), read, shown);
      IncludeIsPlain(LIBRARY);
      PlainLine(IncludeText(LIBRARY));
      var second := first + [IncludeText(LIBRARY) + ";"];
      AfterBlank(second, shown);
      assert second + [""] == Header(includeStdgates);
    } else {
      AfterBlank(first, shown);
      assert first + [""] == Header(includeStdgates);
    }
  }

  lemma NothingRead(shown: string -> string)
    ensures After([], shown) == Continue(START)
  {
  }

  // ---------------------------------------------------------------- declarations

  lemma DeclarationParses(ofQubits: bool, register: Register)
    requires IsIdentifier(register.name)
    ensures var text := RegisterText(if ofQubits then "qubit" else "bit", register);
            ModernDeclaration(text) == Some(Declaration(ofQubits, register, false))
  {
    hide Decimal, ReadIndex, IsIdentifier;
    var kind := if ofQubits then "qubit" else "bit";
    var tail := " " + register.name;
    var index := "[" + Decimal(register.size) + "]" + tail;
    var text := RegisterText(kind, register);
    assert text == kind + index;
    ExpectReads(kind, index);
    IndexReads(register.size, tail);
    SpaceSkipped(index);
    NameIsPlain(register.name);
    SpaceSkipped(register.name);
    IdentifierReads(register.name, "");
    assert register.name + "" == register.name;
    if !ofQubits {
      assert text[0] == 'b' && Expect(text, "qubit").None?;
    }
  }

  lemma KindIsFree(ofQubits: bool)
    ensures var kind := if ofQubits then "qubit" else "bit";
            IsIdentifier(kind) && Lower(kind) == kind && !BeginsStatement(kind)
  {
    if ofQubits {
      var kind := "qubit";
      LowerStays(kind);
      StartsUnlike(kind);
    } else {
      var kind := "bit";
      LowerStays(kind);
      StartsUnlike(kind);
    }
  }

  lemma StartsUnlike(word: string)
    requires |word| > 1 && (word[0] == 'q' || (word[0] == 'b' && word[1] == 'i'))
    ensures !BeginsStatement(word)
  {
  }

  lemma DeclarationIsPlain(ofQubits: bool, register: Register)
    requires IsIdentifier(register.name)
    ensures IsPlainText(RegisterText(if ofQubits then "qubit" else "bit", register))
  {
    hide Decimal, IsPlainText;
    var kind := if ofQubits then "qubit" else "bit";
    KindIsFree(ofQubits);
    DecimalReads(register.size);
    IndexedIsPlain(kind, Decimal(register.size));
    NameIsPlain(register.name);
    ConcatIsPlain(kind + "[" + Decimal(register.size) + "]", register.name);
    assert RegisterText(kind, register) == kind + "[" + Decimal(register.size) + "]" + " " + register.name;
  }

  /** A declaration of a new name is read as that register. */
  lemma DeclarationReads(ofQubits: bool, register: Register, line: nat, program: Program, shown: string -> string)
    requires IsIdentifier(register.name)
    requires Find(if ofQubits then program.qubits else program.clbits, register.name).None?
    ensures ReadStatement(Statement(RegisterText(if ofQubits then "qubit" else "bit", register), line), program, shown)
         == Continue(if ofQubits then program.(qubits := program.qubits + [register])
                     else program.(clbits := program.clbits + [register]))
  {
    hide Decimal, IsPlainText, Collapse, Trim, Lower, LeadingKeyword, IsIdentifier, ModernDeclaration, Find,
         IsUnsupported;
    var kind := if ofQubits then "qubit" else "bit";
    var text := RegisterText(kind, register);
    var rest := "[" + Decimal(register.size) + "] " + register.name;
    assert text == kind + rest;
    KindIsFree(ofQubits);
    KeywordReads(kind, rest);
    DeclarationIsPlain(ofQubits, register);
    PlainStays(text);
    DeclarationParses(ofQubits, register);
    assert program.loss + [] == program.loss;
  }

  /** The registers that are declared: all but the hardware register. */
  function Declared(registers: seq<Register>): seq<Register> {
    if |registers| == 0 then []
    else
      var before, last := Declared(registers[..|registers| - 1]), registers[|registers| - 1];
      if last.name == PHYSICAL then before else before + [last]
  }

  lemma {:induction false} FindNone(registers: seq<Register>, name: string)
    requires forall i :: 0 <= i < |registers| ==> registers[i].name != name
    ensures Find(registers, name).None?
    decreases |registers|
  {
    if |registers| > 0 { FindNone(registers[1..], name); }
  }

  lemma {:induction false} DeclaredFrom(registers: seq<Register>, i: nat) returns (k: nat)
    requires i < |Declared(registers)|
    ensures k < |registers| && Declared(registers)[i] == registers[k] && registers[k].name != PHYSICAL
    decreases |registers|
  {
    var n := |registers| - 1;
    if registers[n].name != PHYSICAL && i == |Declared(registers[..n])| {
      k := n;
    } else {
      k := DeclaredFrom(registers[..n], i);
    }
  }

  lemma {:induction false} QubitLinesRead(
    lines: seq<string>, program: Program, registers: seq<Register>, shown: string -> string)
    requires After(lines, shown) == Continue(program) && program.qubits == [] && DistinctNames(registers)
    requires forall i :: 0 <= i < |registers| ==> registers[i].name == PHYSICAL || IsIdentifier(registers[i].name)
    ensures After(lines + QubitLines(registers), shown) == Continue(program.(qubits := Declared(registers)))
    ensures forall i :: 0 <= i < |QubitLines(registers)| ==> IsLine(QubitLines(registers)[i])
    decreases |registers|
  {
    hide After, ReadStatement, RegisterText, IsLine, IsIdentifier, Find, IsPlainText;
    if |registers| > 0 {
      var init, last := registers[..|registers| - 1], registers[|registers| - 1];
      QubitLinesRead(lines, program, init, shown);
      if last.name != PHYSICAL {
        forall i | 0 <= i < |Declared(init)| ensures Declared(init)[i].name != last.name {
          var k := DeclaredFrom(init, i);
        }
        FindNone(Declared(init), last.name);
        var before := lines + QubitLines(init);
        var text := RegisterText("qubit", last);
        var so := program.(qubits := Declared(init));
        AfterStatement(before, text, so, shown);
        DeclarationReads(true, last, |before| + 1, so, shown);
        assert before + [text + ";"] == lines + QubitLines(registers);
        DeclarationIsPlain(true, last);
        PlainLine(text);
      }
    } else {
      assert lines + [] == lines && program.(qubits := []) == program;
    }
  }

  lemma {:induction false} ClbitLinesRead(
    lines: seq<string>, program: Program, registers: seq<Register>, shown: string -> string)
    requires After(lines, shown) == Continue(program) && program.clbits == [] && DistinctNames(registers)
    requires forall i :: 0 <= i < |registers| ==> IsIdentifier(registers[i].name)
    ensures After(lines + ClbitLines(registers), shown) == Continue(program.(clbits := registers))
    ensures forall i :: 0 <= i < |ClbitLines(registers)| ==> IsLine(ClbitLines(registers)[i])
    decreases |registers|
  {
    hide After, ReadStatement, RegisterText, IsLine, IsIdentifier, Find, IsPlainText;
    if |registers| > 0 {
      var init, last := registers[..|registers| - 1], registers[|registers| - 1];
      ClbitLinesRead(lines, program, init, shown);
      FindNone(init, last.name);
      var before := lines + ClbitLines(init);
      var text := RegisterText("bit", last);
      var so := program.(clbits := init);
      AfterStatement(before, text, so, shown);
      DeclarationReads(false, last, |before| + 1, so, shown);
      assert ClbitLines(registers) == ClbitLines(init) + [text + ";"];
      assert before + [text + ";"] == lines + ClbitLines(registers) && init + [last] == registers;
      DeclarationIsPlain(false, last);
      PlainLine(text);
    } else {
      assert lines + ClbitLines(registers) == lines && program.(clbits := []) == program && registers == [];
    }
  }

  // ---------------------------------------------------------------- operations

  ghost predicate Agree(a: seq<Register>, b: seq<Register>) {
    forall name: string :: name != PHYSICAL ==> Find(a, name) == Find(b, name)
  }

  lemma AgreeKeeps(
    operation: Operation, a: seq<Register>, b: seq<Register>, clbits: seq<Register>, shown: string -> string)
    requires IsOperation(operation, a, clbits, shown) && Agree(a, b)
    ensures IsOperation(operation, b, clbits, shown)
  {
    hide Find, Lower, IsParameter, IsUnsupported;
    forall bit | IsQubit(bit, a) ensures IsQubit(bit, b) {
      if bit.register != PHYSICAL { assert Find(a, bit.register) == Find(b, bit.register); }
    }
  }

  lemma OperationReads(operation: Operation, line: nat, program: Program, shown: string -> string)
    requires IsOperation(operation, program.qubits, program.clbits, shown) && program.pending.None?
    ensures ReadStatement(Statement(OperationText(operation), line), program, shown)
         == Continue(program.(operations := program.operations + [operation],
                              qubits := TouchAll(program.qubits, QubitsOf(BodyOf(operation)))))
    ensures IsPlainText(OperationText(operation))
  {
    hide ReadStatement, SimpleText, ConditionText, IsPlainText, IsSimple, BeginsStatement, Find;
    match operation
    case Plain(simple) =>
      PlainReads(simple, line, program, shown);
      SimpleIsPlain(simple, program.qubits, program.clbits, shown);
    case Conditional(condition, body) =>
      ConditionalReads(operation, line, program, shown);
      SimpleIsPlain(body, program.qubits, program.clbits, shown);
      ConditionIsPlain(condition, SimpleText(body));
  }

  lemma {:induction false} OperationLinesRead(
    lines: seq<string>, program: Program, operations: seq<Operation>, shown: string -> string)
    requires After(lines, shown) == Continue(program)
    requires program.operations == [] && program.pending.None?
    requires forall i :: 0 <= i < |operations| ==> IsOperation(operations[i], program.qubits, program.clbits, shown)
    ensures After(lines + OperationLines(operations), shown)
         == Continue(program.(operations := operations, qubits := TouchAll(program.qubits, AllQubits(operations))))
    ensures forall i :: 0 <= i < |OperationLines(operations)| ==> IsLine(OperationLines(operations)[i])
    decreases |operations|
  {
    hide After, ReadStatement, OperationText, IsLine, IsOperation, IsPlainText, TouchAll, QubitsOf;
    if |operations| > 0 {
      var init, last := operations[..|operations| - 1], operations[|operations| - 1];
      OperationLinesRead(lines, program, init, shown);
      var touched := TouchAll(program.qubits, AllQubits(init));
      var so := program.(operations := init, qubits := touched);
      forall name: string | name != PHYSICAL ensures Find(program.qubits, name) == Find(touched, name) {
        TouchAllFinds(program.qubits, AllQubits(init), name);
      }
      AgreeKeeps(last, program.qubits, touched, program.clbits, shown);
      var before := lines + OperationLines(init);
      AfterStatement(before, OperationText(last), so, shown);
      OperationReads(last, |before| + 1, so, shown);
      TouchAllAppend(program.qubits, AllQubits(init), QubitsOf(BodyOf(last)));
      assert OperationLines(operations) == OperationLines(init) + [OperationText(last) + ";"];
      assert before + [OperationText(last) + ";"] == lines + OperationLines(operations) && init + [last] == operations;
      PlainLine(OperationText(last));
    } else {
      NothingTouched(program.qubits);
      assert lines + OperationLines(operations) == lines && operations == [] && program.(operations := []) == program;
    }
  }

  lemma NothingTouched(registers: seq<Register>)
    ensures TouchAll(registers, []) == registers
  {
  }

  // ---------------------------------------------------------------- the hardware register

  /** One more than the highest hardware index in use, or 0. */
  function Height(bits: seq<Bit>): nat {
    if |bits| == 0 then 0
    else
      var before, last := Height(bits[..|bits| - 1]), bits[|bits| - 1];
      if last.register == PHYSICAL && last.index + 1 > before then last.index + 1 else before
  }

  lemma {:induction false} HeightIsHighest(bits: seq<Bit>)
    ensures forall b :: b in bits && b.register == PHYSICAL ==> b.index < Height(bits)
    ensures Height(bits) > 0 ==> Bit(PHYSICAL, Height(bits) - 1) in bits
    decreases |bits|
  {
    if |bits| > 0 {
      HeightIsHighest(bits[..|bits| - 1]);
      assert bits == bits[..|bits| - 1] + [bits[|bits| - 1]];
    }
  }

  function Hardware(height: nat): seq<Register> {
    if height == 0 then [] else [Register(PHYSICAL, height)]
  }

  lemma {:induction false} WidenBehind(registers: seq<Register>, height: nat, index: nat)
    requires forall i :: 0 <= i < |registers| ==> registers[i].name != PHYSICAL
    ensures Widen(registers + Hardware(height), index)
      == registers + Hardware(if index + 1 > height then index + 1 else height)
    decreases |registers|
  {
    var all := registers + Hardware(height);
    if |registers| > 0 {
      assert all[0] == registers[0] && all[1..] == registers[1..] + Hardware(height);
      WidenBehind(registers[1..], height, index);
    } else {
      assert all == Hardware(height);
    }
  }

  /** Using bits makes the hardware register just as wide as they need, behind all others. */
  lemma {:induction false} TouchedRegisters(registers: seq<Register>, bits: seq<Bit>)
    requires forall i :: 0 <= i < |registers| ==> registers[i].name != PHYSICAL
    ensures TouchAll(registers, bits) == registers + Hardware(Height(bits))
    decreases |bits|
  {
    hide Widen;
    if |bits| > 0 {
      var init, last := bits[..|bits| - 1], bits[|bits| - 1];
      TouchedRegisters(registers, init);
      if last.register == PHYSICAL { WidenBehind(registers, Height(init), last.index); }
    } else {
      assert registers + [] == registers;
    }
  }

  lemma {:induction false} DeclaredIsAll(registers: seq<Register>)
    requires forall i :: 0 <= i < |registers| ==> registers[i].name != PHYSICAL
    ensures Declared(registers) == registers
    decreases |registers|
  {
    if |registers| > 0 {
      DeclaredIsAll(registers[..|registers| - 1]);
      assert registers[..|registers| - 1] + [registers[|registers| - 1]] == registers;
    }
  }

  lemma {:induction false} FindBehind(registers: seq<Register>, last: Register, name: string)
    ensures Find(registers + [last], name)
         == if Find(registers, name).Some? then Find(registers, name)
            else if last.name == name then Some(last) else None
    decreases |registers|
  {
    var all := registers + [last];
    if |registers| > 0 {
      assert all[0] == registers[0] && all[1..] == registers[1..] + [last];
      FindBehind(registers[1..], last, name);
    } else {
      assert all[1..] == [];
    }
  }

  lemma {:induction false} DeclaredFinds(registers: seq<Register>, name: string)
    requires name != PHYSICAL
    ensures Find(Declared(registers), name) == Find(registers, name)
    decreases |registers|
  {
    hide Find;
    if |registers| > 0 {
      var init, last := registers[..|registers| - 1], registers[|registers| - 1];
      DeclaredFinds(init, name);
      assert init + [last] == registers;
      FindBehind(init, last, name);
      FindBehind(Declared(init), last, name);
    }
  }

  /** The registers a written circuit is read back with. */
  function Returned(circuit: Circuit): seq<Register> {
    Declared(circuit.qubits) + Hardware(Height(AllQubits(circuit.operations)))
  }

  lemma DeclaredIsNotHardware(registers: seq<Register>)
    ensures forall i :: 0 <= i < |Declared(registers)| ==> Declared(registers)[i].name != PHYSICAL
  {
    forall i | 0 <= i < |Declared(registers)| ensures Declared(registers)[i].name != PHYSICAL {
      var k := DeclaredFrom(registers, i);
    }
  }

  lemma TightReturns(circuit: Circuit)
    requires HardwareIsTight(circuit)
    ensures Returned(circuit) == circuit.qubits
  {
    hide Find, AllQubits, Height;
    var qubits, used := circuit.qubits, AllQubits(circuit.operations);
    var n := |qubits| - 1;
    HeightIsHighest(used);
    if n >= 0 && qubits[n].name == PHYSICAL {
      var init := qubits[..n];
      assert forall i :: 0 <= i < n ==> qubits[i].name != PHYSICAL;
      assert init + [qubits[n]] == qubits;
      DeclaredIsAll(init);
      FindNone(init, PHYSICAL);
      FindBehind(init, qubits[n], PHYSICAL);
      assert Declared(qubits) == init && Hardware(Height(used)) == [qubits[n]];
    } else {
      assert forall i :: 0 <= i < |qubits| ==> qubits[i].name != PHYSICAL;
      DeclaredIsAll(qubits);
      FindNone(qubits, PHYSICAL);
      assert qubits + [] == qubits;
    }
  }

  lemma ReturnedIsTight(circuit: Circuit)
    requires Returned(circuit) == circuit.qubits
    ensures HardwareIsTight(circuit)
  {
    hide Find, AllQubits, Height, Declared;
    var qubits, used := circuit.qubits, AllQubits(circuit.operations);
    var declared, height := Declared(qubits), Height(used);
    HeightIsHighest(used);
    DeclaredIsNotHardware(qubits);
    FindNone(declared, PHYSICAL);
    if height > 0 {
      FindBehind(declared, Register(PHYSICAL, height), PHYSICAL);
      assert qubits == declared + [Register(PHYSICAL, height)];
    }
    assert forall i :: 0 <= i < |declared| ==> qubits[i] == declared[i];
  }

  // ---------------------------------------------------------------- the round trip

  /** What is read of all lines of a written circuit. */
  lemma LinesRead(circuit: Circuit, includeStdgates: bool, shown: string -> string)
    requires IsReadable(circuit, shown)
    ensures var lines := EmittedLines(circuit, includeStdgates);
            && After(lines, shown)
              == Continue(Program(Returned(circuit), circuit.clbits, circuit.operations, [], true, None, 0))
            && forall i :: 0 <= i < |lines| ==> IsLine(lines[i])
  {
    hide After, Header, QubitLines, ClbitLines, OperationLines, IsLine, IsOperation, IsIdentifier, TouchAll,
         Declared, Find, Height;
    var header := Header(includeStdgates);
    var start := START.(sawVersion := true);
    HeaderReads(includeStdgates, shown);
    QubitLinesRead(header, start, circuit.qubits, shown);
    var declared := header + QubitLines(circuit.qubits);
    var withQubits := start.(qubits := Declared(circuit.qubits));
    ClbitLinesRead(declared, withQubits, circuit.clbits, shown);
    var all := declared + ClbitLines(circuit.clbits);
    var ready := withQubits.(clbits := circuit.clbits);
    var open := all + Gap(circuit);
    NothingIsLine();
    if Gap(circuit) == [""] {
      AfterBlank(all, shown);
    } else {
      assert all + [] == all;
    }
    forall name: string | name != PHYSICAL ensures Find(circuit.qubits, name) == Find(ready.qubits, name) {
      DeclaredFinds(circuit.qubits, name);
    }
    forall i | 0 <= i < |circuit.operations|
      ensures IsOperation(circuit.operations[i], ready.qubits, ready.clbits, shown)
    {
      AgreeKeeps(circuit.operations[i], circuit.qubits, ready.qubits, circuit.clbits, shown);
    }
    OperationLinesRead(open, ready, circuit.operations, shown);
    DeclaredIsNotHardware(circuit.qubits);
    TouchedRegisters(Declared(circuit.qubits), AllQubits(circuit.operations));
  }

  /** Everything is read back as it was written, but for where the hardware register stands and how wide it is. */
  lemma WrittenReads(circuit: Circuit, includeStdgates: bool, shown: string -> string)
    requires IsReadable(circuit, shown)
    ensures Parse(Document(EmittedLines(circuit, includeStdgates)), shown)
      == Parsed(circuit.(qubits := Returned(circuit)), [])
  {
    hide ReadStatements, StatementsOf, Statements, EmittedLines, IsLine, IsReadable, Returned;
    LinesRead(circuit, includeStdgates, shown);
    DocumentSplits(EmittedLines(circuit, includeStdgates));
  }

  /**
   * Reading what was written gives the circuit back, with nothing lost, if and only if its hardware register is tight.
   */
  lemma ParseUndoesEmit(circuit: Circuit, includeStdgates: bool, shown: string -> string)
    requires IsReadable(circuit, shown)
    ensures Parse(Document(EmittedLines(circuit, includeStdgates)), shown) == Parsed(circuit, [])
      <==> HardwareIsTight(circuit)
  {
    hide Parse, Document, EmittedLines, IsReadable, Returned, HardwareIsTight;
    WrittenReads(circuit, includeStdgates, shown);
    if HardwareIsTight(circuit) { TightReturns(circuit); }
    if Returned(circuit) == circuit.qubits { ReturnedIsTight(circuit); }
  }

  // ---------------------------------------------------------------- what a condition guards

  /** The operations of one statement under a condition: all are guarded inside a block, outside only the first. */
  function Guarded(condition: Condition, inBlock: bool, operations: seq<SimpleOperation>): seq<Operation> {
    seq(|operations|, i requires 0 <= i < |operations| =>
      if i == 0 || inBlock then Conditional(condition, operations[i]) else Plain(operations[i]))
  }

  lemma {:induction false} UnguardedEmits(program: Program, operations: seq<SimpleOperation>)
    requires program.pending.None?
    ensures EmitAll(program, operations).operations
         == program.operations + seq(|operations|, i requires 0 <= i < |operations| => Plain(operations[i]))
    decreases |operations|
  {
    if |operations| > 0 { UnguardedEmits(Emit(program, operations[0]), operations[1..]); }
  }

  /** A broadcast behind an inline `if` runs under the condition only in its first copy. */
  lemma {:induction false} GuardReaches(program: Program, operations: seq<SimpleOperation>)
    requires program.pending.Some?
    ensures EmitAll(program, operations).operations
         == program.operations + Guarded(program.pending.value, program.blockDepth > 0, operations)
    decreases |operations|
  {
    if |operations| > 0 {
      var next := Emit(program, operations[0]);
      var rest := operations[1..];
      if program.blockDepth > 0 { GuardReaches(next, rest); } else { UnguardedEmits(next, rest); }
    }
  }

  /** An `if` inside the block of another ends the outer one: what follows in the block is no longer guarded. */
  lemma NestedIfEndsGuard(
    program: Program, inner: Operation, next: SimpleOperation, line: nat, shown: string -> string)
    requires program.pending.Some? && program.blockDepth > 0
    requires inner.Conditional? && IsOperation(inner, program.qubits, program.clbits, shown)
    requires IsOperation(Plain(next), program.qubits, program.clbits, shown)
    ensures var first := ReadStatement(Statement(OperationText(inner), line), program, shown);
            && first.Continue?
            && var second := ReadStatement(Statement(SimpleText(next), line + 1), first.program, shown);
            second.Continue? && second.program.operations == program.operations + [inner, Plain(next)]
  {
    hide ReadStatement, OperationText, SimpleText, IsOperation, TouchAll, Find;
    ConditionalReads(inner, line, program, shown);
    var touched := TouchAll(program.qubits, QubitsOf(inner.body));
    forall name: string | name != PHYSICAL ensures Find(program.qubits, name) == Find(touched, name) {
      TouchAllFinds(program.qubits, QubitsOf(inner.body), name);
    }
    AgreeKeeps(Plain(next), program.qubits, touched, program.clbits, shown);
    var so := program.(operations := program.operations + [inner], qubits := touched, pending := None);
    PlainReads(next, line + 1, so, shown);
    assert program.operations + [inner] + [Plain(next)] == program.operations + [inner, Plain(next)];
  }
}
