/** One written operation read back: which operations can be, and that they are
    (src/circuit/qasm3.ts:372-430, 517-595, 1036-1074). */
module QasmOperations {
  import opened Options
  import opened QasmText
  import opened QasmReader
  import opened QasmWriter
  import opened QasmLexing

  // ---------------------------------------------------------------- what can be written

  /** A bit of a declared register, or a hardware qubit. */
  predicate IsBit(bit: Bit, registers: seq<Register>) {
    var register := Find(registers, bit.register);
    IsIdentifier(bit.register) && register.Some? && bit.index < register.value.size
  }

  predicate IsQubit(bit: Bit, registers: seq<Register>) {
    bit.register == PHYSICAL || IsBit(bit, registers)
  }

  predicate HasNoEquals(s: string) { forall i :: 0 <= i < |s| ==> s[i] != '=' }

  predicate HasNoDash(s: string) { forall i :: 0 <= i < |s| ==> s[i] != '-' }

  /** A number as the host prints it, or an expression that is one entry of a parameter list and is no number. */
  predicate IsParameter(parameter: Parameter, shown: string -> string) {
    && IsClean(parameter.text) && IsTrimmed(parameter.text) && HasNoEquals(parameter.text)
    && IsEntry(parameter.text, 0) && ParensMatch(parameter.text, 0)
    && (if parameter.Number? then IsDecimal(parameter.text) && shown(parameter.text) == parameter.text
        else !IsDecimal(parameter.text))
  }

  /** Gates are not named like the two statements that are looked for first, in any case of letters. */
  predicate IsGateName(name: string) {
    IsIdentifier(name) && Lower(name) != "reset" && Lower(name) != "barrier"
  }

  predicate IsSimple(
    operation: SimpleOperation, qubits: seq<Register>, clbits: seq<Register>, shown: string -> string)
  {
    match operation
    case Gate(name, parameters, bits) =>
      && IsGateName(name) && |bits| > 0
      && (forall i :: 0 <= i < |parameters| ==> IsParameter(parameters[i], shown))
      && forall i :: 0 <= i < |bits| ==> IsQubit(bits[i], qubits)
    case Measure(qubit, clbit) => IsQubit(qubit, qubits) && IsBit(clbit, clbits)
    case Reset(qubit) => IsQubit(qubit, qubits)
    case Barrier(bits) => forall i :: 0 <= i < |bits| ==> IsQubit(bits[i], qubits)
  }

  function QubitsOf(operation: SimpleOperation): seq<Bit> {
    match operation
    case Gate(_, _, bits) => bits
    case Measure(qubit, _) => [qubit]
    case Reset(qubit) => [qubit]
    case Barrier(bits) => bits
  }

  // ---------------------------------------------------------------- the registers along the way

  function Touch(registers: seq<Register>, bit: Bit): seq<Register> {
    if bit.register == PHYSICAL then Widen(registers, bit.index) else registers
  }

  function TouchAll(registers: seq<Register>, bits: seq<Bit>): seq<Register> {
    if |bits| == 0 then registers else Touch(TouchAll(registers, bits[..|bits| - 1]), bits[|bits| - 1])
  }

  lemma {:induction false} WidenFinds(registers: seq<Register>, index: nat, name: string)
    requires name != PHYSICAL
    ensures Find(Widen(registers, index), name) == Find(registers, name)
    decreases |registers|
  {
    if |registers| > 0 && registers[0].name != PHYSICAL {
      WidenFinds(registers[1..], index, name);
      assert Widen(registers, index)[1..] == Widen(registers[1..], index);
    } else if |registers| > 0 {
      assert Widen(registers, index)[1..] == registers[1..];
    } else {
      assert Widen(registers, index)[1..] == [];
    }
  }

  lemma {:induction false} TouchAllFinds(registers: seq<Register>, bits: seq<Bit>, name: string)
    requires name != PHYSICAL
    ensures Find(TouchAll(registers, bits), name) == Find(registers, name)
    decreases |bits|
  {
    hide Find, Widen;
    if |bits| > 0 {
      var before := TouchAll(registers, bits[..|bits| - 1]);
      TouchAllFinds(registers, bits[..|bits| - 1], name);
      WidenFinds(before, bits[|bits| - 1].index, name);
    }
  }

  lemma {:induction false} TouchAllAppend(registers: seq<Register>, a: seq<Bit>, b: seq<Bit>)
    ensures TouchAll(registers, a + b) == TouchAll(TouchAll(registers, a), b)
    decreases |b|
  {
    hide Touch;
    if |b| > 0 {
      assert (a + b)[..|a + b| - 1] == a + b[..|b| - 1];
      TouchAllAppend(registers, a, b[..|b| - 1]);
    } else {
      assert a + b == a;
    }
  }

  // ---------------------------------------------------------------- operands

  /** The characters of a written bit. */
  predicate IsOperandText(s: string) {
    |s| > 0 && forall i :: 0 <= i < |s| ==> IsWord(s[i]) || s[i] in {'[', ']', '$'}
  }

  lemma OperandTextIsPlain(s: string)
    requires IsOperandText(s)
    ensures IsClean(s) && IsTrimmed(s) && HasNoEquals(s) && HasNoDash(s)
  {
  }

  lemma {:induction false} WordIsEntry(word: string, rest: string, depth: int)
    requires AllWord(word)
    ensures IsEntry(word + rest, depth) == IsEntry(rest, depth)
    decreases |word|
  {
    if |word| > 0 {
      assert (word + rest)[0] == word[0] && (word + rest)[1..] == word[1..] + rest;
      WordIsEntry(word[1..], rest, depth);
    } else {
      assert word + rest == rest;
    }
  }

  lemma BitText(bit: Bit)
    requires bit.register == PHYSICAL || IsIdentifier(bit.register)
    ensures IsOperandText(FormatBit(bit)) && IsEntry(FormatBit(bit), 0) && FormatBit(bit)[0] != '('
  {
    hide Decimal, IsEntry;
    DecimalReads(bit.index);
    var digits := Decimal(bit.index);
    if bit.register == PHYSICAL {
      HardwareIsEntry(digits);
    } else {
      IndexIsEntry(bit.register, digits);
    }
  }

  lemma HardwareIsEntry(digits: string)
    requires AllWord(digits)
    ensures IsEntry("$" + digits, 0)
  {
    assert ("$" + digits)[1..] == digits && digits + "" == digits;
    WordIsEntry(digits, "", 0);
  }

  lemma IndexIsEntry(name: string, digits: string)
    requires AllWord(name) && AllWord(digits)
    ensures IsEntry(name + "[" + digits + "]", 0)
  {
    var rest := "[" + digits + "]";
    assert name + "[" + digits + "]" == name + rest;
    WordIsEntry(name, rest, 0);
    assert rest[1..] == digits + "]";
    WordIsEntry(digits, "]", 1);
    assert "]"[1..] == "";
  }

  /** A written bit resolves to itself, whatever white space surrounds it. */
  lemma BitResolves(operand: string, bit: Bit, registers: seq<Register>)
    requires IsQubit(bit, registers) && Trim(operand) == FormatBit(bit)
    ensures ResolveOperand(operand, registers, true) == Some(([bit], Touch(registers, bit)))
    ensures bit.register != PHYSICAL ==> ResolveOperand(operand, registers, false) == Some(([bit], registers))
  {
    hide Decimal, Find, Widen, Trim, ReadNumber, ReadIndex;
    var digits := Decimal(bit.index);
    if bit.register == PHYSICAL {
      ExpectReads("$", digits);
      NumberReads(bit.index, "");
      assert digits + "" == digits;
    } else {
      var rest := "[" + digits + "]";
      assert FormatBit(bit) == bit.register + rest;
      IdentifierReads(bit.register, rest);
      IndexReads(bit.index, "");
      assert rest + "" == rest && TrimStart(rest) == rest;
    }
  }

  function Singletons(bits: seq<Bit>): seq<seq<Bit>> {
    seq(|bits|, i requires 0 <= i < |bits| => [bits[i]])
  }

  lemma {:induction false} BitsResolve(operands: seq<string>, bits: seq<Bit>, registers: seq<Register>)
    requires |operands| == |bits|
    requires forall i :: 0 <= i < |bits| ==> IsQubit(bits[i], registers) && Trim(operands[i]) == FormatBit(bits[i])
    ensures ResolveAll(operands, registers) == Some((Singletons(bits), TouchAll(registers, bits)))
    decreases |bits|
  {
    hide FormatBit, Trim, Find, Touch, ResolveOperand, IsIdentifier;
    if |bits| > 0 {
      var n := |bits| - 1;
      var before := TouchAll(registers, bits[..n]);
      BitsResolve(operands[..n], bits[..n], registers);
      if bits[n].register != PHYSICAL { TouchAllFinds(registers, bits[..n], bits[n].register); }
      BitResolves(operands[n], bits[n], before);
      assert Singletons(bits) == Singletons(bits[..n]) + [[bits[n]]];
    }
  }

  lemma JoinedBitsResolve(bits: seq<Bit>, registers: seq<Register>)
    requires |bits| > 0 && forall i :: 0 <= i < |bits| ==> IsQubit(bits[i], registers)
    ensures ResolveAll(TopLevel(Join(FormatBits(bits))), registers)
      == Some((Singletons(bits), TouchAll(registers, bits)))
  {
    hide FormatBit, Trim, TopLevel, Join, IsEntry, IsOperandText, IsIdentifier, Find, IsClean, HasNoEquals;
    var texts := FormatBits(bits);
    forall i | 0 <= i < |texts| ensures IsEntry(texts[i], 0) && IsTrimmed(texts[i]) {
      BitText(bits[i]);
      OperandTextIsPlain(texts[i]);
    }
    SplitJoin(texts);
    BitsResolve(TopLevel(Join(texts)), bits, registers);
  }

  // ---------------------------------------------------------------- clean text

  predicate IsPlainText(s: string) { IsClean(s) && IsTrimmed(s) }

  lemma {:induction false} JoinIsPlain(parts: seq<string>)
    requires |parts| > 0 && forall i :: 0 <= i < |parts| ==> IsPlainText(parts[i])
    ensures IsPlainText(parts[0]) && IsPlainText(Join(parts)) && Join(parts)[0] == parts[0][0]
    ensures (forall i :: 0 <= i < |parts| ==> HasNoEquals(parts[i])) ==> HasNoEquals(Join(parts))
    decreases |parts|
  {
    hide IsClean, HasNoEquals;
    if |parts| > 1 {
      var rest := Join(parts[1..]);
      JoinIsPlain(parts[1..]);
      SeparatorIsPlain(parts[0], rest);
    }
  }

  lemma SeparatorIsPlain(a: string, b: string)
    requires IsPlainText(a) && IsPlainText(b)
    ensures IsPlainText(a + ", " + b)
    ensures HasNoEquals(a) && HasNoEquals(b) ==> HasNoEquals(a + ", " + b)
  {
    hide IsClean;
    CommaIsClean();
    CleanConcat(a, ", ");
    CleanConcat(a + ", ", b);
  }

  lemma CommaIsClean()
    ensures IsClean(", ") && IsClean(" ") && IsClean("(") && IsClean(")")
  {
  }

  lemma BitsArePlain(bits: seq<Bit>)
    requires |bits| > 0 && forall i :: 0 <= i < |bits| ==>
      bits[i].register == PHYSICAL || IsIdentifier(bits[i].register)
    ensures var text := Join(FormatBits(bits));
      IsPlainText(text) && HasNoEquals(text) && HasNoDash(text) && text[0] != '('
  {
    hide IsClean, HasNoEquals, HasNoDash, FormatBit, Join, IsOperandText, IsEntry, IsIdentifier;
    var texts := FormatBits(bits);
    forall i | 0 <= i < |texts|
      ensures IsPlainText(texts[i]) && HasNoEquals(texts[i]) && HasNoDash(texts[i]) && texts[i][0] != '('
    {
      BitText(bits[i]);
      OperandTextIsPlain(texts[i]);
    }
    JoinIsPlain(texts);
    JoinHasNoDash(texts);
  }

  lemma {:induction false} JoinHasNoDash(parts: seq<string>)
    requires forall i :: 0 <= i < |parts| ==> HasNoDash(parts[i])
    ensures HasNoDash(Join(parts))
    decreases |parts|
  {
    if |parts| > 1 {
      JoinHasNoDash(parts[1..]);
      assert HasNoDash(parts[0]);
    }
  }

  // ---------------------------------------------------------------- operations

  lemma {:induction false} NoAssignment(text: string, from: nat)
    requires HasNoEquals(text)
    ensures AssignedMeasure(text, from).None?
    decreases if from < |text| then |text| - from else 0
  {
    hide MeasuredOperand;
    if from < |text| { NoAssignment(text, from + 1); }
  }

  lemma {:induction false} FirstAssignment(text: string, from: nat, k: nat, operand: string)
    requires from <= k < |text| && (forall i :: from <= i < k ==> text[i] != '=')
    requires text[k] == '=' && MeasuredOperand(text[k + 1..]) == Some(operand)
    ensures AssignedMeasure(text, from) == Some((text[..k], operand))
    decreases k - from
  {
    hide MeasuredOperand;
    if from < k { FirstAssignment(text, from + 1, k, operand); }
  }

  lemma MeasuredReads(operand: string)
    requires IsTrimmed(operand)
    ensures MeasuredOperand(" measure " + operand) == Some(operand)
  {
    var rest := " " + operand;
    assert " measure " + operand == " " + ("measure" + rest);
    assert (" " + ("measure" + rest))[1..] == "measure" + rest;
    assert TrimStart("measure" + rest) == "measure" + rest;
    ExpectReads("measure", rest);
    assert rest[1..] == operand && TrimStart(operand) == operand;
  }

  lemma TrimTail(s: string)
    requires IsTrimmed(s)
    ensures Trim(s + " ") == s && Trim(s) == s
  {
    var tail := s + " ";
    assert tail[0] == s[0] && tail[|tail| - 1] == ' ' && tail[..|tail| - 1] == s;
    assert TrimEnd(tail) == TrimEnd(s);
  }

  lemma MeasureReads(
    qubit: Bit, clbit: Bit, line: nat, qubits: seq<Register>, clbits: seq<Register>, shown: string -> string)
    requires IsQubit(qubit, qubits) && IsBit(clbit, clbits)
    ensures ParseOperation(SimpleText(Measure(qubit, clbit)), line, qubits, clbits, shown)
         == Some(Reading([Measure(qubit, clbit)], Touch(qubits, qubit), []))
  {
    hide FormatBit, Trim, MeasuredOperand, ResolveOperand, Find, Touch, IsEntry, IsOperandText, HasNoEquals,
         IsClean, IsIdentifier;
    var left, right := FormatBit(clbit), FormatBit(qubit);
    NotPhysical(clbit);
    BitText(clbit);
    BitText(qubit);
    OperandTextIsPlain(left);
    OperandTextIsPlain(right);
    var text := SimpleText(Measure(qubit, clbit));
    var lhs := left + " ";
    assert text == lhs + "=" + (" measure " + right);
    MeasuredReads(right);
    assert text[|lhs|] == '=' && text[|lhs| + 1..] == " measure " + right && text[..|lhs|] == lhs;
    NoEqualsBefore(left, text);
    FirstAssignment(text, 1, |lhs|, right);
    TrimTail(left);
    TrimTail(right);
    BitResolves(lhs, clbit, clbits);
    BitResolves(right, qubit, qubits);
  }

  lemma NotPhysical(bit: Bit)
    requires IsIdentifier(bit.register)
    ensures bit.register != PHYSICAL
  {
  }

  lemma NoEqualsBefore(left: string, text: string)
    requires HasNoEquals(left) && left + " " <= text
    ensures forall i :: 0 <= i < |left| + 1 ==> text[i] != '='
  {
    forall i | 0 <= i < |left| + 1 ensures text[i] != '=' { assert text[i] == (left + " ")[i]; }
  }

  /** No measurement in the arrow form begins with another word. */
  lemma NoArrow(name: string, rest: string)
    requires IsIdentifier(name) && name != "measure" && (|rest| > 0 ==> !IsWord(rest[0]))
    ensures ArrowMeasure(name + rest).None?
  {
    hide SplitArrow;
    var text := name + rest;
    IdentifierReads(name, rest);
    var behind := Expect(text, "measure");
    if behind.Some? && |behind.value| > 0 && IsSpace(behind.value[0]) {
      MeasureLeads(text, behind.value);
    }
  }

  lemma {:induction false} NoArrowInside(text: string, from: nat)
    requires HasNoDash(text)
    ensures SplitArrow(text, from).None?
    decreases if from < |text| then |text| - from else 0
  {
    hide TrimStart;
    if from < |text| { NoArrowInside(text, from + 1); }
  }

  /** A gate, even one named `measure`, is no measurement in the arrow form: its operands hold no arrow. */
  lemma GateHasNoArrow(name: string, rest: string, operands: string)
    requires IsIdentifier(name) && IsTrimmed(operands) && HasNoDash(operands)
    requires rest == " " + operands || (|rest| > 0 && rest[0] == '(')
    ensures ArrowMeasure(name + rest).None?
  {
    hide HasNoDash, IsIdentifier;
    if name == "measure" {
      ExpectReads("measure", rest);
      if rest == " " + operands {
        assert rest[1..] == operands && TrimStart(rest) == operands;
        NoArrowInside(operands, 1);
      }
    } else {
      NoArrow(name, rest);
    }
  }

  lemma MeasureLeads(text: string, rest: string)
    requires Expect(text, "measure") == Some(rest) && |rest| > 0 && !IsWord(rest[0])
    ensures LeadingIdentifier(text) == "measure"
  {
    assert text == "measure" + rest;
    assert AllWord("measure") && IsLetter("measure"[0]);
    WordRun("measure", rest);
  }

  lemma {:induction false} LowerStays(s: string)
    requires forall i :: 0 <= i < |s| ==> !('A' <= s[i] <= 'Z')
    ensures Lower(s) == s
    decreases |s|
  {
    if |s| > 0 { LowerStays(s[1..]); }
  }

  lemma KeywordReads(name: string, rest: string)
    requires IsIdentifier(name) && (|rest| > 0 ==> !IsWord(rest[0]))
    ensures LeadingIdentifier(name + rest) == name && LeadingKeyword(name + rest) == Lower(name)
  {
    IdentifierReads(name, rest);
  }

  lemma ResetReads(qubit: Bit, line: nat, qubits: seq<Register>, clbits: seq<Register>, shown: string -> string)
    requires IsQubit(qubit, qubits)
    ensures ParseOperation(SimpleText(Reset(qubit)), line, qubits, clbits, shown)
         == Some(Reading([Reset(qubit)], Touch(qubits, qubit), []))
  {
    hide FormatBit, Trim, AssignedMeasure, ArrowMeasure, ResolveOperand, LeadingKeyword, Find, Touch, IsEntry,
         IsOperandText, IsClean,
         IsIdentifier, HasNoEquals;
    var operand := FormatBit(qubit);
    BitText(qubit);
    OperandTextIsPlain(operand);
    var rest := " " + operand;
    var text := "reset " + operand;
    assert text == "reset" + rest && text[5..] == rest;
    ResetIsWord();
    KeywordReads("reset", rest);
    LowerStays("reset");
    PrefixNoEquals("reset ", operand);
    NoAssignment(text, 1);
    NoArrow("reset", rest);
    SpaceIsBlank();
    TrimPadded(" ", operand);
    BitResolves(rest, qubit, qubits);
  }

  lemma PrefixNoEquals(a: string, b: string)
    requires HasNoEquals(a) && HasNoEquals(b)
    ensures HasNoEquals(a + b)
  {
  }

  lemma ResetIsWord()
    ensures IsIdentifier("reset") && IsIdentifier("barrier") && HasNoEquals("reset ") && HasNoEquals("barrier ")
      && HasNoEquals("barrier")
  {
  }

  lemma {:induction false} FlattenSingletons(bits: seq<Bit>)
    ensures Flatten(Singletons(bits)) == bits
    decreases |bits|
  {
    if |bits| > 0 {
      var n := |bits| - 1;
      FlattenSingletons(bits[..n]);
      assert Singletons(bits)[..n] == Singletons(bits[..n]);
    }
  }

  lemma BarrierReads(bits: seq<Bit>, line: nat, qubits: seq<Register>, clbits: seq<Register>, shown: string -> string)
    requires forall i :: 0 <= i < |bits| ==> IsQubit(bits[i], qubits)
    ensures ParseOperation(SimpleText(Barrier(bits)), line, qubits, clbits, shown)
         == Some(Reading([Barrier(bits)], TouchAll(qubits, bits), []))
  {
    hide Trim, TrimStart, AssignedMeasure, ArrowMeasure, ResolveAll, ResolveOperand, LeadingKeyword, IsQubit,
         Touch, IsClean, IsIdentifier,
         HasNoEquals, TopLevel, FormatBits, Join, Flatten, CallSignature, GateOf, MeasureOf;
    var word := "barrier";
    var operands := Join(FormatBits(bits));
    var rest := if |bits| == 0 then "" else " " + operands;
    var text := SimpleText(Barrier(bits));
    ResetIsWord();
    LowerStays(word);
    assert text == word + rest && text[7..] == rest;
    KeywordReads(word, rest);
    NoArrow(word, rest);
    if |bits| == 0 {
      NoAssignment(text, 1);
      NothingReads(qubits);
      assert bits == [];
    } else {
      forall i | 0 <= i < |bits|
        ensures bits[i].register == PHYSICAL || IsIdentifier(bits[i].register)
      {
        QubitNamed(bits[i], qubits);
      }
      BitsArePlain(bits);
      assert text == "barrier " + operands;
      PrefixNoEquals("barrier ", operands);
      NoAssignment(text, 1);
      SpaceIsBlank();
      TrimPadded(" ", operands);
      JoinedBitsResolve(bits, qubits);
      FlattenSingletons(bits);
    }
  }

  lemma NothingReads(registers: seq<Register>)
    ensures Trim("") == "" && TopLevel("") == []
    ensures ResolveAll([], registers) == Some(([], registers)) && Flatten([]) == []
    ensures TouchAll(registers, []) == registers
  {
    assert Parts("", 0, "") == [""];
  }

  lemma {:induction false} WidestSingletons(bits: seq<Bit>)
    requires |bits| > 0
    ensures Widest(Singletons(bits)) == 1
    decreases |bits|
  {
    var n := |bits| - 1;
    assert Singletons(bits)[..n] == Singletons(bits[..n]);
    if n > 0 { WidestSingletons(bits[..n]); }
  }

  lemma ParametersRead(parameters: seq<Parameter>, shown: string -> string)
    requires |parameters| > 0 && forall i :: 0 <= i < |parameters| ==> IsParameter(parameters[i], shown)
    ensures var text := Join(FormatParameters(parameters));
            ParametersOf(text, shown) == parameters && ParensMatch(text, 0) && IsPlainText(text) && HasNoEquals(text)
  {
    hide Trim, TopLevel, Join, IsEntry, ParensMatch, IsClean, HasNoEquals, IsDecimal;
    var texts := FormatParameters(parameters);
    forall i | 0 <= i < |texts|
      ensures IsEntry(texts[i], 0) && IsTrimmed(texts[i]) && IsPlainText(texts[i]) && HasNoEquals(texts[i])
        && ParensMatch(texts[i], 0)
    {
      assert IsParameter(parameters[i], shown);
    }
    SplitJoin(texts);
    JoinMatches(texts);
    JoinIsPlain(texts);
    TrimTail(Join(texts));
    forall i | 0 <= i < |parameters| ensures ParameterOf(texts[i], shown) == parameters[i] {
      assert IsParameter(parameters[i], shown);
    }
    assert ParametersOf(Join(texts), shown) == parameters;
  }

  lemma GateOfReads(signature: Signature, gate: SimpleOperation, qubits: seq<Register>, shown: string -> string)
    requires gate.Gate? && |gate.qubits| > 0 && signature.name == gate.name
    requires forall i :: 0 <= i < |gate.qubits| ==> IsQubit(gate.qubits[i], qubits)
    requires signature.operandText == Join(FormatBits(gate.qubits))
    requires ParametersOf(if signature.parameterText.Some? then signature.parameterText.value else "", shown)
      == gate.parameters
    ensures GateOf(signature, qubits, shown) == Some(Reading([gate], TouchAll(qubits, gate.qubits), []))
  {
    hide TopLevel, Join, FormatBits, ResolveAll, IsQubit, ParametersOf, Widest, Touch;
    var bits := gate.qubits;
    JoinedBitsResolve(bits, qubits);
    WidestSingletons(bits);
    var groups := Singletons(bits);
    assert seq(|groups|, k requires 0 <= k < |groups| => BroadcastBit(groups[k], 0)) == bits;
    var width := Widest(groups);
    var copies := seq(width, i requires 0 <= i < width =>
      Gate(signature.name, gate.parameters, seq(|groups|, k requires 0 <= k < |groups| => BroadcastBit(groups[k], i))));
    assert copies == [gate];
  }

  lemma GateReads(
    gate: SimpleOperation, line: nat, qubits: seq<Register>, clbits: seq<Register>, shown: string -> string)
    requires gate.Gate? && IsSimple(gate, qubits, clbits, shown)
    ensures ParseOperation(SimpleText(gate), line, qubits, clbits, shown)
         == Some(Reading([gate], TouchAll(qubits, gate.qubits), []))
  {
    hide Trim, AssignedMeasure, ArrowMeasure, LeadingKeyword, IsQubit, IsClean, IsIdentifier, HasNoEquals, HasNoDash,
         GateOf, TopLevel, FormatBits, FormatParameters, Join, ParensMatch, CallSignature, ParametersOf, IsParameter,
         Lower, TouchAll;
    var text := SimpleText(gate);
    var operands := Join(FormatBits(gate.qubits));
    forall i | 0 <= i < |gate.qubits|
      ensures gate.qubits[i].register == PHYSICAL || IsIdentifier(gate.qubits[i].register)
    {
      QubitNamed(gate.qubits[i], qubits);
    }
    BitsArePlain(gate.qubits);
    NameNoEquals(gate.name);
    var rest;
    if |gate.parameters| == 0 {
      rest := " " + operands;
      assert text == gate.name + " " + operands && text == gate.name + rest;
      PlainCallReads(gate.name, operands);
      NoParameters(shown);
      assert gate.parameters == [];
      SeparatedNoEquals(gate.name, operands);
      GateOfReads(Signature(gate.name, None, operands), gate, qubits, shown);
    } else {
      var inner := Join(FormatParameters(gate.parameters));
      rest := "(" + inner + ")" + " " + operands;
      assert text == gate.name + ("(" + inner + ")") + " " + operands;
      assert text == gate.name + "(" + inner + ")" + " " + operands && text == gate.name + rest;
      ParametersRead(gate.parameters, shown);
      CallReads(gate.name, inner, operands);
      CallNoEquals(gate.name, inner, operands);
      GateOfReads(Signature(gate.name, Some(inner), operands), gate, qubits, shown);
    }
    NoAssignment(text, 1);
    GateHasNoArrow(gate.name, rest, operands);
    KeywordReads(gate.name, rest);
  }

  lemma QubitNamed(bit: Bit, registers: seq<Register>)
    requires IsQubit(bit, registers)
    ensures bit.register == PHYSICAL || IsIdentifier(bit.register)
  {
  }

  lemma NameNoEquals(name: string)
    requires IsIdentifier(name)
    ensures HasNoEquals(name)
  {
  }

  lemma SeparatedNoEquals(name: string, operands: string)
    requires HasNoEquals(name) && HasNoEquals(operands)
    ensures HasNoEquals(name + " " + operands)
  {
  }

  lemma CallNoEquals(name: string, inner: string, operands: string)
    requires HasNoEquals(name) && HasNoEquals(inner) && HasNoEquals(operands)
    ensures HasNoEquals(name + "(" + inner + ")" + " " + operands)
  {
    PrefixNoEquals(name, "(");
    PrefixNoEquals(name + "(", inner);
    PrefixNoEquals(name + "(" + inner, ")");
    PrefixNoEquals(name + "(" + inner + ")", " ");
    PrefixNoEquals(name + "(" + inner + ")" + " ", operands);
  }

  lemma NoParameters(shown: string -> string)
    ensures ParametersOf("", shown) == []
  {
  }

  /** Every simple operation of the subset is read back as itself, from a line of its own or behind a condition. */
  lemma SimpleReads(
    operation: SimpleOperation, line: nat, qubits: seq<Register>, clbits: seq<Register>, shown: string -> string)
    requires IsSimple(operation, qubits, clbits, shown)
    ensures ParseOperation(SimpleText(operation), line, qubits, clbits, shown)
         == Some(Reading([operation], TouchAll(qubits, QubitsOf(operation)), []))
  {
    hide ParseOperation, SimpleText, Touch, IsQubit, IsBit, IsParameter, IsGateName;
    match operation
    case Gate(_, _, _) => GateReads(operation, line, qubits, clbits, shown);
    case Measure(qubit, clbit) =>
      MeasureReads(qubit, clbit, line, qubits, clbits, shown);
      TouchOne(qubits, qubit);
    case Reset(qubit) =>
      ResetReads(qubit, line, qubits, clbits, shown);
      TouchOne(qubits, qubit);
    case Barrier(bits) => BarrierReads(bits, line, qubits, clbits, shown);
  }

  lemma TouchOne(registers: seq<Register>, bit: Bit)
    ensures TouchAll(registers, [bit]) == Touch(registers, bit)
  {
    assert TouchAll(registers, [bit][..0]) == registers;
  }

  lemma ConcatIsPlain(a: string, b: string)
    requires IsPlainText(a) && IsPlainText(b)
    ensures IsPlainText(a + " " + b)
  {
    hide IsClean;
    CommaIsClean();
    CleanConcat(a, " ");
    CleanConcat(a + " ", b);
  }

  lemma CallIsPlain(name: string, inner: string)
    requires IsPlainText(name) && IsPlainText(inner) && IsWord(name[|name| - 1])
    ensures IsPlainText(name + ("(" + inner + ")"))
  {
    hide IsClean;
    CommaIsClean();
    CleanConcat("(", inner);
    CleanConcat("(" + inner, ")");
    CleanConcat(name, "(" + inner + ")");
  }

  lemma WordsArePlain()
    ensures IsPlainText("= measure") && IsPlainText("reset") && IsPlainText("barrier")
  {
  }

  lemma BitIsPlain(bit: Bit)
    requires bit.register == PHYSICAL || IsIdentifier(bit.register)
    ensures IsPlainText(FormatBit(bit))
  {
    BitText(bit);
    OperandTextIsPlain(FormatBit(bit));
  }

  /** A gate by any name: parameters and operands as they must be. */
  predicate IsGateOf(operation: SimpleOperation, qubits: seq<Register>, shown: string -> string) {
    && operation.Gate? && IsIdentifier(operation.name) && |operation.qubits| > 0
    && (forall i :: 0 <= i < |operation.parameters| ==> IsParameter(operation.parameters[i], shown))
    && forall i :: 0 <= i < |operation.qubits| ==> IsQubit(operation.qubits[i], qubits)
  }

  lemma GateIsPlain(operation: SimpleOperation, qubits: seq<Register>, shown: string -> string)
    requires IsGateOf(operation, qubits, shown)
    ensures IsPlainText(SimpleText(operation))
  {
    hide IsPlainText, FormatBit, FormatBits, FormatParameters, Join, IsIdentifier, Find, IsParameter;
    var name, parameters, bits := operation.name, operation.parameters, operation.qubits;
    forall i | 0 <= i < |bits| ensures bits[i].register == PHYSICAL || IsIdentifier(bits[i].register) {
      QubitNamed(bits[i], qubits);
    }
    BitsArePlain(bits);
    NameIsPlain(name);
    if |parameters| > 0 {
      var inner := Join(FormatParameters(parameters));
      ParametersRead(parameters, shown);
      CallIsPlain(name, inner);
      ConcatIsPlain(name + ("(" + inner + ")"), Join(FormatBits(bits)));
    } else {
      assert name + "" == name;
      ConcatIsPlain(name, Join(FormatBits(bits)));
    }
  }

  lemma SimpleIsPlain(operation: SimpleOperation, qubits: seq<Register>, clbits: seq<Register>, shown: string -> string)
    requires IsSimple(operation, qubits, clbits, shown)
    ensures IsPlainText(SimpleText(operation))
  {
    hide IsPlainText, FormatBit, FormatBits, FormatParameters, Join, IsIdentifier, Find, IsParameter, Lower;
    WordsArePlain();
    match operation
    case Gate(_, _, _) => GateIsPlain(operation, qubits, shown);
    case Measure(qubit, clbit) =>
      BitIsPlain(clbit);
      BitIsPlain(qubit);
      ConcatIsPlain(FormatBit(clbit), "= measure");
      ConcatIsPlain(FormatBit(clbit) + " " + "= measure", FormatBit(qubit));
      assert SimpleText(operation) == FormatBit(clbit) + " " + "= measure" + " " + FormatBit(qubit);
    case Reset(qubit) =>
      BitIsPlain(qubit);
      ConcatIsPlain("reset", FormatBit(qubit));
      assert SimpleText(operation) == "reset" + " " + FormatBit(qubit);
    case Barrier(bits) =>
      if |bits| > 0 {
        forall i | 0 <= i < |bits|
          ensures bits[i].register == PHYSICAL || IsIdentifier(bits[i].register)
        {
          QubitNamed(bits[i], qubits);
        }
        BitsArePlain(bits);
        ConcatIsPlain("barrier", Join(FormatBits(bits)));
        assert SimpleText(operation) == "barrier" + " " + Join(FormatBits(bits));
      }
  }

  lemma NameIsPlain(name: string)
    requires IsIdentifier(name)
    ensures IsPlainText(name) && IsWord(name[|name| - 1])
  {
  }
}
