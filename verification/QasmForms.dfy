/** Other ways to write the same: OpenQASM 2 forms, truth of one bit, and gates over whole registers
    (src/circuit/qasm3.ts:388-397, 448-468, 528-595, 645-654). */
module QasmForms {
  import opened Options
  import opened QasmText
  import opened QasmReader
  import opened QasmWriter
  import opened QasmLexing
  import opened QasmOperations
  import opened QasmRoundTrip

  lemma {:induction false} ArrowFound(text: string, from: nat, k: nat)
    requires from <= k && PairAt(text, '-', '>', k) && |TrimStart(text[k + 2..])| > 0
    requires forall i :: from <= i < k ==> text[i] != '-'
    ensures SplitArrow(text, from) == Some((text[..k], TrimStart(text[k + 2..])))
    decreases k - from
  {
    hide TrimStart;
    if from < k { ArrowFound(text, from + 1, k); }
  }

  lemma ArrowSplits(left: string, right: string)
    requires IsOperandText(left) && IsTrimmed(right)
    ensures ArrowMeasure("measure" + (" " + (left + " -> " + right))) == Some((left + " ", right))
  {
    var body := left + " -> " + right;
    var k := |left| + 1;
    assert left + " -> " + right == left + " " + ("->" + (" " + right));
    assert PairAt(body, '-', '>', k) && body[k + 2..] == " " + right && body[..k] == left + " ";
    SpaceSkipped(right);
    forall i | 0 <= i < k ensures body[i] != '-' { assert i < |left| ==> body[i] == left[i]; }
    ArrowFound(body, 1, k);
    ExpectReads("measure", " " + body);
    SpaceSkipped(body);
  }

  /** `measure q -> c` is the assignment form, with one entry in the loss report. */
  lemma ArrowReadsAsAssignment(
    qubit: Bit, clbit: Bit, line: nat, qubits: seq<Register>, clbits: seq<Register>, shown: string -> string)
    requires IsQubit(qubit, qubits) && IsBit(clbit, clbits)
    ensures ParseOperation("measure" + (" " + (FormatBit(qubit) + " -> " + FormatBit(clbit))), line, qubits, clbits,
                           shown)
         == Some(Reading([Measure(qubit, clbit)], Touch(qubits, qubit), [Loss("openqasm2_measure_syntax", Some(line))]))
  {
    hide FormatBit, Trim, ArrowMeasure, AssignedMeasure, ResolveOperand, Find, Touch, IsEntry, IsOperandText,
         HasNoEquals, IsClean, IsIdentifier,
         CallSignature, GateOf;
    var left, right := FormatBit(qubit), FormatBit(clbit);
    NotPhysical(clbit);
    BitText(qubit);
    BitText(clbit);
    OperandTextIsPlain(left);
    OperandTextIsPlain(right);
    ArrowSplits(left, right);
    ArrowHasNoEquals(left, right);
    NoAssignment("measure" + (" " + (left + " -> " + right)), 1);
    TrimTail(left);
    TrimTail(right);
    BitResolves(left + " ", qubit, qubits);
    BitResolves(right, clbit, clbits);
  }

  lemma ArrowHasNoEquals(left: string, right: string)
    requires HasNoEquals(left) && HasNoEquals(right)
    ensures HasNoEquals("measure" + (" " + (left + " -> " + right)))
  {
    PrefixNoEquals(left, " -> ");
    PrefixNoEquals(left + " -> ", right);
    PrefixNoEquals(" ", left + " -> " + right);
    PrefixNoEquals("measure", " " + (left + " -> " + right));
  }

  /** `qreg q[4]` and `creg c[4]` declare what the modern forms declare, and are remembered as legacy. */
  lemma LegacyDeclares(ofQubits: bool, register: Register)
    requires IsIdentifier(register.name)
    ensures var text := (if ofQubits then "qreg" else "creg")
      + (" " + (register.name + ("[" + Decimal(register.size) + "]")));
            ParseDeclaration(text) == Some(Declaration(ofQubits, register, true))
  {
    hide Decimal, ReadIndex, IsIdentifier, ReadIdentifier;
    var kind := if ofQubits then "qreg" else "creg";
    var index := "[" + Decimal(register.size) + "]";
    var target := register.name + index;
    var text := kind + (" " + target);
    assert text[0] == kind[0] && Expect(text, "qubit").None? && Expect(text, "bit").None? by {
      assert text[1] == kind[1];
    }
    ExpectReads(kind, " " + target);
    NameIsPlain(register.name);
    SpaceSkipped(target);
    IdentifierReads(register.name, index);
    SpaceSkipped(index);
    IndexReads(register.size, "");
    assert index + "" == index;
    if !ofQubits { assert Expect(text, "qreg").None?; }
  }

  /** `if (c[i])` is `if (c[i] == 1)`. */
  lemma TruthIsOne(register: string, bit: nat, body: string)
    requires IsIdentifier(register) && IsTrimmed(body)
    ensures ParseCondition("if (" + register + ("[" + Decimal(bit) + "]" + (") " + body)))
      == Some((Condition(register, Some(bit), 1), body))
  {
    hide TrimStart, ReadIdentifier, ReadNumber, Decimal, Lower, ReadIndex, ReadLiteral;
    var rest := ") " + body;
    var index := "[" + Decimal(bit) + "]" + rest;
    ConditionOpens(register, index);
    IndexReads(bit, rest);
    SpaceSkipped(index);
    assert rest == ")" + (" " + body);
    SpaceSkipped(rest);
    ExpectReads(")", " " + body);
    SpaceSkipped(body);
    assert rest[0] != '=' && Expect(rest, "==").None?;
  }

  /** The word, letter by letter, in any case. */
  predicate IsCasingOf(s: string, word: string) {
    |s| == |word| && forall i :: 0 <= i < |s| ==> s[i] == word[i] || s[i] as int == word[i] as int - 32
  }

  predicate IsLowerCase(word: string) {
    forall i :: 0 <= i < |word| ==> 'a' <= word[i] <= 'z'
  }

  lemma CasingLowers(s: string, word: string)
    requires IsLowerCase(word) && IsCasingOf(s, word)
    ensures Lower(s) == word
    ensures forall i :: 0 <= i < |s| ==> IsLetter(s[i]) && !IsSpace(s[i]) && !IsDigit(s[i])
  {
    forall i | 0 <= i < |s| ensures 'a' <= s[i] <= 'z' || 'A' <= s[i] <= 'Z' { }
    LowersTo(s, word);
  }

  /** What a comparison with a truth value compares with. */
  function TruthWord(value: bool): string {
    if value then "true" else "false"
  }

  lemma LiteralStands(literal: string, value: bool, close: string)
    requires IsCasingOf(literal, TruthWord(value))
    ensures ReadLiteral(literal + close) == Some((if value then 1 else 0, close))
    ensures |literal| > 0 && !IsSpace(literal[0])
  {
    CasingLowers(literal, TruthWord(value));
    hide IsSpace, Lower;
    var s, n := literal + close, |literal|;
    assert s[0] == literal[0] && s[..n] == literal && s[n..] == close;
    assert ReadNumber(s).None?;
    if !value && |s| >= 4 { LowerOfStart(s, literal); }
  }

  lemma LowerOfStart(s: string, literal: string)
    requires |s| >= |literal| == 5 && s[..5] == literal && Lower(literal) == "false"
    ensures Lower(s[..4]) != "true"
  {
    assert s[..4][0] == s[..5][0] == literal[0];
    assert Lower(literal)[0] == 'f' && Lower(s[..4])[0] == Lower(literal)[0];
  }

  /** `if (c[i] == true)` and `if (c[i] == false)`, keyword and literal in any case. */
  lemma LiteralReads(keyword: string, register: string, bit: nat, literal: string, value: bool, body: string)
    requires IsIdentifier(register) && IsTrimmed(body)
    requires IsCasingOf(keyword, "if") && IsCasingOf(literal, TruthWord(value))
    ensures ParseCondition(keyword + (" (" + register + ("[" + Decimal(bit) + "]" + (" == " + literal + ") " + body))))
         == Some((Condition(register, Some(bit), if value then 1 else 0), body))
  {
    hide TrimStart, ReadIdentifier, ReadNumber, Decimal, Lower, ReadIndex, ReadLiteral, IsCasingOf, IsIdentifier,
         TruthWord;
    var rest := " == " + literal + ") " + body;
    var index := "[" + Decimal(bit) + "]" + rest;
    var behind := " (" + register + index;
    ConditionOpens(register, index);
    assert ("if (" + register + index)[2..] == behind;
    var text := keyword + behind;
    CasingLowers(keyword, "if");
    assert |keyword| == 2 by { KeywordLength(keyword); }
    assert text[..2] == keyword && text[2..] == behind;
    IndexReads(bit, rest);
    SpaceSkipped(index);
    var close := ")" + (" " + body);
    var equals := "==" + (" " + (literal + close));
    assert rest == " " + equals;
    LiteralStands(literal, value, close);
    SpaceSkipped(equals);
    ExpectReads("==", " " + (literal + close));
    SpaceSkipped(literal + close);
    SpaceSkipped(close);
    ExpectReads(")", " " + body);
    SpaceSkipped(body);
  }

  lemma KeywordLength(keyword: string)
    requires IsCasingOf(keyword, "if")
    ensures |keyword| == 2
  {
  }

  /** Comparing with true is comparing with 1 and testing the bit; comparing with false is comparing with 0. */
  lemma LiteralsAreNumbers(register: string, bit: nat, literal: string, value: bool, body: string)
    requires IsIdentifier(register) && IsTrimmed(body) && IsCasingOf(literal, TruthWord(value))
    ensures var start := "if (" + register + "[" + Decimal(bit) + "]";
      && ParseCondition(start + " == " + literal + ") " + body)
         == ParseCondition(start + " == " + (if value then "1" else "0") + ") " + body)
      && (value ==> ParseCondition(start + " == " + literal + ") " + body) == ParseCondition(start + ") " + body))
  {
    hide ParseCondition, IsCasingOf, IsIdentifier;
    var number: nat := if value then 1 else 0;
    var d := Decimal(bit);
    OneDigit();
    SameCase();
    LiteralReads("if", register, bit, literal, value, body);
    BitReads(register, bit, number, body);
    TruthIsOne(register, bit, body);
    Associated(register, d, literal, body);
    Associated(register, d, Decimal(number), body);
    assert "if (" + register + "[" + d + "]" + ") " + body == "if (" + register + ("[" + d + "]" + (") " + body));
  }

  lemma Associated(register: string, index: string, value: string, body: string)
    ensures "if (" + register + "[" + index + "]" + " == " + value + ") " + body
         == "if (" + register + ("[" + index + "]" + (" == " + value + ") " + body))
    ensures "if (" + register + ("[" + index + "]" + (" == " + value + ") " + body))
         == "if" + (" (" + register + ("[" + index + "]" + (" == " + value + ") " + body)))
  {
  }

  lemma OneDigit()
    ensures Decimal(0) == "0" && Decimal(1) == "1"
  {
  }

  lemma SameCase()
    ensures IsCasingOf("if", "if")
  {
  }

  /** A gate over a whole register is one gate for each of its bits, in order. */
  lemma BroadcastReads(
    name: string, register: Register, line: nat, qubits: seq<Register>, clbits: seq<Register>, shown: string -> string)
    requires IsGateName(name) && IsIdentifier(register.name) && Find(qubits, register.name) == Some(register)
    ensures ParseOperation(name + " " + register.name, line, qubits, clbits, shown)
         == Some(Reading(
              seq(register.size, i requires 0 <= i < register.size => Gate(name, [], [Bit(register.name, i)])),
              qubits, []))
  {
    hide Trim, AssignedMeasure, ArrowMeasure, LeadingKeyword, IsClean, IsIdentifier, HasNoEquals, GateOf,
         CallSignature, Lower, Find;
    var text, rest := name + " " + register.name, " " + register.name;
    assert text == name + rest;
    NameIsPlain(register.name);
    WordNotOpen(register.name);
    PlainCallReads(name, register.name);
    NameNoEquals(name);
    NameNoEquals(register.name);
    SeparatedNoEquals(name, register.name);
    NoAssignment(text, 1);
    NameHasNoDash(register.name);
    GateHasNoArrow(name, rest, register.name);
    KeywordReads(name, rest);
    RegisterOf(name, register, qubits, shown);
  }

  lemma NameHasNoDash(name: string)
    requires IsIdentifier(name)
    ensures HasNoDash(name)
  {
  }

  lemma WordNotOpen(word: string)
    requires IsIdentifier(word)
    ensures word[0] != '(' && IsEntry(word, 0)
  {
    assert word + "" == word;
    WordIsEntry(word, "", 0);
  }

  /** A gate with a single operand: one copy for each bit of it. */
  lemma OneOperand(signature: Signature, bits: seq<Bit>, qubits: seq<Register>, shown: string -> string)
    requires ResolveAll(TopLevel(signature.operandText), qubits) == Some(([bits], qubits))
      && signature.parameterText.None?
    ensures GateOf(signature, qubits, shown)
         == Some(Reading(seq(|bits|, i requires 0 <= i < |bits| => Gate(signature.name, [], [bits[i]])), qubits, []))
  {
    hide TopLevel, ResolveAll, ParametersOf;
    NoParameters(shown);
    var groups := [bits];
    assert groups[..0] == [] && Widest(groups[..0]) == 0 && Widest(groups) == |bits|;
    forall i | 0 <= i < |bits|
      ensures seq(|groups|, k requires 0 <= k < |groups| => BroadcastBit(groups[k], i)) == [bits[i]]
    {
      assert |bits| == 1 ==> i == 0;
    }
    assert forall k :: 0 <= k < |groups| ==> groups[k] == bits;
    var gates := seq(|bits|, i requires 0 <= i < |bits| => Gate(signature.name, [], [bits[i]]));
    assert GateOf(signature, qubits, shown).value.operations == gates;
  }

  lemma RegisterOf(name: string, register: Register, qubits: seq<Register>, shown: string -> string)
    requires IsIdentifier(register.name) && Find(qubits, register.name) == Some(register)
    ensures GateOf(Signature(name, None, register.name), qubits, shown)
         == Some(Reading(
              seq(register.size, i requires 0 <= i < register.size => Gate(name, [], [Bit(register.name, i)])),
              qubits, []))
  {
    hide Trim, TopLevel, IsIdentifier, Find, Join, IsEntry, GateOf, ResolveOperand;
    NameIsPlain(register.name);
    WordNotOpen(register.name);
    OneJoined(register.name);
    SplitJoin([register.name]);
    var operands := TopLevel(register.name);
    var bits := seq(register.size, i requires 0 <= i < register.size => Bit(register.name, i));
    WholeResolves(operands[0], register, qubits);
    assert operands[..0] == [] && ResolveAll([], qubits) == Some(([], qubits)) && [] + [bits] == [bits];
    assert ResolveAll(operands, qubits) == Some(([bits], qubits));
    OneOperand(Signature(name, None, register.name), bits, qubits, shown);
    assert seq(|bits|, i requires 0 <= i < |bits| => Gate(name, [], [bits[i]]))
        == seq(register.size, i requires 0 <= i < register.size => Gate(name, [], [Bit(register.name, i)]));
  }

  lemma OneJoined(part: string)
    ensures Join([part]) == part
  {
  }

  lemma WholeResolves(operand: string, register: Register, registers: seq<Register>)
    requires Trim(operand) == register.name && IsIdentifier(register.name)
      && Find(registers, register.name) == Some(register)
    ensures ResolveOperand(operand, registers, true)
         == Some((seq(register.size, i requires 0 <= i < register.size => Bit(register.name, i)), registers))
  {
    hide Trim, Find, IsIdentifier;
    IdentifierReads(register.name, "");
    assert register.name + "" == register.name;
  }
}
