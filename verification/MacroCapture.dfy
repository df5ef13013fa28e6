/** What textual substitution does to names and operands of a gate body (src/circuit/qasm3.ts:320-351, 991-1000). */
module MacroCapture {
  import opened Options
  import opened QasmText
  import opened QasmReader
  import opened QasmWriter
  import opened QasmLexing
  import opened QasmOperations
  import opened QasmRoundTrip
  import opened QasmForms
  import opened TextSubstitution
  import opened MacroExpansion

  lemma IdentifierIsWord(name: string)
    requires IsIdentifier(name)
    ensures IsWordText(name) && IsLiteral(name)
  {
  }

  /** White space, brackets and commas between words stay. */
  lemma GapStays(gap: string, formal: Formal, actual: string)
    requires IsWordText(formal) && forall i :: 0 <= i < |gap| ==> !IsWord(gap[i])
    ensures ReplaceWord(gap, formal, actual) == gap
  {
    hide IsWordText;
    forall k | 0 <= k < |gap| ensures !Occurs(gap, formal, k) {
      assert !WordAt(gap, k - 1) && !WordAt(gap, k);
    }
    NotMentioned(gap, formal, actual, 0);
  }

  /** A word, a gap and the rest. */
  lemma ReplaceTriple(word: string, gap: string, rest: string, formal: Formal, actual: string)
    requires IsWordText(word) && IsWordText(formal) && IsLiteral(actual)
    requires |gap| > 0 && forall i :: 0 <= i < |gap| ==> !IsWord(gap[i])
    ensures ReplaceWord(word + gap + rest, formal, actual)
         == (if word == formal then actual else word) + gap + ReplaceWord(rest, formal, actual)
  {
    hide ReplaceWord, IsWordText, IsLiteral;
    assert word + gap + rest == word + (gap + rest);
    ReplaceConcat(word, gap + rest, formal, actual);
    ReplaceConcat(gap, rest, formal, actual);
    ReplaceOneWord(word, formal, actual);
    GapStays(gap, formal, actual);
  }

  // ---------------------------------------------------------------- an actual that mentions a later formal

  /** `name f, g`, the body of a gate on two qubits. */
  function PairBody(name: string, f: string, g: string): string {
    name + " " + (f + ", " + g)
  }

  predicate IsPairCase(name: string, f: Formal, g: Formal, index: string, b: string) {
    && IsWordText(name) && IsWordText(f) && IsWordText(g) && name != f && name != g && f != g
    && |index| > 0 && !IsWord(index[0]) && !Mentions(index, g) && IsLiteral(g + index) && IsLiteral(b)
  }

  /**
   * Called with a bit of a register named like its second formal, a gate on two qubits gets the second actual in both
   * places: the first place has the index of the one and the text of the other.
   */
  lemma LaterFormalIsCaptured(name: string, f: Formal, g: Formal, index: string, b: string)
    requires IsPairCase(name, f, g, index, b)
    ensures ReplaceAll(PairBody(name, f, g), [f, g], [g + index, b]) == PairBody(name, b + index, b)
    ensures Simultaneous(PairBody(name, f, g), [f, g], [g + index, b]) == PairBody(name, g + index, b)
  {
    hide ReplaceWord, IsWordText, IsLiteral, Mentions;
    var a := g + index;
    ReplaceTriple(name, " ", f + ", " + g, f, a);
    ReplaceTriple(f, ", ", g, f, a);
    ReplaceOneWord(g, f, a);
    assert ReplaceWord(PairBody(name, f, g), f, a) == name + " " + (a + ", " + g);
    ReplaceTriple(name, " ", a + ", " + g, g, b);
    assert a + ", " + g == g + (index + ", " + g);
    MovedOn(g, index, b);
    assert ReplaceWord(name + " " + (a + ", " + g), g, b) == PairBody(name, b + index, b);
    TwoPasses(PairBody(name, f, g), f, g, a, b);
    PairAtOnce(name, f, g, a, b);
  }

  lemma MovedOn(g: Formal, index: string, b: string)
    requires IsWordText(g) && IsLiteral(b) && |index| > 0 && !IsWord(index[0]) && !Mentions(index, g)
    ensures ReplaceWord(g + (index + ", " + g), g, b) == b + index + ", " + b
  {
    hide ReplaceWord, IsWordText, IsLiteral, Mentions;
    assert index + ", " + g == index + (", " + g);
    ReplaceConcat(g, index + (", " + g), g, b);
    ReplaceConcat(index, ", " + g, g, b);
    ReplaceConcat(", ", g, g, b);
    ReplaceOneWord(g, g, b);
    GapStays(", ", g, b);
    Unmentioned(index, g, b);
    assert b + (index + (", " + b)) == b + index + ", " + b;
  }

  lemma TwoPasses(s: string, f: Formal, g: Formal, a: string, b: string)
    ensures ReplaceAll(s, [f, g], [a, b]) == ReplaceWord(ReplaceWord(s, f, a), g, b)
  {
    hide ReplaceWord;
    var gs: seq<Formal> := [g];
    var none: seq<Formal> := [];
    assert [f, g][1..] == gs && [a, b][1..] == [b] && gs[1..] == none && [b][1..] == [];
    assert ReplaceAll(ReplaceWord(ReplaceWord(s, f, a), g, b), none, []) == ReplaceWord(ReplaceWord(s, f, a), g, b);
    assert ReplaceAll(ReplaceWord(s, f, a), gs, [b]) == ReplaceWord(ReplaceWord(s, f, a), g, b);
  }

  lemma {:induction false} WordFirst(word: string, rest: string, formals: seq<Formal>, actuals: seq<string>)
    requires |formals| == |actuals| && IsWordText(word) && (|rest| > 0 ==> !IsWord(rest[0]))
    ensures Simultaneous(word + rest, formals, actuals)
         == Lookup(word, formals, actuals) + Simultaneous(rest, formals, actuals)
  {
    hide Lookup;
    WordRun(word, rest);
    assert (word + rest)[..|word|] == word && (word + rest)[|word|..] == rest;
  }

  lemma GapFirst(c: char, rest: string, formals: seq<Formal>, actuals: seq<string>)
    requires |formals| == |actuals| && !IsWord(c)
    ensures Simultaneous([c] + rest, formals, actuals) == [c] + Simultaneous(rest, formals, actuals)
  {
    assert ([c] + rest)[1..] == rest;
  }

  lemma PairAtOnce(name: string, f: Formal, g: Formal, a: string, b: string)
    requires IsWordText(name) && IsWordText(f) && IsWordText(g) && name != f && name != g && f != g
    ensures Simultaneous(PairBody(name, f, g), [f, g], [a, b]) == PairBody(name, a, b)
  {
    hide Simultaneous, IsWordText;
    var fs: seq<Formal> := [f, g];
    var xs := [a, b];
    var tail: seq<Formal> := [g];
    assert fs[1..] == tail && xs[1..] == [b];
    WordFirst(name, " " + (f + ", " + g), fs, xs);
    assert name + (" " + (f + ", " + g)) == PairBody(name, f, g);
    GapFirst(' ', f + ", " + g, fs, xs);
    assert f + ", " + g == f + (", " + g);
    WordFirst(f, ", " + g, fs, xs);
    assert ", " + g == "," + (" " + g);
    GapFirst(',', " " + g, fs, xs);
    GapFirst(' ', g, fs, xs);
    assert g == g + "";
    WordFirst(g, "", fs, xs);
    NothingLeft(fs, xs);
    LookedUp(name, f, g, a, b);
  }

  lemma NothingLeft(formals: seq<Formal>, actuals: seq<string>)
    requires |formals| == |actuals|
    ensures Simultaneous("", formals, actuals) == ""
  {
  }

  lemma LookedUp(name: string, f: Formal, g: Formal, a: string, b: string)
    requires name != f && name != g && f != g
    ensures Lookup(name, [f, g], [a, b]) == name && Lookup(f, [f, g], [a, b]) == a && Lookup(g, [f, g], [a, b]) == b
  {
    var fs: seq<Formal> := [f, g];
    var gs: seq<Formal> := [g];
    var none: seq<Formal> := [];
    assert fs[1..] == gs && [a, b][1..] == [b] && gs[1..] == none && [b][1..] == [];
    forall word: string
      ensures Lookup(word, fs, [a, b]) == if word == f then a else if word == g then b else word
    {
      assert Lookup(word, none, []) == word;
      assert Lookup(word, gs, [b]) == if word == g then b else word;
    }
  }

  /** A bit with one more index behind it names nothing. */
  lemma DoubleIndexFails(operand: string, register: string, i: nat, behind: string, registers: seq<Register>)
    requires IsIdentifier(register) && behind != "" && Trim(operand) == register + ("[" + Decimal(i) + "]" + behind)
    ensures ResolveOperand(operand, registers, true).None?
  {
    hide Trim, Decimal, Find, ReadIndex, IsIdentifier;
    var rest := "[" + Decimal(i) + "]" + behind;
    IdentifierReads(register, rest);
    IndexReads(i, behind);
    BracketStays(rest);
  }

  lemma BracketStays(s: string)
    requires |s| > 0 && s[0] == '['
    ensures TrimStart(s) == s
  {
  }

  /** A gate whose first operand names nothing is refused. */
  lemma FirstOperandFails(
    name: string, first: string, second: string, line: nat, qubits: seq<Register>, clbits: seq<Register>,
    shown: string -> string)
    requires IsIdentifier(name) && IsOperandText(first) && IsOperandText(second) && AreEntries([first, second])
    requires first[0] != '(' && Lower(name) != "reset" && Lower(name) != "barrier"
    requires forall operand: string :: Trim(operand) == first ==> ResolveOperand(operand, qubits, true).None?
    ensures ParseOperation(PairBody(name, first, second), line, qubits, clbits, shown).None?
  {
    hide Trim, Lower, ResolveOperand, AssignedMeasure, ArrowMeasure, CallSignature, LeadingKeyword, IsOperandText,
         IsIdentifier, AreEntries, TopLevel, GateOf;
    var operands := Join([first, second]);
    JoinedPair(first, second);
    var text, rest := PairBody(name, first, second), " " + operands;
    assert text == name + rest && text == name + " " + operands;
    PairIsPlain(first, second);
    PlainCallReads(name, operands);
    NameNoEquals(name);
    SeparatedNoEquals(name, operands);
    NoAssignment(text, 1);
    GateHasNoArrow(name, rest, operands);
    KeywordReads(name, rest);
    SplitJoin([first, second]);
    FirstFails(TopLevel(operands), qubits);
    NoOperands(Signature(name, None, operands), qubits, shown);
  }

  lemma JoinedPair(first: string, second: string)
    ensures Join([first, second]) == first + ", " + second
  {
    assert [first, second][1..] == [second] && Join([second]) == second;
  }

  lemma PairIsPlain(first: string, second: string)
    requires IsOperandText(first) && IsOperandText(second) && first[0] != '('
    ensures var operands := first + ", " + second;
      IsTrimmed(operands) && HasNoDash(operands) && HasNoEquals(operands) && operands[0] != '(' && operands != ""
  {
  }

  lemma {:induction false} FirstFails(operands: seq<string>, qubits: seq<Register>)
    requires |operands| > 0 && ResolveOperand(operands[0], qubits, true).None?
    ensures ResolveAll(operands, qubits).None?
    decreases |operands|
  {
    hide ResolveOperand;
    if |operands| == 1 {
      assert operands[..0] == [];
    } else {
      FirstFails(operands[..|operands| - 1], qubits);
    }
  }

  lemma NoOperands(signature: Signature, qubits: seq<Register>, shown: string -> string)
    requires ResolveAll(TopLevel(signature.operandText), qubits).None?
    ensures GateOf(signature, qubits, shown).None?
  {
    hide TopLevel, ResolveAll, ParametersOf;
  }

  /** A call that exchanges the formals of a gate, a bit each, is refused, though it names two good bits. */
  lemma ExchangedFormalsAreRefused(
    scope: Scope, name: string, f: string, g: string, gate: string, i: nat, j: nat, depth: nat, program: Program)
    requires IsIdentifier(name) && IsIdentifier(f) && IsIdentifier(g) && name != f && name != g && f != g
    requires Lower(name) != "reset" && Lower(name) != "barrier"
    requires name !in scope.definitions && gate in scope.definitions
    requires scope.definitions[gate] == Definition([], [f, g], [PairBody(name, f, g)])
    ensures Expand(scope, Call(gate, [], [g + "[" + Decimal(i) + "]", f + "[" + Decimal(j) + "]"]), depth,
                   program).None?
  {
    hide Decimal, IsIdentifier, Lower, PairBody, ReplaceAll, Instance, ApplyStatement, LeadingIdentifier, Expand;
    var index, other := "[" + Decimal(i) + "]", "[" + Decimal(j) + "]";
    var a, b := g + index, f + other;
    assert g + "[" + Decimal(i) + "]" == a && f + "[" + Decimal(j) + "]" == b;
    var d := scope.definitions[gate];
    var call := Call(gate, [], [a, b]);
    IdentifierIsWord(name); IdentifierIsWord(f); IdentifierIsWord(g);
    BracketedDigits(g, i);
    BracketedDigits(f, j);
    IndexMentionsNothing(g, i);
    hide IsWordText, IsLiteral, Mentions;
    LaterFormalIsCaptured(name, f, g, index, b);
    InstanceOfPair(d, call, f, g, a, b);
    CapturedIsRefused(name, f, i, j, scope.line, program, scope.shown);
    PairLeads(name, b + index, b);
    OneStatement(scope, call, depth, program);
  }

  lemma BracketedDigits(register: string, i: nat)
    requires IsIdentifier(register)
    ensures IsLiteral(register + ("[" + Decimal(i) + "]"))
  {
    var text := register + ("[" + Decimal(i) + "]");
    DecimalReads(i);
    forall k | 0 <= k < |text| ensures text[k] != '$' { DigitsHaveNoDollar(register, Decimal(i), k); }
  }

  lemma DigitsHaveNoDollar(register: string, digits: string, k: nat)
    requires IsIdentifier(register) && AllDigits(digits) && k < |register + ("[" + digits + "]")|
    ensures (register + ("[" + digits + "]"))[k] != '$'
  {
  }

  /** The word inside the brackets is a number, not a name. */
  lemma IndexMentionsNothing(g: string, i: nat)
    requires IsIdentifier(g)
    ensures !Mentions("[" + Decimal(i) + "]", g)
  {
    DecimalReads(i);
    var text := "[" + Decimal(i) + "]";
    forall k | 0 <= k < |text| ensures !Occurs(text, g, k) {
      if k + |g| <= |text| { assert text[k..k + |g|][0] == text[k]; }
      NoLetterHere(Decimal(i), k);
    }
  }

  lemma NoLetterHere(digits: string, k: nat)
    requires AllDigits(digits) && k < |"[" + digits + "]"|
    ensures !IsLetter(("[" + digits + "]")[k])
  {
  }

  lemma InstanceOfPair(d: Definition, call: Call, f: Formal, g: Formal, a: string, b: string)
    requires d.parameters == [] && d.qubits == [f, g] && |d.body| == 1 && call.parameters == [] && call.qubits == [a, b]
    ensures Instantiate(d.body[0], d, call) == ReplaceAll(d.body[0], [f, g], [a, b])
  {
    hide ReplaceAll;
    assert d.parameters + d.qubits == [f, g] && Bracketed([]) + [a, b] == [a, b];
  }

  lemma CapturedIsRefused(name: string, f: string, i: nat, j: nat, line: nat, program: Program, shown: string -> string)
    requires IsIdentifier(name) && IsIdentifier(f) && Lower(name) != "reset" && Lower(name) != "barrier"
    ensures var b := f + ("[" + Decimal(j) + "]");
      ApplyStatement(PairBody(name, b + ("[" + Decimal(i) + "]"), b), line, program, shown) == Refuse(line)
  {
    hide Decimal, IsIdentifier, Lower, ParseOperation, PairBody, ResolveOperand, Trim;
    var b := f + ("[" + Decimal(j) + "]");
    var first := b + ("[" + Decimal(i) + "]");
    var behind := "[" + Decimal(i) + "]";
    assert first == f + ("[" + Decimal(j) + "]" + behind);
    forall operand: string | Trim(operand) == first ensures ResolveOperand(operand, program.qubits, true).None? {
      DoubleIndexFails(operand, f, j, behind, program.qubits);
    }
    OperandsArePlain(f, i, j);
    OperandsAreEntries(f, i, j);
    FirstOperandFails(name, first, b, line, program.qubits, program.clbits, shown);
  }

  lemma OperandsArePlain(f: string, i: nat, j: nat)
    requires IsIdentifier(f)
    ensures var b := f + ("[" + Decimal(j) + "]");
      IsOperandText(b) && IsOperandText(b + ("[" + Decimal(i) + "]")) && (b + ("[" + Decimal(i) + "]"))[0] != '('
  {
    DecimalReads(i);
    DecimalReads(j);
    PlainIndexed(f, Decimal(j));
    PlainMore(f + ("[" + Decimal(j) + "]"), Decimal(i));
  }

  lemma PlainIndexed(f: string, digits: string)
    requires IsIdentifier(f) && AllDigits(digits)
    ensures IsOperandText(f + ("[" + digits + "]"))
  {
  }

  lemma PlainMore(b: string, digits: string)
    requires IsOperandText(b) && AllDigits(digits)
    ensures IsOperandText(b + ("[" + digits + "]"))
  {
  }

  lemma OperandsAreEntries(f: string, i: nat, j: nat)
    requires IsIdentifier(f)
    ensures var b := f + ("[" + Decimal(j) + "]"); AreEntries([b + ("[" + Decimal(i) + "]"), b])
  {
    hide Decimal, IsIdentifier, IsEntry, IsTrimmed;
    DecimalReads(i);
    DecimalReads(j);
    var b, more := f + ("[" + Decimal(j) + "]"), "[" + Decimal(i) + "]";
    OperandsArePlain(f, i, j);
    OperandTextIsPlain(b);
    OperandTextIsPlain(b + more);
    IndexIsEntry(Decimal(i), "");
    assert more + "" == more;
    IndexIsEntry(Decimal(j), more);
    IndexIsEntry(Decimal(j), "");
    assert "[" + Decimal(j) + "]" + "" == "[" + Decimal(j) + "]";
    NameBehind(f, "[" + Decimal(j) + "]" + more);
    assert f + ("[" + Decimal(j) + "]" + more) == b + more;
    NameBehind(f, "[" + Decimal(j) + "]");
  }

  lemma {:induction false} WordsKeepDepth(word: string, rest: string, depth: int)
    requires forall i :: 0 <= i < |word| ==> IsWord(word[i])
    ensures IsEntry(word + rest, depth) <==> IsEntry(rest, depth)
    decreases |word|
  {
    if |word| == 0 {
      assert word + rest == rest;
    } else {
      assert (word + rest)[1..] == word[1..] + rest;
      WordsKeepDepth(word[1..], rest, depth);
    }
  }

  lemma NameBehind(name: string, rest: string)
    requires IsIdentifier(name) && IsEntry(rest, 0)
    ensures IsEntry(name + rest, 0)
  {
    WordsKeepDepth(name, rest, 0);
  }

  lemma IndexIsEntry(digits: string, rest: string)
    requires AllDigits(digits) && IsEntry(rest, 0)
    ensures IsEntry("[" + digits + "]" + rest, 0)
  {
    var tail := "]" + rest;
    assert "[" + digits + "]" + rest == "[" + (digits + tail);
    assert ("[" + (digits + tail))[1..] == digits + tail && tail[1..] == rest;
    WordsKeepDepth(digits, tail, 1);
  }

  lemma PairLeads(name: string, first: string, second: string)
    requires IsIdentifier(name)
    ensures LeadingIdentifier(PairBody(name, first, second)) == name
  {
    hide IsIdentifier, LeadingIdentifier;
    assert PairBody(name, first, second) == name + (" " + (first + ", " + second));
    KeywordReads(name, " " + (first + ", " + second));
  }

  /** A body of one statement. */
  lemma OneStatement(scope: Scope, call: Call, depth: nat, program: Program)
    requires call.name in scope.definitions && Matches(scope.definitions[call.name], call)
    requires |scope.definitions[call.name].body| == 1
    ensures var d := scope.definitions[call.name];
      var text := Instantiate(d.body[0], d, call);
      LeadingIdentifier(text) !in scope.definitions ==>
        && (depth > MAX_DEPTH || Applied(scope, text, program).None? ==> Expand(scope, call, depth, program).None?)
        && (depth <= MAX_DEPTH && Applied(scope, text, program).Some? ==>
              Expand(scope, call, depth, program).Some?
              && Expand(scope, call, depth, program).value.program == Applied(scope, text, program).value.program)
  {
    hide Instantiate, LeadingIdentifier, Applied, CallOf;
    if depth <= MAX_DEPTH {
      var d := scope.definitions[call.name];
      assert ExpandBody(scope, d, call, 0, depth, program) == Some(Expansion(program, []));
      var last := ExpandStatement(scope, Instantiate(d.body[0], d, call), depth, program);
      assert ExpandBody(scope, d, call, 1, depth, program)
          == if last.None? then None else Some(Expansion(last.value.program, [] + last.value.spans));
    }
  }

  // ---------------------------------------------------------------- a parameter that mentions a qubit formal

  /** `name(p) q`: the parameter's text is searched for qubit formals too. */
  lemma ParameterIsCaptured(name: string, p: Formal, q: Formal, r: string)
    requires IsWordText(name) && IsWordText(p) && IsWordText(q) && name != p && name != q && p != q
    requires IsLiteral(q) && IsLiteral(r)
    ensures Instance(name + "(" + (p + ") " + q), Definition([p], [q], []), [q], [r])
         == name + "((" + r + ")) " + r
  {
    hide ReplaceWord, IsWordText, IsLiteral;
    var a := "(" + q + ")";
    BracketIsLiteral(q);
    ReplaceTriple(name, "(", p + ") " + q, p, a);
    ReplaceTriple(p, ") ", q, p, a);
    ReplaceOneWord(q, p, a);
    var once := name + "(" + (a + ") " + q);
    assert ReplaceWord(name + "(" + (p + ") " + q), p, a) == once;
    assert once == name + "((" + (q + ")) " + q);
    ReplaceTriple(name, "((", q + ")) " + q, q, r);
    ReplaceTriple(q, ")) ", q, q, r);
    ReplaceOneWord(q, q, r);
    assert name + "((" + (r + ")) " + r) == name + "((" + r + ")) " + r;
    TwoPasses(name + "(" + (p + ") " + q), p, q, a, r);
    var d := Definition([p], [q], []);
    assert d.parameters + d.qubits == [p, q];
    assert Bracketed([q]) + [r] == [a, r];
  }

  lemma BracketIsLiteral(s: string)
    requires IsLiteral(s) && IsWordText(s)
    ensures IsLiteral("(" + s + ")")
  {
  }

  // ---------------------------------------------------------------- a circle through a formal

  /** `gate a b { b b; }` beside a gate named `b` whose body calls `a`. */
  predicate IsFormalCircle(defs: map<string, Definition>, a: string, b: string, q: string) {
    && IsIdentifier(a) && IsIdentifier(b) && IsIdentifier(q) && a != b && a != q
    && a in defs && defs[a] == Definition([], [b], [b + " " + b])
    && b in defs && defs[b] == Definition([], [q], [a + " " + q])
  }

  /** By the names in their bodies the two call each other. */
  lemma FormalCircleCalls(defs: map<string, Definition>, a: string, b: string, q: string)
    requires IsFormalCircle(defs, a, b, q)
    ensures LeadingIdentifier(defs[a].body[0]) == b && LeadingIdentifier(defs[b].body[0]) == a
    ensures !KeepsItsName(defs[a], defs[a].body[0])
  {
    hide IsIdentifier, LeadingIdentifier;
    KeywordReads(b, " " + b);
    KeywordReads(a, " " + q);
    assert b + (" " + b) == b + " " + b && a + (" " + q) == a + " " + q;
    KeywordReads(b, "");
    assert b + "" == b;
    assert defs[a].qubits[0] == b;
  }

  /**
   * Yet a call of the first with a register of one qubit, named like no definition, is accepted: the formal that stands
   * for the gate is replaced as well, and the statement becomes a gate named like the register.
   */
  lemma FormalCircleIsAccepted(scope: Scope, a: string, b: string, q: string, u: string, depth: nat, program: Program)
    requires IsFormalCircle(scope.definitions, a, b, q) && depth <= MAX_DEPTH
    requires IsIdentifier(u) && IsGateName(u) && u !in scope.definitions
    requires Find(program.qubits, u) == Some(Register(u, 1)) && program.pending.None?
    ensures var e := Expand(scope, Call(a, [], [u]), depth, program);
      e.Some? && e.value.program.operations == program.operations + [Plain(Gate(u, [], [Bit(u, 0)]))]
  {
    hide IsIdentifier, IsGateName, LeadingIdentifier, ReplaceAll, Expand, ParseOperation;
    var d, call := scope.definitions[a], Call(a, [], [u]);
    var text := u + " " + u;
    FormalReplaced(d, call, b, u);
    KeywordReads(u, " " + u);
    assert u + (" " + u) == text;
    BroadcastReads(u, Register(u, 1), scope.line, program.qubits, program.clbits, scope.shown);
    var reading := ParseOperation(text, scope.line, program.qubits, program.clbits, scope.shown).value;
    var gate := Gate(u, [], [Bit(u, 0)]);
    assert reading.operations == [gate];
    EmitOne(program.(qubits := reading.qubits, loss := program.loss + reading.loss), gate);
    OneStatement(scope, call, depth, program);
  }

  lemma FormalReplaced(d: Definition, call: Call, b: string, u: string)
    requires IsIdentifier(b) && IsIdentifier(u)
    requires d == Definition([], [b], [b + " " + b]) && call.parameters == [] && call.qubits == [u]
    ensures Instantiate(d.body[0], d, call) == u + " " + u
  {
    hide ReplaceWord, IsIdentifier;
    IdentifierIsWord(b);
    IdentifierIsWord(u);
    hide IsWordText, IsLiteral;
    var bs: seq<Formal> := [b];
    var none: seq<Formal> := [];
    assert d.parameters + d.qubits == bs && Bracketed([]) + [u] == [u];
    ReplaceTriple(b, " ", b, b, u);
    ReplaceOneWord(b, b, u);
    assert bs[1..] == none && [u][1..] == [];
    assert ReplaceAll(u + " " + u, none, []) == u + " " + u;
  }
}
