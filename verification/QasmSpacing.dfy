/**
 * White space, comments and delimiters: what a text may have between its parts and still be read the same
 * (src/circuit/qasm3.ts:125-220, 376-484, 528-541, 626-667).
 */
module QasmSpacing {
  import opened Options
  import opened QasmText
  import opened QasmReader
  import opened QasmWriter
  import opened QasmLexing
  import opened QasmOperations
  import opened QasmRoundTrip
  import opened QasmForms

  // ---------------------------------------------------------------- comments

  /** Stripping block comments moves no character to another line and writes nothing but spaces. */
  lemma {:induction false} StrippingKeepsLines(s: string, i: nat)
    requires i < |s|
    ensures (Outside(s)[i] == '\n' <==> s[i] == '\n') && (Outside(s)[i] == s[i] || Outside(s)[i] == ' ')
    ensures (Inside(s)[i] == '\n' <==> s[i] == '\n') && (Inside(s)[i] == s[i] || Inside(s)[i] == ' ')
    decreases |s|
  {
    if i >= 2 { StrippingKeepsLines(s[2..], i - 2); }
    if i >= 1 { StrippingKeepsLines(s[1..], i - 1); }
    if PairAt(s, '/', '*', 0) { assert Outside(s) == "  " + Inside(s[2..]); }
    if PairAt(s, '*', '/', 0) { assert Inside(s) == "  " + Outside(s[2..]); }
  }

  /**
   * A block comment behind code becomes spaces of the same length, line ends kept; what follows is stripped on its own.
   */
  lemma CommentIsBlanked(code: string, comment: string, more: string)
    requires forall i: nat :: i < |code| ==> !PairAt(code + "/*" + comment + "*/" + more, '/', '*', i)
    requires forall i: nat :: i < |comment| ==> !PairAt(comment + "*/" + more, '*', '/', i)
    ensures Outside(code + "/*" + comment + "*/" + more) == code + "  " + BlankAll(comment) + "  " + Outside(more)
  {
    var inner := comment + "*/" + more;
    var all := code + ("/*" + inner);
    assert all == code + "/*" + comment + "*/" + more;
    hide PairAt, Outside, Inside, BlankAll;
    SkipsTo(code, "/*" + inner);
    InsideComment(comment, more);
    OpensComment(inner);
    assert code + ("  " + (BlankAll(comment) + ("  " + Outside(more))))
      == code + "  " + BlankAll(comment) + "  " + Outside(more);
  }

  lemma SkipsTo(code: string, rest: string)
    requires forall i: nat :: i < |code| ==> !PairAt(code + rest, '/', '*', i)
    ensures Outside(code + rest) == code + Outside(rest)
  {
    hide PairAt, Outside;
    OutsideSkips(code + rest, |code|);
    assert (code + rest)[..|code|] == code && (code + rest)[|code|..] == rest;
  }

  lemma OpensComment(inner: string)
    ensures Outside("/*" + inner) == "  " + Inside(inner)
  {
    Opening("/*" + inner);
    assert ("/*" + inner)[2..] == inner;
    hide Outside;
  }

  lemma InsideComment(comment: string, more: string)
    requires forall i: nat :: i < |comment| ==> !PairAt(comment + "*/" + more, '*', '/', i)
    ensures Inside(comment + "*/" + more) == BlankAll(comment) + ("  " + Outside(more))
  {
    var close := "*/" + more;
    var all := comment + close;
    assert all == comment + "*/" + more && PairAt(close, '*', '/', 0) && close[2..] == more;
    hide PairAt, Inside, BlankAll;
    InsideSkips(all, |comment|);
    assert all[..|comment|] == comment && all[|comment|..] == close;
    Closing(close);
  }

  // ---------------------------------------------------------------- delimiters

  /** No delimiter in it. */
  predicate HasNoDelimiter(s: string) {
    forall i :: 0 <= i < |s| ==> s[i] != ';' && s[i] != '{' && s[i] != '}'
  }

  lemma {:induction false} ScanOpen(scan: Scan, s: string, line: nat)
    requires HasNoDelimiter(s)
    ensures var next := ScanLine(scan, s, line);
      && next.statements == scan.statements && next.buffer == scan.buffer + s
      && next.startLine == if IsBlank(scan.buffer) && !IsBlank(s) then line else scan.startLine
    decreases |s|
  {
    hide IsSpace;
    if |s| > 0 {
      var front, c := s[..|s| - 1], s[|s| - 1];
      ScanOpen(scan, front, line);
      assert s == front + [c];
      assert scan.buffer + front + [c] == scan.buffer + s;
      BlankAppend(front, c);
      BlankJoin(scan.buffer, front);
    } else {
      assert scan.buffer + s == scan.buffer;
    }
  }

  lemma BlankJoin(a: string, b: string)
    ensures IsBlank(a + b) <==> IsBlank(a) && IsBlank(b)
  {
    hide IsSpace;
    if IsBlank(a + b) {
      forall i | 0 <= i < |a| ensures IsSpace(a[i]) { assert (a + b)[i] == a[i]; }
      forall i | 0 <= i < |b| ensures IsSpace(b[i]) { assert (a + b)[|a| + i] == b[i]; }
    }
  }

  lemma {:induction false} ScanJoin(scan: Scan, a: string, b: string, line: nat)
    ensures ScanLine(scan, a + b, line) == ScanLine(ScanLine(scan, a, line), b, line)
    decreases |b|
  {
    hide ScanCharacter;
    if |b| > 0 {
      ScanJoin(scan, a, b[..|b| - 1], line);
      assert (a + b)[..|a + b| - 1] == a + b[..|b| - 1];
    } else {
      assert a + b == a;
    }
  }

  /**
   * Up to the next delimiter a line is one statement, unless it is blank; a semicolon ends it, a brace ends it and
   * stands as a statement of its own, and what follows begins afresh.
   */
  lemma SplitsAtDelimiter(
    statements: seq<Statement>, start: nat, piece: string, delimiter: char, rest: string, line: nat)
    requires HasNoDelimiter(piece) && delimiter in {';', '{', '}'}
    ensures ScanLine(Scan(statements, "", start), piece + [delimiter] + rest, line)
         == ScanLine(Scan(statements + (if Trim(piece) == "" then [] else [Statement(Trim(piece), line)])
                            + (if delimiter == ';' then [] else [Statement([delimiter], line)]), "", line), rest, line)
  {
    hide Trim, IsSpace, ScanLine, ScanCharacter, HasNoDelimiter;
    var scan := Scan(statements, "", start);
    ScanJoin(scan, piece + [delimiter], rest, line);
    ScanJoin(scan, piece, [delimiter], line);
    ScanOpen(scan, piece, line);
    assert "" + piece == piece;
    TrimSplits(piece);
    EmptyIsBlank();
    var begun := ScanLine(scan, piece, line);
    ScanOne(begun, delimiter, line);
    PieceEnds(statements, piece, begun.startLine, delimiter, line);
    assert begun == Scan(statements, piece, begun.startLine);
  }

  lemma ScanOne(scan: Scan, c: char, line: nat)
    ensures ScanLine(scan, [c], line) == ScanCharacter(scan, c, line)
  {
    hide ScanCharacter;
    assert [c][..0] == "" && ScanLine(scan, "", line) == scan;
  }

  lemma PieceEnds(statements: seq<Statement>, piece: string, start: nat, delimiter: char, line: nat)
    requires delimiter in {';', '{', '}'} && (Trim(piece) != "" ==> start == line)
    ensures ScanCharacter(Scan(statements, piece, start), delimiter, line)
         == Scan(statements + (if Trim(piece) == "" then [] else [Statement(Trim(piece), line)])
                   + (if delimiter == ';' then [] else [Statement([delimiter], line)]), "", line)
  {
    hide Trim;
    var pushed := statements + (if Trim(piece) == "" then [] else [Statement(Trim(piece), line)]);
    assert pushed + [] == pushed && statements + [] == statements;
  }

  // ---------------------------------------------------------------- white space between the parts

  lemma BlankSkipped(blank: string, s: string)
    requires IsBlank(blank) && |s| > 0 && !IsSpace(s[0])
    ensures TrimStart(blank + s) == s
  {
    TrimStartSkips(blank, s);
  }

  lemma NotSpace()
    ensures forall c :: c in {'[', ']', '(', ')', '='} ==> !IsSpace(c)
    ensures forall c :: IsDigit(c) || IsLetter(c) ==> !IsSpace(c)
  {
  }

  /** `[ n ]`. */
  lemma IndexSpaced(a: string, n: nat, b: string, rest: string)
    requires IsBlank(a) && IsBlank(b)
    ensures ReadIndex("[" + (a + (Decimal(n) + (b + ("]" + rest))))) == Some((n, rest))
  {
    hide Decimal, ReadNumber, IsSpace;
    NotSpace();
    var close := "]" + rest;
    var number := Decimal(n) + (b + close);
    ExpectReads("[", a + number);
    DecimalReads(n);
    BlankSkipped(a, number);
    BlankBegins(b, close);
    NumberReads(n, b + close);
    BlankSkipped(b, close);
    ExpectReads("]", rest);
  }

  lemma BlankBegins(b: string, s: string)
    requires IsBlank(b) && |s| > 0 && !IsDigit(s[0]) && !IsWord(s[0])
    ensures var t := b + s; |t| > 0 && !IsDigit(t[0]) && !IsWord(t[0])
  {
    NotSpace();
    hide IsSpace;
    if |b| > 0 { assert (b + s)[0] == b[0]; } else { assert b + s == s; }
  }

  /** A bit resolves the same with white space around its name and its index. */
  lemma BitSpaced(
    before: string, x: string, a: string, b: string, after: string, bit: Bit, registers: seq<Register>, ofQubits: bool)
    requires IsBlank(before) && IsBlank(x) && IsBlank(a) && IsBlank(b) && IsBlank(after)
    requires IsIdentifier(bit.register) && Find(registers, bit.register).Some?
    requires bit.index < Find(registers, bit.register).value.size
    ensures ResolveOperand(
              before + (bit.register + (x + ("[" + (a + (Decimal(bit.index) + (b + "]")))))) + after, registers,
                ofQubits)
         == Some(([bit], registers))
  {
    hide Decimal, Find, ReadNumber, ReadIndex, IsSpace, IsIdentifier;
    NotSpace();
    var index := "[" + (a + (Decimal(bit.index) + (b + ("]" + ""))));
    assert "]" + "" == "]";
    var rest := x + index;
    var text := bit.register + rest;
    NameIsPlain(bit.register);
    BlankBegins(x, index);
    IdentifierReads(bit.register, rest);
    EndsClosed(bit.register + (x + ("[" + (a + (Decimal(bit.index) + b)))), text);
    TrimBoth(before, text, after);
    BlankSkipped(x, index);
    IndexSpaced(a, bit.index, b, "");
  }

  lemma EndsClosed(front: string, text: string)
    requires text == front + "]" && |front| > 0
    ensures !IsSpace(text[|text| - 1]) && text[0] == front[0]
  {
  }

  lemma TrimBoth(before: string, text: string, after: string)
    requires IsBlank(before) && IsBlank(after) && IsTrimmed(text)
    ensures Trim(before + text + after) == text
  {
    hide IsSpace;
    assert before + text + after == before + (text + after);
    TrimStartSkips(before, text + after);
    assert (text + after)[0] == text[0];
    assert TrimStart(text + after) == text + after;
    TrimEndSkips(text, after);
  }

  lemma {:induction false} TrimEndSkips(text: string, after: string)
    requires IsBlank(after) && IsTrimmed(text)
    ensures TrimEnd(text + after) == text
    decreases |after|
  {
    hide IsSpace;
    if |after| > 0 {
      var all := text + after;
      assert all[|all| - 1] == after[|after| - 1] && all[..|all| - 1] == text + after[..|after| - 1];
      TrimEndSkips(text, after[..|after| - 1]);
    } else {
      assert text + after == text;
    }
  }

  lemma Condition0(b0: string, b1: string, register: string, rest: string)
    requires IsBlank(b0) && IsBlank(b1) && IsIdentifier(register) && |rest| > 0 && !IsWord(rest[0])
    ensures var text := "if" + (b0 + ("(" + (b1 + (register + rest))));
      && |text| > 2 && Lower(text[..2]) == "if" && Expect(text, "if") == Some(text[2..])
      && Expect(TrimStart(text[2..]), "(") == Some(b1 + (register + rest))
      && TrimStart(b1 + (register + rest)) == register + rest
      && ReadIdentifier(register + rest) == Some((register, rest))
  {
    hide ReadIdentifier, IsIdentifier, IsSpace;
    NotSpace();
    var inner := b1 + (register + rest);
    var text := "if" + (b0 + ("(" + inner));
    assert text[..2] == "if" && text[2..] == b0 + ("(" + inner);
    LowerStays("if");
    ExpectReads("if", b0 + ("(" + inner));
    BlankSkipped(b0, "(" + inner);
    ExpectReads("(", inner);
    NameIsPlain(register);
    BlankSkipped(b1, register + rest);
    IdentifierReads(register, rest);
  }

  /** The comparison, its number, the closing parenthesis, and what is guarded. */
  lemma ComparisonSpaced(b3: string, b4: string, n: nat, b5: string, b6: string, body: string)
    requires IsBlank(b3) && IsBlank(b4) && IsBlank(b5) && IsBlank(b6) && IsTrimmed(body)
    ensures var rest := b3 + ("==" + (b4 + (Decimal(n) + (b5 + (")" + (b6 + body))))));
      && Expect(TrimStart(rest), "==").Some?
      && var number := TrimStart(Expect(TrimStart(rest), "==").value);
      && ReadNumber(number).Some? && ReadNumber(number).value.0 == n
      && var close := Expect(TrimStart(ReadNumber(number).value.1), ")");
      && close.Some? && TrimStart(close.value) == body
  {
    hide Decimal, ReadNumber, IsSpace;
    NotSpace();
    var close := ")" + (b6 + body);
    var number := Decimal(n) + (b5 + close);
    BlankSkipped(b3, "==" + (b4 + number));
    ExpectReads("==", b4 + number);
    DecimalReads(n);
    BlankSkipped(b4, number);
    BlankBegins(b5, close);
    NumberReads(n, b5 + close);
    BlankSkipped(b5, close);
    ExpectReads(")", b6 + body);
    BlankSkipped(b6, body);
  }

  /** `if ( c [ i ] == n ) body` with any white space. */
  lemma BitConditionSpaced(
    b0: string, b1: string, register: string, b2: string, a: string, bit: nat, b: string,
    b3: string, b4: string, n: nat, b5: string, b6: string, body: string)
    requires IsIdentifier(register) && IsTrimmed(body)
    requires IsBlank(b0) && IsBlank(b1) && IsBlank(b2) && IsBlank(a) && IsBlank(b)
    requires IsBlank(b3) && IsBlank(b4) && IsBlank(b5) && IsBlank(b6)
    ensures var compared := b3 + ("==" + (b4 + (Decimal(n) + (b5 + (")" + (b6 + body))))));
      ParseCondition("if"
        + (b0 + ("(" + (b1 + (register + (b2 + ("[" + (a + (Decimal(bit) + (b + ("]" + compared)))))))))))
      == Some((Condition(register, Some(bit), n), body))
  {
    var compared := b3 + ("==" + (b4 + (Decimal(n) + (b5 + (")" + (b6 + body))))));
    var index := "[" + (a + (Decimal(bit) + (b + ("]" + compared))));
    hide Decimal, ReadNumber, IsSpace, ReadIdentifier, Lower, ReadIndex, TrimStart, IsIdentifier;
    NotSpace();
    BlankBegins(b2, index);
    Condition0(b0, b1, register, b2 + index);
    BlankSkipped(b2, index);
    IndexSpaced(a, bit, b, compared);
    ComparisonSpaced(b3, b4, n, b5, b6, body);
  }

  /** `if ( c == n ) body` with any white space. */
  lemma WholeConditionSpaced(
    b0: string, b1: string, register: string, b3: string, b4: string, n: nat, b5: string, b6: string, body: string)
    requires IsIdentifier(register) && IsTrimmed(body)
    requires IsBlank(b0) && IsBlank(b1) && IsBlank(b3) && IsBlank(b4) && IsBlank(b5) && IsBlank(b6)
    ensures var compared := b3 + ("==" + (b4 + (Decimal(n) + (b5 + (")" + (b6 + body))))));
      ParseCondition("if" + (b0 + ("(" + (b1 + (register + compared)))))
      == Some((Condition(register, None, n), body))
  {
    var behind := "==" + (b4 + (Decimal(n) + (b5 + (")" + (b6 + body)))));
    var compared := b3 + behind;
    hide Decimal, ReadNumber, IsSpace, ReadIdentifier, Lower, TrimStart, IsIdentifier;
    NotSpace();
    BlankBegins(b3, behind);
    Condition0(b0, b1, register, compared);
    ComparisonSpaced(b3, b4, n, b5, b6, body);
    NoIndex(compared);
  }

  /** `qubit [ n ] q` with any white space. */
  lemma DeclarationSpaced(ofQubits: bool, b0: string, a: string, n: nat, b: string, gap: string, name: string)
    requires IsIdentifier(name) && IsBlank(b0) && IsBlank(a) && IsBlank(b) && IsBlank(gap) && |gap| > 0
    ensures ParseDeclaration(
              (if ofQubits then "qubit" else "bit") + (b0 + ("[" + (a + (Decimal(n) + (b + ("]" + (gap + name))))))))
         == Some(Declaration(ofQubits, Register(name, n), false))
  {
    hide Decimal, IsSpace, ReadIndex, IsIdentifier;
    NotSpace();
    var kind := if ofQubits then "qubit" else "bit";
    var index := "[" + (a + (Decimal(n) + (b + ("]" + (gap + name)))));
    var text := kind + (b0 + index);
    ExpectReads(kind, b0 + index);
    if !ofQubits { assert text[0] == 'b'; }
    BlankSkipped(b0, index);
    IndexSpaced(a, n, b, gap + name);
    NameIsPlain(name);
    BlankSkipped(gap, name);
    assert (gap + name)[0] == gap[0];
    WholeNameRead(name);
  }

  lemma WholeNameRead(name: string)
    requires IsIdentifier(name)
    ensures IdentifierLength(name) == |name|
  {
    assert name + "" == name;
    WordRun(name, "");
  }

  /** `measure` behind an equals sign, with any white space. */
  lemma MeasuredSpaced(b1: string, gap: string, operand: string)
    requires IsBlank(b1) && IsBlank(gap) && |gap| > 0 && IsTrimmed(operand)
    ensures MeasuredOperand(b1 + ("measure" + (gap + operand))) == Some(operand)
  {
    hide IsSpace;
    NotSpace();
    var rest := gap + operand;
    assert ("measure" + rest)[0] == 'm' && IsLetter('m');
    BlankSkipped(b1, "measure" + rest);
    ExpectReads("measure", rest);
    assert rest[0] == gap[0];
    BlankSkipped(gap, operand);
  }

  /** `c[i] = measure q[j]` with any white space around the sign and behind the word. */
  lemma MeasureSpaced(
    qubit: Bit, clbit: Bit, b0: string, b1: string, gap: string, line: nat, qubits: seq<Register>,
    clbits: seq<Register>, shown: string -> string)
    requires IsQubit(qubit, qubits) && IsBit(clbit, clbits)
    requires IsBlank(b0) && IsBlank(b1) && IsBlank(gap) && |gap| > 0
    ensures ParseOperation(FormatBit(clbit) + b0 + "=" + (b1 + ("measure" + (gap + FormatBit(qubit)))), line, qubits,
                           clbits, shown)
         == Some(Reading([Measure(qubit, clbit)], Touch(qubits, qubit), []))
  {
    hide FormatBit, Trim, MeasuredOperand, ResolveOperand, Find, Touch, IsEntry, IsOperandText, HasNoEquals,
         IsClean, IsIdentifier, IsSpace;
    var left, right := FormatBit(clbit), FormatBit(qubit);
    NotPhysical(clbit);
    BitText(clbit);
    BitText(qubit);
    OperandTextIsPlain(left);
    OperandTextIsPlain(right);
    var lhs, behind := left + b0, b1 + ("measure" + (gap + right));
    var text := lhs + "=" + behind;
    MeasuredSpaced(b1, gap, right);
    assert text[|lhs|] == '=' && text[|lhs| + 1..] == behind && text[..|lhs|] == lhs;
    BlankNoEquals(b0);
    PrefixNoEquals(left, b0);
    forall i | 1 <= i < |lhs| ensures text[i] != '=' { assert text[i] == lhs[i]; NoEqualsAt(lhs, i); }
    FirstAssignment(text, 1, |lhs|, right);
    TrimBoth("", left, b0);
    TrimTail(right);
    assert "" + left + b0 == lhs;
    EmptyIsBlank();
    BitResolves(lhs, clbit, clbits);
    BitResolves(right, qubit, qubits);
  }

  lemma BlankNoEquals(b: string)
    requires IsBlank(b)
    ensures HasNoEquals(b)
  {
    NotSpace();
  }

  lemma NoEqualsAt(s: string, i: nat)
    requires HasNoEquals(s) && i < |s|
    ensures s[i] != '='
  {
  }

  /** The words `reset` and `barrier` may be in any case. */
  lemma ResetAnyCase(
    keyword: string, qubit: Bit, line: nat, qubits: seq<Register>, clbits: seq<Register>, shown: string -> string)
    requires IsQubit(qubit, qubits) && IsCasingOf(keyword, "reset")
    ensures ParseOperation(keyword + (" " + FormatBit(qubit)), line, qubits, clbits, shown)
         == Some(Reading([Reset(qubit)], Touch(qubits, qubit), []))
  {
    ResetWord(keyword, "reset");
    hide FormatBit, Trim, AssignedMeasure, ArrowMeasure, ResolveOperand, LeadingKeyword, Find, Touch, IsEntry,
         IsOperandText, IsClean, IsIdentifier, HasNoEquals, Lower, IsCasingOf;
    var operand := FormatBit(qubit);
    BitText(qubit);
    OperandTextIsPlain(operand);
    var rest := " " + operand;
    var text := keyword + rest;
    assert text[5..] == rest;
    KeywordReads(keyword, rest);
    NameNoEquals(keyword);
    SeparatedNoEquals(keyword, operand);
    assert text == keyword + " " + operand;
    NoAssignment(text, 1);
    NoArrow(keyword, rest);
    SpaceIsBlank();
    TrimPadded(" ", operand);
    BitResolves(rest, qubit, qubits);
  }

  lemma ResetWord(keyword: string, word: string)
    requires word == "reset" && IsCasingOf(keyword, word)
    ensures IsIdentifier(keyword) && |keyword| == 5 && Lower(keyword) == word && keyword != "measure"
  {
    assert IsLowerCase(word);
    CasingLowers(keyword, word);
    hide Lower;
  }
}
