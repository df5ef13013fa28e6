/**
 * The statements that add no operation: versions, libraries, blocks, unsupported keywords, declarations of one bit, and
 * gate definitions (src/circuit/qasm3.ts:48-72, 432-447, 699-845, 976-990).
 */
module QasmDirectives {
  import opened Options
  import opened QasmText
  import opened QasmReader
  import opened QasmWriter
  import opened QasmLexing
  import opened QasmOperations
  import opened QasmRoundTrip
  import opened QasmForms
  import opened TextSubstitution
  import opened MacroExpansion
  import opened QasmGates

  // ---------------------------------------------------------------- characters

  /** White space is what the host's `\s` matches. */
  lemma WhiteSpaceExactlyWhen(c: char)
    ensures IsSpace(c)
       <==> || c in {' ', '\t', '\n', '\r', '\U{B}', '\U{C}', '\U{A0}', '\U{1680}', '\U{FEFF}'}
            || '\U{2000}' <= c <= '\U{200A}'
            || c in {'\U{2028}', '\U{2029}', '\U{202F}', '\U{205F}', '\U{3000}'}
    ensures IsLineEnd(c) <==> c in {'\n', '\r', '\U{2028}', '\U{2029}'}
  {
  }

  // ---------------------------------------------------------------- versions and libraries

  /** `OPENQASM`, in any case, and a version: 3 is noted, 2 is noted with a loss, anything else is refused. */
  lemma VersionExactly(keyword: string, number: string, line: nat, program: Program, shown: string -> string)
    requires IsCasingOf(keyword, "openqasm") && |number| > 0
    requires forall i :: 0 <= i < |number| ==> '0' <= number[i] <= '9' || number[i] == '.'
    ensures ReadStatement(Statement(keyword + " " + number, line), program, shown)
         == if number[0] == '3' then Continue(program.(sawVersion := true))
            else if number[0] == '2' then
              Continue(program.(loss := program.loss + [Loss("openqasm2_source", Some(line))], sawVersion := true))
            else Refuse(line)
  {
    var text := keyword + " " + number;
    KeywordIsWord(keyword, "openqasm");
    VersionTextIsPlain(keyword, number);
    hide Collapse, Trim, Lower, LeadingKeyword, IsPlainText, IsIdentifier, VersionOf, IsCasingOf, ReadStatement,
         ReadVersion;
    PlainStays(text);
    assert text == keyword + (" " + number);
    KeywordReads(keyword, " " + number);
    VersionBehind(keyword, number);
    ReadsVersion(text, line, program, shown);
    VersionDecides(text, number, line, program);
  }

  lemma VersionDecides(text: string, number: string, line: nat, program: Program)
    requires VersionOf(text) == Some(number) && |number| > 0
    ensures ReadVersion(text, line, program)
         == if number[0] == '3' then Continue(program.(sawVersion := true))
            else if number[0] == '2' then
              Continue(program.(loss := program.loss + [Loss("openqasm2_source", Some(line))], sawVersion := true))
            else Refuse(line)
  {
    hide VersionOf;
  }

  lemma ReadsVersion(text: string, line: nat, program: Program, shown: string -> string)
    requires Trim(Collapse(text)) == text && text != "" && text != "{" && text != "}"
    requires LeadingKeyword(text) == "openqasm"
    ensures ReadStatement(Statement(text, line), program, shown) == ReadVersion(text, line, program)
  {
    hide Collapse, Trim, LeadingKeyword, ReadVersion;
  }

  lemma KeywordIsWord(keyword: string, word: string)
    requires word == "openqasm" && IsCasingOf(keyword, word)
    ensures IsIdentifier(keyword) && |keyword| == 8 && Lower(keyword) == word
  {
    IsInLowerCase(word);
    CasingLowers(keyword, word);
    hide Lower, IsCasingOf;
    assert |keyword| == 8 by { SameLength(keyword, word); }
  }

  lemma IsInLowerCase(word: string)
    requires word == "openqasm"
    ensures IsLowerCase(word)
  {
  }

  lemma SameLength(s: string, word: string)
    requires IsCasingOf(s, word)
    ensures |s| == |word|
  {
  }

  lemma VersionTextIsPlain(keyword: string, number: string)
    requires IsIdentifier(keyword) && |number| > 0
    requires forall i :: 0 <= i < |number| ==> '0' <= number[i] <= '9' || number[i] == '.'
    ensures IsPlainText(keyword + " " + number)
  {
    assert IsPlainText(number);
    NameIsPlain(keyword);
    hide IsPlainText;
    ConcatIsPlain(keyword, number);
  }

  lemma VersionBehind(keyword: string, number: string)
    requires |keyword| == 8 && |number| > 0
    requires forall i :: 0 <= i < |number| ==> '0' <= number[i] <= '9' || number[i] == '.'
    ensures VersionOf(keyword + " " + number) == Some(number)
  {
    var text, rest := keyword + " " + number, " " + number;
    assert text[8..] == rest && rest[0] == ' ';
    assert IsSpace(' ') && !IsSpace(number[0]);
    assert forall i :: 0 <= i < |number| ==> IsDigit(number[i]) || number[i] == '.';
    hide IsSpace;
    SpaceSkipped(number);
  }

  /** A text that never names a version is read all the same, with one entry more in the loss report. */
  lemma MissingVersionIsNoted(program: Program)
    ensures Finish(Continue(program))
         == Parsed(Circuit(program.qubits, program.clbits, program.operations),
                   if program.sawVersion then program.loss else program.loss + [Loss("version_declaration", None)])
  {
    assert program.loss + [] == program.loss;
  }

  /** Of the libraries only the two standard ones may be included; they change nothing. */
  lemma IncludeExactly(file: string, line: nat, program: Program, shown: string -> string)
    requires |file| > 0 && (forall i :: 0 <= i < |file| ==> file[i] != '"') && IsPlainText("\"" + file + "\"")
    ensures ReadStatement(Statement("include \"" + file + "\"", line), program, shown)
         == if file == "stdgates.inc" || file == "qelib1.inc" then Continue(program) else Refuse(line)
  {
    hide Collapse, Trim, Lower, LeadingKeyword, IsPlainText, IsIdentifier, IncludedFile;
    var rest := " " + ("\"" + file + "\"");
    IncludeKeyword("include");
    ConcatIsPlain("include", "\"" + file + "\"");
    assert "include \"" + file + "\"" == "include" + " " + ("\"" + file + "\"") == IncludeText(file);
    assert IncludeText(file) == "include" + rest;
    PlainStays(IncludeText(file));
    KeywordReads("include", rest);
    IncludeFinds(file);
  }

  // ---------------------------------------------------------------- keywords outside the subset

  predicate IsOutside(keyword: string) {
    || keyword in {"def", "defcal", "cal", "defcalgrammar", "delay", "duration", "durationof", "stretch", "box"}
    || keyword in {"for", "while", "switch", "return", "extern", "input", "output", "pragma", "array", "let"}
    || keyword in {"ctrl", "negctrl", "inv", "pow"}
  }

  /** A statement that begins with such a keyword, in any case, is refused. */
  lemma OutsideIsRefused(name: string, rest: string, line: nat, program: Program, shown: string -> string)
    requires IsIdentifier(name) && IsOutside(Lower(name)) && (|rest| > 0 ==> !IsWord(rest[0]))
    requires IsPlainText(name + rest)
    ensures ReadStatement(Statement(name + rest, line), program, shown) == Refuse(line)
  {
    OutsideIsUnsupported(Lower(name));
    hide Collapse, Trim, Lower, LeadingKeyword, IsPlainText, IsIdentifier, IsUnsupported, IsOutside;
    PlainStays(name + rest);
    KeywordReads(name, rest);
  }

  lemma OutsideIsUnsupported(keyword: string)
    requires IsOutside(keyword)
    ensures IsUnsupported(keyword) && keyword !in {"gate", "openqasm", "include"}
  {
  }

  // ---------------------------------------------------------------- declarations without a size

  /** `qubit q` and `bit c` declare one. */
  lemma OneIsDeclared(ofQubits: bool, name: string)
    requires IsIdentifier(name)
    ensures ParseDeclaration((if ofQubits then "qubit" else "bit") + " " + name)
         == Some(Declaration(ofQubits, Register(name, 1), false))
  {
    hide IsIdentifier, IsSpace;
    var kind := if ofQubits then "qubit" else "bit";
    var text := kind + " " + name;
    assert text == kind + (" " + name);
    ExpectReads(kind, " " + name);
    if !ofQubits { assert text[0] == 'b'; }
    NameIsPlain(name);
    SpaceSkipped(name);
    NotAnIndex(name);
    IdentifierReads(name, "");
    assert name + "" == name && IsSpace(' ') by { WhiteSpaceExactlyWhen(' '); }
    WholeName(name);
  }

  lemma NotAnIndex(name: string)
    requires IsIdentifier(name)
    ensures ReadIndex(name).None?
  {
  }

  lemma WholeName(name: string)
    requires IsIdentifier(name)
    ensures IdentifierLength(name) == |name|
  {
    assert name + "" == name;
    WordRun(name, "");
  }

  // ---------------------------------------------------------------- blocks

  /** Braces around nothing end a condition outside all blocks and change nothing else. */
  lemma EmptyBlock(line: nat, end: nat, program: Program, shown: string -> string)
    ensures ReadStatement(Statement("{", line), program, shown).Continue?
    ensures program.pending.Some? ==>
      ReadStatement(Statement("}", end), ReadStatement(Statement("{", line), program, shown).program, shown)
      == Continue(program.(pending := if program.blockDepth == 0 then None else program.pending))
    ensures program.pending.None? ==> ReadStatement(Statement("{", line), program, shown) == Continue(program)
    ensures program.blockDepth == 0 ==> ReadStatement(Statement("}", end), program, shown) == Continue(program)
  {
    hide LeadingKeyword;
    BracesStay();
    hide Collapse, Trim;
  }

  lemma BracesStay()
    ensures Trim(Collapse("{")) == "{" && Trim(Collapse("}")) == "}"
  {
    assert "{"[1..] == "" && "}"[1..] == "";
    assert Collapse("{") == "{" && Collapse("}") == "}";
  }

  // ---------------------------------------------------------------- gate definitions

  /** The statements from a position on, with white space normalised. */
  predicate Stand(statements: seq<Statement>, from: nat, lines: seq<string>) {
    from + |lines| <= |statements| && forall i :: 0 <= i < |lines| ==> Normalised(statements[from + i]) == lines[i]
  }

  /** Every closing brace has its opening one before it, and every opening one its closing. */
  predicate BracesMatch(lines: seq<string>, depth: nat)
    decreases |lines|
  {
    if |lines| == 0 then depth == 0
    else if lines[0] == "{" then BracesMatch(lines[1..], depth + 1)
    else if lines[0] == "}" then depth > 0 && BracesMatch(lines[1..], depth - 1)
    else BracesMatch(lines[1..], depth)
  }

  /** What is neither empty nor a brace. */
  function Kept(lines: seq<string>): seq<string> {
    if |lines| == 0 then []
    else (if lines[0] in {"", "{", "}"} then [] else [lines[0]]) + Kept(lines[1..])
  }

  lemma StandsApart(statements: seq<Statement>, from: nat, a: seq<string>, b: seq<string>)
    requires Stand(statements, from, a + b)
    ensures Stand(statements, from, a) && Stand(statements, from + |a|, b)
  {
    hide Normalised;
    forall i | 0 <= i < |a| ensures Normalised(statements[from + i]) == a[i] { assert (a + b)[i] == a[i]; }
    forall i | 0 <= i < |b| ensures Normalised(statements[from + |a| + i]) == b[i] {
      assert (a + b)[|a| + i] == b[i] && from + |a| + i == from + (|a| + i);
    }
  }

  lemma FirstStands(statements: seq<Statement>, from: nat, lines: seq<string>)
    requires Stand(statements, from, lines) && |lines| > 0
    ensures from < |statements| && Normalised(statements[from]) == lines[0]
  {
    hide Normalised;
    assert statements[from + 0] == statements[from];
  }

  lemma {:induction false} BodyCollects(
    statements: seq<Statement>, from: nat, lines: seq<string>, depth: nat, body: seq<string>)
    requires Stand(statements, from, lines) && BracesMatch(lines, depth)
    ensures BodyFrom(statements, from, depth + 1, body)
         == BodyFrom(statements, from + |lines|, 1, body + Kept(lines))
    decreases |lines|
  {
    hide Normalised, Stand;
    if |lines| > 0 {
      FirstStands(statements, from, lines);
      assert lines == [lines[0]] + lines[1..];
      StandsApart(statements, from, [lines[0]], lines[1..]);
      var deeper := if lines[0] == "{" then depth + 1 else if lines[0] == "}" then depth - 1 else depth;
      var more := if lines[0] in {"", "{", "}"} then body else body + [lines[0]];
      BodyCollects(statements, from + 1, lines[1..], deeper, more);
      assert body + Kept(lines) == more + Kept(lines[1..]);
    } else {
      assert body + Kept(lines) == body;
    }
  }

  /** Between its braces a gate has the statements that are no braces themselves; inner braces do not end it. */
  lemma BodyReads(statements: seq<Statement>, from: nat, lines: seq<string>)
    requires Stand(statements, from, ["{"] + lines + ["}"]) && BracesMatch(lines, 0)
    ensures BodyFrom(statements, from, 0, []) == Some((Kept(lines), from + 1 + |lines|))
  {
    hide Normalised, Kept, Stand;
    var end := from + 1 + |lines|;
    StandsApart(statements, from, ["{"] + lines, ["}"]);
    StandsApart(statements, from, ["{"], lines);
    FirstStands(statements, from, ["{"]);
    FirstStands(statements, end, ["}"]);
    BodyCollects(statements, from + 1, lines, 0, []);
    assert [] + Kept(lines) == Kept(lines);
  }

  /** The opening brace without its closing one leaves the gate without a body. */
  lemma UnclosedBody(statements: seq<Statement>, from: nat, lines: seq<string>)
    requires Stand(statements, from, ["{"] + lines) && from + 1 + |lines| == |statements| && BracesMatch(lines, 0)
    ensures BodyFrom(statements, from, 0, []).None?
  {
    hide Normalised, Kept, Stand;
    StandsApart(statements, from, ["{"], lines);
    FirstStands(statements, from, ["{"]);
    BodyCollects(statements, from + 1, lines, 0, []);
  }

  predicate AreIdentifiers(names: seq<string>) {
    forall i :: 0 <= i < |names| ==> IsIdentifier(names[i])
  }

  lemma {:induction false} CommaPartsSkip(s: string, rest: string, current: string)
    requires forall i :: 0 <= i < |s| ==> s[i] != ','
    ensures CommaParts(s + rest, current) == CommaParts(rest, current + s)
    decreases |s|
  {
    if |s| > 0 {
      assert (s + rest)[0] == s[0] && (s + rest)[1..] == s[1..] + rest;
      CommaPartsSkip(s[1..], rest, current + [s[0]]);
      assert current + [s[0]] + s[1..] == current + s;
    } else {
      assert s + rest == rest && current + s == current;
    }
  }

  lemma {:induction false} CommaPartsOfJoin(names: seq<string>, pad: string)
    requires AreIdentifiers(names) && |names| > 0
    ensures CommaParts(Join(names), pad) == Padded(names, pad)
    decreases |names|
  {
    var first := names[0];
    NoCommaInName(first);
    if |names| == 1 {
      assert Join(names) == first && first + "" == first;
      CommaPartsSkip(first, "", pad);
      assert names[1..] == [] && Padded(names[1..], " ") == [];
    } else {
      var behind := Join(names[1..]);
      assert Join(names) == first + (", " + behind);
      CommaPartsSkip(first, ", " + behind, pad);
      assert (", " + behind)[1..] == " " + behind && (" " + behind)[0] == ' ' && (" " + behind)[1..] == behind;
      CommaPartsOfJoin(names[1..], " ");
      assert CommaParts(" " + behind, "") == CommaParts(behind, "" + " ");
      assert "" + " " == " ";
    }
  }

  lemma NoCommaInName(name: string)
    requires IsIdentifier(name)
    ensures (forall i :: 0 <= i < |name| ==> name[i] != ',') && IsTrimmed(name)
  {
  }

  lemma {:induction false} PaddedTrimmed(names: seq<string>, pad: string)
    requires AreIdentifiers(names) && (pad == "" || pad == " ")
    ensures TrimmedFormals(Padded(names, pad)) == names
    decreases |names|
  {
    hide Trim, IsIdentifier, IsSpace;
    if |names| > 0 {
      NoCommaInName(names[0]);
      SpaceIsBlank();
      TrimPadded(pad, names[0]);
      PaddedTrimmed(names[1..], " ");
      FormalsConcat([pad + names[0]], Padded(names[1..], " "));
      OneFormal(pad + names[0], names[0]);
    }
  }

  lemma OneFormal(part: string, name: string)
    requires Trim(part) == name && |name| > 0
    ensures TrimmedFormals([part]) == [name]
  {
    assert [part][..0] == [] && TrimmedFormals([]) == [];
  }

  lemma {:induction false} FormalsConcat(a: seq<string>, b: seq<string>)
    ensures TrimmedFormals(a + b) == TrimmedFormals(a) + TrimmedFormals(b)
    decreases |b|
  {
    hide Trim;
    if |b| == 0 {
      assert a + b == a;
    } else {
      FormalsConcat(a, b[..|b| - 1]);
      assert (a + b)[..|a + b| - 1] == a + b[..|b| - 1];
    }
  }

  /** The formals of a list of names are those names. */
  lemma FormalsRead(names: seq<string>)
    requires AreIdentifiers(names) && |names| > 0
    ensures Formals(Join(names)) == names
  {
    hide CommaParts, TrimmedFormals, Padded, Join;
    CommaPartsOfJoin(names, "");
    PaddedTrimmed(names, "");
  }

  /** `gate name(p, ...) q, ...`. */
  function HeaderText(name: string, parameters: seq<string>, qubits: seq<string>): string {
    "gate " + (name + "(" + Join(parameters) + ")" + " " + Join(qubits))
  }

  /** It declares that gate. */
  lemma HeaderReads(name: string, parameters: seq<string>, qubits: seq<string>)
    requires IsIdentifier(name) && AreIdentifiers(parameters) && AreIdentifiers(qubits) && |parameters| > 0
      && |qubits| > 0
    ensures QasmGates.Header(HeaderText(name, parameters, qubits)) == Some((name, parameters, qubits))
    ensures LeadingKeyword(HeaderText(name, parameters, qubits)) == "gate"
  {
    var call := name + "(" + Join(parameters) + ")" + " " + Join(qubits);
    var text := "gate " + call;
    assert text == "gate" + (" " + call);
    GateKeyword();
    SpaceIsNoWord();
    KeywordReads("gate", " " + call);
    hide LeadingKeyword;
    NamesArePlain(parameters);
    NamesArePlain(qubits);
    assert text[4..] == " " + call;
    hide Join, IsIdentifier, ParensMatch, IsTrimmed, Trim, Formals, AreIdentifiers;
    CallIsTrimmed(name, Join(parameters), Join(qubits));
    SpaceIsBlank();
    TrimPadded(" ", call);
    CallReads(name, Join(parameters), Join(qubits));
    FormalsRead(parameters);
    FormalsRead(qubits);
  }

  lemma CallIsTrimmed(name: string, inner: string, operands: string)
    requires IsIdentifier(name) && IsTrimmed(operands)
    ensures IsTrimmed(name + "(" + inner + ")" + " " + operands)
  {
    NoCommaInName(name);
    var call := name + "(" + inner + ")" + " " + operands;
    hide IsSpace, IsIdentifier;
    assert call[0] == name[0] && call[|call| - 1] == operands[|operands| - 1];
  }

  lemma {:induction false} NamesArePlain(names: seq<string>)
    requires AreIdentifiers(names) && |names| > 0
    ensures IsTrimmed(Join(names)) && ParensMatch(Join(names), 0)
  {
    forall i | 0 <= i < |names| ensures IsPlainText(names[i]) && ParensMatch(names[i], 0) {
      NameIsPlain(names[i]);
      NameMatches(names[i]);
    }
    hide IsPlainText, ParensMatch, IsIdentifier;
    JoinIsPlain(names);
    JoinMatches(names);
    PlainIsTrimmed(Join(names));
  }

  lemma PlainIsTrimmed(s: string)
    requires IsPlainText(s)
    ensures IsTrimmed(s)
  {
  }

  lemma {:induction false} NameMatches(s: string)
    requires forall i :: 0 <= i < |s| ==> IsWord(s[i])
    ensures ParensMatch(s, 0)
    decreases |s|
  {
    if |s| > 0 { NameMatches(s[1..]); }
  }

  /** A definition with its braces is taken in whole: the gate is known afterwards and nothing else has changed. */
  lemma DefinitionReads(
    statements: seq<Statement>, position: nat, reader: Reader, shown: string -> string, name: string,
    parameters: seq<string>, qubits: seq<string>, lines: seq<string>)
    requires IsIdentifier(name) && AreIdentifiers(parameters) && AreIdentifiers(qubits) && |parameters| > 0
      && |qubits| > 0
    requires Stand(statements, position, [HeaderText(name, parameters, qubits)] + (["{"] + lines + ["}"]))
    requires BracesMatch(lines, 0)
    ensures ReadNext(statements, position, reader, shown)
         == Next(reader.(definitions := reader.definitions[name := Definition(parameters, qubits, Kept(lines))]),
                 position + 3 + |lines|)
  {
    hide HeaderText, IsIdentifier, QasmGates.Header, BodyFrom, Normalised, Kept, BracesMatch, LeadingKeyword;
    hide Stand, ReadNext;
    var text := HeaderText(name, parameters, qubits);
    StandsApart(statements, position, [text], ["{"] + lines + ["}"]);
    FirstStands(statements, position, [text]);
    HeaderReads(name, parameters, qubits);
    BodyReads(statements, position + 1, lines);
    TakesDefinition(statements, position, reader, shown, text, (name, parameters, qubits),
                    (Kept(lines), position + 2 + |lines|));
  }

  lemma TakesDefinition(
    statements: seq<Statement>, position: nat, reader: Reader, shown: string -> string, text: string,
    header: (string, seq<Formal>, seq<Formal>), body: (seq<string>, nat))
    requires position < |statements| && Normalised(statements[position]) == text && LeadingKeyword(text) == "gate"
    requires QasmGates.Header(text) == Some(header) && BodyFrom(statements, position + 1, 0, []) == Some(body)
    ensures ReadNext(statements, position, reader, shown)
         == Next(reader.(definitions := reader.definitions[header.0 := Definition(header.1, header.2, body.0)]),
                 body.1 + 1)
  {
    hide Normalised, LeadingKeyword, QasmGates.Header, BodyFrom, IsInvocation, ReadStatement, Invoke;
  }

  lemma SpaceIsNoWord()
    ensures !IsWord(' ')
  {
  }

  lemma GateKeyword()
    ensures IsIdentifier("gate") && Lower("gate") == "gate"
  {
    LowerStays("gate");
  }

  /** The first call of a definition is noted in the loss report, and no later one. */
  lemma FirstCallIsNoted(
    text: string, line: nat, reader: Reader, position: nat, shown: string -> string, later: nat)
    requires Invoke(text, line, reader, position, shown).Next?
    ensures var name := LeadingIdentifier(text);
      && (name !in reader.inlined ==>
            Noted(reader, name, line).loss == reader.program.loss + [Loss("custom_gate_definition", Some(line))])
      && (name in reader.inlined ==> Noted(reader, name, line) == reader.program)
      && Noted(reader, name, line).operations == reader.program.operations
      && var next := Invoke(text, line, reader, position, shown).reader; Noted(next, name, later) == next.program
  {
    hide ExpandText, LeadingIdentifier;
  }
}
