/** The whole reader: gate definitions are collected and calls to them inlined (src/circuit/qasm3.ts:669-921). */
module QasmGates {
  import opened Options
  import opened QasmText
  import opened QasmReader
  import opened QasmWriter
  import opened QasmRoundTrip
  import opened QasmInvariants
  import opened TextSubstitution
  import opened MacroExpansion

  /** What the loop carries beside the program: the definitions, which of them were called, and the spans. */
  datatype Reader = Reader(program: Program, definitions: map<string, Definition>, inlined: set<string>,
                           subcircuits: seq<Span>)

  datatype Step = Next(reader: Reader, position: nat) | Refused(line: nat)

  // ---------------------------------------------------------------- definitions

  /** The parts between all commas, brackets or not, the first beginning with what was already read. */
  function CommaParts(text: string, current: string): seq<string> {
    if |text| == 0 then [current]
    else if text[0] == ',' then [current] + CommaParts(text[1..], "")
    else CommaParts(text[1..], current + [text[0]])
  }

  function TrimmedFormals(parts: seq<string>): seq<Formal> {
    if |parts| == 0 then []
    else
      var before, last := TrimmedFormals(parts[..|parts| - 1]), Trim(parts[|parts| - 1]);
      if |last| > 0 then before + [last] else before
  }

  function Formals(text: string): seq<Formal> {
    TrimmedFormals(CommaParts(text, ""))
  }

  function Normalised(statement: Statement): string {
    Trim(Collapse(statement.text))
  }

  /** The body from a statement on, and where it closes. */
  function BodyFrom(
    statements: seq<Statement>, cursor: nat, depth: int, body: seq<string>): (read: Option<(seq<string>, nat)>)
    ensures read.Some? ==> cursor <= read.value.1 < |statements|
    decreases if cursor < |statements| then |statements| - cursor else 0
  {
    if cursor >= |statements| then None
    else
      var inner := Normalised(statements[cursor]);
      if inner == "{" then BodyFrom(statements, cursor + 1, depth + 1, body)
      else if inner == "}" then
        if depth - 1 <= 0 then Some((body, cursor)) else BodyFrom(statements, cursor + 1, depth - 1, body)
      else BodyFrom(statements, cursor + 1, depth, if inner == "" then body else body + [inner])
  }

  method CollectBody(statements: seq<Statement>, position: nat) returns (read: Option<(seq<string>, nat)>)
    requires position < |statements|
    ensures read == BodyFrom(statements, position + 1, 0, [])
  {
    hide Normalised;
    var body: seq<string> := [];
    var depth := 0;
    var cursor := position + 1;
    while cursor < |statements|
      invariant position < cursor <= |statements|
      invariant BodyFrom(statements, position + 1, 0, []) == BodyFrom(statements, cursor, depth, body)
      decreases |statements| - cursor
    {
      var inner := Normalised(statements[cursor]);
      if inner == "{" {
        depth := depth + 1;
      } else if inner == "}" {
        depth := depth - 1;
        if depth <= 0 { return Some((body, cursor)); }
      } else if inner != "" {
        body := body + [inner];
      }
      cursor := cursor + 1;
    }
    return None;
  }

  /** What `gate NAME(parameters) qubits` declares. */
  function Header(text: string): Option<(string, seq<Formal>, seq<Formal>)> {
    var signature :- CallSignature(Trim(if |text| >= 4 then text[4..] else ""));
    var qubits := Formals(signature.operandText);
    if |qubits| == 0 then None
    else
      Some((signature.name, Formals(if signature.parameterText.Some? then signature.parameterText.value else ""),
            qubits))
  }

  // ---------------------------------------------------------------- calls

  /** A statement that is none of the others and begins with a defined name. */
  predicate IsInvocation(text: string, definitions: map<string, Definition>) {
    var keyword := LeadingKeyword(text);
    && text !in {"", "{", "}"} && keyword !in {"gate", "openqasm", "include", "if"} && !IsUnsupported(keyword)
    && ParseDeclaration(text).None? && LeadingIdentifier(text) in definitions
  }

  /** The first call of a definition is recorded as a loss of structure. */
  function Noted(reader: Reader, name: string, line: nat): Program {
    if name in reader.inlined then reader.program
    else reader.program.(loss := reader.program.loss + [Loss("custom_gate_definition", Some(line))])
  }

  function Invoke(text: string, line: nat, reader: Reader, position: nat, shown: string -> string): Step {
    var name := LeadingIdentifier(text);
    var expansion := ExpandText(Scope(reader.definitions, line, shown), text, 0, Noted(reader, name, line));
    if expansion.None? then Refused(line)
    else
      Next(Reader(expansion.value.program, reader.definitions, reader.inlined + {name},
                  reader.subcircuits + expansion.value.spans), position + 1)
  }

  // ---------------------------------------------------------------- the loop

  /** One turn of the loop, and where the next begins. */
  function ReadNext(statements: seq<Statement>, position: nat, reader: Reader, shown: string -> string): (step: Step)
    requires position < |statements|
    ensures step.Next? ==> position < step.position <= |statements|
  {
    var statement := statements[position];
    var text, line := Normalised(statement), statement.line;
    if LeadingKeyword(text) == "gate" then
      var header := Header(text);
      var body := BodyFrom(statements, position + 1, 0, []);
      if header.None? || body.None? then Refused(line)
      else
        var definition := Definition(header.value.1, header.value.2, body.value.0);
        Next(reader.(definitions := reader.definitions[header.value.0 := definition]), body.value.1 + 1)
    else if IsInvocation(text, reader.definitions) then Invoke(text, line, reader, position, shown)
    else
      var outcome := ReadStatement(statement, reader.program, shown);
      if outcome.Continue? then Next(reader.(program := outcome.program), position + 1) else Refused(line)
  }

  function ReadFrom(statements: seq<Statement>, position: nat, reader: Reader, shown: string -> string): Step
    decreases if position < |statements| then |statements| - position else 0
  {
    if position >= |statements| then Next(reader, position)
    else
      var step := ReadNext(statements, position, reader, shown);
      if step.Refused? then step else ReadFrom(statements, step.position, step.reader, shown)
  }

  const FRESH := Reader(START, map[], {}, [])

  datatype GateResult = Accepted(circuit: Circuit, loss: seq<Loss>, subcircuits: seq<Span>) | Denied(line: nat)

  function Conclude(step: Step): GateResult {
    match step
    case Next(reader, _) =>
      Accepted(Circuit(reader.program.qubits, reader.program.clbits, reader.program.operations),
               reader.program.loss + if reader.program.sawVersion then [] else [Loss("version_declaration", None)],
               reader.subcircuits)
    case Refused(line) => Denied(line)
  }

  /** The circuit a source text stands for, gate definitions included, and where each call went. */
  function ParseAll(source: string, shown: string -> string): GateResult {
    Conclude(ReadFrom(Statements(source), 0, FRESH, shown))
  }

  /** One turn on the state itself; a definition says up to where its body reaches. */
  method ReadTurn(
    statements: seq<Statement>, position: nat, reader: Reader, shown: string -> string)
    returns (step: Step)
    requires position < |statements|
    ensures step == ReadNext(statements, position, reader, shown)
  {
    hide ReadStatement, IsInvocation, Header, BodyFrom, LeadingKeyword, LeadingIdentifier, Normalised, CallOf, Expand;
    var statement := statements[position];
    var text, line := Normalised(statement), statement.line;
    if LeadingKeyword(text) == "gate" {
      var header := Header(text);
      if header.None? { return Refused(line); }
      var body := CollectBody(statements, position);
      if body.None? { return Refused(line); }
      var definition := Definition(header.value.1, header.value.2, body.value.0);
      return Next(reader.(definitions := reader.definitions[header.value.0 := definition]), body.value.1 + 1);
    }
    if IsInvocation(text, reader.definitions) {
      var name := LeadingIdentifier(text);
      var context := new Context(Scope(reader.definitions, line, shown), Noted(reader, name, line), reader.subcircuits);
      var accepted := context.ExpandCustomGate(text, 0);
      if !accepted { return Refused(line); }
      return Next(Reader(context.program, reader.definitions, reader.inlined + {name}, context.subcircuits),
                  position + 1);
    }
    var outcome := ReadStatement(statement, reader.program, shown);
    return if outcome.Continue? then Next(reader.(program := outcome.program), position + 1) else Refused(line);
  }

  method ParseQasm3(source: string, shown: string -> string) returns (result: GateResult)
    ensures result == ParseAll(source, shown)
  {
    hide ReadNext, Statements;
    var statements := SplitStatements(source);
    var reader := FRESH;
    var consumeUntil := 0;
    for position := 0 to |statements|
      invariant consumeUntil <= |statements|
      invariant ReadFrom(statements, 0, FRESH, shown)
             == ReadFrom(statements, if position < consumeUntil then consumeUntil else position, reader, shown)
    {
      if position >= consumeUntil {
        var step := ReadTurn(statements, position, reader, shown);
        if step.Refused? {
          return Conclude(step);
        }
        reader, consumeUntil := step.reader, step.position;
      }
    }
    return Conclude(Next(reader, |statements|));
  }

  // ---------------------------------------------------------------- texts without definitions

  lemma ContinueIsNoGate(statement: Statement, program: Program, shown: string -> string)
    ensures !ReadStatement(statement, program, shown).DefinesGate? ==> LeadingKeyword(Normalised(statement)) != "gate"
    ensures ReadStatement(statement, program, shown).Refuse? ==>
      ReadStatement(statement, program, shown).line == statement.line
  {
    hide Trim, Collapse, Lower, ReadVersion, ReadInclude, ReadCondition, ApplyStatement, Declare, ParseDeclaration,
         IsUnsupported, LeadingKeyword;
    var text := Normalised(statement);
    BracesAreNoWord();
    RefusalLine(text, statement.line, program, shown);
  }

  lemma BracesAreNoWord()
    ensures LeadingKeyword("") == "" && LeadingKeyword("{") == "" && LeadingKeyword("}") == ""
  {
  }

  lemma RefusalLine(text: string, line: nat, program: Program, shown: string -> string)
    ensures var outcome := ApplyStatement(text, line, program, shown); outcome.Continue? || outcome == Refuse(line)
    ensures var outcome := ReadCondition(text, line, program, shown); outcome.Continue? || outcome == Refuse(line)
    ensures var outcome := ReadVersion(text, line, program); outcome.Continue? || outcome == Refuse(line)
    ensures var outcome := ReadInclude(text, line, program); outcome.Continue? || outcome == Refuse(line)
    ensures ParseDeclaration(text).Some? ==>
              var outcome := Declare(ParseDeclaration(text).value, line, program);
              outcome.Continue? || outcome == Refuse(line)
  {
    hide ParseOperation, ParseCondition, ParseDeclaration, VersionOf, IncludedFile, Find, Trim, EmitAll;
  }

  /** Without a definition so far, the two readers are in step. */
  lemma {:induction false} InStep(statements: seq<Statement>, k: nat, shown: string -> string)
    requires k <= |statements| && ReadStatements(statements[..k], shown).Continue?
    ensures ReadFrom(statements, 0, FRESH, shown)
         == ReadFrom(statements, k, FRESH.(program := ReadStatements(statements[..k], shown).program), shown)
    decreases k
  {
    hide ReadStatement, IsInvocation, LeadingKeyword, Header, BodyFrom;
    if k > 0 {
      assert statements[..k][..k - 1] == statements[..k - 1] && statements[..k][k - 1] == statements[k - 1];
      InStep(statements, k - 1, shown);
      var before := ReadStatements(statements[..k - 1], shown).program;
      ContinueIsNoGate(statements[k - 1], before, shown);
      NothingToInvoke(Normalised(statements[k - 1]));
    } else {
      assert statements[..0] == [];
    }
  }

  lemma NothingToInvoke(text: string)
    ensures !IsInvocation(text, map[])
  {
  }

  lemma {:induction false} FirstFailure(statements: seq<Statement>, shown: string -> string) returns (k: nat)
    requires !ReadStatements(statements, shown).Continue?
    ensures k < |statements| && ReadStatements(statements[..k], shown).Continue?
    ensures ReadStatement(statements[k], ReadStatements(statements[..k], shown).program, shown)
      == ReadStatements(statements, shown)
    decreases |statements|
  {
    hide ReadStatement;
    var n := |statements| - 1;
    var before := ReadStatements(statements[..n], shown);
    if before.Continue? {
      k := n;
    } else {
      k := FirstFailure(statements[..n], shown);
      assert statements[..n][..k] == statements[..k];
    }
  }

  /** A text without gate definitions is read as QasmReader says, with no spans. */
  lemma WithoutDefinitions(source: string, shown: string -> string)
    requires !Parse(source, shown).HasDefinitions?
    ensures ParseAll(source, shown) == match Parse(source, shown)
      case Parsed(circuit, loss) => Accepted(circuit, loss, [])
      case Rejected(line) => Denied(line)
      case HasDefinitions(line) => Denied(line)
  {
    hide Statements, ReadStatement, ReadNext;
    var statements := Statements(source);
    var outcome := ReadStatements(statements, shown);
    if outcome.Continue? {
      assert statements[..|statements|] == statements;
      InStep(statements, |statements|, shown);
    } else {
      var k := FirstFailure(statements, shown);
      InStep(statements, k, shown);
      RefusedAlike(statements, k, FRESH.(program := ReadStatements(statements[..k], shown).program), shown);
    }
  }

  lemma RefusedAlike(statements: seq<Statement>, k: nat, reader: Reader, shown: string -> string)
    requires k < |statements| && reader.definitions == map[]
      && ReadStatement(statements[k], reader.program, shown).Refuse?
    ensures ReadNext(statements, k, reader, shown) == Refused(ReadStatement(statements[k], reader.program, shown).line)
  {
    hide ReadStatement, LeadingKeyword, IsInvocation, Header, BodyFrom;
    ContinueIsNoGate(statements[k], reader.program, shown);
    NothingToInvoke(Normalised(statements[k]));
  }

  /** The round trip, for the whole reader. */
  lemma ParseAllUndoesEmit(circuit: Circuit, includeStdgates: bool, shown: string -> string)
    requires IsReadable(circuit, shown)
    ensures ParseAll(Document(EmittedLines(circuit, includeStdgates)), shown) == Accepted(circuit, [], [])
      <==> HardwareIsTight(circuit)
  {
    hide Parse, ParseAll, Document, EmittedLines, IsReadable, HardwareIsTight, Returned;
    WrittenReads(circuit, includeStdgates, shown);
    ParseUndoesEmit(circuit, includeStdgates, shown);
    WithoutDefinitions(Document(EmittedLines(circuit, includeStdgates)), shown);
  }

  // ---------------------------------------------------------------- what every accepted text yields

  lemma {:induction false} ExpandKeepsSound(scope: Scope, call: Call, depth: nat, program: Program)
    requires IsSound(program)
    ensures var e := Expand(scope, call, depth, program); e.Some? ==> IsSound(e.value.program)
    decreases if depth <= MAX_DEPTH then MAX_DEPTH + 1 - depth else 0, 1, 0
  {
    hide IsSound;
    if depth <= MAX_DEPTH && call.name in scope.definitions && Matches(scope.definitions[call.name], call) {
      BodyKeepsSound(scope, scope.definitions[call.name], call, |scope.definitions[call.name].body|, depth, program);
    }
  }

  lemma {:induction false} BodyKeepsSound(scope: Scope, d: Definition, call: Call, n: nat, depth: nat, program: Program)
    requires Matches(d, call) && n <= |d.body| && depth <= MAX_DEPTH && IsSound(program)
    ensures var e := ExpandBody(scope, d, call, n, depth, program); e.Some? ==> IsSound(e.value.program)
    decreases MAX_DEPTH + 1 - depth, 0, n
  {
    hide IsSound, Instantiate, CallOf, LeadingIdentifier, ApplyStatement;
    if n > 0 {
      BodyKeepsSound(scope, d, call, n - 1, depth, program);
      var before := ExpandBody(scope, d, call, n - 1, depth, program);
      if before.Some? {
        var text := Instantiate(d.body[n - 1], d, call);
        if LeadingIdentifier(text) !in scope.definitions {
          ApplyKeepsSound(text, scope.line, before.value.program, scope.shown);
        } else if CallOf(text).Some? {
          ExpandKeepsSound(scope, CallOf(text).value, depth + 1, before.value.program);
        }
      }
    }
  }

  /** The spans of all calls so far: in order and inside the operations. */
  ghost predicate IsRight(reader: Reader) {
    && IsSound(reader.program)
    && Laminar(reader.subcircuits) && Within(reader.subcircuits, 0, |reader.program.operations|, 0)
  }

  lemma WithinFurther(spans: seq<Span>, end: nat, further: nat)
    requires Within(spans, 0, end, 0) && end <= further
    ensures Within(spans, 0, further, 0)
  {
  }

  lemma ReadAppends(statement: Statement, program: Program, shown: string -> string)
    ensures var outcome := ReadStatement(statement, program, shown);
      outcome.Continue? ==> program.operations <= outcome.program.operations
  {
    hide Trim, Collapse, LeadingKeyword, ParseOperation, ParseCondition, ParseDeclaration, VersionOf, IncludedFile,
         Find, IsUnsupported, EmitAll;
    forall p: Program, operations: seq<SimpleOperation> ensures p.operations <= EmitAll(p, operations).operations {
      EmitAllAppends(p, operations);
    }
  }

  lemma InvokeKeepsRight(text: string, line: nat, reader: Reader, position: nat, shown: string -> string)
    requires IsRight(reader)
    ensures var step := Invoke(text, line, reader, position, shown); step.Next? ==> IsRight(step.reader)
  {
    hide IsSound, Laminar, Within, CallOf, LeadingIdentifier, Expand;
    var name := LeadingIdentifier(text);
    var program, scope := Noted(reader, name, line), Scope(reader.definitions, line, shown);
    NotedIsSound(reader, name, line);
    if CallOf(text).Some? && Expand(scope, CallOf(text).value, 0, program).Some? {
      var call := CallOf(text).value;
      var e := Expand(scope, call, 0, program).value;
      ExpandKeepsSound(scope, call, 0, program);
      ExpandAppends(scope, call, 0, program);
      SpansAreLaminar(scope, call, 0, program);
      LaminarConcat(reader.subcircuits, e.spans, 0, |program.operations|, |e.program.operations|, 0);
    }
  }

  lemma NotedIsSound(reader: Reader, name: string, line: nat)
    requires IsSound(reader.program)
    ensures IsSound(Noted(reader, name, line))
  {
  }

  lemma NextKeepsRight(statements: seq<Statement>, position: nat, reader: Reader, shown: string -> string)
    requires position < |statements| && IsRight(reader)
    ensures var step := ReadNext(statements, position, reader, shown); step.Next? ==> IsRight(step.reader)
  {
    hide IsSound, Laminar, Within, Invoke, IsInvocation, Header, BodyFrom, LeadingKeyword, ReadStatement;
    var statement := statements[position];
    var text := Normalised(statement);
    if LeadingKeyword(text) != "gate" && IsInvocation(text, reader.definitions) {
      InvokeKeepsRight(text, statement.line, reader, position, shown);
    } else if LeadingKeyword(text) != "gate" {
      var outcome := ReadStatement(statement, reader.program, shown);
      StatementKeepsSound(statement, reader.program, shown);
      ReadAppends(statement, reader.program, shown);
      if outcome.Continue? {
        WithinFurther(reader.subcircuits, |reader.program.operations|, |outcome.program.operations|);
      }
    }
  }

  lemma {:induction false} LoopKeepsRight(
    statements: seq<Statement>, position: nat, reader: Reader, shown: string -> string)
    requires IsRight(reader)
    ensures var step := ReadFrom(statements, position, reader, shown); step.Next? ==> IsRight(step.reader)
    decreases if position < |statements| then |statements| - position else 0
  {
    hide IsRight, ReadNext;
    if position < |statements| {
      NextKeepsRight(statements, position, reader, shown);
      var step := ReadNext(statements, position, reader, shown);
      if step.Next? { LoopKeepsRight(statements, step.position, step.reader, shown); }
    }
  }

  // ---------------------------------------------------------------- the calls of a text

  /** The calls one turn makes: under the definitions read so far, from the program read so far. */
  ghost function TurnCalls(
    statements: seq<Statement>, position: nat, reader: Reader, shown: string -> string): seq<Visit>
    requires position < |statements| && ReadNext(statements, position, reader, shown).Next?
  {
    var text, line := Normalised(statements[position]), statements[position].line;
    if LeadingKeyword(text) != "gate" && IsInvocation(text, reader.definitions) then
      Visits(Scope(reader.definitions, line, shown), CallOf(text).value, 0,
             Noted(reader, LeadingIdentifier(text), line))
    else []
  }

  /** The calls of a text from a statement on, up to where it is refused, if it is. */
  ghost function Calls(statements: seq<Statement>, position: nat, reader: Reader, shown: string -> string): seq<Visit>
    decreases if position < |statements| then |statements| - position else 0
  {
    if position >= |statements| then []
    else
      var step := ReadNext(statements, position, reader, shown);
      if step.Refused? then []
      else TurnCalls(statements, position, reader, shown) + Calls(statements, step.position, step.reader, shown)
  }

  /** One turn records the spans of its calls, and appends to the operations. */
  lemma TurnRecords(statements: seq<Statement>, position: nat, reader: Reader, shown: string -> string)
    requires position < |statements| && ReadNext(statements, position, reader, shown).Next?
    ensures var step, calls := ReadNext(statements, position, reader, shown),
      TurnCalls(statements, position, reader, shown);
      && step.reader.subcircuits == reader.subcircuits + SpansOf(calls)
      && AreMade(calls, reader.program, step.reader.program)
      && reader.program.operations <= step.reader.program.operations
  {
    hide IsInvocation, Header, BodyFrom, LeadingKeyword, ReadStatement, CallOf, LeadingIdentifier, Expand, Visits,
         IsMade;
    var statement := statements[position];
    var text := Normalised(statement);
    if LeadingKeyword(text) != "gate" && IsInvocation(text, reader.definitions) {
      var program := Noted(reader, LeadingIdentifier(text), statement.line);
      var scope, call := Scope(reader.definitions, statement.line, shown), CallOf(text).value;
      SpansCoverTheirCalls(scope, call, 0, program);
      ExpandAppends(scope, call, 0, program);
      SameStart(Visits(scope, call, 0, program), program, reader.program,
                Expand(scope, call, 0, program).value.program);
    } else {
      ReadAppends(statement, reader.program, shown);
      assert reader.subcircuits + [] == reader.subcircuits;
    }
  }

  lemma SameStart(visits: seq<Visit>, first: Program, other: Program, last: Program)
    requires AreMade(visits, first, last) && other.operations == first.operations
    ensures AreMade(visits, other, last)
  {
    hide Expand;
  }

  lemma {:induction false} LoopRecords(
    statements: seq<Statement>, position: nat, reader: Reader, shown: string -> string)
    requires ReadFrom(statements, position, reader, shown).Next?
    ensures var end := ReadFrom(statements, position, reader, shown).reader;
      && end.subcircuits == reader.subcircuits + SpansOf(Calls(statements, position, reader, shown))
      && AreMade(Calls(statements, position, reader, shown), reader.program, end.program)
      && reader.program.operations <= end.program.operations
    decreases if position < |statements| then |statements| - position else 0
  {
    hide ReadNext, TurnCalls, IsMade;
    if position < |statements| {
      TurnRecords(statements, position, reader, shown);
      var step, calls := ReadNext(statements, position, reader, shown), TurnCalls(statements, position, reader, shown);
      LoopRecords(statements, step.position, step.reader, shown);
      var later := Calls(statements, step.position, step.reader, shown);
      var end := ReadFrom(statements, position, reader, shown).reader;
      hide AreMade;
      SpansConcat(calls, later);
      MadeConcat(calls, later, reader.program, step.reader.program, end.program);
    } else {
      assert reader.subcircuits + [] == reader.subcircuits;
    }
  }

  /** A call of an accepted text, with its span: the operations in the range are what expanding it there appended. */
  ghost predicate IsRecorded(visit: Visit, span: Span, operations: seq<Operation>) {
    var e := Expand(visit.scope, visit.call, visit.depth, visit.before);
    && e.Some? && e.value.program == visit.after
    && span == SpanOf(visit.scope, visit.call, visit.depth, visit.before, visit.after)
    && visit.before.operations <= visit.after.operations
    && span.start <= span.end <= |operations|
    && operations[span.start..span.end] == visit.after.operations[|visit.before.operations|..]
  }

  lemma MadeIsRecorded(visits: seq<Visit>, first: Program, last: Program)
    requires AreMade(visits, first, last)
    ensures forall i :: 0 <= i < |visits| ==> IsRecorded(visits[i], SpansOf(visits)[i], last.operations)
  {
    hide Expand;
    forall i | 0 <= i < |visits| ensures IsRecorded(visits[i], SpansOf(visits)[i], last.operations) {
      assert IsMade(visits[i], first, last);
      RangeIsExpansion(visits[i], first, last);
    }
  }

  /**
   * Whatever text is accepted, with or without gate definitions: register names are unique, every bit lies inside its
   * register, and the spans are disjoint or nested, in order, inside the circuit. They are the spans of the calls the
   * text makes, one for one, and the operations of each are what its call expands to from the state reached there.
   */
  lemma AcceptedIsRight(source: string, shown: string -> string)
    ensures var result, calls := ParseAll(source, shown), Calls(Statements(source), 0, FRESH, shown);
      result.Accepted? ==>
        && DistinctNames(result.circuit.qubits) && DistinctNames(result.circuit.clbits)
        && AllSound(result.circuit.operations, result.circuit.qubits, result.circuit.clbits)
        && Laminar(result.subcircuits) && Within(result.subcircuits, 0, |result.circuit.operations|, 0)
        && |result.subcircuits| == |calls|
        && forall i :: 0 <= i < |calls| ==> IsRecorded(calls[i], result.subcircuits[i], result.circuit.operations)
  {
    hide Statements, ReadFrom, DistinctNames, AllSound, Laminar, Within, Calls, AreMade, IsRecorded;
    FreshIsRight();
    LoopKeepsRight(Statements(source), 0, FRESH, shown);
    var step, calls := ReadFrom(Statements(source), 0, FRESH, shown), Calls(Statements(source), 0, FRESH, shown);
    if step.Next? {
      LoopRecords(Statements(source), 0, FRESH, shown);
      assert [] + SpansOf(calls) == SpansOf(calls);
      MadeIsRecorded(calls, START, step.reader.program);
    }
  }

  lemma FreshIsRight()
    ensures IsRight(FRESH)
  {
  }

  // ---------------------------------------------------------------- calls that are not expanded

  /**
   * A call to a defined gate behind an inline `if` is not expanded: it becomes a guarded gate of that name, and no span
   * is recorded.
   */
  lemma CallUnderConditionStays(
    statements: seq<Statement>, position: nat, condition: Condition, operation: SimpleOperation, reader: Reader,
    shown: string -> string)
    requires position < |statements| && LeadingKeyword(Normalised(statements[position])) == "if"
    requires var parsed := ParseCondition(Normalised(statements[position]));
      && parsed.Some? && parsed.value.0 == condition && Trim(parsed.value.1) != ""
      && ParseOperation(Trim(parsed.value.1), statements[position].line, reader.program.qubits, reader.program.clbits,
                        shown)
         == Some(Reading([operation], reader.program.qubits, []))
    requires operation.Gate? && operation.name in reader.definitions
    requires reader.program.blockDepth == 0 && ConditionIsSound(condition, reader.program.clbits)
    ensures var step := ReadNext(statements, position, reader, shown);
      && step.Next? && step.reader.subcircuits == reader.subcircuits
      && step.reader.program.operations == reader.program.operations + [Conditional(condition, operation)]
  {
    hide ParseCondition, ParseOperation, Trim, Find, LeadingKeyword, ParseDeclaration, Header, BodyFrom, Collapse;
    var text := Normalised(statements[position]);
    BracesAreNoWord();
    TwoLetters("if");
    var guarded := reader.program.(pending := Some(condition));
    EmitOne(guarded, operation);
    assert guarded.loss + [] == guarded.loss;
    assert guarded.(qubits := reader.program.qubits, loss := guarded.loss + []) == guarded;
  }
}
