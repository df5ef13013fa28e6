/** Inlining of user-defined gates, and the spans it records (src/circuit/qasm3.ts:107-121, 931-1013). */
module MacroExpansion {
  import opened Options
  import opened QasmText
  import opened QasmReader
  import opened TextSubstitution

  /** A call as it is read: a name, parameter texts and operand texts. */
  datatype Call = Call(name: string, parameters: seq<string>, qubits: seq<string>)

  /** One expansion: the half-open range of operations a call produced, how deeply nested, and the call itself. */
  datatype Span = Span(
    name: string, depth: nat, start: nat, end: nat, qubits: seq<string>, parameters: seq<string>, line: nat)

  /** What no expansion changes: the definitions, the line of the outermost call, and how the host prints numbers. */
  datatype Scope = Scope(definitions: map<string, Definition>, line: nat, shown: string -> string)

  datatype Expansion = Expansion(program: Program, spans: seq<Span>)

  const MAX_DEPTH: nat := 32

  function Actuals(text: string): seq<string> {
    var parts := TopLevel(text);
    seq(|parts|, i requires 0 <= i < |parts| => Trim(parts[i]))
  }

  function CallOf(text: string): Option<Call> {
    var signature :- CallSignature(text);
    Some(Call(signature.name,
              Actuals(if signature.parameterText.Some? then signature.parameterText.value else ""),
              Actuals(signature.operandText)))
  }

  predicate Matches(d: Definition, call: Call) {
    |call.parameters| == |d.parameters| && |call.qubits| == |d.qubits|
  }

  /** A body statement at a call site. */
  function Instantiate(text: string, d: Definition, call: Call): string
    requires Matches(d, call)
  {
    Instance(text, d, call.parameters, call.qubits)
  }

  // ---------------------------------------------------------------- expansion as a function

  /** What a call leaves of the reader's state, and the spans it records; nothing when it is refused. */
  function Expand(scope: Scope, call: Call, depth: nat, program: Program): Option<Expansion>
    decreases if depth <= MAX_DEPTH then MAX_DEPTH + 1 - depth else 0, 1, 0
  {
    if depth > MAX_DEPTH || call.name !in scope.definitions then None
    else
      var d := scope.definitions[call.name];
      if !Matches(d, call) then None
      else
        var body := ExpandBody(scope, d, call, |d.body|, depth, program);
        if body.None? then None
        else Some(Expansion(body.value.program,
                            body.value.spans + [SpanOf(scope, call, depth, program, body.value.program)]))
  }

  function SpanOf(scope: Scope, call: Call, depth: nat, before: Program, after: Program): Span {
    Span(call.name, depth, |before.operations|, |after.operations|, call.qubits, call.parameters, scope.line)
  }

  /** The first n statements of a body. */
  function ExpandBody(scope: Scope, d: Definition, call: Call, n: nat, depth: nat, program: Program): Option<Expansion>
    requires Matches(d, call) && n <= |d.body| && depth <= MAX_DEPTH
    decreases MAX_DEPTH + 1 - depth, 0, n
  {
    if n == 0 then Some(Expansion(program, []))
    else
      var before := ExpandBody(scope, d, call, n - 1, depth, program);
      if before.None? then None
      else
        var last := ExpandStatement(scope, Instantiate(d.body[n - 1], d, call), depth, before.value.program);
        if last.None? then None else Some(Expansion(last.value.program, before.value.spans + last.value.spans))
  }

  /** A statement: a nested expansion when its text begins with a defined name, otherwise operations of the engine. */
  function ExpandStatement(scope: Scope, text: string, depth: nat, program: Program): Option<Expansion>
    requires depth <= MAX_DEPTH
    decreases MAX_DEPTH + 1 - depth, 0, 0
  {
    if LeadingIdentifier(text) in scope.definitions then
      var call := CallOf(text);
      if call.None? then None else Expand(scope, call.value, depth + 1, program)
    else Applied(scope, text, program)
  }

  function Applied(scope: Scope, text: string, program: Program): Option<Expansion> {
    var outcome := ApplyStatement(text, scope.line, program, scope.shown);
    if outcome.Continue? then Some(Expansion(outcome.program, [])) else None
  }

  /** The expansion of a call that is still a text. */
  function ExpandText(scope: Scope, text: string, depth: nat, program: Program): Option<Expansion> {
    var call := CallOf(text);
    if call.None? then None else Expand(scope, call.value, depth, program)
  }

  // ---------------------------------------------------------------- the expander

  class Context {
    const scope: Scope
    var program: Program
    var subcircuits: seq<Span>

    constructor (scope: Scope, program: Program, subcircuits: seq<Span>)
      ensures this.scope == scope && this.program == program && this.subcircuits == subcircuits
    {
      this.scope := scope;
      this.program := program;
      this.subcircuits := subcircuits;
    }

    /** The state has grown by an expansion. */
    ghost predicate Grown(subcircuitsBefore: seq<Span>, e: Expansion)
      reads this
    {
      program == e.program && subcircuits == subcircuitsBefore + e.spans
    }

    /** Reads a call, emits its operations, recursively, and records the span once its body is done. */
    method ExpandCustomGate(text: string, depth: nat) returns (accepted: bool)
      modifies this
      ensures accepted <==> ExpandText(scope, text, depth, old(program)).Some?
      ensures accepted ==> Grown(old(subcircuits), ExpandText(scope, text, depth, old(program)).value)
      decreases if depth <= MAX_DEPTH then MAX_DEPTH + 1 - depth else 0, 1
    {
      hide ExpandStatement, Instantiate, CallOf, LeadingIdentifier;
      if depth > MAX_DEPTH { return false; }
      var call := CallOf(text);
      if call.None? || call.value.name !in scope.definitions { return false; }
      var d := scope.definitions[call.value.name];
      if !Matches(d, call.value) { return false; }
      ghost var before := program;
      var start := |program.operations|;
      for n := 0 to |d.body|
        invariant ExpandBody(scope, d, call.value, n, depth, before).Some?
        invariant Grown(old(subcircuits), ExpandBody(scope, d, call.value, n, depth, before).value)
      {
        var statement := Substituted(d.body[n], d, call.value);
        ghost var spans := subcircuits;
        var done := Statement(statement, depth);
        if !done {
          BodyFails(scope, d, call.value, n, |d.body|, depth, before);
          return false;
        }
      }
      var span := Span(call.value.name, depth, start, |program.operations|, call.value.qubits, call.value.parameters,
                       scope.line);
      subcircuits := subcircuits + [span];
      return true;
    }

    method Statement(text: string, depth: nat) returns (accepted: bool)
      requires depth <= MAX_DEPTH
      modifies this
      ensures accepted <==> ExpandStatement(scope, text, depth, old(program)).Some?
      ensures accepted ==> Grown(old(subcircuits), ExpandStatement(scope, text, depth, old(program)).value)
      decreases MAX_DEPTH + 1 - depth, 0
    {
      hide Expand, CallOf, LeadingIdentifier, ApplyStatement;
      if LeadingIdentifier(text) in scope.definitions {
        accepted := ExpandCustomGate(text, depth + 1);
      } else {
        var outcome := ApplyStatement(text, scope.line, program, scope.shown);
        if !outcome.Continue? { return false; }
        program := outcome.program;
        return true;
      }
    }
  }

  method Substituted(text: string, d: Definition, call: Call) returns (result: string)
    requires Matches(d, call)
    ensures result == Instantiate(text, d, call)
  {
    hide Instance;
    result := SubstituteGateBody(text, d, call.qubits, call.parameters);
  }

  /** A refused statement refuses the whole body. */
  lemma {:induction false} BodyFails(
    scope: Scope, d: Definition, call: Call, n: nat, m: nat, depth: nat, program: Program)
    requires Matches(d, call) && n < m <= |d.body| && depth <= MAX_DEPTH
    requires var before := ExpandBody(scope, d, call, n, depth, program);
      before.Some? ==> ExpandStatement(scope, Instantiate(d.body[n], d, call), depth, before.value.program).None?
    ensures ExpandBody(scope, d, call, m, depth, program).None?
    decreases m
  {
    hide ExpandStatement, Instantiate;
    if n + 1 < m { BodyFails(scope, d, call, n, m - 1, depth, program); }
  }

  // ---------------------------------------------------------------- operations are only ever appended

  lemma {:induction false} EmitAllAppends(program: Program, operations: seq<SimpleOperation>)
    ensures program.operations <= EmitAll(program, operations).operations
    ensures |EmitAll(program, operations).operations| == |program.operations| + |operations|
    decreases |operations|
  {
    if |operations| > 0 { EmitAllAppends(Emit(program, operations[0]), operations[1..]); }
  }

  lemma AppliedAppends(scope: Scope, text: string, program: Program)
    requires Applied(scope, text, program).Some?
    ensures program.operations <= Applied(scope, text, program).value.program.operations
  {
    hide ParseOperation;
    var reading := ParseOperation(text, scope.line, program.qubits, program.clbits, scope.shown).value;
    EmitAllAppends(program.(qubits := reading.qubits, loss := program.loss + reading.loss), reading.operations);
  }

  lemma {:induction false} ExpandAppends(scope: Scope, call: Call, depth: nat, program: Program)
    requires Expand(scope, call, depth, program).Some?
    ensures program.operations <= Expand(scope, call, depth, program).value.program.operations
    decreases MAX_DEPTH + 1 - depth, 1, 0
  {
    var d := scope.definitions[call.name];
    BodyAppends(scope, d, call, |d.body|, depth, program);
  }

  lemma {:induction false} BodyAppends(scope: Scope, d: Definition, call: Call, n: nat, depth: nat, program: Program)
    requires Matches(d, call) && n <= |d.body| && depth <= MAX_DEPTH
      && ExpandBody(scope, d, call, n, depth, program).Some?
    ensures program.operations <= ExpandBody(scope, d, call, n, depth, program).value.program.operations
    decreases MAX_DEPTH + 1 - depth, 0, n
  {
    hide Instantiate, CallOf, Applied, LeadingIdentifier;
    if n > 0 {
      BodyAppends(scope, d, call, n - 1, depth, program);
      StatementAppends(scope, Instantiate(d.body[n - 1], d, call), depth,
                       ExpandBody(scope, d, call, n - 1, depth, program).value.program);
    }
  }

  lemma {:induction false} StatementAppends(scope: Scope, text: string, depth: nat, program: Program)
    requires depth <= MAX_DEPTH && ExpandStatement(scope, text, depth, program).Some?
    ensures program.operations <= ExpandStatement(scope, text, depth, program).value.program.operations
    decreases MAX_DEPTH + 1 - depth, 0, 0
  {
    hide CallOf, Applied, LeadingIdentifier;
    if LeadingIdentifier(text) in scope.definitions {
      ExpandAppends(scope, CallOf(text).value, depth + 1, program);
    } else {
      AppliedAppends(scope, text, program);
    }
  }

  // ---------------------------------------------------------------- spans

  /** Of two spans the earlier recorded one ends before the later begins, or lies inside it and is nested deeper. */
  predicate InOrder(earlier: Span, later: Span) {
    || earlier.end <= later.start
    || (later.start <= earlier.start && earlier.end <= later.end && later.depth < earlier.depth)
  }

  predicate Laminar(spans: seq<Span>) {
    forall i, j :: 0 <= i < j < |spans| ==> InOrder(spans[i], spans[j])
  }

  /** Every span lies in a range and at some depth or below it, within the bound. */
  predicate Within(spans: seq<Span>, start: nat, end: nat, depth: nat) {
    forall i :: 0 <= i < |spans| ==>
      start <= spans[i].start <= spans[i].end <= end && depth <= spans[i].depth <= MAX_DEPTH
  }

  lemma LaminarConcat(first: seq<Span>, second: seq<Span>, start: nat, middle: nat, end: nat, depth: nat)
    requires Laminar(first) && Laminar(second) && Within(first, start, middle, depth)
      && Within(second, middle, end, depth)
    requires start <= middle <= end
    ensures Laminar(first + second) && Within(first + second, start, end, depth)
  {
    var all := first + second;
    forall i, j | 0 <= i < j < |all| ensures InOrder(all[i], all[j]) {
      if j < |first| {
        assert all[i] == first[i] && all[j] == first[j];
      } else if i >= |first| {
        assert all[i] == second[i - |first|] && all[j] == second[j - |first|];
      } else {
        assert all[i] == first[i] && all[j] == second[j - |first|];
      }
    }
  }

  lemma LaminarEnclosed(spans: seq<Span>, outer: Span)
    requires Laminar(spans) && Within(spans, outer.start, outer.end, outer.depth + 1)
    requires outer.start <= outer.end && outer.depth <= MAX_DEPTH
    ensures Laminar(spans + [outer]) && Within(spans + [outer], outer.start, outer.end, outer.depth)
  {
  }

  lemma ExpandIs(scope: Scope, call: Call, depth: nat, program: Program)
    requires Expand(scope, call, depth, program).Some?
    ensures depth <= MAX_DEPTH && call.name in scope.definitions && Matches(scope.definitions[call.name], call)
    ensures var body :=
      ExpandBody(scope, scope.definitions[call.name], call, |scope.definitions[call.name].body|, depth, program);
      && body.Some?
      && Expand(scope, call, depth, program).value
         == Expansion(body.value.program, body.value.spans + [SpanOf(scope, call, depth, program, body.value.program)])
  {
    hide ExpandBody;
  }

  /** The spans of an expansion are laminar, in post-order, and end with that of the call itself. */
  lemma {:induction false} SpansAreLaminar(scope: Scope, call: Call, depth: nat, program: Program)
    requires Expand(scope, call, depth, program).Some?
    ensures var e := Expand(scope, call, depth, program).value;
      && Laminar(e.spans) && Within(e.spans, |program.operations|, |e.program.operations|, depth)
      && |e.spans| > 0 && e.spans[|e.spans| - 1] == SpanOf(scope, call, depth, program, e.program)
    decreases MAX_DEPTH + 1 - depth, 1, 0
  {
    ExpandIs(scope, call, depth, program);
    hide Laminar, Within, Expand, ExpandBody;
    var d := scope.definitions[call.name];
    BodyIsLaminar(scope, d, call, |d.body|, depth, program);
    BodyAppends(scope, d, call, |d.body|, depth, program);
    var body := ExpandBody(scope, d, call, |d.body|, depth, program).value;
    LaminarEnclosed(body.spans, SpanOf(scope, call, depth, program, body.program));
  }

  lemma {:induction false} BodyIsLaminar(scope: Scope, d: Definition, call: Call, n: nat, depth: nat, program: Program)
    requires Matches(d, call) && n <= |d.body| && depth <= MAX_DEPTH
      && ExpandBody(scope, d, call, n, depth, program).Some?
    ensures var e := ExpandBody(scope, d, call, n, depth, program).value;
      Laminar(e.spans) && Within(e.spans, |program.operations|, |e.program.operations|, depth + 1)
    decreases MAX_DEPTH + 1 - depth, 0, n
  {
    hide Instantiate, Laminar, Within, ExpandStatement;
    if n > 0 {
      BodyIsLaminar(scope, d, call, n - 1, depth, program);
      var before := ExpandBody(scope, d, call, n - 1, depth, program).value;
      var text := Instantiate(d.body[n - 1], d, call);
      StatementIsLaminar(scope, text, depth, before.program);
      BodyAppends(scope, d, call, n - 1, depth, program);
      StatementAppends(scope, text, depth, before.program);
      var last := ExpandStatement(scope, text, depth, before.program).value;
      LaminarConcat(before.spans, last.spans, |program.operations|, |before.program.operations|,
                    |last.program.operations|, depth + 1);
    } else {
      NoSpans(|program.operations|, depth + 1);
    }
  }

  lemma {:induction false} StatementIsLaminar(scope: Scope, text: string, depth: nat, program: Program)
    requires depth <= MAX_DEPTH && ExpandStatement(scope, text, depth, program).Some?
    ensures var e := ExpandStatement(scope, text, depth, program).value;
      Laminar(e.spans) && Within(e.spans, |program.operations|, |e.program.operations|, depth + 1)
    decreases MAX_DEPTH + 1 - depth, 0, 0
  {
    hide CallOf, LeadingIdentifier, Laminar, Within, ApplyStatement;
    if LeadingIdentifier(text) in scope.definitions {
      SpansAreLaminar(scope, CallOf(text).value, depth + 1, program);
    } else {
      NoSpans(|program.operations|, depth + 1);
    }
  }

  lemma NoSpans(at: nat, depth: nat)
    ensures Laminar([]) && forall end :: Within([], at, end, depth)
  {
  }

  /** A call that an expansion makes, with the states of the reader it begins and ends in. */
  datatype Visit = Visit(scope: Scope, call: Call, depth: nat, before: Program, after: Program)

  /**
   * The calls of an expansion in the order they end: those of its statements, each from the state reached, then itself.
   */
  ghost function Visits(scope: Scope, call: Call, depth: nat, program: Program): seq<Visit>
    requires Expand(scope, call, depth, program).Some?
    decreases MAX_DEPTH + 1 - depth, 1, 0
  {
    var d := scope.definitions[call.name];
    BodyVisits(scope, d, call, |d.body|, depth, program)
      + [Visit(scope, call, depth, program, Expand(scope, call, depth, program).value.program)]
  }

  ghost function BodyVisits(scope: Scope, d: Definition, call: Call, n: nat, depth: nat, program: Program): seq<Visit>
    requires Matches(d, call) && n <= |d.body| && depth <= MAX_DEPTH
      && ExpandBody(scope, d, call, n, depth, program).Some?
    decreases MAX_DEPTH + 1 - depth, 0, n
  {
    if n == 0 then []
    else
      var reached := ExpandBody(scope, d, call, n - 1, depth, program).value.program;
      BodyVisits(scope, d, call, n - 1, depth, program)
        + StatementVisits(scope, Instantiate(d.body[n - 1], d, call), depth, reached)
  }

  ghost function StatementVisits(scope: Scope, text: string, depth: nat, program: Program): seq<Visit>
    requires depth <= MAX_DEPTH && ExpandStatement(scope, text, depth, program).Some?
    decreases MAX_DEPTH + 1 - depth, 0, 0
  {
    if LeadingIdentifier(text) in scope.definitions then Visits(scope, CallOf(text).value, depth + 1, program) else []
  }

  ghost function SpansOf(visits: seq<Visit>): (spans: seq<Span>)
    ensures |spans| == |visits|
  {
    seq(|visits|, i requires 0 <= i < |visits| =>
      SpanOf(visits[i].scope, visits[i].call, visits[i].depth, visits[i].before, visits[i].after))
  }

  lemma SpansConcat(first: seq<Visit>, second: seq<Visit>)
    ensures SpansOf(first + second) == SpansOf(first) + SpansOf(second)
  {
  }

  /** Expanding the call from where it begins ends where it ends, inside a run of the reader between two states. */
  ghost predicate IsMade(visit: Visit, first: Program, last: Program) {
    var e := Expand(visit.scope, visit.call, visit.depth, visit.before);
    && e.Some? && e.value.program == visit.after
    && first.operations <= visit.before.operations <= visit.after.operations <= last.operations
  }

  ghost predicate AreMade(visits: seq<Visit>, first: Program, last: Program) {
    forall i :: 0 <= i < |visits| ==> IsMade(visits[i], first, last)
  }

  lemma MadeConcat(one: seq<Visit>, two: seq<Visit>, first: Program, middle: Program, last: Program)
    requires AreMade(one, first, middle) && AreMade(two, middle, last)
    requires first.operations <= middle.operations <= last.operations
    ensures AreMade(one + two, first, last)
  {
    hide Expand;
    var all := one + two;
    forall i | 0 <= i < |all| ensures IsMade(all[i], first, last) {
      if i < |one| {
        assert IsMade(one[i], first, middle);
      } else {
        assert IsMade(two[i - |one|], middle, last);
      }
    }
  }

  /** The operations in the range of a call's span are the ones its expansion appended. */
  lemma RangeIsExpansion(visit: Visit, first: Program, last: Program)
    requires IsMade(visit, first, last)
    ensures var span := SpanOf(visit.scope, visit.call, visit.depth, visit.before, visit.after);
      && span.start <= span.end <= |last.operations|
      && last.operations[span.start..span.end] == visit.after.operations[|visit.before.operations|..]
  {
    hide Expand;
  }

  /**
   * The spans are those of the calls made, one for one, each the expansion of its call from the state reached there.
   */
  lemma {:induction false} SpansCoverTheirCalls(scope: Scope, call: Call, depth: nat, program: Program)
    requires Expand(scope, call, depth, program).Some?
    ensures var e := Expand(scope, call, depth, program).value;
      && e.spans == SpansOf(Visits(scope, call, depth, program))
      && AreMade(Visits(scope, call, depth, program), program, e.program)
    decreases MAX_DEPTH + 1 - depth, 1, 0
  {
    ExpandIs(scope, call, depth, program);
    var d, e := scope.definitions[call.name], Expand(scope, call, depth, program).value;
    var own := Visit(scope, call, depth, program, e.program);
    BodyCovers(scope, d, call, |d.body|, depth, program);
    BodyAppends(scope, d, call, |d.body|, depth, program);
    VisitsEnd(scope, call, depth, program);
    hide Expand, ExpandBody, Visits;
    var body := BodyVisits(scope, d, call, |d.body|, depth, program);
    SpansConcat(body, [own]);
    assert SpansOf([own]) == [SpanOf(scope, call, depth, program, e.program)];
    OwnIsMade(own);
    MadeAfter(body, own, program);
  }

  lemma VisitsEnd(scope: Scope, call: Call, depth: nat, program: Program)
    requires Expand(scope, call, depth, program).Some?
    ensures depth <= MAX_DEPTH && call.name in scope.definitions && Matches(scope.definitions[call.name], call)
    ensures var d := scope.definitions[call.name];
      && ExpandBody(scope, d, call, |d.body|, depth, program).Some?
      && Visits(scope, call, depth, program)
         == BodyVisits(scope, d, call, |d.body|, depth, program)
            + [Visit(scope, call, depth, program, Expand(scope, call, depth, program).value.program)]
  {
    hide ExpandBody, BodyVisits;
  }

  lemma OwnIsMade(own: Visit)
    requires Expand(own.scope, own.call, own.depth, own.before).Some?
    requires own.after == Expand(own.scope, own.call, own.depth, own.before).value.program
    ensures IsMade(own, own.before, own.after)
  {
    ExpandAppends(own.scope, own.call, own.depth, own.before);
    hide Expand;
  }

  lemma MadeAfter(body: seq<Visit>, own: Visit, first: Program)
    requires AreMade(body, first, own.after) && IsMade(own, first, own.after)
    ensures AreMade(body + [own], first, own.after)
  {
    hide IsMade;
  }

  lemma {:induction false} BodyCovers(scope: Scope, d: Definition, call: Call, n: nat, depth: nat, program: Program)
    requires Matches(d, call) && n <= |d.body| && depth <= MAX_DEPTH
      && ExpandBody(scope, d, call, n, depth, program).Some?
    ensures var e := ExpandBody(scope, d, call, n, depth, program).value;
      && e.spans == SpansOf(BodyVisits(scope, d, call, n, depth, program))
      && AreMade(BodyVisits(scope, d, call, n, depth, program), program, e.program)
    decreases MAX_DEPTH + 1 - depth, 0, n
  {
    hide Instantiate, ExpandStatement, StatementVisits, IsMade;
    if n > 0 {
      BodyCovers(scope, d, call, n - 1, depth, program);
      var before := ExpandBody(scope, d, call, n - 1, depth, program).value;
      var text := Instantiate(d.body[n - 1], d, call);
      StatementCovers(scope, text, depth, before.program);
      BodyAppends(scope, d, call, n - 1, depth, program);
      StatementAppends(scope, text, depth, before.program);
      var last := ExpandStatement(scope, text, depth, before.program).value;
      var one, two := BodyVisits(scope, d, call, n - 1, depth, program),
        StatementVisits(scope, text, depth, before.program);
      hide AreMade;
      SpansConcat(one, two);
      MadeConcat(one, two, program, before.program, last.program);
    }
  }

  lemma {:induction false} StatementCovers(scope: Scope, text: string, depth: nat, program: Program)
    requires depth <= MAX_DEPTH && ExpandStatement(scope, text, depth, program).Some?
    ensures var e := ExpandStatement(scope, text, depth, program).value;
      && e.spans == SpansOf(StatementVisits(scope, text, depth, program))
      && AreMade(StatementVisits(scope, text, depth, program), program, e.program)
    decreases MAX_DEPTH + 1 - depth, 0, 0
  {
    hide CallOf, LeadingIdentifier, ApplyStatement, IsMade;
    if LeadingIdentifier(text) in scope.definitions {
      SpansCoverTheirCalls(scope, CallOf(text).value, depth + 1, program);
    }
  }

  // ---------------------------------------------------------------- names that substitution keeps

  /** The statement begins with a name, and no formal begins with that name, nor with anything but a name. */
  predicate KeepsItsName(d: Definition, text: string) {
    && LeadingIdentifier(text) != ""
    && (forall i :: 0 <= i < |d.parameters| ==> LeadingIdentifier(d.parameters[i]) !in {"", LeadingIdentifier(text)})
    && forall i :: 0 <= i < |d.qubits| ==> LeadingIdentifier(d.qubits[i]) !in {"", LeadingIdentifier(text)}
  }

  lemma LeadFacts(s: string)
    requires LeadingIdentifier(s) != ""
    ensures var n := |LeadingIdentifier(s)|;
      && 0 < n <= |s| && s[..n] == LeadingIdentifier(s) && IsLetter(s[0])
      && (forall i :: 0 <= i < n ==> IsWord(s[i])) && (n < |s| ==> !IsWord(s[n]))
  {
    WordEnds(s);
  }

  lemma LeadIs(s: string, n: nat)
    requires 0 < n <= |s| && IsLetter(s[0]) && (forall i :: 0 <= i < n ==> IsWord(s[i])) && (n < |s| ==> !IsWord(s[n]))
    ensures LeadingIdentifier(s) == s[..n]
  {
    WordEnds(s);
    LetterIsWord(s);
  }

  lemma LetterIsWord(s: string)
    requires |s| > 0 && IsLetter(s[0])
    ensures IdentifierLength(s) == WordLength(s)
  {
  }

  lemma NotInName(s: string, formal: Formal, i: nat)
    requires LeadingIdentifier(s) != "" && LeadingIdentifier(formal) !in {"", LeadingIdentifier(s)}
    requires i <= |LeadingIdentifier(s)|
    ensures !Occurs(s, formal, i)
  {
    hide LeadingIdentifier;
    LeadFacts(s);
    LeadFacts(formal);
    var n := |LeadingIdentifier(s)|;
    if i == n {
      if i + |formal| <= |s| { assert s[i..i + |formal|][0] == s[i]; }
    } else if i > 0 {
      assert WordAt(s, i - 1) && WordAt(s, i);
    } else if |formal| < n {
      assert WordAt(s, |formal|) && WordAt(s, |formal| - 1);
    } else if |formal| <= |s| {
      SameLead(s, formal);
    }
  }

  lemma SameLead(s: string, formal: string)
    requires LeadingIdentifier(s) != "" && |LeadingIdentifier(s)| <= |formal| <= |s|
    ensures s[0..|formal|] == formal ==> LeadingIdentifier(formal) == LeadingIdentifier(s)
  {
    hide LeadingIdentifier;
    LeadFacts(s);
    var n := |LeadingIdentifier(s)|;
    if s[0..|formal|] == formal {
      forall i | 0 <= i < |formal| ensures formal[i] == s[i] { assert s[0..|formal|][i] == s[i]; }
      assert formal[..n] == s[..n];
      LeadIs(formal, n);
    }
  }

  lemma {:induction false} NameCopied(s: string, formal: Formal, actual: string, i: nat)
    requires LeadingIdentifier(s) != "" && LeadingIdentifier(formal) !in {"", LeadingIdentifier(s)}
    requires i <= |LeadingIdentifier(s)|
    ensures |LeadingIdentifier(s)| <= |s|
    ensures ReplaceFrom(s, formal, actual, i)
         == s[i..|LeadingIdentifier(s)|] + ReplaceFrom(s, formal, actual, |LeadingIdentifier(s)|)
    decreases |s| - i
  {
    hide LeadingIdentifier, Occurs, ReplaceFrom;
    LeadFacts(s);
    var n := |LeadingIdentifier(s)|;
    if i < n {
      NotInName(s, formal, i);
      CharCopied(s, formal, actual, i);
      NameCopied(s, formal, actual, i + 1);
      assert s[i..n] == [s[i]] + s[i + 1..n];
    }
  }

  lemma OneKeepsName(s: string, formal: Formal, actual: string)
    requires LeadingIdentifier(s) != "" && LeadingIdentifier(formal) !in {"", LeadingIdentifier(s)}
    ensures LeadingIdentifier(ReplaceWord(s, formal, actual)) == LeadingIdentifier(s)
  {
    hide LeadingIdentifier, Occurs;
    LeadFacts(s);
    var n := |LeadingIdentifier(s)|;
    NameCopied(s, formal, actual, 0);
    NotInName(s, formal, n);
    var rest := ReplaceFrom(s, formal, actual, n);
    assert n < |s| ==> rest[0] == s[n];
    assert n == |s| ==> rest == "";
    var replaced := ReplaceWord(s, formal, actual);
    assert replaced == s[..n] + rest;
    LeadIs(replaced, n);
  }

  lemma {:induction false} AllKeepName(s: string, formals: seq<Formal>, actuals: seq<string>)
    requires |formals| == |actuals| && LeadingIdentifier(s) != ""
    requires forall i :: 0 <= i < |formals| ==> LeadingIdentifier(formals[i]) !in {"", LeadingIdentifier(s)}
    ensures LeadingIdentifier(ReplaceAll(s, formals, actuals)) == LeadingIdentifier(s)
    decreases |formals|
  {
    hide LeadingIdentifier, ReplaceWord;
    if |formals| > 0 {
      OneKeepsName(s, formals[0], actuals[0]);
      AllKeepName(ReplaceWord(s, formals[0], actuals[0]), formals[1..], actuals[1..]);
    }
  }

  lemma NameIsKept(text: string, d: Definition, call: Call)
    requires Matches(d, call) && KeepsItsName(d, text)
    ensures LeadingIdentifier(Instantiate(text, d, call)) == LeadingIdentifier(text)
  {
    hide LeadingIdentifier, ReplaceAll;
    AllKeepName(text, d.parameters + d.qubits, Bracketed(call.parameters) + call.qubits);
  }

  // ---------------------------------------------------------------- which definitions expand

  /** The definition of a name calls one of some names, under a name that substitution keeps. */
  ghost predicate CallsInto(defs: map<string, Definition>, name: string, names: set<string>) {
    name in defs && exists k :: 0 <= k < |defs[name].body| && IsCallTo(defs[name], k, names)
  }

  predicate IsCallTo(d: Definition, k: nat, names: set<string>)
    requires k < |d.body|
  {
    LeadingIdentifier(d.body[k]) in names && KeepsItsName(d, d.body[k])
  }

  /** Definitions that call one another in a circle. */
  ghost predicate IsCycle(defs: map<string, Definition>, names: set<string>) {
    forall name :: name in names ==> CallsInto(defs, name, names)
  }

  /** Whatever calls into a circle of definitions is refused, at any depth: never approximated, never endless. */
  lemma {:induction false} CyclesAreRefused(scope: Scope, names: set<string>, call: Call, depth: nat, program: Program)
    requires IsCycle(scope.definitions, names) && call.name in names
    ensures Expand(scope, call, depth, program).None?
    decreases if depth <= MAX_DEPTH then MAX_DEPTH + 1 - depth else 0
  {
    hide IsCycle, Instantiate, KeepsItsName, LeadingIdentifier, CallOf, Applied;
    var defs := scope.definitions;
    if depth <= MAX_DEPTH && call.name in defs && Matches(defs[call.name], call) {
      var d := defs[call.name];
      var k := NextInCycle(defs, names, call.name);
      var text := Instantiate(d.body[k], d, call);
      NameIsKept(d.body[k], d, call);
      CycleIsDefined(defs, names, LeadingIdentifier(text));
      var before := ExpandBody(scope, d, call, k, depth, program);
      if before.Some? && CallOf(text).Some? {
        CallHasName(text);
        CyclesAreRefused(scope, names, CallOf(text).value, depth + 1, before.value.program);
      }
      hide ExpandBody;
      BodyFails(scope, d, call, k, |d.body|, depth, program);
    }
  }

  lemma CallHasName(text: string)
    requires CallOf(text).Some?
    ensures CallOf(text).value.name == LeadingIdentifier(text)
  {
    hide Actuals, ClosesAt, Trim;
  }

  lemma NextInCycle(defs: map<string, Definition>, names: set<string>, name: string) returns (k: nat)
    requires IsCycle(defs, names) && name in names
    ensures name in defs && k < |defs[name].body| && IsCallTo(defs[name], k, names)
  {
    assert CallsInto(defs, name, names);
    hide IsCycle, IsCallTo;
    k :| 0 <= k < |defs[name].body| && IsCallTo(defs[name], k, names);
  }

  lemma CycleIsDefined(defs: map<string, Definition>, names: set<string>, name: string)
    requires IsCycle(defs, names) && name in names
    ensures name in defs
  {
  }

  /** Definitions whose statements keep their names and only call definitions of smaller height. */
  ghost predicate IsRanked(defs: map<string, Definition>, height: string -> nat) {
    forall name, k :: name in defs && 0 <= k < |defs[name].body| ==> IsLower(defs, height, name, defs[name].body[k])
  }

  predicate IsLower(defs: map<string, Definition>, height: string -> nat, name: string, text: string)
    requires name in defs
  {
    && KeepsItsName(defs[name], text)
    && (LeadingIdentifier(text) in defs ==> height(LeadingIdentifier(text)) < height(name))
  }

  /** A statement of a definition, after substitution. */
  ghost function StatementAt(scope: Scope, call: Call, k: nat): string
    requires call.name in scope.definitions && Matches(scope.definitions[call.name], call)
    requires k < |scope.definitions[call.name].body|
  {
    Instantiate(scope.definitions[call.name].body[k], scope.definitions[call.name], call)
  }

  /** The call it makes to another definition, of smaller height. */
  ghost function NestedCall(scope: Scope, height: string -> nat, call: Call, k: nat): (nested: Option<Call>)
    requires IsRanked(scope.definitions, height)
    requires call.name in scope.definitions && Matches(scope.definitions[call.name], call)
    requires k < |scope.definitions[call.name].body|
    ensures nested.Some? ==> height(nested.value.name) < height(call.name)
  {
    StaysLower(scope, height, call, k);
    if LeadingIdentifier(StatementAt(scope, call, k)) in scope.definitions then CallOf(StatementAt(scope, call, k))
      else None
  }

  lemma StaysLower(scope: Scope, height: string -> nat, call: Call, k: nat)
    requires IsRanked(scope.definitions, height)
    requires call.name in scope.definitions && Matches(scope.definitions[call.name], call)
    requires k < |scope.definitions[call.name].body|
    ensures var text := StatementAt(scope, call, k);
      LeadingIdentifier(text) in scope.definitions && CallOf(text).Some? ==>
        height(CallOf(text).value.name) < height(call.name)
  {
    hide Instantiate, LeadingIdentifier, KeepsItsName, CallOf;
    var d := scope.definitions[call.name];
    assert IsLower(scope.definitions, height, call.name, d.body[k]);
    NameIsKept(d.body[k], d, call);
    var text := StatementAt(scope, call, k);
    if CallOf(text).Some? { CallHasName(text); }
  }

  /** The expansion without a bound on its depth, which stops where the heights do. */
  ghost function Unbounded(
    scope: Scope, height: string -> nat, call: Call, depth: nat, program: Program): Option<Expansion>
    requires IsRanked(scope.definitions, height)
    decreases height(call.name), if call.name in scope.definitions then |scope.definitions[call.name].body| + 2 else 0
  {
    if call.name !in scope.definitions || !Matches(scope.definitions[call.name], call) then None
    else
      var body := UnboundedBody(scope, height, call, |scope.definitions[call.name].body|, depth, program);
      if body.None? then None
      else Some(Expansion(body.value.program,
                          body.value.spans + [SpanOf(scope, call, depth, program, body.value.program)]))
  }

  ghost function UnboundedBody(scope: Scope, height: string -> nat, call: Call, n: nat, depth: nat, program: Program)
    : Option<Expansion>
    requires IsRanked(scope.definitions, height)
    requires call.name in scope.definitions && Matches(scope.definitions[call.name], call)
    requires n <= |scope.definitions[call.name].body|
    decreases height(call.name), n + 1
  {
    if n == 0 then Some(Expansion(program, []))
    else
      var before := UnboundedBody(scope, height, call, n - 1, depth, program);
      if before.None? then None
      else
        var last := UnboundedStatement(scope, height, call, n - 1, depth, before.value.program);
        if last.None? then None else Some(Expansion(last.value.program, before.value.spans + last.value.spans))
  }

  ghost function UnboundedStatement(
    scope: Scope, height: string -> nat, call: Call, k: nat, depth: nat, program: Program)
    : Option<Expansion>
    requires IsRanked(scope.definitions, height)
    requires call.name in scope.definitions && Matches(scope.definitions[call.name], call)
    requires k < |scope.definitions[call.name].body|
    decreases height(call.name), 0
  {
    var nested := NestedCall(scope, height, call, k);
    if LeadingIdentifier(StatementAt(scope, call, k)) !in scope.definitions then
      Applied(scope, StatementAt(scope, call, k), program)
    else if nested.None? then None
    else Unbounded(scope, height, nested.value, depth + 1, program)
  }

  /** A call that is nested too deep is refused. */
  lemma DepthIsBounded(scope: Scope, call: Call, depth: nat, program: Program)
    ensures depth > 32 ==> Expand(scope, call, depth, program).None?
    ensures Expand(scope, call, depth, program).Some? ==>
      forall k :: 0 <= k < |Expand(scope, call, depth, program).value.spans| ==>
        depth <= Expand(scope, call, depth, program).value.spans[k].depth <= 32
  {
    hide ExpandBody;
    if Expand(scope, call, depth, program).Some? { SpansAreLaminar(scope, call, depth, program); }
  }

  /** A call whose height fits under the depth bound expands, or is refused, exactly as without a bound. */
  lemma {:induction false} RankedCallsExpand(
    scope: Scope, height: string -> nat, call: Call, depth: nat, program: Program)
    requires IsRanked(scope.definitions, height) && depth + height(call.name) <= 32
    ensures Expand(scope, call, depth, program) == Unbounded(scope, height, call, depth, program)
    decreases height(call.name), if call.name in scope.definitions then |scope.definitions[call.name].body| + 1 else 0
  {
    hide IsRanked;
    if call.name in scope.definitions && Matches(scope.definitions[call.name], call) {
      RankedBodiesExpand(scope, height, call, |scope.definitions[call.name].body|, depth, program);
    }
  }

  lemma {:induction false} RankedBodiesExpand(
    scope: Scope, height: string -> nat, call: Call, n: nat, depth: nat, program: Program)
    requires IsRanked(scope.definitions, height)
    requires call.name in scope.definitions && Matches(scope.definitions[call.name], call)
    requires depth + height(call.name) <= MAX_DEPTH && n <= |scope.definitions[call.name].body|
    ensures ExpandBody(scope, scope.definitions[call.name], call, n, depth, program)
         == UnboundedBody(scope, height, call, n, depth, program)
    decreases height(call.name), n
  {
    hide IsRanked, Instantiate, ExpandStatement, UnboundedStatement;
    if n > 0 {
      RankedBodiesExpand(scope, height, call, n - 1, depth, program);
      var before := ExpandBody(scope, scope.definitions[call.name], call, n - 1, depth, program);
      if before.Some? { RankedStatementExpands(scope, height, call, n - 1, depth, before.value.program); }
    }
  }

  lemma {:induction false} RankedStatementExpands(
    scope: Scope, height: string -> nat, call: Call, k: nat, depth: nat, program: Program)
    requires IsRanked(scope.definitions, height)
    requires call.name in scope.definitions && Matches(scope.definitions[call.name], call)
    requires depth + height(call.name) <= MAX_DEPTH && k < |scope.definitions[call.name].body|
    ensures ExpandStatement(scope, StatementAt(scope, call, k), depth, program)
         == UnboundedStatement(scope, height, call, k, depth, program)
    decreases height(call.name), 0
  {
    hide IsRanked, Instantiate, LeadingIdentifier, CallOf, Applied, Expand, Unbounded;
    var nested := NestedCall(scope, height, call, k);
    if nested.Some? { RankedCallsExpand(scope, height, nested.value, depth + 1, program); }
  }
}
