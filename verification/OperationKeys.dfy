/** The key a diff aligns operations by (src/circuit/diff.ts:58-100): which operations have the same one. */
module OperationKeys {
  import opened Options
  import opened QasmReader
  import opened QasmWriter
  import opened QasmLexing
  import opened CircuitDiff

  function KeyOfBit(bit: Bit): string {
    bit.register + "[" + Decimal(bit.index) + "]"
  }

  /** A list with commas between its entries and no spaces. */
  function Commas(parts: seq<string>): string {
    if |parts| == 0 then "" else if |parts| == 1 then parts[0] else parts[0] + "," + Commas(parts[1..])
  }

  function KeysOfBits(bits: seq<Bit>): seq<string> {
    seq(|bits|, i requires 0 <= i < |bits| => KeyOfBit(bits[i]))
  }

  function TextsOf(parameters: seq<Parameter>): seq<string> {
    seq(|parameters|, i requires 0 <= i < |parameters| => parameters[i].text)
  }

  function KeyOfSimple(operation: SimpleOperation): string {
    match operation
    case Gate(name, parameters, qubits) =>
      "gate:" + name + "(" + Commas(TextsOf(parameters)) + "):" + Commas(KeysOfBits(qubits))
    case Measure(qubit, clbit) => "measure:" + KeyOfBit(qubit) + "->" + KeyOfBit(clbit)
    case Reset(qubit) => "reset:" + KeyOfBit(qubit)
    case Barrier(qubits) => "barrier:" + Commas(KeysOfBits(qubits))
  }

  /** What a condition tests. */
  function KeyOfTest(condition: Condition): string {
    condition.register + if condition.bit.Some? then "[" + Decimal(condition.bit.value) + "]" else ""
  }

  /** `if(register==value):` and the key of the body. */
  function OperationKey(operation: Operation): string {
    match operation
    case Plain(simple) => KeyOfSimple(simple)
    case Conditional(condition, body) =>
      "if(" + KeyOfTest(condition) + "==" + Decimal(condition.equals) + "):" + KeyOfSimple(body)
  }

  /** The name counts are kept under: that of a gate, and otherwise the kind. */
  function NameOf(operation: Operation): string {
    match operation
    case Plain(Gate(name, _, _)) => name
    case Plain(Measure(_, _)) => "measure"
    case Plain(Reset(_)) => "reset"
    case Plain(Barrier(_)) => "barrier"
    case Conditional(_, _) => "conditional"
  }

  // ---------------------------------------------------------------- names without punctuation

  /** A register: word characters, or the dollar sign of the hardware register. */
  predicate IsRegisterName(s: string) {
    |s| > 0 && forall i :: 0 <= i < |s| ==> IsWord(s[i]) || s[i] == '$'
  }

  predicate AreNamed(bits: seq<Bit>) {
    forall i :: 0 <= i < |bits| ==> IsRegisterName(bits[i].register)
  }

  predicate Lacks(s: string, c: char) {
    forall i :: 0 <= i < |s| ==> s[i] != c
  }

  predicate IsWellNamedSimple(operation: SimpleOperation) {
    match operation
    case Gate(name, _, qubits) => Lacks(name, '(') && AreNamed(qubits)
    case Measure(qubit, clbit) => IsRegisterName(qubit.register) && IsRegisterName(clbit.register)
    case Reset(qubit) => IsRegisterName(qubit.register)
    case Barrier(qubits) => AreNamed(qubits)
  }

  predicate IsWellNamed(operation: Operation) {
    match operation
    case Plain(simple) => IsWellNamedSimple(simple)
    case Conditional(condition, body) => IsRegisterName(condition.register) && IsWellNamedSimple(body)
  }

  // ---------------------------------------------------------------- taking keys apart

  /** A character that a text lacks comes no sooner than behind it. */
  lemma NotSooner(a: string, x: string, b: string, y: string, c: char)
    requires Lacks(b, c) && a + [c] + x == b + [c] + y
    ensures |a| >= |b|
  {
    assert (a + [c] + x)[|a|] == c;
    assert forall i :: 0 <= i < |b| ==> (b + [c] + y)[i] == b[i];
  }

  /** The first of a character splits a text one way only. */
  lemma FirstSplits(a: string, x: string, b: string, y: string, c: char)
    requires Lacks(a, c) && Lacks(b, c) && a + [c] + x == b + [c] + y
    ensures a == b && x == y
  {
    var s, t := a + [c] + x, b + [c] + y;
    NotSooner(a, x, b, y, c);
    NotSooner(b, y, a, x, c);
    assert s[..|a|] == a && t[..|b|] == b && s[|a| + 1..] == x && t[|b| + 1..] == y;
  }

  lemma NotLater(x: string, a: string, y: string, b: string, c: char)
    requires Lacks(b, c) && x + [c] + a == y + [c] + b
    ensures |x| <= |y|
  {
    assert (x + [c] + a)[|x|] == c;
    assert forall i :: |y| < i < |y + [c] + b| ==> (y + [c] + b)[i] == b[i - |y| - 1];
  }

  /** So does the last. */
  lemma LastSplits(x: string, a: string, y: string, b: string, c: char)
    requires Lacks(a, c) && Lacks(b, c) && x + [c] + a == y + [c] + b
    ensures a == b && x == y
  {
    var s, t := x + [c] + a, y + [c] + b;
    NotLater(x, a, y, b, c);
    NotLater(y, b, x, a, c);
    assert s[..|x|] == x && t[..|y|] == y && s[|x| + 1..] == a && t[|y| + 1..] == b;
  }

  lemma DigitsLack(n: nat, c: char)
    requires !IsDigit(c)
    ensures Lacks(Decimal(n), c)
  {
    DecimalReads(n);
  }

  lemma DecimalIsInjective(m: nat, n: nat)
    requires Decimal(m) == Decimal(n)
    ensures m == n
  {
    NumberReads(m, "");
    NumberReads(n, "");
  }

  lemma RegisterLacks(register: string, c: char)
    requires IsRegisterName(register) && !IsWord(c) && c != '$'
    ensures Lacks(register, c)
  {
  }

  lemma BitLacks(bit: Bit, c: char)
    requires IsRegisterName(bit.register) && !IsWord(c) && c !in {'$', '[', ']'}
    ensures Lacks(KeyOfBit(bit), c)
  {
    RegisterLacks(bit.register, c);
    DigitsLack(bit.index, c);
  }

  lemma BitIsInjective(x: Bit, y: Bit)
    requires IsRegisterName(x.register) && IsRegisterName(y.register) && KeyOfBit(x) == KeyOfBit(y)
    ensures x == y
  {
    hide Decimal, IsRegisterName;
    RegisterLacks(x.register, '[');
    RegisterLacks(y.register, '[');
    var d, e := Decimal(x.index) + "]", Decimal(y.index) + "]";
    assert KeyOfBit(x) == x.register + ['['] + d && KeyOfBit(y) == y.register + ['['] + e;
    FirstSplits(x.register, d, y.register, e, '[');
    assert d[..|d| - 1] == Decimal(x.index) && e[..|e| - 1] == Decimal(y.index);
    DecimalIsInjective(x.index, y.index);
  }

  lemma {:induction false} CommasLack(parts: seq<string>, c: char)
    requires c != ',' && forall i :: 0 <= i < |parts| ==> Lacks(parts[i], c)
    ensures Lacks(Commas(parts), c)
    decreases |parts|
  {
    if |parts| > 1 { CommasLack(parts[1..], c); }
  }

  lemma BitsLack(bits: seq<Bit>, c: char)
    requires AreNamed(bits) && !IsWord(c) && c !in {'$', '[', ']', ','}
    ensures Lacks(Commas(KeysOfBits(bits)), c)
  {
    hide KeyOfBit, Commas, Lacks, IsRegisterName;
    forall i | 0 <= i < |bits| ensures Lacks(KeysOfBits(bits)[i], c) { BitLacks(bits[i], c); }
    CommasLack(KeysOfBits(bits), c);
  }

  /** Entries that are never empty and hold no comma can be told apart. */
  predicate AreParts(parts: seq<string>) {
    forall i :: 0 <= i < |parts| ==> |parts[i]| > 0 && Lacks(parts[i], ',')
  }

  /** A list holds a comma or is empty, unless it has one entry. */
  lemma OneOrMore(parts: seq<string>)
    requires AreParts(parts)
    ensures |Commas(parts)| == 0 <==> |parts| == 0
    ensures Lacks(Commas(parts), ',') <==> |parts| <= 1
  {
    assert |parts| > 1 ==> Commas(parts)[|parts[0]|] == ',';
  }

  lemma {:induction false} CommasAreInjective(a: seq<string>, b: seq<string>)
    requires AreParts(a) && AreParts(b) && Commas(a) == Commas(b)
    ensures a == b
    decreases |a|
  {
    OneOrMore(a);
    OneOrMore(b);
    if |a| > 1 {
      FirstSplits(a[0], Commas(a[1..]), b[0], Commas(b[1..]), ',');
      CommasAreInjective(a[1..], b[1..]);
      assert a == [a[0]] + a[1..] && b == [b[0]] + b[1..];
    }
  }

  lemma BitsAreInjective(x: seq<Bit>, y: seq<Bit>)
    requires AreNamed(x) && AreNamed(y) && Commas(KeysOfBits(x)) == Commas(KeysOfBits(y))
    ensures x == y
  {
    hide KeyOfBit, Commas, IsRegisterName;
    AreBitParts(x);
    AreBitParts(y);
    CommasAreInjective(KeysOfBits(x), KeysOfBits(y));
    forall i | 0 <= i < |x| ensures x[i] == y[i] {
      assert KeysOfBits(x)[i] == KeysOfBits(y)[i];
      BitIsInjective(x[i], y[i]);
    }
  }

  lemma AreBitParts(bits: seq<Bit>)
    requires AreNamed(bits)
    ensures AreParts(KeysOfBits(bits)) && |KeysOfBits(bits)| == |bits|
  {
    hide Lacks, Decimal;
    forall i | 0 <= i < |bits| ensures |KeysOfBits(bits)[i]| > 0 && Lacks(KeysOfBits(bits)[i], ',') {
      BitLacks(bits[i], ',');
    }
  }

  // ---------------------------------------------------------------- equal keys

  /** The same operation, but for how the parameters are cut at commas and whether they are numbers. */
  predicate LooksLike(x: SimpleOperation, y: SimpleOperation) {
    match x
    case Gate(name, parameters, qubits) =>
      && y.Gate? && y.name == name && y.qubits == qubits
      && Commas(TextsOf(y.parameters)) == Commas(TextsOf(parameters))
    case _ => x == y
  }

  predicate LooksAlike(x: Operation, y: Operation) {
    match x
    case Plain(simple) => y.Plain? && LooksLike(simple, y.operation)
    case Conditional(condition, body) => y.Conditional? && y.condition == condition && LooksLike(body, y.body)
  }

  /** Keys of different kinds begin differently. */
  lemma KindsDiffer(x: SimpleOperation, y: SimpleOperation)
    requires KeyOfSimple(x) == KeyOfSimple(y)
    ensures x.Gate? == y.Gate? && x.Measure? == y.Measure? && x.Reset? == y.Reset? && x.Barrier? == y.Barrier?
  {
    FirstLetter(x);
    FirstLetter(y);
  }

  lemma FirstLetter(x: SimpleOperation)
    ensures |KeyOfSimple(x)| > 0
    ensures KeyOfSimple(x)[0] == match x
      case Gate(_, _, _) => 'g'
      case Measure(_, _) => 'm'
      case Reset(_) => 'r'
      case Barrier(_) => 'b'
  {
    hide Decimal, Commas, KeysOfBits, TextsOf;
    match x
    case Gate(name, parameters, qubits) =>
      assert KeyOfSimple(x) == "gate:" + (name + "(" + Commas(TextsOf(parameters)) + "):" + Commas(KeysOfBits(qubits)));
    case Measure(qubit, clbit) => assert KeyOfSimple(x) == "measure:" + (KeyOfBit(qubit) + "->" + KeyOfBit(clbit));
    case Reset(_) =>
    case Barrier(_) =>
  }

  lemma GateKeys(name: string, p: string, b: string, name': string, p': string, b': string)
    requires Lacks(name, '(') && Lacks(name', '(') && Lacks(b, ')') && Lacks(b', ')')
    requires "gate:" + name + "(" + p + "):" + b == "gate:" + name' + "(" + p' + "):" + b'
    ensures name == name' && p == p' && b == b'
  {
    var head, head' := "gate:" + name, "gate:" + name';
    assert "gate:" + name + "(" + p + "):" + b == head + ['('] + (p + [')'] + (":" + b));
    assert "gate:" + name' + "(" + p' + "):" + b' == head' + ['('] + (p' + [')'] + (":" + b'));
    FirstSplits(head, p + [')'] + (":" + b), head', p' + [')'] + (":" + b'), '(');
    assert head[5..] == name && head'[5..] == name';
    LastSplits(p, ":" + b, p', ":" + b', ')');
    assert (":" + b)[1..] == b && (":" + b')[1..] == b';
  }

  lemma MeasureKeys(q: string, c: string, q': string, c': string)
    requires Lacks(q, '-') && Lacks(q', '-') && "measure:" + q + "->" + c == "measure:" + q' + "->" + c'
    ensures q == q' && c == c'
  {
    var head, head' := "measure:" + q, "measure:" + q';
    assert "measure:" + q + "->" + c == head + ['-'] + (">" + c)
      && "measure:" + q' + "->" + c' == head' + ['-'] + (">" + c');
    FirstSplits(head, ">" + c, head', ">" + c', '-');
    assert head[8..] == q && head'[8..] == q' && (">" + c)[1..] == c && (">" + c')[1..] == c';
  }

  lemma SimpleKeysExactlyWhen(x: SimpleOperation, y: SimpleOperation)
    requires IsWellNamedSimple(x) && IsWellNamedSimple(y)
    ensures KeyOfSimple(x) == KeyOfSimple(y) <==> LooksLike(x, y)
  {
    hide KeyOfBit, Commas, KeysOfBits, TextsOf, AreNamed, IsRegisterName, Lacks;
    if KeyOfSimple(x) == KeyOfSimple(y) {
      KindsDiffer(x, y);
      match x {
        case Gate(name, parameters, qubits) =>
          BitsLack(qubits, ')');
          BitsLack(y.qubits, ')');
          GateKeys(name, Commas(TextsOf(parameters)), Commas(KeysOfBits(qubits)),
                   y.name, Commas(TextsOf(y.parameters)), Commas(KeysOfBits(y.qubits)));
          BitsAreInjective(qubits, y.qubits);
        case Measure(qubit, clbit) =>
          BitLacks(qubit, '-');
          BitLacks(y.qubit, '-');
          MeasureKeys(KeyOfBit(qubit), KeyOfBit(clbit), KeyOfBit(y.qubit), KeyOfBit(y.clbit));
          BitIsInjective(qubit, y.qubit);
          BitIsInjective(clbit, y.clbit);
        case Reset(qubit) =>
          assert KeyOfSimple(x)[6..] == KeyOfBit(qubit) && KeyOfSimple(y)[6..] == KeyOfBit(y.qubit);
          BitIsInjective(qubit, y.qubit);
        case Barrier(qubits) =>
          assert KeyOfSimple(x)[8..] == Commas(KeysOfBits(qubits))
            && KeyOfSimple(y)[8..] == Commas(KeysOfBits(y.qubits));
          BitsAreInjective(qubits, y.qubits);
      }
    }
  }

  lemma ConditionKeys(r: string, d: string, k: string, r': string, d': string, k': string)
    requires Lacks(r, '=') && Lacks(r', '=') && Lacks(d, ')') && Lacks(d', ')')
    requires "if(" + r + "==" + d + "):" + k == "if(" + r' + "==" + d' + "):" + k'
    ensures r == r' && d == d' && k == k'
  {
    var head, head' := "if(" + r, "if(" + r';
    var rest, rest' := "=" + d + "):" + k, "=" + d' + "):" + k';
    assert "if(" + r + "==" + d + "):" + k == head + ['='] + rest;
    assert "if(" + r' + "==" + d' + "):" + k' == head' + ['='] + rest';
    FirstSplits(head, rest, head', rest', '=');
    assert head[3..] == r && head'[3..] == r';
    assert rest == ("=" + d) + [')'] + (":" + k) && rest' == ("=" + d') + [')'] + (":" + k');
    FirstSplits("=" + d, ":" + k, "=" + d', ":" + k', ')');
    assert ("=" + d)[1..] == d && ("=" + d')[1..] == d' && (":" + k)[1..] == k && (":" + k')[1..] == k';
  }

  lemma TestLacks(condition: Condition, c: char)
    requires IsRegisterName(condition.register) && !IsWord(c) && c !in {'$', '[', ']'}
    ensures Lacks(KeyOfTest(condition), c)
  {
    RegisterLacks(condition.register, c);
    if condition.bit.Some? { DigitsLack(condition.bit.value, c); }
  }

  lemma TestIsInjective(x: Condition, y: Condition)
    requires IsRegisterName(x.register) && IsRegisterName(y.register) && KeyOfTest(x) == KeyOfTest(y)
    ensures x.register == y.register && x.bit == y.bit
  {
    TestNames(x);
    TestNames(y);
    hide KeyOfTest, IsRegisterName;
    if x.bit.Some? && y.bit.Some? {
      BitIsInjective(Bit(x.register, x.bit.value), Bit(y.register, y.bit.value));
    }
  }

  /** A test of a bit is spelt like the bit, and holds a bracket. */
  lemma TestNames(condition: Condition)
    requires IsRegisterName(condition.register)
    ensures match condition.bit
      case Some(i) => KeyOfTest(condition) == KeyOfBit(Bit(condition.register, i)) && !Lacks(KeyOfTest(condition), '[')
      case None => KeyOfTest(condition) == condition.register && Lacks(KeyOfTest(condition), '[')
  {
    RegisterLacks(condition.register, '[');
    if condition.bit.Some? {
      var d := Decimal(condition.bit.value);
      assert KeyOfTest(condition) == condition.register + ("[" + d + "]") == condition.register + "[" + d + "]";
      assert KeyOfTest(condition)[|condition.register|] == '[';
    }
  }

  /**
   * Two operations whose registers are names, and whose gates have no parenthesis in their names, have the same key if
   * and only if they differ at most in how their parameters are cut at commas.
   */
  lemma KeysCollideExactlyWhen(x: Operation, y: Operation)
    requires IsWellNamed(x) && IsWellNamed(y)
    ensures OperationKey(x) == OperationKey(y) <==> LooksAlike(x, y)
  {
    hide KeyOfSimple, KeyOfTest, Decimal, IsRegisterName, IsWellNamedSimple, LooksLike, Lacks;
    match x {
      case Plain(simple) =>
        if y.Plain? { SimpleKeysExactlyWhen(simple, y.operation); } else { KindOfCondition(simple, y); }
      case Conditional(condition, body) =>
        if y.Conditional? {
          SimpleKeysExactlyWhen(body, y.body);
          if OperationKey(x) == OperationKey(y) {
            TestLacks(condition, '=');
            TestLacks(y.condition, '=');
            DigitsLack(condition.equals, ')');
            DigitsLack(y.condition.equals, ')');
            ConditionKeys(KeyOfTest(condition), Decimal(condition.equals), KeyOfSimple(body),
                          KeyOfTest(y.condition), Decimal(y.condition.equals), KeyOfSimple(y.body));
            TestIsInjective(condition, y.condition);
            DecimalIsInjective(condition.equals, y.condition.equals);
          }
        } else {
          KindOfCondition(y.operation, x);
        }
    }
  }

  lemma KindOfCondition(simple: SimpleOperation, conditional: Operation)
    requires conditional.Conditional?
    ensures KeyOfSimple(simple) != OperationKey(conditional)
  {
    hide KeyOfSimple, KeyOfTest, Decimal;
    FirstLetter(simple);
    var rest := KeyOfTest(conditional.condition) + "==" + Decimal(conditional.condition.equals) + "):"
      + KeyOfSimple(conditional.body);
    assert OperationKey(conditional) == "if(" + rest;
  }

  /** The parameters `a,b` and `a`, `b` look the same. */
  lemma CommasHide(name: string, a: string, b: string, qubits: seq<Bit>)
    ensures var one, two := [Expression(a + "," + b)], [Expression(a), Expression(b)];
      OperationKey(Plain(Gate(name, one, qubits))) == OperationKey(Plain(Gate(name, two, qubits)))
  {
    var one, two := [Expression(a + "," + b)], [Expression(a), Expression(b)];
    assert TextsOf(one) == [a + "," + b] && TextsOf(two) == [a, b];
    assert [a, b][1..] == [b] && Commas([b]) == b;
  }

  /** With a parenthesis in its name, a gate can have the key of another gate. */
  lemma NamesCanCollide(name: string, more: string, p: string, qubits: seq<Bit>)
    ensures OperationKey(Plain(Gate(name, [Expression(more + "(" + p)], qubits)))
         == OperationKey(Plain(Gate(name + "(" + more, [Expression(p)], qubits)))
  {
    assert TextsOf([Expression(more + "(" + p)]) == [more + "(" + p] && TextsOf([Expression(p)]) == [p];
    var bits := Commas(KeysOfBits(qubits));
    assert "gate:" + name + "(" + (more + "(" + p) + "):" + bits
      == "gate:" + (name + "(" + more) + "(" + p + "):" + bits;
  }

  // ---------------------------------------------------------------- counts by name

  /** A gate named like another kind of operation is counted with it. */
  lemma KindsShareNames(parameters: seq<Parameter>, qubits: seq<Bit>, qubit: Bit, clbit: Bit, c: Condition)
    ensures NameOf(Plain(Gate("measure", parameters, qubits))) == NameOf(Plain(Measure(qubit, clbit)))
    ensures NameOf(Plain(Gate("reset", parameters, qubits))) == NameOf(Plain(Reset(qubit)))
    ensures NameOf(Plain(Gate("barrier", parameters, qubits))) == NameOf(Plain(Barrier(qubits)))
    ensures NameOf(Plain(Gate("conditional", parameters, qubits))) == NameOf(Conditional(c, Reset(qubit)))
  {
  }

  type NamedOperation = operation: Operation | IsWellNamed(operation)
    witness Plain(Barrier([]))

  function KeyOfNamed(operation: NamedOperation): string {
    OperationKey(operation)
  }

  function NameOfNamed(operation: NamedOperation): string {
    NameOf(operation)
  }

  lemma KeysName(x: NamedOperation, y: NamedOperation)
    requires OperationKey(x) == OperationKey(y)
    ensures NameOf(x) == NameOf(y)
  {
    hide OperationKey, IsWellNamed;
    KeysCollideExactlyWhen(x, y);
  }

  /**
   * For each name, what a sound diff adds under it minus what it removes under it is the difference between the
   * circuits.
   */
  lemma GateDeltasAreAttributable(
    entries: seq<Entry<NamedOperation>>, left: seq<NamedOperation>, right: seq<NamedOperation>, name: string)
    requires VerifyDiff(left, right, entries, KeyOfNamed).sound
    ensures CountNamed(right, NameOfNamed, name) - CountNamed(left, NameOfNamed, name)
         == CountEntries(entries, Added, NameOfNamed, name) - CountEntries(entries, Removed, NameOfNamed, name)
  {
    hide OperationKey, NameOf, VerifyDiff;
    forall x: NamedOperation, y: NamedOperation | KeyOfNamed(x) == KeyOfNamed(y)
      ensures NameOfNamed(x) == NameOfNamed(y)
    {
      KeysName(x, y);
    }
    DeltaIsAttributable(entries, left, right, KeyOfNamed, NameOfNamed, name);
  }
}
