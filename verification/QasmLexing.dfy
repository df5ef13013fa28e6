/** How the pieces a circuit is written in are read back: numbers, names, lists and calls
    (src/circuit/qasm3.ts:222-275, 470-515). */
module QasmLexing {
  import opened Options
  import opened QasmText
  import opened QasmReader
  import opened QasmWriter

  // ---------------------------------------------------------------- runs of characters

  predicate AllWord(s: string) { forall i :: 0 <= i < |s| ==> IsWord(s[i]) }

  predicate AllDigits(s: string) { forall i :: 0 <= i < |s| ==> IsDigit(s[i]) }

  predicate IsIdentifier(s: string) { AllWord(s) && |s| > 0 && IsLetter(s[0]) }

  lemma {:induction false} WordRun(word: string, rest: string)
    requires AllWord(word) && (|rest| > 0 ==> !IsWord(rest[0]))
    ensures WordLength(word + rest) == |word|
    decreases |word|
  {
    if |word| > 0 {
      assert (word + rest)[1..] == word[1..] + rest;
      WordRun(word[1..], rest);
    } else {
      assert word + rest == rest;
    }
  }

  lemma {:induction false} DigitRun(digits: string, rest: string)
    requires AllDigits(digits) && (|rest| > 0 ==> !IsDigit(rest[0]))
    ensures DigitsLength(digits + rest) == |digits|
    decreases |digits|
  {
    if |digits| > 0 {
      assert (digits + rest)[1..] == digits[1..] + rest;
      DigitRun(digits[1..], rest);
    } else {
      assert digits + rest == rest;
    }
  }

  lemma IdentifierReads(name: string, rest: string)
    requires IsIdentifier(name) && (|rest| > 0 ==> !IsWord(rest[0]))
    ensures IdentifierLength(name + rest) == |name| && ReadIdentifier(name + rest) == Some((name, rest))
  {
    WordRun(name, rest);
    assert (name + rest)[..|name|] == name && (name + rest)[|name|..] == rest;
  }

  /** Decimal text is digits only, and stands for its number. */
  lemma {:induction false} DecimalReads(n: nat)
    ensures AllDigits(Decimal(n)) && |Decimal(n)| > 0 && ValueOf(Decimal(n)) == n
    decreases n
  {
    var text := Decimal(n);
    if n < 10 {
      assert text[..0] == "" && ValueOf(text[..0]) == 0;
    } else {
      DecimalReads(n / 10);
      assert text[..|text| - 1] == Decimal(n / 10);
    }
  }

  lemma NumberReads(n: nat, rest: string)
    requires |rest| > 0 ==> !IsDigit(rest[0])
    ensures ReadNumber(Decimal(n) + rest) == Some((n, rest))
    ensures |Decimal(n)| > 0 && TrimStart(Decimal(n) + rest) == Decimal(n) + rest
  {
    hide Decimal, ValueOf;
    DecimalReads(n);
    DigitRun(Decimal(n), rest);
    var text := Decimal(n) + rest;
    assert text[..|Decimal(n)|] == Decimal(n) && text[|Decimal(n)|..] == rest && IsDigit(text[0]);
  }

  lemma ExpectReads(token: string, rest: string)
    ensures Expect(token + rest, token) == Some(rest)
  {
    assert (token + rest)[|token|..] == rest;
  }

  lemma IndexReads(n: nat, rest: string)
    ensures ReadIndex("[" + Decimal(n) + "]" + rest) == Some((n, rest))
  {
    hide Decimal, ReadNumber;
    var inner := Decimal(n) + ("]" + rest);
    assert "[" + Decimal(n) + "]" + rest == "[" + inner;
    ExpectReads("[", inner);
    NumberReads(n, "]" + rest);
    ExpectReads("]", rest);
  }

  // ---------------------------------------------------------------- lists

  /** No comma outside brackets, and as many brackets closed as opened. */
  predicate IsEntry(s: string, depth: int)
    decreases |s|
  {
    if |s| == 0 then depth == 0
    else
      var deeper := DepthAfter(s[0], depth);
      !(s[0] == ',' && deeper == 0) && IsEntry(s[1..], deeper)
  }

  /** Every closing parenthesis has its opening before it, and every opening its closing. */
  predicate ParensMatch(s: string, depth: nat)
    decreases |s|
  {
    if |s| == 0 then depth == 0
    else if s[0] == '(' then ParensMatch(s[1..], depth + 1)
    else if s[0] == ')' then depth > 0 && ParensMatch(s[1..], depth - 1)
    else ParensMatch(s[1..], depth)
  }

  lemma {:induction false} PartsSkip(s: string, rest: string, depth: int, current: string)
    requires IsEntry(s, depth)
    ensures Parts(s + rest, depth, current) == Parts(rest, 0, current + s)
    decreases |s|
  {
    if |s| > 0 {
      assert (s + rest)[0] == s[0] && (s + rest)[1..] == s[1..] + rest;
      PartsSkip(s[1..], rest, DepthAfter(s[0], depth), current + [s[0]]);
      assert current + [s[0]] + s[1..] == current + s;
    } else {
      assert s + rest == rest && current + s == current;
    }
  }

  /** What the split makes of a joined list: every entry but the first keeps the space before it. */
  function Padded(parts: seq<string>, pad: string): seq<string> {
    if |parts| == 0 then [] else [pad + parts[0]] + Padded(parts[1..], " ")
  }

  predicate AreEntries(parts: seq<string>) {
    forall i :: 0 <= i < |parts| ==> IsEntry(parts[i], 0) && IsTrimmed(parts[i])
  }

  lemma {:induction false} PartsOfJoin(parts: seq<string>, pad: string)
    requires |parts| > 0 && AreEntries(parts)
    ensures Parts(Join(parts), 0, pad) == Padded(parts, pad)
    decreases |parts|
  {
    var first := parts[0];
    if |parts| == 1 {
      PartsSkip(first, "", 0, pad);
      assert first + "" == first && Padded(parts[1..], " ") == [];
    } else {
      var rest := Join(parts[1..]);
      PartsSkip(first, ", " + rest, 0, pad);
      assert Join(parts) == first + (", " + rest);
      SeparatorSplits(rest, pad + first);
      PartsOfJoin(parts[1..], " ");
    }
  }

  lemma SeparatorSplits(rest: string, current: string)
    ensures Parts(", " + rest, 0, current) == [current] + Parts(rest, 0, " ")
  {
    var text, space := ", " + rest, " " + rest;
    assert text[0] == ',' && text[1..] == space && DepthAfter(',', 0) == 0;
    assert space[0] == ' ' && space[1..] == rest && DepthAfter(' ', 0) == 0;
    assert "" + [' '] == " ";
  }

  lemma {:induction false} PaddedTrims(parts: seq<string>, pad: string, i: nat)
    requires AreEntries(parts) && IsBlank(pad) && i < |parts|
    ensures |Padded(parts, pad)| == |parts| && Trim(Padded(parts, pad)[i]) == parts[i]
    decreases |parts|
  {
    hide Trim;
    TrimPadded(pad, parts[0]);
    PaddedLength(parts, pad);
    if i > 0 {
      PaddedTrims(parts[1..], " ", i - 1);
    }
  }

  lemma {:induction false} PaddedLength(parts: seq<string>, pad: string)
    ensures |Padded(parts, pad)| == |parts|
    decreases |parts|
  {
    if |parts| > 0 { PaddedLength(parts[1..], " "); }
  }

  lemma {:induction false} NothingBlank(parts: seq<string>)
    requires forall i :: 0 <= i < |parts| ==> |Trim(parts[i])| > 0
    ensures WithoutBlanks(parts) == parts
    decreases |parts|
  {
    hide Trim;
    if |parts| > 0 {
      NothingBlank(parts[..|parts| - 1]);
      assert parts[..|parts| - 1] + [parts[|parts| - 1]] == parts;
    }
  }

  /** Splitting a joined list gives its entries back, up to the white space around them. */
  lemma SplitJoin(parts: seq<string>)
    requires |parts| > 0 && AreEntries(parts)
    ensures |TopLevel(Join(parts))| == |parts|
    ensures forall i :: 0 <= i < |parts| ==> Trim(TopLevel(Join(parts))[i]) == parts[i]
  {
    hide Trim, Parts, Join, Padded, IsEntry;
    PartsOfJoin(parts, "");
    var padded := Padded(parts, "");
    PaddedLength(parts, "");
    EmptyIsBlank();
    forall i | 0 <= i < |parts| ensures Trim(padded[i]) == parts[i] { PaddedTrims(parts, "", i); }
    NothingBlank(padded);
  }

  // ---------------------------------------------------------------- calls

  lemma {:induction false} ParensConcat(a: string, b: string, depth: nat)
    requires ParensMatch(a, depth) && ParensMatch(b, 0)
    ensures ParensMatch(a + b, depth)
    decreases |a|
  {
    if |a| > 0 {
      assert (a + b)[0] == a[0] && (a + b)[1..] == a[1..] + b;
      var deeper := if a[0] == '(' then depth + 1 else if a[0] == ')' then depth - 1 else depth;
      ParensConcat(a[1..], b, deeper);
    } else {
      assert a + b == b;
    }
  }

  lemma {:induction false} JoinMatches(parts: seq<string>)
    requires forall i :: 0 <= i < |parts| ==> ParensMatch(parts[i], 0)
    ensures ParensMatch(Join(parts), 0)
    decreases |parts|
  {
    if |parts| > 1 {
      var rest := Join(parts[1..]);
      JoinMatches(parts[1..]);
      assert (", " + rest)[1..] == " " + rest && (" " + rest)[1..] == rest;
      assert ParensMatch(" " + rest, 0) && ParensMatch(", " + rest, 0);
      ParensConcat(parts[0], ", " + rest, 0);
      assert Join(parts) == parts[0] + (", " + rest);
    }
  }

  lemma {:induction false} ClosesBehind(s: string, rest: string, depth: nat)
    requires ParensMatch(s, depth)
    ensures ClosesAt(s + (")" + rest), depth + 1) == Some(|s|)
    decreases |s|
  {
    var text := s + (")" + rest);
    if |s| > 0 {
      assert text[0] == s[0] && text[1..] == s[1..] + (")" + rest);
      var deeper := if s[0] == '(' then depth + 1 else if s[0] == ')' then depth - 1 else depth;
      ClosesBehind(s[1..], rest, deeper);
    }
  }

  /** A call with a parameter list splits into its three parts; the operands are whatever stands behind. */
  lemma CallReads(name: string, inner: string, operands: string)
    requires IsIdentifier(name) && ParensMatch(inner, 0) && IsTrimmed(operands)
    ensures CallSignature(name + "(" + inner + ")" + " " + operands) == Some(Signature(name, Some(inner), operands))
  {
    hide Trim, IsIdentifier, ParensMatch;
    var tail := " " + operands;
    var rest := "(" + (inner + (")" + tail));
    var text := name + "(" + inner + ")" + " " + operands;
    assert text == name + rest;
    IdentifierReads(name, rest);
    assert LeadingSpaces(rest) == 0 && rest[0..] == rest;
    ClosesBehind(inner, tail, 0);
    assert rest[1..] == inner + (")" + tail);
    assert ClosesAt(rest, 0) == Some(|inner| + 1);
    InnerAndTail(inner, tail);
    SpaceIsBlank();
    TrimPadded(" ", operands);
  }

  lemma InnerAndTail(inner: string, tail: string)
    ensures var rest := "(" + (inner + (")" + tail)); rest[1..|inner| + 1] == inner && rest[|inner| + 2..] == tail
  {
    var rest := "(" + (inner + (")" + tail));
    assert rest[1..] == inner + (")" + tail);
  }

  lemma PlainCallReads(name: string, operands: string)
    requires IsIdentifier(name) && IsTrimmed(operands) && operands[0] != '('
    ensures CallSignature(name + " " + operands) == Some(Signature(name, None, operands))
  {
    hide Trim, IsIdentifier;
    var rest := " " + operands;
    assert name + " " + operands == name + rest;
    IdentifierReads(name, rest);
    assert rest[1..] == operands && LeadingSpaces(operands) == 0 && LeadingSpaces(rest) == 1;
    SpaceIsBlank();
    TrimPadded("", operands);
    assert "" + operands == operands;
  }

  lemma SpaceIsBlank()
    ensures IsBlank(" ") && IsBlank("")
  {
  }
}
