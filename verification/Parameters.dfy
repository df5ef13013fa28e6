/**
 * Parameter expressions as texts (src/engine/parameters.ts:43-199): which characters make a token, and the parser,
 * proved to read what the grammar over tokens says.
 */
module Parameters {
  import opened Options
  import opened QasmText
  import opened QasmReader
  import E = Expressions

  // ---------------------------------------------------------------- tokens

  /** A name may begin with the letter pi of the Greek alphabet. */
  predicate BeginsName(c: char) {
    IsLetter(c) || c == '\U{3C0}'
  }

  function NameLength(s: string): (n: nat)
    ensures n <= |s|
  {
    if |s| > 0 && BeginsName(s[0]) then 1 + WordLength(s[1..]) else 0
  }

  function ExponentLength(s: string): (n: nat)
    ensures n <= |s|
  {
    if |s| > 0 && (s[0] == 'e' || s[0] == 'E') then
      var sign := if |s| > 1 && (s[1] == '+' || s[1] == '-') then 2 else 1;
      var digits := DigitsLength(s[sign..]);
      if digits > 0 then sign + digits else 0
    else 0
  }

  /** `\d+\.?\d*` or `\.\d+`. */
  function MantissaLength(s: string): (n: nat)
    ensures n <= |s|
  {
    var whole := DigitsLength(s);
    if whole < |s| && s[whole] == '.' then
      var places := DigitsLength(s[whole + 1..]);
      if whole + places > 0 then whole + 1 + places else 0
    else whole
  }

  function NumberLength(s: string): (n: nat)
    ensures n <= |s|
  {
    var mantissa := MantissaLength(s);
    if mantissa == 0 then 0 else mantissa + ExponentLength(s[mantissa..])
  }

  /** The token a text begins with, and its length. */
  function TokenAt(number: string -> real, s: string): (t: (E.Token, nat))
    requires |s| > 0
    ensures 0 < t.1 <= |s|
  {
    if s[0] == '(' then (E.Open, 1)
    else if s[0] == ')' then (E.Close, 1)
    else if s[0] == '+' then (E.Plus, 1)
    else if s[0] == '-' then (E.Minus, 1)
    else if s[0] == '/' then (E.Slash, 1)
    else if s[0] == '*' then if |s| > 1 && s[1] == '*' then (E.StarStar, 2) else (E.Star, 1)
    else if NumberLength(s) > 0 then (E.Num(number(s[..NumberLength(s)])), NumberLength(s))
    else if NameLength(s) > 0 then (E.Ident(s[..NameLength(s)]), NameLength(s))
    else (E.Unknown(s[0]), 1)
  }

  /** The tokens of a text; the host reads the number in a numeral. */
  function Tokens(number: string -> real, s: string): seq<E.Token>
    decreases |s|
  {
    if |s| == 0 then []
    else if IsSpace(s[0]) then Tokens(number, s[1..])
    else
      var t := TokenAt(number, s);
      [t.0] + Tokens(number, s[t.1..])
  }

  // ---------------------------------------------------------------- the parser

  class ExpressionParser {
    const env: E.Env
    const number: string -> real
    const source: string
    var position: nat

    constructor (env: E.Env, number: string -> real, source: string)
      ensures this.env == env && this.number == number && this.source == source && position == 0
    {
      this.env := env;
      this.number := number;
      this.source := source;
      position := 0;
    }

    ghost predicate Valid()
      reads this
    {
      position <= |source|
    }

    /** The tokens from the cursor on. */
    ghost function Ahead(): seq<E.Token>
      requires Valid()
      reads this
    {
      Tokens(number, source[position..])
    }

    /** The value out, with the cursor moved past what was read; or failure. */
    ghost predicate Reads(r: E.Parsed, before: nat, value: Option<real>)
      requires before <= |source|
      reads this
    {
      && (value.Some? <==> r.Some?)
      && (value.Some? ==> Valid() && before < position && value.value == r.value.0 && Ahead() == r.value.1)
    }

    method SkipWhitespace()
      requires Valid()
      modifies this
      ensures Valid() && old(position) <= position && Ahead() == old(Ahead())
      ensures position < |source| ==> !IsSpace(source[position])
    {
      hide IsSpace, TokenAt;
      while position < |source| && IsSpace(source[position])
        invariant Valid() && old(position) <= position && Ahead() == old(Ahead())
        decreases |source| - position
      {
        assert source[position..][1..] == source[position + 1..];
        position := position + 1;
      }
    }

    /** The character at the cursor or some way behind it; nothing behind the end. */
    function Peek(ahead: nat): Option<char>
      reads this
    {
      if position + ahead < |source| then Some(source[position + ahead]) else None
    }

    /** Behind white space the first character tells the first token. */
    lemma Looking()
      requires Valid() && (position < |source| ==> !IsSpace(source[position]))
      ensures Peek(0) == Some('+') <==> E.Starts(Ahead(), E.Plus)
      ensures Peek(0) == Some('-') <==> E.Starts(Ahead(), E.Minus)
      ensures Peek(0) == Some('/') <==> E.Starts(Ahead(), E.Slash)
      ensures Peek(0) == Some('(') <==> E.Starts(Ahead(), E.Open)
      ensures Peek(0) == Some(')') <==> E.Starts(Ahead(), E.Close)
      ensures Peek(0) == Some('*') && Peek(1) != Some('*') <==> E.Starts(Ahead(), E.Star)
      ensures Peek(0) == Some('*') && Peek(1) == Some('*') <==> E.Starts(Ahead(), E.StarStar)
      ensures position < |source| ==>
        var t := TokenAt(number, source[position..]);
        |Ahead()| > 0 && Ahead()[0] == t.0 && Ahead()[1..] == Tokens(number, source[position + t.1..])
      ensures position == |source| ==> Ahead() == []
    {
      hide IsSpace, NumberLength, NameLength;
      if position < |source| {
        var s := source[position..];
        assert s[0] == source[position] && (|s| > 1 ==> s[1] == source[position + 1]);
        assert s[TokenAt(number, s).1..] == source[position + TokenAt(number, s).1..];
      }
    }

    method ParseExpression() returns (value: Option<real>)
      requires Valid()
      modifies this
      ensures Reads(E.Expression(env, old(Ahead())), old(position), value)
      decreases |source| - position, 5
    {
      hide E.Term, Tokens, TokenAt, IsSpace;
      value := ParseTerm();
      if value.None? { return; }
      while true
        invariant Valid() && old(position) < position && value.Some?
        invariant E.Expression(env, old(Ahead())) == E.SumTail(env, value.value, Ahead())
        decreases |source| - position
      {
        SkipWhitespace();
        Looking();
        if Peek(0) == Some('+') {
          OneCharacter();
          position := position + 1;
          var right := ParseTerm();
          if right.None? { return None; }
          value := Some(value.value + right.value);
        } else if Peek(0) == Some('-') {
          OneCharacter();
          position := position + 1;
          var right := ParseTerm();
          if right.None? { return None; }
          value := Some(value.value - right.value);
        } else {
          return;
        }
      }
    }

    /** All these tokens are one character long. */
    lemma OneCharacter()
      requires Valid()
      requires Peek(0) in {Some('+'), Some('-'), Some('/'), Some('('), Some(')')}
        || (Peek(0) == Some('*') && Peek(1) != Some('*'))
      ensures TokenAt(number, source[position..]).1 == 1
    {
    }

    method ParseTerm() returns (value: Option<real>)
      requires Valid()
      modifies this
      ensures Reads(E.Term(env, old(Ahead())), old(position), value)
      decreases |source| - position, 4
    {
      hide E.Multiply, E.Divide, E.Unary, Tokens, TokenAt, IsSpace;
      value := ParseUnary();
      if value.None? { return; }
      while true
        invariant Valid() && old(position) < position && value.Some?
        invariant E.Term(env, old(Ahead())) == E.ProductTail(env, value.value, Ahead())
        decreases |source| - position
      {
        SkipWhitespace();
        Looking();
        if Peek(0) == Some('*') && Peek(1) != Some('*') {
          OneCharacter();
          position := position + 1;
          var right := ParseUnary();
          if right.None? { return None; }
          value := Some(E.Multiply(value.value, right.value));
        } else if Peek(0) == Some('/') {
          OneCharacter();
          position := position + 1;
          var right := ParseUnary();
          if right.None? || right.value == 0.0 { return None; }
          value := Some(E.Divide(value.value, right.value));
        } else {
          return;
        }
      }
    }

    method ParseUnary() returns (value: Option<real>)
      requires Valid()
      modifies this
      ensures Reads(E.Unary(env, old(Ahead())), old(position), value)
      decreases |source| - position, 3
    {
      hide E.Power, Tokens, TokenAt, IsSpace;
      SkipWhitespace();
      Looking();
      if Peek(0) == Some('-') {
        OneCharacter();
        position := position + 1;
        value := ParseUnary();
        if value.Some? { value := Some(-value.value); }
      } else if Peek(0) == Some('+') {
        OneCharacter();
        position := position + 1;
        value := ParseUnary();
      } else {
        value := ParsePower();
      }
    }

    method ParsePower() returns (value: Option<real>)
      requires Valid()
      modifies this
      ensures Reads(E.Power(env, old(Ahead())), old(position), value)
      decreases |source| - position, 2
    {
      hide E.Atom, E.Unary, Tokens, TokenAt, IsSpace;
      value := ParseAtom();
      if value.None? { return; }
      SkipWhitespace();
      Looking();
      if Peek(0) == Some('*') && Peek(1) == Some('*') {
        TwoCharacters();
        position := position + 2;
        var exponent := ParseUnary();
        if exponent.None? { return None; }
        value := Some(env.power(value.value, exponent.value));
      }
    }

    lemma TwoCharacters()
      requires Valid() && Peek(0) == Some('*') && Peek(1) == Some('*')
      ensures TokenAt(number, source[position..]).1 == 2
    {
    }

    /** The expression behind an opening parenthesis, and the closing one. */
    method ParseEnclosed() returns (value: Option<real>)
      requires Valid()
      modifies this
      ensures Reads(E.Enclosed(env, old(Ahead())), old(position), value)
      decreases |source| - position, 6
    {
      hide E.Expression, Tokens, TokenAt, IsSpace;
      value := ParseExpression();
      if value.None? { return; }
      SkipWhitespace();
      Looking();
      if Peek(0) != Some(')') { return None; }
      OneCharacter();
      position := position + 1;
    }

    method ParseAtom() returns (value: Option<real>)
      requires Valid()
      modifies this
      ensures Reads(E.Atom(env, old(Ahead())), old(position), value)
      decreases |source| - position, 1
    {
      hide E.Enclosed, Tokens, TokenAt, IsSpace, NumberLength, NameLength;
      SkipWhitespace();
      Looking();
      if Peek(0) == Some('(') {
        OneCharacter();
        position := position + 1;
        value := ParseEnclosed();
        return;
      }
      var rest := source[position..];
      WhatStandsHere();
      var digits := NumberLength(rest);
      if digits > 0 {
        position := position + digits;
        return Some(number(rest[..digits]));
      }
      var letters := NameLength(rest);
      if letters == 0 { return None; }
      var name := rest[..letters];
      position := position + letters;
      SkipWhitespace();
      Looking();
      if Peek(0) == Some('(') {
        var f := env.function_(name);
        if f.None? { return None; }
        OneCharacter();
        position := position + 1;
        value := ParseEnclosed();
        if value.Some? { value := Some(f.value(value.value)); }
      } else {
        value := env.value(name);
      }
    }

    /** A number, a name, or no beginning of an atom. */
    lemma WhatStandsHere()
      requires Valid() && Peek(0) != Some('(')
      ensures var rest := source[position..];
        && (NumberLength(rest) > 0 ==>
              |rest| > 0 && TokenAt(number, rest) == (E.Num(number(rest[..NumberLength(rest)])), NumberLength(rest)))
        && (NumberLength(rest) == 0 && NameLength(rest) > 0 ==>
              |rest| > 0 && TokenAt(number, rest) == (E.Ident(rest[..NameLength(rest)]), NameLength(rest)))
        && (NumberLength(rest) == 0 && NameLength(rest) == 0 && |rest| > 0 ==>
              var t := TokenAt(number, rest).0; !t.Num? && !t.Ident? && !t.Open?)
    {
    }
  }

  /** The entry point: the whole text must be used up. */
  method EvaluateParameter(env: E.Env, number: string -> real, source: string) returns (value: Option<real>)
    ensures value == E.Evaluate(env, Tokens(number, source))
  {
    hide E.Expression, Tokens, IsSpace;
    var parser := new ExpressionParser(env, number, source);
    assert source[0..] == source;
    value := parser.ParseExpression();
    if value.Some? {
      parser.SkipWhitespace();
      parser.Looking();
      if parser.position < |source| { return None; }
    }
  }
}
