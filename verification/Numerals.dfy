/** Which texts are numerals of a parameter expression (src/engine/parameters.ts:141-147). */
module Numerals {
  import opened Options
  import opened QasmText
  import opened QasmReader
  import opened QasmLexing
  import opened Parameters
  import opened ParameterSubstitution

  /** Digits, a point, digits, an exponent: the parts a numeral is made of. */
  datatype Numeral = Numeral(whole: string, point: bool, places: string, exponent: string)

  function TextOf(n: Numeral): string {
    n.whole + ((if n.point then "." else "") + (n.places + n.exponent))
  }

  /** Nothing, or a letter e in either case, perhaps a sign, and at least one digit. */
  predicate IsPower(exponent: string) {
    exponent != "" ==>
      && (exponent[0] == 'e' || exponent[0] == 'E')
      && var sign := if |exponent| > 1 && (exponent[1] == '+' || exponent[1] == '-') then 2 else 1;
         |exponent| > sign && AllDigits(exponent[sign..])
  }

  /** A digit somewhere, and places only behind a point. */
  predicate IsNumeral(n: Numeral) {
    && AllDigits(n.whole) && AllDigits(n.places) && IsPower(n.exponent)
    && |n.whole| + |n.places| > 0 && (!n.point ==> n.places == "")
  }

  /** What follows does not carry the numeral on. */
  predicate StopsAt(n: Numeral, rest: string) {
    && (|rest| > 0 ==> !IsDigit(rest[0]))
    && (n.exponent == "" ==> ExponentLength(rest) == 0 && (!n.point && |rest| > 0 ==> rest[0] != '.'))
  }

  lemma DigitsBefore(digits: string, rest: string)
    requires AllDigits(digits) && (|rest| > 0 ==> !IsDigit(rest[0]))
    ensures DigitsLength(digits + rest) == |digits|
  {
    DigitRun(digits, rest);
  }

  lemma ExponentReads(exponent: string, rest: string)
    requires exponent != "" && IsPower(exponent) && (|rest| > 0 ==> !IsDigit(rest[0]))
    ensures ExponentLength(exponent + rest) == |exponent|
  {
    var all := exponent + rest;
    assert all[0] == exponent[0] && (|exponent| > 1 ==> all[1] == exponent[1]);
    var sign := if |exponent| > 1 && (exponent[1] == '+' || exponent[1] == '-') then 2 else 1;
    assert all[sign..] == exponent[sign..] + rest;
    DigitsBefore(exponent[sign..], rest);
  }

  lemma PowerIsNoDigit(exponent: string)
    requires exponent != "" && IsPower(exponent)
    ensures !IsDigit(exponent[0]) && exponent[0] != '.'
  {
  }

  lemma MantissaReads(n: Numeral, tail: string)
    requires IsNumeral(n) && (|tail| > 0 ==> !IsDigit(tail[0])) && (!n.point && |tail| > 0 ==> tail[0] != '.')
    ensures var m := n.whole + ((if n.point then "." else "") + (n.places + tail));
      MantissaLength(m) == |n.whole| + (if n.point then 1 else 0) + |n.places|
  {
    hide IsPower;
    var behind := (if n.point then "." else "") + (n.places + tail);
    var m := n.whole + behind;
    if n.point {
      assert behind[0] == '.';
      DigitsBefore(n.whole, behind);
      assert m[|n.whole|] == '.' && m[|n.whole| + 1..] == n.places + tail;
      DigitsBefore(n.places, tail);
    } else {
      assert behind == tail;
      DigitsBefore(n.whole, tail);
      assert |tail| > 0 ==> m[|n.whole|] == tail[0];
    }
  }

  /** Every such text is read as one numeral, up to what does not carry it on. */
  lemma NumeralReads(n: Numeral, rest: string)
    requires IsNumeral(n) && StopsAt(n, rest)
    ensures NumberLength(TextOf(n) + rest) == |TextOf(n)|
  {
    hide MantissaLength, ExponentLength, IsPower;
    var tail := n.exponent + rest;
    var all := n.whole + ((if n.point then "." else "") + (n.places + tail));
    assert TextOf(n) + rest == all;
    if n.exponent == "" {
      assert tail == rest;
    } else {
      PowerIsNoDigit(n.exponent);
      assert tail[0] == n.exponent[0];
      ExponentReads(n.exponent, rest);
    }
    MantissaReads(n, tail);
    var m := |n.whole| + (if n.point then 1 else 0) + |n.places|;
    assert all[m..] == tail;
  }

  lemma MantissaShape(s: string) returns (whole: string, point: bool, places: string)
    requires MantissaLength(s) > 0
    ensures AllDigits(whole) && AllDigits(places) && |whole| + |places| > 0 && (!point ==> places == "")
    ensures var m := MantissaLength(s);
      s[..m] == whole + ((if point then "." else "") + places) && (!point && m < |s| ==> s[m] != '.')
  {
    var w, m := DigitsLength(s), MantissaLength(s);
    DigitsEnd(s);
    whole, point := s[..w], w < |s| && s[w] == '.';
    if point {
      DigitsEnd(s[w + 1..]);
      places := s[w + 1..m];
      forall i | 0 <= i < |places| ensures IsDigit(places[i]) { assert places[i] == s[w + 1..][i]; }
      assert s[..m] == s[..w] + ("." + s[w + 1..m]);
    } else {
      places := "";
      assert whole + "" == whole;
    }
  }

  /** And nothing else is read as one. */
  lemma NumeralShape(s: string) returns (n: Numeral)
    requires NumberLength(s) > 0
    ensures IsNumeral(n) && TextOf(n) == s[..NumberLength(s)] && StopsAt(n, s[NumberLength(s)..])
  {
    hide ExponentLength, MantissaLength, IsPower, AllDigits, IsDigit;
    var m := MantissaLength(s);
    var x := ExponentLength(s[m..]);
    var whole, point, places := MantissaShape(s);
    MantissaEnds(s);
    ExponentEnds(s[m..]);
    PowerShape(s[m..]);
    n := Numeral(whole, point, places, s[m..][..x]);
    assert s[..m + x] == s[..m] + s[m..][..x];
    assert s[m + x..] == s[m..][x..];
    assert TextOf(n) == whole + ((if point then "." else "") + places) + s[m..][..x];
  }

  lemma PowerShape(s: string)
    ensures IsPower(s[..ExponentLength(s)])
  {
    var x := ExponentLength(s);
    if x > 0 {
      var sign := if |s| > 1 && (s[1] == '+' || s[1] == '-') then 2 else 1;
      var e := s[..x];
      DigitsEnd(s[sign..]);
      assert e[0] == s[0] && (x > 1 ==> e[1] == s[1]);
      forall i | 0 <= i < |e[sign..]| ensures IsDigit(e[sign..][i]) { assert e[sign..][i] == s[sign..][i]; }
    }
  }
}
