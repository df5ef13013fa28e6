/**
 * The character passes in front of the OpenQASM reader: comments out, statements apart (src/circuit/qasm3.ts:121-220).
 */
module QasmText {
  import opened Options

  // ---------------------------------------------------------------- white space

  /** What `trim` and `\s` take for white space. */
  predicate IsSpace(c: char) {
    var code := c as int;
    || 9 <= code <= 13
    || code in {32, 160, 5760, 8232, 8233, 8239, 8287, 12288, 65279}
    || 8192 <= code <= 8202
  }

  /** What the dot of a regular expression does not match. */
  predicate IsLineEnd(c: char) {
    (c as int) in {10, 13, 8232, 8233}
  }

  predicate IsBlank(s: string) {
    forall i :: 0 <= i < |s| ==> IsSpace(s[i])
  }

  function TrimStart(s: string): string {
    if |s| > 0 && IsSpace(s[0]) then TrimStart(s[1..]) else s
  }

  function TrimEnd(s: string): string {
    if |s| > 0 && IsSpace(s[|s| - 1]) then TrimEnd(s[..|s| - 1]) else s
  }

  function Trim(s: string): string {
    TrimEnd(TrimStart(s))
  }

  /** No white space at either end, and something between them. */
  predicate IsTrimmed(s: string) {
    |s| > 0 && !IsSpace(s[0]) && !IsSpace(s[|s| - 1])
  }

  lemma {:induction false} TrimStartSkips(blank: string, s: string)
    requires IsBlank(blank)
    ensures TrimStart(blank + s) == TrimStart(s)
    decreases |blank|
  {
    if |blank| > 0 {
      assert (blank + s)[1..] == blank[1..] + s;
      TrimStartSkips(blank[1..], s);
    } else {
      assert blank + s == s;
    }
  }

  lemma TrimPadded(blank: string, s: string)
    requires IsBlank(blank) && IsTrimmed(s)
    ensures Trim(blank + s) == s
  {
    TrimStartSkips(blank, s);
  }

  lemma {:induction false} TrimBlank(s: string)
    requires IsBlank(s)
    ensures Trim(s) == ""
  {
    TrimStartSkips(s, "");
    assert s + "" == s;
  }

  lemma {:induction false} TrimEndSplits(s: string)
    ensures exists blank :: IsBlank(blank) && s == TrimEnd(s) + blank
    ensures |TrimEnd(s)| > 0 ==> !IsSpace(TrimEnd(s)[|TrimEnd(s)| - 1])
    decreases |s|
  {
    if |s| > 0 && IsSpace(s[|s| - 1]) {
      TrimEndSplits(s[..|s| - 1]);
      var blank :| IsBlank(blank) && s[..|s| - 1] == TrimEnd(s[..|s| - 1]) + blank;
      assert IsBlank(blank + [s[|s| - 1]]) && s == TrimEnd(s) + (blank + [s[|s| - 1]]);
    } else {
      assert IsBlank("") && s == TrimEnd(s) + "";
    }
  }

  lemma {:induction false} TrimStartSplits(s: string)
    ensures exists blank :: IsBlank(blank) && s == blank + TrimStart(s)
    ensures |TrimStart(s)| > 0 ==> !IsSpace(TrimStart(s)[0])
    decreases |s|
  {
    if |s| > 0 && IsSpace(s[0]) {
      TrimStartSplits(s[1..]);
      var blank :| IsBlank(blank) && s[1..] == blank + TrimStart(s[1..]);
      assert IsBlank([s[0]] + blank) && s == ([s[0]] + blank) + TrimStart(s);
    } else {
      assert IsBlank("") && s == "" + TrimStart(s);
    }
  }

  /** Trimming takes white space off both ends and nothing else; nothing is left exactly of a blank text. */
  lemma TrimSplits(s: string)
    ensures exists left, right :: IsBlank(left) && IsBlank(right) && s == left + Trim(s) + right
    ensures Trim(s) == "" || IsTrimmed(Trim(s))
    ensures Trim(s) == "" <==> IsBlank(s)
  {
    TrimStartSplits(s);
    var left :| IsBlank(left) && s == left + TrimStart(s);
    TrimEndSplits(TrimStart(s));
    var right :| IsBlank(right) && TrimStart(s) == Trim(s) + right;
    assert s == left + Trim(s) + right;
    if Trim(s) != "" {
      assert TrimStart(s)[0] == Trim(s)[0] && s[|left|] == Trim(s)[0];
    }
  }

  // ---------------------------------------------------------------- block comments

  function Blanked(c: char): char {
    if c == '\n' then '\n' else ' '
  }

  function BlankAll(s: string): (blank: string)
    ensures |blank| == |s| && forall i :: 0 <= i < |s| ==> blank[i] == Blanked(s[i])
  {
    seq(|s|, i requires 0 <= i < |s| => Blanked(s[i]))
  }

  predicate PairAt(s: string, a: char, b: char, i: nat) {
    i + 1 < |s| && s[i] == a && s[i + 1] == b
  }

  /** The simple form of the scan: one character at a time, knowing whether a comment is open. */
  function Outside(s: string): (out: string)
    ensures |out| == |s|
    decreases |s|
  {
    if |s| == 0 then ""
    else if PairAt(s, '/', '*', 0) then "  " + Inside(s[2..])
    else [s[0]] + Outside(s[1..])
  }

  function Inside(s: string): (out: string)
    ensures |out| == |s|
    decreases |s|
  {
    if |s| == 0 then ""
    else if PairAt(s, '*', '/', 0) then "  " + Outside(s[2..])
    else [Blanked(s[0])] + Inside(s[1..])
  }

  /** The first occurrence of a pair of characters from a position on. */
  method IndexOf(s: string, a: char, b: char, from: nat) returns (found: Option<nat>)
    ensures found.Some? ==> from <= found.value && PairAt(s, a, b, found.value)
    ensures forall i: nat :: from <= i && (found.Some? ==> i < found.value) ==> !PairAt(s, a, b, i)
  {
    var i := from;
    while i + 1 < |s|
      invariant from <= i
      invariant forall j: nat :: from <= j < i ==> !PairAt(s, a, b, j)
    {
      if PairAt(s, a, b, i) { return Some(i); }
      i := i + 1;
    }
    return None;
  }

  lemma {:induction false} OutsideSkips(s: string, k: nat)
    requires k <= |s| && forall i: nat :: i < k ==> !PairAt(s, '/', '*', i)
    ensures Outside(s) == s[..k] + Outside(s[k..])
    decreases k
  {
    if k > 0 {
      assert !PairAt(s, '/', '*', 0);
      forall i: nat | i < k - 1 ensures !PairAt(s[1..], '/', '*', i) { assert !PairAt(s, '/', '*', i + 1); }
      OutsideSkips(s[1..], k - 1);
      assert s[1..][k - 1..] == s[k..] && [s[0]] + s[1..][..k - 1] == s[..k];
    } else {
      assert s[..0] == "" && s[0..] == s;
    }
  }

  lemma {:induction false} InsideSkips(s: string, k: nat)
    requires k <= |s| && forall i: nat :: i < k ==> !PairAt(s, '*', '/', i)
    ensures Inside(s) == BlankAll(s[..k]) + Inside(s[k..])
    decreases k
  {
    if k > 0 {
      assert !PairAt(s, '*', '/', 0);
      forall i: nat | i < k - 1 ensures !PairAt(s[1..], '*', '/', i) { assert !PairAt(s, '*', '/', i + 1); }
      InsideSkips(s[1..], k - 1);
      assert s[1..][k - 1..] == s[k..] && [Blanked(s[0])] + BlankAll(s[1..][..k - 1]) == BlankAll(s[..k]);
    } else {
      assert BlankAll(s[..0]) == "" && s[0..] == s;
    }
  }

  lemma Opening(s: string)
    requires PairAt(s, '/', '*', 0)
    ensures Outside(s) == "  " + Inside(s[2..])
  {
  }

  lemma Closing(s: string)
    requires PairAt(s, '*', '/', 0)
    ensures Inside(s) == "  " + Outside(s[2..])
  {
  }

  lemma Regroup(a: string, b: string, c: string)
    ensures a + (b + c) == (a + b) + c
  {
  }

  lemma BlankAllOpening(s: string, end: nat)
    requires 2 <= end <= |s| && PairAt(s, '/', '*', 0)
    ensures BlankAll(s[..end]) == "  " + BlankAll(s[2..][..end - 2])
  {
  }

  lemma BlankAllClosing(s: string, k: nat)
    requires PairAt(s, '*', '/', k)
    ensures BlankAll(s[..k + 2]) == BlankAll(s[..k]) + "  "
  {
  }

  /** From an opening on, as far as no closing follows. */
  lemma OpeningBlanks(s: string, end: nat)
    requires PairAt(s, '/', '*', 0) && 2 <= end <= |s|
    requires forall i: nat :: 2 <= i < end ==> !PairAt(s, '*', '/', i)
    ensures Outside(s) == BlankAll(s[..end]) + Inside(s[end..])
  {
    hide Outside, Inside, BlankAll;
    var body, k := s[2..], end - 2;
    Opening(s);
    forall i: nat | i < k ensures !PairAt(body, '*', '/', i) { assert !PairAt(s, '*', '/', i + 2); }
    InsideSkips(body, k);
    assert body[k..] == s[end..];
    BlankAllOpening(s, end);
    Regroup("  ", BlankAll(body[..k]), Inside(s[end..]));
  }

  /** A comment's characters are blanked, up to its closing or to the end of the text. */
  lemma CommentBlanks(s: string, close: Option<nat>)
    requires PairAt(s, '/', '*', 0)
    requires close.Some? ==> 2 <= close.value && PairAt(s, '*', '/', close.value)
    requires forall i: nat :: 2 <= i && (close.Some? ==> i < close.value) ==> !PairAt(s, '*', '/', i)
    ensures var end := if close.Some? then close.value + 2 else |s|;
            Outside(s) == BlankAll(s[..end]) + Outside(s[end..])
  {
    hide Outside, Inside, BlankAll;
    if close.Some? {
      var k := close.value;
      OpeningBlanks(s, k);
      Closing(s[k..]);
      BlankAllClosing(s, k);
      assert s[k..][2..] == s[k + 2..];
      Regroup(BlankAll(s[..k]), "  ", Outside(s[k + 2..]));
    } else {
      OpeningBlanks(s, |s|);
      assert s[|s|..] == "" && |Inside(s[|s|..])| == 0 && |Outside(s[|s|..])| == 0;
    }
  }

  lemma OutsideFrom(s: string, from: nat, to: nat)
    requires from <= to <= |s| && forall i: nat :: from <= i < to ==> !PairAt(s, '/', '*', i)
    ensures Outside(s[from..]) == s[from..to] + Outside(s[to..])
  {
    hide Outside;
    var rest, k := s[from..], to - from;
    forall i: nat | i < k ensures !PairAt(rest, '/', '*', i) { assert !PairAt(s, '/', '*', from + i); }
    OutsideSkips(rest, k);
    assert rest[..k] == s[from..to] && rest[k..] == s[to..];
  }

  lemma OutsideEnd(s: string, from: nat)
    requires from <= |s| && forall i: nat :: from <= i ==> !PairAt(s, '/', '*', i)
    ensures Outside(s[from..]) == s[from..]
  {
    hide Outside;
    OutsideFrom(s, from, |s|);
    assert s[from..|s|] == s[from..] && |Outside(s[|s|..])| == 0;
  }

  lemma CommentFrom(s: string, start: nat, close: Option<nat>)
    requires PairAt(s, '/', '*', start)
    requires close.Some? ==> start + 2 <= close.value && PairAt(s, '*', '/', close.value)
    requires forall i: nat :: start + 2 <= i && (close.Some? ==> i < close.value) ==> !PairAt(s, '*', '/', i)
    ensures var end := if close.Some? then close.value + 2 else |s|;
            Outside(s[start..]) == BlankAll(s[start..end]) + Outside(s[end..])
  {
    hide Outside, BlankAll;
    var rest := s[start..];
    var local := if close.Some? then Some(close.value - start) else None;
    forall i: nat | 2 <= i && (local.Some? ==> i < local.value) ensures !PairAt(rest, '*', '/', i) {
      assert !PairAt(s, '*', '/', start + i);
    }
    CommentBlanks(rest, local);
    var end := if close.Some? then close.value + 2 else |s|;
    assert rest[..end - start] == s[start..end] && rest[end - start..] == s[end..];
  }

  /** Two searches a comment instead of a look at every character, with the same result. */
  method StripBlockComments(source: string) returns (stripped: string)
    ensures stripped == Outside(source)
  {
    hide Outside, BlankAll;
    var pieces := "";
    var index := 0;
    assert source[0..] == source;
    while index < |source|
      invariant 0 <= index <= |source|
      invariant Outside(source) == pieces + Outside(source[index..])
    {
      var start := IndexOf(source, '/', '*', index);
      if start.None? {
        OutsideEnd(source, index);
        return pieces + source[index..];
      }
      OutsideFrom(source, index, start.value);
      Regroup(pieces, source[index..start.value], Outside(source[start.value..]));
      pieces := pieces + source[index..start.value];
      var close := IndexOf(source, '*', '/', start.value + 2);
      var commentEnd := if close.None? then |source| else close.value + 2;
      CommentFrom(source, start.value, close);
      Regroup(pieces, BlankAll(source[start.value..commentEnd]), Outside(source[commentEnd..]));
      pieces := pieces + BlankAll(source[start.value..commentEnd]);
      index := commentEnd;
    }
    assert |Outside(source[index..])| == 0;
    return pieces;
  }

  lemma {:induction false} OutsideHasNoOpening(s: string, i: nat)
    ensures !PairAt(Outside(s), '/', '*', i)
    decreases |s|
  {
    if |s| > 0 && PairAt(s, '/', '*', 0) {
      if i >= 2 { InsideHasNoOpening(s[2..], i - 2); }
    } else if |s| > 0 {
      if i > 0 { OutsideHasNoOpening(s[1..], i - 1); }
    }
  }

  lemma {:induction false} InsideHasNoOpening(s: string, i: nat)
    ensures !PairAt(Inside(s), '/', '*', i)
    decreases |s|
  {
    if |s| > 0 && PairAt(s, '*', '/', 0) {
      if i >= 2 { OutsideHasNoOpening(s[2..], i - 2); }
    } else if |s| > 0 {
      if i > 0 { InsideHasNoOpening(s[1..], i - 1); }
    }
  }

  /** No comment is left, and stripping once is enough. */
  lemma StrippingIsComplete(s: string)
    ensures forall i: nat :: !PairAt(Outside(s), '/', '*', i)
    ensures Outside(Outside(s)) == Outside(s)
  {
    forall i: nat ensures !PairAt(Outside(s), '/', '*', i) { OutsideHasNoOpening(s, i); }
    OutsideSkips(Outside(s), |s|);
    assert Outside(s)[..|s|] == Outside(s) && Outside(s)[|s|..] == "";
  }

  // ---------------------------------------------------------------- line comments

  predicate HasNoLineEnd(s: string) {
    forall i :: 0 <= i < |s| ==> !IsLineEnd(s[i])
  }

  /** Drops the first `//` that the dot can follow to the end of the line, and all behind it. */
  function StripLineComment(s: string): string {
    if |s| == 0 then ""
    else if PairAt(s, '/', '/', 0) && HasNoLineEnd(s) then ""
    else [s[0]] + StripLineComment(s[1..])
  }

  lemma {:induction false} NoLineComment(s: string)
    requires forall i: nat :: PairAt(s, '/', '/', i) ==> !HasNoLineEnd(s[i..])
    ensures StripLineComment(s) == s
    decreases |s|
  {
    if |s| > 0 {
      assert s[0..] == s;
      assert PairAt(s, '/', '/', 0) ==> !HasNoLineEnd(s[0..]);
      forall i: nat | PairAt(s[1..], '/', '/', i) ensures !HasNoLineEnd(s[1..][i..]) {
        assert PairAt(s, '/', '/', i + 1) && s[1..][i..] == s[i + 1..];
      }
      NoLineComment(s[1..]);
    }
  }

  /** Whatever stands up to the last line end of a text survives. */
  lemma {:induction false} LineEndKeeps(s: string, k: nat)
    requires k < |s| && IsLineEnd(s[k])
    ensures |StripLineComment(s)| > k
    decreases k
  {
    if k > 0 {
      assert s[1..][k - 1] == s[k];
      LineEndKeeps(s[1..], k - 1);
    }
  }

  /** A line comment is taken out exactly when no line end stands behind it: before a carriage return it stays code. */
  lemma {:induction false} LineCommentGoes(code: string, comment: string)
    requires HasNoLineEnd(code) && (forall i: nat :: !PairAt(code, '/', '/', i))
      && (|code| > 0 ==> code[|code| - 1] != '/')
    ensures StripLineComment(code + "//" + comment) == code <==> HasNoLineEnd(comment)
    decreases |code|
  {
    var s := code + "//" + comment;
    if HasNoLineEnd(comment) {
      if |code| == 0 {
        assert s == "//" + comment && PairAt(s, '/', '/', 0);
      } else {
        forall i: nat ensures !PairAt(code[1..], '/', '/', i) { assert !PairAt(code, '/', '/', i + 1); }
        LineCommentGoes(code[1..], comment);
        assert s[1..] == code[1..] + "//" + comment;
        assert !PairAt(s, '/', '/', 0) by { assert !PairAt(code, '/', '/', 0); }
      }
    } else {
      var k :| 0 <= k < |comment| && IsLineEnd(comment[k]);
      assert s[|code| + 2 + k] == comment[k];
      LineEndKeeps(s, |code| + 2 + k);
    }
  }

  // ---------------------------------------------------------------- lines

  predicate OneLine(s: string) {
    forall i :: 0 <= i < |s| ==> s[i] != '\n'
  }

  /** The text cut at its newlines. */
  function Lines(s: string): (lines: seq<string>)
    ensures |lines| > 0
  {
    if |s| == 0 then [""]
    else
      var before := Lines(s[..|s| - 1]);
      var last := s[|s| - 1];
      if last == '\n' then before + [""] else before[..|before| - 1] + [before[|before| - 1] + [last]]
  }

  /** Each line closed by a newline. */
  function Document(lines: seq<string>): string {
    if |lines| == 0 then "" else Document(lines[..|lines| - 1]) + lines[|lines| - 1] + "\n"
  }

  lemma {:induction false} LinesAppend(s: string, line: string)
    requires OneLine(line)
    ensures var before := Lines(s); Lines(s + line) == before[..|before| - 1] + [before[|before| - 1] + line]
    decreases |line|
  {
    hide Lines;
    var before := Lines(s);
    if |line| > 0 {
      var init, c := line[..|line| - 1], line[|line| - 1];
      LinesAppend(s, init);
      LinesStep(s + init, c);
      assert s + init + [c] == s + line && init + [c] == line;
      Regroup(before[|before| - 1], init, [c]);
    } else {
      assert s + line == s && before[|before| - 1] + line == before[|before| - 1];
    }
  }

  lemma LinesStep(s: string, c: char)
    requires c != '\n'
    ensures var before := Lines(s); Lines(s + [c]) == before[..|before| - 1] + [before[|before| - 1] + [c]]
  {
    assert (s + [c])[..|s|] == s;
  }

  lemma {:induction false} LinesOfDocument(lines: seq<string>)
    requires forall i :: 0 <= i < |lines| ==> OneLine(lines[i])
    ensures Lines(Document(lines)) == lines + [""]
    decreases |lines|
  {
    if |lines| > 0 {
      var init, last := lines[..|lines| - 1], lines[|lines| - 1];
      LinesOfDocument(init);
      LinesAppend(Document(init), last);
      var text := Document(init) + last;
      assert Document(lines)[..|Document(lines)| - 1] == text;
      assert Lines(text) == init + ["" + last] && "" + last == last && init + [last] == lines;
    }
  }

  // ---------------------------------------------------------------- statements

  /** The text of a statement and the line it starts on. */
  datatype Statement = Statement(text: string, line: nat)

  /** What has been read: the statements so far, the characters of the open one and its line. */
  datatype Scan = Scan(statements: seq<Statement>, buffer: string, startLine: nat)

  function Push(scan: Scan, line: nat): Scan {
    var text := Trim(scan.buffer);
    Scan(if |text| > 0 then scan.statements + [Statement(text, scan.startLine)] else scan.statements, "", line)
  }

  /** The plain form of a step: whether the open statement has begun is looked up in the buffer every time. */
  function ScanCharacter(scan: Scan, c: char, line: nat): Scan {
    if c == ';' then Push(scan, line)
    else if c == '{' || c == '}' then
      var pushed := Push(scan, line);
      pushed.(statements := pushed.statements + [Statement([c], line)])
    else
      Scan(scan.statements, scan.buffer + [c], if IsBlank(scan.buffer) && !IsSpace(c) then line else scan.startLine)
  }

  function ScanLine(scan: Scan, s: string, line: nat): Scan {
    if |s| == 0 then scan else ScanCharacter(ScanLine(scan, s[..|s| - 1], line), s[|s| - 1], line)
  }

  /** The lines read in order, the first being line 1; a line break stands for a space. */
  function ScanLines(lines: seq<string>): Scan {
    if |lines| == 0 then Scan([], "", 1)
    else
      var scan := ScanLine(ScanLines(lines[..|lines| - 1]), StripLineComment(lines[|lines| - 1]), |lines|);
      scan.(buffer := scan.buffer + " ")
  }

  function Statements(source: string): seq<Statement> {
    var lines := Lines(Outside(source));
    Push(ScanLines(lines), |lines| + 1).statements
  }

  /** The scan with a flag carried along in place of the repeated look at the buffer. */
  method SplitStatements(source: string) returns (statements: seq<Statement>)
    ensures statements == Statements(source)
  {
    hide Trim, IsSpace, IsBlank, StripLineComment, Lines, Outside;
    EmptyIsBlank();
    var withoutBlockComments := StripBlockComments(source);
    var buffered := "";
    var bufferHasContent := false;
    var line := 1;
    var bufferStartLine := 1;
    statements := [];
    var lines := Lines(withoutBlockComments);
    for index := 0 to |lines|
      invariant line == index + 1
      invariant Scan(statements, buffered, bufferStartLine) == ScanLines(lines[..index])
      invariant bufferHasContent <==> !IsBlank(buffered)
    {
      var stripped := StripLineComment(lines[index]);
      ghost var before := Scan(statements, buffered, bufferStartLine);
      for k := 0 to |stripped|
        invariant Scan(statements, buffered, bufferStartLine) == ScanLine(before, stripped[..k], line)
        invariant bufferHasContent <==> !IsBlank(buffered)
      {
        var character := stripped[k];
        assert stripped[..k + 1][..k] == stripped[..k];
        if character == ';' || character == '{' || character == '}' {
          var text := Trim(buffered);
          if |text| > 0 {
            statements := statements + [Statement(text, bufferStartLine)];
          }
          buffered, bufferHasContent, bufferStartLine := "", false, line;
          if character != ';' {
            statements := statements + [Statement([character], line)];
          }
        } else {
          var characterHasContent := !IsSpace(character);
          if !bufferHasContent && characterHasContent {
            bufferStartLine := line;
          }
          BlankAppend(buffered, character);
          if characterHasContent {
            bufferHasContent := true;
          }
          buffered := buffered + [character];
        }
      }
      assert stripped[..|stripped|] == stripped && lines[..index + 1][..index] == lines[..index];
      BlankAppend(buffered, ' ');
      SpaceIsSpace();
      buffered := buffered + " ";
      line := line + 1;
    }
    assert lines[..|lines|] == lines;
    var text := Trim(buffered);
    if |text| > 0 {
      statements := statements + [Statement(text, bufferStartLine)];
    }
  }

  lemma EmptyIsBlank()
    ensures IsBlank("")
  {
  }

  lemma SpaceIsSpace()
    ensures IsSpace(' ')
  {
  }

  lemma BlankAppend(s: string, c: char)
    ensures IsBlank(s + [c]) <==> IsBlank(s) && IsSpace(c)
  {
    if IsBlank(s + [c]) {
      forall i | 0 <= i < |s| ensures IsSpace(s[i]) { assert (s + [c])[i] == s[i]; }
      assert (s + [c])[|s|] == c;
    }
  }

  // ---------------------------------------------------------------- text that comes back as it was written

  predicate PlainCharacter(c: char) {
    c != ';' && c != '{' && c != '}' && (IsSpace(c) ==> c == ' ')
  }

  predicate PlainPair(a: char, b: char) {
    !(a == ' ' && b == ' ') && !(a == '/' && (b == '/' || b == '*'))
  }

  /** No delimiter, no comment, and no white space but single spaces. */
  predicate IsClean(s: string) {
    && (forall i :: 0 <= i < |s| ==> PlainCharacter(s[i]))
    && (forall i :: 0 < i < |s| ==> PlainPair(s[i - 1], s[i]))
  }

  lemma CleanConcat(a: string, b: string)
    requires IsClean(a) && IsClean(b)
    requires |a| > 0 && |b| > 0 ==> PlainPair(a[|a| - 1], b[0])
    ensures IsClean(a + b)
  {
    var s := a + b;
    forall i | 0 < i < |s| ensures PlainPair(s[i - 1], s[i]) {
      if i < |a| {
        assert PlainPair(a[i - 1], a[i]);
      } else if i > |a| {
        assert PlainPair(b[i - |a| - 1], b[i - |a|]);
      }
    }
  }

  /** A line holding one statement, or nothing. */
  predicate IsLine(line: string) {
    line != "" ==>
      var text := line[..|line| - 1];
      line[|line| - 1] == ';' && IsClean(text) && IsTrimmed(text)
  }

  /** The statements of such lines, each on its own line. */
  function StatementsOf(lines: seq<string>): seq<Statement> {
    if |lines| == 0 then []
    else
      var before, line := StatementsOf(lines[..|lines| - 1]), lines[|lines| - 1];
      if line == "" then before else before + [Statement(line[..|line| - 1], |lines|)]
  }

  lemma LineHasNoOpening(line: string, b: char, i: nat)
    requires IsLine(line) && (b == '/' || b == '*')
    ensures !PairAt(line, '/', b, i)
  {
    if i + 1 < |line| - 1 {
      assert PlainPair(line[..|line| - 1][i], line[..|line| - 1][i + 1]);
    }
  }

  lemma {:induction false} DocumentHasNoOpening(lines: seq<string>, i: nat)
    requires forall k :: 0 <= k < |lines| ==> IsLine(lines[k])
    ensures !PairAt(Document(lines), '/', '*', i)
    ensures |Document(lines)| > 0 ==> Document(lines)[|Document(lines)| - 1] == '\n'
    decreases |lines|
  {
    if |lines| > 0 {
      var init, last := lines[..|lines| - 1], lines[|lines| - 1];
      DocumentHasNoOpening(init, i);
      var before := Document(init);
      if i >= |before| {
        LineHasNoOpening(last, '*', i - |before|);
      }
    }
  }

  lemma {:induction false} ScanPlain(scan: Scan, text: string, k: nat, line: nat)
    requires IsBlank(scan.buffer) && IsClean(text) && IsTrimmed(text) && 0 < k <= |text|
    ensures ScanLine(scan, text[..k], line) == Scan(scan.statements, scan.buffer + text[..k], line)
    decreases k
  {
    hide Push, Trim;
    var c, before := text[k - 1], text[..k - 1];
    assert text[..k][..k - 1] == before && before + [c] == text[..k];
    assert PlainCharacter(c);
    if k > 1 {
      ScanPlain(scan, text, k - 1, line);
      assert (scan.buffer + before)[|scan.buffer|] == text[0];
      assert scan.buffer + before + [c] == scan.buffer + text[..k];
    } else {
      assert ScanLine(scan, before, line) == scan;
    }
  }

  lemma ScanStatement(scan: Scan, text: string, line: nat)
    requires IsBlank(scan.buffer) && IsClean(text) && IsTrimmed(text)
    ensures ScanLine(scan, text + ";", line) == Scan(scan.statements + [Statement(text, line)], "", line)
  {
    hide IsClean, Trim;
    assert text[..|text|] == text;
    ScanPlain(scan, text, |text|, line);
    assert (text + ";")[..|text|] == text;
    TrimPadded(scan.buffer, text);
  }

  lemma LineStays(line: string)
    requires IsLine(line)
    ensures StripLineComment(line) == line && OneLine(line)
  {
    forall i: nat ensures !PairAt(line, '/', '/', i) { LineHasNoOpening(line, '/', i); }
    NoLineComment(line);
    if line != "" {
      forall i | 0 <= i < |line| - 1 ensures line[i] != '\n' { assert PlainCharacter(line[..|line| - 1][i]); }
    }
  }

  lemma ScanNothing(scan: Scan, line: nat)
    ensures ScanLine(scan, "", line) == scan
  {
  }

  lemma NothingIsLine()
    ensures IsLine("")
  {
  }

  lemma {:induction false} ScanDocument(lines: seq<string>)
    requires forall k :: 0 <= k < |lines| ==> IsLine(lines[k])
    ensures ScanLines(lines).statements == StatementsOf(lines) && IsBlank(ScanLines(lines).buffer)
    decreases |lines|
  {
    hide StripLineComment, IsClean, ScanLine;
    if |lines| > 0 {
      var init, line := lines[..|lines| - 1], lines[|lines| - 1];
      ScanDocument(init);
      LineStays(line);
      var before := ScanLines(init);
      if line == "" {
        ScanNothing(before, |lines|);
        BlankAppend(before.buffer, ' ');
      } else {
        var text := line[..|line| - 1];
        assert text + ";" == line;
        ScanStatement(before, text, |lines|);
      }
    }
  }

  lemma DocumentHasNoComment(lines: seq<string>)
    requires forall k :: 0 <= k < |lines| ==> IsLine(lines[k])
    ensures Outside(Document(lines)) == Document(lines)
  {
    hide Outside, Document, IsLine;
    var text := Document(lines);
    forall i: nat ensures !PairAt(text, '/', '*', i) { DocumentHasNoOpening(lines, i); }
    OutsideEnd(text, 0);
    assert text[0..] == text;
  }

  /** A document of such lines splits into exactly their statements. */
  lemma DocumentSplits(lines: seq<string>)
    requires forall k :: 0 <= k < |lines| ==> IsLine(lines[k])
    ensures Statements(Document(lines)) == StatementsOf(lines)
  {
    hide Outside, Document, Lines, IsLine, ScanLines, Trim, IsBlank;
    DocumentHasNoComment(lines);
    forall k | 0 <= k < |lines| ensures OneLine(lines[k]) { LineStays(lines[k]); }
    LinesOfDocument(lines);
    var all := lines + [""];
    NothingIsLine();
    ScanDocument(all);
    assert all[..|all| - 1] == lines;
    TrimBlank(ScanLines(all).buffer);
  }
}
