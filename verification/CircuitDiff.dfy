/**
 * The structural diff of two circuits (src/circuit/diff.ts:103-299). Operations are compared through a key, and two
 * operations with one key need not be the same object; keys and operations are arbitrary here.
 */
module CircuitDiff {
  import opened Options

  // ---------------------------------------------------------------- longest common subsequences

  /** The length of a longest common subsequence of left[r..] and right[c..]. */
  function Lcs<K(==)>(left: seq<K>, right: seq<K>, r: nat, c: nat): nat
    requires r <= |left| && c <= |right|
    decreases |left| - r + |right| - c
  {
    if r == |left| || c == |right| then 0
    else if left[r] == right[c] then Lcs(left, right, r + 1, c + 1) + 1
    else
      var down, across := Lcs(left, right, r + 1, c), Lcs(left, right, r, c + 1);
      if down >= across then down else across
  }

  /** Index pairs that go up in both circuits and match by key: a common subsequence, from a start position on. */
  predicate IsAlignment<K(==)>(pairs: seq<(nat, nat)>, left: seq<K>, right: seq<K>, r: nat, c: nat) {
    && (forall i :: 0 <= i < |pairs| ==>
          && r <= pairs[i].0 < |left| && c <= pairs[i].1 < |right|
          && left[pairs[i].0] == right[pairs[i].1])
    && forall i, j :: 0 <= i < j < |pairs| ==> pairs[i].0 < pairs[j].0 && pairs[i].1 < pairs[j].1
  }

  /** Moving on in one circuit loses at most one match. */
  lemma {:induction false} LcsSteps<K>(left: seq<K>, right: seq<K>, r: nat, c: nat)
    requires r <= |left| && c <= |right|
    ensures r < |left| ==> Lcs(left, right, r + 1, c) <= Lcs(left, right, r, c) <= Lcs(left, right, r + 1, c) + 1
    ensures c < |right| ==> Lcs(left, right, r, c + 1) <= Lcs(left, right, r, c) <= Lcs(left, right, r, c + 1) + 1
    decreases |left| - r + |right| - c
  {
    if r < |left| && c < |right| {
      LcsSteps(left, right, r + 1, c);
      LcsSteps(left, right, r, c + 1);
    }
  }

  /** No common subsequence is longer. */
  lemma {:induction false} LcsIsLongest<K>(pairs: seq<(nat, nat)>, left: seq<K>, right: seq<K>, r: nat, c: nat)
    requires r <= |left| && c <= |right| && IsAlignment(pairs, left, right, r, c)
    ensures |pairs| <= Lcs(left, right, r, c)
    decreases |left| - r + |right| - c
  {
    if |pairs| > 0 {
      var (first, second) := pairs[0];
      assert r <= first < |left| && c <= second < |right|;
      if left[r] == right[c] {
        LcsIsLongest(pairs[1..], left, right, r + 1, c + 1);
      } else if first > r {
        LcsIsLongest(pairs, left, right, r + 1, c);
      } else {
        LcsIsLongest(pairs, left, right, r, c + 1);
      }
    }
  }

  const TABLE_LIMIT: nat := 4_000_000

  ghost predicate RowDone<K>(table: array2<nat>, left: seq<K>, right: seq<K>, row: nat, from: nat)
    reads table
    requires row <= |left| && from <= |right| + 1 && table.Length0 == |left| + 1 && table.Length1 == |right| + 1
  {
    forall j :: from <= j <= |right| ==> table[row, j] == Lcs(left, right, row, j)
  }

  /** One row of the table, from the last column to the first. */
  method FillRow<K(==)>(table: array2<nat>, left: seq<K>, right: seq<K>, row: nat)
    requires row < |left| && table.Length0 == |left| + 1 && table.Length1 == |right| + 1
    requires RowDone(table, left, right, row + 1, 0) && RowDone(table, left, right, row, |right|)
    modifies table
    ensures RowDone(table, left, right, row, 0)
    ensures forall i, j :: 0 <= i <= |left| && 0 <= j <= |right| && i != row ==> table[i, j] == old(table[i, j])
  {
    for column := |right| downto 0
      invariant RowDone(table, left, right, row + 1, 0) && RowDone(table, left, right, row, column)
      invariant forall i, j :: 0 <= i <= |left| && 0 <= j <= |right| && i != row ==> table[i, j] == old(table[i, j])
    {
      var down, across := table[row + 1, column], table[row, column + 1];
      assert down == Lcs(left, right, row + 1, column) && across == Lcs(left, right, row, column + 1);
      assert table[row + 1, column + 1] == Lcs(left, right, row + 1, column + 1);
      table[row, column] :=
        if left[row] == right[column] then table[row + 1, column + 1] + 1
        else if down >= across then down else across;
    }
  }

  /** The table of the lengths for every pair of suffixes. */
  method FillTable<K(==)>(left: seq<K>, right: seq<K>) returns (table: array2<nat>)
    ensures table.Length0 == |left| + 1 && table.Length1 == |right| + 1
    ensures forall i :: 0 <= i <= |left| ==> RowDone(table, left, right, i, 0)
    ensures fresh(table)
  {
    table := new nat[|left| + 1, |right| + 1]((i, j) => 0);
    for row := |left| downto 0
      invariant forall i :: row <= i <= |left| ==> RowDone(table, left, right, i, 0)
      invariant forall i :: 0 <= i < row ==> RowDone(table, left, right, i, |right|)
    {
      label Before:
      FillRow(table, left, right, row);
      forall i | row < i <= |left| ensures RowDone(table, left, right, i, 0) {
        assert old@Before(RowDone(table, left, right, i, 0));
      }
      forall i | 0 <= i < row ensures RowDone(table, left, right, i, |right|) {
        assert old@Before(RowDone(table, left, right, i, |right|));
      }
    }
  }

  lemma Extended<K>(pairs: seq<(nat, nat)>, left: seq<K>, right: seq<K>, r: nat, c: nat)
    requires IsAlignment(pairs, left, right, 0, 0) && r < |left| && c < |right| && left[r] == right[c]
    requires forall i :: 0 <= i < |pairs| ==> pairs[i].0 < r && pairs[i].1 < c
    ensures IsAlignment(pairs + [(r, c)], left, right, 0, 0)
  {
  }

  /** Fills the table of suffix lengths from the end and walks it from the start; large tables are refused. */
  method CommonSubsequence<K(==)>(left: seq<K>, right: seq<K>) returns (result: Option<seq<(nat, nat)>>)
    ensures result.None? <==> |left| * |right| > 4_000_000
    ensures result.Some? ==> (
      && IsAlignment(result.value, left, right, 0, 0)
      && |result.value| == Lcs(left, right, 0, 0)
      && forall other :: IsAlignment(other, left, right, 0, 0) ==> |other| <= |result.value|)
  {
    hide IsAlignment;
    var rows, columns := |left|, |right|;
    if rows * columns > TABLE_LIMIT { return None; }
    var table := FillTable(left, right);
    var pairs: seq<(nat, nat)> := [];
    var row, column := 0, 0;
    NoPairs(left, right);
    while row < rows && column < columns
      invariant row <= rows && column <= columns
      invariant IsAlignment(pairs, left, right, 0, 0)
      invariant forall i :: 0 <= i < |pairs| ==> pairs[i].0 < row && pairs[i].1 < column
      invariant |pairs| + Lcs(left, right, row, column) == Lcs(left, right, 0, 0)
      decreases rows - row + columns - column
      modifies {}
    {
      assert RowDone(table, left, right, row, 0) && RowDone(table, left, right, row + 1, 0);
      if left[row] == right[column] {
        Extended(pairs, left, right, row, column);
        pairs := pairs + [(row, column)];
        row, column := row + 1, column + 1;
      } else if table[row + 1, column] >= table[row, column + 1] {
        row := row + 1;
      } else {
        column := column + 1;
      }
    }
    forall other | IsAlignment(other, left, right, 0, 0) ensures |other| <= |pairs| {
      LcsIsLongest(other, left, right, 0, 0);
    }
    return Some(pairs);
  }

  lemma NoPairs<K>(left: seq<K>, right: seq<K>)
    ensures IsAlignment([], left, right, 0, 0)
  {
  }

  // ---------------------------------------------------------------- diffs

  datatype Kind = Unchanged | Added | Removed

  datatype Entry<Op> = Entry(kind: Kind, operation: Op, leftIndex: Option<nat>, rightIndex: Option<nat>)

  function Keys<Op, K>(operations: seq<Op>, key: Op -> K): (keys: seq<K>)
    ensures |keys| == |operations| && forall i :: 0 <= i < |keys| ==> keys[i] == key(operations[i])
  {
    seq(|operations|, i requires 0 <= i < |operations| => key(operations[i]))
  }

  function Upto(n: nat): (s: seq<nat>)
    ensures |s| == n && forall i :: 0 <= i < n ==> s[i] == i
  {
    seq(n, i => i)
  }

  function IndexList(index: Option<nat>): seq<nat> {
    match index case Some(i) => [i] case None => []
  }

  /** The positions in the left circuit that the entries name, in order. */
  function LeftIndices<Op>(entries: seq<Entry<Op>>): seq<nat> {
    if |entries| == 0 then []
    else LeftIndices(entries[..|entries| - 1]) + IndexList(entries[|entries| - 1].leftIndex)
  }

  function RightIndices<Op>(entries: seq<Entry<Op>>): seq<nat> {
    if |entries| == 0 then []
    else RightIndices(entries[..|entries| - 1]) + IndexList(entries[|entries| - 1].rightIndex)
  }

  /** An entry is what its kind and its indices say. */
  predicate IsAccurate<Op(==), K(==)>(entry: Entry<Op>, left: seq<Op>, right: seq<Op>, key: Op -> K) {
    match entry.kind
    case Removed =>
      entry.rightIndex.None? && entry.leftIndex.Some? && entry.leftIndex.value < |left|
      && entry.operation == left[entry.leftIndex.value]
    case Added =>
      entry.leftIndex.None? && entry.rightIndex.Some? && entry.rightIndex.value < |right|
      && entry.operation == right[entry.rightIndex.value]
    case Unchanged =>
      entry.leftIndex.Some? && entry.leftIndex.value < |left|
      && entry.rightIndex.Some? && entry.rightIndex.value < |right|
      && entry.operation == left[entry.leftIndex.value]
      && key(entry.operation) == key(right[entry.rightIndex.value])
  }

  function CountKind<Op>(entries: seq<Entry<Op>>, kind: Kind): nat {
    if |entries| == 0 then 0
    else CountKind(entries[..|entries| - 1], kind) + if entries[|entries| - 1].kind == kind then 1 else 0
  }

  /** A diff accounts for both circuits: every position of each exactly once, in order, and every entry accurate. */
  predicate Accounts<Op(==), K(==)>(
    entries: seq<Entry<Op>>, left: seq<Op>, right: seq<Op>, key: Op -> K, leftDone: nat, rightDone: nat)
  {
    && (forall i :: 0 <= i < |entries| ==> IsAccurate(entries[i], left, right, key))
    && LeftIndices(entries) == Upto(leftDone)
    && RightIndices(entries) == Upto(rightDone)
  }

  lemma Push<Op, K>(
    entries: seq<Entry<Op>>, entry: Entry<Op>, left: seq<Op>, right: seq<Op>, key: Op -> K, leftDone: nat,
    rightDone: nat)
    requires Accounts(entries, left, right, key, leftDone, rightDone) && IsAccurate(entry, left, right, key)
    requires entry.leftIndex.Some? ==> entry.leftIndex.value == leftDone
    requires entry.rightIndex.Some? ==> entry.rightIndex.value == rightDone
    ensures Accounts(entries + [entry], left, right, key,
                     leftDone + |IndexList(entry.leftIndex)|, rightDone + |IndexList(entry.rightIndex)|)
    ensures forall kind ::
      CountKind(entries + [entry], kind) == CountKind(entries, kind) + if entry.kind == kind then 1 else 0
  {
    hide IsAccurate;
    assert (entries + [entry])[..|entries|] == entries;
  }

  /** Between two matches what is removed comes before what is added. */
  predicate RemovedFirst<Op>(entries: seq<Entry<Op>>) {
    forall i :: 0 <= i < |entries| - 1 && entries[i].kind == Added ==> entries[i + 1].kind != Removed
  }

  predicate EndsInAdded<Op>(entries: seq<Entry<Op>>) {
    |entries| > 0 && entries[|entries| - 1].kind == Added
  }

  lemma PushInOrder<Op>(entries: seq<Entry<Op>>, entry: Entry<Op>)
    requires RemovedFirst(entries) && (entry.kind == Removed ==> !EndsInAdded(entries))
    ensures RemovedFirst(entries + [entry]) && (EndsInAdded(entries + [entry]) <==> entry.kind == Added)
  {
  }

  /** What diffing puts around a match: the operations of one circuit up to it. */
  method EmitRemoved<Op(==), K(==)>(
    entries: seq<Entry<Op>>, left: seq<Op>, right: seq<Op>, ghost key: Op -> K,
    from: nat, to: nat, ghost rightDone: nat, matched: set<nat>)
    returns (extended: seq<Entry<Op>>)
    requires from <= to <= |left| && forall i :: from <= i < to ==> i !in matched
    requires Accounts(entries, left, right, key, from, rightDone) && RemovedFirst(entries) && !EndsInAdded(entries)
    ensures Accounts(extended, left, right, key, to, rightDone) && RemovedFirst(extended) && !EndsInAdded(extended)
    ensures CountKind(extended, Unchanged) == CountKind(entries, Unchanged)
  {
    hide Accounts, CountKind, RemovedFirst, EndsInAdded;
    extended := entries;
    var cursor := from;
    while cursor < to
      invariant from <= cursor <= to
      invariant Accounts(extended, left, right, key, cursor, rightDone)
      invariant RemovedFirst(extended) && !EndsInAdded(extended)
      invariant CountKind(extended, Unchanged) == CountKind(entries, Unchanged)
    {
      if cursor !in matched {
        var entry := Entry(Removed, left[cursor], Some(cursor), None);
        Push(extended, entry, left, right, key, cursor, rightDone);
        PushInOrder(extended, entry);
        extended := extended + [entry];
      }
      cursor := cursor + 1;
    }
  }

  method EmitAdded<Op(==), K(==)>(
    entries: seq<Entry<Op>>, left: seq<Op>, right: seq<Op>, ghost key: Op -> K,
    ghost leftDone: nat, from: nat, to: nat, matched: set<nat>)
    returns (extended: seq<Entry<Op>>)
    requires from <= to <= |right| && forall i :: from <= i < to ==> i !in matched
    requires Accounts(entries, left, right, key, leftDone, from) && RemovedFirst(entries)
    ensures Accounts(extended, left, right, key, leftDone, to) && RemovedFirst(extended)
    ensures CountKind(extended, Unchanged) == CountKind(entries, Unchanged)
  {
    hide Accounts, CountKind, RemovedFirst, EndsInAdded;
    extended := entries;
    var cursor := from;
    while cursor < to
      invariant from <= cursor <= to
      invariant Accounts(extended, left, right, key, leftDone, cursor) && RemovedFirst(extended)
      invariant CountKind(extended, Unchanged) == CountKind(entries, Unchanged)
    {
      if cursor !in matched {
        var entry := Entry(Added, right[cursor], None, Some(cursor));
        Push(extended, entry, left, right, key, leftDone, cursor);
        PushInOrder(extended, entry);
        extended := extended + [entry];
      }
      cursor := cursor + 1;
    }
  }

  function MatchedLeft(pairs: seq<(nat, nat)>): set<nat> {
    set p | p in pairs :: p.0
  }

  function MatchedRight(pairs: seq<(nat, nat)>): set<nat> {
    set p | p in pairs :: p.1
  }

  /** The cursors stand after the first matches and not beyond the others. */
  ghost predicate Between(pairs: seq<(nat, nat)>, index: nat, leftCursor: nat, rightCursor: nat) {
    && (forall i :: 0 <= i < index && i < |pairs| ==> pairs[i].0 < leftCursor && pairs[i].1 < rightCursor)
    && forall i :: index <= i < |pairs| ==> leftCursor <= pairs[i].0 && rightCursor <= pairs[i].1
  }

  /** No match lies between the cursors and the next match, or the end. */
  lemma NoneBetween(pairs: seq<(nat, nat)>, index: nat, leftCursor: nat, rightCursor: nat, leftEnd: nat, rightEnd: nat)
    requires Between(pairs, index, leftCursor, rightCursor) && index <= |pairs|
    requires forall i :: index <= i < |pairs| ==> leftEnd <= pairs[i].0 && rightEnd <= pairs[i].1
    ensures forall k :: leftCursor <= k < leftEnd ==> k !in MatchedLeft(pairs)
    ensures forall k :: rightCursor <= k < rightEnd ==> k !in MatchedRight(pairs)
  {
    forall p | p in pairs ensures !(leftCursor <= p.0 < leftEnd) && !(rightCursor <= p.1 < rightEnd) {
      var i :| 0 <= i < |pairs| && pairs[i] == p;
      assert i < index || index <= i;
    }
  }

  lemma NextMatch<K>(pairs: seq<(nat, nat)>, left: seq<K>, right: seq<K>, index: nat, leftCursor: nat, rightCursor: nat)
    requires IsAlignment(pairs, left, right, 0, 0) && index < |pairs|
    requires Between(pairs, index, leftCursor, rightCursor)
    ensures leftCursor <= pairs[index].0 < |left| && rightCursor <= pairs[index].1 < |right|
    ensures left[pairs[index].0] == right[pairs[index].1]
    ensures Between(pairs, index + 1, pairs[index].0 + 1, pairs[index].1 + 1)
    ensures forall k :: leftCursor <= k < pairs[index].0 ==> k !in MatchedLeft(pairs)
    ensures forall k :: rightCursor <= k < pairs[index].1 ==> k !in MatchedRight(pairs)
  {
    NoneBetween(pairs, index, leftCursor, rightCursor, pairs[index].0, pairs[index].1);
  }

  lemma FirstMatch(pairs: seq<(nat, nat)>)
    ensures Between(pairs, 0, 0, 0)
  {
  }

  /** The entry list: every match with the unmatched operations of both circuits before it, then the rest. */
  method DiffCircuits<Op(==), K(==)>(left: seq<Op>, right: seq<Op>, key: Op -> K)
    returns (result: Option<seq<Entry<Op>>>)
    ensures result.None? <==> |left| * |right| > 4_000_000
    ensures result.Some? ==> (
      && Accounts(result.value, left, right, key, |left|, |right|)
      && CountKind(result.value, Unchanged) == Lcs(Keys(left, key), Keys(right, key), 0, 0)
      && RemovedFirst(result.value))
  {
    hide Accounts, CountKind, Lcs, IsAlignment, Between, MatchedLeft, MatchedRight, RemovedFirst, EndsInAdded;
    var leftKeys, rightKeys := Keys(left, key), Keys(right, key);
    var alignment := CommonSubsequence(leftKeys, rightKeys);
    if alignment.None? { return None; }
    var pairs := alignment.value;
    var matchedLeft, matchedRight := MatchedLeft(pairs), MatchedRight(pairs);
    var entries: seq<Entry<Op>> := [];
    NothingYet(left, right, key);
    var leftCursor: nat, rightCursor: nat := 0, 0;
    FirstMatch(pairs);
    for index := 0 to |pairs|
      invariant leftCursor <= |left| && rightCursor <= |right|
      invariant Between(pairs, index, leftCursor, rightCursor)
      invariant Accounts(entries, left, right, key, leftCursor, rightCursor)
      invariant CountKind(entries, Unchanged) == index && RemovedFirst(entries) && !EndsInAdded(entries)
    {
      NextMatch(pairs, leftKeys, rightKeys, index, leftCursor, rightCursor);
      var leftIndex, rightIndex := pairs[index].0, pairs[index].1;
      entries := EmitRemoved(entries, left, right, key, leftCursor, leftIndex, rightCursor, matchedLeft);
      entries := EmitAdded(entries, left, right, key, leftIndex, rightCursor, rightIndex, matchedRight);
      var entry := Entry(Unchanged, left[leftIndex], Some(leftIndex), Some(rightIndex));
      Push(entries, entry, left, right, key, leftIndex, rightIndex);
      PushInOrder(entries, entry);
      entries := entries + [entry];
      leftCursor, rightCursor := leftIndex + 1, rightIndex + 1;
    }
    NoneBetween(pairs, |pairs|, leftCursor, rightCursor, |left|, |right|);
    entries := EmitRemoved(entries, left, right, key, leftCursor, |left|, rightCursor, matchedLeft);
    entries := EmitAdded(entries, left, right, key, |left|, rightCursor, |right|, matchedRight);
    return Some(entries);
  }

  lemma NothingYet<Op, K>(left: seq<Op>, right: seq<Op>, key: Op -> K)
    ensures Accounts([], left, right, key, 0, 0)
    ensures CountKind<Op>([], Unchanged) == 0 && RemovedFirst<Op>([]) && !EndsInAdded<Op>([])
  {
  }

  // ---------------------------------------------------------------- verification of a diff

  /** The operations of all entries but those of one kind. */
  function SideOperations<Op>(entries: seq<Entry<Op>>, dropped: Kind): seq<Op> {
    if |entries| == 0 then []
    else
      var last := entries[|entries| - 1];
      SideOperations(entries[..|entries| - 1], dropped) + (if last.kind == dropped then [] else [last.operation])
  }

  datatype Verification = Verification(reconstructsLeft: bool, reconstructsRight: bool, sound: bool)

  function VerifyDiff<Op, K(==)>(left: seq<Op>, right: seq<Op>, entries: seq<Entry<Op>>, key: Op -> K): Verification {
    var fromLeft := Keys(SideOperations(entries, Added), key) == Keys(left, key);
    var fromRight := Keys(SideOperations(entries, Removed), key) == Keys(right, key);
    Verification(fromLeft, fromRight, fromLeft && fromRight)
  }

  /** Accurate entries that name the positions 0..n of the left circuit in order spell it, object for object. */
  lemma {:induction false} SpellsLeft<Op, K>(
    entries: seq<Entry<Op>>, left: seq<Op>, right: seq<Op>, key: Op -> K, n: nat)
    requires forall i :: 0 <= i < |entries| ==> IsAccurate(entries[i], left, right, key)
    requires LeftIndices(entries) == Upto(n)
    ensures n <= |left| && SideOperations(entries, Added) == left[..n]
  {
    hide RightIndices, Upto, IsAccurate;
    if |entries| > 0 {
      var rest, last := entries[..|entries| - 1], entries[|entries| - 1];
      AccurateLeft(last, left, right, key);
      if last.kind == Added {
        assert LeftIndices(rest) + [] == LeftIndices(rest);
        SpellsLeft(rest, left, right, key, n);
      } else {
        LastOfUpto(LeftIndices(rest), last.leftIndex.value, n);
        var m := n - 1;
        SpellsLeft(rest, left, right, key, m);
        assert left[..n] == left[..m] + [left[m]];
      }
    }
  }

  lemma AccurateLeft<Op, K>(entry: Entry<Op>, left: seq<Op>, right: seq<Op>, key: Op -> K)
    requires IsAccurate(entry, left, right, key)
    ensures if entry.kind == Added then entry.leftIndex.None?
            else
              && entry.leftIndex.Some? && entry.leftIndex.value < |left|
              && entry.operation == left[entry.leftIndex.value]
  {
  }

  lemma LastOfUpto(rest: seq<nat>, last: nat, n: nat)
    requires rest + [last] == Upto(n)
    ensures n > 0 && last == n - 1 && rest == Upto(n - 1)
  {
    assert |rest + [last]| == n;
    assert (rest + [last])[|rest|] == last;
    forall i | 0 <= i < |rest| ensures rest[i] == i {
      assert (rest + [last])[i] == rest[i];
    }
  }

  /** And the right one, key for key. */
  lemma {:induction false} SpellsRight<Op, K>(
    entries: seq<Entry<Op>>, left: seq<Op>, right: seq<Op>, key: Op -> K, n: nat)
    requires forall i :: 0 <= i < |entries| ==> IsAccurate(entries[i], left, right, key)
    requires RightIndices(entries) == Upto(n)
    ensures n <= |right| && Keys(SideOperations(entries, Removed), key) == Keys(right[..n], key)
  {
    hide LeftIndices;
    if |entries| > 0 {
      var rest, last := entries[..|entries| - 1], entries[|entries| - 1];
      if last.kind == Removed {
        SpellsRight(rest, left, right, key, n);
      } else {
        assert RightIndices(entries)[|RightIndices(rest)|] == last.rightIndex.value;
        var m := n - 1;
        assert RightIndices(rest) == Upto(n)[..m] == Upto(m);
        SpellsRight(rest, left, right, key, m);
        assert last.rightIndex.value == m;
        var side := SideOperations(rest, Removed);
        assert SideOperations(entries, Removed) == side + [last.operation];
        assert Keys(side + [last.operation], key) == Keys(side, key) + [key(last.operation)];
        assert Keys(right[..n], key) == Keys(right[..m], key) + [key(right[m])];
      }
    }
  }

  lemma {:induction false} KindsAddUp<Op>(entries: seq<Entry<Op>>)
    ensures |SideOperations(entries, Added)| == CountKind(entries, Removed) + CountKind(entries, Unchanged)
    ensures |SideOperations(entries, Removed)| == CountKind(entries, Added) + CountKind(entries, Unchanged)
  {
    if |entries| > 0 { KindsAddUp(entries[..|entries| - 1]); }
  }

  /** A diff that accounts for both circuits is found sound, and its counts follow from the matches alone. */
  lemma AccountedIsSound<Op, K>(entries: seq<Entry<Op>>, left: seq<Op>, right: seq<Op>, key: Op -> K)
    requires Accounts(entries, left, right, key, |left|, |right|)
    ensures VerifyDiff(left, right, entries, key).sound
    ensures SideOperations(entries, Added) == left
    ensures CountKind(entries, Removed) == |left| - CountKind(entries, Unchanged)
    ensures CountKind(entries, Added) == |right| - CountKind(entries, Unchanged)
  {
    SpellsLeft(entries, left, right, key, |left|);
    SpellsRight(entries, left, right, key, |right|);
    KindsAddUp(entries);
    assert left[..|left|] == left && right[..|right|] == right;
  }

  // ---------------------------------------------------------------- the diff is minimal

  lemma {:induction false} SideConcat<Op>(first: Entry<Op>, rest: seq<Entry<Op>>, dropped: Kind)
    ensures SideOperations([first] + rest, dropped)
         == (if first.kind == dropped then [] else [first.operation]) + SideOperations(rest, dropped)
    ensures forall kind ::
      CountKind([first] + rest, kind) == CountKind(rest, kind) + if first.kind == kind then 1 else 0
    decreases |rest|
  {
    if |rest| == 0 {
      assert ([first] + rest)[..0] == [];
    } else {
      assert ([first] + rest)[..|rest|] == [first] + rest[..|rest| - 1];
      SideConcat(first, rest[..|rest| - 1], dropped);
    }
  }

  /** Whatever diff reconstructs both circuits, its unchanged entries form a common subsequence. */
  lemma {:induction false} UnchangedAtMostLcs<Op, K>(
    entries: seq<Entry<Op>>, left: seq<K>, right: seq<K>, key: Op -> K, r: nat, c: nat)
    requires r <= |left| && c <= |right|
    requires Keys(SideOperations(entries, Added), key) == left[r..]
    requires Keys(SideOperations(entries, Removed), key) == right[c..]
    ensures CountKind(entries, Unchanged) <= Lcs(left, right, r, c)
    decreases |entries|
  {
    if |entries| > 0 {
      var first, rest := entries[0], entries[1..];
      assert entries == [first] + rest;
      SideConcat(first, rest, Added);
      SideConcat(first, rest, Removed);
      hide SideOperations, CountKind, Lcs;
      var fromLeft, fromRight := SideOperations(rest, Added), SideOperations(rest, Removed);
      LcsSteps(left, right, r, c);
      match first.kind {
        case Removed =>
          DropFirst(first.operation, fromLeft, key, left, r);
          assert [] + fromRight == fromRight;
          UnchangedAtMostLcs(rest, left, right, key, r + 1, c);
        case Added =>
          DropFirst(first.operation, fromRight, key, right, c);
          assert [] + fromLeft == fromLeft;
          UnchangedAtMostLcs(rest, left, right, key, r, c + 1);
        case Unchanged =>
          DropFirst(first.operation, fromLeft, key, left, r);
          DropFirst(first.operation, fromRight, key, right, c);
          UnchangedAtMostLcs(rest, left, right, key, r + 1, c + 1);
          EqualHeads(left, right, r, c);
      }
    }
  }

  lemma EqualHeads<K>(left: seq<K>, right: seq<K>, r: nat, c: nat)
    requires r < |left| && c < |right| && left[r] == right[c]
    ensures Lcs(left, right, r, c) == Lcs(left, right, r + 1, c + 1) + 1
  {
  }

  lemma DropFirst<Op, K>(operation: Op, rest: seq<Op>, key: Op -> K, keys: seq<K>, r: nat)
    requires r <= |keys| && Keys([operation] + rest, key) == keys[r..]
    ensures r < |keys| && keys[r] == key(operation) && Keys(rest, key) == keys[r + 1..]
  {
    assert keys[r..][0] == key(operation);
    forall i | 0 <= i < |rest| ensures Keys(rest, key)[i] == keys[r + 1..][i] {
      assert ([operation] + rest)[i + 1] == rest[i];
      assert keys[r..][i + 1] == keys[r + 1..][i];
    }
    assert |keys[r..]| == |rest| + 1;
  }

  /** No sound diff of the same circuits makes fewer edits. */
  lemma DiffIsMinimal<Op, K>(
    entries: seq<Entry<Op>>, other: seq<Entry<Op>>, left: seq<Op>, right: seq<Op>, key: Op -> K)
    requires Accounts(entries, left, right, key, |left|, |right|)
    requires CountKind(entries, Unchanged) == Lcs(Keys(left, key), Keys(right, key), 0, 0)
    requires VerifyDiff(left, right, other, key).sound
    ensures CountKind(entries, Added) + CountKind(entries, Removed)
      <= CountKind(other, Added) + CountKind(other, Removed)
  {
    var leftKeys, rightKeys := Keys(left, key), Keys(right, key);
    AccountedIsSound(entries, left, right, key);
    KindsAddUp(other);
    assert leftKeys[0..] == leftKeys && rightKeys[0..] == rightKeys;
    UnchangedAtMostLcs(other, leftKeys, rightKeys, key, 0, 0);
  }

  // ---------------------------------------------------------------- gate deltas

  function CountNamed<Op, N(==)>(operations: seq<Op>, nameOf: Op -> N, name: N): nat {
    if |operations| == 0 then 0
    else
      CountNamed(operations[..|operations| - 1], nameOf, name)
        + if nameOf(operations[|operations| - 1]) == name then 1 else 0
  }

  function CountEntries<Op, N(==)>(entries: seq<Entry<Op>>, kind: Kind, nameOf: Op -> N, name: N): nat {
    if |entries| == 0 then 0
    else
      var last := entries[|entries| - 1];
      CountEntries(entries[..|entries| - 1], kind, nameOf, name)
      + if last.kind == kind && nameOf(last.operation) == name then 1 else 0
  }

  lemma {:induction false} NamedBySide<Op, N>(entries: seq<Entry<Op>>, nameOf: Op -> N, name: N)
    ensures CountNamed(SideOperations(entries, Added), nameOf, name)
         == CountEntries(entries, Removed, nameOf, name) + CountEntries(entries, Unchanged, nameOf, name)
    ensures CountNamed(SideOperations(entries, Removed), nameOf, name)
         == CountEntries(entries, Added, nameOf, name) + CountEntries(entries, Unchanged, nameOf, name)
  {
    if |entries| > 0 {
      var rest, last := entries[..|entries| - 1], entries[|entries| - 1];
      NamedBySide(rest, nameOf, name);
      PushNamed(SideOperations(rest, Added), last.operation, nameOf, name);
      PushNamed(SideOperations(rest, Removed), last.operation, nameOf, name);
    }
  }

  lemma PushNamed<Op, N>(operations: seq<Op>, operation: Op, nameOf: Op -> N, name: N)
    ensures CountNamed(operations + [operation], nameOf, name)
         == CountNamed(operations, nameOf, name) + if nameOf(operation) == name then 1 else 0
    ensures operations + [] == operations
  {
    assert (operations + [operation])[..|operations|] == operations;
  }

  ghost predicate KeyDeterminesName<Op(!new), K, N>(key: Op -> K, nameOf: Op -> N) {
    forall x, y :: key(x) == key(y) ==> nameOf(x) == nameOf(y)
  }

  lemma NamesAgree<Op(!new), K, N>(key: Op -> K, nameOf: Op -> N, x: Op, y: Op)
    requires KeyDeterminesName(key, nameOf) && key(x) == key(y)
    ensures nameOf(x) == nameOf(y)
  {
  }

  lemma {:induction false} SameNames<Op(!new), K, N>(a: seq<Op>, b: seq<Op>, key: Op -> K, nameOf: Op -> N, name: N)
    requires Keys(a, key) == Keys(b, key)
    requires KeyDeterminesName(key, nameOf)
    ensures CountNamed(a, nameOf, name) == CountNamed(b, nameOf, name)
    decreases |a|
  {
    hide KeyDeterminesName;
    assert |Keys(a, key)| == |Keys(b, key)|;
    if |a| > 0 {
      var n := |a| - 1;
      assert Keys(a, key)[n] == Keys(b, key)[n];
      NamesAgree(key, nameOf, a[n], b[n]);
      forall i | 0 <= i < n ensures Keys(a[..n], key)[i] == Keys(b[..n], key)[i] {
        assert Keys(a, key)[i] == Keys(b, key)[i];
      }
      SameNames(a[..n], b[..n], key, nameOf, name);
    }
  }

  /**
   * A gate-count change is attributable: for each name, the entries added minus the entries removed under that name
   * are the difference between the circuits, provided a key determines the name.
   */
  lemma DeltaIsAttributable<Op(!new), K, N>(
    entries: seq<Entry<Op>>, left: seq<Op>, right: seq<Op>, key: Op -> K, nameOf: Op -> N, name: N)
    requires VerifyDiff(left, right, entries, key).sound
    requires KeyDeterminesName(key, nameOf)
    ensures CountNamed(right, nameOf, name) - CountNamed(left, nameOf, name)
         == CountEntries(entries, Added, nameOf, name) - CountEntries(entries, Removed, nameOf, name)
  {
    hide KeyDeterminesName;
    NamedBySide(entries, nameOf, name);
    SameNames(SideOperations(entries, Added), left, key, nameOf, name);
    SameNames(SideOperations(entries, Removed), right, key, nameOf, name);
  }
}
