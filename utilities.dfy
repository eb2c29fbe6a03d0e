/** The table helpers of utilities.py: transpose, iterskip and the text that export_data
    writes (header padding, rows with a missing value left out, tab-separated cells). */
module Utilities {
  import opened Base
  import opened PyText

  // ---- transpose ----

  /** The length of the shortest row, or 0 when there are no rows. */
  function MinLen<T>(rows: seq<seq<T>>): (m: nat)
    ensures forall i :: 0 <= i < |rows| ==> m <= |rows[i]|
    ensures |rows| == 0 ==> m == 0
    ensures |rows| > 0 ==> exists i :: 0 <= i < |rows| && m == |rows[i]|
    decreases |rows|
  {
    if |rows| == 0 then 0
    else if |rows| == 1 then |rows[0]|
    else
      var m := MinLen(rows[1..]);
      assert forall i :: 1 <= i < |rows| ==> rows[1..][i - 1] == rows[i];
      if |rows[0]| <= m then |rows[0]| else m
  }

  predicate AllNonEmpty<T>(rows: seq<seq<T>>) {
    forall i :: 0 <= i < |rows| ==> |rows[i]| > 0
  }

  /** The first element of every row: one tuple produced by zip. */
  function Heads<T>(rows: seq<seq<T>>): seq<T>
    requires AllNonEmpty(rows)
  {
    seq(|rows|, i requires 0 <= i < |rows| => rows[i][0])
  }

  /** Every row without its first element: what zip has left to read. */
  function Tails<T>(rows: seq<seq<T>>): (r: seq<seq<T>>)
    requires AllNonEmpty(rows)
    ensures |r| == |rows|
    ensures forall i :: 0 <= i < |rows| ==> r[i] == rows[i][1..]
  {
    seq(|rows|, i requires 0 <= i < |rows| => rows[i][1..])
  }

  lemma MinLenOfTails<T>(rows: seq<seq<T>>)
    requires |rows| > 0 && AllNonEmpty(rows)
    ensures MinLen(Tails(rows)) == MinLen(rows) - 1
  {
    var t := Tails(rows);
    var m, mt := MinLen(rows), MinLen(t);
    var i :| 0 <= i < |rows| && m == |rows[i]|;
    var it :| 0 <= it < |t| && mt == |t[it]|;
    assert mt <= |t[i]|;
    assert m <= |rows[it]|;
  }

  /** transpose(lst) = list(map(list, zip(*lst))): zip takes one element of every row at a
      time and stops as soon as one row is exhausted, so the result has as many rows as the
      shortest row of lst, each as long as lst, and element [j][i] is lst[i][j]. */
  function Transpose<T>(lst: seq<seq<T>>): (r: seq<seq<T>>)
    ensures |r| == MinLen(lst)
    ensures forall j :: 0 <= j < |r| ==> |r[j]| == |lst|
    ensures forall j, i :: 0 <= j < |r| && 0 <= i < |lst| ==> r[j][i] == lst[i][j]
    decreases MinLen(lst)
  {
    if |lst| == 0 || !AllNonEmpty(lst) then []
    else
      MinLenOfTails(lst);
      var rest := Transpose(Tails(lst));
      var r := [Heads(lst)] + rest;
      assert forall j, i :: 1 <= j < |r| && 0 <= i < |lst| ==> r[j][i] == rest[j - 1][i] == lst[i][j];
      r
  }

  predicate Rectangular<T>(lst: seq<seq<T>>, width: nat) {
    forall i :: 0 <= i < |lst| ==> |lst[i]| == width
  }

  lemma MinLenOfRectangular<T>(lst: seq<seq<T>>, width: nat)
    requires |lst| > 0 && Rectangular(lst, width)
    ensures MinLen(lst) == width
  {
  }

  /** Transposing twice gives back a non-empty rectangular table of non-zero width. */
  lemma {:induction false} TransposeTwice<T>(lst: seq<seq<T>>, width: nat)
    requires |lst| > 0 && width > 0 && Rectangular(lst, width)
    ensures Transpose(Transpose(lst)) == lst
  {
    var t := Transpose(lst);
    MinLenOfRectangular(lst, width);
    MinLenOfRectangular(t, |lst|);
    var tt := Transpose(t);
    assert |tt| == |lst|;
    forall i | 0 <= i < |lst| ensures tt[i] == lst[i] {
      assert |tt[i]| == width;
      forall j | 0 <= j < width ensures tt[i][j] == lst[i][j] {
        assert tt[i][j] == t[j][i];
      }
    }
  }

  /** A table of zero width loses its rows: the round trip needs width > 0. */
  lemma TransposeOfZeroWidth<T>(lst: seq<seq<T>>)
    requires |lst| > 0 && Rectangular(lst, 0)
    ensures Transpose(Transpose(lst)) == [] != lst
  {
    MinLenOfRectangular(lst, 0);
  }

  // ---- iterskip ----

  /** iterskip(iterator, steps) on an iterator over items that stands at pos: next() is
      called steps times (none when steps <= 0); the iterator then stands steps further on,
      or StopIteration is raised when fewer than steps items remain. */
  method IterSkip<T>(items: seq<T>, pos: nat, steps: int) returns (r: Result<nat, PyError>)
    requires pos <= |items|
    ensures steps <= 0 ==> r == Success(pos)
    ensures steps > 0 ==> r == if pos + steps <= |items| then Success(pos + steps) else Failure(StopIteration)
  {
    var cur := pos;
    var k := 0;
    while k < steps
      invariant 0 <= k <= (if steps > 0 then steps else 0)
      invariant cur == pos + k <= |items|
    {
      if cur == |items| {
        return Failure(StopIteration);
      }
      cur := cur + 1;
      k := k + 1;
    }
    return Success(cur);
  }

  // ---- export_data: the text written ----

  function Repeat(c: char, n: int): (s: string)
    ensures |s| == if n > 0 then n else 0
    ensures forall k :: 0 <= k < |s| ==> s[k] == c
    decreases n
  {
    if n <= 0 then "" else [c] + Repeat(c, n - 1)
  }

  /** The header line: "\t" * (len(columns) - len(head)) + "\t".join(head) + "\n". */
  function HeaderLine(columnCount: nat, head: seq<string>): string {
    Repeat('\t', columnCount - |head|) + Join("\t", head) + "\n"
  }

  function Empties(n: nat): (s: seq<string>)
    ensures |s| == n && forall k :: 0 <= k < n ==> s[k] == ""
  {
    seq(n, _ => "")
  }

  lemma {:induction false} PaddedJoin(n: nat, head: seq<string>)
    requires |head| > 0
    ensures Repeat('\t', n) + Join("\t", head) == Join("\t", Empties(n) + head)
  {
    if n > 0 {
      PaddedJoin(n - 1, head);
      var parts := Empties(n) + head;
      assert |parts| >= 2 && parts[0] == "";
      assert parts[1..] == Empties(n - 1) + head;
      assert Join("\t", parts) == "" + "\t" + Join("\t", parts[1..]);
      assert Repeat('\t', n) == "\t" + Repeat('\t', n - 1);
    } else {
      assert Empties(n) + head == head;
    }
  }

  /** Header alignment: read back by splitting at tabs, the header line holds an empty
      field for every column that has no heading of its own, followed by the headings, so
      the last heading stands over the last column. */
  lemma HeaderAligned(columnCount: nat, head: seq<string>)
    requires |head| > 0
    requires forall k :: 0 <= k < |head| ==> '\t' !in head[k]
    ensures var line := HeaderLine(columnCount, head);
            line[|line| - 1] == '\n' &&
            SplitOn(line[..|line| - 1], '\t') ==
              Empties(if columnCount > |head| then columnCount - |head| else 0) + head
  {
    var pad := if columnCount > |head| then columnCount - |head| else 0;
    var line := HeaderLine(columnCount, head);
    PaddedJoin(pad, head);
    assert line[..|line| - 1] == Join("\t", Empties(pad) + head);
    SplitOfJoin(Empties(pad) + head, '\t');
  }

  predicate NoneFree<V>(row: seq<Option<V>>) {
    forall k :: 0 <= k < |row| ==> row[k].Some?
  }

  /** "\t".join(map(str, row)) + "\n" for a row without None. */
  function RowLine<V>(row: seq<Option<V>>, str: V -> string): string
    requires NoneFree(row)
  {
    Join("\t", seq(|row|, k requires 0 <= k < |row| && NoneFree(row) => str(row[k].value))) + "\n"
  }

  /** The data lines: one per row of the transposed columns that holds no None, in order. */
  function DataLines<V>(rows: seq<seq<Option<V>>>, str: V -> string): seq<string>
    decreases |rows|
  {
    if rows == [] then []
    else (if NoneFree(rows[0]) then [RowLine(rows[0], str)] else []) + DataLines(rows[1..], str)
  }

  function CountNoneFree<V>(rows: seq<seq<Option<V>>>): nat
    decreases |rows|
  {
    if rows == [] then 0 else (if NoneFree(rows[0]) then 1 else 0) + CountNoneFree(rows[1..])
  }

  /** The lines export_data writes, header first. */
  function TableText<V>(columns: seq<seq<Option<V>>>, head: seq<string>, str: V -> string): seq<string> {
    [HeaderLine(|columns|, head)] + DataLines(Transpose(columns), str)
  }

  /** The positions of the rows without None, in increasing order. */
  function NoneFreeIndices<V>(rows: seq<seq<Option<V>>>): (r: seq<nat>)
    ensures |r| == CountNoneFree(rows)
    ensures forall k :: 0 <= k < |r| ==> r[k] < |rows| && NoneFree(rows[r[k]])
    decreases |rows|
  {
    if rows == [] then []
    else
      var rest := NoneFreeIndices(rows[1..]);
      assert forall k :: 0 <= k < |rest| ==> rows[rest[k] + 1] == rows[1..][rest[k]];
      (if NoneFree(rows[0]) then [0] else []) + Shift(rest)
  }

  function Shift(s: seq<nat>): (r: seq<nat>)
    ensures |r| == |s| && forall k :: 0 <= k < |s| ==> r[k] == s[k] + 1
  {
    seq(|s|, k requires 0 <= k < |s| => s[k] + 1)
  }

  predicate Increasing(p: seq<nat>) {
    forall k, l :: 0 <= k < l < |p| ==> p[k] < p[l]
  }

  lemma {:induction false} NoneFreeIndicesIncreasing<V>(rows: seq<seq<Option<V>>>)
    ensures Increasing(NoneFreeIndices(rows))
    decreases |rows|
  {
    if rows != [] {
      NoneFreeIndicesIncreasing(rows[1..]);
      var rest := NoneFreeIndices(rows[1..]);
      var sh := Shift(rest);
      var p := NoneFreeIndices(rows);
      assert Increasing(sh);
      if NoneFree(rows[0]) {
        assert p == [0] + sh;
        forall k, l | 0 <= k < l < |p| ensures p[k] < p[l] {
          if k > 0 {
            assert p[k] == sh[k - 1] && p[l] == sh[l - 1];
          } else {
            assert p[l] == sh[l - 1] >= 1;
          }
        }
      } else {
        assert p == sh;
      }
    }
  }

  lemma {:induction false} NoneFreeIndicesComplete<V>(rows: seq<seq<Option<V>>>, i: nat)
    requires i < |rows| && NoneFree(rows[i])
    ensures i in NoneFreeIndices(rows)
    decreases |rows|
  {
    var p := NoneFreeIndices(rows);
    if i > 0 {
      assert rows[1..][i - 1] == rows[i];
      NoneFreeIndicesComplete(rows[1..], i - 1);
      var rest := NoneFreeIndices(rows[1..]);
      var k :| 0 <= k < |rest| && rest[k] == i - 1;
      assert Shift(rest)[k] == i;
      assert p == (if NoneFree(rows[0]) then [0] else []) + Shift(rest);
    }
  }

  lemma {:induction false} DataLineAt<V>(rows: seq<seq<Option<V>>>, str: V -> string, k: nat)
    requires k < CountNoneFree(rows)
    ensures |DataLines(rows, str)| == CountNoneFree(rows)
    ensures var i := NoneFreeIndices(rows)[k];
            DataLines(rows, str)[k] == RowLine(rows[i], str)
    decreases |rows|
  {
    var rest := NoneFreeIndices(rows[1..]);
    var tail := DataLines(rows[1..], str);
    if NoneFree(rows[0]) {
      if k > 0 {
        DataLineAt(rows[1..], str, k - 1);
        assert rows[1..][rest[k - 1]] == rows[rest[k - 1] + 1];
      } else if CountNoneFree(rows[1..]) > 0 {
        DataLineAt(rows[1..], str, 0);
      } else {
        DataLinesCount(rows[1..], str);
      }
    } else {
      DataLineAt(rows[1..], str, k);
      assert rows[1..][rest[k]] == rows[rest[k] + 1];
    }
  }

  lemma {:induction false} DataLinesCount<V>(rows: seq<seq<Option<V>>>, str: V -> string)
    ensures |DataLines(rows, str)| == CountNoneFree(rows)
    decreases |rows|
  {
    if rows != [] {
      DataLinesCount(rows[1..], str);
    }
  }

  /** There is one data line per row without None, and the k-th data line renders the k-th
      such row: rows with None are dropped, the others keep their order. */
  lemma DataLinesAreNoneFreeRows<V>(rows: seq<seq<Option<V>>>, str: V -> string)
    ensures var lines, p := DataLines(rows, str), NoneFreeIndices(rows);
            && |lines| == |p|
            && (forall k :: 0 <= k < |p| ==> lines[k] == RowLine(rows[p[k]], str))
            && Increasing(p)
            && (forall i :: 0 <= i < |rows| && NoneFree(rows[i]) ==> i in p)
  {
    DataLinesCount(rows, str);
    NoneFreeIndicesIncreasing(rows);
    forall k | 0 <= k < CountNoneFree(rows)
      ensures DataLines(rows, str)[k] == RowLine(rows[NoneFreeIndices(rows)[k]], str)
    {
      DataLineAt(rows, str, k);
    }
    forall i | 0 <= i < |rows| && NoneFree(rows[i]) ensures i in NoneFreeIndices(rows) {
      NoneFreeIndicesComplete(rows, i);
    }
  }

  lemma CountNoneFreeBound<V>(rows: seq<seq<Option<V>>>)
    ensures CountNoneFree(rows) <= |rows|
  {
  }

  /** Read back, a data line splits at tabs into the string forms of its row's cells, in
      column order, provided no cell's string form holds a tab. */
  lemma RowLineReadBack<V>(row: seq<Option<V>>, str: V -> string)
    requires NoneFree(row) && |row| > 0
    requires forall k :: 0 <= k < |row| ==> '\t' !in str(row[k].value)
    ensures var line := RowLine(row, str);
            line[|line| - 1] == '\n' &&
            SplitOn(line[..|line| - 1], '\t') == seq(|row|, k requires 0 <= k < |row| => str(row[k].value))
  {
    var cells := seq(|row|, k requires 0 <= k < |row| && NoneFree(row) => str(row[k].value));
    SplitOfJoin(cells, '\t');
  }

  /** str.split undoes str.join when no part holds the separator. */
  lemma {:induction false} SplitOfJoin(parts: seq<string>, sep: char)
    requires |parts| > 0
    requires forall k :: 0 <= k < |parts| ==> sep !in parts[k]
    ensures SplitOn(Join([sep], parts), sep) == parts
    decreases |parts|
  {
    if |parts| > 1 {
      var tail := Join([sep], parts[1..]);
      assert Join([sep], parts) == parts[0] + [sep] + tail;
      SplitOfCons(parts[0], sep, tail);
      SplitOfJoin(parts[1..], sep);
      assert parts == [parts[0]] + parts[1..];
    }
  }

  /** Splitting at the first separator: the part before it, then the split of what follows. */
  lemma SplitOfCons(a: string, sep: char, b: string)
    requires sep !in a
    ensures SplitOn(a + [sep] + b, sep) == [a] + SplitOn(b, sep)
  {
    var s := a + [sep] + b;
    IndexOfAfter(a, sep, b);
    assert s[..|a|] == a;
    assert s[|a| + 1..] == b;
  }

  lemma {:induction false} IndexOfAfter(a: string, sep: char, b: string)
    requires sep !in a
    ensures sep in a + [sep] + b && IndexOf(a + [sep] + b, sep) == |a|
    decreases |a|
  {
    var s := a + [sep] + b;
    assert s[|a|] == sep;
    if a != [] {
      assert s[1..] == a[1..] + [sep] + b;
      IndexOfAfter(a[1..], sep, b);
    }
  }

  /** The write loop of export_data: the header, then one line per None-free row of
      transpose(columns). */
  method WriteRows<V>(columns: seq<seq<Option<V>>>, head: seq<string>, str: V -> string)
    returns (written: seq<string>)
    ensures written == TableText(columns, head, str)
    ensures |written| == 1 + CountNoneFree(Transpose(columns))
  {
    var rows := Transpose(columns);
    written := [HeaderLine(|columns|, head)];
    var k := 0;
    while k < |rows|
      invariant 0 <= k <= |rows|
      invariant written + DataLines(rows[k..], str) == TableText(columns, head, str)
    {
      assert rows[k..][1..] == rows[k + 1..];
      if NoneFree(rows[k]) {
        written := written + [RowLine(rows[k], str)];
      }
      k := k + 1;
    }
    assert rows[k..] == [];
    DataLinesCount(rows, str);
  }

  // ---- export_data: where it may write ----

  /** What os.path.isfile and os.path.isdir say about the target at one attempt. */
  datatype PathState = PathState(isFile: bool, isDir: bool)

  /** The checks before writing: an existing file without overwrite, or a directory. */
  predicate Blocked(p: PathState, overwrite: bool) {
    (p.isFile && !overwrite) || p.isDir
  }

  predicate IsYes(answer: string) {
    answer == "y" || answer == "yes"
  }

  datatype ExportOutcome =
    | Saved(attempt: nat, text: seq<string>)  // the lines written, at the given attempt
    | Declined(attempt: nat)                  // the retry prompt was answered with no
    | EndOfInput                              // input() had nothing left to read (EOFError)

  /** export_data: the target is checked at every attempt (probe(k) is what the file system
      shows at attempt k) and, while it is blocked, the user is asked whether to try again
      (answers holds what input() returns, in order). The table is written only at an
      attempt where the target is not blocked and only after a yes to every earlier prompt;
      any other answer ends export_data without writing. */
  method ExportData<V>(columns: seq<seq<Option<V>>>, head: seq<string>, overwrite: bool,
                       probe: nat -> PathState, answers: seq<string>, str: V -> string)
    returns (o: ExportOutcome)
    ensures o.Saved? ==> !Blocked(probe(o.attempt), overwrite) && o.text == TableText(columns, head, str)
    ensures o.Saved? || o.Declined? ==> o.attempt <= |answers|
    ensures o.Declined? ==> Blocked(probe(o.attempt), overwrite) && o.attempt < |answers|
                            && !IsYes(answers[o.attempt])
    ensures o.EndOfInput? ==> Blocked(probe(|answers|), overwrite)
    ensures forall k :: 0 <= k < (if o.EndOfInput? then |answers| else o.attempt) ==>
              Blocked(probe(k), overwrite) && IsYes(answers[k])
  {
    var attempt := 0;
    while true
      invariant attempt <= |answers|
      invariant forall k :: 0 <= k < attempt ==> Blocked(probe(k), overwrite) && IsYes(answers[k])
      decreases |answers| - attempt
    {
      if !Blocked(probe(attempt), overwrite) {
        break;
      }
      if attempt == |answers| {
        return EndOfInput;
      }
      if !IsYes(answers[attempt]) {
        return Declined(attempt);
      }
      attempt := attempt + 1;
    }
    var text := WriteRows(columns, head, str);
    return Saved(attempt, text);
  }
}
