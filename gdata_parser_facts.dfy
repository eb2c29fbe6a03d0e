/** What the line-stream parser of Gdata.__init__ promises: the shape of what it collects,
    where each value comes from, and which lines it never looks at. */
module GdataParserFacts {
  import opened Base
  import opened PyText
  import opened Utilities
  import opened GdataParser
  import opened GdataTrace

  // ---- blocks ----

  /** The k-th line a block reads its value from: the marker line, then the lines after it. */
  function BlockLine(lines: seq<string>, pos: nat, cur: string, k: nat): string
    requires 0 < k ==> pos + k - 1 < |lines|
  {
    if k == 0 then cur else lines[pos + k - 1]
  }

  /** A block that is read whole holds, in order, the value of each of its lines. */
  lemma {:induction false} ReadBlockValuesOfLines(lines: seq<string>, pos: nat, cur: string, left: nat,
                                                  value: string -> Option<real>, acc: seq<real>)
    requires pos <= |lines| && ReadBlock(lines, pos, cur, left, value, acc).Success?
    ensures var vs := ReadBlock(lines, pos, cur, left, value, acc).value.0;
            vs[..|acc|] == acc &&
            forall k :: 0 <= k < left ==> value(BlockLine(lines, pos, cur, k)) == Some(vs[|acc| + k])
    decreases left
  {
    if left > 0 {
      var v := value(cur).value;
      ReadBlockValuesOfLines(lines, pos + 1, lines[pos], left - 1, value, acc + [v]);
      var vs := ReadBlock(lines, pos, cur, left, value, acc).value.0;
      assert vs[..|acc| + 1] == acc + [v];
      assert vs[..|acc|] == (vs[..|acc| + 1])[..|acc|];
      forall k | 0 <= k < left
        ensures value(BlockLine(lines, pos, cur, k)) == Some(vs[|acc| + k])
      {
        if k > 0 {
          assert BlockLine(lines, pos, cur, k) == BlockLine(lines, pos + 1, lines[pos], k - 1);
        }
      }
    }
  }

  /** Every line of a block of count lines holds a value, and the line after its last one exists. */
  predicate BlockReadable(lines: seq<string>, pos: nat, cur: string, count: nat, value: string -> Option<real>) {
    pos + count <= |lines| && forall k :: 0 <= k < count ==> value(BlockLine(lines, pos, cur, k)).Some?
  }

  /** A block is read whole exactly when every one of its lines holds a value and the line
      after its last one exists. */
  lemma {:induction false} ReadBlockSucceeds(lines: seq<string>, pos: nat, cur: string, left: nat,
                                             value: string -> Option<real>, acc: seq<real>)
    requires pos <= |lines|
    ensures ReadBlock(lines, pos, cur, left, value, acc).Success?
            <==> pos + left <= |lines| &&
                 forall k :: 0 <= k < left ==> value(BlockLine(lines, pos, cur, k)).Some?
    decreases left
  {
    if left > 0 {
      assert BlockLine(lines, pos, cur, 0) == cur;
      if value(cur).Some? && pos < |lines| {
        ReadBlockSucceeds(lines, pos + 1, lines[pos], left - 1, value, acc + [value(cur).value]);
        if pos + left <= |lines| {
          forall k | 0 < k < left
            ensures BlockLine(lines, pos, cur, k) == BlockLine(lines, pos + 1, lines[pos], k - 1)
          {
          }
          var next, line := pos + 1, lines[pos];
          forall k | 0 <= k < left - 1
            ensures BlockLine(lines, next, line, k) == BlockLine(lines, pos, cur, k + 1)
          {
          }
        }
      }
    }
  }

  /** A block read whole does not look past its end. */
  lemma {:induction false} ReadBlockPrefix(pre: seq<string>, rest: seq<string>, pos: nat, cur: string, left: nat,
                                           value: string -> Option<real>, acc: seq<real>)
    requires pos <= |pre|
    ensures ReadBlock(pre, pos, cur, left, value, acc).Success? ==>
              ReadBlock(pre + rest, pos, cur, left, value, acc) == ReadBlock(pre, pos, cur, left, value, acc)
    decreases left
  {
    if left > 0 && pos < |pre| && value(cur).Some? {
      assert (pre + rest)[pos] == pre[pos];
      ReadBlockPrefix(pre, rest, pos + 1, pre[pos], left - 1, value, acc + [value(cur).value]);
    }
  }

  /** A block depends only on the lines from its position on. */
  lemma {:induction false} ReadBlockSameFrom(a: seq<string>, b: seq<string>, pos: nat, cur: string, left: nat,
                                             value: string -> Option<real>, acc: seq<real>)
    requires |a| == |b| && pos <= |a| && a[pos..] == b[pos..]
    ensures ReadBlock(a, pos, cur, left, value, acc) == ReadBlock(b, pos, cur, left, value, acc)
    decreases left
  {
    if left > 0 && pos < |a| && value(cur).Some? {
      assert a[pos] == a[pos..][0] == b[pos];
      assert a[pos + 1..] == a[pos..][1..];
      ReadBlockSameFrom(a, b, pos + 1, a[pos], left - 1, value, acc + [value(cur).value]);
    }
  }

  // ---- which lines the scan looks at ----

  /** A branch that does not fail looks at no line past the ones it consumes. */
  lemma BranchExtends(pre: seq<string>, rest: seq<string>, i: nat, line: string, kind: LineKind, st: Scanner,
                      allowLink1: bool, pf: FloatParser)
    requires i < |pre| && !Branch(pre, i, line, kind, st, allowLink1, pf).Fail?
    ensures Branch(pre + rest, i, line, kind, st, allowLink1, pf) == Branch(pre, i, line, kind, st, allowLink1, pf)
  {
    ReadBlockPrefix(pre, rest, i + 1, line, ThermoCount, BlockEntry('(', pf), []);
    ReadBlockPrefix(pre, rest, i + 1, line, CounterCount, BlockEntry('k', pf), []);
  }

  /** A step that does not fail looks at no line past the ones it consumes. */
  lemma StepExtends(pre: seq<string>, rest: seq<string>, i: nat, st: Scanner, allowLink1: bool, pf: FloatParser)
    requires i < |pre| && !Step(pre, i, st, allowLink1, pf).Fail?
    ensures Step(pre + rest, i, st, allowLink1, pf) == Step(pre, i, st, allowLink1, pf)
  {
    assert (pre + rest)[i] == pre[i];
    var line := Strip(pre[i]);
    BranchExtends(pre, rest, i, line, Classify(line, st.readingCrd), st, allowLink1, pf);
  }

  /** A step depends only on the lines from its position on. */
  lemma StepSameFrom(a: seq<string>, b: seq<string>, i: nat, st: Scanner, allowLink1: bool, pf: FloatParser)
    requires |a| == |b| && i < |a| && a[i..] == b[i..]
    ensures Step(a, i, st, allowLink1, pf) == Step(b, i, st, allowLink1, pf)
  {
    assert a[i] == a[i..][0] == b[i];
    assert a[i + 1..] == a[i..][1..] == b[i + 1..];
    var line := Strip(a[i]);
    ReadBlockSameFrom(a, b, i + 1, line, ThermoCount, BlockEntry('(', pf), []);
    ReadBlockSameFrom(a, b, i + 1, line, CounterCount, BlockEntry('k', pf), []);
  }

  /** The scan from position i depends only on the lines from i on. */
  lemma {:induction false} ScanSameFrom(a: seq<string>, b: seq<string>, i: nat, st: Scanner, allowLink1: bool,
                                        pf: FloatParser)
    requires |a| == |b| && i <= |a| && a[i..] == b[i..]
    ensures Scan(a, i, st, allowLink1, pf) == Scan(b, i, st, allowLink1, pf)
    decreases |a| - i
  {
    if i < |a| {
      StepSameFrom(a, b, i, st, allowLink1, pf);
      match Step(a, i, st, allowLink1, pf)
      case Next(j, s) =>
        assert a[j..] == a[i..][j - i..] == b[j..];
        ScanSameFrom(a, b, j, s, allowLink1, pf);
      case Halt(_) =>
      case Fail(_) =>
    }
  }

  /** The 30 header lines are never classified: two logs that differ only there parse alike. */
  lemma HeaderIgnored(h1: seq<string>, h2: seq<string>, body: seq<string>, allowLink1: bool, pf: FloatParser)
    requires |h1| == HeaderLines && |h2| == HeaderLines
    ensures Parse(h1 + body, allowLink1, pf) == Parse(h2 + body, allowLink1, pf)
  {
    assert (h1 + body)[HeaderLines..] == body == (h2 + body)[HeaderLines..];
    ScanSameFrom(h1 + body, h2 + body, HeaderLines, Initial, allowLink1, pf);
  }

  /** The four lines after an "Input orientation:" line are skipped unread. */
  lemma OrientationHeaderSkipped(lines: seq<string>, i: nat, header: seq<string>, st: Scanner, allowLink1: bool,
                                 pf: FloatParser)
    requires i + 1 + OrientationHeader <= |lines| && |header| == OrientationHeader
    requires StartsWith(Strip(lines[i]), OrientationMarker)
    ensures Scan(lines[..i + 1] + header + lines[i + 1 + OrientationHeader..], i, st, allowLink1, pf)
            == Scan(lines, i, st, allowLink1, pf)
  {
    var other := lines[..i + 1] + header + lines[i + 1 + OrientationHeader..];
    var j := i + 1 + OrientationHeader;
    assert other[i] == lines[i];
    assert other[j..] == lines[j..];
    var s := st.(readingCrd := true, spCoordinates := [], spAtomnames := []);
    assert Step(other, i, st, allowLink1, pf) == Next(j, s);
    assert Step(lines, i, st, allowLink1, pf) == Next(j, s);
    ScanSameFrom(other, lines, j, s, allowLink1, pf);
  }

  /** A scan that reaches the end of pre without failing or halting goes the same way over
      pre + rest, and carries on from the end of pre in the state it reached there. */
  lemma {:induction false} ScanPrefix(pre: seq<string>, rest: seq<string>, i: nat, st: Scanner, allowLink1: bool,
                                      pf: FloatParser)
    requires i <= |pre|
    requires Scan(pre, i, st, allowLink1, pf).Success? && !Scan(pre, i, st, allowLink1, pf).value.halted
    ensures Scan(pre + rest, i, st, allowLink1, pf)
            == Scan(pre + rest, |pre|, Scan(pre, i, st, allowLink1, pf).value, allowLink1, pf)
    decreases |pre| - i
  {
    if i < |pre| {
      var m := Step(pre, i, st, allowLink1, pf);
      StepExtends(pre, rest, i, st, allowLink1, pf);
      match m
      case Next(j, s) =>
        ScanPrefix(pre, rest, j, s, allowLink1, pf);
      case Halt(_) =>
      case Fail(_) =>
    }
  }

  lemma Link1NotOtherMarker(line: string)
    requires IsLink1Marker(line)
    ensures !StartsWith(line, OrientationMarker) && !StartsWith(line, ScfMarker) && !StartsWith(line, StepMarker)
    ensures !StartsWith(line, ThermoMarker) && !StartsWith(line, CounterMarker)
    ensures Classify(line, false) == Link1Line
  {
    assert line[0] == 'E' || line[0] == 'L' by {
      if StartsWith(line, LinkEntering) {
        assert line[0] == line[..|LinkEntering|][0];
      } else {
        assert line[0] == line[..|LinkLabel|][0];
      }
    }
    assert OrientationMarker[0] == 'I' && ScfMarker[0] == 'S' && StepMarker[0] == 'S';
    assert ThermoMarker[0] == 'Z' && CounterMarker[0] == 'C';
  }

  /** Without allowLink1, a Link1 marker line reached outside a coordinate block ends the
      parse: nothing after it contributes, whatever it is. */
  lemma Link1EndsParse(pre: seq<string>, marker: string, post: seq<string>, pf: FloatParser)
    requires HeaderLines <= |pre| && IsLink1Marker(Strip(marker))
    requires var r := Scan(pre, HeaderLines, Initial, false, pf); r.Success? && !r.value.halted && !r.value.readingCrd
    ensures Parse(pre + [marker] + post, false, pf) == Success(Scan(pre, HeaderLines, Initial, false, pf).value.log)
  {
    var st := Scan(pre, HeaderLines, Initial, false, pf).value;
    var lines := pre + [marker] + post;
    assert lines == pre + ([marker] + post);
    ScanPrefix(pre, [marker] + post, HeaderLines, Initial, false, pf);
    assert lines[|pre|] == marker;
    Link1NotOtherMarker(Strip(marker));
    Link1Halts(lines, |pre|, st, pf);
  }

  /** Without allowLink1, the scan stops at a line classified as a Link1 marker, with the
      state it had. */
  lemma Link1Halts(lines: seq<string>, i: nat, st: Scanner, pf: FloatParser)
    requires i < |lines| && Classify(Strip(lines[i]), st.readingCrd) == Link1Line
    ensures Scan(lines, i, st, false, pf) == Success(st.(halted := true))
  {
    StepOfKind(lines, i, st, false, pf, Link1Line);
    ScanOfHalt(lines, i, st, false, pf);
  }

  /** A step runs the branch of the kind its stripped line is classified as. */
  lemma StepOfKind(lines: seq<string>, i: nat, st: Scanner, allowLink1: bool, pf: FloatParser, kind: LineKind)
    requires i < |lines| && Classify(Strip(lines[i]), st.readingCrd) == kind
    ensures Step(lines, i, st, allowLink1, pf) == Branch(lines, i, Strip(lines[i]), kind, st, allowLink1, pf)
  {
  }

  /** A step that halts ends the scan with its state. */
  lemma ScanOfHalt(lines: seq<string>, i: nat, st: Scanner, allowLink1: bool, pf: FloatParser)
    requires i < |lines| && Step(lines, i, st, allowLink1, pf).Halt?
    ensures Scan(lines, i, st, allowLink1, pf) == Success(Step(lines, i, st, allowLink1, pf).st)
  {
  }

  // ---- one coordinate row ----

  /** map(float, toks) succeeds exactly when every token is a float, and then holds those
      floats in order. */
  lemma {:induction false} ParseFloatsValues(toks: seq<string>, pf: FloatParser)
    ensures var r := ParseFloats(toks, pf);
            (r.Some? <==> forall k :: 0 <= k < |toks| ==> pf(toks[k]).Some?) &&
            (r.Some? ==> |r.value| == |toks| && forall k :: 0 <= k < |toks| ==> pf(toks[k]) == Some(r.value[k]))
    decreases |toks|
  {
    if toks != [] {
      ParseFloatsValues(toks[1..], pf);
      assert forall k :: 0 < k < |toks| ==> toks[k] == toks[1..][k - 1];
      var r := ParseFloats(toks, pf);
      if r.Some? {
        var vs := ParseFloats(toks[1..], pf).value;
        assert r.value == [pf(toks[0]).value] + vs;
        assert forall k :: 0 < k < |toks| ==> r.value[k] == vs[k - 1];
      }
    }
  }

  /** fields[3:6] holds fields 3, 4 and 5, as many of them as there are. */
  lemma CoordFieldsAt(fields: seq<string>)
    ensures var r := CoordFields(fields);
            |r| == (if |fields| >= 6 then 3 else if |fields| >= 3 then |fields| - 3 else 0) &&
            forall k :: 0 <= k < |r| ==> 3 + k < |fields| && r[k] == fields[3 + k]
  {
  }

  /** A coordinate row succeeds exactly when fields 3 to 5 (as many as there are) are floats
      and field 1 is an int, and then holds those values; a missing field 1 is an IndexError
      raised only once the coordinates have been read, anything else a ValueError. */
  lemma ParseRowCases(fields: seq<string>, pf: FloatParser)
    ensures var r := ParseRow(fields, pf);
            var floatsOk := forall k :: 3 <= k < |fields| && k < 6 ==> pf(fields[k]).Some?;
            (r.Success? <==> floatsOk && |fields| >= 2 && ParseInt(fields[1]).Some?) &&
            (r.Success? ==> ParseInt(fields[1]) == Some(r.value.1) &&
                            |r.value.0| == |CoordFields(fields)| &&
                            forall k :: 0 <= k < |r.value.0| ==> 3 + k < |fields| && pf(fields[3 + k]) == Some(r.value.0[k])) &&
            (r.Failure? ==> (r.error == IndexError <==> floatsOk && |fields| < 2) &&
                            (r.error == IndexError || r.error == ValueError))
  {
    var cs := CoordFields(fields);
    CoordFieldsAt(fields);
    ParseFloatsValues(cs, pf);
    assert (forall k :: 0 <= k < |cs| ==> pf(cs[k]).Some?) <==>
           (forall k :: 3 <= k < |fields| && k < 6 ==> pf(fields[k]).Some?) by {
      assert forall k :: 3 <= k < |fields| && k < 6 ==> k - 3 < |cs| && cs[k - 3] == fields[k];
    }
  }

  // ---- the shape of what is collected ----

  /** isAtomsOrdered as gaussian_results.py computes it: every snapshot from the third on repeats the
      one before it (the second is never compared with the first). */
  predicate OrderKept(names: seq<seq<int>>) {
    forall k :: 2 <= k < |names| ==> names[k] == names[k - 1]
  }

  /** A thermochemistry or counterpoise tuple is either still all None or wholly read. */
  predicate Uniform(values: seq<Option<real>>) {
    (forall k :: 0 <= k < |values| ==> values[k].None?) || (forall k :: 0 <= k < |values| ==> values[k].Some?)
  }

  /** Every row holds at most three cartesian values (fields[3:6]). */
  predicate Rows(snapshot: seq<Coord>) {
    forall r :: 0 <= r < |snapshot| ==> |snapshot[r]| <= 3
  }

  /** What a finished parse promises: one atom list per snapshot, of the snapshot's length,
      tuples of the fixed sizes, and the ordering flag equal to OrderKept. */
  predicate WellFormed(log: Log) {
    && |log.coordinates| == |log.atomnames|
    && (forall k :: 0 <= k < |log.coordinates| ==> |log.coordinates[k]| == |log.atomnames[k]| && Rows(log.coordinates[k]))
    && |log.thermo| == ThermoCount && Uniform(log.thermo)
    && |log.counter| == CounterCount && Uniform(log.counter)
    && log.atomsOrdered == OrderKept(log.atomnames)
  }

  predicate ScannerOk(st: Scanner) {
    WellFormed(st.log) && |st.spCoordinates| == |st.spAtomnames| && Rows(st.spCoordinates)
  }

  /** Appending a snapshot keeps the flag exactly when it repeats the last one, or when it is
      only the first or second snapshot. */
  lemma OrderKeptAppend(names: seq<seq<int>>, next: seq<int>)
    ensures OrderKept(names + [next]) <==> OrderKept(names) && (|names| > 1 ==> names[|names| - 1] == next)
  {
    var all := names + [next];
    if OrderKept(all) {
      forall k | 2 <= k < |names| ensures names[k] == names[k - 1] {
        assert all[k] == names[k] && all[k - 1] == names[k - 1];
      }
      if |names| > 1 {
        assert all[|names|] == next && all[|names| - 1] == names[|names| - 1];
      }
    }
  }

  /** Once the flag is false it stays false: a longer list cannot repair an earlier mismatch. */
  lemma OrderKeptPrefix(names: seq<seq<int>>, n: nat)
    requires n <= |names| && OrderKept(names)
    ensures OrderKept(names[..n])
  {
  }

  lemma CloseKeepsShape(st: Scanner)
    requires ScannerOk(st)
    ensures ScannerOk(CloseBlock(st))
  {
    OrderKeptAppend(st.log.atomnames, st.spAtomnames);
    var s := CloseBlock(st);
    assert s.log.coordinates[|st.log.coordinates|] == st.spCoordinates;
  }

  lemma RowKeepsShape(st: Scanner, row: (Coord, int))
    requires ScannerOk(st) && |row.0| <= 3
    ensures ScannerOk(st.(spCoordinates := st.spCoordinates + [row.0], spAtomnames := st.spAtomnames + [row.1]))
  {
  }

  lemma BlockKeepsShape(log: Log, values: seq<real>, thermo: bool)
    requires WellFormed(log) && |values| == if thermo then ThermoCount else CounterCount
    ensures WellFormed(if thermo then log.(thermo := Present(values)) else log.(counter := Present(values)))
  {
  }

  lemma BranchKeepsShape(lines: seq<string>, i: nat, line: string, kind: LineKind, st: Scanner, allowLink1: bool,
                         pf: FloatParser)
    requires i < |lines| && ScannerOk(st)
    ensures var m := Branch(lines, i, line, kind, st, allowLink1, pf); !m.Fail? ==> ScannerOk(m.st)
  {
    match kind
    case CoordRow =>
      var row := ParseRow(Words(line), pf);
      if row.Success? {
        RowKeepsShape(st, row.value);
      }
    case CoordEnd =>
      CloseKeepsShape(st);
    case ThermoStart =>
      var block := ReadBlock(lines, i + 1, line, ThermoCount, BlockEntry('(', pf), []);
      if block.Success? {
        BlockKeepsShape(st.log, block.value.0, true);
      }
    case CounterStart =>
      var block := ReadBlock(lines, i + 1, line, CounterCount, BlockEntry('k', pf), []);
      if block.Success? {
        BlockKeepsShape(st.log, block.value.0, false);
      }
    case _ =>
  }

  lemma StepKeepsShape(lines: seq<string>, i: nat, st: Scanner, allowLink1: bool, pf: FloatParser)
    requires i < |lines| && ScannerOk(st)
    ensures var m := Step(lines, i, st, allowLink1, pf); !m.Fail? ==> ScannerOk(m.st)
  {
    var line := Strip(lines[i]);
    BranchKeepsShape(lines, i, line, Classify(line, st.readingCrd), st, allowLink1, pf);
  }

  lemma {:induction false} ScanKeepsShape(lines: seq<string>, i: nat, st: Scanner, allowLink1: bool, pf: FloatParser)
    requires i <= |lines| && ScannerOk(st)
    ensures Scan(lines, i, st, allowLink1, pf).Success? ==> ScannerOk(Scan(lines, i, st, allowLink1, pf).value)
    decreases |lines| - i
  {
    if i < |lines| {
      StepKeepsShape(lines, i, st, allowLink1, pf);
      match Step(lines, i, st, allowLink1, pf)
      case Next(j, s) => ScanKeepsShape(lines, j, s, allowLink1, pf);
      case Halt(_) =>
      case Fail(_) =>
    }
  }

  /** Every parse that succeeds is well formed. */
  lemma ParseWellFormed(lines: seq<string>, allowLink1: bool, pf: FloatParser)
    ensures Parse(lines, allowLink1, pf).Success? ==> WellFormed(Parse(lines, allowLink1, pf).value)
  {
    if |lines| >= HeaderLines {
      ScanKeepsShape(lines, HeaderLines, Initial, allowLink1, pf);
    }
  }

  // ---- where the values come from ----

  /** The line at i is classified as an "SCF Done:" line: it is not an orientation line, no
      coordinate block is open, and it starts with the marker. */
  predicate ScfLineAt(lines: seq<string>, i: nat, st: Scanner)
    requires i < |lines|
  {
    Classify(Strip(lines[i]), st.readingCrd) == ScfDone
  }

  /** The line at i is the "-----" line that closes an open coordinate block. */
  predicate CoordEndAt(lines: seq<string>, i: nat, st: Scanner)
    requires i < |lines|
  {
    Classify(Strip(lines[i]), st.readingCrd) == CoordEnd
  }

  /** The same for a "Step number" line. */
  predicate StepLineAt(lines: seq<string>, i: nat, st: Scanner)
    requires i < |lines|
  {
    Classify(Strip(lines[i]), st.readingCrd) == StepLine
  }

  /** The branch of an "SCF Done:" line adds its energy; no other branch touches energies. */
  lemma BranchEnergies(lines: seq<string>, i: nat, line: string, kind: LineKind, st: Scanner, allowLink1: bool,
                       pf: FloatParser)
    requires i < |lines| && Branch(lines, i, line, kind, st, allowLink1, pf).Next?
    ensures var s := Branch(lines, i, line, kind, st, allowLink1, pf).st;
            if kind == ScfDone
            then ScfEnergy(line, pf).Success? && s.log.energies == st.log.energies + [ScfEnergy(line, pf).value]
            else s.log.energies == st.log.energies
  {
    if kind == CoordEnd {
      assert Branch(lines, i, line, kind, st, allowLink1, pf).st == CloseBlock(st);
    }
  }

  /** The branch of a "Step number" line adds its index; no other branch touches steps. */
  lemma BranchSteps(lines: seq<string>, i: nat, line: string, kind: LineKind, st: Scanner, allowLink1: bool,
                    pf: FloatParser)
    requires i < |lines| && Branch(lines, i, line, kind, st, allowLink1, pf).Next?
    ensures var s := Branch(lines, i, line, kind, st, allowLink1, pf).st;
            if kind == StepLine
            then StepIndex(line).Success? && s.log.steps == st.log.steps + [StepIndex(line).value]
            else s.log.steps == st.log.steps
  {
    if kind == CoordEnd {
      assert Branch(lines, i, line, kind, st, allowLink1, pf).st == CloseBlock(st);
    }
  }

  lemma StepEnergies(lines: seq<string>, i: nat, st: Scanner, allowLink1: bool, pf: FloatParser)
    requires i < |lines| && Step(lines, i, st, allowLink1, pf).Next?
    ensures var s := Step(lines, i, st, allowLink1, pf).st;
            if ScfLineAt(lines, i, st)
            then ScfEnergy(Strip(lines[i]), pf).Success? && s.log.energies == st.log.energies + [ScfEnergy(Strip(lines[i]), pf).value]
            else s.log.energies == st.log.energies
  {
    var line := Strip(lines[i]);
    BranchEnergies(lines, i, line, Classify(line, st.readingCrd), st, allowLink1, pf);
  }

  lemma StepSteps(lines: seq<string>, i: nat, st: Scanner, allowLink1: bool, pf: FloatParser)
    requires i < |lines| && Step(lines, i, st, allowLink1, pf).Next?
    ensures var s := Step(lines, i, st, allowLink1, pf).st;
            if StepLineAt(lines, i, st)
            then StepIndex(Strip(lines[i])).Success? && s.log.steps == st.log.steps + [StepIndex(Strip(lines[i])).value]
            else s.log.steps == st.log.steps
  {
    var line := Strip(lines[i]);
    BranchSteps(lines, i, line, Classify(line, st.readingCrd), st, allowLink1, pf);
  }

  /** The value an "SCF Done:" line at p holds, if it is one and its fifth token is a float. */
  function ScfAt(lines: seq<string>, pf: FloatParser): nat -> Option<real> {
    (p: nat) => if p < |lines| && StartsWith(Strip(lines[p]), ScfMarker) && ScfEnergy(Strip(lines[p]), pf).Success?
         then Some(ScfEnergy(Strip(lines[p]), pf).value) else None
  }

  /** The index a "Step number N" line at p holds, N - 1, if it is one and N is an int. */
  function StepAt(lines: seq<string>): nat -> Option<int> {
    (p: nat) => if p < |lines| && StartsWith(Strip(lines[p]), StepMarker) && StepIndex(Strip(lines[p])).Success?
         then Some(StepIndex(Strip(lines[p])).value) else None
  }

  /** e extends e0 by one value for each position of ps, positions in [i, bound) in
      increasing order, each holding that value according to at. */
  ghost predicate CollectedFrom<T>(i: nat, bound: nat, ps: seq<nat>, e0: seq<T>, e: seq<T>, at: nat -> Option<T>) {
    |e| == |e0| + |ps| && e[..|e0|] == e0 && Increasing(ps) &&
    forall k :: 0 <= k < |ps| ==> i <= ps[k] < bound && at(ps[k]) == Some(e[|e0| + k])
  }

  lemma CollectedCons<T>(i: nat, j: nat, bound: nat, rest: seq<nat>, e0: seq<T>, v: T, e: seq<T>, at: nat -> Option<T>)
    requires i < j && i < bound && CollectedFrom(j, bound, rest, e0 + [v], e, at) && at(i) == Some(v)
    ensures CollectedFrom(i, bound, [i] + rest, e0, e, at)
  {
    var ps := [i] + rest;
    assert e[..|e0|] == (e[..|e0| + 1])[..|e0|];
    forall k | 0 <= k < |ps|
      ensures i <= ps[k] < bound && at(ps[k]) == Some(e[|e0| + k])
    {
      if k == 0 {
        assert e[|e0|] == (e[..|e0| + 1])[|e0|];
      } else {
        assert ps[k] == rest[k - 1];
        assert |e0| + k == |e0 + [v]| + (k - 1);
      }
    }
  }

  lemma CollectedLater<T>(i: nat, j: nat, bound: nat, ps: seq<nat>, e0: seq<T>, e: seq<T>, at: nat -> Option<T>)
    requires i < j && CollectedFrom(j, bound, ps, e0, e, at)
    ensures CollectedFrom(i, bound, ps, e0, e, at)
  {
  }

  /** Each energy the scan adds is the fifth token of an "SCF Done:" line it classified, in
      the order of the lines. */
  lemma {:induction false} ScanEnergies(lines: seq<string>, i: nat, st: Scanner, allowLink1: bool, pf: FloatParser)
    requires i <= |lines| && Scan(lines, i, st, allowLink1, pf).Success?
    ensures CollectedFrom(i, |lines|, KindPositions(lines, Visits(lines, i, st, allowLink1, pf), ScfDone),
                          st.log.energies, Scan(lines, i, st, allowLink1, pf).value.log.energies, ScfAt(lines, pf))
    decreases |lines| - i
  {
    if i < |lines| {
      var e := Scan(lines, i, st, allowLink1, pf).value.log.energies;
      var m := Step(lines, i, st, allowLink1, pf);
      PositionsStep(lines, i, st, allowLink1, pf, ScfDone);
      if m.Halt? {
        assert e == st.log.energies;
      } else if m.Next? {
        var rest := KindPositions(lines, Visits(lines, m.pos, m.st, allowLink1, pf), ScfDone);
        ScanEnergies(lines, m.pos, m.st, allowLink1, pf);
        StepEnergies(lines, i, st, allowLink1, pf);
        if ScfLineAt(lines, i, st) {
          CollectedCons(i, m.pos, |lines|, rest, st.log.energies, ScfEnergy(Strip(lines[i]), pf).value, e, ScfAt(lines, pf));
        } else {
          CollectedLater(i, m.pos, |lines|, rest, st.log.energies, e, ScfAt(lines, pf));
          assert [] + rest == rest;
        }
      }
    }
  }

  /** Each step index the scan adds is N - 1 for the N of a "Step number N" line it
      classified, in the order of the lines. */
  lemma {:induction false} ScanSteps(lines: seq<string>, i: nat, st: Scanner, allowLink1: bool, pf: FloatParser)
    requires i <= |lines| && Scan(lines, i, st, allowLink1, pf).Success?
    ensures CollectedFrom(i, |lines|, KindPositions(lines, Visits(lines, i, st, allowLink1, pf), StepLine),
                          st.log.steps, Scan(lines, i, st, allowLink1, pf).value.log.steps, StepAt(lines))
    decreases |lines| - i
  {
    if i < |lines| {
      var n := Scan(lines, i, st, allowLink1, pf).value.log.steps;
      var m := Step(lines, i, st, allowLink1, pf);
      PositionsStep(lines, i, st, allowLink1, pf, StepLine);
      if m.Halt? {
        assert n == st.log.steps;
      } else if m.Next? {
        var rest := KindPositions(lines, Visits(lines, m.pos, m.st, allowLink1, pf), StepLine);
        ScanSteps(lines, m.pos, m.st, allowLink1, pf);
        StepSteps(lines, i, st, allowLink1, pf);
        if StepLineAt(lines, i, st) {
          CollectedCons(i, m.pos, |lines|, rest, st.log.steps, StepIndex(Strip(lines[i])).value, n, StepAt(lines));
        } else {
          CollectedLater(i, m.pos, |lines|, rest, st.log.steps, n, StepAt(lines));
          assert [] + rest == rest;
        }
      }
    }
  }

  /** energies holds the fifth token of each "SCF Done:" line the parse classified, in the
      order of the lines, all of them after the header. */
  lemma ParseEnergies(lines: seq<string>, allowLink1: bool, pf: FloatParser) returns (ps: seq<nat>)
    requires Parse(lines, allowLink1, pf).Success?
    ensures var e := Parse(lines, allowLink1, pf).value.energies;
            |ps| == |e| && Increasing(ps) &&
            forall k :: 0 <= k < |ps| ==>
              HeaderLines <= ps[k] < |lines| && StartsWith(Strip(lines[ps[k]]), ScfMarker) &&
              ScfEnergy(Strip(lines[ps[k]]), pf) == Success(e[k])
    ensures ps == KindPositions(lines, Visits(lines, HeaderLines, Initial, allowLink1, pf), ScfDone)
  {
    ps := KindPositions(lines, Visits(lines, HeaderLines, Initial, allowLink1, pf), ScfDone);
    ScanEnergies(lines, HeaderLines, Initial, allowLink1, pf);
  }

  /** steps holds the step index (N - 1 for "Step number N") of each "Step number" line the parse classified, in the order of
      the lines, all of them after the header. */
  lemma ParseSteps(lines: seq<string>, allowLink1: bool, pf: FloatParser) returns (ps: seq<nat>)
    requires Parse(lines, allowLink1, pf).Success?
    ensures var n := Parse(lines, allowLink1, pf).value.steps;
            |ps| == |n| && Increasing(ps) &&
            forall k :: 0 <= k < |ps| ==>
              HeaderLines <= ps[k] < |lines| && StartsWith(Strip(lines[ps[k]]), StepMarker) &&
              StepIndex(Strip(lines[ps[k]])) == Success(n[k])
    ensures ps == KindPositions(lines, Visits(lines, HeaderLines, Initial, allowLink1, pf), StepLine)
  {
    ps := KindPositions(lines, Visits(lines, HeaderLines, Initial, allowLink1, pf), StepLine);
    ScanSteps(lines, HeaderLines, Initial, allowLink1, pf);
  }

  // ---- snapshots ----

  /** Only the "-----" line that closes a coordinate block adds a snapshot, exactly one to
      each list, and it is the block just read; every other branch leaves both lists alone. */
  lemma BranchSnapshots(lines: seq<string>, i: nat, line: string, kind: LineKind, st: Scanner, allowLink1: bool,
                        pf: FloatParser)
    requires i < |lines| && Branch(lines, i, line, kind, st, allowLink1, pf).Next?
    ensures var s := Branch(lines, i, line, kind, st, allowLink1, pf).st;
            if kind == CoordEnd
            then s.log.coordinates == st.log.coordinates + [st.spCoordinates] &&
                 s.log.atomnames == st.log.atomnames + [st.spAtomnames]
            else s.log.coordinates == st.log.coordinates && s.log.atomnames == st.log.atomnames
  {
    if kind == CoordEnd {
      assert Branch(lines, i, line, kind, st, allowLink1, pf).st == CloseBlock(st);
    }
  }

  lemma StepSnapshots(lines: seq<string>, i: nat, st: Scanner, allowLink1: bool, pf: FloatParser)
    requires i < |lines| && Step(lines, i, st, allowLink1, pf).Next?
    ensures var s := Step(lines, i, st, allowLink1, pf).st;
            if CoordEndAt(lines, i, st)
            then s.log.coordinates == st.log.coordinates + [st.spCoordinates] &&
                 s.log.atomnames == st.log.atomnames + [st.spAtomnames]
            else s.log.coordinates == st.log.coordinates && s.log.atomnames == st.log.atomnames
  {
    var line := Strip(lines[i]);
    BranchSnapshots(lines, i, line, Classify(line, st.readingCrd), st, allowLink1, pf);
  }

  /** The scan adds to coordinates and atomnames exactly the blocks closed by the "-----"
      lines it visits, in order. */
  lemma {:induction false} ScanSnapshots(lines: seq<string>, i: nat, st: Scanner, allowLink1: bool, pf: FloatParser)
    requires i <= |lines| && Scan(lines, i, st, allowLink1, pf).Success?
    ensures var log := Scan(lines, i, st, allowLink1, pf).value.log;
            var vs := Visits(lines, i, st, allowLink1, pf);
            log.coordinates == st.log.coordinates + ClosedCoordinates(lines, vs) &&
            log.atomnames == st.log.atomnames + ClosedAtomnames(lines, vs)
    decreases |lines| - i
  {
    if i < |lines| {
      var m := Step(lines, i, st, allowLink1, pf);
      if m.Halt? {
        ClosedHalt(lines, i, st, allowLink1, pf);
      } else if m.Next? {
        var log := Scan(lines, i, st, allowLink1, pf).value.log;
        var rest := Visits(lines, m.pos, m.st, allowLink1, pf);
        var here := CoordEndAt(lines, i, st);
        ScanSnapshots(lines, m.pos, m.st, allowLink1, pf);
        StepSnapshots(lines, i, st, allowLink1, pf);
        ClosedStep(lines, i, st, allowLink1, pf);
        ExtendedBy(st.log.coordinates, m.st.log.coordinates, log.coordinates, here, st.spCoordinates,
                   ClosedCoordinates(lines, rest), ClosedCoordinates(lines, Visits(lines, i, st, allowLink1, pf)));
        ExtendedBy(st.log.atomnames, m.st.log.atomnames, log.atomnames, here, st.spAtomnames,
                   ClosedAtomnames(lines, rest), ClosedAtomnames(lines, Visits(lines, i, st, allowLink1, pf)));
      }
    }
  }

  /** A list that one step extends by x or by nothing, and the rest of the scan by rest, is
      extended by the two together. */
  lemma ExtendedBy<T>(before: seq<T>, mid: seq<T>, after: seq<T>, here: bool, x: T, rest: seq<T>, all: seq<T>)
    requires mid == (if here then before + [x] else before)
    requires after == mid + rest
    requires all == (if here then [x] else []) + rest
    ensures after == before + all
  {
    if here {
      assert (before + [x]) + rest == before + ([x] + rest);
    } else {
      assert [] + rest == rest;
    }
  }

  /** coordinates and atomnames hold, in order, the snapshot of each coordinate block the
      parse closed with a "-----" line. */
  lemma ParseSnapshots(lines: seq<string>, allowLink1: bool, pf: FloatParser)
    requires Parse(lines, allowLink1, pf).Success?
    ensures var log := Parse(lines, allowLink1, pf).value;
            var vs := Visits(lines, HeaderLines, Initial, allowLink1, pf);
            log.coordinates == ClosedCoordinates(lines, vs) && log.atomnames == ClosedAtomnames(lines, vs)
  {
    ScanSnapshots(lines, HeaderLines, Initial, allowLink1, pf);
  }

  // ---- thermochemistry and counterpoise ----

  /** No line from i on starts, once stripped, with the marker. */
  predicate MarkerAbsent(lines: seq<string>, i: nat, marker: string) {
    forall p :: i <= p < |lines| ==> !StartsWith(Strip(lines[p]), marker)
  }

  lemma {:induction false} ScanKeepsThermo(lines: seq<string>, i: nat, st: Scanner, allowLink1: bool, pf: FloatParser)
    requires i <= |lines| && MarkerAbsent(lines, i, ThermoMarker)
    ensures Scan(lines, i, st, allowLink1, pf).Success? ==> Scan(lines, i, st, allowLink1, pf).value.log.thermo == st.log.thermo
    decreases |lines| - i
  {
    if i < |lines| {
      match Step(lines, i, st, allowLink1, pf)
      case Next(j, s) =>
        assert s.log.thermo == st.log.thermo by {
          assert !StartsWith(Strip(lines[i]), ThermoMarker);
          StepThermo(lines, i, st, allowLink1, pf);
        }
        ScanKeepsThermo(lines, j, s, allowLink1, pf);
      case Halt(_) =>
      case Fail(_) =>
    }
  }

  lemma {:induction false} ScanKeepsCounter(lines: seq<string>, i: nat, st: Scanner, allowLink1: bool, pf: FloatParser)
    requires i <= |lines| && MarkerAbsent(lines, i, CounterMarker)
    ensures Scan(lines, i, st, allowLink1, pf).Success? ==> Scan(lines, i, st, allowLink1, pf).value.log.counter == st.log.counter
    decreases |lines| - i
  {
    if i < |lines| {
      match Step(lines, i, st, allowLink1, pf)
      case Next(j, s) =>
        assert s.log.counter == st.log.counter by {
          assert !StartsWith(Strip(lines[i]), CounterMarker);
          StepCounter(lines, i, st, allowLink1, pf);
        }
        ScanKeepsCounter(lines, j, s, allowLink1, pf);
      case Halt(_) =>
      case Fail(_) =>
    }
  }

  lemma StepThermo(lines: seq<string>, i: nat, st: Scanner, allowLink1: bool, pf: FloatParser)
    requires i < |lines| && Step(lines, i, st, allowLink1, pf).Next? && Classify(Strip(lines[i]), st.readingCrd) != ThermoStart
    ensures Step(lines, i, st, allowLink1, pf).st.log.thermo == st.log.thermo
  {
  }

  lemma StepCounter(lines: seq<string>, i: nat, st: Scanner, allowLink1: bool, pf: FloatParser)
    requires i < |lines| && Step(lines, i, st, allowLink1, pf).Next? && Classify(Strip(lines[i]), st.readingCrd) != CounterStart
    ensures Step(lines, i, st, allowLink1, pf).st.log.counter == st.log.counter
  {
  }

  /** thermo and counter stay all None unless their marker line appears after the header. */
  lemma ParseWithoutBlocks(lines: seq<string>, allowLink1: bool, pf: FloatParser)
    requires Parse(lines, allowLink1, pf).Success?
    ensures MarkerAbsent(lines, HeaderLines, ThermoMarker) ==> Parse(lines, allowLink1, pf).value.thermo == Absent(ThermoCount)
    ensures MarkerAbsent(lines, HeaderLines, CounterMarker) ==> Parse(lines, allowLink1, pf).value.counter == Absent(CounterCount)
  {
    if MarkerAbsent(lines, HeaderLines, ThermoMarker) {
      ScanKeepsThermo(lines, HeaderLines, Initial, allowLink1, pf);
    }
    if MarkerAbsent(lines, HeaderLines, CounterMarker) {
      ScanKeepsCounter(lines, HeaderLines, Initial, allowLink1, pf);
    }
  }

  /** A block of count lines cut at stop: read whole exactly when it is readable, and then
      holding the float of each of its lines, in order. */
  lemma BlockOutcome(lines: seq<string>, pos: nat, cur: string, count: nat, stop: char, pf: FloatParser)
    requires pos <= |lines|
    ensures var r := ReadBlock(lines, pos, cur, count, BlockEntry(stop, pf), []);
            (r.Success? <==> BlockReadable(lines, pos, cur, count, BlockEntry(stop, pf))) &&
            (r.Success? ==> forall k :: 0 <= k < count ==>
                              Some(r.value.0[k]) == pf(BlockValue(BlockLine(lines, pos, cur, k), stop)))
  {
    var value := BlockEntry(stop, pf);
    ReadBlockSucceeds(lines, pos, cur, count, value, []);
    if ReadBlock(lines, pos, cur, count, value, []).Success? {
      ReadBlockValuesOfLines(lines, pos, cur, count, value, []);
    }
  }

  /** The branch of a thermochemistry line reads the block of ThermoCount values it opens, or fails. */
  lemma ThermoBranch(lines: seq<string>, i: nat, line: string, st: Scanner, allowLink1: bool, pf: FloatParser)
    requires i < |lines|
    ensures var m := Branch(lines, i, line, ThermoStart, st, allowLink1, pf);
            !m.Halt? &&
            (m.Next? <==> BlockReadable(lines, i + 1, line, ThermoCount, BlockEntry('(', pf)))
    ensures var m := Branch(lines, i, line, ThermoStart, st, allowLink1, pf);
            m.Next? ==> m.pos == i + 1 + ThermoCount && m.st == st.(log := st.log.(thermo := m.st.log.thermo)) &&
                        |m.st.log.thermo| == ThermoCount &&
                        forall k :: 0 <= k < ThermoCount ==>
                          m.st.log.thermo[k] == pf(BlockValue(BlockLine(lines, i + 1, line, k), '('))
  {
    BlockOutcome(lines, i + 1, line, ThermoCount, '(', pf);
  }

  /** A thermochemistry line classified outside a coordinate block reads the eight values of
      its own line and the seven after it, consumes the line after those unexamined, and
      changes nothing but thermo; it fails exactly when a value is not a float or the file
      ends first. */
  lemma ThermoBlockRead(lines: seq<string>, i: nat, st: Scanner, allowLink1: bool, pf: FloatParser)
    requires i < |lines| && !st.readingCrd && StartsWith(Strip(lines[i]), ThermoMarker)
    ensures var m := Step(lines, i, st, allowLink1, pf);
            !m.Halt? &&
            (m.Next? <==> BlockReadable(lines, i + 1, Strip(lines[i]), ThermoCount, BlockEntry('(', pf)))
    ensures var m := Step(lines, i, st, allowLink1, pf);
            m.Next? ==> m.pos == i + 1 + ThermoCount && m.st == st.(log := st.log.(thermo := m.st.log.thermo)) &&
                        |m.st.log.thermo| == ThermoCount &&
                        forall k :: 0 <= k < ThermoCount ==>
                          m.st.log.thermo[k] == pf(BlockValue(BlockLine(lines, i + 1, Strip(lines[i]), k), '('))
  {
    ThermoNotOtherMarker(Strip(lines[i]));
    ThermoBranch(lines, i, Strip(lines[i]), st, allowLink1, pf);
  }

  /** The branch of a counterpoise line reads the block of CounterCount values it opens, or fails. */
  lemma CounterBranch(lines: seq<string>, i: nat, line: string, st: Scanner, allowLink1: bool, pf: FloatParser)
    requires i < |lines|
    ensures var m := Branch(lines, i, line, CounterStart, st, allowLink1, pf);
            !m.Halt? &&
            (m.Next? <==> BlockReadable(lines, i + 1, line, CounterCount, BlockEntry('k', pf)))
    ensures var m := Branch(lines, i, line, CounterStart, st, allowLink1, pf);
            m.Next? ==> m.pos == i + 1 + CounterCount && m.st == st.(log := st.log.(counter := m.st.log.counter)) &&
                        |m.st.log.counter| == CounterCount &&
                        forall k :: 0 <= k < CounterCount ==>
                          m.st.log.counter[k] == pf(BlockValue(BlockLine(lines, i + 1, line, k), 'k'))
  {
    BlockOutcome(lines, i + 1, line, CounterCount, 'k', pf);
  }

  /** The same for a counterpoise line and its five values, cut at 'k'. */
  lemma CounterBlockRead(lines: seq<string>, i: nat, st: Scanner, allowLink1: bool, pf: FloatParser)
    requires i < |lines| && !st.readingCrd && StartsWith(Strip(lines[i]), CounterMarker)
    ensures var m := Step(lines, i, st, allowLink1, pf);
            !m.Halt? &&
            (m.Next? <==> BlockReadable(lines, i + 1, Strip(lines[i]), CounterCount, BlockEntry('k', pf)))
    ensures var m := Step(lines, i, st, allowLink1, pf);
            m.Next? ==> m.pos == i + 1 + CounterCount && m.st == st.(log := st.log.(counter := m.st.log.counter)) &&
                        |m.st.log.counter| == CounterCount &&
                        forall k :: 0 <= k < CounterCount ==>
                          m.st.log.counter[k] == pf(BlockValue(BlockLine(lines, i + 1, Strip(lines[i]), k), 'k'))
  {
    CounterNotOtherMarker(Strip(lines[i]));
    CounterBranch(lines, i, Strip(lines[i]), st, allowLink1, pf);
  }

  lemma ThermoNotOtherMarker(line: string)
    requires StartsWith(line, ThermoMarker)
    ensures !StartsWith(line, OrientationMarker) && !StartsWith(line, ScfMarker) && !StartsWith(line, StepMarker)
    ensures Classify(line, false) == ThermoStart
  {
    assert line[0] == line[..|ThermoMarker|][0] == 'Z';
    assert OrientationMarker[0] == 'I' && ScfMarker[0] == 'S' && StepMarker[0] == 'S';
  }

  lemma CounterNotOtherMarker(line: string)
    requires StartsWith(line, CounterMarker)
    ensures !StartsWith(line, OrientationMarker) && !StartsWith(line, ScfMarker) && !StartsWith(line, StepMarker)
    ensures !StartsWith(line, ThermoMarker)
    ensures Classify(line, false) == CounterStart
  {
    assert line[0] == line[..|CounterMarker|][0] == 'C';
    assert OrientationMarker[0] == 'I' && ScfMarker[0] == 'S' && StepMarker[0] == 'S' && ThermoMarker[0] == 'Z';
  }
}
