/** The loops of Gdata.__init__ in gaussian_results.py, proved to compute the state machine of
    GdataParser and, through it, to keep the invariants GdataParserFacts proves about it. */
module GdataReader {
  import opened Base
  import opened PyText
  import opened Utilities
  import opened GdataParser
  import opened GdataParserFacts

  /** The `for _ in range(count)` loop of a thermochemistry or counterpoise block, with the
      conversion of one line to a value as a parameter. */
  method ReadBlockValues(lines: seq<string>, pos: nat, first: string, count: nat, value: string -> Option<real>)
    returns (r: Result<(seq<real>, nat), PyError>)
    requires pos <= |lines|
    ensures r == ReadBlock(lines, pos, first, count, value, [])
  {
    var values: seq<real> := [];
    var line := first;
    var next: nat := pos;
    var left: nat := count;
    while left > 0
      invariant next <= |lines|
      invariant ReadBlock(lines, next, line, left, value, values) == ReadBlock(lines, pos, first, count, value, [])
    {
      var v := value(line);
      if v.None? {
        return Failure(ValueError);
      }
      if next == |lines| {
        return Failure(StopIteration);
      }
      values := values + [v.value];
      line := lines[next];
      next := next + 1;
      left := left - 1;
    }
    return Success((values, next));
  }

  /** One branch of the body of the parsing loop, for a stripped line of the given kind. */
  method HandleLine(lines: seq<string>, i: nat, line: string, kind: LineKind, st: Scanner, allowLink1: bool,
                    pf: FloatParser) returns (m: Move)
    requires i < |lines|
    ensures m == Branch(lines, i, line, kind, st, allowLink1, pf)
  {
    var pos := i + 1;
    match kind
    case Orientation =>
      var header := IterSkip(lines, pos, OrientationHeader);
      if header.Failure? {
        return Fail(header.error);
      }
      return Next(header.value, st.(readingCrd := true, spCoordinates := [], spAtomnames := []));
    case CoordRow =>
      var row := ParseRow(Words(line), pf);
      if row.Failure? {
        return Fail(row.error);
      }
      return Next(pos, st.(spCoordinates := st.spCoordinates + [row.value.0],
                           spAtomnames := st.spAtomnames + [row.value.1]));
    case CoordEnd =>
      var names := st.log.atomnames;
      var ordered := st.log.atomsOrdered;
      if ordered {
        if |names| > 1 {
          if names[|names| - 1] != st.spAtomnames {
            ordered := false;
          }
        }
      }
      return Next(pos, st.(log := st.log.(coordinates := st.log.coordinates + [st.spCoordinates],
                                          atomnames := names + [st.spAtomnames],
                                          atomsOrdered := ordered),
                           readingCrd := false));
    case ScfDone =>
      var e := ScfEnergy(line, pf);
      if e.Failure? {
        return Fail(e.error);
      }
      return Next(pos, st.(log := st.log.(energies := st.log.energies + [e.value])));
    case StepLine =>
      var n := StepIndex(line);
      if n.Failure? {
        return Fail(n.error);
      }
      return Next(pos, st.(log := st.log.(steps := st.log.steps + [n.value])));
    case ThermoStart =>
      var block := ReadBlockValues(lines, pos, line, ThermoCount, BlockEntry('(', pf));
      if block.Failure? {
        return Fail(block.error);
      }
      return Next(block.value.1, st.(log := st.log.(thermo := Present(block.value.0))));
    case CounterStart =>
      var block := ReadBlockValues(lines, pos, line, CounterCount, BlockEntry('k', pf));
      if block.Failure? {
        return Fail(block.error);
      }
      return Next(block.value.1, st.(log := st.log.(counter := Present(block.value.0))));
    case Link1Line =>
      if !allowLink1 {
        return Halt(st.(halted := true));
      }
      return Next(pos, st);
    case Plain =>
      return Next(pos, st);
  }

  /** One pass of the body of the parsing loop of Gdata.__init__: the line at i is read
      (next() on the iterator), stripped, classified and handled. */
  method ParseLine(lines: seq<string>, i: nat, st: Scanner, allowLink1: bool, pf: FloatParser) returns (m: Move)
    requires i < |lines|
    ensures m == Step(lines, i, st, allowLink1, pf)
  {
    var line := Strip(lines[i]);
    m := HandleLine(lines, i, line, Classify(line, st.readingCrd), st, allowLink1, pf);
  }

  /** The parsing loop of Gdata.__init__: skip the 30 header lines, then run the loop body on
      each line until the end of the file or a Link1 marker; it computes Parse. */
  method ParseLog(lines: seq<string>, allowLink1: bool, pf: FloatParser) returns (r: Result<Log, PyError>)
    ensures r == Parse(lines, allowLink1, pf)
    ensures |lines| < HeaderLines ==> r == Failure(StopIteration)
    ensures r.Success? ==> WellFormed(r.value)
  {
    ParseWellFormed(lines, allowLink1, pf);
    var skipped := IterSkip(lines, 0, HeaderLines);
    if skipped.Failure? {
      return Failure(skipped.error);
    }
    var pos := skipped.value;
    var st := Initial;
    while pos < |lines|
      invariant HeaderLines <= pos <= |lines| && !st.halted
      invariant Scan(lines, pos, st, allowLink1, pf) == Scan(lines, HeaderLines, Initial, allowLink1, pf)
      decreases |lines| - pos
    {
      var m := ParseLine(lines, pos, st, allowLink1, pf);
      match m
      case Fail(e) =>
        return Failure(e);
      case Halt(s) =>
        return Success(s.log);
      case Next(j, s) =>
        pos, st := j, s;
    }
    return Success(st.log);
  }
}
