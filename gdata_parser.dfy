/** The line-stream parser of Gdata.__init__ in gaussian_results.py, reading a Gaussian 16
    log given as its lines. The file is the sequence of lines an iteration over it yields;
    the iterator is a position in that sequence. The specification is the state machine
    Step/Scan/Parse; ParseLog is the loop as gaussian_results.py writes it, proved to compute Parse. */
module GdataParser {
  import opened Base
  import opened PyText
  import opened Utilities

  const HeaderLines := 30                              // skipped before any line is classified
  const OrientationMarker := "Input orientation:"
  const OrientationHeader := 4                         // lines skipped after the marker
  const BlockEnd := "-----"
  const ScfMarker := "SCF Done:  E("
  const StepMarker := "Step number"
  const ThermoMarker := "Zero-point correction="
  const ThermoCount := 8
  const CounterMarker := "Counterpoise corrected energy ="
  const CounterCount := 5
  const LinkEntering := "Entering Link 1 "
  const LinkLabel := "Link1:"

  /** tuple(map(float, fields[3:6])): the cartesian values of one atom (at most three). */
  type Coord = seq<real>

  /** What a parse leaves on the Gdata object, plus the local isAtomsOrdered flag. */
  datatype Log = Log(
    coordinates: seq<seq<Coord>>,     // one snapshot per closed orientation block
    atomnames: seq<seq<int>>,         // the atomic numbers of the same snapshots
    energies: seq<real>,
    steps: seq<int>,
    thermo: seq<Option<real>>,        // (None,)*8 until a thermochemistry block is read
    counter: seq<Option<real>>,       // (None,)*5 until a counterpoise block is read
    atomsOrdered: bool)

  /** The parser's state between two lines: the result so far, doReadCrd, the open snapshot
      (sp_coordinates, sp_atomnames) and whether a Link1 marker ended the loop. */
  datatype Scanner = Scanner(
    log: Log,
    readingCrd: bool,
    spCoordinates: seq<Coord>,
    spAtomnames: seq<int>,
    halted: bool)

  function Absent(n: nat): (r: seq<Option<real>>)
    ensures |r| == n && forall k :: 0 <= k < n ==> r[k].None?
  {
    seq(n, _ => None)
  }

  function Present(values: seq<real>): (r: seq<Option<real>>)
    ensures |r| == |values| && forall k :: 0 <= k < |values| ==> r[k] == Some(values[k])
  {
    seq(|values|, k requires 0 <= k < |values| => Some(values[k]))
  }

  const Initial := Scanner(Log([], [], [], [], Absent(ThermoCount), Absent(CounterCount), true),
                           false, [], [], false)

  // ---- one line ----

  /** map(float, toks) consumed in order: ValueError (None) as soon as one token is not a float. */
  function ParseFloats(toks: seq<string>, pf: FloatParser): (r: Option<seq<real>>)
    ensures r.Some? ==> |r.value| == |toks|
    decreases |toks|
  {
    if toks == [] then Some([])
    else
      match pf(toks[0])
      case None => None
      case Some(v) =>
        match ParseFloats(toks[1..], pf)
        case None => None
        case Some(vs) => Some([v] + vs)
  }

  /** fields[3:6] */
  function CoordFields(fields: seq<string>): (r: seq<string>)
    ensures |r| <= 3
  {
    var lo := if |fields| < 3 then |fields| else 3;
    var hi := if |fields| < 6 then |fields| else 6;
    fields[lo..hi]
  }

  /** One row of a coordinate block: the floats of fields 3 to 5 first, then int(fields[1]). */
  function ParseRow(fields: seq<string>, pf: FloatParser): (r: Result<(Coord, int), PyError>)
    ensures r.Success? ==> |r.value.0| <= 3
  {
    match ParseFloats(CoordFields(fields), pf)
    case None => Failure(ValueError)
    case Some(crd) =>
      if |fields| < 2 then Failure(IndexError)
      else
        match ParseInt(fields[1])
        case None => Failure(ValueError)
        case Some(atom) => Success((crd, atom))
  }

  /** line.split('=')[-1].split(stop)[0].strip(): the value of one line of a thermochemistry
      (stop '(') or counterpoise (stop 'k') block. */
  function BlockValue(line: string, stop: char): (v: string)
    ensures '=' !in v && stop !in v
  {
    var tail := AfterLast(line, '=');
    var v := BeforeFirst(tail, stop);
    var r := Strip(v);
    assert forall k :: 0 <= k < |r| ==> r[k] in v;
    r
  }

  /** float(line.split('=')[-1].split(stop)[0].strip()) as a function of the line. */
  function BlockEntry(stop: char, pf: FloatParser): string -> Option<real> {
    line => pf(BlockValue(line, stop))
  }

  /** The inner `for _ in range(n)` of a block: the value of the current line, then next()
      for the following one. Starting with cur and the iterator at pos, it reads left values
      and leaves the iterator at pos + left: the line after the last value is read but never
      looked at. */
  function ReadBlock(lines: seq<string>, pos: nat, cur: string, left: nat, value: string -> Option<real>,
                     acc: seq<real>): (r: Result<(seq<real>, nat), PyError>)
    requires pos <= |lines|
    ensures r.Success? ==> pos + left <= |lines| && r.value.1 == pos + left
    ensures r.Success? ==> |r.value.0| == |acc| + left
    ensures r.Failure? ==> r.error == StopIteration || r.error == ValueError
    decreases left
  {
    if left == 0 then Success((acc, pos))
    else
      match value(cur)
      case None => Failure(ValueError)
      case Some(v) =>
        if pos == |lines| then Failure(StopIteration)
        else ReadBlock(lines, pos + 1, lines[pos], left - 1, value, acc + [v])
  }

  /** The snapshot closed by a "-----" line: appended to both lists, and the ordering flag
      cleared when the new snapshot differs from the last one and that last one is not the
      first (the `len(self.atomnames) > 1` guard). */
  function CloseBlock(st: Scanner): Scanner {
    var names := st.log.atomnames;
    var ordered := st.log.atomsOrdered && !(|names| > 1 && names[|names| - 1] != st.spAtomnames);
    st.(log := st.log.(coordinates := st.log.coordinates + [st.spCoordinates],
                       atomnames := names + [st.spAtomnames],
                       atomsOrdered := ordered),
        readingCrd := false)
  }

  /** float(line.split()[4]): the energy of an "SCF Done:" line. */
  function ScfEnergy(line: string, pf: FloatParser): (r: Result<real, PyError>)
    ensures r.Success? ==> |Words(line)| >= 5 && pf(Words(line)[4]) == Some(r.value)
  {
    var fields := Words(line);
    if |fields| < 5 then Failure(IndexError)
    else
      match pf(fields[4])
      case None => Failure(ValueError)
      case Some(e) => Success(e)
  }

  /** The energy is read exactly when the line has five tokens and the fifth is a float; a
      missing token is an IndexError, a bad one a ValueError. */
  lemma ScfEnergyCases(line: string, pf: FloatParser)
    ensures var r := ScfEnergy(line, pf);
            r.Success? <==> |Words(line)| >= 5 && pf(Words(line)[4]).Some?
    ensures var r := ScfEnergy(line, pf);
            r.Failure? ==> (r.error == IndexError <==> |Words(line)| < 5) &&
                           (r.error == IndexError || r.error == ValueError)
  {
  }

  /** int(line.split()[2]) - 1: the zero-based optimisation step of a "Step number" line. */
  function StepIndex(line: string): (r: Result<int, PyError>)
    ensures r.Success? ==> |Words(line)| >= 3 && ParseInt(Words(line)[2]) == Some(r.value + 1)
  {
    var fields := Words(line);
    if |fields| < 3 then Failure(IndexError)
    else
      match ParseInt(fields[2])
      case None => Failure(ValueError)
      case Some(n) => Success(n - 1)
  }

  /** The step is read exactly when the line has three tokens and the third is an int; a
      missing token is an IndexError, a bad one a ValueError. */
  lemma StepIndexCases(line: string)
    ensures var r := StepIndex(line);
            r.Success? <==> |Words(line)| >= 3 && ParseInt(Words(line)[2]).Some?
    ensures var r := StepIndex(line);
            r.Failure? ==> (r.error == IndexError <==> |Words(line)| < 3) &&
                           (r.error == IndexError || r.error == ValueError)
  {
  }

  predicate IsLink1Marker(line: string) {
    StartsWith(line, LinkEntering) || StartsWith(line, LinkLabel)
  }

  datatype Move =
    | Next(pos: nat, st: Scanner)  // carry on with the line at pos
    | Halt(st: Scanner)            // break out of the loop
    | Fail(err: PyError)           // an exception leaves __init__

  /** Which branch of the loop body a stripped line takes, in the order of the tests in gaussian_results.py. */
  datatype LineKind =
    | Orientation    // "Input orientation:"
    | CoordRow       // a row of an open coordinate block
    | CoordEnd       // the "-----" line that closes it
    | ScfDone        // "SCF Done:  E("
    | StepLine       // "Step number"
    | ThermoStart    // "Zero-point correction="
    | CounterStart   // "Counterpoise corrected energy ="
    | Link1Line      // "Entering Link 1 " or "Link1:"
    | Plain          // anything else

  function Classify(line: string, readingCrd: bool): (k: LineKind)
    ensures k == ScfDone ==> !readingCrd && StartsWith(line, ScfMarker)
    ensures k == StepLine ==> !readingCrd && StartsWith(line, StepMarker)
    ensures k == ThermoStart ==> !readingCrd && StartsWith(line, ThermoMarker)
    ensures k == CounterStart ==> !readingCrd && StartsWith(line, CounterMarker)
    ensures k == Link1Line ==> !readingCrd && IsLink1Marker(line)
  {
    if StartsWith(line, OrientationMarker) then Orientation
    else if readingCrd then (if StartsWith(line, BlockEnd) then CoordEnd else CoordRow)
    else if StartsWith(line, ScfMarker) then ScfDone
    else if StartsWith(line, StepMarker) then StepLine
    else if StartsWith(line, ThermoMarker) then ThermoStart
    else if StartsWith(line, CounterMarker) then CounterStart
    else if IsLink1Marker(line) then Link1Line
    else Plain
  }

  /** What the loop body does with the stripped line at position i, given its kind. */
  function Branch(lines: seq<string>, i: nat, line: string, kind: LineKind, st: Scanner, allowLink1: bool,
                  pf: FloatParser): (m: Move)
    requires i < |lines|
    ensures m.Next? ==> i < m.pos <= |lines| && m.st.halted == st.halted
    ensures m.Halt? ==> m.st == st.(halted := true) && kind == Link1Line && !allowLink1
  {
    match kind
    case Orientation =>
      if i + 1 + OrientationHeader <= |lines| then
        Next(i + 1 + OrientationHeader, st.(readingCrd := true, spCoordinates := [], spAtomnames := []))
      else Fail(StopIteration)
    case CoordRow =>
      (match ParseRow(Words(line), pf)
       case Failure(e) => Fail(e)
       case Success(row) =>
         Next(i + 1, st.(spCoordinates := st.spCoordinates + [row.0], spAtomnames := st.spAtomnames + [row.1])))
    case CoordEnd => Next(i + 1, CloseBlock(st))
    case ScfDone =>
      (match ScfEnergy(line, pf)
       case Failure(err) => Fail(err)
       case Success(e) => Next(i + 1, st.(log := st.log.(energies := st.log.energies + [e]))))
    case StepLine =>
      (match StepIndex(line)
       case Failure(err) => Fail(err)
       case Success(n) => Next(i + 1, st.(log := st.log.(steps := st.log.steps + [n]))))
    case ThermoStart =>
      (match ReadBlock(lines, i + 1, line, ThermoCount, BlockEntry('(', pf), [])
       case Failure(e) => Fail(e)
       case Success(block) => Next(block.1, st.(log := st.log.(thermo := Present(block.0)))))
    case CounterStart =>
      (match ReadBlock(lines, i + 1, line, CounterCount, BlockEntry('k', pf), [])
       case Failure(e) => Fail(e)
       case Success(block) => Next(block.1, st.(log := st.log.(counter := Present(block.0)))))
    case Link1Line => if allowLink1 then Next(i + 1, st) else Halt(st.(halted := true))
    case Plain => Next(i + 1, st)
  }

  /** One pass of the loop body: the line at position i is stripped, classified and handled. */
  function Step(lines: seq<string>, i: nat, st: Scanner, allowLink1: bool, pf: FloatParser): (m: Move)
    requires i < |lines|
    ensures m.Next? ==> i < m.pos <= |lines| && m.st.halted == st.halted
    ensures m.Halt? ==> m.st == st.(halted := true) && Classify(Strip(lines[i]), st.readingCrd) == Link1Line
  {
    var line := Strip(lines[i]);
    Branch(lines, i, line, Classify(line, st.readingCrd), st, allowLink1, pf)
  }

  /** The loop from the line at position i to the end of the file or a Link1 marker. */
  function Scan(lines: seq<string>, i: nat, st: Scanner, allowLink1: bool, pf: FloatParser): Result<Scanner, PyError>
    requires i <= |lines|
    decreases |lines| - i
  {
    if i == |lines| then Success(st)
    else
      match Step(lines, i, st, allowLink1, pf)
      case Next(j, s) => Scan(lines, j, s, allowLink1, pf)
      case Halt(s) => Success(s)
      case Fail(e) => Failure(e)
  }

  /** Gdata.__init__ after open(): skip 30 lines, then scan. */
  function Parse(lines: seq<string>, allowLink1: bool, pf: FloatParser): Result<Log, PyError> {
    if |lines| < HeaderLines then Failure(StopIteration)
    else
      match Scan(lines, HeaderLines, Initial, allowLink1, pf)
      case Success(st) => Success(st.log)
      case Failure(e) => Failure(e)
  }
}
