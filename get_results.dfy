/** read_energies_coordinates of get_results_gaussian.py, the older parser: lines are matched
    unstripped, coordinate rows are kept as their raw tokens, atomic numbers are taken only
    before the first "Step number" line, and the loop ends at the first step number that does
    not increase. The specification is Examine/Collect/ReadResults; ReadEnergiesCoordinates
    is the loop as get_results_gaussian.py writes it, proved to compute it. */
module GetResultsGaussian {
  import opened Base
  import opened PyText
  import opened GdataParser
  import opened GaussianResults

  const StepPrefix := " Step number"
  const ScfPrefix := " SCF Done:  E("
  const RowEnd := " -----"
  /** "Input orientation:" after the 26 spaces that centre it in a Gaussian log. */
  const OrientationPrefix := "                          Input orientation:"
  /** crd_start = i + 4: rows are the lines after the orientation line plus four. */
  const OrientationRows := 4

  /** The loop's variables: step, crd_start, doReadCrd, single_crd, energies, coordinates,
      atoms, and whether the loop was left by break. */
  datatype Reading = Reading(
    step: int,
    crdStart: int,
    readingCrd: bool,
    single: seq<seq<string>>,
    energies: seq<real>,
    coordinates: seq<seq<seq<string>>>,
    atoms: seq<int>,
    stopped: bool)

  const Start := Reading(0, 0, false, [], [], [], [], false)

  /** What the function returns: energies[:step], coordinates[:step] and atoms. */
  datatype Results = Results(energies: seq<real>, coordinates: seq<seq<seq<string>>>, atoms: seq<int>)

  /** int(line.split()[2]): the number of a "Step number" line. */
  function StepNumber(line: string): (r: Result<int, PyError>)
    ensures r.Success? ==> |Words(line)| >= 3 && ParseInt(Words(line)[2]) == Some(r.value)
  {
    var fields := Words(line);
    if |fields| < 3 then Failure(IndexError)
    else
      match ParseInt(fields[2])
      case None => Failure(ValueError)
      case Some(n) => Success(n)
  }

  /** The number is read exactly when the line has three tokens and the third is an int; a
      missing token is an IndexError, a bad one a ValueError. */
  lemma StepNumberCases(line: string)
    ensures var r := StepNumber(line);
            r.Success? <==> |Words(line)| >= 3 && ParseInt(Words(line)[2]).Some?
    ensures var r := StepNumber(line);
            r.Failure? ==> (r.error == IndexError <==> |Words(line)| < 3) &&
                           (r.error == IndexError || r.error == ValueError)
  {
  }

  /** int(fields[1]): the atomic number of a coordinate row. */
  function RowAtom(fields: seq<string>): (r: Result<int, PyError>)
    ensures r.Success? ==> |fields| >= 2 && ParseInt(fields[1]) == Some(r.value)
  {
    if |fields| < 2 then Failure(IndexError)
    else
      match ParseInt(fields[1])
      case None => Failure(ValueError)
      case Some(a) => Success(a)
  }

  /** The atomic number is read exactly when the row has two tokens and the second is an int;
      a missing token is an IndexError, a bad one a ValueError. */
  lemma RowAtomCases(fields: seq<string>)
    ensures var r := RowAtom(fields);
            r.Success? <==> |fields| >= 2 && ParseInt(fields[1]).Some?
    ensures var r := RowAtom(fields);
            r.Failure? ==> (r.error == IndexError <==> |fields| < 2) &&
                           (r.error == IndexError || r.error == ValueError)
  {
  }

  datatype Outcome = Go(st: Reading) | Abort(err: PyError)

  /** One pass of the loop body for the line at index i. A " -----" line that closes a block
      falls through to the orientation test, as it does in get_results_gaussian.py. */
  function Examine(line: string, i: nat, st: Reading, pf: FloatParser): Outcome {
    if StartsWith(line, StepPrefix) then
      match StepNumber(line)
      case Failure(e) => Abort(e)
      case Success(n) => if n > st.step then Go(st.(step := n)) else Go(st.(stopped := true))
    else if StartsWith(line, ScfPrefix) then
      match ScfEnergy(line, pf)
      case Failure(e) => Abort(e)
      case Success(e) => Go(st.(energies := st.energies + [e]))
    else if i > st.crdStart && st.readingCrd && !StartsWith(line, RowEnd) then
      var fields := Words(line);
      var single := st.single + [CoordFields(fields)];
      if st.step < 1 then
        match RowAtom(fields)
        case Failure(e) => Abort(e)
        case Success(a) => Go(st.(single := single, atoms := st.atoms + [a]))
      else Go(st.(single := single))
    else
      var closed := if i > st.crdStart && st.readingCrd
                    then st.(coordinates := st.coordinates + [st.single], single := [], readingCrd := false)
                    else st;
      if StartsWith(line, OrientationPrefix) then Go(closed.(crdStart := i + OrientationRows, readingCrd := true))
      else Go(closed)
  }

  /** The loop from the line at index i to the end of the file or the break. */
  function Collect(lines: seq<string>, i: nat, st: Reading, pf: FloatParser): Result<Reading, PyError>
    requires i <= |lines|
    decreases |lines| - i
  {
    if i == |lines| || st.stopped then Success(st)
    else
      match Examine(lines[i], i, st, pf)
      case Go(s) => Collect(lines, i + 1, s, pf)
      case Abort(e) => Failure(e)
  }

  /** read_energies_coordinates on a file with the given lines. */
  function ReadResults(lines: seq<string>, pf: FloatParser): Result<Results, PyError> {
    match Collect(lines, 0, Start, pf)
    case Failure(e) => Failure(e)
    case Success(st) => Success(Results(SliceTo(st.energies, st.step), SliceTo(st.coordinates, st.step), st.atoms))
  }

  /** The loop of read_energies_coordinates; it computes ReadResults. */
  method ReadEnergiesCoordinates(lines: seq<string>, pf: FloatParser) returns (r: Result<Results, PyError>)
    ensures r == ReadResults(lines, pf)
  {
    var energies: seq<real> := [];
    var coordinates: seq<seq<seq<string>>> := [];
    var singleCrd: seq<seq<string>> := [];
    var atoms: seq<int> := [];
    var step := 0;
    var crdStart := 0;
    var doReadCrd := false;
    var i := 0;
    while i < |lines|
      invariant 0 <= i <= |lines|
      invariant Collect(lines, i, Reading(step, crdStart, doReadCrd, singleCrd, energies, coordinates, atoms, false), pf)
                == Collect(lines, 0, Start, pf)
      decreases |lines| - i
    {
      var line := lines[i];
      if StartsWith(line, StepPrefix) {
        var n := StepNumber(line);
        if n.Failure? {
          return Failure(n.error);
        }
        if n.value > step {
          step := n.value;
          i := i + 1;
          continue;
        } else {
          break;
        }
      }
      if StartsWith(line, ScfPrefix) {
        var e := ScfEnergy(line, pf);
        if e.Failure? {
          return Failure(e.error);
        }
        energies := energies + [e.value];
        i := i + 1;
        continue;
      }
      if i > crdStart && doReadCrd {
        if !StartsWith(line, RowEnd) {
          var fields := Words(line);
          singleCrd := singleCrd + [CoordFields(fields)];
          if step < 1 {
            var a := RowAtom(fields);
            if a.Failure? {
              return Failure(a.error);
            }
            atoms := atoms + [a.value];
          }
          i := i + 1;
          continue;
        } else {
          coordinates := coordinates + [singleCrd];
          singleCrd := [];
          doReadCrd := false;
        }
      }
      if StartsWith(line, OrientationPrefix) {
        crdStart := i + OrientationRows;
        doReadCrd := true;
      }
      i := i + 1;
    }
    return Success(Results(SliceTo(energies, step), SliceTo(coordinates, step), atoms));
  }

  /** The label get_results_gaussian.py writes: the last label_depth components of the
      extension-stripped path, joined by a space. */
  function SpaceLabel(path: string, depth: int): string {
    JoinedLabel(path, depth, ' ')
  }

  // ---- what one pass changes ----

  /** step never decreases, and it changes only on a "Step number" line whose number exceeds
      it, taking that number (and every such line does); a step line whose number does not
      exceed it ends the loop. */
  lemma ExamineStep(line: string, i: nat, st: Reading, pf: FloatParser)
    ensures var m := Examine(line, i, st, pf);
            m.Go? ==> m.st.step >= st.step &&
                      (m.st.step != st.step ==> StartsWith(line, StepPrefix) && StepNumber(line) == Success(m.st.step))
    ensures StartsWith(line, StepPrefix) && StepNumber(line).Success? && StepNumber(line).value > st.step ==>
              Examine(line, i, st, pf) == Go(st.(step := StepNumber(line).value))
    ensures var m := Examine(line, i, st, pf);
            !st.stopped ==>
              (m.Go? && m.st.stopped <==>
               StartsWith(line, StepPrefix) && StepNumber(line).Success? && StepNumber(line).value <= st.step)
  {
    if StartsWith(line, StepPrefix) {
    } else if StartsWith(line, ScfPrefix) {
    } else if i > st.crdStart && st.readingCrd && !StartsWith(line, RowEnd) {
      if st.step < 1 {
        assert Examine(line, i, st, pf).Go? ==> Examine(line, i, st, pf).st.step == st.step;
      }
    } else {
    }
  }

  /** A row is read only from a line after crd_start while a block is open that is not a
      " -----" line, and it is that line's tokens 3 to 5 as text. */
  lemma ExamineRows(line: string, i: nat, st: Reading, pf: FloatParser)
    ensures var m := Examine(line, i, st, pf);
            m.Go? && |m.st.single| > |st.single| ==>
              i > st.crdStart && st.readingCrd && !StartsWith(line, RowEnd) &&
              m.st.single == st.single + [CoordFields(Words(line))]
  {
    if !StartsWith(line, StepPrefix) && !StartsWith(line, ScfPrefix) && i > st.crdStart && st.readingCrd && !StartsWith(line, RowEnd) {
      RowRead(line, i, st, pf);
    } else {
      NoRowRead(line, i, st, pf);
    }
  }

  lemma RowRead(line: string, i: nat, st: Reading, pf: FloatParser)
    requires !StartsWith(line, StepPrefix) && !StartsWith(line, ScfPrefix)
    requires i > st.crdStart && st.readingCrd && !StartsWith(line, RowEnd)
    ensures var m := Examine(line, i, st, pf);
            m.Go? ==> m.st.single == st.single + [CoordFields(Words(line))]
  {
  }

  lemma NoRowRead(line: string, i: nat, st: Reading, pf: FloatParser)
    requires StartsWith(line, StepPrefix) || StartsWith(line, ScfPrefix) || !(i > st.crdStart && st.readingCrd && !StartsWith(line, RowEnd))
    ensures var m := Examine(line, i, st, pf);
            m.Go? ==> |m.st.single| <= |st.single|
  {
  }

  /** A snapshot is closed only by a " -----" line ending an open block, and it is the rows
      read since the block opened. */
  lemma ExamineSnapshots(line: string, i: nat, st: Reading, pf: FloatParser)
    ensures var m := Examine(line, i, st, pf);
            m.Go? && m.st.coordinates != st.coordinates ==>
              i > st.crdStart && st.readingCrd && StartsWith(line, RowEnd) &&
              m.st.coordinates == st.coordinates + [st.single] && m.st.single == []
  {
    var m := Examine(line, i, st, pf);
    if StartsWith(line, StepPrefix) {
      assert m.Go? ==> m.st.coordinates == st.coordinates;
    } else if StartsWith(line, ScfPrefix) {
      assert m.Go? ==> m.st.coordinates == st.coordinates;
    } else if i > st.crdStart && st.readingCrd && !StartsWith(line, RowEnd) {
      assert m.Go? ==> m.st.coordinates == st.coordinates;
    } else if i > st.crdStart && st.readingCrd {
      assert m.Go? && m.st.coordinates == st.coordinates + [st.single] && m.st.single == [];
    } else {
      assert m.Go? && m.st.coordinates == st.coordinates;
    }
  }

  /** Every " -----" line that ends an open block closes its snapshot. */
  lemma ExamineClosesBlock(line: string, i: nat, st: Reading, pf: FloatParser)
    requires i > st.crdStart && st.readingCrd && StartsWith(line, RowEnd)
    ensures var m := Examine(line, i, st, pf);
            m.Go? && m.st.coordinates == st.coordinates + [st.single] && m.st.single == [] && !m.st.readingCrd
  {
    RowEndNoOtherPrefix(line);
  }

  /** Atomic numbers are appended only while step < 1, one per row, from its second token;
      every row read while step < 1 appends one, or raises int()'s error. */
  lemma ExamineAtoms(line: string, i: nat, st: Reading, pf: FloatParser)
    ensures var m := Examine(line, i, st, pf);
            m.Go? && m.st.atoms != st.atoms ==>
              st.step < 1 && RowAtom(Words(line)).Success? &&
              m.st.atoms == st.atoms + [RowAtom(Words(line)).value] &&
              m.st.single == st.single + [CoordFields(Words(line))]
    ensures var m := Examine(line, i, st, pf);
            !StartsWith(line, StepPrefix) && !StartsWith(line, ScfPrefix) &&
            i > st.crdStart && st.readingCrd && !StartsWith(line, RowEnd) && st.step < 1 ==>
              if RowAtom(Words(line)).Success?
              then m.Go? && m.st.atoms == st.atoms + [RowAtom(Words(line)).value]
              else m == Abort(RowAtom(Words(line)).error)
  {
    var m := Examine(line, i, st, pf);
    if StartsWith(line, StepPrefix) {
      assert m.Go? ==> m.st.atoms == st.atoms;
    } else if StartsWith(line, ScfPrefix) {
      assert m.Go? ==> m.st.atoms == st.atoms;
    } else if i > st.crdStart && st.readingCrd && !StartsWith(line, RowEnd) {
      var fields := Words(line);
      if st.step < 1 && RowAtom(fields).Success? {
        assert m == Go(st.(single := st.single + [CoordFields(fields)], atoms := st.atoms + [RowAtom(fields).value]));
      } else {
        assert m.Go? ==> m.st.atoms == st.atoms;
      }
    } else {
      assert m.Go? ==> m.st.atoms == st.atoms;
    }
  }

  /** Energies are appended only by a " SCF Done:  E(" line that is not a step line, and the
      value is float of its fifth token; every such line appends it or raises its error. */
  lemma ExamineEnergies(line: string, i: nat, st: Reading, pf: FloatParser)
    ensures var m := Examine(line, i, st, pf);
            m.Go? && m.st.energies != st.energies ==>
              !StartsWith(line, StepPrefix) && StartsWith(line, ScfPrefix) && ScfEnergy(line, pf).Success? &&
              m.st.energies == st.energies + [ScfEnergy(line, pf).value]
    ensures var m := Examine(line, i, st, pf);
            !StartsWith(line, StepPrefix) && StartsWith(line, ScfPrefix) ==>
              if ScfEnergy(line, pf).Success?
              then m == Go(st.(energies := st.energies + [ScfEnergy(line, pf).value]))
              else m == Abort(ScfEnergy(line, pf).error)
  {
    if !StartsWith(line, StepPrefix) && StartsWith(line, ScfPrefix) {
      ScfLine(line, i, st, pf);
    } else {
      EnergiesKeptOffScf(line, i, st, pf);
    }
  }

  /** What an " SCF Done:  E(" line that is not a step line does. */
  lemma ScfLine(line: string, i: nat, st: Reading, pf: FloatParser)
    requires !StartsWith(line, StepPrefix) && StartsWith(line, ScfPrefix)
    ensures Examine(line, i, st, pf)
            == if ScfEnergy(line, pf).Success? then Go(st.(energies := st.energies + [ScfEnergy(line, pf).value]))
               else Abort(ScfEnergy(line, pf).error)
  {
  }

  /** Any other line leaves the energies as they are. */
  lemma EnergiesKeptOffScf(line: string, i: nat, st: Reading, pf: FloatParser)
    requires StartsWith(line, StepPrefix) || !StartsWith(line, ScfPrefix)
    ensures var m := Examine(line, i, st, pf); m.Go? ==> m.st.energies == st.energies
  {
    var m := Examine(line, i, st, pf);
    if StartsWith(line, StepPrefix) {
      assert m.Go? ==> m.st.energies == st.energies;
    } else if i > st.crdStart && st.readingCrd && !StartsWith(line, RowEnd) {
      assert m.Go? ==> m.st.energies == st.energies;
    } else {
      assert m.Go? && m.st.energies == st.energies;
    }
  }

  /** A block is opened only by a line starting with the indented "Input orientation:" marker,
      and rows are then expected from four lines further on; every such line opens one unless
      it arrives as a row of a block already open. */
  lemma ExamineOrientation(line: string, i: nat, st: Reading, pf: FloatParser)
    ensures var m := Examine(line, i, st, pf);
            m.Go? && (m.st.crdStart != st.crdStart || (m.st.readingCrd && !st.readingCrd)) ==>
              StartsWith(line, OrientationPrefix) && m.st.crdStart == i + OrientationRows && m.st.readingCrd
    ensures var m := Examine(line, i, st, pf);
            StartsWith(line, OrientationPrefix) && !(i > st.crdStart && st.readingCrd) ==>
              m == Go(st.(crdStart := i + OrientationRows, readingCrd := true))
  {
    if StartsWith(line, OrientationPrefix) {
      assert line[1] == OrientationPrefix[1] == ' ';
      assert StepPrefix[1] == 'S' && ScfPrefix[1] == 'S';
    }
  }

  /** A " -----" line is neither a step, an SCF nor an orientation line. */
  lemma RowEndNoOtherPrefix(line: string)
    requires StartsWith(line, RowEnd)
    ensures !StartsWith(line, StepPrefix) && !StartsWith(line, ScfPrefix) && !StartsWith(line, OrientationPrefix)
  {
    assert line[1] == line[..|RowEnd|][1] == '-';
    assert StepPrefix[1] == 'S' && ScfPrefix[1] == 'S' && OrientationPrefix[1] == ' ';
  }

  // ---- the whole loop ----

  /** The number of rows in a list of snapshots. */
  function RowCount(blocks: seq<seq<seq<string>>>): nat {
    if blocks == [] then 0 else RowCount(blocks[..|blocks| - 1]) + |blocks[|blocks| - 1]|
  }

  /** step is never negative, and while it is 0 there is one atomic number per row read, in the
      closed snapshots and in the open one. */
  predicate AtomsAligned(st: Reading) {
    st.step >= 0 && (st.step < 1 ==> |st.atoms| == RowCount(st.coordinates) + |st.single|)
  }

  lemma ExamineKeepsAtomsAligned(line: string, i: nat, st: Reading, pf: FloatParser)
    requires AtomsAligned(st)
    ensures var m := Examine(line, i, st, pf); m.Go? ==> AtomsAligned(m.st)
  {
    var m := Examine(line, i, st, pf);
    ExamineStep(line, i, st, pf);
    if m.Go? && m.st.step < 1 {
      ExamineAtoms(line, i, st, pf);
      ExamineRows(line, i, st, pf);
      ExamineSnapshots(line, i, st, pf);
      if m.st.coordinates != st.coordinates {
        assert (st.coordinates + [st.single])[..|st.coordinates|] == st.coordinates;
      }
    }
  }

  /** A run of the loop that raises nothing ends with the atoms aligned. */
  predicate AlignedIfSuccess(r: Result<Reading, PyError>) {
    r.Success? ==> AtomsAligned(r.value)
  }

  lemma CollectKeepsAtomsAligned(lines: seq<string>, i: nat, st: Reading, pf: FloatParser)
    requires i <= |lines| && AtomsAligned(st)
    ensures AlignedIfSuccess(Collect(lines, i, st, pf))
  {
    EndsOfCollect(lines, pf);
    PassesOfCollect(lines, pf);
    PassesKeepAligned(lines, pf);
    KeepsAlignedAlong(|lines|, i, st, CollectFrom(lines, pf), PassAt(lines, pf));
    assert CollectFrom(lines, pf)(i, st) == Collect(lines, i, st, pf);
  }

  /** The loop over a file, as a function of the line it starts at and the state. */
  function CollectFrom(lines: seq<string>, pf: FloatParser): (nat, Reading) -> Result<Reading, PyError> {
    (j: nat, s: Reading) => if j <= |lines| then Collect(lines, j, s, pf) else Success(s)
  }

  /** One pass of the loop body over a file, as a function of the line index and the state. */
  function PassAt(lines: seq<string>, pf: FloatParser): (nat, Reading) -> Outcome {
    (j: nat, s: Reading) => if j < |lines| then Examine(lines[j], j, s, pf) else Go(s)
  }

  /** The loop ends at the end of the file or after the break. */
  lemma EndsOfCollect(lines: seq<string>, pf: FloatParser)
    ensures forall j: nat, s: Reading :: j <= |lines| && (j == |lines| || s.stopped) ==>
              CollectFrom(lines, pf)(j, s) == Success(s)
  {
    forall j: nat, s: Reading | j <= |lines| && (j == |lines| || s.stopped)
      ensures CollectFrom(lines, pf)(j, s) == Success(s)
    {
      CollectEnds(lines, j, s, pf);
    }
  }

  /** Otherwise the loop is one pass followed by the loop from the next line. */
  lemma PassesOfCollect(lines: seq<string>, pf: FloatParser)
    ensures forall j: nat, s: Reading {:trigger PassAt(lines, pf)(j, s)} :: j < |lines| && !s.stopped ==>
              CollectFrom(lines, pf)(j, s)
              == if PassAt(lines, pf)(j, s).Go? then CollectFrom(lines, pf)(j + 1, PassAt(lines, pf)(j, s).st)
                 else Failure(PassAt(lines, pf)(j, s).err)
  {
    forall j: nat, s: Reading {:trigger PassAt(lines, pf)(j, s)} | j < |lines| && !s.stopped
      ensures CollectFrom(lines, pf)(j, s)
              == if PassAt(lines, pf)(j, s).Go? then CollectFrom(lines, pf)(j + 1, PassAt(lines, pf)(j, s).st)
                 else Failure(PassAt(lines, pf)(j, s).err)
    {
      PassOfCollect(lines, j, s, pf);
    }
  }

  /** The loop stops at the end of the file and after the break. */
  lemma CollectEnds(lines: seq<string>, j: nat, s: Reading, pf: FloatParser)
    requires j <= |lines| && (j == |lines| || s.stopped)
    ensures CollectFrom(lines, pf)(j, s) == Success(s)
  {
    assert Collect(lines, j, s, pf) == Success(s);
  }

  /** One pass of the loop, in terms of CollectFrom and PassAt. */
  lemma PassOfCollect(lines: seq<string>, j: nat, s: Reading, pf: FloatParser)
    requires j < |lines| && !s.stopped
    ensures CollectFrom(lines, pf)(j, s)
            == if PassAt(lines, pf)(j, s).Go? then CollectFrom(lines, pf)(j + 1, PassAt(lines, pf)(j, s).st)
               else Failure(PassAt(lines, pf)(j, s).err)
  {
    CollectGo(lines, j, s, pf);
    assert PassAt(lines, pf)(j, s) == Examine(lines[j], j, s, pf);
  }

  /** Every pass keeps the atoms aligned. */
  lemma PassesKeepAligned(lines: seq<string>, pf: FloatParser)
    ensures forall j: nat, s: Reading :: j < |lines| && AtomsAligned(s) && PassAt(lines, pf)(j, s).Go? ==>
              AtomsAligned(PassAt(lines, pf)(j, s).st)
  {
    forall j: nat, s: Reading | j < |lines| && AtomsAligned(s) && PassAt(lines, pf)(j, s).Go?
      ensures AtomsAligned(PassAt(lines, pf)(j, s).st)
    {
      ExamineKeepsAtomsAligned(lines[j], j, s, pf);
    }
  }

  /** The induction behind CollectKeepsAtomsAligned, over any loop of n passes whose passes
      keep the atoms aligned: the loop then ends with them aligned. */
  lemma {:induction false} KeepsAlignedAlong(n: nat, i: nat, st: Reading, run: (nat, Reading) -> Result<Reading, PyError>,
                                             step: (nat, Reading) -> Outcome)
    requires i <= n && AtomsAligned(st)
    requires forall j: nat, s: Reading {:trigger run(j, s)} :: j <= n && (j == n || s.stopped) ==> run(j, s) == Success(s)
    requires forall j: nat, s: Reading {:trigger step(j, s)} :: j < n && !s.stopped ==>
               run(j, s) == if step(j, s).Go? then run(j + 1, step(j, s).st) else Failure(step(j, s).err)
    requires forall j: nat, s: Reading {:trigger step(j, s)} :: j < n && AtomsAligned(s) && step(j, s).Go? ==>
               AtomsAligned(step(j, s).st)
    ensures AlignedIfSuccess(run(i, st))
    decreases n - i
  {
    if i < n && !st.stopped {
      var o := step(i, st);
      if o.Go? {
        KeepsAlignedAlong(n, i + 1, o.st, run, step);
      }
    } else {
      assert run(i, st) == Success(st);
    }
  }

  /** One pass of the loop: a line that raises nothing hands its state to the next line. */
  lemma CollectGo(lines: seq<string>, i: nat, st: Reading, pf: FloatParser)
    requires i < |lines| && !st.stopped
    ensures var m := Examine(lines[i], i, st, pf);
            if m.Go? then Collect(lines, i, st, pf) == Collect(lines, i + 1, m.st, pf)
            else Collect(lines, i, st, pf) == Failure(m.err)
  {
  }

  /** In a file without a step line that raises nothing, atoms holds one atomic number per
      coordinate row read. */
  lemma AtomsPerRow(lines: seq<string>, pf: FloatParser)
    requires Collect(lines, 0, Start, pf).Success?
    ensures var st := Collect(lines, 0, Start, pf).value;
            st.step < 1 ==> |st.atoms| == RowCount(st.coordinates) + |st.single|
  {
    CollectKeepsAtomsAligned(lines, 0, Start, pf);
  }

  /** Once step has reached 1 no atomic number is added. */
  lemma {:induction false} AtomsFrozen(lines: seq<string>, i: nat, st: Reading, pf: FloatParser)
    requires i <= |lines| && st.step >= 1
    ensures Collect(lines, i, st, pf).Success? ==> Collect(lines, i, st, pf).value.atoms == st.atoms
    decreases |lines| - i
  {
    if i < |lines| && !st.stopped {
      var m := Examine(lines[i], i, st, pf);
      ExamineStep(lines[i], i, st, pf);
      if m.Go? {
        assert m.st.atoms == st.atoms;
        AtomsFrozen(lines, i + 1, m.st, pf);
      }
    }
  }

  /** Without a "Step number" line step stays 0. */
  lemma {:induction false} StepStaysZero(lines: seq<string>, i: nat, st: Reading, pf: FloatParser)
    requires i <= |lines| && st.step == 0
    requires forall p :: i <= p < |lines| ==> !StartsWith(lines[p], StepPrefix)
    ensures Collect(lines, i, st, pf).Success? ==> Collect(lines, i, st, pf).value.step == 0
    decreases |lines| - i
  {
    if i < |lines| && !st.stopped {
      var m := Examine(lines[i], i, st, pf);
      ExamineStep(lines[i], i, st, pf);
      if m.Go? {
        StepStaysZero(lines, i + 1, m.st, pf);
      }
    }
  }

  /** With no "Step number" line, energies and coordinates come back empty, whatever was read. */
  lemma NoStepNoResults(lines: seq<string>, pf: FloatParser)
    requires forall p :: 0 <= p < |lines| ==> !StartsWith(lines[p], StepPrefix)
    ensures ReadResults(lines, pf).Success? ==>
              ReadResults(lines, pf).value.energies == [] && ReadResults(lines, pf).value.coordinates == []
  {
    StepStaysZero(lines, 0, Start, pf);
  }

  /** energies and coordinates are what the loop collected, cut to the last step number. */
  lemma ResultsTruncated(lines: seq<string>, pf: FloatParser)
    requires ReadResults(lines, pf).Success?
    ensures var st, r := Collect(lines, 0, Start, pf).value, ReadResults(lines, pf).value;
            st.step >= 0 &&
            |r.energies| == (if st.step <= |st.energies| then st.step else |st.energies|) &&
            r.energies == st.energies[..|r.energies|] &&
            |r.coordinates| == (if st.step <= |st.coordinates| then st.step else |st.coordinates|) &&
            r.coordinates == st.coordinates[..|r.coordinates|] &&
            r.atoms == st.atoms
  {
    StepNonNegative(lines, 0, Start, pf);
  }

  lemma {:induction false} StepNonNegative(lines: seq<string>, i: nat, st: Reading, pf: FloatParser)
    requires i <= |lines| && st.step >= 0
    ensures Collect(lines, i, st, pf).Success? ==> Collect(lines, i, st, pf).value.step >= st.step
    decreases |lines| - i
  {
    if i < |lines| && !st.stopped {
      var m := Examine(lines[i], i, st, pf);
      ExamineStep(lines[i], i, st, pf);
      if m.Go? {
        StepNonNegative(lines, i + 1, m.st, pf);
      }
    }
  }

  /** Once the loop has broken out, the rest of the file is never read. */
  lemma {:induction false} StoppedIgnoresRest(pre: seq<string>, rest: seq<string>, i: nat, st: Reading, pf: FloatParser)
    requires i <= |pre|
    requires Collect(pre, i, st, pf).Success? && Collect(pre, i, st, pf).value.stopped
    ensures Collect(pre + rest, i, st, pf) == Collect(pre, i, st, pf)
    decreases |pre| - i
  {
    if !st.stopped {
      assert (pre + rest)[i] == pre[i];
      var m := Examine(pre[i], i, st, pf);
      StoppedIgnoresRest(pre, rest, i + 1, m.st, pf);
    }
  }

  /** Whatever follows the first "Step number" line whose number does not increase leaves the
      returned energies, coordinates and atoms unchanged. */
  lemma ReadStopsAtNonIncreasing(pre: seq<string>, rest: seq<string>, pf: FloatParser)
    requires Collect(pre, 0, Start, pf).Success? && Collect(pre, 0, Start, pf).value.stopped
    ensures ReadResults(pre + rest, pf) == ReadResults(pre, pf)
  {
    StoppedIgnoresRest(pre, rest, 0, Start, pf);
  }

  /** A space label of depth 0 is the whole extension-stripped path with '\\' read as a space. */
  lemma SpaceLabelOfDepthZero(path: string)
    ensures SpaceLabel(path, 0) == Retab(StripExtension(path), ' ')
  {
    LabelOfDepthZero(path, ' ');
  }
}
