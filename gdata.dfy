/** The class Gdata of gaussian_results.py: one parsed Gaussian log with its label, the
    geometric queries calc_dih, calc_dist and calc_nbr, each of which appends one entry to its
    own list, and the get_* accessors over a list of Gdata objects. Element symbols
    (atomnames2str), the dihedral and distance formulas and "%.3f" are parameters. */
module GaussianResults {
  import opened Base
  import opened PyText
  import opened Utilities
  import opened GdataParser
  import opened GdataParserFacts
  import opened GdataReader

  // ---- labels ----

  /** os.path.splitext(path)[0].split('\\')[-depth:]: the path components a label keeps. */
  function LabelParts(path: string, depth: int): (r: seq<string>)
    ensures forall k :: 0 <= k < |r| ==> '\\' !in r[k]
  {
    var parts := SplitOn(StripExtension(path), '\\');
    var r := SliceFrom(parts, -depth);
    assert forall k :: 0 <= k < |r| ==> r[k] == parts[|parts| - |r| + k];
    r
  }

  /** sep.join(LabelParts(path, depth)): the label of a result row; gaussian_results.py joins
      with a tab, get_results_gaussian.py with a space. */
  function JoinedLabel(path: string, depth: int, sep: char): string {
    Join([sep], LabelParts(path, depth))
  }

  /** The label of a Gdata object. */
  function Label(path: string, depth: int): string {
    JoinedLabel(path, depth, '\t')
  }

  /** s with every '\\' replaced by sep. */
  function Retab(s: string, sep: char): (r: string)
    ensures |r| == |s|
    ensures forall k :: 0 <= k < |s| ==> r[k] == if s[k] == '\\' then sep else s[k]
  {
    seq(|s|, k requires 0 <= k < |s| => if s[k] == '\\' then sep else s[k])
  }

  lemma RetabAppend(a: string, b: string, sep: char)
    ensures Retab(a + b, sep) == Retab(a, sep) + Retab(b, sep)
  {
    assert forall k :: 0 <= k < |a + b| ==> Retab(a + b, sep)[k] == (Retab(a, sep) + Retab(b, sep))[k];
  }

  lemma {:induction false} RetabOfJoin(parts: seq<string>, sep: char)
    requires forall k :: 0 <= k < |parts| ==> '\\' !in parts[k]
    ensures Retab(Join("\\", parts), sep) == Join([sep], parts)
    decreases |parts|
  {
    if |parts| == 1 {
      assert Retab(parts[0], sep) == parts[0];
    } else if |parts| > 1 {
      var rest := Join("\\", parts[1..]);
      RetabOfJoin(parts[1..], sep);
      RetabAppend(parts[0] + "\\", rest, sep);
      RetabAppend(parts[0], "\\", sep);
      assert Retab(parts[0], sep) == parts[0];
    }
  }

  /** Depth 0 does not mean "no label": Python reads [-0:] as [0:], so the label is the whole
      extension-stripped path with each '\\' turned into the separator. */
  lemma LabelOfDepthZero(path: string, sep: char)
    ensures JoinedLabel(path, 0, sep) == Retab(StripExtension(path), sep)
  {
    var parts := SplitOn(StripExtension(path), '\\');
    assert LabelParts(path, 0) == parts;
    RetabOfJoin(parts, sep);
  }

  /** Depth 1 is the file name without its extension; any positive depth leaves no '\\'. */
  lemma LabelOfPositiveDepth(path: string, depth: int, sep: char)
    requires depth >= 1 && sep != '\\'
    ensures depth == 1 ==> JoinedLabel(path, depth, sep) == AfterLast(StripExtension(path), '\\')
    ensures '\\' !in JoinedLabel(path, depth, sep)
  {
    var parts := LabelParts(path, depth);
    NoSepInJoin(parts, sep);
  }

  lemma {:induction false} NoSepInJoin(parts: seq<string>, sep: char)
    requires sep != '\\' && forall k :: 0 <= k < |parts| ==> '\\' !in parts[k]
    ensures '\\' !in Join([sep], parts)
    decreases |parts|
  {
    if |parts| > 1 {
      NoSepInJoin(parts[1..], sep);
    }
  }

  /** A depth at least the number of components gives the same label as depth 0. */
  lemma LabelOfFullDepth(path: string, depth: int, sep: char)
    requires depth >= |SplitOn(StripExtension(path), '\\')|
    ensures JoinedLabel(path, depth, sep) == Retab(StripExtension(path), sep)
  {
    assert LabelParts(path, depth) == LabelParts(path, 0);
    LabelOfDepthZero(path, sep);
  }

  // ---- the selections of calc_* ----

  /** max(xs) */
  function Max(xs: seq<int>): (m: int)
    requires xs != []
    ensures m in xs && forall k :: 0 <= k < |xs| ==> xs[k] <= m
    decreases |xs|
  {
    if |xs| == 1 then xs[0]
    else
      var rest := Max(xs[1..]);
      if xs[0] >= rest then xs[0] else rest
  }

  /** Every index reads an element of a list of length n. */
  predicate AllIndexOk(indices: seq<int>, n: int) {
    forall k :: 0 <= k < |indices| ==> IndexOk(indices[k], n)
  }

  /** [s[i] for i in indices] */
  function Pick<T>(s: seq<T>, indices: seq<int>): (r: seq<T>)
    requires AllIndexOk(indices, |s|)
    ensures |r| == |indices| && forall k :: 0 <= k < |indices| ==> r[k] == s[Wrap(indices[k], |s|)]
  {
    seq(|indices|, k requires 0 <= k < |indices| => s[Wrap(indices[k], |s|)])
  }

  /** The coordinate snapshots and the atomic-number snapshots pair up one to one, row for row:
      what a successful parse leaves on a Gdata object. */
  predicate Snapshots(names: seq<seq<int>>, coords: seq<seq<Coord>>) {
    |names| == |coords| && forall k :: 0 <= k < |names| ==> |coords[k]| == |names[k]|
  }

  /** The element symbols of a snapshot, one per atom. */
  function Symbols(snap: seq<int>, symbol: int -> string): (r: seq<string>)
    ensures |r| == |snap| && forall k :: 0 <= k < |snap| ==> r[k] == symbol(snap[k])
  {
    seq(|snap|, k requires 0 <= k < |snap| => symbol(snap[k]))
  }

  /** atomnames2str(self.atomnames[step]): the element symbols of one snapshot, or IndexError
      when the snapshot does not exist. */
  function SymbolsAt(names: seq<seq<int>>, step: int, symbol: int -> string): (r: Result<seq<string>, PyError>)
    ensures r.Success? <==> IndexOk(step, |names|)
    ensures r.Failure? ==> r.error == IndexError
    ensures r.Success? ==> r.value == Symbols(names[Wrap(step, |names|)], symbol)
  {
    if !IndexOk(step, |names|) then Failure(IndexError)
    else Success(Symbols(names[Wrap(step, |names|)], symbol))
  }

  /** What a calc_* method appends: (None, None), or the atoms and the measured value. */
  datatype Entry<V> = Skipped | Entry(atoms: string, value: V)

  /** The outcome of calc_dih: the entry it appends to dihedrals, or the exception it raises. */
  function DihedralEntry(names: seq<seq<int>>, coords: seq<seq<Coord>>, indices: seq<int>, step: int,
                         symbol: int -> string, dihedral: (Coord, Coord, Coord, Coord) -> real)
    : Result<Entry<real>, PyError>
    requires Snapshots(names, coords)
  {
    match SymbolsAt(names, step, symbol)
    case Failure(e) => Failure(e)
    case Success(syms) =>
      if indices == [] then Failure(ValueError)
      else if Max(indices) >= |syms| then Success(Skipped)
      else if !AllIndexOk(indices, |syms|) then Failure(IndexError)
      else if |indices| != 4 then Failure(ValueError)
      else
        var p := Pick(coords[Wrap(step, |coords|)], indices);
        Success(Entry(Join(" ", Pick(syms, indices)), dihedral(p[0], p[1], p[2], p[3])))
  }

  /** The outcome of calc_dist. */
  function DistanceEntry(names: seq<seq<int>>, coords: seq<seq<Coord>>, indices: seq<int>, step: int,
                         symbol: int -> string, dist: (Coord, Coord) -> real)
    : Result<Entry<real>, PyError>
    requires Snapshots(names, coords)
  {
    match SymbolsAt(names, step, symbol)
    case Failure(e) => Failure(e)
    case Success(syms) =>
      if indices == [] then Failure(ValueError)
      else if Max(indices) >= |syms| then Success(Skipped)
      else if !AllIndexOk(indices, |syms|) then Failure(IndexError)
      else if |indices| != 2 then Failure(ValueError)
      else
        var p := Pick(coords[Wrap(step, |coords|)], indices);
        Success(Entry(Join(" ", Pick(syms, indices)), dist(p[0], p[1])))
  }

  /** The conditions under which a measurement of arity n is made: the snapshot exists, every
      index is below its atom count, none is below minus that count, and there are n of them. */
  predicate Measurable(names: seq<seq<int>>, indices: seq<int>, step: int, n: nat) {
    IndexOk(step, |names|) && |indices| == n && AllIndexOk(indices, |names[Wrap(step, |names|)]|)
  }

  /** calc_dih and calc_dist, case by case: (None, None) exactly when the largest index is out
      of bounds; a measured entry exactly when every index reads an atom and there are four
      (two) of them, negative indices counting from the end; otherwise IndexError for a
      missing snapshot or an index below minus the atom count, ValueError for an empty or a
      wrong-sized selection. */
  lemma DihedralEntryCases(names: seq<seq<int>>, coords: seq<seq<Coord>>, indices: seq<int>, step: int,
                           symbol: int -> string, dihedral: (Coord, Coord, Coord, Coord) -> real)
    requires Snapshots(names, coords)
    ensures var e := DihedralEntry(names, coords, indices, step, symbol, dihedral);
            (e == Success(Skipped) <==> IndexOk(step, |names|) && indices != [] && Max(indices) >= |names[Wrap(step, |names|)]|) &&
            (e.Success? && e.value.Entry? <==> Measurable(names, indices, step, 4)) &&
            (e.Failure? ==> e.error == IndexError || e.error == ValueError) &&
            (e == Failure(ValueError) <==> IndexOk(step, |names|) && (indices == [] || (!(Max(indices) >= |names[Wrap(step, |names|)]|) && AllIndexOk(indices, |names[Wrap(step, |names|)]|) && |indices| != 4)))
    ensures var e := DihedralEntry(names, coords, indices, step, symbol, dihedral);
            e.Success? && e.value.Entry? ==>
              var snap := names[Wrap(step, |names|)];
              var crd := coords[Wrap(step, |coords|)];
              e.value.atoms == Join(" ", Pick(Symbols(snap, symbol), indices)) &&
              e.value.value == dihedral(crd[Wrap(indices[0], |crd|)], crd[Wrap(indices[1], |crd|)],
                                        crd[Wrap(indices[2], |crd|)], crd[Wrap(indices[3], |crd|)])
  {
    if IndexOk(step, |names|) && indices != [] {
      MaxBounds(indices, |names[Wrap(step, |names|)]|);
    }
  }

  lemma DistanceEntryCases(names: seq<seq<int>>, coords: seq<seq<Coord>>, indices: seq<int>, step: int,
                           symbol: int -> string, dist: (Coord, Coord) -> real)
    requires Snapshots(names, coords)
    ensures var e := DistanceEntry(names, coords, indices, step, symbol, dist);
            (e == Success(Skipped) <==> IndexOk(step, |names|) && indices != [] && Max(indices) >= |names[Wrap(step, |names|)]|) &&
            (e.Success? && e.value.Entry? <==> Measurable(names, indices, step, 2)) &&
            (e.Failure? ==> e.error == IndexError || e.error == ValueError) &&
            (e == Failure(ValueError) <==> IndexOk(step, |names|) && (indices == [] || (!(Max(indices) >= |names[Wrap(step, |names|)]|) && AllIndexOk(indices, |names[Wrap(step, |names|)]|) && |indices| != 2)))
    ensures var e := DistanceEntry(names, coords, indices, step, symbol, dist);
            e.Success? && e.value.Entry? ==>
              var snap := names[Wrap(step, |names|)];
              var crd := coords[Wrap(step, |coords|)];
              e.value.atoms == Join(" ", Pick(Symbols(snap, symbol), indices)) &&
              e.value.value == dist(crd[Wrap(indices[0], |crd|)], crd[Wrap(indices[1], |crd|)])
  {
    if IndexOk(step, |names|) && indices != [] {
      MaxBounds(indices, |names[Wrap(step, |names|)]|);
    }
  }

  /** Below the maximum is below the bound for every index. */
  lemma MaxBounds(indices: seq<int>, n: int)
    requires indices != []
    ensures Max(indices) < n <==> forall k :: 0 <= k < |indices| ==> indices[k] < n
  {
  }

  // ---- calc_nbr ----

  /** "%s\t%.3f\t" % (symbol, distance), the formatting of the number a parameter. */
  function NeighbourText(sym: string, d: real, fmt: real -> string): string {
    sym + "\t" + fmt(d) + "\t"
  }

  /** The atom at i is listed: its position differs from the raw index given, and it is closer
      to p0 than the threshold. */
  predicate Near(crd: seq<Coord>, index: int, p0: Coord, threshold: real, dist: (Coord, Coord) -> real, i: nat)
    requires i < |crd|
  {
    i != index && dist(p0, crd[i]) < threshold
  }

  /** The text neighbours holds once the loop of calc_nbr has visited range(upto). */
  function Listing(syms: seq<string>, crd: seq<Coord>, index: int, p0: Coord, threshold: real,
                   dist: (Coord, Coord) -> real, fmt: real -> string, upto: nat): string
    requires upto <= |crd| == |syms|
  {
    if upto == 0 then ""
    else
      var i := upto - 1;
      var prev := Listing(syms, crd, index, p0, threshold, dist, fmt, i);
      if Near(crd, index, p0, threshold, dist, i) then prev + NeighbourText(syms[i], dist(p0, crd[i]), fmt)
      else prev
  }

  /** The positions below upto that calc_nbr lists, in increasing order. */
  function NeighbourIndices(crd: seq<Coord>, index: int, p0: Coord, threshold: real,
                            dist: (Coord, Coord) -> real, upto: nat): (r: seq<nat>)
    requires upto <= |crd|
    ensures forall k :: 0 <= k < |r| ==> r[k] < upto
    decreases upto
  {
    if upto == 0 then []
    else
      var prev := NeighbourIndices(crd, index, p0, threshold, dist, upto - 1);
      if Near(crd, index, p0, threshold, dist, upto - 1) then prev + [upto - 1] else prev
  }

  /** NeighbourIndices lists, in increasing order, exactly the positions below upto whose atom
      is near. */
  lemma {:induction false} NeighbourIndicesSelect(crd: seq<Coord>, index: int, p0: Coord, threshold: real,
                                                  dist: (Coord, Coord) -> real, upto: nat)
    requires upto <= |crd|
    ensures var r := NeighbourIndices(crd, index, p0, threshold, dist, upto);
            Increasing(r) &&
            (forall k :: 0 <= k < |r| ==> Near(crd, index, p0, threshold, dist, r[k])) &&
            (forall i: nat :: i < upto ==> (i in r <==> Near(crd, index, p0, threshold, dist, i)))
    decreases upto
  {
    if upto > 0 {
      NeighbourIndicesSelect(crd, index, p0, threshold, dist, upto - 1);
    }
  }

  /** The texts of the atoms at ids, concatenated in order. */
  function Texts(syms: seq<string>, crd: seq<Coord>, p0: Coord, dist: (Coord, Coord) -> real,
                 fmt: real -> string, ids: seq<nat>): string
    requires |syms| == |crd| && forall k :: 0 <= k < |ids| ==> ids[k] < |crd|
    decreases |ids|
  {
    if ids == [] then ""
    else
      var i := ids[|ids| - 1];
      Texts(syms, crd, p0, dist, fmt, ids[..|ids| - 1]) + NeighbourText(syms[i], dist(p0, crd[i]), fmt)
  }

  /** The text calc_nbr builds is the text of each listed atom in increasing position order. */
  lemma {:induction false} ListingOfNeighbours(syms: seq<string>, crd: seq<Coord>, index: int, p0: Coord, threshold: real,
                                               dist: (Coord, Coord) -> real, fmt: real -> string, upto: nat)
    requires upto <= |crd| == |syms|
    ensures Listing(syms, crd, index, p0, threshold, dist, fmt, upto)
            == Texts(syms, crd, p0, dist, fmt, NeighbourIndices(crd, index, p0, threshold, dist, upto))
    decreases upto
  {
    if upto > 0 {
      var i := upto - 1;
      ListingOfNeighbours(syms, crd, index, p0, threshold, dist, fmt, i);
      var prev := NeighbourIndices(crd, index, p0, threshold, dist, i);
      var before := Listing(syms, crd, index, p0, threshold, dist, fmt, i);
      assert before == Texts(syms, crd, p0, dist, fmt, prev);
      if Near(crd, index, p0, threshold, dist, i) {
        var ids := prev + [i];
        assert NeighbourIndices(crd, index, p0, threshold, dist, upto) == ids;
        assert ids[..|ids| - 1] == prev;
        assert Texts(syms, crd, p0, dist, fmt, ids) == before + NeighbourText(syms[i], dist(p0, crd[i]), fmt);
      } else {
        assert NeighbourIndices(crd, index, p0, threshold, dist, upto) == prev;
      }
    }
  }

  /** The comparison is with the raw index: for index -1 the atom the entry names (the last
      one) is listed as its own neighbour whenever its distance to itself is below the
      threshold, while a non-negative index never lists itself. */
  lemma SelfListing(crd: seq<Coord>, index: int, threshold: real, dist: (Coord, Coord) -> real)
    requires IndexOk(index, |crd|)
    ensures var a := Wrap(index, |crd|);
            index == -1 && dist(crd[a], crd[a]) < threshold ==>
              a in NeighbourIndices(crd, index, crd[a], threshold, dist, |crd|)
    ensures var a := Wrap(index, |crd|);
            index >= 0 ==> a !in NeighbourIndices(crd, index, crd[a], threshold, dist, |crd|)
  {
    var a := Wrap(index, |crd|);
    NeighbourIndicesSelect(crd, index, crd[a], threshold, dist, |crd|);
  }

  /** The outcome of calc_nbr. */
  function NeighbourEntry(names: seq<seq<int>>, coords: seq<seq<Coord>>, index: seq<int>, threshold: real,
                          step: int, symbol: int -> string, dist: (Coord, Coord) -> real, fmt: real -> string)
    : Result<Entry<string>, PyError>
    requires Snapshots(names, coords)
  {
    match SymbolsAt(names, step, symbol)
    case Failure(e) => Failure(e)
    case Success(syms) =>
      if index == [] then Failure(ValueError)
      else if Max(index) >= |syms| then Success(Skipped)
      else if |index| != 1 then Failure(ValueError)
      else if !IndexOk(index[0], |syms|) then Failure(IndexError)
      else
        var crd := coords[Wrap(step, |coords|)];
        var a := Wrap(index[0], |crd|);
        Success(Entry(syms[a], Strip(Listing(syms, crd, index[0], crd[a], threshold, dist, fmt, |crd|))))
  }

  /** calc_nbr, case by case: (None, None) exactly when the largest index is out of bounds; an
      entry exactly when a single index reads an atom; otherwise IndexError or ValueError. */
  lemma NeighbourEntryCases(names: seq<seq<int>>, coords: seq<seq<Coord>>, index: seq<int>, threshold: real,
                            step: int, symbol: int -> string, dist: (Coord, Coord) -> real, fmt: real -> string)
    requires Snapshots(names, coords)
    ensures var e := NeighbourEntry(names, coords, index, threshold, step, symbol, dist, fmt);
            (e == Success(Skipped) <==> IndexOk(step, |names|) && index != [] && Max(index) >= |names[Wrap(step, |names|)]|) &&
            (e.Success? && e.value.Entry? <==> Measurable(names, index, step, 1)) &&
            (e.Failure? ==> e.error == IndexError || e.error == ValueError)
  {
    if IndexOk(step, |names|) && index != [] {
      MaxBounds(index, |names[Wrap(step, |names|)]|);
    }
  }

  /** The entry calc_nbr makes names the selected atom and lists, stripped, the text of each
      atom NeighbourIndices selects, in increasing position order. */
  lemma NeighbourEntryListing(names: seq<seq<int>>, coords: seq<seq<Coord>>, index: seq<int>, threshold: real,
                              step: int, symbol: int -> string, dist: (Coord, Coord) -> real, fmt: real -> string)
    requires Snapshots(names, coords) && Measurable(names, index, step, 1)
    ensures var e := NeighbourEntry(names, coords, index, threshold, step, symbol, dist, fmt);
            var snap, crd := names[Wrap(step, |names|)], coords[Wrap(step, |coords|)];
            var a := Wrap(index[0], |crd|);
            e == Success(Entry(symbol(snap[a]), Strip(Texts(Symbols(snap, symbol), crd, crd[a], dist, fmt,
                                                              NeighbourIndices(crd, index[0], crd[a], threshold, dist, |crd|)))))
  {
    var snap, crd := names[Wrap(step, |names|)], coords[Wrap(step, |coords|)];
    var a := Wrap(index[0], |crd|);
    MaxBounds(index, |snap|);
    ListingOfNeighbours(Symbols(snap, symbol), crd, index[0], crd[a], threshold, dist, fmt, |crd|);
  }

  /** The loop of calc_nbr over range(len(coordinates)), building the neighbour text. */
  method ListNeighbours(syms: seq<string>, crd: seq<Coord>, index: int, p0: Coord, threshold: real,
                        dist: (Coord, Coord) -> real, fmt: real -> string) returns (text: string)
    requires |syms| == |crd|
    ensures text == Listing(syms, crd, index, p0, threshold, dist, fmt, |crd|)
  {
    text := "";
    var i := 0;
    while i < |crd|
      invariant 0 <= i <= |crd|
      invariant text == Listing(syms, crd, index, p0, threshold, dist, fmt, i)
    {
      if i != index {
        var d := dist(p0, crd[i]);
        if d < threshold {
          text := text + NeighbourText(syms[i], d, fmt);
        }
      }
      i := i + 1;
    }
  }

  // ---- the object ----

  class Gdata {
    var path: string
    var rowLabel: string  // the field Gdata calls label
    var coordinates: seq<seq<Coord>>
    var atomnames: seq<seq<int>>
    var energies: seq<real>
    var steps: seq<int>
    var thermo: seq<Option<real>>
    var counter: seq<Option<real>>
    var distance: seq<Entry<real>>
    var neighbours: seq<Entry<string>>
    var angles: seq<Entry<real>>      // created empty and never filled
    var dihedrals: seq<Entry<real>>

    /** What __init__ establishes and no method breaks. */
    predicate Valid()
      reads this
    {
      Snapshots(atomnames, coordinates) && |thermo| == ThermoCount && |counter| == CounterCount
    }

    /** The fields __init__ sets once its parse has succeeded. */
    constructor (path: string, rowLabel: string, log: Log)
      requires WellFormed(log)
      ensures Valid()
      ensures this.path == path && this.rowLabel == rowLabel
      ensures coordinates == log.coordinates && atomnames == log.atomnames
      ensures energies == log.energies && steps == log.steps
      ensures thermo == log.thermo && counter == log.counter
      ensures distance == [] && neighbours == [] && angles == [] && dihedrals == []
    {
      this.path := path;
      this.rowLabel := rowLabel;
      coordinates := log.coordinates;
      atomnames := log.atomnames;
      energies := log.energies;
      steps := log.steps;
      thermo := log.thermo;
      counter := log.counter;
      distance := [];
      neighbours := [];
      angles := [];
      dihedrals := [];
    }

    /** Gdata(path, label_depth, allowLink1) on a file with the given lines: the label, then
        the parse; an exception of the parse leaves no object. warned says whether the
        atom-ordering warning is printed: some snapshot from the third on differs from the
        one before it. */
    static method Load(path: string, labelDepth: int, allowLink1: bool, lines: seq<string>, pf: FloatParser)
      returns (r: Result<Gdata, PyError>, warned: bool)
      ensures r.Success? <==> Parse(lines, allowLink1, pf).Success?
      ensures r.Failure? ==> r.error == Parse(lines, allowLink1, pf).error && !warned
      ensures r.Success? ==>
                var g, log := r.value, Parse(lines, allowLink1, pf).value;
                fresh(g) && g.Valid() && g.path == path && g.rowLabel == Label(path, labelDepth) &&
                g.coordinates == log.coordinates && g.atomnames == log.atomnames &&
                g.energies == log.energies && g.steps == log.steps &&
                g.thermo == log.thermo && g.counter == log.counter &&
                g.distance == [] && g.neighbours == [] && g.angles == [] && g.dihedrals == [] &&
                (warned <==> !OrderKept(g.atomnames))
    {
      var rowLabel := Join("\t", LabelParts(path, labelDepth));
      var log := ParseLog(lines, allowLink1, pf);
      if log.Failure? {
        return Failure(log.error), false;
      }
      var g := new Gdata(path, rowLabel, log.value);
      return Success(g), !log.value.atomsOrdered;
    }

    /** calc_dih(indices, step): appends exactly one entry to dihedrals, or raises and
        changes nothing. */
    method CalcDih(indices: seq<int>, step: int, symbol: int -> string,
                   dihedral: (Coord, Coord, Coord, Coord) -> real) returns (err: Option<PyError>)
      requires Valid()
      modifies this`dihedrals
      ensures Valid()
      ensures var e := DihedralEntry(atomnames, coordinates, indices, step, symbol, dihedral);
              (e.Success? ==> dihedrals == old(dihedrals) + [e.value] && err == None) &&
              (e.Failure? ==> dihedrals == old(dihedrals) && err == Some(e.error))
    {
      if !IndexOk(step, |atomnames|) {
        return Some(IndexError);
      }
      var syms := Symbols(atomnames[Wrap(step, |atomnames|)], symbol);
      if indices == [] {
        return Some(ValueError);
      }
      if Max(indices) >= |syms| {
        dihedrals := dihedrals + [Skipped];
        return None;
      }
      if !AllIndexOk(indices, |syms|) {
        return Some(IndexError);
      }
      var atoms := Join(" ", Pick(syms, indices));
      var crd := coordinates[Wrap(step, |coordinates|)];
      if |indices| != 4 {
        return Some(ValueError);
      }
      var p := Pick(crd, indices);
      dihedrals := dihedrals + [Entry(atoms, dihedral(p[0], p[1], p[2], p[3]))];
      return None;
    }

    /** calc_dist(indices, step): appends exactly one entry to distance, or raises and
        changes nothing. */
    method CalcDist(indices: seq<int>, step: int, symbol: int -> string, dist: (Coord, Coord) -> real)
      returns (err: Option<PyError>)
      requires Valid()
      modifies this`distance
      ensures Valid()
      ensures var e := DistanceEntry(atomnames, coordinates, indices, step, symbol, dist);
              (e.Success? ==> distance == old(distance) + [e.value] && err == None) &&
              (e.Failure? ==> distance == old(distance) && err == Some(e.error))
    {
      if !IndexOk(step, |atomnames|) {
        return Some(IndexError);
      }
      var syms := Symbols(atomnames[Wrap(step, |atomnames|)], symbol);
      if indices == [] {
        return Some(ValueError);
      }
      if Max(indices) >= |syms| {
        distance := distance + [Skipped];
        return None;
      }
      if !AllIndexOk(indices, |syms|) {
        return Some(IndexError);
      }
      var atoms := Join(" ", Pick(syms, indices));
      var crd := coordinates[Wrap(step, |coordinates|)];
      if |indices| != 2 {
        return Some(ValueError);
      }
      var p := Pick(crd, indices);
      distance := distance + [Entry(atoms, dist(p[0], p[1]))];
      return None;
    }

    /** calc_nbr(index, threshold, step): appends exactly one entry to neighbours, or raises
        and changes nothing; the neighbour text is built by the loop over the atoms. */
    method CalcNbr(index: seq<int>, threshold: real, step: int, symbol: int -> string,
                   dist: (Coord, Coord) -> real, fmt: real -> string) returns (err: Option<PyError>)
      requires Valid()
      modifies this`neighbours
      ensures Valid()
      ensures var e := NeighbourEntry(atomnames, coordinates, index, threshold, step, symbol, dist, fmt);
              (e.Success? ==> neighbours == old(neighbours) + [e.value] && err == None) &&
              (e.Failure? ==> neighbours == old(neighbours) && err == Some(e.error))
    {
      if !IndexOk(step, |atomnames|) {
        return Some(IndexError);
      }
      var syms := Symbols(atomnames[Wrap(step, |atomnames|)], symbol);
      if index == [] {
        return Some(ValueError);
      }
      if Max(index) >= |syms| {
        neighbours := neighbours + [Skipped];
        return None;
      }
      var crd := coordinates[Wrap(step, |coordinates|)];
      if |index| != 1 {
        return Some(ValueError);
      }
      var i0 := index[0];
      if !IndexOk(i0, |crd|) {
        return Some(IndexError);
      }
      var p0 := crd[Wrap(i0, |crd|)];
      var text := ListNeighbours(syms, crd, i0, p0, threshold, dist, fmt);
      neighbours := neighbours + [Entry(syms[Wrap(i0, |syms|)], Strip(text))];
      return None;
    }
  }

  // ---- get_* over a list of Gdata objects ----

  /** [xs[idx] for xs in lists]: IndexError as soon as one list lacks the index. */
  function PickEach<T>(lists: seq<seq<T>>, idx: int): (r: Result<seq<T>, PyError>)
    ensures r.Success? <==> forall k :: 0 <= k < |lists| ==> IndexOk(idx, |lists[k]|)
    ensures r.Failure? ==> r.error == IndexError
    ensures r.Success? ==> (|r.value| == |lists| &&
              forall k :: 0 <= k < |lists| ==> r.value[k] == lists[k][Wrap(idx, |lists[k]|)])
    decreases |lists|
  {
    if lists == [] then Success([])
    else if !IndexOk(idx, |lists[0]|) then Failure(IndexError)
    else
      match PickEach(lists[1..], idx)
      case Failure(e) => Failure(e)
      case Success(rest) => Success([lists[0][Wrap(idx, |lists[0]|)]] + rest)
  }

  /** get_labels */
  function GetLabels(data: seq<Gdata>): (r: seq<string>)
    reads data
    ensures |r| == |data| && forall k :: 0 <= k < |data| ==> r[k] == data[k].rowLabel
  {
    seq(|data|, k requires 0 <= k < |data| reads data => data[k].rowLabel)
  }

  /** get_coordinates: the snapshot at step of every object. */
  function GetCoordinates(data: seq<Gdata>, step: int): (r: Result<seq<seq<Coord>>, PyError>)
    reads data
    ensures r.Success? <==> forall k :: 0 <= k < |data| ==> IndexOk(step, |data[k].coordinates|)
    ensures r.Failure? ==> r.error == IndexError
    ensures r.Success? ==> (|r.value| == |data| &&
              forall k :: 0 <= k < |data| ==> r.value[k] == data[k].coordinates[Wrap(step, |data[k].coordinates|)])
  {
    var lists := seq(|data|, k requires 0 <= k < |data| reads data => data[k].coordinates);
    assert forall k :: 0 <= k < |data| ==> lists[k] == data[k].coordinates;
    PickEach(lists, step)
  }

  /** get_neighbours: the idx-th neighbour entry of every object. */
  function GetNeighbours(data: seq<Gdata>, idx: int): (r: Result<seq<Entry<string>>, PyError>)
    reads data
    ensures r.Success? <==> forall k :: 0 <= k < |data| ==> IndexOk(idx, |data[k].neighbours|)
    ensures r.Failure? ==> r.error == IndexError
    ensures r.Success? ==> (|r.value| == |data| &&
              forall k :: 0 <= k < |data| ==> r.value[k] == data[k].neighbours[Wrap(idx, |data[k].neighbours|)])
  {
    var lists := seq(|data|, k requires 0 <= k < |data| reads data => data[k].neighbours);
    assert forall k :: 0 <= k < |data| ==> lists[k] == data[k].neighbours;
    PickEach(lists, idx)
  }

  /** get_atomnames: the atomic numbers of the snapshot at step of every object. */
  function GetAtomnames(data: seq<Gdata>, step: int): (r: Result<seq<seq<int>>, PyError>)
    reads data
    ensures r.Success? <==> forall k :: 0 <= k < |data| ==> IndexOk(step, |data[k].atomnames|)
    ensures r.Failure? ==> r.error == IndexError
    ensures r.Success? ==> (|r.value| == |data| &&
              forall k :: 0 <= k < |data| ==> r.value[k] == data[k].atomnames[Wrap(step, |data[k].atomnames|)])
  {
    var lists := seq(|data|, k requires 0 <= k < |data| reads data => data[k].atomnames);
    assert forall k :: 0 <= k < |data| ==> lists[k] == data[k].atomnames;
    PickEach(lists, step)
  }

  /** get_energies: the energy at step of every object (the last one by default). */
  function GetEnergies(data: seq<Gdata>, step: int): (r: Result<seq<real>, PyError>)
    reads data
    ensures r.Success? <==> forall k :: 0 <= k < |data| ==> IndexOk(step, |data[k].energies|)
    ensures r.Failure? ==> r.error == IndexError
    ensures r.Success? ==> (|r.value| == |data| &&
              forall k :: 0 <= k < |data| ==> r.value[k] == data[k].energies[Wrap(step, |data[k].energies|)])
  {
    var lists := seq(|data|, k requires 0 <= k < |data| reads data => data[k].energies);
    assert forall k :: 0 <= k < |data| ==> lists[k] == data[k].energies;
    PickEach(lists, step)
  }

  /** get_dihedrals: the idx-th dihedral entry of every object. */
  function GetDihedrals(data: seq<Gdata>, idx: int): (r: Result<seq<Entry<real>>, PyError>)
    reads data
    ensures r.Success? <==> forall k :: 0 <= k < |data| ==> IndexOk(idx, |data[k].dihedrals|)
    ensures r.Failure? ==> r.error == IndexError
    ensures r.Success? ==> (|r.value| == |data| &&
              forall k :: 0 <= k < |data| ==> r.value[k] == data[k].dihedrals[Wrap(idx, |data[k].dihedrals|)])
  {
    var lists := seq(|data|, k requires 0 <= k < |data| reads data => data[k].dihedrals);
    assert forall k :: 0 <= k < |data| ==> lists[k] == data[k].dihedrals;
    PickEach(lists, idx)
  }

  /** get_thermo: never fails; on valid objects every row has the eight thermochemistry cells. */
  function GetThermo(data: seq<Gdata>): (r: seq<seq<Option<real>>>)
    reads data
    ensures |r| == |data| && forall k :: 0 <= k < |data| ==> r[k] == data[k].thermo
    ensures (forall k :: 0 <= k < |data| ==> data[k].Valid()) ==> Rectangular(r, ThermoCount)
  {
    seq(|data|, k requires 0 <= k < |data| reads data => data[k].thermo)
  }

  /** get_counterpoise: never fails; on valid objects every row has the five cells. */
  function GetCounterpoise(data: seq<Gdata>): (r: seq<seq<Option<real>>>)
    reads data
    ensures |r| == |data| && forall k :: 0 <= k < |data| ==> r[k] == data[k].counter
    ensures (forall k :: 0 <= k < |data| ==> data[k].Valid()) ==> Rectangular(r, CounterCount)
  {
    seq(|data|, k requires 0 <= k < |data| reads data => data[k].counter)
  }
}
