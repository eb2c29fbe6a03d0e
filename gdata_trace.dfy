/** The lines the loop of Gdata.__init__ classifies: the position of each, with the parser's
    state when it gets there. Lines the loop skips (the header of an orientation block, the
    lines read as part of a thermochemistry or counterpoise block) are not among them, and
    nothing after a Link1 break or an exception is. */
module GdataTrace {
  import opened Base
  import opened PyText
  import opened GdataParser

  /** A line the loop reads: its position and the state the loop meets it in. */
  type Visit = (nat, Scanner)

  function Visits(lines: seq<string>, i: nat, st: Scanner, allowLink1: bool, pf: FloatParser): seq<Visit>
    requires i <= |lines|
    decreases |lines| - i
  {
    if i == |lines| then []
    else
      match Step(lines, i, st, allowLink1, pf)
      case Next(j, s) => [(i, st)] + Visits(lines, j, s, allowLink1, pf)
      case _ => [(i, st)]
  }

  /** The loop visits lines in increasing order, from i to before the end of the file. */
  lemma {:induction false} VisitsOrdered(lines: seq<string>, i: nat, st: Scanner, allowLink1: bool, pf: FloatParser)
    requires i <= |lines|
    ensures var vs := Visits(lines, i, st, allowLink1, pf);
            (vs == [] <==> i == |lines|) && (vs != [] ==> vs[0] == (i, st)) &&
            (forall k :: 0 <= k < |vs| ==> i <= vs[k].0 < |lines|) &&
            (forall k :: 0 < k < |vs| ==> vs[k - 1].0 < vs[k].0)
    decreases |lines| - i
  {
    if i < |lines| {
      VisitsStep(lines, i, st, allowLink1, pf);
      var m := Step(lines, i, st, allowLink1, pf);
      if m.Next? {
        VisitsOrdered(lines, m.pos, m.st, allowLink1, pf);
        var rest := Visits(lines, m.pos, m.st, allowLink1, pf);
        var vs := [(i, st)] + rest;
        assert forall k :: 0 < k < |vs| ==> vs[k] == rest[k - 1];
      }
    }
  }

  /** The loop takes the branch of kind for the line it visits at v. */
  predicate KindAt(lines: seq<string>, v: Visit, kind: LineKind) {
    v.0 < |lines| && Classify(Strip(lines[v.0]), v.1.readingCrd) == kind
  }

  /** The positions, in visiting order, of the visited lines that take the branch of kind. */
  function KindPositions(lines: seq<string>, vs: seq<Visit>, kind: LineKind): (ps: seq<nat>)
    ensures |ps| <= |vs|
    ensures forall k :: 0 <= k < |vs| && KindAt(lines, vs[k], kind) ==> vs[k].0 in ps
    ensures forall p :: p in ps ==> exists k :: 0 <= k < |vs| && vs[k].0 == p && KindAt(lines, vs[k], kind)
  {
    if vs == [] then []
    else
      var rest := KindPositions(lines, vs[1..], kind);
      assert forall k :: 0 < k < |vs| ==> vs[k] == vs[1..][k - 1];
      (if KindAt(lines, vs[0], kind) then [vs[0].0] else []) + rest
  }

  lemma KindPositionsCons(lines: seq<string>, v: Visit, vs: seq<Visit>, kind: LineKind)
    ensures KindPositions(lines, [v] + vs, kind)
            == (if KindAt(lines, v, kind) then [v.0] else []) + KindPositions(lines, vs, kind)
  {
    assert ([v] + vs)[1..] == vs;
  }

  /** The snapshots the "-----" lines among the visited ones close, in visiting order. */
  function ClosedCoordinates(lines: seq<string>, vs: seq<Visit>): (r: seq<seq<Coord>>)
    ensures |r| == |KindPositions(lines, vs, CoordEnd)|
  {
    if vs == [] then []
    else (if KindAt(lines, vs[0], CoordEnd) then [vs[0].1.spCoordinates] else []) + ClosedCoordinates(lines, vs[1..])
  }

  /** The atomic numbers of the same snapshots. */
  function ClosedAtomnames(lines: seq<string>, vs: seq<Visit>): (r: seq<seq<int>>)
    ensures |r| == |KindPositions(lines, vs, CoordEnd)|
  {
    if vs == [] then []
    else (if KindAt(lines, vs[0], CoordEnd) then [vs[0].1.spAtomnames] else []) + ClosedAtomnames(lines, vs[1..])
  }

  lemma ClosedCons(lines: seq<string>, v: Visit, vs: seq<Visit>)
    ensures ClosedCoordinates(lines, [v] + vs)
            == (if KindAt(lines, v, CoordEnd) then [v.1.spCoordinates] else []) + ClosedCoordinates(lines, vs)
    ensures ClosedAtomnames(lines, [v] + vs)
            == (if KindAt(lines, v, CoordEnd) then [v.1.spAtomnames] else []) + ClosedAtomnames(lines, vs)
  {
    assert ([v] + vs)[1..] == vs;
  }

  /** The positions of kind among the lines the loop visits from i: i itself when its line is
      of that kind, then those of the lines visited after it. */
  lemma PositionsStep(lines: seq<string>, i: nat, st: Scanner, allowLink1: bool, pf: FloatParser, kind: LineKind)
    requires i < |lines|
    ensures var m := Step(lines, i, st, allowLink1, pf);
            var here := if Classify(Strip(lines[i]), st.readingCrd) == kind then [i] else [];
            KindPositions(lines, Visits(lines, i, st, allowLink1, pf), kind)
            == here + (if m.Next? then KindPositions(lines, Visits(lines, m.pos, m.st, allowLink1, pf), kind) else [])
  {
    VisitsStep(lines, i, st, allowLink1, pf);
    var m := Step(lines, i, st, allowLink1, pf);
    if m.Next? {
      KindPositionsCons(lines, (i, st), Visits(lines, m.pos, m.st, allowLink1, pf), kind);
    } else {
      KindPositionsCons(lines, (i, st), [], kind);
    }
  }

  /** The same for the snapshots closed along the way. */
  lemma ClosedStep(lines: seq<string>, i: nat, st: Scanner, allowLink1: bool, pf: FloatParser)
    requires i < |lines| && Step(lines, i, st, allowLink1, pf).Next?
    ensures var m := Step(lines, i, st, allowLink1, pf);
            var here := Classify(Strip(lines[i]), st.readingCrd) == CoordEnd;
            var vs := Visits(lines, i, st, allowLink1, pf);
            var rest := Visits(lines, m.pos, m.st, allowLink1, pf);
            ClosedCoordinates(lines, vs) == (if here then [st.spCoordinates] else []) + ClosedCoordinates(lines, rest) &&
            ClosedAtomnames(lines, vs) == (if here then [st.spAtomnames] else []) + ClosedAtomnames(lines, rest)
  {
    VisitsStep(lines, i, st, allowLink1, pf);
    var m := Step(lines, i, st, allowLink1, pf);
    ClosedCons(lines, (i, st), Visits(lines, m.pos, m.st, allowLink1, pf));
  }

  /** A Link1 break closes no snapshot. */
  lemma ClosedHalt(lines: seq<string>, i: nat, st: Scanner, allowLink1: bool, pf: FloatParser)
    requires i < |lines| && Step(lines, i, st, allowLink1, pf).Halt?
    ensures ClosedCoordinates(lines, Visits(lines, i, st, allowLink1, pf)) == []
    ensures ClosedAtomnames(lines, Visits(lines, i, st, allowLink1, pf)) == []
  {
    VisitsStep(lines, i, st, allowLink1, pf);
    ClosedCons(lines, (i, st), []);
  }

  /** One pass of the loop: the line at i is visited first, then whatever the next move visits. */
  lemma VisitsStep(lines: seq<string>, i: nat, st: Scanner, allowLink1: bool, pf: FloatParser)
    requires i < |lines|
    ensures Step(lines, i, st, allowLink1, pf).Next? ==>
              Visits(lines, i, st, allowLink1, pf)
              == [(i, st)] + Visits(lines, Step(lines, i, st, allowLink1, pf).pos, Step(lines, i, st, allowLink1, pf).st, allowLink1, pf)
    ensures !Step(lines, i, st, allowLink1, pf).Next? ==> Visits(lines, i, st, allowLink1, pf) == [(i, st)]
  {
  }
}
