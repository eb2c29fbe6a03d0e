# Gaussian result exporter — a verified model

This project models the core of the Gaussian result exporter scripts (`dn_scripts/gaussian_result_exporter`). The scripts read Gaussian 16 log files and export energies, geometries, thermochemistry, counterpoise corrections and geometric queries as tab-separated tables. The model covers five parts:

- **The line-stream parser in `Gdata.__init__`** (`GdataParser`, `GdataTrace`, `GdataReader`, `GdataParserFacts`).
  - It skips 30 header lines, then classifies each stripped line:
    - "Input orientation:" skips a 4-line header and opens a coordinate block; rows are read until a "-----" line closes it;
    - "SCF Done:  E(" adds an energy;
    - "Step number" adds a step index;
    - "Zero-point correction=" starts an 8-line thermochemistry block;
    - "Counterpoise corrected energy =" starts a 5-line counterpoise block;
    - "Entering Link 1 " or "Link1:" ends the parse unless Link1 jobs are allowed.
  - The specification is the state machine `Step`/`Scan`/`Parse`. `GdataReader.ParseLog` is the loop as gaussian_results.py writes it, proved to compute it. `GdataTrace` lists the lines the loop visits, with its state at each, so that what the parse collects can be tied to those lines.
  - Python exceptions become `Failure` values: `StopIteration`, `ValueError` and `IndexError`.
- **The class `Gdata`** (`GaussianResults`).
  - Loading computes the label and runs the parse.
  - `calc_dih`, `calc_dist` and `calc_nbr` append one entry each. An entry is `(None, None)` when the largest index is out of bounds; negative indices count from the end.
  - The `get_*` accessors read one field from every object in a list.
- **The older parser `read_energies_coordinates`** (`GetResultsGaussian`).
  - Lines are matched unstripped, leading spaces included.
  - Coordinate rows are kept as raw tokens.
  - Atomic numbers are collected only before the first step.
  - The loop stops at the first step number that does not increase.
  - Energies and coordinates are cut to the last step number.
- **The table helpers of `utilities.py`** (`Utilities`):
  - `transpose`, which is zip-based and truncates to the shortest row;
  - `iterskip`;
  - the text `export_data` writes, and its retry loop.
- **Python text semantics** the scripts rely on (`PyText`): `strip`, `split`, `join`, `int`, negative indexing, slices and `splitext`.

Floating-point values are never computed. `float()` is a parameter `pf: string -> Option<real>`, where `None` stands for `ValueError`. The dihedral and distance formulas are function parameters over coordinate tuples, and so is the `"%.3f"` formatting.

Three details of the program shape the model:

- **Atom-ordering check** (gaussian_results.py:305-309). The flag compares only snapshots from the third on with the one before. The guard `len(self.atomnames) > 1` skips the second-versus-first comparison (`GdataParserFacts.OrderKept`).
- **Link1 marker** (gaussian_results.py:343-346). It ends the parse only when it is reached outside a coordinate block. The "Entering Link 1 " form needs its trailing space.
- **Label depth 0** (gaussian_results.py:270-272). It does not mean "no label". Python reads `[-0:]` as `[0:]`, so depth 0 gives the whole extension-stripped path with each `\` replaced by the separator (`GaussianResults.LabelOfDepthZero`).

## Model

| member | source | states |
|---|---|---|
| `PyText.TrimStart` | dn_scripts/gaussian_result_exporter/gaussian_results.py:289 | lstrip: removes exactly the leading whitespace, leaving a suffix that does not start with whitespace |
| `PyText.TrimEnd` | dn_scripts/gaussian_result_exporter/gaussian_results.py:289 | rstrip: removes exactly the trailing whitespace |
| `PyText.Strip` | dn_scripts/gaussian_result_exporter/gaussian_results.py:289 | strip: lstrip then rstrip (its content is stated by StripEnds and StripSlice) |
| `PyText.StripEnds` | dn_scripts/gaussian_result_exporter/gaussian_results.py:289 | the stripped text is empty or starts and ends with a non-whitespace character |
| `PyText.StripSlice` | dn_scripts/gaussian_result_exporter/gaussian_results.py:289 | the stripped text is a contiguous part of the line with only whitespace before and after it |
| `PyText.Words` | dn_scripts/gaussian_result_exporter/gaussian_results.py:299 | split(): every word is non-empty and holds no whitespace (its content is stated by the lemmas below) |
| `PyText.WordsAfterSpace` | dn_scripts/gaussian_result_exporter/gaussian_results.py:299 | leading whitespace does not change what split() gives |
| `PyText.WordsOfWord` | dn_scripts/gaussian_result_exporter/gaussian_results.py:299 | a word followed by the end or by whitespace is the first token split() gives, before the tokens of the rest |
| `PyText.WordsOfJoin` | dn_scripts/gaussian_result_exporter/gaussian_results.py:299 | split() gives back exactly the words " ".join put together, when each is non-empty and free of whitespace |
| `PyText.JoinStep` | dn_scripts/gaussian_result_exporter/gaussian_results.py:299 | one more word in front of a joined list is one more token in front of its split |
| `PyText.Join` | dn_scripts/gaussian_result_exporter/gaussian_results.py:271 | sep.join(parts) (its partner is SplitOn, whose parts join back to the string) |
| `Utilities.SplitOfJoin` | dn_scripts/gaussian_result_exporter/utilities.py:85 | split(sep) undoes sep.join when no part holds sep, so a data line gives back its cells |
| `PyText.SplitOn` | dn_scripts/gaussian_result_exporter/gaussian_results.py:271 | split(sep): never empty, no part holds sep, and joining the parts with sep gives the string back |
| `PyText.AfterLast` | dn_scripts/gaussian_result_exporter/gaussian_results.py:327 | split(sep)[-1] holds no sep |
| `PyText.BeforeFirst` | dn_scripts/gaussian_result_exporter/gaussian_results.py:328-329 | split(sep)[0] is a prefix without sep |
| `PyText.BeforeFirstIsFirstPart` | dn_scripts/gaussian_result_exporter/gaussian_results.py:328-329 | BeforeFirst is the first part of SplitOn |
| `PyText.ParseIntOfIntToString` | dn_scripts/gaussian_result_exporter/gaussian_results.py:301 | int() reads back what str() writes, for every integer |
| `PyText.ParseInt` | dn_scripts/gaussian_result_exporter/gaussian_results.py:301 | int(s) for an optionally signed run of ASCII digits within whitespace, None for ValueError (its partner is ParseIntOfIntToString) |
| `PyText.Wrap` | dn_scripts/gaussian_result_exporter/gaussian_results.py:371 | a Python index passing the bounds check reads position i or len + i |
| `PyText.SliceFrom` | dn_scripts/gaussian_result_exporter/gaussian_results.py:271 | s[start:] is the suffix of the length Python gives, for positive, zero and negative start |
| `PyText.SliceTo` | dn_scripts/gaussian_result_exporter/get_results_gaussian.py:295-296 | s[:end] is the prefix of the length Python gives |
| `PyText.StripExtension` | dn_scripts/gaussian_result_exporter/gaussian_results.py:270 | splitext(p)[0] is a prefix; what it removes starts at a '.' with no further '.' and no separator after it, and some character before the cut and in the same last component is not a '.'; conversely, whenever the last component has such a '.' and such a character before it, the result is exactly p up to that '.' |
| `Utilities.MinLen` | dn_scripts/gaussian_result_exporter/utilities.py:4-5 | the length of the shortest row, or 0 without rows |
| `Utilities.Transpose` | dn_scripts/gaussian_result_exporter/utilities.py:4-5 | min(len(row)) rows (0 when empty), each of len(lst) elements, with element [j][i] equal to lst[i][j] |
| `Utilities.TransposeTwice` | dn_scripts/gaussian_result_exporter/utilities.py:4-5 | transposing twice gives back a non-empty rectangular table of non-zero width |
| `Utilities.TransposeOfZeroWidth` | dn_scripts/gaussian_result_exporter/utilities.py:4-5 | a zero-width table does not survive the round trip |
| `Utilities.IterSkip` | dn_scripts/gaussian_result_exporter/utilities.py:8-10 | advances the iterator by exactly steps items, or raises StopIteration when fewer remain |
| `Utilities.HeaderAligned` | dn_scripts/gaussian_result_exporter/utilities.py:81-82 | the header line ends in a newline and, split at tabs, holds max(0, len(columns) - len(head)) empty fields and then the heads |
| `Utilities.HeaderLine` | dn_scripts/gaussian_result_exporter/utilities.py:81-82 | the header line (its content is stated by HeaderAligned) |
| `Utilities.NoneFreeIndices` | dn_scripts/gaussian_result_exporter/utilities.py:83-84 | the positions of the rows without None, each one such a row |
| `Utilities.NoneFreeIndicesIncreasing` | dn_scripts/gaussian_result_exporter/utilities.py:83-84 | those positions are in increasing order |
| `Utilities.NoneFreeIndicesComplete` | dn_scripts/gaussian_result_exporter/utilities.py:83-84 | every row without None is among them |
| `Utilities.DataLineAt` | dn_scripts/gaussian_result_exporter/utilities.py:83-85 | the k-th data line is the line of the k-th None-free row |
| `Utilities.DataLinesCount` | dn_scripts/gaussian_result_exporter/utilities.py:83-85 | one data line per None-free row |
| `Utilities.DataLinesAreNoneFreeRows` | dn_scripts/gaussian_result_exporter/utilities.py:83-85 | the data lines are exactly the None-free rows, in order |
| `Utilities.CountNoneFreeBound` | dn_scripts/gaussian_result_exporter/utilities.py:83-85 | no more data lines than rows |
| `Utilities.RowLineReadBack` | dn_scripts/gaussian_result_exporter/utilities.py:85 | a data line ends in a newline and, split at tabs, gives back str of each cell |
| `Utilities.RowLine` | dn_scripts/gaussian_result_exporter/utilities.py:85 | one data line (its content is stated by RowLineReadBack) |
| `Utilities.DataLines` | dn_scripts/gaussian_result_exporter/utilities.py:83-85 | the data lines (their content is stated by DataLineAt, DataLinesCount and DataLinesAreNoneFreeRows) |
| `Utilities.TableText` | dn_scripts/gaussian_result_exporter/utilities.py:79-86 | the header line followed by the data lines of transpose(columns), which WriteRows is proved to write |
| `Utilities.WriteRows` | dn_scripts/gaussian_result_exporter/utilities.py:79-86 | the loop writes the header and then one line per None-free row of transpose(columns): 1 + that count lines |
| `Utilities.ExportData` | dn_scripts/gaussian_result_exporter/utilities.py:65-87 | writes only at an attempt where the path is neither an existing file (without overwrite) nor a directory, after a yes to every earlier prompt; any other answer writes nothing |
| `GdataParser.BlockValue` | dn_scripts/gaussian_result_exporter/gaussian_results.py:327-329 | the text after the last '=' and before the first stop character holds neither |
| `GdataParser.ParseRow` | dn_scripts/gaussian_result_exporter/gaussian_results.py:297-302 | a row that parses yields at most three coordinates (its cases are stated by ParseRowCases) |
| `GdataParserFacts.CoordFieldsAt` | dn_scripts/gaussian_result_exporter/gaussian_results.py:300 | fields[3:6] holds fields 3, 4 and 5, as many of them as the row has |
| `GdataParserFacts.ParseFloatsValues` | dn_scripts/gaussian_result_exporter/gaussian_results.py:300 | map(float, ...) succeeds exactly when every token is a float, and then holds those floats in order |
| `GdataParserFacts.ParseRowCases` | dn_scripts/gaussian_result_exporter/gaussian_results.py:297-302 | a row succeeds exactly when its fields 3 to 5 are floats and field 1 is an int, and then holds those values; a missing field 1 is an IndexError raised after the coordinates are read, anything else a ValueError |
| `GdataParser.CloseBlock` | dn_scripts/gaussian_result_exporter/gaussian_results.py:303-311 | closing a block (its effect is stated by CloseKeepsShape and BranchSnapshots) |
| `GdataParser.ReadBlock` | dn_scripts/gaussian_result_exporter/gaussian_results.py:323-341 | a block read whole yields left values and leaves the iterator left lines further on; it fails only with StopIteration or ValueError |
| `GdataParser.ScfEnergy` | dn_scripts/gaussian_result_exporter/gaussian_results.py:313-316 | a read energy is float of the fifth token of the line |
| `GdataParser.ScfEnergyCases` | dn_scripts/gaussian_result_exporter/gaussian_results.py:313-316 | the energy is read exactly when the line has five tokens and the fifth is a float; otherwise IndexError exactly when there are fewer than five tokens, else ValueError |
| `GdataParser.StepIndex` | dn_scripts/gaussian_result_exporter/gaussian_results.py:318-321 | a read step index is int of the third token minus one |
| `GdataParser.StepIndexCases` | dn_scripts/gaussian_result_exporter/gaussian_results.py:318-321 | the step index is read exactly when the line has three tokens and the third is an int; otherwise IndexError exactly when there are fewer than three tokens, else ValueError |
| `GdataParser.Classify` | dn_scripts/gaussian_result_exporter/gaussian_results.py:289-346 | the order of the tests: inside a coordinate block only "Input orientation:", "-----" and rows are recognised; a line is classified as a later marker only outside a block and only when it starts with that marker |
| `GdataParser.Branch` | dn_scripts/gaussian_result_exporter/gaussian_results.py:290-346 | the branch taken for a line of each kind moves the iterator forward within the file and keeps the halted flag, or, only for a Link1 line without allowLink1, halts changing nothing else |
| `GdataParser.Step` | dn_scripts/gaussian_result_exporter/gaussian_results.py:288-346 | a pass of the loop body that goes on moves the iterator forward within the file; it halts only at a line classified as Link1, changing nothing but the halted flag |
| `GdataParser.Scan` | dn_scripts/gaussian_result_exporter/gaussian_results.py:288-347 | the loop from a position (its properties are stated by the GdataParserFacts lemmas) |
| `GdataParser.Parse` | dn_scripts/gaussian_result_exporter/gaussian_results.py:283-351 | the whole parse (its properties are stated by ParseWellFormed, ParseEnergies, ParseSteps, ParseSnapshots and ParseWithoutBlocks) |
| `GdataTrace.Visits` | dn_scripts/gaussian_result_exporter/gaussian_results.py:288-347 | the lines the loop visits, each with the state it meets it in |
| `GdataTrace.VisitsOrdered` | dn_scripts/gaussian_result_exporter/gaussian_results.py:288-347 | the loop visits its first line first, then lines in strictly increasing order, all before the end of the file, and visits none exactly when it starts at the end |
| `GdataTrace.KindPositions` | dn_scripts/gaussian_result_exporter/gaussian_results.py:289-346 | the positions of the visited lines classified as a kind: every such visited line is among them and each of them is one |
| `GdataTrace.ClosedCoordinates` | dn_scripts/gaussian_result_exporter/gaussian_results.py:303-311 | the snapshots closed by the visited "-----" lines, one per such line |
| `GdataTrace.ClosedAtomnames` | dn_scripts/gaussian_result_exporter/gaussian_results.py:303-311 | their atomic numbers, one list per such line |
| `GdataTrace.PositionsStep` | dn_scripts/gaussian_result_exporter/gaussian_results.py:288-346 | the positions of a kind from a line on are that line when it is of the kind, then those the loop visits after it |
| `GdataTrace.ClosedStep` | dn_scripts/gaussian_result_exporter/gaussian_results.py:303-311 | the snapshots closed from a line on are that line's block when it is a "-----" line, then those closed after it |
| `GdataParserFacts.ReadBlockValuesOfLines` | dn_scripts/gaussian_result_exporter/gaussian_results.py:326-330 | value k of a block is the value of the marker line (k = 0) or of the k-th line after it |
| `GdataParserFacts.ReadBlockSucceeds` | dn_scripts/gaussian_result_exporter/gaussian_results.py:326-330 | a block is read whole exactly when every one of its lines holds a value and the line after it exists |
| `GdataParserFacts.ReadBlockPrefix` | dn_scripts/gaussian_result_exporter/gaussian_results.py:326-330 | a block read whole reads the same on a longer file |
| `GdataParserFacts.ReadBlockSameFrom` | dn_scripts/gaussian_result_exporter/gaussian_results.py:326-330 | a block reads only lines from its own position on |
| `GdataParserFacts.BranchExtends` | dn_scripts/gaussian_result_exporter/gaussian_results.py:290-346 | a branch that does not fail is the same on a longer file |
| `GdataParserFacts.StepExtends` | dn_scripts/gaussian_result_exporter/gaussian_results.py:288-346 | a pass that does not fail is the same on a longer file |
| `GdataParserFacts.StepSameFrom` | dn_scripts/gaussian_result_exporter/gaussian_results.py:288-346 | a pass reads no line before its own |
| `GdataParserFacts.ScanSameFrom` | dn_scripts/gaussian_result_exporter/gaussian_results.py:288-346 | the loop from line i reads no line before i |
| `GdataParserFacts.HeaderIgnored` | dn_scripts/gaussian_result_exporter/gaussian_results.py:286-287 | the first 30 lines are never classified: any two headers give the same parse |
| `GdataParserFacts.OrientationHeaderSkipped` | dn_scripts/gaussian_result_exporter/gaussian_results.py:290-295 | the 4 lines after "Input orientation:" are skipped unexamined |
| `GdataParserFacts.ScanPrefix` | dn_scripts/gaussian_result_exporter/gaussian_results.py:288-346 | a loop that finishes a prefix without halting goes on from the state it reached |
| `GdataParserFacts.Link1NotOtherMarker` | dn_scripts/gaussian_result_exporter/gaussian_results.py:343-346 | a Link1 line matches no other marker and, outside a block, is classified as a Link1 line |
| `GdataParserFacts.Link1Halts` | dn_scripts/gaussian_result_exporter/gaussian_results.py:343-346 | without allowLink1 the loop stops at a Link1 line with the state it had |
| `GdataParserFacts.Link1EndsParse` | dn_scripts/gaussian_result_exporter/gaussian_results.py:343-346 | without allowLink1, nothing after a Link1 marker reached outside a coordinate block contributes data |
| `GdataParserFacts.OrderKeptAppend` | dn_scripts/gaussian_result_exporter/gaussian_results.py:305-309 | a new snapshot keeps the flag exactly when it repeats the last one or is only the first or second |
| `GdataParserFacts.OrderKeptPrefix` | dn_scripts/gaussian_result_exporter/gaussian_results.py:305-309 | once false, the flag stays false |
| `GdataParserFacts.CloseKeepsShape` | dn_scripts/gaussian_result_exporter/gaussian_results.py:303-311 | closing a block adds one snapshot to both lists and keeps the flag equal to OrderKept |
| `GdataParserFacts.RowKeepsShape` | dn_scripts/gaussian_result_exporter/gaussian_results.py:299-302 | a row adds one coordinate tuple and one atomic number |
| `GdataParserFacts.BlockKeepsShape` | dn_scripts/gaussian_result_exporter/gaussian_results.py:323-341 | a block replaces the tuple with one of the same size |
| `GdataParserFacts.BranchKeepsShape` | dn_scripts/gaussian_result_exporter/gaussian_results.py:290-346 | every branch keeps the shape invariant |
| `GdataParserFacts.StepKeepsShape` | dn_scripts/gaussian_result_exporter/gaussian_results.py:288-346 | each pass keeps the shape invariant |
| `GdataParserFacts.ScanKeepsShape` | dn_scripts/gaussian_result_exporter/gaussian_results.py:288-346 | the loop keeps the shape invariant |
| `GdataParserFacts.ParseWellFormed` | dn_scripts/gaussian_result_exporter/gaussian_results.py:277-351 | after a parse, len(coordinates) == len(atomnames), each snapshot pairs row for row, thermo has 8 and counter 5 entries, all None or all read, and the flag equals OrderKept |
| `GdataParserFacts.BranchEnergies` | dn_scripts/gaussian_result_exporter/gaussian_results.py:313-316 | the "SCF Done:" branch appends float of the fifth token to energies; no other branch changes energies |
| `GdataParserFacts.BranchSteps` | dn_scripts/gaussian_result_exporter/gaussian_results.py:318-321 | the "Step number" branch appends int of the third token minus one to steps; no other branch changes steps |
| `GdataParserFacts.StepEnergies` | dn_scripts/gaussian_result_exporter/gaussian_results.py:313-316 | a pass adds an energy exactly on an "SCF Done:" line outside a block |
| `GdataParserFacts.StepSteps` | dn_scripts/gaussian_result_exporter/gaussian_results.py:318-321 | a pass adds a step exactly on a "Step number" line outside a block |
| `GdataParserFacts.CollectedCons` | dn_scripts/gaussian_result_exporter/gaussian_results.py:313-321 | a value collected at line i comes before everything collected later |
| `GdataParserFacts.CollectedLater` | dn_scripts/gaussian_result_exporter/gaussian_results.py:313-321 | a line that collects nothing leaves the record unchanged |
| `GdataParserFacts.ScanEnergies` | dn_scripts/gaussian_result_exporter/gaussian_results.py:313-316 | the energies the loop adds are, in order, the values of exactly the visited lines classified as "SCF Done:" |
| `GdataParserFacts.ScanSteps` | dn_scripts/gaussian_result_exporter/gaussian_results.py:318-321 | the step indices the loop adds are, in order, those of exactly the visited lines classified as "Step number" |
| `GdataParserFacts.ParseEnergies` | dn_scripts/gaussian_result_exporter/gaussian_results.py:313-316 | energies holds float of the fifth token of "SCF Done:" lines after the header, in file order, one for each visited line classified as one and for no other line |
| `GdataParserFacts.ParseSteps` | dn_scripts/gaussian_result_exporter/gaussian_results.py:318-321 | steps holds N - 1 of "Step number N" lines after the header, in file order, one for each visited line classified as one and for no other line |
| `GdataParserFacts.BranchSnapshots` | dn_scripts/gaussian_result_exporter/gaussian_results.py:303-311 | the "-----" branch appends the open block to coordinates and its atomic numbers to atomnames; every other branch leaves both unchanged |
| `GdataParserFacts.StepSnapshots` | dn_scripts/gaussian_result_exporter/gaussian_results.py:303-311 | the same for a pass of the loop body |
| `GdataParserFacts.ScanSnapshots` | dn_scripts/gaussian_result_exporter/gaussian_results.py:288-347 | the loop adds to coordinates and atomnames exactly the blocks closed by the "-----" lines it visits, in order |
| `GdataParserFacts.ParseSnapshots` | dn_scripts/gaussian_result_exporter/gaussian_results.py:303-311 | after a parse, coordinates and atomnames are exactly the snapshots of the blocks closed by visited "-----" lines, in order |
| `GdataParserFacts.ScanKeepsThermo` | dn_scripts/gaussian_result_exporter/gaussian_results.py:323-331 | without a thermochemistry marker ahead, thermo is unchanged |
| `GdataParserFacts.ScanKeepsCounter` | dn_scripts/gaussian_result_exporter/gaussian_results.py:333-341 | without a counterpoise marker ahead, counter is unchanged |
| `GdataParserFacts.StepThermo` | dn_scripts/gaussian_result_exporter/gaussian_results.py:323-331 | a line not classified as thermochemistry leaves thermo unchanged |
| `GdataParserFacts.StepCounter` | dn_scripts/gaussian_result_exporter/gaussian_results.py:333-341 | a line not classified as counterpoise leaves counter unchanged |
| `GdataParserFacts.ParseWithoutBlocks` | dn_scripts/gaussian_result_exporter/gaussian_results.py:281-282 | thermo stays (None,)*8 and counter (None,)*5 unless their marker appears after the header |
| `GdataParserFacts.BlockOutcome` | dn_scripts/gaussian_result_exporter/gaussian_results.py:326-330 | a block is read whole exactly when it is readable, and then holds float of each of its lines cut at the stop character, in order |
| `GdataParserFacts.ThermoBranch` | dn_scripts/gaussian_result_exporter/gaussian_results.py:323-331 | the thermochemistry branch never halts, goes on exactly when its 8 lines hold values and the file goes on, and then sets thermo to those values and nothing else |
| `GdataParserFacts.CounterBranch` | dn_scripts/gaussian_result_exporter/gaussian_results.py:333-341 | the same for the counterpoise branch and its 5 values |
| `GdataParserFacts.ThermoBlockRead` | dn_scripts/gaussian_result_exporter/gaussian_results.py:323-331 | a thermochemistry block takes its 8 values from the marker line and the 7 after it, cut at '=' and '('; the next line is consumed unexamined; nothing else changes; it fails exactly when a value is missing or the file ends |
| `GdataParserFacts.CounterBlockRead` | dn_scripts/gaussian_result_exporter/gaussian_results.py:333-341 | the same for the 5 counterpoise values, cut at 'k' |
| `GdataParserFacts.ThermoNotOtherMarker` | dn_scripts/gaussian_result_exporter/gaussian_results.py:323 | a thermochemistry line matches no earlier marker and, outside a block, is classified as one |
| `GdataParserFacts.CounterNotOtherMarker` | dn_scripts/gaussian_result_exporter/gaussian_results.py:333 | a counterpoise line matches no earlier marker and, outside a block, is classified as one |
| `GdataReader.ReadBlockValues` | dn_scripts/gaussian_result_exporter/gaussian_results.py:326-330 | the block loop computes ReadBlock |
| `GdataReader.HandleLine` | dn_scripts/gaussian_result_exporter/gaussian_results.py:290-346 | the branch of the loop body for a line of a given kind computes Branch |
| `GdataReader.ParseLine` | dn_scripts/gaussian_result_exporter/gaussian_results.py:289-346 | the loop body, reading, stripping, classifying and handling one line, computes Step |
| `GdataReader.ParseLog` | dn_scripts/gaussian_result_exporter/gaussian_results.py:283-347 | the parsing loop computes Parse: fewer than 30 lines raise StopIteration, and every result is well formed |
| `GaussianResults.LabelParts` | dn_scripts/gaussian_result_exporter/gaussian_results.py:270-271 | the label components hold no '\\' |
| `GaussianResults.JoinedLabel` | dn_scripts/gaussian_result_exporter/gaussian_results.py:270-272 | the last depth components of the extension-stripped path joined by a separator (stated by the Label lemmas) |
| `GaussianResults.Label` | dn_scripts/gaussian_result_exporter/gaussian_results.py:270-272 | the label of Gdata (its properties are stated by LabelOfDepthZero, LabelOfPositiveDepth and LabelOfFullDepth) |
| `GaussianResults.LabelOfDepthZero` | dn_scripts/gaussian_result_exporter/gaussian_results.py:222-227 | depth 0 gives the whole extension-stripped path, not an empty label |
| `GaussianResults.LabelOfPositiveDepth` | dn_scripts/gaussian_result_exporter/gaussian_results.py:270-272 | depth 1 is the file name without extension; a positive depth leaves no '\\' |
| `GaussianResults.LabelOfFullDepth` | dn_scripts/gaussian_result_exporter/gaussian_results.py:270-272 | a depth covering every component equals depth 0 |
| `GaussianResults.Max` | dn_scripts/gaussian_result_exporter/gaussian_results.py:372 | max(indices) is one of them and no smaller than any |
| `GaussianResults.MaxBounds` | dn_scripts/gaussian_result_exporter/gaussian_results.py:372 | the bounds check on the maximum is a check on every index |
| `GaussianResults.SymbolsAt` | dn_scripts/gaussian_result_exporter/gaussian_results.py:371 | self.atomnames[step] raises IndexError exactly when step is out of range |
| `GaussianResults.DihedralEntryCases` | dn_scripts/gaussian_result_exporter/gaussian_results.py:353-404 | calc_dih yields (None, None) exactly when max(indices) >= the atom count; it yields a measured entry exactly when four indices each read an atom, wrapping negative ones, with their symbols and the dihedral of their coordinates; otherwise IndexError or ValueError |
| `GaussianResults.DistanceEntryCases` | dn_scripts/gaussian_result_exporter/gaussian_results.py:406-419 | the same for calc_dist with two indices and the distance |
| `GaussianResults.DihedralEntry` | dn_scripts/gaussian_result_exporter/gaussian_results.py:353-404 | the entry calc_dih appends (stated by DihedralEntryCases) |
| `GaussianResults.DistanceEntry` | dn_scripts/gaussian_result_exporter/gaussian_results.py:406-419 | the entry calc_dist appends (stated by DistanceEntryCases) |
| `GaussianResults.NeighbourIndicesSelect` | dn_scripts/gaussian_result_exporter/gaussian_results.py:434-439 | the listed atoms are, in increasing order, exactly those i != index (raw) with dist < threshold |
| `GaussianResults.ListingOfNeighbours` | dn_scripts/gaussian_result_exporter/gaussian_results.py:432-439 | the neighbour text is the "%s\t%.3f\t" of each listed atom, in order |
| `GaussianResults.SelfListing` | dn_scripts/gaussian_result_exporter/gaussian_results.py:431-439 | index -1 lists the selected atom itself when its distance to itself is below the threshold; a non-negative index never does |
| `GaussianResults.NeighbourEntryCases` | dn_scripts/gaussian_result_exporter/gaussian_results.py:421-441 | calc_nbr yields (None, None) exactly when max(index) >= the atom count and an entry exactly when one index reads an atom; otherwise IndexError or ValueError |
| `GaussianResults.NeighbourEntryListing` | dn_scripts/gaussian_result_exporter/gaussian_results.py:429-441 | the entry names the selected atom and holds the stripped texts of the selected neighbours |
| `GaussianResults.NeighbourEntry` | dn_scripts/gaussian_result_exporter/gaussian_results.py:421-441 | the entry calc_nbr appends (stated by NeighbourEntryCases and NeighbourEntryListing) |
| `GaussianResults.ListNeighbours` | dn_scripts/gaussian_result_exporter/gaussian_results.py:432-439 | the loop builds the neighbour text |
| `GaussianResults.Gdata.constructor` | dn_scripts/gaussian_result_exporter/gaussian_results.py:264-282 | the fields after a parse; the query lists start empty |
| `GaussianResults.Gdata.Load` | dn_scripts/gaussian_result_exporter/gaussian_results.py:245-351 | the object holds the parse's lists, label and empty query lists, or the parse's exception; the warning is printed exactly when OrderKept fails |
| `GaussianResults.Gdata.CalcDih` | dn_scripts/gaussian_result_exporter/gaussian_results.py:353-404 | appends exactly the entry DihedralEntry gives to dihedrals and changes no other field, or raises and changes nothing |
| `GaussianResults.Gdata.CalcDist` | dn_scripts/gaussian_result_exporter/gaussian_results.py:406-419 | the same for distance |
| `GaussianResults.Gdata.CalcNbr` | dn_scripts/gaussian_result_exporter/gaussian_results.py:421-441 | the same for neighbours |
| `GaussianResults.PickEach` | dn_scripts/gaussian_result_exporter/gaussian_results.py:448-465 | [xs[idx] for xs in lists] raises IndexError exactly when some list lacks idx |
| `GaussianResults.GetLabels` | dn_scripts/gaussian_result_exporter/gaussian_results.py:444-445 | one label per object, in order |
| `GaussianResults.GetCoordinates` | dn_scripts/gaussian_result_exporter/gaussian_results.py:448-449 | the snapshot at step of every object, or IndexError exactly when one lacks it |
| `GaussianResults.GetNeighbours` | dn_scripts/gaussian_result_exporter/gaussian_results.py:452-453 | the idx-th neighbour entry of every object, or IndexError |
| `GaussianResults.GetAtomnames` | dn_scripts/gaussian_result_exporter/gaussian_results.py:456-457 | the atomic numbers at step of every object, or IndexError |
| `GaussianResults.GetEnergies` | dn_scripts/gaussian_result_exporter/gaussian_results.py:460-461 | the energy at step of every object, or IndexError |
| `GaussianResults.GetDihedrals` | dn_scripts/gaussian_result_exporter/gaussian_results.py:464-465 | the idx-th dihedral entry of every object, or IndexError |
| `GaussianResults.GetThermo` | dn_scripts/gaussian_result_exporter/gaussian_results.py:468-469 | never fails; on loaded objects a rectangular table of width 8 |
| `GaussianResults.GetCounterpoise` | dn_scripts/gaussian_result_exporter/gaussian_results.py:471-472 | never fails; on loaded objects a rectangular table of width 5 |
| `GetResultsGaussian.StepNumber` | dn_scripts/gaussian_result_exporter/get_results_gaussian.py:267-268 | a read step number is int of the third token |
| `GetResultsGaussian.StepNumberCases` | dn_scripts/gaussian_result_exporter/get_results_gaussian.py:267-268 | the number is read exactly when the line has three tokens and the third is an int; otherwise IndexError exactly when there are fewer than three, else ValueError |
| `GetResultsGaussian.RowAtom` | dn_scripts/gaussian_result_exporter/get_results_gaussian.py:283 | a read atomic number is int of the second token of the row |
| `GetResultsGaussian.RowAtomCases` | dn_scripts/gaussian_result_exporter/get_results_gaussian.py:283 | the atomic number is read exactly when the row has two tokens and the second is an int; otherwise IndexError exactly when there are fewer than two, else ValueError |
| `GetResultsGaussian.ReadEnergiesCoordinates` | dn_scripts/gaussian_result_exporter/get_results_gaussian.py:256-297 | the loop computes ReadResults |
| `GetResultsGaussian.Examine` | dn_scripts/gaussian_result_exporter/get_results_gaussian.py:265-291 | one pass of the loop body (its effects are stated by ExamineStep, ExamineEnergies, ExamineRows, ExamineSnapshots, ExamineClosesBlock, ExamineAtoms and ExamineOrientation) |
| `GetResultsGaussian.Collect` | dn_scripts/gaussian_result_exporter/get_results_gaussian.py:265-291 | the loop from a line on (stated by CollectGo, StepStaysZero, AtomsFrozen and StoppedIgnoresRest) |
| `GetResultsGaussian.ReadResults` | dn_scripts/gaussian_result_exporter/get_results_gaussian.py:256-297 | the function's result (stated by ResultsTruncated and NoStepNoResults) |
| `GetResultsGaussian.CollectGo` | dn_scripts/gaussian_result_exporter/get_results_gaussian.py:265-291 | a pass that raises nothing hands its state to the next line; one that raises ends the loop with that error |
| `GetResultsGaussian.ExamineStep` | dn_scripts/gaussian_result_exporter/get_results_gaussian.py:266-273 | step never decreases; it changes only to the number of a " Step number" line exceeding it, and every such line sets it; the loop breaks exactly at one not exceeding it |
| `GetResultsGaussian.ExamineRows` | dn_scripts/gaussian_result_exporter/get_results_gaussian.py:278-284 | rows come only from non-" -----" lines after crd_start in an open block, as the raw tokens fields[3:6] |
| `GetResultsGaussian.ExamineSnapshots` | dn_scripts/gaussian_result_exporter/get_results_gaussian.py:285-288 | a snapshot is closed only by " -----" in an open block, and it is the rows since the block opened, after which the buffer is empty |
| `GetResultsGaussian.ExamineClosesBlock` | dn_scripts/gaussian_result_exporter/get_results_gaussian.py:285-288 | every " -----" line after crd_start in an open block closes it: the buffered rows become a snapshot, the buffer empties and reading stops |
| `GetResultsGaussian.ExamineAtoms` | dn_scripts/gaussian_result_exporter/get_results_gaussian.py:282-283 | atomic numbers are added only while step < 1, one per row, from its second token; every row read while step < 1 adds one or raises int()'s error |
| `GetResultsGaussian.ExamineEnergies` | dn_scripts/gaussian_result_exporter/get_results_gaussian.py:274-277 | energies grow only on an unstripped " SCF Done:  E(" line that is not a step line, by float of its fifth token; every such line appends it or raises its error |
| `GetResultsGaussian.ExamineOrientation` | dn_scripts/gaussian_result_exporter/get_results_gaussian.py:289-291 | crd_start and doReadCrd are set only by a line starting with the indented "Input orientation:" marker, to i + 4 and true; every such line sets them unless it is read as a row of a block already open |
| `GetResultsGaussian.AtomsFrozen` | dn_scripts/gaussian_result_exporter/get_results_gaussian.py:282-283 | from step 1 on no atomic number is added |
| `GetResultsGaussian.CollectKeepsAtomsAligned` | dn_scripts/gaussian_result_exporter/get_results_gaussian.py:278-288 | while step is 0 the loop keeps one atomic number per row read, closed or buffered |
| `GetResultsGaussian.AtomsPerRow` | dn_scripts/gaussian_result_exporter/get_results_gaussian.py:278-288 | after a loop that ends with step 0, atoms holds one atomic number per coordinate row read |
| `GetResultsGaussian.StepStaysZero` | dn_scripts/gaussian_result_exporter/get_results_gaussian.py:261-271 | without a " Step number" line step stays 0 |
| `GetResultsGaussian.NoStepNoResults` | dn_scripts/gaussian_result_exporter/get_results_gaussian.py:294-296 | without a " Step number" line, energies and coordinates come back empty |
| `GetResultsGaussian.ResultsTruncated` | dn_scripts/gaussian_result_exporter/get_results_gaussian.py:294-297 | energies and coordinates are the first min(len, step) of what was collected |
| `GetResultsGaussian.StepNonNegative` | dn_scripts/gaussian_result_exporter/get_results_gaussian.py:261-271 | the loop never lowers step |
| `GetResultsGaussian.StoppedIgnoresRest` | dn_scripts/gaussian_result_exporter/get_results_gaussian.py:269-273 | after the break no further line is read |
| `GetResultsGaussian.ReadStopsAtNonIncreasing` | dn_scripts/gaussian_result_exporter/get_results_gaussian.py:266-273 | what follows the first non-increasing step line never changes the result |
| `GetResultsGaussian.SpaceLabelOfDepthZero` | dn_scripts/gaussian_result_exporter/get_results_gaussian.py:30-31 | the space-joined label of depth 0 is the whole extension-stripped path |
| `GetResultsGaussian.SpaceLabel` | dn_scripts/gaussian_result_exporter/get_results_gaussian.py:30-31 | the label main builds, with ' ' as the separator (stated by SpaceLabelOfDepthZero) |

## Left out

- File system and I/O: `open`, `close`, `write`, `os.path.isfile`/`isdir`/`join`, `generate_paths`. A log file is the sequence of its lines. What `export_data` writes is returned as lines. The file-system checks are a parameter per attempt.
- Floating point: `float()` is the parameter `pf`. The dihedral formula (numpy, `arctan2`, `degrees`), the Euclidean distance, `"%.3f"` and `str` of a float are function parameters with no properties assumed. Being total, they also leave out numpy's shape behaviour on the shorter coordinate tuple of a row with fewer than six tokens. Depending on the lengths, numpy broadcasts a length-1 tuple, raises ValueError at the subtraction when the lengths differ otherwise (0 or 2 against 3, gaussian_results.py:382, 418, 437), or raises at `np.cross` (gaussian_results.py:401). DihedralEntry, DistanceEntry and NeighbourEntry yield an entry in every case.
- The element tables `atomnames2str` (module elements) and `symbols` (module constants_gaussian) are not part of this model. They are a parameter from atomic number to symbol, applied element by element.
- The `print` warnings. Only the atom-ordering warning is reported, as `Load`'s `warned` result.
- Command-line and interactive glue: `parse_args`, `ask_results`, `ask_dehidrals`, `ask_neighbours`, `ask_which_results`, `ask_which_dehidrals`, `check_input`, both `main` functions, `get_results_gaussian.export_data`, `get_results_gaussian.calc_dih`, and the disabled distance branch of `main`.
- PyText.ParseInt: accepts only an optional sign and ASCII digits, surrounded by whitespace. Python's `int` also accepts underscores between digits and non-ASCII decimal digits; those are not modelled.
- PyText.StripExtension: takes both '\\' and '/' as separators. Platform-specific details of `os.path.splitext` (drive letters, alternate separators) are not modelled.
- Python tuples and lists are not distinguished: `thermo` starts as a tuple and becomes a list when read; both are sequences here.
- GaussianResults.Gdata: the `calc_*` methods require `Valid()`, which `Load` establishes. The case where other code reassigns the coordinate or atom lists in between is not modelled.
- GaussianResults.Gdata: the `angles` list is created empty and never filled, as gaussian_results.py leaves it.
- Lines are given without a required line terminator. A trailing newline is whitespace, so `strip` and `split` treat it as Python does.
