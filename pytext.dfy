/** The parts of Python's str and list semantics that the scripts rely on:
    strip(), startswith(), split(), split(sep), join(), int(), negative indexing,
    the slices s[start:] and s[:end], and os.path.splitext(p)[0]. */
module PyText {
  import opened Base

  /** Python's str.isspace for one character (the characters str.split() and str.strip()
      treat as whitespace). */
  predicate IsSpace(c: char) {
    || ('\t' <= c <= '\r')                    // \t \n \x0b \x0c \r
    || ('\U{1C}' <= c <= '\U{1F}')                 // file, group, record and unit separators
    || c == ' ' || c == '\U{85}' || c == '\U{A0}' || c == '\U{1680}'
    || ('\U{2000}' <= c <= '\U{200A}')
    || c == '\U{2028}' || c == '\U{2029}' || c == '\U{202F}' || c == '\U{205F}' || c == '\U{3000}'
  }

  predicate NoSpace(w: string) {
    forall k :: 0 <= k < |w| ==> !IsSpace(w[k])
  }

  predicate StartsWith(s: string, prefix: string) {
    |prefix| <= |s| && s[..|prefix|] == prefix
  }

  /** s.lstrip() */
  function TrimStart(s: string): (r: string)
    ensures |r| <= |s| && r == s[|s| - |r|..]
    ensures r == [] || !IsSpace(r[0])
    ensures forall k :: 0 <= k < |s| - |r| ==> IsSpace(s[k])
    decreases |s|
  {
    if s != [] && IsSpace(s[0]) then TrimStart(s[1..]) else s
  }

  /** s.rstrip() */
  function TrimEnd(s: string): (r: string)
    ensures |r| <= |s| && r == s[..|r|]
    ensures r == [] || !IsSpace(r[|r| - 1])
    ensures forall k :: |r| <= k < |s| ==> IsSpace(s[k])
    decreases |s|
  {
    if s != [] && IsSpace(s[|s| - 1]) then TrimEnd(s[..|s| - 1]) else s
  }

  /** s.strip() */
  function Strip(s: string): string {
    TrimEnd(TrimStart(s))
  }

  /** strip() leaves no whitespace at either end. */
  lemma StripEnds(s: string)
    ensures Strip(s) == [] || (!IsSpace(Strip(s)[0]) && !IsSpace(Strip(s)[|Strip(s)| - 1]))
  {
    var t := TrimStart(s);
    assert Strip(s) != [] ==> Strip(s)[0] == t[0];
  }

  /** strip() keeps a contiguous part of s and removes only whitespace around it. */
  lemma StripSlice(s: string)
    ensures var a := |s| - |TrimStart(s)|;
            a + |Strip(s)| <= |s| && Strip(s) == s[a..a + |Strip(s)|] &&
            (forall k :: 0 <= k < a ==> IsSpace(s[k])) && (forall k :: a + |Strip(s)| <= k < |s| ==> IsSpace(s[k]))
  {
    var t := TrimStart(s);
    var r := TrimEnd(t);
    var a := |s| - |t|;
    assert t == s[a..];
    assert r == t[..|r|];
    forall k | a + |r| <= k < |s|
      ensures IsSpace(s[k])
    {
      assert s[k] == t[k - a] && |r| <= k - a < |t|;
    }
  }

  /** The end of the run of non-whitespace characters that starts at i. */
  function WordEnd(s: string, i: nat): (j: nat)
    requires i <= |s|
    ensures i <= j <= |s|
    ensures forall k :: i <= k < j ==> !IsSpace(s[k])
    ensures j == |s| || IsSpace(s[j])
    decreases |s| - i
  {
    if i < |s| && !IsSpace(s[i]) then WordEnd(s, i + 1) else i
  }

  /** s.split() with no argument: the maximal runs of non-whitespace characters, in order. */
  function Words(s: string): (r: seq<string>)
    ensures forall k :: 0 <= k < |r| ==> r[k] != [] && NoSpace(r[k])
    decreases |s|
  {
    var t := TrimStart(s);
    if t == [] then []
    else
      var j := WordEnd(t, 0);
      FirstWord(t, j);
      var rest := Words(t[j..]);
      WordsCons(t[..j], rest);
      [t[..j]] + rest
  }

  lemma WordsCons(w: string, rest: seq<string>)
    requires w != [] && NoSpace(w)
    requires forall k :: 0 <= k < |rest| ==> rest[k] != [] && NoSpace(rest[k])
    ensures forall k :: 0 <= k < |rest| + 1 ==> ([w] + rest)[k] != [] && NoSpace(([w] + rest)[k])
  {
    forall k | 0 <= k < |rest| + 1
      ensures ([w] + rest)[k] != [] && NoSpace(([w] + rest)[k])
    {
      if k > 0 {
        assert ([w] + rest)[k] == rest[k - 1];
      }
    }
  }

  /** Leading whitespace does not change what split() gives. */
  lemma WordsAfterSpace(w: string, s: string)
    requires forall k :: 0 <= k < |w| ==> IsSpace(w[k])
    ensures Words(w + s) == Words(s)
  {
    TrimStartAfterSpace(w, s);
    WordsOfTrim(w + s, s);
  }

  lemma {:induction false} TrimStartAfterSpace(w: string, s: string)
    requires forall k :: 0 <= k < |w| ==> IsSpace(w[k])
    ensures TrimStart(w + s) == TrimStart(s)
    decreases |w|
  {
    if w != [] {
      assert (w + s)[0] == w[0] && IsSpace(w[0]);
      assert (w + s)[1..] == w[1..] + s;
      assert TrimStart(w + s) == TrimStart(w[1..] + s);
      TrimStartAfterSpace(w[1..], s);
    } else {
      assert w + s == s;
    }
  }

  /** split() looks only at what lstrip() leaves. */
  lemma WordsOfTrim(a: string, b: string)
    requires TrimStart(a) == TrimStart(b)
    ensures Words(a) == Words(b)
  {
  }

  /** Every word is non-empty and holds no whitespace. */
  predicate AllWords(ws: seq<string>) {
    forall k :: 0 <= k < |ws| ==> ws[k] != [] && NoSpace(ws[k])
  }

  /** split() gives back the words " ".join put together, when none is empty or holds
      whitespace. */
  lemma {:induction false} WordsOfJoin(ws: seq<string>)
    requires AllWords(ws)
    ensures Words(Join(" ", ws)) == ws
    decreases |ws|
  {
    if |ws| == 1 {
      AllWordsTail(ws);
      WordsOfWord(ws[0], []);
      assert ws[0] + [] == ws[0];
    } else if |ws| > 1 {
      AllWordsTail(ws);
      WordsOfJoin(ws[1..]);
      JoinStep(ws);
    }
  }

  lemma AllWordsTail(ws: seq<string>)
    requires |ws| > 0 && AllWords(ws)
    ensures AllWords(ws[1..]) && ws[0] != [] && NoSpace(ws[0])
  {
    assert forall k :: 0 <= k < |ws| - 1 ==> ws[1..][k] == ws[k + 1];
  }

  /** One word more in front of a joined list is one word more in front of its split. */
  lemma JoinStep(ws: seq<string>)
    requires |ws| > 1 && ws[0] != [] && NoSpace(ws[0])
    requires Words(Join(" ", ws[1..])) == ws[1..]
    ensures Words(Join(" ", ws)) == ws
  {
    var rest := Join(" ", ws[1..]);
    JoinCons(" ", ws);
    WordsOfSpacedWord(ws[0], rest);
    assert ws == [ws[0]] + ws[1..];
  }

  lemma WordsOfSpacedWord(w: string, rest: string)
    requires w != [] && NoSpace(w)
    ensures Words(w + (" " + rest)) == [w] + Words(rest)
  {
    WordsOfWord(w, " " + rest);
    WordsAfterSpace(" ", rest);
  }

  lemma JoinCons(sep: string, parts: seq<string>)
    requires |parts| > 1
    ensures Join(sep, parts) == parts[0] + (sep + Join(sep, parts[1..]))
  {
  }

  /** A word followed by nothing or by whitespace is the first thing split() gives. */
  lemma WordsOfWord(w: string, s: string)
    requires w != [] && NoSpace(w) && (s == [] || IsSpace(s[0]))
    ensures Words(w + s) == [w] + Words(s)
  {
    var t := w + s;
    assert t[0] == w[0];
    assert TrimStart(t) == t;
    WordEndAt(t, |w|);
    assert t[..|w|] == w && t[|w|..] == s;
    WordsStep(t);
  }

  /** One unfolding of split() on a string that starts with a word. */
  lemma WordsStep(t: string)
    requires t != [] && TrimStart(t) == t
    ensures Words(t) == [t[..WordEnd(t, 0)]] + Words(t[WordEnd(t, 0)..])
  {
  }

  /** The run of non-whitespace characters from 0 ends at the first whitespace character. */
  lemma WordEndAt(t: string, j: nat)
    requires j <= |t| && (forall k :: 0 <= k < j ==> !IsSpace(t[k])) && (j == |t| || IsSpace(t[j]))
    ensures WordEnd(t, 0) == j
  {
  }

  lemma FirstWord(t: string, j: nat)
    requires t != [] && !IsSpace(t[0]) && j <= |t|
    requires forall k :: 0 <= k < j ==> !IsSpace(t[k])
    requires j == |t| || IsSpace(t[j])
    ensures 0 < j && NoSpace(t[..j])
  {
  }

  /** sep.join(parts) */
  function Join(sep: string, parts: seq<string>): string
    decreases |parts|
  {
    if |parts| == 0 then ""
    else if |parts| == 1 then parts[0]
    else parts[0] + sep + Join(sep, parts[1..])
  }

  function IndexOf(s: string, c: char): (i: nat)
    requires c in s
    ensures i < |s| && s[i] == c && c !in s[..i]
  {
    if s[0] == c then 0 else 1 + IndexOf(s[1..], c)
  }

  /** s.split(sep) for a one-character separator: never empty, no part holds sep, and
      joining the parts with sep gives s back. */
  function SplitOn(s: string, sep: char): (r: seq<string>)
    ensures |r| >= 1
    ensures forall k :: 0 <= k < |r| ==> sep !in r[k]
    ensures Join([sep], r) == s
    decreases |s|
  {
    if sep !in s then [s]
    else
      var i := IndexOf(s, sep);
      var rest := SplitOn(s[i + 1..], sep);
      assert Join([sep], [s[..i]] + rest) == s[..i] + [sep] + Join([sep], rest) by {
        assert ([s[..i]] + rest)[1..] == rest;
      }
      assert s == s[..i] + [sep] + s[i + 1..];
      [s[..i]] + rest
  }

  /** s.split(sep)[-1]: the text after the last occurrence of sep. */
  function AfterLast(s: string, sep: char): (r: string)
    ensures sep !in r
  {
    var parts := SplitOn(s, sep);
    parts[|parts| - 1]
  }

  /** s.split(sep)[0]: the text before the first occurrence of sep. */
  function BeforeFirst(s: string, sep: char): (r: string)
    ensures sep !in r && StartsWith(s, r)
  {
    if sep in s then s[..IndexOf(s, sep)] else s
  }

  lemma {:induction false} BeforeFirstIsFirstPart(s: string, sep: char)
    ensures BeforeFirst(s, sep) == SplitOn(s, sep)[0]
  {
  }

  // ---- int() ----

  predicate IsDigit(c: char) {
    '0' <= c <= '9'
  }

  predicate AllDigits(s: string) {
    forall k :: 0 <= k < |s| ==> IsDigit(s[k])
  }

  /** The value of a decimal digit string, most significant digit first. */
  function DigitsValue(ds: string): nat
    requires AllDigits(ds)
    decreases |ds|
  {
    if ds == [] then 0
    else 10 * DigitsValue(ds[..|ds| - 1]) + (ds[|ds| - 1] - '0') as nat
  }

  /** int(s) for s an optionally signed run of ASCII digits, surrounded by optional
      whitespace; None where Python raises ValueError. */
  function ParseInt(s: string): Option<int> {
    var t := Strip(s);
    if t == [] then None
    else
      var sign := if t[0] == '-' then -1 else 1;
      var ds := if t[0] == '-' || t[0] == '+' then t[1..] else t;
      if ds != [] && AllDigits(ds) then Some(sign * DigitsValue(ds)) else None
  }

  /** str(n) for a non-negative integer. */
  function NatToString(n: nat): (r: string)
    ensures r != [] && AllDigits(r)
  {
    if n < 10 then [('0' as int + n) as char]
    else NatToString(n / 10) + [('0' as int + n % 10) as char]
  }

  /** str(n) */
  function IntToString(n: int): (r: string)
    ensures r != []
  {
    if n < 0 then "-" + NatToString(-n) else NatToString(n)
  }

  lemma {:induction false} DigitsOfNatToString(n: nat)
    ensures DigitsValue(NatToString(n)) == n
  {
    if n >= 10 {
      var s := NatToString(n);
      DigitsOfNatToString(n / 10);
      assert s[..|s| - 1] == NatToString(n / 10);
    }
  }

  lemma StripOfNoSpace(s: string)
    requires s != [] && NoSpace(s)
    ensures Strip(s) == s
  {
  }

  /** int() reads back what str() writes. */
  lemma {:induction false} ParseIntOfIntToString(n: int)
    ensures ParseInt(IntToString(n)) == Some(n)
  {
    var s := IntToString(n);
    var m: nat := if n < 0 then -n else n;
    DigitsOfNatToString(m);
    StripOfNoSpace(s);
    if n < 0 {
      assert s[1..] == NatToString(m);
    } else {
      assert s == NatToString(m);
    }
  }

  // ---- Python sequence indexing ----

  /** s[i] does not raise IndexError: -len(s) <= i < len(s). */
  predicate IndexOk(i: int, n: int) {
    -n <= i < n
  }

  /** The position s[i] reads, negative indices counting from the end. */
  function Wrap(i: int, n: int): (k: int)
    requires IndexOk(i, n)
    ensures 0 <= k < n
    ensures k == i || k == n + i
  {
    if i < 0 then n + i else i
  }

  /** s[start:] */
  function SliceFrom<T>(s: seq<T>, start: int): (r: seq<T>)
    ensures |r| <= |s| && r == s[|s| - |r|..]
    ensures start >= 0 ==> |r| == if start <= |s| then |s| - start else 0
    ensures start < 0 ==> |r| == if -start <= |s| then -start else |s|
  {
    if start >= 0 then (if start <= |s| then s[start..] else [])
    else if -start <= |s| then s[|s| + start..]
    else s
  }

  /** s[:end] */
  function SliceTo<T>(s: seq<T>, end: int): (r: seq<T>)
    ensures |r| <= |s| && r == s[..|r|]
    ensures end >= 0 ==> |r| == if end <= |s| then end else |s|
    ensures end < 0 ==> |r| == if -end <= |s| then |s| + end else 0
  {
    if end >= 0 then (if end <= |s| then s[..end] else s)
    else if -end <= |s| then s[..|s| + end]
    else []
  }

  // ---- os.path.splitext(p)[0] ----

  /** p.rfind(c) */
  function RFind(s: string, c: char): (i: int)
    ensures -1 <= i < |s|
    ensures i >= 0 ==> s[i] == c
    ensures forall k :: i < k < |s| ==> s[k] != c
    decreases |s|
  {
    if s == [] then -1
    else if s[|s| - 1] == c then |s| - 1
    else RFind(s[..|s| - 1], c)
  }

  predicate IsSep(c: char) {
    c == '\\' || c == '/'
  }

  /** No '.' in p from i on. */
  predicate DotFree(p: string, i: nat) {
    forall m :: i <= m < |p| ==> p[m] != '.'
  }

  /** No separator in p from i on: p[i..] lies within the last path component. */
  predicate SepFree(p: string, i: nat) {
    forall m :: i <= m < |p| ==> !IsSep(p[m])
  }

  /** os.path.splitext(p)[0] with '\\' and '/' as separators: the extension is the text from
      the last '.' of the last path component, unless that component is only dots up to it. */
  function StripExtension(p: string): (r: string)
    ensures |r| <= |p| && r == p[..|r|]
    ensures r != p ==> p[|r|] == '.' && DotFree(p, |r| + 1) && SepFree(p, |r|)
    ensures r != p ==> exists k :: 0 <= k < |r| && p[k] != '.' && SepFree(p, k)
    ensures forall d, k :: 0 <= k < d < |p| && p[d] == '.' && DotFree(p, d + 1) && p[k] != '.' && SepFree(p, k) ==> r == p[..d]
  {
    var bs := RFind(p, '\\');
    var fs := RFind(p, '/');
    var sepIndex := if bs > fs then bs else fs;
    var dotIndex := RFind(p, '.');
    if dotIndex > sepIndex && exists k | sepIndex + 1 <= k < dotIndex :: p[k] != '.'
    then p[..dotIndex]
    else p
  }
}
