/**
 * The pieces of Python's `str` behaviour the retrieval core relies on:
 * whitespace, `strip()`, `lower()`, `replace('\n', ' ')`, `split(sep)`,
 * `split()`, `join`, iteration over the lines of a file, and the three kinds
 * of regular-expression search the Cranfield parsers perform.
 */
module Text {
  import opened Wrappers

  // ---------------------------------------------------------------------------
  // Characters
  // ---------------------------------------------------------------------------

  /** Python's `str.isspace()`: the characters `strip()` and `split()` remove. */
  predicate IsSpace(c: char) {
    || ('\t' <= c <= '\r')            // tab, line feed, vertical tab, form feed, carriage return
    || ('\U{1C}' <= c <= ' ')         // the four information separators and the space
    || c == '\U{85}' || c == '\U{A0}' || c == '\U{1680}'
    || ('\U{2000}' <= c <= '\U{200A}')
    || c == '\U{2028}' || c == '\U{2029}' || c == '\U{202F}' || c == '\U{205F}' || c == '\U{3000}'
  }

  /** The ASCII decimal digits `0`-`9`. */
  predicate IsDigit(c: char) {
    '0' <= c <= '9'
  }

  predicate IsUpper(c: char) {
    'A' <= c <= 'Z'
  }

  function LowerChar(c: char): (r: char)
    ensures !IsUpper(r)
    ensures IsUpper(c) ==> r as int == c as int + ('a' as int - 'A' as int)
    ensures !IsUpper(c) ==> r == c
    ensures IsSpace(r) <==> IsSpace(c)
  {
    if IsUpper(c) then (c as int + 32) as char else c
  }

  // ---------------------------------------------------------------------------
  // lower(), strip(), replace('\n', ' ')
  // ---------------------------------------------------------------------------

  /** `s.lower()` on ASCII letters; every other character is kept. */
  function Lower(s: string): (r: string)
    ensures |r| == |s|
    ensures forall i :: 0 <= i < |r| ==> !IsUpper(r[i])
    ensures forall i :: 0 <= i < |s| && IsUpper(s[i]) ==> r[i] as int == s[i] as int + ('a' as int - 'A' as int)
    ensures forall i :: 0 <= i < |s| && !IsUpper(s[i]) ==> r[i] == s[i]
    ensures forall i :: 0 <= i < |s| ==> (IsSpace(r[i]) <==> IsSpace(s[i]))
  {
    seq(|s|, i requires 0 <= i < |s| => LowerChar(s[i]))
  }

  /** The first index from `i` on that holds no whitespace, or the end. */
  function SkipSpace(s: string, i: nat): (j: nat)
    requires i <= |s|
    ensures i <= j <= |s|
    ensures forall m :: i <= m < j ==> IsSpace(s[m])
    ensures j == |s| || !IsSpace(s[j])
    decreases |s| - i
  {
    if i < |s| && IsSpace(s[i]) then SkipSpace(s, i + 1) else i
  }

  /** The first index from `i` on that holds whitespace, or the end. */
  function SkipWord(s: string, i: nat): (j: nat)
    requires i <= |s|
    ensures i <= j <= |s|
    ensures forall m :: i <= m < j ==> !IsSpace(s[m])
    ensures j == |s| || IsSpace(s[j])
    decreases |s| - i
  {
    if i < |s| && !IsSpace(s[i]) then SkipWord(s, i + 1) else i
  }

  /** The end of `s[lo..e]` once the whitespace at its end is dropped. */
  function TrimEnd(s: string, lo: nat, e: nat): (r: nat)
    requires lo <= e <= |s|
    ensures lo <= r <= e
    ensures forall m :: r <= m < e ==> IsSpace(s[m])
    ensures r == lo || !IsSpace(s[r - 1])
  {
    if e > lo && IsSpace(s[e - 1]) then TrimEnd(s, lo, e - 1) else e
  }

  /** `SkipSpace` is the only index with its two properties. */
  lemma {:induction false} SkipSpaceUnique(s: string, i: nat, j: nat)
    requires i <= j <= |s|
    requires forall m :: i <= m < j ==> IsSpace(s[m])
    requires j == |s| || !IsSpace(s[j])
    ensures SkipSpace(s, i) == j
    decreases j - i
  {
    if i < j {
      assert IsSpace(s[i]);
      SkipSpaceUnique(s, i + 1, j);
    }
  }

  /** `SkipWord` is the only index with its two properties. */
  lemma {:induction false} SkipWordUnique(s: string, i: nat, j: nat)
    requires i <= j <= |s|
    requires forall m :: i <= m < j ==> !IsSpace(s[m])
    requires j == |s| || IsSpace(s[j])
    ensures SkipWord(s, i) == j
    decreases j - i
  {
    if i < j {
      assert !IsSpace(s[i]);
      SkipWordUnique(s, i + 1, j);
    }
  }

  /** Neither end of `s` is whitespace. */
  predicate Trimmed(s: string) {
    s == [] || (!IsSpace(s[0]) && !IsSpace(s[|s| - 1]))
  }

  /** `s[a..b]` is what is left of `s` once the whitespace at both ends is removed. */
  predicate StrippedAt(s: string, a: int, b: int) {
    && 0 <= a <= b <= |s|
    && (forall i :: 0 <= i < a ==> IsSpace(s[i]))
    && (forall i :: b <= i < |s| ==> IsSpace(s[i]))
    && Trimmed(s[a..b])
  }

  /** `s.strip()`: `s` without the whitespace at both of its ends. */
  function Strip(s: string): (r: string)
    ensures Trimmed(r)
    ensures exists a, b :: StrippedAt(s, a, b) && r == s[a..b]
  {
    var a := SkipSpace(s, 0);
    var b := TrimEnd(s, a, |s|);
    assert StrippedAt(s, a, b);
    s[a..b]
  }

  lemma StripTrimmed(s: string)
    requires Trimmed(s)
    ensures Strip(s) == s
  {
    if s != [] {
      SkipSpaceUnique(s, 0, 0);
      assert TrimEnd(s, 0, |s|) == |s|;
    }
    assert s[0..|s|] == s;
  }

  /** `s.replace('\n', ' ')`. */
  function ReplaceNewlines(s: string): (r: string)
    ensures |r| == |s|
    ensures '\n' !in r
    ensures forall i :: 0 <= i < |s| && s[i] != '\n' ==> r[i] == s[i]
    ensures forall i :: 0 <= i < |s| && s[i] == '\n' ==> r[i] == ' '
  {
    seq(|s|, i requires 0 <= i < |s| => if s[i] == '\n' then ' ' else s[i])
  }

  /** A field as the parsers store it: no line breaks, no whitespace at either end. */
  predicate IsCleanField(s: string) {
    '\n' !in s && Trimmed(s)
  }

  /**
   * `s.strip().replace('\n', ' ')`: strip happens first, so the line breaks
   * that become spaces are interior ones and the result is still trimmed.
   */
  function CleanField(s: string): (r: string)
    ensures IsCleanField(r)
    ensures |r| == |Strip(s)|
  {
    var t := Strip(s);
    var r := ReplaceNewlines(t);
    assert t != [] ==> r[0] == t[0] && r[|r| - 1] == t[|t| - 1];
    r
  }

  // ---------------------------------------------------------------------------
  // Substring search and str.split(sep) / str.join
  // ---------------------------------------------------------------------------

  /** `pat` occurs in `s` starting at index `i`. */
  predicate OccursAt(s: string, pat: string, i: int) {
    0 <= i && i + |pat| <= |s| && s[i..i + |pat|] == pat
  }

  /** `s.find(pat, from)`: the first occurrence of `pat` at or after `from`. */
  function Find(s: string, pat: string, from: nat): (r: Option<nat>)
    ensures r.Some? ==> from <= r.value && OccursAt(s, pat, r.value)
    ensures r.Some? ==> forall j :: from <= j < r.value ==> !OccursAt(s, pat, j)
    ensures r.None? ==> forall j :: from <= j ==> !OccursAt(s, pat, j)
    decreases |s| - from
  {
    if from + |pat| > |s| then None
    else if s[from..from + |pat|] == pat then Some(from)
    else Find(s, pat, from + 1)
  }

  /** The total length of the items. */
  function LengthSum(xs: seq<string>): nat {
    if xs == [] then 0 else |xs[0]| + LengthSum(xs[1..])
  }

  /** `sep.join(xs)`: the items, in order, with `sep` between each two. */
  function Join(xs: seq<string>, sep: string): (r: string)
    ensures xs != [] ==> |r| == LengthSum(xs) + (|xs| - 1) * |sep|
    ensures xs != [] ==> r[..|xs[0]|] == xs[0]
    ensures xs == [] ==> r == []
  {
    if xs == [] then []
    else if |xs| == 1 then xs[0]
    else xs[0] + sep + Join(xs[1..], sep)
  }

  /** `s.split(sep)` for a non-empty separator: cut at every occurrence, scanning left to right. */
  function Split(s: string, sep: string): (r: seq<string>)
    requires sep != []
    ensures |r| >= 1
    ensures |r| == 1 <==> forall j :: !OccursAt(s, sep, j)
    decreases |s|
  {
    match Find(s, sep, 0)
    case None => [s]
    case Some(i) => [s[..i]] + Split(s[i + |sep|..], sep)
  }

  lemma OccursInPrefix(s: string, pat: string, n: nat, j: int)
    requires n <= |s| && OccursAt(s[..n], pat, j)
    ensures OccursAt(s, pat, j)
  {
    assert s[..n][j..j + |pat|] == s[j..j + |pat|];
  }

  /** `s` is the part before `i`, the `n` characters from `i` on, and the rest. */
  lemma Cut(s: string, i: nat, n: nat)
    requires i + n <= |s|
    ensures s == s[..i] + s[i..i + n] + s[i + n..]
  {
  }

  lemma JoinCons(x: string, tail: seq<string>, sep: string)
    requires tail != []
    ensures Join([x] + tail, sep) == x + sep + Join(tail, sep)
  {
    assert ([x] + tail)[1..] == tail;
  }

  /** Splitting and re-joining with the same separator gives back the string. */
  lemma {:induction false} SplitJoin(s: string, sep: string)
    requires sep != []
    ensures Join(Split(s, sep), sep) == s
    decreases |s|
  {
    var found := Find(s, sep, 0);
    if found.Some? {
      var i := found.value;
      var rest := s[i + |sep|..];
      SplitJoin(rest, sep);
      JoinCons(s[..i], Split(rest, sep), sep);
      Cut(s, i, |sep|);
    }
  }

  /** No piece of a split contains the separator. */
  lemma {:induction false} SplitPiecesFree(s: string, sep: string)
    requires sep != []
    ensures forall k, j :: 0 <= k < |Split(s, sep)| ==> !OccursAt(Split(s, sep)[k], sep, j)
    decreases |s|
  {
    match Find(s, sep, 0)
    case None =>
    case Some(i) =>
      var rest := s[i + |sep|..];
      SplitPiecesFree(rest, sep);
      forall j | OccursAt(s[..i], sep, j)
        ensures false
      {
        OccursInPrefix(s, sep, i, j);
      }
      assert Split(s, sep) == [s[..i]] + Split(rest, sep);
  }

  // ---------------------------------------------------------------------------
  // str.split() with no argument
  // ---------------------------------------------------------------------------

  /** A non-empty run of non-whitespace characters. */
  predicate IsWord(w: string) {
    w != [] && forall i :: 0 <= i < |w| ==> !IsSpace(w[i])
  }

  /** `s.split()`: the maximal runs of non-whitespace characters, in order. */
  function Fields(s: string): (r: seq<string>)
    ensures forall k :: 0 <= k < |r| ==> IsWord(r[k])
    decreases |s|
  {
    var a := SkipSpace(s, 0);
    if a == |s| then []
    else
      var b := SkipWord(s, a);
      [s[a..b]] + Fields(s[b..])
  }

  /** Leading whitespace in front moves the first non-whitespace index by one. */
  lemma SkipSpaceAfterSpace(c: char, x: string)
    requires IsSpace(c)
    ensures SkipSpace([c] + x, 0) == SkipSpace(x, 0) + 1
  {
    var y := [c] + x;
    var a := SkipSpace(x, 0);
    forall m | 0 < m < a + 1
      ensures IsSpace(y[m])
    {
      assert y[m] == x[m - 1];
    }
    if a < |x| {
      assert y[a + 1] == x[a];
    }
    SkipSpaceUnique(y, 0, a + 1);
  }

  /** A character in front moves the end of a word by one. */
  lemma SkipWordAfterCons(c: char, x: string, a: nat)
    requires a <= |x|
    ensures SkipWord([c] + x, a + 1) == SkipWord(x, a) + 1
  {
    var y := [c] + x;
    var b := SkipWord(x, a);
    forall m | a + 1 <= m < b + 1
      ensures !IsSpace(y[m])
    {
      assert y[m] == x[m - 1];
    }
    if b < |x| {
      assert y[b + 1] == x[b];
    }
    SkipWordUnique(y, a + 1, b + 1);
  }

  /** `Fields` of a string with a word starting at `a` and ending at `b`. */
  lemma FieldsUnfold(s: string, a: nat, b: nat)
    requires a < |s| && SkipSpace(s, 0) == a && SkipWord(s, a) == b
    ensures Fields(s) == [s[a..b]] + Fields(s[b..])
  {
  }

  /** The first word of `[c] + x`, for a whitespace `c`, is the first word of `x`. */
  lemma FirstFieldAfterSpace(c: char, x: string, a: nat, b: nat)
    requires IsSpace(c) && a < |x| && SkipSpace(x, 0) == a && SkipWord(x, a) == b
    ensures Fields([c] + x) == [x[a..b]] + Fields(x[b..])
  {
    var y := [c] + x;
    SkipSpaceAfterSpace(c, x);
    SkipWordAfterCons(c, x, a);
    FieldsUnfold(y, a + 1, b + 1);
    assert y[a + 1..b + 1] == x[a..b];
    assert y[b + 1..] == x[b..];
  }

  lemma FieldsAfterSpace(c: char, x: string)
    requires IsSpace(c)
    ensures Fields([c] + x) == Fields(x)
  {
    var a := SkipSpace(x, 0);
    if a < |x| {
      var b := SkipWord(x, a);
      FirstFieldAfterSpace(c, x, a, b);
      FieldsUnfold(x, a, b);
    } else {
      SkipSpaceAfterSpace(c, x);
    }
  }

  /** Every character of `s` is whitespace. */
  predicate AllSpace(s: string) {
    forall i :: 0 <= i < |s| ==> IsSpace(s[i])
  }

  /**
   * `ws` are the maximal runs of non-whitespace characters of `s`, in order:
   * `s` is some whitespace, then the word `ws[0]`, then whitespace or the
   * end, and what follows the word splits into the rest of `ws`; with no
   * words, `s` is all whitespace.
   */
  ghost predicate SplitsInto(s: string, ws: seq<string>)
    decreases |ws|
  {
    if ws == [] then AllSpace(s)
    else
      exists a, b :: && 0 <= a < b <= |s|
                     && AllSpace(s[..a])
                     && s[a..b] == ws[0]
                     && IsWord(ws[0])
                     && (b == |s| || IsSpace(s[b]))
                     && SplitsInto(s[b..], ws[1..])
  }

  /** `split()` returns the maximal non-whitespace runs of its input, in order. */
  lemma {:induction false} FieldsSplits(s: string)
    ensures SplitsInto(s, Fields(s))
    decreases |s|
  {
    var a := SkipSpace(s, 0);
    if a < |s| {
      var b := SkipWord(s, a);
      FieldsUnfold(s, a, b);
      FieldsSplits(s[b..]);
      var ws := Fields(s);
      assert ws[0] == s[a..b] && ws[1..] == Fields(s[b..]);
      assert AllSpace(s[..a]);
      assert IsWord(ws[0]);
    }
  }

  /** A word after leading whitespace, ended by whitespace or the end, is the first field. */
  lemma FirstWordAt(s: string, a: nat, b: nat)
    requires a < b <= |s| && AllSpace(s[..a]) && IsWord(s[a..b]) && (b == |s| || IsSpace(s[b]))
    ensures Fields(s) == [s[a..b]] + Fields(s[b..])
  {
    forall m | 0 <= m < a
      ensures IsSpace(s[m])
    {
      assert s[..a][m] == s[m];
    }
    forall m | a <= m < b
      ensures !IsSpace(s[m])
    {
      assert s[m] == s[a..b][m - a];
    }
    SkipSpaceUnique(s, 0, a);
    SkipWordUnique(s, a, b);
    FieldsUnfold(s, a, b);
  }

  /** The maximal non-whitespace runs are unique: any splitting of `s` into them is `split()`. */
  lemma {:induction false} FieldsUnique(s: string, ws: seq<string>)
    requires SplitsInto(s, ws)
    ensures ws == Fields(s)
    decreases |ws|
  {
    if ws == [] {
      SkipSpaceUnique(s, 0, |s|);
    } else {
      var a, b :| && 0 <= a < b <= |s|
                  && AllSpace(s[..a])
                  && s[a..b] == ws[0]
                  && IsWord(ws[0])
                  && (b == |s| || IsSpace(s[b]))
                  && SplitsInto(s[b..], ws[1..]);
      FirstWordAt(s, a, b);
      FieldsUnique(s[b..], ws[1..]);
      assert ws == [ws[0]] + ws[1..];
    }
  }

  lemma FieldsAfterWord(w: string, rest: string)
    requires IsWord(w) && (rest == [] || IsSpace(rest[0]))
    ensures Fields(w + rest) == [w] + Fields(rest)
  {
    var y := w + rest;
    SkipSpaceUnique(y, 0, 0);
    SkipWordUnique(y, 0, |w|);
    assert y[0..|w|] == w;
    assert y[|w|..] == rest;
  }

  lemma JoinSpaceCons(ws: seq<string>)
    requires |ws| > 1
    ensures Join(ws, " ") == ws[0] + ([' '] + Join(ws[1..], " "))
  {
  }

  lemma FieldsOfJoinStep(ws: seq<string>)
    requires |ws| > 1 && IsWord(ws[0])
    requires |ws| > 1 && Fields(Join(ws[1..], " ")) == ws[1..]
    ensures Fields(Join(ws, " ")) == ws
  {
    var w, tail := ws[0], Join(ws[1..], " ");
    calc {
      Fields(Join(ws, " "));
      { JoinSpaceCons(ws); }
      Fields(w + ([' '] + tail));
      { FieldsAfterWord(w, [' '] + tail); }
      [w] + Fields([' '] + tail);
      { FieldsAfterSpace(' ', tail); }
      [w] + ws[1..];
    }
    assert ws == [w] + ws[1..];
  }

  /** Joining words with single spaces and splitting on whitespace gives the words back. */
  lemma {:induction false} FieldsOfJoin(ws: seq<string>)
    requires forall k :: 0 <= k < |ws| ==> IsWord(ws[k])
    ensures Fields(Join(ws, " ")) == ws
  {
    if |ws| == 1 {
      FieldsAfterWord(ws[0], []);
      assert ws[0] + [] == ws[0];
    } else if |ws| > 1 {
      FieldsOfJoin(ws[1..]);
      FieldsOfJoinStep(ws);
    }
  }

  /** Joining non-empty items gives the empty string exactly when there are none. */
  lemma {:induction false} JoinEmpty(xs: seq<string>, sep: string)
    requires forall k :: 0 <= k < |xs| ==> xs[k] != []
    ensures Join(xs, sep) == [] <==> xs == []
  {
    if |xs| > 1 {
      assert |Join(xs, sep)| >= |xs[0]|;
    }
  }

  // ---------------------------------------------------------------------------
  // Lines of a text file
  // ---------------------------------------------------------------------------

  function Concat(xs: seq<string>): string {
    if xs == [] then [] else xs[0] + Concat(xs[1..])
  }

  /** The length of the first line of a non-empty file: up to and including its first '\n'. */
  function LineLength(s: string): (n: nat)
    requires s != []
    ensures 1 <= n <= |s|
    ensures forall i :: 0 <= i < n - 1 ==> s[i] != '\n'
    ensures n < |s| ==> s[n - 1] == '\n'
  {
    if s[0] == '\n' || |s| == 1 then 1 else 1 + LineLength(s[1..])
  }

  /**
   * `for line in f`: each line keeps its terminating '\n'; the last line may
   * lack one; an empty file has no lines.
   */
  function Lines(s: string): (r: seq<string>)
    ensures r == [] <==> s == []
    ensures |r| <= |s|
    decreases |s|
  {
    if s == [] then []
    else
      var n := LineLength(s);
      [s[..n]] + Lines(s[n..])
  }

  /**
   * A line of a file: non-empty, with a '\n' only as its last character,
   * and ending in one unless it is the last line.
   */
  predicate IsLine(line: string, last: bool) {
    && line != []
    && (forall i :: 0 <= i < |line| - 1 ==> line[i] != '\n')
    && (!last ==> line[|line| - 1] == '\n')
  }

  /** Every line has the shape of a line, and only the last may lack its '\n'. */
  lemma {:induction false} LinesShape(s: string)
    ensures forall k :: 0 <= k < |Lines(s)| ==> IsLine(Lines(s)[k], k == |Lines(s)| - 1)
    decreases |s|
  {
    if s != [] {
      var n := LineLength(s);
      var rest := Lines(s[n..]);
      LinesShape(s[n..]);
      var r := Lines(s);
      assert r == [s[..n]] + rest;
      assert IsLine(r[0], 0 == |r| - 1);
      forall k | 0 < k < |r|
        ensures IsLine(r[k], k == |r| - 1)
      {
        assert r[k] == rest[k - 1];
      }
    }
  }

  lemma ConcatCons(x: string, xs: seq<string>)
    ensures Concat([x] + xs) == x + Concat(xs)
  {
    assert ([x] + xs)[1..] == xs;
  }

  /** The lines of a file, concatenated, are the file. */
  lemma {:induction false} LinesConcat(s: string)
    ensures Concat(Lines(s)) == s
    decreases |s|
  {
    if s != [] {
      var n := LineLength(s);
      var rest := Lines(s[n..]);
      assert Lines(s) == [s[..n]] + rest;
      calc {
        Concat(Lines(s));
        { ConcatCons(s[..n], rest); }
        s[..n] + Concat(rest);
        { LinesConcat(s[n..]); }
        s[..n] + s[n..];
      }
      assert s[..n] + s[n..] == s;
    }
  }

  // ---------------------------------------------------------------------------
  // The regular-expression searches of the parsers
  // ---------------------------------------------------------------------------

  predicate IsNumeral(s: string) {
    s != [] && forall i :: 0 <= i < |s| ==> IsDigit(s[i])
  }

  /** `s[a..b]` is the leftmost run of digits in `s`, taken as long as it goes. */
  predicate FirstNumberAt(s: string, a: int, b: int) {
    && 0 <= a < b <= |s|
    && (forall i :: 0 <= i < a ==> !IsDigit(s[i]))
    && (forall i :: a <= i < b ==> IsDigit(s[i]))
    && (b == |s| || !IsDigit(s[b]))
  }

  function DigitRunEnd(s: string, i: nat): (j: nat)
    requires i <= |s|
    ensures i <= j <= |s|
    ensures forall m :: i <= m < j ==> IsDigit(s[m])
    ensures j == |s| || !IsDigit(s[j])
    decreases |s| - i
  {
    if i < |s| && IsDigit(s[i]) then DigitRunEnd(s, i + 1) else i
  }

  function FirstDigitAt(s: string, from: nat): (r: Option<nat>)
    ensures r.Some? ==> from <= r.value < |s| && IsDigit(s[r.value])
    ensures r.Some? ==> forall j :: from <= j < r.value ==> !IsDigit(s[j])
    ensures r.None? ==> forall j :: from <= j < |s| ==> !IsDigit(s[j])
    decreases |s| - from
  {
    if from >= |s| then None
    else if IsDigit(s[from]) then Some(from)
    else FirstDigitAt(s, from + 1)
  }

  /**
   * `re.search(r'(\d+)', s).group(1)`: the leftmost run of digits, taken as
   * long as it goes; None when `s` has no digit at all.
   */
  function FirstNumber(s: string): (r: Option<string>)
    ensures r.None? <==> forall i :: 0 <= i < |s| ==> !IsDigit(s[i])
    ensures r.Some? ==> IsNumeral(r.value)
    ensures r.Some? ==> exists a, b :: FirstNumberAt(s, a, b) && r.value == s[a..b]
  {
    match FirstDigitAt(s, 0)
    case None => None
    case Some(a) =>
      var b := DigitRunEnd(s, a);
      assert FirstNumberAt(s, a, b);
      Some(s[a..b])
  }

  /** `open`, then at least nothing, then `close`: `open` at `p` and `close` at `q`. */
  predicate EnclosedAt(s: string, open: string, close: string, p: int, q: int) {
    OccursAt(s, open, p) && p + |open| <= q && OccursAt(s, close, q)
  }

  /**
   * Where `re.search(open + '(.*?)' + close, s, re.S)` matches: the leftmost
   * start, and for it the shortest group. The result is the pair (start of
   * `open`, start of `close`).
   */
  function EnclosedMatch(s: string, open: string, close: string): (r: Option<(nat, nat)>)
    ensures r.Some? ==> EnclosedAt(s, open, close, r.value.0, r.value.1)
    ensures r.Some? ==> forall p, q :: EnclosedAt(s, open, close, p, q) ==>
                          r.value.0 < p || (r.value.0 == p && r.value.1 <= q)
    ensures r.None? <==> forall p, q :: !EnclosedAt(s, open, close, p, q)
  {
    match Find(s, open, 0)
    case None => None
    case Some(p) =>
      match Find(s, close, p + |open|)
      case None => None
      case Some(q) =>
        assert EnclosedAt(s, open, close, p, q);
        Some((p, q))
  }

  /** The group of that search. */
  function Enclosed(s: string, open: string, close: string): (r: Option<string>)
    ensures r.Some? <==> exists p, q :: EnclosedAt(s, open, close, p, q)
  {
    match EnclosedMatch(s, open, close)
    case None => None
    case Some((p, q)) => Some(s[p + |open|..q])
  }

  /** Python's `$` without MULTILINE: the end, or just before a final '\n'. */
  predicate EndAnchorAt(s: string, e: int) {
    e == |s| || (e == |s| - 1 && 0 <= e && s[e] == '\n')
  }

  predicate TrailingAt(s: string, open: string, p: int, e: int) {
    OccursAt(s, open, p) && p + |open| <= e && EndAnchorAt(s, e)
  }

  /**
   * Where `re.search(open + '(.*?)$', s, re.S)` matches: the leftmost `open`,
   * and the group running to the first position at which `$` holds.
   */
  function TrailingMatch(s: string, open: string): (r: Option<(nat, nat)>)
    ensures r.Some? ==> TrailingAt(s, open, r.value.0, r.value.1)
    ensures r.Some? ==> forall p, e :: TrailingAt(s, open, p, e) ==>
                          r.value.0 < p || (r.value.0 == p && r.value.1 <= e)
    ensures r.None? <==> forall p :: !OccursAt(s, open, p)
  {
    match Find(s, open, 0)
    case None => None
    case Some(p) =>
      var e := if |s| > 0 && s[|s| - 1] == '\n' && p + |open| <= |s| - 1 then |s| - 1 else |s|;
      Some((p, e))
  }

  /** The group of that search. */
  function Trailing(s: string, open: string): (r: Option<string>)
    ensures r.Some? <==> exists p :: OccursAt(s, open, p)
  {
    match TrailingMatch(s, open)
    case None => None
    case Some((p, e)) => Some(s[p + |open|..e])
  }
}
