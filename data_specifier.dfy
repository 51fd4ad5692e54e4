/** `SpimDataSpecifier`: the set of SPIM data files of one run, a file name
    pattern with `{t…}` and `{a…}` placeholders expanded over a timepoint and an
    angle range, enumerated through a single stateful cursor. */
module DataSpecifier {
  import opened Common
  import opened Text
  import opened RangeSpec

  // ---------------------------------------------------------------------------
  // Placeholders `{c+}` (the expressions `\{t+\}` and `\{a+\}`)
  // ---------------------------------------------------------------------------

  /** A placeholder letter: neither a digit nor a brace (`t` and `a` are). */
  predicate Letter(c: char) {
    !IsDigit(c) && c != '{' && c != '}'
  }

  /** The number of consecutive `c` in `s` from position `k` on. */
  function RunFrom(s: string, k: nat, c: char): (n: nat)
    requires k <= |s|
    ensures k + n <= |s|
    ensures k + n == |s| || s[k + n] != c
    decreases |s| - k
  {
    if k == |s| || s[k] != c then 0 else 1 + RunFrom(s, k + 1, c)
  }

  /** A match of `\{c+\}` starts at position `j` of `s`. */
  predicate PlaceholderAt(s: string, j: int, c: char) {
    && 0 <= j < |s|
    && s[j] == '{'
    && var n := RunFrom(s, j + 1, c);
    && n >= 1 && j + 1 + n < |s| && s[j + 1 + n] == '}'
  }

  predicate NoPlaceholder(s: string, c: char) {
    forall j {:trigger PlaceholderAt(s, j, c)} :: 0 <= j < |s| ==> !PlaceholderAt(s, j, c)
  }

  /** `Matcher.find` from position `from`: where the leftmost match at or after
      it starts, or `|s|` when there is none. */
  function FindFrom(s: string, c: char, from: nat): (i: nat)
    requires from <= |s|
    ensures from <= i <= |s|
    ensures i < |s| ==> PlaceholderAt(s, i, c)
    decreases |s| - from
  {
    if from == |s| then |s|
    else if PlaceholderAt(s, from, c) then from
    else FindFrom(s, c, from + 1)
  }

  function Find(s: string, c: char): (i: nat)
    ensures i <= |s|
    ensures i < |s| ==> PlaceholderAt(s, i, c)
  {
    FindFrom(s, c, 0)
  }

  /** No match starts before the one `find` returns. */
  lemma {:induction false} FindFromFirst(s: string, c: char, from: nat)
    requires from <= |s|
    ensures forall j :: from <= j < FindFrom(s, c, from) ==> !PlaceholderAt(s, j, c)
    decreases |s| - from
  {
    if from < |s| && !PlaceholderAt(s, from, c) {
      FindFromFirst(s, c, from + 1);
    }
  }

  /** `find` from `from` returns a match that no earlier one (from `from` on) precedes. */
  lemma {:induction false} FindFromIs(s: string, c: char, from: nat, i: nat)
    requires from <= i < |s| && PlaceholderAt(s, i, c)
    requires forall j :: from <= j < i ==> !PlaceholderAt(s, j, c)
    ensures FindFrom(s, c, from) == i
    decreases i - from
  {
    if from < i {
      FindFromIs(s, c, from + 1, i);
    }
  }

  /** `find` returns the leftmost match, and finds none exactly when there is none. */
  lemma FindFirst(s: string, c: char)
    ensures forall j :: 0 <= j < Find(s, c) ==> !PlaceholderAt(s, j, c)
    ensures Find(s, c) == |s| <==> NoPlaceholder(s, c)
  {
    FindFromFirst(s, c, 0);
  }

  /** Every `{c…}` placeholder of `s` replaced, left to right, by `v` zero-padded
      to (placeholder length - 2) digits. A placeholder text that occurs several
      times gets the same replacement at each occurrence, which is what
      `String.replace` of all occurrences does. */
  function Substitute(s: string, c: char, v: nat): string
    decreases |s|
  {
    var i := Find(s, c);
    if i == |s| then s
    else
      var n := RunFrom(s, i + 1, c);
      s[..i] + Pad(v, n) + Substitute(s[i + n + 2..], c, v)
  }

  /** The loop `while(m.find()) fn = fn.replace(m.group(), String.format(...))`:
      the matcher walks the placeholders of the text it was created on, and each
      one found is replaced in the text being built. */
  method SubstituteAll(pattern: string, c: char, v: nat) returns (fn: string)
    ensures fn == Substitute(pattern, c, v)
  {
    fn := "";
    var rest := pattern;
    var i := Find(rest, c);
    while i < |rest|
      invariant i == Find(rest, c)
      invariant fn + Substitute(rest, c, v) == Substitute(pattern, c, v)
      decreases |rest|
    {
      var n := RunFrom(rest, i + 1, c);
      var later := rest[i + n + 2..];
      var piece := rest[..i] + Pad(v, n);
      SubstituteAppend(fn, rest, c, v, i, n);
      fn := fn + piece;
      rest := later;
      i := Find(rest, c);
    }
    SubstituteNone(rest, c, v);
    fn := fn + rest;
  }

  lemma SubstituteNone(s: string, c: char, v: nat)
    requires Find(s, c) == |s|
    ensures Substitute(s, c, v) == s
  {
  }

  lemma SubstituteAppend(fn: string, rest: string, c: char, v: nat, i: nat, n: nat)
    requires i == Find(rest, c) < |rest| && n == RunFrom(rest, i + 1, c)
    ensures i + n + 2 <= |rest|
    ensures fn + Substitute(rest, c, v) == (fn + (rest[..i] + Pad(v, n))) + Substitute(rest[i + n + 2..], c, v)
  {
    SubstituteStep(rest, c, v, i, n);
  }

  lemma SubstituteStep(s: string, c: char, v: nat, i: nat, n: nat)
    requires i == Find(s, c) < |s| && n == RunFrom(s, i + 1, c)
    ensures i + n + 2 <= |s|
    ensures Substitute(s, c, v) == s[..i] + Pad(v, n) + Substitute(s[i + n + 2..], c, v)
  {
    assert PlaceholderAt(s, i, c);
    var j := Find(s, c);
    assert j == i && j != |s|;
  }

  /** The name of the file for one timepoint and angle: timepoint placeholders
      first, then angle placeholders in the result. */
  function FileName(pattern: string, timepoint: nat, angle: nat): string {
    Substitute(Substitute(pattern, 't', timepoint), 'a', angle)
  }

  function Rep(c: char, k: nat): (s: string)
    ensures |s| == k && forall q :: 0 <= q < k ==> s[q] == c
  {
    seq(k, _ => c)
  }

  /** The placeholder `{c…c}` of `k` letters. */
  function Placeholder(c: char, k: nat): string {
    "{" + Rep(c, k) + "}"
  }

  /** The first placeholder `{c…c}` (k letters) of a text becomes `v` padded to
      `k` digits; the text before it is kept as it is. */
  lemma SubstituteFirst(x: string, k: nat, y: string, c: char, v: nat)
    requires Letter(c) && k >= 1 && '{' !in x
    ensures Substitute(x + Placeholder(c, k) + y, c, v) == x + Pad(v, k) + Substitute(y, c, v)
  {
    var s := x + Placeholder(c, k) + y;
    var i := |x|;
    RunOfRep(x + "{", Rep(c, k), "}" + y, c);
    assert s == (x + "{") + Rep(c, k) + ("}" + y);
    assert RunFrom(s, i + 1, c) == k;
    assert PlaceholderAt(s, i, c);
    forall j | 0 <= j < i ensures !PlaceholderAt(s, j, c) {
      assert s[j] == x[j];
    }
    FindFromIs(s, c, 0, i);
    assert s[..i] == x;
    assert s[i + k + 2..] == y;
  }

  lemma {:induction false} RunOfRep(a: string, r: string, b: string, c: char)
    requires forall q :: 0 <= q < |r| ==> r[q] == c
    requires b == [] || b[0] != c
    ensures RunFrom(a + r + b, |a|, c) == |r|
    decreases |r|
  {
    var s := a + r + b;
    if r != [] {
      assert s == (a + [r[0]]) + r[1..] + b;
      RunOfRep(a + [r[0]], r[1..], b, c);
    } else {
      assert s == a + b;
    }
  }

  /** Text whose braces are never followed by the letter holds no placeholder for it. */
  lemma NoRunAfterBraces(s: string, c: char)
    requires forall j :: 0 <= j < |s| && s[j] == '{' ==> j + 1 < |s| && s[j + 1] != c
    ensures NoPlaceholder(s, c)
  {
  }

  /** A match found in a suffix is a match in the whole text, and back. */
  lemma {:induction false} PlaceholderShift(a: string, b: string, q: int, c: char)
    requires 0 <= q < |b|
    ensures PlaceholderAt(a + b, |a| + q, c) == PlaceholderAt(b, q, c)
  {
    RunShift(a, b, q + 1, c);
  }

  lemma {:induction false} RunShift(a: string, b: string, k: nat, c: char)
    requires k <= |b|
    ensures RunFrom(a + b, |a| + k, c) == RunFrom(b, k, c)
    decreases |b| - k
  {
    if k < |b| && b[k] == c {
      RunShift(a, b, k + 1, c);
    }
  }

  /** Two texts that agree up to a position where neither has the letter have
      the same run of that letter before it. */
  lemma {:induction false} RunAgree(x: string, y: string, k: nat, m: nat, c: char)
    requires k <= m < |x| && m < |y|
    requires forall q :: k <= q < m ==> x[q] == y[q]
    requires x[m] != c && y[m] != c
    ensures RunFrom(x, k, c) == RunFrom(y, k, c) <= m - k
    decreases m - k
  {
    if k < m && x[k] == c {
      RunAgree(x, y, k + 1, m, c);
    }
  }

  /** Substitution leaves no placeholder of its letter, and creates none of
      another letter: the digits it writes are never part of a match. */
  lemma {:induction false} SubstituteClears(s: string, c: char, d: char, v: nat)
    requires Letter(c) && Letter(d)
    requires c == d || NoPlaceholder(s, c)
    ensures NoPlaceholder(Substitute(s, d, v), c)
    decreases |s|
  {
    var i := Find(s, d);
    FindFirst(s, d);
    if i < |s| {
      var n := RunFrom(s, i + 1, d);
      var rest := s[i + n + 2..];
      assert s == s[..i + n + 2] + rest;
      if c != d {
        forall q | 0 <= q < |rest| ensures !PlaceholderAt(rest, q, c) {
          PlaceholderShift(s[..i + n + 2], rest, q, c);
        }
      }
      SubstituteClears(rest, c, d, v);
      ClearAround(s, i, Pad(v, n), Substitute(rest, d, v), c, d);
    }
  }

  /** The text before the first `d` placeholder keeps no `c` placeholder once the
      digits follow it, and the digits start none. */
  lemma ClearAround(s: string, i: nat, p: string, r: string, c: char, d: char)
    requires Letter(c) && Letter(d) && i < |s| && s[i] == '{' && IsDigits(p)
    requires forall j {:trigger PlaceholderAt(s, j, c)} :: 0 <= j < i ==> !PlaceholderAt(s, j, c)
    requires NoPlaceholder(r, c)
    ensures NoPlaceholder(s[..i] + p + r, c)
  {
    var out := s[..i] + p + r;
    forall j | 0 <= j < |out| ensures !PlaceholderAt(out, j, c) {
      if j >= i + |p| {
        assert out == (s[..i] + p) + r;
        PlaceholderShift(s[..i] + p, r, j - i - |p|, c);
        assert !PlaceholderAt(r, j - i - |p|, c);
      } else if j >= i {
        assert out[j] == p[j - i];
        assert IsDigit(p[j - i]);
      } else if out[j] == '{' {
        assert out[j] == s[j];
        assert out[i] == p[0];
        RunAgree(s, out, j + 1, i, c);
        var m := RunFrom(s, j + 1, c);
        assert !PlaceholderAt(s, j, c);
        if m >= 1 && j + 1 + m < i {
          assert out[j + 1 + m] == s[j + 1 + m];
        } else if m >= 1 {
          assert j + 1 + m == i;
          assert IsDigit(out[i]);
        }
      }
    }
  }

  /** A file name holds no `{t…}` and no `{a…}` placeholder any more. */
  lemma FileNameComplete(pattern: string, timepoint: nat, angle: nat)
    ensures NoPlaceholder(FileName(pattern, timepoint, angle), 't')
    ensures NoPlaceholder(FileName(pattern, timepoint, angle), 'a')
  {
    var once := Substitute(pattern, 't', timepoint);
    SubstituteClears(pattern, 't', 't', timepoint);
    SubstituteClears(once, 't', 'a', angle);
    SubstituteClears(once, 'a', 'a', angle);
  }

  /** A text without placeholders of the letter is left as it is. */
  lemma SubstituteKeeps(s: string, c: char, v: nat)
    requires NoPlaceholder(s, c)
    ensures Substitute(s, c, v) == s
  {
    FindFirst(s, c);
    SubstituteNone(s, c, v);
  }

  /** A one-digit value padded to `w` digits. */
  lemma PadDigit(d: nat, w: nat)
    requires d < 10 && w >= 1
    ensures Pad(d, w) == Zeros(w - 1) + [DigitChar(d)]
  {
    assert Decimal(d) == [DigitChar(d)];
  }

  /** Text holding no brace at all. */
  predicate Plain(s: string) {
    '{' !in s
  }

  /** A pattern with one timepoint placeholder of `k` letters and, after it, one
      angle placeholder of `m` letters, the text around them holding no brace:
      its file name is the text with the timepoint padded to `k` digits and the
      angle padded to `m` digits in their places. */
  lemma FileNameOfPattern(x: string, k: nat, y: string, m: nat, z: string, timepoint: nat, angle: nat)
    requires Plain(x) && Plain(y) && Plain(z) && k >= 1 && m >= 1
    ensures FileName(x + Placeholder('t', k) + y + Placeholder('a', m) + z, timepoint, angle)
      == x + Pad(timepoint, k) + y + Pad(angle, m) + z
  {
    TimepointPass(x, k, y, m, z, timepoint);
    var head := x + Pad(timepoint, k) + y;
    assert Plain(head);
    NoRunAfterBraces(z, 'a');
    SubstituteOnly(head, m, z, 'a', angle);
  }

  /** The timepoint pass of such a pattern leaves the angle placeholder in place. */
  lemma TimepointPass(x: string, k: nat, y: string, m: nat, z: string, timepoint: nat)
    requires Plain(x) && Plain(y) && Plain(z) && k >= 1
    ensures Substitute(x + Placeholder('t', k) + y + Placeholder('a', m) + z, 't', timepoint)
      == x + Pad(timepoint, k) + y + Placeholder('a', m) + z
  {
    var p, q := Placeholder('t', k), Placeholder('a', m);
    var tail := y + q + z;
    assert x + p + y + q + z == x + p + tail;
    AngleTailClear(y, m, z);
    SubstituteOnly(x, k, tail, 't', timepoint);
    assert x + Pad(timepoint, k) + tail == x + Pad(timepoint, k) + y + q + z;
  }

  /** The only placeholder of a text, `k` letters long, becomes `v` padded to `k` digits. */
  lemma SubstituteOnly(x: string, k: nat, y: string, c: char, v: nat)
    requires Letter(c) && k >= 1 && Plain(x) && NoPlaceholder(y, c)
    ensures Substitute(x + Placeholder(c, k) + y, c, v) == x + Pad(v, k) + y
  {
    SubstituteFirst(x, k, y, c, v);
    SubstituteKeeps(y, c, v);
  }

  /** Brace-free text around one angle placeholder holds no timepoint placeholder. */
  lemma AngleTailClear(y: string, m: nat, z: string)
    requires Plain(y) && Plain(z)
    ensures NoPlaceholder(y + Placeholder('a', m) + z, 't')
  {
    var tail := y + Placeholder('a', m) + z;
    forall j | 0 <= j < |tail| && tail[j] == '{' ensures j + 1 < |tail| && tail[j + 1] != 't' {
      assert j == |y|;
    }
    NoRunAfterBraces(tail, 't');
  }

  /** The default pattern's shape `…{tt}…{a}…` at timepoint 1, angle 0: the
      timepoint is written "01" and the angle "0". */
  lemma ExampleFileName(x: string, y: string, z: string)
    requires Plain(x) && Plain(y) && Plain(z)
    ensures FileName(x + Placeholder('t', 2) + y + Placeholder('a', 1) + z, 1, 0) == x + "01" + y + "0" + z
  {
    FileNameOfPattern(x, 2, y, 1, z, 1, 0);
    PadDigit(1, 2);
    PadDigit(0, 1);
    assert Pad(1, 2) == "01";
    assert Pad(0, 1) == "0";
  }

  // ---------------------------------------------------------------------------
  // Enumeration order
  // ---------------------------------------------------------------------------

  /** One timepoint with every angle, in angle order. */
  function Row(t: nat, angles: seq<nat>): (r: seq<(nat, nat)>)
    ensures |r| == |angles|
  {
    if angles == [] then [] else [(t, angles[0])] + Row(t, angles[1..])
  }

  /** Entry `j` of a row pairs its timepoint with angle `j`. */
  lemma {:induction false} RowIndex(t: nat, angles: seq<nat>, j: nat)
    requires j < |angles|
    ensures Row(t, angles)[j] == (t, angles[j])
    decreases j
  {
    if j > 0 {
      RowIndex(t, angles[1..], j - 1);
    }
  }

  /** All (timepoint, angle) pairs, timepoint-major. */
  function Pairs(timepoints: seq<nat>, angles: seq<nat>): seq<(nat, nat)> {
    if timepoints == [] then [] else Row(timepoints[0], angles) + Pairs(timepoints[1..], angles)
  }

  /** There are |timepoints| × |angles| pairs. */
  lemma {:induction false} PairsLength(timepoints: seq<nat>, angles: seq<nat>)
    ensures |Pairs(timepoints, angles)| == |timepoints| * |angles|
    decreases |timepoints|
  {
    if timepoints != [] {
      PairsLength(timepoints[1..], angles);
      MulSucc(|timepoints| - 1, |angles|);
    }
  }

  lemma MulSucc(a: nat, m: nat)
    ensures (a + 1) * m == a * m + m
  {
  }

  /** Pair `i * |angles| + j` is (timepoint i, angle j): timepoint-major order. */
  lemma PairsIndex(timepoints: seq<nat>, angles: seq<nat>, i: nat, j: nat)
    requires i < |timepoints| && j < |angles|
    ensures i * |angles| + j < |Pairs(timepoints, angles)|
    ensures Pairs(timepoints, angles)[i * |angles| + j] == (timepoints[i], angles[j])
  {
    PairsAt(timepoints, angles, i, j);
    RowsProduct(i, |angles|);
  }

  /** The start of row `i` when every row holds `m` pairs. */
  function RowStart(i: nat, m: nat): nat {
    if i == 0 then 0 else RowStart(i - 1, m) + m
  }

  lemma {:induction false} RowsProduct(i: nat, m: nat)
    ensures RowStart(i, m) == i * m
  {
    if i > 0 {
      RowsProduct(i - 1, m);
      MulSucc(i - 1, m);
    }
  }

  lemma {:induction false} PairsAt(timepoints: seq<nat>, angles: seq<nat>, i: nat, j: nat)
    requires i < |timepoints| && j < |angles|
    ensures RowStart(i, |angles|) + j < |Pairs(timepoints, angles)|
    ensures Pairs(timepoints, angles)[RowStart(i, |angles|) + j] == (timepoints[i], angles[j])
    decreases i
  {
    var m := |angles|;
    var rest := timepoints[1..];
    var row, later := Row(timepoints[0], angles), Pairs(rest, angles);
    assert Pairs(timepoints, angles) == row + later;
    if i == 0 {
      RowIndex(timepoints[0], angles, j);
    } else {
      var k := RowStart(i - 1, m) + j;
      PairsAt(rest, angles, i - 1, j);
      assert RowStart(i, m) + j == m + k;
      assert (row + later)[m + k] == later[k];
      assert timepoints[i] == rest[i - 1];
    }
  }

  /** Without angles there is no pair at all. */
  lemma {:induction false} PairsNoAngles(timepoints: seq<nat>)
    ensures Pairs(timepoints, []) == []
    decreases |timepoints|
  {
    if timepoints != [] {
      PairsNoAngles(timepoints[1..]);
    }
  }

  /** The pairs a cursor has still to produce: the current timepoint with the
      angles from `anNext` on, then every timepoint from `tpNext` on with all
      angles. A closed cursor produces nothing. */
  function Remaining(open: bool, t: nat, tpNext: nat, anNext: nat, timepoints: seq<nat>, angles: seq<nat>): seq<(nat, nat)> {
    if !open || tpNext > |timepoints| || anNext > |angles| then []
    else Row(t, angles[anNext..]) + Pairs(timepoints[tpNext..], angles)
  }

  /** Taking the next angle of the current timepoint. */
  lemma RemainingTake(t: nat, tpNext: nat, anNext: nat, timepoints: seq<nat>, angles: seq<nat>)
    requires tpNext <= |timepoints| && anNext < |angles|
    ensures Remaining(true, t, tpNext, anNext, timepoints, angles)
      == [(t, angles[anNext])] + Remaining(true, t, tpNext, anNext + 1, timepoints, angles)
  {
    var rest := angles[anNext..];
    var later := Pairs(timepoints[tpNext..], angles);
    RowCons(t, rest);
    assert rest[1..] == angles[anNext + 1..];
    assert Remaining(true, t, tpNext, anNext, timepoints, angles) == Row(t, rest) + later;
    assert Remaining(true, t, tpNext, anNext + 1, timepoints, angles) == Row(t, rest[1..]) + later;
    assert ([(t, rest[0])] + Row(t, rest[1..])) + later == [(t, rest[0])] + (Row(t, rest[1..]) + later);
  }

  lemma RowCons(t: nat, angles: seq<nat>)
    requires angles != []
    ensures Row(t, angles) == [(t, angles[0])] + Row(t, angles[1..])
  {
  }

  /** Moving on to the next timepoint once its predecessor's angles are used up. */
  lemma RemainingAdvance(t: nat, tpNext: nat, timepoints: seq<nat>, angles: seq<nat>)
    requires tpNext < |timepoints|
    ensures Remaining(true, t, tpNext, |angles|, timepoints, angles)
      == Remaining(true, timepoints[tpNext], tpNext + 1, 0, timepoints, angles)
  {
    var rest := timepoints[tpNext..];
    assert rest == [timepoints[tpNext]] + timepoints[tpNext + 1..];
    assert rest[1..] == timepoints[tpNext + 1..];
    assert angles[0..] == angles;
    assert Row(t, angles[|angles|..]) == [];
  }

  /** With all timepoints and angles used up nothing remains. */
  lemma RemainingDone(t: nat, timepoints: seq<nat>, angles: seq<nat>)
    ensures Remaining(true, t, |timepoints|, |angles|, timepoints, angles) == []
  {
    assert Row(t, angles[|angles|..]) == [];
    assert timepoints[|timepoints|..] == [];
  }

  /** While an angle or a timepoint is left, and there are angles, some pair remains. */
  lemma RemainingLive(t: nat, tpNext: nat, anNext: nat, timepoints: seq<nat>, angles: seq<nat>)
    requires tpNext <= |timepoints| && anNext <= |angles| && angles != []
    requires anNext < |angles| || tpNext < |timepoints|
    ensures Remaining(true, t, tpNext, anNext, timepoints, angles) != []
  {
    if anNext == |angles| {
      var rest := timepoints[tpNext..];
      assert Pairs(rest, angles) == Row(rest[0], angles) + Pairs(rest[1..], angles);
    }
  }

  /** Without angles nothing remains. */
  lemma RemainingNoAngles(open: bool, t: nat, tpNext: nat, timepoints: seq<nat>)
    ensures Remaining(open, t, tpNext, 0, timepoints, []) == []
  {
    if open && tpNext <= |timepoints| {
      PairsNoAngles(timepoints[tpNext..]);
    }
  }

  function FileOf(directory: Path, pattern: string, pair: (nat, nat)): Path {
    Child(directory, FileName(pattern, pair.0, pair.1))
  }

  // ---------------------------------------------------------------------------
  // The specifier and its cursor
  // ---------------------------------------------------------------------------

  /** The specifier. `open` stands for the two iterator fields being non-null
      (they are always set and cleared together); `tpNext` and `anNext` are the
      positions of those iterators in the timepoint and angle sequences. */
  class SpimDataSpecifier {
    const directory: Path
    const pattern: string
    const timepoints: MultiSpec
    const angles: MultiSpec

    var timepoint: nat
    var open: bool
    var tpNext: nat
    var anNext: nat

    ghost predicate Valid()
      reads this
    {
      && tpNext <= |timepoints.sequence|
      && anNext <= |angles.sequence|
      && (open && angles.sequence != [] ==> anNext < |angles.sequence| || tpNext < |timepoints.sequence|)
    }

    /** Parses both range texts; no cursor is open. */
    constructor (directory: Path, pattern: string, timepointsText: string, anglesText: string)
      requires AdmissibleText(timepointsText) && AdmissibleText(anglesText)
      ensures Valid() && !open && timepoint == 0
      ensures this.directory == directory && this.pattern == pattern
      ensures timepoints == MultiSpec(timepointsText, Expand(timepointsText))
      ensures angles == MultiSpec(anglesText, Expand(anglesText))
    {
      this.directory := directory;
      this.pattern := pattern;
      var t := Parse(timepointsText);
      var a := Parse(anglesText);
      timepoints := t;
      angles := a;
      timepoint := 0;
      open := false;
      tpNext := 0;
      anNext := 0;
    }

    /** Every (timepoint, angle) pair the specifier describes, in iteration order. */
    function AllPairs(): seq<(nat, nat)> {
      Pairs(timepoints.sequence, angles.sequence)
    }

    /** The files the specifier describes, in iteration order. */
    function Files(): (fs: seq<Path>)
      ensures |fs| == |AllPairs()|
      ensures forall k :: 0 <= k < |fs| ==> fs[k] == FileOf(directory, pattern, AllPairs()[k])
    {
      var ps := AllPairs();
      seq(|ps|, k requires 0 <= k < |ps| => FileOf(directory, pattern, ps[k]))
    }

    /** `count()`: the `int` product of the two counts. It is the number of
        pairs, and so of files, the specifier describes when that fits an
        `int`, and that number reduced to 32 bits otherwise. */
    function Count(): (n: int)
      ensures n == Wrap32(|Files()|)
      ensures |Files()| <= IntMax ==> n == |AllPairs()| == |Files()|
    {
      PairsLength(timepoints.sequence, angles.sequence);
      MulInt(timepoints.Count(), angles.Count())
    }

    /** The pairs the open cursor has still to produce: the current timepoint
        with the angles not yet taken, then every later timepoint with all angles. */
    function Pending(): seq<(nat, nat)>
      reads this
    {
      Remaining(open, timepoint, tpNext, anNext, timepoints.sequence, angles.sequence)
    }

    /** `iterator()`: refused while a cursor is open; otherwise it opens one on
        the first timepoint. With no timepoints the cursor is left open and the
        call throws, which locks the specifier. */
    method Iterator() returns (o: Outcome)
      requires Valid()
      modifies this
      ensures Valid()
      ensures old(open) ==> o == Fail(Unsupported) && unchanged(this)
      ensures !old(open) && timepoints.sequence == [] ==>
        o == Fail(NoSuchElement) && open && tpNext == 0 && anNext == 0 && timepoint == old(timepoint)
      ensures !old(open) && timepoints.sequence != [] ==>
        o == Pass && open && timepoint == timepoints.sequence[0] && Pending() == AllPairs()
        && tpNext == 1 && anNext == 0
    {
      if open {
        return Fail(Unsupported);
      }
      open := true;
      tpNext := 0;
      anNext := 0;
      if timepoints.sequence == [] {
        return Fail(NoSuchElement);
      }
      timepoint := timepoints.sequence[0];
      tpNext := 1;
      assert angles.sequence[0..] == angles.sequence;
      assert Pending() == AllPairs();
      o := Pass;
    }

    /** `hasNext()`: when there are angles, exactly when pairs are pending. */
    function HasNext(): (b: bool)
      reads this
      requires Valid()
      ensures angles.sequence != [] ==> (b <==> Pending() != [])
      ensures b ==> open
    {
      open && (anNext < |angles.sequence| || tpNext < |timepoints.sequence|)
    }

    /** `getCurrentTimepoint()`: while the current timepoint has angles left,
        it is the timepoint of the next pair the cursor yields. */
    function CurrentTimepoint(): (t: nat)
      reads this
      ensures open && tpNext <= |timepoints.sequence| && anNext < |angles.sequence| ==>
        Pending() != [] && Pending()[0] == (t, angles.sequence[anNext])
    {
      if open && tpNext <= |timepoints.sequence| && anNext < |angles.sequence| then
        RemainingTake(timepoint, tpNext, anNext, timepoints.sequence, angles.sequence);
        timepoint
      else timepoint
    }

    /** `next()`: the file of the first pending pair, which becomes the current
        timepoint. The cursor is closed once nothing is pending. Without an open
        cursor it throws `NullPointerException`; with no pair left, or no
        angles, `NoSuchElementException`. */
    method Next() returns (r: Result<Path>)
      requires Valid()
      modifies this
      ensures Valid()
      ensures !old(open) ==> r == Failure(NullPointer) && unchanged(this)
      ensures old(open) && old(Pending()) != [] ==>
        && r == Success(FileOf(directory, pattern, old(Pending())[0]))
        && timepoint == old(Pending())[0].0
        && Pending() == old(Pending())[1..]
        && (Pending() == [] ==> !open)
      ensures old(open) && old(Pending()) == [] ==>
        && r == Failure(NoSuchElement) && open && anNext == 0
        && (old(tpNext) < |timepoints.sequence| ==>
              timepoint == timepoints.sequence[old(tpNext)] && tpNext == old(tpNext) + 1)
        && (old(tpNext) == |timepoints.sequence| ==> timepoint == old(timepoint) && tpNext == old(tpNext))
    {
      if !open {
        return Failure(NullPointer);
      }
      if anNext == |angles.sequence| {
        var o := Rewind();
        if o.Fail? {
          return Failure(o.fault);
        }
      }
      if anNext == |angles.sequence| {
        RemainingNoAngles(true, old(timepoint), old(tpNext), timepoints.sequence);
        RemainingNoAngles(true, timepoint, tpNext, timepoints.sequence);
        return Failure(NoSuchElement);
      }
      ghost var before := Pending();
      var angle := TakeAngle();
      assert before[1..] == Pending();
      var file := FileFor(timepoint, angle);
      if !(anNext < |angles.sequence| || tpNext < |timepoints.sequence|) {
        RemainingDone(timepoint, timepoints.sequence, angles.sequence);
        open := false;
      } else {
        RemainingLive(timepoint, tpNext, anNext, timepoints.sequence, angles.sequence);
      }
      r := Success(file);
    }

    /** The first step of `next()` once the angles of the current timepoint are
        used up: the angle iterator starts again and the timepoint iterator
        moves on, throwing when it has no timepoint left. */
    method Rewind() returns (o: Outcome)
      requires Valid() && open && anNext == |angles.sequence|
      modifies this
      ensures open && anNext == 0
      ensures old(tpNext) == |timepoints.sequence| ==>
        o == Fail(NoSuchElement) && timepoint == old(timepoint) && tpNext == old(tpNext) && old(Pending()) == []
      ensures old(tpNext) < |timepoints.sequence| ==>
        && o == Pass && timepoint == timepoints.sequence[old(tpNext)] && tpNext == old(tpNext) + 1
        && Pending() == old(Pending())
    {
      anNext := 0;
      if tpNext == |timepoints.sequence| {
        RemainingDone(timepoint, timepoints.sequence, angles.sequence);
        return Fail(NoSuchElement);
      }
      RemainingAdvance(timepoint, tpNext, timepoints.sequence, angles.sequence);
      timepoint := timepoints.sequence[tpNext];
      tpNext := tpNext + 1;
      o := Pass;
    }

    /** `angleIterator.next()`: the next angle of the current timepoint, whose
        pair is the first pending one. */
    method TakeAngle() returns (angle: nat)
      requires open && tpNext <= |timepoints.sequence| && anNext < |angles.sequence|
      modifies this
      ensures open && timepoint == old(timepoint) && tpNext == old(tpNext) && anNext == old(anNext) + 1
      ensures angle == angles.sequence[old(anNext)]
      ensures old(Pending()) == [(timepoint, angle)] + Pending()
    {
      RemainingTake(timepoint, tpNext, anNext, timepoints.sequence, angles.sequence);
      angle := angles.sequence[anNext];
      anNext := anNext + 1;
    }

    /** The body of `next()` that builds the file: timepoint placeholders are
        replaced in the pattern, then angle placeholders in the result. */
    method FileFor(timepoint: nat, angle: nat) returns (file: Path)
      ensures file == FileOf(directory, pattern, (timepoint, angle))
    {
      var fn := SubstituteAll(pattern, 't', timepoint);
      fn := SubstituteAll(fn, 'a', angle);
      file := Child(directory, fn);
    }

    /** `getParameterString()`, given `directory.getAbsolutePath()`: the four
        specifier fields as macro options. */
    function ParameterString(absolutePath: string): (s: string)
      ensures |s| >= 22 + |absolutePath| + |angles.source|
      ensures s[21..21 + |absolutePath|] == absolutePath
      ensures s[|s| - 1 - |angles.source|..|s| - 1] == angles.source
    {
      "spim_data_directory=[" + absolutePath + "] pattern_of_spim=[" + pattern
        + "] timepoints_to_process=[" + timepoints.source + "] angles_to_process=[" + angles.source + "]"
    }
  }

  /** The pattern of a caller that takes one file and abandons the cursor (as
      `params.spec.iterator().next()` does): when more than one file remains,
      the specifier refuses every later iteration. */
  method AbandonCursor(spec: SpimDataSpecifier) returns (first: Result<Path>, again: Outcome)
    requires spec.Valid() && !spec.open
    requires |spec.timepoints.sequence| * |spec.angles.sequence| >= 2
    modifies spec
    ensures spec.Valid() && spec.open
    ensures first == Success(spec.Files()[0])
    ensures again == Fail(Unsupported)
  {
    PairsLength(spec.timepoints.sequence, spec.angles.sequence);
    var o := spec.Iterator();
    first := spec.Next();
    assert spec.Pending() != [];
    again := spec.Iterator();
  }
}
