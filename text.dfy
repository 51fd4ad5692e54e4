/** The string primitives of the Java standard library that the core relies on:
    decimal conversion (`Integer.parseInt`, `Integer.toString`, `%0Nd`), `trim`,
    `split`, `BufferedReader.readLine` and `Scanner` tokens. */
module Text {

  predicate IsDigit(c: char) {
    '0' <= c <= '9'
  }

  predicate AllDigits(s: string) {
    forall i :: 0 <= i < |s| ==> IsDigit(s[i])
  }

  /** A non-empty run of decimal digits, the `[0-9]+` of a regular expression. */
  predicate IsDigits(s: string) {
    |s| > 0 && AllDigits(s)
  }

  function DigitValue(c: char): (d: nat)
    requires IsDigit(c)
    ensures d < 10
  {
    (c as int) - ('0' as int)
  }

  function DigitChar(d: nat): (c: char)
    requires d < 10
    ensures IsDigit(c) && DigitValue(c) == d
  {
    (('0' as int) + d) as char
  }

  /** `Integer.parseInt` of a digit string, leading zeros allowed (the int range
      check is the caller's concern). */
  function Value(s: string): nat
    requires AllDigits(s)
  {
    if s == [] then 0 else Value(s[..|s| - 1]) * 10 + DigitValue(s[|s| - 1])
  }

  /** The decimal digits of `n`, without leading zeros (`Integer.toString`). */
  function Decimal(n: nat): (s: string)
    ensures IsDigits(s)
    ensures |s| > 1 ==> s[0] != '0'
    decreases n
  {
    if n < 10 then [DigitChar(n)] else Decimal(n / 10) + [DigitChar(n % 10)]
  }

  lemma {:induction false} DecimalValue(n: nat)
    ensures Value(Decimal(n)) == n
    decreases n
  {
    if n >= 10 {
      DecimalValue(n / 10);
      var s := Decimal(n);
      assert s[..|s| - 1] == Decimal(n / 10);
    }
  }

  function Zeros(k: nat): (s: string)
    ensures |s| == k && forall i :: 0 <= i < k ==> s[i] == '0'
  {
    seq(k, _ => '0')
  }

  /** Leading zeros do not change the value of a digit string. */
  lemma {:induction false} LeadingZerosValue(k: nat, s: string)
    requires AllDigits(s)
    ensures AllDigits(Zeros(k) + s) && Value(Zeros(k) + s) == Value(s)
    decreases |s|
  {
    if s == [] {
      assert Zeros(k) + s == Zeros(k);
      ZerosValue(k);
    } else {
      var t := Zeros(k) + s;
      assert t[..|t| - 1] == Zeros(k) + s[..|s| - 1];
      LeadingZerosValue(k, s[..|s| - 1]);
    }
  }

  lemma {:induction false} ZerosValue(k: nat)
    ensures AllDigits(Zeros(k)) && Value(Zeros(k)) == 0
    decreases k
  {
    if k > 0 {
      assert Zeros(k)[..k - 1] == Zeros(k - 1);
      ZerosValue(k - 1);
    }
  }

  /** `String.format("%0<width>d", n)` for `n >= 0` and `width >= 1`: the decimal
      digits of `n`, left-padded with zeros to at least `width` characters. */
  function Pad(n: nat, width: nat): (s: string)
    ensures IsDigits(s)
  {
    var k := if width > |Decimal(n)| then width - |Decimal(n)| else 0;
    Zeros(k) + Decimal(n)
  }

  /** The padded text has `max(width, digits of n)` characters and reads back as `n`. */
  lemma PadValue(n: nat, width: nat)
    ensures |Pad(n, width)| == if width > |Decimal(n)| then width else |Decimal(n)|
    ensures Value(Pad(n, width)) == n
  {
    var k := if width > |Decimal(n)| then width - |Decimal(n)| else 0;
    DecimalValue(n);
    LeadingZerosValue(k, Decimal(n));
  }

  /** `%d` of a Java int. */
  function IntText(i: int): (s: string)
    ensures |s| > 0
    ensures i >= 0 ==> s == Decimal(i)
    ensures i < 0 ==> s[0] == '-' && s[1..] == Decimal(-i)
  {
    if i < 0 then "-" + Decimal(-i) else Decimal(i)
  }

  /** The characters `String.trim` removes: code points up to and including U+0020. */
  predicate IsControlOrSpace(c: char) {
    c <= ' '
  }

  /** The number of characters `trim` removes from position `k` on, going forwards. */
  function BlanksFrom(s: string, k: nat): (n: nat)
    requires k <= |s|
    ensures k + n <= |s|
    ensures k + n == |s| || !IsControlOrSpace(s[k + n])
    decreases |s| - k
  {
    if k == |s| || !IsControlOrSpace(s[k]) then 0 else 1 + BlanksFrom(s, k + 1)
  }

  /** The number of characters `trim` removes before position `e`, going backwards. */
  function BlanksBefore(s: string, e: nat): (n: nat)
    requires e <= |s|
    ensures n <= e
    ensures n == e || !IsControlOrSpace(s[e - n - 1])
    decreases e
  {
    if e == 0 || !IsControlOrSpace(s[e - 1]) then 0 else 1 + BlanksBefore(s, e - 1)
  }

  function TrimStart(s: string): (r: string)
    ensures r == [] || !IsControlOrSpace(r[0])
  {
    s[BlanksFrom(s, 0)..]
  }

  function TrimEnd(s: string): (r: string)
    ensures r == [] || !IsControlOrSpace(r[|r| - 1])
  {
    s[..|s| - BlanksBefore(s, |s|)]
  }

  /** `String.trim`. */
  function Trim(s: string): (r: string)
    ensures r == [] || (!IsControlOrSpace(r[0]) && !IsControlOrSpace(r[|r| - 1]))
  {
    TrimEnd(TrimStart(s))
  }

  /** A string whose ends are not removed by `trim` is its own trim. */
  lemma TrimKeeps(s: string)
    requires s == [] || (!IsControlOrSpace(s[0]) && !IsControlOrSpace(s[|s| - 1]))
    ensures Trim(s) == s
  {
    assert TrimStart(s) == s;
  }

  /** The position of the first `c` at or after `k`, or `|s|` when there is none. */
  function IndexFrom(s: string, c: char, k: nat): (i: nat)
    requires k <= |s|
    ensures k <= i <= |s|
    ensures i < |s| ==> s[i] == c
    decreases |s| - k
  {
    if k == |s| || s[k] == c then k else IndexFrom(s, c, k + 1)
  }

  lemma {:induction false} IndexFromFirst(s: string, c: char, k: nat)
    requires k <= |s|
    ensures forall j :: k <= j < IndexFrom(s, c, k) ==> s[j] != c
    decreases |s| - k
  {
    if k < |s| && s[k] != c {
      IndexFromFirst(s, c, k + 1);
    }
  }

  /** The position of the first `c` in `s`, or `|s|` when there is none. */
  function IndexOf(s: string, c: char): (i: nat)
    ensures i <= |s|
    ensures i < |s| ==> s[i] == c
    ensures forall j :: 0 <= j < i ==> s[j] != c
  {
    IndexFromFirst(s, c, 0);
    IndexFrom(s, c, 0)
  }

  /** `String.split` on a one-character separator, keeping every piece (Java also
      drops trailing empty pieces; every caller here ignores empty pieces). */
  function Split(s: string, sep: char): (r: seq<string>)
    ensures |r| >= 1
    ensures forall k :: 0 <= k < |r| ==> sep !in r[k]
    decreases |s|
  {
    var i := IndexOf(s, sep);
    if i == |s| then [s] else [s[..i]] + Split(s[i + 1..], sep)
  }

  /** The pieces joined by single separators, with none at either end. */
  function Join(ps: seq<string>, sep: char): string {
    if ps == [] then "" else if |ps| == 1 then ps[0] else ps[0] + [sep] + Join(ps[1..], sep)
  }

  /** Splitting and joining again gives back the text. */
  lemma {:induction false} JoinSplit(s: string, sep: char)
    ensures Join(Split(s, sep), sep) == s
    decreases |s|
  {
    var i := IndexOf(s, sep);
    if i < |s| {
      var rest := s[i + 1..];
      var ps, qs := Split(s, sep), Split(rest, sep);
      assert ps == [s[..i]] + qs;
      assert Join(ps, sep) == s[..i] + [sep] + Join(qs, sep) by {
        assert ps[0] == s[..i] && ps[1..] == qs && |ps| >= 2;
      }
      assert Join(qs, sep) == rest by {
        JoinSplit(rest, sep);
      }
      assert s == s[..i] + [sep] + rest;
    }
  }

  /** Joining pieces that hold no separator and splitting again gives back the pieces. */
  lemma {:induction false} SplitJoin(ps: seq<string>, sep: char)
    requires |ps| >= 1
    requires forall k :: 0 <= k < |ps| ==> sep !in ps[k]
    ensures Split(Join(ps, sep), sep) == ps
    decreases |ps|
  {
    if |ps| == 1 {
      NoSeparatorIndex(ps[0], sep);
    } else {
      var rest := Join(ps[1..], sep);
      var s := ps[0] + ([sep] + rest);
      assert Join(ps, sep) == s;
      PrefixIndex(ps[0], [sep] + rest, sep);
      var i := IndexOf(s, sep);
      assert s[..i] == ps[0];
      assert s[i + 1..] == rest;
      assert Split(s, sep) == [ps[0]] + Split(rest, sep);
      SplitJoin(ps[1..], sep);
    }
  }

  /** A separator between two texts splits exactly there. */
  lemma {:induction false} SplitAppend(a: string, b: string, sep: char)
    ensures Split(a + [sep] + b, sep) == Split(a, sep) + Split(b, sep)
    decreases |a|
  {
    var s := a + [sep] + b;
    var i := IndexOf(a, sep);
    if i == |a| {
      assert IndexOf(s, sep) == |a| by {
        PrefixIndex(a, [sep] + b, sep);
        assert s == a + ([sep] + b);
      }
      assert s[|a| + 1..] == b;
    } else {
      assert IndexOf(s, sep) == i by {
        assert s[i] == sep;
        assert forall j :: 0 <= j < i ==> s[j] == a[j];
      }
      var rest := a[i + 1..];
      assert s[..i] == a[..i];
      assert s[i + 1..] == rest + [sep] + b;
      assert Split(s, sep) == [a[..i]] + Split(rest + [sep] + b, sep);
      SplitAppend(rest, b, sep);
    }
  }

  lemma NoSeparatorIndex(s: string, c: char)
    requires c !in s
    ensures IndexOf(s, c) == |s|
  {
  }

  lemma PrefixIndex(a: string, b: string, c: char)
    requires c !in a && b != [] && b[0] == c
    ensures IndexOf(a + b, c) == |a|
  {
    assert (a + b)[|a|] == c;
  }

  /** A character that ends a line for `BufferedReader.readLine`. */
  predicate IsBreak(c: char) {
    c == '\n' || c == '\r'
  }

  /** The index of the first line break, or the length when there is none. */
  function BreakAt(s: string): (i: nat)
    ensures i <= |s|
    ensures i < |s| ==> IsBreak(s[i])
    ensures forall j :: 0 <= j < i ==> !IsBreak(s[j])
  {
    if s == [] || IsBreak(s[0]) then 0 else 1 + BreakAt(s[1..])
  }

  /** The lines `readLine` returns for a text while the reader is `ready()`:
      a line is ended by '\n', by '\r' or by "\r\n", and a final break opens
      no line. */
  function Lines(text: string): (ls: seq<string>)
    ensures forall k :: 0 <= k < |ls| ==> '\n' !in ls[k]
    ensures forall k :: 0 <= k < |ls| ==> '\r' !in ls[k]
    decreases |text|
  {
    if text == [] then []
    else
      var i := BreakAt(text);
      if i == |text| then [text]
      else
        var next := if text[i] == '\r' && i + 1 < |text| && text[i + 1] == '\n' then i + 2 else i + 1;
        [text[..i]] + Lines(text[next..])
  }

  /** `readLine` ends a line at "\n", at "\r\n" or at a "\r" not followed by
      '\n', and the next line starts after that break. */
  lemma LinesBreak(head: string, brk: string, rest: string)
    requires '\n' !in head && '\r' !in head
    requires brk == "\n" || brk == "\r\n" || (brk == "\r" && (rest == [] || rest[0] != '\n'))
    ensures Lines(head + brk + rest) == [head] + Lines(rest)
  {
    var t := head + brk + rest;
    assert BreakAt(t) == |head| by {
      forall j | 0 <= j < |head|
        ensures !IsBreak(t[j])
      {
        assert t[j] == head[j] && head[j] in head;
      }
      assert IsBreak(t[|head|]);
    }
    assert t[..|head|] == head;
    assert t[|head| + |brk|..] == rest;
  }

  /** The text of a file written as these lines, each followed by '\n'. */
  function UnLines(ls: seq<string>): string {
    if ls == [] then "" else ls[0] + "\n" + UnLines(ls[1..])
  }

  /** Reading back what was written line by line gives the same lines. */
  lemma {:induction false} LinesUnLines(ls: seq<string>)
    requires forall k :: 0 <= k < |ls| ==> '\n' !in ls[k] && '\r' !in ls[k]
    ensures Lines(UnLines(ls)) == ls
    decreases |ls|
  {
    if ls != [] {
      var head, rest := ls[0], UnLines(ls[1..]);
      var t := head + "\n" + rest;
      assert UnLines(ls) == t;
      assert '\n' !in head && '\r' !in head;
      assert t == head + ("\n" + rest);
      var i := BreakAt(t);
      assert i == |head| by {
        forall j | 0 <= j < |head|
          ensures !IsBreak(t[j])
        {
          assert t[j] == head[j] && head[j] in head;
        }
        assert IsBreak(t[|head|]);
      }
      assert t[..i] == head;
      assert t[i + 1..] == rest;
      assert Lines(t) == [head] + Lines(rest);
      LinesUnLines(ls[1..]);
    }
  }

  /** The characters `Scanner` treats as delimiters (Java whitespace in the ASCII
      range). */
  predicate IsWhitespace(c: char) {
    c == ' ' || 9 <= c as int <= 13 || 28 <= c as int <= 31
  }

  function SkipWhitespace(s: string): (r: string)
    ensures |r| <= |s|
    ensures r == [] || !IsWhitespace(r[0])
  {
    if s != [] && IsWhitespace(s[0]) then SkipWhitespace(s[1..]) else s
  }

  function WordLength(s: string): (n: nat)
    ensures n <= |s|
    ensures forall i :: 0 <= i < n ==> !IsWhitespace(s[i])
    ensures n < |s| ==> IsWhitespace(s[n])
  {
    if s == [] || IsWhitespace(s[0]) then 0 else 1 + WordLength(s[1..])
  }

  /** A `Scanner` token: non-empty, with no delimiter in it. */
  predicate IsWord(w: string) {
    w != [] && forall i :: 0 <= i < |w| ==> !IsWhitespace(w[i])
  }

  /** The tokens a `Scanner` reads from a line, in order. */
  function Fields(line: string): (fs: seq<string>)
    ensures forall k :: 0 <= k < |fs| ==> fs[k] != []
    decreases |line|
  {
    var s := SkipWhitespace(line);
    if s == [] then []
    else
      var n := WordLength(s);
      [s[..n]] + Fields(s[n..])
  }

  /** Every token is a word: non-empty and free of delimiters. */
  lemma {:induction false} FieldsAreWords(line: string)
    ensures forall k :: 0 <= k < |Fields(line)| ==> IsWord(Fields(line)[k])
    decreases |line|
  {
    var s := SkipWhitespace(line);
    if s != [] {
      var n := WordLength(s);
      FieldsAreWords(s[n..]);
      assert Fields(line) == [s[..n]] + Fields(s[n..]);
    }
  }

  /** A token followed by a delimiter, or by nothing, is read whole. */
  lemma {:induction false} WordLengthOf(w: string, rest: string)
    requires IsWord(w) && (rest == [] || IsWhitespace(rest[0]))
    ensures WordLength(w + rest) == |w|
  {
    assert (w + rest)[0] == w[0];
    assert (w + rest)[1..] == w[1..] + rest;
    if |w| > 1 {
      WordLengthOf(w[1..], rest);
    }
  }

  /** A token followed by a delimiter, or by nothing, is the first token read. */
  lemma FieldsCons(w: string, rest: string)
    requires IsWord(w) && (rest == [] || IsWhitespace(rest[0]))
    ensures Fields(w + rest) == [w] + Fields(rest)
  {
    var t := w + rest;
    assert t[0] == w[0];
    WordLengthOf(w, rest);
    assert SkipWhitespace(t) == t;
    assert t[..|w|] == w && t[|w|..] == rest;
  }

  /** A leading delimiter is skipped. */
  lemma FieldsSpace(s: string)
    requires s == [] || !IsWhitespace(s[0])
    ensures Fields([' '] + s) == Fields(s)
  {
    assert ([' '] + s)[1..] == s;
    assert SkipWhitespace([' '] + s) == s;
  }

  /** Tokens joined by single spaces are read back as the same tokens. */
  lemma {:induction false} FieldsJoin(ws: seq<string>)
    requires forall k :: 0 <= k < |ws| ==> IsWord(ws[k])
    ensures Fields(Join(ws, ' ')) == ws
  {
    if |ws| == 1 {
      assert Join(ws, ' ') == ws[0] + [];
      FieldsCons(ws[0], []);
    } else if |ws| > 1 {
      var w, j := ws[0], Join(ws[1..], ' ');
      assert Join(ws, ' ') == w + ([' '] + j);
      assert Fields(Join(ws, ' ')) == [w] + Fields([' '] + j) by {
        FieldsCons(w, [' '] + j);
      }
      assert Fields([' '] + j) == ws[1..] by {
        assert j[0] == ws[1][0];
        FieldsSpace(j);
        FieldsJoin(ws[1..]);
      }
      assert ws == [w] + ws[1..];
    }
  }
}
