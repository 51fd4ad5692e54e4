/** `SpimDataSpecifier.MultiSpec`: a comma-separated list of `N`, `N-M` and
    `N-M:S` tokens expanded into the ordered sequence of integers it denotes. */
module RangeSpec {
  import opened Common
  import opened Text

  /** `Integer.MAX_VALUE`. */
  const IntMax: nat := 0x7fff_ffff
  /** `Integer.MIN_VALUE`. */
  const IntMin: int := -0x8000_0000

  /** One matched token: `max` defaults to `min` and `step` to 1. */
  datatype Range = Range(min: nat, max: nat, step: nat)

  /** Whether the trimmed token matches `^([0-9]+)(-([0-9]+)(:([0-9]+))?)?$`, and
      the values of groups 1, 3 and 5 when it does. */
  function ParseToken(t: string): (r: Option<Range>)
  {
    ParseTrimmed(Trim(t))
  }

  /** As digits hold no '-' or ':', the first '-' and the first ':' after it are
      the only places the expression can split the token. */
  function ParseTrimmed(s: string): Option<Range>
  {
    var i := IndexOf(s, '-');
    var lo := s[..i];
    if !IsDigits(lo) then None
    else if i == |s| then Some(Range(Value(lo), Value(lo), 1))
    else
      match ParseUpper(s[i + 1..])
      case None => None
      case Some(hs) => Some(Range(Value(lo), hs.0, hs.1))
  }

  /** Groups 3 and 5 from what follows the '-': the upper bound and the step. */
  function ParseUpper(rest: string): Option<(nat, nat)>
  {
    var j := IndexOf(rest, ':');
    var hi := rest[..j];
    if !IsDigits(hi) then None
    else if j == |rest| then Some((Value(hi), 1))
    else
      var st := rest[j + 1..];
      if IsDigits(st) then Some((Value(hi), Value(st))) else None
  }

  /** A run of characters that `trim` removes. */
  predicate Blank(s: string) {
    forall i :: 0 <= i < |s| ==> IsControlOrSpace(s[i])
  }

  /** Splitting digits, a separator and the rest at the first separator. */
  lemma SplitAtFirst(a: string, c: char, rest: string)
    requires AllDigits(a) && !IsDigit(c)
    ensures var s := a + [c] + rest; IndexOf(s, c) == |a| && s[..|a|] == a && s[|a| + 1..] == rest
  {
    NoSeparatorIndex(a, c);
    PrefixIndex(a, [c] + rest, c);
    assert a + [c] + rest == a + ([c] + rest);
  }

  lemma DigitsExclude(a: string, c: char)
    requires AllDigits(a) && !IsDigit(c)
    ensures c !in a
  {
  }

  lemma DigitsWhole(a: string, c: char)
    requires AllDigits(a) && !IsDigit(c)
    ensures IndexOf(a, c) == |a| && a[..|a|] == a
  {
    NoSeparatorIndex(a, c);
  }

  /** A digit string, however padded with blanks, is read as a single value. */
  lemma ParseSingle(pre: string, a: string, post: string)
    requires Blank(pre) && Blank(post) && IsDigits(a)
    ensures ParseToken(pre + a + post) == Some(Range(Value(a), Value(a), 1))
  {
    TrimPadding(pre, a, post);
    DigitsWhole(a, '-');
  }

  /** `a-b`, however padded with blanks, is the range from `a` to `b` with step 1. */
  lemma ParsePair(pre: string, a: string, b: string, post: string)
    requires Blank(pre) && Blank(post) && IsDigits(a) && IsDigits(b)
    ensures ParseToken(pre + (a + "-" + b) + post) == Some(Range(Value(a), Value(b), 1))
  {
    var s := a + "-" + b;
    assert s[0] == a[0] && s[|s| - 1] == b[|b| - 1];
    TrimPadding(pre, s, post);
    assert ParseToken(pre + s + post) == ParseTrimmed(s);
    SplitAtFirst(a, '-', b);
    DigitsWhole(b, ':');
    assert ParseUpper(b) == Some((Value(b), 1));
  }

  /** `a-b:c`, however padded with blanks, is the range from `a` to `b` with step `c`. */
  lemma ParseTriple(pre: string, a: string, b: string, c: string, post: string)
    requires Blank(pre) && Blank(post) && IsDigits(a) && IsDigits(b) && IsDigits(c)
    ensures ParseToken(pre + (a + "-" + (b + ":" + c)) + post) == Some(Range(Value(a), Value(b), Value(c)))
  {
    var s := a + "-" + (b + ":" + c);
    assert s[0] == a[0] && s[|s| - 1] == c[|c| - 1];
    TrimPadding(pre, s, post);
    ParseTrimmedTriple(a, b, c);
  }

  /** The same without padding. */
  lemma ParseBareTriple(a: string, b: string, c: string)
    requires IsDigits(a) && IsDigits(b) && IsDigits(c)
    ensures ParseToken(a + "-" + (b + ":" + c)) == Some(Range(Value(a), Value(b), Value(c)))
  {
    var s := a + "-" + (b + ":" + c);
    assert s[0] == a[0] && s[|s| - 1] == c[|c| - 1];
    TrimKeeps(s);
    ParseTrimmedTriple(a, b, c);
  }

  lemma ParseTrimmedTriple(a: string, b: string, c: string)
    requires IsDigits(a) && IsDigits(b) && IsDigits(c)
    ensures ParseTrimmed(a + "-" + (b + ":" + c)) == Some(Range(Value(a), Value(b), Value(c)))
  {
    var rest := b + ":" + c;
    SplitAtFirst(a, '-', rest);
    SplitAtFirst(b, ':', c);
    assert ParseUpper(rest) == Some((Value(b), Value(c)));
  }

  /** The converse of the three lemmas above: a token that parses is, once
      trimmed, exactly `a`, `a-b` or `a-b:c` for digit strings `a`, `b`, `c`,
      and its range holds their values with the defaults for what is absent. */
  lemma ParsedShape(t: string)
    requires ParseToken(t).Some?
    ensures var s, r := Trim(t), ParseToken(t).value;
      || (IsDigits(s) && r == Range(Value(s), Value(s), 1))
      || (exists a, b :: IsDigits(a) && IsDigits(b) && s == a + "-" + b
            && r == Range(Value(a), Value(b), 1))
      || (exists a, b, c :: IsDigits(a) && IsDigits(b) && IsDigits(c) && s == a + "-" + (b + ":" + c)
            && r == Range(Value(a), Value(b), Value(c)))
  {
    TrimmedShape(Trim(t));
  }

  lemma TrimmedShape(s: string)
    requires ParseTrimmed(s).Some?
    ensures var r := ParseTrimmed(s).value;
      || (IsDigits(s) && r == Range(Value(s), Value(s), 1))
      || (exists a, b :: IsDigits(a) && IsDigits(b) && s == a + "-" + b
            && r == Range(Value(a), Value(b), 1))
      || (exists a, b, c :: IsDigits(a) && IsDigits(b) && IsDigits(c) && s == a + "-" + (b + ":" + c)
            && r == Range(Value(a), Value(b), Value(c)))
  {
    var i := IndexOf(s, '-');
    var a := s[..i];
    if i == |s| {
      assert s == a;
    } else {
      var rest := s[i + 1..];
      assert s == a + "-" + rest;
      var hs := ParseUpper(rest).value;
      assert ParseTrimmed(s).value == Range(Value(a), hs.0, hs.1);
      UpperShape(rest);
      if !(IsDigits(rest) && hs == (Value(rest), 1)) {
        var b, c :| IsDigits(b) && IsDigits(c) && rest == b + ":" + c && hs == (Value(b), Value(c));
        assert s == a + "-" + (b + ":" + c);
      }
    }
  }

  /** What follows the '-' of a token that parses: `b`, or `b:c`. */
  lemma UpperShape(rest: string)
    requires ParseUpper(rest).Some?
    ensures var hs := ParseUpper(rest).value;
      || (IsDigits(rest) && hs == (Value(rest), 1))
      || (exists b, c :: IsDigits(b) && IsDigits(c) && rest == b + ":" + c && hs == (Value(b), Value(c)))
  {
    var j := IndexOf(rest, ':');
    var b := rest[..j];
    if j == |rest| {
      assert rest == b;
    } else {
      var c := rest[j + 1..];
      assert rest == b + ":" + c;
    }
  }

  /** `trim` removes blank padding from a string whose ends are not blank. */
  lemma TrimPadding(pre: string, s: string, post: string)
    requires Blank(pre) && Blank(post)
    requires s != [] && !IsControlOrSpace(s[0]) && !IsControlOrSpace(s[|s| - 1])
    ensures Trim(pre + s + post) == s
  {
    TrimStartPadding(pre, s + post);
    assert pre + s + post == pre + (s + post);
    TrimEndPadding(s, post);
  }

  lemma TrimStartPadding(pre: string, s: string)
    requires Blank(pre) && s != [] && !IsControlOrSpace(s[0])
    ensures TrimStart(pre + s) == s
  {
    BlanksFromPadding(pre, s, 0);
    assert (pre + s)[|pre|..] == s;
  }

  lemma {:induction false} BlanksFromPadding(pre: string, s: string, k: nat)
    requires Blank(pre) && s != [] && !IsControlOrSpace(s[0]) && k <= |pre|
    ensures BlanksFrom(pre + s, k) == |pre| - k
    decreases |pre| - k
  {
    var t := pre + s;
    if k < |pre| {
      assert t[k] == pre[k];
      BlanksFromPadding(pre, s, k + 1);
    } else {
      assert t[k] == s[0];
    }
  }

  lemma TrimEndPadding(s: string, post: string)
    requires Blank(post) && s != [] && !IsControlOrSpace(s[|s| - 1])
    ensures TrimEnd(s + post) == s
  {
    BlanksBeforePadding(s, post, |post|);
    assert (s + post)[..|s|] == s;
  }

  lemma {:induction false} BlanksBeforePadding(s: string, post: string, k: nat)
    requires Blank(post) && s != [] && !IsControlOrSpace(s[|s| - 1]) && k <= |post|
    ensures BlanksBefore(s + post, |s| + k) == k
    decreases k
  {
    var t := s + post;
    if k > 0 {
      assert t[|s| + k - 1] == post[k - 1];
      BlanksBeforePadding(s, post, k - 1);
    } else {
      assert t[|s| - 1] == s[|s| - 1];
    }
  }

  /** The values `for(int i = min; i <= max; i += step)` visits, in unbounded
      arithmetic. */
  function Steps(from: nat, max: nat, step: nat): seq<nat>
    requires from > max || step >= 1
    decreases if from > max then 0 else max - from + 1
  {
    if from > max then [] else [from] + Steps(from + step, max, step)
  }

  /** That loop ends without `i += step` passing `Integer.MAX_VALUE`: a step of 0
      with `min <= max` never ends, and a step that wraps `i` round to a negative
      value keeps the loop going through values the token does not denote. */
  predicate NoWrap(from: nat, max: nat, step: nat)
    decreases if from > max then 0 else max - from + 1
  {
    from > max || (step >= 1 && from + step <= IntMax && NoWrap(from + step, max, step))
  }

  /** The token's numbers are Java ints (`parseInt` accepts them) and its loop ends. */
  predicate Admissible(r: Range) {
    r.min <= IntMax && r.max <= IntMax && r.step <= IntMax && NoWrap(r.min, r.max, r.step)
  }

  function Values(r: Range): seq<nat>
    requires Admissible(r)
  {
    Steps(r.min, r.max, r.step)
  }

  /** The expansion of one range: `min, min+step, ...` while at most `max`; nothing
      when `max < min`; and exactly the values of that form up to `max`. */
  lemma {:induction false} ValuesShape(r: Range)
    requires Admissible(r)
    ensures var v := Values(r);
      && (v == [] <==> r.max < r.min)
      && (forall k :: 0 <= k < |v| ==> v[k] == r.min + k * r.step && v[k] <= r.max)
      && (v != [] ==> v[|v| - 1] + r.step > r.max)
  {
    StepsShape(r.min, r.max, r.step);
  }

  lemma {:induction false} StepsShape(from: nat, max: nat, step: nat)
    requires from > max || step >= 1
    ensures var v := Steps(from, max, step);
      && (v == [] <==> max < from)
      && (forall k :: 0 <= k < |v| ==> v[k] == from + k * step && v[k] <= max)
      && (v != [] ==> v[|v| - 1] + step > max)
    decreases if from > max then 0 else max - from + 1
  {
    if from <= max {
      StepsShape(from + step, max, step);
      var v := Steps(from, max, step);
      var w := Steps(from + step, max, step);
      assert v == [from] + w;
      forall k | 1 <= k < |v|
        ensures v[k] == from + k * step
      {
        assert v[k] == w[k - 1] == from + step + (k - 1) * step;
      }
    }
  }

  /** `i + step` on Java `int`s: a sum past `Integer.MAX_VALUE` (or below
      `Integer.MIN_VALUE`) wraps round by 2^32. */
  function AddInt(i: int, step: int): (s: int)
    requires IntMin <= i <= IntMax && IntMin <= step <= IntMax
    ensures IntMin <= s <= IntMax
    ensures s == i + step || s == i + step - 0x1_0000_0000 || s == i + step + 0x1_0000_0000
  {
    var t := i + step;
    if t > IntMax then t - 0x1_0000_0000 else if t < IntMin then t + 0x1_0000_0000 else t
  }

  /** The loop variable of `for(int i = from; i <= max; i += step)` after `k`
      passes of `i += step`, whatever the guard says. */
  function LoopVar(from: int, step: int, k: nat): int
    requires IntMin <= from <= IntMax && IntMin <= step <= IntMax
    decreases k
  {
    if k == 0 then from else LoopVar(AddInt(from, step), step, k - 1)
  }

  /** An admissible loop visits exactly `Steps(from, max, step)`: the variable
      holds the k-th value on the k-th pass, the guard holds on each of them,
      and it fails on the pass after the last. */
  lemma {:induction false} LoopVisitsSteps(from: nat, max: nat, step: nat)
    requires from <= IntMax && max <= IntMax && step <= IntMax && NoWrap(from, max, step)
    ensures var v := Steps(from, max, step);
      && (forall k :: 0 <= k < |v| ==> LoopVar(from, step, k) == v[k] <= max)
      && LoopVar(from, step, |v|) > max
    decreases if from > max then 0 else max - from + 1
  {
    if from <= max {
      assert AddInt(from, step) == from + step;
      LoopVisitsSteps(from + step, max, step);
      var v := Steps(from, max, step);
      var w := Steps(from + step, max, step);
      assert v == [from] + w;
      forall k | 1 <= k < |v|
        ensures LoopVar(from, step, k) == v[k]
      {
        assert LoopVar(from, step, k) == LoopVar(from + step, step, k - 1) == w[k - 1];
      }
      assert LoopVar(from, step, |v|) == LoopVar(from + step, step, |w|);
    }
  }

  /** A step of 0 with `min <= max` never ends: after any number of passes the
      variable is still `min` and the guard `i <= max` still holds. So such a
      range is never admissible. */
  lemma {:induction false} ZeroStepNeverEnds(r: Range, k: nat)
    requires r.min <= r.max <= IntMax && r.step == 0
    ensures LoopVar(r.min, r.step, k) == r.min <= r.max
    ensures !Admissible(r)
  {
    if k > 0 {
      assert AddInt(r.min, 0) == r.min;
      ZeroStepNeverEnds(r, k - 1);
    }
  }

  /** A parsed token whose loop ends: one that did not match (it is skipped), or
      an admissible range. */
  predicate Settled(o: Option<Range>) {
    o.None? || Admissible(o.value)
  }

  /** One token's contribution: nothing when it does not match (logged and skipped). */
  function RangeValues(o: Option<Range>): seq<nat>
    requires Settled(o)
  {
    if o.None? then [] else Values(o.value)
  }

  predicate AllSettled(rs: seq<Option<Range>>) {
    forall k :: 0 <= k < |rs| ==> Settled(rs[k])
  }

  function ExpandRanges(rs: seq<Option<Range>>): seq<nat>
    requires AllSettled(rs)
  {
    if rs == [] then [] else RangeValues(rs[0]) + ExpandRanges(rs[1..])
  }

  /** Every token parsed, in order. */
  function ParseAll(ts: seq<string>): (rs: seq<Option<Range>>)
    ensures |rs| == |ts|
  {
    if ts == [] then [] else [ParseToken(ts[0])] + ParseAll(ts[1..])
  }

  lemma {:induction false} ParseAllIndex(ts: seq<string>, k: nat)
    requires k < |ts|
    ensures ParseAll(ts)[k] == ParseToken(ts[k])
    decreases k
  {
    if k > 0 {
      ParseAllIndex(ts[1..], k - 1);
    }
  }

  /** The parsed tokens of a specifier. */
  function Tokens(specifier: string): seq<Option<Range>> {
    ParseAll(Split(specifier, ','))
  }

  /** Every token of the specifier that matches has a loop that ends. */
  predicate AdmissibleText(specifier: string) {
    AllSettled(Tokens(specifier))
  }

  /** The sequence a specifier denotes. */
  function Expand(specifier: string): seq<nat>
    requires AdmissibleText(specifier)
  {
    ExpandRanges(Tokens(specifier))
  }

  predicate TokenAdmissible(t: string) {
    Settled(ParseToken(t))
  }

  function TokenValues(t: string): seq<nat>
    requires TokenAdmissible(t)
  {
    RangeValues(ParseToken(t))
  }

  lemma Associative<T>(x: seq<T>, y: seq<T>, z: seq<T>)
    ensures x + (y + z) == (x + y) + z
  {
  }

  /** Expansion follows the tokens in source order: tokens are expanded in place. */
  lemma {:induction false} ExpandRangesAppend(a: seq<Option<Range>>, b: seq<Option<Range>>)
    requires AllSettled(a) && AllSettled(b)
    ensures AllSettled(a + b)
    ensures ExpandRanges(a + b) == ExpandRanges(a) + ExpandRanges(b)
    decreases |a|
  {
    assert AllSettled(a + b) by {
      forall k | 0 <= k < |a + b| ensures Settled((a + b)[k]) {
        if k < |a| { assert (a + b)[k] == a[k]; } else { assert (a + b)[k] == b[k - |a|]; }
      }
    }
    if a == [] {
      assert a + b == b;
    } else {
      var ab := a + b;
      assert ab[0] == a[0];
      assert ab[1..] == a[1..] + b;
      ExpandRangesAppend(a[1..], b);
      var v, rest, last := RangeValues(a[0]), ExpandRanges(a[1..]), ExpandRanges(b);
      assert ExpandRanges(ab) == v + (rest + last);
      Associative(v, rest, last);
    }
  }

  /** A parsed specifier: the text it came from and the values it denotes. */
  datatype MultiSpec = MultiSpec(source: string, sequence: seq<nat>) {
    /** The source text is admissible and the values are those it denotes,
        in expansion order. */
    predicate Parsed() {
      AdmissibleText(source) && sequence == Expand(source)
    }

    /** `count()`: the number of values. */
    function Count(): (n: nat)
      ensures Parsed() ==> n == |Expand(source)|
    {
      |sequence|
    }

    /** `get(i)`: the `i`-th value, or the `IndexOutOfBoundsException` of
        `List.get` for an index outside the list. */
    function Get(i: int): (r: Result<nat>)
      ensures r.Success? <==> 0 <= i < Count()
      ensures r.Failure? ==> r.fault == IndexOutOfBounds
      ensures r.Success? && Parsed() ==> r.value == Expand(source)[i]
    {
      if 0 <= i < |sequence| then Success(sequence[i]) else Failure(IndexOutOfBounds)
    }
  }

  /** An integer reduced to 32 bits in two's complement, as a Java `int`
      holds the result of an arithmetic operation. */
  function Wrap32(x: int): (w: int)
    ensures IntMin <= w <= IntMax
    ensures (x - w) % 0x1_0000_0000 == 0
    ensures IntMin <= x <= IntMax ==> w == x
  {
    var t := x % 0x1_0000_0000;
    if t > IntMax then t - 0x1_0000_0000 else t
  }

  /** `a * b` on Java `int`s. */
  function MulInt(a: int, b: int): int {
    Wrap32(a * b)
  }

  /** Products past `Integer.MAX_VALUE` wrap: 65536 * 65536 is 0 and
      65536 * 32768 is `Integer.MIN_VALUE`. */
  lemma ProductsWrap()
    ensures MulInt(65536, 65536) == 0
    ensures MulInt(65536, 32768) == IntMin
  {
    assert 65536 * 65536 == 0x1_0000_0000;
    assert 65536 * 32768 == 0x8000_0000;
  }

  /** The `MultiSpec` constructor: split on ',', trim and match every token, skip
      the ones that do not match, and append each matching token's values. */
  method Parse(specifier: string) returns (m: MultiSpec)
    requires AdmissibleText(specifier)
    ensures m.source == specifier && m.Parsed()
    ensures m.sequence == Expand(specifier)
  {
    var inranges := Split(specifier, ',');
    ghost var rs := Tokens(specifier);
    var sequence: seq<nat> := [];
    for k := 0 to |inranges|
      invariant sequence == ExpandRanges(rs[..k])
    {
      ExpandNext(rs, k);
      var r := ParseToken(inranges[k]);
      ParseAllIndex(inranges, k);
      if r.None? {
        continue;
      }
      sequence := AppendRange(sequence, r.value);
    }
    assert rs[..|rs|] == rs;
    m := MultiSpec(specifier, sequence);
  }

  /** The inner loop of the constructor: `for(int i = min; i <= max; i += step)
      sequence.add(i)`. */
  method AppendRange(sequence: seq<nat>, r: Range) returns (result: seq<nat>)
    requires Admissible(r)
    ensures result == sequence + Values(r)
  {
    result := sequence;
    var min, max, step := r.min, r.max, r.step;
    var i := min;
    while i <= max
      invariant i <= IntMax && NoWrap(i, max, step)
      invariant result + Steps(i, max, step) == sequence + Values(r)
      decreases max - i
    {
      ghost var later := Steps(i + step, max, step);
      assert Steps(i, max, step) == [i] + later;
      assert result + Steps(i, max, step) == (result + [i]) + later;
      result := result + [i];
      i := i + step;
    }
  }

  /** Expanding one more token of a list appends that token's values. */
  lemma ExpandNext(rs: seq<Option<Range>>, k: nat)
    requires AllSettled(rs) && k < |rs|
    ensures AllSettled(rs[..k]) && AllSettled(rs[..k + 1])
    ensures ExpandRanges(rs[..k + 1]) == ExpandRanges(rs[..k]) + RangeValues(rs[k])
  {
    assert rs[..k + 1] == rs[..k] + [rs[k]];
    ExpandSingleton(rs[k]);
    ExpandRangesAppend(rs[..k], [rs[k]]);
  }

  /** A specifier with no ',' is a single token. */
  lemma OneToken(s: string)
    requires ',' !in s
    ensures Split(s, ',') == [s]
  {
    NoSeparatorIndex(s, ',');
  }

  lemma ValueOfDigit(c: char)
    requires IsDigit(c)
    ensures Value([c]) == DigitValue(c)
  {
    assert [c][..0] == [];
  }

  /** Stepping from 1 to 5 by 2 gives 1, 3, 5: the last value is the largest
      one not above the maximum. */
  lemma ValuesStep()
    ensures Admissible(Range(1, 5, 2)) && Values(Range(1, 5, 2)) == [1, 3, 5]
  {
    assert NoWrap(5, 5, 2) && NoWrap(3, 5, 2) && NoWrap(1, 5, 2);
    assert Steps(7, 5, 2) == [];
    assert Steps(5, 5, 2) == [5];
    assert Steps(3, 5, 2) == [3, 5];
  }

  /** A specifier that is a single number denotes just that number. */
  lemma ExpandDigits(a: string)
    requires IsDigits(a) && Value(a) < IntMax
    ensures AdmissibleText(a) && Expand(a) == [Value(a)]
  {
    var v := Value(a);
    assert ParseToken(a) == Some(Range(v, v, 1)) by {
      ParseSingle("", a, "");
      assert "" + a + "" == a;
    }
    SingleValue(v);
    DigitsExclude(a, ',');
    ExpandOne(a);
  }

  /** Stepping from `v` to `v` visits `v` alone. */
  lemma SingleValue(v: nat)
    requires v < IntMax
    ensures Admissible(Range(v, v, 1)) && Values(Range(v, v, 1)) == [v]
  {
    assert NoWrap(v + 1, v, 1);
    assert Steps(v, v, 1) == [v] + Steps(v + 1, v, 1);
  }

  /** A specifier without a comma is one token. */
  lemma ExpandOne(a: string)
    requires ',' !in a && TokenAdmissible(a)
    ensures AdmissibleText(a) && Expand(a) == TokenValues(a)
  {
    OneToken(a);
    assert ParseAll([a]) == [ParseToken(a)] + ParseAll([]);
    ExpandSingleton(ParseToken(a));
  }

  lemma ExpandSingleton(o: Option<Range>)
    requires Settled(o)
    ensures AllSettled([o]) && ExpandRanges([o]) == RangeValues(o)
  {
    assert [o][1..] == [];
  }

  /** A specifier `min-max:step` denotes the values from `min` to `max` by `step`. */
  lemma ExpandTriple(a: string, b: string, c: string)
    requires IsDigits(a) && IsDigits(b) && IsDigits(c)
    requires Admissible(Range(Value(a), Value(b), Value(c)))
    ensures AdmissibleText(a + "-" + (b + ":" + c))
    ensures Expand(a + "-" + (b + ":" + c)) == Values(Range(Value(a), Value(b), Value(c)))
  {
    var s := a + "-" + (b + ":" + c);
    ParseBareTriple(a, b, c);
    DigitsExclude(a, ',');
    DigitsExclude(b, ',');
    DigitsExclude(c, ',');
    ExpandOne(s);
  }

  /** Two tokens separated by a comma expand to the first token's values
      followed by the second's: tokens keep their source order. */
  lemma ExpandTwo(a: string, b: string)
    requires ',' !in a && ',' !in b
    requires TokenAdmissible(a) && TokenAdmissible(b)
    ensures AdmissibleText(a + "," + b)
    ensures Expand(a + "," + b) == TokenValues(a) + TokenValues(b)
  {
    var x, y := ParseToken(a), ParseToken(b);
    ParseTwo(a, b);
    ExpandSingleton(x);
    ExpandSingleton(y);
    ExpandRangesAppend([x], [y]);
    assert [x] + [y] == [x, y];
  }

  lemma ParseTwo(a: string, b: string)
    requires ',' !in a && ',' !in b
    ensures Tokens(a + "," + b) == [ParseToken(a), ParseToken(b)]
  {
    SplitAtFirst2(a, b);
    assert [a, b][1..] == [b];
    assert ParseAll([b]) == [ParseToken(b)] + ParseAll([]);
    assert ParseAll([a, b]) == [ParseToken(a)] + ParseAll([b]);
  }

  lemma SplitAtFirst2(a: string, b: string)
    requires ',' !in a && ',' !in b
    ensures Split(a + "," + b, ',') == [a, b]
  {
    var s := a + "," + b;
    NoSeparatorIndex(a, ',');
    PrefixIndex(a, "," + b, ',');
    assert s == a + ("," + b);
    assert s[..|a|] == a && s[|a| + 1..] == b;
    OneToken(b);
  }

  /** A token that does not match, such as `"x"`, is skipped rather than fatal. */
  lemma ExampleInvalid()
    ensures AdmissibleText("x") && Expand("x") == []
  {
    OneToken("x");
    TrimKeeps("x");
    assert IndexOf("x", '-') == 1;
    assert !IsDigits("x"[..1]);
    assert ParseToken("x") == None;
    assert ParseAll(["x"]) == [None] + ParseAll([]);
    assert Tokens("x") == [None];
    ExpandSingleton(None);
    assert AdmissibleText("x");
  }
}
