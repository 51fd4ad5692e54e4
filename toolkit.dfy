/** `OpenSPIMToolkit`: the registration fields and their macro-option text, the
    specifier they describe, the sibling `registration` and `output`
    directories of a view, and the line structure of a bead list. */
module Toolkit {
  import opened Common
  import opened Text
  import opened RangeSpec
  import opened DataSpecifier

  // ---------------------------------------------------------------------------
  // Field values
  // ---------------------------------------------------------------------------

  /** The `Object` a field holds: `null`, an `Integer`, a `Double` (carried as
      its `toString()` and `%.6f` renderings, floating point not being
      modelled), or any other object (a `String` in practice) as its
      `toString()`. */
  datatype FieldValue =
    | Null
    | Int(i: int)
    | Double(shown: string, fixed: string)
    | Object(shown: string)

  /** The `RegField` enum constants. */
  datatype RegField = PathField | PatternField | TimepointsField | AnglesField
    | Radius1 | Radius2 | Threshold | PixelSizeXY | PixelSizeZ
  {
    function Name(): string {
      match this
      case PathField => "spim_data_directory"
      case PatternField => "pattern_of_spim"
      case TimepointsField => "timepoints_to_process"
      case AnglesField => "angles_to_process"
      case Radius1 => "channel_0_radius_1"
      case Radius2 => "channel_0_radius_2"
      case Threshold => "channel_0_threshold"
      case PixelSizeXY => "xy_resolution"
      case PixelSizeZ => "z_resolution"
    }

    /** The value each constant starts with. */
    function Default(): FieldValue {
      match this
      case PathField => Object("")
      case PatternField => Object("spim_TL{tt}_Angle{a}.tiff")
      case TimepointsField => Object("1")
      case AnglesField => Object("0-5:1")
      case Radius1 => Int(1)
      case Radius2 => Int(2)
      case Threshold => Double("0.01", "0.010000")
      case PixelSizeXY => Double("0.652", "0.652000")
      case PixelSizeZ => Int(3)
    }
  }

  /** `RegField.values()`. */
  const AllFields: seq<RegField> := [PathField, PatternField, TimepointsField, AnglesField,
    Radius1, Radius2, Threshold, PixelSizeXY, PixelSizeZ]

  /** `getStringValue()`. */
  function StringValue(v: FieldValue): (s: string)
    ensures v.Null? ==> s == "(null)"
    ensures v.Object? ==> s == v.shown
  {
    match v
    case Null => "(null)"
    case Int(i) => IntText(i)
    case Double(shown, _) => shown
    case Object(shown) => shown
  }

  /** `getIntValue()`: 0 for anything but an `Integer`. */
  function IntValue(v: FieldValue): (i: int)
    ensures !v.Int? ==> i == 0
  {
    if v.Int? then v.i else 0
  }

  /** `getMacroParameter()`. */
  function MacroParameter(f: RegField, v: FieldValue): (p: string)
    ensures v.Null? <==> p == ""
    ensures !v.Null? ==> f.Name() + "=" <= p
  {
    match v
    case Null => ""
    case Int(i) => f.Name() + "=" + IntText(i)
    case Double(_, fixed) => f.Name() + "=" + fixed
    case Object(shown) => f.Name() + "=[" + shown + "]"
  }

  /** An `Integer` parameter is `name=` and a decimal that reads back as the
      value; any other non-null, non-`Double` value is `name=[value]`, the
      value verbatim; a `null` value contributes nothing. */
  lemma MacroParameterShape(f: RegField, v: FieldValue)
    ensures v.Null? <==> MacroParameter(f, v) == ""
    ensures v.Int? && v.i >= 0 ==>
      var p := MacroParameter(f, v);
      && p[..|f.Name()| + 1] == f.Name() + "="
      && AllDigits(p[|f.Name()| + 1..]) && Value(p[|f.Name()| + 1..]) == v.i
    ensures v.Object? ==>
      var p := MacroParameter(f, v);
      && p[..|f.Name()| + 2] == f.Name() + "=[" && p[|p| - 1] == ']'
      && p[|f.Name()| + 2..|p| - 1] == v.shown
  {
    if v.Int? && v.i >= 0 {
      var p := MacroParameter(f, v);
      assert p == (f.Name() + "=") + Decimal(v.i);
      DecimalValue(v.i);
    }
    if v.Object? {
      var p := MacroParameter(f, v);
      assert p == (f.Name() + "=[") + v.shown + "]";
    }
  }

  /** The parameters of `fields`, in order. */
  function Params(values: map<RegField, FieldValue>, fields: seq<RegField>): (ps: seq<string>)
    requires forall f :: f in values
    ensures |ps| == |fields|
  {
    if fields == [] then [] else Params(values, fields[..|fields| - 1]) + [MacroParameter(fields[|fields| - 1], values[fields[|fields| - 1]])]
  }

  /** What the `StringBuilder` of `getMacroOptions` holds: every piece followed by a space. */
  function Terminated(ps: seq<string>): string {
    if ps == [] then "" else Terminated(ps[..|ps| - 1]) + ps[|ps| - 1] + " "
  }

  lemma {:induction false} JoinSnoc(ps: seq<string>, p: string, sep: char)
    requires ps != []
    ensures Join(ps + [p], sep) == Join(ps, sep) + [sep] + p
    decreases |ps|
  {
    var qs := ps + [p];
    assert qs[0] == ps[0];
    if |ps| > 1 {
      assert qs[1..] == ps[1..] + [p];
      JoinSnoc(ps[1..], p, sep);
    } else {
      assert qs[1..] == [p];
    }
  }

  /** Dropping the last space leaves the pieces joined by single spaces. */
  lemma {:induction false} TerminatedJoin(ps: seq<string>)
    requires ps != []
    ensures Terminated(ps) == Join(ps, ' ') + " "
    decreases |ps|
  {
    var init := ps[..|ps| - 1];
    if init != [] {
      TerminatedJoin(init);
      JoinSnoc(init, ps[|ps| - 1], ' ');
      assert init + [ps[|ps| - 1]] == ps;
    }
  }

  /** `new File(text)`: the components of the text, behind the root component
      when the text starts with a separator. A text already in normal form is
      kept as written. */
  function PathOf(text: string): (p: Path)
    ensures p != [] && p[0] == "" <==> text != "" && text[0] == '/'
    ensures forall k :: 0 < k < |p| ==> IsComponent(p[k])
    ensures Normal(text) ==> PathText(p) == text
  {
    if text != "" && text[0] == '/' then
      UnrootedText(text);
      [""] + Components(text)
    else
      RelativeText(text);
      Components(text)
  }

  /** A normal text not starting with a separator reads back from its components. */
  lemma RelativeText(text: string)
    requires text == "" || text[0] != '/'
    ensures Normal(text) ==> PathText(Components(text)) == text
    ensures Components(text) != [] ==> Components(text)[0] != ""
  {
    if Normal(text) && text != "" {
      var ps := Split(text, '/');
      NonEmptyKeeps(ps);
      JoinSplit(text, '/');
      assert ps[0] != "";
    }
  }

  /** A normal text starting with a separator reads back as the root and its components. */
  lemma UnrootedText(text: string)
    requires text != "" && text[0] == '/'
    ensures Normal(text) ==> PathText([""] + Components(text)) == text
  {
    var rest := text[1..];
    assert Components(text) == Components(rest) by {
      assert text == "" + "/" + rest;
      ComponentsAppend("", rest);
      ComponentsEmpty();
    }
    if Normal(text) && text != "/" {
      var ps := Split(rest, '/');
      assert Components(rest) == ps by {
        assert Unrooted(text) == rest;
        NonEmptyKeeps(ps);
      }
      assert Join(ps, '/') == rest by {
        JoinSplit(rest, '/');
      }
      assert Join([""] + ps, '/') == "" + ['/'] + Join(ps, '/') by {
        assert ([""] + ps)[1..] == ps;
      }
      assert text == "/" + rest;
    } else if text == "/" {
      assert rest == "";
      ComponentsEmpty();
    }
  }

  /** `new File` collapses a doubled separator. */
  lemma PathOfCollapses(x: string, y: string)
    ensures PathOf(x + "//" + y) == PathOf(x + "/" + y)
  {
    var doubled, single := x + "//" + y, x + "/" + y;
    assert doubled == x + "/" + ("/" + y);
    assert Components(doubled) == Components(x) + Components("/" + y) by {
      ComponentsAppend(x, "/" + y);
    }
    assert Components("/" + y) == Components(y) by {
      assert "/" + y == "" + "/" + y;
      ComponentsAppend("", y);
      ComponentsEmpty();
    }
    assert Components(single) == Components(x) + Components(y) by {
      ComponentsAppend(x, y);
    }
    assert doubled[0] == single[0];
  }

  /** `new File` drops a trailing separator, except from the root. */
  lemma PathOfTrailing(x: string)
    requires x != ""
    ensures PathOf(x + "/") == PathOf(x)
  {
    assert x + "/" == x + "/" + "";
    ComponentsAppend(x, "");
    ComponentsEmpty();
    assert (x + "/")[0] == x[0];
  }

  // ---------------------------------------------------------------------------
  // The fields' shared state
  // ---------------------------------------------------------------------------

  /** The `value` of every `RegField` constant: global state changed by `setValue`. */
  class Registry {
    var values: map<RegField, FieldValue>

    ghost predicate Valid()
      reads this
    {
      forall f :: f in values
    }

    constructor ()
      ensures Valid()
      ensures forall f :: values[f] == f.Default()
    {
      values := map f: RegField | f in AllFields :: f.Default();
      new;
      forall f: RegField
        ensures f in values
      {
        assert f in AllFields by {
          match f
          case PathField => assert AllFields[0] == f;
          case PatternField => assert AllFields[1] == f;
          case TimepointsField => assert AllFields[2] == f;
          case AnglesField => assert AllFields[3] == f;
          case Radius1 => assert AllFields[4] == f;
          case Radius2 => assert AllFields[5] == f;
          case Threshold => assert AllFields[6] == f;
          case PixelSizeXY => assert AllFields[7] == f;
          case PixelSizeZ => assert AllFields[8] == f;
        }
      }
    }

    /** `getValue()`: the value the field holds. */
    function GetValue(f: RegField): (v: FieldValue)
      reads this
      requires Valid()
      ensures v == values[f]
    {
      values[f]
    }

    /** `setValue(v)`: `getValue()` then returns `v`, and no other field changes. */
    method SetValue(f: RegField, v: FieldValue)
      requires Valid()
      modifies this
      ensures Valid()
      ensures values == old(values)[f := v]
      ensures GetValue(f) == v && forall g :: g != f ==> GetValue(g) == old(GetValue(g))
    {
      values := values[f := v];
    }

    /** `getMacroOptions(vals)`: the parameters joined by single spaces. With no
        field at all, `substring(0, -1)` throws. */
    method MacroOptions(fields: seq<RegField>) returns (r: Result<string>)
      requires Valid()
      ensures fields == [] ==> r == Failure(IndexOutOfBounds)
      ensures fields != [] ==> r == Success(Join(Params(values, fields), ' '))
    {
      var sb := "";
      for i := 0 to |fields|
        invariant sb == Terminated(Params(values, fields[..i]))
      {
        assert fields[..i + 1][..i] == fields[..i];
        sb := sb + MacroParameter(fields[i], values[fields[i]]) + " ";
      }
      assert fields[..|fields|] == fields;
      if |sb| == 0 {
        return Failure(IndexOutOfBounds);
      }
      TerminatedJoin(Params(values, fields));
      r := Success(sb[..|sb| - 1]);
    }

    /** `getLastSpecifier()`: a specifier of the current path, pattern,
        timepoints and angles texts. */
    method LastSpecifier() returns (spec: SpimDataSpecifier)
      requires Valid()
      requires AdmissibleText(StringValue(GetValue(TimepointsField)))
      requires AdmissibleText(StringValue(GetValue(AnglesField)))
      ensures fresh(spec) && spec.Valid() && !spec.open
      ensures spec.directory == PathOf(StringValue(GetValue(PathField)))
      ensures spec.pattern == StringValue(GetValue(PatternField))
      ensures spec.timepoints.source == StringValue(GetValue(TimepointsField))
      ensures spec.angles.source == StringValue(GetValue(AnglesField))
    {
      spec := new SpimDataSpecifier(PathOf(StringValue(values[PathField])), StringValue(values[PatternField]),
        StringValue(values[TimepointsField]), StringValue(values[AnglesField]));
    }
  }

  /** The specifier's own parameter string is exactly the macro options of the
      four specifier fields, when they hold texts and the path is absolute:
      cancelling the dialog records the specifier it would have run. */
  lemma SpecifierOptions(values: map<RegField, FieldValue>, spec: SpimDataSpecifier)
    requires forall f :: f in values
    requires values[PathField].Object? && values[PatternField].Object?
    requires values[TimepointsField].Object? && values[AnglesField].Object?
    requires spec.pattern == values[PatternField].shown
    requires spec.timepoints.source == values[TimepointsField].shown
    requires spec.angles.source == values[AnglesField].shown
    ensures Join(Params(values, [PathField, PatternField, TimepointsField, AnglesField]), ' ')
      == spec.ParameterString(values[PathField].shown)
  {
    var p0 := MacroParameter(PathField, values[PathField]);
    var p1 := MacroParameter(PatternField, values[PatternField]);
    var p2 := MacroParameter(TimepointsField, values[TimepointsField]);
    var p3 := MacroParameter(AnglesField, values[AnglesField]);
    assert Params(values, [PathField, PatternField, TimepointsField, AnglesField]) == [p0, p1, p2, p3] by {
      FourParams(values);
    }
    JoinFour(p0, p1, p2, p3);
    Regroup(PathField.Name(), PatternField.Name(), TimepointsField.Name(), AnglesField.Name(),
      values[PathField].shown, spec.pattern, spec.timepoints.source, spec.angles.source);
    OptionSeparators();
  }

  /** The parameters of the four specifier fields, in order. */
  lemma FourParams(values: map<RegField, FieldValue>)
    requires forall f :: f in values
    ensures Params(values, [PathField, PatternField, TimepointsField, AnglesField])
      == [MacroParameter(PathField, values[PathField]), MacroParameter(PatternField, values[PatternField]),
          MacroParameter(TimepointsField, values[TimepointsField]), MacroParameter(AnglesField, values[AnglesField])]
  {
    var p0 := MacroParameter(PathField, values[PathField]);
    var p1 := MacroParameter(PatternField, values[PatternField]);
    var p2 := MacroParameter(TimepointsField, values[TimepointsField]);
    var p3 := MacroParameter(AnglesField, values[AnglesField]);
    var f1 := [] + [PathField];
    var f2 := f1 + [PatternField];
    var f3 := f2 + [TimepointsField];
    var f4 := f3 + [AnglesField];
    ParamsSnoc(values, [], PathField);
    ParamsSnoc(values, f1, PatternField);
    ParamsSnoc(values, f2, TimepointsField);
    ParamsSnoc(values, f3, AnglesField);
    assert Params(values, f4) == [p0, p1, p2, p3];
    assert f4 == [PathField, PatternField, TimepointsField, AnglesField];
  }

  /** One more field adds its parameter at the end. */
  lemma ParamsSnoc(values: map<RegField, FieldValue>, fields: seq<RegField>, f: RegField)
    requires forall f :: f in values
    ensures Params(values, fields + [f]) == Params(values, fields) + [MacroParameter(f, values[f])]
  {
    assert (fields + [f])[..|fields|] == fields;
  }

  /** Four parameters joined by spaces. */
  lemma JoinFour(p0: string, p1: string, p2: string, p3: string)
    ensures Join([p0, p1, p2, p3], ' ') == p0 + " " + (p1 + " " + (p2 + " " + p3))
  {
    assert Join([p3], ' ') == p3;
    assert [p2, p3][1..] == [p3];
    assert Join([p2, p3], ' ') == p2 + " " + p3;
    assert [p1, p2, p3][1..] == [p2, p3];
    assert Join([p1, p2, p3], ' ') == p1 + " " + (p2 + " " + p3);
    assert [p0, p1, p2, p3][1..] == [p1, p2, p3];
  }

  lemma Regroup(n0: string, n1: string, n2: string, n3: string, x0: string, x1: string, x2: string, x3: string)
    ensures (n0 + "=[" + x0 + "]") + " " + ((n1 + "=[" + x1 + "]") + " " + ((n2 + "=[" + x2 + "]") + " " + (n3 + "=[" + x3 + "]")))
      == (n0 + "=[") + x0 + ("] " + n1 + "=[") + x1 + ("] " + n2 + "=[") + x2 + ("] " + n3 + "=[") + x3 + "]"
  {
  }

  lemma OptionSeparators()
    ensures PathField.Name() + "=[" == "spim_data_directory=["
    ensures "] " + PatternField.Name() + "=[" == "] pattern_of_spim=["
    ensures "] " + TimepointsField.Name() + "=[" == "] timepoints_to_process=["
    ensures "] " + AnglesField.Name() + "=[" == "] angles_to_process=["
  {
    FirstSeparator();
    PatternSeparator();
    TimepointsSeparator();
    AnglesSeparator();
  }

  lemma FirstSeparator()
    ensures PathField.Name() + "=[" == "spim_data_directory=["
  {
  }

  lemma PatternSeparator()
    ensures "] " + PatternField.Name() + "=[" == "] pattern_of_spim=["
  {
  }

  lemma TimepointsSeparator()
    ensures "] " + TimepointsField.Name() + "=[" == "] timepoints_to_process=["
  {
  }

  lemma AnglesSeparator()
    ensures "] " + AnglesField.Name() + "=[" == "] angles_to_process=["
  {
  }

  /** The default timepoints `"1"` and angles `"0-5:1"` describe six files. */
  lemma DefaultSpecifierCount(timepoints: string, angles: string)
    requires timepoints == StringValue(TimepointsField.Default())
    requires angles == StringValue(AnglesField.Default())
    ensures AdmissibleText(timepoints) && AdmissibleText(angles)
    ensures |Expand(timepoints)| * |Expand(angles)| == 6
  {
    DefaultTimepoints(timepoints);
    DefaultAngles(angles);
    var tps, ans := Expand(timepoints), Expand(angles);
    assert |tps| == 1 && |ans| == 6;
  }

  /** The default timepoint text `1` denotes the single timepoint 1. */
  lemma DefaultTimepoints(timepoints: string)
    requires timepoints == StringValue(TimepointsField.Default())
    ensures AdmissibleText(timepoints) && Expand(timepoints) == [1]
  {
    var one := "1";
    assert timepoints == one;
    ValueOfDigit('1');
    assert Value(one) == 1;
    ExpandDigits(one);
  }

  /** The default angle text `0-5:1` denotes the six angles 0 to 5. */
  lemma DefaultAngles(angles: string)
    requires angles == StringValue(AnglesField.Default())
    ensures AdmissibleText(angles) && Expand(angles) == [0, 1, 2, 3, 4, 5]
  {
    var one, zero, five := "1", "0", "5";
    assert angles == zero + "-" + (five + ":" + one);
    ValueOfDigit('1');
    ValueOfDigit('0');
    ValueOfDigit('5');
    assert Value(one) == 1 && Value(zero) == 0 && Value(five) == 5;
    ExpandTriple(zero, five, one);
    SixAngles();
  }

  /** Stepping from 0 to 5 by 1 visits the six angles 0 to 5. */
  lemma SixAngles()
    ensures Admissible(Range(0, 5, 1)) && Values(Range(0, 5, 1)) == [0, 1, 2, 3, 4, 5]
  {
    assert NoWrap(6, 5, 1) && NoWrap(5, 5, 1) && NoWrap(4, 5, 1) && NoWrap(3, 5, 1)
      && NoWrap(2, 5, 1) && NoWrap(1, 5, 1) && NoWrap(0, 5, 1);
    assert Steps(6, 5, 1) == [];
    assert Steps(5, 5, 1) == [5];
    assert Steps(4, 5, 1) == [4, 5];
    assert Steps(3, 5, 1) == [3, 4, 5];
    assert Steps(2, 5, 1) == [2, 3, 4, 5];
    assert Steps(1, 5, 1) == [1, 2, 3, 4, 5];
  }

  // ---------------------------------------------------------------------------
  // Directories and bead lists
  // ---------------------------------------------------------------------------

  /** The two directory names used beside a view are single, distinct components. */
  lemma SiblingNames()
    ensures IsComponent("registration") && IsComponent("output") && "registration" != "output"
  {
    assert "registration"[0] != "output"[0];
  }

  /** `getRegistrationDirectory(view)`: `registration` beside the view. */
  function RegistrationDirectory(view: Path): (d: Path)
    ensures Name(d) == "registration" && Parent(d) == Parent(view)
  {
    SiblingNames();
    Child(Parent(view), "registration")
  }

  /** `getOutputDirectory(view)`: `output` beside the view. */
  function OutputDirectory(view: Path): (d: Path)
    ensures Name(d) == "output" && Parent(d) == Parent(view)
  {
    SiblingNames();
    Child(Parent(view), "output")
  }

  /** The bead list of a view: `<view name>.beads.txt` in its registration directory. */
  function BeadsFile(view: Path): (p: Path)
    ensures Parent(p) == RegistrationDirectory(view) && Name(p) == Name(view) + ".beads.txt"
  {
    Child(RegistrationDirectory(view), Name(view) + ".beads.txt")
  }

  /** Views in the same directory share their registration and output directories. */
  lemma SiblingsShareDirectories(v: Path, w: Path)
    requires Parent(v) == Parent(w)
    ensures RegistrationDirectory(v) == RegistrationDirectory(w)
    ensures OutputDirectory(v) == OutputDirectory(w)
    ensures RegistrationDirectory(v) != OutputDirectory(v)
  {
    assert Name(RegistrationDirectory(v)) != Name(OutputDirectory(v));
  }

  /** A file name with a separator places the view in a subdirectory, which
      holds the view's own registration directory and bead list. */
  lemma NestedViewDirectories(dir: Path, sub: string, name: string)
    requires IsComponent(sub) && IsComponent(name)
    ensures Name(Child(dir, sub + "/" + name)) == name
    ensures Parent(Child(dir, sub + "/" + name)) == Child(dir, sub)
    ensures RegistrationDirectory(Child(dir, sub + "/" + name)) == Child(Child(dir, sub), "registration")
    ensures BeadsFile(Child(dir, sub + "/" + name)) ==
      Child(Child(Child(dir, sub), "registration"), name + ".beads.txt")
  {
    ChildSplits(dir, sub, name);
  }

  /** A bead position: the third to fifth `Scanner` tokens of its line (the
      numbers themselves are not interpreted). */
  datatype Bead = Bead(x: string, y: string, z: string)

  /** The value of a text of decimal digits, or `None` when the text holds
      any other character. */
  function DigitsValue(t: string): Option<nat>
    decreases |t|
  {
    if t == "" then Some(0)
    else match DigitsValue(t[..|t| - 1])
      case None => None
      case Some(v) => if IsDigit(t[|t| - 1]) then Some(v * 10 + DigitValue(t[|t| - 1])) else None
  }

  /** A digit text has its decimal value; any other text has none. */
  lemma {:induction false} DigitsValueOf(t: string)
    ensures DigitsValue(t).Some? <==> AllDigits(t)
    ensures AllDigits(t) ==> DigitsValue(t) == Some(Value(t))
    decreases |t|
  {
    if t != "" {
      var init := t[..|t| - 1];
      DigitsValueOf(init);
      assert AllDigits(t) ==> AllDigits(init) by {
        assert forall i :: 0 <= i < |init| ==> init[i] == t[i];
      }
      assert AllDigits(init) && IsDigit(t[|t| - 1]) ==> AllDigits(t) by {
        assert forall i :: 0 <= i < |init| ==> init[i] == t[i];
      }
    }
  }

  /** A token `Scanner.nextInt` reads: an optional sign, then decimal digits
      whose value fits an `int`. */
  predicate IsIntToken(t: string) {
    var signed := t != "" && (t[0] == '-' || t[0] == '+');
    var digits := if signed then t[1..] else t;
    var v := DigitsValue(digits);
    digits != "" && v.Some? && v.value <= (if signed && t[0] == '-' then IntMax + 1 else IntMax)
  }

  /** The bead of one record: `nextInt` twice, then `nextDouble` three times.
      A line with fewer than five tokens, or whose first two tokens are not
      `int`s, makes the `Scanner` throw. */
  function BeadOf(line: string): (r: Result<Bead>)
    ensures var fs := Fields(line);
      r.Failure? <==> |fs| < 5 || !IsIntToken(fs[0]) || !IsIntToken(fs[1])
    ensures r.Failure? ==> r.fault == NoSuchElement
  {
    var fs := Fields(line);
    if |fs| < 5 || !IsIntToken(fs[0]) || !IsIntToken(fs[1]) then Failure(NoSuchElement)
    else Success(Bead(fs[2], fs[3], fs[4]))
  }

  /** A record written as its bead id, view id (two `int`s), the three
      coordinates and any further tokens, separated by spaces, is read back as
      those coordinates. */
  lemma BeadOfRecord(ws: seq<string>)
    requires |ws| >= 5 && forall k :: 0 <= k < |ws| ==> IsWord(ws[k])
    requires IsIntToken(ws[0]) && IsIntToken(ws[1])
    ensures BeadOf(Join(ws, ' ')) == Success(Bead(ws[2], ws[3], ws[4]))
  {
    FieldsJoin(ws);
  }

  /** A record whose first token is not an `int` throws on its bead id,
      whatever follows. */
  lemma NonNumericIdThrows(id: string, rest: string)
    requires IsWord(id) && !IsIntToken(id)
    requires rest == [] || IsWhitespace(rest[0])
    ensures BeadOf(id + rest) == Failure(NoSuchElement)
  {
    FieldsCons(id, rest);
  }

  /** The beads of the records `lines`, in order; the first malformed record throws. */
  function BeadsOf(lines: seq<string>): (r: Result<seq<Bead>>)
    ensures r.Failure? ==> r.fault == NoSuchElement
  {
    if lines == [] then Success([])
    else match BeadOf(lines[0])
      case Failure(e) => Failure(e)
      case Success(b) =>
        match BeadsOf(lines[1..])
        case Failure(e) => Failure(e)
        case Success(bs) => Success([b] + bs)
  }

  lemma {:induction false} BeadsOfLength(lines: seq<string>)
    ensures BeadsOf(lines).Success? ==> |BeadsOf(lines).value| == |lines|
    ensures BeadsOf(lines).Success? <==> forall k :: 0 <= k < |lines| ==> BeadOf(lines[k]).Success?
    ensures BeadsOf(lines).Success? ==>
      forall k :: 0 <= k < |lines| ==> BeadsOf(lines).value[k] == BeadOf(lines[k]).value
  {
    if lines != [] {
      BeadsOfLength(lines[1..]);
      assert forall k :: 1 <= k < |lines| ==> lines[k] == lines[1..][k - 1];
    }
  }

  /** `loadBeadsSimple(view)` given the view's bead file (`None` when it is
      missing or cannot be read): the header is skipped and every later line
      gives one bead, in file order; an empty file throws on the header. */
  method LoadBeadsSimple(file: Option<seq<string>>) returns (r: Result<Option<seq<Bead>>>)
    ensures file.None? ==> r == Success(None)
    ensures file == Some([]) ==> r == Failure(NoSuchElement)
    ensures file.Some? && file.value != [] ==>
      match BeadsOf(file.value[1..])
      case Success(bs) => r == Success(Some(bs))
      case Failure(e) => r == Failure(e)
  {
    if file.None? {
      return Success(None);
    }
    var lines := file.value;
    if lines == [] {
      return Failure(NoSuchElement);
    }
    var beads: seq<Bead> := [];
    var i := 1;
    AppendNothing(BeadsOf(lines[1..]));
    while i < |lines|
      invariant 1 <= i <= |lines|
      invariant BeadsOf(lines[1..]) == Append(beads, BeadsOf(lines[i..]))
    {
      var b := BeadOf(lines[i]);
      assert lines[i..][0] == lines[i] && lines[i..][1..] == lines[i + 1..];
      if b.Failure? {
        return Failure(b.fault);
      }
      AppendAfter(beads, b.value, BeadsOf(lines[i + 1..]));
      beads := beads + [b.value];
      i := i + 1;
    }
    assert beads + [] == beads;
    r := Success(Some(beads));
  }

  lemma AppendNothing(r: Result<seq<Bead>>)
    ensures Append([], r) == r
  {
    if r.Success? {
      assert [] + r.value == r.value;
    }
  }

  lemma AppendAfter(prefix: seq<Bead>, b: Bead, r: Result<seq<Bead>>)
    ensures Append(prefix, Append([b], r)) == Append(prefix + [b], r)
  {
    if r.Success? {
      assert prefix + ([b] + r.value) == (prefix + [b]) + r.value;
    }
  }

  /** `prefix` followed by a result. */
  function Append(prefix: seq<Bead>, r: Result<seq<Bead>>): Result<seq<Bead>> {
    match r
    case Success(bs) => Success(prefix + bs)
    case Failure(e) => Failure(e)
  }
}
