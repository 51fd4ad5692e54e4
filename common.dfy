/** Shared vocabulary: optional values, outcomes, the Java exceptions the core
    raises or propagates, and file paths. */
module Common {
  import Text

  datatype Option<+T> = None | Some(value: T)

  /** The result of a Java method that returns a value or throws. */
  datatype Result<+T> = Success(value: T) | Failure(fault: Fault)

  /** The result of a `void` Java method: it returns normally or throws. */
  datatype Outcome = Pass | Fail(fault: Fault)

  /** The exceptions that can leave the modelled operations. */
  datatype Fault =
    | Unsupported            // UnsupportedOperationException
    | NoSuchElement          // NoSuchElementException (iterators, Scanner), with its subclass InputMismatchException
    | NullPointer            // NullPointerException
    | IndexOutOfBounds       // IndexOutOfBoundsException (List.get) and its Array and String subclasses
    | Interrupted            // InterruptedException (checked)
    | ExecutionFailed(view: Path)  // ExecutionException wrapping the failure of the task for `view` (checked)
  {
    /** The two checked exceptions that `Fusion_Pipeline.run` catches. */
    predicate IsChecked() {
      Interrupted? || ExecutionFailed?
    }
  }

  /** A `java.io.File` path as its sequence of name components: `new File(dir, name)`
      appends the components of `name`, `getName()` is the last component and
      `getParent()` all the others (the empty sequence standing for Java's `null`
      parent). An absolute path starts with the empty component, so that the root
      `/` is `[""]`. No component holds the separator. */
  type Path = p: seq<string> | forall k :: 0 <= k < |p| ==> '/' !in p[k] witness []

  /** A name `java.io.File` keeps between two separators. */
  predicate IsComponent(s: string) {
    s != "" && '/' !in s
  }

  /** The components of a name or path text, as `java.io.File` normalises it: a
      run of separators counts as one, and a separator at either end separates
      nothing. */
  function Components(text: string): (cs: seq<string>)
    ensures forall k :: 0 <= k < |cs| ==> IsComponent(cs[k])
  {
    NonEmpty(Text.Split(text, '/'))
  }

  /** The non-empty pieces, in order. */
  function NonEmpty(ps: seq<string>): (qs: seq<string>)
    ensures forall k :: 0 <= k < |qs| ==> qs[k] in ps && qs[k] != ""
  {
    if ps == [] then [] else (if ps[0] == "" then [] else [ps[0]]) + NonEmpty(ps[1..])
  }

  lemma {:induction false} NonEmptyAppend(ps: seq<string>, qs: seq<string>)
    ensures NonEmpty(ps + qs) == NonEmpty(ps) + NonEmpty(qs)
  {
    if ps != [] {
      assert (ps + qs)[1..] == ps[1..] + qs;
      NonEmptyAppend(ps[1..], qs);
    } else {
      assert ps + qs == qs;
    }
  }

  lemma {:induction false} NonEmptyKeeps(ps: seq<string>)
    requires forall k :: 0 <= k < |ps| ==> ps[k] != ""
    ensures NonEmpty(ps) == ps
  {
    if ps != [] {
      NonEmptyKeeps(ps[1..]);
    }
  }

  /** A separator inside a name separates its components. */
  lemma ComponentsAppend(a: string, b: string)
    ensures Components(a + "/" + b) == Components(a) + Components(b)
  {
    Text.SplitAppend(a, b, '/');
    NonEmptyAppend(Text.Split(a, '/'), Text.Split(b, '/'));
  }

  /** A single component is its own only component. */
  lemma ComponentsOne(name: string)
    requires IsComponent(name)
    ensures Components(name) == [name]
  {
    Text.SplitJoin([name], '/');
    assert Text.Join([name], '/') == name;
    assert NonEmpty([name]) == [name] + NonEmpty([]);
  }

  /** An empty name has no components. */
  lemma ComponentsEmpty()
    ensures Components("") == []
  {
    assert Text.Split("", '/') == [""];
    assert NonEmpty([""]) == NonEmpty([]);
  }

  /** `new File(dir, name)`: the components of `name` after those of `dir`. A
      single component becomes the name, with `dir` the parent; an empty name
      leaves `dir` as it is. */
  function Child(dir: Path, name: string): (p: Path)
    ensures IsComponent(name) ==> Name(p) == name && Parent(p) == dir
    ensures name == "" ==> p == dir
  {
    if IsComponent(name) then
      ComponentsOne(name);
      dir + Components(name)
    else
      ComponentsEmpty();
      dir + Components(name)
  }

  /** A name holding separators names a path below `dir`, one component at a time. */
  lemma ChildSplits(dir: Path, a: string, b: string)
    ensures Child(dir, a + "/" + b) == Child(Child(dir, a), b)
  {
    ComponentsAppend(a, b);
  }

  function Name(p: Path): (n: string)
    ensures '/' !in n
  {
    if p == [] then "" else p[|p| - 1]
  }

  function Parent(p: Path): Path {
    if p == [] then [] else p[..|p| - 1]
  }

  /** The path text `getPath()` gives: the components joined by separators, and
      `/` for the root. */
  function PathText(p: Path): string {
    if p == [""] then "/" else Text.Join(p, '/')
  }

  /** A path text without its leading separator. */
  function Unrooted(text: string): string {
    if text != "" && text[0] == '/' then text[1..] else text
  }

  /** A path text `java.io.File` keeps as written: no doubled separator and no
      trailing one, the root `/` aside. */
  predicate Normal(text: string) {
    text == "" || text == "/" ||
      var parts := Text.Split(Unrooted(text), '/');
      forall k :: 0 <= k < |parts| ==> parts[k] != ""
  }
}
