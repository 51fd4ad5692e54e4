/** `SortableDualList`: two lists of processors side by side. The left one
    offers what was discovered, the right one is what will run, in order.
    Buttons move the selected items across (`>`, `<`), move everything across
    (`>>`, `<<`), and reorder the right-hand selection (Top, Up, Down, Bottom).
    `SimpleListModel` is the list behind each side: an `ArrayList` changed in
    place, plus the size it last announced to its listeners. */
module SelectionList {
  import opened Common
  import opened Capabilities

  // ---------------------------------------------------------------------------
  // Sequences, as the `ArrayList` operations change them
  // ---------------------------------------------------------------------------

  /** `list.add(i, x)`. */
  function Insert(s: seq<Processor>, i: nat, x: Processor): seq<Processor>
    requires i <= |s|
  {
    s[..i] + [x] + s[i..]
  }

  /** `list.remove(i)`, without its result. */
  function RemoveAt(s: seq<Processor>, i: nat): seq<Processor>
    requires i < |s|
  {
    s[..i] + s[i + 1..]
  }

  /** `list.add(q, list.remove(p))`: the item at `p` moves to `q`. */
  function Moved(s: seq<Processor>, p: nat, q: nat): seq<Processor>
    requires p < |s| && q < |s|
  {
    Insert(RemoveAt(s, p), q, s[p])
  }

  /** Where each item ends up when the item at `p` moves to `q`: the items
      between the two places shift by one towards `p`, the others stay. */
  lemma MovedAt(s: seq<Processor>, p: nat, q: nat, x: nat)
    requires p < |s| && q < |s| && x < |s|
    ensures |Moved(s, p, q)| == |s|
    ensures Moved(s, p, q)[x] ==
      if x == q then s[p]
      else if (x < p && x < q) || (x > p && x > q) then s[x]
      else if p < q then s[x + 1]
      else s[x - 1]
  {
    var r := s[..p] + s[p + 1..];
    assert |r| == |s| - 1;
    var m := r[..q] + [s[p]] + r[q..];
    assert Moved(s, p, q) == m;
    if x < q {
      assert m[x] == r[x];
      if x < p {
        assert r[x] == s[x];
      } else {
        assert r[x] == s[x + 1];
      }
    } else if x > q {
      assert m[x] == r[x - 1];
      if x - 1 < p {
        assert r[x - 1] == s[x - 1];
      } else {
        assert r[x - 1] == s[x];
      }
    }
  }

  /** Moving an item keeps the items of the list. */
  lemma MovedKeeps(s: seq<Processor>, p: nat, q: nat)
    requires p < |s| && q < |s|
    ensures |Moved(s, p, q)| == |s| && multiset(Moved(s, p, q)) == multiset(s)
  {
    var r := RemoveAt(s, p);
    assert s == s[..p] + [s[p]] + s[p + 1..];
    assert multiset(r) + multiset{s[p]} == multiset(s);
    assert r == r[..q] + r[q..];
  }

  /** `m` is `s` with the item at `p` moved to `q`: taking that item out of
      both leaves the same list, so the list keeps its items, and the items
      outside the span between the two places stay where they were. */
  ghost predicate MovesTo(s: seq<Processor>, m: seq<Processor>, p: nat, q: nat)
  {
    && p < |s| && q < |s| && |m| == |s| && m[q] == s[p] && RemoveAt(m, q) == RemoveAt(s, p)
    && multiset(m) == multiset(s)
    && (forall x :: 0 <= x < |s| && ((x < p && x < q) || (x > p && x > q)) ==> m[x] == s[x])
  }

  lemma MovedMoves(s: seq<Processor>, p: nat, q: nat)
    requires p < |s| && q < |s|
    ensures MovesTo(s, Moved(s, p, q), p, q)
  {
    var r := RemoveAt(s, p);
    assert RemoveAt(Moved(s, p, q), q) == r by {
      var m := Insert(r, q, s[p]);
      assert m[..q] == r[..q] && m[q + 1..] == r[q..];
    }
    MovedKeeps(s, p, q);
    MovedAt(s, p, q, q);
    forall x | 0 <= x < |s| && ((x < p && x < q) || (x > p && x > q))
      ensures Moved(s, p, q)[x] == s[x]
    {
      MovedAt(s, p, q, x);
    }
  }

  /** `data.add(q, data.remove(p))` on the list being reordered. */
  method MoveItem(s: seq<Processor>, p: nat, q: nat) returns (m: seq<Processor>)
    requires p < |s| && q < |s|
    ensures MovesTo(s, m, p, q)
  {
    m := Moved(s, p, q);
    MovedMoves(s, p, q);
  }

  /** `from.get(indices[0]), from.get(indices[1]), …`. */
  function Picked(from: seq<Processor>, indices: seq<int>): seq<Processor>
    requires InRange(indices, |from|)
  {
    seq(|indices|, i requires 0 <= i < |indices| => from[indices[i]])
  }

  /** The items of `s` whose positions are not in `positions`, in order. */
  function Except(s: seq<Processor>, positions: set<int>): seq<Processor>
  {
    if s == [] then []
    else Except(s[..|s| - 1], positions) + (if |s| - 1 in positions then [] else [s[|s| - 1]])
  }

  /** Every index lies in `[0, n)`. */
  predicate InRange(indices: seq<int>, n: int) {
    forall i :: 0 <= i < |indices| ==> 0 <= indices[i] < n
  }

  /** Strictly increasing: how `JList.getSelectedIndices()` reports a selection. */
  predicate Ascending(indices: seq<int>) {
    forall i, j :: 0 <= i < j < |indices| ==> indices[i] < indices[j]
  }

  /** The positions a selection names. */
  function Positions(indices: seq<int>): set<int> {
    set x | x in indices
  }

  /** `idx, idx + 1, …`: the indices the inserted items end up at. */
  function Span(idx: int, n: nat): seq<int> {
    seq(n, i => idx + i)
  }

  /** Positions in `[0, |s|)` that two sets agree on select the same items. */
  lemma {:induction false} ExceptAgree(s: seq<Processor>, a: set<int>, b: set<int>)
    requires forall x :: 0 <= x < |s| ==> (x in a <==> x in b)
    ensures Except(s, a) == Except(s, b)
  {
    if s != [] {
      ExceptAgree(s[..|s| - 1], a, b);
    }
  }

  /** Beyond the last removed position every item is kept. */
  lemma {:induction false} ExceptSkip(s: seq<Processor>, positions: set<int>, lo: nat)
    requires lo <= |s|
    requires forall x :: lo <= x < |s| ==> x !in positions
    ensures Except(s, positions) == Except(s[..lo], positions) + s[lo..]
  {
    if |s| == lo {
      assert s[..lo] == s;
    } else {
      var t := s[..|s| - 1];
      ExceptSkip(t, positions, lo);
      assert t[..lo] == s[..lo];
      assert t[lo..] + [s[|s| - 1]] == s[lo..];
    }
  }

  /** The picked items and the rest are the items of `s`, split in two. */
  lemma {:induction false} PickedExcept(s: seq<Processor>, indices: seq<int>)
    requires Ascending(indices) && InRange(indices, |s|)
    ensures multiset(Picked(s, indices)) + multiset(Except(s, Positions(indices))) == multiset(s)
    ensures |Except(s, Positions(indices))| == |s| - |indices|
    decreases |s|
  {
    var pos := Positions(indices);
    if indices == [] {
      ExceptSkip(s, pos, 0);
      assert s[0..] == s;
    } else {
      assert 0 <= indices[0] < |s|;
      var n := |s| - 1;
      var t := s[..n];
      assert s == t + [s[n]];
      if indices[|indices| - 1] == n {
        var front := indices[..|indices| - 1];
        LastPicked(s, indices);
        PickedExcept(t, front);
        assert multiset(Picked(s, indices)) == multiset(Picked(t, front)) + multiset{s[n]};
      } else {
        LastKept(s, indices);
        PickedExcept(t, indices);
        assert multiset(Except(s, pos)) == multiset(Except(t, pos)) + multiset{s[n]};
      }
    }
  }

  /** When the last item is selected, it is the last one picked and the rest
      is what remains of the items before it. */
  lemma LastPicked(s: seq<Processor>, indices: seq<int>)
    requires Ascending(indices) && InRange(indices, |s|)
    requires |indices| > 0 && indices[|indices| - 1] == |s| - 1
    ensures var t, front := s[..|s| - 1], indices[..|indices| - 1];
      && Ascending(front) && InRange(front, |t|)
      && Picked(s, indices) == Picked(t, front) + [s[|s| - 1]]
      && Except(s, Positions(indices)) == Except(t, Positions(front))
  {
    var n := |s| - 1;
    var t, front := s[..n], indices[..|indices| - 1];
    assert InRange(front, |t|) by {
      forall i | 0 <= i < |front|
        ensures 0 <= front[i] < |t|
      {
        assert front[i] == indices[i] < indices[|indices| - 1];
      }
    }
    var pos := Positions(indices);
    forall x | 0 <= x < |t|
      ensures x in pos <==> x in Positions(front)
    {
      assert indices == front + [n];
    }
    ExceptAgree(t, pos, Positions(front));
    assert n in pos by {
      assert indices[|indices| - 1] == n;
    }
  }

  /** When the last item is not selected, it is kept after what remains of
      the items before it. */
  lemma LastKept(s: seq<Processor>, indices: seq<int>)
    requires Ascending(indices) && InRange(indices, |s|)
    requires |indices| > 0 && indices[|indices| - 1] != |s| - 1
    ensures var t := s[..|s| - 1];
      && InRange(indices, |t|)
      && Picked(s, indices) == Picked(t, indices)
      && Except(s, Positions(indices)) == Except(t, Positions(indices)) + [s[|s| - 1]]
  {
    var n := |s| - 1;
    var last := indices[|indices| - 1];
    assert InRange(indices, n) by {
      forall i | 0 <= i < |indices|
        ensures 0 <= indices[i] < n
      {
        if i < |indices| - 1 {
          assert indices[i] < last;
        }
      }
    }
    assert n !in Positions(indices);
  }

  /** Removing the selected items leaves the unselected ones, in order. */
  lemma ExceptMembers(s: seq<Processor>, indices: seq<int>, x: Processor)
    requires Ascending(indices) && InRange(indices, |s|)
    ensures x in s && (forall i :: 0 <= i < |indices| ==> s[indices[i]] != x) ==> x in Except(s, Positions(indices))
    ensures x in Except(s, Positions(indices)) ==> x in s
  {
    PickedExcept(s, indices);
    var picked, kept := Picked(s, indices), Except(s, Positions(indices));
    assert multiset(picked) + multiset(kept) == multiset(s);
    if x in s && (forall i :: 0 <= i < |indices| ==> s[indices[i]] != x) {
      assert x !in picked by {
        forall k | 0 <= k < |picked|
          ensures picked[k] != x
        {
          assert picked[k] == s[indices[k]];
        }
      }
      assert multiset(picked)[x] == 0;
      assert multiset(s)[x] > 0;
      assert multiset(kept)[x] > 0;
    }
    if x in kept {
      assert multiset(kept)[x] > 0;
      assert multiset(s)[x] > 0;
    }
  }

  // ---------------------------------------------------------------------------
  // Listener notifications
  // ---------------------------------------------------------------------------

  /** A `ListDataEvent`: its type and its two indices. */
  datatype ListEvent =
    | ContentsChanged(index0: int, index1: int)
    | IntervalAdded(index0: int, index1: int)
    | IntervalRemoved(index0: int, index1: int)

  /** What `triggerFullRefresh` tells every listener when the list has `size`
      items and last announced `oldSize`. */
  function RefreshEvents(oldSize: int, size: int): seq<ListEvent> {
    (if size > 0 then [ContentsChanged(0, size)] else [])
    + (if oldSize > size then [IntervalRemoved(size, oldSize)]
       else if oldSize < size then [IntervalAdded(oldSize, size)]
       else [])
  }

  /** The size a listener arrives at by applying the added and removed
      intervals it is told about to the size it knew. */
  function Tracked(size: int, events: seq<ListEvent>): int
    decreases |events|
  {
    if events == [] then size
    else
      var e := events[0];
      var next := match e
        case ContentsChanged(_, _) => size
        case IntervalAdded(a, b) => size + (b - a)
        case IntervalRemoved(a, b) => size - (b - a);
      Tracked(next, events[1..])
  }

  /** A listener that knew the announced size learns the new one from a
      refresh, whatever happened in between. */
  lemma RefreshTracks(oldSize: int, size: nat)
    ensures Tracked(oldSize, RefreshEvents(oldSize, size)) == size
  {
    var contents := if size > 0 then [ContentsChanged(0, size)] else [];
    var change := if oldSize > size then [IntervalRemoved(size, oldSize)]
      else if oldSize < size then [IntervalAdded(oldSize, size)]
      else [];
    assert Tracked(oldSize, change) == size;
    if size > 0 {
      assert (contents + change)[1..] == change;
    } else {
      assert contents + change == change;
    }
  }

  // ---------------------------------------------------------------------------
  // SimpleListModel
  // ---------------------------------------------------------------------------

  /** `SimpleListModel`: the list `data` and the size `oldSize` last announced.
      `announced` is what its listeners have been told, in order; the
      listeners themselves are outside this model. */
  class SimpleListModel {
    var data: seq<Processor>
    var oldSize: int
    var announced: seq<ListEvent>

    /** Every change ends with a refresh, so the announced size is the size. */
    predicate Valid()
      reads this
    {
      oldSize == |data|
    }

    /** `SimpleListModel()`: an empty list. */
    constructor Empty()
      ensures Valid() && data == [] && announced == []
    {
      data := [];
      oldSize := 0;
      announced := [];
    }

    /** `SimpleListModel(S... elements)`: the elements, in order. */
    constructor Of(elements: seq<Processor>)
      ensures Valid() && data == elements && announced == []
    {
      var items := [];
      var i := 0;
      while i < |elements|
        invariant i <= |elements| && items == elements[..i]
      {
        items := items + [elements[i]];
        i := i + 1;
      }
      assert elements[..|elements|] == elements;
      data := items;
      oldSize := |items|;
      announced := [];
    }

    /** `SimpleListModel(Iterator<S> elements)`: everything the iterator has
        still to yield, in order; the iterator is exhausted afterwards. */
    constructor Drain(elements: CapFilter)
      requires elements.Valid()
      modifies elements
      ensures Valid() && data == old(elements.Yields()) && announced == []
      ensures elements.Valid() && elements.Yields() == []
    {
      var items := [];
      while elements.HasNext()
        invariant elements.Valid()
        invariant items + elements.Yields() == old(elements.Yields())
        decreases |elements.Yields()|
      {
        var p := elements.Next();
        items := items + [p.value];
      }
      assert items + [] == items;
      data := items;
      oldSize := |items|;
      announced := [];
    }

    /** `getSize()`. */
    function Size(): (n: nat)
      reads this
      ensures n == |data|
    {
      |data|
    }

    /** `triggerFullRefresh()`: announce the change to every listener and
        remember the new size. */
    method Refresh()
      modifies this
      ensures data == old(data) && Valid()
      ensures announced == old(announced) + RefreshEvents(old(oldSize), |data|)
    {
      announced := announced + RefreshEvents(oldSize, |data|);
      oldSize := |data|;
    }

    /** `addAll(idx, from, indices)`: inserts `from[indices[0]]`,
        `from[indices[1]]`, … at `idx` in that order, and rewrites `indices`
        in place to the positions they now occupy. */
    method AddAllIndices(idx: nat, from: seq<Processor>, indices: array<int>) returns (r: array<int>)
      requires idx <= |data| && InRange(indices[..], |from|)
      modifies this, indices
      ensures r == indices && Valid()
      ensures data == old(data)[..idx] + Picked(from, old(indices[..])) + old(data)[idx..]
      ensures indices[..] == Span(idx, indices.Length)
      ensures announced == old(announced) + RefreshEvents(old(oldSize), |data|)
    {
      ghost var start, picks := data, old(indices[..]);
      var at := idx;
      var i := 0;
      while i < indices.Length
        invariant i <= indices.Length && at == idx + i
        invariant data == start[..idx] + Picked(from, picks[..i]) + start[idx..]
        invariant indices[..i] == Span(idx, i) && indices[i..] == picks[i..]
        invariant oldSize == old(oldSize) && announced == old(announced)
      {
        var x := from[indices[i]];
        InsertAfter(start[..idx], Picked(from, picks[..i]), start[idx..], x);
        assert Picked(from, picks[..i + 1]) == Picked(from, picks[..i]) + [x];
        data := Insert(data, at, x);
        indices[i] := at;
        assert indices[..i + 1] == Span(idx, i + 1);
        at := at + 1;
        i := i + 1;
      }
      assert picks[..i] == picks;
      Refresh();
      r := indices;
    }

    /** `addAll(idx, from)`: inserts all of `from` at `idx`, in order. */
    method AddAll(idx: nat, from: seq<Processor>)
      requires idx <= |data|
      modifies this
      ensures Valid()
      ensures data == old(data)[..idx] + from + old(data)[idx..]
      ensures announced == old(announced) + RefreshEvents(old(oldSize), |data|)
    {
      ghost var start := data;
      var at := idx;
      var i := 0;
      while i < |from|
        invariant i <= |from| && at == idx + i
        invariant data == start[..idx] + from[..i] + start[idx..]
        invariant oldSize == old(oldSize) && announced == old(announced)
      {
        InsertAfter(start[..idx], from[..i], start[idx..], from[i]);
        assert from[..i + 1] == from[..i] + [from[i]];
        data := Insert(data, at, from[i]);
        at := at + 1;
        i := i + 1;
      }
      assert from[..i] == from;
      Refresh();
    }

    /** `removeAllIndices(indices)`: removes the items at the given (strictly
        increasing) positions; the others keep their order. */
    method RemoveAllIndices(indices: seq<int>)
      requires Ascending(indices) && InRange(indices, |data|)
      modifies this
      ensures Valid()
      ensures data == Except(old(data), Positions(indices))
      ensures announced == old(announced) + RefreshEvents(old(oldSize), |data|)
    {
      data := RemoveEach(data, indices);
      Refresh();
    }

    /** `move(indices, offset)`: moves the items at the (strictly increasing)
        positions `indices` by the offset, clamped so that none leaves the
        list, and rewrites `indices` in place to their new positions. With
        nothing selected and a non-zero offset it reads `indices[-1]` and
        throws. */
    method Move(indices: array<int>, offset: int) returns (r: array<int>, o: Outcome)
      requires Valid() && Ascending(indices[..]) && InRange(indices[..], |data|)
      modifies this, indices
      ensures r == indices && Valid()
      ensures o == if offset != 0 && indices.Length == 0 then Fail(IndexOutOfBounds) else Pass
      ensures offset == 0 || o.Fail? ==> data == old(data) && announced == old(announced) && indices[..] == old(indices[..])
      ensures offset != 0 && o.Pass? ==>
        && |data| == |old(data)| && multiset(data) == multiset(old(data))
        && indices[..] == Shifted(old(indices[..]), Clamp(old(indices[..]), |old(data)|, offset))
        && (forall j :: 0 <= j < indices.Length ==> data[indices[j]] == old(data)[old(indices[j])])
        && Except(data, Positions(indices[..])) == Except(old(data), Positions(old(indices[..])))
        && announced == old(announced) + RefreshEvents(old(oldSize), |data|)
    {
      r := indices;
      if offset == 0 {
        return r, Pass;
      }
      if indices.Length == 0 {
        return r, Fail(IndexOutOfBounds);
      }
      var c := offset;
      if indices[indices.Length - 1] + c >= |data| {
        c := |data| - indices[indices.Length - 1] - 1;
      }
      if indices[0] + c < 0 {
        c := -indices[0];
      }
      assert c == Clamp(indices[..], |data|, offset);
      ClampKeepsInside(indices[..], |data|, offset);
      Rearrange(indices, c);
      Refresh();
      o := Pass;
    }

    /** The two loops of `move`, for an offset `c` already clamped: a positive
        one moves the selected items down from the last, a negative one up
        from the first, and `indices` is rewritten to their new positions. */
    method Rearrange(indices: array<int>, c: int)
      requires Ascending(indices[..]) && InRange(indices[..], |data|) && indices.Length > 0
      requires 0 <= indices[0] + c && indices[indices.Length - 1] + c < |data|
      modifies this, indices
      ensures |data| == |old(data)| && multiset(data) == multiset(old(data))
      ensures indices[..] == Shifted(old(indices[..]), c)
      ensures forall j :: 0 <= j < indices.Length ==> data[indices[j]] == old(data)[old(indices[j])]
      ensures Except(data, Positions(indices[..])) == Except(old(data), Positions(old(indices[..])))
      ensures oldSize == old(oldSize) && announced == old(announced)
    {
      var picks := indices[..];
      var moved := data;
      if c > 0 {
        moved := ShiftDown(data, picks, c);
        ShiftIndices(indices, c);
      } else if c < 0 {
        moved := ShiftUp(data, picks, c);
        ShiftIndices(indices, c);
      } else {
        assert indices[..] == Shifted(picks, 0) == picks;
      }
      ghost var shifted := indices[..];
      assert shifted == Shifted(picks, c);
      forall j | 0 <= j < indices.Length
        ensures moved[indices[j]] == data[picks[j]]
      {
        assert indices[j] == shifted[j] == picks[j] + c;
      }
      data := moved;
    }

    /** `removeAll()`: the list is empty afterwards. */
    method RemoveAll()
      modifies this
      ensures Valid() && data == []
      ensures announced == old(announced) + RefreshEvents(old(oldSize), 0)
    {
      data := [];
      Refresh();
    }
  }

  /** Inserting after a prefix and a run of inserted items extends the run. */
  lemma InsertAfter(a: seq<Processor>, run: seq<Processor>, b: seq<Processor>, x: Processor)
    ensures Insert(a + run + b, |a| + |run|, x) == a + (run + [x]) + b
  {
    var s := a + run + b;
    assert s[..|a| + |run|] == a + run;
    assert s[|a| + |run|..] == b;
  }

  /** The loop of `removeAllIndices`: `data.remove(index - (offs++))` for
      each selected position in turn. */
  method RemoveEach(items: seq<Processor>, indices: seq<int>) returns (rest: seq<Processor>)
    requires Ascending(indices) && InRange(indices, |items|)
    ensures rest == Except(items, Positions(indices))
  {
    ghost var pos := Positions(indices);
    rest := items;
    var offs := 0;
    ghost var hi := 0;
    while offs < |indices|
      invariant offs <= |indices| && hi <= |items|
      invariant hi == if offs == 0 then 0 else indices[offs - 1] + 1
      invariant rest == Except(items[..hi], pos) + items[hi..]
      invariant |Except(items[..hi], pos)| == hi - offs
    {
      var p := indices[offs];
      RemoveNext(items, indices, offs, hi, rest);
      rest := RemoveAt(rest, p - offs);
      hi := p + 1;
      offs := offs + 1;
    }
    RemoveLast(items, indices, hi);
  }

  /** One step of `removeAllIndices`: the items up to the next selected
      position, less the selected ones, are those kept so far followed by the
      unselected run in between. */
  lemma RemoveStep(start: seq<Processor>, indices: seq<int>, offs: nat, hi: nat)
    requires Ascending(indices) && InRange(indices, |start|)
    requires offs < |indices|
    requires hi == if offs == 0 then 0 else indices[offs - 1] + 1
    ensures hi <= indices[offs]
    ensures Except(start[..indices[offs] + 1], Positions(indices))
      == Except(start[..hi], Positions(indices)) + start[hi..indices[offs]]
  {
    var p := indices[offs];
    var pos := Positions(indices);
    if offs > 0 {
      assert indices[offs - 1] < p;
    }
    forall x | hi <= x < p
      ensures x !in pos
    {
      forall k | 0 <= k < |indices|
        ensures indices[k] != x
      {
        if k < offs {
          if k < offs - 1 {
            assert indices[k] < indices[offs - 1];
          }
        } else if k > offs {
          assert p < indices[k];
        }
      }
    }
    var prefix := start[..p];
    ExceptSkip(prefix, pos, hi);
    assert prefix[..hi] == start[..hi] && prefix[hi..] == start[hi..p];
    assert p in pos by {
      assert indices[offs] == p;
    }
    assert start[..p + 1][..p] == prefix;
  }

  /** The loop of `removeAllIndices` keeps its invariant: once `offs` items
      are gone, the next selected item sits `offs` places before where it
      started, and removing it extends the kept prefix. */
  lemma RemoveNext(start: seq<Processor>, indices: seq<int>, offs: nat, hi: nat, data: seq<Processor>)
    requires Ascending(indices) && InRange(indices, |start|)
    requires offs < |indices| && hi <= |start|
    requires hi == if offs == 0 then 0 else indices[offs - 1] + 1
    requires data == Except(start[..hi], Positions(indices)) + start[hi..]
    requires |Except(start[..hi], Positions(indices))| == hi - offs
    ensures var p := indices[offs];
      && hi <= p < |start| && 0 <= p - offs < |data|
      && RemoveAt(data, p - offs) == Except(start[..p + 1], Positions(indices)) + start[p + 1..]
      && |Except(start[..p + 1], Positions(indices))| == p + 1 - (offs + 1)
  {
    var p := indices[offs];
    RemoveStep(start, indices, offs, hi);
    var kept := Except(start[..hi], Positions(indices));
    RemoveInTail(kept, start[hi..], p - hi);
    assert start[hi..][..p - hi] == start[hi..p] && start[hi..][p - hi + 1..] == start[p + 1..];
  }

  /** After the last selected position every item is kept. */
  lemma RemoveLast(start: seq<Processor>, indices: seq<int>, hi: nat)
    requires Ascending(indices) && InRange(indices, |start|) && hi <= |start|
    requires hi == if |indices| == 0 then 0 else indices[|indices| - 1] + 1
    ensures Except(start[..hi], Positions(indices)) + start[hi..] == Except(start, Positions(indices))
  {
    var pos := Positions(indices);
    forall x | hi <= x < |start|
      ensures x !in pos
    {
      forall k | 0 <= k < |indices|
        ensures indices[k] != x
      {
        if k < |indices| - 1 {
          assert indices[k] < indices[|indices| - 1];
        }
      }
    }
    ExceptSkip(start, pos, hi);
  }

  /** Removing an item from the tail of a sequence leaves its head alone. */
  lemma RemoveInTail(kept: seq<Processor>, tail: seq<Processor>, k: nat)
    requires k < |tail|
    ensures RemoveAt(kept + tail, |kept| + k) == (kept + tail[..k]) + tail[k + 1..]
  {
    var s := kept + tail;
    assert s[..|kept| + k] == kept + tail[..k];
    assert s[|kept| + k + 1..] == tail[k + 1..];
  }

  /** The offset `move` actually applies: at most far enough to bring the last
      selected item to the end, then at most far enough to bring the first to
      the start. */
  function Clamp(indices: seq<int>, size: int, offset: int): int
    requires |indices| > 0
  {
    var c := if indices[|indices| - 1] + offset >= size then size - indices[|indices| - 1] - 1 else offset;
    if indices[0] + c < 0 then -indices[0] else c
  }

  /** Every index moved by the same offset. */
  function Shifted(indices: seq<int>, c: int): seq<int> {
    seq(|indices|, i requires 0 <= i < |indices| => indices[i] + c)
  }

  /** The clamped offset keeps every moved item inside the list, moves in the
      direction asked and no further than asked; Top and Bottom bring the
      selection to the start and to the end. */
  lemma ClampKeepsInside(indices: seq<int>, size: int, offset: int)
    requires |indices| > 0 && Ascending(indices) && InRange(indices, size)
    ensures var c := Clamp(indices, size, offset);
      && 0 <= indices[0] + c && indices[|indices| - 1] + c < size
      && (offset >= 0 ==> 0 <= c <= offset)
      && (offset <= 0 ==> offset <= c <= 0)
      && (offset <= -size ==> indices[0] + c == 0)
      && (offset >= size ==> indices[|indices| - 1] + c == size - 1)
  {
    if |indices| > 1 {
      assert indices[0] < indices[|indices| - 1];
    }
  }

  /** After the items from position `i` of the selection on have moved
      down by `c`: the list holds the same items, those moved sit `c` places
      lower than they started, and everything above the next one to move is
      where it started. */
  ghost predicate DownDone(start: seq<Processor>, picks: seq<int>, data: seq<Processor>, i: nat, c: int)
  {
    && i <= |picks| && InRange(picks, |start|) && |data| == |start| && multiset(data) == multiset(start)
    && (forall j :: i <= j < |picks| ==> 0 <= picks[j] + c < |data| && data[picks[j] + c] == start[picks[j]])
    && (forall x :: 0 <= x < (if i == |picks| then |start| else picks[i]) ==> x < |data| && data[x] == start[x])
  }

  /** The loop of `move` for a positive offset: from the last selected item
      back to the first, each is taken out and put back `c` places lower. */
  method ShiftDown(items: seq<Processor>, picks: seq<int>, c: int) returns (moved: seq<Processor>)
    requires Ascending(picks) && InRange(picks, |items|)
    requires |picks| > 0 && c > 0 && picks[|picks| - 1] + c < |items|
    ensures |moved| == |items| && multiset(moved) == multiset(items)
    ensures forall j :: 0 <= j < |picks| ==> moved[picks[j] + c] == items[picks[j]]
    ensures Except(moved, Positions(Shifted(picks, c))) == Except(items, Positions(picks))
  {
    moved := items;
    var i := |picks|;
    assert Marks(picks, i, |picks|, c) == picks;
    while i > 0
      invariant 0 <= i <= |picks|
      invariant |moved| == |items| && DownDone(items, picks, moved, i, c)
      invariant Except(moved, Positions(Marks(picks, i, |picks|, c))) == Except(items, Positions(picks))
    {
      i := i - 1;
      var p := picks[i];
      assert p + c < |moved| by {
        if i + 1 < |picks| {
          assert picks[i] < picks[|picks| - 1];
        }
      }
      var m := MoveItem(moved, p, p + c);
      DownTurn(items, picks, moved, m, i, c);
      moved := m;
    }
    assert Marks(picks, 0, |picks|, c) == Shifted(picks, c);
  }

  /** One turn of the downward loop of `move` keeps both of its invariants. */
  lemma DownTurn(items: seq<Processor>, picks: seq<int>, moved: seq<Processor>, m: seq<Processor>, i: nat, c: int)
    requires Ascending(picks) && InRange(picks, |items|) && i < |picks| && c > 0 && picks[|picks| - 1] + c < |items|
    requires |moved| == |items| && DownDone(items, picks, moved, i + 1, c)
    requires Except(moved, Positions(Marks(picks, i + 1, |picks|, c))) == Except(items, Positions(picks))
    requires picks[i] + c < |moved| && MovesTo(moved, m, picks[i], picks[i] + c)
    ensures |m| == |items| && DownDone(items, picks, m, i, c)
    ensures Except(m, Positions(Marks(picks, i, |picks|, c))) == Except(items, Positions(picks))
  {
    DownStep(items, picks, moved, m, i, c);
    DownOrder(moved, m, picks, i, c);
  }

  /** One step of the downward loop of `move`. */
  lemma DownStep(start: seq<Processor>, picks: seq<int>, data: seq<Processor>, m: seq<Processor>, i: nat, c: int)
    requires Ascending(picks) && i < |picks| && c > 0
    requires picks[|picks| - 1] + c < |start|
    requires DownDone(start, picks, data, i + 1, c)
    requires picks[i] + c < |data| && MovesTo(data, m, picks[i], picks[i] + c)
    ensures DownDone(start, picks, m, i, c)
  {
    var p := picks[i];
    var q := p + c;
    if i + 1 < |picks| {
      assert p < picks[i + 1];
    }
    forall j | i <= j < |picks|
      ensures 0 <= picks[j] + c < |m| && m[picks[j] + c] == start[picks[j]]
    {
      if j != i {
        assert p < picks[j];
        if j < |picks| - 1 {
          assert picks[j] < picks[|picks| - 1];
        }
      }
    }
  }

  /** After the items before position `i` of the selection have moved up by
      `-c`: the list holds the same items, those moved sit `-c` places higher
      than they started, and everything below the last one moved is where it
      started. */
  ghost predicate UpDone(start: seq<Processor>, picks: seq<int>, data: seq<Processor>, i: nat, c: int)
  {
    && i <= |picks| && InRange(picks, |start|) && |data| == |start| && multiset(data) == multiset(start)
    && (forall j :: 0 <= j < i ==> 0 <= picks[j] + c < |data| && data[picks[j] + c] == start[picks[j]])
    && (forall x :: (if i == 0 then -1 else picks[i - 1]) < x < |start| ==> 0 <= x < |data| && data[x] == start[x])
  }

  /** The loop of `move` for a negative offset: from the first selected item
      on to the last, each is taken out and put back `-c` places higher. */
  method ShiftUp(items: seq<Processor>, picks: seq<int>, c: int) returns (moved: seq<Processor>)
    requires Ascending(picks) && InRange(picks, |items|)
    requires |picks| > 0 && c < 0 && picks[0] + c >= 0
    ensures |moved| == |items| && multiset(moved) == multiset(items)
    ensures forall j :: 0 <= j < |picks| ==> moved[picks[j] + c] == items[picks[j]]
    ensures Except(moved, Positions(Shifted(picks, c))) == Except(items, Positions(picks))
  {
    moved := items;
    var i := 0;
    assert Marks(picks, 0, i, c) == picks;
    while i < |picks|
      invariant 0 <= i <= |picks|
      invariant |moved| == |items| && UpDone(items, picks, moved, i, c)
      invariant Except(moved, Positions(Marks(picks, 0, i, c))) == Except(items, Positions(picks))
    {
      var p := picks[i];
      assert 0 <= p + c by {
        if i > 0 {
          assert picks[0] < picks[i];
        }
      }
      var m := MoveItem(moved, p, p + c);
      UpTurn(items, picks, moved, m, i, c);
      moved := m;
      i := i + 1;
    }
    assert Marks(picks, 0, |picks|, c) == Shifted(picks, c);
  }

  /** The rewrite of `indices` in the loops of `move`: `indices[i] += offset`
      for every selected item. */
  method ShiftIndices(indices: array<int>, c: int)
    modifies indices
    ensures indices[..] == Shifted(old(indices[..]), c)
  {
    var i := 0;
    while i < indices.Length
      invariant i <= indices.Length
      invariant forall j :: 0 <= j < i ==> indices[j] == old(indices[j]) + c
      invariant forall j :: i <= j < indices.Length ==> indices[j] == old(indices[j])
    {
      indices[i] := indices[i] + c;
      i := i + 1;
    }
  }

  /** One turn of the upward loop of `move` keeps both of its invariants. */
  lemma UpTurn(items: seq<Processor>, picks: seq<int>, moved: seq<Processor>, m: seq<Processor>, i: nat, c: int)
    requires Ascending(picks) && InRange(picks, |items|) && i < |picks| && c < 0 && picks[0] + c >= 0
    requires |moved| == |items| && UpDone(items, picks, moved, i, c)
    requires Except(moved, Positions(Marks(picks, 0, i, c))) == Except(items, Positions(picks))
    requires 0 <= picks[i] + c && MovesTo(moved, m, picks[i], picks[i] + c)
    ensures |m| == |items| && UpDone(items, picks, m, i + 1, c)
    ensures Except(m, Positions(Marks(picks, 0, i + 1, c))) == Except(items, Positions(picks))
  {
    UpStep(items, picks, moved, m, i, c);
    UpOrder(moved, m, picks, i, c);
  }

  /** One step of the upward loop of `move`. */
  lemma UpStep(start: seq<Processor>, picks: seq<int>, data: seq<Processor>, m: seq<Processor>, i: nat, c: int)
    requires Ascending(picks) && i < |picks| && c < 0
    requires picks[0] + c >= 0
    requires UpDone(start, picks, data, i, c)
    requires 0 <= picks[i] + c && MovesTo(data, m, picks[i], picks[i] + c)
    ensures UpDone(start, picks, m, i + 1, c)
  {
    var p := picks[i];
    if i > 0 {
      assert picks[i - 1] < p;
    }
    forall j | 0 <= j <= i
      ensures 0 <= picks[j] + c < |m| && m[picks[j] + c] == start[picks[j]]
    {
      if j != i {
        assert picks[j] < p;
        if 0 < j {
          assert picks[0] < picks[j];
        }
      }
    }
  }

  // ---------------------------------------------------------------------------
  // The unselected items keep their order
  // ---------------------------------------------------------------------------

  /** The positions of the selection once its entries from `from` up to (not
      including) `to` have moved by `c`. */
  function Marks(picks: seq<int>, from: int, to: int, c: int): seq<int> {
    seq(|picks|, j requires 0 <= j < |picks| => if from <= j < to then picks[j] + c else picks[j])
  }

  /** The positions below `n` that `pos` names once the position `k` is
      taken out: those above it move down by one. */
  function Lowered(pos: set<int>, k: int, n: int): set<int> {
    set y | 0 <= y < n && Raised(y, k) in pos
  }

  /** Where position `y` was before the position `k` was taken out. */
  function Raised(y: int, k: int): int {
    if y < k then y else y + 1
  }

  /** Taking out a left-out item changes nothing of what is left, when the
      positions after it are lowered with it. */
  lemma {:induction false} ExceptRemove(t: seq<Processor>, pos: set<int>, k: nat)
    requires k < |t| && k in pos
    ensures Except(t, pos) == Except(RemoveAt(t, k), Lowered(pos, k, |t| - 1))
    decreases |t|
  {
    var n := |t| - 1;
    var low := Lowered(pos, k, n);
    var r := RemoveAt(t, k);
    if k == n {
      assert r == t[..n];
      assert Except(t, pos) == Except(t[..n], pos);
      ExceptAgree(t[..n], pos, low);
    } else {
      var t' := t[..n];
      var r' := RemoveAt(t', k);
      var low' := Lowered(pos, k, n - 1);
      assert Except(t', pos) == Except(r', low') by {
        ExceptRemove(t', pos, k);
      }
      assert r == r' + [t[n]] by {
        assert t'[..k] == t[..k] && t'[k + 1..] + [t[n]] == t[k + 1..];
      }
      assert Except(r', low') == Except(r', low) by {
        assert forall x :: 0 <= x < |r'| ==> (x in low' <==> x in low);
        ExceptAgree(r', low', low);
      }
      assert Except(t, pos) == Except(t', pos) + (if n in pos then [] else [t[n]]);
      assert Except(r, low) == Except(r', low) + (if n - 1 in low then [] else [t[n]]) by {
        assert r[..n - 1] == r' && r[n - 1] == t[n];
      }
      assert n - 1 in low <==> n in pos by {
        assert Raised(n - 1, k) == n;
      }
    }
  }

  /** One turn of either loop of `move`: the selection's positions `marks`
      change only at entry `i`, whose item moves, and no other selected
      position lies between the two places; the unselected items keep their
      order. */
  lemma MoveMark(s: seq<Processor>, m: seq<Processor>, marks: seq<int>, marks': seq<int>, i: nat)
    requires MovesOne(marks, marks', i, |s|) && MovesTo(s, m, marks[i], marks'[i])
    ensures Except(m, Positions(marks')) == Except(s, Positions(marks))
  {
    var p, q := marks[i], marks'[i];
    var before, after := Positions(marks), Positions(marks');
    var n := |s| - 1;
    var rest := RemoveAt(s, p);
    assert Except(rest, Lowered(before, p, n)) == Except(rest, Lowered(after, q, n)) by {
      LoweredAgree(marks, marks', i, n);
      ExceptAgree(rest, Lowered(before, p, n), Lowered(after, q, n));
    }
    ExceptMoved(s, m, before, after, p, q);
  }

  /** When the item at `p` of `s` moves to `q` in `m`, position sets that
      name the moved item and leave the same items once it is taken out
      leave the same items of `s` and `m`. */
  lemma ExceptMoved(s: seq<Processor>, m: seq<Processor>, before: set<int>, after: set<int>, p: nat, q: nat)
    requires p < |s| && q < |s| && |m| == |s| && RemoveAt(m, q) == RemoveAt(s, p)
    requires p in before && q in after
    requires Except(RemoveAt(s, p), Lowered(before, p, |s| - 1)) == Except(RemoveAt(s, p), Lowered(after, q, |s| - 1))
    ensures Except(m, after) == Except(s, before)
  {
    ExceptRemove(s, before, p);
    ExceptRemove(m, after, q);
  }

  /** Once the moved entry is taken out of both, the selection's positions
      before and after the turn are the same. */
  lemma LoweredAgree(marks: seq<int>, marks': seq<int>, i: nat, n: int)
    requires MovesOne(marks, marks', i, n + 1)
    ensures forall y :: 0 <= y < n ==>
      (y in Lowered(Positions(marks), marks[i], n) <==> y in Lowered(Positions(marks'), marks'[i], n))
  {
    var p, q := marks[i], marks'[i];
    forall y | 0 <= y < n
      ensures y in Lowered(Positions(marks), p, n) <==> y in Lowered(Positions(marks'), q, n)
    {
      var zs, zm := Raised(y, p), Raised(y, q);
      assert y in Lowered(Positions(marks), p, n) <==> zs in marks;
      assert y in Lowered(Positions(marks'), q, n) <==> zm in marks';
      if zs in marks {
        var j :| 0 <= j < |marks| && marks[j] == zs;
        assert j != i;
        assert marks'[j] == zs == zm;
      }
      if zm in marks' {
        var j :| 0 <= j < |marks'| && marks'[j] == zm;
        assert j != i;
        assert marks[j] == zm == zs;
      }
    }
  }

  /** The selection's positions before and after turn `i` of a loop of
      `move` differ only at entry `i`, and no other entry lies between its
      two places. */
  ghost predicate MovesOne(marks: seq<int>, marks': seq<int>, i: nat, size: int)
  {
    && |marks| == |marks'| && i < |marks|
    && 0 <= marks[i] < size && 0 <= marks'[i] < size
    && (forall j :: 0 <= j < |marks| && j != i ==> marks'[j] == marks[j])
    && (forall j :: 0 <= j < |marks| && j != i ==>
         (marks[j] < marks[i] && marks[j] < marks'[i]) || (marks[j] > marks[i] && marks[j] > marks'[i]))
  }

  /** Turn `i` of the downward loop moves entry `i` alone, past no other. */
  lemma DownMarks(picks: seq<int>, i: nat, c: int, size: int)
    requires Ascending(picks) && i < |picks| && c > 0
    requires 0 <= picks[0] && picks[|picks| - 1] + c < size
    ensures MovesOne(Marks(picks, i + 1, |picks|, c), Marks(picks, i, |picks|, c), i, size)
  {
    var marks, marks' := Marks(picks, i + 1, |picks|, c), Marks(picks, i, |picks|, c);
    var p := picks[i];
    assert marks[i] == p && marks'[i] == p + c;
    forall j | 0 <= j < |picks| && j != i
      ensures marks'[j] == marks[j]
      ensures (marks[j] < p && marks[j] < p + c) || (marks[j] > p && marks[j] > p + c)
    {
      if j < i {
        assert marks[j] == marks'[j] == picks[j] < p;
      } else {
        assert marks[j] == marks'[j] == picks[j] + c > p + c;
      }
    }
    if 0 < i {
      assert picks[0] < p;
    }
    if i < |picks| - 1 {
      assert p < picks[|picks| - 1];
    }
  }

  /** Turn `i` of the upward loop moves entry `i` alone, past no other. */
  lemma UpMarks(picks: seq<int>, i: nat, c: int, size: int)
    requires Ascending(picks) && i < |picks| && c < 0
    requires 0 <= picks[0] + c && picks[|picks| - 1] < size
    ensures MovesOne(Marks(picks, 0, i, c), Marks(picks, 0, i + 1, c), i, size)
  {
    var marks, marks' := Marks(picks, 0, i, c), Marks(picks, 0, i + 1, c);
    var p := picks[i];
    assert marks[i] == p && marks'[i] == p + c;
    forall j | 0 <= j < |picks| && j != i
      ensures marks'[j] == marks[j]
      ensures (marks[j] < p && marks[j] < p + c) || (marks[j] > p && marks[j] > p + c)
    {
      if j < i {
        assert marks[j] == marks'[j] == picks[j] + c < p + c;
      } else {
        assert marks[j] == marks'[j] == picks[j] > p;
      }
    }
    if 0 < i {
      assert picks[0] < p;
    }
    if i < |picks| - 1 {
      assert p < picks[|picks| - 1];
    }
  }

  /** A turn of the downward loop moves entry `i` of the selection and keeps
      the unselected items in order. */
  lemma DownOrder(s: seq<Processor>, m: seq<Processor>, picks: seq<int>, i: nat, c: int)
    requires Ascending(picks) && i < |picks| && c > 0
    requires 0 <= picks[0] && picks[|picks| - 1] + c < |s|
    requires MovesTo(s, m, picks[i], picks[i] + c)
    ensures Except(m, Positions(Marks(picks, i, |picks|, c))) == Except(s, Positions(Marks(picks, i + 1, |picks|, c)))
  {
    DownMarks(picks, i, c, |s|);
    MoveMark(s, m, Marks(picks, i + 1, |picks|, c), Marks(picks, i, |picks|, c), i);
  }

  /** A turn of the upward loop moves entry `i` of the selection and keeps
      the unselected items in order. */
  lemma UpOrder(s: seq<Processor>, m: seq<Processor>, picks: seq<int>, i: nat, c: int)
    requires Ascending(picks) && i < |picks| && c < 0
    requires 0 <= picks[0] + c && picks[|picks| - 1] < |s|
    requires MovesTo(s, m, picks[i], picks[i] + c)
    ensures Except(m, Positions(Marks(picks, 0, i + 1, c))) == Except(s, Positions(Marks(picks, 0, i, c)))
  {
    UpMarks(picks, i, c, |s|);
    MoveMark(s, m, Marks(picks, 0, i, c), Marks(picks, 0, i + 1, c), i);
  }

  /** What is left out and what is kept pin a list down: two lists of one
      length that hold the same items at the positions of `pos` and leave the
      same items elsewhere are equal. */
  lemma {:induction false} ExceptDetermines(a: seq<Processor>, b: seq<Processor>, pos: set<int>)
    requires |a| == |b| && Except(a, pos) == Except(b, pos)
    requires forall x :: 0 <= x < |a| && x in pos ==> a[x] == b[x]
    ensures a == b
  {
    if a != [] {
      var n := |a| - 1;
      var ka, kb := Except(a[..n], pos), Except(b[..n], pos);
      assert Except(a, pos) == ka + (if n in pos then [] else [a[n]]);
      assert Except(b, pos) == kb + (if n in pos then [] else [b[n]]);
      if n in pos {
        assert ka + [] == ka && kb + [] == kb;
      } else {
        var ea, eb := ka + [a[n]], kb + [b[n]];
        assert ea == eb && |ka| == |kb|;
        assert ka == ea[..|ka|] && kb == eb[..|kb|];
        assert a[n] == ea[|ka|];
      }
      assert ka == kb;
      ExceptDetermines(a[..n], b[..n], pos);
      assert a == a[..n] + [a[n]] && b == b[..n] + [b[n]];
    }
  }

  // ---------------------------------------------------------------------------
  // SortableDualList
  // ---------------------------------------------------------------------------

  /** The action commands of the eight buttons (`"<<"`, `"<"`, `">"`, `">>"`,
      `"Top"`, `"Up"`, `"Down"`, `"Bottom"`), and anything else. */
  datatype Command = MoveAllLeft | MoveLeft | MoveRight | MoveAllRight | Top | Up | Down | Bottom | Other

  /** What a handler does to a list's selection: leaves it, or sets it. */
  datatype Selection = Unchanged | Selected(indices: seq<int>)

  /** `s` with `items` inserted at `idx`, in order. */
  function Spliced(s: seq<Processor>, idx: nat, items: seq<Processor>): seq<Processor>
    requires idx <= |s|
  {
    s[..idx] + items + s[idx..]
  }

  /** Where a transfer inserts on the receiving side: at the last selected
      index there, or at the end when nothing is selected. */
  function InsertionPoint(sel: seq<int>, size: nat): (idx: nat)
    requires InRange(sel, size)
    ensures idx <= size
    ensures sel == [] ==> idx == size
    ensures sel != [] ==> idx == sel[|sel| - 1] < size
  {
    if |sel| <= 0 then size else sel[|sel| - 1]
  }

  /** The offset each reordering button passes to `move`. */
  /** What a list's listeners are told by one command: a full refresh from
      the old size to the new one when the command changed the list, and
      nothing otherwise. */
  predicate Refreshed(before: seq<ListEvent>, size: int, after: seq<ListEvent>, size': int, changed: bool) {
    after == before + (if changed then RefreshEvents(size, size') else [])
  }

  /** Whether a command changes the left and the right list, given the
      outcome `o` of a reordering and the size of the right-hand list. */
  function Changes(command: Command, leftSel: seq<int>, rightSel: seq<int>, rightSize: nat, o: Outcome): (bool, bool) {
    match command
    case MoveRight => (|leftSel| > 0, |leftSel| > 0)
    case MoveLeft => (|rightSel| > 0, |rightSel| > 0)
    case MoveAllRight => (true, true)
    case MoveAllLeft => (true, true)
    case Other => (false, false)
    case _ => (false, o.Pass? && ReorderOffset(command, rightSize) != 0)
  }

  function ReorderOffset(command: Command, size: nat): int
    requires command in {Top, Up, Down, Bottom}
  {
    match command
    case Top => -(size as int)
    case Up => -1
    case Down => 1
    case Bottom => size
  }

  /** The effect of `>` (or `<`) moving the `fromSel` items of `from` across
      to `to`: nothing when nothing is selected; otherwise they are inserted
      at the insertion point and selected there, and they leave `from`, whose
      selection is cleared. */
  ghost predicate Transferred(from: seq<Processor>, to: seq<Processor>, fromSel: seq<int>, toSel: seq<int>,
                              from': seq<Processor>, to': seq<Processor>, fromAfter: Selection, toAfter: Selection)
    requires InRange(fromSel, |from|) && InRange(toSel, |to|)
  {
    if fromSel == [] then
      from' == from && to' == to && fromAfter == Unchanged && toAfter == Unchanged
    else
      var idx := InsertionPoint(toSel, |to|);
      && to' == Spliced(to, idx, Picked(from, fromSel))
      && from' == Except(from, Positions(fromSel))
      && toAfter == Selected(Span(idx, |fromSel|)) && fromAfter == Selected([])
  }

  /** The effect of `>>` (or `<<`): all of `from` is inserted at the
      insertion point of `to`, `from` is emptied, no selection is touched. */
  ghost predicate TransferredAll(from: seq<Processor>, to: seq<Processor>, toSel: seq<int>,
                                 from': seq<Processor>, to': seq<Processor>, fromAfter: Selection, toAfter: Selection)
    requires InRange(toSel, |to|)
  {
    && to' == Spliced(to, InsertionPoint(toSel, |to|), from)
    && from' == [] && fromAfter == Unchanged && toAfter == Unchanged
  }

  /** The effect of a reordering button, `move(sel, offset)` on a list `s`:
      it throws when there is an offset but no selection, and otherwise moves
      each selected item by the clamped offset while the unselected items
      keep their order in the places left; the selection follows the items,
      and the list keeps its items. */
  ghost predicate Reordered(s: seq<Processor>, sel: seq<int>, offset: int, s': seq<Processor>, o: Outcome, after: Selection)
    requires InRange(sel, |s|)
  {
    && o == (if offset != 0 && sel == [] then Fail(IndexOutOfBounds) else Pass)
    && (o.Fail? ==> s' == s && after == Unchanged)
    && (o.Pass? ==> |s'| == |s| && multiset(s') == multiset(s))
    && (o.Pass? && offset == 0 ==> s' == s && after == Selected(sel))
    && (o.Pass? && offset != 0 ==>
        sel != [] &&
        var c := Clamp(sel, |s|, offset);
        && after == Selected(Shifted(sel, c))
        && (forall j :: 0 <= j < |sel| ==> 0 <= sel[j] + c < |s'| && s'[sel[j] + c] == s[sel[j]])
        && Except(s', Positions(Shifted(sel, c))) == Except(s, Positions(sel)))
  }

  /** A reordering is pinned down: from one list, selection and offset, the
      outcome, the list and the selection afterwards can be only one. */
  lemma ReorderedDetermines(s: seq<Processor>, sel: seq<int>, offset: int,
                            s1: seq<Processor>, o1: Outcome, after1: Selection,
                            s2: seq<Processor>, o2: Outcome, after2: Selection)
    requires InRange(sel, |s|)
    requires Reordered(s, sel, offset, s1, o1, after1) && Reordered(s, sel, offset, s2, o2, after2)
    ensures s1 == s2 && o1 == o2 && after1 == after2
  {
    if o1.Pass? && offset != 0 {
      var c := Clamp(sel, |s|, offset);
      var marks := Shifted(sel, c);
      forall x | 0 <= x < |s1| && x in Positions(marks)
        ensures s1[x] == s2[x]
      {
        var j :| 0 <= j < |marks| && marks[j] == x;
        assert s1[sel[j] + c] == s[sel[j]] == s2[sel[j] + c];
      }
      ExceptDetermines(s1, s2, Positions(marks));
    }
  }

  /** With nothing left out, everything is kept. */
  lemma ExceptNothing(s: seq<Processor>, pos: set<int>)
    requires forall x :: 0 <= x < |s| ==> x !in pos
    ensures Except(s, pos) == s
  {
    ExceptSkip(s, pos, 0);
    assert s[0..] == s;
  }

  /** Down with the first item selected swaps it with the second, and every
      other item stays in place. */
  lemma DownFirst(s: seq<Processor>, s': seq<Processor>, o: Outcome, after: Selection)
    requires |s| >= 2 && Reordered(s, [0], 1, s', o, after)
    ensures s' == [s[1], s[0]] + s[2..] && o == Pass && after == Selected([1])
  {
    assert Clamp([0], |s|, 1) == 1;
    assert Shifted([0], 1) == [1];
    assert |s'| == |s| && s'[1] == s[0] && Except(s', Positions([1])) == Except(s, Positions([0]));
    SwapsFirst(s, s');
  }

  /** A list whose second item is the first of `s`, and whose other items
      are the rest of `s` in order, is `s` with its first two items swapped. */
  lemma SwapsFirst(s: seq<Processor>, s': seq<Processor>)
    requires |s| >= 2 && |s'| == |s| && s'[1] == s[0]
    requires Except(s', Positions([1])) == Except(s, Positions([0]))
    ensures s' == [s[1], s[0]] + s[2..]
  {
    assert RemoveAt(s', 1) == RemoveAt(s, 0) by {
      ExceptOne(s', 1);
      ExceptOne(s, 0);
    }
    assert s' == s'[..1] + [s'[1]] + s'[2..];
    assert RemoveAt(s, 0) == s[1..] == [s[1]] + s[2..];
  }

  /** Leaving out one position is taking out the item there. */
  lemma ExceptOne(t: seq<Processor>, k: nat)
    requires k < |t|
    ensures Except(t, Positions([k])) == RemoveAt(t, k)
  {
    var pos := Positions([k]);
    var low := Lowered(pos, k, |t| - 1);
    assert k in pos by {
      assert [k][0] == k;
    }
    ExceptRemove(t, pos, k);
    forall x | 0 <= x < |t| - 1
      ensures x !in low
    {
      assert Raised(x, k) != k;
    }
    ExceptNothing(RemoveAt(t, k), low);
  }

  /** Top brings the selected block to the start of the list, Bottom to its
      end; neither can throw when something is selected. */
  lemma TopAndBottom(s: seq<Processor>, sel: seq<int>, s': seq<Processor>, o: Outcome, after: Selection)
    requires Ascending(sel) && InRange(sel, |s|) && sel != []
    ensures Reordered(s, sel, -|s|, s', o, after) ==>
      o == Pass && after.Selected? && |after.indices| == |sel| && after.indices[0] == 0
    ensures Reordered(s, sel, |s|, s', o, after) ==>
      o == Pass && after.Selected? && |after.indices| == |sel| && after.indices[|sel| - 1] == |s| - 1
  {
    ClampKeepsInside(sel, |s|, -|s|);
    ClampKeepsInside(sel, |s|, |s|);
  }

  /** A transfer of the selected items keeps every item, on one side or the other. */
  lemma TransferKeeps(from: seq<Processor>, to: seq<Processor>, sel: seq<int>, idx: nat)
    requires Ascending(sel) && InRange(sel, |from|) && idx <= |to|
    ensures multiset(Except(from, Positions(sel))) + multiset(Spliced(to, idx, Picked(from, sel)))
      == multiset(from) + multiset(to)
  {
    var picked, rest := Picked(from, sel), Except(from, Positions(sel));
    PickedExcept(from, sel);
    assert multiset(from) == multiset(picked) + multiset(rest);
    assert multiset(Spliced(to, idx, picked)) == multiset(to[..idx]) + multiset(picked) + multiset(to[idx..]);
    assert to == to[..idx] + to[idx..];
    assert multiset(to) == multiset(to[..idx]) + multiset(to[idx..]);
  }

  /** Moving everything across keeps every item. */
  lemma TransferAllKeeps(from: seq<Processor>, to: seq<Processor>, idx: nat)
    requires idx <= |to|
    ensures multiset(Spliced(to, idx, from)) == multiset(from) + multiset(to)
  {
    assert to == to[..idx] + to[idx..];
  }

  /** Conservation read from either side. */
  lemma UnionSwap(a: seq<Processor>, b: seq<Processor>, a': seq<Processor>, b': seq<Processor>)
    requires multiset(b') + multiset(a') == multiset(b) + multiset(a)
    ensures multiset(a') + multiset(b') == multiset(a) + multiset(b)
  {
    assert multiset(a') + multiset(b') == multiset(b') + multiset(a');
    assert multiset(b) + multiset(a) == multiset(a) + multiset(b);
  }

  /** `getSelectedIndices()`: a fresh array holding the selection. */
  method SelectedIndices(sel: seq<int>) returns (a: array<int>)
    ensures fresh(a) && a[..] == sel
  {
    a := new int[|sel|](i requires 0 <= i < |sel| => sel[i]);
  }

  /** `SortableDualList`: the left list offers the items the source iterator
      yields, the right list starts empty and holds what was chosen. */
  class SortableDualList {
    const left: SimpleListModel
    const right: SimpleListModel

    ghost predicate Valid()
      reads this, left, right
    {
      left != right && left.Valid() && right.Valid()
    }

    constructor (source: CapFilter)
      requires source.Valid()
      modifies source
      ensures Valid() && fresh(left) && fresh(right)
      ensures left.data == old(source.Yields()) && right.data == []
    {
      left := new SimpleListModel.Drain(source);
      right := new SimpleListModel.Empty();
    }

    /** `iterator()`: the chosen items, in their order. */
    function Chosen(): (r: seq<Processor>)
      reads this, right
      ensures |r| == |right.data| && forall i :: 0 <= i < |r| ==> r[i] == right.data[i]
    {
      right.data
    }

    /** `countRHS()`: how many items were chosen. */
    function CountRHS(): (n: nat)
      reads this, right
      ensures n == |Chosen()|
    {
      right.Size()
    }

    /** `actionPerformed(ae)`, given the selections of the two lists as the
        widgets report them. It returns what it does to each selection. */
    method ActionPerformed(command: Command, leftSel: seq<int>, rightSel: seq<int>)
      returns (o: Outcome, leftAfter: Selection, rightAfter: Selection)
      requires Valid()
      requires Ascending(leftSel) && InRange(leftSel, |left.data|)
      requires Ascending(rightSel) && InRange(rightSel, |right.data|)
      modifies left, right
      ensures Valid()
      ensures multiset(left.data) + multiset(right.data) == old(multiset(left.data) + multiset(right.data))
      ensures command == MoveRight ==>
        Transferred(old(left.data), old(right.data), leftSel, rightSel, left.data, right.data, leftAfter, rightAfter)
      ensures command == MoveLeft ==>
        Transferred(old(right.data), old(left.data), rightSel, leftSel, right.data, left.data, rightAfter, leftAfter)
      ensures command == MoveAllRight ==>
        TransferredAll(old(left.data), old(right.data), rightSel, left.data, right.data, leftAfter, rightAfter)
      ensures command == MoveAllLeft ==>
        TransferredAll(old(right.data), old(left.data), leftSel, right.data, left.data, rightAfter, leftAfter)
      ensures command in {Top, Up, Down, Bottom} ==>
        && left.data == old(left.data) && leftAfter == Unchanged
        && Reordered(old(right.data), rightSel, ReorderOffset(command, |old(right.data)|), right.data, o, rightAfter)
      ensures command == Other ==>
        left.data == old(left.data) && right.data == old(right.data) && leftAfter == Unchanged && rightAfter == Unchanged
      ensures !(command in {Top, Up, Down, Bottom}) ==> o == Pass
      ensures var changes := Changes(command, leftSel, rightSel, old(|right.data|), o);
        && Refreshed(old(left.announced), old(|left.data|), left.announced, |left.data|, changes.0)
        && Refreshed(old(right.announced), old(|right.data|), right.announced, |right.data|, changes.1)
    {
      o, leftAfter, rightAfter := Pass, Unchanged, Unchanged;
      match command
      case MoveRight =>
        leftAfter, rightAfter := Transfer(left, right, leftSel, rightSel);
      case MoveAllRight =>
        leftAfter, rightAfter := TransferAll(left, right, rightSel);
      case MoveLeft =>
        rightAfter, leftAfter := Transfer(right, left, rightSel, leftSel);
        UnionSwap(old(left.data), old(right.data), left.data, right.data);
      case MoveAllLeft =>
        rightAfter, leftAfter := TransferAll(right, left, leftSel);
        UnionSwap(old(left.data), old(right.data), left.data, right.data);
      case Top | Up | Down | Bottom =>
        o, rightAfter := Reorder(rightSel, ReorderOffset(command, right.Size()));
      case Other =>
    }

    /** `>` and `<`: returns at once when nothing is selected in `from`;
        otherwise `addAll(idx, from, indices)` on the other side and
        `removeAll(indices)` on `from`. */
    method Transfer(from: SimpleListModel, to: SimpleListModel, fromSel: seq<int>, toSel: seq<int>)
      returns (fromAfter: Selection, toAfter: Selection)
      requires from != to && from.Valid() && to.Valid()
      requires Ascending(fromSel) && InRange(fromSel, |from.data|) && InRange(toSel, |to.data|)
      modifies from, to
      ensures from.Valid() && to.Valid()
      ensures Transferred(old(from.data), old(to.data), fromSel, toSel, from.data, to.data, fromAfter, toAfter)
      ensures multiset(from.data) + multiset(to.data) == old(multiset(from.data) + multiset(to.data))
      ensures Refreshed(old(from.announced), old(|from.data|), from.announced, |from.data|, |fromSel| > 0)
      ensures Refreshed(old(to.announced), old(|to.data|), to.announced, |to.data|, |fromSel| > 0)
    {
      if |fromSel| <= 0 {
        return Unchanged, Unchanged;
      }
      var idx := InsertionPoint(toSel, to.Size());
      var indices := SelectedIndices(fromSel);
      var r := to.AddAllIndices(idx, from.data, indices);
      toAfter := Selected(r[..]);
      from.RemoveAllIndices(fromSel);
      fromAfter := Selected([]);
      TransferKeeps(old(from.data), old(to.data), fromSel, idx);
    }

    /** `>>` and `<<`: `addAll(idx, from)` on the other side, then `removeAll()`. */
    method TransferAll(from: SimpleListModel, to: SimpleListModel, toSel: seq<int>)
      returns (fromAfter: Selection, toAfter: Selection)
      requires from != to && from.Valid() && to.Valid()
      requires InRange(toSel, |to.data|)
      modifies from, to
      ensures from.Valid() && to.Valid()
      ensures TransferredAll(old(from.data), old(to.data), toSel, from.data, to.data, fromAfter, toAfter)
      ensures multiset(from.data) + multiset(to.data) == old(multiset(from.data) + multiset(to.data))
      ensures Refreshed(old(from.announced), old(|from.data|), from.announced, |from.data|, true)
      ensures Refreshed(old(to.announced), old(|to.data|), to.announced, |to.data|, true)
    {
      var idx := InsertionPoint(toSel, to.Size());
      to.AddAll(idx, from.data);
      from.RemoveAll();
      TransferAllKeeps(old(from.data), old(to.data), idx);
      fromAfter, toAfter := Unchanged, Unchanged;
    }

    /** Top, Up, Down and Bottom: `move` on the right-hand list, whose
        selection is set to what `move` returns unless it throws. */
    method Reorder(rightSel: seq<int>, offset: int) returns (o: Outcome, rightAfter: Selection)
      requires Valid() && Ascending(rightSel) && InRange(rightSel, |right.data|)
      modifies right
      ensures Valid()
      ensures Reordered(old(right.data), rightSel, offset, right.data, o, rightAfter)
      ensures Refreshed(old(right.announced), old(|right.data|), right.announced, |right.data|, o.Pass? && offset != 0)
    {
      var indices := SelectedIndices(rightSel);
      var r;
      r, o := right.Move(indices, offset);
      if o.Pass? && offset != 0 {
        ClampKeepsInside(rightSel, |old(right.data)|, offset);
      }
      if o.Pass? {
        rightAfter := Selected(r[..]);
      } else {
        rightAfter := Unchanged;
      }
    }
  }
}
