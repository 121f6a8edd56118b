/**
  The history's branches as the program keeps them: items in a rope, walked
  with callbacks and cut by slicing.
 */
module BranchRopes {
  import opened Options
  import opened Sequences
  import opened Ropes
  import opened Branches

  datatype Branch<+S, +B> = Branch(items: Rope<Item<S, B>>, eventCount: int)

  function View<S, B>(b: Branch<S, B>): Stack<S, B> {
    Stack(Flatten(b.items), b.eventCount)
  }

  // ----------------------------------------------------------------------
  // Trimming
  // ----------------------------------------------------------------------

  datatype Cut = Cut(at: Option<nat>, left: int)

  function SeekCut<S, B>(c: Cut, item: Item<S, B>, i: int): Visit<Cut> {
    if item.selection.None? then Visit(c, false)
    else if c.left == 0 && i >= 0 then Visit(Cut(Some(i), c.left - 1), true)
    else Visit(Cut(c.at, c.left - 1), false)
  }

  lemma {:induction false} SeekFinds<S, B>(items: seq<Item<S, B>>, k: int, i: nat)
    requires i <= |items|
    ensures Up(items, SeekCut, Cut(None, k), i, |items|, 0).state.at == CutPoint(items, k, i)
    decreases |items| - i
  {
    if i < |items| && !(items[i].selection.Some? && k == 0) {
      SeekFinds(items, if items[i].selection.Some? then k - 1 else k, i + 1);
    }
  }

  lemma {:induction false} CutPointInside<S, B>(items: seq<Item<S, B>>, k: int, i: nat)
    requires i <= |items|
    ensures CutPoint(items, k, i).Some? ==> CutPoint(items, k, i).value < |items|
    decreases |items| - i
  {
    if i < |items| {
      CutPointInside(items, if items[i].selection.Some? then k - 1 else k, i + 1);
    }
  }

  method TrimRope<S, B>(items: Rope<Item<S, B>>, k: int) returns (r: Rope<Item<S, B>>)
    requires Exact(items)
    ensures Exact(r) && Flatten(r) == Trim(Flatten(items), k)
  {
    hide Exact, Flatten, Up, CutPoint, Slice;
    StoredSizes(items);
    var v := ForEach(items, SeekCut, Cut(None, k), 0, Length(items));
    SeekFinds(Flatten(items), k, 0);
    CutPointInside(Flatten(items), k, 0);
    var n := if v.state.at.Some? then v.state.at.value else 0;
    SliceIsBetween(items, n, Length(items));
    r := Slice(items, n, Length(items));
  }

  method DropLast<T>(items: Rope<T>) returns (r: Rope<T>)
    requires Exact(items) && Flatten(items) != []
    ensures Exact(r) && Flatten(r) == Flatten(items)[..|Flatten(items)| - 1]
  {
    hide Exact, Flatten, Slice;
    StoredSizes(items);
    SliceIsBetween(items, 0, Length(items) - 1);
    r := Slice(items, 0, Length(items) - 1);
  }

  // ----------------------------------------------------------------------
  // Adding a transform
  // ----------------------------------------------------------------------

  method AddTransformTo<D, S, B>(g: Algebra<D, S>, b: Branch<S, B>, tr: Transform<D, S>, sel: Option<B>, depth: int)
    returns (r: Branch<S, B>)
    requires Exact(b.items) && |tr.docs| == |tr.steps|
    ensures Exact(r.items) && View(r) == AddTransform(g, View(b), tr, sel, depth)
  {
    hide Exact, Flatten, Trim, Concat, AddSteps, MergeItem;
    var added, count, kept, n := [], b.eventCount, b.items, sel;
    var last := Get(kept, Length(kept) - 1);
    StoredSizes(kept);
    var c := 0;
    while c < |tr.steps|
      invariant 0 <= c <= |tr.steps| && Exact(kept) && (c == 0 <==> added == [])
      invariant last == if added != [] then Some(added[|added| - 1]) else Newest(Flatten(kept))
      invariant n == if c == 0 then sel else None
      invariant count == b.eventCount + if c > 0 && sel.Some? then 1 else 0
      invariant AddSteps(g, Flatten(b.items), [], tr.docs, tr.steps, sel) ==
                AddSteps(g, Flatten(kept), added, tr.docs[c..], tr.steps[c..], n)
    {
      var p := Item(g.invert(tr.steps[c], tr.docs[c]), n);
      AddStepsNext(g, Flatten(kept), added, tr.docs[c..], tr.steps[c..], n);
      assert tr.docs[c..][1..] == tr.docs[c + 1..] && tr.steps[c..][1..] == tr.steps[c + 1..];
      var h := if last.Some? then MergeItem(g, last.value, p) else None;
      if h.Some? {
        p := h.value;
        if c > 0 {
          added := added[..|added| - 1];
        } else {
          kept := DropLast(kept);
        }
      }
      added := added + [p];
      if n.Some? {
        count := count + 1;
        n := None;
      }
      last := Some(p);
      c := c + 1;
    }
    AddStepsDone(g, Flatten(kept), added, tr.docs[c..], tr.steps[c..], n);
    var overflow := count - depth;
    if overflow > DEPTH_OVERFLOW {
      kept := TrimRope(kept, overflow);
      count := count - overflow;
    }
    LeafIsExact(added);
    ConcatIsConcat(kept, Leaf(added));
    r := Branch(Concat(kept, Leaf(added)), count);
  }

  function Newest<T>(s: seq<T>): Option<T> {
    if s == [] then None else Some(s[|s| - 1])
  }

  lemma AddStepsNext<D, S, B>(g: Algebra<D, S>, kept: seq<Item<S, B>>, added: seq<Item<S, B>>,
                              docs: seq<D>, steps: seq<S>, sel: Option<B>)
    requires |docs| == |steps| && steps != []
    ensures var p := Item(g.invert(steps[0], docs[0]), sel);
            var last := if added != [] then Some(added[|added| - 1]) else Newest(kept);
            var h := if last.Some? then MergeItem(g, last.value, p) else None;
            AddSteps(g, kept, added, docs, steps, sel) ==
            if h.None? then AddSteps(g, kept, added + [p], docs[1..], steps[1..], None)
            else if added != [] then AddSteps(g, kept, added[..|added| - 1] + [h.value], docs[1..], steps[1..], None)
            else AddSteps(g, kept[..|kept| - 1], [] + [h.value], docs[1..], steps[1..], None)
  {
    hide MergeItem;
    var p := Item(g.invert(steps[0], docs[0]), sel);
    assert [] + [p] == [p];
    if added == [] && kept != [] && MergeItem(g, kept[|kept| - 1], p).Some? {
      var h := MergeItem(g, kept[|kept| - 1], p).value;
      assert [] + [h] == [h];
    }
  }

  lemma AddStepsDone<D, S, B>(g: Algebra<D, S>, kept: seq<Item<S, B>>, added: seq<Item<S, B>>,
                              docs: seq<D>, steps: seq<S>, sel: Option<B>)
    requires docs == [] && steps == []
    ensures AddSteps(g, kept, added, docs, steps, sel) == (kept, added)
  {
  }

  // ----------------------------------------------------------------------
  // Taking an event back
  // ----------------------------------------------------------------------

  datatype Taken<D, S, +B> = Taken(transform: Transform<D, S>, selection: Option<B>)

  function TakeBack<D, S, B>(g: Algebra<D, S>): (Taken<D, S, B>, Item<S, B>, int) -> Visit<Taken<D, S, B>> {
    (t: Taken<D, S, B>, item: Item<S, B>, i: int) =>
      Visit(Taken(MaybeStep(g, t.transform, item.step), item.selection), item.selection.Some?)
  }

  lemma {:induction false} TakenBack<D, S, B>(g: Algebra<D, S>, items: seq<Item<S, B>>, n: nat, t: Taken<D, S, B>)
    requires n <= |items| && Events(items[..n]) > 0
    ensures var v := Down(items, TakeBack(g), t, n, 0, 0);
            var (rest, tr, sel) := PopFrom(g, items[..n], t.transform);
            && v == Visit(Taken(tr, Some(sel)), true)
            && |rest| < n && rest == items[..|rest|] && items[|rest|].selection.Some?
            && (forall k :: |rest| < k < n ==> items[k].selection.None?)
    decreases n
  {
    hide MaybeStep;
    assert items[..n][..n - 1] == items[..n - 1];
    var last := items[n - 1];
    if last.selection.None? {
      TakenBack(g, items, n - 1, Taken(MaybeStep(g, t.transform, last.step), last.selection));
    }
  }

  method PopEventFrom<D, S, B>(g: Algebra<D, S>, b: Branch<S, B>, d: D)
    returns (p: Option<(Branch<S, B>, Transform<D, S>, B)>)
    requires Exact(b.items) && (b.eventCount != 0 ==> Events(Flatten(b.items)) > 0)
    ensures p.None? <==> PopEvent(g, View(b), d).None?
    ensures p.Some? ==>
      var (rest, tr, sel) := p.value;
      Exact(rest.items) && PopEvent(g, View(b), d) == Some(Popped(View(rest), tr, sel))
  {
    hide Exact, Flatten, Slice, Down, PopFrom, Events, MaybeStep;
    if b.eventCount == 0 {
      return None;
    }
    StoredSizes(b.items);
    ghost var items := Flatten(b.items);
    var t0: Taken<D, S, B> := Taken(Transform([], [], d), None);
    assert items[..|items|] == items;
    TakenBack(g, items, |items|, t0);
    var r := Length(b.items);
    ghost var at := |PopFrom(g, items, t0.transform).0|;
    while Get(b.items, r - 1).value.selection.None?
      invariant at < r <= |items|
      decreases r
    {
      r := r - 1;
    }
    r := r - 1;
    assert r == at;
    var v := ForEach(b.items, TakeBack(g), t0, Length(b.items), 0);
    SliceIsBetween(b.items, 0, r);
    p := Some((Branch(Slice(b.items, 0, r), b.eventCount - 1), v.state.transform, v.state.selection.value));
  }
}
