/**
  A branch of the undo history: inverted steps, newest last, some of them
  marked with the selection to restore. An event is what one undo takes back:
  the steps from the newest one down to the newest mark.
 */
module Branches {
  import opened Options
  import opened Sequences
  import opened Ropes

  // ----------------------------------------------------------------------
  // Steps, seen from outside
  // ----------------------------------------------------------------------

  /** Documents and steps, known only by what the history asks of them. */
  datatype Algebra<!D, !S> = Algebra(apply: (S, D) -> Option<D>, invert: (S, D) -> S, merge: (S, S) -> Option<S>)

  ghost predicate Inverts<D(!new), S(!new)>(g: Algebra<D, S>) {
    forall s: S, d: D :: g.apply(s, d).Some? ==> g.apply(g.invert(s, d), g.apply(s, d).value) == Some(d)
  }

  ghost predicate Merges<D(!new), S(!new)>(g: Algebra<D, S>) {
    forall a: S, b: S, d: D :: g.merge(a, b).Some? && g.apply(a, d).Some? && g.apply(b, g.apply(a, d).value).Some? ==>
      g.apply(g.merge(a, b).value, d) == g.apply(b, g.apply(a, d).value)
  }

  /** An inverse takes its step back, and a merged step has the effect of the two in turn. */
  ghost predicate Laws<D(!new), S(!new)>(g: Algebra<D, S>) {
    Inverts(g) && Merges(g)
  }

  datatype Transform<D, S> = Transform(docs: seq<D>, steps: seq<S>, doc: D)

  /** The steps done one after the other, or nothing when one of them fails. */
  function Perform<D, S>(g: Algebra<D, S>, d: D, steps: seq<S>): (r: Option<Transform<D, S>>)
    ensures r.Some? ==> |r.value.docs| == |r.value.steps| && r.value.steps == steps
  {
    if steps == [] then Some(Transform([], [], d))
    else
      var d1 := g.apply(steps[0], d);
      if d1.None? then None
      else
        var rest := Perform(g, d1.value, steps[1..]);
        if rest.None? then None else Some(Transform([d] + rest.value.docs, steps, rest.value.doc))
  }

  // ----------------------------------------------------------------------
  // Items
  // ----------------------------------------------------------------------

  datatype Item<+S, +B> = Item(step: S, selection: Option<B>)

  /** How many events the items hold. */
  function Events<S, B>(items: seq<Item<S, B>>): nat {
    if items == [] then 0
    else Events(items[..|items| - 1]) + if items[|items| - 1].selection.Some? then 1 else 0
  }

  lemma {:induction false} EventsSplit<S, B>(x: seq<Item<S, B>>, y: seq<Item<S, B>>)
    ensures Events(x + y) == Events(x) + Events(y)
  {
    if y == [] {
      assert x + y == x;
    } else {
      var n := |y| - 1;
      EventsSplit(x, y[..n]);
      assert (x + y)[..|x + y| - 1] == x + y[..n];
    }
  }

  /** Where the items lead from `d` when all of them are undone, newest first. */
  function Rewind<D, S, B>(g: Algebra<D, S>, items: seq<Item<S, B>>, d: D): Option<D> {
    if items == [] then Some(d)
    else
      var d1 := g.apply(items[|items| - 1].step, d);
      if d1.None? then None else Rewind(g, items[..|items| - 1], d1.value)
  }

  /** The documents, with their selections, that undoing event by event comes to; the oldest first. */
  function Snapshots<D, S, B>(g: Algebra<D, S>, items: seq<Item<S, B>>, d: D): seq<(D, B)>
    requires Rewind(g, items, d).Some?
  {
    if items == [] then []
    else
      var last := items[|items| - 1];
      var d1 := g.apply(last.step, d).value;
      Snapshots(g, items[..|items| - 1], d1) + if last.selection.Some? then [(d1, last.selection.value)] else []
  }

  lemma {:induction false} SnapshotCount<D, S, B>(g: Algebra<D, S>, items: seq<Item<S, B>>, d: D)
    requires Rewind(g, items, d).Some?
    ensures |Snapshots(g, items, d)| == Events(items)
  {
    if items != [] {
      SnapshotCount(g, items[..|items| - 1], g.apply(items[|items| - 1].step, d).value);
    }
  }

  lemma {:induction false} RewindSplit<D, S, B>(g: Algebra<D, S>, x: seq<Item<S, B>>, y: seq<Item<S, B>>, d: D)
    ensures Rewind(g, x + y, d) == if Rewind(g, y, d).Some? then Rewind(g, x, Rewind(g, y, d).value) else None
  {
    if y == [] {
      assert x + y == x;
    } else {
      var n := |y| - 1;
      assert (x + y)[..|x + y| - 1] == x + y[..n];
      var d1 := g.apply(y[n].step, d);
      if d1.Some? {
        RewindSplit(g, x, y[..n], d1.value);
      }
    }
  }

  lemma {:induction false} SnapshotsSplit<D, S, B>(g: Algebra<D, S>, x: seq<Item<S, B>>, y: seq<Item<S, B>>, d: D)
    requires Rewind(g, x + y, d).Some?
    ensures Rewind(g, y, d).Some? && Rewind(g, x, Rewind(g, y, d).value).Some?
    ensures Snapshots(g, x + y, d) == Snapshots(g, x, Rewind(g, y, d).value) + Snapshots(g, y, d)
  {
    RewindSplit(g, x, y, d);
    if y == [] {
      assert x + y == x;
    } else {
      var n := |y| - 1;
      assert (x + y)[..|x + y| - 1] == x + y[..n];
      SnapshotsSplit(g, x, y[..n], g.apply(y[n].step, d).value);
    }
  }

  // ----------------------------------------------------------------------
  // Adding a transform
  // ----------------------------------------------------------------------

  /** An unmarked item joins the one before it, when their steps merge. */
  function MergeItem<D, S, B>(g: Algebra<D, S>, last: Item<S, B>, p: Item<S, B>): Option<Item<S, B>> {
    if p.selection.Some? then None
    else
      var n := g.merge(p.step, last.step);
      if n.None? then None else Some(Item(n.value, last.selection))
  }

  /** The newest item is replaced by its merge with `p`, or `p` is added after it. */
  function AddItem<D, S, B>(g: Algebra<D, S>, items: seq<Item<S, B>>, p: Item<S, B>): seq<Item<S, B>> {
    if items == [] then [p]
    else
      var h := MergeItem(g, items[|items| - 1], p);
      if h.Some? then items[..|items| - 1] + [h.value] else items + [p]
  }

  /** A branch only grows by an item that begins an event, or whose step does not merge with the newest one's. */
  lemma GrowsExactly<D, S, B>(g: Algebra<D, S>, items: seq<Item<S, B>>, p: Item<S, B>)
    ensures var r := AddItem(g, items, p);
            if items != [] && p.selection == None && g.merge(p.step, items[|items| - 1].step).Some?
            then |r| == |items| && r[|r| - 1].selection == items[|items| - 1].selection && r[..|r| - 1] == items[..|r| - 1]
            else |r| == |items| + 1 && r[|r| - 1] == p && r[..|items|] == items
  {
  }

  /** Undoing a branch starts with its newest item. */
  lemma Newest<D, S, B>(g: Algebra<D, S>, x: seq<Item<S, B>>, p: Item<S, B>, d: D)
    ensures var d1 := g.apply(p.step, d);
            Rewind(g, x + [p], d) == if d1.None? then None else Rewind(g, x, d1.value)
    ensures Rewind(g, x + [p], d).Some? ==>
              var d1 := g.apply(p.step, d).value;
              Snapshots(g, x + [p], d) ==
              Snapshots(g, x, d1) + (if p.selection.Some? then [(d1, p.selection.value)] else [])
    ensures Events(x + [p]) == Events(x) + (if p.selection.Some? then 1 else 0)
  {
    assert (x + [p])[..|x|] == x;
  }

  /** The document before a step is where undoing its item, merged or not, comes to. */
  lemma AddedOne<D(!new), S(!new), B>(g: Algebra<D, S>, items: seq<Item<S, B>>, d: D, step: S, sel: Option<B>)
    requires Laws(g) && g.apply(step, d).Some? && Rewind(g, items, d).Some?
    ensures var d1, after := g.apply(step, d).value, AddItem(g, items, Item(g.invert(step, d), sel));
            && Rewind(g, after, d1) == Rewind(g, items, d)
            && Snapshots(g, after, d1) == Snapshots(g, items, d) + (if sel.Some? then [(d, sel.value)] else [])
  {
    hide Laws, Rewind, Snapshots;
    var p, d1 := Item(g.invert(step, d), sel), g.apply(step, d).value;
    BackByInverse(g, step, d);
    Newest(g, items, p, d1);
    if items != [] {
      var last, older := items[|items| - 1], items[..|items| - 1];
      assert items == older + [last];
      Newest(g, older, last, d);
      if MergeItem(g, last, p).Some? {
        Newest(g, older, MergeItem(g, last, p).value, d1);
        MergedBack(g, last.step, p.step, d1);
      }
    }
  }

  lemma BackByInverse<D(!new), S(!new)>(g: Algebra<D, S>, step: S, d: D)
    requires Laws(g) && g.apply(step, d).Some?
    ensures g.apply(g.invert(step, d), g.apply(step, d).value) == Some(d)
  {
  }

  lemma MergedBack<D(!new), S(!new)>(g: Algebra<D, S>, older: S, newer: S, d: D)
    requires Laws(g) && g.merge(newer, older).Some? && g.apply(newer, d).Some?
    requires g.apply(older, g.apply(newer, d).value).Some?
    ensures g.apply(g.merge(newer, older).value, d) == g.apply(older, g.apply(newer, d).value)
  {
  }

  /** The items `kept` of the branch and those `added` to it, after the inverses of the steps went in. */
  function AddSteps<D, S, B>(g: Algebra<D, S>, kept: seq<Item<S, B>>, added: seq<Item<S, B>>,
                             docs: seq<D>, steps: seq<S>, sel: Option<B>): (seq<Item<S, B>>, seq<Item<S, B>>)
    requires |docs| == |steps|
    decreases |steps|
  {
    if steps == [] then (kept, added)
    else
      var p := Item(g.invert(steps[0], docs[0]), sel);
      if added == [] && kept != [] && MergeItem(g, kept[|kept| - 1], p).Some? then
        AddSteps(g, kept[..|kept| - 1], [MergeItem(g, kept[|kept| - 1], p).value], docs[1..], steps[1..], None)
      else
        AddSteps(g, kept, AddItem(g, added, p), docs[1..], steps[1..], None)
  }

  lemma AddItemRight<D, S, B>(g: Algebra<D, S>, kept: seq<Item<S, B>>, added: seq<Item<S, B>>, p: Item<S, B>)
    ensures added == [] && kept != [] && MergeItem(g, kept[|kept| - 1], p).Some? ==>
      AddItem(g, kept + added, p) == kept[..|kept| - 1] + [MergeItem(g, kept[|kept| - 1], p).value]
    ensures !(added == [] && kept != [] && MergeItem(g, kept[|kept| - 1], p).Some?) ==>
      AddItem(g, kept + added, p) == kept + AddItem(g, added, p)
  {
    hide MergeItem;
    if added == [] {
      assert kept + added == kept;
    } else {
      assert (kept + added)[..|kept + added| - 1] == kept + added[..|added| - 1];
    }
  }

  /** Adding a transform keeps every snapshot, and adds the one before it if it begins an event. */
  lemma {:induction false} AddStepsKeeps<D(!new), S(!new), B>(
      g: Algebra<D, S>, kept: seq<Item<S, B>>, added: seq<Item<S, B>>, d: D, steps: seq<S>, sel: Option<B>)
    requires Laws(g) && Perform(g, d, steps).Some? && Rewind(g, kept + added, d).Some?
    ensures var tr := Perform(g, d, steps).value;
            var (k, a) := AddSteps(g, kept, added, tr.docs, steps, sel);
            && Rewind(g, k + a, tr.doc).Some?
            && Snapshots(g, k + a, tr.doc) ==
               Snapshots(g, kept + added, d) + (if sel.Some? && steps != [] then [(d, sel.value)] else [])
    decreases |steps|
  {
    hide Laws, Snapshots, AddItem, MergeItem, Rewind;
    if steps != [] {
      var d1 := g.apply(steps[0], d).value;
      var p := Item(g.invert(steps[0], d), sel);
      AddedOne(g, kept + added, d, steps[0], sel);
      AddItemRight(g, kept, added, p);
      if added == [] && kept != [] && MergeItem(g, kept[|kept| - 1], p).Some? {
        AddStepsKeeps(g, kept[..|kept| - 1], [MergeItem(g, kept[|kept| - 1], p).value], d1, steps[1..], None);
      } else {
        AddStepsKeeps(g, kept, AddItem(g, added, p), d1, steps[1..], None);
      }
    }
  }

  // ----------------------------------------------------------------------
  // Trimming
  // ----------------------------------------------------------------------

  /** How far over its depth a branch may grow before its oldest events are dropped. */
  const DEPTH_OVERFLOW: int := 20

  /** The items of a branch and the number of events it believes it has. */
  datatype Stack<+S, +B> = Stack(items: seq<Item<S, B>>, count: int)

  /** Where, from `i` on, the event that has `k` others before it begins. */
  function CutPoint<S, B>(items: seq<Item<S, B>>, k: int, i: nat): Option<nat>
    requires i <= |items|
    decreases |items| - i
  {
    if i == |items| then None
    else if items[i].selection.None? then CutPoint(items, k, i + 1)
    else if k == 0 then Some(i)
    else CutPoint(items, k - 1, i + 1)
  }

  /** Drops the oldest `k` events. */
  function Trim<S, B>(items: seq<Item<S, B>>, k: int): seq<Item<S, B>> {
    var at := CutPoint(items, k, 0);
    if at.Some? && at.value <= |items| then items[at.value..] else items
  }

  lemma {:induction false} CutPointIs<S, B>(items: seq<Item<S, B>>, k: nat, i: nat)
    requires i <= |items|
    ensures var at := CutPoint(items, k, i);
            && (at.Some? <==> k < Events(items[i..]))
            && (at.Some? ==> i <= at.value < |items| && Events(items[i..at.value]) == k)
    decreases |items| - i
  {
    if i < |items| {
      var k' := if items[i].selection.None? then k else k - 1;
      assert items[i..] == [items[i]] + items[i + 1..];
      EventsSplit([items[i]], items[i + 1..]);
      OneEvent(items[i]);
      if k' >= 0 {
        CutPointIs(items, k', i + 1);
        var at := CutPoint(items, k', i + 1);
        if at.Some? {
          assert items[i..at.value] == [items[i]] + items[i + 1..at.value];
          EventsSplit([items[i]], items[i + 1..at.value]);
        }
      }
    }
  }

  lemma OneEvent<S, B>(item: Item<S, B>)
    ensures Events([item]) == if item.selection.Some? then 1 else 0
  {
    assert [item][..0] == [];
  }

  /** Trimming splits off the oldest `k` events when there are more than that, and else does nothing. */
  lemma TrimIs<S, B>(items: seq<Item<S, B>>, k: nat)
    ensures Events(Trim(items, k)) == if k < Events(items) then Events(items) - k else Events(items)
    ensures exists dropped: seq<Item<S, B>> ::
              items == dropped + Trim(items, k) && Events(dropped) == if k < Events(items) then k else 0
  {
    hide Events, CutPoint;
    CutPointIs(items, k, 0);
    assert items[0..] == items;
    var at := CutPoint(items, k, 0);
    if at.Some? {
      var dropped := items[0..at.value];
      assert items == dropped + Trim(items, k);
      EventsSplit(dropped, Trim(items, k));
    } else {
      NoEvents<S, B>();
      assert items == [] + Trim(items, k);
    }
  }

  lemma NoEvents<S, B>()
    ensures Events<S, B>([]) == 0
  {
  }

  /** Adds a transform to a branch: marked with `sel` if it begins an event. */
  function AddTransform<D, S, B>(g: Algebra<D, S>, b: Stack<S, B>, tr: Transform<D, S>, sel: Option<B>, depth: int): Stack<S, B>
    requires |tr.docs| == |tr.steps|
  {
    var (kept, added) := AddSteps(g, b.items, [], tr.docs, tr.steps, sel);
    var count := b.count + if sel.Some? && tr.steps != [] then 1 else 0;
    var overflow := count - depth;
    if overflow > DEPTH_OVERFLOW then Stack(Trim(kept, overflow) + added, count - overflow) else Stack(kept + added, count)
  }

  /** The simple form of trimming: past its limit, only the newest `depth` are kept. */
  function Limit<T>(depth: nat, s: seq<T>): seq<T> {
    if |s| > depth + DEPTH_OVERFLOW then s[|s| - depth..] else s
  }

  lemma {:induction false} AddedEvents<D, S, B>(g: Algebra<D, S>, kept: seq<Item<S, B>>, added: seq<Item<S, B>>,
                                               docs: seq<D>, steps: seq<S>)
    requires |docs| == |steps| && added != []
    ensures var (k, a) := AddSteps(g, kept, added, docs, steps, None);
            k == kept && Events(a) == Events(added)
    decreases |steps|
  {
    hide Events;
    if steps != [] {
      var p: Item<S, B> := Item(g.invert(steps[0], docs[0]), None);
      UnmarkedEvents(g, added, p);
      AddedEvents(g, kept, AddItem(g, added, p), docs[1..], steps[1..]);
    }
  }

  lemma UnmarkedEvents<D, S, B>(g: Algebra<D, S>, items: seq<Item<S, B>>, p: Item<S, B>)
    requires p.selection.None? && items != []
    ensures AddItem(g, items, p) != [] && Events(AddItem(g, items, p)) == Events(items)
  {
    var last, older := items[|items| - 1], items[..|items| - 1];
    assert (items + [p])[..|items|] == items;
    if MergeItem(g, last, p).Some? {
      assert (older + [MergeItem(g, last, p).value])[..|older|] == older;
    }
  }

  /** An event that begins goes after everything kept, as one event. */
  lemma MarkedSteps<D, S, B>(g: Algebra<D, S>, items: seq<Item<S, B>>, docs: seq<D>, steps: seq<S>, sel: B)
    requires |docs| == |steps| && steps != []
    ensures var (k, a) := AddSteps(g, items, [], docs, steps, Some(sel));
            k == items && Events(a) == 1
  {
    hide Events;
    var p := Item(g.invert(steps[0], docs[0]), Some(sel));
    AddedEvents(g, items, [p], docs[1..], steps[1..]);
    OneEvent(p);
  }

  /** A branch that leads somewhere from `d`, knows its number of events and is within its limit. */
  ghost predicate Sound<D, S, B>(g: Algebra<D, S>, b: Stack<S, B>, d: D, depth: nat) {
    Rewind(g, b.items, d).Some? && b.count == Events(b.items) <= depth + DEPTH_OVERFLOW
  }

  /** Dropping the oldest events drops the oldest snapshots. */
  lemma TrimSnapshots<D, S, B>(g: Algebra<D, S>, kept: seq<Item<S, B>>, added: seq<Item<S, B>>, d: D, k: nat)
    requires Rewind(g, kept + added, d).Some? && k < Events(kept)
    ensures var items := Trim(kept, k) + added;
            && Rewind(g, items, d).Some?
            && k <= |Snapshots(g, kept + added, d)|
            && Snapshots(g, items, d) == Snapshots(g, kept + added, d)[k..]
  {
    hide Events, Snapshots, Rewind, Trim;
    TrimIs(kept, k);
    var dropped :| kept == dropped + Trim(kept, k) && Events(dropped) == k;
    var items := Trim(kept, k) + added;
    Assoc(dropped, Trim(kept, k), added);
    SnapshotsSplit(g, dropped, items, d);
    SnapshotCount(g, dropped, Rewind(g, items, d).value);
  }

  /** In terms of snapshots, a transform adds at most one, and the oldest are dropped past the limit. */
  lemma AddTransformKeeps<D(!new), S(!new), B>(
      g: Algebra<D, S>, b: Stack<S, B>, d: D, steps: seq<S>, sel: Option<B>, depth: nat)
    requires Laws(g) && Sound(g, b, d, depth) && depth >= 2
    requires Perform(g, d, steps).Some? && steps != []
    ensures var tr := Perform(g, d, steps).value;
            var r := AddTransform(g, b, tr, sel, depth);
            && Sound(g, r, tr.doc, depth)
            && Snapshots(g, r.items, tr.doc) ==
               Limit(depth, Snapshots(g, b.items, d) + (if sel.Some? then [(d, sel.value)] else []))
  {
    hide Laws, Events, Snapshots, Rewind, Trim, Perform, AddSteps;
    var tr := Perform(g, d, steps).value;
    var (kept, added) := AddSteps(g, b.items, [], tr.docs, steps, sel);
    assert b.items + [] == b.items;
    AddStepsKeeps(g, b.items, [], d, steps, sel);
    SnapshotCount(g, b.items, d);
    SnapshotCount(g, kept + added, tr.doc);
    var count := Events(kept + added);
    if count - depth > DEPTH_OVERFLOW {
      MarkedSteps(g, b.items, tr.docs, steps, sel.value);
      EventsSplit(kept, added);
      TrimSnapshots(g, kept, added, tr.doc, count - depth);
      SnapshotCount(g, Trim(kept, count - depth) + added, tr.doc);
    }
  }

  /**
    Beginning an event leaves the count right exactly when the depth is at
    least two, or nothing needed trimming: trimming looks for the cut among the
    older items only, and a depth of one would drop all of those.
   */
  lemma CountAfterEvent<D, S, B>(g: Algebra<D, S>, b: Stack<S, B>, tr: Transform<D, S>, sel: B, depth: nat)
    requires |tr.docs| == |tr.steps| && tr.steps != [] && b.count == Events(b.items)
    ensures var r := AddTransform(g, b, tr, Some(sel), depth);
            r.count == Events(r.items) <==> depth >= 2 || b.count + 1 - depth <= DEPTH_OVERFLOW
  {
    hide Events, Trim, AddSteps;
    var (kept, added) := AddSteps(g, b.items, [], tr.docs, tr.steps, Some(sel));
    MarkedSteps(g, b.items, tr.docs, tr.steps, sel);
    EventsSplit(kept, added);
    var overflow := b.count + 1 - depth;
    if overflow > DEPTH_OVERFLOW {
      TrimIs(kept, overflow);
      EventsSplit(Trim(kept, overflow), added);
    }
  }

  // ----------------------------------------------------------------------
  // Taking an event back
  // ----------------------------------------------------------------------

  datatype Popped<D, S, +B> = Popped(remaining: Stack<S, B>, transform: Transform<D, S>, selection: B)

  /** Does a step if it can be done. */
  function MaybeStep<D, S>(g: Algebra<D, S>, tr: Transform<D, S>, step: S): Transform<D, S> {
    var d1 := g.apply(step, tr.doc);
    if d1.None? then tr else Transform(tr.docs + [tr.doc], tr.steps + [step], d1.value)
  }

  /** Does the items' steps, newest first, down to one that is marked. */
  function PopFrom<D, S, B>(g: Algebra<D, S>, items: seq<Item<S, B>>, tr: Transform<D, S>)
    : (seq<Item<S, B>>, Transform<D, S>, B)
    requires Events(items) > 0
  {
    var last, older := items[|items| - 1], items[..|items| - 1];
    var tr1 := MaybeStep(g, tr, last.step);
    if last.selection.Some? then (older, tr1, last.selection.value) else PopFrom(g, older, tr1)
  }

  function PopEvent<D, S, B>(g: Algebra<D, S>, b: Stack<S, B>, d: D): Option<Popped<D, S, B>>
    requires b.count != 0 ==> Events(b.items) > 0
  {
    if b.count == 0 then None
    else
      var (items, tr, sel) := PopFrom(g, b.items, Transform([], [], d));
      Some(Popped(Stack(items, b.count - 1), tr, sel))
  }

  lemma {:induction false} PerformOn<D, S>(g: Algebra<D, S>, d: D, steps: seq<S>, step: S)
    requires Perform(g, d, steps).Some? && g.apply(step, Perform(g, d, steps).value.doc).Some?
    ensures Perform(g, d, steps + [step]) == Some(MaybeStep(g, Perform(g, d, steps).value, step))
  {
    if steps == [] {
      PerformNothing(g, d);
      PerformNothing(g, g.apply(step, d).value);
      assert [step][1..] == [] && [] + [step] == [step] && [d] + [] == [d] == [] + [d];
    } else {
      var d1 := g.apply(steps[0], d).value;
      PerformOn(g, d1, steps[1..], step);
      var rest := Perform(g, d1, steps[1..]).value;
      Assoc([d], rest.docs, [rest.doc]);
      assert (steps + [step])[1..] == steps[1..] + [step];
    }
  }

  /** Popping an event does come to the newest snapshot, and leaves the branch with the others. */
  lemma {:induction false} PopFromIs<D, S, B>(g: Algebra<D, S>, items: seq<Item<S, B>>, d: D, tr: Transform<D, S>)
    requires Events(items) > 0 && Perform(g, d, tr.steps) == Some(tr) && Rewind(g, items, tr.doc).Some?
    ensures var (rest, tr1, sel) := PopFrom(g, items, tr);
            && Perform(g, d, tr1.steps) == Some(tr1) && tr1.steps != []
            && Rewind(g, rest, tr1.doc).Some?
            && Snapshots(g, items, tr.doc) == Snapshots(g, rest, tr1.doc) + [(tr1.doc, sel)]
            && Events(items) == Events(rest) + 1
  {
    hide Perform;
    var last, older := items[|items| - 1], items[..|items| - 1];
    PerformOn(g, d, tr.steps, last.step);
    if last.selection.None? {
      PopFromIs(g, older, d, MaybeStep(g, tr, last.step));
    }
  }

  lemma PopEventIs<D, S, B>(g: Algebra<D, S>, b: Stack<S, B>, d: D, depth: nat)
    requires Sound(g, b, d, depth)
    ensures var p := PopEvent(g, b, d);
            && (p.None? <==> Snapshots(g, b.items, d) == [])
            && (p.Some? ==>
                  var Popped(rest, tr, sel) := p.value;
                  && Perform(g, d, tr.steps) == Some(tr) && tr.steps != []
                  && Sound(g, rest, tr.doc, depth)
                  && Snapshots(g, b.items, d) == Snapshots(g, rest.items, tr.doc) + [(tr.doc, sel)])
  {
    hide Rewind, Snapshots, Events, PopFrom;
    SnapshotCount(g, b.items, d);
    if b.count != 0 {
      PerformNothing(g, d);
      PopFromIs(g, b.items, d, Transform([], [], d));
    }
  }

  lemma PerformNothing<D, S>(g: Algebra<D, S>, d: D)
    ensures Perform(g, d, []) == Some(Transform([], [], d))
  {
  }
}
