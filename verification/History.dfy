/**
  The undo history over whole runs: recorded transactions, undos and redos
  keep it equal to two plain stacks of document snapshots.
 */
module History {
  import opened Options
  import opened Ropes
  import opened Branches
  import opened BranchRopes

  datatype State<+S, +B> = State(done: Stack<S, B>, undone: Stack<S, B>, prevTime: int, prevComposition: Option<int>)

  /**
    What a transaction says of itself: when it was made, which composition it
    belongs to, whether it was appended to another, whether it touches the
    ranges changed last, and whether it closes the event before it.
   */
  datatype Note = Note(time: int, composition: Option<int>, appended: bool, adjacent: bool, closes: bool)

  /** Each action carries the bookmark of the selection at that moment. */
  datatype Action<S, B> =
    | Record(steps: seq<S>, note: Note, selection: B)
    | Undo(selection: B)
    | Redo(selection: B)

  datatype Config = Config(depth: nat, newGroupDelay: int)

  /** Compositions are numbers; -1 means none, and a transaction without one is never the same. */
  const NO_COMPOSITION: Option<int> := Some(-1)

  predicate BeginsEvent(delay: int, prevTime: int, prevComposition: Option<int>, note: Note) {
    prevTime == 0 ||
    (!note.appended && (note.composition.None? || note.composition != prevComposition)
     && (prevTime < note.time - delay || !note.adjacent))
  }

  function Close<S, B>(h: State<S, B>, closes: bool): State<S, B> {
    if closes then State(h.done, h.undone, 0, NO_COMPOSITION) else h
  }

  /** The history after a transaction that is to be recorded. */
  function ApplyTransaction<D, S, B>(g: Algebra<D, S>, o: Config, h: State<S, B>, tr: Transform<D, S>, note: Note, sel: B)
    : State<S, B>
    requires |tr.docs| == |tr.steps|
  {
    var h1 := Close(h, note.closes);
    if tr.steps == [] then h1
    else
      var mark := if BeginsEvent(o.newGroupDelay, h1.prevTime, h1.prevComposition, note) then Some(sel) else None;
      State(AddTransform(g, h1.done, tr, mark, o.depth), Stack([], 0), note.time,
            if note.composition.Some? then note.composition else h1.prevComposition)
  }

  /** The history and the transform of an undo, or of a redo; nothing when there is no event to take back. */
  function HistoryTransaction<D, S, B>(g: Algebra<D, S>, o: Config, h: State<S, B>, d: D, sel: B, redo: bool)
    : Option<(State<S, B>, Transform<D, S>, B)>
    requires CanPop(h.done) && CanPop(h.undone)
  {
    var p := PopEvent(g, if redo then h.undone else h.done, d);
    if p.None? then None
    else
      var Popped(rest, tr, restored) := p.value;
      PoppedLengths(g, if redo then h.undone else h.done, d);
      var other := AddTransform(g, if redo then h.done else h.undone, tr, Some(sel), o.depth);
      Some((State(if redo then other else rest, if redo then rest else other, 0, NO_COMPOSITION), tr, restored))
  }

  predicate CanPop<S, B>(b: Stack<S, B>) {
    b.count != 0 ==> Events(b.items) > 0
  }

  lemma PoppedLengths<D, S, B>(g: Algebra<D, S>, b: Stack<S, B>, d: D)
    requires CanPop(b) && PopEvent(g, b, d).Some?
    ensures |PopEvent(g, b, d).value.transform.docs| == |PopEvent(g, b, d).value.transform.steps|
  {
    hide Events;
    PopLengths(g, b.items, Transform([], [], d));
  }

  lemma {:induction false} PopLengths<D, S, B>(g: Algebra<D, S>, items: seq<Item<S, B>>, tr: Transform<D, S>)
    requires Events(items) > 0 && |tr.docs| == |tr.steps|
    ensures |PopFrom(g, items, tr).1.docs| == |PopFrom(g, items, tr).1.steps|
  {
    var last := items[|items| - 1];
    if last.selection.None? {
      PopLengths(g, items[..|items| - 1], MaybeStep(g, tr, last.step));
    }
  }

  // ----------------------------------------------------------------------
  // Runs
  // ----------------------------------------------------------------------

  /** A document being edited; `restored` is the selection that the last undo or redo set. */
  datatype Editor<D, S, B> = Editor(doc: D, history: State<S, B>, restored: Option<B>)

  ghost predicate Good<D, S, B>(g: Algebra<D, S>, depth: nat, e: Editor<D, S, B>) {
    && Sound(g, e.history.done, e.doc, depth)
    && Sound(g, e.history.undone, e.doc, depth)
    && (e.history.done.count == 0 ==> e.history.prevTime == 0)
  }

  function Next<D, S, B>(g: Algebra<D, S>, o: Config, e: Editor<D, S, B>, a: Action<S, B>): Editor<D, S, B>
    requires CanPop(e.history.done) && CanPop(e.history.undone)
  {
    match a
    case Record(steps, note, sel) =>
      var tr := Perform(g, e.doc, steps);
      if tr.None? then e
      else Editor(tr.value.doc, ApplyTransaction(g, o, e.history, tr.value, note, sel), None)
    case _ =>
      var r := HistoryTransaction(g, o, e.history, e.doc, a.selection, a.Redo?);
      if r.None? then e else Editor(r.value.1.doc, r.value.0, Some(r.value.2))
  }

  // ----------------------------------------------------------------------
  // The simple form
  // ----------------------------------------------------------------------

  /** The documents to go back to and those to go forward to, each with its selection. */
  datatype Timeline<D, B> = Timeline(doc: D, past: seq<(D, B)>, future: seq<(D, B)>, restored: Option<B>,
                                     prevTime: int, prevComposition: Option<int>)

  ghost function TimelineOf<D, S, B>(g: Algebra<D, S>, e: Editor<D, S, B>): Timeline<D, B>
    requires Rewind(g, e.history.done.items, e.doc).Some? && Rewind(g, e.history.undone.items, e.doc).Some?
  {
    Timeline(e.doc, Snapshots(g, e.history.done.items, e.doc), Snapshots(g, e.history.undone.items, e.doc),
             e.restored, e.history.prevTime, e.history.prevComposition)
  }

  function Last<T>(s: seq<T>): T
    requires s != []
  {
    s[|s| - 1]
  }

  /** The run of a history without steps: snapshots are pushed, popped and forgotten. */
  function NextTimeline<D, S, B>(g: Algebra<D, S>, o: Config, t: Timeline<D, B>, a: Action<S, B>): Timeline<D, B> {
    match a
    case Record(steps, note, sel) =>
      var tr := Perform(g, t.doc, steps);
      var time := if note.closes then 0 else t.prevTime;
      var composition := if note.closes then NO_COMPOSITION else t.prevComposition;
      if tr.None? then t
      else if steps == [] then Timeline(tr.value.doc, t.past, t.future, None, time, composition)
      else
        var before := if BeginsEvent(o.newGroupDelay, time, composition, note) then [(t.doc, sel)] else [];
        Timeline(tr.value.doc, Limit(o.depth, t.past + before), [], None, note.time,
                 if note.composition.Some? then note.composition else composition)
    case Undo(sel) =>
      if t.past == [] then t
      else Timeline(Last(t.past).0, t.past[..|t.past| - 1], Limit(o.depth, t.future + [(t.doc, sel)]),
                    Some(Last(t.past).1), 0, NO_COMPOSITION)
    case Redo(sel) =>
      if t.future == [] then t
      else Timeline(Last(t.future).0, Limit(o.depth, t.past + [(t.doc, sel)]), t.future[..|t.future| - 1],
                    Some(Last(t.future).1), 0, NO_COMPOSITION)
  }

  lemma GoodPops<D, S, B>(g: Algebra<D, S>, depth: nat, e: Editor<D, S, B>)
    requires Good(g, depth, e)
    ensures CanPop(e.history.done) && CanPop(e.history.undone)
    ensures Rewind(g, e.history.done.items, e.doc).Some? && Rewind(g, e.history.undone.items, e.doc).Some?
  {
    hide Rewind, Events;
  }

  lemma EmptyIsSound<D, S, B>(g: Algebra<D, S>, d: D, depth: nat)
    ensures Sound<D, S, B>(g, Stack([], 0), d, depth)
    ensures Snapshots<D, S, B>(g, [], d) == []
  {
  }

  lemma RecordKeeps<D(!new), S(!new), B>(g: Algebra<D, S>, o: Config, e: Editor<D, S, B>, steps: seq<S>, note: Note, sel: B)
    requires Laws(g) && o.depth >= 2 && Good(g, o.depth, e) && steps != [] && Perform(g, e.doc, steps).Some?
    ensures var tr := Perform(g, e.doc, steps).value;
            var h := ApplyTransaction(g, o, e.history, tr, note, sel);
            var h1 := Close(e.history, note.closes);
            && Good(g, o.depth, Editor(tr.doc, h, None))
            && h.undone.items == []
            && Rewind(g, e.history.done.items, e.doc).Some?
            && Snapshots(g, h.done.items, tr.doc) ==
               Limit(o.depth, Snapshots(g, e.history.done.items, e.doc) +
                 (if BeginsEvent(o.newGroupDelay, h1.prevTime, h1.prevComposition, note) then [(e.doc, sel)] else []))
  {
    hide Laws, Perform, AddTransform, Snapshots, Rewind, Events, BeginsEvent;
    var tr := Perform(g, e.doc, steps).value;
    var h1 := Close(e.history, note.closes);
    var begins := BeginsEvent(o.newGroupDelay, h1.prevTime, h1.prevComposition, note);
    AddTransformKeeps(g, h1.done, e.doc, steps, if begins then Some(sel) else None, o.depth);
    EmptyIsSound<D, S, B>(g, tr.doc, o.depth);
    var h := ApplyTransaction(g, o, e.history, tr, note, sel);
    SnapshotCount(g, h1.done.items, e.doc);
    SnapshotCount(g, h.done.items, tr.doc);
    BeginsAtZero(o.newGroupDelay, h1.prevTime, h1.prevComposition, note);
  }

  lemma BeginsAtZero(delay: int, prevTime: int, prevComposition: Option<int>, note: Note)
    ensures prevTime == 0 ==> BeginsEvent(delay, prevTime, prevComposition, note)
  {
  }

  lemma PopKeeps<D(!new), S(!new), B>(g: Algebra<D, S>, o: Config, e: Editor<D, S, B>, sel: B, redo: bool)
    requires Laws(g) && o.depth >= 2 && Good(g, o.depth, e)
    ensures CanPop(e.history.done) && CanPop(e.history.undone)
    ensures Rewind(g, e.history.done.items, e.doc).Some? && Rewind(g, e.history.undone.items, e.doc).Some?
    ensures var from := Snapshots(g, if redo then e.history.undone.items else e.history.done.items, e.doc);
            var onto := Snapshots(g, if redo then e.history.done.items else e.history.undone.items, e.doc);
            var r := HistoryTransaction(g, o, e.history, e.doc, sel, redo);
            && (r.None? <==> from == [])
            && (r.Some? ==>
                  var (h, tr, restored) := r.value;
                  && Good(g, o.depth, Editor(tr.doc, h, None))
                  && Last(from) == (tr.doc, restored)
                  && Snapshots(g, if redo then h.undone.items else h.done.items, tr.doc) == from[..|from| - 1]
                  && Snapshots(g, if redo then h.done.items else h.undone.items, tr.doc) == Limit(o.depth, onto + [(e.doc, sel)]))
  {
    hide Laws, Perform, AddTransform, PopEvent, Snapshots, Rewind, Events;
    GoodPops(g, o.depth, e);
    var from := if redo then e.history.undone else e.history.done;
    var onto := if redo then e.history.done else e.history.undone;
    PopEventIs(g, from, e.doc, o.depth);
    var p := PopEvent(g, from, e.doc);
    if p.Some? {
      AddTransformKeeps(g, onto, e.doc, p.value.transform.steps, Some(sel), o.depth);
    }
  }

  /** One action takes a good editor to a good editor, and does to its timeline what the simple form does. */
  lemma NextRefines<D(!new), S(!new), B>(g: Algebra<D, S>, o: Config, e: Editor<D, S, B>, a: Action<S, B>)
    requires Laws(g) && o.depth >= 2 && Good(g, o.depth, e)
    ensures CanPop(e.history.done) && CanPop(e.history.undone)
    ensures Rewind(g, e.history.done.items, e.doc).Some? && Rewind(g, e.history.undone.items, e.doc).Some?
    ensures var n := Next(g, o, e, a);
            && Good(g, o.depth, n)
            && Rewind(g, n.history.done.items, n.doc).Some? && Rewind(g, n.history.undone.items, n.doc).Some?
            && TimelineOf(g, n) == NextTimeline(g, o, TimelineOf(g, e), a)
  {
    hide Laws, Perform, AddTransform, PopEvent, Snapshots, Rewind, Events, BeginsEvent, Limit;
    GoodPops(g, o.depth, e);
    match a
    case Record(steps, note, sel) =>
      if Perform(g, e.doc, steps).Some? {
        if steps == [] {
          PerformNothing(g, e.doc);
        } else {
          RecordKeeps(g, o, e, steps, note, sel);
          EmptyIsSound<D, S, B>(g, Perform(g, e.doc, steps).value.doc, o.depth);
        }
      }
    case Undo(sel) => PopKeeps(g, o, e, sel, false);
    case Redo(sel) => PopKeeps(g, o, e, sel, true);
  }

  // ----------------------------------------------------------------------
  // Whole runs
  // ----------------------------------------------------------------------

  /** An editor that was just opened. */
  function Start<D, S, B>(d: D): Editor<D, S, B> {
    Editor(d, State(Stack([], 0), Stack([], 0), 0, NO_COMPOSITION), None)
  }

  lemma StartIsGood<D, S, B>(g: Algebra<D, S>, d: D, depth: nat)
    ensures Good<D, S, B>(g, depth, Start(d))
  {
    hide Rewind, Events;
    EmptyIsSound<D, S, B>(g, d, depth);
  }

  /** The editor after a run of actions. No run gets stuck. */
  ghost function Proceed<D(!new), S(!new), B>(g: Algebra<D, S>, o: Config, e: Editor<D, S, B>, actions: seq<Action<S, B>>)
    : (r: Editor<D, S, B>)
    requires Laws(g) && o.depth >= 2 && Good(g, o.depth, e)
    ensures Good(g, o.depth, r)
    decreases |actions|
  {
    if actions == [] then e
    else
      NextRefines(g, o, e, actions[0]);
      Proceed(g, o, Next(g, o, e, actions[0]), actions[1..])
  }

  /** The simple form after a run of actions. */
  function Continue<D, S, B>(g: Algebra<D, S>, o: Config, t: Timeline<D, B>, actions: seq<Action<S, B>>): Timeline<D, B>
    decreases |actions|
  {
    if actions == [] then t else Continue(g, o, NextTimeline(g, o, t, actions[0]), actions[1..])
  }

  /** After any run the history is the two stacks of snapshots that the simple form has after the same run. */
  lemma {:induction false} RunsRefine<D(!new), S(!new), B>(g: Algebra<D, S>, o: Config, e: Editor<D, S, B>, actions: seq<Action<S, B>>)
    requires Laws(g) && o.depth >= 2 && Good(g, o.depth, e)
    ensures var r := Proceed(g, o, e, actions);
            && Rewind(g, e.history.done.items, e.doc).Some? && Rewind(g, e.history.undone.items, e.doc).Some?
            && Rewind(g, r.history.done.items, r.doc).Some? && Rewind(g, r.history.undone.items, r.doc).Some?
            && TimelineOf(g, r) == Continue(g, o, TimelineOf(g, e), actions)
    decreases |actions|
  {
    hide Laws, Next, NextTimeline, Snapshots, Rewind, Sound, TimelineOf;
    GoodPops(g, o.depth, e);
    if actions != [] {
      NextRefines(g, o, e, actions[0]);
      RunsRefine(g, o, Next(g, o, e, actions[0]), actions[1..]);
    }
  }

  /** Both branches always know how many events they hold, and never hold more than twenty past the depth. */
  lemma CountsAreRight<D(!new), S(!new), B>(g: Algebra<D, S>, o: Config, d: D, actions: seq<Action<S, B>>)
    requires Laws(g) && o.depth >= 2
    ensures Good<D, S, B>(g, o.depth, Start(d))
    ensures var h := Proceed<D, S, B>(g, o, Start(d), actions).history;
            && h.done.count == Events(h.done.items) <= o.depth + DEPTH_OVERFLOW
            && h.undone.count == Events(h.undone.items) <= o.depth + DEPTH_OVERFLOW
  {
    hide Laws, Events, Rewind, Proceed;
    StartIsGood<D, S, B>(g, d, o.depth);
  }

  predicate Begins<D, S, B>(o: Config, t: Timeline<D, B>, a: Action<S, B>)
    requires a.Record?
  {
    BeginsEvent(o.newGroupDelay, if a.note.closes then 0 else t.prevTime,
                if a.note.closes then NO_COMPOSITION else t.prevComposition, a.note)
  }

  /** Recordings that go on with the event begun before them. */
  predicate GoOn<D, S, B>(g: Algebra<D, S>, o: Config, t: Timeline<D, B>, actions: seq<Action<S, B>>)
    decreases |actions|
  {
    actions == [] ||
    (var a := actions[0];
     && a.Record? && (a.steps != [] ==> !Begins(o, t, a))
     && GoOn(g, o, NextTimeline(g, o, t, a), actions[1..]))
  }

  lemma {:induction false} GoOnKeepsPast<D, S, B>(g: Algebra<D, S>, o: Config, t: Timeline<D, B>, actions: seq<Action<S, B>>, undo: Action<S, B>)
    requires GoOn(g, o, t, actions) && |t.past| <= o.depth + DEPTH_OVERFLOW
    ensures Continue(g, o, t, actions + [undo]) == NextTimeline(g, o, Continue(g, o, t, actions), undo)
    ensures Continue(g, o, t, actions).past == t.past
    decreases |actions|
  {
    hide BeginsEvent, Perform;
    if actions != [] {
      hide NextTimeline;
      StillInEvent(g, o, t, actions[0]);
      GoOnKeepsPast(g, o, NextTimeline(g, o, t, actions[0]), actions[1..], undo);
      assert (actions + [undo])[1..] == actions[1..] + [undo];
    } else {
      hide NextTimeline;
      assert [] + [undo] == [undo] && [undo][1..] == [];
    }
  }

  lemma StillInEvent<D, S, B>(g: Algebra<D, S>, o: Config, t: Timeline<D, B>, a: Action<S, B>)
    requires a.Record? && (a.steps != [] ==> !Begins(o, t, a)) && |t.past| <= o.depth + DEPTH_OVERFLOW
    ensures NextTimeline(g, o, t, a).past == t.past
  {
    hide BeginsEvent, Perform;
  }

  /** An undo takes back the whole event that was begun last: its document and selection come back. */
  lemma UndoRestores<D(!new), S(!new), B>(
      g: Algebra<D, S>, o: Config, e: Editor<D, S, B>, first: Action<S, B>, more: seq<Action<S, B>>, sel: B)
    requires Laws(g) && o.depth >= 2 && Good(g, o.depth, e)
    requires Rewind(g, e.history.done.items, e.doc).Some? && Rewind(g, e.history.undone.items, e.doc).Some?
    requires first.Record? && first.steps != [] && Perform(g, e.doc, first.steps).Some? && Begins(o, TimelineOf(g, e), first)
    requires GoOn(g, o, NextTimeline(g, o, TimelineOf(g, e), first), more)
    ensures var u := Proceed(g, o, e, [first] + (more + [Undo(sel)]));
            && u.doc == e.doc && u.restored == Some(first.selection)
            && Rewind(g, u.history.done.items, u.doc).Some?
            && var past := Snapshots(g, e.history.done.items, e.doc);
               Snapshots(g, u.history.done.items, u.doc) ==
               if |past| < o.depth + DEPTH_OVERFLOW then past else past[|past| - o.depth + 1..]
  {
    hide BeginsEvent, Perform, GoOn, Continue, Laws, Rewind, Next, Begins, Proceed, Snapshots;
    RunsRefine(g, o, e, [first] + (more + [Undo(sel)]));
    PastCount(g, e, o.depth);
    UndoneTimeline(g, o, TimelineOf(g, e), first, more, sel);
  }

  lemma PastCount<D, S, B>(g: Algebra<D, S>, e: Editor<D, S, B>, depth: nat)
    requires Good(g, depth, e)
    ensures Rewind(g, e.history.done.items, e.doc).Some?
    ensures |Snapshots(g, e.history.done.items, e.doc)| <= depth + DEPTH_OVERFLOW
  {
    hide Rewind, Snapshots, Events;
    SnapshotCount(g, e.history.done.items, e.doc);
  }

  lemma UndoneTimeline<D, S, B>(g: Algebra<D, S>, o: Config, t: Timeline<D, B>, first: Action<S, B>, more: seq<Action<S, B>>, sel: B)
    requires o.depth >= 2 && |t.past| <= o.depth + DEPTH_OVERFLOW
    requires first.Record? && first.steps != [] && Perform(g, t.doc, first.steps).Some? && Begins(o, t, first)
    requires GoOn(g, o, NextTimeline(g, o, t, first), more)
    ensures var u := Continue(g, o, t, [first] + (more + [Undo(sel)]));
            && u.doc == t.doc && u.restored == Some(first.selection)
            && u.past == if |t.past| < o.depth + DEPTH_OVERFLOW then t.past else t.past[|t.past| - o.depth + 1..]
  {
    hide BeginsEvent, Perform, GoOn, Continue;
    var t1 := NextTimeline(g, o, t, first);
    GoOnKeepsPast(g, o, t1, more, Undo(sel));
    ContinueFirst(g, o, t, first, more + [Undo(sel)]);
  }

  lemma ContinueFirst<D, S, B>(g: Algebra<D, S>, o: Config, t: Timeline<D, B>, a: Action<S, B>, more: seq<Action<S, B>>)
    ensures Continue(g, o, t, [a] + more) == Continue(g, o, NextTimeline(g, o, t, a), more)
  {
    hide NextTimeline;
    assert ([a] + more)[1..] == more;
  }

  // ----------------------------------------------------------------------
  // What one undo takes back
  // ----------------------------------------------------------------------

  /** The composition that the last recording leaves: its own, or the one before it if it has none. */
  function CompositionAfter(before: Option<int>, note: Note): Option<int> {
    if note.composition.Some? then note.composition else if note.closes then NO_COMPOSITION else before
  }

  lemma {:induction false} ThreeActions<D, S, B>(g: Algebra<D, S>, o: Config, t: Timeline<D, B>, a: Action<S, B>, b: Action<S, B>, c: Action<S, B>)
    ensures Continue(g, o, t, [a, b, c]) == NextTimeline(g, o, NextTimeline(g, o, NextTimeline(g, o, t, a), b), c)
  {
    hide NextTimeline;
    var t1 := NextTimeline(g, o, t, a);
    var t2 := NextTimeline(g, o, t1, b);
    assert [a, b, c] == [a] + [b, c] && [b, c] == [b] + [c] && [c] == [c] + [];
    ContinueFirst(g, o, t, a, [b, c]);
    ContinueFirst(g, o, t1, b, [c]);
    ContinueFirst(g, o, t2, c, []);
    NoMore(g, o, NextTimeline(g, o, t2, c));
  }

  lemma PastStays<T>(depth: nat, past: seq<T>, x: T)
    requires depth >= 1
    ensures Limit(depth, past + [x]) != [] && Last(Limit(depth, past + [x])) == x
  {
  }

  /**
    Two recordings, and then an undo. The second is an event of its own when
    the history was closed in between, or the first one was made at time 0;
    and when it was not appended, is of no composition or another one, and was
    made later than the delay or elsewhere. Then the undo takes back only the
    second.
   */
  lemma UndoneAlone<D(!new), S(!new), B>(
      g: Algebra<D, S>, o: Config, e: Editor<D, S, B>, steps1: seq<S>, note1: Note, sel1: B, steps2: seq<S>, note2: Note, sel2: B, sel: B)
    requires Laws(g) && o.depth >= 2 && Good(g, o.depth, e) && steps1 != [] && steps2 != [] && Perform(g, e.doc, steps1).Some?
    requires Perform(g, Perform(g, e.doc, steps1).value.doc, steps2).Some?
    requires
      || note2.closes || note1.time == 0
      || (&& !note2.appended
          && (note2.composition.None? || note2.composition != CompositionAfter(e.history.prevComposition, note1))
          && (note1.time < note2.time - o.newGroupDelay || !note2.adjacent))
    ensures var u := Proceed(g, o, e, [Record(steps1, note1, sel1), Record(steps2, note2, sel2), Undo(sel)]);
            u.doc == Perform(g, e.doc, steps1).value.doc && u.restored == Some(sel2)
  {
    hide Laws, Perform, Rewind, Snapshots, Next, Proceed, Continue;
    var a, b, c: Action<S, B> := Record(steps1, note1, sel1), Record(steps2, note2, sel2), Undo(sel);
    RunsRefine(g, o, e, [a, b, c]);
    var t := TimelineOf(g, e);
    ThreeActions(g, o, t, a, b, c);
    var t1 := NextTimeline(g, o, t, a);
    PastStays(o.depth, t1.past, (t1.doc, sel2));
  }

  /**
    When the first begins an event, the second goes on with it if the history
    was not closed and it was appended, or is of the same composition, or was
    made within the delay and next to what was changed. Then the undo takes
    back both.
   */
  lemma UndoneTogether<D(!new), S(!new), B>(
      g: Algebra<D, S>, o: Config, e: Editor<D, S, B>, steps1: seq<S>, note1: Note, sel1: B, steps2: seq<S>, note2: Note, sel2: B, sel: B)
    requires Laws(g) && o.depth >= 2 && Good(g, o.depth, e) && steps1 != [] && steps2 != [] && Perform(g, e.doc, steps1).Some?
    requires Perform(g, Perform(g, e.doc, steps1).value.doc, steps2).Some?
    requires e.history.prevTime == 0 || note1.closes
    requires !note2.closes && note1.time != 0
    requires
      || note2.appended
      || (note2.composition.Some? && note2.composition == CompositionAfter(e.history.prevComposition, note1))
      || (note2.time - o.newGroupDelay <= note1.time && note2.adjacent)
    ensures var u := Proceed(g, o, e, [Record(steps1, note1, sel1), Record(steps2, note2, sel2), Undo(sel)]);
            u.doc == e.doc && u.restored == Some(sel1)
  {
    hide Laws, Perform, Rewind, Snapshots, Next, Proceed, Continue;
    var a, b, c: Action<S, B> := Record(steps1, note1, sel1), Record(steps2, note2, sel2), Undo(sel);
    RunsRefine(g, o, e, [a, b, c]);
    var t := TimelineOf(g, e);
    ThreeActions(g, o, t, a, b, c);
    PastStays(o.depth, t.past, (t.doc, sel1));
    LimitAgain(o.depth, t.past + [(t.doc, sel1)]);
  }

  lemma LimitAgain<T>(depth: nat, s: seq<T>)
    ensures Limit(depth, Limit(depth, s)) == Limit(depth, s) && Limit(depth, Limit(depth, s) + []) == Limit(depth, s)
  {
    var l := Limit(depth, s);
    assert l + [] == l;
  }

  /** After a recording that changed something there is nothing to redo. */
  lemma NothingToRedo<D(!new), S(!new), B>(
      g: Algebra<D, S>, o: Config, e: Editor<D, S, B>, steps: seq<S>, note: Note, sel1: B, sel: B)
    requires Laws(g) && o.depth >= 2 && Good(g, o.depth, e) && steps != [] && Perform(g, e.doc, steps).Some?
    ensures var u := Proceed(g, o, e, [Record(steps, note, sel1), Redo(sel)]);
            u.doc == Perform(g, e.doc, steps).value.doc && u.restored == None
  {
    hide Laws, Perform, Rewind, Snapshots, Next, Proceed, Continue;
    var a, b: Action<S, B> := Record(steps, note, sel1), Redo(sel);
    RunsRefine(g, o, e, [a, b]);
    var t := TimelineOf(g, e);
    assert [a, b] == [a] + [b] && [b] == [b] + [];
    ContinueFirst(g, o, t, a, [b]);
    ContinueFirst(g, o, NextTimeline(g, o, t, a), b, []);
    NoMore(g, o, NextTimeline(g, o, NextTimeline(g, o, t, a), b));
  }

  /** A recording after an undo or a redo is always an event of its own. */
  lemma UndoneAfterUndo<D(!new), S(!new), B>(
      g: Algebra<D, S>, o: Config, e: Editor<D, S, B>, back: Action<S, B>, steps: seq<S>, note: Note, sel1: B, sel: B)
    requires Laws(g) && o.depth >= 2 && Good(g, o.depth, e) && steps != [] && (back.Undo? || back.Redo?)
    requires if back.Undo? then e.history.done.count != 0 else e.history.undone.count != 0
    requires Perform(g, Proceed(g, o, e, [back]).doc, steps).Some?
    ensures var u := Proceed(g, o, e, [back, Record(steps, note, sel1), Undo(sel)]);
            u.doc == Proceed(g, o, e, [back]).doc && u.restored == Some(sel1)
  {
    hide Laws, Perform, Rewind, Snapshots, Next, Proceed, Continue;
    var b, c: Action<S, B> := Record(steps, note, sel1), Undo(sel);
    RunsRefine(g, o, e, [back, b, c]);
    RunsRefine(g, o, e, [back]);
    CountsSnapshots(g, e, o.depth);
    var t := TimelineOf(g, e);
    ThreeActions(g, o, t, back, b, c);
    var t1 := NextTimeline(g, o, t, back);
    assert [back] == [back] + [];
    ContinueFirst(g, o, t, back, []);
    NoMore(g, o, t1);
    PastStays(o.depth, t1.past, (t1.doc, sel1));
  }

  /** A redo straight after an undo brings back the document the undo left, and all that was there to go back or forward to. */
  lemma RedoRestores<D(!new), S(!new), B>(g: Algebra<D, S>, o: Config, e: Editor<D, S, B>, undone: B, redone: B)
    requires Laws(g) && o.depth >= 2 && Good(g, o.depth, e) && e.history.done.count != 0
    ensures var r := Proceed(g, o, e, [Undo(undone)] + [Redo(redone)]);
            && r.doc == e.doc && r.restored == Some(undone)
            && Rewind(g, e.history.done.items, e.doc).Some? && Rewind(g, e.history.undone.items, e.doc).Some?
            && Rewind(g, r.history.done.items, r.doc).Some? && Rewind(g, r.history.undone.items, r.doc).Some?
            && var past, future := Snapshots(g, e.history.done.items, e.doc), Snapshots(g, e.history.undone.items, e.doc);
               && past != []
               && Snapshots(g, r.history.done.items, r.doc) == past[..|past| - 1] + [(Last(past).0, redone)]
               && Snapshots(g, r.history.undone.items, r.doc) ==
                  if |future| < o.depth + DEPTH_OVERFLOW then future else future[|future| - o.depth + 1..]
  {
    hide Laws, Rewind, Next, Proceed, Snapshots, Continue, NextTimeline;
    RunsRefine(g, o, e, [Undo(undone)] + [Redo(redone)]);
    CountsSnapshots(g, e, o.depth);
    var t := TimelineOf(g, e);
    var back, again: Action<S, B> := Undo(undone), Redo(redone);
    ContinueFirst(g, o, t, back, [again]);
    assert [again] + [] == [again];
    var u := NextTimeline(g, o, t, back);
    ContinueFirst(g, o, u, again, []);
    NoMore(g, o, NextTimeline(g, o, u, again));
    ThereAndBack(g, o, t, undone, redone);
  }

  lemma NoMore<D, S, B>(g: Algebra<D, S>, o: Config, t: Timeline<D, B>)
    ensures Continue(g, o, t, []) == t
  {
  }

  lemma CountsSnapshots<D, S, B>(g: Algebra<D, S>, e: Editor<D, S, B>, depth: nat)
    requires Good(g, depth, e)
    ensures Rewind(g, e.history.done.items, e.doc).Some? && Rewind(g, e.history.undone.items, e.doc).Some?
    ensures |Snapshots(g, e.history.done.items, e.doc)| == e.history.done.count <= depth + DEPTH_OVERFLOW
    ensures |Snapshots(g, e.history.undone.items, e.doc)| == e.history.undone.count <= depth + DEPTH_OVERFLOW
  {
    hide Rewind, Snapshots, Events;
    SnapshotCount(g, e.history.done.items, e.doc);
    SnapshotCount(g, e.history.undone.items, e.doc);
  }

  lemma ThereAndBack<D, S, B>(g: Algebra<D, S>, o: Config, t: Timeline<D, B>, undone: B, redone: B)
    requires o.depth >= 2 && 0 < |t.past| <= o.depth + DEPTH_OVERFLOW && |t.future| <= o.depth + DEPTH_OVERFLOW
    ensures var r := NextTimeline(g, o, NextTimeline(g, o, t, Undo(undone)), Redo(redone));
            && r.doc == t.doc && r.restored == Some(undone)
            && r.past == t.past[..|t.past| - 1] + [(Last(t.past).0, redone)]
            && r.future == if |t.future| < o.depth + DEPTH_OVERFLOW then t.future else t.future[|t.future| - o.depth + 1..]
  {
    var u := NextTimeline(g, o, t, Undo(undone));
    assert u.past == t.past[..|t.past| - 1];
    if |t.future| < o.depth + DEPTH_OVERFLOW {
      assert u.future == t.future + [(t.doc, undone)];
    } else {
      assert u.future == t.future[|t.future| - o.depth + 1..] + [(t.doc, undone)];
    }
  }

  // ----------------------------------------------------------------------
  // A depth of one
  // ----------------------------------------------------------------------

  /** Numbers for documents, and steps that add to them. */
  function Adding(): Algebra<int, int> {
    Algebra((s, d) => Some(d + s), (s, d) => -s, (a, b) => None)
  }

  /** A transaction that is an event of its own. */
  function AddOne(): Action<int, int> {
    Record([1], Note(0, None, false, false, true), 0)
  }

  /** After `n` such events from the start, with a depth of one. */
  function AfterEvents(n: nat): (e: Editor<int, int, int>)
    ensures e.history.undone.count == 0
  {
    if n == 0 then Start(0)
    else
      var e := AfterEvents(n - 1);
      if CanPop(e.history.done) && CanPop(e.history.undone) then Next(Adding(), Config(1, 500), e, AddOne()) else e
  }

  lemma {:induction false} CountsUpTo(n: nat)
    requires n <= 21
    ensures var b := AfterEvents(n).history.done; b.count == Events(b.items) == n
    decreases n
  {
    hide Events, AddTransform;
    if n == 0 {
      assert Events(Start<int, int, int>(0).history.done.items) == 0 by {
        NoEvents<int, int>();
      }
    } else {
      CountsUpTo(n - 1);
      OneMoreEvent(n - 1);
    }
  }

  lemma NoEvents<S, B>()
    ensures Events<S, B>([]) == 0
  {
  }

  /** One more event goes through, and its count is right as long as nothing needs trimming. */
  lemma OneMoreEvent(n: nat)
    requires var b := AfterEvents(n).history.done; b.count == Events(b.items) == n
    ensures var b := AfterEvents(n + 1).history.done;
            && (b.count == Events(b.items) <==> n <= 20)
            && (n <= 20 ==> b.count == n + 1)
  {
    hide Events, Perform, AddTransform;
    var e := AfterEvents(n);
    AddsOne(e.doc);
    var tr := Perform(Adding(), e.doc, [1]).value;
    CountAfterEvent(Adding(), e.history.done, tr, 0, 1);
    CountGrows(e.history.done, tr);
    assert AfterEvents(n + 1) == Next(Adding(), Config(1, 500), e, AddOne());
  }

  lemma CountGrows(b: Stack<int, int>, tr: Transform<int, int>)
    requires |tr.docs| == |tr.steps| && tr.steps != []
    ensures b.count + 1 - 1 <= DEPTH_OVERFLOW ==> AddTransform(Adding(), b, tr, Some(0), 1).count == b.count + 1
  {
    hide AddSteps;
  }

  lemma AddsOne(d: int)
    ensures Perform(Adding(), d, [1]) == Some(Transform([d], [1], d + 1))
  {
    assert [1][1..] == [];
    assert Perform(Adding(), d + 1, []) == Some(Transform([], [], d + 1));
    assert [d] + [] == [d];
  }

  /** With a depth of one, the twenty-second event leaves the count wrong. */
  lemma DepthOneMiscounts()
    ensures var b := AfterEvents(22).history.done; b.count != Events(b.items)
  {
    hide Events, AfterEvents;
    CountsUpTo(21);
    OneMoreEvent(21);
  }
}
