/**
  How the stack of open elements evolves over a list of tokens, whatever it starts with.
 */
module Stacks {
  import opened Sequences
  import opened Documents
  import opened Positions
  import opened Replace
  import opened Splice
  import opened Outcomes
  import opened ReplaceExactly

  /**
    Two stacks of one height: at every level they hold the same markup, or still what
    two other stacks held there.
   */
  ghost predicate Paired(x: seq<Markup>, y: seq<Markup>, x0: seq<Markup>, y0: seq<Markup>) {
    && |x| == |y| && |x0| == |y0|
    && forall i :: 0 <= i < |x| ==> x[i] == y[i] || (i < |x0| && x[i] == x0[i] && y[i] == y0[i])
  }

  lemma StepPaired(x: seq<Markup>, y: seq<Markup>, x0: seq<Markup>, y0: seq<Markup>, t: Token)
    requires Paired(x, y, x0, y0)
    ensures Paired(Step(x, t), Step(y, t), x0, y0)
  {
  }

  lemma {:induction false} OpenAfterPaired(x: seq<Markup>, y: seq<Markup>, x0: seq<Markup>, y0: seq<Markup>, ts: seq<Token>)
    requires Paired(x, y, x0, y0)
    ensures Paired(OpenAfter(x, ts), OpenAfter(y, ts), x0, y0)
    decreases ts
  {
    hide Paired, Step;
    if ts != [] {
      StepPaired(x, y, x0, y0, ts[0]);
      OpenAfterPaired(Step(x, ts[0]), Step(y, ts[0]), x0, y0, ts[1..]);
    }
  }

  lemma PairedSelf(x: seq<Markup>, y: seq<Markup>)
    requires |x| == |y|
    ensures Paired(x, y, x, y)
  {
  }

  /** Reading a slice from the nodes it is open in at its start leads to those it is open in at its end. */
  lemma SliceStack(shared: seq<Markup>, slice: Slice)
    requires WellFormed(slice)
    ensures slice.openStart + slice.openEnd <= Size(slice.content)
    ensures OpenAfter(shared + LeftMarks(slice.content, slice.openStart), SliceTokens(slice))
         == shared + RightMarks(slice.content, slice.openEnd)
  {
    hide Tokens, OpenAfter, LeftMarks, RightMarks, OpensLeft, OpensRight, Proper;
    SliceHasTokens(slice);
    var ts := Tokens(slice.content);
    var a, b := slice.openStart, |ts| - slice.openEnd;
    MarksOpen(slice);
    PrefixStacks(slice.content, a, shared);
    PrefixStacks(slice.content, b, shared);
    assert ts[..b] == ts[..a] + ts[a..b];
    OpenAfterAppend(shared, ts[..a], ts[a..b]);
  }

  lemma MarksOpen(slice: Slice)
    requires WellFormed(slice)
    ensures slice.openStart <= Size(slice.content) && slice.openEnd <= Size(slice.content)
    ensures Enclosing(Tokens(slice.content), slice.openStart) == LeftMarks(slice.content, slice.openStart)
    ensures Enclosing(Tokens(slice.content), Size(slice.content) - slice.openEnd)
         == RightMarks(slice.content, slice.openEnd)
  {
    hide Tokens, OpenAfter, LeftMarks, RightMarks, OpensLeft, OpensRight, Proper;
    LeftMarksOpen(slice.content, slice.openStart);
    RightMarksOpen(slice.content, slice.openEnd);
  }

  /** The markups a node list is open in are those left open by its tokens short of the end (or after the start). */
  lemma RightMarksOpen(ns: seq<Node>, b: nat)
    requires OpensRight(ns, b)
    ensures b <= Size(ns) && Enclosing(Tokens(ns), Size(ns) - b) == RightMarks(ns, b)
  {
    hide Tokens, NodeTokens, EndPos, Left, Right, Around, RightMarks, OpensRight, OpenAfter;
    var node := Elem(Markup(0, 0, []), ns);
    OpensRightSize(ns, b);
    EndPosValid(node, b);
    AroundEnd(node, b);
    LeftRightSlices(EndPos(node, b));
    AroundIsOpen(EndPos(node, b), []);
    assert [] + Around(EndPos(node, b)) == Around(EndPos(node, b));
  }

  lemma LeftMarksOpen(ns: seq<Node>, a: nat)
    requires OpensLeft(ns, a)
    ensures a <= Size(ns) && Enclosing(Tokens(ns), a) == LeftMarks(ns, a)
  {
    hide Tokens, NodeTokens, StartPos, Left, Right, Around, LeftMarks, OpensLeft, OpenAfter;
    var node := Elem(Markup(0, 0, []), ns);
    OpensLeftSize(ns, a);
    StartPosValid(node, a);
    AroundStart(node, a);
    LeftRightSlices(StartPos(node, a));
    AroundIsOpen(StartPos(node, a), []);
    assert [] + Around(StartPos(node, a)) == Around(StartPos(node, a));
  }

  /**
    The stack after a fitting slice, read from the nodes around the range's start: paired
    with the nodes the slice is open in at its end.
   */
  lemma AfterSlice(f: seq<Markup>, slice: Slice)
    requires WellFormed(slice) && slice.openStart <= |f|
    ensures slice.openStart + slice.openEnd <= Size(slice.content)
    ensures var shared := f[..|f| - slice.openStart];
            Paired(OpenAfter(f, SliceTokens(slice)), shared + RightMarks(slice.content, slice.openEnd),
                   f, shared + LeftMarks(slice.content, slice.openStart))
  {
    hide Tokens, OpenAfter, LeftMarks, RightMarks, OpensLeft, OpensRight, Proper, Paired, SliceTokens;
    var shared := f[..|f| - slice.openStart];
    SliceStack(shared, slice);
    PairedSelf(f, shared + LeftMarks(slice.content, slice.openStart));
    OpenAfterPaired(f, shared + LeftMarks(slice.content, slice.openStart), f,
                    shared + LeftMarks(slice.content, slice.openStart), SliceTokens(slice));
  }

  /** If a slice is closed on a side, its end leaves exactly the shared nodes and those it is open in. */
  lemma AfterHalfClosedSlice(f: seq<Markup>, slice: Slice)
    requires WellFormed(slice) && slice.openStart <= |f|
    requires slice.openStart == 0 || slice.openEnd == 0
    ensures slice.openStart + slice.openEnd <= Size(slice.content)
    ensures OpenAfter(f, SliceTokens(slice))
         == f[..|f| - slice.openStart] + RightMarks(slice.content, slice.openEnd)
  {
    hide Tokens, OpenAfter, LeftMarks, RightMarks, OpensLeft, OpensRight, Proper, SliceTokens;
    var shared := f[..|f| - slice.openStart];
    var r := RightMarks(slice.content, slice.openEnd);
    AfterSlice(f, slice);
    var w := OpenAfter(f, SliceTokens(slice));
    forall i | 0 <= i < |w| ensures w[i] == (shared + r)[i] {
      assert i < |shared| ==> f[i] == shared[i];
    }
    assert w == shared + r;
  }
}
