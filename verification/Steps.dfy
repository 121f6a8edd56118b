/**
  Replace steps: their inverses and their merging.
 */
module Steps {
  import opened Options
  import opened Sequences
  import opened Documents
  import opened Positions
  import opened Replace
  import opened Splice
  import opened Outcomes
  import opened Exactness
  import opened ReplaceExactly
  import opened Stacks
  import opened Slicing
  import opened Structures
  import Cutting

  /** A structure step is one that is not to replace any content. */
  datatype Step = Step(from: nat, to: nat, slice: Slice, structure: bool)

  const EMPTY_SLICE := Slice([], 0, 0)

  function SliceSize(slice: Slice): int {
    Size(slice.content) - slice.openStart - slice.openEnd
  }

  ghost predicate StepOk(step: Step) {
    step.from <= step.to && WellFormed(step.slice) && Normal(step.slice.content)
  }

  /** A document as the editor keeps it: normal, and with content its types accept. */
  ghost predicate DocOk(s: Schema, doc: Node) {
    doc.Elem? && NormalNode(doc) && ProperNode(doc) && ValidNode(s, doc)
  }

  function Apply(s: Schema, step: Step, doc: Node): Result<Node>
    requires doc.Elem? && ProperNode(doc) && StepOk(step)
  {
    if Refused(step, doc) then Failed(StructureContent) else ReplaceRange(s, doc, step.from, step.to, step.slice)
  }

  /** A structure step whose guard finds content in its range. */
  predicate Refused(step: Step, doc: Node)
    requires doc.Elem? && ProperNode(doc)
  {
    step.structure && step.from <= step.to && step.from <= Size(doc.content) && ContentBetween(doc, step.from, step.to)
  }

  /** The step that puts back what `step` replaced in `doc`. */
  function Invert(step: Step, doc: Node): Result<Step>
    requires doc.Elem? && ProperNode(doc) && step.from <= step.to
    requires 0 <= SliceSize(step.slice)
  {
    var taken :- SliceOf(doc, step.from, step.to);
    Ok(Step(step.from, step.from + SliceSize(step.slice), taken, false))
  }

  /** One step with the effect of two, when the second continues the first on a closed side of both slices. */
  function Merge(a: Step, b: Step): Option<Step>
    requires 0 <= SliceSize(a.slice) && 0 <= SliceSize(b.slice) && b.from <= b.to
  {
    if a.structure || b.structure then None
    else if a.from + SliceSize(a.slice) == b.from && a.slice.openEnd == 0 && b.slice.openStart == 0 then
      Some(Step(a.from, a.to + (b.to - b.from), JoinSlices(a.slice, b.slice), false))
    else if b.to == a.from && a.slice.openStart == 0 && b.slice.openEnd == 0 then
      Some(Step(b.from, a.to, JoinSlices(b.slice, a.slice), false))
    else None
  }

  function JoinSlices(first: Slice, second: Slice): Slice {
    if SliceSize(first) + SliceSize(second) == 0 then EMPTY_SLICE
    else Slice(Append(first.content, second.content), first.openStart, second.openEnd)
  }

  // ---------------------------------------------------------------- applying

  /** The effect of a step on tokens, and what it keeps. */
  ghost predicate Effect(s: Schema, step: Step, doc: Node, r: Node)
    requires doc.Elem? && r.Elem?
  {
    && WellFormed(step.slice)
    && step.slice.openStart + step.slice.openEnd <= Size(step.slice.content)
    && Fits(s, doc, step.from, step.to, step.slice)
    && r.markup == doc.markup && NormalNode(r) && ProperNode(r)
    && Tokens(r.content) == Spliced(Tokens(doc.content), step.from, step.to, step.slice)
  }

  lemma ApplyEffect(s: Schema, step: Step, doc: Node)
    requires doc.Elem? && ProperNode(doc) && NormalNode(doc) && StepOk(step)
    requires Apply(s, step, doc).Ok?
    ensures Apply(s, step, doc).value.Elem? && Effect(s, step, doc, Apply(s, step, doc).value) && !Refused(step, doc)
    ensures ValidNode(s, doc) && ValidSlice(s, step.slice) ==> DocOk(s, Apply(s, step, doc).value)
  {
    hide ReplaceRange, Normal, Proper, NormalNode, ProperNode, ValidNode, ValidSlice, Tokens, Fits;
    ReplaceSplices(s, doc, step.from, step.to, step.slice);
    ReplaceKeeps(s, doc, step.from, step.to, step.slice);
    NormalNodeIsProper(Apply(s, step, doc).value);
  }

  lemma ApplyReaches(s: Schema, step: Step, doc: Node, goal: Node)
    requires doc.Elem? && ProperNode(doc) && NormalNode(doc) && StepOk(step) && DocOk(s, goal)
    requires Effect(s, step, doc, goal) && !Refused(step, doc)
    ensures Apply(s, step, doc) == Ok(goal)
  {
    hide ReplaceRange, Normal, Proper, NormalNode, ProperNode, ValidNode, Tokens, Fits;
    ReplaceReaches(s, doc, step.from, step.to, step.slice, goal);
  }

  /**
    Where it does not start inside a text, a structure step is applied, as any step would be, if its range holds
    only the ends and then the starts of elements, and refused if not.
   */
  lemma StructureStep(s: Schema, step: Step, doc: Node)
    requires doc.Elem? && ProperNode(doc) && NormalNode(doc) && StepOk(step) && step.structure
    requires step.from <= Size(doc.content)
    requires Valid(Resolve(doc, step.from)) && TextBehind(Resolve(doc, step.from)) == 0
    ensures Apply(s, step, doc) == if OnlyStructure(Tokens(doc.content)[step.from..], step.to - step.from)
                                   then Apply(s, step.(structure := false), doc) else Failed(StructureContent)
  {
    hide ReplaceRange, Normal, Proper, NormalNode, ProperNode, ValidNode, Tokens, ContentBetween, OnlyStructure, Resolve, TextBehind, Valid;
    GuardIsRight(doc, step.from, step.to);
  }

  // ---------------------------------------------------------------- inverting

  /** Where the inserted slice ends in the new document. */
  function EndOf(step: Step): int {
    step.from + SliceSize(step.slice)
  }

  /** Contexts in the spliced document, from those in the original. */
  lemma SplicedContexts(s: Schema, step: Step, doc: Node, r: Node)
    requires doc.Elem? && r.Elem? && Effect(s, step, doc, r)
    ensures 0 <= SliceSize(step.slice) && step.from <= EndOf(step) <= Size(r.content) && step.to <= Size(doc.content)
    ensures Context(r, step.from) == Context(doc, step.from)
    ensures Context(r, EndOf(step)) == OpenAfter(Context(doc, step.from), SliceTokens(step.slice))
    ensures |Context(r, EndOf(step))| == |Context(doc, step.to)|
  {
    hide Tokens, OpenAfter, Normal, Proper, NormalNode, ProperNode, Joins, OpensLeft, OpensRight, Paired, LeftMarks, RightMarks;
    var ts, rs, mid := Tokens(doc.content), Tokens(r.content), SliceTokens(step.slice);
    assert rs[..step.from] == ts[..step.from];
    assert rs[..EndOf(step)] == ts[..step.from] + mid;
    OpenAfterAppend([], ts[..step.from], mid);
    AfterSlice(Context(doc, step.from), step.slice);
    PairedLengths(Context(doc, step.from), step.slice);
  }

  lemma PairedLengths(f: seq<Markup>, slice: Slice)
    requires WellFormed(slice) && slice.openStart <= |f|
    requires slice.openStart + slice.openEnd <= Size(slice.content)
    ensures |OpenAfter(f, SliceTokens(slice))| == |f| - slice.openStart + slice.openEnd
  {
    hide OpenAfter, OpensLeft, OpensRight, Proper, SliceTokens;
    AfterSlice(f, slice);
  }

  /** The two sides meeting at the end of the replaced range, new document and old, join. */
  ghost predicate EndsJoin(s: Schema, step: Step, doc: Node, r: Node)
    requires doc.Elem? && r.Elem? && 0 <= EndOf(step) <= Size(r.content) && step.to <= Size(doc.content)
  {
    && |Context(r, EndOf(step))| == |Context(doc, step.to)|
    && AllCompatible(s, Context(r, EndOf(step)), Context(doc, step.to))
  }

  lemma InverseFits(s: Schema, step: Step, doc: Node, r: Node, taken: Slice)
    requires doc.Elem? && r.Elem? && Effect(s, step, doc, r)
    requires Holds(taken, Context(doc, step.from), Context(doc, step.to), Tokens(doc.content)[step.from..step.to])
    ensures 0 <= EndOf(step) <= Size(r.content) && step.to <= Size(doc.content)
    ensures Fits(s, r, step.from, EndOf(step), taken) <==> EndsJoin(s, step, doc, r)
  {
    hide Tokens, Context, Normal, Proper, NormalNode, ProperNode, OpensLeft, OpensRight, LeftMarks, RightMarks, AllCompatible,
         SliceTokens;
    SplicedContexts(s, step, doc, r);
    var f, t := Context(doc, step.from), Context(doc, step.to);
    var k := |f| - taken.openStart;
    assert f[..k] + LeftMarks(taken.content, taken.openStart) == f;
    assert f[..k] + RightMarks(taken.content, taken.openEnd) == t;
    AllCompatibleReflexive(s, f);
  }

  lemma InverseTokens(ts: seq<Token>, from: nat, to: nat, mid: seq<Token>)
    requires from <= to <= |ts|
    ensures var rs := ts[..from] + mid + ts[to..];
            rs[..from] + ts[from..to] + rs[from + |mid|..] == ts
  {
    var rs := ts[..from] + mid + ts[to..];
    assert rs[..from] == ts[..from] && rs[from + |mid|..] == ts[to..];
  }

  lemma InverseEffect(s: Schema, step: Step, doc: Node, r: Node, taken: Slice)
    requires doc.Elem? && r.Elem? && NormalNode(doc) && ProperNode(doc) && Effect(s, step, doc, r)
    requires Holds(taken, Context(doc, step.from), Context(doc, step.to), Tokens(doc.content)[step.from..step.to])
    ensures 0 <= EndOf(step) <= Size(r.content) && step.to <= Size(doc.content)
    ensures StepOk(Step(step.from, EndOf(step), taken, false)) && NormalNode(r) && ProperNode(r)
    ensures Effect(s, Step(step.from, EndOf(step), taken, false), r, doc) <==> EndsJoin(s, step, doc, r)
  {
    hide Tokens, Context, Normal, Proper, NormalNode, ProperNode, OpensLeft, OpensRight, LeftMarks, RightMarks, Joins, EndsJoin;
    SplicedContexts(s, step, doc, r);
    InverseFits(s, step, doc, r, taken);
    InverseTokens(Tokens(doc.content), step.from, step.to, SliceTokens(step.slice));
  }

  lemma EffectFits(s: Schema, step: Step, doc: Node, r: Node)
    requires doc.Elem? && r.Elem? && Effect(s, step, doc, r)
    ensures Fits(s, doc, step.from, step.to, step.slice)
  {
    hide Fits, Tokens, WellFormed, NormalNode, ProperNode;
  }

  /**
    Inverting: the inverse of an applied step, applied to its result, gives back the
    document exactly when the nodes meeting at the end of the range join, and otherwise fails.
   */
  lemma InvertUndoes(s: Schema, step: Step, doc: Node)
    requires DocOk(s, doc) && StepOk(step)
    requires Apply(s, step, doc).Ok?
    ensures 0 <= SliceSize(step.slice) && Invert(step, doc).Ok? && StepOk(Invert(step, doc).value)
    ensures var r := Apply(s, step, doc).value;
            && r.Elem? && ProperNode(r) && 0 <= EndOf(step) <= Size(r.content) && step.to <= Size(doc.content)
            && (Apply(s, Invert(step, doc).value, r) == Ok(doc) <==> EndsJoin(s, step, doc, r))
            && (Apply(s, Invert(step, doc).value, r).Ok? ==> Apply(s, Invert(step, doc).value, r) == Ok(doc))
  {
    hide Tokens, Context, Normal, Proper, NormalNode, ProperNode, OpensLeft, OpensRight, ValidNode, ValidSlice, SliceOf, Apply, Effect,
         EndsJoin, Holds, Fits;
    var r := Apply(s, step, doc).value;
    ApplyEffect(s, step, doc);
    SplicedContexts(s, step, doc, r);
    SliceHolds(doc, step.from, step.to);
    var inverse := Invert(step, doc).value;
    InverseEffect(s, step, doc, r, inverse.slice);
    if Apply(s, inverse, r).Ok? {
      ApplyEffect(s, inverse, r);
      EffectFits(s, inverse, r, Apply(s, inverse, r).value);
      InverseFits(s, step, doc, r, inverse.slice);
    }
    if EndsJoin(s, step, doc, r) {
      ApplyReaches(s, inverse, r, doc);
    }
  }

  ghost predicate Symmetric(s: Schema) {
    forall a, b :: s.mixes(a, b) ==> s.mixes(b, a)
  }

  /** A slice closed on one side can always be taken out again. */
  lemma HalfClosedInverts(s: Schema, step: Step, doc: Node)
    requires DocOk(s, doc) && StepOk(step) && Symmetric(s)
    requires Apply(s, step, doc).Ok?
    requires step.slice.openStart == 0 || step.slice.openEnd == 0
    ensures 0 <= SliceSize(step.slice) && Invert(step, doc).Ok? && StepOk(Invert(step, doc).value)
    ensures Apply(s, step, doc).value.Elem? && ProperNode(Apply(s, step, doc).value)
    ensures Apply(s, Invert(step, doc).value, Apply(s, step, doc).value) == Ok(doc)
  {
    hide Tokens, Context, Normal, Proper, NormalNode, ProperNode, OpensLeft, OpensRight, ValidNode, Invert, Apply, OpenAfter,
         SliceTokens, LeftMarks, RightMarks;
    var r := Apply(s, step, doc).value;
    ApplyEffect(s, step, doc);
    SplicedContexts(s, step, doc, r);
    AfterHalfClosedSlice(Context(doc, step.from), step.slice);
    SwapSides(s, Context(doc, step.to), Context(r, EndOf(step)));
    InvertUndoes(s, step, doc);
  }

  lemma SwapSides(s: Schema, a: seq<Markup>, b: seq<Markup>)
    requires Symmetric(s) && |a| == |b|
    ensures AllCompatible(s, a, b) ==> AllCompatible(s, b, a)
  {
    if AllCompatible(s, a, b) {
      forall i | 0 <= i < |a| ensures Compatible(s, b[i].typ, a[i].typ) {
        assert Compatible(s, a[i].typ, b[i].typ);
      }
    }
  }

  // ---------------------------------------------------------------- merging

  lemma {:induction false} AppendLeft(x: seq<Node>, y: seq<Node>, depth: nat)
    requires OpensLeft(x, depth)
    ensures OpensLeft(Append(x, y), depth) && LeftMarks(Append(x, y), depth) == LeftMarks(x, depth)
  {
    if depth > 0 && y != [] {
      assert Append(x, y)[0] == x[0];
    }
  }

  lemma {:induction false} AppendRight(x: seq<Node>, y: seq<Node>, depth: nat)
    requires OpensRight(y, depth)
    ensures OpensRight(Append(x, y), depth) && RightMarks(Append(x, y), depth) == RightMarks(y, depth)
  {
    if depth > 0 && x != [] {
      var r := Append(x, y);
      assert r[|r| - 1] == y[|y| - 1];
    }
  }

  /** Two slices, the first closed at its end and the second at its start, put side by side. */
  lemma JoinedSlice(x: Slice, y: Slice)
    requires WellFormed(x) && Normal(x.content) && WellFormed(y) && Normal(y.content)
    requires x.openEnd == 0 && y.openStart == 0
    ensures x.openStart + x.openEnd <= Size(x.content) && y.openStart + y.openEnd <= Size(y.content)
    ensures JoinSlices(x, y) == Slice(Append(x.content, y.content), x.openStart, y.openEnd)
    ensures var j := JoinSlices(x, y);
            && WellFormed(j) && Normal(j.content) && j.openStart + j.openEnd <= Size(j.content)
            && SliceTokens(j) == SliceTokens(x) + SliceTokens(y)
            && LeftMarks(j.content, j.openStart) == LeftMarks(x.content, x.openStart)
            && RightMarks(j.content, j.openEnd) == RightMarks(y.content, y.openEnd)
  {
    hide Tokens, NodeTokens, Normal, Proper, Append, LeftMarks, RightMarks, OpensLeft, OpensRight, Size, NodeSize;
    JoinedIs(x, y);
    AppendTokens(x.content, y.content);
    AppendLeft(x.content, y.content, x.openStart);
    AppendRight(x.content, y.content, y.openEnd);
    Cutting.AppendNormal(x.content, y.content);
    NormalIsProper(Append(x.content, y.content));
    TrimmedJoin(Tokens(x.content), Tokens(y.content), x.openStart, y.openEnd);
  }

  lemma JoinedIs(x: Slice, y: Slice)
    requires WellFormed(x) && WellFormed(y) && x.openEnd == 0 && y.openStart == 0
    ensures x.openStart <= Size(x.content) && y.openEnd <= Size(y.content)
    ensures JoinSlices(x, y) == Slice(Append(x.content, y.content), x.openStart, y.openEnd)
  {
    hide Tokens, NodeTokens, Proper, Append, OpensLeft, OpensRight, Size, NodeSize;
    OpensLeftSize(x.content, x.openStart);
    OpensRightSize(y.content, y.openEnd);
    if SliceSize(x) + SliceSize(y) == 0 {
      EmptyContent(x);
      EmptyContent(y);
      AppendEmpty();
    }
  }

  lemma EmptyContent(x: Slice)
    requires WellFormed(x) && Size(x.content) == 0
    ensures x.content == []
  {
    EmptySlice(x);
  }

  lemma AppendEmpty()
    ensures Append([], []) == []
  {
  }

  lemma TrimmedJoin(x: seq<Token>, y: seq<Token>, a: nat, b: nat)
    requires a <= |x| && b <= |y|
    ensures Trimmed(x + y, a, b) == Trimmed(x, a, 0) + Trimmed(y, 0, b)
  {
  }

  /** Two steps merge exactly if neither is a structure step and the second goes on, or ends, where both slices are closed. */
  lemma MergesExactly(a: Step, b: Step)
    requires StepOk(a) && StepOk(b)
    ensures 0 <= SliceSize(a.slice) && 0 <= SliceSize(b.slice)
    ensures Merge(a, b).Some? <==>
      && !a.structure && !b.structure
      && (|| (b.from == a.from + SliceSize(a.slice) && a.slice.openEnd == 0 == b.slice.openStart)
          || (b.to == a.from && b.slice.openEnd == 0 == a.slice.openStart))
  {
    hide Normal, Proper, OpensLeft, OpensRight;
    SliceHasTokens(a.slice);
    SliceHasTokens(b.slice);
  }

  /** Two steps applied in turn, to and with a valid document. */
  ghost predicate InTurn(s: Schema, a: Step, b: Step, doc: Node, d1: Node, d2: Node) {
    && DocOk(s, doc) && StepOk(a) && StepOk(b)
    && Apply(s, a, doc) == Ok(d1) && d1.Elem? && ProperNode(d1)
    && Apply(s, b, d1) == Ok(d2) && DocOk(s, d2)
  }

  lemma EffectKeeps(s: Schema, step: Step, doc: Node, r: Node)
    requires doc.Elem? && r.Elem? && Effect(s, step, doc, r)
    ensures NormalNode(r) && ProperNode(r)
  {
  }

  lemma BothEffects(s: Schema, a: Step, b: Step, doc: Node, d1: Node, d2: Node)
    requires InTurn(s, a, b, doc, d1, d2)
    ensures d1.Elem? && d2.Elem? && DocOk(s, d2) && Effect(s, a, doc, d1) && Effect(s, b, d1, d2)
    ensures 0 <= SliceSize(a.slice) && 0 <= SliceSize(b.slice)
  {
    hide Apply, Effect, NormalNode, ProperNode, ValidNode, ValidSlice, OpensLeft, OpensRight, Proper, Normal;
    ApplyEffect(s, a, doc);
    EffectKeeps(s, a, doc, d1);
    ApplyEffect(s, b, d1);
    SliceHasTokens(a.slice);
    SliceHasTokens(b.slice);
  }

  lemma ForwardTokens(ts: seq<Token>, a: Step, b: Step, sa: seq<Token>, sb: seq<Token>)
    requires a.from <= a.to <= |ts| && b.from == a.from + |sa| && b.from <= b.to
    requires b.to <= a.from + |sa| + (|ts| - a.to)
    ensures a.to + (b.to - b.from) <= |ts|
    ensures var ts1 := ts[..a.from] + sa + ts[a.to..];
            ts1[..b.from] + sb + ts1[b.to..] == ts[..a.from] + (sa + sb) + ts[a.to + (b.to - b.from)..]
  {
    var ts1 := ts[..a.from] + sa + ts[a.to..];
    assert ts1[..b.from] == ts[..a.from] + sa;
    assert ts1[b.to..] == ts[a.to + (b.to - b.from)..];
  }

  lemma CompatiblePaired(s: Schema, x: seq<Markup>, y: seq<Markup>, x0: seq<Markup>, y0: seq<Markup>, z: seq<Markup>)
    requires Paired(x, y, x0, y0) && |y| == |z| && |y0| <= |z| && AllCompatible(s, y, z)
    requires AllCompatible(s, x0, z[..|x0|])
    ensures AllCompatible(s, x, z)
  {
    forall i | 0 <= i < |x| ensures Compatible(s, x[i].typ, z[i].typ) {
      assert Compatible(s, y[i].typ, z[i].typ);
      if x[i] != y[i] {
        assert x[i] == x0[i] && z[i] == z[..|x0|][i];
      }
    }
  }

  /** The contexts of the merged step in the original document, when the second step continues at the first's end. */
  lemma ForwardFits(s: Schema, a: Step, b: Step, doc: Node, d1: Node, d2: Node, m: Step)
    requires doc.Elem? && d1.Elem? && d2.Elem? && StepOk(a) && StepOk(b) && Effect(s, a, doc, d1) && Effect(s, b, d1, d2)
    requires a.from + SliceSize(a.slice) == b.from && a.slice.openEnd == 0 && b.slice.openStart == 0
    requires m == Step(a.from, a.to + (b.to - b.from), JoinSlices(a.slice, b.slice), false)
    requires WellFormed(m.slice)
    ensures Fits(s, doc, m.from, m.to, m.slice)
  {
    hide Tokens, Normal, Proper, NormalNode, ProperNode, OpensLeft, OpensRight, LeftMarks, RightMarks, AllCompatible, SliceTokens,
         JoinSlices, OpenAfter, Paired, Refused, Size, NodeSize, Resolve;
    JoinedSlice(a.slice, b.slice);
    SplicedContexts(s, a, doc, d1);
    var f, t, t2 := Context(doc, a.from), Context(doc, a.to), Context(d1, b.to);
    var shared := f[..|f| - a.slice.openStart];
    AfterHalfClosedSlice(f, a.slice);
    NoMarks(a.slice.content, shared);
    SliceLength(a.slice);
    ForwardContexts(Tokens(doc.content), Tokens(d1.content), a.from, a.to, SliceTokens(a.slice), b.from, b.to);
    NoMarksLeft(b.slice.content, shared);
    assert shared[..|shared|] == shared;
    var gap := Tokens(doc.content)[a.to..m.to];
    PairedSelf(t, shared);
    OpenAfterPaired(t, shared, t, shared, gap);
    PairedHeights(OpenAfter(t, gap), OpenAfter(shared, gap), t, shared);
    var z := shared + RightMarks(b.slice.content, b.slice.openEnd);
    assert z[..|t|] == shared;
    CompatiblePaired(s, OpenAfter(t, gap), OpenAfter(shared, gap), t, shared, z);
  }

  lemma SliceLength(slice: Slice)
    requires slice.openStart + slice.openEnd <= Size(slice.content)
    ensures |SliceTokens(slice)| == SliceSize(slice)
  {
  }

  lemma PairedHeights(x: seq<Markup>, y: seq<Markup>, x0: seq<Markup>, y0: seq<Markup>)
    requires Paired(x, y, x0, y0)
    ensures |x| == |y| && |x0| == |y0|
  {
  }

  lemma NoMarks(ns: seq<Node>, shared: seq<Markup>)
    ensures shared + RightMarks(ns, 0) == shared
  {
  }

  lemma NoMarksLeft(ns: seq<Node>, shared: seq<Markup>)
    ensures shared + LeftMarks(ns, 0) == shared
  {
  }

  /** Reading on from the end of the first step's range, in the old and in the new document. */
  lemma ForwardContexts(ts: seq<Token>, rs: seq<Token>, from: nat, to: nat, mid: seq<Token>, i: nat, j: nat)
    requires from <= to <= |ts| && i == from + |mid| && i <= j <= |rs|
    requires rs == ts[..from] + mid + ts[to..]
    ensures var k := to + (j - i);
            && k <= |ts|
            && Enclosing(ts, k) == OpenAfter(Enclosing(ts, to), ts[to..k])
            && Enclosing(rs, j) == OpenAfter(Enclosing(rs, i), ts[to..k])
  {
    hide OpenAfter;
    ReadingOn(ts, from, to, mid, i, j);
    var k := to + (j - i);
    OpenAfterAppend([], ts[..to], ts[to..k]);
    OpenAfterAppend([], rs[..i], ts[to..k]);
  }

  lemma ReadingOn(ts: seq<Token>, from: nat, to: nat, mid: seq<Token>, i: nat, j: nat)
    requires from <= to <= |ts| && i == from + |mid| && i <= j <= from + |mid| + (|ts| - to)
    ensures to + (j - i) <= |ts|
    ensures ts[..to + (j - i)] == ts[..to] + ts[to..to + (j - i)]
    ensures var rs := ts[..from] + mid + ts[to..];
            rs[..j] == rs[..i] + ts[to..to + (j - i)]
  {
  }

  /** Merging forwards: the merged step does what the two steps did in turn. */
  lemma MergeForward(s: Schema, a: Step, b: Step, doc: Node, d1: Node, d2: Node)
    requires InTurn(s, a, b, doc, d1, d2)
    requires !a.structure && !b.structure
    requires a.from + SliceSize(a.slice) == b.from && a.slice.openEnd == 0 && b.slice.openStart == 0
    ensures 0 <= SliceSize(a.slice) && 0 <= SliceSize(b.slice) && Merge(a, b).Some? && StepOk(Merge(a, b).value)
    ensures Apply(s, Merge(a, b).value, doc) == Ok(d2)
  {
    hide Tokens, Normal, Proper, NormalNode, ProperNode, OpensLeft, OpensRight, Apply, ValidNode, ValidSlice, Effect, JoinSlices, Size, NodeSize,
         SliceTokens, LeftMarks, RightMarks;
    BothEffects(s, a, b, doc, d1, d2);
    JoinedSlice(a.slice, b.slice);
    var m := Merge(a, b).value;
    ForwardEffect(s, a, b, doc, d1, d2, m);
    ApplyReaches(s, m, doc, d2);
  }

  lemma ForwardEffect(s: Schema, a: Step, b: Step, doc: Node, d1: Node, d2: Node, m: Step)
    requires doc.Elem? && d1.Elem? && d2.Elem? && StepOk(a) && StepOk(b) && Effect(s, a, doc, d1) && Effect(s, b, d1, d2)
    requires a.from + SliceSize(a.slice) == b.from && a.slice.openEnd == 0 && b.slice.openStart == 0
    requires m == Step(a.from, a.to + (b.to - b.from), JoinSlices(a.slice, b.slice), false)
    ensures Effect(s, m, doc, d2)
  {
    hide Tokens, Normal, Proper, NormalNode, ProperNode, OpensLeft, OpensRight, Joins, JoinSlices, Context, SliceTokens;
    JoinedSlice(a.slice, b.slice);
    SliceLength(a.slice);
    ForwardFits(s, a, b, doc, d1, d2, m);
    RangesOf(s, a, doc, d1);
    RangesOf(s, b, d1, d2);
    ForwardTokens(Tokens(doc.content), a, b, SliceTokens(a.slice), SliceTokens(b.slice));
  }

  lemma RangesOf(s: Schema, step: Step, doc: Node, r: Node)
    requires doc.Elem? && r.Elem? && Effect(s, step, doc, r)
    ensures step.from <= step.to <= Size(doc.content)
  {
  }

  /** Context at the end of two adjacent insertions, the second step's first. */
  lemma BackwardContexts(s: Schema, a: Step, b: Step, doc: Node, d1: Node, d2: Node)
    requires doc.Elem? && d1.Elem? && d2.Elem? && StepOk(a) && StepOk(b) && Effect(s, a, doc, d1) && Effect(s, b, d1, d2)
    requires b.to == a.from && a.slice.openStart == 0 && b.slice.openEnd == 0
    ensures 0 <= SliceSize(a.slice) && 0 <= SliceSize(b.slice)
    ensures b.from <= a.from <= a.to <= Size(doc.content)
    ensures Context(doc, b.from) == Context(d1, b.from) && Context(doc, a.from) == Context(d1, b.to)
    ensures var end := b.from + SliceSize(b.slice) + SliceSize(a.slice);
            var f := Context(doc, b.from);
            && b.slice.openStart <= |f| && end <= Size(d2.content)
            && Context(d2, end) == f[..|f| - b.slice.openStart] + RightMarks(a.slice.content, a.slice.openEnd)
  {
    hide Tokens, Normal, Proper, NormalNode, ProperNode, OpensLeft, OpensRight, LeftMarks, RightMarks, SliceTokens, OpenAfter, Joins, Size,
         NodeSize;
    SliceLength(a.slice);
    SliceLength(b.slice);
    BackwardPrefixes(Tokens(doc.content), Tokens(d1.content), Tokens(d2.content), a, b, SliceTokens(a.slice), SliceTokens(b.slice));
    TwoSlices(Tokens(doc.content)[..b.from], b.slice, a.slice);
  }

  lemma BackwardPrefixes(ts: seq<Token>, ts1: seq<Token>, ts2: seq<Token>, a: Step, b: Step, sa: seq<Token>, sb: seq<Token>)
    requires b.from <= b.to == a.from <= a.to <= |ts|
    requires ts1 == ts[..a.from] + sa + ts[a.to..] && ts2 == ts1[..b.from] + sb + ts1[b.to..]
    ensures ts1[..b.from] == ts[..b.from] && ts1[..b.to] == ts[..a.from]
    ensures b.from + |sb| + |sa| <= |ts2|
    ensures ts2[..b.from + |sb| + |sa|] == ts[..b.from] + sb + sa
  {
    BackwardTokens(ts, a, b, sa, sb);
    assert ts1[..b.from] == ts[..b.from];
    assert ts1[..b.to] == ts[..a.from];
  }

  /** Reading two slices that meet closed: what the first is open in at its start gives way to what the second ends in. */
  lemma TwoSlices(before: seq<Token>, x: Slice, y: Slice)
    requires WellFormed(x) && WellFormed(y) && x.openEnd == 0 && y.openStart == 0
    requires x.openStart <= |OpenAfter([], before)|
    ensures x.openStart + x.openEnd <= Size(x.content) && y.openStart + y.openEnd <= Size(y.content)
    ensures var f := OpenAfter([], before);
            OpenAfter([], before + SliceTokens(x) + SliceTokens(y))
            == f[..|f| - x.openStart] + RightMarks(y.content, y.openEnd)
  {
    hide Proper, OpensLeft, OpensRight, LeftMarks, RightMarks, SliceTokens, OpenAfter;
    SliceHasTokens(x);
    SliceHasTokens(y);
    var f := OpenAfter([], before);
    var shared := f[..|f| - x.openStart];
    OpenAfterAppend([], before + SliceTokens(x), SliceTokens(y));
    OpenAfterAppend([], before, SliceTokens(x));
    AfterHalfClosedSlice(f, x);
    NoMarks(x.content, shared);
    AfterHalfClosedSlice(shared, y);
    assert shared[..|shared|] == shared;
  }

  lemma BackwardTokens(ts: seq<Token>, a: Step, b: Step, sa: seq<Token>, sb: seq<Token>)
    requires b.from <= b.to == a.from <= a.to <= |ts|
    ensures var ts1 := ts[..a.from] + sa + ts[a.to..];
            var rs := ts1[..b.from] + sb + ts1[b.to..];
            && rs == ts[..b.from] + (sb + sa) + ts[a.to..]
            && rs[..b.from + |sb| + |sa|] == ts[..b.from] + sb + sa
  {
    var ts1 := ts[..a.from] + sa + ts[a.to..];
    assert ts1[..b.from] == ts[..b.from];
    assert ts1[b.to..] == sa + ts[a.to..];
  }

  /** The nodes around the end of the merged range can continue those around the end of what was inserted. */
  ghost predicate MergedEndsJoin(s: Schema, a: Step, b: Step, doc: Node, d2: Node)
    requires doc.Elem? && d2.Elem? && a.to <= Size(doc.content)
    requires 0 <= b.from + SliceSize(b.slice) + SliceSize(a.slice) <= Size(d2.content)
  {
    var end := Context(d2, b.from + SliceSize(b.slice) + SliceSize(a.slice));
    |Context(doc, a.to)| == |end| && AllCompatible(s, Context(doc, a.to), end)
  }

  lemma BackwardEffect(s: Schema, a: Step, b: Step, doc: Node, d1: Node, d2: Node, m: Step)
    requires doc.Elem? && d1.Elem? && d2.Elem? && StepOk(a) && StepOk(b) && Effect(s, a, doc, d1) && Effect(s, b, d1, d2)
    requires b.to == a.from && a.slice.openStart == 0 && b.slice.openEnd == 0
    requires m == Step(b.from, a.to, JoinSlices(b.slice, a.slice), false)
    ensures a.to <= Size(doc.content) && 0 <= b.from + SliceSize(b.slice) + SliceSize(a.slice) <= Size(d2.content)
    ensures Effect(s, m, doc, d2) <==> MergedEndsJoin(s, a, b, doc, d2)
  {
    hide Tokens, Normal, Proper, NormalNode, ProperNode, OpensLeft, OpensRight, LeftMarks, RightMarks, AllCompatible, SliceTokens,
         JoinSlices, OpenAfter, Context, Refused, Size, NodeSize, Enclosing, Resolve;
    JoinedSlice(b.slice, a.slice);
    BackwardContexts(s, a, b, doc, d1, d2);
    BackwardTokens(Tokens(doc.content), a, b, SliceTokens(a.slice), SliceTokens(b.slice));
  }

  /**
    Merging backwards, where the second step ends where the first began: the merged step
    does what the two did exactly when the two outer sides join without the nodes that
    were between them.
   */
  lemma MergeBackward(s: Schema, a: Step, b: Step, doc: Node, d1: Node, d2: Node)
    requires InTurn(s, a, b, doc, d1, d2)
    requires !a.structure && !b.structure
    requires b.to == a.from && a.slice.openStart == 0 && b.slice.openEnd == 0
    requires !(a.from + SliceSize(a.slice) == b.from && a.slice.openEnd == 0 && b.slice.openStart == 0)
    ensures 0 <= SliceSize(a.slice) && 0 <= SliceSize(b.slice) && Merge(a, b).Some? && StepOk(Merge(a, b).value)
    ensures doc.Elem? && d2.Elem? && a.to <= Size(doc.content)
    ensures b.from + SliceSize(b.slice) + SliceSize(a.slice) <= Size(d2.content)
    ensures Apply(s, Merge(a, b).value, doc) == Ok(d2) <==> MergedEndsJoin(s, a, b, doc, d2)
  {
    hide Tokens, Normal, Proper, NormalNode, ProperNode, OpensLeft, OpensRight, Apply, ValidNode, ValidSlice, Effect, JoinSlices,
         MergedEndsJoin;
    BothEffects(s, a, b, doc, d1, d2);
    JoinedSlice(b.slice, a.slice);
    var m := Merge(a, b).value;
    BackwardEffect(s, a, b, doc, d1, d2, m);
    RangesOf(s, a, doc, d1);
    if Apply(s, m, doc) == Ok(d2) {
      ApplyEffect(s, m, doc);
    } else if MergedEndsJoin(s, a, b, doc, d2) {
      ApplyReaches(s, m, doc, d2);
    }
  }
}
