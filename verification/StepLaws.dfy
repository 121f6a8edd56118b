/**
  Where mixing of node types is an equivalence, steps on valid documents obey
  the laws that the undo history relies on.
 */
module StepLaws {
  import opened Options
  import opened Sequences
  import opened Documents
  import opened Positions
  import opened Replace
  import opened Splice
  import opened Outcomes
  import opened Exactness
  import opened ReplaceExactly
  import opened Stacks
  import opened Steps
  import Branches

  /** Types that share content do so with each other and with the same types. */
  ghost predicate MixesEvenly(s: Schema) {
    && Symmetric(s)
    && forall a: nat, b: nat, c: nat :: Compatible(s, a, b) && Compatible(s, b, c) ==> Compatible(s, a, c)
  }

  lemma Through(s: Schema, a: nat, b: nat, c: nat)
    requires MixesEvenly(s) && Compatible(s, a, b) && Compatible(s, b, c)
    ensures Compatible(s, a, c) && Compatible(s, b, a)
  {
  }

  /** Stacks that agree with the slice's end, or still with the range's start, can go on as the range's end does. */
  lemma PairedJoins(s: Schema, w: seq<Markup>, r: seq<Markup>, f: seq<Markup>, l: seq<Markup>, t: seq<Markup>)
    requires MixesEvenly(s) && Paired(w, r, f, l) && |t| == |r|
    requires AllCompatible(s, l, f) && AllCompatible(s, t, r)
    ensures AllCompatible(s, w, t)
  {
    hide MixesEvenly, Compatible;
    forall i | 0 <= i < |w| ensures Compatible(s, w[i].typ, t[i].typ) {
      assert Compatible(s, t[i].typ, r[i].typ);
      Reflexive(s, t[i].typ);
      Through(s, t[i].typ, r[i].typ, r[i].typ) by {
        Reflexive(s, r[i].typ);
      }
      if w[i] != r[i] {
        assert Compatible(s, l[i].typ, f[i].typ);
        Reflexive(s, f[i].typ);
        Through(s, l[i].typ, f[i].typ, f[i].typ);
        Through(s, f[i].typ, l[i].typ, t[i].typ);
      }
    }
  }

  lemma Reflexive(s: Schema, a: nat)
    ensures Compatible(s, a, a)
  {
  }

  /** Every applied step can be taken back. */
  lemma EndsAlwaysJoin(s: Schema, step: Step, doc: Node, r: Node)
    requires MixesEvenly(s) && doc.Elem? && r.Elem? && Effect(s, step, doc, r)
    ensures 0 <= EndOf(step) <= Size(r.content) && step.to <= Size(doc.content)
    ensures EndsJoin(s, step, doc, r)
  {
    hide Tokens, OpenAfter, Normal, Proper, NormalNode, ProperNode, OpensLeft, OpensRight, Paired, LeftMarks, RightMarks, Context,
         SliceTokens, AllCompatible, MixesEvenly;
    SplicedContexts(s, step, doc, r);
    var f, t := Context(doc, step.from), Context(doc, step.to);
    var shared := f[..|f| - step.slice.openStart];
    AfterSlice(f, step.slice);
    PairedHeights(Context(r, EndOf(step)), shared + RightMarks(step.slice.content, step.slice.openEnd),
                  f, shared + LeftMarks(step.slice.content, step.slice.openStart));
    PairedJoins(s, Context(r, EndOf(step)), shared + RightMarks(step.slice.content, step.slice.openEnd),
                f, shared + LeftMarks(step.slice.content, step.slice.openStart), t);
  }

  lemma ChainJoins(s: Schema, t: seq<Markup>, c: seq<Markup>, b: seq<Markup>, r: seq<Markup>)
    requires MixesEvenly(s) && |t| == |c| + |r| && |b| == |c|
    requires AllCompatible(s, t, c + r) && AllCompatible(s, c, b)
    ensures AllCompatible(s, t, b + r)
  {
    hide MixesEvenly, Compatible;
    forall i | 0 <= i < |t| ensures Compatible(s, t[i].typ, (b + r)[i].typ) {
      assert Compatible(s, t[i].typ, (c + r)[i].typ);
      if i < |c| {
        assert Compatible(s, c[i].typ, b[i].typ);
        Through(s, t[i].typ, c[i].typ, b[i].typ);
      }
    }
  }

  /** Backward merges always join. */
  lemma MergedAlwaysJoin(s: Schema, a: Step, b: Step, doc: Node, d1: Node, d2: Node)
    requires MixesEvenly(s) && doc.Elem? && d1.Elem? && d2.Elem? && StepOk(a) && StepOk(b)
    requires Effect(s, a, doc, d1) && Effect(s, b, d1, d2)
    requires b.to == a.from && a.slice.openStart == 0 && b.slice.openEnd == 0
    ensures a.to <= Size(doc.content) && 0 <= b.from + SliceSize(b.slice) + SliceSize(a.slice) <= Size(d2.content)
    ensures MergedEndsJoin(s, a, b, doc, d2)
  {
    hide Tokens, OpenAfter, Normal, Proper, NormalNode, ProperNode, OpensLeft, OpensRight, LeftMarks, RightMarks, Context,
         SliceTokens, AllCompatible, MixesEvenly, Size, NodeSize, NodeTokens;
    BackwardContexts(s, a, b, doc, d1, d2);
    var c, t := Context(doc, a.from), Context(doc, a.to);
    var f := Context(doc, b.from);
    var shared := f[..|f| - b.slice.openStart];
    assert c[..|c|] == c;
    NoMarks(b.slice.content, shared);
    ChainJoins(s, t, c, shared, RightMarks(a.slice.content, a.slice.openEnd));
  }

  // ----------------------------------------------------------------------
  // The laws
  // ----------------------------------------------------------------------

  /** Applying, where a valid document stays valid. */
  ghost function DoStep(s: Schema, step: Step, doc: Node): Option<Node> {
    if DocOk(s, doc) && StepOk(step) && Apply(s, step, doc).Ok? && DocOk(s, Apply(s, step, doc).value)
    then Some(Apply(s, step, doc).value) else None
  }

  ghost function Inverse(step: Step, doc: Node): Step {
    if doc.Elem? && ProperNode(doc) && step.from <= step.to && 0 <= SliceSize(step.slice) && Invert(step, doc).Ok?
    then Invert(step, doc).value else step
  }

  ghost function Merged(a: Step, b: Step): Option<Step> {
    if 0 <= SliceSize(a.slice) && 0 <= SliceSize(b.slice) && b.from <= b.to then Merge(a, b) else None
  }

  /** Steps as the history sees them. */
  ghost function StepAlgebra(s: Schema): Branches.Algebra<Node, Step> {
    Branches.Algebra((step: Step, doc: Node) => DoStep(s, step, doc), (step: Step, doc: Node) => Inverse(step, doc),
                     (a: Step, b: Step) => Merged(a, b))
  }

  lemma UndoesStep(s: Schema, step: Step, doc: Node)
    requires MixesEvenly(s) && DoStep(s, step, doc).Some?
    ensures DoStep(s, Inverse(step, doc), DoStep(s, step, doc).value) == Some(doc)
  {
    hide Apply, Invert, NormalNode, ProperNode, ValidNode, EndsJoin, Tokens, NodeTokens, Size, NodeSize, Effect, MixesEvenly,
         OpensLeft, OpensRight, Normal, Proper;
    var r := Apply(s, step, doc).value;
    ApplyEffect(s, step, doc);
    EndsAlwaysJoin(s, step, doc, r);
    InvertUndoes(s, step, doc);
  }

  lemma MergesSteps(s: Schema, a: Step, b: Step, doc: Node)
    requires MixesEvenly(s) && Merged(a, b).Some? && DoStep(s, a, doc).Some? && DoStep(s, b, DoStep(s, a, doc).value).Some?
    ensures DoStep(s, Merged(a, b).value, doc) == DoStep(s, b, DoStep(s, a, doc).value)
  {
    hide Apply, NormalNode, ProperNode, ValidNode, Tokens, NodeTokens, Size, NodeSize, Effect, MixesEvenly, MergedEndsJoin,
         OpensLeft, OpensRight, Normal, Proper, JoinSlices;
    var d1 := Apply(s, a, doc).value;
    var d2 := Apply(s, b, d1).value;
    if a.from + SliceSize(a.slice) == b.from && a.slice.openEnd == 0 && b.slice.openStart == 0 {
      MergeForward(s, a, b, doc, d1, d2);
    } else {
      BothEffects(s, a, b, doc, d1, d2);
      MergedAlwaysJoin(s, a, b, doc, d1, d2);
      MergeBackward(s, a, b, doc, d1, d2);
    }
  }

  /** The laws hold, so all that is proved of the history holds of real steps. */
  lemma StepsObeyLaws(s: Schema)
    requires MixesEvenly(s)
    ensures Branches.Laws(StepAlgebra(s))
  {
    hide DoStep, Inverse, Merged, MixesEvenly;
    var g := StepAlgebra(s);
    forall step: Step, doc: Node | g.apply(step, doc).Some?
      ensures g.apply(g.invert(step, doc), g.apply(step, doc).value) == Some(doc)
    {
      UndoesStep(s, step, doc);
    }
    forall a: Step, b: Step, doc: Node | g.merge(a, b).Some? && g.apply(a, doc).Some? && g.apply(b, g.apply(a, doc).value).Some?
      ensures g.apply(g.merge(a, b).value, doc) == g.apply(b, g.apply(a, doc).value)
    {
      MergesSteps(s, a, b, doc);
    }
  }
}
