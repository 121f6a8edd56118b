/**
  Transforms: a document changed step by step, with what is needed to change it back.
 */
module Transforms {
  import opened Options
  import opened Documents
  import opened Positions
  import opened Replace
  import opened Splice
  import opened Outcomes
  import opened Exactness
  import opened ReplaceExactly
  import opened Stacks
  import opened Steps
  import Maps
  import Mappings

  /** The range a step replaces, as positions see it. */
  function GetMap(step: Step): Maps.StepMap
    requires step.from <= step.to && 0 <= SliceSize(step.slice)
  {
    Maps.StepMap([Maps.Range(step.from, step.to - step.from, SliceSize(step.slice))], false)
  }

  /** Positions outside the replaced range move with the token after them. */
  lemma MapFollowsTokens(s: Schema, step: Step, doc: Node, r: Node, pos: nat)
    requires doc.Elem? && r.Elem? && StepOk(step) && Effect(s, step, doc, r)
    requires pos < Size(doc.content) && (pos < step.from || step.to <= pos)
    ensures 0 <= SliceSize(step.slice)
    ensures var moved := Maps.MapPos(GetMap(step), pos, 1).pos;
            0 <= moved < Size(r.content) && Tokens(r.content)[moved] == Tokens(doc.content)[pos]
  {
    hide Tokens, NodeTokens, Normal, Proper, NormalNode, ProperNode, Fits, SliceTokens;
    SliceLength(step.slice);
    FitsRange(s, step, doc, r);
    SingleMap(step.from, step.to - step.from, SliceSize(step.slice), pos);
  }

  lemma FitsRange(s: Schema, step: Step, doc: Node, r: Node)
    requires doc.Elem? && r.Elem? && Effect(s, step, doc, r)
    ensures step.from <= step.to <= Size(doc.content)
  {
  }

  lemma SingleMap(start: nat, oldSize: nat, newSize: nat, pos: nat)
    ensures var r := Maps.MapPos(Maps.StepMap([Maps.Range(start, oldSize, newSize)], false), pos, 1);
            && (pos < start ==> r.pos == pos && r.deleted == Maps.NOTHING)
            && (start + oldSize <= pos ==> r.pos == pos + newSize - oldSize && r.recover == None)
            && (start <= pos < start + oldSize ==> r.recover.Some? && (r.deleted.after || r.deleted.across))
  {
    var m := Maps.StepMap([Maps.Range(start, oldSize, newSize)], false);
    assert Maps.MapFrom(m, 1, newSize - oldSize, pos, 1) == Maps.MapResult(pos + newSize - oldSize, Maps.NOTHING, None);
  }

  /** Between a position and the next, exactly the tokens of the replaced range are reported deleted. */
  lemma DeletedAfterIsGone(step: Step, pos: nat)
    requires step.from < step.to && 0 <= SliceSize(step.slice)
    ensures var d := Maps.MapPos(GetMap(step), pos, 1).deleted;
            d.after || d.across <==> step.from <= pos < step.to
  {
    SingleMap(step.from, step.to - step.from, SliceSize(step.slice), pos);
    var m := GetMap(step);
    assert Maps.MapFrom(m, 1, SliceSize(step.slice) - (step.to - step.from), pos, 1).deleted == Maps.NOTHING;
  }

  // ---------------------------------------------------------------- a run of steps

  /** The documents between the steps: the stored ones, and the current one at the end. */
  function DocAt(docs: seq<Node>, doc: Node, i: nat): Node
    requires i <= |docs|
  {
    if i < |docs| then docs[i] else doc
  }

  /** Each step, applied to the document stored with it, gives the next document. */
  ghost predicate Run(s: Schema, docs: seq<Node>, steps: seq<Step>, doc: Node) {
    && |docs| == |steps|
    && DocOk(s, doc)
    && forall i :: 0 <= i < |steps| ==>
         DocOk(s, docs[i]) && StepOk(steps[i]) && Apply(s, steps[i], docs[i]) == Ok(DocAt(docs, doc, i + 1))
  }

  /** Undoes the last `n` steps, latest first, each by its inverse on the document stored with it. */
  ghost function UndoLast(s: Schema, docs: seq<Node>, steps: seq<Step>, doc: Node, n: nat): Result<Node>
    requires Run(s, docs, steps, doc) && n <= |steps|
    decreases n
  {
    if n == 0 then Ok(doc)
    else
      var current :- UndoLast(s, docs, steps, doc, n - 1);
      var i := |steps| - n;
      StepSizes(s, docs, steps, doc, i);
      var inverse :- Invert(steps[i], docs[i]);
      if current.Elem? && ProperNode(current) then Apply(s, inverse, current) else Failed(InvalidContent)
  }

  ghost predicate Undoable(s: Schema, docs: seq<Node>, steps: seq<Step>, doc: Node, i: nat)
    requires Run(s, docs, steps, doc) && i < |steps|
  {
    StepRanges(s, docs, steps, doc, i);
    EndsJoin(s, steps[i], docs[i], DocAt(docs, doc, i + 1))
  }

  lemma StepRanges(s: Schema, docs: seq<Node>, steps: seq<Step>, doc: Node, i: nat)
    requires Run(s, docs, steps, doc) && i < |steps|
    ensures var r := DocAt(docs, doc, i + 1);
            && docs[i].Elem? && r.Elem?
            && 0 <= EndOf(steps[i]) <= Size(r.content) && steps[i].to <= Size(docs[i].content)
  {
    hide Apply, Invert, NormalNode, ProperNode, ValidNode, EndsJoin, Tokens, NodeTokens, Size, NodeSize;
    InvertUndoes(s, steps[i], docs[i]);
  }

  lemma UndoOne(s: Schema, docs: seq<Node>, steps: seq<Step>, doc: Node, i: nat)
    requires Run(s, docs, steps, doc) && i < |steps|
    ensures DocOk(s, docs[i]) && StepOk(steps[i]) && 0 <= SliceSize(steps[i].slice) && DocOk(s, DocAt(docs, doc, i + 1))
    ensures Invert(steps[i], docs[i]).Ok? && StepOk(Invert(steps[i], docs[i]).value)
    ensures Apply(s, Invert(steps[i], docs[i]).value, DocAt(docs, doc, i + 1)) == Ok(docs[i])
            <==> Undoable(s, docs, steps, doc, i)
    ensures Apply(s, Invert(steps[i], docs[i]).value, DocAt(docs, doc, i + 1)).Ok? ==> Undoable(s, docs, steps, doc, i)
  {
    hide Apply, Invert, NormalNode, ProperNode, ValidNode, EndsJoin, Tokens, NodeTokens, Size, NodeSize;
    InvertUndoes(s, steps[i], docs[i]);
  }

  /** The first `n` undos come back to the documents they should. */
  ghost predicate Retraces(s: Schema, docs: seq<Node>, steps: seq<Step>, doc: Node, n: nat)
    requires Run(s, docs, steps, doc) && n <= |steps|
  {
    forall k :: 0 <= k <= n ==> UndoLast(s, docs, steps, doc, k) == Ok(DocAt(docs, doc, |steps| - k))
  }

  lemma RetracesNext(s: Schema, docs: seq<Node>, steps: seq<Step>, doc: Node, n: nat)
    requires Run(s, docs, steps, doc) && 0 < n <= |steps|
    ensures Retraces(s, docs, steps, doc, n) <==>
      Retraces(s, docs, steps, doc, n - 1) && UndoLast(s, docs, steps, doc, n) == Ok(DocAt(docs, doc, |steps| - n))
  {
    hide UndoLast, Run;
  }

  lemma UndoLastNext(s: Schema, docs: seq<Node>, steps: seq<Step>, doc: Node, n: nat)
    requires Run(s, docs, steps, doc) && 0 < n <= |steps|
    requires UndoLast(s, docs, steps, doc, n - 1) == Ok(DocAt(docs, doc, |steps| - n + 1))
    ensures UndoLast(s, docs, steps, doc, n) == Ok(DocAt(docs, doc, |steps| - n))
       <==> Undoable(s, docs, steps, doc, |steps| - n)
    ensures UndoLast(s, docs, steps, doc, n).Ok? <==> Undoable(s, docs, steps, doc, |steps| - n)
  {
    hide Apply, Invert, NormalNode, ProperNode, ValidNode, Undoable, StepOk, SliceSize;
    UndoOne(s, docs, steps, doc, |steps| - n);
  }

  ghost predicate LastUndoable(s: Schema, docs: seq<Node>, steps: seq<Step>, doc: Node, n: nat)
    requires Run(s, docs, steps, doc) && n <= |steps|
  {
    forall i :: |steps| - n <= i < |steps| ==> Undoable(s, docs, steps, doc, i)
  }

  lemma LastUndoableNext(s: Schema, docs: seq<Node>, steps: seq<Step>, doc: Node, n: nat)
    requires Run(s, docs, steps, doc) && 0 < n <= |steps|
    ensures LastUndoable(s, docs, steps, doc, n)
       <==> LastUndoable(s, docs, steps, doc, n - 1) && Undoable(s, docs, steps, doc, |steps| - n)
  {
    hide Undoable, Run;
  }

  lemma NoUndo(s: Schema, docs: seq<Node>, steps: seq<Step>, doc: Node)
    requires Run(s, docs, steps, doc)
    ensures Retraces(s, docs, steps, doc, 0) && LastUndoable(s, docs, steps, doc, 0) && UndoLast(s, docs, steps, doc, 0).Ok?
  {
    hide Apply, NormalNode, ProperNode, ValidNode, StepOk, Undoable;
  }

  /** An undo that fails makes all further ones fail. */
  lemma UndoneBefore(s: Schema, docs: seq<Node>, steps: seq<Step>, doc: Node, n: nat)
    requires Run(s, docs, steps, doc) && 0 < n <= |steps| && UndoLast(s, docs, steps, doc, n).Ok?
    ensures UndoLast(s, docs, steps, doc, n - 1).Ok?
  {
    hide Apply, Invert, NormalNode, ProperNode, ValidNode, Run, StepOk, SliceSize;
  }

  /**
    Undoing step by step succeeds, and comes back through every document,
    exactly when every step can be taken back.
   */
  lemma {:induction false} UndoRetraces(s: Schema, docs: seq<Node>, steps: seq<Step>, doc: Node, n: nat)
    requires Run(s, docs, steps, doc) && n <= |steps|
    ensures Retraces(s, docs, steps, doc, n) <==> LastUndoable(s, docs, steps, doc, n)
    ensures UndoLast(s, docs, steps, doc, n).Ok? <==> LastUndoable(s, docs, steps, doc, n)
    decreases n
  {
    hide *;
    if n == 0 {
      NoUndo(s, docs, steps, doc);
    } else {
      UndoRetraces(s, docs, steps, doc, n - 1);
      RetracesNext(s, docs, steps, doc, n);
      LastUndoableNext(s, docs, steps, doc, n);
      if UndoLast(s, docs, steps, doc, n).Ok? {
        UndoneBefore(s, docs, steps, doc, n);
      }
      if Retraces(s, docs, steps, doc, n - 1) {
        RetracesLast(s, docs, steps, doc, n - 1);
        UndoLastNext(s, docs, steps, doc, n);
      }
    }
  }

  lemma RetracesLast(s: Schema, docs: seq<Node>, steps: seq<Step>, doc: Node, n: nat)
    requires Run(s, docs, steps, doc) && n <= |steps| && Retraces(s, docs, steps, doc, n)
    ensures UndoLast(s, docs, steps, doc, n) == Ok(DocAt(docs, doc, |steps| - n))
  {
    hide UndoLast, Run;
  }

  /** If every step can be taken back, undoing all of a run returns the document it started from. */
  lemma UndoAll(s: Schema, docs: seq<Node>, steps: seq<Step>, doc: Node)
    requires Run(s, docs, steps, doc)
    requires forall i :: 0 <= i < |steps| ==> Undoable(s, docs, steps, doc, i)
    ensures UndoLast(s, docs, steps, doc, |steps|) == Ok(DocAt(docs, doc, 0))
  {
    hide UndoLast, Undoable, Run, Retraces;
    UndoRetraces(s, docs, steps, doc, |steps|);
    RetracesLast(s, docs, steps, doc, |steps|);
  }

  lemma StepSizes(s: Schema, docs: seq<Node>, steps: seq<Step>, doc: Node, i: nat)
    requires Run(s, docs, steps, doc) && i < |steps|
    ensures DocOk(s, docs[i]) && StepOk(steps[i]) && 0 <= SliceSize(steps[i].slice)
    ensures Apply(s, steps[i], docs[i]) == Ok(DocAt(docs, doc, i + 1)) && DocOk(s, DocAt(docs, doc, i + 1))
    ensures Invert(steps[i], docs[i]).Ok? && StepOk(Invert(steps[i], docs[i]).value)
  {
    hide Apply, Invert, NormalNode, ProperNode, ValidNode, EndsJoin;
    InvertUndoes(s, steps[i], docs[i]);
  }

  // ---------------------------------------------------------------- the object

  class Transform {
    const schema: Schema
    var doc: Node
    var steps: seq<Step>
    var docs: seq<Node>
    const mapping: Mappings.Mapping

    /** The stored documents and steps retrace the run, and the mapping has the map of each step. */
    ghost predicate Valid()
      reads this, mapping
    {
      && Run(schema, docs, steps, doc)
      && |mapping.maps| == |steps|
      && (forall i :: 0 <= i < |steps| ==>
            steps[i].from <= steps[i].to && 0 <= SliceSize(steps[i].slice) && mapping.maps[i] == GetMap(steps[i]))
      && mapping.mirror == None && mapping.from == 0 && mapping.to == |mapping.maps|
    }

    constructor (schema: Schema, doc: Node)
      requires DocOk(schema, doc)
      ensures Valid() && fresh(mapping) && this.schema == schema && this.doc == doc && steps == []
      ensures Before() == doc
    {
      this.schema := schema;
      this.doc := doc;
      steps, docs := [], [];
      mapping := new Mappings.Mapping();
    }

    function Before(): Node
      reads this
    {
      if docs != [] then docs[0] else doc
    }

    method AddStep(step: Step, after: Node)
      requires Valid() && DocOk(schema, doc) && StepOk(step) && 0 <= SliceSize(step.slice)
      requires Apply(schema, step, doc) == Ok(after) && DocOk(schema, after)
      modifies this, mapping
      ensures Valid()
      ensures doc == after && steps == old(steps) + [step] && docs == old(docs) + [old(doc)]
    {
      hide Apply, NormalNode, ProperNode, ValidNode, SliceSize, Proper, Normal, OpensLeft, OpensRight;
      RunExtends(schema, docs, steps, doc, step, after);
      docs := docs + [doc];
      steps := steps + [step];
      mapping.AppendMap(GetMap(step), None);
      doc := after;
    }

    /** Applies a step if it can be applied; otherwise changes nothing. */
    method MaybeStep(step: Step) returns (r: Result<Node>)
      requires Valid() && StepOk(step) && ValidSlice(schema, step.slice)
      modifies this, mapping
      ensures Valid() && Before() == old(Before())
      ensures DocOk(schema, old(doc)) && r == Apply(schema, step, old(doc))
      ensures r.Ok? ==> doc == r.value && steps == old(steps) + [step] && docs == old(docs) + [old(doc)]
      ensures r.Failed? ==> doc == old(doc) && steps == old(steps) && docs == old(docs) && mapping.maps == old(mapping.maps)
    {
      hide Apply, NormalNode, ProperNode, ValidNode, StepOk, SliceSize, ValidSlice;
      r := Apply(schema, step, doc);
      if r.Ok? {
        AppliedOk(schema, step, doc);
        AddStep(step, r.value);
      }
    }
  }

  lemma RunExtends(s: Schema, docs: seq<Node>, steps: seq<Step>, doc: Node, step: Step, after: Node)
    requires Run(s, docs, steps, doc) && StepOk(step) && Apply(s, step, doc) == Ok(after) && DocOk(s, after)
    ensures Run(s, docs + [doc], steps + [step], after)
  {
    hide Apply, StepOk, NormalNode, ProperNode, ValidNode;
    var docs1, steps1 := docs + [doc], steps + [step];
    forall i | 0 <= i < |steps1|
      ensures DocOk(s, docs1[i]) && StepOk(steps1[i]) && DocAt(docs1, after, i + 1) == if i < |steps| then DocAt(docs, doc, i + 1) else after
    {
      if i < |steps| {
        assert DocOk(s, docs[i]) && StepOk(steps[i]);
      }
    }
    forall i | 0 <= i < |steps1|
      ensures DocOk(s, docs1[i]) && StepOk(steps1[i]) && Apply(s, steps1[i], docs1[i]) == Ok(DocAt(docs1, after, i + 1))
    {
      if i < |steps| {
        assert Apply(s, steps[i], docs[i]) == Ok(DocAt(docs, doc, i + 1));
      }
    }
  }

  lemma AppliedOk(s: Schema, step: Step, doc: Node)
    requires DocOk(s, doc) && StepOk(step) && ValidSlice(s, step.slice) && Apply(s, step, doc).Ok?
    ensures DocOk(s, Apply(s, step, doc).value) && 0 <= SliceSize(step.slice)
  {
    hide Apply, NormalNode, ProperNode, ValidNode, ValidSlice, OpensLeft, OpensRight, Normal, Proper;
    ApplyEffect(s, step, doc);
    SliceHasTokens(step.slice);
  }
}
