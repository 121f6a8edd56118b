/**
  Turning paired delimiters into emphasis tokens: two adjacent pairs of the same marker
  become one strong pair.
 */
module Emphasis {
  import opened Options
  import opened Delimiters

  const STAR: nat := 42
  const UNDERSCORE: nat := 95

  datatype Kind = Other | EmOpen | EmClose | StrongOpen | StrongClose

  /** An inline token: what it renders as, how it changes the nesting level, its markup and its text. */
  datatype Tok = Tok(kind: Kind, nesting: int, markup: string, content: string)

  function MarkerString(marker: nat): string {
    if marker == UNDERSCORE then "_" else "*"
  }

  function Opening(strong: bool, marker: nat): Tok {
    var m := MarkerString(marker);
    Tok(if strong then StrongOpen else EmOpen, 1, if strong then m + m else m, "")
  }

  function Closing(strong: bool, marker: nat): Tok {
    var m := MarkerString(marker);
    Tok(if strong then StrongClose else EmClose, -1, if strong then m + m else m, "")
  }

  // ---------------------------------------------------------------- which pairs become what

  predicate Eligible(ds: seq<Delim>, r: int) {
    0 <= r < |ds| && (ds[r].marker == UNDERSCORE || ds[r].marker == STAR) && ds[r].end != -1
  }

  /** The pair at `r` and the one just outside it are adjacent on both sides. */
  predicate Fused(ds: seq<Delim>, r: int) {
    && 0 < r < |ds| && 0 <= ds[r].end < |ds|
    && ds[r - 1].end == ds[r].end + 1 && ds[r].end + 1 < |ds|
    && ds[r - 1].marker == ds[r].marker
    && ds[r - 1].token == ds[r].token - 1
    && ds[ds[r].end + 1].token == ds[ds[r].end].token + 1
  }

  /** The pair at `r` gets tokens of its own: it is not taken up by the pair inside it. */
  predicate Rendered(ds: seq<Delim>, r: int)
    decreases |ds| - r
  {
    Eligible(ds, r) && !(r + 1 < |ds| && Rendered(ds, r + 1) && Fused(ds, r + 1))
  }

  /** Delimiters in the order of their tokens, as they were collected. */
  ghost predicate Ordered(ds: seq<Delim>, tokens: nat) {
    && (forall i, j :: 0 <= i < j < |ds| ==> ds[i].token < ds[j].token)
    && (forall i :: 0 <= i < |ds| ==> ds[i].token < tokens)
  }

  ghost predicate Ready(ds: seq<Delim>, tokens: nat) {
    WellPaired(ds, |ds|) && Ordered(ds, tokens)
  }

  function OpenToken(ds: seq<Delim>, x: int): nat
    requires 0 <= x < |ds|
  {
    ds[x].token
  }

  function CloseToken(ds: seq<Delim>, x: int): nat
    requires 0 <= x < |ds| && 0 <= ds[x].end < |ds|
  {
    ds[ds[x].end].token
  }

  lemma PairInRange(ds: seq<Delim>, x: int)
    requires WellPaired(ds, |ds|) && Eligible(ds, x)
    ensures Delimiters.Paired(ds, x) && x < ds[x].end < |ds| && ds[ds[x].end].end == -1
  {
  }

  /** The tokens of every rendered pair after `r` open and close it. */
  ghost predicate Stand(ds: seq<Delim>, now: seq<Tok>, r: int)
    requires Ready(ds, |now|)
  {
    forall x :: r < x < |ds| && Rendered(ds, x) ==>
      0 <= ds[x].end < |ds| && now[OpenToken(ds, x)] == Opening(Fused(ds, x), ds[x].marker)
      && now[CloseToken(ds, x)] == Closing(Fused(ds, x), ds[x].marker)
  }

  /** They stand, and everything else is at most emptied. */
  ghost predicate Done(ds: seq<Delim>, before: seq<Tok>, now: seq<Tok>, r: int)
    requires Ready(ds, |before|) && |now| == |before| && r >= -1
  {
    && Stand(ds, now, r)
    && (forall p :: 0 <= p < |now| && Untouched(ds, p, r) ==>
          now[p] == before[p].(content := now[p].content)
          && now[p].content == if Emptied(ds, p, r) then "" else before[p].content)
  }

  /** The token is neither opening nor closing for a rendered pair after `r`. */
  ghost predicate Untouched(ds: seq<Delim>, p: int, r: int) {
    forall x :: r < x && Rendered(ds, x) && 0 <= ds[x].end < |ds| ==> p != ds[x].token && p != ds[ds[x].end].token
  }

  /** The token belonged to a pair that a strong pair took up. */
  ghost predicate Emptied(ds: seq<Delim>, p: int, r: int) {
    exists x :: r < x && Rendered(ds, x) && Fused(ds, x) && (p == ds[x - 1].token || p == ds[ds[x].end + 1].token)
  }

  /** Two different pairs share no delimiter, nor does the one share any with those that took up or were taken up by the other. */
  lemma Apart(ds: seq<Delim>, x: int, y: int)
    requires WellPaired(ds, |ds|) && Eligible(ds, x) && Eligible(ds, y) && x < y
    ensures x < ds[x].end < |ds| && y < ds[y].end < |ds|
    ensures ds[x].end != y && ds[x].end != ds[y].end
  {
    PairInRange(ds, x);
    PairInRange(ds, y);
  }

  /** Nothing is done before the first, and a pair that is not rendered changes nothing. */
  lemma DoneStart(ds: seq<Delim>, toks: seq<Tok>)
    requires Ready(ds, |toks|)
    ensures Done(ds, toks, toks, if |ds| == 0 then -1 else |ds| - 1)
  {
    forall x | |ds| - 1 < x ensures !Rendered(ds, x) {
    }
  }

  lemma DoneSkip(ds: seq<Delim>, before: seq<Tok>, now: seq<Tok>, r: nat)
    requires Ready(ds, |before|) && |now| == |before| && Done(ds, before, now, r) && !Rendered(ds, r)
    ensures Done(ds, before, now, r - 1)
  {
    hide Rendered, Fused, Emptied, WellPaired, Ordered;
    forall p | 0 <= p < |now| && Untouched(ds, p, r - 1)
      ensures Untouched(ds, p, r) && (Emptied(ds, p, r - 1) <==> Emptied(ds, p, r))
    {
      SkipEmptied(ds, p, r);
    }
  }

  lemma SkipEmptied(ds: seq<Delim>, p: int, r: nat)
    requires !Rendered(ds, r)
    ensures Emptied(ds, p, r - 1) <==> Emptied(ds, p, r)
  {
    if Emptied(ds, p, r - 1) {
      var x :| r - 1 < x && Rendered(ds, x) && Fused(ds, x) && (p == ds[x - 1].token || p == ds[ds[x].end + 1].token);
      assert r < x;
    }
  }

  /** What rendering the pair at `r` writes. */
  function Write(ds: seq<Delim>, toks: seq<Tok>, r: nat): (now: seq<Tok>)
    requires Ready(ds, |toks|) && Eligible(ds, r)
    ensures |now| == |toks|
  {
    PairInRange(ds, r);
    var p, q := OpenToken(ds, r), CloseToken(ds, r);
    var strong := Fused(ds, r);
    var dressed := toks[p := Opening(strong, ds[r].marker)][q := Closing(strong, ds[r].marker)];
    if strong then
      dressed[ds[r - 1].token := dressed[ds[r - 1].token].(content := "")]
             [ds[ds[r].end + 1].token := dressed[ds[ds[r].end + 1].token].(content := "")]
    else dressed
  }

  /** The four tokens a rendered pair can write are different ones. */
  lemma WriteApart(ds: seq<Delim>, tokens: nat, r: nat)
    requires Ready(ds, tokens) && Eligible(ds, r)
    ensures r < ds[r].end < |ds| && OpenToken(ds, r) != CloseToken(ds, r)
    ensures Fused(ds, r) ==>
      && ds[r - 1].token < OpenToken(ds, r) < CloseToken(ds, r) < ds[ds[r].end + 1].token
  {
    PairInRange(ds, r);
  }

  /** None of them belongs to another rendered pair. */
  lemma WriteElsewhere(ds: seq<Delim>, tokens: nat, r: nat, x: nat)
    requires Ready(ds, tokens) && Eligible(ds, r) && Eligible(ds, x) && r < x
    ensures r < ds[r].end < |ds| && x < ds[x].end < |ds|
    ensures OpenToken(ds, x) != OpenToken(ds, r) && OpenToken(ds, x) != CloseToken(ds, r)
    ensures CloseToken(ds, x) != OpenToken(ds, r) && CloseToken(ds, x) != CloseToken(ds, r)
    ensures Fused(ds, r) ==>
      && OpenToken(ds, x) != ds[r - 1].token && OpenToken(ds, x) != ds[ds[r].end + 1].token
      && CloseToken(ds, x) != ds[r - 1].token && CloseToken(ds, x) != ds[ds[r].end + 1].token
  {
    Apart(ds, r, x);
    Distinct(ds, tokens, x, r);
    Distinct(ds, tokens, ds[x].end, r);
    Distinct(ds, tokens, x, ds[r].end);
    Distinct(ds, tokens, ds[x].end, ds[r].end);
    if Fused(ds, r) {
      assert Eligible(ds, r - 1);
      Apart(ds, r - 1, x);
      Distinct(ds, tokens, x, r - 1);
      Distinct(ds, tokens, ds[x].end, r - 1);
      Distinct(ds, tokens, x, ds[r].end + 1);
      Distinct(ds, tokens, ds[x].end, ds[r].end + 1);
    }
  }

  lemma Distinct(ds: seq<Delim>, tokens: nat, i: int, j: int)
    requires Ordered(ds, tokens) && 0 <= i < |ds| && 0 <= j < |ds| && i != j
    ensures ds[i].token != ds[j].token
  {
  }

  lemma RenderedEligible(ds: seq<Delim>, r: int)
    requires Rendered(ds, r)
    ensures Eligible(ds, r)
  {
  }

  /** Tokens that are not of the pair at `r` change only if they are emptied. */
  lemma WriteOther(ds: seq<Delim>, before: seq<Tok>, now: seq<Tok>, r: nat, p: nat)
    requires Ready(ds, |before|) && |now| == |before| && Done(ds, before, now, r) && Rendered(ds, r)
    requires p < |now| && Untouched(ds, p, r - 1)
    ensures var w := Write(ds, now, r);
            && w[p] == before[p].(content := w[p].content)
            && w[p].content == if Emptied(ds, p, r - 1) then "" else before[p].content
  {
    hide Rendered, Emptied;
    RenderedEligible(ds, r);
    WriteApart(ds, |before|, r);
    PairInRange(ds, r);
    assert Untouched(ds, p, r);
    EmptiedNext(ds, p, r);
  }

  lemma EmptiedNext(ds: seq<Delim>, p: int, r: nat)
    requires Rendered(ds, r)
    ensures Emptied(ds, p, r - 1) <==>
      Emptied(ds, p, r) || (Fused(ds, r) && (p == ds[r - 1].token || p == ds[ds[r].end + 1].token))
  {
    hide Rendered;
    if Emptied(ds, p, r - 1) {
      var x :| r - 1 < x && Rendered(ds, x) && Fused(ds, x) && (p == ds[x - 1].token || p == ds[ds[x].end + 1].token);
      assert x == r || r < x;
    }
  }

  lemma DoneWrite(ds: seq<Delim>, before: seq<Tok>, now: seq<Tok>, r: nat)
    requires Ready(ds, |before|) && |now| == |before| && Done(ds, before, now, r) && Rendered(ds, r)
    ensures Eligible(ds, r) && Done(ds, before, Write(ds, now, r), r - 1)
  {
    RenderedEligible(ds, r);
    var w := Write(ds, now, r);
    assert Stand(ds, w, r - 1) by {
      hide WellPaired, Ordered, Rendered, Fused, Write, Done;
      forall x | r - 1 < x < |ds| && Rendered(ds, x)
        ensures x < ds[x].end < |ds| && OpenToken(ds, x) < |w| && CloseToken(ds, x) < |w|
                && w[OpenToken(ds, x)] == Opening(Fused(ds, x), ds[x].marker)
                && w[CloseToken(ds, x)] == Closing(Fused(ds, x), ds[x].marker)
      {
        WriteKeeps(ds, before, now, r, x);
      }
    }
    hide Stand, Rendered, Emptied, WellPaired, Ordered, Untouched, Write;
    forall p | 0 <= p < |w| && Untouched(ds, p, r - 1)
      ensures w[p] == before[p].(content := w[p].content) && w[p].content == if Emptied(ds, p, r - 1) then "" else before[p].content
    {
      WriteOther(ds, before, now, r, p);
    }
  }

  /** All the tokens a rendered pair writes exist. */
  lemma WriteInRange(ds: seq<Delim>, tokens: nat, r: nat)
    requires Ready(ds, tokens) && Eligible(ds, r)
    ensures r < ds[r].end < |ds| && OpenToken(ds, r) < tokens && CloseToken(ds, r) < tokens
    ensures Fused(ds, r) ==> ds[r - 1].token < tokens && ds[ds[r].end + 1].token < tokens
  {
    PairInRange(ds, r);
  }

  lemma WriteKeeps(ds: seq<Delim>, before: seq<Tok>, now: seq<Tok>, r: nat, x: nat)
    requires Ready(ds, |before|) && |now| == |before| && Done(ds, before, now, r) && Rendered(ds, r) && Eligible(ds, r)
    requires r <= x && Rendered(ds, x)
    ensures x < ds[x].end < |ds| && OpenToken(ds, x) < |before| && CloseToken(ds, x) < |before|
    ensures var w := Write(ds, now, r);
            && w[OpenToken(ds, x)] == Opening(Fused(ds, x), ds[x].marker)
            && w[CloseToken(ds, x)] == Closing(Fused(ds, x), ds[x].marker)
  {
    hide Rendered, Emptied, WellPaired, Ordered, Untouched, Opening, Closing;
    RenderedEligible(ds, x);
    WriteInRange(ds, |before|, x);
    WriteInRange(ds, |before|, r);
    WriteApart(ds, |before|, r);
    if x > r {
      WriteElsewhere(ds, |before|, r, x);
    }
  }

  lemma LastRendered(ds: seq<Delim>)
    ensures |ds| > 0 ==> (Rendered(ds, |ds| - 1) <==> Eligible(ds, |ds| - 1))
  {
  }

  /** Dresses the two tokens of a pair; if it takes up the pair around it, empties that one's. */
  method DressPair(toks: array<Tok>, ds: seq<Delim>, r: nat) returns (strong: bool)
    requires Ready(ds, toks.Length) && Eligible(ds, r)
    modifies toks
    ensures toks[..] == Write(ds, old(toks[..]), r) && strong == Fused(ds, r)
  {
    hide WellPaired, Ordered;
    ghost var now := toks[..];
    WriteInRange(ds, toks.Length, r);
    var i := ds[ds[r].end];
    strong := Fused(ds, r);
    toks[ds[r].token] := Opening(strong, ds[r].marker);
    toks[i.token] := Closing(strong, ds[r].marker);
    if strong {
      toks[ds[r - 1].token] := toks[ds[r - 1].token].(content := "");
      toks[ds[ds[r].end + 1].token] := toks[ds[ds[r].end + 1].token].(content := "");
    }
    assert toks[..] == Write(ds, now, r);
  }

  /** Dresses the tokens of every pair, from the last opener to the first, in place. */
  method RenderEmphasis(toks: array<Tok>, ds: seq<Delim>)
    requires Ready(ds, toks.Length)
    modifies toks
    ensures Done(ds, old(toks[..]), toks[..], -1)
  {
    hide Done, WellPaired, Ordered, Rendered, Write, Fused;
    ghost var before := toks[..];
    DoneStart(ds, before);
    LastRendered(ds);
    var r := |ds| - 1;
    while r >= 0
      invariant -1 <= r < |ds|
      invariant Done(ds, before, toks[..], r)
      invariant r >= 0 ==> (Rendered(ds, r) <==> Eligible(ds, r))
      decreases r
    {
      ghost var now := toks[..];
      NextRendered(ds, r);
      if (ds[r].marker != UNDERSCORE && ds[r].marker != STAR) || ds[r].end == -1 {
        DoneSkip(ds, before, now, r);
      } else {
        DoneWrite(ds, before, now, r);
        var strong := DressPair(toks, ds, r);
        if strong {
          FusedInside(ds, r);
          DoneSkip(ds, before, toks[..], r - 1);
          r := r - 1;
        }
      }
      r := r - 1;
    }
  }

  lemma FusedInside(ds: seq<Delim>, r: int)
    requires Fused(ds, r)
    ensures r > 0
  {
  }

  /** The pair before one that is not rendered, or not fused, is rendered if eligible; the one before a fused one is not. */
  lemma NextRendered(ds: seq<Delim>, r: nat)
    requires r < |ds|
    ensures !Rendered(ds, r) || !Fused(ds, r) ==> (r > 0 ==> (Rendered(ds, r - 1) <==> Eligible(ds, r - 1)))
    ensures Rendered(ds, r) && Fused(ds, r) ==>
      !Rendered(ds, r - 1) && (r > 1 ==> (Rendered(ds, r - 2) <==> Eligible(ds, r - 2)))
  {
  }

  // ---------------------------------------------------------------- told from the tokens

  /** The pair at `y` touches the pair at `x` from around it: the same marker, in the very next token on either side. */
  ghost predicate Around(ds: seq<Delim>, y: int, x: int) {
    && Eligible(ds, y) && Eligible(ds, x) && ds[y].marker == ds[x].marker
    && 0 <= ds[y].end < |ds| && 0 <= ds[x].end < |ds|
    && ds[y].token + 1 == ds[x].token && ds[ds[x].end].token + 1 == ds[ds[y].end].token
  }

  /** A pair of the tokens that touches the pair at `x` from around it has become strong. */
  ghost predicate TakenUp(ds: seq<Delim>, now: seq<Tok>, x: int)
    requires Ordered(ds, |now|)
  {
    exists w :: Around(ds, x, w) && now[ds[w].token].kind == StrongOpen
  }

  lemma AroundIsNext(ds: seq<Delim>, tokens: nat, y: int, x: int)
    requires Ready(ds, tokens) && Around(ds, y, x)
    ensures y == x - 1 && Fused(ds, x)
  {
    hide WellPaired, Rendered;
    PairInRange(ds, x);
    PairInRange(ds, y);
    TokenOrder(ds, tokens, y, x);
    assert y == x - 1 by {
      if y < x - 1 {
        TokenOrder(ds, tokens, y, x - 1);
        TokenOrder(ds, tokens, x - 1, x);
      }
    }
    var e, f := ds[x].end, ds[y].end;
    TokenOrder(ds, tokens, e, f);
    if e + 1 < f {
      TokenOrder(ds, tokens, e, e + 1);
      TokenOrder(ds, tokens, e + 1, f);
    }
  }

  lemma FusedIsAround(ds: seq<Delim>, x: int)
    requires Eligible(ds, x) && Fused(ds, x)
    ensures Around(ds, x - 1, x)
  {
  }

  /** Neither token of a pair that gets none of its own belongs to one that does. */
  lemma NotRendered(ds: seq<Delim>, tokens: nat, x: nat)
    requires Ready(ds, tokens) && Eligible(ds, x) && !Rendered(ds, x)
    ensures x < ds[x].end < |ds| && Untouched(ds, ds[x].token, -1) && Untouched(ds, CloseToken(ds, x), -1)
  {
    hide WellPaired, Ordered;
    PairInRange(ds, x);
    forall z | -1 < z < |ds| && Rendered(ds, z) && 0 <= ds[z].end < |ds|
      ensures ds[x].token != ds[z].token && ds[x].token != ds[ds[z].end].token
      ensures ds[ds[x].end].token != ds[z].token && ds[ds[x].end].token != ds[ds[z].end].token
    {
      hide Rendered;
      RenderedEligible(ds, z);
      Apart(ds, if x < z then x else z, if x < z then z else x);
      Distinct(ds, tokens, x, z);
      Distinct(ds, tokens, x, ds[z].end);
      Distinct(ds, tokens, ds[x].end, z);
      Distinct(ds, tokens, ds[x].end, ds[z].end);
    }
  }

  lemma StrongIsFused(ds: seq<Delim>, before: seq<Tok>, now: seq<Tok>, x: nat)
    requires Ready(ds, |before|) && |now| == |before| && NoEmphasis(before) && Done(ds, before, now, -1) && Eligible(ds, x)
    ensures now[ds[x].token].kind == StrongOpen <==> Rendered(ds, x) && Fused(ds, x)
  {
    hide Rendered, WellPaired, Fused, Emptied, Untouched;
    PairInRange(ds, x);
    if Rendered(ds, x) {
      StandsAt(ds, now, x);
    } else {
      NotRendered(ds, |before|, x);
    }
  }

  lemma TakenUpOrRendered(ds: seq<Delim>, before: seq<Tok>, now: seq<Tok>, x: nat)
    requires Ready(ds, |before|) && |now| == |before| && NoEmphasis(before) && Done(ds, before, now, -1) && Eligible(ds, x)
    ensures TakenUp(ds, now, x) <==> !Rendered(ds, x)
  {
    hide WellPaired, Done, NoEmphasis;
    if TakenUp(ds, now, x) {
      var w :| Around(ds, x, w) && now[ds[w].token].kind == StrongOpen;
      AroundIsNext(ds, |before|, x, w);
      StrongIsFused(ds, before, now, w);
    }
    if !Rendered(ds, x) {
      FusedIsAround(ds, x + 1);
      StrongIsFused(ds, before, now, x + 1);
    }
  }

  lemma TakenUpIsEmptied(ds: seq<Delim>, before: seq<Tok>, now: seq<Tok>, x: nat)
    requires Ready(ds, |before|) && |now| == |before| && Done(ds, before, now, -1) && Eligible(ds, x) && !Rendered(ds, x)
    ensures x < ds[x].end < |ds|
    ensures now[ds[x].token] == before[ds[x].token].(content := "")
    ensures now[CloseToken(ds, x)] == before[CloseToken(ds, x)].(content := "")
  {
    hide WellPaired, Untouched;
    NotRendered(ds, |before|, x);
    var w := x + 1;
    assert Rendered(ds, w) && Fused(ds, w) && ds[x].token == ds[w - 1].token;
    assert CloseToken(ds, x) == ds[ds[w].end + 1].token;
    assert Emptied(ds, ds[x].token, -1) && Emptied(ds, CloseToken(ds, x), -1);
  }

  /**
    What becomes of a pair: it is emptied if the touching pair inside it became strong; else it becomes
    strong if another pair touches it from around it, and plain emphasis if none does.
   */
  lemma PairBecomes(ds: seq<Delim>, before: seq<Tok>, now: seq<Tok>, x: nat)
    requires Ready(ds, |before|) && |now| == |before| && NoEmphasis(before) && Done(ds, before, now, -1) && Eligible(ds, x)
    ensures x < ds[x].end < |ds| && ds[x].token < |now| && ds[ds[x].end].token < |now|
    ensures var p, q, m := ds[x].token, ds[ds[x].end].token, if ds[x].marker == 95 then "_" else "*";
            if TakenUp(ds, now, x) then now[p] == before[p].(content := "") && now[q] == before[q].(content := "")
            else if exists y :: Around(ds, y, x) then now[p] == Tok(StrongOpen, 1, m + m, "") && now[q] == Tok(StrongClose, -1, m + m, "")
            else now[p] == Tok(EmOpen, 1, m, "") && now[q] == Tok(EmClose, -1, m, "")
  {
    hide Rendered, WellPaired, Fused, Ordered, Done, NoEmphasis, Around, TakenUp;
    PairInRange(ds, x);
    WriteInRange(ds, |now|, x);
    TakenUpOrRendered(ds, before, now, x);
    if Rendered(ds, x) {
      assert Stand(ds, now, -1) by {
        StandsDone(ds, before, now);
      }
      StandsAt(ds, now, x);
      if Fused(ds, x) {
        FusedIsAround(ds, x);
      }
      forall y | Around(ds, y, x) ensures Fused(ds, x) {
        AroundIsNext(ds, |before|, y, x);
      }
    } else {
      TakenUpIsEmptied(ds, before, now, x);
    }
  }

  lemma StandsDone(ds: seq<Delim>, before: seq<Tok>, now: seq<Tok>)
    requires Ready(ds, |before|) && |now| == |before| && Done(ds, before, now, -1)
    ensures Stand(ds, now, -1)
  {
  }

  /** A token that belongs to no pair stays as it was. */
  lemma OthersStay(ds: seq<Delim>, before: seq<Tok>, now: seq<Tok>, p: nat)
    requires Ready(ds, |before|) && |now| == |before| && Done(ds, before, now, -1) && p < |now|
    requires forall x :: Eligible(ds, x) && 0 <= ds[x].end < |ds| ==> p != ds[x].token && p != ds[ds[x].end].token
    ensures now[p] == before[p]
  {
    hide WellPaired, Ordered, Fused, Around, Emptied;
    forall x | -1 < x < |ds| && Rendered(ds, x) && 0 <= ds[x].end < |ds| ensures p != ds[x].token && p != ds[ds[x].end].token {
      RenderedEligible(ds, x);
    }
    assert Untouched(ds, p, -1);
    if Emptied(ds, p, -1) {
      EmptiedIsPaired(ds, p);
    }
  }

  /** An emptied token belongs to a pair. */
  lemma EmptiedIsPaired(ds: seq<Delim>, p: int)
    requires Emptied(ds, p, -1)
    ensures exists x :: Eligible(ds, x) && 0 <= ds[x].end < |ds| && (p == ds[x].token || p == ds[ds[x].end].token)
  {
    var x :| -1 < x && Rendered(ds, x) && Fused(ds, x) && (p == ds[x - 1].token || p == ds[ds[x].end + 1].token);
    RenderedEligible(ds, x);
    var y := x - 1;
    assert Eligible(ds, y) && 0 <= ds[y].end < |ds| && ds[y].end == ds[x].end + 1;
  }

  // ---------------------------------------------------------------- nesting

  /** The emphasis left open by the first `p` tokens, outermost first; nothing if a token closes what is not open. */
  function Open(toks: seq<Tok>, p: nat): Option<seq<Tok>>
    requires p <= |toks|
  {
    if p == 0 then Some([])
    else
      match Open(toks, p - 1)
      case None => None
      case Some(stack) => OpenNext(stack, toks[p - 1])
  }

  function OpenNext(stack: seq<Tok>, t: Tok): Option<seq<Tok>> {
    match t.kind
    case Other => Some(stack)
    case EmOpen => Some(stack + [t])
    case StrongOpen => Some(stack + [t])
    case EmClose => CloseTop(stack, EmOpen, t.markup)
    case StrongClose => CloseTop(stack, StrongOpen, t.markup)
  }

  function CloseTop(stack: seq<Tok>, kind: Kind, markup: string): Option<seq<Tok>> {
    if stack != [] && stack[|stack| - 1].kind == kind && stack[|stack| - 1].markup == markup
    then Some(stack[..|stack| - 1])
    else None
  }

  /** The pair at `x` is open before token `p`. */
  predicate IsOpen(ds: seq<Delim>, p: nat, x: nat)
    requires x < |ds|
  {
    Rendered(ds, x) && 0 <= ds[x].end < |ds| && ds[x].token < p <= ds[ds[x].end].token
  }

  /** The opening tokens of the open pairs among the first `m`. */
  function OpenPairs(ds: seq<Delim>, p: nat, m: nat): seq<Tok>
    requires m <= |ds|
  {
    if m == 0 then []
    else OpenPairs(ds, p, m - 1) + if IsOpen(ds, p, m - 1) then [Opening(Fused(ds, m - 1), ds[m - 1].marker)] else []
  }

  lemma {:induction false} OpenPairsAgree(ds: seq<Delim>, p: nat, q: nat, m: nat)
    requires m <= |ds| && forall y :: 0 <= y < m ==> IsOpen(ds, p, y) == IsOpen(ds, q, y)
    ensures OpenPairs(ds, p, m) == OpenPairs(ds, q, m)
  {
    hide IsOpen, Fused;
    if m > 0 {
      OpenPairsAgree(ds, p, q, m - 1);
    }
  }

  lemma {:induction false} OpenPairsNone(ds: seq<Delim>, p: nat, k: nat, m: nat)
    requires k <= m <= |ds| && forall y :: k <= y < m ==> !IsOpen(ds, p, y)
    ensures OpenPairs(ds, p, m) == OpenPairs(ds, p, k)
    decreases m - k
  {
    hide IsOpen, Fused;
    if k < m {
      OpenPairsNone(ds, p, k, m - 1);
    }
  }

  lemma TokenOrder(ds: seq<Delim>, tokens: nat, i: int, j: int)
    requires Ordered(ds, tokens) && 0 <= i < |ds| && 0 <= j < |ds|
    ensures i < j <==> ds[i].token < ds[j].token
    ensures i == j <==> ds[i].token == ds[j].token
  {
    if j < i {
      assert ds[j].token < ds[i].token;
    }
  }

  /** Around the opening token of `x`, the pair at `y` is open on both sides if it is an earlier one, else on neither. */
  lemma AroundOpening(ds: seq<Delim>, tokens: nat, x: nat, y: nat)
    requires Ready(ds, tokens) && x < |ds| && Rendered(ds, x) && y < |ds|
    ensures var p := ds[x].token;
            && (y < x ==> IsOpen(ds, p, y) == IsOpen(ds, p + 1, y))
            && (y >= x ==> !IsOpen(ds, p, y))
            && (y > x ==> !IsOpen(ds, p + 1, y))
            && (y == x ==> IsOpen(ds, p + 1, y))
  {
    hide WellPaired, Ordered, Rendered;
    RenderedEligible(ds, x);
    PairInRange(ds, x);
    TokenOrder(ds, tokens, x, ds[x].end);
    TokenOrder(ds, tokens, x, y);
    if Rendered(ds, y) && y < x {
      RenderedEligible(ds, y);
      PairInRange(ds, y);
      Apart(ds, y, x);
      TokenOrder(ds, tokens, ds[y].end, x);
    }
  }

  /** Around the closing token of `x`, likewise. */
  lemma AroundClosing(ds: seq<Delim>, tokens: nat, x: nat, y: nat)
    requires Ready(ds, tokens) && x < |ds| && Rendered(ds, x) && y < |ds| && x < ds[x].end < |ds|
    ensures var p := CloseToken(ds, x);
            && (y < x ==> IsOpen(ds, p, y) == IsOpen(ds, p + 1, y))
            && (y >= x ==> !IsOpen(ds, p + 1, y))
            && (y > x ==> !IsOpen(ds, p, y))
            && (y == x ==> IsOpen(ds, p, y))
  {
    hide WellPaired, Ordered, Rendered;
    RenderedEligible(ds, x);
    TokenOrder(ds, tokens, x, ds[x].end);
    TokenOrder(ds, tokens, ds[x].end, y);
    if Rendered(ds, y) {
      RenderedEligible(ds, y);
      PairInRange(ds, y);
      TokenOrder(ds, tokens, ds[x].end, ds[y].end);
      if y < x {
        Apart(ds, y, x);
      } else if y > x {
        Apart(ds, x, y);
        NotCrossed(ds, x, y);
      }
    }
  }

  /** Past its opening token a pair is the last open one; before that token it, and every later one, is not open. */
  lemma PairOpens(ds: seq<Delim>, tokens: nat, x: nat)
    requires Ready(ds, tokens) && x < |ds| && Rendered(ds, x)
    ensures OpenPairs(ds, ds[x].token + 1, |ds|) == OpenPairs(ds, ds[x].token, |ds|) + [Opening(Fused(ds, x), ds[x].marker)]
  {
    hide WellPaired, Ordered, Rendered, Fused, IsOpen;
    var p, q := ds[x].token, ds[x].token + 1;
    forall y: nat | y < x ensures IsOpen(ds, p, y) == IsOpen(ds, q, y) {
      AroundOpening(ds, tokens, x, y);
    }
    forall y: nat | x <= y < |ds| ensures !IsOpen(ds, p, y) {
      AroundOpening(ds, tokens, x, y);
    }
    forall y: nat | x + 1 <= y < |ds| ensures !IsOpen(ds, q, y) {
      AroundOpening(ds, tokens, x, y);
    }
    AroundOpening(ds, tokens, x, x);
    OpenPairsAgree(ds, p, q, x);
    OpenPairsNone(ds, p, x, |ds|);
    OpenPairsNone(ds, q, x + 1, |ds|);
  }

  /** Before its closing token a pair is the last open one, since no pair crosses it. */
  lemma PairCloses(ds: seq<Delim>, tokens: nat, x: nat)
    requires Ready(ds, tokens) && x < |ds| && Rendered(ds, x) && x < ds[x].end < |ds|
    ensures var p := CloseToken(ds, x);
            OpenPairs(ds, p, |ds|) == OpenPairs(ds, p + 1, |ds|) + [Opening(Fused(ds, x), ds[x].marker)]
  {
    hide WellPaired, Ordered, Rendered, Fused, IsOpen;
    var p, q := CloseToken(ds, x), CloseToken(ds, x) + 1;
    forall y: nat | y < x ensures IsOpen(ds, p, y) == IsOpen(ds, q, y) {
      AroundClosing(ds, tokens, x, y);
    }
    forall y: nat | x <= y < |ds| ensures !IsOpen(ds, q, y) {
      AroundClosing(ds, tokens, x, y);
    }
    forall y: nat | x + 1 <= y < |ds| ensures !IsOpen(ds, p, y) {
      AroundClosing(ds, tokens, x, y);
    }
    AroundClosing(ds, tokens, x, x);
    OpenPairsAgree(ds, p, q, x);
    OpenPairsNone(ds, p, x + 1, |ds|);
    OpenPairsNone(ds, q, x, |ds|);
  }

  lemma NotCrossed(ds: seq<Delim>, x: nat, y: nat)
    requires WellPaired(ds, |ds|) && Eligible(ds, x) && Eligible(ds, y) && x < y
    ensures ds[y].end < ds[x].end || ds[x].end < y
  {
    PairInRange(ds, x);
    PairInRange(ds, y);
  }

  /** A token of no rendered pair changes nothing. */
  lemma NothingOpens(ds: seq<Delim>, tokens: nat, p: nat)
    requires Ready(ds, tokens) && Untouched(ds, p, -1)
    ensures OpenPairs(ds, p + 1, |ds|) == OpenPairs(ds, p, |ds|)
  {
    hide WellPaired, Ordered, Rendered, Fused;
    forall y | 0 <= y < |ds| ensures IsOpen(ds, p, y) == IsOpen(ds, p + 1, y) {
      if Rendered(ds, y) {
        RenderedEligible(ds, y);
        PairInRange(ds, y);
        TokenOrder(ds, tokens, y, ds[y].end);
      }
    }
    OpenPairsAgree(ds, p, p + 1, |ds|);
  }

  ghost predicate NoEmphasis(toks: seq<Tok>) {
    forall p :: 0 <= p < |toks| ==> toks[p].kind == Other
  }

  lemma {:induction false} OpenIsOpenPairs(ds: seq<Delim>, before: seq<Tok>, now: seq<Tok>, p: nat)
    requires Ready(ds, |before|) && |now| == |before| && NoEmphasis(before) && Done(ds, before, now, -1)
    requires p <= |now|
    ensures Open(now, p) == Some(OpenPairs(ds, p, |ds|))
    decreases p
  {
    hide WellPaired, Ordered, Rendered, Done, NoEmphasis;
    if p == 0 {
      OpenPairsNone(ds, 0, 0, |ds|);
    } else {
      OpenIsOpenPairs(ds, before, now, p - 1);
      NextToken(ds, before, now, p - 1);
    }
  }

  lemma TouchedBy(ds: seq<Delim>, p: nat) returns (x: nat)
    requires WellPaired(ds, |ds|) && !Untouched(ds, p, -1)
    ensures x < |ds| && x < ds[x].end < |ds| && Rendered(ds, x) && (p == ds[x].token || p == CloseToken(ds, x))
  {
    var y :| -1 < y && Rendered(ds, y) && 0 <= ds[y].end < |ds| && (p == ds[y].token || p == ds[ds[y].end].token);
    PairInRange(ds, y);
    x := y;
  }

  lemma NextToken(ds: seq<Delim>, before: seq<Tok>, now: seq<Tok>, p: nat)
    requires Ready(ds, |before|) && |now| == |before| && NoEmphasis(before) && Done(ds, before, now, -1)
    requires p < |now|
    ensures OpenNext(OpenPairs(ds, p, |ds|), now[p]) == Some(OpenPairs(ds, p + 1, |ds|))
  {
    hide WellPaired, Ordered, Rendered, Fused, OpenPairs, Emptied;
    if Untouched(ds, p, -1) {
      NothingOpens(ds, |before|, p);
    } else {
      hide Untouched;
      var x := TouchedBy(ds, p);
      if p == ds[x].token {
        PairOpens(ds, |before|, x);
      } else {
        PairCloses(ds, |before|, x);
        CloseUndoes(OpenPairs(ds, p + 1, |ds|), Fused(ds, x), ds[x].marker);
      }
    }
  }

  lemma CloseUndoes(stack: seq<Tok>, strong: bool, marker: nat)
    ensures OpenNext(stack + [Opening(strong, marker)], Closing(strong, marker)) == Some(stack)
  {
    assert (stack + [Opening(strong, marker)])[..|stack|] == stack;
  }

  /** Rendered emphasis is properly nested: every close matches the innermost open in kind and markup, and nothing stays open. */
  lemma WellNested(ds: seq<Delim>, before: seq<Tok>, now: seq<Tok>)
    requires Ready(ds, |before|) && |now| == |before| && NoEmphasis(before) && Done(ds, before, now, -1)
    ensures forall p :: 0 <= p <= |now| ==> Open(now, p).Some?
    ensures Open(now, |now|) == Some([])
  {
    hide WellPaired, Rendered, Done, NoEmphasis, Open;
    forall p | 0 <= p <= |now| ensures Open(now, p).Some? {
      OpenIsOpenPairs(ds, before, now, p);
    }
    OpenIsOpenPairs(ds, before, now, |now|);
    OpenPairsNone(ds, |now|, 0, |ds|);
  }

  // ---------------------------------------------------------------- levels

  /** The nesting level reached after the first `p` tokens, as the last pass of the inline rules sums it. */
  function Level(toks: seq<Tok>, p: nat): int
    requires p <= |toks|
  {
    if p == 0 then 0 else Level(toks, p - 1) + toks[p - 1].nesting
  }

  predicate NestsAsKind(t: Tok) {
    t.nesting == match t.kind
                 case Other => 0
                 case EmOpen => 1
                 case StrongOpen => 1
                 case EmClose => -1
                 case StrongClose => -1
  }

  /** Where only emphasis nests, the level is the number of open emphases. */
  ghost predicate OnlyEmphasisNests(toks: seq<Tok>) {
    forall p :: 0 <= p < |toks| ==> NestsAsKind(toks[p])
  }

  lemma {:induction false} LevelIsDepth(toks: seq<Tok>, p: nat)
    requires p <= |toks| && OnlyEmphasisNests(toks) && Open(toks, p).Some?
    ensures Level(toks, p) == |Open(toks, p).value| >= 0
    decreases p
  {
    if p > 0 {
      LevelIsDepth(toks, p - 1);
      assert toks[p - 1].nesting <= 1;
    }
  }

  /** Pairing keeps delimiters as rendering needs them. */
  lemma BalancedIsReady(ds: seq<Delim>, tokens: nat)
    requires Unpaired(ds) && Ordered(ds, tokens)
    ensures Ready(Delimiters.Plain(ds, |ds|).ds, tokens)
  {
    hide WellPaired, Delimiters.Plain;
    PlainReached(ds, |ds|);
    assert Reached(ds, Delimiters.Plain(ds, |ds|).ds, |ds|);
  }

  /** Where nothing nested before, rendered emphasis never takes the level below zero, and back to zero at the end. */
  lemma LevelsNeverNegative(ds: seq<Delim>, before: seq<Tok>, now: seq<Tok>, p: nat)
    requires Ready(ds, |before|) && |now| == |before| && NoEmphasis(before) && OnlyEmphasisNests(before)
    requires Done(ds, before, now, -1) && p <= |now|
    ensures Level(now, p) >= 0 && Level(now, |now|) == 0
  {
    hide WellPaired, Rendered, Open, Level, Untouched;
    WellNested(ds, before, now);
    forall q | 0 <= q < |now| ensures NestsAsKind(now[q]) {
      NestsKept(ds, before, now, q);
    }
    LevelIsDepth(now, p);
    LevelIsDepth(now, |now|);
  }

  lemma NestsKept(ds: seq<Delim>, before: seq<Tok>, now: seq<Tok>, q: nat)
    requires Ready(ds, |before|) && |now| == |before| && NoEmphasis(before) && OnlyEmphasisNests(before)
    requires Done(ds, before, now, -1) && q < |now|
    ensures NestsAsKind(now[q])
  {
    hide WellPaired, Ordered, Rendered, Fused, Emptied;
    if Untouched(ds, q, -1) {
      assert NestsAsKind(before[q]);
    } else {
      hide Untouched;
      var x := TouchedBy(ds, q);
      StandsAt(ds, now, x);
    }
  }

  lemma StandsAt(ds: seq<Delim>, now: seq<Tok>, x: nat)
    requires Ready(ds, |now|) && Stand(ds, now, -1) && x < |ds| && x < ds[x].end < |ds| && Rendered(ds, x)
    ensures now[OpenToken(ds, x)] == Opening(Fused(ds, x), ds[x].marker)
    ensures now[CloseToken(ds, x)] == Closing(Fused(ds, x), ds[x].marker)
  {
  }
}
