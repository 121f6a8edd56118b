/**
  Which delimiters get paired, told from the delimiters as they were collected.
 */
module Pairing {
  import opened Options
  import opened Delimiters

  /**
    Rules 9 and 10 of section 6.2 of the CommonMark specification: an opener and a closer of one marker; where one
    of them can do both, their lengths do not add up to a multiple of three, unless both are one.
   */
  predicate MayPair(opener: Delim, closer: Delim) {
    && opener.open && closer.close && opener.marker == closer.marker
    && (opener.close || closer.open ==>
          (opener.length + closer.length) % 3 != 0 || (opener.length % 3 == 0 && closer.length % 3 == 0))
  }

  ghost predicate Closes(out: seq<Delim>, k: int) {
    exists x :: 0 <= x < |out| && out[x].end == k
  }

  /** The run of delimiters is broken behind the `k`th: by another token or marker, or because it has just closed a pair. */
  ghost predicate Break(ds: seq<Delim>, out: seq<Delim>, k: int) {
    0 <= k < |ds| - 1 && (ds[k + 1].marker != ds[k].marker || ds[k + 1].token != ds[k].token + 1 || Closes(out, k))
  }

  /** The delimiters are not in one unbroken run. */
  ghost predicate Separated(ds: seq<Delim>, out: seq<Delim>, j: int, e: int) {
    exists k :: j <= k < e && Break(ds, out, k)
  }

  /** Between the two delimiters of a pair that begins behind `x` and ends before `e`. */
  ghost predicate Enclosed(out: seq<Delim>, x: int, j: int, e: int) {
    exists y :: x < y < |out| && 0 <= y && y <= j <= out[y].end < e
  }

  /** What the flags still say of those collected. */
  ghost predicate Flags(ds: seq<Delim>, out: seq<Delim>) {
    && |out| == |ds|
    && forall j :: 0 <= j < |ds| ==>
         && (out[j].open ==> ds[j].open)
         && (out[j].end == -1 ==> out[j].close == ds[j].close)
         && (ds[j].open && !out[j].open ==> Closes(out, j))
  }

  /** The pair that `e` closes obeys the rules, and nothing nearer could have been paired with `e`. */
  ghost predicate Rightly(ds: seq<Delim>, out: seq<Delim>, x: int, e: int) {
    && 0 <= x < e < |ds|
    && MayPair(ds[x], ds[e]) && Separated(ds, out, x, e)
    && forall j :: x < j < e && MayPair(ds[j], ds[e]) && Separated(ds, out, j, e) ==> Enclosed(out, x, j, e)
  }

  /** For a closer that closes nothing, whatever could have been paired with it is in a pair before it. */
  ghost predicate Forsaken(ds: seq<Delim>, out: seq<Delim>, e: int) {
    0 <= e < |ds| && forall j :: 0 <= j < e && MayPair(ds[j], ds[e]) && Separated(ds, out, j, e) ==> Enclosed(out, -1, j, e)
  }

  ghost predicate Settled(ds: seq<Delim>, out: seq<Delim>, e: int) {
    && (forall x :: 0 <= x < |out| && out[x].end == e ==> Rightly(ds, out, x, e))
    && (!Closes(out, e) ==> Forsaken(ds, out, e))
  }

  /** The run that a scan is in. */
  ghost predicate InRun(ds: seq<Delim>, sc: Scan, o: nat) {
    o > 0 ==>
      && sc.header < o <= |ds|
      && (forall k :: sc.header <= k < o - 1 ==> !Break(ds, sc.ds, k))
      && (sc.header > 0 ==> Break(ds, sc.ds, sc.header - 1))
      && sc.last == if Closes(sc.ds, o - 1) then -2 else ds[o - 1].token
  }

  ghost predicate Well(ds: seq<Delim>, sc: Scan, o: nat) {
    && o <= |ds| && ScanOk(sc, |ds|, o) && Reached(ds, sc.ds, o) && Flags(ds, sc.ds) && InRun(ds, sc, o)
    && forall e :: 0 <= e < o ==> Settled(ds, sc.ds, e)
  }

  /** Only earlier delimiters are closed by a pair so far. */
  lemma ClosedBefore(ds: seq<Delim>, sc: Scan, o: nat, k: int)
    requires Reached(ds, sc.ds, o) && k >= o
    ensures !Closes(sc.ds, k)
  {
    hide NoCrossing;
    forall x | 0 <= x < |sc.ds| ensures sc.ds[x].end != k {
      assert Paired(sc.ds, x) ==> sc.ds[x].end < o;
    }
  }

  /** The run's first delimiter, as the scan finds it, is what separates from `o`. */
  lemma HeaderSeparates(ds: seq<Delim>, sc: Scan, o: nat, j: nat)
    requires Well(ds, sc, o) && j < o < |ds|
    ensures j < HeaderAt(sc, o) <==> Separated(ds, sc.ds, j, o)
  {
    hide Settled, Flags, WellPaired, Closes;
    var h: nat := sc.header;
    SameMarker(ds, sc, o, h);
    if HeaderAt(sc, o) == o {
      assert Break(ds, sc.ds, o - 1);
    } else {
      assert !Break(ds, sc.ds, o - 1);
      if j < h {
        assert Break(ds, sc.ds, h - 1);
      }
    }
  }

  lemma {:induction false} SameMarker(ds: seq<Delim>, sc: Scan, o: nat, k: nat)
    requires Well(ds, sc, o) && sc.header <= k < o <= |ds|
    ensures ds[k].marker == ds[o - 1].marker && sc.ds[k].marker == ds[k].marker
    decreases o - k
  {
    hide Settled, Flags, WellPaired, Closes;
    if k < o - 1 {
      assert !Break(ds, sc.ds, k);
      SameMarker(ds, sc, o, k + 1);
    }
  }

  // ---------------------------------------------------------------- one more pair

  lemma PairCloses(out: seq<Delim>, a: nat, o: nat, k: nat)
    requires CanPair(out, a, o)
    ensures Closes(Pair(out, a, o), k) <==> Closes(out, k) || k == o
  {
    hide Covered;
    var next := Pair(out, a, o);
    assert next[a].end == o;
    if Closes(out, k) {
      var x :| 0 <= x < |out| && out[x].end == k;
      assert next[x].end == k;
    }
    if Closes(next, k) && k != o {
      var x :| 0 <= x < |next| && next[x].end == k;
      assert out[x].end == k;
    }
  }

  lemma PairSeparates(ds: seq<Delim>, out: seq<Delim>, a: nat, o: nat, j: nat, e: nat)
    requires CanPair(out, a, o) && |out| == |ds| && e <= o
    ensures Separated(ds, Pair(out, a, o), j, e) <==> Separated(ds, out, j, e)
  {
    hide Closes, Pair, Covered;
    forall k | j <= k < e ensures Break(ds, Pair(out, a, o), k) <==> Break(ds, out, k) {
      PairCloses(out, a, o, k);
    }
  }

  lemma PairEncloses(out: seq<Delim>, a: nat, o: nat, x: int, j: int, e: int)
    requires CanPair(out, a, o) && Enclosed(out, x, j, e)
    ensures Enclosed(Pair(out, a, o), x, j, e)
  {
    hide Covered;
    var y :| x < y < |out| && 0 <= y && y <= j <= out[y].end < e;
    assert Pair(out, a, o)[y].end == out[y].end;
  }

  lemma PairFlags(ds: seq<Delim>, out: seq<Delim>, a: nat, o: nat)
    requires CanPair(out, a, o) && Flags(ds, out)
    ensures Flags(ds, Pair(out, a, o))
  {
    hide Closes, Covered;
    forall j: nat ensures Closes(Pair(out, a, o), j) <==> Closes(out, j) || j == o {
      PairCloses(out, a, o, j);
    }
  }

  /** What is settled stays so when a later delimiter closes a pair. */
  lemma PairSettled(ds: seq<Delim>, out: seq<Delim>, a: nat, o: nat, e: nat)
    requires CanPair(out, a, o) && |out| == |ds| && e < o && Settled(ds, out, e)
    ensures Settled(ds, Pair(out, a, o), e)
  {
    hide Closes, Separated, Enclosed, MayPair, Covered;
    var next := Pair(out, a, o);
    PairCloses(out, a, o, e);
    forall j: nat ensures Separated(ds, next, j, e) <==> Separated(ds, out, j, e) {
      PairSeparates(ds, out, a, o, j, e);
    }
    forall x, j | Enclosed(out, x, j, e) ensures Enclosed(next, x, j, e) {
      PairEncloses(out, a, o, x, j, e);
    }
    assert forall x :: 0 <= x < |next| && next[x].end == e ==> out[x].end == e;
  }

  // ---------------------------------------------------------------- one step

  /** For a delimiter in no pair the rules still see what was collected. */
  lemma MatchIsMay(ds: seq<Delim>, sc: Scan, o: nat, j: nat)
    requires Well(ds, sc, o) && j < o < |ds| && ds[o].close && !Covered(sc.ds, j)
    ensures Matches(sc.ds[j], sc.ds[o].marker, sc.ds[o].open, sc.ds[o].length) <==> MayPair(ds[j], ds[o])
  {
    hide Settled, InRun, NoCrossing;
    NotClosed(sc.ds, o, j);
  }

  lemma NotClosed(out: seq<Delim>, o: nat, j: nat)
    requires PairsForward(out, o) && j < |out| && !Covered(out, j)
    ensures out[j].end == -1 && !Closes(out, j)
  {
    assert forall x :: Paired(out, x) ==> x <= out[x].end;
    assert forall x :: 0 <= x < |out| && out[x].end >= 0 ==> Paired(out, x);
  }

  lemma CoveredIsEnclosed(ds: seq<Delim>, sc: Scan, o: nat, x: int, j: nat)
    requires Reached(ds, sc.ds, o) && o <= |ds| && Covered(sc.ds, j) && x < j && (x >= 0 ==> !Covered(sc.ds, x))
    ensures Enclosed(sc.ds, x, j, o)
  {
    hide NoCrossing;
    var y :| 0 <= y < |sc.ds| && y <= j <= sc.ds[y].end;
    assert Paired(sc.ds, y);
    assert x < y;
  }

  lemma {:induction false} FindNearest(ds: seq<Delim>, from: int, o: nat, j: nat)
    requires from < |ds| && o < |ds| && j <= from
    requires match Find(ds, from, o)
             case None => true
             case Some(a) => a < j
    ensures Covered(ds, j) || !Matches(ds[j], ds[o].marker, ds[o].open, ds[o].length)
    decreases from + 1
  {
    hide Covered, Matches;
    if j < from {
      FindNearest(ds, from - 1, o, j);
    }
  }

  lemma NothingNearer(ds: seq<Delim>, sc: Scan, o: nat, j: nat)
    requires Well(ds, sc, o) && j < o < |ds| && ds[o].close && MayPair(ds[j], ds[o]) && Separated(ds, sc.ds, j, o)
    requires match Find(sc.ds, HeaderAt(sc, o) - 1, o)
             case None => true
             case Some(a) => a < j
    ensures Covered(sc.ds, j)
  {
    hide Find, Covered, Matches, MayPair, Separated, HeaderAt, Well;
    MayRun(ds, sc, o);
    HeaderSeparates(ds, sc, o, j);
    FindNearest(sc.ds, HeaderAt(sc, o) - 1, o, j);
    if !Covered(sc.ds, j) {
      MatchIsMay(ds, sc, o, j);
    }
  }

  lemma AllEnclosed(ds: seq<Delim>, sc: Scan, o: nat, a: int, j: int)
    requires Well(ds, sc, o) && o < |ds| && ds[o].close && -1 <= a < j < o && MayPair(ds[j], ds[o]) && Separated(ds, sc.ds, j, o)
    requires Find(sc.ds, HeaderAt(sc, o) - 1, o) == if a < 0 then None else Some(a)
    requires a >= 0 ==> a < |sc.ds| && !Covered(sc.ds, a)
    ensures Enclosed(sc.ds, a, j, o)
  {
    MayRun(ds, sc, o);
    hide Find, Covered, Matches, MayPair, Separated, Enclosed, HeaderAt, Well, Reached;
    NothingNearer(ds, sc, o, j);
    CoveredIsEnclosed(ds, sc, o, a, j);
  }

  /** What a search finds was rightly found. */
  lemma FoundRightly(ds: seq<Delim>, sc: Scan, o: nat, a: nat)
    requires Well(ds, sc, o) && o < |ds| && ds[o].close && Find(sc.ds, HeaderAt(sc, o) - 1, o) == Some(a)
    ensures Rightly(ds, sc.ds, a, o) && CanPair(sc.ds, a, o)
  {
    FoundIs(ds, sc, o, a);
    hide Find, Covered, Matches, MayPair, Separated, Enclosed, HeaderAt, Well, Reached, CanPair;
    forall j | a < j < o && MayPair(ds[j], ds[o]) && Separated(ds, sc.ds, j, o) ensures Enclosed(sc.ds, a, j, o) {
      AllEnclosed(ds, sc, o, a, j);
    }
  }

  lemma FoundIs(ds: seq<Delim>, sc: Scan, o: nat, a: nat)
    requires Well(ds, sc, o) && o < |ds| && ds[o].close && Find(sc.ds, HeaderAt(sc, o) - 1, o) == Some(a)
    ensures a < o && |sc.ds| == |ds| && !Covered(sc.ds, a) && MayPair(ds[a], ds[o]) && Separated(ds, sc.ds, a, o)
    ensures CanPair(sc.ds, a, o)
  {
    MayRun(ds, sc, o);
    FindInRange(sc.ds, HeaderAt(sc, o) - 1, o);
    HeaderSeparates(ds, sc, o, a);
    MatchIsMay(ds, sc, o, a);
    hide Find, Covered, MayPair, Separated, HeaderAt, NoCrossing, Settled, Flags, InRun;
    FreeOpener(sc.ds, a, o);
  }

  lemma FoundNothing(ds: seq<Delim>, sc: Scan, o: nat)
    requires Well(ds, sc, o) && o < |ds| && ds[o].close && Find(sc.ds, HeaderAt(sc, o) - 1, o) == None
    ensures Forsaken(ds, sc.ds, o)
  {
    hide Find, Covered, Matches, MayPair, Separated, Enclosed, HeaderAt, Well, Reached;
    forall j | 0 <= j < o && MayPair(ds[j], ds[o]) && Separated(ds, sc.ds, j, o) ensures Enclosed(sc.ds, -1, j, o) {
      AllEnclosed(ds, sc, o, -1, j);
    }
  }

  lemma MayRun(ds: seq<Delim>, sc: Scan, o: nat)
    requires Well(ds, sc, o) && o < |ds|
    ensures HeaderAt(sc, o) <= o && |sc.ds| == |ds| && ScanOk(sc, |ds|, o) && Reached(ds, sc.ds, o) && sc.ds[o] == ds[o]
  {
  }

  /** What a step does to the delimiters, and where it leaves the run. */
  lemma StepIs(ds: seq<Delim>, sc: Scan, o: nat)
    requires Well(ds, sc, o) && o < |ds|
    ensures HeaderAt(sc, o) <= o && |sc.ds| == |ds|
    ensures var found := if ds[o].close then Find(sc.ds, HeaderAt(sc, o) - 1, o) else None;
            match found
            case None => Step(sc, o) == Scan(sc.ds, HeaderAt(sc, o), ds[o].token)
            case Some(a) => a < |sc.ds| && Step(sc, o) == Scan(Pair(sc.ds, a, o), HeaderAt(sc, o), -2)
  {
    hide Find, Covered, HeaderAt, Well, Reached, Pair, Matches;
    MayRun(ds, sc, o);
    FindInRange(sc.ds, HeaderAt(sc, o) - 1, o);
  }

  /** One step settles one more delimiter. */
  lemma StepSettled(ds: seq<Delim>, sc: Scan, o: nat, e: nat)
    requires Well(ds, sc, o) && e <= o < |ds|
    ensures Settled(ds, Step(sc, o).ds, e)
  {
    StepIs(ds, sc, o);
    hide Find, Covered, HeaderAt, Closes, Well, Reached, Settled, CanPair, Rightly, Forsaken, Step, Pair;
    var found := if ds[o].close then Find(sc.ds, HeaderAt(sc, o) - 1, o) else None;
    if found.Some? {
      FoundSettled(ds, sc, o, found.value, e);
    } else {
      NotFoundSettled(ds, sc, o, e);
    }
  }

  lemma FoundSettled(ds: seq<Delim>, sc: Scan, o: nat, a: nat, e: nat)
    requires Well(ds, sc, o) && e <= o < |ds| && ds[o].close && Find(sc.ds, HeaderAt(sc, o) - 1, o) == Some(a)
    ensures |sc.ds| == |ds| && a < |ds| && Settled(ds, Pair(sc.ds, a, o), e)
  {
    hide Find, Covered, HeaderAt, Closes, Well, Reached, Settled, CanPair, Rightly, Pair, MayPair, Separated, Matches;
    FoundIs(ds, sc, o, a);
    FoundRightly(ds, sc, o, a);
    EarlierSettled(ds, sc, o, e);
    if e < o {
      PairSettled(ds, sc.ds, a, o, e);
    } else {
      NewPairSettled(ds, sc.ds, a, o);
    }
  }

  lemma NotFoundSettled(ds: seq<Delim>, sc: Scan, o: nat, e: nat)
    requires Well(ds, sc, o) && e <= o < |ds| && (ds[o].close ==> Find(sc.ds, HeaderAt(sc, o) - 1, o) == None)
    ensures Settled(ds, sc.ds, e)
  {
    EarlierSettled(ds, sc, o, e);
    if ds[o].close {
      FoundNothing(ds, sc, o);
    }
    NothingClosed(ds, sc.ds, o);
  }

  lemma EarlierSettled(ds: seq<Delim>, sc: Scan, o: nat, e: nat)
    requires Well(ds, sc, o) && e <= o
    ensures e < o ==> Settled(ds, sc.ds, e)
    ensures !Closes(sc.ds, o)
  {
    ClosedBefore(ds, sc, o, o);
  }

  lemma NothingClosed(ds: seq<Delim>, out: seq<Delim>, o: nat)
    requires o < |ds| && !Closes(out, o) && (!ds[o].close || Forsaken(ds, out, o))
    ensures Settled(ds, out, o)
  {
  }

  lemma NewPairSettled(ds: seq<Delim>, out: seq<Delim>, a: nat, o: nat)
    requires CanPair(out, a, o) && |out| == |ds| && Rightly(ds, out, a, o) && !Closes(out, o)
    ensures Settled(ds, Pair(out, a, o), o)
  {
    hide Separated, Enclosed, MayPair, Covered;
    var next := Pair(out, a, o);
    PairCloses(out, a, o, o);
    forall j: nat ensures Separated(ds, next, j, o) <==> Separated(ds, out, j, o) {
      PairSeparates(ds, out, a, o, j, o);
    }
    forall x, j | Enclosed(out, x, j, o) ensures Enclosed(next, x, j, o) {
      PairEncloses(out, a, o, x, j, o);
    }
    assert forall x :: 0 <= x < |next| && next[x].end == o ==> x == a;
  }

  lemma StepRuns(ds: seq<Delim>, sc: Scan, o: nat)
    requires Well(ds, sc, o) && o < |ds|
    ensures InRun(ds, Step(sc, o), o + 1)
  {
    StepIs(ds, sc, o);
    ClosedBefore(ds, sc, o, o);
    var found := if ds[o].close then Find(sc.ds, HeaderAt(sc, o) - 1, o) else None;
    if found.Some? {
      FoundRightly(ds, sc, o, found.value);
    }
    hide Find, Covered, Step, Pair, CanPair, Rightly, Forsaken, Flags, Settled, WellPaired, Closes;
    forall k: nat | k < o ensures Break(ds, Step(sc, o).ds, k) <==> Break(ds, sc.ds, k) {
      if found.Some? {
        PairCloses(sc.ds, found.value, o, k);
      }
    }
    if found.Some? {
      PairCloses(sc.ds, found.value, o, o);
    }
    RunGoesOn(ds, sc, o);
  }

  /** The run that `o` belongs to begins where the scan says. */
  lemma RunGoesOn(ds: seq<Delim>, sc: Scan, o: nat)
    requires Well(ds, sc, o) && o < |ds|
    ensures var h: nat := HeaderAt(sc, o);
            (forall k :: h <= k < o ==> !Break(ds, sc.ds, k)) && (h > 0 ==> Break(ds, sc.ds, h - 1))
  {
    hide Settled, Flags, WellPaired, Closes;
    if o > 0 {
      SameMarker(ds, sc, o, sc.header);
      assert HeaderAt(sc, o) == o ==> Break(ds, sc.ds, o - 1);
      assert HeaderAt(sc, o) != o ==> !Break(ds, sc.ds, o - 1);
    }
  }

  lemma StepFlags(ds: seq<Delim>, sc: Scan, o: nat)
    requires Well(ds, sc, o) && o < |ds|
    ensures Flags(ds, Step(sc, o).ds)
  {
    StepIs(ds, sc, o);
    var found := if ds[o].close then Find(sc.ds, HeaderAt(sc, o) - 1, o) else None;
    if found.Some? {
      FoundRightly(ds, sc, o, found.value);
      PairFlags(ds, sc.ds, found.value, o);
    }
  }

  lemma {:induction false} PlainWell(ds: seq<Delim>, o: nat)
    requires Unpaired(ds) && o <= |ds|
    ensures Well(ds, Plain(ds, o), o)
    decreases o
  {
    hide Step, Settled, Flags, InRun, Reached;
    PlainReached(ds, o);
    if o == 0 {
      PlainStart(ds);
      Collected(ds);
    } else {
      PlainWell(ds, o - 1);
      PlainNext(ds, o - 1);
      var sc := Plain(ds, o - 1);
      StepFlags(ds, sc, o - 1);
      StepRuns(ds, sc, o - 1);
      var out := Step(sc, o - 1).ds;
      forall e | 0 <= e < o ensures Settled(ds, out, e) {
        StepSettled(ds, sc, o - 1, e);
      }
    }
  }

  lemma Collected(ds: seq<Delim>)
    requires Unpaired(ds)
    ensures Flags(ds, ds) && InRun(ds, Scan(ds, 0, -2), 0)
  {
  }

  /**
    What pairing comes to: every pair obeys the rules, is of two different runs, and encloses nothing free that its
    closer could have been paired with; and a closer without a pair has nothing free before it that it could be paired with.
   */
  lemma PairedRightly(ds: seq<Delim>, e: nat)
    requires Unpaired(ds) && e < |ds|
    ensures Settled(ds, Plain(ds, |ds|).ds, e)
  {
    PlainWell(ds, |ds|);
  }
}
