/**
  Pairing emphasis delimiters: the indexed search against a plain leftward scan.
 */
module Delimiters {
  import opened Options

  datatype Delim = Delim(marker: nat, length: nat, token: nat, end: int, open: bool, close: bool)

  /** Section 6.2 of the CommonMark specification, rules 9 and 10 ("multiple of 3"). */
  predicate OddMatch(opener: Delim, closerOpen: bool, closerLength: nat) {
    && (opener.close || closerOpen)
    && (opener.length + closerLength) % 3 == 0
    && (opener.length % 3 != 0 || closerLength % 3 != 0)
  }

  predicate Matches(opener: Delim, marker: nat, closerOpen: bool, closerLength: nat) {
    opener.marker == marker && opener.open && opener.end < 0 && !OddMatch(opener, closerOpen, closerLength)
  }

  /** In a pair already made: one of its two delimiters, or between them. */
  ghost predicate Covered(ds: seq<Delim>, j: int) {
    exists x :: 0 <= x < |ds| && x <= j <= ds[x].end
  }

  /** The nearest delimiter at or left of `a` that is in no pair and can open for the closer `o`. */
  ghost function Find(ds: seq<Delim>, a: int, o: nat): Option<nat>
    requires a < |ds| && o < |ds|
    decreases a + 1
  {
    if a < 0 then None
    else if !Covered(ds, a) && Matches(ds[a], ds[o].marker, ds[o].open, ds[o].length) then Some(a)
    else Find(ds, a - 1, o)
  }

  function Pair(ds: seq<Delim>, a: nat, o: nat): seq<Delim>
    requires a < |ds| && o < |ds|
  {
    ds[o := ds[o].(open := false)][a := ds[a].(end := o, close := false)]
  }

  /** The delimiters so far, the first one of the current run, and the token the run goes on from. */
  datatype Scan = Scan(ds: seq<Delim>, header: nat, last: int)

  ghost predicate ScanOk(sc: Scan, n: nat, o: nat) {
    |sc.ds| == n && (sc.header < o || (o == 0 && sc.header == 0))
  }

  function HeaderAt(sc: Scan, o: nat): nat
    requires o < |sc.ds| && sc.header < |sc.ds|
  {
    if sc.ds[sc.header].marker != sc.ds[o].marker || sc.last != sc.ds[o].token - 1 then o else sc.header
  }

  /** The plain search: each closer looks left from before its run for the nearest free opener. */
  ghost function Step(sc: Scan, o: nat): (r: Scan)
    requires o < |sc.ds| && ScanOk(sc, |sc.ds|, o)
    ensures ScanOk(r, |sc.ds|, o + 1)
  {
    var header := HeaderAt(sc, o);
    if !sc.ds[o].close then Scan(sc.ds, header, sc.ds[o].token)
    else
      match Find(sc.ds, header - 1, o)
      case None => Scan(sc.ds, header, sc.ds[o].token)
      case Some(a) => FindInRange(sc.ds, header - 1, o); Scan(Pair(sc.ds, a, o), header, -2)
  }

  ghost function Plain(ds: seq<Delim>, o: nat): (r: Scan)
    requires o <= |ds|
    ensures ScanOk(r, |ds|, o)
  {
    if o == 0 then Scan(ds, 0, -2) else Step(Plain(ds, o - 1), o - 1)
  }

  lemma {:induction false} FindInRange(ds: seq<Delim>, a: int, o: nat)
    requires a < |ds| && o < |ds|
    ensures var r := Find(ds, a, o);
            match r
            case Some(x) => x <= a && !Covered(ds, x) && Matches(ds[x], ds[o].marker, ds[o].open, ds[o].length)
            case None => forall j :: 0 <= j <= a ==>
              Covered(ds, j) || !Matches(ds[j], ds[o].marker, ds[o].open, ds[o].length)
    decreases a + 1
  {
    if a >= 0 && !(!Covered(ds, a) && Matches(ds[a], ds[o].marker, ds[o].open, ds[o].length)) {
      FindInRange(ds, a - 1, o);
    }
  }

  // ---------------------------------------------------------------- pairs

  /** Freshly collected delimiters are in no pair. */
  predicate Unpaired(ds: seq<Delim>) {
    forall x :: 0 <= x < |ds| ==> ds[x].end == -1
  }

  predicate Paired(ds: seq<Delim>, x: int) {
    0 <= x < |ds| && ds[x].end >= 0
  }

  /** Every pair runs from a delimiter to a later one of the same marker before `o`, which can no longer open. */
  ghost predicate PairsForward(ds: seq<Delim>, o: nat) {
    && (forall x :: 0 <= x < |ds| ==> ds[x].end >= -1)
    && (forall x :: Paired(ds, x) ==>
          x < ds[x].end < o && ds[x].end < |ds| && !ds[ds[x].end].open && ds[ds[x].end].end == -1
          && ds[ds[x].end].marker == ds[x].marker)
  }

  /** No two pairs cross or share a delimiter. */
  ghost predicate NoCrossing(ds: seq<Delim>) {
    forall x, y :: Paired(ds, x) && Paired(ds, y) && x < y ==> ds[y].end < ds[x].end || ds[x].end < y
  }

  ghost predicate WellPaired(ds: seq<Delim>, o: nat) {
    PairsForward(ds, o) && NoCrossing(ds)
  }

  /** A free opener and a later closer that may be paired. */
  ghost predicate CanPair(ds: seq<Delim>, a: nat, o: nat) {
    && a < o < |ds| && ds[a].open && ds[a].end == -1 && !Covered(ds, a) && ds[o].end == -1
    && ds[a].marker == ds[o].marker
  }

  lemma PairForward(ds: seq<Delim>, a: nat, o: nat)
    requires PairsForward(ds, o) && CanPair(ds, a, o)
    ensures PairsForward(Pair(ds, a, o), o + 1)
  {
    hide Covered;
    var r := Pair(ds, a, o);
    forall x | Paired(r, x)
      ensures x < r[x].end < o + 1 && r[x].end < |r| && !r[r[x].end].open && r[r[x].end].end == -1
              && r[r[x].end].marker == r[x].marker
    {
      if x != a {
        assert Paired(ds, x);
      }
    }
  }

  lemma PairUncrossed(ds: seq<Delim>, a: nat, o: nat)
    requires PairsForward(ds, o) && NoCrossing(ds) && CanPair(ds, a, o)
    ensures NoCrossing(Pair(ds, a, o))
  {
    var r := Pair(ds, a, o);
    forall x, y | Paired(r, x) && Paired(r, y) && x < y ensures r[y].end < r[x].end || r[x].end < y {
      if x == a {
        assert Paired(ds, y);
      } else if y == a {
        assert Paired(ds, x);
        assert !(x <= a <= ds[x].end);
      } else {
        assert Paired(ds, x) && Paired(ds, y);
      }
    }
  }

  /** Pairing a free opener with a later closer keeps all this. */
  lemma PairKeeps(ds: seq<Delim>, a: nat, o: nat)
    requires WellPaired(ds, o) && CanPair(ds, a, o)
    ensures WellPaired(Pair(ds, a, o), o + 1)
  {
    hide PairsForward, NoCrossing, Pair, CanPair;
    PairForward(ds, a, o);
    PairUncrossed(ds, a, o);
  }

  /** What a scan has made of the delimiters before `o`; those from `o` on are as they were. */
  ghost predicate Reached(ds0: seq<Delim>, ds: seq<Delim>, o: nat) {
    && |ds| == |ds0|
    && WellPaired(ds, o)
    && (forall j :: o <= j < |ds| ==> ds[j] == ds0[j])
    && (forall j :: 0 <= j < |ds| ==> ds[j].marker == ds0[j].marker && ds[j].length == ds0[j].length && ds[j].token == ds0[j].token)
  }

  lemma {:induction false} PlainReached(ds0: seq<Delim>, o: nat)
    requires Unpaired(ds0) && o <= |ds0|
    ensures Reached(ds0, Plain(ds0, o).ds, o)
    decreases o
  {
    hide Step, Reached;
    if o == 0 {
      UnpairedReached(ds0);
    } else {
      PlainReached(ds0, o - 1);
      StepReached(ds0, Plain(ds0, o - 1), o - 1);
    }
  }

  lemma UnpairedReached(ds: seq<Delim>)
    requires Unpaired(ds)
    ensures Reached(ds, ds, 0)
  {
  }

  lemma StepReached(ds0: seq<Delim>, sc: Scan, o: nat)
    requires Unpaired(ds0) && o < |ds0| && ScanOk(sc, |ds0|, o) && Reached(ds0, sc.ds, o)
    ensures Reached(ds0, Step(sc, o).ds, o + 1)
  {
    hide PairsForward, NoCrossing, Covered, Find;
    var header: int := HeaderAt(sc, o);
    FindInRange(sc.ds, header - 1, o);
    var found := Find(sc.ds, header - 1, o);
    if sc.ds[o].close && found.Some? {
      FreeOpener(sc.ds, found.value, o);
      PairKeeps(sc.ds, found.value, o);
    } else {
      WellPairedLater(sc.ds, o);
    }
  }

  lemma FreeOpener(ds: seq<Delim>, a: nat, o: nat)
    requires WellPaired(ds, o) && a < o < |ds| && ds[o].end == -1
    requires !Covered(ds, a) && Matches(ds[a], ds[o].marker, ds[o].open, ds[o].length)
    ensures CanPair(ds, a, o)
  {
  }

  lemma WellPairedLater(ds: seq<Delim>, o: nat)
    requires WellPaired(ds, o)
    ensures WellPaired(ds, o + 1)
  {
  }

  /** The pairs the plain scan makes never cross. */
  lemma PlainNeverCrosses(ds: seq<Delim>)
    requires Unpaired(ds)
    ensures WellPaired(Plain(ds, |ds|).ds, |ds|)
  {
    PlainReached(ds, |ds|);
  }

  // ---------------------------------------------------------------- the jump table

  /** Will never open for any later closer. */
  ghost predicate Dead(ds: seq<Delim>, j: nat)
    requires j < |ds|
  {
    Covered(ds, j) || !ds[j].open || ds[j].end >= 0
  }

  /** Strictly between the two delimiters of no pair. */
  ghost predicate NotInside(ds: seq<Delim>, a: int) {
    forall x :: Paired(ds, x) ==> !(x < a < ds[x].end)
  }

  /** The delimiters a jump passes over are dead. */
  ghost predicate JumpsDead(ds: seq<Delim>, jumps: seq<nat>) {
    && |jumps| <= |ds|
    && (forall k :: 0 <= k < |jumps| ==> jumps[k] <= k)
    && (forall k, j :: 0 <= k < |jumps| && k - jumps[k] <= j < k ==> Dead(ds, j))
  }

  /** A jump that passes over the end of a pair passes over all of it, and so does the jump from the end itself. */
  ghost predicate JumpsWhole(ds: seq<Delim>, jumps: seq<nat>) {
    && (forall k, x :: 0 <= k < |jumps| && Paired(ds, x) && k - jumps[k] <= ds[x].end < k ==> k - jumps[k] <= x)
    && (forall x :: Paired(ds, x) ==> ds[x].end < |jumps| && ds[x].end - jumps[ds[x].end] <= x)
  }

  /** How far the jumps of a new pair's delimiters reach beyond its opener. */
  function Reach(ds: seq<Delim>, jumps: seq<nat>, a: nat): nat
    requires a <= |jumps| && |jumps| <= |ds|
  {
    if a > 0 && !ds[a - 1].open then jumps[a - 1] + 1 else 0
  }

  function JumpPair(ds: seq<Delim>, jumps: seq<nat>, a: nat, o: nat): seq<nat>
    requires a < o < |jumps| <= |ds|
  {
    jumps[o := o - a + Reach(ds, jumps, a)][a := Reach(ds, jumps, a)]
  }

  lemma CoveredStays(ds: seq<Delim>, a: nat, o: nat, j: int)
    requires CanPair(ds, a, o) && Covered(ds, j)
    ensures Covered(Pair(ds, a, o), j)
  {
    var x :| 0 <= x < |ds| && x <= j <= ds[x].end;
    assert 0 <= x < |Pair(ds, a, o)| && x <= j <= Pair(ds, a, o)[x].end;
  }

  lemma DeadStays(ds: seq<Delim>, a: nat, o: nat, j: nat)
    requires CanPair(ds, a, o) && j < |ds| && Dead(ds, j)
    ensures Dead(Pair(ds, a, o), j)
  {
    hide Covered;
    if Covered(ds, j) {
      CoveredStays(ds, a, o, j);
    }
  }

  lemma BetweenDead(ds: seq<Delim>, a: nat, o: nat, j: nat)
    requires CanPair(ds, a, o) && a <= j < o
    ensures Dead(Pair(ds, a, o), j)
  {
    var r := Pair(ds, a, o);
    assert 0 <= a < |r| && a <= j <= r[a].end;
  }

  lemma PairJumpsDead(ds: seq<Delim>, jumps: seq<nat>, a: nat, o: nat)
    requires CanPair(ds, a, o) && |jumps| == o + 1 && JumpsDead(ds, jumps)
    ensures JumpsDead(Pair(ds, a, o), JumpPair(ds, jumps, a, o))
  {
    hide Dead;
    var r, js := Pair(ds, a, o), JumpPair(ds, jumps, a, o);
    var h := Reach(ds, jumps, a);
    forall k, j | 0 <= k < |js| && k - js[k] <= j < k ensures Dead(r, j) {
      if k == o && a <= j {
        BetweenDead(ds, a, o, j);
      } else if k == o || k == a {
        ReachDead(ds, jumps, a, j);
        DeadStays(ds, a, o, j);
      } else {
        assert Dead(ds, j);
        DeadStays(ds, a, o, j);
      }
    }
  }

  lemma ReachDead(ds: seq<Delim>, jumps: seq<nat>, a: nat, j: nat)
    requires a < |jumps| <= |ds| && JumpsDead(ds, jumps) && a - Reach(ds, jumps, a) <= j < a
    ensures Dead(ds, j)
  {
    if j < a - 1 {
      assert (a - 1) - jumps[a - 1] <= j < a - 1;
    }
  }

  lemma PairJumpsWhole(ds: seq<Delim>, jumps: seq<nat>, a: nat, o: nat)
    requires CanPair(ds, a, o) && |jumps| == o + 1 && WellPaired(ds, o) && JumpsWhole(ds, jumps) && JumpsDead(ds, jumps)
    ensures JumpsWhole(Pair(ds, a, o), JumpPair(ds, jumps, a, o))
  {
    hide JumpsDead, Dead;
    var r, js := Pair(ds, a, o), JumpPair(ds, jumps, a, o);
    forall k, x | 0 <= k < |js| && Paired(r, x) && k - js[k] <= r[x].end < k ensures k - js[k] <= x {
      if x != a {
        assert Paired(ds, x);
        assert !(x <= a <= ds[x].end);
        if ds[x].end < a && (k == o || k == a) {
          ReachWhole(ds, jumps, a, x);
        }
      }
    }
    forall x | Paired(r, x) ensures r[x].end < |js| && r[x].end - js[r[x].end] <= x {
      if x != a {
        assert Paired(ds, x);
      }
    }
  }

  lemma ReachWhole(ds: seq<Delim>, jumps: seq<nat>, a: nat, x: int)
    requires a < |jumps| <= |ds| && JumpsWhole(ds, jumps) && Paired(ds, x)
    requires a - Reach(ds, jumps, a) <= ds[x].end < a
    ensures a - Reach(ds, jumps, a) <= x
  {
    if ds[x].end < a - 1 {
      assert (a - 1) - jumps[a - 1] <= ds[x].end < a - 1;
    }
  }

  /** Jumping loses no opener, and lands outside every pair again. */
  lemma JumpFinds(ds: seq<Delim>, jumps: seq<nat>, a: nat, o: nat)
    requires a < |jumps| && o < |ds| && JumpsDead(ds, jumps) && JumpsWhole(ds, jumps) && NotInside(ds, a)
    requires !Matches(ds[a], ds[o].marker, ds[o].open, ds[o].length)
    ensures Find(ds, a, o) == Find(ds, a - jumps[a] - 1, o)
    ensures NotInside(ds, a - jumps[a] - 1)
  {
    hide Covered, Matches;
    SkipDead(ds, a - 1, a - jumps[a] - 1, o);
    forall x | Paired(ds, x) ensures !(x < a - jumps[a] - 1 < ds[x].end) {
      assert !(x < a < ds[x].end);
    }
  }

  lemma {:induction false} SkipDead(ds: seq<Delim>, from: int, to: int, o: nat)
    requires -1 <= to <= from < |ds| && o < |ds|
    requires forall j :: to < j <= from ==> Dead(ds, j)
    ensures Find(ds, from, o) == Find(ds, to, o)
    decreases from - to
  {
    if to < from {
      assert Dead(ds, from);
      SkipDead(ds, from - 1, to, o);
    }
  }

  lemma FoundAtOnce(ds: seq<Delim>, a: nat, o: nat)
    requires a < o < |ds| && WellPaired(ds, o) && NotInside(ds, a)
    requires Matches(ds[a], ds[o].marker, ds[o].open, ds[o].length)
    ensures !Covered(ds, a) && Find(ds, a, o) == Some(a)
  {
    forall x | 0 <= x < |ds| ensures !(x <= a <= ds[x].end) {
      assert Paired(ds, x) ==> !(x < a < ds[x].end);
    }
  }

  // ---------------------------------------------------------------- the bottoms

  /** Closers of one class: same marker, same ability to open, same length modulo 3. */
  function Class(d: Delim): (c: nat)
    ensures c < 6
  {
    (if d.open then 3 else 0) + d.length % 3
  }

  lemma OddByClass(f: Delim, open: bool, length: nat)
    ensures OddMatch(f, open, length) == OddMatch(f, open, length % 3)
  {
  }

  /** No closer of the class will find an opener here. */
  ghost predicate Hopeless(ds: seq<Delim>, j: nat, marker: nat, c: nat)
    requires j < |ds|
  {
    Covered(ds, j) || !Matches(ds[j], marker, c >= 3, c % 3)
  }

  ghost predicate BottomsOk(ds: seq<Delim>, bottoms: map<nat, seq<int>>) {
    forall m :: m in bottoms ==>
      |bottoms[m]| == 6
      && forall c :: 0 <= c < 6 ==> -1 <= bottoms[m][c] < |ds| && forall j :: 0 <= j <= bottoms[m][c] ==> Hopeless(ds, j, m, c)
  }

  lemma HopelessStays(ds: seq<Delim>, a: nat, o: nat, j: nat, m: nat, c: nat)
    requires CanPair(ds, a, o) && j < |ds| && Hopeless(ds, j, m, c)
    ensures Hopeless(Pair(ds, a, o), j, m, c)
  {
    hide Covered, OddMatch;
    if Covered(ds, j) {
      CoveredStays(ds, a, o, j);
    } else if j == a {
      BetweenCovered(ds, a, o);
    }
  }

  lemma BetweenCovered(ds: seq<Delim>, a: nat, o: nat)
    requires CanPair(ds, a, o)
    ensures Covered(Pair(ds, a, o), a)
  {
    var r := Pair(ds, a, o);
    assert 0 <= a < |r| && a <= a <= r[a].end;
  }

  lemma PairBottoms(ds: seq<Delim>, bottoms: map<nat, seq<int>>, a: nat, o: nat)
    requires CanPair(ds, a, o) && BottomsOk(ds, bottoms)
    ensures BottomsOk(Pair(ds, a, o), bottoms)
  {
    hide Hopeless, Covered;
    var r := Pair(ds, a, o);
    forall m, c, j | m in bottoms && 0 <= c < 6 && 0 <= j <= bottoms[m][c] ensures Hopeless(r, j, m, c) {
      HopelessStays(ds, a, o, j, m, c);
    }
  }

  /** At or below its bottom a closer finds nothing. */
  lemma {:induction false} NothingBelow(ds: seq<Delim>, bottoms: map<nat, seq<int>>, a: int, o: nat)
    requires o < |ds| && ds[o].marker in bottoms && BottomsOk(ds, bottoms)
    requires a <= bottoms[ds[o].marker][Class(ds[o])]
    ensures a < |ds| && Find(ds, a, o) == None
    decreases a + 1
  {
    hide Covered, OddMatch;
    if a >= 0 {
      assert Hopeless(ds, a, ds[o].marker, Class(ds[o]));
      OddByClass(ds[a], ds[o].open, ds[o].length);
      OddByClass(ds[a], ds[o].open, Class(ds[o]) % 3);
      ClassParts(ds[o]);
      NothingBelow(ds, bottoms, a - 1, o);
    }
  }

  lemma ClassParts(d: Delim)
    ensures (Class(d) >= 3) == d.open && Class(d) % 3 == d.length % 3
  {
  }

  /** A failed search raises the bottom of its class. */
  lemma RaiseBottom(ds: seq<Delim>, bottoms: map<nat, seq<int>>, c: int, o: nat)
    requires o < |ds| && ds[o].marker in bottoms && BottomsOk(ds, bottoms)
    requires -1 <= c < |ds| && Find(ds, c, o) == None
    ensures var m, k := ds[o].marker, Class(ds[o]);
            BottomsOk(ds, bottoms[m := bottoms[m][k := c]])
  {
    hide Covered, OddMatch;
    var m, k := ds[o].marker, Class(ds[o]);
    FindInRange(ds, c, o);
    ClassParts(ds[o]);
    forall j | 0 <= j <= c ensures Hopeless(ds, j, m, k) {
      OddByClass(ds[j], ds[o].open, ds[o].length);
    }
  }

  // ---------------------------------------------------------------- the search in place

  /** What the tables and the run header are kept to, before delimiter `o` is looked at. */
  ghost predicate Tables(ds: seq<Delim>, jumps: seq<nat>, bottoms: map<nat, seq<int>>, r: nat, u: int, o: nat) {
    && |jumps| == o <= |ds|
    && JumpsDead(ds, jumps) && JumpsWhole(ds, jumps) && BottomsOk(ds, bottoms)
    && (u != -2 ==> r < o && jumps[r] == 0 && forall x :: Paired(ds, x) ==> ds[x].end < r)
  }

  lemma PushJump(ds: seq<Delim>, jumps: seq<nat>)
    requires |jumps| < |ds| && JumpsDead(ds, jumps) && JumpsWhole(ds, jumps)
    ensures JumpsDead(ds, jumps + [0]) && JumpsWhole(ds, jumps + [0])
  {
    hide Dead;
  }

  const NO_BOTTOMS: seq<int> := [-1, -1, -1, -1, -1, -1]

  lemma NoBottoms(ds: seq<Delim>, bottoms: map<nat, seq<int>>, m: nat)
    requires BottomsOk(ds, bottoms)
    ensures BottomsOk(ds, bottoms[m := NO_BOTTOMS])
  {
    hide Hopeless;
  }

  lemma TablesStart(ds: seq<Delim>)
    requires Unpaired(ds)
    ensures Tables(ds, [], map[], 0, -2, 0)
  {
  }

  /** No pair ends in the run, and the run's first delimiter has no jump. */
  lemma HeaderTables(ds: seq<Delim>, jumps: seq<nat>, bottoms: map<nat, seq<int>>, sc: Scan, o: nat)
    requires o < |ds| && sc.ds == ds && ScanOk(sc, |ds|, o) && WellPaired(ds, o)
    requires Tables(ds, jumps, bottoms, sc.header, sc.last, o)
    ensures var r := HeaderAt(sc, o);
            && r <= o && (jumps + [0])[r] == 0 && NotInside(ds, r - 1)
            && forall x :: Paired(ds, x) ==> ds[x].end < r
  {
    hide JumpsDead, JumpsWhole, BottomsOk, NoCrossing;
  }

  ghost predicate TablesOk(ds: seq<Delim>, jumps: seq<nat>, bottoms: map<nat, seq<int>>) {
    JumpsDead(ds, jumps) && JumpsWhole(ds, jumps) && BottomsOk(ds, bottoms)
  }

  /** The tables after a pair is made. */
  lemma TablesPaired(ds: seq<Delim>, jumps: seq<nat>, bottoms: map<nat, seq<int>>, a: nat, o: nat)
    requires CanPair(ds, a, o) && |jumps| == o + 1 && WellPaired(ds, o) && TablesOk(ds, jumps, bottoms)
    ensures TablesOk(Pair(ds, a, o), JumpPair(ds, jumps, a, o), bottoms)
  {
    hide JumpsDead, JumpsWhole, BottomsOk, Covered, NoCrossing, PairsForward, Reach;
    PairJumpsDead(ds, jumps, a, o);
    PairJumpsWhole(ds, jumps, a, o);
    PairBottoms(ds, bottoms, a, o);
  }

  /** The opener at `a`, reached by jumping from before the run, is the one the plain scan finds. */
  lemma Opens(ds: seq<Delim>, a: nat, o: nat, r: nat)
    requires a < r <= o < |ds| && WellPaired(ds, o) && NotInside(ds, a) && ds[o].end == -1
    requires Find(ds, r - 1, o) == Find(ds, a, o)
    requires Matches(ds[a], ds[o].marker, ds[o].open, ds[o].length)
    ensures CanPair(ds, a, o) && Find(ds, r - 1, o) == Some(a)
  {
    hide Covered, NoCrossing, Find, OddMatch;
    FoundAtOnce(ds, a, o);
    FreeOpener(ds, a, o);
  }

  /**
    Looks for the opener of the closer `o`, whose run starts at `r`: leftwards by jumps,
    down to the bottom of the closer's class.  Pairs the two in place if there is one.
   */
  method PairCloser(t: array<Delim>, i: seq<nat>, e: map<nat, seq<int>>, o: nat, r: nat)
    returns (jumps: seq<nat>, bottoms: map<nat, seq<int>>, matched: bool)
    requires r <= o < t.Length && t[o].end == -1 && |i| == o + 1 && i[r] == 0
    requires WellPaired(t[..], o) && TablesOk(t[..], i, e) && NotInside(t[..], r - 1)
    modifies t
    ensures TablesOk(t[..], jumps, bottoms) && |jumps| == o + 1 && (!matched ==> jumps == i)
    ensures match Find(old(t[..]), r - 1, o)
            case None => !matched && t[..] == old(t[..])
            case Some(a) => a < o && matched && t[..] == Pair(old(t[..]), a, o)
  {
    hide Covered, Dead, JumpsDead, JumpsWhole, BottomsOk, WellPaired, Find, NotInside;
    ghost var ds := t[..];
    jumps, bottoms, matched := i, e, false;
    var s := t[o];
    if s.marker !in bottoms {
      NoBottoms(ds, bottoms, s.marker);
      bottoms := bottoms[s.marker := NO_BOTTOMS];
    }
    BottomsShape(ds, bottoms, s.marker);
    var k := (if s.open then 3 else 0) + s.length % 3;
    var l := bottoms[s.marker][k];
    var a: int := r - i[r] - 1;
    var c := a;
    JumpsShape(ds, i);
    while a > l
      invariant -1 <= a < r && t[..] == ds && c == r - 1 && jumps == i && !matched
      invariant NotInside(ds, a) && Find(ds, r - 1, o) == Find(ds, a, o)
      decreases a
    {
      var f := t[a];
      if CanOpen(f, s) {
        Opens(ds, a, o, r);
        TablesPaired(ds, i, bottoms, a, o);
        var h := if a > 0 && !t[a - 1].open then i[a - 1] + 1 else 0;
        jumps := i[o := o - a + h][a := h];
        t[o] := s.(open := false);
        t[a] := f.(end := o, close := false);
        matched := true;
        assert t[..] == Pair(ds, a, o);
        return;
      }
      JumpFinds(ds, i, a, o);
      a := a - (i[a] + 1);
    }
    NothingBelow(ds, bottoms, a, o);
    if c != -1 {
      RaiseBottom(ds, bottoms, c, o);
      bottoms := bottoms[s.marker := bottoms[s.marker][k := c]];
    }
  }

  predicate CanOpen(f: Delim, s: Delim)
    ensures CanOpen(f, s) == Matches(f, s.marker, s.open, s.length)
  {
    && f.marker == s.marker && f.open && f.end < 0
    && !((f.close || s.open) && (f.length + s.length) % 3 == 0 && (f.length % 3 != 0 || s.length % 3 != 0))
  }

  /** Pairs each closer with its opener, in place, skipping what the tables show cannot match. */
  method BalancePairs(t: array<Delim>)
    requires Unpaired(t[..])
    modifies t
    ensures t[..] == Plain(old(t[..]), t.Length).ds
  {
    hide Covered, JumpsDead, JumpsWhole, BottomsOk, NoCrossing, PairsForward, Find, Plain, NotInside, Pair;
    ghost var ds0 := t[..];
    var e: map<nat, seq<int>> := map[];
    var n := t.Length;
    var r: nat, u: int := 0, -2;
    var i: seq<nat> := [];
    TablesStart(ds0);
    PlainReached(ds0, 0);
    PlainStart(ds0);
    var o := 0;
    while o < n
      invariant o <= n
      invariant Plain(ds0, o) == Scan(t[..], r, u) && Reached(ds0, t[..], o)
      invariant Tables(t[..], i, e, r, u, o)
    {
      ghost var ds, sc := t[..], Scan(t[..], r, u);
      var s := t[o];
      PlainNext(ds0, o);
      HeaderTables(ds, i, e, sc, o);
      PushJump(ds, i);
      i := i + [0];
      if t[r].marker != s.marker || u != s.token - 1 {
        r := o;
      }
      u := s.token;
      if s.close {
        var matched;
        i, e, matched := PairCloser(t, i, e, o, r);
        if matched {
          u := -2;
        }
      }
      o := o + 1;
    }
    assert t[..] == Plain(ds0, n).ds;
  }

  lemma PlainStart(ds: seq<Delim>)
    ensures Plain(ds, 0) == Scan(ds, 0, -2)
  {
  }

  lemma PlainNext(ds: seq<Delim>, o: nat)
    requires Unpaired(ds) && o < |ds|
    ensures ScanOk(Plain(ds, o), |ds|, o)
    ensures Plain(ds, o + 1) == Step(Plain(ds, o), o)
    ensures Reached(ds, Plain(ds, o + 1).ds, o + 1)
  {
    PlainReached(ds, o + 1);
  }

  lemma BottomsShape(ds: seq<Delim>, bottoms: map<nat, seq<int>>, m: nat)
    requires BottomsOk(ds, bottoms) && m in bottoms
    ensures |bottoms[m]| == 6 && forall c :: 0 <= c < 6 ==> -1 <= bottoms[m][c] < |ds|
  {
  }

  lemma JumpsShape(ds: seq<Delim>, jumps: seq<nat>)
    requires JumpsDead(ds, jumps)
    ensures forall k :: 0 <= k < |jumps| ==> jumps[k] <= k
  {
  }
}
