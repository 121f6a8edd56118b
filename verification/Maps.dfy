/**
  Step maps: how one change moves positions.
 */
module Maps {
  import opened Options

  /** A replaced range: its start and size before, and its size after. */
  datatype Range = Range(start: nat, oldSize: nat, newSize: nat)

  datatype StepMap = StepMap(ranges: seq<Range>, inverted: bool)

  /** What was deleted around a position: the token before it, after it, on both sides, on the side it sticks to. */
  datatype Deleted = Deleted(before: bool, after: bool, across: bool, side: bool) {
    function Or(d: Deleted): Deleted {
      Deleted(before || d.before, after || d.after, across || d.across, side || d.side)
    }
  }

  const NOTHING := Deleted(false, false, false, false)

  datatype MapResult = MapResult(pos: int, deleted: Deleted, recover: Option<nat>)

  const FACTOR: nat := 0x1_0000

  function MakeRecover(index: nat, offset: nat): nat {
    index + offset * FACTOR
  }

  function RecoverIndex(value: nat): nat {
    value % FACTOR
  }

  function RecoverOffset(value: nat): int {
    (value - value % FACTOR) / FACTOR
  }

  function From(m: StepMap, i: nat): nat
    requires i < |m.ranges|
  {
    if m.inverted then m.ranges[i].newSize else m.ranges[i].oldSize
  }

  function To(m: StepMap, i: nat): nat
    requires i < |m.ranges|
  {
    if m.inverted then m.ranges[i].oldSize else m.ranges[i].newSize
  }

  /** Maps a position, given the ranges before the `i`th and the shift they caused. */
  function MapFrom(m: StepMap, i: nat, diff: int, pos: int, assoc: int): MapResult
    requires i <= |m.ranges|
    decreases |m.ranges| - i
  {
    if i == |m.ranges| then MapResult(pos + diff, NOTHING, None)
    else
      var start := m.ranges[i].start - (if m.inverted then diff else 0);
      if start > pos then MapResult(pos + diff, NOTHING, None)
      else
        var end := start + From(m, i);
        if pos <= end then MapWithin(i, start, end, start + diff, To(m, i), pos, assoc)
        else MapFrom(m, i + 1, diff + To(m, i) - From(m, i), pos, assoc)
  }

  /** Maps a position that lies in the `i`th range, which goes from `start` to `end` and moves to `target`. */
  function MapWithin(i: nat, start: int, end: int, target: int, newSize: nat, pos: int, assoc: int): MapResult
    requires start <= pos <= end
  {
    var side := if start == end then assoc else if pos == start then -1 else if pos == end then 1 else assoc;
    var result := target + if side < 0 then 0 else newSize;
    var recover := if pos == (if assoc < 0 then start else end) then None else Some(MakeRecover(i, pos - start));
    var stays := if assoc < 0 then pos == start else pos == end;
    MapResult(result, Deleted(pos == end && pos != start, pos == start, pos != start && pos != end, !stays), recover)
  }

  function MapPos(m: StepMap, pos: int, assoc: int): MapResult {
    MapFrom(m, 0, 0, pos, assoc)
  }

  function Invert(m: StepMap): StepMap {
    StepMap(m.ranges, !m.inverted)
  }

  /** How much the first `i` ranges grew. */
  function Growth(ranges: seq<Range>, i: nat): int
    requires i <= |ranges|
  {
    if i == 0 then 0 else Growth(ranges, i - 1) + ranges[i - 1].newSize - ranges[i - 1].oldSize
  }

  /** The position a recover value stands for, on the other side of the map. */
  function Recover(m: StepMap, value: nat): int
    requires RecoverIndex(value) < |m.ranges|
  {
    var i := RecoverIndex(value);
    m.ranges[i].start + (if m.inverted then 0 else Growth(m.ranges, i)) + RecoverOffset(value)
  }

  /** Ranges in order, and few enough to number in a recover value. */
  ghost predicate Ordered(m: StepMap) {
    && |m.ranges| <= FACTOR
    && forall i :: 0 < i < |m.ranges| ==> m.ranges[i - 1].start + m.ranges[i - 1].oldSize <= m.ranges[i].start
  }

  /** A range that begins where the one before it ends. */
  predicate Touches(m: StepMap, i: nat)
    requires i < |m.ranges|
  {
    i > 0 && m.ranges[i - 1].start + m.ranges[i - 1].oldSize == m.ranges[i].start
  }

  /** Something that is only deleted, directly behind another range. */
  predicate DeletesBehind(m: StepMap, i: nat)
    requires i < |m.ranges|
  {
    Touches(m, i) && From(m, i) > 0 && To(m, i) == 0
  }

  /** Positions that stick to what is behind them do not come back from there. */
  ghost predicate Reversible(m: StepMap, assoc: int) {
    assoc < 0 || forall i :: 0 <= i < |m.ranges| ==> !DeletesBehind(m, i)
  }

  // ---------------------------------------------------------------- one map and its inverse

  function Shift(m: StepMap, i: nat): int
    requires i <= |m.ranges|
  {
    if m.inverted then -Growth(m.ranges, i) else Growth(m.ranges, i)
  }

  /** The start of a range on the side positions come from. */
  function StartOf(m: StepMap, i: nat): int
    requires i < |m.ranges|
  {
    m.ranges[i].start - if m.inverted then Shift(m, i) else 0
  }

  lemma ShiftNext(m: StepMap, i: nat)
    requires i < |m.ranges|
    ensures Shift(m, i + 1) == Shift(m, i) + To(m, i) - From(m, i)
    ensures StartOf(Invert(m), i) == StartOf(m, i) + Shift(m, i)
    ensures Shift(Invert(m), i) == -Shift(m, i)
  {
  }

  lemma StartsApart(m: StepMap, i: nat)
    requires Ordered(m) && 0 < i < |m.ranges|
    ensures StartOf(m, i - 1) + From(m, i - 1) <= StartOf(m, i)
    ensures StartOf(m, i - 1) + From(m, i - 1) == StartOf(m, i) <==> Touches(m, i)
  {
  }

  lemma MapCases(m: StepMap, i: nat, pos: int, assoc: int)
    requires i < |m.ranges|
    ensures var start, end := StartOf(m, i), StartOf(m, i) + From(m, i);
            MapFrom(m, i, Shift(m, i), pos, assoc)
            == if pos < start then MapResult(pos + Shift(m, i), NOTHING, None)
               else if pos <= end then MapWithin(i, start, end, start + Shift(m, i), To(m, i), pos, assoc)
               else MapFrom(m, i + 1, Shift(m, i + 1), pos, assoc)
  {
    hide MapWithin, Growth;
    ShiftNext(m, i);
  }

  lemma {:induction false} LowerBound(m: StepMap, i: nat, pos: int, assoc: int)
    requires Ordered(m) && i <= |m.ranges|
    ensures i < |m.ranges| && StartOf(m, i) <= pos ==> MapFrom(m, i, Shift(m, i), pos, assoc).pos >= StartOf(m, i) + Shift(m, i)
    ensures i == |m.ranges| || pos < StartOf(m, i) ==> MapFrom(m, i, Shift(m, i), pos, assoc).pos == pos + Shift(m, i)
    decreases |m.ranges| - i
  {
    if i < |m.ranges| {
      hide MapFrom, Growth, Shift, StartOf, From, To;
      MapCases(m, i, pos, assoc);
      ShiftNext(m, i);
      LowerBound(m, i + 1, pos, assoc);
      if i + 1 < |m.ranges| {
        StartsApart(m, i + 1);
      }
    }
  }

  /** Past the end of a range, the result is not before the end of what that range became. */
  lemma BeyondRange(m: StepMap, i: nat, pos: int, assoc: int)
    requires Ordered(m) && i < |m.ranges| && StartOf(m, i) + From(m, i) < pos
    ensures MapFrom(m, i + 1, Shift(m, i + 1), pos, assoc).pos >= StartOf(m, i) + Shift(m, i) + To(m, i)
  {
    hide MapFrom, Growth, Shift, StartOf, From, To;
    ShiftNext(m, i);
    LowerBound(m, i + 1, pos, assoc);
    if i + 1 < |m.ranges| {
      StartsApart(m, i + 1);
    }
  }

  /** Mapping keeps positions in order. */
  lemma {:induction false} MapMonotone(m: StepMap, i: nat, p: int, q: int, assoc: int)
    requires Ordered(m) && i <= |m.ranges| && p <= q
    ensures MapFrom(m, i, Shift(m, i), p, assoc).pos <= MapFrom(m, i, Shift(m, i), q, assoc).pos
    decreases |m.ranges| - i
  {
    if i < |m.ranges| {
      hide MapFrom, Growth, Shift, StartOf, From, To;
      MapCases(m, i, p, assoc);
      MapCases(m, i, q, assoc);
      LowerBound(m, i, q, assoc);
      var end := StartOf(m, i) + From(m, i);
      if end < p {
        MapMonotone(m, i + 1, p, q, assoc);
      } else if end < q {
        BeyondRange(m, i, q, assoc);
      }
    }
  }

  /** Within a range, going there and back ends where it began, unless a recover value is given. */
  lemma WithinInverse(m: StepMap, i: nat, pos: int, assoc: int)
    requires i < |m.ranges| && i < FACTOR && StartOf(m, i) <= pos <= StartOf(m, i) + From(m, i)
    ensures var r := MapFrom(m, i, Shift(m, i), pos, assoc);
            match r.recover
            case None => MapFrom(Invert(m), i, -Shift(m, i), r.pos, assoc).pos == pos
            case Some(value) => RecoverIndex(value) < |m.ranges| && Recover(Invert(m), value) == pos
  {
    hide MapFrom, Growth, RecoverIndex, RecoverOffset, MakeRecover;
    MapCases(m, i, pos, assoc);
    ShiftNext(m, i);
    var r := MapFrom(m, i, Shift(m, i), pos, assoc);
    if r.recover.Some? {
      RecoverMade(i, pos - StartOf(m, i));
    } else {
      MapCases(Invert(m), i, r.pos, assoc);
    }
  }

  /** Where the map is reversible, such a result is past that end, unless a recover value is given. */
  lemma {:induction false} WellBeyondRange(m: StepMap, i: nat, pos: int, assoc: int)
    requires Ordered(m) && Reversible(m, assoc) && i < |m.ranges| && StartOf(m, i) + From(m, i) < pos
    ensures var r := MapFrom(m, i + 1, Shift(m, i + 1), pos, assoc);
            r.recover.Some? || r.pos > StartOf(m, i) + Shift(m, i) + To(m, i)
    decreases |m.ranges| - i
  {
    hide MapFrom, Growth, Shift, StartOf, From, To, Touches;
    ShiftNext(m, i);
    if i + 1 < |m.ranges| {
      StartsApart(m, i + 1);
      ShiftNext(m, i + 1);
      MapCases(m, i + 1, pos, assoc);
      if StartOf(m, i + 1) + From(m, i + 1) < pos {
        WellBeyondRange(m, i + 1, pos, assoc);
      } else if StartOf(m, i + 1) <= pos {
        assert !(assoc >= 0 && DeletesBehind(m, i + 1));
        ToIsNat(m, i + 1);
      }
    } else {
      NoMoreRanges(m, i + 1, pos, assoc);
    }
  }

  lemma ToIsNat(m: StepMap, i: nat)
    requires i < |m.ranges|
    ensures To(m, i) >= 0 && From(m, i) >= 0
  {
  }

  lemma NoMoreRanges(m: StepMap, i: nat, pos: int, assoc: int)
    requires i == |m.ranges|
    ensures MapFrom(m, i, Shift(m, i), pos, assoc) == MapResult(pos + Shift(m, i), NOTHING, None)
  {
  }

  /** The inverse map undoes the map, unless the position was inside a replaced range; then its recover value does. */
  lemma {:induction false} InverseFrom(m: StepMap, i: nat, pos: int, assoc: int)
    requires Ordered(m) && Reversible(m, assoc) && i <= |m.ranges|
    ensures var r := MapFrom(m, i, Shift(m, i), pos, assoc);
            match r.recover
            case None => MapFrom(Invert(m), i, -Shift(m, i), r.pos, assoc).pos == pos
            case Some(value) => RecoverIndex(value) < |m.ranges| && Recover(Invert(m), value) == pos
    decreases |m.ranges| - i
  {
    if i < |m.ranges| {
      hide MapFrom, Growth, Shift, StartOf, RecoverIndex, RecoverOffset, MakeRecover, MapWithin, Recover, Reversible;
      var r := MapFrom(m, i, Shift(m, i), pos, assoc);
      MapCases(m, i, pos, assoc);
      ShiftNext(m, i);
      if StartOf(m, i) + From(m, i) < pos {
        InverseFrom(m, i + 1, pos, assoc);
        WellBeyondRange(m, i, pos, assoc);
        ShiftNext(Invert(m), i);
        MapCases(Invert(m), i, r.pos, assoc);
      } else if StartOf(m, i) <= pos {
        WithinInverse(m, i, pos, assoc);
      } else {
        MapCases(Invert(m), i, r.pos, assoc);
      }
    }
  }

  lemma RecoverMade(index: nat, offset: nat)
    requires index < FACTOR
    ensures RecoverIndex(MakeRecover(index, offset)) == index
    ensures RecoverOffset(MakeRecover(index, offset)) == offset
  {
  }

  // ---------------------------------------------------------------- exactly when

  /** The position comes back through the inverse map, or by its recover value. */
  ghost predicate ComesBack(m: StepMap, pos: int, assoc: int) {
    var r := MapPos(m, pos, assoc);
    match r.recover
    case None => MapPos(Invert(m), r.pos, assoc).pos == pos
    case Some(value) => RecoverIndex(value) < |m.ranges| && Recover(Invert(m), value) == pos
  }

  /** A recover value always brings its position back. */
  lemma RecoveredComesBack(m: StepMap, pos: int, assoc: int)
    requires Ordered(m) && MapPos(m, pos, assoc).recover.Some?
    ensures ComesBack(m, pos, assoc)
  {
    hide MapFrom, Recover, Growth;
    NoShift(m);
    RecoveredFrom(m, 0, pos, assoc);
  }

  lemma {:induction false} RecoveredFrom(m: StepMap, i: nat, pos: int, assoc: int)
    requires Ordered(m) && i <= |m.ranges| && MapFrom(m, i, Shift(m, i), pos, assoc).recover.Some?
    ensures var value := MapFrom(m, i, Shift(m, i), pos, assoc).recover.value;
            RecoverIndex(value) < |m.ranges| && Recover(Invert(m), value) == pos
    decreases |m.ranges| - i
  {
    if i == |m.ranges| {
      NoMoreRanges(m, i, pos, assoc);
    } else {
      hide MapFrom, Growth, Shift, StartOf, RecoverIndex, RecoverOffset, MakeRecover, MapWithin, Recover;
      MapCases(m, i, pos, assoc);
      if StartOf(m, i) + From(m, i) < pos {
        RecoveredFrom(m, i + 1, pos, assoc);
      } else {
        WithinInverse(m, i, pos, assoc);
      }
    }
  }

  /** A position past the ranges before is mapped by the ranges from there on. */
  lemma {:induction false} PastRanges(m: StepMap, i: nat, j: nat, pos: int, assoc: int)
    requires Ordered(m) && i <= j <= |m.ranges| && (j > 0 ==> StartOf(m, j - 1) + From(m, j - 1) < pos)
    ensures MapFrom(m, i, Shift(m, i), pos, assoc) == MapFrom(m, j, Shift(m, j), pos, assoc)
    decreases j - i
  {
    if i < j {
      hide MapFrom, Growth, Shift, StartOf, From, To, MapWithin;
      EndsInOrder(m, i, j - 1);
      MapCases(m, i, pos, assoc);
      ToIsNat(m, i);
      PastRanges(m, i + 1, j, pos, assoc);
    }
  }

  lemma {:induction false} EndsInOrder(m: StepMap, i: nat, j: nat)
    requires Ordered(m) && i <= j < |m.ranges|
    ensures StartOf(m, i) + From(m, i) <= StartOf(m, j) + From(m, j)
    decreases j - i
  {
    if i < j {
      hide StartOf, From, Touches;
      EndsInOrder(m, i, j - 1);
      StartsApart(m, j);
      ToIsNat(m, j);
    }
  }

  /** What maps into an earlier range, or before it, does not come back past its end. */
  lemma {:induction false} StaysBefore(m: StepMap, i: nat, j: nat, pos: int, assoc: int)
    requires Ordered(m) && i <= j < |m.ranges| && pos <= StartOf(m, j) + From(m, j)
    ensures MapFrom(m, i, Shift(m, i), pos, assoc).pos <= StartOf(m, j) + Shift(m, j) + To(m, j)
    decreases j - i
  {
    hide MapFrom, Growth, Shift, StartOf, From, To, Touches;
    MapCases(m, i, pos, assoc);
    TargetsInOrder(m, i, j);
    ToIsNat(m, i);
    if StartOf(m, i) + From(m, i) < pos {
      StaysBefore(m, i + 1, j, pos, assoc);
    }
  }

  lemma {:induction false} TargetsInOrder(m: StepMap, i: nat, j: nat)
    requires Ordered(m) && i <= j < |m.ranges|
    ensures StartOf(m, i) + Shift(m, i) + To(m, i) <= StartOf(m, j) + Shift(m, j) + To(m, j)
    ensures i < j ==> StartOf(m, i) + Shift(m, i) + To(m, i) <= StartOf(m, j) + Shift(m, j)
    decreases j - i
  {
    if i < j {
      hide StartOf, From, To, Touches, Shift;
      TargetsInOrder(m, i, j - 1);
      StartsApart(m, j);
      ShiftNext(m, j - 1);
      ToIsNat(m, j);
    }
  }

  // ---------------------------------------------------------------- where positions go

  /** Between two ranges a position moves by what the ranges before it grew, and nothing is deleted around it. */
  lemma BetweenRanges(m: StepMap, i: nat, pos: int, assoc: int)
    requires Ordered(m) && i <= |m.ranges|
    requires i > 0 ==> StartOf(m, i - 1) + From(m, i - 1) < pos
    requires i < |m.ranges| ==> pos < StartOf(m, i)
    ensures MapPos(m, pos, assoc) == MapResult(pos + Shift(m, i), NOTHING, None)
  {
    hide MapFrom, Growth, Shift, StartOf, From, To, MapWithin;
    NoShift(m);
    PastRanges(m, 0, i, pos, assoc);
    if i < |m.ranges| {
      MapCases(m, i, pos, assoc);
    } else {
      NoMoreRanges(m, i, pos, assoc);
    }
  }

  /** The end of a range goes to the end of what replaced it, with the token before it deleted. */
  lemma EndGoesToEnd(m: StepMap, i: nat, assoc: int)
    requires Ordered(m) && i < |m.ranges| && From(m, i) > 0
    ensures MapPos(m, StartOf(m, i) + From(m, i), assoc)
         == MapResult(StartOf(Invert(m), i) + To(m, i), Deleted(true, false, false, assoc < 0),
                      if assoc < 0 then Some(MakeRecover(i, From(m, i))) else None)
  {
    var pos := StartOf(m, i) + From(m, i);
    hide MapFrom, Growth, Shift, StartOf, From, To, Touches;
    NoShift(m);
    ShiftNext(m, i);
    if i > 0 {
      StartsApart(m, i);
    }
    PastRanges(m, 0, i, pos, assoc);
    MapCases(m, i, pos, assoc);
  }

  /** The start of a range goes to the start of what replaced it, with the token after it deleted. */
  lemma StartGoesToStart(m: StepMap, i: nat, assoc: int)
    requires Ordered(m) && i < |m.ranges| && From(m, i) > 0 && !Touches(m, i)
    ensures MapPos(m, StartOf(m, i), assoc)
         == MapResult(StartOf(Invert(m), i), Deleted(false, true, false, assoc >= 0),
                      if assoc < 0 then None else Some(MakeRecover(i, 0)))
  {
    hide MapFrom, Growth, Shift, StartOf, From, To, Touches;
    NoShift(m);
    ShiftNext(m, i);
    if i > 0 {
      StartsApart(m, i);
    }
    PastRanges(m, 0, i, StartOf(m, i), assoc);
    MapCases(m, i, StartOf(m, i), assoc);
  }

  /** A position inside a replaced range goes where the end of the range goes that is on the side it sticks to. */
  lemma InsideGoesAside(m: StepMap, i: nat, pos: int, assoc: int)
    requires Ordered(m) && i < |m.ranges| && StartOf(m, i) < pos < StartOf(m, i) + From(m, i)
    ensures MapPos(m, pos, assoc).deleted == Deleted(false, false, true, true)
    ensures assoc < 0 ==> MapPos(m, pos, assoc).pos == StartOf(Invert(m), i)
    ensures assoc < 0 && !Touches(m, i) ==> MapPos(m, pos, assoc).pos == MapPos(m, StartOf(m, i), assoc).pos
    ensures assoc >= 0 ==> MapPos(m, pos, assoc).pos == StartOf(Invert(m), i) + To(m, i)
                        == MapPos(m, StartOf(m, i) + From(m, i), assoc).pos
  {
    hide MapFrom, Growth, Shift, StartOf, From, To, Touches;
    NoShift(m);
    ShiftNext(m, i);
    if i > 0 {
      StartsApart(m, i);
    }
    PastRanges(m, 0, i, pos, assoc);
    MapCases(m, i, pos, assoc);
    EndGoesToEnd(m, i, assoc);
    if !Touches(m, i) {
      StartGoesToStart(m, i, assoc);
    }
  }

  /** Where something is only inserted, a position goes to the side of it that it sticks to, and nothing is deleted. */
  lemma InsertedAside(m: StepMap, i: nat, assoc: int)
    requires Ordered(m) && i < |m.ranges| && From(m, i) == 0 && !Touches(m, i)
    ensures var r := MapPos(m, StartOf(m, i), assoc);
            && r.pos == StartOf(Invert(m), i) + (if assoc < 0 then 0 else To(m, i))
            && !r.deleted.before && !r.deleted.across && !r.deleted.side && r.recover == None
  {
    hide MapFrom, Growth, Shift, StartOf, From, To, Touches;
    NoShift(m);
    ShiftNext(m, i);
    if i > 0 {
      StartsApart(m, i);
    }
    PastRanges(m, 0, i, StartOf(m, i), assoc);
    MapCases(m, i, StartOf(m, i), assoc);
  }

  lemma InvertedOrdered(m: StepMap)
    requires Ordered(m)
    ensures Ordered(Invert(m))
  {
  }

  /** The end of something deleted directly behind another range is lost: it comes back before it. */
  lemma EndIsLost(m: StepMap, i: nat, assoc: int)
    requires Ordered(m) && assoc >= 0 && i < |m.ranges| && DeletesBehind(m, i)
    ensures !ComesBack(m, StartOf(m, i) + From(m, i), assoc)
  {
    var pos := StartOf(m, i) + From(m, i);
    assert From(m, i) > 0 && To(m, i) == 0 && Touches(m, i);
    hide MapFrom, Growth, Shift, StartOf, From, To, Touches, Recover;
    StartsApart(m, i);
    PastRanges(m, 0, i, pos, assoc);
    NoShift(m);
    MapCases(m, i, pos, assoc);
    var r := MapPos(m, pos, assoc);
    assert r.recover.None? && r.pos == StartOf(m, i) + Shift(m, i);
    InvertedOrdered(m);
    ShiftNext(m, i - 1);
    ShiftNext(Invert(m), i - 1);
    InvertTwice(m, i - 1);
    NoShift(Invert(m));
    StaysBefore(Invert(m), 0, i - 1, r.pos, assoc);
  }

  lemma NoShift(m: StepMap)
    ensures Shift(m, 0) == 0
  {
  }

  lemma InvertTwice(m: StepMap, i: nat)
    requires i < |m.ranges|
    ensures From(Invert(m), i) == To(m, i) && To(Invert(m), i) == From(m, i)
  {
  }

  /** All positions come back exactly when they stick to what is before them, or nothing is deleted directly behind another range. */
  lemma AllComeBack(m: StepMap, assoc: int)
    requires Ordered(m)
    ensures (forall pos: int :: ComesBack(m, pos, assoc)) <==> Reversible(m, assoc)
  {
    hide MapPos, StartOf, From, DeletesBehind, Recover;
    if Reversible(m, assoc) {
      forall pos: int ensures ComesBack(m, pos, assoc) {
        Undone(m, pos, assoc);
      }
    } else {
      var i :| 0 <= i < |m.ranges| && DeletesBehind(m, i);
      EndIsLost(m, i, assoc);
    }
  }

  lemma Undone(m: StepMap, pos: int, assoc: int)
    requires Ordered(m) && Reversible(m, assoc)
    ensures ComesBack(m, pos, assoc)
  {
    hide MapFrom, Recover, Reversible, Growth;
    InverseFrom(m, 0, pos, assoc);
    NoShift(m);
  }
}
