/**
  Mappings: sequences of step maps in which some are the mirror images of others.
 */
module Mappings {
  import opened Options
  import opened Maps

  /** The map that mirrors map `e`, from a table that lists mirrored pairs one after the other. */
  function MirrorOf(mirror: seq<nat>, e: nat, n: nat := 0): (r: Option<nat>)
    requires n <= |mirror|
    decreases |mirror| - n
  {
    if n == |mirror| then None
    else if mirror[n] == e then
      var other := if n % 2 == 1 then n - 1 else n + 1;
      if other < |mirror| then Some(mirror[other]) else None
    else MirrorOf(mirror, e, n + 1)
  }

  /** Maps that mirror each other replace the same ranges. */
  ghost predicate Mirrored(maps: seq<StepMap>, mirror: seq<nat>) {
    && |mirror| % 2 == 0
    && forall i :: 0 <= i < |maps| ==>
         match MirrorOf(mirror, i)
         case None => true
         case Some(j) => j < |maps| && |maps[j].ranges| == |maps[i].ranges|
  }

  /** A position mapped through `maps[i..to]`, and what was deleted around it on the way. */
  function Through(maps: seq<StepMap>, mirror: seq<nat>, i: nat, to: nat, pos: int, assoc: int, deleted: Deleted)
    : (int, Deleted)
    requires Mirrored(maps, mirror) && to <= |maps|
    decreases if i < to then to - i else 0
  {
    if i >= to then (pos, deleted)
    else
      var r := MapPos(maps[i], pos, assoc);
      var m := MirrorOf(mirror, i);
      if r.recover.Some? && m.Some? && i < m.value < to then
        RecoverInRange(maps[i], pos, assoc);
        Through(maps, mirror, m.value + 1, to, Maps.Recover(maps[m.value], r.recover.value), assoc, deleted)
      else Through(maps, mirror, i + 1, to, r.pos, assoc, deleted.Or(r.deleted))
  }

  lemma RecoverInRange(m: StepMap, pos: int, assoc: int)
    ensures var r := MapPos(m, pos, assoc);
            r.recover.Some? ==> RecoverIndex(r.recover.value) < |m.ranges|
  {
    RecoverInRangeFrom(m, 0, 0, pos, assoc);
  }

  lemma {:induction false} RecoverInRangeFrom(m: StepMap, i: nat, diff: int, pos: int, assoc: int)
    requires i <= |m.ranges|
    ensures var r := MapFrom(m, i, diff, pos, assoc);
            r.recover.Some? ==> RecoverIndex(r.recover.value) < |m.ranges|
    decreases |m.ranges| - i
  {
    if i < |m.ranges| {
      hide RecoverIndex, MakeRecover;
      RecoverInRangeFrom(m, i + 1, diff + To(m, i) - From(m, i), pos, assoc);
      var start := m.ranges[i].start - if m.inverted then diff else 0;
      if start <= pos <= start + From(m, i) {
        IndexKept(i, pos - start);
      }
    }
  }

  lemma IndexKept(index: nat, offset: nat)
    ensures RecoverIndex(MakeRecover(index, offset)) <= index
  {
    assert (index + offset * FACTOR) % FACTOR == index % FACTOR;
  }

  // ---------------------------------------------------------------- without mirrors

  /** Where no map mirrors another, the last map is applied to where the others lead. */
  lemma {:induction false} OneMoreMap(maps: seq<StepMap>, i: nat, n: nat, pos: int, assoc: int, deleted: Deleted)
    requires i < n <= |maps| && Mirrored(maps, [])
    ensures var (p, d) := Through(maps, [], i, n - 1, pos, assoc, deleted);
            var r := MapPos(maps[n - 1], p, assoc);
            Through(maps, [], i, n, pos, assoc, deleted) == (r.pos, d.Or(r.deleted))
    decreases n - i
  {
    hide MapPos;
    if i < n - 1 {
      var r := MapPos(maps[i], pos, assoc);
      OneMoreMap(maps, i + 1, n, r.pos, assoc, deleted.Or(r.deleted));
    }
  }

  /** Then what is reported deleted is what some map reported where the maps before it had led. */
  lemma {:induction false} DeletedOnTheWay(maps: seq<StepMap>, n: nat, pos: int, assoc: int)
    requires n <= |maps| && Mirrored(maps, [])
    ensures var d := Through(maps, [], 0, n, pos, assoc, NOTHING).1;
            && (d.side <==> exists i :: 0 <= i < n && DeletedAt(maps, i, pos, assoc).side)
            && (d.across <==> exists i :: 0 <= i < n && DeletedAt(maps, i, pos, assoc).across)
            && (d.before <==> exists i :: 0 <= i < n && DeletedAt(maps, i, pos, assoc).before)
            && (d.after <==> exists i :: 0 <= i < n && DeletedAt(maps, i, pos, assoc).after)
    decreases n
  {
    if n > 0 {
      hide MapPos, Through, Mirrored;
      DeletedOnTheWay(maps, n - 1, pos, assoc);
      OneMoreMap(maps, 0, n, pos, assoc, NOTHING);
      assert DeletedAt(maps, n - 1, pos, assoc) == MapPos(maps[n - 1], Through(maps, [], 0, n - 1, pos, assoc, NOTHING).0, assoc).deleted;
    }
  }

  /** What the `i`th map reports. */
  function DeletedAt(maps: seq<StepMap>, i: nat, pos: int, assoc: int): Deleted
    requires i < |maps| && Mirrored(maps, [])
  {
    MapPos(maps[i], Through(maps, [], 0, i, pos, assoc, NOTHING).0, assoc).deleted
  }

  // ---------------------------------------------------------------- there and back

  /** The inverses of maps, last first. */
  function Inverses(ms: seq<StepMap>): (r: seq<StepMap>)
    ensures |r| == |ms|
  {
    seq(|ms|, j requires 0 <= j < |ms| => Invert(ms[|ms| - 1 - j]))
  }

  /** The table built by appending to `k` maps the first `n` of their inverses, each as the mirror of its map. */
  function MirrorTable(k: nat, n: nat): (r: seq<nat>)
    requires n <= k
    ensures |r| == 2 * n
  {
    if n == 0 then [] else MirrorTable(k, n - 1) + [k + (n - 1), k - n]
  }

  lemma {:induction false} TableEntries(k: nat, n: nat, j: nat)
    requires j < n <= k
    ensures MirrorTable(k, n)[2 * j] == k + j && MirrorTable(k, n)[2 * j + 1] == k - 1 - j
    decreases n
  {
    if j < n - 1 {
      TableEntries(k, n - 1, j);
    }
  }

  lemma {:induction false} MirrorFound(mirror: seq<nat>, e: nat, n: nat, p: nat)
    requires n <= p < |mirror| && mirror[p] == e && forall q :: n <= q < p ==> mirror[q] != e
    ensures MirrorOf(mirror, e, n) == MirrorOf(mirror, e, p)
    decreases p - n
  {
    if n < p {
      MirrorFound(mirror, e, n + 1, p);
    }
  }

  /** In the full table, the mirror of each map is the one at the same distance from the other end. */
  lemma TableMirrors(k: nat, i: nat)
    requires i < 2 * k
    ensures MirrorOf(MirrorTable(k, k), i) == Some(2 * k - 1 - i)
  {
    hide MirrorTable, MirrorOf;
    var t := MirrorTable(k, k);
    var j := if i < k then k - 1 - i else i - k;
    var p := if i < k then 2 * j + 1 else 2 * j;
    TableEntries(k, k, j);
    forall q | 0 <= q < p ensures t[q] != i {
      var h := q / 2;
      assert q == 2 * h || q == 2 * h + 1;
      TableEntries(k, k, h);
    }
    MirrorFound(t, i, 0, p);
    FoundAt(t, i, p, j);
  }

  lemma FoundAt(t: seq<nat>, e: nat, p: nat, j: nat)
    requires p < |t| && t[p] == e && |t| % 2 == 0 && (p == 2 * j || p == 2 * j + 1)
    ensures MirrorOf(t, e, p) == Some(t[if p == 2 * j then 2 * j + 1 else 2 * j])
  {
  }

  function ThereAndBack(ms: seq<StepMap>): (maps: seq<StepMap>)
    ensures |maps| == 2 * |ms|
  {
    ms + Inverses(ms)
  }

  lemma MapsAt(ms: seq<StepMap>, i: nat)
    requires i < |ms|
    ensures ThereAndBack(ms)[i] == ms[i] && ThereAndBack(ms)[2 * |ms| - 1 - i] == Invert(ms[i])
  {
  }

  lemma ThereAndBackMirrored(ms: seq<StepMap>)
    ensures Mirrored(ThereAndBack(ms), MirrorTable(|ms|, |ms|))
  {
    hide ThereAndBack, MirrorTable, MirrorOf;
    var maps, t := ThereAndBack(ms), MirrorTable(|ms|, |ms|);
    forall i | 0 <= i < |maps|
      ensures var m := MirrorOf(t, i); m.Some? && m.value < |maps| && |maps[m.value].ranges| == |maps[i].ranges|
    {
      TableMirrors(|ms|, i);
      MapsAt(ms, if i < |ms| then i else 2 * |ms| - 1 - i);
    }
  }

  lemma {:induction false} PositionApart(maps: seq<StepMap>, mirror: seq<nat>, i: nat, to: nat, pos: int, assoc: int,
                                         d: Deleted, e: Deleted)
    requires Mirrored(maps, mirror) && to <= |maps|
    ensures Through(maps, mirror, i, to, pos, assoc, d).0 == Through(maps, mirror, i, to, pos, assoc, e).0
    decreases if i < to then to - i else 0
  {
    if i < to {
      hide MapPos, MirrorOf, Mirrored, Maps.Recover;
      var r := MapPos(maps[i], pos, assoc);
      var m := MirrorOf(mirror, i);
      RecoverInRange(maps[i], pos, assoc);
      if r.recover.Some? && m.Some? && i < m.value < to {
        MirrorRanges(maps, mirror, i);
        PositionApart(maps, mirror, m.value + 1, to, Maps.Recover(maps[m.value], r.recover.value), assoc, d, e);
      } else {
        PositionApart(maps, mirror, i + 1, to, r.pos, assoc, d.Or(r.deleted), e.Or(r.deleted));
      }
    }
  }

  lemma MirrorRanges(maps: seq<StepMap>, mirror: seq<nat>, i: nat)
    requires Mirrored(maps, mirror) && i < |maps| && MirrorOf(mirror, i).Some?
    ensures var j := MirrorOf(mirror, i).value; j < |maps| && |maps[j].ranges| == |maps[i].ranges|
  {
  }

  /** A map through which all positions come back. */
  ghost predicate Undoes(m: StepMap, assoc: int) {
    Ordered(m) && Reversible(m, assoc)
  }

  /** A recovered position skips to just after the mirror image. */
  lemma Jump(ms: seq<StepMap>, i: nat, pos: int, assoc: int, d: Deleted)
    requires i < |ms| && Undoes(ms[i], assoc) && MapPos(ms[i], pos, assoc).recover.Some?
    ensures var maps, k := ThereAndBack(ms), |ms|;
            && Mirrored(maps, MirrorTable(k, k))
            && Through(maps, MirrorTable(k, k), i, 2 * k, pos, assoc, d)
               == Through(maps, MirrorTable(k, k), 2 * k - i, 2 * k, pos, assoc, d)
  {
    hide MapPos, MirrorOf, Mirrored, Maps.Recover, Undoes, MirrorTable, ThereAndBack;
    var maps, k := ThereAndBack(ms), |ms|;
    ThereAndBackMirrored(ms);
    TableMirrors(k, i);
    RoundTripOne(ms[i], pos, assoc);
    MapsAt(ms, i);
  }

  /** A map whose mirror image is behind it just maps. */
  lemma Ahead(ms: seq<StepMap>, j: nat, pos: int, assoc: int, d: Deleted)
    requires |ms| <= j < 2 * |ms| || (j < |ms| && MapPos(ms[j], pos, assoc).recover.None?)
    ensures var maps, k := ThereAndBack(ms), |ms|;
            && Mirrored(maps, MirrorTable(k, k))
            && Through(maps, MirrorTable(k, k), j, 2 * k, pos, assoc, d).0
               == Through(maps, MirrorTable(k, k), j + 1, 2 * k, MapPos(maps[j], pos, assoc).pos, assoc, d).0
  {
    hide MapPos, MirrorOf, Mirrored, Maps.Recover, Undoes, MirrorTable, ThereAndBack;
    var maps, k := ThereAndBack(ms), |ms|;
    ThereAndBackMirrored(ms);
    TableMirrors(k, j);
    if j < k {
      MapsAt(ms, j);
    }
    var r := MapPos(maps[j], pos, assoc);
    PositionApart(maps, MirrorTable(k, k), j + 1, 2 * k, r.pos, assoc, d.Or(r.deleted), d);
  }

  /** Mapping from the `i`th map on continues, unchanged, after its mirror image. */
  lemma {:induction false} SkipToMirror(ms: seq<StepMap>, i: nat, pos: int, assoc: int, d: Deleted)
    requires i <= |ms| && forall j :: i <= j < |ms| ==> Undoes(ms[j], assoc)
    ensures var maps, k := ThereAndBack(ms), |ms|;
            && Mirrored(maps, MirrorTable(k, k))
            && Through(maps, MirrorTable(k, k), i, 2 * k, pos, assoc, d).0
               == Through(maps, MirrorTable(k, k), 2 * k - i, 2 * k, pos, assoc, d).0
    decreases |ms| - i
  {
    hide MapPos, MirrorOf, Mirrored, Maps.Recover, Undoes, MirrorTable, ThereAndBack, Through;
    ThereAndBackMirrored(ms);
    if i < |ms| {
      var maps, k := ThereAndBack(ms), |ms|;
      MapsAt(ms, i);
      var r := MapPos(ms[i], pos, assoc);
      if r.recover.Some? {
        Jump(ms, i, pos, assoc, d);
      } else {
        RoundTripOne(ms[i], pos, assoc);
        Ahead(ms, i, pos, assoc, d);
        SkipToMirror(ms, i + 1, r.pos, assoc, d);
        Ahead(ms, 2 * k - 1 - i, r.pos, assoc, d);
      }
    }
  }

  lemma RoundTripOne(m: StepMap, pos: int, assoc: int)
    requires Undoes(m, assoc)
    ensures var r := MapPos(m, pos, assoc);
            match r.recover
            case None => MapPos(Invert(m), r.pos, assoc).pos == pos
            case Some(value) => RecoverIndex(value) < |m.ranges| && Maps.Recover(Invert(m), value) == pos
  {
    hide Reversible;
    InverseFrom(m, 0, pos, assoc);
  }

  /** Through any maps and then their mirrored inverses, every position comes back, deleted or not. */
  lemma RoundTrip(ms: seq<StepMap>, pos: int, assoc: int)
    requires forall m :: m in ms ==> Undoes(m, assoc)
    ensures var maps, k := ThereAndBack(ms), |ms|;
            && Mirrored(maps, MirrorTable(k, k))
            && Through(maps, MirrorTable(k, k), 0, 2 * k, pos, assoc, NOTHING).0 == pos
  {
    SkipToMirror(ms, 0, pos, assoc, NOTHING);
  }

  /** Through the maps and then their mirrored inverses, the position comes back. */
  ghost predicate Returns(ms: seq<StepMap>, pos: int, assoc: int) {
    ThereAndBackMirrored(ms);
    Through(ThereAndBack(ms), MirrorTable(|ms|, |ms|), 0, 2 * |ms|, pos, assoc, NOTHING).0 == pos
  }

  /** A position that the first map loses does not come back, if the other maps lose none. */
  lemma FirstLoses(ms: seq<StepMap>, pos: int, assoc: int)
    requires ms != [] && Ordered(ms[0]) && !ComesBack(ms[0], pos, assoc)
    requires forall j :: 1 <= j < |ms| ==> Undoes(ms[j], assoc)
    ensures !Returns(ms, pos, assoc)
  {
    hide MapPos, MirrorOf, Mirrored, Maps.Recover, Undoes, MirrorTable, ThereAndBack;
    var maps, k := ThereAndBack(ms), |ms|;
    ThereAndBackMirrored(ms);
    MapsAt(ms, 0);
    NotRecovered(ms[0], pos, assoc);
    var r := MapPos(ms[0], pos, assoc);
    hide Through;
    Ahead(ms, 0, pos, assoc, NOTHING);
    SkipToMirror(ms, 1, r.pos, assoc, NOTHING);
    Ahead(ms, 2 * k - 1, r.pos, assoc, NOTHING);
    NoMoreMaps(maps, MirrorTable(k, k), 2 * k, MapPos(Invert(ms[0]), r.pos, assoc).pos, assoc, NOTHING);
  }

  lemma NoMoreMaps(maps: seq<StepMap>, mirror: seq<nat>, i: nat, pos: int, assoc: int, d: Deleted)
    requires Mirrored(maps, mirror) && i == |maps|
    ensures Through(maps, mirror, i, i, pos, assoc, d) == (pos, d)
  {
    hide Mirrored;
  }

  /** What has a recover value comes back by it; so what does not come back has none. */
  lemma NotRecovered(m: StepMap, pos: int, assoc: int)
    requires Ordered(m) && !ComesBack(m, pos, assoc)
    ensures MapPos(m, pos, assoc).recover.None?
  {
    hide MapFrom, Maps.Recover;
    if MapPos(m, pos, assoc).recover.Some? {
      RecoveredComesBack(m, pos, assoc);
    }
  }

  /** From each of the maps on every position comes back exactly when each of the maps loses none. */
  lemma RoundTripExactly(ms: seq<StepMap>, assoc: int)
    requires forall m :: m in ms ==> Ordered(m)
    ensures (forall i: nat, pos: int :: i <= |ms| ==> Returns(ms[i..], pos, assoc)) <==> forall m :: m in ms ==> Reversible(m, assoc)
  {
    hide Ordered, Reversible, Returns, ComesBack;
    if forall m :: m in ms ==> Reversible(m, assoc) {
      forall i: nat, pos: int | i <= |ms| ensures Returns(ms[i..], pos, assoc) {
        AllReturn(ms[i..], pos, assoc);
      }
    } else {
      var m :| m in ms && !Reversible(m, assoc);
      var k :| 0 <= k < |ms| && ms[k] == m;
      var i := LastLosing(ms, k, assoc);
      AllComeBack(ms[i], assoc);
      var pos :| !ComesBack(ms[i], pos, assoc);
      FirstLoses(ms[i..], pos, assoc);
    }
  }

  lemma AllReturn(ms: seq<StepMap>, pos: int, assoc: int)
    requires forall m :: m in ms ==> Undoes(m, assoc)
    ensures Returns(ms, pos, assoc)
  {
    hide Undoes, Through, ThereAndBack, MirrorTable, Mirrored;
    RoundTrip(ms, pos, assoc);
  }

  lemma {:induction false} LastLosing(ms: seq<StepMap>, k: nat, assoc: int) returns (i: nat)
    requires k < |ms| && !Reversible(ms[k], assoc)
    ensures i < |ms| && !Reversible(ms[i], assoc) && forall j :: i < j < |ms| ==> Reversible(ms[j], assoc)
    decreases |ms| - k
  {
    hide Reversible;
    if j :| k < j < |ms| && !Reversible(ms[j], assoc) {
      i := LastLosing(ms, j, assoc);
    } else {
      i := k;
    }
  }

  // ---------------------------------------------------------------- the object

  class Mapping {
    var maps: seq<StepMap>
    var mirror: Option<seq<nat>>
    var from: nat
    var to: nat
    var ownData: bool

    function Table(): seq<nat>
      reads this
    {
      if mirror.Some? then mirror.value else []
    }

    ghost predicate Valid()
      reads this
    {
      to <= |maps| && Mirrored(maps, Table())
    }

    constructor ()
      ensures Valid() && maps == [] && mirror == None && from == 0 && to == 0
    {
      maps, mirror, from, to, ownData := [], None, 0, 0, true;
    }

    /** The same maps and mirrors, of which only those from `start` up to `end` are mapped through. */
    constructor Slice(whole: Mapping, start: nat, end: nat)
      requires whole.Valid() && end <= |whole.maps|
      ensures Valid() && maps == whole.maps && mirror == whole.mirror && from == start && to == end && !ownData
    {
      maps, mirror, from, to, ownData := whole.maps, whole.mirror, start, end, false;
    }

    method SetMirror(e: nat, n: nat)
      modifies this`mirror
      ensures mirror == Some(old(Table()) + [e, n])
    {
      if mirror.None? {
        mirror := Some([]);
      }
      mirror := Some(mirror.value + [e, n]);
    }

    /** Adds a map at the end, as the mirror image of an earlier one if `mirrors` names it. */
    method AppendMap(map_: StepMap, mirrors: Option<nat>)
      modifies this
      ensures maps == old(maps) + [map_] && from == old(from) && to == |maps| && ownData
      ensures mirrors.None? ==> mirror == old(mirror)
      ensures Table() == old(Table()) + if mirrors.Some? then [old(|maps|), mirrors.value] else []
    {
      ownData := true;
      maps := maps + [map_];
      to := |maps|;
      if mirrors.Some? {
        SetMirror(|maps| - 1, mirrors.value);
      }
    }

    method GetMirror(e: nat) returns (r: Option<nat>)
      requires |Table()| % 2 == 0
      ensures r == MirrorOf(Table(), e)
    {
      if mirror.Some? {
        var n := 0;
        while n < |mirror.value|
          invariant n <= |mirror.value|
          invariant MirrorOf(mirror.value, e) == MirrorOf(mirror.value, e, n)
        {
          if mirror.value[n] == e {
            return Some(mirror.value[if n % 2 == 1 then n - 1 else n + 1]);
          }
          n := n + 1;
        }
      }
      return None;
    }

    /** Maps a position, skipping from a map that deleted it to just after the map's mirror image. */
    method MapResult(pos: int, assoc: int) returns (result: int, deleted: Deleted)
      requires Valid()
      ensures (result, deleted) == Through(maps, Table(), from, to, pos, assoc, NOTHING)
    {
      hide MapPos, MirrorOf, Maps.Recover;
      result, deleted := pos, NOTHING;
      var i := from;
      while i < to
        invariant Through(maps, Table(), from, to, pos, assoc, NOTHING)
               == Through(maps, Table(), i, to, result, assoc, deleted)
        decreases if i < to then to - i else 0
      {
        var r := MapPos(maps[i], result, assoc);
        var back := None;
        if r.recover.Some? {
          back := GetMirror(i);
          RecoverInRange(maps[i], result, assoc);
        }
        if back.Some? && i < back.value < to {
          i, result := back.value + 1, Maps.Recover(maps[back.value], r.recover.value);
        } else {
          i, result, deleted := i + 1, r.pos, deleted.Or(r.deleted);
        }
      }
    }

    method Map(pos: int, assoc: int) returns (result: int)
      requires Valid()
      ensures result == Through(maps, Table(), from, to, pos, assoc, NOTHING).0
    {
      if mirror.Some? {
        var deleted;
        result, deleted := MapResult(pos, assoc);
      } else {
        hide MapPos;
        result := pos;
        ghost var deleted := NOTHING;
        var i := from;
        while i < to
          invariant Through(maps, [], from, to, pos, assoc, NOTHING) == Through(maps, [], i, to, result, assoc, deleted)
          decreases if i < to then to - i else 0
        {
          deleted := deleted.Or(MapPos(maps[i], result, assoc).deleted);
          result := MapPos(maps[i], result, assoc).pos;
          i := i + 1;
        }
      }
    }
  }

  /** Maps, and then their inverses, each appended as the mirror image of its map. */
  method AppendBack(ms: seq<StepMap>) returns (m: Mapping)
    ensures fresh(m) && m.Valid() && m.maps == ThereAndBack(ms) && m.Table() == MirrorTable(|ms|, |ms|)
    ensures m.from == 0 && m.to == 2 * |ms|
  {
    hide MirrorOf, Mirrored, Inverses;
    NoneBack(ms);
    m := new Mapping();
    var k, i := |ms|, 0;
    while i < k
      invariant 0 <= i <= k && m.maps == ms[..i] && m.Table() == [] && m.from == 0 && m.to == i && fresh(m)
    {
      m.AppendMap(ms[i], None);
      i := i + 1;
    }
    assert ms[..k] == ms;
    var n := 0;
    while n < k
      invariant 0 <= n <= k && m.maps == ms + Inverses(ms)[..n] && m.Table() == MirrorTable(k, n) && fresh(m)
      invariant m.from == 0 && m.to == k + n
    {
      OneMoreBack(ms, n);
      m.AppendMap(Invert(ms[k - 1 - n]), Some(k - 1 - n));
      n := n + 1;
    }
    assert Inverses(ms)[..k] == Inverses(ms);
    ThereAndBackMirrored(ms);
  }

  lemma NoneBack(ms: seq<StepMap>)
    ensures ms + Inverses(ms)[..0] == ms
  {
  }

  lemma OneMoreBack(ms: seq<StepMap>, n: nat)
    requires n < |ms|
    ensures (ms + Inverses(ms)[..n]) + [Invert(ms[|ms| - 1 - n])] == ms + Inverses(ms)[..n + 1]
  {
    assert Inverses(ms)[..n + 1] == Inverses(ms)[..n] + [Inverses(ms)[n]];
  }

  /** A position mapped there and back through such a mapping. */
  method MapThereAndBack(ms: seq<StepMap>, pos: int, assoc: int) returns (back: int)
    ensures back == pos <==> Returns(ms, pos, assoc)
    ensures (forall m :: m in ms ==> Undoes(m, assoc)) ==> back == pos
  {
    hide Mirrored, MirrorTable, ThereAndBack, Through, Undoes;
    var m := AppendBack(ms);
    back := m.Map(pos, assoc);
    if forall m :: m in ms ==> Undoes(m, assoc) {
      AllReturn(ms, pos, assoc);
    }
  }
}
