/**
  The lock and the lease that check runs and pytest runs share. A check takes
  the writer lease and then the tool lock, a pytest run the tool lock and then
  the lease; a lease is only ever tried for, and so is a check's tool lock.
 */
module Locks {
  import opened Options

  type Pid = nat

  /** The parent of a process started by hand. */
  const OUTSIDE: Pid := 0

  /**
    A check; a pytest run that launches itself again in a container; or a run
    that runs its tests itself, in a container or where there is none.
   */
  datatype Kind = Check(guarded: bool) | Pytest(collectOnly: bool) | Direct

  datatype Phase =
    | Starting
    | Queued      // a pytest run waiting for the tool lock
    | Ready       // a pytest run that may go on to the lease
    | Leased      // a check with its lease, before the tool lock
    | Running
    | Closing     // the tool lock given back, the lease not yet
    | Ended

  /**
    A process: what it is, who started it, what it inherited in its environment
    (the process that owns the tool lock and the one that owns the lease), and
    whether it owns either itself.
   */
  datatype Process = Process(kind: Kind, parent: Pid, owner: Option<Pid>, token: Option<Pid>,
                             phase: Phase, locked: bool, leased: bool)

  datatype State = State(procs: map<Pid, Process>, next: Pid, flock: Option<Pid>, lease: Option<Pid>)

  predicate Live(s: State, p: Pid) {
    p in s.procs && !s.procs[p].phase.Ended?
  }

  /** A running process waits for every child it started that is still there. */
  predicate Awaits(s: State, p: Pid, c: Pid) {
    Live(s, p) && Live(s, c) && s.procs[p].phase.Running? && s.procs[c].parent == p
  }

  /** A queued run waits for whoever owns the tool lock. */
  predicate WaitsForLock(s: State, p: Pid, o: Pid) {
    Live(s, p) && s.procs[p].phase.Queued? && s.flock == Some(o)
  }

  predicate Waits(s: State, p: Pid, q: Pid) {
    Awaits(s, p, q) || WaitsForLock(s, p, q)
  }

  // ----------------------------------------------------------------------
  // Steps
  // ----------------------------------------------------------------------

  datatype Action =
    | Launch(kind: Kind, owner: Option<Pid>)  // by hand, with whatever the shell's environment says of an owner
    | Advance(pid: Pid)                       // a process does the next thing it has to do
    | Spawn(pid: Pid, child: Kind)            // a running process starts a child
    | Kill(pid: Pid)                          // a process is interrupted

  predicate HasChild(s: State, p: Pid) {
    exists c :: c in s.procs && Awaits(s, p, c)
  }

  /** The direct parent declares that it owns the tool lock. */
  predicate ParentOwnsLock(pr: Process) {
    pr.owner == Some(pr.parent)
  }

  predicate Serializes(pr: Process) {
    pr.kind.Pytest? && !pr.kind.collectOnly && !ParentOwnsLock(pr)
  }

  predicate CanAdvance(s: State, p: Pid) {
    && Live(s, p)
    && var pr := s.procs[p];
       match pr.phase
       case Queued => s.flock.None?
       case Running => !HasChild(s, p)
       case _ => true
  }

  predicate Enabled(s: State, a: Action) {
    match a
    case Launch(kind, owner) => owner != Some(OUTSIDE)
    case Advance(p) => CanAdvance(s, p)
    case Spawn(p, child) => Live(s, p) && s.procs[p].phase.Running? && MayStart(s.procs[p].kind, child)
    case Kill(p) => Live(s, p)
  }

  /** A check starts runs of either kind, and a run that goes into a container starts the one inside. */
  predicate MayStart(kind: Kind, child: Kind) {
    if kind.Check? then !child.Check? else kind.Pytest? && child.Direct?
  }

  function With(s: State, p: Pid, pr: Process): State {
    s.(procs := s.procs[p := pr])
  }

  /** The process is over: what it owned is free again. */
  function End(s: State, p: Pid): State
    requires p in s.procs
  {
    var pr := s.procs[p];
    With(s, p, pr.(phase := Ended, locked := false, leased := false))
    .(flock := if pr.locked then None else s.flock, lease := if pr.leased then None else s.lease)
  }

  function AdvanceCheck(s: State, p: Pid): State
    requires p in s.procs && s.procs[p].kind.Check?
  {
    var pr := s.procs[p];
    match pr.phase
    case Starting =>
      if s.lease.None? then With(s, p, pr.(phase := Leased, leased := true)).(lease := Some(p))
      else if s.lease == pr.token then With(s, p, pr.(phase := Leased))
      else End(s, p)
    case Leased =>
      if !pr.kind.guarded then With(s, p, pr.(phase := Running))
      else if s.flock.None? then With(s, p, pr.(phase := Running, locked := true)).(flock := Some(p))
      else End(s, p)
    case Running => With(s, p, pr.(phase := Closing, locked := false)).(flock := if pr.locked then None else s.flock)
    case _ => End(s, p)
  }

  function AdvancePytest(s: State, p: Pid): State
    requires p in s.procs && s.procs[p].kind.Pytest?
  {
    var pr := s.procs[p];
    match pr.phase
    case Starting => With(s, p, pr.(phase := if Serializes(pr) then Queued else Ready))
    case Queued => With(s, p, pr.(phase := Ready, locked := true)).(flock := Some(p))
    case Ready =>
      if s.lease.None? then With(s, p, pr.(phase := Running, leased := true)).(lease := Some(p))
      else if s.lease == pr.token then With(s, p, pr.(phase := Running))
      else End(s, p)
    case Running => With(s, p, pr.(phase := Closing, leased := false)).(lease := if pr.leased then None else s.lease)
    case _ => End(s, p)
  }

  /** A run that runs its tests itself never touches the tool lock. */
  function AdvanceDirect(s: State, p: Pid): State
    requires p in s.procs
  {
    var pr := s.procs[p];
    if !pr.phase.Starting? then End(s, p)
    else if s.lease.None? then With(s, p, pr.(phase := Running, leased := true)).(lease := Some(p))
    else if s.lease == pr.token then With(s, p, pr.(phase := Running))
    else End(s, p)
  }

  function Advanced(s: State, p: Pid): State
    requires p in s.procs
  {
    match s.procs[p].kind
    case Check(_) => AdvanceCheck(s, p)
    case Pytest(_) => AdvancePytest(s, p)
    case Direct => AdvanceDirect(s, p)
  }

  function Spawned(s: State, p: Pid, child: Kind): State
    requires p in s.procs
  {
    var pr := s.procs[p];
    var owner := if pr.locked then Some(p) else pr.owner;
    var token := if pr.leased then Some(p) else pr.token;
    With(s, s.next, Process(child, p, owner, token, Starting, false, false)).(next := s.next + 1)
  }

  /** The children of a process that is gone have a parent outside. */
  function Orphaned(s: State, p: Pid): State {
    s.(procs := map c | c in s.procs :: if s.procs[c].parent == p then s.procs[c].(parent := OUTSIDE) else s.procs[c])
  }

  function Do(s: State, a: Action): State
    requires Enabled(s, a)
  {
    match a
    case Launch(kind, owner) =>
      With(s, s.next, Process(kind, OUTSIDE, owner, None, Starting, false, false)).(next := s.next + 1)
    case Advance(p) => Advanced(s, p)
    case Spawn(p, child) => Spawned(s, p, child)
    case Kill(p) => Orphaned(End(s, p), p)
  }

  // ----------------------------------------------------------------------
  // What every step keeps
  // ----------------------------------------------------------------------

  /** What holds of each process, whatever the others do. */
  predicate Sensible(s: State, p: Pid)
    requires p in s.procs
  {
    var pr := s.procs[p];
    && OUTSIDE < p < s.next && pr.parent < p
    && (pr.locked <==> s.flock == Some(p))
    && (pr.leased <==> s.lease == Some(p))
    && match pr.kind
       case Check(guarded) =>
         && !pr.phase.Queued? && !pr.phase.Ready?
         && (pr.locked <==> guarded && pr.phase.Running?)
         && (pr.leased ==> pr.phase.Leased? || pr.phase.Running? || pr.phase.Closing?)
       case Pytest(_) =>
         && !pr.phase.Leased?
         && (pr.locked ==> pr.phase.Ready? || pr.phase.Running? || pr.phase.Closing?)
         && (pr.leased ==> pr.phase.Running?)
       case Direct =>
         !pr.locked && (pr.leased ==> pr.phase.Running?) && (pr.phase.Starting? || pr.phase.Running? || pr.phase.Ended?)
  }

  /** What holds of a process that its parent waits for: under a parent with the tool lock it never queues for it. */
  predicate ChildOk(s: State, c: Pid)
    requires c in s.procs
  {
    var ch := s.procs[c];
    ch.parent != OUTSIDE && !ch.phase.Ended? ==>
      && ch.parent in s.procs
      && var pr := s.procs[ch.parent];
         && pr.phase.Running?
         && MayStart(pr.kind, ch.kind)
         && (pr.kind.Check? && pr.locked ==> ch.owner == Some(ch.parent) && !ch.phase.Queued? && !ch.locked)
  }

  predicate Owned(s: State) {
    && (s.flock.Some? ==> s.flock.value in s.procs)
    && (s.lease.Some? ==> s.lease.value in s.procs)
  }

  predicate Invariant(s: State) {
    && s.next > OUTSIDE && Owned(s)
    && (forall p :: p in s.procs ==> Sensible(s, p))
    && (forall c :: c in s.procs ==> ChildOk(s, c))
  }

  lemma EndKeeps(s: State, p: Pid, q: Pid)
    requires Invariant(s) && p in s.procs && q in s.procs && !HasChild(s, p)
    ensures Sensible(End(s, p), q) && ChildOk(End(s, p), q)
  {
    assert Sensible(s, q) && Sensible(s, p) && ChildOk(s, q);
    assert !Awaits(s, p, q);
  }

  lemma NextIsNew(s: State)
    requires Invariant(s)
    ensures s.next !in s.procs
  {
    hide ChildOk;
  }

  lemma WaitsForNone(s: State, p: Pid)
    requires CanAdvance(s, p)
    ensures !HasChild(s, p)
  {
  }

  lemma CheckKeeps(s: State, p: Pid, q: Pid)
    requires Invariant(s) && CanAdvance(s, p) && q in s.procs && s.procs[p].kind.Check?
    ensures Sensible(AdvanceCheck(s, p), q) && ChildOk(AdvanceCheck(s, p), q)
  {
    WaitsForNone(s, p);
    EndKeeps(s, p, q);
    assert Sensible(s, q) && Sensible(s, p) && ChildOk(s, q) && ChildOk(s, p);
    hide Invariant;
    assert !Awaits(s, p, q);
  }

  lemma PytestKeeps(s: State, p: Pid, q: Pid)
    requires Invariant(s) && CanAdvance(s, p) && q in s.procs && s.procs[p].kind.Pytest?
    ensures Sensible(AdvancePytest(s, p), q) && ChildOk(AdvancePytest(s, p), q)
  {
    WaitsForNone(s, p);
    EndKeeps(s, p, q);
    assert Sensible(s, q) && Sensible(s, p) && ChildOk(s, q) && ChildOk(s, p);
    hide Invariant;
    assert !Awaits(s, p, q);
  }

  lemma DirectKeeps(s: State, p: Pid, q: Pid)
    requires Invariant(s) && CanAdvance(s, p) && q in s.procs && s.procs[p].kind.Direct?
    ensures Sensible(AdvanceDirect(s, p), q) && ChildOk(AdvanceDirect(s, p), q)
  {
    WaitsForNone(s, p);
    EndKeeps(s, p, q);
    assert Sensible(s, q) && Sensible(s, p) && ChildOk(s, q) && ChildOk(s, p);
    hide Invariant;
    assert !Awaits(s, p, q);
  }

  lemma AdvanceKeeps(s: State, p: Pid, q: Pid)
    requires Invariant(s) && CanAdvance(s, p) && q in s.procs
    ensures Sensible(Advanced(s, p), q) && ChildOk(Advanced(s, p), q)
  {
    hide Invariant, Sensible, ChildOk, AdvanceCheck, AdvancePytest, AdvanceDirect;
    match s.procs[p].kind
    case Check(_) => CheckKeeps(s, p, q);
    case Pytest(_) => PytestKeeps(s, p, q);
    case Direct => DirectKeeps(s, p, q);
  }

  lemma SpawnKeeps(s: State, p: Pid, child: Kind, q: Pid)
    requires Invariant(s) && Enabled(s, Spawn(p, child))
    requires q in Spawned(s, p, child).procs
    ensures Sensible(Spawned(s, p, child), q) && ChildOk(Spawned(s, p, child), q)
  {
    assert Sensible(s, p);
    if q in s.procs {
      assert Sensible(s, q) && ChildOk(s, q);
    }
    NextIsNew(s);
  }

  lemma LaunchKeeps(s: State, kind: Kind, owner: Option<Pid>, q: Pid)
    requires Invariant(s) && Enabled(s, Launch(kind, owner)) && q in Do(s, Launch(kind, owner)).procs
    ensures Sensible(Do(s, Launch(kind, owner)), q) && ChildOk(Do(s, Launch(kind, owner)), q)
  {
    if q in s.procs {
      assert Sensible(s, q) && ChildOk(s, q);
    }
    NextIsNew(s);
  }

  lemma KillKeeps(s: State, p: Pid, q: Pid)
    requires Invariant(s) && Live(s, p) && q in s.procs
    ensures Sensible(Do(s, Kill(p)), q) && ChildOk(Do(s, Kill(p)), q)
  {
    assert Sensible(s, q) && Sensible(s, p) && ChildOk(s, q);
    if s.procs[q].parent in s.procs {
      assert Sensible(s, s.procs[q].parent);
    }
  }

  lemma OwnedKeeps(s: State, a: Action)
    requires Invariant(s) && Enabled(s, a)
    ensures Do(s, a).next > OUTSIDE && Owned(Do(s, a))
  {
    hide Sensible, ChildOk, HasChild, Serializes, MayStart;
  }

  lemma ProcessesKept(s: State, a: Action, q: Pid)
    requires Enabled(s, a) && q in Do(s, a).procs
    ensures (a.Advance? || a.Kill?) ==> q in s.procs
  {
    hide HasChild;
  }

  /** Every step keeps the invariant. */
  lemma DoKeeps(s: State, a: Action)
    requires Invariant(s) && Enabled(s, a)
    ensures Invariant(Do(s, a))
  {
    var t := Do(s, a);
    OwnedKeeps(s, a);
    forall q | q in t.procs ensures Sensible(t, q) && ChildOk(t, q) {
      hide Sensible, ChildOk, Invariant, Advanced, Spawned, Orphaned, End, HasChild;
      ProcessesKept(s, a, q);
      match a
      case Launch(kind, owner) => LaunchKeeps(s, kind, owner, q);
      case Advance(p) => AdvanceKeeps(s, p, q);
      case Spawn(p, child) => SpawnKeeps(s, p, child, q);
      case Kill(p) => KillKeeps(s, p, q);
    }
    hide Sensible, ChildOk, Do;
  }

  // ----------------------------------------------------------------------
  // Whole runs
  // ----------------------------------------------------------------------

  function Nothing(): State {
    State(map[], OUTSIDE + 1, None, None)
  }

  /** The states after runs of any number of processes, interleaved in any way. */
  ghost predicate Reachable(s: State, actions: seq<Action>)
    decreases |actions|
  {
    if actions == [] then s == Nothing()
    else
      var a := actions[|actions| - 1];
      exists before: State :: Reachable(before, actions[..|actions| - 1]) && Enabled(before, a) && s == Do(before, a)
  }

  lemma {:induction false} ReachableIsOk(s: State, actions: seq<Action>)
    requires Reachable(s, actions)
    ensures Invariant(s)
    decreases |actions|
  {
    hide Do, Enabled, Sensible, ChildOk;
    if actions != [] {
      var a := actions[|actions| - 1];
      var before: State :| Reachable(before, actions[..|actions| - 1]) && Enabled(before, a) && s == Do(before, a);
      ReachableIsOk(before, actions[..|actions| - 1]);
      DoKeeps(before, a);
    }
  }

  /** At most one process holds the tool lock, and at most one the lease. */
  lemma OneOwner(s: State, actions: seq<Action>, p: Pid, q: Pid)
    requires Reachable(s, actions) && p in s.procs && q in s.procs
    ensures s.procs[p].locked && s.procs[q].locked ==> p == q
    ensures s.procs[p].leased && s.procs[q].leased ==> p == q
    ensures s.procs[p].locked || s.procs[p].leased ==> Live(s, p)
  {
    hide Reachable, ChildOk;
    ReachableIsOk(s, actions);
    assert Sensible(s, p) && Sensible(s, q);
  }

  /** A run that waits for the tool lock has no lease of its own. */
  lemma QueuedHoldsNothing(s: State, actions: seq<Action>, p: Pid)
    requires Reachable(s, actions) && p in s.procs && s.procs[p].phase.Queued?
    ensures !s.procs[p].leased && !s.procs[p].locked && s.lease != Some(p)
  {
    hide Reachable, ChildOk;
    ReachableIsOk(s, actions);
    assert Sensible(s, p);
  }

  /** Waiting only ever goes to a lower rank. */
  function Rank(pr: Process): nat {
    match pr.kind
    case Direct => 0
    case Pytest(_) => if pr.phase.Queued? then 3 else 1
    case Check(_) => if pr.locked then 2 else 4
  }

  lemma WaitsDown(s: State, p: Pid, q: Pid)
    requires Invariant(s) && Waits(s, p, q)
    ensures q in s.procs && Rank(s.procs[q]) < Rank(s.procs[p])
  {
    assert Sensible(s, p) && ChildOk(s, q);
    if WaitsForLock(s, p, q) {
      assert Sensible(s, q);
    } else {
      assert Sensible(s, q);
    }
  }

  /** Each process in the list waits for the next. */
  predicate Chain(s: State, path: seq<Pid>) {
    forall k :: 0 <= k < |path| - 1 ==> Waits(s, path[k], path[k + 1])
  }

  lemma {:induction false} ChainDown(s: State, path: seq<Pid>)
    requires Invariant(s) && |path| >= 2 && Chain(s, path)
    ensures path[0] in s.procs && path[|path| - 1] in s.procs
    ensures Rank(s.procs[path[|path| - 1]]) < Rank(s.procs[path[0]])
    decreases |path|
  {
    hide Invariant, Waits, Rank;
    assert Waits(s, path[0], path[0 + 1]);
    WaitsDown(s, path[0], path[1]);
    WaiterIsThere(s, path[0], path[1]);
    if |path| > 2 {
      var rest := path[1..];
      forall k | 0 <= k < |rest| - 1 ensures Waits(s, rest[k], rest[k + 1]) {
        assert Waits(s, path[k + 1], path[k + 1 + 1]);
      }
      ChainDown(s, rest);
    }
  }

  lemma WaiterIsThere(s: State, p: Pid, q: Pid)
    requires Waits(s, p, q)
    ensures p in s.procs
  {
  }

  /** No process ever waits for itself, however many others are in between. */
  lemma NeverCircular(s: State, actions: seq<Action>, path: seq<Pid>)
    requires Reachable(s, actions) && |path| >= 2 && Chain(s, path)
    ensures path[0] != path[|path| - 1]
  {
    hide Reachable, Chain, Invariant;
    ReachableIsOk(s, actions);
    ChainDown(s, path);
  }

  /** The owner of the tool lock waits for the lock neither itself nor through those it waits for. */
  lemma OwnerNeverQueues(s: State, actions: seq<Action>, path: seq<Pid>)
    requires Reachable(s, actions) && |path| >= 1 && Chain(s, path) && s.flock == Some(path[0])
    ensures path[|path| - 1] in s.procs ==> !s.procs[path[|path| - 1]].phase.Queued?
  {
    hide Reachable, Chain;
    ReachableIsOk(s, actions);
    assert Sensible(s, path[0]);
    if |path| >= 2 {
      ChainDown(s, path);
    }
  }

  /** Following whoever a process waits for leads to one that can go on. */
  lemma {:induction false} SomeoneGoesOn(s: State, p: Pid) returns (q: Pid)
    requires Invariant(s) && Live(s, p)
    ensures CanAdvance(s, q)
    decreases Rank(s.procs[p])
  {
    if CanAdvance(s, p) {
      q := p;
    } else if s.procs[p].phase.Queued? {
      var o := s.flock.value;
      assert Sensible(s, o);
      assert WaitsForLock(s, p, o);
      WaitsDown(s, p, o);
      q := SomeoneGoesOn(s, o);
    } else {
      var c :| c in s.procs && Awaits(s, p, c);
      WaitsDown(s, p, c);
      q := SomeoneGoesOn(s, c);
    }
  }

  /** As long as a process is left, some process can go on. */
  lemma NeverStuck(s: State, actions: seq<Action>, p: Pid)
    requires Reachable(s, actions) && Live(s, p)
    ensures exists q: Pid :: Enabled(s, Advance(q))
  {
    hide Reachable, Invariant;
    ReachableIsOk(s, actions);
    var q := SomeoneGoesOn(s, p);
    assert Enabled(s, Advance(q));
  }
}
