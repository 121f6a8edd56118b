/**
  Who may run: what a process must hold when it starts to run, and who can be
  running beside whom.
 */
module Exclusion {
  import opened Options
  import opened Locks

  // ----------------------------------------------------------------------
  // Leases and locks that are lent
  // ----------------------------------------------------------------------

  /** A check owns its lease as long as it needs one. */
  predicate CheckLeases(pr: Process) {
    pr.kind.Check? ==> pr.token.None? && (pr.phase.Leased? || pr.phase.Running? || pr.phase.Closing? ==> pr.leased)
  }

  /** A token was inherited from a check, or from the run that launched this one into a container. */
  predicate Inherits(s: State, p: Pid)
    requires p in s.procs
  {
    var pr := s.procs[p];
    && pr.owner != Some(OUTSIDE)
    && (pr.kind.Pytest? && pr.parent != OUTSIDE ==> pr.token == Some(pr.parent))
    && (pr.token.Some? ==>
          && pr.token.value in s.procs && !pr.kind.Check?
          && var o := s.procs[pr.token.value];
             && !o.kind.Direct?
             && (pr.kind.Pytest? ==> o.kind.Check?)
             && (pr.kind.Pytest? || o.kind.Pytest? ==> pr.parent == pr.token.value || o.phase.Ended?))
  }

  /** The process whose lease a process runs with. */
  function Lender(s: State, p: Pid): Pid
    requires p in s.procs
  {
    if s.procs[p].leased || s.procs[p].token.None? then p else s.procs[p].token.value
  }

  /** A child has the token of the process whose lease its parent runs with. */
  predicate HasToken(s: State, p: Pid)
    requires p in s.procs
  {
    var pr := s.procs[p];
    pr.parent in s.procs && !pr.phase.Ended? ==> pr.token == Some(Lender(s, pr.parent))
  }

  /** A process runs with a lease of its own, or with that of a process which keeps it as long as it is there. */
  predicate RunsLeased(s: State, p: Pid)
    requires p in s.procs
  {
    var pr := s.procs[p];
    pr.phase.Running? && !pr.leased ==> pr.token.Some? && (Live(s, pr.token.value) ==> s.lease == pr.token)
  }

  /** A run that has to wait its turn has the tool lock, or was started by a check that declared that it owns it. */
  predicate RunsLocked(pr: Process) {
    pr.kind == Pytest(false) && (pr.phase.Ready? || pr.phase.Running?) && !pr.locked ==>
      pr.token.Some? && pr.owner == pr.token
  }

  predicate Lent(s: State, p: Pid)
    requires p in s.procs
  {
    CheckLeases(s.procs[p]) && Inherits(s, p) && HasToken(s, p) && RunsLeased(s, p) && RunsLocked(s.procs[p])
  }

  predicate AllLent(s: State) {
    forall p :: p in s.procs ==> Lent(s, p)
  }

  lemma NoChild(s: State, p: Pid, c: Pid)
    requires CanAdvance(s, p) && Live(s, c) && s.procs[p].phase.Running?
    ensures s.procs[c].parent != p
  {
    assert !Awaits(s, p, c);
  }

  /** What the invariants say of a process, the one it has its token from, and its parent. */
  predicate Known(s: State, q: Pid) {
    && q in s.procs && OUTSIDE !in s.procs && Sensible(s, q) && ChildOk(s, q) && Lent(s, q)
    && (s.procs[q].token.Some? ==> Sensible(s, s.procs[q].token.value) && Lent(s, s.procs[q].token.value))
    && (s.procs[q].parent in s.procs ==> Sensible(s, s.procs[q].parent) && Lent(s, s.procs[q].parent))
  }

  lemma AllKnown(s: State, q: Pid)
    requires Invariant(s) && AllLent(s) && q in s.procs
    ensures Known(s, q)
  {
    hide ChildOk, CheckLeases, HasToken, RunsLeased, RunsLocked;
    assert Lent(s, q);
    assert OUTSIDE in s.procs ==> Sensible(s, OUTSIDE);
  }

  /** When a process goes on, no process becomes another kind, or has another parent or environment. */
  lemma AdvanceFrame(s: State, p: Pid, q: Pid)
    requires CanAdvance(s, p) && q in s.procs
    ensures var t := Advanced(s, p);
            && t.procs.Keys == s.procs.Keys
            && t.procs[q].kind == s.procs[q].kind && t.procs[q].parent == s.procs[q].parent
            && t.procs[q].owner == s.procs[q].owner && t.procs[q].token == s.procs[q].token
            && (q != p ==> t.procs[q] == s.procs[q])
  {
    hide HasChild, Serializes;
    EndFrame(s, p);
    match s.procs[p].kind
    case Check(_) => hide End;
    case Pytest(_) => hide End;
    case Direct => hide End;
  }

  lemma EndFrame(s: State, p: Pid)
    requires p in s.procs
    ensures var t, pr := End(s, p), s.procs[p];
            t.procs == s.procs[p := pr.(phase := Ended, locked := false, leased := false)]
  {
  }

  lemma AdvanceInherits(s: State, p: Pid, q: Pid)
    requires Known(s, p) && Known(s, q) && CanAdvance(s, p)
    ensures q in Advanced(s, p).procs && Inherits(Advanced(s, p), q)
  {
    AdvanceFrame(s, p, q);
    if s.procs[q].token.Some? {
      AdvanceFrame(s, p, s.procs[q].token.value);
    }
    hide HasChild, Sensible, ChildOk, MayStart, RunsLeased, RunsLocked, Advanced;
  }

  /** A process that goes on is waited for by no child that is there. */
  lemma NotParent(s: State, p: Pid, q: Pid)
    requires Known(s, q) && CanAdvance(s, p) && Live(s, q)
    ensures s.procs[q].parent != p
  {
    if s.procs[p].phase.Running? {
      NoChild(s, p, q);
    }
  }

  lemma AdvanceHasToken(s: State, p: Pid, q: Pid)
    requires Known(s, p) && Known(s, q) && CanAdvance(s, p)
    ensures q in Advanced(s, p).procs && HasToken(Advanced(s, p), q)
  {
    AdvanceFrame(s, p, q);
    if Live(s, q) {
      NotParent(s, p, q);
      if s.procs[q].parent in s.procs {
        AdvanceFrame(s, p, s.procs[q].parent);
      }
    }
    hide HasChild, Sensible, ChildOk, MayStart, RunsLeased, RunsLocked, Advanced;
  }

  lemma CheckLent(s: State, p: Pid, q: Pid)
    requires Known(s, p) && Known(s, q) && CanAdvance(s, p) && s.procs[p].kind.Check?
    ensures Lent(AdvanceCheck(s, p), q)
  {
    AdvanceInherits(s, p, q);
    AdvanceHasToken(s, p, q);
    if Live(s, q) {
      NotParent(s, p, q);
    }
    hide HasChild, ChildOk, MayStart, HasToken, Inherits;
    assert Advanced(s, p) == AdvanceCheck(s, p);
  }

  lemma PytestRunsLeased(s: State, p: Pid, q: Pid)
    requires Known(s, p) && Known(s, q) && CanAdvance(s, p) && s.procs[p].kind.Pytest?
    ensures q in AdvancePytest(s, p).procs && RunsLeased(AdvancePytest(s, p), q)
  {
    if Live(s, q) {
      NotParent(s, p, q);
    }
    hide HasChild, ChildOk, MayStart, HasToken, Serializes, RunsLocked;
  }

  lemma PytestLent(s: State, p: Pid, q: Pid)
    requires Known(s, p) && Known(s, q) && CanAdvance(s, p) && s.procs[p].kind.Pytest?
    ensures Lent(AdvancePytest(s, p), q)
  {
    AdvanceInherits(s, p, q);
    AdvanceHasToken(s, p, q);
    PytestRunsLeased(s, p, q);
    if Live(s, q) {
      NotParent(s, p, q);
    }
    hide HasChild, ChildOk, MayStart, RunsLeased, HasToken;
    assert Advanced(s, p) == AdvancePytest(s, p);
  }

  lemma DirectRunsLeased(s: State, p: Pid, q: Pid)
    requires Known(s, p) && Known(s, q) && CanAdvance(s, p) && s.procs[p].kind.Direct?
    ensures q in AdvanceDirect(s, p).procs && RunsLeased(AdvanceDirect(s, p), q)
  {
    if Live(s, q) {
      NotParent(s, p, q);
    }
    hide HasChild, ChildOk, MayStart, HasToken, Serializes, RunsLocked;
  }

  lemma DirectLent(s: State, p: Pid, q: Pid)
    requires Known(s, p) && Known(s, q) && CanAdvance(s, p) && s.procs[p].kind.Direct?
    ensures Lent(AdvanceDirect(s, p), q)
  {
    AdvanceInherits(s, p, q);
    AdvanceHasToken(s, p, q);
    DirectRunsLeased(s, p, q);
    if Live(s, q) {
      NotParent(s, p, q);
    }
    hide HasChild, ChildOk, MayStart, RunsLeased, HasToken, Inherits;
    assert Advanced(s, p) == AdvanceDirect(s, p);
  }

  lemma SpawnLent(s: State, p: Pid, child: Kind, q: Pid)
    requires Invariant(s) && Known(s, p) && Enabled(s, Spawn(p, child)) && q in Spawned(s, p, child).procs
    requires q in s.procs ==> Known(s, q)
    ensures Lent(Spawned(s, p, child), q)
  {
    NextIsNew(s);
    hide Invariant, HasChild, ChildOk;
  }

  lemma LaunchLent(s: State, kind: Kind, owner: Option<Pid>, q: Pid)
    requires Invariant(s) && Enabled(s, Launch(kind, owner)) && q in Do(s, Launch(kind, owner)).procs
    requires q in s.procs ==> Known(s, q)
    ensures Lent(Do(s, Launch(kind, owner)), q)
  {
    NextIsNew(s);
    hide Invariant, HasChild, ChildOk;
  }

  /** When a process is interrupted, its children lose their parent, and nothing else changes for the others. */
  lemma KillFrame(s: State, p: Pid, q: Pid)
    requires Live(s, p) && q in s.procs
    ensures var t, pr := Do(s, Kill(p)), s.procs[q];
            && t.procs.Keys == s.procs.Keys
            && t.procs[q].kind == pr.kind && t.procs[q].owner == pr.owner && t.procs[q].token == pr.token
            && t.procs[q].parent == (if pr.parent == p then OUTSIDE else pr.parent)
            && (q == p ==> t.procs[q].phase.Ended?)
            && (q != p ==> t.procs[q].phase == pr.phase && t.procs[q].leased == pr.leased && t.procs[q].locked == pr.locked)
            && t.lease == if s.procs[p].leased then None else s.lease
  {
  }

  lemma KillLent(s: State, p: Pid, q: Pid)
    requires Known(s, p) && Known(s, q) && Live(s, p)
    ensures q in Do(s, Kill(p)).procs && Lent(Do(s, Kill(p)), q)
  {
    KillFrame(s, p, q);
    if s.procs[q].token.Some? {
      KillFrame(s, p, s.procs[q].token.value);
    }
    if s.procs[q].parent in s.procs {
      KillFrame(s, p, s.procs[q].parent);
    }
    hide HasChild, MayStart, Do, Orphaned, End;
  }

  /** Every step keeps this. */
  lemma DoLends(s: State, a: Action)
    requires Invariant(s) && AllLent(s) && Enabled(s, a)
    ensures AllLent(Do(s, a))
  {
    hide Sensible, ChildOk, Invariant, Lent, Spawned, Orphaned, End, HasChild, AdvanceCheck, AdvancePytest, AdvanceDirect;
    forall q | q in Do(s, a).procs ensures Lent(Do(s, a), q) {
      ProcessesKept(s, a, q);
      if q in s.procs {
        AllKnown(s, q);
      }
      match a
      case Launch(kind, owner) => LaunchLent(s, kind, owner, q);
      case Advance(p) =>
        AllKnown(s, p);
        match s.procs[p].kind {
          case Check(_) => CheckLent(s, p, q);
          case Pytest(_) => PytestLent(s, p, q);
          case Direct => DirectLent(s, p, q);
        }
      case Spawn(p, child) =>
        AllKnown(s, p);
        SpawnLent(s, p, child, q);
      case Kill(p) =>
        AllKnown(s, p);
        KillLent(s, p, q);
    }
  }

  lemma {:induction false} ReachableLends(s: State, actions: seq<Action>)
    requires Reachable(s, actions)
    ensures AllLent(s)
    decreases |actions|
  {
    hide Do, Enabled, Lent, Invariant;
    if actions != [] {
      var a := actions[|actions| - 1];
      var before: State :| Reachable(before, actions[..|actions| - 1]) && Enabled(before, a) && s == Do(before, a);
      ReachableIsOk(before, actions[..|actions| - 1]);
      ReachableLends(before, actions[..|actions| - 1]);
      DoLends(before, a);
    }
  }

  // ----------------------------------------------------------------------
  // Who starts to run
  // ----------------------------------------------------------------------

  predicate Runs(s: State, p: Pid) {
    p in s.procs && s.procs[p].phase.Running?
  }

  /** A run that has to wait its turn, or a check that guards its tools. */
  predicate NeedsTools(kind: Kind) {
    kind == Pytest(false) || kind == Check(true)
  }

  /** The process owns the lease, or has its token from the process that owns it. */
  predicate OwnsOrBorrows(s: State, p: Pid)
    requires p in s.procs
  {
    s.lease == Some(p) || (s.lease.Some? && s.lease == s.procs[p].token)
  }

  /** Only a process that goes on comes to run, and it does so from the last thing it waits for. */
  lemma StartsByItself(s: State, a: Action, p: Pid)
    requires Invariant(s) && Enabled(s, a) && !Runs(s, p) && Runs(Do(s, a), p)
    ensures a == Advance(p) && p in s.procs && CanAdvance(s, p)
  {
    NextIsNew(s);
    hide Invariant, HasChild, CanAdvance, MayStart;
    match a
    case Launch(kind, owner) =>
    case Spawn(q, child) =>
    case Kill(q) =>
    case Advance(q) =>
      Advances(s, q);
      OthersStay(s, q, p);
  }

  lemma Advances(s: State, p: Pid)
    requires Enabled(s, Advance(p))
    ensures p in s.procs && CanAdvance(s, p)
  {
  }

  lemma OthersStay(s: State, q: Pid, p: Pid)
    requires q in s.procs
    ensures p != q ==> (Runs(Advanced(s, q), p) <==> Runs(s, p))
  {
  }

  lemma AdvanceAdmitted(s: State, p: Pid)
    requires CanAdvance(s, p) && Sensible(s, p) && CheckLeases(s.procs[p]) && RunsLocked(s.procs[p])
    requires !Runs(s, p) && Runs(Advanced(s, p), p)
    ensures var t := Advanced(s, p);
            && OwnsOrBorrows(t, p)
            && (s.lease.Some? ==> t.lease == s.lease)
            && (NeedsTools(t.procs[p].kind) ==>
                  t.flock == Some(p) || (t.procs[p].kind.Pytest? && t.procs[p].token.Some? && t.procs[p].owner == t.procs[p].token))
  {
    hide HasChild, Serializes;
  }

  /**
    A process starts to run only if it then owns the lease, or the process whose token it has does;
    and, if it needs the tools, only if it then owns the tool lock, or was started by a check that
    declared it owns it.
   */
  lemma StartsAdmitted(s: State, a: Action, p: Pid)
    requires Invariant(s) && AllLent(s) && Enabled(s, a) && !Runs(s, p) && Runs(Do(s, a), p)
    ensures p in s.procs && p in Do(s, a).procs && OwnsOrBorrows(Do(s, a), p)
    ensures Do(s, a).procs[p].token == s.procs[p].token
    ensures s.lease.Some? ==> Do(s, a).lease == s.lease
    ensures var pr := Do(s, a).procs[p];
            NeedsTools(pr.kind) ==> Do(s, a).flock == Some(p) || (pr.kind.Pytest? && pr.token.Some? && pr.owner == pr.token)
  {
    StartsByItself(s, a, p);
    AllKnown(s, p);
    AdvanceFrame(s, p, p);
    hide Invariant, AllLent, HasChild, ChildOk, MayStart, Inherits;
    AdvanceAdmitted(s, p);
  }

  /** While the lease is owned, no process starts to run but its owner and those that have the owner's token. */
  lemma NoOutsiderStarts(s: State, actions: seq<Action>, a: Action, p: Pid, o: Pid)
    requires Reachable(s, actions) && Enabled(s, a) && s.lease == Some(o) && !Runs(s, p) && Runs(Do(s, a), p)
    ensures Live(s, o) && (p == o || s.procs[p].token == Some(o))
  {
    hide Reachable, Do, Enabled, Lent, ChildOk;
    ReachableIsOk(s, actions);
    ReachableLends(s, actions);
    StartsAdmitted(s, a, p);
    assert Sensible(s, o);
  }

  // ----------------------------------------------------------------------
  // Who runs beside whom
  // ----------------------------------------------------------------------

  /** Whatever runs has a lease of its own, or the token of a process that keeps the lease as long as it is there. */
  lemma RunsWithLease(s: State, actions: seq<Action>, p: Pid)
    requires Reachable(s, actions) && Runs(s, p)
    ensures s.procs[p].leased || s.procs[p].token.Some?
    ensures Lender(s, p) in s.procs && (Lender(s, p) == p || !s.procs[Lender(s, p)].kind.Direct?)
    ensures Live(s, Lender(s, p)) ==> s.lease == Some(Lender(s, p))
  {
    hide Reachable, ChildOk;
    ReachableIsOk(s, actions);
    ReachableLends(s, actions);
    assert Lent(s, p) && Sensible(s, p);
  }

  /** What runs at the same time belongs to one family, as long as those that lend the lease are there. */
  lemma OneFamilyRuns(s: State, actions: seq<Action>, p: Pid, q: Pid)
    requires Reachable(s, actions) && Runs(s, p) && Runs(s, q) && Live(s, Lender(s, p)) && Live(s, Lender(s, q))
    ensures Lender(s, p) == Lender(s, q)
  {
    hide Reachable, Runs, Live, Lender;
    RunsWithLease(s, actions, p);
    RunsWithLease(s, actions, q);
  }

  /**
    A run that has to wait its turn and a guarded check run with the tool lock; or the run was started by a check
    that declared that it owns the lock, and does own it as long as it is there, if it guards its tools.
   */
  lemma RunsWithTools(s: State, actions: seq<Action>, p: Pid)
    requires Reachable(s, actions) && Runs(s, p) && NeedsTools(s.procs[p].kind)
    ensures s.flock == Some(p)
            || (s.procs[p].token.Some? && s.procs[p].owner == s.procs[p].token
                && var o := s.procs[p].token.value;
                   && o in s.procs && s.procs[o].kind.Check?
                   && (Live(s, o) && s.procs[o].kind.guarded ==> s.flock == Some(o)))
  {
    hide Reachable;
    ReachableIsOk(s, actions);
    ReachableLends(s, actions);
    AllKnown(s, p);
    hide Invariant, AllLent;
  }

  // ----------------------------------------------------------------------
  // Who is admitted
  // ----------------------------------------------------------------------

  /** The last thing a process does before it runs. */
  predicate AtTheDoor(pr: Process) {
    match pr.kind
    case Check(_) => pr.phase.Leased?
    case Pytest(_) => pr.phase.Ready?
    case Direct => pr.phase.Starting?
  }

  /** There it is admitted exactly if what it needs is free or lent to it; else it is over, and nothing else has changed. */
  lemma AdmittedExactly(s: State, p: Pid)
    requires Live(s, p) && AtTheDoor(s.procs[p])
    ensures Enabled(s, Advance(p))
    ensures var t, pr := Do(s, Advance(p)), s.procs[p];
            && (Runs(t, p) <==> if pr.kind.Check? then !pr.kind.guarded || s.flock == None
                                else s.lease == None || s.lease == pr.token)
            && (!Runs(t, p) ==> !Live(t, p) && s.procs[p := t.procs[p]] == t.procs)
  {
    hide HasChild, Serializes;
  }

  /** Before that, a check takes the lease if it is free or its own already, and is over if not. */
  lemma CheckTakesLease(s: State, p: Pid)
    requires Live(s, p) && s.procs[p].kind.Check? && s.procs[p].phase.Starting?
    ensures Enabled(s, Advance(p))
    ensures var t, pr := Do(s, Advance(p)), s.procs[p];
            && (Live(t, p) <==> s.lease == None || s.lease == pr.token)
            && (Live(t, p) ==> AtTheDoor(t.procs[p]) && OwnsOrBorrows(t, p) && t.flock == s.flock)
  {
    hide HasChild;
  }

  /** Before that, a run queues for the tool lock exactly if it collects more than names and its parent does not own the lock. */
  lemma QueuesExactly(s: State, p: Pid)
    requires Live(s, p) && s.procs[p].kind.Pytest? && s.procs[p].phase.Starting?
    ensures Enabled(s, Advance(p))
    ensures var t, pr := Do(s, Advance(p)), s.procs[p];
            if pr.kind == Pytest(true) || pr.owner == Some(pr.parent) then t == s.(procs := s.procs[p := pr.(phase := Ready)])
            else t == s.(procs := s.procs[p := pr.(phase := Queued)])
  {
    hide HasChild;
  }

  /** What a running process starts is never refused while that process waits and the lease it runs with is owned. */
  lemma ChildrenAdmitted(s: State, actions: seq<Action>, p: Pid, c: Pid)
    requires Reachable(s, actions) && Awaits(s, p, c) && Live(s, Lender(s, p)) && AtTheDoor(s.procs[c])
    ensures Enabled(s, Advance(c)) && Runs(Do(s, Advance(c)), c)
  {
    hide Reachable, Do, Enabled, AtTheDoor;
    ReachableIsOk(s, actions);
    ReachableLends(s, actions);
    RunsWithLease(s, actions, p);
    AllKnown(s, c);
    AdmittedExactly(s, c);
  }

  /** And what a check that owns the tool lock starts never queues for it. */
  lemma ChildrenNeverQueue(s: State, actions: seq<Action>, p: Pid, c: Pid)
    requires Reachable(s, actions) && Awaits(s, p, c) && s.flock == Some(p) && s.procs[p].kind.Check?
    ensures !s.procs[c].phase.Queued?
  {
    hide Reachable;
    ReachableIsOk(s, actions);
    assert Sensible(s, p) && ChildOk(s, c);
  }

  // ----------------------------------------------------------------------
  // Giving back
  // ----------------------------------------------------------------------

  /** A process that goes on gives back last what it took first: a check its lease, a pytest run the tool lock. */
  lemma GivenBackInOrder(s: State, p: Pid)
    requires CanAdvance(s, p) && Runs(s, p) && s.procs[p].leased && s.procs[p].locked && !s.procs[p].kind.Direct?
    ensures var t := Do(s, Advance(p));
            && Live(t, p) && !t.procs[p].phase.Running?
            && t.procs[p].leased == t.procs[p].kind.Check? && t.procs[p].locked == t.procs[p].kind.Pytest?
            && t.lease == (if t.procs[p].kind.Check? then s.lease else None)
            && t.flock == (if t.procs[p].kind.Check? then None else s.flock)
  {
    hide HasChild, Serializes;
  }
}
