/**
  The barrier before certification: everything that the lanes started is joined
  by the identity it was first seen with, so that a reused number counts as gone.
 */
module Retirement {
  import opened Options

  type Pid = nat

  /** When the process under a number started; read at the moment it is asked for. */
  type StartKey = string

  datatype Row = Row(pid: Pid, ppid: Pid, command: string)

  datatype Member = Member(pid: Pid, ppid: Pid, command: string, startKey: Option<StartKey>)

  // ----------------------------------------------------------------------
  // The process tree
  // ----------------------------------------------------------------------

  /** A path of parents and children from `root` to `p` through the table. */
  ghost predicate Descends(rows: seq<Row>, root: Pid, p: Pid, n: nat)
    decreases n
  {
    if n == 0 then p == root
    else exists row :: row in rows && row.pid == p && Descends(rows, root, row.ppid, n - 1)
  }

  /** A transitive child; never the root itself, even in a table that goes in circles. */
  ghost predicate Descendant(rows: seq<Row>, root: Pid, p: Pid) {
    p != root && exists n: nat :: Descends(rows, root, p, n)
  }

  function Pids(members: seq<Member>): seq<Pid> {
    seq(|members|, i requires 0 <= i < |members| => members[i].pid)
  }

  /** A row of the table, with the identity its process had when it was seen. */
  predicate Seen(rows: seq<Row>, keys: Pid -> Option<StartKey>, m: Member) {
    Row(m.pid, m.ppid, m.command) in rows && m.startKey == keys(m.pid)
  }

  predicate Distinct<T(==)>(s: seq<T>) {
    forall j, k :: 0 <= j < k < |s| ==> s[j] != s[k]
  }

  /** The children of one process, in the order of the table. */
  function Children(rows: seq<Row>, parent: Pid): seq<Row> {
    if rows == [] then []
    else
      var rest := Children(rows[..|rows| - 1], parent);
      if rows[|rows| - 1].ppid == parent then rest + [rows[|rows| - 1]] else rest
  }

  lemma {:induction false} ChildrenAre(rows: seq<Row>, parent: Pid, row: Row)
    ensures row in Children(rows, parent) <==> row in rows && row.ppid == parent
  {
    if rows != [] {
      var n := |rows| - 1;
      ChildrenAre(rows[..n], parent, row);
      assert rows == rows[..n] + [rows[n]];
    }
  }

  function RowPids(rows: seq<Row>): set<Pid> {
    set row | row in rows :: row.pid
  }

  /** What a walk has found so far: every process once, and below the root. */
  ghost predicate Walk(rows: seq<Row>, keys: Pid -> Option<StartKey>, root: Pid, found: seq<Member>, seen: set<Pid>) {
    && Distinct(Pids(found))
    && (forall p :: p in seen <==> p == root || p in Pids(found))
    && root !in Pids(found)
    && forall i :: 0 <= i < |found| ==>
         Seen(rows, keys, found[i]) && Descendant(rows, root, found[i].pid) && found[i].ppid in seen
  }

  /** Every child of `p` has been seen. */
  ghost predicate Expanded(rows: seq<Row>, seen: set<Pid>, p: Pid) {
    forall row :: row in rows && row.ppid == p ==> row.pid in seen
  }

  lemma FoundOne(rows: seq<Row>, keys: Pid -> Option<StartKey>, root: Pid, found: seq<Member>, seen: set<Pid>, row: Row)
    requires Walk(rows, keys, root, found, seen) && row in rows && row.pid !in seen && row.ppid in seen
    ensures var m := Member(row.pid, row.ppid, row.command, keys(row.pid));
            Walk(rows, keys, root, found + [m], seen + {row.pid})
  {
    var m := Member(row.pid, row.ppid, row.command, keys(row.pid));
    var found1 := found + [m];
    assert Pids(found1) == Pids(found) + [m.pid];
    BelowRoot(rows, keys, root, found, seen, row);
    forall i | 0 <= i < |found1|
      ensures Seen(rows, keys, found1[i]) && Descendant(rows, root, found1[i].pid) && found1[i].ppid in seen + {row.pid}
    {
      if i < |found| {
        assert Seen(rows, keys, found[i]);
      }
    }
  }

  lemma BelowRoot(rows: seq<Row>, keys: Pid -> Option<StartKey>, root: Pid, found: seq<Member>, seen: set<Pid>, row: Row)
    requires Walk(rows, keys, root, found, seen) && row in rows && row.pid !in seen && row.ppid in seen
    ensures Descendant(rows, root, row.pid)
  {
    var n: nat;
    if row.ppid == root {
      n := 0;
      assert Descends(rows, root, root, 0);
    } else {
      var i :| 0 <= i < |found| && Pids(found)[i] == row.ppid;
      assert Descendant(rows, root, found[i].pid);
      n :| Descends(rows, root, row.ppid, n);
    }
    assert Descends(rows, root, row.pid, n + 1);
  }

  /** When nothing is left to expand, every descendant has been seen. */
  lemma {:induction false} AllSeen(rows: seq<Row>, root: Pid, seen: set<Pid>, p: Pid, n: nat)
    requires root in seen && Descends(rows, root, p, n)
    requires forall q :: q in seen ==> Expanded(rows, seen, q)
    ensures p in seen
    decreases n
  {
    if n > 0 {
      var row :| row in rows && row.pid == p && Descends(rows, root, row.ppid, n - 1);
      AllSeen(rows, root, seen, row.ppid, n - 1);
      assert Expanded(rows, seen, row.ppid);
    }
  }

  /** Every live descendant once, each with the identity read when it was found. */
  method DescendantProcesses(root: Pid, rows: seq<Row>, keys: Pid -> Option<StartKey>) returns (found: seq<Member>)
    ensures Distinct(Pids(found))
    ensures forall p :: p in Pids(found) <==> Descendant(rows, root, p)
    ensures forall i :: 0 <= i < |found| ==> Seen(rows, keys, found[i])
  {
    hide Walk, Descendant, Expanded;
    found := [];
    var seen, frontier := {root}, [root];
    StartWalk(rows, keys, root);
    while frontier != []
      invariant Walk(rows, keys, root, found, seen) && seen <= RowPids(rows) + {root}
      invariant forall p :: p in frontier ==> p in seen
      invariant forall p :: p in seen && p !in frontier ==> Expanded(rows, seen, p)
      decreases RowPids(rows) + {root} - seen, |frontier|
    {
      ghost var seen0, frontier0 := seen, frontier;
      var current := frontier[|frontier| - 1];
      frontier := frontier[..|frontier| - 1];
      assert frontier0 == frontier + [current];
      var children, i := Children(rows, current), 0;
      while i < |children|
        invariant 0 <= i <= |children| && Walk(rows, keys, root, found, seen) && seen <= RowPids(rows) + {root}
        invariant seen0 <= seen && current in seen && (seen == seen0 ==> frontier == frontier0[..|frontier0| - 1])
        invariant forall p :: p in frontier ==> p in seen
        invariant forall p :: p in seen && p !in frontier && p != current ==> Expanded(rows, seen, p)
        invariant forall k :: 0 <= k < i ==> children[k].pid in seen
      {
        var child := children[i];
        ChildrenAre(rows, current, child);
        if child.pid !in seen {
          FoundOne(rows, keys, root, found, seen, child);
          ghost var before := seen;
          seen := seen + {child.pid};
          frontier := frontier + [child.pid];
          found := found + [Member(child.pid, current, child.command, keys(child.pid))];
          StillExpanded(rows, before, seen);
        }
        i := i + 1;
      }
      NowExpanded(rows, seen, current, children);
    }
    WalkDone(rows, keys, root, found, seen);
  }

  lemma StartWalk(rows: seq<Row>, keys: Pid -> Option<StartKey>, root: Pid)
    ensures Walk(rows, keys, root, [], {root})
  {
  }

  lemma StillExpanded(rows: seq<Row>, seen: set<Pid>, seen1: set<Pid>)
    requires seen <= seen1
    ensures forall p :: Expanded(rows, seen, p) ==> Expanded(rows, seen1, p)
  {
  }

  lemma NowExpanded(rows: seq<Row>, seen: set<Pid>, p: Pid, children: seq<Row>)
    requires children == Children(rows, p) && forall k :: 0 <= k < |children| ==> children[k].pid in seen
    ensures Expanded(rows, seen, p)
  {
    forall row | row in rows && row.ppid == p ensures row.pid in seen {
      ChildrenAre(rows, p, row);
    }
  }

  lemma WalkDone(rows: seq<Row>, keys: Pid -> Option<StartKey>, root: Pid, found: seq<Member>, seen: set<Pid>)
    requires Walk(rows, keys, root, found, seen) && forall p :: p in seen ==> Expanded(rows, seen, p)
    ensures Distinct(Pids(found))
    ensures forall p :: p in Pids(found) <==> Descendant(rows, root, p)
    ensures forall i :: 0 <= i < |found| ==> Seen(rows, keys, found[i])
  {
    hide Expanded;
    forall p ensures p in Pids(found) <==> Descendant(rows, root, p) {
      if p in Pids(found) {
        var i :| 0 <= i < |found| && Pids(found)[i] == p;
        assert Descendant(rows, root, found[i].pid);
      }
      if Descendant(rows, root, p) {
        var n: nat :| Descends(rows, root, p, n);
        AllSeen(rows, root, seen, p, n);
      }
    }
  }

  // ----------------------------------------------------------------------
  // The barrier
  // ----------------------------------------------------------------------

  /**
    What one poll reads: the process table, the identity of each process as it
    is found there, the identities read afterwards, and the containers of this
    run with whether they could be asked about at all.
   */
  datatype Poll = Poll(rows: seq<Row>, keys: Pid -> Option<StartKey>, answers: Pid -> Option<StartKey>,
                       containers: seq<string>, available: bool)

  type Proofs = map<Pid, Member>

  /** A descendant that was not there, with this identity, before the run began; one whose identity cannot be read is left out. */
  predicate Tracked(inherited: map<Pid, Option<StartKey>>, p: Pid, key: Option<StartKey>) {
    (if p in inherited then inherited[p] else None) != key
  }

  /** The identity under which a number was first seen, if it ever was. */
  ghost function FirstKey(owner: Pid, inherited: map<Pid, Option<StartKey>>, polls: seq<Poll>, p: Pid): Option<Option<StartKey>> {
    if polls == [] then None
    else
      var n := |polls| - 1;
      var before := FirstKey(owner, inherited, polls[..n], p);
      var key := polls[n].keys(p);
      if before.Some? then before
      else if Descendant(polls[n].rows, owner, p) && Tracked(inherited, p, key) then Some(key)
      else None
  }

  /** The proofs are the first identities. */
  ghost predicate Proven(owner: Pid, inherited: map<Pid, Option<StartKey>>, polls: seq<Poll>, proofs: Proofs) {
    forall p ::
      && (p in proofs <==> FirstKey(owner, inherited, polls, p).Some?)
      && (p in proofs ==> proofs[p].pid == p && FirstKey(owner, inherited, polls, p) == Some(proofs[p].startKey))
  }

  /** A process that still has the identity it was first seen with. */
  ghost predicate Survives(owner: Pid, inherited: map<Pid, Option<StartKey>>, polls: seq<Poll>, answers: Pid -> Option<StartKey>, p: Pid) {
    answers(p).Some? && FirstKey(owner, inherited, polls, p) == Some(answers(p))
  }

  /** Whether the last of the polls leaves nothing to wait for. */
  ghost predicate Clear(owner: Pid, inherited: map<Pid, Option<StartKey>>, polls: seq<Poll>, expectedContainers: bool)
    requires polls != []
  {
    var last := polls[|polls| - 1];
    && (forall p :: !Survives(owner, inherited, polls, last.answers, p))
    && last.containers == []
    && !(expectedContainers && !last.available)
  }

  /** Takes the first identity of each descendant that is not inherited; those known already keep theirs. */
  method Prove(owner: Pid, inherited: map<Pid, Option<StartKey>>, poll: Poll, known: Proofs, ghost polls: seq<Poll>)
    returns (proofs: Proofs)
    requires Proven(owner, inherited, polls, known)
    ensures Proven(owner, inherited, polls + [poll], proofs)
  {
    hide Descendant, Proven, FirstKey;
    var members := DescendantProcesses(owner, poll.rows, poll.keys);
    proofs := known;
    var i := 0;
    while i < |members|
      invariant 0 <= i <= |members|
      invariant forall p :: p in proofs <==>
        p in known || exists k :: 0 <= k < i && members[k].pid == p && Tracked(inherited, p, members[k].startKey)
      invariant forall p :: p in known ==> p in proofs && proofs[p] == known[p]
      invariant forall p :: p in proofs && p !in known ==> proofs[p].pid == p && proofs[p].startKey == poll.keys(p)
    {
      var m := members[i];
      assert Seen(poll.rows, poll.keys, m);
      if Tracked(inherited, m.pid, m.startKey) && m.pid !in proofs {
        proofs := proofs[m.pid := m];
      }
      i := i + 1;
    }
    NowProven(owner, inherited, poll, known, polls, members, proofs);
  }

  lemma NowProven(owner: Pid, inherited: map<Pid, Option<StartKey>>, poll: Poll, known: Proofs, polls: seq<Poll>,
                  members: seq<Member>, proofs: Proofs)
    requires Proven(owner, inherited, polls, known)
    requires forall p :: p in Pids(members) <==> Descendant(poll.rows, owner, p)
    requires forall i :: 0 <= i < |members| ==> Seen(poll.rows, poll.keys, members[i])
    requires forall p :: p in proofs <==>
      p in known || exists k :: 0 <= k < |members| && members[k].pid == p && Tracked(inherited, p, members[k].startKey)
    requires forall p :: p in known ==> p in proofs && proofs[p] == known[p]
    requires forall p :: p in proofs && p !in known ==> proofs[p].pid == p && proofs[p].startKey == poll.keys(p)
    ensures Proven(owner, inherited, polls + [poll], proofs)
  {
    hide Descendant, Tracked;
    var polls1 := polls + [poll];
    assert polls1[..|polls|] == polls;
    forall p
      ensures p in proofs <==> FirstKey(owner, inherited, polls1, p).Some?
      ensures p in proofs ==> proofs[p].pid == p && FirstKey(owner, inherited, polls1, p) == Some(proofs[p].startKey)
    {
      if p !in known {
        assert FirstKey(owner, inherited, polls, p).None?;
        MemberOf(inherited, poll, members, p);
      }
    }
  }

  lemma MemberOf(inherited: map<Pid, Option<StartKey>>, poll: Poll, members: seq<Member>, p: Pid)
    requires forall i :: 0 <= i < |members| ==> Seen(poll.rows, poll.keys, members[i])
    ensures p in Pids(members) && Tracked(inherited, p, poll.keys(p)) <==>
            exists k :: 0 <= k < |members| && members[k].pid == p && Tracked(inherited, p, members[k].startKey)
  {
    hide Tracked;
    if p in Pids(members) {
      var k :| 0 <= k < |members| && Pids(members)[k] == p;
      assert Seen(poll.rows, poll.keys, members[k]);
    }
    if exists k :: 0 <= k < |members| && members[k].pid == p && Tracked(inherited, p, members[k].startKey) {
      var k :| 0 <= k < |members| && members[k].pid == p && Tracked(inherited, p, members[k].startKey);
      assert Seen(poll.rows, poll.keys, members[k]) && Pids(members)[k] == p;
    }
  }

  datatype Retired = Retired(retired: bool, survivors: map<Pid, Member>, dockerUnobservable: bool)

  /** The proofs whose identity is still read. */
  function Surviving(proofs: Proofs, answers: Pid -> Option<StartKey>): map<Pid, Member> {
    map p | p in proofs && answers(p).Some? && answers(p) == proofs[p].startKey :: proofs[p]
  }

  lemma SurvivingIs(owner: Pid, inherited: map<Pid, Option<StartKey>>, polls: seq<Poll>, proofs: Proofs, answers: Pid -> Option<StartKey>)
    requires Proven(owner, inherited, polls, proofs)
    ensures var live := Surviving(proofs, answers);
            && (forall p :: p in live <==> Survives(owner, inherited, polls, answers, p))
            && (forall p :: p in live ==> live[p].pid == p && FirstKey(owner, inherited, polls, p) == Some(live[p].startKey))
            && (live == map[] <==> forall p :: !Survives(owner, inherited, polls, answers, p))
  {
    hide FirstKey;
    var live := Surviving(proofs, answers);
    assert live == map[] <==> forall p :: p !in live;
  }

  /**
    Polls until nothing is left, or until the deadline, which is when there are
    no more polls; `used` is how many were made.
   */
  method RetireOwnedProcesses(owner: Pid, inherited: map<Pid, Option<StartKey>>, polls: seq<Poll>, expectedContainers: bool)
    returns (r: Retired, used: nat)
    requires polls != []
    ensures 1 <= used <= |polls|
    ensures forall p :: p in r.survivors <==> Survives(owner, inherited, polls[..used], polls[used - 1].answers, p)
    ensures forall p :: p in r.survivors ==>
      r.survivors[p].pid == p && FirstKey(owner, inherited, polls[..used], p) == Some(r.survivors[p].startKey)
    ensures r.dockerUnobservable <==> expectedContainers && !polls[used - 1].available
    ensures r.retired <==> Clear(owner, inherited, polls[..used], expectedContainers)
    ensures r.retired || used == |polls|
    ensures forall n :: 1 <= n < used ==> !Clear(owner, inherited, polls[..n], expectedContainers)
  {
    hide Proven, Survives, FirstKey, Surviving;
    var known: Proofs := map[];
    NothingProven(owner, inherited);
    used := 0;
    var clear, survivors := false, map[];
    assert polls[..0] == [];
    while used == 0 || (!clear && used < |polls|)
      invariant used <= |polls| && Proven(owner, inherited, polls[..used], known)
      invariant used > 0 ==>
        && (clear <==> Clear(owner, inherited, polls[..used], expectedContainers))
        && survivors == Surviving(known, polls[used - 1].answers)
      invariant forall n :: 1 <= n < used ==> !Clear(owner, inherited, polls[..n], expectedContainers)
      decreases |polls| - used
    {
      var poll := polls[used];
      assert polls[..used + 1] == polls[..used] + [poll];
      known := Prove(owner, inherited, poll, known, polls[..used]);
      survivors := Surviving(known, poll.answers);
      used := used + 1;
      SurvivingIs(owner, inherited, polls[..used], known, poll.answers);
      clear := survivors == map[] && poll.containers == [] && !(expectedContainers && !poll.available);
    }
    SurvivingIs(owner, inherited, polls[..used], known, polls[used - 1].answers);
    r := Retired(clear, survivors, expectedContainers && !polls[used - 1].available);
  }

  lemma NothingProven(owner: Pid, inherited: map<Pid, Option<StartKey>>)
    ensures Proven(owner, inherited, [], map[])
  {
  }

  /** All that a barrier reads before its deadline; it polls at least once. */
  datatype Barrier = Barrier(owner: Pid, inherited: map<Pid, Option<StartKey>>, first: Poll, later: seq<Poll>, expectedContainers: bool) {
    function Polls(): (r: seq<Poll>)
      ensures r != []
    {
      [first] + later
    }
  }

  /** Some poll before the deadline leaves nothing to wait for. */
  ghost predicate Cleared(b: Barrier) {
    exists n :: 1 <= n <= |b.Polls()| && Clear(b.owner, b.inherited, b.Polls()[..n], b.expectedContainers)
  }

  /**
    After a poll, nothing that any poll so far first tracked under an identity
    still has it, and no container is listed by a client that had to answer.
   */
  ghost predicate NothingLeft(b: Barrier, n: nat)
    requires 1 <= n <= |b.Polls()|
  {
    var polls := b.Polls();
    && polls[n - 1].containers == [] && (b.expectedContainers ==> polls[n - 1].available)
    && forall i, p :: 0 <= i < n && FirstNew(b.owner, b.inherited, polls, i, p) ==> polls[n - 1].answers(p) != polls[i].keys(p)
  }

  /** What was read for the number is what was read before the run began, which is nothing where it was not there. */
  predicate AsBefore(inherited: map<Pid, Option<StartKey>>, p: Pid, key: Option<StartKey>) {
    (p in inherited && inherited[p] == key) || (p !in inherited && key.None?)
  }

  lemma TrackedIs(inherited: map<Pid, Option<StartKey>>, p: Pid, key: Option<StartKey>)
    ensures Tracked(inherited, p, key) <==> !AsBefore(inherited, p, key)
  {
  }

  /** The poll finds a descendant that can be identified and has a new identity, and all before it read what was read before the run. */
  ghost predicate FirstNew(owner: Pid, inherited: map<Pid, Option<StartKey>>, polls: seq<Poll>, i: nat, p: Pid)
    requires i < |polls|
  {
    && Descendant(polls[i].rows, owner, p) && polls[i].keys(p).Some? && (p in inherited ==> inherited[p] != polls[i].keys(p))
    && forall k :: 0 <= k < i && Descendant(polls[k].rows, owner, p) ==> AsBefore(inherited, p, polls[k].keys(p))
  }

  /** A passed barrier has a poll after which nothing is left. */
  lemma PassedLeavesNothing(b: Barrier) returns (n: nat)
    requires Cleared(b)
    ensures 1 <= n <= |b.Polls()| && NothingLeft(b, n)
  {
    hide Clear, Descendant, Tracked;
    n :| 1 <= n <= |b.Polls()| && Clear(b.owner, b.inherited, b.Polls()[..n], b.expectedContainers);
    var polls := b.Polls()[..n];
    LastPoll(b.owner, b.inherited, polls, b.expectedContainers);
    forall i, p | 0 <= i < n && FirstNew(b.owner, b.inherited, b.Polls(), i, p)
      ensures b.Polls()[n - 1].answers(p) != b.Polls()[i].keys(p)
    {
      PassedMeansGone(b.owner, b.inherited, polls, b.expectedContainers, i, p);
    }
  }

  lemma LastPoll(owner: Pid, inherited: map<Pid, Option<StartKey>>, polls: seq<Poll>, expectedContainers: bool)
    requires polls != [] && Clear(owner, inherited, polls, expectedContainers)
    ensures polls[|polls| - 1].containers == [] && (expectedContainers ==> polls[|polls| - 1].available)
  {
  }

  /**
    A barrier that was passed means that nothing first seen during the run, and
    not there before it, still has the identity it was seen with; that no
    container was listed; and that a run with containers could ask.
   */
  lemma PassedMeansGone(owner: Pid, inherited: map<Pid, Option<StartKey>>, polls: seq<Poll>,
                        expectedContainers: bool, i: nat, p: Pid)
    requires polls != [] && Clear(owner, inherited, polls, expectedContainers)
    requires i < |polls| && FirstNew(owner, inherited, polls, i, p)
    ensures polls[|polls| - 1].answers(p) != polls[i].keys(p)
    ensures polls[|polls| - 1].containers == [] && (expectedContainers ==> polls[|polls| - 1].available)
  {
    hide Descendant, Tracked;
    TrackedIs(inherited, p, polls[i].keys(p));
    forall k | 0 <= k < i && Descendant(polls[k].rows, owner, p) ensures !Tracked(inherited, p, polls[k].keys(p)) {
      TrackedIs(inherited, p, polls[k].keys(p));
    }
    FirstSeenAt(owner, inherited, polls, i, p);
    assert !Survives(owner, inherited, polls, polls[|polls| - 1].answers, p);
  }

  /** The first poll at which a number is tracked settles its identity. */
  lemma {:induction false} FirstSeenAt(owner: Pid, inherited: map<Pid, Option<StartKey>>, polls: seq<Poll>, i: nat, p: Pid)
    requires i < |polls| && Descendant(polls[i].rows, owner, p) && Tracked(inherited, p, polls[i].keys(p))
    requires forall k :: 0 <= k < i && Descendant(polls[k].rows, owner, p) ==> !Tracked(inherited, p, polls[k].keys(p))
    ensures FirstKey(owner, inherited, polls, p) == Some(polls[i].keys(p))
    decreases |polls|
  {
    hide Descendant, Tracked;
    var n := |polls| - 1;
    if i < n {
      FirstSeenAt(owner, inherited, polls[..n], i, p);
    } else {
      NotSeenYet(owner, inherited, polls[..n], p);
    }
  }

  lemma {:induction false} NotSeenYet(owner: Pid, inherited: map<Pid, Option<StartKey>>, polls: seq<Poll>, p: Pid)
    requires forall k :: 0 <= k < |polls| && Descendant(polls[k].rows, owner, p) ==> !Tracked(inherited, p, polls[k].keys(p))
    ensures FirstKey(owner, inherited, polls, p).None?
    decreases |polls|
  {
    hide Descendant, Tracked;
    if polls != [] {
      NotSeenYet(owner, inherited, polls[..|polls| - 1], p);
    }
  }
}
