/**
  The certification gate: how the evidence of one run decides its exit status.
 */
module Certification {
  import opened Options
  import opened Retirement

  // ----------------------------------------------------------------------
  // The document of the certification units
  // ----------------------------------------------------------------------

  datatype Tag = Skipped | Failure | Error | Captured | Unknown(name: string)

  /** A child of a test case; `detail` is its message or its text, without blanks around it. */
  datatype Child = Child(tag: Tag, detail: string)

  /** What a time attribute says; only a number is a time, and only a finite one that is not negative counts. */
  datatype Time = Missing | Blank | Unreadable | NotFinite | Seconds(value: real)

  datatype Case = Case(file: Option<string>, name: Option<string>, time: Time, children: seq<Child>)

  datatype Document = Absent | Malformed | Cases(cases: seq<Case>)

  datatype Verdict = Passed | WasSkipped | Failed | Errored | NotCollected

  datatype Outcome = Outcome(verdict: Verdict, detail: string, seconds: Option<real>)

  predicate Present(s: Option<string>) {
    s.Some? && s.value != ""
  }

  function Text(s: Option<string>): string {
    if s.Some? then s.value else "None"
  }

  function NodeId(c: Case): string {
    Text(c.file) + "::" + Text(c.name)
  }

  predicate IsOutcome(tag: Tag) {
    tag.Skipped? || tag.Failure? || tag.Error?
  }

  function OutcomeChildren(children: seq<Child>): seq<Child> {
    if children == [] then []
    else (if IsOutcome(children[0].tag) then [children[0]] else []) + OutcomeChildren(children[1..])
  }

  function FirstOutcome(children: seq<Child>): Option<Child> {
    if children == [] then None
    else if IsOutcome(children[0].tag) then Some(children[0])
    else FirstOutcome(children[1..])
  }

  function Shortened(s: string): string {
    if |s| > 2000 then s[..2000] else s
  }

  function OutcomeOf(child: Option<Child>, seconds: Option<real>): Outcome {
    if child.None? then Outcome(Passed, "", seconds)
    else
      var verdict := if child.value.tag.Skipped? then WasSkipped else if child.value.tag.Failure? then Failed else Errored;
      Outcome(verdict, Shortened(child.value.detail), seconds)
  }

  const NOT_COLLECTED: Outcome := Outcome(NotCollected, "absent", Some(0.0))

  // ----------------------------------------------------------------------
  // The strict reader
  // ----------------------------------------------------------------------

  datatype Rejection =
    | JunitMalformed | MissingIdentity | UnexpectedRow | DuplicateRow | TimingMissing | TimingInvalid | TimingNonFinite
    | UnknownChild | Contradictory

  /** What is wrong with a row, given the rows before it; the first thing, in the order they are looked at. */
  function Problem(expected: seq<string>, seen: set<string>, c: Case): Option<Rejection> {
    if !Present(c.file) || !Present(c.name) then Some(MissingIdentity)
    else if NodeId(c) !in expected then Some(UnexpectedRow)
    else if NodeId(c) in seen then Some(DuplicateRow)
    else if c.time.Missing? then Some(TimingMissing)
    else if c.time.Blank? || c.time.Unreadable? then Some(TimingInvalid)
    else if c.time.NotFinite? || c.time.value < 0.0 then Some(TimingNonFinite)
    else if exists k :: 0 <= k < |c.children| && c.children[k].tag.Unknown? then Some(UnknownChild)
    else if |OutcomeChildren(c.children)| > 1 then Some(Contradictory)
    else None
  }

  function Ids(cases: seq<Case>): set<string> {
    set c | c in cases :: NodeId(c)
  }

  /** No row has a problem. */
  predicate Clean(expected: seq<string>, cases: seq<Case>) {
    forall k :: 0 <= k < |cases| ==> Problem(expected, Ids(cases[..k]), cases[k]).None?
  }

  predicate Acceptable(expected: seq<string>, doc: Document) {
    doc.Absent? || (doc.Cases? && Clean(expected, doc.cases))
  }

  /** The last row of a node. */
  function LastRow(cases: seq<Case>, id: string): Option<Case> {
    if cases == [] then None
    else if NodeId(cases[|cases| - 1]) == id then Some(cases[|cases| - 1])
    else LastRow(cases[..|cases| - 1], id)
  }

  function StrictOutcome(cases: seq<Case>, id: string): Outcome {
    var c := LastRow(cases, id);
    if c.None? then NOT_COLLECTED
    else
      var found := OutcomeChildren(c.value.children);
      OutcomeOf(if found == [] then None else Some(found[0]), if c.value.time.Seconds? then Some(c.value.time.value) else None)
  }

  function Named(expected: seq<string>): set<string> {
    set id | id in expected
  }

  type Outcomes = map<string, Outcome>

  datatype Admission = Admitted(outcomes: Outcomes) | Rejected(reason: Rejection)

  /** Reads the document, refusing it at the first row that has a problem. */
  method JunitAdmission(doc: Document, expected: seq<string>) returns (r: Admission)
    ensures r.Admitted? <==> Acceptable(expected, doc)
    ensures r.Admitted? ==> r.outcomes.Keys == Named(expected)
    ensures r.Admitted? && doc.Absent? ==> forall id :: id in expected ==> r.outcomes[id] == NOT_COLLECTED
    ensures r.Admitted? && doc.Cases? ==> forall id :: id in expected ==> r.outcomes[id] == StrictOutcome(doc.cases, id)
    ensures doc.Malformed? ==> r == Rejected(JunitMalformed)
    ensures r.Rejected? && doc.Cases? ==> exists k ::
      && 0 <= k < |doc.cases| && Clean(expected, doc.cases[..k])
      && Problem(expected, Ids(doc.cases[..k]), doc.cases[k]) == Some(r.reason)
  {
    match doc
    case Absent => r := Admitted(map id | id in expected :: NOT_COLLECTED);
    case Malformed => r := Rejected(JunitMalformed);
    case Cases(cases) =>
      r := ReadCases(cases, expected);
  }

  method ReadCases(cases: seq<Case>, expected: seq<string>) returns (r: Admission)
    ensures r.Admitted? <==> Clean(expected, cases)
    ensures r.Admitted? ==> r.outcomes.Keys == Named(expected)
    ensures r.Admitted? ==> forall id :: id in expected ==> r.outcomes[id] == StrictOutcome(cases, id)
    ensures r.Rejected? ==> exists k ::
      && 0 <= k < |cases| && Clean(expected, cases[..k])
      && Problem(expected, Ids(cases[..k]), cases[k]) == Some(r.reason)
  {
    hide Problem, StrictOutcome, OutcomeOf, OutcomeChildren, NodeId;
    var seen: Outcomes, i := map[], 0;
    while i < |cases|
      invariant i <= |cases| && Clean(expected, cases[..i]) && seen.Keys == Ids(cases[..i])
      invariant forall id :: id in seen ==> seen[id] == StrictOutcome(cases[..i], id)
    {
      var c := cases[i];
      var problem := Problem(expected, seen.Keys, c);
      if problem.Some? {
        NotClean(expected, cases, i);
        return Rejected(problem.value);
      }
      OneMoreRow(expected, cases, i);
      ghost var before := seen;
      seen := seen[NodeId(c) := RowOutcome(c)];
      forall id | id in seen ensures seen[id] == StrictOutcome(cases[..i + 1], id) {
        RowsUpTo(cases, i, id);
      }
      i := i + 1;
    }
    assert cases[..i] == cases;
    forall id | id in expected && id !in seen ensures StrictOutcome(cases, id) == NOT_COLLECTED {
      NoRow(cases, id);
    }
    r := Admitted(map id | id in expected :: if id in seen then seen[id] else NOT_COLLECTED);
  }

  function RowOutcome(c: Case): Outcome {
    var found := OutcomeChildren(c.children);
    OutcomeOf(if found == [] then None else Some(found[0]), if c.time.Seconds? then Some(c.time.value) else None)
  }

  lemma NotClean(expected: seq<string>, cases: seq<Case>, i: nat)
    requires i < |cases| && Problem(expected, Ids(cases[..i]), cases[i]).Some?
    ensures !Clean(expected, cases)
  {
    hide Problem;
  }

  lemma OneMoreRow(expected: seq<string>, cases: seq<Case>, i: nat)
    requires i < |cases| && Clean(expected, cases[..i]) && Problem(expected, Ids(cases[..i]), cases[i]).None?
    ensures Clean(expected, cases[..i + 1]) && Ids(cases[..i + 1]) == Ids(cases[..i]) + {NodeId(cases[i])}
  {
    hide Problem, NodeId;
    var upTo := cases[..i + 1];
    assert upTo == cases[..i] + [cases[i]];
    forall k | 0 <= k < |upTo| ensures Problem(expected, Ids(upTo[..k]), upTo[k]).None? {
      assert upTo[..k] == cases[..k];
      if k < i {
        assert cases[..i][..k] == cases[..k] && cases[..i][k] == cases[k];
      }
    }
  }

  lemma RowsUpTo(cases: seq<Case>, i: nat, id: string)
    requires i < |cases|
    ensures StrictOutcome(cases[..i + 1], id) == if NodeId(cases[i]) == id then RowOutcome(cases[i]) else StrictOutcome(cases[..i], id)
  {
    hide OutcomeOf, OutcomeChildren, NodeId;
    assert cases[..i + 1][..i] == cases[..i];
  }

  lemma {:induction false} NoRow(cases: seq<Case>, id: string)
    requires id !in Ids(cases)
    ensures LastRow(cases, id).None? && StrictOutcome(cases, id) == NOT_COLLECTED
  {
    hide OutcomeOf, OutcomeChildren, NodeId;
    if cases != [] {
      var n := |cases| - 1;
      assert cases[n] in cases;
      assert forall c :: c in cases[..n] ==> c in cases;
      NoRow(cases[..n], id);
    }
  }

  // ----------------------------------------------------------------------
  // The lenient reader
  // ----------------------------------------------------------------------

  function LenientSeconds(t: Time): Option<real> {
    if t.Missing? || t.Blank? then Some(0.0) else if t.Seconds? then Some(t.value) else None
  }

  function LenientOutcome(cases: seq<Case>, id: string): Outcome {
    var c := LastRow(cases, id);
    if c.None? then NOT_COLLECTED else OutcomeOf(FirstOutcome(c.value.children), LenientSeconds(c.value.time))
  }

  /** The reader raises on a document that cannot be parsed and on a time that is no number. */
  predicate Raises(doc: Document) {
    doc.Malformed? || (doc.Cases? && exists k :: 0 <= k < |doc.cases| && doc.cases[k].time.Unreadable?)
  }

  /** Reads what each expected node did, or nothing where it raises. */
  method ReadOutcomes(doc: Document, expected: seq<string>) returns (r: Option<Outcomes>)
    ensures r.None? <==> Raises(doc)
    ensures r.Some? ==> r.value.Keys == Named(expected)
    ensures r.Some? ==> forall id :: id in expected ==>
      r.value[id] == if doc.Cases? then LenientOutcome(doc.cases, id) else NOT_COLLECTED
  {
    hide OutcomeOf, FirstOutcome, NodeId;
    match doc
    case Absent => r := Some(map id | id in expected :: NOT_COLLECTED);
    case Malformed => r := None;
    case Cases(cases) =>
      var reported: Outcomes, i := map[], 0;
      while i < |cases|
        invariant i <= |cases| && forall k :: 0 <= k < i ==> !cases[k].time.Unreadable?
        invariant forall id :: id in reported <==> LastRow(cases[..i], id).Some?
        invariant forall id :: id in reported ==> reported[id] == LenientOutcome(cases[..i], id)
      {
        assert cases[..i + 1][..i] == cases[..i];
        if cases[i].time.Unreadable? {
          return None;
        }
        reported := reported[NodeId(cases[i]) := OutcomeOf(FirstOutcome(cases[i].children), LenientSeconds(cases[i].time))];
        i := i + 1;
      }
      assert cases[..i] == cases;
      r := Some(map id | id in expected :: if id in reported then reported[id] else NOT_COLLECTED);
  }

  lemma {:induction false} FirstIsFirst(children: seq<Child>)
    ensures FirstOutcome(children) ==
            if OutcomeChildren(children) == [] then None else Some(OutcomeChildren(children)[0])
  {
    if children != [] {
      FirstIsFirst(children[1..]);
    }
  }

  lemma {:induction false} LastRowIs(cases: seq<Case>, id: string) returns (k: nat)
    requires LastRow(cases, id).Some?
    ensures k < |cases| && cases[k] == LastRow(cases, id).value && NodeId(cases[k]) == id
  {
    hide NodeId;
    k := |cases| - 1;
    if NodeId(cases[k]) != id {
      k := LastRowIs(cases[..k], id);
    }
  }

  lemma CleanRow(expected: seq<string>, cases: seq<Case>, k: nat)
    requires Clean(expected, cases) && k < |cases|
    ensures cases[k].time.Seconds? && NodeId(cases[k]) in expected && NodeId(cases[k]) !in Ids(cases[..k])
  {
    assert Problem(expected, Ids(cases[..k]), cases[k]).None?;
  }

  /** On a document that the strict reader admits, the lenient reader reads the same. */
  lemma ReadersAgree(expected: seq<string>, doc: Document, id: string)
    requires Acceptable(expected, doc) && id in expected
    ensures !Raises(doc)
    ensures doc.Cases? ==> LenientOutcome(doc.cases, id) == StrictOutcome(doc.cases, id)
  {
    hide NodeId, Ids, Clean;
    if doc.Cases? {
      var cases := doc.cases;
      forall k | 0 <= k < |cases| ensures !cases[k].time.Unreadable? {
        CleanRow(expected, cases, k);
      }
      if LastRow(cases, id).Some? {
        var k := LastRowIs(cases, id);
        CleanRow(expected, cases, k);
        FirstIsFirst(cases[k].children);
      }
    }
  }

  // ----------------------------------------------------------------------
  // The verdict
  // ----------------------------------------------------------------------

  datatype Ruling = NotCertifiable(reason: string) | FailedRun(reason: string) | Certified

  const REFUSAL: string := "NOT CERTIFIABLE"

  predicate Mentions(s: string, t: string) {
    exists k :: 0 <= k <= |s| && t <= s[k..]
  }

  predicate DidNotRun(o: Outcome) {
    o.verdict.WasSkipped? || o.verdict.NotCollected?
  }

  /** The evidence of one phase; a part that was not gathered is not there. */
  datatype Evidence = Evidence(retired: bool, preflight: Option<bool>, postflight: Option<bool>,
                               outcomes: Option<Outcomes>, returncode: Option<int>, admission: Option<Admission>)

  /** The strongest refusal first: void evidence before a failed unit. */
  function Rule(e: Evidence): Ruling {
    var outcomes: Outcomes := if e.outcomes.Some? then e.outcomes.value else map[];
    if !e.retired then NotCertifiable("owned_processes_not_retired")
    else if e.preflight == Some(false) then NotCertifiable("host_unqualified_preflight")
    else if e.postflight == Some(false) then NotCertifiable("host_unqualified_postflight")
    else if e.admission.Some? && e.admission.value.Rejected? then NotCertifiable("certification_junit_rejected")
    else if exists id :: id in outcomes && DidNotRun(outcomes[id]) then NotCertifiable("certification_unit_did_not_run")
    else if exists id :: id in outcomes && !outcomes[id].verdict.Passed? && Mentions(outcomes[id].detail, REFUSAL) then
      NotCertifiable("certification_unit_not_certifiable")
    else if exists id :: id in outcomes && !outcomes[id].verdict.Passed? then FailedRun("certification_unit_failed")
    else if e.returncode != None && e.returncode != Some(0) then FailedRun("certification_command_failed")
    else Certified
  }

  datatype CheckoutState = CheckoutState(observable: bool, clean: bool)

  predicate ExactShaAdmitted(start: CheckoutState, end: CheckoutState) {
    start.observable && start.clean && end.observable && end.clean
  }

  /** With nothing refused, certified means that all units passed and the command did not fail. */
  lemma CertifiedWhen(e: Evidence)
    requires e.outcomes.Some?
    ensures Rule(e).Certified? <==>
      && e.retired && e.preflight != Some(false) && e.postflight != Some(false)
      && !(e.admission.Some? && e.admission.value.Rejected?)
      && (forall id :: id in e.outcomes.value ==> e.outcomes.value[id].verdict.Passed?)
      && (e.returncode.None? || e.returncode == Some(0))
  {
    hide Mentions;
    assert forall id :: id in e.outcomes.value && DidNotRun(e.outcomes.value[id]) ==> !e.outcomes.value[id].verdict.Passed?;
  }

  // ----------------------------------------------------------------------
  // The phase
  // ----------------------------------------------------------------------

  /** What a certification phase meets: every answer that the host, the checkout and the units give. */
  datatype Phase = Phase(start: CheckoutState, end: CheckoutState, barrier: Barrier, qualifiedBefore: bool, qualifiedAfter: bool,
                         document: Document, returncode: Option<int>)

  datatype Certificate = Certificate(ruling: Ruling, exactSha: bool)

  /** The unit has one row in the document, and there it passed. */
  predicate PassedOnce(doc: Document, id: string) {
    doc.Cases? && exists k ::
      && 0 <= k < |doc.cases| && NodeId(doc.cases[k]) == id && OutcomeChildren(doc.cases[k].children) == []
      && forall j :: 0 <= j < |doc.cases| && j != k ==> NodeId(doc.cases[j]) != id
  }

  /** All that a certificate stands for. */
  ghost predicate Earned(phase: Phase, expected: seq<string>) {
    && Cleared(phase.barrier) && phase.qualifiedBefore && phase.qualifiedAfter
    && phase.start.observable && phase.start.clean && phase.end.observable && phase.end.clean
    && Acceptable(expected, phase.document)
    && (forall id :: id in expected ==> PassedOnce(phase.document, id))
    && (phase.returncode.None? || phase.returncode == Some(0))
  }

  function AdmittedOutcome(doc: Document, id: string): Outcome {
    if doc.Cases? then StrictOutcome(doc.cases, id) else NOT_COLLECTED
  }

  /** A row that says everything a strict reader asks for, and nothing that contradicts itself. */
  ghost predicate Plain(expected: seq<string>, c: Case) {
    && c.file.Some? && c.file.value != "" && c.name.Some? && c.name.value != ""
    && c.file.value + "::" + c.name.value in expected
    && c.time.Seconds? && c.time.value >= 0.0
    && (forall child :: child in c.children ==> !child.tag.Unknown?)
    && forall j, k :: Decides(c, j) && Decides(c, k) ==> j == k
  }

  /** The child says that the unit was skipped or failed. */
  predicate Decides(c: Case, k: int) {
    0 <= k < |c.children| && (c.children[k].tag.Skipped? || c.children[k].tag.Failure? || c.children[k].tag.Error?)
  }

  /** A document is admitted exactly if every row says so much, each about another expected unit. */
  lemma AcceptableIs(expected: seq<string>, cases: seq<Case>)
    ensures Acceptable(expected, Cases(cases)) <==>
      && (forall k :: 0 <= k < |cases| ==> Plain(expected, cases[k]))
      && forall j, k :: 0 <= j < k < |cases| ==> NodeId(cases[j]) != NodeId(cases[k])
  {
    hide Problem, Plain, NodeId;
    forall k | 0 <= k < |cases|
      ensures Problem(expected, Ids(cases[..k]), cases[k]).None? <==>
        Plain(expected, cases[k]) && forall j :: 0 <= j < k ==> NodeId(cases[j]) != NodeId(cases[k])
    {
      PlainIs(expected, Ids(cases[..k]), cases[k]);
      SeenBefore(cases, k);
    }
  }

  lemma PlainIs(expected: seq<string>, seen: set<string>, c: Case)
    ensures Problem(expected, seen, c).None? <==> Plain(expected, c) && NodeId(c) !in seen
  {
    hide OutcomeChildren;
    OneOutcomeIs(c.children);
    assert forall k :: Decides(c, k) <==> 0 <= k < |c.children| && IsOutcome(c.children[k].tag);
  }

  /** What each reason says of a row, whatever else may be wrong with it. */
  ghost predicate Wrong(expected: seq<string>, seen: set<string>, c: Case, reason: Rejection) {
    match reason
    case JunitMalformed => false
    case MissingIdentity => c.file.None? || c.file.value == "" || c.name.None? || c.name.value == ""
    case UnexpectedRow => NodeId(c) !in expected
    case DuplicateRow => NodeId(c) in seen
    case TimingMissing => c.time.Missing?
    case TimingInvalid => c.time.Blank? || c.time.Unreadable?
    case TimingNonFinite => c.time.NotFinite? || (c.time.Seconds? && c.time.value < 0.0)
    case UnknownChild => exists child :: child in c.children && child.tag.Unknown?
    case Contradictory => exists j, k :: Decides(c, j) && Decides(c, k) && j != k
  }

  /** The order in which a row is looked at. */
  function Turn(reason: Rejection): nat {
    match reason
    case JunitMalformed => 0
    case MissingIdentity => 1
    case UnexpectedRow => 2
    case DuplicateRow => 3
    case TimingMissing => 4
    case TimingInvalid => 5
    case TimingNonFinite => 6
    case UnknownChild => 7
    case Contradictory => 8
  }

  /** The reason a row is rejected for is the first that holds of it. */
  lemma FirstReason(expected: seq<string>, seen: set<string>, c: Case)
    ensures match Problem(expected, seen, c)
            case None => forall r: Rejection :: !Wrong(expected, seen, c, r)
            case Some(reason) =>
              Wrong(expected, seen, c, reason) && forall r: Rejection :: Turn(r) < Turn(reason) ==> !Wrong(expected, seen, c, r)
  {
    hide OutcomeChildren, NodeId;
    OneOutcomeIs(c.children);
    assert forall k :: Decides(c, k) <==> 0 <= k < |c.children| && IsOutcome(c.children[k].tag);
    assert Wrong(expected, seen, c, MissingIdentity) <==> !Present(c.file) || !Present(c.name);
    assert Wrong(expected, seen, c, UnexpectedRow) <==> NodeId(c) !in expected;
    assert Wrong(expected, seen, c, DuplicateRow) <==> NodeId(c) in seen;
    assert Wrong(expected, seen, c, TimingMissing) <==> c.time.Missing?;
    assert Wrong(expected, seen, c, TimingInvalid) <==> c.time.Blank? || c.time.Unreadable?;
    assert Wrong(expected, seen, c, TimingNonFinite) <==> c.time.NotFinite? || (c.time.Seconds? && c.time.value < 0.0);
    assert Wrong(expected, seen, c, UnknownChild) <==> exists k :: 0 <= k < |c.children| && c.children[k].tag.Unknown?;
    assert Wrong(expected, seen, c, Contradictory) <==> |OutcomeChildren(c.children)| > 1;
  }

  lemma SeenBefore(cases: seq<Case>, k: nat)
    requires k < |cases|
    ensures NodeId(cases[k]) in Ids(cases[..k]) <==> exists j :: 0 <= j < k && NodeId(cases[j]) == NodeId(cases[k])
  {
    hide NodeId;
    forall j | 0 <= j < k ensures cases[j] in cases[..k] {
      assert cases[..k][j] == cases[j];
    }
  }

  lemma {:induction false} OneOutcomeIs(children: seq<Child>)
    ensures |OutcomeChildren(children)| <= 1 <==>
      forall j, k :: 0 <= j < |children| && 0 <= k < |children| && IsOutcome(children[j].tag) && IsOutcome(children[k].tag) ==> j == k
    ensures OutcomeChildren(children) == [] <==> forall j :: 0 <= j < |children| ==> !IsOutcome(children[j].tag)
    decreases |children|
  {
    if children != [] {
      var rest := children[1..];
      OneOutcomeIs(rest);
      assert forall j :: 0 < j < |children| ==> children[j] == rest[j - 1];
    }
  }

  /** In a clean document no two rows are for one unit. */
  lemma RowsDiffer(expected: seq<string>, cases: seq<Case>, j: nat, k: nat)
    requires Clean(expected, cases) && j < k < |cases|
    ensures NodeId(cases[j]) != NodeId(cases[k])
  {
    hide NodeId;
    CleanRow(expected, cases, k);
    assert cases[..k][j] == cases[j];
    assert cases[j] in cases[..k];
  }

  /** A unit passed, as read from an admitted document, exactly when its only row says so. */
  lemma PassedIs(expected: seq<string>, doc: Document, id: string)
    requires Acceptable(expected, doc) && id in expected
    ensures AdmittedOutcome(doc, id).verdict.Passed? <==> PassedOnce(doc, id)
  {
    hide NodeId, Clean, Problem;
    if doc.Cases? {
      var cases := doc.cases;
      if LastRow(cases, id).Some? {
        var k := LastRowIs(cases, id);
        forall j | 0 <= j < |cases| && j != k ensures NodeId(cases[j]) != id {
          RowsDiffer(expected, cases, if j < k then j else k, if j < k then k else j);
        }
      } else {
        NoneLast(cases, id);
      }
    }
  }

  lemma {:induction false} NoneLast(cases: seq<Case>, id: string)
    requires LastRow(cases, id).None?
    ensures forall k :: 0 <= k < |cases| ==> NodeId(cases[k]) != id
  {
    hide NodeId;
    if cases != [] {
      NoneLast(cases[..|cases| - 1], id);
      assert forall k :: 0 <= k < |cases| - 1 ==> cases[k] == cases[..|cases| - 1][k];
    }
  }

  // ----------------------------------------------------------------------
  // The ruling, told from the rows
  // ----------------------------------------------------------------------

  ghost predicate HasRow(doc: Document, id: string) {
    doc.Cases? && exists k :: 0 <= k < |doc.cases| && NodeId(doc.cases[k]) == id
  }

  /** A row of the unit has this child. */
  ghost predicate Says(doc: Document, id: string, child: Child) {
    doc.Cases? && exists k :: 0 <= k < |doc.cases| && NodeId(doc.cases[k]) == id && child in doc.cases[k].children
  }

  ghost predicate SaysSkipped(doc: Document, id: string) {
    exists child :: Says(doc, id, child) && child.tag == Skipped
  }

  ghost predicate SaysBroken(doc: Document, id: string) {
    exists child :: Says(doc, id, child) && (child.tag == Failure || child.tag == Error)
  }

  /** It failed, and within the first 2000 characters of what it says the refusal is spelled out. */
  ghost predicate SaysRefused(doc: Document, id: string) {
    exists child :: Says(doc, id, child) && (child.tag == Failure || child.tag == Error) && SpellsOut(child.detail, "NOT CERTIFIABLE")
  }

  predicate SpellsOut(s: string, t: string) {
    exists k :: 0 <= k <= |s| && t <= s[k..] && k + |t| <= 2000
  }

  lemma ShortenedMentions(s: string, t: string)
    ensures Mentions(Shortened(s), t) <==> SpellsOut(s, t)
  {
    var short := Shortened(s);
    if Mentions(short, t) {
      var k :| 0 <= k <= |short| && t <= short[k..];
      PrefixWithin(s, t, k);
    }
    if SpellsOut(s, t) {
      var k :| 0 <= k <= |s| && t <= s[k..] && k + |t| <= 2000;
      PrefixWithin(s, t, k);
    }
  }

  lemma PrefixWithin(s: string, t: string, k: nat)
    requires k <= |s|
    ensures k <= |Shortened(s)| && t <= Shortened(s)[k..] ==> t <= s[k..] && k + |t| <= 2000
    ensures t <= s[k..] && k + |t| <= 2000 ==> k <= |Shortened(s)| && t <= Shortened(s)[k..]
  {
    var short := Shortened(s);
    if k <= |short| {
      assert short[k..] == s[k..][..|short| - k];
    }
  }

  lemma {:induction false} OutcomesAmong(children: seq<Child>, child: Child)
    ensures child in OutcomeChildren(children) <==> child in children && IsOutcome(child.tag)
  {
    if children != [] {
      OutcomesAmong(children[1..], child);
      assert child in children <==> child == children[0] || child in children[1..];
    }
  }

  /** What is read for a unit is what its row says. */
  lemma ReadIsSaid(expected: seq<string>, doc: Document, id: string, child: Child)
    requires Acceptable(expected, doc) && id in expected
    ensures var o := AdmittedOutcome(doc, id);
            && (o.verdict.NotCollected? <==> !HasRow(doc, id))
            && (Says(doc, id, child) && IsOutcome(child.tag) ==>
                  && o.detail == Shortened(child.detail)
                  && o.verdict == (if child.tag.Skipped? then WasSkipped else if child.tag.Failure? then Failed else Errored))
  {
    hide NodeId, Clean, Problem;
    if doc.Cases? {
      var cases := doc.cases;
      if LastRow(cases, id).Some? {
        var k := LastRowIs(cases, id);
        OneOutcome(expected, cases, k);
        OutcomesAmong(cases[k].children, child);
        forall j | 0 <= j < |cases| && j != k ensures NodeId(cases[j]) != id {
          RowsDiffer(expected, cases, if j < k then j else k, if j < k then k else j);
        }
      } else {
        NoneLast(cases, id);
      }
    }
  }

  lemma OneOutcome(expected: seq<string>, cases: seq<Case>, k: nat)
    requires Clean(expected, cases) && k < |cases|
    ensures |OutcomeChildren(cases[k].children)| <= 1
  {
    assert Problem(expected, Ids(cases[..k]), cases[k]).None?;
  }

  /** A verdict that is not passed was said by some child. */
  lemma SaidBy(expected: seq<string>, doc: Document, id: string) returns (child: Child)
    requires Acceptable(expected, doc) && id in expected
    requires AdmittedOutcome(doc, id).verdict in {WasSkipped, Failed, Errored}
    ensures Says(doc, id, child) && IsOutcome(child.tag)
  {
    hide NodeId, Clean, Problem;
    var cases := doc.cases;
    var k := LastRowIs(cases, id);
    child := OutcomeChildren(cases[k].children)[0];
    OutcomesAmong(cases[k].children, child);
  }

  /** So the verdicts are told by the rows. */
  lemma VerdictIs(expected: seq<string>, doc: Document, id: string)
    requires Acceptable(expected, doc) && id in expected
    ensures var o := AdmittedOutcome(doc, id);
            && (o.verdict.NotCollected? <==> !HasRow(doc, id))
            && (o.verdict.WasSkipped? <==> SaysSkipped(doc, id))
            && (o.verdict.Failed? || o.verdict.Errored? <==> SaysBroken(doc, id))
            && ((o.verdict.Failed? || o.verdict.Errored?) && Mentions(o.detail, REFUSAL) <==> SaysRefused(doc, id))
  {
    hide Acceptable, AdmittedOutcome, Says, HasRow, Mentions, SpellsOut, Shortened;
    ReadIsSaid(expected, doc, id, Child(Captured, ""));
    forall child ensures var o := AdmittedOutcome(doc, id);
                         && (Says(doc, id, child) && IsOutcome(child.tag) ==>
                               && o.detail == Shortened(child.detail)
                               && o.verdict == (if child.tag.Skipped? then WasSkipped else if child.tag.Failure? then Failed else Errored))
                         && (Mentions(Shortened(child.detail), REFUSAL) <==> SpellsOut(child.detail, REFUSAL))
    {
      ReadIsSaid(expected, doc, id, child);
      ShortenedMentions(child.detail, REFUSAL);
    }
    if AdmittedOutcome(doc, id).verdict in {WasSkipped, Failed, Errored} {
      var child := SaidBy(expected, doc, id);
      ReadIsSaid(expected, doc, id, child);
      assert Says(doc, id, child);
    }
  }

  /** What a phase deserves, by its answers and by what the rows of the document say. */
  ghost function Deserved(phase: Phase, expected: seq<string>): Ruling {
    var doc := phase.document;
    if !Cleared(phase.barrier) then NotCertifiable("owned_processes_not_retired")
    else if !phase.qualifiedBefore then NotCertifiable("host_unqualified_preflight")
    else if !phase.qualifiedAfter then NotCertifiable("host_unqualified_postflight")
    else if !Acceptable(expected, doc) then NotCertifiable("certification_junit_rejected")
    else if exists id :: id in expected && (!HasRow(doc, id) || SaysSkipped(doc, id)) then
      NotCertifiable("certification_unit_did_not_run")
    else if exists id :: id in expected && SaysRefused(doc, id) then NotCertifiable("certification_unit_not_certifiable")
    else if exists id :: id in expected && SaysBroken(doc, id) then FailedRun("certification_unit_failed")
    else if phase.returncode != None && phase.returncode != Some(0) then FailedRun("certification_command_failed")
    else if !ExactShaAdmitted(phase.start, phase.end) then NotCertifiable("exact_sha_certification_rejected")
    else Certified
  }

  /** The ruling on evidence gathered from an admitted document is what its rows deserve. */
  lemma RuledAsSaid(e: Evidence, phase: Phase, expected: seq<string>)
    requires Acceptable(expected, phase.document) && e.outcomes.Some? && e.outcomes.value.Keys == Named(expected)
    requires forall id :: id in expected ==> e.outcomes.value[id] == AdmittedOutcome(phase.document, id)
    requires Cleared(phase.barrier) && phase.qualifiedBefore && e.retired && e.preflight == Some(true)
    requires e.postflight == Some(phase.qualifiedAfter) && e.returncode == phase.returncode
    requires e.admission.Some? && e.admission.value.Admitted?
    ensures Deserved(phase, expected) == if Rule(e).Certified? && !ExactShaAdmitted(phase.start, phase.end)
                                         then NotCertifiable("exact_sha_certification_rejected") else Rule(e)
  {
    hide Acceptable, AdmittedOutcome, HasRow, SaysSkipped, SaysBroken, SaysRefused, Mentions, ExactShaAdmitted, Cleared;
    var outcomes, doc := e.outcomes.value, phase.document;
    forall id | id in expected
      ensures var o := outcomes[id];
              && (o.verdict.NotCollected? <==> !HasRow(doc, id))
              && (o.verdict.WasSkipped? <==> SaysSkipped(doc, id))
              && (o.verdict.Failed? || o.verdict.Errored? <==> SaysBroken(doc, id))
              && ((o.verdict.Failed? || o.verdict.Errored?) && Mentions(o.detail, REFUSAL) <==> SaysRefused(doc, id))
    {
      VerdictIs(expected, doc, id);
    }
    assert forall id :: id in outcomes <==> id in expected;
  }

  /** The phase gets as far as the document, which is rejected and which the lenient reader then raises on. */
  ghost predicate EndsInException(phase: Phase, expected: seq<string>) {
    Cleared(phase.barrier) && phase.qualifiedBefore && Raises(phase.document) && !Acceptable(expected, phase.document)
  }

  /** Retire, qualify, run the units, qualify again; nothing when a reader raises. */
  method RunCertificationPhase(phase: Phase, expected: seq<string>) returns (r: Option<Certificate>)
    ensures r.None? <==> EndsInException(phase, expected)
    ensures r.Some? ==> (r.value.ruling.Certified? <==> Earned(phase, expected))
    ensures r.Some? ==> r.value == Certificate(Deserved(phase, expected), ExactShaAdmitted(phase.start, phase.end))
  {
    hide Acceptable, Raises, PassedOnce, StrictOutcome, Rule, Cleared, Deserved;
    var b := phase.barrier;
    var retirement, used := RetireOwnedProcesses(b.owner, b.inherited, b.Polls(), b.expectedContainers);
    RetiredIsPassed(b, used, retirement.retired);
    var preflight: Option<bool>, postflight: Option<bool> := None, None;
    var outcomes: Option<Outcomes>, admission: Option<Admission>, returncode: Option<int> := None, None, None;
    if retirement.retired {
      preflight := Some(phase.qualifiedBefore);
    }
    if preflight == Some(true) {
      returncode := phase.returncode;
      postflight := Some(phase.qualifiedAfter);
      var a := JunitAdmission(phase.document, expected);
      admission := Some(a);
      if a.Admitted? {
        outcomes := Some(a.outcomes);
        NotMalformed(expected, phase.document);
        AllPassed(expected, phase.document, a.outcomes);
      } else {
        outcomes := ReadOutcomes(phase.document, expected);
        if outcomes.None? {
          return None;
        }
      }
    }
    var evidence := Evidence(retirement.retired, preflight, postflight, outcomes, returncode, admission);
    var ruling := Rule(evidence);
    if outcomes.Some? {
      CertifiedWhen(evidence);
    } else {
      NotGathered(evidence);
    }
    RuledAsDeserved(evidence, phase, expected);
    var exactSha := ExactShaAdmitted(phase.start, phase.end);
    if ruling.Certified? && !exactSha {
      ruling := NotCertifiable("exact_sha_certification_rejected");
    }
    r := Some(Certificate(ruling, exactSha));
  }

  /** With a document that is no XML, whatever units are expected, the phase ends with no certificate exactly when it reads it at all. */
  lemma MalformedRaises(phase: Phase, expected: seq<string>)
    requires phase.document.Malformed?
    ensures EndsInException(phase, expected) <==> Cleared(phase.barrier) && phase.qualifiedBefore
    ensures !Earned(phase, expected)
  {
    hide Cleared;
  }

  /** One phase that does: nothing to wait for, a qualified host, and such a document. */
  method MalformedPhase(checkout: CheckoutState, expected: seq<string>) returns (r: Option<Certificate>)
    ensures r.None?
  {
    hide Acceptable, Raises;
    var poll := Poll([], p => None, p => None, [], true);
    var phase := Phase(checkout, checkout, Barrier(0, map[], poll, [], false), true, true, Malformed, None);
    QuietIsCleared(phase.barrier);
    MalformedRaises(phase, expected);
    r := RunCertificationPhase(phase, expected);
  }

  lemma QuietIsCleared(b: Barrier)
    requires b.first.containers == [] && (b.expectedContainers ==> b.first.available) && forall p :: b.first.answers(p).None?
    ensures Cleared(b)
  {
    hide FirstKey;
    var polls := b.Polls()[..1];
    assert polls[|polls| - 1] == b.first;
    assert Clear(b.owner, b.inherited, polls, b.expectedContainers);
  }

  /** Polling until it is clear, or until the deadline, passes the barrier whenever any poll would. */
  lemma RetiredIsPassed(b: Barrier, used: nat, retired: bool)
    requires 1 <= used <= |b.Polls()| && (retired <==> Clear(b.owner, b.inherited, b.Polls()[..used], b.expectedContainers))
    requires retired || used == |b.Polls()|
    requires forall n :: 1 <= n < used ==> !Clear(b.owner, b.inherited, b.Polls()[..n], b.expectedContainers)
    ensures retired <==> Cleared(b)
  {
    hide Clear;
  }

  /** A certificate that was earned had its units measured with nothing of the lanes left. */
  lemma EarnedLeavesNothing(phase: Phase, expected: seq<string>) returns (n: nat)
    requires Earned(phase, expected)
    ensures 1 <= n <= |phase.barrier.Polls()| && NothingLeft(phase.barrier, n)
  {
    hide Acceptable, PassedOnce, Cleared, NothingLeft;
    n := PassedLeavesNothing(phase.barrier);
  }

  lemma NotMalformed(expected: seq<string>, doc: Document)
    requires Acceptable(expected, doc)
    ensures !doc.Malformed?
  {
  }

  /** Where nothing was gathered, or the document is rejected, the ruling is what the phase deserves as well. */
  lemma RuledAsDeserved(e: Evidence, phase: Phase, expected: seq<string>)
    requires e.retired <==> Cleared(phase.barrier)
    requires e.preflight == if e.retired then Some(phase.qualifiedBefore) else None
    requires if e.preflight == Some(true)
             then e.postflight == Some(phase.qualifiedAfter) && e.returncode == phase.returncode && e.admission.Some? && e.outcomes.Some?
                  && (e.admission.value.Admitted? <==> Acceptable(expected, phase.document))
             else e.postflight == None && e.returncode == None && e.admission == None && e.outcomes == None
    requires e.admission.Some? && e.admission.value.Admitted? ==>
               e.outcomes.value.Keys == Named(expected)
               && forall id :: id in expected ==> e.outcomes.value[id] == AdmittedOutcome(phase.document, id)
    ensures Deserved(phase, expected) == if Rule(e).Certified? && !ExactShaAdmitted(phase.start, phase.end)
                                         then NotCertifiable("exact_sha_certification_rejected") else Rule(e)
  {
    hide Acceptable, AdmittedOutcome, HasRow, SaysSkipped, SaysBroken, SaysRefused, Mentions, ExactShaAdmitted, Cleared;
    if e.admission.Some? && e.admission.value.Admitted? {
      RuledAsSaid(e, phase, expected);
    }
  }

  lemma NotGathered(e: Evidence)
    requires !e.retired || e.preflight == Some(false)
    ensures !Rule(e).Certified?
  {
  }

  lemma AllPassed(expected: seq<string>, doc: Document, outcomes: Outcomes)
    requires Acceptable(expected, doc) && outcomes.Keys == Named(expected)
    requires forall id :: id in expected ==> outcomes[id] == AdmittedOutcome(doc, id)
    ensures (forall id :: id in outcomes ==> outcomes[id].verdict.Passed?) <==> forall id :: id in expected ==> PassedOnce(doc, id)
  {
    hide Acceptable, PassedOnce, AdmittedOutcome;
    forall id | id in expected ensures outcomes[id].verdict.Passed? <==> PassedOnce(doc, id) {
      PassedIs(expected, doc, id);
    }
  }

  // ----------------------------------------------------------------------
  // The exit status
  // ----------------------------------------------------------------------

  const EXIT_LANE_FAILED: int := 1
  const EXIT_USAGE: int := 2
  const EXIT_REFUSED: int := 3
  const EXIT_NOT_CERTIFIABLE: int := 4
  const EXIT_INTERRUPTED: int := 130

  /** Which lanes were asked for: those of `--lane`, none, or the default ones. */
  datatype Selection = Focused | CertificationOnly | Default

  /**
    What a whole run meets: its arguments, the capabilities and resources it
    asks for, how each selected lane ended, and the certification phase.
   */
  datatype Run = Run(listLanes: bool, selection: Selection, argumentsOk: bool, lanes: seq<bool>, browserOk: bool, pathsOk: bool,
                     capacityOk: bool, lockPathOk: bool, leaseFree: bool, toolLockFree: bool, interrupted: bool, phase: Phase)

  predicate Certifies(run: Run) {
    !run.selection.Focused?
  }

  /** Whether a run gets as far as its lanes, and to their end. */
  predicate Starts(run: Run) {
    && run.argumentsOk && (run.lanes != [] || run.selection.CertificationOnly?)
    && run.browserOk && run.pathsOk && run.capacityOk && run.lockPathOk && run.leaseFree && run.toolLockFree && !run.interrupted
  }

  /** It gets as far as asking for the lease and the tool lock. */
  predicate Reaches(run: Run) {
    && run.argumentsOk && !run.listLanes && (run.lanes != [] || run.selection.CertificationOnly?)
    && run.browserOk && run.pathsOk && run.capacityOk && run.lockPathOk
  }

  /** The exit status of a run; nothing when it ends by an exception. */
  method ExitStatus(run: Run, expected: seq<string>) returns (r: Option<int>)
    ensures run.argumentsOk && run.listLanes ==> r == Some(0)
    ensures !run.listLanes ==> (r == Some(0) <==>
      && Starts(run) && (forall k :: 0 <= k < |run.lanes| ==> run.lanes[k])
      && (Certifies(run) ==> Earned(run.phase, expected)))
    ensures r == None <==> Starts(run) && !run.listLanes && Certifies(run) && EndsInException(run.phase, expected)
    ensures !run.argumentsOk ==> r == Some(2)
    ensures Reaches(run) && !(run.leaseFree && run.toolLockFree) ==> r == Some(3)
    ensures Reaches(run) && run.leaseFree && run.toolLockFree && run.interrupted ==> r == Some(130)
    ensures Starts(run) && !run.listLanes && r.Some? && (exists k :: 0 <= k < |run.lanes| && !run.lanes[k]) ==> r == Some(1)
    ensures Starts(run) && !run.listLanes && r.Some? && (forall k :: 0 <= k < |run.lanes| ==> run.lanes[k]) && Certifies(run) ==>
      r == Some(if Deserved(run.phase, expected).NotCertifiable? || !ExactShaAdmitted(run.phase.start, run.phase.end) then 4
                else if Deserved(run.phase, expected).FailedRun? then 1 else 0)
  {
    hide Raises, Acceptable, ExactShaAdmitted, PassedOnce;
    if !run.argumentsOk {
      return Some(EXIT_USAGE);
    }
    if run.listLanes {
      return Some(0);
    }
    if run.lanes == [] && !run.selection.CertificationOnly? {
      return Some(EXIT_USAGE);
    }
    if !run.browserOk {
      return Some(EXIT_LANE_FAILED);
    }
    if !run.pathsOk {
      return Some(EXIT_USAGE);
    }
    if !run.capacityOk {
      return Some(EXIT_NOT_CERTIFIABLE);
    }
    if !run.lockPathOk {
      return Some(EXIT_USAGE);
    }
    if !run.leaseFree || !run.toolLockFree {
      return Some(EXIT_REFUSED);
    }
    if run.interrupted {
      return Some(EXIT_INTERRUPTED);
    }
    var certificate: Option<Certificate> := None;
    if Certifies(run) {
      certificate := RunCertificationPhase(run.phase, expected);
      if certificate.None? {
        return None;
      }
    }
    var failed, k := false, 0;
    while k < |run.lanes|
      invariant 0 <= k <= |run.lanes| && (failed <==> exists j :: 0 <= j < k && !run.lanes[j])
    {
      failed := failed || !run.lanes[k];
      k := k + 1;
    }
    if failed {
      return Some(EXIT_LANE_FAILED);
    }
    if certificate.None? {
      return Some(0);
    }
    if !certificate.value.exactSha {
      return Some(EXIT_NOT_CERTIFIABLE);
    }
    match certificate.value.ruling
    case NotCertifiable(_) => r := Some(EXIT_NOT_CERTIFIABLE);
    case FailedRun(_) => r := Some(EXIT_LANE_FAILED);
    case Certified => r := Some(0);
  }
}
