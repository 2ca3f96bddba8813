/** What a decision call answers, said of the two tables and the host alone. */
module CapabilityAnswers {
  import opened Common
  import opened CapabilityLedger
  import opened CapabilityGovernance
  import opened CapabilityRuns
  import Ordering

  /** Nothing supersedes the row. */
  predicate Viewed(ds: seq<Decision>, d: Decision) {
    d in ds && forall s :: s in ds ==> s.supersedes != Some(d.id)
  }

  /** The identity's decisions have come to revision `n`; 0 means that there are none. */
  ghost predicate StandsAt(ds: seq<Decision>, i: Identity, n: int) {
    if n == 0 then forall d :: d in ds ==> d.identity != i
    else exists d :: Viewed(ds, d) && d.identity == i && d.revision == n
  }

  /** The evidence is the one its identity is currently approved by. */
  ghost predicate Approves(ds: seq<Decision>, e: Evidence) {
    exists d :: Viewed(ds, d) && d.identity == e.payload.identity && d.action.Approve? && d.evidenceId == e.id
  }

  predicate Named(ds: seq<Decision>, evidenceId: string) {
    exists d :: d in ds && d.evidenceId == evidenceId
  }

  predicate FreshId(ds: seq<Decision>, id: string) {
    forall d :: d in ds ==> d.id != id
  }

  predicate RouteIn(routes: set<Route>, i: Identity) {
    Route(i.platform, i.sourceType, i.jobKind, i.adapter) in routes
  }

  /** The running build is the one the evidence is about, and its route is registered. */
  predicate BuildMatches(reg: Registry, e: Evidence, host: Host) {
    host.before == Current(e.payload.identity.productVersion) && RouteIn(reg.registered, e.payload.identity)
  }

  /** Everything an approval needs, apart from what the host answers late. */
  ghost predicate Approvable(reg: Registry, l: Ledger, e: Evidence, call: Call, host: Host) {
    && BuildMatches(reg, e, host) && StandsAt(l.decisions, e.payload.identity, call.expectedRevision)
    && e.payload.verdict.Verified? && !Named(l.decisions, e.id)
  }

  ghost predicate Revocable(reg: Registry, l: Ledger, e: Evidence, call: Call) {
    && RouteIn(reg.known, e.payload.identity) && StandsAt(l.decisions, e.payload.identity, call.expectedRevision)
    && Approves(l.decisions, e)
  }

  // --------------------------------------------------------------------- what was read

  lemma EvidenceFound(reg: Registry, ids: set<Identity>, l: Ledger, e: Evidence)
    requires Governed(reg, ids, l) && e in l.evidence
    ensures FindEvidence(l.evidence, e.id) == Some(e)
  {
    hide FindEvidence, Chains, Backed, KeysAgree, OneApprovalPerEvidence, Keyed, SoundDecisions;
    GovernedParts(reg, ids, l);
    var f := FindEvidence(l.evidence, e.id).value;
    var i :| 0 <= i < |l.evidence| && l.evidence[i] == e;
    var j :| 0 <= j < |l.evidence| && l.evidence[j] == f;
    if i < j { assert l.evidence[i].id != l.evidence[j].id; } else if j < i { assert l.evidence[j].id != l.evidence[i].id; }
  }

  lemma ViewedIsView(ds: seq<Decision>, d: Decision)
    ensures Viewed(ds, d) <==> d in View(ds)
  {
  }

  /** `head` is the row of the identity nothing supersedes, and there is none when the identity is undecided. */
  ghost predicate IsTop(ds: seq<Decision>, i: Identity, head: Option<Decision>) {
    && (head.None? <==> forall d :: d in ds ==> d.identity != i)
    && (head.Some? ==> Viewed(ds, head.value) && head.value.identity == i && head.value.revision >= 1
                       && (head.value.status.Verified? <==> head.value.action.Approve?)
                       && forall d :: Viewed(ds, d) && d.identity == i ==> d == head.value)
  }

  /** The head the repository reads, said of the rows nothing supersedes. */
  lemma HeadMeans(reg: Registry, ids: set<Identity>, l: Ledger, e: Evidence)
    requires Governed(reg, ids, l) && KeysDistinct(reg, ids) && e in l.evidence
    ensures IsTop(l.decisions, e.payload.identity, Head(l, e.payload.key))
  {
    hide Governed, KeysDistinct, Head, Chains, Backed, Keyed, View, Rows, Viewed, SoundDecisions, SoundEvidence, DecisionChecks;
    var ds, i := l.decisions, e.payload.identity;
    GovernedParts(reg, ids, l);
    HeadIsLast(reg, ids, l, e);
    forall d | Viewed(ds, d) && d.identity == i ensures Rows(ds, i) != [] && d == Last(Rows(ds, i)) {
      ViewedIsView(ds, d);
      ViewedIsLast(ds, d);
    }
    if Rows(ds, i) == [] {
      forall d | d in ds ensures d.identity != i { RowsMember(ds, i, d); }
    } else {
      LastIsViewed(ds, i);
      ViewedIsView(ds, Last(Rows(ds, i)));
      RowsMember(ds, i, Last(Rows(ds, i)));
      StatusIsAction(l, Last(Rows(ds, i)));
    }
  }

  lemma StatusIsAction(l: Ledger, d: Decision)
    requires SoundDecisions(l.decisions) && d in l.decisions
    ensures d.status.Verified? <==> d.action.Approve?
  {
    assert DecisionChecks(d);
  }

  lemma TopStands(ds: seq<Decision>, i: Identity, head: Option<Decision>, n: int)
    requires IsTop(ds, i, head)
    ensures StandsAt(ds, i, n) <==> n == HeadRevision(head)
  {
    hide Viewed;
    forall d | Viewed(ds, d) ensures d in ds { ViewedIsStored(ds, d); }
    if head.Some? { assert Viewed(ds, head.value); }
  }

  lemma TopApproves(ds: seq<Decision>, e: Evidence, head: Option<Decision>)
    requires IsTop(ds, e.payload.identity, head)
    ensures Approves(ds, e) <==> head.Some? && head.value.status.Verified? && head.value.evidenceId == e.id
  {
    hide Viewed;
    forall d | Viewed(ds, d) ensures d in ds { ViewedIsStored(ds, d); }
    if head.Some? { assert Viewed(ds, head.value); }
  }

  lemma HeadSays(reg: Registry, ids: set<Identity>, l: Ledger, e: Evidence, n: int)
    requires Governed(reg, ids, l) && KeysDistinct(reg, ids) && e in l.evidence
    ensures var head := Head(l, e.payload.key);
            && (StandsAt(l.decisions, e.payload.identity, n) <==> n == HeadRevision(head))
            && (Approves(l.decisions, e) <==> head.Some? && head.value.status.Verified? && head.value.evidenceId == e.id)
            && (head.Some? ==> head.value in l.decisions)
  {
    hide Governed, KeysDistinct, Head, Viewed, StandsAt, Approves;
    HeadMeans(reg, ids, l, e);
    var head := Head(l, e.payload.key);
    TopStands(l.decisions, e.payload.identity, head, n);
    TopApproves(l.decisions, e, head);
    if head.Some? { ViewedIsStored(l.decisions, head.value); }
  }

  lemma ViewedIsStored(ds: seq<Decision>, d: Decision)
    requires Viewed(ds, d)
    ensures d in ds
  {
  }

  // --------------------------------------------------------------------------- answers

  /** The checks of an approval, each in its own words. */
  lemma ApprovalRefusals(reg: Registry, ids: set<Identity>, l: Ledger, call: Call, host: Host, e: Evidence)
    requires Governed(reg, ids, l) && KeysDistinct(reg, ids) && e in l.evidence && e.id == call.evidenceId
    requires call.action.Approve? && call.expectedRevision >= 0
    ensures var r, ds, i := Refusal(reg, l, call, host), l.decisions, e.payload.identity;
            var stands := StandsAt(ds, i, call.expectedRevision);
            && (r == Some(BuildUnavailable) <==> host.before.Unavailable?)
            && (r == Some(BuildDrift) <==> host.before.Drifted?)
            && (r == Some(ProductVersionMismatch) <==> host.before.Current? && host.before.identity != i.productVersion)
            && (r == Some(ImplementationNotRegistered) <==> host.before == Current(i.productVersion) && !RouteIn(reg.registered, i))
            && (r == Some(RevisionMismatch) <==> BuildMatches(reg, e, host) && !stands)
            && (r == Some(EvidenceNotQualified) <==> BuildMatches(reg, e, host) && stands && !e.payload.verdict.Verified?)
            && (r == Some(EvidenceReplay)
                <==> BuildMatches(reg, e, host) && stands && e.payload.verdict.Verified? && Named(ds, e.id) && !Approves(ds, e))
            && (r == None
                <==> BuildMatches(reg, e, host) && stands && e.payload.verdict.Verified? && (Named(ds, e.id) ==> Approves(ds, e)))
    ensures AlreadyApproved(Head(l, e.payload.key), call) <==> Approves(l.decisions, e)
    ensures Approves(l.decisions, e) ==> Named(l.decisions, e.id)
  {
    hide Governed, KeysDistinct, Head, FindEvidence, StandsAt, Approves, HeadRevision;
    EvidenceFound(reg, ids, l, e);
    HeadSays(reg, ids, l, e, call.expectedRevision);
  }

  lemma RevocationRefusals(reg: Registry, ids: set<Identity>, l: Ledger, call: Call, host: Host, e: Evidence)
    requires Governed(reg, ids, l) && KeysDistinct(reg, ids) && e in l.evidence && e.id == call.evidenceId
    requires call.action.Revoke? && call.expectedRevision >= 0
    ensures var r, ds, i := Refusal(reg, l, call, host), l.decisions, e.payload.identity;
            var stands := StandsAt(ds, i, call.expectedRevision);
            && (r == Some(ImplementationNotRegistered) <==> !RouteIn(reg.known, i))
            && (r == Some(RevisionMismatch) <==> RouteIn(reg.known, i) && !stands)
            && (r == Some(InvalidTransition) <==> RouteIn(reg.known, i) && stands && !Approves(ds, e))
            && (r == None <==> Revocable(reg, l, e, call))
  {
    hide Governed, KeysDistinct, Head, FindEvidence, StandsAt, Approves, HeadRevision;
    EvidenceFound(reg, ids, l, e);
    HeadSays(reg, ids, l, e, call.expectedRevision);
  }

  lemma AcceptedWrites(reg: Registry, ids: set<Identity>, l: Ledger, call: Call, host: Host, e: Evidence)
    requires Governed(reg, ids, l) && KeysDistinct(reg, ids) && SoundCall(call, host) && e in l.evidence && e.id == call.evidenceId
    requires Refusal(reg, l, call, host).None? && !AlreadyApproved(Head(l, e.payload.key), call)
    ensures Decide(reg, l, call, host)
            == if !FreshId(l.decisions, host.freshId) then (l, Failed(IntegrityConflict))
               else if LateDrift(call, host).Some? then (l, Failed(LateDrift(call, host).value))
               else (l.(decisions := l.decisions + [NewRow(l, call, host)]), Created(NewRow(l, call, host)))
  {
    hide Governed, KeysDistinct, SoundCall, Head, FindEvidence, Refusal, NewRow, DecisionViolation, Superseded, LateDrift, AlreadyApproved;
    EvidenceFound(reg, ids, l, e);
    assert FreshId(l.decisions, host.freshId) <==> !IdUsed(l.decisions, host.freshId);
    InsertMeetsNoGuard(reg, ids, l, call, host);
    if FreshId(l.decisions, host.freshId) { WrittenRowIsCurrent(reg, ids, l, call, host); }
  }

  /** A refused call and a repeated approval are answered at once and change nothing. */
  lemma DecidedAtOnce(reg: Registry, ids: set<Identity>, l: Ledger, call: Call, host: Host, e: Evidence)
    requires Governed(reg, ids, l) && e in l.evidence && e.id == call.evidenceId
    ensures var r, head := Refusal(reg, l, call, host), Head(l, e.payload.key);
            && (r.Some? ==> Decide(reg, l, call, host) == (l, Failed(r.value)))
            && (r.None? && AlreadyApproved(head, call) ==> Decide(reg, l, call, host) == (l, Unchanged(head.value)))
  {
    hide Governed, Head, FindEvidence, Refusal, NewRow, DecisionViolation, Superseded, LateDrift;
    EvidenceFound(reg, ids, l, e);
  }

  /** Every failure an approval of stored evidence can meet before anything is written, with its exact condition. */
  lemma ApprovalRefused(reg: Registry, ids: set<Identity>, l: Ledger, call: Call, host: Host, e: Evidence)
    requires Governed(reg, ids, l) && KeysDistinct(reg, ids) && SoundCall(call, host) && e in l.evidence && e.id == call.evidenceId
    requires call.action.Approve? && call.expectedRevision >= 0
    ensures var o, ds, i := Decide(reg, l, call, host).1, l.decisions, e.payload.identity;
            var stands := StandsAt(ds, i, call.expectedRevision);
            && (o == Failed(ProductVersionMismatch) <==> host.before.Current? && host.before.identity != i.productVersion)
            && (o == Failed(ImplementationNotRegistered) <==> host.before == Current(i.productVersion) && !RouteIn(reg.registered, i))
            && (o == Failed(RevisionMismatch) <==> BuildMatches(reg, e, host) && !stands)
            && (o == Failed(EvidenceNotQualified) <==> BuildMatches(reg, e, host) && stands && !e.payload.verdict.Verified?)
            && (o == Failed(EvidenceReplay)
                <==> BuildMatches(reg, e, host) && stands && e.payload.verdict.Verified? && Named(ds, e.id) && !Approves(ds, e))
  {
    ApprovalRefusals(reg, ids, l, call, host, e);
    DecidedAtOnce(reg, ids, l, call, host, e);
    hide Governed, KeysDistinct, SoundCall, Head, FindEvidence, Refusal, Decide, NewRow, StandsAt, Approves, Named, FreshId, RouteIn,
      BuildMatches;
    if Refusal(reg, l, call, host).None? && !AlreadyApproved(Head(l, e.payload.key), call) {
      AcceptedWrites(reg, ids, l, call, host, e);
    }
  }

  /** Everything else it can be answered: the build, a taken id, the standing approval, the new row. */
  lemma ApprovalAnswers(reg: Registry, ids: set<Identity>, l: Ledger, call: Call, host: Host, e: Evidence)
    requires Governed(reg, ids, l) && KeysDistinct(reg, ids) && SoundCall(call, host) && e in l.evidence && e.id == call.evidenceId
    requires call.action.Approve? && call.expectedRevision >= 0
    ensures var o, ds, i := Decide(reg, l, call, host).1, l.decisions, e.payload.identity;
            var written := Approvable(reg, l, e, call, host) && FreshId(ds, host.freshId);
            && (o == Failed(BuildUnavailable) <==> host.before.Unavailable? || (written && host.after.Unavailable?))
            && (o == Failed(BuildDrift)
                <==> host.before.Drifted? || (written && !host.after.Unavailable? && host.after != Current(i.productVersion)))
            && (o == Failed(IntegrityConflict) <==> Approvable(reg, l, e, call, host) && !FreshId(ds, host.freshId))
            && (o.Unchanged? <==> BuildMatches(reg, e, host) && StandsAt(ds, i, call.expectedRevision)
                                  && e.payload.verdict.Verified? && Approves(ds, e))
            && (o.Unchanged? ==> Viewed(ds, o.row) && o.row.identity == i && o.row.evidenceId == e.id)
            && (o.Created? <==> written && host.after == Current(i.productVersion))
  {
    ApprovalRefusals(reg, ids, l, call, host, e);
    DecidedAtOnce(reg, ids, l, call, host, e);
    HeadMeans(reg, ids, l, e);
    hide Governed, KeysDistinct, SoundCall, Head, FindEvidence, Refusal, Decide, NewRow, StandsAt, Approves, Named, FreshId, Viewed, RouteIn;
    if Refusal(reg, l, call, host).None? && !AlreadyApproved(Head(l, e.payload.key), call) {
      AcceptedWrites(reg, ids, l, call, host, e);
    }
  }

  lemma RevocationAnswers(reg: Registry, ids: set<Identity>, l: Ledger, call: Call, host: Host, e: Evidence)
    requires Governed(reg, ids, l) && KeysDistinct(reg, ids) && SoundCall(call, host) && e in l.evidence && e.id == call.evidenceId
    requires call.action.Revoke? && call.expectedRevision >= 0
    ensures var o, ds, i := Decide(reg, l, call, host).1, l.decisions, e.payload.identity;
            var stands := StandsAt(ds, i, call.expectedRevision);
            && (o == Failed(ImplementationNotRegistered) <==> !RouteIn(reg.known, i))
            && (o == Failed(RevisionMismatch) <==> RouteIn(reg.known, i) && !stands)
            && (o == Failed(InvalidTransition) <==> RouteIn(reg.known, i) && stands && !Approves(ds, e))
            && (o == Failed(IntegrityConflict) <==> Revocable(reg, l, e, call) && !FreshId(ds, host.freshId))
            && (o.Created? <==> Revocable(reg, l, e, call) && FreshId(ds, host.freshId))
            && !o.Unchanged?
  {
    RevocationRefusals(reg, ids, l, call, host, e);
    EvidenceFound(reg, ids, l, e);
    hide Governed, KeysDistinct, SoundCall, Head, FindEvidence, Refusal, NewRow, StandsAt, Approves, FreshId;
    if Refusal(reg, l, call, host).None? {
      AcceptedWrites(reg, ids, l, call, host, e);
    }
  }

  /** A call without evidence, or with a negative revision, answers so and nothing else. */
  lemma UnfoundedAnswers(reg: Registry, l: Ledger, call: Call, host: Host)
    ensures Decide(reg, l, call, host).1 == Failed(InvalidExpectedRevision) <==> call.expectedRevision < 0
    ensures Decide(reg, l, call, host).1 == Failed(EvidenceNotFound)
            <==> call.expectedRevision >= 0 && forall e :: e in l.evidence ==> e.id != call.evidenceId
    ensures !Decide(reg, l, call, host).1.Created? ==> Decide(reg, l, call, host).0 == l
  {
    hide Head, DecisionViolation, Superseded, NewRow, RouteOf;
  }

  /**
   A decision call creates a row exactly when the evidence it names exists, the identity stands at the
   expected revision, the fresh id is unused, and: for an approval, the build is the evidence's before
   and after, its route is registered, it is verified and was never decided on; for a revocation, its
   route is known and it is what the identity is approved by.
   */
  lemma CreatedExactly(reg: Registry, ids: set<Identity>, l: Ledger, call: Call, host: Host)
    requires Governed(reg, ids, l) && KeysDistinct(reg, ids) && SoundCall(call, host)
    ensures Decide(reg, l, call, host).1.Created?
            <==> exists e ::
                   && e in l.evidence && e.id == call.evidenceId && call.expectedRevision >= 0
                   && StandsAt(l.decisions, e.payload.identity, call.expectedRevision) && FreshId(l.decisions, host.freshId)
                   && match call.action
                      case Approve =>
                        && host.before == host.after == Current(e.payload.identity.productVersion)
                        && RouteIn(reg.registered, e.payload.identity)
                        && e.payload.verdict.Verified? && !Named(l.decisions, e.id)
                      case Revoke => RouteIn(reg.known, e.payload.identity) && Approves(l.decisions, e)
  {
    hide Governed, KeysDistinct, SoundCall, Decide, StandsAt, Approves, Named, FreshId, RouteIn;
    UnfoundedAnswers(reg, l, call, host);
    if call.expectedRevision >= 0 && exists e :: e in l.evidence && e.id == call.evidenceId {
      forall e | e in l.evidence && e.id == call.evidenceId
        ensures Decide(reg, l, call, host).1.Created?
                <==> && StandsAt(l.decisions, e.payload.identity, call.expectedRevision) && FreshId(l.decisions, host.freshId)
                     && match call.action
                        case Approve =>
                          && host.before == host.after == Current(e.payload.identity.productVersion)
                          && RouteIn(reg.registered, e.payload.identity)
                          && e.payload.verdict.Verified? && !Named(l.decisions, e.id)
                        case Revoke => RouteIn(reg.known, e.payload.identity) && Approves(l.decisions, e)
      {
        if call.action.Approve? { ApprovalAnswers(reg, ids, l, call, host, e); } else { RevocationAnswers(reg, ids, l, call, host, e); }
      }
    }
  }

  /** The row a call created, column by column. */
  lemma CreatedRow(reg: Registry, ids: set<Identity>, l: Ledger, call: Call, host: Host, e: Evidence)
    requires Governed(reg, ids, l) && KeysDistinct(reg, ids) && SoundCall(call, host) && e in l.evidence && e.id == call.evidenceId
    requires Decide(reg, l, call, host).1.Created?
    ensures var (l', o) := Decide(reg, l, call, host);
            var d := o.row;
            && l' == l.(decisions := l.decisions + [d])
            && d.id == host.freshId && d.evidenceId == call.evidenceId && d.action == call.action
            && d.reason == call.reason && d.decidedAt == host.now
            && d.identity == e.payload.identity && d.key == e.payload.key && d.revision == call.expectedRevision + 1
            && (d.status.Verified? <==> call.action.Approve?)
            && (d.supersedes.None? <==> call.expectedRevision == 0)
            && (d.supersedes.Some? ==> exists p :: Viewed(l.decisions, p) && p.identity == d.identity && p.id == d.supersedes.value)
  {
    hide Governed, KeysDistinct, SoundCall, Head, FindEvidence, DecisionViolation, Superseded, LateDrift, Viewed;
    EvidenceFound(reg, ids, l, e);
    HeadMeans(reg, ids, l, e);
  }

  // ------------------------------------------------------------------------ imports

  predicate SameEnvironment(b: Bundle) {
    b.results != [] && forall row :: row in b.results ==> row.environment == b.environment
  }

  predicate SameBuild(b: Bundle, before: BuildProbe) {
    before.Current? && forall row :: row in b.results ==> row.productVersion == before.identity
  }

  /** The cell was executed through a registered route. */
  predicate Executed(reg: Registry, c: Cell) {
    c.identity.adapter != "unexecuted" && RouteIn(reg.registered, c.identity)
  }

  predicate Presentable(reg: Registry, b: Bundle, before: BuildProbe) {
    SameEnvironment(b) && SameBuild(b, before) && b.cells != [] && forall c :: c in b.cells ==> Executed(reg, c)
  }

  /** The first cell that was not executed, or not through a registered route. */
  ghost predicate FirstBadCell(reg: Registry, cells: seq<Cell>, c: Cell) {
    exists k: nat :: k < |cells| && cells[k] == c && !Executed(reg, c) && forall j :: 0 <= j < k ==> Executed(reg, cells[j])
  }

  function CellFailure(c: Cell): Failure {
    if c.identity.adapter == "unexecuted" then CellUnexecuted else ImplementationNotRegistered
  }

  lemma CellRefused(reg: Registry, c: Cell)
    ensures CellRefusal(reg, c) == if Executed(reg, c) then None else Some(CellFailure(c))
  {
  }

  lemma BadAtOnce(reg: Registry, cells: seq<Cell>)
    requires cells != [] && !Executed(reg, cells[0])
    ensures FirstBadCell(reg, cells, cells[0])
  {
    hide Executed;
  }

  lemma LaterBadCell(reg: Registry, cells: seq<Cell>, c: Cell)
    requires cells != [] && Executed(reg, cells[0]) && FirstBadCell(reg, cells[1..], c)
    ensures FirstBadCell(reg, cells, c)
  {
    hide Executed;
    var rest := cells[1..];
    var k: nat :| k < |rest| && rest[k] == c && !Executed(reg, c) && forall j :: 0 <= j < k ==> Executed(reg, rest[j]);
    assert cells[k + 1] == c;
    assert forall j :: 0 < j < k + 1 ==> cells[j] == rest[j - 1];
  }

  lemma {:induction false} CellsAnswer(reg: Registry, cells: seq<Cell>)
    ensures var r := CellsRefusal(reg, cells);
            if forall c :: c in cells ==> Executed(reg, c) then r == None
            else exists c :: FirstBadCell(reg, cells, c) && r == Some(CellFailure(c))
  {
    hide CellRefusal, Executed, FirstBadCell, CellFailure;
    if cells != [] {
      CellRefused(reg, cells[0]);
      if !Executed(reg, cells[0]) {
        BadAtOnce(reg, cells);
      } else {
        CellsAnswer(reg, cells[1..]);
        assert forall c :: c in cells ==> c == cells[0] || c in cells[1..];
        if c :| FirstBadCell(reg, cells[1..], c) && CellsRefusal(reg, cells[1..]) == Some(CellFailure(c)) {
          LaterBadCell(reg, cells, c);
        }
      }
    }
  }

  lemma BundleAnswers(reg: Registry, b: Bundle, before: BuildProbe)
    ensures var r := BundleRefusal(reg, b, before);
            && (r == Some(ResultsEmpty) <==> b.results == [])
            && (r == Some(EnvironmentMismatch) <==> b.results != [] && !SameEnvironment(b))
            && (r == Some(BuildDrift) <==> SameEnvironment(b) && before.Drifted?)
            && (r == Some(BuildUnavailable) <==> SameEnvironment(b) && before.Unavailable?)
            && (r == Some(ProductVersionMismatch) <==> SameEnvironment(b) && before.Current? && !SameBuild(b, before))
            && (r == Some(BundleEmpty) <==> SameEnvironment(b) && SameBuild(b, before) && b.cells == [])
            && (r == None <==> Presentable(reg, b, before))
            && (r == Some(CellUnexecuted) || r == Some(ImplementationNotRegistered) ==>
                  exists c :: FirstBadCell(reg, b.cells, c) && r == Some(CellFailure(c)))
            && r != Some(EvidenceConflict)
  {
    hide CellsRefusal, FirstBadCell, Executed;
    CellsAnswer(reg, b.cells);
  }

  /**
   What an import answers: it adds its records exactly when the results are of the bundle's environment
   and of the running build, every cell was executed through a registered route, no record was refused by
   a guard and the build is still the same.
   */
  lemma ImportAnswers(reg: Registry, l: Ledger, b: Bundle, before: BuildProbe, after: BuildProbe)
    requires |b.cells| <= |b.freshIds| && |Payloads(reg, b)| == |b.cells|
    ensures var o, fits := Import(reg, l, b, before, after).1, ImportFirst(reg, l, b, Payloads(reg, b), |b.cells|).Some?;
            && (o.Imported? <==> Presentable(reg, b, before) && fits && after == before)
            && (o == Refused(EvidenceConflict) <==> Presentable(reg, b, before) && !fits)
            && (Presentable(reg, b, before) && fits && after != before ==>
                  o == Refused(if after.Unavailable? then BuildUnavailable else BuildDrift))
            && (!Presentable(reg, b, before) ==> o == Refused(BundleRefusal(reg, b, before).value))
            && (!o.Imported? ==> Import(reg, l, b, before, after).0 == l)
  {
    hide BundleRefusal, Presentable, Payloads, ImportFirst, Ordering.Sorted;
    BundleAnswers(reg, b, before);
    if Presentable(reg, b, before) { PresentableBuild(reg, b, before); }
  }

  lemma PresentableBuild(reg: Registry, b: Bundle, before: BuildProbe)
    requires Presentable(reg, b, before)
    ensures before.Current?
  {
  }

  /** The stored row, column by column, is the cell's and the bundle's. */
  predicate StoresCell(reg: Registry, b: Bundle, c: Cell, e: Evidence) {
    && e.payload.identity == c.identity && e.payload.key == IdentityKey(reg.hash, c.identity)
    && e.payload.kind == "stage0_csv_v3" && e.payload.policy == "stage0-v3" && e.payload.bundleSha == b.bundleSha
    && e.payload.positiveSamples == c.positiveSamples && e.payload.negativeSamples == c.negativeSamples
    && e.payload.completeRuns == c.completeRuns
    && e.payload.positiveRates == c.positiveRates && e.payload.negativeRates == c.negativeRates
    && e.payload.verdict == c.verdict && e.payload.evaluatedAt == c.evaluatedAt
    && e.manifestSha == b.manifestSha && e.resultsSha == b.resultsSha && e.importedAt == b.importedAt
    && e.digest == reg.digestOf(e.payload) && e.id in b.freshIds
  }

  lemma RowStoresCell(reg: Registry, b: Bundle, c: Cell, id: string)
    requires id in b.freshIds
    ensures StoresCell(reg, b, c, EvidenceRow(reg, b, PayloadOf(reg, b, c), id))
  {
    hide IdentityKey;
  }

  lemma {:induction false} FirstRowsStoreCells(reg: Registry, l: Ledger, b: Bundle, n: nat, e: Evidence)
    requires n <= |Payloads(reg, b)| <= |b.freshIds| && ImportFirst(reg, l, b, Payloads(reg, b), n).Some?
    requires e in ImportFirst(reg, l, b, Payloads(reg, b), n).value.ledger.evidence && e !in l.evidence
    ensures exists c :: c in b.cells && StoresCell(reg, b, c, e)
  {
    hide Payloads, PayloadOf, EvidenceViolation, FindDigest, EvidenceRow, StoresCell;
    if n > 0 {
      var ps := Payloads(reg, b);
      var before := ImportFirst(reg, l, b, ps, n - 1).value;
      if e in before.ledger.evidence {
        FirstRowsStoreCells(reg, l, b, n - 1, e);
      } else {
        PayloadCount(reg, b);
        assert ps[n - 1] in ps && b.freshIds[n - 1] in b.freshIds;
        var c :| c in b.cells && ps[n - 1] == PayloadOf(reg, b, c);
        RowStoresCell(reg, b, c, b.freshIds[n - 1]);
      }
    }
  }

  /** Every evidence row an import adds stores one of the bundle's cells, under one of its fresh ids. */
  lemma ImportedRowsStoreCells(reg: Registry, l: Ledger, b: Bundle, before: BuildProbe, after: BuildProbe, e: Evidence)
    requires |b.cells| <= |b.freshIds|
    requires e in Import(reg, l, b, before, after).0.evidence && e !in l.evidence
    ensures exists c :: c in b.cells && StoresCell(reg, b, c, e)
  {
    hide Payloads, ImportFirst, BundleRefusal, ProbeFailure, StoresCell, Ordering.Sorted;
    PayloadSize(reg, b);
    FirstRowsStoreCells(reg, l, b, |Payloads(reg, b)|, e);
  }

  /** ... and after an import every cell of the bundle is stored, by this import or an earlier one. */
  lemma ImportedCellsAreStored(reg: Registry, l: Ledger, b: Bundle, before: BuildProbe, after: BuildProbe, c: Cell)
    requires |b.cells| <= |b.freshIds| && Import(reg, l, b, before, after).1.Imported? && c in b.cells
    ensures exists e :: e in Import(reg, l, b, before, after).0.evidence && e.digest == reg.digestOf(PayloadOf(reg, b, c))
  {
    hide Payloads, PayloadOf, ImportFirst, BundleRefusal, ProbeFailure, FindDigest, Ordering.Sorted;
    var ps := Payloads(reg, b);
    PayloadCount(reg, b);
    assert PayloadOf(reg, b, c) in ps;
    var m :| 0 <= m < |ps| && ps[m] == PayloadOf(reg, b, c);
    ImportStores(reg, l, b, ps, m, |ps|);
    FoundDigest(Import(reg, l, b, before, after).0.evidence, reg.digestOf(ps[m]));
  }

  lemma FoundDigest(es: seq<Evidence>, digest: string)
    requires FindDigest(es, digest).Some?
    ensures FindDigest(es, digest).value in es && FindDigest(es, digest).value.digest == digest
  {
  }
}
