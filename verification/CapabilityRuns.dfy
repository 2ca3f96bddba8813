/** Whole runs of the capability repository. */
module CapabilityRuns {
  /*
   Any interleaving of imports and decisions, each one transaction. What every run keeps, what a
   decision can meet, and what the readiness audit finds afterwards.
   */

  import opened Common
  import opened CapabilityLedger
  import opened CapabilityGovernance
  import opened Digest
  import Ordering

  datatype Step =
    | DecideStep(call: Call, host: Host)
    | ImportStep(bundle: Bundle, before: BuildProbe, after: BuildProbe)

  /** What `approve`, `revoke` and the host guarantee of a call that reaches `_decide`. */
  ghost predicate SoundCall(call: Call, host: Host) {
    && IsCanonicalUuid(call.evidenceId) && AllowedReason(call.action, call.reason)
    && IsCanonicalUuid(host.freshId) && TextBetween(host.now, 20, 64)
  }

  ghost predicate SoundStep(s: Step, ids: set<Identity>) {
    match s
    case DecideStep(call, host) => SoundCall(call, host)
    case ImportStep(b, _, _) => |b.cells| <= |b.freshIds| && forall c :: c in b.cells ==> c.identity in ids
  }

  /** The identities in play have no colliding key. */
  ghost predicate KeysDistinct(reg: Registry, ids: set<Identity>) {
    CollisionFree(reg.hash, set i | i in ids :: IdentityText(i))
  }

  function After(reg: Registry, l: Ledger, s: Step): Ledger
    requires s.ImportStep? ==> |s.bundle.cells| <= |s.bundle.freshIds|
  {
    match s
    case DecideStep(call, host) => Decide(reg, l, call, host).0
    case ImportStep(b, before, after) => Import(reg, l, b, before, after).0
  }

  ghost predicate SoundRun(steps: seq<Step>, ids: set<Identity>) {
    forall k :: 0 <= k < |steps| ==> SoundStep(steps[k], ids)
  }

  /** The ledger after the first `n` transactions of a run. */
  ghost function Run(reg: Registry, steps: seq<Step>, ids: set<Identity>, n: nat): Ledger
    requires SoundRun(steps, ids) && n <= |steps|
  {
    if n == 0 then EMPTY
    else
      assert SoundStep(steps[n - 1], ids);
      After(reg, Run(reg, steps, ids, n - 1), steps[n - 1])
  }

  /** Stored keys, digests and routes are the ones the repository computes. */
  ghost predicate Keyed(reg: Registry, es: seq<Evidence>, ids: set<Identity>) {
    forall e :: e in es ==>
      && e.payload.key == IdentityKey(reg.hash, e.payload.identity)
      && e.digest == reg.digestOf(e.payload)
      && RouteOf(e.payload.identity) in reg.known
      && e.payload.identity in ids
  }

  ghost predicate Governed(reg: Registry, ids: set<Identity>, l: Ledger) {
    Inv(l) && Keyed(reg, l.evidence, ids)
  }

  // ------------------------------------------------------------- the head row

  lemma EvidenceOf(l: Ledger, d: Decision) returns (e: Evidence)
    requires Backed(l) && d in l.decisions
    ensures e in l.evidence && MatchesEvidence(e, d)
  {
    assert HasEvidence(l, d);
    e :| e in l.evidence && MatchesEvidence(e, d);
  }

  lemma SameKeySameIdentity(reg: Registry, ids: set<Identity>, a: Identity, b: Identity)
    requires KeysDistinct(reg, ids) && a in ids && b in ids
    requires IdentityKey(reg.hash, a) == IdentityKey(reg.hash, b)
    ensures a == b
  {
    IdentityTextInjectiveIf(a, b);
  }

  lemma IdentityTextInjectiveIf(a: Identity, b: Identity)
    ensures IdentityText(a) == IdentityText(b) ==> a == b
  {
    if IdentityText(a) == IdentityText(b) { IdentityTextInjective(a, b); }
  }

  /** Looking the head up by key finds the last row of the identity's chain. */
  lemma HeadIsLast(reg: Registry, ids: set<Identity>, l: Ledger, e: Evidence)
    requires KeysDistinct(reg, ids) && Keyed(reg, l.evidence, ids) && Chains(l.decisions) && Backed(l)
    requires e in l.evidence
    ensures var rows := Rows(l.decisions, e.payload.identity);
            Head(l, e.payload.key) == if rows == [] then None else Some(Last(rows))
  {
    hide IdentityKey;
    var ds := l.decisions;
    var i := e.payload.identity;
    FoundHead(ds, e.payload.key, ds);
    var head := Head(l, e.payload.key);
    if head.Some? {
      var f := EvidenceOf(l, head.value);
      SameKeySameIdentity(reg, ids, f.payload.identity, i);
      assert head.value in View(ds);
      ViewedIsLast(ds, head.value);
    } else if Rows(ds, i) != [] {
      LastIsViewed(ds, i);
      assert false;
    }
  }

  // ---------------------------------------------------- `_decide` meets no guard

  /** Everything a call has established once it starts to build its row. */
  ghost predicate Accepted(reg: Registry, ids: set<Identity>, l: Ledger, call: Call, host: Host) {
    && Governed(reg, ids, l) && KeysDistinct(reg, ids) && SoundCall(call, host)
    && Refusal(reg, l, call, host).None?
    && !AlreadyApproved(Head(l, FindEvidence(l.evidence, call.evidenceId).value.payload.key), call)
  }

  /** The accepted row in terms of the chain it will extend. */
  lemma NewRowShape(reg: Registry, ids: set<Identity>, l: Ledger, call: Call, host: Host) returns (e: Evidence)
    requires Accepted(reg, ids, l, call, host)
    ensures e in l.evidence && e.id == call.evidenceId && FindEvidence(l.evidence, call.evidenceId) == Some(e)
    ensures var row, rows := NewRow(l, call, host), Rows(l.decisions, e.payload.identity);
            && row.identity == e.payload.identity && row.key == e.payload.key
            && row.revision == |rows| + 1 == call.expectedRevision + 1
            && row.supersedes == (if rows == [] then None else Some(Last(rows).id))
            && (call.action.Revoke? ==> rows != [] && Last(rows).status.Verified? && Last(rows).evidenceId == call.evidenceId)
  {
    hide Inv, SoundEvidence, SoundDecisions, SoundCall, RouteOf, IdentityKey, KeysDistinct, Keyed, Backed, KeysAgree, OneApprovalPerEvidence;
    e := FindEvidence(l.evidence, call.evidenceId).value;
    GovernedParts(reg, ids, l);
    HeadIsLast(reg, ids, l, e);
    if Rows(l.decisions, e.payload.identity) != [] { LastIsViewed(l.decisions, e.payload.identity); }
  }

  lemma GovernedParts(reg: Registry, ids: set<Identity>, l: Ledger)
    requires Governed(reg, ids, l)
    ensures Chains(l.decisions) && Backed(l) && KeysAgree(l.decisions) && OneApprovalPerEvidence(l.decisions)
    ensures Keyed(reg, l.evidence, ids) && SoundEvidence(l.evidence) && SoundDecisions(l.decisions)
  {
  }

  predicate IdUsed(ds: seq<Decision>, id: string) {
    exists d :: d in ds && d.id == id
  }

  /** The CHECKs hold of every accepted row. */
  lemma AcceptedChecks(reg: Registry, ids: set<Identity>, l: Ledger, call: Call, host: Host)
    requires Accepted(reg, ids, l, call, host) && !IdUsed(l.decisions, host.freshId)
    ensures DecisionChecks(NewRow(l, call, host))
  {
    hide Rows, IsCanonicalUuid, SoundEvidence, SoundDecisions, Head, TextBetween, IdentityChecks, IsHex64, Refusal, Governed, KeysDistinct,
      FindEvidence, AlreadyApproved, Chains, Backed, KeysAgree, OneApprovalPerEvidence, Keyed, IdUsed;
    var e := NewRowShape(reg, ids, l, call, host);
    GovernedParts(reg, ids, l);
    EvidenceTexts(l, e);
    UuidText(host.freshId);
    UuidText(call.evidenceId);
    CallTexts(call, host);
    SupersededTexts(reg, ids, l, call, host, e);
  }

  lemma CallTexts(call: Call, host: Host)
    requires SoundCall(call, host)
    ensures TextBetween(call.reason, 1, 128) && TextBetween(host.now, 20, 64)
  {
  }

  /** The row an accepted row supersedes has a proper id, and not the fresh one. */
  lemma SupersededTexts(reg: Registry, ids: set<Identity>, l: Ledger, call: Call, host: Host, e: Evidence)
    requires !IdUsed(l.decisions, host.freshId) && SoundDecisions(l.decisions)
    ensures var rows := Rows(l.decisions, e.payload.identity);
            rows != [] ==> TextBetween(Last(rows).id, 1, 128) && Last(rows).id != host.freshId
  {
    hide TextBetween, SoundDecisions;
    var rows := Rows(l.decisions, e.payload.identity);
    if rows != [] {
      RowsMember(l.decisions, e.payload.identity, Last(rows));
      DecisionTexts(l, Last(rows));
    }
  }

  lemma EvidenceTexts(l: Ledger, e: Evidence)
    requires SoundEvidence(l.evidence) && e in l.evidence
    ensures IdentityChecks(e.payload.identity) && IsHex64(e.payload.key)
    ensures e.payload.kind == "stage0_csv_v3" && e.payload.policy == "stage0-v3"
  {
    assert EvidenceChecks(e);
  }

  lemma DecisionTexts(l: Ledger, d: Decision)
    requires SoundDecisions(l.decisions) && d in l.decisions
    ensures TextBetween(d.id, 1, 128)
  {
    assert DecisionChecks(d);
  }

  lemma UuidText(s: string)
    requires IsCanonicalUuid(s)
    ensures TextBetween(s, 1, 128)
  {
    assert s[0] != ' ' && s[35] != ' ';
  }

  /** An accepted row replaces nothing, unless its id is taken. */
  lemma AcceptedReplacesNothing(reg: Registry, ids: set<Identity>, l: Ledger, call: Call, host: Host, x: Decision)
    requires Accepted(reg, ids, l, call, host) && x in l.decisions && x.id != host.freshId
    ensures var d := NewRow(l, call, host);
            && !Replaces(x, d)
            && !(x.supersedes.None? && d.supersedes.None? && x.identity == d.identity)
            && !(x.identity == d.identity && x.revision == d.revision)
  {
    hide SoundEvidence, SoundDecisions, SoundCall, RouteOf, IdentityKey, View, Superseded, MatchesEvidence;
    var e := NewRowShape(reg, ids, l, call, host);
    GovernedParts(reg, ids, l);
    var d := NewRow(l, call, host);
    var ds := l.decisions;
    var rows := Rows(ds, d.identity);
    SameChain(reg, ids, l, e, x);
    if x.identity == d.identity {
      var k := Position(ds, x);
    }
    if d.supersedes.Some? && x.supersedes == d.supersedes {
      NoSuccessor(ds, d.identity, x);
    }
  }

  /** Rows that share the accepted row's key or identity are in its chain. */
  lemma SameChain(reg: Registry, ids: set<Identity>, l: Ledger, e: Evidence, x: Decision)
    requires Keyed(reg, l.evidence, ids) && KeysDistinct(reg, ids) && Backed(l) && e in l.evidence && x in l.decisions
    ensures x.key == e.payload.key <==> x.identity == e.payload.identity
  {
    hide IdentityKey;
    var f := EvidenceOf(l, x);
    if x.key == e.payload.key { SameKeySameIdentity(reg, ids, f.payload.identity, e.payload.identity); }
  }

  /** Nothing supersedes the last row of a chain. */
  lemma NoSuccessor(ds: seq<Decision>, i: Identity, x: Decision)
    requires Chains(ds) && Rows(ds, i) != [] && x in ds
    ensures x.supersedes != Some(Last(Rows(ds, i)).id)
  {
    LastIsViewed(ds, i);
  }

  lemma AcceptedTriggers(reg: Registry, ids: set<Identity>, l: Ledger, call: Call, host: Host)
    requires Accepted(reg, ids, l, call, host) && !IdUsed(l.decisions, host.freshId)
    ensures DecisionTriggers(l, NewRow(l, call, host)) && DecisionUnique(l, NewRow(l, call, host))
    ensures DecisionForeignKeys(l, NewRow(l, call, host))
  {
    hide SoundDecisions, SoundCall, RouteOf, IdentityKey, View, Superseded, IdentityChecks, KeysDistinct, Chains, Rows, Keyed, Backed,
      SoundEvidence;
    var e := NewRowShape(reg, ids, l, call, host);
    GovernedParts(reg, ids, l);
    var d := NewRow(l, call, host);
    EvidenceTexts(l, e);
    forall x | x in l.decisions
      ensures !Replaces(x, d)
      ensures !(x.supersedes.None? && d.supersedes.None? && x.identity == d.identity)
      ensures !(x.identity == d.identity && x.revision == d.revision)
    {
      AcceptedReplacesNothing(reg, ids, l, call, host, x);
    }
    var rows := Rows(l.decisions, d.identity);
    if rows != [] {
      LastInChain(reg, ids, l, e, d);
    }
    assert MatchesEvidence(e, d);
  }

  lemma LastInChain(reg: Registry, ids: set<Identity>, l: Ledger, e: Evidence, d: Decision)
    requires Keyed(reg, l.evidence, ids) && KeysDistinct(reg, ids) && Backed(l) && Chains(l.decisions)
    requires e in l.evidence && d.key == e.payload.key && d.identity == e.payload.identity
    requires Rows(l.decisions, d.identity) != [] && d.supersedes == Some(Last(Rows(l.decisions, d.identity)).id)
    ensures var p := Last(Rows(l.decisions, d.identity));
            && p in l.decisions && MatchesPrevious(p, d) && p.revision == |Rows(l.decisions, d.identity)|
  {
    hide IdentityKey;
    LastIsViewed(l.decisions, d.identity);
    SameChain(reg, ids, l, e, Last(Rows(l.decisions, d.identity)));
  }

  /**
   From every governed ledger, the insert of an accepted call trips a guard exactly when
   uuid4 repeated a stored decision id; no other trigger, index, foreign key or CHECK can fire.
   */
  lemma InsertMeetsNoGuard(reg: Registry, ids: set<Identity>, l: Ledger, call: Call, host: Host)
    requires Accepted(reg, ids, l, call, host)
    ensures DecisionViolation(l, NewRow(l, call, host)) == if IdUsed(l.decisions, host.freshId) then Some(Trigger) else None
  {
    if IdUsed(l.decisions, host.freshId) {
      var x :| x in l.decisions && x.id == host.freshId;
      assert Replaces(x, NewRow(l, call, host));
    } else {
      AcceptedTriggers(reg, ids, l, call, host);
      AcceptedChecks(reg, ids, l, call, host);
    }
  }

  /** A written row is always the one the view then shows. */
  lemma WrittenRowIsCurrent(reg: Registry, ids: set<Identity>, l: Ledger, call: Call, host: Host)
    requires Accepted(reg, ids, l, call, host) && !IdUsed(l.decisions, host.freshId)
    ensures !Superseded(l.decisions + [NewRow(l, call, host)], NewRow(l, call, host))
  {
    hide Governed, KeysDistinct, SoundCall, Head, FindEvidence, Rows, Chains, Keyed, Backed;
    var row := NewRow(l, call, host);
    hide Refusal, AlreadyApproved;
    GovernedParts(reg, ids, l);
    if s :| s in l.decisions && s.supersedes == Some(row.id) {
      var p := Before(l.decisions, s);
      assert false;
    }
    var e := NewRowShape(reg, ids, l, call, host);
    if Rows(l.decisions, e.payload.identity) != [] {
      LastIsViewed(l.decisions, e.payload.identity);
      RowsMember(l.decisions, e.payload.identity, Last(Rows(l.decisions, e.payload.identity)));
    }
  }

  /**
   What a decision call can answer: it never loses its row to the view, and it meets an
   integrity error exactly when it was accepted and its fresh id is already taken.
   */
  lemma DecisionAnswers(reg: Registry, ids: set<Identity>, l: Ledger, call: Call, host: Host)
    requires Governed(reg, ids, l) && KeysDistinct(reg, ids) && SoundCall(call, host)
    ensures Decide(reg, l, call, host).1 != Failed(ProjectionUnavailable)
    ensures Decide(reg, l, call, host).1 == Failed(IntegrityConflict)
            <==> Accepted(reg, ids, l, call, host) && IdUsed(l.decisions, host.freshId)
    ensures Decide(reg, l, call, host).1 == Failed(RevisionMismatch) <==> Refusal(reg, l, call, host) == Some(RevisionMismatch)
    ensures Decide(reg, l, call, host).1.Created?
            <==> Accepted(reg, ids, l, call, host) && !IdUsed(l.decisions, host.freshId) && LateDrift(call, host).None?
  {
    hide DecisionViolation, Governed, KeysDistinct, SoundCall, Superseded, Head, FindEvidence, View;
    if Accepted(reg, ids, l, call, host) {
      InsertMeetsNoGuard(reg, ids, l, call, host);
      if !IdUsed(l.decisions, host.freshId) { WrittenRowIsCurrent(reg, ids, l, call, host); }
    }
  }

  // -------------------------------------------------------------- whole runs

  lemma DecideKeepsGoverned(reg: Registry, ids: set<Identity>, l: Ledger, call: Call, host: Host)
    requires Governed(reg, ids, l)
    ensures Governed(reg, ids, Decide(reg, l, call, host).0)
    ensures l.decisions <= Decide(reg, l, call, host).0.decisions && Decide(reg, l, call, host).0.evidence == l.evidence
  {
    hide DecisionViolation, Inv, Keyed, Superseded, LateDrift, Head;
    if Decide(reg, l, call, host).1.Created? {
      DecisionInsertKeepsInv(l, NewRow(l, call, host));
    }
  }

  lemma ImportOneKeepsGoverned(reg: Registry, ids: set<Identity>, done: Progress, b: Bundle, c: Cell, freshId: string)
    requires Governed(reg, ids, done.ledger) && SoundRegistry(reg)
    requires c.identity in ids && RouteOf(c.identity) in reg.registered
    ensures var next := ImportOne(reg, done, b, PayloadOf(reg, b, c), freshId);
            next.Some? ==> Governed(reg, ids, next.value.ledger) && next.value.ledger.decisions == done.ledger.decisions
                           && done.ledger.evidence <= next.value.ledger.evidence
  {
    hide EvidenceViolation, Inv, RouteOf, IdentityKey;
    var row := EvidenceRow(reg, b, PayloadOf(reg, b, c), freshId);
    if EvidenceViolation(done.ledger, row).None? { EvidenceInsertKeepsInv(done.ledger, row); }
  }

  /** A bundle is imported record by record through guarded inserts. */
  lemma {:induction false} ImportKeepsGoverned(reg: Registry, ids: set<Identity>, l: Ledger, b: Bundle, n: nat)
    requires Governed(reg, ids, l) && SoundRegistry(reg)
    requires |b.cells| <= |b.freshIds| && n <= |Payloads(reg, b)| <= |b.freshIds|
    requires forall c :: c in b.cells ==> c.identity in ids && RouteOf(c.identity) in reg.registered
    ensures var done := ImportFirst(reg, l, b, Payloads(reg, b), n);
            done.Some? ==> Governed(reg, ids, done.value.ledger) && done.value.ledger.decisions == l.decisions
                           && l.evidence <= done.value.ledger.evidence
  {
    hide ImportOne, Governed, Payloads, PayloadOf, RouteOf, SoundRegistry;
    if n > 0 {
      ImportKeepsGoverned(reg, ids, l, b, n - 1);
      var ps := Payloads(reg, b);
      var before := ImportFirst(reg, l, b, ps, n - 1);
      if before.Some? {
        PayloadCount(reg, b);
        assert ps[n - 1] in ps;
        var c :| c in b.cells && ps[n - 1] == PayloadOf(reg, b, c);
        ImportOneKeepsGoverned(reg, ids, before.value, b, c, b.freshIds[n - 1]);
      }
    }
  }

  lemma StepKeepsGoverned(reg: Registry, ids: set<Identity>, l: Ledger, s: Step)
    requires Governed(reg, ids, l) && SoundRegistry(reg) && SoundStep(s, ids)
    ensures Governed(reg, ids, After(reg, l, s))
    ensures l.decisions <= After(reg, l, s).decisions && l.evidence <= After(reg, l, s).evidence
  {
    hide Governed, Decide, ImportFirst, Payloads, RouteOf;
    match s
    case DecideStep(call, host) =>
      DecideKeepsGoverned(reg, ids, l, call, host);
    case ImportStep(b, before, after) =>
      PayloadCount(reg, b);
      if BundleRefusal(reg, b, before).None? {
        ImportKeepsGoverned(reg, ids, l, b, |Payloads(reg, b)|);
      }
  }

  /** Every ledger a run reaches satisfies the ledger invariant and carries computed keys and digests. */
  lemma {:induction false} RunGoverned(reg: Registry, steps: seq<Step>, ids: set<Identity>, n: nat)
    requires SoundRun(steps, ids) && SoundRegistry(reg) && n <= |steps|
    ensures Governed(reg, ids, Run(reg, steps, ids, n))
  {
    hide After;
    if n == 0 {
      forall i ensures IsChain(Rows(EMPTY.decisions, i)) {}
    } else {
      RunGoverned(reg, steps, ids, n - 1);
      assert SoundStep(steps[n - 1], ids);
      StepKeepsGoverned(reg, ids, Run(reg, steps, ids, n - 1), steps[n - 1]);
    }
  }

  lemma {:induction false} RunGrows(reg: Registry, steps: seq<Step>, ids: set<Identity>, m: nat, n: nat)
    requires SoundRun(steps, ids) && SoundRegistry(reg) && m <= n <= |steps|
    ensures Run(reg, steps, ids, m).decisions <= Run(reg, steps, ids, n).decisions
    ensures Run(reg, steps, ids, m).evidence <= Run(reg, steps, ids, n).evidence
  {
    hide After, Governed;
    if m < n {
      RunGrows(reg, steps, ids, m, n - 1);
      assert SoundStep(steps[n - 1], ids);
      RunGoverned(reg, steps, ids, n - 1);
      StepKeepsGoverned(reg, ids, Run(reg, steps, ids, n - 1), steps[n - 1]);
    }
  }

  /** The answer of the decision call at position `k` of a run. */
  ghost function Answer(reg: Registry, steps: seq<Step>, ids: set<Identity>, k: nat): Outcome
    requires SoundRun(steps, ids) && k < |steps| && steps[k].DecideStep?
  {
    Decide(reg, Run(reg, steps, ids, k), steps[k].call, steps[k].host).1
  }

  /**
   Compare-and-swap: whatever the interleaving, two calls that name the same identity and
   the same expected revision never both create a row.
   */
  lemma OneWriterPerRevision(reg: Registry, steps: seq<Step>, ids: set<Identity>, j: nat, k: nat)
    requires SoundRun(steps, ids) && SoundRegistry(reg) && KeysDistinct(reg, ids)
    requires j < k < |steps| && steps[j].DecideStep? && steps[k].DecideStep?
    requires Answer(reg, steps, ids, j).Created?
    requires Answer(reg, steps, ids, k).Created?
    ensures !(Answer(reg, steps, ids, j).row.identity == Answer(reg, steps, ids, k).row.identity
              && steps[j].call.expectedRevision == steps[k].call.expectedRevision)
  {
    hide Governed, KeysDistinct, SoundRegistry, Decide, After, CellsRefusal;
    var i := Answer(reg, steps, ids, j).row.identity;
    CreatedLengthens(reg, steps, ids, j);
    CreatedLengthens(reg, steps, ids, k);
    RunGrows(reg, steps, ids, j + 1, k);
    RowsOfPrefix(Run(reg, steps, ids, j + 1).decisions, Run(reg, steps, ids, k).decisions, i);
  }

  /** In a run: a created row carries the expected revision and makes its identity's chain one longer. */
  lemma CreatedLengthens(reg: Registry, steps: seq<Step>, ids: set<Identity>, k: nat)
    requires SoundRun(steps, ids) && SoundRegistry(reg) && KeysDistinct(reg, ids)
    requires k < |steps| && steps[k].DecideStep? && Answer(reg, steps, ids, k).Created?
    ensures var i := Answer(reg, steps, ids, k).row.identity;
            && |Rows(Run(reg, steps, ids, k).decisions, i)| == steps[k].call.expectedRevision
            && |Rows(Run(reg, steps, ids, k + 1).decisions, i)| == steps[k].call.expectedRevision + 1
  {
    hide Governed, KeysDistinct, SoundRegistry, Decide, Rows;
    RunGoverned(reg, steps, ids, k);
    assert SoundStep(steps[k], ids);
    CreatedExtends(reg, ids, Run(reg, steps, ids, k), steps[k].call, steps[k].host);
    assert Run(reg, steps, ids, k + 1) == After(reg, Run(reg, steps, ids, k), steps[k]);
  }

  lemma RowsOfPrefix(a: seq<Decision>, b: seq<Decision>, i: Identity)
    requires a <= b
    ensures |Rows(a, i)| <= |Rows(b, i)|
  {
    assert b == a + b[|a|..];
    RowsExtend(a, b[|a|..], i);
  }

  /** A created row makes its chain longer by one, and its revision is the new length. */
  lemma CreatedExtends(reg: Registry, ids: set<Identity>, l: Ledger, call: Call, host: Host)
    requires Governed(reg, ids, l) && KeysDistinct(reg, ids) && SoundCall(call, host)
    requires Decide(reg, l, call, host).1.Created?
    ensures var (l', o) := Decide(reg, l, call, host);
            && o.row.revision == call.expectedRevision + 1 == |Rows(l.decisions, o.row.identity)| + 1
            && |Rows(l'.decisions, o.row.identity)| == |Rows(l.decisions, o.row.identity)| + 1
  {
    CreatedIsAccepted(reg, ids, l, call, host);
    hide Accepted, Decide, Governed, KeysDistinct, SoundCall, NewRow;
    var e := NewRowShape(reg, ids, l, call, host);
    RowsAppend(l.decisions, NewRow(l, call, host), e.payload.identity);
  }

  lemma CreatedIsAccepted(reg: Registry, ids: set<Identity>, l: Ledger, call: Call, host: Host)
    requires Governed(reg, ids, l) && KeysDistinct(reg, ids) && SoundCall(call, host)
    requires Decide(reg, l, call, host).1.Created?
    ensures Accepted(reg, ids, l, call, host)
    ensures Decide(reg, l, call, host) == (l.(decisions := l.decisions + [NewRow(l, call, host)]), Created(NewRow(l, call, host)))
  {
    hide Governed, KeysDistinct, SoundCall, DecisionViolation, LateDrift, Superseded, Refusal, Head, FindEvidence;
  }

  // ------------------------------------------------------- the readiness audit

  datatype AuditFailure =
    | EvidencePolicy | UnknownEvidenceRoute | EvidenceIdentityKey | EvidenceDigest
    | UnknownDecisionRoute | DecisionIdentityKey
    | VerifiedWithoutEvidence | RevisionChain | TransitionInvalid | CurrentProjection

  function EvidenceFault(reg: Registry, e: Evidence): Option<AuditFailure> {
    var p := e.payload;
    if p.policy != "stage0-v3" then Some(EvidencePolicy)
    else if RouteOf(p.identity) !in reg.known then Some(UnknownEvidenceRoute)
    else if IdentityKey(reg.hash, p.identity) != p.key then Some(EvidenceIdentityKey)
    else if reg.digestOf(p) != e.digest then Some(EvidenceDigest)
    else None
  }

  function DecisionFault(reg: Registry, d: Decision): Option<AuditFailure> {
    if RouteOf(d.identity) !in reg.known then Some(UnknownDecisionRoute)
    else if IdentityKey(reg.hash, d.identity) != d.key then Some(DecisionIdentityKey)
    else None
  }

  predicate VerifiedIsBacked(l: Ledger, d: Decision) {
    d.status.Verified? ==>
      exists e ::
        && e in l.evidence && MatchesEvidence(e, d) && e.payload.verdict.Verified?
        && e.payload.kind == "stage0_csv_v3" && e.payload.policy == "stage0-v3"
  }

  predicate RevisionIsChained(l: Ledger, d: Decision) {
    if d.supersedes.None? then d.revision == 1
    else exists p :: p in l.decisions && MatchesPrevious(p, d) && d.revision == p.revision + 1
  }

  predicate TransitionIsValid(l: Ledger, d: Decision) {
    d.action.Revoke? ==>
      exists p ::
        && p in l.decisions && d.supersedes == Some(p.id)
        && p.status.Verified? && p.evidenceId == d.evidenceId && p.key == d.key
  }

  /** The rows that the audit itself finds no successor of: the projection it expects. */
  predicate IsExpected(l: Ledger, d: Decision) {
    d in l.decisions && !exists s :: s in l.decisions && s.supersedes == Some(d.id)
  }

  /** What reading `platform_capabilities` gives has no row too many and no row too few. */
  predicate ProjectionAgrees(l: Ledger, view: set<Decision>) {
    && (forall d :: d in view ==> IsExpected(l, d))
    && (forall d :: d in l.decisions && IsExpected(l, d) ==> d in view)
  }

  /** The audited state is the two tables and the rows the stored view yields. */
  predicate Healthy(reg: Registry, l: Ledger, view: set<Decision>) {
    && (forall e :: e in l.evidence ==> EvidenceFault(reg, e).None?)
    && (forall d :: d in l.decisions ==> DecisionFault(reg, d).None?)
    && (forall d :: d in l.decisions ==> VerifiedIsBacked(l, d))
    && (forall d :: d in l.decisions ==> RevisionIsChained(l, d))
    && (forall d :: d in l.decisions ==> TransitionIsValid(l, d))
    && ProjectionAgrees(l, view)
  }

  /** The two `EXCEPT` queries. */
  method CompareProjection(l: Ledger, view: set<Decision>) returns (agrees: bool)
    ensures agrees <==> ProjectionAgrees(l, view)
  {
    hide IsExpected;
    var extra := set d | d in view && !IsExpected(l, d);
    var missing := set d | d in l.decisions && IsExpected(l, d) && d !in view;
    agrees := extra == {} && missing == {};
    if agrees {
      forall d | d in view ensures IsExpected(l, d) { assert d !in extra; }
      forall d | d in l.decisions && IsExpected(l, d) ensures d in view { assert d !in missing; }
    } else {
      assert (exists d :: d in extra) || (exists d :: d in missing);
    }
  }

  /** The row loops and the four set queries of `readiness`, in their order. */
  method AuditLedger(reg: Registry, l: Ledger, view: set<Decision>) returns (fault: Option<AuditFailure>)
    ensures fault.None? <==> Healthy(reg, l, view)
    ensures fault == Some(VerifiedWithoutEvidence) ==> exists d :: d in l.decisions && !VerifiedIsBacked(l, d)
    ensures fault == Some(RevisionChain) ==> exists d :: d in l.decisions && !RevisionIsChained(l, d)
    ensures fault == Some(TransitionInvalid) ==> exists d :: d in l.decisions && !TransitionIsValid(l, d)
    ensures fault == Some(CurrentProjection) ==> !ProjectionAgrees(l, view)
  {
    hide ProjectionAgrees, IdentityKey, VerifiedIsBacked, RevisionIsChained, TransitionIsValid, RouteOf;
    for n := 0 to |l.evidence|
      invariant forall k :: 0 <= k < n ==> EvidenceFault(reg, l.evidence[k]).None?
    {
      fault := EvidenceFault(reg, l.evidence[n]);
      if fault.Some? { return; }
    }
    for n := 0 to |l.decisions|
      invariant forall k :: 0 <= k < n ==> DecisionFault(reg, l.decisions[k]).None?
    {
      fault := DecisionFault(reg, l.decisions[n]);
      if fault.Some? { return; }
    }
    if exists d :: d in l.decisions && !VerifiedIsBacked(l, d) { return Some(VerifiedWithoutEvidence); }
    if exists d :: d in l.decisions && !RevisionIsChained(l, d) { return Some(RevisionChain); }
    if exists d :: d in l.decisions && !TransitionIsValid(l, d) { return Some(TransitionInvalid); }
    var agrees := CompareProjection(l, view);
    fault := if agrees then None else Some(CurrentProjection);
  }

  lemma GovernedRowIsHealthy(reg: Registry, ids: set<Identity>, l: Ledger, d: Decision)
    requires Governed(reg, ids, l) && d in l.decisions
    ensures DecisionFault(reg, d).None? && VerifiedIsBacked(l, d)
    ensures RevisionIsChained(l, d) && TransitionIsValid(l, d)
  {
    hide Inv, IdentityKey, RouteOf, EvidenceChecks, DecisionChecks;
    GovernedParts(reg, ids, l);
    var e := EvidenceOf(l, d);
    var k := Position(l.decisions, d);
    if d.action.Approve? { assert HasVerifiedEvidence(l, d); }
    if d.supersedes.Some? {
      var p := Before(l.decisions, d);
      var j := Position(l.decisions, p);
    }
  }

  /** The last decision of every identity that has one. */
  function Heads(ds: seq<Decision>): set<Decision> {
    set d | d in ds && IsHead(ds, d)
  }

  predicate IsHead(ds: seq<Decision>, d: Decision) {
    Rows(ds, d.identity) != [] && d == Last(Rows(ds, d.identity))
  }

  /** In a ledger of chains the rows without a successor are the last rows of the identities. */
  lemma ExpectedAreHeads(l: Ledger, d: Decision)
    requires Chains(l.decisions) && d in l.decisions
    ensures IsExpected(l, d) <==> IsHead(l.decisions, d)
  {
    var ds := l.decisions;
    if IsExpected(l, d) {
      assert d in View(ds);
      ViewedIsLast(ds, d);
    } else if IsHead(ds, d) {
      LastIsViewed(ds, d.identity);
      assert false;
    }
  }

  lemma ProjectionIsHeads(l: Ledger, view: set<Decision>)
    requires Chains(l.decisions)
    ensures ProjectionAgrees(l, view) <==> view == Heads(l.decisions)
  {
    hide Chains, IsExpected, IsHead;
    forall d | d in l.decisions ensures IsExpected(l, d) <==> IsHead(l.decisions, d) {
      ExpectedAreHeads(l, d);
    }
    forall d | d in view && IsExpected(l, d) ensures d in l.decisions {
      ExpectedIsStored(l, d);
    }
  }

  lemma ExpectedIsStored(l: Ledger, d: Decision)
    requires IsExpected(l, d)
    ensures d in l.decisions
  {
  }

  /**
   Every ledger that imports and decisions can reach passes the readiness audit together with a
   view exactly when the view yields the last decision of each decided identity and nothing else;
   the view of migration 10 does.
   */
  lemma ReachedLedgersAreHealthy(reg: Registry, steps: seq<Step>, ids: set<Identity>, n: nat, view: set<Decision>)
    requires SoundRun(steps, ids) && SoundRegistry(reg) && n <= |steps|
    ensures var l := Run(reg, steps, ids, n);
            && (Healthy(reg, l, view) <==> view == Heads(l.decisions))
            && Healthy(reg, l, View(l.decisions))
  {
    hide Inv, IdentityKey, RouteOf, VerifiedIsBacked, RevisionIsChained, TransitionIsValid, DecisionFault, ProjectionAgrees, Heads, View;
    var l := Run(reg, steps, ids, n);
    RunGoverned(reg, steps, ids, n);
    GovernedParts(reg, ids, l);
    forall e | e in l.evidence ensures EvidenceFault(reg, e).None? {
      EvidenceTexts(l, e);
    }
    forall d | d in l.decisions
      ensures DecisionFault(reg, d).None? && VerifiedIsBacked(l, d)
      ensures RevisionIsChained(l, d) && TransitionIsValid(l, d)
    {
      GovernedRowIsHealthy(reg, ids, l, d);
    }
    ProjectionIsHeads(l, view);
    ViewAgrees(l);
  }

  lemma ViewAgrees(l: Ledger)
    ensures ProjectionAgrees(l, View(l.decisions))
  {
  }

  // ---------------------------------------------------------- importing twice

  /** After a record is handled its digest is stored, and the id reported for it is the stored one. */
  lemma ImportOneStores(reg: Registry, done: Progress, b: Bundle, p: Payload, freshId: string, digest: string)
    requires ImportOne(reg, done, b, p, freshId).Some?
    ensures var next := ImportOne(reg, done, b, p, freshId).value;
            && next.ids[..|done.ids|] == done.ids && |next.ids| == |done.ids| + 1
            && FindDigest(next.ledger.evidence, reg.digestOf(p)).Some?
            && next.ids[|done.ids|] == FindDigest(next.ledger.evidence, reg.digestOf(p)).value.id
            && (FindDigest(done.ledger.evidence, digest).Some? ==>
                  FindDigest(next.ledger.evidence, digest) == FindDigest(done.ledger.evidence, digest))
  {
    hide EvidenceViolation;
    var row := EvidenceRow(reg, b, p, freshId);
    FindDigestAppend(done.ledger.evidence, row, digest);
    FindDigestAppend(done.ledger.evidence, row, reg.digestOf(p));
  }

  lemma {:induction false} ImportStores(reg: Registry, l: Ledger, b: Bundle, ps: seq<Payload>, m: nat, n: nat)
    requires m < n <= |ps| <= |b.freshIds| && ImportFirst(reg, l, b, ps, n).Some?
    ensures var done := ImportFirst(reg, l, b, ps, n).value;
            && |done.ids| == n
            && FindDigest(done.ledger.evidence, reg.digestOf(ps[m])).Some?
            && done.ids[m] == FindDigest(done.ledger.evidence, reg.digestOf(ps[m])).value.id
  {
    hide ImportOne, FindDigest;
    var before := ImportFirst(reg, l, b, ps, n - 1).value;
    ImportAnswersAll(reg, l, b, ps, n - 1);
    if m < n - 1 { ImportStores(reg, l, b, ps, m, n - 1); }
    ImportOneStores(reg, before, b, ps[n - 1], b.freshIds[n - 1], reg.digestOf(ps[m]));
    var done := ImportFirst(reg, l, b, ps, n).value;
    assert m < n - 1 ==> done.ids[m] == done.ids[..n - 1][m];
  }

  lemma {:induction false} ImportAnswersAll(reg: Registry, l: Ledger, b: Bundle, ps: seq<Payload>, n: nat)
    requires n <= |ps| <= |b.freshIds| && ImportFirst(reg, l, b, ps, n).Some?
    ensures |ImportFirst(reg, l, b, ps, n).value.ids| == n
  {
    hide ImportOne, FindDigest;
    if n > 0 {
      ImportAnswersAll(reg, l, b, ps, n - 1);
      ImportOneStores(reg, ImportFirst(reg, l, b, ps, n - 1).value, b, ps[n - 1], b.freshIds[n - 1], "");
    }
  }

  lemma FindDigestAppend(es: seq<Evidence>, e: Evidence, digest: string)
    ensures FindDigest(es + [e], digest)
            == if FindDigest(es, digest).Some? then FindDigest(es, digest)
               else if e.digest == digest then Some(e) else None
  {
    FirstAppend(es, e, (x: Evidence) => x.digest == digest);
  }

  lemma {:induction false} FirstAppend(es: seq<Evidence>, e: Evidence, wanted: Evidence -> bool)
    ensures First(es + [e], wanted)
            == if First(es, wanted).Some? then First(es, wanted) else if wanted(e) then Some(e) else None
  {
    if es != [] {
      assert (es + [e])[1..] == es[1..] + [e];
      FirstAppend(es[1..], e, wanted);
    }
  }

  /** The first `n` records add one evidence row for each record counted as created. */
  lemma {:induction false} ImportFirstCounts(reg: Registry, l: Ledger, b: Bundle, ps: seq<Payload>, n: nat)
    requires n <= |ps| <= |b.freshIds| && ImportFirst(reg, l, b, ps, n).Some?
    ensures var done := ImportFirst(reg, l, b, ps, n).value;
            |done.ledger.evidence| == |l.evidence| + done.created && l.evidence <= done.ledger.evidence
  {
    hide EvidenceViolation, FindDigest, EvidenceRow;
    if n > 0 { ImportFirstCounts(reg, l, b, ps, n - 1); }
  }

  /** An import adds exactly as many evidence rows as it reports created; a refused one adds none. */
  lemma ImportCounts(reg: Registry, l: Ledger, b: Bundle, before: BuildProbe, after: BuildProbe)
    requires |b.cells| <= |b.freshIds|
    ensures var (l', o) := Import(reg, l, b, before, after);
            && l'.decisions == l.decisions && l.evidence <= l'.evidence
            && |l'.evidence| == |l.evidence| + (if o.Imported? then o.created else 0)
            && (o.Imported? ==> |o.ids| == |b.cells|)
  {
    hide BundleRefusal, Payloads, ImportFirst, ProbeFailure, Ordering.Sorted, Ordering.AtMost;
    PayloadSize(reg, b);
    var done := ImportFirst(reg, l, b, Payloads(reg, b), |b.cells|);
    if done.Some? {
      ImportFirstFacts(reg, l, b);
      SortedSize(done.value.ids);
    }
  }

  lemma SortedSize(ids: seq<string>)
    ensures |Ordering.Sorted(ids, Ordering.AtMost)| == |ids|
  {
    hide Ordering.AtMost;
    Ordering.SameSize(Ordering.Sorted(ids, Ordering.AtMost), ids);
  }

  lemma ImportFirstFacts(reg: Registry, l: Ledger, b: Bundle)
    requires |b.cells| <= |b.freshIds| && |Payloads(reg, b)| == |b.cells|
    requires ImportFirst(reg, l, b, Payloads(reg, b), |b.cells|).Some?
    ensures var done := ImportFirst(reg, l, b, Payloads(reg, b), |b.cells|).value;
            && |done.ledger.evidence| == |l.evidence| + done.created && l.evidence <= done.ledger.evidence
            && done.ledger.decisions == l.decisions && |done.ids| == |b.cells|
  {
    hide Payloads, ImportFirst;
    var ps := Payloads(reg, b);
    ImportFirstCounts(reg, l, b, ps, |ps|);
    ImportAnswersAll(reg, l, b, ps, |ps|);
    ImportKeepsDecisions(reg, l, b, ps, |ps|);
  }

  lemma {:induction false} ImportKeepsDecisions(reg: Registry, l: Ledger, b: Bundle, ps: seq<Payload>, n: nat)
    requires n <= |ps| <= |b.freshIds| && ImportFirst(reg, l, b, ps, n).Some?
    ensures ImportFirst(reg, l, b, ps, n).value.ledger.decisions == l.decisions
  {
    hide EvidenceViolation, FindDigest, EvidenceRow;
    if n > 0 { ImportKeepsDecisions(reg, l, b, ps, n - 1); }
  }

  /** Importing a bundle again creates nothing and answers with the same evidence ids. */
  lemma ImportTwice(reg: Registry, l: Ledger, b: Bundle, again: Bundle, before: BuildProbe)
    requires |b.cells| <= |b.freshIds| && |again.cells| <= |again.freshIds|
    requires again == b.(freshIds := again.freshIds, importedAt := again.importedAt)
    requires Import(reg, l, b, before, before).1.Imported?
    ensures var (l', o) := Import(reg, l, b, before, before);
            Import(reg, l', again, before, before) == (l', Imported(0, o.ids))
  {
    hide EvidenceViolation, Payloads, BundleRefusal, FindDigest;
    var l' := Import(reg, l, b, before, before).0;
    var ps := Payloads(reg, b);
    PayloadCount(reg, b);
    SamePayloads(reg, b, again);
    SameRefusal(reg, b, again, before);
    ImportAnswersAll(reg, l, b, ps, |ps|);
    forall m | 0 <= m < |ps|
      ensures FindDigest(l'.evidence, reg.digestOf(ps[m])).Some?
      ensures ImportFirst(reg, l, b, ps, |ps|).value.ids[m] == FindDigest(l'.evidence, reg.digestOf(ps[m])).value.id
    {
      ImportStores(reg, l, b, ps, m, |ps|);
    }
    ImportFinds(reg, l', again, ps, ImportFirst(reg, l, b, ps, |ps|).value.ids, |ps|);
    var ids := ImportFirst(reg, l, b, ps, |ps|).value.ids;
    assert ids[..|ps|] == ids;
  }

  lemma SamePayloads(reg: Registry, b: Bundle, again: Bundle)
    requires again == b.(freshIds := again.freshIds, importedAt := again.importedAt)
    ensures Payloads(reg, again) == Payloads(reg, b)
  {
    assert CellPayloads(reg, again) == CellPayloads(reg, b);
  }

  lemma SameRefusal(reg: Registry, b: Bundle, again: Bundle, before: BuildProbe)
    requires again.results == b.results && again.cells == b.cells && again.environment == b.environment
    ensures BundleRefusal(reg, again, before) == BundleRefusal(reg, b, before)
  {
  }

  lemma ImportOneFinds(reg: Registry, done: Progress, b: Bundle, p: Payload, freshId: string)
    requires FindDigest(done.ledger.evidence, reg.digestOf(p)).Some?
    ensures ImportOne(reg, done, b, p, freshId)
            == Some(done.(ids := done.ids + [FindDigest(done.ledger.evidence, reg.digestOf(p)).value.id]))
  {
    hide EvidenceViolation, FindDigest;
  }

  lemma {:induction false} ImportFinds(reg: Registry, l: Ledger, b: Bundle, ps: seq<Payload>, ids: seq<string>, n: nat)
    requires n <= |ps| == |ids| && |ps| <= |b.freshIds|
    requires forall m :: 0 <= m < |ps| ==>
               FindDigest(l.evidence, reg.digestOf(ps[m])).Some? && ids[m] == FindDigest(l.evidence, reg.digestOf(ps[m])).value.id
    ensures ImportFirst(reg, l, b, ps, n) == Some(Progress(l, ids[..n], 0))
  {
    hide ImportOne, FindDigest;
    if n > 0 {
      ImportFinds(reg, l, b, ps, ids, n - 1);
      assert ids[..n] == ids[..n - 1] + [ids[n - 1]];
      ImportOneFinds(reg, Progress(l, ids[..n - 1], 0), b, ps[n - 1], b.freshIds[n - 1]);
    }
  }
}
