/** The capability evidence repository. */
module CapabilityGovernance {
  /*
   Importing evidence bundles, approving and revoking.

   The repository works on the ledger of `CapabilityLedger` only through guarded inserts. What it
   cannot see (the clock, uuid4, the build identity probe, the route registry) is passed in.
   */

  import opened Common
  import opened CapabilityLedger
  import opened Digest
  import Json
  import Ordering
  import Utf8

  datatype Route = Route(platform: string, sourceType: string, jobKind: string, adapter: string)

  /** Registered routes may import and approve; known ones include the disabled. */
  datatype Registry = Registry(
    hash: Hash, digestOf: Payload -> string, known: set<Route>, registered: set<Route>)

  ghost predicate SoundRegistry(reg: Registry) {
    reg.registered <= reg.known && forall p :: IsHex64(reg.digestOf(p))
  }

  function RouteOf(i: Identity): Route {
    Route(i.platform, i.sourceType, i.jobKind, i.adapter)
  }

  /** The canonical JSON under the identity key: the seven fields in key order. */
  function IdentityJson(i: Identity): Json.Value {
    Json.Obj([
      Json.Field("adapter", Json.Str(i.adapter)),
      Json.Field("downloader_version", Json.Str(i.downloaderVersion)),
      Json.Field("environment", Json.Str(i.environment)),
      Json.Field("job_kind", Json.Str(i.jobKind)),
      Json.Field("platform", Json.Str(i.platform)),
      Json.Field("product_version", Json.Str(i.productVersion)),
      Json.Field("source_type", Json.Str(i.sourceType))])
  }

  function IdentityText(i: Identity): bytes {
    Utf8.Encode(Json.Print(IdentityJson(i), Json.Compact, 0))
  }

  function IdentityKey(h: Hash, i: Identity): string {
    h(IdentityText(i))
  }

  /** The text under the key determines all seven fields, so keys clash only on a hash collision. */
  lemma IdentityTextInjective(a: Identity, b: Identity)
    requires IdentityText(a) == IdentityText(b)
    ensures a == b
  {
    Utf8.EncodeInjective(Json.Print(IdentityJson(a), Json.Compact, 0), Json.Print(IdentityJson(b), Json.Compact, 0));
    Json.PrintInjective(IdentityJson(a), IdentityJson(b), Json.Compact);
    var fa, fb := IdentityJson(a).fields, IdentityJson(b).fields;
    assert fa[0] == fb[0] && fa[1] == fb[1] && fa[2] == fb[2] && fa[3] == fb[3];
    assert fa[4] == fb[4] && fa[5] == fb[5] && fa[6] == fb[6];
  }

  // ------------------------------------------------------------- deciding

  datatype BuildProbe = Current(identity: string) | Drifted | Unavailable

  datatype Call = Call(action: Action, evidenceId: string, expectedRevision: int, reason: string)

  /** What the host answers during one call. */
  datatype Host = Host(before: BuildProbe, after: BuildProbe, freshId: string, now: string)

  datatype Failure =
    | InvalidEvidenceId | InvalidReason | InvalidExpectedRevision | EvidenceNotFound
    | BuildDrift | BuildUnavailable | ProductVersionMismatch | ImplementationNotRegistered
    | RevisionMismatch | EvidenceNotQualified | EvidenceReplay | InvalidTransition
    | IntegrityConflict | ProjectionUnavailable
    | ResultsEmpty | EnvironmentMismatch | BundleEmpty | CellUnexecuted | EvidenceConflict

  datatype Outcome = Created(row: Decision) | Unchanged(row: Decision) | Failed(failure: Failure)

  predicate AllowedReason(a: Action, reason: string) {
    match a
    case Approve => reason in {"stage0-reviewed", "replacement-reviewed"}
    case Revoke => reason in {"regression", "superseded", "operator-withdrawn"}
  }

  function ProbeFailure(p: BuildProbe): Option<Failure> {
    match p
    case Current(_) => None
    case Drifted => Some(BuildDrift)
    case Unavailable => Some(BuildUnavailable)
  }

  /** `fetchone()` of a query by one column. */
  function First(es: seq<Evidence>, wanted: Evidence -> bool): (r: Option<Evidence>)
    ensures r.Some? ==> r.value in es && wanted(r.value)
    ensures r.None? ==> forall e :: e in es ==> !wanted(e)
  {
    if es == [] then None
    else if wanted(es[0]) then Some(es[0])
    else First(es[1..], wanted)
  }

  function FindEvidence(es: seq<Evidence>, id: string): (r: Option<Evidence>)
    ensures r.Some? ==> r.value in es && r.value.id == id
    ensures r.None? ==> forall e :: e in es ==> e.id != id
  {
    First(es, (e: Evidence) => e.id == id)
  }

  predicate Superseded(ds: seq<Decision>, d: Decision) {
    exists s :: s in ds && s.supersedes == Some(d.id)
  }

  function FindHead(ds: seq<Decision>, key: string, all: seq<Decision>): Option<Decision> {
    if ds == [] then None
    else if ds[0].key == key && !Superseded(all, ds[0]) then Some(ds[0])
    else FindHead(ds[1..], key, all)
  }

  /** `SELECT * FROM platform_capabilities WHERE identity_key = key`, first row. */
  function Head(l: Ledger, key: string): Option<Decision> {
    FindHead(l.decisions, key, l.decisions)
  }

  lemma {:induction false} FoundHead(ds: seq<Decision>, key: string, all: seq<Decision>)
    ensures var r := FindHead(ds, key, all);
            && (r.Some? ==> r.value in ds && r.value.key == key && !Superseded(all, r.value))
            && (r.None? ==> forall d :: d in ds && d.key == key ==> Superseded(all, d))
  {
    if ds != [] { FoundHead(ds[1..], key, all); }
  }

  function HeadRevision(head: Option<Decision>): int {
    if head.Some? then head.value.revision else 0
  }

  /** The current decision already is this approval. */
  predicate AlreadyApproved(head: Option<Decision>, call: Call) {
    call.action.Approve? && head.Some? && head.value.status.Verified? && head.value.evidenceId == call.evidenceId
  }

  /** The checks `_decide` makes before it builds a row, in their order. */
  function Refusal(reg: Registry, l: Ledger, call: Call, host: Host): Option<Failure> {
    if call.expectedRevision < 0 then Some(InvalidExpectedRevision)
    else
      var found := FindEvidence(l.evidence, call.evidenceId);
      if found.None? then Some(EvidenceNotFound)
      else
        var p := found.value.payload;
        var head := Head(l, p.key);
        if call.action.Approve? && ProbeFailure(host.before).Some? then ProbeFailure(host.before)
        else if call.action.Approve? && p.identity.productVersion != host.before.identity then Some(ProductVersionMismatch)
        else if RouteOf(p.identity) !in (if call.action.Approve? then reg.registered else reg.known)
        then Some(ImplementationNotRegistered)
        else if HeadRevision(head) != call.expectedRevision then Some(RevisionMismatch)
        else if call.action.Approve? then
          if !p.verdict.Verified? then Some(EvidenceNotQualified)
          else if AlreadyApproved(head, call) then None
          else if exists d :: d in l.decisions && d.evidenceId == call.evidenceId then Some(EvidenceReplay)
          else None
        else if head.None? || !head.value.status.Verified? || head.value.evidenceId != call.evidenceId
        then Some(InvalidTransition)
        else None
  }

  /** The row an accepted call writes. */
  function NewRow(l: Ledger, call: Call, host: Host): Decision
    requires FindEvidence(l.evidence, call.evidenceId).Some?
  {
    var p := FindEvidence(l.evidence, call.evidenceId).value.payload;
    var head := Head(l, p.key);
    Decision(host.freshId, p.key, p.identity, call.evidenceId, call.action,
             if call.action.Approve? then Verified else Candidate,
             if head.Some? then Some(head.value.id) else None,
             HeadRevision(head) + 1, call.reason, host.now)
  }

  /** The build identity is probed again after an approval was written. */
  function LateDrift(call: Call, host: Host): Option<Failure> {
    if call.action.Revoke? then None
    else if ProbeFailure(host.after).Some? then ProbeFailure(host.after)
    else if host.after != host.before then Some(BuildDrift)
    else None
  }

  /** An IntegrityError whose message says `unique` is answered as a revision mismatch. */
  function InsertFailure(v: Violation): Failure {
    if v.UniqueIndex? then RevisionMismatch else IntegrityConflict
  }

  /** What one `_decide` transaction leaves behind and answers. */
  function Decide(reg: Registry, l: Ledger, call: Call, host: Host): (Ledger, Outcome) {
    if Refusal(reg, l, call, host).Some? then (l, Failed(Refusal(reg, l, call, host).value))
    else
      var head := Head(l, FindEvidence(l.evidence, call.evidenceId).value.payload.key);
      if AlreadyApproved(head, call) then (l, Unchanged(head.value))
      else
        var row := NewRow(l, call, host);
        var l' := l.(decisions := l.decisions + [row]);
        if DecisionViolation(l, row).Some? then (l, Failed(InsertFailure(DecisionViolation(l, row).value)))
        else if Superseded(l'.decisions, row) then (l, Failed(ProjectionUnavailable))
        else if LateDrift(call, host).Some? then (l, Failed(LateDrift(call, host).value))
        else (l', Created(row))
  }

  // ------------------------------------------------------------- importing

  /** One evaluated capability cell of a validation run. */
  datatype Cell = Cell(
    identity: Identity, positiveSamples: int, negativeSamples: int, completeRuns: int,
    positiveRates: seq<real>, negativeRates: seq<real>, verdict: Verdict, evaluatedAt: string)

  /** One row of the results file, as far as the bundle checks look at it. */
  datatype ResultRow = ResultRow(environment: string, productVersion: string)

  datatype Bundle = Bundle(
    results: seq<ResultRow>, cells: seq<Cell>, environment: string, bundleSha: string, manifestSha: string,
    resultsSha: string, importedAt: string, freshIds: seq<string>)

  datatype ImportOutcome = Imported(created: nat, ids: seq<string>) | Refused(failure: Failure)

  function PayloadOf(reg: Registry, b: Bundle, c: Cell): Payload {
    Payload(c.identity, IdentityKey(reg.hash, c.identity), "stage0_csv_v3", "stage0-v3", b.bundleSha,
            c.positiveSamples, c.negativeSamples, c.completeRuns, c.positiveRates, c.negativeRates,
            c.verdict, c.evaluatedAt)
  }

  function CellPayloads(reg: Registry, b: Bundle): (r: seq<Payload>)
    ensures |r| == |b.cells|
  {
    seq(|b.cells|, i requires 0 <= i < |b.cells| => PayloadOf(reg, b, b.cells[i]))
  }

  /** The records, sorted by their digest. */
  function Payloads(reg: Registry, b: Bundle): seq<Payload> {
    Ordering.Sorted(CellPayloads(reg, b),
                    (x: Payload, y: Payload) => Ordering.AtMost(reg.digestOf(x), reg.digestOf(y)))
  }

  function CellRefusal(reg: Registry, c: Cell): Option<Failure> {
    if c.identity.adapter == "unexecuted" then Some(CellUnexecuted)
    else if RouteOf(c.identity) !in reg.registered then Some(ImplementationNotRegistered)
    else None
  }

  /** The first cell that is refused decides. */
  function CellsRefusal(reg: Registry, cells: seq<Cell>): (r: Option<Failure>)
    ensures r.None? <==> forall c :: c in cells ==> CellRefusal(reg, c).None?
  {
    if cells == [] then None
    else if CellRefusal(reg, cells[0]).Some? then CellRefusal(reg, cells[0])
    else CellsRefusal(reg, cells[1..])
  }

  function BundleRefusal(reg: Registry, b: Bundle, before: BuildProbe): Option<Failure> {
    if b.results == [] then Some(ResultsEmpty)
    else if exists row :: row in b.results && row.environment != b.environment then Some(EnvironmentMismatch)
    else if ProbeFailure(before).Some? then ProbeFailure(before)
    else if exists row :: row in b.results && row.productVersion != before.identity then Some(ProductVersionMismatch)
    else if b.cells == [] then Some(BundleEmpty)
    else CellsRefusal(reg, b.cells)
  }

  function FindDigest(es: seq<Evidence>, digest: string): Option<Evidence> {
    First(es, (e: Evidence) => e.digest == digest)
  }

  function EvidenceRow(reg: Registry, b: Bundle, p: Payload, id: string): Evidence {
    Evidence(id, p, b.manifestSha, b.resultsSha, reg.digestOf(p), b.importedAt)
  }

  datatype Progress = Progress(ledger: Ledger, ids: seq<string>, created: nat)

  /** One record of a bundle: already stored, inserted, or refused. */
  function ImportOne(reg: Registry, done: Progress, b: Bundle, p: Payload, freshId: string): Option<Progress> {
    var found := FindDigest(done.ledger.evidence, reg.digestOf(p));
    var row := EvidenceRow(reg, b, p, freshId);
    if found.Some? then Some(done.(ids := done.ids + [found.value.id]))
    else if EvidenceViolation(done.ledger, row).Some? then None
    else Some(Progress(done.ledger.(evidence := done.ledger.evidence + [row]), done.ids + [row.id], done.created + 1))
  }

  /** The first `n` records, unless an insert was refused. */
  function ImportFirst(reg: Registry, l: Ledger, b: Bundle, ps: seq<Payload>, n: nat): Option<Progress>
    requires n <= |ps| <= |b.freshIds|
  {
    if n == 0 then Some(Progress(l, [], 0))
    else
      var before := ImportFirst(reg, l, b, ps, n - 1);
      if before.None? then None else ImportOne(reg, before.value, b, ps[n - 1], b.freshIds[n - 1])
  }

  /** What one `import_csv_bundle` transaction leaves behind and answers. */
  function Import(reg: Registry, l: Ledger, b: Bundle, before: BuildProbe, after: BuildProbe): (Ledger, ImportOutcome)
    requires |b.cells| <= |b.freshIds|
  {
    if BundleRefusal(reg, b, before).Some? then (l, Refused(BundleRefusal(reg, b, before).value))
    else
      var ps := Payloads(reg, b);
      PayloadSize(reg, b);
      var done := ImportFirst(reg, l, b, ps, |ps|);
      if done.None? then (l, Refused(EvidenceConflict))
      else if ProbeFailure(after).Some? then (l, Refused(ProbeFailure(after).value))
      else if after != before then (l, Refused(BuildDrift))
      else (done.value.ledger, Imported(done.value.created, Ordering.Sorted(done.value.ids, Ordering.AtMost)))
  }

  /** The payload of every cell, once for each, and nothing else. */
  lemma PayloadCount(reg: Registry, b: Bundle)
    ensures |Payloads(reg, b)| == |b.cells|
    ensures multiset(Payloads(reg, b)) == multiset(CellPayloads(reg, b))
    ensures forall p :: p in Payloads(reg, b) <==> exists c :: c in b.cells && p == PayloadOf(reg, b, c)
  {
    hide PayloadOf;
    var ps := CellPayloads(reg, b);
    Ordering.SameSize(Payloads(reg, b), ps);
    forall p ensures p in Payloads(reg, b) <==> exists c :: c in b.cells && p == PayloadOf(reg, b, c) {
      assert p in Payloads(reg, b) <==> p in multiset(Payloads(reg, b));
      assert p in ps <==> p in multiset(ps);
      if p in ps {
        var i :| 0 <= i < |ps| && ps[i] == p;
        assert b.cells[i] in b.cells;
      }
      if c :| c in b.cells && p == PayloadOf(reg, b, c) {
        var i :| 0 <= i < |b.cells| && b.cells[i] == c;
        assert ps[i] == p;
      }
    }
  }

  lemma PayloadSize(reg: Registry, b: Bundle)
    ensures |Payloads(reg, b)| == |b.cells|
  {
    hide Payloads;
    PayloadCount(reg, b);
  }

  // ---------------------------------------------------- the two as methods

  /** The repository over one database; every method is one transaction. */
  class CapabilityRepository {
    var evidence: seq<Evidence>
    var decisions: seq<Decision>

    constructor ()
      ensures Rowsets() == EMPTY
    {
      evidence, decisions := [], [];
    }

    function Rowsets(): Ledger
      reads this
    {
      Ledger(evidence, decisions)
    }

    /** `INSERT INTO capability_decisions`. */
    method InsertDecision(d: Decision) returns (violation: Option<Violation>)
      modifies this`decisions
      ensures violation == DecisionViolation(old(Rowsets()), d)
      ensures decisions == if violation.None? then old(decisions) + [d] else old(decisions)
    {
      violation := DecisionViolation(Rowsets(), d);
      if violation.None? { decisions := decisions + [d]; }
    }

    /** `INSERT INTO capability_evidence`. */
    method InsertEvidence(e: Evidence) returns (violation: Option<Violation>)
      modifies this`evidence
      ensures violation == EvidenceViolation(old(Rowsets()), e)
      ensures evidence == if violation.None? then old(evidence) + [e] else old(evidence)
    {
      violation := EvidenceViolation(Rowsets(), e);
      if violation.None? { evidence := evidence + [e]; }
    }

    /** `approve` and `revoke`: argument checks, then one `_decide` transaction. */
    method ApproveOrRevoke(reg: Registry, call: Call, host: Host) returns (o: Outcome)
      modifies this`decisions
      ensures var reason := call.reason;
              var allowed := if call.action.Approve? then reason == "stage0-reviewed" || reason == "replacement-reviewed"
                             else reason == "regression" || reason == "superseded" || reason == "operator-withdrawn";
              (Rowsets(), o) == (
                if !IsCanonicalUuid(call.evidenceId) then (old(Rowsets()), Failed(InvalidEvidenceId))
                else if !allowed then (old(Rowsets()), Failed(InvalidReason))
                else Decide(reg, old(Rowsets()), call, host))
    {
      if !IsCanonicalUuid(call.evidenceId) { return Failed(InvalidEvidenceId); }
      if !AllowedReason(call.action, call.reason) { return Failed(InvalidReason); }
      o := DecideOnce(reg, call, host);
    }

    /** `_decide`: read, compare the revision, insert, read back, and roll back on late drift. */
    method DecideOnce(reg: Registry, call: Call, host: Host) returns (o: Outcome)
      modifies this`decisions
      ensures (Rowsets(), o) == Decide(reg, old(Rowsets()), call, host)
    {
      hide DecisionViolation, Head, FindEvidence, Superseded, View, RouteOf;
      if call.expectedRevision < 0 { return Failed(InvalidExpectedRevision); }
      var found := FindEvidence(evidence, call.evidenceId);
      if found.None? { return Failed(EvidenceNotFound); }
      var p := found.value.payload;
      if call.action.Approve? {
        var probed := ProbeFailure(host.before);
        if probed.Some? { return Failed(probed.value); }
        if p.identity.productVersion != host.before.identity { return Failed(ProductVersionMismatch); }
        if RouteOf(p.identity) !in reg.registered { return Failed(ImplementationNotRegistered); }
      } else if RouteOf(p.identity) !in reg.known {
        return Failed(ImplementationNotRegistered);
      }
      var head := Head(Rowsets(), p.key);
      var revision := 0;
      if head.Some? { revision := head.value.revision; }
      if revision != call.expectedRevision { return Failed(RevisionMismatch); }
      var status := Candidate;
      if call.action.Approve? {
        if p.verdict != Verified { return Failed(EvidenceNotQualified); }
        if head.Some? && head.value.status.Verified? && head.value.evidenceId == call.evidenceId {
          return Unchanged(head.value);
        }
        if exists d :: d in decisions && d.evidenceId == call.evidenceId { return Failed(EvidenceReplay); }
        status := Verified;
      } else if head.None? || !head.value.status.Verified? || head.value.evidenceId != call.evidenceId {
        return Failed(InvalidTransition);
      }
      var saved := decisions;
      var row := Decision(host.freshId, p.key, p.identity, call.evidenceId, call.action, status,
                          if head.Some? then Some(head.value.id) else None,
                          revision + 1, call.reason, host.now);
      var violation := InsertDecision(row);
      if violation.Some? { return Failed(InsertFailure(violation.value)); }
      if Superseded(decisions, row) {
        decisions := saved;
        return Failed(ProjectionUnavailable);
      }
      if call.action.Approve? && host.after != host.before {
        decisions := saved;
        return Failed(LateDrift(call, host).value);
      }
      o := Created(row);
    }

    /** The checks before the transaction, in their order; the cells are checked one after the other. */
    method CheckBundle(reg: Registry, b: Bundle, before: BuildProbe) returns (r: Option<Failure>)
      ensures r == BundleRefusal(reg, b, before)
    {
      hide CellRefusal;
      if b.results == [] { return Some(ResultsEmpty); }
      if exists row :: row in b.results && row.environment != b.environment { return Some(EnvironmentMismatch); }
      var probed := ProbeFailure(before);
      if probed.Some? { return probed; }
      if exists row :: row in b.results && row.productVersion != before.identity { return Some(ProductVersionMismatch); }
      if b.cells == [] { return Some(BundleEmpty); }
      for k := 0 to |b.cells|
        invariant CellsRefusal(reg, b.cells) == CellsRefusal(reg, b.cells[k..])
      {
        r := CellRefusal(reg, b.cells[k]);
        if r.Some? { return; }
      }
      r := None;
    }

    /** `import_csv_bundle`: every record already stored is skipped; any refusal undoes them all. */
    method ImportBundle(reg: Registry, b: Bundle, before: BuildProbe, after: BuildProbe) returns (o: ImportOutcome)
      requires |b.cells| <= |b.freshIds|
      modifies this`evidence
      ensures (Rowsets(), o) == Import(reg, old(Rowsets()), b, before, after)
    {
      hide EvidenceViolation, Payloads, PayloadOf, ImportFirst, FindDigest, EvidenceRow, BundleRefusal, ProbeFailure;
      var refused := CheckBundle(reg, b, before);
      if refused.Some? { return Refused(refused.value); }
      AdmittedProbe(reg, b, before);
      var ps := Payloads(reg, b);
      PayloadSize(reg, b);
      var saved := evidence;
      var ids: seq<string> := [];
      var created := 0;
      NothingImported(reg, Rowsets(), b, ps);
      for n := 0 to |ps|
        invariant decisions == old(decisions)
        invariant ImportFirst(reg, old(Rowsets()), b, ps, n) == Some(Progress(Rowsets(), ids, created))
      {
        ImportNext(reg, old(Rowsets()), b, ps, n);
        var digest := reg.digestOf(ps[n]);
        var found := FindDigest(evidence, digest);
        if found.Some? {
          ids := ids + [found.value.id];
        } else {
          var row := EvidenceRow(reg, b, ps[n], b.freshIds[n]);
          var violation := InsertEvidence(row);
          if violation.Some? {
            ImportStaysRefused(reg, old(Rowsets()), b, ps, n + 1, |ps|);
            evidence := saved;
            return Refused(EvidenceConflict);
          }
          ids := ids + [row.id];
          created := created + 1;
        }
      }
      if after != before {
        evidence := saved;
        var probed := ProbeFailure(after);
        return Refused(if probed.Some? then probed.value else BuildDrift);
      }
      o := Imported(created, Ordering.Sorted(ids, Ordering.AtMost));
    }
  }

  lemma AdmittedProbe(reg: Registry, b: Bundle, before: BuildProbe)
    requires BundleRefusal(reg, b, before).None?
    ensures ProbeFailure(before).None?
  {
  }

  lemma NothingImported(reg: Registry, l: Ledger, b: Bundle, ps: seq<Payload>)
    requires |ps| <= |b.freshIds|
    ensures ImportFirst(reg, l, b, ps, 0) == Some(Progress(l, [], 0))
  {
  }

  lemma ImportNext(reg: Registry, l: Ledger, b: Bundle, ps: seq<Payload>, n: nat)
    requires n < |ps| <= |b.freshIds| && ImportFirst(reg, l, b, ps, n).Some?
    ensures ImportFirst(reg, l, b, ps, n + 1) == ImportOne(reg, ImportFirst(reg, l, b, ps, n).value, b, ps[n], b.freshIds[n])
  {
    hide ImportOne;
  }

  lemma {:induction false} ImportStaysRefused(reg: Registry, l: Ledger, b: Bundle, ps: seq<Payload>, m: nat, n: nat)
    requires m <= n <= |ps| <= |b.freshIds| && ImportFirst(reg, l, b, ps, m).None?
    ensures ImportFirst(reg, l, b, ps, n).None?
  {
    hide ImportOne;
    if m < n { ImportStaysRefused(reg, l, b, ps, m, n - 1); }
  }
}
