/** The append-only capability ledger of schema 10. */
module CapabilityLedger {
  /*
   Evidence rows, approve/revoke decision rows, the guards SQLite enforces on every insert, and
   the `platform_capabilities` view.

   A ledger is two row lists in rowid order. `EvidenceViolation` and `DecisionViolation` are the
   CHECKs, indexes, foreign keys and triggers; a row enters the ledger exactly when they report
   nothing.
   */

  import opened Common

  /** The seven fields that identify one capability. */
  datatype Identity = Identity(
    platform: string, sourceType: string, jobKind: string, adapter: string,
    downloaderVersion: string, environment: string, productVersion: string)

  datatype Verdict = Candidate | Verified

  datatype Action = Approve | Revoke

  /** The evidence columns that the evidence digest covers. */
  datatype Payload = Payload(
    identity: Identity, key: string, kind: string, policy: string,
    bundleSha: string, positiveSamples: int, negativeSamples: int,
    completeRuns: int, positiveRates: seq<real>, negativeRates: seq<real>,
    verdict: Verdict, evaluatedAt: string)

  datatype Evidence = Evidence(
    id: string, payload: Payload, manifestSha: string, resultsSha: string,
    digest: string, importedAt: string)

  datatype Decision = Decision(
    id: string, key: string, identity: Identity, evidenceId: string,
    action: Action, status: Verdict, supersedes: Option<string>,
    revision: int, reason: string, decidedAt: string)

  datatype Ledger = Ledger(evidence: seq<Evidence>, decisions: seq<Decision>)

  const EMPTY := Ledger([], [])

  /** Why SQLite refused an insert; every one surfaces as an IntegrityError. */
  datatype Violation = Trigger | Check | UniqueIndex | ForeignKey

  // ---------------------------------------------------------------- CHECKs

  /** `s = trim(s) AND length(s) BETWEEN lo AND hi`; SQLite trims spaces only. */
  predicate TextBetween(s: string, lo: nat, hi: nat) {
    lo <= |s| <= hi && (|s| > 0 ==> s[0] != ' ' && Last(s) != ' ')
  }

  function LowerAscii(c: char): char {
    if 'A' <= c <= 'Z' then (c as int + 32) as char else c
  }

  /** `lower(s) = word` for a lower-case word. */
  predicate LowersTo(s: string, word: string) {
    |s| == |word| && (s == [] || (LowerAscii(s[0]) == word[0] && LowersTo(s[1..], word[1..])))
  }

  predicate Placeholder(s: string) {
    LowersTo(s, "unknown") || LowersTo(s, "unexecuted") || LowersTo(s, "n/a")
  }

  predicate IdentityChecks(i: Identity) {
    && TextBetween(i.platform, 1, 32)
    && TextBetween(i.sourceType, 1, 64)
    && i.jobKind in {"discover", "download"}
    && TextBetween(i.adapter, 1, 128)
    && TextBetween(i.downloaderVersion, 1, 128)
    && !Placeholder(i.downloaderVersion)
    && TextBetween(i.environment, 1, 128)
    && !Placeholder(i.environment)
    && TextBetween(i.productVersion, 1, 128)
    && !Placeholder(i.productVersion) && !LowersTo(i.productVersion, "legacy")
  }

  predicate EvidenceChecks(e: Evidence) {
    var p := e.payload;
    && TextBetween(e.id, 1, 128)
    && IsHex64(p.key) && IdentityChecks(p.identity)
    && p.kind == "stage0_csv_v3" && p.policy == "stage0-v3"
    && IsHex64(e.manifestSha) && IsHex64(e.resultsSha) && IsHex64(p.bundleSha) && IsHex64(e.digest)
    && p.positiveSamples >= 0 && p.negativeSamples >= 0 && p.completeRuns >= 0
    && |p.positiveRates| <= 3 && |p.negativeRates| <= 3
    && TextBetween(p.evaluatedAt, 20, 64) && TextBetween(e.importedAt, 20, 64)
    && (p.verdict.Verified? ==>
          && p.positiveSamples >= 10 && p.negativeSamples >= 1 && p.completeRuns >= 3
          && |p.positiveRates| == 3 && |p.negativeRates| == 3)
  }

  predicate DecisionChecks(d: Decision) {
    && TextBetween(d.id, 1, 128)
    && IsHex64(d.key) && IdentityChecks(d.identity)
    && TextBetween(d.evidenceId, 1, 128)
    && (d.supersedes.Some? ==> d.supersedes.value != d.id && TextBetween(d.supersedes.value, 1, 128))
    && d.revision >= 1
    && TextBetween(d.reason, 1, 128) && TextBetween(d.decidedAt, 20, 64)
    && (d.action.Approve? <==> d.status.Verified?)
    && (d.supersedes.None? ==> d.revision == 1)
    && (d.supersedes.Some? ==> d.revision >= 2)
  }

  // -------------------------------------------------------------- triggers

  predicate RatesBetween(rates: seq<real>, lo: real, hi: real) {
    forall i :: 0 <= i < |rates| ==> lo <= rates[i] <= hi
  }

  predicate RatesTrigger(p: Payload) {
    && RatesBetween(p.positiveRates, 0.0, 1.0) && RatesBetween(p.negativeRates, 0.0, 1.0)
    && (p.verdict.Verified? ==> RatesBetween(p.positiveRates, 0.9, 1.0) && RatesBetween(p.negativeRates, 1.0, 1.0))
  }

  /** The matching columns of the composite foreign key onto an evidence row. */
  predicate MatchesEvidence(e: Evidence, d: Decision) {
    e.id == d.evidenceId && e.payload.key == d.key && e.payload.identity == d.identity
  }

  /** The matching columns of the composite foreign key onto the previous row. */
  predicate MatchesPrevious(p: Decision, d: Decision) {
    d.supersedes == Some(p.id) && p.key == d.key && p.identity == d.identity
  }

  /** `trg_capability_decisions_no_replace`, for one existing row. */
  predicate Replaces(x: Decision, d: Decision) {
    || x.id == d.id
    || (x.key == d.key && x.identity == d.identity && x.revision == d.revision)
    || (d.supersedes.Some? && x.supersedes == d.supersedes)
    || (d.supersedes.None? && x.supersedes.None? && x.key == d.key)
    || (d.action.Approve? && x.action.Approve? && x.evidenceId == d.evidenceId)
  }

  predicate DecisionTriggers(l: Ledger, d: Decision) {
    && (forall x :: x in l.decisions ==> !Replaces(x, d))
    && (d.supersedes.Some? ==>
          exists p :: p in l.decisions && MatchesPrevious(p, d) && d.revision == p.revision + 1)
    && (d.action.Revoke? ==>
          exists p :: p in l.decisions && d.supersedes == Some(p.id) && p.key == d.key
                      && p.status.Verified? && p.evidenceId == d.evidenceId)
    && (d.action.Approve? ==>
          exists e :: e in l.evidence && MatchesEvidence(e, d) && e.payload.kind == "stage0_csv_v3"
                      && e.payload.policy == "stage0-v3" && e.payload.verdict.Verified?)
  }

  // --------------------------------------------- unique indexes, foreign keys

  predicate DecisionUnique(l: Ledger, d: Decision) {
    forall x :: x in l.decisions ==>
      && x.id != d.id
      && !(x.supersedes.None? && d.supersedes.None? && x.identity == d.identity)
      && !(d.supersedes.Some? && x.supersedes == d.supersedes)
      && !(x.identity == d.identity && x.revision == d.revision)
      && !(x.action.Approve? && d.action.Approve? && x.evidenceId == d.evidenceId)
  }

  predicate DecisionForeignKeys(l: Ledger, d: Decision) {
    && (exists e :: e in l.evidence && MatchesEvidence(e, d))
    && (d.supersedes.Some? ==> exists p :: p in l.decisions && MatchesPrevious(p, d))
  }

  /** BEFORE triggers run first, then row CHECKs, then indexes, then foreign keys. */
  function DecisionViolation(l: Ledger, d: Decision): Option<Violation> {
    if !DecisionTriggers(l, d) then Some(Trigger)
    else if !DecisionChecks(d) then Some(Check)
    else if !DecisionUnique(l, d) then Some(UniqueIndex)
    else if !DecisionForeignKeys(l, d) then Some(ForeignKey)
    else None
  }

  predicate EvidenceTriggers(l: Ledger, e: Evidence) {
    (forall x :: x in l.evidence ==> x.id != e.id && x.digest != e.digest) && RatesTrigger(e.payload)
  }
  function EvidenceViolation(l: Ledger, e: Evidence): Option<Violation> {
    if !EvidenceTriggers(l, e) then Some(Trigger)
    else if !EvidenceChecks(e) then Some(Check)
    else None
  }

  /** `SELECT` from `platform_capabilities`: the rows nothing supersedes. */
  function View(ds: seq<Decision>): set<Decision> {
    set d | d in ds && !(exists s :: s in ds && s.supersedes == Some(d.id))
  }

  /** The decisions of one identity in insertion order. */
  function Rows(ds: seq<Decision>, i: Identity): seq<Decision> {
    if ds == [] then []
    else if Last(ds).identity == i then Rows(ds[..|ds| - 1], i) + [Last(ds)]
    else Rows(ds[..|ds| - 1], i)
  }

  // ------------------------------------------------------------- invariant

  /** Row `k` of an unbranched chain: revision k+1, hanging off row k-1. */
  ghost predicate Linked(rows: seq<Decision>, k: nat)
    requires k < |rows|
  {
    && rows[k].revision == k + 1
    && rows[k].supersedes == (if k == 0 then None else Some(rows[k - 1].id))
    && rows[k].key == rows[0].key
    && (rows[k].action.Approve? <==> rows[k].status.Verified?)
    && (rows[k].action.Revoke? ==>
          k > 0 && rows[k - 1].action.Approve? && rows[k - 1].evidenceId == rows[k].evidenceId)
  }

  ghost predicate IsChain(rows: seq<Decision>) {
    forall k :: 0 <= k < |rows| ==> Linked(rows, k)
  }

  ghost predicate HasVerifiedEvidence(l: Ledger, d: Decision) {
    exists e :: e in l.evidence && MatchesEvidence(e, d) && e.payload.verdict.Verified?
                && e.payload.kind == "stage0_csv_v3" && e.payload.policy == "stage0-v3"
  }

  ghost predicate UniqueDecisionIds(ds: seq<Decision>) {
    forall i, j :: 0 <= i < j < |ds| ==> ds[i].id != ds[j].id
  }

  ghost predicate OneApprovalPerEvidence(ds: seq<Decision>) {
    forall i, j :: 0 <= i < j < |ds| && ds[i].action.Approve? && ds[j].action.Approve?
      ==> ds[i].evidenceId != ds[j].evidenceId
  }

  /** Decision ids are unique and every identity's rows are one chain. */
  ghost predicate Chains(ds: seq<Decision>) {
    UniqueDecisionIds(ds) && forall i :: IsChain(Rows(ds, i))
  }

  /** Rows that share a key share the seven fields. */
  ghost predicate KeysAgree(ds: seq<Decision>) {
    forall c, d :: c in ds && d in ds && c.key == d.key ==> c.identity == d.identity
  }

  ghost predicate HasEvidence(l: Ledger, d: Decision) {
    exists e :: e in l.evidence && MatchesEvidence(e, d)
  }

  ghost predicate Backed(l: Ledger) {
    && (forall d :: d in l.decisions ==> HasEvidence(l, d))
    && (forall d :: d in l.decisions && d.action.Approve? ==> HasVerifiedEvidence(l, d))
  }

  ghost predicate SoundEvidence(es: seq<Evidence>) {
    && (forall e :: e in es ==> EvidenceChecks(e))
    && (forall i, j :: 0 <= i < j < |es| ==> es[i].id != es[j].id)
    && (forall i, j :: 0 <= i < j < |es| ==> es[i].digest != es[j].digest)
  }

  ghost predicate SoundDecisions(ds: seq<Decision>) {
    forall d :: d in ds ==> DecisionChecks(d)
  }

  ghost predicate Inv(l: Ledger) {
    && Chains(l.decisions)
    && OneApprovalPerEvidence(l.decisions)
    && KeysAgree(l.decisions)
    && Backed(l)
    && SoundEvidence(l.evidence)
    && SoundDecisions(l.decisions)
  }

  /** One statement that SQLite lets through. */
  ghost predicate Admitted(l: Ledger, l': Ledger) {
    || (exists e :: EvidenceViolation(l, e).None? && l' == l.(evidence := l.evidence + [e]))
    || (exists d :: DecisionViolation(l, d).None? && l' == l.(decisions := l.decisions + [d]))
  }

  /** A history of guarded inserts that starts with the empty tables. */
  ghost predicate IsHistory(h: seq<Ledger>) {
    |h| > 0 && h[0] == EMPTY && forall k :: 0 <= k < |h| - 1 ==> Admitted(h[k], h[k + 1])
  }

  // ------------------------------------------------------ facts about Rows

  lemma RowsAppend(ds: seq<Decision>, d: Decision, i: Identity)
    ensures Rows(ds + [d], i) == Rows(ds, i) + (if d.identity == i then [d] else [])
  {
    assert (ds + [d])[..|ds + [d]| - 1] == ds;
  }

  lemma {:induction false} RowsMember(ds: seq<Decision>, i: Identity, d: Decision)
    ensures d in Rows(ds, i) <==> d in ds && d.identity == i
  {
    if ds != [] {
      RowsMember(ds[..|ds| - 1], i, d);
      assert ds == ds[..|ds| - 1] + [Last(ds)];
    }
  }

  lemma {:induction false} RowsExtend(ds: seq<Decision>, more: seq<Decision>, i: Identity)
    ensures |Rows(ds, i)| <= |Rows(ds + more, i)|
    ensures Rows(ds + more, i)[..|Rows(ds, i)|] == Rows(ds, i)
  {
    if more == [] {
      assert ds + more == ds;
    } else {
      var front := more[..|more| - 1];
      RowsExtend(ds, front, i);
      assert ds + more == (ds + front) + [Last(more)];
      RowsAppend(ds + front, Last(more), i);
    }
  }

  /** Ids are unique, so equal ids in the table mean equal rows. */
  lemma SameId(ds: seq<Decision>, c: Decision, d: Decision)
    requires UniqueDecisionIds(ds) && c in ds && d in ds && c.id == d.id
    ensures c == d
  {
  }

  /** The chain position of a decided row. */
  lemma Position(ds: seq<Decision>, d: Decision) returns (k: nat)
    requires d in ds
    ensures k < |Rows(ds, d.identity)| && Rows(ds, d.identity)[k] == d
    ensures Chains(ds) ==> Linked(Rows(ds, d.identity), k) && Linked(Rows(ds, d.identity), 0)
  {
    RowsMember(ds, d.identity, d);
    k :| 0 <= k < |Rows(ds, d.identity)| && Rows(ds, d.identity)[k] == d;
    if Chains(ds) { assert IsChain(Rows(ds, d.identity)); }
  }

  /** The row just before a linked row in its chain. */
  lemma Before(ds: seq<Decision>, d: Decision) returns (p: Decision)
    requires Chains(ds) && d in ds && d.supersedes.Some?
    ensures p in ds && MatchesPrevious(p, d) && d.revision == p.revision + 1
    ensures d.action.Revoke? ==> p.action.Approve? && p.evidenceId == d.evidenceId
  {
    var k := Position(ds, d);
    var rows := Rows(ds, d.identity);
    p := rows[k - 1];
    assert Linked(rows, k - 1);
    RowsMember(ds, d.identity, p);
  }

  // ------------------------------------------------ preservation by inserts

  /** A root row passes the no-replace trigger only when its key is undecided. */
  lemma RootStartsChain(ds: seq<Decision>, d: Decision)
    requires Chains(ds) && d.supersedes.None?
    requires forall x :: x in ds ==> !(x.supersedes.None? && x.identity == d.identity)
    ensures Rows(ds, d.identity) == []
  {
    var rows := Rows(ds, d.identity);
    if rows != [] {
      assert IsChain(rows);
      assert Linked(rows, 0);
      RowsMember(ds, d.identity, rows[0]);
    }
  }

  /** A row can only supersede the last row of its chain. */
  lemma SuccessorEndsChain(ds: seq<Decision>, p: Decision, d: Decision)
    requires Chains(ds) && p in ds && MatchesPrevious(p, d)
    requires forall x :: x in ds ==> x.supersedes != d.supersedes
    ensures Rows(ds, d.identity) != [] && Last(Rows(ds, d.identity)) == p
  {
    var k := Position(ds, p);
    var rows := Rows(ds, d.identity);
    if k + 1 < |rows| {
      assert Linked(rows, k + 1);
      RowsMember(ds, d.identity, rows[k + 1]);
      assert false;
    }
  }

  lemma ChainExtends(rows: seq<Decision>, d: Decision)
    requires IsChain(rows)
    requires d.action.Approve? <==> d.status.Verified?
    requires d.revision == |rows| + 1
    requires d.supersedes == if rows == [] then None else Some(Last(rows).id)
    requires rows != [] ==> d.key == Last(rows).key
    requires d.action.Revoke? ==> rows != [] && Last(rows).action.Approve? && Last(rows).evidenceId == d.evidenceId
    ensures IsChain(rows + [d])
  {
    if rows != [] { assert Linked(rows, |rows| - 1); }
    forall j | 0 <= j < |rows + [d]| ensures Linked(rows + [d], j) {
      if j < |rows| { assert Linked(rows, j); }
    }
  }

  /** A guarded decision lands at the end of its identity's chain. */
  lemma AdmittedExtendsChain(l: Ledger, d: Decision)
    requires Chains(l.decisions) && DecisionTriggers(l, d) && DecisionUnique(l, d)
    requires d.action.Approve? <==> d.status.Verified?
    requires d.supersedes.None? ==> d.revision == 1
    ensures var rows := Rows(l.decisions, d.identity);
            && d.supersedes == (if rows == [] then None else Some(Last(rows).id))
            && (rows != [] ==> Last(rows) in l.decisions && MatchesPrevious(Last(rows), d))
            && IsChain(rows + [d])
  {
    var ds := l.decisions;
    var rows := Rows(ds, d.identity);
    assert IsChain(rows);
    if d.supersedes.None? {
      RootStartsChain(ds, d);
    } else {
      var p :| p in ds && MatchesPrevious(p, d) && d.revision == p.revision + 1;
      SuccessorEndsChain(ds, p, d);
      assert Linked(rows, |rows| - 1);
      if d.action.Revoke? {
        var q :| q in ds && d.supersedes == Some(q.id) && q.key == d.key
                 && q.status.Verified? && q.evidenceId == d.evidenceId;
        SameId(ds, p, q);
      }
    }
    ChainExtends(rows, d);
  }

  lemma ChainsAppend(ds: seq<Decision>, d: Decision)
    requires Chains(ds) && IsChain(Rows(ds, d.identity) + [d])
    requires forall x :: x in ds ==> x.id != d.id
    ensures Chains(ds + [d])
  {
    forall i ensures IsChain(Rows(ds + [d], i)) {
      RowsAppend(ds, d, i);
      assert IsChain(Rows(ds, i));
    }
  }

  lemma KeysAppend(ds: seq<Decision>, d: Decision)
    requires Chains(ds) && KeysAgree(ds)
    requires forall x :: x in ds ==> !(d.supersedes.None? && x.supersedes.None? && x.key == d.key)
    requires d.supersedes.Some? ==> exists p :: p in ds && MatchesPrevious(p, d)
    ensures KeysAgree(ds + [d])
  {
    forall c | c in ds && c.key == d.key ensures c.identity == d.identity {
      if d.supersedes.None? {
        var k := Position(ds, c);
        RowsMember(ds, c.identity, Rows(ds, c.identity)[0]);
      }
    }
  }

  lemma BackedAppend(l: Ledger, d: Decision)
    requires Backed(l) && HasEvidence(l, d) && (d.action.Approve? ==> HasVerifiedEvidence(l, d))
    ensures Backed(l.(decisions := l.decisions + [d]))
  {
    var l' := l.(decisions := l.decisions + [d]);
    forall c | c in l'.decisions ensures HasEvidence(l', c) {
      assert HasEvidence(l, c);
    }
    forall c | c in l'.decisions && c.action.Approve? ensures HasVerifiedEvidence(l', c) {
      assert HasVerifiedEvidence(l, c);
    }
  }

  lemma AdmittedHasEvidence(l: Ledger, d: Decision)
    requires DecisionViolation(l, d).None?
    ensures HasEvidence(l, d) && (d.action.Approve? ==> HasVerifiedEvidence(l, d))
  {
  }

  lemma AdmittedKeepsChains(l: Ledger, d: Decision)
    requires Chains(l.decisions) && KeysAgree(l.decisions) && OneApprovalPerEvidence(l.decisions)
    requires DecisionViolation(l, d).None?
    ensures Chains(l.decisions + [d]) && KeysAgree(l.decisions + [d])
    ensures OneApprovalPerEvidence(l.decisions + [d])
  {
    AdmittedExtendsChain(l, d);
    ChainsAppend(l.decisions, d);
    assert forall x :: x in l.decisions ==> !Replaces(x, d);
    KeysAppend(l.decisions, d);
  }

  lemma DecisionInsertKeepsInv(l: Ledger, d: Decision)
    requires Inv(l) && DecisionViolation(l, d).None?
    ensures Inv(l.(decisions := l.decisions + [d]))
  {
    AdmittedKeepsChains(l, d);
    AdmittedHasEvidence(l, d);
    BackedAppend(l, d);
  }

  lemma EvidenceInsertKeepsInv(l: Ledger, e: Evidence)
    requires Inv(l) && EvidenceViolation(l, e).None?
    ensures Inv(l.(evidence := l.evidence + [e]))
  {
    var l' := l.(evidence := l.evidence + [e]);
    forall d | d in l'.decisions ensures HasEvidence(l', d) {
      assert HasEvidence(l, d);
    }
    forall d | d in l'.decisions && d.action.Approve? ensures HasVerifiedEvidence(l', d) {
      assert HasVerifiedEvidence(l, d);
    }
  }

  lemma {:induction false} HistoryKeepsInv(h: seq<Ledger>, n: nat)
    requires IsHistory(h) && n < |h|
    ensures Inv(h[n])
  {
    if n == 0 {
      forall i ensures IsChain(Rows(EMPTY.decisions, i)) {}
    } else {
      HistoryKeepsInv(h, n - 1);
      var l, l' := h[n - 1], h[n];
      assert Admitted(h[n - 1], h[n - 1 + 1]);
      if exists e :: EvidenceViolation(l, e).None? && l' == l.(evidence := l.evidence + [e]) {
        var e :| EvidenceViolation(l, e).None? && l' == l.(evidence := l.evidence + [e]);
        EvidenceInsertKeepsInv(l, e);
      } else {
        var d :| DecisionViolation(l, d).None? && l' == l.(decisions := l.decisions + [d]);
        DecisionInsertKeepsInv(l, d);
      }
    }
  }

  // ------------------------------------------------------------ the theorems

  lemma ViewedIsLast(ds: seq<Decision>, d: Decision)
    requires Chains(ds) && d in View(ds)
    ensures Rows(ds, d.identity) != [] && d == Last(Rows(ds, d.identity))
  {
    var k := Position(ds, d);
    var rows := Rows(ds, d.identity);
    if k + 1 < |rows| {
      assert IsChain(rows);
      assert Linked(rows, k + 1);
      RowsMember(ds, d.identity, rows[k + 1]);
      assert false;
    }
  }

  lemma LastIsViewed(ds: seq<Decision>, i: Identity)
    requires Chains(ds) && Rows(ds, i) != []
    ensures Last(Rows(ds, i)) in View(ds) && Last(Rows(ds, i)).identity == i
    ensures Last(Rows(ds, i)).revision == |Rows(ds, i)|
  {
    var rows := Rows(ds, i);
    var head := Last(rows);
    assert IsChain(rows);
    assert Linked(rows, |rows| - 1);
    RowsMember(ds, i, head);
    if s :| s in ds && s.supersedes == Some(head.id) {
      var p := Before(ds, s);
      SameId(ds, p, head);
      var k := Position(ds, s);
      assert false;
    }
  }

  /** The view shows, for each identity, exactly the last row of its chain. */
  lemma ViewOfIdentity(ds: seq<Decision>, i: Identity)
    requires Chains(ds)
    ensures var rows := Rows(ds, i);
            (set d | d in View(ds) && d.identity == i)
            == if rows == [] then {} else {Last(rows)}
  {
    var rows := Rows(ds, i);
    forall d | d in View(ds) && d.identity == i ensures rows != [] && d == Last(rows) {
      ViewedIsLast(ds, d);
    }
    if rows != [] { LastIsViewed(ds, i); }
  }

  /**
   Along every history of admitted inserts, the decisions of each identity are
   one unbranched chain numbered 1..n, and the view shows exactly the row with
   revision n.
   */
  lemma ChainTheorem(h: seq<Ledger>, n: nat, i: Identity)
    requires IsHistory(h) && n < |h|
    ensures var rows := Rows(h[n].decisions, i);
            && (forall k :: 0 <= k < |rows| ==>
                  && rows[k].revision == k + 1
                  && rows[k].supersedes == (if k == 0 then None else Some(rows[k - 1].id)))
            && (forall d :: d in rows <==> d in h[n].decisions && d.identity == i)
            && (set d | d in View(h[n].decisions) && d.identity == i)
               == (if rows == [] then {} else {rows[|rows| - 1]})
  {
    HistoryKeepsInv(h, n);
    var rows := Rows(h[n].decisions, i);
    assert IsChain(rows);
    forall k | 0 <= k < |rows|
      ensures rows[k].revision == k + 1
      ensures rows[k].supersedes == (if k == 0 then None else Some(rows[k - 1].id))
    {
      assert Linked(rows, k);
    }
    forall d ensures d in rows <==> d in h[n].decisions && d.identity == i {
      RowsMember(h[n].decisions, i, d);
    }
    ViewOfIdentity(h[n].decisions, i);
  }

  /** No constraint ties the stored key to the seven fields, yet no key is ever shared. */
  lemma KeyAndIdentityAgree(h: seq<Ledger>, n: nat, c: Decision, d: Decision)
    requires IsHistory(h) && n < |h| && c in h[n].decisions && d in h[n].decisions
    ensures c.key == d.key <==> c.identity == d.identity
  {
    HistoryKeepsInv(h, n);
    if c.identity == d.identity {
      var j := Position(h[n].decisions, c);
      var k := Position(h[n].decisions, d);
    }
  }

  /** Each evidence row is approved at most once, revoked at most once, and only right after its approval. */
  lemma EvidenceUsedOnce(h: seq<Ledger>, n: nat, c: Decision, d: Decision)
    requires IsHistory(h) && n < |h| && c in h[n].decisions && d in h[n].decisions
    requires c.evidenceId == d.evidenceId
    ensures c.action == d.action ==> c == d
    ensures c.action.Approve? && d.action.Revoke? ==>
              d.supersedes == Some(c.id) && d.revision == c.revision + 1 && d.identity == c.identity
  {
    HistoryKeepsInv(h, n);
    UsedOnce(h[n].decisions, c, d);
  }

  lemma UsedOnce(ds: seq<Decision>, c: Decision, d: Decision)
    requires Chains(ds) && OneApprovalPerEvidence(ds) && c in ds && d in ds
    requires c.evidenceId == d.evidenceId
    ensures c.action == d.action ==> c == d
    ensures c.action.Approve? && d.action.Revoke? ==> MatchesPrevious(c, d) && d.revision == c.revision + 1
  {
    if d.action.Revoke? {
      var k := Position(ds, d);
      var b := Before(ds, d);
      if c.action.Revoke? {
        var j := Position(ds, c);
        var a := Before(ds, c);
        assert a == b;
        SuccessorUnique(ds, a, c, d);
      }
    }
  }

  lemma SuccessorUnique(ds: seq<Decision>, p: Decision, c: Decision, d: Decision)
    requires Chains(ds) && p in ds && c in ds && d in ds && MatchesPrevious(p, c) && MatchesPrevious(p, d)
    ensures c == d
  {
    var i := Position(ds, p);
    var j := Position(ds, c);
    var k := Position(ds, d);
    var rows := Rows(ds, p.identity);
    assert IsChain(rows);
    assert Linked(rows, j - 1) && Linked(rows, k - 1);
    RowsMember(ds, p.identity, rows[j - 1]);
    RowsMember(ds, p.identity, rows[k - 1]);
    SameId(ds, rows[j - 1], p);
    SameId(ds, rows[k - 1], p);
  }

  // ---------------------------------------------------------- counting bound

  /** The verified evidence recorded for one identity. */
  function VerifiedFor(l: Ledger, i: Identity): set<string> {
    set e | e in l.evidence && e.payload.identity == i && e.payload.verdict.Verified? :: e.id
  }

  ghost function Approved(rows: seq<Decision>): set<string> {
    set d | d in rows && d.action.Approve? :: d.evidenceId
  }

  lemma {:induction false} ChainAtMostTwicePerApproval(rows: seq<Decision>)
    requires IsChain(rows) && OneApprovalPerEvidence(rows)
    ensures |rows| <= 2 * |Approved(rows)|
  {
    if rows != [] {
      assert Linked(rows, |rows| - 1);
      var cut := if Last(rows).action.Approve? then |rows| - 1 else |rows| - 2;
      var front := rows[..cut];
      forall k | 0 <= k < |front| ensures Linked(front, k) { assert Linked(rows, k); }
      ChainAtMostTwicePerApproval(front);
      var e := rows[cut].evidenceId;
      assert rows[cut].action.Approve? && e !in Approved(front);
      assert rows[cut] in rows;
      assert forall d :: d in front ==> d in rows;
      assert Approved(front) + {e} <= Approved(rows);
      Subset(Approved(front) + {e}, Approved(rows));
    }
  }

  lemma Subset<T>(a: set<T>, b: set<T>)
    requires a <= b
    ensures |a| <= |b|
  {
    assert b == a + (b - a);
  }

  lemma {:induction false} RowsOneApproval(ds: seq<Decision>, i: Identity)
    requires OneApprovalPerEvidence(ds)
    ensures OneApprovalPerEvidence(Rows(ds, i))
  {
    if ds != [] {
      var front := ds[..|ds| - 1];
      RowsOneApproval(front, i);
      forall d | d in Rows(front, i) ensures d in front { RowsMember(front, i, d); }
      forall d | d in front && d.action.Approve? && Last(ds).action.Approve?
        ensures d.evidenceId != Last(ds).evidenceId
      {
        var k :| 0 <= k < |front| && front[k] == d;
        assert ds[k] == d;
      }
    }
  }

  /** The head revision never exceeds twice the identity's verified evidence rows. */
  lemma RevisionBound(h: seq<Ledger>, n: nat, i: Identity)
    requires IsHistory(h) && n < |h|
    ensures |Rows(h[n].decisions, i)| <= 2 * |VerifiedFor(h[n], i)|
    ensures forall d :: d in View(h[n].decisions) && d.identity == i
                        ==> d.revision <= 2 * |VerifiedFor(h[n], i)|
  {
    var l := h[n];
    HistoryKeepsInv(h, n);
    var rows := Rows(l.decisions, i);
    assert IsChain(rows);
    RowsOneApproval(l.decisions, i);
    ChainAtMostTwicePerApproval(rows);
    forall x | x in Approved(rows) ensures x in VerifiedFor(l, i) {
      var d :| d in rows && d.action.Approve? && d.evidenceId == x;
      RowsMember(l.decisions, i, d);
      assert HasVerifiedEvidence(l, d);
    }
    Subset(Approved(rows), VerifiedFor(l, i));
    forall d | d in View(l.decisions) && d.identity == i ensures d.revision <= 2 * |VerifiedFor(l, i)| {
      var k := Position(l.decisions, d);
    }
  }

  // -------------------------------------------------- currency never returns

  /** The evidence whose approval is the current decision of an identity. */
  function CurrentEvidence(ds: seq<Decision>, i: Identity): Option<string> {
    var rows := Rows(ds, i);
    if rows != [] && Last(rows).action.Approve? then Some(Last(rows).evidenceId) else None
  }

  /** `CurrentEvidence` is what a reader of the view sees. */
  lemma CurrentEvidenceIsViewed(h: seq<Ledger>, n: nat, i: Identity, e: string)
    requires IsHistory(h) && n < |h|
    ensures CurrentEvidence(h[n].decisions, i) == Some(e)
            <==> exists d :: d in View(h[n].decisions) && d.identity == i && d.status.Verified? && d.evidenceId == e
  {
    HistoryKeepsInv(h, n);
    var ds := h[n].decisions;
    var rows := Rows(ds, i);
    if rows != [] {
      LastIsViewed(ds, i);
      assert IsChain(rows);
      assert Linked(rows, |rows| - 1);
    }
    if d :| d in View(ds) && d.identity == i && d.status.Verified? && d.evidenceId == e {
      ViewedIsLast(ds, d);
    }
  }

  lemma {:induction false} HistoryGrows(h: seq<Ledger>, m: nat, n: nat)
    requires IsHistory(h) && m <= n < |h|
    ensures h[m].decisions <= h[n].decisions && h[m].evidence <= h[n].evidence
  {
    if m < n {
      HistoryGrows(h, m, n - 1);
      assert Admitted(h[n - 1], h[n - 1 + 1]);
    }
  }

  lemma RowsGrow(h: seq<Ledger>, m: nat, n: nat, i: Identity)
    requires IsHistory(h) && m <= n < |h|
    ensures Rows(h[m].decisions, i) <= Rows(h[n].decisions, i)
  {
    HistoryGrows(h, m, n);
    var more := h[n].decisions[|h[m].decisions|..];
    assert h[n].decisions == h[m].decisions + more;
    RowsExtend(h[m].decisions, more, i);
  }

  /** Evidence that stops being current for an identity never becomes current again. */
  lemma NeverCurrentAgain(h: seq<Ledger>, a: nat, b: nat, c: nat, i: Identity, e: string)
    requires IsHistory(h) && a <= b <= c < |h|
    requires CurrentEvidence(h[a].decisions, i) == Some(e)
    requires CurrentEvidence(h[b].decisions, i) != Some(e)
    ensures CurrentEvidence(h[c].decisions, i) != Some(e)
  {
    RowsGrow(h, a, b, i);
    RowsGrow(h, b, c, i);
    var ra, rb, rc := Rows(h[a].decisions, i), Rows(h[b].decisions, i), Rows(h[c].decisions, i);
    assert rb[|ra| - 1] == Last(ra) && rc[|ra| - 1] == Last(ra);
    if CurrentEvidence(h[c].decisions, i) == Some(e) {
      HistoryKeepsInv(h, c);
      RowsOneApproval(h[c].decisions, i);
      assert false;
    }
  }
}
