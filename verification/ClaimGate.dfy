/** The one-row `worker_claim_gate` table of schema 11. */
module ClaimGate {
  /*
   Four transactions use it: prepare, activate, stop, and the claim that reads it.
   */

  import opened Common

  /** The row; a timestamp column is represented by whether it is NOT NULL. */
  datatype GateRow = GateRow(
    runId: Option<string>, workerId: Option<string>,
    accepting: bool, activated: bool, stopRequested: bool)

  const SEED := GateRow(None, None, false, false, false)

  predicate RunIdText(s: string) {
    |s| == 32 && forall i :: 0 <= i < |s| ==> IsLowerHex(s[i])
  }

  predicate WorkerIdText(s: string) {
    1 <= |s| <= 128 && s[0] != ' ' && Last(s) != ' '
  }

  /** The table's CHECK constraint. */
  predicate GateCheck(g: GateRow) {
    || g == SEED
    || (&& g.runId.Some? && RunIdText(g.runId.value)
        && g.workerId.Some? && WorkerIdText(g.workerId.value)
        && (if g.accepting then g.activated && !g.stopRequested
            else (!g.activated && !g.stopRequested) || g.stopRequested))
  }

  /** The rows the table admits: nothing at all, or a run and a Worker that are prepared, accepting or stopped. */
  lemma GateCheckExactly(g: GateRow)
    ensures var empty := g.runId == None && g.workerId == None && !g.accepting && !g.activated && !g.stopRequested;
            var named := && g.runId.Some? && |g.runId.value| == 32
                         && (forall c :: c in g.runId.value ==> '0' <= c <= '9' || 'a' <= c <= 'f')
                         && g.workerId.Some? && 1 <= |g.workerId.value| <= 128
                         && g.workerId.value[0] != ' ' && g.workerId.value[|g.workerId.value| - 1] != ' ';
            var prepared := !g.accepting && !g.activated && !g.stopRequested;
            var accepts := g.accepting && g.activated && !g.stopRequested;
            var stopped := !g.accepting && g.stopRequested;
            GateCheck(g) <==> empty || (named && (prepared || accepts || stopped))
  {
    if g.runId.Some? { RunIdExactly(g.runId.value); }
  }

  lemma RunIdExactly(s: string)
    ensures RunIdText(s) <==> |s| == 32 && forall c :: c in s ==> '0' <= c <= '9' || 'a' <= c <= 'f'
  {
    if forall c :: c in s ==> '0' <= c <= '9' || 'a' <= c <= 'f' {
      forall i | 0 <= i < |s| ensures IsLowerHex(s[i]) { assert s[i] in s; }
    }
  }

  function Prepare(runId: string, workerId: string): GateRow {
    GateRow(Some(runId), Some(workerId), false, false, false)
  }

  /** `UPDATE ... WHERE` the row is exactly the prepared run; no row updated is an error. */
  function Activate(g: GateRow, runId: string, workerId: string): Option<GateRow> {
    if g == Prepare(runId, workerId) then Some(g.(accepting := true, activated := true)) else None
  }

  /** Stopping answers whether the row still belonged to this run. */
  function Stop(g: GateRow, runId: string): (bool, GateRow) {
    if g.runId != Some(runId) then (false, g) else (true, g.(accepting := false, stopRequested := true))
  }

  /** What the claim transaction demands of the row before it takes a job. */
  predicate CanClaim(g: GateRow, runId: string, workerId: string) {
    g.runId == Some(runId) && g.workerId == Some(workerId) && g.accepting && g.activated && !g.stopRequested
  }

  /**
   Under the CHECK, a claim is possible exactly between a successful activation and the next
   stop or prepare; a stopped run can neither claim nor be activated again, and stopping is
   idempotent and cannot touch another run's row.
   */
  lemma GateLaws(g: GateRow, runId: string, workerId: string, other: string)
    requires GateCheck(g) && RunIdText(runId) && WorkerIdText(workerId)
    ensures GateCheck(Prepare(runId, workerId)) && GateCheck(Stop(g, runId).1)
    ensures Activate(g, runId, workerId).Some? ==> GateCheck(Activate(g, runId, workerId).value)
    ensures Activate(g, runId, workerId).Some? ==> CanClaim(Activate(g, runId, workerId).value, runId, workerId)
    ensures !CanClaim(Prepare(runId, workerId), runId, workerId)
    ensures CanClaim(g, runId, workerId) ==> Activate(g, runId, workerId).None?
    ensures !CanClaim(Stop(g, runId).1, runId, workerId)
    ensures Activate(Stop(g, runId).1, runId, workerId).None?
    ensures Stop(Stop(g, runId).1, runId) == Stop(g, runId)
    ensures other != runId ==> (CanClaim(Stop(g, other).1, runId, workerId) <==> CanClaim(g, runId, workerId))
  {
  }
}
