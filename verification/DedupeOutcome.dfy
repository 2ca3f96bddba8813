/** What migration 2 leaves in the three tables, said of their columns. */
module DedupeOutcome {
  import opened Common
  import opened Ordering
  import opened JobDedupe

  /** The statuses the window looks at. */
  predicate IsOpen(status: string) {
    status in {"queued", "probing", "downloading", "postprocessing", "verifying", "ready"}
  }

  /** A ready job before one that is not; otherwise the older one, and of two equally old the one with the lesser id. */
  predicate Outranks(a: Job, b: Job) {
    || (a.status == "ready" && b.status != "ready")
    || ((a.status == "ready" <==> b.status == "ready")
        && (Less(a.createdAt, b.createdAt) || (a.createdAt == b.createdAt && Less(a.id, b.id))))
  }

  ghost predicate Rivals(jobs: seq<Job>, i: nat, n: nat)
    requires i < |jobs| && n < |jobs|
  {
    i != n && jobs[n].source == jobs[i].source && IsOpen(jobs[n].status)
  }

  /** An open job that every other open job of its source ranks behind. */
  ghost predicate Wins(jobs: seq<Job>, i: nat)
    requires i < |jobs|
  {
    IsOpen(jobs[i].status) && forall n: nat :: n < |jobs| && Rivals(jobs, i, n) ==> Outranks(jobs[i], jobs[n])
  }

  /** An open job that some other open job of its source ranks before. */
  ghost predicate Loses(jobs: seq<Job>, i: nat)
    requires i < |jobs|
  {
    IsOpen(jobs[i].status) && exists n: nat :: n < |jobs| && Rivals(jobs, i, n) && Outranks(jobs[n], jobs[i])
  }

  lemma LiveIsOpen(j: Job)
    ensures Live(j) <==> IsOpen(j.status)
  {
  }

  lemma BeforeIsOutranks(a: Job, b: Job)
    ensures Before(a, b) <==> Outranks(a, b)
  {
    LessIrreflexive(a.createdAt);
  }

  lemma KeeperWins(jobs: seq<Job>, source: string, m: nat)
    requires IdsDistinct(jobs) && m < |jobs| && Keeper(jobs, source) == Some(jobs[m])
    ensures Wins(jobs, m) && jobs[m].source == source
  {
    hide Live, Keeper, Before, IsOpen, Outranks;
    KeeperIsFirst(jobs, source);
    LiveIsOpen(jobs[m]);
    forall n: nat | n < |jobs| && Rivals(jobs, m, n) ensures Outranks(jobs[m], jobs[n]) {
      LiveIsOpen(jobs[n]);
      BeforeIsOutranks(jobs[m], jobs[n]);
    }
  }

  lemma DuplicateLoses(jobs: seq<Job>, i: nat)
    requires IdsDistinct(jobs) && i < |jobs|
    ensures Duplicate(jobs, jobs[i]) <==> Loses(jobs, i)
    ensures Duplicate(jobs, jobs[i])
            ==> exists m: nat :: m < |jobs| && Wins(jobs, m) && jobs[m].source == jobs[i].source && Keeper(jobs, jobs[i].source) == Some(jobs[m])
  {
    hide Live, Keeper, Before, IsOpen, Outranks;
    var j := jobs[i];
    LiveIsOpen(j);
    KeeperIsFirst(jobs, j.source);
    if Live(j) {
      var keeper := Keeper(jobs, j.source).value;
      var m :| 0 <= m < |jobs| && jobs[m] == keeper;
      KeeperWins(jobs, j.source, m);
      LiveIsOpen(jobs[m]);
      if m != i { assert Rivals(jobs, i, m) && Rivals(jobs, m, i); }
      if n: nat :| n < |jobs| && Rivals(jobs, i, n) && Outranks(jobs[n], j) && m == i {
        BeforeIsOutranks(jobs[n], j);
        BeforeIsOutranks(j, jobs[n]);
        BeforeIsTotal(j, jobs[n]);
        assert false;
      }
    }
  }

  /** A job is canceled, without a lease and at this time, exactly when it loses; nothing else in its row changes. */
  lemma JobsAreDeduped(jobs: seq<Job>, now: string, i: nat)
    requires IdsDistinct(jobs) && i < |jobs|
    ensures var j := jobs[i];
            DedupedJobs(jobs, now)[i]
            == if Loses(jobs, i) then
                 Job(j.id, j.inputId, j.batchId, j.source, j.jobKind, "canceled", j.createdAt, now, Lease(None, None, None, None, None))
               else j
  {
    hide Duplicate, Loses;
    DuplicateLoses(jobs, i);
  }

  ghost predicate LosesOf(jobs: seq<Job>, k: nat, inputId: string) {
    k < |jobs| && jobs[k].inputId == inputId && Loses(jobs, k)
  }

  /** The input of the job that wins where this one loses. */
  ghost predicate LosesTo(jobs: seq<Job>, k: nat, m: nat) {
    k < |jobs| && m < |jobs| && Wins(jobs, m) && jobs[m].source == jobs[k].source
  }

  /** An input is marked exactly when a job of it loses, as a duplicate of the input whose job wins there. */
  lemma InputsAreMarked(jobs: seq<Job>, inputs: seq<Input>, i: nat)
    requires IdsDistinct(jobs) && i < |inputs|
    ensures var before, after := inputs[i], MarkedInputs(jobs, inputs)[i];
            if exists k: nat :: LosesOf(jobs, k, before.id) then
              exists k: nat, m: nat :: LosesOf(jobs, k, before.id) && LosesTo(jobs, k, m)
                                       && after == Input(before.id, before.batchId, "duplicate", Some(jobs[m].inputId))
            else after == before
  {
    hide Duplicate, Loses, Wins, Keeper;
    var id := inputs[i].id;
    FirstDuplicate(jobs, jobs, id);
    var found := DuplicateFor(jobs, jobs, id);
    if found.Some? {
      var k: nat :| k < |jobs| && jobs[k] == found.value;
      DuplicateLoses(jobs, k);
      assert LosesOf(jobs, k, id);
      var m: nat :| m < |jobs| && Wins(jobs, m) && jobs[m].source == jobs[k].source && Keeper(jobs, jobs[k].source) == Some(jobs[m]);
      assert LosesTo(jobs, k, m);
    } else if k: nat :| LosesOf(jobs, k, id) {
      DuplicateLoses(jobs, k);
      assert false;
    }
  }

  // -------------------------------------------------------------------- the batches

  /** The inputs of a batch that have a status, by their place in the table. */
  ghost function InputsOf(inputs: seq<Input>, batchId: string, status: string): set<nat> {
    set k: nat | k < |inputs| && inputs[k].batchId == batchId && inputs[k].status == status
  }

  ghost function InputsFrom(inputs: seq<Input>, n: nat, batchId: string, status: string): set<nat> {
    set k: nat | n <= k < |inputs| && inputs[k].batchId == batchId && inputs[k].status == status
  }

  lemma NextInput(inputs: seq<Input>, n: nat, batchId: string, status: string)
    requires n < |inputs|
    ensures |InputsFrom(inputs, n, batchId, status)|
            == |InputsFrom(inputs, n + 1, batchId, status)| + if inputs[n].batchId == batchId && inputs[n].status == status then 1 else 0
  {
    var here, later := InputsFrom(inputs, n, batchId, status), InputsFrom(inputs, n + 1, batchId, status);
    assert here == later + if inputs[n].batchId == batchId && inputs[n].status == status then {n} else {};
    assert n !in later;
  }

  lemma {:induction false} CountIsSize(inputs: seq<Input>, n: nat, batchId: string, status: string)
    requires n <= |inputs|
    ensures Count(inputs[n..], batchId, status) == |InputsFrom(inputs, n, batchId, status)|
    decreases |inputs| - n
  {
    if n < |inputs| {
      hide InputsFrom;
      NextInput(inputs, n, batchId, status);
      CountIsSize(inputs, n + 1, batchId, status);
      assert inputs[n..][1..] == inputs[n + 1..];
    }
  }

  lemma CountIsNumber(inputs: seq<Input>, batchId: string, status: string)
    ensures Count(inputs, batchId, status) == |InputsOf(inputs, batchId, status)|
  {
    CountIsSize(inputs, 0, batchId, status);
    assert inputs[0..] == inputs;
    assert InputsFrom(inputs, 0, batchId, status) == InputsOf(inputs, batchId, status);
  }

  /**
   The counters of a batch are the numbers of its inputs that are queued, failed and duplicate when the
   migration is done with them, and its status is the first of these that any of its inputs has.
   */
  lemma BatchesAreRecounted(inputs: seq<Input>, batches: seq<Batch>, now: string, i: nat)
    requires i < |batches|
    ensures var b, after := batches[i], RecountedAll(inputs, batches, now)[i];
            && after.id == b.id && after.updatedAt == now
            && after.queued == |InputsOf(inputs, b.id, "queued")|
            && after.failed == |InputsOf(inputs, b.id, "failed")|
            && after.duplicate == |InputsOf(inputs, b.id, "duplicate")|
            && after.status == if InputsOf(inputs, b.id, "queued") != {} then "queued"
                               else if InputsOf(inputs, b.id, "failed") != {} then "failed"
                               else if InputsOf(inputs, b.id, "duplicate") != {} then "duplicate"
                               else b.status
  {
    hide InputsOf, Count;
    var b := batches[i];
    CountIsNumber(inputs, b.id, "queued");
    CountIsNumber(inputs, b.id, "failed");
    CountIsNumber(inputs, b.id, "duplicate");
  }
}
