/** Migration 2: one live job per source, inputs marked, batches recounted. */
module JobDedupe {
  import opened Common
  import opened Ordering

  datatype Lease = Lease(
    owner: Option<string>, expiresAt: Option<string>, token: Option<string>,
    heartbeatAt: Option<string>, cancelRequestedAt: Option<string>)

  const NO_LEASE := Lease(None, None, None, None, None)

  datatype Job = Job(
    id: string, inputId: string, batchId: string, source: string, jobKind: string, status: string,
    createdAt: string, updatedAt: string, lease: Lease)

  datatype Input = Input(id: string, batchId: string, status: string, duplicateOf: Option<string>)

  datatype Batch = Batch(id: string, status: string, queued: nat, failed: nat, duplicate: nat, updatedAt: string)

  predicate Live(j: Job) {
    || j.status == "queued" || j.status == "probing" || j.status == "downloading"
    || j.status == "postprocessing" || j.status == "verifying" || j.status == "ready"
  }

  // ------------------------------------------------------------------ who is kept

  /** The window's order: ready first, then by creation time, then by id. */
  predicate Before(a: Job, b: Job) {
    if (a.status == "ready") != (b.status == "ready") then a.status == "ready"
    else if a.createdAt != b.createdAt then Less(a.createdAt, b.createdAt)
    else Less(a.id, b.id)
  }

  /** `FIRST_VALUE ... OVER (PARTITION BY source ORDER BY ...)` over the live jobs. */
  function Keeper(jobs: seq<Job>, source: string): Option<Job> {
    if jobs == [] then None
    else
      var k := Keeper(jobs[..|jobs| - 1], source);
      var j := Last(jobs);
      if !Live(j) || j.source != source then k
      else if k.Some? && Before(k.value, j) then k
      else Some(j)
  }

  /** A row of the temporary table: `duplicate_rank > 1`. */
  predicate Duplicate(jobs: seq<Job>, j: Job) {
    Live(j) && Keeper(jobs, j.source).Some? && Keeper(jobs, j.source).value.id != j.id
  }

  ghost predicate IdsDistinct(jobs: seq<Job>) {
    forall i, k :: 0 <= i < k < |jobs| ==> jobs[i].id != jobs[k].id
  }

  /** What the table guarantees: its primary key and `UNIQUE(input_record_id, source_item_id, job_kind)`. */
  ghost predicate JobTable(jobs: seq<Job>) {
    && IdsDistinct(jobs)
    && forall i, k :: 0 <= i < k < |jobs| ==>
         !(jobs[i].inputId == jobs[k].inputId && jobs[i].source == jobs[k].source && jobs[i].jobKind == jobs[k].jobKind)
  }

  lemma BeforeIsTotal(a: Job, b: Job)
    ensures a.id != b.id ==> Before(a, b) || Before(b, a)
    ensures !(Before(a, b) && Before(b, a))
  {
    LessTotal(a.createdAt, b.createdAt);
    LessTotal(a.id, b.id);
  }

  lemma BeforeIsTransitive(a: Job, b: Job, c: Job)
    requires Before(a, b) && Before(b, c)
    ensures Before(a, c)
  {
    hide Less;
    if (a.status == "ready") == (b.status == "ready") && (b.status == "ready") == (c.status == "ready") {
      if a.createdAt != b.createdAt && b.createdAt != c.createdAt {
        LessTransitive(a.createdAt, b.createdAt, c.createdAt);
        LessTotal(a.createdAt, b.createdAt);
      } else if a.createdAt == b.createdAt && b.createdAt == c.createdAt {
        LessTransitive(a.id, b.id, c.id);
      }
    }
  }

  /** `k` is a live job of the source, and before every other one. */
  ghost predicate IsFirst(jobs: seq<Job>, source: string, k: Job) {
    && k in jobs && Live(k) && k.source == source
    && forall i :: 0 <= i < |jobs| && Live(jobs[i]) && jobs[i].source == source && jobs[i].id != k.id ==> Before(k, jobs[i])
  }

  lemma FirstStays(front: seq<Job>, j: Job, source: string, k: Job)
    requires IsFirst(front, source, k) && (Live(j) && j.source == source ==> Before(k, j))
    ensures IsFirst(front + [j], source, k)
  {
    hide Live, Before;
  }

  lemma FirstReplaced(front: seq<Job>, j: Job, source: string, k: Job)
    requires IdsDistinct(front + [j]) && IsFirst(front, source, k) && Live(j) && j.source == source && !Before(k, j)
    ensures IsFirst(front + [j], source, j)
  {
    hide Live, Before;
    var all := front + [j];
    var m :| 0 <= m < |front| && front[m] == k;
    assert all[m] == k && all[|front|] == j;
    BeforeIsTotal(k, j);
    forall i | 0 <= i < |all| && Live(all[i]) && all[i].source == source && all[i].id != j.id ensures Before(j, all[i]) {
      if all[i].id != k.id {
        assert all[i] == front[i];
        BeforeIsTransitive(j, k, front[i]);
      } else {
        assert i == m;
      }
    }
  }

  /** The keeper is a live job of its source, before every other one. */
  lemma {:induction false} KeeperIsFirst(jobs: seq<Job>, source: string)
    requires IdsDistinct(jobs)
    ensures Keeper(jobs, source).None? <==> forall i :: 0 <= i < |jobs| ==> !(Live(jobs[i]) && jobs[i].source == source)
    ensures Keeper(jobs, source).Some? ==> IsFirst(jobs, source, Keeper(jobs, source).value)
  {
    hide Live, Before, IsFirst;
    if jobs != [] {
      var front, j := jobs[..|jobs| - 1], Last(jobs);
      KeeperIsFirst(front, source);
      assert jobs == front + [j];
      var k := Keeper(front, source);
      if k.None? {
        OnlyOneIsFirst(front, j, source);
      } else if Live(j) && j.source == source && !Before(k.value, j) {
        FirstReplaced(front, j, source, k.value);
      } else {
        FirstStays(front, j, source, k.value);
        FirstIsMember(front, source, k.value);
      }
    }
  }

  lemma FirstIsMember(jobs: seq<Job>, source: string, k: Job)
    requires IsFirst(jobs, source, k)
    ensures exists i :: 0 <= i < |jobs| && jobs[i] == k && Live(jobs[i]) && jobs[i].source == source
  {
    hide Live, Before;
  }

  lemma OnlyOneIsFirst(front: seq<Job>, j: Job, source: string)
    requires forall i :: 0 <= i < |front| ==> !(Live(front[i]) && front[i].source == source)
    ensures Live(j) && j.source == source ==> IsFirst(front + [j], source, j)
  {
    hide Live, Before;
  }

  // ---------------------------------------------------------------- what it changes

  function Canceled(j: Job, now: string): Job {
    j.(status := "canceled", lease := NO_LEASE, updatedAt := now)
  }

  function DedupedJob(jobs: seq<Job>, j: Job, now: string): Job {
    if Duplicate(jobs, j) then Canceled(j, now) else j
  }

  function DedupedJobs(jobs: seq<Job>, now: string): (r: seq<Job>)
    ensures |r| == |jobs|
  {
    seq(|jobs|, i requires 0 <= i < |jobs| => DedupedJob(jobs, jobs[i], now))
  }

  /** The first temporary row of an input, in table order. */
  function DuplicateFor(jobs: seq<Job>, among: seq<Job>, inputId: string): Option<Job> {
    if among == [] then None
    else if among[0].inputId == inputId && Duplicate(jobs, among[0]) then Some(among[0])
    else DuplicateFor(jobs, among[1..], inputId)
  }

  function MarkedInput(jobs: seq<Job>, r: Input): Input {
    match DuplicateFor(jobs, jobs, r.id)
    case None => r
    case Some(j) =>
      r.(status := "duplicate",
         duplicateOf := if Keeper(jobs, j.source).Some? then Some(Keeper(jobs, j.source).value.inputId) else None)
  }

  function MarkedInputs(jobs: seq<Job>, inputs: seq<Input>): (r: seq<Input>)
    ensures |r| == |inputs|
  {
    seq(|inputs|, i requires 0 <= i < |inputs| => MarkedInput(jobs, inputs[i]))
  }

  function Count(inputs: seq<Input>, batchId: string, status: string): nat {
    if inputs == [] then 0
    else (if inputs[0].batchId == batchId && inputs[0].status == status then 1 else 0) + Count(inputs[1..], batchId, status)
  }

  function Recounted(inputs: seq<Input>, b: Batch, now: string): Batch {
    var queued, failed, duplicate := Count(inputs, b.id, "queued"), Count(inputs, b.id, "failed"), Count(inputs, b.id, "duplicate");
    b.(queued := queued, failed := failed, duplicate := duplicate, updatedAt := now,
       status := if queued > 0 then "queued" else if failed > 0 then "failed" else if duplicate > 0 then "duplicate" else b.status)
  }

  function RecountedAll(inputs: seq<Input>, batches: seq<Batch>, now: string): (r: seq<Batch>)
    ensures |r| == |batches|
  {
    seq(|batches|, i requires 0 <= i < |batches| => Recounted(inputs, batches[i], now))
  }

  class Tables {
    var jobs: seq<Job>
    var inputs: seq<Input>
    var batches: seq<Batch>

    constructor (jobs: seq<Job>, inputs: seq<Input>, batches: seq<Batch>)
      ensures this.jobs == jobs && this.inputs == inputs && this.batches == batches
    {
      this.jobs, this.inputs, this.batches := jobs, inputs, batches;
    }

    /** The data part of migration 2: find the duplicates, then update the three tables in turn. */
    method DeduplicateJobs(now: string)
      modifies this
      ensures jobs == DedupedJobs(old(jobs), now)
      ensures inputs == MarkedInputs(old(jobs), old(inputs))
      ensures batches == RecountedAll(inputs, old(batches), now)
    {
      hide Duplicate, Keeper, Recounted, MarkedInput;
      var before := jobs;
      for i := 0 to |inputs|
        invariant |inputs| == |old(inputs)| && jobs == before && batches == old(batches)
        invariant forall k :: 0 <= k < i ==> inputs[k] == MarkedInput(before, old(inputs)[k])
        invariant forall k :: i <= k < |inputs| ==> inputs[k] == old(inputs)[k]
      {
        inputs := inputs[i := MarkedInput(before, inputs[i])];
      }
      for i := 0 to |jobs|
        invariant |jobs| == |before| && inputs == MarkedInputs(before, old(inputs)) && batches == old(batches)
        invariant forall k :: 0 <= k < i ==> jobs[k] == DedupedJob(before, before[k], now)
        invariant forall k :: i <= k < |jobs| ==> jobs[k] == before[k]
      {
        if Duplicate(before, jobs[i]) {
          jobs := jobs[i := Canceled(jobs[i], now)];
        }
      }
      for i := 0 to |batches|
        invariant |batches| == |old(batches)| && inputs == MarkedInputs(before, old(inputs)) && jobs == DedupedJobs(before, now)
        invariant forall k :: 0 <= k < i ==> batches[k] == Recounted(inputs, old(batches)[k], now)
        invariant forall k :: i <= k < |batches| ==> batches[k] == old(batches)[k]
      {
        batches := batches[i := Recounted(inputs, batches[i], now)];
      }
    }
  }

  // ---------------------------------------------------------------------- theorems

  /** No job is lost: same rows, same ids and sources; only a duplicate changes, and it is canceled without a lease. */
  lemma NoJobIsLost(jobs: seq<Job>, now: string, i: nat)
    requires i < |jobs|
    ensures var j, k := jobs[i], DedupedJobs(jobs, now)[i];
            && k.id == j.id && k.inputId == j.inputId && k.source == j.source && k.jobKind == j.jobKind && k.createdAt == j.createdAt
            && (k != j ==> Live(j) && k.status == "canceled" && k.lease == NO_LEASE)
            && (!Live(j) ==> k == j)
  {
    hide Keeper;
  }

  lemma CanceledIsNotLive(j: Job, now: string)
    ensures !Live(Canceled(j, now))
  {
    assert |"canceled"| == 8 && |"queued"| == 6 && |"probing"| == 7 && |"downloading"| == 11 && |"postprocessing"| == 14;
    assert |"verifying"| == 9 && |"ready"| == 5;
  }

  /**
   Exactly one live job of each source survives: the one the window ranks first, unchanged. It is
   a ready one if there was any, and otherwise the earliest by creation time and id.
   */
  lemma SurvivorIsTheKeeper(jobs: seq<Job>, now: string, i: nat)
    requires IdsDistinct(jobs) && i < |jobs| && Live(jobs[i])
    ensures var after := DedupedJobs(jobs, now);
            && (Live(after[i]) <==> Keeper(jobs, jobs[i].source) == Some(jobs[i]))
            && (Live(after[i]) ==> after[i] == jobs[i])
            && (Live(after[i]) ==>
                  forall k :: 0 <= k < |jobs| && k != i && Live(jobs[k]) && jobs[k].source == jobs[i].source ==>
                    Before(jobs[i], jobs[k]) && !Live(after[k]))
  {
    var j := jobs[i];
    hide Keeper, Live, Before, IdsDistinct, IsFirst, DedupedJobs;
    SurvivesAsKeeper(jobs, now, i);
    if Live(DedupedJobs(jobs, now)[i]) {
      forall n | 0 <= n < |jobs| && n != i && Live(jobs[n]) && jobs[n].source == j.source
        ensures Before(j, jobs[n]) && !Live(DedupedJobs(jobs, now)[n])
      {
        KeeperIsFirst(jobs, j.source);
        FirstBeats(jobs, j.source, j, i, n);
        SurvivesAsKeeper(jobs, now, n);
        DistinctJobs(jobs, i, n);
      }
    }
  }

  /** A live job is live afterwards exactly when it is its source's keeper, and then it is unchanged. */
  lemma SurvivesAsKeeper(jobs: seq<Job>, now: string, i: nat)
    requires IdsDistinct(jobs) && i < |jobs| && Live(jobs[i])
    ensures Live(DedupedJobs(jobs, now)[i]) <==> Keeper(jobs, jobs[i].source) == Some(jobs[i])
    ensures Live(DedupedJobs(jobs, now)[i]) ==> DedupedJobs(jobs, now)[i] == jobs[i]
  {
    var j := jobs[i];
    hide Keeper, Live, Before, IdsDistinct, IsFirst;
    KeeperIsFirst(jobs, j.source);
    CanceledIsNotLive(j, now);
    KeeperById(jobs, j.source, i);
  }

  lemma DistinctJobs(jobs: seq<Job>, i: nat, n: nat)
    requires IdsDistinct(jobs) && i < |jobs| && n < |jobs| && i != n
    ensures jobs[i] != jobs[n]
  {
  }

  lemma KeeperById(jobs: seq<Job>, source: string, i: nat)
    requires IdsDistinct(jobs) && i < |jobs| && Keeper(jobs, source).Some? && IsFirst(jobs, source, Keeper(jobs, source).value)
    ensures Keeper(jobs, source).value.id == jobs[i].id ==> Keeper(jobs, source).value == jobs[i]
  {
    hide Keeper, Live, Before;
    var m :| 0 <= m < |jobs| && jobs[m] == Keeper(jobs, source).value;
  }

  lemma FirstBeats(jobs: seq<Job>, source: string, k: Job, i: nat, n: nat)
    requires IdsDistinct(jobs) && IsFirst(jobs, source, k) && i < |jobs| && n < |jobs| && i != n && jobs[i] == k
    requires Live(jobs[n]) && jobs[n].source == source
    ensures Before(k, jobs[n]) && jobs[n].id != k.id
  {
    hide Live, Before;
  }

  /** A source that had a live job still has one. */
  lemma SourceKeepsOneJob(jobs: seq<Job>, now: string, i: nat)
    requires IdsDistinct(jobs) && i < |jobs| && Live(jobs[i])
    ensures exists k :: 0 <= k < |jobs| && DedupedJobs(jobs, now)[k] == jobs[k] && Live(jobs[k]) && jobs[k].source == jobs[i].source
                        && (jobs[i].status == "ready" ==> jobs[k].status == "ready")
  {
    KeeperIsFirst(jobs, jobs[i].source);
    var keeper := Keeper(jobs, jobs[i].source).value;
    var k :| 0 <= k < |jobs| && jobs[k] == keeper;
    SurvivorIsTheKeeper(jobs, now, k);
    assert DedupedJobs(jobs, now)[k] == jobs[k];
  }

  /** At most one live job per source: the unique index that follows can be created. */
  lemma AtMostOneLiveJob(jobs: seq<Job>, now: string, i: nat, k: nat)
    requires IdsDistinct(jobs) && i < |jobs| && k < |jobs|
    requires var after := DedupedJobs(jobs, now); Live(after[i]) && Live(after[k]) && after[i].source == after[k].source
    ensures i == k
  {
    hide Keeper, Live, Before;
    NoJobIsLost(jobs, now, i);
    NoJobIsLost(jobs, now, k);
    LiveBefore(jobs, now, i);
    LiveBefore(jobs, now, k);
    SurvivorIsTheKeeper(jobs, now, i);
    SurvivorIsTheKeeper(jobs, now, k);
  }

  lemma LiveBefore(jobs: seq<Job>, now: string, i: nat)
    requires i < |jobs| && Live(DedupedJobs(jobs, now)[i])
    ensures Live(jobs[i]) && DedupedJobs(jobs, now)[i] == jobs[i]
  {
    CanceledIsNotLive(jobs[i], now);
    hide Keeper, Live;
  }

  /** A second application changes no job. */
  lemma DedupeIsIdempotent(jobs: seq<Job>, now: string, later: string)
    requires IdsDistinct(jobs)
    ensures DedupedJobs(DedupedJobs(jobs, now), later) == DedupedJobs(jobs, now)
  {
    var after := DedupedJobs(jobs, now);
    assert IdsDistinct(after) by {
      forall i, k | 0 <= i < k < |after| ensures after[i].id != after[k].id {
        NoJobIsLost(jobs, now, i);
        NoJobIsLost(jobs, now, k);
      }
    }
    forall i | 0 <= i < |after| ensures !Duplicate(after, after[i]) {
      if Live(after[i]) {
        OnlyLiveIsKeeper(jobs, now, i);
      }
    }
    hide Duplicate, Live, Keeper;
    assert DedupedJobs(after, later) == after;
  }

  lemma OnlyLiveIsKeeper(jobs: seq<Job>, now: string, i: nat)
    requires var after := DedupedJobs(jobs, now); IdsDistinct(jobs) && IdsDistinct(after) && i < |after| && Live(after[i])
    ensures var after := DedupedJobs(jobs, now); !Duplicate(after, after[i])
  {
    var after := DedupedJobs(jobs, now);
    KeeperIsFirst(after, after[i].source);
    hide Keeper, Live, Before, DedupedJobs;
    var k := Keeper(after, after[i].source).value;
    var m :| 0 <= m < |after| && after[m] == k;
    AtMostOneLiveJob(jobs, now, i, m);
  }

  /** An input is marked exactly when one of its jobs was a duplicate, and then it points at a kept job's input. */
  lemma InputsAreMarkedExactly(jobs: seq<Job>, inputs: seq<Input>, now: string, i: nat)
    requires IdsDistinct(jobs) && i < |inputs|
    ensures var before, after := inputs[i], MarkedInputs(jobs, inputs)[i];
            && after.id == before.id && after.batchId == before.batchId
            && (after == before || after.status == "duplicate")
            && ((exists k :: 0 <= k < |jobs| && jobs[k].inputId == before.id && Duplicate(jobs, jobs[k])) ==>
                  after.status == "duplicate" &&
                  exists k, m :: 0 <= k < |jobs| && 0 <= m < |jobs| && jobs[k].inputId == before.id && Duplicate(jobs, jobs[k])
                                 && Keeper(jobs, jobs[k].source) == Some(jobs[m]) && after.duplicateOf == Some(jobs[m].inputId))
            && (!(exists k :: 0 <= k < |jobs| && jobs[k].inputId == before.id && Duplicate(jobs, jobs[k])) ==> after == before)
  {
    FirstDuplicate(jobs, jobs, inputs[i].id);
    var found := DuplicateFor(jobs, jobs, inputs[i].id);
    if found.Some? {
      var j := found.value;
      KeeperIsFirst(jobs, j.source);
      hide Live, Before;
      var k :| 0 <= k < |jobs| && jobs[k] == j;
      var m :| 0 <= m < |jobs| && jobs[m] == Keeper(jobs, j.source).value;
      assert Duplicate(jobs, jobs[k]) && Keeper(jobs, jobs[k].source) == Some(jobs[m]);
    }
  }

  lemma {:induction false} FirstDuplicate(jobs: seq<Job>, among: seq<Job>, inputId: string)
    ensures var found := DuplicateFor(jobs, among, inputId);
            && (found.Some? ==> found.value in among && found.value.inputId == inputId && Duplicate(jobs, found.value))
            && (found.None? ==> forall k :: 0 <= k < |among| ==> !(among[k].inputId == inputId && Duplicate(jobs, among[k])))
  {
    hide Duplicate;
    if among != [] {
      FirstDuplicate(jobs, among[1..], inputId);
      assert among == [among[0]] + among[1..];
    }
  }

  /** A job is live after deduplication exactly when it is the kept one of its source. */
  lemma LivesExactlyAsKeeper(jobs: seq<Job>, now: string, m: nat)
    requires IdsDistinct(jobs) && m < |jobs|
    ensures Live(DedupedJobs(jobs, now)[m]) <==> Keeper(jobs, jobs[m].source) == Some(jobs[m])
  {
    KeeperIsFirst(jobs, jobs[m].source);
    hide Keeper, Before;
    if Live(jobs[m]) {
      SurvivesAsKeeper(jobs, now, m);
    } else {
      NoJobIsLost(jobs, now, m);
    }
  }

  ghost predicate OwnsDuplicate(jobs: seq<Job>, inputId: string) {
    exists k :: 0 <= k < |jobs| && jobs[k].inputId == inputId && Duplicate(jobs, jobs[k])
  }

  ghost predicate OwnsKept(jobs: seq<Job>, inputId: string) {
    exists m :: 0 <= m < |jobs| && jobs[m].inputId == inputId && Keeper(jobs, jobs[m].source) == Some(jobs[m])
  }

  ghost predicate OwnsLive(jobs: seq<Job>, now: string, inputId: string) {
    exists m :: 0 <= m < |jobs| && jobs[m].inputId == inputId && Live(DedupedJobs(jobs, now)[m])
  }

  /**
   An input is marked duplicate although a job of it lives on exactly when it owned a canceled
   duplicate of some source and the kept job of the same or of another source.
   */
  lemma MarkedThoughLive(jobs: seq<Job>, now: string, r: Input)
    requires IdsDistinct(jobs) && r.status != "duplicate"
    ensures MarkedInput(jobs, r).status == "duplicate" && OwnsLive(jobs, now, r.id)
            <==> OwnsDuplicate(jobs, r.id) && OwnsKept(jobs, r.id)
  {
    hide Duplicate, Keeper, Live, DedupedJobs, IdsDistinct;
    FirstDuplicate(jobs, jobs, r.id);
    forall m | 0 <= m < |jobs|
      ensures Live(DedupedJobs(jobs, now)[m]) <==> Keeper(jobs, jobs[m].source) == Some(jobs[m])
    {
      LivesExactlyAsKeeper(jobs, now, m);
    }
  }

  /** One input with a discover and a download job of one source; the discover job came first. */
  const DISCOVER := Job("a", "in", "b", "s", "discover", "queued", "1", "1", NO_LEASE)
  const DOWNLOAD := Job("b", "in", "b", "s", "download", "queued", "2", "2", NO_LEASE)

  /** The same input's only job of another source, and the other input whose job of `s` came first. */
  const ELSEWHERE := Job("c", "in", "b", "t", "download", "queued", "1", "1", NO_LEASE)
  const EARLIER := Job("d", "other", "b", "s", "download", "queued", "1", "1", NO_LEASE)

  /** Two jobs of one source, the second one later: the first is kept. */
  lemma FirstOfTwo(a: Job, b: Job, rest: seq<Job>)
    requires Live(a) && Live(b) && a.source == b.source && Before(a, b) && a.id != b.id
    requires forall i :: 0 <= i < |rest| ==> rest[i].source != a.source
    ensures Keeper([a, b] + rest, a.source) == Some(a)
    ensures Duplicate([a, b] + rest, b) && !Duplicate([a, b] + rest, a)
    decreases |rest|
  {
    hide Live, Before;
    var jobs := [a, b] + rest;
    if rest == [] {
      assert jobs == [a, b] && jobs[..1] == [a] && [a][..0] == [];
      assert Keeper([a], a.source) == Some(a);
    } else {
      FirstOfTwo(a, b, rest[..|rest| - 1]);
      assert jobs[..|jobs| - 1] == [a, b] + rest[..|rest| - 1] && Last(jobs) == Last(rest);
    }
  }

  lemma ExampleJobs()
    ensures Live(DISCOVER) && Live(DOWNLOAD) && Live(ELSEWHERE) && Live(EARLIER) && Before(DISCOVER, DOWNLOAD) && Before(EARLIER, DOWNLOAD)
    ensures JobTable([DISCOVER, DOWNLOAD]) && JobTable([EARLIER, DOWNLOAD, ELSEWHERE])
  {
    assert "1" != "2" && "1"[0] < "2"[0] && "s" != "t" && "in" != "other" && "discover" != "download";
    assert "discover"[1] == 'i' && "download"[1] == 'o' && "s"[0] == 's' && "t"[0] == 't';
    assert "a"[0] == 'a' && "b"[0] == 'b' && "c"[0] == 'c' && "d"[0] == 'd' && |"in"| == 2 && |"other"| == 5;
  }

  /** An input that owns both live jobs of a source, one of each kind, is marked a duplicate of itself. */
  lemma InputCanDuplicateItself(status: string, now: string)
    ensures var jobs := [DISCOVER, DOWNLOAD];
            && JobTable(jobs) && DedupedJobs(jobs, now)[0] == DISCOVER && Live(DISCOVER)
            && MarkedInput(jobs, Input("in", "b", status, None)) == Input("in", "b", "duplicate", Some("in"))
  {
    var jobs := [DISCOVER, DOWNLOAD];
    ExampleJobs();
    FirstOfTwo(DISCOVER, DOWNLOAD, []);
    assert [DISCOVER, DOWNLOAD] + [] == jobs;
    hide Keeper, Duplicate, Live, Before, JobTable;
    assert jobs[1..] == [DOWNLOAD];
    assert DuplicateFor(jobs, [DOWNLOAD], "in") == Some(DOWNLOAD);
    assert DuplicateFor(jobs, jobs, "in") == Some(DOWNLOAD);
  }

  /** An input whose job of one source lives on is marked a duplicate of the input that keeps another source. */
  lemma LiveInputCanDuplicateAnother(status: string, now: string)
    ensures var jobs := [EARLIER, DOWNLOAD, ELSEWHERE];
            && JobTable(jobs) && DedupedJobs(jobs, now)[2] == ELSEWHERE && Live(ELSEWHERE)
            && MarkedInput(jobs, Input("in", "b", status, None)) == Input("in", "b", "duplicate", Some("other"))
  {
    var jobs := [EARLIER, DOWNLOAD, ELSEWHERE];
    ExampleJobs();
    assert "s"[0] == 's' && "t"[0] == 't' && |"in"| == 2 && |"other"| == 5;
    FirstOfTwo(EARLIER, DOWNLOAD, [ELSEWHERE]);
    assert [EARLIER, DOWNLOAD] + [ELSEWHERE] == jobs;
    OnlyOneKept(jobs);
    hide Keeper, Duplicate, Live, Before, JobTable;
    assert jobs[1..] == [DOWNLOAD, ELSEWHERE];
    assert DuplicateFor(jobs, jobs[1..], "in") == Some(DOWNLOAD);
    assert DuplicateFor(jobs, jobs, "in") == Some(DOWNLOAD);
  }

  lemma OnlyOneKept(jobs: seq<Job>)
    requires jobs == [EARLIER, DOWNLOAD, ELSEWHERE] && Live(ELSEWHERE)
    ensures !Duplicate(jobs, ELSEWHERE)
  {
    hide Live, Before;
    assert "s"[0] == 's' && "t"[0] == 't';
    assert jobs[..2][..1] == [EARLIER] && jobs[..2] == [EARLIER, DOWNLOAD] && [EARLIER][..0] == [];
    assert Keeper([EARLIER], "t") == None;
    assert Keeper([EARLIER, DOWNLOAD], "t") == None;
    assert Keeper(jobs, "t") == Some(ELSEWHERE);
  }
}
