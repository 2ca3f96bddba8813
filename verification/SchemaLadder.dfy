/** The schema ladder, climbed by any number of processes. */
module SchemaLadder {
  /*
   Each process runs `initialize()` against one database, each write transaction commits as a whole
   or aborts, and versions 1 to 11 are reached in order.
   */

  const LATEST := 11

  /** The database: its version markers, and the migration bodies committed so far, in order. */
  datatype Database = Database(markers: set<nat>, applied: seq<nat>)

  /** `SELECT MAX(version)`, with 0 for an empty table. */
  ghost function Version(markers: set<nat>): (v: nat)
    ensures markers == {} ==> v == 0
    ensures markers != {} ==> v in markers && forall m :: m in markers ==> m <= v
  {
    if markers == {} then 0 else MaxOf(markers)
  }

  ghost function MaxOf(markers: set<nat>): (v: nat)
    requires markers != {}
    ensures v in markers && forall m :: m in markers ==> m <= v
  {
    var m :| m in markers;
    var rest := markers - {m};
    assert markers == rest + {m};
    if rest == {} || MaxOf(rest) < m then m else MaxOf(rest)
  }

  /** Markers exactly 1 to `v`. */
  function Upto(v: nat): (r: set<nat>)
    ensures forall m :: m in r <==> 1 <= m <= v
  {
    if v == 0 then {} else Upto(v - 1) + {v}
  }

  lemma VersionOfUpto(v: nat)
    ensures Version(Upto(v)) == v
  {
    if v > 0 { assert v in Upto(v); }
  }

  /** Where one caller of `initialize()` stands. */
  datatype Pc = First | Eighth | Ninth | Tenth | Eleventh | Returned | WrongVersion | Raised

  /** Running the bodies `from + 1` to `to`, each of which inserts its marker. */
  function Climb(db: Database, from: nat, goal: nat): Database
    requires from <= goal
    decreases goal - from
  {
    if from == goal then db else Climb(Database(db.markers + {from + 1}, db.applied + [from + 1]), from + 1, goal)
  }

  /** The transaction a caller is about to run, if it commits: new database and where it goes next. */
  ghost function Commit(db: Database, pc: Pc): (Database, Pc) {
    var v := Version(db.markers);
    match pc
    case First =>
      if v > LATEST then (db, WrongVersion)
      else
        var reached := if v < 7 then 7 else v;
        (if v < 7 then Climb(db, v, 7) else db, if reached < 8 then Eighth else Ninth)
    case Eighth =>
      if 8 <= v <= LATEST then (db, Ninth) else if v != 7 then (db, WrongVersion) else (Climb(db, 7, 8), Ninth)
    case Ninth =>
      if 9 <= v <= LATEST then (db, Tenth) else if v != 8 then (db, WrongVersion) else (Climb(db, 8, 9), Tenth)
    case Tenth =>
      if 10 <= v <= LATEST then (db, Eleventh) else if v != 9 then (db, WrongVersion) else (Climb(db, 9, 10), Eleventh)
    case Eleventh =>
      if v == LATEST then (db, Returned) else if v != 10 then (db, WrongVersion) else (Climb(db, 10, 11), Returned)
    case _ => (db, pc)
  }

  predicate Waiting(pc: Pc) {
    pc != Returned && pc != WrongVersion && pc != Raised
  }

  /** All callers and the database they share. */
  datatype World = World(db: Database, callers: seq<Pc>)

  /** A caller commits, aborts (any error inside the transaction), or calls `initialize()` anew. */
  datatype Event = Commits(who: nat) | Aborts(who: nat) | Calls(who: nat)

  predicate Enabled(w: World, e: Event) {
    e.who < |w.callers| && (if e.Calls? then !Waiting(w.callers[e.who]) else Waiting(w.callers[e.who]))
  }

  ghost function After(w: World, e: Event): World
    requires Enabled(w, e)
  {
    match e
    case Commits(who) => World(Commit(w.db, w.callers[who]).0, w.callers[who := Commit(w.db, w.callers[who]).1])
    case Aborts(who) => w.(callers := w.callers[who := Raised])
    case Calls(who) => w.(callers := w.callers[who := First])
  }

  function Steps(from: nat, goal: nat): seq<nat>
    requires from <= goal
  {
    seq(goal - from, i => from + 1 + i)
  }

  /** A run by `n` callers that starts from a database holding exactly the versions 1 to `start`. */
  ghost predicate IsRun(start: nat, n: nat, worlds: seq<World>, events: seq<Event>) {
    && start <= LATEST && |worlds| == |events| + 1
    && worlds[0] == World(Database(Upto(start), []), seq(n, i => First))
    && forall k :: 0 <= k < |events| ==> Enabled(worlds[k], events[k]) && worlds[k + 1] == After(worlds[k], events[k])
  }

  /** The version a caller has certainly seen. */
  function Seen(pc: Pc): nat {
    match pc
    case Eighth => 7
    case Ninth => 8
    case Tenth => 9
    case Eleventh => 10
    case Returned => 11
    case _ => 0
  }

  ghost predicate Inv(start: nat, w: World) {
    exists v: nat :: start <= v <= LATEST && w.db == Database(Upto(v), Steps(start, v))
                     && forall i :: 0 <= i < |w.callers| ==> w.callers[i] != WrongVersion && Seen(w.callers[i]) <= v
  }

  lemma {:induction false} ClimbUpto(start: nat, v: nat, goal: nat)
    requires start <= v <= goal
    ensures Climb(Database(Upto(v), Steps(start, v)), v, goal) == Database(Upto(goal), Steps(start, goal))
    decreases goal - v
  {
    if v < goal {
      assert Upto(v) + {v + 1} == Upto(v + 1);
      assert Steps(start, v) + [v + 1] == Steps(start, v + 1);
      ClimbUpto(start, v + 1, goal);
    }
  }

  /** The version a transaction leaves: the first one reaches 7, each of the others its own. */
  ghost predicate LeavesVersion(pc: Pc, v: nat, goal: nat) {
    match pc
    case First => goal == if v < 7 then 7 else v
    case Eighth => goal == if v < 8 then 8 else v
    case Ninth => goal == if v < 9 then 9 else v
    case Tenth => goal == if v < 10 then 10 else v
    case Eleventh => goal == 11
    case _ => false
  }

  /** A committing transaction either finds its work done or does exactly the next step. */
  lemma CommitClimbs(start: nat, v: nat, pc: Pc)
    requires start <= v <= LATEST && Waiting(pc) && Seen(pc) <= v
    ensures var (db, next) := Commit(Database(Upto(v), Steps(start, v)), pc);
            && next != WrongVersion
            && exists goal: nat :: LeavesVersion(pc, v, goal) && v <= goal <= LATEST
                                   && db == Database(Upto(goal), Steps(start, goal)) && Seen(next) <= goal
  {
    VersionOfUpto(v);
    hide Version, Climb;
    var goal: nat := match pc
      case First => if v < 7 then 7 else v
      case Eighth => if v < 8 then 8 else v
      case Ninth => if v < 9 then 9 else v
      case Tenth => if v < 10 then 10 else v
      case Eleventh => 11;
    ClimbUpto(start, v, goal);
    assert Commit(Database(Upto(v), Steps(start, v)), pc).0 == Database(Upto(goal), Steps(start, goal));
  }

  lemma EventKeepsInv(start: nat, w: World, e: Event)
    requires Inv(start, w) && Enabled(w, e)
    ensures Inv(start, After(w, e))
    ensures Version(w.db.markers) <= Version(After(w, e).db.markers)
  {
    hide Commit, Climb, Version;
    var v: nat :| start <= v <= LATEST && w.db == Database(Upto(v), Steps(start, v))
                  && forall i :: 0 <= i < |w.callers| ==> w.callers[i] != WrongVersion && Seen(w.callers[i]) <= v;
    VersionOfUpto(v);
    if e.Commits? {
      CommitClimbs(start, v, w.callers[e.who]);
      var (db, next) := Commit(w.db, w.callers[e.who]);
      var goal: nat :| v <= goal <= LATEST && db == Database(Upto(goal), Steps(start, goal)) && Seen(next) <= goal;
      VersionOfUpto(goal);
      assert After(w, e).db == Database(Upto(goal), Steps(start, goal));
    } else {
      assert After(w, e).db == Database(Upto(v), Steps(start, v));
    }
  }

  lemma {:induction false} RunKeepsInv(start: nat, n: nat, worlds: seq<World>, events: seq<Event>, k: nat)
    requires IsRun(start, n, worlds, events) && k < |worlds|
    ensures Inv(start, worlds[k])
  {
    hide After, Enabled;
    if k == 0 {
      assert worlds[0].db == Database(Upto(start), Steps(start, start));
    } else {
      RunKeepsInv(start, n, worlds, events, k - 1);
      assert Enabled(worlds[k - 1], events[k - 1]);
      EventKeepsInv(start, worlds[k - 1], events[k - 1]);
      assert worlds[k - 1 + 1] == After(worlds[k - 1], events[k - 1]);
    }
  }

  // ---------------------------------------------------------------------- theorems

  /** In every run the markers stay contiguous, and each migration body commits once, in order. */
  lemma LadderIsClimbedInOrder(start: nat, n: nat, worlds: seq<World>, events: seq<Event>, k: nat)
    requires IsRun(start, n, worlds, events) && k < |worlds|
    ensures var v := Version(worlds[k].db.markers);
            start <= v <= LATEST && worlds[k].db.markers == Upto(v) && worlds[k].db.applied == Steps(start, v)
  {
    RunKeepsInv(start, n, worlds, events, k);
    var v: nat :| start <= v <= LATEST && worlds[k].db == Database(Upto(v), Steps(start, v));
    VersionOfUpto(v);
  }

  /** The version never goes down. */
  lemma {:induction false} VersionIsMonotone(start: nat, n: nat, worlds: seq<World>, events: seq<Event>, j: nat, k: nat)
    requires IsRun(start, n, worlds, events) && j <= k < |worlds|
    ensures Version(worlds[j].db.markers) <= Version(worlds[k].db.markers)
  {
    hide After, Enabled, Version;
    if j < k {
      VersionIsMonotone(start, n, worlds, events, j, k - 1);
      RunKeepsInv(start, n, worlds, events, k - 1);
      assert Enabled(worlds[k - 1], events[k - 1]);
      EventKeepsInv(start, worlds[k - 1], events[k - 1]);
      assert worlds[k - 1 + 1] == After(worlds[k - 1], events[k - 1]);
    }
  }

  /** No caller ever meets a wrong-version error. */
  lemma NoWrongVersion(start: nat, n: nat, worlds: seq<World>, events: seq<Event>, k: nat, who: nat)
    requires IsRun(start, n, worlds, events) && k < |worlds| && who < |worlds[k].callers|
    ensures worlds[k].callers[who] != WrongVersion
  {
    RunKeepsInv(start, n, worlds, events, k);
  }

  /** A caller that returns leaves the markers 1 to 11 behind, for good. */
  lemma ReturnedMeansLatest(start: nat, n: nat, worlds: seq<World>, events: seq<Event>, j: nat, k: nat, who: nat)
    requires IsRun(start, n, worlds, events) && j <= k < |worlds| && who < |worlds[j].callers|
    requires worlds[j].callers[who] == Returned
    ensures worlds[k].db.markers == Upto(LATEST) && worlds[k].db.applied == Steps(start, LATEST)
  {
    RunKeepsInv(start, n, worlds, events, j);
    LadderIsClimbedInOrder(start, n, worlds, events, j);
    LadderIsClimbedInOrder(start, n, worlds, events, k);
    VersionIsMonotone(start, n, worlds, events, j, k);
    var v: nat :| start <= v <= LATEST && worlds[j].db == Database(Upto(v), Steps(start, v)) && Seen(worlds[j].callers[who]) <= v;
    VersionOfUpto(v);
  }

  /** A database of a later version is refused, whatever its markers; no refused transaction writes. */
  lemma LaterVersionIsRefused(db: Database, pc: Pc, later: nat)
    requires Waiting(pc) && later in db.markers && later > 11
    ensures Commit(db, pc) == (db, WrongVersion)
  {
    hide Climb;
  }

  /** How many commits a caller has left at most. */
  function Remaining(pc: Pc): nat {
    match pc
    case First => 5
    case Eighth => 4
    case Ninth => 3
    case Tenth => 2
    case Eleventh => 1
    case _ => 0
  }

  lemma CommitAdvances(db: Database, pc: Pc)
    requires Waiting(pc)
    ensures Remaining(Commit(db, pc).1) < Remaining(pc) && Commit(db, pc).1 != Raised && Commit(db, pc).1 != First
    ensures Commit(db, pc).1 == WrongVersion ==> Commit(db, pc).0 == db
  {
    hide Climb, Version;
  }

  /** The caller's commits from event `j` up to event `k`. */
  function CommitsOf(events: seq<Event>, who: nat, j: nat, k: nat): nat
    requires j <= k <= |events|
    decreases k
  {
    if j == k then 0 else CommitsOf(events, who, j, k - 1) + if events[k - 1] == Commits(who) then 1 else 0
  }

  /** From event `j` to event `k` the caller neither aborts nor calls again. */
  ghost predicate Undisturbed(events: seq<Event>, who: nat, j: nat, k: nat)
    requires j <= k <= |events|
  {
    forall i :: j <= i < k ==> events[i] != Aborts(who) && events[i] != Calls(who)
  }

  /** A caller none of whose transactions aborts returns after at most five commits, whatever the others do. */
  lemma {:induction false} CommitsLeadToReturn(start: nat, n: nat, worlds: seq<World>, events: seq<Event>, who: nat, j: nat, k: nat)
    requires IsRun(start, n, worlds, events) && j <= k < |worlds| && who < n && |worlds[j].callers| == n
    requires worlds[j].callers[who] == First && Undisturbed(events, who, j, k)
    ensures |worlds[k].callers| == n && worlds[k].callers[who] != Raised
    ensures Remaining(worlds[k].callers[who]) + CommitsOf(events, who, j, k) <= 5
    ensures CommitsOf(events, who, j, k) == 5 ==> worlds[k].callers[who] == Returned
    decreases k
  {
    hide Commit, Version, Upto;
    if j < k {
      CommitsLeadToReturn(start, n, worlds, events, who, j, k - 1);
      var w, e := worlds[k - 1], events[k - 1];
      assert Enabled(worlds[k - 1], events[k - 1]) && worlds[k - 1 + 1] == After(worlds[k - 1], events[k - 1]);
      assert e != Aborts(who) && e != Calls(who);
      if e == Commits(who) {
        CommitAdvances(w.db, w.callers[who]);
        assert worlds[k].callers[who] == Commit(w.db, w.callers[who]).1;
      } else {
        assert worlds[k].callers[who] == w.callers[who];
      }
      NoWrongVersion(start, n, worlds, events, k, who);
    }
  }
}
