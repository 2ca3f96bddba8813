/** `cached_readiness`: when a full audit's outcome is served again. */
module ReadinessCache {
  /*
   An outcome may be served for a few seconds, unless the schema cookie has changed.

   A timeline says what each instant would show: the schema cookie (None when it cannot be read),
   the monotonic clock, and the content of the database. An audit reads the database several times,
   through connections of its own, and its outcome is whatever it makes of all it read.
   */

  import opened Common

  type Outcome = (bool, string)

  datatype Moment = Moment(cookie: Option<int>, clock: real, content: bytes)

  /** What a full audit concludes from the contents it read, in order. */
  type Audit = seq<bytes> -> Outcome

  /** The instants at which one call looks at the database and the clock, in order. */
  datatype Call = Call(cookieAt: nat, clockAt: nat, readsAt: seq<nat>, recheckAt: nat, storeAt: nat, age: Age)

  /** The caller's `max_age_seconds`: a number, or something that is not one. */
  datatype Age = Seconds(seconds: real) | NotANumber

  datatype Cached = Cached(cookie: int, at: real, outcome: Outcome)

  datatype Answer = InvalidAge | Answered(outcome: Outcome)

  const COOKIE_LOST: Outcome := (false, "schema_version_unavailable")
  const COOKIE_CHANGED: Outcome := (false, "schema_changed_during_readiness")

  predicate ValidAge(age: Age) {
    age.Seconds? && 0.0 < age.seconds <= 60.0
  }

  /** The clock never runs backwards, and every schema change raises the cookie. */
  ghost predicate Timeline(t: seq<Moment>) {
    && (forall i, j :: 0 <= i <= j < |t| ==> t[i].clock <= t[j].clock)
    && forall i, j :: 0 <= i <= j < |t| && t[i].cookie.Some? && t[j].cookie.Some? ==> t[i].cookie.value <= t[j].cookie.value
  }

  predicate WellTimed(t: seq<Moment>, c: Call) {
    && c.cookieAt <= c.clockAt <= c.recheckAt <= c.storeAt < |t|
    && (forall i :: 0 <= i < |c.readsAt| ==> c.clockAt <= c.readsAt[i] <= c.recheckAt)
    && forall i, j :: 0 <= i < j < |c.readsAt| ==> c.readsAt[i] <= c.readsAt[j]
  }

  /** The outcome of the audit of a call, over everything it read. */
  function Audited(audit: Audit, t: seq<Moment>, c: Call): Outcome
    requires WellTimed(t, c)
  {
    audit(seq(|c.readsAt|, i requires 0 <= i < |c.readsAt| => t[c.readsAt[i]].content))
  }

  /** May the cached outcome be served? */
  predicate Serves(t: seq<Moment>, cache: Option<Cached>, c: Call)
    requires WellTimed(t, c)
  {
    && ValidAge(c.age) && t[c.cookieAt].cookie.Some? && cache.Some?
    && cache.value.cookie == t[c.cookieAt].cookie.value && t[c.clockAt].clock - cache.value.at <= c.age.seconds
  }

  /** One call: the answer and the cache it leaves. */
  function Respond(audit: Audit, t: seq<Moment>, cache: Option<Cached>, c: Call): (Answer, Option<Cached>)
    requires WellTimed(t, c)
  {
    if !ValidAge(c.age) then (InvalidAge, cache)
    else if t[c.cookieAt].cookie.None? then (Answered(Audited(audit, t, c)), None)
    else if Serves(t, cache, c) then (Answered(cache.value.outcome), cache)
    else if t[c.recheckAt].cookie.None? then (Answered(COOKIE_LOST), None)
    else if t[c.recheckAt].cookie == t[c.cookieAt].cookie then
      (Answered(Audited(audit, t, c)), Some(Cached(t[c.cookieAt].cookie.value, t[c.storeAt].clock, Audited(audit, t, c))))
    else (Answered(COOKIE_CHANGED), None)
  }

  class Database {
    var cache: Option<Cached>

    constructor ()
      ensures cache == None
    {
      cache := None;
    }

    /** `cached_readiness`, under its lock. */
    method CachedReadiness(audit: Audit, t: seq<Moment>, c: Call) returns (r: Answer)
      requires WellTimed(t, c)
      modifies this
      ensures (r, cache) == Respond(audit, t, old(cache), c)
    {
      if !ValidAge(c.age) {
        return InvalidAge;
      }
      var cookie := t[c.cookieAt].cookie;
      if cookie.None? {
        cache := None;
        return Answered(Audited(audit, t, c));
      }
      var now := t[c.clockAt].clock;
      if cache.Some? && cache.value.cookie == cookie.value && now - cache.value.at <= c.age.seconds {
        return Answered(cache.value.outcome);
      }
      var outcome := Audited(audit, t, c);
      var recheck := t[c.recheckAt].cookie;
      if recheck.None? {
        cache := None;
        return Answered(COOKIE_LOST);
      }
      if recheck == cookie {
        cache := Some(Cached(recheck.value, t[c.storeAt].clock, outcome));
        return Answered(outcome);
      }
      cache := None;
      return Answered(COOKIE_CHANGED);
    }
  }

  // -------------------------------------------------------------------------- runs

  /** Calls one after the other, from an empty cache. */
  ghost predicate IsRun(audit: Audit, t: seq<Moment>, calls: seq<Call>, answers: seq<Answer>, caches: seq<Option<Cached>>) {
    && Timeline(t) && |answers| == |calls| && |caches| == |calls| + 1 && caches[0] == None
    && (forall k :: 0 <= k < |calls| ==>
          WellTimed(t, calls[k]) && (answers[k], caches[k + 1]) == Respond(audit, t, caches[k], calls[k]))
    && forall j, k :: 0 <= j < k < |calls| ==> calls[j].storeAt <= calls[k].cookieAt
  }

  /** The cookie was the same whenever it could be read from instant `a` to instant `b`. */
  ghost predicate Steady(t: seq<Moment>, a: nat, b: nat, cookie: int)
    requires a <= b < |t|
  {
    forall i :: a <= i <= b && t[i].cookie.Some? ==> t[i].cookie.value == cookie
  }

  lemma SteadyBetween(t: seq<Moment>, a: nat, b: nat)
    requires Timeline(t) && a <= b < |t| && t[a].cookie.Some? && t[b].cookie == t[a].cookie
    ensures Steady(t, a, b, t[a].cookie.value)
  {
  }

  /** Call `j` ran a full audit between two equal cookies and stored what `cached` holds. */
  ghost predicate StoredBy(audit: Audit, t: seq<Moment>, c: Call, cached: Cached)
    requires WellTimed(t, c)
  {
    && t[c.cookieAt].cookie == Some(cached.cookie) && t[c.recheckAt].cookie == Some(cached.cookie)
    && cached.at == t[c.storeAt].clock && cached.outcome == Audited(audit, t, c)
  }

  /** Whatever is cached was stored by some earlier call of the run. */
  lemma {:induction false} CachedWasStored(audit: Audit, t: seq<Moment>, calls: seq<Call>, answers: seq<Answer>,
                                            caches: seq<Option<Cached>>, k: nat)
    requires IsRun(audit, t, calls, answers, caches) && k < |caches| && caches[k].Some?
    ensures exists j :: 0 <= j < k && StoredBy(audit, t, calls[j], caches[k].value)
  {
    if k > 0 {
      assert WellTimed(t, calls[k - 1]) && (answers[k - 1], caches[k - 1 + 1]) == Respond(audit, t, caches[k - 1], calls[k - 1]);
      if caches[k] == caches[k - 1] {
        CachedWasStored(audit, t, calls, answers, caches, k - 1);
      } else {
        assert StoredBy(audit, t, calls[k - 1], caches[k].value);
      }
    }
  }

  // ---------------------------------------------------------------------- theorems

  /**
   A served outcome is fresh: some earlier call audited the database, the cookie just read was in
   force before the audit's first read, at every read and ever since, and the outcome was stored no
   longer ago than the caller allows.
   */
  lemma ServedIsFresh(audit: Audit, t: seq<Moment>, calls: seq<Call>, answers: seq<Answer>, caches: seq<Option<Cached>>, k: nat)
    requires IsRun(audit, t, calls, answers, caches) && k < |calls| && WellTimed(t, calls[k]) && Serves(t, caches[k], calls[k])
    ensures exists j :: 0 <= j < k && calls[j].cookieAt <= calls[k].cookieAt < |t|
                        && answers[k] == Answered(Audited(audit, t, calls[j]))
                        && (forall i :: 0 <= i < |calls[j].readsAt| ==> calls[j].cookieAt <= calls[j].readsAt[i] <= calls[j].recheckAt)
                        && Steady(t, calls[j].cookieAt, calls[k].cookieAt, t[calls[k].cookieAt].cookie.value)
                        && t[calls[k].clockAt].clock - t[calls[j].storeAt].clock <= calls[k].age.seconds <= 60.0
  {
    CachedWasStored(audit, t, calls, answers, caches, k);
    var j :| 0 <= j < k && StoredBy(audit, t, calls[j], caches[k].value);
    assert WellTimed(t, calls[j]) && calls[j].storeAt <= calls[k].cookieAt;
    assert WellTimed(t, calls[k]) && (answers[k], caches[k + 1]) == Respond(audit, t, caches[k], calls[k]);
    SteadyBetween(t, calls[j].cookieAt, calls[k].cookieAt);
  }

  /** What a full audit of the call would read, one content for each read. */
  ghost predicate Reads(t: seq<Moment>, c: Call, contents: seq<bytes>)
    requires WellTimed(t, c)
  {
    |contents| == |c.readsAt| && forall i :: 0 <= i < |contents| ==> contents[i] == t[c.readsAt[i]].content
  }

  lemma AuditReadsAll(audit: Audit, t: seq<Moment>, c: Call, contents: seq<bytes>)
    requires WellTimed(t, c) && Reads(t, c, contents)
    ensures Audited(audit, t, c) == audit(contents)
  {
    assert contents == seq(|c.readsAt|, i requires 0 <= i < |c.readsAt| => t[c.readsAt[i]].content);
  }

  /** The cached outcome is of the cookie just read, and young enough for the caller. */
  ghost predicate Hit(t: seq<Moment>, cached: Option<Cached>, c: Call)
    requires WellTimed(t, c) && c.age.Seconds?
  {
    && cached.Some? && t[c.cookieAt].cookie == Some(cached.value.cookie)
    && t[c.clockAt].clock - cached.value.at <= c.age.seconds
  }

  /**
   What every call of a run answers and leaves cached. An age that is no number in (0, 60] is refused
   and changes nothing; a hit is served; any other call answers its own audit, unless the cookie
   changed or was lost while it ran, and keeps the outcome only when the cookie is still the same.
   */
  lemma AnswersAreExact(audit: Audit, t: seq<Moment>, calls: seq<Call>, answers: seq<Answer>, caches: seq<Option<Cached>>, k: nat,
                        contents: seq<bytes>)
    requires IsRun(audit, t, calls, answers, caches) && k < |calls| && WellTimed(t, calls[k]) && Reads(t, calls[k], contents)
    ensures var c, answer, before, after := calls[k], answers[k], caches[k], caches[k + 1];
            var first, last := t[c.cookieAt].cookie, t[c.recheckAt].cookie;
            if !c.age.Seconds? || c.age.seconds <= 0.0 || c.age.seconds > 60.0 then answer == InvalidAge && after == before
            else if first.None? then answer == Answered(audit(contents)) && after == None
            else if Hit(t, before, c) then answer == Answered(before.value.outcome) && after == before
            else if last == first then
              answer == Answered(audit(contents)) && after == Some(Cached(first.value, t[c.storeAt].clock, audit(contents)))
            else
              && after == None
              && answer == Answered((false, if last.None? then "schema_version_unavailable" else "schema_changed_during_readiness"))
  {
    AuditReadsAll(audit, t, calls[k], contents);
    assert WellTimed(t, calls[k]) && (answers[k], caches[k + 1]) == Respond(audit, t, caches[k], calls[k]);
  }

  /** Whatever is answered with an outcome is a full audit's, of this call or an earlier one, or one of two failures. */
  lemma AnswersAreAudits(audit: Audit, t: seq<Moment>, calls: seq<Call>, answers: seq<Answer>, caches: seq<Option<Cached>>, k: nat)
    requires IsRun(audit, t, calls, answers, caches) && k < |calls| && answers[k].Answered?
    ensures || answers[k].outcome == (false, "schema_version_unavailable")
            || answers[k].outcome == (false, "schema_changed_during_readiness")
            || exists j, contents :: 0 <= j <= k && WellTimed(t, calls[j]) && Reads(t, calls[j], contents) && answers[k].outcome == audit(contents)
  {
    hide Respond, Audited, Timeline;
    var c := calls[k];
    assert WellTimed(t, c);
    var contents := seq(|c.readsAt|, i requires 0 <= i < |c.readsAt| => t[c.readsAt[i]].content);
    assert Reads(t, c, contents);
    AnswersAreExact(audit, t, calls, answers, caches, k, contents);
    if caches[k].Some? {
      CachedWasStored(audit, t, calls, answers, caches, k);
      var j :| 0 <= j < k && StoredBy(audit, t, calls[j], caches[k].value);
      var d := calls[j];
      assert WellTimed(t, d);
      var earlier := seq(|d.readsAt|, i requires 0 <= i < |d.readsAt| => t[d.readsAt[i]].content);
      assert Reads(t, d, earlier);
      AuditReadsAll(audit, t, d, earlier);
    }
  }

  /** A call that is not served from the cache and meets two different cookies fails and leaves no cache. */
  lemma ChangeDuringAuditFails(audit: Audit, t: seq<Moment>, cache: Option<Cached>, c: Call, i: nat)
    requires Timeline(t) && WellTimed(t, c) && ValidAge(c.age) && !Serves(t, cache, c)
    requires c.cookieAt <= i <= c.recheckAt && t[c.cookieAt].cookie.Some? && t[i].cookie.Some? && t[i].cookie != t[c.cookieAt].cookie
    ensures var (r, after) := Respond(audit, t, cache, c);
            after == None && (r == Answered(COOKIE_CHANGED) || r == Answered(COOKIE_LOST)) && !r.outcome.0
  {
    if t[c.recheckAt].cookie == t[c.cookieAt].cookie {
      SteadyBetween(t, c.cookieAt, c.recheckAt);
    }
  }
}
