/** Day-N retention: distinct users active exactly N whole days after their
    signup, over the distinct signup users, overall or within one variant. */
module Retention {
  import opened Events
  import opened Cohort

  /** `retained / total if total else 0.0`, as an exact quotient. */
  function Rate(retained: nat, total: nat): (rate: real)
    ensures total == 0 ==> rate == 0.0
    ensures total != 0 ==> rate * total as real == retained as real
    ensures retained <= total ==> 0.0 <= rate <= 1.0
  {
    if total != 0 then retained as real / total as real else 0.0
  }

  /** The distinct `user_id`s of the `active` rows of `df` whose
      `days_since_signup` is exactly `day`; a missing offset never matches. */
  function ActiveOn(df: seq<Enriched>, day: int): set<int>
  {
    set r | r in df && r.event.kind == Active && r.DaysSinceSignup() == Some(day) :: r.event.userId
  }

  /** Reference reading of retention straight off the log: `u` has an active
      event lying `day` whole days after one of its signup events. */
  ghost predicate RetainedOn(log: seq<Event>, u: int, day: int)
  {
    exists e, s :: e in log && s in log && e.kind == Active && s.kind == Signup
                   && e.userId == u && s.userId == u && DaysBetween(s.timestamp, e.timestamp) == day
  }

  /** Counting over the merged frame agrees with the reference reading. */
  lemma ActiveOnCharacterized(log: seq<Event>, day: int, u: int)
    ensures u in ActiveOn(Enrich(log), day) <==> RetainedOn(log, u, day)
  {
    if u in ActiveOn(Enrich(log), day) {
      var r :| r in Enrich(log) && r.event.kind == Active && r.DaysSinceSignup() == Some(day)
               && r.event.userId == u;
      EnrichAnchored(log, r);
      var e, s :| e in log && s in log && s.kind == Signup && s.userId == e.userId
                  && r == Enriched(e, Some(s.timestamp));
      assert DaysBetween(s.timestamp, e.timestamp) == day;
    }
    if RetainedOn(log, u, day) {
      var e, s :| e in log && s in log && e.kind == Active && s.kind == Signup
                  && e.userId == u && s.userId == u && DaysBetween(s.timestamp, e.timestamp) == day;
      var r := Enriched(e, Some(s.timestamp));
      EnrichAnchored(log, r);
      assert r in Enrich(log) && r.DaysSinceSignup() == Some(day);
    }
  }

  /** Only users with a signup row can be retained. */
  lemma RetainedAreSignups(log: seq<Event>, day: int)
    ensures ActiveOn(Enrich(log), day) <= SignupUsers(log)
  {
    forall u | u in ActiveOn(Enrich(log), day)
      ensures u in SignupUsers(log)
    {
      ActiveOnCharacterized(log, day, u);
      var e, s :| e in log && s in log && e.kind == Active && s.kind == Signup
                  && e.userId == u && s.userId == u && DaysBetween(s.timestamp, e.timestamp) == day;
    }
  }

  lemma SubsetCardinality(a: set<int>, b: set<int>)
    requires a <= b
    ensures |a| <= |b|
  {
    assert b == a + (b - a);
  }

  /** `day_retention(day)`: overall retention on exactly `day`. */
  function DayRetention(log: seq<Event>, day: int): (rate: real)
    ensures 0.0 <= rate <= 1.0
    ensures SignupUsers(log) == {} ==> rate == 0.0
  {
    RetainedAreSignups(log, day);
    SubsetCardinality(ActiveOn(Enrich(log), day), SignupUsers(log));
    Rate(|ActiveOn(Enrich(log), day)|, |SignupUsers(log)|)
  }

  /** The users of variant `v`'s cohort active on exactly `day` (the
      `isin(cohort_users)` filter). */
  function VariantRetained(log: seq<Event>, v: string, day: int): set<int>
  {
    ActiveOn(Enrich(log), day) * CohortUsers(log, v)
  }

  /** Retention of variant `v`'s cohort on exactly `day`. */
  function VariantRate(log: seq<Event>, v: string, day: int): (rate: real)
    ensures 0.0 <= rate <= 1.0
    ensures v !in SignupVariants(log) ==> rate == 0.0
  {
    CohortUsersFacts(log, v);
    SubsetCardinality(VariantRetained(log, v, day), CohortUsers(log, v));
    Rate(|VariantRetained(log, v, day)|, |CohortUsers(log, v)|)
  }

  /** Offsets match exactly: a user none of whose active events lies `day`
      days after a signup of theirs is not retained on `day`, whatever other
      days they were active on. */
  lemma ExactDayOnly(log: seq<Event>, u: int, day: int)
    requires forall e, s ::
               (e in log && s in log && e.kind == Active && s.kind == Signup && e.userId == u && s.userId == u)
               ==> DaysBetween(s.timestamp, e.timestamp) != day
    ensures u !in ActiveOn(Enrich(log), day)
    ensures forall v :: u !in VariantRetained(log, v, day)
  {
    ActiveOnCharacterized(log, day, u);
  }

  /** Users are counted once: one more active event by a user already
      retained on `day` changes neither the retained set nor any rate. */
  lemma SameDayActivityCountsOnce(log: seq<Event>, e: Event, day: int)
    requires e.kind == Active && e.userId in ActiveOn(Enrich(log), day)
    ensures ActiveOn(Enrich(log + [e]), day) == ActiveOn(Enrich(log), day)
    ensures DayRetention(log + [e], day) == DayRetention(log, day)
    ensures forall v :: VariantRate(log + [e], v, day) == VariantRate(log, v, day)
  {
    var log' := log + [e];
    forall u
      ensures u in ActiveOn(Enrich(log'), day) <==> u in ActiveOn(Enrich(log), day)
    {
      ActiveOnCharacterized(log', day, u);
      ActiveOnCharacterized(log, day, u);
      if RetainedOn(log', u, day) && u != e.userId {
        var a, s :| a in log' && s in log' && a.kind == Active && s.kind == Signup
                    && a.userId == u && s.userId == u && DaysBetween(s.timestamp, a.timestamp) == day;
        assert a in log && s in log;
      }
      if RetainedOn(log, u, day) {
        var a, s :| a in log && s in log && a.kind == Active && s.kind == Signup
                    && a.userId == u && s.userId == u && DaysBetween(s.timestamp, a.timestamp) == day;
        assert a in log' && s in log';
      }
    }
    assert SignupUsers(log') == SignupUsers(log);
    forall v
      ensures CohortUsers(log', v) == CohortUsers(log, v)
    {
      assert forall x :: x in log' && x.kind == Signup <==> x in log && x.kind == Signup;
    }
  }
}
