/** Cohort anchoring: the signup rows, the left merge of each user's signup
    time onto every event, and the whole-day offset `days_since_signup`. */
module Cohort {
  import opened Events

  /** The `signup` frame: the signup rows of the log, in log order. */
  function SignupRows(log: seq<Event>): seq<Event>
  {
    if log == [] then []
    else (if log[0].kind == Signup then [log[0]] else []) + SignupRows(log[1..])
  }

  /** The signup frame holds exactly the signup rows of the log. */
  lemma {:induction false} SignupRowsMember(log: seq<Event>)
    ensures forall e :: e in SignupRows(log) <==> e in log && e.kind == Signup
  {
    if log != [] {
      SignupRowsMember(log[1..]);
      assert forall e :: e in log <==> e == log[0] || e in log[1..];
    }
  }

  /** The distinct `user_id`s of the signup rows. */
  function SignupUsers(log: seq<Event>): set<int>
  {
    set e | e in log && e.kind == Signup :: e.userId
  }

  /** The distinct `variant` labels of the signup rows. */
  function SignupVariants(log: seq<Event>): set<string>
  {
    set e | e in log && e.kind == Signup :: e.variant
  }

  /** The distinct users whose signup row carries variant `v`. */
  function CohortUsers(log: seq<Event>, v: string): set<int>
  {
    set e | e in log && e.kind == Signup && e.variant == v :: e.userId
  }

  /** A cohort holds signup users only, and is empty exactly for a label no
      signup row carries. */
  lemma CohortUsersFacts(log: seq<Event>, v: string)
    ensures CohortUsers(log, v) <= SignupUsers(log)
    ensures CohortUsers(log, v) != {} <==> v in SignupVariants(log)
  {
    if v in SignupVariants(log) {
      var e :| e in log && e.kind == Signup && e.variant == v;
      assert e.userId in CohortUsers(log, v);
    }
  }

  /** Whole days from `start` to `t`, rounded toward negative infinity as a
      time delta's `.days` is. */
  function DaysBetween(start: int, t: int): (days: int)
    ensures SecondsPerDay * days <= t - start < SecondsPerDay * (days + 1)
  {
    (t - start) / SecondsPerDay
  }

  /** A row of the merged frame: an event and the signup time joined onto it,
      missing when the user has no signup row. */
  datatype Enriched = Enriched(event: Event, signupTime: Option<int>)
  {
    /** The `days_since_signup` column; missing (NaN) with the signup time. */
    function DaysSinceSignup(): (days: Option<int>)
      ensures days.Some? <==> signupTime.Some?
    {
      match signupTime
      case None => None
      case Some(s) => Some(DaysBetween(s, event.timestamp))
    }
  }

  /** The rows the merge makes for `e` from the signup rows with its user id,
      in signup order. */
  function Matches(e: Event, signups: seq<Event>): seq<Enriched>
  {
    if signups == [] then []
    else (if signups[0].userId == e.userId then [Enriched(e, Some(signups[0].timestamp))] else [])
         + Matches(e, signups[1..])
  }

  /** A left merge keeps an unmatched event once, with a missing signup time. */
  function JoinRow(e: Event, signups: seq<Event>): seq<Enriched>
  {
    var m := Matches(e, signups);
    if m == [] then [Enriched(e, None)] else m
  }

  /** `events.merge(signups, on="user_id", how="left")`, left order kept. */
  function Join(events: seq<Event>, signups: seq<Event>): seq<Enriched>
  {
    if events == [] then [] else JoinRow(events[0], signups) + Join(events[1..], signups)
  }

  /** The merged frame `df` the rest of the engine reads. */
  function Enrich(log: seq<Event>): seq<Enriched>
  {
    Join(log, SignupRows(log))
  }

  lemma {:induction false} MatchesMember(e: Event, signups: seq<Event>, r: Enriched)
    ensures r in Matches(e, signups) <==>
      exists s :: s in signups && s.userId == e.userId && r == Enriched(e, Some(s.timestamp))
  {
    if signups != [] {
      MatchesMember(e, signups[1..], r);
      assert forall s :: s in signups <==> s == signups[0] || s in signups[1..];
    }
  }

  lemma {:induction false} JoinMember(events: seq<Event>, signups: seq<Event>, r: Enriched)
    ensures r in Join(events, signups) <==> exists e :: e in events && r in JoinRow(e, signups)
  {
    if events != [] {
      JoinMember(events[1..], signups, r);
      assert forall e :: e in events <==> e == events[0] || e in events[1..];
    }
  }

  /** A merged row with a signup time pairs an event with a signup row of the
      same user, and every such pair gives a merged row. */
  lemma EnrichAnchored(log: seq<Event>, r: Enriched)
    requires r.signupTime.Some?
    ensures r in Enrich(log) <==>
      exists e, s :: e in log && s in log && s.kind == Signup && s.userId == e.userId
                     && r == Enriched(e, Some(s.timestamp))
  {
    var signups := SignupRows(log);
    SignupRowsMember(log);
    JoinMember(log, signups, r);
    if r in Enrich(log) {
      var e :| e in log && r in JoinRow(e, signups);
      MatchesMember(e, signups, r);
    }
    if exists e, s :: e in log && s in log && s.kind == Signup && s.userId == e.userId
                      && r == Enriched(e, Some(s.timestamp)) {
      var e, s :| e in log && s in log && s.kind == Signup && s.userId == e.userId
                  && r == Enriched(e, Some(s.timestamp));
      MatchesMember(e, signups, r);
    }
  }

  /** An event finds no signup row to match exactly when its user has none. */
  lemma NoMatchIffNoSignup(log: seq<Event>, e: Event)
    ensures Matches(e, SignupRows(log)) == [] <==> e.userId !in SignupUsers(log)
  {
    var signups := SignupRows(log);
    SignupRowsMember(log);
    if Matches(e, signups) != [] {
      var m := Matches(e, signups)[0];
      assert m in Matches(e, signups);
      MatchesMember(e, signups, m);
    } else if e.userId in SignupUsers(log) {
      var s :| s in log && s.kind == Signup && s.userId == e.userId;
      MatchesMember(e, signups, Enriched(e, Some(s.timestamp)));
    }
  }

  lemma JoinRowUnanchored(e: Event, signups: seq<Event>, r: Enriched)
    requires r.signupTime.None?
    ensures r in JoinRow(e, signups) <==> r == Enriched(e, None) && Matches(e, signups) == []
  {
    MatchesMember(e, signups, r);
  }

  /** A merged row has no signup time exactly when its event's user has no
      signup row: those rows get no day offset. */
  lemma EnrichUnanchored(log: seq<Event>, r: Enriched)
    requires r.signupTime.None?
    ensures r in Enrich(log) <==> r.event in log && r.event.userId !in SignupUsers(log)
  {
    var signups := SignupRows(log);
    JoinMember(log, signups, r);
    NoMatchIffNoSignup(log, r.event);
    JoinRowUnanchored(r.event, signups, r);
    if r in Enrich(log) {
      var e :| e in log && r in JoinRow(e, signups);
      JoinRowUnanchored(e, signups, r);
    }
  }

  /** Every event of the log survives the merge at least once. */
  lemma {:induction false} EveryEventKept(log: seq<Event>, e: Event)
    requires e in log
    ensures exists r :: r in Enrich(log) && r.event == e
  {
    var signups := SignupRows(log);
    JoinMember(log, signups, JoinRow(e, signups)[0]);
    assert JoinRow(e, signups)[0] in JoinRow(e, signups);
    if Matches(e, signups) != [] {
      MatchesMember(e, signups, Matches(e, signups)[0]);
      assert Matches(e, signups)[0] in Matches(e, signups);
    }
  }
}
