/** Worked inputs: three users split over variants A and B, and a log
    without signups. */
module Scenarios {
  import opened Events
  import opened StringOrder
  import opened Cohort
  import opened Retention
  import opened AbTest

  /** U1 (A) and U3 (B) sign up at time 0 and are active one day later;
      U2 (A) signs up at time 0 and is never seen again. */
  predicate IsThreeUsers(log: seq<Event>)
  {
    && |log| == 5
    && log[0] == Event(1, 0, Signup, "A")
    && log[1] == Event(1, SecondsPerDay, Active, "A")
    && log[2] == Event(2, 0, Signup, "A")
    && log[3] == Event(3, 0, Signup, "B")
    && log[4] == Event(3, SecondsPerDay, Active, "B")
  }

  lemma ThreeUsersLastSignups(log: seq<Event>)
    requires IsThreeUsers(log)
    ensures SignupRows(log[2..]) == [log[2], log[3]]
  {
    assert SignupRows(log[4..]) == [] by { assert log[4..][1..] == []; }
    assert SignupRows(log[3..]) == [log[3]] by { assert log[3..][1..] == log[4..]; }
    assert log[2..][1..] == log[3..];
  }

  lemma ThreeUsersSignupRows(log: seq<Event>)
    requires IsThreeUsers(log)
    ensures SignupRows(log) == [log[0], log[2], log[3]]
  {
    ThreeUsersLastSignups(log);
    assert SignupRows(log[1..]) == [log[2], log[3]] by { assert log[1..][1..] == log[2..]; }
  }

  lemma ThreeUsersVariants(log: seq<Event>)
    requires IsThreeUsers(log)
    ensures Variants(log) == ["A", "B"]
  {
    ThreeUsersSignupRows(log);
    var column := VariantColumn(SignupRows(log));
    assert column == ["A", "A", "B"];
    assert column[1..][1..] == ["B"];
    assert StrLe("A", "B");
    assert SortedUnique(column[1..][1..]) == ["B"];
    assert Insert("A", ["B"]) == ["A", "B"];
    assert SortedUnique(column[1..]) == ["A", "B"];
    assert Insert("A", ["A", "B"]) == ["A", "B"];
  }

  lemma ThreeUsersCohorts(log: seq<Event>)
    requires IsThreeUsers(log)
    ensures CohortUsers(log, "A") == {1, 2}
    ensures CohortUsers(log, "B") == {3}
  {
    assert forall e :: e in log <==> e == log[0] || e == log[1] || e == log[2] || e == log[3] || e == log[4];
  }

  lemma ThreeUsersActiveOnDayOne(log: seq<Event>)
    requires IsThreeUsers(log)
    ensures ActiveOn(Enrich(log), 1) == {1, 3}
  {
    assert forall e :: e in log && e.kind == Active ==> e == log[1] || e == log[4];
    forall u
      ensures u in ActiveOn(Enrich(log), 1) <==> u in {1, 3}
    {
      ActiveOnCharacterized(log, 1, u);
      if u == 1 {
        assert log[1] in log && log[0] in log;
      } else if u == 3 {
        assert log[4] in log && log[3] in log;
      }
    }
  }

  lemma ThreeUsersRetainedA(log: seq<Event>)
    requires IsThreeUsers(log)
    ensures VariantRetained(log, "A", 1) == {1}
  {
    ThreeUsersActiveOnDayOne(log);
    ThreeUsersCohorts(log);
    RetainedWithin(log, "A", {1, 3}, {1, 2}, {1});
  }

  lemma ThreeUsersRetainedB(log: seq<Event>)
    requires IsThreeUsers(log)
    ensures VariantRetained(log, "B", 1) == {3}
  {
    ThreeUsersActiveOnDayOne(log);
    ThreeUsersCohorts(log);
    RetainedWithin(log, "B", {1, 3}, {3}, {3});
  }

  lemma ThreeUsersCounts(log: seq<Event>)
    requires IsThreeUsers(log)
    ensures |CohortUsers(log, "A")| == 2 && |VariantRetained(log, "A", 1)| == 1
    ensures |CohortUsers(log, "B")| == 1 && |VariantRetained(log, "B", 1)| == 1
  {
    ThreeUsersCohorts(log);
    ThreeUsersRetainedA(log);
    ThreeUsersRetainedB(log);
  }

  lemma RetainedWithin(log: seq<Event>, v: string, active: set<int>, cohort: set<int>, both: set<int>)
    requires ActiveOn(Enrich(log), 1) == active && CohortUsers(log, v) == cohort && active * cohort == both
    ensures VariantRetained(log, v, 1) == both
  {
  }

  /** The row of a cohort of `total` users of whom `retained` came back. */
  lemma RowOfCounts(log: seq<Event>, v: string, total: nat, retained: nat)
    requires |CohortUsers(log, v)| == total && |VariantRetained(log, v, 1)| == retained
    ensures VariantRow(log, v) == Row(v, total, retained, Percent(retained, total))
  {
  }

  lemma ThreeUsersRows(log: seq<Event>)
    requires IsThreeUsers(log)
    ensures VariantRow(log, "A") == Row("A", 2, 1, 50.0)
    ensures VariantRow(log, "B") == Row("B", 1, 1, 100.0)
  {
    ThreeUsersCounts(log);
    RowOfCounts(log, "A", 2, 1);
    RowOfCounts(log, "B", 1, 1);
    assert Percent(1, 2) == 50.0;
    assert Percent(1, 1) == 100.0;
  }

  lemma PairOf<T>(s: seq<T>, x: T, y: T)
    requires |s| == 2 && s[0] == x && s[1] == y
    ensures s == [x, y]
  {
  }

  /** A: 2 users, 1 retained, 50%; B: 1 user, 1 retained, 100%; lift 50. */
  lemma ThreeUsersTable(log: seq<Event>)
    requires IsThreeUsers(log)
    ensures AbTable(log) == [Row("A", 2, 1, 50.0), Row("B", 1, 1, 100.0)]
    ensures VariantRow(log, "B").pct - VariantRow(log, "A").pct == 50.0
  {
    ThreeUsersVariants(log);
    ThreeUsersRows(log);
    PairOf(AbTable(log), Row("A", 2, 1, 50.0), Row("B", 1, 1, 100.0));
  }

  lemma {:induction false} NoSignupRows(log: seq<Event>)
    requires forall e :: e in log ==> e.kind == Active
    ensures SignupRows(log) == []
  {
    if log != [] {
      NoSignupRows(log[1..]);
    }
  }

  /** With no signup rows every retention value is 0.0, and the table is empty. */
  lemma NoSignupsScenario(log: seq<Event>, day: int)
    requires forall e :: e in log ==> e.kind == Active
    ensures DayRetention(log, day) == 0.0
    ensures AbTable(log) == []
  {
    NoSignupRows(log);
  }
}
