/** The per-variant D1 table, and the lift and contingency table built when
    both variants "A" and "B" are present. */
module AbTest {
  import opened Events
  import opened StringOrder
  import opened Cohort
  import opened Retention

  /** One row `variant, total_users, retained_d1, d1_retention_pct`. */
  datatype Row = Row(variant: string, totalUsers: nat, retainedD1: nat, pct: real)

  /** The `variant` column of a frame. */
  function VariantColumn(rows: seq<Event>): (column: seq<string>)
    ensures |column| == |rows|
    ensures forall i :: 0 <= i < |rows| ==> column[i] == rows[i].variant
  {
    seq(|rows|, i requires 0 <= i < |rows| => rows[i].variant)
  }

  /** `variants`: the distinct signup variants, sorted ascending. */
  function Variants(log: seq<Event>): seq<string>
  {
    SortedUnique(VariantColumn(SignupRows(log)))
  }

  /** One label per signup variant, each once, in ascending order. */
  lemma VariantsSortedAndComplete(log: seq<Event>)
    ensures Ascending(Variants(log))
    ensures forall v :: v in Variants(log) <==> v in SignupVariants(log)
  {
    var rows := SignupRows(log);
    SignupRowsMember(log);
    SortedUniqueAscending(VariantColumn(rows));
    forall v
      ensures v in Variants(log) <==> v in SignupVariants(log)
    {
      if v in SignupVariants(log) {
        var e :| e in log && e.kind == Signup && e.variant == v;
        var i :| 0 <= i < |rows| && rows[i] == e;
        assert VariantColumn(rows)[i] == v;
      }
      if v in VariantColumn(rows) {
        var i :| 0 <= i < |rows| && VariantColumn(rows)[i] == v;
        assert rows[i] in rows;
      }
    }
  }

  /** `retained / total * 100`, and 0 for an empty cohort. */
  function Percent(retained: nat, total: nat): (pct: real)
    ensures total == 0 ==> pct == 0.0
    ensures total != 0 ==> pct * total as real == 100.0 * retained as real
    ensures retained <= total ==> 0.0 <= pct <= 100.0
  {
    if total != 0 then Rate(retained, total) * 100.0 else 0.0
  }

  /** The table row of variant `v` (one pass of the loop body). */
  function VariantRow(log: seq<Event>, v: string): Row
  {
    var users := CohortUsers(log, v);
    var retained := VariantRetained(log, v, 1);
    Row(v, |users|, |retained|, Percent(|retained|, |users|))
  }

  /** A row counts retained users within its cohort, is empty exactly for a
      label no signup carries, and its percentage is the D1 point of the
      variant's retention curve scaled to percent. */
  lemma VariantRowFacts(log: seq<Event>, v: string)
    ensures VariantRow(log, v).variant == v
    ensures VariantRow(log, v).retainedD1 <= VariantRow(log, v).totalUsers
    ensures VariantRow(log, v).totalUsers == 0 <==> v !in SignupVariants(log)
    ensures VariantRow(log, v).pct == 100.0 * VariantRate(log, v, 1)
    ensures 0.0 <= VariantRow(log, v).pct <= 100.0
  {
    CohortUsersFacts(log, v);
    SubsetCardinality(VariantRetained(log, v, 1), CohortUsers(log, v));
  }

  /** The rows `rowOf` makes for the labels `vs`, in their order, as `rows`
      holds them after the loop has visited `vs`. */
  function RowsFor(rowOf: string -> Row, vs: seq<string>): (rows: seq<Row>)
    ensures |rows| == |vs|
  {
    if vs == [] then [] else RowsFor(rowOf, vs[..|vs| - 1]) + [rowOf(vs[|vs| - 1])]
  }

  /** Row `i` is the row of label `vs[i]`. */
  lemma {:induction false} RowsForElements(rowOf: string -> Row, vs: seq<string>)
    ensures forall i :: 0 <= i < |vs| ==> RowsFor(rowOf, vs)[i] == rowOf(vs[i])
  {
    if vs != [] {
      var n := |vs| - 1;
      RowsForElements(rowOf, vs[..n]);
      forall i | 0 <= i < n
        ensures RowsFor(rowOf, vs)[i] == rowOf(vs[i])
      {
        assert vs[..n][i] == vs[i];
      }
    }
  }

  /** The row of each label of `log`'s signups. */
  function RowOf(log: seq<Event>): string -> Row
  {
    v => VariantRow(log, v)
  }

  /** The table `ab`: one row per entry of `Variants(log)`. */
  function AbTable(log: seq<Event>): (ab: seq<Row>)
    ensures |ab| == |Variants(log)|
    ensures forall i :: 0 <= i < |ab| ==> ab[i] == VariantRow(log, Variants(log)[i])
  {
    RowsForElements(RowOf(log), Variants(log));
    RowsFor(RowOf(log), Variants(log))
  }

  /** The table has exactly one row per distinct signup variant, in
      ascending label order, each with `retained_d1 <= total_users` and a
      percentage in [0, 100] that is 0.0 for an empty cohort. */
  lemma AbTableShape(log: seq<Event>)
    ensures forall i, j :: 0 <= i < j < |AbTable(log)| ==> StrLt(AbTable(log)[i].variant, AbTable(log)[j].variant)
    ensures forall v :: v in SignupVariants(log) <==> exists i :: 0 <= i < |AbTable(log)| && AbTable(log)[i].variant == v
    ensures forall r :: r in AbTable(log) ==> r == VariantRow(log, r.variant)
    ensures forall r :: r in AbTable(log) ==>
      r.retainedD1 <= r.totalUsers && 0.0 <= r.pct <= 100.0 && (r.totalUsers == 0 ==> r.pct == 0.0)
  {
    var ab, vs := AbTable(log), Variants(log);
    VariantsSortedAndComplete(log);
    forall i | 0 <= i < |vs|
      ensures ab[i].variant == vs[i]
      ensures ab[i].retainedD1 <= ab[i].totalUsers && 0.0 <= ab[i].pct <= 100.0
      ensures ab[i].totalUsers == 0 ==> ab[i].pct == 0.0
    {
      VariantRowFacts(log, vs[i]);
    }
    forall v
      ensures v in SignupVariants(log) <==> exists i :: 0 <= i < |ab| && ab[i].variant == v
    {
      if v in SignupVariants(log) {
        var i :| 0 <= i < |vs| && vs[i] == v;
        assert ab[i].variant == v;
      }
    }
  }

  /** The loop of the script that appends one row per variant to `rows`. */
  method ComputeAbTable(log: seq<Event>) returns (rows: seq<Row>)
    ensures rows == AbTable(log)
  {
    var df := Enrich(log);
    var variants := Variants(log);
    rows := [];
    for i := 0 to |variants|
      invariant rows == RowsFor(RowOf(log), variants[..i])
    {
      var v := variants[i];
      var cohortUsers := CohortUsers(log, v);
      var totalV := |cohortUsers|;
      var retainedV := |ActiveOn(df, 1) * cohortUsers|;
      var retentionPct := Percent(retainedV, totalV);
      assert variants[..i + 1][..i] == variants[..i];
      rows := rows + [Row(v, totalV, retainedV, retentionPct)];
    }
    assert variants[..|variants|] == variants;
  }

  /** `ab[ab["variant"] == name].iloc[0]`: the first row with that label. */
  function Lookup(ab: seq<Row>, name: string): (r: Option<Row>)
    ensures r.Some? <==> exists i :: 0 <= i < |ab| && ab[i].variant == name
    ensures r.Some? ==> r.value in ab && r.value.variant == name
  {
    if ab == [] then None
    else if ab[0].variant == name then Some(ab[0])
    else Lookup(ab[1..], name)
  }

  /** The row found is the first one carrying the label, as `iloc[0]` takes
      the first row of the filtered frame. */
  lemma {:induction false} LookupFirst(ab: seq<Row>, name: string)
    ensures Lookup(ab, name).Some? ==>
      exists i :: 0 <= i < |ab| && ab[i] == Lookup(ab, name).value
                  && forall j :: 0 <= j < i ==> ab[j].variant != name
  {
    if ab != [] && ab[0].variant != name {
      LookupFirst(ab[1..], name);
      if Lookup(ab, name).Some? {
        var i :| 0 <= i < |ab[1..]| && ab[1..][i] == Lookup(ab, name).value
                 && forall j :: 0 <= j < i ==> ab[1..][j].variant != name;
        assert forall j :: 0 <= j < i + 1 ==> ab[j].variant != name by {
          forall j | 0 <= j < i + 1
            ensures ab[j].variant != name
          {
            if j > 0 {
              assert ab[j] == ab[1..][j - 1];
            }
          }
        }
        assert ab[i + 1] == Lookup(ab, name).value;
      }
    }
  }

  /** Looking a label up in the table finds a row exactly when some signup
      carries the label, and then it is that variant's row. */
  lemma LookupInTable(log: seq<Event>, name: string)
    ensures Lookup(AbTable(log), name).Some? <==> name in SignupVariants(log)
    ensures Lookup(AbTable(log), name).Some? ==> Lookup(AbTable(log), name).value == VariantRow(log, name)
  {
    AbTableShape(log);
  }

  /** One row of the contingency table: retained and not retained. */
  datatype Split = Split(retained: int, notRetained: int)

  /** The 2x2 table, variant A's row first. */
  datatype Contingency = Contingency(a: Split, b: Split)

  /** `[[a.retained_d1, a.total_users - a.retained_d1], [b..., b...]]`. */
  function ContingencyOf(a: Row, b: Row): (c: Contingency)
    ensures c.a.retained + c.a.notRetained == a.totalUsers
    ensures c.b.retained + c.b.notRetained == b.totalUsers
    ensures c.a.retained == a.retainedD1 && c.b.retained == b.retainedD1
    ensures a.retainedD1 <= a.totalUsers && b.retainedD1 <= b.totalUsers ==>
      0 <= c.a.retained && 0 <= c.a.notRetained && 0 <= c.b.retained && 0 <= c.b.notRetained
  {
    Contingency(Split(a.retainedD1, a.totalUsers - a.retainedD1),
                Split(b.retainedD1, b.totalUsers - b.retainedD1))
  }

  /** `lift` and `p`: both stay missing unless "A" and "B" are both in the
      table; then lift is B's percentage minus A's and `p` is what the
      chi-square test `chiSquareP` returns for the contingency table. */
  method CompareVariants(ab: seq<Row>, chiSquareP: Contingency -> real)
    returns (lift: Option<real>, p: Option<real>)
    ensures lift.Some? <==> Lookup(ab, "A").Some? && Lookup(ab, "B").Some?
    ensures p.Some? <==> lift.Some?
    ensures lift.Some? ==> lift.value == Lookup(ab, "B").value.pct - Lookup(ab, "A").value.pct
    ensures p.Some? ==> p.value == chiSquareP(ContingencyOf(Lookup(ab, "A").value, Lookup(ab, "B").value))
  {
    lift := None;
    p := None;
    var a, b := Lookup(ab, "A"), Lookup(ab, "B");
    if a.Some? && b.Some? {
      lift := Some(b.value.pct - a.value.pct);
      var contingency := ContingencyOf(a.value, b.value);
      p := Some(chiSquareP(contingency));
    }
  }
}
