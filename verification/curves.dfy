/** Retention curves for days 0..7: the overall curve, one curve per
    variant, and the frame that lays them out as columns. */
module Curves {
  import opened Events
  import opened Cohort
  import opened Retention
  import opened AbTest

  /** `days = list(range(0, 8))`. */
  const Days: seq<int> := [0, 1, 2, 3, 4, 5, 6, 7]

  /** `overall_curve`: 1.0 on day 0 by definition, then day-d retention. */
  function OverallCurve(log: seq<Event>): (curve: seq<real>)
    ensures |curve| == |Days| && curve[0] == 1.0
    ensures forall d :: 1 <= d < |Days| ==> curve[d] == DayRetention(log, d)
    ensures forall d :: 0 <= d < |curve| ==> 0.0 <= curve[d] <= 1.0
  {
    seq(|Days|, d requires 0 <= d < |Days| => if d == 0 then 1.0 else DayRetention(log, d))
  }

  /** The curve of variant `v`'s cohort: 1.0 on day 0, then its day-d rate. */
  function CohortCurve(log: seq<Event>, v: string): (curve: seq<real>)
    ensures |curve| == |Days| && curve[0] == 1.0
    ensures forall d :: 1 <= d < |Days| ==> curve[d] == VariantRate(log, v, d)
    ensures forall d :: 0 <= d < |curve| ==> 0.0 <= curve[d] <= 1.0
  {
    seq(|Days|, d requires 0 <= d < |Days| => if d == 0 then 1.0 else VariantRate(log, v, d))
  }

  /** The curve's day-1 point and the A/B table's percentage describe the
      same cohort. */
  lemma CurveAgreesWithTable(log: seq<Event>, v: string)
    ensures 100.0 * CohortCurve(log, v)[1] == VariantRow(log, v).pct
  {
    VariantRowFacts(log, v);
  }

  /** The inner loop: day 0 is 1.0, then for each day 1..7 the share of the
      cohort active on exactly that day. */
  method CohortCurveLoop(log: seq<Event>, df: seq<Enriched>, v: string) returns (curve: seq<real>)
    requires df == Enrich(log)
    ensures curve == CohortCurve(log, v)
  {
    var cohortUsers := CohortUsers(log, v);
    var totalV := |cohortUsers|;
    curve := [1.0];
    for d := 1 to |Days|
      invariant curve == CohortCurve(log, v)[..d]
    {
      var retainedV := |ActiveOn(df, d) * cohortUsers|;
      CohortCurveStep(log, df, v, d);
      curve := curve + [Rate(retainedV, totalV)];
    }
  }

  /** One pass of the inner loop extends the curve by the day's rate. */
  lemma CohortCurveStep(log: seq<Event>, df: seq<Enriched>, v: string, d: nat)
    requires df == Enrich(log) && 1 <= d < |Days|
    ensures CohortCurve(log, v)[..d + 1] ==
      CohortCurve(log, v)[..d] + [Rate(|ActiveOn(df, d) * CohortUsers(log, v)|, |CohortUsers(log, v)|)]
  {
    assert CohortCurve(log, v)[d] == Rate(|ActiveOn(df, d) * CohortUsers(log, v)|, |CohortUsers(log, v)|);
    TakeOneMore(CohortCurve(log, v), d);
  }

  lemma TakeOneMore<T>(s: seq<T>, n: nat)
    requires n < |s|
    ensures s[..n + 1] == s[..n] + [s[n]]
  {
  }

  /** The outer loop filling `variant_curves`, one curve per variant. */
  method VariantCurves(log: seq<Event>, variants: seq<string>) returns (curves: map<string, seq<real>>)
    ensures curves.Keys == set v | v in variants
    ensures forall v :: v in curves ==> curves[v] == CohortCurve(log, v)
  {
    var df := Enrich(log);
    curves := map[];
    for i := 0 to |variants|
      invariant forall v :: v in curves <==> v in variants[..i]
      invariant forall v :: v in curves ==> curves[v] == CohortCurve(log, v)
    {
      var v := variants[i];
      var curve := CohortCurveLoop(log, df, v);
      curves := curves[v := curve];
      assert variants[..i + 1] == variants[..i] + [v];
    }
    assert variants[..|variants|] == variants;
  }

  /** A named column of the curve frame. */
  datatype Column = Column(name: string, values: seq<real>)

  /** `curve_df`: the `day` and `overall_retention` columns, then one
      `retention_<variant>` column per variant. */
  datatype CurveFrame = CurveFrame(day: seq<int>, overallRetention: seq<real>, columns: seq<Column>)

  function RetentionColumn(v: string): string
  {
    "retention_" + v
  }

  lemma RetentionColumnInjective(v: string, w: string)
    requires RetentionColumn(v) == RetentionColumn(w)
    ensures v == w
  {
    assert v == RetentionColumn(v)[10..];
    assert w == RetentionColumn(w)[10..];
  }

  predicate DistinctNames(columns: seq<Column>)
  {
    forall i, j :: 0 <= i < j < |columns| ==> columns[i].name != columns[j].name
  }

  /** `frame[c.name] = c.values`: replaces a column of that name in place,
      or appends a new one. */
  function SetColumn(columns: seq<Column>, c: Column): (r: seq<Column>)
    ensures c in r
    ensures forall x :: x in r ==> x == c || x in columns
  {
    if columns == [] then [c]
    else if columns[0].name == c.name then [c] + columns[1..]
    else [columns[0]] + SetColumn(columns[1..], c)
  }

  /** Setting a column keeps every column of another name. */
  lemma {:induction false} SetColumnKeeps(columns: seq<Column>, c: Column, x: Column)
    requires x in columns && x.name != c.name
    ensures x in SetColumn(columns, c)
  {
    if columns[0] != x {
      if columns[0].name != c.name {
        SetColumnKeeps(columns[1..], c, x);
      }
      assert x in columns[1..];
    }
  }

  /** Setting a column whose name is new appends it. */
  lemma {:induction false} SetColumnAppends(columns: seq<Column>, c: Column)
    requires forall x :: x in columns ==> x.name != c.name
    ensures SetColumn(columns, c) == columns + [c]
  {
    if columns != [] {
      SetColumnAppends(columns[1..], c);
      assert columns == [columns[0]] + columns[1..];
    }
  }

  /** Setting a column keeps column names distinct. */
  lemma {:induction false} SetColumnDistinct(columns: seq<Column>, c: Column)
    requires DistinctNames(columns)
    ensures DistinctNames(SetColumn(columns, c))
  {
    var r := SetColumn(columns, c);
    if columns == [] {
    } else if columns[0].name == c.name {
      assert forall k :: 0 <= k < |r| ==> r[k].name == columns[k].name;
    } else {
      var rest := SetColumn(columns[1..], c);
      SetColumnDistinct(columns[1..], c);
      forall k | 0 <= k < |rest|
        ensures rest[k].name != columns[0].name
      {
        assert rest[k] in rest;
        if rest[k] != c {
          var j :| 0 <= j < |columns[1..]| && columns[1..][j] == rest[k];
          assert columns[j + 1] == rest[k];
        }
      }
      assert r == [columns[0]] + rest;
    }
  }

  /** The column the loop writes for variant `v`. */
  function CurveColumn(curves: map<string, seq<real>>, v: string): Column
    requires v in curves
  {
    Column(RetentionColumn(v), curves[v])
  }

  /** `columns` holds exactly the curve columns of the labels in `vs`. */
  ghost predicate ColumnsCover(columns: seq<Column>, vs: seq<string>, curves: map<string, seq<real>>)
  {
    && (forall v :: v in vs ==> v in curves)
    && (forall c :: c in columns ==> exists v :: v in vs && v in curves && c == CurveColumn(curves, v))
    && (forall v :: v in vs && v in curves ==> CurveColumn(curves, v) in columns)
  }

  lemma SetColumnCovers(columns: seq<Column>, vs: seq<string>, curves: map<string, seq<real>>, v: string)
    requires ColumnsCover(columns, vs, curves) && v in curves
    ensures ColumnsCover(SetColumn(columns, CurveColumn(curves, v)), vs + [v], curves)
    ensures DistinctNames(columns) ==> DistinctNames(SetColumn(columns, CurveColumn(curves, v)))
    ensures v !in vs ==> SetColumn(columns, CurveColumn(curves, v)) == columns + [CurveColumn(curves, v)]
  {
    var c := CurveColumn(curves, v);
    var r := SetColumn(columns, c);
    if DistinctNames(columns) {
      SetColumnDistinct(columns, c);
    }
    forall w | w in vs + [v] && w in curves
      ensures CurveColumn(curves, w) in r
    {
      if RetentionColumn(w) == RetentionColumn(v) {
        RetentionColumnInjective(w, v);
      } else {
        SetColumnKeeps(columns, c, CurveColumn(curves, w));
      }
    }
    forall x | x in r
      ensures exists w :: w in vs + [v] && w in curves && x == CurveColumn(curves, w)
    {
      if x != c {
        var w :| w in vs && w in curves && x == CurveColumn(curves, w);
        assert w in vs + [v];
      }
    }
    if v !in vs {
      forall x | x in columns
        ensures x.name != c.name
      {
        var w :| w in vs && w in curves && x == CurveColumn(curves, w);
        if x.name == c.name {
          RetentionColumnInjective(w, v);
        }
      }
      SetColumnAppends(columns, c);
    }
  }

  predicate DistinctLabels(vs: seq<string>)
  {
    forall i, j :: 0 <= i < j < |vs| ==> vs[i] != vs[j]
  }

  /** The columns written for the first `n` labels, in order. */
  function CurveColumns(curves: map<string, seq<real>>, vs: seq<string>, n: nat): (cols: seq<Column>)
    requires n <= |vs| && forall v :: v in vs ==> v in curves
    ensures |cols| == n
  {
    if n == 0 then [] else CurveColumns(curves, vs, n - 1) + [CurveColumn(curves, vs[n - 1])]
  }

  /** Column `k` is the curve of label `vs[k]`. */
  lemma {:induction false} CurveColumnsElements(curves: map<string, seq<real>>, vs: seq<string>, n: nat)
    requires n <= |vs| && forall v :: v in vs ==> v in curves
    ensures forall k :: 0 <= k < n ==> CurveColumns(curves, vs, n)[k] == CurveColumn(curves, vs[k])
  {
    if n != 0 {
      CurveColumnsElements(curves, vs, n - 1);
    }
  }

  /** What the column loop keeps after its first `n` passes. */
  ghost predicate ColumnsAfter(columns: seq<Column>, vs: seq<string>, curves: map<string, seq<real>>, n: nat)
    requires n <= |vs| && forall v :: v in vs ==> v in curves
  {
    && DistinctNames(columns)
    && ColumnsCover(columns, vs[..n], curves)
    && (DistinctLabels(vs) ==> columns == CurveColumns(curves, vs, n))
  }

  lemma ColumnsAfterStep(columns: seq<Column>, vs: seq<string>, curves: map<string, seq<real>>, n: nat)
    requires n < |vs| && forall v :: v in vs ==> v in curves
    requires ColumnsAfter(columns, vs, curves, n)
    ensures ColumnsAfter(SetColumn(columns, CurveColumn(curves, vs[n])), vs, curves, n + 1)
  {
    var v := vs[n];
    SetColumnCovers(columns, vs[..n], curves, v);
    assert vs[..n + 1] == vs[..n] + [v];
    if DistinctLabels(vs) {
      assert v !in vs[..n];
    }
  }

  /** The loop adding one `retention_<variant>` column per variant. */
  method CurveTable(overall: seq<real>, variants: seq<string>, curves: map<string, seq<real>>)
    returns (frame: CurveFrame)
    requires |overall| == |Days|
    requires forall v :: v in variants ==> v in curves && |curves[v]| == |Days|
    ensures frame.day == Days && frame.overallRetention == overall
    ensures DistinctNames(frame.columns)
    ensures ColumnsCover(frame.columns, variants, curves)
    ensures DistinctLabels(variants) ==> frame.columns == CurveColumns(curves, variants, |variants|)
  {
    frame := CurveFrame(Days, overall, []);
    for i := 0 to |variants|
      invariant frame.day == Days && frame.overallRetention == overall
      invariant ColumnsAfter(frame.columns, variants, curves, i)
    {
      ColumnsAfterStep(frame.columns, variants, curves, i);
      frame := frame.(columns := SetColumn(frame.columns, CurveColumn(curves, variants[i])));
    }
    assert variants[..|variants|] == variants;
  }
}
