/** The Pareto filter of the optimization report, over exact numbers. */
module Pareto {
  import opened Wrappers
  import opened Text

  datatype Metric = Metric(name: string, maximize: bool)

  /** A valid row: it has a number for every metric; `rest` is whatever else the row holds. */
  datatype Row = Row(candidate: Option<string>, values: map<string, real>, rest: string)

  ghost predicate Measured(metrics: seq<Metric>, row: Row) {
    forall k :: 0 <= k < |metrics| ==> metrics[k].name in row.values
  }

  ghost predicate AllMeasured(metrics: seq<Metric>, rows: seq<Row>) {
    forall i :: 0 <= i < |rows| ==> Measured(metrics, rows[i])
  }

  predicate NoWorse(metric: Metric, a: Row, b: Row)
    requires metric.name in a.values && metric.name in b.values
  {
    if metric.maximize then a.values[metric.name] >= b.values[metric.name]
    else a.values[metric.name] <= b.values[metric.name]
  }

  predicate Better(metric: Metric, a: Row, b: Row)
    requires metric.name in a.values && metric.name in b.values
  {
    if metric.maximize then a.values[metric.name] > b.values[metric.name]
    else a.values[metric.name] < b.values[metric.name]
  }

  /** No worse in every metric, better in one. */
  predicate Dominates(metrics: seq<Metric>, a: Row, b: Row)
    requires Measured(metrics, a) && Measured(metrics, b)
  {
    && (forall k :: 0 <= k < |metrics| ==> NoWorse(metrics[k], a, b))
    && exists k :: 0 <= k < |metrics| && Better(metrics[k], a, b)
  }

  ghost predicate Survives(metrics: seq<Metric>, rows: seq<Row>, row: Row)
    requires AllMeasured(metrics, rows) && Measured(metrics, row)
  {
    forall i :: 0 <= i < |rows| ==> !Dominates(metrics, rows[i], row)
  }

  // ----- the filter

  ghost predicate StrictlySorted(names: seq<string>) {
    forall i, j :: 0 <= i < j < |names| ==> Before(names[i], names[j])
  }

  /** Sorting with duplicates dropped, one name at a time. */
  method InsertName(names: seq<string>, name: string) returns (r: seq<string>)
    requires StrictlySorted(names)
    ensures StrictlySorted(r) && forall n :: n in r <==> n in names || n == name
  {
    var i := 0;
    while i < |names| && Before(names[i], name)
      invariant 0 <= i <= |names| && forall j :: 0 <= j < i ==> Before(names[j], name)
    {
      i := i + 1;
    }
    if i < |names| && names[i] == name { return names; }
    r := names[..i] + [name] + names[i..];
    forall j, k | 0 <= j < k < |r| ensures Before(r[j], r[k]) {
      if i < |names| {
        BeforeIsOrder(names[i], name, name);
        if k > i { BeforeIsOrder(name, names[i], r[k]); }
      }
      if j < i { BeforeIsOrder(r[j], name, r[k]); }
    }
    forall n ensures n in r <==> n in names || n == name {
      assert names == names[..i] + names[i..];
    }
  }

  method IsDominated(metrics: seq<Metric>, rows: seq<Row>, candidate: Row) returns (dominated: bool)
    requires AllMeasured(metrics, rows) && candidate in rows && Measured(metrics, candidate)
    ensures dominated <==> !Survives(metrics, rows, candidate)
  {
    for i := 0 to |rows|
      invariant forall j :: 0 <= j < i ==> !Dominates(metrics, rows[j], candidate)
    {
      if rows[i] != candidate && Dominates(metrics, rows[i], candidate) { return true; }
    }
    dominated := false;
  }

  /** The names of the surviving candidates, sorted and without duplicates. */
  method Front(metrics: seq<Metric>, rows: seq<Row>) returns (names: seq<string>)
    requires AllMeasured(metrics, rows)
    ensures StrictlySorted(names)
    ensures forall n :: n in names <==>
      exists i :: 0 <= i < |rows| && rows[i].candidate == Some(n) && Survives(metrics, rows, rows[i])
  {
    names := [];
    for i := 0 to |rows|
      invariant StrictlySorted(names)
      invariant forall n :: n in names <==>
        exists j :: 0 <= j < i && rows[j].candidate == Some(n) && Survives(metrics, rows, rows[j])
    {
      var dominated := IsDominated(metrics, rows, rows[i]);
      if !dominated && rows[i].candidate.Some? {
        names := InsertName(names, rows[i].candidate.value);
      }
    }
  }

  // ----- what survives

  lemma DominatesIsStrict(metrics: seq<Metric>, a: Row, b: Row, c: Row)
    requires Measured(metrics, a) && Measured(metrics, b) && Measured(metrics, c)
    ensures !Dominates(metrics, a, a)
    ensures Dominates(metrics, a, b) && Dominates(metrics, b, c) ==> Dominates(metrics, a, c)
  {
    if Dominates(metrics, a, b) && Dominates(metrics, b, c) {
      var k :| 0 <= k < |metrics| && Better(metrics[k], a, b);
      assert NoWorse(metrics[k], b, c) && Better(metrics[k], a, c);
      forall j | 0 <= j < |metrics| ensures NoWorse(metrics[j], a, c) {
        assert NoWorse(metrics[j], a, b) && NoWorse(metrics[j], b, c);
      }
    }
  }

  ghost function Dominators(metrics: seq<Metric>, rows: seq<Row>, row: Row): set<nat>
    requires AllMeasured(metrics, rows) && Measured(metrics, row)
  {
    set i: nat | i < |rows| && Dominates(metrics, rows[i], row)
  }

  /** Climbing from a dominated row ends at a survivor that dominates it. */
  lemma {:induction false} ClimbToSurvivor(metrics: seq<Metric>, rows: seq<Row>, row: Row) returns (s: nat)
    requires AllMeasured(metrics, rows) && Measured(metrics, row) && !Survives(metrics, rows, row)
    ensures s < |rows| && Survives(metrics, rows, rows[s]) && Dominates(metrics, rows[s], row)
    decreases |Dominators(metrics, rows, row)|
  {
    s :| 0 <= s < |rows| && Dominates(metrics, rows[s], row);
    if !Survives(metrics, rows, rows[s]) {
      var d := rows[s];
      forall i | i in Dominators(metrics, rows, d) ensures i in Dominators(metrics, rows, row) {
        DominatesIsStrict(metrics, rows[i], d, row);
      }
      DominatesIsStrict(metrics, d, d, d);
      assert s in Dominators(metrics, rows, row) && s !in Dominators(metrics, rows, d);
      ProperSubsetIsSmaller(Dominators(metrics, rows, d), Dominators(metrics, rows, row));
      s := ClimbToSurvivor(metrics, rows, d);
      DominatesIsStrict(metrics, rows[s], d, row);
    }
  }

  lemma ProperSubsetIsSmaller(a: set<nat>, b: set<nat>)
    requires a < b
    ensures |a| < |b|
  {
    var x :| x in b - a;
    assert |b| == |a| + |b - a| by { assert b == a + (b - a); }
  }

  /** The front of a non-empty set of rows is not empty, holds no dominated pair, and covers every eliminated row. */
  lemma FrontCovers(metrics: seq<Metric>, rows: seq<Row>)
    requires AllMeasured(metrics, rows) && rows != []
    ensures exists s :: 0 <= s < |rows| && Survives(metrics, rows, rows[s])
    ensures forall s, t | 0 <= s < |rows| && 0 <= t < |rows| ::
      Survives(metrics, rows, rows[s]) && Survives(metrics, rows, rows[t]) ==> !Dominates(metrics, rows[s], rows[t])
    ensures forall i :: 0 <= i < |rows| && !Survives(metrics, rows, rows[i]) ==>
      exists s :: 0 <= s < |rows| && Survives(metrics, rows, rows[s]) && Dominates(metrics, rows[s], rows[i])
  {
    forall i | 0 <= i < |rows| && !Survives(metrics, rows, rows[i])
      ensures exists s :: 0 <= s < |rows| && Survives(metrics, rows, rows[s]) && Dominates(metrics, rows[s], rows[i])
    {
      var s := ClimbToSurvivor(metrics, rows, rows[i]);
    }
    if !Survives(metrics, rows, rows[0]) {
      var s := ClimbToSurvivor(metrics, rows, rows[0]);
    } else {
      assert Survives(metrics, rows, rows[0]);
    }
  }
}
