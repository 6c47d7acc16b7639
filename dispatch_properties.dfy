/**
 * What `run_metrics` promises its callers: when it gives up, which nodes it
 * reports on, what each report holds, and that the measurement and metric
 * functions are only ever called on non-empty data.
 */
module DispatchProperties {
  import opened Wrappers
  import opened Events
  import opened Values
  import opened TimeFormat
  import opened Registry
  import opened Ranking
  import opened Dispatch

  /** The names of the first `j` metrics a descriptor registers. */
  function NamesUpTo(d: Descriptor, j: nat): (r: set<string>)
    requires j <= |d.metrics|
    ensures forall k :: 0 <= k < j ==> d.metrics[k].0 in r
    ensures forall x :: x in r ==> exists k :: 0 <= k < j && d.metrics[k].0 == x
  {
    if j == 0 then {} else NamesUpTo(d, j - 1) + {d.metrics[j - 1].0}
  }

  /** The metric names a descriptor registers. */
  function MetricNames(d: Descriptor): set<string>
  {
    NamesUpTo(d, |d.metrics|)
  }

  /** The entry of metric number `k` for a node whose rows are `g` and `s`. */
  function MetricEntry(d: Descriptor, c: Collaborators, g: seq<Event>, s: seq<Event>, k: nat): Value
    requires k < |d.metrics|
  {
    MetricValue(c, d.metrics[k].1, MeasureSide(d, c, g), MeasureSide(d, c, s), g == [] || s == [])
  }

  /** The last position of `n` in `nodes`: the iteration whose dictionary survives. */
  function LastIndex(nodes: seq<string>, n: string): (k: nat)
    requires n in nodes
    ensures k < |nodes| && nodes[k] == n
    ensures forall k' :: k < k' < |nodes| ==> nodes[k'] != n
  {
    if nodes[|nodes| - 1] == n then |nodes| - 1
    else
      assert nodes == nodes[..|nodes| - 1] + [nodes[|nodes| - 1]];
      LastIndex(nodes[..|nodes| - 1], n)
  }

  /** After `j` metrics the dictionary's keys are those metrics' names and, once one is written, `eta`. */
  lemma {:induction false} ScoresKeys(d: Descriptor, c: Collaborators, eta: (nat, nat) -> string,
                                      gv: Value, sv: Value, skip: bool, idx: nat, j: nat)
    requires j <= |d.metrics|
    ensures Scores(d, c, eta, gv, sv, skip, idx, j).Keys == NamesUpTo(d, j) + (if j == 0 then {} else {"eta"})
  {
    if j > 0 {
      ScoresKeys(d, c, eta, gv, sv, skip, idx, j - 1);
    }
  }

  /** Each metric written so far holds its own entry: no later metric or `eta` overwrites it. */
  lemma {:induction false} ScoresEntries(d: Descriptor, c: Collaborators, eta: (nat, nat) -> string,
                                         gv: Value, sv: Value, skip: bool, idx: nat, j: nat)
    requires j <= |d.metrics| && WellFormed(d)
    ensures forall k :: 0 <= k < j ==>
      && d.metrics[k].0 in Scores(d, c, eta, gv, sv, skip, idx, j)
      && Scores(d, c, eta, gv, sv, skip, idx, j)[d.metrics[k].0] == MetricValue(c, d.metrics[k].1, gv, sv, skip)
  {
    ScoresKeys(d, c, eta, gv, sv, skip, idx, j);
    if j > 0 {
      ScoresEntries(d, c, eta, gv, sv, skip, idx, j - 1);
      var r := Scores(d, c, eta, gv, sv, skip, idx, j);
      var prev := Scores(d, c, eta, gv, sv, skip, idx, j - 1);
      var last := d.metrics[j - 1];
      assert r == prev[last.0 := MetricValue(c, last.1, gv, sv, skip)]["eta" := VStr(eta(idx, j - 1))];
      forall k | 0 <= k < j
        ensures d.metrics[k].0 in r && r[d.metrics[k].0] == MetricValue(c, d.metrics[k].1, gv, sv, skip)
      {
        assert d.metrics[k].0 != "eta";
        if k < j - 1 {
          assert d.metrics[k].0 != last.0;
        }
      }
    }
  }

  /** Each node's complete dictionary: the metric names plus `eta`, with the node's entries. */
  lemma RowContents(d: Descriptor, c: Collaborators, eta: (nat, nat) -> string,
                    g: seq<Event>, s: seq<Event>, idx: nat)
    requires WellFormed(d)
    ensures var r := RowOf(d, c, eta, g, s, idx);
      && r.Keys == MetricNames(d) + {"eta"}
      && (forall k :: 0 <= k < |d.metrics| ==> d.metrics[k].0 in r && r[d.metrics[k].0] == MetricEntry(d, c, g, s, k))
      && r["eta"] == VStr(eta(idx, |d.metrics| - 1))
  {
    ScoresKeys(d, c, eta, MeasureSide(d, c, g), MeasureSide(d, c, s), g == [] || s == [], idx, |d.metrics|);
    ScoresEntries(d, c, eta, MeasureSide(d, c, g), MeasureSide(d, c, s), g == [] || s == [], idx, |d.metrics|);
  }

  /** Node scale: after `i` nodes the output has one key per node seen. */
  lemma {:induction false} NodeKeys(d: Descriptor, c: Collaborators, eta: (nat, nat) -> string,
                                    nodes: seq<string>, gs: seq<seq<Event>>, ss: seq<seq<Event>>, i: nat)
    requires d.scale == NodeScale && i <= |nodes| == |gs| == |ss|
    ensures forall n :: n in AfterNodes(d, c, eta, nodes, gs, ss, i).out <==> n in nodes[..i]
  {
    if i > 0 {
      assert nodes[..i] == nodes[..i - 1] + [nodes[i - 1]];
      NodeKeys(d, c, eta, nodes, gs, ss, i - 1);
    }
  }

  /** Node scale: a node's dictionary is the one written by its last occurrence so far. */
  lemma {:induction false} NodeRows(d: Descriptor, c: Collaborators, eta: (nat, nat) -> string,
                                    nodes: seq<string>, gs: seq<seq<Event>>, ss: seq<seq<Event>>, i: nat)
    requires d.scale == NodeScale && i <= |nodes| == |gs| == |ss|
    ensures forall k :: 0 <= k < i && (forall k' :: k < k' < i ==> nodes[k'] != nodes[k]) ==>
      && nodes[k] in AfterNodes(d, c, eta, nodes, gs, ss, i).out
      && AfterNodes(d, c, eta, nodes, gs, ss, i).out[nodes[k]] == VDict(RowOf(d, c, eta, gs[k], ss[k], k))
  {
    if i > 0 {
      NodeRows(d, c, eta, nodes, gs, ss, i - 1);
      var prev := AfterNodes(d, c, eta, nodes, gs, ss, i - 1).out;
      var out := AfterNodes(d, c, eta, nodes, gs, ss, i).out;
      var last := nodes[i - 1];
      assert out == prev[last := VDict(RowOf(d, c, eta, gs[i - 1], ss[i - 1], i - 1))];
      forall k | 0 <= k < i && (forall k' :: k < k' < i ==> nodes[k'] != nodes[k])
        ensures nodes[k] in out && out[nodes[k]] == VDict(RowOf(d, c, eta, gs[k], ss[k], k))
      {
        if k < i - 1 {
          assert nodes[k] != last;
          assert forall k' :: k < k' < i - 1 ==> nodes[k'] != nodes[k];
        }
      }
    }
  }

  /**
   * A call the engine may make: a measurement on a non-empty slice, or a
   * registered metric on the measurements of a node both of whose slices
   * are non-empty.
   */
  predicate SoundCall(d: Descriptor, c: Collaborators, gs: seq<seq<Event>>, ss: seq<seq<Event>>, call: Call)
    requires |gs| == |ss|
  {
    match call
    case Measured(fn, rows) =>
      fn == d.measurement && rows != [] &&
      exists k :: 0 <= k < |gs| && (rows == gs[k] || rows == ss[k])
    case Scored(fn, a, b) =>
      (exists j :: 0 <= j < |d.metrics| && fn == d.metrics[j].1) &&
      exists k :: 0 <= k < |gs| &&
        gs[k] != [] && ss[k] != [] && a == c.measure(d.measurement, gs[k]) && b == c.measure(d.measurement, ss[k])
  }

  /** The metric calls of one node: none when a side was empty, one per metric otherwise. */
  lemma {:induction false} ScoreCallsShape(d: Descriptor, gv: Value, sv: Value, skip: bool, j: nat)
    requires j <= |d.metrics|
    ensures skip ==> ScoreCalls(d, gv, sv, skip, j) == []
    ensures forall call :: call in ScoreCalls(d, gv, sv, skip, j) ==>
      exists m :: 0 <= m < j && call == Scored(d.metrics[m].1, gv, sv)
  {
    if j > 0 && !skip {
      ScoreCallsShape(d, gv, sv, skip, j - 1);
    }
  }

  lemma {:induction false} CallsAreSound(d: Descriptor, c: Collaborators, eta: (nat, nat) -> string,
                                         nodes: seq<string>, gs: seq<seq<Event>>, ss: seq<seq<Event>>, i: nat)
    requires i <= |nodes| == |gs| == |ss|
    ensures forall call :: call in AfterNodes(d, c, eta, nodes, gs, ss, i).calls ==> SoundCall(d, c, gs, ss, call)
  {
    if i > 0 {
      CallsAreSound(d, c, eta, nodes, gs, ss, i - 1);
      var g, s := gs[i - 1], ss[i - 1];
      var gv, sv := MeasureSide(d, c, g), MeasureSide(d, c, s);
      var skip := g == [] || s == [];
      ScoreCallsShape(d, gv, sv, skip, |d.metrics|);
      var prior := AfterNodes(d, c, eta, nodes, gs, ss, i - 1).calls;
      var calls := AfterNodes(d, c, eta, nodes, gs, ss, i).calls;
      assert calls == prior + MeasureCalls(d, g) + MeasureCalls(d, s) + ScoreCalls(d, gv, sv, skip, |d.metrics|);
      forall call | call in calls ensures SoundCall(d, c, gs, ss, call) {
        if call in ScoreCalls(d, gv, sv, skip, |d.metrics|) {
          var m :| 0 <= m < |d.metrics| && call == Scored(d.metrics[m].1, gv, sv);
        } else if call !in prior {
          assert call in MeasureCalls(d, g) || call in MeasureCalls(d, s);
        }
      }
    }
  }

  /**
   * A vacuous filter, and only a vacuous filter, makes `run_metrics` return
   * (None, None, None); it then calls nothing.
   */
  lemma RunMetricsVacuous(d: Descriptor, c: Collaborators, elapsed: (nat, nat) -> nat,
                          groundTruth: seq<Event>, simulation: seq<Event>,
                          users: Option<seq<string>>, repos: Option<seq<string>>)
    ensures var o := RunMetricsOf(d, c, elapsed, groundTruth, simulation, users, repos);
      (o.result.metrics == None <==> Vacuous(d, groundTruth, simulation)) &&
      (o.result.metrics == None ==> o.result == RunResult(VNone, VNone, None) && o.calls == [])
  {
  }

  /**
   * Every measurement call is on the non-empty rows of one resolved node (all
   * filtered rows at population scale), and every metric call is a
   * registered metric on the two measurements of a node both of whose sides
   * had rows.
   */
  lemma RunMetricsCalls(d: Descriptor, c: Collaborators, elapsed: (nat, nat) -> nat,
                        groundTruth: seq<Event>, simulation: seq<Event>,
                        users: Option<seq<string>>, repos: Option<seq<string>>)
    ensures var o := RunMetricsOf(d, c, elapsed, groundTruth, simulation, users, repos);
      var gt, sim := Filtered(d, groundTruth), Filtered(d, simulation);
      var nodes := ResolveNodes(d, gt, users, repos);
      forall call :: call in o.calls ==> SoundCall(d, c, Slices(d, gt, nodes), Slices(d, sim, nodes), call)
  {
    if !Vacuous(d, groundTruth, simulation) {
      var gt, sim := Filtered(d, groundTruth), Filtered(d, simulation);
      var nodes := ResolveNodes(d, gt, users, repos);
      CallsAreSound(d, c, Formatted(elapsed), nodes, Slices(d, gt, nodes), Slices(d, sim, nodes), |nodes|);
    }
  }

  /**
   * Node scale: the output has exactly one key per resolved node; each maps to
   * a dictionary of the metric names plus `eta`. A metric is None when either
   * side of the node is empty and the metric's score otherwise; `eta` is the
   * time after the last metric of the node's last occurrence.
   */
  lemma RunMetricsNodeScale(d: Descriptor, c: Collaborators, elapsed: (nat, nat) -> nat,
                            groundTruth: seq<Event>, simulation: seq<Event>,
                            users: Option<seq<string>>, repos: Option<seq<string>>)
    requires d.scale == NodeScale && WellFormed(d) && !Vacuous(d, groundTruth, simulation)
    ensures var o := RunMetricsOf(d, c, elapsed, groundTruth, simulation, users, repos);
      var gt, sim := Filtered(d, groundTruth), Filtered(d, simulation);
      var nodes := ResolveNodes(d, gt, users, repos);
      && o.result.metrics.Some?
      && (forall n :: n in o.result.metrics.value <==> n in nodes)
      && forall n :: n in nodes ==>
           var v := o.result.metrics.value[n];
           && v.VDict?
           && v.entries.Keys == MetricNames(d) + {"eta"}
           && (forall k :: 0 <= k < |d.metrics| ==>
                 v.entries[d.metrics[k].0] == MetricEntry(d, c, Subset(d, gt, n), Subset(d, sim, n), k))
           && v.entries["eta"] == VStr(PrettyTime(elapsed(LastIndex(nodes, n), |d.metrics| - 1)))
  {
    var gt, sim := Filtered(d, groundTruth), Filtered(d, simulation);
    var nodes := ResolveNodes(d, gt, users, repos);
    var eta := Formatted(elapsed);
    var gs, ss := Slices(d, gt, nodes), Slices(d, sim, nodes);
    NodeScaleOutput(d, c, eta, nodes, gs, ss);
    var out := AfterNodes(d, c, eta, nodes, gs, ss, |nodes|).out;
    forall n | n in nodes
      ensures var v := out[n];
        && v.VDict?
        && v.entries.Keys == MetricNames(d) + {"eta"}
        && (forall k :: 0 <= k < |d.metrics| ==>
              v.entries[d.metrics[k].0] == MetricEntry(d, c, Subset(d, gt, n), Subset(d, sim, n), k))
        && v.entries["eta"] == VStr(PrettyTime(elapsed(LastIndex(nodes, n), |d.metrics| - 1)))
    {
      var k := LastIndex(nodes, n);
      assert gs[k] == Subset(d, gt, n) && ss[k] == Subset(d, sim, n);
      RowContents(d, c, eta, gs[k], ss[k], k);
    }
  }

  /**
   * Node scale, after the whole node loop: one key per node, holding the
   * dictionary written by the node's last occurrence.
   */
  lemma NodeScaleOutput(d: Descriptor, c: Collaborators, eta: (nat, nat) -> string,
                        nodes: seq<string>, gs: seq<seq<Event>>, ss: seq<seq<Event>>)
    requires d.scale == NodeScale && |nodes| == |gs| == |ss|
    ensures var out := AfterNodes(d, c, eta, nodes, gs, ss, |nodes|).out;
      && (forall n :: n in out <==> n in nodes)
      && forall n :: n in nodes ==>
           out[n] == VDict(RowOf(d, c, eta, gs[LastIndex(nodes, n)], ss[LastIndex(nodes, n)], LastIndex(nodes, n)))
  {
    NodeKeys(d, c, eta, nodes, gs, ss, |nodes|);
    NodeRows(d, c, eta, nodes, gs, ss, |nodes|);
    assert nodes[..|nodes|] == nodes;
    forall n | n in nodes
      ensures AfterNodes(d, c, eta, nodes, gs, ss, |nodes|).out[n]
        == VDict(RowOf(d, c, eta, gs[LastIndex(nodes, n)], ss[LastIndex(nodes, n)], LastIndex(nodes, n)))
    {
      var k := LastIndex(nodes, n);
      assert nodes[k] == n;
    }
  }

  /**
   * Population scale: one pass over all the filtered rows; the output itself
   * is the dictionary of metric names plus `eta`, and the returned
   * measurements are those of the two whole frames (`[]` for an empty one).
   * The node lists play no part.
   */
  lemma RunMetricsPopulation(d: Descriptor, c: Collaborators, elapsed: (nat, nat) -> nat,
                             groundTruth: seq<Event>, simulation: seq<Event>,
                             users: Option<seq<string>>, repos: Option<seq<string>>)
    requires d.scale == PopulationScale && WellFormed(d) && !Vacuous(d, groundTruth, simulation)
    ensures var o := RunMetricsOf(d, c, elapsed, groundTruth, simulation, users, repos);
      var gt, sim := Filtered(d, groundTruth), Filtered(d, simulation);
      && o == RunMetricsOf(d, c, elapsed, groundTruth, simulation, None, None)
      && o.result.onGt == MeasureSide(d, c, gt)
      && o.result.onSim == MeasureSide(d, c, sim)
      && o.result.metrics.Some?
      && o.result.metrics.value.Keys == MetricNames(d) + {"eta"}
      && (forall k :: 0 <= k < |d.metrics| ==> o.result.metrics.value[d.metrics[k].0] == MetricEntry(d, c, gt, sim, k))
      && o.result.metrics.value["eta"] == VStr(PrettyTime(elapsed(0, |d.metrics| - 1)))
  {
    var gt, sim := Filtered(d, groundTruth), Filtered(d, simulation);
    var eta := Formatted(elapsed);
    var nodes := [""];
    var gs, ss := Slices(d, gt, nodes), Slices(d, sim, nodes);
    assert gs[0] == gt && ss[0] == sim;
    RowContents(d, c, eta, gt, sim, 0);
    var row := RowOf(d, c, eta, gt, sim, 0);
    assert AfterNodes(d, c, eta, nodes, gs, ss, 1).out == map[] + row;
    assert map[] + row == row;
  }

  /** An explicit empty node list: nothing is measured and the output is empty. */
  lemma RunMetricsNoNodes(d: Descriptor, c: Collaborators, elapsed: (nat, nat) -> nat,
                          groundTruth: seq<Event>, simulation: seq<Event>,
                          users: Option<seq<string>>, repos: Option<seq<string>>)
    requires d.scale == NodeScale && !Vacuous(d, groundTruth, simulation)
    requires (if d.nodeType == UserNode then users else repos) == Some([])
    ensures RunMetricsOf(d, c, elapsed, groundTruth, simulation, users, repos)
      == Outcome(RunResult(VNone, VNone, Some(map[])), [])
  {
  }

  /**
   * The returned measurements are those of the last node; only a side without
   * rows gets `[]`, the other side is still measured.
   */
  lemma RunMetricsLastNode(d: Descriptor, c: Collaborators, elapsed: (nat, nat) -> nat,
                           groundTruth: seq<Event>, simulation: seq<Event>,
                           users: Option<seq<string>>, repos: Option<seq<string>>)
    requires !Vacuous(d, groundTruth, simulation)
    requires ResolveNodes(d, Filtered(d, groundTruth), users, repos) != []
    ensures var o := RunMetricsOf(d, c, elapsed, groundTruth, simulation, users, repos);
      var gt, sim := Filtered(d, groundTruth), Filtered(d, simulation);
      var nodes := ResolveNodes(d, gt, users, repos);
      var g, s := Subset(d, gt, nodes[|nodes| - 1]), Subset(d, sim, nodes[|nodes| - 1]);
      && (g == [] ==> o.result.onGt == VList([]))
      && (g != [] ==> o.result.onGt == c.measure(d.measurement, g))
      && (s != [] ==> o.result.onSim == c.measure(d.measurement, s))
      && (s == [] ==> o.result.onSim == VList([]))
  {
  }

  /**
   * Without a node list, a node-scale measurement runs over at most 100 nodes,
   * each the id of a ground-truth row that passes the descriptor's filter:
   * nodes are ranked after filtering.
   */
  lemma RunMetricsDefaultNodes(d: Descriptor, groundTruth: seq<Event>, simulation: seq<Event>,
                               users: Option<seq<string>>, repos: Option<seq<string>>)
    requires d.scale == NodeScale && (if d.nodeType == UserNode then users else repos) == None
    ensures var gt := Filtered(d, groundTruth);
      var nodes := ResolveNodes(d, gt, users, repos);
      && nodes == DefaultNodes(gt, NodeField(d.nodeType))
      && |nodes| <= TopNodes
      && forall n :: n in nodes ==>
           exists e :: e in groundTruth && ValueOf(e, NodeField(d.nodeType)) == Some(n)
                       && (d.filters.Some? ==> AdmitsAll(d.filters.value, e))
  {
    var gt := Filtered(d, groundTruth);
    var f := NodeField(d.nodeType);
    DefaultNodesRanked(gt, f);
    forall n | n in DefaultNodes(gt, f)
      ensures exists e :: e in groundTruth && ValueOf(e, f) == Some(n) && (d.filters.Some? ==> AdmitsAll(d.filters.value, e))
    {
      var e :| e in gt && ValueOf(e, f) == Some(n);
      if d.filters.Some? {
        KeptOnlyAdmits(groundTruth, d.filters.value);
        KeptCounts(groundTruth, d.filters.value, e);
      }
    }
  }
}
