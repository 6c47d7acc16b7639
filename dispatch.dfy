/**
 * `run_metrics`: runs one registered measurement on the ground truth and on
 * the simulation and scores the two outputs with each of the descriptor's
 * metrics, per node for node-scale measurements, once for population-scale
 * ones.
 *
 * The measurement and metric functions live outside this component; they are
 * parameters here. Every call the engine makes to them is recorded in a call
 * log, so that "no metric is called" can be stated. The wall clock is an
 * input too: `elapsed(i, j)` is the number of whole seconds since the start
 * when the `j`-th metric of the `i`-th node has been computed.
 */
module Dispatch {
  import opened Wrappers
  import opened Events
  import opened Values
  import opened TimeFormat
  import opened Registry
  import opened Ranking

  /** The measurement and metric functions the engine is given. */
  datatype Collaborators = Collaborators(
    measure: (Fn, seq<Event>) -> Value,
    score: (Fn, Value, Value) -> Value)

  /** One call from the engine into a measurement or a metric. */
  datatype Call =
    | Measured(fn: Fn, rows: seq<Event>)
    | Scored(fn: Fn, onGt: Value, onSim: Value)

  /** The triple `run_metrics` returns; `metrics` is None after a vacuous filter. */
  datatype RunResult = RunResult(onGt: Value, onSim: Value, metrics: Option<map<string, Value>>)

  datatype Outcome = Outcome(result: RunResult, calls: seq<Call>)

  /** The variables the node loop updates. */
  datatype LoopState = LoopState(onGt: Value, onSim: Value, out: map<string, Value>, calls: seq<Call>)

  function NodeField(t: NodeType): Field
  {
    match t
    case UserNode => User
    case RepoNode => Repo
  }

  /** The nodes to iterate over, given the already filtered ground truth. */
  function ResolveNodes(d: Descriptor, gt: seq<Event>, users: Option<seq<string>>, repos: Option<seq<string>>): seq<string>
  {
    if d.scale == PopulationScale then [""]
    else
      var given := if d.nodeType == UserNode then users else repos;
      if given.Some? then given.value else DefaultNodes(gt, NodeField(d.nodeType))
  }

  /** The rows one iteration works on: the node's own rows, or all of them. */
  function Subset(d: Descriptor, data: seq<Event>, node: string): seq<Event>
  {
    if d.scale == NodeScale then Kept(data, [Clause(NodeField(d.nodeType), [node])]) else data
  }

  /** The measurement of one side; an empty side gives the empty list without a call. */
  function MeasureSide(d: Descriptor, c: Collaborators, rows: seq<Event>): Value
  {
    if rows == [] then VList([]) else c.measure(d.measurement, rows)
  }

  function MeasureCalls(d: Descriptor, rows: seq<Event>): seq<Call>
  {
    if rows == [] then [] else [Measured(d.measurement, rows)]
  }

  /** A metric's entry: None when either side was empty. */
  function MetricValue(c: Collaborators, fn: Fn, onGt: Value, onSim: Value, skip: bool): Value
  {
    if skip then VNone else c.score(fn, onGt, onSim)
  }

  /**
   * The metric dictionary after the first `j` metrics of node number `idx`:
   * each metric's entry, then `eta` rewritten.
   */
  function Scores(d: Descriptor, c: Collaborators, eta: (nat, nat) -> string,
                  onGt: Value, onSim: Value, skip: bool, idx: nat, j: nat): map<string, Value>
    requires j <= |d.metrics|
  {
    if j == 0 then map[]
    else
      var (name, fn) := d.metrics[j - 1];
      Scores(d, c, eta, onGt, onSim, skip, idx, j - 1)
        [name := MetricValue(c, fn, onGt, onSim, skip)]
        ["eta" := VStr(eta(idx, j - 1))]
  }

  function ScoreCalls(d: Descriptor, onGt: Value, onSim: Value, skip: bool, j: nat): seq<Call>
    requires j <= |d.metrics|
  {
    if j == 0 || skip then []
    else ScoreCalls(d, onGt, onSim, skip, j - 1) + [Scored(d.metrics[j - 1].1, onGt, onSim)]
  }

  /** The rows of every node, in node order: what each pass of the node loop works on. */
  function Slices(d: Descriptor, data: seq<Event>, nodes: seq<string>): (r: seq<seq<Event>>)
    ensures |r| == |nodes|
    ensures forall k :: 0 <= k < |nodes| ==> r[k] == Subset(d, data, nodes[k])
  {
    seq(|nodes|, k requires 0 <= k < |nodes| => Subset(d, data, nodes[k]))
  }

  /** The complete metric dictionary of node number `idx`, whose rows are `g` and `s`. */
  function RowOf(d: Descriptor, c: Collaborators, eta: (nat, nat) -> string,
                 g: seq<Event>, s: seq<Event>, idx: nat): map<string, Value>
  {
    Scores(d, c, eta, MeasureSide(d, c, g), MeasureSide(d, c, s), g == [] || s == [], idx, |d.metrics|)
  }

  /** One iteration of the node loop, on node number `idx` whose rows are `g` and `s`. */
  function Step(d: Descriptor, c: Collaborators, eta: (nat, nat) -> string,
                node: string, g: seq<Event>, s: seq<Event>, idx: nat,
                out: map<string, Value>, calls: seq<Call>): LoopState
  {
    var gv := MeasureSide(d, c, g);
    var sv := MeasureSide(d, c, s);
    LoopState(gv, sv, Written(d.scale, out, node, RowOf(d, c, eta, g, s, idx)),
      calls + MeasureCalls(d, g) + MeasureCalls(d, s) + ScoreCalls(d, gv, sv, g == [] || s == [], |d.metrics|))
  }

  /** The loop variables after the first `i` nodes; `gs` and `ss` are the nodes' slices. */
  function AfterNodes(d: Descriptor, c: Collaborators, eta: (nat, nat) -> string,
                      nodes: seq<string>, gs: seq<seq<Event>>, ss: seq<seq<Event>>, i: nat): LoopState
    requires i <= |nodes| == |gs| == |ss|
  {
    if i == 0 then LoopState(VNone, VNone, map[], [])
    else
      var st := AfterNodes(d, c, eta, nodes, gs, ss, i - 1);
      Step(d, c, eta, nodes[i - 1], gs[i - 1], ss[i - 1], i - 1, st.out, st.calls)
  }

  /** The `eta` text written after metric `j` of node number `i`. */
  function Formatted(elapsed: (nat, nat) -> nat): (nat, nat) -> string
  {
    (i: nat, j: nat) => PrettyTime(elapsed(i, j))
  }

  /** The data after the descriptor's own filter, if it has one. */
  function Filtered(d: Descriptor, data: seq<Event>): seq<Event>
  {
    if d.filters.Some? then Kept(data, d.filters.value) else data
  }

  /** A filter that leaves either side without rows. */
  predicate Vacuous(d: Descriptor, groundTruth: seq<Event>, simulation: seq<Event>)
  {
    d.filters.Some? && (Filtered(d, groundTruth) == [] || Filtered(d, simulation) == [])
  }

  /** What `run_metrics` returns and which calls it makes. */
  function RunMetricsOf(d: Descriptor, c: Collaborators, elapsed: (nat, nat) -> nat,
                        groundTruth: seq<Event>, simulation: seq<Event>,
                        users: Option<seq<string>>, repos: Option<seq<string>>): (r: Outcome)
    ensures r.result.metrics.None? <==> Vacuous(d, groundTruth, simulation)
    ensures Vacuous(d, groundTruth, simulation) ==> r.calls == []
  {
    if Vacuous(d, groundTruth, simulation) then Outcome(RunResult(VNone, VNone, None), [])
    else
      var gt := Filtered(d, groundTruth);
      var sim := Filtered(d, simulation);
      var nodes := ResolveNodes(d, gt, users, repos);
      var st := AfterNodes(d, c, Formatted(elapsed), nodes, Slices(d, gt, nodes), Slices(d, sim, nodes), |nodes|);
      Outcome(RunResult(st.onGt, st.onSim, Some(st.out)), st.calls)
  }

  /**
   * `run_metrics`: filters both frames, resolves the nodes, then for each node
   * measures both sides and writes each metric and the running `eta` into the
   * node's dictionary (node scale) or into the output itself (population).
   */
  method RunMetrics(d: Descriptor, c: Collaborators, elapsed: (nat, nat) -> nat,
                    groundTruth: seq<Event>, simulation: seq<Event>,
                    users: Option<seq<string>>, repos: Option<seq<string>>)
    returns (r: RunResult, calls: seq<Call>)
    ensures Outcome(r, calls) == RunMetricsOf(d, c, elapsed, groundTruth, simulation, users, repos)
  {
    var gt, sim := groundTruth, simulation;
    if d.filters.Some? {
      gt := Prefilter(groundTruth, d.filters.value);
      sim := Prefilter(simulation, d.filters.value);
      if gt == [] || sim == [] {
        return RunResult(VNone, VNone, None), [];
      }
    }
    var nodes := ResolveNodes(d, gt, users, repos);
    var eta := Formatted(elapsed);
    ghost var gs, ss := Slices(d, gt, nodes), Slices(d, sim, nodes);
    var onGt, onSim := VNone, VNone;
    var out: map<string, Value> := map[];
    calls := [];
    for i := 0 to |nodes|
      invariant LoopState(onGt, onSim, out, calls) == AfterNodes(d, c, eta, nodes, gs, ss, i)
    {
      onGt, onSim, out, calls := RunNode(d, c, eta, gt, sim, nodes[i], i, out, calls);
    }
    r := RunResult(onGt, onSim, Some(out));
  }

  /**
   * One pass of the node loop: selects the node's rows, measures each side
   * that has rows (an empty side is `[]`), then runs the metric loop.
   */
  method RunNode(d: Descriptor, c: Collaborators, eta: (nat, nat) -> string,
                 gt: seq<Event>, sim: seq<Event>, node: string, i: nat,
                 out0: map<string, Value>, calls0: seq<Call>)
    returns (onGt: Value, onSim: Value, out: map<string, Value>, calls: seq<Call>)
    ensures LoopState(onGt, onSim, out, calls)
      == Step(d, c, eta, node, Subset(d, gt, node), Subset(d, sim, node), i, out0, calls0)
  {
    out, calls := out0, calls0;
    var g, s := gt, sim;
    if d.scale == NodeScale {
      out := out[node := VDict(map[])];
      g := Prefilter(gt, [Clause(NodeField(d.nodeType), [node])]);
      s := Prefilter(sim, [Clause(NodeField(d.nodeType), [node])]);
    }
    assert g == Subset(d, gt, node) && s == Subset(d, sim, node);
    var skip;
    onGt, onSim, skip, calls := MeasureBoth(d, c, g, s, calls);
    ghost var cleared := out;
    out, calls := WriteScores(d, c, eta, node, i, onGt, onSim, skip, out, calls);
    ghost var row := RowOf(d, c, eta, g, s, i);
    assert Written(d.scale, cleared, node, row) == Written(d.scale, out0, node, row);
  }

  /** Measures each side that has rows; an empty side is `[]` and makes the node skip its metrics. */
  method MeasureBoth(d: Descriptor, c: Collaborators, g: seq<Event>, s: seq<Event>, calls0: seq<Call>)
    returns (onGt: Value, onSim: Value, skip: bool, calls: seq<Call>)
    ensures onGt == MeasureSide(d, c, g) && onSim == MeasureSide(d, c, s)
    ensures skip == (g == [] || s == [])
    ensures calls == calls0 + MeasureCalls(d, g) + MeasureCalls(d, s)
  {
    calls := calls0;
    skip := false;
    if |g| > 0 {
      onGt := c.measure(d.measurement, g);
      calls := calls + [Measured(d.measurement, g)];
    } else {
      skip := true;
      onGt := VList([]);
    }
    if |s| > 0 {
      onSim := c.measure(d.measurement, s);
      calls := calls + [Measured(d.measurement, s)];
    } else {
      skip := true;
      onSim := VList([]);
    }
  }

  /**
   * The metric loop of one node: computes each metric (unless a side was
   * empty) and writes it, then the running `eta`, into the node's dictionary
   * or, for population scale, into the output itself.
   */
  method WriteScores(d: Descriptor, c: Collaborators, eta: (nat, nat) -> string, node: string, i: nat,
                     onGt: Value, onSim: Value, skip: bool, out0: map<string, Value>, calls0: seq<Call>)
    returns (out: map<string, Value>, calls: seq<Call>)
    requires d.scale == NodeScale ==> node in out0 && out0[node] == VDict(map[])
    ensures out == Written(d.scale, out0, node, Scores(d, c, eta, onGt, onSim, skip, i, |d.metrics|))
    ensures calls == calls0 + ScoreCalls(d, onGt, onSim, skip, |d.metrics|)
  {
    out, calls := out0, calls0;
    assert out0 + map[] == out0;
    for j := 0 to |d.metrics|
      invariant out == Written(d.scale, out0, node, Scores(d, c, eta, onGt, onSim, skip, i, j))
      invariant calls == calls0 + ScoreCalls(d, onGt, onSim, skip, j)
    {
      var name := d.metrics[j].0;
      var metric := VNone;
      if !skip {
        metric := c.score(d.metrics[j].1, onGt, onSim);
        calls := calls + [Scored(d.metrics[j].1, onGt, onSim)];
      }
      var text := VStr(eta(i, j));
      ghost var prev := Scores(d, c, eta, onGt, onSim, skip, i, j);
      assert Scores(d, c, eta, onGt, onSim, skip, i, j + 1) == prev[name := metric]["eta" := text];
      WriteTwice(d.scale, out0, node, prev, name, metric, text);
      if d.scale == NodeScale {
        out := out[node := VDict(out[node].entries[name := metric])];
        out := out[node := VDict(out[node].entries["eta" := text])];
      } else {
        out := out[name := metric];
        out := out["eta" := text];
      }
    }
  }

  /** The output once a node's dictionary `row` is in place. */
  function Written(scale: Scale, base: map<string, Value>, node: string, row: map<string, Value>): map<string, Value>
  {
    if scale == NodeScale then base[node := VDict(row)] else base + row
  }

  /** Writing a metric and then `eta` through the node's dictionary extends `row` by both. */
  lemma WriteTwice(scale: Scale, base: map<string, Value>, node: string, row: map<string, Value>,
                   name: string, v: Value, eta: Value)
    ensures var out := Written(scale, base, node, row);
      scale == NodeScale ==>
        var once := out[node := VDict(out[node].entries[name := v])];
        once[node := VDict(once[node].entries["eta" := eta])] == Written(scale, base, node, row[name := v]["eta" := eta])
    ensures scale == PopulationScale ==>
      Written(scale, base, node, row)[name := v]["eta" := eta] == Written(scale, base, node, row[name := v]["eta" := eta])
  {
  }
}
