/**
 * `run_all_metrics`: selects the registered measurements of the requested
 * scale and node type, runs each with `run_metrics`, attaches the
 * descriptor (minus its measurement callable) as `metadata`, and finishes
 * with a top-level `eta`.
 *
 * When a descriptor's filter leaves a side empty, `run_metrics` gives None
 * for the metric dictionary and the following `metadata` assignment raises
 * a TypeError: the battery stops there. That abort is the Failure result.
 */
module Battery {
  import opened Wrappers
  import opened Events
  import opened Values
  import opened TimeFormat
  import opened Registry
  import opened Dispatch
  import opened DispatchProperties

  /** The TypeError raised by `None["metadata"] = ...` for this measurement. */
  datatype BatteryError = MetadataOnNone(measurement: Measurement)

  /** `{x: d[x] for x in d if x not in keys}`. */
  function WithoutKeys(dict: map<string, Value>, keys: seq<string>): (r: map<string, Value>)
    ensures forall x :: x in r <==> x in dict && x !in keys
    ensures forall x :: x in r ==> r[x] == dict[x]
  {
    map x | x in dict && x !in keys :: dict[x]
  }

  /** The `metadata` entry: the descriptor without its measurement callable. */
  function Metadata(d: Descriptor): (r: map<string, Value>)
    ensures "measurement" !in r
    ensures forall x :: x in r <==> x in AsDict(d) && x != "measurement"
    ensures forall x :: x in r ==> r[x] == AsDict(d)[x]
  {
    WithoutKeys(AsDict(d), ["measurement"])
  }

  /**
   * The selection test of the comprehension: the arguments are compared with
   * the descriptor's `scale` and `node_type` strings; None selects everything.
   */
  predicate Matches(d: Descriptor, scale: Option<string>, nodeType: Option<string>)
  {
    (scale.None? || ScaleName(d.scale) == scale.value) && (nodeType.None? || NodeTypeName(d.nodeType) == nodeType.value)
  }

  /** The selected entries of the registry, in registry order. */
  function Selection(params: Params, scale: Option<string>, nodeType: Option<string>): (r: Params)
    ensures forall e :: e in r <==> e in params && Matches(e.1, scale, nodeType)
  {
    if params == [] then []
    else
      assert forall e :: e in params <==> e == params[0] || e in params[1..];
      (if Matches(params[0].1, scale, nodeType) then [params[0]] else []) + Selection(params[1..], scale, nodeType)
  }

  /** The elapsed seconds of measurement `m`, as `run_metrics` sees them. */
  function Clock(elapsed: (Measurement, nat, nat) -> nat, m: Measurement): (nat, nat) -> nat
  {
    (i: nat, j: nat) => elapsed(m, i, j)
  }

  /**
   * The `run_metrics` of the battery on its fixed arguments: measurement `m`
   * with descriptor `d`, timed by `m`'s own clock.
   */
  function Runner(c: Collaborators, elapsed: (Measurement, nat, nat) -> nat,
                  groundTruth: seq<Event>, simulation: seq<Event>,
                  users: Option<seq<string>>, repos: Option<seq<string>>): (Measurement, Descriptor) -> Outcome
  {
    (m: Measurement, d: Descriptor) => RunMetricsOf(d, c, Clock(elapsed, m), groundTruth, simulation, users, repos)
  }

  /** What `run` gives for each selected entry, in order. */
  function Outcomes(run: (Measurement, Descriptor) -> Outcome, entries: Params): (r: seq<Outcome>)
    ensures |r| == |entries|
    ensures forall k :: 0 <= k < |entries| ==> r[k] == run(entries[k].0, entries[k].1)
  {
    seq(|entries|, k requires 0 <= k < |entries| => run(entries[k].0, entries[k].1))
  }

  /** The battery's loop variables, and the measurement that aborted it, if any. */
  datatype Progress = Progress(results: map<string, Value>, calls: seq<Call>, failed: Option<Measurement>)

  /** The report entry of one measurement: its metric dictionary plus `metadata`. */
  function Entry(metadata: map<string, Value>, metrics: map<string, Value>): Value
  {
    VDict(metrics["metadata" := VDict(metadata)])
  }

  /**
   * The loop variables after the first `i` selected entries, whose outcomes
   * are `outs`; `key` names each measurement in the report and `meta` gives
   * its metadata (they are `Key` and `Metadata`).
   */
  function Collect(entries: Params, outs: seq<Outcome>, key: Measurement -> string,
                   meta: Descriptor -> map<string, Value>, i: nat): Progress
    requires i <= |entries| == |outs|
  {
    if i == 0 then Progress(map[], [], None)
    else
      var prev := Collect(entries, outs, key, meta, i - 1);
      if prev.failed.Some? then prev
      else
        var o := outs[i - 1];
        var calls := prev.calls + o.calls;
        if o.result.metrics.None? then Progress(prev.results, calls, Some(entries[i - 1].0))
        else Progress(prev.results[key(entries[i - 1].0) := Entry(meta(entries[i - 1].1), o.result.metrics.value)], calls, None)
  }

  /**
   * The battery's result over `entries` run by `run`: the first abort, or the
   * collected entries plus `eta`; and the calls made on the way.
   */
  function Report(run: (Measurement, Descriptor) -> Outcome, key: Measurement -> string,
                  meta: Descriptor -> map<string, Value>, eta: string, entries: Params)
    : (Result<map<string, Value>, BatteryError>, seq<Call>)
  {
    var p := Collect(entries, Outcomes(run, entries), key, meta, |entries|);
    if p.failed.Some? then (Failure(MetadataOnNone(p.failed.value)), p.calls)
    else (Success(p.results["eta" := VStr(eta)]), p.calls)
  }

  /**
   * What `run_all_metrics` returns (or raises) and which calls it makes, when
   * each selected measurement is run by `run`; `eta` is the battery's
   * formatted elapsed time.
   */
  function RunAllMetricsOf(run: (Measurement, Descriptor) -> Outcome, eta: string,
                           scale: Option<string>, nodeType: Option<string>)
    : (Result<map<string, Value>, BatteryError>, seq<Call>)
  {
    Report(run, Key, Metadata, eta, Selection(MeasurementParams(), scale, nodeType))
  }

  /**
   * `run_all_metrics`. `elapsed(m, i, j)` is the clock inside the run of
   * measurement `m`; `total` is the battery's own elapsed time at the end.
   */
  method RunAllMetrics(c: Collaborators, elapsed: (Measurement, nat, nat) -> nat, total: nat,
                       groundTruth: seq<Event>, simulation: seq<Event>,
                       scale: Option<string>, nodeType: Option<string>,
                       users: Option<seq<string>>, repos: Option<seq<string>>)
    returns (r: Result<map<string, Value>, BatteryError>, calls: seq<Call>)
    ensures (r, calls) == RunAllMetricsOf(Runner(c, elapsed, groundTruth, simulation, users, repos),
                                          PrettyTime(total), scale, nodeType)
  {
    var entries := Selection(MeasurementParams(), scale, nodeType);
    var p := RunEntries(c, elapsed, groundTruth, simulation, users, repos, entries);
    calls := p.calls;
    if p.failed.Some? {
      r := Failure(MetadataOnNone(p.failed.value));
    } else {
      var results := p.results["eta" := VStr(PrettyTime(total))];
      r := Success(results);
    }
  }

  /** The loop of `run_all_metrics` over the selected entries; it stops at the first abort. */
  method RunEntries(c: Collaborators, elapsed: (Measurement, nat, nat) -> nat,
                    groundTruth: seq<Event>, simulation: seq<Event>,
                    users: Option<seq<string>>, repos: Option<seq<string>>, entries: Params)
    returns (p: Progress)
    ensures p == Collect(entries, Outcomes(Runner(c, elapsed, groundTruth, simulation, users, repos), entries),
                         Key, Metadata, |entries|)
  {
    ghost var run := Runner(c, elapsed, groundTruth, simulation, users, repos);
    ghost var outs := Outcomes(run, entries);
    var results: map<string, Value> := map[];
    var calls: seq<Call> := [];
    for i := 0 to |entries|
      invariant Collect(entries, outs, Key, Metadata, i) == Progress(results, calls, None)
    {
      var (m, d) := entries[i];
      var res, cs := RunEntry(c, elapsed, groundTruth, simulation, users, repos, m, d);
      assert outs[i] == Outcome(res, cs);
      ghost var before := Progress(results, calls, None);
      calls := calls + cs;
      if res.metrics.None? {
        assert Collect(entries, outs, Key, Metadata, i + 1) == Progress(results, calls, Some(m)) by {
          CollectStep(entries, outs, Key, Metadata, i);
        }
        CollectStops(entries, outs, Key, Metadata, i + 1);
        return Progress(results, calls, Some(m));
      }
      results := results[Key(m) := VDict(res.metrics.value)];
      results := results[Key(m) := VDict(results[Key(m)].entries["metadata" := VDict(Metadata(d))])];
      assert Collect(entries, outs, Key, Metadata, i + 1) == Progress(results, calls, None) by {
        CollectStep(entries, outs, Key, Metadata, i);
        assert results == before.results[Key(m) := Entry(Metadata(d), res.metrics.value)];
      }
    }
    p := Progress(results, calls, None);
  }

  /** `run_metrics` on one selected entry, timed by that measurement's clock. */
  method RunEntry(c: Collaborators, elapsed: (Measurement, nat, nat) -> nat,
                  groundTruth: seq<Event>, simulation: seq<Event>,
                  users: Option<seq<string>>, repos: Option<seq<string>>, m: Measurement, d: Descriptor)
    returns (r: RunResult, calls: seq<Call>)
    ensures Outcome(r, calls) == Runner(c, elapsed, groundTruth, simulation, users, repos)(m, d)
  {
    r, calls := RunMetrics(d, c, Clock(elapsed, m), groundTruth, simulation, users, repos);
  }

  /** One more entry: the loop body of `run_all_metrics` on the state after `i` entries. */
  lemma CollectStep(entries: Params, outs: seq<Outcome>, key: Measurement -> string,
                    meta: Descriptor -> map<string, Value>, i: nat)
    requires i < |entries| == |outs| && Collect(entries, outs, key, meta, i).failed.None?
    ensures var p := Collect(entries, outs, key, meta, i);
      var o := outs[i];
      Collect(entries, outs, key, meta, i + 1) ==
        if o.result.metrics.None? then Progress(p.results, p.calls + o.calls, Some(entries[i].0))
        else Progress(p.results[key(entries[i].0) := Entry(meta(entries[i].1), o.result.metrics.value)],
                      p.calls + o.calls, None)
  {
  }

  /** Once the battery has aborted, later entries change nothing. */
  lemma {:induction false} CollectStops(entries: Params, outs: seq<Outcome>, key: Measurement -> string,
                                          meta: Descriptor -> map<string, Value>, i: nat)
    requires 0 < i <= |entries| == |outs| && Collect(entries, outs, key, meta, i).failed.Some?
    ensures Collect(entries, outs, key, meta, |entries|) == Collect(entries, outs, key, meta, i)
    decreases |entries| - i
  {
    if i < |entries| {
      CollectStops(entries, outs, key, meta, i + 1);
    }
  }

  /** The selection test for a registry id, read off the two id lists. */
  predicate Selected(m: Measurement, scale: Option<string>, nodeType: Option<string>)
  {
    && (scale.None? || (if m in NodeScaleIds then "node" else "population") == scale.value)
    && (nodeType.None? || (if m in UserOrder then "user" else "repo") == nodeType.value)
  }

  lemma SelectedMatches(m: Measurement, scale: Option<string>, nodeType: Option<string>)
    ensures Selected(m, scale, nodeType) == Matches(Describe(m), scale, nodeType)
  {
    NodeScaleEntries(m);
    UserNodeEntries(m);
  }

  /** The measurements of `ids` that the selection keeps, in order. */
  function SelectIds(ids: seq<Measurement>, scale: Option<string>, nodeType: Option<string>): seq<Measurement>
  {
    if ids == [] then []
    else (if Selected(ids[0], scale, nodeType) then [ids[0]] else []) + SelectIds(ids[1..], scale, nodeType)
  }

  /** Selecting from registry entries keeps the entries of the selected ids, in their order. */
  lemma {:induction false} SelectionOfEntries(ids: seq<Measurement>, scale: Option<string>, nodeType: Option<string>)
    ensures Selection(Entries(ids), scale, nodeType) == Entries(SelectIds(ids, scale, nodeType))
  {
    if ids != [] {
      var front := if Selected(ids[0], scale, nodeType) then [ids[0]] else [];
      SelectionOfEntriesStep(ids, scale, nodeType);
      SelectionOfEntries(ids[1..], scale, nodeType);
      EntriesAppend(front, SelectIds(ids[1..], scale, nodeType));
    }
  }

  /** One step of the selection over registry entries: the head entry is kept exactly when its id is selected. */
  lemma SelectionOfEntriesStep(ids: seq<Measurement>, scale: Option<string>, nodeType: Option<string>)
    requires ids != []
    ensures Selection(Entries(ids), scale, nodeType)
         == Entries(if Selected(ids[0], scale, nodeType) then [ids[0]] else []) + Selection(Entries(ids[1..]), scale, nodeType)
  {
    SelectedMatches(ids[0], scale, nodeType);
    assert Entries(ids)[0] == (ids[0], Describe(ids[0]));
    assert Entries(ids)[1..] == Entries(ids[1..]);
  }

  lemma EntriesAppend(a: seq<Measurement>, b: seq<Measurement>)
    ensures Entries(a + b) == Entries(a) + Entries(b)
  {
  }

  lemma {:induction false} SelectIdsAppend(a: seq<Measurement>, b: seq<Measurement>, scale: Option<string>, nodeType: Option<string>)
    ensures SelectIds(a + b, scale, nodeType) == SelectIds(a, scale, nodeType) + SelectIds(b, scale, nodeType)
  {
    if a != [] {
      var head := if Selected(a[0], scale, nodeType) then [a[0]] else [];
      assert (a + b)[0] == a[0] && (a + b)[1..] == a[1..] + b;
      assert SelectIds(a + b, scale, nodeType) == head + SelectIds(a[1..] + b, scale, nodeType);
      SelectIdsAppend(a[1..], b, scale, nodeType);
    } else {
      assert a + b == b;
    }
  }

  /** Selection keeps a dictionary's keys distinct. */
  lemma {:induction false} SelectionDistinct(params: Params, scale: Option<string>, nodeType: Option<string>)
    requires DistinctNames(params)
    ensures DistinctNames(Selection(params, scale, nodeType))
  {
    if params != [] {
      SelectionDistinct(params[1..], scale, nodeType);
      var rest := Selection(params[1..], scale, nodeType);
      forall j | 0 <= j < |rest| ensures rest[j].0 != params[0].0 {
        assert rest[j] in params[1..];
      }
    }
  }

  /** Without a scale or node type, every registry entry is run, in registry order. */
  lemma {:induction false} SelectAll(params: Params)
    ensures Selection(params, None, None) == params
  {
    if params != [] {
      SelectAll(params[1..]);
    }
  }

  lemma {:induction false} SelectIdsAll(ids: seq<Measurement>, scale: Option<string>, nodeType: Option<string>)
    requires forall k :: 0 <= k < |ids| ==> Selected(ids[k], scale, nodeType)
    ensures SelectIds(ids, scale, nodeType) == ids
  {
    if ids != [] {
      SelectIdsAll(ids[1..], scale, nodeType);
    }
  }

  lemma {:induction false} SelectIdsNone(ids: seq<Measurement>, scale: Option<string>, nodeType: Option<string>)
    requires forall k :: 0 <= k < |ids| ==> !Selected(ids[k], scale, nodeType)
    ensures SelectIds(ids, scale, nodeType) == []
  {
    if ids != [] {
      SelectIdsNone(ids[1..], scale, nodeType);
    }
  }

  lemma UserOrderNodeScale()
    ensures SelectIds(UserOrder, Some("node"), None) == [UserActivityTimeline]
  {
    var front, back := UserOrder[..1], UserOrder[1..2];
    var rest := UserOrder[2..];
    assert UserOrder == front + (back + rest);
    assert forall k :: 0 <= k < |rest| ==> rest[k] !in NodeScaleIds;
    SelectIdsNone(front, Some("node"), None);
    SelectIdsAll(back, Some("node"), None);
    SelectIdsNone(rest, Some("node"), None);
    SelectIdsAppend(back, rest, Some("node"), None);
    SelectIdsAppend(front, back + rest, Some("node"), None);
  }

  lemma UserOrderPopulationScale()
    ensures |SelectIds(UserOrder, Some("population"), None)| == 7
  {
    var front, back := UserOrder[..1], UserOrder[1..2];
    var rest := UserOrder[2..];
    assert UserOrder == front + (back + rest);
    assert forall k :: 0 <= k < |rest| ==> rest[k] !in NodeScaleIds;
    SelectIdsAll(front, Some("population"), None);
    SelectIdsNone(back, Some("population"), None);
    SelectIdsAll(rest, Some("population"), None);
    SelectIdsAppend(back, rest, Some("population"), None);
    SelectIdsAppend(front, back + rest, Some("population"), None);
  }

  lemma RepoOrderNodeScale()
    ensures SelectIds(RepoOrder, Some("node"), None) == RepoOrder[..5]
  {
    var front, back := RepoOrder[..5], RepoOrder[5..];
    assert RepoOrder == front + back;
    assert forall k :: 0 <= k < 5 ==> front[k] in NodeScaleIds;
    assert forall k :: 0 <= k < 12 ==> back[k] !in NodeScaleIds;
    SelectIdsAll(front, Some("node"), None);
    SelectIdsNone(back, Some("node"), None);
    SelectIdsAppend(front, back, Some("node"), None);
  }

  lemma RepoOrderPopulationScale()
    ensures SelectIds(RepoOrder, Some("population"), None) == RepoOrder[5..]
  {
    var front, back := RepoOrder[..5], RepoOrder[5..];
    assert RepoOrder == front + back;
    assert forall k :: 0 <= k < 5 ==> front[k] in NodeScaleIds;
    assert forall k :: 0 <= k < 12 ==> back[k] !in NodeScaleIds;
    SelectIdsNone(front, Some("population"), None);
    SelectIdsAll(back, Some("population"), None);
    SelectIdsAppend(front, back, Some("population"), None);
  }

  /** No repo-centric id is in the user-centric literal. */
  lemma RepoOrderNotUser()
    ensures forall k :: 0 <= k < |RepoOrder| ==> RepoOrder[k] !in UserOrder
  {
    OrderFacts();
    var all := UserOrder + RepoOrder;
    forall k | 0 <= k < |RepoOrder| ensures RepoOrder[k] !in UserOrder {
      assert all[8 + k] == RepoOrder[k];
    }
  }

  lemma UserOrderAsUser()
    ensures SelectIds(UserOrder, None, Some("user")) == UserOrder
  {
    forall k | 0 <= k < |UserOrder| ensures Selected(UserOrder[k], None, Some("user")) {
      assert UserOrder[k] in UserOrder;
    }
    SelectIdsAll(UserOrder, None, Some("user"));
  }

  lemma UserOrderAsRepo()
    ensures SelectIds(UserOrder, None, Some("repo")) == []
  {
    forall k | 0 <= k < |UserOrder| ensures !Selected(UserOrder[k], None, Some("repo")) {
      assert UserOrder[k] in UserOrder;
    }
    SelectIdsNone(UserOrder, None, Some("repo"));
  }

  lemma RepoOrderByNodeType()
    ensures SelectIds(RepoOrder, None, Some("user")) == []
    ensures SelectIds(RepoOrder, None, Some("repo")) == RepoOrder
  {
    RepoOrderNotUser();
    SelectIdsNone(RepoOrder, None, Some("user"));
    SelectIdsAll(RepoOrder, None, Some("repo"));
  }

  lemma NodeScaleIdsSplit()
    ensures [UserActivityTimeline] + RepoOrder[..5] == NodeScaleIds
  {
    var r := [UserActivityTimeline] + RepoOrder[..5];
    assert forall k :: 0 <= k < 6 ==> r[k] == NodeScaleIds[k];
  }

  /**
   * `scale="node"` selects exactly the six node-scale measurements, in registry
   * order, and `scale="population"` the other nineteen.
   */
  lemma NodeScaleSelection()
    ensures Selection(MeasurementParams(), Some("node"), None) == Entries(NodeScaleIds)
    ensures |Selection(MeasurementParams(), Some("population"), None)| == 19
  {
    MeasurementParamsMerge();
    UserOrderNodeScale();
    RepoOrderNodeScale();
    UserOrderPopulationScale();
    RepoOrderPopulationScale();
    SelectionOfEntries(UserOrder + RepoOrder, Some("node"), None);
    SelectIdsAppend(UserOrder, RepoOrder, Some("node"), None);
    NodeScaleIdsSplit();
    SelectionOfEntries(UserOrder + RepoOrder, Some("population"), None);
    SelectIdsAppend(UserOrder, RepoOrder, Some("population"), None);
  }

  /**
   * `node_type="user"` selects exactly the user-centric literal and
   * `node_type="repo"` exactly the repo-centric one.
   */
  lemma NodeTypeSelection()
    ensures Selection(MeasurementParams(), None, Some("user")) == UserParams()
    ensures Selection(MeasurementParams(), None, Some("repo")) == RepoParams()
  {
    MeasurementParamsMerge();
    UserOrderAsUser();
    UserOrderAsRepo();
    RepoOrderByNodeType();
    SelectionOfEntries(UserOrder + RepoOrder, None, Some("user"));
    SelectIdsAppend(UserOrder, RepoOrder, None, Some("user"));
    assert UserOrder + [] == UserOrder;
    SelectionOfEntries(UserOrder + RepoOrder, None, Some("repo"));
    SelectIdsAppend(UserOrder, RepoOrder, None, Some("repo"));
    assert [] + RepoOrder == RepoOrder;
  }

  /** A value that names neither scale selects nothing: the report holds only `eta`. */
  lemma UnknownScaleSelectsNothing(params: Params, scale: string, nodeType: Option<string>)
    requires scale != "node" && scale != "population"
    ensures Selection(params, Some(scale), nodeType) == []
  {
  }

  /**
   * The metadata entry is the descriptor without its measurement callable:
   * the question, scale, node type, metrics and, when present, filters.
   */
  lemma MetadataKeys(d: Descriptor)
    ensures Metadata(d).Keys ==
      {"question", "scale", "node_type", "metrics"} + (if d.filters.Some? then {"filters"} else {})
  {
    var keys := {"question", "scale", "node_type", "metrics"} + (if d.filters.Some? then {"filters"} else {});
    assert "measurement" !in keys;
    assert AsDict(d).Keys == keys + {"measurement"};
  }

  /** The metadata keeps the descriptor's values, `metrics` included, and has no callable at its top level. */
  lemma MetadataValues(d: Descriptor)
    ensures "measurement" !in Metadata(d)
    ensures "metrics" in Metadata(d) && Metadata(d)["metrics"] == VDict(MetricsValue(d.metrics))
    ensures "scale" in Metadata(d) && Metadata(d)["scale"] == VStr(ScaleName(d.scale))
    ensures "node_type" in Metadata(d) && Metadata(d)["node_type"] == VStr(NodeTypeName(d.nodeType))
    ensures forall k :: k in Metadata(d) ==> !Metadata(d)[k].VCallable?
  {
    var dict := AsDict(d);
    assert "metrics" in dict && dict["metrics"] == VDict(MetricsValue(d.metrics));
    assert "scale" in dict && dict["scale"] == VStr(ScaleName(d.scale));
    assert "node_type" in dict && dict["node_type"] == VStr(NodeTypeName(d.nodeType));
    assert forall k :: k in dict && k != "measurement" ==> !dict[k].VCallable?;
  }

  /** The battery has not aborted exactly when no run so far gave None; if it has, it names the first. */
  lemma {:induction false} CollectFailed(entries: Params, outs: seq<Outcome>, key: Measurement -> string,
                                          meta: Descriptor -> map<string, Value>, i: nat)
    requires i <= |entries| == |outs|
    ensures Collect(entries, outs, key, meta, i).failed.None? <==> forall k :: 0 <= k < i ==> outs[k].result.metrics.Some?
    ensures Collect(entries, outs, key, meta, i).failed.Some? ==>
      exists k :: (0 <= k < i && Collect(entries, outs, key, meta, i).failed == Some(entries[k].0)
        && outs[k].result.metrics.None? && forall j :: 0 <= j < k ==> outs[j].result.metrics.Some?)
  {
    if i > 0 {
      CollectFailed(entries, outs, key, meta, i - 1);
    }
  }

  /** No two entries share a report key. */
  predicate DistinctKeys(entries: Params, key: Measurement -> string)
  {
    forall j, k :: 0 <= j < k < |entries| ==> key(entries[j].0) != key(entries[k].0)
  }

  /** Without an abort, each measurement run so far has its entry in the report. */
  lemma {:induction false} CollectEntries(entries: Params, outs: seq<Outcome>, key: Measurement -> string,
                                          meta: Descriptor -> map<string, Value>, i: nat)
    requires i <= |entries| == |outs| && DistinctKeys(entries, key)
    requires Collect(entries, outs, key, meta, i).failed.None?
    ensures forall k :: 0 <= k < i ==>
      outs[k].result.metrics.Some? && key(entries[k].0) in Collect(entries, outs, key, meta, i).results
    ensures forall k :: 0 <= k < i ==>
      Collect(entries, outs, key, meta, i).results[key(entries[k].0)]
        == Entry(meta(entries[k].1), outs[k].result.metrics.value)
  {
    if i > 0 {
      var p := Collect(entries, outs, key, meta, i - 1);
      var o := outs[i - 1];
      assert p.failed.None? && o.result.metrics.Some?;
      CollectEntries(entries, outs, key, meta, i - 1);
      forall k | 0 <= k < i - 1 ensures key(entries[k].0) != key(entries[i - 1].0) {
      }
    }
  }

  /** Without an abort, the report's keys are those of the measurements run so far. */
  lemma {:induction false} CollectKeys(entries: Params, outs: seq<Outcome>, key: Measurement -> string,
                                       meta: Descriptor -> map<string, Value>, i: nat)
    requires i <= |entries| == |outs|
    requires Collect(entries, outs, key, meta, i).failed.None?
    ensures Collect(entries, outs, key, meta, i).results.Keys == set k | 0 <= k < i :: key(entries[k].0)
  {
    if i > 0 {
      var p := Collect(entries, outs, key, meta, i - 1);
      assert p.failed.None?;
      CollectKeys(entries, outs, key, meta, i - 1);
      var m := entries[i - 1].0;
      var before := set k | 0 <= k < i - 1 :: key(entries[k].0);
      var after := set k | 0 <= k < i :: key(entries[k].0);
      assert after == before + {key(m)} by {
        forall x | x in after ensures x in before + {key(m)} {
          var k :| 0 <= k < i && x == key(entries[k].0);
          if k < i - 1 {
            assert x in before;
          }
        }
        assert key(entries[i - 1].0) in after;
      }
    }
  }

  /** The battery's `run_metrics` gives None exactly when the descriptor's filter leaves a side empty. */
  ghost predicate NoneWhenVacuous(run: (Measurement, Descriptor) -> Outcome, groundTruth: seq<Event>, simulation: seq<Event>)
  {
    forall m, d :: run(m, d).result.metrics.None? <==> Vacuous(d, groundTruth, simulation)
  }

  /** The battery's own `run_metrics` gives None exactly for a vacuous filter. */
  lemma RunnerVacuous(c: Collaborators, elapsed: (Measurement, nat, nat) -> nat,
                      groundTruth: seq<Event>, simulation: seq<Event>,
                      users: Option<seq<string>>, repos: Option<seq<string>>)
    ensures NoneWhenVacuous(Runner(c, elapsed, groundTruth, simulation, users, repos), groundTruth, simulation)
  {
    forall m, d ensures Runner(c, elapsed, groundTruth, simulation, users, repos)(m, d).result.metrics.None?
                        <==> Vacuous(d, groundTruth, simulation)
    {
      RunMetricsVacuous(d, c, Clock(elapsed, m), groundTruth, simulation, users, repos);
    }
  }

  /** Some entry's filter leaves a side empty. */
  predicate SomeVacuous(entries: Params, groundTruth: seq<Event>, simulation: seq<Event>)
  {
    exists k :: 0 <= k < |entries| && Vacuous(entries[k].1, groundTruth, simulation)
  }

  /** The index of the first entry whose filter leaves a side empty; `|entries|` when there is none. */
  function FirstVacuous(entries: Params, groundTruth: seq<Event>, simulation: seq<Event>): (k: nat)
    ensures k <= |entries|
    ensures forall j :: 0 <= j < k ==> !Vacuous(entries[j].1, groundTruth, simulation)
    ensures k < |entries| ==> Vacuous(entries[k].1, groundTruth, simulation)
  {
    if entries == [] then 0
    else if Vacuous(entries[0].1, groundTruth, simulation) then 0
    else 1 + FirstVacuous(entries[1..], groundTruth, simulation)
  }

  /** The battery aborts exactly when some selected measurement's filter leaves a side empty. */
  lemma RunAllMetricsAborts(run: (Measurement, Descriptor) -> Outcome, eta: string,
                            groundTruth: seq<Event>, simulation: seq<Event>,
                            scale: Option<string>, nodeType: Option<string>)
    requires NoneWhenVacuous(run, groundTruth, simulation)
    ensures var entries := Selection(MeasurementParams(), scale, nodeType);
      var r := RunAllMetricsOf(run, eta, scale, nodeType).0;
      r.Failure? <==> SomeVacuous(entries, groundTruth, simulation)
  {
    ReportAborts(run, Key, Metadata, eta, Selection(MeasurementParams(), scale, nodeType), groundTruth, simulation);
  }

  /** An aborted battery names the first selected measurement whose filter leaves a side empty. */
  lemma RunAllMetricsFirstFailure(run: (Measurement, Descriptor) -> Outcome, eta: string,
                                  groundTruth: seq<Event>, simulation: seq<Event>,
                                  scale: Option<string>, nodeType: Option<string>)
    requires NoneWhenVacuous(run, groundTruth, simulation)
    ensures var entries := Selection(MeasurementParams(), scale, nodeType);
      var r := RunAllMetricsOf(run, eta, scale, nodeType).0;
      var k := FirstVacuous(entries, groundTruth, simulation);
      r.Failure? ==> k < |entries| && r.error == MetadataOnNone(entries[k].0)
  {
    ReportFirstFailure(run, Key, Metadata, eta, Selection(MeasurementParams(), scale, nodeType), groundTruth, simulation);
  }

  /**
   * The battery as `run_all_metrics` runs it stops exactly when a selected
   * measurement's filter leaves a side empty, and names the first such one.
   */
  lemma BatteryStopsAtVacuousFilter(c: Collaborators, elapsed: (Measurement, nat, nat) -> nat, eta: string,
                                    groundTruth: seq<Event>, simulation: seq<Event>,
                                    scale: Option<string>, nodeType: Option<string>,
                                    users: Option<seq<string>>, repos: Option<seq<string>>)
    ensures var entries := Selection(MeasurementParams(), scale, nodeType);
      var r := RunAllMetricsOf(Runner(c, elapsed, groundTruth, simulation, users, repos), eta, scale, nodeType).0;
      var k := FirstVacuous(entries, groundTruth, simulation);
      && (r.Failure? <==> SomeVacuous(entries, groundTruth, simulation))
      && (r.Failure? ==> k < |entries| && r.error == MetadataOnNone(entries[k].0))
  {
    var run := Runner(c, elapsed, groundTruth, simulation, users, repos);
    RunnerVacuous(c, elapsed, groundTruth, simulation, users, repos);
    RunAllMetricsAborts(run, eta, groundTruth, simulation, scale, nodeType);
    RunAllMetricsFirstFailure(run, eta, groundTruth, simulation, scale, nodeType);
  }

  /** Over any entries, the report is a Failure exactly when some entry's filter is vacuous. */
  lemma ReportAborts(run: (Measurement, Descriptor) -> Outcome, key: Measurement -> string,
                     meta: Descriptor -> map<string, Value>, eta: string, entries: Params,
                     groundTruth: seq<Event>, simulation: seq<Event>)
    requires NoneWhenVacuous(run, groundTruth, simulation)
    ensures Report(run, key, meta, eta, entries).0.Failure? <==> SomeVacuous(entries, groundTruth, simulation)
  {
    CollectAborts(entries, Outcomes(run, entries), key, meta, groundTruth, simulation);
  }

  /** Over any entries, a Failure names the first entry whose filter is vacuous. */
  lemma ReportFirstFailure(run: (Measurement, Descriptor) -> Outcome, key: Measurement -> string,
                           meta: Descriptor -> map<string, Value>, eta: string, entries: Params,
                           groundTruth: seq<Event>, simulation: seq<Event>)
    requires NoneWhenVacuous(run, groundTruth, simulation)
    ensures var r := Report(run, key, meta, eta, entries).0;
      var k := FirstVacuous(entries, groundTruth, simulation);
      r.Failure? ==> k < |entries| && r.error == MetadataOnNone(entries[k].0)
  {
    var r := Report(run, key, meta, eta, entries).0;
    CollectAborts(entries, Outcomes(run, entries), key, meta, groundTruth, simulation);
    if r.Failure? {
      var f := FirstVacuous(entries, groundTruth, simulation);
      var k :| (0 <= k < |entries| && r.error == MetadataOnNone(entries[k].0)
        && Vacuous(entries[k].1, groundTruth, simulation)
        && forall j :: 0 <= j < k ==> !Vacuous(entries[j].1, groundTruth, simulation));
      assert !(f < k) && !(k < f);
    }
  }

  /** `CollectFailed`, with a run's None read as its descriptor's filter leaving a side empty. */
  lemma CollectAborts(entries: Params, outs: seq<Outcome>, key: Measurement -> string,
                      meta: Descriptor -> map<string, Value>, groundTruth: seq<Event>, simulation: seq<Event>)
    requires |entries| == |outs|
    requires forall k :: 0 <= k < |entries| ==>
      (outs[k].result.metrics.None? <==> Vacuous(entries[k].1, groundTruth, simulation))
    ensures var p := Collect(entries, outs, key, meta, |entries|);
      && (p.failed.Some? <==> exists k :: 0 <= k < |entries| && Vacuous(entries[k].1, groundTruth, simulation))
      && (p.failed.Some? ==>
            exists k :: (0 <= k < |entries| && p.failed == Some(entries[k].0)
              && Vacuous(entries[k].1, groundTruth, simulation)
              && forall j :: 0 <= j < k ==> !Vacuous(entries[j].1, groundTruth, simulation)))
  {
    CollectFailed(entries, outs, key, meta, |entries|);
  }

  /** A measurement's key never collides with the battery's own `eta`. */
  lemma KeyNotEta(m: Measurement)
    ensures Key(m) != "eta"
  {
  }

  /** The selected entries have distinct report keys. */
  lemma SelectedKeysDistinct(scale: Option<string>, nodeType: Option<string>)
    ensures DistinctKeys(Selection(MeasurementParams(), scale, nodeType), Key)
  {
    var entries := Selection(MeasurementParams(), scale, nodeType);
    MeasurementParamsMerge();
    SelectionDistinct(MeasurementParams(), scale, nodeType);
    forall j, k | 0 <= j < k < |entries| ensures Key(entries[j].0) != Key(entries[k].0) {
      if Key(entries[j].0) == Key(entries[k].0) {
        KeyInjective(entries[j].0, entries[k].0);
      }
    }
  }

  /**
   * A completed battery reports one key per selected measurement, named as in
   * the registry, and the battery's `eta`.
   */
  lemma RunAllMetricsKeys(run: (Measurement, Descriptor) -> Outcome, eta: string,
                          scale: Option<string>, nodeType: Option<string>)
    ensures var entries := Selection(MeasurementParams(), scale, nodeType);
      var r := RunAllMetricsOf(run, eta, scale, nodeType).0;
      r.Success? ==>
        && r.value.Keys == (set k | 0 <= k < |entries| :: Key(entries[k].0)) + {"eta"}
        && r.value["eta"] == VStr(eta)
  {
    ReportKeys(run, Key, Metadata, eta, Selection(MeasurementParams(), scale, nodeType));
  }

  /** Over any entries, a completed report has one key per entry and `eta`. */
  lemma ReportKeys(run: (Measurement, Descriptor) -> Outcome, key: Measurement -> string,
                   meta: Descriptor -> map<string, Value>, eta: string, entries: Params)
    ensures var r := Report(run, key, meta, eta, entries).0;
      r.Success? ==>
        && r.value.Keys == (set k | 0 <= k < |entries| :: key(entries[k].0)) + {"eta"}
        && r.value["eta"] == VStr(eta)
  {
    var outs := Outcomes(run, entries);
    if Collect(entries, outs, key, meta, |entries|).failed.None? {
      CollectKeys(entries, outs, key, meta, |entries|);
    }
  }

  /**
   * A completed battery reports, under each selected measurement's name, the
   * metric dictionary its run gave, with the metadata attached.
   */
  lemma RunAllMetricsEntries(run: (Measurement, Descriptor) -> Outcome, eta: string,
                             scale: Option<string>, nodeType: Option<string>)
    ensures var entries := Selection(MeasurementParams(), scale, nodeType);
      var r := RunAllMetricsOf(run, eta, scale, nodeType).0;
      r.Success? ==>
        forall k :: 0 <= k < |entries| ==>
          && run(entries[k].0, entries[k].1).result.metrics.Some? && Key(entries[k].0) in r.value
          && r.value[Key(entries[k].0)] == Entry(Metadata(entries[k].1), run(entries[k].0, entries[k].1).result.metrics.value)
  {
    var entries := Selection(MeasurementParams(), scale, nodeType);
    SelectedKeysDistinct(scale, nodeType);
    forall m ensures Key(m) != "eta" {
      KeyNotEta(m);
    }
    ReportEntries(run, Key, Metadata, eta, entries);
  }

  /** Over entries with distinct keys other than `eta`, a completed report holds every entry's run. */
  lemma ReportEntries(run: (Measurement, Descriptor) -> Outcome, key: Measurement -> string,
                      meta: Descriptor -> map<string, Value>, eta: string, entries: Params)
    requires DistinctKeys(entries, key)
    requires forall m :: key(m) != "eta"
    ensures var r := Report(run, key, meta, eta, entries).0;
      r.Success? ==>
        forall k :: 0 <= k < |entries| ==>
          && run(entries[k].0, entries[k].1).result.metrics.Some? && key(entries[k].0) in r.value
          && r.value[key(entries[k].0)] == Entry(meta(entries[k].1), run(entries[k].0, entries[k].1).result.metrics.value)
  {
    var outs := Outcomes(run, entries);
    if Collect(entries, outs, key, meta, |entries|).failed.None? {
      CollectEntries(entries, outs, key, meta, |entries|);
    }
  }
}
