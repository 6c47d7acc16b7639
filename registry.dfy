/**
 * The measurement registry of metrics_config.py: `measurement_params`, the
 * user-centric descriptors merged with `repo_measurement_params` by
 * `dict.update`. Measurement names form a closed enumeration whose `Key` is
 * the dictionary key.
 */
module Registry {
  import opened Wrappers
  import opened Events
  import opened Values

  datatype Scale = NodeScale | PopulationScale

  datatype NodeType = UserNode | RepoNode

  datatype Measurement =
    | UserUniqueRepos
    | UserActivityTimeline
    | UserActivityDistribution
    | MostActiveUsers
    | UserPopularity
    | UserGiniCoef
    | UserPalmaCoef
    | UserDiffusionDelay
    | RepoDiffusionDelay
    | RepoGrowth
    | RepoContributors
    | RepoEventDistributionDaily
    | RepoEventDistributionDayofweek
    | RepoPopularityDistribution
    | RepoPopularityTopk
    | RepoLivelinessDistribution
    | RepoLivelinessTopk
    | RepoActivityDisparityGiniFork
    | RepoActivityDisparityPalmaFork
    | RepoActivityDisparityGiniPush
    | RepoActivityDisparityPalmaPush
    | RepoActivityDisparityGiniPullrequest
    | RepoActivityDisparityPalmaPullrequest
    | RepoActivityDisparityGiniIssue
    | RepoActivityDisparityPalmaIssue


  /** The measurement's key in `measurement_params` and in the report. */
  function Key(m: Measurement): string
  {
    match m
    case UserUniqueRepos => "user_unique_repos"
    case UserActivityTimeline => "user_activity_timeline"
    case UserActivityDistribution => "user_activity_distribution"
    case MostActiveUsers => "most_active_users"
    case UserPopularity => "user_popularity"
    case UserGiniCoef => "user_gini_coef"
    case UserPalmaCoef => "user_palma_coef"
    case UserDiffusionDelay => "user_diffusion_delay"
    case RepoDiffusionDelay => "repo_diffusion_delay"
    case RepoGrowth => "repo_growth"
    case RepoContributors => "repo_contributors"
    case RepoEventDistributionDaily => "repo_event_distribution_daily"
    case RepoEventDistributionDayofweek => "repo_event_distribution_dayofweek"
    case RepoPopularityDistribution => "repo_popularity_distribution"
    case RepoPopularityTopk => "repo_popularity_topk"
    case RepoLivelinessDistribution => "repo_liveliness_distribution"
    case RepoLivelinessTopk => "repo_liveliness_topk"
    case RepoActivityDisparityGiniFork => "repo_activity_disparity_gini_fork"
    case RepoActivityDisparityPalmaFork => "repo_activity_disparity_palma_fork"
    case RepoActivityDisparityGiniPush => "repo_activity_disparity_gini_push"
    case RepoActivityDisparityPalmaPush => "repo_activity_disparity_palma_push"
    case RepoActivityDisparityGiniPullrequest => "repo_activity_disparity_gini_pullrequest"
    case RepoActivityDisparityPalmaPullrequest => "repo_activity_disparity_palma_pullrequest"
    case RepoActivityDisparityGiniIssue => "repo_activity_disparity_gini_issue"
    case RepoActivityDisparityPalmaIssue => "repo_activity_disparity_palma_issue"
  }


  /** No two measurements share a dictionary key. */
  lemma KeyInjective(a: Measurement, b: Measurement)
    requires Key(a) == Key(b)
    ensures a == b
  {
  }

  /**
   * One registry entry: the question number it answers, its scale and node
   * type, the optional top-level filter, the measurement callable and the
   * metric callables in the dictionary's order.
   */
  datatype Descriptor = Descriptor(
    question: string,
    scale: Scale,
    nodeType: NodeType,
    filters: Option<seq<Clause>>,
    measurement: Fn,
    metrics: seq<(string, Fn)>)

  /** An ordered dictionary from measurement to descriptor. */
  type Params = seq<(Measurement, Descriptor)>

  function Names(params: Params): (r: seq<Measurement>)
    ensures |r| == |params| && forall i :: 0 <= i < |params| ==> r[i] == params[i].0
  {
    seq(|params|, i requires 0 <= i < |params| => params[i].0)
  }

  predicate DistinctNames(params: Params)
  {
    forall i, j :: 0 <= i < j < |params| ==> params[i].0 != params[j].0
  }

  /** The dictionary holding each listed measurement with its registry descriptor. */
  function Entries(ids: seq<Measurement>): (r: Params)
    ensures Names(r) == ids
  {
    seq(|ids|, i requires 0 <= i < |ids| => (ids[i], Describe(ids[i])))
  }

  /** `params[name]`, or None where Python raises KeyError. */
  function Lookup(params: Params, name: Measurement): (r: Option<Descriptor>)
    ensures r.Some? <==> name in Names(params)
    ensures r.Some? ==> (name, r.value) in params
  {
    if params == [] then None
    else if params[0].0 == name then Some(params[0].1)
    else Lookup(params[1..], name)
  }

  /** `params[name] = d`: replaces the value in place, or appends a new key. */
  function Assign(params: Params, name: Measurement, d: Descriptor): Params
  {
    if params == [] then [(name, d)]
    else if params[0].0 == name then [(name, d)] + params[1..]
    else [params[0]] + Assign(params[1..], name, d)
  }

  /** `a.update(b)`. */
  function Update(a: Params, b: Params): Params
    decreases |b|
  {
    if b == [] then a else Update(Assign(a, b[0].0, b[0].1), b[1..])
  }

  lemma {:induction false} AssignFresh(params: Params, name: Measurement, d: Descriptor)
    requires name !in Names(params)
    ensures Assign(params, name, d) == params + [(name, d)]
  {
    if params != [] {
      assert params[0].0 == Names(params)[0];
      assert Names(params[1..]) == Names(params)[1..];
      AssignFresh(params[1..], name, d);
    }
  }

  /**
   * Updating with a dictionary whose keys are all new appends its entries in
   * order.
   */
  lemma {:induction false} UpdateDisjoint(a: Params, b: Params)
    requires DistinctNames(b)
    requires forall i, j :: 0 <= i < |a| && 0 <= j < |b| ==> a[i].0 != b[j].0
    ensures Update(a, b) == a + b
    decreases |b|
  {
    if b != [] {
      assert b[0].0 !in Names(a);
      AssignFresh(a, b[0].0, b[0].1);
      var a' := a + [b[0]];
      forall i, j | 0 <= i < |a'| && 0 <= j < |b[1..]| ensures a'[i].0 != b[1..][j].0 {
        assert b[1..][j] == b[j + 1];
      }
      UpdateDisjoint(a', b[1..]);
      assert a' + b[1..] == a + b;
    }
  }

  // ---- Collaborators and event groups named by the registry ----

  const JsDivergence := Fn("Metrics", "js_divergence", [])
  const Rmse := Fn("Metrics", "rmse", [])
  const R2 := Fn("Metrics", "r2", [])
  const KsTest := Fn("Metrics", "ks_test", [])
  const Dtw := Fn("Metrics", "dtw", [])
  const RboScore := Fn("Metrics", "rbo_score", [])
  const AbsoluteDifference := Fn("Metrics", "absolute_difference", [])

  const ContributionEvents: seq<string> :=
    ["PullRequestEvent", "PushEvent", "IssuesEvent", "IssueCommentEvent",
     "PullRequestReviewComment", "CommitCommentEvent", "CreateEvent"]

  const PopularityEvents: seq<string> := ["WatchEvent", "ForkEvent"]

  /** `{"event": types}` */
  function EventFilter(types: seq<string>): Option<seq<Clause>>
  {
    Some([Clause(EventType, types)])
  }

  /** The modules that define the user and the repo measurements. */
  const UserModule := "UserCentricMeasurements"
  const RepoModule := "RepoCentricMeasurements"

  /** The eight repo disparity entries differ only in event type and measurement. */
  function Disparity(eventType: string, measurement: string): Descriptor
  {
    Descriptor("14",
      PopulationScale, RepoNode, EventFilter([eventType]),
      Fn(RepoModule, measurement, []),
      [("absolute_difference", AbsoluteDifference)])
  }

  /** The registry's descriptor for each measurement, as the dictionary literals give it. */
  function Describe(m: Measurement): Descriptor
  {
    match m
    case UserUniqueRepos =>
      Descriptor("17",
        PopulationScale, UserNode, EventFilter(ContributionEvents),
        Fn(UserModule, "getUserUniqueRepos", []),
        [("js_divergence", NamedPartial(JsDivergence, [("discrete", LBool(false))])),
         ("rmse", Rmse), ("r2", R2)])
    case UserActivityTimeline =>
      Descriptor("19",
        NodeScale, UserNode, EventFilter(ContributionEvents),
        Fn(UserModule, "getUserActivityTimeline", []),
        [("rmse", Rmse), ("ks_test", KsTest), ("dtw", Dtw)])
    case UserActivityDistribution =>
      Descriptor("24a",
        PopulationScale, UserNode, None,
        Fn(UserModule, "getUserActivityDistribution", []),
        [("rmse", Rmse), ("r2", R2),
         ("js_divergence", NamedPartial(JsDivergence, [("discrete", LBool(true))]))])
    case MostActiveUsers =>
      Descriptor("24b",
        PopulationScale, UserNode, None,
        NamedPartial(Fn(UserModule, "getMostActiveUsers", []), [("k", LInt(5000))]),
        [("rbo", NamedPartial(RboScore, [("p", LFloat("0.95"))]))])
    case UserPopularity =>
      Descriptor("25",
        PopulationScale, UserNode, EventFilter(PopularityEvents + ["CreateEvent"]),
        NamedPartial(Fn(UserModule, "getUserPopularity", []), [("k", LInt(5000))]),
        [("rbo", NamedPartial(RboScore, [("p", LFloat("0.95"))]))])
    case UserGiniCoef =>
      Descriptor("26a",
        PopulationScale, UserNode, EventFilter(ContributionEvents),
        Fn(UserModule, "getGiniCoef", []),
        [("absolute difference", AbsoluteDifference)])
    case UserPalmaCoef =>
      Descriptor("26b",
        PopulationScale, UserNode, EventFilter(ContributionEvents),
        Fn(UserModule, "getPalmaCoef", []),
        [("absolute difference", AbsoluteDifference)])
    case UserDiffusionDelay =>
      Descriptor("27",
        PopulationScale, UserNode, EventFilter(ContributionEvents),
        Fn(UserModule, "getUserDiffusionDelay", []),
        [("ks_test", KsTest)])
    case RepoDiffusionDelay =>
      Descriptor("1",
        NodeScale, RepoNode, EventFilter(PopularityEvents),
        NamedPartial(Fn(RepoModule, "getRepoDiffusionDelay", []), [("eventType", LStrs(PopularityEvents))]),
        [("ks_test", KsTest),
         ("js_divergence", NamedPartial(JsDivergence, [("discrete", LBool(false))]))])
    case RepoGrowth =>
      Descriptor("2",
        NodeScale, RepoNode, EventFilter(ContributionEvents),
        Fn(RepoModule, "getRepoGrowth", []),
        [("rmse", NamedPartial(Rmse, [("join", LStr("outer"))])), ("dtw", Dtw)])
    case RepoContributors =>
      Descriptor("4",
        NodeScale, RepoNode, EventFilter(ContributionEvents),
        Fn(RepoModule, "getContributions", []),
        [("rmse", NamedPartial(Rmse, [("join", LStr("outer"))])), ("dtw", Dtw)])
    case RepoEventDistributionDaily =>
      Descriptor("5",
        NodeScale, RepoNode, None,
        Fn(RepoModule, "getDistributionOfEvents", []),
        [("js_divergence", NamedPartial(JsDivergence, [("discrete", LBool(true))]))])
    case RepoEventDistributionDayofweek =>
      Descriptor("5",
        NodeScale, RepoNode, None,
        NamedPartial(Fn(RepoModule, "getDistributionOfEvents", []), [("weekday", LBool(true))]),
        [("js_divergence", NamedPartial(JsDivergence, [("discrete", LBool(true))]))])
    case RepoPopularityDistribution =>
      Descriptor("12a",
        PopulationScale, RepoNode, EventFilter(["WatchEvent"]),
        NamedPartial(Fn(RepoModule, "getDistributionOfEventsByRepo", []), [("eventType", LStr("WatchEvent"))]),
        [("js_divergence", NamedPartial(JsDivergence, [("discrete", LBool(false))])),
         ("rmse", Rmse), ("r2", R2)])
    case RepoPopularityTopk =>
      Descriptor("12b",
        PopulationScale, RepoNode, EventFilter(["WatchEvent"]),
        NamedPartial(Fn(RepoModule, "getTopKRepos", []), [("k", LInt(5000)), ("eventType", LStr("WatchEvent"))]),
        [("rbo", NamedPartial(RboScore, [("p", LFloat("0.95"))]))])
    case RepoLivelinessDistribution =>
      Descriptor("13a",
        PopulationScale, RepoNode, EventFilter(["ForkEvent"]),
        NamedPartial(Fn(RepoModule, "getDistributionOfEventsByRepo", []), [("eventType", LStr("ForkEvent"))]),
        [("js_divergence", NamedPartial(JsDivergence, [("discrete", LBool(false))])),
         ("rmse", Rmse), ("r2", R2)])
    case RepoLivelinessTopk =>
      Descriptor("13b",
        PopulationScale, RepoNode, EventFilter(["ForkEvent"]),
        NamedPartial(Fn(RepoModule, "getTopKRepos", []), [("k", LInt(5000)), ("eventType", LStr("ForkEvent"))]),
        [("rbo", NamedPartial(RboScore, [("p", LFloat("0.95"))]))])
    case RepoActivityDisparityGiniFork =>
      Disparity("ForkEvent", "getGiniCoef")
    case RepoActivityDisparityPalmaFork =>
      Disparity("ForkEvent", "getPalmaCoef")
    case RepoActivityDisparityGiniPush =>
      Disparity("PushEvent", "getGiniCoef")
    case RepoActivityDisparityPalmaPush =>
      Disparity("PushEvent", "getPalmaCoef")
    case RepoActivityDisparityGiniPullrequest =>
      Disparity("PullRequestEvent", "getGiniCoef")
    case RepoActivityDisparityPalmaPullrequest =>
      Disparity("PullRequestEvent", "getPalmaCoef")
    case RepoActivityDisparityGiniIssue =>
      Disparity("IssuesEvent", "getGiniCoef")
    case RepoActivityDisparityPalmaIssue =>
      Disparity("IssuesEvent", "getPalmaCoef")
  }

  /** Every measurement comes from the module of its node type. */
  lemma MeasurementHome(m: Measurement)
    ensures Describe(m).measurement.home ==
      (if Describe(m).nodeType == UserNode then UserModule else RepoModule)
  {
  }

  /**
   * A user measurement and a repo measurement are never the same callable,
   * even where both modules define a function of that name (`getGiniCoef`,
   * `getPalmaCoef`).
   */
  lemma UserRepoCallablesDiffer(user: Measurement, repo: Measurement)
    requires Describe(user).nodeType == UserNode && Describe(repo).nodeType == RepoNode
    ensures Describe(user).measurement != Describe(repo).measurement
  {
    MeasurementHome(user);
    MeasurementHome(repo);
  }

  /** The user-centric `measurement_params` literal, in its order. */
  const UserOrder: seq<Measurement> :=
    [ UserUniqueRepos,
      UserActivityTimeline,
      UserActivityDistribution,
      MostActiveUsers,
      UserPopularity,
      UserGiniCoef,
      UserPalmaCoef,
      UserDiffusionDelay
    ]

  function UserParams(): Params
  {
    Entries(UserOrder)
  }

  /** The `repo_measurement_params` literal, in its order. */
  const RepoOrder: seq<Measurement> :=
    [ RepoDiffusionDelay,
      RepoGrowth,
      RepoContributors,
      RepoEventDistributionDaily,
      RepoEventDistributionDayofweek,
      RepoPopularityDistribution,
      RepoPopularityTopk,
      RepoLivelinessDistribution,
      RepoLivelinessTopk,
      RepoActivityDisparityGiniFork,
      RepoActivityDisparityPalmaFork,
      RepoActivityDisparityGiniPush,
      RepoActivityDisparityPalmaPush,
      RepoActivityDisparityGiniPullrequest,
      RepoActivityDisparityPalmaPullrequest,
      RepoActivityDisparityGiniIssue,
      RepoActivityDisparityPalmaIssue
    ]

  function RepoParams(): Params
  {
    Entries(RepoOrder)
  }

  /** Position of each measurement in the merged registry. */
  function Ordinal(m: Measurement): nat
  {
    match m
    case UserUniqueRepos => 0
    case UserActivityTimeline => 1
    case UserActivityDistribution => 2
    case MostActiveUsers => 3
    case UserPopularity => 4
    case UserGiniCoef => 5
    case UserPalmaCoef => 6
    case UserDiffusionDelay => 7
    case RepoDiffusionDelay => 8
    case RepoGrowth => 9
    case RepoContributors => 10
    case RepoEventDistributionDaily => 11
    case RepoEventDistributionDayofweek => 12
    case RepoPopularityDistribution => 13
    case RepoPopularityTopk => 14
    case RepoLivelinessDistribution => 15
    case RepoLivelinessTopk => 16
    case RepoActivityDisparityGiniFork => 17
    case RepoActivityDisparityPalmaFork => 18
    case RepoActivityDisparityGiniPush => 19
    case RepoActivityDisparityPalmaPush => 20
    case RepoActivityDisparityGiniPullrequest => 21
    case RepoActivityDisparityPalmaPullrequest => 22
    case RepoActivityDisparityGiniIssue => 23
    case RepoActivityDisparityPalmaIssue => 24
  }

  lemma {:induction false} EntryOrdinals()
    ensures |UserOrder| == 8 && |RepoOrder| == 17
    ensures forall i :: 0 <= i < 8 ==> Ordinal(UserOrder[i]) == i
    ensures forall i :: 0 <= i < 17 ==> Ordinal(RepoOrder[i]) == 8 + i
  {
    forall i | 0 <= i < 8 ensures Ordinal(UserOrder[i]) == i {
      if i == 0 { } else if i == 1 { } else if i == 2 { } else if i == 3 { } else if i == 4 { } else if i == 5 { } else if i == 6 { } else if i == 7 { }
    }
    forall i | 0 <= i < 17 ensures Ordinal(RepoOrder[i]) == 8 + i {
      if i == 0 { } else if i == 1 { } else if i == 2 { } else if i == 3 { } else if i == 4 { } else if i == 5 { } else if i == 6 { } else if i == 7 { } else if i == 8 { } else if i == 9 { } else if i == 10 { } else if i == 11 { } else if i == 12 { } else if i == 13 { } else if i == 14 { } else if i == 15 { } else if i == 16 { }
    }
  }

  lemma {:induction false} LookupEntries(ids: seq<Measurement>, m: Measurement)
    requires m in ids
    ensures Lookup(Entries(ids), m) == Some(Describe(m))
  {
    var r := Lookup(Entries(ids), m);
    assert r.Some?;
    var k :| 0 <= k < |ids| && Entries(ids)[k] == (m, r.value);
  }

  lemma {:induction false} OrderFacts()
    ensures forall i, j :: 0 <= i < j < |UserOrder + RepoOrder| ==> (UserOrder + RepoOrder)[i] != (UserOrder + RepoOrder)[j]
    ensures forall m :: m in UserOrder + RepoOrder
  {
    EntryOrdinals();
    var all := UserOrder + RepoOrder;
    assert forall i :: 0 <= i < 25 ==> Ordinal(all[i]) == i;
    forall m ensures m in all {
      assert all[Ordinal(m)] == m;
    }
  }

  /**
   * The merge appends the seventeen repo-centric entries after the eight
   * user-centric ones; every measurement occurs exactly once, with the
   * descriptor its literal gives it.
   */
  lemma {:induction false} MeasurementParamsMerge()
    ensures MeasurementParams() == Entries(UserOrder + RepoOrder)
    ensures |MeasurementParams()| == 25 && DistinctNames(MeasurementParams())
    ensures forall m :: Lookup(MeasurementParams(), m) == Some(Describe(m))
  {
    MergeIsAppend();
    var all := UserOrder + RepoOrder;
    assert |all| == 25 && DistinctNames(Entries(all)) by {
      EntryOrdinals();
      OrderFacts();
      var e := Entries(all);
      forall i, j | 0 <= i < j < |e| ensures e[i].0 != e[j].0 {
        assert e[i].0 == Names(e)[i] && e[j].0 == Names(e)[j];
      }
    }
    forall m ensures Lookup(Entries(all), m) == Some(Describe(m)) {
      assert m in all by { OrderFacts(); }
      LookupEntries(all, m);
    }
  }

  /** With no key in common, the update is the concatenation of the two literals. */
  lemma {:induction false} MergeIsAppend()
    ensures MeasurementParams() == Entries(UserOrder + RepoOrder)
  {
    EntryOrdinals();
    OrderFacts();
    var u, r := Entries(UserOrder), Entries(RepoOrder);
    var all := UserOrder + RepoOrder;
    assert forall i, j :: 0 <= i < |u| && 0 <= j < |r| ==> u[i].0 != r[j].0 by {
      forall i, j | 0 <= i < |u| && 0 <= j < |r| ensures u[i].0 != r[j].0 {
        assert u[i].0 == all[i] && r[j].0 == all[8 + j];
      }
    }
    assert DistinctNames(r) by {
      forall i, j | 0 <= i < j < |r| ensures r[i].0 != r[j].0 {
        assert r[i].0 == all[8 + i] && r[j].0 == all[8 + j];
      }
    }
    UpdateDisjoint(u, r);
    assert u + r == Entries(all);
  }

  /** `measurement_params` after `measurement_params.update(repo_measurement_params)`. */
  function MeasurementParams(): Params
  {
    Update(UserParams(), RepoParams())
  }

  /** The registry's own invariant, which the report's shape relies on. */
  predicate WellFormed(d: Descriptor)
  {
    && |d.metrics| >= 1
    && (forall i, j :: 0 <= i < j < |d.metrics| ==> d.metrics[i].0 != d.metrics[j].0)
    && (forall i :: 0 <= i < |d.metrics| ==> d.metrics[i].0 != "eta" && d.metrics[i].0 != "metadata")
  }

  /**
   * Every descriptor lists at least one metric, no metric name twice, and no
   * metric named "eta" or "metadata", the two keys the engine writes itself.
   */
  lemma RegistryWellFormed(m: Measurement)
    ensures WellFormed(Describe(m))
  {
    if IsUser(m) {
      UserWellFormed(m);
    } else if m.RepoDiffusionDelay? || m.RepoGrowth? || m.RepoContributors? || m.RepoEventDistributionDaily?
      || m.RepoEventDistributionDayofweek? {
      RepoNodeWellFormed(m);
    } else if m.RepoPopularityDistribution? || m.RepoLivelinessDistribution? {
      RepoDistributionWellFormed(m);
    } else if m.RepoPopularityTopk? || m.RepoLivelinessTopk? {
      RepoTopkWellFormed(m);
    }
  }

  // The invariant family by family: one group of literals each.

  lemma UserWellFormed(m: Measurement)
    requires IsUser(m)
    ensures WellFormed(Describe(m))
  {
  }

  lemma RepoNodeWellFormed(m: Measurement)
    requires m.RepoDiffusionDelay? || m.RepoGrowth? || m.RepoContributors? || m.RepoEventDistributionDaily?
      || m.RepoEventDistributionDayofweek?
    ensures WellFormed(Describe(m))
  {
  }

  lemma RepoDistributionWellFormed(m: Measurement)
    requires m.RepoPopularityDistribution? || m.RepoLivelinessDistribution?
    ensures WellFormed(Describe(m))
  {
  }

  lemma RepoTopkWellFormed(m: Measurement)
    requires m.RepoPopularityTopk? || m.RepoLivelinessTopk?
    ensures WellFormed(Describe(m))
  {
  }

  /** The six node-scale measurements, in registry order. */
  const NodeScaleIds: seq<Measurement> :=
    [ UserActivityTimeline, RepoDiffusionDelay, RepoGrowth, RepoContributors,
      RepoEventDistributionDaily, RepoEventDistributionDayofweek ]

  /** Exactly six registry entries are node-scale; all others are population-scale. */
  lemma NodeScaleEntries(m: Measurement)
    ensures Describe(m).scale == NodeScale <==> m in NodeScaleIds
  {
  }

  /** The user-centric literal holds exactly the user measurements. */
  lemma UserNodeEntries(m: Measurement)
    ensures Describe(m).nodeType == UserNode <==> m in UserOrder
  {
    UserIdsInOrder(m);
    UserIdsNodeType(m);
  }

  /** The eight constructors of the user-centric literal. */
  predicate IsUser(m: Measurement)
  {
    m.UserUniqueRepos? || m.UserActivityTimeline? || m.UserActivityDistribution? || m.MostActiveUsers?
    || m.UserPopularity? || m.UserGiniCoef? || m.UserPalmaCoef? || m.UserDiffusionDelay?
  }

  lemma UserIdsInOrder(m: Measurement)
    ensures m in UserOrder <==> IsUser(m)
  {
  }

  lemma UserIdsNodeType(m: Measurement)
    ensures Describe(m).nodeType == UserNode <==> IsUser(m)
  {
  }

  function ScaleName(s: Scale): string
  {
    match s
    case NodeScale => "node"
    case PopulationScale => "population"
  }

  function NodeTypeName(t: NodeType): string
  {
    match t
    case UserNode => "user"
    case RepoNode => "repo"
  }

  function FieldName(f: Field): string
  {
    match f
    case Time => "time"
    case EventType => "event"
    case User => "user"
    case Repo => "repo"
  }

  function Strings(ss: seq<string>): (r: seq<Value>)
    ensures |r| == |ss| && forall i :: 0 <= i < |ss| ==> r[i] == VStr(ss[i])
  {
    seq(|ss|, i requires 0 <= i < |ss| => VStr(ss[i]))
  }

  /** A filter dictionary as a report value: field name to the list of allowed values. */
  function FiltersValue(filters: seq<Clause>): map<string, Value>
  {
    if filters == [] then map[]
    else
      var c := filters[|filters| - 1];
      FiltersValue(filters[..|filters| - 1])[FieldName(c.field) := VList(Strings(c.allowed))]
  }

  /** The `metrics` dictionary as a report value: metric name to callable. */
  function MetricsValue(metrics: seq<(string, Fn)>): (r: map<string, Value>)
    ensures r.Keys == set i | 0 <= i < |metrics| :: metrics[i].0
    ensures forall k :: k in r ==> r[k].VCallable?
  {
    if metrics == [] then map[]
    else
      var last := metrics[|metrics| - 1];
      var r := MetricsValue(metrics[..|metrics| - 1])[last.0 := VCallable(last.1)];
      assert r.Keys == set i | 0 <= i < |metrics| :: metrics[i].0 by {
        forall k | k in r.Keys ensures k in set i | 0 <= i < |metrics| :: metrics[i].0 {
          if k != last.0 {
            var i :| 0 <= i < |metrics| - 1 && metrics[..|metrics| - 1][i].0 == k;
            assert metrics[i].0 == k;
          }
        }
        forall k | k in set i | 0 <= i < |metrics| :: metrics[i].0 ensures k in r.Keys {
          var i :| 0 <= i < |metrics| && metrics[i].0 == k;
          if i < |metrics| - 1 {
            assert metrics[..|metrics| - 1][i].0 == k;
          }
        }
      }
      r
  }

  /** The descriptor dictionary itself, callables included, as the report would hold it. */
  function AsDict(d: Descriptor): map<string, Value>
  {
    var base := map[
      "question" := VStr(d.question),
      "scale" := VStr(ScaleName(d.scale)),
      "node_type" := VStr(NodeTypeName(d.nodeType)),
      "measurement" := VCallable(d.measurement),
      "metrics" := VDict(MetricsValue(d.metrics))];
    if d.filters.Some? then base["filters" := VDict(FiltersValue(d.filters.value))] else base
  }
}
