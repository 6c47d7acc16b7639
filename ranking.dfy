/**
 * The default node set of a node-scale measurement: when no explicit list of
 * users or repos is given, `run_metrics` counts the ground truth's rows per
 * (node, event type), takes each node's median count, sorts the nodes by it
 * in decreasing order and keeps the first 100.
 *
 * The median can be a half-integer, so the ranking key is the doubled median
 * (twice the middle count, or the sum of the two middle counts), which orders
 * nodes exactly as the median does. Nodes with equal keys keep the order in
 * which they first appear in the ground truth.
 */
module Ranking {
  import opened Wrappers
  import opened Events

  /** How many nodes the default selection keeps at most. */
  const TopNodes: nat := 100

  predicate NoDuplicates<T(==)>(s: seq<T>)
  {
    forall i, j :: 0 <= i < j < |s| ==> s[i] != s[j]
  }

  /** The values of `xs` without repetitions, in order of first appearance. */
  function Dedup(xs: seq<string>): (r: seq<string>)
    ensures NoDuplicates(r)
    ensures forall x :: x in r <==> x in xs
  {
    if xs == [] then []
    else
      var init := xs[..|xs| - 1];
      var x := xs[|xs| - 1];
      assert xs == init + [x];
      var r := Dedup(init);
      if x in r then r else r + [x]
  }

  /** The non-missing values of column `f`, row by row. */
  function Present(data: seq<Event>, f: Field): (r: seq<string>)
    ensures forall x :: x in r <==> exists e :: e in data && ValueOf(e, f) == Some(x)
  {
    if data == [] then []
    else
      var v := ValueOf(data[0], f);
      var rest := Present(data[1..], f);
      assert forall e :: e in data <==> e == data[0] || e in data[1..];
      if v.Some? then [v.value] + rest else rest
  }

  /** The distinct ids in column `f`; `groupby` drops the rows whose id is missing. */
  function Ids(data: seq<Event>, f: Field): seq<string>
  {
    Dedup(Present(data, f))
  }

  /** The rows of node `n`: the same one-entry filter that selects a node's data. */
  function RowsOf(data: seq<Event>, f: Field, n: string): seq<Event>
  {
    Kept(data, [Clause(f, [n])])
  }

  /** The event types node `n` has rows of, each once. */
  function EventTypesOf(data: seq<Event>, f: Field, n: string): seq<string>
  {
    var rows := RowsOf(data, f, n);
    Dedup(seq(|rows|, i requires 0 <= i < |rows| => rows[i].event))
  }

  /** The row count of each (node `n`, event type) group. */
  function Counts(data: seq<Event>, f: Field, n: string): (r: seq<nat>)
    ensures |r| == |EventTypesOf(data, f, n)|
  {
    var rows := RowsOf(data, f, n);
    var types := EventTypesOf(data, f, n);
    seq(|types|, j requires 0 <= j < |types| => |Kept(rows, [Clause(EventType, [types[j]])])|)
  }

  predicate Ascending(s: seq<nat>)
  {
    forall i, j :: 0 <= i < j < |s| ==> s[i] <= s[j]
  }

  /** Inserts `x` before the first element at least as large. */
  function InsertAsc(s: seq<nat>, x: nat): (r: seq<nat>)
    ensures multiset(r) == multiset(s) + multiset{x}
  {
    if s == [] then [x]
    else if x <= s[0] then [x] + s
    else
      assert s == [s[0]] + s[1..];
      [s[0]] + InsertAsc(s[1..], x)
  }

  lemma {:induction false} InsertAscSorted(s: seq<nat>, x: nat)
    requires Ascending(s)
    ensures Ascending(InsertAsc(s, x))
  {
    if s != [] && x > s[0] {
      var t := InsertAsc(s[1..], x);
      InsertAscSorted(s[1..], x);
      forall j | 0 <= j < |t| ensures s[0] <= t[j] {
        assert t[j] in multiset(s[1..]) + multiset{x};
      }
    }
  }

  /** The counts in ascending order: the same multiset, sorted. */
  function SortAsc(s: seq<nat>): (r: seq<nat>)
    ensures Ascending(r)
    ensures multiset(r) == multiset(s)
  {
    if s == [] then []
    else
      assert s == s[..|s| - 1] + [s[|s| - 1]];
      InsertAscSorted(SortAsc(s[..|s| - 1]), s[|s| - 1]);
      InsertAsc(SortAsc(s[..|s| - 1]), s[|s| - 1])
  }

  /** Twice the median of a sorted, non-empty list. */
  function DoubledMedian(s: seq<nat>): (r: nat)
    requires |s| >= 1 && Ascending(s)
    ensures 2 * s[0] <= r <= 2 * s[|s| - 1]
  {
    var h := |s| / 2;
    if |s| % 2 == 1 then 2 * s[h] else s[h - 1] + s[h]
  }

  /** The ranking key of node `n`: its doubled median count, 0 for a node without rows. */
  function Activity(data: seq<Event>, f: Field, n: string): nat
  {
    var c := Counts(data, f, n);
    if c == [] then 0 else DoubledMedian(SortAsc(c))
  }

  predicate Descending(s: seq<string>, key: string -> nat)
  {
    forall i, j :: 0 <= i < j < |s| ==> key(s[i]) >= key(s[j])
  }

  /** Inserts `x` after every element whose key is at least `x`'s. */
  function InsertDesc(s: seq<string>, x: string, key: string -> nat): (r: seq<string>)
    ensures multiset(r) == multiset(s) + multiset{x}
  {
    if s == [] then [x]
    else if key(s[0]) < key(x) then [x] + s
    else
      assert s == [s[0]] + s[1..];
      [s[0]] + InsertDesc(s[1..], x, key)
  }

  lemma {:induction false} InsertDescSorted(s: seq<string>, x: string, key: string -> nat)
    requires Descending(s, key)
    ensures Descending(InsertDesc(s, x, key), key)
  {
    if s != [] && key(s[0]) >= key(x) {
      var t := InsertDesc(s[1..], x, key);
      InsertDescSorted(s[1..], x, key);
      forall j | 0 <= j < |t| ensures key(s[0]) >= key(t[j]) {
        assert t[j] in multiset(s[1..]) + multiset{x};
      }
    }
  }

  /** `sort_values(ascending=False)` with ties in input order. */
  function SortDesc(s: seq<string>, key: string -> nat): (r: seq<string>)
    ensures Descending(r, key)
    ensures multiset(r) == multiset(s)
  {
    if s == [] then []
    else
      assert s == s[..|s| - 1] + [s[|s| - 1]];
      InsertDescSorted(SortDesc(s[..|s| - 1], key), s[|s| - 1], key);
      InsertDesc(SortDesc(s[..|s| - 1], key), s[|s| - 1], key)
  }

  function Min(a: nat, b: nat): nat
  {
    if a <= b then a else b
  }

  /** `Activity` as the sort key of the nodes of column `f`. */
  function ActivityKey(data: seq<Event>, f: Field): string -> nat
  {
    n => Activity(data, f, n)
  }

  /** The default node list: the first 100 ids by decreasing activity. */
  function DefaultNodes(data: seq<Event>, f: Field): (r: seq<string>)
    ensures |r| <= TopNodes
  {
    var ranked := SortDesc(Ids(data, f), ActivityKey(data, f));
    ranked[..Min(TopNodes, |ranked|)]
  }

  /** A row that the clause admits is among the rows the clause keeps. */
  lemma KeptHas(data: seq<Event>, c: Clause, e: Event)
    requires e in data && Admits(c, e)
    ensures e in Kept(data, [c])
  {
    assert AdmitsAll([c], e);
    KeptCounts(data, [c], e);
  }

  /** The group of an event type that occurs among the rows is non-empty. */
  lemma GroupNonEmpty(rows: seq<Event>, t: string)
    requires t in seq(|rows|, i requires 0 <= i < |rows| => rows[i].event)
    ensures |Kept(rows, [Clause(EventType, [t])])| >= 1
  {
    var events := seq(|rows|, i requires 0 <= i < |rows| => rows[i].event);
    var j :| 0 <= j < |rows| && events[j] == t;
    KeptHas(rows, Clause(EventType, [t]), rows[j]);
  }

  /** A node has rows of at least one event type, and every such group is non-empty. */
  lemma CountsOfPresentNode(data: seq<Event>, f: Field, n: string)
    requires n in Ids(data, f)
    ensures |Counts(data, f, n)| >= 1
    ensures forall k :: 0 <= k < |Counts(data, f, n)| ==> Counts(data, f, n)[k] >= 1
  {
    assert n in Present(data, f);
    var e :| e in data && ValueOf(e, f) == Some(n);
    var rows := RowsOf(data, f, n);
    KeptHas(data, Clause(f, [n]), e);
    var events := seq(|rows|, i requires 0 <= i < |rows| => rows[i].event);
    var i :| 0 <= i < |rows| && rows[i] == e;
    assert events[i] == e.event;
    var types := EventTypesOf(data, f, n);
    assert e.event in types;
    forall k | 0 <= k < |types|
      ensures |Kept(rows, [Clause(EventType, [types[k]])])| >= 1
    {
      GroupNonEmpty(rows, types[k]);
    }
  }

  /** Every node that occurs has a positive key: it ranks above an absent one. */
  lemma ActivityOfPresentNode(data: seq<Event>, f: Field, n: string)
    requires n in Ids(data, f)
    ensures Activity(data, f, n) >= 2
  {
    CountsOfPresentNode(data, f, n);
    var c := Counts(data, f, n);
    var s := SortAsc(c);
    assert s[0] in multiset(c);
  }

  lemma {:induction false} InsertDescKeepsDistinct(s: seq<string>, x: string, key: string -> nat)
    requires Descending(s, key) && NoDuplicates(s) && x !in s
    ensures NoDuplicates(InsertDesc(s, x, key))
  {
    if s != [] && key(s[0]) >= key(x) {
      InsertDescKeepsDistinct(s[1..], x, key);
      var t := InsertDesc(s[1..], x, key);
      assert s[0] !in t by {
        assert multiset(t)[s[0]] == multiset(s[1..])[s[0]] + multiset{x}[s[0]];
        assert s == [s[0]] + s[1..];
      }
    }
  }

  lemma {:induction false} SortDescKeepsDistinct(s: seq<string>, key: string -> nat)
    requires NoDuplicates(s)
    ensures NoDuplicates(SortDesc(s, key))
  {
    if s != [] {
      var init := s[..|s| - 1];
      SortDescKeepsDistinct(init, key);
      var x := s[|s| - 1];
      assert x !in init;
      assert x !in multiset(SortDesc(init, key));
      InsertDescKeepsDistinct(SortDesc(init, key), x, key);
    }
  }

  /** Sorting keeps the length and the elements. */
  lemma SortDescMembers(s: seq<string>, key: string -> nat)
    ensures |SortDesc(s, key)| == |s|
    ensures forall n :: n in SortDesc(s, key) <==> n in s
  {
    var r := SortDesc(s, key);
    assert |multiset(r)| == |multiset(s)|;
    forall n ensures n in r <==> n in s {
      assert n in r <==> n in multiset(r);
      assert n in s <==> n in multiset(s);
    }
  }

  /** A prefix of a list sorted by decreasing key holds the elements with the largest keys. */
  lemma {:induction false} PrefixIsTop(ranked: seq<string>, key: string -> nat, k: nat)
    requires Descending(ranked, key) && k <= |ranked|
    ensures forall n, m :: n in ranked && n !in ranked[..k] && m in ranked[..k] ==> key(n) <= key(m)
  {
    forall n, m | n in ranked && n !in ranked[..k] && m in ranked[..k]
      ensures key(n) <= key(m)
    {
      var j :| 0 <= j < |ranked| && ranked[j] == n;
      var i :| 0 <= i < k && ranked[..k][i] == m;
    }
  }

  /** The first `k` of the distinct `ids` sorted by decreasing key: the ids with the largest keys. */
  lemma TopOfSorted(ids: seq<string>, key: string -> nat, k: nat)
    requires NoDuplicates(ids)
    ensures var r := SortDesc(ids, key)[..Min(k, |SortDesc(ids, key)|)];
      && |r| == Min(k, |ids|)
      && NoDuplicates(r)
      && Descending(r, key)
      && (forall n :: n in r ==> n in ids)
      && (forall n, m :: n in ids && n !in r && m in r ==> key(n) <= key(m))
  {
    var ranked := SortDesc(ids, key);
    var j := Min(k, |ranked|);
    SortDescMembers(ids, key);
    SortDescKeepsDistinct(ids, key);
    forall n | n in ranked[..j] ensures n in ids {
      assert n in ranked;
    }
    PrefixIsTop(ranked, key, j);
  }

  /**
   * The default node list holds min(100, #ids) distinct ids that occur in the
   * (filtered) ground truth, in non-increasing order of activity, and no id
   * left out is more active than any id kept.
   */
  lemma DefaultNodesRanked(data: seq<Event>, f: Field)
    ensures var r := DefaultNodes(data, f);
      && |r| == Min(TopNodes, |Ids(data, f)|)
      && NoDuplicates(r)
      && Descending(r, n => Activity(data, f, n))
      && (forall n :: n in r ==> exists e :: e in data && ValueOf(e, f) == Some(n))
      && (forall n, m :: n in Ids(data, f) && n !in r && m in r ==> Activity(data, f, n) <= Activity(data, f, m))
  {
    var ids := Ids(data, f);
    var key := ActivityKey(data, f);
    TopOfSorted(ids, key, TopNodes);
    var r := DefaultNodes(data, f);
    forall n | n in r ensures n in Present(data, f) {
      assert n in ids;
    }
    assert Descending(r, n => Activity(data, f, n)) by {
      assert Descending(r, key);
      assert forall n :: key(n) == Activity(data, f, n);
    }
    forall n, m | n in ids && n !in r && m in r
      ensures Activity(data, f, n) <= Activity(data, f, m)
    {
      assert key(n) <= key(m);
    }
  }
}
