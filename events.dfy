/**
 * The four-column event frame (time, event, user, repo) and `prefilter`,
 * which narrows it by field-value membership, one filter entry at a time.
 */
module Events {
  import opened Wrappers

  /** One row of the event frame. A user or repo id may be missing (NaN). */
  datatype Event = Event(time: string, event: string, user: Option<string>, repo: Option<string>)

  /** The column names prefilter gives the frame. */
  datatype Field = Time | EventType | User | Repo

  function ValueOf(e: Event, f: Field): Option<string>
  {
    match f
    case Time => Some(e.time)
    case EventType => Some(e.event)
    case User => e.user
    case Repo => e.repo
  }

  /** One entry `field: values` of a filter dictionary. */
  datatype Clause = Clause(field: Field, allowed: seq<string>)

  /** `data[field].isin(values)` on one row: a missing id is never kept. */
  predicate Admits(c: Clause, e: Event)
  {
    ValueOf(e, c.field).Some? && ValueOf(e, c.field).value in c.allowed
  }

  predicate AdmitsAll(filters: seq<Clause>, e: Event)
  {
    forall i :: 0 <= i < |filters| ==> Admits(filters[i], e)
  }

  /** The rows of `data` that every filter entry admits, in their original order. */
  function Kept(data: seq<Event>, filters: seq<Clause>): seq<Event>
  {
    if data == [] then []
    else (if AdmitsAll(filters, data[0]) then [data[0]] else []) + Kept(data[1..], filters)
  }

  /** `r` can be obtained from `s` by deleting rows, keeping the order of the rest. */
  predicate IsSubsequence(r: seq<Event>, s: seq<Event>)
    decreases |s|
  {
    if r == [] then true
    else if s == [] then false
    else if r[0] == s[0] then IsSubsequence(r[1..], s[1..])
    else IsSubsequence(r, s[1..])
  }

  /**
   * `prefilter`: narrows the frame by each filter entry in turn, reassigning
   * `data` in a loop; the result is the rows every entry admits.
   */
  method Prefilter(data: seq<Event>, filters: seq<Clause>) returns (r: seq<Event>)
    ensures r == Kept(data, filters)
  {
    r := data;
    KeptWithoutFilters(data);
    for i := 0 to |filters|
      invariant r == Kept(data, filters[..i])
    {
      KeptNarrows(data, filters[..i], filters[i]);
      assert filters[..i + 1] == filters[..i] + [filters[i]];
      r := Kept(r, [filters[i]]);
    }
    assert filters[..|filters|] == filters;
  }

  /** Applying one more entry to a filtered frame is filtering by both at once. */
  lemma {:induction false} KeptNarrows(data: seq<Event>, filters: seq<Clause>, c: Clause)
    ensures Kept(Kept(data, filters), [c]) == Kept(data, filters + [c])
  {
    if data != [] {
      var e := data[0];
      assert AdmitsAll(filters + [c], e) <==> AdmitsAll(filters, e) && Admits(c, e) by {
        if AdmitsAll(filters, e) && Admits(c, e) {
          forall i | 0 <= i < |filters + [c]| ensures Admits((filters + [c])[i], e) {
            if i < |filters| { assert (filters + [c])[i] == filters[i]; }
          }
        }
        if AdmitsAll(filters + [c], e) {
          forall i | 0 <= i < |filters| ensures Admits(filters[i], e) {
            assert (filters + [c])[i] == filters[i];
          }
          assert (filters + [c])[|filters|] == c;
        }
      }
      assert AdmitsAll([c], e) <==> Admits(c, e) by {
        assert [c][0] == c;
      }
      KeptNarrows(data[1..], filters, c);
      var head := if AdmitsAll(filters, e) then [e] else [];
      assert Kept(data, filters) == head + Kept(data[1..], filters);
      KeptAppend(head, Kept(data[1..], filters), [c]);
      if AdmitsAll(filters, e) {
        assert Kept(head, [c]) == (if Admits(c, e) then [e] else []) + Kept([], [c]);
      }
    }
  }

  lemma {:induction false} KeptAppend(a: seq<Event>, b: seq<Event>, filters: seq<Clause>)
    ensures Kept(a + b, filters) == Kept(a, filters) + Kept(b, filters)
  {
    if a != [] {
      assert (a + b)[0] == a[0];
      assert (a + b)[1..] == a[1..] + b;
      KeptAppend(a[1..], b, filters);
    } else {
      assert a + b == b;
    }
  }

  /** An empty filter dictionary keeps every row. */
  lemma {:induction false} KeptWithoutFilters(data: seq<Event>)
    ensures Kept(data, []) == data
  {
    if data != [] {
      KeptWithoutFilters(data[1..]);
    }
  }

  /** An entry with an empty list of allowed values keeps no row. */
  lemma {:induction false} KeptEmptyAllowed(data: seq<Event>, filters: seq<Clause>, i: nat)
    requires i < |filters| && filters[i].allowed == []
    ensures Kept(data, filters) == []
  {
    if data != [] {
      assert !Admits(filters[i], data[0]);
      KeptEmptyAllowed(data[1..], filters, i);
    }
  }

  /** The result keeps the input's order: it is a subsequence of the input. */
  lemma {:induction false} KeptIsSubsequence(data: seq<Event>, filters: seq<Clause>)
    ensures IsSubsequence(Kept(data, filters), data)
  {
    if data != [] {
      KeptIsSubsequence(data[1..], filters);
      var r := Kept(data, filters);
      if AdmitsAll(filters, data[0]) {
        assert r[0] == data[0] && r[1..] == Kept(data[1..], filters);
      } else {
        assert r == Kept(data[1..], filters);
        KeptOnlyAdmits(data[1..], filters);
        assert r != [] ==> r[0] != data[0] by {
          if r != [] { assert r[0] in Kept(data[1..], filters); }
        }
      }
    }
  }

  /** Every kept row has, for each filter field, a value in that field's allowed list. */
  lemma {:induction false} KeptOnlyAdmits(data: seq<Event>, filters: seq<Clause>)
    ensures forall e :: e in Kept(data, filters) ==> AdmitsAll(filters, e)
  {
    if data != [] {
      KeptOnlyAdmits(data[1..], filters);
    }
  }

  /**
   * Exactly the admitted rows survive, each as often as it occurs in the input:
   * nothing admitted is lost, nothing rejected is kept.
   */
  lemma {:induction false} KeptCounts(data: seq<Event>, filters: seq<Clause>, e: Event)
    ensures multiset(Kept(data, filters))[e] == if AdmitsAll(filters, e) then multiset(data)[e] else 0
  {
    if data != [] {
      KeptCounts(data[1..], filters, e);
      assert data == [data[0]] + data[1..];
    }
  }
}
