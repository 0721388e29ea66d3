/**
 The read side: `events_on_date_query`, `events_in_range_query` (calendarbuddy.py:474-539)
 and `get_changes` (calendarbuddy.py:541-547), as filters over the tables followed by
 the `ORDER BY` of the query.
 */
module Queries {
  import opened Optional
  import opened Strings
  import opened Schema
  import opened Sorting

  /** The columns the view queries select. */
  datatype View = View(title: string, start: Option<string>, end: Option<string>, link: Option<string>)

  function ViewOf(r: Row): View
  {
    View(r.title, r.start, r.end, r.link)
  }

  function StartOf(v: View): Option<string>
  {
    v.start
  }

  /** SQLite `date(x)` on a stored ISO timestamp: its first ten characters; NULL stays NULL. */
  function DateOf(x: Option<string>): Option<string>
  {
    match x
    case None => None
    case Some(s) => Some(if |s| <= 10 then s else s[..10])
  }

  /** SQL `a <= b` on text: a comparison with NULL is never true. */
  predicate DateLe(a: Option<string>, b: Option<string>)
  {
    a.Some? && b.Some? && LexLe(a.value, b.value)
  }

  /** Python truthiness of an optional argument: None and "" both count as absent. */
  predicate Truthy(x: Option<string>)
  {
    x.Some? && x.value != ""
  }

  /**
   The `WHERE` clause of a view query: always `deleted=0`, then
   `date(start_time) <= date(upper)` when `upper` is given and
   `date(end_time) >= date(lower)` when `lower` is given.
   */
  datatype Where = Where(upper: Option<string>, lower: Option<string>)

  predicate Keeps(w: Where, r: Row)
  {
    && !r.deleted
    && (w.upper.Some? ==> DateLe(DateOf(r.start), DateOf(w.upper)))
    && (w.lower.Some? ==> DateLe(DateOf(w.lower), DateOf(r.end)))
  }

  /** The rows listed in `order` that pass `w`, in that order. */
  function Select(events: map<Uid, Row>, order: seq<Uid>, w: Where): seq<View>
    requires forall i :: 0 <= i < |order| ==> order[i] in events
    decreases |order|
  {
    if order == [] then []
    else
      (if Keeps(w, events[order[0]]) then [ViewOf(events[order[0]])] else [])
      + Select(events, order[1..], w)
  }

  /** The uids a query with clause `w` selects. */
  ghost function Matching(events: map<Uid, Row>, w: Where): set<Uid>
  {
    set u | u in events && Keeps(w, events[u])
  }

  lemma {:induction false} SelectMember(events: map<Uid, Row>, order: seq<Uid>, w: Where, v: View)
    requires forall i :: 0 <= i < |order| ==> order[i] in events
    ensures v in Select(events, order, w) <==> exists u :: u in order && Keeps(w, events[u]) && ViewOf(events[u]) == v
    decreases |order|
  {
    if order != [] {
      SelectMember(events, order[1..], w, v);
      assert forall u :: u in order <==> u == order[0] || u in order[1..];
    }
  }

  /** Over a list without repeats, the filter has one view per selected uid. */
  lemma {:induction false} SelectCount(events: map<Uid, Row>, order: seq<Uid>, w: Where)
    requires forall i :: 0 <= i < |order| ==> order[i] in events
    requires forall i, j :: 0 <= i < j < |order| ==> order[i] != order[j]
    ensures |Select(events, order, w)| == |set u | u in order && Keeps(w, events[u])|
    decreases |order|
  {
    if order != [] {
      var u0 := order[0];
      SelectCount(events, order[1..], w);
      var rest := set u | u in order[1..] && Keeps(w, events[u]);
      var all := set u | u in order && Keeps(w, events[u]);
      assert u0 !in rest;
      if Keeps(w, events[u0]) {
        assert all == {u0} + rest;
      } else {
        assert all == rest;
      }
    }
  }

  /**
   One view query: the active rows that pass `w`, in `ORDER BY start_time` order,
   exactly one view per selected row.
   */
  function Query(events: map<Uid, Row>, order: seq<Uid>, w: Where): (r: seq<View>)
    requires Enumerates(order, events)
    ensures SortedBy(r, StartOf)
    ensures forall v :: v in r <==> exists u :: u in events && Keeps(w, events[u]) && ViewOf(events[u]) == v
    ensures |r| == |Matching(events, w)|
  {
    var s := Select(events, order, w);
    var r := SortBy(s, StartOf);
    assert forall v :: v in r <==> v in s by {
      forall v ensures v in r <==> v in s {
        assert v in r <==> v in multiset(r);
      }
    }
    forall v ensures v in s <==> exists u :: u in events && Keeps(w, events[u]) && ViewOf(events[u]) == v {
      SelectMember(events, order, w, v);
    }
    SelectCount(events, order, w);
    assert (set u | u in order && Keeps(w, events[u])) == Matching(events, w);
    r
  }

  /** `events_on_date_query`: rows whose dates span `target`. */
  function EventsOnDate(events: map<Uid, Row>, order: seq<Uid>, target: string): (r: seq<View>)
    requires Enumerates(order, events)
    ensures SortedBy(r, StartOf)
    ensures forall v :: v in r <==>
      (exists u :: && u in events && ViewOf(events[u]) == v
                   && !events[u].deleted
                   && DateLe(DateOf(events[u].start), DateOf(Some(target)))
                   && DateLe(DateOf(Some(target)), DateOf(events[u].end)))
  {
    Query(events, order, Where(Some(target), Some(target)))
  }

  /** The branches at calendarbuddy.py:500-539: which bounds make it into the `WHERE` clause. */
  function RangeWhere(from: Option<string>, to: Option<string>): Where
  {
    if Truthy(from) && Truthy(to) then Where(to, from)
    else if Truthy(from) then Where(None, from)
    else if Truthy(to) then Where(to, None)
    else Where(None, None)
  }

  /**
   What the range query is meant to select: active rows that start no later than
   a given upper bound and end no earlier than a given lower bound, each bound
   ignored when absent or empty.
   */
  ghost predicate Overlaps(r: Row, from: Option<string>, to: Option<string>)
  {
    && !r.deleted
    && (Truthy(to) ==> DateLe(DateOf(r.start), DateOf(to)))
    && (Truthy(from) ==> DateLe(DateOf(from), DateOf(r.end)))
  }

  /** The four branches together select exactly the overlapping rows. */
  lemma RangeWhereMeans(from: Option<string>, to: Option<string>, r: Row)
    ensures Keeps(RangeWhere(from, to), r) <==> Overlaps(r, from, to)
  {
  }

  /** `events_in_range_query`: rows overlapping `[from, to]`, either bound optional. */
  function EventsInRange(events: map<Uid, Row>, order: seq<Uid>, from: Option<string>, to: Option<string>)
    : (r: seq<View>)
    requires Enumerates(order, events)
    ensures SortedBy(r, StartOf)
    ensures forall v :: v in r <==> exists u :: u in events && Overlaps(events[u], from, to) && ViewOf(events[u]) == v
    ensures |r| == |set u | u in events && Overlaps(events[u], from, to)|
  {
    var w := RangeWhere(from, to);
    forall u | u in events ensures Keeps(w, events[u]) <==> Overlaps(events[u], from, to) {
      RangeWhereMeans(from, to, events[u]);
    }
    assert Matching(events, w) == set u | u in events && Overlaps(events[u], from, to);
    Query(events, order, w)
  }

  /** A one-day range is the same query as the day query, unless the day is empty. */
  lemma OnDateIsOneDayRange(events: map<Uid, Row>, order: seq<Uid>, target: string)
    requires Enumerates(order, events)
    requires target != ""
    ensures EventsOnDate(events, order, target) == EventsInRange(events, order, Some(target), Some(target))
  {
    assert RangeWhere(Some(target), Some(target)) == Where(Some(target), Some(target));
  }

  // ---------------------------------------------------------------------------
  // get_changes

  function TsOf(c: Change): Option<string>
  {
    Some(c.ts)
  }

  /** The `WHERE ts >= ?` clause, present only for a truthy `since`. */
  predicate Since(c: Change, since: Option<string>)
  {
    Truthy(since) ==> LexLe(since.value, c.ts)
  }

  /** The records `get_changes` selects, in log order. */
  function FilterSince(log: seq<Change>, since: Option<string>): (r: seq<Change>)
    ensures forall c :: c in r <==> c in log && Since(c, since)
    decreases |log|
  {
    if log == [] then []
    else
      var rest := FilterSince(log[1..], since);
      assert forall c :: c in log <==> c == log[0] || c in log[1..];
      (if Since(log[0], since) then [log[0]] else []) + rest
  }

  /** `get_changes`: the selected records in `ORDER BY ts` order. */
  function GetChanges(log: seq<Change>, since: Option<string>): (r: seq<Change>)
    ensures SortedBy(r, TsOf)
    ensures multiset(r) == multiset(FilterSince(log, since))
  {
    SortBy(FilterSince(log, since), TsOf)
  }

  lemma {:induction false} FilterSinceSorted(log: seq<Change>, since: Option<string>)
    requires SortedBy(log, TsOf)
    ensures SortedBy(FilterSince(log, since), TsOf)
    decreases |log|
  {
    if log != [] {
      assert SortedBy(log[1..], TsOf);
      FilterSinceSorted(log[1..], since);
      var rest := FilterSince(log[1..], since);
      var r := FilterSince(log, since);
      if Since(log[0], since) {
        assert r == [log[0]] + rest;
        forall i, j | 0 <= i < j < |r| ensures KeyLe(TsOf(r[i]), TsOf(r[j])) {
          assert r[j] == rest[j - 1];
          assert rest[j - 1] in log[1..];
          if i == 0 {
            var k :| 0 <= k < |log[1..]| && log[1..][k] == rest[j - 1];
            assert log[k + 1] == rest[j - 1];
          } else {
            assert r[i] == rest[i - 1];
          }
        }
      }
    }
  }

  /** When the log is already in timestamp order, `get_changes` returns records as they were written. */
  lemma ChangesInLogOrder(log: seq<Change>, since: Option<string>)
    requires SortedBy(log, TsOf)
    ensures GetChanges(log, since) == FilterSince(log, since)
  {
    FilterSinceSorted(log, since);
    SortSorted(FilterSince(log, since), TsOf);
  }
}
