/**
 The two tables of the store (calendarbuddy.py:312-337), the parsed event tuple
 and event identity (`uid_for`, calendarbuddy.py:385-387).
 */
module Schema {
  import opened Optional

  /** An event identity: the hex digest `uid_for` returns. */
  type Uid = string

  /** One row of the `events` table. Start and end are NULL when the parser found no time. */
  datatype Row = Row(
    title: string,
    start: Option<string>,
    end: Option<string>,
    firstSeen: string,
    lastSeen: string,
    link: Option<string>,
    deleted: bool)

  /** The values of the `action` column. */
  datatype Action = Added | AddedUpdated | UpdatedOldMarkedDeleted | Removed

  /** The text stored for each action. */
  function Label(a: Action): string
  {
    match a
    case Added => "added"
    case AddedUpdated => "added (updated)"
    case UpdatedOldMarkedDeleted => "updated-old-marked-deleted"
    case Removed => "removed"
  }

  /** The log tells the four actions apart by their text. */
  lemma LabelsDistinct(a: Action, b: Action)
    ensures Label(a) == Label(b) <==> a == b
  {
  }

  /** What one `record_change` call writes, apart from its timestamp. */
  datatype Entry = Entry(
    action: Action,
    uid: Uid,
    title: string,
    start: Option<string>,
    end: Option<string>,
    link: Option<string>)

  /** One row of the `changes` table; its sequence id is its position in the log. */
  datatype Change = Change(ts: string, entry: Entry)

  /** Both tables: `events` keyed by uid and the append-only `changes` log. */
  datatype Tables = Tables(events: map<Uid, Row>, changes: seq<Change>)

  /** One `(title, start_time, end_time, meeting_link)` tuple produced by the parser. */
  datatype Parsed = Parsed(title: string, start: Option<string>, end: Option<string>, link: Option<string>)

  /** The text `uid_for` hashes: NULL start or end counts as the empty string. */
  function UidKey(title: string, start: Option<string>, end: Option<string>): string
  {
    title + "||" + start.GetOr("") + "||" + end.GetOr("")
  }

  /** `uid_for`, with the SHA-1 hex digest passed in as `hash`. */
  function UidFor(hash: string -> Uid, title: string, start: Option<string>, end: Option<string>): Uid
  {
    hash(UidKey(title, start, end))
  }

  /** The text after the last `'|'` of `k`, or all of `k` when it has none. */
  function AfterLastPipe(k: string): (r: string)
    ensures |r| <= |k| && r == k[|k| - |r|..]
    decreases |k|
  {
    if k == [] || k[|k| - 1] == '|' then [] else AfterLastPipe(k[..|k| - 1]) + [k[|k| - 1]]
  }

  lemma {:induction false} AfterLastPipeOf(p: string, x: string)
    requires '|' !in x
    ensures AfterLastPipe(p + "|" + x) == x
    decreases |x|
  {
    var k := p + "|" + x;
    if x != [] {
      assert k[..|k| - 1] == p + "|" + x[..|x| - 1];
      assert x[|x| - 1] in x;
      AfterLastPipeOf(p, x[..|x| - 1]);
    }
  }

  /** Text joined by `"||"` splits back at its last separator when the right part has no `'|'`. */
  lemma SplitAtLastSeparator(a: string, x: string, b: string, y: string)
    requires '|' !in x && '|' !in y
    requires a + "||" + x == b + "||" + y
    ensures a == b && x == y
  {
    var k := a + "||" + x;
    assert k == (a + "|") + "|" + x;
    assert b + "||" + y == (b + "|") + "|" + y;
    AfterLastPipeOf(a + "|", x);
    AfterLastPipeOf(b + "|", y);
    assert k[..|a|] == a;
    assert (b + "||" + y)[..|b|] == b;
  }

  /**
   For times without a `'|'` (ISO timestamps, as the parser produces), the key
   `uid_for` hashes determines the title and both times, a missing time counting as
   an empty one: equal keys mean the same title and times, and nothing else collides.
   */
  lemma UidKeyInjective(t1: string, s1: Option<string>, e1: Option<string>,
                        t2: string, s2: Option<string>, e2: Option<string>)
    requires '|' !in s1.GetOr("") && '|' !in e1.GetOr("")
    requires '|' !in s2.GetOr("") && '|' !in e2.GetOr("")
    ensures UidKey(t1, s1, e1) == UidKey(t2, s2, e2)
        <==> t1 == t2 && s1.GetOr("") == s2.GetOr("") && e1.GetOr("") == e2.GetOr("")
  {
    if UidKey(t1, s1, e1) == UidKey(t2, s2, e2) {
      SplitAtLastSeparator(t1 + "||" + s1.GetOr(""), e1.GetOr(""), t2 + "||" + s2.GetOr(""), e2.GetOr(""));
      SplitAtLastSeparator(t1, s1.GetOr(""), t2, s2.GetOr(""));
    }
  }

  /** `order` lists every key of `m` exactly once: the order in which the store yields its rows. */
  ghost predicate Enumerates<V>(order: seq<Uid>, m: map<Uid, V>)
  {
    && (forall i :: 0 <= i < |order| ==> order[i] in m)
    && (forall u :: u in m ==> u in order)
    && (forall i, j :: 0 <= i < j < |order| ==> order[i] != order[j])
  }
}
