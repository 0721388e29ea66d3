/**
 The reconciliation pass `process_and_sync` (calendarbuddy.py:389-441) and
 `record_change` (calendarbuddy.py:378-383).

 The pass reads the whole `events` table once into `db_map` and never reads it
 again: every decision below is taken against that stale snapshot (`Pass.db`),
 while the writes go to the evolving tables (`Tables`). Rows are never deleted
 from `events`, so every key of the snapshot stays a key of the tables.
 */
module Sync {
  import opened Optional
  import opened Schema

  /**
   The inputs the source reads from its surroundings: the SHA-1 behind `uid_for`,
   the pass timestamp `now` (line 394), and the clock `record_change` reads for each
   record (line 379), given as the timestamp of the change with each sequence id.
   */
  datatype Env = Env(hash: string -> Uid, now: string, clock: nat -> string)

  /** What a pass fixes at its start: the snapshot, the order the store yields it in, the flags. */
  datatype Pass = Pass(db: map<Uid, Row>, order: seq<Uid>, env: Env, dryRun: bool)

  function UidOf(p: Pass, e: Parsed): Uid
  {
    UidFor(p.env.hash, e.title, e.start, e.end)
  }

  /** `current_uids` once the loop is over. */
  function BatchUids(hash: string -> Uid, batch: seq<Parsed>): set<Uid>
  {
    set e | e in batch :: UidFor(hash, e.title, e.start, e.end)
  }

  /** `existing_same_title` is non-empty: some snapshot row with this title is active. */
  predicate HasActiveSameTitle(db: map<Uid, Row>, title: string)
  {
    exists u | u in db :: db[u].title == title && !db[u].deleted
  }

  /** The snapshot row `u` belongs to `existing_same_title` for `title`. */
  predicate Retirable(p: Pass, u: Uid, title: string)
  {
    u in p.db && p.db[u].title == title && !p.db[u].deleted
  }

  /** The removal pass's test at line 435. */
  predicate Removable(p: Pass, u: Uid, current: set<Uid>)
  {
    u in p.db && !p.db[u].deleted && u !in current
  }

  /** The fields that make up an identity, plus `first_seen`: what no pass may change. */
  predicate SameIdentity(a: Row, b: Row)
  {
    a.title == b.title && a.start == b.start && a.end == b.end && a.firstSeen == b.firstSeen
  }

  /** `record_change`: one new change stamped with the clock reading for its sequence id. */
  function Append(log: seq<Change>, clock: nat -> string, en: Entry): seq<Change>
  {
    log + [Change(clock(|log|), en)]
  }

  function NewRow(e: Parsed, now: string): Row
  {
    Row(e.title, e.start, e.end, now, now, e.link, false)
  }

  function NewEntry(a: Action, u: Uid, e: Parsed): Entry
  {
    Entry(a, u, e.title, e.start, e.end, e.link)
  }

  /** A record about a snapshot row: it carries the snapshot's values, stale link included. */
  function OldEntry(a: Action, u: Uid, r: Row): Entry
  {
    Entry(a, u, r.title, r.start, r.end, r.link)
  }

  function Retired(r: Row, now: string): Row
  {
    r.(deleted := true, lastSeen := now)
  }

  /** `UPDATE events SET deleted=1, last_seen=? WHERE uid=?` (lines 412 and 437). */
  function MarkDeleted(ev: map<Uid, Row>, u: Uid, now: string): map<Uid, Row>
  {
    if u in ev then ev[u := Retired(ev[u], now)] else ev
  }

  /** `UPDATE events SET last_seen=?, deleted=0, meeting_link=? WHERE uid=?` (line 405). */
  function MarkSeen(ev: map<Uid, Row>, u: Uid, now: string, link: Option<string>): map<Uid, Row>
  {
    if u in ev then ev[u := ev[u].(lastSeen := now, deleted := false, link := link)] else ev
  }

  /** Lines 408-413: retire every snapshot row in `us` that is active with this title. */
  function RetireSameTitle(p: Pass, t: Tables, us: seq<Uid>, title: string): (r: Tables)
    ensures t.changes <= r.changes
    ensures r.events.Keys == t.events.Keys
    ensures forall u :: u in t.events ==> SameIdentity(r.events[u], t.events[u])
    ensures p.dryRun ==> r == t
    decreases |us|
  {
    if us == [] then t
    else
      var u := us[0];
      var t' :=
        if Retirable(p, u, title) && !p.dryRun then
          Tables(MarkDeleted(t.events, u, p.env.now),
                 Append(t.changes, p.env.clock, OldEntry(UpdatedOldMarkedDeleted, u, p.db[u])))
        else t;
      RetireSameTitle(p, t', us[1..], title)
  }

  /** One iteration of the loop at lines 398-429. */
  function SyncItem(p: Pass, t: Tables, e: Parsed): (r: Tables)
    ensures t.changes <= r.changes
    ensures r.events.Keys == t.events.Keys + (if p.dryRun || UidOf(p, e) in p.db then {} else {UidOf(p, e)})
    ensures forall u :: u in t.events && u in p.db ==> SameIdentity(r.events[u], t.events[u])
    ensures p.dryRun ==> r == t
  {
    var u := UidOf(p, e);
    if u in p.db then
      if p.dryRun then t else t.(events := MarkSeen(t.events, u, p.env.now, e.link))
    else if HasActiveSameTitle(p.db, e.title) then
      var t1 := RetireSameTitle(p, t, p.order, e.title);
      if p.dryRun then t1
      else Tables(t1.events[u := NewRow(e, p.env.now)],
                  Append(t1.changes, p.env.clock, NewEntry(AddedUpdated, u, e)))
    else if p.dryRun then t
    else Tables(t.events[u := NewRow(e, p.env.now)],
                Append(t.changes, p.env.clock, NewEntry(Added, u, e)))
  }

  /** The whole loop at lines 398-429, in batch order. */
  function SyncBatch(p: Pass, t: Tables, batch: seq<Parsed>): (r: Tables)
    ensures t.changes <= r.changes
    ensures r.events.Keys == t.events.Keys + (if p.dryRun then {} else BatchUids(p.env.hash, batch) - p.db.Keys)
    ensures forall u :: u in t.events && u in p.db ==> SameIdentity(r.events[u], t.events[u])
    ensures p.dryRun ==> r == t
    decreases |batch|
  {
    if batch == [] then t
    else
      var r := SyncBatch(p, SyncItem(p, t, batch[0]), batch[1..]);
      assert BatchUids(p.env.hash, batch) == {UidOf(p, batch[0])} + BatchUids(p.env.hash, batch[1..]) by {
        assert forall e :: e in batch <==> e == batch[0] || e in batch[1..];
      }
      r
  }

  /** Lines 433-438: retire every active snapshot row the batch did not mention. */
  function RemovalPass(p: Pass, t: Tables, us: seq<Uid>, current: set<Uid>): (r: Tables)
    ensures t.changes <= r.changes
    ensures r.events.Keys == t.events.Keys
    ensures forall u :: u in t.events ==> SameIdentity(r.events[u], t.events[u])
    ensures p.dryRun ==> r == t
    decreases |us|
  {
    if us == [] then t
    else
      var u := us[0];
      var t' :=
        if Removable(p, u, current) && !p.dryRun then
          Tables(MarkDeleted(t.events, u, p.env.now),
                 Append(t.changes, p.env.clock, OldEntry(Removed, u, p.db[u])))
        else t;
      RemovalPass(p, t', us[1..], current)
  }

  /** The pass a call of `process_and_sync` on tables `t` runs. */
  function PassFor(t: Tables, order: seq<Uid>, env: Env, dryRun: bool): Pass
  {
    Pass(t.events, order, env, dryRun)
  }

  /** The body of `process_and_sync` over an explicit snapshot. */
  function Run(p: Pass, t: Tables, batch: seq<Parsed>, lookbackMode: bool): Tables
  {
    var t1 := SyncBatch(p, t, batch);
    if lookbackMode then t1 else RemovalPass(p, t1, p.order, BatchUids(p.env.hash, batch))
  }

  // ---------------------------------------------------------------------------
  // The change log as a list of entries

  /** Changes for `es`, the first one with sequence id `k`. */
  function Stamp(k: nat, clock: nat -> string, es: seq<Entry>): (r: seq<Change>)
    ensures |r| == |es|
  {
    seq(|es|, i requires 0 <= i < |es| => Change(clock(k + i), es[i]))
  }

  /** The change at offset `i` of a stamped list has sequence id `k + i`. */
  lemma StampAt(k: nat, clock: nat -> string, es: seq<Entry>, i: nat)
    requires i < |es|
    ensures Stamp(k, clock, es)[i] == Change(clock(k + i), es[i])
  {
  }

  /** The records lines 410-413 write for one new batch item, in snapshot order. */
  function RetiredEntries(p: Pass, us: seq<Uid>, title: string): seq<Entry>
    decreases |us|
  {
    if us == [] then []
    else
      (if Retirable(p, us[0], title) then [OldEntry(UpdatedOldMarkedDeleted, us[0], p.db[us[0]])] else [])
      + RetiredEntries(p, us[1..], title)
  }

  /** The records one batch item causes. */
  function ItemEntries(p: Pass, e: Parsed): seq<Entry>
  {
    var u := UidOf(p, e);
    if u in p.db then []
    else if HasActiveSameTitle(p.db, e.title) then
      RetiredEntries(p, p.order, e.title) + [NewEntry(AddedUpdated, u, e)]
    else [NewEntry(Added, u, e)]
  }

  function BatchEntries(p: Pass, batch: seq<Parsed>): seq<Entry>
    decreases |batch|
  {
    if batch == [] then [] else ItemEntries(p, batch[0]) + BatchEntries(p, batch[1..])
  }

  function RemovedEntries(p: Pass, us: seq<Uid>, current: set<Uid>): seq<Entry>
    decreases |us|
  {
    if us == [] then []
    else
      (if Removable(p, us[0], current) then [OldEntry(Removed, us[0], p.db[us[0]])] else [])
      + RemovedEntries(p, us[1..], current)
  }

  /** Every record one pass appends, in the order it appends them. */
  function PassEntries(p: Pass, batch: seq<Parsed>, lookbackMode: bool): seq<Entry>
  {
    if p.dryRun then []
    else
      BatchEntries(p, batch)
      + (if lookbackMode then [] else RemovedEntries(p, p.order, BatchUids(p.env.hash, batch)))
  }

  lemma AppendThenStamp(log: seq<Change>, clock: nat -> string, en: Entry, es: seq<Entry>)
    ensures Append(log, clock, en) + Stamp(|log| + 1, clock, es) == log + Stamp(|log|, clock, [en] + es)
  {
    var a := Append(log, clock, en) + Stamp(|log| + 1, clock, es);
    var b := log + Stamp(|log|, clock, [en] + es);
    assert |a| == |b|;
    forall i | 0 <= i < |a| ensures a[i] == b[i] {
      if i > |log| {
        assert ([en] + es)[i - |log|] == es[i - |log| - 1];
      }
    }
  }

  lemma StampConcat(k: nat, clock: nat -> string, es1: seq<Entry>, es2: seq<Entry>)
    ensures Stamp(k, clock, es1) + Stamp(k + |es1|, clock, es2) == Stamp(k, clock, es1 + es2)
  {
    var a := Stamp(k, clock, es1) + Stamp(k + |es1|, clock, es2);
    var b := Stamp(k, clock, es1 + es2);
    assert |a| == |b|;
    forall i | 0 <= i < |a| ensures a[i] == b[i] {
    }
  }

  lemma {:induction false} RetireLog(p: Pass, t: Tables, us: seq<Uid>, title: string)
    requires !p.dryRun
    ensures RetireSameTitle(p, t, us, title).changes
         == t.changes + Stamp(|t.changes|, p.env.clock, RetiredEntries(p, us, title))
    decreases |us|
  {
    if us != [] {
      var u := us[0];
      if Retirable(p, u, title) {
        var t' := Tables(MarkDeleted(t.events, u, p.env.now),
                         Append(t.changes, p.env.clock, OldEntry(UpdatedOldMarkedDeleted, u, p.db[u])));
        RetireLog(p, t', us[1..], title);
        AppendThenStamp(t.changes, p.env.clock, OldEntry(UpdatedOldMarkedDeleted, u, p.db[u]), RetiredEntries(p, us[1..], title));
      } else {
        RetireLog(p, t, us[1..], title);
      }
    }
  }

  lemma RemovalLog(p: Pass, t: Tables, us: seq<Uid>, current: set<Uid>)
    requires !p.dryRun
    ensures RemovalPass(p, t, us, current).changes
         == t.changes + Stamp(|t.changes|, p.env.clock, RemovedEntries(p, us, current))
    decreases |us|
  {
    if us != [] {
      var u := us[0];
      if Removable(p, u, current) {
        var t' := Tables(MarkDeleted(t.events, u, p.env.now),
                         Append(t.changes, p.env.clock, OldEntry(Removed, u, p.db[u])));
        RemovalLog(p, t', us[1..], current);
        AppendThenStamp(t.changes, p.env.clock, OldEntry(Removed, u, p.db[u]), RemovedEntries(p, us[1..], current));
      } else {
        RemovalLog(p, t, us[1..], current);
      }
    }
  }

  lemma ItemLog(p: Pass, t: Tables, e: Parsed)
    requires !p.dryRun
    ensures SyncItem(p, t, e).changes == t.changes + Stamp(|t.changes|, p.env.clock, ItemEntries(p, e))
  {
    var u := UidOf(p, e);
    if u !in p.db {
      if HasActiveSameTitle(p.db, e.title) {
        var es := RetiredEntries(p, p.order, e.title);
        var t1 := RetireSameTitle(p, t, p.order, e.title);
        RetireLog(p, t, p.order, e.title);
        StampConcat(|t.changes|, p.env.clock, es, [NewEntry(AddedUpdated, u, e)]);
      } else {
        assert Stamp(|t.changes|, p.env.clock, [NewEntry(Added, u, e)])
            == [Change(p.env.clock(|t.changes|), NewEntry(Added, u, e))];
      }
    }
  }

  /** Two stamped extensions in a row are one stamped extension by the concatenation. */
  lemma ComposeLogs(log0: seq<Change>, log1: seq<Change>, log2: seq<Change>, clock: nat -> string,
                    es1: seq<Entry>, es2: seq<Entry>)
    requires log1 == log0 + Stamp(|log0|, clock, es1)
    requires log2 == log1 + Stamp(|log1|, clock, es2)
    ensures log2 == log0 + Stamp(|log0|, clock, es1 + es2)
  {
    StampConcat(|log0|, clock, es1, es2);
  }

  lemma SyncBatchCons(p: Pass, t: Tables, batch: seq<Parsed>)
    requires batch != []
    ensures SyncBatch(p, t, batch) == SyncBatch(p, SyncItem(p, t, batch[0]), batch[1..])
    ensures BatchEntries(p, batch) == ItemEntries(p, batch[0]) + BatchEntries(p, batch[1..])
  {
  }

  lemma {:induction false} BatchLog(p: Pass, t: Tables, batch: seq<Parsed>)
    requires !p.dryRun
    ensures SyncBatch(p, t, batch).changes == t.changes + Stamp(|t.changes|, p.env.clock, BatchEntries(p, batch))
    decreases |batch|
  {
    if batch == [] {
      assert Stamp(|t.changes|, p.env.clock, []) == [];
    } else {
      var t1 := SyncItem(p, t, batch[0]);
      ItemLog(p, t, batch[0]);
      BatchLog(p, t1, batch[1..]);
      SyncBatchCons(p, t, batch);
      ComposeLogs(t.changes, t1.changes, SyncBatch(p, t1, batch[1..]).changes, p.env.clock,
                  ItemEntries(p, batch[0]), BatchEntries(p, batch[1..]));
    }
  }

  /** The change log after a pass: the old log, then exactly `PassEntries`, each stamped by the record clock. */
  lemma RunLog(p: Pass, t: Tables, batch: seq<Parsed>, lookbackMode: bool)
    ensures Run(p, t, batch, lookbackMode).changes
         == t.changes + Stamp(|t.changes|, p.env.clock, PassEntries(p, batch, lookbackMode))
  {
    if p.dryRun {
      assert Stamp(|t.changes|, p.env.clock, []) == [];
    } else {
      var t1 := SyncBatch(p, t, batch);
      BatchLog(p, t, batch);
      if lookbackMode {
        assert PassEntries(p, batch, lookbackMode) == BatchEntries(p, batch) + [];
      } else {
        var cur := BatchUids(p.env.hash, batch);
        RemovalLog(p, t1, p.order, cur);
        ComposeLogs(t.changes, t1.changes, RemovalPass(p, t1, p.order, cur).changes, p.env.clock,
                    BatchEntries(p, batch), RemovedEntries(p, p.order, cur));
      }
    }
  }

  // ---------------------------------------------------------------------------
  // The events table, row by row

  /** Some batch item with a new uid retires snapshot row `u`. */
  ghost predicate RetiredBy(p: Pass, batch: seq<Parsed>, u: Uid)
  {
    exists i :: 0 <= i < |batch| && UidOf(p, batch[i]) !in p.db && Retirable(p, u, batch[i].title)
  }

  /** Uid `u` occurs nowhere in `batch`. */
  ghost predicate Absent(p: Pass, batch: seq<Parsed>, u: Uid)
  {
    forall i :: 0 <= i < |batch| ==> UidOf(p, batch[i]) != u
  }

  lemma {:induction false} RetireRow(p: Pass, t: Tables, us: seq<Uid>, title: string, u: Uid)
    requires u in t.events
    ensures RetireSameTitle(p, t, us, title).events[u]
         == if !p.dryRun && u in us && Retirable(p, u, title) then Retired(t.events[u], p.env.now) else t.events[u]
    decreases |us|
  {
    if us != [] {
      var v := us[0];
      var t' :=
        if Retirable(p, v, title) && !p.dryRun then
          Tables(MarkDeleted(t.events, v, p.env.now),
                 Append(t.changes, p.env.clock, OldEntry(UpdatedOldMarkedDeleted, v, p.db[v])))
        else t;
      RetireRow(p, t', us[1..], title, u);
      assert u in us <==> u == v || u in us[1..];
    }
  }

  lemma {:induction false} RemovalRow(p: Pass, t: Tables, us: seq<Uid>, current: set<Uid>, u: Uid)
    requires u in t.events
    ensures RemovalPass(p, t, us, current).events[u]
         == if !p.dryRun && u in us && Removable(p, u, current) then Retired(t.events[u], p.env.now) else t.events[u]
    decreases |us|
  {
    if us != [] {
      var v := us[0];
      var t' :=
        if Removable(p, v, current) && !p.dryRun then
          Tables(MarkDeleted(t.events, v, p.env.now),
                 Append(t.changes, p.env.clock, OldEntry(Removed, v, p.db[v])))
        else t;
      RemovalRow(p, t', us[1..], current, u);
      assert u in us <==> u == v || u in us[1..];
    }
  }

  /** A batch item leaves every other row alone unless it retires it. */
  lemma ItemRowOther(p: Pass, t: Tables, e: Parsed, u: Uid)
    requires Enumerates(p.order, p.db)
    requires u in t.events && u != UidOf(p, e)
    ensures SyncItem(p, t, e).events[u]
         == if !p.dryRun && UidOf(p, e) !in p.db && Retirable(p, u, e.title)
            then Retired(t.events[u], p.env.now) else t.events[u]
  {
    var v := UidOf(p, e);
    if v !in p.db && HasActiveSameTitle(p.db, e.title) {
      RetireRow(p, t, p.order, e.title, u);
    }
  }

  lemma {:induction false} BatchRowAbsent(p: Pass, t: Tables, batch: seq<Parsed>, u: Uid)
    requires Enumerates(p.order, p.db)
    requires u in t.events && Absent(p, batch, u)
    ensures SyncBatch(p, t, batch).events[u]
         == if !p.dryRun && RetiredBy(p, batch, u) then Retired(t.events[u], p.env.now) else t.events[u]
    decreases |batch|
  {
    if batch != [] {
      var t1 := SyncItem(p, t, batch[0]);
      ItemRowOther(p, t, batch[0], u);
      assert Absent(p, batch[1..], u) by {
        forall i | 0 <= i < |batch[1..]| ensures UidOf(p, batch[1..][i]) != u {
          assert batch[1..][i] == batch[i + 1];
        }
      }
      BatchRowAbsent(p, t1, batch[1..], u);
      assert RetiredBy(p, batch, u) <==>
        (UidOf(p, batch[0]) !in p.db && Retirable(p, u, batch[0].title)) || RetiredBy(p, batch[1..], u) by {
        if RetiredBy(p, batch[1..], u) {
          var i :| 0 <= i < |batch[1..]| && UidOf(p, batch[1..][i]) !in p.db && Retirable(p, u, batch[1..][i].title);
          assert batch[i + 1] == batch[1..][i];
        }
        if RetiredBy(p, batch, u) {
          var i :| 0 <= i < |batch| && UidOf(p, batch[i]) !in p.db && Retirable(p, u, batch[i].title);
          if i > 0 {
            assert batch[1..][i - 1] == batch[i];
          }
        }
      }
    }
  }

  lemma {:induction false} SyncBatchSplit(p: Pass, t: Tables, batch: seq<Parsed>, i: nat)
    requires i <= |batch|
    ensures SyncBatch(p, t, batch) == SyncBatch(p, SyncBatch(p, t, batch[..i]), batch[i..])
    decreases i
  {
    if i > 0 {
      var t1 := SyncItem(p, t, batch[0]);
      var head := batch[..i];
      assert head[0] == batch[0] && head[1..] == batch[1..][..i - 1];
      assert batch[1..][i - 1..] == batch[i..];
      SyncBatchCons(p, t, batch);
      SyncBatchCons(p, t, head);
      SyncBatchSplit(p, t1, batch[1..], i - 1);
    } else {
      assert batch[..0] == [] && batch[0..] == batch;
    }
  }

  /** The row of the item's own uid right after the item is processed. */
  lemma ItemRowSelf(p: Pass, t: Tables, e: Parsed)
    requires !p.dryRun
    requires UidOf(p, e) in p.db ==> UidOf(p, e) in t.events
    ensures UidOf(p, e) in SyncItem(p, t, e).events
    ensures SyncItem(p, t, e).events[UidOf(p, e)]
         == if UidOf(p, e) in p.db
            then t.events[UidOf(p, e)].(lastSeen := p.env.now, deleted := false, link := e.link)
            else NewRow(e, p.env.now)
  {
  }

  /**
   The row of a batch uid once the loop is over: a uid new to the snapshot holds the
   last item with that uid; a snapshot uid is seen now, carries the last item's link,
   and is deleted exactly when a later new item with its title retired it.
   */
  lemma BatchRowLast(p: Pass, t: Tables, batch: seq<Parsed>, i: nat)
    requires Enumerates(p.order, p.db) && p.db == t.events && !p.dryRun
    requires i < |batch| && Absent(p, batch[i + 1..], UidOf(p, batch[i]))
    ensures UidOf(p, batch[i]) in SyncBatch(p, t, batch).events
    ensures var u := UidOf(p, batch[i]);
      SyncBatch(p, t, batch).events[u]
      == if u in p.db
         then p.db[u].(lastSeen := p.env.now, link := batch[i].link, deleted := RetiredBy(p, batch[i + 1..], u))
         else NewRow(batch[i], p.env.now)
  {
    var u := UidOf(p, batch[i]);
    var t0 := SyncBatch(p, t, batch[..i]);
    var t1 := SyncItem(p, t0, batch[i]);
    var rest := batch[i + 1..];
    SyncBatchSplit(p, t, batch, i);
    assert batch[i..][0] == batch[i] && batch[i..][1..] == rest;
    SyncBatchCons(p, t0, batch[i..]);
    assert SyncBatch(p, t, batch) == SyncBatch(p, t1, rest);
    ItemRowSelf(p, t0, batch[i]);
    BatchRowAbsent(p, t1, rest, u);
    if u in p.db {
      assert SameIdentity(t0.events[u], p.db[u]);
    } else {
      assert !RetiredBy(p, rest, u);
    }
  }

  /** A snapshot row the batch never mentions. */
  lemma UnbatchedRow(p: Pass, t: Tables, batch: seq<Parsed>, lookbackMode: bool, u: Uid)
    requires Enumerates(p.order, p.db) && p.db == t.events && !p.dryRun
    requires u in t.events && u !in BatchUids(p.env.hash, batch)
    ensures Run(p, t, batch, lookbackMode).events[u]
         == if RetiredBy(p, batch, u) || (!lookbackMode && !p.db[u].deleted)
            then Retired(p.db[u], p.env.now) else p.db[u]
  {
    assert Absent(p, batch, u) by {
      forall i | 0 <= i < |batch| ensures UidOf(p, batch[i]) != u {
        assert batch[i] in batch;
      }
    }
    BatchRowAbsent(p, t, batch, u);
    var t1 := SyncBatch(p, t, batch);
    if !lookbackMode {
      RemovalRow(p, t1, p.order, BatchUids(p.env.hash, batch), u);
    }
  }

  /** The removal pass only touches rows outside the batch. */
  lemma RemovalKeepsBatchRows(p: Pass, t: Tables, batch: seq<Parsed>, lookbackMode: bool, u: Uid)
    requires u in BatchUids(p.env.hash, batch) && u in SyncBatch(p, t, batch).events
    ensures Run(p, t, batch, lookbackMode).events[u] == SyncBatch(p, t, batch).events[u]
  {
    if !lookbackMode {
      RemovalRow(p, SyncBatch(p, t, batch), p.order, BatchUids(p.env.hash, batch), u);
    }
  }

  /** The pass only adds rows: one per batch uid the table lacked. */
  lemma RunKeys(p: Pass, t: Tables, batch: seq<Parsed>, lookbackMode: bool)
    requires p.db == t.events
    ensures Run(p, t, batch, lookbackMode).events.Keys
         == t.events.Keys + (if p.dryRun then {} else BatchUids(p.env.hash, batch))
  {
  }

  /** No row changes title, times or first sighting. */
  lemma RunKeepsIdentity(p: Pass, t: Tables, batch: seq<Parsed>, lookbackMode: bool)
    requires p.db == t.events
    ensures forall u :: u in t.events ==> SameIdentity(Run(p, t, batch, lookbackMode).events[u], t.events[u])
  {
  }

  /** The row of a batch item whose uid the table lacked. */
  lemma RunRowOfNewItem(p: Pass, t: Tables, batch: seq<Parsed>, lookbackMode: bool, e: Parsed)
    requires Enumerates(p.order, p.db) && p.db == t.events && !p.dryRun
    requires e in batch && UidOf(p, e) !in t.events
    ensures Run(p, t, batch, lookbackMode).events[UidOf(p, e)] == NewRow(batch[LastIndexOf(p, batch, UidOf(p, e), IndexOf(batch, e))], p.env.now)
  {
    var u := UidOf(p, e);
    var i := LastIndexOf(p, batch, u, IndexOf(batch, e));
    BatchRowLast(p, t, batch, i);
    assert u in BatchUids(p.env.hash, batch);
    RemovalKeepsBatchRows(p, t, batch, lookbackMode, u);
  }

  /** A row the pass creates is first and last seen now, and active. */
  lemma RunNewRows(p: Pass, t: Tables, batch: seq<Parsed>, lookbackMode: bool)
    requires Enumerates(p.order, p.db) && p.db == t.events
    ensures var r := Run(p, t, batch, lookbackMode);
      forall u :: u in r.events && u !in t.events ==>
        r.events[u].firstSeen == p.env.now && r.events[u].lastSeen == p.env.now && !r.events[u].deleted
  {
    var r := Run(p, t, batch, lookbackMode);
    RunKeys(p, t, batch, lookbackMode);
    forall u | u in r.events && u !in t.events
      ensures r.events[u].firstSeen == p.env.now && r.events[u].lastSeen == p.env.now && !r.events[u].deleted
    {
      assert u in BatchUids(p.env.hash, batch);
      var e :| e in batch && UidOf(p, e) == u;
      RunRowOfNewItem(p, t, batch, lookbackMode, e);
    }
  }

  /** Outside lookback mode, every row the batch does not mention ends deleted. */
  lemma RunRetiresUnbatched(p: Pass, t: Tables, batch: seq<Parsed>, lookbackMode: bool)
    requires Enumerates(p.order, p.db) && p.db == t.events && !p.dryRun && !lookbackMode
    ensures var r := Run(p, t, batch, lookbackMode);
      forall u :: u in r.events && u !in BatchUids(p.env.hash, batch) ==> r.events[u].deleted
  {
    var r := Run(p, t, batch, lookbackMode);
    forall u | u in r.events && u !in BatchUids(p.env.hash, batch) ensures r.events[u].deleted {
      RunKeys(p, t, batch, lookbackMode);
      UnbatchedRow(p, t, batch, lookbackMode, u);
    }
  }

  /**
   `process_and_sync` on tables `t`, whose rows the store yields in `order`.
   A dry run changes nothing; otherwise the log only grows, by exactly the records
   `PassEntries` lists, each stamped by the record clock with its sequence id.
   The rows afterwards are the old rows plus one per new batch uid; no old row
   changes identity or first sighting; every new row is first and last seen now
   and active; and outside lookback mode every row the batch did not mention ends
   deleted.
   */
  function ProcessAndSync(t: Tables, order: seq<Uid>, batch: seq<Parsed>, env: Env,
                          dryRun: bool, lookbackMode: bool): (r: Tables)
    requires Enumerates(order, t.events)
    ensures dryRun ==> r == t
    ensures t.changes <= r.changes
    ensures r.changes == t.changes
      + Stamp(|t.changes|, env.clock, PassEntries(PassFor(t, order, env, dryRun), batch, lookbackMode))
    ensures r.events.Keys == t.events.Keys + (if dryRun then {} else BatchUids(env.hash, batch))
    ensures forall u :: u in t.events ==> SameIdentity(r.events[u], t.events[u])
    ensures forall u :: u in r.events && u !in t.events ==>
      r.events[u].firstSeen == env.now && r.events[u].lastSeen == env.now && !r.events[u].deleted
    ensures !dryRun && !lookbackMode ==>
      forall u :: u in r.events && u !in BatchUids(env.hash, batch) ==> r.events[u].deleted
  {
    var p := PassFor(t, order, env, dryRun);
    RunLog(p, t, batch, lookbackMode);
    RunKeys(p, t, batch, lookbackMode);
    RunKeepsIdentity(p, t, batch, lookbackMode);
    RunNewRows(p, t, batch, lookbackMode);
    if !dryRun && !lookbackMode then
      RunRetiresUnbatched(p, t, batch, lookbackMode);
      Run(p, t, batch, lookbackMode)
    else
      Run(p, t, batch, lookbackMode)
  }

  // ---------------------------------------------------------------------------
  // Which records a pass writes

  /** The action a batch item with a new uid is logged under. */
  function NewAction(p: Pass, e: Parsed): Action
  {
    if HasActiveSameTitle(p.db, e.title) then AddedUpdated else Added
  }

  lemma {:induction false} RetiredEntriesMember(p: Pass, us: seq<Uid>, title: string, en: Entry)
    ensures en in RetiredEntries(p, us, title)
        <==> en.uid in us && Retirable(p, en.uid, title) && en == OldEntry(UpdatedOldMarkedDeleted, en.uid, p.db[en.uid])
    decreases |us|
  {
    if us != [] {
      RetiredEntriesMember(p, us[1..], title, en);
      assert en.uid in us <==> en.uid == us[0] || en.uid in us[1..];
    }
  }

  lemma {:induction false} RemovedEntriesMember(p: Pass, us: seq<Uid>, current: set<Uid>, en: Entry)
    ensures en in RemovedEntries(p, us, current)
        <==> en.uid in us && Removable(p, en.uid, current) && en == OldEntry(Removed, en.uid, p.db[en.uid])
    decreases |us|
  {
    if us != [] {
      RemovedEntriesMember(p, us[1..], current, en);
      assert en.uid in us <==> en.uid == us[0] || en.uid in us[1..];
    }
  }

  /**
   One batch item writes nothing when its uid is in the snapshot; otherwise it writes
   its own "added" or "added (updated)" record and one retirement per active snapshot
   row with its title.
   */
  lemma ItemEntriesMember(p: Pass, e: Parsed, en: Entry)
    requires Enumerates(p.order, p.db)
    ensures en in ItemEntries(p, e)
        <==> UidOf(p, e) !in p.db
             && (|| en == NewEntry(NewAction(p, e), UidOf(p, e), e)
                 || (Retirable(p, en.uid, e.title) && en == OldEntry(UpdatedOldMarkedDeleted, en.uid, p.db[en.uid])))
  {
    var u := UidOf(p, e);
    if u !in p.db {
      RetiredEntriesMember(p, p.order, e.title, en);
      if Retirable(p, en.uid, e.title) {
        assert HasActiveSameTitle(p.db, e.title);
      }
    }
  }

  lemma {:induction false} BatchEntriesMember(p: Pass, batch: seq<Parsed>, en: Entry)
    ensures en in BatchEntries(p, batch) <==> exists e :: e in batch && en in ItemEntries(p, e)
    decreases |batch|
  {
    if batch != [] {
      BatchEntriesMember(p, batch[1..], en);
      assert forall e :: e in batch <==> e == batch[0] || e in batch[1..];
    }
  }

  /**
   The records of a pass, exactly: a record of each new batch uid under its action,
   a retirement of each active snapshot row that shares its title with a new batch
   item, and, outside lookback mode, a removal of each active snapshot row the batch
   did not mention. A dry run writes none.
   */
  lemma PassEntriesMember(p: Pass, batch: seq<Parsed>, lookbackMode: bool, en: Entry)
    requires Enumerates(p.order, p.db)
    ensures en in PassEntries(p, batch, lookbackMode)
        <==> !p.dryRun
             && (|| (exists e :: e in batch && UidOf(p, e) !in p.db && en == NewEntry(NewAction(p, e), UidOf(p, e), e))
                 || ((exists e :: e in batch && UidOf(p, e) !in p.db && Retirable(p, en.uid, e.title))
                     && en == OldEntry(UpdatedOldMarkedDeleted, en.uid, p.db[en.uid]))
                 || (!lookbackMode && Removable(p, en.uid, BatchUids(p.env.hash, batch))
                     && en == OldEntry(Removed, en.uid, p.db[en.uid])))
  {
    if !p.dryRun {
      BatchEntriesMember(p, batch, en);
      forall e | e in batch
        ensures en in ItemEntries(p, e)
            <==> UidOf(p, e) !in p.db
                 && (|| en == NewEntry(NewAction(p, e), UidOf(p, e), e)
                     || (Retirable(p, en.uid, e.title) && en == OldEntry(UpdatedOldMarkedDeleted, en.uid, p.db[en.uid])))
      {
        ItemEntriesMember(p, e, en);
      }
      if !lookbackMode {
        var cur := BatchUids(p.env.hash, batch);
        RemovedEntriesMember(p, p.order, cur, en);
      }
    }
  }

  /** In lookback mode a pass never writes a "removed" record. */
  lemma LookbackNeverRemoves(p: Pass, batch: seq<Parsed>, en: Entry)
    requires Enumerates(p.order, p.db)
    requires en in PassEntries(p, batch, true)
    ensures en.action != Removed
  {
    PassEntriesMember(p, batch, true, en);
  }

  /**
   A deleted row that comes back in the batch is revived with the link of its last
   occurrence, and no record of any kind mentions it.
   */
  lemma RevivedSilently(p: Pass, t: Tables, batch: seq<Parsed>, lookbackMode: bool, i: nat)
    requires Enumerates(p.order, p.db) && p.db == t.events && !p.dryRun
    requires i < |batch| && Absent(p, batch[i + 1..], UidOf(p, batch[i]))
    requires UidOf(p, batch[i]) in p.db && p.db[UidOf(p, batch[i])].deleted
    ensures var u := UidOf(p, batch[i]);
      Run(p, t, batch, lookbackMode).events[u] == p.db[u].(lastSeen := p.env.now, link := batch[i].link, deleted := false)
    ensures forall en :: en in PassEntries(p, batch, lookbackMode) ==> en.uid != UidOf(p, batch[i])
  {
    var u := UidOf(p, batch[i]);
    BatchRowLast(p, t, batch, i);
    assert !RetiredBy(p, batch[i + 1..], u);
    assert u in BatchUids(p.env.hash, batch) by {
      assert batch[i] in batch;
    }
    RemovalKeepsBatchRows(p, t, batch, lookbackMode, u);
    forall en | en in PassEntries(p, batch, lookbackMode) ensures en.uid != u {
      PassEntriesMember(p, batch, lookbackMode, en);
    }
  }

  lemma {:induction false} BatchEntriesNone(p: Pass, batch: seq<Parsed>)
    requires forall e :: e in batch ==> UidOf(p, e) in p.db
    ensures BatchEntries(p, batch) == []
    decreases |batch|
  {
    if batch != [] {
      assert batch[0] in batch;
      BatchEntriesNone(p, batch[1..]);
    }
  }

  lemma {:induction false} RemovedEntriesNone(p: Pass, us: seq<Uid>, current: set<Uid>)
    requires forall u :: u in us ==> !Removable(p, u, current)
    ensures RemovedEntries(p, us, current) == []
    decreases |us|
  {
    if us != [] {
      RemovedEntriesNone(p, us[1..], current);
    }
  }

  /** A pass writes nothing when every batch uid is a row and, unless in lookback mode, no unmentioned row is active. */
  lemma PassAppendsNothing(t: Tables, order: seq<Uid>, batch: seq<Parsed>, env: Env, lookbackMode: bool)
    requires Enumerates(order, t.events)
    requires BatchUids(env.hash, batch) <= t.events.Keys
    requires !lookbackMode ==>
      forall u :: u in t.events && u !in BatchUids(env.hash, batch) ==> t.events[u].deleted
    ensures ProcessAndSync(t, order, batch, env, false, lookbackMode).changes == t.changes
  {
    var p := PassFor(t, order, env, false);
    forall e | e in batch ensures UidOf(p, e) in p.db {
      assert UidOf(p, e) in BatchUids(env.hash, batch);
    }
    BatchEntriesNone(p, batch);
    if !lookbackMode {
      RemovedEntriesNone(p, order, BatchUids(env.hash, batch));
    }
    assert PassEntries(p, batch, lookbackMode) == [];
    assert Stamp(|t.changes|, env.clock, []) == [];
  }

  /**
   Running the same batch a second time writes no record, provided the second run
   removes no more than the first: every batch uid is a row by then, and every row
   the batch does not mention is already deleted. The second run reads the rows,
   old and new, in `order2`.
   */
  lemma RerunAppendsNothing(t: Tables, order1: seq<Uid>, order2: seq<Uid>, batch: seq<Parsed>,
                            env1: Env, env2: Env, lookback1: bool, lookback2: bool)
    requires Enumerates(order1, t.events)
    requires env2.hash == env1.hash && (lookback2 || !lookback1)
    requires forall i :: 0 <= i < |order2| ==> order2[i] in t.events || order2[i] in BatchUids(env1.hash, batch)
    requires forall u :: u in t.events || u in BatchUids(env1.hash, batch) ==> u in order2
    requires forall i, j :: 0 <= i < j < |order2| ==> order2[i] != order2[j]
    ensures var r := ProcessAndSync(t, order1, batch, env1, false, lookback1);
      ProcessAndSync(r, order2, batch, env2, false, lookback2).changes == r.changes
  {
    var r := ProcessAndSync(t, order1, batch, env1, false, lookback1);
    PassAppendsNothing(r, order2, batch, env2, lookback2);
  }

  // ---------------------------------------------------------------------------
  // Two consequences of deciding against the snapshot

  /**
   Changing an event's time retires its old row and then, because the snapshot
   still shows that row active and the batch does not mention it, also logs it
   as removed: three records for one edit.
   */
  lemma EditLogsRetireAndRemove(p: Pass, e: Parsed, prev: Uid, row: Row)
    requires p.db == map[prev := row] && p.order == [prev] && !p.dryRun
    requires row.title == e.title && !row.deleted && UidOf(p, e) != prev
    ensures PassEntries(p, [e], false)
         == [OldEntry(UpdatedOldMarkedDeleted, prev, row), NewEntry(AddedUpdated, UidOf(p, e), e), OldEntry(Removed, prev, row)]
  {
    assert HasActiveSameTitle(p.db, e.title) by {
      assert p.db[prev].title == e.title && !p.db[prev].deleted;
    }
    assert RetiredEntries(p, [prev], e.title) == [OldEntry(UpdatedOldMarkedDeleted, prev, row)];
    assert BatchEntries(p, [e]) == ItemEntries(p, e) + BatchEntries(p, []);
    assert BatchUids(p.env.hash, [e]) == {UidOf(p, e)};
    assert RemovedEntries(p, [prev], {UidOf(p, e)}) == [OldEntry(Removed, prev, row)];
  }

  /** The same new item twice in one batch is logged twice: the snapshot never learns of the first. */
  lemma DuplicateItemLoggedTwice(p: Pass, e: Parsed)
    requires !p.dryRun && UidOf(p, e) !in p.db && !HasActiveSameTitle(p.db, e.title)
    ensures BatchEntries(p, [e, e]) == [NewEntry(Added, UidOf(p, e), e), NewEntry(Added, UidOf(p, e), e)]
  {
    assert [e, e][1..] == [e];
    assert BatchEntries(p, [e]) == ItemEntries(p, e) + BatchEntries(p, []);
  }

  /** Position of an element of a sequence. */
  function IndexOf<T(==)>(s: seq<T>, x: T): (i: nat)
    requires x in s
    ensures i < |s| && s[i] == x
  {
    if s[0] == x then 0 else 1 + IndexOf(s[1..], x)
  }

  /** The last position at or after `i` whose item has uid `u`. */
  function LastIndexOf(p: Pass, batch: seq<Parsed>, u: Uid, i: nat): (j: nat)
    requires i < |batch| && UidOf(p, batch[i]) == u
    ensures i <= j < |batch| && UidOf(p, batch[j]) == u
    ensures Absent(p, batch[j + 1..], u)
    decreases |batch| - i
  {
    if exists k :: i < k < |batch| && UidOf(p, batch[k]) == u then
      var k :| i < k < |batch| && UidOf(p, batch[k]) == u;
      LastIndexOf(p, batch, u, k)
    else
      i
  }
}
