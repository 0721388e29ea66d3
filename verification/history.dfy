/**
 The change log as `get_changes` reads it back. Every record carries the reading
 of the record clock for its sequence id (calendarbuddy.py:378-383). While that
 clock never goes back, `ORDER BY ts` is the order the records were written in.
 */
module History {
  import opened Optional
  import opened Strings
  import opened Schema
  import opened Sorting
  import opened Sync
  import opened Queries

  /** Record `i` of the log was stamped with the clock reading for sequence id `i`. */
  ghost predicate ClockStamped(log: seq<Change>, clock: nat -> string)
  {
    forall i :: 0 <= i < |log| ==> log[i].ts == clock(i)
  }

  /** A clock that never goes back. */
  ghost predicate Monotone(clock: nat -> string)
  {
    forall i: nat, j: nat :: i <= j ==> LexLe(clock(i), clock(j))
  }

  /** Records appended by `record_change` carry the clock reading for their own sequence id. */
  lemma AppendKeepsStamped(log: seq<Change>, clock: nat -> string, es: seq<Entry>)
    requires ClockStamped(log, clock)
    ensures ClockStamped(log + Stamp(|log|, clock, es), clock)
  {
    var r := log + Stamp(|log|, clock, es);
    forall i | 0 <= i < |r| ensures r[i].ts == clock(i) {
      if i >= |log| {
        StampAt(|log|, clock, es, i - |log|);
      }
    }
  }

  /** A pass stamps each record it appends with the clock reading for its sequence id. */
  lemma PassKeepsStamped(t: Tables, order: seq<Uid>, batch: seq<Parsed>, env: Env, dryRun: bool, lookbackMode: bool)
    requires Enumerates(order, t.events)
    requires ClockStamped(t.changes, env.clock)
    ensures ClockStamped(ProcessAndSync(t, order, batch, env, dryRun, lookbackMode).changes, env.clock)
  {
    AppendKeepsStamped(t.changes, env.clock, PassEntries(PassFor(t, order, env, dryRun), batch, lookbackMode));
  }

  /** With a clock that never goes back, a stamped log is in timestamp order. */
  lemma StampedSorted(log: seq<Change>, clock: nat -> string)
    requires ClockStamped(log, clock) && Monotone(clock)
    ensures SortedBy(log, TsOf)
  {
    forall i, j | 0 <= i < j < |log| ensures KeyLe(TsOf(log[i]), TsOf(log[j])) {
      assert LexLe(clock(i), clock(j));
    }
  }

  /**
   After any sequence of passes that share a clock that never goes back,
   `get_changes` lists the selected records in the order they were written.
   */
  lemma ChangesAfterPass(t: Tables, order: seq<Uid>, batch: seq<Parsed>, env: Env, dryRun: bool,
                         lookbackMode: bool, since: Option<string>)
    requires Enumerates(order, t.events)
    requires ClockStamped(t.changes, env.clock) && Monotone(env.clock)
    ensures var log := ProcessAndSync(t, order, batch, env, dryRun, lookbackMode).changes;
      GetChanges(log, since) == FilterSince(log, since)
  {
    var log := ProcessAndSync(t, order, batch, env, dryRun, lookbackMode).changes;
    PassKeepsStamped(t, order, batch, env, dryRun, lookbackMode);
    StampedSorted(log, env.clock);
    ChangesInLogOrder(log, since);
  }
}
