# calendarbuddy: a Dafny model of the event sync core

calendarbuddy reads the calendar through icalBuddy and parses the text into events. Each event is a title, a start, an end and an optional meeting link. The tool keeps the events in a SQLite database with two tables:

- `events`: one row per event identity, keyed by a uid hashed from title, start and end;
- `changes`: an append-only audit log of what each sync did.

This project models the part of that program that decides things:

- **`process_and_sync`** (module `Sync`): the reconciliation pass. It is a fold over the parsed batch that carries the stale snapshot `db_map`, read once at the start of the pass (`Pass.db`), alongside the tables it writes (`Tables`). The fold is followed by the removal pass that `lookback_mode` switches off. A declarative list of the records a pass writes (`PassEntries`) is proved equal to what the fold appends.
- **`record_change`**: a record carries the timestamp of the record clock for its sequence id. That clock is a parameter separate from the pass timestamp `now`, as it is in the source.
- **`uid_for`** (module `Schema`): the raw key `title||start||end`, with the SHA-1 as an uninterpreted parameter.
- **`extract_meeting_link_from_lines`** (module `Links`): `URL_RE` written out as a scanner, trailing-punctuation stripping, and domain-priority choice.
- **`normalize_spaces`** and `rstrip` (module `Text`).
- **The read side** (module `Queries`): `events_on_date_query`, `events_in_range_query` and `get_changes`, modelled as a filter followed by the `ORDER BY` of the query. The ordering is a stable sort on a nullable text key in module `Sorting`, with NULL first. Module `History` connects the log the passes write to the order `get_changes` returns.
- **`to_iso_datetime_str`** and the commit skeleton of **`parse_events`** (module `Parser`). The regular-expression and date classification of a line is a parameter, `classify`.

The tables are immutable values:

- `events` is a `map<Uid, Row>`.
- `changes` is a `seq<Change>`.
- The order in which SQLite yields the rows of `events` is a sequence `order` that lists every key exactly once (`Schema.Enumerates`).

## Model

| member | source | states |
|---|---|---|
| Strings.Contains | calendarbuddy.py:96-99 | `domain in u` holds exactly when the domain occurs at some position of the string |
| Text.NormalizeSpacesSpec | calendarbuddy.py:102-109 | normalising keeps the words (maximal runs of characters other than the three special spaces and ` \t\r\f\v`) in order; it leaves only plain spaces as white characters, never two in a row; the result is empty, starts with a space, or ends with one exactly when the input is empty, starts with a white character, or ends with one; it is no longer than the input, and a second normalisation changes nothing |
| Text.NormalizeSpacesUnique | calendarbuddy.py:102-109 | those properties leave one possible result: any string that has them is `normalize_spaces(s)`, so each run of white characters becomes exactly one space |
| Text.RStrip | calendarbuddy.py:229 | `rstrip()` returns the longest prefix that does not end in whitespace, and everything it drops is whitespace |
| Links.FindUrls | calendarbuddy.py:69 | every match `URL_RE.findall` returns starts with `http://` or `https://` in any case and continues with at least one URL character, none of whitespace, quotes, `)`, `<` or `>` |
| Links.FindUrlsEmpty | calendarbuddy.py:91 | a line yields no match exactly when the pattern matches at no position of the line |
| Links.StripTrailingPunct | calendarbuddy.py:92 | `rstrip(".,;:)'\"")` keeps a prefix that does not end in one of those characters and drops only those characters |
| Links.StrippedIsCandidate | calendarbuddy.py:91-92 | every collected URL is a stripped match: it still starts with the scheme, holds only URL characters after it, and does not end in trailing punctuation |
| Links.CollectUrlsEmpty | calendarbuddy.py:87-95 | the collected list is empty exactly when no line contains a match |
| Links.FirstWithDomain | calendarbuddy.py:97-99 | the inner loop finds no URL exactly when no URL mentions the domain case-insensitively; otherwise it returns the first URL that does |
| Links.PickByPriority | calendarbuddy.py:96-100 | the choice is a collected URL: the first one mentioning the most preferred domain that any URL mentions, or the first URL when none mentions a listed domain |
| Links.ExtractMeetingLink | calendarbuddy.py:82-100 | `None` exactly when no line holds a URL; otherwise a stripped URL from the collected list, chosen by domain priority |
| Schema.UidKeyInjective | calendarbuddy.py:385-387 | for times without a pipe character, the text `uid_for` hashes is equal for two events exactly when their titles and times are equal, a missing time counting as an empty one |
| Sync.RetireSameTitle | calendarbuddy.py:408-413 | retiring rows only appends to the log, keeps every row's key, title, times and first sighting, and does nothing in a dry run |
| Sync.SyncItem | calendarbuddy.py:398-429 | one batch item adds a key only when its uid is not in the snapshot and the run is not dry, changes no row's identity, and only appends to the log |
| Sync.SyncBatch | calendarbuddy.py:398-429 | the loop adds exactly the batch uids missing from the snapshot, changes no identity, and only appends to the log |
| Sync.RemovalPass | calendarbuddy.py:433-438 | the removal loop keeps every key and identity and only appends to the log |
| Sync.RunLog | calendarbuddy.py:378-383 | the log after a pass is the old log followed by exactly the records `PassEntries` lists, each stamped with the record clock for its sequence id |
| Sync.BatchRowLast | calendarbuddy.py:402-429 | after the loop, a batch uid new to the snapshot holds its last item as a fresh row; a snapshot uid is seen now, carries the last item's link, and is deleted exactly when a later new item with its title retired it |
| Sync.UnbatchedRow | calendarbuddy.py:431-438 | a snapshot row the batch never mentions ends retired if a new same-titled item retired it or, outside lookback mode, if it was active; otherwise it is untouched |
| Sync.ProcessAndSync | calendarbuddy.py:389-441 | a dry run changes nothing; otherwise the old log is a prefix of the new one, which adds exactly the listed records; old rows keep title, times and first sighting; each new row is first and last seen now and active; outside lookback mode every row the batch does not mention ends deleted |
| Sync.RunRowOfNewItem | calendarbuddy.py:406-429 | the row of a batch uid the table lacked holds the title, times and link of the last batch item with that uid |
| Sync.ItemEntriesMember | calendarbuddy.py:402-429 | an item writes records only when its uid is not in the snapshot: an "added" or "added (updated)" record for itself, and an "updated-old-marked-deleted" record for each active snapshot row with its title |
| Sync.PassEntriesMember | calendarbuddy.py:398-438 | a record is written exactly when it is one of: an "added" record (no active row with that title) or an "added (updated)" record for a new batch uid; a retirement of an active row sharing a new item's title; or, outside lookback mode, a removal of an active snapshot row the batch did not mention. A dry run writes nothing |
| Sync.LookbackNeverRemoves | calendarbuddy.py:431-438 | in lookback mode no "removed" record is written |
| Sync.RevivedSilently | calendarbuddy.py:402-405 | a deleted row that comes back in the batch is active again, seen now, with the link of its last occurrence, and no record mentions it |
| Sync.PassAppendsNothing | calendarbuddy.py:398-438 | a pass writes no record when every batch uid is already a row and, outside lookback mode, every unmentioned row is already deleted |
| Sync.RerunAppendsNothing | calendarbuddy.py:398-438 | running the same batch again right after a committed pass appends no record, provided the second run is in lookback mode or the first one was not |
| Sync.EditLogsRetireAndRemove | calendarbuddy.py:406-438 | moving a single event's time writes three records: the old row is retired, the new one is "added (updated)", and the old row is also "removed", because the snapshot still shows it active |
| Sync.DuplicateItemLoggedTwice | calendarbuddy.py:398-429 | the same new item twice in one batch is logged as "added" twice, because the snapshot never sees the first insert |
| Sorting.SortBy | calendarbuddy.py:488 | `ORDER BY start_time` returns the same rows in non-decreasing key order, with NULL first |
| Sorting.SortStable | calendarbuddy.py:488 | rows with equal keys keep the order they were read in |
| Sorting.SortSorted | calendarbuddy.py:544-546 | rows already in key order come back unchanged |
| Queries.Query | calendarbuddy.py:481-491 | a view query returns, ordered by start, one view per active row that passes the date bounds of its `WHERE` clause, and nothing else |
| Queries.EventsOnDate | calendarbuddy.py:474-492 | the day query returns, ordered by start, the active rows whose start date is not after the target date and whose end date is not before it |
| Queries.RangeWhereMeans | calendarbuddy.py:500-539 | across the four branches, a row is selected exactly when it is active, starts no later than `to_date` if that is given, and ends no earlier than `from_date` if that is given |
| Queries.EventsInRange | calendarbuddy.py:494-539 | the range query returns, ordered by start, exactly one view per row that overlaps the range |
| Queries.OnDateIsOneDayRange | calendarbuddy.py:474-539 | for a non-empty date, the day query and the one-day range query agree |
| Queries.FilterSince | calendarbuddy.py:543-546 | a record is selected exactly when it is in the log and, for a non-empty `since_ts`, its timestamp is not before it |
| Queries.GetChanges | calendarbuddy.py:541-547 | `get_changes` returns exactly the selected records, with multiplicity, ordered by timestamp |
| Queries.ChangesInLogOrder | calendarbuddy.py:541-547 | when the log is already in timestamp order, `get_changes` returns the selected records in the order they were written |
| History.PassKeepsStamped | calendarbuddy.py:378-383 | after a pass, every record still carries the record-clock reading for its own sequence id |
| History.ChangesAfterPass | calendarbuddy.py:541-547 | with a record clock that never goes back, `get_changes` after a pass lists the selected records in the order they were written |
| Parser.ToIsoDateTime | calendarbuddy.py:194-200 | a missing date gives `None`; otherwise the timestamp starts with the date |
| Parser.ToIsoDateTimeRoundTrip | calendarbuddy.py:194-200 | for an hour and a minute below 100, the timestamp is the date, `T`, and a zero-padded `hh:mm:00` that reads back as the same hour and minute |
| Parser.ParseEventsTitles | calendarbuddy.py:202-309 | the parser emits one event per title line, in order, each with that line's title; the last open event is committed at the end |
| Parser.ParseEventsPaired | calendarbuddy.py:202-309 | every parsed event has both a start and an end time, or neither |
| Parser.ParseEventsLinks | calendarbuddy.py:202-309 | each parsed event's link is the best meeting link of the cleaned lines between its title line and the next title line, or the end of the input |

## Left out

- `run_icalbuddy` (calendarbuddy.py:111-153) is not modelled. It is subprocess I/O with timeouts and raw-file writes. The model starts from the lines it would return.
- `init_db`, `ensure_column`, `load_db_map` and `show_db` are not modelled. They are SQLite DDL, migrations and cursor plumbing. The tables are an in-memory map and sequence, and the row order the store yields is the parameter `order`.
- SHA-1 inside `uid_for` is the parameter `hash`. Only the raw key it hashes is modelled, so hash collisions are outside the model.
- The two timestamps `datetime.now().isoformat()` are parameters:
  - `Env.now` is the pass timestamp;
  - `Env.clock` gives the record clock's reading for each sequence id.
- The date and time helpers (`try_parse_date_to_iso`, `parse_time_with_optional_am_pm`, `validate_iso_date`, `parse_since_arg`) are not modelled. They rest on `strptime` and `fromisoformat`. The regular expressions of `parse_events` (calendarbuddy.py:54-67) are left out too. Together they are abstracted as the line classifier `classify`.
- Parser.ParseEventsTitles: only the commit skeleton of `parse_events` is modelled. A bullet line opens an event. Every other kept line joins the open event's link buffer, and a timing line also sets or clears the event's times. How the times are computed from a line is not modelled.
- Presentation and the command line are not modelled: `rows_to_table`, the print functions, `main` and argparse.
- Transactions, `conn.commit()` and concurrent writers are not modelled. A pass is one atomic step from tables to tables.
- Links.FindUrls: its contract states only that each match is well formed. That matches are found left to right, do not overlap and are as long as possible is in its definition, not in the contract. `URL_RE` is written out as a left-to-right scanner, not through a regex engine. Case-insensitivity covers ASCII letters only. Python also folds a few non-ASCII characters, such as U+017F, which the model does not.
- `u.lower()` is modelled as ASCII lower-casing only.
- Queries.Query: SQLite `date(x)` is modelled as the first ten characters of `x`. The real function returns NULL for text that is not a valid date, and the model does not check validity.
- Sorting.SortBy: when rows tie on the `ORDER BY` key, SQL leaves their order open. The model keeps the storage order, which is one order SQLite may return.
- A `None` title in `uid_for` is not modelled, because the parser never produces one. `Parsed.title` is always a string.
- Schema.UidKeyInjective: the property needs times without a `'|'`. The parser only produces ISO timestamps, but the times here come from the abstract classifier, so the model does not derive that. A `'|'` inside a time can make two different events share a key.

### Where the code differs from its description

The model follows the code in each of these cases:

- No same-titled row is preferred over another. Every active row with the title is retired, and there is no tie-break by closest start.
- The lookup at line 402 ignores `deleted`. A deleted event that reappears is revived, and no record is written for it.
- A refreshed link on an existing row is written without a change record.
- The retirement test and the removal test read the stale snapshot. So a retired row is also logged as "removed" in the same pass (`Sync.EditLogsRetireAndRemove`). A new uid that occurs twice in one batch is logged twice (`Sync.DuplicateItemLoggedTwice`).
- The label of a replacing row is literally "added (updated)".
- No guard stops an empty batch. Outside lookback mode, an empty batch retires every active row.
