/**
 The commit skeleton of `parse_events` (calendarbuddy.py:202-309) and
 `to_iso_datetime_str` (calendarbuddy.py:194-200).

 What a line means is decided by regular expressions and date parsing
 (calendarbuddy.py:54-67, 156-192); here that decision is a parameter,
 `classify`, which says whether a normalised line is a title line (and with
 which title), a line that sets the event's times, or any other line.
 */
module Parser {
  import opened Optional
  import opened Schema
  import opened Text
  import opened Links

  // ---------------------------------------------------------------------------
  // to_iso_datetime_str

  function DigitChar(d: nat): char
    requires d < 10
  {
    ('0' as int + d) as char
  }

  /** Decimal digits of `n`, without padding. */
  function Digits(n: nat): (r: string)
    ensures |r| >= 1
    ensures n < 10 <==> |r| == 1
    decreases n
  {
    if n < 10 then [DigitChar(n)] else Digits(n / 10) + [DigitChar(n % 10)]
  }

  /** Python's `f"{n:02d}"` for a non-negative `n`: at least two digits, zero-padded. */
  function Pad2(n: nat): string
  {
    if n < 10 then "0" + Digits(n) else Digits(n)
  }

  /** `to_iso_datetime_str`: `None` for a missing date, else `date + "T" + hh + ":" + mm + ":00"`. */
  function ToIsoDateTime(date: Option<string>, hour: nat, minute: nat): (r: Option<string>)
    ensures r.Some? <==> date.Some?
    ensures r.Some? ==> date.value <= r.value
  {
    match date
    case None => None
    case Some(d) =>
      var s := d + "T" + Pad2(hour) + ":" + Pad2(minute) + ":00";
      assert s[..|d|] == d;
      Some(s)
  }

  function DigitValue(c: char): int
  {
    c as int - '0' as int
  }

  /** Reads a `"hh:mm:ss"` clock back into hour and minute; `None` when it is not one. */
  function ReadClock(s: string): (r: Option<(nat, nat)>)
  {
    if |s| == 8 && s[2] == ':' && s[5] == ':'
       && (forall i | i in {0, 1, 3, 4, 6, 7} :: '0' <= s[i] <= '9')
    then Some((DigitValue(s[0]) * 10 + DigitValue(s[1]), DigitValue(s[3]) * 10 + DigitValue(s[4])))
    else None
  }

  lemma Pad2Digits(n: nat)
    requires n < 100
    ensures |Pad2(n)| == 2
    ensures '0' <= Pad2(n)[0] <= '9' && '0' <= Pad2(n)[1] <= '9'
    ensures DigitValue(Pad2(n)[0]) * 10 + DigitValue(Pad2(n)[1]) == n
  {
    if n >= 10 {
      assert Digits(n) == Digits(n / 10) + [DigitChar(n % 10)];
      assert Digits(n / 10) == [DigitChar(n / 10)];
    }
  }

  /**
   For hours and minutes below 100 the timestamp ends in a clock that reads back
   as the same hour and minute, seconds zero, after the date and a `T`.
   */
  lemma ToIsoDateTimeRoundTrip(date: string, hour: nat, minute: nat)
    requires hour < 100 && minute < 100
    ensures var r := ToIsoDateTime(Some(date), hour, minute).value;
      && |r| == |date| + 9
      && r[..|date|] == date
      && r[|date|] == 'T'
      && ReadClock(r[|date| + 1..]) == Some((hour, minute))
      && r[|r| - 2..] == "00"
  {
    var r := ToIsoDateTime(Some(date), hour, minute).value;
    Pad2Digits(hour);
    Pad2Digits(minute);
    var c := r[|date| + 1..];
    assert c == Pad2(hour) + ":" + Pad2(minute) + ":00";
    assert c[0] == Pad2(hour)[0] && c[1] == Pad2(hour)[1];
    assert c[3] == Pad2(minute)[0] && c[4] == Pad2(minute)[1];
  }

  // ---------------------------------------------------------------------------
  // parse_events

  datatype Times = Times(start: string, end: string)

  /**
   What a normalised line is: a bullet title line, a line whose date or time pattern
   assigns the event's times (`None` when the pattern matched but the date in it did
   not parse, which clears both times), or anything else.
   */
  datatype LineKind = Title(title: string) | Timing(times: Option<Times>) | Other

  /** The event being collected: its title, times so far, and the lines after its title. */
  datatype Open = Open(title: string, start: Option<string>, end: Option<string>, buffer: seq<string>)

  datatype State = State(events: seq<Parsed>, cur: Option<Open>)

  /** `commit()`: the open event, if any, is appended with the best link of its buffer. */
  function Commit(st: State): seq<Parsed>
  {
    match st.cur
    case None => st.events
    case Some(o) => st.events + [Parsed(o.title, o.start, o.end, ExtractMeetingLink(o.buffer))]
  }

  /** The line the loop body works on, or `None` for a line it skips. */
  function Cleaned(raw: Option<string>): Option<string>
  {
    match raw
    case None => None
    case Some(s) => if RStrip(s) == "" then None else Some(NormalizeSpaces(RStrip(s)))
  }

  /** One iteration of the loop at calendarbuddy.py:226-305. */
  function Step(classify: string -> LineKind, st: State, raw: Option<string>): State
  {
    match Cleaned(raw)
    case None => st
    case Some(line) =>
      match classify(line)
      case Title(t) => State(Commit(st), Some(Open(t, None, None, [])))
      case Timing(times) =>
        if st.cur.None? then st
        else
          var o := st.cur.value;
          var (s, e) := if times.Some? then (Some(times.value.start), Some(times.value.end)) else (None, None);
          State(st.events, Some(Open(o.title, s, e, o.buffer + [line])))
      case Other =>
        if st.cur.None? then st
        else State(st.events, Some(st.cur.value.(buffer := st.cur.value.buffer + [line])))
  }

  function ParseFrom(classify: string -> LineKind, st: State, lines: seq<Option<string>>): seq<Parsed>
    decreases |lines|
  {
    if lines == [] then Commit(st) else ParseFrom(classify, Step(classify, st, lines[0]), lines[1..])
  }

  /** `parse_events` over the raw lines (a `None` entry stands for a missing line). */
  function ParseEvents(classify: string -> LineKind, lines: seq<Option<string>>): seq<Parsed>
  {
    ParseFrom(classify, State([], None), lines)
  }

  /** The titles of the title lines, in order: one event per bullet line. */
  function TitleLines(classify: string -> LineKind, lines: seq<Option<string>>): seq<string>
    decreases |lines|
  {
    if lines == [] then []
    else
      var rest := TitleLines(classify, lines[1..]);
      match Cleaned(lines[0])
      case None => rest
      case Some(line) => if classify(line).Title? then [classify(line).title] + rest else rest
  }

  function Titles(es: seq<Parsed>): (r: seq<string>)
    ensures |r| == |es|
    ensures forall i :: 0 <= i < |es| ==> r[i] == es[i].title
  {
    seq(|es|, i requires 0 <= i < |es| => es[i].title)
  }

  function OpenTitle(st: State): seq<string>
  {
    if st.cur.Some? then [st.cur.value.title] else []
  }

  /** The title line `raw` contributes, if it is one. */
  function TitleOf(classify: string -> LineKind, raw: Option<string>): seq<string>
  {
    match Cleaned(raw)
    case None => []
    case Some(line) => if classify(line).Title? then [classify(line).title] else []
  }

  lemma CommitTitles(st: State)
    ensures Titles(Commit(st)) == Titles(st.events) + OpenTitle(st)
  {
  }

  lemma StepTitles(classify: string -> LineKind, st: State, raw: Option<string>)
    ensures var st' := Step(classify, st, raw);
      Titles(st'.events) + OpenTitle(st') == Titles(st.events) + OpenTitle(st) + TitleOf(classify, raw)
  {
    match Cleaned(raw)
    case None =>
    case Some(line) =>
      if classify(line).Title? {
        CommitTitles(st);
      }
  }

  lemma ParseFromCons(classify: string -> LineKind, st: State, lines: seq<Option<string>>)
    requires lines != []
    ensures ParseFrom(classify, st, lines) == ParseFrom(classify, Step(classify, st, lines[0]), lines[1..])
    ensures TitleLines(classify, lines) == TitleOf(classify, lines[0]) + TitleLines(classify, lines[1..])
  {
  }

  lemma ConcatAssoc(a: seq<string>, b: seq<string>, c: seq<string>)
    ensures (a + b) + c == a + (b + c)
  {
  }

  lemma {:induction false} ParseFromTitles(classify: string -> LineKind, st: State, lines: seq<Option<string>>)
    ensures Titles(ParseFrom(classify, st, lines)) == Titles(st.events) + OpenTitle(st) + TitleLines(classify, lines)
    decreases |lines|
  {
    if lines == [] {
      CommitTitles(st);
    } else {
      var st' := Step(classify, st, lines[0]);
      ParseFromCons(classify, st, lines);
      ParseFromTitles(classify, st', lines[1..]);
      StepTitles(classify, st, lines[0]);
      ConcatAssoc(Titles(st.events) + OpenTitle(st), TitleOf(classify, lines[0]), TitleLines(classify, lines[1..]));
    }
  }

  /** The events come out one per title line, in order, each carrying that line's title. */
  lemma ParseEventsTitles(classify: string -> LineKind, lines: seq<Option<string>>)
    ensures Titles(ParseEvents(classify, lines)) == TitleLines(classify, lines)
  {
    ParseFromTitles(classify, State([], None), lines);
    assert Titles([]) == [];
  }

  /** The cleaned lines before the first title line: what the open event buffers. */
  function Buffered(classify: string -> LineKind, lines: seq<Option<string>>): seq<string>
    decreases |lines|
  {
    if lines == [] then []
    else
      match Cleaned(lines[0])
      case None => Buffered(classify, lines[1..])
      case Some(line) => if classify(line).Title? then [] else [line] + Buffered(classify, lines[1..])
  }

  /** For each title line, in order, the cleaned lines between it and the next title line. */
  function Segments(classify: string -> LineKind, lines: seq<Option<string>>): (r: seq<seq<string>>)
    ensures |r| == |TitleLines(classify, lines)|
    decreases |lines|
  {
    if lines == [] then []
    else
      var rest := Segments(classify, lines[1..]);
      match Cleaned(lines[0])
      case None => rest
      case Some(line) => if classify(line).Title? then [Buffered(classify, lines[1..])] + rest else rest
  }

  function LinksOf(es: seq<Parsed>): (r: seq<Option<string>>)
    ensures |r| == |es|
    ensures forall i :: 0 <= i < |es| ==> r[i] == es[i].link
  {
    seq(|es|, i requires 0 <= i < |es| => es[i].link)
  }

  /** `f` applied to every element of `s`. */
  function Apply<A, B>(f: A -> B, s: seq<A>): (r: seq<B>)
    ensures |r| == |s|
    ensures forall i :: 0 <= i < |s| ==> r[i] == f(s[i])
  {
    seq(|s|, i requires 0 <= i < |s| => f(s[i]))
  }

  lemma ApplyCons<A, B>(f: A -> B, x: A, s: seq<A>)
    ensures Apply(f, [x] + s) == [f(x)] + Apply(f, s)
  {
    var l := Apply(f, [x] + s);
    var r := [f(x)] + Apply(f, s);
    forall i | 0 <= i < |l| ensures l[i] == r[i] {
      if i > 0 {
        assert ([x] + s)[i] == s[i - 1];
      }
    }
  }

  /** The best meeting link of each buffer. */
  function BestLinks(segs: seq<seq<string>>): seq<Option<string>>
  {
    Apply(ExtractMeetingLink, segs)
  }

  /** The link the open event is committed with once `more` has joined its buffer. */
  function OpenLink(st: State, more: seq<string>): seq<Option<string>>
  {
    if st.cur.Some? then [ExtractMeetingLink(st.cur.value.buffer + more)] else []
  }

  lemma OpenLinkExtend(st: State, st': State, line: string, more: seq<string>)
    requires st.cur.None? ==> st'.cur.None?
    requires st.cur.Some? ==> st'.cur.Some? && st'.cur.value.buffer == st.cur.value.buffer + [line]
    ensures OpenLink(st', more) == OpenLink(st, [line] + more)
  {
    if st.cur.Some? {
      var b := st.cur.value.buffer;
      assert (b + [line]) + more == b + ([line] + more);
    }
  }

  lemma SegmentsSkip(classify: string -> LineKind, lines: seq<Option<string>>)
    requires lines != [] && Cleaned(lines[0]).None?
    ensures Buffered(classify, lines) == Buffered(classify, lines[1..])
    ensures Segments(classify, lines) == Segments(classify, lines[1..])
  {
  }

  lemma SegmentsTitle(classify: string -> LineKind, lines: seq<Option<string>>, line: string)
    requires lines != [] && Cleaned(lines[0]) == Some(line) && classify(line).Title?
    ensures Buffered(classify, lines) == []
    ensures Segments(classify, lines) == [Buffered(classify, lines[1..])] + Segments(classify, lines[1..])
  {
  }

  lemma BestLinksCons(seg: seq<string>, segs: seq<seq<string>>)
    ensures BestLinks([seg] + segs) == [ExtractMeetingLink(seg)] + BestLinks(segs)
  {
    ApplyCons(ExtractMeetingLink, seg, segs);
  }

  lemma CommitLinks(st: State)
    ensures LinksOf(Commit(st))
         == LinksOf(st.events) + (if st.cur.Some? then [ExtractMeetingLink(st.cur.value.buffer)] else [])
  {
    if st.cur.Some? {
      var o := st.cur.value;
      var p := Parsed(o.title, o.start, o.end, ExtractMeetingLink(o.buffer));
      assert Commit(st) == st.events + [p];
      assert LinksOf(st.events + [p]) == LinksOf(st.events) + [p.link];
    }
  }

  lemma StepOpens(classify: string -> LineKind, st: State, raw: Option<string>, line: string)
    requires Cleaned(raw) == Some(line) && classify(line).Title?
    ensures Step(classify, st, raw) == State(Commit(st), Some(Open(classify(line).title, None, None, [])))
  {
  }

  lemma OpenLinkNothingMore(st: State)
    ensures OpenLink(st, []) == (if st.cur.Some? then [ExtractMeetingLink(st.cur.value.buffer)] else [])
  {
    assert st.cur.Some? ==> st.cur.value.buffer + [] == st.cur.value.buffer;
  }

  lemma OpenLinkFresh(st: State, more: seq<string>)
    requires st.cur.Some? && st.cur.value.buffer == []
    ensures OpenLink(st, more) == [ExtractMeetingLink(more)]
  {
    assert [] + more == more;
  }

  /** A title line commits the open event with the lines it buffered and opens an empty one. */
  lemma StepLinksTitle(classify: string -> LineKind, st: State, lines: seq<Option<string>>, line: string)
    requires lines != [] && Cleaned(lines[0]) == Some(line) && classify(line).Title?
    ensures var st' := Step(classify, st, lines[0]);
      LinksOf(st'.events) + OpenLink(st', Buffered(classify, lines[1..])) + BestLinks(Segments(classify, lines[1..]))
      == LinksOf(st.events) + OpenLink(st, Buffered(classify, lines)) + BestLinks(Segments(classify, lines))
  {
    var rest := lines[1..];
    var st' := Step(classify, st, lines[0]);
    var b := Buffered(classify, rest);
    var segs := Segments(classify, rest);
    SegmentsTitle(classify, lines, line);
    StepOpens(classify, st, lines[0], line);
    BestLinksCons(b, segs);
    CommitLinks(st);
    OpenLinkNothingMore(st);
    OpenLinkFresh(st', b);
  }

  lemma SegmentsOther(classify: string -> LineKind, lines: seq<Option<string>>, line: string)
    requires lines != [] && Cleaned(lines[0]) == Some(line) && !classify(line).Title?
    ensures Buffered(classify, lines) == [line] + Buffered(classify, lines[1..])
    ensures Segments(classify, lines) == Segments(classify, lines[1..])
  {
  }

  lemma StepBuffers(classify: string -> LineKind, st: State, raw: Option<string>, line: string)
    requires Cleaned(raw) == Some(line) && !classify(line).Title?
    ensures Step(classify, st, raw).events == st.events
    ensures st.cur.None? ==> Step(classify, st, raw) == st
    ensures st.cur.Some? ==>
      Step(classify, st, raw).cur.Some? && Step(classify, st, raw).cur.value.buffer == st.cur.value.buffer + [line]
  {
  }

  /** Any other kept line joins the open event's buffer, if there is an open event. */
  lemma StepLinksOther(classify: string -> LineKind, st: State, lines: seq<Option<string>>, line: string)
    requires lines != [] && Cleaned(lines[0]) == Some(line) && !classify(line).Title?
    ensures var st' := Step(classify, st, lines[0]);
      LinksOf(st'.events) + OpenLink(st', Buffered(classify, lines[1..])) + BestLinks(Segments(classify, lines[1..]))
      == LinksOf(st.events) + OpenLink(st, Buffered(classify, lines)) + BestLinks(Segments(classify, lines))
  {
    var rest := lines[1..];
    var st' := Step(classify, st, lines[0]);
    SegmentsOther(classify, lines, line);
    StepBuffers(classify, st, lines[0], line);
    OpenLinkExtend(st, st', line, Buffered(classify, rest));
  }

  lemma StepLinks(classify: string -> LineKind, st: State, lines: seq<Option<string>>)
    requires lines != []
    ensures var st' := Step(classify, st, lines[0]);
      LinksOf(st'.events) + OpenLink(st', Buffered(classify, lines[1..])) + BestLinks(Segments(classify, lines[1..]))
      == LinksOf(st.events) + OpenLink(st, Buffered(classify, lines)) + BestLinks(Segments(classify, lines))
  {
    match Cleaned(lines[0])
    case None =>
      SegmentsSkip(classify, lines);
    case Some(line) =>
      if classify(line).Title? {
        StepLinksTitle(classify, st, lines, line);
      } else {
        StepLinksOther(classify, st, lines, line);
      }
  }

  lemma {:induction false} ParseFromLinks(classify: string -> LineKind, st: State, lines: seq<Option<string>>)
    ensures LinksOf(ParseFrom(classify, st, lines))
         == LinksOf(st.events) + OpenLink(st, Buffered(classify, lines)) + BestLinks(Segments(classify, lines))
    decreases |lines|
  {
    if lines == [] {
      CommitLinks(st);
      OpenLinkNothingMore(st);
    } else {
      var st' := Step(classify, st, lines[0]);
      ParseFromCons(classify, st, lines);
      ParseFromLinks(classify, st', lines[1..]);
      StepLinks(classify, st, lines);
    }
  }

  /**
   Each event carries the best meeting link of the cleaned lines between its title
   line and the next title line (or the end of the input).
   */
  lemma ParseEventsLinks(classify: string -> LineKind, lines: seq<Option<string>>)
    ensures LinksOf(ParseEvents(classify, lines)) == BestLinks(Segments(classify, lines))
  {
    ParseFromLinks(classify, State([], None), lines);
    assert LinksOf([]) == [];
  }

  /** Start and end are either both present or both missing. */
  predicate TimesPaired(start: Option<string>, end: Option<string>)
  {
    start.Some? <==> end.Some?
  }

  ghost predicate StatePaired(st: State)
  {
    && (forall i :: 0 <= i < |st.events| ==> TimesPaired(st.events[i].start, st.events[i].end))
    && (st.cur.Some? ==> TimesPaired(st.cur.value.start, st.cur.value.end))
  }

  lemma CommitPaired(st: State)
    requires StatePaired(st)
    ensures forall i :: 0 <= i < |Commit(st)| ==> TimesPaired(Commit(st)[i].start, Commit(st)[i].end)
  {
  }

  lemma StepPaired(classify: string -> LineKind, st: State, raw: Option<string>)
    requires StatePaired(st)
    ensures StatePaired(Step(classify, st, raw))
  {
    match Cleaned(raw)
    case None =>
    case Some(line) =>
      if classify(line).Title? {
        CommitPaired(st);
      }
  }

  lemma {:induction false} ParseFromPaired(classify: string -> LineKind, st: State, lines: seq<Option<string>>)
    requires StatePaired(st)
    ensures forall e :: e in ParseFrom(classify, st, lines) ==> TimesPaired(e.start, e.end)
    decreases |lines|
  {
    if lines == [] {
      CommitPaired(st);
    } else {
      ParseFromCons(classify, st, lines);
      StepPaired(classify, st, lines[0]);
      ParseFromPaired(classify, Step(classify, st, lines[0]), lines[1..]);
    }
  }

  /** Every parsed event has both a start and an end time, or neither. */
  lemma ParseEventsPaired(classify: string -> LineKind, lines: seq<Option<string>>)
    ensures forall e :: e in ParseEvents(classify, lines) ==> TimesPaired(e.start, e.end)
  {
    ParseFromPaired(classify, State([], None), lines);
  }
}
