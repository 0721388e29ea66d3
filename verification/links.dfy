/**
 Meeting-link selection: `URL_RE`, `MEETING_DOMAINS_PRIORITY` and
 `extract_meeting_link_from_lines` (calendarbuddy.py:69-100).
 */
module Links {
  import opened Optional
  import opened Strings

  /** Known conferencing hosts, most preferred first. */
  const MeetingDomainsPriority: seq<string> := [
    "zoom.us",
    "meet.google.com",
    "teams.microsoft.com",
    "webex.com",
    "gotomeeting.com",
    "gotowebinar.com",
    "jitsi",
    "whereby.com",
    "bluejeans.com"
  ]

  /** The character class `[^\s'")<>]` of `URL_RE`. */
  predicate IsUrlChar(ch: char)
  {
    !IsSpace(ch) && ch != '\'' && ch != '"' && ch != ')' && ch != '<' && ch != '>'
  }

  /** `s` starts with `prefix`, ignoring ASCII case (the pattern is compiled with IGNORECASE). */
  predicate StartsWithNoCase(s: string, prefix: string)
  {
    |prefix| <= |s| && Lower(s[..|prefix|]) == prefix
  }

  /** Length of the `https?://` that starts at `p`, or 0 when none does. */
  function SchemeLen(s: string, p: nat): (n: nat)
    requires p <= |s|
    ensures n == 0 || n == 7 || n == 8
    ensures p + n <= |s|
  {
    if StartsWithNoCase(s[p..], "https://") then 8
    else if StartsWithNoCase(s[p..], "http://") then 7
    else 0
  }

  /** Length of the longest run of URL characters starting at `p` (the greedy `+`). */
  function UrlRun(s: string, p: nat): (n: nat)
    requires p <= |s|
    ensures p + n <= |s|
    ensures forall i :: p <= i < p + n ==> IsUrlChar(s[i])
    ensures p + n == |s| || !IsUrlChar(s[p + n])
    decreases |s| - p
  {
    if p < |s| && IsUrlChar(s[p]) then 1 + UrlRun(s, p + 1) else 0
  }

  /** Length of the `URL_RE` match that starts at `p`, or 0 when the regex does not match there. */
  function MatchLen(s: string, p: nat): (n: nat)
    requires p <= |s|
    ensures p + n <= |s|
  {
    var k := SchemeLen(s, p);
    if k == 0 then 0
    else
      var run := UrlRun(s, p + k);
      if run == 0 then 0 else k + run
  }

  /** A raw `URL_RE` match: a scheme, then at least one URL character, and nothing else. */
  ghost predicate IsRawUrl(u: string)
  {
    && (StartsWithNoCase(u, "https://") || StartsWithNoCase(u, "http://"))
    && |u| > 7
    && (StartsWithNoCase(u, "https://") ==> |u| > 8)
    && forall i :: 7 <= i < |u| ==> IsUrlChar(u[i])
  }

  lemma MatchIsRawUrl(s: string, p: nat)
    requires p <= |s| && MatchLen(s, p) > 0
    ensures IsRawUrl(s[p..p + MatchLen(s, p)])
  {
    var k := SchemeLen(s, p);
    var n := MatchLen(s, p);
    var u := s[p..p + n];
    if k == 8 {
      assert u[..8] == s[p..][..8];
    } else {
      assert u[..7] == s[p..][..7];
    }
    assert forall i :: 7 <= i < |u| ==> IsUrlChar(u[i]) by {
      forall i | 7 <= i < |u|
        ensures IsUrlChar(u[i])
      {
        if i < k {
          assert k == 8 && i == 7;
          assert u[7] == Lower(s[p..][..8])[7];
        } else {
          assert u[i] == s[p + i];
        }
      }
    }
  }

  /** `URL_RE.findall(s[p..])`: left to right, non-overlapping, each match as long as possible. */
  function FindUrls(s: string, p: nat): (r: seq<string>)
    requires p <= |s|
    ensures forall j :: 0 <= j < |r| ==> IsRawUrl(r[j])
    decreases |s| - p
  {
    if p == |s| then []
    else
      var n := MatchLen(s, p);
      if n > 0 then
        var u := s[p..p + n];
        var rest := FindUrls(s, p + n);
        MatchIsRawUrl(s, p);
        assert forall j :: 0 <= j < |rest| + 1 ==> IsRawUrl(([u] + rest)[j]) by {
          forall j | 0 <= j < |rest| + 1 ensures IsRawUrl(([u] + rest)[j]) {
            if j > 0 {
              assert ([u] + rest)[j] == rest[j - 1];
            }
          }
        }
        [u] + rest
      else FindUrls(s, p + 1)
  }

  /** `findall` reports nothing exactly when the regex matches at no position. */
  lemma {:induction false} FindUrlsEmpty(s: string, p: nat)
    requires p <= |s|
    ensures FindUrls(s, p) == [] <==> forall q :: p <= q <= |s| ==> MatchLen(s, q) == 0
    decreases |s| - p
  {
    if p == |s| {
      assert MatchLen(s, p) == 0;
    } else if MatchLen(s, p) > 0 {
      assert FindUrls(s, p) != [];
    } else {
      assert FindUrls(s, p) == FindUrls(s, p + 1);
      FindUrlsEmpty(s, p + 1);
      assert (forall q :: p <= q <= |s| ==> MatchLen(s, q) == 0)
         <==> (forall q :: p + 1 <= q <= |s| ==> MatchLen(s, q) == 0);
    }
  }

  /** The trailing punctuation `rstrip(".,;:)'\"")` removes. */
  predicate IsTrailingPunct(ch: char)
  {
    ch == '.' || ch == ',' || ch == ';' || ch == ':' || ch == ')' || ch == '\'' || ch == '"'
  }

  function StripTrailingPunct(u: string): (r: string)
    ensures |r| <= |u| && r == u[..|r|]
    ensures r == [] || !IsTrailingPunct(r[|r| - 1])
    ensures forall i :: |r| <= i < |u| ==> IsTrailingPunct(u[i])
  {
    if u != [] && IsTrailingPunct(u[|u| - 1]) then StripTrailingPunct(u[..|u| - 1]) else u
  }

  /**
   A candidate link: a raw match with its trailing punctuation removed. Stripping can
   eat everything after the scheme (`http://.` becomes `http://`), never the scheme.
   */
  ghost predicate IsCandidate(u: string)
  {
    && (StartsWithNoCase(u, "https://") || StartsWithNoCase(u, "http://"))
    && (forall i :: 7 <= i < |u| ==> IsUrlChar(u[i]))
    && !IsTrailingPunct(u[|u| - 1])
  }

  lemma StrippedIsCandidate(u: string)
    requires IsRawUrl(u)
    ensures IsCandidate(StripTrailingPunct(u))
  {
    var r := StripTrailingPunct(u);
    // The scheme ends in '/', which is not punctuation, so stripping stops after it.
    assert Lower(u[..7])[6] == '/';
    assert u[6] == '/';
    assert |r| >= 7;
    assert r[..7] == u[..7];
    if StartsWithNoCase(u, "https://") {
      assert u[7] == '/' by { assert Lower(u[..8])[7] == '/'; }
      assert |r| >= 8;
      assert r[..8] == u[..8];
    }
  }

  /** The stripped URLs of one line, in order. */
  function LineUrls(line: string): (r: seq<string>)
    ensures forall j :: 0 <= j < |r| ==> IsCandidate(r[j])
  {
    var raw := FindUrls(line, 0);
    var r := seq(|raw|, j requires 0 <= j < |raw| => StripTrailingPunct(raw[j]));
    assert forall j :: 0 <= j < |r| ==> IsCandidate(r[j]) by {
      forall j | 0 <= j < |r| ensures IsCandidate(r[j]) {
        StrippedIsCandidate(raw[j]);
      }
    }
    r
  }

  /** The loop at lines 87-93: all stripped URLs of all lines, in line order; empty lines are skipped. */
  function CollectUrls(lines: seq<string>): (r: seq<string>)
    ensures forall j :: 0 <= j < |r| ==> IsCandidate(r[j])
  {
    if lines == [] then []
    else if lines[0] == "" then CollectUrls(lines[1..])
    else LineUrls(lines[0]) + CollectUrls(lines[1..])
  }

  /** `URL_RE` matches somewhere in `line`. */
  ghost predicate LineHasUrl(line: string)
  {
    exists q :: 0 <= q <= |line| && MatchLen(line, q) > 0
  }

  /** Some line has a position where `URL_RE` matches. */
  ghost predicate HasUrl(lines: seq<string>)
  {
    exists k :: 0 <= k < |lines| && LineHasUrl(lines[k])
  }

  lemma LineUrlsEmpty(line: string)
    ensures LineUrls(line) == [] <==> !LineHasUrl(line)
  {
    FindUrlsEmpty(line, 0);
    assert |LineUrls(line)| == |FindUrls(line, 0)|;
  }

  lemma HasUrlCons(lines: seq<string>)
    requires lines != []
    ensures HasUrl(lines) <==> LineHasUrl(lines[0]) || HasUrl(lines[1..])
  {
    if HasUrl(lines[1..]) {
      var k :| 0 <= k < |lines[1..]| && LineHasUrl(lines[1..][k]);
      assert lines[k + 1] == lines[1..][k];
    }
    if HasUrl(lines) {
      var k :| 0 <= k < |lines| && LineHasUrl(lines[k]);
      if k > 0 {
        assert lines[1..][k - 1] == lines[k];
      }
    }
  }

  lemma {:induction false} CollectUrlsEmpty(lines: seq<string>)
    ensures CollectUrls(lines) == [] <==> !HasUrl(lines)
    decreases |lines|
  {
    if lines != [] {
      CollectUrlsEmpty(lines[1..]);
      HasUrlCons(lines);
      if lines[0] == "" {
        assert !LineHasUrl(lines[0]);
      } else {
        LineUrlsEmpty(lines[0]);
      }
    }
  }

  /** URL `u` mentions domain `d` once lower-cased (`domain in u.lower()`). */
  predicate Mentions(u: string, d: string)
  {
    Contains(Lower(u), d)
  }

  /** Some URL of `urls` mentions `d`. */
  ghost predicate AnyMentions(urls: seq<string>, d: string)
  {
    exists k :: 0 <= k < |urls| && Mentions(urls[k], d)
  }

  /** `u` is the first URL of `urls` that mentions `d`. */
  ghost predicate FirstMentioning(urls: seq<string>, d: string, u: string)
  {
    exists k :: 0 <= k < |urls| && urls[k] == u && Mentions(u, d)
      && forall k' :: 0 <= k' < k ==> !Mentions(urls[k'], d)
  }

  /** The inner loop at lines 97-99. */
  function FirstWithDomain(urls: seq<string>, d: string): (r: Option<string>)
    ensures r.None? <==> !AnyMentions(urls, d)
    ensures r.Some? ==> FirstMentioning(urls, d, r.value)
  {
    if urls == [] then None
    else if Mentions(urls[0], d) then Some(urls[0])
    else
      var r := FirstWithDomain(urls[1..], d);
      assert AnyMentions(urls, d) ==> AnyMentions(urls[1..], d) by {
        if AnyMentions(urls, d) {
          var k :| 0 <= k < |urls| && Mentions(urls[k], d);
          assert urls[1..][k - 1] == urls[k];
        }
      }
      assert r.Some? ==> FirstMentioning(urls, d, r.value) by {
        if r.Some? {
          var k :| 0 <= k < |urls[1..]| && urls[1..][k] == r.value && Mentions(r.value, d)
            && forall k' :: 0 <= k' < k ==> !Mentions(urls[1..][k'], d);
          assert urls[k + 1] == r.value;
          assert forall k' :: 0 <= k' < k + 1 ==> !Mentions(urls[k'], d) by {
            forall k' | 0 <= k' < k + 1 ensures !Mentions(urls[k'], d) {
              if k' > 0 { assert urls[k'] == urls[1..][k' - 1]; }
            }
          }
        }
      }
      r
  }

  /**
   The declared choice: the first URL mentioning the most preferred domain that any
   URL mentions, or the first URL when no URL mentions any listed domain.
   */
  ghost predicate BestLink(domains: seq<string>, urls: seq<string>, u: string)
  {
    || (exists i :: 0 <= i < |domains|
          && (forall j :: 0 <= j < i ==> !AnyMentions(urls, domains[j]))
          && FirstMentioning(urls, domains[i], u))
    || ((forall j :: 0 <= j < |domains| ==> !AnyMentions(urls, domains[j])) && |urls| > 0 && u == urls[0])
  }

  /** The outer loop at lines 96-100. */
  function PickByPriority(domains: seq<string>, urls: seq<string>): (r: string)
    requires urls != []
    ensures r in urls
    ensures BestLink(domains, urls, r)
  {
    if domains == [] then urls[0]
    else
      match FirstWithDomain(urls, domains[0])
      case Some(u) =>
        assert FirstMentioning(urls, domains[0], u);
        u
      case None =>
        var r := PickByPriority(domains[1..], urls);
        assert BestLink(domains, urls, r) by {
          if exists i :: 0 <= i < |domains[1..]|
               && (forall j :: 0 <= j < i ==> !AnyMentions(urls, domains[1..][j]))
               && FirstMentioning(urls, domains[1..][i], r) {
            var i :| 0 <= i < |domains[1..]|
               && (forall j :: 0 <= j < i ==> !AnyMentions(urls, domains[1..][j]))
               && FirstMentioning(urls, domains[1..][i], r);
            assert domains[i + 1] == domains[1..][i];
            assert forall j :: 0 <= j < i + 1 ==> !AnyMentions(urls, domains[j]) by {
              forall j | 0 <= j < i + 1 ensures !AnyMentions(urls, domains[j]) {
                if j > 0 { assert domains[j] == domains[1..][j - 1]; }
              }
            }
          } else {
            assert forall j :: 0 <= j < |domains| ==> !AnyMentions(urls, domains[j]) by {
              forall j | 0 <= j < |domains| ensures !AnyMentions(urls, domains[j]) {
                if j > 0 { assert domains[j] == domains[1..][j - 1]; }
              }
            }
          }
        }
        r
  }

  /**
   `extract_meeting_link_from_lines`: None exactly when no line holds a URL; otherwise
   one of the collected, punctuation-stripped URLs chosen by domain priority.
   */
  function ExtractMeetingLink(lines: seq<string>): (r: Option<string>)
    ensures r.None? <==> !HasUrl(lines)
    ensures r.Some? ==> r.value in CollectUrls(lines) && IsCandidate(r.value)
    ensures r.Some? ==> BestLink(MeetingDomainsPriority, CollectUrls(lines), r.value)
  {
    var urls := CollectUrls(lines);
    CollectUrlsEmpty(lines);
    if urls == [] then None else Some(PickByPriority(MeetingDomainsPriority, urls))
  }
}
