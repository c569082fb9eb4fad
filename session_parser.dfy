/** Parsing of the `tmux list-sessions` listing into session records.
    tmux is asked for one line per session in the format
    `#{session_name}:#{session_windows}:#{session_attached}:#{session_created}:#{session_activity}`. */
module SessionParser {
  import opened Wrappers
  import opened RustStr
  import Iter

  /** The process found for a session by the process-table scan. */
  datatype ProcessInfo = ProcessInfo(pid: Option<nat>, command: string, user: string)

  /** Memory (MB) and CPU (%) summed over a session's processes; the source's `f64`/`f32`
      values are kept as opaque reals. */
  datatype ResourceInfo = ResourceInfo(memoryMb: real, cpuPercent: real)

  /** One tmux session. `windows` is a `usize` in the source. */
  datatype Session = Session(
    name: string,
    windows: nat,
    attached: bool,
    created: string,
    activity: string,
    processInfo: Option<ProcessInfo>,
    resourceInfo: Option<ResourceInfo>)

  /** The window-count field: its `usize` value, or 0 when it does not parse. */
  function WindowCount(field: string): (n: nat)
    ensures n <= USIZE_MAX
    ensures ParseUsize(field).None? ==> n == 0
    ensures ParseUsize(field).Some? ==> n == ParseUsize(field).value
  {
    ParseUsize(field).GetOr(0)
  }

  /** The record for one line, when the line splits into at least five ':'-separated fields;
      it carries no process or resource information yet. */
  function ParseLine(line: string): (r: Option<Session>)
    ensures r.Some? ==> r.value.processInfo.None? && r.value.resourceInfo.None?
  {
    var parts := Split(line, ':');
    if |parts| >= 5 then
      Some(Session(parts[0], WindowCount(parts[1]), parts[2] == "1", parts[3], parts[4], None, None))
    else
      None
  }

  /** The records of the accepted lines, in line order (the `filter_map` over the lines). */
  function ParseLines(lines: seq<string>): (r: seq<Session>)
    ensures |r| <= |lines|
  {
    Iter.FilterMap(lines, ParseLine)
  }

  /** `parse_tmux_sessions`: the records of the lines of `output`. */
  function ParseSessions(output: string): (r: seq<Session>)
    ensures |r| <= multiset(output)['\n'] + 1
  {
    LinesCount(output);
    ParseLines(Lines(output))
  }

  // ---------------------------------------------------------------------------
  // One line

  /** A line is accepted exactly when it holds at least four ':' characters. */
  lemma LineAcceptedIffFourColons(line: string)
    ensures ParseLine(line).Some? <==> multiset(line)[':'] >= 4
  {
    SplitCount(line, ':');
  }

  /** The name is the text before the line's first ':', so it never holds a ':'. */
  lemma NameBeforeFirstColon(line: string)
    ensures ParseLine(line).Some? ==>
      ParseLine(line).value.name == line[..Find(line, ':')] && Free(ParseLine(line).value.name, ':')
  {
    var parts := Split(line, ':');
    if |parts| >= 5 {
      assert Find(line, ':') < |line|;
      assert parts[0] == line[..Find(line, ':')];
    }
  }

  /** The fields of a line are its ':'-separated pieces taken verbatim: the name is the
      first piece (untrimmed, cut at its first ':'), the window count is the `usize` parse
      of the second piece or 0, `attached` holds exactly when the third piece is "1", the
      fourth and fifth pieces are the timestamps, and any later pieces are ignored. */
  lemma {:induction false} ParseLineFields(parts: seq<string>)
    requires |parts| >= 5
    requires forall k :: 0 <= k < |parts| ==> Free(parts[k], ':')
    ensures ParseLine(Join(parts, ':')) ==
      Some(Session(parts[0], WindowCount(parts[1]), parts[2] == "1", parts[3], parts[4], None, None))
  {
    SplitJoin(parts, ':');
  }

  /** The line tmux prints for a session, as requested by the listing's format string. */
  function FormatLine(name: string, windows: nat, clients: nat, created: string, activity: string): string
  {
    Join([name, DecimalString(windows), DecimalString(clients), created, activity], ':')
  }

  /** Round trip with tmux's output format: a session whose name and timestamps hold no ':'
      is read back with its name, its window count and its timestamps; it is marked attached
      exactly when exactly one client is attached (two clients read as detached). */
  lemma FormatLineRoundTrip(name: string, windows: nat, clients: nat, created: string, activity: string)
    requires Free(name, ':') && Free(created, ':') && Free(activity, ':')
    requires windows <= USIZE_MAX
    ensures ParseLine(FormatLine(name, windows, clients, created, activity)) ==
      Some(Session(name, windows, clients == 1, created, activity, None, None))
  {
    var parts := [name, DecimalString(windows), DecimalString(clients), created, activity];
    DigitsAreColonFree(DecimalString(windows));
    DigitsAreColonFree(DecimalString(clients));
    ParseLineFields(parts);
    DecimalRoundTrip(windows);
    DecimalIsOne(clients);
  }

  lemma DigitsAreColonFree(s: string)
    requires AllDigits(s)
    ensures Free(s, ':')
  {
  }

  lemma DecimalIsOne(n: nat)
    ensures DecimalString(n) == "1" <==> n == 1
  {
    if n >= 10 {
      assert |DecimalString(n)| >= 2;
    } else if DecimalString(n) == "1" {
      assert DecimalString(n)[0] == '1';
    }
  }

  // ---------------------------------------------------------------------------
  // Many lines

  /** The records of two runs of lines are the records of the first followed by those of the second. */
  lemma ParseLinesAppend(a: seq<string>, b: seq<string>)
    ensures ParseLines(a + b) == ParseLines(a) + ParseLines(b)
  {
    Iter.FilterMapAppend(a, b, ParseLine);
  }

  /** A line that is not accepted is dropped without affecting its neighbours; an accepted
      one contributes exactly its own record, in place. */
  lemma ParseLinesAround(a: seq<string>, line: string, b: seq<string>)
    ensures ParseLine(line).None? ==> ParseLines(a + [line] + b) == ParseLines(a) + ParseLines(b)
    ensures ParseLine(line).Some? ==>
      ParseLines(a + [line] + b) == ParseLines(a) + [ParseLine(line).value] + ParseLines(b)
  {
    Iter.FilterMapAppend(a + [line], b, ParseLine);
    Iter.FilterMapAppend(a, [line], ParseLine);
    Iter.FilterMapOne(line, ParseLine);
  }

  /** Never more records than lines; exactly as many when every line is accepted. */
  lemma ParseLinesLength(lines: seq<string>)
    ensures |ParseLines(lines)| <= |lines|
    ensures (forall k :: 0 <= k < |lines| ==> ParseLine(lines[k]).Some?) ==> |ParseLines(lines)| == |lines|
  {
    if forall k :: 0 <= k < |lines| ==> ParseLine(lines[k]).Some? {
      var records := seq(|lines|, k requires 0 <= k < |lines| => ParseLine(lines[k]).value);
      Iter.FilterMapAll(lines, ParseLine, records);
    }
  }

  /** The line the `i`-th record comes from: an accepted line at index `i` or later whose
      predecessors yield exactly the records before the `i`-th. */
  function Origin(lines: seq<string>, i: nat): (k: nat)
    requires i < |ParseLines(lines)|
    ensures i <= k < |lines| && ParseLine(lines[k]) == Some(ParseLines(lines)[i])
    ensures ParseLines(lines[..k]) == ParseLines(lines)[..i]
  {
    Iter.Origin(lines, ParseLine, i)
  }

  /** Records keep line order: later records come from later lines. */
  lemma OriginsIncrease(lines: seq<string>, i: nat, j: nat)
    requires i < j < |ParseLines(lines)|
    ensures Origin(lines, i) < Origin(lines, j)
  {
    Iter.OriginsIncrease(lines, ParseLine, i, j);
  }

  /** Output whose lines all end in "\n" parses line by line. */
  lemma ParseSessionsOfLfLines(lines: seq<string>)
    requires forall k :: 0 <= k < |lines| ==> Free(lines[k], '\n') && !EndsWithCr(lines[k])
    ensures ParseSessions(Terminated(lines, "\n")) == ParseLines(lines)
  {
    LinesOfLfTerminated(lines);
  }

  /** Output whose lines all end in "\r\n" parses line by line, the carriage returns removed. */
  lemma ParseSessionsOfCrlfLines(lines: seq<string>)
    requires forall k :: 0 <= k < |lines| ==> Free(lines[k], '\n')
    ensures ParseSessions(Terminated(lines, "\r\n")) == ParseLines(lines)
  {
    LinesOfCrlfTerminated(lines);
  }

  /** The listing of sessions that tmux prints, one formatted line per session, parses back
      to those sessions, whether the lines end in "\n" or "\r\n". */
  lemma {:induction false} ListingRoundTrip(ss: seq<Session>)
    requires forall k :: 0 <= k < |ss| ==> WellFormed(ss[k])
    ensures ParseSessions(Terminated(Formatted(ss), "\n")) == ss
    ensures ParseSessions(Terminated(Formatted(ss), "\r\n")) == ss
  {
    var lines := Formatted(ss);
    forall k | 0 <= k < |lines|
      ensures Free(lines[k], '\n') && !EndsWithCr(lines[k])
      ensures ParseLine(lines[k]) == Some(ss[k])
    {
      FormattedLine(ss, k);
    }
    ParseSessionsOfLfLines(lines);
    ParseSessionsOfCrlfLines(lines);
    ParsedFormatted(ss);
  }

  /** A record tmux could have printed: no ':' in its strings, no line break in its name or
      timestamps, a window count that fits a `usize`, and no enrichment yet. */
  predicate WellFormed(s: Session) {
    && Free(s.name, ':') && Free(s.created, ':') && Free(s.activity, ':')
    && Free(s.name, '\n') && Free(s.created, '\n') && Free(s.activity, '\n')
    && (s.activity == [] || s.activity[|s.activity| - 1] != '\r')
    && s.windows <= USIZE_MAX
    && s.processInfo.None? && s.resourceInfo.None?
  }

  /** The lines tmux prints for `ss`, with 1 or 0 as the attached-client count. */
  function Formatted(ss: seq<Session>): (lines: seq<string>)
    ensures |lines| == |ss|
  {
    if ss == [] then []
    else
      var s := ss[0];
      [FormatLine(s.name, s.windows, if s.attached then 1 else 0, s.created, s.activity)] + Formatted(ss[1..])
  }

  lemma {:induction false} FormattedLine(ss: seq<Session>, k: nat)
    requires k < |ss| && WellFormed(ss[k])
    ensures Free(Formatted(ss)[k], '\n') && !EndsWithCr(Formatted(ss)[k])
    ensures ParseLine(Formatted(ss)[k]) == Some(ss[k])
  {
    if k > 0 {
      FormattedLine(ss[1..], k - 1);
      assert Formatted(ss)[k] == Formatted(ss[1..])[k - 1];
    } else {
      var s := ss[0];
      var c: nat := if s.attached then 1 else 0;
      assert Formatted(ss)[0] == FormatLine(s.name, s.windows, c, s.created, s.activity);
      FormatLineRoundTrip(s.name, s.windows, c, s.created, s.activity);
      FormatLineShape(s.name, s.windows, c, s.created, s.activity);
    }
  }

  /** A rendered listing line holds no line feed, and ends in a carriage return only if
      its activity field does. */
  lemma FormatLineShape(name: string, windows: nat, clients: nat, created: string, activity: string)
    requires Free(name, '\n') && Free(created, '\n') && Free(activity, '\n')
    requires !EndsWithCr(activity)
    ensures Free(FormatLine(name, windows, clients, created, activity), '\n')
    ensures !EndsWithCr(FormatLine(name, windows, clients, created, activity))
  {
    var parts := [name, DecimalString(windows), DecimalString(clients), created, activity];
    assert Free(DecimalString(windows), '\n');
    assert Free(DecimalString(clients), '\n');
    JoinFree(parts, ':', '\n');
    var line := Join(parts, ':');
    JoinSuffix(parts, ':');
    if activity == [] {
      assert line[|line| - 1] == ':';
    } else {
      assert line[|line| - 1] == activity[|activity| - 1];
    }
  }

  /** A join of two or more pieces ends with the separator followed by the last piece. */
  lemma {:induction false} JoinSuffix(parts: seq<string>, sep: char)
    requires |parts| >= 2
    ensures var j, last := Join(parts, sep), parts[|parts| - 1];
      |j| > |last| && j[|j| - |last| - 1..] == [sep] + last
  {
    if |parts| > 2 {
      JoinSuffix(parts[1..], sep);
      assert parts[1..][|parts| - 2] == parts[|parts| - 1];
    }
  }

  /** Joining pieces free of `c` with a separator other than `c` gives text free of `c`. */
  lemma {:induction false} JoinFree(parts: seq<string>, sep: char, c: char)
    requires sep != c
    requires forall k :: 0 <= k < |parts| ==> Free(parts[k], c)
    ensures Free(Join(parts, sep), c)
  {
    if |parts| > 1 {
      JoinFree(parts[1..], sep, c);
    }
  }

  /** Formatted lines that each parse back to their session parse back to the whole listing. */
  lemma ParsedFormatted(ss: seq<Session>)
    requires forall k :: 0 <= k < |ss| ==> ParseLine(Formatted(ss)[k]) == Some(ss[k])
    ensures ParseLines(Formatted(ss)) == ss
  {
    var lines := Formatted(ss);
    var f: string -> Option<Session> := ParseLine;
    assert forall k :: 0 <= k < |lines| ==> f(lines[k]) == Some(ss[k]);
    Iter.FilterMapAll(lines, f, ss);
  }
}
