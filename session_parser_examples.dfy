/** The edge cases pinned by the parser's unit tests, stated as lemmas about the parser.
    Each test input is written as the join of its ':'-separated fields and of its lines,
    which spells out the same text as the test's string literal. */
module SessionParserExamples {
  import opened Wrappers
  import opened RustStr
  import opened SessionParser

  /** A freshly parsed record (no enrichment). */
  function Rec(name: string, windows: nat, attached: bool, created: string, activity: string): Session {
    Session(name, windows, attached, created, activity, None, None)
  }

  // ---------------------------------------------------------------------------
  // Helpers: the lines of small texts and the records of small line lists

  lemma OneLine(c: string)
    requires c != [] && Free(c, '\n')
    ensures Lines(c) == [c]
  {
    FindFree(c, '\n', []);
    assert c[..|c|] == c;
  }

  lemma TwoLines(a: string, b: string)
    requires Free(a, '\n') && b != [] && Free(b, '\n')
    ensures Lines(Join([a, b], '\n')) == [StripCr(a), b]
  {
    assert [a, b][1..] == [b];
    assert Join([a, b], '\n') == a + ['\n'] + b;
    LinesCons(a, b);
    OneLine(b);
  }

  lemma ThreeLines(a: string, b: string, c: string)
    requires Free(a, '\n') && Free(b, '\n') && c != [] && Free(c, '\n')
    ensures Lines(Join([a, b, c], '\n')) == [StripCr(a), StripCr(b), c]
  {
    assert [a, b, c][1..] == [b, c];
    assert [b, c][1..] == [c];
    assert Join([c], '\n') == c;
    assert Join([b, c], '\n') == b + ['\n'] + c;
    assert Join([a, b, c], '\n') == a + ['\n'] + (b + ['\n'] + c);
    LinesCons(a, b + ['\n'] + c);
    LinesCons(b, c);
    OneLine(c);
  }

  lemma EmptyLineBetween(a: string, b: string)
    requires Free(a, '\n') && Free(b, '\n')
    ensures Lines(a + "\n" + "\n" + b + "\n") == [StripCr(a), [], StripCr(b)]
  {
    assert a + "\n" + "\n" + b + "\n" == a + ['\n'] + ([] + ['\n'] + (b + ['\n'] + []));
    LinesCons(a, [] + ['\n'] + (b + ['\n'] + []));
    LinesCons([], b + ['\n'] + []);
    LinesCons(b, []);
  }

  lemma MixedEnds(a: string, b: string, c: string)
    requires Free(a, '\n') && Free(b, '\n') && Free(c, '\n')
    ensures Lines(a + "\n" + b + "\r\n" + c + "\r\n") == [StripCr(a), b, c]
  {
    var b', c' := b + ['\r'], c + ['\r'];
    MixedShape(a, b, c);
    LinesCons(a, b' + ['\n'] + (c' + ['\n'] + []));
    LinesCons(b', c' + ['\n'] + []);
    LinesCons(c', []);
  }

  lemma MixedShape(a: string, b: string, c: string)
    ensures a + "\n" + b + "\r\n" + c + "\r\n" ==
      a + ['\n'] + ((b + ['\r']) + ['\n'] + ((c + ['\r']) + ['\n'] + []))
  {
    assert "\r\n" == ['\r'] + ['\n'];
  }

  // ---------------------------------------------------------------------------
  // Helpers: the records of small line lists

  lemma KeptLine(x: string, r: Session)
    requires ParseLine(x) == Some(r)
    ensures ParseLines([x]) == [r]
  {
  }

  lemma DroppedLine(x: string)
    requires ParseLine(x) == None
    ensures ParseLines([x]) == []
  {
  }

  lemma TwoRecords(a: string, b: string)
    ensures ParseLines([a, b]) == ParseLines([a]) + ParseLines([b])
  {
    ParseLinesAppend([a], [b]);
    assert [a, b] == [a] + [b];
  }

  lemma ThreeRecords(a: string, b: string, c: string)
    ensures ParseLines([a, b, c]) == ParseLines([a]) + ParseLines([b]) + ParseLines([c])
  {
    ParseLinesAppend([a], [b, c]);
    TwoRecords(b, c);
    assert [a, b, c] == [a] + [b, c];
  }

  /** A line of the listing that stands alone: non-empty, free of line feeds, not ending in a
      carriage return, and parsed to `r`. */
  predicate GoodLine(line: string, r: Session) {
    line != [] && Free(line, '\n') && StripCr(line) == line && ParseLine(line) == Some(r)
  }

  /** A line joined from five or more fields free of ':' and '\n', the last of which does not
      end in '\r', is a good line for the record its first five fields describe. */
  lemma RecordLine(line: string, parts: seq<string>)
    requires line == Join(parts, ':') && |parts| >= 5
    requires forall k :: 0 <= k < |parts| ==> Free(parts[k], ':') && Free(parts[k], '\n')
    requires parts[|parts| - 1] != [] && !EndsWithCr(parts[|parts| - 1])
    ensures GoodLine(line, Rec(parts[0], WindowCount(parts[1]), parts[2] == "1", parts[3], parts[4]))
  {
    ParseLineFields(parts);
    JoinFree(parts, ':', '\n');
    JoinSuffix(parts, ':');
    var last := parts[|parts| - 1];
    assert line[|line| - 1] == (line[|line| - |last| - 1..])[|last|];
  }

  /** `RecordLine` for exactly five fields. */
  lemma Line5(line: string, f0: string, f1: string, f2: string, f3: string, f4: string)
    requires line == Join([f0, f1, f2, f3, f4], ':')
    requires Free(f0, ':') && Free(f1, ':') && Free(f2, ':') && Free(f3, ':') && Free(f4, ':')
    requires Free(f0, '\n') && Free(f1, '\n') && Free(f2, '\n') && Free(f3, '\n') && Free(f4, '\n')
    requires f4 != [] && !EndsWithCr(f4)
    ensures GoodLine(line, Rec(f0, WindowCount(f1), f2 == "1", f3, f4))
  {
    RecordLine(line, [f0, f1, f2, f3, f4]);
  }

  lemma OneGood(a: string, ra: Session)
    requires GoodLine(a, ra)
    ensures ParseSessions(a) == [ra]
  {
    OneLine(a);
    KeptLine(a, ra);
  }

  lemma TwoGood(a: string, b: string, ra: Session, rb: Session)
    requires GoodLine(a, ra) && GoodLine(b, rb)
    ensures ParseSessions(Join([a, b], '\n')) == [ra, rb]
  {
    TwoLines(a, b);
    TwoRecords(a, b);
    KeptLine(a, ra);
    KeptLine(b, rb);
  }

  lemma ThreeGood(a: string, b: string, c: string, ra: Session, rb: Session, rc: Session)
    requires GoodLine(a, ra) && GoodLine(b, rb) && GoodLine(c, rc)
    ensures ParseSessions(Join([a, b, c], '\n')) == [ra, rb, rc]
  {
    ThreeLines(a, b, c);
    ThreeRecords(a, b, c);
    KeptLine(a, ra);
    KeptLine(b, rb);
    KeptLine(c, rc);
  }

  lemma MiddleDropped(a: string, x: string, c: string, ra: Session, rc: Session)
    requires GoodLine(a, ra) && GoodLine(c, rc)
    requires Free(x, '\n') && StripCr(x) == x && ParseLine(x) == None
    ensures ParseSessions(Join([a, x, c], '\n')) == [ra, rc]
  {
    ThreeLines(a, x, c);
    ThreeRecords(a, x, c);
    KeptLine(a, ra);
    DroppedLine(x);
    KeptLine(c, rc);
  }

  lemma EmptyBetweenGood(a: string, b: string, ra: Session, rb: Session)
    requires GoodLine(a, ra) && GoodLine(b, rb)
    ensures ParseSessions(a + "\n" + "\n" + b + "\n") == [ra, rb]
  {
    EmptyLineBetween(a, b);
    ThreeRecords(a, [], b);
    KeptLine(a, ra);
    DroppedLine([]);
    KeptLine(b, rb);
  }

  lemma MixedGood(a: string, b: string, c: string, ra: Session, rb: Session, rc: Session)
    requires GoodLine(a, ra) && GoodLine(b, rb) && GoodLine(c, rc)
    ensures ParseSessions(a + "\n" + b + "\r\n" + c + "\r\n") == [ra, rb, rc]
  {
    MixedEnds(a, b, c);
    ThreeRecords(a, b, c);
    KeptLine(a, ra);
    KeptLine(b, rb);
    KeptLine(c, rc);
  }

  // ---------------------------------------------------------------------------
  // The examples

  lemma ParsesEmptyOutput()
    ensures ParseSessions("") == []
  {
  }

  /** Window-count fields: a count is read as a decimal number, and a non-numeric, negative
      or decimal field reads as 0. */
  lemma WindowCountSmall()
    ensures WindowCount("1") == 1
    ensures WindowCount("2") == 2
    ensures WindowCount("3") == 3
  {
  }

  lemma WindowCountLarge()
    ensures WindowCount("999999") == 999999
  {
    assert DigitsValue("9") == 9;
    assert DigitsValue("99") == 99 by { assert "99"[..1] == "9"; }
    assert DigitsValue("999") == 999 by { assert "999"[..2] == "99"; }
    assert DigitsValue("9999") == 9999 by { assert "9999"[..3] == "999"; }
    assert DigitsValue("99999") == 99999 by { assert "99999"[..4] == "9999"; }
    assert DigitsValue("999999") == 999999 by { assert "999999"[..5] == "99999"; }
  }

  lemma WindowCountRejects()
    ensures WindowCount("invalid") == 0
    ensures WindowCount("-1") == 0
    ensures WindowCount("1.5") == 0
  {
  }

  /** One well-formed line gives one record with every field read
      ("main:3:1:1640995200:1640995200"). */
  lemma ParsesSingleSession(line: string)
    requires line == Join(["main", "3", "1", "1640995200", "1640995200"], ':')
    ensures ParseSessions(line) == [Rec("main", 3, true, "1640995200", "1640995200")]
  {
    Line5(line, "main", "3", "1", "1640995200", "1640995200");
    WindowCountSmall();
    OneGood(line, Rec("main", 3, true, "1640995200", "1640995200"));
  }

  // Lines of the multi-line examples, each checked on its own

  lemma AttachedLine(a: string)
    requires a == Join(["attached", "1", "1", "123", "456"], ':')
    ensures GoodLine(a, Rec("attached", 1, true, "123", "456"))
  {
    Line5(a, "attached", "1", "1", "123", "456");
    WindowCountSmall();
  }

  lemma DetachedLine(b: string)
    requires b == Join(["detached", "1", "0", "123", "456"], ':')
    ensures GoodLine(b, Rec("detached", 1, false, "123", "456"))
  {
    Line5(b, "detached", "1", "0", "123", "456");
    WindowCountSmall();
  }

  lemma InvalidFlagLine(c: string)
    requires c == Join(["invalid", "1", "2", "123", "456"], ':')
    ensures GoodLine(c, Rec("invalid", 1, false, "123", "456"))
  {
    Line5(c, "invalid", "1", "2", "123", "456");
    WindowCountSmall();
  }

  lemma MainLine(a: string)
    requires a == Join(["main", "1", "0", "123", "456"], ':')
    ensures GoodLine(a, Rec("main", 1, false, "123", "456"))
  {
    Line5(a, "main", "1", "0", "123", "456");
    WindowCountSmall();
  }

  lemma DevLine(b: string)
    requires b == Join(["dev", "2", "1", "789", "012"], ':')
    ensures GoodLine(b, Rec("dev", 2, true, "789", "012"))
  {
    Line5(b, "dev", "2", "1", "789", "012");
    WindowCountSmall();
  }

  lemma CompleteLine(a: string)
    requires a == Join(["complete", "1", "0", "123", "456"], ':')
    ensures GoodLine(a, Rec("complete", 1, false, "123", "456"))
  {
    Line5(a, "complete", "1", "0", "123", "456");
    WindowCountSmall();
  }

  lemma SpacedLine(a: string)
    requires a == Join([" main", "1", "0", "123", "456 "], ':')
    ensures GoodLine(a, Rec(" main", 1, false, "123", "456 "))
  {
    Line5(a, " main", "1", "0", "123", "456 ");
    WindowCountSmall();
  }

  lemma TabbedLine(b: string)
    requires b == Join(["\t dev", "2", "1", "789", "012\t"], ':')
    ensures GoodLine(b, Rec("\t dev", 2, true, "789", "012\t"))
  {
    Line5(b, "\t dev", "2", "1", "789", "012\t");
    WindowCountSmall();
  }

  lemma UnixLine(a: string)
    requires a == Join(["unix", "1", "0", "123", "456"], ':')
    ensures GoodLine(a, Rec("unix", 1, false, "123", "456"))
  {
    Line5(a, "unix", "1", "0", "123", "456");
    WindowCountSmall();
  }

  lemma WindowsLine(b: string)
    requires b == Join(["windows", "2", "1", "789", "012"], ':')
    ensures GoodLine(b, Rec("windows", 2, true, "789", "012"))
  {
    Line5(b, "windows", "2", "1", "789", "012");
    WindowCountSmall();
  }

  lemma MixedLine(c: string)
    requires c == Join(["mixed", "3", "0", "345", "678"], ':')
    ensures GoodLine(c, Rec("mixed", 3, false, "345", "678"))
  {
    Line5(c, "mixed", "3", "0", "345", "678");
    WindowCountSmall();
  }

  /** `attached` holds for "1" only: "0" and "2" both read as detached
      ("attached:1:1:123:456\ndetached:1:0:123:456\ninvalid:1:2:123:456"). */
  lemma AttachedOnlyForOne(a: string, b: string, c: string)
    requires a == Join(["attached", "1", "1", "123", "456"], ':')
    requires b == Join(["detached", "1", "0", "123", "456"], ':')
    requires c == Join(["invalid", "1", "2", "123", "456"], ':')
    ensures ParseSessions(Join([a, b, c], '\n')) ==
      [Rec("attached", 1, true, "123", "456"), Rec("detached", 1, false, "123", "456"),
       Rec("invalid", 1, false, "123", "456")]
  {
    AttachedLine(a);
    DetachedLine(b);
    InvalidFlagLine(c);
    ThreeGood(a, b, c, Rec("attached", 1, true, "123", "456"), Rec("detached", 1, false, "123", "456"),
      Rec("invalid", 1, false, "123", "456"));
  }

  /** Empty lines are skipped and a final '\n' adds no record
      ("main:1:0:123:456\n\ndev:2:1:789:012\n"). */
  lemma SkipsEmptyLines(a: string, b: string)
    requires a == Join(["main", "1", "0", "123", "456"], ':')
    requires b == Join(["dev", "2", "1", "789", "012"], ':')
    ensures ParseSessions(a + "\n" + "\n" + b + "\n") ==
      [Rec("main", 1, false, "123", "456"), Rec("dev", 2, true, "789", "012")]
  {
    MainLine(a);
    DevLine(b);
    EmptyBetweenGood(a, b, Rec("main", 1, false, "123", "456"), Rec("dev", 2, true, "789", "012"));
  }

  /** A line with fewer than five fields is dropped while its neighbours are kept, and a
      line with seven fields reads its first five
      ("complete:1:0:123:456\nincomplete:data\nanother:complete:line:1:0:789:012"). */
  lemma DropsIncompleteLines(a: string, x: string, c: string)
    requires a == Join(["complete", "1", "0", "123", "456"], ':')
    requires x == Join(["incomplete", "data"], ':')
    requires c == Join(["another", "complete", "line", "1", "0", "789", "012"], ':')
    ensures ParseSessions(Join([a, x, c], '\n')) ==
      [Rec("complete", 1, false, "123", "456"), Rec("another", 0, false, "1", "0")]
  {
    CompleteLine(a);
    IncompleteLine(x);
    AnotherLine(c);
    MiddleDropped(a, x, c, Rec("complete", 1, false, "123", "456"), Rec("another", 0, false, "1", "0"));
  }

  lemma IncompleteLine(x: string)
    requires x == Join(["incomplete", "data"], ':')
    ensures Free(x, '\n') && StripCr(x) == x && ParseLine(x) == None
  {
    assert Free("incomplete", ':') && Free("incomplete", '\n') && Free("data", ':') && Free("data", '\n');
    SplitJoin(["incomplete", "data"], ':');
    JoinFree(["incomplete", "data"], ':', '\n');
    assert x == "incomplete" + [':'] + "data";
  }

  lemma AnotherLine(c: string)
    requires c == Join(["another", "complete", "line", "1", "0", "789", "012"], ':')
    ensures GoodLine(c, Rec("another", 0, false, "1", "0"))
  {
    assert Free("another", ':') && Free("another", '\n') && Free("complete", ':') && Free("complete", '\n');
    assert Free("line", ':') && Free("line", '\n') && Free("0", ':') && Free("0", '\n') && Free("1", ':') && Free("1", '\n');
    assert Free("789", ':') && Free("789", '\n') && Free("012", ':') && Free("012", '\n');
    RecordLine(c, ["another", "complete", "line", "1", "0", "789", "012"]);
    assert WindowCount("complete") == 0;
  }

  /** A name containing ':' cannot be recovered: the first piece is taken as the name and the
      following pieces shift into the other fields ("name:with:colons:1:0:123:456"). */
  lemma ColonInNameSplits(line: string)
    requires line == Join(["name", "with", "colons", "1", "0", "123", "456"], ':')
    ensures ParseSessions(line) == [Rec("name", 0, false, "1", "0")]
  {
    assert Free("name", ':') && Free("name", '\n') && Free("with", ':') && Free("with", '\n');
    assert Free("colons", ':') && Free("colons", '\n');
    assert Free("0", ':') && Free("0", '\n') && Free("1", ':') && Free("1", '\n');
    assert Free("123", ':') && Free("123", '\n') && Free("456", ':') && Free("456", '\n');
    RecordLine(line, ["name", "with", "colons", "1", "0", "123", "456"]);
    assert WindowCount("with") == 0;
    OneGood(line, Rec("name", 0, false, "1", "0"));
  }

  /** Fields after the fifth are ignored ("main:1:0:123:456:extra:field"). */
  lemma IgnoresExtraFields(line: string)
    requires line == Join(["main", "1", "0", "123", "456", "extra", "field"], ':')
    ensures ParseSessions(line) == [Rec("main", 1, false, "123", "456")]
  {
    assert Free("main", ':') && Free("main", '\n') && Free("extra", ':') && Free("extra", '\n');
    assert Free("field", ':') && Free("field", '\n');
    assert Free("0", ':') && Free("0", '\n') && Free("1", ':') && Free("1", '\n');
    assert Free("123", ':') && Free("123", '\n') && Free("456", ':') && Free("456", '\n');
    RecordLine(line, ["main", "1", "0", "123", "456", "extra", "field"]);
    WindowCountSmall();
    OneGood(line, Rec("main", 1, false, "123", "456"));
  }

  /** Fields are not trimmed: leading and trailing blanks stay part of them
      (" main:1:0:123:456 \n\t dev:2:1:789:012\t"). */
  lemma KeepsWhitespace(a: string, b: string)
    requires a == Join([" main", "1", "0", "123", "456 "], ':')
    requires b == Join(["\t dev", "2", "1", "789", "012\t"], ':')
    ensures ParseSessions(Join([a, b], '\n')) ==
      [Rec(" main", 1, false, "123", "456 "), Rec("\t dev", 2, true, "789", "012\t")]
  {
    SpacedLine(a);
    TabbedLine(b);
    TwoGood(a, b, Rec(" main", 1, false, "123", "456 "), Rec("\t dev", 2, true, "789", "012\t"));
  }

  /** "\n" and "\r\n" line ends may be mixed in one listing
      ("unix:1:0:123:456\nwindows:2:1:789:012\r\nmixed:3:0:345:678\r\n"). */
  lemma MixedLineEndings(a: string, b: string, c: string)
    requires a == Join(["unix", "1", "0", "123", "456"], ':')
    requires b == Join(["windows", "2", "1", "789", "012"], ':')
    requires c == Join(["mixed", "3", "0", "345", "678"], ':')
    ensures ParseSessions(a + "\n" + b + "\r\n" + c + "\r\n") ==
      [Rec("unix", 1, false, "123", "456"), Rec("windows", 2, true, "789", "012"),
       Rec("mixed", 3, false, "345", "678")]
  {
    UnixLine(a);
    WindowsLine(b);
    MixedLine(c);
    MixedGood(a, b, c, Rec("unix", 1, false, "123", "456"), Rec("windows", 2, true, "789", "012"),
      Rec("mixed", 3, false, "345", "678"));
  }
}
