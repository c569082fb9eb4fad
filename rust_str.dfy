/** The pieces of Rust's `str` and integer parsing that the session tooling relies on:
    `str::lines`, `str::split` on one character, `str::trim`, `str::contains`,
    ASCII lower-casing and `usize::from_str`. Strings are sequences of Unicode scalar values. */
module RustStr {
  import opened Wrappers

  /** `s` holds no occurrence of `c`. */
  predicate Free(s: string, c: char) {
    forall i :: 0 <= i < |s| ==> s[i] != c
  }

  /** Position of the first `c` in `s`, or `|s|` when there is none. */
  function Find(s: string, c: char): (i: nat)
    ensures i <= |s|
    ensures i < |s| ==> s[i] == c
    ensures Free(s[..i], c)
  {
    if s == [] then 0
    else if s[0] == c then 0
    else
      var k := Find(s[1..], c);
      assert s[..1 + k] == [s[0]] + s[1..][..k];
      1 + k
  }

  lemma FindFree(a: string, c: char, b: string)
    requires Free(a, c)
    ensures Find(a + [c] + b, c) == |a|
    ensures Find(a, c) == |a|
  {
    var s := a + [c] + b;
    assert s[..|a|] == a;
    assert s[|a|] == c;
  }

  // ---------------------------------------------------------------------------
  // split(':') and its inverse

  /** Rust's `s.split(sep).collect::<Vec<&str>>()` for a one-character separator:
      the maximal separator-free pieces between separators, always at least one. */
  function Split(s: string, sep: char): (parts: seq<string>)
    ensures |parts| >= 1
    ensures forall k :: 0 <= k < |parts| ==> Free(parts[k], sep)
    decreases |s|
  {
    var i := Find(s, sep);
    if i == |s| then
      assert s[..i] == s;
      [s]
    else
      [s[..i]] + Split(s[i + 1..], sep)
  }

  /** Rust's `parts.join(sep)`. */
  function Join(parts: seq<string>, sep: char): string
  {
    if parts == [] then ""
    else if |parts| == 1 then parts[0]
    else parts[0] + [sep] + Join(parts[1..], sep)
  }

  /** Joining the pieces of a split gives back the original text. */
  lemma {:induction false} JoinSplit(s: string, sep: char)
    ensures Join(Split(s, sep), sep) == s
    decreases |s|
  {
    var i := Find(s, sep);
    if i == |s| {
      assert s[..i] == s;
    } else {
      var rest := Split(s[i + 1..], sep);
      var parts := [s[..i]] + rest;
      assert Split(s, sep) == parts;
      assert parts[1..] == rest;
      assert Join(parts, sep) == s[..i] + [sep] + Join(rest, sep);
      JoinSplit(s[i + 1..], sep);
      assert s == s[..i] + [sep] + s[i + 1..];
    }
  }

  /** Splitting a join of separator-free pieces gives back exactly those pieces. */
  lemma {:induction false} SplitJoin(parts: seq<string>, sep: char)
    requires |parts| >= 1
    requires forall k :: 0 <= k < |parts| ==> Free(parts[k], sep)
    ensures Split(Join(parts, sep), sep) == parts
  {
    if |parts| == 1 {
      FindFree(parts[0], sep, "");
      assert parts[0][..|parts[0]|] == parts[0];
    } else {
      var a, rest := parts[0], Join(parts[1..], sep);
      var s := a + [sep] + rest;
      FindFree(a, sep, rest);
      assert s[..|a|] == a;
      assert s[|a| + 1..] == rest;
      SplitJoin(parts[1..], sep);
      assert parts == [a] + parts[1..];
    }
  }

  /** `split` yields one more piece than there are separators. */
  lemma {:induction false} SplitCount(s: string, sep: char)
    ensures |Split(s, sep)| == multiset(s)[sep] + 1
    decreases |s|
  {
    var i := Find(s, sep);
    if i == |s| {
      assert s[..i] == s;
      CountFree(s, sep);
    } else {
      SplitAt(s, sep);
      SplitCount(s[i + 1..], sep);
      CountAfterFirst(s, sep);
    }
  }

  /** The separators of a text are its first one and those after it. */
  lemma CountAfterFirst(s: string, sep: char)
    requires Find(s, sep) < |s|
    ensures multiset(s)[sep] == 1 + multiset(s[Find(s, sep) + 1..])[sep]
  {
    var i := Find(s, sep);
    CountAround(s, i);
    CountFree(s[..i], sep);
  }

  /** A text holding the separator splits into the piece before its first occurrence and the
      pieces of the rest. */
  lemma SplitAt(s: string, sep: char)
    requires Find(s, sep) < |s|
    ensures |Split(s, sep)| == 1 + |Split(s[Find(s, sep) + 1..], sep)|
  {
  }

  /** A text free of `c` holds no copy of it. */
  lemma CountFree(s: string, c: char)
    requires Free(s, c)
    ensures multiset(s)[c] == 0
  {
    assert c !in s;
  }

  /** The copies of `s[i]` in `s` are those before `i`, the one at `i` and those after. */
  lemma CountAround(s: string, i: nat)
    requires i < |s|
    ensures multiset(s)[s[i]] == multiset(s[..i])[s[i]] + 1 + multiset(s[i + 1..])[s[i]]
  {
    assert s == s[..i] + [s[i]] + s[i + 1..];
  }

  // ---------------------------------------------------------------------------
  // lines()

  /** Removes one trailing carriage return. */
  function StripCr(l: string): (r: string)
    ensures l == r || l == r + ['\r']
  {
    if |l| > 0 && l[|l| - 1] == '\r' then l[..|l| - 1] else l
  }

  /** Rust's `str::lines()`: split after every '\n', drop the '\n' and one '\r' just before it,
      and produce no final empty line. A last line without a '\n' is returned as it stands,
      a trailing '\r' included. */
  function Lines(s: string): (ls: seq<string>)
    ensures forall k :: 0 <= k < |ls| ==> Free(ls[k], '\n')
    decreases |s|
  {
    if s == [] then []
    else
      var i := Find(s, '\n');
      if i == |s| then
        assert s[..i] == s;
        [s]
      else
        var rest := Lines(s[i + 1..]);
        var l := StripCr(s[..i]);
        assert Free(l, '\n') by {
          if l != s[..i] { assert s[..i] == l + ['\r']; assert forall j :: 0 <= j < |l| ==> l[j] == s[..i][j]; }
        }
        [l] + rest
  }

  /** One '\n'-terminated line followed by more text. */
  lemma LinesCons(a: string, b: string)
    requires Free(a, '\n')
    ensures Lines(a + ['\n'] + b) == [StripCr(a)] + Lines(b)
  {
    var s := a + ['\n'] + b;
    FindFree(a, '\n', b);
    assert s[..|a|] == a;
    assert s[|a| + 1..] == b;
  }

  /** `ls` written out with `eol` after every line. */
  function Terminated(ls: seq<string>, eol: string): (s: string)
    ensures |s| == |ls| * |eol| + Sum(ls)
  {
    if ls == [] then "" else ls[0] + eol + Terminated(ls[1..], eol)
  }

  /** Total length of the lines. */
  function Sum(ls: seq<string>): nat {
    if ls == [] then 0 else |ls[0]| + Sum(ls[1..])
  }

  predicate EndsWithCr(l: string) {
    |l| > 0 && l[|l| - 1] == '\r'
  }

  /** Text whose every line ends in "\n" splits back into those lines, provided no line
      contains a '\n' or ends in a '\r'. */
  lemma {:induction false} LinesOfLfTerminated(ls: seq<string>)
    requires forall k :: 0 <= k < |ls| ==> Free(ls[k], '\n') && !EndsWithCr(ls[k])
    ensures Lines(Terminated(ls, "\n")) == ls
  {
    if ls != [] {
      LinesCons(ls[0], Terminated(ls[1..], "\n"));
      LinesOfLfTerminated(ls[1..]);
      assert ls == [ls[0]] + ls[1..];
    }
  }

  /** Text whose every line ends in "\r\n" splits back into those lines: the carriage
      returns are removed with the newlines. */
  lemma {:induction false} LinesOfCrlfTerminated(ls: seq<string>)
    requires forall k :: 0 <= k < |ls| ==> Free(ls[k], '\n')
    ensures Lines(Terminated(ls, "\r\n")) == ls
  {
    if ls != [] {
      var l := ls[0] + ['\r'];
      assert Free(l, '\n');
      assert Terminated(ls, "\r\n") == l + ['\n'] + Terminated(ls[1..], "\r\n");
      LinesCons(l, Terminated(ls[1..], "\r\n"));
      assert StripCr(l) == ls[0];
      LinesOfCrlfTerminated(ls[1..]);
      assert ls == [ls[0]] + ls[1..];
    }
  }

  /** LF and CRLF line endings give the same lines. */
  lemma LfAndCrlfAgree(ls: seq<string>)
    requires forall k :: 0 <= k < |ls| ==> Free(ls[k], '\n') && !EndsWithCr(ls[k])
    ensures Lines(Terminated(ls, "\n")) == Lines(Terminated(ls, "\r\n"))
  {
    LinesOfLfTerminated(ls);
    LinesOfCrlfTerminated(ls);
  }

  /** A final "\n" is optional: adding one to non-empty text that does not already end a
      line, and whose last character is not a carriage return, changes no line. */
  lemma {:induction false} FinalNewlineOptional(s: string)
    requires s != [] && s[|s| - 1] != '\n' && s[|s| - 1] != '\r'
    ensures Lines(s + ['\n']) == Lines(s)
    decreases |s|
  {
    var i := Find(s, '\n');
    if i == |s| {
      assert s[..i] == s;
      LastLineKept(s);
    } else {
      var a, b := s[..i], s[i + 1..];
      assert Free(a, '\n');
      assert b != [] && b[|b| - 1] == s[|s| - 1];
      assert Lines(s) == [StripCr(a)] + Lines(b) by {
        assert s == a + ['\n'] + b;
        LinesCons(a, b);
      }
      assert Lines(s + ['\n']) == [StripCr(a)] + Lines(b + ['\n']) by {
        assert s + ['\n'] == a + ['\n'] + (b + ['\n']);
        LinesCons(a, b + ['\n']);
      }
      FinalNewlineOptional(b);
    }
  }

  lemma LastLineKept(s: string)
    requires s != [] && Free(s, '\n') && s[|s| - 1] != '\r'
    ensures Lines(s + ['\n']) == Lines(s) == [s]
  {
    FindFree(s, '\n', []);
    assert s[..|s|] == s;
    assert s + ['\n'] == s + ['\n'] + [];
    LinesCons(s, []);
  }

  /** No more lines than line feeds plus one. */
  lemma {:induction false} LinesCount(s: string)
    ensures |Lines(s)| <= multiset(s)['\n'] + 1
    decreases |s|
  {
    if s != [] {
      var i := Find(s, '\n');
      if i < |s| {
        LinesCount(s[i + 1..]);
        assert s == s[..i] + ['\n'] + s[i + 1..];
        assert multiset(s) == multiset(s[..i]) + multiset{'\n'} + multiset(s[i + 1..]);
      }
    }
  }

  // ---------------------------------------------------------------------------
  // trim()

  /** Rust's `char::is_whitespace`: the Unicode White_Space property. */
  predicate IsWhitespace(c: char) {
    var k := c as int;
    (9 <= k <= 13) || k == 0x20 || k == 0x85 || k == 0xA0 || k == 0x1680
    || (0x2000 <= k <= 0x200A) || k == 0x2028 || k == 0x2029 || k == 0x202F
    || k == 0x205F || k == 0x3000
  }

  /** Rust's `trim_start`: drops the leading whitespace. */
  function TrimStart(s: string): (r: string)
    ensures |r| <= |s| && r == s[|s| - |r|..]
    ensures forall i :: 0 <= i < |s| - |r| ==> IsWhitespace(s[i])
    ensures r != [] ==> !IsWhitespace(r[0])
  {
    if s != [] && IsWhitespace(s[0]) then TrimStart(s[1..]) else s
  }

  /** Rust's `trim_end`: drops the trailing whitespace. */
  function TrimEnd(s: string): (r: string)
    ensures |r| <= |s| && r == s[..|r|]
    ensures forall i :: |r| <= i < |s| ==> IsWhitespace(s[i])
    ensures r != [] ==> !IsWhitespace(r[|r| - 1])
  {
    if s != [] && IsWhitespace(s[|s| - 1]) then TrimEnd(s[..|s| - 1]) else s
  }

  /** Rust's `str::trim`: never longer than the text, and a non-empty result neither starts
      nor ends with whitespace. */
  function Trim(s: string): (r: string)
    ensures |r| <= |s|
    ensures r != [] ==> !IsWhitespace(r[0]) && !IsWhitespace(r[|r| - 1])
  {
    var t := TrimStart(s);
    assert TrimEnd(t) != [] ==> TrimEnd(t)[0] == t[0];
    TrimEnd(t)
  }

  /** Trimming leaves nothing exactly when the text is all whitespace. */
  lemma TrimEmptyIffBlank(s: string)
    ensures Trim(s) == [] <==> forall i :: 0 <= i < |s| ==> IsWhitespace(s[i])
  {
    var t := TrimStart(s);
    if !forall i :: 0 <= i < |s| ==> IsWhitespace(s[i]) {
      var i :| 0 <= i < |s| && !IsWhitespace(s[i]);
      assert i >= |s| - |t|;
      assert t[i - (|s| - |t|)] == s[i];
    }
  }

  /** Trimming removes whitespace only at the ends: the result is a slice of the input
      with whitespace alone before and after it. */
  lemma TrimSlice(s: string) returns (lo: nat)
    ensures lo + |Trim(s)| <= |s| && Trim(s) == s[lo..lo + |Trim(s)|]
    ensures forall i :: 0 <= i < lo ==> IsWhitespace(s[i])
    ensures forall i :: lo + |Trim(s)| <= i < |s| ==> IsWhitespace(s[i])
  {
    var t := TrimStart(s);
    var r := TrimEnd(t);
    assert Trim(s) == r;
    lo := |s| - |t|;
    SliceOfSuffix(s, lo, r);
  }

  /** A prefix `r` of the suffix `s[lo..]` is the slice `s[lo..lo + |r|]`, and what follows
      it in `s` is what follows it in the suffix. */
  lemma SliceOfSuffix(s: string, lo: nat, r: string)
    requires lo <= |s| && |r| <= |s| - lo && r == s[lo..][..|r|]
    ensures r == s[lo..lo + |r|]
    ensures forall i :: lo + |r| <= i < |s| ==> s[i] == s[lo..][i - lo]
  {
  }

  // ---------------------------------------------------------------------------
  // contains()

  /** Rust's `str::contains` with a string pattern: the empty pattern is in every text, and a
      pattern is found only in a text at least as long. */
  function Contains(s: string, sub: string): (r: bool)
    ensures sub == [] ==> r
    ensures r ==> |sub| <= |s|
    decreases |s|
  {
    if |sub| > |s| then false
    else if s[..|sub|] == sub then true
    else Contains(s[1..], sub)
  }

  /** `sub` occurs in `s` starting at position `i`. */
  predicate OccursAt(s: string, sub: string, i: int) {
    0 <= i <= |s| - |sub| && s[i..i + |sub|] == sub
  }

  /** `Contains` holds exactly when `sub` occurs at some position of `s`. */
  lemma {:induction false} ContainsIffOccurs(s: string, sub: string)
    ensures Contains(s, sub) <==> exists i :: OccursAt(s, sub, i)
    decreases |s|
  {
    if |sub| > |s| {
    } else if s[..|sub|] == sub {
      assert OccursAt(s, sub, 0);
    } else {
      ContainsIffOccurs(s[1..], sub);
      if exists i :: OccursAt(s, sub, i) {
        var i :| OccursAt(s, sub, i);
        assert i != 0;
        assert s[1..][i - 1..i - 1 + |sub|] == s[i..i + |sub|];
        assert OccursAt(s[1..], sub, i - 1);
      }
      if Contains(s[1..], sub) {
        var j :| OccursAt(s[1..], sub, j);
        assert s[1..][j..j + |sub|] == s[j + 1..j + 1 + |sub|];
        assert OccursAt(s, sub, j + 1);
      }
    }
  }

  /** Text holding `sub` between any prefix and suffix contains it. */
  lemma ContainsInfix(a: string, sub: string, b: string)
    ensures Contains(a + sub + b, sub)
  {
    var s := a + sub + b;
    assert s[|a|..|a| + |sub|] == sub;
    assert OccursAt(s, sub, |a|);
    ContainsIffOccurs(s, sub);
  }

  /** A pattern longer than the text is never contained in it. */
  lemma ContainsNeedsRoom(s: string, sub: string)
    requires |s| < |sub|
    ensures !Contains(s, sub)
  {
  }

  // ---------------------------------------------------------------------------
  // to_lowercase() on ASCII

  function LowerAscii(c: char): char {
    if 'A' <= c <= 'Z' then (c as int + 32) as char else c
  }

  /** Lower-cases the ASCII letters and keeps every other character. */
  function ToLowerAscii(s: string): (r: string)
    ensures |r| == |s|
    ensures forall i :: 0 <= i < |s| ==> r[i] == LowerAscii(s[i])
  {
    seq(|s|, i requires 0 <= i < |s| => LowerAscii(s[i]))
  }

  // ---------------------------------------------------------------------------
  // usize::from_str

  /** The largest `usize` on a 64-bit target. */
  const USIZE_MAX: nat := 0xFFFF_FFFF_FFFF_FFFF

  predicate IsDigit(c: char) {
    '0' <= c <= '9'
  }

  predicate AllDigits(s: string) {
    forall i :: 0 <= i < |s| ==> IsDigit(s[i])
  }

  function DigitsValue(s: string): nat
    requires AllDigits(s)
    decreases |s|
  {
    if s == [] then 0 else 10 * DigitsValue(s[..|s| - 1]) + (s[|s| - 1] as int - '0' as int)
  }

  /** The text after an optional leading '+'. */
  function Magnitude(s: string): string {
    if |s| > 0 && s[0] == '+' then s[1..] else s
  }

  /** Rust's `s.parse::<usize>()`: decimal ASCII digits (leading zeros allowed) after an
      optional leading '+'; an empty digit string, any other character (a '-', a '.', a space)
      or a value past `USIZE_MAX` is an error. */
  function ParseUsize(s: string): (r: Option<nat>)
    ensures r.Some? ==> r.value <= USIZE_MAX
    ensures r.Some? ==> forall i :: 0 <= i < |s| ==> IsDigit(s[i]) || (i == 0 && s[i] == '+')
  {
    var digits := if |s| > 0 && s[0] == '+' then s[1..] else s;
    if digits != [] && AllDigits(digits) && DigitsValue(digits) <= USIZE_MAX then
      Some(DigitsValue(digits))
    else
      None
  }

  /** The decimal rendering of `n` (as tmux prints its counters), without sign or leading zeros. */
  function DecimalString(n: nat): (s: string)
    ensures |s| >= 1 && AllDigits(s)
    ensures s[0] != '+'
  {
    if n < 10 then [('0' as int + n) as char]
    else DecimalString(n / 10) + [('0' as int + n % 10) as char]
  }

  lemma {:induction false} DigitsValueOfDecimal(n: nat)
    ensures DigitsValue(DecimalString(n)) == n
  {
    if n >= 10 {
      var s := DecimalString(n);
      DigitsValueOfDecimal(n / 10);
      assert s[..|s| - 1] == DecimalString(n / 10);
    }
  }

  /** Parsing the decimal rendering of a `usize`, with or without a '+' sign, gives it back. */
  lemma DecimalRoundTrip(n: nat)
    requires n <= USIZE_MAX
    ensures ParseUsize(DecimalString(n)) == Some(n)
    ensures ParseUsize("+" + DecimalString(n)) == Some(n)
  {
    DigitsValueOfDecimal(n);
    assert ("+" + DecimalString(n))[1..] == DecimalString(n);
  }

  /** What `parse::<usize>` accepts and yields: exactly an optional '+' followed by one or more
      ASCII digits whose value fits a `usize`, read as that decimal value. */
  lemma ParseUsizeExact(s: string)
    ensures ParseUsize(s).Some? <==>
      Magnitude(s) != [] && AllDigits(Magnitude(s)) && DigitsValue(Magnitude(s)) <= USIZE_MAX
    ensures ParseUsize(s).Some? ==> ParseUsize(s).value == DigitsValue(Magnitude(s))
  {
  }

  /** Leading zeros do not change the value. */
  lemma {:induction false} LeadingZeroValue(d: string)
    requires AllDigits(d)
    ensures AllDigits("0" + d) && DigitsValue("0" + d) == DigitsValue(d)
    decreases |d|
  {
    if d != [] {
      var p := d[..|d| - 1];
      LeadingZeroValue(p);
      assert ("0" + d)[..|d|] == "0" + p;
    }
  }

  /** A leading zero is accepted and ignored: `"07"` parses as `7`. */
  lemma LeadingZeroIgnored(d: string)
    requires d != [] && AllDigits(d)
    ensures ParseUsize("0" + d) == ParseUsize(d)
  {
    LeadingZeroValue(d);
    ParseUsizeExact("0" + d);
    ParseUsizeExact(d);
    assert Magnitude("0" + d) == "0" + d;
    assert d[0] != '+';
  }

  /** A value past `USIZE_MAX` is rejected, not wrapped: `"18446744073709551616"` is an error. */
  lemma OverflowRejected(n: nat)
    requires n > USIZE_MAX
    ensures ParseUsize(DecimalString(n)) == None
  {
    DigitsValueOfDecimal(n);
    ParseUsizeExact(DecimalString(n));
  }
}
