/** Style checks of the profiler's test suite: the `skip_ignored_lines`
    decorator, the `N350` single-quote scan and the `N301`-`N303` check of
    `mock` assertion methods. A check sees one logical line and the file
    name, and reports an offset in the line with a message. */
module HackingChecks {
  import opened Wrappers
  import opened Text

  datatype Report = Report(offset: int, message: string)

  // ---------------------------------------------------------------------
  // skip_ignored_lines

  /** Lines no decorated check looks at: blank once stripped, a comment,
      or ending in `# noqa`. */
  predicate Ignored(line: string) {
    var s := Strip(line);
    |s| == 0 || StartsWith(s, "#") || EndsWith(s, "# noqa")
  }

  /** A check under `skip_ignored_lines`: nothing for an ignored line,
      otherwise the first report of the wrapped check, if it has one. */
  function SkipIgnored(check: (string, string) -> seq<Report>, line: string, filename: string): (r: Option<Report>)
    ensures Ignored(line) ==> r.None?
    ensures r.Some? ==> |check(line, filename)| > 0 && r.value == check(line, filename)[0]
    ensures !Ignored(line) && |check(line, filename)| > 0 ==> r.Some?
  {
    if Ignored(line) then None
    else
      var reports := check(line, filename);
      if |reports| == 0 then None else Some(reports[0])
  }

  /** Whitespace-only lines are ignored. */
  lemma BlankIgnored(line: string)
    requires AllSpace(line)
    ensures Ignored(line)
  {
  }

  /** A comment is ignored however it is indented. */
  lemma CommentIgnored(pad: string, text: string)
    requires AllSpace(pad) && |text| > 0 && !IsSpace(text[|text| - 1])
    ensures Ignored(pad + "#" + text)
  {
    assert pad + "#" + text == pad + ("#" + text) + [];
    StripPadded(pad, "#" + text, []);
  }

  /** Code marked `# noqa` is ignored, whatever the padding around it. */
  lemma NoqaIgnored(pre: string, code: string, post: string)
    requires AllSpace(pre) && AllSpace(post) && |code| > 0 && !IsSpace(code[0])
    ensures Ignored(pre + code + "# noqa" + post)
  {
    assert pre + code + "# noqa" + post == pre + (code + "# noqa") + post;
    StripPadded(pre, code + "# noqa", post);
    assert EndsWith(code + "# noqa", "# noqa");
  }

  /** Any other line is looked at: its stripped text is neither empty, nor
      a comment, nor marked `# noqa`. */
  lemma CodeLooked(pre: string, code: string, post: string)
    requires AllSpace(pre) && AllSpace(post)
    requires |code| > 0 && !IsSpace(code[0]) && !IsSpace(code[|code| - 1])
    requires code[0] != '#' && !EndsWith(code, "# noqa")
    ensures !Ignored(pre + code + post)
  {
    StripPadded(pre, code, post);
    assert code[..1] == [code[0]];
    assert !StartsWith(code, "#");
  }

  // ---------------------------------------------------------------------
  // check_quotes (N350)

  /** Where the scan is: in code, inside a `"..."` string, or inside a
      `"""..."""` region. */
  datatype Mode = Code | InString | InTriple

  /** `check_tripple`: three `"` start at `i`. */
  predicate Triple(line: string, i: int) {
    0 <= i && i + 2 < |line| && line[i] == '"' && line[i + 1] == '"' && line[i + 2] == '"'
  }

  /** The rest of the scan from index `i` in mode `m`: the index of the
      single quote that stops it, or `None` when it reaches the end of the
      line or a `#` in code. */
  function ScanFrom(line: string, i: nat, m: Mode): (r: Option<nat>)
    decreases |line| - i
    ensures r.Some? ==> i <= r.value < |line| && line[r.value] == '\''
  {
    if i >= |line| then None
    else
      var c := line[i];
      match m
      case InString =>
        if c == '"' then ScanFrom(line, i + 1, Code)
        else if c == '\\' then ScanFrom(line, i + 2, InString)
        else ScanFrom(line, i + 1, InString)
      case InTriple =>
        if Triple(line, i) then ScanFrom(line, i + 3, Code) else ScanFrom(line, i + 1, InTriple)
      case Code =>
        if c == '#' then None
        else if c == '\'' then Some(i)
        else if c == '"' then
          (if Triple(line, i) then ScanFrom(line, i + 3, InTriple) else ScanFrom(line, i + 1, InString))
        else ScanFrom(line, i + 1, Code)
  }

  function Scan(line: string): Option<nat> {
    ScanFrom(line, 0, Code)
  }

  const QuotesMessage := "N350 Remove Single quotes"

  /** What `check_quotes` yields before the decorator: at most one report. */
  function QuoteReports(line: string, filename: string): (r: seq<Report>)
    ensures |r| <= 1
    ensures |r| == 1 <==> Scan(line).Some?
    ensures |r| == 1 ==> r[0] == Report(Scan(line).value, QuotesMessage) && line[r[0].offset] == '\''
  {
    match Scan(line)
    case Some(i) => [Report(i, QuotesMessage)]
    case None => []
  }

  /** `check_quotes` as it is decorated. */
  function CheckQuotes(line: string, filename: string): (r: Option<Report>)
    ensures r.Some? <==> !Ignored(line) && Scan(line).Some?
    ensures r.Some? ==> r.value == Report(Scan(line).value, QuotesMessage)
  {
    SkipIgnored(QuoteReports, line, filename)
  }

  function ModeOf(inString: bool, inTriple: bool): Mode {
    if inString then InString else if inTriple then InTriple else Code
  }

  /** The scanning loop of `check_quotes`, step for step: `used` says a
      single quote was found, `i` where the loop stopped. */
  method ScanQuotes(line: string) returns (used: bool, i: nat)
    ensures used <==> Scan(line).Some?
    ensures used ==> i == Scan(line).value && i < |line| && line[i] == '\''
  {
    var inString, inTriple := false, false;
    used := false;
    i := 0;
    while i < |line|
      invariant !(inString && inTriple)
      invariant ScanFrom(line, i, ModeOf(inString, inTriple)) == Scan(line)
      decreases |line| - i
    {
      var c := line[i];
      if inString {
        if c == '"' {
          inString := false;
        }
        if c == '\\' {
          i := i + 1;
        }
      } else if inTriple {
        if Triple(line, i) {
          i := i + 2;
          inTriple := false;
        }
      } else if c == '#' {
        break;
      } else if c == '\'' {
        used := true;
        break;
      } else if c == '"' {
        if Triple(line, i) {
          inTriple := true;
          i := i + 3;
          continue;
        }
        inString := true;
      }
      i := i + 1;
    }
  }

  /** `check_quotes`, the loop followed by the report it yields. */
  method CheckQuotesLoop(line: string) returns (r: seq<Report>)
    ensures r == QuoteReports(line, "")
  {
    var used, i := ScanQuotes(line);
    r := if used then [Report(i, QuotesMessage)] else [];
  }

  /** A line without a single quote is never reported. */
  lemma {:induction false} NoQuoteNoReport(line: string, i: nat, m: Mode)
    requires forall j :: 0 <= j < |line| ==> line[j] != '\''
    ensures ScanFrom(line, i, m) == None
    decreases |line| - i
  {
    if i < |line| {
      var c := line[i];
      match m
      case InString =>
        NoQuoteNoReport(line, i + 1, Code);
        NoQuoteNoReport(line, i + 2, InString);
        NoQuoteNoReport(line, i + 1, InString);
      case InTriple =>
        NoQuoteNoReport(line, i + 3, Code);
        NoQuoteNoReport(line, i + 1, InTriple);
      case Code =>
        NoQuoteNoReport(line, i + 3, InTriple);
        NoQuoteNoReport(line, i + 1, InString);
        NoQuoteNoReport(line, i + 1, Code);
    }
  }

  /** In plain code (no `"` and no `#`) the report is at the first single
      quote. */
  lemma {:induction false} PlainCodeFirstQuote(line: string, i: nat, k: nat)
    requires i <= k < |line| && line[k] == '\''
    requires forall j :: i <= j < k ==> line[j] != '\'' && line[j] != '"' && line[j] != '#'
    ensures ScanFrom(line, i, Code) == Some(k)
    decreases k - i
  {
    if i < k {
      PlainCodeFirstQuote(line, i + 1, k);
    }
  }

  /** Whatever follows a `#` in code goes unseen. */
  lemma {:induction false} CommentEndsScan(code: string, comment: string)
    requires forall j :: 0 <= j < |code| ==> code[j] != '\'' && code[j] != '"' && code[j] != '#'
    ensures Scan(code + "#" + comment) == None
  {
    var line := code + "#" + comment;
    CodeSkipped(line, 0, |code|);
  }

  lemma {:induction false} CodeSkipped(line: string, i: nat, k: nat)
    requires i <= k < |line| && line[k] == '#'
    requires forall j :: i <= j < k ==> line[j] != '\'' && line[j] != '"' && line[j] != '#'
    ensures ScanFrom(line, i, Code) == None
    decreases k - i
  {
    if i < k {
      CodeSkipped(line, i + 1, k);
    }
  }

  /** The scan only looks forward: a prefix shifts the result and changes
      nothing else. */
  lemma {:induction false} ScanShift(p: string, t: string, j: nat, m: Mode)
    ensures ScanFrom(p + t, |p| + j, m) == Shifted(ScanFrom(t, j, m), |p|)
    decreases |t| - j, 2
  {
    if j < |t| {
      assert (p + t)[|p| + j] == t[j];
      TripleShift(p, t, j);
      ShiftStep(p, t, j, m);
    }
  }

  /** One step of `ScanShift`: the recursive call the scan makes at `j`. */
  lemma {:induction false} ShiftStep(p: string, t: string, j: nat, m: Mode)
    requires j < |t| && (p + t)[|p| + j] == t[j] && Triple(p + t, |p| + j) == Triple(t, j)
    ensures ScanFrom(p + t, |p| + j, m) == Shifted(ScanFrom(t, j, m), |p|)
    decreases |t| - j, 1
  {
    match m
    case InString => ShiftInString(p, t, j);
    case InTriple => ShiftInTriple(p, t, j);
    case Code => ShiftCode(p, t, j);
  }

  lemma {:induction false} ShiftInString(p: string, t: string, j: nat)
    requires j < |t| && (p + t)[|p| + j] == t[j]
    ensures ScanFrom(p + t, |p| + j, InString) == Shifted(ScanFrom(t, j, InString), |p|)
    decreases |t| - j, 0
  {
    if t[j] == '"' {
      ScanShift(p, t, j + 1, Code);
    } else if t[j] == '\\' {
      ScanShift(p, t, j + 2, InString);
    } else {
      ScanShift(p, t, j + 1, InString);
    }
  }

  lemma {:induction false} ShiftInTriple(p: string, t: string, j: nat)
    requires j < |t| && Triple(p + t, |p| + j) == Triple(t, j)
    ensures ScanFrom(p + t, |p| + j, InTriple) == Shifted(ScanFrom(t, j, InTriple), |p|)
    decreases |t| - j, 0
  {
    if Triple(t, j) {
      ScanShift(p, t, j + 3, Code);
    } else {
      ScanShift(p, t, j + 1, InTriple);
    }
  }

  lemma {:induction false} ShiftCode(p: string, t: string, j: nat)
    requires j < |t| && (p + t)[|p| + j] == t[j] && Triple(p + t, |p| + j) == Triple(t, j)
    ensures ScanFrom(p + t, |p| + j, Code) == Shifted(ScanFrom(t, j, Code), |p|)
    decreases |t| - j, 0
  {
    var c := t[j];
    if c == '"' {
      if Triple(t, j) {
        ScanShift(p, t, j + 3, InTriple);
      } else {
        ScanShift(p, t, j + 1, InString);
      }
    } else if c != '#' && c != '\'' {
      ScanShift(p, t, j + 1, Code);
    }
  }

  function Shifted(r: Option<nat>, offset: nat): Option<nat> {
    match r
    case Some(k) => Some(offset + k)
    case None => None
  }

  lemma TripleShift(p: string, t: string, j: nat)
    ensures Triple(p + t, |p| + j) == Triple(t, j)
  {
    if j + 2 < |t| {
      assert (p + t)[|p| + j] == t[j];
      assert (p + t)[|p| + j + 1] == t[j + 1] && (p + t)[|p| + j + 2] == t[j + 2];
    }
  }

  /** A `"..."` string is skipped whole, single quotes and all, as long as
      it holds no `"` and no backslash: the scan resumes after it as if it
      were not there. */
  lemma QuotedStringSkipped(s: string, rest: string)
    requires |s| > 0
    requires forall j :: 0 <= j < |s| ==> s[j] != '"' && s[j] != '\\'
    ensures Scan("\"" + s + "\"" + rest) == Shifted(Scan(rest), |s| + 2)
  {
    var p := "\"" + s + "\"";
    var line := p + rest;
    assert line == "\"" + s + "\"" + rest;
    assert line[1] == s[0] && !Triple(line, 0);
    StringBody(line, 1, |s| + 1);
    ScanShift(p, rest, 0, Code);
  }

  lemma {:induction false} StringBody(line: string, i: nat, k: nat)
    requires 1 <= i <= k < |line| && line[k] == '"'
    requires forall j :: i <= j < k ==> line[j] != '"' && line[j] != '\\'
    ensures ScanFrom(line, i, InString) == ScanFrom(line, k + 1, Code)
    decreases k - i
  {
    if i < k {
      StringBody(line, i + 1, k);
    }
  }

  // ---------------------------------------------------------------------
  // _parse_assert_mock_str

  /** Where `.assert_` starts, the method name after the dot, and the
      object before it. */
  datatype MockAssert = MockAssert(pos: nat, name: string, obj: string)

  const AssertMarker := ".assert_"

  /** `_parse_assert_mock_str`: `None` stands for `(None, None, None)`. The
      method runs from after the dot to the first `(`. With no `(`, Python
      slices `line[pos + 1:pos - 1]`: empty, except at position 0 where the
      end index -1 counts from the back of the line. */
  function ParseAssertMockStr(line: string): (r: Option<MockAssert>)
    ensures r.Some? ==> r.value.pos + |AssertMarker| <= |line|
    ensures r.None? <==> forall j :: 0 <= j ==> !OccursAt(line, AssertMarker, j)
    ensures r.Some? ==> && OccursAt(line, AssertMarker, r.value.pos)
                        && (forall j :: 0 <= j < r.value.pos ==> !OccursAt(line, AssertMarker, j))
                        && r.value.obj == line[..r.value.pos]
  {
    match Find(line, AssertMarker)
    case None => None
    case Some(point) =>
      var paren := Find(line[point..], "(");
      var name :=
        if paren.Some? then
          assert line[point..][0] == '.' && OccursAt(line[point..], "(", paren.value);
          line[point + 1..point + paren.value]
        else if point == 0 then line[1..|line| - 1]
        else [];
      Some(MockAssert(point, name, line[..point]))
  }

  /** An assertion call reads back as its object, its method name and its
      position, provided `.assert_` does not occur earlier. */
  lemma ParseAssertRoundTrip(obj: string, suffix: string, args: string)
    requires forall j :: 0 <= j < |obj| ==> !OccursAt(obj + AssertMarker, AssertMarker, j)
    requires '(' !in suffix
    ensures ParseAssertMockStr(obj + AssertMarker + suffix + "(" + args)
         == Some(MockAssert(|obj|, "assert_" + suffix, obj))
  {
    var line := obj + AssertMarker + suffix + "(" + args;
    LineParts(obj, suffix, args);
    MarkerFirst(obj, suffix + "(" + args);
    ParenAfterName(suffix, args);
    ParsedAt(line, |obj|, |AssertMarker| + |suffix|);
  }

  /** The pieces of an assertion call that the parse cuts out. */
  lemma LineParts(obj: string, suffix: string, args: string)
    ensures var line := obj + AssertMarker + suffix + "(" + args;
      && line == obj + AssertMarker + (suffix + "(" + args)
      && line[..|obj|] == obj
      && line[|obj|..] == AssertMarker + suffix + "(" + args
      && line[|obj| + 1..|obj| + |AssertMarker| + |suffix|] == "assert_" + suffix
  {
    var line := obj + AssertMarker + suffix + "(" + args;
    var tail := AssertMarker + suffix + "(" + args;
    assert line[|obj|..] == tail;
    assert line[|obj| + 1..|obj| + |AssertMarker| + |suffix|] == tail[1..|AssertMarker| + |suffix|];
  }

  /** With no `(` after `.assert_`, the method name comes out empty. */
  lemma NoParenEmptyName(obj: string, rest: string)
    requires forall j :: 0 <= j < |obj| ==> !OccursAt(obj + AssertMarker, AssertMarker, j)
    requires |obj| > 0 && '(' !in rest
    ensures ParseAssertMockStr(obj + AssertMarker + rest) == Some(MockAssert(|obj|, [], obj))
  {
    var line := obj + AssertMarker + rest;
    MarkerFirst(obj, rest);
    assert line[..|obj|] == obj && line[|obj|..] == AssertMarker + rest;
    NoParen(line, |obj|, rest);
    ParsedNoParen(line, |obj|);
  }

  /** At position 0 with no `(`, the slice end -1 counts from the back, so
      the name is the line without its first and last characters. */
  lemma NoParenAtStart(rest: string)
    requires '(' !in rest
    ensures var line := AssertMarker + rest;
      ParseAssertMockStr(line) == Some(MockAssert(0, line[1..|line| - 1], []))
  {
    var line := AssertMarker + rest;
    assert line == [] + AssertMarker + rest;
    MarkerFirst([], rest);
    NoParen(line, 0, rest);
    ParsedNoParen(line, 0);
  }

  lemma NoParen(line: string, point: nat, rest: string)
    requires point + |AssertMarker| <= |line| && line[point..] == AssertMarker + rest && '(' !in rest
    ensures Find(line[point..], "(") == None
  {
    var t := line[point..];
    forall j | 0 <= j
      ensures !OccursAt(t, "(", j)
    {
      if j < |t| {
        assert t[j..j + 1] == [t[j]];
        if j < |AssertMarker| {
          assert t[j] == AssertMarker[j];
        } else {
          assert t[j] == rest[j - |AssertMarker|];
        }
      }
    }
  }

  /** The parse when no `(` follows `.assert_`. */
  lemma ParsedNoParen(line: string, point: nat)
    requires Find(line, AssertMarker) == Some(point)
    requires Find(line[point..], "(") == None
    ensures point + |AssertMarker| <= |line|
    ensures ParseAssertMockStr(line)
         == Some(MockAssert(point, if point == 0 then line[1..|line| - 1] else [], line[..point]))
  {
  }

  /** The parse once both `find` calls are known. */
  lemma ParsedAt(line: string, point: nat, paren: nat)
    requires Find(line, AssertMarker) == Some(point)
    requires Find(line[point..], "(") == Some(paren)
    ensures 1 <= paren && point + paren <= |line|
    ensures ParseAssertMockStr(line) == Some(MockAssert(point, line[point + 1..point + paren], line[..point]))
  {
    assert line[point..][0] == '.' && OccursAt(line[point..], "(", paren);
  }

  /** `.assert_` right after `obj` is found there. */
  lemma MarkerFirst(obj: string, rest: string)
    requires forall j :: 0 <= j < |obj| ==> !OccursAt(obj + AssertMarker, AssertMarker, j)
    ensures Find(obj + AssertMarker + rest, AssertMarker) == Some(|obj|)
  {
    var line := obj + AssertMarker + rest;
    assert line == (obj + AssertMarker) + rest;
    PrefixSlice(obj + AssertMarker, rest, |obj|, |obj| + |AssertMarker|);
    forall j | 0 <= j < |obj|
      ensures !OccursAt(line, AssertMarker, j)
    {
      assert !OccursAt(obj + AssertMarker, AssertMarker, j);
      PrefixSlice(obj + AssertMarker, rest, j, j + |AssertMarker|);
    }
    FindFirst(line, AssertMarker, |obj|);
  }

  /** The first `(` after `.assert_` ends the method name. */
  lemma ParenAfterName(suffix: string, args: string)
    requires '(' !in suffix
    ensures Find(AssertMarker + suffix + "(" + args, "(") == Some(|AssertMarker| + |suffix|)
  {
    var tail := AssertMarker + suffix + "(" + args;
    var at := |AssertMarker| + |suffix|;
    assert tail[at..at + 1] == "(";
    forall j | 0 <= j < at
      ensures !OccursAt(tail, "(", j)
    {
      assert tail[j..j + 1] == [tail[j]];
      if j < |AssertMarker| {
        assert tail[j] == AssertMarker[j];
      } else {
        assert tail[j] == suffix[j - |AssertMarker|];
      }
    }
    FindFirst(tail, "(", at);
  }

  lemma PrefixSlice(a: string, b: string, i: nat, k: nat)
    requires i <= k <= |a|
    ensures (a + b)[i..k] == a[i..k]
  {
  }

  /** `find` returns the first occurrence. */
  lemma FindFirst(s: string, pat: string, k: nat)
    requires OccursAt(s, pat, k)
    requires forall j :: 0 <= j < k ==> !OccursAt(s, pat, j)
    ensures Find(s, pat) == Some(k)
  {
  }

  // ---------------------------------------------------------------------
  // check_assert_methods_from_mock (N301, N302, N303)

  const CorrectNames: seq<string> :=
    ["assert_any_call", "assert_called_once_with", "assert_called_with", "assert_has_calls"]

  const IgnoredFiles: seq<string> := ["./tests/unit/test_hacking.py"]

  /** `N302` for `assert_called`, `N303` for `assert_called_once`, `N301`
      for any other unknown method. */
  function ErrorCode(name: string): string {
    if name == "assert_called" then "N302"
    else if name == "assert_called_once" then "N303"
    else "N301"
  }

  function Advice(name: string, obj: string): string {
    if name == "assert_called" then
      "Maybe, you should try to use 'assertTrue(" + obj + ".called)' instead."
    else if name == "assert_called_once" then
      "Maybe, you should try to use 'assertEqual(1, " + obj + ".call_count)' or '"
      + obj + ".assert_called_once_with()' instead."
    else
      "Correct 'assert_*' methods: 'assert_any_call', 'assert_called_once_with', "
      + "'assert_called_with', 'assert_has_calls'."
  }

  /** The message of an unknown assertion method. */
  function MockMessage(name: string, obj: string): string {
    ErrorCode(name) + ":'" + name + "'" + MessageTail(name, obj)
  }

  function MessageTail(name: string, obj: string): string {
    " is not present in `mock` library. " + Advice(name, obj)
    + " For more details, visit http://www.voidspace.org.uk/python/mock/ ."
  }

  /** The message starts with its error code and then names the method in
      quotes, so both can be read back from it. */
  lemma MessageNamesMethod(name: string, obj: string)
    ensures |MockMessage(name, obj)| > 6 + |name|
    ensures MockMessage(name, obj)[..4] == ErrorCode(name)
    ensures MockMessage(name, obj)[4..6] == ":'"
    ensures MockMessage(name, obj)[6..6 + |name|] == name
    ensures MockMessage(name, obj)[6 + |name|] == '\''
  {
    QuotedName(ErrorCode(name), name, MessageTail(name, obj));
  }

  lemma QuotedName(code: string, name: string, tail: string)
    requires |code| == 4
    ensures var m := code + ":'" + name + "'" + tail;
      && |m| > 6 + |name| && m[..4] == code && m[4..6] == ":'"
      && m[6..6 + |name|] == name && m[6 + |name|] == '\''
  {
  }

  /** The three codes tell the three cases apart. */
  lemma ErrorCodes(name: string)
    ensures ErrorCode(name) == "N302" <==> name == "assert_called"
    ensures ErrorCode(name) == "N303" <==> name == "assert_called_once"
    ensures ErrorCode(name) == "N301" <==> name != "assert_called" && name != "assert_called_once"
  {
    assert "N302"[3] != "N303"[3] && "N302"[3] != "N301"[3] && "N303"[3] != "N301"[3];
  }

  /** The files the check applies to. */
  predicate Checked(filename: string) {
    StartsWith(filename, "./tests") && filename !in IgnoredFiles
  }

  /** What `check_assert_methods_from_mock` yields before the decorator: a
      report only in a checked file, for `.assert_` at a non-zero position
      (Python treats position 0 as false) and a method outside the
      allow-list. */
  function MockReports(line: string, filename: string): (r: seq<Report>)
    ensures |r| <= 1
    ensures |r| == 1 <==> && Checked(filename) && ParseAssertMockStr(line).Some?
                          && ParseAssertMockStr(line).value.pos != 0
                          && ParseAssertMockStr(line).value.name !in CorrectNames
    ensures |r| == 1 ==> && r[0].offset == ParseAssertMockStr(line).value.pos
                         && r[0].message == MockMessage(ParseAssertMockStr(line).value.name,
                                                        ParseAssertMockStr(line).value.obj)
  {
    if !Checked(filename) then []
    else
      match ParseAssertMockStr(line)
      case None => []
      case Some(call) =>
        if call.pos == 0 || call.name in CorrectNames then []
        else [Report(call.pos, MockMessage(call.name, call.obj))]
  }

  /** `check_assert_methods_from_mock` as it is decorated. */
  function CheckAssertMethodsFromMock(line: string, filename: string): (r: Option<Report>)
    ensures r.Some? ==> Checked(filename)
    ensures r.Some? <==> !Ignored(line) && |MockReports(line, filename)| == 1
    ensures r.Some? ==> r.value == MockReports(line, filename)[0]
  {
    SkipIgnored(MockReports, line, filename)
  }

  /** A call of an allow-listed method is never reported, whatever the
      object and the arguments. */
  lemma AllowedNeverReported(obj: string, suffix: string, args: string, filename: string)
    requires forall j :: 0 <= j < |obj| ==> !OccursAt(obj + AssertMarker, AssertMarker, j)
    requires '(' !in suffix
    requires "assert_" + suffix in CorrectNames
    ensures CheckAssertMethodsFromMock(obj + AssertMarker + suffix + "(" + args, filename).None?
  {
    ParseAssertRoundTrip(obj, suffix, args);
  }

  /** In a checked file, `obj.assert_called(...)` is reported as `N302` at
      the dot, naming the object, unless the line is ignored or the call
      starts the line. */
  lemma AssertCalledReported(obj: string, args: string, filename: string)
    requires forall j :: 0 <= j < |obj| ==> !OccursAt(obj + AssertMarker, AssertMarker, j)
    requires |obj| > 0 && Checked(filename)
    requires !Ignored(obj + AssertMarker + "called" + "(" + args)
    ensures CheckAssertMethodsFromMock(obj + AssertMarker + "called" + "(" + args, filename)
         == Some(Report(|obj|, MockMessage("assert_called", obj)))
  {
    ParseAssertRoundTrip(obj, "called", args);
    CalledNotAllowed();
    Reported(obj + AssertMarker + "called" + "(" + args, filename, MockAssert(|obj|, "assert_called", obj));
  }

  /** The report for a parsed call outside the allow-list. */
  lemma Reported(line: string, filename: string, call: MockAssert)
    requires Checked(filename) && !Ignored(line)
    requires ParseAssertMockStr(line) == Some(call) && call.pos != 0 && call.name !in CorrectNames
    ensures CheckAssertMethodsFromMock(line, filename) == Some(Report(call.pos, MockMessage(call.name, call.obj)))
  {
  }

  lemma CalledNotAllowed()
    ensures "assert_" + "called" == "assert_called"
    ensures "assert_called" !in CorrectNames && "assert_called_once" !in CorrectNames
  {
    assert |"assert_called"| != |CorrectNames[0]| && |"assert_called"| != |CorrectNames[1]|;
    assert |"assert_called"| != |CorrectNames[2]| && |"assert_called"| != |CorrectNames[3]|;
    assert |"assert_called_once"| != |CorrectNames[0]| && |"assert_called_once"| != |CorrectNames[1]|;
    assert "assert_called_once"[14] != CorrectNames[2][14] && |"assert_called_once"| != |CorrectNames[3]|;
  }
}
