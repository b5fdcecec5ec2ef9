/** The Netscape cookie file: printing a jar and reading it back, and exactly
    which jars survive that. */
module NetscapeFile {
  import opened Basics
  import opened Wrappers
  import opened Decimal
  import opened CookieJar
  import SetCookie

  const TICKS_PER_SECOND := 1_000_000_000
  const UINT32_LIMIT := 0x1_0000_0000
  const HTTP_ONLY := "#HttpOnly_"

  datatype Error = Malformed

  // ------------------------------------------------------- splitting at a delimiter

  predicate Free(s: string, d: char) { forall i | 0 <= i < |s| :: s[i] != d }

  function Span(s: string, d: char): (n: nat)
    ensures n <= |s| && Free(s[..n], d) && (n < |s| ==> s[n] == d)
  {
    if s == [] || s[0] == d then 0
    else
      var n := Span(s[1..], d);
      assert s[..1 + n] == [s[0]] + s[1..][..n];
      1 + n
  }

  function Split(s: string, d: char): seq<string> {
    var n := Span(s, d);
    if n == |s| then [s] else [s[..n]] + Split(s[n + 1..], d)
  }

  function JoinFields(fs: seq<string>, d: char): string
    requires fs != []
  {
    if |fs| == 1 then fs[0] else fs[0] + ([d] + JoinFields(fs[1..], d))
  }

  lemma {:induction false} SpanOfFree(a: string, b: string, d: char)
    requires Free(a, d) && (b != [] ==> b[0] == d)
    ensures Span(a + b, d) == |a|
  {
    if a == [] {
      assert a + b == b;
    } else {
      assert (a + b)[1..] == a[1..] + b;
      SpanOfFree(a[1..], b, d);
    }
  }

  lemma SplitAfter(a: string, b: string, d: char)
    requires Free(a, d)
    ensures Split(a + ([d] + b), d) == [a] + Split(b, d)
  {
    var s := a + ([d] + b);
    SpanOfFree(a, [d] + b, d);
    assert s[..|a|] == a && s[|a| + 1..] == b;
  }

  lemma SplitFree(a: string, d: char)
    requires Free(a, d)
    ensures Split(a, d) == [a]
  {
    SpanOfFree(a, [], d);
    assert a + [] == a;
  }

  lemma {:induction false} SplitJoin(fs: seq<string>, d: char)
    requires fs != [] && forall i | 0 <= i < |fs| :: Free(fs[i], d)
    ensures Split(JoinFields(fs, d), d) == fs
  {
    if |fs| == 1 {
      SplitFree(fs[0], d);
    } else {
      SplitJoin(fs[1..], d);
      SplitAfter(fs[0], JoinFields(fs[1..], d), d);
    }
  }

  lemma CutAt(a: string, n: nat, d: char)
    requires n < |a| && a[n] == d
    ensures a == a[..n] + ([d] + a[n + 1..])
  {
  }

  lemma {:induction false} JoinSplit(s: string, d: char)
    ensures Split(s, d) != [] && JoinFields(Split(s, d), d) == s
  {
    var n := Span(s, d);
    if n < |s| {
      JoinSplit(s[n + 1..], d);
      JoinPrepend(s[..n], Split(s[n + 1..], d), d);
      CutAt(s, n, d);
    }
  }

  lemma JoinPrepend(f: string, fs: seq<string>, d: char)
    requires fs != []
    ensures JoinFields([f] + fs, d) == f + ([d] + JoinFields(fs, d))
  {
    assert ([f] + fs)[1..] == fs;
  }

  lemma {:induction false} SplitIsFree(s: string, d: char)
    ensures forall i | 0 <= i < |Split(s, d)| :: Free(Split(s, d)[i], d)
  {
    var n := Span(s, d);
    if n < |s| {
      SplitIsFree(s[n + 1..], d);
    } else {
      assert s[..n] == s;
    }
  }

  lemma {:induction false} SplitKeepsFree(s: string, d: char, e: char)
    requires Free(s, e)
    ensures forall i | 0 <= i < |Split(s, d)| :: Free(Split(s, d)[i], e)
  {
    var n := Span(s, d);
    if n < |s| {
      SplitKeepsFree(s[n + 1..], d, e);
    }
  }

  // ------------------------------------------------------------------- one line

  function BoolText(b: bool): string { if b then "TRUE" else "FALSE" }

  /** Whole seconds, truncated toward zero. */
  function Seconds(ticks: int): int {
    if ticks >= 0 then ticks / TICKS_PER_SECOND else -((-ticks) / TICKS_PER_SECOND)
  }

  function ExpiryText(expires: Option<int>): string {
    if expires.None? then "0"
    else
      var n := Seconds(expires.value);
      if n < 0 then "-" + Show(-n) else Show(n)
  }

  predicate Printable(c: Cookie) { c.domain.Some? && c.path.Some? }

  function LineFields(c: Cookie): seq<string>
    requires Printable(c)
  {
    [(if c.httpOnly then HTTP_ONLY else "") + c.domain.value, BoolText(c.tailmatch), c.path.value,
     BoolText(c.secure), ExpiryText(c.expires), c.name, c.value.GetOr("")]
  }

  function PrintLine(c: Cookie): string
    requires Printable(c)
  {
    JoinFields(LineFields(c), '\t')
  }

  predicate IsBool(s: string) { s == "TRUE" || s == "FALSE" }

  /** A 32-bit number as the grammar takes it: no superfluous zeros, no overflow. */
  predicate IsNumber(s: string) { Canonical(s) && Value(s) < UINT32_LIMIT }

  function Expiry(epoch: nat): Option<int> { if epoch == 0 then None else Some(epoch * TICKS_PER_SECOND) }

  /** The grammar: an optional marker and seven tab-separated fields. */
  function ParseLine(line: string): Result<Cookie, Error> {
    var fs := Split(line, '\t');
    if |fs| != 7 then Err(Malformed)
    else
      var httpOnly := StartsWith(fs[0], HTTP_ONLY);
      var domain := if httpOnly then fs[0][|HTTP_ONLY|..] else fs[0];
      if domain == "" || !IsBool(fs[1]) || fs[2] == "" || !IsBool(fs[3]) || !IsNumber(fs[4])
         || fs[5] == "" || fs[6] == ""
      then Err(Malformed)
      else Ok(Cookie(fs[5], Some(fs[6]), Expiry(Value(fs[4])), Some(domain), Some(fs[2]),
                     None, false, fs[3] == "TRUE", httpOnly, fs[1] == "TRUE"))
  }

  /** What the file format keeps of a cookie. */
  function Kept(c: Cookie): Cookie { c.(sameSite := None, partitioned := false) }

  predicate Clean(s: string) { s != "" && Free(s, '\t') && Free(s, '\n') }

  /** The cookies the file format can represent. */
  ghost predicate Representable(c: Cookie) {
    && Printable(c) && Clean(c.domain.value) && Clean(c.path.value) && Clean(c.name)
    && c.value.Some? && Clean(c.value.value)
    && (c.httpOnly || c.domain.value[0] != '#')
    && WholeSeconds(c.expires)
  }

  /** No expiry, or a whole number of seconds that fits 32 bits and is not zero. */
  predicate WholeSeconds(expires: Option<int>) {
    expires.Some? ==>
      expires.value % TICKS_PER_SECOND == 0 && 1 <= expires.value / TICKS_PER_SECOND < UINT32_LIMIT
  }

  lemma ExpiryRoundTrip(expires: Option<int>)
    requires WholeSeconds(expires)
    ensures IsNumber(ExpiryText(expires)) && Expiry(Value(ExpiryText(expires))) == expires
  {
    if expires.None? {
      ShowIsCanonical(0);
      assert Show(0) == "0";
    } else {
      ShowIsCanonical(expires.value / TICKS_PER_SECOND);
    }
  }

  /** The fields of a printed line, one after the other: marker and domain, whether
      subdomains are included, path, whether it is for https only, expiry in seconds,
      name, value. */
  lemma LineHasFields(c: Cookie)
    requires Printable(c) && forall i | 0 <= i < 7 :: Free(LineFields(c)[i], '\t')
    ensures var fs := Split(PrintLine(c), '\t');
            && |fs| == 7
            && fs[0] == (if c.httpOnly then "#HttpOnly_" + c.domain.value else c.domain.value)
            && fs[1] == (if c.tailmatch then "TRUE" else "FALSE")
            && fs[2] == c.path.value
            && fs[3] == (if c.secure then "TRUE" else "FALSE")
            && fs[5] == c.name
            && fs[6] == (if c.value.Some? then c.value.value else "")
            && (c.expires.None? ==> fs[4] == "0")
            && (c.expires.Some? && c.expires.value >= 0 ==>
                  Canonical(fs[4]) && Value(fs[4]) == c.expires.value / 1_000_000_000)
  {
    SplitJoin(LineFields(c), '\t');
    assert "" + c.domain.value == c.domain.value;
    if c.expires.Some? && c.expires.value >= 0 {
      ShowIsCanonical(Seconds(c.expires.value));
    }
  }

  lemma DigitsAreFree(s: string, d: char)
    requires AllDigits(s) && !IsDigit(d)
    ensures Free(s, d)
  {
  }

  /** A representable cookie's line gives the cookie back. */
  lemma LineRoundTrip(c: Cookie)
    requires Representable(c)
    ensures Free(PrintLine(c), '\n')
    ensures ParseLine(PrintLine(c)) == Ok(Kept(c))
  {
    ExpiryRoundTrip(c.expires);
    FieldsAreFree(c, '\t');
    FieldsAreFree(c, '\n');
    var fs := LineFields(c);
    SplitJoin(fs, '\t');
    JoinIsFree(fs, '\t', '\n');
    if c.httpOnly {
      assert fs[0][..|HTTP_ONLY|] == HTTP_ONLY && fs[0][|HTTP_ONLY|..] == c.domain.value;
    } else {
      assert fs[0] == c.domain.value;
      assert HTTP_ONLY[0] == '#';
    }
  }

  lemma FieldsAreFree(c: Cookie, d: char)
    requires Representable(c) && (d == '\t' || d == '\n')
    ensures forall i | 0 <= i < 7 :: Free(LineFields(c)[i], d)
  {
    ExpiryRoundTrip(c.expires);
    DigitsAreFree(ExpiryText(c.expires), d);
    assert Free(HTTP_ONLY, d) && Free(BoolText(true), d) && Free(BoolText(false), d);
  }

  lemma {:induction false} JoinIsFree(fs: seq<string>, d: char, e: char)
    requires fs != [] && d != e && forall i | 0 <= i < |fs| :: Free(fs[i], e)
    ensures Free(JoinFields(fs, d), e)
  {
    if |fs| > 1 {
      JoinIsFree(fs[1..], d, e);
    }
  }

  /** Conversely what is read from a line that is no comment is representable, and
      the line is just what that cookie prints as. */
  lemma ReadLineIsRepresentable(line: string)
    requires Free(line, '\n') && ParseLine(line).Ok?
    requires line != "" && (line[0] == '#' ==> StartsWith(line, HTTP_ONLY))
    ensures Representable(ParseLine(line).value)
    ensures PrintLine(ParseLine(line).value) == line
  {
    var c := ParseLine(line).value;
    var fs := Split(line, '\t');
    FirstFieldStarts(line);
    assert Representable(c) && LineFields(c) == fs by {
      SplitIsFree(line, '\t');
      SplitKeepsFree(line, '\t', '\n');
      FieldsMakeTheCookie(fs, c);
    }
    JoinSplit(line, '\t');
  }

  lemma ReadExpiry(text: string)
    requires IsNumber(text)
    ensures WholeSeconds(Expiry(Value(text))) && ExpiryText(Expiry(Value(text))) == text
  {
    CanonicalIsShow(text);
    var n := Value(text);
    if n == 0 {
      assert Show(0) == "0";
    } else {
      assert n * TICKS_PER_SECOND % TICKS_PER_SECOND == 0 && n * TICKS_PER_SECOND / TICKS_PER_SECOND == n;
    }
  }

  /** Seven clean fields and the cookie the grammar makes of them. */
  lemma FieldsMakeTheCookie(fs: seq<string>, c: Cookie)
    requires |fs| == 7 && IsBool(fs[1]) && IsBool(fs[3]) && IsNumber(fs[4])
    requires forall i | 0 <= i < 7 :: Free(fs[i], '\t') && Free(fs[i], '\n')
    requires c == Cookie(fs[5], Some(fs[6]), Expiry(Value(fs[4])), c.domain, Some(fs[2]), None, false,
                         fs[3] == "TRUE", c.httpOnly, fs[1] == "TRUE")
    requires c.domain.Some? && c.domain.value != "" && fs[2] != "" && fs[5] != "" && fs[6] != ""
    requires fs[0] == (if c.httpOnly then HTTP_ONLY else "") + c.domain.value
    requires !c.httpOnly ==> fs[0][0] != '#'
    ensures Representable(c) && LineFields(c) == fs
  {
    ReadExpiry(fs[4]);
    var k := if c.httpOnly then |HTTP_ONLY| else 0;
    assert c.domain.value == fs[0][k..];
    assert Clean(c.domain.value);
  }

  lemma FirstFieldStarts(line: string)
    requires line != "" && Split(line, '\t')[0] != ""
    ensures Split(line, '\t')[0][0] == line[0]
    ensures StartsWith(line, HTTP_ONLY) ==> StartsWith(Split(line, '\t')[0], HTTP_ONLY)
  {
    var n := Span(line, '\t');
    assert Split(line, '\t')[0] == line[..n];
    if StartsWith(line, HTTP_ONLY) {
      assert Free(HTTP_ONLY, '\t');
      assert line == HTTP_ONLY + line[|HTTP_ONLY|..];
      SpanPasses(HTTP_ONLY, line[|HTTP_ONLY|..], '\t');
      assert line[..n][..|HTTP_ONLY|] == HTTP_ONLY;
    }
  }

  lemma {:induction false} SpanPasses(a: string, b: string, d: char)
    requires Free(a, d)
    ensures Span(a + b, d) >= |a|
  {
    if a != [] {
      assert (a + b)[1..] == a[1..] + b;
      SpanPasses(a[1..], b, d);
    }
  }

  // ------------------------------------------------------------------- the file

  const BANNER := "# Netscape HTTP Cookie File"

  predicate AllPrintable(jar: seq<Cookie>) { forall i | 0 <= i < |jar| :: Printable(jar[i]) }

  function PrintLines(jar: seq<Cookie>): string
    requires AllPrintable(jar)
  {
    if jar == [] then "" else PrintLines(jar[..|jar| - 1]) + (PrintLine(jar[|jar| - 1]) + "\n")
  }

  function Print(jar: seq<Cookie>): string
    requires AllPrintable(jar)
  {
    BANNER + ("\n" + ("\n" + PrintLines(jar)))
  }

  predicate Skipped(line: string) {
    line == "" || (StartsWith(line, "#") && !StartsWith(line, HTTP_ONLY))
  }

  /** The cookies of a list of lines up to the first malformed one. */
  datatype Read = Read(cookies: seq<Cookie>, error: Option<Error>)

  function ReadLines(lines: seq<string>): Read {
    if lines == [] then Read([], None)
    else if Skipped(lines[0]) then ReadLines(lines[1..])
    else
      match ParseLine(lines[0])
      case Err(e) => Read([], Some(e))
      case Ok(c) =>
        var rest := ReadLines(lines[1..]);
        Read([c] + rest.cookies, rest.error)
  }

  function ReadFile(file: string): Read { ReadLines(Split(file, '\n')) }

  lemma {:induction false} JoinAppend(fs: seq<string>, f: string, d: char)
    requires fs != []
    ensures JoinFields(fs + [f], d) == JoinFields(fs, d) + ([d] + f)
  {
    if |fs| == 1 {
      assert (fs + [f])[1..] == [f];
    } else {
      assert (fs + [f])[1..] == fs[1..] + [f];
      JoinAppend(fs[1..], f, d);
    }
  }

  /** Prints the fields of a line with tabs in between. */
  method WriteLine(c: Cookie) returns (line: string)
    requires Printable(c)
    ensures line == PrintLine(c)
  {
    var fs := LineFields(c);
    line := fs[0];
    for i := 1 to |fs|
      invariant line == JoinFields(fs[..i], '\t')
    {
      JoinAppend(fs[..i], fs[i], '\t');
      assert fs[..i + 1] == fs[..i] + [fs[i]];
      line := line + (['\t'] + fs[i]);
    }
    assert fs[..|fs|] == fs;
  }

  method WriteJar(jar: seq<Cookie>) returns (os: string)
    requires AllPrintable(jar)
    ensures os == Print(jar)
  {
    var lines := "";
    for i := 0 to |jar|
      invariant lines == PrintLines(jar[..i])
    {
      var line := WriteLine(jar[i]);
      assert jar[..i + 1][..i] == jar[..i];
      lines := lines + (line + "\n");
    }
    assert jar[..|jar|] == jar;
    os := BANNER + ("\n" + ("\n" + lines));
  }

  /** Reading lines in front of a file adds their cookies in front. */
  ghost function InFront(cs: seq<Cookie>, r: Read): Read { Read(cs + r.cookies, r.error) }

  lemma InFrontTwice(a: seq<Cookie>, b: seq<Cookie>, r: Read)
    ensures InFront(a, InFront(b, r)) == InFront(a + b, r)
    ensures InFront([], r) == r
  {
    assert a + (b + r.cookies) == (a + b) + r.cookies;
    assert [] + r.cookies == r.cookies;
  }

  method ReadJar(file: string, jar: seq<Cookie>) returns (jar': seq<Cookie>, error: Option<Error>)
    ensures jar' == jar + ReadFile(file).cookies && error == ReadFile(file).error
  {
    var lines := Split(file, '\n');
    assert lines[0..] == lines;
    jar' := jar;
    for i := 0 to |lines|
      invariant InFront(jar', ReadLines(lines[i..])) == InFront(jar, ReadFile(file))
    {
      var line := lines[i];
      assert lines[i..][1..] == lines[i + 1..];
      if line == "" {
        continue;
      }
      if StartsWith(line, "#") && !StartsWith(line, HTTP_ONLY) {
        continue;
      }
      var c := ParseLine(line);
      if c.Err? {
        assert jar' + [] == jar';
        return jar', Some(c.error);
      }
      InFrontTwice(jar', [c.value], ReadLines(lines[i + 1..]));
      jar' := jar' + [c.value];
    }
    assert lines[|lines|..] == [];
    assert jar' + [] == jar';
    return jar', None;
  }

  // -------------------------------------------------------------- the round trip

  ghost function KeptAll(jar: seq<Cookie>): (r: seq<Cookie>)
    ensures |r| == |jar| && forall i | 0 <= i < |jar| :: r[i] == Kept(jar[i])
  {
    seq(|jar|, i requires 0 <= i < |jar| => Kept(jar[i]))
  }

  /** A line followed by more contributes the line's cookie. */
  lemma PrintedLineReads(c: Cookie, tail: string)
    requires Representable(c)
    ensures ReadFile(PrintLine(c) + (['\n'] + tail)) == InFront([Kept(c)], ReadFile(tail))
  {
    LineRoundTrip(c);
    PrintedLineCounts(c);
    SplitAfter(PrintLine(c), tail, '\n');
    var lines := [PrintLine(c)] + Split(tail, '\n');
    assert lines[1..] == Split(tail, '\n');
  }

  /** Printed lines in front of a text are read as their cookies in front of it. */
  ghost predicate LinesRead(jar: seq<Cookie>, tail: string)
    requires AllPrintable(jar)
  {
    ReadFile(PrintLines(jar) + tail) == InFront(KeptAll(jar), ReadFile(tail))
  }

  lemma OneLineMore(jar: seq<Cookie>, c: Cookie, tail: string)
    requires AllPrintable(jar) && Representable(c) && LinesRead(jar, PrintLine(c) + (['\n'] + tail))
    ensures AllPrintable(jar + [c]) && LinesRead(jar + [c], tail)
  {
    assert (jar + [c])[..|jar|] == jar;
    LinesRegroup(PrintLines(jar), PrintLine(c), tail);
    PrintedLineReads(c, tail);
    InFrontTwice(KeptAll(jar), [Kept(c)], ReadFile(tail));
    assert KeptAll(jar + [c]) == KeptAll(jar) + [Kept(c)];
  }

  lemma {:induction false} PrintedLinesRead(jar: seq<Cookie>, tail: string)
    requires AllPrintable(jar) && forall i | 0 <= i < |jar| :: Representable(jar[i])
    ensures LinesRead(jar, tail)
    decreases |jar|
  {
    if jar == [] {
      assert PrintLines(jar) + tail == tail;
      InFrontTwice([], [], ReadFile(tail));
    } else {
      var init, c := jar[..|jar| - 1], jar[|jar| - 1];
      PrintedLinesRead(init, PrintLine(c) + (['\n'] + tail));
      OneLineMore(init, c, tail);
      assert init + [c] == jar;
    }
  }

  lemma LinesRegroup(a: string, line: string, tail: string)
    ensures (a + (line + "\n")) + tail == a + (line + (['\n'] + tail))
  {
  }

  lemma PrintedLineCounts(c: Cookie)
    requires Representable(c)
    ensures !Skipped(PrintLine(c))
  {
    var first := LineFields(c)[0];
    var line := PrintLine(c);
    assert line[..|first|] == first && |first| > 0;
    if c.httpOnly {
      assert first[..|HTTP_ONLY|] == HTTP_ONLY;
      assert line[..|HTTP_ONLY|] == HTTP_ONLY;
    } else {
      assert first == c.domain.value;
      assert line[0] == first[0];
    }
  }

  lemma SkippedLineReads(line: string, tail: string)
    requires Free(line, '\n') && Skipped(line)
    ensures ReadFile(line + (['\n'] + tail)) == ReadFile(tail)
  {
    SplitAfter(line, tail, '\n');
    assert ([line] + Split(tail, '\n'))[1..] == Split(tail, '\n');
  }

  lemma BannerIsComment()
    ensures Free(BANNER, '\n') && Skipped(BANNER)
  {
    assert BANNER[..1] == "#";
    assert BANNER[1] == ' ' && HTTP_ONLY[1] == 'H';
    assert BANNER[..|HTTP_ONLY|][1] == BANNER[1];
  }

  lemma BannerIsSkipped(tail: string)
    ensures ReadFile(BANNER + ("\n" + ("\n" + tail))) == ReadFile(tail)
  {
    BannerIsComment();
    assert "\n" == ['\n'];
    SkippedLineReads(BANNER, "\n" + tail);
    assert "\n" + tail == "" + (['\n'] + tail);
    SkippedLineReads("", tail);
  }

  lemma {:induction false} ReadIsRepresentable(lines: seq<string>)
    requires forall i | 0 <= i < |lines| :: Free(lines[i], '\n')
    ensures forall c | c in ReadLines(lines).cookies :: Representable(c)
  {
    if lines != [] {
      ReadIsRepresentable(lines[1..]);
      if !Skipped(lines[0]) && ParseLine(lines[0]).Ok? {
        assert lines[0][0] == '#' ==> lines[0][..1] == "#";
        ReadLineIsRepresentable(lines[0]);
      }
    }
  }

  /** Reading a file into a jar is loading its cookies one by one; each of them has
      a domain and a path that is not empty. */
  lemma ReadingIsLoading(ops: seq<Op>, file: string)
    ensures var cs := ReadFile(file).cookies;
            && After(ops + Loads(cs)) == After(ops) + cs
            && forall i | 0 <= i < |cs| :: BringsKey(Load(cs[i])) && SetCookie.NoEmptyPath(Load(cs[i]))
  {
    var cs := ReadFile(file).cookies;
    LoadsAppend(ops, cs);
    SplitIsFree(file, '\n');
    ReadIsRepresentable(Split(file, '\n'));
    forall i | 0 <= i < |cs|
      ensures BringsKey(Load(cs[i])) && SetCookie.NoEmptyPath(Load(cs[i]))
    {
      assert cs[i] in cs && Representable(cs[i]);
    }
  }

  lemma KeptIsRepresentable(c: Cookie)
    ensures Representable(Kept(c)) <==> Representable(c)
  {
  }

  /** Printing a jar and reading the file into an empty jar gives the same cookies
      in the same order, up to the attributes the format does not have, if and
      only if every cookie is representable. */
  lemma FileRoundTripIff(jar: seq<Cookie>)
    requires AllPrintable(jar)
    ensures ReadFile(Print(jar)) == Read(KeptAll(jar), None) <==> forall i | 0 <= i < |jar| :: Representable(jar[i])
  {
    BannerIsSkipped(PrintLines(jar));
    if forall i | 0 <= i < |jar| :: Representable(jar[i]) {
      PrintedLinesRead(jar, "");
      assert KeptAll(jar) + [] == KeptAll(jar);
      assert PrintLines(jar) + "" == PrintLines(jar);
      SplitFree("", '\n');
    }
    if ReadFile(Print(jar)).cookies == KeptAll(jar) {
      SplitIsFree(Print(jar), '\n');
      ReadIsRepresentable(Split(Print(jar), '\n'));
      forall i | 0 <= i < |jar|
        ensures Representable(jar[i])
      {
        assert Kept(jar[i]) == KeptAll(jar)[i];
        assert Kept(jar[i]) in KeptAll(jar);
        KeptIsRepresentable(jar[i]);
      }
    }
  }

  // ------------------------------------------------ files that cannot be read back

  /** A line that is no comment and does not parse. */
  predicate Bad(line: string) { !Skipped(line) && ParseLine(line).Err? }

  lemma MoveOut(x: string, rest: string, b: string, d: char)
    ensures (x + ([d] + rest)) + ([d] + b) == x + ([d] + (rest + ([d] + b)))
  {
  }

  lemma OneFieldMore(a: string, x: string, rest: string, b: string, d: char)
    requires a == x + ([d] + rest) && Free(x, d)
    requires Split(rest + ([d] + b), d) == Split(rest, d) + Split(b, d)
    ensures Split(a + ([d] + b), d) == Split(a, d) + Split(b, d)
  {
    MoveOut(x, rest, b, d);
    SplitAfter(x, rest + ([d] + b), d);
    SplitAfter(x, rest, d);
    ConcatAssociates([x], Split(rest, d), Split(b, d));
  }

  /** Splitting is local: a delimiter separates the work. */
  lemma {:induction false} SplitConcat(a: string, b: string, d: char)
    ensures Split(a + ([d] + b), d) == Split(a, d) + Split(b, d)
    decreases |a|
  {
    var n := Span(a, d);
    if n == |a| {
      assert a[..n] == a;
      SplitAfter(a, b, d);
    } else {
      var x, rest := a[..n], a[n + 1..];
      CutAt(a, n, d);
      SplitConcat(rest, b, d);
      OneFieldMore(a, x, rest, b, d);
    }
  }

  lemma {:induction false} SplitOnceIff(s: string, d: char)
    ensures |Split(s, d)| >= 1
    ensures |Split(s, d)| == 1 <==> Free(s, d)
  {
    var n := Span(s, d);
    if n < |s| {
      SplitOnceIff(s[n + 1..], d);
    } else {
      assert s[..n] == s;
    }
  }

  ghost predicate AllFree(fs: seq<string>, d: char) { forall i | 0 <= i < |fs| :: Free(fs[i], d) }

  lemma FirstAndRestFree(fs: seq<string>, d: char)
    requires fs != []
    ensures AllFree(fs, d) <==> Free(fs[0], d) && AllFree(fs[1..], d)
  {
    var rest := fs[1..];
    assert forall i | 1 <= i < |fs| :: fs[i] == rest[i - 1];
    assert forall i | 0 <= i < |rest| :: rest[i] == fs[i + 1];
  }

  /** A line has as many fields as were joined exactly if none of them holds the
      delimiter. */
  lemma {:induction false} FieldCountIff(fs: seq<string>, d: char)
    requires fs != []
    ensures |Split(JoinFields(fs, d), d)| >= |fs|
    ensures |Split(JoinFields(fs, d), d)| == |fs| <==> AllFree(fs, d)
  {
    SplitOnceIff(fs[0], d);
    FirstAndRestFree(fs, d);
    if |fs| > 1 {
      FieldCountIff(fs[1..], d);
      SplitConcat(fs[0], JoinFields(fs[1..], d), d);
    }
  }

  predicate InRange(expires: Option<int>) { expires.Some? ==> 0 <= Seconds(expires.value) < UINT32_LIMIT }

  lemma ExpiryIsNumberIff(expires: Option<int>)
    ensures IsNumber(ExpiryText(expires)) <==> InRange(expires)
  {
    if expires.None? {
      ShowIsCanonical(0);
      assert Show(0) == "0";
    } else {
      var n := Seconds(expires.value);
      if n < 0 {
        assert ExpiryText(expires)[0] == '-';
      } else {
        ShowIsCanonical(n);
      }
    }
  }

  /** The cookie's line is taken for a comment. */
  predicate LooksLikeComment(c: Cookie)
    requires Printable(c)
  {
    !c.httpOnly && StartsWith(c.domain.value, "#") && !StartsWith(c.domain.value, HTTP_ONLY)
  }

  /** The domain field is empty once the marker is off. */
  predicate NoDomain(c: Cookie)
    requires Printable(c)
  {
    c.domain.value == "" || (!c.httpOnly && c.domain.value == HTTP_ONLY)
  }

  /** Printing this cookie makes a line that reading refuses. */
  predicate Unreadable(c: Cookie)
    requires Printable(c)
  {
    && !LooksLikeComment(c)
    && (|| (exists i | 0 <= i < 7 :: !Free(LineFields(c)[i], '\t'))
        || NoDomain(c) || c.path.value == "" || c.name == "" || c.value.GetOr("") == ""
        || !InRange(c.expires))
  }

  lemma LineStart(first: string, rest: string, p: string)
    requires Free(p, '\t')
    ensures StartsWith(first + (['\t'] + rest), p) <==> StartsWith(first, p)
  {
    var line := first + (['\t'] + rest);
    if |p| <= |first| {
      assert line[..|p|] == first[..|p|];
    } else if |p| <= |line| {
      assert line[..|p|][|first|] == '\t';
    }
  }

  lemma CommentIff(c: Cookie)
    requires Printable(c)
    ensures Skipped(PrintLine(c)) <==> LooksLikeComment(c)
  {
    var fs := LineFields(c);
    LineStart(fs[0], JoinFields(fs[1..], '\t'), "#");
    LineStart(fs[0], JoinFields(fs[1..], '\t'), HTTP_ONLY);
    assert PrintLine(c) == fs[0] + (['\t'] + JoinFields(fs[1..], '\t'));
    if c.httpOnly {
      assert fs[0][..|HTTP_ONLY|] == HTTP_ONLY;
    } else {
      assert fs[0] == c.domain.value;
    }
  }

  /** What the grammar makes of seven fields. */
  predicate FieldsParse(fs: seq<string>)
    requires |fs| == 7
  {
    && (if StartsWith(fs[0], HTTP_ONLY) then fs[0] != HTTP_ONLY else fs[0] != "")
    && IsBool(fs[1]) && fs[2] != "" && IsBool(fs[3]) && IsNumber(fs[4]) && fs[5] != "" && fs[6] != ""
  }

  lemma ParseLineIff(line: string)
    ensures ParseLine(line).Ok? <==> |Split(line, '\t')| == 7 && FieldsParse(Split(line, '\t'))
  {
    var fs := Split(line, '\t');
    if |fs| == 7 && StartsWith(fs[0], HTTP_ONLY) {
      assert fs[0] == HTTP_ONLY + fs[0][|HTTP_ONLY|..];
    }
  }

  lemma DomainFieldIff(c: Cookie)
    requires Printable(c)
    ensures var f := LineFields(c)[0];
            (if StartsWith(f, HTTP_ONLY) then f == HTTP_ONLY else f == "") <==> NoDomain(c)
  {
    var f := LineFields(c)[0];
    if c.httpOnly {
      assert f[..|HTTP_ONLY|] == HTTP_ONLY;
      assert f == HTTP_ONLY <==> c.domain.value == "" by {
        assert |f| == |HTTP_ONLY| + |c.domain.value|;
        if c.domain.value == "" { assert f == HTTP_ONLY; }
      }
    } else {
      assert f == c.domain.value;
    }
  }

  lemma BadLineIff(c: Cookie)
    requires Printable(c)
    ensures Bad(PrintLine(c)) <==> Unreadable(c)
  {
    var fs := LineFields(c);
    CommentIff(c);
    ParseLineIff(PrintLine(c));
    FieldCountIff(fs, '\t');
    ExpiryIsNumberIff(c.expires);
    DomainFieldIff(c);
    if forall i | 0 <= i < 7 :: Free(fs[i], '\t') {
      SplitJoin(fs, '\t');
    }
  }

  /** Some line of a text is bad. */
  ghost predicate AnyBad(lines: seq<string>) { exists i | 0 <= i < |lines| :: Bad(lines[i]) }

  lemma AnyBadSplits(a: seq<string>, b: seq<string>)
    ensures AnyBad(a + b) <==> AnyBad(a) || AnyBad(b)
  {
    var c := a + b;
    if i :| 0 <= i < |a| && Bad(a[i]) {
      assert Bad(c[i]);
    }
    if i :| 0 <= i < |b| && Bad(b[i]) {
      assert Bad(c[|a| + i]);
    }
  }

  lemma {:induction false} ReadErrorIff(lines: seq<string>)
    ensures ReadLines(lines).error.Some? <==> AnyBad(lines)
  {
    if lines != [] {
      ReadErrorIff(lines[1..]);
      AnyBadSplits([lines[0]], lines[1..]);
      assert [lines[0]] + lines[1..] == lines;
      assert AnyBad([lines[0]]) <==> Bad(lines[0]) by {
        assert [lines[0]][0] == lines[0];
      }
    }
  }

  /** Reading refuses something of what this cookie prints; a cookie that prints on
      one line is refused exactly if it is unreadable. */
  ghost predicate Refused(c: Cookie)
    requires Printable(c)
  {
    if Free(PrintLine(c), '\n') then Unreadable(c) else AnyBad(Split(PrintLine(c), '\n'))
  }

  lemma RefusedIff(c: Cookie)
    requires Printable(c)
    ensures AnyBad(Split(PrintLine(c), '\n')) <==> Refused(c)
  {
    if Free(PrintLine(c), '\n') {
      SplitFree(PrintLine(c), '\n');
      BadLineIff(c);
      assert [PrintLine(c)][0] == PrintLine(c);
    }
  }

  lemma {:induction false} LinesBadIff(jar: seq<Cookie>, tail: string)
    requires AllPrintable(jar)
    ensures AnyBad(Split(PrintLines(jar) + tail, '\n'))
       <==> (exists i | 0 <= i < |jar| :: Refused(jar[i])) || AnyBad(Split(tail, '\n'))
    decreases |jar|
  {
    if jar == [] {
      assert PrintLines(jar) + tail == tail;
    } else {
      var init, c := jar[..|jar| - 1], jar[|jar| - 1];
      LinesRegroup(PrintLines(init), PrintLine(c), tail);
      LinesBadIff(init, PrintLine(c) + (['\n'] + tail));
      SplitConcat(PrintLine(c), tail, '\n');
      AnyBadSplits(Split(PrintLine(c), '\n'), Split(tail, '\n'));
      RefusedIff(c);
      assert forall i | 0 <= i < |init| :: init[i] == jar[i];
    }
  }

  /** Reading a printed jar throws exactly if some cookie is refused. */
  lemma ReloadThrowsIff(jar: seq<Cookie>)
    requires AllPrintable(jar)
    ensures ReadFile(Print(jar)).error.Some? <==> exists i | 0 <= i < |jar| :: Refused(jar[i])
  {
    BannerIsSkipped(PrintLines(jar));
    LinesBadIff(jar, "");
    assert PrintLines(jar) + "" == PrintLines(jar);
    SplitFree("", '\n');
    ReadErrorIff(Split(PrintLines(jar), '\n'));
    assert !AnyBad([""]) by { assert Skipped(""); }
  }

  /** A jar of one unreadable cookie prints but does not reload. */
  lemma UnreadableAlone(c: Cookie)
    requires Printable(c) && Unreadable(c) && AllFree(LineFields(c), '\n')
    ensures AllPrintable([c]) && ReadFile(Print([c])) == Read([], Some(Malformed))
  {
    JoinIsFree(LineFields(c), '\t', '\n');
    BadLineIff(c);
    assert [c][..0] == [];
    assert PrintLines([c]) == PrintLine(c) + (['\n'] + "");
    SplitAfter(PrintLine(c), "", '\n');
    BannerIsSkipped(PrintLines([c]));
  }

  /** A cookie set as `a=` by a page at the root of a host is such a cookie: the jar
      takes it and prints it, and the file does not reload. */
  lemma EmptyValueDoesNotReload(t: int)
    ensures var u := Url("h", "/", [], true);
            var cookie := SetCookie.Parsed("a", None, []);
            && cookie.Ok?
            && After([Add(u, cookie.value, t)]) == [Stored(u, cookie.value)]
            && AllPrintable([Stored(u, cookie.value)])
            && ReadFile(Print([Stored(u, cookie.value)])) == Read([], Some(Malformed))
  {
    var u, parsed := Url("h", "/", [], true), SetCookie.Blank("a", None);
    assert SetCookie.Parsed("a", None, []) == Ok(parsed);
    var c := Stored(u, parsed);
    assert [Add(u, parsed, t)][..0] == [];
    assert After([Add(u, parsed, t)]) == [c];
    LiteralLine(c);
    UnreadableAlone(c);
  }

  lemma LiteralLine(c: Cookie)
    requires c == Cookie("a", None, None, Some("h"), Some("/"), None, false, false, false, false)
    ensures Printable(c) && Unreadable(c) && AllFree(LineFields(c), '\n')
  {
    var fs := LineFields(c);
    assert fs[0] == "h" && fs[1] == "FALSE" && fs[2] == "/" && fs[3] == "FALSE";
    assert fs[4] == "0" && fs[5] == "a" && fs[6] == "";
    forall i | 0 <= i < 7
      ensures Free(fs[i], '\n')
    {
    }
    assert "h"[..1][0] != "#"[0];
  }
}
