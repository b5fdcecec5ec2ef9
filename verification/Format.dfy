/** The format-string scanner: `{}` takes the next argument, `{{` and `}}` are
    literal braces. The cursor-driven scanner is proved to do what "cut the
    format into pieces, then fill them" says. */
module Format {
  import opened Basics
  import opened Wrappers

  datatype Error = UnmatchedOpen | UnmatchedClose | TooFewArguments

  datatype Piece = Lit(c: char) | Esc(c: char) | Hole

  /** The pieces up to the first malformed brace, and the fault found there. */
  datatype Parsed = Parsed(pieces: seq<Piece>, fault: Option<Error>) {
    function After(p: Piece): Parsed { Parsed([p] + pieces, fault) }
  }

  predicate IsBrace(c: char) { c == '{' || c == '}' }

  /** The left-to-right reading of a format string. */
  function Parse(s: string): Parsed {
    if s == [] then Parsed([], None)
    else if s[0] == '{' then
      if |s| >= 2 && s[1] == '{' then Parse(s[2..]).After(Esc('{'))
      else if |s| >= 2 && s[1] == '}' then Parse(s[2..]).After(Hole)
      else Parsed([], Some(UnmatchedOpen))
    else if s[0] == '}' then
      if |s| >= 2 && s[1] == '}' then Parse(s[2..]).After(Esc('}'))
      else Parsed([], Some(UnmatchedClose))
    else Parse(s[1..]).After(Lit(s[0]))
  }

  function Holes(ps: seq<Piece>): nat {
    if ps == [] then 0 else (if ps[0].Hole? then 1 else 0) + Holes(ps[1..])
  }

  /** The pieces as text, with the arguments in the holes, in order. */
  function Fill(ps: seq<Piece>, args: seq<string>): string {
    if ps == [] then ""
    else if !ps[0].Hole? then [ps[0].c] + Fill(ps[1..], args)
    else if args == [] then Fill(ps[1..], [])
    else args[0] + Fill(ps[1..], args[1..])
  }

  // ----------------------------------------------------------- output discipline

  /** What a call writes and the exception, if any, it ends with. */
  datatype Outcome = Outcome(written: string, error: Option<Error>) {
    function Before(s: string): Outcome { Outcome(s + written, error) }
  }

  /** Literal text is held back until a brace pair or the end is reached. */
  function Output(parsed: Parsed, args: seq<string>, held: string): Outcome
    decreases |parsed.pieces|
  {
    if parsed.pieces == [] then
      if parsed.fault.None? then Outcome(held, None) else Outcome("", parsed.fault)
    else
      var rest := Parsed(parsed.pieces[1..], parsed.fault);
      match parsed.pieces[0]
      case Lit(c) => Output(rest, args, held + [c])
      case Esc(c) => Output(rest, args, "").Before(held + [c])
      case Hole =>
        if args == [] then Outcome("", Some(TooFewArguments))
        else Output(rest, args[1..], "").Before(held + args[0])
  }

  function Formatted(fs: string, args: seq<string>): Outcome {
    Output(Parse(fs), args, "")
  }

  /** The number of pieces that have reached the output when formatting fails:
      those up to the last brace pair before the failure. */
  ghost function FlushPoint(ps: seq<Piece>, n: nat): nat
    decreases |ps|
  {
    if ps == [] then 0
    else if ps[0].Hole? then (if n == 0 then 0 else 1 + FlushPoint(ps[1..], n - 1))
    else if ps[0].Esc? then 1 + FlushPoint(ps[1..], n)
    else if FlushPoint(ps[1..], n) == 0 then 0
    else 1 + FlushPoint(ps[1..], n)
  }

  /** Formatting fails exactly when a brace is malformed or the holes before the
      first malformed brace outnumber the arguments; the latter is reported first. */
  lemma {:induction false} ErrorIff(parsed: Parsed, args: seq<string>, held: string)
    ensures Output(parsed, args, held).error
         == if Holes(parsed.pieces) > |args| then Some(TooFewArguments) else parsed.fault
    decreases |parsed.pieces|
  {
    if parsed.pieces != [] {
      var rest := Parsed(parsed.pieces[1..], parsed.fault);
      match parsed.pieces[0] {
        case Lit(c) => ErrorIff(rest, args, held + [c]);
        case Esc(c) => ErrorIff(rest, args, "");
        case Hole => if args != [] { ErrorIff(rest, args[1..], ""); }
      }
    }
  }

  /** Without an error the output is the filled pieces; surplus arguments are ignored. */
  lemma {:induction false} OutputIsFilled(parsed: Parsed, args: seq<string>, held: string)
    requires Output(parsed, args, held).error.None?
    ensures Output(parsed, args, held).written == held + Fill(parsed.pieces, args)
    decreases |parsed.pieces|
  {
    if parsed.pieces == [] {
      assert held + "" == held;
    } else {
      var rest := Parsed(parsed.pieces[1..], parsed.fault);
      match parsed.pieces[0] {
        case Lit(c) =>
          OutputIsFilled(rest, args, held + [c]);
          ConcatAssociates(held, [c], Fill(rest.pieces, args));
        case Esc(c) =>
          OutputIsFilled(rest, args, "");
          ConcatAssociates(held, [c], Fill(rest.pieces, args));
        case Hole =>
          OutputIsFilled(rest, args[1..], "");
          ConcatAssociates(held, args[0], Fill(rest.pieces, args[1..]));
      }
    }
  }

  /** With an error the output is the expansion of the pieces before the flush point. */
  lemma {:induction false} OutputIsFlushed(parsed: Parsed, args: seq<string>, held: string)
    requires Output(parsed, args, held).error.Some?
    ensures FlushPoint(parsed.pieces, |args|) <= |parsed.pieces|
    ensures var k := FlushPoint(parsed.pieces, |args|);
            Output(parsed, args, held).written == (if k == 0 then "" else held) + Fill(parsed.pieces[..k], args)
    decreases |parsed.pieces|
  {
    var ps := parsed.pieces;
    if ps != [] {
      var rest := Parsed(ps[1..], parsed.fault);
      var k := FlushPoint(ps, |args|);
      match ps[0] {
        case Lit(c) =>
          OutputIsFlushed(rest, args, held + [c]);
          if k > 0 {
            assert ps[..k][1..] == rest.pieces[..k - 1];
            ConcatAssociates(held, [c], Fill(rest.pieces[..k - 1], args));
          }
        case Esc(c) =>
          OutputIsFlushed(rest, args, "");
          assert ps[..k][1..] == rest.pieces[..k - 1];
          ConcatAssociates(held, [c], Fill(rest.pieces[..k - 1], args));
        case Hole =>
          if args != [] {
            OutputIsFlushed(rest, args[1..], "");
            assert ps[..k][1..] == rest.pieces[..k - 1];
            ConcatAssociates(held, args[0], Fill(rest.pieces[..k - 1], args[1..]));
          }
      }
    }
  }

  lemma {:induction false} FlushedHolesFit(ps: seq<Piece>, n: nat)
    ensures FlushPoint(ps, n) <= |ps| && Holes(ps[..FlushPoint(ps, n)]) <= n
    decreases |ps|
  {
    var k := FlushPoint(ps, n);
    if ps != [] && k > 0 {
      FlushedHolesFit(ps[1..], if ps[0].Hole? then n - 1 else n);
      assert ps[..k][1..] == ps[1..][..k - 1];
    }
  }

  /** How the first piece of a format is read; what follows it does not matter. */
  lemma ParseFirst(s: string) returns (n: nat)
    requires Parse(s).pieces != []
    ensures 1 <= n <= |s|
    ensures forall u | n <= |u| && u[..n] == s[..n] :: Parse(u) == Parse(u[n..]).After(Parse(s).pieces[0])
  {
    n := if IsBrace(s[0]) then 2 else 1;
    forall u | n <= |u| && u[..n] == s[..n]
      ensures Parse(u) == Parse(u[n..]).After(Parse(s).pieces[0])
    {
      assert u[0] == u[..n][0] && s[0] == s[..n][0];
      assert u[n - 1] == u[..n][n - 1] && s[n - 1] == s[..n][n - 1];
    }
  }

  /** The first k pieces are those of a prefix of the format string. */
  lemma {:induction false} PiecesOfPrefix(s: string, k: nat) returns (p: nat)
    requires k <= |Parse(s).pieces|
    ensures p <= |s| && Parse(s[..p]) == Parsed(Parse(s).pieces[..k], None)
    decreases |s|
  {
    p := 0;
    if k > 0 {
      var n := ParseFirst(s);
      assert Parse(s) == Parse(s[n..]).After(Parse(s).pieces[0]) by { assert s[..n] == s[..n]; }
      var q := PiecesOfPrefix(s[n..], k - 1);
      p := n + q;
      assert s[..p][..n] == s[..n];
      assert s[..p][n..] == s[n..][..q];
      assert Parse(s).pieces[..k] == [Parse(s).pieces[0]] + Parse(s[n..]).pieces[..k - 1];
    }
  }

  /** When formatting fails, what was written is what formatting some prefix of the
      format string with the same arguments gives. */
  lemma FailureWritesAPrefix(fs: string, args: seq<string>) returns (p: nat)
    requires Formatted(fs, args).error.Some?
    ensures p <= |fs| && Parse(fs[..p]).pieces <= Parse(fs).pieces
    ensures Formatted(fs[..p], args) == Outcome(Formatted(fs, args).written, None)
  {
    var ps := Parse(fs).pieces;
    var k := FlushPoint(ps, |args|);
    OutputIsFlushed(Parse(fs), args, "");
    FlushedHolesFit(ps, |args|);
    p := PiecesOfPrefix(fs, k);
    ErrorIff(Parse(fs[..p]), args, "");
    OutputIsFilled(Parse(fs[..p]), args, "");
  }

  lemma NothingInFront(s: string)
    ensures "" + s == s
  {
  }

  // ------------------------------------------------------------------ escaping

  /** Doubles every brace. */
  function Escaped(s: string): string {
    if s == [] then "" else EscapedChar(s[0]) + Escaped(s[1..])
  }

  function EscapedChar(c: char): string { if IsBrace(c) then [c, c] else [c] }

  function EscapedPiece(c: char): Piece { if IsBrace(c) then Esc(c) else Lit(c) }

  function EscapedPieces(s: string): seq<Piece> {
    if s == [] then [] else [EscapedPiece(s[0])] + EscapedPieces(s[1..])
  }

  /** Reading one escaped character in front of `u`. */
  lemma ParseOneEscaped(c: char, u: string)
    ensures Parse(EscapedChar(c) + u) == Parse(u).After(EscapedPiece(c))
  {
    var s := EscapedChar(c) + u;
    if IsBrace(c) {
      assert s[0] == c && s[1] == c && s[2..] == u;
    } else {
      assert s[0] == c && s[1..] == u;
    }
  }

  lemma {:induction false} ParseEscaped(a: string, t: string)
    ensures Parse(Escaped(a) + t) == Parsed(EscapedPieces(a) + Parse(t).pieces, Parse(t).fault)
  {
    if a == [] {
      assert Escaped(a) + t == t;
      assert EscapedPieces(a) + Parse(t).pieces == Parse(t).pieces;
    } else {
      ConcatAssociates(EscapedChar(a[0]), Escaped(a[1..]), t);
      ParseOneEscaped(a[0], Escaped(a[1..]) + t);
      ParseEscaped(a[1..], t);
      ConcatAssociates([EscapedPiece(a[0])], EscapedPieces(a[1..]), Parse(t).pieces);
    }
  }

  lemma {:induction false} FillEscaped(a: string, ps: seq<Piece>, args: seq<string>)
    ensures Holes(EscapedPieces(a) + ps) == Holes(ps)
    ensures Fill(EscapedPieces(a) + ps, args) == a + Fill(ps, args)
  {
    var all := EscapedPieces(a) + ps;
    if a == [] {
      assert all == ps;
    } else {
      assert all[1..] == EscapedPieces(a[1..]) + ps;
      assert !all[0].Hole? && all[0].c == a[0];
      FillEscaped(a[1..], ps, args);
      assert a == [a[0]] + a[1..];
      ConcatAssociates([a[0]], a[1..], Fill(ps, args));
    }
  }

  /** An escaped text in front of a format contributes just that text. */
  lemma EscapedPrefix(a: string, t: string, args: seq<string>)
    requires Formatted(t, args).error.None?
    ensures Formatted(Escaped(a) + t, args) == Outcome(a + Formatted(t, args).written, None)
  {
    ErrorIff(Parse(t), args, "");
    OutputIsFilled(Parse(t), args, "");
    ParseEscaped(a, t);
    FillEscaped(a, Parse(t).pieces, args);
    ErrorIff(Parse(Escaped(a) + t), args, "");
    OutputIsFilled(Parse(Escaped(a) + t), args, "");
    NothingInFront(Fill(Parse(t).pieces, args));
    NothingInFront(a + Fill(Parse(t).pieces, args));
  }

  /** Formatting an escaped text gives the text, whatever the arguments. */
  lemma EscapeRoundTrip(s: string, args: seq<string>)
    ensures Formatted(Escaped(s), args) == Outcome(s, None)
  {
    EscapedPrefix(s, "", args);
    assert Escaped(s) + "" == Escaped(s);
    assert s + "" == s;
  }

  /** An argument between two escaped texts. */
  lemma EscapeAroundArgument(a: string, x: string, b: string, more: seq<string>)
    ensures Formatted(Escaped(a) + ("{}" + Escaped(b)), [x] + more) == Outcome(a + (x + b), None)
  {
    var t := "{}" + Escaped(b);
    assert t[2..] == Escaped(b);
    assert Parse(t) == Parse(Escaped(b)).After(Hole);
    assert Parsed(Parse(t).pieces[1..], Parse(t).fault) == Parse(Escaped(b));
    assert ([x] + more)[1..] == more;
    EscapeRoundTrip(b, more);
    assert "" + x + b == x + b;
    EscapedPrefix(a, t, [x] + more);
  }

  /** Escaped texts with a placeholder between each two, and something after them. */
  function Template(texts: seq<string>, tail: string): string
    requires texts != []
  {
    if |texts| == 1 then Escaped(texts[0]) + tail
    else Escaped(texts[0]) + ("{}" + Template(texts[1..], tail))
  }

  /** The texts with the arguments between them, in order. */
  function Woven(texts: seq<string>, args: seq<string>): string
    requires 0 < |texts| <= |args| + 1
  {
    if |texts| == 1 then texts[0] else texts[0] + (args[0] + Woven(texts[1..], args[1..]))
  }

  lemma HoleFirst(t: string, args: seq<string>)
    ensures Formatted("{}" + t, args)
         == if args == [] then Outcome("", Some(TooFewArguments)) else Formatted(t, args[1..]).Before(args[0])
  {
    var s := "{}" + t;
    assert s[2..] == t;
    assert Parse(s) == Parse(t).After(Hole);
    assert Parsed(Parse(s).pieces[1..], Parse(s).fault) == Parse(t);
    if args != [] {
      assert "" + args[0] == args[0];
    }
  }

  /** Any number of arguments between escaped texts; surplus ones are ignored. */
  lemma {:induction false} TemplateIsWoven(texts: seq<string>, args: seq<string>)
    requires 0 < |texts| <= |args| + 1
    ensures Formatted(Template(texts, ""), args) == Outcome(Woven(texts, args), None)
  {
    if |texts| == 1 {
      EscapeRoundTrip(texts[0], args);
      assert Escaped(texts[0]) + "" == Escaped(texts[0]);
    } else {
      var rest := Template(texts[1..], "");
      TemplateIsWoven(texts[1..], args[1..]);
      HoleFirst(rest, args);
      EscapedPrefix(texts[0], "{}" + rest, args);
    }
  }

  lemma EscapedKeepsError(a: string, t: string, args: seq<string>)
    ensures Formatted(Escaped(a) + t, args).error == Formatted(t, args).error
  {
    ErrorIff(Parse(t), args, "");
    ParseEscaped(a, t);
    FillEscaped(a, Parse(t).pieces, args);
    ErrorIff(Parse(Escaped(a) + t), args, "");
  }

  /** Too few arguments are reported; otherwise what comes after the last text decides,
      with the arguments that are left. */
  lemma {:induction false} TemplateError(texts: seq<string>, tail: string, args: seq<string>)
    requires texts != []
    ensures Formatted(Template(texts, tail), args).error
         == if |args| + 1 < |texts| then Some(TooFewArguments) else Formatted(tail, args[|texts| - 1..]).error
  {
    if |texts| == 1 {
      EscapedKeepsError(texts[0], tail, args);
      assert args[0..] == args;
    } else {
      var rest := Template(texts[1..], tail);
      EscapedKeepsError(texts[0], "{}" + rest, args);
      HoleFirst(rest, args);
      if args != [] {
        TemplateError(texts[1..], tail, args[1..]);
        if |args| + 1 >= |texts| {
          assert args[1..][|texts| - 2..] == args[|texts| - 1..];
        }
      }
    }
  }

  /** An opening brace is unmatched unless a brace follows it, a closing one unless a
      closing one does. */
  lemma UnmatchedBraces(v: string, args: seq<string>)
    ensures v == "" || (v[0] != '{' && v[0] != '}') ==> Formatted("{" + v, args).error == Some(UnmatchedOpen)
    ensures v == "" || v[0] != '}' ==> Formatted("}" + v, args).error == Some(UnmatchedClose)
  {
    assert v != "" ==> ("{" + v)[1] == v[0] && ("}" + v)[1] == v[0];
  }

  // --------------------------------------------------------------- the scanner

  function Lits(s: string): seq<Piece> { seq(|s|, i requires 0 <= i < |s| => Lit(s[i])) }

  lemma {:induction false} OutputOfLits(t: string, parsed: Parsed, args: seq<string>, held: string)
    ensures Output(Parsed(Lits(t) + parsed.pieces, parsed.fault), args, held) == Output(parsed, args, held + t)
    decreases |t|
  {
    var all := Parsed(Lits(t) + parsed.pieces, parsed.fault);
    if t == [] {
      assert all.pieces == parsed.pieces;
      assert held + t == held;
    } else {
      assert all.pieces[1..] == Lits(t[1..]) + parsed.pieces;
      OutputOfLits(t[1..], parsed, args, held + [t[0]]);
      assert held + [t[0]] + t[1..] == held + t;
    }
  }

  /** Text without braces in front of a format is literal. */
  lemma {:induction false} ParseLits(t: string, s: string)
    requires forall i | 0 <= i < |t| :: !IsBrace(t[i])
    ensures Parse(t + s) == Parsed(Lits(t) + Parse(s).pieces, Parse(s).fault)
  {
    if t == [] {
      assert t + s == s;
      assert Lits(t) + Parse(s).pieces == Parse(s).pieces;
    } else {
      assert (t + s)[1..] == t[1..] + s;
      ParseLits(t[1..], s);
      assert Lits(t) + Parse(s).pieces == [Lit(t[0])] + (Lits(t[1..]) + Parse(s).pieces);
    }
  }

  lemma OutputAfterText(t: string, s: string, args: seq<string>)
    requires forall i | 0 <= i < |t| :: !IsBrace(t[i])
    ensures Formatted(t + s, args) == Output(Parse(s), args, t)
  {
    ParseLits(t, s);
    OutputOfLits(t, Parse(s), args, "");
    assert "" + t == t;
  }

  /** What is still to be written once `next` has returned `seg`, found a
      placeholder or not, and left `rest` unread. */
  ghost function Due(seg: string, placeholder: bool, rest: string, args: seq<string>): Outcome {
    if !placeholder then Formatted(rest, args).Before(seg)
    else if args == [] then Outcome("", Some(TooFewArguments))
    else Formatted(rest, args[1..]).Before(seg + args[0])
  }

  /** `next` reads `seg` and perhaps a placeholder from the front of `rest`. */
  ghost predicate Segment(rest: string, seg: string, placeholder: bool, rest': string) {
    forall args: seq<string> :: Formatted(rest, args) == Due(seg, placeholder, rest', args)
  }

  ghost predicate Fault(rest: string, e: Error) {
    forall args: seq<string> :: Formatted(rest, args) == Outcome("", Some(e))
  }

  /** `next` goes from one position to another; an empty segment without a
      placeholder comes only at the end, everything else moves the position on. */
  ghost predicate Reads(fs: string, from: nat, seg: string, placeholder: bool, to: nat) {
    && from <= to <= |fs|
    && Segment(fs[from..], seg, placeholder, fs[to..])
    && (seg != [] || placeholder ==> from < to)
    && (seg == [] && !placeholder ==> from == |fs|)
  }

  predicate Plain(fs: string, from: nat, to: int)
    requires to <= |fs|
  {
    forall i | from <= i < to :: !IsBrace(fs[i])
  }

  /** What `next` has seen, in terms of positions: plain characters, then a brace
      pair, the end, or a brace that nothing completes. */
  predicate Scanned(fs: string, from: nat, r: Result<string, Error>, placeholder: bool, to: nat)
    requires to <= |fs|
  {
    match r
    case Ok(seg) =>
      || (from + 2 <= to && Plain(fs, from, to - 2)
          && if placeholder then fs[to - 2] == '{' && fs[to - 1] == '}' && seg == fs[from..to - 2]
             else IsBrace(fs[to - 1]) && fs[to - 2] == fs[to - 1] && seg == fs[from..to - 1])
      || (!placeholder && from <= to == |fs| && Plain(fs, from, to) && seg == fs[from..])
    case Err(e) =>
      && from < to && Plain(fs, from, to - 1) && IsBrace(fs[to - 1])
      && (to < |fs| ==> fs[to] != fs[to - 1] && (fs[to - 1] == '{' ==> fs[to] != '}'))
      && e == if fs[to - 1] == '{' then UnmatchedOpen else UnmatchedClose
  }

  lemma ScannedMeans(fs: string, from: nat, r: Result<string, Error>, placeholder: bool, to: nat)
    requires to <= |fs| && Scanned(fs, from, r, placeholder, to)
    ensures r.Ok? ==> Reads(fs, from, r.value, placeholder, to)
    ensures r.Err? ==> Fault(fs[from..], r.error)
  {
    if r.Err? {
      FaultAt(fs, from, to);
    } else if !placeholder && to == |fs| && Plain(fs, from, to) {
      LastAt(fs, from);
    } else {
      PairAt(fs, from, to);
    }
  }

  lemma PairSegment(t: string, s: string)
    requires forall i | 0 <= i < |t| :: !IsBrace(t[i])
    requires |s| >= 2
    ensures s[0] == s[1] && IsBrace(s[0]) ==> Segment(t + s, t + [s[0]], false, s[2..])
    ensures s[..2] == "{}" ==> Segment(t + s, t, true, s[2..])
  {
    forall args: seq<string>
      ensures Formatted(t + s, args) == Output(Parse(s), args, t)
    {
      OutputAfterText(t, s, args);
    }
    assert s[..2] == "{}" ==> s[0] == '{' && s[1] == '}';
    if s[0] == s[1] && IsBrace(s[0]) {
      assert Parsed(Parse(s).pieces[1..], Parse(s).fault) == Parse(s[2..]);
    } else if s[0] == '{' && s[1] == '}' {
      assert Parsed(Parse(s).pieces[1..], Parse(s).fault) == Parse(s[2..]);
    }
  }

  lemma LastSegment(t: string)
    requires forall i | 0 <= i < |t| :: !IsBrace(t[i])
    ensures Segment(t, t, false, "")
  {
    forall args: seq<string>
      ensures Formatted(t, args) == Formatted("", args).Before(t)
    {
      OutputAfterText(t, "", args);
      assert t + "" == t;
    }
  }

  lemma FaultSegment(t: string, s: string, args: seq<string>)
    requires forall i | 0 <= i < |t| :: !IsBrace(t[i])
    requires s != [] && Parse(s).pieces == [] && Parse(s).fault.Some?
    ensures Formatted(t + s, args) == Outcome("", Parse(s).fault)
  {
    OutputAfterText(t, s, args);
  }

  /** The formatter's state: positions in the format string and the stream. */
  class FormatImpl {
    const fs: string
    var p: nat
    var p0: nat
    var hasPlaceholder: bool
    var os: string

    ghost predicate Valid()
      reads this
    {
      p == p0 <= |fs|
    }

    constructor (os: string, fs: string)
      ensures Valid() && this.fs == fs && this.os == os && p == 0
    {
      this.fs, this.os := fs, os;
      p, p0, hasPlaceholder := 0, 0, false;
    }

    /** One step of the scan, or the exception it throws. */
    method Next() returns (r: Result<string, Error>)
      requires Valid()
      modifies this`p, this`p0, this`hasPlaceholder
      ensures p <= |fs| && Scanned(fs, old(p), r, hasPlaceholder, p)
      ensures r.Ok? ==> Valid()
    {
      hasPlaceholder := false;
      var unmatchedOpen, unmatchedClose := false, false;
      while p != |fs|
        invariant p0 == old(p0) && !hasPlaceholder
        invariant p0 <= p <= |fs|
        invariant !(unmatchedOpen && unmatchedClose)
        invariant unmatchedOpen ==> p0 < p && fs[p - 1] == '{'
        invariant unmatchedClose ==> p0 < p && fs[p - 1] == '}'
        invariant forall i | p0 <= i < (if unmatchedOpen || unmatchedClose then p - 1 else p) :: !IsBrace(fs[i])
        decreases |fs| - p
      {
        if unmatchedOpen {
          if fs[p] == '{' {
            p := p + 1;
            var seg := fs[p0..p - 1];
            p0 := p;
            return Ok(seg);
          }
          if fs[p] == '}' {
            p := p + 1;
            var seg := fs[p0..p - 2];
            p0 := p;
            hasPlaceholder := true;
            return Ok(seg);
          }
          return Err(UnmatchedOpen);
        }
        if unmatchedClose {
          if fs[p] == '}' {
            p := p + 1;
            var seg := fs[p0..p - 1];
            p0 := p;
            return Ok(seg);
          }
          return Err(UnmatchedClose);
        }
        if fs[p] == '{' {
          unmatchedOpen := true;
        }
        if fs[p] == '}' {
          unmatchedClose := true;
        }
        p := p + 1;
      }
      if unmatchedOpen {
        return Err(UnmatchedOpen);
      }
      if unmatchedClose {
        return Err(UnmatchedClose);
      }
      var seg := fs[p0..];
      p0 := |fs|;
      return Ok(seg);
    }

    /** Writes up to and including the next placeholder, filled with `arg`, or
        everything that is left. `more` are the arguments after this one. */
    method DoArg(arg: string, ghost more: seq<string>) returns (error: Option<Error>)
      requires Valid()
      modifies this
      ensures error.None? ==> Valid()
      ensures old(Formatted(fs[p..], [arg] + more).Before(os))
           == if error.Some? then Outcome(os, error) else Formatted(fs[p..], more).Before(os)
    {
      ghost var args := [arg] + more;
      assert args[1..] == more;
      ghost var all := Formatted(fs[p..], args).Before(os);
      ghost var at := p;
      var seg := Next();
      ScannedMeans(fs, at, seg, hasPlaceholder, p);
      while seg.Ok? && seg.value != []
        invariant seg.Ok? ==> Valid() && all == Due(seg.value, hasPlaceholder, fs[p..], args).Before(os)
        invariant seg.Err? ==> all == Outcome(os, Some(seg.error))
        invariant seg.Ok? && seg.value == [] && !hasPlaceholder ==> p == |fs|
        decreases if seg.Ok? then 1 + |fs| - p else 0, seg.Ok? && seg.value != []
      {
        Regroup(os, seg.value, hasPlaceholder, fs[p..], args);
        os := os + seg.value;
        if hasPlaceholder {
          break;
        }
        at := p;
        seg := Next();
        ScannedMeans(fs, at, seg, hasPlaceholder, p);
      }
      if seg.Err? {
        return Some(seg.error);
      }
      if hasPlaceholder {
        assert all == Formatted(fs[p..], more).Before(os + arg) by {
          if seg.value == [] { Regroup(os, [], true, fs[p..], args); assert os + [] == os; }
        }
        os := os + arg;
      } else {
        assert fs[p..] == "";
        assert os + "" == os;
      }
      return None;
    }

    /** Formats all arguments: the stream gets exactly what the specification says. */
    method Apply(args: seq<string>) returns (error: Option<Error>)
      requires Valid()
      modifies this
      ensures Outcome(os, error) == old(Formatted(fs[p..], args).Before(os))
    {
      ghost var all := Formatted(fs[p..], args).Before(os);
      for i := 0 to |args|
        invariant Valid() && all == Formatted(fs[p..], args[i..]).Before(os)
      {
        assert args[i..] == [args[i]] + args[i + 1..];
        error := DoArg(args[i], args[i + 1..]);
        if error.Some? {
          return;
        }
      }
      assert args[|args|..] == [];
      var more := true;
      while more
        invariant Valid() && all == Formatted(fs[p..], []).Before(os)
        invariant !more ==> p == |fs|
        decreases |fs| - p, more
      {
        ghost var at := p;
        var seg := Next();
        ScannedMeans(fs, at, seg, hasPlaceholder, p);
        if seg.Err? {
          return Some(seg.error);
        }
        if hasPlaceholder {
          return Some(TooFewArguments);
        }
        Regroup(os, seg.value, false, fs[p..], []);
        if seg.value != [] {
          os := os + seg.value;
        } else {
          assert os + [] == os;
        }
        more := seg.value != [];
      }
      assert fs[p..] == "";
      assert os + "" == os;
      return None;
    }
  }

  /** format_to: appends to `dest`; on an exception what was appended stays. */
  method FormatTo(dest: string, fs: string, args: seq<string>) returns (dest': string, error: Option<Error>)
    ensures error == if Holes(Parse(fs).pieces) > |args| then Some(TooFewArguments) else Parse(fs).fault
    ensures error.None? ==> dest' == dest + Fill(Parse(fs).pieces, args)
    ensures error.Some? ==> FlushPoint(Parse(fs).pieces, |args|) <= |Parse(fs).pieces|
    ensures error.Some? ==> dest' == dest + Fill(Parse(fs).pieces[..FlushPoint(Parse(fs).pieces, |args|)], args)
  {
    var impl := new FormatImpl(dest, fs);
    assert fs[0..] == fs;
    error := impl.Apply(args);
    dest' := impl.os;
    ErrorIff(Parse(fs), args, "");
    if error.None? {
      OutputIsFilled(Parse(fs), args, "");
      NothingInFront(Fill(Parse(fs).pieces, args));
    } else {
      OutputIsFlushed(Parse(fs), args, "");
      var k := FlushPoint(Parse(fs).pieces, |args|);
      NothingInFront(Fill(Parse(fs).pieces[..k], args));
    }
  }

  /** Writing a segment moves it from what is due to what is written. */
  lemma Regroup(os: string, seg: string, placeholder: bool, rest: string, args: seq<string>)
    ensures !placeholder ==> Due(seg, false, rest, args).Before(os) == Formatted(rest, args).Before(os + seg)
    ensures placeholder && args != [] ==>
              Due(seg, true, rest, args).Before(os) == Formatted(rest, args[1..]).Before(os + seg + args[0])
  {
    ConcatAssociates(os, seg, Formatted(rest, args).written);
    if args != [] {
      var w := Formatted(rest, args[1..]).written;
      assert os + (seg + args[0] + w) == os + seg + args[0] + w;
    }
  }

  lemma PairAt(fs: string, p0: nat, p: nat)
    requires p0 + 2 <= p <= |fs|
    requires forall i | p0 <= i < p - 2 :: !IsBrace(fs[i])
    ensures fs[p - 2] == fs[p - 1] && IsBrace(fs[p - 1]) ==> Reads(fs, p0, fs[p0..p - 1], false, p)
    ensures fs[p - 2] == '{' && fs[p - 1] == '}' ==> Reads(fs, p0, fs[p0..p - 2], true, p)
  {
    var t, s := fs[p0..p - 2], fs[p - 2..];
    assert t + s == fs[p0..] && s[2..] == fs[p..] && t + [s[0]] == fs[p0..p - 1];
    assert s[..2] == [fs[p - 2], fs[p - 1]];
    PairSegment(t, s);
  }

  lemma LastAt(fs: string, p0: nat)
    requires p0 <= |fs| && forall i | p0 <= i < |fs| :: !IsBrace(fs[i])
    ensures Reads(fs, p0, fs[p0..], false, |fs|)
  {
    LastSegment(fs[p0..]);
    assert fs[|fs|..] == "";
  }

  /** A brace at p - 1 that the character at p, if any, does not complete. */
  lemma FaultAt(fs: string, p0: nat, p: nat)
    requires p0 < p <= |fs| && IsBrace(fs[p - 1])
    requires forall i | p0 <= i < p - 1 :: !IsBrace(fs[i])
    requires p < |fs| ==> fs[p] != fs[p - 1] && (fs[p - 1] == '{' ==> fs[p] != '}')
    ensures Fault(fs[p0..], if fs[p - 1] == '{' then UnmatchedOpen else UnmatchedClose)
  {
    var t, s := fs[p0..p - 1], fs[p - 1..];
    assert t + s == fs[p0..];
    forall args: seq<string>
      ensures Formatted(fs[p0..], args) == Outcome("", Parse(s).fault)
    {
      FaultSegment(t, s, args);
    }
  }
}
