/** Output names: `#k` stands for the k-th token of the URL expansion. */
module Interpolation {
  import opened Basics
  import opened Wrappers
  import opened Decimal

  const ULONG_LIMIT: nat := 0x1_0000_0000_0000_0000

  datatype Piece = Plain(text: string) | Ref(digits: string) | Hash

  datatype Error = OutOfRange

  /** Length of the longest prefix without a hash. */
  function PlainSpan(s: string): (n: nat)
    ensures n <= |s| && (n < |s| ==> s[n] == '#') && forall i | 0 <= i < n :: s[i] != '#'
  {
    if s == [] || s[0] == '#' then 0 else 1 + PlainSpan(s[1..])
  }

  function DigitSpan(s: string): (n: nat)
    ensures n <= |s| && (n < |s| ==> !IsDigit(s[n])) && AllDigits(s[..n])
  {
    if s == [] || !IsDigit(s[0]) then 0
    else
      var n := DigitSpan(s[1..]);
      assert s[..1 + n] == [s[0]] + s[1..][..n];
      1 + n
  }

  /** Length of the first piece of a format, and the piece. */
  function FirstLength(format: string): (n: nat)
    requires format != []
    ensures 1 <= n <= |format|
  {
    if format[0] == '#' then 1 + DigitSpan(format[1..]) else PlainSpan(format)
  }

  function First(format: string): (p: Piece)
    requires format != []
    ensures Written(p) == format[..FirstLength(format)]
    ensures p.Ref? ==> p.digits != [] && AllDigits(p.digits)
  {
    var n := FirstLength(format);
    if format[0] != '#' then Plain(format[..n])
    else if n == 1 then Hash
    else
      assert format[1..n] == format[1..][..n - 1];
      Ref(format[1..n])
  }

  /** The pieces the format grammar cuts a format into. */
  function Split(format: string): seq<Piece> {
    if format == [] then [] else [First(format)] + Split(format[FirstLength(format)..])
  }

  function Written(p: Piece): string {
    match p
    case Plain(text) => text
    case Ref(digits) => "#" + digits
    case Hash => "#"
  }

  function Number(digits: string): nat {
    if AllDigits(digits) then Value(digits) else 0
  }

  predicate Convertible(p: Piece) { p.Ref? ==> Number(p.digits) < ULONG_LIMIT }

  predicate AllConvertible(ps: seq<Piece>) { forall i | 0 <= i < |ps| :: Convertible(ps[i]) }

  /** What a piece becomes. `#0` would be index 2^64 - 1, past every token list. */
  function Filled(p: Piece, tokens: seq<string>): string {
    if p.Ref? && 1 <= Number(p.digits) <= |tokens| then tokens[Number(p.digits) - 1] else Written(p)
  }

  function Concat(ps: seq<Piece>, tokens: seq<string>): string {
    if ps == [] then "" else Filled(ps[0], tokens) + Concat(ps[1..], tokens)
  }

  /** The pieces put together; a reference too large for `unsigned long` throws. */
  function Together(ps: seq<Piece>, tokens: seq<string>): Result<string, Error> {
    if AllConvertible(ps) then Ok(Concat(ps, tokens)) else Err(OutOfRange)
  }

  /** The whole interpolation. */
  function Interpolated(format: string, tokens: seq<string>): Result<string, Error> {
    Together(Split(format), tokens)
  }

  lemma ConcatFirst(p: Piece, ps: seq<Piece>, tokens: seq<string>)
    ensures Concat([p] + ps, tokens) == Filled(p, tokens) + Concat(ps, tokens)
  {
    assert ([p] + ps)[1..] == ps;
  }

  ghost predicate Appends(ps: seq<Piece>, qs: seq<Piece>, tokens: seq<string>) {
    Concat(ps + qs, tokens) == Concat(ps, tokens) + Concat(qs, tokens)
  }

  lemma AppendsBehind(p: Piece, ps: seq<Piece>, qs: seq<Piece>, tokens: seq<string>)
    requires Appends(ps, qs, tokens)
    ensures Appends([p] + ps, qs, tokens)
  {
    ConcatAssociates([p], ps, qs);
    ConcatFirst(p, ps + qs, tokens);
    ConcatFirst(p, ps, tokens);
    ConcatAssociates(Filled(p, tokens), Concat(ps, tokens), Concat(qs, tokens));
  }

  lemma {:induction false} ConcatAppend(ps: seq<Piece>, qs: seq<Piece>, tokens: seq<string>)
    ensures Appends(ps, qs, tokens)
  {
    if ps == [] {
      assert ps + qs == qs && Concat(ps, tokens) + Concat(qs, tokens) == Concat(qs, tokens);
    } else {
      ConcatAppend(ps[1..], qs, tokens);
      AppendsBehind(ps[0], ps[1..], qs, tokens);
      assert [ps[0]] + ps[1..] == ps;
    }
  }

  lemma OnePieceMore(ps: seq<Piece>, i: nat, tokens: seq<string>)
    requires i < |ps|
    ensures Concat(ps[..i + 1], tokens) == Concat(ps[..i], tokens) + Filled(ps[i], tokens)
  {
    assert ps[..i + 1] == ps[..i] + [ps[i]];
    ConcatAppend(ps[..i], [ps[i]], tokens);
    ConcatFirst(ps[i], [], tokens);
    assert [ps[i]] + [] == [ps[i]] && Filled(ps[i], tokens) + "" == Filled(ps[i], tokens);
  }

  /** The body of the loop over the pieces: what one of them contributes. */
  method FillPiece(piece: Piece, tokens: seq<string>) returns (r: Result<string, Error>)
    ensures r == if Convertible(piece) then Ok(Filled(piece, tokens)) else Err(OutOfRange)
  {
    match piece {
      case Plain(text) => r := Ok(text);
      case Ref(digits) =>
        var number := Number(digits);
        if number >= ULONG_LIMIT {
          return Err(OutOfRange);
        }
        if number != 0 && number - 1 < |tokens| {
          r := Ok(tokens[number - 1]);
        } else {
          r := Ok("#" + digits);
        }
      case Hash => r := Ok("#");
    }
  }

  method PutTogether(pieces: seq<Piece>, tokens: seq<string>) returns (r: Result<string, Error>)
    ensures r == Together(pieces, tokens)
  {
    var rs := "";
    for i := 0 to |pieces|
      invariant rs == Concat(pieces[..i], tokens)
      invariant forall j | 0 <= j < i :: Convertible(pieces[j])
    {
      var piece := FillPiece(pieces[i], tokens);
      if piece.Err? {
        return Err(piece.error);
      }
      OnePieceMore(pieces, i, tokens);
      rs := rs + piece.value;
    }
    assert pieces[..|pieces|] == pieces;
    r := Ok(rs);
  }

  method Interpolate(format: string, tokens: seq<string>) returns (r: Result<string, Error>)
    ensures r == Interpolated(format, tokens)
  {
    r := PutTogether(Split(format), tokens);
  }

  /** No reference of the format names a token. */
  ghost predicate NoMatches(ps: seq<Piece>, tokens: seq<string>) {
    forall i | 0 <= i < |ps| :: ps[i].Ref? ==> Number(ps[i].digits) == 0 || Number(ps[i].digits) > |tokens|
  }

  lemma {:induction false} SplitIsLossless(format: string, tokens: seq<string>)
    requires NoMatches(Split(format), tokens)
    ensures Concat(Split(format), tokens) == format
  {
    if format != [] {
      var rest := format[FirstLength(format)..];
      assert Split(format)[1..] == Split(rest);
      SplitIsLossless(rest, tokens);
      assert format == format[..FirstLength(format)] + rest;
    }
  }

  /** Interpolation is the identity on a format none of whose references names a token. */
  lemma IdentityWithoutMatches(format: string, tokens: seq<string>)
    requires AllConvertible(Split(format)) && NoMatches(Split(format), tokens)
    ensures Interpolated(format, tokens) == Ok(format)
  {
    SplitIsLossless(format, tokens);
  }

  lemma {:induction false} SamePlainSpan(a: string, b: string)
    requires b != [] ==> b[0] == '#'
    ensures PlainSpan(a + b) == PlainSpan(a)
  {
    if a == [] {
      assert a + b == b;
    } else {
      assert (a + b)[1..] == a[1..] + b;
      SamePlainSpan(a[1..], b);
    }
  }

  lemma {:induction false} SameDigitSpan(a: string, b: string)
    requires b != [] ==> !IsDigit(b[0])
    ensures DigitSpan(a + b) == DigitSpan(a)
  {
    if a == [] {
      assert a + b == b;
    } else {
      assert (a + b)[1..] == a[1..] + b;
      SameDigitSpan(a[1..], b);
    }
  }

  lemma SameFirst(a: string, b: string)
    requires a != [] && (b != [] ==> b[0] == '#')
    ensures FirstLength(a + b) == FirstLength(a) && First(a + b) == First(a)
  {
    SamePlainSpan(a, b);
    assert (a + b)[1..] == a[1..] + b;
    SameDigitSpan(a[1..], b);
    var n := FirstLength(a);
    assert (a + b)[..n] == a[..n] && (a + b)[1..n] == a[1..n];
  }

  /** Cutting is local: it can be done separately on both sides of a hash. */
  ghost predicate CutsAt(a: string, b: string) { Split(a + b) == Split(a) + Split(b) }

  lemma SplitFirst(s: string, n: nat, rest: string)
    requires s != [] && n == FirstLength(s) && rest == s[n..]
    ensures Split(s) == [First(s)] + Split(rest)
  {
  }

  lemma DropFront(a: string, b: string, n: nat)
    requires n <= |a|
    ensures (a + b)[n..] == a[n..] + b
  {
  }

  lemma OneCutMore(a: string, b: string, rest: string)
    requires a != [] && (b != [] ==> b[0] == '#') && rest == a[FirstLength(a)..]
    requires Split(rest + b) == Split(rest) + Split(b)
    ensures CutsAt(a, b)
  {
    SameFirst(a, b);
    DropFront(a, b, FirstLength(a));
    SplitFirst(a + b, FirstLength(a), rest + b);
    SplitFirst(a, FirstLength(a), rest);
    ConcatAssociates([First(a)], Split(rest), Split(b));
  }

  lemma {:induction false} SplitAtHash(a: string, b: string)
    requires b != [] ==> b[0] == '#'
    ensures CutsAt(a, b)
  {
    if a == [] {
      assert a + b == b && Split(a) + Split(b) == Split(b);
    } else {
      SplitAtHash(a[FirstLength(a)..], b);
      OneCutMore(a, b, a[FirstLength(a)..]);
    }
  }

  lemma {:induction false} AllDigitSpan(s: string)
    requires AllDigits(s)
    ensures DigitSpan(s) == |s|
  {
    if s != [] {
      AllDigitSpan(s[1..]);
    }
  }

  lemma ReferenceSplits(digits: string, b: string)
    requires digits != [] && AllDigits(digits) && (b != [] ==> !IsDigit(b[0]))
    ensures Split("#" + digits + b) == [Ref(digits)] + Split(b)
  {
    var f := "#" + digits + b;
    assert f[1..] == digits + b;
    SameDigitSpan(digits, b);
    AllDigitSpan(digits);
    var n := FirstLength(f);
    assert f[1..n] == digits && f[n..] == b;
  }

  lemma ReferenceInContext(a: string, digits: string, b: string)
    requires digits != [] && AllDigits(digits) && (b != [] ==> !IsDigit(b[0]))
    ensures Split(a + ("#" + digits + b)) == Split(a) + ([Ref(digits)] + Split(b))
  {
    SplitAtHash(a, "#" + digits + b);
    ReferenceSplits(digits, b);
  }

  lemma FilledReference(digits: string, tokens: seq<string>)
    requires AllDigits(digits) && 1 <= Value(digits) <= |tokens| && Value(digits) < ULONG_LIMIT
    ensures Convertible(Ref(digits)) && Filled(Ref(digits), tokens) == tokens[Value(digits) - 1]
  {
  }

  /** A piece between two texts that interpolate. */
  lemma Between(format: string, a: string, p: Piece, b: string, tokens: seq<string>)
    requires Split(format) == Split(a) + ([p] + Split(b)) && Convertible(p)
    requires Interpolated(a, tokens).Ok? && Interpolated(b, tokens).Ok?
    ensures Interpolated(format, tokens)
         == Ok(Interpolated(a, tokens).value + (Filled(p, tokens) + Interpolated(b, tokens).value))
  {
    PiecesWithReference(Split(a), p, Split(b), tokens);
  }

  /** `#k` in any context is replaced by the k-th token and nothing else changes. */
  lemma ReferenceIsReplaced(a: string, digits: string, b: string, tokens: seq<string>)
    requires digits != [] && AllDigits(digits) && 1 <= Value(digits) <= |tokens| && Value(digits) < ULONG_LIMIT
    requires b != [] ==> !IsDigit(b[0])
    requires Interpolated(a, tokens).Ok? && Interpolated(b, tokens).Ok?
    ensures Interpolated(a + ("#" + digits + b), tokens)
         == Ok(Interpolated(a, tokens).value + (tokens[Value(digits) - 1] + Interpolated(b, tokens).value))
  {
    ReferenceInContext(a, digits, b);
    FilledReference(digits, tokens);
    Between(a + ("#" + digits + b), a, Ref(digits), b, tokens);
  }

  /** `#k` that names no token, `#0` among them, stays as it is. */
  lemma ReferenceStays(a: string, digits: string, b: string, tokens: seq<string>)
    requires digits != [] && AllDigits(digits) && Value(digits) < ULONG_LIMIT
    requires Value(digits) == 0 || Value(digits) > |tokens|
    requires b != [] ==> !IsDigit(b[0])
    requires Interpolated(a, tokens).Ok? && Interpolated(b, tokens).Ok?
    ensures Interpolated(a + ("#" + digits + b), tokens)
         == Ok(Interpolated(a, tokens).value + (("#" + digits) + Interpolated(b, tokens).value))
  {
    ReferenceInContext(a, digits, b);
    Between(a + ("#" + digits + b), a, Ref(digits), b, tokens);
  }

  /** A reference of 2^64 or more throws, wherever it stands. */
  lemma LargeReferenceThrows(a: string, digits: string, b: string, tokens: seq<string>)
    requires digits != [] && AllDigits(digits) && Value(digits) >= 0x1_0000_0000_0000_0000
    requires b != [] ==> !IsDigit(b[0])
    ensures Interpolated(a + ("#" + digits + b), tokens) == Err(OutOfRange)
  {
    ReferenceInContext(a, digits, b);
    var ps := Split(a) + ([Ref(digits)] + Split(b));
    assert ps[|Split(a)|] == Ref(digits);
    assert !Convertible(ps[|Split(a)|]);
  }

  lemma PiecesWithReference(a: seq<Piece>, p: Piece, b: seq<Piece>, tokens: seq<string>)
    requires AllConvertible(a) && Convertible(p) && AllConvertible(b)
    ensures Together(a + ([p] + b), tokens) == Ok(Concat(a, tokens) + (Filled(p, tokens) + Concat(b, tokens)))
  {
    ConcatAppend(a, [p] + b, tokens);
    ConcatFirst(p, b, tokens);
  }
}
