/** The Cartesian product of columns of choices, in lexicographic order, and the
    stack of frames that enumerates it lazily. */
module Cartesian {
  import opened Basics

  /** The choices one position of a pattern still has, all of them or, unless
      `whole`, only the first few; literal text is no token. */
  datatype Column = Column(choices: seq<string>, literal: bool, whole: bool) {
    function Rest(): Column
      requires choices != []
    {
      this.(choices := choices[1..])
    }
  }

  datatype GlobResult = GlobResult(result: string, tokens: seq<string>)

  function Token(choice: string, literal: bool): seq<string> {
    if literal then [] else [choice]
  }

  function Prepend(prefix: string, tokens: seq<string>, rs: seq<GlobResult>): (out: seq<GlobResult>)
    ensures |out| == |rs|
  {
    seq(|rs|, i requires 0 <= i < |rs| => GlobResult(prefix + rs[i].result, tokens + rs[i].tokens))
  }

  function Rows(col: Column, rest: seq<GlobResult>): seq<GlobResult>
    decreases |col.choices|
  {
    if col.choices == [] then []
    else Prepend(col.choices[0], Token(col.choices[0], col.literal), rest) + Rows(col.Rest(), rest)
  }

  function Product(cols: seq<Column>): seq<GlobResult> {
    if cols == [] then [GlobResult("", [])] else Rows(cols[0], Product(cols[1..]))
  }

  // ------------------------------------------------- what the product contains

  function Size(cols: seq<Column>): nat {
    if cols == [] then 1 else |cols[0].choices| * Size(cols[1..])
  }

  /** `idx` picks one choice of every column. */
  ghost predicate IsPick(cols: seq<Column>, idx: seq<nat>) {
    |idx| == |cols| && forall j | 0 <= j < |cols| :: idx[j] < |cols[j].choices|
  }

  ghost function Text(cols: seq<Column>, idx: seq<nat>): string
    requires IsPick(cols, idx)
  {
    if cols == [] then "" else cols[0].choices[idx[0]] + Text(cols[1..], idx[1..])
  }

  ghost function Tokens(cols: seq<Column>, idx: seq<nat>): seq<string>
    requires IsPick(cols, idx)
  {
    if cols == [] then []
    else Token(cols[0].choices[idx[0]], cols[0].literal) + Tokens(cols[1..], idx[1..])
  }

  /** Position of a pick in lexicographic order: the mixed-radix number it spells. */
  ghost function Rank(cols: seq<Column>, idx: seq<nat>): nat
    requires IsPick(cols, idx)
  {
    if cols == [] then 0 else idx[0] * Size(cols[1..]) + Rank(cols[1..], idx[1..])
  }

  ghost predicate LexLess(a: seq<nat>, b: seq<nat>)
    requires |a| == |b|
  {
    a != [] && (a[0] < b[0] || (a[0] == b[0] && LexLess(a[1..], b[1..])))
  }

  lemma {:induction false} RowsSize(col: Column, rest: seq<GlobResult>)
    ensures |Rows(col, rest)| == |col.choices| * |rest|
    decreases |col.choices|
  {
    if col.choices != [] {
      RowsSize(col.Rest(), rest);
      assert |col.choices| * |rest| == |rest| + (|col.choices| - 1) * |rest|;
    }
  }

  lemma {:induction false} RowsAt(col: Column, rest: seq<GlobResult>, i: nat, k: nat)
    requires i < |col.choices| && k < |rest|
    ensures 0 <= i * |rest| + k < |Rows(col, rest)|
    ensures Rows(col, rest)[i * |rest| + k]
         == GlobResult(col.choices[i] + rest[k].result, Token(col.choices[i], col.literal) + rest[k].tokens)
    decreases i
  {
    if i > 0 {
      RowsAt(col.Rest(), rest, i - 1, k);
      assert i * |rest| + k == |rest| + ((i - 1) * |rest| + k);
    }
  }

  /** The number of results is the product of the numbers of choices. */
  lemma {:induction false} ProductSize(cols: seq<Column>)
    ensures |Product(cols)| == Size(cols)
  {
    if cols != [] {
      ProductSize(cols[1..]);
      RowsSize(cols[0], Product(cols[1..]));
    }
  }

  /** The result at a pick's rank concatenates the chosen texts and has exactly
      the non-literal choices as tokens. */
  lemma {:induction false} ProductAtRank(cols: seq<Column>, idx: seq<nat>)
    requires IsPick(cols, idx)
    ensures Rank(cols, idx) < |Product(cols)|
    ensures Product(cols)[Rank(cols, idx)] == GlobResult(Text(cols, idx), Tokens(cols, idx))
  {
    if cols != [] {
      ProductAtRank(cols[1..], idx[1..]);
      ProductSize(cols[1..]);
      RowsAt(cols[0], Product(cols[1..]), idx[0], Rank(cols[1..], idx[1..]));
    }
  }

  /** How many columns give a token. */
  ghost function Dynamics(cols: seq<Column>): nat {
    if cols == [] then 0 else (if cols[0].literal then 0 else 1) + Dynamics(cols[1..])
  }

  /** The tokens are the chosen texts of the columns that are not literal, in order:
      one for each, after as many as such columns come before it. */
  ghost predicate TokensOf(cols: seq<Column>, idx: seq<nat>, tokens: seq<string>)
    requires IsPick(cols, idx)
  {
    && |tokens| == Dynamics(cols)
    && forall p | 0 <= p < |cols| && !cols[p].literal ::
         Dynamics(cols[..p]) < |tokens| && tokens[Dynamics(cols[..p])] == cols[p].choices[idx[p]]
  }

  lemma {:induction false} TokensAre(cols: seq<Column>, idx: seq<nat>)
    requires IsPick(cols, idx)
    ensures TokensOf(cols, idx, Tokens(cols, idx))
  {
    if cols != [] {
      TokensAre(cols[1..], idx[1..]);
      var tokens := Tokens(cols, idx);
      forall p | 0 <= p < |cols| && !cols[p].literal
        ensures Dynamics(cols[..p]) < |tokens| && tokens[Dynamics(cols[..p])] == cols[p].choices[idx[p]]
      {
        if p > 0 {
          assert cols[..p][1..] == cols[1..][..p - 1];
        }
      }
    }
  }

  /** Text and tokens of the result of every pick that is among the first ones. */
  ghost predicate SpelledOut(cols: seq<Column>, all: seq<GlobResult>) {
    forall idx | IsPick(cols, idx) && Rank(cols, idx) < |all| ::
      && all[Rank(cols, idx)].result == Text(cols, idx)
      && TokensOf(cols, idx, all[Rank(cols, idx)].tokens)
  }

  lemma ProductIsSpelledOut(cols: seq<Column>, n: nat)
    requires n <= |Product(cols)|
    ensures SpelledOut(cols, Product(cols)[..n])
  {
    var all := Product(cols)[..n];
    forall idx | IsPick(cols, idx) && Rank(cols, idx) < |all|
      ensures all[Rank(cols, idx)].result == Text(cols, idx)
      ensures TokensOf(cols, idx, all[Rank(cols, idx)].tokens)
    {
      ProductAtRank(cols, idx);
      TokensAre(cols, idx);
    }
  }

  /** Ranks follow the lexicographic order of picks: the rightmost moves fastest. */
  lemma {:induction false} RankIsLexicographic(cols: seq<Column>, a: seq<nat>, b: seq<nat>)
    requires IsPick(cols, a) && IsPick(cols, b) && LexLess(a, b)
    ensures Rank(cols, a) < Rank(cols, b)
  {
    ProductAtRank(cols[1..], a[1..]);
    ProductSize(cols[1..]);
    if a[0] < b[0] {
      DigitDecides(a[0], b[0], Size(cols[1..]), Rank(cols[1..], a[1..]), Rank(cols[1..], b[1..]));
    } else {
      RankIsLexicographic(cols[1..], a[1..], b[1..]);
    }
  }

  lemma DigitDecides(i: nat, j: nat, m: nat, r: nat, r': nat)
    requires i < j && r < m
    ensures i * m + r < j * m + r'
  {
    TimesMonotone(i + 1, j, m);
    assert (i + 1) * m == i * m + m;
  }

  /** Every position is the rank of some pick, so the product holds nothing else. */
  lemma {:induction false} EveryPositionIsAPick(cols: seq<Column>, n: nat) returns (idx: seq<nat>)
    requires n < |Product(cols)|
    ensures IsPick(cols, idx) && Rank(cols, idx) == n
  {
    ProductSize(cols);
    if cols == [] {
      idx := [];
    } else {
      var c, m := |cols[0].choices|, Size(cols[1..]);
      ProductSize(cols[1..]);
      var q, r := Divide(n, c, m);
      var rest := EveryPositionIsAPick(cols[1..], r);
      idx := [q] + rest;
      assert idx[1..] == rest;
    }
  }

  lemma Divide(n: nat, c: nat, m: nat) returns (q: nat, r: nat)
    requires n < c * m
    ensures n == q * m + r && q < c && r < m
  {
    assert m > 0;
    q, r := n / m, n % m;
    TimesMonotone(c, q, m);
  }

  // ------------------------------------------------------------ the lazy walk

  /** Text chosen so far and the columns after it; the first column of a frame
      below the top has already given the choice the next frame starts with. */
  datatype Frame = Frame(prefix: string, cols: seq<Column>)

  ghost predicate FramesOk(stack: seq<Frame>) { forall i | 0 <= i < |stack| :: stack[i].cols != [] }

  /** How many tokens the frames below the top have pushed. */
  ghost function Dynamic(stack: seq<Frame>): nat
    requires FramesOk(stack)
  {
    if |stack| <= 1 then 0
    else Dynamic(stack[..|stack| - 1]) + if stack[|stack| - 2].cols[0].literal then 0 else 1
  }

  ghost predicate WalkOk(stack: seq<Frame>, tokens: seq<string>) {
    FramesOk(stack) && |tokens| == Dynamic(stack)
  }

  /** The token stack after the top frame is popped. */
  ghost function Popped(stack: seq<Frame>, tokens: seq<string>): (ts: seq<string>)
    requires WalkOk(stack, tokens) && stack != []
    ensures WalkOk(stack[..|stack| - 1], ts)
  {
    if |stack| > 1 && !stack[|stack| - 2].cols[0].literal then tokens[..|tokens| - 1] else tokens
  }

  /** The results a stack of frames has still to produce. */
  ghost function Remaining(stack: seq<Frame>, tokens: seq<string>): seq<GlobResult>
    requires WalkOk(stack, tokens)
  {
    if stack == [] then []
    else
      var top := stack[|stack| - 1];
      Prepend(top.prefix, tokens, Product(top.cols)) + Remaining(stack[..|stack| - 1], Popped(stack, tokens))
  }

  /** Steps needed to exhaust a frame, and a whole stack. */
  ghost function FrameWork(cols: seq<Column>): nat {
    if cols == [] then 0 else 1 + |cols[0].choices| * (1 + FrameWork(cols[1..]))
  }

  ghost function Work(stack: seq<Frame>): nat {
    if stack == [] then 0
    else FrameWork(stack[|stack| - 1].cols) + Work(stack[..|stack| - 1])
  }

  /** A frame after its first column gave a choice. */
  ghost function Advanced(f: Frame): Frame
    requires f.cols != [] && f.cols[0].choices != []
  {
    Frame(f.prefix, [f.cols[0].Rest()] + f.cols[1..])
  }

  ghost function Deeper(f: Frame): Frame
    requires f.cols != [] && f.cols[0].choices != []
  {
    Frame(f.prefix + f.cols[0].choices[0], f.cols[1..])
  }

  ghost function FirstToken(f: Frame): seq<string>
    requires f.cols != [] && f.cols[0].choices != []
  {
    Token(f.cols[0].choices[0], f.cols[0].literal)
  }

  /** Only the kinds of the columns that gave a choice decide how many tokens there are. */
  lemma {:induction false} KindsDecide(a: seq<Frame>, b: seq<Frame>)
    requires FramesOk(a) && FramesOk(b) && |a| == |b|
    requires forall i | 0 <= i < |a| :: a[i].cols[0].literal == b[i].cols[0].literal
    ensures Dynamic(a) == Dynamic(b)
  {
    if |a| > 1 {
      KindsDecide(a[..|a| - 1], b[..|b| - 1]);
    }
  }

  lemma PrependConcat(p: string, ts: seq<string>, a: seq<GlobResult>, b: seq<GlobResult>)
    ensures Prepend(p, ts, a + b) == Prepend(p, ts, a) + Prepend(p, ts, b)
  {
  }

  lemma PrependTwice(p: string, ts: seq<string>, q: string, us: seq<string>, rs: seq<GlobResult>)
    ensures Prepend(p, ts, Prepend(q, us, rs)) == Prepend(p + q, ts + us, rs)
  {
    forall i | 0 <= i < |rs|
      ensures Prepend(p, ts, Prepend(q, us, rs))[i] == Prepend(p + q, ts + us, rs)[i]
    {
      assert p + (q + rs[i].result) == (p + q) + rs[i].result;
      assert ts + (us + rs[i].tokens) == (ts + us) + rs[i].tokens;
    }
  }

  lemma PrependNothing(rs: seq<GlobResult>)
    ensures Prepend("", [], rs) == rs
  {
    forall i | 0 <= i < |rs|
      ensures Prepend("", [], rs)[i] == rs[i]
    {
      assert "" + rs[i].result == rs[i].result;
      assert [] + rs[i].tokens == rs[i].tokens;
    }
  }

  /** Taking the first choice splits a frame's product in two. */
  lemma FrameSplits(f: Frame, tokens: seq<string>)
    requires f.cols != [] && f.cols[0].choices != []
    ensures Prepend(f.prefix, tokens, Product(f.cols))
         == Prepend(Deeper(f).prefix, tokens + FirstToken(f), Product(f.cols[1..]))
            + Prepend(f.prefix, tokens, Product(Advanced(f).cols))
    ensures FrameWork(Advanced(f).cols) + 1 + FrameWork(f.cols[1..]) == FrameWork(f.cols)
  {
    var c, rest := f.cols[0].choices[0], Product(f.cols[1..]);
    assert Advanced(f).cols[1..] == f.cols[1..];
    PrependConcat(f.prefix, tokens, Prepend(c, FirstToken(f), rest), Product(Advanced(f).cols));
    PrependTwice(f.prefix, tokens, c, FirstToken(f), rest);
    var n, w := |f.cols[0].choices|, 1 + FrameWork(f.cols[1..]);
    assert n * w == (n - 1) * w + w;
  }

  /** Replacing the top frame keeps what lies below. */
  lemma TopReplaced(stack: seq<Frame>, tokens: seq<string>, f: Frame)
    requires WalkOk(stack, tokens) && stack != [] && f.cols != []
    ensures WalkOk(stack[|stack| - 1 := f], tokens)
    ensures Remaining(stack[|stack| - 1 := f], tokens)
         == Prepend(f.prefix, tokens, Product(f.cols)) + Remaining(stack[..|stack| - 1], Popped(stack, tokens))
    ensures Work(stack[|stack| - 1 := f]) == FrameWork(f.cols) + Work(stack[..|stack| - 1])
  {
    var s' := stack[|stack| - 1 := f];
    assert s'[..|s'| - 1] == stack[..|stack| - 1];
    assert WalkOk(s', tokens);
    assert Popped(s', tokens) == Popped(stack, tokens);
  }

  lemma Pushed(stack: seq<Frame>, tokens: seq<string>, f: Frame, more: seq<string>)
    requires WalkOk(stack, tokens) && stack != [] && f.cols != []
    requires |more| == if stack[|stack| - 1].cols[0].literal then 0 else 1
    ensures WalkOk(stack + [f], tokens + more)
    ensures Remaining(stack + [f], tokens + more)
         == Prepend(f.prefix, tokens + more, Product(f.cols)) + Remaining(stack, tokens)
    ensures Work(stack + [f]) == FrameWork(f.cols) + Work(stack)
  {
    assert (stack + [f])[..|stack|] == stack;
    assert Popped(stack + [f], tokens + more) == tokens;
  }

  lemma PushStep(stack: seq<Frame>, tokens: seq<string>)
    requires WalkOk(stack, tokens) && stack != []
    requires var f := stack[|stack| - 1]; f.cols[0].choices != [] && |f.cols| > 1
    ensures var f := stack[|stack| - 1];
            var s', t' := stack[|stack| - 1 := Advanced(f)] + [Deeper(f)], tokens + FirstToken(f);
            WalkOk(s', t') && Remaining(s', t') == Remaining(stack, tokens) && Work(s') < Work(stack)
  {
    var f := stack[|stack| - 1];
    FrameSplits(f, tokens);
    TopReplaced(stack, tokens, Advanced(f));
    var s1 := stack[|stack| - 1 := Advanced(f)];
    Pushed(s1, tokens, Deeper(f), FirstToken(f));
    ConcatAssociates(Prepend(Deeper(f).prefix, tokens + FirstToken(f), Product(f.cols[1..])),
                     Prepend(f.prefix, tokens, Product(Advanced(f).cols)),
                     Remaining(stack[..|stack| - 1], Popped(stack, tokens)));
  }

  lemma YieldStep(stack: seq<Frame>, tokens: seq<string>)
    requires WalkOk(stack, tokens) && stack != []
    requires var f := stack[|stack| - 1]; f.cols[0].choices != [] && |f.cols| == 1
    ensures var f := stack[|stack| - 1];
            var s' := stack[|stack| - 1 := Advanced(f)];
            && WalkOk(s', tokens)
            && Remaining(stack, tokens)
               == [GlobResult(Deeper(f).prefix, tokens + FirstToken(f))] + Remaining(s', tokens)
  {
    var f := stack[|stack| - 1];
    FrameSplits(f, tokens);
    TopReplaced(stack, tokens, Advanced(f));
    assert Product(f.cols[1..]) == [GlobResult("", [])];
    PrependToEmpty(Deeper(f).prefix, tokens + FirstToken(f));
    ConcatAssociates([GlobResult(Deeper(f).prefix, tokens + FirstToken(f))],
                     Prepend(f.prefix, tokens, Product(Advanced(f).cols)),
                     Remaining(stack[..|stack| - 1], Popped(stack, tokens)));
  }

  lemma PrependToEmpty(p: string, ts: seq<string>)
    ensures Prepend(p, ts, [GlobResult("", [])]) == [GlobResult(p, ts)]
  {
    assert p + "" == p;
    assert ts + [] == ts;
  }

  lemma PopStep(stack: seq<Frame>, tokens: seq<string>)
    requires WalkOk(stack, tokens) && stack != []
    requires stack[|stack| - 1].cols[0].choices == []
    ensures Remaining(stack[..|stack| - 1], Popped(stack, tokens)) == Remaining(stack, tokens)
    ensures Work(stack[..|stack| - 1]) < Work(stack)
  {
  }
}
