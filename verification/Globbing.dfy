/** The closure made from a parsed URL pattern: each call gives the next member
    of the Cartesian product of the generators' choices. */
module Globbing {
  import opened Basics
  import opened Wrappers
  import opened Generators
  import opened Cartesian

  datatype GenFrame = GenFrame(prefix: string, gens: seq<Gen>)

  predicate AllTyped(gens: seq<Gen>) { forall i | 0 <= i < |gens| :: gens[i].Typed() }

  predicate AllFinite(gens: seq<Gen>) { forall i | 0 <= i < |gens| :: gens[i].Finite() }

  predicate StackTyped(stack: seq<GenFrame>) {
    forall i | 0 <= i < |stack| :: stack[i].gens != [] && AllTyped(stack[i].gens)
  }

  predicate StackFinite(stack: seq<GenFrame>) { forall i | 0 <= i < |stack| :: AllFinite(stack[i].gens) }

  // ---------------------------------------------- generators seen as columns

  /** The column is what the generator will give, or the beginning of it. */
  ghost predicate GenShows(g: Gen, c: Column)
    requires g.Typed()
  {
    c.literal == g.StaticGen? && if c.whole then Emits(g, c.choices) else Offers(g, c.choices)
  }

  ghost predicate GensShow(gens: seq<Gen>, cols: seq<Column>)
    requires AllTyped(gens)
  {
    |cols| == |gens| && forall i | 0 <= i < |gens| :: GenShows(gens[i], cols[i])
  }

  ghost predicate FrameShows(f: GenFrame, shown: Frame)
    requires AllTyped(f.gens)
  {
    f.prefix == shown.prefix && GensShow(f.gens, shown.cols)
  }

  ghost predicate Shows(stack: seq<GenFrame>, fs: seq<Frame>)
    requires StackTyped(stack)
  {
    |fs| == |stack| && forall i | 0 <= i < |stack| :: FrameShows(stack[i], fs[i])
  }

  /** Nothing known of what the generators will give. */
  ghost function BlankColumns(gens: seq<Gen>): (cols: seq<Column>)
    ensures |cols| == |gens|
    ensures forall i | 0 <= i < |gens| :: cols[i] == Column([], gens[i].StaticGen?, false)
  {
    seq(|gens|, i requires 0 <= i < |gens| => Column([], gens[i].StaticGen?, false))
  }

  ghost function Blank(stack: seq<GenFrame>): (fs: seq<Frame>)
    ensures |fs| == |stack|
    ensures forall i | 0 <= i < |stack| :: fs[i] == Frame(stack[i].prefix, BlankColumns(stack[i].gens))
  {
    seq(|stack|, i requires 0 <= i < |stack| => Frame(stack[i].prefix, BlankColumns(stack[i].gens)))
  }

  /** All the choices of finite generators, as the columns of a product. */
  ghost function Columns(gens: seq<Gen>): (cols: seq<Column>)
    requires AllFinite(gens)
    ensures |cols| == |gens|
    ensures forall i | 0 <= i < |gens| :: cols[i] == Column(gens[i].Choices(), gens[i].StaticGen?, true)
  {
    seq(|gens|, i requires 0 <= i < |gens| => Column(gens[i].Choices(), gens[i].StaticGen?, true))
  }

  ghost function Frames(stack: seq<GenFrame>): (fs: seq<Frame>)
    requires StackFinite(stack)
    ensures |fs| == |stack|
    ensures forall i | 0 <= i < |stack| :: fs[i] == Frame(stack[i].prefix, Columns(stack[i].gens))
  {
    seq(|stack|, i requires 0 <= i < |stack| => Frame(stack[i].prefix, Columns(stack[i].gens)))
  }

  ghost predicate AllWhole(fs: seq<Frame>) {
    forall i, j | 0 <= i < |fs| && 0 <= j < |fs[i].cols| :: fs[i].cols[j].whole
  }

  lemma ColumnsShow(gens: seq<Gen>)
    requires AllFinite(gens)
    ensures GensShow(gens, Columns(gens))
  {
    forall i | 0 <= i < |gens|
      ensures GenShows(gens[i], Columns(gens)[i])
    {
      FiniteEmitsChoices(gens[i]);
    }
  }

  /** Finite generators show one thing only: their choices. */
  lemma OnlyColumnsShow(gens: seq<Gen>, cols: seq<Column>)
    requires AllFinite(gens) && GensShow(gens, cols)
    requires forall j | 0 <= j < |cols| :: cols[j].whole
    ensures cols == Columns(gens)
  {
    forall i | 0 <= i < |gens|
      ensures cols[i] == Columns(gens)[i]
    {
      assert GenShows(gens[i], cols[i]);
      FiniteEmitsChoices(gens[i]);
      EmittedIsUnique(gens[i], cols[i].choices, gens[i].Choices());
    }
  }

  lemma FramesShow(stack: seq<GenFrame>)
    requires StackFinite(stack) && StackTyped(stack)
    ensures Shows(stack, Frames(stack)) && AllWhole(Frames(stack))
  {
    forall i | 0 <= i < |stack|
      ensures FrameShows(stack[i], Frames(stack)[i])
    {
      ColumnsShow(stack[i].gens);
    }
  }

  lemma OnlyFramesShow(stack: seq<GenFrame>, fs: seq<Frame>)
    requires StackFinite(stack) && StackTyped(stack) && Shows(stack, fs) && AllWhole(fs)
    ensures fs == Frames(stack)
  {
    forall i | 0 <= i < |stack|
      ensures fs[i] == Frames(stack)[i]
    {
      assert FrameShows(stack[i], fs[i]);
      OnlyColumnsShow(stack[i].gens, fs[i].cols);
    }
  }

  // -------------------------------------------------------- one turn of the loop

  /** The frame below the top has a token that goes when the top frame is closed. */
  ghost predicate TokenToPop(stack: seq<GenFrame>)
    requires StackTyped(stack)
  {
    |stack| > 1 && !stack[|stack| - 2].gens[0].StaticGen?
  }

  /** The closure returned by make_glob_generator: a copyable value whose call
      operator updates what it captured. */
  datatype GlobState = GlobState(stack: seq<GenFrame>, tokens: seq<string>) {
    /** No frame is without generators, and there is a token for each generator
        below the top that is not literal text. */
    ghost predicate Ready() { Steady() && WalkOk(Blank(stack), tokens) }

    /** What one turn of the loop relies on. */
    ghost predicate Steady() { StackTyped(stack) && (TokenToPop(stack) ==> tokens != []) }

    /** No generator goes on for ever. */
    ghost predicate Valid() { Ready() && StackFinite(stack) }

    /** The results of all calls still to come. */
    ghost function Pending(): seq<GlobResult>
      requires Valid()
    {
      FramesShow(stack);
      ShownIsReady(this, Frames(stack));
      Remaining(Frames(stack), tokens)
    }
  }

  lemma ShownIsReady(g: GlobState, fs: seq<Frame>)
    requires StackTyped(g.stack) && Shows(g.stack, fs)
    ensures FramesOk(fs) && (g.Ready() <==> WalkOk(fs, g.tokens))
  {
    var bs := Blank(g.stack);
    forall i | 0 <= i < |fs|
      ensures fs[i].cols != [] && bs[i].cols != [] && fs[i].cols[0].literal == bs[i].cols[0].literal
    {
      assert FrameShows(g.stack[i], fs[i]);
      assert GenShows(g.stack[i].gens[0], fs[i].cols[0]);
    }
    KindsDecide(fs, bs);
    if TokenToPop(g.stack) {
      assert !fs[|fs| - 2].cols[0].literal;
    }
  }

  /** A call gives the first of what was pending and leaves the rest; when
      nothing is pending it gives nothing and nothing becomes pending. */
  ghost predicate Takes<T>(before: seq<T>, r: Option<T>, after: seq<T>) {
    match r
    case None => before == [] && after == []
    case Some(x) => before == [x] + after
  }

  function Top(stack: seq<GenFrame>): GenFrame
    requires stack != []
  {
    stack[|stack| - 1]
  }

  /** The stack after the top frame's first generator was called. */
  function Called(stack: seq<GenFrame>): (s: seq<GenFrame>)
    requires StackTyped(stack) && stack != []
    ensures StackTyped(s)
  {
    stack[|stack| - 1 := Top(stack).(gens := Top(stack).gens[0 := Top(stack).gens[0].Pull().1])]
  }

  /** How one turn of the loop in the call operator ends. */
  datatype Progress = Returned(r: Option<GlobResult>, g: GlobState) | GoesOn(g: GlobState)

  ghost function Step(g: GlobState): Progress
    requires g.Steady()
  {
    if g.stack == [] then Returned(None, g)
    else
      var n, top := |g.stack| - 1, Top(g.stack);
      var o := top.gens[0].Pull().0;
      if o.None? then
        GoesOn(GlobState(g.stack[..n], if TokenToPop(g.stack) then g.tokens[..|g.tokens| - 1] else g.tokens))
      else
        var tokens := g.tokens + Token(o.value, top.gens[0].StaticGen?);
        if |top.gens| == 1 then
          Returned(Some(GlobResult(top.prefix + o.value, tokens)), GlobState(Called(g.stack), g.tokens))
        else GoesOn(GlobState(Called(g.stack) + [GenFrame(top.prefix + o.value, top.gens[1..])], tokens))
  }

  /** The view of a stack after a turn. */
  ghost function NextView(fs: seq<Frame>): (fs': seq<Frame>)
    requires FramesOk(fs)
    ensures FramesOk(fs')
  {
    if fs == [] then []
    else
      var n := |fs| - 1;
      if fs[n].cols[0].choices == [] then fs[..n]
      else if |fs[n].cols| == 1 then fs[n := Advanced(fs[n])]
      else fs[n := Advanced(fs[n])] + [Deeper(fs[n])]
  }

  /** Calling a generator takes the first choice of any column it shows. */
  lemma PullShown(g: Gen, c: Column)
    requires g.Typed() && GenShows(g, c) && c.choices != []
    ensures g.Pull().0 == Some(c.choices[0]) && GenShows(g.Pull().1, c.Rest())
  {
  }

  lemma CalledShows(stack: seq<GenFrame>, fs: seq<Frame>)
    requires StackTyped(stack) && stack != [] && Shows(stack, fs) && FramesOk(fs)
    requires fs[|fs| - 1].cols[0].choices != []
    ensures Shows(Called(stack), fs[|fs| - 1 := Advanced(fs[|fs| - 1])])
    ensures Top(stack).gens[0].Pull().0 == Some(fs[|fs| - 1].cols[0].choices[0])
  {
    var f, top := fs[|fs| - 1], Top(stack);
    assert FrameShows(top, f);
    PullShown(top.gens[0], f.cols[0]);
    assert FrameShows(Top(Called(stack)), Advanced(f));
  }

  lemma PushedShows(stack: seq<GenFrame>, fs: seq<Frame>, f: GenFrame, shown: Frame)
    requires StackTyped(stack) && Shows(stack, fs)
    requires f.gens != [] && AllTyped(f.gens) && FrameShows(f, shown)
    ensures StackTyped(stack + [f]) && Shows(stack + [f], fs + [shown])
  {
  }

  /** The top frame's view knows whether its generator has a choice. */
  ghost predicate Telling(fs: seq<Frame>)
    requires FramesOk(fs)
  {
    fs == [] || fs[|fs| - 1].cols[0].choices != [] || fs[|fs| - 1].cols[0].whole
  }

  /** What one turn does to a view: either it completes the first of the
      remaining results, or it leaves them as they were and does some work. */
  ghost predicate StepsAlong(g: GlobState, fs: seq<Frame>, to: Progress)
    requires StackTyped(g.stack) && Shows(g.stack, fs) && g.Ready()
  {
    ShownIsReady(g, fs);
    var fs' := NextView(fs);
    && to.g.Ready()
    && Shows(to.g.stack, fs')
    && WalkOk(fs', to.g.tokens)
    && match to
       case Returned(r, h) => Takes(Remaining(fs, g.tokens), r, Remaining(fs', h.tokens))
       case GoesOn(h) => Remaining(fs', h.tokens) == Remaining(fs, g.tokens) && Work(fs') < Work(fs)
  }

  lemma StepShown(g: GlobState, fs: seq<Frame>)
    requires g.Ready() && Shows(g.stack, fs) && FramesOk(fs) && Telling(fs)
    ensures StepsAlong(g, fs, Step(g))
  {
    ShownIsReady(g, fs);
    if fs != [] {
      assert FrameShows(Top(g.stack), fs[|fs| - 1]);
      assert GenShows(Top(g.stack).gens[0], fs[|fs| - 1].cols[0]);
      if fs[|fs| - 1].cols[0].choices == [] {
        PopShown(g, fs);
      } else if |fs[|fs| - 1].cols| == 1 {
        YieldShown(g, fs);
      } else {
        PushShown(g, fs);
      }
    }
  }

  /** An exhausted generator closes its frame. */
  lemma PopShown(g: GlobState, fs: seq<Frame>)
    requires g.Ready() && Shows(g.stack, fs) && FramesOk(fs) && fs != []
    requires fs[|fs| - 1].cols[0].choices == [] && Top(g.stack).gens[0].Pull().0.None?
    ensures StepsAlong(g, fs, Step(g))
  {
    ShownIsReady(g, fs);
    PopStep(fs, g.tokens);
    var n := |fs| - 1;
    var h := Step(g).g;
    assert Shows(h.stack, fs[..n]);
    if n > 0 {
      assert FrameShows(g.stack[n - 1], fs[n - 1]);
      assert GenShows(g.stack[n - 1].gens[0], fs[n - 1].cols[0]);
    }
    assert h.tokens == Popped(fs, g.tokens);
    ShownIsReady(h, fs[..n]);
  }

  lemma YieldedStack(g: GlobState, fs: seq<Frame>) returns (h: GlobState)
    requires g.Steady() && Shows(g.stack, fs) && FramesOk(fs) && fs != []
    requires fs[|fs| - 1].cols[0].choices != [] && |fs[|fs| - 1].cols| == 1
    ensures var f := fs[|fs| - 1];
            Step(g) == Returned(Some(GlobResult(Deeper(f).prefix, g.tokens + FirstToken(f))), h)
    ensures h.tokens == g.tokens && StackTyped(h.stack) && Shows(h.stack, NextView(fs))
  {
    CalledShows(g.stack, fs);
    assert FrameShows(Top(g.stack), fs[|fs| - 1]);
    assert GenShows(Top(g.stack).gens[0], fs[|fs| - 1].cols[0]);
    h := Step(g).g;
  }

  /** A choice of the last generator completes a result. */
  lemma YieldShown(g: GlobState, fs: seq<Frame>)
    requires g.Ready() && Shows(g.stack, fs) && FramesOk(fs) && fs != []
    requires fs[|fs| - 1].cols[0].choices != [] && |fs[|fs| - 1].cols| == 1
    ensures StepsAlong(g, fs, Step(g))
  {
    ShownIsReady(g, fs);
    var h := YieldedStack(g, fs);
    YieldStep(fs, g.tokens);
    ShownIsReady(h, NextView(fs));
  }

  lemma PushedStack(g: GlobState, fs: seq<Frame>) returns (h: GlobState)
    requires g.Steady() && Shows(g.stack, fs) && FramesOk(fs) && fs != []
    requires fs[|fs| - 1].cols[0].choices != [] && |fs[|fs| - 1].cols| > 1
    ensures Step(g) == GoesOn(h) && h.tokens == g.tokens + FirstToken(fs[|fs| - 1])
    ensures StackTyped(h.stack) && Shows(h.stack, NextView(fs))
  {
    var top, f := Top(g.stack), fs[|fs| - 1];
    CalledShows(g.stack, fs);
    assert FrameShows(top, f);
    assert GenShows(top.gens[0], f.cols[0]);
    var deeper := GenFrame(top.prefix + f.cols[0].choices[0], top.gens[1..]);
    assert FrameShows(deeper, Deeper(f));
    PushedShows(Called(g.stack), fs[|fs| - 1 := Advanced(f)], deeper, Deeper(f));
    h := Step(g).g;
  }

  /** A choice of an earlier generator opens a deeper frame. */
  lemma PushShown(g: GlobState, fs: seq<Frame>)
    requires g.Ready() && Shows(g.stack, fs) && FramesOk(fs) && fs != []
    requires fs[|fs| - 1].cols[0].choices != [] && |fs[|fs| - 1].cols| > 1
    ensures StepsAlong(g, fs, Step(g))
  {
    ShownIsReady(g, fs);
    var h := PushedStack(g, fs);
    PushStep(fs, g.tokens);
    ShownIsReady(h, NextView(fs));
  }

  // ------------------------------------------------ generators that do not stop

  ghost predicate NoneEmpty(cols: seq<Column>) { forall j | 0 <= j < |cols| :: cols[j].choices != [] }

  /** Choices of column `p` are either never asked for, or lead to a result at once. */
  ghost predicate Unblocked(cols: seq<Column>, p: nat)
    requires p < |cols|
  {
    !NoneEmpty(cols[..p]) || NoneEmpty(cols[p + 1..])
  }

  /** Columns known in part have `k` choices to spare. */
  ghost predicate AmpleFrame(f: Frame, k: nat) {
    forall p | 0 <= p < |f.cols| && !f.cols[p].whole :: |f.cols[p].choices| >= k && Unblocked(f.cols, p)
  }

  ghost predicate Ample(fs: seq<Frame>, k: nat) { forall i | 0 <= i < |fs| :: AmpleFrame(fs[i], k) }

  /** The state of a view within a call: once a choice was taken from a column
      known in part, the next result is reached without closing a frame. */
  ghost predicate Supplied(fs: seq<Frame>, k: nat, once: bool)
    requires k >= 1
  {
    if once then
      fs != [] && AmpleFrame(fs[|fs| - 1], k) && NoneEmpty(fs[|fs| - 1].cols) && Ample(fs[..|fs| - 1], k - 1)
    else Ample(fs, k)
  }

  /** Taking a choice of the first column blocks no other. */
  lemma StillUnblocked(first: Column, first': Column, rest: seq<Column>, p: nat)
    requires p < 1 + |rest| && first.choices != [] && Unblocked([first] + rest, p)
    ensures Unblocked([first'] + rest, p)
  {
    var cols, cols' := [first] + rest, [first'] + rest;
    assert cols'[p + 1..] == cols[p + 1..];
    if !NoneEmpty(cols[..p]) {
      var j :| 0 <= j < p && cols[..p][j].choices == [];
      assert cols'[..p][j].choices == [];
    }
  }

  lemma AdvancedIsAmple(f: Frame, k: nat)
    requires k >= 1 && AmpleFrame(f, k) && f.cols != [] && f.cols[0].choices != []
    ensures AmpleFrame(Advanced(f), if f.cols[0].whole then k else k - 1)
  {
    var cols, cols' := f.cols, Advanced(f).cols;
    assert cols == [cols[0]] + cols[1..];
    forall p | 0 <= p < |cols'| && !cols'[p].whole
      ensures Unblocked(cols', p)
    {
      assert Unblocked(cols, p);
      StillUnblocked(cols[0], cols[0].Rest(), cols[1..], p);
    }
  }

  lemma DeeperIsAmple(f: Frame, k: nat)
    requires k >= 1 && AmpleFrame(f, k) && f.cols != [] && f.cols[0].choices != []
    ensures AmpleFrame(Deeper(f), k)
    ensures !f.cols[0].whole || NoneEmpty(f.cols) ==> NoneEmpty(Deeper(f).cols)
  {
    var cols, cols' := f.cols, Deeper(f).cols;
    forall p | 0 <= p < |cols'| && !cols'[p].whole
      ensures |cols'[p].choices| >= k && Unblocked(cols', p)
    {
      assert Unblocked(cols, p + 1);
      assert cols'[p + 1..] == cols[p + 2..];
      if !NoneEmpty(cols[..p + 1]) {
        var j :| 0 <= j < p + 1 && cols[..p + 1][j].choices == [];
        assert cols'[..p][j - 1].choices == [];
      }
    }
    if !f.cols[0].whole {
      assert Unblocked(cols, 0);
    }
  }

  lemma LessIsAmple(fs: seq<Frame>, k: nat)
    requires k >= 1 && Ample(fs, k)
    ensures Ample(fs, k - 1)
  {
    forall i | 0 <= i < |fs|
      ensures AmpleFrame(fs[i], k - 1)
    {
      assert AmpleFrame(fs[i], k);
    }
  }

  lemma AmpleConcat(a: seq<Frame>, f: Frame, k: nat)
    requires Ample(a, k) && AmpleFrame(f, k)
    ensures Ample(a + [f], k)
  {
  }

  /** The frames below the top, with the top frame after it gave a choice. */
  lemma AdvancedSupplies(below: seq<Frame>, f: Frame, k: nat, once: bool)
    requires k >= 1 && AmpleFrame(f, k) && f.cols != [] && f.cols[0].choices != []
    requires Ample(below, if once then k - 1 else k)
    ensures Ample(below + [Advanced(f)], k - 1)
    ensures !once && f.cols[0].whole ==> Ample(below + [Advanced(f)], k)
  {
    AdvancedIsAmple(f, k);
    if !once && f.cols[0].whole {
      AmpleConcat(below, Advanced(f), k);
      LessIsAmple(below + [Advanced(f)], k);
    } else {
      if !once { LessIsAmple(below, k); }
      if f.cols[0].whole { LessIsAmple([Advanced(f)], k); }
      assert AmpleFrame([Advanced(f)][0], k - 1);
      AmpleConcat(below, Advanced(f), k - 1);
    }
  }

  lemma PushSupplies(below: seq<Frame>, f: Frame, k: nat, once: bool)
    requires k >= 1 && AmpleFrame(f, k) && f.cols != [] && f.cols[0].choices != []
    requires Ample(below, if once then k - 1 else k) && (once ==> NoneEmpty(f.cols))
    ensures Supplied((below + [Advanced(f)]) + [Deeper(f)], k, once || !f.cols[0].whole)
  {
    AdvancedSupplies(below, f, k, once);
    DeeperIsAmple(f, k);
    var mid := below + [Advanced(f)];
    assert (mid + [Deeper(f)])[..|mid|] == mid;
    if !once && f.cols[0].whole {
      AmpleConcat(mid, Deeper(f), k);
    }
  }

  /** The view's top frame completes a result in this turn, or there is no frame. */
  ghost predicate Final(fs: seq<Frame>)
    requires FramesOk(fs)
  {
    fs == [] || (fs[|fs| - 1].cols[0].choices != [] && |fs[|fs| - 1].cols| == 1)
  }

  ghost predicate Tapped(fs: seq<Frame>, once: bool)
    requires FramesOk(fs)
  {
    once || (fs != [] && !fs[|fs| - 1].cols[0].whole)
  }

  /** A turn keeps the supply; a call uses up at most one choice of each column. */
  lemma StepSupplies(fs: seq<Frame>, k: nat, once: bool)
    requires FramesOk(fs) && k >= 1 && Supplied(fs, k, once)
    ensures Telling(fs)
    ensures Final(fs) ==> Ample(NextView(fs), k - 1)
    ensures !Final(fs) ==> Supplied(NextView(fs), k, Tapped(fs, once))
  {
    if fs != [] {
      var n, f := |fs| - 1, fs[|fs| - 1];
      assert AmpleFrame(f, k);
      if f.cols[0].choices != [] {
        assert fs[n := Advanced(f)] == fs[..n] + [Advanced(f)];
        if |f.cols| == 1 {
          AdvancedSupplies(fs[..n], f, k, once);
        } else {
          PushSupplies(fs[..n], f, k, once);
        }
      }
    }
  }

  // ------------------------------------------------------------------ the closure

  lemma FreshShown(gens: seq<Gen>, cols: seq<Column>)
    requires gens != [] && AllTyped(gens) && GensShow(gens, cols)
    ensures GlobState([GenFrame("", gens)], []).Ready()
    ensures Shows([GenFrame("", gens)], [Frame("", cols)]) && WalkOk([Frame("", cols)], [])
    ensures Remaining([Frame("", cols)], []) == Product(cols)
  {
    var g, fs := GlobState([GenFrame("", gens)], []), [Frame("", cols)];
    assert FrameShows(g.stack[0], fs[0]);
    ShownIsReady(g, fs);
    PrependNothing(Product(cols));
    assert Remaining(fs[..0], []) == [];
  }

  /** A fresh closure has the product of its generators' columns before it,
      whatever part of them is looked at. */
  method MakeGenerator(gens: seq<Gen>) returns (g: GlobState)
    requires gens != [] && AllTyped(gens)
    ensures g.Ready()
    ensures forall cols | GensShow(gens, cols) ::
              var fs := [Frame("", cols)];
              Shows(g.stack, fs) && WalkOk(fs, g.tokens) && Remaining(fs, g.tokens) == Product(cols)
    ensures AllFinite(gens) ==> g.Valid() && g.Pending() == Product(Columns(gens))
  {
    g := GlobState([GenFrame("", gens)], []);
    FreshShown(gens, BlankColumns(gens));
    forall cols | GensShow(gens, cols)
      ensures var fs := [Frame("", cols)];
              Shows(g.stack, fs) && WalkOk(fs, g.tokens) && Remaining(fs, g.tokens) == Product(cols)
    {
      FreshShown(gens, cols);
    }
    if AllFinite(gens) {
      ColumnsShow(gens);
      FreshShown(gens, Columns(gens));
      assert Frames(g.stack) == [Frame("", Columns(gens))];
    }
  }

  lemma LiteralProduct(url: string)
    ensures Product(Columns([StaticGen(Some(url))])) == [GlobResult(url, [])]
  {
    var cols := Columns([StaticGen(Some(url))]);
    assert cols == [Column([url], true, true)];
    assert Product(cols[1..]) == [GlobResult("", [])];
    PrependToEmpty(url, []);
    assert Rows(cols[0].Rest(), [GlobResult("", [])]) == [];
  }

  /** The generator used when globbing is switched off: the URL itself, once. */
  method MakeOneShot(url: string) returns (g: GlobState)
    ensures g.Valid() && g.Pending() == [GlobResult(url, [])]
  {
    LiteralProduct(url);
    g := MakeGenerator([StaticGen(Some(url))]);
  }

  lemma StepKeepsFinite(g: GlobState)
    requires g.Valid()
    ensures StackFinite(Step(g).g.stack)
  {
    if g.stack != [] {
      PullTakesFirstChoice(Top(g.stack).gens[0]);
    }
  }

  lemma StepKeepsWhole(fs: seq<Frame>)
    requires FramesOk(fs) && AllWhole(fs)
    ensures AllWhole(NextView(fs))
  {
  }

  /** A call underway: the closure, a view of it, and the results still to come. */
  ghost predicate Underway(g: GlobState, fs: seq<Frame>, finite: bool, rest: seq<GlobResult>) {
    && g.Ready()
    && Shows(g.stack, fs)
    && WalkOk(fs, g.tokens)
    && Remaining(fs, g.tokens) == rest
    && (finite ==> StackFinite(g.stack) && AllWhole(fs))
  }

  lemma OneTurn(g: GlobState, fs: seq<Frame>, k: nat, once: bool, finite: bool, rest: seq<GlobResult>)
    requires Underway(g, fs, finite, rest) && k >= 1 && Supplied(fs, k, once)
    ensures match Step(g)
            case Returned(r, h) =>
              && h.Ready() && WalkOk(NextView(fs), h.tokens)
              && Underway(h, NextView(fs), finite, Remaining(NextView(fs), h.tokens))
              && Takes(rest, r, Remaining(NextView(fs), h.tokens))
              && Ample(NextView(fs), k - 1)
            case GoesOn(h) =>
              && fs != []
              && Underway(h, NextView(fs), finite, rest)
              && Supplied(NextView(fs), k, Tapped(fs, once))
              && Work(NextView(fs)) < Work(fs)
  {
    StepSupplies(fs, k, once);
    StepShown(g, fs);
    ReturnsIfFinal(g, fs);
    if finite {
      StepKeepsFinite(g);
      StepKeepsWhole(fs);
    }
  }

  lemma ReturnsIfFinal(g: GlobState, fs: seq<Frame>)
    requires g.Steady() && Shows(g.stack, fs) && FramesOk(fs) && Telling(fs)
    ensures Step(g).Returned? <==> Final(fs)
  {
    if fs != [] {
      PullTells(g.stack, fs);
    }
  }

  lemma PullTells(stack: seq<GenFrame>, fs: seq<Frame>)
    requires StackTyped(stack) && Shows(stack, fs) && FramesOk(fs) && fs != [] && Telling(fs)
    ensures |Top(stack).gens| == |fs[|fs| - 1].cols|
    ensures Top(stack).gens[0].Pull().0.Some? <==> fs[|fs| - 1].cols[0].choices != []
  {
    assert FrameShows(Top(stack), fs[|fs| - 1]);
    assert GenShows(Top(stack).gens[0], fs[|fs| - 1].cols[0]);
  }

  /** The body of the call operator's loop. */
  method TakeTurn(g: GlobState) returns (p: Progress)
    requires g.Steady() && g.stack != []
    ensures p == Step(g)
  {
    var stack, tokens, top := g.stack, g.tokens, |g.stack| - 1;
    var prefix, gens := stack[top].prefix, stack[top].gens;
    var (o, first) := gens[0].Pull();
    stack := stack[top := GenFrame(prefix, gens[0 := first])];
    if o.Some? {
      if |gens| == 1 {
        var tmp := tokens;
        if !gens[0].StaticGen? {
          tmp := tmp + [o.value];
        }
        assert tmp == g.tokens + Token(o.value, gens[0].StaticGen?);
        return Returned(Some(GlobResult(prefix + o.value, tmp)), GlobState(stack, tokens));
      }
      if !gens[0].StaticGen? {
        tokens := tokens + [o.value];
      }
      assert tokens == g.tokens + Token(o.value, gens[0].StaticGen?);
      stack := stack + [GenFrame(prefix + o.value, gens[1..])];
    } else {
      stack := stack[..top];
      assert stack == g.stack[..top];
      if stack != [] && !stack[top - 1].gens[0].StaticGen? {
        tokens := tokens[..|tokens| - 1];
      }
    }
    p := GoesOn(GlobState(stack, tokens));
  }

  /** One call, for generators that may or may not stop: as long as the view
      has a choice to spare, the call gives the first of the remaining results
      and leaves the rest. It ends because every turn does some of the work. */
  method Call(g: GlobState, ghost fs: seq<Frame>, ghost k: nat)
    returns (r: Option<GlobResult>, g': GlobState, ghost fs': seq<Frame>)
    requires g.Ready() && Shows(g.stack, fs) && WalkOk(fs, g.tokens)
    requires k >= 1 && Ample(fs, k)
    ensures g'.Ready() && Shows(g'.stack, fs') && WalkOk(fs', g'.tokens)
    ensures Ample(fs', k - 1)
    ensures Takes(Remaining(fs, g.tokens), r, Remaining(fs', g'.tokens))
    ensures g.Valid() && AllWhole(fs) ==> g'.Valid() && AllWhole(fs')
  {
    ghost var rest, finite, once := Remaining(fs, g.tokens), g.Valid() && AllWhole(fs), false;
    g', fs' := g, fs;
    while g'.stack != []
      invariant Underway(g', fs', finite, rest) && Supplied(fs', k, once)
      decreases Work(fs')
    {
      OneTurn(g', fs', k, once, finite, rest);
      once := Tapped(fs', once);
      fs' := NextView(fs');
      var p := TakeTurn(g');
      g' := p.g;
      if p.Returned? {
        return p.r, g', fs';
      }
    }
    OneTurn(g', fs', k, once, finite, rest);
    r, fs' := None, NextView(fs');
  }

  /** One call when every generator stops. */
  method CallFinite(g: GlobState) returns (r: Option<GlobResult>, g': GlobState)
    requires g.Valid()
    ensures g'.Valid()
    ensures Takes(g.Pending(), r, g'.Pending())
  {
    ghost var fs := Frames(g.stack);
    FramesShow(g.stack);
    ShownIsReady(g, fs);
    ghost var fs';
    r, g', fs' := Call(g, fs, 1);
    OnlyFramesShow(g'.stack, fs');
  }

  /** Calling until nothing comes collects the whole product, in order. */
  method ExpandAll(gens: seq<Gen>) returns (all: seq<GlobResult>)
    requires gens != [] && AllFinite(gens)
    ensures all == Product(Columns(gens)) && |all| == Size(Columns(gens))
    ensures SpelledOut(Columns(gens), all)
  {
    var g := MakeGenerator(gens);
    all := [];
    var more := true;
    while more
      invariant g.Valid() && all + g.Pending() == Product(Columns(gens))
      invariant !more ==> g.Pending() == []
      decreases |g.Pending()|, more
    {
      var o, g' := CallFinite(g);
      if o.Some? {
        ConcatAssociates(all, [o.value], g'.Pending());
        all := all + [o.value];
      }
      g, more := g', o.Some?;
    }
    ProductSize(Columns(gens));
    ProductIsSpelledOut(Columns(gens), |all|);
    assert all[..|all|] == all;
  }
}
