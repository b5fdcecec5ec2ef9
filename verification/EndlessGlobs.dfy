/** URL patterns with ranges that do not stop: which calls of the closure return,
    and what they give. */
module EndlessGlobs {
  import opened Basics
  import opened Wrappers
  import opened Generators
  import opened Cartesian
  import opened Globbing

  predicate Gives(g: Gen)
    requires g.Typed()
  {
    g.Pull().0.Some?
  }

  /** Generator `p` does not stop, is reached, and generator `q` after it gives nothing. */
  predicate Blocks(gens: seq<Gen>, p: nat, q: nat)
    requires AllTyped(gens)
  {
    p < q < |gens| && NeverEnds(gens[p]) && (forall j | 0 <= j < p :: Gives(gens[j])) && !Gives(gens[q])
  }

  /** A generator that does not stop, once it is reached, is followed only by
      generators that give something. Bounds, steps and types decide it. */
  predicate Productive(gens: seq<Gen>)
    requires AllTyped(gens)
  {
    forall p, q | 0 <= p < q < |gens| :: !Blocks(gens, p, q)
  }

  /** All that a generator gives, or the first `n` texts if it does not stop. */
  ghost function ColumnOf(g: Gen, n: nat): (c: Column)
    requires g.Typed()
    ensures GenShows(g, c)
    ensures !c.whole <==> NeverEnds(g)
    ensures !c.whole ==> |c.choices| == n
  {
    EndlessIff(g);
    if NeverEnds(g) then Column(Front(g, n), g.StaticGen?, false)
    else
      var xs :| Emits(g, xs);
      Column(xs, g.StaticGen?, true)
  }

  ghost function View(gens: seq<Gen>, n: nat): (cols: seq<Column>)
    requires AllTyped(gens)
    ensures |cols| == |gens| && forall i | 0 <= i < |gens| :: cols[i] == ColumnOf(gens[i], n)
  {
    seq(|gens|, i requires 0 <= i < |gens| => ColumnOf(gens[i], n))
  }

  lemma ViewTells(g: Gen, n: nat)
    requires g.Typed() && n >= 1
    ensures ColumnOf(g, n).choices != [] <==> Gives(g)
  {
    assert GenShows(g, ColumnOf(g, n));
  }

  /** The view of productive generators supports `n` calls. */
  lemma ViewIsAmple(gens: seq<Gen>, n: nat)
    requires AllTyped(gens) && Productive(gens) && n >= 1
    ensures AmpleFrame(Frame("", View(gens, n)), n)
  {
    var cols := View(gens, n);
    forall i | 0 <= i < |gens|
      ensures cols[i].choices != [] <==> Gives(gens[i])
    {
      ViewTells(gens[i], n);
    }
    forall p | 0 <= p < |cols| && !cols[p].whole
      ensures Unblocked(cols, p)
    {
      if NoneEmpty(cols[..p]) {
        forall j | 0 <= j < p
          ensures Gives(gens[j])
        {
          assert cols[..p][j].choices != [];
        }
        forall q | p < q < |cols|
          ensures cols[q].choices != []
        {
          assert !Blocks(gens, p, q);
        }
      }
    }
  }

  /** The first `n` calls give the first `n` members of the product of what the
      generators give, each cut off after `n` texts if it does not stop. */
  method FirstResults(gens: seq<Gen>, n: nat) returns (out: seq<GlobResult>)
    requires gens != [] && AllTyped(gens) && Productive(gens)
    ensures var all := Product(View(gens, n));
            |out| == (if n < |all| then n else |all|) && out == all[..|out|]
    ensures SpelledOut(View(gens, n), out)
  {
    out := [];
    if n == 0 {
      return;
    }
    ghost var cols := View(gens, n);
    ViewIsAmple(gens, n);
    var g := MakeGenerator(gens);
    ghost var fs := [Frame("", cols)];
    assert GensShow(gens, cols);
    var more := true;
    while more && |out| < n
      invariant |out| <= n && g.Ready() && Shows(g.stack, fs) && WalkOk(fs, g.tokens)
      invariant more ==> Ample(fs, n - |out|)
      invariant Product(cols) == out + Remaining(fs, g.tokens)
      invariant !more ==> Remaining(fs, g.tokens) == []
      decreases n - |out|, more
    {
      var o;
      o, g, fs := Call(g, fs, n - |out|);
      if o.Some? {
        ConcatAssociates(out, [o.value], Remaining(fs, g.tokens));
        out := out + [o.value];
      } else {
        more := false;
      }
    }
    ProductIsSpelledOut(cols, |out|);
    assert out == Product(cols)[..|out|];
  }

  lemma {:induction false} SizeAtLeast(cols: seq<Column>, p: nat)
    requires p < |cols| && NoneEmpty(cols)
    ensures Size(cols) >= |cols[p].choices|
  {
    var rest := cols[1..];
    assert NoneEmpty(rest);
    if p > 0 {
      SizeAtLeast(rest, p - 1);
      TimesMonotone(1, |cols[0].choices|, Size(rest));
    } else {
      SizePositive(rest);
      TimesMonotone(1, Size(rest), |cols[0].choices|);
    }
  }

  lemma {:induction false} SizePositive(cols: seq<Column>)
    requires NoneEmpty(cols)
    ensures Size(cols) >= 1
  {
    if cols != [] {
      assert NoneEmpty(cols[1..]);
      SizePositive(cols[1..]);
      TimesMonotone(1, |cols[0].choices|, Size(cols[1..]));
    }
  }

  /** With a generator that does not stop, and none that gives nothing, every
      one of the first `n` calls gives a result. */
  lemma NeverRunsOut(gens: seq<Gen>, p: nat, n: nat)
    requires AllTyped(gens) && p < |gens| && NeverEnds(gens[p])
    requires forall j | 0 <= j < |gens| :: Gives(gens[j])
    ensures Productive(gens) && |Product(View(gens, n))| >= n
  {
    var cols := View(gens, n);
    if n >= 1 {
      forall i | 0 <= i < |gens|
        ensures cols[i].choices != []
      {
        ViewTells(gens[i], n);
      }
      SizeAtLeast(cols, p);
    }
    ProductSize(cols);
  }

  ghost function Fresh(gens: seq<Gen>): (g: GlobState)
    requires gens != [] && AllTyped(gens)
    ensures g.Ready()
  {
    FreshShown(gens, BlankColumns(gens));
    GlobState([GenFrame("", gens)], [])
  }

  /** Every turn leaves what the next one relies on, so a call that does not
      return has no last turn. */
  lemma StepKeepsReady(g: GlobState)
    requires g.Ready()
    ensures Step(g).g.Ready()
  {
    var fs := seq(|g.stack|, i requires 0 <= i < |g.stack| => Frame(g.stack[i].prefix, View(g.stack[i].gens, 1)));
    forall i | 0 <= i < |g.stack|
      ensures FrameShows(g.stack[i], fs[i])
    {
    }
    ShownIsReady(g, fs);
    StepShown(g, fs);
  }

  /** `h` is the closure after one turn of a call on `g` that goes on. */
  ghost predicate LeadsTo(g: GlobState, h: GlobState) { g.Ready() && Step(g) == GoesOn(h) }

  /** The turns of a call, one after the other. */
  ghost predicate IsTrace(turns: seq<GlobState>) {
    forall i | 0 < i < |turns| :: LeadsTo(turns[i - 1], turns[i])
  }

  /** The turns of a whole call on `g`: the last of them returns. */
  ghost predicate IsCall(g: GlobState, turns: seq<GlobState>) {
    && turns != [] && turns[0] == g && IsTrace(turns)
    && var last := turns[|turns| - 1];
       last.Ready() && Step(last).Returned?
  }

  ghost predicate CallReturns(g: GlobState) { exists turns :: IsCall(g, turns) }

  /** A turn of a call that can return: it returns, or goes on with less work. */
  lemma OneTurnDown(g: GlobState, fs: seq<Frame>, once: bool, rest: seq<GlobResult>)
    returns (h: GlobState, fs': seq<Frame>, once': bool)
    requires Underway(g, fs, false, rest) && Supplied(fs, 1, once)
    ensures Step(g).Returned?
         || (LeadsTo(g, h) && Underway(h, fs', false, rest) && Supplied(fs', 1, once') && Work(fs') < Work(fs))
  {
    OneTurn(g, fs, 1, once, false, rest);
    h, fs', once' := Step(g).g, NextView(fs), Tapped(fs, once);
  }

  lemma OneTurnMore(g: GlobState, h: GlobState, turns: seq<GlobState>)
    requires LeadsTo(g, h) && IsCall(h, turns)
    ensures IsCall(g, [g] + turns)
  {
    var all := [g] + turns;
    forall i | 0 < i < |all|
      ensures LeadsTo(all[i - 1], all[i])
    {
      if i > 1 {
        assert LeadsTo(turns[i - 2], turns[i - 1]);
      }
    }
  }

  lemma {:induction false} SuppliedCallReturns(g: GlobState, fs: seq<Frame>, once: bool, rest: seq<GlobResult>)
    returns (turns: seq<GlobState>)
    requires Underway(g, fs, false, rest) && Supplied(fs, 1, once)
    ensures IsCall(g, turns)
    decreases Work(fs)
  {
    var h, fs', once' := OneTurnDown(g, fs, once, rest);
    if Step(g).Returned? {
      turns := [g];
    } else {
      turns := SuppliedCallReturns(h, fs', once', rest);
      OneTurnMore(g, h, turns);
      turns := [g] + turns;
    }
  }

  /** Frame `i` holds the generators from the `i`-th on, of which only the first was called. */
  ghost predicate Suffixes(gens: seq<Gen>, stack: seq<GenFrame>) {
    forall i | 0 <= i < |stack| ::
      i < |gens| && |stack[i].gens| == |gens| - i && stack[i].gens[1..] == gens[i + 1..]
  }

  lemma SuffixesPush(gens: seq<Gen>, stack: seq<GenFrame>, prefix: string)
    requires StackTyped(stack) && Suffixes(gens, stack) && 0 < |stack| < |gens|
    ensures var more := Top(stack).gens[1..];
            && more != [] && more[0] == gens[|stack|]
            && StackTyped(Called(stack) + [GenFrame(prefix, more)])
            && Suffixes(gens, Called(stack) + [GenFrame(prefix, more)])
  {
    var t, top := |stack| - 1, Top(stack);
    assert top.gens[1..] == gens[t + 1..];
    assert gens[t + 1..][1..] == gens[t + 2..];
    assert Top(Called(stack)).gens[1..] == top.gens[1..];
  }

  /** The walk moves between `p` and `q`: it cannot pass `q` and cannot leave `p`. */
  ghost predicate Caught(gens: seq<Gen>, p: nat, q: nat, stack: seq<GenFrame>)
    requires AllTyped(gens) && Blocks(gens, p, q) && StackTyped(stack)
  {
    && 0 < |stack| <= q + 1
    && Suffixes(gens, stack)
    && (if |stack| <= p then Top(stack).gens[0] == gens[|stack| - 1] else NeverEnds(stack[p].gens[0]))
    && (|stack| == q + 1 ==> !Gives(Top(stack).gens[0]))
  }

  lemma CaughtPush(gens: seq<Gen>, p: nat, q: nat, stack: seq<GenFrame>, prefix: string)
    requires AllTyped(gens) && Blocks(gens, p, q) && StackTyped(stack) && Caught(gens, p, q, stack)
    requires Gives(Top(stack).gens[0])
    ensures |Top(stack).gens| > 1
    ensures var s' := Called(stack) + [GenFrame(prefix, Top(stack).gens[1..])];
            StackTyped(s') && Caught(gens, p, q, s')
  {
    var t := |stack| - 1;
    assert t < q;
    SuffixesPush(gens, stack, prefix);
    if t == p {
      NeverEndsStays(Top(stack).gens[0]);
    }
  }

  lemma NeverEndsGives(g: Gen)
    requires g.Typed()
    ensures NeverEnds(g) ==> Gives(g)
  {
  }

  lemma CaughtPop(gens: seq<Gen>, p: nat, q: nat, stack: seq<GenFrame>)
    requires AllTyped(gens) && Blocks(gens, p, q) && StackTyped(stack) && Caught(gens, p, q, stack)
    requires !Gives(Top(stack).gens[0])
    ensures Caught(gens, p, q, stack[..|stack| - 1])
  {
    var t := |stack| - 1;
    NeverEndsGives(Top(stack).gens[0]);
    assert t > p;
    assert NeverEnds(stack[..t][p].gens[0]);
  }

  /** What a turn that goes on does to the stack: it closes or opens a frame. */
  ghost predicate Moves(stack: seq<GenFrame>, stack': seq<GenFrame>)
    requires StackTyped(stack)
  {
    && stack != []
    && if Gives(Top(stack).gens[0]) then
         exists prefix :: stack' == Called(stack) + [GenFrame(prefix, Top(stack).gens[1..])]
       else stack' == stack[..|stack| - 1]
  }

  lemma LeadsToMoves(g: GlobState, h: GlobState)
    requires LeadsTo(g, h)
    ensures Moves(g.stack, h.stack)
  {
    var top := Top(g.stack);
    if Gives(top.gens[0]) {
      var deeper := GenFrame(top.prefix + top.gens[0].Pull().0.value, top.gens[1..]);
      assert h.stack == Called(g.stack) + [deeper];
    }
  }

  lemma CaughtMoves(gens: seq<Gen>, p: nat, q: nat, stack: seq<GenFrame>, stack': seq<GenFrame>)
    requires AllTyped(gens) && Blocks(gens, p, q) && StackTyped(stack) && Caught(gens, p, q, stack)
    requires Moves(stack, stack')
    ensures StackTyped(stack') && Caught(gens, p, q, stack')
  {
    if Gives(Top(stack).gens[0]) {
      var prefix :| stack' == Called(stack) + [GenFrame(prefix, Top(stack).gens[1..])];
      CaughtPush(gens, p, q, stack, prefix);
    } else {
      CaughtPop(gens, p, q, stack);
    }
  }

  lemma {:induction false} CaughtThroughout(gens: seq<Gen>, p: nat, q: nat, turns: seq<GlobState>, i: nat)
    requires AllTyped(gens) && Blocks(gens, p, q)
    requires IsTrace(turns) && i < |turns|
    requires StackTyped(turns[0].stack) && Caught(gens, p, q, turns[0].stack)
    ensures StackTyped(turns[i].stack) && Caught(gens, p, q, turns[i].stack)
  {
    if i > 0 {
      CaughtThroughout(gens, p, q, turns, i - 1);
      LeadsToMoves(turns[i - 1], turns[i]);
      CaughtMoves(gens, p, q, turns[i - 1].stack, turns[i].stack);
    }
  }

  lemma CaughtGoesOn(gens: seq<Gen>, p: nat, q: nat, g: GlobState)
    requires AllTyped(gens) && Blocks(gens, p, q) && g.Steady() && Caught(gens, p, q, g.stack)
    ensures Step(g).GoesOn?
  {
    if Gives(Top(g.stack).gens[0]) {
      CaughtPush(gens, p, q, g.stack, "");
    }
  }

  lemma BlockedCallRunsOn(gens: seq<Gen>, p: nat, q: nat, turns: seq<GlobState>)
    requires AllTyped(gens) && Blocks(gens, p, q)
    ensures !IsCall(Fresh(gens), turns)
  {
    if IsCall(Fresh(gens), turns) {
      CaughtThroughout(gens, p, q, turns, |turns| - 1);
      CaughtGoesOn(gens, p, q, turns[|turns| - 1]);
      assert false;
    }
  }

  /** The first call returns exactly on productive generators; on these all
      calls do, as FirstResults shows. */
  lemma FirstCallReturnsIff(gens: seq<Gen>)
    requires gens != [] && AllTyped(gens)
    ensures CallReturns(Fresh(gens)) <==> Productive(gens)
  {
    var g := Fresh(gens);
    if Productive(gens) {
      var cols := View(gens, 1);
      assert GensShow(gens, cols);
      FreshShown(gens, cols);
      ViewIsAmple(gens, 1);
      var turns := SuppliedCallReturns(g, [Frame("", cols)], false, Product(cols));
    } else {
      var p: nat, q: nat :| Blocks(gens, p, q);
      forall turns
        ensures !IsCall(g, turns)
      {
        BlockedCallRunsOn(gens, p, q, turns);
      }
    }
  }

  /** `[0-1:0]{}`: the first call does not return. */
  lemma ZeroStepBeforeEmptySet()
    ensures var gens := [RangeGen(1, Span(0, 1, 0, 0, 0xFFFF_FFFF_FFFF_FFFF)), SetGen([], 0)];
            AllTyped(gens) && !CallReturns(Fresh(gens))
  {
    var gens := [RangeGen(1, Span(0, 1, 0, 0, 0xFFFF_FFFF_FFFF_FFFF)), SetGen([], 0)];
    forall xs
      ensures !Emits(gens[0], xs)
    {
      ZeroStepNeverEnds(gens[0], xs);
    }
    EndlessIff(gens[0]);
    assert Blocks(gens, 0, 1);
    FirstCallReturnsIff(gens);
  }
}
