/** The four choice generators of a URL pattern. */
module Generators {
  import opened Wrappers
  import Decimal
  import Euclid

  /** A counter of a fixed-width integer type with values `min..max`. */
  datatype Span = Span(low: int, high: int, step: int, min: int, max: int) {
    predicate Typed() {
      && min <= low <= max
      && min <= high <= max
      && 0 <= step <= max - min
    }

    /** `low + step` converted back to the type, wrapping around. */
    function Advance(): (s: Span)
      requires Typed()
      ensures s.Typed()
    {
      this.(low := if low + step > max then low + step - (max - min + 1) else low + step)
    }

    /** The counter passes `high` before it passes the largest value of its type. */
    predicate NoWrap()
      decreases high - low
    {
      low > high || (step >= 1 && low + step <= max && this.(low := low + step).NoWrap())
    }
  }

  /** A choice generator. The source copies generators by value together with
      the vector that holds them, so they are values here too. */
  datatype Gen =
    | RangeGen(width: nat, span: Span)
    | CharGen(span: Span)
    | SetGen(items: seq<string>, next: nat)
    | StaticGen(text: Option<string>)
  {
    predicate Numeric() { RangeGen? || CharGen? }

    predicate Typed() {
      match this
      case RangeGen(w, s) => w < 256 && s.Typed() && s.min == 0 && s.max == 0xFFFF_FFFF_FFFF_FFFF
      case CharGen(s) => s.Typed() && s.min == -128 && s.max == 127
      case SetGen(items, next) => next <= |items|
      case StaticGen(_) => true
    }

    predicate Finite() { Typed() && (Numeric() ==> span.NoWrap()) }

    function WithSpan(s: Span): Gen
      requires Numeric()
    {
      if RangeGen? then RangeGen(width, s) else CharGen(s)
    }

    /** The text a numeric generator makes of a counter value. */
    function Render(v: int): string
      requires Typed() && Numeric() && span.min <= v <= span.max
    {
      if RangeGen? then Padded(width, Decimal.Show(v)) else [(if v < 0 then v + 256 else v) as char]
    }

    /** One call: the text, if any, and the generator afterwards. */
    function Pull(): (r: (Option<string>, Gen))
      requires Typed()
      ensures r.1.Typed() && r.1.StaticGen? == StaticGen?
    {
      match this
      case SetGen(items, next) =>
        if next == |items| then (None, this) else (Some(items[next]), SetGen(items, next + 1))
      case StaticGen(text) => (text, StaticGen(None))
      case _ =>
        if span.low > span.high then (None, this)
        else (Some(Render(span.low)), WithSpan(span.Advance()))
    }

    /** Everything the generator has still to offer, in order. */
    function Choices(): seq<string>
      requires Finite()
      decreases if Numeric() then span.high - span.low else 0
    {
      match this
      case SetGen(items, next) => items[next..]
      case StaticGen(text) => if text.Some? then [text.value] else []
      case _ =>
        if span.low > span.high then []
        else [Render(span.low)] + WithSpan(span.(low := span.low + span.step)).Choices()
    }
  }

  function Padded(width: nat, s: string): string {
    if width > |s| then seq(width - |s|, _ => '0') + s else s
  }

  /** Padding keeps the number and reaches the width of the pattern's lower bound. */
  lemma PaddingKeepsNumber(width: nat, n: nat)
    ensures var s := Padded(width, Decimal.Show(n));
            && Decimal.AllDigits(s) && Decimal.Value(s) == n
            && |s| == if width > |Decimal.Show(n)| then width else |Decimal.Show(n)|
  {
    var t := Decimal.Show(n);
    Decimal.ShowIsCanonical(n);
    if width > |t| {
      LeadingZeros(width - |t|, t);
    }
  }

  lemma {:induction false} LeadingZeros(k: nat, s: string)
    requires Decimal.AllDigits(s)
    ensures var z := seq(k, _ => '0') + s; Decimal.AllDigits(z) && Decimal.Value(z) == Decimal.Value(s)
    decreases |s|, k
  {
    var z := seq(k, _ => '0') + s;
    if s != [] {
      LeadingZeros(k, s[..|s| - 1]);
      assert z[..|z| - 1] == seq(k, _ => '0') + s[..|s| - 1];
    } else if k > 0 {
      LeadingZeros(k - 1, s);
      assert z[..|z| - 1] == seq(k - 1, _ => '0') + s;
    }
  }

  /** A numeric generator offers the arithmetic progression low, low + step, ...
      up to high, in the decimal or character notation of its kind. */
  lemma {:induction false} ChoicesAreTheProgression(g: Gen, i: nat)
    requires g.Finite() && g.Numeric() && g.span.step >= 1
    ensures i < |g.Choices()| <==> Member(g.span, i) <= g.span.high
    ensures i < |g.Choices()| ==> g.span.min <= Member(g.span, i) && g.Choices()[i] == g.Render(Member(g.span, i))
    decreases i
  {
    var s := g.span;
    MemberStep(s, i);
    if s.low <= s.high && i > 0 {
      ChoicesAreTheProgression(g.WithSpan(s.(low := s.low + s.step)), i - 1);
    }
  }

  /** What a call of a numeric range gives: the counter in decimal, with zeros in front
      up to the width and no others. */
  lemma PullGivesNumber(g: Gen)
    requires g.Typed() && g.RangeGen? && g.span.low <= g.span.high
    ensures g.Pull().0.Some?
    ensures var text := g.Pull().0.value;
            && Decimal.AllDigits(text) && Decimal.Value(text) == g.span.low && |text| >= g.width
            && (|text| > g.width ==> Decimal.Canonical(text))
  {
    PaddingKeepsNumber(g.width, g.span.low);
    Decimal.ShowIsCanonical(g.span.low);
  }

  /** What a call of a character range gives: the character the counter stands for. */
  lemma PullGivesCharacter(g: Gen)
    requires g.Typed() && g.CharGen? && g.span.low <= g.span.high
    ensures g.Pull().0.Some?
    ensures var text := g.Pull().0.value;
            |text| == 1 && text[0] as int == if g.span.low < 0 then g.span.low + 256 else g.span.low
  {
  }

  /** The i-th text of a numeric range is the number low + i * step, as wide as the
      pattern's lower bound; that of a character range is the character. */
  lemma TextsOfRange(g: Gen, i: nat)
    requires g.Finite() && g.Numeric() && g.span.step >= 1 && i < |g.Choices()|
    ensures var text, v := g.Choices()[i], g.span.low + i * g.span.step;
            && v <= g.span.high
            && (g.RangeGen? ==>
                  && Decimal.AllDigits(text) && Decimal.Value(text) == v && |text| >= g.width
                  && (|text| > g.width ==> Decimal.Canonical(text)))
            && (g.CharGen? ==> |text| == 1 && text[0] as int == if v < 0 then v + 256 else v)
  {
    ChoicesAreTheProgression(g, i);
    var at := g.WithSpan(g.span.(low := Member(g.span, i)));
    if g.RangeGen? {
      PullGivesNumber(at);
    } else {
      PullGivesCharacter(at);
    }
  }

  /** A fresh set gives its items in order, a literal text itself, once. */
  lemma FreshChoices(items: seq<string>, text: string)
    ensures SetGen(items, 0).Choices() == items
    ensures StaticGen(Some(text)).Choices() == [text]
  {
    assert items[0..] == items;
  }

  ghost function Member(s: Span, i: nat): int { s.low + i * s.step }

  lemma MemberStep(s: Span, i: nat)
    requires s.step >= 1
    ensures Member(s, 0) == s.low
    ensures Member(s, i) >= s.low
    ensures i > 0 ==> Member(s, i) == Member(s.(low := s.low + s.step), i - 1)
  {
    if i > 0 {
      assert i * s.step == (i - 1) * s.step + s.step;
    }
  }

  /** A finite generator hands out exactly its choices, one per call, and after
      the last it gives nothing for ever. */
  lemma PullTakesFirstChoice(g: Gen)
    requires g.Finite()
    ensures g.Pull().1.Finite()
    ensures g.Choices() == [] ==> g.Pull().0.None? && g.Pull().1.Choices() == []
    ensures g.Choices() != [] ==> g.Pull().0 == Some(g.Choices()[0]) && g.Pull().1.Choices() == g.Choices()[1..]
  {
  }

  /** The generator, called repeatedly, gives `xs` and then nothing. */
  ghost predicate Emits(g: Gen, xs: seq<string>)
    requires g.Typed()
    decreases |xs|
  {
    if xs == [] then g.Pull().0.None?
    else g.Pull().0 == Some(xs[0]) && Emits(g.Pull().1, xs[1..])
  }

  /** The generator, called repeatedly, gives `xs` first. */
  ghost predicate Offers(g: Gen, xs: seq<string>)
    requires g.Typed()
    decreases |xs|
  {
    xs == [] || (g.Pull().0 == Some(xs[0]) && Offers(g.Pull().1, xs[1..]))
  }

  ghost predicate Endless(g: Gen)
    requires g.Typed()
  {
    forall xs :: !Emits(g, xs)
  }

  lemma EndlessGoesOn(g: Gen)
    requires g.Typed() && Endless(g)
    ensures g.Pull().0.Some? && Endless(g.Pull().1)
  {
    assert !Emits(g, []);
    forall xs
      ensures !Emits(g.Pull().1, xs)
    {
      var more := [g.Pull().0.value] + xs;
      assert more[1..] == xs && !Emits(g, more);
    }
  }

  /** The first `n` texts of a generator that does not stop. */
  ghost function Front(g: Gen, n: nat): (xs: seq<string>)
    requires g.Typed() && Endless(g)
    ensures |xs| == n && Offers(g, xs)
    decreases n
  {
    if n == 0 then []
    else
      EndlessGoesOn(g);
      var xs := Front(g.Pull().1, n - 1);
      assert ([g.Pull().0.value] + xs)[1..] == xs;
      [g.Pull().0.value] + xs
  }

  /** What a generator gives before it stops is unique, and of a finite one it
      is its choices. */
  lemma {:induction false} EmittedIsUnique(g: Gen, xs: seq<string>, ys: seq<string>)
    requires g.Typed() && Emits(g, xs) && Emits(g, ys)
    ensures xs == ys
    decreases |xs|
  {
    if xs != [] && ys != [] {
      EmittedIsUnique(g.Pull().1, xs[1..], ys[1..]);
    }
  }

  lemma {:induction false} FiniteEmitsChoices(g: Gen)
    requires g.Finite()
    ensures Emits(g, g.Choices())
    decreases |g.Choices()|
  {
    PullTakesFirstChoice(g);
    if g.Choices() != [] {
      FiniteEmitsChoices(g.Pull().1);
    }
  }

  /** The progression a numeric generator is meant to offer, were its counter unbounded. */
  ghost function Intended(g: Gen): seq<string>
    requires g.Typed() && g.Numeric() && g.span.step >= 1
    decreases g.span.high - g.span.low
  {
    var s := g.span;
    if s.low > s.high then []
    else if s.low + s.step > s.high then [g.Render(s.low)]
    else [g.Render(s.low)] + Intended(g.WithSpan(s.(low := s.low + s.step)))
  }

  /** The last member of the progression that does not exceed `high`, plus one
      step: the value that ends the counting. */
  ghost function Overshoot(s: Span): int
    requires s.step >= 1
  {
    s.high - (s.high - s.low) % s.step + s.step
  }

  lemma {:induction false} NoWrapIffOvershootFits(s: Span)
    requires s.step >= 1 && s.low <= s.high <= s.max
    ensures s.NoWrap() <==> Overshoot(s) <= s.max
    decreases s.high - s.low
  {
    var s' := s.(low := s.low + s.step);
    if s'.low > s.high {
      Euclid.SmallRemainder(s.high - s.low, s.step);
      assert s'.NoWrap();
    } else {
      assert Overshoot(s') == Overshoot(s) by { Euclid.ShiftKeepsRemainder(s.high - s.low, -1, s.step); }
      NoWrapIffOvershootFits(s');
    }
  }

  /** A numeric generator with a positive step offers its progression and then
      stops exactly when the value that ends the counting fits the type. */
  lemma EmitsIntendedIff(g: Gen)
    requires g.Typed() && g.Numeric() && g.span.step >= 1
    ensures Emits(g, Intended(g)) <==> (g.span.low > g.span.high || Overshoot(g.span) <= g.span.max)
  {
    EmitsIffNoWrap(g);
    if g.span.low <= g.span.high {
      NoWrapIffOvershootFits(g.span);
    }
  }

  lemma {:induction false} EmitsIffNoWrap(g: Gen)
    requires g.Typed() && g.Numeric() && g.span.step >= 1
    ensures Emits(g, Intended(g)) <==> g.span.NoWrap()
    decreases g.span.high - g.span.low
  {
    var s := g.span;
    var xs := Intended(g);
    if s.low > s.high {
    } else if s.low + s.step > s.high {
      assert xs[1..] == [];
      assert Emits(g, xs) <==> Emits(g.Pull().1, []);
    } else {
      var g' := g.WithSpan(s.(low := s.low + s.step));
      assert g.Pull() == (Some(g.Render(s.low)), g');
      assert xs[1..] == Intended(g');
      EmitsIffNoWrap(g');
    }
  }

  /** A zero step never reaches the end of a non-empty range. */
  lemma {:induction false} ZeroStepNeverEnds(g: Gen, xs: seq<string>)
    requires g.Typed() && g.Numeric() && g.span.step == 0 && g.span.low <= g.span.high
    ensures !Emits(g, xs)
  {
    if xs != [] {
      ZeroStepNeverEnds(g, xs[1..]);
    }
  }

  /** `[w-z:10]`: after "w" the signed counter wraps to -127 and goes on. */
  lemma CharCounterWraps()
    ensures var g := CharGen(Span('w' as int, 'z' as int, 10, -128, 127));
            g.Pull().1.span.low == -127 && !Emits(g, Intended(g))
  {
    EmitsIntendedIff(CharGen(Span('w' as int, 'z' as int, 10, -128, 127)));
  }

  // ------------------------------------------------- which generators never end

  /** The largest value of the type that counting in these steps can reach, with
      wrapping around. */
  function Highest(s: Span): int
    requires s.Typed()
  {
    s.max - (s.max - s.low) % Euclid.Gcd(s.step, s.max - s.min + 1)
  }

  /** A range goes on for ever when it is not empty and nothing it reaches lies
      beyond its upper bound. */
  predicate Cyclic(s: Span)
    requires s.Typed()
  {
    s.low <= s.high && Highest(s) <= s.high
  }

  predicate NeverEnds(g: Gen)
    requires g.Typed()
  {
    g.Numeric() && Cyclic(g.span)
  }

  /** It is a multiple of the divisor above the counter. */
  lemma HighestIsAbove(s: Span) returns (q: nat)
    requires s.Typed()
    ensures Highest(s) == s.low + q * Euclid.Gcd(s.step, s.max - s.min + 1) <= s.max
  {
    q := (s.max - s.low) / Euclid.Gcd(s.step, s.max - s.min + 1);
  }

  /** Counting on does not change it. */
  lemma HighestStays(s: Span)
    requires s.Typed()
    ensures Highest(s.Advance()) == Highest(s)
  {
    var a, m := s.max - s.low, s.max - s.min + 1;
    var i, j := Euclid.GcdDivides(s.step, m);
    SameRemainders(a, s.step, m, i, j, Euclid.Gcd(s.step, m));
  }

  lemma SameRemainders(a: int, step: int, m: int, i: int, j: int, d: int)
    requires step == i * d && m == j * d && d >= 1
    ensures (a - step) % d == a % d && (a - step + m) % d == a % d
  {
    Euclid.ShiftKeepsRemainder(a, -i, d);
    Euclid.ShiftKeepsRemainder(a, j - i, d);
    assert (j - i) * d == m - step;
  }

  lemma RemainderAtMost(a: nat, d: nat)
    requires d >= 1
    ensures 0 <= a % d <= a
  {
    if a < d {
      Euclid.SmallRemainder(a, d);
    }
  }

  lemma HighestInRange(s: Span)
    requires s.Typed()
    ensures s.low <= Highest(s) <= s.max
  {
    RemainderAtMost(s.max - s.low, Euclid.Gcd(s.step, s.max - s.min + 1));
  }

  lemma CyclicStays(s: Span)
    requires s.Typed() && Cyclic(s)
    ensures Cyclic(s.Advance())
  {
    HighestStays(s);
    HighestInRange(s.Advance());
  }

  lemma NeverEndsStays(g: Gen)
    requires g.Typed() && NeverEnds(g)
    ensures g.Pull().0.Some? && NeverEnds(g.Pull().1)
  {
    CyclicStays(g.span);
  }

  lemma {:induction false} NeverEndsMeans(g: Gen, xs: seq<string>)
    requires g.Typed() && NeverEnds(g)
    ensures !Emits(g, xs)
    decreases |xs|
  {
    NeverEndsStays(g);
    if xs != [] {
      NeverEndsMeans(g.Pull().1, xs[1..]);
    }
  }

  /** The counter after `n` calls, were it never stopped. */
  ghost function Later(s: Span, n: nat): (l: Span)
    requires s.Typed()
    ensures l.Typed() && l == s.(low := l.low)
    decreases n
  {
    if n == 0 then s else Later(s.Advance(), n - 1)
  }

  lemma {:induction false} LaterIs(s: Span, n: nat) returns (k: int)
    requires s.Typed()
    ensures Later(s, n).low == s.low + n * s.step + k * (s.max - s.min + 1)
    decreases n
  {
    if n == 0 {
      k := 0;
    } else {
      var m := s.max - s.min + 1;
      k := LaterIs(s.Advance(), n - 1);
      assert n * s.step == s.step + (n - 1) * s.step;
      if s.low + s.step > s.max {
        assert (k - 1) * m == k * m - m;
        k := k - 1;
      }
    }
  }

  /** Some later value of the counter is the highest. */
  lemma HighestIsReached(s: Span) returns (n: nat)
    requires s.Typed()
    ensures Later(s, n).low == Highest(s)
  {
    var m := s.max - s.min + 1;
    var q := HighestIsAbove(s);
    var k;
    n, k := Euclid.MultipleIsReached(s.step, m, q);
    LaterLands(s, n, q * Euclid.Gcd(s.step, m), k, Highest(s));
  }

  lemma LaterLands(s: Span, n: nat, up: int, k: int, top: int)
    requires s.Typed() && n * s.step == up + k * (s.max - s.min + 1)
    requires top == s.low + up && s.min <= top <= s.max
    ensures Later(s, n).low == top
  {
    var k' := LaterIs(s, n);
    LandsOn(s.min, s.low, n * s.step, up, k, k', s.max - s.min + 1, top, Later(s, n).low);
  }

  lemma LandsOn(min: int, low: int, moved: int, up: int, k: int, k': int, m: int, top: int, later: int)
    requires moved == up + k * m && later == low + moved + k' * m && top == low + up
    requires min <= top < min + m && min <= later < min + m
    ensures later == top
  {
    Euclid.SameInRange(top - min, later - min, k, k', m);
  }

  lemma {:induction false} StopsBeyond(g: Gen, n: nat) returns (xs: seq<string>)
    requires g.Typed() && g.Numeric() && Later(g.span, n).low > g.span.high
    ensures Emits(g, xs)
    decreases n
  {
    xs := [];
    if g.span.low <= g.span.high {
      var rest := StopsBeyond(g.Pull().1, n - 1);
      xs := [g.Pull().0.value] + rest;
      assert xs[1..] == rest;
    }
  }

  /** Exactly which generators never end, from their bounds, step and type alone:
      sets and literal text always end. */
  lemma EndlessIff(g: Gen)
    requires g.Typed()
    ensures Endless(g) <==> NeverEnds(g)
  {
    if NeverEnds(g) {
      forall xs
        ensures !Emits(g, xs)
      {
        NeverEndsMeans(g, xs);
      }
    } else if !g.Numeric() {
      FiniteEmitsChoices(g);
    } else {
      var n := 0;
      if g.span.low <= g.span.high {
        n := HighestIsReached(g.span);
      }
      var xs := StopsBeyond(g, n);
    }
  }

  /** `[w-z:10]` wraps around and ends nevertheless. */
  lemma WrapsAndStillEnds()
    ensures !Endless(CharGen(Span('w' as int, 'z' as int, 10, -128, 127)))
  {
    var s := Span('w' as int, 'z' as int, 10, -128, 127);
    assert Highest(s) == 127 by {
      assert Euclid.Gcd(10, 256) == Euclid.Gcd(256, 10) == Euclid.Gcd(10, 6) == Euclid.Gcd(6, 4);
      assert Euclid.Gcd(6, 4) == Euclid.Gcd(4, 2) == Euclid.Gcd(2, 0) == 2;
    }
    EndlessIff(CharGen(s));
  }

  /** `[0-18446744073709551615]` never ends, though its step is one. */
  lemma FullRangeNeverEnds(width: nat)
    requires width < 256
    ensures Endless(RangeGen(width, Span(0, 0xFFFF_FFFF_FFFF_FFFF, 1, 0, 0xFFFF_FFFF_FFFF_FFFF)))
  {
    EndlessIff(RangeGen(width, Span(0, 0xFFFF_FFFF_FFFF_FFFF, 1, 0, 0xFFFF_FFFF_FFFF_FFFF)));
  }
}
