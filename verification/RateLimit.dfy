/** The byte budget of one direction of a stream: every operation is offered at
    most the remaining budget, and an empty budget is refilled after a second. */
module RateLimit {
  import opened Basics
  import opened Wrappers

  const SIZE_MAX: nat := 0xFFFF_FFFF_FFFF_FFFF
  const SECOND: nat := 1000

  /** The one outstanding operation of a direction: none, waiting for the refill
      since some time with a buffer of some size, or in the transport with some
      number of bytes offered. */
  datatype Phase = Idle | Waiting(since: nat, size: nat) | Transferring(offered: nat)

  /** `remain` and `limit` are the stream's fields. The others are bookkeeping:
      the bytes moved, the bytes ever granted, refills, and the time. */
  datatype Dir = Dir(remain: nat, limit: nat, phase: Phase, moved: nat, granted: int, refills: nat, clock: nat)

  const FRESH := Dir(SIZE_MAX, SIZE_MAX, Idle, 0, SIZE_MAX, 0, 0)

  datatype Label =
    | SetLimit(bytes: nat)
    | Begin(size: nat)
    | TimerFires
    | TimerFails
    | Complete(n: nat)
    | Tick

  function Min(a: nat, b: nat): nat { if a < b then a else b }

  /** Unsigned subtraction as the machine does it. */
  function Minus(a: nat, b: nat): (r: nat)
    requires a <= SIZE_MAX && b <= SIZE_MAX
    ensures r <= SIZE_MAX
  {
    if b <= a then a - b else a + SIZE_MAX + 1 - b
  }

  predicate Typed(d: Dir) {
    d.remain <= SIZE_MAX && d.limit <= SIZE_MAX && (d.phase.Transferring? ==> d.phase.offered <= SIZE_MAX)
  }

  /** A second passes before the timer fires; the transport never moves more than
      it was offered. */
  predicate Enabled(d: Dir, l: Label) {
    match l
    case SetLimit(bytes) => bytes <= SIZE_MAX
    case Begin(_) => d.phase.Idle?
    case TimerFires => d.phase.Waiting? && d.clock >= d.phase.since + SECOND
    case TimerFails => d.phase.Waiting?
    case Complete(n) => d.phase.Transferring? && n <= d.phase.offered
    case Tick => true
  }

  /** The effect of a label; a label that is not enabled has none. */
  function Next(d: Dir, l: Label): (d': Dir)
    requires Typed(d)
    ensures Typed(d')
  {
    if !Enabled(d, l) then d
    else
      match l
      case SetLimit(bytes) =>
        d.(limit := bytes, remain := Min(d.remain, bytes), granted := d.granted - (d.remain - Min(d.remain, bytes)))
      case Begin(size) =>
        d.(phase := if d.remain == 0 then Waiting(d.clock, size) else Transferring(Min(size, d.remain)))
      case TimerFires =>
        d.(remain := d.limit, granted := d.granted + d.limit, refills := d.refills + 1,
           phase := Transferring(Min(d.phase.size, d.limit)))
      case TimerFails => d.(phase := Idle)
      case Complete(n) => d.(remain := Minus(d.remain, n), moved := d.moved + n, phase := Idle)
      case Tick => d.(clock := d.clock + 1)
  }

  function Run(d: Dir, ls: seq<Label>): (d': Dir)
    requires Typed(d)
    ensures Typed(d')
    decreases |ls|
  {
    if ls == [] then d else Next(Run(d, ls[..|ls| - 1]), ls[|ls| - 1])
  }

  /** The limit is not lowered below what an operation in flight was offered. */
  predicate Careful(d: Dir, l: Label) {
    l.SetLimit? && d.phase.Transferring? ==> l.bytes >= d.phase.offered
  }

  predicate CarefulRun(d: Dir, ls: seq<Label>)
    requires Typed(d)
    decreases |ls|
  {
    ls == [] || (CarefulRun(d, ls[..|ls| - 1]) && Careful(Run(d, ls[..|ls| - 1]), ls[|ls| - 1]))
  }

  // --------------------------------------------------------------- no underflow

  /** What is left of the grants is the remaining budget, and an operation in
      flight is covered by it. */
  ghost predicate Balanced(d: Dir) {
    && d.moved + d.remain == d.granted
    && (d.phase.Transferring? ==> d.phase.offered <= d.remain)
    && (d.phase.Waiting? ==> d.remain == 0)
  }

  lemma StepStaysBalanced(d: Dir, l: Label)
    requires Typed(d) && Balanced(d) && Careful(d, l)
    ensures Balanced(Next(d, l))
    ensures l.Complete? && Enabled(d, l) ==> l.n <= d.remain
  {
  }

  /** In every careful run the books balance. */
  lemma {:induction false} CarefulRunsBalance(ls: seq<Label>)
    requires CarefulRun(FRESH, ls)
    ensures Balanced(Run(FRESH, ls))
  {
    if ls != [] {
      CarefulRunsBalance(ls[..|ls| - 1]);
      StepStaysBalanced(Run(FRESH, ls[..|ls| - 1]), ls[|ls| - 1]);
    }
  }

  /** So no completion the transport may report underflows the budget. */
  lemma NoUnderflow(ls: seq<Label>, n: nat)
    requires CarefulRun(FRESH, ls) && Enabled(Run(FRESH, ls), Complete(n))
    ensures Next(Run(FRESH, ls), Complete(n)).remain == Run(FRESH, ls).remain - n
  {
    CarefulRunsBalance(ls);
  }

  /** Carefulness is exactly what it takes: after lowering the limit during a
      transfer, some completion the transport may report underflows if and only
      if the limit went below what was offered. */
  lemma UnderflowIffCareless(ls: seq<Label>, bytes: nat)
    requires CarefulRun(FRESH, ls) && Run(FRESH, ls).phase.Transferring? && bytes <= SIZE_MAX
    ensures var d, d' := Run(FRESH, ls), Next(Run(FRESH, ls), SetLimit(bytes));
            (exists n: nat :: Enabled(d', Complete(n)) && n > d'.remain) <==> !Careful(d, SetLimit(bytes))
  {
    CarefulRunsBalance(ls);
    var d := Run(FRESH, ls);
    var d' := Next(d, SetLimit(bytes));
    if !Careful(d, SetLimit(bytes)) {
      assert Enabled(d', Complete(d.phase.offered)) && d.phase.offered > d'.remain;
    }
  }

  /** For instance a limit of ten bytes set while a hundred are being read. */
  lemma UnderflowExample()
    ensures var d := Run(FRESH, [Begin(100), SetLimit(10), Complete(100)]);
            d.moved == 100 && d.remain == SIZE_MAX - 89
  {
    var ls := [Begin(100), SetLimit(10), Complete(100)];
    assert ls[..2] == [Begin(100), SetLimit(10)] && ls[..2][..1] == [Begin(100)] && ls[..2][..1][..0] == [];
    assert Run(FRESH, ls[..2][..1]) == FRESH.(phase := Transferring(100));
    assert Run(FRESH, ls[..2]).remain == 10;
  }

  // ------------------------------------------------------------------ the offers

  /** The limit in force, by the labels of a run. */
  ghost function LimitAfter(ls: seq<Label>): nat {
    if ls == [] then SIZE_MAX
    else
      match ls[|ls| - 1]
      case SetLimit(bytes) => if bytes <= SIZE_MAX then bytes else LimitAfter(ls[..|ls| - 1])
      case _ => LimitAfter(ls[..|ls| - 1])
  }

  /** The buffer size of the last operation that was started. */
  ghost function AskedFor(ls: seq<Label>): Option<nat> {
    if ls == [] then None
    else
      var init, l := ls[..|ls| - 1], ls[|ls| - 1];
      if l.Begin? && Enabled(Run(FRESH, init), l) then Some(l.size) else AskedFor(init)
  }

  lemma {:induction false} LimitAndSize(ls: seq<Label>)
    ensures var d := Run(FRESH, ls);
            && d.limit == LimitAfter(ls)
            && (d.phase.Waiting? ==> AskedFor(ls) == Some(d.phase.size))
  {
    if ls != [] {
      LimitAndSize(ls[..|ls| - 1]);
    }
  }

  /** An operation that finds a budget is offered as much of it as it asks for; one
      that finds none waits, and after the refill is offered as much as it asked for
      and the limit allows. */
  lemma OfferIsBudgetOrLimit(ls: seq<Label>, size: nat)
    ensures var d := Run(FRESH, ls);
            && (d.phase.Idle? && d.remain > 0 ==>
                  Next(d, Begin(size)).phase == Transferring(if size <= d.remain then size else d.remain))
            && (d.phase.Idle? && d.remain == 0 ==> Next(d, Begin(size)).phase == Waiting(d.clock, size))
            && (Enabled(d, TimerFires) ==>
                  && AskedFor(ls).Some?
                  && var asked, limit := AskedFor(ls).value, LimitAfter(ls);
                     && Next(d, TimerFires).phase == Transferring(if asked <= limit then asked else limit)
                     && Next(d, TimerFires).remain == limit)
  {
    LimitAndSize(ls);
  }

  // ------------------------------------------------------------------ the bound

  /** No limit is set after the first label. */
  predicate LimitSetOnce(limit: nat, ls: seq<Label>) {
    ls != [] && ls[0] == SetLimit(limit) && forall i | 1 <= i < |ls| :: !ls[i].SetLimit?
  }

  ghost predicate Steady(d: Dir, limit: nat) {
    && Balanced(d)
    && d.limit == limit
    && d.granted == (d.refills + 1) * limit
    && d.refills * SECOND <= (if d.phase.Waiting? then d.phase.since else d.clock)
    && (d.phase.Waiting? ==> d.phase.since <= d.clock)
  }

  lemma StepStaysSteady(d: Dir, l: Label, limit: nat)
    requires Typed(d) && Steady(d, limit) && !l.SetLimit?
    ensures Steady(Next(d, l), limit)
  {
    StepStaysBalanced(d, l);
    assert (d.refills + 2) * limit == (d.refills + 1) * limit + limit;
  }

  lemma {:induction false} OnceSetStaysSteady(limit: nat, ls: seq<Label>)
    requires limit <= SIZE_MAX && LimitSetOnce(limit, ls)
    ensures Steady(Run(FRESH, ls), limit)
    decreases |ls|
  {
    if |ls| == 1 {
      assert ls[..0] == [];
      assert Run(FRESH, ls) == Next(FRESH, SetLimit(limit));
    } else {
      OnceSetStaysSteady(limit, ls[..|ls| - 1]);
      StepStaysSteady(Run(FRESH, ls[..|ls| - 1]), ls[|ls| - 1], limit);
    }
  }

  /** With the limit set before any transfer, the bytes moved are at most the limit
      for every refill and once more, hence at most the limit for every second
      that has passed and once more. */
  lemma RateIsLimited(limit: nat, ls: seq<Label>)
    requires limit <= SIZE_MAX && LimitSetOnce(limit, ls)
    ensures var d := Run(FRESH, ls);
            && d.moved + d.remain == (d.refills + 1) * limit
            && d.moved <= (d.clock / SECOND + 1) * limit
  {
    OnceSetStaysSteady(limit, ls);
    var d := Run(FRESH, ls);
    assert d.refills <= d.clock / SECOND;
    TimesMonotone(d.refills + 1, d.clock / SECOND + 1, limit);
  }

  // ----------------------------------------------------------- both directions

  datatype Both = Both(rd: Dir, wr: Dir)

  /** A step of one direction, or time passing for both. */
  datatype SideLabel = Read(l: Label) | Write(l: Label) | Time

  predicate BothTyped(s: Both) { Typed(s.rd) && Typed(s.wr) }

  function BothNext(s: Both, l: SideLabel): (s': Both)
    requires BothTyped(s)
    ensures BothTyped(s')
  {
    match l
    case Read(k) => s.(rd := Next(s.rd, k))
    case Write(k) => s.(wr := Next(s.wr, k))
    case Time => Both(Next(s.rd, Tick), Next(s.wr, Tick))
  }

  function BothRun(s: Both, ls: seq<SideLabel>): (s': Both)
    requires BothTyped(s)
    ensures BothTyped(s')
    decreases |ls|
  {
    if ls == [] then s else BothNext(BothRun(s, ls[..|ls| - 1]), ls[|ls| - 1])
  }

  /** What one direction sees of an interleaving. */
  function Seen(ls: seq<SideLabel>, reading: bool): seq<Label> {
    if ls == [] then []
    else
      var init := Seen(ls[..|ls| - 1], reading);
      match ls[|ls| - 1]
      case Read(k) => if reading then init + [k] else init
      case Write(k) => if reading then init else init + [k]
      case Time => init + [Tick]
  }

  lemma RunMore(d: Dir, ls: seq<Label>, l: Label)
    requires Typed(d)
    ensures Run(d, ls + [l]) == Next(Run(d, ls), l)
  {
    assert (ls + [l])[..|ls|] == ls;
  }

  /** The directions do not affect each other: in every interleaving each is in
      the state its own labels alone would have brought it to. */
  lemma {:induction false} DirectionsAreIndependent(s: Both, ls: seq<SideLabel>)
    requires BothTyped(s)
    ensures BothRun(s, ls) == Both(Run(s.rd, Seen(ls, true)), Run(s.wr, Seen(ls, false)))
    decreases |ls|
  {
    if ls != [] {
      var init, last := ls[..|ls| - 1], ls[|ls| - 1];
      DirectionsAreIndependent(s, init);
      match last {
        case Read(k) => RunMore(s.rd, Seen(init, true), k);
        case Write(k) => RunMore(s.wr, Seen(init, false), k);
        case Time =>
          RunMore(s.rd, Seen(init, true), Tick);
          RunMore(s.wr, Seen(init, false), Tick);
      }
    }
  }

  /** So in every interleaving each direction keeps to its own limit, whatever the
      other one does and whether or not it is limited. */
  lemma StreamRateIsLimited(reading: bool, limit: nat, ls: seq<SideLabel>)
    requires limit <= SIZE_MAX && LimitSetOnce(limit, Seen(ls, reading))
    ensures var s := BothRun(Both(FRESH, FRESH), ls);
            var d := if reading then s.rd else s.wr;
            && d.moved + d.remain == (d.refills + 1) * limit
            && d.moved <= (d.clock / SECOND + 1) * limit
  {
    var s := BothRun(Both(FRESH, FRESH), ls);
    assert (if reading then s.rd else s.wr) == Run(FRESH, Seen(ls, reading)) by {
      DirectionsAreIndependent(Both(FRESH, FRESH), ls);
    }
    RateIsLimited(limit, Seen(ls, reading));
  }

  // ----------------------------------------------------------------- the object

  /** One direction of the stream, with its two fields updated in place. */
  class Limiter {
    var remain: nat
    var limit: nat
    var phase: Phase
    ghost var moved: nat
    ghost var granted: int
    ghost var refills: nat
    var clock: nat

    ghost function View(): Dir
      reads this
    {
      Dir(remain, limit, phase, moved, granted, refills, clock)
    }

    constructor ()
      ensures View() == FRESH
    {
      remain, limit, phase, clock := SIZE_MAX, SIZE_MAX, Idle, 0;
      moved, granted, refills := 0, SIZE_MAX, 0;
    }

    /** read_limit and write_limit */
    method Limit(bytesPerSecond: nat)
      requires Typed(View()) && bytesPerSecond <= SIZE_MAX
      modifies this
      ensures View() == Next(old(View()), SetLimit(bytesPerSecond))
    {
      limit := bytesPerSecond;
      if remain > bytesPerSecond {
        granted := granted - (remain - bytesPerSecond);
        remain := bytesPerSecond;
      }
    }

    /** The first part of an operation, up to its first suspension. */
    method Start(size: nat)
      requires Typed(View()) && Enabled(View(), Begin(size))
      modifies this
      ensures View() == Next(old(View()), Begin(size))
    {
      if remain == 0 {
        phase := Waiting(clock, size);
        return;
      }
      phase := Transferring(Min(size, remain));
    }

    /** Resumed by the timer. */
    method Resume(failed: bool)
      requires Typed(View()) && Enabled(View(), if failed then TimerFails else TimerFires)
      modifies this
      ensures View() == Next(old(View()), if failed then TimerFails else TimerFires)
    {
      if failed {
        phase := Idle;
        return;
      }
      remain := limit;
      granted, refills := granted + limit, refills + 1;
      phase := Transferring(Min(phase.size, remain));
    }

    /** Resumed by the transport with n bytes moved. */
    method Finish(n: nat)
      requires Typed(View()) && Enabled(View(), Complete(n))
      modifies this
      ensures View() == Next(old(View()), Complete(n))
    {
      remain := Minus(remain, n);
      moved := moved + n;
      phase := Idle;
    }

    /** Whichever of these a label calls for. */
    method Step(l: Label)
      requires Typed(View()) && Enabled(View(), l)
      modifies this
      ensures View() == Next(old(View()), l) && Typed(View())
    {
      match l {
        case SetLimit(bytes) => Limit(bytes);
        case Begin(size) => Start(size);
        case TimerFires => Resume(false);
        case TimerFails => Resume(true);
        case Complete(n) => Finish(n);
        case Tick => clock := clock + 1;
      }
    }
  }

  /** The stream: two directions side by side. */
  class Stream {
    const rd: Limiter
    const wr: Limiter

    ghost predicate Valid()
      reads rd, wr
    {
      rd != wr && Typed(rd.View()) && Typed(wr.View())
    }

    ghost function View(): Both
      reads rd, wr
    {
      Both(rd.View(), wr.View())
    }

    constructor ()
      ensures Valid() && View() == Both(FRESH, FRESH)
    {
      rd := new Limiter();
      wr := new Limiter();
    }

    /** Any step of a read operation or of its limit. */
    method ReadStep(l: Label)
      requires Valid() && Enabled(rd.View(), l)
      modifies rd
      ensures Valid() && View() == BothNext(old(View()), Read(l))
    {
      rd.Step(l);
    }

    /** Any step of a write operation or of its limit. */
    method WriteStep(l: Label)
      requires Valid() && Enabled(wr.View(), l)
      modifies wr
      ensures Valid() && View() == BothNext(old(View()), Write(l))
    {
      wr.Step(l);
    }
  }
}
