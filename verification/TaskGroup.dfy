/** The bounded task group: at most `max` error-free slots at a time, with
    waiting on a timer that is used as a condition variable. Every interleaving
    of admissions, removals, close and cancellation is a sequence of labels. */
module TaskGroup {
  datatype Errc = NoError | Cancelled | Closed

  /** Where an asynchronous operation is between two runs of its handler: on its
      way through async_immediate, waiting on the timer, woken, or completed. */
  datatype Phase = Hop | Parked | Woken | Done(errc: Errc) {
    predicate Runnable() { Hop? || Woken? }

    function Wake(): Phase { if Parked? then Woken else this }
  }

  datatype Op = Op(phase: Phase, cancelled: bool) {
    function Wake(): Op { this.(phase := phase.Wake()) }
  }

  /** `slots` are the live entries of css_, each with the error it was handed
      out with and named after the operation that got it; `signalled` are those
      to which a cancelled join has passed the cancellation on. */
  datatype State = State(
    max: nat,
    slots: map<nat, Errc>,
    adapts: map<nat, Op>,
    joins: map<nat, Op>,
    signalled: set<nat>)

  function Initial(max: nat): State { State(max, map[], map[], map[], {}) }

  datatype Label =
    | StartAdapt(id: nat) | RunAdapt(id: nat) | CancelAdapt(id: nat)
    | StartJoin(id: nat) | RunJoin(id: nat) | CancelJoin(id: nat)
    | Remove(id: nat)
    | Close

  function WakeAll(ops: map<nat, Op>): map<nat, Op> { map id | id in ops :: ops[id].Wake() }

  /** cv_.cancel(): every waiting handler is queued. */
  function Notify(s: State): State { s.(adapts := WakeAll(s.adapts), joins := WakeAll(s.joins)) }

  function Verdict(s: State, cancelled: bool): Errc {
    if s.max == 0 then Closed else if cancelled then Cancelled else NoError
  }

  /** One run of the handler of async_adapt. */
  function AdaptRuns(s: State, id: nat, scheduled: bool, cancelled: bool): State {
    var ec := Verdict(s, cancelled);
    if |s.slots| >= s.max && ec.NoError? then s.(adapts := s.adapts[id := Op(Parked, cancelled)])
    else if !scheduled then s.(adapts := s.adapts[id := Op(Hop, cancelled)])
    else s.(adapts := s.adapts[id := Op(Done(ec), cancelled)], slots := s.slots[id := ec])
  }

  /** One run of the handler of async_join. */
  function JoinRuns(s: State, id: nat, scheduled: bool, cancelled: bool): State {
    var phase := if |s.slots| > 0 then Parked else if !scheduled then Hop else Done(NoError);
    s.(joins := s.joins[id := Op(phase, false)],
       signalled := if cancelled then s.signalled + s.slots.Keys else s.signalled)
  }

  predicate Enabled(s: State, l: Label) {
    match l
    case StartAdapt(id) => id !in s.adapts
    case RunAdapt(id) => id in s.adapts && s.adapts[id].phase.Runnable()
    case CancelAdapt(id) => id in s.adapts && !s.adapts[id].phase.Done?
    case StartJoin(id) => id !in s.joins
    case RunJoin(id) => id in s.joins && s.joins[id].phase.Runnable()
    case CancelJoin(id) => id in s.joins && !s.joins[id].phase.Done?
    case Remove(id) => id in s.slots
    case Close => true
  }

  /** The effect of a label; a label that is not enabled has none. */
  function Next(s: State, l: Label): State {
    if !Enabled(s, l) then s
    else
      match l
      case StartAdapt(id) => AdaptRuns(s, id, false, false)
      case RunAdapt(id) => AdaptRuns(s, id, true, s.adapts[id].cancelled)
      case CancelAdapt(id) => s.(adapts := s.adapts[id := Op(s.adapts[id].phase.Wake(), true)])
      case StartJoin(id) => JoinRuns(s, id, false, false)
      case RunJoin(id) => JoinRuns(s, id, true, s.joins[id].cancelled)
      case CancelJoin(id) => s.(joins := s.joins[id := Op(s.joins[id].phase.Wake(), true)])
      case Remove(id) => Notify(s.(slots := s.slots - {id}))
      case Close => Notify(s.(max := 0))
  }

  function Run(s: State, ls: seq<Label>): State
    decreases |ls|
  {
    if ls == [] then s else Next(Run(s, ls[..|ls| - 1]), ls[|ls| - 1])
  }

  // ------------------------------------------------------------- no lost wakeup

  /** Whoever waits has something to wait for and has not been cancelled. */
  ghost predicate WaitersAreJustified(s: State) {
    && (forall id | id in s.adapts && s.adapts[id].phase.Parked? :: 0 < s.max <= |s.slots| && !s.adapts[id].cancelled)
    && (forall id | id in s.joins && s.joins[id].phase.Parked? :: |s.slots| > 0 && !s.joins[id].cancelled)
  }

  lemma NotifyWakesAll(s: State)
    ensures WaitersAreJustified(Notify(s))
  {
    assert forall id | id in s.adapts :: !s.adapts[id].Wake().phase.Parked?;
    assert forall id | id in s.joins :: !s.joins[id].Wake().phase.Parked?;
  }

  lemma AdaptKeepsWaitersJustified(s: State, id: nat, scheduled: bool, cancelled: bool)
    requires WaitersAreJustified(s)
    ensures WaitersAreJustified(AdaptRuns(s, id, scheduled, cancelled))
  {
    assert |s.slots| <= |s.slots[id := Verdict(s, cancelled)]| by {
      Smaller(s.slots.Keys, s.slots.Keys + {id});
      assert s.slots[id := Verdict(s, cancelled)].Keys == s.slots.Keys + {id};
    }
  }

  lemma JoinKeepsWaitersJustified(s: State, id: nat, scheduled: bool, cancelled: bool)
    requires WaitersAreJustified(s)
    ensures WaitersAreJustified(JoinRuns(s, id, scheduled, cancelled))
  {
  }

  lemma CancelKeepsWaitersJustified(s: State, l: Label)
    requires WaitersAreJustified(s) && Enabled(s, l) && (l.CancelAdapt? || l.CancelJoin?)
    ensures WaitersAreJustified(Next(s, l))
  {
  }

  lemma StepKeepsWaitersJustified(s: State, l: Label)
    requires WaitersAreJustified(s)
    ensures WaitersAreJustified(Next(s, l))
  {
    if Enabled(s, l) {
      match l {
        case StartAdapt(id) => AdaptKeepsWaitersJustified(s, id, false, false);
        case RunAdapt(id) => AdaptKeepsWaitersJustified(s, id, true, s.adapts[id].cancelled);
        case Remove(id) => NotifyWakesAll(s.(slots := s.slots - {id}));
        case Close => NotifyWakesAll(s.(max := 0));
        case StartJoin(id) => JoinKeepsWaitersJustified(s, id, false, false);
        case RunJoin(id) => JoinKeepsWaitersJustified(s, id, true, s.joins[id].cancelled);
        case CancelAdapt(_) => CancelKeepsWaitersJustified(s, l);
        case CancelJoin(_) => CancelKeepsWaitersJustified(s, l);
      }
    }
  }

  /** In every reachable state a parked admission faces a full, open group, a
      parked join faces a live slot, and neither has a cancellation pending. */
  lemma {:induction false} NoLostWakeup(max: nat, ls: seq<Label>)
    ensures WaitersAreJustified(Run(Initial(max), ls))
  {
    if ls != [] {
      NoLostWakeup(max, ls[..|ls| - 1]);
      StepKeepsWaitersJustified(Run(Initial(max), ls[..|ls| - 1]), ls[|ls| - 1]);
    }
  }

  ghost function RunnableAdapts(s: State): set<nat> { set id | id in s.adapts && s.adapts[id].phase.Runnable() }

  ghost function RunnableJoins(s: State): set<nat> { set id | id in s.joins && s.joins[id].phase.Runnable() }

  /** Handlers never requeue themselves: running one leaves fewer to run, so
      without outside events the queue empties. */
  lemma AdaptQueueDrains(s: State, id: nat)
    requires Enabled(s, RunAdapt(id))
    ensures id in RunnableAdapts(s)
    ensures RunnableAdapts(Next(s, RunAdapt(id))) == RunnableAdapts(s) - {id}
    ensures RunnableJoins(Next(s, RunAdapt(id))) == RunnableJoins(s)
  {
    var s' := Next(s, RunAdapt(id));
    assert forall k | k != id :: k in s'.adapts <==> k in s.adapts;
    assert !s'.adapts[id].phase.Runnable();
  }

  lemma JoinQueueDrains(s: State, id: nat)
    requires Enabled(s, RunJoin(id))
    ensures id in RunnableJoins(s)
    ensures RunnableJoins(Next(s, RunJoin(id))) == RunnableJoins(s) - {id}
    ensures RunnableAdapts(Next(s, RunJoin(id))) == RunnableAdapts(s)
  {
    var s' := Next(s, RunJoin(id));
    assert forall k | k != id :: k in s'.joins <==> k in s.joins;
    assert !s'.joins[id].phase.Runnable();
  }

  /** How many handlers are queued. */
  ghost function Queue(s: State): nat { |RunnableAdapts(s)| + |RunnableJoins(s)| }

  ghost predicate IsHandler(l: Label) { l.RunAdapt? || l.RunJoin? }

  /** A sequence of queued handlers, run one after the other in some order. */
  ghost predicate Drains(s: State, ks: seq<Label>)
    decreases |ks|
  {
    ks == [] || (var init, k := ks[..|ks| - 1], ks[|ks| - 1];
                 Drains(s, init) && IsHandler(k) && Enabled(Run(s, init), k))
  }

  lemma OneLess(a: set<nat>, b: set<nat>, id: nat)
    requires id in b && a == b - {id}
    ensures |a| + 1 == |b|
  {
    assert b == a + {id};
  }

  lemma HandlerShortensQueue(s: State, k: Label)
    requires IsHandler(k) && Enabled(s, k)
    ensures Queue(Next(s, k)) + 1 == Queue(s)
  {
    var s' := Next(s, k);
    if k.RunAdapt? {
      AdaptQueueDrains(s, k.id);
      OneLess(RunnableAdapts(s'), RunnableAdapts(s), k.id);
    } else {
      JoinQueueDrains(s, k.id);
      OneLess(RunnableJoins(s'), RunnableJoins(s), k.id);
    }
  }

  /** Whatever the order, each handler run shortens the queue by one, so the queue
      is empty after exactly as many runs as it had handlers. */
  lemma {:induction false} DrainingIsExact(s: State, ks: seq<Label>)
    requires Drains(s, ks)
    ensures Queue(Run(s, ks)) + |ks| == Queue(s)
    decreases |ks|
  {
    if ks != [] {
      DrainingIsExact(s, ks[..|ks| - 1]);
      HandlerShortensQueue(Run(s, ks[..|ks| - 1]), ks[|ks| - 1]);
    }
  }

  /** A queue that is not empty has a handler to run. */
  lemma DrainingGoesOn(s: State) returns (k: Label)
    requires Queue(s) > 0
    ensures IsHandler(k) && Enabled(s, k)
  {
    if RunnableAdapts(s) != {} {
      var id :| id in RunnableAdapts(s);
      k := RunAdapt(id);
    } else {
      assert RunnableJoins(s) != {};
      var id :| id in RunnableJoins(s);
      k := RunJoin(id);
    }
  }

  lemma {:induction false} RunConcat(s: State, ls: seq<Label>, ks: seq<Label>)
    ensures Run(s, ls + ks) == Run(Run(s, ls), ks)
    decreases |ks|
  {
    if ks == [] {
      assert ls + ks == ls;
    } else {
      RunConcat(s, ls, ks[..|ks| - 1]);
      assert (ls + ks)[..|ls + ks| - 1] == ls + ks[..|ks| - 1];
    }
  }

  /** Every operation is done that does not wait for room or for a live slot. */
  ghost predicate Served(s: State) {
    && (forall id | id in s.adapts && !s.adapts[id].phase.Done? :: 0 < s.max <= |s.slots|)
    && (forall id | id in s.joins && !s.joins[id].phase.Done? :: |s.slots| > 0)
  }

  /** Once the queue is empty, an unfinished admission means the group is open and
      full, and an unfinished join means a slot is live. */
  lemma NobodyIsForgotten(max: nat, ls: seq<Label>)
    ensures var s := Run(Initial(max), ls); Queue(s) == 0 ==> Served(s)
  {
    NoLostWakeup(max, ls);
    var s := Run(Initial(max), ls);
    if Queue(s) == 0 {
      assert RunnableAdapts(s) == {} && RunnableJoins(s) == {};
      forall id | id in s.adapts && !s.adapts[id].phase.Done?
        ensures 0 < s.max <= |s.slots|
      {
        assert id !in RunnableAdapts(s);
      }
      forall id | id in s.joins && !s.joins[id].phase.Done?
        ensures |s.slots| > 0
      {
        assert id !in RunnableJoins(s);
      }
    }
  }

  /** From every reachable state, running as many handlers as are queued, in any
      order, serves everybody. */
  lemma DrainingServesEverybody(max: nat, ls: seq<Label>, ks: seq<Label>)
    requires var s := Run(Initial(max), ls); Drains(s, ks) && |ks| == Queue(s)
    ensures Served(Run(Run(Initial(max), ls), ks))
  {
    var s := Run(Initial(max), ls);
    DrainingIsExact(s, ks);
    RunConcat(Initial(max), ls, ks);
    NobodyIsForgotten(max, ls + ks);
  }

  lemma MaxIsKeptOrZero(s: State, l: Label)
    ensures Next(s, l).max == s.max || Next(s, l).max == 0
  {
  }

  lemma {:induction false} DrainingKeepsClosed(s: State, ks: seq<Label>)
    ensures Run(s, ks).max == 0 || Run(s, ks).max == s.max
    ensures s.max == 0 ==> Run(s, ks).max == 0
    decreases |ks|
  {
    if ks != [] {
      DrainingKeepsClosed(s, ks[..|ks| - 1]);
      MaxIsKeptOrZero(Run(s, ks[..|ks| - 1]), ks[|ks| - 1]);
    }
  }

  /** After close a drained queue has finished every admission. */
  lemma ClosingFinishesAdmissions(max: nat, ls: seq<Label>, ks: seq<Label>)
    requires var s := Run(Initial(max), ls); s.max == 0 && Drains(s, ks) && |ks| == Queue(s)
    ensures var t := Run(Run(Initial(max), ls), ks);
            AdmissionsDone(t)
  {
    DrainingServesEverybody(max, ls, ks);
    DrainingKeepsClosed(Run(Initial(max), ls), ks);
  }

  ghost predicate AdmissionsDone(s: State) { forall id | id in s.adapts :: s.adapts[id].phase.Done? }

  ghost predicate JoinsDone(s: State) { forall id | id in s.joins :: s.joins[id].phase.Done? }

  lemma {:induction false} JoinsLeaveSlots(s: State, ks: seq<Label>)
    requires Drains(s, ks) && AdmissionsDone(s)
    ensures AdmissionsDone(Run(s, ks)) && Run(s, ks).slots == s.slots
    decreases |ks|
  {
    if ks != [] {
      JoinsLeaveSlots(s, ks[..|ks| - 1]);
    }
  }

  /** With every admission finished and every slot removed, draining the queue
      once more finishes every join: the group has come to rest. */
  lemma RemovingFinishesJoins(max: nat, ls: seq<Label>, ks: seq<Label>)
    requires var s := Run(Initial(max), ls);
             && s.slots == map[]
             && AdmissionsDone(s)
             && Drains(s, ks) && |ks| == Queue(s)
    ensures JoinsDone(Run(Run(Initial(max), ls), ks))
  {
    JoinsLeaveSlots(Run(Initial(max), ls), ks);
    DrainingServesEverybody(max, ls, ks);
  }

  lemma {:induction false} DoneJoinsStay(s: State, ks: seq<Label>)
    requires Drains(s, ks) && JoinsDone(s)
    ensures JoinsDone(Run(s, ks))
    decreases |ks|
  {
    if ks != [] {
      DoneJoinsStay(s, ks[..|ks| - 1]);
    }
  }

  /** A live slot and a join that it holds up. */
  ghost predicate HeldUp(s: State, a: nat, j: nat) {
    a in s.slots && j in s.joins && !s.joins[j].phase.Done?
  }

  lemma HandlerKeepsHoldUp(s: State, k: Label, a: nat, j: nat)
    requires HeldUp(s, a, j) && IsHandler(k)
    ensures HeldUp(Next(s, k), a, j)
  {
    assert |s.slots| > 0 by { assert s.slots != map[]; }
  }

  /** A drain underway can be completed, and a join held up stays so to the end. */
  lemma {:induction false} HoldUpLasts(s: State, ks: seq<Label>, a: nat, j: nat) returns (all: seq<Label>)
    requires Drains(s, ks) && HeldUp(Run(s, ks), a, j)
    ensures Drains(s, all) && |all| == Queue(s) && HeldUp(Run(s, all), a, j)
    decreases Queue(Run(s, ks))
  {
    DrainingIsExact(s, ks);
    var t := Run(s, ks);
    if Queue(t) == 0 {
      all := ks;
    } else {
      var k := DrainingGoesOn(t);
      HandlerShortensQueue(t, k);
      HandlerKeepsHoldUp(t, k, a, j);
      assert (ks + [k])[..|ks|] == ks;
      all := HoldUpLasts(s, ks + [k], a, j);
    }
  }

  /** An open join and an open admission in front of an empty group: run the
      admission first. */
  lemma AdmissionFirst(s: State, a: nat, j: nat) returns (ks: seq<Label>)
    requires WaitersAreJustified(s) && s.slots == map[]
    requires a in s.adapts && !s.adapts[a].phase.Done? && j in s.joins && !s.joins[j].phase.Done?
    ensures Drains(s, ks) && HeldUp(Run(s, ks), a, j)
  {
    ks := [RunAdapt(a)];
    assert ks[..0] == [] && Run(s, ks[..0]) == s && Drains(s, ks[..0]);
    assert s.adapts[a].phase.Runnable() by { assert |s.slots| == 0 && !s.adapts[a].phase.Parked?; }
    assert Run(s, ks) == Next(s, RunAdapt(a)) && HeldUp(Next(s, RunAdapt(a)), a, j);
  }

  /** From a reachable state every order of the queued handlers finishes every
      join exactly if all joins are done already, or all admissions are and no
      slot is live. */
  lemma OneDrainFinishesJoinsIff(max: nat, ls: seq<Label>)
    ensures var s := Run(Initial(max), ls);
            (forall ks | Drains(s, ks) && |ks| == Queue(s) :: JoinsDone(Run(s, ks)))
            <==> JoinsDone(s) || (AdmissionsDone(s) && s.slots == map[])
  {
    var s := Run(Initial(max), ls);
    NoLostWakeup(max, ls);
    forall ks | Drains(s, ks) && |ks| == Queue(s)
      ensures JoinsDone(s) || (AdmissionsDone(s) && s.slots == map[]) ==> JoinsDone(Run(s, ks))
    {
      if JoinsDone(s) {
        DoneJoinsStay(s, ks);
      } else if AdmissionsDone(s) && s.slots == map[] {
        RemovingFinishesJoins(max, ls, ks);
      }
    }
    if !JoinsDone(s) && !(AdmissionsDone(s) && s.slots == map[]) {
      var ks := JoinHeldUp(s);
      assert Drains(s, ks) && |ks| == Queue(s) && !JoinsDone(Run(s, ks));
    }
  }

  lemma JoinHeldUp(s: State) returns (ks: seq<Label>)
    requires WaitersAreJustified(s) && !JoinsDone(s) && !(AdmissionsDone(s) && s.slots == map[])
    ensures Drains(s, ks) && |ks| == Queue(s) && !JoinsDone(Run(s, ks))
  {
    var j :| j in s.joins && !s.joins[j].phase.Done?;
    var first, a;
    if s.slots == map[] {
      a :| a in s.adapts && !s.adapts[a].phase.Done?;
      first := AdmissionFirst(s, a, j);
    } else {
      assert s.slots.Keys != {};
      a :| a in s.slots;
      first := [];
    }
    ks := HoldUpLasts(s, first, a, j);
  }

  lemma RunTwo(s: State, a: Label, b: Label)
    ensures Run(s, [a, b]) == Next(Next(s, a), b)
  {
    assert [a, b][..1] == [a] && [a][..0] == [];
    assert Run(s, []) == s;
  }

  /** One slot handed out; then an admission waits and the group is closed; then
      the slot is removed and a join is queued. */
  const ADMITTED := State(1, map[0 := NoError], map[0 := Op(Done(NoError), false)], map[], {})

  const CLOSED := ADMITTED.(max := 0, adapts := ADMITTED.adapts[1 := Op(Woken, false)])

  const WINDING_DOWN := CLOSED.(slots := map[], joins := map[2 := Op(Hop, false)])

  lemma ReachAdmitted()
    ensures Run(Initial(1), [StartAdapt(0), RunAdapt(0)]) == ADMITTED
  {
    RunTwo(Initial(1), StartAdapt(0), RunAdapt(0));
    assert Next(Initial(1), StartAdapt(0)) == Initial(1).(adapts := map[0 := Op(Hop, false)]);
  }

  lemma ReachClosed()
    ensures Run(ADMITTED, [StartAdapt(1), Close]) == CLOSED
  {
    RunTwo(ADMITTED, StartAdapt(1), Close);
    var s := ADMITTED.(adapts := ADMITTED.adapts[1 := Op(Parked, false)]);
    assert Next(ADMITTED, StartAdapt(1)) == s;
    assert WakeAll(s.adapts) == CLOSED.adapts;
    assert WakeAll(s.joins) == map[];
  }

  lemma ReachWindingDown()
    ensures Run(CLOSED, [Remove(0), StartJoin(2)]) == WINDING_DOWN
  {
    RunTwo(CLOSED, Remove(0), StartJoin(2));
    assert CLOSED.slots - {0} == map[];
    assert WakeAll(CLOSED.adapts) == CLOSED.adapts;
    assert WakeAll(CLOSED.joins) == map[];
  }

  lemma WindingDownIsReachable()
    ensures Run(Initial(1), [StartAdapt(0), RunAdapt(0)] + ([StartAdapt(1), Close] + [Remove(0), StartJoin(2)]))
         == WINDING_DOWN
  {
    RunConcat(Initial(1), [StartAdapt(0), RunAdapt(0)], [StartAdapt(1), Close] + [Remove(0), StartJoin(2)]);
    RunConcat(ADMITTED, [StartAdapt(1), Close], [Remove(0), StartJoin(2)]);
    ReachAdmitted();
    ReachClosed();
    ReachWindingDown();
  }

  /** A state in which one drain may not be enough: an admission that ends with `closed` hands
      out a slot too, and a join that runs after it goes back to waiting. */
  lemma ClosedAdmissionHoldsUpJoin()
    ensures Drains(WINDING_DOWN, [RunAdapt(1), RunJoin(2)])
    ensures var t := Run(WINDING_DOWN, [RunAdapt(1), RunJoin(2)]);
            t.slots == map[1 := Closed] && 2 in t.joins && t.joins[2].phase.Parked?
  {
    var s1 := Next(WINDING_DOWN, RunAdapt(1));
    RunTwo(WINDING_DOWN, RunAdapt(1), RunJoin(2));
    assert s1.slots == map[1 := Closed];
    assert [RunAdapt(1), RunJoin(2)][..1] == [RunAdapt(1)] && [RunAdapt(1)][..0] == [];
    assert Run(WINDING_DOWN, []) == WINDING_DOWN && Run(WINDING_DOWN, [RunAdapt(1)]) == s1;
  }

  /** A cancelled join passes the cancellation on to every live slot, once. */
  lemma CancelledJoinSignals(s: State, id: nat)
    requires Enabled(s, RunJoin(id))
    ensures var t := Next(s, RunJoin(id));
            && t.signalled == (if s.joins[id].cancelled then s.signalled + s.slots.Keys else s.signalled)
            && !t.joins[id].cancelled
  {
  }

  // --------------------------------------------------------------- the bound

  ghost function ErrorFree(s: State): set<nat> { set id | id in s.slots && s.slots[id].NoError? }

  /** Slots without an error never exceed the initial maximum, and the maximum
      changes only by closing. */
  ghost predicate Bounded(s: State, max: nat) {
    && (s.max == max || s.max == 0)
    && |ErrorFree(s)| <= max
  }

  lemma Smaller(a: set<nat>, b: set<nat>)
    requires a <= b
    ensures |a| <= |b|
  {
    assert b == a + (b - a);
  }

  lemma StepKeepsBound(s: State, l: Label, max: nat)
    requires Bounded(s, max)
    ensures Bounded(Next(s, l), max)
  {
    var s' := Next(s, l);
    if ErrorFree(s') <= ErrorFree(s) {
      Smaller(ErrorFree(s'), ErrorFree(s));
    } else {
      assert s'.slots.Keys == s.slots.Keys + {l.id};
      Smaller(ErrorFree(s'), s'.slots.Keys);
    }
  }

  lemma {:induction false} NeverTooManySlots(max: nat, ls: seq<Label>)
    ensures Bounded(Run(Initial(max), ls), max)
  {
    if ls == [] {
      assert ErrorFree(Initial(max)) == {};
    } else {
      NeverTooManySlots(max, ls[..|ls| - 1]);
      StepKeepsBound(Run(Initial(max), ls[..|ls| - 1]), ls[|ls| - 1], max);
    }
  }

  /** When no live slot carries an error, there are more slots than `max_` exactly
      when the group was closed over live slots. */
  lemma ExcessMeansErrorOrClosed(max: nat, ls: seq<Label>)
    ensures var s := Run(Initial(max), ls);
            (forall id | id in s.slots :: s.slots[id].NoError?) ==>
              (|s.slots| > s.max <==> s.max == 0 && |s.slots| > 0)
  {
    NeverTooManySlots(max, ls);
    var s := Run(Initial(max), ls);
    if forall id | id in s.slots :: s.slots[id].NoError? {
      assert ErrorFree(s) == s.slots.Keys;
    }
  }

  /** So an error slot is not the only way to have more slots than `max_`: one
      admission followed by close() does it too. */
  lemma ClosingLeavesExcess()
    ensures var s := Run(Initial(1), [StartAdapt(0), RunAdapt(0), Close]);
            s.slots == map[0 := NoError] && |s.slots| > s.max
  {
    var s0 := Initial(1);
    var s1 := Next(s0, StartAdapt(0));
    var s2 := Next(s1, RunAdapt(0));
    assert Run(s0, []) == s0;
    assert [StartAdapt(0), RunAdapt(0), Close][..2] == [StartAdapt(0), RunAdapt(0)];
    assert [StartAdapt(0), RunAdapt(0)][..1] == [StartAdapt(0)];
    assert [StartAdapt(0)][..0] == [];
    assert Run(s0, [StartAdapt(0)]) == s1;
    assert Run(s0, [StartAdapt(0), RunAdapt(0)]) == s2;
    assert s2.slots == map[0 := NoError];
  }

  // ---------------------------------------------------- outcomes of operations

  ghost predicate Unfinished(ops: map<nat, Op>, id: nat) { id !in ops || !ops[id].phase.Done? }

  /** What a later state of a run promises about an earlier one. */
  ghost predicate Consistent(s: State, t: State) {
    && (s.max == 0 ==> t.max == 0)
    && (forall id | id in s.adapts :: id in t.adapts && (s.adapts[id].cancelled ==> t.adapts[id].cancelled))
    && (forall id | id in t.adapts && t.adapts[id].phase.Done? && Unfinished(s.adapts, id) ::
          && (s.max == 0 ==> t.adapts[id].phase.errc.Closed?)
          && (id in s.adapts && s.adapts[id].cancelled ==> !t.adapts[id].phase.errc.NoError?))
    && (forall id | id in s.adapts && s.adapts[id].phase.Done? :: t.adapts[id].phase == s.adapts[id].phase)
  }

  lemma AdaptIsConsistent(s: State, id: nat, scheduled: bool, cancelled: bool)
    requires if scheduled then id in s.adapts && s.adapts[id] == Op(s.adapts[id].phase, cancelled) else id !in s.adapts
    requires scheduled ==> s.adapts[id].phase.Runnable()
    ensures Consistent(s, AdaptRuns(s, id, scheduled, cancelled))
  {
  }

  lemma NotifyIsConsistent(s: State, t: State)
    requires t.adapts == s.adapts && (s.max == 0 ==> t.max == 0)
    ensures Consistent(s, Notify(t))
  {
    assert forall id | id in s.adapts :: Notify(t).adapts[id] == s.adapts[id].Wake();
  }

  lemma StepIsConsistent(s: State, l: Label)
    ensures Consistent(s, Next(s, l))
  {
    if Enabled(s, l) {
      match l {
        case StartAdapt(id) => AdaptIsConsistent(s, id, false, false);
        case RunAdapt(id) => AdaptIsConsistent(s, id, true, s.adapts[id].cancelled);
        case Remove(id) => NotifyIsConsistent(s, s.(slots := s.slots - {id}));
        case Close => NotifyIsConsistent(s, s.(max := 0));
        case CancelAdapt(_) =>
        case StartJoin(_) =>
        case RunJoin(_) =>
        case CancelJoin(_) =>
      }
    }
  }

  lemma ConsistencyChains(r: State, s: State, t: State)
    requires Consistent(r, s) && Consistent(s, t)
    ensures Consistent(r, t)
  {
    forall id | id in t.adapts && t.adapts[id].phase.Done? && Unfinished(r.adapts, id)
      ensures r.max == 0 ==> t.adapts[id].phase.errc.Closed?
      ensures id in r.adapts && r.adapts[id].cancelled ==> !t.adapts[id].phase.errc.NoError?
    {
      if id in s.adapts && s.adapts[id].phase.Done? {
        assert t.adapts[id].phase == s.adapts[id].phase;
      }
    }
  }

  /** Whatever happens in between: an admission still open when the group is
      closed ends with `closed`; one still open when it is cancelled never ends
      without an error; and an outcome, once given, stays. The async_immediate
      hop is one of the places where an admission may be in the meantime. */
  lemma {:induction false} OutcomesSurvive(s: State, ls: seq<Label>)
    ensures Consistent(s, Run(s, ls))
  {
    if ls != [] {
      OutcomesSurvive(s, ls[..|ls| - 1]);
      var t := Run(s, ls[..|ls| - 1]);
      StepIsConsistent(t, ls[|ls| - 1]);
      ConsistencyChains(s, t, Next(t, ls[|ls| - 1]));
    }
  }

  /** No admission without an error happens after close: from then on every new
      slot says `closed`. */
  lemma {:induction false} NoAdmissionAfterClose(s: State, ls: seq<Label>)
    requires s.max == 0
    ensures Run(s, ls).max == 0
    ensures ErrorFree(Run(s, ls)) <= ErrorFree(s)
    ensures forall id | id in Run(s, ls).slots && id !in s.slots :: Run(s, ls).slots[id].Closed?
  {
    if ls != [] {
      NoAdmissionAfterClose(s, ls[..|ls| - 1]);
    }
  }

  /** An admission completes by handing out a slot that carries its outcome, and
      without an error only when there was room. */
  lemma AdmissionHandsOutSlot(s: State, l: Label, id: nat)
    requires Unfinished(s.adapts, id)
    requires id in Next(s, l).adapts && Next(s, l).adapts[id].phase.Done?
    ensures l == RunAdapt(id)
    ensures var ec := Next(s, l).adapts[id].phase.errc;
            && Next(s, l).slots == s.slots[id := ec]
            && (ec.NoError? ==> |s.slots| < s.max && !s.adapts[id].cancelled)
            && (ec.Closed? <==> s.max == 0)
  {
  }

  /** What an admission's handler does, by what it finds: a closed group refuses it,
      an open one takes note of a cancellation, and otherwise it waits exactly if
      the group is full. */
  lemma AdmissionRuns(s: State, id: nat)
    requires Enabled(s, RunAdapt(id))
    ensures var t := Next(s, RunAdapt(id));
            var phase, cancelled := t.adapts[id].phase, s.adapts[id].cancelled;
            && (phase == Done(Closed) <==> s.max == 0)
            && (phase == Done(Cancelled) <==> s.max > 0 && cancelled)
            && (phase == Done(NoError) <==> s.max > 0 && !cancelled && |s.slots| < s.max)
            && (phase == Parked <==> s.max > 0 && !cancelled && |s.slots| >= s.max)
            && t.slots == if phase.Done? then s.slots[id := phase.errc] else s.slots
  {
  }

  /** A new admission waits at once exactly if the group is open and full, and
      otherwise completes later, never within the initiating call. */
  lemma AdmissionStarts(s: State, id: nat)
    requires id !in s.adapts
    ensures var t := Next(s, StartAdapt(id));
            && id in t.adapts && !t.adapts[id].cancelled && t.slots == s.slots
            && (t.adapts[id].phase == Parked <==> 0 < s.max <= |s.slots|)
            && (t.adapts[id].phase == Hop <==> s.max == 0 || |s.slots| < s.max)
  {
  }

  /** A cancellation of the admission took effect in the run. */
  ghost predicate CancelTook(max: nat, ls: seq<Label>, id: nat)
    decreases |ls|
  {
    && ls != []
    && var init, l := ls[..|ls| - 1], ls[|ls| - 1];
       CancelTook(max, init, id) || (l == CancelAdapt(id) && Enabled(Run(Initial(max), init), l))
  }

  lemma StepMarksCancelled(s: State, l: Label, id: nat)
    ensures var t := Next(s, l);
            && (id in s.adapts ==> id in t.adapts)
            && (id in t.adapts ==>
                  (t.adapts[id].cancelled <==>
                     (id in s.adapts && s.adapts[id].cancelled) || (l == CancelAdapt(id) && Enabled(s, l))))
  {
  }

  lemma {:induction false} CancelledIff(max: nat, ls: seq<Label>, id: nat)
    ensures var s := Run(Initial(max), ls);
            CancelTook(max, ls, id) <==> id in s.adapts && s.adapts[id].cancelled
    decreases |ls|
  {
    if ls != [] {
      CancelledIff(max, ls[..|ls| - 1], id);
      StepMarksCancelled(Run(Initial(max), ls[..|ls| - 1]), ls[|ls| - 1], id);
    }
  }

  lemma {:induction false} ClosedIff(max: nat, ls: seq<Label>)
    ensures Run(Initial(max), ls).max == if Close in ls then 0 else max
  {
    if ls != [] {
      var init, l := ls[..|ls| - 1], ls[|ls| - 1];
      ClosedIff(max, init);
      assert ls == init + [l];
      MaxChangesByClose(Run(Initial(max), init), l);
    }
  }

  lemma MaxChangesByClose(s: State, l: Label)
    ensures Next(s, l).max == if l == Close then 0 else s.max
  {
  }

  /** Over every run, by its labels: an admission whose handler runs ends with
      `closed` after a close, else with `cancelled` after a cancellation, else
      without an error if there is room, and else it waits. */
  lemma AdmissionOutcome(max: nat, ls: seq<Label>, id: nat)
    requires Enabled(Run(Initial(max), ls), RunAdapt(id))
    ensures var s := Run(Initial(max), ls);
            var phase := Next(s, RunAdapt(id)).adapts[id].phase;
            var open := max > 0 && Close !in ls;
            && (!open ==> phase == Done(Closed))
            && (open && CancelTook(max, ls, id) ==> phase == Done(Cancelled))
            && (open && !CancelTook(max, ls, id) && |s.slots| < max ==> phase == Done(NoError))
            && (open && !CancelTook(max, ls, id) && |s.slots| >= max ==> phase == Parked)
  {
    AdmissionRuns(Run(Initial(max), ls), id);
    CancelledIff(max, ls, id);
    ClosedIff(max, ls);
  }

  /** What a join's handler does: it completes exactly if no slot is live. */
  lemma JoinCompletesIff(s: State, id: nat)
    requires Enabled(s, RunJoin(id))
    ensures var t := Next(s, RunJoin(id));
            && (t.joins[id].phase == Done(NoError) <==> s.slots == map[])
            && (t.joins[id].phase == Parked <==> s.slots != map[])
            && t.slots == s.slots
  {
    assert |s.slots| == 0 <==> s.slots == map[];
  }

  /** A new join waits at once exactly if a slot is live, and otherwise completes
      later, never within the initiating call. */
  lemma JoinStarts(s: State, id: nat)
    requires id !in s.joins
    ensures var t := Next(s, StartJoin(id));
            && id in t.joins && !t.joins[id].cancelled && t.slots == s.slots && t.signalled == s.signalled
            && (t.joins[id].phase == Parked <==> s.slots != map[])
            && (t.joins[id].phase == Hop <==> s.slots == map[])
  {
    assert |s.slots| == 0 <==> s.slots == map[];
  }

  /** A join completes only in a state without live slots. */
  lemma JoinWaitsForAll(s: State, l: Label, id: nat)
    requires Unfinished(s.joins, id)
    requires id in Next(s, l).joins && Next(s, l).joins[id].phase.Done?
    ensures l == RunJoin(id) && s.slots == map[]
  {
  }

  // ------------------------------------------------------------- the object

  /** The group as the object the source has: handlers and the slot remover
      update its fields in place. */
  class Group {
    var max: nat
    var css: map<nat, Errc>
    var adapts: map<nat, Op>
    var joins: map<nat, Op>
    var signalled: set<nat>

    ghost function View(): State
      reads this
    {
      State(max, css, adapts, joins, signalled)
    }

    constructor (max: nat)
      ensures View() == Initial(max)
    {
      this.max, css, adapts, joins, signalled := max, map[], map[], map[], {};
    }

    /** cv_.cancel() */
    method CancelTimer()
      modifies this`adapts, this`joins
      ensures View() == Notify(old(View()))
    {
      adapts, joins := WakeAll(adapts), WakeAll(joins);
    }

    method CloseGroup()
      modifies this
      ensures View() == Next(old(View()), Close)
    {
      max := 0;
      CancelTimer();
    }

    /** The destructor of a live slot's remover. */
    method EraseSlot(id: nat)
      requires id in css
      modifies this
      ensures View() == Next(old(View()), Remove(id))
    {
      css := css - {id};
      CancelTimer();
    }

    /** The handler of async_adapt, entered for the first time or resumed. */
    method AdaptHandler(id: nat, scheduled: bool)
      requires if scheduled then id in adapts && adapts[id].phase.Runnable() else id !in adapts
      modifies this
      ensures View() == Next(old(View()), if scheduled then RunAdapt(id) else StartAdapt(id))
    {
      var cancelled := if scheduled then adapts[id].cancelled else false;
      var ec := NoError;
      if cancelled {
        ec := Cancelled;
      }
      if max == 0 {
        ec := Closed;
      }
      if |css| >= max && ec.NoError? {
        adapts := adapts[id := Op(Parked, cancelled)];
        return;
      }
      if !scheduled {
        adapts := adapts[id := Op(Hop, cancelled)];
        return;
      }
      css := css[id := ec];
      adapts := adapts[id := Op(Done(ec), cancelled)];
    }

    /** Passes a cancellation on to every live slot. */
    method Emit()
      modifies this`signalled
      ensures signalled == old(signalled) + css.Keys
    {
      signalled := signalled + css.Keys;
    }

    /** The handler of async_join, entered for the first time or resumed. */
    method JoinHandler(id: nat, scheduled: bool)
      requires if scheduled then id in joins && joins[id].phase.Runnable() else id !in joins
      modifies this`joins, this`signalled
      ensures View() == Next(old(View()), if scheduled then RunJoin(id) else StartJoin(id))
    {
      if scheduled && joins[id].cancelled {
        Emit();
      }
      if |css| != 0 {
        joins := joins[id := Op(Parked, false)];
        return;
      }
      if !scheduled {
        joins := joins[id := Op(Hop, false)];
        return;
      }
      joins := joins[id := Op(Done(NoError), false)];
    }
  }
}
