/** Sending a request that expects `100 Continue` (section 10.1.1 of RFC 9110):
    a timer and the header read race for the right to start the body. All
    interleavings of the two branches are sequences of labels. */
module Expect100 {
  import opened Wrappers

  /** What the first header read brings. */
  datatype Reply = Continue | Final | ReadError(code: nat)

  /** How the first write of the serializer ends. */
  datatype FirstWrite = Sent | Expecting | Failed(code: nat)

  /** An error code; zero is success. */
  type ErrorCode = nat

  datatype Exp = Awaiting | Received | Cancelled

  /** The timer branch: waiting, its handler queued, the body write it started, its end. */
  datatype TimerBranch = Waiting | TimerQueued | Writing | TimerEnded(ec: ErrorCode)

  /** The read branch: the first read, its handler queued, the second read, its end. */
  datatype ReadBranch = Reading | ReadQueued(reply: Reply) | ReadingAgain | ReadEnded(ec: ErrorCode)

  datatype Stage = FirstWriting | PlainReading | Racing | Completed(ec: ErrorCode)

  /** History: when the two branch handlers ran and when the body write, the
      second read and the completion of the race took place. */
  datatype History = History(
    timerRan: Option<nat>,
    replied: Option<nat>,
    reply: Option<Reply>,
    bodyStarts: seq<nat>,
    secondReads: seq<nat>,
    raceEnded: Option<nat>)

  datatype State = State(stage: Stage, exp: Exp, timer: TimerBranch, read: ReadBranch, clock: nat, past: History)

  const NOTHING := History(None, None, None, [], [], None)

  const START := State(FirstWriting, Awaiting, Waiting, Reading, 0, NOTHING)

  datatype Label =
    | FirstWriteDone(result: FirstWrite)
    | PlainHeader(ec: ErrorCode)
    | TimerExpires
    | TimerHandler
    | HeaderArrives(reply: Reply)
    | HeaderHandler
    | BodyWritten(ec: ErrorCode)
    | SecondHeader(ec: ErrorCode)
    | GroupDone

  predicate Enabled(s: State, l: Label) {
    match l
    case FirstWriteDone(_) => s.stage == FirstWriting
    case PlainHeader(_) => s.stage == PlainReading
    case TimerExpires => s.stage == Racing && s.timer == Waiting
    case TimerHandler => s.stage == Racing && s.timer == TimerQueued
    case HeaderArrives(_) => s.stage == Racing && s.read == Reading
    case HeaderHandler => s.stage == Racing && s.read.ReadQueued?
    case BodyWritten(_) => s.stage == Racing && s.timer == Writing
    case SecondHeader(_) => s.stage == Racing && s.read == ReadingAgain
    case GroupDone => s.stage == Racing && s.timer.TimerEnded? && s.read.ReadEnded?
  }

  function TimerRuns(s: State): State {
    var past := s.past.(timerRan := Some(s.clock));
    if s.exp != Cancelled then
      s.(timer := Writing, past := past.(bodyStarts := past.bodyStarts + [s.clock]))
    else s.(timer := TimerEnded(0), past := past)
  }

  function HeaderRuns(s: State, reply: Reply): State {
    var past := s.past.(replied := Some(s.clock), reply := Some(reply));
    var timer := if s.timer == Waiting then TimerQueued else s.timer;
    match reply
    case Continue =>
      s.(timer := timer, exp := Received, read := ReadingAgain,
         past := past.(secondReads := past.secondReads + [s.clock]))
    case Final => s.(timer := timer, exp := Cancelled, read := ReadEnded(0), past := past)
    case ReadError(code) => s.(timer := timer, exp := Cancelled, read := ReadEnded(code + 1), past := past)
  }

  function Effect(s: State, l: Label): State
    requires Enabled(s, l)
  {
    match l
    case FirstWriteDone(Sent) => s.(stage := PlainReading)
    case FirstWriteDone(Failed(code)) => s.(stage := Completed(code + 1))
    case FirstWriteDone(Expecting) => s.(stage := Racing)
    case PlainHeader(ec) => s.(stage := Completed(ec))
    case TimerExpires => s.(timer := TimerQueued)
    case TimerHandler => TimerRuns(s)
    case HeaderArrives(reply) => s.(read := ReadQueued(reply))
    case HeaderHandler => HeaderRuns(s, s.read.reply)
    case BodyWritten(ec) => s.(timer := TimerEnded(ec))
    case SecondHeader(ec) => s.(read := ReadEnded(ec))
    case GroupDone =>
      s.(stage := Completed(if s.timer.ec != 0 then s.timer.ec else s.read.ec),
         past := s.past.(raceEnded := Some(s.clock)))
  }

  /** The effect of a label; a label that is not enabled has none. */
  function Next(s: State, l: Label): State {
    if Enabled(s, l) then Effect(s, l).(clock := s.clock + 1) else s
  }

  function Run(s: State, ls: seq<Label>): State
    decreases |ls|
  {
    if ls == [] then s else Next(Run(s, ls[..|ls| - 1]), ls[|ls| - 1])
  }

  // ------------------------------------------------------------------- safety

  /** A final status or a read error was handled before the timer branch ran. */
  ghost predicate RefusedFirst(h: History) {
    && h.reply.Some? && !h.reply.value.Continue?
    && h.replied.Some? && (h.timerRan.Some? ==> h.replied.value < h.timerRan.value)
  }

  /** Reads the history off the state of the two branches. */
  ghost predicate Inv(s: State) {
    var h := s.past;
    && (s.stage == FirstWriting || s.stage == PlainReading ==> s.timer == Waiting && s.read == Reading && h == NOTHING)
    && (h.replied.Some? <==> h.reply.Some?)
    && (h.replied.Some? <==> s.read.ReadingAgain? || s.read.ReadEnded?)
    && (h.timerRan.Some? <==> s.timer.Writing? || s.timer.TimerEnded?)
    && (h.replied.Some? ==> h.replied.value < s.clock && s.timer != Waiting)
    && (h.timerRan.Some? ==> h.timerRan.value < s.clock)
    && (h.replied.Some? && h.timerRan.Some? ==> h.replied != h.timerRan)
    && (s.exp == match h.reply case None => Awaiting case Some(Continue) => Received case Some(_) => Cancelled)
    && (h.bodyStarts == if h.timerRan.Some? && !RefusedFirst(h) then [h.timerRan.value] else [])
    && (s.timer.Writing? ==> h.bodyStarts != [])
    && (h.secondReads == if h.reply == Some(Continue) then [h.replied.value] else [])
    && (s.read.ReadingAgain? ==> h.secondReads != [])
    && (h.raceEnded.Some? ==> s.stage.Completed? && s.timer.TimerEnded? && s.read.ReadEnded?)
    && (s.stage.Completed? && h.raceEnded.None? ==> h == NOTHING)
  }

  lemma StepKeepsInv(s: State, l: Label)
    requires Inv(s)
    ensures Inv(Next(s, l))
  {
  }

  lemma {:induction false} AlwaysInv(ls: seq<Label>)
    ensures Inv(Run(START, ls))
  {
    if ls != [] {
      AlwaysInv(ls[..|ls| - 1]);
      StepKeepsInv(Run(START, ls[..|ls| - 1]), ls[|ls| - 1]);
    }
  }

  /** In every run the body write starts at most once, when the timer branch runs,
      and it starts unless a final status or a read error was handled before. */
  lemma BodyStartsOnceUnlessRefused(ls: seq<Label>)
    ensures var h := Run(START, ls).past;
            && |h.bodyStarts| <= 1
            && (h.timerRan.Some? ==> (h.bodyStarts == [h.timerRan.value] <==> !RefusedFirst(h)))
            && (h.timerRan.None? ==> h.bodyStarts == [])
  {
    AlwaysInv(ls);
  }

  /** A race ends only after both branches ended, and then: the timer branch ran;
      the body was started unless refused; and a received 100 led to both the
      body write and exactly one more header read. */
  lemma RaceEndsComplete(ls: seq<Label>)
    requires Run(START, ls).past.raceEnded.Some?
    ensures var s := Run(START, ls);
            var h := s.past;
            && s.stage.Completed? && s.timer.TimerEnded? && s.read.ReadEnded?
            && h.timerRan.Some? && h.replied.Some?
            && (h.bodyStarts != [] <==> !RefusedFirst(h))
            && (h.reply == Some(Continue) ==> |h.bodyStarts| == 1 && |h.secondReads| == 1)
            && (h.reply != Some(Continue) ==> h.secondReads == [])
  {
    AlwaysInv(ls);
  }

  /** The error of the whole operation: that of the body write if it failed, else
      that of the last header read. */
  lemma RaceResult(s: State, l: Label)
    requires s.stage == Racing && Next(s, l).stage.Completed?
    ensures s.timer.TimerEnded? && s.read.ReadEnded?
    ensures Next(s, l).stage.ec == 0 <==> s.timer.ec == 0 && s.read.ec == 0
    ensures s.timer.ec != 0 ==> Next(s, l).stage.ec == s.timer.ec
    ensures s.timer.ec == 0 ==> Next(s, l).stage.ec == s.read.ec
  {
  }

  // --------------------------------------------- where the error code comes from

  /** The last label of a run takes effect. */
  ghost predicate TakesEffect(ls: seq<Label>) {
    ls != [] && Enabled(Run(START, ls[..|ls| - 1]), ls[|ls| - 1])
  }

  /** The codes and replies that a run's effective labels carry; none if there is
      no such label. */
  ghost function FirstWritten(ls: seq<Label>): Option<FirstWrite> {
    if ls == [] then None
    else if TakesEffect(ls) && ls[|ls| - 1].FirstWriteDone? then Some(ls[|ls| - 1].result)
    else FirstWritten(ls[..|ls| - 1])
  }

  ghost function PlainRead(ls: seq<Label>): Option<ErrorCode> {
    if ls == [] then None
    else if TakesEffect(ls) && ls[|ls| - 1].PlainHeader? then Some(ls[|ls| - 1].ec)
    else PlainRead(ls[..|ls| - 1])
  }

  ghost function Replied(ls: seq<Label>): Option<Reply> {
    if ls == [] then None
    else if TakesEffect(ls) && ls[|ls| - 1].HeaderArrives? then Some(ls[|ls| - 1].reply)
    else Replied(ls[..|ls| - 1])
  }

  ghost function BodyCode(ls: seq<Label>): Option<ErrorCode> {
    if ls == [] then None
    else if TakesEffect(ls) && ls[|ls| - 1].BodyWritten? then Some(ls[|ls| - 1].ec)
    else BodyCode(ls[..|ls| - 1])
  }

  ghost function SecondRead(ls: seq<Label>): Option<ErrorCode> {
    if ls == [] then None
    else if TakesEffect(ls) && ls[|ls| - 1].SecondHeader? then Some(ls[|ls| - 1].ec)
    else SecondRead(ls[..|ls| - 1])
  }

  /** What has been reported so far, and what each part of the state makes of it. */
  datatype Reports = Reports(
    first: Option<FirstWrite>, plain: Option<ErrorCode>, reply: Option<Reply>, body: Option<ErrorCode>,
    second: Option<ErrorCode>)

  ghost function ReportsOf(ls: seq<Label>): Reports {
    Reports(FirstWritten(ls), PlainRead(ls), Replied(ls), BodyCode(ls), SecondRead(ls))
  }

  ghost function RaceCode(r: Reports): ErrorCode {
    if r.body.Some? && r.body.value != 0 then r.body.value
    else if r.second.Some? then r.second.value
    else if r.reply.Some? && r.reply.value.ReadError? then r.reply.value.code + 1
    else 0
  }

  ghost predicate ReadAgrees(read: ReadBranch, r: Reports) {
    match read
    case Reading => r.reply.None? && r.second.None?
    case ReadQueued(reply) => r.reply == Some(reply) && r.second.None?
    case ReadingAgain => r.reply == Some(Continue) && r.second.None?
    case ReadEnded(ec) =>
      && r.reply.Some?
      && (r.reply == Some(Continue) <==> r.second.Some?)
      && ec == match r.second {
                 case Some(code) => code
                 case None => if r.reply.value.ReadError? then r.reply.value.code + 1 else 0
               }
  }

  ghost predicate TimerAgrees(timer: TimerBranch, r: Reports, started: bool) {
    match timer
    case TimerEnded(ec) => (r.body.Some? <==> started) && ec == r.body.GetOr(0)
    case _ => r.body.None?
  }

  ghost predicate Agrees(s: State, r: Reports) {
    && ReadAgrees(s.read, r)
    && TimerAgrees(s.timer, r, s.past.bodyStarts != [])
    && match s.stage
       case FirstWriting => r == Reports(None, None, None, None, None)
       case PlainReading => r == Reports(Some(Sent), None, None, None, None)
       case Racing => r.first == Some(Expecting) && r.plain.None?
       case Completed(ec) =>
         match r.first
         case None => false
         case Some(Failed(code)) => r == Reports(Some(Failed(code)), None, None, None, None) && ec == code + 1
         case Some(Sent) => r == Reports(Some(Sent), Some(ec), None, None, None)
         case Some(Expecting) =>
           s.timer.TimerEnded? && s.read.ReadEnded? && r.plain.None? && ec == RaceCode(r)
  }

  /** The reports after one more effective label. */
  ghost function Reported(r: Reports, l: Label): Reports {
    match l
    case FirstWriteDone(result) => r.(first := Some(result))
    case PlainHeader(ec) => r.(plain := Some(ec))
    case HeaderArrives(reply) => r.(reply := Some(reply))
    case BodyWritten(ec) => r.(body := Some(ec))
    case SecondHeader(ec) => r.(second := Some(ec))
    case _ => r
  }

  lemma StepAgrees(s: State, l: Label, r: Reports)
    requires Inv(s) && Agrees(s, r)
    ensures Agrees(Next(s, l), if Enabled(s, l) then Reported(r, l) else r)
  {
  }

  lemma {:induction false} AlwaysAgrees(ls: seq<Label>)
    ensures Agrees(Run(START, ls), ReportsOf(ls))
  {
    if ls != [] {
      var init, l := ls[..|ls| - 1], ls[|ls| - 1];
      AlwaysAgrees(init);
      AlwaysInv(init);
      StepAgrees(Run(START, init), l, ReportsOf(init));
    }
  }

  /** The code of a completed operation, from what was reported to it: that of the
      failed first write; that of the header read when nothing was expected; after
      a race that of the body write if it failed, else that of the second header
      read, else that of the first. */
  lemma CompletedCode(ls: seq<Label>)
    requires Run(START, ls).stage.Completed?
    ensures FirstWritten(ls).Some?
    ensures var ec := Run(START, ls).stage.ec;
            match FirstWritten(ls).value
            case Failed(code) => ec == code + 1
            case Sent => PlainRead(ls) == Some(ec)
            case Expecting =>
              && Replied(ls).Some?
              && (SecondRead(ls).Some? <==> Replied(ls) == Some(Continue))
              && (BodyCode(ls).Some? <==> Run(START, ls).past.bodyStarts != [])
              && (BodyCode(ls).Some? && BodyCode(ls).value != 0 ==> ec == BodyCode(ls).value)
              && (BodyCode(ls).GetOr(0) == 0 && SecondRead(ls).Some? ==> ec == SecondRead(ls).value)
              && (BodyCode(ls).GetOr(0) == 0 && SecondRead(ls).None? ==>
                    ec == if Replied(ls).value.ReadError? then Replied(ls).value.code + 1 else 0)
  {
    AlwaysAgrees(ls);
  }

  // ------------------------------------------------------------------ progress

  /** Until it is completed an operation can always move on, and once a reply was
      handled it no longer depends on the timer's deadline. */
  lemma NeverStuck(ls: seq<Label>) returns (l: Label)
    requires !Run(START, ls).stage.Completed?
    ensures Enabled(Run(START, ls), l)
    ensures Run(START, ls).past.replied.Some? ==> l != TimerExpires
  {
    AlwaysInv(ls);
    var s := Run(START, ls);
    match s.stage {
      case FirstWriting => l := FirstWriteDone(Sent);
      case PlainReading => l := PlainHeader(0);
      case Racing =>
        match s.timer {
          case Waiting => l := TimerExpires;
          case TimerQueued => l := TimerHandler;
          case Writing => l := BodyWritten(0);
          case TimerEnded(_) =>
            match s.read {
              case Reading => l := HeaderArrives(Final);
              case ReadQueued(_) => l := HeaderHandler;
              case ReadingAgain => l := SecondHeader(0);
              case ReadEnded(_) => l := GroupDone;
            }
        }
    }
  }

  ghost function Ahead(s: State): nat {
    (match s.stage case FirstWriting => 2 case PlainReading => 1 case Racing => 1 case Completed(_) => 0)
    + (match s.timer case Waiting => 3 case TimerQueued => 2 case Writing => 1 case TimerEnded(_) => 0)
    + (match s.read case Reading => 3 case ReadQueued(_) => 2 case ReadingAgain => 1 case ReadEnded(_) => 0)
  }

  /** No run has more than eight effective steps. */
  lemma {:induction false} RunsAreShort(ls: seq<Label>)
    ensures Run(START, ls).clock + Ahead(Run(START, ls)) <= 8
  {
    if ls != [] {
      RunsAreShort(ls[..|ls| - 1]);
    }
  }

  // ---------------------------------------------------------------- the object

  /** The operation with the fields its handlers update. */
  class RequestOp {
    var stage: Stage
    var exp: Exp
    var timer: TimerBranch
    var read: ReadBranch
    ghost var clock: nat
    ghost var past: History

    ghost function View(): State
      reads this
    {
      State(stage, exp, timer, read, clock, past)
    }

    constructor ()
      ensures View() == START
    {
      stage, exp, timer, read, clock, past := FirstWriting, Awaiting, Waiting, Reading, 0, NOTHING;
    }

    /** The continuation of the timer wait; its error code is ignored. */
    method OnTimer()
      requires Enabled(View(), TimerHandler)
      modifies this
      ensures View() == Next(old(View()), TimerHandler)
    {
      past := past.(timerRan := Some(clock));
      if exp != Cancelled {
        timer := Writing;
        past := past.(bodyStarts := past.bodyStarts + [clock]);
      } else {
        timer := TimerEnded(0);
      }
      clock := clock + 1;
    }

    /** The continuation of the first header read. */
    method OnHeader()
      requires Enabled(View(), HeaderHandler)
      modifies this
      ensures View() == Next(old(View()), HeaderHandler)
    {
      var reply := read.reply;
      past := past.(replied := Some(clock), reply := Some(reply));
      if timer == Waiting {
        timer := TimerQueued;
      }
      if reply != Continue {
        exp := Cancelled;
      } else {
        exp := Received;
      }
      if exp == Received {
        read := ReadingAgain;
        past := past.(secondReads := past.secondReads + [clock]);
      } else {
        read := ReadEnded(if reply.ReadError? then reply.code + 1 else 0);
      }
      clock := clock + 1;
    }

    /** The handler of the finished parallel group. */
    method OnGroupDone()
      requires Enabled(View(), GroupDone)
      modifies this
      ensures View() == Next(old(View()), GroupDone)
    {
      stage := Completed(if timer.ec != 0 then timer.ec else read.ec);
      past := past.(raceEnded := Some(clock));
      clock := clock + 1;
    }
  }
}
