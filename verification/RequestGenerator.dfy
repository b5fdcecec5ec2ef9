/** The generator of transfers: every URL argument's expansions, in command-line
    order, each with the output name made from that expansion's own tokens. */
module RequestGenerator {
  import opened Basics
  import opened Wrappers
  import opened Cartesian
  import opened Generators
  import opened Globbing
  import opened EndlessGlobs
  import Interpolation

  datatype RequestInfo = RequestInfo(urlGen: GlobState, output: string, input: string, remoteName: bool)

  datatype RequestOpt = RequestOpt(url: string, output: string, input: string, remoteName: bool)

  type Produced = Result<RequestOpt, Interpolation.Error>

  /** The transfer made of one expansion. */
  function Transfer(info: RequestInfo, g: GlobResult): Produced {
    match Interpolation.Interpolated(info.output, g.tokens)
    case Ok(name) => Ok(RequestOpt(g.result, name, info.input, info.remoteName))
    case Err(e) => Err(e)
  }

  function Transfers(info: RequestInfo, gs: seq<GlobResult>): seq<Produced> {
    if gs == [] then [] else [Transfer(info, gs[0])] + Transfers(info, gs[1..])
  }

  // ------------------------------------------------------- what a transfer holds

  /** One expansion of a URL argument and what the argument says besides. */
  datatype Job = Job(output: string, input: string, remoteName: bool, expansion: GlobResult)

  ghost function JobsOf(output: string, input: string, remoteName: bool, gs: seq<GlobResult>): (jobs: seq<Job>)
    ensures |jobs| == |gs| && forall i | 0 <= i < |gs| :: jobs[i] == Job(output, input, remoteName, gs[i])
  {
    seq(|gs|, i requires 0 <= i < |gs| => Job(output, input, remoteName, gs[i]))
  }

  /** The transfer has the expansion's text as URL and the argument's output name with
      the expansion's own tokens filled in. */
  ghost predicate Fulfils(t: RequestOpt, job: Job) {
    && t.url == job.expansion.result
    && Interpolation.Interpolated(job.output, job.expansion.tokens) == Ok(t.output)
    && t.input == job.input
    && t.remoteName == job.remoteName
  }

  ghost predicate Meets(p: Produced, job: Job) {
    match p
    case Ok(t) => Fulfils(t, job)
    case Err(e) => Interpolation.Interpolated(job.output, job.expansion.tokens) == Err(e)
  }

  ghost predicate AllMeet(ps: seq<Produced>, jobs: seq<Job>) {
    |ps| == |jobs| && forall j | 0 <= j < |ps| :: Meets(ps[j], jobs[j])
  }

  lemma {:induction false} TransfersMeet(info: RequestInfo, gs: seq<GlobResult>)
    ensures AllMeet(Transfers(info, gs), JobsOf(info.output, info.input, info.remoteName, gs))
  {
    if gs != [] {
      TransfersMeet(info, gs[1..]);
      var jobs := JobsOf(info.output, info.input, info.remoteName, gs);
      assert jobs[1..] == JobsOf(info.output, info.input, info.remoteName, gs[1..]);
      MeetBehind(Transfer(info, gs[0]), jobs[0], Transfers(info, gs[1..]), jobs[1..]);
      assert jobs == [jobs[0]] + jobs[1..];
    }
  }

  lemma MeetBehind(p: Produced, job: Job, ps: seq<Produced>, jobs: seq<Job>)
    requires Meets(p, job) && AllMeet(ps, jobs)
    ensures AllMeet([p] + ps, [job] + jobs)
  {
  }

  lemma MeetConcat(ps: seq<Produced>, jobs: seq<Job>, qs: seq<Produced>, more: seq<Job>)
    requires AllMeet(ps, jobs) && AllMeet(qs, more)
    ensures AllMeet(ps + qs, jobs + more)
  {
    forall j | 0 <= j < |ps + qs|
      ensures Meets((ps + qs)[j], (jobs + more)[j])
    {
      if j < |ps| {
        assert Meets(ps[j], jobs[j]);
      } else {
        assert Meets(qs[j - |ps|], more[j - |ps|]);
      }
    }
  }

  /** The jobs were done in order, all of them or up to one whose output name throws. */
  ghost predicate DoneUpTo(jobs: seq<Job>, all: seq<RequestOpt>, error: Option<Interpolation.Error>) {
    && |all| <= |jobs|
    && (forall j | 0 <= j < |all| :: Fulfils(all[j], jobs[j]))
    && (error.Some? ==>
          && |all| < |jobs|
          && Interpolation.Interpolated(jobs[|all|].output, jobs[|all|].expansion.tokens) == Err(error.value))
  }

  lemma DeliveredIsDone(items: seq<Produced>, jobs: seq<Job>, all: seq<RequestOpt>, error: Option<Interpolation.Error>)
    requires AllMeet(items, jobs) && Delivered(items, all)
    requires error.Some? ==> |all| < |items| && items[|all|] == Err(error.value)
    ensures DoneUpTo(jobs, all, error)
  {
    forall j | 0 <= j < |all|
      ensures Fulfils(all[j], jobs[j])
    {
      assert Meets(items[j], jobs[j]);
    }
    if error.Some? {
      assert Meets(items[|all|], jobs[|all|]);
    }
  }

  // -------------------------------------------------- what is still to come

  /** A view of a URL argument's expansions: what its generators will give, or
      the beginning of it. */
  ghost predicate Sees(info: RequestInfo, fs: seq<Frame>) {
    info.urlGen.Ready() && Shows(info.urlGen.stack, fs) && WalkOk(fs, info.urlGen.tokens)
  }

  ghost predicate AllSeen(infos: seq<RequestInfo>, views: seq<seq<Frame>>) {
    |views| == |infos| && forall i | 0 <= i < |infos| :: Sees(infos[i], views[i])
  }

  /** The views reach far enough for `k` calls. */
  ghost predicate Covers(infos: seq<RequestInfo>, views: seq<seq<Frame>>, k: nat) {
    AllSeen(infos, views) && forall i | 0 <= i < |views| :: Ample(views[i], k)
  }

  ghost function Expansions(info: RequestInfo, fs: seq<Frame>): seq<Produced>
    requires Sees(info, fs)
  {
    Transfers(info, Remaining(fs, info.urlGen.tokens))
  }

  /** All transfers of a list of URL arguments, in the order of the list. */
  ghost function InOrder(infos: seq<RequestInfo>, views: seq<seq<Frame>>): seq<Produced>
    requires AllSeen(infos, views)
  {
    if infos == [] then [] else Expansions(infos[0], views[0]) + InOrder(infos[1..], views[1..])
  }

  /** All transfers of a list kept as a stack: last element first. */
  ghost function FromTheBack(infos: seq<RequestInfo>, views: seq<seq<Frame>>): seq<Produced>
    requires AllSeen(infos, views)
  {
    if infos == [] then []
    else
      var n := |infos| - 1;
      Expansions(infos[n], views[n]) + FromTheBack(infos[..n], views[..n])
  }

  function Reversed<T>(s: seq<T>): (r: seq<T>)
    ensures |r| == |s| && forall i | 0 <= i < |r| :: r[i] == s[|s| - 1 - i]
  {
    seq(|s|, i requires 0 <= i < |s| => s[|s| - 1 - i])
  }

  lemma ReversedTail<T>(s: seq<T>)
    requires s != []
    ensures Reversed(s)[|s| - 1] == s[0] && Reversed(s)[..|s| - 1] == Reversed(s[1..])
  {
  }

  /** Popping a reversed list from the back is going through it in order. */
  lemma {:induction false} ReverseUndoesStack(infos: seq<RequestInfo>, views: seq<seq<Frame>>)
    requires AllSeen(infos, views)
    ensures AllSeen(Reversed(infos), Reversed(views))
    ensures FromTheBack(Reversed(infos), Reversed(views)) == InOrder(infos, views)
  {
    if infos != [] {
      ReverseUndoesStack(infos[1..], views[1..]);
      ReversedTail(infos);
      ReversedTail(views);
    }
  }

  lemma TransfersKeepLabels(a: RequestInfo, b: RequestInfo, gs: seq<GlobResult>)
    requires a.output == b.output && a.input == b.input && a.remoteName == b.remoteName
    ensures Transfers(a, gs) == Transfers(b, gs)
  {
  }

  /** Taking the first expansion of an argument. */
  lemma ExpansionTaken(info: RequestInfo, fs: seq<Frame>, info': RequestInfo, fs': seq<Frame>, first: GlobResult)
    requires Sees(info, fs) && Sees(info', fs')
    requires info' == info.(urlGen := info'.urlGen)
    requires Remaining(fs, info.urlGen.tokens) == [first] + Remaining(fs', info'.urlGen.tokens)
    ensures Expansions(info, fs) == [Transfer(info', first)] + Expansions(info', fs')
  {
    var more := Remaining(fs', info'.urlGen.tokens);
    TransfersKeepLabels(info, info', [first] + more);
    assert ([first] + more)[1..] == more;
  }

  lemma BackReplaced(infos: seq<RequestInfo>, views: seq<seq<Frame>>, info': RequestInfo, fs': seq<Frame>)
    requires AllSeen(infos, views) && infos != [] && Sees(info', fs')
    ensures var n := |infos| - 1;
            && AllSeen(infos[n := info'], views[n := fs'])
            && AllSeen(infos[..n], views[..n])
            && FromTheBack(infos[n := info'], views[n := fs'])
               == Expansions(info', fs') + FromTheBack(infos[..n], views[..n])
  {
    var n := |infos| - 1;
    assert infos[n := info'][..n] == infos[..n];
    assert views[n := fs'][..n] == views[..n];
  }

  /** Calling the generator at the back takes its first pending transfer. */
  lemma BackAdvances(infos: seq<RequestInfo>, views: seq<seq<Frame>>, info': RequestInfo, fs': seq<Frame>,
                     p: Produced)
    requires AllSeen(infos, views) && infos != [] && Sees(info', fs')
    requires Expansions(infos[|infos| - 1], views[|infos| - 1]) == [p] + Expansions(info', fs')
    ensures AllSeen(infos[|infos| - 1 := info'], views[|infos| - 1 := fs'])
    ensures FromTheBack(infos, views)
         == [p] + FromTheBack(infos[|infos| - 1 := info'], views[|infos| - 1 := fs'])
  {
    var n := |infos| - 1;
    BackReplaced(infos, views, info', fs');
    ConcatAssociates([p], Expansions(info', fs'), FromTheBack(infos[..n], views[..n]));
  }

  lemma CoversReplaced(infos: seq<RequestInfo>, views: seq<seq<Frame>>, info': RequestInfo, fs': seq<Frame>, k: nat)
    requires infos != [] && k >= 1 && Covers(infos, views, k) && Sees(info', fs') && Ample(fs', k - 1)
    ensures Covers(infos[|infos| - 1 := info'], views[|infos| - 1 := fs'], k - 1)
  {
    BackReplaced(infos, views, info', fs');
    AmpleReplaced(views, fs', k);
  }

  lemma AmpleReplaced(views: seq<seq<Frame>>, fs': seq<Frame>, k: nat)
    requires views != [] && k >= 1 && Ample(fs', k - 1) && forall i | 0 <= i < |views| :: Ample(views[i], k)
    ensures var views' := views[|views| - 1 := fs'];
            forall i | 0 <= i < |views'| :: Ample(views'[i], k - 1)
  {
    var views' := views[|views| - 1 := fs'];
    forall i | 0 <= i < |views'|
      ensures Ample(views'[i], k - 1)
    {
      if i < |views| - 1 {
        LessIsAmple(views[i], k);
      }
    }
  }

  /** A generator that has nothing left contributes nothing. */
  lemma BackDrops(infos: seq<RequestInfo>, views: seq<seq<Frame>>)
    requires AllSeen(infos, views) && infos != []
    requires Remaining(views[|infos| - 1], infos[|infos| - 1].urlGen.tokens) == []
    ensures AllSeen(infos[..|infos| - 1], views[..|infos| - 1])
    ensures FromTheBack(infos[..|infos| - 1], views[..|infos| - 1]) == FromTheBack(infos, views)
  {
    assert Expansions(infos[|infos| - 1], views[|infos| - 1]) == [];
  }

  method MakeTransfer(info: RequestInfo, g: GlobResult) returns (r: Produced)
    ensures r == Transfer(info, g)
  {
    var name := Interpolation.Interpolate(info.output, g.tokens);
    match name {
      case Ok(file) => r := Ok(RequestOpt(g.result, file, info.input, info.remoteName));
      case Err(e) => r := Err(e);
    }
  }

  /** One turn of the closure's loop: a transfer of the last URL argument, or the
      list without that argument. */
  method Turn(infos: seq<RequestInfo>, ghost views: seq<seq<Frame>>, ghost k: nat)
    returns (r: Option<Produced>, infos': seq<RequestInfo>, ghost views': seq<seq<Frame>>)
    requires infos != [] && k >= 1 && Covers(infos, views, k)
    ensures Covers(infos', views', if r.Some? then k - 1 else k)
    ensures r.Some? ==> FromTheBack(infos, views) == [r.value] + FromTheBack(infos', views')
    ensures r.None? ==> infos' == infos[..|infos| - 1] && FromTheBack(infos, views) == FromTheBack(infos', views')
  {
    var n := |infos| - 1;
    var info := infos[n];
    assert Sees(info, views[n]) && Ample(views[n], k);
    ghost var fs';
    var o, g';
    o, g', fs' := Call(info.urlGen, views[n], k);
    if o.Some? {
      info := info.(urlGen := g');
      assert Sees(info, fs');
      ExpansionTaken(infos[n], views[n], info, fs', o.value);
      BackAdvances(infos, views, info, fs', Transfer(info, o.value));
      CoversReplaced(infos, views, info, fs', k);
      var t := MakeTransfer(info, o.value);
      r, infos', views' := Some(t), infos[n := info], views[n := fs'];
    } else {
      BackDrops(infos, views);
      r, infos', views' := None, infos[..n], views[..n];
    }
  }

  /** The closure request_opt_gen; it owns the URL arguments, last one first. The
      ghost fields say how much of their expansions is looked at, and for how
      many calls that is enough. */
  class RequestOptGen {
    var requests: seq<RequestInfo>
    ghost var views: seq<seq<Frame>>
    ghost var calls: nat

    ghost predicate Valid()
      reads this
    {
      Covers(requests, views, calls)
    }

    ghost function Pending(): seq<Produced>
      requires Valid()
      reads this
    {
      FromTheBack(requests, views)
    }

    constructor (infos: seq<RequestInfo>, ghost vs: seq<seq<Frame>>, ghost k: nat)
      requires Covers(infos, vs, k)
      ensures Valid() && calls == k && Pending() == InOrder(infos, vs)
    {
      requests := Reversed(infos);
      views := Reversed(vs);
      calls := k;
      ReverseUndoesStack(infos, vs);
    }

    method Next() returns (r: Option<Produced>)
      requires Valid() && calls >= 1
      modifies this
      ensures Valid() && calls == old(calls) - 1
      ensures Takes(old(Pending()), r, Pending())
    {
      while requests != []
        invariant Valid() && calls == old(calls)
        invariant Pending() == old(Pending())
        decreases |requests|
      {
        r, requests, views := Turn(requests, views, calls);
        if r.Some? {
          calls := calls - 1;
          return;
        }
      }
      r := None;
      calls := calls - 1;
    }
  }

  // ------------------------------------------------------------- whole command lines

  /** The first transfers were made without an exception. */
  ghost predicate Delivered(items: seq<Produced>, all: seq<RequestOpt>) {
    |all| <= |items| && forall i | 0 <= i < |all| :: items[i] == Ok(all[i])
  }

  lemma OneDelivered(items: seq<Produced>, all: seq<RequestOpt>, p: Produced, left: seq<Produced>)
    requires Delivered(items, all) && Takes(items[|all|..], Some(p), left)
    ensures |all| < |items| && items[|all|] == p
    ensures p.Ok? ==> Delivered(items, all + [p.value]) && items[|all| + 1..] == left
  {
    assert items[|all|..][0] == p;
    assert items[|all|..][1..] == items[|all| + 1..];
  }

  /** The loop that starts the transfers, for at most `n` of them: it gets the
      first ones in command-line order, unless making an output name throws,
      which ends the loop there. */
  method Start(infos: seq<RequestInfo>, ghost views: seq<seq<Frame>>, n: nat)
    returns (all: seq<RequestOpt>, error: Option<Interpolation.Error>)
    requires Covers(infos, views, n)
    ensures |all| <= n && Delivered(InOrder(infos, views), all)
    ensures error.None? ==> |all| == n || |all| == |InOrder(infos, views)|
    ensures error.Some? ==> |all| < |InOrder(infos, views)| && InOrder(infos, views)[|all|] == Err(error.value)
  {
    all := [];
    if n == 0 {
      return all, None;
    }
    ghost var items := InOrder(infos, views);
    var gen := new RequestOptGen(infos, views, n);
    var o := gen.Next();
    ghost var left := gen.Pending();
    while o.Some?
      invariant |all| < n && gen.Valid() && gen.Pending() == left && gen.calls == n - |all| - 1
      invariant Delivered(items, all) && Takes(items[|all|..], o, left)
      decreases |items| - |all|
    {
      OneDelivered(items, all, o.value, left);
      if o.value.Err? {
        return all, Some(o.value.error);
      }
      all := all + [o.value.value];
      if |all| == n {
        return all, None;
      }
      o := gen.Next();
      left := gen.Pending();
    }
    return all, None;
  }

  // ------------------------------------------------- arguments whose generators stop

  ghost predicate AllValid(infos: seq<RequestInfo>) {
    forall i | 0 <= i < |infos| :: infos[i].urlGen.Valid()
  }

  /** All transfers of arguments whose generators stop, in the order of the list. */
  ghost function AllTransfers(infos: seq<RequestInfo>): seq<Produced>
    requires AllValid(infos)
  {
    if infos == [] then []
    else Transfers(infos[0], infos[0].urlGen.Pending()) + AllTransfers(infos[1..])
  }

  ghost function AllJobs(infos: seq<RequestInfo>): seq<Job>
    requires AllValid(infos)
  {
    if infos == [] then []
    else
      JobsOf(infos[0].output, infos[0].input, infos[0].remoteName, infos[0].urlGen.Pending()) + AllJobs(infos[1..])
  }

  lemma {:induction false} AllTransfersMeet(infos: seq<RequestInfo>)
    requires AllValid(infos)
    ensures AllMeet(AllTransfers(infos), AllJobs(infos))
  {
    if infos != [] {
      AllTransfersMeet(infos[1..]);
      var info := infos[0];
      var gs := info.urlGen.Pending();
      TransfersMeet(info, gs);
      MeetConcat(Transfers(info, gs), JobsOf(info.output, info.input, info.remoteName, gs),
                 AllTransfers(infos[1..]), AllJobs(infos[1..]));
    }
  }

  ghost function FullViews(infos: seq<RequestInfo>): (views: seq<seq<Frame>>)
    requires AllValid(infos)
    ensures |views| == |infos| && forall i | 0 <= i < |infos| :: views[i] == Frames(infos[i].urlGen.stack)
  {
    seq(|infos|, i requires 0 <= i < |infos| => Frames(infos[i].urlGen.stack))
  }

  lemma FullViewCovers(info: RequestInfo, k: nat)
    requires info.urlGen.Valid()
    ensures Sees(info, Frames(info.urlGen.stack)) && Ample(Frames(info.urlGen.stack), k)
  {
    FramesShow(info.urlGen.stack);
    ShownIsReady(info.urlGen, Frames(info.urlGen.stack));
  }

  lemma FullViewsCover(infos: seq<RequestInfo>, k: nat)
    requires AllValid(infos)
    ensures Covers(infos, FullViews(infos), k)
  {
    forall i | 0 <= i < |infos|
      ensures Sees(infos[i], FullViews(infos)[i]) && Ample(FullViews(infos)[i], k)
    {
      FullViewCovers(infos[i], k);
    }
  }

  lemma {:induction false} FullViewsShowAll(infos: seq<RequestInfo>)
    requires AllValid(infos)
    ensures AllSeen(infos, FullViews(infos)) && InOrder(infos, FullViews(infos)) == AllTransfers(infos)
  {
    FullViewsCover(infos, 0);
    if infos != [] {
      FullViewsShowAll(infos[1..]);
      assert FullViews(infos)[1..] == FullViews(infos[1..]);
    }
  }

  /** The whole loop: all transfers, in command-line order, unless making an
      output name throws, which ends the loop there. */
  method DrainAll(infos: seq<RequestInfo>) returns (all: seq<RequestOpt>, error: Option<Interpolation.Error>)
    requires AllValid(infos)
    ensures DoneUpTo(AllJobs(infos), all, error)
    ensures error.None? ==> |all| == |AllJobs(infos)|
  {
    all, error := Drain(infos);
    AllTransfersMeet(infos);
    DeliveredIsDone(AllTransfers(infos), AllJobs(infos), all, error);
  }

  method Drain(infos: seq<RequestInfo>) returns (all: seq<RequestOpt>, error: Option<Interpolation.Error>)
    requires AllValid(infos)
    ensures Delivered(AllTransfers(infos), all)
    ensures error.None? ==> |all| == |AllTransfers(infos)|
    ensures error.Some? ==> |all| < |AllTransfers(infos)| && AllTransfers(infos)[|all|] == Err(error.value)
  {
    ghost var items := AllTransfers(infos);
    FullViewsCover(infos, |items| + 1);
    FullViewsShowAll(infos);
    var gen := new RequestOptGen(infos, FullViews(infos), |items| + 1);
    all := [];
    var o := gen.Next();
    ghost var left := gen.Pending();
    while o.Some?
      invariant gen.Valid() && gen.Pending() == left && gen.calls == |items| - |all|
      invariant Delivered(items, all) && Takes(items[|all|..], o, left)
      decreases |items| - |all|
    {
      OneDelivered(items, all, o.value, left);
      if o.value.Err? {
        return all, Some(o.value.error);
      }
      all := all + [o.value.value];
      o := gen.Next();
      left := gen.Pending();
    }
    return all, None;
  }

  // ------------------------------------------- arguments whose generators may go on

  datatype UrlArgument = UrlArgument(gens: seq<Gen>, output: string, input: string, remoteName: bool)

  predicate Returns(arg: UrlArgument) { arg.gens != [] && AllTyped(arg.gens) && Productive(arg.gens) }

  predicate AllReturn(args: seq<UrlArgument>) { forall i | 0 <= i < |args| :: Returns(args[i]) }

  ghost function Named(arg: UrlArgument): RequestInfo
    requires Returns(arg)
  {
    RequestInfo(Fresh(arg.gens), arg.output, arg.input, arg.remoteName)
  }

  /** The transfers of one argument, with generators that do not stop cut off
      after `n` texts. */
  ghost function PlannedFor(arg: UrlArgument, n: nat): seq<Produced>
    requires Returns(arg)
  {
    Transfers(Named(arg), Product(View(arg.gens, n)))
  }

  ghost function Planned(args: seq<UrlArgument>, n: nat): seq<Produced>
    requires AllReturn(args)
  {
    if args == [] then [] else Planned(args[..|args| - 1], n) + PlannedFor(args[|args| - 1], n)
  }

  /** The expansions of all arguments, in command-line order, with generators that do
      not stop cut off after `n` texts. */
  ghost function Plan(args: seq<UrlArgument>, n: nat): seq<Job>
    requires AllReturn(args)
  {
    if args == [] then []
    else
      var arg := args[|args| - 1];
      Plan(args[..|args| - 1], n) + JobsOf(arg.output, arg.input, arg.remoteName, Product(View(arg.gens, n)))
  }

  lemma {:induction false} PlannedMeets(args: seq<UrlArgument>, n: nat)
    requires AllReturn(args)
    ensures AllMeet(Planned(args, n), Plan(args, n))
  {
    if args != [] {
      var init, arg := args[..|args| - 1], args[|args| - 1];
      PlannedMeets(init, n);
      TransfersMeet(Named(arg), Product(View(arg.gens, n)));
      MeetConcat(Planned(init, n), Plan(init, n), PlannedFor(arg, n),
                 JobsOf(arg.output, arg.input, arg.remoteName, Product(View(arg.gens, n))));
    }
  }

  lemma AllSeenAppend(infos: seq<RequestInfo>, views: seq<seq<Frame>>, info: RequestInfo, fs: seq<Frame>)
    requires AllSeen(infos, views) && Sees(info, fs)
    ensures AllSeen(infos + [info], views + [fs])
  {
  }

  lemma InOrderFirst(info: RequestInfo, fs: seq<Frame>, infos: seq<RequestInfo>, views: seq<seq<Frame>>)
    requires AllSeen(infos, views) && Sees(info, fs)
    ensures AllSeen([info] + infos, [fs] + views)
    ensures InOrder([info] + infos, [fs] + views) == Expansions(info, fs) + InOrder(infos, views)
  {
    assert ([info] + infos)[1..] == infos && ([fs] + views)[1..] == views;
  }

  lemma AppendBehind(a: RequestInfo, v: seq<Frame>, tail: seq<RequestInfo>, seen: seq<seq<Frame>>,
                     info: RequestInfo, fs: seq<Frame>)
    requires Sees(a, v) && AllSeen(tail, seen) && AllSeen(tail + [info], seen + [fs]) && Sees(info, fs)
    requires InOrder(tail + [info], seen + [fs]) == InOrder(tail, seen) + Expansions(info, fs)
    ensures AllSeen([a] + tail, [v] + seen) && AllSeen(([a] + tail) + [info], ([v] + seen) + [fs])
    ensures InOrder(([a] + tail) + [info], ([v] + seen) + [fs])
         == InOrder([a] + tail, [v] + seen) + Expansions(info, fs)
  {
    ConcatAssociates([a], tail, [info]);
    ConcatAssociates([v], seen, [fs]);
    InOrderFirst(a, v, tail + [info], seen + [fs]);
    InOrderFirst(a, v, tail, seen);
    ConcatAssociates(Expansions(a, v), InOrder(tail, seen), Expansions(info, fs));
  }

  lemma {:induction false} InOrderAppend(infos: seq<RequestInfo>, views: seq<seq<Frame>>, info: RequestInfo,
                                         fs: seq<Frame>)
    requires AllSeen(infos, views) && Sees(info, fs)
    ensures AllSeen(infos + [info], views + [fs])
    ensures InOrder(infos + [info], views + [fs]) == InOrder(infos, views) + Expansions(info, fs)
  {
    AllSeenAppend(infos, views, info, fs);
    if infos == [] {
      assert infos + [info] == [info] + infos && views + [fs] == [fs] + views;
      InOrderFirst(info, fs, infos, views);
    } else {
      InOrderAppend(infos[1..], views[1..], info, fs);
      AppendBehind(infos[0], views[0], infos[1..], views[1..], info, fs);
      assert infos == [infos[0]] + infos[1..] && views == [views[0]] + views[1..];
    }
  }

  lemma CoversAppend(infos: seq<RequestInfo>, views: seq<seq<Frame>>, info: RequestInfo, fs: seq<Frame>, k: nat)
    requires Covers(infos, views, k) && Sees(info, fs) && Ample(fs, k)
    ensures Covers(infos + [info], views + [fs], k)
  {
    AllSeenAppend(infos, views, info, fs);
  }

  lemma PlannedMore(args: seq<UrlArgument>, i: nat, n: nat)
    requires AllReturn(args) && i < |args|
    ensures Planned(args[..i + 1], n) == Planned(args[..i], n) + PlannedFor(args[i], n)
  {
    assert args[..i + 1][..i] == args[..i];
  }

  /** The closure of one argument, with a view of it for `n` calls. */
  method MakeInfo(arg: UrlArgument, ghost n: nat) returns (info: RequestInfo, ghost fs: seq<Frame>)
    requires Returns(arg) && n >= 1
    ensures Sees(info, fs) && Ample(fs, n) && Expansions(info, fs) == PlannedFor(arg, n)
  {
    var g := MakeGenerator(arg.gens);
    info := RequestInfo(g, arg.output, arg.input, arg.remoteName);
    fs := [Frame("", View(arg.gens, n))];
    assert GensShow(arg.gens, View(arg.gens, n));
    ViewIsAmple(arg.gens, n);
    TransfersKeepLabels(info, Named(arg), Product(View(arg.gens, n)));
  }

  /** For every command line on which calls return, and every `n`: the first `n`
      transfers are the first `n` planned ones. */
  method FirstTransfers(args: seq<UrlArgument>, n: nat)
    returns (all: seq<RequestOpt>, error: Option<Interpolation.Error>)
    requires AllReturn(args)
    ensures |all| <= n && DoneUpTo(Plan(args, n), all, error)
    ensures error.None? ==> |all| == n || |all| == |Plan(args, n)|
  {
    PlannedMeets(args, n);
    if n == 0 {
      return [], None;
    }
    var infos: seq<RequestInfo> := [];
    ghost var views: seq<seq<Frame>> := [];
    for i := 0 to |args|
      invariant Covers(infos, views, n) && InOrder(infos, views) == Planned(args[..i], n)
    {
      var info;
      ghost var fs;
      info, fs := MakeInfo(args[i], n);
      InOrderAppend(infos, views, info, fs);
      CoversAppend(infos, views, info, fs, n);
      PlannedMore(args, i, n);
      infos, views := infos + [info], views + [fs];
    }
    assert args[..|args|] == args;
    all, error := Start(infos, views, n);
    DeliveredIsDone(Planned(args, n), Plan(args, n), all, error);
  }
}
