// When has_next's "true" is right, and when a call that it let in returns.
//
// The reader may drain the last batch before `_eof` is written, or may combine the loads of an
// empty source from before and after its only switch; has_next then lets it in to wait for ever.
module DoubleBufferCalls {
  import opened Options
  import opened DoubleBuffer
  import opened DoubleBufferInvariant
  import opened DoubleBufferSafety
  import opened DoubleBufferProgress
  import opened DoubleBufferRuns
  import opened DoubleBufferOutcomes

  // ---------- has_next answers "true" ----------

  // The loads of has_next, for a non-empty source: a stale one is from before the only switch that
  // can have happened since, so it makes the buffer look emptier than it is.
  predicate AskView(s: State)
  {
    s.rpc.RHas? && N(s) > 0 ==>
      var v := s.rpc.view;
      && (v.ridx.Some? && v.ridx.value != s.m.ridx ==>
            v.ridx.value == s.cfg.size && s.m.ridx == 0 && !Switching(s.ld.pc))
      && (v.rest.Some? && v.rest.value != s.m.rest ==>
            v.rest.value == s.cfg.size && (s.ld.pc.LSetRidx? || (s.m.ridx == 0 && !Switching(s.ld.pc))))
  }

  lemma AskViewLoader(s: State)
    requires Sized(s) && LoaderFacts(s) && LoaderView(s) && AskView(s) && Enabled(s, Stmt(Loader))
    ensures AskView(LoaderStmt(s))
  {
  }

  lemma AskViewReader(s: State)
    requires AskView(s) && Enabled(s, Stmt(Reader))
    ensures AskView(ReaderStmt(s))
  {
  }

  lemma AskViewOther(s: State, l: Label)
    requires Sized(s) && LoaderFacts(s) && AskView(s) && Enabled(s, l) && !l.Stmt?
    ensures AskView(OtherStep(s, l))
  {
  }

  lemma AskViewKept(s: State, l: Label)
    requires Sized(s) && LoaderFacts(s) && LoaderView(s) && AskView(s) && Enabled(s, l)
    ensures AskView(Apply(s, l))
  {
    hide *;
    ApplyIs(s, l);
    match l
    case Stmt(Loader) => AskViewLoader(s);
    case Stmt(Reader) => AskViewReader(s);
    case _ => AskViewOther(s, l);
  }

  lemma {:induction false} AskViewRun(s: State, ls: seq<Label>)
    requires Inv(s) && AskView(s) && Run(s, ls).Some?
    ensures Inv(Run(s, ls).value) && AskView(Run(s, ls).value)
    decreases |ls|
  {
    hide AskView;
    if ls != [] {
      StepInv(s, ls[0]);
      AskViewKept(s, ls[0]);
      AskViewRun(Apply(s, ls[0]), ls[1..]);
    }
  }

  lemma ReachableAskView(s: State)
    requires Reachable(s)
    ensures Inv(s) && AskView(s)
  {
    var ls :| s.cfg.size > 0 && Run(Init(s.cfg), ls) == Some(s);
    InitInv(s.cfg);
    AskViewRun(Init(s.cfg), ls);
  }

  // The answer is given, to the application or within next and batch_fetch, which throw on "no".
  predicate SaidMore(s: State, s': State)
  {
    s'.h.outcomes == s.h.outcomes + [Answer(true)] || (PastHasNext(s'.rpc) && s'.h.outcomes == s.h.outcomes)
  }

  predicate SaidNoMore(s: State, s': State)
  {
    s'.h.outcomes == s.h.outcomes + [Answer(false)] || s'.h.outcomes == s.h.outcomes + [ReadEof]
  }

  predicate Asking(pc: ReaderPC) { pc.RHas? || pc.RHasEof? }

  // The two answers "more" that are wrong: loads of an empty source, and `_eof` to be written.
  predicate WronglyTrue(s: State) { if s.rpc.RHas? then N(s) == 0 else EofWindow(s) }

  lemma TrueExact(s: State)
    requires Reachable(s) && Asking(s.rpc) && Enabled(s, Stmt(Reader)) && SaidMore(s, Apply(s, Stmt(Reader)))
    ensures |s.h.delivered| < N(s) <==> !WronglyTrue(s)
    ensures |s.h.delivered| == N(s) <==> WronglyTrue(s)
  {
    ReachableAskView(s);
    MoreIs(s);
    if s.rpc.RHasEof? { HasNextNowExact(s); } else { TrueOfLoads(s); }
  }

  lemma MoreIs(s: State)
    requires Asking(s.rpc) && Enabled(s, Stmt(Reader))
    ensures SaidMore(s, EnterStmt(s)) <==> if s.rpc.RHas? then !s.rpc.view.Empty() else !s.m.eof
    ensures SaidNoMore(s, EnterStmt(s)) <==> s.rpc.RHasEof? && s.m.eof
  {
    var outs, outs' := s.h.outcomes, EnterStmt(s).h.outcomes;
    if outs' != outs { assert outs'[|outs|] == Answer(true) || SaysNo(outs'[|outs|]); }
  }

  lemma TrueOfLoads(s: State)
    requires Sized(s) && LoaderFacts(s) && Counts(s) && AskView(s)
    requires s.rpc.RHas? && s.rpc.view.Complete() && !s.rpc.view.Empty()
    ensures |s.h.delivered| < N(s) <==> N(s) > 0
    ensures |s.h.delivered| <= N(s)
  {
  }

  // "No more" is right if and only if the buffer is still empty when `_eof` is read.
  lemma EndOfDataExact(s: State)
    requires Reachable(s) && Asking(s.rpc) && Enabled(s, Stmt(Reader)) && SaidNoMore(s, Apply(s, Stmt(Reader)))
    ensures s.m.eof && (|s.h.delivered| == N(s) <==> s.m.ridx >= s.m.rest)
  {
    ReachableInv(s);
    MoreIs(s);
  }

  // ---------- A call past has_next ----------

  // Whatever runs, spurious wake-ups included, the call stays where it is.
  ghost predicate NeverReturns(s: State)
  {
    forall ls :: Run(s, ls).Some? ==> PastHasNext(Run(s, ls).value.rpc)
  }

  // The reader gets back to its application during the schedule.
  predicate Returns(s: State, ls: seq<Label>)
    decreases |ls|
  {
    s.rpc.RIdle? || (ls != [] && Enabled(s, ls[0]) && Returns(Apply(s, ls[0]), ls[1..]))
  }

  // It does in every schedule of progress steps that is not cut short.
  ghost predicate AlwaysReturns(s: State)
  {
    forall ls :: ProgressRun(s, ls) && Run(s, ls).Some? && Stopped(Run(s, ls).value) ==> Returns(s, ls)
  }

  // The call goes on to deliver something, or has done so.
  predicate Served(s: State)
  {
    if PastHasNext(s.rpc) then |s.h.delivered| < N(s)
    else !s.rpc.RIdle? && !s.rpc.RHas? && !s.rpc.RHasEof?
  }

  lemma ServedStep(s: State, l: Label)
    requires Served(s) && Enabled(s, l) && !Apply(s, l).rpc.RIdle?
    ensures Served(Apply(s, l))
  {
  }

  lemma {:induction false} ServedReturns(s: State, ls: seq<Label>)
    requires Inv(s) && Served(s) && ProgressRun(s, ls) && Run(s, ls).Some? && Stopped(Run(s, ls).value)
    ensures Returns(s, ls)
    decreases |ls|
  {
    hide Inv;
    if ls == [] {
      StoppedIs(s);
    } else {
      StepInv(s, ls[0]);
      if !Apply(s, ls[0]).rpc.RIdle? {
        ServedStep(s, ls[0]);
        ServedReturns(Apply(s, ls[0]), ls[1..]);
      }
    }
  }

  lemma {:induction false} ReturnsAt(s: State, ls: seq<Label>) returns (k: nat)
    requires Returns(s, ls)
    ensures k <= |ls| && Run(s, ls[..k]).Some? && Run(s, ls[..k]).value.rpc.RIdle?
    decreases |ls|
  {
    k := 0;
    if !s.rpc.RIdle? {
      k := ReturnsAt(Apply(s, ls[0]), ls[1..]);
      assert ls[..k + 1][1..] == ls[1..][..k];
      k := k + 1;
    }
  }

  lemma NotBoth(s: State)
    requires Inv(s)
    ensures !(NeverReturns(s) && AlwaysReturns(s))
  {
    if NeverReturns(s) && AlwaysReturns(s) {
      var ls := StoppedRun(s);
      var k := ReturnsAt(s, ls);
      assert false;
    }
  }

  // A call past has_next never returns if everything was delivered before, and always returns
  // otherwise; nothing in between.
  lemma CallReturnsExact(s: State)
    requires Reachable(s) && PastHasNext(s.rpc)
    ensures NeverReturns(s) <==> |s.h.delivered| == N(s)
    ensures AlwaysReturns(s) <==> |s.h.delivered| < N(s)
  {
    ReachableInv(s);
    MeasureNonNegative(s);
    NotBoth(s);
    if |s.h.delivered| == N(s) {
      forall ls | Run(s, ls).Some?
        ensures PastHasNext(Run(s, ls).value.rpc)
      {
        HungForGood(s, ls);
      }
    } else {
      forall ls | ProgressRun(s, ls) && Run(s, ls).Some? && Stopped(Run(s, ls).value)
        ensures Returns(s, ls)
      {
        ServedReturns(s, ls);
      }
    }
  }

  // At the branch that lets a call in: it hangs exactly if the answer is one of the wrong two.
  lemma LetInExact(s: State)
    requires Reachable(s) && Asking(s.rpc) && Enabled(s, Stmt(Reader)) && PastHasNext(Apply(s, Stmt(Reader)).rpc)
    ensures NeverReturns(Apply(s, Stmt(Reader))) <==> WronglyTrue(s)
    ensures AlwaysReturns(Apply(s, Stmt(Reader))) <==> !WronglyTrue(s)
  {
    var s' := Go(s, Stmt(Reader));
    assert s'.h == s.h && s'.cfg == s.cfg;
    hide Reachable, WronglyTrue, NeverReturns, AlwaysReturns;
    TrueExact(s);
    CallReturnsExact(s');
  }

  // ---------- Before the call ----------

  // has_next has said so in the call made in s0.
  predicate Told(s0: State, use: Use, more: bool, s: State)
  {
    if use.HasNext? then s.h.outcomes == s0.h.outcomes + [Answer(more)]
    else if more then PastHasNext(s.rpc) && s.h.outcomes == s0.h.outcomes
    else s.h.outcomes == s0.h.outcomes + [ReadEof]
  }

  ghost predicate MayBeTold(s: State, use: Use, more: bool)
    requires s.rpc.RIdle?
  {
    exists s' :: Leads(Apply(s, Call(use)), s') && Told(s, use, more, s')
  }

  // The last batch is drained before `_eof` is written, or the switch of an empty source is ahead.
  predicate MoreAhead(s: State) { EofWindow(s) || (N(s) == 0 && s.m.rest > 0) }

  // The buffer is drained and the next batch is the last.
  predicate EndAhead(s: State) { s.m.ridx >= s.m.rest && 0 < N(s) - |s.h.delivered| <= s.cfg.size }

  // ---------- What it cannot say ----------

  // has_next cannot find a record any more.
  predicate Settled(s: State)
  {
    |s.h.delivered| == N(s) && s.m.eof && (N(s) == 0 ==> s.m.rest == 0)
  }

  predicate SettledView(s: State, v: View)
  {
    (v.rest.Some? ==> v.rest.value == s.m.rest) && (v.ridx.Some? ==> v.ridx.value >= s.m.rest)
  }

  // The call made in s0 has not said "more".
  predicate NeverMore(s0: State, s: State)
  {
    match s.rpc
    case RHas(_, v) => s.h.outcomes == s0.h.outcomes && Settled(s) && SettledView(s, v)
    case RHasEof(_) => s.h.outcomes == s0.h.outcomes && Settled(s)
    case RIdle => SaidNoMore(s0, s)
    case _ => false
  }

  lemma SettledStep(s: State, l: Label)
    requires Inv(s) && Settled(s) && Enabled(s, l) && Asking(s.rpc)
    ensures Settled(Apply(s, l)) && Apply(s, l).m.rest == s.m.rest && s.m.ridx >= s.m.rest
  {
  }

  lemma NeverMoreLoader(s0: State, s: State)
    requires NeverMore(s0, s) && Enabled(s, Stmt(Loader))
    requires Asking(s.rpc) ==> Settled(LoaderStmt(s)) && LoaderStmt(s).m.rest == s.m.rest
    ensures NeverMore(s0, LoaderStmt(s))
  {
    assert LoaderStmt(s).rpc == s.rpc && LoaderStmt(s).h.outcomes == s.h.outcomes;
  }

  lemma NeverMoreReader(s0: State, s: State)
    requires NeverMore(s0, s) && Enabled(s, Stmt(Reader))
    ensures NeverMore(s0, ReaderStmt(s))
  {
  }

  lemma NeverMoreOther(s0: State, s: State, l: Label)
    requires NeverMore(s0, s) && Enabled(s, l) && !l.Stmt? && !l.Call?
    requires Asking(s.rpc) ==> s.m.ridx >= s.m.rest
    ensures NeverMore(s0, OtherStep(s, l))
  {
  }

  lemma NeverMoreStep(s0: State, s: State, l: Label)
    requires Inv(s) && NeverMore(s0, s) && Enabled(s, l) && !l.Call?
    ensures NeverMore(s0, Apply(s, l))
  {
    hide Inv, Enabled, Apply, Settled, SettledView, LoaderStmt, ReaderStmt, OtherStep, SaidNoMore;
    ApplyIs(s, l);
    if Asking(s.rpc) { SettledStep(s, l); }
    match l
    case Stmt(Loader) => NeverMoreLoader(s0, s);
    case Stmt(Reader) => NeverMoreReader(s0, s);
    case _ => NeverMoreOther(s0, s, l);
  }

  lemma {:induction false} NeverMoreRun(s0: State, s: State, ls: seq<Label>)
    requires Inv(s) && NeverMore(s0, s) && Run(s, ls).Some? && NoCalls(ls)
    ensures NeverMore(s0, Run(s, ls).value)
    decreases |ls|
  {
    hide NeverMore, Inv;
    if ls != [] {
      StepInv(s, ls[0]);
      NeverMoreStep(s0, s, ls[0]);
      NeverMoreRun(s0, Apply(s, ls[0]), ls[1..]);
    }
  }

  // With everything delivered, "more" needs one of the two situations.
  lemma MoreOnlyAhead(s: State, use: Use)
    requires Reachable(s) && s.rpc.RIdle? && |s.h.delivered| == N(s) && MayBeTold(s, use, true)
    ensures MoreAhead(s)
  {
    if !MoreAhead(s) {
      ReachableInv(s);
      var s0 := Apply(s, Call(use));
      var s' :| Leads(s0, s') && Told(s, use, true, s');
      var ls :| NoCalls(ls) && Run(s0, ls) == Some(s');
      StepInv(s, Call(use));
      CallSettled(s);
      NeverMoreRun(s, s0, ls);
      ToldOnce(s, use, s');
    }
  }

  lemma CallSettled(s: State)
    requires Inv(s) && s.rpc.RIdle? && |s.h.delivered| == N(s) && !MoreAhead(s)
    ensures Settled(s)
  {
  }

  lemma ToldOnce(s: State, use: Use, s': State)
    requires NeverMore(s, s')
    ensures !Told(s, use, true, s')
  {
    var outs, outs' := s.h.outcomes, s'.h.outcomes;
    if s'.rpc.RIdle? { assert SaysNo(outs'[|outs|]) && (outs + [Answer(true)])[|outs|] == Answer(true); }
  }

  // A record is unread, and the call made in s0 has not said "no more".
  predicate NeverNo(s0: State, s: State)
  {
    match s.rpc
    case RHas(_, v) =>
      && s.h.outcomes == s0.h.outcomes && s.m.ridx < s.m.rest
      && (v.rest.Some? ==> v.rest.value == s.m.rest) && (v.ridx.Some? ==> v.ridx.value == s.m.ridx)
    case RHasEof(_) => false
    case RIdle => |s.h.outcomes| > |s0.h.outcomes| && !SaysNo(s.h.outcomes[|s0.h.outcomes|])
    case _ => s.h.outcomes == s0.h.outcomes && ReturnsRecords(s.rpc)
  }

  lemma NeverNoLoader(s0: State, s: State)
    requires Sized(s) && LoaderFacts(s) && LoaderView(s) && NeverNo(s0, s) && Enabled(s, Stmt(Loader))
    ensures NeverNo(s0, LoaderStmt(s))
  {
    assert LoaderStmt(s).h.outcomes == s.h.outcomes;
  }

  lemma NeverNoReader(s0: State, s: State)
    requires NeverNo(s0, s) && Enabled(s, Stmt(Reader))
    ensures NeverNo(s0, ReaderStmt(s))
  {
  }

  lemma NeverNoOther(s0: State, s: State, l: Label)
    requires NeverNo(s0, s) && Enabled(s, l) && !l.Stmt? && !l.Call?
    ensures NeverNo(s0, OtherStep(s, l))
  {
  }

  lemma NeverNoStep(s0: State, s: State, l: Label)
    requires Inv(s) && NeverNo(s0, s) && Enabled(s, l) && !l.Call?
    ensures NeverNo(s0, Apply(s, l))
  {
    hide *;
    ApplyIs(s, l);
    InvParts(s);
    match l
    case Stmt(Loader) => NeverNoLoader(s0, s);
    case Stmt(Reader) => NeverNoReader(s0, s);
    case _ => NeverNoOther(s0, s, l);
  }

  lemma {:induction false} NeverNoRun(s0: State, s: State, ls: seq<Label>)
    requires Inv(s) && NeverNo(s0, s) && Run(s, ls).Some? && NoCalls(ls)
    ensures NeverNo(s0, Run(s, ls).value)
    decreases |ls|
  {
    hide NeverNo, Inv;
    if ls != [] {
      StepInv(s, ls[0]);
      NeverNoStep(s0, s, ls[0]);
      NeverNoRun(s0, Apply(s, ls[0]), ls[1..]);
    }
  }

  lemma CallBegins(s: State, use: Use)
    requires Inv(s) && s.rpc.RIdle?
    ensures var s0 := Apply(s, Call(use));
            && Inv(s0) && s0.cfg == s.cfg && InCall(s, use, s0)
            && (s.m.ridx < s.m.rest ==> NeverNo(s, s0))
  {
    hide Inv;
    StepInv(s, Call(use));
  }

  // With a record due, "no more" needs a drained buffer and the last batch next.
  lemma NoOnlyAtEnd(s: State, use: Use)
    requires Reachable(s) && s.rpc.RIdle? && |s.h.delivered| < N(s) && MayBeTold(s, use, false)
    ensures EndAhead(s)
  {
    var s' :| Leads(Apply(s, Call(use)), s') && Told(s, use, false, s');
    var ls :| NoCalls(ls) && Run(Apply(s, Call(use)), ls) == Some(s');
    LeadsReachable(s, use, s');
    hide Inv, Told, Leads, Reachable;
    ReachableInv(s);
    NoEnd(s, use, ls, s');
    EndOf(s');
  }

  lemma NoEnd(s: State, use: Use, ls: seq<Label>, s': State)
    requires Inv(s) && s.rpc.RIdle? && NoCalls(ls) && Run(Apply(s, Call(use)), ls) == Some(s')
    requires Told(s, use, false, s')
    ensures s.m.ridx >= s.m.rest && s'.cfg == s.cfg && s'.h.delivered == s.h.delivered
    ensures s'.rpc.RIdle? && |s'.h.outcomes| > |s.h.outcomes| && SaysNo(s'.h.outcomes[|s.h.outcomes|])
  {
    hide Inv, InCall, NeverNo, Told, Apply;
    var s0 := Apply(s, Call(use));
    CallBegins(s, use);
    InCallRun(s, use, s0, ls);
    ToldNo(s, use, s');
    if s.m.ridx < s.m.rest {
      NeverNoRun(s, s0, ls);
      NotBothNo(s, s');
    }
  }

  lemma ToldNo(s: State, use: Use, s': State)
    requires Told(s, use, false, s') && InCall(s, use, s')
    ensures s'.rpc.RIdle? && s'.h.delivered == s.h.delivered
    ensures |s'.h.outcomes| > |s.h.outcomes| && SaysNo(s'.h.outcomes[|s.h.outcomes|])
  {
  }

  lemma EndOf(s: State)
    requires Reachable(s) && s.rpc.RIdle? && exists i :: 0 <= i < |s.h.outcomes| && SaysNo(s.h.outcomes[i])
    ensures N(s) - |s.h.delivered| <= s.cfg.size
  {
    ReachableInv(s);
    CallsAccount(s);
  }

  lemma NotBothNo(s: State, s': State)
    requires s'.rpc.RIdle? && NeverNo(s, s')
    ensures |s'.h.outcomes| > |s.h.outcomes| && !SaysNo(s'.h.outcomes[|s.h.outcomes|])
  {
  }

  lemma LeadsReachable(s: State, use: Use, s': State)
    requires Reachable(s) && s.rpc.RIdle? && Leads(Apply(s, Call(use)), s')
    ensures Reachable(s')
  {
    var s0 := Go(s, Call(use));
    var ls :| NoCalls(ls) && Run(s0, ls) == Some(s');
    RunOn(s0, ls);
  }

  lemma {:induction false} RunOn(s: State, ls: seq<Label>)
    requires Reachable(s) && Run(s, ls).Some?
    ensures Reachable(Run(s, ls).value)
    decreases |ls|
  {
    hide Reachable;
    if ls != [] {
      var s' := Go(s, ls[0]);
      RunOn(s', ls[1..]);
    }
  }

  // ---------- What it can say ----------

  // The reader loads `_ridx` and `_rest` in turn and tests them.
  lemma AskNow(s0: State, s: State, use: Use) returns (s': State)
    requires OnTheWay(s0, s) && s.rpc == RHas(use, BLANK)
    ensures OnTheWay(s0, s')
    ensures s' == if s.m.ridx >= s.m.rest then s.(rpc := RHasEof(use)) else Decide(s, use, true)
  {
    hide Leads, Inv;
    s' := GoOn(s0, s, LoadRidx(Reader));
    s' := GoOn(s0, s', LoadRest(Reader));
    s' := GoOn(s0, s', Stmt(Reader));
  }

  // With a record due, or the last batch drained and its `_eof` pending, an undisturbed call says "more".
  lemma MoreNow(s: State, use: Use) returns (s': State)
    requires Inv(s) && s.rpc.RIdle? && HasNextNow(s)
    ensures OnTheWay(Apply(s, Call(use)), s') && Told(s, use, true, s')
    ensures s'.h.delivered == s.h.delivered && s'.cfg == s.cfg
  {
    hide Leads, Inv;
    var s0 := Apply(s, Call(use));
    StepInv(s, Call(use));
    LeadsStart(s0);
    s' := AskNow(s0, s0, use);
    if s'.rpc.RHasEof? { s' := GoOn(s0, s', Stmt(Reader)); }
  }

  // What the loader does next on its own.
  function LoaderNext(s: State): Label
  {
    if s.ld.pc.LTest? && s.ld.pc.view.ridx.None? then LoadRidx(Loader)
    else if s.ld.pc.LTest? && s.ld.pc.view.rest.None? then LoadRest(Loader)
    else Stmt(Loader)
  }

  predicate EmptyAhead(s: State) { N(s) == 0 && s.m.rest > 0 && s.rpc.RHas? }

  lemma EmptyStep(s: State)
    requires Sized(s) && Locks(s) && LoaderFacts(s) && EmptySource(s) && LoaderView(s) && EmptyAhead(s)
    ensures s.ld.pc.LSetRest? ==> s.ld.recIdx == 0
    ensures !s.ld.pc.LSetRest? ==>
              var l := LoaderNext(s);
              && Enabled(s, l) && Apply(s, l).rpc == s.rpc && EmptyAhead(Apply(s, l)) && Apply(s, l).cfg == s.cfg
              && Apply(s, l).h == s.h && JoinRank(Apply(s, l).ld.pc) < JoinRank(s.ld.pc)
  {
  }

  lemma {:induction false} EmptyToSwitch(s0: State, s: State) returns (s': State)
    requires OnTheWay(s0, s) && EmptyAhead(s)
    ensures OnTheWay(s0, s') && EmptyAhead(s') && s'.ld.pc.LSetRest? && s'.ld.recIdx == 0
    ensures s'.cfg == s.cfg && s'.h == s.h && s'.rpc == s.rpc
    decreases JoinRank(s.ld.pc)
  {
    EmptyStep(s);
    hide Leads, Inv, Enabled, Apply, JoinRank, EmptyAhead, LoaderNext;
    s' := s;
    if !s.ld.pc.LSetRest? {
      s' := GoOn(s0, s, LoaderNext(s));
      s' := EmptyToSwitch(s0, s');
    }
  }

  // `_rest` from before the switch of an empty source and `_ridx` from after it: has_next sees records.
  lemma MoreOfNothing(s: State, use: Use) returns (s': State)
    requires Inv(s) && s.rpc.RIdle? && N(s) == 0 < s.m.rest
    ensures OnTheWay(Apply(s, Call(use)), s') && Told(s, use, true, s')
    ensures s'.h.delivered == s.h.delivered && s'.cfg == s.cfg
  {
    hide Leads, Inv;
    var s0 := Apply(s, Call(use));
    StepInv(s, Call(use));
    LeadsStart(s0);
    s' := GoOn(s0, s0, LoadRest(Reader));
    s' := EmptyToSwitch(s0, s');
    s' := AfterSwitch(s0, s', use);
  }

  lemma AfterSwitch(s0: State, s: State, use: Use) returns (s': State)
    requires OnTheWay(s0, s) && s.ld.pc.LSetRest? && s.ld.recIdx == 0 && s.m.rest > 0
    requires s.rpc.RHas? && s.rpc.use == use
    requires s.rpc.view.ridx.None? && s.rpc.view.rest.Some? && s.rpc.view.rest.value > 0
    ensures OnTheWay(s0, s') && Told(s, use, true, s')
    ensures s'.h.delivered == s.h.delivered && s'.cfg == s.cfg
  {
    hide Leads, Inv, Published;
    s' := GoOn(s0, s, Stmt(Loader));
    s' := GoOn(s0, s', Stmt(Loader));
    s' := GoOn(s0, s', LoadRidx(Reader));
    s' := GoOn(s0, s', Stmt(Reader));
  }

  // The loader is to write `_eof` before it needs the reader: the last batch is published, or it
  // is the next one and the buffer is drained.
  predicate EofComing(s: State)
  {
    || (s.ld.pc.LSetEof? && s.ld.cursor == N(s) > 0)
    || (s.m.ridx >= s.m.rest && 0 < N(s) - |s.h.delivered| <= s.cfg.size)
  }

  lemma EofStep(s: State)
    requires Sized(s) && Locks(s) && LoaderFacts(s) && LoaderView(s) && OwedNotifies(s) && Counts(s)
    requires EofFacts(s) && EofComing(s) && !s.m.eof && Asking(s.rpc)
    ensures Enabled(s, LoaderNext(s)) && Progress(s, LoaderNext(s))
    ensures var s' := Apply(s, LoaderNext(s));
            && s'.rpc == s.rpc && s'.cfg == s.cfg && s'.h == s.h.(batches := s'.h.batches)
            && (s'.m.eof || EofComing(s'))
  {
  }

  lemma {:induction false} LoaderToEof(s0: State, s: State) returns (s': State)
    requires OnTheWay(s0, s) && Asking(s.rpc) && (s.m.eof || EofComing(s))
    ensures OnTheWay(s0, s') && s'.m.eof && s'.rpc == s.rpc && s'.cfg == s.cfg
    ensures s'.h.delivered == s.h.delivered && s'.h.outcomes == s.h.outcomes
    decreases Measure(s)
  {
    s' := s;
    if !s.m.eof {
      InvParts(s);
      EofStep(s);
      hide Leads, Inv, Enabled, Progress, Measure, Apply, LoaderNext, EofComing;
      ProgressStep(s, LoaderNext(s));
      MeasureNonNegative(s);
      s' := GoOn(s0, s, LoaderNext(s));
      MeasureNonNegative(s');
      s' := LoaderToEof(s0, s');
    }
  }

  // The loader writes `_eof` first; then a call with nothing due says "no more".
  lemma NoAfterAll(s: State, use: Use)
    requires Inv(s) && s.rpc.RIdle? && |s.h.delivered| == N(s)
    ensures MayBeTold(s, use, false)
  {
    hide Leads, EofComing, Inv;
    var s0 := Apply(s, Call(use));
    StepInv(s, Call(use));
    LeadsStart(s0);
    EofDue(s0);
    var s' := LoaderToEof(s0, s0);
    AllRead(s');
    s' := AskNow(s0, s', use);
    s' := GoOn(s0, s', Stmt(Reader));
  }

  lemma EofDue(s: State)
    requires Inv(s) && Asking(s.rpc) && |s.h.delivered| == N(s)
    ensures s.m.eof || EofComing(s)
  {
  }

  lemma AllRead(s: State)
    requires Inv(s) && Asking(s.rpc) && |s.h.delivered| == N(s)
    ensures s.m.ridx >= s.m.rest
  {
  }

  // has_next finds the buffer drained, the loader publishes the last batch and writes `_eof`.
  lemma NoTooEarly(s: State, use: Use)
    requires Inv(s) && s.rpc.RIdle? && EndAhead(s)
    ensures MayBeTold(s, use, false)
  {
    hide Leads, Inv;
    var s0 := Apply(s, Call(use));
    StepInv(s, Call(use));
    LeadsStart(s0);
    var s' := AskNow(s0, s0, use);
    s' := LoaderToEof(s0, s');
    s' := GoOn(s0, s', Stmt(Reader));
  }

  // Of an idle reader, exactly what has_next may say in the next call, to the application or within
  // next and batch_fetch: the truth, "more" after the last record in the two situations, and "no
  // more" with the last batch due but not published.
  lemma ToldExact(s: State, use: Use)
    requires Reachable(s) && s.rpc.RIdle?
    ensures MayBeTold(s, use, true) <==> |s.h.delivered| < N(s) || MoreAhead(s)
    ensures MayBeTold(s, use, false) <==> |s.h.delivered| == N(s) || EndAhead(s)
  {
    ReachableInv(s);
    MeasureNonNegative(s);
    HasNextNowExact(s);
    hide Reachable, Inv, MayBeTold;
    ToldMore(s, use);
    ToldNoMore(s, use);
  }

  lemma ToldMore(s: State, use: Use)
    requires Reachable(s) && Inv(s) && s.rpc.RIdle? && |s.h.delivered| <= N(s)
    requires HasNextNow(s) <==> |s.h.delivered| < N(s) || EofWindow(s)
    ensures MayBeTold(s, use, true) <==> |s.h.delivered| < N(s) || MoreAhead(s)
  {
    hide Reachable, Inv, Leads, HasNextNow, EofWindow;
    if HasNextNow(s) { var _ := MoreNow(s, use); }
    else if N(s) == 0 && s.m.rest > 0 { var _ := MoreOfNothing(s, use); }
    else if MayBeTold(s, use, true) { MoreOnlyAhead(s, use); }
  }

  lemma ToldNoMore(s: State, use: Use)
    requires Reachable(s) && Inv(s) && s.rpc.RIdle? && |s.h.delivered| <= N(s)
    ensures MayBeTold(s, use, false) <==> |s.h.delivered| == N(s) || EndAhead(s)
  {
    hide Reachable, Inv, MayBeTold, EndAhead;
    if |s.h.delivered| == N(s) { NoAfterAll(s, use); }
    else if EndAhead(s) { NoTooEarly(s, use); }
    else if MayBeTold(s, use, false) { NoOnlyAtEnd(s, use); }
  }

  // The call can come to wait for ever.
  ghost predicate MayHang(s: State, use: Use)
    requires s.rpc.RIdle?
  {
    exists s' :: Leads(Apply(s, Call(use)), s') && NeverReturns(s')
  }

  // It can if and only if it can be told "more" after the last record.
  lemma MayHangExact(s: State, use: Use)
    requires Reachable(s) && s.rpc.RIdle? && !use.HasNext?
    ensures MayHang(s, use) <==> |s.h.delivered| == N(s) && MoreAhead(s)
  {
    ToldExact(s, use);
    hide MoreAhead;
    if |s.h.delivered| == N(s) && MoreAhead(s) {
      var s' :| Leads(Apply(s, Call(use)), s') && Told(s, use, true, s');
      CallHung(s, use, s');
    }
    if s' :| Leads(Apply(s, Call(use)), s') && NeverReturns(s') {
      HungCall(s, use, s');
    }
  }

  lemma CallHung(s: State, use: Use, s': State)
    requires Reachable(s) && s.rpc.RIdle? && |s.h.delivered| == N(s) && !use.HasNext?
    requires Leads(Apply(s, Call(use)), s') && Told(s, use, true, s')
    ensures NeverReturns(s')
  {
    CallPast(s, use, s');
    hide Reachable, NeverReturns, Leads;
    CallReturnsExact(s');
  }

  lemma HungCall(s: State, use: Use, s': State)
    requires Reachable(s) && s.rpc.RIdle? && !use.HasNext? && Leads(Apply(s, Call(use)), s') && NeverReturns(s')
    ensures |s.h.delivered| == N(s) && MayBeTold(s, use, true)
  {
    assert Run(s', []) == Some(s');
    CallPast(s, use, s');
    hide Reachable, NeverReturns, Leads;
    CallReturnsExact(s');
  }

  // A call past has_next has delivered nothing yet.
  lemma CallPast(s: State, use: Use, s': State)
    requires Reachable(s) && s.rpc.RIdle? && Leads(Apply(s, Call(use)), s') && PastHasNext(s'.rpc)
    ensures Reachable(s') && s'.h == s.h.(batches := s'.h.batches, corrupt := s'.h.corrupt) && s'.cfg == s.cfg
  {
    LeadsReachable(s, use, s');
    ReachableInv(s);
    StepInv(s, Call(use));
    var ls :| NoCalls(ls) && Run(Apply(s, Call(use)), ls) == Some(s');
    InCallRun(s, use, Apply(s, Call(use)), ls);
  }

  // No configuration is free of it.
  lemma HangsAfterTheLast(cfg: Config) returns (s: State)
    requires cfg.size > 0
    ensures Reachable(s) && s.cfg == cfg && s.rpc.RIdle? && |s.h.delivered| == |cfg.entries| && MoreAhead(s)
  {
    hide Reachable;
    if cfg.entries == [] {
      s := Init(cfg);
      InitReachable(cfg);
    } else {
      s := LastRound(cfg);
      s := LoaderPublishes(s);
      s := ReaderTakes(s, s.m.rest);
    }
  }
}
