// What the calls return: the account of a whole run, and the contract of a single call.
module DoubleBufferOutcomes {
  import opened Options
  import opened DoubleBuffer
  import opened DoubleBufferInvariant
  import opened DoubleBufferSafety
  import opened DoubleBufferRuns

  // ---------- Over a whole run ----------

  // more is what a call delivered that returned out.
  predicate Fits(out: Outcome, more: seq<TaggedStrPair>)
  {
    match out
    case Taken(rec) => more == [rec]
    case Copied(n) => |more| == n > 0
    case _ => more == []
  }

  // What was returned, call by call, accounts for exactly these records.
  predicate Replays(outs: seq<Outcome>, recs: seq<TaggedStrPair>)
    decreases |outs|
  {
    if outs == [] then recs == []
    else
      var k := |outs| - 1;
      match outs[k]
      case Taken(rec) => recs != [] && recs[|recs| - 1] == rec && Replays(outs[..k], recs[..|recs| - 1])
      case Copied(n) => 0 < n <= |recs| && Replays(outs[..k], recs[..|recs| - n])
      case _ => Replays(outs[..k], recs)
  }

  lemma ReplaysSnoc(outs: seq<Outcome>, out: Outcome, recs: seq<TaggedStrPair>, more: seq<TaggedStrPair>)
    requires Replays(outs, recs) && Fits(out, more)
    ensures Replays(outs + [out], recs + more)
  {
    assert (outs + [out])[..|outs|] == outs && (recs + more)[..|recs|] == recs;
    if more == [] { assert recs + more == recs; }
  }

  // Records delivered by the call under way.
  function Pending(pc: ReaderPC): int
  {
    match pc
    case RCopy(_, k, end, ret) => ret - (end - k)
    case RPublish(ret) => ret
    case RCheck(_, out) => Moved(out)
    case RLockW(out) => Moved(out)
    case RNotifyW(out) => Moved(out)
    case RUnlockW(out) => Moved(out)
    case _ => 0
  }

  function Moved(out: Outcome): int
  {
    match out
    case Taken(_) => 1
    case Copied(n) => n
    case _ => 0
  }

  predicate PendingFits(pc: ReaderPC, more: seq<TaggedStrPair>)
  {
    match pc
    case RCopy(_, _, _, ret) => ret > 0
    case RPublish(ret) => ret > 0
    case RCheck(_, out) => Fits(out, more)
    case RLockW(out) => Fits(out, more)
    case RNotifyW(out) => Fits(out, more)
    case RUnlockW(out) => Fits(out, more)
    case _ => true
  }

  predicate Accounted(s: State)
  {
    var p := |s.h.delivered| - Pending(s.rpc);
    && 0 <= p <= |s.h.delivered|
    && Replays(s.h.outcomes, s.h.delivered[..p]) && PendingFits(s.rpc, s.h.delivered[p..])
  }

  lemma AccountedLoader(s: State)
    requires Accounted(s) && Enabled(s, Stmt(Loader))
    ensures Accounted(LoaderStmt(s))
  {
    hide Replays;
    var s' := LoaderStmt(s);
    assert s'.h.delivered == s.h.delivered && s'.h.outcomes == s.h.outcomes;
    assert Pending(s'.rpc) == Pending(s.rpc);
  }

  lemma AccountedReturn(s: State, s': State, out: Outcome)
    requires Accounted(s) && s'.rpc.RIdle? && s'.h == Return(s, out).h
    requires Fits(out, s.h.delivered[|s.h.delivered| - Pending(s.rpc)..])
    ensures Accounted(s')
  {
    var d, p := s.h.delivered, |s.h.delivered| - Pending(s.rpc);
    hide Replays, PendingFits, Fits;
    ReplaysSnoc(s.h.outcomes, out, d[..p], d[p..]);
    WholeAgain(d, p);
    assert Pending(s'.rpc) == 0 && s'.h.delivered == d && s'.h.outcomes == s.h.outcomes + [out];
    IdleFits(s'.rpc, d[|d|..]);
  }

  lemma WholeAgain<T>(d: seq<T>, p: nat)
    requires p <= |d|
    ensures d[..p] + d[p..] == d == d[..|d|]
  {
  }

  lemma IdleFits(pc: ReaderPC, more: seq<TaggedStrPair>)
    requires pc.RIdle?
    ensures PendingFits(pc, more)
  {
  }

  lemma AccountedReader(s: State)
    requires Accounted(s) && ReaderFacts(s) && Enabled(s, Stmt(Reader))
    ensures Accounted(ReaderStmt(s))
  {
    hide Replays, Accounted, MoveFacts, ReaderStmt;
    ReaderStmtIs(s);
    if ReaderStmt(s) == EnterStmt(s) { AccountedEnter(s); }
    else if ReaderStmt(s) == LeaveStmt(s) { AccountedLeave(s); }
    else { AccountedTake(s); }
  }

  lemma AccountedSame(s: State, s': State)
    requires Accounted(s) && s'.h.delivered == s.h.delivered && s'.h.outcomes == s.h.outcomes
    requires Pending(s'.rpc) == Pending(s.rpc)
    requires PendingFits(s'.rpc, s.h.delivered[|s.h.delivered| - Pending(s.rpc)..])
    ensures Accounted(s')
  {
  }

  lemma AccountedEnter(s: State)
    requires Accounted(s)
    ensures Accounted(EnterStmt(s))
  {
    hide Replays;
    var s', d := EnterStmt(s), s.h.delivered;
    if s'.h == s.h {
    } else {
      assert Pending(s.rpc) == 0 && d[|d|..] == [];
      AccountedReturn(s, s', s'.h.outcomes[|s.h.outcomes|]);
    }
  }

  lemma AccountedLeave(s: State)
    requires Accounted(s)
    ensures Accounted(LeaveStmt(s))
  {
    hide Replays;
    if s.rpc.RUnlockW? { AccountedReturn(s, LeaveStmt(s), s.rpc.out); } else { AccountedSame(s, LeaveStmt(s)); }
  }

  lemma AccountedTake(s: State)
    requires Accounted(s) && ReaderFacts(s)
    ensures Accounted(TakeStmt(s))
  {
    hide Replays, MoveFacts;
    var s', d := TakeStmt(s), s.h.delivered;
    var p := |d| - Pending(s.rpc);
    if s.rpc.RCheck? && !s.rpc.view.Empty() {
      AccountedReturn(s, s', s.rpc.out);
    } else if s.rpc.RMove? || (s.rpc.RCopy? && s.rpc.next < s.rpc.end) {
      assert |s'.h.delivered| == |d| + 1 && s'.h.delivered[..p] == d[..p];
      assert |s'.h.delivered| - Pending(s'.rpc) == p;
      if s.rpc.RMove? { assert s'.h.delivered[p..] == [s'.h.delivered[p]]; }
    } else {
      AccountedSame(s, s');
    }
  }

  lemma AccountedKept(s: State, l: Label)
    requires Inv(s) && Accounted(s) && Enabled(s, l)
    ensures Accounted(Apply(s, l))
  {
    hide Accounted;
    ApplyIs(s, l);
    match l
    case Stmt(Loader) => AccountedLoader(s);
    case Stmt(Reader) => AccountedReader(s);
    case _ => AccountedOther(s, l);
  }

  lemma AccountedOther(s: State, l: Label)
    requires Accounted(s) && Enabled(s, l) && !l.Stmt?
    ensures Accounted(OtherStep(s, l))
  {
    AccountedSame(s, OtherStep(s, l));
  }

  // has_next answered "no", or next or batch_fetch threw.
  predicate SaysNo(out: Outcome) { out == Answer(false) || out == ReadEof }

  // That happens only when `_eof` is set.
  predicate NoMeansEof(s: State)
  {
    && (forall i :: 0 <= i < |s.h.outcomes| && SaysNo(s.h.outcomes[i]) ==> s.m.eof)
    && ReturnsRecords(s.rpc)
  }

  predicate ReturnsRecords(pc: ReaderPC)
  {
    match pc
    case RCheck(_, out) => !SaysNo(out)
    case RLockW(out) => !SaysNo(out)
    case RNotifyW(out) => !SaysNo(out)
    case RUnlockW(out) => !SaysNo(out)
    case _ => true
  }

  lemma NoMeansEofKept(s: State, l: Label)
    requires LoaderFacts(s) && EofFacts(s) && NoMeansEof(s) && Enabled(s, l)
    ensures NoMeansEof(Apply(s, l))
  {
    assert s.m.eof ==> Apply(s, l).m.eof;
  }

  lemma {:induction false} AccountedRun(s: State, ls: seq<Label>)
    requires Inv(s) && Accounted(s) && NoMeansEof(s) && Run(s, ls).Some?
    ensures Accounted(Run(s, ls).value) && NoMeansEof(Run(s, ls).value)
    decreases |ls|
  {
    hide Accounted, NoMeansEof;
    if ls != [] {
      StepInv(s, ls[0]);
      AccountedKept(s, ls[0]);
      NoMeansEofKept(s, ls[0]);
      AccountedRun(Apply(s, ls[0]), ls[1..]);
    }
  }

  // Between calls, what the calls returned accounts for every record delivered, in order: a record
  // for each next, a number for each batch_fetch, and nothing for an exception or an answer.
  lemma CallsAccount(s: State)
    requires Reachable(s)
    ensures s.rpc.RIdle? ==> Replays(s.h.outcomes, s.h.delivered)
    ensures forall i :: 0 <= i < |s.h.outcomes| && SaysNo(s.h.outcomes[i]) ==> s.m.eof
  {
    var ls :| s.cfg.size > 0 && Run(Init(s.cfg), ls) == Some(s);
    InitInv(s.cfg);
    AccountedRun(Init(s.cfg), ls);
    assert s.h.delivered[..|s.h.delivered|] == s.h.delivered;
  }

  // After a "no" the destructor's join returns, whether or not it was right.
  lemma JoinAfterNo(s: State, i: nat, ls: seq<Label>)
    requires Reachable(s) && s.rpc.RIdle? && i < |s.h.outcomes| && SaysNo(s.h.outcomes[i])
    requires (forall l :: l in ls ==> LoaderLabel(l)) && Run(s, ls).Some?
    ensures |ls| <= JoinRank(s.ld.pc)
    ensures Run(s, ls).value.ld.pc.LDone? || exists l :: LoaderLabel(l) && Enabled(Run(s, ls).value, l)
  {
    ReachableInv(s);
    CallsAccount(s);
    JoinReturns(s, ls);
  }

  // ---------- A single call ----------

  // A call of this use may return out, and changes the delivered records from d0 to d.
  predicate MayReturn(use: Use, out: Outcome, d0: seq<TaggedStrPair>, d: seq<TaggedStrPair>)
  {
    match out
    case Answer(_) => use.HasNext? && d == d0
    case ReadEof => !use.HasNext? && d == d0
    case Taken(rec) => use.Next? && d == d0 + [rec]
    case Copied(n) => use.BatchFetch? && d0 <= d && |d| - |d0| == n > 0
  }

  // s is a state of the call that was made in s0, or the state in which it has returned.
  predicate InCall(s0: State, use: Use, s: State)
  {
    var d0, d := s0.h.delivered, s.h.delivered;
    if s.rpc.RIdle? then
      && |s.h.outcomes| == |s0.h.outcomes| + 1 && s0.h.outcomes <= s.h.outcomes
      && MayReturn(use, s.h.outcomes[|s0.h.outcomes|], d0, d)
    else
      s.h.outcomes == s0.h.outcomes &&
      match s.rpc
      case RHas(u, _) => u == use && d == d0
      case RHasEof(u) => u == use && d == d0
      case RLockR(u) => u == use && !use.HasNext? && d == d0
      case RTest(u, _) => u == use && !use.HasNext? && d == d0
      case RAsleep(u) => u == use && !use.HasNext? && d == d0
      case RRelock(u) => u == use && !use.HasNext? && d == d0
      case RTake => use.Next? && d == d0
      case RMove(_, _, _) => use.Next? && d == d0
      case RSpan => use.BatchFetch? && d == d0
      case RCopy(_, k, end, ret) => use.BatchFetch? && d0 <= d && |d| - |d0| == ret - (end - k) && ret > 0
      case RPublish(ret) => use.BatchFetch? && d0 <= d && |d| - |d0| == ret > 0
      case RCheck(_, out) => MayReturn(use, out, d0, d)
      case RLockW(out) => MayReturn(use, out, d0, d)
      case RNotifyW(out) => MayReturn(use, out, d0, d)
      case RUnlockW(out) => MayReturn(use, out, d0, d)
      case _ => true
  }

  lemma InCallLoader(s0: State, use: Use, s: State)
    requires InCall(s0, use, s) && Enabled(s, Stmt(Loader))
    ensures InCall(s0, use, LoaderStmt(s))
  {
    hide MayReturn;
    var s' := LoaderStmt(s);
    assert s'.h.delivered == s.h.delivered && s'.h.outcomes == s.h.outcomes;
    assert s'.rpc == s.rpc || s'.rpc == Hit(s.rpc, s.ld.idx, s.ld.recIdx)
           || (s.rpc.RAsleep? && s'.rpc == RRelock(s.rpc.use));
  }

  lemma InCallEnter(s0: State, use: Use, s: State)
    requires InCall(s0, use, s) && Enabled(s, Stmt(Reader)) && !s.rpc.RIdle?
    ensures InCall(s0, use, EnterStmt(s))
  {
  }

  lemma InCallTake(s0: State, use: Use, s: State)
    requires InCall(s0, use, s) && ReaderFacts(s) && Enabled(s, Stmt(Reader))
    ensures InCall(s0, use, TakeStmt(s))
  {
    hide MoveFacts;
  }

  lemma InCallLeave(s0: State, use: Use, s: State)
    requires InCall(s0, use, s)
    ensures InCall(s0, use, LeaveStmt(s))
  {
  }

  lemma InCallReader(s0: State, use: Use, s: State)
    requires InCall(s0, use, s) && ReaderFacts(s) && Enabled(s, Stmt(Reader)) && !s.rpc.RIdle?
    ensures InCall(s0, use, ReaderStmt(s))
  {
    hide *;
    ReaderStmtIs(s);
    InCallEnter(s0, use, s); InCallTake(s0, use, s); InCallLeave(s0, use, s);
  }

  lemma InCallOther(s0: State, use: Use, s: State, l: Label)
    requires InCall(s0, use, s) && Enabled(s, l) && !l.Stmt? && !l.Call?
    ensures InCall(s0, use, OtherStep(s, l))
  {
  }

  lemma ReaderBusy(s: State)
    requires Enabled(s, Stmt(Reader))
    ensures !s.rpc.RIdle?
  {
  }

  lemma InCallStep(s0: State, use: Use, s: State, l: Label)
    requires Inv(s) && InCall(s0, use, s) && Enabled(s, l) && !l.Call?
    ensures InCall(s0, use, Apply(s, l))
  {
    hide *;
    ApplyIs(s, l);
    InvParts(s);
    match l
    case Stmt(Loader) => InCallLoader(s0, use, s);
    case Stmt(Reader) => ReaderBusy(s); InCallReader(s0, use, s);
    case _ => InCallOther(s0, use, s, l);
  }

  lemma {:induction false} InCallRun(s0: State, use: Use, s: State, ls: seq<Label>)
    requires Inv(s) && InCall(s0, use, s) && NoCalls(ls) && Run(s, ls).Some?
    ensures Inv(Run(s, ls).value) && InCall(s0, use, Run(s, ls).value) && Run(s, ls).value.cfg == s.cfg
    decreases |ls|
  {
    hide InCall, Inv;
    if ls != [] {
      StepInv(s, ls[0]);
      InCallStep(s0, use, s, ls[0]);
      InCallRun(s0, use, Apply(s, ls[0]), ls[1..]);
    }
  }

  // From a call by an idle reader to its return, whatever the loader does in between: the call
  // adds one outcome of its kind, and delivers what the outcome says.
  lemma CallContract(s0: State, use: Use, ls: seq<Label>)
    requires Reachable(s0) && s0.rpc.RIdle? && NoCalls(ls) && Run(Apply(s0, Call(use)), ls).Some?
    requires Run(Apply(s0, Call(use)), ls).value.rpc.RIdle?
    ensures var s := Run(Apply(s0, Call(use)), ls).value;
            && |s.h.outcomes| == |s0.h.outcomes| + 1 && s0.h.outcomes <= s.h.outcomes
            && MayReturn(use, s.h.outcomes[|s0.h.outcomes|], s0.h.delivered, s.h.delivered)
            && (!s.h.corrupt ==> s.h.delivered <= Source(s0.cfg))
  {
    ReachableInv(s0);
    StepInv(s0, Call(use));
    InCallRun(s0, use, Apply(s0, Call(use)), ls);
  }

  // ---------- The number batch_fetch returns ----------

  // A batch_fetch that was about to take its span in s0 is to return n.
  predicate Fetching(s0: State, n: int, s: State)
  {
    match s.rpc
    case RSpan => s.m.rest - s.m.ridx == n && s.h.outcomes == s0.h.outcomes
    case RCopy(_, _, _, ret) => ret == n && s.h.outcomes == s0.h.outcomes
    case RPublish(ret) => ret == n && s.h.outcomes == s0.h.outcomes
    case RLockW(out) => out == Copied(n) && s.h.outcomes == s0.h.outcomes
    case RNotifyW(out) => out == Copied(n) && s.h.outcomes == s0.h.outcomes
    case RUnlockW(out) => out == Copied(n) && s.h.outcomes == s0.h.outcomes
    case RIdle => s.h.outcomes == s0.h.outcomes + [Copied(n)]
    case _ => false
  }

  lemma FetchingLoader(s0: State, n: int, s: State)
    requires Sized(s) && LoaderFacts(s) && LoaderView(s) && ReaderFacts(s) && Fetching(s0, n, s)
    requires Enabled(s, Stmt(Loader))
    ensures Fetching(s0, n, LoaderStmt(s))
  {
    hide MoveFacts;
    var s' := LoaderStmt(s);
    assert s'.rpc == s.rpc && s'.h.outcomes == s.h.outcomes;
  }

  lemma FetchingReader(s0: State, n: int, s: State)
    requires Fetching(s0, n, s) && Enabled(s, Stmt(Reader))
    ensures Fetching(s0, n, ReaderStmt(s))
  {
  }

  lemma FetchingOther(s0: State, n: int, s: State, l: Label)
    requires Fetching(s0, n, s) && Enabled(s, l) && !l.Stmt? && !l.Call?
    ensures Fetching(s0, n, OtherStep(s, l))
  {
  }

  lemma FetchingStep(s0: State, n: int, s: State, l: Label)
    requires Inv(s) && Fetching(s0, n, s) && Enabled(s, l) && !l.Call?
    ensures Fetching(s0, n, Apply(s, l))
  {
    hide *;
    ApplyIs(s, l);
    InvParts(s);
    match l
    case Stmt(Loader) => FetchingLoader(s0, n, s);
    case Stmt(Reader) => FetchingReader(s0, n, s);
    case _ => FetchingOther(s0, n, s, l);
  }

  lemma {:induction false} FetchingRun(s0: State, n: int, s: State, ls: seq<Label>)
    requires Inv(s) && Fetching(s0, n, s) && NoCalls(ls) && Run(s, ls).Some?
    ensures Fetching(s0, n, Run(s, ls).value)
    decreases |ls|
  {
    hide Inv, Fetching;
    if ls != [] {
      StepInv(s, ls[0]);
      FetchingStep(s0, n, s, ls[0]);
      FetchingRun(s0, n, Apply(s, ls[0]), ls[1..]);
    }
  }

  // From a batch_fetch about to take its span to its return: it returns what was unread then, and
  // has delivered as many.
  lemma BatchFetchCounts(s0: State, ls: seq<Label>)
    requires Reachable(s0) && s0.rpc.RSpan? && NoCalls(ls) && Run(s0, ls).Some? && Run(s0, ls).value.rpc.RIdle?
    ensures var s, n := Run(s0, ls).value, s0.m.rest - s0.m.ridx;
            n > 0 && s.h.outcomes == s0.h.outcomes + [Copied(n)] && |s.h.delivered| == |s0.h.delivered| + n
  {
    ReachableInv(s0);
    FetchingRun(s0, s0.m.rest - s0.m.ridx, s0, ls);
    InCallRun(s0, BatchFetch, s0, ls);
  }
}
