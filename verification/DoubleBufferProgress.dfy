// The protocol completes: with a reader that keeps asking while records are due, every schedule
// without spurious wake-ups is finite, and none stops before everything is delivered.
module DoubleBufferProgress {
  import opened DoubleBuffer
  import opened DoubleBufferInvariant
  import opened DoubleBufferSafety

  // Steps of the two threads, and calls of next and batch_fetch while a record is due.
  predicate Progress(s: State, l: Label)
  {
    match l
    case Spurious(_) => false
    case Call(use) => !use.HasNext? && |s.h.delivered| < N(s)
    case _ => true
  }

  predicate Stale(s: State, v: View)
  {
    (v.ridx.Some? && v.ridx.value != s.m.ridx) || (v.rest.Some? && v.rest.value != s.m.rest)
  }

  // 1 while a call may still report the end of the data with records due; that happens at most
  // once, when `_eof` is written between the two halves of has_next.
  function MayMiss(s: State): nat
  {
    if !s.m.eof then 1
    else match s.rpc
      case RHasEof(use) => if use.HasNext? then 0 else 1
      case RHas(use, v) => if !use.HasNext? && (Stale(s, v) || |s.h.delivered| == N(s)) then 1 else 0
      case _ => 0
  }

  function LoaderRank(pc: LoaderPC): nat
  {
    match pc
    case LSetEof => 23
    case LLockR => 22
    case LNotifyR => 21
    case LUnlockR => 15
    case LLoop => 14
    case LStart => 13
    case LAdvance => 13
    case LFill => 12
    case LStore => 11
    case LLockW => 10
    case LRelock => 10
    case LTest(v) => 7 + Unloaded(v)
    case LSetIdx => 6
    case LSetRest => 5
    case LSetRidx => 4
    case LAsleep => 3
    case _ => 0
  }

  function ReaderRank(pc: ReaderPC): nat
  {
    match pc
    case RCopy(_, k, end, _) => if k < end then 0 else 27
    case RPublish(_) => 26
    case RCheck(v, _) => 23 + Unloaded(v)
    case RLockW(_) => 22
    case RNotifyW(_) => 21
    case RUnlockW(_) => 12
    case RIdle => 11
    case RHas(use, v) => (if use.HasNext? then 13 else 8) + Unloaded(v)
    case RHasEof(use) => if use.HasNext? then 12 else 7
    case RLockR(_) => 6
    case RRelock(_) => 6
    case RTest(_, v) => 3 + Unloaded(v)
    case RAsleep(_) => 2
    case RTake => 1
    case RSpan => 1
    case _ => 0
  }

  // Bounds the number of progress steps from a state.
  function Measure(s: State): int
  {
    30 * (N(s) - |s.h.delivered|) + 20 * (N(s) - PublishedCount(s)) + 3 * (N(s) - Fetched(s))
    + 20 * (if N(s) == 0 && s.h.batches == [] then 1 else 0)
    + LoaderRank(s.ld.pc) + ReaderRank(s.rpc) + 5 * MayMiss(s)
  }

  lemma MeasureNonNegative(s: State)
    requires Inv(s)
    ensures Measure(s) >= 0 && |s.h.delivered| <= N(s)
  {
  }

  lemma FillKeepsReader(s: State)
    ensures ReaderRank(FillStmt(s).rpc) == ReaderRank(s.rpc) && MayMiss(FillStmt(s)) == MayMiss(s)
  {
  }

  lemma FillProgress(s: State)
    requires Sized(s) && LoaderFacts(s) && Enabled(s, Stmt(Loader)) && LoaderStmt(s) == FillStmt(s) != s
    ensures Measure(FillStmt(s)) < Measure(s)
  {
    hide ReaderRank, MayMiss;
    FillKeepsReader(s);
    var s' := FillStmt(s);
    assert s'.cfg == s.cfg && s'.h == s.h && PublishedCount(s') == PublishedCount(s);
    assert LoaderRank(s'.ld.pc) - LoaderRank(s.ld.pc) < 3 * (Fetched(s') - Fetched(s));
  }

  lemma SwitchProgress(s: State)
    requires Sized(s) && LoaderFacts(s) && EofFacts(s) && EmptySource(s) && Counts(s)
    requires LoaderStmt(s) == SwitchStmt(s) != s
    ensures Measure(SwitchStmt(s)) < Measure(s)
  {
  }

  lemma HandOverProgress(s: State)
    requires Sized(s) && LoaderFacts(s) && LoaderStmt(s) == HandOverStmt(s) != s
    ensures Measure(HandOverStmt(s)) < Measure(s)
  {
  }

  lemma LoaderProgress(s: State)
    requires Inv(s) && Enabled(s, Stmt(Loader))
    ensures Measure(LoaderStmt(s)) < Measure(s)
  {
    assert LoaderStmt(s).ld.pc != s.ld.pc;
    if LoaderStmt(s) == FillStmt(s) { FillProgress(s); }
    else if LoaderStmt(s) == SwitchStmt(s) { SwitchProgress(s); }
    else { HandOverProgress(s); }
  }

  lemma EnterProgress(s: State)
    requires Sized(s) && EofFacts(s) && EmptySource(s) && Counts(s) && LoaderFacts(s)
    requires Enabled(s, Stmt(Reader)) && ReaderStmt(s) == EnterStmt(s)
    requires s.rpc.RHas? || s.rpc.RHasEof? || s.rpc.RLockR? || s.rpc.RTest? || s.rpc.RRelock?
    ensures Measure(EnterStmt(s)) < Measure(s)
  {
    var s' := EnterStmt(s);
    assert s'.cfg == s.cfg && s'.h.delivered == s.h.delivered && s'.h.batches == s.h.batches && s'.ld == s.ld;
    assert PublishedCount(s') == PublishedCount(s) && Fetched(s') == Fetched(s);
    EnterRank(s);
  }

  lemma EnterRank(s: State)
    requires Sized(s) && EofFacts(s) && EmptySource(s) && Counts(s) && LoaderFacts(s)
    requires Enabled(s, Stmt(Reader)) && ReaderStmt(s) == EnterStmt(s)
    requires s.rpc.RHas? || s.rpc.RHasEof? || s.rpc.RLockR? || s.rpc.RTest? || s.rpc.RRelock?
    ensures ReaderRank(EnterStmt(s).rpc) + 5 * MayMiss(EnterStmt(s)) < ReaderRank(s.rpc) + 5 * MayMiss(s)
  {
    hide Measure, LoaderRank;
  }

  lemma TakeProgress(s: State)
    requires Sized(s) && ReaderFacts(s) && Enabled(s, Stmt(Reader))
    requires s.rpc.RTake? || s.rpc.RMove? || s.rpc.RCheck? || s.rpc.RSpan? || s.rpc.RCopy? || s.rpc.RPublish?
    ensures Measure(TakeStmt(s)) < Measure(s)
  {
    hide MoveFacts;
    var s' := TakeStmt(s);
    assert s'.cfg == s.cfg && s'.h.batches == s.h.batches && s'.ld == s.ld && s'.m.eof == s.m.eof;
    assert PublishedCount(s') == PublishedCount(s) && Fetched(s') == Fetched(s) && MayMiss(s') == MayMiss(s);
  }

  lemma LeaveProgress(s: State)
    requires s.rpc.RLockW? || s.rpc.RNotifyW? || s.rpc.RUnlockW?
    ensures Measure(LeaveStmt(s)) < Measure(s)
  {
  }

  lemma ReaderProgress(s: State)
    requires Inv(s) && Enabled(s, Stmt(Reader))
    ensures Measure(ReaderStmt(s)) < Measure(s)
  {
    if s.rpc.RLockW? || s.rpc.RNotifyW? || s.rpc.RUnlockW? { LeaveProgress(s); }
    else if s.rpc.RHas? || s.rpc.RHasEof? || s.rpc.RLockR? || s.rpc.RTest? || s.rpc.RRelock? { EnterProgress(s); }
    else { TakeProgress(s); }
  }

  lemma OtherProgress(s: State, l: Label)
    requires LoaderFacts(s) && Enabled(s, l) && Progress(s, l) && !l.Stmt?
    ensures Measure(OtherStep(s, l)) < Measure(s)
  {
    var s' := OtherStep(s, l);
    assert s'.h == s.h && PublishedCount(s') == PublishedCount(s) && Fetched(s') == Fetched(s);
    assert LoaderRank(s'.ld.pc) + ReaderRank(s'.rpc) + 5 * MayMiss(s')
           < LoaderRank(s.ld.pc) + ReaderRank(s.rpc) + 5 * MayMiss(s);
  }

  lemma ProgressStep(s: State, l: Label)
    requires Inv(s) && Enabled(s, l) && Progress(s, l)
    ensures Inv(Apply(s, l)) && Measure(Apply(s, l)) < Measure(s)
  {
    hide Inv, Enabled, Measure, Apply, LoaderStmt, ReaderStmt, OtherStep;
    StepInv(s, l);
    ApplyIs(s, l);
    InvParts(s);
    match l
    case Stmt(Loader) => LoaderProgress(s);
    case Stmt(Reader) => ReaderProgress(s);
    case _ => OtherProgress(s, l);
  }

  ghost predicate ProgressRun(s: State, ls: seq<Label>)
    decreases |ls|
  {
    ls != [] ==> Enabled(s, ls[0]) && Progress(s, ls[0]) && ProgressRun(Apply(s, ls[0]), ls[1..])
  }

  lemma {:induction false} BoundedRun(s: State, ls: seq<Label>)
    requires Inv(s) && ProgressRun(s, ls)
    ensures Run(s, ls).Some? && |ls| <= Measure(s)
    decreases |ls|
  {
    MeasureNonNegative(s);
    if ls != [] {
      ProgressStep(s, ls[0]);
      BoundedRun(Apply(s, ls[0]), ls[1..]);
    }
  }

  lemma NotStuck(s: State)
    requires Inv(s) && |s.h.delivered| < N(s)
    ensures exists l :: Enabled(s, l) && Progress(s, l)
  {
    if s.rpc.RIdle? {
      assert Enabled(s, Call(Next)) && Progress(s, Call(Next));
    } else if s.rpc.RAsleep? {
      LoaderCanMove(s);
      var l :| LoaderLabel(l) && Enabled(s, l);
      assert Progress(s, l);
    } else if (s.rpc.RHas? || s.rpc.RTest? || s.rpc.RCheck?) && !s.rpc.view.Complete() {
      var l := if s.rpc.view.ridx.None? then LoadRidx(Reader) else LoadRest(Reader);
      assert Enabled(s, l) && Progress(s, l);
    } else if s.ld.pc.LTest? && !s.ld.pc.view.Complete() {
      var l := if s.ld.pc.view.ridx.None? then LoadRidx(Loader) else LoadRest(Loader);
      assert Enabled(s, l) && Progress(s, l);
    } else {
      assert Enabled(s, Stmt(Reader)) || Enabled(s, Stmt(Loader));
      assert Progress(s, Stmt(Reader)) && Progress(s, Stmt(Loader));
    }
  }

  // No progress step is possible.
  ghost predicate Stopped(s: State) { forall l :: Enabled(s, l) ==> !Progress(s, l) }

  // It stops with everything delivered, the loader finished, and the reader idle or asleep.
  lemma StoppedIs(s: State)
    requires Inv(s) && Stopped(s)
    ensures |s.h.delivered| == N(s) && s.ld.pc.LDone? && (s.rpc.RIdle? || s.rpc.RAsleep?)
  {
    MeasureNonNegative(s);
    if |s.h.delivered| < N(s) { NotStuck(s); }
    assert Progress(s, Stmt(Reader)) && Progress(s, Stmt(Loader));
    assert Progress(s, LoadRidx(Reader)) && Progress(s, LoadRest(Reader));
    assert Progress(s, LoadRidx(Loader)) && Progress(s, LoadRest(Loader));
  }

  // The number of switches of a loader that has finished.
  predicate AllSwitches(cfg: Config, k: int)
  {
    if cfg.entries == [] then k == 1 else (k - 1) * cfg.size < |cfg.entries| <= k * cfg.size
  }

  lemma DoneSwitches(s: State)
    requires Inv(s) && s.ld.pc.LDone?
    ensures AllSwitches(s.cfg, |s.h.batches|)
  {
  }

  // Every schedule of progress steps has at most 53 n + 49 of them, and one that cannot be
  // continued has delivered every record, unless a record in transit was overwritten, and has
  // ended the loader after ceil(n / size) switches, or one for an empty source.
  lemma Completion(cfg: Config, ls: seq<Label>)
    requires cfg.size > 0 && ProgressRun(Init(cfg), ls)
    ensures Run(Init(cfg), ls).Some? && |ls| <= 53 * |cfg.entries| + 49
    ensures var s := Run(Init(cfg), ls).value;
            Stopped(s) ==>
              && |s.h.delivered| == |cfg.entries| && (!s.h.corrupt ==> s.h.delivered == Source(cfg))
              && s.ld.pc.LDone? && AllSwitches(cfg, |s.h.batches|)
  {
    InitInv(cfg);
    BoundedRun(Init(cfg), ls);
    RunInv(Init(cfg), ls);
    var s := Run(Init(cfg), ls).value;
    if Stopped(s) {
      StoppedIs(s);
      DoneSwitches(s);
    }
  }

  // Every schedule of progress steps can be continued to one that has stopped.
  lemma {:induction false} StoppedRun(s: State) returns (ls: seq<Label>)
    requires Inv(s)
    ensures ProgressRun(s, ls) && Run(s, ls).Some? && Stopped(Run(s, ls).value)
    decreases Measure(s)
  {
    hide Inv, Enabled, Progress, Measure, Apply;
    ls := [];
    MeasureNonNegative(s);
    if l :| Enabled(s, l) && Progress(s, l) {
      ProgressStep(s, l);
      MeasureNonNegative(Apply(s, l));
      var more := StoppedRun(Apply(s, l));
      ls := [l] + more;
      assert ls[1..] == more;
    }
  }
}
