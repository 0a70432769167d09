// Where delivery and has_next fall short of what the comments claim, and exactly when.
//
// next raises `_ridx` before it moves the record out, so the loader may refill the slot in
// between; and has_next reads `_eof` after emptiness, so it may miss the last batch.
module DoubleBufferRaces {
  import opened Options
  import opened DoubleBuffer
  import opened DoubleBufferInvariant
  import opened DoubleBufferSafety
  import opened DoubleBufferRuns
  import opened DoubleBufferOutcomes

  // ---------- Delivery is right exactly as long as no record in transit was overwritten ----------

  ghost predicate Distinct(cfg: Config)
  {
    forall i, j :: 0 <= i < j < |cfg.entries| ==> cfg.entries[i] != cfg.entries[j]
  }

  ghost predicate Judged(s: State)
  {
    Inv(s) && (s.h.corrupt ==> !(s.h.delivered <= Source(s.cfg)))
  }

  lemma JudgedStep(s: State, l: Label)
    requires Judged(s) && Distinct(s.cfg) && Enabled(s, l)
    ensures Judged(Apply(s, l)) && Apply(s, l).cfg == s.cfg
  {
    hide Inv, Apply, Enabled;
    StepInv(s, l);
    var s' := Apply(s, l);
    assert s.h.delivered <= s'.h.delivered by { DeliveredGrows(s, l); }
    DeliveredGrows(s, l);
    if s'.h.corrupt && !s.h.corrupt { WrongRecord(s, l); }
  }

  lemma DeliveredGrows(s: State, l: Label)
    requires Enabled(s, l)
    ensures s.h.delivered <= Apply(s, l).h.delivered
    ensures Apply(s, l).h.corrupt && !s.h.corrupt ==> InTransitOverwritten(s) && l == Stmt(Reader)
  {
  }

  // The record moved out of an overwritten slot is one that is due later.
  lemma WrongRecord(s: State, l: Label)
    requires Inv(s) && !s.h.corrupt && Distinct(s.cfg) && InTransitOverwritten(s) && l == Stmt(Reader)
    ensures Enabled(s, l) && !(Apply(s, l).h.delivered <= Source(s.cfg))
  {
    var src, d, j := Source(s.cfg), |s.h.delivered|, PublishedCount(s) + s.rpc.slot;
    assert d < j < |src| && SlotAt(s.m, s.rpc.buf, s.rpc.slot) == Full(src[j]);
    assert ReaderStmt(s).h.delivered[d] == src[j] != src[d];
  }

  lemma {:induction false} JudgedRun(s: State, ls: seq<Label>)
    requires Judged(s) && Distinct(s.cfg) && Run(s, ls).Some?
    ensures Judged(Run(s, ls).value)
    decreases |ls|
  {
    if ls != [] {
      JudgedStep(s, ls[0]);
      JudgedRun(Apply(s, ls[0]), ls[1..]);
    }
  }

  lemma DeliveryExact(s: State)
    requires Reachable(s) && Distinct(s.cfg)
    ensures s.h.delivered <= Source(s.cfg) <==> !s.h.corrupt
  {
    var ls :| s.cfg.size > 0 && Run(Init(s.cfg), ls) == Some(s);
    InitInv(s.cfg);
    JudgedRun(Init(s.cfg), ls);
  }

  // A take that leaves a record behind in the buffer is never overwritten.
  lemma OnlyDrainingTakes(s: State)
    requires Reachable(s) && InTransitOverwritten(s)
    ensures s.rpc.slot == s.cfg.size - 1 && s.ld.idx == s.rpc.buf != s.m.buffIdx
  {
    ReachableInv(s);
  }

  // ---------- Schedules that are safe ----------

  // While a take is half done nothing else runs.
  ghost predicate TakesWhole(s: State, ls: seq<Label>)
    decreases |ls|
  {
    ls != [] && Enabled(s, ls[0]) ==>
      (s.rpc.RMove? ==> ls[0] == Stmt(Reader)) && TakesWhole(Apply(s, ls[0]), ls[1..])
  }

  lemma {:induction false} WholeTakesSafe(s: State, ls: seq<Label>)
    requires Inv(s) && !s.h.corrupt && !InTransitOverwritten(s)
    requires Run(s, ls).Some? && TakesWhole(s, ls)
    ensures !Run(s, ls).value.h.corrupt && !InTransitOverwritten(Run(s, ls).value)
    decreases |ls|
  {
    if ls != [] {
      StepInv(s, ls[0]);
      WholeTakesStep(s, ls[0]);
      WholeTakesSafe(Apply(s, ls[0]), ls[1..]);
    }
  }

  lemma WholeTakesStep(s: State, l: Label)
    requires !s.h.corrupt && !InTransitOverwritten(s) && Enabled(s, l)
    requires s.rpc.RMove? ==> l == Stmt(Reader)
    ensures !Apply(s, l).h.corrupt && !InTransitOverwritten(Apply(s, l))
  {
  }

  predicate OnlyBatches(pc: ReaderPC)
  {
    match pc
    case RHas(use, _) => !use.Next?
    case RHasEof(use) => !use.Next?
    case RLockR(use) => !use.Next?
    case RTest(use, _) => !use.Next?
    case RAsleep(use) => !use.Next?
    case RRelock(use) => !use.Next?
    case _ => !pc.RTake? && !pc.RMove? && !pc.RCheck?
  }

  lemma {:induction false} BatchFetchSafe(s: State, ls: seq<Label>)
    requires OnlyBatches(s.rpc) && !s.h.corrupt && Call(Next) !in ls && Run(s, ls).Some?
    ensures OnlyBatches(Run(s, ls).value.rpc) && !Run(s, ls).value.h.corrupt
    decreases |ls|
  {
    if ls != [] {
      BatchFetchStep(s, ls[0]);
      BatchFetchSafe(Apply(s, ls[0]), ls[1..]);
    }
  }

  lemma BatchFetchStep(s: State, l: Label)
    requires OnlyBatches(s.rpc) && !s.h.corrupt && l != Call(Next) && Enabled(s, l)
    ensures OnlyBatches(Apply(s, l).rpc) && !Apply(s, l).h.corrupt
  {
  }

  // ---------- Configurations that are safe ----------

  // A take is overwritten two rounds after its batch, by a round that fills the whole buffer.
  lemma FewRecordsKept(s: State)
    requires Inv(s) && N(s) < 3 * s.cfg.size
    ensures !InTransitOverwritten(s)
  {
    if InTransitOverwritten(s) {
      var k := |s.h.batches|;
      assert s.ld.recIdx == s.cfg.size == s.m.rest && s.m.ridx == 0;
      assert PublishedCount(s) == FullBatches(s.cfg, k) > s.cfg.size;
      assert FullBatches(s.cfg, 1) == s.cfg.size;
      if k >= 2 { TwoBatches(s.cfg, k); }
      assert false;
    }
  }

  lemma TwoBatches(cfg: Config, k: nat)
    requires k >= 2
    ensures FullBatches(cfg, k) >= 2 * cfg.size
  {
    assert k * cfg.size == 2 * cfg.size + (k - 2) * cfg.size;
  }

  lemma {:induction false} FewRecordsSafe(s: State, ls: seq<Label>)
    requires Inv(s) && N(s) < 3 * s.cfg.size && !s.h.corrupt && Run(s, ls).Some?
    ensures !Run(s, ls).value.h.corrupt
    decreases |ls|
  {
    if ls != [] {
      StepInv(s, ls[0]);
      FewRecordsKept(s);
      DeliveredGrows(s, ls[0]);
      FewRecordsSafe(Apply(s, ls[0]), ls[1..]);
    }
  }

  // The schedules without next, those in which no take is interrupted, and all of them if there are
  // not three full batches.
  ghost predicate SafeSchedule(s: State, ls: seq<Label>)
  {
    || (OnlyBatches(s.rpc) && Call(Next) !in ls)
    || (!InTransitOverwritten(s) && TakesWhole(s, ls))
    || N(s) < 3 * s.cfg.size
  }

  lemma SafeScheduleKeeps(s: State, ls: seq<Label>)
    requires Inv(s) && !s.h.corrupt && SafeSchedule(s, ls) && Run(s, ls).Some?
    ensures var s' := Run(s, ls).value; Inv(s') && !s'.h.corrupt && s'.h.delivered <= Source(s.cfg)
  {
    RunInv(s, ls);
    if OnlyBatches(s.rpc) && Call(Next) !in ls { BatchFetchSafe(s, ls); }
    else if N(s) < 3 * s.cfg.size { FewRecordsSafe(s, ls); }
    else { WholeTakesSafe(s, ls); }
  }

  // has_next has answered "no more" to some call, or next or batch_fetch has thrown.
  ghost predicate SaidNo(s: State) { exists i :: 0 <= i < |s.h.outcomes| && SaysNo(s.h.outcomes[i]) }

  // On every such schedule delivery is exactly once and in order; and after a "no more" an idle
  // reader beside a drained buffer has everything.
  lemma SafeDelivery(cfg: Config, ls: seq<Label>)
    requires cfg.size > 0 && Run(Init(cfg), ls).Some? && SafeSchedule(Init(cfg), ls)
    ensures var s := Run(Init(cfg), ls).value;
            && s.h.delivered <= Source(cfg)
            && (s.rpc.RIdle? && SaidNo(s) && s.m.ridx >= s.m.rest ==> s.h.delivered == Source(cfg))
  {
    var s := Run(Init(cfg), ls).value;
    InitInv(cfg);
    SafeScheduleKeeps(Init(cfg), ls);
    RunInv(Init(cfg), ls);
    assert Reachable(s);
    CallsAccount(s);
    if s.rpc.RIdle? { HasNextNowExact(s); }
  }

  // ---------- A torn take, in every configuration that is not safe ----------

  // next has claimed the last slot of the first buffer; meanwhile the second batch is published
  // and the loader begins the third round.
  lemma LastSlotClaimed(cfg: Config) returns (s: State)
    requires cfg.size > 0 && |cfg.entries| >= 3 * cfg.size
    ensures Reachable(s) && s.cfg == cfg && s.ld.pc.LStart? && s.ld.cursor == 2 * cfg.size
    ensures s.m.buffIdx == 0 && s.rpc == RMove(1, cfg.size - 1, false)
    ensures |s.h.delivered| == cfg.size - 1 && !s.h.corrupt
  {
    hide Reachable;
    InitReachable(cfg);
    s := LoaderPublishes(Init(cfg));
    s := LoaderHandsOver(s);
    s := ReaderTakes(s, cfg.size - 1);
    s := ReaderClaims(s);
    s := LoaderPublishes(s);
    s := LoaderHandsOver(s);
  }

  // The loader overwrites the claimed record: in its place the reader gets the one that is due
  // two batches later, and the claimed record is lost.
  lemma TornTake(cfg: Config) returns (s: State)
    requires cfg.size > 0 && |cfg.entries| >= 3 * cfg.size
    ensures Reachable(s) && s.cfg == cfg
    ensures s.h.delivered == Source(cfg)[..cfg.size - 1] + [Source(cfg)[3 * cfg.size - 1]]
  {
    hide Reachable;
    s := LastSlotClaimed(cfg);
    s := LoaderFillsBatch(s);
    OverwrittenBy(s);
    s := Go(s, Stmt(Reader));
  }

  lemma OverwrittenBy(s: State)
    requires Reachable(s) && !s.h.corrupt && s.cfg.size > 0 && |s.h.delivered| == s.cfg.size - 1
    requires s.ld.pc.LLockW? && s.ld.recIdx == s.cfg.size && s.ld.cursor == 3 * s.cfg.size && s.ld.idx == 1
    ensures 3 * s.cfg.size <= N(s) && s.h.delivered == Source(s.cfg)[..s.cfg.size - 1]
    ensures SlotAt(s.m, 1, s.cfg.size - 1) == Full(Source(s.cfg)[3 * s.cfg.size - 1])
  {
    ReachableInv(s);
    assert StagedRight(s);
  }

  // Every run delivers a prefix of the source; with withNext false, every run of batch_fetch alone.
  ghost predicate EveryRunDelivers(cfg: Config, withNext: bool)
  {
    forall ls :: Run(Init(cfg), ls).Some? && (withNext || Call(Next) !in ls) ==>
      Run(Init(cfg), ls).value.h.delivered <= Source(cfg)
  }

  // For the distinct entries of a database: no schedule at all goes wrong if and only if next is
  // never called or there are not three full batches.
  lemma EveryRunDeliversExact(cfg: Config, withNext: bool)
    requires cfg.size > 0 && Distinct(cfg)
    ensures EveryRunDelivers(cfg, withNext) <==> !withNext || |cfg.entries| < 3 * cfg.size
  {
    if !withNext || |cfg.entries| < 3 * cfg.size {
      forall ls | Run(Init(cfg), ls).Some? && (withNext || Call(Next) !in ls)
        ensures Run(Init(cfg), ls).value.h.delivered <= Source(cfg)
      {
        SafeDelivery(cfg, ls);
      }
    } else {
      var s := TornTake(cfg);
      var ls :| Run(Init(cfg), ls) == Some(s);
      assert s.h.delivered[cfg.size - 1] == Source(cfg)[3 * cfg.size - 1] != Source(cfg)[cfg.size - 1];
    }
  }

  // ---------- has_next ----------

  // The call just over said "no more", by its answer or by throwing, with a record due.
  predicate FalseEnd(s: State)
  {
    && s.rpc.RIdle? && |s.h.delivered| < N(s)
    && s.h.outcomes != [] && SaysNo(s.h.outcomes[|s.h.outcomes| - 1])
  }

  // has_next finds the buffer empty, the loader publishes the last batch and writes `_eof`, and
  // has_next answers "no more" with the whole batch unread.
  lemma FalseEndOfData(cfg: Config, use: Use) returns (s: State)
    requires cfg.size > 0 && cfg.entries != []
    ensures Reachable(s) && s.cfg == cfg && FalseEnd(s) && s.m.ridx == 0 < s.m.rest
    ensures s.h.outcomes[|s.h.outcomes| - 1] == if use.HasNext? then Answer(false) else ReadEof
  {
    hide Reachable;
    s := LastRound(cfg);
    s := ReaderAsks(s, use);
    s := LoaderPublishes(s);
    s := LoaderHandsOver(s);
    s := Go(s, Stmt(Reader));
  }

  // It can happen to every source but the empty one.
  lemma FalseEndExact(cfg: Config)
    requires cfg.size > 0
    ensures (exists s :: Reachable(s) && s.cfg == cfg && FalseEnd(s)) <==> cfg.entries != []
  {
    if cfg.entries != [] { var _ := FalseEndOfData(cfg, HasNext); }
  }
}
