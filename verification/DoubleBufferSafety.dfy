// What holds in every reachable state of the protocol, that is, after every schedule.
module DoubleBufferSafety {
  import opened Options
  import opened DoubleBuffer
  import opened DoubleBufferInvariant

  lemma {:induction false} RunInv(s: State, ls: seq<Label>)
    requires Inv(s) && Run(s, ls).Some?
    ensures Inv(Run(s, ls).value) && Run(s, ls).value.cfg == s.cfg
    decreases |ls|
  {
    if ls != [] {
      StepInv(s, ls[0]);
      RunInv(Apply(s, ls[0]), ls[1..]);
    }
  }

  // A run is extended at its end.
  lemma {:induction false} RunSnoc(s: State, ls: seq<Label>, l: Label)
    requires Run(s, ls).Some? && Enabled(Run(s, ls).value, l)
    ensures Run(s, ls + [l]) == Some(Apply(Run(s, ls).value, l))
    decreases |ls|
  {
    if ls == [] {
      assert [l][1..] == [];
      assert [] + [l] == [l];
    } else {
      assert (ls + [l])[1..] == ls[1..] + [l];
      RunSnoc(Apply(s, ls[0]), ls[1..], l);
    }
  }

  lemma ReachableInv(s: State)
    requires Reachable(s)
    ensures Inv(s)
  {
    var ls :| s.cfg.size > 0 && Run(Init(s.cfg), ls) == Some(s);
    InitInv(s.cfg);
    RunInv(Init(s.cfg), ls);
  }

  // ---------- Conservation ----------

  function Records(slots: seq<Slot>): (r: seq<TaggedStrPair>)
    ensures |r| == |slots|
    ensures forall i :: 0 <= i < |r| ==> r[i] == Contents(slots[i])
  {
    seq(|slots|, i requires 0 <= i < |slots| => Contents(slots[i]))
  }

  function MovingRecord(s: State): seq<TaggedStrPair>
  {
    if s.rpc.RMove? then [Contents(SlotAt(s.m, s.rpc.buf, s.rpc.slot))] else []
  }

  function UnreadRecords(s: State): seq<TaggedStrPair>
    requires Sized(s)
  {
    if FirstUnread(s) < s.m.rest then Records(s.m.dbuff[s.m.buffIdx][FirstUnread(s)..s.m.rest]) else []
  }

  function StagedRecords(s: State): seq<TaggedStrPair>
    requires Sized(s)
  {
    Records(s.m.dbuff[s.ld.idx][..Staged(s)])
  }

  // next has claimed a slot that the loader has overwritten since.
  predicate InTransitOverwritten(s: State) { s.rpc.RMove? && s.rpc.overwritten }

  // Every record is in exactly one place, and the places read in order are the source.
  lemma ExactlyOnceInOrder(s: State)
    requires Reachable(s) && !s.h.corrupt && !InTransitOverwritten(s)
    ensures Sized(s) && Fetched(s) <= N(s)
    ensures s.h.delivered + MovingRecord(s) + UnreadRecords(s) + StagedRecords(s)
            + Source(s.cfg)[Fetched(s)..] == Source(s.cfg)
  {
    ReachableInv(s);
    hide Sized, Sync, Counts, UnreadRight, StagedRight, MovingRight, BatchesRight, Fetched, Staged;
    DeliveredIs(s);
    UnreadFacts(s);
    StagedIs(s);
    Glue(Source(s.cfg), |s.h.delivered| + InTransit(s), PublishedCount(s), Fetched(s));
  }

  lemma Glue<T>(src: seq<T>, a: nat, b: nat, c: nat)
    requires a <= b <= c <= |src|
    ensures src[..a] + src[a..b] + src[b..c] + src[c..] == src
  {
  }

  lemma DeliveredIs(s: State)
    requires Inv(s) && !s.h.corrupt && !InTransitOverwritten(s)
    ensures |s.h.delivered| + InTransit(s) <= N(s)
    ensures s.h.delivered + MovingRecord(s) == Source(s.cfg)[..|s.h.delivered| + InTransit(s)]
  {
  }

  lemma StagedIs(s: State)
    requires Inv(s) && !s.h.corrupt
    ensures 0 <= PublishedCount(s) <= Fetched(s) <= N(s)
    ensures StagedRecords(s) == Source(s.cfg)[PublishedCount(s)..Fetched(s)]
  {
  }

  lemma UnreadFacts(s: State)
    requires Inv(s) && !s.h.corrupt
    ensures 0 <= |s.h.delivered| + InTransit(s) <= PublishedCount(s) <= N(s)
    ensures UnreadRecords(s) == Source(s.cfg)[|s.h.delivered| + InTransit(s)..PublishedCount(s)]
  {
    UnreadIs(s);
  }

  lemma UnreadIs(s: State)
    requires Sized(s) && LoaderFacts(s) && ReaderFacts(s) && Counts(s) && UnreadRight(s)
    ensures 0 <= |s.h.delivered| + InTransit(s) <= PublishedCount(s) <= N(s)
    ensures UnreadRecords(s) == Source(s.cfg)[|s.h.delivered| + InTransit(s)..PublishedCount(s)]
  {
    UnreadBounds(s);
    hide LoaderFacts, ReaderFacts, Counts;
    if FirstUnread(s) < s.m.rest {
      HeldRecords(s.m.dbuff[s.m.buffIdx], FirstUnread(s), s.m.rest, Source(s.cfg), PublishedCount(s) - s.m.rest);
    }
  }

  lemma HeldRecords(slots: seq<Slot>, from: nat, to: nat, src: seq<TaggedStrPair>, start: int)
    requires from < to <= |slots| && Holds(slots, from, to, src, start)
    ensures 0 <= start + from && start + to <= |src|
    ensures Records(slots[from..to]) == src[start + from..start + to]
  {
  }

  lemma UnreadBounds(s: State)
    requires Sized(s) && LoaderFacts(s) && ReaderFacts(s) && Counts(s)
    ensures 0 <= |s.h.delivered| + InTransit(s) <= PublishedCount(s) <= N(s)
    ensures FirstUnread(s) < s.m.rest ==>
              !Switching(s.ld.pc) && PublishedCount(s) - s.m.rest + FirstUnread(s) == |s.h.delivered| + InTransit(s)
    ensures FirstUnread(s) >= s.m.rest ==> |s.h.delivered| + InTransit(s) == PublishedCount(s)
  {
  }

  // ---------- The switch ----------

  // Both asserts of _load hold, next's assert holds, and the loader only switches away from a
  // buffer that was full and has been read to its end.
  lemma SwitchFacts(s: State)
    requires Reachable(s)
    ensures !s.ld.pc.LAborted? && !s.rpc.RAborted?
    ensures s.ld.pc.LSetIdx? ==> s.m.ridx == s.m.rest == s.cfg.size > 0
    ensures s.ld.pc.LSetRest? ==> s.m.rest > 0 && s.ld.recIdx <= s.m.ridx
    ensures s.ld.pc.LSetRidx? ==> (s.m.rest == 0 <==> N(s) == 0)
  {
    ReachableInv(s);
  }

  // The k-th published batch is source[k*size .. min((k+1)*size, n)], and a loader that has
  // finished has switched once for an empty source and ceil(n / size) times for any other.
  lemma Batches(s: State)
    requires Reachable(s)
    ensures !s.h.corrupt ==> forall k :: 0 <= k < |s.h.batches| ==> s.h.batches[k] == Batch(s.cfg, k)
    ensures var k := |s.h.batches|;
            s.ld.pc.LDone? ==> if N(s) == 0 then k == 1 else (k - 1) * s.cfg.size < N(s) <= k * s.cfg.size
  {
    ReachableInv(s);
  }

  // ---------- Mutual exclusion ----------

  // Region of the reader: the loader is not switching, and the buffer it fills is the other one.
  lemma SlotOwnership(s: State)
    requires Reachable(s)
    ensures InRegion(s.rpc) ==> !Switching(s.ld.pc) && s.m.ridx < s.m.rest
    ensures InRegion(s.rpc) && s.ld.pc.LStore? ==> s.ld.idx != s.m.buffIdx
    ensures s.rpc.RCopy? ==> s.rpc.buf == s.m.buffIdx && s.rpc.end == s.m.rest
  {
    ReachableInv(s);
  }

  // Two loads in either order are safe: the loader never concludes "empty" while a record is
  // unread, and a reader of a non-empty source never concludes "non-empty" of an empty buffer.
  lemma SplitLoadsSafe(s: State)
    requires Reachable(s)
    ensures s.ld.pc.LTest? && s.ld.pc.view.Empty() ==> s.m.ridx >= s.m.rest
    ensures s.rpc.RTest? && s.rpc.view.Complete() && !s.rpc.view.Empty() ==> s.m.ridx < s.m.rest
  {
    ReachableInv(s);
  }

  // ---------- Wake-ups ----------

  predicate LoaderOwesNotify(s: State) { s.ld.pc.LSetEof? || s.ld.pc.LLockR? || s.ld.pc.LNotifyR? }

  predicate ReaderOwesNotify(s: State)
  {
    s.rpc.RMove? || s.rpc.RCheck? || s.rpc.RLockW? || s.rpc.RNotifyW?
  }

  lemma NoLostWakeUp(s: State)
    requires Reachable(s)
    ensures s.rpc.RAsleep? && s.m.ridx < s.m.rest ==> LoaderOwesNotify(s)
    ensures s.ld.pc.LAsleep? && s.m.ridx >= s.m.rest ==> ReaderOwesNotify(s)
    ensures !(s.rpc.RAsleep? && s.ld.pc.LAsleep?)
  {
    ReachableInv(s);
  }

  // An owed notify is not forgotten: the decision after a draining take goes to the notify.
  lemma DrainingTakeNotifies(s: State)
    requires Reachable(s) && s.rpc.RCheck? && s.rpc.view.Complete()
    ensures s.ld.pc.LAsleep? && s.m.ridx >= s.m.rest ==> TakeStmt(s).rpc.RLockW?
  {
    ReachableInv(s);
  }

  predicate LoaderLabel(l: Label)
  {
    l in {Stmt(Loader), LoadRidx(Loader), LoadRest(Loader)}
  }

  function Unloaded(v: View): nat
  {
    (if v.ridx.None? then 1 else 0) + (if v.rest.None? then 1 else 0)
  }

  // An upper bound on the loader steps before its next notify.
  function NotifyRank(s: State): nat
    requires Sized(s)
  {
    var room := 3 * (s.cfg.size - s.ld.recIdx);
    match s.ld.pc
    case LUnlockR => 3 * s.cfg.size + 20
    case LLoop => 3 * s.cfg.size + 19
    case LStart => 3 * s.cfg.size + 18
    case LFill => room + 17
    case LStore => room + 16
    case LAdvance => room + 18
    case LLockW => 15
    case LRelock => 15
    case LTest(v) => 12 + Unloaded(v)
    case LSetIdx => 11
    case LSetRest => 10
    case LSetRidx => 9
    case LSetEof => 8
    case LLockR => 7
    case LNotifyR => 6
    case _ => 0
  }

  lemma NotifyNearer(s: State, l: Label)
    requires Sized(s) && LoaderFacts(s) && EofFacts(s) && LoaderView(s) && OwedNotifies(s) && Counts(s)
    requires s.rpc.RAsleep? && |s.h.delivered| < N(s) && LoaderLabel(l) && Enabled(s, l) && Sized(Apply(s, l))
    ensures Apply(s, l).h.delivered == s.h.delivered
    ensures Apply(s, l).rpc.RAsleep? ==> NotifyRank(Apply(s, l)) < NotifyRank(s)
  {
  }

  lemma LoaderCanMove(s: State)
    requires Inv(s) && s.rpc.RAsleep? && |s.h.delivered| < N(s)
    ensures exists l :: LoaderLabel(l) && Enabled(s, l)
  {
    if s.ld.pc.LTest? && !s.ld.pc.view.Complete() {
      assert Enabled(s, if s.ld.pc.view.ridx.None? then LoadRidx(Loader) else LoadRest(Loader));
    } else {
      assert Enabled(s, Stmt(Loader));
    }
  }

  // A sleeping reader with records still to come: the loader alone wakes it, whatever it does,
  // within NotifyRank steps, and until then the loader can always move.
  lemma {:induction false} SleeperIsWoken(s: State, ls: seq<Label>)
    requires Inv(s) && s.rpc.RAsleep? && |s.h.delivered| < N(s)
    requires (forall l :: l in ls ==> LoaderLabel(l)) && Run(s, ls).Some?
    ensures var s' := Run(s, ls).value;
            s'.rpc.RAsleep? ==> |ls| <= NotifyRank(s) && exists l :: LoaderLabel(l) && Enabled(s', l)
    decreases |ls|
  {
    if ls == [] {
      LoaderCanMove(s);
    } else {
      assert LoaderLabel(ls[0]);
      var s' := Apply(s, ls[0]);
      StepInv(s, ls[0]);
      NotifyNearer(s, ls[0]);
      if s'.rpc.RAsleep? { SleeperIsWoken(s', ls[1..]); } else { AwakeStays(s', ls[1..]); }
    }
  }

  lemma {:induction false} AwakeStays(s: State, ls: seq<Label>)
    requires !s.rpc.RAsleep? && (forall l :: l in ls ==> LoaderLabel(l)) && Run(s, ls).Some?
    ensures !Run(s, ls).value.rpc.RAsleep?
    decreases |ls|
  {
    if ls != [] {
      assert LoaderLabel(ls[0]);
      AwakeStays(Apply(s, ls[0]), ls[1..]);
    }
  }

  // A call that got past has_next after the last record was delivered.
  predicate Hung(s: State) { PastHasNext(s.rpc) && |s.h.delivered| == N(s) }

  // Whatever runs from there, spurious wake-ups included, it does not return.
  lemma {:induction false} HungForGood(s: State, ls: seq<Label>)
    requires Inv(s) && Hung(s) && Run(s, ls).Some?
    ensures var s' := Run(s, ls).value; Inv(s') && Hung(s') && s'.h.delivered == s.h.delivered
    ensures !s.h.corrupt ==> s.h.delivered == Source(s.cfg)
    decreases |ls|
  {
    if ls != [] {
      StepInv(s, ls[0]);
      HungStep(s, ls[0]);
      HungForGood(Apply(s, ls[0]), ls[1..]);
    }
  }

  lemma HungStep(s: State, l: Label)
    requires Sized(s) && LoaderFacts(s) && EmptySource(s) && ReaderFacts(s) && ReaderView(s) && Counts(s)
    requires Hung(s) && Enabled(s, l)
    ensures Hung(Apply(s, l)) && Apply(s, l).h.delivered == s.h.delivered && Apply(s, l).cfg == s.cfg
  {
  }

  // A reader asleep after the loader's last notify has been delivered everything.
  lemma SleepsAfterLastNotify(s: State)
    requires Reachable(s) && s.rpc.RAsleep? && s.ld.cursor == N(s)
    requires s.ld.pc.LUnlockR? || s.ld.pc.LLoop? || s.ld.pc.LDone?
    ensures Hung(s)
  {
    ReachableInv(s);
  }

  // ---------- has_next ----------

  // The answer has_next would give if its loads were made at once.
  predicate HasNextNow(s: State) { !(s.m.ridx >= s.m.rest && s.m.eof) }

  // The last batch is published and drained, but `_eof` is still to be written.
  predicate EofWindow(s: State)
  {
    s.ld.pc.LSetEof? && s.ld.cursor == N(s) > 0 && s.m.ridx >= s.m.rest
  }

  lemma HasNextNowExact(s: State)
    requires Reachable(s) && !s.rpc.RMove? && !InRegion(s.rpc)
    ensures HasNextNow(s) <==> |s.h.delivered| < N(s) || EofWindow(s)
    ensures EofWindow(s) ==> |s.h.delivered| == N(s)
    ensures !HasNextNow(s) && !s.h.corrupt ==> s.h.delivered == Source(s.cfg)
  {
    ReachableInv(s);
  }

  // ---------- The destructor ----------

  function JoinRank(pc: LoaderPC): nat
  {
    match pc
    case LStart => 20
    case LFill => 19
    case LLockW => 18
    case LTest(v) => 15 + Unloaded(v)
    case LSetIdx => 14
    case LSetRest => 13
    case LSetRidx => 12
    case LSetEof => 11
    case LLockR => 10
    case LNotifyR => 9
    case LUnlockR => 8
    case LLoop => 7
    case _ => 0
  }

  predicate Joining(s: State) { Inv(s) && s.rpc.RIdle? && s.m.eof }

  lemma JoinStep(s: State)
    requires Joining(s)
    ensures s.ld.pc.LDone? || exists l :: LoaderLabel(l) && Enabled(s, l)
    ensures forall l :: LoaderLabel(l) && Enabled(s, l) ==>
              Joining(Apply(s, l)) && JoinRank(Apply(s, l).ld.pc) < JoinRank(s.ld.pc)
  {
    if s.ld.pc.LTest? && !s.ld.pc.view.Complete() {
      assert Enabled(s, if s.ld.pc.view.ridx.None? then LoadRidx(Loader) else LoadRest(Loader));
    } else if !s.ld.pc.LDone? {
      assert Enabled(s, Stmt(Loader));
    }
    forall l | LoaderLabel(l) && Enabled(s, l)
      ensures Joining(Apply(s, l)) && JoinRank(Apply(s, l).ld.pc) < JoinRank(s.ld.pc)
    {
      StepInv(s, l);
      JoinNearer(s, l);
    }
  }

  lemma JoinNearer(s: State, l: Label)
    requires Sized(s) && LoaderFacts(s) && EofFacts(s) && EmptySource(s) && LoaderView(s)
    requires s.rpc.RIdle? && s.m.eof && LoaderLabel(l) && Enabled(s, l)
    ensures Apply(s, l).rpc.RIdle? && Apply(s, l).m.eof
    ensures JoinRank(Apply(s, l).ld.pc) < JoinRank(s.ld.pc)
  {
  }

  // Once `_eof` is set no further wait of the loader needs the reader, so the join of the
  // destructor returns: every schedule of the loader alone ends, and ends with the loader done.
  lemma {:induction false} JoinReturns(s: State, ls: seq<Label>)
    requires Joining(s) && (forall l :: l in ls ==> LoaderLabel(l)) && Run(s, ls).Some?
    ensures |ls| <= JoinRank(s.ld.pc)
    ensures Run(s, ls).value.ld.pc.LDone?
            || exists l :: LoaderLabel(l) && Enabled(Run(s, ls).value, l)
    decreases |ls|
  {
    hide JoinRank;
    JoinStep(s);
    if ls != [] {
      assert LoaderLabel(ls[0]);
      JoinReturns(Apply(s, ls[0]), ls[1..]);
    }
  }
}
