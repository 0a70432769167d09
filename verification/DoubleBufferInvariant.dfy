// The inductive invariant of the protocol.
module DoubleBufferInvariant {
  import opened Options
  import opened DoubleBuffer

  // ---------- Regions of the two programs ----------

  predicate Filling(pc: LoaderPC)
  {
    pc.LFill? || pc.LStore? || pc.LAdvance? || pc.LLockW? || pc.LTest? || pc.LAsleep? || pc.LRelock?
  }

  predicate Waiting(pc: LoaderPC) { pc.LLockW? || pc.LTest? || pc.LAsleep? || pc.LRelock? }

  // The loader saw the read buffer drained and has not handed over the next one yet.
  predicate Switching(pc: LoaderPC) { pc.LSetIdx? || pc.LSetRest? || pc.LSetRidx? }

  predicate Handing(pc: LoaderPC)
  {
    pc.LSetEof? || pc.LLockR? || pc.LNotifyR? || pc.LUnlockR? || pc.LLoop?
  }

  // The source's region(_ridx < _rest) up to the write of `_ridx`.
  predicate InRegion(pc: ReaderPC) { pc.RTake? || pc.RSpan? || pc.RCopy? || pc.RPublish? }

  // The loader has published the batch it filled last.
  predicate Over(s: State) { Handing(s.ld.pc) || s.ld.pc.LDone? }

  predicate PastHasNext(pc: ReaderPC) { pc.RLockR? || pc.RTest? || pc.RAsleep? || pc.RRelock? }

  // ---------- Where the records are ----------

  function N(s: State): nat { |s.cfg.entries| }

  // Records the loader has taken from the iterator.
  function Fetched(s: State): nat { s.ld.cursor + if s.ld.pc.LAdvance? then 1 else 0 }

  // Those of them still in the spare buffer.
  function Staged(s: State): nat
  {
    if Filling(s.ld.pc) || Switching(s.ld.pc) then s.ld.recIdx else 0
  }

  function Unread(s: State): nat { if s.m.ridx < s.m.rest then s.m.rest - s.m.ridx else 0 }

  // Records delivered by batch_fetch that `_ridx` does not count yet.
  function Ahead(s: State): int
  {
    match s.rpc
    case RCopy(_, k, _, _) => k - s.m.ridx
    case RPublish(_) => s.m.rest - s.m.ridx
    case _ => 0
  }

  function InTransit(s: State): nat { if s.rpc.RMove? then 1 else 0 }

  // ---------- The invariant ----------

  predicate Locks(s: State)
  {
    && (s.m.rmtx.ByLoader? <==> s.ld.pc.LNotifyR? || s.ld.pc.LUnlockR?)
    && (s.m.rmtx.ByReader? <==> s.rpc.RTest?)
    && (s.m.wmtx.ByLoader? <==> s.ld.pc.LTest?)
    && (s.m.wmtx.ByReader? <==> s.rpc.RNotifyW? || s.rpc.RUnlockW?)
  }

  predicate LoaderFacts(s: State)
  {
    var n, size := N(s), s.cfg.size;
    && !s.ld.pc.LAborted?
    && (s.ld.pc.LStart? && n > 0 ==> s.ld.cursor < n)
    && (s.ld.pc.LFill? ==> s.ld.recIdx < size && (s.ld.cursor == n && n > 0 ==> s.ld.recIdx > 0))
    && (s.ld.pc.LStore? ==> s.ld.cursor < n && s.ld.recIdx < size)
    && (s.ld.pc.LAdvance? ==> s.ld.cursor < n && s.ld.recIdx > 0)
    && (Waiting(s.ld.pc) || Switching(s.ld.pc) ==>
          (s.ld.recIdx == size || s.ld.cursor == n) && (n > 0 ==> s.ld.recIdx > 0))
    && (Filling(s.ld.pc) || s.ld.pc.LSetIdx? ==> s.ld.idx == 1 - s.m.buffIdx)
    && (s.ld.pc.LSetRest? || s.ld.pc.LSetRidx? ==> s.ld.idx == s.m.buffIdx)
    && (s.ld.pc.LStart? || Filling(s.ld.pc) || s.ld.pc.LSetIdx? || s.ld.pc.LSetRest? ==> s.m.rest == size)
    && (s.ld.pc.LSetRidx? ==> s.m.rest == s.ld.recIdx)
    && (Switching(s.ld.pc) ==> s.m.ridx == size)
    && (!s.ld.pc.LSetRidx? ==> s.m.ridx <= s.m.rest)
    && (Handing(s.ld.pc) && s.ld.cursor < n ==> s.m.rest == size)
    && (s.ld.pc.LDone? ==> s.ld.cursor == n)
    && (n > 0 ==> s.m.rest > 0)
  }

  predicate EofFacts(s: State)
  {
    var n := N(s);
    && (n == 0 ==> s.m.eof)
    && (n > 0 && (s.ld.pc.LStart? || Filling(s.ld.pc) || Switching(s.ld.pc) || s.ld.pc.LSetEof?) ==> !s.m.eof)
    && (s.ld.pc.LLockR? || s.ld.pc.LNotifyR? || s.ld.pc.LUnlockR? || s.ld.pc.LLoop? ==> s.m.eof == (s.ld.cursor == n))
    && (s.ld.pc.LDone? ==> s.m.eof)
  }

  // An empty database: the only switch publishes nothing, and the reader takes nothing.
  predicate EmptySource(s: State)
  {
    var over := Over(s);
    N(s) == 0 ==>
      && !s.ld.pc.LAsleep? && !s.ld.pc.LRelock?
      && (over ==> s.m.ridx == 0 && s.m.rest == 0)
      && (s.ld.pc.LStart? || Filling(s.ld.pc) ==> s.m.ridx == s.cfg.size)
      && (Filling(s.ld.pc) || Switching(s.ld.pc) ==> s.ld.recIdx == 0)
      && (s.ld.pc.LTest? && s.ld.pc.view.ridx.Some? ==> s.ld.pc.view.ridx.value == s.cfg.size)
      && (s.rpc.RIdle? || s.rpc.RHas? || s.rpc.RHasEof? || PastHasNext(s.rpc))
      && (s.rpc.RHas? && s.rpc.view.ridx.Some? ==> s.rpc.view.ridx.value == s.cfg.size || over)
      && (s.rpc.RHas? && s.rpc.view.rest.Some? ==> s.rpc.view.rest.value <= s.cfg.size)
      && (PastHasNext(s.rpc) ==> over)
      && (s.rpc.RTest? ==> s.rpc.view.ridx != None ==> s.rpc.view.ridx == Some(0))
      && (s.rpc.RTest? ==> s.rpc.view.rest != None ==> s.rpc.view.rest == Some(0))
  }

  // The slot next has named: still in the read buffer; in the buffer the loader has just
  // switched away from; or in the spare buffer of a later round, where it may be overwritten.
  predicate MoveFacts(s: State)
  {
    s.rpc.RMove? ==>
      var b, i := s.rpc.buf, s.rpc.slot;
      && b < 2 && i < s.cfg.size
      && (b == s.m.buffIdx ==>
            s.m.ridx == i + 1 && !s.rpc.overwritten && !s.ld.pc.LSetRest? && !s.ld.pc.LSetRidx?)
      && (b != s.m.buffIdx ==>
            && i == s.cfg.size - 1
            && (s.ld.pc.LSetRest? || s.ld.pc.LSetRidx? || s.m.ridx == 0 < s.m.rest)
            && (s.rpc.overwritten <==> Filling(s.ld.pc) && s.ld.recIdx > i))
  }

  predicate ReaderFacts(s: State)
  {
    && !s.rpc.RAborted?
    && (InRegion(s.rpc) ==> s.m.ridx < s.m.rest)
    && (s.rpc.RCopy? ==>
          && s.rpc.buf == s.m.buffIdx
          && s.m.ridx <= s.rpc.next <= s.rpc.end == s.m.rest)
    && MoveFacts(s)
  }

  // The loader's two loads: it never concludes empty while a record is unread, and when it is
  // about to fall asleep on a stale load the reader has not passed its notify.
  predicate LoaderView(s: State)
  {
    s.ld.pc.LTest? ==>
      var v := s.ld.pc.view;
      && (v.ridx.Some? ==> v.ridx.value <= s.m.ridx)
      && (v.rest.Some? ==> v.rest.value == s.m.rest)
      && (v.ridx.Some? && v.ridx.value < s.m.rest <= s.m.ridx ==>
            s.rpc.RMove? || s.rpc.RCheck? || s.rpc.RLockW?)
  }

  // The reader's two loads under `_rmtx`: a stale one means the loader has not passed its notify.
  predicate ReaderView(s: State)
  {
    s.rpc.RTest? && N(s) > 0 ==>
      var v := s.rpc.view;
      && (v.ridx.Some? && v.ridx.value != s.m.ridx ==>
            v.ridx.value == s.cfg.size && (s.ld.pc.LSetEof? || s.ld.pc.LLockR?) && s.m.ridx == 0)
      && (v.rest.Some? && v.rest.value != s.m.rest ==>
            && v.rest.value == s.cfg.size
            && (s.ld.pc.LSetRidx? || ((s.ld.pc.LSetEof? || s.ld.pc.LLockR?) && s.m.ridx == 0)))
  }

  // After a take that drained the buffer, the loads that decide on the notify are current.
  predicate CheckView(s: State)
  {
    s.rpc.RCheck? && !Switching(s.ld.pc) && s.m.ridx >= s.m.rest ==>
      && (s.rpc.view.ridx.Some? ==> s.rpc.view.ridx.value == s.m.ridx)
      && (s.rpc.view.rest.Some? ==> s.rpc.view.rest.value == s.m.rest)
  }

  predicate OwedNotifies(s: State)
  {
    && (s.ld.pc.LAsleep? && s.m.ridx >= s.m.rest ==>
          s.rpc.RMove? || s.rpc.RCheck? || s.rpc.RLockW? || s.rpc.RNotifyW?)
    && (s.rpc.RAsleep? && s.m.ridx < s.m.rest ==> s.ld.pc.LSetEof? || s.ld.pc.LLockR? || s.ld.pc.LNotifyR?)
  }

  predicate Sync(s: State)
    requires Sized(s)
  {
    && Locks(s) && LoaderFacts(s) && EofFacts(s) && EmptySource(s) && ReaderFacts(s)
    && LoaderView(s) && ReaderView(s) && CheckView(s) && OwedNotifies(s)
  }

  function FullBatches(cfg: Config, k: nat): nat { k * cfg.size }

  // The number of records in the first k batches.
  function BatchEnd(cfg: Config, k: nat): (r: nat)
    ensures r <= |cfg.entries|
  {
    if FullBatches(cfg, k) <= |cfg.entries| then FullBatches(cfg, k) else |cfg.entries|
  }

  lemma NextBatch(cfg: Config, k: nat)
    ensures FullBatches(cfg, k + 1) == FullBatches(cfg, k) + cfg.size
    ensures BatchEnd(cfg, k) <= BatchEnd(cfg, k + 1)
  {
    assert (k + 1) * cfg.size == k * cfg.size + cfg.size;
  }

  function Batch(cfg: Config, k: nat): seq<TaggedStrPair>
  {
    NextBatch(cfg, k);
    Source(cfg)[BatchEnd(cfg, k)..BatchEnd(cfg, k + 1)]
  }

  function PublishedCount(s: State): int { Fetched(s) - Staged(s) }

  predicate Counts(s: State) { Balance(s) && BatchCounts(s) }

  predicate Balance(s: State)
  {
    |s.h.delivered| + InTransit(s) - Ahead(s) + Unread(s) == PublishedCount(s)
  }

  predicate BatchCounts(s: State)
  {
    var k, over := |s.h.batches|, Over(s);
    && PublishedCount(s) == BatchEnd(s.cfg, k)
    && (over ==> k > 0 && (N(s) > 0 ==> FullBatches(s.cfg, k - 1) < N(s)))
    && (N(s) == 0 ==> k == if over then 1 else 0)
    && (!over ==> PublishedCount(s) == FullBatches(s.cfg, k))
  }

  // First slot of the read buffer whose record has not been moved out.
  function FirstUnread(s: State): nat
  {
    match s.rpc
    case RCopy(_, k, _, _) => k
    case RPublish(_) => s.m.rest
    case _ => s.m.ridx
  }

  predicate BatchesRight(s: State)
  {
    forall k :: 0 <= k < |s.h.batches| ==> s.h.batches[k] == Batch(s.cfg, k)
  }

  // Slots from .. to - 1 hold the records of src, slot i that at index start + i.
  predicate Holds(slots: seq<Slot>, from: nat, to: nat, src: seq<TaggedStrPair>, start: int)
  {
    && (from < to ==> 0 <= start + from && start + to <= |src|)
    && forall i :: from <= i < to && i < |slots| ==> slots[i] == Full(src[start + i])
  }

  // Where each record is: the unread slots, the staged slots and the record next is moving.
  predicate UnreadRight(s: State)
    requires Sized(s)
  {
    !Switching(s.ld.pc) ==>
      Holds(s.m.dbuff[s.m.buffIdx], FirstUnread(s), s.m.rest, Source(s.cfg), PublishedCount(s) - s.m.rest)
  }

  predicate StagedRight(s: State)
    requires Sized(s)
  {
    Holds(s.m.dbuff[s.ld.idx], 0, Staged(s), Source(s.cfg), PublishedCount(s))
  }

  predicate MovingRight(s: State)
  {
    var src, d := Source(s.cfg), |s.h.delivered|;
    s.rpc.RMove? && !s.rpc.overwritten ==>
      d < |src| && SlotAt(s.m, s.rpc.buf, s.rpc.slot) == Full(src[d])
  }

  predicate Data(s: State)
    requires Sized(s)
  {
    && s.h.delivered <= Source(s.cfg)
    && UnreadRight(s) && StagedRight(s) && MovingRight(s) && BatchesRight(s)
  }

  predicate Inv(s: State)
  {
    Sized(s) && Sync(s) && Counts(s) && (!s.h.corrupt ==> Data(s))
  }

  // What the proofs about single steps take from it.
  lemma InvParts(s: State)
    requires Inv(s)
    ensures Sized(s) && Locks(s) && LoaderFacts(s) && EofFacts(s) && LoaderView(s) && ReaderFacts(s)
    ensures OwedNotifies(s) && Counts(s)
  {
  }

  // ---------- It holds initially and every step keeps it ----------

  lemma InitInv(cfg: Config)
    requires cfg.size > 0
    ensures Inv(Init(cfg))
  {
    assert FullBatches(cfg, 0) == 0;
  }

  lemma SizedLoader(s: State)
    requires Sized(s) && LoaderFacts(s) && Enabled(s, Stmt(Loader))
    ensures Sized(LoaderStmt(s)) && LoaderStmt(s).cfg == s.cfg
  {
  }

  lemma SizedReader(s: State)
    requires Sized(s) && ReaderFacts(s)
    ensures Sized(ReaderStmt(s)) && ReaderStmt(s).cfg == s.cfg
  {
    hide MoveFacts;
    if ReaderStmt(s) != TakeStmt(s) {
      assert ReaderStmt(s).m.dbuff == s.m.dbuff;
    }
  }

  lemma SizedOther(s: State, l: Label)
    requires Sized(s) && Enabled(s, l) && !l.Stmt?
    ensures Sized(OtherStep(s, l)) && OtherStep(s, l).cfg == s.cfg
  {
    assert OtherStep(s, l).m == s.m;
  }

  lemma ApplyIs(s: State, l: Label)
    requires Enabled(s, l)
    ensures match l
            case Stmt(Loader) => Apply(s, l) == LoaderStmt(s)
            case Stmt(Reader) => Apply(s, l) == ReaderStmt(s)
            case _ => Apply(s, l) == OtherStep(s, l)
  {
  }

  lemma ReaderStmtIs(s: State)
    ensures ReaderStmt(s) == EnterStmt(s) || ReaderStmt(s) == LeaveStmt(s) || ReaderStmt(s) == TakeStmt(s)
  {
  }

  lemma SizedKept(s: State, l: Label)
    requires Sized(s) && LoaderFacts(s) && ReaderFacts(s) && Enabled(s, l)
    ensures Sized(Apply(s, l)) && Apply(s, l).cfg == s.cfg
  {
    hide *;
    ApplyIs(s, l);
    match l
    case Stmt(Loader) => SizedLoader(s);
    case Stmt(Reader) => SizedReader(s);
    case _ => SizedOther(s, l);
  }

  lemma LocksLoader(s: State)
    requires Locks(s) && Enabled(s, Stmt(Loader))
    ensures Locks(LoaderStmt(s))
  {
  }

  lemma LocksReader(s: State)
    requires Locks(s) && Enabled(s, Stmt(Reader))
    ensures Locks(ReaderStmt(s))
  {
  }

  lemma LocksKept(s: State, l: Label)
    requires Locks(s) && Enabled(s, l)
    ensures Locks(Apply(s, l))
  {
    match l
    case Stmt(Loader) => LocksLoader(s);
    case Stmt(Reader) => LocksReader(s);
    case _ =>
  }

  lemma LoaderFactsFill(s: State)
    requires Sized(s) && LoaderFacts(s) && LoaderView(s) && Enabled(s, Stmt(Loader))
    ensures LoaderFacts(FillStmt(s))
  {
  }

  lemma LoaderFactsSwitch(s: State)
    requires Sized(s) && LoaderFacts(s)
    ensures LoaderFacts(SwitchStmt(s))
  {
  }

  lemma LoaderFactsHandOver(s: State)
    requires Sized(s) && LoaderFacts(s)
    ensures LoaderFacts(HandOverStmt(s))
  {
  }

  lemma LoaderFactsReader(s: State)
    requires Sized(s) && LoaderFacts(s) && ReaderFacts(s) && EmptySource(s) && Enabled(s, Stmt(Reader))
    ensures LoaderFacts(ReaderStmt(s))
  {
    hide MoveFacts;
  }

  lemma LoaderFactsOther(s: State, l: Label)
    requires LoaderFacts(s) && Enabled(s, l) && !l.Stmt?
    ensures LoaderFacts(OtherStep(s, l))
  {
  }

  lemma LoaderFactsLoader(s: State)
    requires Sized(s) && LoaderFacts(s) && LoaderView(s) && Enabled(s, Stmt(Loader))
    ensures LoaderFacts(LoaderStmt(s))
  {
    hide LoaderFacts, FillStmt, SwitchStmt, HandOverStmt;
    LoaderFactsFill(s); LoaderFactsSwitch(s); LoaderFactsHandOver(s);
  }

  lemma LoaderFactsKept(s: State, l: Label)
    requires Sized(s) && LoaderFacts(s) && LoaderView(s) && ReaderFacts(s) && EmptySource(s) && Enabled(s, l)
    ensures LoaderFacts(Apply(s, l))
  {
    hide *;
    ApplyIs(s, l);
    match l
    case Stmt(Loader) => LoaderFactsLoader(s);
    case Stmt(Reader) => LoaderFactsReader(s);
    case _ => LoaderFactsOther(s, l);
  }

  lemma EofFactsLoader(s: State)
    requires Sized(s) && LoaderFacts(s) && EofFacts(s)
    requires Enabled(s, Stmt(Loader))
    ensures EofFacts(LoaderStmt(s))
  {
  }

  lemma EofFactsReader(s: State)
    requires Sized(s) && LoaderFacts(s) && EofFacts(s)
    requires Enabled(s, Stmt(Reader))
    ensures EofFacts(ReaderStmt(s))
  {
  }

  lemma EofFactsOther(s: State, l: Label)
    requires Sized(s) && LoaderFacts(s) && EofFacts(s)
    requires Enabled(s, l) && !l.Stmt?
    ensures EofFacts(OtherStep(s, l))
  {
  }

  lemma EofFactsKept(s: State, l: Label)
    requires Sized(s) && LoaderFacts(s) && EofFacts(s)
    requires Enabled(s, l)
    ensures EofFacts(Apply(s, l))
  {
    hide *;
    ApplyIs(s, l);
    match l
    case Stmt(Loader) => EofFactsLoader(s);
    case Stmt(Reader) => EofFactsReader(s);
    case _ => EofFactsOther(s, l);
  }

  lemma EmptySourceLoader(s: State)
    requires Sized(s) && LoaderFacts(s) && LoaderView(s) && EmptySource(s) && Enabled(s, Stmt(Loader))
    ensures EmptySource(LoaderStmt(s))
  {
  }

  lemma EmptySourceReader(s: State)
    requires Sized(s) && LoaderFacts(s) && EofFacts(s) && EmptySource(s) && Enabled(s, Stmt(Reader))
    ensures EmptySource(ReaderStmt(s))
  {
  }

  lemma EmptySourceOther(s: State, l: Label)
    requires Sized(s) && LoaderFacts(s) && EmptySource(s) && Enabled(s, l) && !l.Stmt?
    ensures EmptySource(OtherStep(s, l))
  {
  }

  lemma EmptySourceKept(s: State, l: Label)
    requires Sized(s) && LoaderFacts(s) && EofFacts(s) && LoaderView(s) && EmptySource(s) && Enabled(s, l)
    ensures EmptySource(Apply(s, l))
  {
    hide *;
    ApplyIs(s, l);
    match l
    case Stmt(Loader) => EmptySourceLoader(s);
    case Stmt(Reader) => EmptySourceReader(s);
    case _ => EmptySourceOther(s, l);
  }

  lemma MoveFactsLoader(s: State)
    requires Sized(s) && LoaderFacts(s) && LoaderView(s) && EmptySource(s) && MoveFacts(s)
    requires Enabled(s, Stmt(Loader))
    ensures MoveFacts(LoaderStmt(s))
  {
  }

  lemma ReaderFactsLoader(s: State)
    requires Sized(s) && LoaderFacts(s) && LoaderView(s) && EmptySource(s) && ReaderFacts(s)
    requires Enabled(s, Stmt(Loader))
    ensures ReaderFacts(LoaderStmt(s))
  {
    hide MoveFacts;
    MoveFactsLoader(s);
  }

  lemma ReaderFactsEnter(s: State)
    requires Sized(s) && LoaderFacts(s) && ReaderView(s) && EmptySource(s) && ReaderFacts(s)
    requires Enabled(s, Stmt(Reader))
    ensures ReaderFacts(EnterStmt(s))
  {
    hide MoveFacts;
    assert MoveFacts(EnterStmt(s)) by { MoveUntouched(s, EnterStmt(s)); }
  }

  lemma ReaderFactsOther(s: State, l: Label)
    requires ReaderFacts(s) && Enabled(s, l) && !l.Stmt?
    ensures ReaderFacts(OtherStep(s, l))
  {
    hide MoveFacts;
    assert MoveFacts(OtherStep(s, l)) by { MoveUntouched(s, OtherStep(s, l)); }
  }

  lemma MoveUntouched(s: State, s': State)
    requires MoveFacts(s) && s'.cfg == s.cfg && (s'.rpc.RMove? ==> s'.rpc == s.rpc)
    requires s'.rpc.RMove? ==>
               && s'.m.buffIdx == s.m.buffIdx && s'.m.ridx == s.m.ridx && s'.m.rest == s.m.rest
               && s'.ld.recIdx == s.ld.recIdx
               && (s'.ld.pc == s.ld.pc || (Filling(s'.ld.pc) && Filling(s.ld.pc)))
    ensures MoveFacts(s')
  {
  }

  lemma ReaderFactsTake(s: State)
    requires Sized(s) && LoaderFacts(s) && EmptySource(s) && ReaderFacts(s)
    ensures ReaderFacts(TakeStmt(s))
  {
  }

  lemma ReaderFactsLeave(s: State)
    requires ReaderFacts(s)
    ensures ReaderFacts(LeaveStmt(s))
  {
  }

  lemma ReaderFactsReader(s: State)
    requires Sized(s) && LoaderFacts(s) && ReaderView(s) && EmptySource(s) && ReaderFacts(s)
    requires Enabled(s, Stmt(Reader))
    ensures ReaderFacts(ReaderStmt(s))
  {
    hide LoaderFacts, ReaderView, EmptySource, ReaderFacts;
    ReaderStmtIs(s);
    ReaderFactsEnter(s); ReaderFactsTake(s); ReaderFactsLeave(s);
  }

  lemma ReaderFactsKept(s: State, l: Label)
    requires Sized(s) && LoaderFacts(s) && LoaderView(s) && ReaderView(s) && EmptySource(s) && ReaderFacts(s)
    requires Enabled(s, l)
    ensures ReaderFacts(Apply(s, l))
  {
    hide *;
    ApplyIs(s, l);
    match l
    case Stmt(Loader) => ReaderFactsLoader(s);
    case Stmt(Reader) => ReaderFactsReader(s);
    case _ => ReaderFactsOther(s, l);
  }

  lemma LoaderViewLoader(s: State)
    requires Sized(s) && Locks(s) && LoaderFacts(s) && LoaderView(s) && ReaderFacts(s) && CheckView(s)
    requires Enabled(s, Stmt(Loader))
    ensures LoaderView(LoaderStmt(s))
  {
  }

  lemma LoaderViewReader(s: State)
    requires Sized(s) && Locks(s) && LoaderFacts(s) && LoaderView(s) && ReaderFacts(s) && CheckView(s)
    requires Enabled(s, Stmt(Reader))
    ensures LoaderView(ReaderStmt(s))
  {
  }

  lemma LoaderViewOther(s: State, l: Label)
    requires Sized(s) && Locks(s) && LoaderFacts(s) && LoaderView(s) && ReaderFacts(s) && CheckView(s)
    requires Enabled(s, l) && !l.Stmt?
    ensures LoaderView(OtherStep(s, l))
  {
  }

  lemma LoaderViewKept(s: State, l: Label)
    requires Sized(s) && Locks(s) && LoaderFacts(s) && LoaderView(s) && ReaderFacts(s) && CheckView(s)
    requires Enabled(s, l)
    ensures LoaderView(Apply(s, l))
  {
    hide *;
    ApplyIs(s, l);
    match l
    case Stmt(Loader) => LoaderViewLoader(s);
    case Stmt(Reader) => LoaderViewReader(s);
    case _ => LoaderViewOther(s, l);
  }

  lemma ReaderViewLoader(s: State)
    requires Sized(s) && Locks(s) && LoaderFacts(s) && ReaderView(s)
    requires Enabled(s, Stmt(Loader))
    ensures ReaderView(LoaderStmt(s))
  {
  }

  lemma ReaderViewReader(s: State)
    requires Sized(s) && Locks(s) && LoaderFacts(s) && ReaderView(s)
    requires Enabled(s, Stmt(Reader))
    ensures ReaderView(ReaderStmt(s))
  {
  }

  lemma ReaderViewOther(s: State, l: Label)
    requires Sized(s) && Locks(s) && LoaderFacts(s) && ReaderView(s)
    requires Enabled(s, l) && !l.Stmt?
    ensures ReaderView(OtherStep(s, l))
  {
  }

  lemma ReaderViewKept(s: State, l: Label)
    requires Sized(s) && Locks(s) && LoaderFacts(s) && ReaderView(s)
    requires Enabled(s, l)
    ensures ReaderView(Apply(s, l))
  {
    hide *;
    ApplyIs(s, l);
    match l
    case Stmt(Loader) => ReaderViewLoader(s);
    case Stmt(Reader) => ReaderViewReader(s);
    case _ => ReaderViewOther(s, l);
  }

  lemma CheckViewLoader(s: State)
    requires Sized(s) && LoaderFacts(s) && EmptySource(s) && CheckView(s)
    requires Enabled(s, Stmt(Loader))
    ensures CheckView(LoaderStmt(s))
  {
  }

  lemma CheckViewReader(s: State)
    requires Sized(s) && LoaderFacts(s) && EmptySource(s) && CheckView(s)
    requires Enabled(s, Stmt(Reader))
    ensures CheckView(ReaderStmt(s))
  {
  }

  lemma CheckViewOther(s: State, l: Label)
    requires Sized(s) && LoaderFacts(s) && EmptySource(s) && CheckView(s)
    requires Enabled(s, l) && !l.Stmt?
    ensures CheckView(OtherStep(s, l))
  {
  }

  lemma CheckViewKept(s: State, l: Label)
    requires Sized(s) && LoaderFacts(s) && EmptySource(s) && CheckView(s)
    requires Enabled(s, l)
    ensures CheckView(Apply(s, l))
  {
    hide *;
    ApplyIs(s, l);
    match l
    case Stmt(Loader) => CheckViewLoader(s);
    case Stmt(Reader) => CheckViewReader(s);
    case _ => CheckViewOther(s, l);
  }

  lemma OwedNotifiesLoader(s: State)
    requires Sized(s) && Locks(s) && LoaderFacts(s) && EmptySource(s) && ReaderFacts(s)
    requires LoaderView(s) && ReaderView(s) && CheckView(s) && OwedNotifies(s)
    requires Enabled(s, Stmt(Loader))
    ensures OwedNotifies(LoaderStmt(s))
  {
  }

  lemma OwedNotifiesReader(s: State)
    requires Sized(s) && Locks(s) && LoaderFacts(s) && EmptySource(s) && ReaderFacts(s)
    requires LoaderView(s) && ReaderView(s) && CheckView(s) && OwedNotifies(s)
    requires Enabled(s, Stmt(Reader))
    ensures OwedNotifies(ReaderStmt(s))
  {
  }

  lemma OwedNotifiesOther(s: State, l: Label)
    requires Sized(s) && Locks(s) && LoaderFacts(s) && EmptySource(s) && ReaderFacts(s)
    requires LoaderView(s) && ReaderView(s) && CheckView(s) && OwedNotifies(s)
    requires Enabled(s, l) && !l.Stmt?
    ensures OwedNotifies(OtherStep(s, l))
  {
  }

  lemma OwedNotifiesKept(s: State, l: Label)
    requires Sized(s) && Locks(s) && LoaderFacts(s) && EmptySource(s) && ReaderFacts(s)
    requires LoaderView(s) && ReaderView(s) && CheckView(s) && OwedNotifies(s)
    requires Enabled(s, l)
    ensures OwedNotifies(Apply(s, l))
  {
    hide *;
    ApplyIs(s, l);
    match l
    case Stmt(Loader) => OwedNotifiesLoader(s);
    case Stmt(Reader) => OwedNotifiesReader(s);
    case _ => OwedNotifiesOther(s, l);
  }

  // Steps that move no record keep the accounts.
  predicate SameRecords(s: State, s': State)
  {
    && s'.cfg == s.cfg && s'.h == s.h.(outcomes := s'.h.outcomes)
    && s'.m.dbuff == s.m.dbuff && s'.m.buffIdx == s.m.buffIdx && s'.m.ridx == s.m.ridx && s'.m.rest == s.m.rest
    && s'.ld.idx == s.ld.idx
    && Staged(s') == Staged(s) && Fetched(s') == Fetched(s)
    && Ahead(s') == Ahead(s) && InTransit(s') == InTransit(s) && FirstUnread(s') == FirstUnread(s)
    && (Switching(s'.ld.pc) <==> Switching(s.ld.pc))
    && (s'.rpc.RMove? ==> s'.rpc == s.rpc)
  }

  lemma SameRecordsData(s: State, s': State)
    requires SameRecords(s, s') && Sized(s) && Sized(s') && Data(s)
    ensures Data(s')
  {
    hide Holds, Batch;
  }

  lemma SameRecordsCounts(s: State, s': State)
    requires SameRecords(s, s') && Counts(s) && (Over(s) <==> Over(s'))
    ensures Counts(s')
  {
  }

  lemma EnterLeaveMoveNothing(s: State)
    requires Enabled(s, Stmt(Reader)) && (ReaderStmt(s) == EnterStmt(s) || ReaderStmt(s) == LeaveStmt(s))
    ensures SameRecords(s, ReaderStmt(s)) && (Over(s) <==> Over(ReaderStmt(s)))
  {
  }

  lemma OtherMovesNothing(s: State, l: Label)
    requires Enabled(s, l) && !l.Stmt?
    ensures SameRecords(s, OtherStep(s, l)) && (Over(s) <==> Over(OtherStep(s, l)))
  {
  }

  lemma ReaderMovesNothing(s: State, l: Label)
    requires Enabled(s, l) && l != Stmt(Loader)
    requires l == Stmt(Reader) ==> ReaderStmt(s) == EnterStmt(s) || ReaderStmt(s) == LeaveStmt(s)
    ensures SameRecords(s, Apply(s, l)) && (Over(s) <==> Over(Apply(s, l)))
  {
    hide *;
    ApplyIs(s, l);
    if l == Stmt(Reader) { EnterLeaveMoveNothing(s); } else { OtherMovesNothing(s, l); }
  }

  lemma BalanceFill(s: State)
    requires Sized(s) && LoaderFacts(s) && Balance(s) && Enabled(s, Stmt(Loader)) && LoaderStmt(s) == FillStmt(s)
    ensures Balance(FillStmt(s)) && PublishedCount(FillStmt(s)) == PublishedCount(s)
  {
    var s' := FillStmt(s);
    assert s'.h == s.h && s'.m.ridx == s.m.ridx && s'.m.rest == s.m.rest;
    assert InTransit(s') == InTransit(s) && Ahead(s') == Ahead(s);
  }

  lemma CountsFill(s: State)
    requires Sized(s) && LoaderFacts(s) && Counts(s) && Enabled(s, Stmt(Loader)) && LoaderStmt(s) == FillStmt(s)
    ensures Counts(FillStmt(s))
  {
    BalanceFill(s);
    hide LoaderFacts, Balance, PublishedCount;
    assert FillStmt(s).h == s.h && FillStmt(s).cfg == s.cfg && (Over(FillStmt(s)) <==> Over(s));
  }

  lemma CountsSwitch(s: State)
    requires Sized(s) && LoaderFacts(s) && EmptySource(s) && ReaderFacts(s) && Counts(s)
    requires Switching(s.ld.pc) || s.ld.pc.LSetEof?
    ensures Counts(SwitchStmt(s))
  {
    if s.ld.pc.LSetRidx? {
      CountsPublish(s);
    } else {
      hide ReaderFacts;
      assert SwitchStmt(s).h == s.h && PublishedCount(SwitchStmt(s)) == PublishedCount(s);
    }
  }

  lemma CountsPublish(s: State)
    requires Sized(s) && LoaderFacts(s) && EmptySource(s) && ReaderFacts(s) && Counts(s) && s.ld.pc.LSetRidx?
    ensures Counts(SwitchStmt(s))
  {
    hide MoveFacts;
    NextBatch(s.cfg, |s.h.batches|);
    assert |SwitchStmt(s).h.batches| == |s.h.batches| + 1;
  }

  lemma CountsHandOver(s: State)
    requires Sized(s) && LoaderFacts(s) && Counts(s)
    requires s.ld.pc.LLockR? || s.ld.pc.LNotifyR? || s.ld.pc.LUnlockR? || s.ld.pc.LLoop?
    ensures Counts(HandOverStmt(s))
  {
    if s.ld.pc.LLoop? && IterValid(s) {
      NextBatch(s.cfg, |s.h.batches| - 1);
    } else {
      assert SameRecords(s, HandOverStmt(s));
      hide HandOverStmt, LoaderFacts;
      SameRecordsCounts(s, HandOverStmt(s));
    }
  }

  lemma CountsTake(s: State)
    requires Sized(s) && ReaderFacts(s) && Counts(s)
    ensures Counts(TakeStmt(s))
  {
    var s' := TakeStmt(s);
    assert s'.cfg == s.cfg && s'.ld == s.ld && s'.h.batches == s.h.batches;
    assert BatchCounts(s') <==> BatchCounts(s);
    BalanceTake(s);
  }

  lemma BalanceTake(s: State)
    requires Sized(s) && ReaderFacts(s) && Balance(s)
    ensures Balance(TakeStmt(s))
  {
    hide MoveFacts;
    assert PublishedCount(TakeStmt(s)) == PublishedCount(s);
  }

  lemma CountsLoader(s: State)
    requires Sized(s) && LoaderFacts(s) && EmptySource(s) && ReaderFacts(s) && Counts(s) && Enabled(s, Stmt(Loader))
    ensures Counts(LoaderStmt(s))
  {
    hide LoaderFacts, EmptySource, ReaderFacts, Counts, FillStmt, SwitchStmt, HandOverStmt;
    if s.ld.pc.LSetEof? || Switching(s.ld.pc) { CountsSwitch(s); }
    else if s.ld.pc.LLockR? || s.ld.pc.LNotifyR? || s.ld.pc.LUnlockR? || s.ld.pc.LLoop? { CountsHandOver(s); }
    else { CountsFill(s); }
  }

  lemma CountsKept(s: State, l: Label)
    requires Sized(s) && LoaderFacts(s) && EmptySource(s) && ReaderFacts(s) && Counts(s) && Enabled(s, l)
    ensures Counts(Apply(s, l))
  {
    hide *;
    ApplyIs(s, l);
    if l == Stmt(Loader) {
      CountsLoader(s);
    } else if l == Stmt(Reader) && ReaderStmt(s) == TakeStmt(s) {
      CountsTake(s);
    } else {
      ReaderStmtIs(s);
      ReaderMovesNothing(s, l);
      SameRecordsCounts(s, Apply(s, l));
    }
  }

  lemma WriteElsewhere(m: Memory, b: nat, i: nat, v: Slot,
                       c: nat, from: nat, to: nat, src: seq<TaggedStrPair>, start: int)
    requires |m.dbuff| == 2 && c < 2 && Holds(m.dbuff[c], from, to, src, start)
    requires b != c || i < from || to <= i
    ensures Holds(WithSlot(m, b, i, v).dbuff[c], from, to, src, start)
  {
    var before, after := m.dbuff[c], WithSlot(m, b, i, v).dbuff[c];
    assert |after| == |before| && forall j :: 0 <= j < |after| && !(b == c && j == i) ==> after[j] == before[j];
  }

  lemma DataStore(s: State)
    requires Sized(s) && LoaderFacts(s) && ReaderFacts(s) && Counts(s) && Data(s) && s.ld.pc.LStore?
    requires Sized(FillStmt(s))
    ensures Data(FillStmt(s))
  {
    UnreadAfterStore(s);
    StagedAfterStore(s);
  }

  lemma UnreadAfterStore(s: State)
    requires Sized(s) && LoaderFacts(s) && UnreadRight(s) && s.ld.pc.LStore?
    requires Sized(FillStmt(s))
    ensures UnreadRight(FillStmt(s))
  {
    hide Holds;
    var s' := FillStmt(s);
    assert s'.m == WithSlot(s.m, s.ld.idx, s.ld.recIdx, SlotAt(s'.m, s.ld.idx, s.ld.recIdx));
    assert FirstUnread(s') == FirstUnread(s) && PublishedCount(s') == PublishedCount(s);
    WriteElsewhere(s.m, s.ld.idx, s.ld.recIdx, SlotAt(FillStmt(s).m, s.ld.idx, s.ld.recIdx),
                   s.m.buffIdx, FirstUnread(s), s.m.rest, Source(s.cfg), PublishedCount(s) - s.m.rest);
  }

  lemma StagedAfterStore(s: State)
    requires Sized(s) && LoaderFacts(s) && Counts(s) && StagedRight(s) && s.ld.pc.LStore?
    requires Sized(FillStmt(s))
    ensures StagedRight(FillStmt(s))
  {
    var s', b, n, src := FillStmt(s), s.ld.idx, s.ld.recIdx, Source(s.cfg);
    assert s'.ld.idx == b && s'.cfg == s.cfg && Staged(s) == n && Staged(s') == n + 1;
    assert PublishedCount(s') == PublishedCount(s) == s.ld.cursor - n >= 0;
    hide Holds, LoaderFacts, Counts;
    WriteElsewhere(s.m, b, n, SlotAt(s'.m, b, n), b, 0, n, src, PublishedCount(s));
    assert s'.m.dbuff[b][n] == Full(src[s.ld.cursor]);
    HoldsOneMore(s'.m.dbuff[b], n, src, PublishedCount(s));
  }

  lemma HoldsOneMore(slots: seq<Slot>, n: nat, src: seq<TaggedStrPair>, start: nat)
    requires Holds(slots, 0, n, src, start) && n < |slots|
    requires start + n < |src| && slots[n] == Full(src[start + n])
    ensures Holds(slots, 0, n + 1, src, start)
  {
  }

  lemma FillMovesNothing(s: State)
    requires s.ld.pc.LFill? || s.ld.pc.LAdvance? || s.ld.pc.LLockW? || s.ld.pc.LRelock?
             || (s.ld.pc.LTest? && !s.ld.pc.view.Empty())
    ensures SameRecords(s, FillStmt(s))
  {
  }

  lemma DataFill(s: State)
    requires Sized(s) && LoaderFacts(s) && ReaderFacts(s) && Counts(s) && Data(s) && Enabled(s, Stmt(Loader))
    requires Sized(FillStmt(s)) && LoaderStmt(s) == FillStmt(s) && (s.ld.pc.LStart? || Filling(s.ld.pc))
    ensures Data(FillStmt(s))
  {
    if s.ld.pc.LStart? {
      DataStart(s);
    } else if s.ld.pc.LStore? {
      DataStore(s);
    } else if s.ld.pc.LTest? && s.ld.pc.view.Empty() {
      DataDrained(s);
    } else {
      FillMovesNothing(s);
      SameRecordsData(s, FillStmt(s));
    }
  }

  lemma DataStart(s: State)
    requires Sized(s) && Data(s) && s.ld.pc.LStart?
    ensures Sized(FillStmt(s)) && Data(FillStmt(s))
  {
  }

  lemma DataDrained(s: State)
    requires Sized(s) && Data(s) && s.ld.pc.LTest? && s.ld.pc.view.Empty()
    ensures Sized(FillStmt(s)) && Data(FillStmt(s))
  {
  }

  lemma DataSwitch(s: State)
    requires Sized(s) && LoaderFacts(s) && ReaderFacts(s) && Counts(s) && Data(s)
    requires Sized(SwitchStmt(s)) && Counts(SwitchStmt(s))
    requires Switching(s.ld.pc) || s.ld.pc.LSetEof?
    ensures Data(SwitchStmt(s))
  {
    hide LoaderFacts, ReaderFacts, Counts, Data, Sized;
    if s.ld.pc.LSetRidx? {
      DataPublish(s);
    } else if s.ld.pc.LSetEof? {
      SameRecordsData(s, SwitchStmt(s));
    } else {
      DataSetIdx(s);
    }
  }

  lemma DataSetIdx(s: State)
    requires Sized(s) && LoaderFacts(s) && Data(s) && (s.ld.pc.LSetIdx? || s.ld.pc.LSetRest?)
    requires Sized(SwitchStmt(s))
    ensures Data(SwitchStmt(s))
  {
    hide Holds;
    var s' := SwitchStmt(s);
    assert s'.m.dbuff == s.m.dbuff && s'.ld.idx == s.ld.idx && s'.h == s.h && s'.rpc == s.rpc && s'.cfg == s.cfg;
    SameBatches(s, s');
  }

  lemma DataPublish(s: State)
    requires Sized(s) && LoaderFacts(s) && ReaderFacts(s) && Counts(s) && Data(s) && s.ld.pc.LSetRidx?
    requires Sized(SwitchStmt(s)) && Counts(SwitchStmt(s))
    ensures Data(SwitchStmt(s))
  {
    hide LoaderFacts, ReaderFacts, Counts, UnreadRight, StagedRight, BatchesRight;
    BatchPublished(s);
    BatchAppended(s);
    StagedBecomesUnread(s);
    assert MovingRight(SwitchStmt(s));
  }

  lemma BatchAppended(s: State)
    requires BatchesRight(s) && s.ld.pc.LSetRidx? && Published(s) == Batch(s.cfg, |s.h.batches|)
    ensures BatchesRight(SwitchStmt(s))
  {
    hide Batch;
    assert SwitchStmt(s).h.batches == s.h.batches + [Published(s)];
  }

  lemma StagedBecomesUnread(s: State)
    requires Sized(s) && LoaderFacts(s) && ReaderFacts(s) && StagedRight(s) && s.ld.pc.LSetRidx?
    requires Sized(SwitchStmt(s))
    ensures UnreadRight(SwitchStmt(s)) && StagedRight(SwitchStmt(s))
  {
    hide Holds;
    var s', src := SwitchStmt(s), Source(s.cfg);
    assert s'.m == s.m.(ridx := 0) && s'.rpc == s.rpc && FirstUnread(s') == 0;
    assert PublishedCount(s') == PublishedCount(s) + s.m.rest && Staged(s') == 0;
    HoldsNothing(s.m.dbuff[s.ld.idx], src, PublishedCount(s'));
  }

  lemma HoldsNothing(slots: seq<Slot>, src: seq<TaggedStrPair>, start: int)
    ensures Holds(slots, 0, 0, src, start)
  {
  }

  lemma BatchPublished(s: State)
    requires Sized(s) && LoaderFacts(s) && Counts(s) && StagedRight(s) && s.ld.pc.LSetRidx?
    requires Counts(SwitchStmt(s))
    ensures Published(s) == Batch(s.cfg, |s.h.batches|)
  {
    var k := |s.h.batches|;
    NextBatch(s.cfg, k);
    assert |SwitchStmt(s).h.batches| == k + 1;
    assert Staged(s) == s.m.rest == BatchEnd(s.cfg, k + 1) - BatchEnd(s.cfg, k);
  }

  lemma DataHandOver(s: State)
    requires Sized(s) && Data(s)
    ensures Sized(HandOverStmt(s)) && Data(HandOverStmt(s))
  {
    SameRecordsData(s, HandOverStmt(s));
  }

  lemma DataMoveOut(s: State)
    requires Sized(s) && LoaderFacts(s) && ReaderFacts(s) && Counts(s) && Data(s)
    requires s.rpc.RMove? || (s.rpc.RCopy? && s.rpc.next < s.rpc.end)
    requires Sized(TakeStmt(s)) && !TakeStmt(s).h.corrupt
    ensures Data(TakeStmt(s))
  {
    hide UnreadRight, StagedRight, BatchesRight, LoaderFacts, Counts, Sized;
    NextRecord(s);
    UnreadAfterMove(s);
    StagedAfterMove(s);
    assert TakeStmt(s).cfg == s.cfg && TakeStmt(s).h.batches == s.h.batches;
    SameBatches(s, TakeStmt(s));
  }

  lemma UnreadAfterMove(s: State)
    requires Sized(s) && LoaderFacts(s) && ReaderFacts(s) && UnreadRight(s)
    requires s.rpc.RMove? || (s.rpc.RCopy? && s.rpc.next < s.rpc.end)
    requires Sized(TakeStmt(s))
    ensures UnreadRight(TakeStmt(s))
  {
    if s.rpc.RMove? {
      UnreadAfterWrite(s, s.rpc.buf, s.rpc.slot, TakeStmt(s));
    } else {
      UnreadAfterWrite(s, s.rpc.buf, s.rpc.next, TakeStmt(s));
    }
  }

  lemma UnreadAfterWrite(s: State, b: nat, i: nat, s': State)
    requires Sized(s) && UnreadRight(s) && Sized(s')
    requires s'.cfg == s.cfg && s'.ld == s.ld && s'.m == WithSlot(s.m, b, i, Vacant)
    requires FirstUnread(s) <= FirstUnread(s') && (b != s.m.buffIdx || i < FirstUnread(s') || Switching(s.ld.pc))
    ensures UnreadRight(s')
  {
    hide Holds;
    if !Switching(s.ld.pc) { UnreadElsewhere(s, b, i, FirstUnread(s')); }
  }

  lemma UnreadElsewhere(s: State, b: nat, i: nat, first: nat)
    requires Sized(s) && UnreadRight(s) && !Switching(s.ld.pc)
    requires FirstUnread(s) <= first && (b != s.m.buffIdx || i < first)
    ensures Holds(WithSlot(s.m, b, i, Vacant).dbuff[s.m.buffIdx], first, s.m.rest,
                  Source(s.cfg), PublishedCount(s) - s.m.rest)
  {
    var src, start := Source(s.cfg), PublishedCount(s) - s.m.rest;
    WriteElsewhere(s.m, b, i, Vacant, s.m.buffIdx, first, s.m.rest, src, start);
  }

  lemma StagedAfterMove(s: State)
    requires Sized(s) && LoaderFacts(s) && ReaderFacts(s) && StagedRight(s)
    requires s.rpc.RMove? || (s.rpc.RCopy? && s.rpc.next < s.rpc.end)
    requires Sized(TakeStmt(s)) && !TakeStmt(s).h.corrupt
    ensures StagedRight(TakeStmt(s))
  {
    var b, i := s.rpc.buf, if s.rpc.RMove? then s.rpc.slot else s.rpc.next;
    assert b != s.ld.idx || Staged(s) <= i;
    var s' := TakeStmt(s);
    assert s'.m == WithSlot(s.m, b, i, Vacant) && s'.ld == s.ld && s'.cfg == s.cfg;
    hide Holds, LoaderFacts, ReaderFacts, TakeStmt;
    WriteElsewhere(s.m, b, i, Vacant, s.ld.idx, 0, Staged(s), Source(s.cfg), PublishedCount(s));
  }

  // The slot about to be moved out holds the next record of the source.
  lemma NextRecord(s: State)
    requires Sized(s) && LoaderFacts(s) && ReaderFacts(s) && Counts(s) && Data(s)
    requires (s.rpc.RMove? && !s.rpc.overwritten) || (s.rpc.RCopy? && s.rpc.next < s.rpc.end)
    ensures |s.h.delivered| < |Source(s.cfg)|
    ensures SlotAt(s.m, s.rpc.buf, if s.rpc.RMove? then s.rpc.slot else s.rpc.next)
            == Full(Source(s.cfg)[|s.h.delivered|])
  {
    if s.rpc.RCopy? {
      assert !Switching(s.ld.pc);
      assert PublishedCount(s) - s.m.rest + s.rpc.next == |s.h.delivered|;
    }
  }

  lemma DataTake(s: State)
    requires Sized(s) && LoaderFacts(s) && ReaderFacts(s) && Counts(s) && Data(s)
    requires Sized(TakeStmt(s)) && !TakeStmt(s).h.corrupt
    ensures Data(TakeStmt(s))
  {
    hide LoaderFacts, ReaderFacts, Counts, Data, Sized, TakeStmt;
    match s.rpc
    case RTake => DataRaise(s);
    case RMove(_, _, _) => DataMoveOut(s);
    case RCopy(_, k, end, _) => if k < end { DataMoveOut(s); } else { SameRecordsPublish(s); }
    case RPublish(_) => DataPublishRidx(s);
    case _ => TakeMovesNothing(s); SameRecordsData(s, TakeStmt(s));
  }

  lemma TakeMovesNothing(s: State)
    requires !s.rpc.RTake? && !s.rpc.RMove? && !s.rpc.RCopy? && !s.rpc.RPublish?
    ensures SameRecords(s, TakeStmt(s))
  {
  }

  lemma DataRaise(s: State)
    requires Sized(s) && LoaderFacts(s) && ReaderFacts(s) && Counts(s) && Data(s) && s.rpc.RTake?
    requires Sized(TakeStmt(s))
    ensures Data(TakeStmt(s))
  {
    hide Counts, BatchesRight, Holds, MoveFacts;
    var s' := TakeStmt(s);
    assert !Switching(s.ld.pc) && FirstUnread(s) == s.m.ridx;
    UnreadTail(s, s.m.ridx + 1);
    ClaimedRecord(s);
    assert s'.ld == s.ld && s'.h == s.h && s'.m.dbuff == s.m.dbuff && s'.cfg == s.cfg;
    assert BatchesRight(s') by { SameBatches(s, s'); }
  }

  lemma SameBatches(s: State, s': State)
    requires BatchesRight(s) && s'.cfg == s.cfg && s'.h.batches == s.h.batches
    ensures BatchesRight(s')
  {
  }

  // The slot next claims holds the next record of the source.
  lemma ClaimedRecord(s: State)
    requires Sized(s) && LoaderFacts(s) && ReaderFacts(s) && Counts(s) && UnreadRight(s) && s.rpc.RTake?
    ensures |s.h.delivered| < N(s)
    ensures SlotAt(s.m, s.m.buffIdx, s.m.ridx) == Full(Source(s.cfg)[|s.h.delivered|])
  {
    assert !Switching(s.ld.pc) && FirstUnread(s) == s.m.ridx;
    assert PublishedCount(s) - s.m.rest + s.m.ridx == |s.h.delivered|;
  }

  lemma UnreadTail(s: State, first: nat)
    requires Sized(s) && UnreadRight(s) && !Switching(s.ld.pc) && FirstUnread(s) <= first
    ensures Holds(s.m.dbuff[s.m.buffIdx], first, s.m.rest, Source(s.cfg), PublishedCount(s) - s.m.rest)
  {
  }

  lemma DataPublishRidx(s: State)
    requires Sized(s) && ReaderFacts(s) && Data(s) && s.rpc.RPublish?
    requires Sized(TakeStmt(s))
    ensures Data(TakeStmt(s))
  {
    assert FirstUnread(TakeStmt(s)) == s.m.rest;
  }

  lemma SameRecordsPublish(s: State)
    requires Sized(s) && ReaderFacts(s) && Data(s) && s.rpc.RCopy? && s.rpc.next >= s.rpc.end
    ensures Sized(TakeStmt(s)) && Data(TakeStmt(s))
  {
    SameRecordsData(s, TakeStmt(s));
  }

  lemma DataKept(s: State, l: Label)
    requires Sized(s) && LoaderFacts(s) && EmptySource(s) && ReaderFacts(s) && Counts(s) && Data(s) && Enabled(s, l)
    requires Sized(Apply(s, l)) && Counts(Apply(s, l)) && !Apply(s, l).h.corrupt
    ensures Data(Apply(s, l))
  {
    hide LoaderFacts, EmptySource, ReaderFacts, Counts, Data, Sized, FillStmt, SwitchStmt, TakeStmt;
    if l == Stmt(Loader) {
      if s.ld.pc.LSetEof? || Switching(s.ld.pc) { DataSwitch(s); }
      else if s.ld.pc.LStart? || Filling(s.ld.pc) { DataFill(s); }
      else { DataHandOver(s); }
    } else if l == Stmt(Reader) && ReaderStmt(s) == TakeStmt(s) {
      DataTake(s);
    } else {
      ReaderMovesNothing(s, l); SameRecordsData(s, Apply(s, l));
    }
  }

  lemma CorruptStays(s: State, l: Label)
    requires Enabled(s, l)
    ensures s.h.corrupt ==> Apply(s, l).h.corrupt
  {
  }

  // Every step of either thread keeps the invariant.
  lemma StepInv(s: State, l: Label)
    requires Inv(s) && Enabled(s, l)
    ensures Inv(Apply(s, l)) && Apply(s, l).cfg == s.cfg
  {
    hide Sized, Locks, LoaderFacts, EofFacts, EmptySource, ReaderFacts, LoaderView, ReaderView, CheckView,
         OwedNotifies, Counts, Data, Apply, Enabled;
    SizedKept(s, l); LocksKept(s, l); LoaderFactsKept(s, l); EofFactsKept(s, l); EmptySourceKept(s, l);
    ReaderFactsKept(s, l); LoaderViewKept(s, l); ReaderViewKept(s, l); CheckViewKept(s, l);
    OwedNotifiesKept(s, l); CountsKept(s, l);
    CorruptStays(s, l);
    if !Apply(s, l).h.corrupt { DataKept(s, l); }
  }
}
