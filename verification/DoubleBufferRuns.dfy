// Runs built step by step, for every configuration: whole rounds of the loader, and a reader
// that drains the buffer record by record.  The races are continuations of them.
module DoubleBufferRuns {
  import opened Options
  import opened DoubleBuffer
  import opened DoubleBufferInvariant
  import opened DoubleBufferSafety

  lemma Go(s: State, l: Label) returns (s': State)
    requires Reachable(s) && Enabled(s, l)
    ensures s' == Apply(s, l) && Reachable(s')
  {
    s' := Apply(s, l);
    ReachableInv(s);
    StepInv(s, l);
    var ls :| s.cfg.size > 0 && Run(Init(s.cfg), ls) == Some(s);
    RunSnoc(Init(s.cfg), ls, l);
    assert Run(Init(s'.cfg), ls + [l]) == Some(s');
  }

  lemma InitReachable(cfg: Config)
    requires cfg.size > 0
    ensures Reachable(Init(cfg))
  {
    assert Run(Init(cfg), []) == Some(Init(cfg));
  }

  // ---------- While one call is under way ----------

  predicate NoCalls(ls: seq<Label>) { forall i :: 0 <= i < |ls| ==> !ls[i].Call? }

  // s' is ahead of s0, with no other call in between.
  ghost predicate Leads(s0: State, s': State)
  {
    exists ls :: NoCalls(ls) && Run(s0, ls) == Some(s')
  }

  ghost predicate OnTheWay(s0: State, s: State) { Inv(s) && Leads(s0, s) }

  lemma LeadsStart(s: State)
    requires Inv(s)
    ensures OnTheWay(s, s)
  {
    assert NoCalls([]) && Run(s, []) == Some(s);
  }

  lemma GoOn(s0: State, s: State, l: Label) returns (s': State)
    requires OnTheWay(s0, s) && Enabled(s, l) && !l.Call?
    ensures s' == Apply(s, l) && OnTheWay(s0, s')
  {
    s' := Apply(s, l);
    StepInv(s, l);
    var ls :| NoCalls(ls) && Run(s0, ls) == Some(s);
    RunSnoc(s0, ls, l);
    assert NoCalls(ls + [l]) && Run(s0, ls + [l]) == Some(s');
  }

  // ---------- The loader ----------

  // The records a round still has to store.
  function Room(s: State): nat
  {
    if s.ld.recIdx >= s.cfg.size || !IterValid(s) then 0
    else if s.cfg.size - s.ld.recIdx <= N(s) - s.ld.cursor then s.cfg.size - s.ld.recIdx
    else N(s) - s.ld.cursor
  }

  // Everything but the loader's own state and the contents of the buffers is the same.
  predicate OnlyFilled(s: State, s': State)
  {
    s'.cfg == s.cfg && s'.h == s.h && s'.m == s.m.(dbuff := s'.m.dbuff)
  }

  lemma LoaderStores(s: State) returns (s': State)
    requires Reachable(s) && s.ld.pc.LFill? && s.ld.recIdx < s.cfg.size && IterValid(s)
    ensures Reachable(s') && OnlyFilled(s, s') && s'.rpc == Hit(s.rpc, s.ld.idx, s.ld.recIdx)
    ensures s'.ld.recIdx == s.ld.recIdx + 1 && s'.ld.cursor == s.ld.cursor + 1 && s'.ld.idx == s.ld.idx
    ensures s'.ld.pc == if s'.ld.recIdx == s.cfg.size then LLockW else LFill
  {
    hide Reachable, Hit;
    s' := Go(s, Stmt(Loader));
    s' := Go(s', Stmt(Loader));
    s' := Go(s', Stmt(Loader));
  }

  predicate StoredOver(pc: ReaderPC, b: nat, from: nat, to: nat)
  {
    pc.RMove? && pc.buf == b && from <= pc.slot < to
  }

  // From the test of the inner loop to the wait.
  lemma {:induction false} LoaderFills(s: State) returns (s': State)
    requires Reachable(s) && s.ld.pc.LFill? && s.ld.recIdx < s.cfg.size
    ensures Reachable(s') && OnlyFilled(s, s')
    ensures s'.ld == LoaderState(LLockW, s.ld.recIdx + Room(s), s.ld.idx, s.ld.cursor + Room(s))
    ensures s'.rpc == if StoredOver(s.rpc, s.ld.idx, s.ld.recIdx, s.ld.recIdx + Room(s))
                      then s.rpc.(overwritten := true) else s.rpc
    decreases s.cfg.size - s.ld.recIdx
  {
    hide Reachable;
    if !IterValid(s) {
      s' := Go(s, Stmt(Loader));
    } else {
      s' := LoaderStores(s);
      assert Room(s) == 1 + Room(s');
      if s'.ld.pc.LFill? { s' := LoaderFills(s'); }
    }
  }

  lemma LoaderSeesEmpty(s: State) returns (s': State)
    requires Reachable(s) && s.ld.pc.LLockW? && s.m.wmtx.Free? && s.m.ridx >= s.m.rest
    ensures Reachable(s') && s' == s.(ld := s.ld.(pc := LSetIdx))
  {
    hide Reachable;
    s' := Go(s, Stmt(Loader));
    s' := Go(s', LoadRidx(Loader));
    s' := Go(s', LoadRest(Loader));
    s' := Go(s', Stmt(Loader));
  }

  // The switch, up to the write of `_eof`.
  lemma LoaderSwitches(s: State) returns (s': State)
    requires Reachable(s) && s.ld.pc.LSetIdx? && s.m.rest > 0 && s.ld.recIdx <= s.m.ridx
    ensures Reachable(s') && s'.cfg == s.cfg && s'.rpc == s.rpc && s'.ld == s.ld.(pc := LSetEof)
    ensures s'.m == s.m.(buffIdx := s.ld.idx, rest := s.ld.recIdx, ridx := 0)
    ensures s'.h.delivered == s.h.delivered && s'.h.corrupt == s.h.corrupt
  {
    hide Reachable, Published;
    s' := Go(s, Stmt(Loader));
    s' := Go(s', Stmt(Loader));
    s' := Go(s', Stmt(Loader));
  }

  // Between two rounds: the read buffer was full and is drained.
  predicate RoundBegins(s: State)
  {
    && s.ld.pc.LStart? && s.m.buffIdx < 2 && s.cfg.size > 0
    && s.m.wmtx.Free? && s.m.ridx == s.m.rest == s.cfg.size
  }

  function RoundSize(s: State): nat { Room(s.(ld := s.ld.(recIdx := 0))) }

  lemma LoaderFillsBatch(s: State) returns (s': State)
    requires Reachable(s) && s.ld.pc.LStart? && s.m.buffIdx < 2 && s.cfg.size > 0
    ensures Reachable(s') && OnlyFilled(s, s')
    ensures s'.ld == LoaderState(LLockW, RoundSize(s), 1 - s.m.buffIdx, s.ld.cursor + RoundSize(s))
    ensures s'.rpc == if StoredOver(s.rpc, 1 - s.m.buffIdx, 0, RoundSize(s))
                      then s.rpc.(overwritten := true) else s.rpc
  {
    hide Reachable;
    s' := Go(s, Stmt(Loader));
    assert Room(s') == RoundSize(s);
    s' := LoaderFills(s');
  }

  // A whole round up to the write of `_eof`: one more batch is published.
  lemma LoaderPublishes(s: State) returns (s': State)
    requires Reachable(s) && RoundBegins(s) && !(s.rpc.RMove? && s.rpc.buf != s.m.buffIdx)
    ensures Reachable(s') && s'.cfg == s.cfg && s'.rpc == s.rpc
    ensures s'.ld == LoaderState(LSetEof, RoundSize(s), 1 - s.m.buffIdx, s.ld.cursor + RoundSize(s))
    ensures s'.m == s.m.(dbuff := s'.m.dbuff, buffIdx := 1 - s.m.buffIdx, rest := RoundSize(s), ridx := 0)
    ensures s'.h.delivered == s.h.delivered && s'.h.corrupt == s.h.corrupt
  {
    hide Reachable;
    s' := LoaderFillsBatch(s);
    s' := LoaderSeesEmpty(s');
    s' := LoaderSwitches(s');
  }

  lemma LoaderHandsOver(s: State) returns (s': State)
    requires Reachable(s) && s.ld.pc.LSetEof? && s.m.rmtx.Free? && !s.rpc.RAsleep?
    ensures Reachable(s')
    ensures s' == s.(m := s.m.(eof := !IterValid(s)), ld := s.ld.(pc := if IterValid(s) then LStart else LDone))
  {
    hide Reachable;
    s' := Go(s, Stmt(Loader));
    s' := Go(s', Stmt(Loader));
    s' := LoaderNotified(s');
  }

  lemma LoaderNotified(s: State) returns (s': State)
    requires Reachable(s) && s.ld.pc.LNotifyR? && s.m.rmtx.ByLoader? && !s.rpc.RAsleep?
    ensures Reachable(s')
    ensures s' == s.(m := s.m.(rmtx := Free), ld := s.ld.(pc := if IterValid(s) then LStart else LDone))
  {
    hide Reachable;
    s' := Go(s, Stmt(Loader));
    s' := Go(s', Stmt(Loader));
    s' := Go(s', Stmt(Loader));
  }

  // ---------- The reader ----------

  lemma ReaderAsks(s: State, use: Use) returns (s': State)
    requires Reachable(s) && s.rpc.RIdle?
    ensures Reachable(s')
    ensures s' == if s.m.ridx >= s.m.rest then s.(rpc := RHasEof(use)) else Decide(s, use, true)
  {
    hide Reachable;
    s' := Go(s, Call(use));
    s' := Go(s', LoadRidx(Reader));
    s' := Go(s', LoadRest(Reader));
    s' := Go(s', Stmt(Reader));
  }

  lemma ReaderWaits(s: State) returns (s': State)
    requires Reachable(s) && s.rpc == RLockR(Next) && s.m.rmtx.Free? && s.m.ridx < s.m.rest
    ensures Reachable(s') && s' == s.(rpc := RTake)
  {
    hide Reachable;
    s' := Go(s, Stmt(Reader));
    s' := Go(s', LoadRidx(Reader));
    s' := Go(s', LoadRest(Reader));
    s' := Go(s', Stmt(Reader));
  }

  lemma ReaderClaims(s: State) returns (s': State)
    requires Reachable(s) && s.rpc.RIdle? && s.m.ridx < s.m.rest && s.m.rmtx.Free?
    ensures Reachable(s')
    ensures s' == s.(m := s.m.(ridx := s.m.ridx + 1), rpc := RMove(s.m.buffIdx, s.m.ridx, false))
  {
    hide Reachable;
    s' := ReaderAsks(s, Next);
    s' := ReaderWaits(s');
    s' := Go(s', Stmt(Reader));
  }

  // s' is s after k takes that were not overwritten.
  predicate Took(s: State, s': State, k: nat)
  {
    && s'.cfg == s.cfg && s'.ld == s.ld && s'.rpc.RIdle?
    && s'.m == s.m.(dbuff := s'.m.dbuff, ridx := s.m.ridx + k)
    && |s'.h.delivered| == |s.h.delivered| + k && s'.h.corrupt == s.h.corrupt
  }

  // From a claim to the test for an empty buffer.
  lemma ReaderMovesOut(s: State) returns (s': State)
    requires Reachable(s) && s.rpc.RMove?
    ensures Reachable(s')
    ensures var out := Taken(Contents(SlotAt(s.m, s.rpc.buf, s.rpc.slot)));
            var moved := MoveOut(s, s.rpc.buf, s.rpc.slot, s.rpc.overwritten, RLockW(out));
            s' == if s.m.ridx >= s.m.rest then moved else Return(moved, out)
  {
    hide Reachable;
    s' := Go(s, Stmt(Reader));
    s' := Go(s', LoadRidx(Reader));
    s' := Go(s', LoadRest(Reader));
    s' := Go(s', Stmt(Reader));
  }

  lemma ReaderNotifies(s: State) returns (s': State)
    requires Reachable(s) && s.rpc.RLockW? && s.m.wmtx.Free? && !s.ld.pc.LAsleep?
    ensures Reachable(s') && s' == Return(s, s.rpc.out)
  {
    hide Reachable;
    s' := Go(s, Stmt(Reader));
    s' := Go(s', Stmt(Reader));
    s' := Go(s', Stmt(Reader));
  }

  lemma ReaderTakesOne(s: State) returns (s': State)
    requires Reachable(s) && s.rpc.RIdle? && s.m.ridx < s.m.rest && s.m.rmtx.Free?
    requires s.m.wmtx.Free? && !s.ld.pc.LAsleep?
    ensures Reachable(s') && Took(s, s', 1)
  {
    hide Reachable;
    s' := ReaderClaims(s);
    s' := ReaderMovesOut(s');
    if s'.rpc.RLockW? { s' := ReaderNotifies(s'); }
  }

  lemma {:induction false} ReaderTakes(s: State, k: nat) returns (s': State)
    requires Reachable(s) && s.rpc.RIdle? && s.m.ridx + k <= s.m.rest && s.m.rmtx.Free?
    requires s.m.wmtx.Free? && !s.ld.pc.LAsleep?
    ensures Reachable(s') && Took(s, s', k)
    decreases k
  {
    hide Reachable;
    s' := s;
    if k > 0 {
      s' := ReaderTakesOne(s');
      s' := ReaderTakes(s', k - 1);
    }
  }

  // ---------- Whole rounds ----------

  // The loader begins a round and the reader has everything that was published.
  predicate Level(s: State)
  {
    && RoundBegins(s) && IterValid(s) && s.rpc.RIdle? && s.m.rmtx.Free?
    && |s.h.delivered| == s.ld.cursor && !s.h.corrupt
  }

  // Loader and reader take turns until only the last batch is due.
  lemma {:induction false} UpToLastRound(s: State) returns (s': State)
    requires Reachable(s) && Level(s)
    ensures Reachable(s') && Level(s') && s'.cfg == s.cfg && N(s') - s'.ld.cursor <= s'.cfg.size
    decreases N(s) - s.ld.cursor
  {
    hide Reachable;
    s' := s;
    if N(s) - s.ld.cursor > s.cfg.size {
      s' := LoaderPublishes(s);
      s' := LoaderHandsOver(s');
      s' := ReaderTakes(s', s.cfg.size);
      s' := UpToLastRound(s');
    }
  }

  lemma LastRound(cfg: Config) returns (s: State)
    requires cfg.size > 0 && cfg.entries != []
    ensures Reachable(s) && Level(s) && s.cfg == cfg && N(s) - s.ld.cursor <= cfg.size
  {
    hide Reachable;
    InitReachable(cfg);
    s := UpToLastRound(Init(cfg));
  }
}
