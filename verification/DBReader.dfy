// DBReader as an object: the shared fields, the two buffers updated in place, and the position
// of each thread.  A method executes one statement; what it does to the abstract state is the
// step of the protocol, so every result about runs holds of the object under any schedule.
module DBReaderObject {
  import opened Options
  import opened DoubleBuffer
  import opened DoubleBufferInvariant
  import opened DoubleBufferRaces
  import opened DoubleBufferSafety

  // What the statements below rely on: indices within the buffers, and the three asserts.
  lemma StatementFacts(s: State)
    requires Inv(s)
    ensures s.m.buffIdx < 2 && |s.m.dbuff| == 2 && |s.m.dbuff[0]| == |s.m.dbuff[1]| == s.cfg.size
    ensures s.ld.pc.LStore? ==> s.ld.idx < 2 && s.ld.recIdx < s.cfg.size && IterValid(s)
    ensures s.ld.pc.LSetRest? ==> s.m.rest > 0 && s.ld.recIdx <= s.m.ridx
    ensures s.rpc.RTake? ==> s.m.ridx < s.m.rest
    ensures s.rpc.RMove? ==> s.rpc.buf < 2 && s.rpc.slot < s.cfg.size
    ensures s.rpc.RCopy? ==> s.rpc.buf < 2 && s.rpc.end <= s.cfg.size
  {
  }

  lemma LoaderDelivers(s: State)
    ensures LoaderStmt(s).h.delivered == s.h.delivered && LoaderStmt(s).h.outcomes == s.h.outcomes
  {
  }

  lemma EnterDelivers(s: State)
    ensures EnterStmt(s).h.delivered == s.h.delivered == LeaveStmt(s).h.delivered
  {
  }

  class DBReader {
    const cfg: Config
    const dbuff0: array<Slot>
    const dbuff1: array<Slot>
    var cursor: nat
    var buffIdx: nat
    var ridx: nat
    var rest: nat
    var eof: bool
    var rmtx: Mutex
    var wmtx: Mutex
    var lpc: LoaderPC
    var recIdx: nat
    var idx: nat
    var rpc: ReaderPC
    var h: History  // records what happened; no statement reads it

    function Abs(): State
      reads this, dbuff0, dbuff1
    {
      State(cfg, Memory([dbuff0[..], dbuff1[..]], buffIdx, ridx, rest, eof, rmtx, wmtx),
            LoaderState(lpc, recIdx, idx, cursor), rpc, h)
    }

    ghost predicate Valid()
      reads this, dbuff0, dbuff1
    {
      dbuff0 != dbuff1 && Inv(Abs())
    }

    constructor (cfg: Config)
      requires cfg.size > 0
      ensures fresh(dbuff0) && fresh(dbuff1) && this.cfg == cfg
      ensures Valid() && Abs() == Init(cfg)
    {
      this.cfg := cfg;
      dbuff0 := new Slot[cfg.size](i => Vacant);
      dbuff1 := new Slot[cfg.size](i => Vacant);
      cursor, buffIdx, ridx, rest, eof := 0, 0, cfg.size, cfg.size, |cfg.entries| == 0;
      rmtx, wmtx := Free, Free;
      lpc, recIdx, idx, rpc, h := LStart, 0, 0, RIdle, History([], [], [], false);
      new;
      assert dbuff0[..] == Init(cfg).m.dbuff[0] && dbuff1[..] == Init(cfg).m.dbuff[1];
      InitInv(cfg);
    }

    // std::invalid_argument for an empty buffer.
    static method Create(cfg: Config) returns (r: Option<DBReader>)
      ensures r.Some? <==> cfg.size > 0
      ensures r.Some? ==> fresh(r.value) && r.value.Valid() && Construct(cfg) == Some(r.value.Abs())
      ensures r.None? ==> Construct(cfg) == None
    {
      if cfg.size == 0 { return None; }
      var d := new DBReader(cfg);
      return Some(d);
    }

    method WriteSlot(b: nat, i: nat, v: Slot)
      requires dbuff0 != dbuff1 && b < 2 && i < dbuff0.Length && dbuff0.Length == dbuff1.Length
      modifies dbuff0, dbuff1
      ensures Abs() == old(Abs()).(m := WithSlot(old(Abs()).m, b, i, v))
    {
      if b == 0 { dbuff0[i] := v; } else { dbuff1[i] := v; }
      assert Abs().m.dbuff == WithSlot(old(Abs()).m, b, i, v).dbuff;
    }

    method ReadSlot(b: nat, i: nat) returns (v: Slot)
      requires b < 2 && i < dbuff0.Length && dbuff0.Length == dbuff1.Length
      ensures v == SlotAt(Abs().m, b, i)
    {
      v := if b == 0 then dbuff0[i] else dbuff1[i];
    }

    method FillStatement()
      requires Valid() && Enabled(Abs(), Stmt(Loader)) && LoaderStmt(Abs()) == FillStmt(Abs())
      requires lpc.LStart? || Filling(lpc)
      modifies this, dbuff0, dbuff1
      ensures Abs() == FillStmt(old(Abs()))
    {
      hide Inv;
      StatementFacts(Abs());
      match lpc
      case LStart => recIdx, idx, lpc := 0, 1 - buffIdx, LFill;
      case LFill => lpc := if cursor < |cfg.entries| then LStore else LLockW;
      case LStore =>
        WriteSlot(idx, recIdx, Full(TaggedStrPair(cfg.tag, cfg.entries[cursor])));
        rpc := Hit(rpc, idx, recIdx);
        recIdx, lpc := recIdx + 1, LAdvance;
      case LAdvance => cursor, lpc := cursor + 1, if recIdx == cfg.size then LLockW else LFill;
      case LLockW => wmtx, lpc := ByLoader, LTest(BLANK);
      case LTest(v) => wmtx, lpc := Free, if v.Empty() then LSetIdx else LAsleep;
      case LRelock => wmtx, lpc := ByLoader, LTest(BLANK);
    }

    method SwitchStatement()
      requires Valid() && (Switching(lpc) || lpc.LSetEof?)
      modifies this
      ensures Abs() == SwitchStmt(old(Abs()))
    {
      hide Inv;
      StatementFacts(Abs());
      match lpc
      case LSetIdx => buffIdx, lpc := idx, LSetRest;
      case LSetRest =>
        assert rest > 0;
        rest := recIdx;
        assert rest <= ridx;
        lpc := LSetRidx;
      case LSetRidx =>
        h := h.(batches := h.batches + [Published(Abs())]);
        ridx, lpc := 0, LSetEof;
      case LSetEof => eof, lpc := !(cursor < |cfg.entries|), LLockR;
    }

    method HandOverStatement()
      requires Valid() && Enabled(Abs(), Stmt(Loader)) && (lpc.LLockR? || lpc.LNotifyR? || lpc.LUnlockR? || lpc.LLoop?)
      modifies this
      ensures Abs() == HandOverStmt(old(Abs()))
    {
      hide Inv;
      match lpc
      case LLockR => rmtx, lpc := ByLoader, LNotifyR;
      case LNotifyR =>
        if rpc.RAsleep? { rpc := RRelock(rpc.use); }
        lpc := LUnlockR;
      case LUnlockR => rmtx, lpc := Free, LLoop;
      case LLoop => lpc := if cursor < |cfg.entries| then LStart else LDone;
    }

    // The call is over; ret goes to the application.
    method Finish(out: Outcome) returns (ret: Option<Outcome>)
      modifies this
      ensures Abs() == Return(old(Abs()), out) && ret == Some(out)
    {
      rpc := RIdle;
      h := h.(outcomes := h.outcomes + [out]);
      ret := Some(out);
    }

    method DecideHasNext(use: Use, answer: bool) returns (ret: Option<Outcome>)
      modifies this
      ensures Abs() == Decide(old(Abs()), use, answer) && h.outcomes == old(h).outcomes + ret.ToSeq()
    {
      ret := None;
      if use.HasNext? { ret := Finish(Answer(answer)); }
      else if answer { rpc := RLockR(use); }
      else { ret := Finish(ReadEof); }
    }

    method EnterStatement() returns (ret: Option<Outcome>)
      requires Valid() && Enabled(Abs(), Stmt(Reader))
      requires rpc.RHas? || rpc.RHasEof? || rpc.RLockR? || rpc.RTest? || rpc.RRelock?
      modifies this
      ensures Abs() == EnterStmt(old(Abs())) && h.outcomes == old(h).outcomes + ret.ToSeq()
    {
      hide Inv;
      ret := None;
      match rpc
      case RHas(use, v) => if v.Empty() { rpc := RHasEof(use); } else { ret := DecideHasNext(use, true); }
      case RHasEof(use) => ret := DecideHasNext(use, !eof);
      case RLockR(use) => rmtx, rpc := ByReader, RTest(use, BLANK);
      case RTest(use, v) =>
        rmtx, rpc := Free, if v.Empty() then RAsleep(use) else if use.Next? then RTake else RSpan;
      case RRelock(use) => rmtx, rpc := ByReader, RTest(use, BLANK);
    }

    method MoveRecord(b: nat, i: nat, overwritten: bool, pc: ReaderPC) returns (rec: TaggedStrPair)
      requires dbuff0 != dbuff1 && b < 2 && i < dbuff0.Length && dbuff0.Length == dbuff1.Length
      modifies this, dbuff0, dbuff1
      ensures Abs() == MoveOut(old(Abs()), b, i, overwritten, pc)
      ensures h.delivered == old(h).delivered + [rec] && h.outcomes == old(h).outcomes
    {
      var v := ReadSlot(b, i);
      WriteSlot(b, i, Vacant);
      rec := Contents(v);
      h := h.(delivered := h.delivered + [rec], corrupt := h.corrupt || overwritten);
      rpc := pc;
    }

    // out is the record that is moved out of its slot, ret what the call returns, if this statement
    // does so.
    method TakeStatement() returns (out: Option<TaggedStrPair>, ret: Option<Outcome>)
      requires Valid() && Enabled(Abs(), Stmt(Reader))
      requires InRegion(rpc) || rpc.RMove? || rpc.RCheck?
      modifies this, dbuff0, dbuff1
      ensures Abs() == TakeStmt(old(Abs()))
      ensures h.delivered == old(h).delivered + out.ToSeq() && h.outcomes == old(h).outcomes + ret.ToSeq()
    {
      hide Inv, MoveOut;
      StatementFacts(Abs());
      out, ret := None, None;
      match rpc
      case RTake =>
        assert ridx < rest;
        ridx, rpc := ridx + 1, RMove(buffIdx, ridx, false);
      case RMove(b, i, overwritten) =>
        var v := ReadSlot(b, i);
        var rec := MoveRecord(b, i, overwritten, RCheck(BLANK, Taken(Contents(v))));
        out := Some(rec);
      case RCheck(v, back) => if v.Empty() { rpc := RLockW(back); } else { ret := Finish(back); }
      case RSpan => rpc := RCopy(buffIdx, ridx, rest, rest as int - ridx as int);
      case RCopy(b, k, end, count) =>
        if k < end {
          var rec := MoveRecord(b, k, false, RCopy(b, k + 1, end, count));
          out := Some(rec);
        } else {
          rpc := RPublish(count);
        }
      case RPublish(count) => ridx, rpc := rest, RLockW(Copied(count));
    }

    method LeaveStatement() returns (ret: Option<Outcome>)
      requires Valid() && (rpc.RLockW? || rpc.RNotifyW? || rpc.RUnlockW?)
      modifies this
      ensures Abs() == LeaveStmt(old(Abs())) && h.outcomes == old(h).outcomes + ret.ToSeq()
    {
      hide Inv;
      ret := None;
      match rpc
      case RLockW(back) => wmtx, rpc := ByReader, RNotifyW(back);
      case RNotifyW(back) =>
        if lpc.LAsleep? { lpc := LRelock; }
        rpc := RUnlockW(back);
      case RUnlockW(back) =>
        wmtx := Free;
        ret := Finish(back);
    }

    method OtherStatement(l: Label)
      requires Valid() && Enabled(Abs(), l) && !l.Stmt?
      modifies this
      ensures Abs() == OtherStep(old(Abs()), l)
    {
      match l
      case LoadRidx(Loader) => lpc := LTest(lpc.view.(ridx := Some(ridx)));
      case LoadRest(Loader) => lpc := LTest(lpc.view.(rest := Some(rest)));
      case LoadRidx(Reader) => rpc := rpc.(view := rpc.view.(ridx := Some(ridx)));
      case LoadRest(Reader) => rpc := rpc.(view := rpc.view.(rest := Some(rest)));
      case Spurious(Loader) => lpc := LRelock;
      case Spurious(Reader) => rpc := RRelock(rpc.use);
      case Call(use) => rpc := RHas(use, BLANK);
    }

    method LoaderStatement()
      requires Valid() && Enabled(Abs(), Stmt(Loader))
      modifies this, dbuff0, dbuff1
      ensures Abs() == LoaderStmt(old(Abs()))
      ensures h.delivered == old(h).delivered && h.outcomes == old(h).outcomes
    {
      hide Inv, FillStmt, SwitchStmt, HandOverStmt;
      LoaderDelivers(Abs());
      if lpc.LSetIdx? || lpc.LSetRest? || lpc.LSetRidx? || lpc.LSetEof? { SwitchStatement(); }
      else if lpc.LLockR? || lpc.LNotifyR? || lpc.LUnlockR? || lpc.LLoop? { HandOverStatement(); }
      else { FillStatement(); }
    }

    method ReaderStatement() returns (out: Option<TaggedStrPair>, ret: Option<Outcome>)
      requires Valid() && Enabled(Abs(), Stmt(Reader))
      modifies this, dbuff0, dbuff1
      ensures Abs() == ReaderStmt(old(Abs()))
      ensures h.delivered == old(h).delivered + out.ToSeq() && h.outcomes == old(h).outcomes + ret.ToSeq()
    {
      EnterDelivers(Abs());
      hide Inv, EnterStmt, TakeStmt, LeaveStmt;
      out := None;
      if rpc.RHas? || rpc.RHasEof? || rpc.RLockR? || rpc.RTest? || rpc.RRelock? { ret := EnterStatement(); }
      else if rpc.RLockW? || rpc.RNotifyW? || rpc.RUnlockW? { ret := LeaveStatement(); }
      else { out, ret := TakeStatement(); }
    }

    method Step(l: Label) returns (out: Option<TaggedStrPair>, ret: Option<Outcome>)
      requires Valid() && Enabled(Abs(), l)
      modifies this, dbuff0, dbuff1
      ensures Valid() && Abs() == Apply(old(Abs()), l)
      ensures h.delivered == old(h).delivered + out.ToSeq() && h.outcomes == old(h).outcomes + ret.ToSeq()
    {
      hide Inv, Enabled, Apply, LoaderStmt, ReaderStmt;
      StepInv(Abs(), l);
      ApplyIs(Abs(), l);
      out, ret := None, None;
      match l
      case Stmt(Loader) => LoaderStatement();
      case Stmt(Reader) => out, ret := ReaderStatement();
      case _ => OtherStatement(l);
    }

    // Follow a schedule until it is done or its next label is not enabled.  What comes out of a
    // safe one goes on where the source was left.
    method Follow(schedule: seq<Label>) returns (k: nat, out: seq<TaggedStrPair>, ret: seq<Outcome>)
      requires Valid()
      modifies this, dbuff0, dbuff1
      ensures Valid() && k <= |schedule| && Run(old(Abs()), schedule[..k]) == Some(Abs())
      ensures k < |schedule| ==> !Enabled(Abs(), schedule[k])
      ensures h.delivered == old(h).delivered + out && h.outcomes == old(h).outcomes + ret
      ensures SafeSchedule(old(Abs()), schedule[..k]) && !old(h).corrupt ==> old(h).delivered + out <= Source(cfg)
    {
      hide Inv, Enabled, Apply, SafeSchedule;
      k, out, ret := 0, [], [];
      while k < |schedule| && Enabled(Abs(), schedule[k])
        invariant Valid() && k <= |schedule| && Run(old(Abs()), schedule[..k]) == Some(Abs())
        invariant h.delivered == old(h).delivered + out && h.outcomes == old(h).outcomes + ret
        decreases |schedule| - k
      {
        RunSnoc(old(Abs()), schedule[..k], schedule[k]);
        assert schedule[..k] + [schedule[k]] == schedule[..k + 1];
        var rec, back := Step(schedule[k]);
        out, ret := out + rec.ToSeq(), ret + back.ToSeq();
        k := k + 1;
      }
      if SafeSchedule(old(Abs()), schedule[..k]) && !old(h).corrupt {
        SafeScheduleKeeps(old(Abs()), schedule[..k]);
      }
    }
  }
}
