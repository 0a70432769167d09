// The two-thread protocol of DBReader as a labelled transition system.
//
// Each thread has a program counter; a label names the thread that moves and, where the
// source leaves the evaluation order open, which operand it loads.  A step performs at most
// one write to shared memory, and atomics are sequentially consistent.  What the properties
// could notice is split:
//   - `_ridx >= _rest` is two loads, in either order;
//   - has_next reads emptiness and then `_eof`;
//   - next raises `_ridx` in one step and moves the record out in a later one;
//   - batch_fetch moves slot by slot and then publishes `_ridx`.
// One thing is merged that they would notice: next loads `_buff_idx` in the step that raises
// `_ridx`.  Where the language leaves the order of these operands open, as it did before C++17,
// this assumes that the load does not come later: then nothing would keep the loader from
// switching in between.
module DoubleBuffer {

  import opened Options

  datatype StrPair = StrPair(key: string, val: string)
  datatype TaggedStrPair = TaggedStrPair(tag: nat, kv: StrPair)

  // A slot of a buffer: Vacant before its first write and after its record was moved out.
  datatype Slot = Vacant | Full(rec: TaggedStrPair)

  datatype Config = Config(tag: nat, size: nat, entries: seq<StrPair>)

  // What a fault-free reader receives: every entry of the iterator, tagged, in order.
  function Source(cfg: Config): (r: seq<TaggedStrPair>)
    ensures |r| == |cfg.entries|
    ensures forall i :: 0 <= i < |r| ==> r[i] == TaggedStrPair(cfg.tag, cfg.entries[i])
  {
    seq(|cfg.entries|, i requires 0 <= i < |cfg.entries| => TaggedStrPair(cfg.tag, cfg.entries[i]))
  }

  datatype Mutex = Free | ByLoader | ByReader

  // The loads made so far while evaluating `_ridx >= _rest`.
  datatype View = View(ridx: Option<nat>, rest: Option<nat>) {
    predicate Complete() { ridx.Some? && rest.Some? }
    predicate Empty() { Complete() && ridx.value >= rest.value }
  }

  const BLANK := View(None, None)

  // What the application asked the reader thread for, and what it got back: has_next's answer, the
  // exception of next and batch_fetch, next's record, or the number of records copied out.
  datatype Use = HasNext | Next | BatchFetch
  datatype Outcome = Answer(more: bool) | ReadEof | Taken(rec: TaggedStrPair) | Copied(count: int)

  datatype LoaderPC =
    | LStart | LFill | LStore | LAdvance
    | LLockW | LTest(view: View) | LAsleep | LRelock
    | LSetIdx | LSetRest | LSetRidx | LSetEof
    | LLockR | LNotifyR | LUnlockR | LLoop | LDone | LAborted

  // RMove carries the slot named by next and, as history, whether the loader stored into it
  // since.  RCopy and the positions after a take carry what the call is going to return.
  datatype ReaderPC =
    | RIdle
    | RHas(use: Use, view: View) | RHasEof(use: Use)
    | RLockR(use: Use) | RTest(use: Use, view: View) | RAsleep(use: Use) | RRelock(use: Use)
    | RTake | RMove(buf: nat, slot: nat, overwritten: bool) | RCheck(view: View, out: Outcome)
    | RSpan | RCopy(buf: nat, next: nat, end: nat, ret: int) | RPublish(ret: int)
    | RLockW(out: Outcome) | RNotifyW(out: Outcome) | RUnlockW(out: Outcome) | RAborted

  datatype Memory = Memory(
    dbuff: seq<seq<Slot>>, buffIdx: nat, ridx: nat, rest: nat, eof: bool, rmtx: Mutex, wmtx: Mutex)

  // The loader's program counter, its locals, and the iterator, which only it uses.
  datatype LoaderState = LoaderState(pc: LoaderPC, recIdx: nat, idx: nat, cursor: nat)

  // No step reads the history.  outcomes: what the calls that are over returned, in order.
  // corrupt: a record was moved out of an overwritten slot.
  datatype History = History(
    delivered: seq<TaggedStrPair>, batches: seq<seq<TaggedStrPair>>, outcomes: seq<Outcome>, corrupt: bool)

  datatype State = State(cfg: Config, m: Memory, ld: LoaderState, rpc: ReaderPC, h: History)

  datatype Thread = Loader | Reader

  datatype Label =
    | Stmt(t: Thread)        // the next statement of a thread
    | LoadRidx(t: Thread)    // one operand of `_ridx >= _rest`
    | LoadRest(t: Thread)    // the other
    | Spurious(t: Thread)    // a spurious wake-up
    | Call(use: Use)         // the application enters has_next, next or batch_fetch

  // The constructor: the state in which the loader thread starts, or an exception for size 0.
  function Construct(cfg: Config): Option<State>
  {
    if cfg.size == 0 then None else Some(Init(cfg))
  }

  function Init(cfg: Config): State
  {
    var buffer := seq(cfg.size, i => Vacant);
    State(cfg, Memory([buffer, buffer], 0, cfg.size, cfg.size, |cfg.entries| == 0, Free, Free),
          LoaderState(LStart, 0, 0, 0), RIdle, History([], [], [], false))
  }

  predicate Sized(s: State)
  {
    && |s.m.dbuff| == 2
    && |s.m.dbuff[0]| == |s.m.dbuff[1]| == s.cfg.size > 0
    && s.m.buffIdx < 2 && s.ld.idx < 2
    && s.ld.cursor <= |s.cfg.entries|
    && s.ld.recIdx <= s.cfg.size && s.m.ridx <= s.cfg.size && s.m.rest <= s.cfg.size
  }

  predicate IterValid(s: State) { s.ld.cursor < |s.cfg.entries| }

  // Moving out of a vacant slot yields a default record.
  function Contents(slot: Slot): TaggedStrPair
  {
    match slot
    case Full(rec) => rec
    case Vacant => TaggedStrPair(0, StrPair("", ""))
  }

  // A load or a store through a bad index is undefined behaviour in the source; the
  // accessors make it harmless here and the invariant shows it never happens.
  function SlotAt(m: Memory, b: nat, i: nat): Slot
  {
    if b < |m.dbuff| && i < |m.dbuff[b]| then m.dbuff[b][i] else Vacant
  }

  function WithSlot(m: Memory, b: nat, i: nat, v: Slot): Memory
  {
    if b < |m.dbuff| && i < |m.dbuff[b]| then m.(dbuff := m.dbuff[b := m.dbuff[b][i := v]]) else m
  }

  // The records of the buffer being published.
  function Published(s: State): (r: seq<TaggedStrPair>)
    ensures |r| == s.m.rest
    ensures forall i :: 0 <= i < |r| ==> r[i] == Contents(SlotAt(s.m, s.m.buffIdx, i))
  {
    seq(s.m.rest, i requires 0 <= i < s.m.rest => Contents(SlotAt(s.m, s.m.buffIdx, i)))
  }

  predicate Enabled(s: State, l: Label)
  {
    match l
    case Stmt(Loader) =>
      (match s.ld.pc
       case LLockW => s.m.wmtx.Free?
       case LRelock => s.m.wmtx.Free?
       case LLockR => s.m.rmtx.Free?
       case LTest(v) => v.Complete()
       case _ => !(s.ld.pc.LAsleep? || s.ld.pc.LDone? || s.ld.pc.LAborted?))
    case Stmt(Reader) =>
      (match s.rpc
       case RLockR(_) => s.m.rmtx.Free?
       case RRelock(_) => s.m.rmtx.Free?
       case RLockW(_) => s.m.wmtx.Free?
       case RHas(_, v) => v.Complete()
       case RTest(_, v) => v.Complete()
       case RCheck(v, _) => v.Complete()
       case _ => !(s.rpc.RIdle? || s.rpc.RAsleep? || s.rpc.RAborted?))
    case LoadRidx(Loader) => s.ld.pc.LTest? && s.ld.pc.view.ridx.None?
    case LoadRest(Loader) => s.ld.pc.LTest? && s.ld.pc.view.rest.None?
    case LoadRidx(Reader) => (s.rpc.RHas? || s.rpc.RTest? || s.rpc.RCheck?) && s.rpc.view.ridx.None?
    case LoadRest(Reader) => (s.rpc.RHas? || s.rpc.RTest? || s.rpc.RCheck?) && s.rpc.view.rest.None?
    case Spurious(Loader) => s.ld.pc.LAsleep?
    case Spurious(Reader) => s.rpc.RAsleep?
    case Call(_) => s.rpc.RIdle?
  }

  // ---------- One statement of _load ----------

  function LoaderStmt(s: State): State
  {
    if s.ld.pc.LSetIdx? || s.ld.pc.LSetRest? || s.ld.pc.LSetRidx? || s.ld.pc.LSetEof? then SwitchStmt(s)
    else if s.ld.pc.LLockR? || s.ld.pc.LNotifyR? || s.ld.pc.LUnlockR? || s.ld.pc.LLoop? then HandOverStmt(s)
    else FillStmt(s)
  }

  // Fill the spare buffer, then wait for the read buffer to drain.
  function FillStmt(s: State): State
  {
    match s.ld.pc
    case LStart => s.(ld := s.ld.(recIdx := 0, idx := if s.m.buffIdx <= 1 then 1 - s.m.buffIdx else 0, pc := LFill))
    case LFill => s.(ld := s.ld.(pc := if IterValid(s) then LStore else LLockW))
    case LStore =>
      var rec := if IterValid(s) then Full(TaggedStrPair(s.cfg.tag, s.cfg.entries[s.ld.cursor])) else Vacant;
      s.(m := WithSlot(s.m, s.ld.idx, s.ld.recIdx, rec),
         ld := s.ld.(recIdx := s.ld.recIdx + 1, pc := LAdvance),
         rpc := Hit(s.rpc, s.ld.idx, s.ld.recIdx))
    case LAdvance =>
      s.(ld := s.ld.(cursor := s.ld.cursor + 1, pc := if s.ld.recIdx == s.cfg.size then LLockW else LFill))
    case LLockW => s.(m := s.m.(wmtx := ByLoader), ld := s.ld.(pc := LTest(BLANK)))
    case LTest(v) => s.(m := s.m.(wmtx := Free), ld := s.ld.(pc := if v.Empty() then LSetIdx else LAsleep))
    case LRelock => s.(m := s.m.(wmtx := ByLoader), ld := s.ld.(pc := LTest(BLANK)))
    case _ => s
  }

  function Hit(pc: ReaderPC, b: nat, i: nat): ReaderPC
  {
    if pc.RMove? && pc.buf == b && pc.slot == i then pc.(overwritten := true) else pc
  }

  // Switch the read buffer, one write at a time.
  function SwitchStmt(s: State): State
  {
    match s.ld.pc
    case LSetIdx => s.(m := s.m.(buffIdx := s.ld.idx), ld := s.ld.(pc := LSetRest))
    case LSetRest =>
      s.(m := if s.m.rest > 0 then s.m.(rest := s.ld.recIdx) else s.m,
         ld := s.ld.(pc := if s.m.rest > 0 && s.ld.recIdx <= s.m.ridx then LSetRidx else LAborted))
    case LSetRidx =>
      s.(m := s.m.(ridx := 0), ld := s.ld.(pc := LSetEof),
         h := s.h.(batches := s.h.batches + [Published(s)]))
    case LSetEof => s.(m := s.m.(eof := !IterValid(s)), ld := s.ld.(pc := LLockR))
    case _ => s
  }

  // Notify the reader and go round.
  function HandOverStmt(s: State): State
  {
    match s.ld.pc
    case LLockR => s.(m := s.m.(rmtx := ByLoader), ld := s.ld.(pc := LNotifyR))
    case LNotifyR => s.(rpc := if s.rpc.RAsleep? then RRelock(s.rpc.use) else s.rpc, ld := s.ld.(pc := LUnlockR))
    case LUnlockR => s.(m := s.m.(rmtx := Free), ld := s.ld.(pc := LLoop))
    case LLoop => s.(ld := s.ld.(pc := if IterValid(s) then LStart else LDone))
    case _ => s
  }

  // ---------- One statement of has_next, next or batch_fetch ----------

  function ReaderStmt(s: State): State
  {
    if s.rpc.RHas? || s.rpc.RHasEof? || s.rpc.RLockR? || s.rpc.RTest? || s.rpc.RRelock? then EnterStmt(s)
    else if s.rpc.RLockW? || s.rpc.RNotifyW? || s.rpc.RUnlockW? then LeaveStmt(s)
    else TakeStmt(s)
  }

  // The call is over.
  function Return(s: State, out: Outcome): State
  {
    s.(rpc := RIdle, h := s.h.(outcomes := s.h.outcomes + [out]))
  }

  // has_next has its answer: return it, go on with the call, or throw.
  function Decide(s: State, use: Use, answer: bool): State
  {
    if use.HasNext? then Return(s, Answer(answer))
    else if answer then s.(rpc := RLockR(use))
    else Return(s, ReadEof)
  }

  // The has_next test, and the wait for a non-empty buffer.
  function EnterStmt(s: State): State
  {
    match s.rpc
    case RHas(use, v) => if v.Empty() then s.(rpc := RHasEof(use)) else Decide(s, use, true)
    case RHasEof(use) => Decide(s, use, !s.m.eof)
    case RLockR(use) => s.(m := s.m.(rmtx := ByReader), rpc := RTest(use, BLANK))
    case RTest(use, v) =>
      s.(m := s.m.(rmtx := Free),
         rpc := if v.Empty() then RAsleep(use) else if use.Next? then RTake else RSpan)
    case RRelock(use) => s.(m := s.m.(rmtx := ByReader), rpc := RTest(use, BLANK))
    case _ => s
  }

  // Take one record, or all of the buffer.
  function TakeStmt(s: State): State
  {
    match s.rpc
    case RTake =>
      if s.m.ridx < s.m.rest
      then s.(m := s.m.(ridx := s.m.ridx + 1), rpc := RMove(s.m.buffIdx, s.m.ridx, false))
      else s.(rpc := RAborted)
    case RMove(b, i, overwritten) =>
      MoveOut(s, b, i, overwritten, RCheck(BLANK, Taken(Contents(SlotAt(s.m, b, i)))))
    case RCheck(v, out) => if v.Empty() then s.(rpc := RLockW(out)) else Return(s, out)
    case RSpan => s.(rpc := RCopy(s.m.buffIdx, s.m.ridx, s.m.rest, s.m.rest as int - s.m.ridx as int))
    case RCopy(b, k, end, ret) =>
      if k < end then MoveOut(s, b, k, false, RCopy(b, k + 1, end, ret)) else s.(rpc := RPublish(ret))
    case RPublish(ret) => s.(m := s.m.(ridx := s.m.rest), rpc := RLockW(Copied(ret)))
    case _ => s
  }

  function MoveOut(s: State, b: nat, i: nat, overwritten: bool, pc: ReaderPC): State
  {
    s.(m := WithSlot(s.m, b, i, Vacant), rpc := pc,
       h := s.h.(delivered := s.h.delivered + [Contents(SlotAt(s.m, b, i))],
                 corrupt := s.h.corrupt || overwritten))
  }

  // Notify the loader and return.
  function LeaveStmt(s: State): State
  {
    match s.rpc
    case RLockW(out) => s.(m := s.m.(wmtx := ByReader), rpc := RNotifyW(out))
    case RNotifyW(out) => s.(ld := s.ld.(pc := if s.ld.pc.LAsleep? then LRelock else s.ld.pc), rpc := RUnlockW(out))
    case RUnlockW(out) => Return(s.(m := s.m.(wmtx := Free)), out)
    case _ => s
  }

  // ---------- Steps and runs ----------

  function Apply(s: State, l: Label): State
    requires Enabled(s, l)
  {
    match l
    case Stmt(Loader) => LoaderStmt(s)
    case Stmt(Reader) => ReaderStmt(s)
    case _ => OtherStep(s, l)
  }

  function OtherStep(s: State, l: Label): State
    requires Enabled(s, l)
  {
    match l
    case LoadRidx(Loader) => s.(ld := s.ld.(pc := LTest(s.ld.pc.view.(ridx := Some(s.m.ridx)))))
    case LoadRest(Loader) => s.(ld := s.ld.(pc := LTest(s.ld.pc.view.(rest := Some(s.m.rest)))))
    case LoadRidx(Reader) => s.(rpc := s.rpc.(view := s.rpc.view.(ridx := Some(s.m.ridx))))
    case LoadRest(Reader) => s.(rpc := s.rpc.(view := s.rpc.view.(rest := Some(s.m.rest))))
    case Spurious(Loader) => s.(ld := s.ld.(pc := LRelock))
    case Spurious(Reader) => s.(rpc := RRelock(s.rpc.use))
    case Call(use) => s.(rpc := RHas(use, BLANK))
    case _ => s
  }

  // The state after a schedule, if every label of it was enabled in turn.
  function Run(s: State, ls: seq<Label>): Option<State>
    decreases |ls|
  {
    if ls == [] then Some(s)
    else if Enabled(s, ls[0]) then Run(Apply(s, ls[0]), ls[1..])
    else None
  }

  ghost predicate Reachable(s: State)
  {
    exists ls :: s.cfg.size > 0 && Run(Init(s.cfg), ls) == Some(s)
  }
}
