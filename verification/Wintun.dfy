/** The Windows adapter: enabling, disabling and using a session, as steps that any number of threads take in turn. */
module Wintun {
  import opened Bytes

  // ----- The driver -----

  /** What the adapter asks of the driver. A session is named by the number of calls made before it was started. */
  datatype DriverCall = Start(sid: nat) | Use(sid: nat) | End(sid: nat) | Close

  /** The driver has no session, runs one, or is closed for good. */
  datatype Driver = Free | Running(sid: nat) | Closed

  /** One session at a time; a handle is used and ended only while its session runs; nothing after closing. */
  function Drive(d: Driver, call: DriverCall): Option<Driver> {
    match call
    case Start(sid) => if d == Free then Some(Running(sid)) else None
    case Use(sid) => if d == Running(sid) then Some(d) else None
    case End(sid) => if d == Running(sid) then Some(Free) else None
    case Close => if d == Free then Some(Closed) else None
  }

  /** The driver after a history of calls, if all of them were proper. */
  function DriverAfter(calls: seq<DriverCall>): Option<Driver> {
    if calls == [] then Some(Free)
    else
      var before := DriverAfter(calls[..|calls| - 1]);
      if before == None then None else Drive(before.value, calls[|calls| - 1])
  }

  /** In a proper history every session is ended as often as it was started, save the one still running. */
  lemma {:induction false} EndedOnce(calls: seq<DriverCall>, sid: nat)
    requires DriverAfter(calls).Some?
    ensures multiset(calls)[End(sid)] + (if DriverAfter(calls).value == Running(sid) then 1 else 0) ==
            multiset(calls)[Start(sid)]
    ensures DriverAfter(calls).value == Closed <==> Close in calls
  {
    if calls != [] {
      var n := |calls| - 1;
      assert calls == calls[..n] + [calls[n]];
      EndedOnce(calls[..n], sid);
    }
  }

  /** Every session is named by its place in the history. */
  predicate Numbered(calls: seq<DriverCall>) {
    forall k :: 0 <= k < |calls| ==> calls[k].Start? ==> calls[k].sid == k
  }

  /** So none is started twice. */
  lemma {:induction false} StartedOnce(calls: seq<DriverCall>, sid: nat)
    requires Numbered(calls)
    ensures multiset(calls)[Start(sid)] == if sid < |calls| && calls[sid] == Start(sid) then 1 else 0
  {
    if calls != [] {
      var n := |calls| - 1;
      assert calls == calls[..n] + [calls[n]];
      StartedOnce(calls[..n], sid);
    }
  }

  // ----- Threads -----

  datatype Op = Send | Recv | Try | Wait

  datatype Call = Enable | Disable | Read(op: Op) | Drop

  datatype Ret = Fine | StartFailed | SetFailed | ResetFailed

  /** Where a thread is: outside, or in enable, disable, one of the reading calls, or drop. */
  datatype Pc = Idle | En(en: EnPc) | Di(di: DiPc) | Rd(rd: RdPc) | Dr(dr: DrPc)

  datatype EnPc =
    | EnLock | EnCheck | EnWrite | EnStart | EnEvent(sid: nat) | EnAbort(sid: nat) | EnStore(sid: nat)
    | EnFlag | EnUnwrite(ret: Ret) | EnUnlock(ret: Ret)

  datatype DiPc =
    | DiLock | DiCheck | DiClear | DiSet | DiRestore | DiWrite | DiTake | DiEnd(sid: nat) | DiUnwrite
    | DiReset | DiUnlock(ret: Ret)

  datatype RdPc =
    | RdLock(op: Op) | RdLook(op: Op) | RdTry(op: Op, sid: nat, spins: nat) | RdCheck(sid: nat)
    | RdWait(op: Op, sid: nat)
    | RdUnlock

  datatype DrPc = DrWrite | DrTake | DrUnwrite(taken: Option<nat>) | DrEnd(sid: nat) | DrClose

  /**
   What the threads share: the enabled flag, the manual-reset event, the state mutex, the read-write lock
   around the session, whether the adapter is being dropped, and the calls made to the driver.
   */
  datatype Shared = Shared(flag: bool, event: bool, mutex: Option<nat>, writer: Option<nat>, readers: set<nat>,
                           session: Option<nat>, closing: bool, calls: seq<DriverCall>)

  datatype Sys = Sys(pcs: seq<Pc>, sh: Shared)

  /**
   What the environment decides: which call to make, and how a foreign call ends. Busy: would block, or nothing
   has come.
   */
  datatype Choice = Begin(call: Call) | Good | Bad | Busy

  function Initial(threads: nat): Sys {
    Sys(seq(threads, _ => Idle), Shared(false, false, None, None, {}, None, false, []))
  }

  // ----- Steps -----

  /** Where a thread gets to, and what it leaves to the others. */
  datatype Act = Stay | Go(sh: Shared, pc: Pc)

  function StepEnable(sh: Shared, t: nat, pc: EnPc, c: Choice): Act {
    match pc
    case EnLock => if sh.mutex == None then Go(sh.(mutex := Some(t)), En(EnCheck)) else Stay
    case EnCheck => Go(sh, En(if sh.flag then EnUnlock(Fine) else EnWrite))
    case EnWrite => if sh.writer == None && sh.readers == {} then Go(sh.(writer := Some(t)), En(EnStart)) else Stay
    case EnStart =>
      if c == Good then Go(sh.(calls := sh.calls + [Start(|sh.calls|)]), En(EnEvent(|sh.calls|)))
      else Go(sh, En(EnUnwrite(StartFailed)))
    case EnEvent(sid) => Go(sh, En(if c == Good then EnStore(sid) else EnAbort(sid)))
    case EnAbort(sid) => Go(sh.(calls := sh.calls + [End(sid)]), En(EnUnwrite(StartFailed)))
    case EnStore(sid) => Go(sh.(session := Some(sid)), En(EnFlag))
    case EnFlag => Go(sh.(flag := true), En(EnUnwrite(Fine)))
    case EnUnwrite(ret) => Go(sh.(writer := None), En(EnUnlock(ret)))
    case EnUnlock(_) => Go(sh.(mutex := None), Idle)
  }

  function StepDisable(sh: Shared, t: nat, pc: DiPc, c: Choice): Act {
    match pc
    case DiLock => if sh.mutex == None then Go(sh.(mutex := Some(t)), Di(DiCheck)) else Stay
    case DiCheck => Go(sh, Di(if sh.flag then DiClear else DiUnlock(Fine)))
    case DiClear => Go(sh.(flag := false), Di(DiSet))
    case DiSet => if c == Good then Go(sh.(event := true), Di(DiWrite)) else Go(sh, Di(DiRestore))
    case DiRestore => Go(sh.(flag := true), Di(DiUnlock(SetFailed)))
    case DiWrite => if sh.writer == None && sh.readers == {} then Go(sh.(writer := Some(t)), Di(DiTake)) else Stay
    case DiTake => Go(sh.(session := None), Di(if sh.session.Some? then DiEnd(sh.session.value) else DiUnwrite))
    case DiEnd(sid) => Go(sh.(calls := sh.calls + [End(sid)]), Di(DiUnwrite))
    case DiUnwrite => Go(sh.(writer := None), Di(DiReset))
    case DiReset => if c == Good then Go(sh.(event := false), Di(DiUnlock(Fine))) else Go(sh, Di(DiUnlock(ResetFailed)))
    case DiUnlock(_) => Go(sh.(mutex := None), Idle)
  }

  /** send, recv, try_send and try_recv, and the waits: all under the read lock. */
  function StepRead(sh: Shared, t: nat, pc: RdPc, c: Choice): Act {
    match pc
    case RdLock(op) => if sh.writer == None then Go(sh.(readers := sh.readers + {t}), Rd(RdLook(op))) else Stay
    case RdLook(op) =>
      Go(sh, Rd(if sh.session == None then RdUnlock
                else if op == Wait then RdWait(op, sh.session.value) else RdTry(op, sh.session.value, 0)))
    case RdTry(op, sid, spins) =>
      Go(sh.(calls := sh.calls + [Use(sid)]),
         Rd(if c != Busy || op == Try then RdUnlock
            else if op == Send then RdCheck(sid)
            else if spins + 1 < 16 then RdTry(op, sid, spins + 1) else RdWait(op, sid)))
    case RdCheck(sid) => Go(sh, Rd(if sh.flag && c == Busy then RdTry(Send, sid, 0) else RdUnlock))
    case RdWait(op, sid) =>
      if c == Busy && !sh.event then Stay
      else Go(sh.(calls := sh.calls + [Use(sid)]), Rd(if c == Good && op == Recv then RdTry(op, sid, 0) else RdUnlock))
    case RdUnlock => Go(sh.(readers := sh.readers - {t}), Idle)
  }

  /** Dropping the adapter; the flag is left as it is. */
  function StepDrop(sh: Shared, t: nat, pc: DrPc): Act {
    match pc
    case DrWrite => if sh.writer == None && sh.readers == {} then Go(sh.(writer := Some(t)), Dr(DrTake)) else Stay
    case DrTake => Go(sh.(session := None), Dr(DrUnwrite(sh.session)))
    case DrUnwrite(taken) => Go(sh.(writer := None), Dr(if taken.Some? then DrEnd(taken.value) else DrClose))
    case DrEnd(sid) => Go(sh.(calls := sh.calls + [End(sid)]), Dr(DrClose))
    case DrClose => Go(sh.(calls := sh.calls + [Close]), Idle)
  }

  predicate AllIdle(s: Sys) {
    forall u :: 0 <= u < |s.pcs| ==> s.pcs[u] == Idle
  }

  /** A thread outside makes a call; drop needs the adapter to itself, and comes last. */
  function StepIdle(s: Sys, c: Choice): Act {
    if !c.Begin? || s.sh.closing then Stay
    else match c.call
      case Enable => Go(s.sh, En(EnLock))
      case Disable => Go(s.sh, Di(DiLock))
      case Read(op) => Go(s.sh, Rd(RdLock(op)))
      case Drop => if AllIdle(s) then Go(s.sh.(closing := true), Dr(DrWrite)) else Stay
  }

  function Step(s: Sys, t: nat, c: Choice): Act
    requires t < |s.pcs|
  {
    match s.pcs[t]
    case Idle => StepIdle(s, c)
    case En(pc) => if c.Begin? then Stay else StepEnable(s.sh, t, pc, c)
    case Di(pc) => if c.Begin? then Stay else StepDisable(s.sh, t, pc, c)
    case Rd(pc) => if c.Begin? then Stay else StepRead(s.sh, t, pc, c)
    case Dr(pc) => if c.Begin? then Stay else StepDrop(s.sh, t, pc)
  }

  /** One step of thread t, if it can take one. */
  function Next(s: Sys, t: nat, c: Choice): Option<Sys> {
    if t >= |s.pcs| then None
    else match Step(s, t, c)
      case Stay => None
      case Go(sh, pc) => Some(Sys(s.pcs[t := pc], sh))
  }

  datatype Turn = Turn(thread: nat, choice: Choice)

  /** The state after a schedule, if every turn of it can be taken. */
  function Exec(s: Sys, turns: seq<Turn>): Option<Sys>
    decreases |turns|
  {
    if turns == [] then Some(s)
    else match Next(s, turns[0].thread, turns[0].choice)
      case None => None
      case Some(s') => Exec(s', turns[1..])
  }

  lemma {:induction false} ExecConcat(s: Sys, first: seq<Turn>, second: seq<Turn>)
    requires Exec(s, first).Some?
    ensures Exec(s, first + second) == Exec(Exec(s, first).value, second)
    decreases |first|
  {
    hide Next;
    if first == [] {
      assert first + second == second;
    } else {
      assert (first + second)[1..] == first[1..] + second;
      ExecConcat(Next(s, first[0].thread, first[0].choice).value, first[1..], second);
    }
  }

  /** The last turn of a schedule is taken in the state that the others lead to. */
  lemma ExecLast(s: Sys, turns: seq<Turn>)
    requires turns != [] && Exec(s, turns).Some?
    ensures var n := |turns| - 1;
            && Exec(s, turns[..n]).Some?
            && Next(Exec(s, turns[..n]).value, turns[n].thread, turns[n].choice) == Exec(s, turns)
  {
    hide Next;
    var n := |turns| - 1;
    assert turns == turns[..n] + [turns[n]];
    ExecPrefix(s, turns[..n], [turns[n]]);
    ExecConcat(s, turns[..n], [turns[n]]);
    assert [turns[n]][1..] == [];
  }

  lemma {:induction false} ExecPrefix(s: Sys, first: seq<Turn>, second: seq<Turn>)
    requires Exec(s, first + second).Some?
    ensures Exec(s, first).Some?
    decreases |first|
  {
    hide Next;
    if first != [] {
      assert (first + second)[1..] == first[1..] + second;
      ExecPrefix(Next(s, first[0].thread, first[0].choice).value, first[1..], second);
    }
  }
}
