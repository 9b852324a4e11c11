/** What every run of the adapter keeps: locks, flag, session and driver stay in step. */
module WintunSafety {
  import opened Bytes
  import opened Wintun

  // ----- The invariant -----

  predicate HoldsMutex(pc: Pc) {
    (pc.En? && pc.en != EnLock) || (pc.Di? && pc.di != DiLock)
  }

  predicate HoldsWriter(pc: Pc) {
    match pc
    case En(e) => e.EnStart? || e.EnEvent? || e.EnAbort? || e.EnStore? || e.EnFlag? || e.EnUnwrite?
    case Di(d) => d.DiTake? || d.DiEnd? || d.DiUnwrite?
    case Dr(x) => x.DrTake? || x.DrUnwrite?
    case _ => false
  }

  predicate HoldsReader(pc: Pc) {
    pc.Rd? && !pc.rd.RdLock?
  }

  /** The session a thread has started or taken out, and has to store or end. */
  function Holds(pc: Pc): Option<nat> {
    match pc
    case En(EnEvent(sid)) => Some(sid)
    case En(EnAbort(sid)) => Some(sid)
    case En(EnStore(sid)) => Some(sid)
    case Di(DiEnd(sid)) => Some(sid)
    case Dr(DrUnwrite(taken)) => taken
    case Dr(DrEnd(sid)) => Some(sid)
    case _ => None
  }

  /** The session whose handle a thread uses. */
  function Uses(pc: Pc): Option<nat> {
    match pc
    case Rd(RdTry(_, sid, _)) => Some(sid)
    case Rd(RdCheck(sid)) => Some(sid)
    case Rd(RdWait(_, sid)) => Some(sid)
    case _ => None
  }

  predicate EnPhase(e: EnPc, sh: Shared) {
    match e
    case EnLock => true
    case EnCheck => sh.flag == sh.session.Some?
    case EnFlag => !sh.flag && sh.session.Some?
    case EnUnwrite(ret) => sh.flag == sh.session.Some? == (ret == Fine)
    case EnUnlock(ret) => sh.flag == sh.session.Some? == (ret == Fine)
    case _ => !sh.flag && sh.session == None
  }

  predicate DiPhase(d: DiPc, sh: Shared) {
    match d
    case DiLock => true
    case DiCheck => sh.flag == sh.session.Some?
    case DiClear => sh.flag && sh.session.Some?
    case DiSet => !sh.flag && sh.session.Some?
    case DiRestore => !sh.flag && sh.session.Some?
    case DiWrite => !sh.flag && sh.session.Some? && sh.event
    case DiTake => !sh.flag && sh.session.Some? && sh.event
    case DiUnlock(ret) => sh.flag == sh.session.Some? == (ret == SetFailed)
    case _ => !sh.flag && sh.session == None && sh.event
  }

  /** How flag, session and event stand while a thread is inside a call. */
  predicate Phase(pc: Pc, sh: Shared) {
    match pc
    case En(e) => EnPhase(e, sh)
    case Di(d) => DiPhase(d, sh)
    case Rd(_) => Uses(pc).Some? ==> Uses(pc) == sh.session
    case Dr(x) => x.DrWrite? || x.DrTake? || sh.session == None
    case Idle => true
  }

  /** A thread holds the locks it should. */
  predicate Locked(pc: Pc, t: nat, sh: Shared) {
    && (HoldsMutex(pc) <==> sh.mutex == Some(t))
    && (HoldsWriter(pc) <==> sh.writer == Some(t))
    && (HoldsReader(pc) <==> t in sh.readers)
  }

  /** The driver runs the session that is stored, or that a thread holds, and no other. */
  predicate Driven(pc: Pc, sh: Shared) {
    && DriverAfter(sh.calls).Some?
    && var d := DriverAfter(sh.calls).value;
    && (sh.session.Some? ==> d == Running(sh.session.value))
    && (Holds(pc).Some? ==> sh.session == None && d == Running(Holds(pc).value))
  }

  /** A thread that is alone with the locks sees the driver idle unless a session is stored or in its hands. */
  predicate Quiescent(pc: Pc, sh: Shared) {
    (HoldsMutex(pc) || pc.Dr?) && sh.session == None && Holds(pc) == None ==> DriverAfter(sh.calls) == Some(Free)
  }

  predicate ThreadOk(pc: Pc, t: nat, sh: Shared) {
    Locked(pc, t, sh) && Phase(pc, sh) && Driven(pc, sh) && Quiescent(pc, sh) && (pc.Dr? ==> sh.closing)
  }

  /** With the mutex free and nobody dropping, flag, session and driver agree; a closed adapter is idle for good. */
  predicate AtRest(sh: Shared) {
    && DriverAfter(sh.calls).Some?
    && (sh.session.Some? ==> DriverAfter(sh.calls).value == Running(sh.session.value))
    && (sh.mutex == None && !sh.closing ==>
          sh.flag == sh.session.Some?
          && DriverAfter(sh.calls).value ==
             if sh.session.Some? then Running(sh.session.value) else Free)
  }

  predicate Inv(s: Sys) {
    && (forall t :: 0 <= t < |s.pcs| ==> ThreadOk(s.pcs[t], t, s.sh))
    && AtRest(s.sh)
    && (s.sh.mutex.Some? ==> s.sh.mutex.value < |s.pcs|)
    && (s.sh.writer.Some? ==> s.sh.writer.value < |s.pcs| && s.sh.readers == {})
    && (forall t :: t in s.sh.readers ==> t < |s.pcs|)
    && (forall t :: 0 <= t < |s.pcs| && s.sh.closing ==> s.pcs[t] == Idle || s.pcs[t].Dr?)
    && (forall t, u :: 0 <= t < |s.pcs| && 0 <= u < |s.pcs| && s.pcs[t].Dr? && s.pcs[u].Dr? ==> t == u)
    && (s.sh.closing ==> DriverAfter(s.sh.calls) == Some(Closed) || exists t :: 0 <= t < |s.pcs| && s.pcs[t].Dr?)
  }

  lemma InitialInv(threads: nat)
    ensures Inv(Initial(threads))
  {
    assert DriverAfter([]) == Some(Free);
  }

  // ----- What one step does -----

  lemma Append(calls: seq<DriverCall>, call: DriverCall)
    ensures DriverAfter(calls + [call]) ==
            if DriverAfter(calls) == None then None else Drive(DriverAfter(calls).value, call)
  {
    assert (calls + [call])[..|calls|] == calls;
  }

  /** Locks are free when taken, and only their holder gives them back. */
  predicate Passed(sh: Shared, pc: Pc, t: nat, sh': Shared, pc': Pc) {
    && (if HoldsMutex(pc') then sh'.mutex == Some(t) && (HoldsMutex(pc) || sh.mutex == None)
        else sh'.mutex == if HoldsMutex(pc) then None else sh.mutex)
    && (if HoldsWriter(pc') then sh'.writer == Some(t) && (HoldsWriter(pc) || (sh.writer == None && sh.readers == {}))
        else sh'.writer == if HoldsWriter(pc) then None else sh.writer)
    && (if HoldsReader(pc') then sh'.readers == sh.readers + {t} && (HoldsReader(pc) || sh.writer == None)
        else sh'.readers == sh.readers - {t})
  }

  /** Flag and event are written under the mutex, the session under both locks. */
  predicate Guarded(sh: Shared, pc: Pc, sh': Shared) {
    && (sh'.flag != sh.flag || sh'.event != sh.event ==> HoldsMutex(pc))
    && (sh'.session != sh.session ==> HoldsWriter(pc))
  }

  /** What a step does with the locks. */
  predicate Handed(sh: Shared, pc: Pc, t: nat, a: Act) {
    a.Go? && Passed(sh, pc, t, a.sh, a.pc) && Guarded(sh, pc, a.sh) && a.sh.closing == (sh.closing || a.pc.Dr?)
  }

  /**
   What a step must keep of the state it leaves; without the mutex, and not dropping, the driver's sessions are
   left alone.
   */
  predicate Sound(sh: Shared, pc: Pc, a: Act) {
    && a.Go? && (!HoldsMutex(pc) && !pc.Dr? ==> DriverAfter(a.sh.calls) == DriverAfter(sh.calls))
    && (pc.Dr? && !a.pc.Dr? ==> DriverAfter(a.sh.calls) == Some(Closed))
    && Phase(a.pc, a.sh) && Driven(a.pc, a.sh) && Quiescent(a.pc, a.sh) && AtRest(a.sh)
  }

  lemma EnableLocks(sh: Shared, t: nat, pc: EnPc, c: Choice)
    requires Locked(En(pc), t, sh) && StepEnable(sh, t, pc, c).Go?
    ensures Handed(sh, En(pc), t, StepEnable(sh, t, pc, c))
    ensures (var pc' := StepEnable(sh, t, pc, c).pc; pc'.En? || pc' == Idle)
  {}

  lemma DisableLocks(sh: Shared, t: nat, pc: DiPc, c: Choice)
    requires Locked(Di(pc), t, sh) && StepDisable(sh, t, pc, c).Go?
    ensures Handed(sh, Di(pc), t, StepDisable(sh, t, pc, c))
    ensures (var pc' := StepDisable(sh, t, pc, c).pc; pc'.Di? || pc' == Idle)
  {}

  lemma ReadLocks(sh: Shared, t: nat, pc: RdPc, c: Choice)
    requires Locked(Rd(pc), t, sh) && StepRead(sh, t, pc, c).Go?
    ensures Handed(sh, Rd(pc), t, StepRead(sh, t, pc, c))
    ensures (var pc' := StepRead(sh, t, pc, c).pc; pc'.Rd? || pc' == Idle)
  {}

  lemma DropLocks(sh: Shared, t: nat, pc: DrPc)
    requires Locked(Dr(pc), t, sh) && sh.closing && StepDrop(sh, t, pc).Go?
    ensures Handed(sh, Dr(pc), t, StepDrop(sh, t, pc)) && (var pc' := StepDrop(sh, t, pc).pc; pc'.Dr? || pc' == Idle)
  {}

  lemma EnableSound(sh: Shared, t: nat, pc: EnPc, c: Choice)
    requires ThreadOk(En(pc), t, sh) && AtRest(sh) && !sh.closing && StepEnable(sh, t, pc, c).Go?
    ensures Sound(sh, En(pc), StepEnable(sh, t, pc, c))
  {
    hide DriverAfter, HoldsWriter, HoldsReader;
    if pc.EnStart? { Append(sh.calls, Start(|sh.calls|)); }
    if pc.EnAbort? { Append(sh.calls, End(pc.sid)); }
  }

  lemma DisableSound(sh: Shared, t: nat, pc: DiPc, c: Choice)
    requires ThreadOk(Di(pc), t, sh) && AtRest(sh) && !sh.closing && StepDisable(sh, t, pc, c).Go?
    ensures Sound(sh, Di(pc), StepDisable(sh, t, pc, c))
  {
    hide DriverAfter, HoldsWriter, HoldsReader;
    if pc.DiEnd? { Append(sh.calls, End(pc.sid)); }
  }

  lemma ReadSound(sh: Shared, t: nat, pc: RdPc, c: Choice)
    requires ThreadOk(Rd(pc), t, sh) && AtRest(sh) && !sh.closing && StepRead(sh, t, pc, c).Go?
    ensures Sound(sh, Rd(pc), StepRead(sh, t, pc, c))
  {
    hide DriverAfter, HoldsWriter, HoldsReader;
    if Uses(Rd(pc)).Some? { Append(sh.calls, Use(Uses(Rd(pc)).value)); }
  }

  lemma DropSound(sh: Shared, t: nat, pc: DrPc)
    requires ThreadOk(Dr(pc), t, sh) && AtRest(sh) && sh.closing && StepDrop(sh, t, pc).Go?
    ensures Sound(sh, Dr(pc), StepDrop(sh, t, pc))
  {
    hide DriverAfter, HoldsWriter, HoldsReader;
    if pc.DrEnd? { Append(sh.calls, End(pc.sid)); }
    if pc.DrClose? { Append(sh.calls, Close); }
  }

  lemma IdleMeansFree(s: Sys)
    requires Inv(s) && AllIdle(s)
    ensures s.sh.mutex == None && s.sh.writer == None && s.sh.readers == {}
  {
    assert forall t :: t in s.sh.readers ==> ThreadOk(s.pcs[t], t, s.sh);
    assert s.sh.mutex.Some? ==> ThreadOk(s.pcs[s.sh.mutex.value], s.sh.mutex.value, s.sh);
    assert s.sh.writer.Some? ==> ThreadOk(s.pcs[s.sh.writer.value], s.sh.writer.value, s.sh);
    hide Phase, Driven, Quiescent;
  }

  lemma IdleActs(s: Sys, t: nat, c: Choice)
    requires Inv(s) && t < |s.pcs| && s.pcs[t] == Idle && StepIdle(s, c).Go?
    ensures var a := StepIdle(s, c);
            && Handed(s.sh, Idle, t, a) && Sound(s.sh, Idle, a) && !s.sh.closing && (a.pc.Dr? ==> AllIdle(s))
  {
    assert ThreadOk(s.pcs[t], t, s.sh);
    if AllIdle(s) { IdleMeansFree(s); }
    hide DriverAfter, Inv, AllIdle;
  }

  /** Every step hands locks over properly and leaves its own thread and the driver in order. */
  lemma ThreadActs(s: Sys, t: nat, c: Choice)
    requires Inv(s) && t < |s.pcs| && Step(s, t, c).Go?
    ensures var a := Step(s, t, c);
            && Handed(s.sh, s.pcs[t], t, a) && Sound(s.sh, s.pcs[t], a)
            && (s.pcs[t] == Idle ==> !s.sh.closing) && (a.pc.Dr? ==> s.pcs[t].Dr? || AllIdle(s))
  {
    hide Handed, Sound, ThreadOk, AtRest, StepIdle, StepEnable, StepDisable, StepRead, StepDrop;
    assert ThreadOk(s.pcs[t], t, s.sh);
    assert Locked(s.pcs[t], t, s.sh) && (s.pcs[t].Dr? ==> s.sh.closing) by { ThreadParts(s.pcs[t], t, s.sh); }
    match s.pcs[t] {
      case Idle => IdleActs(s, t, c);
      case En(pc) => EnableLocks(s.sh, t, pc, c); EnableSound(s.sh, t, pc, c);
      case Di(pc) => DisableLocks(s.sh, t, pc, c); DisableSound(s.sh, t, pc, c);
      case Rd(pc) => ReadLocks(s.sh, t, pc, c); ReadSound(s.sh, t, pc, c);
      case Dr(pc) => DropLocks(s.sh, t, pc); DropSound(s.sh, t, pc);
    }
  }

  lemma ThreadParts(pc: Pc, t: nat, sh: Shared)
    requires ThreadOk(pc, t, sh)
    ensures Locked(pc, t, sh) && (pc.Dr? ==> sh.closing)
  {}

  /** A thread's place tells what it may hold. */
  lemma Places(pc: Pc)
    ensures HoldsWriter(pc) ==> HoldsMutex(pc) || pc.Dr?
    ensures Holds(pc).Some? ==> HoldsMutex(pc) || pc.Dr?
    ensures Uses(pc).Some? ==> HoldsReader(pc)
    ensures HoldsMutex(pc) || pc.Dr? || pc.Rd? || pc == Idle || pc == En(EnLock) || pc == Di(DiLock)
    ensures HoldsMutex(pc) ==> !pc.Dr? && pc != Idle
  {}

  /** Another thread's step leaves a thread in order. */
  lemma OthersKept(sh: Shared, pc: Pc, t: nat, a: Act, other: Pc, u: nat)
    requires t != u && ThreadOk(pc, t, sh) && ThreadOk(other, u, sh)
    requires Handed(sh, pc, t, a) && Sound(sh, pc, a)
    requires sh.writer.Some? ==> sh.readers == {}
    requires !other.Dr? && (pc.Dr? ==> other == Idle)
    ensures ThreadOk(other, u, a.sh)
  {
  }

  /** When t can step, every other thread is clear of dropping, and idle if t is dropping. */
  lemma Company(s: Sys, t: nat, u: nat, c: Choice)
    requires Inv(s) && t < |s.pcs| && u < |s.pcs| && t != u && Step(s, t, c).Go?
    ensures !s.pcs[u].Dr? && (s.pcs[t].Dr? ==> s.pcs[u] == Idle)
    ensures Step(s, t, c).pc.Dr? ==> s.pcs[u] == Idle
  {
    ThreadActs(s, t, c);
    ThreadParts(s.pcs[t], t, s.sh);
    ThreadParts(s.pcs[u], u, s.sh);
    hide Step, Handed, Sound, ThreadOk, AtRest;
  }

  /** Every step of every thread keeps the invariant. */
  lemma NextKeepsInv(s: Sys, t: nat, c: Choice)
    requires Inv(s) && Next(s, t, c).Some?
    ensures Inv(Next(s, t, c).value)
  {
    var s', a := Next(s, t, c).value, Step(s, t, c);
    ThreadActs(s, t, c);
    hide Step, ThreadOk;
    forall u | 0 <= u < |s.pcs| ensures ThreadOk(s'.pcs[u], u, s'.sh) {
      if u == t {
        OwnKept(s.sh, s.pcs[t], t, a);
      } else {
        Company(s, t, u, c);
        OthersKept(s.sh, s.pcs[t], t, a, s.pcs[u], u);
      }
    }
    ClosingKept(s, t, c);
    ClosedAfter(s, t, c);
    LocksRange(s.sh, s.pcs[t], t, a, |s.pcs|);
  }

  lemma OwnKept(sh: Shared, pc: Pc, t: nat, a: Act)
    requires ThreadOk(pc, t, sh) && Handed(sh, pc, t, a) && Sound(sh, pc, a)
    requires sh.writer.Some? ==> sh.readers == {}
    ensures ThreadOk(a.pc, t, a.sh)
  {
    hide Phase, Driven, Quiescent, DriverAfter, AtRest;
  }

  lemma ClosingKept(s: Sys, t: nat, c: Choice)
    requires Inv(s) && Next(s, t, c).Some?
    ensures var s' := Next(s, t, c).value;
            && (forall u :: 0 <= u < |s'.pcs| && s'.sh.closing ==> s'.pcs[u] == Idle || s'.pcs[u].Dr?)
            && (forall u, v :: 0 <= u < |s'.pcs| && 0 <= v < |s'.pcs| && s'.pcs[u].Dr? && s'.pcs[v].Dr? ==> u == v)
  {
    ThreadActs(s, t, c);
    var s' := Next(s, t, c).value;
    forall u | 0 <= u < |s.pcs| && u != t ensures !s'.pcs[u].Dr? && (s'.sh.closing ==> s'.pcs[u] == Idle) {
      Company(s, t, u, c);
      ClosingShared(s.sh, s.pcs[t], t, Step(s, t, c));
    }
    ClosingOwn(s, t, c);
  }

  lemma ClosedAfter(s: Sys, t: nat, c: Choice)
    requires Inv(s) && Next(s, t, c).Some?
    ensures var s' := Next(s, t, c).value;
            s'.sh.closing ==> DriverAfter(s'.sh.calls) == Some(Closed) || exists u :: 0 <= u < |s'.pcs| && s'.pcs[u].Dr?
  {
    ThreadActs(s, t, c);
    ClosingShared(s.sh, s.pcs[t], t, Step(s, t, c));
    hide Step, ThreadOk, AtRest, Handed, Phase, Driven, Quiescent, DriverAfter;
    var s' := Next(s, t, c).value;
    assert s'.sh.closing && !s'.pcs[t].Dr? ==> s.pcs[t].Dr?;
  }

  lemma ClosingShared(sh: Shared, pc: Pc, t: nat, a: Act)
    requires Handed(sh, pc, t, a)
    ensures a.sh.closing == (sh.closing || a.pc.Dr?)
  {}

  lemma ClosingOwn(s: Sys, t: nat, c: Choice)
    requires Inv(s) && t < |s.pcs| && Step(s, t, c).Go?
    ensures Step(s, t, c).sh.closing ==> Step(s, t, c).pc == Idle || Step(s, t, c).pc.Dr?
  {
    ThreadActs(s, t, c);
    ClosingShared(s.sh, s.pcs[t], t, Step(s, t, c));
    hide Inv, Handed, Sound;
  }

  lemma LocksRange(sh: Shared, pc: Pc, t: nat, a: Act, n: nat)
    requires Handed(sh, pc, t, a) && t < n && Locked(pc, t, sh)
    requires (sh.mutex.Some? ==> sh.mutex.value < n) && (sh.writer.Some? ==> sh.writer.value < n && sh.readers == {})
    requires forall u :: u in sh.readers ==> u < n
    ensures (a.sh.mutex.Some? ==> a.sh.mutex.value < n)
    ensures (a.sh.writer.Some? ==> a.sh.writer.value < n && a.sh.readers == {})
    ensures forall u :: u in a.sh.readers ==> u < n
  {}

  // ----- What holds of every run -----

  /** Every run keeps the invariant, whatever the number of threads and however they interleave. */
  lemma {:induction false} RunKeepsInv(s: Sys, turns: seq<Turn>)
    requires Inv(s) && Exec(s, turns).Some?
    ensures Inv(Exec(s, turns).value)
    decreases |turns|
  {
    hide Inv, Next;
    if turns != [] {
      NextKeepsInv(s, turns[0].thread, turns[0].choice);
      RunKeepsInv(Next(s, turns[0].thread, turns[0].choice).value, turns[1..]);
    }
  }

  ghost predicate Reachable(s: Sys) {
    exists threads, turns :: Exec(Initial(threads), turns) == Some(s)
  }

  lemma ReachableInv(s: Sys)
    requires Reachable(s)
    ensures Inv(s)
  {
    hide Inv, Exec;
    var threads, turns :| Exec(Initial(threads), turns) == Some(s);
    InitialInv(threads);
    RunKeepsInv(Initial(threads), turns);
  }

  /**
   Whenever the state mutex is free and the adapter is not being dropped, it is enabled exactly if it has
   a session; and what enable and disable are about to return tells which.
   */
  lemma EnabledIffSession(s: Sys)
    requires Reachable(s)
    ensures s.sh.mutex == None && !s.sh.closing ==> (s.sh.flag <==> s.sh.session.Some?)
    ensures forall t, ret :: 0 <= t < |s.pcs| && s.pcs[t] == En(EnUnlock(ret)) ==>
              if ret == Fine then s.sh.flag && s.sh.session.Some? else !s.sh.flag && s.sh.session == None
    ensures forall t, ret :: 0 <= t < |s.pcs| && s.pcs[t] == Di(DiUnlock(ret)) ==>
              if ret == SetFailed then s.sh.flag && s.sh.session.Some? else !s.sh.flag && s.sh.session == None
  {
    ReachableInv(s);
    hide DriverAfter, Locked, Driven, Quiescent, HoldsMutex;
    forall t, ret | 0 <= t < |s.pcs| && s.pcs[t] == En(EnUnlock(ret))
      ensures if ret == Fine then s.sh.flag && s.sh.session.Some? else !s.sh.flag && s.sh.session == None
    {
      assert ThreadOk(s.pcs[t], t, s.sh);
    }
    forall t, ret | 0 <= t < |s.pcs| && s.pcs[t] == Di(DiUnlock(ret))
      ensures if ret == SetFailed then s.sh.flag && s.sh.session.Some? else !s.sh.flag && s.sh.session == None
    {
      assert ThreadOk(s.pcs[t], t, s.sh);
    }
  }

  /** A step makes at most one call to the driver, and starts a session under the next number only. */
  predicate Numbers(sh: Shared, a: Act) {
    var n := |sh.calls|;
    a.Go? ==> && n <= |a.sh.calls| <= n + 1 && a.sh.calls[..n] == sh.calls
              && (n < |a.sh.calls| && a.sh.calls[n].Start? ==> a.sh.calls[n].sid == n)
  }

  lemma StepNumbers(s: Sys, t: nat, c: Choice)
    requires t < |s.pcs|
    ensures Numbers(s.sh, Step(s, t, c))
  {
    hide Numbers, StepEnable, StepDisable, StepRead, StepDrop;
    match s.pcs[t] {
      case Idle => IdleNumbers(s, c);
      case En(pc) => EnableNumbers(s.sh, t, pc, c);
      case Di(pc) => DisableNumbers(s.sh, t, pc, c);
      case Rd(pc) => ReadNumbers(s.sh, t, pc, c);
      case Dr(pc) => DropNumbers(s.sh, t, pc);
    }
    NumbersStay(s.sh);
  }

  lemma NumbersStay(sh: Shared)
    ensures Numbers(sh, Stay)
  {}

  lemma IdleNumbers(s: Sys, c: Choice)
    ensures Numbers(s.sh, StepIdle(s, c))
  {
    hide AllIdle;
  }

  lemma EnableNumbers(sh: Shared, t: nat, pc: EnPc, c: Choice)
    ensures Numbers(sh, StepEnable(sh, t, pc, c))
  {}

  lemma DisableNumbers(sh: Shared, t: nat, pc: DiPc, c: Choice)
    ensures Numbers(sh, StepDisable(sh, t, pc, c))
  {}

  lemma ReadNumbers(sh: Shared, t: nat, pc: RdPc, c: Choice)
    ensures Numbers(sh, StepRead(sh, t, pc, c))
  {}

  lemma DropNumbers(sh: Shared, t: nat, pc: DrPc)
    ensures Numbers(sh, StepDrop(sh, t, pc))
  {}

  lemma {:induction false} RunKeepsNumbers(s: Sys, turns: seq<Turn>)
    requires Numbered(s.sh.calls) && Exec(s, turns).Some?
    ensures Numbered(Exec(s, turns).value.sh.calls)
    decreases |turns|
  {
    hide Step;
    if turns != [] {
      var t, c := turns[0].thread, turns[0].choice;
      StepNumbers(s, t, c);
      RunKeepsNumbers(Next(s, t, c).value, turns[1..]);
    }
  }

  lemma ReachableNumbered(s: Sys)
    requires Reachable(s)
    ensures Numbered(s.sh.calls)
  {
    hide Exec;
    var threads, turns :| Exec(Initial(threads), turns) == Some(s);
    RunKeepsNumbers(Initial(threads), turns);
  }

  /**
   The driver is only ever asked what it can do: one session at a time, each started and ended at most once and,
   when all threads are outside and none is stored, exactly once; no handle used before or after; nothing after
   closing.
   */
  lemma SessionsEndOnce(s: Sys, sid: nat)
    requires Reachable(s)
    ensures DriverAfter(s.sh.calls).Some?
    ensures var started, ended := multiset(s.sh.calls)[Start(sid)], multiset(s.sh.calls)[End(sid)];
            && ended <= started <= 1
            && (s.sh.session == Some(sid) ==> started == ended + 1)
            && (AllIdle(s) && s.sh.session != Some(sid) ==> ended == started)
            && (Close in s.sh.calls ==> ended == started)
  {
    ReachableInv(s);
    EndedOnce(s.sh.calls, sid);
    ReachableNumbered(s);
    StartedOnce(s.sh.calls, sid);
    if AllIdle(s) { IdleMeansFree(s); }
    hide DriverAfter, ThreadOk;
  }

  // ----- Handles in use -----

  predicate Unused(s: Sys) {
    forall u :: 0 <= u < |s.pcs| ==> Uses(s.pcs[u]) == None
  }

  lemma NoSessionNoUse(s: Sys)
    requires Inv(s) && s.sh.session == None
    ensures Unused(s)
  {
    hide Locked, Driven, Quiescent, EnPhase, DiPhase;
    forall u | 0 <= u < |s.pcs| ensures Uses(s.pcs[u]) == None {
      assert ThreadOk(s.pcs[u], u, s.sh);
    }
  }

  /** The step ends a session, closes the adapter, or resets the event. */
  predicate Ending(sh: Shared, sh': Shared) {
    || (|sh'.calls| > |sh.calls| && (sh'.calls[|sh.calls|].End? || sh'.calls[|sh.calls|] == Close))
    || (sh.event && !sh'.event)
  }

  /** A session is ended, the event reset and the adapter closed only when no thread uses a session's handle. */
  lemma EndsUnused(s: Sys, t: nat, c: Choice)
    requires Reachable(s) && Next(s, t, c).Some?
    ensures Ending(s.sh, Next(s, t, c).value.sh) ==> Unused(s)
  {
    ReachableInv(s);
    assert ThreadOk(s.pcs[t], t, s.sh);
    EnderSeesNone(s, t, c);
    if s.sh.session == None { NoSessionNoUse(s); }
    hide Step, ThreadOk, Unused, Ending;
  }

  lemma EnderSeesNone(s: Sys, t: nat, c: Choice)
    requires t < |s.pcs| && ThreadOk(s.pcs[t], t, s.sh) && Step(s, t, c).Go?
    ensures Ending(s.sh, Step(s, t, c).sh) ==> s.sh.session == None
  {
    hide StepEnable, StepDisable, StepRead, StepDrop, ThreadOk;
    match s.pcs[t] {
      case Idle =>
      case En(pc) => EnableEnds(s.sh, t, pc, c);
      case Di(pc) => DisableEnds(s.sh, t, pc, c);
      case Rd(pc) => ReadEnds(s.sh, t, pc, c);
      case Dr(pc) => DropEnds(s.sh, t, pc);
    }
  }

  lemma EnableEnds(sh: Shared, t: nat, pc: EnPc, c: Choice)
    requires ThreadOk(En(pc), t, sh) && StepEnable(sh, t, pc, c).Go?
    ensures Ending(sh, StepEnable(sh, t, pc, c).sh) ==> sh.session == None
  {
    hide DriverAfter, Quiescent, Locked, Driven;
  }

  lemma DisableEnds(sh: Shared, t: nat, pc: DiPc, c: Choice)
    requires ThreadOk(Di(pc), t, sh) && StepDisable(sh, t, pc, c).Go?
    ensures Ending(sh, StepDisable(sh, t, pc, c).sh) ==> sh.session == None
  {
    hide DriverAfter, Quiescent, Locked, Driven;
  }

  lemma ReadEnds(sh: Shared, t: nat, pc: RdPc, c: Choice)
    requires StepRead(sh, t, pc, c).Go?
    ensures !Ending(sh, StepRead(sh, t, pc, c).sh)
  {}

  lemma DropEnds(sh: Shared, t: nat, pc: DrPc)
    requires ThreadOk(Dr(pc), t, sh) && StepDrop(sh, t, pc).Go?
    ensures Ending(sh, StepDrop(sh, t, pc).sh) ==> sh.session == None
  {
    hide DriverAfter, Quiescent, Locked, Driven;
  }
}
