/** What a call on the adapter comes to when nobody disturbs it, and when it fails among other threads. */
module WintunCalls {
  import opened Bytes
  import opened Wintun
  import opened WintunSafety

  // ----- One thread on its own -----

  /** s with thread t at pc, and sh shared. */
  function At(s: Sys, t: nat, pc: Pc, sh: Shared): Sys
    requires t < |s.pcs|
  {
    Sys(s.pcs[t := pc], sh)
  }

  /** The next n steps are all of thread t; the answer of the environment depends on where it is. */
  function Alone(s: Sys, t: nat, answer: Pc -> Choice, n: nat): Option<Sys>
    decreases n
  {
    if n == 0 then Some(s)
    else if t >= |s.pcs| then None
    else match Next(s, t, answer(s.pcs[t]))
      case None => None
      case Some(s') => Alone(s', t, answer, n - 1)
  }

  /** That is one of the schedules. */
  lemma {:induction false} AloneIsRun(s: Sys, t: nat, answer: Pc -> Choice, n: nat) returns (turns: seq<Turn>)
    requires Alone(s, t, answer, n).Some?
    ensures |turns| == n && (forall k :: 0 <= k < n ==> turns[k].thread == t)
    ensures Exec(s, turns) == Alone(s, t, answer, n)
    decreases n
  {
    hide Next;
    turns := [];
    if n > 0 {
      var c := answer(s.pcs[t]);
      var rest := AloneIsRun(Next(s, t, c).value, t, answer, n - 1);
      turns := [Turn(t, c)] + rest;
      assert turns[1..] == rest;
    }
  }

  /** A step of a thread that is inside a call looks at what is shared only. */
  function Inside(sh: Shared, t: nat, pc: Pc, c: Choice): Act
    requires pc != Idle && !c.Begin?
  {
    match pc
    case En(e) => StepEnable(sh, t, e, c)
    case Di(d) => StepDisable(sh, t, d, c)
    case Rd(r) => StepRead(sh, t, r, c)
    case Dr(x) => StepDrop(sh, t, x)
  }

  lemma Onward(s: Sys, t: nat, pc: Pc, sh: Shared, answer: Pc -> Choice, n: nat)
    requires t < |s.pcs| && pc != Idle && !answer(pc).Begin? && Inside(sh, t, pc, answer(pc)).Go? && n > 0
    ensures var a := Inside(sh, t, pc, answer(pc));
            Alone(At(s, t, pc, sh), t, answer, n) == Alone(At(s, t, a.pc, a.sh), t, answer, n - 1)
  {
    hide StepEnable, StepDisable, StepRead, StepDrop;
    var a, here := Inside(sh, t, pc, answer(pc)), At(s, t, pc, sh);
    assert here.pcs[t := a.pc] == s.pcs[t := a.pc];
    assert Next(here, t, answer(pc)) == Some(At(s, t, a.pc, a.sh));
  }

  /** The locks are nobody's. */
  predicate LocksFree(sh: Shared) {
    sh.mutex == None && sh.writer == None && sh.readers == {}
  }

  /** The environment answers; it does not make calls. */
  ghost predicate Answers(answer: Pc -> Choice) {
    forall pc :: !answer(pc).Begin?
  }

  // ----- Enable -----

  /** What is shared after a call of enable that nobody disturbs, and the number of its steps. */
  function AfterEnable(sh: Shared, answer: Pc -> Choice): (Shared, nat) {
    var n := |sh.calls|;
    if sh.flag then (sh, 3)
    else if answer(En(EnStart)) != Good then (sh, 6)
    else if answer(En(EnEvent(n))) != Good then (sh.(calls := sh.calls + [Start(n), End(n)]), 8)
    else (sh.(flag := true, session := Some(n), calls := sh.calls + [Start(n)]), 9)
  }

  /**
   Undisturbed, enable returns: an enabled adapter is left as it is; a disabled one gets one new session and is
   enabled, unless the driver gives no session, which changes nothing, or no event, and then the session is ended.
   */
  lemma EnableAlone(s: Sys, t: nat, answer: Pc -> Choice)
    requires t < |s.pcs| && s.pcs[t] == En(EnLock) && LocksFree(s.sh) && Answers(answer)
    ensures var (sh', n) := AfterEnable(s.sh, answer);
            Alone(s, t, answer, n) == Some(At(s, t, Idle, sh'))
  {
    hide Alone;
    var sh, n := s.sh, AfterEnable(s.sh, answer).1;
    var held := sh.(mutex := Some(t));
    assert At(s, t, En(EnLock), sh) == s;
    Onward(s, t, En(EnLock), sh, answer, n);
    Onward(s, t, En(EnCheck), held, answer, n - 1);
    if sh.flag {
      Onward(s, t, En(EnUnlock(Fine)), held, answer, 1);
      Arrived(At(s, t, Idle, sh), t, answer);
    } else {
      Onward(s, t, En(EnWrite), held, answer, n - 2);
      EnableStarts(s, t, sh, answer);
    }
  }

  lemma Arrived(s: Sys, t: nat, answer: Pc -> Choice)
    ensures Alone(s, t, answer, 0) == Some(s)
  {}

  lemma EnableStarts(s: Sys, t: nat, sh: Shared, answer: Pc -> Choice)
    requires t < |s.pcs| && LocksFree(sh) && !sh.flag && Answers(answer)
    ensures var (sh', n) := AfterEnable(sh, answer);
            Alone(At(s, t, En(EnStart), sh.(mutex := Some(t), writer := Some(t))), t, answer, n - 3) ==
            Some(At(s, t, Idle, sh'))
  {
    hide Alone;
    var n, both := |sh.calls|, sh.(mutex := Some(t), writer := Some(t));
    if answer(En(EnStart)) != Good {
      Onward(s, t, En(EnStart), both, answer, 3);
      EnableLeaves(s, t, both, StartFailed, answer);
    } else {
      var begun := both.(calls := both.calls + [Start(n)]);
      if answer(En(EnEvent(n))) != Good {
        Onward(s, t, En(EnStart), both, answer, 5);
        Onward(s, t, En(EnEvent(n)), begun, answer, 4);
        Onward(s, t, En(EnAbort(n)), begun, answer, 3);
        assert begun.calls + [End(n)] == sh.calls + [Start(n), End(n)];
        EnableLeaves(s, t, begun.(calls := begun.calls + [End(n)]), StartFailed, answer);
      } else {
        Onward(s, t, En(EnStart), both, answer, 6);
        Onward(s, t, En(EnEvent(n)), begun, answer, 5);
        Onward(s, t, En(EnStore(n)), begun, answer, 4);
        Onward(s, t, En(EnFlag), begun.(session := Some(n)), answer, 3);
        EnableLeaves(s, t, begun.(session := Some(n), flag := true), Fine, answer);
      }
    }
  }

  lemma EnableLeaves(s: Sys, t: nat, sh: Shared, ret: Ret, answer: Pc -> Choice)
    requires t < |s.pcs| && Answers(answer)
    ensures Alone(At(s, t, En(EnUnwrite(ret)), sh), t, answer, 2) ==
            Some(At(s, t, Idle, sh.(mutex := None, writer := None)))
  {
    hide Alone;
    Onward(s, t, En(EnUnwrite(ret)), sh, answer, 2);
    Onward(s, t, En(EnUnlock(ret)), sh.(writer := None), answer, 1);
    Arrived(At(s, t, Idle, sh.(mutex := None, writer := None)), t, answer);
  }

  // ----- Disable -----

  /** What is shared after a call of disable that nobody disturbs, and the number of its steps. */
  function AfterDisable(sh: Shared, answer: Pc -> Choice): (Shared, nat) {
    if !sh.flag then (sh, 3)
    else if answer(Di(DiSet)) != Good then (sh, 6)
    else (sh.(flag := false, session := None, event := answer(Di(DiReset)) != Good,
              calls := if sh.session == None then sh.calls else sh.calls + [End(sh.session.value)]),
          if sh.session == None then 9 else 10)
  }

  /**
   Undisturbed, disable returns: a disabled adapter is left as it is, and so is an enabled one whose event cannot be
   set; otherwise the session is ended and gone, the flag is clear, and so is the event unless it cannot be reset.
   */
  lemma DisableAlone(s: Sys, t: nat, answer: Pc -> Choice)
    requires t < |s.pcs| && s.pcs[t] == Di(DiLock) && LocksFree(s.sh) && Answers(answer)
    ensures var (sh', n) := AfterDisable(s.sh, answer);
            Alone(s, t, answer, n) == Some(At(s, t, Idle, sh'))
  {
    hide Alone;
    var sh, n := s.sh, AfterDisable(s.sh, answer).1;
    var held := sh.(mutex := Some(t));
    assert At(s, t, Di(DiLock), sh) == s;
    Onward(s, t, Di(DiLock), sh, answer, n);
    Onward(s, t, Di(DiCheck), held, answer, n - 1);
    if !sh.flag {
      Onward(s, t, Di(DiUnlock(Fine)), held, answer, 1);
      Arrived(At(s, t, Idle, sh), t, answer);
    } else {
      var off := held.(flag := false);
      Onward(s, t, Di(DiClear), held, answer, n - 2);
      Onward(s, t, Di(DiSet), off, answer, n - 3);
      if answer(Di(DiSet)) != Good {
        Onward(s, t, Di(DiRestore), off, answer, 2);
        Onward(s, t, Di(DiUnlock(SetFailed)), held, answer, 1);
        Arrived(At(s, t, Idle, sh), t, answer);
      } else {
        Onward(s, t, Di(DiWrite), off.(event := true), answer, n - 4);
        Onward(s, t, Di(DiTake), off.(event := true, writer := Some(t)), answer, n - 5);
        DisableTakes(s, t, off.(event := true, writer := Some(t), session := None), sh.session, answer);
      }
    }
  }

  lemma DisableTakes(s: Sys, t: nat, sh: Shared, taken: Option<nat>, answer: Pc -> Choice)
    requires t < |s.pcs| && sh.event && Answers(answer)
    ensures var pc := if taken == None then DiUnwrite else DiEnd(taken.value);
            var calls := if taken == None then sh.calls else sh.calls + [End(taken.value)];
            Alone(At(s, t, Di(pc), sh), t, answer, if taken == None then 3 else 4) ==
            Some(At(s, t, Idle, sh.(mutex := None, writer := None, event := answer(Di(DiReset)) != Good,
                                    calls := calls)))
  {
    hide Alone;
    var done := if taken == None then sh else sh.(calls := sh.calls + [End(taken.value)]);
    var free := done.(writer := None);
    if taken.Some? { Onward(s, t, Di(DiEnd(taken.value)), sh, answer, 4); }
    Onward(s, t, Di(DiUnwrite), done, answer, 3);
    Onward(s, t, Di(DiReset), free, answer, 2);
    if answer(Di(DiReset)) == Good {
      Onward(s, t, Di(DiUnlock(Fine)), free.(event := false), answer, 1);
      Arrived(At(s, t, Idle, free.(event := false, mutex := None)), t, answer);
    } else {
      Onward(s, t, Di(DiUnlock(ResetFailed)), free, answer, 1);
      Arrived(At(s, t, Idle, free.(mutex := None)), t, answer);
    }
  }

  // ----- Drop -----

  /** What is shared after the adapter has been dropped, and the number of steps that takes. */
  function AfterDrop(sh: Shared): (Shared, nat) {
    var ended := if sh.session == None then [] else [End(sh.session.value)];
    (sh.(session := None, calls := sh.calls + ended + [Close]), if sh.session == None then 4 else 5)
  }

  /** Dropping an adapter that nobody uses ends its session, if it has one, and closes it; nothing can fail. */
  lemma DropAlone(s: Sys, t: nat, answer: Pc -> Choice)
    requires t < |s.pcs| && s.pcs[t] == Dr(DrWrite) && LocksFree(s.sh) && Answers(answer)
    ensures var (sh', n) := AfterDrop(s.sh);
            Alone(s, t, answer, n) == Some(At(s, t, Idle, sh'))
  {
    hide Alone;
    var sh, n := s.sh, AfterDrop(s.sh).1;
    var bare := sh.(session := None);
    assert At(s, t, Dr(DrWrite), sh) == s;
    Onward(s, t, Dr(DrWrite), sh, answer, n);
    Onward(s, t, Dr(DrTake), sh.(writer := Some(t)), answer, n - 1);
    Onward(s, t, Dr(DrUnwrite(sh.session)), bare.(writer := Some(t)), answer, n - 2);
    if sh.session.Some? {
      Onward(s, t, Dr(DrEnd(sh.session.value)), bare, answer, 2);
      Onward(s, t, Dr(DrClose), bare.(calls := sh.calls + [End(sh.session.value)]), answer, 1);
    } else {
      assert sh.calls + [] == sh.calls;
      Onward(s, t, Dr(DrClose), bare, answer, 1);
    }
    Arrived(At(s, t, Idle, AfterDrop(sh).0), t, answer);
  }

  // ----- Reading and sending -----

  /**
   Undisturbed, a call that finds no session leaves everything as it was; one that finds a session uses it, and
   returns after one use if it is not to block, or gets what it came for.
   */
  lemma ReadAlone(s: Sys, t: nat, op: Op, answer: Pc -> Choice)
    requires t < |s.pcs| && s.pcs[t] == Rd(RdLock(op)) && s.sh.writer == None && t !in s.sh.readers && Answers(answer)
    ensures s.sh.session == None ==> Alone(s, t, answer, 3) == Some(At(s, t, Idle, s.sh))
    ensures s.sh.session.Some? ==>
              var sid := s.sh.session.value;
              var first := Rd(if op == Wait then RdWait(op, sid) else RdTry(op, sid, 0));
              op == Try || answer(first) != Busy ==>
                Alone(s, t, answer, 4) == Some(At(s, t, Idle, s.sh.(calls := s.sh.calls + [Use(sid)])))
  {
    hide Alone;
    var sh := s.sh;
    var held := sh.(readers := sh.readers + {t});
    assert held.readers - {t} == sh.readers;
    assert At(s, t, Rd(RdLock(op)), sh) == s;
    var n := if sh.session == None then 3 else 4;
    Onward(s, t, Rd(RdLock(op)), sh, answer, n);
    Onward(s, t, Rd(RdLook(op)), held, answer, n - 1);
    if sh.session == None {
      ReadLeaves(s, t, held, answer);
    } else {
      var sid := sh.session.value;
      var first := Rd(if op == Wait then RdWait(op, sid) else RdTry(op, sid, 0));
      if op == Try || answer(first) != Busy {
        Onward(s, t, first, held, answer, 2);
        ReadLeaves(s, t, held.(calls := sh.calls + [Use(sid)]), answer);
      }
    }
  }

  lemma ReadLeaves(s: Sys, t: nat, sh: Shared, answer: Pc -> Choice)
    requires t < |s.pcs| && Answers(answer)
    ensures Alone(At(s, t, Rd(RdUnlock), sh), t, answer, 1) ==
            Some(At(s, t, Idle, sh.(readers := sh.readers - {t})))
  {
    hide Alone;
    Onward(s, t, Rd(RdUnlock), sh, answer, 1);
    Arrived(At(s, t, Idle, sh.(readers := sh.readers - {t})), t, answer);
  }

  /** Every call starts by waiting for its lock; drop is the last, and needs the adapter to itself. */
  lemma Begins(s: Sys, t: nat, call: Call)
    requires t < |s.pcs| && s.pcs[t] == Idle && !s.sh.closing
    ensures Next(s, t, Begin(call)) ==
            match call
            case Enable => Some(At(s, t, En(EnLock), s.sh))
            case Disable => Some(At(s, t, Di(DiLock), s.sh))
            case Read(op) => Some(At(s, t, Rd(RdLock(op)), s.sh))
            case Drop => if AllIdle(s) then Some(At(s, t, Dr(DrWrite), s.sh.(closing := true))) else None
  {}

  /** n uses of a session. */
  function UsedTimes(sid: nat, n: nat): (calls: seq<DriverCall>)
    ensures |calls| == n
  {
    seq(n, _ => Use(sid))
  }

  /** Recv looks at the ring 16 times before it waits. */
  lemma {:induction false} RecvSpins(s: Sys, t: nat, sh: Shared, sid: nat, spins: nat, answer: Pc -> Choice)
    requires t < |s.pcs| && spins < 16 && forall k: nat :: answer(Rd(RdTry(Recv, sid, k))) == Busy
    ensures Alone(At(s, t, Rd(RdTry(Recv, sid, spins)), sh), t, answer, 16 - spins) ==
            Some(At(s, t, Rd(RdWait(Recv, sid)), sh.(calls := sh.calls + UsedTimes(sid, 16 - spins))))
    decreases 16 - spins
  {
    hide Alone;
    var used := sh.(calls := sh.calls + [Use(sid)]);
    Onward(s, t, Rd(RdTry(Recv, sid, spins)), sh, answer, 16 - spins);
    assert [Use(sid)] + UsedTimes(sid, 15 - spins) == UsedTimes(sid, 16 - spins);
    assert used.calls + UsedTimes(sid, 15 - spins) == sh.calls + UsedTimes(sid, 16 - spins);
    if spins + 1 < 16 {
      RecvSpins(s, t, used, sid, spins + 1, answer);
    } else {
      assert used.calls + UsedTimes(sid, 0) == used.calls;
      Arrived(At(s, t, Rd(RdWait(Recv, sid)), used), t, answer);
    }
  }

  // ----- Failures, among other threads -----

  /** The thread is on its way out with ret. */
  predicate Failing(pc: Pc, ret: Ret) {
    match ret
    case Fine => false
    case StartFailed => pc.En? && (pc.en.EnAbort? || pc.en == EnUnwrite(ret) || pc.en == EnUnlock(ret))
    case SetFailed => pc == Di(DiRestore) || pc == Di(DiUnlock(ret))
    case ResetFailed => pc == Di(DiUnlock(ret))
  }

  /** The thread asks for what may fail with ret. */
  predicate Asking(pc: Pc, ret: Ret) {
    match ret
    case Fine => false
    case StartFailed => pc.En? && (pc.en.EnStart? || pc.en.EnEvent?)
    case SetFailed => pc == Di(DiSet)
    case ResetFailed => pc == Di(DiReset)
  }

  /** A step fails exactly when it asks and is not answered well. */
  lemma FailsIff(s: Sys, t: nat, c: Choice, ret: Ret)
    requires Next(s, t, c).Some?
    ensures var pc, pc' := s.pcs[t], Next(s, t, c).value.pcs[t];
            && (!Failing(pc, ret) ==> (Failing(pc', ret) <==> Asking(pc, ret) && c != Good))
            && (Failing(pc, ret) ==> Failing(pc', ret) || pc' == Idle)
  {
    hide StepEnable, StepDisable, StepRead, StepDrop, Failing, Asking;
    match s.pcs[t] {
      case Idle => IdleFailsNot(s, c, ret);
      case En(pc) => EnableFailsIff(s.sh, t, pc, c, ret);
      case Di(pc) => DisableFailsIff(s.sh, t, pc, c, ret);
      case Rd(pc) => ReadFailsNot(s.sh, t, pc, c, ret);
      case Dr(pc) => DropFailsNot(s.sh, t, pc, ret);
    }
  }

  lemma IdleFailsNot(s: Sys, c: Choice, ret: Ret)
    ensures !Failing(Idle, ret) && !Asking(Idle, ret) && (StepIdle(s, c).Go? ==> !Failing(StepIdle(s, c).pc, ret))
  {
    hide AllIdle;
  }

  lemma EnableFailsIff(sh: Shared, t: nat, pc: EnPc, c: Choice, ret: Ret)
    requires StepEnable(sh, t, pc, c).Go?
    ensures var pc' := StepEnable(sh, t, pc, c).pc;
            && (!Failing(En(pc), ret) ==> (Failing(pc', ret) <==> Asking(En(pc), ret) && c != Good))
            && (Failing(En(pc), ret) ==> Failing(pc', ret) || pc' == Idle)
  {}

  lemma DisableFailsIff(sh: Shared, t: nat, pc: DiPc, c: Choice, ret: Ret)
    requires StepDisable(sh, t, pc, c).Go?
    ensures var pc' := StepDisable(sh, t, pc, c).pc;
            && (!Failing(Di(pc), ret) ==> (Failing(pc', ret) <==> Asking(Di(pc), ret) && c != Good))
            && (Failing(Di(pc), ret) ==> Failing(pc', ret) || pc' == Idle)
  {}

  lemma ReadFailsNot(sh: Shared, t: nat, pc: RdPc, c: Choice, ret: Ret)
    ensures !Failing(Rd(pc), ret) && !Asking(Rd(pc), ret)
    ensures StepRead(sh, t, pc, c).Go? ==> !Failing(StepRead(sh, t, pc, c).pc, ret)
  {}

  lemma DropFailsNot(sh: Shared, t: nat, pc: DrPc, ret: Ret)
    ensures !Failing(Dr(pc), ret) && !Asking(Dr(pc), ret)
    ensures StepDrop(sh, t, pc).Go? ==> !Failing(StepDrop(sh, t, pc).pc, ret)
  {}

  lemma OthersStand(s: Sys, t: nat, u: nat, c: Choice)
    requires Next(s, t, c).Some? && u < |s.pcs| && u != t
    ensures |Next(s, t, c).value.pcs| == |s.pcs| && Next(s, t, c).value.pcs[u] == s.pcs[u]
  {
    hide Step;
  }

  lemma {:induction false} SameThreads(s: Sys, turns: seq<Turn>)
    requires Exec(s, turns).Some?
    ensures |Exec(s, turns).value.pcs| == |s.pcs|
    decreases |turns|
  {
    hide Step;
    if turns != [] { SameThreads(Next(s, turns[0].thread, turns[0].choice).value, turns[1..]); }
  }

  /** In turn k of a run thread t asks for what may fail with ret, is not answered well, and fails ever after. */
  ghost predicate Blamed(s: Sys, turns: seq<Turn>, t: nat, ret: Ret, k: nat)
    requires k < |turns|
  {
    && turns[k].thread == t && turns[k].choice != Good
    && Exec(s, turns[..k]).Some? && t < |Exec(s, turns[..k]).value.pcs|
    && Asking(Exec(s, turns[..k]).value.pcs[t], ret)
    && forall j :: k < j <= |turns| ==>
         && Exec(s, turns[..j]).Some? && t < |Exec(s, turns[..j]).value.pcs|
         && Failing(Exec(s, turns[..j]).value.pcs[t], ret)
  }

  /**
   However the threads interleave, a call fails only by a step of its own: enable only if the driver gave it no
   session or no event, disable only if its event could not be set, or not be reset.
   */
  lemma {:induction false} FailsByItself(s: Sys, turns: seq<Turn>, t: nat, ret: Ret) returns (k: nat)
    requires t < |s.pcs| && !Failing(s.pcs[t], ret) && Exec(s, turns).Some?
    requires t < |Exec(s, turns).value.pcs| && Failing(Exec(s, turns).value.pcs[t], ret)
    ensures k < |turns| && Blamed(s, turns, t, ret, k)
    decreases |turns|
  {
    hide Next, Failing, Asking;
    assert turns[..|turns|] == turns;
    if turns == [] {
      assert false;
    } else {
      var n := |turns| - 1;
      ExecLast(s, turns);
      SameThreads(s, turns[..n]);
      var before := Exec(s, turns[..n]).value;
      hide Exec;
      if turns[n].thread == t {
        FailsIff(before, t, turns[n].choice, ret);
      } else {
        OthersStand(before, turns[n].thread, t, turns[n].choice);
      }
      if Failing(before.pcs[t], ret) {
        k := FailsByItself(s, turns[..n], t, ret);
        assert forall j :: 0 <= j <= n ==> turns[..n][..j] == turns[..j];
      } else {
        k := n;
      }
    }
  }

  // ----- What a reading call asks of the driver, among other threads -----

  /** The driver calls that thread t makes in a run. */
  function CallsBy(s: Sys, turns: seq<Turn>, t: nat): seq<DriverCall>
    decreases |turns|
  {
    if turns == [] then []
    else match Next(s, turns[0].thread, turns[0].choice)
      case None => []
      case Some(s') =>
        (if turns[0].thread == t && |s.sh.calls| <= |s'.sh.calls| then s'.sh.calls[|s.sh.calls|..] else [])
        + CallsBy(s', turns[1..], t)
  }

  /** Thread t makes no new call in this run. */
  predicate NoNewCall(turns: seq<Turn>, t: nat) {
    forall k :: 0 <= k < |turns| && turns[k].thread == t ==> !turns[k].choice.Begin?
  }

  lemma {:induction false} IdleAsksNothing(s: Sys, turns: seq<Turn>, t: nat)
    requires t < |s.pcs| && s.pcs[t] == Idle && NoNewCall(turns, t) && Exec(s, turns).Some?
    ensures CallsBy(s, turns, t) == []
    decreases |turns|
  {
    if turns != [] {
      var u, c := turns[0].thread, turns[0].choice;
      assert turns[0].thread == t ==> !c.Begin?;
      if u == t {
        IdleStays(s, t, c);
        assert false;
      }
      OthersStand(s, u, t, c);
      hide Next;
      assert NoNewCall(turns[1..], t);
      IdleAsksNothing(Next(s, u, c).value, turns[1..], t);
    }
  }

  lemma IdleStays(s: Sys, t: nat, c: Choice)
    requires t < |s.pcs| && s.pcs[t] == Idle && !c.Begin?
    ensures Next(s, t, c) == None
  {}

  predicate OnlyUses(calls: seq<DriverCall>, sid: nat) {
    forall k :: 0 <= k < |calls| ==> calls[k] == Use(sid)
  }

  /** What a thread under the read lock will ask of the driver before it is out. */
  predicate Expected(rd: RdPc, session: Option<nat>, calls: seq<DriverCall>) {
    match rd
    case RdLock(_) => true
    case RdLook(op) =>
      if session == None then calls == []
      else OnlyUses(calls, session.value) && calls != [] && (op == Try || op == Wait ==> |calls| == 1)
    case RdTry(op, sid, _) => OnlyUses(calls, sid) && calls != [] && (op == Try ==> |calls| == 1)
    case RdWait(op, sid) => OnlyUses(calls, sid) && calls != [] && (op == Wait ==> |calls| == 1)
    case RdCheck(sid) => OnlyUses(calls, sid)
    case RdUnlock => calls == []
  }

  lemma OwnStepExpected(s: Sys, t: nat, c: Choice, rest: seq<DriverCall>)
    requires Inv(s) && t < |s.pcs| && HoldsReader(s.pcs[t]) && !c.Begin? && Next(s, t, c).Some?
    requires var s' := Next(s, t, c).value;
             if HoldsReader(s'.pcs[t]) then Expected(s'.pcs[t].rd, s'.sh.session, rest) else rest == []
    ensures var s' := Next(s, t, c).value;
            && (HoldsReader(s'.pcs[t]) || s'.pcs[t] == Idle) && |s.sh.calls| <= |s'.sh.calls|
            && Expected(s.pcs[t].rd, s.sh.session, s'.sh.calls[|s.sh.calls|..] + rest)
  {
    hide Inv;
    var s' := Next(s, t, c).value;
    assert s'.sh.calls == s.sh.calls || exists call :: s'.sh.calls == s.sh.calls + [call];
  }

  /** The session stays while a thread reads. */
  lemma SessionStays(s: Sys, t: nat, u: nat, c: Choice)
    requires Inv(s) && t < |s.pcs| && HoldsReader(s.pcs[t]) && u != t && Next(s, u, c).Some?
    ensures Next(s, u, c).value.sh.session == s.sh.session
  {
    ThreadActs(s, u, c);
    assert ThreadOk(s.pcs[t], t, s.sh) && ThreadOk(s.pcs[u], u, s.sh);
    hide Step, Phase, Driven, Quiescent, Sound, AtRest;
  }

  /**
   However the threads interleave, a call that finds no session asks nothing of the driver, and one that finds a
   session uses that session, and nothing else, at least once before it is out, and just once if it is not to block.
   */
  lemma {:induction false} ReadUsesItsSession(s: Sys, turns: seq<Turn>, t: nat)
    requires Inv(s) && t < |s.pcs| && HoldsReader(s.pcs[t]) && NoNewCall(turns, t)
    requires Exec(s, turns).Some? && t < |Exec(s, turns).value.pcs| && Exec(s, turns).value.pcs[t] == Idle
    ensures Expected(s.pcs[t].rd, s.sh.session, CallsBy(s, turns, t))
    decreases |turns|
  {
    hide Inv, Next, Expected;
    if turns != [] {
      var u, c := turns[0].thread, turns[0].choice;
      var s' := Next(s, u, c).value;
      NextKeepsInv(s, u, c);
      assert NoNewCall(turns[1..], t);
      if u != t {
        OthersStand(s, u, t, c);
        SessionStays(s, t, u, c);
        ReadUsesItsSession(s', turns[1..], t);
        assert [] + CallsBy(s', turns[1..], t) == CallsBy(s', turns[1..], t);
      } else {
        assert |s'.pcs| == |s.pcs| && (HoldsReader(s'.pcs[t]) || s'.pcs[t] == Idle) by { ReaderStays(s, t, c); }
        if HoldsReader(s'.pcs[t]) {
          ReadUsesItsSession(s', turns[1..], t);
        } else {
          IdleAsksNothing(s', turns[1..], t);
        }
        OwnStepExpected(s, t, c, CallsBy(s', turns[1..], t));
      }
    }
  }

  lemma ReaderStays(s: Sys, t: nat, c: Choice)
    requires t < |s.pcs| && HoldsReader(s.pcs[t]) && !c.Begin? && Next(s, t, c).Some?
    ensures var s' := Next(s, t, c).value; |s'.pcs| == |s.pcs| && (HoldsReader(s'.pcs[t]) || s'.pcs[t] == Idle)
  {}

  // ----- Blocking, among other threads -----

  /** The thread tries to send or receive with blocking, or has given up. */
  predicate Trying(pc: Pc) {
    pc == Idle || (pc.Rd? && !pc.rd.RdLock? && !pc.rd.RdLook? && !(pc.rd.RdTry? && pc.rd.op == Try))
  }

  /** Why a thread gives up though the ring says nothing but to wait: it has been told that the adapter is disabled. */
  predicate ToldOfDisable(pc: Pc, sh: Shared) {
    pc.Rd? && ((pc.rd.RdCheck? && !sh.flag) || (pc.rd.RdWait? && sh.event))
  }

  lemma TryingStep(s: Sys, t: nat)
    requires t < |s.pcs| && Trying(s.pcs[t]) && Next(s, t, Busy).Some?
    ensures var s' := Next(s, t, Busy).value;
            && Trying(s'.pcs[t])
            && (s'.pcs[t] == Rd(RdUnlock) ==> ToldOfDisable(s.pcs[t], s.sh))
            && (s'.pcs[t] == Idle ==> s.pcs[t] == Rd(RdUnlock))
            && (ToldOfDisable(s.pcs[t], s.sh) ==> s'.pcs[t] == Rd(RdUnlock))
  {}

  /**
   A thread that blocks for room or for a packet, and gets neither, is out only after it has been told that the
   adapter is disabled: a sender finds the flag clear, a receiver the event set.
   */
  lemma {:induction false} BlockedUntilDisabled(s: Sys, turns: seq<Turn>, t: nat) returns (k: nat)
    requires t < |s.pcs| && Trying(s.pcs[t]) && s.pcs[t] != Idle && s.pcs[t] != Rd(RdUnlock)
    requires forall j :: 0 <= j < |turns| && turns[j].thread == t ==> turns[j].choice == Busy
    requires Exec(s, turns).Some? && t < |Exec(s, turns).value.pcs|
    requires Exec(s, turns).value.pcs[t] == Idle || Exec(s, turns).value.pcs[t] == Rd(RdUnlock)
    ensures k < |turns| && turns[k].thread == t && Exec(s, turns[..k]).Some?
    ensures var sk := Exec(s, turns[..k]).value; t < |sk.pcs| && ToldOfDisable(sk.pcs[t], sk.sh)
    decreases |turns|
  {
    hide Next, Trying, ToldOfDisable;
    if turns == [] {
      assert false;
    } else {
      var u, c := turns[0].thread, turns[0].choice;
      var s' := Next(s, u, c).value;
      SameStep(s, u, c);
      if u == t { TryingStep(s, t); } else { OthersStand(s, u, t, c); }
      if u == t && ToldOfDisable(s.pcs[t], s.sh) {
        k := 0;
      } else {
        var later := BlockedUntilDisabled(s', turns[1..], t);
        k := later + 1;
        assert turns[..k][1..] == turns[1..][..later];
      }
    }
  }

  lemma SameStep(s: Sys, t: nat, c: Choice)
    requires Next(s, t, c).Some?
    ensures |Next(s, t, c).value.pcs| == |s.pcs|
  {
    hide Step;
  }
}
