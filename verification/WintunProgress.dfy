/** The adapter's threads never block each other for good; disable in particular comes to an end. */
module WintunProgress {
  import opened Bytes
  import opened Wintun
  import opened WintunSafety
  import opened WintunCalls

  // ----- Disabling comes to an end -----

  /** How many steps of its own a thread under the read lock is from leaving it, if nothing comes for it. */
  function Rank(pc: Pc): nat {
    match pc
    case Rd(RdLook(_)) => 20
    case Rd(RdTry(_, _, spins)) => if spins < 16 then 19 - spins else 3
    case Rd(RdCheck(_)) => 2
    case Rd(RdWait(_, _)) => 2
    case Rd(RdUnlock) => 1
    case _ => 0
  }

  /** Thread d is waiting in disable for the readers to leave. */
  predicate Disabling(s: Sys, d: nat) {
    d < |s.pcs| && s.pcs[d] == Di(DiWrite)
  }

  /**
   While disable waits for the write lock, every holder of the read lock can step, whatever the ring does, and
   each of its steps brings it closer to leaving, save when the ring wakes it with a packet.
   */
  lemma ReadersCanLeave(s: Sys, d: nat, u: nat, c: Choice)
    requires Inv(s) && Disabling(s, d) && u in s.sh.readers && !c.Begin?
    ensures u < |s.pcs| && u != d && Next(s, u, c).Some?
    ensures var s' := Next(s, u, c).value;
            Rank(s'.pcs[u]) < Rank(s.pcs[u]) || (s.pcs[u].Rd? && s.pcs[u].rd.RdWait? && c == Good)
    ensures Disabling(Next(s, u, c).value, d) && Next(s, u, c).value.sh.event && !Next(s, u, c).value.sh.flag
  {
    assert ThreadOk(s.pcs[d], d, s.sh) && ThreadOk(s.pcs[u], u, s.sh);
    hide DriverAfter, Quiescent, Driven, AtRest;
  }

  // A schedule that lets every reader leave, and then disable finish.

  function TotalRank(pcs: seq<Pc>): nat {
    if pcs == [] then 0 else TotalRank(pcs[..|pcs| - 1]) + Rank(pcs[|pcs| - 1])
  }

  lemma {:induction false} TotalRankDrops(pcs: seq<Pc>, u: nat, pc: Pc)
    requires u < |pcs|
    ensures TotalRank(pcs[u := pc]) == TotalRank(pcs) - Rank(pcs[u]) + Rank(pc)
  {
    hide Rank;
    var n := |pcs| - 1;
    if u < n {
      TotalRankDrops(pcs[..n], u, pc);
      assert pcs[u := pc][..n] == pcs[..n][u := pc];
    } else {
      assert pcs[u := pc][..n] == pcs[..n];
    }
  }

  /** Thread d waits for the write lock, in enable or in disable. */
  predicate Blocking(s: Sys, d: nat) {
    d < |s.pcs| && (s.pcs[d] == Di(DiWrite) || s.pcs[d] == En(EnWrite))
  }

  /** Nobody new starts a call, and for the threads other than ds nothing comes from the ring. */
  predicate Calm(turns: seq<Turn>, ds: set<nat>) {
    forall k :: 0 <= k < |turns| ==> turns[k].choice == Busy || (turns[k].choice == Good && turns[k].thread in ds)
  }

  lemma CalmConcat(first: seq<Turn>, second: seq<Turn>, ds: set<nat>)
    requires Calm(first, ds) && Calm(second, ds)
    ensures Calm(first + second, ds)
  {}

  lemma ReaderMoves(s: Sys, d: nat, u: nat)
    requires Inv(s) && Blocking(s, d) && u in s.sh.readers
    ensures u < |s.pcs| && HoldsReader(s.pcs[u]) && u != d && Next(s, u, Busy).Some?
    ensures TotalRank(Next(s, u, Busy).value.pcs) < TotalRank(s.pcs) && Inv(Next(s, u, Busy).value)
  {
    assert ThreadOk(s.pcs[u], u, s.sh) && ThreadOk(s.pcs[d], d, s.sh);
    if s.pcs[d] == Di(DiWrite) {
      ReadersCanLeave(s, d, u, Busy);
    } else {
      LeavesWithoutSession(s, u);
    }
    NextKeepsInv(s, u, Busy);
    hide Inv, Step, Rank, ThreadOk;
    TotalRankDrops(s.pcs, u, Next(s, u, Busy).value.pcs[u]);
  }

  lemma LeavesWithoutSession(s: Sys, u: nat)
    requires u < |s.pcs| && ThreadOk(s.pcs[u], u, s.sh) && u in s.sh.readers && s.sh.session == None
    ensures Next(s, u, Busy).Some? && Rank(Next(s, u, Busy).value.pcs[u]) < Rank(s.pcs[u])
  {
    hide DriverAfter, Quiescent, Driven;
  }

  /** A run in which only readers move: the others stay where they are. */
  predicate OthersStay(s: Sys, s': Sys) {
    && |s'.pcs| == |s.pcs|
    && forall v :: 0 <= v < |s.pcs| && !HoldsReader(s.pcs[v]) ==> s'.pcs[v] == s.pcs[v]
  }

  lemma {:induction false} ReadersLeave(s: Sys, d: nat) returns (turns: seq<Turn>)
    requires Inv(s) && Blocking(s, d)
    ensures Exec(s, turns).Some? && Calm(turns, {d})
    ensures var s' := Exec(s, turns).value;
            Inv(s') && OthersStay(s, s') && s'.pcs[d] == s.pcs[d] && s'.sh.readers == {}
    decreases TotalRank(s.pcs)
  {
    hide Inv, Next, TotalRank;
    turns := [];
    if s.sh.readers != {} {
      var u :| u in s.sh.readers;
      ReaderMoves(s, d, u);
      var s' := Next(s, u, Busy).value;
      assert |s'.pcs| == |s.pcs| && forall v :: 0 <= v < |s.pcs| && v != u ==> s'.pcs[v] == s.pcs[v] by {
        OnlyOneMoves(s, u, Busy);
      }
      var rest := ReadersLeave(s', d);
      turns := [Turn(u, Busy)] + rest;
      assert turns[1..] == rest;
    }
  }

  lemma OnlyOneMoves(s: Sys, u: nat, c: Choice)
    requires Next(s, u, c).Some?
    ensures var s' := Next(s, u, c).value;
            |s'.pcs| == |s.pcs| && forall v :: 0 <= v < |s.pcs| && v != u ==> s'.pcs[v] == s.pcs[v]
  {
    hide Step;
  }

  /** How far thread d is from the end of disable, once it can have the write lock. */
  function StepsLeft(di: DiPc): nat {
    match di
    case DiWrite => 6
    case DiTake => 5
    case DiEnd(_) => 4
    case DiUnwrite => 3
    case DiReset => 2
    case DiUnlock(_) => 1
    case _ => 0
  }

  predicate Finishing(s: Sys, d: nat) {
    && d < |s.pcs| && s.pcs[d].Di? && StepsLeft(s.pcs[d].di) > 0
    && (s.pcs[d].di == DiWrite ==> s.sh.readers == {})
    && (s.pcs[d].di.DiUnlock? ==> !s.sh.flag && s.sh.session == None && !s.sh.event)
  }

  lemma FinishingMoves(s: Sys, d: nat)
    requires Inv(s) && Finishing(s, d)
    ensures Next(s, d, Good).Some?
    ensures var s' := Next(s, d, Good).value;
            && Inv(s') && d < |s'.pcs|
            && if s.pcs[d].di.DiUnlock? then s'.pcs[d] == Idle && !s'.sh.flag && s'.sh.session == None && !s'.sh.event
               else Finishing(s', d) && StepsLeft(s'.pcs[d].di) < StepsLeft(s.pcs[d].di)
  {
    assert ThreadOk(s.pcs[d], d, s.sh);
    WriterIsMutex(s, d);
    DisableMoves(s.sh, d, s.pcs[d].di);
    NextKeepsInv(s, d, Good);
    hide Inv, ThreadOk, StepDisable;
  }

  lemma DisableMoves(sh: Shared, d: nat, di: DiPc)
    requires ThreadOk(Di(di), d, sh) && StepsLeft(di) > 0 && (di == DiWrite ==> sh.writer == None && sh.readers == {})
    requires di.DiUnlock? ==> !sh.flag && sh.session == None && !sh.event
    ensures var a := StepDisable(sh, d, di, Good);
            && a.Go?
            && (if di.DiUnlock? then a.pc == Idle && !a.sh.flag && a.sh.session == None && !a.sh.event
                else a.pc.Di? && 0 < StepsLeft(a.pc.di) < StepsLeft(di) && a.pc.di != DiWrite
                     && (a.pc.di.DiUnlock? ==> !a.sh.flag && a.sh.session == None && !a.sh.event))
  {
    hide DriverAfter, Quiescent, Driven;
  }

  /** The thread in disable has the mutex, so nobody else can have the write lock. */
  lemma WriterIsMutex(s: Sys, d: nat)
    requires Inv(s) && d < |s.pcs| && HoldsMutex(s.pcs[d])
    ensures s.sh.writer.Some? ==> s.sh.writer == Some(d)
  {
    assert ThreadOk(s.pcs[d], d, s.sh);
    if s.sh.writer.Some? {
      var w := s.sh.writer.value;
      assert ThreadOk(s.pcs[w], w, s.sh);
      Places(s.pcs[w]);
      Places(s.pcs[d]);
    }
    hide Phase, Driven, Quiescent;
  }

  lemma {:induction false} DisableFinishes(s: Sys, d: nat) returns (turns: seq<Turn>)
    requires Inv(s) && Finishing(s, d)
    ensures Exec(s, turns).Some? && Calm(turns, {d})
    ensures var s' := Exec(s, turns).value;
            d < |s'.pcs| && s'.pcs[d] == Idle && !s'.sh.flag && s'.sh.session == None && !s'.sh.event
    decreases StepsLeft(s.pcs[d].di)
  {
    FinishingMoves(s, d);
    hide Inv, Next, Finishing;
    var s' := Next(s, d, Good).value;
    if s.pcs[d].di.DiUnlock? {
      turns := [Turn(d, Good)];
      assert turns[1..] == [];
    } else {
      var rest := DisableFinishes(s', d);
      turns := [Turn(d, Good)] + rest;
      assert turns[1..] == rest;
    }
  }

  /**
   Disabling cannot deadlock: from every reachable state in which disable waits for the write lock, a schedule
   that needs nothing from the ring lets the readers leave and disable return, with the adapter disabled.
   */
  lemma DisableCanFinish(s: Sys, d: nat)
    requires Reachable(s) && Disabling(s, d)
    ensures exists turns :: Finished(s, turns, d)
  {
    hide Inv, Exec, Finishing, Next;
    ReachableInv(s);
    var leave := ReadersLeave(s, d);
    var s' := Exec(s, leave).value;
    assert Finishing(s', d) by { DisablingFinishes(s', d); }
    var finish := DisableFinishes(s', d);
    ExecConcat(s, leave, finish);
    CalmConcat(leave, finish, {d});
    assert Finished(s, leave + finish, d);
  }

  ghost predicate Finished(s: Sys, turns: seq<Turn>, d: nat) {
    && Exec(s, turns).Some? && Calm(turns, {d})
    && var s' := Exec(s, turns).value;
    && d < |s'.pcs| && s'.pcs[d] == Idle && !s'.sh.flag && s'.sh.session == None && !s'.sh.event
  }

  lemma DisablingFinishes(s: Sys, d: nat)
    requires Disabling(s, d) && s.sh.readers == {}
    ensures Finishing(s, d)
  {}

  // ----- Every call of enable or disable can come to an end -----

  /** Inside enable or disable, and nothing has failed. */
  predicate OnCourse(pc: Pc) {
    match pc
    case En(e) => !e.EnAbort? && (e.EnUnwrite? || e.EnUnlock? ==> e.ret == Fine)
    case Di(d) => !d.DiRestore? && (d.DiUnlock? ==> d.ret == Fine)
    case _ => false
  }

  /** What the call is for. */
  predicate Achieved(pc: Pc, sh: Shared) {
    if pc.En? then sh.flag && sh.session.Some? else !sh.flag && sh.session == None
  }

  /** How many steps a thread that holds the mutex is from the end of its call at most. */
  function StepsToGo(pc: Pc): nat {
    match pc
    case En(EnCheck) => 9
    case En(EnWrite) => 8
    case En(EnStart) => 7
    case En(EnEvent(_)) => 6
    case En(EnAbort(_)) => 5
    case En(EnStore(_)) => 5
    case En(EnFlag) => 4
    case En(EnUnwrite(_)) => 3
    case En(EnUnlock(_)) => 2
    case Di(DiCheck) => 10
    case Di(DiClear) => 9
    case Di(DiSet) => 8
    case Di(DiRestore) => 3
    case Di(DiWrite) => 7
    case Di(DiTake) => 6
    case Di(DiEnd(_)) => 5
    case Di(DiUnwrite) => 4
    case Di(DiReset) => 3
    case Di(DiUnlock(_)) => 2
    case _ => 0
  }

  lemma HolderActs(sh: Shared, m: nat, pc: Pc)
    requires ThreadOk(pc, m, sh) && HoldsMutex(pc)
    requires pc == Di(DiWrite) || pc == En(EnWrite) ==> sh.writer == None && sh.readers == {}
    ensures var a := Inside(sh, m, pc, Good);
            && a.Go? && (a.pc == Idle || (HoldsMutex(a.pc) && StepsToGo(a.pc) < StepsToGo(pc)))
            && (a.pc == Idle ==> a.sh.mutex == None && (OnCourse(pc) ==> Achieved(pc, a.sh)))
            && (a.pc != Idle ==> (a.pc.En? <==> pc.En?) && (OnCourse(pc) ==> OnCourse(a.pc)))
  {
    hide DriverAfter, Quiescent, Driven;
  }

  /** The thread with the mutex can step, unless readers hold it up. */
  lemma HolderMoves(s: Sys, m: nat)
    requires Inv(s) && m < |s.pcs| && HoldsMutex(s.pcs[m]) && (Blocking(s, m) ==> s.sh.readers == {})
    ensures Next(s, m, Good).Some?
    ensures var s', pc := Next(s, m, Good).value, s.pcs[m];
            && Inv(s') && |s'.pcs| == |s.pcs|
            && (s'.pcs[m] == Idle || (HoldsMutex(s'.pcs[m]) && StepsToGo(s'.pcs[m]) < StepsToGo(pc)))
            && (s'.pcs[m] == Idle ==> s'.sh.mutex == None && (OnCourse(pc) ==> Achieved(pc, s'.sh)))
            && (s'.pcs[m] != Idle ==> (s'.pcs[m].En? <==> pc.En?) && (OnCourse(pc) ==> OnCourse(s'.pcs[m])))
  {
    assert ThreadOk(s.pcs[m], m, s.sh);
    WriterIsMutex(s, m);
    BlockedIsNoWriter(s, m);
    HolderActs(s.sh, m, s.pcs[m]);
    hide StepEnable, StepDisable, ThreadOk, Inv;
    assert Step(s, m, Good) == Inside(s.sh, m, s.pcs[m], Good);
    NextKeepsInv(s, m, Good);
  }

  lemma BlockedIsNoWriter(s: Sys, m: nat)
    requires Inv(s) && m < |s.pcs| && (s.sh.writer.Some? ==> s.sh.writer == Some(m))
    ensures Blocking(s, m) ==> s.sh.writer == None
  {
    assert ThreadOk(s.pcs[m], m, s.sh);
    hide Phase, Driven, Quiescent;
  }

  /** Others may have been readers that left; whoever is not, and is not m, is where it was. */
  predicate OnlyMoved(s: Sys, s': Sys, m: nat) {
    && |s'.pcs| == |s.pcs|
    && forall v :: 0 <= v < |s.pcs| && v != m && !HoldsReader(s.pcs[v]) ==> s'.pcs[v] == s.pcs[v]
  }

  /** The thread with the mutex gets to the end of its call, once the readers it waits for have left. */
  lemma {:induction false} HolderFinishes(s: Sys, m: nat) returns (turns: seq<Turn>)
    requires Inv(s) && m < |s.pcs| && HoldsMutex(s.pcs[m])
    ensures Exec(s, turns).Some? && Calm(turns, {m})
    ensures var s' := Exec(s, turns).value;
            && Inv(s') && OnlyMoved(s, s', m) && s'.pcs[m] == Idle && s'.sh.mutex == None
            && (OnCourse(s.pcs[m]) ==> Achieved(s.pcs[m], s'.sh))
    decreases StepsToGo(s.pcs[m]), s.sh.readers != {}
  {
    hide Inv, Next, StepsToGo, OnCourse;
    if Blocking(s, m) && s.sh.readers != {} {
      var leave := ReadersLeave(s, m);
      var s' := Exec(s, leave).value;
      var rest := HolderFinishes(s', m);
      turns := leave + rest;
      ExecConcat(s, leave, rest);
      CalmConcat(leave, rest, {m});
    } else {
      HolderMoves(s, m);
      var s' := Next(s, m, Good).value;
      OnlyOneMoves(s, m, Good);
      var rest := [];
      if s'.pcs[m] != Idle { rest := HolderFinishes(s', m); }
      turns := [Turn(m, Good)] + rest;
      assert turns[1..] == rest;
    }
  }

  /** A schedule that needs nothing from the ring, and at whose end thread t has returned and got what it wanted. */
  ghost predicate Returned(s: Sys, turns: seq<Turn>, t: nat, m: nat)
    requires t < |s.pcs|
  {
    && Exec(s, turns).Some? && Calm(turns, {t, m})
    && var s' := Exec(s, turns).value;
    && t < |s'.pcs| && s'.pcs[t] == Idle && s'.sh.mutex == None && Achieved(s.pcs[t], s'.sh)
  }

  /**
   From every reachable state in which a thread is in enable or disable and nothing has failed for it, whatever the
   others are doing, a schedule lets it return with the adapter enabled, or disabled: at most one other thread has
   to finish first, and the readers to leave.
   */
  lemma CallCanFinish(s: Sys, t: nat)
    requires Reachable(s) && t < |s.pcs| && OnCourse(s.pcs[t])
    ensures exists turns, m :: Returned(s, turns, t, m)
  {
    hide Inv, Exec, Next;
    ReachableInv(s);
    if HoldsMutex(s.pcs[t]) {
      var turns := HolderFinishes(s, t);
      assert {t} == {t, t};
      assert Returned(s, turns, t, t);
    } else {
      var first, m := MutexComesFree(s, t);
      var s1 := Exec(s, first).value;
      TakesMutex(s1, t);
      var s2 := Next(s1, t, Good).value;
      var rest := HolderFinishes(s2, t);
      StartsWith(s1, Turn(t, Good), rest);
      ExecConcat(s, first, [Turn(t, Good)] + rest);
      assert Calm(first + ([Turn(t, Good)] + rest), {t, m});
      assert Returned(s, first + ([Turn(t, Good)] + rest), t, m);
    }
  }

  lemma StartsWith(s: Sys, turn: Turn, rest: seq<Turn>)
    requires Next(s, turn.thread, turn.choice).Some?
    ensures Exec(s, [turn] + rest) == Exec(Next(s, turn.thread, turn.choice).value, rest)
  {
    hide Next;
    assert ([turn] + rest)[1..] == rest;
  }

  /** Whoever has the mutex that thread t waits for gives it back. */
  lemma MutexComesFree(s: Sys, t: nat) returns (turns: seq<Turn>, m: nat)
    requires Inv(s) && t < |s.pcs| && OnCourse(s.pcs[t]) && !HoldsMutex(s.pcs[t])
    ensures Exec(s, turns).Some? && Calm(turns, {t, m})
    ensures var s' := Exec(s, turns).value;
            Inv(s') && t < |s'.pcs| && s'.pcs[t] == s.pcs[t] && s'.sh.mutex == None
  {
    turns, m := [], t;
    if s.sh.mutex.Some? {
      m := s.sh.mutex.value;
      assert ThreadOk(s.pcs[m], m, s.sh) && ThreadOk(s.pcs[t], t, s.sh);
      assert HoldsMutex(s.pcs[m]) && m != t && !HoldsReader(s.pcs[t]) by { hide Phase, Driven, Quiescent, Inv; }
      hide Inv, ThreadOk, Next, Exec;
      turns := HolderFinishes(s, m);
    }
  }

  lemma TakesMutex(s: Sys, t: nat)
    requires Inv(s) && t < |s.pcs| && OnCourse(s.pcs[t]) && !HoldsMutex(s.pcs[t]) && s.sh.mutex == None
    ensures Next(s, t, Good).Some?
    ensures var s' := Next(s, t, Good).value;
            && Inv(s') && |s'.pcs| == |s.pcs| && HoldsMutex(s'.pcs[t]) && OnCourse(s'.pcs[t])
            && (s'.pcs[t].En? <==> s.pcs[t].En?)
  {
    hide Inv;
    assert Next(s, t, Good).Some?;
    NextKeepsInv(s, t, Good);
  }

  // ----- No deadlock -----

  /** Nothing comes from the ring, no call fails, and no thread can step. */
  predicate Stuck(s: Sys) {
    forall u :: 0 <= u < |s.pcs| ==> Next(s, u, Busy) == None
  }

  /** The only places a thread can be held up in, and by what. */
  predicate HeldUp(pc: Pc, sh: Shared) {
    match pc
    case Idle => true
    case En(e) => (e.EnLock? && sh.mutex.Some?) || (e.EnWrite? && (sh.writer.Some? || sh.readers != {}))
    case Di(d) => (d.DiLock? && sh.mutex.Some?) || (d.DiWrite? && (sh.writer.Some? || sh.readers != {}))
    case Rd(r) => (r.RdLock? && sh.writer.Some?) || (r.RdWait? && !sh.event)
    case Dr(x) => x.DrWrite? && (sh.writer.Some? || sh.readers != {})
  }

  lemma StuckIsHeldUp(s: Sys, u: nat)
    requires u < |s.pcs| && Next(s, u, Busy) == None
    ensures HeldUp(s.pcs[u], s.sh)
  {}

  lemma NobodyWrites(s: Sys)
    requires Inv(s) && Stuck(s)
    ensures s.sh.writer == None
  {
    hide Phase, Driven, Quiescent, Next;
    if s.sh.writer.Some? {
      var w := s.sh.writer.value;
      assert ThreadOk(s.pcs[w], w, s.sh);
      StuckIsHeldUp(s, w);
      assert false;
    }
  }

  lemma ReadersWait(s: Sys, r: nat)
    requires Inv(s) && Stuck(s) && r in s.sh.readers
    ensures r < |s.pcs| && s.pcs[r].Rd? && !s.sh.event && s.sh.session.Some?
  {
    hide DriverAfter, Driven, Quiescent, Next;
    assert ThreadOk(s.pcs[r], r, s.sh);
    StuckIsHeldUp(s, r);
  }

  lemma NobodyWantsToWrite(s: Sys, u: nat)
    requires Inv(s) && Stuck(s) && u < |s.pcs|
    ensures s.pcs[u] != En(EnWrite) && s.pcs[u] != Di(DiWrite) && s.pcs[u] != Dr(DrWrite)
  {
    hide DriverAfter, Driven, Quiescent, Next, Locked;
    assert ThreadOk(s.pcs[u], u, s.sh);
    StuckIsHeldUp(s, u);
    NobodyWrites(s);
    if s.sh.readers != {} {
      var r :| r in s.sh.readers;
      ReadersWait(s, r);
    }
  }

  /**
   The threads never block each other for good: when no thread can step, every thread is outside or waits, holding
   the read lock, for a packet or for the event, and the adapter is enabled.
   */
  lemma NoDeadlock(s: Sys)
    requires Reachable(s) && Stuck(s)
    ensures s.sh.mutex == None && s.sh.writer == None
    ensures forall u :: 0 <= u < |s.pcs| && s.pcs[u] != Idle ==>
              s.pcs[u].Rd? && s.pcs[u].rd.RdWait? && !s.sh.event && s.sh.flag && s.sh.session == Some(s.pcs[u].rd.sid)
  {
    ReachableInv(s);
    NobodyWrites(s);
    MutexFree(s);
    hide DriverAfter, Driven, Quiescent, Next, Stuck;
    forall u | 0 <= u < |s.pcs| && s.pcs[u] != Idle
      ensures s.pcs[u].Rd? && s.pcs[u].rd.RdWait? && !s.sh.event && s.sh.flag && s.sh.session == Some(s.pcs[u].rd.sid)
    {
      assert ThreadOk(s.pcs[u], u, s.sh);
      assert Next(s, u, Busy) == None by { StuckAt(s, u); }
      StuckIsHeldUp(s, u);
      NobodyWantsToWrite(s, u);
    }
  }

  lemma StuckAt(s: Sys, u: nat)
    requires Stuck(s) && u < |s.pcs|
    ensures Next(s, u, Busy) == None
  {}

  lemma MutexFree(s: Sys)
    requires Inv(s) && Stuck(s)
    ensures s.sh.mutex == None
  {
    hide DriverAfter, Driven, Quiescent, Next, Phase;
    if s.sh.mutex.Some? {
      var m := s.sh.mutex.value;
      assert ThreadOk(s.pcs[m], m, s.sh);
      StuckIsHeldUp(s, m);
      NobodyWantsToWrite(s, m);
      assert false;
    }
  }
}
