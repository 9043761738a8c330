/** Handlers that complete an OIDC sign-in wait for each other only at the two
    locks, and never for good. */
module OidcProgress {
  import opened OidcCompletion
  import opened Options

  /** Waiting for a lock that is held. */
  predicate Blocked(s: State, t: Thread) {
    (t.pc == ReqLock && t.req in s.reqLock) || (t.pc == TokLock && t.token in s.tokLock)
  }

  function HolderOf(s: State, t: Thread): Tid
    requires Blocked(s, t)
  {
    if t.pc == ReqLock then s.reqLock[t.req] else s.tokLock[t.token]
  }

  /** Whatever its fallible work comes to, the handler's next step takes it on. */
  ghost predicate Advances(c: Config, s: State, tid: Tid) {
    tid in s.threads && forall fail :: Stage(s.threads[tid].pc) < Stage(Step(c, s, Run(tid, fail)).threads[tid].pc)
  }

  lemma FreeMovesOn(c: Config, s: State, t: Thread, tid: Tid, fail: bool)
    ensures Stage(t.pc) < Stage(Decide(c, s, t, tid, fail).0.pc) <==> t.pc != Done && !Blocked(s, t)
  {
  }

  /** A handler moves on unless it is done or waits for a lock that is held. */
  lemma AdvancesIff(c: Config, s: State, tid: Tid)
    requires tid in s.threads
    ensures Advances(c, s, tid) <==> s.threads[tid].pc != Done && !Blocked(s, s.threads[tid])
  {
    forall fail ensures Stage(s.threads[tid].pc) < Stage(Step(c, s, Run(tid, fail)).threads[tid].pc)
                   <==> s.threads[tid].pc != Done && !Blocked(s, s.threads[tid])
    {
      FreeMovesOn(c, s, s.threads[tid], tid, fail);
    }
    assert Advances(c, s, tid) ==> Stage(s.threads[tid].pc) < Stage(Step(c, s, Run(tid, false)).threads[tid].pc);
  }

  /** Who holds a lock does not wait for one. */
  lemma HolderIsFree(s: State, t: Thread)
    requires Tidy(s) && Blocked(s, t)
    ensures var holder := HolderOf(s, t);
            && holder in s.threads && s.threads[holder].pc != Done && !Blocked(s, s.threads[holder])
            && (if t.pc == ReqLock then HolderOfReq(s, t.req) else HolderOfTok(s, t.token))
  {
    assert if t.pc == ReqLock then HolderOfReq(s, t.req) else HolderOfTok(s, t.token);
  }

  /** In every interleaving, while some handler is not done, some handler can move
      on: itself, or the one that holds the lock it waits for. */
  lemma NoDeadlock(c: Config, acts: seq<Action>, tid: Tid)
    requires tid in After(c, acts).threads && After(c, acts).threads[tid].pc != Done
    ensures var s := After(c, acts);
            Advances(c, s, if Blocked(s, s.threads[tid]) then HolderOf(s, s.threads[tid]) else tid)
  {
    var s := After(c, acts);
    AlwaysTidy(c, acts);
    if Blocked(s, s.threads[tid]) {
      HolderIsFree(s, s.threads[tid]);
      AdvancesIff(c, s, HolderOf(s, s.threads[tid]));
    } else {
      AdvancesIff(c, s, tid);
    }
  }

  // --- every handler can be brought to its end

  /** The holder has taken a step; `tid` still waits where it did, if it does, for
      one that is nearer to freeing the lock. */
  ghost predicate WaitsLess(s: State, s': State, tid: Tid, holder: Tid) {
    && tid in s.threads && tid in s'.threads && s'.threads[tid] == s.threads[tid]
    && holder in s.threads && holder in s'.threads && Stage(s.threads[holder].pc) < Stage(s'.threads[holder].pc)
    && (Blocked(s', s'.threads[tid]) ==> HolderOf(s', s'.threads[tid]) == holder)
  }

  lemma HolderSteps(s: State, tid: Tid, holder: Tid, u': Thread, e: Effect, s': State)
    requires tid in s.threads && Blocked(s, s.threads[tid]) && holder == HolderOf(s, s.threads[tid])
    requires var t := s.threads[tid]; if t.pc == ReqLock then HolderOfReq(s, t.req) else HolderOfTok(s, t.token)
    requires Moves(s.threads[holder], u', e) && Stage(s.threads[holder].pc) < Stage(u'.pc)
    requires Effected(s, holder, e, s') && s'.threads == s.threads[holder := u']
    ensures WaitsLess(s, s', tid, holder)
  {
  }

  lemma HolderMovesOn(c: Config, s: State, tid: Tid)
    requires Inv(c, s) && Tidy(s) && tid in s.threads && Blocked(s, s.threads[tid])
    ensures var holder := HolderOf(s, s.threads[tid]); WaitsLess(s, Step(c, s, Run(holder, false)), tid, holder)
  {
    HolderIsFree(s, s.threads[tid]);
    var holder := HolderOf(s, s.threads[tid]);
    var u', e := FreeSteps(c, s, holder);
    HolderSteps(s, tid, holder, u', e, Step(c, s, Run(holder, false)));
  }

  lemma FreeSteps(c: Config, s: State, tid: Tid) returns (t': Thread, e: Effect)
    requires tid in s.threads && ThreadInv(c, s, tid, s.threads[tid]) && s.threads[tid].pc != Done && !Blocked(s, s.threads[tid])
    ensures Moves(s.threads[tid], t', e) && Stage(s.threads[tid].pc) < Stage(t'.pc)
    ensures var s' := Step(c, s, Run(tid, false)); Effected(s, tid, e, s') && s'.threads == s.threads[tid := t']
  {
    t', e := Decide(c, s, s.threads[tid], tid, false).0, Decide(c, s, s.threads[tid], tid, false).1;
    FreeMovesOn(c, s, s.threads[tid], tid, false);
    ApplyEffects(s, tid, e);
    DecideMoves(c, s, s.threads[tid], tid, false);
  }

  ghost predicate Finished(s: State, tid: Tid) {
    tid in s.threads && s.threads[tid].pc == Done
  }

  /** How far a handler is from its end. */
  ghost function Left(s: State, tid: Tid): nat {
    if tid in s.threads then 13 - Stage(s.threads[tid].pc) else 0
  }

  /** How far the holder of the lock it waits for is from its own. */
  ghost function Wait(s: State, tid: Tid): nat {
    if tid in s.threads && Blocked(s, s.threads[tid]) then 1 + Left(s, HolderOf(s, s.threads[tid])) else 0
  }

  ghost predicate Nearer(s: State, s': State, tid: Tid) {
    tid in s'.threads && (Left(s', tid) < Left(s, tid) || (Left(s', tid) == Left(s, tid) && Wait(s', tid) < Wait(s, tid)))
  }

  lemma WaitShrinks(s: State, s': State, tid: Tid, holder: Tid)
    requires WaitsLess(s, s', tid, holder) && Blocked(s, s.threads[tid]) && holder == HolderOf(s, s.threads[tid])
    ensures Nearer(s, s', tid)
  {
  }

  /** The next step towards the end of `tid`: its own, or the holder's. */
  lemma NextRun(c: Config, s: State, tid: Tid) returns (a: Action, s': State)
    requires Inv(c, s) && Tidy(s) && tid in s.threads && s.threads[tid].pc != Done
    ensures a.Run? && s' == Step(c, s, a) && Nearer(s, s', tid)
  {
    if Blocked(s, s.threads[tid]) {
      var holder := HolderOf(s, s.threads[tid]);
      a := Run(holder, false);
      HolderMovesOn(c, s, tid);
      WaitShrinks(s, Step(c, s, a), tid, holder);
    } else {
      a := Run(tid, false);
      var t', e := FreeSteps(c, s, tid);
    }
    s' := Step(c, s, a);
  }

  lemma NextAct(c: Config, acts: seq<Action>, s: State, tid: Tid) returns (a: Action, s': State)
    requires s == After(c, acts) && tid in s.threads && s.threads[tid].pc != Done
    ensures a.Run? && s' == After(c, acts + [a]) && Nearer(s, s', tid)
  {
    AlwaysInv(c, acts);
    AlwaysTidy(c, acts);
    a, s' := NextRun(c, s, tid);
    OneMore(c, acts, a);
  }

  /** From the `n`th action on, handlers run and nothing else happens. */
  ghost predicate RunsFrom(acts: seq<Action>, n: nat) {
    forall i :: n <= i < |acts| ==> acts[i].Run?
  }

  lemma {:induction false} FinishFrom(c: Config, acts: seq<Action>, s: State, tid: Tid, left: nat, wait: nat) returns (all: seq<Action>)
    requires s == After(c, acts) && tid in s.threads && left == Left(s, tid) && wait == Wait(s, tid)
    ensures acts <= all && RunsFrom(all, |acts|) && Finished(After(c, all), tid)
    decreases left, wait
  {
    all := acts;
    if s.threads[tid].pc != Done {
      var a, s' := NextAct(c, acts, s, tid);
      all := FinishFrom(c, acts + [a], s', tid, Left(s', tid), Wait(s', tid));
    }
  }

  /** From every state a run can reach, running handlers alone brings any one of
      them to its end. */
  lemma EveryHandlerCanFinish(c: Config, acts: seq<Action>, tid: Tid) returns (more: seq<Action>)
    requires tid in After(c, acts).threads
    ensures RunsFrom(more, 0) && Finished(After(c, acts + more), tid)
  {
    var s := After(c, acts);
    var all := FinishFrom(c, acts, s, tid, Left(s, tid), Wait(s, tid));
    more := all[|acts|..];
    assert all == acts + more;
  }
}
