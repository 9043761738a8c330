/** A refused OIDC sign-in burns both of its single-use credentials, whatever the
    other handlers do meanwhile and afterwards. */
module OidcRefusal {
  import opened OidcCompletion
  import opened Options

  /** The request is gone for good: issued, not stored, and with no handler about
      to write it back. */
  ghost predicate RequestGone(s: State, r: ReqId) {
    r in s.issued && r !in s.reqs && forall u :: u in s.threads && s.threads[u].pc == Checking ==> s.threads[u].req != r
  }

  ghost predicate TokenGone(s: State, k: Token) {
    k in s.granted && k !in s.tokens
  }

  /** How a step of `tid` could touch the credentials. */
  ghost predicate Touches(s: State, t: Thread, t': Thread, e: Effect) {
    && t'.req == t.req
    && (e.PutReq? ==> e.req == t.req && t.pc == Checking)
    && (t'.pc == Checking ==> t.req in s.reqs && t.pc == InReq)
  }

  lemma DecideTouches(c: Config, s: State, t: Thread, tid: Tid, fail: bool)
    ensures Touches(s, t, Decide(c, s, t, tid, fail).0, Decide(c, s, t, tid, fail).1)
  {
  }

  /** What a step's effect means for the credentials. */
  ghost predicate Credited(s: State, e: Effect, s': State) {
    && s'.issued == s.issued && s'.granted == s.granted
    && (forall r :: r in s'.reqs && r !in s.reqs ==> e.PutReq? && e.req == r)
    && (forall k :: k in s'.tokens ==> k in s.tokens)
    && (e.RetireReq? ==> e.req !in s'.reqs)
    && (e.DropTok? || e.SpendTok? ==> e.token !in s'.tokens)
  }

  lemma ApplyCredits(s: State, tid: Tid, e: Effect)
    ensures Credited(s, e, Apply(s, tid, e))
  {
  }

  /** What everything else means for them: nothing handed out comes again. */
  ghost predicate Passed(s: State, s': State) {
    && s.issued <= s'.issued && s.granted <= s'.granted
    && (forall r :: r in s.issued && r in s'.reqs ==> r in s.reqs)
    && (forall k :: k in s.granted && k in s'.tokens ==> k in s.tokens)
    && (forall u :: u in s.threads ==> u in s'.threads && s'.threads[u] == s.threads[u])
    && (forall u :: u in s'.threads && u !in s.threads ==> s'.threads[u].pc == Start)
  }

  lemma EnvironmentPasses(c: Config, s: State, a: Action)
    requires !a.Run?
    ensures Passed(s, Step(c, s, a))
  {
    match a
    case Tick => TimePasses(s, s.now + 1);
    case Authorize(id, r) => if id in s.issued { TimePasses(s, s.now); } else { IssuePasses(s, id, r); }
    case Login(k, g) => if k in s.granted { TimePasses(s, s.now); } else { GivePasses(s, k, g); }
    case Arrive(tid, h, req, token) => if tid in s.threads { TimePasses(s, s.now); } else { ComePasses(s, tid, h, req, token); }
  }

  lemma TimePasses(s: State, now: nat)
    ensures Passed(s, s.(now := now))
  {
  }

  lemma IssuePasses(s: State, id: ReqId, r: AuthRequest)
    requires id !in s.issued
    ensures Passed(s, s.(reqs := s.reqs[id := r], issued := s.issued + {id}))
  {
  }

  lemma GivePasses(s: State, k: Token, g: Grant)
    requires k !in s.granted
    ensures Passed(s, s.(tokens := s.tokens[k := g], granted := s.granted + {k}))
  {
  }

  lemma ComePasses(s: State, tid: Tid, h: Handler, req: ReqId, token: Token)
    requires tid !in s.threads
    ensures Passed(s, s.(threads := s.threads[tid := Thread(h, req, token, Start, None, None, None)]))
  {
  }

  /** What `Run` makes of a handler's step. */
  ghost predicate Moved(s: State, tid: Tid, t': Thread, e: Effect, s': State) {
    && tid in s.threads && Credited(s, e, s') && s'.threads == s.threads[tid := t']
    && Touches(s, s.threads[tid], t', e)
  }

  lemma RunMoves(c: Config, s: State, tid: Tid, fail: bool)
    requires tid in s.threads
    ensures var (t', e) := Decide(c, s, s.threads[tid], tid, fail); Moved(s, tid, t', e, Step(c, s, Run(tid, fail)))
  {
    var (t', e) := Decide(c, s, s.threads[tid], tid, fail);
    ApplyCredits(s, tid, e);
    DecideTouches(c, s, s.threads[tid], tid, fail);
    SameCredit(s, e, Apply(s, tid, e), Step(c, s, Run(tid, fail)));
  }

  lemma SameCredit(s: State, e: Effect, applied: State, s': State)
    requires Credited(s, e, applied) && s' == applied.(threads := s'.threads)
    ensures Credited(s, e, s')
  {
  }

  lemma MovedStaysGone(s: State, tid: Tid, t': Thread, e: Effect, s': State, r: ReqId, k: Token)
    requires Moved(s, tid, t', e, s')
    ensures RequestGone(s, r) ==> RequestGone(s', r)
    ensures TokenGone(s, k) ==> TokenGone(s', k)
  {
  }

  lemma PassedStaysGone(s: State, s': State, r: ReqId, k: Token)
    requires Passed(s, s')
    ensures RequestGone(s, r) ==> RequestGone(s', r)
    ensures TokenGone(s, k) ==> TokenGone(s', k)
  {
  }

  /** A refusal past the rate limit: what it has burnt so far of the credentials
      `issued` and `granted` when it began. */
  ghost predicate Burning(s: State, tid: Tid, r: ReqId, k: Token, issued: set<ReqId>, granted: set<Token>) {
    && issued <= s.issued && granted <= s.granted && tid in s.threads
    && var t := s.threads[tid];
    && Refuses(t.handler) && t.req == r && t.token == k && 4 <= Stage(t.pc)
    && (7 <= Stage(t.pc) && r in issued ==> RequestGone(s, r))
    && (11 <= Stage(t.pc) && k in granted ==> TokenGone(s, k))
  }

  /** Where a refusal goes next, and what it takes away on the way. */
  ghost predicate Burns(t: Thread, t': Thread, e: Effect, held: bool) {
    && t'.handler == t.handler && t'.req == t.req && t'.token == t.token && Stage(t.pc) <= Stage(t'.pc)
    && (7 <= Stage(t'.pc) && Stage(t.pc) < 7 ==> t.pc == InReq && e == RetireReq(t.req) && t'.pc == ReqUnlock)
    && (11 <= Stage(t'.pc) && Stage(t.pc) < 11 ==> t'.pc == TokUnlock && (e == DropTok(t.token) || e == SpendTok(t.token) || !held))
  }

  lemma RefusalBurns(c: Config, s: State, t: Thread, tid: Tid, fail: bool)
    requires ThreadInv(c, s, tid, t) && Refuses(t.handler) && 4 <= Stage(t.pc)
    ensures Burns(t, Decide(c, s, t, tid, fail).0, Decide(c, s, t, tid, fail).1, t.token in s.tokens)
  {
  }

  /** While one handler is under the request's lock, no other is. */
  lemma NooneChecking(c: Config, s: State, tid: Tid, u: Tid)
    requires Inv(c, s) && tid in s.threads && s.threads[tid].pc == InReq
    requires u in s.threads && s.threads[u].pc == Checking
    ensures s.threads[u].req != s.threads[tid].req
  {
    assert ThreadInv(c, s, tid, s.threads[tid]) && ThreadInv(c, s, u, s.threads[u]);
  }

  lemma RefusalMoves(s: State, tid: Tid, t': Thread, e: Effect, s': State, r: ReqId, k: Token, issued: set<ReqId>, granted: set<Token>)
    requires Burning(s, tid, r, k, issued, granted) && Moved(s, tid, t', e, s')
    requires Burns(s.threads[tid], t', e, k in s.tokens)
    requires s.threads[tid].pc == InReq ==> forall u :: u in s.threads && s.threads[u].pc == Checking ==> s.threads[u].req != r
    ensures Burning(s', tid, r, k, issued, granted)
  {
    MovedStaysGone(s, tid, t', e, s', r, k);
  }

  lemma OthersMove(s: State, u: Tid, t': Thread, e: Effect, s': State, tid: Tid, r: ReqId, k: Token, issued: set<ReqId>, granted: set<Token>)
    requires Burning(s, tid, r, k, issued, granted) && Moved(s, u, t', e, s') && u != tid
    ensures Burning(s', tid, r, k, issued, granted)
  {
    MovedStaysGone(s, u, t', e, s', r, k);
  }

  lemma OthersPass(s: State, s': State, tid: Tid, r: ReqId, k: Token, issued: set<ReqId>, granted: set<Token>)
    requires Burning(s, tid, r, k, issued, granted) && Passed(s, s')
    ensures Burning(s', tid, r, k, issued, granted)
  {
    PassedStaysGone(s, s', r, k);
  }

  lemma RefusalSteps(c: Config, s: State, tid: Tid, fail: bool, r: ReqId, k: Token, issued: set<ReqId>, granted: set<Token>)
    requires Inv(c, s) && Burning(s, tid, r, k, issued, granted)
    ensures Burning(Step(c, s, Run(tid, fail)), tid, r, k, issued, granted)
  {
    var (t', e) := Decide(c, s, s.threads[tid], tid, fail);
    RunMoves(c, s, tid, fail);
    assert ThreadInv(c, s, tid, s.threads[tid]);
    RefusalBurns(c, s, s.threads[tid], tid, fail);
    if s.threads[tid].pc == InReq {
      forall u | u in s.threads && s.threads[u].pc == Checking ensures s.threads[u].req != r { NooneChecking(c, s, tid, u); }
    }
    RefusalMoves(s, tid, t', e, Step(c, s, Run(tid, fail)), r, k, issued, granted);
  }

  lemma BurningGoesOn(c: Config, s: State, a: Action, tid: Tid, r: ReqId, k: Token, issued: set<ReqId>, granted: set<Token>)
    requires Inv(c, s) && Burning(s, tid, r, k, issued, granted)
    ensures Burning(Step(c, s, a), tid, r, k, issued, granted)
  {
    if a.Run? && a.tid == tid {
      RefusalSteps(c, s, tid, a.fail, r, k, issued, granted);
    } else if a.Run? && a.tid in s.threads {
      var (t', e) := Decide(c, s, s.threads[a.tid], a.tid, a.fail);
      RunMoves(c, s, a.tid, a.fail);
      OthersMove(s, a.tid, t', e, Step(c, s, a), tid, r, k, issued, granted);
    } else if !a.Run? {
      EnvironmentPasses(c, s, a);
      OthersPass(s, Step(c, s, a), tid, r, k, issued, granted);
    }
  }

  lemma {:induction false} BurningThroughout(c: Config, acts: seq<Action>, more: seq<Action>, tid: Tid, r: ReqId, k: Token,
                                             issued: set<ReqId>, granted: set<Token>)
    requires Burning(After(c, acts), tid, r, k, issued, granted)
    ensures Burning(After(c, acts + more), tid, r, k, issued, granted)
  {
    if more == [] {
      assert acts + more == acts;
    } else {
      var (rest, last) := (more[..|more| - 1], more[|more| - 1]);
      BurningThroughout(c, acts, rest, tid, r, k, issued, granted);
      assert acts + more == acts + rest + [last];
      BurningNext(c, acts + rest, last, tid, r, k, issued, granted);
    }
  }

  lemma BurningNext(c: Config, acts: seq<Action>, a: Action, tid: Tid, r: ReqId, k: Token, issued: set<ReqId>, granted: set<Token>)
    requires Burning(After(c, acts), tid, r, k, issued, granted)
    ensures Burning(After(c, acts + [a]), tid, r, k, issued, granted)
  {
    AlwaysInv(c, acts);
    OneMore(c, acts, a);
    BurningGoesOn(c, After(c, acts), a, tid, r, k, issued, granted);
  }

  /** A form with any other action that got past the rate limit burns both: once
      it is done, then and ever after, neither the request nor the token it named
      is there, if they had been handed out before it took the request's lock. */
  lemma RefusalBurnsBoth(c: Config, acts: seq<Action>, more: seq<Action>, tid: Tid, action: Option<string>)
    requires var s := After(c, acts);
             tid in s.threads && s.threads[tid].handler == FormHandler(action) && action != Some("approve") && s.threads[tid].pc == ReqLock
    requires var s := After(c, acts + more); tid in s.threads && s.threads[tid].pc == Done
    ensures var (was, s) := (After(c, acts), After(c, acts + more));
            var t := was.threads[tid];
            && (t.req in was.issued ==> t.req !in s.reqs)
            && (t.token in was.granted ==> t.token !in s.tokens)
  {
    var was := After(c, acts);
    var t := was.threads[tid];
    BurningThroughout(c, acts, more, tid, t.req, t.token, was.issued, was.granted);
  }
}
