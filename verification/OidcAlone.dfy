/** What a handler that completes an OIDC sign-in comes to when it runs alone: the
    steps it takes between others' are the plain sequential handler. */
module OidcAlone {
  import opened OidcCompletion
  import opened OidcProgress
  import opened Options

  /** What the stores hold, and the codes minted. */
  datatype Outcome = Outcome(reqs: map<ReqId, AuthRequest>, tokens: map<Token, Grant>, codes: seq<Code>)

  /** What the handlers share, but for each other and the history. */
  datatype Stores = Stores(now: nat, reqs: map<ReqId, AuthRequest>, tokens: map<Token, Grant>,
                           reqLock: map<ReqId, Tid>, tokLock: map<Token, Tid>, codes: seq<Code>)

  function StoresOf(s: State): Stores {
    Stores(s.now, s.reqs, s.tokens, s.reqLock, s.tokLock, s.codes)
  }

  function Same(x: Stores): Outcome {
    Outcome(x.reqs, x.tokens, x.codes)
  }

  /** A lock held by another stops the handler where it stands. */
  function SpendAlone(x: Stores, k: Token): Outcome {
    if k in x.tokLock then Same(x) else Same(x).(tokens := x.tokens - {k})
  }

  function RefuseAlone(x: Stores, r: ReqId, k: Token): Outcome {
    if r in x.reqLock then Same(x) else SpendAlone(x, k).(reqs := x.reqs - {r})
  }

  /** A provider may be chosen again but not another, nor beside the local branch;
      the local branch may be claimed again but not beside a provider. */
  function BindAlone(x: Stores, r: ReqId, provider: Option<string>): Outcome {
    if r in x.reqLock || r !in x.reqs then Same(x)
    else
      var q := x.reqs[r];
      if x.now > q.expires then Same(x).(reqs := x.reqs - {r})
      else if provider.Some? && (q.provider.None? || q.provider == provider) && !q.local
      then Same(x).(reqs := x.reqs[r := AuthRequest(q.redirect, provider, false, q.expires)])
      else if provider.None? && q.provider.None?
      then Same(x).(reqs := x.reqs[r := AuthRequest(q.redirect, None, true, q.expires)])
      else Same(x)
  }

  function ReleaseAlone(x: Stores, tid: Tid, r: ReqId, k: Token): Outcome
    requires r in x.reqs
  {
    if r in x.reqLock then Same(x)
    else
      var taken := Same(x).(reqs := x.reqs - {r});
      if k in x.tokLock || k !in x.tokens then taken
      else
        var spent := taken.(tokens := x.tokens - {k});
        if x.now > x.tokens[k].expires then spent
        else spent.(codes := x.codes + [Code(tid, r, k, x.reqs[r], x.tokens[k].user)])
  }

  /** Both entry points look at the request first; the provider's return leg asks
      for approval where it is not waived. */
  function CompleteAlone(c: Config, x: Stores, tid: Tid, asks: bool, r: ReqId, k: Token): Outcome {
    if r !in x.reqs then Same(x)
    else if x.now > x.reqs[r].expires then Same(x).(reqs := x.reqs - {r})
    else if asks && !c.waived(x.reqs[r].redirect) then
      if k in x.tokens && x.now > x.tokens[k].expires then Same(x).(tokens := x.tokens - {k}) else Same(x)
    else ReleaseAlone(x, tid, r, k)
  }

  /** The handler as one piece of sequential code. */
  function Sequential(c: Config, s: State, tid: Tid): Outcome
    requires tid in s.threads
  {
    var t := s.threads[tid];
    match t.handler
    case Get => CompleteAlone(c, StoresOf(s), tid, true, t.req, t.token)
    case Post(approved) =>
      if approved then CompleteAlone(c, StoresOf(s), tid, false, t.req, t.token) else RefuseAlone(StoresOf(s), t.req, t.token)
    case Bind(provider) => BindAlone(StoresOf(s), t.req, provider)
    case Spend => SpendAlone(StoresOf(s), t.token)
  }

  // --- what is still to come, from wherever the handler stands

  function Minted(x: Stores, t: Thread, tid: Tid, got: Option<AuthRequest>, grant: Option<Grant>): seq<Code> {
    if Releases(t.handler) && got.Some? && grant.Some?
    then x.codes + [Code(tid, t.req, t.token, got.value, grant.value.user)] else x.codes
  }

  /** Under the token's lock, with the token as it was read. */
  function Redeems(x: Stores, t: Thread, tid: Tid, grant: Option<Grant>): Outcome {
    var good := if grant.Some? && x.now <= grant.value.expires then grant else None;
    Same(x).(tokens := x.tokens - {t.token}, codes := Minted(x, t, tid, t.got, good))
  }

  function InToken(x: Stores, t: Thread, tid: Tid): Outcome {
    if t.token in x.tokens then Redeems(x, t, tid, Some(x.tokens[t.token])) else Same(x)
  }

  function AtToken(x: Stores, t: Thread, tid: Tid): Outcome {
    if t.token in x.tokLock then Same(x) else InToken(x, t, tid)
  }

  /** Under the request's lock, with the request as it was read. */
  function Checked(x: Stores, t: Thread, tid: Tid, got: AuthRequest): Outcome {
    if x.now > got.expires then Same(x).(reqs := x.reqs - {t.req})
    else if t.handler.Bind? then
      if MayBind(got, t.handler.provider) then Same(x).(reqs := x.reqs[t.req := Bound(got, t.handler.provider)]) else Same(x)
    else if Some(got) != t.read then Same(x)
    else if Releases(t.handler) then AtToken(x, t.(got := Some(got)), tid).(reqs := x.reqs - {t.req})
    else Same(x).(reqs := x.reqs - {t.req})
  }

  function InRequest(x: Stores, t: Thread, tid: Tid): Outcome {
    if Refuses(t.handler) then AtToken(x, t, tid).(reqs := x.reqs - {t.req})
    else if t.req in x.reqs then Checked(x, t, tid, x.reqs[t.req])
    else Same(x)
  }

  function AtRequest(x: Stores, t: Thread, tid: Tid): Outcome {
    if t.req in x.reqLock then Same(x) else InRequest(x, t, tid)
  }

  function Asks(x: Stores, t: Thread): Outcome {
    if t.token in x.tokens && x.now > x.tokens[t.token].expires then Same(x).(tokens := x.tokens - {t.token}) else Same(x)
  }

  function Peeks(c: Config, x: Stores, t: Thread, tid: Tid, read: AuthRequest): Outcome {
    if x.now > read.expires then Same(x).(reqs := x.reqs - {t.req})
    else if Permitted(c, t.handler, read) then AtRequest(x, t.(read := Some(read)), tid)
    else Asks(x, t)
  }

  function Starts(c: Config, x: Stores, t: Thread, tid: Tid): Outcome {
    if t.handler.Spend? then AtToken(x, t, tid)
    else if t.handler.Bind? || Refuses(t.handler) then AtRequest(x, t, tid)
    else if t.req in x.reqs then Peeks(c, x, t, tid, x.reqs[t.req])
    else Same(x)
  }

  function Rest(c: Config, x: Stores, t: Thread, tid: Tid): Outcome {
    match t.pc
    case Start => Starts(c, x, t, tid)
    case Peeked => if t.read.Some? then Peeks(c, x, t, tid, t.read.value) else Same(x)
    case Asking => Asks(x, t)
    case Releasing => AtRequest(x, t, tid)
    case ReqLock => AtRequest(x, t, tid)
    case InReq => InRequest(x, t, tid)
    case Checking => if t.got.Some? then Checked(x, t, tid, t.got.value) else Same(x)
    case ReqUnlock => if Refuses(t.handler) || (Releases(t.handler) && t.got.Some?) then AtToken(x, t, tid) else Same(x)
    case TokLock => AtToken(x, t, tid)
    case InTok => InToken(x, t, tid)
    case Spending => Redeems(x, t, tid, t.grant)
    case TokUnlock => Same(x).(codes := Minted(x, t, tid, t.got, t.grant))
    case Minting => Same(x).(codes := Minted(x, t, tid, t.got, t.grant))
    case Done => Same(x)
  }

  /** A step of the handler changes nothing of what it will have come to. */
  ghost predicate KeepsRest(c: Config, s: State, t: Thread, tid: Tid) {
    var (t', e) := Decide(c, s, t, tid, false);
    Rest(c, StoresOf(Apply(s, tid, e)), t', tid) == Rest(c, StoresOf(s), t, tid)
  }

  /** Nor does what the request comes to depend on where the handler is. */
  lemma RequestApart(x: Stores, t: Thread, t': Thread, tid: Tid)
    requires t' == t.(pc := t'.pc)
    ensures AtRequest(x, t', tid) == AtRequest(x, t, tid) && AtToken(x, t', tid) == AtToken(x, t, tid)
  {
    TokenApart(x, x, t, t', tid);
    if t.req in x.reqs { CheckedApart(x, t, t', tid, x.reqs[t.req]); }
  }

  lemma CheckedApart(x: Stores, t: Thread, t': Thread, tid: Tid, got: AuthRequest)
    requires t' == t.(pc := t'.pc)
    ensures Checked(x, t', tid, got) == Checked(x, t, tid, got)
  {
    TokenApart(x, x, t.(got := Some(got)), t'.(got := Some(got)), tid);
  }

  lemma PeeksApart(c: Config, x: Stores, t: Thread, t': Thread, tid: Tid, read: AuthRequest)
    requires t' == t.(pc := t'.pc, read := t'.read)
    ensures Peeks(c, x, t', tid, read) == Peeks(c, x, t, tid, read)
  {
    RequestApart(x, t.(read := Some(read)), t'.(read := Some(read)), tid);
  }

  lemma StartKeepsRest(c: Config, s: State, t: Thread, tid: Tid)
    requires ThreadInv(c, s, tid, t) && t.pc == Start
    ensures KeepsRest(c, s, t, tid)
  {
    var t' := DecideStart(s, t, false);
    RequestApart(StoresOf(s), t, t.(pc := ReqLock), tid);
    if t'.pc == Peeked { PeeksApart(c, StoresOf(s), t, t', tid, s.reqs[t.req]); }
  }

  lemma PermittedKeepsRest(c: Config, s: State, t: Thread, tid: Tid)
    requires t.pc == Peeked && t.read.Some? && s.now <= t.read.value.expires && Permitted(c, t.handler, t.read.value)
    ensures KeepsRest(c, s, t, tid)
  {
    assert t.(read := Some(t.read.value)) == t;
    RequestApart(StoresOf(s), t, t.(pc := Releasing), tid);
  }

  lemma UnpermittedKeepsRest(c: Config, s: State, t: Thread, tid: Tid)
    requires t.pc == Peeked
    requires t.read.None? || s.now > t.read.value.expires || !Permitted(c, t.handler, t.read.value)
    ensures KeepsRest(c, s, t, tid)
  {
  }

  lemma PeekedKeepsRest(c: Config, s: State, t: Thread, tid: Tid)
    requires ThreadInv(c, s, tid, t) && t.pc == Peeked
    ensures KeepsRest(c, s, t, tid)
  {
    if t.read.Some? && s.now <= t.read.value.expires && Permitted(c, t.handler, t.read.value) {
      PermittedKeepsRest(c, s, t, tid);
    } else {
      UnpermittedKeepsRest(c, s, t, tid);
    }
  }

  lemma AskingKeepsRest(c: Config, s: State, t: Thread, tid: Tid)
    requires ThreadInv(c, s, tid, t) && t.pc == Asking
    ensures KeepsRest(c, s, t, tid)
  {
  }

  lemma ReleasingKeepsRest(c: Config, s: State, t: Thread, tid: Tid)
    requires ThreadInv(c, s, tid, t) && t.pc == Releasing
    ensures KeepsRest(c, s, t, tid)
  {
  }

  lemma ReqLockKeepsRest(c: Config, s: State, t: Thread, tid: Tid)
    requires ThreadInv(c, s, tid, t) && t.pc == ReqLock
    ensures KeepsRest(c, s, t, tid)
  {
    if t.req !in s.reqLock {
      var s' := Apply(s, tid, LockReq(t.req));
      LockApart(StoresOf(s), StoresOf(s'), t, t.(pc := InReq), tid);
    }
  }

  /** What the request comes to under its lock does not depend on who holds which. */
  lemma LockApart(x: Stores, x': Stores, t: Thread, t': Thread, tid: Tid)
    requires x' == x.(reqLock := x'.reqLock) && t' == t.(pc := t'.pc)
    ensures InRequest(x', t', tid) == InRequest(x, t, tid)
  {
    TokenApart(x, x', t, t', tid);
    if t.req in x.reqs {
      TokenApart(x, x', t.(got := Some(x.reqs[t.req])), t'.(got := Some(x.reqs[t.req])), tid);
    }
  }

  /** What the token comes to does not depend on the requests. */
  lemma TokenApart(x: Stores, x': Stores, t: Thread, t': Thread, tid: Tid)
    requires x'.now == x.now && x'.tokens == x.tokens && x'.tokLock == x.tokLock && x'.codes == x.codes
    requires t'.handler == t.handler && t'.req == t.req && t'.token == t.token && t'.got == t.got
    ensures AtToken(x', t', tid) == AtToken(x, t, tid).(reqs := x'.reqs)
  {
  }

  lemma RetiresKeepsRest(c: Config, s: State, t: Thread, tid: Tid)
    requires ThreadInv(c, s, tid, t) && t.pc == InReq && Refuses(t.handler)
    ensures KeepsRest(c, s, t, tid)
  {
    var s' := Apply(s, tid, RetireReq(t.req));
    assert s'.reqs == s.reqs - {t.req};
    TokenApart(StoresOf(s), StoresOf(s'), t, t.(pc := ReqUnlock), tid);
  }

  lemma InReqKeepsRest(c: Config, s: State, t: Thread, tid: Tid)
    requires ThreadInv(c, s, tid, t) && t.pc == InReq
    ensures KeepsRest(c, s, t, tid)
  {
    if Refuses(t.handler) {
      RetiresKeepsRest(c, s, t, tid);
    }
  }

  lemma UntakenKeepsRest(c: Config, s: State, t: Thread, tid: Tid)
    requires ThreadInv(c, s, tid, t) && t.pc == Checking && (t.handler.Bind? || s.now > t.got.value.expires || t.got != t.read)
    ensures KeepsRest(c, s, t, tid)
  {
    if t.handler.Bind? { BindingKeepsRest(c, s, t, tid); }
  }

  lemma BindingKeepsRest(c: Config, s: State, t: Thread, tid: Tid)
    requires ThreadInv(c, s, tid, t) && t.pc == Checking && t.handler.Bind?
    ensures KeepsRest(c, s, t, tid)
  {
    if s.now <= t.got.value.expires {
      if MayBind(t.got.value, t.handler.provider) { WrittenKeepsRest(c, s, t, tid); } else { UnwrittenKeepsRest(c, s, t, tid); }
    }
  }

  lemma WrittenKeepsRest(c: Config, s: State, t: Thread, tid: Tid)
    requires t.pc == Checking && t.got.Some? && t.handler.Bind? && s.now <= t.got.value.expires
    requires MayBind(t.got.value, t.handler.provider)
    ensures KeepsRest(c, s, t, tid)
  {
  }

  lemma UnwrittenKeepsRest(c: Config, s: State, t: Thread, tid: Tid)
    requires t.pc == Checking && t.got.Some? && t.handler.Bind? && s.now <= t.got.value.expires
    requires !MayBind(t.got.value, t.handler.provider)
    ensures KeepsRest(c, s, t, tid)
  {
  }

  lemma TakenKeepsRest(c: Config, s: State, t: Thread, tid: Tid)
    requires ThreadInv(c, s, tid, t) && t.pc == Checking && !t.handler.Bind? && s.now <= t.got.value.expires && t.got == t.read
    ensures KeepsRest(c, s, t, tid)
  {
    var s' := Apply(s, tid, TakeReq(t.req));
    TokenApart(StoresOf(s), StoresOf(s'), t, t.(pc := ReqUnlock), tid);
  }

  lemma CheckingKeepsRest(c: Config, s: State, t: Thread, tid: Tid)
    requires ThreadInv(c, s, tid, t) && t.pc == Checking
    ensures KeepsRest(c, s, t, tid)
  {
    if t.handler.Bind? || s.now > t.got.value.expires || t.got != t.read {
      UntakenKeepsRest(c, s, t, tid);
    } else {
      TakenKeepsRest(c, s, t, tid);
    }
  }

  lemma ReqUnlockKeepsRest(c: Config, s: State, t: Thread, tid: Tid)
    requires ThreadInv(c, s, tid, t) && t.pc == ReqUnlock
    ensures KeepsRest(c, s, t, tid)
  {
  }

  lemma TokLockKeepsRest(c: Config, s: State, t: Thread, tid: Tid)
    requires ThreadInv(c, s, tid, t) && t.pc == TokLock
    ensures KeepsRest(c, s, t, tid)
  {
  }

  lemma InTokKeepsRest(c: Config, s: State, t: Thread, tid: Tid)
    requires ThreadInv(c, s, tid, t) && t.pc == InTok
    ensures KeepsRest(c, s, t, tid)
  {
  }

  lemma ExpiredKeepsRest(c: Config, s: State, t: Thread, tid: Tid)
    requires ThreadInv(c, s, tid, t) && t.pc == Spending && s.now > t.grant.value.expires
    ensures KeepsRest(c, s, t, tid)
  {
  }

  lemma SpentKeepsRest(c: Config, s: State, t: Thread, tid: Tid)
    requires ThreadInv(c, s, tid, t) && t.pc == Spending && s.now <= t.grant.value.expires
    ensures KeepsRest(c, s, t, tid)
  {
  }

  lemma SpendingKeepsRest(c: Config, s: State, t: Thread, tid: Tid)
    requires ThreadInv(c, s, tid, t) && t.pc == Spending
    ensures KeepsRest(c, s, t, tid)
  {
    if s.now > t.grant.value.expires { ExpiredKeepsRest(c, s, t, tid); } else { SpentKeepsRest(c, s, t, tid); }
  }

  lemma TokUnlockKeepsRest(c: Config, s: State, t: Thread, tid: Tid)
    requires ThreadInv(c, s, tid, t) && t.pc == TokUnlock
    ensures KeepsRest(c, s, t, tid)
  {
  }

  lemma MintingKeepsRest(c: Config, s: State, t: Thread, tid: Tid)
    requires ThreadInv(c, s, tid, t) && t.pc == Minting
    ensures KeepsRest(c, s, t, tid)
  {
  }

  lemma DoneKeepsRest(c: Config, s: State, t: Thread, tid: Tid)
    requires ThreadInv(c, s, tid, t) && t.pc == Done
    ensures KeepsRest(c, s, t, tid)
  {
  }

  lemma DecideKeepsRest(c: Config, s: State, t: Thread, tid: Tid)
    requires ThreadInv(c, s, tid, t)
    ensures KeepsRest(c, s, t, tid)
  {
    match t.pc
    case Start => StartKeepsRest(c, s, t, tid);
    case Peeked => PeekedKeepsRest(c, s, t, tid);
    case Asking => AskingKeepsRest(c, s, t, tid);
    case Releasing => ReleasingKeepsRest(c, s, t, tid);
    case ReqLock => ReqLockKeepsRest(c, s, t, tid);
    case InReq => InReqKeepsRest(c, s, t, tid);
    case Checking => CheckingKeepsRest(c, s, t, tid);
    case ReqUnlock => ReqUnlockKeepsRest(c, s, t, tid);
    case TokLock => TokLockKeepsRest(c, s, t, tid);
    case InTok => InTokKeepsRest(c, s, t, tid);
    case Spending => SpendingKeepsRest(c, s, t, tid);
    case TokUnlock => TokUnlockKeepsRest(c, s, t, tid);
    case Minting => MintingKeepsRest(c, s, t, tid);
    case Done => DoneKeepsRest(c, s, t, tid);
  }

  // --- a whole run alone

  /** The rest, for the handler where it stands. */
  function RestOf(c: Config, s: State, tid: Tid): Outcome
    requires tid in s.threads
  {
    Rest(c, StoresOf(s), s.threads[tid], tid)
  }

  lemma StepKeepsRest(c: Config, s: State, tid: Tid)
    requires tid in s.threads && ThreadInv(c, s, tid, s.threads[tid])
    ensures var s' := Step(c, s, Run(tid, false)); tid in s'.threads && RestOf(c, s', tid) == RestOf(c, s, tid)
  {
    var (t', e) := Decide(c, s, s.threads[tid], tid, false);
    DecideKeepsRest(c, s, s.threads[tid], tid);
    assert StoresOf(Step(c, s, Run(tid, false))) == StoresOf(Apply(s, tid, e));
  }

  function RunsAlone(tid: Tid, n: nat): seq<Action> {
    if n == 0 then [] else RunsAlone(tid, n - 1) + [Run(tid, false)]
  }

  lemma SpendsAlike(x: Stores, t: Thread, tid: Tid)
    requires !Releases(t.handler)
    ensures AtToken(x, t, tid) == SpendAlone(x, t.token)
  {
    assert t.token !in x.tokens ==> x.tokens - {t.token} == x.tokens;
  }

  lemma RefusesAlike(x: Stores, t: Thread, tid: Tid)
    requires Refuses(t.handler)
    ensures AtRequest(x, t, tid) == RefuseAlone(x, t.req, t.token)
  {
    SpendsAlike(x, t, tid);
  }

  lemma BindsAlike(x: Stores, t: Thread, tid: Tid)
    requires t.handler.Bind?
    ensures AtRequest(x, t, tid) == BindAlone(x, t.req, t.handler.provider)
  {
  }

  lemma ReleasesAlike(x: Stores, t: Thread, tid: Tid)
    requires Releases(t.handler) && t.req in x.reqs && t.read == Some(x.reqs[t.req]) && x.now <= x.reqs[t.req].expires
    ensures AtRequest(x, t, tid) == ReleaseAlone(x, tid, t.req, t.token)
  {
  }

  lemma CompletesAlike(c: Config, x: Stores, t: Thread, tid: Tid)
    requires Releases(t.handler)
    ensures Starts(c, x, t, tid) == CompleteAlone(c, x, tid, t.handler.Get?, t.req, t.token)
  {
    if t.req in x.reqs && x.now <= x.reqs[t.req].expires { ReleasesAlike(x, t.(read := Some(x.reqs[t.req])), tid); }
  }

  // --- a handler run alone, from any state that a run can reach

  lemma StartIsSequential(c: Config, s: State, tid: Tid)
    requires tid in s.threads && s.threads[tid].pc == Start && ThreadInv(c, s, tid, s.threads[tid])
    ensures RestOf(c, s, tid) == Sequential(c, s, tid)
  {
    var (x, t) := (StoresOf(s), s.threads[tid]);
    match t.handler
    case Get => CompletesAlike(c, x, t, tid);
    case Post(approved) => if approved { CompletesAlike(c, x, t, tid); } else { RefusesAlike(x, t, tid); }
    case Bind(_) => BindsAlike(x, t, tid);
    case Spend => SpendsAlike(x, t, tid);
  }

  /** Nothing more comes of it: it is done, or waits for a lock that is held. */
  predicate Stuck(s: State, tid: Tid) {
    tid in s.threads && (s.threads[tid].pc == Done || Blocked(s, s.threads[tid]))
  }

  lemma StuckIsTheRest(c: Config, s: State, tid: Tid)
    requires Stuck(s, tid)
    ensures RestOf(c, s, tid) == Same(StoresOf(s))
  {
  }

  lemma StuckStays(c: Config, s: State, tid: Tid)
    requires Stuck(s, tid)
    ensures Step(c, s, Run(tid, false)) == s
  {
    assert s.threads[tid := s.threads[tid]] == s.threads;
  }

  /** What a handler run alone has come to, `n` steps on from a place with `left` to
      go. */
  ghost predicate Comes(c: Config, s: State, tid: Tid, rest: Outcome, left: int) {
    tid in s.threads && RestOf(c, s, tid) == rest && (Stuck(s, tid) || 13 - Stage(s.threads[tid].pc) <= left)
  }

  lemma ComesOn(c: Config, s: State, tid: Tid, rest: Outcome, left: int)
    requires Comes(c, s, tid, rest, left) && ThreadInv(c, s, tid, s.threads[tid])
    ensures Comes(c, Step(c, s, Run(tid, false)), tid, rest, left - 1)
  {
    if Stuck(s, tid) {
      StuckStays(c, s, tid);
    } else {
      StepKeepsRest(c, s, tid);
      FreeMovesOn(c, s, s.threads[tid], tid, false);
    }
  }

  lemma NextAlone(c: Config, acts: seq<Action>, tid: Tid, rest: Outcome, left: int)
    requires Comes(c, After(c, acts), tid, rest, left)
    ensures Comes(c, After(c, acts + [Run(tid, false)]), tid, rest, left - 1)
  {
    AlwaysInv(c, acts);
    OneMore(c, acts, Run(tid, false));
    ComesOn(c, After(c, acts), tid, rest, left);
  }

  lemma {:induction false} AloneComes(c: Config, acts: seq<Action>, tid: Tid, rest: Outcome, left: int, n: nat)
    requires Comes(c, After(c, acts), tid, rest, left)
    ensures Comes(c, After(c, acts + RunsAlone(tid, n)), tid, rest, left - n)
  {
    if n == 0 {
      assert acts + RunsAlone(tid, n) == acts;
    } else {
      AloneComes(c, acts, tid, rest, left, n - 1);
      var before := acts + RunsAlone(tid, n - 1);
      assert acts + RunsAlone(tid, n) == before + [Run(tid, false)];
      NextAlone(c, before, tid, rest, left - (n - 1));
    }
  }

  /** From every state a run can reach, a handler that then runs alone, without a
      failure of its own, leaves the stores and the codes as the sequential code
      does. */
  lemma AloneIsSequential(c: Config, acts: seq<Action>, tid: Tid, n: nat)
    requires tid in After(c, acts).threads && After(c, acts).threads[tid].pc == Start && 13 <= n
    ensures Same(StoresOf(After(c, acts + RunsAlone(tid, n)))) == Sequential(c, After(c, acts), tid)
  {
    var rest := Sequential(c, After(c, acts), tid);
    StartComes(c, acts, tid);
    AloneComes(c, acts, tid, rest, 13, n);
    ComesToAnEnd(c, After(c, acts + RunsAlone(tid, n)), tid, rest, 13 - n);
  }

  lemma StartComes(c: Config, acts: seq<Action>, tid: Tid)
    requires tid in After(c, acts).threads && After(c, acts).threads[tid].pc == Start
    ensures Comes(c, After(c, acts), tid, Sequential(c, After(c, acts), tid), 13)
  {
    AlwaysInv(c, acts);
    StartIsSequential(c, After(c, acts), tid);
  }

  lemma ComesToAnEnd(c: Config, s: State, tid: Tid, rest: Outcome, left: int)
    requires Comes(c, s, tid, rest, left) && left <= 0
    ensures Same(StoresOf(s)) == rest
  {
    StuckIsTheRest(c, s, tid);
  }

  /** The sign-in can go through: the request and the token are there, neither has
      expired, neither's lock is held, and the form approved or no approval is
      needed. */
  predicate Ready(c: Config, s: State, tid: Tid)
    requires tid in s.threads
  {
    var t := s.threads[tid];
    && (t.handler == Post(true) || t.handler == Get)
    && t.req in s.reqs && s.now <= s.reqs[t.req].expires && t.req !in s.reqLock
    && (t.handler == Get ==> c.waived(s.reqs[t.req].redirect))
    && t.token in s.tokens && s.now <= s.tokens[t.token].expires && t.token !in s.tokLock
  }

  /** From every state a run can reach, a handler that then runs alone mints exactly
      one code, for its request and its token's owner, if the sign-in can go
      through, and otherwise none. */
  lemma MintsIffReady(c: Config, acts: seq<Action>, tid: Tid, n: nat)
    requires tid in After(c, acts).threads && After(c, acts).threads[tid].pc == Start && 13 <= n
    ensures var (s, t) := (After(c, acts), After(c, acts).threads[tid]);
            && (Ready(c, s, tid) ==>
                  After(c, acts + RunsAlone(tid, n)).codes == s.codes + [Code(tid, t.req, t.token, s.reqs[t.req], s.tokens[t.token].user)])
            && (!Ready(c, s, tid) ==> After(c, acts + RunsAlone(tid, n)).codes == s.codes)
  {
    AloneIsSequential(c, acts, tid, n);
    SequentialMints(c, After(c, acts), tid);
  }

  lemma SequentialMints(c: Config, s: State, tid: Tid)
    requires tid in s.threads
    ensures var t := s.threads[tid];
            && (Ready(c, s, tid) ==>
                  Sequential(c, s, tid).codes == s.codes + [Code(tid, t.req, t.token, s.reqs[t.req], s.tokens[t.token].user)])
            && (!Ready(c, s, tid) ==> Sequential(c, s, tid).codes == s.codes)
  {
  }

  function Approval(req: ReqId, r: AuthRequest, token: Token, g: Grant, tid: Tid): seq<Action> {
    [] + [Authorize(req, r)] + [Login(token, g)] + [Arrive(tid, FormHandler(Some("approve")), req, token)]
  }

  /** A run that mints: a request, a sign-in, and the form approved. */
  lemma ApprovalMints(c: Config, req: ReqId, r: AuthRequest, token: Token, g: Grant, tid: Tid)
    ensures After(c, Approval(req, r, token, g, tid) + RunsAlone(tid, 13)).codes == [Code(tid, req, token, r, g.user)]
  {
    OneMore(c, [], Authorize(req, r));
    OneMore(c, [] + [Authorize(req, r)], Login(token, g));
    OneMore(c, [] + [Authorize(req, r)] + [Login(token, g)], Arrive(tid, FormHandler(Some("approve")), req, token));
    MintsIffReady(c, Approval(req, r, token, g, tid), tid, 13);
  }

  /** The rate limit, a redirect target that does not parse or an unknown client: a
      handler that fails before it goes for the request's lock is done, and has taken
      nothing. */
  lemma FailureTakesNothing(c: Config, acts: seq<Action>, tid: Tid)
    requires tid in After(c, acts).threads
    requires var t := After(c, acts).threads[tid];
             (t.pc == Start && (t.handler == Get || t.handler.Post?)) || t.pc == Releasing
    ensures var (s, s') := (After(c, acts), After(c, acts + [Run(tid, true)]));
            StoresOf(s') == StoresOf(s) && tid in s'.threads && s'.threads[tid].pc == Done
  {
    OneMore(c, acts, Run(tid, true));
  }
}
