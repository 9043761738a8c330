/** The completion of an OIDC sign-in. Handlers run concurrently over two
    stores of single-use credentials, the pending authorization requests and
    the login tokens; each store access and each lock operation is one step, so
    a run is any interleaving of the handlers' steps. */
module OidcCompletion {
  import opened Options

  /** A pending request: where its code goes, and which branch of the sign-in
      has claimed it. */
  datatype AuthRequest = AuthRequest(redirect: string, provider: Option<string>, local: bool, expires: nat)

  /** A login token's owner. */
  datatype Grant = Grant(user: string, expires: nat)

  /** Opaque identifiers. */
  type ReqId = nat
  type Token = nat
  type Tid = nat

  datatype Code = Code(tid: Tid, req: ReqId, token: Token, request: AuthRequest, user: string)

  /** What a handler is: the provider's return leg, the approval form, a native
      sign-in binding the request to a provider or (None) to the local branch,
      or another route that spends a login token. */
  datatype Handler =
    | Get
    | Post(approved: bool)
    | Bind(provider: Option<string>)
    | Spend

  /** Only the exact action approves. */
  predicate Approved(action: Option<string>) {
    action == Some("approve")
  }

  /** The handler of a submitted form. */
  function FormHandler(action: Option<string>): Handler {
    Post(Approved(action))
  }

  predicate Releases(h: Handler) {
    h.Get? || (h.Post? && h.approved)
  }

  predicate Refuses(h: Handler) {
    h.Post? && !h.approved
  }

  /** Whether the operator waives the approval for a redirect target. */
  datatype Config = Config(waived: string -> bool)

  /** A code may go out without asking only where the approval is waived. */
  predicate Permitted(c: Config, h: Handler, r: AuthRequest) {
    Releases(h) && (h.Get? ==> c.waived(r.redirect))
  }

  datatype Pc =
    | Start       // nothing read yet
    | Peeked      // holds a request, its expiry not yet checked
    | Asking      // about to peek at the token for the approval page
    | Releasing   // about to parse the redirect target and look up the client
    | ReqLock     // waiting for the request's lock
    | InReq       // holds it
    | Checking    // holds it, and read the request under it
    | ReqUnlock   // about to release it
    | TokLock     // waiting for the token's lock
    | InTok       // holds it
    | Spending    // holds it, and read the token under it
    | TokUnlock   // about to release it
    | Minting     // both credentials are taken
    | Done

  /** One request being handled; `read` is the request first peeked at, `got`
      the one read under the lock, `grant` the token read under its lock. */
  datatype Thread = Thread(handler: Handler, req: ReqId, token: Token, pc: Pc,
                           read: Option<AuthRequest>, got: Option<AuthRequest>, grant: Option<Grant>)

  /** The stores and locks, the handlers, and the history: IDs ever issued, which
      handler removed a request or spent a token, and the codes minted. */
  datatype State = State(
    now: nat,
    reqs: map<ReqId, AuthRequest>, tokens: map<Token, Grant>,
    reqLock: map<ReqId, Tid>, tokLock: map<Token, Tid>,
    threads: map<Tid, Thread>,
    issued: set<ReqId>, granted: set<Token>,
    removedBy: map<ReqId, Tid>, spentBy: map<Token, Tid>,
    codes: seq<Code>)

  const INIT: State := State(0, map[], map[], map[], map[], map[], {}, {}, map[], map[], [])

  /** `Run` lets a handler take its next step; `fail` decides the fallible work
      that touches neither store. Issued IDs are random, and so never repeat. */
  datatype Action =
    | Tick
    | Authorize(req: ReqId, request: AuthRequest)
    | Login(token: Token, grant: Grant)
    | Arrive(tid: Tid, handler: Handler, req: ReqId, token: Token)
    | Run(tid: Tid, fail: bool)

  function Step(c: Config, s: State, a: Action): State {
    match a
    case Tick => s.(now := s.now + 1)
    case Authorize(id, r) =>
      if id in s.issued then s else s.(reqs := s.reqs[id := r], issued := s.issued + {id})
    case Login(t, g) =>
      if t in s.granted then s else s.(tokens := s.tokens[t := g], granted := s.granted + {t})
    case Arrive(tid, h, req, token) =>
      if tid in s.threads then s
      else s.(threads := s.threads[tid := Thread(h, req, token, Start, None, None, None)])
    case Run(tid, fail) =>
      if tid !in s.threads then s
      else
        var (t, e) := Decide(c, s, s.threads[tid], tid, fail);
        Apply(s, tid, e).(threads := s.threads[tid := t])
  }

  /** What one step does to the stores. */
  datatype Effect =
    | Nothing
    | DropReq(req: ReqId)                       // found expired, with or without its lock
    | LockReq(req: ReqId)
    | UnlockReq(req: ReqId)
    | RetireReq(req: ReqId)
    | TakeReq(req: ReqId)
    | PutReq(req: ReqId, request: AuthRequest)
    | LockTok(token: Token)
    | UnlockTok(token: Token)
    | DropTok(token: Token)
    | SpendTok(token: Token)
    | Mint(code: Code)

  function Apply(s: State, tid: Tid, e: Effect): State {
    match e
    case Nothing => s
    case DropReq(r) => s.(reqs := s.reqs - {r})
    case LockReq(r) => s.(reqLock := s.reqLock[r := tid])
    case UnlockReq(r) => s.(reqLock := s.reqLock - {r})
    case RetireReq(r) =>
      if r in s.reqs then s.(reqs := s.reqs - {r}, removedBy := s.removedBy[r := tid]) else s
    case TakeReq(r) => s.(reqs := s.reqs - {r}, removedBy := s.removedBy[r := tid])
    case PutReq(r, request) => s.(reqs := s.reqs[r := request])
    case LockTok(k) => s.(tokLock := s.tokLock[k := tid])
    case UnlockTok(k) => s.(tokLock := s.tokLock - {k})
    case DropTok(k) => s.(tokens := s.tokens - {k})
    case SpendTok(k) => s.(tokens := s.tokens - {k}, spentBy := s.spentBy[k := tid])
    case Mint(code) => s.(codes := s.codes + [code])
  }

  /** A handler's next step: where it goes, and what it does to the stores. A
      lock that is held leaves it waiting. */
  function Decide(c: Config, s: State, t: Thread, tid: Tid, fail: bool): (Thread, Effect) {
    match t.pc
    case Start => (DecideStart(s, t, fail), Nothing)
    case Peeked => DecidePeeked(c, s, t)
    case Asking =>
      (t.(pc := Done), if t.token in s.tokens && s.now > s.tokens[t.token].expires then DropTok(t.token) else Nothing)
    case Releasing => (t.(pc := if fail then Done else ReqLock), Nothing)
    case ReqLock => if t.req in s.reqLock then (t, Nothing) else (t.(pc := InReq), LockReq(t.req))
    case InReq => DecideInReq(s, t)
    case Checking => DecideChecking(s, t)
    case ReqUnlock =>
      (t.(pc := if Refuses(t.handler) || (Releases(t.handler) && t.got.Some?) then TokLock else Done), UnlockReq(t.req))
    case TokLock => if t.token in s.tokLock then (t, Nothing) else (t.(pc := InTok), LockTok(t.token))
    case InTok =>
      (if t.token in s.tokens then t.(pc := Spending, grant := Some(s.tokens[t.token])) else t.(pc := TokUnlock), Nothing)
    case Spending =>
      if t.grant.None? || s.now > t.grant.value.expires
      then (t.(pc := TokUnlock, grant := None), DropTok(t.token))
      else (t.(pc := TokUnlock), SpendTok(t.token))
    case TokUnlock =>
      (t.(pc := if Releases(t.handler) && t.grant.Some? then Minting else Done), UnlockTok(t.token))
    case Minting =>
      (t.(pc := Done),
       if fail || t.got.None? || t.grant.None? then Nothing
       else Mint(Code(tid, t.req, t.token, t.got.value, t.grant.value.user)))
    case Done => (t, Nothing)
  }

  /** `complete_route` and `accept_code` peek at the request first; a refusal
      and a binding go straight for its lock; the rate limit may turn a form
      away. */
  function DecideStart(s: State, t: Thread, fail: bool): Thread {
    match t.handler
    case Bind(_) => t.(pc := ReqLock)
    case Spend => t.(pc := TokLock)
    case _ =>
      if fail then t.(pc := Done)
      else if Refuses(t.handler) then t.(pc := ReqLock)
      else if t.req in s.reqs then t.(pc := Peeked, read := Some(s.reqs[t.req]))
      else t.(pc := Done)
  }

  /** `peek_auth_request` drops an expired request, without its lock. */
  function DecidePeeked(c: Config, s: State, t: Thread): (Thread, Effect) {
    if t.read.None? then (t.(pc := Done), Nothing)
    else if s.now > t.read.value.expires then (t.(pc := Done), DropReq(t.req))
    else (t.(pc := if Permitted(c, t.handler, t.read.value) then Releasing else Asking), Nothing)
  }

  /** Under the lock: `retire_auth_request` removes without reading,
      `take_auth_request` and `update_auth_request` read. */
  function DecideInReq(s: State, t: Thread): (Thread, Effect) {
    if Refuses(t.handler) then (t.(pc := ReqUnlock), RetireReq(t.req))
    else if t.req in s.reqs then (t.(pc := Checking, got := Some(s.reqs[t.req])), Nothing)
    else (t.(pc := ReqUnlock), Nothing)
  }

  /** A binding may not contradict another, as `no_other_provider` and
      `local_unclaimed` say. */
  predicate MayBind(r: AuthRequest, provider: Option<string>) {
    (r.provider.Some? ==> r.provider == provider) && (provider.Some? ==> !r.local)
  }

  function Bound(r: AuthRequest, provider: Option<string>): AuthRequest {
    if provider.Some? then r.(provider := provider) else r.(local := true)
  }

  /** An expired request is dropped; a binding writes the request back; a take
      removes it if it is still the one first read. */
  function DecideChecking(s: State, t: Thread): (Thread, Effect) {
    var failed := t.(pc := ReqUnlock, got := None);
    if t.got.None? then (failed, Nothing)
    else if s.now > t.got.value.expires then (failed, DropReq(t.req))
    else if t.handler.Bind? then
      if MayBind(t.got.value, t.handler.provider)
      then (t.(pc := ReqUnlock), PutReq(t.req, Bound(t.got.value, t.handler.provider)))
      else (failed, Nothing)
    else if t.got != t.read then (failed, Nothing)
    else (t.(pc := ReqUnlock), TakeReq(t.req))
  }

  /** The state after a run; every interleaving is some list of actions. */
  function After(c: Config, acts: seq<Action>): State {
    if acts == [] then INIT else Step(c, After(c, acts[..|acts| - 1]), acts[|acts| - 1])
  }

  lemma OneMore(c: Config, acts: seq<Action>, a: Action)
    ensures After(c, acts + [a]) == Step(c, After(c, acts), a)
  {
    assert (acts + [a])[..|acts|] == acts;
  }

  // --- what every step keeps

  /** How far along a handler is. */
  function Stage(pc: Pc): nat {
    match pc
    case Start => 0
    case Peeked => 1
    case Asking => 2
    case Releasing => 3
    case ReqLock => 4
    case InReq => 5
    case Checking => 6
    case ReqUnlock => 7
    case TokLock => 8
    case InTok => 9
    case Spending => 10
    case TokUnlock => 11
    case Minting => 12
    case Done => 13
  }

  /** The locks a handler holds, by where it is. */
  ghost predicate LockInv(s: State, tid: Tid, t: Thread) {
    && (5 <= Stage(t.pc) <= 7 ==> t.req in s.reqLock && s.reqLock[t.req] == tid)
    && (9 <= Stage(t.pc) <= 11 ==> t.token in s.tokLock && s.tokLock[t.token] == tid)
  }

  /** What it knows of its request: once it has got past the check, it is the
      one that removed it. */
  ghost predicate RequestInv(c: Config, s: State, tid: Tid, t: Thread) {
    && (Stage(t.pc) <= 5 ==> t.got.None?)
    && (t.pc == Peeked ==> Releases(t.handler))
    && (Releases(t.handler) && 3 <= Stage(t.pc) <= 6 ==> t.read.Some? && Permitted(c, t.handler, t.read.value))
    && (t.pc == Checking ==> t.got.Some? && t.req in s.issued && t.req !in s.removedBy && !Refuses(t.handler))
    && (Releases(t.handler) && t.got.Some? && t.pc != Checking ==>
          t.got == t.read && Permitted(c, t.handler, t.got.value) && t.req in s.removedBy && s.removedBy[t.req] == tid)
    && (Releases(t.handler) && 8 <= Stage(t.pc) <= 12 ==> t.got.Some?)
    && (t.pc == Minting ==> Releases(t.handler))
  }

  /** What it knows of its token: likewise. */
  ghost predicate TokenInv(s: State, tid: Tid, t: Thread) {
    && (Stage(t.pc) <= 9 ==> t.grant.None?)
    && (t.pc == Spending ==> t.grant.Some? && t.token in s.granted && t.token !in s.spentBy)
    && (t.grant.Some? && t.pc != Spending ==> t.token in s.spentBy && s.spentBy[t.token] == tid)
  }

  ghost predicate ThreadInv(c: Config, s: State, tid: Tid, t: Thread) {
    LockInv(s, tid, t) && RequestInv(c, s, tid, t) && TokenInv(s, tid, t)
  }

  /** What the stores and the history agree on. */
  ghost predicate StoreInv(s: State) {
    && (forall r :: r in s.reqs ==> r in s.issued && r !in s.removedBy)
    && (forall r :: r in s.removedBy ==> r in s.issued)
    && (forall k :: k in s.tokens ==> k in s.granted && k !in s.spentBy)
    && (forall k :: k in s.spentBy ==> k in s.granted)
  }

  /** Each code was minted by a finished handler that removed its request and
      spent its token itself, for that request and that token's owner. */
  ghost predicate CodeInv(c: Config, s: State, code: Code) {
    && code.tid in s.threads
    && var t := s.threads[code.tid];
       && t.pc == Done && t.req == code.req && t.token == code.token
       && Permitted(c, t.handler, code.request) && t.read == Some(code.request)
       && t.grant.Some? && t.grant.value.user == code.user
       && code.req in s.removedBy && s.removedBy[code.req] == code.tid
       && code.token in s.spentBy && s.spentBy[code.token] == code.tid
  }

  ghost predicate Inv(c: Config, s: State) {
    && StoreInv(s)
    && (forall tid :: tid in s.threads ==> ThreadInv(c, s, tid, s.threads[tid]))
    && (forall i :: 0 <= i < |s.codes| ==> CodeInv(c, s, s.codes[i]))
    && (forall i, j :: 0 <= i < j < |s.codes| ==> s.codes[i].tid != s.codes[j].tid)
  }

  /** What a step of `tid` leaves the others: the locks they hold, and all the
      history except for the credentials it holds itself. */
  ghost predicate Undisturbed(s: State, s': State, tid: Tid) {
    && s.issued <= s'.issued && s.granted <= s'.granted
    && (forall r :: r in s.reqLock && s.reqLock[r] != tid ==> r in s'.reqLock && s'.reqLock[r] == s.reqLock[r])
    && (forall k :: k in s.tokLock && s.tokLock[k] != tid ==> k in s'.tokLock && s'.tokLock[k] == s.tokLock[k])
    && (forall r :: r in s.removedBy ==> r in s'.removedBy && s'.removedBy[r] == s.removedBy[r])
    && (forall k :: k in s.spentBy ==> k in s'.spentBy && s'.spentBy[k] == s.spentBy[k])
    && (forall r :: r in s'.removedBy && r !in s.removedBy ==> r in s.reqLock && s.reqLock[r] == tid)
    && (forall k :: k in s'.spentBy && k !in s.spentBy ==> k in s.tokLock && s.tokLock[k] == tid)
  }

  lemma OthersKeepInv(c: Config, s: State, s': State, tid: Tid, u: Tid, t: Thread)
    requires u != tid && ThreadInv(c, s, u, t) && Undisturbed(s, s', tid)
    ensures ThreadInv(c, s', u, t)
  {
  }

  /** What a handler may do, given the locks it holds. */
  ghost predicate Fine(s: State, tid: Tid, e: Effect) {
    match e
    case LockReq(r) => r !in s.reqLock
    case UnlockReq(r) => r in s.reqLock && s.reqLock[r] == tid
    case RetireReq(r) => r in s.reqLock && s.reqLock[r] == tid
    case TakeReq(r) => r in s.reqLock && s.reqLock[r] == tid && r in s.issued && r !in s.removedBy
    case PutReq(r, _) => r in s.issued && r !in s.removedBy
    case LockTok(k) => k !in s.tokLock
    case UnlockTok(k) => k in s.tokLock && s.tokLock[k] == tid
    case SpendTok(k) => k in s.tokLock && s.tokLock[k] == tid && k in s.granted && k !in s.spentBy
    case _ => true
  }

  /** What a step's effect means for the locks and the history. */
  ghost predicate Effected(s: State, tid: Tid, e: Effect, s': State) {
    && s'.issued == s.issued && s'.granted == s.granted
    && s'.reqLock == (match e case LockReq(r) => s.reqLock[r := tid] case UnlockReq(r) => s.reqLock - {r} case _ => s.reqLock)
    && s'.tokLock == (match e case LockTok(k) => s.tokLock[k := tid] case UnlockTok(k) => s.tokLock - {k} case _ => s.tokLock)
    && s'.removedBy == (if e.TakeReq? || (e.RetireReq? && e.req in s.reqs) then s.removedBy[e.req := tid] else s.removedBy)
    && s'.spentBy == (if e.SpendTok? then s.spentBy[e.token := tid] else s.spentBy)
  }

  lemma ApplyEffects(s: State, tid: Tid, e: Effect)
    ensures Effected(s, tid, e, Apply(s, tid, e))
  {
  }

  lemma ApplyKeepsStores(s: State, tid: Tid, e: Effect)
    requires StoreInv(s) && Fine(s, tid, e)
    ensures StoreInv(Apply(s, tid, e)) && Undisturbed(s, Apply(s, tid, e), tid)
  {
    ApplyEffects(s, tid, e);
    EffectedUndisturbs(s, tid, e, Apply(s, tid, e));
    ApplyKeepsStoreInv(s, tid, e);
  }

  lemma EffectedUndisturbs(s: State, tid: Tid, e: Effect, s': State)
    requires StoreInv(s) && Fine(s, tid, e) && Effected(s, tid, e, s')
    ensures Undisturbed(s, s', tid)
  {
  }

  lemma ApplyKeepsStoreInv(s: State, tid: Tid, e: Effect)
    requires StoreInv(s) && Fine(s, tid, e)
    ensures StoreInv(Apply(s, tid, e))
  {
  }

  lemma DecideIsFine(c: Config, s: State, t: Thread, tid: Tid, fail: bool)
    requires StoreInv(s) && ThreadInv(c, s, tid, t)
    ensures Fine(s, tid, Decide(c, s, t, tid, fail).1)
  {
    if Stage(t.pc) < 8 { EarlyIsFine(c, s, t, tid, fail); } else { LateIsFine(c, s, t, tid, fail); }
  }

  lemma EarlyIsFine(c: Config, s: State, t: Thread, tid: Tid, fail: bool)
    requires StoreInv(s) && ThreadInv(c, s, tid, t) && Stage(t.pc) < 8
    ensures Fine(s, tid, Decide(c, s, t, tid, fail).1)
  {
  }

  lemma LateIsFine(c: Config, s: State, t: Thread, tid: Tid, fail: bool)
    requires StoreInv(s) && ThreadInv(c, s, tid, t) && 8 <= Stage(t.pc)
    ensures Fine(s, tid, Decide(c, s, t, tid, fail).1)
  {
  }

  lemma StartKeepsInv(c: Config, s: State, t: Thread, tid: Tid, fail: bool, s': State)
    requires StoreInv(s) && ThreadInv(c, s, tid, t) && t.pc == Start
    requires Effected(s, tid, Decide(c, s, t, tid, fail).1, s')
    ensures ThreadInv(c, s', tid, Decide(c, s, t, tid, fail).0)
  {
  }

  lemma PeekedKeepsInv(c: Config, s: State, t: Thread, tid: Tid, fail: bool, s': State)
    requires StoreInv(s) && ThreadInv(c, s, tid, t) && t.pc == Peeked
    requires Effected(s, tid, Decide(c, s, t, tid, fail).1, s')
    ensures ThreadInv(c, s', tid, Decide(c, s, t, tid, fail).0)
  {
  }

  lemma ReleasingKeepsInv(c: Config, s: State, t: Thread, tid: Tid, fail: bool, s': State)
    requires StoreInv(s) && ThreadInv(c, s, tid, t) && 2 <= Stage(t.pc) <= 4
    requires Effected(s, tid, Decide(c, s, t, tid, fail).1, s')
    ensures ThreadInv(c, s', tid, Decide(c, s, t, tid, fail).0)
  {
  }

  lemma InReqKeepsInv(c: Config, s: State, t: Thread, tid: Tid, fail: bool, s': State)
    requires StoreInv(s) && ThreadInv(c, s, tid, t) && t.pc == InReq
    requires Effected(s, tid, Decide(c, s, t, tid, fail).1, s')
    ensures ThreadInv(c, s', tid, Decide(c, s, t, tid, fail).0)
  {
  }

  lemma CheckingKeepsInv(c: Config, s: State, t: Thread, tid: Tid, fail: bool, s': State)
    requires StoreInv(s) && ThreadInv(c, s, tid, t) && t.pc == Checking
    requires Effected(s, tid, Decide(c, s, t, tid, fail).1, s')
    ensures ThreadInv(c, s', tid, Decide(c, s, t, tid, fail).0)
  {
  }

  lemma UnlockKeepsInv(c: Config, s: State, t: Thread, tid: Tid, fail: bool, s': State)
    requires StoreInv(s) && ThreadInv(c, s, tid, t) && 7 <= Stage(t.pc) <= 8
    requires Effected(s, tid, Decide(c, s, t, tid, fail).1, s')
    ensures ThreadInv(c, s', tid, Decide(c, s, t, tid, fail).0)
  {
  }

  lemma InTokKeepsInv(c: Config, s: State, t: Thread, tid: Tid, fail: bool, s': State)
    requires StoreInv(s) && ThreadInv(c, s, tid, t) && t.pc == InTok
    requires Effected(s, tid, Decide(c, s, t, tid, fail).1, s')
    ensures ThreadInv(c, s', tid, Decide(c, s, t, tid, fail).0)
  {
  }

  lemma SpendingKeepsInv(c: Config, s: State, t: Thread, tid: Tid, fail: bool, s': State)
    requires StoreInv(s) && ThreadInv(c, s, tid, t) && t.pc == Spending
    requires Effected(s, tid, Decide(c, s, t, tid, fail).1, s')
    ensures ThreadInv(c, s', tid, Decide(c, s, t, tid, fail).0)
  {
  }

  lemma TokUnlockKeepsInv(c: Config, s: State, t: Thread, tid: Tid, fail: bool, s': State)
    requires StoreInv(s) && ThreadInv(c, s, tid, t) && t.pc == TokUnlock
    requires Effected(s, tid, Decide(c, s, t, tid, fail).1, s')
    ensures ThreadInv(c, s', tid, Decide(c, s, t, tid, fail).0)
  {
  }

  lemma MintKeepsInv(c: Config, s: State, t: Thread, tid: Tid, fail: bool, s': State)
    requires StoreInv(s) && ThreadInv(c, s, tid, t) && 12 <= Stage(t.pc)
    requires Effected(s, tid, Decide(c, s, t, tid, fail).1, s')
    ensures ThreadInv(c, s', tid, Decide(c, s, t, tid, fail).0)
  {
  }

  lemma DecideKeepsInv(c: Config, s: State, t: Thread, tid: Tid, fail: bool)
    requires StoreInv(s) && ThreadInv(c, s, tid, t)
    ensures var (t', e) := Decide(c, s, t, tid, fail); ThreadInv(c, Apply(s, tid, e), tid, t')
  {
    var s' := Apply(s, tid, Decide(c, s, t, tid, fail).1);
    ApplyEffects(s, tid, Decide(c, s, t, tid, fail).1);
    match t.pc
    case Start => StartKeepsInv(c, s, t, tid, fail, s');
    case Peeked => PeekedKeepsInv(c, s, t, tid, fail, s');
    case InReq => InReqKeepsInv(c, s, t, tid, fail, s');
    case Checking => CheckingKeepsInv(c, s, t, tid, fail, s');
    case ReqUnlock => UnlockKeepsInv(c, s, t, tid, fail, s');
    case TokLock => UnlockKeepsInv(c, s, t, tid, fail, s');
    case InTok => InTokKeepsInv(c, s, t, tid, fail, s');
    case Spending => SpendingKeepsInv(c, s, t, tid, fail, s');
    case TokUnlock => TokUnlockKeepsInv(c, s, t, tid, fail, s');
    case Minting => MintKeepsInv(c, s, t, tid, fail, s');
    case Done => MintKeepsInv(c, s, t, tid, fail, s');
    case _ => ReleasingKeepsInv(c, s, t, tid, fail, s');
  }

  /** Everything known of a step of `tid` to `t` with effect `e`. */
  ghost predicate Allowed(c: Config, s: State, tid: Tid, t: Thread, e: Effect) {
    && tid in s.threads && Fine(s, tid, e) && ThreadInv(c, Apply(s, tid, e), tid, t)
    && (s.threads[tid].pc == Done ==> t == s.threads[tid] && e == Nothing)
    && (e.Mint? ==> s.threads[tid].pc == Minting && Minted(c, s, tid, t, e.code))
  }

  /** The code is for the credentials the handler took itself. */
  ghost predicate Minted(c: Config, s: State, tid: Tid, t: Thread, code: Code) {
    && t.pc == Done && code.tid == tid && t.req == code.req && t.token == code.token
    && Permitted(c, t.handler, code.request) && t.read == Some(code.request)
    && t.grant.Some? && t.grant.value.user == code.user
    && code.req in s.removedBy && s.removedBy[code.req] == tid
    && code.token in s.spentBy && s.spentBy[code.token] == tid
  }

  lemma DecideMints(c: Config, s: State, tid: Tid, t: Thread, fail: bool)
    requires StoreInv(s) && ThreadInv(c, s, tid, t)
    ensures var (t', e) := Decide(c, s, t, tid, fail);
            && (t.pc == Done ==> t' == t && e == Nothing)
            && (e.Mint? ==> t.pc == Minting && Minted(c, s, tid, t', e.code))
  {
  }

  lemma DecideIsAllowed(c: Config, s: State, tid: Tid, fail: bool)
    requires StoreInv(s) && tid in s.threads && ThreadInv(c, s, tid, s.threads[tid])
    ensures var (t', e) := Decide(c, s, s.threads[tid], tid, fail); Allowed(c, s, tid, t', e)
  {
    DecideIsFine(c, s, s.threads[tid], tid, fail);
    DecideKeepsInv(c, s, s.threads[tid], tid, fail);
    DecideMints(c, s, tid, s.threads[tid], fail);
  }

  lemma StepIsAllowed(c: Config, s: State, tid: Tid, fail: bool) returns (t': Thread, e: Effect)
    requires StoreInv(s) && tid in s.threads && ThreadInv(c, s, tid, s.threads[tid])
    ensures Allowed(c, s, tid, t', e)
    ensures Step(c, s, Run(tid, fail)) == Apply(s, tid, e).(threads := s.threads[tid := t'])
  {
    DecideIsAllowed(c, s, tid, fail);
    t', e := Decide(c, s, s.threads[tid], tid, fail).0, Decide(c, s, s.threads[tid], tid, fail).1;
  }

  lemma AllowedKeepsThreads(c: Config, s: State, tid: Tid, t': Thread, e: Effect, s': State)
    requires StoreInv(s) && forall u :: u in s.threads ==> ThreadInv(c, s, u, s.threads[u])
    requires Allowed(c, s, tid, t', e) && s' == Apply(s, tid, e).(threads := s.threads[tid := t'])
    ensures StoreInv(s') && Undisturbed(s, s', tid)
    ensures forall u :: u in s'.threads ==> ThreadInv(c, s', u, s'.threads[u])
  {
    ApplyKeepsStores(s, tid, e);
    WithThreads(c, s, Apply(s, tid, e), tid, t', s');
  }

  /** Putting the moved thread back changes nothing else. */
  lemma WithThreads(c: Config, s: State, applied: State, tid: Tid, t': Thread, s': State)
    requires tid in s.threads && forall u :: u in s.threads ==> ThreadInv(c, s, u, s.threads[u])
    requires StoreInv(applied) && Undisturbed(s, applied, tid) && ThreadInv(c, applied, tid, t')
    requires s' == applied.(threads := s.threads[tid := t'])
    ensures StoreInv(s') && Undisturbed(s, s', tid)
    ensures forall u :: u in s'.threads ==> ThreadInv(c, s', u, s'.threads[u])
  {
    forall u | u in s'.threads ensures ThreadInv(c, s', u, s'.threads[u]) {
      if u != tid { OthersKeepInv(c, s, applied, tid, u, s.threads[u]); }
      SameHistory(c, applied, s', u, s'.threads[u]);
    }
  }

  lemma KeepsCodes(c: Config, s: State, tid: Tid, t': Thread, added: seq<Code>, s': State)
    requires (forall i :: 0 <= i < |s.codes| ==> CodeInv(c, s, s.codes[i]))
    requires (forall i, j :: 0 <= i < j < |s.codes| ==> s.codes[i].tid != s.codes[j].tid)
    requires Undisturbed(s, s', tid) && tid in s.threads && s'.threads == s.threads[tid := t']
    requires s.threads[tid].pc == Done ==> t' == s.threads[tid] && added == []
    requires |added| <= 1 && forall code :: code in added ==> Minted(c, s, tid, t', code)
    requires s'.codes == s.codes + added
    ensures forall i :: 0 <= i < |s'.codes| ==> CodeInv(c, s', s'.codes[i])
    ensures forall i, j :: 0 <= i < j < |s'.codes| ==> s'.codes[i].tid != s'.codes[j].tid
  {
    forall i | 0 <= i < |s.codes| ensures CodeInv(c, s', s.codes[i]) && (added != [] ==> s.codes[i].tid != tid) {
      CodeIsKept(c, s, tid, t', s', s.codes[i]);
    }
    forall code | code in added ensures CodeInv(c, s', code) && code.tid == tid {
      NewCode(c, s, tid, t', s', code);
    }
  }

  lemma NewCode(c: Config, s: State, tid: Tid, t': Thread, s': State, code: Code)
    requires Minted(c, s, tid, t', code) && Undisturbed(s, s', tid) && s'.threads == s.threads[tid := t']
    ensures CodeInv(c, s', code)
  {
  }

  lemma CodeIsKept(c: Config, s: State, tid: Tid, t': Thread, s': State, code: Code)
    requires CodeInv(c, s, code) && Undisturbed(s, s', tid) && tid in s.threads && s'.threads == s.threads[tid := t']
    requires s.threads[tid].pc == Done ==> t' == s.threads[tid]
    ensures CodeInv(c, s', code) && (s.threads[tid].pc != Done ==> code.tid != tid)
  {
  }

  lemma ApplyCodes(s: State, tid: Tid, e: Effect)
    ensures Apply(s, tid, e).codes == s.codes + if e.Mint? then [e.code] else []
  {
  }

  lemma AllowedKeepsInv(c: Config, s: State, tid: Tid, t': Thread, e: Effect, s': State)
    requires Inv(c, s) && Allowed(c, s, tid, t', e) && s' == Apply(s, tid, e).(threads := s.threads[tid := t'])
    ensures Inv(c, s')
  {
    ApplyCodes(s, tid, e);
    AllowedKeepsThreads(c, s, tid, t', e, s');
    AllowedKeepsCodes(c, s, tid, t', e, s');
  }

  lemma AllowedKeepsCodes(c: Config, s: State, tid: Tid, t': Thread, e: Effect, s': State)
    requires (forall i :: 0 <= i < |s.codes| ==> CodeInv(c, s, s.codes[i]))
    requires (forall i, j :: 0 <= i < j < |s.codes| ==> s.codes[i].tid != s.codes[j].tid)
    requires Allowed(c, s, tid, t', e) && Undisturbed(s, s', tid) && s'.threads == s.threads[tid := t']
    requires s'.codes == s.codes + if e.Mint? then [e.code] else []
    ensures forall i :: 0 <= i < |s'.codes| ==> CodeInv(c, s', s'.codes[i])
    ensures forall i, j :: 0 <= i < j < |s'.codes| ==> s'.codes[i].tid != s'.codes[j].tid
  {
    KeepsCodes(c, s, tid, t', if e.Mint? then [e.code] else [], s');
  }

  lemma RunKeepsInv(c: Config, s: State, tid: Tid, fail: bool)
    requires Inv(c, s) && tid in s.threads
    ensures Inv(c, Step(c, s, Run(tid, fail)))
  {
    var t', e := StepIsAllowed(c, s, tid, fail);
    AllowedKeepsInv(c, s, tid, t', e, Step(c, s, Run(tid, fail)));
  }

  lemma SameHistory(c: Config, s: State, s': State, tid: Tid, t: Thread)
    requires ThreadInv(c, s, tid, t) && s.issued <= s'.issued && s.granted <= s'.granted
    requires s'.reqLock == s.reqLock && s'.tokLock == s.tokLock && s'.removedBy == s.removedBy && s'.spentBy == s.spentBy
    ensures ThreadInv(c, s', tid, t)
  {
  }

  /** Time passing, and new requests, tokens and handlers. */
  lemma EnvironmentKeepsInv(c: Config, s: State, a: Action)
    requires Inv(c, s) && !a.Run?
    ensures Inv(c, Step(c, s, a))
  {
    var s' := Step(c, s, a);
    EnvironmentStep(c, s, a);
    forall u | u in s.threads ensures ThreadInv(c, s', u, s'.threads[u]) {
      SameHistory(c, s, s', u, s.threads[u]);
    }
    forall i | 0 <= i < |s.codes| ensures CodeInv(c, s', s.codes[i]) {
      CodeStays(c, s, s', s.codes[i]);
    }
  }

  lemma EnvironmentStep(c: Config, s: State, a: Action)
    requires StoreInv(s) && !a.Run?
    ensures Grown(c, s, Step(c, s, a))
  {
    match a
    case Tick => Stays(c, s, s.(now := s.now + 1));
    case Authorize(id, r) => if id in s.issued { Stays(c, s, s); } else { Issue(c, s, id, r); }
    case Login(k, g) => if k in s.granted { Stays(c, s, s); } else { Give(c, s, k, g); }
    case Arrive(tid, h, req, token) => if tid in s.threads { Stays(c, s, s); } else { Come(c, s, tid, h, req, token); }
  }

  ghost predicate Grown(c: Config, s: State, s': State) {
    && StoreInv(s') && SameBut(s, s')
    && forall u :: u in s'.threads && u !in s.threads ==> ThreadInv(c, s', u, s'.threads[u])
  }

  lemma Stays(c: Config, s: State, s': State)
    requires StoreInv(s) && s' == s.(now := s'.now)
    ensures Grown(c, s, s')
  {
  }

  lemma Issue(c: Config, s: State, id: ReqId, r: AuthRequest)
    requires StoreInv(s) && id !in s.issued
    ensures Grown(c, s, s.(reqs := s.reqs[id := r], issued := s.issued + {id}))
  {
  }

  lemma Give(c: Config, s: State, k: Token, g: Grant)
    requires StoreInv(s) && k !in s.granted
    ensures Grown(c, s, s.(tokens := s.tokens[k := g], granted := s.granted + {k}))
  {
  }

  lemma Come(c: Config, s: State, tid: Tid, h: Handler, req: ReqId, token: Token)
    requires StoreInv(s) && tid !in s.threads
    ensures Grown(c, s, s.(threads := s.threads[tid := Thread(h, req, token, Start, None, None, None)]))
  {
  }

  lemma CodeStays(c: Config, s: State, s': State, code: Code)
    requires CodeInv(c, s, code) && SameBut(s, s')
    ensures CodeInv(c, s', code)
  {
  }

  ghost predicate SameBut(s: State, s': State) {
    && s.issued <= s'.issued && s.granted <= s'.granted && s'.codes == s.codes
    && s'.reqLock == s.reqLock && s'.tokLock == s.tokLock && s'.removedBy == s.removedBy && s'.spentBy == s.spentBy
    && (forall u :: u in s.threads ==> u in s'.threads && s'.threads[u] == s.threads[u])
  }

  /** In every interleaving the invariant holds. */
  lemma {:induction false} AlwaysInv(c: Config, acts: seq<Action>)
    ensures Inv(c, After(c, acts))
  {
    if acts != [] {
      var n := |acts| - 1;
      var s, a := After(c, acts[..n]), acts[n];
      AlwaysInv(c, acts[..n]);
      StepKeepsInv(c, s, a);
    }
  }

  lemma StepKeepsInv(c: Config, s: State, a: Action)
    requires Inv(c, s)
    ensures Inv(c, Step(c, s, a))
  {
    if a.Run? && a.tid in s.threads { RunKeepsInv(c, s, a.tid, a.fail); }
    else if !a.Run? { EnvironmentKeepsInv(c, s, a); }
  }

  // --- locks are held by someone at work, and tokens spent by someone done

  ghost predicate Tidy(s: State) {
    && (forall r :: r in s.reqLock ==> HolderOfReq(s, r))
    && (forall k :: k in s.tokLock ==> HolderOfTok(s, k))
    && (forall k :: k in s.spentBy ==> Spender(s, k))
  }

  ghost predicate HolderOfReq(s: State, r: ReqId)
    requires r in s.reqLock
  {
    s.reqLock[r] in s.threads && var t := s.threads[s.reqLock[r]]; t.req == r && 5 <= Stage(t.pc) <= 7
  }

  ghost predicate HolderOfTok(s: State, k: Token)
    requires k in s.tokLock
  {
    s.tokLock[k] in s.threads && var t := s.threads[s.tokLock[k]]; t.token == k && 9 <= Stage(t.pc) <= 11
  }

  /** A releasing handler that spent its token had its request first. */
  ghost predicate Spender(s: State, k: Token)
    requires k in s.spentBy
  {
    && s.spentBy[k] in s.threads
    && var t := s.threads[s.spentBy[k]];
       t.token == k && 11 <= Stage(t.pc) && (Releases(t.handler) ==> t.got.Some?)
  }

  /** How a handler moves: it keeps what it was asked, and leaves a lock's
      section only by releasing the lock. */
  ghost predicate Moves(t: Thread, t': Thread, e: Effect) {
    && t'.req == t.req && t'.token == t.token && t'.handler == t.handler
    && (5 <= Stage(t.pc) <= 7 ==> e == UnlockReq(t.req) || 5 <= Stage(t'.pc) <= 7)
    && (9 <= Stage(t.pc) <= 11 ==> e == UnlockTok(t.token) || 9 <= Stage(t'.pc) <= 11)
    && (e.LockReq? ==> e.req == t.req && t'.pc == InReq)
    && (e.LockTok? ==> e.token == t.token && t'.pc == InTok)
    && (e.SpendTok? ==> e.token == t.token && t'.pc == TokUnlock && (Releases(t.handler) ==> t'.got.Some?))
    && (11 <= Stage(t.pc) ==> 11 <= Stage(t'.pc) && t'.got == t.got)
  }

  lemma DecideMoves(c: Config, s: State, t: Thread, tid: Tid, fail: bool)
    requires ThreadInv(c, s, tid, t)
    ensures Moves(t, Decide(c, s, t, tid, fail).0, Decide(c, s, t, tid, fail).1)
  {
    if Stage(t.pc) < 8 { EarlyMoves(c, s, t, tid, fail); } else { LateMoves(c, s, t, tid, fail); }
  }

  lemma EarlyMoves(c: Config, s: State, t: Thread, tid: Tid, fail: bool)
    requires ThreadInv(c, s, tid, t) && Stage(t.pc) < 8
    ensures Moves(t, Decide(c, s, t, tid, fail).0, Decide(c, s, t, tid, fail).1)
  {
  }

  lemma LateMoves(c: Config, s: State, t: Thread, tid: Tid, fail: bool)
    requires ThreadInv(c, s, tid, t) && 8 <= Stage(t.pc)
    ensures Moves(t, Decide(c, s, t, tid, fail).0, Decide(c, s, t, tid, fail).1)
  {
  }

  lemma StepMoves(c: Config, s: State, tid: Tid, fail: bool) returns (t': Thread, e: Effect)
    requires tid in s.threads && ThreadInv(c, s, tid, s.threads[tid])
    ensures Moves(s.threads[tid], t', e)
    ensures Step(c, s, Run(tid, fail)) == Apply(s, tid, e).(threads := s.threads[tid := t'])
  {
    DecideMoves(c, s, s.threads[tid], tid, fail);
    t', e := Decide(c, s, s.threads[tid], tid, fail).0, Decide(c, s, s.threads[tid], tid, fail).1;
  }

  lemma MovesKeepTidy(s: State, tid: Tid, t': Thread, e: Effect, s': State)
    requires Tidy(s) && tid in s.threads && Moves(s.threads[tid], t', e)
    requires s' == Apply(s, tid, e).(threads := s.threads[tid := t'])
    ensures Tidy(s')
  {
    ApplyEffects(s, tid, e);
    forall r | r in s'.reqLock ensures HolderOfReq(s', r) { ReqHolderMoves(s, tid, t', e, s', r); }
    forall k | k in s'.tokLock ensures HolderOfTok(s', k) { TokHolderMoves(s, tid, t', e, s', k); }
    forall k | k in s'.spentBy ensures Spender(s', k) { SpenderMoves(s, tid, t', e, s', k); }
  }

  lemma ReqHolderMoves(s: State, tid: Tid, t': Thread, e: Effect, s': State, r: ReqId)
    requires tid in s.threads && Moves(s.threads[tid], t', e) && (r in s.reqLock ==> HolderOfReq(s, r))
    requires Effected(s, tid, e, s') && s'.threads == s.threads[tid := t'] && r in s'.reqLock
    ensures HolderOfReq(s', r)
  {
  }

  lemma TokHolderMoves(s: State, tid: Tid, t': Thread, e: Effect, s': State, k: Token)
    requires tid in s.threads && Moves(s.threads[tid], t', e) && (k in s.tokLock ==> HolderOfTok(s, k))
    requires Effected(s, tid, e, s') && s'.threads == s.threads[tid := t'] && k in s'.tokLock
    ensures HolderOfTok(s', k)
  {
  }

  lemma SpenderMoves(s: State, tid: Tid, t': Thread, e: Effect, s': State, k: Token)
    requires tid in s.threads && Moves(s.threads[tid], t', e) && (k in s.spentBy ==> Spender(s, k))
    requires Effected(s, tid, e, s') && s'.threads == s.threads[tid := t'] && k in s'.spentBy
    ensures Spender(s', k)
  {
  }

  lemma {:induction false} AlwaysTidy(c: Config, acts: seq<Action>)
    ensures Tidy(After(c, acts))
  {
    if acts != [] {
      var n := |acts| - 1;
      var s, a := After(c, acts[..n]), acts[n];
      AlwaysTidy(c, acts[..n]);
      AlwaysInv(c, acts[..n]);
      StepKeepsTidy(c, s, a);
    }
  }

  lemma StepKeepsTidy(c: Config, s: State, a: Action)
    requires Inv(c, s) && Tidy(s)
    ensures Tidy(Step(c, s, a))
  {
    if a.Run? && a.tid in s.threads {
      var t', e := StepMoves(c, s, a.tid, a.fail);
      MovesKeepTidy(s, a.tid, t', e, Step(c, s, a));
    } else if !a.Run? {
      EnvironmentStep(c, s, a);
      SameButKeepsTidy(s, Step(c, s, a));
    }
  }

  lemma SameButKeepsTidy(s: State, s': State)
    requires Tidy(s) && SameBut(s, s')
    ensures Tidy(s')
  {
  }

  // --- what it comes to

  /** In every interleaving, each code was minted by a handler that itself
      removed the pending request and spent the login token, and was allowed to
      release that very request; so no request and no token yields two codes. */
  lemma CodesAreOneShot(c: Config, acts: seq<Action>)
    ensures var s := After(c, acts);
            && (forall i :: 0 <= i < |s.codes| ==> CodeInv(c, s, s.codes[i]))
            && (forall i, j :: 0 <= i < j < |s.codes| ==>
                  s.codes[i].req != s.codes[j].req && s.codes[i].token != s.codes[j].token)
  {
    AlwaysInv(c, acts);
    var s := After(c, acts);
    forall i, j | 0 <= i < j < |s.codes|
      ensures s.codes[i].req != s.codes[j].req && s.codes[i].token != s.codes[j].token
    {
      assert CodeInv(c, s, s.codes[i]) && CodeInv(c, s, s.codes[j]);
    }
  }

  /** `later` continues `earlier`: nothing that happened is undone. */
  ghost predicate Continues(earlier: State, later: State) {
    && (forall r :: r in earlier.removedBy ==> r in later.removedBy && later.removedBy[r] == earlier.removedBy[r])
    && (forall k :: k in earlier.spentBy ==> k in later.spentBy && later.spentBy[k] == earlier.spentBy[k])
    && (forall u :: u in earlier.threads ==> u in later.threads && later.threads[u].handler == earlier.threads[u].handler)
  }

  lemma StepContinues(c: Config, s: State, a: Action)
    requires Inv(c, s)
    ensures Continues(s, Step(c, s, a))
  {
    if a.Run? && a.tid in s.threads {
      var t', e := StepIsAllowed(c, s, a.tid, a.fail);
      HandlerStays(c, s, a.tid, a.fail);
      ApplyKeepsStores(s, a.tid, e);
      MovedContinues(s, Apply(s, a.tid, e), a.tid, t', Step(c, s, a));
    } else if !a.Run? {
      EnvironmentStep(c, s, a);
    }
  }

  lemma HandlerStays(c: Config, s: State, tid: Tid, fail: bool)
    requires tid in s.threads && ThreadInv(c, s, tid, s.threads[tid])
    ensures Step(c, s, Run(tid, fail)).threads[tid].handler == s.threads[tid].handler
  {
    var t', e := StepMoves(c, s, tid, fail);
  }

  lemma MovedContinues(s: State, applied: State, tid: Tid, t': Thread, s': State)
    requires tid in s.threads && Undisturbed(s, applied, tid) && t'.handler == s.threads[tid].handler
    requires s' == applied.(threads := s.threads[tid := t'])
    ensures Continues(s, s')
  {
  }

  lemma {:induction false} RunsContinue(c: Config, acts: seq<Action>, more: seq<Action>)
    ensures Continues(After(c, acts), After(c, acts + more))
  {
    if more == [] {
      assert acts + more == acts;
    } else {
      var (rest, last) := (more[..|more| - 1], more[|more| - 1]);
      RunsContinue(c, acts, rest);
      assert acts + more == acts + rest + [last];
      NextContinues(c, acts + rest, last);
      ContinueTwice(After(c, acts), After(c, acts + rest), After(c, acts + more));
    }
  }

  lemma NextContinues(c: Config, acts: seq<Action>, a: Action)
    ensures Continues(After(c, acts), After(c, acts + [a]))
  {
    AlwaysInv(c, acts);
    OneMore(c, acts, a);
    StepContinues(c, After(c, acts), a);
  }

  lemma ContinueTwice(s: State, s': State, s'': State)
    requires Continues(s, s') && Continues(s', s'')
    ensures Continues(s, s'')
  {
  }

  /** A refusal, or any other handler that does not release codes, excludes the
      code for good once it has removed the request or spent the token. */
  lemma RefusalExcludesTheCode(c: Config, acts: seq<Action>, more: seq<Action>, code: Code)
    requires var s := After(c, acts);
             || (code.req in s.removedBy && s.removedBy[code.req] in s.threads
                 && !Releases(s.threads[s.removedBy[code.req]].handler))
             || (code.token in s.spentBy && s.spentBy[code.token] in s.threads
                 && !Releases(s.threads[s.spentBy[code.token]].handler))
    ensures code !in After(c, acts + more).codes
  {
    RunsContinue(c, acts, more);
    AlwaysInv(c, acts + more);
    var later := After(c, acts + more);
    forall i | 0 <= i < |later.codes| ensures later.codes[i] != code {
      assert CodeInv(c, later, later.codes[i]);
    }
  }

  /** A handler that meant to release a code but did not get the request has
      not spent the token. */
  lemma FailedTakeKeepsTheToken(c: Config, acts: seq<Action>, tid: Tid)
    requires var s := After(c, acts); tid in s.threads && Releases(s.threads[tid].handler)
    ensures var s := After(c, acts);
            var t := s.threads[tid];
            t.token in s.spentBy && s.spentBy[t.token] == tid ==> t.req in s.removedBy && s.removedBy[t.req] == tid
  {
    AlwaysInv(c, acts);
    AlwaysTidy(c, acts);
    SpenderHadTheRequest(c, After(c, acts), tid);
  }

  lemma SpenderHadTheRequest(c: Config, s: State, tid: Tid)
    requires tid in s.threads && Releases(s.threads[tid].handler)
    requires ThreadInv(c, s, tid, s.threads[tid]) && forall k :: k in s.spentBy ==> Spender(s, k)
    ensures var t := s.threads[tid];
            t.token in s.spentBy && s.spentBy[t.token] == tid ==> t.req in s.removedBy && s.removedBy[t.req] == tid
  {
    assert s.threads[tid].token in s.spentBy ==> Spender(s, s.threads[tid].token);
  }

  /** Whatever a form says, a code it released was released by the one exact
      action: in every interleaving, no other form has a code to its name. */
  lemma OnlyApproveReleases(c: Config, acts: seq<Action>, code: Code, action: Option<string>)
    requires code in After(c, acts).codes
    ensures var s := After(c, acts);
            code.tid in s.threads && (s.threads[code.tid].handler == FormHandler(action) ==> action == Some("approve"))
  {
    AlwaysInv(c, acts);
    var s := After(c, acts);
    var i :| 0 <= i < |s.codes| && s.codes[i] == code;
    assert CodeInv(c, s, s.codes[i]);
  }

  /** Without a form, a code goes out only where the operator waives the approval:
      in every interleaving, to the redirect target of the request itself. */
  lemma OnlyWaivedSkipsTheForm(c: Config, acts: seq<Action>, code: Code)
    requires code in After(c, acts).codes
    ensures var s := After(c, acts);
            code.tid in s.threads && (s.threads[code.tid].handler == Get ==> c.waived(code.request.redirect))
  {
    AlwaysInv(c, acts);
    var s := After(c, acts);
    var i :| 0 <= i < |s.codes| && s.codes[i] == code;
    assert CodeInv(c, s, s.codes[i]);
  }
}
