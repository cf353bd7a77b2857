/** What every interleaving of the sign-in protocol keeps. */
module AuthSafety {
  import opened Wrappers
  import opened Auth

  ghost predicate Leads(s: State, steps: seq<Step>, t: State)
    decreases |steps|
  {
    if steps == [] then s == t
    else Enabled(s, steps[0]) && Leads(After(s, steps[0]), steps[1..], t)
  }

  // ---------------------------------------------------------------- what an event of the log shows

  /** Event `e` redeemed the right install token for this name and password. */
  predicate RedeemAt(log: seq<Event>, e: nat, username: string, password: string) {
    && e < |log| && log[e].step.Redeem? && log[e].step.tokenRight
    && log[e].step.username == username && log[e].step.password == password
  }

  /** Event `c` confirmed the enrollment of `u` with a right code, within the
      lifetime of the challenge sealed as its row was created. */
  predicate EnrollCodeAt(log: seq<Event>, row: User, u: Uid, c: nat) {
    && c < |log| && log[c].step.ConfirmRead? && log[c].step.codeRight && log[c].step.ch.user == u
    && var created := log[c].step.ch.sealedBy;
       row.source < created < c && log[created].step.CreateAdmin? && log[c].at < log[created].at + ENROLL_TTL
  }

  /** Event `k` presented the name and the password of `u`. */
  predicate PasswordAt(log: seq<Event>, row: User, u: Uid, k: nat) {
    k < |log| && log[k].step.LoginRead? && log[k].step.who == Some(u) && log[k].step.password == row.password
  }

  /** Event `f` presented a second factor on the challenge that event `k` earned,
      within its lifetime. */
  predicate FactorAt(log: seq<Event>, u: Uid, k: nat, f: nat) {
    && k < f < |log| && log[f].step.LoginTotpRead? && log[f].step.ch.user == u && log[f].step.ch.sealedBy == k
    && log[k].at <= log[f].at < log[k].at + TOTP_TTL
  }

  /** That factor was right: a right code, or a recovery code this very event used up. */
  predicate FactorRight(s: State, u: Uid, f: nat)
    requires f < |s.log| && s.log[f].step.LoginTotpRead?
  {
    match s.log[f].step.with
    case TotpCode(right) => right
    case RecoveryCode(code) => Use(Code(u, code), f) in s.accepted
    case Nothing => false
  }

  predicate Verified(answer: Answer) { answer.stateMatches && answer.exchange.Some? && answer.allowed }

  /** Event `c` came back from the provider with an allowlisted identity, for a flow
      begun less than its lifetime before. */
  predicate VerifiedAt(log: seq<Event>, c: nat) {
    && c < |log| && log[c].step.Callback? && Verified(log[c].step.answer)
    && var begun := log[c].step.flow.sealedBy; begun < c && log[c].at < log[begun].at + FLOW_TTL
  }

  predicate IdentityAt(log: seq<Event>, c: nat, id: Identity) {
    && VerifiedAt(log, c) && log[c].step.flow.purpose.Login? && log[log[c].step.flow.sealedBy].step.OidcStart?
    && log[c].step.answer.exchange.value == id
  }

  // ---------------------------------------------------------------- what a session stands for

  /** The sign-in that a session of `u` stands for, all of it before event `before`. */
  ghost predicate Earned(s: State, u: Uid, origin: Origin, before: nat) {
    && u in s.users && before <= |s.log|
    && var row := s.users[u];
       match origin
       case ByEnrollment(c) =>
         row.confirmed && RedeemAt(s.log, row.source, row.username, row.password) && EnrollCodeAt(s.log, row, u, c) && c < before
       case ByLogin(k, f) =>
         row.confirmed && PasswordAt(s.log, row, u, k) && FactorAt(s.log, u, k, f) && FactorRight(s, u, f) && f < before
       case ByIdentity(c) =>
         row.oidc.Some? && IdentityAt(s.log, c, row.oidc.value) && c < before
  }

  /** The event that completed a sign-in, and the one that verified a step-up. */
  function OriginKey(origin: Origin): nat {
    match origin case ByEnrollment(c) => c case ByLogin(_, f) => f case ByIdentity(c) => c
  }

  function KindKey(kind: Kind): nat {
    match kind case LocalReauth(_, c) => c case OidcReauth(_, c) => c
  }

  /** Event `start`, after this session of `u` was minted, presented its token. */
  predicate StartedAt(s: State, token: Token, u: Uid, start: nat) {
    token < |s.mints| && s.mints[token].user == u && s.mints[token].at < start < |s.log|
  }

  predicate LocalStartedAt(s: State, token: Token, u: Uid, start: nat, p: nat) {
    StartedAt(s, token, u, start) && s.log[start].step == LocalSession(p, token)
  }

  predicate OidcStartedAt(s: State, token: Token, u: Uid, start: nat) {
    && StartedAt(s, token, u, start)
    && s.log[start].step.StepUpSession? && s.log[start].step.token == token
  }

  /** Event `c` came back, verified, from the flow that was begun for this token
      after `start` had presented it. */
  predicate OidcCheckedAt(s: State, token: Token, u: Uid, subject: string, start: nat, c: nat) {
    && OidcStartedAt(s, token, u, start) && VerifiedAt(s.log, c)
    && s.log[c].step.flow.purpose == StepUp(token, u, start) && start < s.log[c].step.flow.sealedBy
    && s.log[s.log[c].step.flow.sealedBy].step.StepUpUser?
    && s.log[c].step.answer.exchange.value.subject == subject
  }

  /** The verification that a stamp on a session of `u` stands for: begun with this
      session's token, after it was minted, and over before event `before`. */
  ghost predicate StampEarned(s: State, token: Token, u: Uid, kind: Kind, before: nat) {
    && u in s.users && before <= |s.log|
    && var row := s.users[u];
       match kind
       case LocalReauth(start, c) =>
         && row.confirmed && start < c < before && s.log[c].step.LocalVerify? && s.log[c].step.codeRight
         && (s.log[c].step.alsoPassword.Some? ==> s.log[c].step.alsoPassword.value == row.password)
         && LocalStartedAt(s, token, u, start, s.log[c].step.p)
       case OidcReauth(start, c) =>
         && row.oidc.Some? && c < before && row.oidc.value.subject != ""
         && OidcCheckedAt(s, token, u, row.oidc.value.subject, start, c)
  }

  // ---------------------------------------------------------------- what a step never takes back

  /** A row that identifies someone: a confirmed administrator or an IdP identity. */
  predicate Established(row: User) { row.confirmed || row.oidc.Some? }

  ghost predicate UsersGrow(s: State, s': State) {
    && s.nextUser <= s'.nextUser
    && (forall u | u in s.users && Established(s.users[u]) :: u in s'.users)
    && (forall u | u in s.users && u in s'.users ::
          && s'.users[u].oidc == s.users[u].oidc && (s.users[u].confirmed ==> s'.users[u].confirmed)
          && s'.users[u].username == s.users[u].username && s'.users[u].password == s.users[u].password
          && s'.users[u].source == s.users[u].source)
    && (forall u | u in s'.users && u < s.nextUser :: u in s.users)
  }

  /** What happened stays; established rows stay; identifiers and tokens are never
      used again. */
  ghost predicate Grows(s: State, s': State) {
    && UsersGrow(s, s') && s.log <= s'.log && s.accepted <= s'.accepted
    && s.mints <= s'.mints && s.stamps <= s'.stamps && s.now <= s'.now
  }

  // ---------------------------------------------------------------- the invariant, part by part

  ghost predicate UserOk(s: State, u: Uid)
    requires u in s.users
  {
    var row := s.users[u];
    && u < s.nextUser
    && (row.confirmed ==> row.oidc.None?)
    && (row.oidc.None? ==> RedeemAt(s.log, row.source, row.username, row.password))
    && (row.oidc.Some? ==> IdentityAt(s.log, row.source, row.oidc.value))
    && (!row.confirmed ==> row.failed == 0 && row.locked.None?)
  }

  ghost predicate OneConfirmed(s: State) {
    forall u, v | u in s.users && v in s.users && s.users[u].confirmed && s.users[v].confirmed :: u == v
  }

  ghost predicate MintOk(s: State, m: Minted) {
    m.at < |s.log| && s.log[m.at].step.Mint? && Earned(s, m.user, m.origin, m.at)
  }

  ghost predicate StampOk(s: State, m: Stamped) {
    m.at < |s.log| && s.log[m.at].step.Mark? && StampEarned(s, m.token, m.user, m.kind, m.at)
  }

  ghost predicate SessionOk(s: State, t: Token)
    requires t in s.sessions
  {
    var row := s.sessions[t];
    && t < |s.mints| && row.user == s.mints[t].user && row.user in s.users && Established(s.users[row.user])
    && (row.reauth.Some? ==>
          var j := row.reauth.value.stamp;
          && j < |s.stamps| && s.stamps[j].token == t && s.stamps[j].at < |s.log|
          && row.reauth.value.at == s.log[s.stamps[j].at].at)
  }

  predicate UsedUp(accepted: seq<Use>, c: Code) { exists i :: 0 <= i < |accepted| && accepted[i].code == c }

  ghost predicate CodesOk(s: State) {
    && (forall c | c in s.codes :: c.user in s.users && (s.codes[c] <==> UsedUp(s.accepted, c)))
    && (forall i | 0 <= i < |s.accepted| :: s.accepted[i].code.user < s.nextUser)
    && (forall i, j | 0 <= i < j < |s.accepted| :: s.accepted[i].code != s.accepted[j].code)
  }

  ghost predicate ChallengeOk(s: State, ch: Challenge) {
    && ch.user < s.nextUser && ch.sealedBy < |s.log|
    && ch.expires == Unix(s.log[ch.sealedBy].at + Lifetime(ch.stage))
    && match ch.stage
       case Enroll =>
         && s.log[ch.sealedBy].step.CreateAdmin?
         && (ch.user in s.users ==> s.users[ch.user].oidc.None? && s.users[ch.user].source < ch.sealedBy)
       case SecondFactor =>
         ConfirmedUser(s, ch.user) && PasswordAt(s.log, s.users[ch.user], ch.user, ch.sealedBy)
  }

  ghost predicate FlowOk(s: State, f: Flow) {
    && f.sealedBy < |s.log| && f.expires == Unix(s.log[f.sealedBy].at + FLOW_TTL)
    && match f.purpose
       case Login => s.log[f.sealedBy].step.OidcStart?
       case StepUp(token, u, start) =>
         OidcStartedAt(s, token, u, start) && start < f.sealedBy && s.log[f.sealedBy].step.StepUpUser?
  }

  ghost predicate ConfirmedUser(s: State, u: Uid) { u in s.users && s.users[u].confirmed }

  /** What a handler between statements may rely on. */
  ghost predicate ProcOk(s: State, p: nat, proc: Proc) {
    match proc
    case Redeeming(username, password, _, e) => RedeemAt(s.log, e, username, password)
    case ConfirmingTotp(u, c) =>
      u < s.nextUser && (u in s.users ==> s.users[u].oidc.None? && EnrollCodeAt(s.log, s.users[u], u, c))
    case Consuming(u, k, f, code) =>
      && ConfirmedUser(s, u) && PasswordAt(s.log, s.users[u], u, k) && FactorAt(s.log, u, k, f)
      && s.log[f].step.with == RecoveryCode(code)
    case CountingFailure(u) => ConfirmedUser(s, u)
    case Locking(u) => ConfirmedUser(s, u)
    case Resetting(u, origin) => ConfirmedUser(s, u) && Earned(s, u, origin, |s.log|)
    case Minting(u, origin) => u < s.nextUser && (u in s.users ==> Earned(s, u, origin, |s.log|))
    case Resolving(id, c) => IdentityAt(s.log, c, id)
    case Provisioning(id, c) => IdentityAt(s.log, c, id)
    case Reresolving(id, c) => IdentityAt(s.log, c, id)
    case StartingStepUp(token, u, start) => OidcStartedAt(s, token, u, start)
    case CheckingSession(token, u, subject, start, c) => OidcCheckedAt(s, token, u, subject, start, c)
    case CheckingSubject(token, u, subject, start, c) => OidcCheckedAt(s, token, u, subject, start, c)
    case CheckingLocalUser(token, u, start) => LocalStartedAt(s, token, u, start, p)
    case VerifyingLocally(token, u, start) => LocalStartedAt(s, token, u, start, p) && ConfirmedUser(s, u)
    case Marking(token, u, kind) => StampEarned(s, token, u, kind, |s.log|)
  }

  // ---------------------------------------------------------------- no event counts twice

  /** The verifying event a handler is about to use. */
  function Key(proc: Proc): Option<nat> {
    match proc
    case ConfirmingTotp(_, c) => Some(c)
    case Consuming(_, _, f, _) => Some(f)
    case Resetting(_, origin) => Some(OriginKey(origin))
    case Minting(_, origin) => Some(OriginKey(origin))
    case Resolving(_, c) => Some(c)
    case Provisioning(_, c) => Some(c)
    case Reresolving(_, c) => Some(c)
    case CheckingSession(_, _, _, _, c) => Some(c)
    case CheckingSubject(_, _, _, _, c) => Some(c)
    case Marking(_, _, kind) => Some(KindKey(kind))
    case _ => None
  }

  /** No session and no stamp was made with event `k`. */
  ghost predicate Unspent(s: State, k: nat) {
    && (forall i | 0 <= i < |s.mints| :: OriginKey(s.mints[i].origin) != k)
    && (forall j | 0 <= j < |s.stamps| :: KindKey(s.stamps[j].kind) != k)
  }

  /** The event of handler `p` is its own. */
  ghost predicate OwnKey(s: State, p: nat) {
    p in s.procs && Key(s.procs[p]).Some? ==>
      && Key(s.procs[p]).value < |s.log| && Unspent(s, Key(s.procs[p]).value)
      && (forall q | q in s.procs && q != p :: Key(s.procs[q]) != Key(s.procs[p]))
  }

  /** Session `i` was not made with the event of an earlier one; nor was stamp `i`. */
  ghost predicate OwnMint(s: State, i: nat) {
    i < |s.mints| ==> forall j | 0 <= j < i :: OriginKey(s.mints[j].origin) != OriginKey(s.mints[i].origin)
  }

  ghost predicate OwnStamp(s: State, i: nat) {
    i < |s.stamps| ==> forall j | 0 <= j < i :: KindKey(s.stamps[j].kind) != KindKey(s.stamps[i].kind)
  }

  ghost predicate Unshared(s: State) {
    && (forall p {:trigger OwnKey(s, p)} | p in s.procs :: OwnKey(s, p))
    && (forall i {:trigger OwnMint(s, i)} | 0 <= i < |s.mints| :: OwnMint(s, i))
    && (forall i {:trigger OwnStamp(s, i)} | 0 <= i < |s.stamps| :: OwnStamp(s, i))
  }

  /** The event just logged is nobody's yet. */
  ghost predicate Untouched(s: State) {
    && s.log != [] && Unspent(s, s.This())
    && (forall p | p in s.procs :: Key(s.procs[p]) != Some(s.This()))
  }

  // ---------------------------------------------------------------- all of it

  predicate InOrder(log: seq<Event>, i: nat, j: nat) { i < j < |log| ==> log[i].at <= log[j].at }

  ghost predicate LogOk(s: State) {
    && (forall i | 0 <= i < |s.log| :: s.log[i].at <= s.now)
    && (forall i, j {:trigger InOrder(s.log, i, j)} | 0 <= i < j < |s.log| :: InOrder(s.log, i, j))
  }

  ghost predicate UsersOk(s: State) { forall u {:trigger UserOk(s, u)} | u in s.users :: UserOk(s, u) }
  ghost predicate SessionsOk(s: State) { forall t {:trigger SessionOk(s, t)} | t in s.sessions :: SessionOk(s, t) }
  ghost predicate MintsOk(s: State) {
    forall i {:trigger MintOk(s, s.mints[i])} | 0 <= i < |s.mints| :: MintOk(s, s.mints[i])
  }
  ghost predicate StampsOk(s: State) {
    forall i {:trigger StampOk(s, s.stamps[i])} | 0 <= i < |s.stamps| :: StampOk(s, s.stamps[i])
  }
  ghost predicate ChallengesOk(s: State) { forall ch {:trigger ChallengeOk(s, ch)} | ch in s.challenges :: ChallengeOk(s, ch) }
  ghost predicate FlowsOk(s: State) { forall f {:trigger FlowOk(s, f)} | f in s.flows :: FlowOk(s, f) }
  ghost predicate ProcsOk(s: State) {
    forall p {:trigger ProcOk(s, p, s.procs[p])} | p in s.procs :: ProcOk(s, p, s.procs[p])
  }

  ghost predicate Inv(s: State) {
    && UsersOk(s) && OneConfirmed(s) && SessionsOk(s) && MintsOk(s) && StampsOk(s)
    && CodesOk(s) && ChallengesOk(s) && FlowsOk(s) && ProcsOk(s) && LogOk(s) && Unshared(s)
  }

  /** The states that may come after `s`: nothing taken back, and all in order. */
  ghost function Futures(s: State): iset<State> { iset t: State | Grows(s, t) && Inv(t) }

  ghost predicate Kept(s: State, s': State) { s' in Futures(s) }

  // ---------------------------------------------------------------- growth keeps what is known

  lemma EarnedGrows(s: State, s': State, u: Uid, origin: Origin, before: nat, before': nat)
    requires Grows(s, s') && Earned(s, u, origin, before) && before <= before' <= |s'.log|
    ensures Earned(s', u, origin, before')
  {
    match origin
    case ByLogin(_, f) => assert s'.log[f] == s.log[f];
    case _ =>
  }

  lemma StampEarnedGrows(s: State, s': State, token: Token, u: Uid, kind: Kind, before: nat, before': nat)
    requires Grows(s, s') && StampEarned(s, token, u, kind, before) && before <= before' <= |s'.log|
    ensures StampEarned(s', token, u, kind, before')
  {
    assert KindKey(kind) < |s.log|;
  }

  lemma ProcGrows(s: State, s': State, p: nat, proc: Proc)
    requires Grows(s, s') && ProcOk(s, p, proc)
    ensures ProcOk(s', p, proc)
  {
    match proc
    case Resetting(u, origin) => EarnedGrows(s, s', u, origin, |s.log|, |s'.log|);
    case Minting(u, origin) => if u in s'.users { EarnedGrows(s, s', u, origin, |s.log|, |s'.log|); }
    case Marking(token, u, kind) => StampEarnedGrows(s, s', token, u, kind, |s.log|, |s'.log|);
    case _ =>
  }

  lemma ChallengeGrows(s: State, s': State, ch: Challenge)
    requires Grows(s, s') && ChallengeOk(s, ch)
    ensures ChallengeOk(s', ch)
  {
  }

  lemma SessionGrows(s: State, s': State, t: Token)
    requires Grows(s, s') && t in s.sessions && SessionOk(s, t)
    requires t in s'.sessions && s'.sessions[t] == s.sessions[t]
    ensures SessionOk(s', t)
  {
  }

  lemma UsersStay(s: State, s': State)
    requires UsersOk(s) && s'.users == s.users && s'.nextUser == s.nextUser && s.log <= s'.log
    ensures UsersOk(s')
  {
    forall u | u in s'.users ensures UserOk(s', u) { assert UserOk(s, u); }
  }

  lemma GrowsTransitive(s: State, s': State, s'': State)
    requires Grows(s, s') && Grows(s', s'') && UsersOk(s)
    ensures Grows(s, s'')
  {
    forall u | u in s.users && u in s''.users ensures u in s'.users { assert UserOk(s, u); }
  }

  lemma KeptTwice(s: State, s': State, s'': State)
    requires Inv(s) && Kept(s, s') && Kept(s', s'')
    ensures Kept(s, s'')
  {
    GrowsTransitive(s, s', s'');
  }

  // ---------------------------------------------------------------- what each step has to show

  /** Everything that was there and is unchanged stays in order; these are the rest. */
  ghost predicate NewOk(s: State, s': State) {
    && (forall ch | ch in s'.challenges && ch !in s.challenges :: ChallengeOk(s', ch))
    && (forall f | f in s'.flows && f !in s.flows :: FlowOk(s', f))
    && (forall p | p in s'.procs && !(p in s.procs && s'.procs[p] == s.procs[p]) :: ProcOk(s', p, s'.procs[p]))
    && (forall t | t in s'.sessions && !(t in s.sessions && s'.sessions[t] == s.sessions[t]) :: SessionOk(s', t))
    && (forall i | |s.mints| <= i < |s'.mints| :: MintOk(s', s'.mints[i]))
    && (forall i | |s.stamps| <= i < |s'.stamps| :: StampOk(s', s'.stamps[i]))
  }

  lemma CookiesStay(s: State, s': State)
    requires ChallengesOk(s) && FlowsOk(s) && Grows(s, s') && NewOk(s, s')
    ensures ChallengesOk(s') && FlowsOk(s')
  {
    forall ch | ch in s'.challenges ensures ChallengeOk(s', ch) {
      if ch in s.challenges { ChallengeGrows(s, s', ch); }
    }
    forall f | f in s'.flows ensures FlowOk(s', f) {
      if f in s.flows { assert FlowOk(s, f); }
    }
  }

  lemma HandlersStay(s: State, s': State)
    requires ProcsOk(s) && SessionsOk(s) && Grows(s, s') && NewOk(s, s')
    ensures ProcsOk(s') && SessionsOk(s')
  {
    forall p | p in s'.procs ensures ProcOk(s', p, s'.procs[p]) {
      if p in s.procs && s'.procs[p] == s.procs[p] { ProcGrows(s, s', p, s.procs[p]); }
    }
    forall t | t in s'.sessions ensures SessionOk(s', t) {
      if t in s.sessions && s'.sessions[t] == s.sessions[t] { SessionGrows(s, s', t); }
    }
  }

  lemma HistoryStays(s: State, s': State)
    requires MintsOk(s) && StampsOk(s) && Grows(s, s') && NewOk(s, s')
    ensures MintsOk(s') && StampsOk(s')
  {
    forall i | 0 <= i < |s'.mints| ensures MintOk(s', s'.mints[i]) {
      if i < |s.mints| {
        var m := s.mints[i];
        assert MintOk(s, m) && s'.mints[i] == m;
        EarnedGrows(s, s', m.user, m.origin, m.at, m.at);
      }
    }
    forall i | 0 <= i < |s'.stamps| ensures StampOk(s', s'.stamps[i]) {
      if i < |s.stamps| {
        var m := s.stamps[i];
        assert StampOk(s, m) && s'.stamps[i] == m;
        StampEarnedGrows(s, s', m.token, m.user, m.kind, m.at, m.at);
      }
    }
  }

  lemma Assemble(s: State, s': State)
    requires Inv(s) && Grows(s, s') && NewOk(s, s')
    requires UsersOk(s') && OneConfirmed(s') && CodesOk(s') && LogOk(s') && Unshared(s')
    ensures Kept(s, s')
  {
    CookiesStay(s, s');
    HandlersStay(s, s');
    HistoryStays(s, s');
  }

  /** Handler `p` ends, moves on with the event it has, or takes the one just logged. */
  ghost predicate MovesOn(s: State, s': State, p: nat) {
    && (forall q | q != p :: q in s'.procs <==> q in s.procs)
    && (forall q | q != p && q in s.procs :: s'.procs[q] == s.procs[q])
    && (p in s'.procs ==> ProcOk(s', p, s'.procs[p]) && KeyFrom(s, p, Key(s'.procs[p])))
  }

  ghost predicate KeyFrom(s: State, p: nat, key: Option<nat>) {
    || key.None?
    || (p in s.procs && key == Key(s.procs[p]))
    || (Untouched(s) && key.value == s.This())
  }

  lemma KeysMove(s: State, s': State, p: nat)
    requires Unshared(s) && MovesOn(s, s', p)
    requires s'.mints == s.mints && s'.stamps == s.stamps && s'.log == s.log
    ensures Unshared(s')
  {
    forall q | q in s'.procs ensures OwnKey(s', q) {
      assert OwnKey(s, q) && OwnKey(s, p);
    }
    forall i | 0 <= i < |s.mints| ensures OwnMint(s', i) { assert OwnMint(s, i); }
    forall i | 0 <= i < |s.stamps| ensures OwnStamp(s', i) { assert OwnStamp(s, i); }
  }

  lemma KeysStay(s: State, s': State)
    requires Unshared(s) && s'.procs == s.procs && s'.mints == s.mints && s'.stamps == s.stamps && s'.log == s.log
    ensures Unshared(s')
  {
    forall q | q in s'.procs ensures OwnKey(s', q) { assert OwnKey(s, q); }
    forall i | 0 <= i < |s.mints| ensures OwnMint(s', i) { assert OwnMint(s, i); }
    forall i | 0 <= i < |s.stamps| ensures OwnStamp(s', i) { assert OwnStamp(s, i); }
  }

  /** The handler `p` moves on; no table changes. */
  lemma HandlerMoves(s: State, s': State, p: nat)
    requires Inv(s) && s' == s.(procs := s'.procs) && MovesOn(s, s', p)
    ensures Kept(s, s')
  {
    UsersStay(s, s');
    KeysMove(s, s', p);
    Assemble(s, s');
  }

  lemma HandlerEnds(s: State, p: nat)
    requires Inv(s)
    ensures Kept(s, End(s, p))
  {
    HandlerMoves(s, End(s, p), p);
  }

  lemma HandlerPut(s: State, p: nat, proc: Proc)
    requires Inv(s) && ProcOk(s, p, proc) && KeyFrom(s, p, Key(proc))
    ensures Kept(s, Put(s, p, proc))
  {
    var s' := Put(s, p, proc);
    ProcElsewhere(s, s', p, proc);
    HandlerMoves(s, s', p);
  }

  /** What a handler relies on does not depend on the other handlers. */
  lemma ProcElsewhere(s: State, s': State, p: nat, proc: Proc)
    requires ProcOk(s, p, proc) && s' == s.(procs := s'.procs)
    ensures ProcOk(s', p, proc)
  {
    ProcGrows(s, s', p, proc);
  }

  /** A challenge or a flow is sealed. */
  lemma Seals(s: State, s': State)
    requires Inv(s) && s' == s.(challenges := s'.challenges, flows := s'.flows)
    requires forall ch | ch in s'.challenges && ch !in s.challenges :: ChallengeOk(s', ch)
    requires forall f | f in s'.flows && f !in s.flows :: FlowOk(s', f)
    ensures Kept(s, s')
  {
    UsersStay(s, s');
    KeysStay(s, s');
    Assemble(s, s');
  }

  /** Rows of the users table change; a handler may move on. */
  lemma RowsChange(s: State, s': State, p: nat)
    requires Inv(s)
    requires s' == s.(users := s'.users, codes := s'.codes, nextUser := s'.nextUser, accepted := s'.accepted, procs := s'.procs)
    requires UsersGrow(s, s') && s.accepted <= s'.accepted && MovesOn(s, s', p)
    requires UsersOk(s') && OneConfirmed(s') && CodesOk(s')
    ensures Kept(s, s')
  {
    forall t | t in s.sessions ensures SessionOk(s', t) { assert SessionOk(s, t); }
    KeysMove(s, s', p);
    Assemble(s, s');
  }

  // ---------------------------------------------------------------- taking the step down

  /** The step just taken down. */
  ghost predicate Taken(s: State, step: Step) {
    s.log != [] && s.log[s.This()] == Event(step, s.now) && Untouched(s)
  }

  lemma RecordKeeps(s: State, step: Step)
    requires Inv(s)
    ensures Kept(s, Record(s, step)) && Taken(Record(s, step), step)
  {
    var s' := Record(s, step);
    UsersStay(s, s');
    RecordedKeys(s, step);
    forall i, j | 0 <= i < j < |s'.log| ensures InOrder(s'.log, i, j) { assert j < |s.log| ==> InOrder(s.log, i, j); }
    Assemble(s, s');
  }

  lemma RecordedKeys(s: State, step: Step)
    requires Inv(s)
    ensures Unshared(Record(s, step)) && Untouched(Record(s, step))
  {
    var s' := Record(s, step);
    forall i | 0 <= i < |s.mints| ensures OriginKey(s.mints[i].origin) < |s.log| { assert MintOk(s, s.mints[i]); }
    forall i | 0 <= i < |s.stamps| ensures KindKey(s.stamps[i].kind) < |s.log| { assert StampOk(s, s.stamps[i]); }
    forall p | p in s'.procs ensures OwnKey(s', p) { assert OwnKey(s, p); }
    forall p | p in s'.procs ensures Key(s'.procs[p]) != Some(|s.log|) { assert OwnKey(s, p); }
    forall i | 0 <= i < |s.mints| ensures OwnMint(s', i) { assert OwnMint(s, i); }
    forall i | 0 <= i < |s.stamps| ensures OwnStamp(s', i) { assert OwnStamp(s, i); }
  }

  // ---------------------------------------------------------------- reading steps

  /** A cookie that is still usable was sealed less than its lifetime ago, though its
      expiry is kept in whole seconds. */
  lemma OpensInTime(now: int, sealedAt: int, lifetime: int)
    requires Unix(now) < Unix(sealedAt + lifetime)
    ensures now < sealedAt + lifetime
  {
  }

  lemma RedeemKeeps(s: State, p: nat, username: string, password: string, codes: set<string>, tokenRight: bool)
    requires Inv(s) && Taken(s, Redeem(p, username, password, codes, tokenRight)) && p !in s.procs
    ensures Kept(s, AfterRedeem(s, p, username, password, codes, tokenRight))
  {
    if AfterRedeem(s, p, username, password, codes, tokenRight) != s {
      HandlerPut(s, p, Redeeming(username, password, codes, s.This()));
    }
  }

  lemma ConfirmReadKeeps(s: State, p: nat, ch: Challenge, codeRight: bool)
    requires Inv(s) && Taken(s, ConfirmRead(p, ch, codeRight)) && p !in s.procs && ch in s.challenges
    ensures Kept(s, AfterConfirmRead(s, p, ch, codeRight))
  {
    assert ChallengeOk(s, ch);
    if Usable(s, ch, Enroll) { OpensInTime(s.now, s.log[ch.sealedBy].at, ENROLL_TTL); }
    if AfterConfirmRead(s, p, ch, codeRight) != s { HandlerPut(s, p, ConfirmingTotp(ch.user, s.This())); }
  }

  lemma LoginReadKeeps(s: State, p: nat, who: Option<Uid>, username: string, password: string)
    requires Inv(s) && Taken(s, LoginRead(p, who, username, password)) && p !in s.procs
    requires who.Some? ==> who.value in s.users
    ensures Kept(s, AfterLoginRead(s, p, who, password))
  {
    var s' := AfterLoginRead(s, p, who, password);
    if who.Some? {
      assert UserOk(s, who.value);
      if s' == Seal(s, who.value, SecondFactor) { Seals(s, s'); }
      if s' == Put(s, p, CountingFailure(who.value)) && ConfirmedUser(s, who.value) { HandlerPut(s, p, CountingFailure(who.value)); }
    }
  }

  lemma LoginTotpReadKeeps(s: State, p: nat, ch: Challenge, with: Presented)
    requires Inv(s) && Taken(s, LoginTotpRead(p, ch, with)) && p !in s.procs && ch in s.challenges
    ensures Kept(s, AfterLoginTotpRead(s, p, ch, with))
  {
    assert ChallengeOk(s, ch);
    if Usable(s, ch, SecondFactor) {
      OpensInTime(s.now, s.log[ch.sealedBy].at, TOTP_TTL);
      match with
      case TotpCode(true) => HandlerPut(s, p, Resetting(ch.user, ByLogin(ch.sealedBy, s.This())));
      case RecoveryCode(code) => HandlerPut(s, p, Consuming(ch.user, ch.sealedBy, s.This(), code));
      case _ => HandlerPut(s, p, CountingFailure(ch.user));
    }
  }

  lemma OidcStartKeeps(s: State)
    requires Inv(s) && Taken(s, OidcStart)
    ensures Kept(s, SealFlow(s, Login))
  {
    Seals(s, SealFlow(s, Login));
  }

  /** A session that can be looked up was minted before the event that looks. */
  lemma MintedBefore(s: State, token: Token, step: Step)
    requires Inv(s) && Taken(s, step) && !step.Mint? && token in s.sessions
    ensures StartedAt(s, token, s.sessions[token].user, s.This())
  {
    assert SessionOk(s, token);
    assert MintOk(s, s.mints[token]);
  }

  lemma StepUpSessionKeeps(s: State, p: nat, token: Token)
    requires Inv(s) && Taken(s, StepUpSession(p, token)) && p !in s.procs
    ensures Kept(s, AfterStepUpSession(s, p, token))
  {
    if Live(s, token) {
      MintedBefore(s, token, StepUpSession(p, token));
      HandlerPut(s, p, StartingStepUp(token, s.sessions[token].user, s.This()));
    }
  }

  lemma LocalSessionKeeps(s: State, p: nat, token: Token)
    requires Inv(s) && Taken(s, LocalSession(p, token)) && p !in s.procs
    ensures Kept(s, AfterLocalSession(s, p, token))
  {
    if Live(s, token) {
      MintedBefore(s, token, LocalSession(p, token));
      HandlerPut(s, p, CheckingLocalUser(token, s.sessions[token].user, s.This()));
    }
  }

  lemma StepUpUserKeeps(s: State, p: nat)
    requires Inv(s) && Taken(s, StepUpUser(p)) && p in s.procs && s.procs[p].StartingStepUp?
    ensures Kept(s, AfterStepUpUser(s, p))
  {
    assert ProcOk(s, p, s.procs[p]);
    HandlerEnds(s, p);
    Seals(End(s, p), AfterStepUpUser(s, p));
    KeptTwice(s, End(s, p), AfterStepUpUser(s, p));
  }

  lemma CallbackKeeps(s: State, p: nat, flow: Flow, answer: Answer)
    requires Inv(s) && Taken(s, Callback(p, flow, answer)) && p !in s.procs && flow in s.flows
    ensures Kept(s, AfterCallback(s, p, flow, answer))
  {
    assert FlowOk(s, flow);
    if Unix(s.now) < flow.expires && Verified(answer) {
      OpensInTime(s.now, s.log[flow.sealedBy].at, FLOW_TTL);
      var id := answer.exchange.value;
      match flow.purpose
      case Login => HandlerPut(s, p, Resolving(id, s.This()));
      case StepUp(token, u, start) => HandlerPut(s, p, CheckingSession(token, u, id.subject, start, s.This()));
    }
  }

  lemma FoundKeeps(s: State, p: nat, who: Option<Uid>, otherwise: State)
    requires Inv(s) && p in s.procs && (s.procs[p].Resolving? || s.procs[p].Reresolving?)
    requires Selects(s, who, s.procs[p].identity)
    requires otherwise == End(s, p) || otherwise == Put(s, p, Provisioning(s.procs[p].identity, s.procs[p].event))
    ensures Kept(s, Found(s, p, who, s.procs[p].event, otherwise))
  {
    assert ProcOk(s, p, s.procs[p]);
    match who {
      case Some(u) => assert UserOk(s, u); HandlerPut(s, p, Minting(u, ByIdentity(s.procs[p].event)));
      case None =>
        HandlerEnds(s, p);
        HandlerPut(s, p, Provisioning(s.procs[p].identity, s.procs[p].event));
    }
  }

  lemma ReauthSessionKeeps(s: State, p: nat)
    requires Inv(s) && p in s.procs && s.procs[p].CheckingSession?
    ensures Kept(s, AfterReauthSession(s, p))
  {
    assert ProcOk(s, p, s.procs[p]);
    var CheckingSession(token, u, subject, start, event) := s.procs[p];
    HandlerPut(s, p, CheckingSubject(token, u, subject, start, event));
    HandlerEnds(s, p);
  }

  lemma ReauthUserKeeps(s: State, p: nat)
    requires Inv(s) && p in s.procs && s.procs[p].CheckingSubject?
    ensures Kept(s, AfterReauthUser(s, p))
  {
    assert ProcOk(s, p, s.procs[p]);
    var CheckingSubject(token, u, subject, start, event) := s.procs[p];
    if AfterReauthUser(s, p) == End(s, p) { HandlerEnds(s, p); }
    else { HandlerPut(s, p, Marking(token, u, OidcReauth(start, event))); }
  }

  lemma LocalUserKeeps(s: State, p: nat)
    requires Inv(s) && p in s.procs && s.procs[p].CheckingLocalUser?
    ensures Kept(s, AfterLocalUser(s, p))
  {
    assert ProcOk(s, p, s.procs[p]);
    var CheckingLocalUser(token, u, start) := s.procs[p];
    if AfterLocalUser(s, p) == End(s, p) { HandlerEnds(s, p); }
    else { HandlerPut(s, p, VerifyingLocally(token, u, start)); }
  }

  lemma LocalVerifyKeeps(s: State, p: nat, codeRight: bool, password: Option<string>)
    requires Inv(s) && Taken(s, LocalVerify(p, codeRight, password)) && p in s.procs && s.procs[p].VerifyingLocally?
    ensures Kept(s, AfterLocalVerify(s, p, codeRight, password))
  {
    assert ProcOk(s, p, s.procs[p]);
    var VerifyingLocally(token, u, start) := s.procs[p];
    if AfterLocalVerify(s, p, codeRight, password) == End(s, p) { HandlerEnds(s, p); }
    else { HandlerPut(s, p, Marking(token, u, LocalReauth(start, s.This()))); }
  }

  // ---------------------------------------------------------------- steps on sessions

  /** A handler ends by spending the event it has on a session or a stamp. */
  lemma KeysSpent(s: State, s': State, p: nat)
    requires Unshared(s) && p in s.procs && Key(s.procs[p]).Some?
    requires s'.procs == s.procs - {p} && s'.log == s.log
    requires || (s'.stamps == s.stamps && |s'.mints| == |s.mints| + 1 && s.mints <= s'.mints
                 && OriginKey(s'.mints[|s.mints|].origin) == Key(s.procs[p]).value)
             || (s'.mints == s.mints && |s'.stamps| == |s.stamps| + 1 && s.stamps <= s'.stamps
                 && KindKey(s'.stamps[|s.stamps|].kind) == Key(s.procs[p]).value)
    ensures Unshared(s')
  {
    assert OwnKey(s, p);
    forall q | q in s'.procs ensures OwnKey(s', q) { assert OwnKey(s, q); }
    forall i | 0 <= i < |s'.mints| ensures OwnMint(s', i) { assert i < |s.mints| ==> OwnMint(s, i); }
    forall i | 0 <= i < |s'.stamps| ensures OwnStamp(s', i) { assert i < |s.stamps| ==> OwnStamp(s, i); }
  }

  /** One session row is new or changed, and one mint or stamp is new. */
  lemma SpendingKeeps(s: State, s': State, token: Token)
    requires Inv(s) && Unshared(s')
    requires s' == s.(sessions := s'.sessions, mints := s'.mints, stamps := s'.stamps, procs := s'.procs)
    requires s.mints <= s'.mints && s.stamps <= s'.stamps
    requires forall q | q in s'.procs :: q in s.procs && s'.procs[q] == s.procs[q]
    requires token in s'.sessions && SessionOk(s', token) && s'.sessions == s.sessions[token := s'.sessions[token]]
    requires forall i | |s.mints| <= i < |s'.mints| :: MintOk(s', s'.mints[i])
    requires forall i | |s.stamps| <= i < |s'.stamps| :: StampOk(s', s'.stamps[i])
    ensures Kept(s, s')
  {
    UsersStay(s, s');
    Assemble(s, s');
  }

  lemma MintKeeps(s: State, p: nat)
    requires Inv(s) && Taken(s, Mint(p)) && p in s.procs && s.procs[p].Minting?
    ensures Kept(s, AfterMint(s, p))
  {
    var s', u := AfterMint(s, p), s.procs[p].user;
    assert ProcOk(s, p, s.procs[p]);
    if u in s.users {
      KeysSpent(s, s', p);
      MintedIsEarned(s, s', p);
      SpendingKeeps(s, s', |s.mints|);
    } else {
      HandlerEnds(s, p);
    }
  }

  /** The event that completed the sign-in came before the mint itself. */
  lemma MintedIsEarned(s: State, s': State, p: nat)
    requires Inv(s) && Taken(s, Mint(p)) && p in s.procs && s.procs[p].Minting? && s.procs[p].user in s.users
    requires s' == AfterMint(s, p)
    ensures MintOk(s', s'.mints[|s.mints|]) && SessionOk(s', |s.mints|)
  {
    var u, origin := s.procs[p].user, s.procs[p].origin;
    assert ProcOk(s, p, s.procs[p]);
    assert OriginKey(origin) != s.This();
    assert Earned(s, u, origin, s.This());
  }

  lemma MarkKeeps(s: State, p: nat)
    requires Inv(s) && Taken(s, Mark(p)) && p in s.procs && s.procs[p].Marking?
    ensures Kept(s, AfterMark(s, p))
  {
    var s', token := AfterMark(s, p), s.procs[p].token;
    assert ProcOk(s, p, s.procs[p]);
    if token in s.sessions {
      KeysSpent(s, s', p);
      MarkIsEarned(s, s', p);
      SpendingKeeps(s, s', token);
    } else {
      HandlerEnds(s, p);
    }
  }

  lemma MarkIsEarned(s: State, s': State, p: nat)
    requires Inv(s) && Taken(s, Mark(p)) && p in s.procs && s.procs[p].Marking? && s.procs[p].token in s.sessions
    requires s' == AfterMark(s, p)
    ensures StampOk(s', s'.stamps[|s.stamps|]) && SessionOk(s', s.procs[p].token)
  {
    var Marking(token, u, kind) := s.procs[p];
    assert SessionOk(s, token);
    assert ProcOk(s, p, s.procs[p]);
    assert KindKey(kind) != s.This();
    assert StampEarned(s, token, u, kind, s.This());
  }

  lemma DropSessionsKeeps(s: State, tokens: set<Token>)
    requires Inv(s)
    ensures Kept(s, s.(sessions := s.sessions - tokens))
  {
    var s' := s.(sessions := s.sessions - tokens);
    UsersStay(s, s');
    KeysStay(s, s');
    Assemble(s, s');
  }

  lemma TickKeeps(s: State, to: int)
    requires Inv(s) && to >= s.now
    ensures Kept(s, s.(now := to))
  {
    var s' := s.(now := to);
    UsersStay(s, s');
    KeysStay(s, s');
    Assemble(s, s');
  }

  // ---------------------------------------------------------------- steps that change rows

  lemma CounterKeeps(s: State, s': State, u: Uid, p: nat)
    requires Inv(s) && ConfirmedUser(s, u)
    requires u in s'.users && s'.users == s.users[u := s'.users[u]]
    requires s'.users[u] == s.users[u].(failed := s'.users[u].failed, locked := s'.users[u].locked)
    requires s' == s.(users := s'.users, procs := s'.procs) && MovesOn(s, s', p)
    ensures Kept(s, s')
  {
    forall v | v in s'.users ensures UserOk(s', v) { assert UserOk(s, v); }
    RowsChange(s, s', p);
  }

  lemma IncrementKeeps(s: State, p: nat)
    requires Inv(s) && p in s.procs && s.procs[p].CountingFailure?
    ensures Kept(s, AfterIncrement(s, p))
  {
    assert ProcOk(s, p, s.procs[p]);
    CounterKeeps(s, AfterIncrement(s, p), s.procs[p].user, p);
  }

  lemma LockKeeps(s: State, p: nat)
    requires Inv(s) && p in s.procs && s.procs[p].Locking?
    ensures Kept(s, AfterLock(s, p))
  {
    assert ProcOk(s, p, s.procs[p]);
    CounterKeeps(s, AfterLock(s, p), s.procs[p].user, p);
  }

  lemma ResetKeeps(s: State, p: nat, ok: bool)
    requires Inv(s) && p in s.procs && s.procs[p].Resetting?
    ensures Kept(s, AfterReset(s, p, ok))
  {
    var s' := AfterReset(s, p, ok);
    var Resetting(u, origin) := s.procs[p];
    assert ProcOk(s, p, s.procs[p]) && UserOk(s, u);
    assert Grows(s, s');
    EarnedGrows(s, s', u, origin, |s.log|, |s.log|);
    CounterKeeps(s, s', u, p);
  }

  lemma ConfirmKeeps(s: State, p: nat)
    requires Inv(s) && p in s.procs && s.procs[p].ConfirmingTotp?
    ensures Kept(s, AfterConfirm(s, p))
  {
    var u := s.procs[p].user;
    assert ProcOk(s, p, s.procs[p]);
    if u !in s.users {
      HandlerMoves(s, AfterConfirm(s, p), p);
    } else if exists v | v in s.users :: v != u && s.users[v].confirmed {
      HandlerEnds(s, p);
    } else {
      ConfirmRow(s, p, u);
    }
  }

  lemma ConfirmRow(s: State, p: nat, u: Uid)
    requires Inv(s) && p in s.procs && s.procs[p].ConfirmingTotp? && s.procs[p].user == u && u in s.users
    requires forall v | v in s.users :: v == u || !s.users[v].confirmed
    ensures Kept(s, AfterConfirm(s, p))
  {
    var s' := AfterConfirm(s, p);
    assert ProcOk(s, p, s.procs[p]) && UserOk(s, u);
    ConfirmedRow(s, s', p, u);
    ConfirmedMoves(s, s', p, u);
    RowsChange(s, s', p);
  }

  lemma ConfirmedRow(s: State, s': State, p: nat, u: Uid)
    requires UsersOk(s) && CodesOk(s) && p in s.procs && s.procs[p].ConfirmingTotp? && s.procs[p].user == u && u in s.users
    requires forall v | v in s.users :: v == u || !s.users[v].confirmed
    requires s.users[u].oidc.None? && s' == AfterConfirm(s, p)
    ensures UsersOk(s') && OneConfirmed(s') && CodesOk(s') && UsersGrow(s, s')
  {
    forall v | v in s'.users ensures UserOk(s', v) { assert UserOk(s, v); }
  }

  lemma ConfirmedMoves(s: State, s': State, p: nat, u: Uid)
    requires p in s.procs && s.procs[p].ConfirmingTotp? && s.procs[p].user == u && u in s.users
    requires ProcOk(s, p, s.procs[p]) && UserOk(s, u)
    requires forall v | v in s.users :: v == u || !s.users[v].confirmed
    requires s' == AfterConfirm(s, p)
    ensures MovesOn(s, s', p)
  {
  }

  lemma ConsumeKeeps(s: State, p: nat)
    requires Inv(s) && p in s.procs && s.procs[p].Consuming?
    ensures Kept(s, AfterConsume(s, p))
  {
    var s', c := AfterConsume(s, p), Code(s.procs[p].user, s.procs[p].code);
    assert ProcOk(s, p, s.procs[p]);
    if c in s.codes && !s.codes[c] {
      ConsumedFactor(s, s', p);
      UsersStay(s, s');
      ConsumeCodes(s, p);
      RowsChange(s, s', p);
    } else {
      HandlerPut(s, p, CountingFailure(c.user));
    }
  }

  lemma ConsumedFactor(s: State, s': State, p: nat)
    requires Inv(s) && p in s.procs && s.procs[p].Consuming? && s' == AfterConsume(s, p) && s'.accepted != s.accepted
    ensures MovesOn(s, s', p)
  {
    assert ProcOk(s, p, s.procs[p]);
    var Consuming(u, k, f, code) := s.procs[p];
    assert Use(Code(u, code), f) in s'.accepted;
    assert Earned(s', u, ByLogin(k, f), |s'.log|);
  }

  lemma ConsumeCodes(s: State, p: nat)
    requires Inv(s) && p in s.procs && s.procs[p].Consuming?
    ensures CodesOk(AfterConsume(s, p))
  {
    var s', c := AfterConsume(s, p), Code(s.procs[p].user, s.procs[p].code);
    if c in s.codes && !s.codes[c] {
      assert !UsedUp(s.accepted, c) && UserOk(s, c.user);
      assert s'.accepted == s.accepted + [Use(c, s.procs[p].event)];
      forall x ensures UsedUp(s'.accepted, x) <==> UsedUp(s.accepted, x) || x == c {
        UsedUpMore(s.accepted, Use(c, s.procs[p].event), x);
      }
    }
  }

  lemma UsedUpMore(accepted: seq<Use>, use: Use, x: Code)
    ensures UsedUp(accepted + [use], x) <==> UsedUp(accepted, x) || x == use.code
  {
    if UsedUp(accepted, x) {
      var i :| 0 <= i < |accepted| && accepted[i].code == x;
      assert (accepted + [use])[i].code == x;
    }
    if x == use.code { assert (accepted + [use])[|accepted|].code == x; }
  }

  lemma NextUserIsNew(s: State)
    requires Inv(s)
    ensures s.nextUser !in s.users
    ensures forall c | c in s.codes || UsedUp(s.accepted, c) :: c.user < s.nextUser
  {
    assert s.nextUser in s.users ==> UserOk(s, s.nextUser);
    forall c | c in s.codes ensures c.user < s.nextUser { assert UserOk(s, c.user); }
  }

  /** A new row, unconfirmed and without counters. */
  lemma InsertRow(s: State, s': State, row: User, p: nat)
    requires Inv(s) && !row.confirmed && row.failed == 0 && row.locked.None?
    requires row.oidc.None? ==> RedeemAt(s.log, row.source, row.username, row.password)
    requires row.oidc.Some? ==> IdentityAt(s.log, row.source, row.oidc.value)
    requires s' == s.(users := s.users[s.nextUser := row], nextUser := s.nextUser + 1, codes := s'.codes, procs := s'.procs)
    requires forall c | c in s.codes :: c in s'.codes && s'.codes[c] == s.codes[c]
    requires forall c | c in s'.codes && c !in s.codes :: c.user == s.nextUser && !s'.codes[c]
    requires MovesOn(s, s', p)
    ensures Kept(s, s')
  {
    NextUserIsNew(s);
    forall v | v in s'.users ensures UserOk(s', v) { if v in s.users { assert UserOk(s, v); } }
    assert OneConfirmed(s');
    assert CodesOk(s');
    RowsChange(s, s', p);
  }

  lemma ProvisionKeeps(s: State, p: nat, username: string)
    requires Inv(s) && p in s.procs && s.procs[p].Provisioning?
    ensures Kept(s, AfterProvision(s, p, username))
  {
    var Provisioning(id, event) := s.procs[p];
    assert ProcOk(s, p, s.procs[p]);
    NextUserIsNew(s);
    if IdentityTaken(s.users, id) || UsernameTaken(s.users, username) {
      HandlerPut(s, p, Reresolving(id, event));
    } else {
      InsertRow(s, AfterProvision(s, p, username), User(username, "", false, 0, None, Some(id), event), p);
    }
  }

  /** Sweeping abandoned enrollments takes no session and no accepted code with it. */
  lemma SweepKeeps(s: State, swept: set<Uid>)
    requires Inv(s) && forall u | u in swept :: u in s.users && !Established(s.users[u])
    ensures Kept(s, DeleteUsers(s, swept)) && DeleteUsers(s, swept).sessions == s.sessions
  {
    var s' := DeleteUsers(s, swept);
    forall t | t in s.sessions ensures s.sessions[t].user !in swept { assert SessionOk(s, t); }
    assert s'.sessions == s.sessions;
    forall u | u in s'.users ensures UserOk(s', u) { assert UserOk(s, u); }
    assert CodesOk(s');
    KeysStay(s, s');
    Assemble(s, s');
  }

  lemma CreateAdminKeeps(s: State, p: nat, swept: set<Uid>, sealed: bool)
    requires Inv(s) && Taken(s, CreateAdmin(p, swept, sealed)) && p in s.procs && s.procs[p].Redeeming?
    requires forall u | u in swept :: u in s.users && !Established(s.users[u])
    ensures Kept(s, AfterCreateAdmin(s, p, swept, sealed))
  {
    var Redeeming(username, password, codes, event) := s.procs[p];
    assert ProcOk(s, p, s.procs[p]);
    var s1 := DeleteUsers(s, swept);
    var s2 := End(s1, p);
    if UsernameTaken(s2.users, username) {
      HandlerEnds(s, p);
    } else {
      var s3 := InsertAdmin(s2, username, password, codes, event);
      SweepKeeps(s, swept);
      HandlerEnds(s1, p);
      KeptTwice(s, s1, s2);
      InsertKeeps(s2, username, password, codes, event, p);
      KeptTwice(s, s2, s3);
      if sealed {
        SealsEnrollment(s3, s.nextUser, CreateAdmin(p, swept, sealed));
        KeptTwice(s, s3, Seal(s3, s.nextUser, Enroll));
      }
    }
  }

  lemma SealsEnrollment(s: State, u: Uid, step: Step)
    requires Inv(s) && s.log != [] && s.log[s.This()] == Event(step, s.now) && step.CreateAdmin?
    requires u in s.users && s.users[u].oidc.None?
    ensures Kept(s, Seal(s, u, Enroll))
  {
    assert UserOk(s, u);
    Seals(s, Seal(s, u, Enroll));
  }

  lemma InsertKeeps(s: State, username: string, password: string, codes: set<string>, event: nat, p: nat)
    requires Inv(s) && RedeemAt(s.log, event, username, password) && p !in s.procs
    ensures Kept(s, InsertAdmin(s, username, password, codes, event))
  {
    NextUserIsNew(s);
    InsertRow(s, InsertAdmin(s, username, password, codes, event), User(username, password, false, 0, None, None, event), p);
  }

  // ---------------------------------------------------------------- every step, every run

  /** The steps that write user rows or recovery codes. */
  predicate WritesUsers(step: Step) {
    step.CreateAdmin? || step.Confirm? || step.Consume? || step.Increment? || step.Lock? || step.Reset? || step.Provision?
  }

  /** The steps that write sessions, and those no handler takes. */
  predicate WritesSessions(step: Step) {
    step.Tick? || step.Mint? || step.Mark? || step.OidcStart? || step.Logout? || step.Sweep? || step.Abandon?
  }

  /** The steps with which a request first comes in. */
  predicate ComesIn(step: Step) {
    || step.Redeem? || step.ConfirmRead? || step.LoginRead? || step.LoginTotpRead? || step.Callback?
    || step.StepUpSession? || step.LocalSession?
  }

  lemma UserWritesKeep(s: State, step: Step)
    requires Inv(s) && Enabled(s, step) && Taken(s, step) && WritesUsers(step)
    ensures Kept(s, Handled(s, step))
  {
    match step
    case CreateAdmin(p, swept, sealed) => CreateAdminKeeps(s, p, swept, sealed);
    case Confirm(p) => ConfirmKeeps(s, p);
    case Consume(p) => ConsumeKeeps(s, p);
    case Increment(p) => IncrementKeeps(s, p);
    case Lock(p) => LockKeeps(s, p);
    case Reset(p, ok) => ResetKeeps(s, p, ok);
    case Provision(p, username) => ProvisionKeeps(s, p, username);
  }

  lemma SessionWritesKeep(s: State, step: Step)
    requires Inv(s) && Enabled(s, step) && Taken(s, step) && WritesSessions(step)
    ensures Kept(s, Handled(s, step))
  {
    match step
    case Tick(to) => TickKeeps(s, to);
    case Mint(p) => MintKeeps(s, p);
    case Mark(p) => MarkKeeps(s, p);
    case OidcStart => OidcStartKeeps(s);
    case Logout(token) => DropSessionsKeeps(s, {token});
    case Sweep(tokens) => DropSessionsKeeps(s, tokens);
    case Abandon(p) => HandlerEnds(s, p);
  }

  lemma FirstReadsKeep(s: State, step: Step)
    requires Inv(s) && Enabled(s, step) && Taken(s, step) && ComesIn(step)
    ensures Kept(s, Handled(s, step))
  {
    match step
    case Redeem(p, username, password, codes, tokenRight) => RedeemKeeps(s, p, username, password, codes, tokenRight);
    case ConfirmRead(p, ch, codeRight) => ConfirmReadKeeps(s, p, ch, codeRight);
    case LoginRead(p, who, username, password) => LoginReadKeeps(s, p, who, username, password);
    case LoginTotpRead(p, ch, with) => LoginTotpReadKeeps(s, p, ch, with);
    case Callback(p, flow, answer) => CallbackKeeps(s, p, flow, answer);
    case StepUpSession(p, token) => StepUpSessionKeeps(s, p, token);
    case LocalSession(p, token) => LocalSessionKeeps(s, p, token);
  }

  lemma LaterReadsKeep(s: State, step: Step)
    requires Inv(s) && Enabled(s, step) && Taken(s, step)
    requires !WritesUsers(step) && !WritesSessions(step) && !ComesIn(step)
    ensures Kept(s, Handled(s, step))
  {
    match step
    case StepUpUser(p) => StepUpUserKeeps(s, p);
    case Resolve(p, who) => FoundKeeps(s, p, who, Put(s, p, Provisioning(s.procs[p].identity, s.procs[p].event)));
    case Reresolve(p, who) => FoundKeeps(s, p, who, End(s, p));
    case ReauthSession(p) => ReauthSessionKeeps(s, p);
    case ReauthUser(p) => ReauthUserKeeps(s, p);
    case LocalUser(p) => LocalUserKeeps(s, p);
    case LocalVerify(p, codeRight, password) => LocalVerifyKeeps(s, p, codeRight, password);
  }

  lemma HandlingKeeps(s: State, step: Step)
    requires Inv(s) && Enabled(s, step) && Taken(s, step)
    ensures Kept(s, Handled(s, step))
  {
    if WritesUsers(step) { UserWritesKeep(s, step); }
    else if WritesSessions(step) { SessionWritesKeep(s, step); }
    else if ComesIn(step) { FirstReadsKeep(s, step); }
    else { LaterReadsKeep(s, step); }
  }

  lemma StepKeeps(s: State, step: Step)
    requires Inv(s) && Enabled(s, step)
    ensures Kept(s, After(s, step))
  {
    RecordKeeps(s, step);
    HandlingKeeps(Record(s, step), step);
    KeptTwice(s, Record(s, step), After(s, step));
  }

  lemma {:induction false} RunKeeps(s: State, steps: seq<Step>, t: State)
    requires Inv(s) && Leads(s, steps, t)
    ensures Kept(s, t)
    decreases |steps|
  {
    if steps != [] {
      StepKeeps(s, steps[0]);
      RunKeeps(After(s, steps[0]), steps[1..], t);
      KeptTwice(s, After(s, steps[0]), t);
    }
  }

  // ---------------------------------------------------------------- what holds of every interleaving

  /** The log is the run itself: every step, at its moment, in order. So an event of
      it is something that happened, and what a step found right was right. */
  lemma {:induction false} LogIsTheRun(s: State, steps: seq<Step>, t: State)
    requires Leads(s, steps, t)
    ensures |t.log| == |s.log| + |steps| && s.log <= t.log
    ensures forall i | 0 <= i < |steps| :: t.log[|s.log| + i].step == steps[i]
    decreases |steps|
  {
    if steps != [] {
      var s' := After(s, steps[0]);
      OneLogged(s, steps[0]);
      LogIsTheRun(s', steps[1..], t);
      forall i | 0 <= i < |steps| ensures t.log[|s.log| + i].step == steps[i] {
        if i == 0 { assert t.log[|s.log|] == s'.log[|s.log|]; } else { assert steps[i] == steps[1..][i - 1]; }
      }
    }
  }

  lemma OneLogged(s: State, step: Step)
    requires Enabled(s, step)
    ensures After(s, step).log == s.log + [Event(step, s.now)]
  {
    var s' := Record(s, step);
    if WritesUsers(step) { UserWritesLeaveLog(s', step); } else { OthersLeaveLog(s', step); }
  }

  lemma UserWritesLeaveLog(s: State, step: Step)
    requires s.log != [] && Enabled(s, step) && WritesUsers(step)
    ensures Handled(s, step).log == s.log
  {
  }

  lemma OthersLeaveLog(s: State, step: Step)
    requires s.log != [] && Enabled(s, step) && !WritesUsers(step)
    ensures Handled(s, step).log == s.log
  {
  }

  /** Every session ever minted stands for a sign-in completed before the mint: a
      redeem of the right install token for this row and a right code within the
      enrollment challenge; this row's password and, within the lifetime of the
      challenge it earned, a right code or a recovery code used up by that event; or
      a verified and allowlisted identity that is the row's own. */
  lemma SessionsAreEarned(steps: seq<Step>, t: State, i: nat)
    requires Leads(INIT, steps, t) && i < |t.mints|
    ensures t.mints[i].at < |t.log| && t.log[t.mints[i].at].step.Mint?
    ensures Earned(t, t.mints[i].user, t.mints[i].origin, t.mints[i].at)
  {
    RunKeeps(INIT, steps, t);
    assert MintOk(t, t.mints[i]);
  }

  /** Each of them by an event of its own: no code, no callback serves twice. */
  lemma SignInsAreNotShared(steps: seq<Step>, t: State, i: nat, j: nat)
    requires Leads(INIT, steps, t) && i < j < |t.mints|
    ensures OriginKey(t.mints[i].origin) != OriginKey(t.mints[j].origin)
  {
    RunKeeps(INIT, steps, t);
    assert OwnMint(t, j);
  }

  /** A session row is one that was minted, for the user it was minted for, and its
      stamp, if it has one, is one that was made on it, at that moment. */
  lemma RowsAreMinted(steps: seq<Step>, t: State, token: Token)
    requires Leads(INIT, steps, t) && token in t.sessions
    ensures token < |t.mints| && t.sessions[token].user == t.mints[token].user
    ensures t.sessions[token].reauth.Some? ==>
      var j := t.sessions[token].reauth.value.stamp;
      && j < |t.stamps| && t.stamps[j].token == token && t.stamps[j].at < |t.log|
      && t.sessions[token].reauth.value.at == t.log[t.stamps[j].at].at
  {
    RunKeeps(INIT, steps, t);
    assert SessionOk(t, token);
  }

  /** Every stamp ever made on a session stands for a verification of its owner begun
      with that session's token after the session was minted, and over before the
      stamp: a right code in that very handler, or a callback, of the owner's own
      subject, of the flow that this token started. */
  lemma StampsAreEarned(steps: seq<Step>, t: State, j: nat)
    requires Leads(INIT, steps, t) && j < |t.stamps|
    ensures t.stamps[j].at < |t.log| && t.log[t.stamps[j].at].step.Mark?
    ensures StampEarned(t, t.stamps[j].token, t.stamps[j].user, t.stamps[j].kind, t.stamps[j].at)
    ensures t.stamps[j].token < |t.mints| && t.stamps[j].user == t.mints[t.stamps[j].token].user
  {
    RunKeeps(INIT, steps, t);
    assert StampOk(t, t.stamps[j]);
  }

  /** Each of them by an event of its own, which no sign-in used either. */
  lemma StepUpsAreNotShared(steps: seq<Step>, t: State, i: nat, j: nat)
    requires Leads(INIT, steps, t) && j < |t.stamps|
    ensures i < j ==> KindKey(t.stamps[i].kind) != KindKey(t.stamps[j].kind)
    ensures i < |t.mints| ==> OriginKey(t.mints[i].origin) != KindKey(t.stamps[j].kind)
  {
    RunKeeps(INIT, steps, t);
    assert StampOk(t, t.stamps[j]) && OwnStamp(t, j);
    if i < |t.mints| { assert MintOk(t, t.mints[i]); }
  }

  /** At most one row is ever confirmed: not only at one time, but over a whole run. */
  lemma AtMostOneEverConfirmed(steps: seq<Step>, s: State, more: seq<Step>, t: State, u: Uid, v: Uid)
    requires Leads(INIT, steps, s) && Leads(s, more, t)
    requires ConfirmedUser(s, u) && ConfirmedUser(t, v)
    ensures u == v && ConfirmedUser(t, u)
  {
    RunKeeps(INIT, steps, s);
    RunKeeps(s, more, t);
  }

  /** Confirmed administrators and IdP identities stay, with their name, password
      and identity, whatever anyone redeems. */
  lemma EstablishedStay(steps: seq<Step>, s: State, more: seq<Step>, t: State, u: Uid)
    requires Leads(INIT, steps, s) && Leads(s, more, t) && u in s.users && Established(s.users[u])
    ensures u in t.users && Established(t.users[u]) && t.users[u].oidc == s.users[u].oidc
    ensures t.users[u].username == s.users[u].username && t.users[u].password == s.users[u].password
    ensures s.users[u].confirmed ==> t.users[u].confirmed
  {
    RunKeeps(INIT, steps, s);
    RunKeeps(s, more, t);
  }

  /** A row still enrolling, or of an IdP identity, never has failed logins counted
      against it and is never locked. */
  lemma OnlyConfirmedAreCounted(steps: seq<Step>, t: State, u: Uid)
    requires Leads(INIT, steps, t) && u in t.users && (!t.users[u].confirmed || t.users[u].oidc.Some?)
    ensures t.users[u].failed == 0 && t.users[u].locked.None?
  {
    RunKeeps(INIT, steps, t);
    assert UserOk(t, u);
  }

  /** No recovery code is accepted twice. */
  lemma RecoveryCodesAreSingleUse(steps: seq<Step>, t: State, i: nat, j: nat)
    requires Leads(INIT, steps, t) && i < j < |t.accepted|
    ensures t.accepted[i].code != t.accepted[j].code
  {
    RunKeeps(INIT, steps, t);
  }
}
