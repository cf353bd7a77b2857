/** The dashboard's sign-in protocol over its users, sessions and recovery-codes
    tables: redeeming the install token, enrolling and checking a second factor,
    password and single sign-on logins, and stepping up a session.

    One step is one SQL statement together with what its handler computes before
    the next one, so the handlers interleave at every statement. A transaction is
    one step. Cryptography is taken at its word: a sealed cookie opens only if the
    server sealed it, a password verifies only against its own hash, and session
    tokens are never drawn twice. Times are in nanoseconds.

    Every step says what was presented and whether it was right, and is logged
    before its handler looks at it. Rows, cookies and handlers carry the places in
    that log they stem from; no handler decides by them. */
module Auth {
  import opened Wrappers
  import opened Text

  const SECOND := 1_000_000_000
  const MAX_FAILED_LOGINS := 5
  const LOCKOUT_WINDOW := 900 * SECOND
  const ENROLL_TTL := 600 * SECOND
  const TOTP_TTL := 300 * SECOND
  const FLOW_TTL := 600 * SECOND
  const SESSION_TTL := 43200 * SECOND

  type Uid = nat
  type Token = nat

  // ---------------------------------------------------------------- tables

  datatype Identity = Identity(issuer: string, subject: string)

  /** `source` is the event the row stems from: a redeem or a callback. */
  datatype User = User(
    username: string,
    password: string,           // the password whose hash the row holds
    confirmed: bool,
    failed: nat,
    locked: Option<int>,
    oidc: Option<Identity>,
    source: nat)

  /** How a session came to be, by events of the log: the confirming code; the
      password and the second factor; the callback. */
  datatype Origin =
    | ByEnrollment(code: nat)
    | ByLogin(password: nat, factor: nat)
    | ByIdentity(callback: nat)

  /** How a session was stepped up: the event that began it, and the one that
      verified its owner again. */
  datatype Kind = LocalReauth(start: nat, check: nat) | OidcReauth(start: nat, callback: nat)

  /** `stamp` is the place of a re-authentication among `stamps`. */
  datatype Reauth = Reauth(at: int, stamp: nat)

  datatype Session = Session(user: Uid, expires: int, reauth: Option<Reauth>)

  /** Every session row ever inserted, by token, and every stamp ever made; `at` is
      the event that did it. */
  datatype Minted = Minted(user: Uid, origin: Origin, at: nat)
  datatype Stamped = Stamped(token: Token, user: Uid, kind: Kind, at: nat)

  datatype Code = Code(user: Uid, code: string)

  datatype Use = Use(code: Code, event: nat)

  // ---------------------------------------------------------------- sealed cookies

  datatype Stage = Enroll | SecondFactor

  /** `sealedBy` is the event that sealed it. */
  datatype Challenge = Challenge(user: Uid, stage: Stage, expires: int, sealedBy: nat)

  datatype Purpose = Login | StepUp(token: Token, user: Uid, start: nat)

  datatype Flow = Flow(purpose: Purpose, expires: int, sealedBy: nat)

  function Unix(t: int): int { t / SECOND }

  function Lifetime(stage: Stage): int { if stage.Enroll? then ENROLL_TTL else TOTP_TTL }

  // ---------------------------------------------------------------- handlers in flight

  /** A handler between two statements: what it will do next and what it knows. */
  datatype Proc =
    | Redeeming(username: string, password: string, codes: set<string>, event: nat)
    | ConfirmingTotp(user: Uid, event: nat)
    | Consuming(user: Uid, passwordEvent: nat, event: nat, code: string)
    | CountingFailure(user: Uid)
    | Locking(user: Uid)
    | Resetting(user: Uid, origin: Origin)
    | Minting(user: Uid, origin: Origin)
    | Resolving(identity: Identity, event: nat)
    | Provisioning(identity: Identity, event: nat)
    | Reresolving(identity: Identity, event: nat)
    | StartingStepUp(token: Token, user: Uid, start: nat)
    | CheckingSession(token: Token, user: Uid, subject: string, start: nat, event: nat)
    | CheckingSubject(token: Token, user: Uid, subject: string, start: nat, event: nat)
    | CheckingLocalUser(token: Token, user: Uid, start: nat)
    | VerifyingLocally(token: Token, user: Uid, start: nat)
    | Marking(token: Token, user: Uid, kind: Kind)

  datatype Event = Event(step: Step, at: int)

  datatype State = State(
    users: map<Uid, User>,
    sessions: map<Token, Session>,
    codes: map<Code, bool>,           // true once used
    nextUser: Uid,
    now: int,
    challenges: set<Challenge>,
    flows: set<Flow>,
    procs: map<nat, Proc>,
    log: seq<Event>,
    accepted: seq<Use>,               // recovery codes accepted, in order
    mints: seq<Minted>,
    stamps: seq<Stamped>)
  {
    /** The event of the step being taken. */
    function This(): nat requires log != [] { |log| - 1 }
  }

  const INIT := State(map[], map[], map[], 0, 0, {}, {}, map[], [], [], [], [])

  predicate UsernameTaken(users: map<Uid, User>, username: string) {
    exists u | u in users :: ToLower(users[u].username) == ToLower(username)
  }

  predicate IdentityTaken(users: map<Uid, User>, id: Identity) {
    exists u | u in users :: users[u].oidc == Some(id)
  }

  // ---------------------------------------------------------------- steps

  datatype Presented = TotpCode(right: bool) | RecoveryCode(code: string) | Nothing

  /** What a callback brings: whether its state is the flow's, what exchanging its
      code comes to, and whether that identity is on the allowlist. */
  datatype Answer = Answer(stateMatches: bool, exchange: Option<Identity>, allowed: bool)

  datatype Step =
    | Tick(to: int)
    | Redeem(p: nat, username: string, password: string, codes: set<string>, tokenRight: bool)
    | CreateAdmin(p: nat, swept: set<Uid>, sealed: bool)
    | ConfirmRead(p: nat, ch: Challenge, codeRight: bool)
    | Confirm(p: nat)
    | LoginRead(p: nat, who: Option<Uid>, username: string, password: string)
    | LoginTotpRead(p: nat, ch: Challenge, with: Presented)
    | Consume(p: nat)
    | Increment(p: nat)
    | Lock(p: nat)
    | Reset(p: nat, ok: bool)
    | Mint(p: nat)
    | OidcStart
    | StepUpSession(p: nat, token: Token)
    | StepUpUser(p: nat)
    | Callback(p: nat, flow: Flow, answer: Answer)
    | Resolve(p: nat, who: Option<Uid>)
    | Provision(p: nat, username: string)
    | Reresolve(p: nat, who: Option<Uid>)
    | ReauthSession(p: nat)
    | ReauthUser(p: nat)
    | LocalSession(p: nat, token: Token)
    | LocalUser(p: nat)
    | LocalVerify(p: nat, codeRight: bool, alsoPassword: Option<string>)
    | Mark(p: nat)
    | Logout(token: Token)
    | Sweep(tokens: set<Token>)
    | Abandon(p: nat)              // a handler that fails anywhere does nothing more

  /** SELECT by id or key: the row if there is one. */
  predicate Selects(s: State, who: Option<Uid>, id: Identity) {
    match who
    case Some(u) => u in s.users && s.users[u].oidc == Some(id)
    case None => !IdentityTaken(s.users, id)
  }

  predicate SelectsName(s: State, who: Option<Uid>, username: string) {
    match who
    case Some(u) => u in s.users && ToLower(s.users[u].username) == ToLower(username)
    case None => !UsernameTaken(s.users, username)
  }

  /** GetSession: the row while it has not expired. */
  predicate Live(s: State, token: Token) {
    token in s.sessions && s.sessions[token].expires > s.now
  }

  /** What the world can do: requests come in with cookies the server sealed, and
      statements answer from the rows there are. What a handler checks is not here. */
  predicate Enabled(s: State, step: Step) {
    match step
    case Tick(to) => to >= s.now
    case Redeem(p, _, _, _, _) => p !in s.procs
    case CreateAdmin(p, swept, _) =>
      // The sweep sees the rows that are committed and visible to it.
      && p in s.procs && s.procs[p].Redeeming?
      && (forall u | u in swept :: u in s.users && !s.users[u].confirmed && s.users[u].oidc.None?)
    case ConfirmRead(p, ch, _) => p !in s.procs && ch in s.challenges
    case Confirm(p) => p in s.procs && s.procs[p].ConfirmingTotp?
    case LoginRead(p, who, username, _) => p !in s.procs && SelectsName(s, who, username)
    case LoginTotpRead(p, ch, _) => p !in s.procs && ch in s.challenges
    case Consume(p) => p in s.procs && s.procs[p].Consuming?
    case Increment(p) => p in s.procs && s.procs[p].CountingFailure?
    case Lock(p) => p in s.procs && s.procs[p].Locking?
    case Reset(p, _) => p in s.procs && s.procs[p].Resetting?
    case Mint(p) => p in s.procs && s.procs[p].Minting?
    case OidcStart => true
    case StepUpSession(p, _) => p !in s.procs
    case StepUpUser(p) => p in s.procs && s.procs[p].StartingStepUp?
    case Callback(p, flow, _) => p !in s.procs && flow in s.flows
    case Resolve(p, who) => p in s.procs && s.procs[p].Resolving? && Selects(s, who, s.procs[p].identity)
    case Provision(p, _) => p in s.procs && s.procs[p].Provisioning?
    case Reresolve(p, who) => p in s.procs && s.procs[p].Reresolving? && Selects(s, who, s.procs[p].identity)
    case ReauthSession(p) => p in s.procs && s.procs[p].CheckingSession?
    case ReauthUser(p) => p in s.procs && s.procs[p].CheckingSubject?
    case LocalSession(p, _) => p !in s.procs
    case LocalUser(p) => p in s.procs && s.procs[p].CheckingLocalUser?
    case LocalVerify(p, _, _) => p in s.procs && s.procs[p].VerifyingLocally?
    case Mark(p) => p in s.procs && s.procs[p].Marking?
    case Logout(_) => true
    case Sweep(tokens) => forall t | t in tokens && t in s.sessions :: s.sessions[t].expires <= s.now
    case Abandon(p) => p in s.procs
  }

  // ---------------------------------------------------------------- what the statements do

  /** The step is taken down; its handler, below, starts from there. */
  function Record(s: State, step: Step): State { s.(log := s.log + [Event(step, s.now)]) }

  function Put(s: State, p: nat, proc: Proc): State { s.(procs := s.procs[p := proc]) }

  function End(s: State, p: nat): State { s.(procs := s.procs - {p}) }

  function SetUser(s: State, u: Uid, row: User): State { s.(users := s.users[u := row]) }

  /** readChallenge, once the cookie has opened. */
  predicate Usable(s: State, ch: Challenge, stage: Stage) { ch.stage == stage && Unix(s.now) < ch.expires }

  function Seal(s: State, u: Uid, stage: Stage): State
    requires s.log != []
  {
    s.(challenges := s.challenges + {Challenge(u, stage, Unix(s.now + Lifetime(stage)), s.This())})
  }

  function SealFlow(s: State, purpose: Purpose): State
    requires s.log != []
  {
    s.(flows := s.flows + {Flow(purpose, Unix(s.now + FLOW_TTL), s.This())})
  }

  /** DELETE FROM users, cascading to sessions and recovery codes. */
  function DeleteUsers(s: State, gone: set<Uid>): State {
    s.(users := s.users - gone,
       sessions := map t | t in s.sessions && s.sessions[t].user !in gone :: s.sessions[t],
       codes := map c | c in s.codes && c.user !in gone :: s.codes[c])
  }

  function InsertAdmin(s: State, username: string, password: string, codes: set<string>, source: nat): State {
    s.(users := s.users[s.nextUser := User(username, password, false, 0, None, None, source)],
       codes := map c | c in s.codes.Keys + (set x | x in codes :: Code(s.nextUser, x))
                :: if c.user == s.nextUser then false else s.codes[c],
       nextUser := s.nextUser + 1)
  }

  /** SELECT count(*) of confirmed rows: redeeming is open only while there is none. */
  function AfterRedeem(s: State, p: nat, username: string, password: string, codes: set<string>, tokenRight: bool): State
    requires s.log != []
  {
    if tokenRight && (forall u | u in s.users :: !s.users[u].confirmed)
    then Put(s, p, Redeeming(username, password, codes, s.This())) else s
  }

  /** The redeem transaction: sweep abandoned enrollments, insert the row and its
      codes; a name that is taken rolls everything back. */
  function AfterCreateAdmin(s: State, p: nat, swept: set<Uid>, sealed: bool): State
    requires s.log != [] && p in s.procs && s.procs[p].Redeeming?
  {
    var Redeeming(username, password, codes, event) := s.procs[p];
    var cleared := End(DeleteUsers(s, swept), p);
    if UsernameTaken(cleared.users, username) then End(s, p)
    else
      var s' := InsertAdmin(cleared, username, password, codes, event);
      if sealed then Seal(s', s.nextUser, Enroll) else s'
  }

  function AfterConfirmRead(s: State, p: nat, ch: Challenge, codeRight: bool): State
    requires s.log != []
  {
    if Usable(s, ch, Enroll) && ch.user in s.users && !s.users[ch.user].confirmed && codeRight
    then Put(s, p, ConfirmingTotp(ch.user, s.This()))
    else s
  }

  /** UPDATE ... SET totp_confirmed_at WHERE id: a missing row is no error; a second
      confirmed row violates the unique index. */
  function AfterConfirm(s: State, p: nat): State
    requires p in s.procs && s.procs[p].ConfirmingTotp?
  {
    var ConfirmingTotp(u, event) := s.procs[p];
    var go := Put(s, p, Minting(u, ByEnrollment(event)));
    if u !in s.users then go
    else if exists v | v in s.users :: v != u && s.users[v].confirmed then End(s, p)
    else SetUser(go, u, s.users[u].(confirmed := true))
  }

  function AfterLoginRead(s: State, p: nat, who: Option<Uid>, password: string): State
    requires s.log != [] && (who.Some? ==> who.value in s.users)
  {
    if who.None? then s else
      var u := who.value;
      var row := s.users[u];
      if row.oidc.Some? then s
      else if row.locked.Some? && row.locked.value > s.now then s
      else if password != row.password then (if row.confirmed then Put(s, p, CountingFailure(u)) else s)
      else if !row.confirmed then s
      else Seal(s, u, SecondFactor)
  }

  function AfterLoginTotpRead(s: State, p: nat, ch: Challenge, with: Presented): State
    requires s.log != []
  {
    var u := ch.user;
    if !Usable(s, ch, SecondFactor) || u !in s.users || !s.users[u].confirmed then s else
      match with
      case TotpCode(true) => Put(s, p, Resetting(u, ByLogin(ch.sealedBy, s.This())))
      case RecoveryCode(code) => Put(s, p, Consuming(u, ch.sealedBy, s.This(), code))
      case _ => Put(s, p, CountingFailure(u))
  }

  /** UPDATE recovery_codes SET used_at WHERE ... AND used_at IS NULL */
  function AfterConsume(s: State, p: nat): State
    requires p in s.procs && s.procs[p].Consuming?
  {
    var Consuming(u, passwordEvent, event, code) := s.procs[p];
    var c := Code(u, code);
    if c in s.codes && !s.codes[c] then
      Put(s, p, Resetting(u, ByLogin(passwordEvent, event))).(
        codes := s.codes[c := true], accepted := s.accepted + [Use(c, event)])
    else Put(s, p, CountingFailure(u))
  }

  function AfterIncrement(s: State, p: nat): State
    requires p in s.procs && s.procs[p].CountingFailure?
  {
    var u := s.procs[p].user;
    if u !in s.users then End(s, p) else
      var row := s.users[u].(failed := s.users[u].failed + 1);
      SetUser(if row.failed >= MAX_FAILED_LOGINS then Put(s, p, Locking(u)) else End(s, p), u, row)
  }

  function AfterLock(s: State, p: nat): State
    requires p in s.procs && s.procs[p].Locking?
  {
    var u := s.procs[p].user;
    if u !in s.users then End(s, p)
    else SetUser(End(s, p), u, s.users[u].(locked := Some(s.now + LOCKOUT_WINDOW)))
  }

  function AfterReset(s: State, p: nat, ok: bool): State
    requires p in s.procs && s.procs[p].Resetting?
  {
    var Resetting(u, origin) := s.procs[p];
    var go := Put(s, p, Minting(u, origin));
    if ok && u in s.users then SetUser(go, u, s.users[u].(failed := 0, locked := None)) else go
  }

  /** INSERT INTO sessions: the foreign key refuses a user that is gone. */
  function AfterMint(s: State, p: nat): State
    requires s.log != [] && p in s.procs && s.procs[p].Minting?
  {
    var Minting(u, origin) := s.procs[p];
    if u !in s.users then End(s, p)
    else End(s, p).(sessions := s.sessions[|s.mints| := Session(u, s.now + SESSION_TTL, None)],
                    mints := s.mints + [Minted(u, origin, s.This())])
  }

  function AfterCallback(s: State, p: nat, flow: Flow, answer: Answer): State
    requires s.log != []
  {
    if Unix(s.now) >= flow.expires || !answer.stateMatches || answer.exchange.None? || !answer.allowed then s else
      var identity := answer.exchange.value;
      match flow.purpose
      case Login => Put(s, p, Resolving(identity, s.This()))
      case StepUp(token, user, start) => Put(s, p, CheckingSession(token, user, identity.subject, start, s.This()))
  }

  function Found(s: State, p: nat, who: Option<Uid>, event: nat, otherwise: State): State {
    match who
    case Some(u) => Put(s, p, Minting(u, ByIdentity(event)))
    case None => otherwise
  }

  /** INSERT of a credential-less row: refused by either unique index. */
  function AfterProvision(s: State, p: nat, username: string): State
    requires p in s.procs && s.procs[p].Provisioning?
  {
    var Provisioning(id, event) := s.procs[p];
    if IdentityTaken(s.users, id) || UsernameTaken(s.users, username) then Put(s, p, Reresolving(id, event))
    else SetUser(Put(s, p, Minting(s.nextUser, ByIdentity(event))), s.nextUser,
                 User(username, "", false, 0, None, Some(id), event))
         .(nextUser := s.nextUser + 1)
  }

  /** resolveSession, first statement, for the two ways of stepping up. */
  function AfterStepUpSession(s: State, p: nat, token: Token): State
    requires s.log != []
  {
    if Live(s, token) then Put(s, p, StartingStepUp(token, s.sessions[token].user, s.This())) else s
  }

  function AfterLocalSession(s: State, p: nat, token: Token): State
    requires s.log != []
  {
    if Live(s, token) then Put(s, p, CheckingLocalUser(token, s.sessions[token].user, s.This())) else s
  }

  function AfterStepUpUser(s: State, p: nat): State
    requires s.log != [] && p in s.procs && s.procs[p].StartingStepUp?
  {
    var StartingStepUp(token, u, start) := s.procs[p];
    if u in s.users && s.users[u].oidc.Some? then SealFlow(End(s, p), StepUp(token, u, start)) else End(s, p)
  }

  /** The session must still be live and belong to the user who started the flow. */
  function AfterReauthSession(s: State, p: nat): State
    requires p in s.procs && s.procs[p].CheckingSession?
  {
    var CheckingSession(token, u, subject, start, event) := s.procs[p];
    if Live(s, token) && s.sessions[token].user == u
    then Put(s, p, CheckingSubject(token, u, subject, start, event)) else End(s, p)
  }

  /** The subject just verified must be the session owner's own. */
  function AfterReauthUser(s: State, p: nat): State
    requires p in s.procs && s.procs[p].CheckingSubject?
  {
    var CheckingSubject(token, u, subject, start, event) := s.procs[p];
    if u in s.users && s.users[u].oidc.Some? && subject != "" && s.users[u].oidc.value.subject == subject
    then Put(s, p, Marking(token, u, OidcReauth(start, event))) else End(s, p)
  }

  function AfterLocalUser(s: State, p: nat): State
    requires p in s.procs && s.procs[p].CheckingLocalUser?
  {
    var CheckingLocalUser(token, u, start) := s.procs[p];
    if u in s.users && s.users[u].confirmed && s.users[u].oidc.None?
    then Put(s, p, VerifyingLocally(token, u, start)) else End(s, p)
  }

  /** A right code is needed; a password, if there is one, must be right too. */
  function AfterLocalVerify(s: State, p: nat, codeRight: bool, password: Option<string>): State
    requires s.log != [] && p in s.procs && s.procs[p].VerifyingLocally?
  {
    var VerifyingLocally(token, u, start) := s.procs[p];
    if u !in s.users || !codeRight || (password.Some? && password.value != s.users[u].password) then End(s, p)
    else Put(s, p, Marking(token, u, LocalReauth(start, s.This())))
  }

  /** UPDATE sessions SET reauth_at: a session that is gone is no error. */
  function AfterMark(s: State, p: nat): State
    requires s.log != [] && p in s.procs && s.procs[p].Marking?
  {
    var Marking(token, u, kind) := s.procs[p];
    if token !in s.sessions then End(s, p)
    else End(s, p).(sessions := s.sessions[token := s.sessions[token].(reauth := Some(Reauth(s.now, |s.stamps|)))],
                    stamps := s.stamps + [Stamped(token, u, kind, s.This())])
  }

  /** What the handler does with a step that has been taken down. */
  function Handled(s: State, step: Step): State
    requires s.log != [] && Enabled(s, step)
  {
    match step
    case Tick(to) => s.(now := to)
    case Redeem(p, username, password, codes, tokenRight) => AfterRedeem(s, p, username, password, codes, tokenRight)
    case CreateAdmin(p, swept, sealed) => AfterCreateAdmin(s, p, swept, sealed)
    case ConfirmRead(p, ch, codeRight) => AfterConfirmRead(s, p, ch, codeRight)
    case Confirm(p) => AfterConfirm(s, p)
    case LoginRead(p, who, _, password) => AfterLoginRead(s, p, who, password)
    case LoginTotpRead(p, ch, with) => AfterLoginTotpRead(s, p, ch, with)
    case Consume(p) => AfterConsume(s, p)
    case Increment(p) => AfterIncrement(s, p)
    case Lock(p) => AfterLock(s, p)
    case Reset(p, ok) => AfterReset(s, p, ok)
    case Mint(p) => AfterMint(s, p)
    case OidcStart => SealFlow(s, Login)
    case StepUpSession(p, token) => AfterStepUpSession(s, p, token)
    case StepUpUser(p) => AfterStepUpUser(s, p)
    case Callback(p, flow, answer) => AfterCallback(s, p, flow, answer)
    case Resolve(p, who) => Found(s, p, who, s.procs[p].event, Put(s, p, Provisioning(s.procs[p].identity, s.procs[p].event)))
    case Provision(p, username) => AfterProvision(s, p, username)
    case Reresolve(p, who) => Found(s, p, who, s.procs[p].event, End(s, p))
    case ReauthSession(p) => AfterReauthSession(s, p)
    case ReauthUser(p) => AfterReauthUser(s, p)
    case LocalSession(p, token) => AfterLocalSession(s, p, token)
    case LocalUser(p) => AfterLocalUser(s, p)
    case LocalVerify(p, codeRight, password) => AfterLocalVerify(s, p, codeRight, password)
    case Mark(p) => AfterMark(s, p)
    case Logout(token) => s.(sessions := s.sessions - {token})
    case Sweep(tokens) => s.(sessions := s.sessions - tokens)
    case Abandon(p) => End(s, p)
  }

  function After(s: State, step: Step): State
    requires Enabled(s, step)
  {
    Handled(Record(s, step), step)
  }
}
