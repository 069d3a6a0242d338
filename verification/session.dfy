/** The account/session state machine of `TempEmailClient`: the fields
    `domain`, `account`, `token`, `current_password` and the session's
    `Authorization` header, and the transitions `reset_state`,
    `get_domains`, `authenticate_account` and `create_account`. Every
    answer of the mail provider and every random draw is a parameter. */
module Session {
  import opened Options
  import opened Text

  /** The `{address, password}` record kept in `self.account`. */
  datatype Account = Account(address: string, password: string)

  /** One entry of the provider's domain listing. */
  datatype DomainEntry = DomainEntry(domain: string)

  /** The client's mutable fields as one value; `authHeader` is the value of
      the session's `Authorization` header, `None` when it is not set. */
  datatype ClientState = ClientState(
    domain: Option<string>,
    account: Option<Account>,
    token: Option<string>,
    currentPassword: Option<string>,
    authHeader: Option<string>)

  /** The provider's answer to `GET /domains`: a transport or HTTP error, or
      the members of the listing (a missing member list reads as empty). */
  datatype DomainsReply = DomainsFailed | Domains(members: seq<DomainEntry>)

  /** The provider's answer to `POST /token`: a transport or HTTP error, or
      a body whose `token` field may be missing. */
  datatype TokenReply = TokenFailed | TokenIssued(token: Option<string>)

  /** What a transition returns, paired with the state it leaves behind. */
  datatype Step<T> = Step(out: T, state: ClientState)

  /** The state of a freshly constructed client. */
  const Initial := ClientState(None, None, None, None, None)

  const DefaultUsernameLength := 10
  const DefaultPasswordLength := 16

  /** A usable token: present and non-empty. */
  predicate HasToken(s: ClientState) {
    Present(s.token)
  }

  /** A usable cached domain: present and non-empty. */
  predicate HasDomain(s: ClientState) {
    Present(s.domain)
  }

  /** No account, token, password or authorization header. */
  predicate SignedOut(s: ClientState) {
    s.account.None? && s.token.None? && s.currentPassword.None? && s.authHeader.None?
  }

  /** The text an f-string gives a token field: `None` prints as "None". */
  function TokenText(t: Option<string>): string {
    match t
    case Some(v) => v
    case None => "None"
  }

  function BearerHeader(t: Option<string>): string {
    "Bearer " + TokenText(t)
  }

  /** The session invariant: an authorization header is attached exactly when
      an account is stored, and it carries the stored token; a usable token
      is never held without an account; a stored account's password is the
      current password. */
  predicate WellFormed(s: ClientState) {
    && (s.account.Some? <==> s.authHeader.Some?)
    && (HasToken(s) ==> s.account.Some?)
    && (s.authHeader.Some? ==> s.authHeader.value == BearerHeader(s.token))
    && (s.account.Some? ==> s.currentPassword == Some(s.account.value.password))
  }

  /** `reset_state`: forget the account, token, password and header; the
      cached domain survives. Resetting a signed-out state changes nothing,
      so resetting twice is resetting once. */
  function ResetState(s: ClientState): (r: ClientState)
    ensures SignedOut(r)
    ensures r.domain == s.domain
    ensures SignedOut(s) ==> r == s
    ensures WellFormed(r)
  {
    s.(account := None, token := None, currentPassword := None, authHeader := None)
  }

  /** `get_domains`: the listing is returned, and its first domain cached,
      only when the request succeeds with a non-empty list; otherwise the
      result is `None` and the state is untouched. */
  function GetDomains(s: ClientState, reply: DomainsReply): (r: Step<Option<seq<DomainEntry>>>)
    ensures r.out.Some? <==> reply.Domains? && reply.members != []
    ensures r.out.Some? ==> r.out.value == reply.members && r.state.domain == Some(reply.members[0].domain)
    ensures r.out.None? ==> r.state == s
    ensures r.state.(domain := s.domain) == s
    ensures WellFormed(s) ==> WellFormed(r.state)
  {
    match reply
    case DomainsFailed => Step(None, s)
    case Domains(members) =>
      if members == [] then Step(None, s)
      else Step(Some(members), s.(domain := Some(members[0].domain)))
  }

  /** A lower-case word of length `n`: what `generate_random_username` yields. */
  predicate IsLowercaseWord(w: string, n: nat) {
    |w| == n && forall i :: 0 <= i < |w| ==> 'a' <= w[i] <= 'z'
  }

  /** `generate_random_username(length)`: character `i` is the letter
      `random.choice` picks at its `i`-th call, given here as `draw(i)`. */
  function GenerateRandomUsername(length: nat, draw: nat -> nat): (r: string)
    ensures IsLowercaseWord(r, length)
  {
    seq(length, i requires 0 <= i < length => ('a' as int + draw(i) % 26) as char)
  }

  /** Every lower-case word of the right length is a possible draw. */
  lemma EveryWordCanBeDrawn(w: string, n: nat)
    requires IsLowercaseWord(w, n)
    ensures GenerateRandomUsername(n, (i: nat) => if i < |w| then w[i] as int - 'a' as int else 0) == w
  {
    var draw: nat -> nat := (i: nat) => if i < |w| then w[i] as int - 'a' as int else 0;
    var g := GenerateRandomUsername(n, draw);
    forall i | 0 <= i < n
      ensures g[i] == w[i]
    {
      assert draw(i) == w[i] as int - 'a' as int;
    }
  }

  /** `authenticate_account`: after a successful token exchange the account,
      password and header describe exactly the given credentials and the
      returned token; on failure the state is the reset state. The source
      does not check that the reply carries a token. */
  function AuthenticateAccount(s: ClientState, email: string, password: string, reply: TokenReply): (r: Step<bool>)
    ensures r.out <==> reply.TokenIssued?
    ensures r.out ==>
      && r.state.account == Some(Account(email, password))
      && r.state.currentPassword == Some(password)
      && r.state.token == reply.token
      && r.state.authHeader == Some("Bearer " + TokenText(reply.token))
    ensures !r.out ==> r.state == ResetState(s)
    ensures r.state.domain == s.domain
    ensures WellFormed(r.state)
  {
    var s0 := ResetState(s);
    match reply
    case TokenFailed => Step(false, s0)
    case TokenIssued(t) =>
      Step(true, s0.(token := t,
                     account := Some(Account(email, password)),
                     currentPassword := Some(password),
                     authHeader := Some(BearerHeader(t))))
  }

  /** A token body without a token still counts as success: the header
      then reads "Bearer None" and no usable token is stored. */
  lemma AuthenticateWithoutToken(s: ClientState, email: string, password: string)
    ensures AuthenticateAccount(s, email, password, TokenIssued(None)).out
    ensures !HasToken(AuthenticateAccount(s, email, password, TokenIssued(None)).state)
    ensures AuthenticateAccount(s, email, password, TokenIssued(None)).state.authHeader == Some("Bearer None")
  {
    assert BearerHeader(None) == "Bearer " + "None" == "Bearer None";
  }

  /** The domain `create_account` works with: the cached one if it is set,
      otherwise whatever `get_domains` caches. */
  function DomainAfterLookup(s: ClientState, reply: DomainsReply): Option<string> {
    if HasDomain(s) then s.domain else GetDomains(s, reply).state.domain
  }

  /** The name actually used: the given one when it is a non-empty string,
      otherwise a freshly drawn lower-case word of `length` letters. */
  function ChosenName(given: Option<string>, length: nat, draw: nat -> nat): string {
    if Present(given) then given.value else GenerateRandomUsername(length, draw)
  }

  /** The mailbox address: the user name, an '@', then the domain. */
  function MakeAddress(username: string, domain: string): string {
    username + "@" + domain
  }

  /** The text before the first '@'. */
  function LocalPart(address: string): (r: string)
    ensures r <= address
  {
    if address == [] || address[0] == '@' then [] else [address[0]] + LocalPart(address[1..])
  }

  /** The user name can be read back from an address built from it. */
  lemma {:induction false} LocalPartOfAddress(username: string, domain: string)
    requires '@' !in username
    ensures LocalPart(MakeAddress(username, domain)) == username
  {
    if username != [] {
      assert MakeAddress(username, domain)[1..] == MakeAddress(username[1..], domain);
      LocalPartOfAddress(username[1..], domain);
    }
  }

  /** `create_account`. It resets the state, resolves a domain lazily and
      fails with the reset state when none can be had; it then registers
      and exchanges the credentials for a token. A transport error in
      either request clears account and password; a token body without a
      token fails too but leaves `current_password` set. Only a full
      success stores the account `username@domain` and the header. */
  function CreateAccount(
    s: ClientState,
    username: Option<string>, password: Option<string>,
    userDraw: nat -> nat, passDraw: nat -> nat,
    domains: DomainsReply, registered: bool, reply: TokenReply): (r: Step<bool>)
    ensures r.state.domain == DomainAfterLookup(s, domains)
    ensures r.out <==>
      && Present(DomainAfterLookup(s, domains))
      && registered && reply.TokenIssued? && Present(reply.token)
    ensures !Present(DomainAfterLookup(s, domains)) ==> !r.out && r.state == ResetState(s).(domain := r.state.domain)
    ensures (!registered || reply.TokenFailed?) ==> !r.out && r.state == ResetState(s).(domain := r.state.domain)
    ensures Present(DomainAfterLookup(s, domains)) && registered && reply.TokenIssued? && !Present(reply.token) ==>
      && r.state.account.None? && r.state.authHeader.None?
      && r.state.token == reply.token
      && r.state.currentPassword == Some(ChosenName(password, DefaultPasswordLength, passDraw))
    ensures r.out ==>
      && r.state.account == Some(Account(
           MakeAddress(ChosenName(username, DefaultUsernameLength, userDraw), r.state.domain.value),
           ChosenName(password, DefaultPasswordLength, passDraw)))
      && r.state.currentPassword == Some(r.state.account.value.password)
      && r.state.token == reply.token
      && HasToken(r.state)
      && r.state.authHeader == Some("Bearer " + r.state.token.value)
    ensures !r.out ==> r.state.account.None? && r.state.authHeader.None?
    ensures WellFormed(r.state)
  {
    var s0 := ResetState(s);
    var s1 := if HasDomain(s0) then s0 else GetDomains(s0, domains).state;
    if !HasDomain(s1) then Step(false, s1)
    else
      var user := ChosenName(username, DefaultUsernameLength, userDraw);
      var pass := ChosenName(password, DefaultPasswordLength, passDraw);
      var s2 := s1.(currentPassword := Some(pass));
      var email := MakeAddress(user, s1.domain.value);
      if !registered then Step(false, s2.(currentPassword := None, account := None))
      else
        match reply
        case TokenFailed => Step(false, s2.(currentPassword := None, account := None))
        case TokenIssued(t) =>
          var s3 := s2.(token := t);
          if !Present(t) then Step(false, s3)
          else Step(true, s3.(authHeader := Some(BearerHeader(t)), account := Some(Account(email, pass))))
  }

  /** With no user name given, a successful account's address is ten
      lower-case letters, an '@' and the domain. */
  lemma DefaultAddressShape(
    s: ClientState, password: Option<string>,
    userDraw: nat -> nat, passDraw: nat -> nat,
    domains: DomainsReply, reply: TokenReply)
    requires CreateAccount(s, None, password, userDraw, passDraw, domains, true, reply).out
    ensures var r := CreateAccount(s, None, password, userDraw, passDraw, domains, true, reply);
      var address := r.state.account.value.address;
      && IsLowercaseWord(address[..DefaultUsernameLength], DefaultUsernameLength)
      && address[DefaultUsernameLength] == '@'
      && address[DefaultUsernameLength + 1..] == r.state.domain.value
      && LocalPart(address) == address[..DefaultUsernameLength]
  {
    var r := CreateAccount(s, None, password, userDraw, passDraw, domains, true, reply);
    var user := GenerateRandomUsername(DefaultUsernameLength, userDraw);
    assert '@' !in user by {
      forall i | 0 <= i < |user| ensures user[i] != '@' { }
    }
    LocalPartOfAddress(user, r.state.domain.value);
  }

  /** One call of the client's state-changing operations, with the provider's
      answers and the random draws it consumes. */
  datatype Command =
    | Reset
    | FetchDomains(domains: DomainsReply)
    | Authenticate(email: string, secret: string, reply: TokenReply)
    | Create(wantUser: Option<string>, wantPass: Option<string>,
             userDraw: nat -> nat, passDraw: nat -> nat,
             domains: DomainsReply, registered: bool, reply: TokenReply)

  function Apply(s: ClientState, c: Command): ClientState {
    match c
    case Reset => ResetState(s)
    case FetchDomains(d) => GetDomains(s, d).state
    case Authenticate(e, p, t) => AuthenticateAccount(s, e, p, t).state
    case Create(u, p, ud, pd, d, ok, t) => CreateAccount(s, u, p, ud, pd, d, ok, t).state
  }

  function Run(s: ClientState, cs: seq<Command>): ClientState
    decreases |cs|
  {
    if cs == [] then s else Run(Apply(s, cs[0]), cs[1..])
  }

  /** Every state the client can reach from construction keeps the session
      invariant: no header without an account, no header with a stale token. */
  lemma {:induction false} RunKeepsWellFormed(s: ClientState, cs: seq<Command>)
    requires WellFormed(s)
    ensures WellFormed(Run(s, cs))
    decreases |cs|
  {
    if cs != [] {
      RunKeepsWellFormed(Apply(s, cs[0]), cs[1..]);
    }
  }

  lemma ReachableWellFormed(cs: seq<Command>)
    ensures WellFormed(Run(Initial, cs))
  {
    RunKeepsWellFormed(Initial, cs);
  }

  /** Both sign-in operations forget the previous session: their outcome
      depends on the prior state only through the cached domain. */
  lemma SignInForgetsPreviousSession(
    s: ClientState, t: ClientState,
    email: string, password: string, reply: TokenReply,
    username: Option<string>, wantPass: Option<string>,
    userDraw: nat -> nat, passDraw: nat -> nat,
    domains: DomainsReply, registered: bool)
    requires s.domain == t.domain
    ensures AuthenticateAccount(s, email, password, reply) == AuthenticateAccount(t, email, password, reply)
    ensures CreateAccount(s, username, wantPass, userDraw, passDraw, domains, registered, reply)
         == CreateAccount(t, username, wantPass, userDraw, passDraw, domains, registered, reply)
  {
    assert ResetState(s) == ResetState(t);
  }
}
