/**
 * Registration and login over the user directory. The password hash and the
 * token signer are library code; they enter as values: a hasher whose
 * `compare` accepts every digest `hash` makes of the same plaintext, and a
 * signer whose tokens verify back to their claims.
 */
module Auth {
  import opened Types
  import opened Users
  import opened Jwt

  const InvalidCredentials := "Invalid email or password"
  const UserAlreadyExists := "User already exists"

  /**
   * A password hasher: `hash` takes the plaintext and a salt (the library
   * draws the salt at random); `compare` checks a plaintext against a digest.
   */
  datatype Hasher = Hasher(hash: (string, int) -> string, compare: (string, string) -> bool)

  /** Every digest of a plaintext is accepted for that plaintext. */
  ghost predicate SoundHasher(hasher: Hasher)
  {
    forall p, salt :: hasher.compare(p, hasher.hash(p, salt))
  }

  /** The body of a successful `register` or `login`. */
  datatype TokenResponse = TokenResponse(accessToken: string, user: Identity)

  /** `{ id, email, role }` of a stored user. */
  function IdentityOf(user: User): Identity
  {
    Identity(user.id, user.email, user.role)
  }

  /** The token claims built for an identity. */
  function PayloadOf(user: Identity): Payload
  {
    Payload(user.email, user.id, user.role)
  }

  /** `generateTokenResponse`: a token signed at `issuedAt`, and the identity. */
  function GenerateTokenResponse(signer: Signer, user: Identity, issuedAt: int): TokenResponse
  {
    TokenResponse(signer.sign(PayloadOf(user), issuedAt), user)
  }

  /**
   * `validateUserCredentials` (and the public `validateUser`, which only
   * forwards to it): the identity of the user with this email when the
   * password matches its digest; none when the email is unknown or the
   * password does not match.
   */
  function ValidateUserCredentials(users: map<string, User>, hasher: Hasher, email: string, password: string)
    : (r: Option<Identity>)
    ensures r.Some? <==> email in users && hasher.compare(password, users[email].password)
    ensures r.Some? ==> r.value == IdentityOf(users[email])
  {
    if email !in users then None
    else
      var user := users[email];
      if hasher.compare(password, user.password) then Some(IdentityOf(user)) else None
  }

  /** `login`: a token for the matching user, else one and the same Unauthorized. */
  function Login(users: map<string, User>, hasher: Hasher, signer: Signer, email: string, password: string, issuedAt: int)
    : (r: Outcome<TokenResponse>)
    ensures r.Ok? <==> email in users && hasher.compare(password, users[email].password)
    ensures r.Err? ==> r.error == Unauthorized(InvalidCredentials)
    ensures r.Ok? ==> r.value.user == IdentityOf(users[email])
    ensures r.Ok? ==> r.value.accessToken == signer.sign(PayloadOf(IdentityOf(users[email])), issuedAt)
  {
    match ValidateUserCredentials(users, hasher, email, password)
    case None => Err(Unauthorized(InvalidCredentials))
    case Some(user) => Ok(GenerateTokenResponse(signer, user, issuedAt))
  }

  /** What `register` answers, with the directory it leaves behind. */
  datatype Registration = Registration(outcome: Outcome<TokenResponse>, users: map<string, User>, nextId: int)

  /**
   * The specification of `register`: refused when the email is taken;
   * otherwise one new user with the digest of the password, and a token for it.
   */
  function RegisterStep(
    users: map<string, User>, nextId: int, hasher: Hasher, signer: Signer,
    email: string, password: string, role: Role, salt: int, issuedAt: int): (s: Registration)
    requires DirectoryValid(users, nextId)
    ensures DirectoryValid(s.users, s.nextId)
    ensures s.outcome.Err? <==> email in users
    ensures forall e :: e in users ==> e in s.users && s.users[e] == users[e]
  {
    if email in users then Registration(Err(Unauthorized(UserAlreadyExists)), users, nextId)
    else
      var saved := User(nextId, email, hasher.hash(password, salt), role);
      Registration(Ok(GenerateTokenResponse(signer, IdentityOf(saved), issuedAt)), users[email := saved], nextId + 1)
  }

  /** The authentication service and the directory it writes to. */
  class AuthService {
    const usersService: UsersService
    const hasher: Hasher
    const signer: Signer

    constructor (usersService: UsersService, hasher: Hasher, signer: Signer)
      ensures this.usersService == usersService
      ensures this.hasher == hasher && this.signer == signer
    {
      this.usersService := usersService;
      this.hasher := hasher;
      this.signer := signer;
    }

    /**
     * `register`: the request has passed validation (a password of at least
     * six characters); the salt and the clock are supplied by the caller.
     */
    method Register(email: string, password: string, role: Role, salt: int, issuedAt: int)
      returns (r: Outcome<TokenResponse>)
      requires usersService.Valid()
      requires |password| >= 6
      modifies usersService
      ensures usersService.Valid()
      ensures Registration(r, usersService.users, usersService.nextId)
           == RegisterStep(old(usersService.users), old(usersService.nextId), hasher, signer,
                           email, password, role, salt, issuedAt)
    {
      var existing := usersService.FindByEmail(email);
      if existing.Some? {
        return Err(Unauthorized(UserAlreadyExists));
      }
      var hashed := hasher.hash(password, salt);
      // the id is assigned by the directory when the row is saved
      var saved := usersService.Create(User(0, email, hashed, role));
      r := Ok(GenerateTokenResponse(signer, Identity(saved.id, saved.email, saved.role), issuedAt));
    }
  }

  // ---------------------------------------------------------------------
  // Properties.

  /** Registering a taken email answers Unauthorized and writes nothing. */
  lemma DuplicateRegistrationWritesNothing(
    users: map<string, User>, nextId: int, hasher: Hasher, signer: Signer,
    email: string, password: string, role: Role, salt: int, issuedAt: int)
    requires DirectoryValid(users, nextId)
    requires email in users
    ensures RegisterStep(users, nextId, hasher, signer, email, password, role, salt, issuedAt)
         == Registration(Err(Unauthorized(UserAlreadyExists)), users, nextId)
  {
  }

  /**
   * Registering a fresh email adds exactly one user, with that email and role,
   * the next id and the digest of the password; the answer carries its
   * `{ id, email, role }`.
   */
  lemma FreshRegistrationAddsOneUser(
    users: map<string, User>, nextId: int, hasher: Hasher, signer: Signer,
    email: string, password: string, role: Role, salt: int, issuedAt: int)
    requires DirectoryValid(users, nextId)
    requires email !in users
    ensures var s := RegisterStep(users, nextId, hasher, signer, email, password, role, salt, issuedAt);
      && s.users.Keys == users.Keys + {email}
      && |s.users| == |users| + 1
      && s.users[email] == User(nextId, email, hasher.hash(password, salt), role)
      && s.outcome == Ok(GenerateTokenResponse(signer, Identity(nextId, email, role), issuedAt))
  {
  }

  /**
   * An unknown email and a wrong password for a known one give exactly the
   * same answer, so a caller cannot tell the two apart.
   */
  lemma LoginFailuresLookAlike(
    users: map<string, User>, hasher: Hasher, signer: Signer,
    unknown: string, anyPassword: string, known: string, wrongPassword: string, t1: int, t2: int)
    requires unknown !in users
    requires known in users && !hasher.compare(wrongPassword, users[known].password)
    ensures Login(users, hasher, signer, unknown, anyPassword, t1)
         == Login(users, hasher, signer, known, wrongPassword, t2)
         == Err(Unauthorized(InvalidCredentials))
  {
  }

  /** Token claims and the strategy's identity are inverse to one another. */
  lemma PayloadRoundTrip(user: Identity, payload: Payload)
    ensures Validate(PayloadOf(user)) == user
    ensures PayloadOf(Validate(payload)) == payload
  {
  }

  /**
   * With a sound signer, the token of a response verifies to claims that the
   * strategy maps back to the response's user.
   */
  lemma TokenCarriesIdentity(signer: Signer, user: Identity, issuedAt: int)
    requires SoundSigner(signer)
    ensures var r := GenerateTokenResponse(signer, user, issuedAt);
      && signer.verify(r.accessToken) == Some(PayloadOf(user))
      && Validate(signer.verify(r.accessToken).value) == r.user == user
  {
  }

  /**
   * With a sound hasher, registering and then logging in with the same
   * email and password succeeds, for the same id, email and role, and the
   * new token verifies back to that identity.
   */
  lemma RegisterThenLogin(
    users: map<string, User>, nextId: int, hasher: Hasher, signer: Signer,
    email: string, password: string, role: Role, salt: int, t1: int, t2: int)
    requires SoundHasher(hasher) && SoundSigner(signer)
    requires DirectoryValid(users, nextId)
    requires email !in users
    ensures var s := RegisterStep(users, nextId, hasher, signer, email, password, role, salt, t1);
      var l := Login(s.users, hasher, signer, email, password, t2);
      && s.outcome.Ok? && l.Ok?
      && l.value.user == s.outcome.value.user == Identity(nextId, email, role)
      && signer.verify(l.value.accessToken) == Some(Payload(email, nextId, role))
  {
    var s := RegisterStep(users, nextId, hasher, signer, email, password, role, salt, t1);
    assert s.users[email].password == hasher.hash(password, salt);
    assert hasher.compare(password, hasher.hash(password, salt));
    TokenCarriesIdentity(signer, Identity(nextId, email, role), t2);
  }

  /** A refused registration leaves every login answering as it did before. */
  lemma LoginAfterRefusedRegistration(
    users: map<string, User>, nextId: int, hasher: Hasher, signer: Signer,
    email: string, password: string, role: Role, salt: int, t1: int,
    otherEmail: string, otherPassword: string, t2: int)
    requires DirectoryValid(users, nextId)
    requires email in users
    ensures var s := RegisterStep(users, nextId, hasher, signer, email, password, role, salt, t1);
      Login(s.users, hasher, signer, otherEmail, otherPassword, t2)
        == Login(users, hasher, signer, otherEmail, otherPassword, t2)
  {
  }
}
