/** Parent registration and login (`/auth/register`, `/auth/login`).
    Password hashing is a parameter `hash` standing for SHA-256 hex digests;
    a token is the payload `create_token` signs, not its JWT encoding. */
module Auth {
  import opened Common
  import opened Records
  import opened Query
  import opened Database

  /** The claims of a login token: the parent and an expiry seven days on. */
  datatype Token = Token(parentId: Id, expiresAt: Timestamp)

  datatype ParentSummary = ParentSummary(id: Id, email: string, name: string)

  /** A successful register or login answer: the token and the parent's id,
      email and name (never the password hash). */
  datatype AuthReply = AuthReply(token: Token, parent: ParentSummary)

  function CreateToken(parentId: Id, now: Timestamp): Token {
    Token(parentId, now + TokenLifetime)
  }

  function Summary(p: Parent): ParentSummary {
    ParentSummary(p.id, p.email, p.name)
  }

  /** `verify_password`: the candidate hashes to the stored hash. */
  predicate VerifyPassword(hash: string -> string, password: string, hashed: string) {
    hash(password) == hashed
  }

  function HasEmail(email: string): Parent -> bool {
    (p: Parent) => p.email == email
  }

  ghost predicate EmailRegistered(st: Store, email: string) {
    exists p :: p in st.parents && p.email == email
  }

  /** `register_parent`: refuse a known email, otherwise store one new parent
      with the hashed password and log it in. */
  function Register(st: Store, input: ParentCreate, hash: string -> string, newId: Id, now: Timestamp)
    : (s: Step<AuthReply>)
    ensures s.response.Err? <==> EmailRegistered(st, input.email)
    ensures s.response.Err? ==> s.response == Err(400, EmailTaken) && s.store == st
    ensures s.response.Ok? ==>
      && s.store == st.(parents := s.store.parents)
      && s.store.parents == st.parents + [Parent(newId, input.email, hash(input.password), input.name, now)]
      && s.response.body.token == Token(newId, now + TokenLifetime)
      && s.response.body.parent == ParentSummary(newId, input.email, input.name)
  {
    if FindOne(st.parents, HasEmail(input.email)).Some? then
      Step(st, Err(400, EmailTaken))
    else
      var parent := Parent(newId, input.email, hash(input.password), input.name, now);
      Step(st.(parents := st.parents + [parent]),
           Ok(AuthReply(CreateToken(parent.id, now), Summary(parent))))
  }

  /** `login_parent`: the first parent with the email, if the password
      verifies against its hash; otherwise 401. */
  function Login(st: Store, input: ParentLogin, hash: string -> string, now: Timestamp)
    : (r: Response<AuthReply>)
    ensures r.Err? ==> r == Err(401, InvalidCredentials)
    ensures !EmailRegistered(st, input.email) ==> r.Err?
    ensures r.Ok? ==> exists p :: && p in st.parents && p.email == input.email
                                  && VerifyPassword(hash, input.password, p.passwordHash)
                                  && r.body == AuthReply(Token(p.id, now + TokenLifetime), Summary(p))
  {
    match FindOne(st.parents, HasEmail(input.email))
    case None => Err(401, InvalidCredentials)
    case Some(p) =>
      if !VerifyPassword(hash, input.password, p.passwordHash) then Err(401, InvalidCredentials)
      else Ok(AuthReply(CreateToken(p.id, now), Summary(p)))
  }

  /** With emails unique, login succeeds exactly for a stored email whose
      stored hash is the hash of the given password. */
  lemma {:induction false} LoginSucceedsIff(st: Store, input: ParentLogin, hash: string -> string, now: Timestamp)
    requires UniqueBy(st.parents, ParentEmail)
    ensures Login(st, input, hash, now).Ok? <==>
      exists p :: p in st.parents && p.email == input.email && hash(input.password) == p.passwordHash
  {
    if p :| p in st.parents && p.email == input.email && hash(input.password) == p.passwordHash {
      var k :| 0 <= k < |st.parents| && st.parents[k] == p;
      FindFirstOfUnique(st.parents, ParentEmail, HasEmail(input.email), k);
    }
  }

  /** Registration keeps parent emails unique. */
  lemma {:induction false} RegisterKeepsValid(st: Store, input: ParentCreate, hash: string -> string, newId: Id, now: Timestamp)
    requires Valid(st)
    ensures Valid(Register(st, input, hash, newId, now).store)
  {
    var s := Register(st, input, hash, newId, now);
    if s.response.Ok? {
      UniqueAppend(st.parents, ParentEmail, s.store.parents[|st.parents|]);
    }
  }

  /** A parent can log in with the credentials it registered with, and gets
      a token for the id registration gave it. */
  lemma {:induction false} RegisterThenLogin(st: Store, input: ParentCreate, hash: string -> string, newId: Id, now: Timestamp, later: Timestamp)
    requires Register(st, input, hash, newId, now).response.Ok?
    ensures var st' := Register(st, input, hash, newId, now).store;
      Login(st', ParentLogin(input.email, input.password), hash, later)
        == Ok(AuthReply(Token(newId, later + TokenLifetime), ParentSummary(newId, input.email, input.name)))
  {
    var st' := Register(st, input, hash, newId, now).store;
    var n := |st.parents|;
    assert st'.parents[n].email == input.email;
    assert FindFirst(st'.parents, HasEmail(input.email)) == Some(n) by {
      forall j | 0 <= j < n
        ensures !HasEmail(input.email)(st'.parents[j])
      {
        assert st'.parents[j] in st.parents;
      }
    }
  }

  /** A second registration with the same email is refused and changes nothing. */
  lemma {:induction false} RegisterTwiceFails(st: Store, input: ParentCreate, again: ParentCreate, hash: string -> string, id1: Id, id2: Id, now: Timestamp, later: Timestamp)
    requires Register(st, input, hash, id1, now).response.Ok?
    requires again.email == input.email
    ensures var st' := Register(st, input, hash, id1, now).store;
      Register(st', again, hash, id2, later) == Step(st', Err(400, EmailTaken))
  {
    var st' := Register(st, input, hash, id1, now).store;
    assert st'.parents[|st.parents|] in st'.parents;
  }
}
