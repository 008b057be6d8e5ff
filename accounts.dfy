/** The account handlers: registration, login, the current identity, and the
    two credential changes, over an account collection in which no two
    accounts share an email. Password hashing is an injected scheme; tokens
    are issued as in the Tokens module. */
module Accounts {
  import opened Wrappers
  import opened Tokens
  import opened BearerGuard

  const FillAllFields := "Please fill in all fields"
  const AlreadyRegistered := "User already registered"
  const InvalidCredentials := "Invalid email or password"
  const MissingEmailFields := "Please provide new email and current password"
  const UserNotFound := "User not found"
  const WrongPassword := "Current password is incorrect"
  const EmailInUse := "Email is already in use"
  const MissingPasswordFields := "Please provide current password and new password"
  const WeakPassword := "New password must be at least 6 characters"
  const MinPasswordLength: nat := 6

  /** The one-way password hashing the store relies on: `hash` makes the
      stored verifier, `compare` checks a candidate password against it. */
  datatype PasswordScheme = PasswordScheme(hash: string -> string, compare: (string, string) -> bool)

  /** A password always matches its own hash. */
  ghost predicate Correct(scheme: PasswordScheme) {
    forall p :: scheme.compare(p, scheme.hash(p))
  }

  /** A stored account; `password` holds the hash, never the password. */
  datatype Account = Account(id: nat, username: string, email: string, password: string)

  /** What registration answers with: the account without its password. */
  datatype Profile = Profile(id: nat, username: string, email: string)

  /** What a successful email change answers with. */
  datatype EmailChange = EmailChange(email: string, accessToken: Token)

  /** The identity a token issued for `a` carries. */
  function ClaimsOf(a: Account): Claims {
    Claims(a.username, a.email, a.id)
  }

  /** Some account other than `except` uses `email`. */
  predicate EmailTaken(accounts: map<nat, Account>, email: string, except: Option<nat>) {
    exists k :: k in accounts && accounts[k].email == email && Some(k) != except
  }

  ghost predicate UniqueEmails(accounts: map<nat, Account>) {
    forall j, k :: j in accounts && k in accounts && j != k ==> accounts[j].email != accounts[k].email
  }

  /** `getCurrentUser` behind the guard: the identity of the request's token,
      answered without looking at the account collection. */
  function GetCurrentUser(headers: map<string, string>, codec: TokenCodec, now: nat): (r: Result<Claims>)
    ensures r.Err? ==> r.status == 401
    ensures r.Ok? <==> exists text :: ExtractToken(SelectHeader(headers)) == Some(text) && Verify(codec, text, now).Valid?
    ensures r.Ok? ==> exists text :: ExtractToken(SelectHeader(headers)) == Some(text) && Verify(codec, text, now) == Valid(r.value)
  {
    Authenticate(headers, codec, now)
  }

  class AccountStore {
    /** The hashing scheme, fixed when the process starts. */
    const scheme: PasswordScheme
    /** The account collection, keyed by id. */
    var accounts: map<nat, Account>
    /** The id the next registered account receives. */
    var nextId: nat

    ghost predicate Valid()
      reads this
    {
      && (forall k :: k in accounts ==> accounts[k].id == k && k < nextId)
      && UniqueEmails(accounts)
    }

    constructor (scheme: PasswordScheme)
      ensures Valid() && this.scheme == scheme && accounts == map[] && nextId == 0
    {
      this.scheme := scheme;
      accounts := map[];
      nextId := 0;
    }

    /** `registerUser`: 400 if a field is empty, 400 if the email is already
        registered, otherwise one new account holding the password's hash. */
    method RegisterUser(username: string, email: string, password: string) returns (r: Result<Profile>)
      requires Valid()
      modifies this
      ensures Valid()
      ensures username == "" || email == "" || password == "" ==> r == Err(400, FillAllFields)
      ensures username != "" && email != "" && password != "" && EmailTaken(old(accounts), email, None) ==>
                r == Err(400, AlreadyRegistered)
      ensures r.Err? ==> accounts == old(accounts) && nextId == old(nextId)
      ensures username != "" && email != "" && password != "" && !EmailTaken(old(accounts), email, None) ==>
                && r == Ok(Profile(old(nextId), username, email))
                && old(nextId) !in old(accounts)
                && accounts == old(accounts)[old(nextId) := Account(old(nextId), username, email, scheme.hash(password))]
                && nextId == old(nextId) + 1
    {
      if username == "" || email == "" || password == "" {
        return Err(400, FillAllFields);
      }
      if EmailTaken(accounts, email, None) {
        return Err(400, AlreadyRegistered);
      }
      var account := Account(nextId, username, email, scheme.hash(password));
      accounts := accounts[nextId := account];
      nextId := nextId + 1;
      r := Ok(Profile(account.id, account.username, account.email));
    }

    /** `loginUser`: a token for the account with this email when the password
        matches its hash; an unknown email and a wrong password get the same 401. */
    method LoginUser(email: string, password: string, now: nat) returns (r: Result<Token>)
      requires Valid()
      ensures email == "" || password == "" ==> r == Err(400, FillAllFields)
      ensures email != "" && password != "" ==>
                (r.Ok? <==> exists k :: k in accounts && accounts[k].email == email && scheme.compare(password, accounts[k].password))
      ensures email != "" && password != "" && r.Err? ==> r == Err(401, InvalidCredentials)
      ensures r.Ok? ==> exists k :: k in accounts && accounts[k].email == email && r.value == Issue(ClaimsOf(accounts[k]), now)
    {
      if email == "" || password == "" {
        return Err(400, FillAllFields);
      }
      if !EmailTaken(accounts, email, None) {
        return Err(401, InvalidCredentials);
      }
      var k :| k in accounts && accounts[k].email == email;
      if !scheme.compare(password, accounts[k].password) {
        return Err(401, InvalidCredentials);
      }
      r := Ok(Issue(ClaimsOf(accounts[k]), now));
    }

    /** `updateEmail`: in this order 400 for a missing field, 404 for an
        unknown caller, 401 for a wrong password, 400 for an email another
        account uses; then the caller's email changes and a token carrying it
        is issued. */
    method UpdateEmail(caller: nat, email: string, password: string, now: nat) returns (r: Result<EmailChange>)
      requires Valid()
      modifies this
      ensures Valid() && nextId == old(nextId)
      ensures email == "" || password == "" ==> r == Err(400, MissingEmailFields)
      ensures email != "" && password != "" && caller !in old(accounts) ==> r == Err(404, UserNotFound)
      ensures email != "" && password != "" && caller in old(accounts) && !scheme.compare(password, old(accounts)[caller].password) ==>
                r == Err(401, WrongPassword)
      ensures email != "" && password != "" && caller in old(accounts) && scheme.compare(password, old(accounts)[caller].password)
              && EmailTaken(old(accounts), email, Some(caller)) ==>
                r == Err(400, EmailInUse)
      ensures r.Err? ==> accounts == old(accounts)
      ensures r.Ok? ==>
                && caller in old(accounts)
                && accounts == old(accounts)[caller := old(accounts)[caller].(email := email)]
                && r.value == EmailChange(email, Issue(ClaimsOf(accounts[caller]), now))
      ensures email != "" && password != "" && caller in old(accounts) && scheme.compare(password, old(accounts)[caller].password)
              && !EmailTaken(old(accounts), email, Some(caller)) ==>
                r.Ok?
    {
      if email == "" || password == "" {
        return Err(400, MissingEmailFields);
      }
      if caller !in accounts {
        return Err(404, UserNotFound);
      }
      var user := accounts[caller];
      if !scheme.compare(password, user.password) {
        return Err(401, WrongPassword);
      }
      if EmailTaken(accounts, email, Some(caller)) {
        return Err(400, EmailInUse);
      }
      user := user.(email := email);
      accounts := accounts[caller := user];
      r := Ok(EmailChange(user.email, Issue(ClaimsOf(user), now)));
    }

    /** `changePassword`: 400 for a missing field, 400 for a new password
        shorter than six characters (before any lookup), 404, 401 for a wrong
        current password; then the stored hash becomes the new password's. */
    method ChangePassword(caller: nat, currentPassword: string, newPassword: string) returns (r: Result<()>)
      requires Valid()
      modifies this
      ensures Valid() && nextId == old(nextId)
      ensures currentPassword == "" || newPassword == "" ==> r == Err(400, MissingPasswordFields)
      ensures currentPassword != "" && newPassword != "" && |newPassword| < MinPasswordLength ==> r == Err(400, WeakPassword)
      ensures currentPassword != "" && |newPassword| >= MinPasswordLength && caller !in old(accounts) ==>
                r == Err(404, UserNotFound)
      ensures currentPassword != "" && |newPassword| >= MinPasswordLength && caller in old(accounts)
              && !scheme.compare(currentPassword, old(accounts)[caller].password) ==>
                r == Err(401, WrongPassword)
      ensures r.Err? ==> accounts == old(accounts)
      ensures currentPassword != "" && |newPassword| >= MinPasswordLength && caller in old(accounts)
              && scheme.compare(currentPassword, old(accounts)[caller].password) ==>
                && r == Ok(())
                && accounts == old(accounts)[caller := old(accounts)[caller].(password := scheme.hash(newPassword))]
    {
      if currentPassword == "" || newPassword == "" {
        return Err(400, MissingPasswordFields);
      }
      if |newPassword| < MinPasswordLength {
        return Err(400, WeakPassword);
      }
      if caller !in accounts {
        return Err(404, UserNotFound);
      }
      var user := accounts[caller];
      if !scheme.compare(currentPassword, user.password) {
        return Err(401, WrongPassword);
      }
      accounts := accounts[caller := user.(password := scheme.hash(newPassword))];
      r := Ok(());
    }

    /** A registration followed by a login with the same credentials yields a
        token whose identity is the registered one. */
    method RegisterThenLogin(username: string, email: string, password: string, now: nat)
      returns (registered: Result<Profile>, login: Result<Token>)
      requires Valid() && Correct(scheme)
      modifies this
      ensures Valid()
      ensures username != "" && email != "" && password != "" && !EmailTaken(old(accounts), email, None) ==>
                && registered.Ok?
                && login == Ok(Issue(Claims(username, email, registered.value.id), now))
    {
      registered := RegisterUser(username, email, password);
      login := LoginUser(email, password, now);
      if registered.Ok? {
        var id := registered.value.id;
        assert accounts[id].email == email;
        assert scheme.compare(password, accounts[id].password);
        forall k | k in accounts && accounts[k].email == email ensures k == id {
        }
      }
    }

    /** After a login, the current-user query with the issued token answers
        the logged-in account's identity for the token's hour and is refused
        afterwards; the answer comes from the token alone. */
    method LoginThenCurrentUser(email: string, password: string, now: nat, codec: TokenCodec, later: nat)
      returns (login: Result<Token>, current: Result<Claims>)
      requires Valid() && Sound(codec)
      ensures login.Ok? ==> exists k :: k in accounts && accounts[k].email == email && login.value == Issue(ClaimsOf(accounts[k]), now)
      ensures login.Ok? ==> current == if later < now + Lifetime then Ok(login.value.claims) else Err(401, NotAuthorized)
    {
      login := LoginUser(email, password, now);
      if login.Ok? {
        IssuedTokenAuthenticates(codec, login.value.claims, now, later);
        current := GetCurrentUser(map["authorization" := Scheme + codec.encode(login.value)], codec, later);
      } else {
        current := Err(401, NoToken);
      }
    }
  }
}
