/**
 * The authentication controller over the user directory: registration,
 * login, logout and the current user's profile.
 *
 * bcrypt and the token signer are parameters: `hash` is the salted hash of a
 * password, `matches(candidate, stored)` is `bcrypt.compare`, and `sign` is
 * `generateToken`. Each request is a pure step from the directory before it
 * to the directory after it together with the reply; `Directory` holds the
 * table and runs the steps in place.
 */
module UserDirectory {
  import opened Common
  import opened UserModel

  /** The body of a successful registration or login: the token and the public profile. */
  datatype Session = Session(token: string, user: PublicProfile)

  /** The directory after a request and the reply sent for it. */
  datatype UserStep<T> = UserStep(users: seq<User>, reply: Reply<T>)

  /**
   * What the directory keeps true: a user's id is its position, and the
   * unique indexes on `email` and `username` hold.
   */
  ghost predicate DirectoryValid(users: seq<User>) {
    && (forall k :: 0 <= k < |users| ==> users[k].id == k)
    && (forall i, j :: 0 <= i < j < |users| ==>
          users[i].email != users[j].email && users[i].username != users[j].username)
  }

  /** A request-body field that JavaScript treats as false: absent or the empty string. */
  predicate Blank(x: Option<string>) {
    x.None? || x.value == []
  }

  /** Appending a record whose id is fresh and whose e-mail and username are free keeps the indexes unique. */
  lemma AppendKeepsValid(users: seq<User>, u: User)
    requires u.id == |users|
    requires FindByEmail(users, u.email).None? && FindByUsername(users, u.username).None?
    ensures DirectoryValid(users) ==> DirectoryValid(users + [u])
  {
    var s := users + [u];
    assert forall k :: 0 <= k < |users| ==> s[k] == users[k];
  }

  /** Replacing a record by one with the same id, e-mail and username keeps the indexes unique. */
  lemma ReplaceKeepsValid(users: seq<User>, i: nat, u: User)
    requires i < |users| && u.id == users[i].id
    requires u.email == users[i].email && u.username == users[i].username
    ensures DirectoryValid(users) ==> DirectoryValid(users[i := u])
  {
  }

  // ---------------------------------------------------------------------------
  // register
  // ---------------------------------------------------------------------------

  /**
   * `register`: email, username and password are required, the password has
   * at least 6 characters, the e-mail and then the username must be free;
   * the new record must pass the schema's validators when saved, and it is
   * stored with its password hashed.
   */
  function RegisterStep(users: seq<User>, email: Option<string>, username: Option<string>,
                        password: Option<string>, avatar: Option<string>, now: nat,
                        hash: string -> string, sign: UserId -> string): (r: UserStep<Session>)
    ensures r.reply.Err? ==> r.users == users
    ensures Blank(email) || Blank(username) || Blank(password) ==>
      r.reply == Err(StatusBadRequest, "Email, username et mot de passe requis")
    ensures (!Blank(email) && !Blank(username) && !Blank(password) &&
             |password.value| < MinPasswordLength) ==>
      r.reply == Err(StatusBadRequest, "Mot de passe minimum 6 caractères")
    ensures (!Blank(email) && !Blank(username) && !Blank(password) &&
             |password.value| >= MinPasswordLength &&
             FindByEmail(users, NormalizeEmail(email.value)).Some?) ==>
      r.reply == Err(StatusConflict, "Email déjà utilisé")
    ensures (!Blank(email) && !Blank(username) && !Blank(password) &&
             |password.value| >= MinPasswordLength &&
             FindByEmail(users, NormalizeEmail(email.value)).None? &&
             FindByUsername(users, Trim(username.value)).Some?) ==>
      r.reply == Err(StatusConflict, "Nom d'utilisateur déjà pris")
    ensures (&& !Blank(email) && !Blank(username) && !Blank(password)
             && |password.value| >= MinPasswordLength
             && FindByEmail(users, NormalizeEmail(email.value)).None?
             && FindByUsername(users, Trim(username.value)).None?
             && Validates(NewUser(|users|, email.value, username.value, password.value,
                                  if Blank(avatar) then None else avatar, now))) ==>
      r.reply.Ok?
    ensures (&& !Blank(email) && !Blank(username) && !Blank(password)
             && |password.value| >= MinPasswordLength
             && FindByEmail(users, NormalizeEmail(email.value)).None?
             && FindByUsername(users, Trim(username.value)).None?
             && !Validates(NewUser(|users|, email.value, username.value, password.value,
                                   if Blank(avatar) then None else avatar, now))) ==>
      r.reply == Err(StatusServerError, "Erreur serveur lors de l'inscription")
    ensures r.reply.Ok? ==>
      && !Blank(email) && !Blank(username) && !Blank(password)
      && |password.value| >= MinPasswordLength
      && FindByEmail(users, NormalizeEmail(email.value)).None?
      && FindByUsername(users, Trim(username.value)).None?
      && Validates(NewUser(|users|, email.value, username.value, password.value,
                           if Blank(avatar) then None else avatar, now))
      && |r.users| == |users| + 1
      && var u := r.users[|users|];
      && r.reply.code == StatusCreated
      && r.users == users + [u]
      && u.id == |users| && u.email == NormalizeEmail(email.value)
      && ValidEmail(u.email) && |u.username| >= MinUsernameLength
      && u.username == Trim(username.value)
      && u.password == hash(password.value)
      && u.avatar == (if Blank(avatar) then None else avatar)
      && u.status == Offline && u.lastConnection == None && u.socketId == None
      && u.createdAt == now && u.updatedAt == now
      && r.reply.value == Session(sign(u.id), ToPublicJson(u))
    ensures DirectoryValid(users) ==> DirectoryValid(r.users)
  {
    if Blank(email) || Blank(username) || Blank(password) then
      UserStep(users, Err(StatusBadRequest, "Email, username et mot de passe requis"))
    else if |password.value| < MinPasswordLength then
      UserStep(users, Err(StatusBadRequest, "Mot de passe minimum 6 caractères"))
    else if FindByEmail(users, NormalizeEmail(email.value)).Some? then
      UserStep(users, Err(StatusConflict, "Email déjà utilisé"))
    else if FindByUsername(users, Trim(username.value)).Some? then
      UserStep(users, Err(StatusConflict, "Nom d'utilisateur déjà pris"))
    else
      var u := NewUser(|users|, email.value, username.value, password.value,
                       if Blank(avatar) then None else avatar, now);
      if !Validates(u) then
        UserStep(users, Err(StatusServerError, "Erreur serveur lors de l'inscription"))
      else
        var stored := PreSave(u, true, hash);
        AppendKeepsValid(users, stored);
        UserStep(users + [stored], Ok(StatusCreated, Session(sign(stored.id), ToPublicJson(stored))))
  }

  // ---------------------------------------------------------------------------
  // login, logout, me
  // ---------------------------------------------------------------------------

  /** The save of an existing record after assignments: the validators first, then the save itself. */
  function Resave(before: User, after: User, now: nat, hash: string -> string): (r: Option<User>)
    ensures r.Some? <==> Validates(after)
    ensures r.Some? ==> r.value == SavedUser(before, after, now, hash)
  {
    if !Validates(after) then None
    else Some(SavedUser(before, after, now, hash))
  }

  /**
   * `login`: an unknown e-mail and a wrong password are refused with the same
   * 401; otherwise the user becomes online with `lastConnection` at `now`.
   */
  function LoginStep(users: seq<User>, email: Option<string>, password: Option<string>, now: nat,
                     hash: string -> string, matches: (string, string) -> bool,
                     sign: UserId -> string): (r: UserStep<Session>)
    ensures r.reply.Err? ==> r.users == users
    ensures Blank(email) || Blank(password) ==>
      r.reply == Err(StatusBadRequest, "Email et mot de passe requis")
    ensures (!Blank(email) && !Blank(password) &&
             FindByEmail(users, NormalizeEmail(email.value)).None?) ==>
      r.reply == Err(StatusUnauthorized, "Identifiants invalides")
    ensures (!Blank(email) && !Blank(password) &&
             FindByEmail(users, NormalizeEmail(email.value)).Some? &&
             !matches(password.value, users[FindByEmail(users, NormalizeEmail(email.value)).value].password)) ==>
      r.reply == Err(StatusUnauthorized, "Identifiants invalides")
    ensures (!Blank(email) && !Blank(password) &&
             FindByEmail(users, NormalizeEmail(email.value)).Some? &&
             matches(password.value, users[FindByEmail(users, NormalizeEmail(email.value)).value].password) &&
             Validates(users[FindByEmail(users, NormalizeEmail(email.value)).value])) ==>
      r.reply.Ok?
    ensures (!Blank(email) && !Blank(password) &&
             FindByEmail(users, NormalizeEmail(email.value)).Some? &&
             matches(password.value, users[FindByEmail(users, NormalizeEmail(email.value)).value].password) &&
             !Validates(users[FindByEmail(users, NormalizeEmail(email.value)).value])) ==>
      r.reply == Err(StatusServerError, "Erreur serveur lors de la connexion")
    ensures r.reply.Ok? ==>
      && !Blank(email) && !Blank(password)
      && FindByEmail(users, NormalizeEmail(email.value)).Some?
      && var i := FindByEmail(users, NormalizeEmail(email.value)).value;
      && matches(password.value, users[i].password)
      && r.reply.code == StatusOk
      && |r.users| == |users| && r.users == users[i := r.users[i]]
      && r.users[i].(status := users[i].status, lastConnection := users[i].lastConnection,
                     updatedAt := users[i].updatedAt) == users[i]
      && r.users[i].status == Online && r.users[i].lastConnection == Some(now)
      && r.users[i] == SavedUser(users[i], users[i].(status := Online, lastConnection := Some(now)), now, hash)
      && r.reply.value == Session(sign(users[i].id), ToPublicJson(r.users[i]))
    ensures DirectoryValid(users) ==> DirectoryValid(r.users)
  {
    if Blank(email) || Blank(password) then
      UserStep(users, Err(StatusBadRequest, "Email et mot de passe requis"))
    else match FindByEmail(users, NormalizeEmail(email.value))
      case None => UserStep(users, Err(StatusUnauthorized, "Identifiants invalides"))
      case Some(i) =>
        var u := users[i];
        if !matches(password.value, u.password) then
          UserStep(users, Err(StatusUnauthorized, "Identifiants invalides"))
        else match Resave(u, u.(status := Online, lastConnection := Some(now)), now, hash)
          case None => UserStep(users, Err(StatusServerError, "Erreur serveur lors de la connexion"))
          case Some(saved) =>
            ReplaceKeepsValid(users, i, saved);
            UserStep(users[i := saved], Ok(StatusOk, Session(sign(saved.id), ToPublicJson(saved))))
  }

  /**
   * `logout` of the authenticated user: the user becomes offline, the socket
   * id is cleared and `lastConnection` moves to `now`.
   */
  function LogoutStep(users: seq<User>, requester: UserId, now: nat,
                      hash: string -> string): (r: UserStep<()>)
    ensures r.reply.Err? ==> r.users == users
    ensures FindUser(users, requester).None? ==> r.reply == Err(StatusNotFound, "Utilisateur non trouvé")
    ensures FindUser(users, requester).Some? && Validates(users[FindUser(users, requester).value]) ==>
      r.reply.Ok?
    ensures FindUser(users, requester).Some? && !Validates(users[FindUser(users, requester).value]) ==>
      r.reply == Err(StatusServerError, "Erreur serveur lors de la déconnexion")
    ensures r.reply.Ok? ==>
      && FindUser(users, requester).Some?
      && var i := FindUser(users, requester).value;
      && r.reply == Ok(StatusOk, ())
      && |r.users| == |users| && r.users == users[i := r.users[i]]
      && r.users[i].(status := users[i].status, lastConnection := users[i].lastConnection,
                     socketId := users[i].socketId, updatedAt := users[i].updatedAt) == users[i]
      && r.users[i].status == Offline && r.users[i].lastConnection == Some(now)
      && r.users[i].socketId == None
      && r.users[i] == SavedUser(users[i], users[i].(status := Offline, lastConnection := Some(now), socketId := None),
                                 now, hash)
    ensures DirectoryValid(users) ==> DirectoryValid(r.users)
  {
    match FindUser(users, requester)
    case None => UserStep(users, Err(StatusNotFound, "Utilisateur non trouvé"))
    case Some(i) =>
      var u := users[i];
      match Resave(u, u.(status := Offline, lastConnection := Some(now), socketId := None), now, hash)
      case None => UserStep(users, Err(StatusServerError, "Erreur serveur lors de la déconnexion"))
      case Some(saved) =>
        ReplaceKeepsValid(users, i, saved);
        UserStep(users[i := saved], Ok(StatusOk, ()))
  }

  /** `me`: the public profile of the authenticated user. */
  function Me(users: seq<User>, requester: UserId): (r: Reply<PublicProfile>)
    ensures r.Err? <==> FindUser(users, requester).None?
    ensures r.Err? ==> r == Err(StatusNotFound, "Utilisateur non trouvé")
    ensures r.Ok? ==>
      r.code == StatusOk && r.value.id == requester &&
      r.value == ToPublicJson(users[FindUser(users, requester).value])
  {
    match FindUser(users, requester)
    case None => Err(StatusNotFound, "Utilisateur non trouvé")
    case Some(i) => Ok(StatusOk, ToPublicJson(users[i]))
  }

  // ---------------------------------------------------------------------------
  // Properties across requests
  // ---------------------------------------------------------------------------

  /** The record just appended is the one an e-mail lookup finds for its address. */
  lemma FindAppended(users: seq<User>, u: User)
    requires FindByEmail(users, u.email).None?
    ensures FindByEmail(users + [u], u.email) == Some(|users|)
  {
    var s := users + [u];
    assert s[|users|] == u;
    assert forall k :: 0 <= k < |users| ==> s[k] == users[k];
  }

  /**
   * Whoever has just registered can log in with the same e-mail and
   * password, given that `matches` recognises a password against its own hash
   * and that the hash is long enough for the password validator.
   */
  lemma {:induction false} RegisterThenLogin(users: seq<User>, email: string, username: string,
                                             password: string, avatar: Option<string>, now: nat, later: nat,
                                             hash: string -> string, matches: (string, string) -> bool,
                                             sign: UserId -> string)
    requires RegisterStep(users, Some(email), Some(username), Some(password), avatar, now, hash, sign).reply.Ok?
    requires matches(password, hash(password)) && |hash(password)| >= MinPasswordLength
    ensures var after := RegisterStep(users, Some(email), Some(username), Some(password), avatar, now, hash, sign).users;
      var r := LoginStep(after, Some(email), Some(password), later, hash, matches, sign);
      && r.reply.Ok?
      && r.users[|users|].status == Online
      && r.reply.value.user.id == |users|
  {
    var after := RegisterStep(users, Some(email), Some(username), Some(password), avatar, now, hash, sign).users;
    var u := after[|users|];
    assert after == users + [u];
    FindAppended(users, u);
    assert FindByEmail(after, NormalizeEmail(email)) == Some(|users|);
    assert Validates(u.(status := Online, lastConnection := Some(later)));
  }

  /** A registration whose e-mail is already stored is refused with 409 and adds nobody. */
  lemma RegisterRefusesTakenEmail(users: seq<User>, email: string, username: string, password: string,
                                  avatar: Option<string>, now: nat, hash: string -> string,
                                  sign: UserId -> string)
    requires email != [] && username != [] && |password| >= MinPasswordLength
    requires FindByEmail(users, NormalizeEmail(email)).Some?
    ensures RegisterStep(users, Some(email), Some(username), Some(password), avatar, now, hash, sign) ==
      UserStep(users, Err(StatusConflict, "Email déjà utilisé"))
  {
  }

  /** Once an address is registered, registering it again in any spelling with the same stored form is refused. */
  lemma {:induction false} EmailTakenAfterRegister(users: seq<User>, email: string, username: string,
                                                   password: string, avatar: Option<string>, now: nat,
                                                   email2: string, username2: string, password2: string,
                                                   avatar2: Option<string>, later: nat,
                                                   hash: string -> string, sign: UserId -> string)
    requires RegisterStep(users, Some(email), Some(username), Some(password), avatar, now, hash, sign).reply.Ok?
    requires NormalizeEmail(email2) == NormalizeEmail(email)
    requires email2 != [] && username2 != [] && |password2| >= MinPasswordLength
    ensures var after := RegisterStep(users, Some(email), Some(username), Some(password), avatar, now, hash, sign).users;
      RegisterStep(after, Some(email2), Some(username2), Some(password2), avatar2, later, hash, sign) ==
        UserStep(after, Err(StatusConflict, "Email déjà utilisé"))
  {
    var after := RegisterStep(users, Some(email), Some(username), Some(password), avatar, now, hash, sign).users;
    var u := after[|users|];
    assert after == users + [u] && u.email == NormalizeEmail(email2);
    FindAppended(users, u);
    RegisterRefusesTakenEmail(after, email2, username2, password2, avatar2, later, hash, sign);
  }

  /** Surrounding blanks do not make a taken username free: `" bob "` collides with `"bob"`. */
  lemma UsernamePaddingCollides(users: seq<User>, email: string, pre: string, name: string, post: string,
                                password: string, avatar: Option<string>, now: nat,
                                hash: string -> string, sign: UserId -> string)
    requires AllSpace(pre) && AllSpace(post) && Trimmed(name) && name != []
    requires email != [] && |password| >= MinPasswordLength
    requires FindByEmail(users, NormalizeEmail(email)).None?
    requires FindByUsername(users, name).Some?
    ensures RegisterStep(users, Some(email), Some(pre + name + post), Some(password), avatar, now, hash, sign) ==
      UserStep(users, Err(StatusConflict, "Nom d'utilisateur déjà pris"))
  {
    TrimStripsPadding(pre, name, post);
    RegisterRefusesTakenUsername(users, email, pre + name + post, password, avatar, now, hash, sign);
  }

  /** A registration with a free e-mail but a stored username is refused with 409 and adds nobody. */
  lemma RegisterRefusesTakenUsername(users: seq<User>, email: string, username: string, password: string,
                                     avatar: Option<string>, now: nat, hash: string -> string,
                                     sign: UserId -> string)
    requires email != [] && username != [] && |password| >= MinPasswordLength
    requires FindByEmail(users, NormalizeEmail(email)).None?
    requires FindByUsername(users, Trim(username)).Some?
    ensures RegisterStep(users, Some(email), Some(username), Some(password), avatar, now, hash, sign) ==
      UserStep(users, Err(StatusConflict, "Nom d'utilisateur déjà pris"))
  {
  }

  // ---------------------------------------------------------------------------
  // The directory
  // ---------------------------------------------------------------------------

  /** The `users` collection. */
  class Directory {
    var users: seq<User>

    ghost predicate Valid()
      reads this
    {
      DirectoryValid(users)
    }

    constructor()
      ensures Valid() && users == []
    {
      users := [];
    }

    method Register(email: Option<string>, username: Option<string>, password: Option<string>,
                    avatar: Option<string>, now: nat, hash: string -> string,
                    sign: UserId -> string) returns (r: Reply<Session>)
      requires Valid()
      modifies this
      ensures Valid()
      ensures UserStep(users, r) == RegisterStep(old(users), email, username, password, avatar, now, hash, sign)
    {
      if Blank(email) || Blank(username) || Blank(password) {
        return Err(StatusBadRequest, "Email, username et mot de passe requis");
      }
      if |password.value| < MinPasswordLength {
        return Err(StatusBadRequest, "Mot de passe minimum 6 caractères");
      }
      if FindByEmail(users, NormalizeEmail(email.value)).Some? {
        return Err(StatusConflict, "Email déjà utilisé");
      }
      if FindByUsername(users, Trim(username.value)).Some? {
        return Err(StatusConflict, "Nom d'utilisateur déjà pris");
      }
      var u := NewUser(|users|, email.value, username.value, password.value,
                       if Blank(avatar) then None else avatar, now);
      if !Validates(u) {
        return Err(StatusServerError, "Erreur serveur lors de l'inscription");
      }
      var stored := PreSave(u, true, hash);
      AppendKeepsValid(users, stored);
      users := users + [stored];
      r := Ok(StatusCreated, Session(sign(stored.id), ToPublicJson(stored)));
    }

    method Login(email: Option<string>, password: Option<string>, now: nat, hash: string -> string,
                 matches: (string, string) -> bool, sign: UserId -> string) returns (r: Reply<Session>)
      requires Valid()
      modifies this
      ensures Valid()
      ensures UserStep(users, r) == LoginStep(old(users), email, password, now, hash, matches, sign)
    {
      if Blank(email) || Blank(password) {
        return Err(StatusBadRequest, "Email et mot de passe requis");
      }
      var found := FindByEmail(users, NormalizeEmail(email.value));
      if found.None? {
        return Err(StatusUnauthorized, "Identifiants invalides");
      }
      var i := found.value;
      var u := users[i];
      if !matches(password.value, u.password) {
        return Err(StatusUnauthorized, "Identifiants invalides");
      }
      var saved := Resave(u, u.(status := Online, lastConnection := Some(now)), now, hash);
      if saved.None? {
        return Err(StatusServerError, "Erreur serveur lors de la connexion");
      }
      ReplaceKeepsValid(users, i, saved.value);
      users := users[i := saved.value];
      r := Ok(StatusOk, Session(sign(saved.value.id), ToPublicJson(saved.value)));
    }

    method Logout(requester: UserId, now: nat, hash: string -> string) returns (r: Reply<()>)
      requires Valid()
      modifies this
      ensures Valid()
      ensures UserStep(users, r) == LogoutStep(old(users), requester, now, hash)
    {
      var found := FindUser(users, requester);
      if found.None? {
        return Err(StatusNotFound, "Utilisateur non trouvé");
      }
      var i := found.value;
      var u := users[i];
      var saved := Resave(u, u.(status := Offline, lastConnection := Some(now), socketId := None), now, hash);
      if saved.None? {
        return Err(StatusServerError, "Erreur serveur lors de la déconnexion");
      }
      ReplaceKeepsValid(users, i, saved.value);
      users := users[i := saved.value];
      r := Ok(StatusOk, ());
    }
  }
}
