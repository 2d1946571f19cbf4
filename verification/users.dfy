/** User registration as a transition over the user collection, and the
    projection that hides a user's secrets in every response. */
module Users {
  import opened JsValues
  import opened Cloudinary
  import opened Api

  datatype User = User(
    username: string,
    email: string,
    password: string,
    fullName: string,
    avatar: string,
    coverImage: string,
    refreshToken: Nullable<string>)

  type UserStore = map<ObjectId, User>

  /** A user as responses show it: the document selected with
      `-password -refreshToken`. */
  datatype PublicUser = PublicUser(
    id: ObjectId,
    username: string,
    email: string,
    fullName: string,
    avatar: string,
    coverImage: string)

  function Sanitize(id: ObjectId, u: User): PublicUser {
    PublicUser(id, u.username, u.email, u.fullName, u.avatar, u.coverImage)
  }

  /** Two users differ at most in their password and refresh token. */
  predicate SameExceptSecrets(u: User, u': User) {
    u.(password := u'.password, refreshToken := u'.refreshToken) == u'
  }

  /** The projection drops exactly the secrets: two records project to the
      same response if and only if they differ only in password and
      refresh token. */
  lemma SanitizeDropsExactlySecrets(id: ObjectId, u: User, u': User)
    ensures Sanitize(id, u) == Sanitize(id, u') <==> SameExceptSecrets(u, u')
  {
    if Sanitize(id, u) == Sanitize(id, u') {
      assert u.username == u'.username && u.email == u'.email && u.fullName == u'.fullName;
      assert u.avatar == u'.avatar && u.coverImage == u'.coverImage;
    }
  }

  const FieldsRequired := ApiError(400, "All fields are required")
  const AlreadyExists := ApiError(400, "User already exists with the same username or email")
  const AvatarMandatory := ApiError(400, "Avatar is mandatory for registration")
  const CreationFailed := ApiError(500, "Something went wrong while creating user")

  /** The body fields and the local paths multer stored the `avatar` and
      `coverImage` parts under. */
  datatype RegisterRequest = RegisterRequest(
    username: Nullable<string>,
    fullName: Nullable<string>,
    email: Nullable<string>,
    password: Nullable<string>,
    avatarPath: Nullable<string>,
    coverImagePath: Nullable<string>)

  predicate AnyBlank(req: RegisterRequest) {
    Blank(req.username) || Blank(req.fullName) || Blank(req.email) || Blank(req.password)
  }

  /** `User.findOne({ $or: [{ username }, { email }] })` finds a document. */
  predicate Taken(users: UserStore, username: string, email: string) {
    exists id :: id in users && (users[id].username == username || users[id].email == email)
  }

  /** `User.findById(id)`: the stored document, or `null`. */
  function FindById(users: UserStore, id: ObjectId): Nullable<User> {
    if id in users then Present(users[id]) else Nullish
  }

  /** The conditions under which a registration succeeds. */
  predicate Accepted(users: UserStore, req: RegisterRequest, newId: ObjectId) {
    && !AnyBlank(req)
    && !Taken(users, req.username.value, req.email.value)
    && Truthy(req.avatarPath)
    && newId !in users
  }

  /** `registerUser`: blank fields, then duplicates, then the avatar, then
      insertion. `newId` is the identifier the database assigns. */
  function RegisterUser(
    users: UserStore, req: RegisterRequest,
    avatarSdk: SdkOutcome, coverSdk: SdkOutcome, newId: ObjectId): (s: Step<UserStore, PublicUser>)
    ensures AnyBlank(req) ==> s.reply == Err(FieldsRequired)
    ensures !AnyBlank(req) && Taken(users, req.username.value, req.email.value) ==> s.reply == Err(AlreadyExists)
    ensures !AnyBlank(req) && !Taken(users, req.username.value, req.email.value) && !Truthy(req.avatarPath)
            ==> s.reply == Err(AvatarMandatory)
    ensures s.reply != Err(CreationFailed)
    ensures s.reply.Err? ==> s.store == users
    ensures s.reply.Ok? <==> Accepted(users, req, newId)
  {
    if AnyBlank(req) then Step(users, Err(FieldsRequired))
    else if Taken(users, req.username.value, req.email.value) then Step(users, Err(AlreadyExists))
    else if !Truthy(req.avatarPath) then Step(users, Err(AvatarMandatory))
    else
      var avatar := Upload(req.avatarPath, avatarSdk);
      var coverImage := Upload(req.coverImagePath, coverSdk);
      if avatar.Nullish? then Step(users, Err(AvatarMandatory))
      else
        var u := User(req.username.value, req.email.value, req.password.value,
                      req.fullName.value, avatar.value, coverImage.Coalesce(""), Nullish);
        if newId in users then Step(users, Err(DuplicateKey))
        else
          var users' := users[newId := u];
          match FindById(users', newId)
          case Nullish => Step(users', Err(CreationFailed))
          case Present(created) => Step(users', Ok(201, Sanitize(newId, created)))
  }

  /** The record a successful registration stores: the request's fields, the
      avatar URL, the cover URL or `""` without a cover, and no refresh token. */
  lemma RegisteredUser(
    users: UserStore, req: RegisterRequest, avatarSdk: SdkOutcome, coverSdk: SdkOutcome, newId: ObjectId)
    requires Accepted(users, req, newId)
    ensures
      var s := RegisterUser(users, req, avatarSdk, coverSdk, newId);
      var u := s.store[newId];
      && newId !in users
      && newId in s.store
      && s.store == users[newId := u]
      && s.reply == Ok(201, Sanitize(newId, u))
      && u.username == req.username.value
      && u.email == req.email.value
      && u.password == req.password.value
      && u.fullName == req.fullName.value
      && u.avatar == (if avatarSdk.Responded? then avatarSdk.url else FailedUploadUrl)
      && u.coverImage == (if !Truthy(req.coverImagePath) then ""
                          else if coverSdk.Responded? then coverSdk.url else FailedUploadUrl)
      && u.refreshToken.Nullish?
  {
    var s := RegisterUser(users, req, avatarSdk, coverSdk, newId);
    var avatar := Upload(req.avatarPath, avatarSdk);
    var coverImage := Upload(req.coverImagePath, coverSdk);
    var u := User(req.username.value, req.email.value, req.password.value,
                  req.fullName.value, avatar.value, coverImage.Coalesce(""), Nullish);
    assert s.store == users[newId := u];
    assert s.store[newId] == u;
  }

  /** No two users share a username, and no two share an email. */
  predicate UniqueHandles(users: UserStore) {
    forall a, b :: a in users && b in users && a != b ==>
      users[a].username != users[b].username && users[a].email != users[b].email
  }

  lemma InsertKeepsHandlesUnique(users: UserStore, id: ObjectId, u: User)
    requires UniqueHandles(users) && id !in users
    requires forall a :: a in users ==> users[a].username != u.username && users[a].email != u.email
    ensures UniqueHandles(users[id := u])
  {
  }

  /** A registration, successful or not, keeps handles unique. */
  lemma RegisterKeepsHandlesUnique(
    users: UserStore, req: RegisterRequest, avatarSdk: SdkOutcome, coverSdk: SdkOutcome, newId: ObjectId)
    requires UniqueHandles(users)
    ensures UniqueHandles(RegisterUser(users, req, avatarSdk, coverSdk, newId).store)
  {
    var s := RegisterUser(users, req, avatarSdk, coverSdk, newId);
    if s.reply.Ok? {
      RegisteredUser(users, req, avatarSdk, coverSdk, newId);
      var u := s.store[newId];
      var name, mail := req.username.value, req.email.value;
      assert !Taken(users, name, mail);
      forall a | a in users
        ensures users[a].username != u.username && users[a].email != u.email
      {
        assert !(users[a].username == name || users[a].email == mail);
      }
      InsertKeepsHandlesUnique(users, newId, u);
    }
  }

  /** One call of `registerUser` with everything the environment supplies. */
  datatype Registration = Registration(
    req: RegisterRequest, avatarSdk: SdkOutcome, coverSdk: SdkOutcome, newId: ObjectId)

  /** The user collection after a sequence of registration calls. */
  function RegisterAll(users: UserStore, calls: seq<Registration>): UserStore
    decreases |calls|
  {
    if calls == [] then users
    else
      var c := calls[0];
      RegisterAll(RegisterUser(users, c.req, c.avatarSdk, c.coverSdk, c.newId).store, calls[1..])
  }

  /** Starting from unique handles, any sequence of registrations keeps
      every username and every email unique. */
  lemma {:induction false} RegistrationsKeepHandlesUnique(users: UserStore, calls: seq<Registration>)
    requires UniqueHandles(users)
    ensures UniqueHandles(RegisterAll(users, calls))
    decreases |calls|
  {
    if calls != [] {
      var c := calls[0];
      RegisterKeepsHandlesUnique(users, c.req, c.avatarSdk, c.coverSdk, c.newId);
      RegistrationsKeepHandlesUnique(RegisterUser(users, c.req, c.avatarSdk, c.coverSdk, c.newId).store, calls[1..]);
    }
  }

  /** Registrations only add users: every existing user is still there,
      unchanged. */
  lemma {:induction false} RegistrationsOnlyAdd(users: UserStore, calls: seq<Registration>)
    ensures users.Keys <= RegisterAll(users, calls).Keys
    ensures forall id :: id in users ==> RegisterAll(users, calls)[id] == users[id]
    decreases |calls|
  {
    if calls != [] {
      var c := calls[0];
      RegistrationsOnlyAdd(RegisterUser(users, c.req, c.avatarSdk, c.coverSdk, c.newId).store, calls[1..]);
    }
  }

  /** A second registration with the same username (or the same email) as a
      successful one is refused with 400 and changes nothing. */
  lemma SecondRegistrationRefused(
    users: UserStore, first: Registration, second: Registration)
    requires Accepted(users, first.req, first.newId)
    requires !AnyBlank(second.req)
    requires second.req.username == first.req.username || second.req.email == first.req.email
    ensures
      var after := RegisterUser(users, first.req, first.avatarSdk, first.coverSdk, first.newId).store;
      RegisterUser(after, second.req, second.avatarSdk, second.coverSdk, second.newId) == Step(after, Err(AlreadyExists))
  {
    var after := RegisterUser(users, first.req, first.avatarSdk, first.coverSdk, first.newId).store;
    assert first.newId in after;
    assert Taken(after, second.req.username.value, second.req.email.value);
  }
}
