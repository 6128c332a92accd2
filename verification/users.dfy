/** Accounts: sign-up under an e-mail address nobody holds yet, lookup by id, and the partial
    profile update. Both generations of the user service are the same code. */
module Users {
  import opened Common
  import opened Tables
  import opened Records
  import opened Persistence

  const USER := "User"
  const EMAIL := "Email"

  /** The sign-up form; the password arrives in plain text. */
  datatype SignUpRequest = SignUpRequest(
    fullName: Option<string>,
    email: Option<string>,
    phone: Option<string>,
    password: string,
    address: Option<string>,
    city: Option<string>,
    province: Option<string>)

  /** The profile-update form; a null field means "leave as it is". */
  datatype ProfileUpdate = ProfileUpdate(
    fullName: Option<string>,
    phone: Option<string>,
    address: Option<string>,
    city: Option<string>,
    province: Option<string>)

  /** `existsByEmail`: some stored user has this e-mail (a null address matches a user
      without one, as the derived query compares with IS NULL). */
  predicate EmailTaken(users: Table<Id, User>, email: Option<string>) {
    exists row :: row in users && row.rec.email == email
  }

  /** No two stored users share an e-mail address. */
  ghost predicate EmailsUnique(users: Table<Id, User>) {
    forall k1, k2 :: k1 in Keys(users) && k2 in Keys(users) && k1 != k2 ==>
      Get(users, k1).value.email != Get(users, k2).value.email
  }

  // ------------------------------------------------------------------ signUp

  /** The user `signUp` builds: the form's profile fields, the encoder's output as password
      hash, not verified. */
  function NewUser(req: SignUpRequest, encode: string -> string): (u: User)
    ensures u.fullName == req.fullName && u.email == req.email && u.phone == req.phone
    ensures u.address == req.address && u.city == req.city && u.province == req.province
    ensures u.passwordHash == encode(req.password) && !u.isVerified
  {
    User(req.fullName, req.email, req.phone, req.address, req.city, req.province, encode(req.password), false)
  }

  /** `signUp`: a taken e-mail fails and stores nothing; otherwise the new user is stored under
      the fresh id. `encode` is the password encoder. */
  function SignUp(s: Store, req: SignUpRequest, encode: string -> string, newId: Id): (o: Outcome<Row<Id, User>>)
    requires newId !in Keys(s.users)
    ensures o.result.Err? <==> EmailTaken(s.users, req.email)
    ensures o.result.Err? ==> o == Outcome(Err(AlreadyExists(EMAIL)), s)
    ensures o.result.Ok? ==>
      && o.result.value == Row(newId, NewUser(req, encode))
      && o.store == s.(users := s.users + [o.result.value])
  {
    if EmailTaken(s.users, req.email) then Outcome(Err(AlreadyExists(EMAIL)), s)
    else
      var user := NewUser(req, encode);
      Outcome(Ok(Row(newId, user)), s.(users := Save(s.users, newId, user)))
  }

  method SignUpUser(db: Repositories, req: SignUpRequest, encode: string -> string, newId: Id)
    returns (r: Result<Row<Id, User>>)
    requires db.Valid() && newId !in Keys(db.store.users)
    modifies db
    ensures db.Valid()
    ensures Outcome(r, db.store) == SignUp(old(db.store), req, encode, newId)
  {
    if EmailTaken(db.store.users, req.email) {
      return Err(AlreadyExists(EMAIL));
    }
    var user := NewUser(req, encode);
    db.store := db.store.(users := Save(db.store.users, newId, user));
    r := Ok(Row(newId, user));
  }

  /** Sign-up keeps e-mail addresses unique, and a second sign-up with the same address is
      refused. */
  lemma SignUpKeepsEmailsUnique(s: Store, req: SignUpRequest, encode: string -> string, newId: Id, req2: SignUpRequest, newId2: Id)
    requires newId !in Keys(s.users) && UniqueKeys(s.users) && EmailsUnique(s.users)
    ensures EmailsUnique(SignUp(s, req, encode, newId).store.users)
    ensures var after := SignUp(s, req, encode, newId).store;
      SignUp(s, req, encode, newId).result.Ok? && req2.email == req.email && newId2 !in Keys(after.users) ==>
        SignUp(after, req2, encode, newId2) == Outcome(Err(AlreadyExists(EMAIL)), after)
  {
    var o := SignUp(s, req, encode, newId);
    if o.result.Ok? {
      var users := o.store.users;
      forall k1, k2 | k1 in Keys(users) && k2 in Keys(users) && k1 != k2
        ensures Get(users, k1).value.email != Get(users, k2).value.email
      {
        if k1 == newId || k2 == newId {
          var other := if k1 == newId then k2 else k1;
          assert other in Keys(s.users);
          assert Row(other, Get(s.users, other).value) in s.users;
        }
      }
      assert Row(newId, NewUser(req, encode)) in users;
    }
  }

  // ------------------------------------------------------------------ findById

  /** `findById`: the stored user, or not-found. */
  function FindById(s: Store, userId: Id): (r: Result<User>)
    ensures r.Err? <==> userId !in Keys(s.users)
    ensures r.Err? ==> r.error == NotFound(USER)
    ensures r.Ok? ==> Row(userId, r.value) in s.users
  {
    match Get(s.users, userId)
    case None => Err(NotFound(USER))
    case Some(u) => Ok(u)
  }

  // ------------------------------------------------------------------ updateUserProfile

  /** The setters `updateUserProfile` applies: the full name only when given and non-empty, the
      other four fields whenever given; the e-mail address, password and verification flag are
      never touched. */
  function Apply(u: User, req: ProfileUpdate): (v: User)
    ensures v.fullName == (if req.fullName.Some? && req.fullName.value != "" then req.fullName else u.fullName)
    ensures v.phone == (if req.phone.Some? then req.phone else u.phone)
    ensures v.address == (if req.address.Some? then req.address else u.address)
    ensures v.city == (if req.city.Some? then req.city else u.city)
    ensures v.province == (if req.province.Some? then req.province else u.province)
    ensures v.email == u.email && v.passwordHash == u.passwordHash && v.isVerified == u.isVerified
  {
    u.(fullName := if req.fullName.Some? && req.fullName.value != "" then req.fullName else u.fullName,
       phone := if req.phone.Some? then req.phone else u.phone,
       address := if req.address.Some? then req.address else u.address,
       city := if req.city.Some? then req.city else u.city,
       province := if req.province.Some? then req.province else u.province)
  }

  /** `updateUserProfile`: an unknown user fails and nothing changes; otherwise the user's
      record becomes `Apply(user, req)` and is returned. */
  function UpdateProfile(s: Store, userId: Id, req: ProfileUpdate): (o: Outcome<User>)
    ensures o.result.Err? <==> userId !in Keys(s.users)
    ensures o.result.Err? ==> o == Outcome(Err(NotFound(USER)), s)
    ensures o.result.Ok? ==>
      && o.result.value == Apply(Get(s.users, userId).value, req)
      && Get(o.store.users, userId) == Some(o.result.value)
      && (forall k :: k != userId ==> Get(o.store.users, k) == Get(s.users, k))
      && o.store == s.(users := o.store.users)
  {
    match Get(s.users, userId)
    case None => Outcome(Err(NotFound(USER)), s)
    case Some(u) =>
      var updated := Apply(u, req);
      Outcome(Ok(updated), s.(users := Save(s.users, userId, updated)))
  }

  method UpdateUserProfile(db: Repositories, userId: Id, req: ProfileUpdate) returns (r: Result<User>)
    requires db.Valid()
    modifies db
    ensures db.Valid()
    ensures Outcome(r, db.store) == UpdateProfile(old(db.store), userId, req)
  {
    var found := Get(db.store.users, userId);
    if found.None? {
      return Err(NotFound(USER));
    }
    var user := found.value;
    if req.fullName.Some? && req.fullName.value != "" {
      user := user.(fullName := req.fullName);
    }
    if req.phone.Some? {
      user := user.(phone := req.phone);
    }
    if req.address.Some? {
      user := user.(address := req.address);
    }
    if req.city.Some? {
      user := user.(city := req.city);
    }
    if req.province.Some? {
      user := user.(province := req.province);
    }
    db.store := db.store.(users := Save(db.store.users, userId, user));
    r := Ok(user);
  }

  /** Applying the same update twice gives what applying it once gives. */
  lemma {:induction false} UpdateIdempotent(s: Store, userId: Id, req: ProfileUpdate)
    ensures var once := UpdateProfile(s, userId, req);
      UpdateProfile(once.store, userId, req) == once
  {
    var once := UpdateProfile(s, userId, req);
    if once.result.Ok? {
      var u := Get(s.users, userId).value;
      assert Apply(Apply(u, req), req) == Apply(u, req);
      SaveIdempotent(s.users, userId, Apply(u, req));
    }
  }

  /** A profile update never changes anyone's e-mail address, so it keeps them unique. */
  lemma UpdateKeepsEmailsUnique(s: Store, userId: Id, req: ProfileUpdate)
    requires EmailsUnique(s.users)
    ensures EmailsUnique(UpdateProfile(s, userId, req).store.users)
  {
    var o := UpdateProfile(s, userId, req);
    if o.result.Ok? {
      var users := o.store.users;
      assert Keys(users) == Keys(s.users);
      forall k1, k2 | k1 in Keys(users) && k2 in Keys(users) && k1 != k2
        ensures Get(users, k1).value.email != Get(users, k2).value.email
      {
        assert Get(users, k1).value.email == Get(s.users, k1).value.email;
        assert Get(users, k2).value.email == Get(s.users, k2).value.email;
      }
    }
  }
}
