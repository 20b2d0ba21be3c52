/** The user handlers: login, registration, the user listing and the
    partial user update. Password hashing and credential checking belong to
    a security layer this model does not include: the hash is a parameter
    `hash`, and login receives the outcome of the credential check. */
module AuthApi {
  import opened Common
  import opened Schemas
  import opened Models
  import opened Store

  /** The claims an access token carries. */
  datatype Claims = Claims(sub: string, role: UserRole)

  /** Login, given the user that the credential check accepted, or `None`
      when it rejected the email and password: a rejection is unauthorized;
      otherwise the token names the user's email and role. */
  function Login(authenticated: Option<User>): (r: Result<Claims, Error>)
    ensures authenticated.None? ==> r.Err? && r.error == IncorrectCredentials && StatusCode(r.error) == 401
    ensures authenticated.Some? ==> r.Ok? && r.value.sub == authenticated.value.email && r.value.role == authenticated.value.role
  {
    match authenticated
    case None => Err(IncorrectCredentials)
    case Some(user) => Ok(Claims(user.email, user.role))
  }

  /** Some stored user has this email. */
  predicate EmailInUse(users: map<int, User>, email: string) {
    exists k :: k in users && users[k].email == email
  }

  /** No two stored users share an email. */
  predicate UniqueEmails(users: map<int, User>) {
    forall j, k :: j in users && k in users && users[j].email == users[k].email ==> j == k
  }

  /** The row registration stores: the request's email, full name and role,
      the hash of the password, and the column default for the active flag
      (the request's own `isActive` is not passed on). */
  function NewUser(id: int, u: UserCreate, hash: string -> string): (user: User)
    ensures user.id == id && user.email == u.email && user.fullName == u.fullName && user.role == u.role
    ensures user.hashedPassword == hash(u.password)
    ensures user.isActive == DefaultIsActive
  {
    User(id, u.email, hash(u.password), u.fullName, u.role, DefaultIsActive)
  }

  /** Registration rejects an email that is already stored, and otherwise
      adds the new user; it keeps emails unique. */
  method RegisterUser(db: Session, u: UserCreate, hash: string -> string) returns (r: Result<User, Error>)
    requires db.Valid()
    requires ValidUserCreate(u)
    modifies db`users, db`nextUserId
    ensures db.Valid()
    ensures EmailInUse(old(db.users), u.email) ==>
              && r == Err(EmailAlreadyRegistered) && StatusCode(r.error) == 400
              && db.users == old(db.users) && db.nextUserId == old(db.nextUserId)
    ensures !EmailInUse(old(db.users), u.email) ==>
              && r == Ok(NewUser(old(db.nextUserId), u, hash))
              && r.value.id !in old(db.users)
              && db.users == old(db.users)[r.value.id := r.value]
              && db.nextUserId == old(db.nextUserId) + 1
    ensures UniqueEmails(old(db.users)) ==> UniqueEmails(db.users)
  {
    if EmailInUse(db.users, u.email) {
      return Err(EmailAlreadyRegistered);
    }
    var user := NewUser(db.nextUserId, u, hash);
    db.users := db.users[user.id := user];
    db.nextUserId := db.nextUserId + 1;
    r := Ok(user);
  }

  /** Users in id order, after OFFSET/LIMIT. */
  function ReadUsers(db: Session, skip: nat, limit: nat): (r: seq<User>)
    requires db.Valid()
    reads db
    ensures |r| <= limit
    ensures forall i :: 0 <= i < |r| ==> r[i] in db.users.Values
    ensures skip == 0 && limit >= |db.users| ==> forall k :: k in db.users ==> db.users[k] in r
  {
    RowsCover(db.users, db.nextUserId);
    Paginate(Rows(db.users, db.nextUserId), skip, limit)
  }

  /** The entries the update assigns: the supplied fields in declaration
      order, except that a supplied password is popped and its hash is put
      last under `hashed_password`. The plaintext is never among them, and
      the hash is exactly when a password was supplied. */
  function UserAssignments(u: UserUpdate, hash: string -> string): (d: seq<UserField>)
    ensures forall f :: f in d ==> !f.UserPassword?
    ensures u.password.Set? ==> UserHashedPassword(hash(u.password.value)) in d
    ensures forall f :: f in d && f.UserHashedPassword? ==> u.password.Set? && f == UserHashedPassword(hash(u.password.value))
    ensures forall f :: f in d && !f.UserHashedPassword? ==> UserSupplies(u, f)
  {
    if u.password.Set? then UserUpdateData(u.(password := Unset)) + [UserHashedPassword(hash(u.password.value))]
    else UserUpdateData(u)
  }

  /** `setattr(user, key, value)` for one entry. The table has no
      `password` column, so that entry changes no stored field. */
  function SetUserAttr(user: User, f: UserField): User {
    match f
    case UserEmail(v) => user.(email := v)
    case UserFullName(v) => user.(fullName := v)
    case UserPassword(_) => user
    case UserRoleField(v) => user.(role := v)
    case UserIsActive(v) => user.(isActive := v)
    case UserHashedPassword(v) => user.(hashedPassword := v)
  }

  /** The reference meaning of a partial user update: each supplied field
      takes its value, a supplied password replaces the stored hash by its
      own hash, and every field not supplied keeps its value. */
  function MergeUser(user: User, u: UserUpdate, hash: string -> string): (r: User)
    ensures r.id == user.id
    ensures r.email == (if u.email.Set? then u.email.value else user.email)
    ensures r.fullName == (if u.fullName.Set? then u.fullName.value else user.fullName)
    ensures r.hashedPassword == (if u.password.Set? then hash(u.password.value) else user.hashedPassword)
    ensures r.role == (if u.role.Set? then u.role.value else user.role)
    ensures r.isActive == (if u.isActive.Set? then u.isActive.value else user.isActive)
  {
    User(user.id, Pick(u.email, user.email),
         if u.password.Set? then hash(u.password.value) else user.hashedPassword,
         Pick(u.fullName, user.fullName), Pick(u.role, user.role), Pick(u.isActive, user.isActive))
  }

  /** The setattr loop over the assignments is the partial update. */
  lemma {:induction false} UserUpdateIsMerge(user: User, u: UserUpdate, hash: string -> string)
    ensures ApplyAll(SetUserAttr, user, UserAssignments(u, hash)) == MergeUser(user, u, hash)
  {
    var u' := u.(password := Unset);
    SuppliedUserUpdate(user, u');
    if u.password.Set? {
      ApplyAllSnoc(SetUserAttr, user, UserUpdateData(u'), UserHashedPassword(hash(u.password.value)));
    } else {
      assert u' == u;
    }
  }

  /** Assigning the supplied fields of a request sets each of them; a
      `password` entry changes nothing. */
  lemma {:induction false} SuppliedUserUpdate(user: User, u: UserUpdate)
    ensures ApplyAll(SetUserAttr, user, UserUpdateData(u)) ==
            user.(email := Pick(u.email, user.email), fullName := Pick(u.fullName, user.fullName),
                  role := Pick(u.role, user.role), isActive := Pick(u.isActive, user.isActive))
  {
    var contact := UserContactData(u);
    var password := UserPasswordData(u);
    ApplyAllConcat(SetUserAttr, user, contact + password, UserAccessData(u));
    ContactUpdate(user, u);
    assert ApplyAll(SetUserAttr, user, contact + password) == ApplyAll(SetUserAttr, user, contact) by {
      if u.password.Set? {
        ApplyAllSnoc(SetUserAttr, user, contact, UserPassword(u.password.value));
      } else {
        assert contact + password == contact;
      }
    }
    AccessUpdate(ApplyAll(SetUserAttr, user, contact), u);
  }

  lemma {:induction false} ContactUpdate(user: User, u: UserUpdate)
    ensures ApplyAll(SetUserAttr, user, UserContactData(u)) ==
            user.(email := Pick(u.email, user.email), fullName := Pick(u.fullName, user.fullName))
  {
    var f := SetUserAttr;
    var d1 := if u.email.Set? then [UserEmail(u.email.value)] else [];
    var p1 := user.(email := Pick(u.email, user.email));
    assert ApplyAll(f, user, d1) == p1;
    var d2 := d1 + (if u.fullName.Set? then [UserFullName(u.fullName.value)] else []);
    var p2 := p1.(fullName := Pick(u.fullName, user.fullName));
    assert ApplyAll(f, user, d2) == p2 by {
      if u.fullName.Set? { ApplyAllSnoc(f, user, d1, UserFullName(u.fullName.value)); } else { assert d2 == d1; }
    }
    assert d2 == UserContactData(u);
  }

  lemma {:induction false} AccessUpdate(user: User, u: UserUpdate)
    ensures ApplyAll(SetUserAttr, user, UserAccessData(u)) ==
            user.(role := Pick(u.role, user.role), isActive := Pick(u.isActive, user.isActive))
  {
    var f := SetUserAttr;
    var d1 := if u.role.Set? then [UserRoleField(u.role.value)] else [];
    var p1 := user.(role := Pick(u.role, user.role));
    assert ApplyAll(f, user, d1) == p1;
    var d2 := d1 + (if u.isActive.Set? then [UserIsActive(u.isActive.value)] else []);
    var p2 := p1.(isActive := Pick(u.isActive, user.isActive));
    assert ApplyAll(f, user, d2) == p2 by {
      if u.isActive.Set? { ApplyAllSnoc(f, user, d1, UserIsActive(u.isActive.value)); } else { assert d2 == d1; }
    }
    assert d2 == UserAccessData(u);
  }

  /** Updating a user: a missing user is not found; otherwise the
      assignments are applied one by one. */
  method UpdateUser(db: Session, id: int, u: UserUpdate, hash: string -> string) returns (r: Result<User, Error>)
    requires db.Valid()
    modifies db`users
    ensures db.Valid()
    ensures id !in old(db.users) ==> r == Err(UserNotFound) && db.users == old(db.users)
    ensures id in old(db.users) ==>
              && r == Ok(MergeUser(old(db.users[id]), u, hash))
              && db.users == old(db.users)[id := r.value]
  {
    if id !in db.users {
      return Err(UserNotFound);
    }
    var data := UserAssignments(u, hash);
    AssignUserFields(db, id, data);
    UserUpdateIsMerge(old(db.users[id]), u, hash);
    r := Ok(db.users[id]);
  }

  /** The `for key, value in update_data.items(): setattr(db_user, key, value)` loop. */
  method AssignUserFields(db: Session, id: int, data: seq<UserField>)
    requires id in db.users
    modifies db`users
    ensures db.users == old(db.users)[id := ApplyAll(SetUserAttr, old(db.users[id]), data)]
  {
    var i := 0;
    while i < |data|
      invariant 0 <= i <= |data|
      invariant db.users == old(db.users)[id := ApplyAll(SetUserAttr, old(db.users[id]), data[..i])]
    {
      assert data[..i + 1][..i] == data[..i];
      db.users := db.users[id := SetUserAttr(db.users[id], data[i])];
      i := i + 1;
    }
    assert data[..i] == data;
  }
}
