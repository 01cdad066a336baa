/** Credential rules and the account operations: hashing, verifying, registering, authenticating.
  * bcrypt (through passlib) is not modelled: it is a pair of functions passed in, and its
  * only assumed property, that a digest verifies against the bytes it was made from, is a
  * premise of the lemma that uses it. */
module AuthController {
  import opened Outcomes
  import opened Models
  import Text
  import Storage

  type Bytes = seq<Text.byte>
  type Salt = seq<Text.byte>

  /** The hashing primitive: `hash(bytes, salt)` (the salt is bcrypt's random input) and `verify(bytes, digest)`. */
  datatype Bcrypt = Bcrypt(hash: (Bytes, Salt) -> string, verify: (Bytes, string) -> bool)

  /** A digest verifies against the bytes it was made from, whatever the salt. */
  ghost predicate Sound(bcrypt: Bcrypt)
  {
    forall bytes: Bytes, salt: Salt {:trigger bcrypt.hash(bytes, salt)} :: bcrypt.verify(bytes, bcrypt.hash(bytes, salt))
  }

  const MIN_PASSWORD_LENGTH := 8
  const MAX_PASSWORD_BYTES := 72
  const PASSWORD_TOO_SHORT := "Password must be at least 8 characters long"
  const PASSWORD_TOO_LONG := "Password is too long"

  /** A digest, or the `ValueError` that `hash_password` raises. */
  datatype Hashing = Hashed(digest: string) | Rejected(message: string)

  /** `hash_password`: at least 8 characters (code points), then at most 72 bytes of UTF-8,
    * then the digest of the UTF-8 bytes. */
  function HashPassword(bcrypt: Bcrypt, password: string, salt: Salt): (r: Hashing)
    ensures |password| < MIN_PASSWORD_LENGTH ==> r == Rejected(PASSWORD_TOO_SHORT)
    ensures |password| >= MIN_PASSWORD_LENGTH && |Text.Utf8Encode(password)| > MAX_PASSWORD_BYTES ==> r == Rejected(PASSWORD_TOO_LONG)
    ensures r.Hashed? <==> MIN_PASSWORD_LENGTH <= |password| && |Text.Utf8Encode(password)| <= MAX_PASSWORD_BYTES
    ensures r.Hashed? ==> r.digest == bcrypt.hash(Text.Utf8Encode(password), salt)
  {
    if |password| < MIN_PASSWORD_LENGTH then Rejected(PASSWORD_TOO_SHORT)
    else if |Text.Utf8Encode(password)| > MAX_PASSWORD_BYTES then Rejected(PASSWORD_TOO_LONG)
    else Hashed(bcrypt.hash(Text.Utf8Encode(password), salt))
  }

  /** `verify_password`: false, without raising, beyond 72 bytes; otherwise bcrypt's verdict on
    * the UTF-8 bytes, with no minimum length. */
  function VerifyPassword(bcrypt: Bcrypt, password: string, hashed: string): (r: bool)
    ensures |Text.Utf8Encode(password)| > MAX_PASSWORD_BYTES ==> !r
    ensures |Text.Utf8Encode(password)| <= MAX_PASSWORD_BYTES ==> r == bcrypt.verify(Text.Utf8Encode(password), hashed)
  {
    if |Text.Utf8Encode(password)| > MAX_PASSWORD_BYTES then false
    else bcrypt.verify(Text.Utf8Encode(password), hashed)
  }

  /** Every password of 8 to 18 characters is hashed, whatever its characters: 18 four-byte characters are 72 bytes. */
  lemma MidLengthPasswordsHashed(bcrypt: Bcrypt, password: string, salt: Salt)
    requires MIN_PASSWORD_LENGTH <= |password| <= 18
    ensures HashPassword(bcrypt, password, salt).Hashed?
  {
    Text.Utf8LengthBounds(password);
  }

  /** Every password of more than 72 characters is too long to hash and never verifies. */
  lemma OverlongPasswordsRefused(bcrypt: Bcrypt, password: string, salt: Salt, hashed: string)
    requires |password| > MAX_PASSWORD_BYTES
    ensures HashPassword(bcrypt, password, salt) == Rejected(PASSWORD_TOO_LONG)
    ensures !VerifyPassword(bcrypt, password, hashed)
  {
    Text.Utf8LengthBounds(password);
  }

  /** An ASCII password is judged by its character count alone: 8 to 72 characters are hashed. */
  lemma AsciiPasswordBounds(bcrypt: Bcrypt, password: string, salt: Salt)
    requires forall i :: 0 <= i < |password| ==> password[i] as int < 0x80
    ensures HashPassword(bcrypt, password, salt).Hashed? <==> MIN_PASSWORD_LENGTH <= |password| <= MAX_PASSWORD_BYTES
  {
    Text.Utf8Ascii(password);
  }

  /** A password verifies against its own digest. */
  lemma HashThenVerify(bcrypt: Bcrypt, password: string, salt: Salt)
    requires Sound(bcrypt)
    requires HashPassword(bcrypt, password, salt).Hashed?
    ensures VerifyPassword(bcrypt, password, HashPassword(bcrypt, password, salt).digest)
  {
    assert bcrypt.verify(Text.Utf8Encode(password), bcrypt.hash(Text.Utf8Encode(password), salt));
  }

  /** The result of `register_user`: the new user, `None` for a taken email, or the password's `ValueError`. */
  datatype Registration = Registered(user: User) | EmailTaken | Invalid(message: string)

  /** `register_user` on a database value: the email check comes before the password is hashed. */
  function RegisterStep(db: Storage.Db, name: string, email: string, password: string, bcrypt: Bcrypt, salt: Salt): (Registration, Storage.Db)
  {
    if Storage.UserByEmail(db.users, email).Some? then (EmailTaken, db)
    else
      match HashPassword(bcrypt, password, salt)
      case Rejected(message) => (Invalid(message), db)
      case Hashed(digest) =>
        var user := User(|db.users| + 1, name, email, digest, DEFAULT_ROLE);
        (Registered(user), db.(users := db.users + [user]))
  }

  /** `register_user`: inserts the user row in place. */
  method RegisterUser(store: Storage.Store, name: string, email: string, password: string, bcrypt: Bcrypt, salt: Salt)
    returns (outcome: Registration)
    modifies store
    ensures (outcome, store.Snapshot()) == RegisterStep(old(store.Snapshot()), name, email, password, bcrypt, salt)
    ensures old(store.Valid()) ==> store.Valid()
  {
    if store.Valid() {
      RegisterKeepsWellFormed(store.Snapshot(), name, email, password, bcrypt, salt);
    }
    if Storage.UserByEmail(store.users, email).Some? {
      return EmailTaken;
    }
    var hashed := HashPassword(bcrypt, password, salt);
    if hashed.Rejected? {
      return Invalid(hashed.message);
    }
    var user := User(|store.users| + 1, name, email, hashed.digest, DEFAULT_ROLE);
    store.users := store.users + [user];
    outcome := Registered(user);
  }

  /** A taken email gives `EmailTaken` and no change, even when the password is invalid. */
  lemma RegisterTakenEmail(db: Storage.Db, name: string, password: string, bcrypt: Bcrypt, salt: Salt, u: User)
    requires u in db.users
    ensures RegisterStep(db, name, u.email, password, bcrypt, salt) == (EmailTaken, db)
  {
    assert Storage.UserByEmail(db.users, u.email).Some?;
  }

  /** A new email with an acceptable password adds exactly one user, holding the digest of the
    * password; an unacceptable one changes nothing and reports the password rule. */
  lemma RegisterNewEmail(db: Storage.Db, name: string, email: string, password: string, bcrypt: Bcrypt, salt: Salt)
    requires forall u :: u in db.users ==> u.email != email
    ensures var (outcome, db') := RegisterStep(db, name, email, password, bcrypt, salt);
      match HashPassword(bcrypt, password, salt)
      case Rejected(message) => outcome == Invalid(message) && db' == db
      case Hashed(digest) =>
        && outcome == Registered(User(|db.users| + 1, name, email, bcrypt.hash(Text.Utf8Encode(password), salt), DEFAULT_ROLE))
        && db' == db.(users := db.users + [outcome.user])
  {
    assert Storage.UserByEmail(db.users, email).None?;
  }

  /** Registration keeps every invariant of the database, in particular unique emails and ids. */
  lemma RegisterKeepsWellFormed(db: Storage.Db, name: string, email: string, password: string, bcrypt: Bcrypt, salt: Salt)
    requires Storage.WellFormed(db)
    ensures Storage.WellFormed(RegisterStep(db, name, email, password, bcrypt, salt).1)
  {
    var (outcome, db') := RegisterStep(db, name, email, password, bcrypt, salt);
    if outcome.Registered? {
      assert Storage.UserByEmail(db.users, email).None?;
      assert db'.users == db.users + [outcome.user];
      forall i, j | 0 <= i < j < |db'.users| ensures db'.users[i].email != db'.users[j].email {
        if j == |db.users| {
          assert db.users[i] in db.users;
        }
      }
    }
  }

  /** `authenticate_user`: the user with the email if the password verifies against its digest. */
  function AuthenticateUser(users: seq<User>, email: string, password: string, bcrypt: Bcrypt): (r: Option<User>)
    ensures r.Some? ==> r.value in users && r.value.email == email && VerifyPassword(bcrypt, password, r.value.password)
    ensures r.None? <==> Storage.UserByEmail(users, email).None?
                         || !VerifyPassword(bcrypt, password, Storage.UserByEmail(users, email).value.password)
  {
    match Storage.UserByEmail(users, email)
    case None => None
    case Some(user) => if VerifyPassword(bcrypt, password, user.password) then Some(user) else None
  }

  /** With unique emails: the owner of the email is returned exactly when the password verifies;
    * an unknown email gives `None`. */
  lemma AuthenticateExactly(users: seq<User>, email: string, password: string, bcrypt: Bcrypt)
    requires Storage.UniqueEmails(users)
    ensures (forall u :: u in users ==> u.email != email) ==> AuthenticateUser(users, email, password, bcrypt) == None
    ensures forall u :: u in users && u.email == email ==>
      AuthenticateUser(users, email, password, bcrypt) == if VerifyPassword(bcrypt, password, u.password) then Some(u) else None
  {
    forall u | u in users && u.email == email
      ensures AuthenticateUser(users, email, password, bcrypt) == if VerifyPassword(bcrypt, password, u.password) then Some(u) else None
    {
      Storage.UserByEmailFinds(users, u);
    }
  }

  /** A user registered with a password logs in with it. */
  lemma RegisterThenAuthenticate(db: Storage.Db, name: string, email: string, password: string, bcrypt: Bcrypt, salt: Salt)
    requires Storage.WellFormed(db) && Sound(bcrypt)
    requires RegisterStep(db, name, email, password, bcrypt, salt).0.Registered?
    ensures var (outcome, db') := RegisterStep(db, name, email, password, bcrypt, salt);
      AuthenticateUser(db'.users, email, password, bcrypt) == Some(outcome.user)
  {
    var (outcome, db') := RegisterStep(db, name, email, password, bcrypt, salt);
    RegisterKeepsWellFormed(db, name, email, password, bcrypt, salt);
    HashThenVerify(bcrypt, password, salt);
    assert outcome.user in db'.users;
    Storage.UserByEmailFinds(db'.users, outcome.user);
  }
}
