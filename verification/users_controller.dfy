/**
 * UsersController: user creation with its generated employee number, the
 * listing and lookup that hide archived users, update with the rule that
 * an empty password keeps the stored one, and the one-way archive flag.
 * Password hashing is a parameter (`hash`).
 */
module UsersController {
  import opened Common
  import opened Records
  import opened Database
  import opened Text

  /** 'EMP' followed by the number's decimal form zero-padded to at least four characters. */
  function EmployeeNumber(n: int): string {
    "EMP" + PadLeft(IntToString(n), 4, '0')
  }

  /** The number read back from an employee number: intval of everything after its first three characters. */
  function ParseEmployeeNumber(s: string): int {
    IntVal(SubstrFrom(s, 3))
  }

  /** The number after the last user's: one past the last user's parsed number, or 1 when there are no users. */
  function NextEmployeeNumber(last: Option<User>): string {
    EmployeeNumber((if last.Some? then ParseEmployeeNumber(last.value.employeeNumber) else 0) + 1)
  }

  /** Parsing a generated employee number gives the number back. */
  lemma EmployeeNumberRoundTrip(n: nat)
    ensures ParseEmployeeNumber(EmployeeNumber(n)) == n
  {
    var p := PadLeft(Digits(n), 4, '0');
    assert EmployeeNumber(n)[3..] == p;
    IntValOfPadded(n, 4);
  }

  /**
   * Numbers are consecutive: after a user whose number was generated from
   * n, the next user gets the number generated from n + 1; the first user
   * gets EMP0001.
   */
  lemma EmployeeNumbersConsecutive(last: User, n: nat)
    requires last.employeeNumber == EmployeeNumber(n)
    ensures NextEmployeeNumber(Some(last)) == EmployeeNumber(n + 1)
    ensures NextEmployeeNumber(None) == "EMP0001"
  {
    EmployeeNumberRoundTrip(n);
    FirstEmployeeNumber();
  }

  lemma FirstEmployeeNumber()
    ensures EmployeeNumber(1) == "EMP0001"
  {
    assert IntToString(1) == "1";
    assert seq(3, _ => '0') == "000";
    assert PadLeft("1", 4, '0') == "0001";
  }

  /** Different non-negative numbers give different employee numbers. */
  lemma EmployeeNumberInjective(a: nat, b: nat)
    ensures EmployeeNumber(a) == EmployeeNumber(b) <==> a == b
  {
    if EmployeeNumber(a) == EmployeeNumber(b) {
      EmployeeNumberRoundTrip(a);
      EmployeeNumberRoundTrip(b);
    }
  }

  /** The row `orderBy('id', 'desc')->first()` returns: the user with the highest id, archived or not. */
  function LastUser(users: map<nat, User>, bound: nat): (u: Option<User>)
    requires Below(users.Keys, bound)
    ensures u.None? <==> users == map[]
    ensures u.Some? ==> exists k :: k in users && users[k] == u.value && forall j :: j in users ==> j <= k
  {
    match LastId(users.Keys, bound)
    case None => None
    case Some(k) => Some(users[k])
  }

  /** createUser's validated request (before hashing); the optional contact fields are a field map. */
  datatype NewUser = NewUser(
    firstName: string,
    lastName: string,
    email: string,
    username: string,
    roleId: nat,
    password: string,
    details: map<string, string>)

  /** No other stored user has this email or this username (the unique rules). */
  predicate Unclaimed(users: map<nat, User>, email: Option<string>, username: Option<string>, except: Option<nat>) {
    forall k :: k in users && Some(k) != except ==>
      (email.Some? ==> users[k].email != email.value) && (username.Some? ==> users[k].username != username.value)
  }

  /**
   * createUser: a password shorter than six characters is rejected and
   * nothing changes; otherwise the user is stored under the next id with
   * the hashed password, not archived, and the next employee number.
   */
  method CreateUser(db: Store, u: NewUser, hash: string -> string) returns (r: Result<nat>)
    requires db.Valid()
    requires Unclaimed(db.users, Some(u.email), Some(u.username), None)
    modifies db`users, db`nextUserId
    ensures db.Valid()
    ensures r.Failure? ==> r == Failure(Invalid) && unchanged(db)
    ensures r.Success? <==> |u.password| >= 6
    ensures r.Success? ==>
      && r.value == old(db.nextUserId) && r.value !in old(db.users)
      && db.users == old(db.users)[r.value := User(u.firstName, u.lastName, u.email, u.username, u.roleId,
                                                   hash(u.password), NextEmployeeNumber(LastUser(old(db.users), r.value)),
                                                   u.details, false)]
      && db.nextUserId == r.value + 1
  {
    if |u.password| < 6 {
      return Failure(Invalid);
    }
    var id := db.nextUserId;
    var number := NextEmployeeNumber(LastUser(db.users, id));
    db.users := db.users[id := User(u.firstName, u.lastName, u.email, u.username, u.roleId, hash(u.password), number,
                                    u.details, false)];
    db.nextUserId := id + 1;
    return Success(id);
  }

  /** getAllUsers: the users not archived; none at all is reported as not found. */
  function ListUsers(users: map<nat, User>): (r: Result<map<nat, User>>)
    ensures r.Failure? <==> forall k :: k in users ==> users[k].isArchived
    ensures r.Failure? ==> r.error == NotFound
    ensures r.Success? ==> forall k :: k in r.value <==> k in users && !users[k].isArchived
    ensures r.Success? ==> forall k :: k in r.value ==> r.value[k] == users[k]
  {
    if exists k :: k in users && !users[k].isArchived then
      Success(map k | k in users && !users[k].isArchived :: users[k])
    else
      Failure(NotFound)
  }

  /** getUserById: an archived user is not found, like a missing one. */
  function GetUserById(users: map<nat, User>, id: nat): (r: Result<User>)
    ensures r.Success? <==> id in users && !users[id].isArchived
    ensures r.Failure? ==> r.error == NotFound
    ensures r.Success? ==> r.value == users[id] && ListUsers(users).Success? && id in ListUsers(users).value
  {
    if id in users && !users[id].isArchived then Success(users[id]) else Failure(NotFound)
  }

  /** updateUser's validated request: None is a field left out. */
  datatype UserChanges = UserChanges(
    firstName: Option<string>,
    lastName: Option<string>,
    email: Option<string>,
    username: Option<string>,
    roleId: Option<nat>,
    password: Option<string>,
    details: map<string, string>)

  /** An absent or empty password leaves the stored hash as it is. */
  predicate KeepsPassword(c: UserChanges) {
    c.password.None? || c.password.value == ""
  }

  /** The nullable min:6 rule: a given non-empty password has at least six characters. */
  predicate ValidChanges(c: UserChanges) {
    KeepsPassword(c) || |c.password.value| >= 6
  }

  function Apply(u: User, c: UserChanges, hash: string -> string): User {
    u.(firstName := c.firstName.GetOr(u.firstName), lastName := c.lastName.GetOr(u.lastName),
       email := c.email.GetOr(u.email), username := c.username.GetOr(u.username), roleId := c.roleId.GetOr(u.roleId),
       password := if KeepsPassword(c) then u.password else hash(c.password.value),
       details := u.details + c.details)
  }

  /**
   * The password rule: the stored hash is kept exactly when the request
   * gives no password or an empty one; otherwise it becomes the hash of
   * the new one. The employee number and the archive flag never change.
   */
  lemma PasswordKeptUnlessGiven(u: User, c: UserChanges, hash: string -> string)
    requires ValidChanges(c)
    ensures KeepsPassword(c) ==> Apply(u, c, hash).password == u.password
    ensures !KeepsPassword(c) ==> |c.password.value| >= 6 && Apply(u, c, hash).password == hash(c.password.value)
    ensures Apply(u, c, hash).employeeNumber == u.employeeNumber && Apply(u, c, hash).isArchived == u.isArchived
  {
  }

  /**
   * updateUser: a missing or archived user is not found and a password
   * under six characters is rejected, both changing nothing; otherwise
   * only that user changes, as Apply says.
   */
  method UpdateUser(db: Store, id: nat, c: UserChanges, hash: string -> string) returns (r: Result<()>)
    requires db.Valid()
    requires Unclaimed(db.users, c.email, c.username, Some(id))
    modifies db`users
    ensures db.Valid()
    ensures r.Failure? ==> unchanged(db)
    ensures GetUserById(old(db.users), id).Failure? ==> r == Failure(NotFound)
    ensures GetUserById(old(db.users), id).Success? && !ValidChanges(c) ==> r == Failure(Invalid)
    ensures r.Success? <==> GetUserById(old(db.users), id).Success? && ValidChanges(c)
    ensures r.Success? ==> db.users == old(db.users)[id := Apply(old(db.users)[id], c, hash)]
  {
    if id !in db.users || db.users[id].isArchived {
      return Failure(NotFound);
    }
    if !ValidChanges(c) {
      return Failure(Invalid);
    }
    db.users := db.users[id := Apply(db.users[id], c, hash)];
    return Success(());
  }

  /**
   * archiveUser: a missing or already archived user is not found and
   * nothing changes; otherwise only its archive flag is set, after which
   * lookups and updates treat it as not found.
   */
  method ArchiveUser(db: Store, id: nat) returns (r: Result<()>)
    requires db.Valid()
    modifies db`users
    ensures db.Valid()
    ensures r.Failure? ==> r == Failure(NotFound) && unchanged(db)
    ensures r.Success? <==> id in old(db.users) && !old(db.users)[id].isArchived
    ensures r.Success? ==>
      && db.users == old(db.users)[id := old(db.users)[id].(isArchived := true)]
      && GetUserById(db.users, id) == Failure(NotFound)
  {
    if id !in db.users || db.users[id].isArchived {
      return Failure(NotFound);
    }
    db.users := db.users[id := db.users[id].(isArchived := true)];
    return Success(());
  }
}
