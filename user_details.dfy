/**
 * Resolving a username to a user: the username is tried as an email
 * first and, failing that, as a phone number. The user table's
 * `findByEmail`, `findByPhone`, `existsByEmail` and `existsByPhone`
 * queries are written out here as the searches they stand for.
 */
module UserDetailsService {
  import opened Domain

  datatype ContactField = EmailField | PhoneField

  function Contact(u: User, field: ContactField): Option<string>
  {
    match field
    case EmailField => u.email
    case PhoneField => u.phone
  }

  /** The first position at or after `from` whose contact field equals `value`. */
  function FirstWithContact(users: seq<User>, field: ContactField, value: string, from: nat): (r: Option<nat>)
    requires from <= |users|
    ensures r.Some? ==> from <= r.value < |users| && Contact(users[r.value], field) == Some(value)
    ensures r.Some? ==> forall k :: from <= k < r.value ==> Contact(users[k], field) != Some(value)
    ensures r.None? <==> forall k :: from <= k < |users| ==> Contact(users[k], field) != Some(value)
    decreases |users| - from
  {
    if from == |users| then None
    else if Contact(users[from], field) == Some(value) then Some(from)
    else FirstWithContact(users, field, value, from + 1)
  }

  /** Position of the user with this email, if any. */
  function FindByEmail(users: seq<User>, email: string): (r: Option<nat>)
    ensures r.Some? ==> r.value < |users| && users[r.value].email == Some(email)
    ensures r.None? <==> forall k :: 0 <= k < |users| ==> users[k].email != Some(email)
  {
    FirstWithContact(users, EmailField, email, 0)
  }

  /** Position of the user with this phone number, if any. */
  function FindByPhone(users: seq<User>, phone: string): (r: Option<nat>)
    ensures r.Some? ==> r.value < |users| && users[r.value].phone == Some(phone)
    ensures r.None? <==> forall k :: 0 <= k < |users| ==> users[k].phone != Some(phone)
  {
    FirstWithContact(users, PhoneField, phone, 0)
  }

  predicate ExistsByEmail(users: seq<User>, email: string): (b: bool)
    ensures b <==> exists k :: 0 <= k < |users| && users[k].email == Some(email)
  {
    FindByEmail(users, email).Some?
  }

  predicate ExistsByPhone(users: seq<User>, phone: string): (b: bool)
    ensures b <==> exists k :: 0 <= k < |users| && users[k].phone == Some(phone)
  {
    FindByPhone(users, phone).Some?
  }

  /** Position of the user with the given id, if any. */
  function FindById(users: seq<User>, id: nat): (r: Option<nat>)
    ensures r.Some? ==> r.value < |users| && users[r.value].id == id
    ensures r.None? <==> forall k :: 0 <= k < |users| ==> users[k].id != id
  {
    FindIdFrom(users, id, 0)
  }

  function FindIdFrom(users: seq<User>, id: nat, from: nat): (r: Option<nat>)
    requires from <= |users|
    ensures r.Some? ==> from <= r.value < |users| && users[r.value].id == id
    ensures r.None? <==> forall k :: from <= k < |users| ==> users[k].id != id
    decreases |users| - from
  {
    if from == |users| then None
    else if users[from].id == id then Some(from)
    else FindIdFrom(users, id, from + 1)
  }

  /** The email-then-phone resolution, as a position in the table. */
  function ResolveUsername(users: seq<User>, username: string): (r: Option<nat>)
    ensures r.Some? ==> r.value < |users|
  {
    match FindByEmail(users, username)
    case Some(k) => Some(k)
    case None => FindByPhone(users, username)
  }

  datatype UserError = UsernameNotFound(username: string)

  /** The user a username names: by email when some user has that email, else by phone. */
  function GetUserByUsername(users: seq<User>, username: string): (r: Result<User, UserError>)
    ensures r.Success? ==> r.value in users
    ensures (exists k :: 0 <= k < |users| && users[k].email == Some(username)) ==>
              r.Success? && r.value.email == Some(username)
    ensures (forall k :: 0 <= k < |users| ==> users[k].email != Some(username)) ==>
              (r.Success? <==> exists k :: 0 <= k < |users| && users[k].phone == Some(username))
    ensures r.Success? ==> r.value.email == Some(username) || r.value.phone == Some(username)
    ensures r.Failure? ==> r.error == UsernameNotFound(username)
  {
    match ResolveUsername(users, username)
    case Some(k) => Success(users[k])
    case None => Failure(UsernameNotFound(username))
  }

  /** What the authentication layer is given for a user. */
  datatype UserDetails = UserDetails(username: string, password: string, authorities: seq<string>)

  /**
   * Resolves the same user as `GetUserByUsername` and reports the given
   * username, that user's password hash and no authorities.
   */
  function LoadUserByUsername(users: seq<User>, username: string): (r: Result<UserDetails, UserError>)
    ensures r.Success? <==> GetUserByUsername(users, username).Success?
    ensures r.Success? ==>
      r.value == UserDetails(username, GetUserByUsername(users, username).value.passwordHash, [])
    ensures r.Failure? ==> r.error == UsernameNotFound(username)
  {
    match ResolveUsername(users, username)
    case Some(k) => Success(UserDetails(username, users[k].passwordHash, []))
    case None => Failure(UsernameNotFound(username))
  }

  /** Changing anything but the contacts of the users leaves every resolution as it was. */
  lemma {:induction false} ResolveUsernameKeepsContacts(users: seq<User>, users': seq<User>, username: string)
    requires |users'| == |users|
    requires forall k :: 0 <= k < |users| ==> users'[k].email == users[k].email && users'[k].phone == users[k].phone
    ensures ResolveUsername(users', username) == ResolveUsername(users, username)
  {
    FirstWithContactKeepsContacts(users, users', EmailField, username, 0);
    FirstWithContactKeepsContacts(users, users', PhoneField, username, 0);
  }

  lemma {:induction false} FirstWithContactKeepsContacts(
    users: seq<User>, users': seq<User>, field: ContactField, value: string, from: nat)
    requires from <= |users| == |users'|
    requires forall k :: 0 <= k < |users| ==> users'[k].email == users[k].email && users'[k].phone == users[k].phone
    ensures FirstWithContact(users', field, value, from) == FirstWithContact(users, field, value, from)
    decreases |users| - from
  {
    if from < |users| {
      FirstWithContactKeepsContacts(users, users', field, value, from + 1);
    }
  }
}
