/**
 * Accounts: registration with an email or a phone number and a one-time
 * password sent to it, verification of that password, and login.
 *
 * What the model takes from outside: the password encoder (`encode`,
 * `matches`), the token generator, the configured OTP lifetime and length
 * and the token lifetime are parameters; the random digits of an OTP are
 * an arbitrary choice; the outcome of the authentication manager is a
 * parameter of `Login`, and `Authenticate` is the standard one built on
 * the user lookup.
 */
module AuthService {
  import opened Domain
  import opened OtpVerificationRepository
  import opened UserDetailsService
  import opened FlashSaleStore

  /** The starting balance of a new account, 100,000,000 in cents. */
  const StartingBalance: int := 10000000000

  datatype AuthError =
    | ContactRequired
    | EmailAlreadyExists
    | PhoneAlreadyExists
    | InvalidOrExpiredOtp
    | NonUniqueOtp
    | UserNotFound
    | BadCredentials

  /** The acknowledgement a successful registration or verification returns. */
  datatype ApiResponse = ApiResponse(success: bool, message: string, data: Option<string>)

  /** The contact a request names: its email when given, else its phone. */
  function ContactOf(email: Option<string>, phone: Option<string>): (c: Option<string>)
    ensures c.Some? <==> email.Some? || phone.Some?
    ensures email.Some? ==> c == email
    ensures email.None? ==> c == phone
  {
    if email.Some? then email else phone
  }

  /** The channel name as the registration message spells it. */
  function ChannelName(t: VerificationType): (s: string)
    ensures s == "email" <==> t == Email
    ensures s == "phone" <==> t == Phone
  {
    match t
    case Email => "email"
    case Phone => "phone"
  }

  /** A freshly registered account: the starting balance and nothing verified. */
  function NewUser(id: nat, email: Option<string>, phone: Option<string>, passwordHash: string): (u: User)
    ensures u.id == id && u.email == email && u.phone == phone && u.passwordHash == passwordHash
    ensures u.balance == StartingBalance && u.balance > 0
    ensures !u.emailVerified && !u.phoneVerified
  {
    User(id, email, phone, passwordHash, StartingBalance, false, false)
  }

  // ---------------------------------------------------------------------
  // One-time passwords

  /** `otpLength` decimal digits, each chosen freely (none for a length below one). */
  method GenerateOtp(otpLength: int) returns (otp: string)
    ensures |otp| == if otpLength > 0 then otpLength else 0
    ensures forall i :: 0 <= i < |otp| ==> '0' <= otp[i] <= '9'
  {
    otp := "";
    var i := 0;
    while i < otpLength
      invariant |otp| == i
      invariant i <= if otpLength > 0 then otpLength else 0
      invariant forall j :: 0 <= j < |otp| ==> '0' <= otp[j] <= '9'
      decreases otpLength - i
    {
      var digit :| 0 <= digit < 10;
      otp := otp + [DigitChar(digit)];
      i := i + 1;
    }
  }

  /** The user with the given flag set for the channel an OTP was sent to. */
  function MarkVerified(u: User, t: VerificationType): (v: User)
    ensures v.id == u.id && v.email == u.email && v.phone == u.phone && v.balance == u.balance
    ensures v.passwordHash == u.passwordHash
    ensures v.emailVerified == (u.emailVerified || t == Email)
    ensures v.phoneVerified == (u.phoneVerified || t == Phone)
  {
    match t
    case Email => u.(emailVerified := true)
    case Phone => u.(phoneVerified := true)
  }

  // ---------------------------------------------------------------------
  // Registration

  /**
   * Registers an account. Refused, and nothing is stored, when neither
   * contact is given, or when the email and then the phone is taken.
   * Otherwise stores the account and one unused OTP for it, sent to the
   * email when one is given and to the phone otherwise.
   */
  method Register(store: Store, email: Option<string>, phone: Option<string>, password: string,
                  encode: string -> string, now: int, otpExpirationMinutes: int, otpLength: int)
    returns (r: Result<ApiResponse, AuthError>)
    requires store.Valid()
    modifies store`users, store`otps
    ensures store.Valid()
    ensures old(store.OtpsValid()) ==> store.OtpsValid()
    ensures r == Failure(ContactRequired) <==> email.None? && phone.None?
    ensures r == Failure(EmailAlreadyExists) <==> email.Some? && ExistsByEmail(old(store.users), email.value)
    ensures r == Failure(PhoneAlreadyExists) <==>
      phone.Some? && ExistsByPhone(old(store.users), phone.value) && !(email.Some? && ExistsByEmail(old(store.users), email.value))
    ensures r.Failure? ==> r.error in {ContactRequired, EmailAlreadyExists, PhoneAlreadyExists} && unchanged(store)
    ensures r.Success? ==>
      var id := |old(store.users)| + 1;
      var channel := if email.Some? then Email else Phone;
      var contact := ContactOf(email, phone).value;
      && store.users == old(store.users) + [NewUser(id, email, phone, encode(password))]
      && |store.otps| == |old(store.otps)| + 1
      && store.otps[..|old(store.otps)|] == old(store.otps)
      && var otp := store.otps[|old(store.otps)|];
      && otp.userId == id && otp.verificationType == channel && otp.contactInfo == contact
      && otp.expiresAt == now + 60 * otpExpirationMinutes && !otp.isUsed
      && |otp.otpCode| == (if otpLength > 0 then otpLength else 0)
      && (forall i :: 0 <= i < |otp.otpCode| ==> '0' <= otp.otpCode[i] <= '9')
      && r.value == ApiResponse(true, "Registration successful. Please verify your " + ChannelName(channel) + " with OTP.",
                                Some("OTP sent to " + contact))
  {
    if email.None? && phone.None? {
      return Failure(ContactRequired);
    }
    if email.Some? && ExistsByEmail(store.users, email.value) {
      return Failure(EmailAlreadyExists);
    }
    if phone.Some? && ExistsByPhone(store.users, phone.value) {
      return Failure(PhoneAlreadyExists);
    }

    var user := NewUser(|store.users| + 1, email, phone, encode(password));
    SaveNewUser(store, user);

    var code := GenerateOtp(otpLength);
    var contact := if email.Some? then email.value else phone.value;
    var channel := if email.Some? then Email else Phone;
    store.otps := store.otps + [OtpVerification(user.id, code, channel, contact, now + 60 * otpExpirationMinutes, false)];

    r := Success(ApiResponse(true, "Registration successful. Please verify your " + ChannelName(channel) + " with OTP.",
                             Some("OTP sent to " + contact)));
  }

  /** Saves a user under the next id whose contacts nobody else has. */
  method SaveNewUser(store: Store, user: User)
    requires store.Valid()
    requires user.id == |store.users| + 1 && user.balance >= 0
    requires user.email.Some? ==> !ExistsByEmail(store.users, user.email.value)
    requires user.phone.Some? ==> !ExistsByPhone(store.users, user.phone.value)
    modifies store`users
    ensures store.Valid()
    ensures store.users == old(store.users) + [user]
  {
    assert store.UsersValid();
    AppendUserKeepsUsersValid(store.users, user);
    store.users := store.users + [user];
  }

  // ---------------------------------------------------------------------
  // Verification

  /**
   * Verifies an OTP for the request's contact: the one unused, unexpired
   * record with that contact and code is marked used and its user gets
   * the flag of the record's channel. Refused, and nothing changes, when
   * no record or more than one answers, or when the record's user is
   * missing (which cannot happen while every record belongs to a user).
   */
  method VerifyOtp(store: Store, email: Option<string>, phone: Option<string>, otpCode: string, now: int)
    returns (r: Result<ApiResponse, AuthError>)
    requires store.Valid()
    modifies store`users, store`otps
    ensures store.Valid()
    ensures old(store.OtpsValid()) ==> store.OtpsValid()
    ensures var found := FindByContactInfoAndOtpCodeAndIsUsedFalseAndExpiresAtAfter(old(store.otps), ContactOf(email, phone), otpCode, now);
      && (r == Failure(InvalidOrExpiredOtp) <==> found.NoRow?)
      && (r == Failure(NonUniqueOtp) <==> found.ManyRows?)
      && (r == Failure(UserNotFound) ==> found.OneRow? && FindById(old(store.users), old(store.otps)[found.row].userId).None?)
      && (r.Failure? ==> r.error in {InvalidOrExpiredOtp, NonUniqueOtp, UserNotFound} && unchanged(store))
      && (old(store.OtpsValid()) && found.OneRow? ==> r.Success?)
    ensures r.Success? ==>
      var found := FindByContactInfoAndOtpCodeAndIsUsedFalseAndExpiresAtAfter(old(store.otps), ContactOf(email, phone), otpCode, now);
      && found.OneRow?
      && var record := old(store.otps)[found.row];
         var k := FindById(old(store.users), record.userId);
         && k.Some?
         && store.otps == old(store.otps)[found.row := record.(isUsed := true)]
         && store.users == old(store.users)[k.value := MarkVerified(old(store.users)[k.value], record.verificationType)]
         && r.value == ApiResponse(true, "Verification successful", None)
  {
    var found := FindByContactInfoAndOtpCodeAndIsUsedFalseAndExpiresAtAfter(store.otps, ContactOf(email, phone), otpCode, now);
    if found.NoRow? {
      return Failure(InvalidOrExpiredOtp);
    }
    if found.ManyRows? {
      return Failure(NonUniqueOtp);
    }
    var record := store.otps[found.row];
    var k := FindById(store.users, record.userId);
    assert store.UsersValid();
    GeneratedUserIdsAreFound(store.users);
    if k.None? {
      return Failure(UserNotFound);
    }

    store.otps := store.otps[found.row := record.(isUsed := true)];
    var user := store.users[k.value];
    assert store.UsersValid();
    UserUpdateKeepsUsersValid(store.users, k.value, MarkVerified(user, record.verificationType));
    store.users := store.users[k.value := MarkVerified(user, record.verificationType)];
    r := Success(ApiResponse(true, "Verification successful", None));
  }

  /** Under generated ids every id from 1 to the table size finds the user at position id - 1. */
  lemma {:induction false} GeneratedUserIdsAreFound(users: seq<User>)
    requires ValidUsers(users)
    ensures forall id :: 1 <= id <= |users| ==> FindById(users, id) == Some(id - 1)
  {
    forall id | 1 <= id <= |users| ensures FindById(users, id) == Some(id - 1) {
      assert users[id - 1].id == id;
      var r := FindById(users, id);
      assert users[r.value].id == r.value + 1;
    }
  }

  /**
   * An OTP is single-use: after a successful verification, the same code
   * for the same contact at the same or a later instant is refused.
   */
  method VerifyOtpTwice(store: Store, email: Option<string>, phone: Option<string>, otpCode: string, now: int, later: int)
    returns (first: Result<ApiResponse, AuthError>, second: Result<ApiResponse, AuthError>)
    requires store.Valid() && now <= later
    modifies store`users, store`otps
    ensures store.Valid()
    ensures first.Success? ==> second == Failure(InvalidOrExpiredOtp)
  {
    ghost var otps0 := store.otps;
    first := VerifyOtp(store, email, phone, otpCode, now);
    if first.Success? {
      UsedOtpIsNotFoundAgain(otps0, ContactOf(email, phone), otpCode, now, later);
    }
    second := VerifyOtp(store, email, phone, otpCode, later);
  }

  // ---------------------------------------------------------------------
  // Login

  datatype UserInfo = UserInfo(id: nat, email: Option<string>, phone: Option<string>, emailVerified: bool, phoneVerified: bool)

  datatype AuthResponse = AuthResponse(accessToken: string, tokenType: string, expiresIn: int, userInfo: UserInfo)

  /** Milliseconds to whole seconds, truncating toward zero as integer division on a `long` does. */
  function MillisToSeconds(ms: int): (s: int)
    ensures ms >= 0 ==> 0 <= s && 1000 * s <= ms < 1000 * s + 1000
    ensures ms < 0 ==> s <= 0 && 1000 * s - 1000 < ms <= 1000 * s
  {
    if ms >= 0 then ms / 1000 else -((-ms) / 1000)
  }

  /** A token lifetime of 3,600,000 ms is reported as 3,600 s. */
  lemma MillisToSecondsExample()
    ensures MillisToSeconds(3600000) == 3600
  {
  }

  /**
   * The standard authentication of a username and password: the user
   * lookup finds an account and the password matches its stored hash.
   */
  predicate Authenticate(users: seq<User>, username: string, password: string, matches: (string, string) -> bool)
  {
    LoadUserByUsername(users, username).Success? && matches(password, LoadUserByUsername(users, username).value.password)
  }

  /**
   * Logs in with the request's contact as username. Refused when neither
   * contact is given, then when authentication fails, then when no
   * account has the username as email or phone. Otherwise returns a
   * bearer token for the username, its lifetime in seconds and the
   * account's public details.
   */
  function Login(users: seq<User>, email: Option<string>, phone: Option<string>, authenticated: bool,
                 generateToken: string -> string, expirationMillis: int): (r: Result<AuthResponse, AuthError>)
    ensures r == Failure(ContactRequired) <==> email.None? && phone.None?
    ensures r.Failure? ==> r.error in {ContactRequired, BadCredentials, UserNotFound}
    ensures ContactOf(email, phone).Some? ==> (r == Failure(BadCredentials) <==> !authenticated)
    ensures ContactOf(email, phone).Some? && authenticated ==>
      (r == Failure(UserNotFound) <==> GetUserByUsername(users, ContactOf(email, phone).value).Failure?)
    ensures r.Success? ==>
      var username := ContactOf(email, phone).value;
      var u := GetUserByUsername(users, username).value;
      && authenticated
      && u in users && (u.email == Some(username) || u.phone == Some(username))
      && r.value.accessToken == generateToken(username)
      && r.value.tokenType == "Bearer"
      && r.value.expiresIn == MillisToSeconds(expirationMillis)
      && r.value.userInfo == UserInfo(u.id, u.email, u.phone, u.emailVerified, u.phoneVerified)
  {
    match ContactOf(email, phone)
    case None => Failure(ContactRequired)
    case Some(username) =>
      if !authenticated then Failure(BadCredentials)
      else
        match ResolveUsername(users, username)
        case None => Failure(UserNotFound)
        case Some(k) =>
          var user := users[k];
          Success(AuthResponse(generateToken(username), "Bearer", MillisToSeconds(expirationMillis),
                               UserInfo(user.id, user.email, user.phone, user.emailVerified, user.phoneVerified)))
  }

  /**
   * With the standard authentication, login succeeds exactly when a
   * contact is given and authentication accepts it, and the user-missing
   * refusal never happens: authentication already found the account.
   */
  lemma {:induction false} LoginWithStandardAuthentication(users: seq<User>, email: Option<string>, phone: Option<string>,
                                                            password: string, matches: (string, string) -> bool,
                                                            generateToken: string -> string, expirationMillis: int)
    requires ContactOf(email, phone).Some?
    ensures var username := ContactOf(email, phone).value;
            var r := Login(users, email, phone, Authenticate(users, username, password, matches), generateToken, expirationMillis);
            && r != Failure(UserNotFound)
            && (r.Success? <==> Authenticate(users, username, password, matches))
  {
    var username := ContactOf(email, phone).value;
    if Authenticate(users, username, password, matches) {
      assert LoadUserByUsername(users, username).Success?;
      assert GetUserByUsername(users, username).Success?;
    }
  }

  /**
   * A new account can log in at once with the contact it registered and
   * its password, whether or not it has verified anything, when the
   * encoder accepts a password against its own encoding. When only a
   * phone is registered, no account may have that text as its email,
   * because the email lookup comes first.
   */
  lemma {:induction false} RegisteredUserCanLogIn(users: seq<User>, email: Option<string>, phone: Option<string>,
                                                  password: string, encode: string -> string,
                                                  matches: (string, string) -> bool,
                                                  generateToken: string -> string, expirationMillis: int)
    requires email.Some? || phone.Some?
    requires email.Some? ==> !ExistsByEmail(users, email.value)
    requires phone.Some? ==> !ExistsByPhone(users, phone.value)
    requires email.None? ==> !ExistsByEmail(users, phone.value)
    requires matches(password, encode(password))
    ensures var users' := users + [NewUser(|users| + 1, email, phone, encode(password))];
            var username := ContactOf(email, phone).value;
            var r := Login(users', email, phone, Authenticate(users', username, password, matches), generateToken, expirationMillis);
            && r.Success?
            && r.value.userInfo == UserInfo(|users| + 1, email, phone, false, false)
  {
    var u := NewUser(|users| + 1, email, phone, encode(password));
    var users' := users + [u];
    var username := ContactOf(email, phone).value;
    assert users'[|users|] == u;
    assert forall k :: 0 <= k < |users| ==> users'[k] == users[k];
    if email.Some? {
      var f := FindByEmail(users', username);
      assert f.Some? && f.value == |users|;
    } else {
      assert FindByEmail(users', username).None?;
      var f := FindByPhone(users', username);
      assert f.Some? && f.value == |users|;
    }
    assert ResolveUsername(users', username) == Some(|users|);
    assert GetUserByUsername(users', username) == Success(u);
  }
}
