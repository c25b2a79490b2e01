/** The account flows of the accounts app: sign-up validation and creation,
    the full-address field, email verification and its resend, the
    forgotten-password token, password reset and change, and the email,
    name and deletion updates. Each flow runs its field checks in field order
    and reports the first failing one; a rejected request changes nothing. */
module AccountSerializers {
  import opened Wrappers
  import opened UserUtils
  import opened UserModels
  import AppointmentModels

  datatype AccountError =
    | MissingField(name: string)   // a required field is absent
    | BlankField(name: string)     // "This field may not be blank."
    | InvalidChoice                // not one of the field's choices
    | InvalidEmail                 // `EmailField` rejects the value
    | EmailInUse                   // "User with this email address already exists."
    | PasswordRejected             // `validate_password` raised
    | PasswordsDiffer              // "Passwords do not match."
    | MissingConfirmation          // `data.pop("confirm_password")` raises KeyError
    | AccountNotFound              // no user has the email
    | AlreadyVerified              // the account's email is already verified
    | CodeOutOfRange               // outside `min_value=100000, max_value=999999`
    | InvalidCode                  // "Invalid verification code."
    | CodeExpired                  // `verify_account` returned false
    | TokenInvalid                 // "Token is expired or invalid."
    | AccountGone                  // the token's email no longer names a user
    | InvalidOldPassword           // `authenticate` found no user
    | Invalid                      // no username or no old password to authenticate with

  const ConfirmKey: string := "confirm_password"

  // ---------------------------------------------------------------------
  // Pure checks

  /** `validate` of the sign-up and change-password serializers: the
      password under `passwordKey` must equal the confirmation (an absent key
      reads as `None`); the confirmation is then dropped from the data. */
  function ConfirmPassword(data: map<string, string>, passwordKey: string): (r: Result<map<string, string>, AccountError>)
    requires passwordKey != ConfirmKey
    ensures r.Ok? <==> passwordKey in data && ConfirmKey in data && data[passwordKey] == data[ConfirmKey]
    ensures r.Err? && (passwordKey in data || ConfirmKey in data) ==> r.error == PasswordsDiffer
    ensures r.Err? && passwordKey !in data && ConfirmKey !in data ==> r.error == MissingConfirmation
    ensures r.Ok? ==> ConfirmKey !in r.value
                      && forall k :: k != ConfirmKey ==> (k in r.value <==> k in data) && (k in r.value ==> r.value[k] == data[k])
  {
    var password := if passwordKey in data then Some(data[passwordKey]) else None;
    var confirm := if ConfirmKey in data then Some(data[ConfirmKey]) else None;
    if password != confirm then Err(PasswordsDiffer)
    else if ConfirmKey !in data then Err(MissingConfirmation)
    else Ok(data - {ConfirmKey})
  }

  /** The number of times `c` occurs in `s`. */
  function CountChar(s: string, c: char): (n: nat)
    ensures n <= |s|
  {
    if |s| == 0 then 0 else (if s[0] == c then 1 else 0) + CountChar(s[1..], c)
  }

  lemma {:induction false} CountCharConcat(a: string, b: string, c: char)
    ensures CountChar(a + b, c) == CountChar(a, c) + CountChar(b, c)
  {
    if |a| > 0 {
      assert (a + b)[0] == a[0] && (a + b)[1..] == a[1..] + b;
      assert CountChar(a + b, c) == (if a[0] == c then 1 else 0) + CountChar(a[1..] + b, c);
      CountCharConcat(a[1..], b, c);
    } else {
      assert a + b == b;
    }
  }

  lemma {:induction false} CountCharAbsent(s: string, c: char)
    requires c !in s
    ensures CountChar(s, c) == 0
  {
    if |s| > 0 {
      assert s[0] != c;
      assert forall k :: 0 <= k < |s[1..]| ==> s[1..][k] == s[k + 1];
      CountCharAbsent(s[1..], c);
    }
  }

  /** `get_full_address`: the four address columns joined with ", ", a
      missing one as "". */
  function FullAddress(u: User): (r: string)
    ensures |r| == |u.address1.GetOr("")| + |u.address2.GetOr("")| + |u.state.GetOr("")| + |u.country.GetOr("")| + 6
    ensures var a1, a2, st := u.address1.GetOr(""), u.address2.GetOr(""), u.state.GetOr("");
      && r[..|a1|] == a1
      && r[|a1|..|a1| + 2] == ", "
      && r[|a1| + 2..|a1| + 2 + |a2|] == a2
      && r[|a1| + 2 + |a2|..|a1| + 4 + |a2|] == ", "
      && r[|a1| + 4 + |a2|..|a1| + 4 + |a2| + |st|] == st
      && r[|a1| + 4 + |a2| + |st|..|a1| + 6 + |a2| + |st|] == ", "
      && r[|a1| + 6 + |a2| + |st|..] == u.country.GetOr("")
  {
    u.address1.GetOr("") + ", " + u.address2.GetOr("") + ", " + u.state.GetOr("") + ", " + u.country.GetOr("")
  }

  /** When no part holds a comma, the full address holds exactly three:
      there are always four parts. */
  lemma FullAddressHasFourParts(u: User)
    requires ',' !in u.address1.GetOr("") && ',' !in u.address2.GetOr("")
    requires ',' !in u.state.GetOr("") && ',' !in u.country.GetOr("")
    ensures CountChar(FullAddress(u), ',') == 3
  {
    var a, b, s, c := u.address1.GetOr(""), u.address2.GetOr(""), u.state.GetOr(""), u.country.GetOr("");
    CountCharAbsent(a, ','); CountCharAbsent(b, ','); CountCharAbsent(s, ','); CountCharAbsent(c, ',');
    assert CountChar(", ", ',') == 1;
    CountCharConcat(a, ", ", ',');
    CountCharConcat(a + ", ", b, ',');
    CountCharConcat(a + ", " + b, ", ", ',');
    CountCharConcat(a + ", " + b + ", ", s, ',');
    CountCharConcat(a + ", " + b + ", " + s, ", ", ',');
    CountCharConcat(a + ", " + b + ", " + s + ", ", c, ',');
  }

  /** The error of the first of `keys`, in order, whose check fails: the
      serializers check their fields in declaration order. */
  function FirstError<E>(keys: seq<string>, check: string -> Option<E>): (r: Option<E>)
    ensures r.None? <==> forall k :: 0 <= k < |keys| ==> check(keys[k]).None?
    ensures r.Some? ==> exists k :: 0 <= k < |keys| && r == check(keys[k]) && forall j :: 0 <= j < k ==> check(keys[j]).None?
  {
    if |keys| == 0 then None
    else if check(keys[0]).Some? then check(keys[0])
    else
      var rest := FirstError(keys[1..], check);
      assert forall k :: 1 <= k < |keys| ==> keys[k] == keys[1..][k - 1];
      assert rest.Some? ==> exists k :: 1 <= k < |keys| && rest == check(keys[k]) && forall j :: 0 <= j < k ==> check(keys[j]).None? by {
        if rest.Some? {
          var k :| 0 <= k < |keys[1..]| && rest == check(keys[1..][k]) && forall j :: 0 <= j < k ==> check(keys[1..][j]).None?;
          assert forall j :: 1 <= j < k + 1 ==> keys[j] == keys[1..][j - 1];
        }
      }
      rest
  }

  function OptionalKey(data: map<string, string>, key: string): Option<string> {
    if key in data then Some(data[key]) else None
  }

  /** The user `create_user` makes from the sign-up data. */
  function NewUser(id: Uuid, data: map<string, string>): (u: User)
    requires "email" in data && "first_name" in data && "last_name" in data && "gender" in data && "password" in data
    ensures u.id == id && u.email == data["email"] && u.username == data["email"]
    ensures u.firstName == data["first_name"] && u.lastName == data["last_name"] && u.gender == data["gender"]
    ensures u.password == data["password"]
    ensures u.address1 == OptionalKey(data, "address_1") && u.address2 == OptionalKey(data, "address_2")
    ensures u.state == OptionalKey(data, "state") && u.country == OptionalKey(data, "country")
    ensures !u.isEmailVerified && u.isActive
  {
    User(id, data["email"], data["email"], data["first_name"], data["last_name"], data["gender"],
         OptionalKey(data, "address_1"), OptionalKey(data, "address_2"),
         OptionalKey(data, "state"), OptionalKey(data, "country"),
         data["password"], false, true)
  }

  /** The required fields of `UserBaseSerializer`, in declaration order; the
      optional address fields carry no check. */
  const SignUpRequired: seq<string> := ["first_name", "last_name", "gender", "email", "password", ConfirmKey]

  /** The field-level checks of one sign-up field: present, then the
      choice of `gender`, the form and freshness of `email`, and a non-blank
      `password` the validators accept (an opaque verdict here) and a
      non-blank confirmation. */
  function SignUpFieldError(users: seq<User>, data: map<string, string>, passwordAccepted: bool, key: string)
    : Option<AccountError>
  {
    if key !in data then Some(MissingField(key))
    else if key == "gender" && !GenderChoice(data[key]) then Some(InvalidChoice)
    else if key == "email" && !IsEmail(data[key]) then Some(InvalidEmail)
    else if key == "email" && EmailTaken(users, data[key]) then Some(EmailInUse)
    else if (key == "password" || key == ConfirmKey) && data[key] == "" then Some(BlankField(key))
    else if key == "password" && !passwordAccepted then Some(PasswordRejected)
    else None
  }

  function SignUpCheck(users: seq<User>, data: map<string, string>, passwordAccepted: bool): string -> Option<AccountError> {
    key => SignUpFieldError(users, data, passwordAccepted, key)
  }

  /** The checks of `UserBaseSerializer` before `create`: the field checks
      in field order, then the confirmation of `validate`. */
  function CheckSignUp(users: seq<User>, data: map<string, string>, passwordAccepted: bool): (r: Option<AccountError>)
    ensures r.None? <==>
      && "first_name" in data && "last_name" in data && "gender" in data
      && "email" in data && "password" in data && ConfirmKey in data
      && GenderChoice(data["gender"]) && IsEmail(data["email"]) && !EmailTaken(users, data["email"])
      && data["password"] != "" && passwordAccepted && data["password"] == data[ConfirmKey]
    ensures var first := FirstError(SignUpRequired, SignUpCheck(users, data, passwordAccepted));
      && (first.Some? ==> r == first)
      && (first.None? && r.Some? ==> r == Some(PasswordsDiffer))
    ensures r.None? ==> ConfirmPassword(data, "password").Ok?
  {
    var check := SignUpCheck(users, data, passwordAccepted);
    var first := FirstError(SignUpRequired, check);
    assert SignUpRequired[0] == "first_name" && SignUpRequired[1] == "last_name" && SignUpRequired[2] == "gender";
    assert SignUpRequired[3] == "email" && SignUpRequired[4] == "password" && SignUpRequired[5] == ConfirmKey;
    if first.Some? then first
    else
      assert check("first_name").None? && check("last_name").None? && check("gender").None?;
      assert check("email").None? && check("password").None? && check(ConfirmKey).None?;
      var confirmed := ConfirmPassword(data, "password");
      if confirmed.Err? then Some(confirmed.error) else None
  }

  /** Errors come in field order: a missing name is reported before a bad
      gender, and a bad gender before a missing email. */
  lemma SignUpFieldOrder(users: seq<User>, data: map<string, string>, passwordAccepted: bool)
    ensures "first_name" !in data ==> CheckSignUp(users, data, passwordAccepted) == Some(MissingField("first_name"))
    ensures "first_name" in data && "last_name" in data && "gender" in data && !GenderChoice(data["gender"]) ==>
      CheckSignUp(users, data, passwordAccepted) == Some(InvalidChoice)
  {
    var check := SignUpCheck(users, data, passwordAccepted);
    assert SignUpRequired[0] == "first_name" && SignUpRequired[1] == "last_name" && SignUpRequired[2] == "gender";
    assert FirstError(SignUpRequired, check) == (if check("first_name").Some? then check("first_name")
                                                 else FirstError(SignUpRequired[1..], check));
    assert SignUpRequired[1..][0] == "last_name" && SignUpRequired[1..][1..][0] == "gender";
  }

  // ---------------------------------------------------------------------
  // Sign-up

  /** Sign-up: `validate`, then `create` in one transaction: the user, its
      patient record, and a verification code under its email. */
  method SignUp(acc: Accounts, data: map<string, string>, passwordAccepted: bool, id: Uuid, code: int)
    returns (r: Result<User, AccountError>)
    requires acc.Valid() && InGeneratedRange(code)
    requires forall k :: 0 <= k < |acc.users| ==> acc.users[k].id != id
    modifies acc
    ensures acc.Valid()
    ensures r.Ok? <==> CheckSignUp(old(acc.users), data, passwordAccepted).None?
    ensures CheckSignUp(old(acc.users), data, passwordAccepted).Some? ==>
      && r == Err(CheckSignUp(old(acc.users), data, passwordAccepted).value)
      && acc.users == old(acc.users) && acc.patients == old(acc.patients) && acc.cache == old(acc.cache)
    ensures r.Ok? ==>
      && CheckSignUp(old(acc.users), data, passwordAccepted).None?
      && r.value == NewUser(id, ConfirmPassword(data, "password").value)
      && acc.users == old(acc.users) + [r.value]
      && acc.patients == old(acc.patients) + {id}
      && acc.cache == StoreCode(old(acc.cache), r.value.email, code)
  {
    var invalid := CheckSignUp(acc.users, data, passwordAccepted);
    if invalid.Some? {
      return Err(invalid.value);
    }
    var validated := ConfirmPassword(data, "password").value;
    var u := NewUser(id, validated);
    AppendUserValid(acc.users, u);
    acc.users := acc.users + [u];
    acc.patients := acc.patients + {id};
    acc.SendVerificationEmail(|acc.users| - 1, code);
    r := Ok(u);
  }

  // ---------------------------------------------------------------------
  // Verification

  /** `validate_email` of the verification and resend serializers: the
      account with that email, if it exists and is not yet verified. */
  function UnverifiedAccount(users: seq<User>, email: string): (r: Result<nat, AccountError>)
    ensures !IsEmail(email) ==> r == Err(InvalidEmail)
    ensures IsEmail(email) ==> (r == Err(AccountNotFound) <==> forall k :: 0 <= k < |users| ==> users[k].email != email)
    ensures r.Ok? ==> r.value < |users| && users[r.value].email == email && !users[r.value].isEmailVerified
    ensures r.Err? && IsEmail(email) && FindByEmail(users, email).Some? ==> r == Err(AlreadyVerified)
    ensures r.Ok? <==> IsEmail(email) && FindByEmail(users, email).Some? && !users[FindByEmail(users, email).value].isEmailVerified
    ensures r.Ok? ==> r.value == FindByEmail(users, email).value
  {
    if !IsEmail(email) then Err(InvalidEmail)
    else
      var found := FindByEmail(users, email);
      if found.None? then Err(AccountNotFound)
      else if users[found.value].isEmailVerified then Err(AlreadyVerified)
      else Ok(found.value)
  }

  /** `UserAccountVerificationSerializer`: field checks, then the pin check
      of `validate`, then `verify_account`. The cache key of the user object
      `validate` passes is its email, since a user prints as its email. */
  method VerifyEmail(acc: Accounts, email: string, code: int) returns (r: Result<bool, AccountError>)
    requires acc.Valid()
    modifies acc`users, acc`cache
    ensures acc.Valid()
    ensures UnverifiedAccount(old(acc.users), email).Err? ==>
      r == Err(UnverifiedAccount(old(acc.users), email).error)
    ensures UnverifiedAccount(old(acc.users), email).Ok? && !CodeFieldAccepts(code) ==> r == Err(CodeOutOfRange)
    ensures && UnverifiedAccount(old(acc.users), email).Ok? && CodeFieldAccepts(code)
            && !UserUtils.CheckVerificationPin(old(acc.cache), email, code)
            ==> r == Err(InvalidCode)
    ensures r.Err? ==> acc.users == old(acc.users) && acc.cache == old(acc.cache)
    ensures r != Err(CodeExpired)
    ensures r.Ok? ==>
      var i := UnverifiedAccount(old(acc.users), email).value;
      && UnverifiedAccount(old(acc.users), email).Ok?
      && r.value
      && UserUtils.CheckVerificationPin(old(acc.cache), email, code)
      && acc.users == old(acc.users)[i := old(acc.users[i]).(isEmailVerified := true)]
      && acc.cache == old(acc.cache) - {email}
    ensures UnverifiedAccount(old(acc.users), email).Ok? && CodeFieldAccepts(code) ==>
      (r.Ok? <==> UserUtils.CheckVerificationPin(old(acc.cache), email, code))
  {
    var found := UnverifiedAccount(acc.users, email);
    if found.Err? {
      return Err(found.error);
    }
    if !CodeFieldAccepts(code) {
      return Err(CodeOutOfRange);
    }
    if !UserUtils.CheckVerificationPin(acc.cache, email, code) {
      return Err(InvalidCode);
    }
    var verified := acc.VerifyAccount(found.value, code);
    if !verified {
      return Err(CodeExpired);
    }
    r := Ok(true);
  }

  /** `RegenerateVerificationCodeSerializer`: a fresh code replaces the
      one stored under the email. */
  method ResendVerification(acc: Accounts, email: string, code: int) returns (r: Result<string, AccountError>)
    requires acc.Valid() && InGeneratedRange(code)
    modifies acc`cache
    ensures r.Ok? <==> UnverifiedAccount(acc.users, email).Ok?
    ensures UnverifiedAccount(acc.users, email).Err? ==> r == Err(UnverifiedAccount(acc.users, email).error)
    ensures r.Err? ==> acc.cache == old(acc.cache)
    ensures r.Ok? ==> UnverifiedAccount(acc.users, email).Ok? && r.value == email
                      && acc.cache == StoreCode(old(acc.cache), email, code)
  {
    var found := UnverifiedAccount(acc.users, email);
    if found.Err? {
      return Err(found.error);
    }
    acc.SendVerificationEmail(found.value, code);
    r := Ok(email);
  }

  // ---------------------------------------------------------------------
  // Passwords

  /** `ForgotPasswordSerializer`: a reset token holding the email. */
  method ForgotPassword(acc: Accounts, email: string, token: int) returns (r: Result<string, AccountError>)
    requires acc.Valid() && InGeneratedRange(token)
    modifies acc`cache
    ensures !IsEmail(email) ==> r == Err(InvalidEmail)
    ensures IsEmail(email) ==> (r == Err(AccountNotFound) <==> FindByEmail(acc.users, email).None?)
    ensures r.Ok? <==> IsEmail(email) && FindByEmail(acc.users, email).Some?
    ensures r.Err? ==> acc.cache == old(acc.cache)
    ensures r.Ok? ==> r.value == email && acc.cache == StoreToken(old(acc.cache), token, email)
  {
    if !IsEmail(email) {
      return Err(InvalidEmail);
    }
    var found := FindByEmail(acc.users, email);
    if found.None? {
      return Err(AccountNotFound);
    }
    acc.SendResetTokenEmail(found.value, token);
    r := Ok(email);
  }

  /** The account a reset token resets: the user whose email the cache
      holds under the token. */
  function TokenAccount(users: seq<User>, cache: Cache, token: int): (r: Result<nat, AccountError>)
    ensures !CodeFieldAccepts(token) ==> r == Err(CodeOutOfRange)
    ensures CodeFieldAccepts(token) ==> (r == Err(TokenInvalid) <==> TokenKey(token) !in cache)
    ensures r.Ok? ==> && CodeFieldAccepts(token) && TokenKey(token) in cache
                      && r.value < |users| && cache[TokenKey(token)] == Address(users[r.value].email)
    ensures r.Err? && CodeFieldAccepts(token) && TokenKey(token) in cache ==> r == Err(AccountGone)
  {
    if !CodeFieldAccepts(token) then Err(CodeOutOfRange)
    else if TokenKey(token) !in cache then Err(TokenInvalid)
    else match cache[TokenKey(token)]
      case Code(_) => Err(AccountGone)
      case Address(e) =>
        var found := FindByEmail(users, e);
        if found.None? then Err(AccountGone) else Ok(found.value)
  }

  /** `ResetUserAccountPasswordSerializer`: the token field, then the
      new password (not blank, accepted by the validators), then `update`, which sets the password of the
      token's account and deletes the token. */
  method ResetPassword(acc: Accounts, token: int, newPassword: string, passwordAccepted: bool)
    returns (r: Result<User, AccountError>)
    requires acc.Valid()
    modifies acc`users, acc`cache
    ensures acc.Valid()
    ensures !CodeFieldAccepts(token) ==> r == Err(CodeOutOfRange)
    ensures CodeFieldAccepts(token) && TokenKey(token) !in old(acc.cache) ==> r == Err(TokenInvalid)
    ensures CodeFieldAccepts(token) && TokenKey(token) in old(acc.cache) && newPassword == "" ==>
      r == Err(BlankField("new_password"))
    ensures CodeFieldAccepts(token) && TokenKey(token) in old(acc.cache) && newPassword != "" && !passwordAccepted ==>
      r == Err(PasswordRejected)
    ensures newPassword != "" && passwordAccepted && TokenAccount(old(acc.users), old(acc.cache), token).Err? ==>
      r == Err(TokenAccount(old(acc.users), old(acc.cache), token).error)
    ensures r.Ok? <==> newPassword != "" && passwordAccepted && TokenAccount(old(acc.users), old(acc.cache), token).Ok?
    ensures r.Err? ==> acc.users == old(acc.users) && acc.cache == old(acc.cache)
    ensures r.Ok? ==>
      var i := TokenAccount(old(acc.users), old(acc.cache), token).value;
      && TokenAccount(old(acc.users), old(acc.cache), token).Ok? && passwordAccepted && newPassword != ""
      && r.value == old(acc.users[i]).(password := newPassword)
      && acc.users == old(acc.users)[i := r.value]
      && acc.cache == old(acc.cache) - {TokenKey(token)}
      && TokenAccount(acc.users, acc.cache, token) == Err(TokenInvalid)
  {
    if !CodeFieldAccepts(token) {
      return Err(CodeOutOfRange);
    }
    if TokenKey(token) !in acc.cache {
      return Err(TokenInvalid);
    }
    if newPassword == "" {
      return Err(BlankField("new_password"));
    }
    if !passwordAccepted {
      return Err(PasswordRejected);
    }
    var found := TokenAccount(acc.users, acc.cache, token);
    if found.Err? {
      return Err(found.error);
    }
    var i := found.value;
    var u := acc.users[i].(password := newPassword);
    ReplaceUserValid(acc.users, i, u);
    acc.users := acc.users[i := u];
    acc.cache := acc.cache - {TokenKey(token)};
    r := Ok(u);
  }

  /** A reset token works once: after a reset, the same token is refused
      whatever password comes with it. */
  lemma ResetTokenSingleUse(users: seq<User>, cache: Cache, token: int, i: nat, newPassword: string)
    requires TokenAccount(users, cache, token) == Ok(i)
    ensures TokenAccount(users[i := users[i].(password := newPassword)], cache - {TokenKey(token)}, token) == Err(TokenInvalid)
  {
  }

  const ChangeRequired: seq<string> := ["old_password", "new_password", ConfirmKey]

  /** The field-level checks of one change-password field: present and not
      blank; then, for `old_password`, `validate_old_password` (a username
      to authenticate with, and `authenticated`, the verdict of
      `authenticate`); for `new_password`, `passwordAccepted`, the verdict of
      the password validators. */
  function ChangeFieldError(u: User, data: map<string, string>, authenticated: bool, passwordAccepted: bool, key: string)
    : Option<AccountError>
  {
    if key !in data then Some(MissingField(key))
    else if data[key] == "" then Some(BlankField(key))
    else if key == "old_password" && u.username == "" then Some(Invalid)
    else if key == "old_password" && !authenticated then Some(InvalidOldPassword)
    else if key == "new_password" && !passwordAccepted then Some(PasswordRejected)
    else None
  }

  function ChangeCheck(u: User, data: map<string, string>, authenticated: bool, passwordAccepted: bool)
    : string -> Option<AccountError>
  {
    key => ChangeFieldError(u, data, authenticated, passwordAccepted, key)
  }

  /** The checks of `ChangeUserAccountPasswordSerializer`: the field checks
      in field order, then the confirmation of `validate`. */
  function CheckChangePassword(u: User, data: map<string, string>, authenticated: bool, passwordAccepted: bool)
    : (r: Option<AccountError>)
    ensures r.None? <==>
      && "old_password" in data && "new_password" in data && ConfirmKey in data
      && data["old_password"] != "" && data["new_password"] != ""
      && u.username != "" && authenticated
      && passwordAccepted && data["new_password"] == data[ConfirmKey]
    ensures var first := FirstError(ChangeRequired, ChangeCheck(u, data, authenticated, passwordAccepted));
      && (first.Some? ==> r == first)
      && (first.None? && r.Some? ==> r == Some(PasswordsDiffer))
    ensures r.None? ==> ConfirmPassword(data, "new_password").Ok?
  {
    var check := ChangeCheck(u, data, authenticated, passwordAccepted);
    var first := FirstError(ChangeRequired, check);
    assert ChangeRequired[0] == "old_password" && ChangeRequired[1] == "new_password" && ChangeRequired[2] == ConfirmKey;
    if first.Some? then first
    else
      assert check("old_password").None? && check("new_password").None? && check(ConfirmKey).None?;
      var confirmed := ConfirmPassword(data, "new_password");
      if confirmed.Err? then Some(confirmed.error) else None
  }

  method ChangePassword(acc: Accounts, i: nat, data: map<string, string>, authenticated: bool, passwordAccepted: bool)
    returns (r: Result<User, AccountError>)
    requires acc.Valid() && i < |acc.users|
    modifies acc`users
    ensures acc.Valid()
    ensures r.Ok? <==> CheckChangePassword(old(acc.users[i]), data, authenticated, passwordAccepted).None?
    ensures r.Err? ==> acc.users == old(acc.users)
    ensures CheckChangePassword(old(acc.users[i]), data, authenticated, passwordAccepted).Some? ==>
      && r == Err(CheckChangePassword(old(acc.users[i]), data, authenticated, passwordAccepted).value)
      && acc.users == old(acc.users)
    ensures r.Ok? ==>
      && CheckChangePassword(old(acc.users[i]), data, authenticated, passwordAccepted).None?
      && r.value == old(acc.users[i]).(password := data["new_password"])
      && acc.users == old(acc.users)[i := r.value]
  {
    var invalid := CheckChangePassword(acc.users[i], data, authenticated, passwordAccepted);
    if invalid.Some? {
      return Err(invalid.value);
    }
    var validated := ConfirmPassword(data, "new_password").value;
    var u := acc.users[i].(password := validated["new_password"]);
    ReplaceUserValid(acc.users, i, u);
    acc.users := acc.users[i := u];
    r := Ok(u);
  }

  // ---------------------------------------------------------------------
  // Profile updates and deletion

  /** `UpdateUserAccountEmailSerializer`: a new email no user has (ignoring
      case) becomes the email and the username, is marked unverified, and
      gets a verification code. The old email's code stays in the cache. */
  method UpdateEmail(acc: Accounts, i: nat, email: string, code: int) returns (r: Result<User, AccountError>)
    requires acc.Valid() && i < |acc.users| && InGeneratedRange(code)
    modifies acc`users, acc`cache
    ensures acc.Valid()
    ensures !IsEmail(email) ==> r == Err(InvalidEmail)
    ensures IsEmail(email) ==> (r == Err(EmailInUse) <==> EmailTaken(old(acc.users), email))
    ensures r.Ok? <==> IsEmail(email) && !EmailTaken(old(acc.users), email)
    ensures r.Err? ==> acc.users == old(acc.users) && acc.cache == old(acc.cache)
    ensures r.Ok? ==>
      && r.value == old(acc.users[i]).(email := email, username := email, isEmailVerified := false)
      && acc.users == old(acc.users)[i := r.value]
      && acc.cache == StoreCode(old(acc.cache), email, code)
  {
    if !IsEmail(email) {
      return Err(InvalidEmail);
    }
    if exists k :: 0 <= k < |acc.users| && Lower(acc.users[k].email) == Lower(email) {
      return Err(EmailInUse);
    }
    var u := acc.users[i].(email := email, username := email, isEmailVerified := false);
    ReplaceUserValid(acc.users, i, u);
    acc.users := acc.users[i := u];
    acc.SendVerificationEmail(i, code);
    r := Ok(u);
  }

  /** `UpdateUserAccountNameSerializer.update`: each name from the request,
      or kept. */
  function RenameUser(u: User, firstName: Field<string>, lastName: Field<string>): (r: User)
    ensures r.firstName == firstName.GetOr(u.firstName) && r.lastName == lastName.GetOr(u.lastName)
    ensures r.(firstName := u.firstName, lastName := u.lastName) == u
  {
    u.(firstName := firstName.GetOr(u.firstName), lastName := lastName.GetOr(u.lastName))
  }

  /** Renaming with nothing given changes nothing, and a second rename with
      the same request changes nothing more. */
  lemma RenameUserIdempotent(u: User, firstName: Field<string>, lastName: Field<string>)
    ensures RenameUser(u, Absent, Absent) == u
    ensures RenameUser(RenameUser(u, firstName, lastName), firstName, lastName) == RenameUser(u, firstName, lastName)
  {
  }

  method UpdateName(acc: Accounts, i: nat, firstName: Field<string>, lastName: Field<string>) returns (r: User)
    requires acc.Valid() && i < |acc.users|
    modifies acc`users
    ensures acc.Valid()
    ensures r == RenameUser(old(acc.users[i]), firstName, lastName)
    ensures acc.users == old(acc.users)[i := r]
  {
    r := RenameUser(acc.users[i], firstName, lastName);
    ReplaceUserValid(acc.users, i, r);
    acc.users := acc.users[i := r];
  }

  /** `AccountDeletionSerializer.create`: a hard delete removes the user
      and, by cascade, its patient record (`patient`, when it has one), its
      medical professional record (`professional`, when it has one) and the
      booking rows either record owns; a soft one only deactivates. */
  method DeleteAccount(acc: Accounts, db: AppointmentModels.Clinic, i: nat,
                       patient: Option<Uuid>, professional: Option<Uuid>, hard: bool) returns (r: bool)
    requires acc.Valid() && db.Valid() && i < |acc.users|
    requires patient.Some? <==> acc.users[i].id in acc.patients
    modifies acc`users, acc`patients, db
    ensures acc.Valid() && db.Valid() && r
    ensures hard ==>
      && acc.users == old(acc.users[..i] + acc.users[i + 1..])
      && acc.patients == old(acc.patients) - {old(acc.users[i].id)}
      && db.patients == old(db.patients) - AppointmentModels.KeySet(patient)
      && db.professionals == old(db.professionals) - AppointmentModels.KeySet(professional)
      && db.availabilities == AppointmentModels.AvailabilitiesAfterDelete(old(db.availabilities), professional)
      && db.appointments == AppointmentModels.AppointmentsAfterDelete(old(db.appointments), patient, professional)
      && db.histories == AppointmentModels.HistoriesAfterDelete(old(db.histories), old(db.appointments), patient, professional)
    ensures !hard ==>
      && acc.users == old(acc.users)[i := old(acc.users[i]).(isActive := false)]
      && acc.patients == old(acc.patients)
      && unchanged(db)
  {
    if hard {
      var id := acc.users[i].id;
      RemoveUserValid(acc.users, i);
      acc.users := acc.users[..i] + acc.users[i + 1..];
      acc.patients := acc.patients - {id};
      db.DeleteParties(patient, professional);
    } else {
      var u := acc.users[i].(isActive := false);
      ReplaceUserValid(acc.users, i, u);
      acc.users := acc.users[i := u];
    }
    r := true;
  }
}
