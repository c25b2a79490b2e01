/** The `User` record and the state its methods change: the user table and
    the shared cache that holds verification codes (under the email) and
    reset tokens (holding the email). */
module UserModels {
  import opened Wrappers
  import opened UserUtils

  type Uuid = nat

  /** The columns of `User` the account flows read or write. `password`
      holds what `set_password` stores. */
  datatype User = User(
    id: Uuid,
    email: string,
    username: string,
    firstName: string,
    lastName: string,
    gender: string,
    address1: Option<string>,
    address2: Option<string>,
    state: Option<string>,
    country: Option<string>,
    password: string,
    isEmailVerified: bool,
    isActive: bool)

  /** `GENDER_CHOICES`: the values the `gender` column accepts. */
  predicate GenderChoice(g: string) {
    g == "M" || g == "F"
  }

  /** ASCII case folding, as `email__iexact` compares. */
  function LowerChar(c: char): (l: char)
    ensures 'A' <= c <= 'Z' ==> l as int == c as int + 32
    ensures !('A' <= c <= 'Z') ==> l == c
  {
    if 'A' <= c <= 'Z' then (c as int + 32) as char else c
  }

  function Lower(s: string): (l: string)
    ensures |l| == |s| && forall k :: 0 <= k < |s| ==> l[k] == LowerChar(s[k])
  {
    seq(|s|, k requires 0 <= k < |s| => LowerChar(s[k]))
  }

  /** `User.objects.filter(email__iexact=email).exists()`. */
  predicate EmailTaken(users: seq<User>, email: string) {
    exists k :: 0 <= k < |users| && Lower(users[k].email) == Lower(email)
  }

  /** `get_user_by_email`: the user whose email is exactly `email`. */
  function FindByEmail(users: seq<User>, email: string): (r: Option<nat>)
    ensures r.None? <==> forall k :: 0 <= k < |users| ==> users[k].email != email
    ensures r.Some? ==> r.value < |users| && users[r.value].email == email
  {
    if |users| == 0 then None
    else if users[|users| - 1].email == email then Some(|users| - 1)
    else FindByEmail(users[..|users| - 1], email)
  }

  /** `email` is unique; the sign-up and change-of-email checks make it
      unique even ignoring case. */
  ghost predicate DistinctEmails(users: seq<User>) {
    forall i, j :: 0 <= i < j < |users| ==> Lower(users[i].email) != Lower(users[j].email)
  }

  ghost predicate DistinctUserIds(users: seq<User>) {
    forall i, j :: 0 <= i < j < |users| ==> users[i].id != users[j].id
  }

  /** With emails unique, the lookup finds the one user who has it. */
  lemma FindByEmailUnique(users: seq<User>, i: nat)
    requires DistinctEmails(users) && i < |users|
    ensures FindByEmail(users, users[i].email) == Some(i)
  {
    var r := FindByEmail(users, users[i].email);
    assert r.Some? && users[r.value].email == users[i].email;
  }

  /** The invariant of the user table: unique keys, emails unique ignoring
      case, and every email well formed. */
  ghost predicate ValidUsers(users: seq<User>) {
    DistinctUserIds(users) && DistinctEmails(users)
    && forall k :: 0 <= k < |users| ==> IsEmail(users[k].email)
  }

  /** Adding a user with an unused key and an email nobody has keeps the
      invariant. */
  lemma AppendUserValid(users: seq<User>, u: User)
    requires ValidUsers(users) && IsEmail(u.email) && !EmailTaken(users, u.email)
    requires forall k :: 0 <= k < |users| ==> users[k].id != u.id
    ensures ValidUsers(users + [u])
  {
    assert forall k :: 0 <= k < |users| ==> (users + [u])[k] == users[k];
  }

  /** Replacing a user by a record with the same key, and either the same
      email or a well-formed one nobody has, keeps the invariant. */
  lemma ReplaceUserValid(users: seq<User>, i: nat, u: User)
    requires ValidUsers(users) && i < |users| && u.id == users[i].id
    requires u.email == users[i].email || (IsEmail(u.email) && !EmailTaken(users, u.email))
    ensures ValidUsers(users[i := u])
  {
    assert forall k :: 0 <= k < |users| && k != i ==> users[i := u][k] == users[k];
  }

  /** Removing a user keeps the invariant. */
  lemma RemoveUserValid(users: seq<User>, i: nat)
    requires ValidUsers(users) && i < |users|
    ensures ValidUsers(users[..i] + users[i + 1..])
  {
    var rest := users[..i] + users[i + 1..];
    assert forall a :: 0 <= a < |rest| ==> rest[a] == users[if a < i then a else a + 1];
  }

  /** The user table, the keys with a `Patient` record, and the cache. */
  class Accounts {
    var users: seq<User>
    var patients: set<Uuid>
    var cache: Cache

    ghost predicate Valid()
      reads this
    {
      ValidUsers(users)
    }

    constructor ()
      ensures Valid() && users == [] && patients == {} && cache == map[]
    {
      users := [];
      patients := {};
      cache := map[];
    }

    /** `User.send_verification_email`, with the code `generate_code` drew. */
    method SendVerificationEmail(i: nat, code: int)
      requires i < |users| && InGeneratedRange(code)
      modifies this`cache
      ensures cache == StoreCode(old(cache), users[i].email, code)
      ensures CheckVerificationPin(i, code)
    {
      cache := StoreCode(cache, users[i].email, code);
    }

    /** `User.check_verification_pin`. */
    function CheckVerificationPin(i: nat, code: int): (ok: bool)
      requires i < |users|
      reads this
      ensures ok <==> StoreCode(cache, users[i].email, code) == cache
    {
      UserUtils.CheckVerificationPin(cache, users[i].email, code)
    }

    /** `User.verify_account`: a matching code verifies the email and is
      used up; any other code changes nothing. */
    method VerifyAccount(i: nat, code: int) returns (ok: bool)
      requires Valid() && i < |users|
      modifies this`users, this`cache
      ensures Valid()
      ensures ok == old(CheckVerificationPin(i, code))
      ensures ok ==> && users == old(users)[i := old(users[i]).(isEmailVerified := true)]
                     && cache == old(cache) - {old(users[i].email)}
                     && !CheckVerificationPin(i, code)
      ensures !ok ==> users == old(users) && cache == old(cache)
    {
      if CheckVerificationPin(i, code) {
        var u := users[i].(isEmailVerified := true);
        ReplaceUserValid(users, i, u);
        cache := cache - {users[i].email};
        users := users[i := u];
        return true;
      }
      return false;
    }

    /** `User.send_reset_token_email`, with the token `generate_code` drew. */
    method SendResetTokenEmail(i: nat, token: int)
      requires Valid() && i < |users| && InGeneratedRange(token)
      modifies this`cache
      ensures cache == StoreToken(old(cache), token, users[i].email)
      ensures forall k, c :: 0 <= k < |users| ==>
                (CheckVerificationPin(k, c) <==> old(CheckVerificationPin(k, c)))
    {
      ghost var before := cache;
      cache := StoreToken(cache, token, users[i].email);
      forall k, c | 0 <= k < |users|
        ensures CheckVerificationPin(k, c) <==> UserUtils.CheckVerificationPin(before, users[k].email, c)
      {
        TokenKeepsPins(before, token, users[i].email, users[k].email, c);
      }
    }
  }
}
