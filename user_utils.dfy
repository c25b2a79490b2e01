/** The helpers of the accounts app: the shared key-value cache that holds
    verification codes and reset tokens, `check_verification_pin`,
    `get_order_by`, the range `generate_code` draws from, and the mapping
    `custom_exception_handler` applies to exceptions. */
module UserUtils {
  import opened Wrappers

  // ---------------------------------------------------------------------
  // The cache

  /** What the cache holds: a verification code under an email address, or
      an email address under a reset token. */
  datatype CacheValue = Code(code: int) | Address(email: string)

  /** The cache builds every key from the text of the Python value it is
      given, so an integer token and an email address share one key space. */
  type Cache = map<string, CacheValue>

  /** An email address, as the serializers' `EmailField` accepts it: it has
      an `@`. */
  predicate IsEmail(s: string) {
    '@' in s
  }

  function Digit(d: nat): (c: char)
    requires d < 10
    ensures '0' <= c <= '9'
  {
    ('0' as int + d) as char
  }

  function DigitValue(c: char): (d: nat)
    requires '0' <= c <= '9'
    ensures d < 10
  {
    (c as int) - ('0' as int)
  }

  /** `str(n)` of a non-negative integer. */
  function Decimal(n: nat): (s: string)
    ensures |s| > 0
    ensures forall k :: 0 <= k < |s| ==> '0' <= s[k] <= '9'
  {
    if n < 10 then [Digit(n)] else Decimal(n / 10) + [Digit(n % 10)]
  }

  /** `int(s)` of a string of decimal digits. */
  function ParseDecimal(s: string): (n: nat)
    requires forall k :: 0 <= k < |s| ==> '0' <= s[k] <= '9'
  {
    if |s| == 0 then 0 else ParseDecimal(s[..|s| - 1]) * 10 + DigitValue(s[|s| - 1])
  }

  lemma {:induction false} ParseDecimalRoundTrip(n: nat)
    ensures ParseDecimal(Decimal(n)) == n
  {
    var s := Decimal(n);
    if n >= 10 {
      assert s[..|s| - 1] == Decimal(n / 10) && s[|s| - 1] == Digit(n % 10);
      assert DigitValue(Digit(n % 10)) == n % 10;
      ParseDecimalRoundTrip(n / 10);
      assert ParseDecimal(s) == (n / 10) * 10 + n % 10;
    } else {
      assert DigitValue(Digit(n)) == n;
    }
  }

  /** The cache key of a reset token. */
  function TokenKey(token: nat): (k: string)
    ensures !IsEmail(k)
  {
    Decimal(token)
  }

  /** Different tokens never share a key. */
  lemma TokenKeyInjective(t1: nat, t2: nat)
    requires TokenKey(t1) == TokenKey(t2)
    ensures t1 == t2
  {
    ParseDecimalRoundTrip(t1);
    ParseDecimalRoundTrip(t2);
  }

  /** `cache.set(email, code)`. */
  function StoreCode(cache: Cache, email: string, code: int): (c: Cache)
    ensures email in c && c[email] == Code(code)
    ensures forall k :: k != email ==> (k in c <==> k in cache) && (k in c ==> c[k] == cache[k])
  {
    cache[email := Code(code)]
  }

  /** `cache.set(token, email)`. */
  function StoreToken(cache: Cache, token: nat, email: string): (c: Cache)
    ensures TokenKey(token) in c && c[TokenKey(token)] == Address(email)
    ensures forall k :: k != TokenKey(token) ==> (k in c <==> k in cache) && (k in c ==> c[k] == cache[k])
  {
    cache[TokenKey(token) := Address(email)]
  }

  /** `check_verification_pin`: the code stored under the email is the
      given one, that is, storing that code again would change nothing. A
      missing entry (never set, or expired) never matches. */
  function CheckVerificationPin(cache: Cache, email: string, code: int): (ok: bool)
    ensures ok <==> StoreCode(cache, email, code) == cache
  {
    var stored := if email in cache then Some(cache[email]) else None;   // `cache.get(email)`
    assert email !in cache ==> email in StoreCode(cache, email, code).Keys - cache.Keys;
    stored == Some(Code(code))
  }

  /** A code just stored is the only one that matches. */
  lemma StoredCodeMatches(cache: Cache, email: string, code: int, other: int)
    ensures CheckVerificationPin(StoreCode(cache, email, code), email, code)
    ensures other != code ==> !CheckVerificationPin(StoreCode(cache, email, code), email, other)
  {
  }

  /** Storing a reset token never disturbs a verification code: a token key
      is digits only, and an email address has an `@`. */
  lemma TokenKeepsPins(cache: Cache, token: nat, stored: string, email: string, code: int)
    requires IsEmail(email)
    ensures CheckVerificationPin(StoreToken(cache, token, stored), email, code) == CheckVerificationPin(cache, email, code)
  {
    assert email != TokenKey(token);
  }

  /** Once the entry is deleted, no code matches. */
  lemma DeletedPinNeverMatches(cache: Cache, email: string, code: int)
    ensures !CheckVerificationPin(cache - {email}, email, code)
  {
  }

  // ---------------------------------------------------------------------
  // Codes

  /** `generate_code()` draws from `randrange(100000, 999999)`: the upper
      bound is excluded. */
  predicate InGeneratedRange(code: int) {
    100000 <= code < 999999
  }

  /** The `IntegerField(min_value=100000, max_value=999999)` of a code or
      token. */
  predicate CodeFieldAccepts(code: int) {
    100000 <= code <= 999999
  }

  /** Every generated code is accepted by the field; the field accepts a
      single value no generated code takes. */
  lemma GeneratedCodesAccepted(code: int)
    requires InGeneratedRange(code)
    ensures CodeFieldAccepts(code) && code != 999999
  {
  }

  // ---------------------------------------------------------------------
  // Ordering

  /** `get_order_by`: a `-` in front of the field for `"dsc"`, the field
      alone for any other direction. */
  function OrderBy(field: string, direction: string): (r: string)
    ensures direction == "dsc" ==> |r| == |field| + 1 && r[0] == '-' && r[1..] == field
    ensures direction != "dsc" ==> r == field
  {
    (if direction == "dsc" then "-" else "") + field
  }

  /** For a field without a leading `-`, the ordering is descending exactly
      when asked for, and the field can be read back from it. */
  lemma OrderByReadBack(field: string, direction: string)
    requires |field| > 0 && field[0] != '-'
    ensures var r := OrderBy(field, direction);
      && (r[0] == '-' <==> direction == "dsc")
      && (if r[0] == '-' then r[1..] else r) == field
  {
  }

  // ---------------------------------------------------------------------
  // The exception handler

  /** The classes the handler tells apart. `PlainException` is an instance
      of exactly `Exception`, not of a subclass. */
  datatype ExceptionKind =
    | DjangoValidation
    | Integrity
    | ObjectDoesNotExist
    | PlainException
    | OtherException

  /** An exception and the attributes the handler probes with `hasattr`. */
  datatype Exception = Exception(
    kind: ExceptionKind,
    messageDict: Option<map<string, seq<string>>>,
    message: Option<string>,
    messages: Option<seq<string>>,
    text: string)                // `str(exc)`

  /** What the handler hands on to DRF's own handler. */
  datatype Handled =
    | ValidationDetail(detail: map<string, seq<string>>)   // a DRF `ValidationError`
    | ApiDetail(message: string)                           // an `APIException({"detail": ..})`
    | Unchanged(exc: Exception)                            // passed on as it was
    | HandlerRaises                                        // `exc.message` raises `AttributeError`

  const NonFieldErrors: string := "non_field_errors"

  predicate ConvertedKind(k: ExceptionKind) {
    k == DjangoValidation || k == Integrity || k == ObjectDoesNotExist
  }

  /** `custom_exception_handler`: the Django family becomes a validation
      error whose detail is the first of `message_dict`, `[message]`,
      `messages` and `[str(exc)]` that the exception offers; a bare
      `Exception` becomes an `APIException` carrying its `message`. */
  function HandleException(e: Exception): (h: Handled)
    ensures ConvertedKind(e.kind) <==> h.ValidationDetail?
    ensures ConvertedKind(e.kind) && e.messageDict.Some? ==> h.detail == e.messageDict.value
    ensures ConvertedKind(e.kind) && e.messageDict.None? ==>
      && h.detail.Keys == {NonFieldErrors}
      && h.detail[NonFieldErrors] ==
           if e.message.Some? then [e.message.value]
           else if e.messages.Some? then e.messages.value
           else [e.text]
    ensures e.kind == PlainException ==> (h.HandlerRaises? <==> e.message.None?)
    ensures e.kind == PlainException && e.message.Some? ==> h == ApiDetail(e.message.value)
    ensures e.kind == OtherException ==> h == Unchanged(e)
  {
    if ConvertedKind(e.kind) then
      if e.messageDict.Some? then ValidationDetail(e.messageDict.value)
      else if e.message.Some? then ValidationDetail(map[NonFieldErrors := [e.message.value]])
      else if e.messages.Some? then ValidationDetail(map[NonFieldErrors := e.messages.value])
      else ValidationDetail(map[NonFieldErrors := [e.text]])
    else if e.kind == PlainException then
      if e.message.Some? then ApiDetail(e.message.value) else HandlerRaises
    else Unchanged(e)
  }

  /** A converted exception always carries at least one message, unless the
      exception itself offered an empty dictionary or list. */
  lemma ConvertedDetailNonEmpty(e: Exception)
    requires ConvertedKind(e.kind)
    requires e.messageDict.Some? ==> exists k :: k in e.messageDict.value && |e.messageDict.value[k]| > 0
    requires e.messageDict.None? && e.message.None? && e.messages.Some? ==> |e.messages.value| > 0
    ensures var d := HandleException(e).detail;
      exists k :: k in d && |d[k]| > 0
  {
    var d := HandleException(e).detail;
    if e.messageDict.None? {
      assert NonFieldErrors in d && |d[NonFieldErrors]| > 0;
    }
  }
}
