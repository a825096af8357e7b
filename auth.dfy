/** The `before_request` hook that authenticates every request with an RFC 6750
    bearer token. The token is a JSON Web Token whose subject names the
    consumer as `consumer_id=<digits>`; the signature check is a collaborator
    that yields the subject or fails. */
module Auth {
  import opened Wrappers
  import opened Records
  import opened Text

  const SubjectPrefix: string := "consumer_id="

  /** The error codes of section 3.1 of RFC 6750 that the hook uses. */
  const InvalidRequest: string := "invalid_request"
  const InvalidToken: string := "invalid_token"

  predicate IsDigit(c: char) {
    '0' <= c <= '9'
  }

  predicate IsDigits(s: string) {
    forall k :: 0 <= k < |s| ==> IsDigit(s[k])
  }

  function DigitValue(c: char): (n: nat)
    requires IsDigit(c)
    ensures n < 10
  {
    (c as int) - ('0' as int)
  }

  function DigitChar(n: nat): (c: char)
    requires n < 10
    ensures IsDigit(c) && DigitValue(c) == n
  {
    (('0' as int) + n) as char
  }

  /** Python's `int()` on a string of ASCII digits. */
  function DecimalValue(s: string): nat
    requires IsDigits(s)
  {
    if s == [] then 0 else 10 * DecimalValue(s[..|s| - 1]) + DigitValue(s[|s| - 1])
  }

  /** The shortest decimal numeral of `n`. */
  function ToDecimal(n: nat): (s: string)
    ensures s != [] && IsDigits(s)
  {
    if n < 10 then [DigitChar(n)] else ToDecimal(n / 10) + [DigitChar(n % 10)]
  }

  lemma {:induction false} DecimalValueOfToDecimal(n: nat)
    ensures DecimalValue(ToDecimal(n)) == n
  {
    if n >= 10 {
      var s := ToDecimal(n);
      assert s[..|s| - 1] == ToDecimal(n / 10);
      DecimalValueOfToDecimal(n / 10);
    }
  }

  /** The subject check with the evident intent of the pattern
      `^consumer_id=([0-9]+)$`: the whole subject is the prefix followed by one
      or more decimal digits, whose value is the consumer id. */
  function ParseSubject(subject: string): (r: Option<ConsumerId>)
    ensures r.Some? <==> |subject| > |SubjectPrefix| && StartsWith(subject, SubjectPrefix)
                         && IsDigits(subject[|SubjectPrefix|..])
    ensures r.Some? ==> r.value == DecimalValue(subject[|SubjectPrefix|..])
  {
    var n := |SubjectPrefix|;
    if |subject| > n && StartsWith(subject, SubjectPrefix) && IsDigits(subject[n..]) then
      Some(DecimalValue(subject[n..]))
    else None
  }

  /** The subject check as `re.match` runs the pattern: `$` also matches just
      before a final newline, so one trailing line feed is tolerated. */
  function ParseSubjectAsWritten(subject: string): (r: Option<ConsumerId>)
    ensures EndsWith(subject, "\n") ==> r == ParseSubject(subject[..|subject| - 1])
    ensures !EndsWith(subject, "\n") ==> r == ParseSubject(subject)
  {
    if EndsWith(subject, "\n") then
      assert !IsDigit(subject[|subject| - 1]);
      if ParseSubject(subject[..|subject| - 1]).Some? then ParseSubject(subject[..|subject| - 1])
      else ParseSubject(subject)
    else ParseSubject(subject)
  }

  /** Every consumer id is accepted in its own decimal form, and read back. */
  lemma SubjectRoundTrip(id: nat)
    ensures ParseSubject(SubjectPrefix + ToDecimal(id)) == Some(id)
  {
    var s := SubjectPrefix + ToDecimal(id);
    assert s[|SubjectPrefix|..] == ToDecimal(id);
    DecimalValueOfToDecimal(id);
  }

  /** The two checks agree on every subject without a final newline, and the
      pattern as written also accepts `consumer_id=7` followed by a newline. */
  lemma AsWrittenAcceptsTrailingNewline(subject: string)
    ensures !EndsWith(subject, "\n") ==> ParseSubjectAsWritten(subject) == ParseSubject(subject)
    ensures ParseSubjectAsWritten("consumer_id=7\n") == Some(7)
    ensures ParseSubject("consumer_id=7\n") == None
  {
    var s := "consumer_id=7\n";
    assert s[..|s| - 1] == SubjectPrefix + "7";
    assert (SubjectPrefix + "7")[|SubjectPrefix|..] == "7";
    assert DecimalValue("7") == 7 by { assert "7"[..0] == []; }
    assert !IsDigit(s[|s| - 1]);
  }

  /** The subject `id=1` of the test suite is refused; leading zeros are not. */
  lemma SubjectExamples()
    ensures ParseSubject("id=1") == None
    ensures ParseSubject("consumer_id=") == None
    ensures ParseSubject("consumer_id=007") == Some(7)
  {
    var s := "consumer_id=007";
    assert s[|SubjectPrefix|..] == "007";
    assert "007"[..2] == "00" && "00"[..1] == "0" && "0"[..0] == [];
  }

  /** The `Authorization` header as Werkzeug parses it: the scheme, lower-cased,
      and the token, if any. */
  datatype Credentials = Credentials(scheme: string, token: Option<string>)

  /** What the hook does with a request: let it through untouched, record the
      consumer, or answer 401 (with the realm and an optional RFC 6750 error
      code) or 403. */
  datatype AuthOutcome =
    | Proceed
    | Authenticated(consumer: ConsumerId)
    | Unauthorized(realm: string, error: Option<string>)
    | Forbidden

  /** `authenticate()`. A request that failed routing is let through so that
      it gets its 404 or 405; a missing or non-bearer header is refused with
      no error code; an empty token is an `invalid_request`; a token that does
      not decode, or whose subject is not a consumer id, is an `invalid_token`;
      a consumer id that names no consumer is forbidden. `decode` is the JWT
      check, `None` where it raises `InvalidTokenError`. */
  function Authenticate(
    routingFailed: bool,
    authorization: Option<Credentials>,
    host: string,
    decode: string -> Option<string>,
    consumers: set<ConsumerId>): (r: AuthOutcome)
    ensures routingFailed <==> r == Proceed
    ensures r.Unauthorized? ==> r.realm == host && r.error in {None, Some(InvalidRequest), Some(InvalidToken)}
    ensures !routingFailed && (authorization.None? || authorization.value.scheme != "bearer") <==>
              r == Unauthorized(host, None)
    ensures r == Unauthorized(host, Some(InvalidRequest)) <==>
              !routingFailed && authorization.Some? && authorization.value.scheme == "bearer"
              && (authorization.value.token.None? || authorization.value.token.value == [])
    ensures r == Unauthorized(host, Some(InvalidToken)) <==>
              !routingFailed && authorization.Some? && authorization.value.scheme == "bearer"
              && authorization.value.token.Some? && authorization.value.token.value != []
              && (decode(authorization.value.token.value).None?
                  || ParseSubject(decode(authorization.value.token.value).value).None?)
    ensures r.Authenticated? || r == Forbidden ==>
              && authorization.Some? && authorization.value.token.Some?
              && decode(authorization.value.token.value).Some?
              && ParseSubject(decode(authorization.value.token.value).value).Some?
              && var id := ParseSubject(decode(authorization.value.token.value).value).value;
                 (r == Forbidden <==> id !in consumers) && (r.Authenticated? ==> r.consumer == id)
  {
    if routingFailed then Proceed
    else if authorization.None? || authorization.value.scheme != "bearer" then
      Unauthorized(host, None)
    else if authorization.value.token.None? || authorization.value.token.value == [] then
      Unauthorized(host, Some(InvalidRequest))
    else
      match decode(authorization.value.token.value)
      case None => Unauthorized(host, Some(InvalidToken))
      case Some(subject) =>
        match ParseSubject(subject)
        case None => Unauthorized(host, Some(InvalidToken))
        case Some(id) => if id in consumers then Authenticated(id) else Forbidden
  }

  /** A bearer token whose subject is `consumer_id=<id>` authenticates an
      existing consumer `id`, and is forbidden for any other id. */
  lemma ValidTokenAuthenticates(token: string, host: string, decode: string -> Option<string>,
                                consumers: set<ConsumerId>, id: nat)
    requires token != [] && decode(token) == Some(SubjectPrefix + ToDecimal(id))
    ensures id in consumers ==>
              Authenticate(false, Some(Credentials("bearer", Some(token))), host, decode, consumers) == Authenticated(id)
    ensures id !in consumers ==>
              Authenticate(false, Some(Credentials("bearer", Some(token))), host, decode, consumers) == Forbidden
  {
    SubjectRoundTrip(id);
  }

  /** A bearer token whose subject is `consumer_id=` and any non-empty run of
      digits, leading zeros included, names the consumer those digits denote:
      it authenticates that consumer when it exists and is forbidden
      otherwise. */
  lemma DigitSubjectAuthenticates(token: string, host: string, decode: string -> Option<string>,
                                  consumers: set<ConsumerId>, digits: string)
    requires token != [] && digits != [] && IsDigits(digits)
    requires decode(token) == Some(SubjectPrefix + digits)
    ensures DecimalValue(digits) in consumers ==>
              Authenticate(false, Some(Credentials("bearer", Some(token))), host, decode, consumers)
              == Authenticated(DecimalValue(digits))
    ensures DecimalValue(digits) !in consumers ==>
              Authenticate(false, Some(Credentials("bearer", Some(token))), host, decode, consumers) == Forbidden
  {
    assert (SubjectPrefix + digits)[|SubjectPrefix|..] == digits;
  }
}
