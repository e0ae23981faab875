/** The `jwt_required` decorator of parking_gateout_app/routes.py: the checks on the
    Authorization header that come before the token is decoded, and the outcomes of
    decoding. Signature checking is outside the model: what jwt.decode makes of a
    token is a parameter. */
module Auth {
  import opened Common
  import opened Seqs

  /** What jwt.decode makes of a token. */
  datatype TokenCheck = Decoded(userId: string) | Expired | InvalidToken

  /** Proceed to the wrapped handler as the user, a 401 with a message, or an exception
      that none of the decorator's handlers catch (a 500 from the framework). */
  datatype AuthOutcome = Proceed(userId: string) | Unauthorized(message: string) | ServerError

  function StatusCode(r: AuthOutcome): int
  {
    match r
    case Proceed(_) => 200
    case Unauthorized(_) => 401
    case ServerError => 500
  }

  /** The decorator: no (or an empty) header is refused; a header that does not split on
      single spaces into exactly two parts raises ValueError, which only jwt errors are
      caught around; a scheme other than "bearer" in any case is refused; then the token
      decides, and the user it names must exist. */
  function Authorize(header: Option<string>, decode: string -> TokenCheck, users: set<string>): (r: AuthOutcome)
  {
    if !Truthy(header) then Unauthorized("No authorization header")
    else
      var parts := Split(header.value, ' ');
      if |parts| != 2 then ServerError
      else if Lower(parts[0]) != "bearer" then Unauthorized("Invalid token type")
      else
        match decode(parts[1])
        case Expired => Unauthorized("Token has expired")
        case InvalidToken => Unauthorized("Invalid token")
        case Decoded(user) => if user in users then Proceed(user) else Unauthorized("User not found")
  }

  /** A header that is well formed in its shape: exactly one space, so two parts. */
  predicate OneSpace(h: string)
  {
    Occurrences(h, ' ') == 1
  }

  /** The header is judged before any token decoding: when it is missing, has other than
      one space, or names another scheme, neither the decoder nor the user table matters. */
  lemma HeaderCheckedBeforeDecoding(header: Option<string>, decode1: string -> TokenCheck, users1: set<string>,
                                    decode2: string -> TokenCheck, users2: set<string>)
    requires !Truthy(header) || !OneSpace(header.value) || Lower(Split(header.value, ' ')[0]) != "bearer"
    ensures Authorize(header, decode1, users1) == Authorize(header, decode2, users2)
    ensures StatusCode(Authorize(header, decode1, users1)) != 200
  {
    if Truthy(header) {
      SplitLength(header.value, ' ');
    }
  }

  /** The three refusals of the header itself, each exactly characterised. */
  lemma HeaderOutcomes(header: Option<string>, decode: string -> TokenCheck, users: set<string>)
    ensures Authorize(header, decode, users) == Unauthorized("No authorization header") <==> !Truthy(header)
    ensures Authorize(header, decode, users) == ServerError <==> Truthy(header) && !OneSpace(header.value)
    ensures Authorize(header, decode, users) == Unauthorized("Invalid token type")
        <==> Truthy(header) && OneSpace(header.value) && Lower(Split(header.value, ' ')[0]) != "bearer"
  {
    if Truthy(header) {
      SplitLength(header.value, ' ');
    }
  }

  /** A header written as scheme, one space, token, with "bearer" in any case as the
      scheme, always reaches the decoder with exactly that token. */
  lemma BearerHeaderReachesDecoder(scheme: string, token: string, decode: string -> TokenCheck, users: set<string>)
    requires ' ' !in scheme && ' ' !in token && Lower(scheme) == "bearer"
    ensures var r := Authorize(Some(scheme + " " + token), decode, users);
      && (r.Proceed? <==> decode(token).Decoded? && decode(token).userId in users)
      && (r.Proceed? ==> r.userId == decode(token).userId)
      && (decode(token) == Expired ==> r == Unauthorized("Token has expired"))
      && (decode(token) == InvalidToken ==> r == Unauthorized("Invalid token"))
  {
    SplitAppend(scheme, token, ' ');
    SplitNoSep(token, ' ');
    assert scheme + " " + token == scheme + [' '] + token;
  }

  /** The scheme comparison ignores case: "Bearer", "BEARER" and "bearer" are alike. */
  lemma SchemeCaseInsensitive(scheme1: string, scheme2: string, token: string,
                              decode: string -> TokenCheck, users: set<string>)
    requires ' ' !in scheme1 && ' ' !in scheme2 && ' ' !in token && Lower(scheme1) == Lower(scheme2)
    ensures Authorize(Some(scheme1 + " " + token), decode, users) == Authorize(Some(scheme2 + " " + token), decode, users)
  {
    SplitAppend(scheme1, token, ' ');
    SplitAppend(scheme2, token, ' ');
    SplitNoSep(token, ' ');
    assert scheme1 + " " + token == scheme1 + [' '] + token;
    assert scheme2 + " " + token == scheme2 + [' '] + token;
  }
}
