/** The site-wide HTTP Basic authentication of middleware.ts. The credentials
    travel as base64 of `user-id ":" password`, split at the first colon as
    section 2 of RFC 7617 prescribes, so a password may contain colons and a
    user-id may not. The configuration is read from the environment; here it
    is passed in. */
module Middleware {
  import opened Common
  import opened Text
  import opened Base64

  const DefaultUsername: string := "admin"
  const AuthScheme: string := "Basic "

  /** What the middleware answers: let the request through, or challenge. */
  datatype Response =
    | Next
    | Unauthorized(status: int, body: string, headers: seq<(string, string)>)

  /** `unauthorizedResponse()`: the single challenge every refusal sends. */
  const Challenge: Response := Unauthorized(401, "Authentication required.", [
    ("WWW-Authenticate", "Basic realm=\"Workout Tracker\", charset=\"UTF-8\""),
    ("Cache-Control", "no-store")
  ])

  /** `!value` on an optional string: absent or empty. */
  predicate Falsy(value: Option<string>) {
    value.None? || value.value == ""
  }

  /** `header.startsWith("Basic ")`, case-sensitively. */
  predicate IsBasic(header: string) {
    |header| >= |AuthScheme| && header[..|AuthScheme|] == AuthScheme
  }

  /** `middleware(request)` for the configured `SITE_PASSWORD` and
      `SITE_USERNAME` and the request's `Authorization` header. */
  function Decide(sitePassword: Option<string>, siteUsername: Option<string>, authorization: Option<string>): (r: Response)
    ensures r == Next || r == Challenge
    ensures Falsy(sitePassword) ==> r == Next
    ensures !Falsy(sitePassword) && (Falsy(authorization) || !IsBasic(authorization.value)) ==> r == Challenge
    ensures (!Falsy(sitePassword) && !Falsy(authorization) && IsBasic(authorization.value)
             && Decode(authorization.value[|AuthScheme|..]).None?) ==> r == Challenge
  {
    if Falsy(sitePassword) then Next
    else
      var password := sitePassword.value;
      var username := siteUsername.GetOr(DefaultUsername);
      if Falsy(authorization) || !IsBasic(authorization.value) then Challenge
      else
        var encoded := authorization.value[|AuthScheme|..];
        match Decode(encoded)
        case None => Challenge
        case Some(bytes) =>
          var decoded := BinaryString(bytes);
          var separatorIndex := IndexOf(decoded, ':');
          if separatorIndex == -1 then Challenge
          else
            var providedUsername := decoded[..separatorIndex];
            var providedPassword := decoded[separatorIndex + 1..];
            if providedUsername != username || providedPassword != password then Challenge
            else Next
  }

  /** The decoded credentials of a `Basic` header, when they decode. */
  function Credentials(header: string): Option<string>
    requires IsBasic(header)
  {
    match Decode(header[|AuthScheme|..])
    case None => None
    case Some(bytes) => Some(BinaryString(bytes))
  }

  /** The check after decoding: splitting at the first colon gives the
      configured user-id and password exactly when the text is the user-id,
      a colon and the password, and the user-id has no colon. */
  predicate SplitMatches(decoded: string, username: string, password: string) {
    var separatorIndex := IndexOf(decoded, ':');
    separatorIndex != -1 && decoded[..separatorIndex] == username && decoded[separatorIndex + 1..] == password
  }

  lemma SplitMatchesIff(decoded: string, username: string, password: string)
    ensures SplitMatches(decoded, username, password) <==> decoded == username + ":" + password && ':' !in username
  {
    var i := IndexOf(decoded, ':');
    if i != -1 {
      assert decoded == decoded[..i] + ":" + decoded[i + 1..] by {
        assert decoded == decoded[..i] + [decoded[i]] + decoded[i + 1..];
      }
    }
    if decoded == username + ":" + password && ':' !in username {
      IndexOfAfter(username, ':', password);
      assert decoded[..|username|] == username;
      assert decoded[|username| + 1..] == password;
    }
  }

  /** With a password configured, a request passes exactly when its header
      is `Basic ` followed by base64 that decodes to the configured user-id
      (default "admin"), a colon and the configured password; a user-id with
      a colon in it can never pass. */
  lemma DecidePassesIff(sitePassword: Option<string>, siteUsername: Option<string>, authorization: Option<string>)
    requires !Falsy(sitePassword)
    ensures var username := siteUsername.GetOr(DefaultUsername);
      Decide(sitePassword, siteUsername, authorization) == Next
      <==>
      authorization.Some? && IsBasic(authorization.value)
      && Credentials(authorization.value) == Some(username + ":" + sitePassword.value)
      && ':' !in username
  {
    var username := siteUsername.GetOr(DefaultUsername);
    if authorization.Some? && IsBasic(authorization.value) && Credentials(authorization.value).Some? {
      var decoded := Credentials(authorization.value).value;
      SplitMatchesIff(decoded, username, sitePassword.value);
      assert Decide(sitePassword, siteUsername, authorization) == Next <==> SplitMatches(decoded, username, sitePassword.value);
    }
  }

  /** A client that sends `Basic ` + base64(user-id ":" password) with a
      colon-free user-id and Latin-1 text gets through exactly when both
      parts are the configured ones. */
  lemma ClientCredentials(sitePassword: string, siteUsername: Option<string>, user: string, password: string)
    requires sitePassword != ""
    requires ':' !in user && IsLatin1(user + ":" + password)
    ensures var header := AuthScheme + Encode(Latin1Bytes(user + ":" + password));
      Decide(Some(sitePassword), siteUsername, Some(header)) == Next
      <==> user == siteUsername.GetOr(DefaultUsername) && password == sitePassword
  {
    var plain := user + ":" + password;
    var header := AuthScheme + Encode(Latin1Bytes(plain));
    assert header[..|AuthScheme|] == AuthScheme;
    assert header[|AuthScheme|..] == Encode(Latin1Bytes(plain));
    DecodeEncode(Latin1Bytes(plain));
    assert Credentials(header) == Some(plain);
    DecidePassesIff(Some(sitePassword), siteUsername, Some(header));
    var username := siteUsername.GetOr(DefaultUsername);
    if plain == username + ":" + sitePassword && ':' !in username {
      IndexOfAfter(user, ':', password);
      IndexOfAfter(username, ':', sitePassword);
      assert |user| == |username|;
      assert user == plain[..|user|] && username == plain[..|username|];
      assert password == plain[|user| + 1..] && sitePassword == plain[|username| + 1..];
    }
  }

  /** The challenge advertises UTF-8, but the decoded bytes are read one
      character per byte: a client that sends the UTF-8 bytes of the
      configured password "é" (C3 A9) never gets through. */
  lemma Utf8PasswordRejected(siteUsername: Option<string>, user: string)
    requires IsLatin1(user + ":")
    ensures var header := AuthScheme + Encode(Latin1Bytes(user + ":") + [0xC3, 0xA9]);
      Decide(Some("\U{E9}"), siteUsername, Some(header)) == Challenge
  {
    var bytes := Latin1Bytes(user + ":") + [0xC3, 0xA9];
    var header := AuthScheme + Encode(bytes);
    assert header[..|AuthScheme|] == AuthScheme;
    assert header[|AuthScheme|..] == Encode(bytes);
    DecodeEncode(bytes);
    var decoded := BinaryString(bytes);
    assert Credentials(header) == Some(decoded);
    DecidePassesIff(Some("\U{E9}"), siteUsername, Some(header));
    var expected := siteUsername.GetOr(DefaultUsername) + ":" + "\U{E9}";
    assert decoded[|decoded| - 1] as int == 0xA9;
    assert expected[|expected| - 1] == '\U{E9}';
    assert decoded != expected;
  }
}
