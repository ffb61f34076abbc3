/** The bearer-token gate in front of the protected routes, and the typed lookups the
    handlers behind it use to read the identity it stores in the request context. */
module AuthGate {
  import opened Common
  import opened Text
  import opened Responses

  /** A value stored in gin's per-request key/value map, with its dynamic Go type. */
  datatype CtxValue = IntValue(n: int) | StringValue(s: Bytes) | OtherValue

  type Keys = map<string, CtxValue>

  const USER_ID_KEY: string := "user_id"
  const USERNAME_KEY: string := "username"
  const EMAIL_KEY: string := "email"

  /** The identity a valid token carries. */
  datatype Claims = Claims(userId: int, username: Bytes, email: Bytes)

  /** The token validator (signature, algorithm and expiry checks), as an oracle:
      `None` for a token it rejects. */
  type Validator = Bytes -> Option<Claims>

  const BEARER: Bytes := "Bearer"

  /** `strings.SplitN(s, " ", 2)`: the whole of `s` when it holds no space, otherwise
      the part before the first space and the part after it. */
  function SplitOnce(s: Bytes): (parts: seq<Bytes>)
    ensures |parts| == 1 <==> ' ' !in s
    ensures |parts| == 1 ==> parts[0] == s
    ensures |parts| != 1 ==> |parts| == 2 && s == parts[0] + [' '] + parts[1] && ' ' !in parts[0]
  {
    match IndexOf(s, ' ')
    case None => [s]
    case Some(k) =>
      assert s == s[..k] + [' '] + s[k + 1..];
      [s[..k], s[k + 1..]]
  }

  /** The header names the bearer scheme: it starts with "Bearer" and one space. */
  predicate HasBearerPrefix(header: Bytes) {
    |header| >= 7 && header[..7] == BEARER + [' ']
  }

  /** Splitting at the first space yields "Bearer" and a token exactly when the header
      starts with "Bearer "; the token is then everything after those seven bytes. */
  lemma SplitOnceBearer(header: Bytes)
    ensures |SplitOnce(header)| == 2 && SplitOnce(header)[0] == BEARER <==> HasBearerPrefix(header)
    ensures HasBearerPrefix(header) ==> SplitOnce(header)[1] == header[7..]
  {
    var parts := SplitOnce(header);
    if |parts| == 2 && parts[0] == BEARER {
      assert header[..7] == parts[0] + [' '];
    }
    if HasBearerPrefix(header) {
      assert header[6] == ' ';
      var k := IndexOf(header, ' ').value;
      assert k <= 6 by {
        assert ' ' !in header[..k] && header[6] == ' ';
      }
      assert k >= 6 by {
        assert header[k] == ' ' && forall j :: 0 <= j < 6 ==> header[j] != ' ';
      }
      assert parts == [header[..6], header[7..]];
    }
  }

  /** What the gate decides for one request. */
  datatype Decision = MissingHeader | MalformedHeader | RejectedToken | Admit(claims: Claims)

  /** The gate's decision for an `Authorization` header: in the order the source checks
      them, an empty header, a first word other than "Bearer" (or no space at all), a
      token the validator rejects. */
  function Decide(header: Bytes, validate: Validator): (d: Decision)
    ensures d == MissingHeader <==> header == []
    ensures d == MalformedHeader <==> header != [] && !HasBearerPrefix(header)
    ensures d == RejectedToken <==> HasBearerPrefix(header) && validate(header[7..]).None?
    ensures d.Admit? <==> HasBearerPrefix(header) && validate(header[7..]).Some?
    ensures d.Admit? ==> validate(header[7..]) == Some(d.claims)
  {
    if header == [] then MissingHeader
    else
      var parts := SplitOnce(header);
      SplitOnceBearer(header);
      if |parts| != 2 || parts[0] != BEARER then MalformedHeader
      else
        match validate(parts[1])
        case None => RejectedToken
        case Some(claims) => Admit(claims)
  }

  /** The error text of a refusal. */
  function Refusal(d: Decision): string
    requires !d.Admit?
  {
    match d
    case MissingHeader => "Authorization header is required"
    case MalformedHeader => "Invalid authorization header format"
    case RejectedToken => "Invalid or expired token"
  }

  /** The context keys after the gate stored the token's identity. */
  function WithIdentity(keys: Keys, claims: Claims): (r: Keys)
    ensures r.Keys == keys.Keys + {USER_ID_KEY, USERNAME_KEY, EMAIL_KEY}
    ensures forall k :: k in keys && k !in {USER_ID_KEY, USERNAME_KEY, EMAIL_KEY} ==> r[k] == keys[k]
    ensures r[USER_ID_KEY] == IntValue(claims.userId)
    ensures r[USERNAME_KEY] == StringValue(claims.username) && r[EMAIL_KEY] == StringValue(claims.email)
  {
    keys[USER_ID_KEY := IntValue(claims.userId)]
        [USERNAME_KEY := StringValue(claims.username)]
        [EMAIL_KEY := StringValue(claims.email)]
  }

  /** gin's request context, as far as the gate touches it. */
  class Context {
    const header: Bytes
    var keys: Keys
    var reply: Option<Response>
    var aborted: bool
    var proceeded: bool

    constructor (header: Bytes, keys: Keys)
      ensures this.header == header && this.keys == keys
      ensures reply == None && !aborted && !proceeded
    {
      this.header := header;
      this.keys := keys;
      reply := None;
      aborted := false;
      proceeded := false;
    }

    /** `c.Set(key, value)`. */
    method Set(key: string, value: CtxValue)
      modifies this
      ensures keys == old(keys)[key := value]
      ensures reply == old(reply) && aborted == old(aborted) && proceeded == old(proceeded)
    {
      keys := keys[key := value];
    }

    /** `c.JSON(status, body)`. */
    method Json(status: int, body: Body)
      modifies this
      ensures reply == Some(Response(status, body))
      ensures keys == old(keys) && aborted == old(aborted) && proceeded == old(proceeded)
    {
      reply := Some(Response(status, body));
    }

    /** `c.Abort()`: the handlers after this one do not run. */
    method Abort()
      modifies this
      ensures aborted
      ensures keys == old(keys) && reply == old(reply) && proceeded == old(proceeded)
    {
      aborted := true;
    }

    /** `c.Next()`: the handlers after this one run. */
    method Next()
      modifies this
      ensures proceeded
      ensures keys == old(keys) && reply == old(reply) && aborted == old(aborted)
    {
      proceeded := true;
    }
  }

  /** `AuthMiddleware`: on an admitted request the identity is stored and the chain goes
      on; otherwise a 401 is written, the chain is aborted and no key is stored. */
  method Authenticate(c: Context, validate: Validator)
    modifies c
    ensures var d := Decide(c.header, validate);
      if d.Admit? then
        && c.keys == WithIdentity(old(c.keys), d.claims)
        && c.proceeded && c.aborted == old(c.aborted) && c.reply == old(c.reply)
      else
        && c.keys == old(c.keys)
        && c.aborted && c.proceeded == old(c.proceeded)
        && c.reply == Some(Response(STATUS_UNAUTHORIZED, ErrorBody(Refusal(d))))
  {
    if c.header == [] {
      c.Json(STATUS_UNAUTHORIZED, ErrorBody("Authorization header is required"));
      c.Abort();
      return;
    }
    var parts := SplitOnce(c.header);
    if |parts| != 2 || parts[0] != BEARER {
      c.Json(STATUS_UNAUTHORIZED, ErrorBody("Invalid authorization header format"));
      c.Abort();
      return;
    }
    var checked := validate(parts[1]);
    if checked.None? {
      c.Json(STATUS_UNAUTHORIZED, ErrorBody("Invalid or expired token"));
      c.Abort();
      return;
    }
    var claims := checked.value;
    c.Set(USER_ID_KEY, IntValue(claims.userId));
    c.Set(USERNAME_KEY, StringValue(claims.username));
    c.Set(EMAIL_KEY, StringValue(claims.email));
    c.Next();
  }

  /** `GetUserID`: the stored id, or `(0, false)` when it is missing or not an `int`. */
  function GetUserID(keys: Keys): (r: (int, bool))
    ensures r.1 <==> USER_ID_KEY in keys && keys[USER_ID_KEY].IntValue?
    ensures r.0 == if r.1 then keys[USER_ID_KEY].n else 0
  {
    if USER_ID_KEY in keys && keys[USER_ID_KEY].IntValue? then (keys[USER_ID_KEY].n, true) else (0, false)
  }

  /** `GetUsername`: the stored username, or `("", false)` when it is missing or not a string. */
  function GetUsername(keys: Keys): (r: (Bytes, bool))
    ensures r.1 <==> USERNAME_KEY in keys && keys[USERNAME_KEY].StringValue?
    ensures r.0 == if r.1 then keys[USERNAME_KEY].s else []
  {
    if USERNAME_KEY in keys && keys[USERNAME_KEY].StringValue? then (keys[USERNAME_KEY].s, true) else ([], false)
  }

  /** `GetEmail`: the stored email, or `("", false)` when it is missing or not a string. */
  function GetEmail(keys: Keys): (r: (Bytes, bool))
    ensures r.1 <==> EMAIL_KEY in keys && keys[EMAIL_KEY].StringValue?
    ensures r.0 == if r.1 then keys[EMAIL_KEY].s else []
  {
    if EMAIL_KEY in keys && keys[EMAIL_KEY].StringValue? then (keys[EMAIL_KEY].s, true) else ([], false)
  }

  /** The lookups give back exactly the identity the gate stored, whatever the context
      held before. */
  lemma IdentityRoundTrip(keys: Keys, claims: Claims)
    ensures GetUserID(WithIdentity(keys, claims)) == (claims.userId, true)
    ensures GetUsername(WithIdentity(keys, claims)) == (claims.username, true)
    ensures GetEmail(WithIdentity(keys, claims)) == (claims.email, true)
  {
    var k := WithIdentity(keys, claims);
    assert USER_ID_KEY != USERNAME_KEY && USER_ID_KEY != EMAIL_KEY;
    assert USERNAME_KEY != EMAIL_KEY;
    assert k[USER_ID_KEY] == IntValue(claims.userId);
  }

  /** A request is admitted exactly when its header is "Bearer " followed by a token the
      validator accepts; then the lookups behind the gate yield that token's identity. */
  lemma AdmittedIdentity(header: Bytes, validate: Validator, keys: Keys)
    requires Decide(header, validate).Admit?
    ensures HasBearerPrefix(header)
    ensures var claims := validate(header[7..]).value;
      && GetUserID(WithIdentity(keys, claims)) == (claims.userId, true)
      && GetUsername(WithIdentity(keys, claims)) == (claims.username, true)
      && GetEmail(WithIdentity(keys, claims)) == (claims.email, true)
  {
    IdentityRoundTrip(keys, validate(header[7..]).value);
  }
}
