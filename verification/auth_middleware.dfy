/** The bearer-token middleware of backend/middleware/authMiddleware.js as one
    sequential step: from the `Authorization` header to what the middleware did
    with the request. Token verification and the user lookup are parameters,
    partial functions whose failure (a thrown exception) is `None` / `Threw`. */
module AuthMiddleware {
  import opened Wrappers
  import opened JsStrings

  /** A stored user; the fields other than the password are kept opaque. */
  datatype Account = Account(id: string, fields: map<string, string>, password: string)

  /** A user as attached to the request: the account without its password. */
  datatype Identity = Identity(id: string, fields: map<string, string>)

  function WithoutPassword(a: Account): Identity
  {
    Identity(a.id, a.fields)
  }

  /** What the lookup by the decoded id does: throw, resolve to null, or find an account. */
  datatype Lookup = Threw | NotFound | Found(account: Account)

  /** `req.user` after the middleware: never assigned, assigned null, or assigned a user. */
  datatype RequestUser = Unset | Null | User(identity: Identity)

  datatype Response = Response(status: nat, message: string)

  const NoToken := Response(401, "Not authorized, no token")
  const TokenFailed := Response(401, "Not authorized, token failed")

  /** Everything the middleware does to a request, in order: whether it called
      verify, what it left in `req.user`, how often it called `next`, and the
      responses it sent (a list, since it can send two). */
  datatype Outcome = Outcome(verifyCalled: bool, user: RequestUser, nextCalls: nat, responses: seq<Response>)

  /** The header test: present, non-empty and starting with "Bearer" (no space). */
  predicate HasBearerPrefix(header: Option<string>)
  {
    header.Some? && header.value != "" && StartsWith(header.value, "Bearer")
  }

  /** `header.split(" ")[1]`: the second space-separated field, if any. */
  function ExtractToken(header: string): Option<string>
  {
    var fields := Split(header, ' ');
    if |fields| >= 2 then Some(fields[1]) else None
  }

  /** `t` is the text between the space at `i`, the first in `h`, and the next
      space (or the end). */
  ghost predicate SecondFieldAt(h: string, t: string, i: nat)
  {
    && i + 1 + |t| <= |h|
    && h[i] == ' ' && ' ' !in h[..i]
    && h[i + 1..i + 1 + |t|] == t && ' ' !in t
    && (i + 1 + |t| == |h| || h[i + 1 + |t|] == ' ')
  }

  ghost predicate IsSecondField(h: string, t: string)
  {
    exists i: nat :: SecondFieldAt(h, t, i)
  }

  /** The extracted token is exactly the second field: there is one iff the
      header has a space, and it is what lies between the first space and the
      next one. */
  lemma ExtractTokenIsSecondField(h: string, t: string)
    ensures ExtractToken(h).None? <==> ' ' !in h
    ensures ExtractToken(h) == Some(t) <==> IsSecondField(h, t)
  {
    match IndexOf(h, ' ')
    case None =>
    case Some(i) =>
      var tok := TokenAt(h, i);
      if IsSecondField(h, t) {
        var i': nat :| SecondFieldAt(h, t, i');
        SecondFieldUnique(h, t, i', tok, i);
      }
  }

  /** With the first space at `i`, the extracted token is the second field at `i`. */
  lemma TokenAt(h: string, i: nat) returns (tok: string)
    requires IndexOf(h, ' ') == Some(i)
    ensures ExtractToken(h) == Some(tok) && SecondFieldAt(h, tok, i)
  {
    var rest := h[i + 1..];
    assert Split(h, ' ') == [h[..i]] + Split(rest, ' ');
    tok := Split(rest, ' ')[0];
    match IndexOf(rest, ' ')
    case None =>
      assert tok == rest;
    case Some(j) =>
      assert tok == rest[..j];
      assert h[i + 1 + j] == rest[j];
  }

  /** A header has at most one second field. */
  lemma SecondFieldUnique(h: string, t: string, i: nat, u: string, k: nat)
    requires SecondFieldAt(h, t, i) && SecondFieldAt(h, u, k)
    ensures t == u
  {
  }

  /** Sample headers: the token is the second field, absent without a space
      (whatever follows "Bearer"), and empty between two adjacent spaces. */
  lemma SampleTokenPresent()
    ensures ExtractToken("Bearer abc") == Some("abc")
  {
    var h := "Bearer abc";
    assert h[..6] == "Bearer";
    assert SecondFieldAt(h, "abc", 6);
    ExtractTokenIsSecondField(h, "abc");
  }

  lemma SampleTokenAbsent()
    ensures ExtractToken("Bearer") == None
    ensures ExtractToken("Bearerabc") == None
  {
    ExtractTokenIsSecondField("Bearer", "");
    ExtractTokenIsSecondField("Bearerabc", "");
  }

  lemma SampleTokenEmpty()
    ensures ExtractToken("Bearer  abc") == Some("")
  {
    var h := "Bearer  abc";
    assert h[..6] == "Bearer";
    assert SecondFieldAt(h, "", 6);
    ExtractTokenIsSecondField(h, "");
  }

  /** JavaScript truthiness of the token variable: defined and non-empty. */
  predicate Truthy(token: Option<string>)
  {
    token.Some? && token.value != ""
  }

  /** The try block runs to `next()`: verify accepts the token and the lookup does not throw. */
  predicate TryCompletes<C>(verify: Option<string> -> Option<C>, lookup: C -> Lookup, token: Option<string>)
  {
    verify(token).Some? && !lookup(verify(token).value).Threw?
  }

  /** What `req.user = await User.findById(...).select("-password")` stores. */
  function Attached(l: Lookup): (u: RequestUser)
    requires !l.Threw?
    ensures l.NotFound? <==> u == Null
    ensures l.Found? ==> u == User(WithoutPassword(l.account))
  {
    match l
    case NotFound => Null
    case Found(a) => User(WithoutPassword(a))
  }

  /** `authMiddleware`, as written. */
  function Middleware<C>(header: Option<string>, verify: Option<string> -> Option<C>, lookup: C -> Lookup): (o: Outcome)
    // no usable header: verify is not called, `next` is not called, one "no token" response
    ensures !HasBearerPrefix(header) ==> o == Outcome(false, Unset, 0, [NoToken])
    ensures HasBearerPrefix(header) ==> o.verifyCalled
    // with a Bearer header, whatever the token: `next` runs exactly when the try block completes,
    // and then `req.user` holds the lookup's result, even null; otherwise it is never assigned
    ensures HasBearerPrefix(header) ==>
              (o.nextCalls == 1 <==> TryCompletes(verify, lookup, ExtractToken(header.value)))
    ensures HasBearerPrefix(header) && TryCompletes(verify, lookup, ExtractToken(header.value)) ==>
              o.user == Attached(lookup(verify(ExtractToken(header.value)).value))
    ensures HasBearerPrefix(header) && !TryCompletes(verify, lookup, ExtractToken(header.value)) ==>
              o.user == Unset && o.nextCalls == 0
    // a non-empty token: no response when the try block completes, one "token failed" otherwise
    ensures HasBearerPrefix(header) && Truthy(ExtractToken(header.value)) ==>
              o.responses == (if TryCompletes(verify, lookup, ExtractToken(header.value)) then [] else [TokenFailed])
    // an absent or empty token always draws "no token", after "token failed" if the try block failed
    ensures HasBearerPrefix(header) && !Truthy(ExtractToken(header.value)) ==>
              && |o.responses| >= 1 && o.responses[|o.responses| - 1] == NoToken
              && (TryCompletes(verify, lookup, ExtractToken(header.value)) ==> o.responses == [NoToken])
              && (!TryCompletes(verify, lookup, ExtractToken(header.value)) ==> o.responses == [TokenFailed, NoToken])
    ensures o.nextCalls <= 1
    ensures o.nextCalls == 1 <==> o.user != Unset
    ensures |o.responses| <= 2
  {
    if !HasBearerPrefix(header) then Outcome(false, Unset, 0, [NoToken])
    else
      var token := ExtractToken(header.value);
      var tried :=
        match verify(token)
        case None => Outcome(true, Unset, 0, [TokenFailed])
        case Some(claims) =>
          match lookup(claims)
          case Threw => Outcome(true, Unset, 0, [TokenFailed])
          case NotFound => Outcome(true, Attached(NotFound), 1, [])
          case Found(a) => Outcome(true, Attached(Found(a)), 1, []);
      if Truthy(token) then tried else tried.(responses := tried.responses + [NoToken])
  }

  /** One outcome per request, as each branch of the code sets out to give:
      the request is either passed on once with a user attached, or rejected
      with exactly one response. */
  predicate SingleOutcome(o: Outcome)
  {
    || (o.nextCalls == 1 && o.user.User? && o.responses == [])
    || (o.nextCalls == 0 && o.user == Unset && |o.responses| == 1)
  }

  /** A bare "Bearer" header whose absent token verify rejects (as the usual
      library does) draws two responses. */
  lemma DoubleResponseOnBareScheme<C>(verify: Option<string> -> Option<C>, lookup: C -> Lookup)
    requires verify(None).None?
    ensures Middleware(Some("Bearer"), verify, lookup).responses == [TokenFailed, NoToken]
    ensures !SingleOutcome(Middleware(Some("Bearer"), verify, lookup))
  {
    SampleTokenAbsent();
  }

  /** A verified token for an id with no account passes the request on with
      `req.user` set to null. */
  lemma NullUserForwarded<C>(verify: Option<string> -> Option<C>, lookup: C -> Lookup)
    requires verify(Some("abc")).Some? && lookup(verify(Some("abc")).value) == NotFound
    ensures Middleware(Some("Bearer abc"), verify, lookup) == Outcome(true, Null, 1, [])
    ensures !SingleOutcome(Middleware(Some("Bearer abc"), verify, lookup))
  {
    SampleTokenPresent();
  }

  /** An empty token that verify accepts is both passed on, with the looked-up
      user attached, and answered "no token". */
  lemma EmptyTokenForwardedAndRejected<C>(verify: Option<string> -> Option<C>, lookup: C -> Lookup)
    requires verify(Some("")).Some? && lookup(verify(Some("")).value).Found?
    ensures var o := Middleware(Some("Bearer  abc"), verify, lookup);
            && o.nextCalls == 1 && o.user == User(WithoutPassword(lookup(verify(Some("")).value).account))
            && o.responses == [NoToken]
            && !SingleOutcome(o)
  {
    var h := "Bearer  abc";
    assert h[..6] == "Bearer";
    assert HasBearerPrefix(Some(h));
    SampleTokenEmpty();
    assert !Truthy(ExtractToken(h));
  }

  /** The middleware as evidently intended: a Bearer header without a usable
      token fails closed with "token failed" (what a `return` after the catch's
      response would give), and a lookup that finds no account fails the token
      like one that throws. Only a missing or non-Bearer header draws "no token". */
  function MiddlewareIntended<C>(header: Option<string>, verify: Option<string> -> Option<C>, lookup: C -> Lookup): (o: Outcome)
    ensures SingleOutcome(o)
    ensures o.responses == [NoToken] <==> !HasBearerPrefix(header)
    ensures HasBearerPrefix(header) && o.nextCalls == 0 ==> o.responses == [TokenFailed]
    ensures o.nextCalls == 1 <==>
              && HasBearerPrefix(header) && Truthy(ExtractToken(header.value))
              && verify(ExtractToken(header.value)).Some?
              && lookup(verify(ExtractToken(header.value)).value).Found?
    ensures o.nextCalls == 1 ==>
              o.user == User(WithoutPassword(lookup(verify(ExtractToken(header.value)).value).account))
    ensures o.verifyCalled <==> HasBearerPrefix(header) && Truthy(ExtractToken(header.value))
  {
    if !HasBearerPrefix(header) then Outcome(false, Unset, 0, [NoToken])
    else
      var token := ExtractToken(header.value);
      if !Truthy(token) then Outcome(false, Unset, 0, [TokenFailed])
      else
        match verify(token)
        case None => Outcome(true, Unset, 0, [TokenFailed])
        case Some(claims) =>
          match lookup(claims)
          case Found(a) => Outcome(true, User(WithoutPassword(a)), 1, [])
          case _ => Outcome(true, Unset, 0, [TokenFailed])
  }

  /** The two versions differ exactly on the inputs of the two defects: a
      Bearer header with an absent or empty token, and a verified token whose
      lookup finds no account. */
  lemma IntendedDiffersOnlyOnDefects<C>(header: Option<string>, verify: Option<string> -> Option<C>, lookup: C -> Lookup)
    ensures Middleware(header, verify, lookup) == MiddlewareIntended(header, verify, lookup) <==>
              || !HasBearerPrefix(header)
              || (&& Truthy(ExtractToken(header.value))
                  && (verify(ExtractToken(header.value)).None?
                      || !lookup(verify(ExtractToken(header.value)).value).NotFound?))
  {
  }
}
