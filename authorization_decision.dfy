/** The decision reached on the authorization (consent) page of an OAuth 2.0 /
    OpenID Connect authorization server: whether the end-user approved the
    client's request, which user logged in, when, and what that user's claims
    are. The form parameters are read once, at construction; afterwards the
    object is only read.

    Collaborators the component only calls are parameters here: the user
    directory is an object whose credential lookup is a function value and
    which records every query it answers; the wall clock is a number of
    milliseconds since the Unix epoch. */
module AuthorizationDecision {

  datatype Option<T> = None | Some(value: T)

  /** The form parameters of the authorization page: each field name mapped
      to the values submitted under it, in order. */
  type Parameters = map<string, seq<string>>

  /** A user of the directory: a subject (unique identifier) and a claim
      lookup by claim name and optional language tag. A claim may be absent. */
  datatype User<V> = User(subject: string, claim: (string, Option<string>) -> Option<V>)

  /** The directory's credential lookup: login id and password (either may be
      absent) to the user having them, if any. */
  type UserLookup<V> = (Option<string>, Option<string>) -> Option<User<V>>

  /** Present when the end-user pressed "Authorize"; its values are never read. */
  const Authorized: string := "authorized"
  const LoginId: string := "loginId"
  const Password: string := "password"

  /** A property to be associated with an issued access token or
      authorization code; its contents are not part of this model. */
  type Property

  /** The first value submitted under `key`, or None when the key is absent
      or carries no value. */
  function GetFirst(parameters: Parameters, key: string): (r: Option<string>)
    ensures r.None? <==> key !in parameters || |parameters[key]| == 0
    ensures r.Some? ==> |parameters[key]| > 0 && r.value == parameters[key][0]
  {
    if key in parameters && |parameters[key]| > 0 then Some(parameters[key][0]) else None
  }

  /** The user directory. `byCredentials` says whom it returns for each pair
      of credentials; `calls` logs the queries made to it, in order. */
  class UserDao<V> {
    const byCredentials: UserLookup<V>
    ghost var calls: seq<(Option<string>, Option<string>)>

    constructor (byCredentials: UserLookup<V>)
      ensures this.byCredentials == byCredentials && calls == []
    {
      this.byCredentials := byCredentials;
      calls := [];
    }

    /** The user having the login id and password, if any; the query is logged. */
    method GetByCredentials(loginId: Option<string>, password: Option<string>) returns (u: Option<User<V>>)
      modifies this
      ensures calls == old(calls) + [(loginId, password)]
      ensures u == byCredentials(loginId, password)
    {
      calls := calls + [(loginId, password)];
      u := byCredentials(loginId, password);
    }
  }

  /** Look up the end-user whose credentials were entered on the form: one
      query, with the first login id and the first password submitted. */
  method GetUser<V>(parameters: Parameters, dao: UserDao<V>) returns (u: Option<User<V>>)
    modifies dao
    ensures dao.calls == old(dao.calls) + [(GetFirst(parameters, LoginId), GetFirst(parameters, Password))]
    ensures u == dao.byCredentials(GetFirst(parameters, LoginId), GetFirst(parameters, Password))
  {
    u := dao.GetByCredentials(GetFirst(parameters, LoginId), GetFirst(parameters, Password));
  }

  /** The values of the four fields of a handler once it is constructed. */
  datatype Decision<V> = Decision(
    clientAuthorized: bool,
    user: Option<User<V>>,
    userAuthenticatedAt: nat,
    userSubject: Option<string>)

  /** The invariant the fields keep: a user is only recorded on approval,
      and the subject and the authentication time are recorded with the user
      and only with it, the subject being that user's. */
  ghost predicate Consistent<V>(d: Decision<V>)
  {
    && (!d.clientAuthorized ==> d.user.None?)
    && (d.user.None? ==> d.userSubject.None? && d.userAuthenticatedAt == 0)
    && (d.user.Some? ==> d.userSubject == Some(d.user.value.subject))
  }

  /** The decision reached from the form parameters, the directory and the
      clock: the specification of the handler's constructor. */
  function Resolve<V>(parameters: Parameters, lookup: UserLookup<V>, nowMillis: nat): (d: Decision<V>)
    ensures Consistent(d)
    // Denied: only the absence of the "authorized" field decides it.
    ensures Authorized !in parameters ==>
      !d.clientAuthorized && d.user.None? && d.userSubject.None? && d.userAuthenticatedAt == 0
    // Approved, but nobody has the credentials.
    ensures Authorized in parameters && lookup(GetFirst(parameters, LoginId), GetFirst(parameters, Password)).None? ==>
      d.clientAuthorized && d.user.None? && d.userSubject.None? && d.userAuthenticatedAt == 0
    // Approved and authenticated just now, in whole seconds.
    ensures Authorized in parameters && lookup(GetFirst(parameters, LoginId), GetFirst(parameters, Password)).Some? ==>
      && d.clientAuthorized
      && d.user == lookup(GetFirst(parameters, LoginId), GetFirst(parameters, Password))
      && d.userSubject == Some(d.user.value.subject)
      && d.userAuthenticatedAt == nowMillis / 1000
  {
    if Authorized !in parameters then
      Decision(false, None, 0, None)
    else
      match lookup(GetFirst(parameters, LoginId), GetFirst(parameters, Password))
      case None => Decision(true, None, 0, None)
      case Some(u) => Decision(true, Some(u), nowMillis / 1000, Some(u.subject))
  }

  /** The invariant describes exactly the decisions the constructor can reach:
      each consistent decision is the outcome of some form, directory and
      clock, and every outcome is consistent. */
  lemma ReachableIffConsistent<V>(d: Decision<V>)
    ensures Consistent(d) <==>
      exists parameters: Parameters, lookup: UserLookup<V>, nowMillis: nat :: Resolve(parameters, lookup, nowMillis) == d
  {
    if Consistent(d) {
      var nowMillis := d.userAuthenticatedAt * 1000;
      if !d.clientAuthorized {
        var none: UserLookup<V> := (l: Option<string>, p: Option<string>) => None;
        assert Resolve(map[], none, 0) == d;
      } else if d.user.None? {
        var none: UserLookup<V> := (l: Option<string>, p: Option<string>) => None;
        var approve: Parameters := map[Authorized := []];
        assert Resolve(approve, none, 0) == d;
      } else {
        var u := d.user.value;
        var always: UserLookup<V> := (l: Option<string>, p: Option<string>) => Some(u);
        var approve: Parameters := map[Authorized := []];
        assert Resolve(approve, always, nowMillis) == d;
      }
    }
    if exists parameters: Parameters, lookup: UserLookup<V>, nowMillis: nat :: Resolve(parameters, lookup, nowMillis) == d {
      var parameters: Parameters, lookup: UserLookup<V>, nowMillis: nat :| Resolve(parameters, lookup, nowMillis) == d;
    }
  }

  /** Only the presence of "authorized" and the first values of "loginId" and
      "password" matter: two forms that agree on those reach the same
      decision, whatever else they hold. */
  lemma DecidedByRecognisedFields<V>(p: Parameters, q: Parameters, lookup: UserLookup<V>, nowMillis: nat)
    requires Authorized in p <==> Authorized in q
    requires GetFirst(p, LoginId) == GetFirst(q, LoginId)
    requires GetFirst(p, Password) == GetFirst(q, Password)
    ensures Resolve(p, lookup, nowMillis) == Resolve(q, lookup, nowMillis)
  {
  }

  /** The values submitted under "authorized" are never inspected. */
  lemma AuthorizedValueIgnored<V>(p: Parameters, values: seq<string>, lookup: UserLookup<V>, nowMillis: nat)
    requires Authorized in p
    ensures Resolve(p[Authorized := values], lookup, nowMillis) == Resolve(p, lookup, nowMillis)
  {
  }

  /** A denial depends neither on the directory nor on the clock. */
  lemma DenialIgnoresLookupAndClock<V>(p: Parameters, lookup1: UserLookup<V>, now1: nat, lookup2: UserLookup<V>, now2: nat)
    requires Authorized !in p
    ensures Resolve(p, lookup1, now1) == Resolve(p, lookup2, now2)
  {
  }

  /** Zero stands for "not authenticated" only from the first second after
      the epoch on: before it, an authenticated user is recorded with time 0. */
  lemma AuthenticatedAtZeroIffNoUser<V>(p: Parameters, lookup: UserLookup<V>, nowMillis: nat)
    ensures nowMillis >= 1000 ==>
      (Resolve(p, lookup, nowMillis).userAuthenticatedAt == 0 <==> Resolve(p, lookup, nowMillis).user.None?)
    ensures nowMillis < 1000 ==> Resolve(p, lookup, nowMillis).userAuthenticatedAt == 0
  {
  }

  /** The handler of the decision made on the authorization page. */
  class AuthorizationDecisionHandlerSpiImpl<V> {
    /** Whether the end-user granted the client's request. */
    const clientAuthorized: bool
    /** The authenticated user, if any. */
    var user: Option<User<V>>
    /** When the user was authenticated, in seconds since the Unix epoch. */
    var userAuthenticatedAt: nat
    /** The subject of the authenticated user, if any. */
    var userSubject: Option<string>

    function State(): Decision<V>
      reads this
    {
      Decision(clientAuthorized, user, userAuthenticatedAt, userSubject)
    }

    ghost predicate Valid()
      reads this
    {
      Consistent(State())
    }

    /** Read the form of the authorization page. The directory is consulted
        at most once, and not at all on a denial. */
    constructor (parameters: Parameters, dao: UserDao<V>, nowMillis: nat)
      modifies dao
      ensures Valid()
      ensures State() == Resolve(parameters, dao.byCredentials, nowMillis)
      ensures dao.calls == old(dao.calls) +
        if Authorized in parameters then [(GetFirst(parameters, LoginId), GetFirst(parameters, Password))] else []
    {
      clientAuthorized := Authorized in parameters;
      user := None;
      userAuthenticatedAt := 0;
      userSubject := None;
      new;
      if !clientAuthorized {
        return;
      }
      user := GetUser(parameters, dao);
      if user.None? {
        return;
      }
      userAuthenticatedAt := nowMillis / 1000;
      userSubject := Some(user.value.subject);
    }

    /** True if the end-user granted the request; a denial records nothing else. */
    function IsClientAuthorized(): (r: bool)
      reads this
      requires Valid()
      ensures !r ==> user.None? && userSubject.None? && userAuthenticatedAt == 0
    {
      clientAuthorized
    }

    /** The authentication time in seconds since the epoch, 0 if nobody
        was authenticated. */
    function GetUserAuthenticatedAt(): (r: nat)
      reads this
      requires Valid()
      ensures r != 0 ==> clientAuthorized && user.Some?
    {
      userAuthenticatedAt
    }

    /** The subject of the authenticated user; present exactly when a user was
        authenticated, and then that user's. */
    function GetUserSubject(): (r: Option<string>)
      reads this
      requires Valid()
      ensures r.Some? <==> user.Some?
      ensures r.Some? ==> clientAuthorized && r.value == user.value.subject
    {
      userSubject
    }

    /** The claim of the authenticated user, passed through unchanged. Only to
        be asked once the subject is known, which guarantees there is a user. */
    function GetUserClaim(claimName: string, languageTag: Option<string>): (r: Option<V>)
      reads this
      requires Valid()
      requires GetUserSubject().Some?
      ensures user.Some? && r == user.value.claim(claimName, languageTag)
    {
      user.value.claim(claimName, languageTag)
    }

    /** No extra properties are attached to the issued token or code. */
    function GetProperties(): (r: Option<seq<Property>>)
      ensures r.None?
    {
      None
    }
  }

  /** The consent-page scenarios, as a caller sees them through the
      constructor's contract and the accessors' definitions. */
  method ConsentPageScenarios(nowMillis: nat)
  {
    var noClaims := (name: string, tag: Option<string>) => None;
    var alice: User<string> := User("u-123", noClaims);
    var directory: UserLookup<string> := (l: Option<string>, p: Option<string>) =>
      if l == Some("alice") && p == Some("correct") then Some(alice) else None;
    var dao := new UserDao(directory);

    // Nothing submitted: denied.
    var empty := new AuthorizationDecisionHandlerSpiImpl(map[], dao, nowMillis);
    assert !empty.IsClientAuthorized() && empty.GetUserSubject().None?;
    assert empty.GetUserAuthenticatedAt() == 0;
    assert dao.calls == [];

    // Approved without credentials: the directory is asked with neither.
    var bare := new AuthorizationDecisionHandlerSpiImpl(map[Authorized := ["true"]], dao, nowMillis);
    assert bare.IsClientAuthorized() && bare.GetUserSubject().None?;
    assert bare.GetUserAuthenticatedAt() == 0;
    assert dao.calls == [(None, None)];

    // Approved with the right password: alice, authenticated now.
    var good: Parameters := map[Authorized := ["true"], LoginId := ["alice"], Password := ["correct"]];
    var ok := new AuthorizationDecisionHandlerSpiImpl(good, dao, nowMillis);
    assert ok.IsClientAuthorized() && ok.GetUserSubject() == Some("u-123");
    assert ok.GetUserAuthenticatedAt() == nowMillis / 1000;
    assert ok.GetUserClaim("name", None) == None;
    assert ok.GetProperties().None?;
    assert dao.calls == [(None, None), (Some("alice"), Some("correct"))];

    // Approved with a wrong password: approved, but nobody logged in.
    var bad := new AuthorizationDecisionHandlerSpiImpl(good[Password := ["wrong"]], dao, nowMillis);
    assert bad.IsClientAuthorized() && bad.GetUserSubject().None?;
    assert bad.GetUserAuthenticatedAt() == 0;
    assert dao.calls == [(None, None), (Some("alice"), Some("correct")), (Some("alice"), Some("wrong"))];
  }
}
