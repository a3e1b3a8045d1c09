# Authorization decision of the consent page

A model of `AuthorizationDecisionHandlerSpiImpl` from java-oauth-server. This is
the object that turns the form posted from the authorization (consent) page
of an OAuth 2.0 / OpenID Connect server into an authorization decision. It
answers four questions: did the end-user approve the client's request, which
user logged in, at what time, and what are that user's claims.

The constructor reads the form once and ends in one of three ways:

- **denied**: the form has no `authorized` field;
- **approved, not authenticated**: `authorized` is present, but nobody in the
  user directory has the submitted login id and password;
- **approved and authenticated**: the directory returns a user. The
  constructor then records the user, the user's subject and the login time in
  whole seconds since the Unix epoch.

After that the object is only read.

The model is in `authorization_decision.dfy`, in module `AuthorizationDecision`:

- `Resolve` is a pure function giving the field values the constructor
  reaches. Its contract lists the three outcomes.
- The predicate `Consistent` is the invariant those fields keep.
- The class `AuthorizationDecisionHandlerSpiImpl` has the source's four
  fields. `clientAuthorized` is a `const` because the Java field is `final`.
  The constructor has the source's two early returns. It is proved to reach
  `Resolve`'s result and to keep the invariant.
- The user directory is a class `UserDao`. Its only query method,
  `GetByCredentials`, appends its arguments to the ghost log `calls` each time
  it is called. The constructor's contract states the log as old log plus
  new entries: nothing on a denial, exactly one query on an approval.
- The accessors are functions over the fields. They cannot change state, so
  repeated calls return identical values.

The model's stand-ins for the source's collaborators:

- `MultivaluedMap<String, String>` is `map<string, seq<string>>`.
- `getFirst` is `GetFirst`. It gives `None`, in place of `null`, when the key
  is absent or its list is empty.
- `UserDao` is an object passed to the constructor. Whom it returns for each
  pair of credentials is the function value `byCredentials` (`UserLookup`),
  taking an optional login id and an optional password.
- `System.currentTimeMillis()` is the constructor argument `nowMillis`.
- `User` is a datatype holding a subject and a claim function. Claim values
  have the type parameter `V`, which stands for Java's `Object`. A missing
  claim is `None`.
- The private static `getUser` is the method `GetUser`. It makes one query,
  with the first `loginId` value and the first `password` value.
- `Property` is an abstract type, because only `None` is ever returned.

`ConsentPageScenarios` is a client method. It builds handlers for four forms
against a directory that holds one user: an empty form, an approval with no
credentials, the right password and a wrong password. It proves what each
accessor returns and which queries reached the directory, using the
constructor's contract and the accessors' definitions.

One edge of the code is worth stating. The authentication time is
`System.currentTimeMillis() / 1000`, modelled as `nowMillis / 1000`. So 0,
the value the field keeps when nobody is authenticated, is also what an
authenticated user gets when the clock reads less than one second after the
epoch. "The time is non-zero exactly when a user is recorded"
therefore holds only from `nowMillis >= 1000` on (`AuthenticatedAtZeroIffNoUser`).
The invariant claims only the safe direction: a non-zero time, or a subject,
implies a recorded user and an approval.

## Model

| member | source | states |
|---|---|---|
| `AuthorizationDecision.GetFirst` | src/main/java/com/authlete/jaxrs/server/api/AuthorizationDecisionHandlerSpiImpl.java:111-112 | the first value under a field name. It is absent exactly when the field is missing or has no values, and otherwise it is the head of the field's list |
| `AuthorizationDecision.UserDao.GetByCredentials` | src/main/java/com/authlete/jaxrs/server/api/AuthorizationDecisionHandlerSpiImpl.java:110-112 | the directory's answer for the given login id and password. Each query is appended to the directory's log, and nothing else changes |
| `AuthorizationDecision.GetUser` | src/main/java/com/authlete/jaxrs/server/api/AuthorizationDecisionHandlerSpiImpl.java:107-113 | exactly one directory query, with the first `loginId` value and the first `password` value (`None` where absent). The result is the directory's answer for those credentials |
| `AuthorizationDecision.Resolve` | src/main/java/com/authlete/jaxrs/server/api/AuthorizationDecisionHandlerSpiImpl.java:74-113 | the three outcomes. Approval is the mere presence of `authorized`. A denial records no user, no subject and time 0. An approval asks the directory with the first `loginId` and `password` values. A miss leaves user, subject and time unset. A hit records that user, the user's subject and `nowMillis / 1000`. Every outcome satisfies the invariant |
| `AuthorizationDecision.ReachableIffConsistent` | src/main/java/com/authlete/jaxrs/server/api/AuthorizationDecisionHandlerSpiImpl.java:78-100 | the invariant is exact, in both directions. A field state satisfies it if and only if the constructor reaches that state for some form, directory and clock |
| `AuthorizationDecision.DecidedByRecognisedFields` | src/main/java/com/authlete/jaxrs/server/api/AuthorizationDecisionHandlerSpiImpl.java:78-112 | two forms that agree on whether `authorized` is present, and on the first `loginId` and `password` values, give the same decision. All other fields and later values are ignored |
| `AuthorizationDecision.AuthorizedValueIgnored` | src/main/java/com/authlete/jaxrs/server/api/AuthorizationDecisionHandlerSpiImpl.java:78 | replacing the values submitted under `authorized` never changes the decision. Only the key's presence counts |
| `AuthorizationDecision.DenialIgnoresLookupAndClock` | src/main/java/com/authlete/jaxrs/server/api/AuthorizationDecisionHandlerSpiImpl.java:78-84 | without `authorized`, the decision is the same for every directory and every clock: the denial short-circuits |
| `AuthorizationDecision.AuthenticatedAtZeroIffNoUser` | src/main/java/com/authlete/jaxrs/server/api/AuthorizationDecisionHandlerSpiImpl.java:90-97 | from one second after the epoch on, the recorded time is 0 exactly when no user is recorded. Before that, it is always 0 |
| `AuthorizationDecision.AuthorizationDecisionHandlerSpiImpl.constructor` | src/main/java/com/authlete/jaxrs/server/api/AuthorizationDecisionHandlerSpiImpl.java:74-113 | the fields end as `Resolve` says for the directory's lookup and keep the invariant. The directory's log grows by nothing on a denial, and on an approval by exactly one query, with the first `loginId` and `password` values |
| `AuthorizationDecision.AuthorizationDecisionHandlerSpiImpl.IsClientAuthorized` | src/main/java/com/authlete/jaxrs/server/api/AuthorizationDecisionHandlerSpiImpl.java:116-121 | the approval flag. When it is false, no user, no subject and time 0 are recorded |
| `AuthorizationDecision.AuthorizationDecisionHandlerSpiImpl.GetUserAuthenticatedAt` | src/main/java/com/authlete/jaxrs/server/api/AuthorizationDecisionHandlerSpiImpl.java:124-130 | the authentication time in seconds. A non-zero value implies approval and a recorded user |
| `AuthorizationDecision.AuthorizationDecisionHandlerSpiImpl.GetUserSubject` | src/main/java/com/authlete/jaxrs/server/api/AuthorizationDecisionHandlerSpiImpl.java:133-138 | the subject is present if and only if a user is recorded, and then it is that user's subject, under an approval |
| `AuthorizationDecision.AuthorizationDecisionHandlerSpiImpl.GetUserClaim` | src/main/java/com/authlete/jaxrs/server/api/AuthorizationDecisionHandlerSpiImpl.java:141-147 | callable once the subject is non-null, which guarantees that a user is recorded. It returns that user's claim for the same name and language tag, unchanged |
| `AuthorizationDecision.AuthorizationDecisionHandlerSpiImpl.GetProperties` | src/main/java/com/authlete/jaxrs/server/api/AuthorizationDecisionHandlerSpiImpl.java:150-158 | no properties: always `None`, the model's `null` |

## Left out

- The credential check inside `UserDao.getByCredentials` is left out. The lookup is any function of the two optional strings, so the model promises nothing about how blank credentials are treated. The query log counts calls made through `GetByCredentials`; reading the function `byCredentials` directly is not a query and is not logged.
- The wall clock is left out. `System.currentTimeMillis()` is the argument `nowMillis`, a natural number, so times before the epoch are not modelled. For non-negative values, Java's truncating `/` and Dafny's `/` agree. Java `long` overflow cannot arise here.
- The internals of `MultivaluedMap`, `Property` and `User` are left out because they are foreign library types. `User.getSubject()` is modelled as never returning `null`, and `getClaim` as an arbitrary function.
- The defaults inherited from `AuthorizationDecisionHandlerSpiAdapter`, including `getAcr`, are left out. The base class is not part of this model.
- HTTP routing, sessions and token issuance are left out. They happen outside this class.
- Exceptions the directory might throw are left out. The model's lookup is total, and in the source such an exception would simply escape the constructor.
- Java's field privacy is left out. Dafny fields are visible to other code, so every accessor that reads a field requires `Valid()`, the invariant the constructor establishes.
