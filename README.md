# aws-runas metadata credential service and role-set contract, in Dafny

aws-runas can run a local imitation of the EC2 instance metadata service, so
that AWS SDKs on the workstation pick up role credentials as if they ran on an
instance. The service keeps a small amount of process-wide state: the active
profile name, the resolved role configuration, the SDK session, the session
credential, the caller identity and the session-cache directory. Its handlers
change that state one request at a time:

- a profile select (`/profile`, POST) resolves a profile, rebuilds the SDK
  session only when the source profile changes, and fetches a session
  credential, asking for an MFA code (401) when the provider needs one;
- an MFA submit (`/mfa`) reads a six-byte code and fetches the session
  credential with it;
- a credential fetch (the EC2 credential path) answers with the active
  profile name, or with role credentials in the fixed record shape whose
  expiry is now plus the minimum assume-role duration plus one second;
- a refresh (`/refresh`) expires the session credential and removes its
  cache file.

Switching to a profile with the same source profile keeps the SDK session,
but the code still builds and fetches a new session credential on every
select; the model states exactly that.

The project also models the role-set contract of the role getter:
`Roles.Dedup`, `parsePolicy` over a JSON value, and the `MockRoleGetter`
test double. The implementation file of the role getter
(`lib/util/role_getter.go`) is not part of this model. These three are
modelled from what `lib/util/role_getter_test.go` requires of them.

Files:

- `wrappers.dfy` (module `Wrappers`): `Option` and `Result`.
- `text.dfy` (module `Text`): the Go library behaviour the service relies
  on, written out. It covers `strconv.Itoa` with its inverse, `strings.Split`
  and `strings.Join` on one separator, the text after the last separator,
  and json.Marshal's string escaping, with an unescaper and a string-literal
  reader proved to invert it.
- `metadata_requests.dfy` (module `MetadataRequests`): the constants, the
  values that pass between handlers and providers, body reading (`getMfa`
  and the read in `getProfileConfig`), `cacheFile`, the classification of
  session errors, the status and headers `writeResponse` sets, the dispatch
  on the credential path, the `assumeRole` record with its JSON text and a
  reader that recovers it, and `setupInterface`.
- `metadata_server.dfy` (module `MetadataServer`): a `ResponseWriter` class,
  `WriteResponse`, and a `Server` class. Its fields are the package globals,
  and its methods are the handlers, which update those fields in place.
- `roles.dfy` (module `Roles`): `Dedup`, `MockRoleGetter.Roles` and
  `ParsePolicy`, with the test cases as lemmas.

Outside calls are parameters:

- the config resolver is a function field of the server;
- the STS session-token provider is a function from the request the handler
  builds to an expiry instant or a `SessionError`;
- the assume-role provider is a function from the request to credential keys
  or an error;
- the caller-identity lookup is an `Option<Identity>`;
- the operating-system calls of `setupInterface` are `Option<string>`
  outcomes;
- the clock is a `now: nat` in seconds.

The cache files on disk are a ghost set of paths. A nil-pointer dereference
in a handler is modelled as what the HTTP server makes of the recovered
panic: nothing is written and no state changes. The panic of `session.Must`
when a new SDK session cannot be built is modelled the same way. The profile
name read before it stays changed, and the role, session and credential
stay as they were.

## Model

| member | source | states |
|---|---|---|
| MetadataRequests.ReadBody | lib/metadata/ec2_metadata_service.go:340-348 | A nil reader gives "nil reader"/500. A failing read gives "Error reading request data"/500. Otherwise the result is the body's first bytes, never more than the buffer size. |
| MetadataRequests.GetMfa | lib/metadata/ec2_metadata_service.go:394-415 | Nil or failing readers give the 500 errors. Fewer than 6 bytes gives "Invalid MFA Code"/401. Otherwise the code is exactly the first 6 bytes of the body, and at most 64 bytes are read. |
| MetadataRequests.CacheFile | lib/metadata/ec2_metadata_service.go:528-533 | The name is empty exactly when the cache directory or the profile is empty. Otherwise it starts with the cache directory, a '/' and ".aws_session_token_", and ends with the profile name. |
| MetadataRequests.CacheFileInjective | lib/metadata/ec2_metadata_service.go:528-533 | Two profiles with the same non-empty cache file name are the same profile. |
| MetadataRequests.ClassifySessionError | lib/metadata/ec2_metadata_service.go:314-329 | The answer is 401 "MFA code required" iff the error is MFA-required, or AccessDenied with a message starting "MultiFactorAuthentication failed". Every other error is 500 "Error getting session credentials". |
| MetadataRequests.ResponseStatus | lib/metadata/ec2_metadata_service.go:251-254 | A code below 100 becomes 200. Any other code is kept. |
| MetadataRequests.ContentHeaders | lib/metadata/ec2_metadata_service.go:256-262 | Content-Type is kept if set, and is text/plain otherwise. Content-Length is the decimal length of the body. No other header changes. |
| MetadataRequests.ContentLengthReadsBack | lib/metadata/ec2_metadata_service.go:260-261 | The Content-Length header is all digits, and parsing it gives back the body length. |
| MetadataRequests.RequestedRole | lib/metadata/ec2_metadata_service.go:442-443 | The last element of the split path is the text after the last '/'. It is empty exactly when the path ends in '/'. |
| MetadataRequests.RequestedRoleOfName | lib/metadata/ec2_metadata_service.go:442-443 | A role name without '/' appended to the credential path is recovered exactly. |
| MetadataRequests.MetadataOutput | lib/metadata/ec2_metadata_service.go:474-482 | Code is "Success" and Type is "AWS-HMAC". The keys are copied from the provider and LastUpdated is now. Expiration is now + 900 + 1, strictly after now + 900. |
| MetadataRequests.ReadJsonFieldOf | lib/metadata/ec2_metadata_service.go:485 | A member written as json.Marshal writes it reads back as its value, and reading stops right after it. |
| MetadataRequests.ReadJsonFieldsOf | lib/metadata/ec2_metadata_service.go:485 | The comma-separated members, closed by '}', read back as the values in order. |
| MetadataRequests.UnmarshalFields | lib/metadata/ec2_metadata_service.go:474-485 | The braced members of the record's seven fields, instants as decimal seconds, read back as the record. |
| MetadataRequests.Marshal | lib/metadata/ec2_metadata_service.go:485 | The JSON text of the record reads back as exactly that record. |
| MetadataRequests.MarshalInjective | lib/metadata/ec2_metadata_service.go:485 | Different records never get the same JSON text. |
| MetadataRequests.SetupInterface | lib/metadata/ec2_metadata_service.go:232-249 | There are at most two adds and one remove, and a remove happens iff the first add failed. It succeeds iff the first add succeeds, or the remove and the second add both do. A failure returns the remove's or the second add's error. A failed remove returns at once: the calls are add, remove and no second add. A loopback failure makes no calls. |
| MetadataServer.WriteResponse | lib/metadata/ec2_metadata_service.go:251-268 | The headers become `ContentHeaders` of the old headers. The status is `ResponseStatus(code)` unless one was already sent. The body is appended. |
| MetadataServer.SessionRequest | lib/metadata/ec2_metadata_service.go:304-312 | The session-token request of a profile select or, with the code, an MFA submit (lines 373-382) carries the session, the role's duration and MFA serial, and the code. Its cache path is empty exactly when the cache directory or the source profile is empty; otherwise it is the source profile's cache file. |
| MetadataServer.UnclassifiedSessionError | lib/metadata/ec2_metadata_service.go:384-388 | Every session-credential failure in an MFA submit is answered with a 500. |
| MetadataServer.Stored | lib/metadata/ec2_metadata_service.go:308-311 | A non-empty cache path is present afterwards, and no other path changes. |
| MetadataServer.Removed | lib/metadata/ec2_metadata_service.go:518-521 | A non-empty cache path is absent afterwards, and no other path changes. |
| MetadataServer.Server.constructor | lib/metadata/ec2_metadata_service.go:184-201 | The start-up state is the given profile, role, session and identity, with no credential. An empty session cache directory falls back to the user cache directory. |
| MetadataServer.Server.SendProfile | lib/metadata/ec2_metadata_service.go:361-364 | The answer is 200 with the active profile name. |
| MetadataServer.Server.UpdateSession | lib/metadata/ec2_metadata_service.go:417-439 | When building the session fails, `session.Must` panics and session, identity and build count are unchanged. Otherwise a new session for the profile is built. The identity is looked up only if none is known yet, and the error is returned iff that lookup fails. |
| MetadataServer.Server.GetProfileConfig | lib/metadata/ec2_metadata_service.go:339-359 | The active profile becomes the bytes read (at most 4096), even when resolving then fails with 500 "Error resolving profile config". A nil or failing reader changes nothing. |
| MetadataServer.Server.ProfileHandler | lib/metadata/ec2_metadata_service.go:288-337 | A non-POST answers the profile and changes nothing. Read errors change nothing. The profile becomes the name read. When resolving it fails, the answer is 500 "Error resolving profile config" and nothing else changes. Otherwise the result is `ProfileSelected`: a rebuild happens iff no role was active or the source profile differs. A rebuild that panics leaves everything but the profile unchanged and answers nothing. Otherwise the role is the resolved config and a new session credential for its request is fetched. Success stores the cache file and answers 200 with the expiry; failure answers the classified error. |
| MetadataServer.Server.SelectProfile | lib/metadata/ec2_metadata_service.go:297-333 | After the profile is resolved, the state and answer are `ProfileSelected`, as described for `ProfileHandler`. |
| MetadataServer.Server.FetchSessionCredentials | lib/metadata/ec2_metadata_service.go:314-333 | The shared credential is replaced by a new one for the request, fetched once. Success stores its cache file and answers 200 with the expiry. Failure leaves the cache files alone and answers whatever the handler's error mapping gives. |
| MetadataServer.Server.MfaHandler | lib/metadata/ec2_metadata_service.go:366-392 | Errors from getMfa are answered and change nothing. With no role, the nil dereference writes nothing. Otherwise the new credential request carries the 6-byte code. Success stores the cache file and answers the expiry. Any failure is 500. |
| MetadataServer.Server.AssumeRoleRequestFor | lib/metadata/ec2_metadata_service.go:460-465 | The request is absent iff role, session or identity is nil. Otherwise it carries the role ARN, the external ID, the caller's user name as session name, the 1-hour default duration and the session credential. |
| MetadataServer.Server.AssumeRole | lib/metadata/ec2_metadata_service.go:459-491 | A nil role, session or identity is a nil dereference. A provider error is passed on. Otherwise the answer is `MetadataOutput` of the provider's keys, with expiry after now + 900. |
| MetadataServer.Server.CredHandler | lib/metadata/ec2_metadata_service.go:441-457 | An empty last path segment answers the profile. A nil role, session or identity answers nothing and changes nothing. A stale shared session credential (never fetched, expired by a refresh, or past its expiry) is fetched again with its own request, and the result is stored. When that fetch fails, the answer is 500 "Error getting role credentials" and nothing changes. Then an assume-role failure answers that same 500. A success answers 200 with the marshalled record and Content-Type application/json. |
| MetadataServer.Server.SendRoleCredentials | lib/metadata/ec2_metadata_service.go:447-455 | With a fresh signing credential, the answer is the assume-role error as a 500, or 200 with the record's JSON text. |
| MetadataServer.Server.RefreshHandler | lib/metadata/ec2_metadata_service.go:511-526 | The answer is always 200 "success". Only a POST with a credential present expires it and removes the active role's cache file (when a role is set and the name is non-empty). Otherwise nothing changes. |
| Text.Itoa | lib/metadata/ec2_metadata_service.go:260 | The result is a non-empty string of decimal digits with no leading zero. |
| Text.AtoiItoa | lib/metadata/ec2_metadata_service.go:260 | Parsing the decimal rendering gives back the number. |
| Text.ItoaInjective | lib/metadata/ec2_metadata_service.go:260 | Different lengths render differently. |
| Text.Split | lib/metadata/ec2_metadata_service.go:442 | There is at least one part, and no part contains the separator. |
| Text.JoinSplit | lib/metadata/ec2_metadata_service.go:442 | Joining the split parts gives back the string. |
| Text.SplitJoin | lib/metadata/ec2_metadata_service.go:442 | Splitting a join of separator-free parts gives back the parts. |
| Text.AfterLast | lib/metadata/ec2_metadata_service.go:442-443 | The result is the suffix after the last separator and holds no separator. |
| Text.LastOfSplit | lib/metadata/ec2_metadata_service.go:442-443 | The last element of the split is the text after the last separator. |
| Text.EscapeChar | lib/metadata/ec2_metadata_service.go:485 | Each character is escaped to between 1 and 6 characters. |
| Text.UnescapeEscapeChar | lib/metadata/ec2_metadata_service.go:485 | A JSON reader decodes each escaped character back to itself. |
| Text.UnescapeEscape | lib/metadata/ec2_metadata_service.go:485 | Unescaping an escaped string gives back the string. |
| Text.ReadStringOfUnescape | lib/metadata/ec2_metadata_service.go:485 | A string body that unescapes to a value, followed by a closing quote, reads back as that value, and reading stops at that quote. |
| Text.ReadStringEscape | lib/metadata/ec2_metadata_service.go:485 | An escaped value followed by a quote reads back as the value, and reading stops at the quote. The record's round trip (`Marshal`) is built from this. |
| Roles.Insert | lib/util/role_getter_test.go:21-23 | Inserting into a strictly ascending list keeps it strictly ascending, and its elements grow by exactly the inserted one. |
| Roles.Dedup | lib/util/role_getter_test.go:21-38 | The result is strictly ascending and has the same elements as the input. |
| Roles.DedupNoDuplicates | lib/util/role_getter_test.go:21-38 | No role appears twice in the result. |
| Roles.SortedBySet | lib/util/role_getter_test.go:21-38 | Two strictly ascending lists with the same elements are equal. |
| Roles.DedupCanonical | lib/util/role_getter_test.go:21-38 | Inputs with the same elements deduplicate to the same list, whatever their order or repetition. |
| Roles.DedupIdempotent | lib/util/role_getter_test.go:21-23 | Deduplicating twice is the same as deduplicating once. |
| Roles.DedupUnique | lib/util/role_getter_test.go:21-38 | Any strictly ascending list with the input's elements is the result. |
| Roles.MockRoleGetter.Roles | lib/util/role_getter_test.go:13-23 | The roles are strictly ascending, and a role is listed iff it is in the getter's list. |
| Roles.ExampleRoleGetter | lib/util/role_getter_test.go:25-38 | ["mock3","mock2","mock1","mock2","mock4","mock1"] gives ["mock1","mock2","mock3","mock4"]. |
| Roles.EmptyRoleGetter | lib/util/role_getter_test.go:40-58 | An empty (or nil) list gives no roles. |
| Roles.StringItems | lib/util/role_getter_test.go:73-89 | A name is kept iff it is a string item of the list. |
| Roles.CollectRoles | lib/util/role_getter_test.go:73-89 | A name is collected iff some statement contributes it. |
| Roles.ParsePolicy | lib/util/role_getter_test.go:73-144 | It fails iff the document is nil. Undecodable text gives no roles. The result is strictly ascending. A name is in it iff some Allow statement whose Action names sts:AssumeRole lists it in its Resource. |
| Roles.NonObjectDocument | lib/util/role_getter_test.go:91-101 | A document that is not an object gives no roles and no error. |
| Roles.MalformedStatementsSkipped | lib/util/role_getter_test.go:103-125 | Statements that are not objects, or lack Effect, Action or Resource, contribute nothing. |
| Roles.GoodStatementRoles | lib/util/role_getter_test.go:74-79 | Each statement of the mixed document contributes [], [], ["a"], ["x"] and ["y","z"] respectively. |
| Roles.GoodPrefixCollected | lib/util/role_getter_test.go:74-79 | The first n statements of the mixed document collect [], [], ["a"], ["a","x"] and ["a","x","y","z"]. |
| Roles.GoodCollected | lib/util/role_getter_test.go:74-79 | The mixed document's statements collect to ["a","x","y","z"]. |
| Roles.GoodDocument | lib/util/role_getter_test.go:73-89 | The mixed document parses to exactly ["a","x","y","z"]. |
| Roles.StringArrayDocument | lib/util/role_getter_test.go:103-113 | A Statement list of bare strings gives no roles and no error. |
| Roles.BadMapDocument | lib/util/role_getter_test.go:115-125 | Statement objects lacking the fields give no roles and no error. |
| Roles.NilAndEmptyDocuments | lib/util/role_getter_test.go:127-144 | A nil document is an error, and empty text gives no roles and no error. |

## Left out

- The HTTP listener, handler registration, the signal handling and the shutdown are I/O and concurrency. Handlers are methods that run one at a time on one `Server`; the unsynchronised sharing of the globals is not modelled.
- `homeHandler`, `listRoleHandler`, `listRoles` and the HTML template are not part of this model. They only render the resolver's profile list.
- Linux capabilities, privilege dropping, `discoverLoopback`, `addAddress` and `removeAddress` are system calls. Only their success or failure reaches `SetupInterface`, as inputs.
- The AWS SDK is modelled only through oracles. Session construction (the `construction` outcome), the session-token and assume-role providers, `GetCallerIdentity` and `ResolveConfig` are inputs. The copying of the old session's configuration into the new one is not modelled; `Session` records only its profile.
- A `credentials.Credentials` object is modelled by its state: the request it was built for, the expiry of its last successful fetch, and whether `Expire` was called. The profile select and the MFA submit build a new one and fetch it once. The credential fetch reuses the shared one to sign the assume-role call, and fetches it again when it is stale; each fetch is one call of the provider. The assume-role credential is new on every call, so its own caching never matters.
- The credential's early-expiry window is not modelled: a session credential is stale from its expiry instant on. The session-token provider's own use of a cache file it finds is inside that oracle.
- File-system effects are a ghost set of cache paths. `filepath.Join` is a plain "/" join without path cleaning. `CacheFileInjective` and the "ends with the profile name" part of `CacheFile` depend on that. With cleaning, a profile such as "a/../b" would lose its "a/.." part, and two such profiles could share a file. The `os.UserCacheDir` result is a constructor parameter, "" when it cannot be found.
- Instants are whole seconds. `Local().String()` (the profile and MFA answers) and RFC3339 (the credential record) are both rendered as decimal seconds.
- json.Marshal is modelled only for what this record needs: the fields in order and the escaping of each string value. The field names are plain letters and are written without escaping. The reader the round trip is proved against (`Unmarshal`) reads exactly this shape: no whitespace and the fields in declaration order.
- Strings follow Go's convention: a Go string is a sequence of bytes, and each Dafny `char` of a request, profile, header or body stands for one byte. UTF-8 is not decoded anywhere in the model.
- MetadataRequests.BytesToString: one char per byte, so a profile sent as the UTF-8 bytes C3 A9 is the two-char string "\u00C3\u00A9" in the model, where Go holds the one-character "é"; the bytes, and so what is stored and sent back, are the same.
- MetadataRequests.ContentHeaders: `Itoa(|body|)` counts chars, which are bytes under this convention, as Go's `len` does. A body or initial profile written with chars above U+00FF does not stand for bytes, and its length would not be Go's.
- Text.EscapeChar: json.Marshal's UTF-8 handling is modelled for ASCII only. Go decodes bytes from 0x80 up as UTF-8: it writes the bytes E2 80 A8 and E2 80 A9 as `\u2028` and `\u2029` and each invalid byte as `\ufffd`, which cannot be read back. The model passes every byte from 0x80 up through unchanged; its U+2028/U+2029 branch applies only to chars that stand for code points, not for bytes. The access key, secret key and token the record carries are ASCII.
- Header names are exact map keys. `http.Header` canonicalises their case.
- Logging is not modelled.
- The profile select at start-up (`NewEC2MetadataService`) is not part of this model.
- The network part of the role getter, which fetches IAM policies, is not part of this model. Raw JSON text parsing is not modelled either: `ParsePolicy` starts from an already decoded value, with `None` for a nil document and `Undecodable` for text that does not decode.
- Policy text that does not decode ("" and "string-only" in the tests) is modelled as an empty role set with no error, as the tests require, rather than as a parse error.
- MetadataServer.Server.MfaHandler: the nil dereference when no role is set is modelled as "nothing written, nothing changed", which is what the HTTP server's panic recovery leaves behind. The same holds for `assumeRole` with a nil role, session or identity.
