/**
 * The request handlers of the EC2 metadata credential service and the
 * process-wide state they share (profile, role, s, cred, usr, cacheDir),
 * modelled as one Server object whose methods run one request at a time.
 * What the handlers ask of the outside world (the config resolver, the STS
 * session-token and assume-role providers, the caller-identity lookup, the
 * clock) comes in as parameters; the cache files on disk are a ghost set.
 */
module MetadataServer {
  import opened Wrappers
  import opened Text
  import opened MetadataRequests

  /** The parts of an http.ResponseWriter the handlers use. */
  class ResponseWriter {
    var header: map<string, string>
    var status: Option<int>
    var body: string

    constructor ()
      ensures Untouched()
    {
      header, status, body := map[], None, "";
    }

    /** The state net/http hands a handler: nothing set, nothing written. */
    predicate Untouched()
      reads this
    {
      header == map[] && status.None? && body == ""
    }

    /** A writer that started untouched and was answered by writeResponse with this code and body. */
    predicate Answered(code: int, text: string)
      reads this
    {
      status == Some(ResponseStatus(code)) && body == text && header == ContentHeaders(map[], text)
    }

    /** Header().Set(key, value) */
    method SetHeader(key: string, value: string)
      modifies this
      ensures header == old(header)[key := value]
      ensures status == old(status) && body == old(body)
    {
      header := header[key := value];
    }

    /** WriteHeader: only the first status a handler sends takes effect. */
    method WriteHeader(code: int)
      modifies this
      ensures status == if old(status).None? then Some(code) else old(status)
      ensures header == old(header) && body == old(body)
    {
      if status.None? {
        status := Some(code);
      }
    }

    /** Write appends to the body, sending 200 first when no status was sent. */
    method Write(data: string)
      modifies this
      ensures body == old(body) + data
      ensures status == if old(status).None? then Some(StatusOK) else old(status)
      ensures header == old(header)
    {
      if status.None? {
        status := Some(StatusOK);
      }
      body := body + data;
    }
  }

  /**
   * writeResponse: a code below 100 becomes 200, Content-Type defaults to
   * text/plain, Content-Length is the body's length; then status and body are
   * sent.
   */
  method WriteResponse(w: ResponseWriter, body: string, code: int)
    modifies w
    ensures w.header == ContentHeaders(old(w.header), body)
    ensures w.status == if old(w.status).None? then Some(ResponseStatus(code)) else old(w.status)
    ensures w.body == old(w.body) + body
  {
    var c := code;
    if c < 100 {
      c := StatusOK;
    }
    if !HasContentType(w.header) {
      w.SetHeader("Content-Type", "text/plain");
    }
    w.SetHeader("Content-Length", Itoa(|body|));
    w.WriteHeader(c);
    w.Write(body);
  }

  /** The cache files after a session credential was stored under `path` ("" means no cache). */
  function Stored(files: set<string>, path: string): (r: set<string>)
    ensures path != "" ==> path in r
    ensures r - {path} == files - {path}
  {
    if path == "" then files else files + {path}
  }

  /** The cache files after `path` was removed ("" means nothing to remove). */
  function Removed(files: set<string>, path: string): (r: set<string>)
    ensures path != "" ==> path !in r
    ensures r - {path} == files - {path}
  {
    if path == "" then files else files - {path}
  }

  /**
   * The session-token request the provider-configuring closures of
   * profileHandler and mfaHandler set up for `cfg` on session `s`: the role's
   * session duration and MFA serial, the code given (none on a profile
   * select), and the role's source-profile cache file, where "" means no cache.
   */
  function SessionRequest(s: Option<Session>, cfg: AwsConfig, cacheDir: string, tokenCode: string): (req: SessionTokenRequest)
    ensures req.session == s && req.tokenCode == tokenCode
    ensures req.duration == cfg.sessionDuration && req.serialNumber == cfg.mfaSerial
    ensures req.cachePath == "" <==> cacheDir == "" || cfg.sourceProfile == ""
    ensures req.cachePath != "" ==> req.cachePath == CacheFile(cacheDir, cfg.sourceProfile)
  {
    SessionTokenRequest(s, cfg.sessionDuration, cfg.mfaSerial, tokenCode, CacheFile(cacheDir, cfg.sourceProfile))
  }

  /** How mfaHandler answers any failure to fetch the session credential. */
  function UnclassifiedSessionError(e: SessionError): (h: HandlerError)
    ensures h.code == StatusInternalServerError
  {
    HandlerError("Error getting session credentials", StatusInternalServerError)
  }

  /** The session credential after cred.Get() on a new credential object. */
  function Fetched(req: SessionTokenRequest, outcome: Result<nat, SessionError>): SessionCredentials {
    SessionCredentials(req, if outcome.Success? then Some(outcome.value) else None, false)
  }

  /** The outcome of updateSession: session.Must panicked, or the session was built (with the identity lookup's error, if any). */
  datatype SessionUpdate =
    | MustPanicked(reason: string)
    | Updated(identityError: Option<string>)

  /**
   * A session credential that must be fetched again before it can sign a
   * request: it was never fetched successfully, a refresh expired it, or its
   * expiry has passed.
   */
  predicate Stale(c: SessionCredentials, now: nat) {
    c.expired || c.expiresAt.None? || c.expiresAt.value <= now
  }

  /** The outcome of assumeRole: a nil dereference (role, session or identity unset), a provider error, or the answer. */
  datatype AssumeRoleOutcome =
    | NilDereference
    | ProviderFailed(error: string)
    | Credentials(output: Ec2MetadataOutput)

  class Server {
    var profile: string
    var role: Option<AwsConfig>
    var session: Option<Session>
    var cred: Option<SessionCredentials>
    var usr: Option<Identity>
    const cacheDir: string
    const resolveConfig: string -> Option<AwsConfig>
    /** The session-token cache files on disk. */
    ghost var cacheFiles: set<string>
    /** How many times updateSession built a new SDK session. */
    ghost var sessionBuilds: nat

    /**
     * handleOptions: the start-up profile, configuration, session and identity
     * are taken as given; an empty cache directory falls back to the user cache
     * directory (which is "" when it cannot be found).
     */
    constructor (initialProfile: string, config: Option<AwsConfig>, initialSession: Option<Session>,
                 user: Option<Identity>, sessionCacheDir: string, userCacheDir: string,
                 resolver: string -> Option<AwsConfig>, ghost files: set<string>)
      ensures profile == initialProfile && role == config && session == initialSession && usr == user
      ensures cred == None
      ensures cacheDir == if |sessionCacheDir| < 1 then userCacheDir else sessionCacheDir
      ensures resolveConfig == resolver
      ensures cacheFiles == files && sessionBuilds == 0
    {
      profile := initialProfile;
      role := config;
      session := initialSession;
      usr := user;
      cred := None;
      cacheDir := if |sessionCacheDir| < 1 then userCacheDir else sessionCacheDir;
      resolveConfig := resolver;
      cacheFiles := files;
      sessionBuilds := 0;
    }

    /** sendProfile: answers with the active profile name. */
    method SendProfile(w: ResponseWriter)
      requires w.Untouched()
      modifies w
      ensures w.Answered(StatusOK, profile)
    {
      WriteResponse(w, profile, StatusOK);
    }

    /**
     * updateSession: builds a new SDK session for profile `p`. `construction`
     * is the outcome of building it (None: built; Some(e): it failed, and
     * session.Must panics before anything changes). The caller identity is
     * looked up only if none is known yet (`identity` is that lookup's
     * outcome), and a failed lookup is the error returned.
     */
    method UpdateSession(p: string, construction: Option<string>, identity: Option<Identity>)
      returns (outcome: SessionUpdate)
      modifies this`session, this`usr, this`sessionBuilds
      ensures construction.Some? ==>
                && outcome == MustPanicked(construction.value)
                && session == old(session) && usr == old(usr) && sessionBuilds == old(sessionBuilds)
      ensures construction.None? ==>
                && session == Some(Session(p))
                && sessionBuilds == old(sessionBuilds) + 1
                && usr == (if old(usr).Some? then old(usr) else identity)
                && outcome.Updated?
                && (outcome.identityError.Some? <==> old(usr).None? && identity.None?)
    {
      if construction.Some? {
        return MustPanicked(construction.value);
      }
      session := Some(Session(p));
      sessionBuilds := sessionBuilds + 1;
      outcome := Updated(None);
      if usr.None? {
        usr := identity;
        if identity.None? {
          outcome := Updated(Some("error getting caller identity"));
        }
      }
    }

    /**
     * getProfileConfig: reads at most 4096 bytes of profile name, makes them the
     * active profile, and resolves that profile's configuration.
     */
    method GetProfileConfig(r: Reader) returns (res: Result<AwsConfig, HandlerError>)
      modifies this`profile
      ensures r.NilReader? ==> profile == old(profile) && res == Failure(HandlerError("nil reader", StatusInternalServerError))
      ensures r.FailingReader? ==>
                profile == old(profile) && res == Failure(HandlerError("Error reading request data", StatusInternalServerError))
      ensures r.BodyReader? ==> profile == BytesToString(r.available[..Min(|r.available|, ProfileBufferSize)])
      ensures r.BodyReader? ==>
                res == if resolveConfig(profile).Some? then Success(resolveConfig(profile).value)
                       else Failure(HandlerError("Error resolving profile config", StatusInternalServerError))
    {
      var read := ReadBody(r, ProfileBufferSize);
      if read.Failure? {
        return Failure(read.error);
      }
      profile := BytesToString(read.value);
      var p := resolveConfig(profile);
      if p.None? {
        return Failure(HandlerError("Error resolving profile config", StatusInternalServerError));
      }
      res := Success(p.value);
    }

    /**
     * The step profileHandler and mfaHandler share: a new session credential
     * for `req` replaces the shared one and is fetched. On success it is stored
     * in its cache file and the answer is its expiry; on failure `onError`
     * decides the answer.
     */
    method FetchSessionCredentials(w: ResponseWriter, req: SessionTokenRequest,
                                   provider: SessionTokenRequest -> Result<nat, SessionError>,
                                   onError: SessionError -> HandlerError)
      requires w.Untouched()
      modifies this`cred, this`cacheFiles, w
      ensures cred == Some(Fetched(req, provider(req)))
      ensures provider(req).Success? ==>
                cacheFiles == Stored(old(cacheFiles), req.cachePath) && w.Answered(StatusOK, Itoa(provider(req).value))
      ensures provider(req).Failure? ==>
                cacheFiles == old(cacheFiles)
                && w.Answered(onError(provider(req).error).code, onError(provider(req).error).msg)
    {
      var outcome := provider(req);
      cred := Some(Fetched(req, outcome));
      if outcome.Failure? {
        var e := onError(outcome.error);
        WriteResponse(w, e.msg, e.code);
        return;
      }
      cacheFiles := Stored(cacheFiles, req.cachePath);
      WriteResponse(w, Itoa(outcome.value), StatusOK);
    }

    /**
     * profileHandler. A GET answers with the active profile. A POST selects the
     * profile named by its body: the SDK session is rebuilt only when no role
     * was active or the source profile changes (`construction` is the outcome
     * of building it; a failure panics in session.Must after the profile name
     * was taken, so nothing is answered); the role becomes the resolved
     * configuration; a new session credential is made and fetched. On success
     * the answer is its expiry and it is stored in the cache file; on failure
     * the error is classified into "MFA code required" (401) or a 500.
     */
    method ProfileHandler(w: ResponseWriter, r: Request, construction: Option<string>, identity: Option<Identity>,
                          provider: SessionTokenRequest -> Result<nat, SessionError>)
      requires w.Untouched()
      modifies this, w
      ensures r.verb != MethodPost ==> unchanged(this) && w.Answered(StatusOK, profile)
      ensures r.verb == MethodPost && r.body.NilReader? ==>
                unchanged(this) && w.Answered(StatusInternalServerError, "nil reader")
      ensures r.verb == MethodPost && r.body.FailingReader? ==>
                unchanged(this) && w.Answered(StatusInternalServerError, "Error reading request data")
      ensures r.verb == MethodPost && r.body.BodyReader? ==>
                profile == BytesToString(r.body.available[..Min(|r.body.available|, ProfileBufferSize)])
      ensures r.verb == MethodPost && r.body.BodyReader? && resolveConfig(profile).None? ==>
                && role == old(role) && session == old(session) && cred == old(cred) && usr == old(usr)
                && cacheFiles == old(cacheFiles) && sessionBuilds == old(sessionBuilds)
                && w.Answered(StatusInternalServerError, "Error resolving profile config")
      ensures r.verb == MethodPost && r.body.BodyReader? && resolveConfig(profile).Some? ==>
                ProfileSelected(w, resolveConfig(profile).value, construction, identity, provider)
    {
      if r.verb != MethodPost {
        SendProfile(w);
        return;
      }
      var p := GetProfileConfig(r.body);
      if p.Failure? {
        WriteResponse(w, p.error.msg, p.error.code);
        return;
      }
      SelectProfile(w, p.value, construction, identity, provider);
    }

    /**
     * The state and answer after a profile select resolved `cfg`, relative to
     * the state before it. The session is rebuilt only when no role was active
     * or the source profile changes; if building it panics, nothing else
     * changes and nothing is answered. Otherwise the role is `cfg` and a new
     * session credential is fetched for it, its failures classified.
     */
    twostate predicate ProfileSelected(w: ResponseWriter, cfg: AwsConfig, construction: Option<string>,
                                       identity: Option<Identity>,
                                       provider: SessionTokenRequest -> Result<nat, SessionError>)
      reads this, w
    {
      var rebuild := old(role).None? || cfg.sourceProfile != old(role).value.sourceProfile;
      if rebuild && construction.Some? then
        && role == old(role) && session == old(session) && cred == old(cred) && usr == old(usr)
        && cacheFiles == old(cacheFiles) && sessionBuilds == old(sessionBuilds)
        && w.Untouched()
      else
        var req := SessionRequest(session, cfg, cacheDir, "");
        && role == Some(cfg)
        && session == (if rebuild then Some(Session(cfg.sourceProfile)) else old(session))
        && sessionBuilds == old(sessionBuilds) + (if rebuild then 1 else 0)
        && usr == (if rebuild && old(usr).None? then identity else old(usr))
        && cred == Some(Fetched(req, provider(req)))
        && (provider(req).Success? ==>
              cacheFiles == Stored(old(cacheFiles), req.cachePath)
              && w.Answered(StatusOK, Itoa(provider(req).value)))
        && (provider(req).Failure? ==>
              cacheFiles == old(cacheFiles)
              && w.Answered(ClassifySessionError(provider(req).error).code,
                            ClassifySessionError(provider(req).error).msg))
    }

    /** profileHandler after the configuration was resolved. */
    method SelectProfile(w: ResponseWriter, cfg: AwsConfig, construction: Option<string>, identity: Option<Identity>,
                         provider: SessionTokenRequest -> Result<nat, SessionError>)
      requires w.Untouched()
      modifies this`role, this`session, this`cred, this`usr, this`cacheFiles, this`sessionBuilds, w
      ensures ProfileSelected(w, cfg, construction, identity, provider)
    {
      if role.None? || cfg.sourceProfile != role.value.sourceProfile {
        var updated := UpdateSession(cfg.sourceProfile, construction, identity);
        if updated.MustPanicked? {
          return;
        }
      }
      role := Some(cfg);
      var req := SessionRequest(session, cfg, cacheDir, "");
      FetchSessionCredentials(w, req, provider, ClassifySessionError);
    }

    /**
     * mfaHandler: takes the six-byte code from the body and fetches a new
     * session credential with it for the active role. With no active role the
     * handler dereferences nil: nothing is answered and nothing changes.
     * Provider errors are not classified here: every one is a 500.
     */
    method MfaHandler(w: ResponseWriter, r: Request, provider: SessionTokenRequest -> Result<nat, SessionError>)
      requires w.Untouched()
      modifies this`cred, this`cacheFiles, w
      ensures r.body.NilReader? ==>
                unchanged(this) && w.Answered(StatusInternalServerError, "nil reader")
      ensures r.body.FailingReader? ==>
                unchanged(this) && w.Answered(StatusInternalServerError, "Error reading request data")
      ensures r.body.BodyReader? && |r.body.available| < MfaLen ==>
                unchanged(this) && w.Answered(StatusUnauthorized, "Invalid MFA Code")
      ensures r.body.BodyReader? && |r.body.available| >= MfaLen && role.None? ==>
                unchanged(this) && w.Untouched()
      ensures r.body.BodyReader? && |r.body.available| >= MfaLen && role.Some? ==>
                var req := SessionRequest(session, role.value, cacheDir, BytesToString(r.body.available[..MfaLen]));
                && cred == Some(Fetched(req, provider(req)))
                && (provider(req).Success? ==>
                      cacheFiles == Stored(old(cacheFiles), req.cachePath)
                      && w.Answered(StatusOK, Itoa(provider(req).value)))
                && (provider(req).Failure? ==>
                      cacheFiles == old(cacheFiles)
                      && w.Answered(StatusInternalServerError, "Error getting session credentials"))
    {
      var mfa, _ := GetMfa(r.body);
      if mfa.Failure? {
        WriteResponse(w, mfa.error.msg, mfa.error.code);
        return;
      }
      if role.None? {
        return;
      }
      var req := SessionRequest(session, role.value, cacheDir, mfa.value);
      FetchSessionCredentials(w, req, provider, UnclassifiedSessionError);
    }

    /** The assume-role request for the active role, named after the caller; None where assumeRole would dereference nil. */
    function AssumeRoleRequestFor(): (req: Option<AssumeRoleRequest>)
      reads this
      ensures req.None? <==> role.None? || session.None? || usr.None?
      ensures req.Some? ==>
                && req.value.roleArn == role.value.roleArn
                && req.value.externalId == role.value.externalId
                && req.value.roleSessionName == usr.value.userName
                && req.value.duration == AssumeRoleDefaultDuration
                && req.value.credentials == cred
    {
      if role.None? || session.None? || usr.None? then None
      else Some(AssumeRoleRequest(session.value, cred, role.value.roleArn, role.value.externalId,
                                  usr.value.userName, AssumeRoleDefaultDuration))
    }

    /**
     * assumeRole: the role credentials of the active role, in the fixed record
     * shape, with the expiration clamped to now + minimum duration + 1 second.
     */
    function AssumeRole(now: nat, provider: AssumeRoleRequest -> Result<RoleCredentialValue, string>): (o: AssumeRoleOutcome)
      reads this
      ensures o.NilDereference? <==> role.None? || session.None? || usr.None?
      ensures o.ProviderFailed? ==> provider(AssumeRoleRequestFor().value) == Failure(o.error)
      ensures o.Credentials? ==>
                && provider(AssumeRoleRequestFor().value).Success?
                && o.output == MetadataOutput(provider(AssumeRoleRequestFor().value).value, now)
                && o.output.expiration > now + AssumeRoleMinDuration
    {
      match AssumeRoleRequestFor()
      case None => NilDereference
      case Some(req) =>
        match provider(req)
        case Failure(e) => ProviderFailed(e)
        case Success(v) => Credentials(MetadataOutput(v, now))
    }

    /** What credHandler answers with role credentials in the current state: a provider error, or the record as JSON. */
    predicate RoleCredentialsSent(w: ResponseWriter, now: nat,
                                  provider: AssumeRoleRequest -> Result<RoleCredentialValue, string>)
      reads this, w
    {
      match AssumeRole(now, provider)
      case NilDereference => false
      case ProviderFailed(_) => w.Answered(StatusInternalServerError, "Error getting role credentials")
      case Credentials(o) =>
        && w.status == Some(StatusOK)
        && w.body == Marshal(o)
        && w.header == ContentHeaders(map["Content-Type" := "application/json"], Marshal(o))
    }

    /**
     * credHandler: a path whose last segment is empty is answered with the
     * active profile; any other name gets the active role's credentials as
     * JSON, whatever the name asked for. The assume-role call is signed with
     * the shared session credential, so a stale one is fetched again first
     * (`refresh` is the session-token provider) and stored in its cache file;
     * when that fails, the assume-role call fails with it.
     */
    method CredHandler(w: ResponseWriter, r: Request, now: nat,
                       refresh: SessionTokenRequest -> Result<nat, SessionError>,
                       provider: AssumeRoleRequest -> Result<RoleCredentialValue, string>)
      requires w.Untouched()
      requires EC2MetadataCredentialPath <= r.path
      modifies this`cred, this`cacheFiles, w
      ensures RequestedRole(r.path) == "" ==> unchanged(this) && w.Answered(StatusOK, profile)
      ensures RequestedRole(r.path) != "" && old(AssumeRoleRequestFor()).None? ==> unchanged(this) && w.Untouched()
      ensures RequestedRole(r.path) != "" && old(AssumeRoleRequestFor()).Some? ==>
                if old(cred).Some? && Stale(old(cred).value, now) then
                  var req := old(cred).value.request;
                  if refresh(req).Failure? then
                    unchanged(this) && w.Answered(StatusInternalServerError, "Error getting role credentials")
                  else
                    && cred == Some(Fetched(req, refresh(req)))
                    && cacheFiles == Stored(old(cacheFiles), req.cachePath)
                    && RoleCredentialsSent(w, now, provider)
                else
                  unchanged(this) && RoleCredentialsSent(w, now, provider)
    {
      if RequestedRole(r.path) == "" {
        SendProfile(w);
        return;
      }
      if AssumeRoleRequestFor().None? {
        return;
      }
      if cred.Some? && Stale(cred.value, now) {
        var req := cred.value.request;
        var fetched := refresh(req);
        if fetched.Failure? {
          WriteResponse(w, "Error getting role credentials", StatusInternalServerError);
          return;
        }
        cred := Some(Fetched(req, fetched));
        cacheFiles := Stored(cacheFiles, req.cachePath);
      }
      SendRoleCredentials(w, now, provider);
    }

    /** The assume-role call and its answer, once the signing credential is fresh. */
    method SendRoleCredentials(w: ResponseWriter, now: nat,
                               provider: AssumeRoleRequest -> Result<RoleCredentialValue, string>)
      requires w.Untouched()
      requires AssumeRoleRequestFor().Some?
      modifies w
      ensures RoleCredentialsSent(w, now, provider)
    {
      var outcome := AssumeRole(now, provider);
      match outcome
      case NilDereference =>
        assert false;
      case ProviderFailed(_) =>
        WriteResponse(w, "Error getting role credentials", StatusInternalServerError);
      case Credentials(o) =>
        w.SetHeader("Content-Type", "application/json");
        WriteResponse(w, Marshal(o), StatusOK);
    }

    /**
     * refreshHandler: a POST while a session credential exists expires it and
     * removes the active role's cache file; every request is answered 200
     * "success".
     */
    method RefreshHandler(w: ResponseWriter, r: Request)
      requires w.Untouched()
      modifies this`cred, this`cacheFiles, w
      ensures w.Answered(StatusOK, "success")
      ensures r.verb == MethodPost && old(cred).Some? ==>
                && cred == Some(old(cred).value.(expired := true))
                && cacheFiles == (if role.Some? then Removed(old(cacheFiles), CacheFile(cacheDir, role.value.sourceProfile))
                                  else old(cacheFiles))
      ensures !(r.verb == MethodPost && old(cred).Some?) ==> cred == old(cred) && cacheFiles == old(cacheFiles)
    {
      if r.verb == MethodPost && cred.Some? {
        cred := Some(cred.value.(expired := true));
        if role.Some? {
          var cf := CacheFile(cacheDir, role.value.sourceProfile);
          if |cf| > 0 {
            cacheFiles := Removed(cacheFiles, cf);
          }
        }
      }
      WriteResponse(w, "success", StatusOK);
    }
  }
}
