/**
 * The stateless parts of the EC2 metadata credential service: its constants,
 * the values it passes around, reading a request body (getMfa and the read in
 * getProfileConfig), the cache-file name, the classification of session
 * errors, the response status and headers writeResponse sets, the dispatch on
 * the credential path, the fixed-shape credential answer and the retry logic
 * of setupInterface.
 */
module MetadataRequests {
  import opened Wrappers
  import opened Text

  // ---------------------------------------------------------------------------
  // Constants
  // ---------------------------------------------------------------------------

  const EC2MetadataCredentialPath: string := "/latest/meta-data/iam/security-credentials/"
  const MethodPost: string := "POST"

  const StatusOK: int := 200
  const StatusUnauthorized: int := 401
  const StatusInternalServerError: int := 500

  /** AWS MFA codes are six bytes; the body is read into a 64-byte buffer. */
  const MfaLen: nat := 6
  const MfaBufferSize: nat := 64
  /** A profile name is read into a 4096-byte buffer. */
  const ProfileBufferSize: nat := 4096

  /** credlib.AssumeRoleMinDuration (15 minutes) and AssumeRoleDefaultDuration (1 hour), in seconds. */
  const AssumeRoleMinDuration: nat := 900
  const AssumeRoleDefaultDuration: nat := 3600

  const CacheFilePrefix: string := ".aws_session_token_"
  const MfaFailurePrefix: string := "MultiFactorAuthentication failed"

  // ---------------------------------------------------------------------------
  // Values
  // ---------------------------------------------------------------------------

  newtype byte = x: int | 0 <= x < 256

  /** Go's string(b): one character per byte. Every string of this model holds bytes this way. */
  function BytesToString(b: seq<byte>): (s: string)
    ensures |s| == |b|
    ensures forall i :: 0 <= i < |b| ==> s[i] as int == b[i] as int
  {
    seq(|b|, i requires 0 <= i < |b| => (b[i] as int) as char)
  }

  /** A request body: no reader at all, a reader whose Read fails, or the bytes one Read delivers. */
  datatype Reader = NilReader | FailingReader | BodyReader(available: seq<byte>)

  datatype Request = Request(verb: string, path: string, body: Reader)

  /** handlerError: the message and the HTTP status to answer with. */
  datatype HandlerError = HandlerError(msg: string, code: int)

  /** The profile configuration the config resolver produces (durations in seconds). */
  datatype AwsConfig = AwsConfig(
    sourceProfile: string,
    roleArn: string,
    mfaSerial: string,
    externalId: string,
    sessionDuration: nat)

  /** An SDK session, known here by the profile it was built for. */
  datatype Session = Session(profile: string)

  /** The caller identity; assumed-role sessions are named after its user name. */
  datatype Identity = Identity(userName: string)

  /** What the session-token provider is asked for; an empty cache path means no cache file. */
  datatype SessionTokenRequest = SessionTokenRequest(
    session: Option<Session>,
    duration: nat,
    serialNumber: string,
    tokenCode: string,
    cachePath: string)

  /** The session credential object: its provider settings, its expiry once fetched, and whether it was expired on purpose. */
  datatype SessionCredentials = SessionCredentials(
    request: SessionTokenRequest,
    expiresAt: Option<nat>,
    expired: bool)

  /** The ways fetching a session credential fails. */
  datatype SessionError =
    | ErrMfaRequired
    | AwsError(code: string, message: string)
    | OtherError(detail: string)

  /** What the assume-role provider is asked for. */
  datatype AssumeRoleRequest = AssumeRoleRequest(
    session: Session,
    credentials: Option<SessionCredentials>,
    roleArn: string,
    externalId: string,
    roleSessionName: string,
    duration: nat)

  /** The role credential the assume-role provider returns. */
  datatype RoleCredentialValue = RoleCredentialValue(
    accessKeyId: string,
    secretAccessKey: string,
    sessionToken: string)

  /** ec2MetadataOutput, with its two instants kept as seconds. */
  datatype Ec2MetadataOutput = Ec2MetadataOutput(
    code: string,
    lastUpdated: nat,
    credType: string,
    accessKeyId: string,
    secretAccessKey: string,
    token: string,
    expiration: nat)

  // ---------------------------------------------------------------------------
  // Reading a request body
  // ---------------------------------------------------------------------------

  function Min(a: nat, b: nat): nat {
    if a < b then a else b
  }

  /**
   * The nil check, `b := make([]byte, size); n, err := r.Read(b)` and the
   * read-error check shared by getProfileConfig and getMfa: the bytes read,
   * never more than `size` of them.
   */
  method ReadBody(r: Reader, size: nat) returns (res: Result<seq<byte>, HandlerError>)
    ensures r.NilReader? ==> res == Failure(HandlerError("nil reader", StatusInternalServerError))
    ensures r.FailingReader? ==> res == Failure(HandlerError("Error reading request data", StatusInternalServerError))
    ensures r.BodyReader? ==> res.Success? && |res.value| <= size
    ensures r.BodyReader? ==> res.value == r.available[..Min(|r.available|, size)]
  {
    if r.NilReader? {
      return Failure(HandlerError("nil reader", StatusInternalServerError));
    }
    if r.FailingReader? {
      return Failure(HandlerError("Error reading request data", StatusInternalServerError));
    }
    var b := new byte[size];
    var n := Min(|r.available|, size);
    forall i | 0 <= i < n {
      b[i] := r.available[i];
    }
    res := Success(b[..n]);
  }

  /**
   * getMfa: a body shorter than six bytes is an invalid code (401, so the
   * client prompts again); otherwise the code is exactly its first six bytes.
   * `consumed` is how many bytes were taken from the body: never more than the
   * 64-byte buffer.
   */
  method GetMfa(r: Reader) returns (res: Result<string, HandlerError>, consumed: nat)
    ensures consumed <= MfaBufferSize
    ensures consumed == if r.BodyReader? then Min(|r.available|, MfaBufferSize) else 0
    ensures r.NilReader? ==> res == Failure(HandlerError("nil reader", StatusInternalServerError))
    ensures r.FailingReader? ==> res == Failure(HandlerError("Error reading request data", StatusInternalServerError))
    ensures r.BodyReader? && |r.available| < MfaLen ==>
              res == Failure(HandlerError("Invalid MFA Code", StatusUnauthorized))
    ensures r.BodyReader? && |r.available| >= MfaLen ==>
              res == Success(BytesToString(r.available[..MfaLen]))
  {
    var read := ReadBody(r, MfaBufferSize);
    if read.Failure? {
      return Failure(read.error), 0;
    }
    var b := read.value;
    consumed := |b|;
    if |b| < MfaLen {
      return Failure(HandlerError("Invalid MFA Code", StatusUnauthorized)), consumed;
    }
    assert b[..MfaLen] == r.available[..MfaLen];
    res := Success(BytesToString(b[..MfaLen]));
  }

  // ---------------------------------------------------------------------------
  // Cache file naming
  // ---------------------------------------------------------------------------

  /** cacheFile: "<cacheDir>/.aws_session_token_<p>", or "" (no caching) when either part is empty. */
  function CacheFile(cacheDir: string, p: string): (f: string)
    ensures f == "" <==> (cacheDir == "" || p == "")
    ensures f != "" ==> cacheDir + "/" + CacheFilePrefix <= f && |p| < |f| && f[|f| - |p|..] == p
  {
    if |cacheDir| > 0 && |p| > 0 then cacheDir + "/" + CacheFilePrefix + p else ""
  }

  /** Two source profiles never share a cache file. */
  lemma CacheFileInjective(cacheDir: string, p: string, q: string)
    requires CacheFile(cacheDir, p) != ""
    requires CacheFile(cacheDir, p) == CacheFile(cacheDir, q)
    ensures p == q
  {
    var f := CacheFile(cacheDir, p);
    assert |f| == |cacheDir| + 1 + |CacheFilePrefix| + |p|;
    assert |CacheFile(cacheDir, q)| == |cacheDir| + 1 + |CacheFilePrefix| + |q|;
  }

  // ---------------------------------------------------------------------------
  // Session error classification
  // ---------------------------------------------------------------------------

  /**
   * How profileHandler answers when the session credential cannot be fetched:
   * an MFA-required error, or an AccessDenied whose message starts with
   * "MultiFactorAuthentication failed", asks for an MFA code (401); any other
   * error is a 500 that does not reveal its detail.
   */
  function ClassifySessionError(e: SessionError): (h: HandlerError)
    ensures h.code == StatusUnauthorized <==>
              (e.ErrMfaRequired? || (e.AwsError? && e.code == "AccessDenied" && MfaFailurePrefix <= e.message))
    ensures h.code == StatusUnauthorized ==> h.msg == "MFA code required"
    ensures h.code != StatusUnauthorized ==>
              h == HandlerError("Error getting session credentials", StatusInternalServerError)
  {
    match e
    case ErrMfaRequired => HandlerError("MFA code required", StatusUnauthorized)
    case AwsError(code, message) =>
      if code == "AccessDenied" && MfaFailurePrefix <= message
      then HandlerError("MFA code required", StatusUnauthorized)
      else HandlerError("Error getting session credentials", StatusInternalServerError)
    case OtherError(_) => HandlerError("Error getting session credentials", StatusInternalServerError)
  }

  // ---------------------------------------------------------------------------
  // writeResponse: status and headers
  // ---------------------------------------------------------------------------

  /** The status writeResponse sends: any code below 100 becomes 200 OK. */
  function ResponseStatus(code: int): (c: int)
    ensures c >= 100
    ensures code >= 100 ==> c == code
    ensures code < 100 ==> c == StatusOK
  {
    if code < 100 then StatusOK else code
  }

  predicate HasContentType(h: map<string, string>) {
    "Content-Type" in h && |h["Content-Type"]| > 0
  }

  /**
   * The headers after writeResponse: Content-Type is kept when the handler set
   * one and is text/plain otherwise, Content-Length is the decimal length of
   * the body, and no other header changes.
   */
  function ContentHeaders(h: map<string, string>, body: string): (r: map<string, string>)
    ensures r.Keys == h.Keys + {"Content-Type", "Content-Length"}
    ensures r["Content-Type"] == (if HasContentType(h) then h["Content-Type"] else "text/plain")
    ensures r["Content-Length"] == Itoa(|body|)
    ensures forall k :: k in h && k != "Content-Type" && k != "Content-Length" ==> r[k] == h[k]
  {
    var typed := if HasContentType(h) then h else h["Content-Type" := "text/plain"];
    typed["Content-Length" := Itoa(|body|)]
  }

  /** A client reading Content-Length back gets the length of the body. */
  lemma ContentLengthReadsBack(h: map<string, string>, body: string)
    ensures AllDigits(ContentHeaders(h, body)["Content-Length"])
    ensures Atoi(ContentHeaders(h, body)["Content-Length"]) == |body|
  {
    AtoiItoa(|body|);
  }

  // ---------------------------------------------------------------------------
  // The credential path
  // ---------------------------------------------------------------------------

  /**
   * The last element of strings.Split(path, "/")[1:] in credHandler: the role
   * name an SDK appends to the credential path. It is the text after the last
   * '/', and empty exactly when the path ends with '/'.
   */
  function RequestedRole(path: string): (name: string)
    requires EC2MetadataCredentialPath <= path
    ensures name == AfterLast(path, '/')
    ensures name == "" <==> path[|path| - 1] == '/'
  {
    assert path[0] == EC2MetadataCredentialPath[0] == '/';
    var parts := Split(path, '/');
    assert parts == [""] + Split(path[1..], '/');
    var p := parts[1..];
    LastOfSplit(path, '/');
    p[|p| - 1]
  }

  /** An SDK that appends a role name to the credential path asks for exactly that name. */
  lemma RequestedRoleOfName(name: string)
    requires '/' !in name
    ensures RequestedRole(EC2MetadataCredentialPath + name) == name
  {
    var path := EC2MetadataCredentialPath + name;
    assert path[|path| - |name|..] == name;
    if |name| < |path| {
      assert path[|path| - |name| - 1] == EC2MetadataCredentialPath[|EC2MetadataCredentialPath| - 1];
    }
    assert IsLastSegment(name, path, '/');
    LastSegmentUnique(name, AfterLast(path, '/'), path, '/');
  }

  // ---------------------------------------------------------------------------
  // The credential answer
  // ---------------------------------------------------------------------------

  /**
   * The record assumeRole answers with: fixed Code and Type, the keys the
   * provider returned, LastUpdated now, and an Expiration of now plus the
   * minimum assume-role duration plus one second.
   */
  function MetadataOutput(v: RoleCredentialValue, now: nat): (o: Ec2MetadataOutput)
    ensures o.code == "Success" && o.credType == "AWS-HMAC"
    ensures o.accessKeyId == v.accessKeyId && o.secretAccessKey == v.secretAccessKey
    ensures o.token == v.sessionToken
    ensures o.lastUpdated == now
    ensures o.expiration > now + AssumeRoleMinDuration
    ensures o.expiration - now == AssumeRoleMinDuration + 1
  {
    Ec2MetadataOutput("Success", now, "AWS-HMAC", v.accessKeyId, v.secretAccessKey, v.sessionToken,
                      now + AssumeRoleMinDuration + 1)
  }

  /**
   * One member of a JSON object: the quoted name, a colon and the quoted
   * value. The record's field names are plain letters, which json.Marshal
   * writes without escapes.
   */
  function JsonField(name: string, value: string): string {
    "\"" + name + "\":" + Quote(value)
  }

  /** The members of a JSON object, comma-separated, in the order given. */
  function JsonFields(names: seq<string>, values: seq<string>): string
    requires |names| == |values| >= 1
    decreases |names|
  {
    if |names| == 1 then JsonField(names[0], values[0])
    else JsonField(names[0], values[0]) + "," + JsonFields(names[1..], values[1..])
  }

  /** The fields of ec2MetadataOutput in declaration order, as json.Marshal writes them. */
  const OutputFieldNames: seq<string> :=
    ["Code", "LastUpdated", "Type", "AccessKeyId", "SecretAccessKey", "Token", "Expiration"]

  function OutputFieldValues(o: Ec2MetadataOutput): (values: seq<string>)
    ensures |values| == |OutputFieldNames|
  {
    [o.code, Itoa(o.lastUpdated), o.credType, o.accessKeyId, o.secretAccessKey, o.token, Itoa(o.expiration)]
  }

  /** Reads the member `name` at the start of `s`: its value and the text after it. */
  function ReadJsonField(s: string, name: string): Option<(string, string)> {
    var key := "\"" + name + "\":\"";
    if |key| <= |s| && s[..|key|] == key then
      match ReadString(s[|key|..])
      case None => None
      case Some((v, k)) => Some((v, s[|key| + k..]))
    else None
  }

  /** Reads the members `names`, in that order, up to the closing brace of the object. */
  function ReadJsonFields(s: string, names: seq<string>): (r: Option<seq<string>>)
    ensures r.Some? ==> |r.value| == |names|
    decreases |names|
  {
    if |names| == 0 then None
    else match ReadJsonField(s, names[0])
      case None => None
      case Some((v, rest)) =>
        if |names| == 1 then (if rest == "}" then Some([v]) else None)
        else if |rest| >= 1 && rest[0] == ',' then
          match ReadJsonFields(rest[1..], names[1..])
          case None => None
          case Some(vs) => Some([v] + vs)
        else None
  }

  /** How a client reads the credential record back: None for text that is not one. */
  function Unmarshal(s: string): Option<Ec2MetadataOutput> {
    if |s| == 0 || s[0] != '{' then None
    else match ReadJsonFields(s[1..], OutputFieldNames)
      case None => None
      case Some(vs) =>
        if AllDigits(vs[1]) && AllDigits(vs[6]) then
          Some(Ec2MetadataOutput(vs[0], Atoi(vs[1]), vs[2], vs[3], vs[4], vs[5], Atoi(vs[6])))
        else None
  }

  /** A member's text is its key, the opening quote included, then its escaped value and the closing quote. */
  lemma JsonFieldSplit(name: string, v: string, rest: string)
    ensures JsonField(name, v) + rest == "\"" + name + "\":\"" + (Escape(v) + "\"" + rest)
  {
  }

  /** ReadJsonField unfolded once, at a text that starts with the member's key. */
  lemma ReadJsonFieldStep(s: string, name: string, v: string, k: nat, rest: string)
    requires var key := "\"" + name + "\":\""; |key| <= |s| && s[..|key|] == key
    requires var key := "\"" + name + "\":\"";
             ReadString(s[|key|..]) == Some((v, k)) && |key| + k <= |s| && s[|key| + k..] == rest
    ensures ReadJsonField(s, name) == Some((v, rest))
  {
  }

  /** Slices of a text made of a key and a body. */
  lemma KeyThenBody(key: string, body: string, k: nat)
    requires k <= |body|
    ensures (key + body)[..|key|] == key && (key + body)[|key|..] == body
    ensures (key + body)[|key| + k..] == body[k..]
  {
  }

  /** The member's key, then a value text that reads back as `v` and leaves `rest`. */
  lemma ReadJsonFieldAfterKey(s: string, name: string, body: string, v: string, k: nat, rest: string)
    requires s == "\"" + name + "\":\"" + body
    requires ReadString(body) == Some((v, k)) && k <= |body| && body[k..] == rest
    ensures ReadJsonField(s, name) == Some((v, rest))
  {
    KeyThenBody("\"" + name + "\":\"", body, k);
    ReadJsonFieldStep(s, name, v, k, rest);
  }

  /** A member's text reads back as its value, leaving the text that follows it. */
  lemma ReadJsonFieldOf(name: string, v: string, rest: string)
    ensures ReadJsonField(JsonField(name, v) + rest, name) == Some((v, rest))
  {
    var body := Escape(v) + "\"" + rest;
    JsonFieldSplit(name, v, rest);
    ReadStringEscape(v, rest);
    assert body[|Escape(v)| + 1..] == rest;
    ReadJsonFieldAfterKey(JsonField(name, v) + rest, name, body, v, |Escape(v)| + 1, rest);
  }

  /** ReadJsonFields unfolded once, at the last member and at a member followed by a comma. */
  lemma ReadJsonFieldsStep(s: string, names: seq<string>, v: string, rest: string)
    requires |names| >= 1 && ReadJsonField(s, names[0]) == Some((v, rest))
    ensures |names| == 1 && rest == "}" ==> ReadJsonFields(s, names) == Some([v])
    ensures |names| >= 2 && |rest| >= 1 && rest[0] == ',' ==>
              ReadJsonFields(s, names) == match ReadJsonFields(rest[1..], names[1..])
                                          case None => None
                                          case Some(vs) => Some([v] + vs)
  {
  }

  /** The members of an object of two or more: the first, a comma, then the others. */
  lemma JsonFieldsCons(names: seq<string>, values: seq<string>)
    requires |names| == |values| >= 2
    ensures var tail := JsonFields(names[1..], values[1..]) + "}";
            JsonFields(names, values) + "}" == JsonField(names[0], values[0]) + ("," + tail) &&
            ("," + tail)[1..] == tail
  {
  }

  /** The members of a closed object read back as their values, in order. */
  lemma {:induction false} ReadJsonFieldsOf(names: seq<string>, values: seq<string>)
    requires |names| == |values| >= 1
    ensures ReadJsonFields(JsonFields(names, values) + "}", names) == Some(values)
    decreases |names|
  {
    if |names| == 1 {
      var s := JsonField(names[0], values[0]) + "}";
      assert JsonFields(names, values) + "}" == s;
      ReadJsonFieldOf(names[0], values[0], "}");
      ReadJsonFieldsStep(s, names, values[0], "}");
      assert values == [values[0]];
    } else {
      var tail := JsonFields(names[1..], values[1..]) + "}";
      var s := JsonField(names[0], values[0]) + ("," + tail);
      JsonFieldsCons(names, values);
      ReadJsonFieldOf(names[0], values[0], "," + tail);
      ReadJsonFieldsStep(s, names, values[0], "," + tail);
      ReadJsonFieldsOf(names[1..], values[1..]);
      assert [values[0]] + values[1..] == values;
    }
  }

  /** Unmarshal unfolded once, at a text whose members were all read. */
  lemma UnmarshalOf(s: string, members: string, names: seq<string>, vs: seq<string>)
    requires |s| >= 1 && s[0] == '{' && members == s[1..] && names == OutputFieldNames
    requires ReadJsonFields(members, names) == Some(vs)
    requires |vs| == 7 && AllDigits(vs[1]) && AllDigits(vs[6])
    ensures Unmarshal(s) == Some(Ec2MetadataOutput(vs[0], Atoi(vs[1]), vs[2], vs[3], vs[4], vs[5], Atoi(vs[6])))
  {
  }

  /** The record is recovered from its field texts. */
  lemma OutputFieldValuesDecode(o: Ec2MetadataOutput)
    ensures var vs := OutputFieldValues(o);
            AllDigits(vs[1]) && AllDigits(vs[6]) &&
            o == Ec2MetadataOutput(vs[0], Atoi(vs[1]), vs[2], vs[3], vs[4], vs[5], Atoi(vs[6]))
  {
    AtoiItoa(o.lastUpdated);
    AtoiItoa(o.expiration);
  }

  /** The members of a braced object are what follows its opening brace. */
  lemma AfterBrace(fields: string)
    ensures |"{" + fields + "}"| >= 1 && ("{" + fields + "}")[0] == '{'
    ensures ("{" + fields + "}")[1..] == fields + "}"
  {
  }

  /** A braced object whose members read back as the record's field texts unmarshals to the record. */
  lemma UnmarshalOfFields(fields: string, names: seq<string>, o: Ec2MetadataOutput)
    requires names == OutputFieldNames
    requires ReadJsonFields(fields + "}", names) == Some(OutputFieldValues(o))
    ensures Unmarshal("{" + fields + "}") == Some(o)
  {
    var s := "{" + fields + "}";
    AfterBrace(fields);
    OutputFieldValuesDecode(o);
    UnmarshalOf(s, fields + "}", names, OutputFieldValues(o));
  }

  /** The record's own fields, braced, unmarshal to the record. */
  lemma UnmarshalFields(names: seq<string>, values: seq<string>, o: Ec2MetadataOutput)
    requires names == OutputFieldNames && values == OutputFieldValues(o)
    ensures Unmarshal("{" + JsonFields(names, values) + "}") == Some(o)
  {
    ReadJsonFieldsOf(names, values);
    UnmarshalOfFields(JsonFields(names, values), names, o);
  }

  /**
   * json.Marshal of the record: its fields in declaration order, instants as
   * decimal seconds. A client reading the text back gets the record itself.
   */
  function Marshal(o: Ec2MetadataOutput): (m: string)
    ensures Unmarshal(m) == Some(o)
  {
    UnmarshalFields(OutputFieldNames, OutputFieldValues(o), o);
    "{" + JsonFields(OutputFieldNames, OutputFieldValues(o)) + "}"
  }

  /** Different records are never sent as the same text. */
  lemma MarshalInjective(o1: Ec2MetadataOutput, o2: Ec2MetadataOutput)
    requires Marshal(o1) == Marshal(o2)
    ensures o1 == o2
  {
  }

  // ---------------------------------------------------------------------------
  // setupInterface
  // ---------------------------------------------------------------------------

  datatype NetCall = AddAddress | RemoveAddress

  /**
   * setupInterface: find the loopback interface and add the metadata address
   * to it; when that fails, remove the address and add it once more. The
   * outcome of each operating-system call is an input (None: it succeeded,
   * Some(e): it failed with e); `calls` lists the calls made, in order.
   */
  method SetupInterface(loopback: Result<string, string>, firstAdd: Option<string>,
                        remove: Option<string>, secondAdd: Option<string>)
    returns (res: Result<string, string>, calls: seq<NetCall>)
    ensures multiset(calls)[AddAddress] <= 2 && multiset(calls)[RemoveAddress] <= 1
    ensures loopback.Failure? ==> res == loopback && calls == []
    ensures loopback.Success? ==>
              (res.Success? <==> firstAdd.None? || (remove.None? && secondAdd.None?))
    ensures res.Success? ==> res == loopback
    ensures loopback.Success? && res.Failure? ==>
              res.error == (if remove.Some? then remove.value else secondAdd.value)
    ensures calls == [] || calls[0] == AddAddress
    ensures RemoveAddress in calls <==> loopback.Success? && firstAdd.Some?
    ensures |calls| > 1 ==> calls[1] == RemoveAddress
    ensures (|calls| >= 1 && AddAddress in calls[1..]) <==>
              loopback.Success? && firstAdd.Some? && remove.None?
  {
    calls := [];
    if loopback.Failure? {
      return loopback, calls;
    }
    var lo := loopback.value;
    calls := calls + [AddAddress];
    if firstAdd.Some? {
      calls := calls + [RemoveAddress];
      if remove.Some? {
        assert calls == [AddAddress, RemoveAddress];
        return Failure(remove.value), calls;
      }
      calls := calls + [AddAddress];
      if secondAdd.Some? {
        assert calls == [AddAddress, RemoveAddress, AddAddress];
        return Failure(secondAdd.value), calls;
      }
    }
    assert calls == [AddAddress] || calls == [AddAddress, RemoveAddress, AddAddress];
    res := Success(lo);
  }
}
