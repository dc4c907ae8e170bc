/**
  The low-level WebDAV layer: the `Connection` object (its settings, its
  per-connection lock table and the requests it hands to the HTTP transport),
  the request bodies and headers it builds, and the stateless `Client` helpers
  of the same source file (`get_properties`, `get_property`, `get_lock`,
  `release_lock`).

  The transport is not modelled: every request is appended to `sent`, and the
  server's answer (a status, the parsed reply, the result of a LOCK) is a
  parameter of the operation that receives it.  `urljoin` is taken as a
  parameter of the connection and left uninterpreted.
*/
module Connection {
  import opened Wrappers
  import Parse

  /** One request handed to the transport: method, absolute URI, headers, body. */
  datatype Request = Request(verb: string, uri: string, headers: map<string, string>, body: string)

  /** A recorded lock: `token` holds, verbatim, whatever `get_lock` wrapped. */
  datatype LockToken = LockToken(token: string)

  const XmlDeclaration := "<?xml version=\"1.0\" encoding=\"utf-8\" ?>"

  // ---------------------------------------------------------------------------
  // PROPFIND request (section 14.20 of RFC 4918)

  const PropfindOpen := XmlDeclaration + "<D:propfind xmlns:D=\"DAV:\">"
  const PropfindClose := "</D:propfind>"

  /** One empty `<D:name/>` element per requested name, in order. */
  function PropElements(names: seq<string>): string {
    if names == [] then ""
    else PropElements(names[..|names| - 1]) + "<D:" + names[|names| - 1] + "/>"
  }

  /** The PROPFIND body: `allprop` when nothing is named, otherwise a `prop` list. */
  function PropfindBody(names: seq<string>): (body: string)
    ensures |PropfindOpen| + |PropfindClose| < |body|
    ensures body[..|PropfindOpen|] == PropfindOpen && body[|body| - |PropfindClose|..] == PropfindClose
  {
    PropfindOpen
    + (if names == [] then "<D:allprop/>" else "<D:prop>" + PropElements(names) + "</D:prop>")
    + PropfindClose
  }

  /** `if not properties: properties = []`: `None` and the empty list ask for everything. */
  function RequestedNames(properties: Option<seq<string>>): (names: seq<string>)
    ensures names == [] <==> properties.None? || properties == Some([])
    ensures properties.Some? ==> names == properties.value
  {
    match properties
    case None => []
    case Some(names) => names
  }

  /** Builds the PROPFIND body by appending to a string, as `get_properties` does. */
  method BuildPropfindBody(properties: Option<seq<string>>) returns (body: string)
    ensures body == PropfindBody(RequestedNames(properties))
  {
    var names := RequestedNames(properties);
    body := XmlDeclaration;
    body := body + "<D:propfind xmlns:D=\"DAV:\">";
    if names != [] {
      body := body + "<D:prop>";
      var i := 0;
      while i < |names|
        invariant 0 <= i <= |names|
        invariant body == PropfindOpen + "<D:prop>" + PropElements(names[..i])
      {
        assert names[..i + 1][..i] == names[..i];
        body := body + "<D:" + names[i] + "/>";
        i := i + 1;
      }
      assert names[..|names|] == names;
      body := body + "</D:prop>";
    } else {
      body := body + "<D:allprop/>";
    }
    body := body + "</D:propfind>";
  }

  /** The PROPFIND URI gets one trailing `/` unless it is empty or already has one. */
  function PropfindUri(uri: string): (r: string)
    ensures uri == "" ==> r == ""
    ensures uri != "" ==> |r| > 0 && r[|r| - 1] == '/'
    ensures |uri| <= |r| <= |uri| + 1 && r[..|uri|] == uri
    ensures uri != "" && uri[|uri| - 1] == '/' ==> r == uri
  {
    if uri != "" && uri[|uri| - 1] != '/' then uri + "/" else uri
  }

  /** PROPFIND headers: `Depth: 1` (section 10.2 of RFC 4918) unless the caller supplies `Depth`. */
  function PropfindHeaders(extraHeaders: map<string, string>): (h: map<string, string>)
    ensures h.Keys == extraHeaders.Keys + {"Depth"}
    ensures h["Depth"] == if "Depth" in extraHeaders then extraHeaders["Depth"] else "1"
    ensures forall k :: k in extraHeaders ==> h[k] == extraHeaders[k]
  {
    map["Depth" := "1"] + extraHeaders
  }

  // ---------------------------------------------------------------------------
  // LOCK and UNLOCK bodies (sections 9.10, 9.11 and 14.11 of RFC 4918)

  const LockBodyOpen := XmlDeclaration
    + "<D:lockinfo xmlns:D=\"DAV:\"><D:lockscope><D:exclusive/>"
    + "</D:lockscope><D:locktype><D:write/></D:locktype><D:owner>"
    + "<D:href>"
  const LockBodyClose := "</D:href>" + "</D:owner></D:lockinfo>"

  /** The exclusive write `lockinfo` body, with `owner` as the owner's href. */
  function LockBody(owner: string): (body: string)
    ensures |body| == |LockBodyOpen| + |owner| + |LockBodyClose|
    ensures body[..|LockBodyOpen|] == LockBodyOpen && body[|LockBodyOpen|..|LockBodyOpen| + |owner|] == owner
    ensures body[|LockBodyOpen| + |owner|..] == LockBodyClose
  {
    LockBodyOpen + owner + LockBodyClose
  }

  /** Reads the owner href back out of a `lockinfo` body built by `LockBody`. */
  function OwnerOf(body: string): Option<string> {
    if |body| >= |LockBodyOpen| + |LockBodyClose|
       && body[..|LockBodyOpen|] == LockBodyOpen
       && body[|body| - |LockBodyClose|..] == LockBodyClose
    then Some(body[|LockBodyOpen|..|body| - |LockBodyClose|])
    else None
  }

  // ---------------------------------------------------------------------------
  // The connection object

  class Connection {
    const host: string
    const port: int
    const realm: string
    const username: string
    const password: string
    /** `urljoin(base, reference)`, left uninterpreted. */
    const urljoin: (string, string) -> string
    /** The working collection path; `Client.chdir` rewrites it. */
    var path: string
    /** Resource URI to the lock recorded for it. */
    var locks: map<string, LockToken>
    /** Every request handed to the transport, oldest first. */
    var sent: seq<Request>

    constructor (host: string, path: string, port: int, realm: string, username: string, password: string,
                 urljoin: (string, string) -> string)
      ensures this.host == host && this.path == path && this.port == port && this.realm == realm
      ensures this.username == username && this.password == password && this.urljoin == urljoin
      ensures locks == map[] && sent == []
    {
      this.host := host;
      this.path := path;
      this.port := port;
      this.realm := realm;
      this.username := username;
      this.password := password;
      this.urljoin := urljoin;
      locks := map[];
      sent := [];
    }

    /** `_send_request`: the URI is `urljoin(host, path)`. */
    method SendRequest(verb: string, path: string, body: string, headers: map<string, string>)
      modifies this`sent
      ensures sent == old(sent) + [Request(verb, urljoin(host, path), headers, body)]
    {
      sent := sent + [Request(verb, urljoin(host, path), headers, body)];
    }

    method SendPropfind(path: string, body: string, extraHeaders: map<string, string>)
      modifies this`sent
      ensures sent == old(sent) + [Request("PROPFIND", urljoin(host, path), PropfindHeaders(extraHeaders), body)]
    {
      var headers := map["Depth" := "1"];
      headers := headers + extraHeaders;
      SendRequest("PROPFIND", path, body, headers);
    }

    method SendLock(path: string)
      modifies this`sent
      ensures sent == old(sent) + [Request("LOCK", urljoin(host, path), map[], LockBody(urljoin(host, path)))]
    {
      SendRequest("LOCK", path, LockBody(urljoin(host, path)), map[]);
    }

    /** UNLOCK sends the recorded token verbatim as `Lock-Token` (section 10.5 of RFC 4918). */
    method SendUnlock(path: string, lockToken: LockToken)
      modifies this`sent
      ensures sent == old(sent) + [Request("UNLOCK", urljoin(host, path), map["Lock-Token" := lockToken.token],
                                           LockBody(urljoin(host, path)))]
    {
      SendRequest("UNLOCK", path, LockBody(urljoin(host, path)), map["Lock-Token" := lockToken.token]);
    }

    /** COPY names its target in `Destination` as an absolute URI (section 10.3 of RFC 4918). */
    method SendCopy(path: string, destination: string)
      modifies this`sent
      ensures sent == old(sent) + [Request("COPY", urljoin(host, path), map["Destination" := urljoin(host, destination)], "")]
    {
      SendRequest("COPY", path, "", map["Destination" := urljoin(host, destination)]);
    }

    method SendMkcol(path: string)
      modifies this`sent
      ensures sent == old(sent) + [Request("MKCOL", urljoin(host, path), map[], "")]
    {
      SendRequest("MKCOL", path, "", map[]);
    }

    /** A collection is removed with DELETE. */
    method SendRmcol(path: string)
      modifies this`sent
      ensures sent == old(sent) + [Request("DELETE", urljoin(host, path), map[], "")]
    {
      SendRequest("DELETE", path, "", map[]);
    }
  }

  /** `Property`: a bag of named values set one by one. */
  class Property {
    var values: map<string, Option<string>>

    constructor ()
      ensures values == map[]
    {
      values := map[];
    }

    method SetProperty(name: string, value: Option<string>)
      modifies this
      ensures values == old(values)[name := value]
    {
      values := values[name := value];
    }
  }

  // ---------------------------------------------------------------------------
  // The stateless helpers of `connection.Client`

  datatype ClientError =
    | ParseFailed(cause: Parse.ParseError)           // the parser's exception, propagated
    | HttpError(status: int, content: Parse.Element) // `HttpLib2Error([resp, prop_xml])`
    | NoResources                                    // `[0]` on an empty result list
    | NoLockToken                                    // `resp['lock-token']` missing: the KeyError of `send_lock`

  predicate IsSuccess(status: int) {
    200 <= status && status < 300
  }

  /** What `get_properties` returns for a reply with this status and body. */
  function PropertiesOf(status: int, reply: Parse.Element): (result: Result<seq<Parse.Response>, ClientError>)
    ensures !IsSuccess(status) ==> result == Err(HttpError(status, reply))
    ensures result.Ok? ==> IsSuccess(status) && |result.value| == |Parse.ResponsesOf(reply)|
    ensures result.Err? && IsSuccess(status) ==> result.error.ParseFailed?
  {
    if IsSuccess(status) then
      var outcome := Parse.ParseAll(Parse.ResponsesOf(reply));
      match outcome.error
      case None => Ok(outcome.built)
      case Some(e) => Err(ParseFailed(e))
    else Err(HttpError(status, reply))
  }

  /** The PROPFIND that `get_properties` sends for `resourceUri`. */
  function PropertiesRequest(conn: Connection, resourceUri: string, properties: Option<seq<string>>): Request
    reads conn
  {
    Request("PROPFIND", conn.urljoin(conn.host, PropfindUri(resourceUri)), PropfindHeaders(map[]),
            PropfindBody(RequestedNames(properties)))
  }

  /** `get_properties`: one PROPFIND, then a fresh parser over a 2xx reply. */
  method GetProperties(conn: Connection, resourceUri: string, properties: Option<seq<string>>,
                       status: int, reply: Parse.Element)
    returns (result: Result<seq<Parse.Response>, ClientError>)
    modifies conn`sent
    ensures conn.sent == old(conn.sent) + [PropertiesRequest(conn, resourceUri, properties)]
    ensures result == PropertiesOf(status, reply)
  {
    var body := BuildPropfindBody(properties);
    var uri := resourceUri;
    if uri != "" && uri[|uri| - 1] != '/' {
      uri := uri + "/";
    }
    conn.SendPropfind(uri, body, map[]);
    if IsSuccess(status) {
      var parser := new Parse.LxmlParser();
      var parsed := parser.Parse(reply);
      assert parser.responseObjects == Parse.ParseAll(Parse.ResponsesOf(reply)).built;
      if parsed.Err? {
        return Err(ParseFailed(parsed.error));
      }
      result := Ok(parser.responseObjects);
    } else {
      result := Err(HttpError(status, reply));
    }
  }

  /** What `getattr(response, name, '')` yields. */
  datatype AttributeValue = Str(s: string) | NoneValue | LockList(locks: seq<Parse.Lock>)

  function FromOption(o: Option<string>): AttributeValue {
    match o
    case None => NoneValue
    case Some(s) => Str(s)
  }

  function Attribute(r: Parse.Response, name: string): (value: AttributeValue)
    ensures value.LockList? <==> name == "locks"
    ensures value.LockList? ==> value.locks == r.locks
  {
    if name == "href" then FromOption(r.href)
    else if name == "resourcetype" then FromOption(r.resourcetype)
    else if name == "creationdate" then FromOption(r.creationdate)
    else if name == "getcontentlength" then FromOption(r.getcontentlength)
    else if name == "getlastmodified" then FromOption(r.getlastmodified)
    else if name == "getetag" then FromOption(r.getetag)
    else if name == "executable" then FromOption(r.executable)
    else if name == "locks" then LockList(r.locks)
    else if name == "getcontenttype" then FromOption(r.getcontenttype)
    else if name == "status" then FromOption(r.status)
    else Str("")
  }

  /** `get_property`: the named attribute of the first record of a one-name PROPFIND. */
  method GetProperty(conn: Connection, resourceUri: string, propertyName: string, status: int, reply: Parse.Element)
    returns (result: Result<AttributeValue, ClientError>)
    modifies conn`sent
    ensures conn.sent == old(conn.sent) + [PropertiesRequest(conn, resourceUri, Some([propertyName]))]
    ensures result == match PropertiesOf(status, reply)
                      case Err(e) => Err(e)
                      case Ok(rs) => if rs == [] then Err(NoResources) else Ok(Attribute(rs[0], propertyName))
  {
    var properties := GetProperties(conn, resourceUri, Some([propertyName]), status, reply);
    if properties.Err? {
      return Err(properties.error);
    }
    if properties.value == [] {
      return Err(NoResources);
    }
    result := Ok(Attribute(properties.value[0], propertyName));
  }

  // ---------------------------------------------------------------------------
  // The lock table: a two-state machine per resource URI

  /** `release_lock`'s result: `False` when nothing was recorded, else the UNLOCK status. */
  datatype ReleaseOutcome = NothingRecorded | Released(status: int)

  /** The table after `get_lock` recorded `lock` for `uri`. */
  function AfterLock(locks: map<string, LockToken>, uri: string, lock: string): (after: map<string, LockToken>)
    ensures after.Keys == locks.Keys + {uri} && after[uri] == LockToken(lock)
    ensures forall k :: k in locks && k != uri ==> after[k] == locks[k]
  {
    locks[uri := LockToken(lock)]
  }

  /** The table after `release_lock` on `uri` whose UNLOCK answered `status`. */
  function AfterRelease(locks: map<string, LockToken>, uri: string, status: int): (after: map<string, LockToken>)
    ensures after.Keys <= locks.Keys && forall k :: k in after ==> after[k] == locks[k]
    ensures after.Keys + {uri} >= locks.Keys
  {
    if uri in locks && IsSuccess(status) then locks - {uri} else locks
  }

  /** `get_lock`: sends LOCK, records what it returned under `resourceUri`, returns it.
      `lock` stands for the value `send_lock` returned, and is `None` when the reply had
      no `Lock-Token` header: `send_lock` then raises before returning, and nothing is
      recorded. */
  method GetLock(resourceUri: string, conn: Connection, lock: Option<string>) returns (result: Result<string, ClientError>)
    modifies conn`sent, conn`locks
    ensures lock.None? ==> result == Err(NoLockToken) && conn.locks == old(conn.locks)
    ensures lock.Some? ==> result == Ok(lock.value) && conn.locks == AfterLock(old(conn.locks), resourceUri, lock.value)
    ensures conn.sent == old(conn.sent) + [Request("LOCK", conn.urljoin(conn.host, resourceUri), map[],
                                                   LockBody(conn.urljoin(conn.host, resourceUri)))]
  {
    conn.SendLock(resourceUri);
    if lock.None? {
      return Err(NoLockToken);
    }
    conn.locks := conn.locks[resourceUri := LockToken(lock.value)];
    result := Ok(lock.value);
  }

  /** `release_lock`: nothing recorded means no request and `False`; otherwise UNLOCK with the
      recorded token, and the entry goes only when the status is 2xx.  `status` is the
      server's answer to the UNLOCK. */
  method ReleaseLock(resourceUri: string, conn: Connection, status: int) returns (result: ReleaseOutcome)
    modifies conn`sent, conn`locks
    ensures conn.locks == AfterRelease(old(conn.locks), resourceUri, status)
    ensures resourceUri !in old(conn.locks) ==> result == NothingRecorded && conn.sent == old(conn.sent)
    ensures resourceUri in old(conn.locks) ==>
              result == Released(status) &&
              conn.sent == old(conn.sent) + [Request("UNLOCK", conn.urljoin(conn.host, resourceUri),
                                                     map["Lock-Token" := old(conn.locks)[resourceUri].token],
                                                     LockBody(conn.urljoin(conn.host, resourceUri)))]
  {
    if resourceUri !in conn.locks {
      return NothingRecorded;
    }
    conn.SendUnlock(resourceUri, conn.locks[resourceUri]);
    if IsSuccess(status) {
      conn.locks := conn.locks - {resourceUri};
    }
    result := Released(status);
  }

  // ---------------------------------------------------------------------------
  // Properties

  /** The element list is built name by name: the list for `a + b` is `a`'s followed by `b`'s. */
  lemma {:induction false} PropElementsConcat(a: seq<string>, b: seq<string>)
    ensures PropElements(a + b) == PropElements(a) + PropElements(b)
    decreases |b|
  {
    if b == [] {
      assert a + b == a;
    } else {
      var front := b[..|b| - 1];
      assert (a + b)[..|a + b| - 1] == a + front;
      PropElementsConcat(a, front);
    }
  }

  /** Each requested name contributes exactly `<D:name/>`. */
  lemma PropElementsSingle(name: string)
    ensures PropElements([name]) == "<D:" + name + "/>"
  {
    assert [name][..0] == [];
  }

  /** A PROPFIND asks for `allprop` exactly when no property is named. */
  lemma AllpropIffNoNames(names: seq<string>)
    ensures PropfindBody(names) == PropfindBody([]) <==> names == []
  {
    if names != [] {
      var n := |PropfindOpen|;
      assert PropfindBody(names)[n + 3] == 'p';
      assert PropfindBody([])[n + 3] == 'a';
    }
  }

  /** `None` and the empty list send the same `allprop` body. */
  lemma NoneAndEmptyAgree()
    ensures PropfindBody(RequestedNames(None)) == PropfindBody(RequestedNames(Some([])))
  {
  }

  /** Adding the trailing `/` twice is the same as adding it once. */
  lemma PropfindUriIdempotent(uri: string)
    ensures PropfindUri(PropfindUri(uri)) == PropfindUri(uri)
  {
  }

  /** The owner href can be read back from the lock body, so distinct owners give distinct bodies. */
  lemma LockBodyRoundTrip(owner: string)
    ensures OwnerOf(LockBody(owner)) == Some(owner)
  {
    var body := LockBody(owner);
    assert body[..|LockBodyOpen|] == LockBodyOpen;
    assert body[|body| - |LockBodyClose|..] == LockBodyClose;
    assert body[|LockBodyOpen|..|body| - |LockBodyClose|] == owner;
  }

  lemma LockBodyInjective(a: string, b: string)
    ensures LockBody(a) == LockBody(b) ==> a == b
  {
    LockBodyRoundTrip(a);
    LockBodyRoundTrip(b);
  }

  /** `get_properties` yields records only for a 2xx reply whose every response element
      builds, and then one record per element, in document order. */
  lemma PropertiesOnSuccessOnly(status: int, reply: Parse.Element)
    ensures PropertiesOf(status, reply).Ok? <==>
              IsSuccess(status) &&
              forall i :: 0 <= i < |Parse.ResponsesOf(reply)| ==> Parse.ResponseOf(Parse.ResponsesOf(reply)[i]).Ok?
    ensures PropertiesOf(status, reply).Ok? ==>
              |PropertiesOf(status, reply).value| == |Parse.ResponsesOf(reply)| &&
              forall j :: 0 <= j < |Parse.ResponsesOf(reply)| ==>
                Parse.ResponseOf(Parse.ResponsesOf(reply)[j]) == Ok(PropertiesOf(status, reply).value[j])
    ensures !IsSuccess(status) ==> PropertiesOf(status, reply) == Err(HttpError(status, reply))
  {
    Parse.ParseSucceedsIff(Parse.ResponsesOf(reply));
    Parse.ParseAllInDocumentOrder(Parse.ResponsesOf(reply));
  }

  /** Each record attribute reads as that field of the record. */
  lemma AttributeReadsField(r: Parse.Response)
    ensures Attribute(r, "href") == FromOption(r.href)
    ensures Attribute(r, "resourcetype") == FromOption(r.resourcetype)
    ensures Attribute(r, "creationdate") == FromOption(r.creationdate)
    ensures Attribute(r, "getcontentlength") == FromOption(r.getcontentlength)
    ensures Attribute(r, "getlastmodified") == FromOption(r.getlastmodified)
    ensures Attribute(r, "getetag") == FromOption(r.getetag)
    ensures Attribute(r, "executable") == FromOption(r.executable)
    ensures Attribute(r, "locks") == LockList(r.locks)
    ensures Attribute(r, "getcontenttype") == FromOption(r.getcontenttype)
    ensures Attribute(r, "status") == FromOption(r.status)
  {
  }

  /** An attribute name the record does not have reads as the empty string. */
  lemma UnknownAttributeIsEmpty(r: Parse.Response, name: string)
    requires name !in {"href", "resourcetype", "creationdate", "getcontentlength", "getlastmodified",
                       "getetag", "executable", "locks", "getcontenttype", "status"}
    ensures Attribute(r, name) == Str("")
  {
  }

  /** Locking then releasing: a 2xx UNLOCK leaves the table without the URI, any other
      status keeps the new lock, and other URIs are untouched either way. */
  lemma LockThenRelease(locks: map<string, LockToken>, uri: string, lock: string, status: int)
    ensures IsSuccess(status) ==> AfterRelease(AfterLock(locks, uri, lock), uri, status) == locks - {uri}
    ensures !IsSuccess(status) ==> AfterRelease(AfterLock(locks, uri, lock), uri, status)[uri] == LockToken(lock)
    ensures forall k :: k != uri ==>
              (k in AfterRelease(AfterLock(locks, uri, lock), uri, status) <==> k in locks)
  {
    var after := AfterRelease(AfterLock(locks, uri, lock), uri, status);
    if IsSuccess(status) {
      assert after == locks[uri := LockToken(lock)] - {uri};
      assert after == locks - {uri};
    }
  }

  /** Releasing a URI never touches the other entries, and a URI with no lock leaves the table as it was. */
  lemma ReleaseTouchesOnlyItsUri(locks: map<string, LockToken>, uri: string, status: int)
    ensures uri !in locks ==> AfterRelease(locks, uri, status) == locks
    ensures forall k :: k != uri && k in locks ==>
              k in AfterRelease(locks, uri, status) && AfterRelease(locks, uri, status)[k] == locks[k]
    ensures uri in AfterRelease(locks, uri, status) <==> uri in locks && !IsSuccess(status)
  {
  }
}
