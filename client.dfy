/**
  The high-level, shell-like client: the constructor's path rule, the working
  collection (`chdir`, `pwd`), `mkdir`/`rmdir` path resolution and the `ls`
  listing formatter.  Requests go through a `Connection.Connection`; the reply
  to the PROPFIND behind `ls` is a parameter.
*/
module Client {
  import opened Wrappers
  import opened PosixPath
  import Parse
  import Conn = Connection

  datatype ClientError =
    | PathIndexError                 // `path[-1]` on an empty settings path
    | UnknownSymbol(symbol: string)  // a format symbol missing from the format map
    | Fetch(cause: Conn.ClientError) // the PROPFIND behind `ls` failed

  // ---------------------------------------------------------------------------
  // Constructor path rule

  /** The settings path: a `/` is appended unless the path ends in one or is exactly `.`;
      the empty path has no last character and is an error. */
  function SettingsPath(path: string): (r: Option<string>)
    ensures r.None? <==> path == ""
    ensures r.Some? ==> |path| <= |r.value| <= |path| + 1 && r.value[..|path|] == path
    ensures r.Some? ==> r.value == "." || r.value[|r.value| - 1] == '/'
    ensures path != "" && (path == "." || path[|path| - 1] == '/') ==> r == Some(path)
  {
    if path == "" then None
    else if path[|path| - 1] != '/' && path != "." then Some(path + "/")
    else Some(path)
  }

  /** A path that already obeys the rule is kept, so the rule is idempotent. */
  lemma SettingsPathIdempotent(path: string)
    requires path != ""
    ensures SettingsPath(SettingsPath(path).value) == SettingsPath(path)
  {
  }

  // ---------------------------------------------------------------------------
  // chdir

  /** The first step of `chdir`: a leading `/` is added when missing. */
  function Absolute(path: string): (r: string)
    ensures IsAbsolute(r)
    ensures IsAbsolute(path) ==> r == path
    ensures !IsAbsolute(path) ==> r == "/" + path
  {
    if IsAbsolute(path) then path else "/" + path
  }

  /** The working path after `chdir(directory)` from `cwd`. */
  function ChdirPath(cwd: string, directory: string): (r: string)
    ensures IsAbsolute(r)
    ensures r == "/" + Join(Components(r))
  {
    var joined := PathJoin(Absolute(cwd), directory);
    assert IsAbsolute(joined);
    SplitNormalPath(Components(joined));
    RealPath(joined)
  }

  /** Entering a plain child name adds exactly that component. */
  lemma ChdirIntoChild(cwd: string, name: string)
    requires IsSegment(name)
    ensures Components(ChdirPath(cwd, name)) == Components(Absolute(cwd)) + [name]
  {
    JoinComponent(Absolute(cwd), name);
    SplitNormalPath(Components(PathJoin(Absolute(cwd), name)));
  }

  /** `chdir('..')` drops the last component of the normalised working path, and at the
      root stays at the root. */
  lemma ChdirToParent(cwd: string)
    ensures Components(ChdirPath(cwd, "..")) == Step(Components(Absolute(cwd)), "..")
    ensures Components(Absolute(cwd)) == [] ==> ChdirPath(cwd, "..") == "/"
  {
    JoinComponent(Absolute(cwd), "..");
    SplitNormalPath(Components(PathJoin(Absolute(cwd), "..")));
  }

  /** Going into a child and back out lands on the normalised starting path. */
  lemma ChdirChildThenParent(cwd: string, name: string)
    requires IsSegment(name)
    ensures ChdirPath(ChdirPath(cwd, name), "..") == RealPath(Absolute(cwd))
  {
    var child := ChdirPath(cwd, name);
    ChdirIntoChild(cwd, name);
    ChdirToParent(child);
    assert Components(ChdirPath(child, "..")) == Components(Absolute(cwd));
  }

  /** An absolute target replaces the working path; a normalised one is kept verbatim. */
  lemma ChdirAbsolute(cwd: string, directory: string)
    requires IsAbsolute(directory)
    ensures ChdirPath(cwd, directory) == RealPath(directory)
    ensures directory == "/" + Join(Components(directory)) ==> ChdirPath(cwd, directory) == directory
  {
  }

  lemma ComponentsOfRoot()
    ensures Components("/") == []
  {
    assert Split("/") == ["", ""];
  }

  lemma ComponentsOfOneName(name: string)
    requires IsSegment(name)
    ensures Components("/" + name) == [name]
    ensures Components("/" + name + "/") == [name]
  {
    SplitNormalPath([name]);
    assert "/" + Join([name]) == "/" + name;
    assert "/" + name + "/" == ("/" + name) + "/" + "";
    ComponentsAfterSeparator("/" + name, "");
  }

  /** `chdir('..')` from `''`, `/`, `/name` or `name/` lands on the root. */
  lemma ChdirParentToRoot(name: string)
    requires IsSegment(name)
    ensures ChdirPath("", "..") == "/"
    ensures ChdirPath("/", "..") == "/"
    ensures ChdirPath("/" + name, "..") == "/"
    ensures ChdirPath(name + "/", "..") == "/"
  {
    assert ChdirPath("", "..") == "/" by {
      ComponentsOfRoot();
      ChdirToParent("");
    }
    assert ChdirPath("/", "..") == "/" by {
      ComponentsOfRoot();
      ChdirToParent("/");
    }
    assert ChdirPath("/" + name, "..") == "/" by {
      ComponentsOfOneName(name);
      ChdirToParent("/" + name);
    }
    assert ChdirPath(name + "/", "..") == "/" by {
      ComponentsOfOneName(name);
      assert Absolute(name + "/") == "/" + name + "/";
      ChdirToParent(name + "/");
    }
  }

  /** `chdir(name)` from `''` gives `/name`, and a second one `/name/name`. */
  lemma ChdirNameFromEmpty(name: string)
    requires IsSegment(name)
    ensures ChdirPath("", name) == "/" + name
  {
    ComponentsOfRoot();
    ChdirIntoChild("", name);
  }

  lemma ChdirNameTwice(name: string)
    requires IsSegment(name)
    ensures ChdirPath("/" + name, name) == "/" + name + "/" + name
  {
    var r := ChdirPath("/" + name, name);
    ComponentsOfOneName(name);
    ChdirIntoChild("/" + name, name);
    assert Components(r) == [name, name];
    assert Join([name, name]) == name + "/" + name by {
      assert [name, name][1..] == [name];
    }
  }

  /** An absolute normalised target such as `/foo/bar` replaces the working path. */
  lemma ChdirAbsoluteExample(cwd: string, a: string, b: string)
    requires IsSegment(a) && IsSegment(b)
    ensures ChdirPath(cwd, "/" + a + "/" + b) == "/" + a + "/" + b
  {
    var d := "/" + a + "/" + b;
    assert [a, b][1..] == [b];
    assert d == "/" + Join([a, b]);
    SplitNormalPath([a, b]);
    assert Components(d) == [a, b];
    ChdirAbsolute(cwd, d);
  }

  // ---------------------------------------------------------------------------
  // mkdir and rmdir

  /** A path not starting with `/` is taken relative to the working path. */
  function CollectionPath(cwd: string, path: string): (r: string)
    ensures IsAbsolute(path) ==> r == path
    ensures !IsAbsolute(path) ==> |r| == |cwd| + 1 + |path| && r[..|cwd| + 1] == cwd + "/" && r[|cwd| + 1..] == path
  {
    if IsAbsolute(path) then path else cwd + "/" + path
  }

  // ---------------------------------------------------------------------------
  // ls

  /** The format symbols and the property each one shows. */
  const FormatMap: map<string, string> := map[
    "T" := "resourcetype",
    "D" := "creationdate",
    "F" := "href",
    "M" := "getlastmodified",
    "A" := "executable",
    "E" := "getetag",
    "C" := "getcontenttype"]

  /** The format `ls` uses when it is given none. */
  const DefaultFormat: seq<string> := ["F", "C", "M"]

  /** The value of one of the mapped properties of a record. */
  function FieldValue(r: Parse.Response, field: string): (value: Option<string>)
    ensures value.Some? ==> field in FormatMap.Values
  {
    assert FormatMap["T"] in FormatMap.Values && FormatMap["D"] in FormatMap.Values;
    assert FormatMap["F"] in FormatMap.Values && FormatMap["M"] in FormatMap.Values;
    assert FormatMap["A"] in FormatMap.Values && FormatMap["E"] in FormatMap.Values;
    assert FormatMap["C"] in FormatMap.Values;
    if field == "resourcetype" then r.resourcetype
    else if field == "creationdate" then r.creationdate
    else if field == "href" then r.href
    else if field == "getlastmodified" then r.getlastmodified
    else if field == "executable" then r.executable
    else if field == "getetag" then r.getetag
    else if field == "getcontenttype" then r.getcontenttype
    else None
  }

  function StripLeadingQuotes(s: string): (r: string)
    ensures |r| <= |s|
  {
    if s != [] && s[0] == '"' then StripLeadingQuotes(s[1..]) else s
  }

  function StripTrailingQuotes(s: string): (r: string)
    ensures |r| <= |s|
  {
    if s != [] && s[|s| - 1] == '"' then StripTrailingQuotes(s[..|s| - 1]) else s
  }

  /** `s.strip('"')`: every leading and every trailing `"` removed. */
  function StripQuotes(s: string): (r: string)
    ensures |r| <= |s|
  {
    StripTrailingQuotes(StripLeadingQuotes(s))
  }

  /** `if not str_prop: str_prop = ''`: a missing or empty value shows as `''`. */
  function Shown(value: Option<string>): (text: string)
    ensures value.None? ==> text == ""
    ensures value.Some? ==> text == value.value
  {
    if value.None? || value.value == "" then "" else value.value
  }

  /** What one format symbol shows for one record: a missing or empty value is `""`,
      and an ETag loses its surrounding quotes. */
  function Cell(r: Parse.Response, symbol: string): (cell: Result<string, ClientError>)
    ensures cell.Err? <==> symbol !in FormatMap
    ensures cell.Err? ==> cell.error == UnknownSymbol(symbol)
  {
    if symbol !in FormatMap then Err(UnknownSymbol(symbol))
    else
      var text := Shown(FieldValue(r, FormatMap[symbol]));
      if symbol == "E" then Ok(StripQuotes(text)) else Ok(text)
  }

  /** One row: a cell per symbol, in symbol order; the first unknown symbol is an error. */
  function Row(r: Parse.Response, format: seq<string>): (row: Result<seq<string>, ClientError>)
    ensures row.Ok? ==> |row.value| == |format|
    ensures row.Err? ==> row.error.UnknownSymbol?
  {
    if format == [] then Ok([])
    else
      match Row(r, format[..|format| - 1])
      case Err(e) => Err(e)
      case Ok(cells) =>
        match Cell(r, format[|format| - 1])
        case Err(e) => Err(e)
        case Ok(c) => Ok(cells + [c])
  }

  /** One row per record, in record order; the first record's error stops the listing. */
  function Rows(rs: seq<Parse.Response>, format: seq<string>): (rows: Result<seq<seq<string>>, ClientError>)
    ensures rows.Ok? ==> |rows.value| == |rs|
    ensures rows.Err? ==> rows.error.UnknownSymbol? && rs != []
  {
    if rs == [] then Ok([])
    else
      match Rows(rs[..|rs| - 1], format)
      case Err(e) => Err(e)
      case Ok(rows) =>
        match Row(rs[|rs| - 1], format)
        case Err(e) => Err(e)
        case Ok(row) => Ok(rows + [row])
  }

  lemma {:induction false} RowStopsAtError(r: Parse.Response, format: seq<string>, k: nat)
    requires k <= |format|
    requires Row(r, format[..k]).Err?
    ensures Row(r, format) == Row(r, format[..k])
    decreases |format| - k
  {
    if k < |format| {
      var front := format[..|format| - 1];
      assert front[..k] == format[..k];
      RowStopsAtError(r, front, k);
    } else {
      assert format[..k] == format;
    }
  }

  lemma {:induction false} RowsStopAtError(rs: seq<Parse.Response>, format: seq<string>, k: nat)
    requires k <= |rs|
    requires Rows(rs[..k], format).Err?
    ensures Rows(rs, format) == Rows(rs[..k], format)
    decreases |rs| - k
  {
    if k < |rs| {
      var front := rs[..|rs| - 1];
      assert front[..k] == rs[..k];
      RowsStopAtError(front, format, k);
    } else {
      assert rs[..k] == rs;
    }
  }

  /** The rows `ls` collects, built with the nested loops of the source. */
  method FormatRows(props: seq<Parse.Response>, listFormat: seq<string>)
    returns (result: Result<seq<seq<string>>, ClientError>)
    ensures result == Rows(props, listFormat)
  {
    var propertyLists: seq<seq<string>> := [];
    var i := 0;
    while i < |props|
      invariant 0 <= i <= |props|
      invariant Rows(props[..i], listFormat) == Ok(propertyLists)
    {
      var prop := props[i];
      var formattedList: seq<string> := [];
      var j := 0;
      while j < |listFormat|
        invariant 0 <= j <= |listFormat|
        invariant Row(prop, listFormat[..j]) == Ok(formattedList)
      {
        var symbol := listFormat[j];
        assert listFormat[..j + 1][..j] == listFormat[..j];
        if symbol !in FormatMap {
          RowStopsAtError(prop, listFormat, j + 1);
          assert props[..i + 1][..i] == props[..i];
          RowsStopAtError(props, listFormat, i + 1);
          return Err(UnknownSymbol(symbol));
        }
        var value := FieldValue(prop, FormatMap[symbol]);
        var strProp := if value.None? || value.value == "" then "" else value.value;
        if symbol == "E" {
          strProp := StripQuotes(strProp);
        }
        formattedList := formattedList + [strProp];
        j := j + 1;
      }
      assert listFormat[..|listFormat|] == listFormat;
      assert props[..i + 1][..i] == props[..i];
      propertyLists := propertyLists + [formattedList];
      i := i + 1;
    }
    assert props[..|props|] == props;
    result := Ok(propertyLists);
  }

  // ---------------------------------------------------------------------------
  // The client object

  class Client {
    const host: string
    const port: int
    const realm: string
    /** The path after the constructor's rule. */
    const settingsPath: string
    /** `urljoin`, handed on to the connection. */
    const urljoin: (string, string) -> string
    /** `None` until `set_connection`. */
    var connection: Conn.Connection?

    /** Stores settings whose path has already been through `SettingsPath`. */
    constructor (host: string, settingsPath: string, port: int, realm: string, urljoin: (string, string) -> string)
      ensures this.host == host && this.settingsPath == settingsPath && this.port == port
      ensures this.realm == realm && this.urljoin == urljoin
      ensures connection == null
    {
      this.host := host;
      this.settingsPath := settingsPath;
      this.port := port;
      this.realm := realm;
      this.urljoin := urljoin;
      connection := null;
    }

    /** `set_connection`: a fresh connection from the stored settings and the credentials. */
    method SetConnection(username: string, password: string)
      modifies this`connection
      ensures connection != null && fresh(connection)
      ensures connection.host == host && connection.path == settingsPath && connection.port == port
      ensures connection.realm == realm && connection.username == username && connection.password == password
      ensures connection.urljoin == urljoin
      ensures connection.locks == map[] && connection.sent == []
    {
      connection := new Conn.Connection(host, settingsPath, port, realm, username, password, urljoin);
    }

    /** `chdir`: make the working path absolute, then normalise it joined with `directory`. */
    method Chdir(directory: string)
      requires connection != null
      modifies connection`path
      ensures connection.path == ChdirPath(old(connection.path), directory)
    {
      if !IsAbsolute(connection.path) {
        connection.path := "/" + connection.path;
      }
      connection.path := RealPath(PathJoin(connection.path, directory));
    }

    /** `mkdir`: MKCOL on the path, taken relative to the working path unless absolute. */
    method Mkdir(path: string)
      requires connection != null
      modifies connection`sent
      ensures connection.sent == old(connection.sent) +
                [Conn.Request("MKCOL", connection.urljoin(connection.host, CollectionPath(connection.path, path)), map[], "")]
    {
      var target := path;
      if !IsAbsolute(target) {
        target := connection.path + "/" + target;
      }
      connection.SendMkcol(target);
    }

    /** `rmdir`: DELETE on the path, resolved as for `mkdir`. */
    method Rmdir(dirPath: string)
      requires connection != null
      modifies connection`sent
      ensures connection.sent == old(connection.sent) +
                [Conn.Request("DELETE", connection.urljoin(connection.host, CollectionPath(connection.path, dirPath)), map[], "")]
    {
      var target := dirPath;
      if !IsAbsolute(target) {
        target := connection.path + "/" + target;
      }
      connection.SendRmcol(target);
    }

    /** `ls`: PROPFIND on the path (the working path when empty), then one row per record.
        `listFormat` is `None` when the caller leaves the default format; `status` and
        `reply` are the server's answer to the PROPFIND. */
    method Ls(path: string, listFormat: Option<seq<string>>, status: int, reply: Parse.Element)
      returns (result: Result<seq<seq<string>>, ClientError>)
      requires connection != null
      modifies connection`sent
      ensures connection.sent == old(connection.sent) +
                [Conn.PropertiesRequest(connection, if path == "" then connection.path else path, None)]
      ensures result == match Conn.PropertiesOf(status, reply)
                        case Err(e) => Err(Fetch(e))
                        case Ok(rs) => Rows(rs, if listFormat.None? then DefaultFormat else listFormat.value)
    {
      var target := path;
      if target == "" {
        target := connection.path;
      }
      var props := Conn.GetProperties(connection, target, None, status, reply);
      if props.Err? {
        return Err(Fetch(props.error));
      }
      var format := DefaultFormat;
      if listFormat.Some? {
        format := listFormat.value;
      }
      result := FormatRows(props.value, format);
    }

    /** `pwd`: the working path, or `None` before `set_connection`. */
    function Pwd(): (r: Option<string>)
      reads this, connection
      ensures r.Some? <==> connection != null
      ensures r.Some? ==> r.value == connection.path
    {
      if connection != null then Some(connection.path) else None
    }
  }

  /** `Client(...)`: applies the path rule; an empty path fails before any state exists. */
  method NewClient(host: string, webdavPath: string, port: int, realm: string, urljoin: (string, string) -> string)
    returns (result: Result<Client, ClientError>)
    ensures webdavPath == "" ==> result == Err(PathIndexError)
    ensures webdavPath != "" ==>
              result.Ok? && fresh(result.value) &&
              result.value.settingsPath == SettingsPath(webdavPath).value &&
              result.value.host == host && result.value.port == port && result.value.realm == realm &&
              result.value.urljoin == urljoin && result.value.connection == null
  {
    if webdavPath == "" {
      return Err(PathIndexError);
    }
    var path := webdavPath;
    if path[|path| - 1] != '/' && path != "." {
      path := path + "/";
    }
    var c := new Client(host, path, port, realm, urljoin);
    result := Ok(c);
  }

  // ---------------------------------------------------------------------------
  // Properties of the listing

  /** A listing succeeds exactly when there is no record or every symbol is known; it then
      has one row per record and one cell per symbol, each the symbol's `Cell`. */
  lemma {:induction false} RowShape(r: Parse.Response, format: seq<string>)
    ensures Row(r, format).Ok? <==> forall k :: 0 <= k < |format| ==> format[k] in FormatMap
    ensures Row(r, format).Ok? ==>
              |Row(r, format).value| == |format| &&
              forall k :: 0 <= k < |format| ==> Cell(r, format[k]) == Ok(Row(r, format).value[k])
    ensures Row(r, format).Err? ==>
              exists k :: 0 <= k < |format| && Row(r, format) == Err(UnknownSymbol(format[k])) &&
                          format[k] !in FormatMap && forall j :: 0 <= j < k ==> format[j] in FormatMap
  {
    if format != [] {
      var front := format[..|format| - 1];
      RowShape(r, front);
      if Row(r, front).Err? {
        var k :| 0 <= k < |front| && Row(r, front) == Err(UnknownSymbol(front[k])) &&
                 front[k] !in FormatMap && forall j :: 0 <= j < k ==> front[j] in FormatMap;
        assert format[k] == front[k];
      } else if Cell(r, format[|format| - 1]).Err? {
        assert forall j :: 0 <= j < |front| ==> format[j] == front[j];
      }
    }
  }

  lemma {:induction false} RowsShape(rs: seq<Parse.Response>, format: seq<string>)
    ensures Rows(rs, format).Ok? <==> rs == [] || forall k :: 0 <= k < |format| ==> format[k] in FormatMap
    ensures Rows(rs, format).Ok? ==>
              |Rows(rs, format).value| == |rs| &&
              forall i :: 0 <= i < |rs| ==> Row(rs[i], format) == Ok(Rows(rs, format).value[i])
    ensures Rows(rs, format).Err? ==> Row(rs[0], format).Err? && Rows(rs, format).error == Row(rs[0], format).error
  {
    if rs != [] {
      var front := rs[..|rs| - 1];
      RowsShape(front, format);
      RowShape(rs[|rs| - 1], format);
      RowShape(rs[0], format);
      if front != [] {
        assert front[0] == rs[0];
      }
    }
  }

  /** With no symbols every record still gets a row, an empty one. */
  lemma {:induction false} EmptyFormatRows(rs: seq<Parse.Response>)
    ensures Rows(rs, []).Ok? && |Rows(rs, []).value| == |rs|
    ensures forall i :: 0 <= i < |rs| ==> Rows(rs, []).value[i] == []
  {
    if rs != [] {
      EmptyFormatRows(rs[..|rs| - 1]);
    }
  }

  /** Each format symbol shows the record field the format map names for it, and the
      ETag column shows the ETag with its surrounding quotes removed. */
  lemma CellShowsField(r: Parse.Response)
    ensures Cell(r, "T") == Ok(Shown(r.resourcetype))
    ensures Cell(r, "D") == Ok(Shown(r.creationdate))
    ensures Cell(r, "F") == Ok(Shown(r.href))
    ensures Cell(r, "M") == Ok(Shown(r.getlastmodified))
    ensures Cell(r, "A") == Ok(Shown(r.executable))
    ensures Cell(r, "E") == Ok(StripQuotes(Shown(r.getetag)))
    ensures Cell(r, "C") == Ok(Shown(r.getcontenttype))
  {
  }

  /** A missing or empty property shows as `""`; anything else shows as is (quotes aside for `E`). */
  lemma MissingShowsEmpty(r: Parse.Response, symbol: string)
    requires symbol in FormatMap
    ensures FieldValue(r, FormatMap[symbol]).None? ==> Cell(r, symbol) == Ok("")
    ensures FieldValue(r, FormatMap[symbol]) == Some("") ==> Cell(r, symbol) == Ok("")
    ensures symbol != "E" && FieldValue(r, FormatMap[symbol]).Some? ==>
              Cell(r, symbol) == Ok(FieldValue(r, FormatMap[symbol]).value)
  {
  }

  // ---------------------------------------------------------------------------
  // Properties of quote stripping

  lemma {:induction false} StripLeadingQuotesShape(s: string)
    ensures |StripLeadingQuotes(s)| <= |s|
    ensures StripLeadingQuotes(s) == s[|s| - |StripLeadingQuotes(s)|..]
    ensures forall j :: 0 <= j < |s| - |StripLeadingQuotes(s)| ==> s[j] == '"'
    ensures StripLeadingQuotes(s) == [] || StripLeadingQuotes(s)[0] != '"'
  {
    if s != [] && s[0] == '"' {
      StripLeadingQuotesShape(s[1..]);
      forall j | 0 < j < |s| - |StripLeadingQuotes(s)|
        ensures s[j] == '"'
      {
        assert s[j] == s[1..][j - 1];
      }
    }
  }

  lemma {:induction false} StripTrailingQuotesShape(s: string)
    ensures |StripTrailingQuotes(s)| <= |s|
    ensures StripTrailingQuotes(s) == s[..|StripTrailingQuotes(s)|]
    ensures forall j :: |StripTrailingQuotes(s)| <= j < |s| ==> s[j] == '"'
    ensures StripTrailingQuotes(s) == [] || StripTrailingQuotes(s)[|StripTrailingQuotes(s)| - 1] != '"'
  {
    if s != [] && s[|s| - 1] == '"' {
      var front := s[..|s| - 1];
      StripTrailingQuotesShape(front);
      assert front[..|StripTrailingQuotes(front)|] == s[..|StripTrailingQuotes(front)|];
    }
  }

  /** `strip('"')` leaves no quote at either end and removes nothing but quotes: the
      result is a slice of the input with only quotes before and after it. */
  lemma StripQuotesShape(s: string)
    ensures StripQuotes(s) == [] || (StripQuotes(s)[0] != '"' && StripQuotes(s)[|StripQuotes(s)| - 1] != '"')
    ensures var i := |s| - |StripLeadingQuotes(s)|;
            0 <= i <= |s| - |StripQuotes(s)| && StripQuotes(s) == s[i..i + |StripQuotes(s)|] &&
            (forall j :: 0 <= j < i ==> s[j] == '"') &&
            (forall j :: i + |StripQuotes(s)| <= j < |s| ==> s[j] == '"')
  {
    var lead := StripLeadingQuotes(s);
    var r := StripQuotes(s);
    StripLeadingQuotesShape(s);
    StripTrailingQuotesShape(lead);
    var i := |s| - |lead|;
    assert r == lead[..|r|];
    assert r == s[i..i + |r|];
    forall j | i + |r| <= j < |s|
      ensures s[j] == '"'
    {
      assert s[j] == lead[j - i];
    }
    if r != [] {
      assert r[0] == lead[0];
    }
  }

  /** A value with no quote at either end is shown unchanged, so stripping twice is stripping once. */
  lemma StripQuotesKeepsUnquoted(s: string)
    requires s == [] || (s[0] != '"' && s[|s| - 1] != '"')
    ensures StripQuotes(s) == s
  {
  }

  lemma StripQuotesIdempotent(s: string)
    ensures StripQuotes(StripQuotes(s)) == StripQuotes(s)
  {
    StripQuotesShape(s);
    StripQuotesKeepsUnquoted(StripQuotes(s));
  }

  /** A quoted ETag loses its quotes, inner characters untouched. */
  lemma StripQuotesOfQuotedTag()
    ensures StripQuotes("\"abc\"") == "abc"
    ensures StripQuotes("\"\"") == ""
  {
    assert "\"abc\""[1..] == "abc\"";
    assert "abc\""[..3] == "abc";
  }
}
