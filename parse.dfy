/**
  The PROPFIND multi-status reply parser (`LxmlParser`) and the records it
  builds (`Response`, `Lock`).

  The reply is taken as an already-tokenised element tree whose element names
  are local names (the namespace prefix dropped).  Element search follows
  lxml's `ElementTree(e).find('//name')` / `findall('//name')`: the
  descendants of `e` (not `e` itself) in document order.
*/
module Parse {
  import opened Wrappers

  /** One element: local name, text content (`None` when it has none), children. */
  datatype Element = Element(name: string, text: Option<string>, children: seq<Element>)

  /** One `lockentry`: the tags of the last children of `locktype` and `lockscope`. */
  datatype Lock = Lock(locktype: string, lockscope: string)

  /** One `response` element of the multi-status reply. */
  datatype Response = Response(
    href: Option<string>,
    resourcetype: Option<string>,
    creationdate: Option<string>,
    getcontentlength: Option<string>,
    getlastmodified: Option<string>,
    getetag: Option<string>,
    executable: Option<string>,
    locks: seq<Lock>,
    getcontenttype: Option<string>,
    status: Option<string>)

  /** The exceptions `parse` raises. */
  datatype ParseError =
    | MissingElement(name: string)  // attribute access on the None that find() returned
    | NoChildren(name: string)      // `getchildren()[-1]` on an element without children

  /** What a fresh `Response()` holds before `parse` fills it in. */
  function NewResponse(): (r: Response)
    ensures r.href.None? && r.resourcetype.None? && r.creationdate.None? && r.getcontentlength.None?
    ensures r.getlastmodified.None? && r.getetag.None? && r.executable.None? && r.locks == []
    ensures r.getcontenttype.None? && r.status.None?
  {
    Response(None, None, None, None, None, None, None, [], None, None)
  }

  function First<T>(s: seq<T>): Option<T> {
    if s == [] then None else Some(s[0])
  }

  function Last<T>(s: seq<T>): T
    requires s != []
  {
    s[|s| - 1]
  }

  // ---------------------------------------------------------------------------
  // Element search

  /** `findall('//name')`: every descendant of `e` called `name`, in document order. */
  function FindAll(e: Element, name: string): seq<Element>
    decreases e, 1
  {
    FindAllIn(e.children, name)
  }

  function FindAllIn(cs: seq<Element>, name: string): seq<Element>
    decreases cs, 0
  {
    if cs == [] then []
    else (if cs[0].name == name then [cs[0]] else []) + FindAll(cs[0], name) + FindAllIn(cs[1..], name)
  }

  /** `find('//name')`: the first descendant of `e` called `name`, searching depth first. */
  function Find(e: Element, name: string): (found: Option<Element>)
    ensures found.Some? ==> found.value.name == name
    decreases e, 1
  {
    FindIn(e.children, name)
  }

  function FindIn(cs: seq<Element>, name: string): (found: Option<Element>)
    ensures found.Some? ==> found.value.name == name
    decreases cs, 0
  {
    if cs == [] then None
    else if cs[0].name == name then Some(cs[0])
    else match Find(cs[0], name)
      case Some(d) => Some(d)
      case None => FindIn(cs[1..], name)
  }

  /** `getattr(found, 'text', None)`. */
  function TextOf(found: Option<Element>): (text: Option<string>)
    ensures found.None? ==> text.None?
    ensures found.Some? ==> text == found.value.text
  {
    match found
    case None => None
    case Some(x) => x.text
  }

  /** Every element `findall` returns carries the name searched for. */
  lemma {:induction false} FindAllMatchesName(e: Element, name: string)
    ensures forall x :: x in FindAll(e, name) ==> x.name == name
    decreases e, 1
  {
    FindAllInMatchesName(e.children, name);
  }

  lemma {:induction false} FindAllInMatchesName(cs: seq<Element>, name: string)
    ensures forall x :: x in FindAllIn(cs, name) ==> x.name == name
    decreases cs, 0
  {
    if cs != [] {
      FindAllMatchesName(cs[0], name);
      FindAllInMatchesName(cs[1..], name);
    }
  }

  /** The early-exit search `find` returns exactly the head of the list `findall` returns. */
  lemma {:induction false} FindIsFirstOfFindAll(e: Element, name: string)
    ensures Find(e, name) == First(FindAll(e, name))
    decreases e, 1
  {
    FindInIsFirstOfFindAllIn(e.children, name);
  }

  lemma {:induction false} FindInIsFirstOfFindAllIn(cs: seq<Element>, name: string)
    ensures FindIn(cs, name) == First(FindAllIn(cs, name))
    decreases cs, 0
  {
    if cs != [] && cs[0].name != name {
      FindIsFirstOfFindAll(cs[0], name);
      FindInIsFirstOfFindAllIn(cs[1..], name);
    }
  }

  // ---------------------------------------------------------------------------
  // What one response element yields

  /** The `Lock` built from one `lockentry`, or the exception raised while building it. */
  function LockOf(entry: Element): (result: Result<Lock, ParseError>)
    ensures result.Ok? ==> Find(entry, "locktype").Some? && Find(entry, "lockscope").Some?
    ensures Find(entry, "locktype").None? ==> result == Err(MissingElement("locktype"))
  {
    match Find(entry, "locktype")
    case None => Err(MissingElement("locktype"))
    case Some(t) =>
      if t.children == [] then Err(NoChildren("locktype"))
      else match Find(entry, "lockscope")
        case None => Err(MissingElement("lockscope"))
        case Some(s) =>
          if s.children == [] then Err(NoChildren("lockscope"))
          else Ok(Lock(Last(t.children).name, Last(s.children).name))
  }

  /** The locks of a sequence of `lockentry` elements; the first failing entry decides the error. */
  function LocksOf(entries: seq<Element>): (result: Result<seq<Lock>, ParseError>)
    ensures result.Ok? ==> |result.value| == |entries|
  {
    if entries == [] then Ok([])
    else match LocksOf(entries[..|entries| - 1])
      case Err(e) => Err(e)
      case Ok(locks) =>
        match LockOf(entries[|entries| - 1])
        case Err(e) => Err(e)
        case Ok(l) => Ok(locks + [l])
  }

  /** The `Response` record built from one `response` element, or the exception raised. */
  function ResponseOf(r: Element): (result: Result<Response, ParseError>)
    ensures Find(r, "href").None? ==> result == Err(MissingElement("href"))
    ensures result.Ok? ==> result.value.href == Find(r, "href").value.text
    ensures result.Ok? ==> |result.value.locks| == |FindAll(r, "lockentry")|
  {
    match Find(r, "href")
    case None => Err(MissingElement("href"))
    case Some(h) =>
      match LocksOf(FindAll(r, "lockentry"))
      case Err(e) => Err(e)
      case Ok(locks) =>
        var isCollection := Find(r, "collection").Some?;
        Ok(NewResponse().(
             href := h.text,
             resourcetype := Some(if isCollection then "collection" else "resource"),
             executable := if isCollection then None else TextOf(Find(r, "executable")),
             creationdate := TextOf(Find(r, "creationdate")),
             getcontentlength := TextOf(Find(r, "getcontentlength")),
             getlastmodified := TextOf(Find(r, "getlastmodified")),
             getetag := TextOf(Find(r, "getetag")),
             getcontenttype := TextOf(Find(r, "getcontenttype")),
             status := TextOf(Find(r, "status")),
             locks := locks))
  }

  /** What one pass of `parse` over response elements yields: the records appended
      before the first exception, and that exception if there was one. */
  datatype Outcome = Outcome(built: seq<Response>, error: Option<ParseError>)

  function ParseAll(rs: seq<Element>): (outcome: Outcome)
    ensures |outcome.built| <= |rs|
    ensures outcome.error.None? ==> |outcome.built| == |rs|
  {
    if rs == [] then Outcome([], None)
    else
      var prev := ParseAll(rs[..|rs| - 1]);
      if prev.error.Some? then prev
      else match ResponseOf(rs[|rs| - 1])
        case Err(e) => Outcome(prev.built, Some(e))
        case Ok(v) => Outcome(prev.built + [v], None)
  }

  /** `xml_etree.findall("//response")` over the whole reply. */
  function ResponsesOf(doc: Element): (rs: seq<Element>)
    ensures Find(doc, "response") == First(rs)
  {
    FindIsFirstOfFindAll(doc, "response");
    FindAll(doc, "response")
  }

  // ---------------------------------------------------------------------------
  // The parser

  /** Builds one `Response`, appending one `Lock` per `lockentry`. */
  method BuildResponse(r: Element) returns (result: Result<Response, ParseError>)
    ensures result == ResponseOf(r)
  {
    var response := NewResponse();
    var href := Find(r, "href");
    if href.None? {
      return Err(MissingElement("href"));
    }
    response := response.(href := href.value.text);
    if Find(r, "collection").Some? {
      response := response.(resourcetype := Some("collection"));
    } else {
      response := response.(resourcetype := Some("resource"));
      response := response.(executable := TextOf(Find(r, "executable")));
    }
    response := response.(creationdate := TextOf(Find(r, "creationdate")));
    response := response.(getcontentlength := TextOf(Find(r, "getcontentlength")));
    response := response.(getlastmodified := TextOf(Find(r, "getlastmodified")));
    response := response.(getetag := TextOf(Find(r, "getetag")));
    response := response.(getcontenttype := TextOf(Find(r, "getcontenttype")));
    response := response.(status := TextOf(Find(r, "status")));

    ghost var fields := response;
    var entries := FindAll(r, "lockentry");
    var i := 0;
    while i < |entries|
      invariant 0 <= i <= |entries|
      invariant LocksOf(entries[..i]) == Ok(response.locks)
      invariant response == fields.(locks := response.locks)
    {
      assert entries[..i + 1][..i] == entries[..i];
      var lock := LockOf(entries[i]);
      if lock.Err? {
        LocksStopAtError(entries, i + 1);
        assert entries[..i + 1][i] == entries[i];
        return Err(lock.error);
      }
      response := response.(locks := response.locks + [lock.value]);
      i := i + 1;
    }
    assert entries[..|entries|] == entries;
    result := Ok(response);
  }

  /** The parser object: `response_objects` survives from one `parse` call to the next. */
  class LxmlParser {
    var responseObjects: seq<Response>

    constructor ()
      ensures responseObjects == []
    {
      responseObjects := [];
    }

    /** Appends one record per response element of `doc` and returns all records so far.
        An exception part-way leaves the records built before it appended. */
    method Parse(doc: Element) returns (result: Result<seq<Response>, ParseError>)
      modifies this
      ensures responseObjects == old(responseObjects) + ParseAll(ResponsesOf(doc)).built
      ensures result == match ParseAll(ResponsesOf(doc)).error
                        case None => Ok(responseObjects)
                        case Some(e) => Err(e)
    {
      var rs := ResponsesOf(doc);
      var i := 0;
      while i < |rs|
        invariant 0 <= i <= |rs|
        invariant ParseAll(rs[..i]).error.None?
        invariant responseObjects == old(responseObjects) + ParseAll(rs[..i]).built
      {
        assert rs[..i + 1][..i] == rs[..i];
        assert rs[..i + 1][i] == rs[i];
        var built := BuildResponse(rs[i]);
        if built.Err? {
          ParseAllStopsAtError(rs, i + 1);
          return Err(built.error);
        }
        responseObjects := responseObjects + [built.value];
        i := i + 1;
      }
      assert rs[..|rs|] == rs;
      result := Ok(responseObjects);
    }
  }

  // ---------------------------------------------------------------------------
  // Properties

  lemma {:induction false} LocksStopAtError(entries: seq<Element>, k: nat)
    requires k <= |entries|
    requires LocksOf(entries[..k]).Err?
    ensures LocksOf(entries) == LocksOf(entries[..k])
    decreases |entries| - k
  {
    if k < |entries| {
      var front := entries[..|entries| - 1];
      assert front[..k] == entries[..k];
      LocksStopAtError(front, k);
    } else {
      assert entries[..k] == entries;
    }
  }

  lemma {:induction false} ParseAllStopsAtError(rs: seq<Element>, k: nat)
    requires k <= |rs|
    requires ParseAll(rs[..k]).error.Some?
    ensures ParseAll(rs) == ParseAll(rs[..k])
    decreases |rs| - k
  {
    if k < |rs| {
      var front := rs[..|rs| - 1];
      assert front[..k] == rs[..k];
      ParseAllStopsAtError(front, k);
    } else {
      assert rs[..k] == rs;
    }
  }

  /** One record per response element, in document order; on an exception, the
      records built before the failing element and nothing for it or after it. */
  lemma {:induction false} ParseAllInDocumentOrder(rs: seq<Element>)
    ensures forall j :: 0 <= j < |ParseAll(rs).built| ==> ResponseOf(rs[j]) == Ok(ParseAll(rs).built[j])
    ensures ParseAll(rs).error.Some? ==>
              |ParseAll(rs).built| < |rs| && ResponseOf(rs[|ParseAll(rs).built|]) == Err(ParseAll(rs).error.value)
  {
    if rs != [] {
      var front := rs[..|rs| - 1];
      ParseAllInDocumentOrder(front);
      var prev := ParseAll(front);
      var o := ParseAll(rs);
      if prev.error.Some? {
        assert o == prev;
        assert rs[|prev.built|] == front[|prev.built|];
      } else {
        var last := ResponseOf(rs[|rs| - 1]);
        assert o.built == if last.Ok? then prev.built + [last.value] else prev.built;
      }
      forall j | 0 <= j < |o.built|
        ensures ResponseOf(rs[j]) == Ok(o.built[j])
      {
        if j < |front| {
          assert rs[j] == front[j];
        }
      }
    }
  }

  /** A reply parses without an exception exactly when every response element builds. */
  lemma ParseSucceedsIff(rs: seq<Element>)
    ensures ParseAll(rs).error.None? <==> forall i :: 0 <= i < |rs| ==> ResponseOf(rs[i]).Ok?
  {
    ParseAllInDocumentOrder(rs);
    var o := ParseAll(rs);
    if o.error.Some? {
      assert ResponseOf(rs[|o.built|]).Err?;
    }
  }

  /** One lock per `lockentry`, in document order, or the first entry's exception. */
  lemma {:induction false} LocksInDocumentOrder(entries: seq<Element>)
    ensures LocksOf(entries).Ok? <==> forall i :: 0 <= i < |entries| ==> LockOf(entries[i]).Ok?
    ensures LocksOf(entries).Ok? ==>
              |LocksOf(entries).value| == |entries| &&
              forall i :: 0 <= i < |entries| ==> LockOf(entries[i]) == Ok(LocksOf(entries).value[i])
    ensures LocksOf(entries).Err? ==>
              exists k :: 0 <= k < |entries| && LockOf(entries[k]) == Err(LocksOf(entries).error) &&
                          forall j :: 0 <= j < k ==> LockOf(entries[j]).Ok?
  {
    if entries != [] {
      var front := entries[..|entries| - 1];
      LocksInDocumentOrder(front);
      assert forall j :: 0 <= j < |front| ==> front[j] == entries[j];
      if LocksOf(front).Err? {
        var k :| 0 <= k < |front| && LockOf(front[k]) == Err(LocksOf(front).error) &&
                 forall j :: 0 <= j < k ==> LockOf(front[j]).Ok?;
        assert LockOf(entries[k]) == Err(LocksOf(entries).error);
      } else if LockOf(entries[|entries| - 1]).Err? {
        assert LockOf(entries[|front|]) == Err(LocksOf(entries).error);
      }
    }
  }

  /** A `Lock` takes the tags of the last children of the first `locktype` and
      `lockscope` below its entry; a missing or childless one is an exception. */
  lemma LockTakesLastChildTags(entry: Element)
    ensures LockOf(entry).Ok? <==>
              FindAll(entry, "locktype") != [] && FindAll(entry, "locktype")[0].children != [] &&
              FindAll(entry, "lockscope") != [] && FindAll(entry, "lockscope")[0].children != []
    ensures LockOf(entry).Ok? ==>
              LockOf(entry).value == Lock(Last(FindAll(entry, "locktype")[0].children).name,
                                          Last(FindAll(entry, "lockscope")[0].children).name)
    ensures FindAll(entry, "locktype") == [] ==> LockOf(entry) == Err(MissingElement("locktype"))
  {
    FindIsFirstOfFindAll(entry, "locktype");
    FindIsFirstOfFindAll(entry, "lockscope");
  }

  /** `href` comes from the first `href` below the response; without one the parse fails. */
  lemma HrefRequired(r: Element)
    ensures FindAll(r, "href") == [] ==> ResponseOf(r) == Err(MissingElement("href"))
    ensures ResponseOf(r).Ok? <==> FindAll(r, "href") != [] && LocksOf(FindAll(r, "lockentry")).Ok?
    ensures ResponseOf(r).Ok? ==> ResponseOf(r).value.href == FindAll(r, "href")[0].text
    ensures ResponseOf(r).Ok? ==> ResponseOf(r).value.locks == LocksOf(FindAll(r, "lockentry")).value
  {
    FindIsFirstOfFindAll(r, "href");
  }

  /** `collection` below the response decides the type, and a collection never
      gets an `executable` even when the reply carries one. */
  lemma CollectionDetection(r: Element)
    requires ResponseOf(r).Ok?
    ensures ResponseOf(r).value.resourcetype == Some("collection") <==> FindAll(r, "collection") != []
    ensures ResponseOf(r).value.resourcetype == Some("resource") <==> FindAll(r, "collection") == []
    ensures FindAll(r, "collection") != [] ==> ResponseOf(r).value.executable == None
    ensures FindAll(r, "collection") == [] ==>
              ResponseOf(r).value.executable == TextOf(First(FindAll(r, "executable")))
  {
    FindIsFirstOfFindAll(r, "collection");
    FindIsFirstOfFindAll(r, "executable");
  }

  /** Each optional property is the text of its first element, so an absent
      element leaves `None` (never an empty string). */
  lemma AbsentPropertiesAreNone(r: Element)
    requires ResponseOf(r).Ok?
    ensures ResponseOf(r).value.creationdate == TextOf(First(FindAll(r, "creationdate")))
    ensures ResponseOf(r).value.getcontentlength == TextOf(First(FindAll(r, "getcontentlength")))
    ensures ResponseOf(r).value.getlastmodified == TextOf(First(FindAll(r, "getlastmodified")))
    ensures ResponseOf(r).value.getetag == TextOf(First(FindAll(r, "getetag")))
    ensures ResponseOf(r).value.getcontenttype == TextOf(First(FindAll(r, "getcontenttype")))
    ensures ResponseOf(r).value.status == TextOf(First(FindAll(r, "status")))
    ensures FindAll(r, "creationdate") == [] ==> ResponseOf(r).value.creationdate == None
    ensures FindAll(r, "getcontentlength") == [] ==> ResponseOf(r).value.getcontentlength == None
    ensures FindAll(r, "getlastmodified") == [] ==> ResponseOf(r).value.getlastmodified == None
    ensures FindAll(r, "getetag") == [] ==> ResponseOf(r).value.getetag == None
    ensures FindAll(r, "getcontenttype") == [] ==> ResponseOf(r).value.getcontenttype == None
    ensures FindAll(r, "status") == [] ==> ResponseOf(r).value.status == None
  {
    FindIsFirstOfFindAll(r, "creationdate");
    FindIsFirstOfFindAll(r, "getcontentlength");
    FindIsFirstOfFindAll(r, "getlastmodified");
    FindIsFirstOfFindAll(r, "getetag");
    FindIsFirstOfFindAll(r, "getcontenttype");
    FindIsFirstOfFindAll(r, "status");
  }

  /** A response holding only `href`: every optional field `None`, a plain resource, no locks. */
  lemma HrefOnlyResponse(h: string)
    ensures ResponseOf(Element("response", None, [Element("href", Some(h), [])])) ==
            Ok(NewResponse().(href := Some(h), resourcetype := Some("resource")))
  {
    var href := Element("href", Some(h), []);
    var r := Element("response", None, [href]);
    assert [href][1..] == [];
    forall name | name != "href"
      ensures Find(r, name) == None && FindAll(r, name) == []
    {
      assert FindAllIn(href.children, name) == [];
      assert Find(href, name) == None && FindAll(href, name) == [];
    }
    assert Find(r, "href") == Some(href);
    assert Find(r, "collection") == None && Find(r, "executable") == None;
    assert FindAll(r, "lockentry") == [];
  }

  /** `<lockscope><exclusive/></lockscope><locktype><write/></locktype>` gives an exclusive write lock. */
  lemma ExclusiveWriteEntry()
    ensures LockOf(Element("lockentry", None, [
                     Element("lockscope", None, [Element("exclusive", None, [])]),
                     Element("locktype", None, [Element("write", None, [])])]))
            == Ok(Lock("write", "exclusive"))
  {
  }

  /** A second `parse` on the same parser returns the first reply's records followed by the
      second's; records built before an exception in the first call are kept too. */
  method ParseTwice(first: Element, second: Element) returns (result: Result<seq<Response>, ParseError>)
    ensures result.Ok? <==> ParseAll(ResponsesOf(second)).error.None?
    ensures result.Ok? ==>
              result.value == ParseAll(ResponsesOf(first)).built + ParseAll(ResponsesOf(second)).built
  {
    var parser := new LxmlParser();
    var _ := parser.Parse(first);
    assert parser.responseObjects == ParseAll(ResponsesOf(first)).built;
    result := parser.Parse(second);
  }
}
