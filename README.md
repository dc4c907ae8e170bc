# python-webdav core in Dafny

This project models the core of `python_webdav`, a small Python 2 WebDAV client library, and proves properties of the model. The core has four parts:

- **Reply parsing** (`parse.dfy`, module `Parse`). `LxmlParser.parse` turns a PROPFIND multi-status reply into `Response` records, each with its `Lock` entries. The reply is an element tree with local names. `find`/`findall('//name')` are modelled as depth-first searches over the descendants. The parser object keeps `response_objects` from one call to the next. An exception part-way through a reply leaves the records built before it appended.
- **Request construction and the connection** (`connection.dfy`, module `Connection`).
  - Request pieces: the PROPFIND body (`allprop` or a `prop` list), the trailing-slash rule for the PROPFIND URI, and the `Depth: 1` header. Also the fixed exclusive-write `lockinfo` body used by LOCK and UNLOCK, the `Lock-Token` header, and the absolute `Destination` header of COPY.
  - The `Connection` object: its settings, its `locks` table, and a log `sent` of every request handed to the transport.
  - The stateless helpers `get_properties`, `get_property`, `get_lock` and `release_lock`.
  - `Property.set_property`.
- **The shell-like client** (`client.dfy`, module `Client`).
  - The constructor's path rule, and `set_connection`.
  - `chdir`: make absolute, `os.path.join`, then `os.path.realpath`. `paths.dfy`, module `PosixPath`, gives the lexical part of `posixpath` it relies on.
  - `mkdir` and `rmdir` path resolution, and `pwd`.
  - The `ls` formatter: one row per record, one cell per format symbol.
- **The rewinding file** (`file_wrapper.dfy`, module `FileWrapper`).
  - `read` is a position state machine over the file's content.
  - A set `force_size` replaces the requested size.
  - A read rewinds to the initial position when it returns nothing, when the size is negative, or when the size is at least the file size.
  - A progress callback runs when the percentage is a multiple of the step.

The server, the network and `urljoin` are outside the model.
- Every request is appended to `Connection.sent`.
- The server's answer is a parameter of the operation that receives it: the status, the parsed reply, or the value `send_lock` returned.
- `urljoin` is a function-typed field of the connection and stays uninterpreted.

Each operation is written in the source's own form:
- Code that updates an object in place is a method on a class with `modifies`, proved against a pure specification function:
  - `LxmlParser.Parse` against `ParseAll`;
  - `FileWrapper.Read` against `ReadStep`;
  - `Client.Chdir` against `ChdirPath`.
- Code that builds a value with a loop is a module-level method with a `while` loop, proved equal to a function:
  - `BuildResponse` against `ResponseOf`;
  - `BuildPropfindBody` against `PropfindBody`;
  - `FormatRows` against `Rows`.
- Lemmas then state the properties of those functions.

The model follows the code in these points:
- Parsing is not stateless. A second `parse` call appends to the earlier records, and records built before an exception stay appended.
- `href` is the text of the first `href` element and can be `None`. It is not guaranteed to be non-empty.
- A `lockentry` without `locktype` or `lockscope`, or with no children under either, makes the whole parse fail.
- An unknown `ls` format symbol is a key error. It is raised only when there is at least one record.

`WholeFileReadRepeats` proves that, from the start of the file, a read whose size is at least the file size returns the whole file and leaves the position where it was, so such reads return the same data forever and, for a non-empty file, never report the end of the file. From a position inside the file, the first such read returns only the rest of the file and then rewinds. The tests require this rewind (`read(100)` leaves the position at 0), so it is modelled as written. `DrainReadsRest` shows that block reads smaller than the file do end with an empty read, and that this read leaves the file rewound.

## Model

| member | source | states |
|---|---|---|
| Parse.LxmlParser.constructor | python_webdav/parse.py:41-47 | a new parser has no stored records |
| Parse.LxmlParser.Parse | python_webdav/parse.py:51-102 | appends, after the records already held, one record per `response` element in document order up to the first failing one; returns all records held, or the exception when one element fails |
| Parse.BuildResponse | python_webdav/parse.py:66-98 | the record built field by field, with one lock appended per `lockentry`, equals `ResponseOf`, including which exception is raised |
| Parse.ParseTwice | python_webdav/parse.py:100-102 | a second `parse` on the same parser succeeds exactly when the second reply parses, and then returns the first reply's records followed by the second's |
| Parse.FindIsFirstOfFindAll | python_webdav/parse.py:64-68 | `find('//name')` is the first element of `findall('//name')` |
| Parse.FindInIsFirstOfFindAllIn | python_webdav/parse.py:64-68 | the same over a list of sibling subtrees |
| Parse.LocksStopAtError | python_webdav/parse.py:91-98 | once a lock entry fails, later entries do not change the outcome |
| Parse.ParseAllStopsAtError | python_webdav/parse.py:65-100 | once a response element fails, later elements do not change the outcome |
| Parse.FindAllMatchesName | python_webdav/parse.py:64 | `findall('//name')`, the function `FindAll`: every element it returns has that name |
| Parse.NewResponse | python_webdav/parse.py:14-23 | a fresh record has every field `None` and no locks |
| Parse.TextOf | python_webdav/parse.py:73-86 | `getattr(found, 'text', None)`: `None` when nothing was found, else the element's text |
| Parse.ResponsesOf | python_webdav/parse.py:64 | the response elements of the reply, headed by the one `find('//response')` would return |
| Parse.Find | python_webdav/parse.py:68-86 | the element `find('//name')` returns, when there is one, has that name |
| Parse.LockOf | python_webdav/parse.py:94-97 | a lock is built only when both `locktype` and `lockscope` are found; a missing `locktype` is the error raised |
| Parse.LocksOf | python_webdav/parse.py:90-98 | a lock list that builds has one lock per `lockentry` |
| Parse.ResponseOf | python_webdav/parse.py:66-98 | no `href` is the error raised; a record that builds has the text of the first `href` and one lock per `lockentry` |
| Parse.ParseAll | python_webdav/parse.py:64-100 | at most one record per response element, and exactly one per element when nothing raised |
| Parse.ParseAllInDocumentOrder | python_webdav/parse.py:64-102 | record j is the record of response element j; a successful parse has one record per element; a failure keeps exactly the records before the failing element and reports that element's exception |
| Parse.ParseSucceedsIff | python_webdav/parse.py:64-100 | a parse raises nothing exactly when every response element builds |
| Parse.LocksInDocumentOrder | python_webdav/parse.py:90-98 | the locks succeed exactly when every entry does; then there is one lock per entry in order; otherwise the error is that of the first failing entry |
| Parse.LockTakesLastChildTags | python_webdav/parse.py:94-97 | a lock exists exactly when `locktype` and `lockscope` are present with children; its fields are the tags of their last children; a missing `locktype` is an error |
| Parse.HrefRequired | python_webdav/parse.py:68 | no `href` is an error; a record exists exactly when `href` is present and the locks build; `href` is the text of the first `href` and `locks` are the entries' locks |
| Parse.CollectionDetection | python_webdav/parse.py:69-74 | the type is `collection` exactly when a `collection` element exists, `resource` otherwise; a collection's `executable` is `None` even when the reply has one |
| Parse.AbsentPropertiesAreNone | python_webdav/parse.py:75-86 | each optional field is the text of the first element of its name; an absent element gives `None`, never `''` |
| Parse.HrefOnlyResponse | python_webdav/parse.py:14-23 | a response holding only `href` gives a fresh record with that href, type `resource`, every other field `None` and no locks |
| Parse.ExclusiveWriteEntry | python_webdav/parse.py:90-98 | `<lockscope><exclusive/></lockscope><locktype><write/></locktype>` gives an exclusive write lock |
| Connection.PropfindBody | python_webdav/connection.py:306-315 | the body starts with the XML declaration and `<D:propfind xmlns:D="DAV:">` and ends with `</D:propfind>` |
| Connection.BuildPropfindBody | python_webdav/connection.py:303-315 | the body built by appending equals `PropfindBody` of the requested names, with `None` read as no names |
| Connection.PropElementsConcat | python_webdav/connection.py:308-312 | the `prop` list for `a + b` is the list for `a` followed by the list for `b` |
| Connection.PropElementsSingle | python_webdav/connection.py:311 | each requested name contributes exactly `<D:name/>` |
| Connection.AllpropIffNoNames | python_webdav/connection.py:303-315 | the body asks for `allprop` exactly when no property is named |
| Connection.RequestedNames | python_webdav/connection.py:303-304 | `if not properties`: no names exactly for `None` or the empty list; a given list is used as is |
| Connection.NoneAndEmptyAgree | python_webdav/connection.py:303-304 | `None` and the empty list send the same body |
| Connection.PropfindUri | python_webdav/connection.py:317-318 | an empty URI and a URI already ending in `/` are unchanged; any other URI gets exactly one `/` appended |
| Connection.PropfindUriIdempotent | python_webdav/connection.py:317-318 | applying the trailing-slash rule twice is the same as once |
| Connection.PropfindHeaders | python_webdav/connection.py:145-149 | the headers are the caller's plus `Depth`; `Depth` is `1` unless the caller gives one; every caller header is kept |
| Connection.LockBody | python_webdav/connection.py:164-169 | the lockinfo body is the fixed opening, then the owner href, then the fixed closing, as also sent with UNLOCK at python_webdav/connection.py:189-194 |
| Connection.LockBodyRoundTrip | python_webdav/connection.py:164-169 | the owner href can be read back from the lock body |
| Connection.LockBodyInjective | python_webdav/connection.py:164-169 | different owners give different lock bodies |
| Connection.Connection.constructor | python_webdav/connection.py:10-25 | the settings are stored; the lock table and the request log start empty |
| Connection.Connection.SendRequest | python_webdav/connection.py:50-55 | exactly one request is logged, to `urljoin(host, path)`, with the given method, headers and body |
| Connection.Connection.SendPropfind | python_webdav/connection.py:145-151 | one PROPFIND is logged, with `PropfindHeaders` of the extra headers |
| Connection.Connection.SendLock | python_webdav/connection.py:163-170 | one LOCK is logged, with the lock body naming `urljoin(host, path)` and no headers |
| Connection.Connection.SendUnlock | python_webdav/connection.py:187-196 | one UNLOCK is logged, with the same body and the recorded token verbatim as `Lock-Token` |
| Connection.Connection.SendCopy | python_webdav/connection.py:240-243 | one COPY is logged, with `Destination` set to the absolute `urljoin(host, destination)` |
| Connection.Connection.SendMkcol | python_webdav/connection.py:209-210 | one MKCOL is logged for the path |
| Connection.Connection.SendRmcol | python_webdav/connection.py:223-224 | removing a collection logs one DELETE for the path |
| Connection.Property.constructor | python_webdav/connection.py:258-260 | a new property bag holds no names |
| Connection.Property.SetProperty | python_webdav/connection.py:262-272 | the name is bound to the value, `None` by default, and every other name is unchanged |
| Connection.GetProperties | python_webdav/connection.py:286-328 | exactly one PROPFIND is logged, with the built body, the slash-terminated URI and `Depth: 1`; the result is `PropertiesOf(status, reply)` |
| Connection.PropertiesOf | python_webdav/connection.py:320-328 | a non-2xx status is the HTTP error carrying the status and the reply; records come back only on 2xx, one per response element; a failure on 2xx is the parser's exception |
| Connection.Attribute | python_webdav/connection.py:348 | only `locks` reads as a lock list, and it is the record's own list |
| Connection.PropertiesOnSuccessOnly | python_webdav/connection.py:320-328 | records come back exactly for a 2xx status whose every response element builds, one per element in order; any other status is an HTTP error carrying the status and the reply |
| Connection.GetProperty | python_webdav/connection.py:330-349 | one PROPFIND naming the one property; the result is the attribute of the first record; an empty result is an error, as are the errors of `get_properties` |
| Connection.AttributeReadsField | python_webdav/connection.py:348 | each of the record's ten attributes reads as that field of the record, `locks` as its lock list |
| Connection.UnknownAttributeIsEmpty | python_webdav/connection.py:348 | a name that is not a record attribute reads as `''` |
| Connection.GetLock | python_webdav/connection.py:438-451 | one LOCK is logged; when the reply has a `Lock-Token` header, what `send_lock` returned is recorded for the URI and returned, other entries unchanged; without one, the key error is raised and the table is unchanged |
| Connection.ReleaseLock | python_webdav/connection.py:453-473 | with nothing recorded: no request, the table unchanged, and the distinct nothing-recorded result; otherwise one UNLOCK with the recorded token, the status returned, and the entry removed exactly on 2xx |
| Connection.AfterLock | python_webdav/connection.py:449-450 | the table gains the URI, bound to the new lock, and keeps every other entry |
| Connection.AfterRelease | python_webdav/connection.py:466-472 | the table after a release keeps every entry but the released URI's, unchanged, and gains nothing |
| Connection.LockThenRelease | python_webdav/connection.py:449-473 | locking then releasing with 2xx leaves the table without the URI; with any other status the new lock stays; other URIs are untouched |
| Connection.ReleaseTouchesOnlyItsUri | python_webdav/connection.py:464-473 | releasing an unrecorded URI leaves the table as it was; other entries are never touched; the URI stays exactly when it was recorded and the status is not 2xx |
| Client.SettingsPath | python_webdav/client.py:28-30 | an empty path is an error; a path ending in `/` and the path `.` are kept unchanged; any other path is kept as a prefix and gets exactly one `/` appended |
| Client.SettingsPathIdempotent | python_webdav/client.py:28-30 | applying the path rule twice is the same as once |
| Client.NewClient | python_webdav/client.py:17-32 | an empty path fails before any state exists; otherwise a fresh client with the normalised path and no connection |
| Client.Client.constructor | python_webdav/client.py:25-32 | the settings are stored and there is no connection |
| Client.Client.SetConnection | python_webdav/client.py:46-59 | a fresh connection from the stored settings and the credentials, with an empty lock table and request log |
| Client.Absolute | python_webdav/client.py:94-96 | the result is absolute; an absolute path is unchanged, and any other path gets `/` in front |
| Client.ChdirPath | python_webdav/client.py:94-98 | the new working path is absolute and normalised: a fixed point of realpath |
| Client.Client.Chdir | python_webdav/client.py:87-98 | the connection's path becomes `ChdirPath` of the old path and the argument |
| Client.ChdirIntoChild | python_webdav/client.py:97-98 | entering a plain name appends exactly that component |
| Client.ChdirToParent | python_webdav/client.py:97-98 | `..` drops the last component and never goes above the root |
| Client.ChdirChildThenParent | python_webdav/client.py:97-98 | entering a child then `..` returns to the normalised starting path |
| Client.ChdirAbsolute | python_webdav/client.py:97-98 | an absolute target replaces the working path, and a normalised one is kept verbatim |
| Client.ChdirParentToRoot | tests/client_test.py:44-63 | `..` from `''`, `/`, `/name` or `name/` gives `/` |
| Client.ChdirNameFromEmpty | tests/client_test.py:65-67 | `name` from `''` gives `/name` |
| Client.ChdirNameTwice | tests/client_test.py:69-70 | `name` from `/name` gives `/name/name` |
| Client.ChdirAbsoluteExample | tests/client_test.py:72-73 | `/a/b` replaces any working path |
| Client.CollectionPath | python_webdav/client.py:108-109 | an absolute path is kept; any other path becomes the working path, `/`, then the path |
| Client.Client.Mkdir | python_webdav/client.py:100-110 | one MKCOL is logged for `CollectionPath` of the working path and the argument |
| Client.Client.Rmdir | python_webdav/client.py:34-44 | one DELETE is logged for `CollectionPath` of the working path and the argument |
| Client.FieldValue | python_webdav/client.py:139-145 | only a property the format map names can have a value |
| Client.Cell | python_webdav/client.py:155-161 | a cell fails exactly for a symbol missing from the format map, and the error is the key error naming that symbol |
| Client.Row | python_webdav/client.py:154-161 | a row that builds has one cell per symbol; its only error is an unknown symbol |
| Client.Rows | python_webdav/client.py:151-162 | a listing that builds has one row per record; its only error is an unknown symbol, and only when there is a record |
| Client.StripQuotes | python_webdav/client.py:159-160 | stripping quotes never lengthens the value |
| Client.FormatRows | python_webdav/client.py:151-162 | the rows built by the nested loops equal `Rows`, including the key error of an unknown symbol |
| Client.Client.Ls | python_webdav/client.py:112-166 | one PROPFIND on the path, or on the working path when the path is empty; a failed PROPFIND is reported; otherwise the result is `Rows` of the records in the given format, or in `F`, `C`, `M` when none is given |
| Client.RowShape | python_webdav/client.py:155-161 | a row exists exactly when every symbol is known; then it has one cell per symbol, in order; otherwise the error names the first unknown symbol |
| Client.RowsShape | python_webdav/client.py:151-162 | the listing succeeds exactly when there is no record or every symbol is known; then there is one row per record, in order; an error is the first record's |
| Client.RowStopsAtError | python_webdav/client.py:155-156 | after an unknown symbol, later symbols do not change the row's outcome |
| Client.RowsStopAtError | python_webdav/client.py:152-156 | after a failing record, later records do not change the listing's outcome |
| Client.EmptyFormatRows | python_webdav/client.py:151-162 | an empty format gives one empty row per record |
| Client.Shown | python_webdav/client.py:157-158 | a missing value shows as `''`, any other value as itself |
| Client.CellShowsField | python_webdav/client.py:139-160 | `T`, `D`, `F`, `M`, `A` and `C` show the record's resourcetype, creationdate, href, getlastmodified, executable and getcontenttype; `E` shows the ETag with its surrounding quotes removed |
| Client.MissingShowsEmpty | python_webdav/client.py:156-158 | a missing or empty property shows as `''`; any other value outside `E` shows as is |
| Client.StripLeadingQuotesShape | python_webdav/client.py:159-160 | leading-quote removal removes only quotes, and leaves none at the front |
| Client.StripTrailingQuotesShape | python_webdav/client.py:159-160 | trailing-quote removal removes only quotes, and leaves none at the back |
| Client.StripQuotesShape | python_webdav/client.py:159-160 | `strip('"')`, which the ETag column applies: the result is a slice of the value with only quotes removed around it, and no quote at either end |
| Client.StripQuotesKeepsUnquoted | python_webdav/client.py:159-160 | a value without quotes at its ends is unchanged |
| Client.StripQuotesIdempotent | python_webdav/client.py:159-160 | stripping twice is stripping once |
| Client.StripQuotesOfQuotedTag | python_webdav/client.py:159-160 | `"abc"` shows as `abc` and `""` as nothing |
| Client.Client.Pwd | python_webdav/client.py:169-175 | the working path when there is a connection, `None` otherwise |
| PosixPath.Split | python_webdav/client.py:97-98 | splitting at `/` yields at least one part |
| PosixPath.Components | python_webdav/client.py:97-98 | realpath's components are never empty, `.`, `..` or contain `/` |
| PosixPath.SplitWithoutSeparator | python_webdav/client.py:97-98 | a string without `/` splits into itself |
| PosixPath.SplitAtSeparator | python_webdav/client.py:97-98 | splitting `x/y` splits `x` and `y` independently |
| PosixPath.SplitJoin | python_webdav/client.py:97-98 | splitting undoes joining for parts without `/` |
| PosixPath.ResolveAppend | python_webdav/client.py:97-98 | the component walk over `a + b` is the walk over `b` after `a` |
| PosixPath.ResolveClean | python_webdav/client.py:97-98 | normalised components pass through the walk unchanged |
| PosixPath.ResolveKeepsClean | python_webdav/client.py:97-98 | the walk never produces an empty, `.` or `..` component |
| PosixPath.SplitHasNoSeparators | python_webdav/client.py:97-98 | no split part contains `/` |
| PosixPath.PathJoin | python_webdav/client.py:97-98 | an absolute second part replaces the first; otherwise the result starts with the first part, ends with the second, with one `/` added between exactly when the first part is non-empty and does not end in `/`; a join with an absolute part is absolute |
| PosixPath.Step | python_webdav/client.py:97-98 | one step of realpath's walk adds at most one component, and keeps normalised components normalised |
| PosixPath.Resolve | python_webdav/client.py:97-98 | the walk adds at most one component per part |
| PosixPath.RealPath | python_webdav/client.py:97-98 | realpath of an absolute path is absolute and has the same components as the path |
| PosixPath.SplitNormalPath | python_webdav/client.py:97-98 | a normalised absolute path has exactly its own components |
| PosixPath.RealPathIdempotent | python_webdav/client.py:97-98 | realpath of an absolute path is absolute, and applying it twice is applying it once |
| PosixPath.ComponentsAfterSeparator | python_webdav/client.py:97-98 | the components of `x/name` are one walk step after those of `x` |
| PosixPath.JoinComponent | python_webdav/client.py:97-98 | `os.path.join` with a name without `/` is one walk step: a name is appended, `..` drops the last component, `.` and `''` change nothing |
| FileWrapper.CallbackPercent | python_webdav/file_wrapper.py:47-49 | the callback step is never zero: a zero size becomes 1, and a non-zero size is kept |
| FileWrapper.FileWrapper.constructor | python_webdav/file_wrapper.py:36-53 | the options are stored, the step is normalised, and the position and initial position are 0 |
| FileWrapper.FileWrapper.Read | python_webdav/file_wrapper.py:55-76 | the data, the new position and the percentage are those of `ReadStep`; the callback gets the percentage exactly when there is one and the step divides it |
| FileWrapper.Chunk | python_webdav/file_wrapper.py:61 | the data is the content from the position on: exactly `size` characters when that many remain, the rest of the file for a negative or larger size |
| FileWrapper.Percent | python_webdav/file_wrapper.py:66-71 | an empty file (the division by zero) or a zero size gives 0, and a whole-file size gives 100 |
| FileWrapper.ReadStep | python_webdav/file_wrapper.py:55-76 | after a read the position is either the initial position or just past the non-empty data returned, inside the file |
| FileWrapper.ReadIsSliceFromPosition | python_webdav/file_wrapper.py:59-61 | the data is the content from the position on, cut to the effective size; a negative size reads to the end |
| FileWrapper.EffectiveSize | python_webdav/file_wrapper.py:59-60 | a set `force_size` replaces the requested size; otherwise the requested size is used |
| FileWrapper.ForcedSizeIgnoresRequest | python_webdav/file_wrapper.py:59-60 | with `force_size` set, the requested size makes no difference |
| FileWrapper.RewindOrAdvance | python_webdav/file_wrapper.py:61-64 | a non-empty read of `0 <= size < file_size` advances past the data; an empty read, a negative size or a size at least the file size rewinds |
| FileWrapper.WholeFileReadRepeats | python_webdav/file_wrapper.py:61-64 | a whole-file read from the start returns the file and leaves the state unchanged, so it repeats forever; for a non-empty file the data is never empty |
| FileWrapper.EmptyFile | python_webdav/file_wrapper.py:61-71 | an empty file reads as nothing, stays at the start and reports 0 percent |
| FileWrapper.WholeReadReportsHundred | python_webdav/file_wrapper.py:66-74 | a default read of a non-empty file from the start reports 100, so a step dividing 100 fires |
| FileWrapper.DrainReadsRest | python_webdav/file_wrapper.py:55-64 | block reads smaller than the file return non-empty blocks that together are exactly the rest of the file |
| FileWrapper.DrainEndsRewound | python_webdav/file_wrapper.py:61-64 | the empty read at the end of the file rewinds |
| FileWrapper.ReadsInParts | tests/test_file_wrapper.py:44-62 | `read(5)`, `read(7)`, `read(1)` on `Hello World!` give `Hello` at 5, ` World!` at 12, then nothing at 0 |
| FileWrapper.ReadBeyondEnd | tests/test_file_wrapper.py:65-89 | `read()` and `read(100)` return everything at 0, and `read(7)` then gives `Hello W` at 7 |
| FileWrapper.ForcedBlocks | tests/test_file_wrapper.py:106-119 | with `force_size=2`, reads of 1, 2, 3 and all give `He`, `ll`, `o `, `Wo` |
| FileWrapper.ReadBeyondEndOnObject | tests/test_file_wrapper.py:65-78 | on the object: a whole read, then `read(7)` gives `Hello W` at position 7, and the callback saw 100 first |

## Left out

- The HTTP transport (httplib2), authentication and `ServerNotFoundError`. Requests are logged in `Connection.sent`, and replies are parameters.
- `send_get`, `send_put`, `send_delete`, `copy_resource` and `delete_resource`. They only pass their arguments to the transport, which is not modelled.
- `get_file`, `send_file`, `download_file` and `upload_file`. They are local file I/O around the transport calls.
- lxml's `HTML()` tokenising and its namespace-prefix handling. The parser starts from an element tree with local names.
- The unused parser fields `element_list`, `closed_elements`, `current_element` and `is_lock`.
- `urljoin` (reference resolution, section 5.2 of RFC 3986). It is an uninterpreted function-typed field of the connection.
- Symbolic links in `os.path.realpath`. Only the lexical normalisation is modelled, because the model has no filesystem.
- `print` in `ls`, together with the `separator` and `display` parameters that only affect printing, and `print` in `send_mkcol`.
- The low-level `Client` object that `set_connection` creates. It is stateless, so the helpers are module-level methods taking the connection.
- FileWrapper.Percent: the percentage `int(float(size) / file_size * 100)` is float arithmetic. Only the exact cases are defined: an empty file, a zero size and a whole-file size. Other values come from the uninterpreted `approxPercent`.
- FileWrapper.FileWrapper.constructor: the initial position is 0 (`tell()` right after opening), and the file size is the length of the content rather than a filesystem query.
- FileWrapper.FileWrapper.constructor: `force_size` is an integer with 0 standing for `False`, and the callback is a flag, with `reported` recording its arguments.
- Connection.GetLock: the value `send_lock` returned is taken as an opaque string, or `None` when the LOCK reply has no `Lock-Token` header and `send_lock` raises its key error. In the source the returned value is the whole `(resp, content, lock_token)` triple. It is recorded and later sent as `Lock-Token` verbatim, as the source does.
- Connection.ReleaseLock: the UNLOCK answer is taken as an integer status, as the library's tests supply it. The source compares the response itself with 200 and 300 (python_webdav/connection.py:471). With a real httplib2 response, a dict subclass, Python 2 orders every dict above every int, so `resp < 300` is always false and a real UNLOCK never removes the entry. The model does not capture this; it removes the entry on a 2xx status.
- Connection.GetProperty: `getattr` on a Python object also finds methods and dunder attributes. Only the record's ten fields are modelled; every other name reads as `''`.
- Connection.Property.SetProperty: a value is a string or `None`. The source accepts any Python value.
- Client.Client.Chdir, Client.Client.Mkdir, Client.Client.Rmdir and Client.Client.Ls require a connection. Calling them before `set_connection` raises `AttributeError` in the source, which the model treats as a caller error.
