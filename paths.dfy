/**
  The lexical part of Python's `posixpath` that `Client.chdir` relies on:
  `str.split('/')`, `'/'.join`, `os.path.join` of two components, and the
  component walk of `os.path.realpath` for an absolute path (symbolic links
  are not resolved: the model has no filesystem).
*/
module PosixPath {

  /** `s.split('/')`: never empty; `""` gives `[""]`. */
  function Split(s: string): (parts: seq<string>)
    ensures |parts| >= 1
  {
    if s == [] then [""]
    else if s[0] == '/' then [""] + Split(s[1..])
    else
      var rest := Split(s[1..]);
      [[s[0]] + rest[0]] + rest[1..]
  }

  /** `'/'.join(parts)`. */
  function Join(parts: seq<string>): string {
    if parts == [] then ""
    else if |parts| == 1 then parts[0]
    else parts[0] + "/" + Join(parts[1..])
  }

  predicate IsAbsolute(path: string) {
    |path| > 0 && path[0] == '/'
  }

  /** `os.path.join(a, b)`: an absolute `b` replaces `a`; otherwise one separator between them. */
  function PathJoin(a: string, b: string): (r: string)
    ensures IsAbsolute(b) ==> r == b
    ensures !IsAbsolute(b) ==> |a| + |b| <= |r| <= |a| + |b| + 1 && r[..|a|] == a && r[|r| - |b|..] == b
    ensures IsAbsolute(a) || IsAbsolute(b) ==> IsAbsolute(r)
    ensures !IsAbsolute(b) ==> (r == a + b <==> (a == "" || a[|a| - 1] == '/'))
  {
    if IsAbsolute(b) then b
    else if a == "" || a[|a| - 1] == '/' then a + b
    else a + "/" + b
  }

  /** A path component that survives normalisation unchanged. */
  predicate IsSegment(p: string) {
    p != "" && p != "." && p != ".." && '/' !in p
  }

  predicate Clean(components: seq<string>) {
    forall i :: 0 <= i < |components| ==> IsSegment(components[i])
  }

  /** One step of realpath's walk: skip empty and `.`, `..` drops the last component (never above root). */
  function Step(components: seq<string>, part: string): (r: seq<string>)
    ensures |r| <= |components| + 1
    ensures Clean(components) && '/' !in part ==> Clean(r)
  {
    if part == "" || part == "." then components
    else if part == ".." then (if components == [] then [] else components[..|components| - 1])
    else components + [part]
  }

  function Resolve(components: seq<string>, parts: seq<string>): (r: seq<string>)
    ensures |r| <= |components| + |parts|
    decreases parts
  {
    if parts == [] then components
    else Resolve(Step(components, parts[0]), parts[1..])
  }

  /** The components realpath keeps. */
  function Components(path: string): (c: seq<string>)
    ensures Clean(c)
  {
    SplitHasNoSeparators(path);
    ResolveKeepsClean([], Split(path));
    Resolve([], Split(path))
  }

  /** `os.path.realpath` of an absolute path, symbolic links aside. */
  function RealPath(path: string): (r: string)
    requires IsAbsolute(path)
    ensures IsAbsolute(r)
    ensures Components(r) == Components(path)
  {
    SplitNormalPath(Components(path));
    "/" + Join(Components(path))
  }

  // ---------------------------------------------------------------------------
  // Lemmas

  lemma {:induction false} SplitWithoutSeparator(s: string)
    requires '/' !in s
    ensures Split(s) == [s]
  {
    if s != [] {
      assert s[0] in s;
      assert forall c :: c in s[1..] ==> c in s;
      SplitWithoutSeparator(s[1..]);
      assert [s[0]] + s[1..] == s;
    }
  }

  /** Splitting at a separator splits each side independently. */
  lemma {:induction false} SplitAtSeparator(x: string, y: string)
    ensures Split(x + "/" + y) == Split(x) + Split(y)
  {
    if x == [] {
      assert x + "/" + y == "/" + y;
      assert ("/" + y)[1..] == y;
    } else {
      assert (x + "/" + y)[1..] == x[1..] + "/" + y;
      assert (x + "/" + y)[0] == x[0];
      SplitAtSeparator(x[1..], y);
    }
  }

  /** `split` undoes `join` for components without separators. */
  lemma {:induction false} SplitJoin(parts: seq<string>)
    requires parts != []
    requires forall i :: 0 <= i < |parts| ==> '/' !in parts[i]
    ensures Split(Join(parts)) == parts
  {
    if |parts| == 1 {
      SplitWithoutSeparator(parts[0]);
    } else {
      SplitJoin(parts[1..]);
      SplitAtSeparator(parts[0], Join(parts[1..]));
      SplitWithoutSeparator(parts[0]);
    }
  }

  lemma {:induction false} ResolveAppend(components: seq<string>, a: seq<string>, b: seq<string>)
    ensures Resolve(components, a + b) == Resolve(Resolve(components, a), b)
    decreases a
  {
    if a != [] {
      assert (a + b)[0] == a[0];
      assert (a + b)[1..] == a[1..] + b;
      ResolveAppend(Step(components, a[0]), a[1..], b);
    } else {
      assert a + b == b;
    }
  }

  /** Normalised components pass through the walk unchanged. */
  lemma {:induction false} ResolveClean(components: seq<string>, parts: seq<string>)
    requires Clean(parts)
    ensures Resolve(components, parts) == components + parts
    decreases parts
  {
    if parts != [] {
      ResolveClean(components + [parts[0]], parts[1..]);
      assert components + [parts[0]] + parts[1..] == components + parts;
    }
  }

  /** The walk never produces an empty, `.` or `..` component. */
  lemma {:induction false} ResolveKeepsClean(components: seq<string>, parts: seq<string>)
    requires Clean(components)
    requires forall i :: 0 <= i < |parts| ==> '/' !in parts[i]
    ensures Clean(Resolve(components, parts))
    decreases parts
  {
    if parts != [] {
      ResolveKeepsClean(Step(components, parts[0]), parts[1..]);
    }
  }

  lemma {:induction false} SplitHasNoSeparators(s: string)
    ensures forall i :: 0 <= i < |Split(s)| ==> '/' !in Split(s)[i]
  {
    if s != [] {
      SplitHasNoSeparators(s[1..]);
    }
  }

  /** Splitting a normalised absolute path gives back its components after the leading `""`. */
  lemma SplitNormalPath(components: seq<string>)
    requires Clean(components)
    ensures Components("/" + Join(components)) == components
  {
    assert ("/" + Join(components))[1..] == Join(components);
    if components == [] {
      assert Split("/" + Join(components)) == ["", ""];
      assert Resolve([], ["", ""]) == Resolve([], [""]) == [];
    } else {
      SplitJoin(components);
      assert Split("/" + Join(components)) == [""] + components;
      ResolveClean([], components);
    }
  }

  /** realpath leaves an already normalised path alone, so applying it twice changes nothing. */
  lemma RealPathIdempotent(path: string)
    requires IsAbsolute(path)
    ensures IsAbsolute(RealPath(path))
    ensures RealPath(RealPath(path)) == RealPath(path)
  {
    SplitNormalPath(Components(path));
  }

  /** Components of `x + "/" + name` for a name without separators: one more step of the walk. */
  lemma ComponentsAfterSeparator(x: string, name: string)
    requires '/' !in name
    ensures Resolve([], Split(x + "/" + name)) == Step(Resolve([], Split(x)), name)
  {
    SplitWithoutSeparator(name);
    SplitAtSeparator(x, name);
    ResolveAppend([], Split(x), [name]);
  }

  /** `os.path.join(a, name)` for a relative name without separators is one step of the
      walk after `a`: a plain name is appended, `..` drops the last component (never
      above the root), and `.` or `""` change nothing. */
  lemma JoinComponent(a: string, name: string)
    requires IsAbsolute(a)
    requires '/' !in name
    ensures IsAbsolute(PathJoin(a, name))
    ensures Components(PathJoin(a, name)) == Step(Components(a), name)
  {
    if a[|a| - 1] == '/' {
      var front := a[..|a| - 1];
      assert a == front + "/" + "";
      assert PathJoin(a, name) == front + "/" + name;
      ComponentsAfterSeparator(front, name);
      ComponentsAfterSeparator(front, "");
    } else {
      assert PathJoin(a, name) == a + "/" + name;
      ComponentsAfterSeparator(a, name);
    }
  }
}
