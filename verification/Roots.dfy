/** File roots of src/compat/mcp2025.rs: normalization of file URIs and the containment test on the results. */
module RootSpec {
  import opened Bits
  import opened Errors
  import opened Strings

  const SCHEME := "file://"

  /** `str.split`: the pieces between slashes, at least one. */
  function Split(s: string): (ps: seq<string>)
    ensures ps != [] && forall i :: 0 <= i < |ps| ==> Avoids(ps[i], '/')
    decreases |s|
  {
    var n := Until(s, Some('/'));
    UntilMeans(s, Some('/'));
    assert s[..|s|] == s;
    if n == |s| then [s] else [s[..n]] + Split(s[n + 1..])
  }

  function Join(ps: seq<string>): string {
    if ps == [] then "" else if |ps| == 1 then ps[0] else ps[0] + ("/" + Join(ps[1..]))
  }

  /** One path component against the stack of segments; `..` at the top level has no result. */
  function Resolve(stack: seq<string>, part: string): Option<seq<string>> {
    if part == "" || part == "." then Some(stack)
    else if part == ".." then (if stack == [] then None else Some(stack[..|stack| - 1]))
    else Some(stack + [part])
  }

  function ResolveAll(stack: seq<string>, parts: seq<string>): Option<seq<string>>
    decreases |parts|
  {
    if parts == [] then Some(stack)
    else match Resolve(stack, parts[0])
      case None => None
      case Some(next) => ResolveAll(next, parts[1..])
  }

  function PathOf(segments: seq<string>): string {
    if segments == [] then "/" else "/" + Join(segments)
  }

  /** `normalize_file_uri_path`. */
  function Normalize(uri: string): Option<string> {
    if !(SCHEME <= uri) then None
    else
      var raw := uri[|SCHEME|..];
      if raw == "" || !Avoids(raw, '%') || !Avoids(raw, '\\') then None
      else match ResolveAll([], Split(raw))
        case None => None
        case Some(segments) => Some(PathOf(segments))
  }

  /** `is_path_within_root`, on strings. */
  predicate WithinRoot(path: string, root: string) {
    root == "/" || path == root || (root <= path && |path| > |root| && path[|root|] == '/')
  }

  /** A segment of a normalized path. */
  predicate Proper(s: string) {
    s != "" && s != "." && s != ".." && Avoids(s, '/') && Avoids(s, '%') && Avoids(s, '\\')
  }

  predicate AllProper(segments: seq<string>) {
    forall i :: 0 <= i < |segments| ==> Proper(segments[i])
  }

  // ---- split and join ----

  /** Splitting distributes over a slash. */
  lemma {:induction false} SplitAtSlash(a: string, b: string)
    ensures Split(a + ("/" + b)) == Split(a) + Split(b)
    decreases |a|
  {
    var n := Until(a, Some('/'));
    UntilMeans(a, Some('/'));
    if n == |a| {
      assert a[..n] == a;
      SplitBehind(a, b);
      SplitOne(a);
    } else {
      var p, rest := a[..n], a[n + 1..];
      assert a == p + ("/" + rest);
      SplitAtSlash(rest, b);
      SplitBehind(p, rest);
      SplitBehind(p, rest + ("/" + b));
      JoinAssoc(p, rest, b);
      ConcatAssoc([p], Split(rest), Split(b));
    }
  }

  /** A piece and a slash in front of the rest. */
  lemma {:induction false} SplitBehind(p: string, rest: string)
    requires Avoids(p, '/')
    ensures Split(p + ("/" + rest)) == [p] + Split(rest)
  {
    UntilBehind(p, '/', "/" + rest);
    Splits(p, "/" + rest);
    assert (p + ("/" + rest))[|p| + 1..] == rest;
  }

  lemma {:induction false} SplitOne(s: string)
    requires Avoids(s, '/')
    ensures Split(s) == [s]
  {
    UntilIs(s, |s|, Some('/'));
    assert s[..|s|] == s;
  }

  lemma {:induction false} SplitJoin(ps: seq<string>)
    requires ps != [] && forall i :: 0 <= i < |ps| ==> Avoids(ps[i], '/')
    ensures Split(Join(ps)) == ps
    decreases |ps|
  {
    SplitOne(ps[0]);
    if |ps| > 1 {
      SplitJoin(ps[1..]);
      SplitBehind(ps[0], Join(ps[1..]));
      assert [ps[0]] + ps[1..] == ps;
    }
  }

  /** A normalized path splits into an empty piece and its segments. */
  lemma SplitPath(segments: seq<string>)
    requires segments != [] && AllProper(segments)
    ensures Split(PathOf(segments)) == [""] + segments
  {
    SplitBehind("", Join(segments));
    SplitJoin(segments);
    assert "" + ("/" + Join(segments)) == PathOf(segments);
  }

  lemma {:induction false} JoinConcat(a: seq<string>, b: seq<string>)
    requires a != [] && b != []
    ensures Join(a + b) == Join(a) + ("/" + Join(b))
    decreases |a|
  {
    assert (a + b)[0] == a[0] && (a + b)[1..] == a[1..] + b;
    if |a| == 1 {
      assert a[1..] + b == b;
    } else {
      JoinConcat(a[1..], b);
      JoinAssoc(a[0], Join(a[1..]), Join(b));
    }
  }

  lemma JoinAssoc(x: string, y: string, z: string)
    ensures x + ("/" + (y + ("/" + z))) == (x + ("/" + y)) + ("/" + z)
  {
  }

  // ---- normalization ----

  lemma {:induction false} PiecesAvoid(s: string, c: char)
    requires Avoids(s, c)
    ensures forall i :: 0 <= i < |Split(s)| ==> Avoids(Split(s)[i], c)
    decreases |s|
  {
    var n := Until(s, Some('/'));
    if n < |s| { PiecesAvoid(s[n + 1..], c); }
  }

  lemma {:induction false} ResolvedAreProper(stack: seq<string>, parts: seq<string>)
    requires AllProper(stack)
    requires forall i :: 0 <= i < |parts| ==> Avoids(parts[i], '/') && Avoids(parts[i], '%') && Avoids(parts[i], '\\')
    ensures ResolveAll(stack, parts).Some? ==> AllProper(ResolveAll(stack, parts).value)
    decreases |parts|
  {
    if parts != [] && Resolve(stack, parts[0]).Some? {
      ResolvedAreProper(Resolve(stack, parts[0]).value, parts[1..]);
    }
  }

  /** A normalized path is a slash, or slash-separated segments none of which is empty, `.` or `..`. */
  lemma NormalizedIsProper(uri: string)
    requires Normalize(uri).Some?
    ensures exists segments :: AllProper(segments) && Normalize(uri) == Some(PathOf(segments))
  {
    var raw := uri[|SCHEME|..];
    PiecesAvoid(raw, '%');
    PiecesAvoid(raw, '\\');
    ResolvedAreProper([], Split(raw));
    assert AllProper(ResolveAll([], Split(raw)).value);
  }

  lemma {:induction false} ProperResolveToThemselves(stack: seq<string>, segments: seq<string>)
    requires AllProper(segments)
    ensures ResolveAll(stack, segments) == Some(stack + segments)
    decreases |segments|
  {
    if segments == [] {
      assert stack + segments == stack;
    } else {
      ProperResolveToThemselves(stack + [segments[0]], segments[1..]);
      assert stack + [segments[0]] + segments[1..] == stack + segments;
    }
  }

  lemma {:induction false} JoinAvoids(ps: seq<string>, c: char)
    requires c != '/' && forall i :: 0 <= i < |ps| ==> Avoids(ps[i], c)
    ensures Avoids(Join(ps), c)
    decreases |ps|
  {
    if |ps| > 1 { JoinAvoids(ps[1..], c); }
  }

  /** Normalization is idempotent: a path of proper segments is its own normal form. */
  lemma ProperIsNormal(segments: seq<string>)
    requires AllProper(segments)
    ensures Normalize(SCHEME + PathOf(segments)) == Some(PathOf(segments))
  {
    var raw := PathOf(segments);
    Splits(SCHEME, raw);
    JoinAvoids(segments, '%');
    JoinAvoids(segments, '\\');
    if segments == [] {
      SplitOne("");
      SplitAtSlash("", "");
      assert "" + ("/" + "") == "/";
      assert Split("/") == ["", ""];
      var two := ["", ""];
      assert ResolveAll([], two) == ResolveAll([], two[1..]) == ResolveAll([], two[1..][1..]) == Some([]);
    } else {
      SplitPath(segments);
      assert ([""] + segments)[1..] == segments;
      ProperResolveToThemselves([], segments);
      assert [] + segments == segments;
    }
  }

  lemma NormalizeIsIdempotent(uri: string)
    requires Normalize(uri).Some?
    ensures Normalize(SCHEME + Normalize(uri).value) == Normalize(uri)
  {
    NormalizedIsProper(uri);
    var segments :| AllProper(segments) && Normalize(uri) == Some(PathOf(segments));
    ProperIsNormal(segments);
  }

  // ---- containment ----

  /** On normalized paths the string test says exactly that the root's segments are a prefix of the path's. */
  lemma WithinRootIsPrefix(path: seq<string>, root: seq<string>)
    requires AllProper(path) && AllProper(root)
    ensures WithinRoot(PathOf(path), PathOf(root)) <==> root <= path
  {
    if root != [] {
      var p, r := PathOf(path), PathOf(root);
      RootIsNotSlash(root);
      SplitPath(root);
      if path != [] { SplitPath(path); }
      if root <= path && root != path { PrefixIsWithin(path, root); }
      if r <= p && |p| > |r| && p[|r|] == '/' { WithinIsPrefix(path, root); }
      if p == r && path != [] { assert ([""] + path)[1..] == path && ([""] + root)[1..] == root; }
    }
  }

  lemma RootIsNotSlash(root: seq<string>)
    requires root != [] && AllProper(root)
    ensures |PathOf(root)| >= 2
  {
    assert Proper(root[0]);
  }

  lemma PrefixIsWithin(path: seq<string>, root: seq<string>)
    requires root != [] && root <= path && root != path
    ensures WithinRoot(PathOf(path), PathOf(root))
  {
    var rest := path[|root|..];
    assert path == root + rest;
    JoinConcat(root, rest);
    assert PathOf(path) == PathOf(root) + ("/" + Join(rest));
  }

  lemma WithinIsPrefix(path: seq<string>, root: seq<string>)
    requires AllProper(path) && AllProper(root) && root != []
    requires var p, r := PathOf(path), PathOf(root); r <= p && |p| > |r| && p[|r|] == '/'
    ensures root <= path
  {
    hide Split, Join, AllProper;
    var p, r := PathOf(path), PathOf(root);
    RootIsNotSlash(root);
    assert path != [];
    hide PathOf;
    var b := p[|r| + 1..];
    CutAtSlash(p, r);
    SplitAtSlash(r, b);
    SplitPath(root);
    SplitPath(path);
    SamePrefix("", path, root, Split(b));
  }

  lemma CutAtSlash(p: string, r: string)
    requires r <= p && |p| > |r| && p[|r|] == '/'
    ensures p == r + ("/" + p[|r| + 1..])
  {
  }

  lemma SamePrefix(x: string, a: seq<string>, b: seq<string>, c: seq<string>)
    requires [x] + a == ([x] + b) + c
    ensures b <= a
  {
    var s := [x] + a;
    assert s[1..] == a && s[1..][..|b|] == b;
  }
}

module Roots {
  import opened Errors
  import opened Strings
  import opened RootSpec

  method NormalizeFileUriPath(uri: string) returns (path: Option<string>)
    ensures path == Normalize(uri)
  {
    if !(SCHEME <= uri) { return None; }
    var raw := uri[|SCHEME|..];
    if raw == "" || !Avoids(raw, '%') || !Avoids(raw, '\\') { return None; }
    var pieces := Split(raw);
    var parts: seq<string> := [];
    for i := 0 to |pieces|
      invariant ResolveAll(parts, pieces[i..]) == ResolveAll([], pieces)
    {
      assert pieces[i..][1..] == pieces[i + 1..];
      var part := pieces[i];
      if part == "" || part == "." {
      } else if part == ".." {
        if parts == [] { return None; }
        parts := parts[..|parts| - 1];
      } else {
        parts := parts + [part];
      }
    }
    assert pieces[|pieces|..] == [];
    return Some(if parts == [] then "/" else "/" + Join(parts));
  }
}
