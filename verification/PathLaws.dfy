/** Which path a normalized file URI is: what its pieces do, one by one. */
module PathLaws {
  import opened Errors
  import opened Strings
  import opened RootSpec

  /** A piece between slashes that normalization admits. */
  predicate IsPiece(p: string) {
    Avoids(p, '/') && Avoids(p, '%') && Avoids(p, '\\')
  }

  predicate Pieces(ps: seq<string>) {
    forall i :: 0 <= i < |ps| ==> IsPiece(ps[i])
  }

  function UriOf(ps: seq<string>): string {
    SCHEME + Join(ps)
  }

  /** The number of `..` among the pieces. */
  function Climbs(ps: seq<string>): nat {
    if ps == [] then 0 else (if ps[0] == ".." then 1 else 0) + Climbs(ps[1..])
  }

  /** The number of proper segments among the pieces. */
  function Names(ps: seq<string>): nat {
    if ps == [] then 0 else (if ps[0] != "" && ps[0] != "." && ps[0] != ".." then 1 else 0) + Names(ps[1..])
  }

  /** Some front of the pieces climbs above where it started. */
  ghost predicate Escapes(ps: seq<string>, depth: nat) {
    exists k: nat :: k <= |ps| && Climbs(ps[..k]) > depth + Names(ps[..k])
  }

  // ---- the stack of segments ----

  lemma {:induction false} ResolveConcat(stack: seq<string>, a: seq<string>, b: seq<string>)
    ensures ResolveAll(stack, a + b)
         == match ResolveAll(stack, a) case None => None case Some(next) => ResolveAll(next, b)
    decreases |a|
  {
    hide Resolve;
    if a == [] {
      assert a + b == b;
    } else {
      assert (a + b)[0] == a[0] && (a + b)[1..] == a[1..] + b;
      match Resolve(stack, a[0])
      case None =>
      case Some(next) => ResolveConcat(next, a[1..], b);
    }
  }

  lemma {:induction false} ResolveOne(stack: seq<string>, p: string)
    ensures p == "" || p == "." ==> ResolveAll(stack, [p]) == Some(stack)
    ensures Proper(p) ==> ResolveAll(stack, [p]) == Some(stack + [p])
  {
    assert [p][1..] == [];
  }

  lemma {:induction false} ResolveBack(stack: seq<string>, p: string)
    requires Proper(p)
    ensures ResolveAll(stack, [p, ".."]) == Some(stack)
  {
    var two := [p, ".."];
    assert two[1..] == [".."] && two[1..][1..] == [];
    assert (stack + [p])[..|stack + [p]| - 1] == stack;
    assert ResolveAll(stack, two) == ResolveAll(stack + [p], two[1..]);
    assert ResolveAll(stack + [p], two[1..]) == ResolveAll(stack, two[1..][1..]);
  }

  lemma {:induction false} RefusedExactly(stack: seq<string>, ps: seq<string>)
    ensures ResolveAll(stack, ps).None? <==> Escapes(ps, |stack|)
    decreases |ps|
  {
    if ps == [] {
      assert forall k: nat :: k <= |ps| ==> ps[..k] == [];
    } else {
      EscapesBehind(ps, |stack|);
      match Resolve(stack, ps[0])
      case None =>
      case Some(next) => RefusedExactly(next, ps[1..]);
    }
  }

  /** How the first piece changes the depth that the others may use. */
  lemma EscapesBehind(ps: seq<string>, depth: nat)
    requires ps != []
    ensures ps[0] == ".." ==> (Escapes(ps, depth) <==> depth == 0 || Escapes(ps[1..], depth - 1))
    ensures ps[0] == "" || ps[0] == "." ==> (Escapes(ps, depth) <==> Escapes(ps[1..], depth))
    ensures ps[0] != "" && ps[0] != "." && ps[0] != ".." ==> (Escapes(ps, depth) <==> Escapes(ps[1..], depth + 1))
  {
    if Escapes(ps, depth) {
      var k: nat :| k <= |ps| && Climbs(ps[..k]) > depth + Names(ps[..k]);
      EscapeShifts(ps, k, depth);
    }
    EscapesFrom(ps, depth);
  }

  lemma EscapeShifts(ps: seq<string>, k: nat, depth: nat)
    requires ps != [] && k <= |ps| && Climbs(ps[..k]) > depth + Names(ps[..k])
    ensures k > 0
    ensures ps[0] == ".." && depth > 0 ==> Escapes(ps[1..], depth - 1)
    ensures ps[0] == "" || ps[0] == "." ==> Escapes(ps[1..], depth)
    ensures ps[0] != "" && ps[0] != "." && ps[0] != ".." ==> Escapes(ps[1..], depth + 1)
  {
    assert ps[..0] == [];
    assert k > 0;
    assert ps[..k][1..] == ps[1..][..k - 1] && ps[..k][0] == ps[0];
  }

  lemma EscapesFrom(ps: seq<string>, depth: nat)
    requires ps != []
    ensures ps[0] == ".." && (depth == 0 || Escapes(ps[1..], depth - 1)) ==> Escapes(ps, depth)
    ensures (ps[0] == "" || ps[0] == ".") && Escapes(ps[1..], depth) ==> Escapes(ps, depth)
    ensures ps[0] != "" && ps[0] != "." && ps[0] != ".." && Escapes(ps[1..], depth + 1) ==> Escapes(ps, depth)
  {
    var rest := ps[1..];
    forall k: nat | k <= |rest|
      ensures Climbs(ps[..k + 1]) == (if ps[0] == ".." then 1 else 0) + Climbs(rest[..k])
      ensures Names(ps[..k + 1]) == (if ps[0] != "" && ps[0] != "." && ps[0] != ".." then 1 else 0) + Names(rest[..k])
    {
      assert ps[..k + 1][1..] == rest[..k] && ps[..k + 1][0] == ps[0];
    }
    if ps[0] == ".." && depth == 0 {
      assert rest[..0] == [] && Climbs(ps[..0 + 1]) == 1;
    }
    var d: int := if ps[0] == ".." then depth - 1 else if ps[0] == "" || ps[0] == "." then depth else depth + 1;
    if d >= 0 && Escapes(rest, d) {
      var k: nat :| k <= |rest| && Climbs(rest[..k]) > d + Names(rest[..k]);
      assert Climbs(ps[..k + 1]) > depth + Names(ps[..k + 1]);
    }
  }

  // ---- normalization ----

  lemma {:induction false} NormalizePieces(ps: seq<string>)
    requires Pieces(ps) && ps != []
    ensures Join(ps) == "" ==> Normalize(UriOf(ps)) == None
    ensures Join(ps) != "" ==>
      Normalize(UriOf(ps)) == match ResolveAll([], ps) case None => None case Some(segments) => Some(PathOf(segments))
  {
    hide Split, Join, ResolveAll;
    assert forall i :: 0 <= i < |ps| ==> IsPiece(ps[i]);
    Bits.Splits(SCHEME, Join(ps));
    SplitJoin(ps);
    JoinAvoids(ps, '%');
    JoinAvoids(ps, '\\');
  }

  /** A segment followed by `..` can be left out; if nothing else is there, the path is the top. */
  lemma {:induction false} BackIsDropped(a: seq<string>, p: string, b: seq<string>)
    requires Pieces(a) && Pieces(b) && Proper(p)
    ensures Normalize(UriOf(a + [p, ".."] + b)) == if Join(a + b) != "" then Normalize(UriOf(a + b)) else Some("/")
  {
    hide ResolveAll, Resolve;
    var ps := a + [p, ".."] + b;
    assert ps == a + ([p, ".."] + b);
    PiecesConcat(a, [p, ".."], b);
    if a + b != [] { NormalizePieces(a + b); }
    NormalizePieces(ps);
    LongerIsNotEmpty(ps);
    if Join(a + b) == "" { NothingResolves(a + b); }
    ResolveConcat([], a, b);
    ResolveConcat([], a, [p, ".."] + b);
    match ResolveAll([], a)
    case None =>
    case Some(stack) =>
      ResolveBack(stack, p);
      ResolveConcat(stack, [p, ".."], b);
  }

  /** Empty pieces and `.` can be left out; if nothing else is there, the path is the top, or none at all. */
  lemma {:induction false} EmptyIsDropped(a: seq<string>, p: string, b: seq<string>)
    requires Pieces(a) && Pieces(b) && (p == "" || p == ".")
    ensures Normalize(UriOf(a + [p] + b)) ==
      if Join(a + b) != "" then Normalize(UriOf(a + b)) else if Join(a + [p] + b) != "" then Some("/") else None
  {
    hide ResolveAll, Resolve;
    var ps := a + [p] + b;
    assert ps == a + ([p] + b);
    PiecesConcat(a, [p], b);
    if a + b != [] { NormalizePieces(a + b); }
    NormalizePieces(ps);
    if Join(a + b) == "" { NothingResolves(a + b); }
    ResolveConcat([], a, b);
    ResolveConcat([], a, [p] + b);
    match ResolveAll([], a)
    case None =>
    case Some(stack) =>
      ResolveOne(stack, p);
      ResolveConcat(stack, [p], b);
  }

  lemma PiecesConcat(a: seq<string>, mid: seq<string>, b: seq<string>)
    requires Pieces(a) && Pieces(mid) && Pieces(b)
    ensures Pieces(a + mid + b) && Pieces(a + b)
  {
  }

  /** Pieces that join to nothing lead nowhere. */
  lemma {:induction false} NothingResolves(ps: seq<string>)
    requires Join(ps) == ""
    ensures ResolveAll([], ps) == Some([]) && PathOf([]) == "/"
  {
    if ps != [] { assert ps == [""] && ps[1..] == []; }
  }

  lemma {:induction false} LongerIsNotEmpty(ps: seq<string>)
    requires |ps| >= 2
    ensures Join(ps) != ""
  {
  }

  /** A path is refused exactly when its URI is not one of admitted pieces, or some front of them has more `..` than
      segments: it would leave the top. */
  lemma {:induction false} RefusedExactlyAboveTop(ps: seq<string>)
    requires Pieces(ps) && ps != [] && Join(ps) != ""
    ensures Normalize(UriOf(ps)).None? <==> Escapes(ps, 0)
  {
    hide ResolveAll, Join;
    NormalizePieces(ps);
    RefusedExactly([], ps);
  }

  /** Every URI that is refused for another reason: no file scheme, no path, or a percent sign or backslash in it. */
  lemma OnlyPiecesAreAdmitted(uri: string)
    requires Normalize(uri).Some?
    ensures exists ps :: ps != [] && Pieces(ps) && Join(ps) != "" && uri == UriOf(ps)
  {
    var raw := uri[|SCHEME|..];
    var ps := Split(raw);
    PiecesAvoid(raw, '%');
    PiecesAvoid(raw, '\\');
    JoinSplit(raw);
    assert uri == SCHEME + raw;
  }

  lemma {:induction false} JoinSplit(s: string)
    ensures Join(Split(s)) == s
    decreases |s|
  {
    var n := Until(s, Some('/'));
    UntilMeans(s, Some('/'));
    if n == |s| {
      assert s[..|s|] == s;
    } else {
      JoinSplit(s[n + 1..]);
      var ps := Split(s);
      assert ps[1..] == Split(s[n + 1..]) && ps[0] == s[..n];
      assert s == s[..n] + ("/" + s[n + 1..]);
    }
  }
}
