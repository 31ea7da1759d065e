/** When the two matchers of URI templates agree, and when the part matcher accepts every rendering: conditions on
    the template alone. */
module MatcherLaws {
  import opened Bits
  import opened Errors
  import opened Strings
  import opened TemplateSpec

  // ---- renderings with earliest values ----

  /** A URI has at most one rendering with earliest values. */
  lemma {:induction false} EarliestIsUnique(u: string, holes: seq<Hole>, a: seq<string>, b: seq<string>)
    requires RendersEarliest(u, holes, a) && RendersEarliest(u, holes, b)
    ensures a == b
    decreases |holes|
  {
    hide Find, RenderHoles;
    if holes != [] {
      var after, tail := holes[0].after, holes[1..];
      var x, y := RenderHoles(tail, a[1..]), RenderHoles(tail, b[1..]);
      RenderCons(holes, a);
      RenderCons(holes, b);
      assert EndsFirst(holes, a) && EndsFirst(holes, b);
      if after == "" && tail == [] {
        assert x == "" && y == "" by { NothingRenders(); }
        assert a[0] == u == b[0];
      } else {
        assert |a[0]| == |b[0]|;
        SameCut(u, a[0], b[0], after, x, y);
      }
      EarliestIsUnique(x, tail, a[1..], b[1..]);
      assert a == [a[0]] + a[1..] && b == [b[0]] + b[1..];
    }
  }

  lemma SameCut(u: string, v: string, w: string, after: string, x: string, y: string)
    requires u == v + (after + x) == w + (after + y) && |v| == |w|
    ensures v == w && x == y
  {
    Splits(v, after + x);
    Splits(w, after + y);
    Splits(after, x);
    Splits(after, y);
  }

  lemma {:induction false} RecoverableIsEarliest(holes: seq<Hole>, values: seq<string>)
    requires Separate(holes) && |values| == |holes| && Recoverable(holes, values)
    ensures Earliest(holes, values)
    decreases |holes|
  {
    hide Find, RenderHoles, Recoverable;
    if holes != [] {
      TailIsSeparate(holes);
      RecoverableCons(holes, values);
      RecoverableIsEarliest(holes[1..], values[1..]);
      if holes[0].after != "" { FindBehindValue(values[0], holes[0].after, RenderHoles(holes[1..], values[1..])); }
    }
  }

  predicate ShortLiterals(holes: seq<Hole>) {
    forall i :: 0 <= i < |holes| ==> |holes[i].after| <= 1
  }

  /** Behind literals of one character, earliest values are recoverable. */
  lemma {:induction false} EarliestIsRecoverable(holes: seq<Hole>, values: seq<string>)
    requires Separate(holes) && ShortLiterals(holes) && |values| == |holes| && Earliest(holes, values)
    ensures Recoverable(holes, values)
    decreases |holes|
  {
    hide Find, RenderHoles, Recoverable;
    if holes == [] {
      NothingToRecover();
    } else {
      TailIsSeparate(holes);
      EarliestIsRecoverable(holes[1..], values[1..]);
      RecoverableCons(holes, values);
      if holes[0].after != "" { FirstOccurrence(values[0], holes[0].after, RenderHoles(holes[1..], values[1..])); }
    }
  }

  lemma NothingToRecover()
    ensures Recoverable([], [])
  {
  }

  lemma {:induction false} FirstOccurrence(v: string, p: string, rest: string)
    requires |p| == 1 && Find(v + (p + rest), p) == Some(|v|)
    ensures Avoids(v, p[0])
  {
    hide Find;
    var s := v + (p + rest);
    forall i | 0 <= i < |v| ensures v[i] != p[0] {
      assert !OccursAt(s, p, i);
      assert s[i] == v[i] && s[i..i + |p|] == [s[i]] && p == [p[0]];
    }
  }

  // ---- where the matchers differ ----

  /** A value that contains the first character of the literal `p` and yet ends where `p` first occurs. */
  function Overlap(p: string): string
    requires |p| >= 2
  {
    if forall i :: 0 <= i < |p| ==> p[i] == p[0] then [p[0], if p[0] == 'a' then 'b' else 'a'] else [p[0]]
  }

  lemma {:induction false} OverlapEndsFirst(p: string, rest: string)
    requires |p| >= 2
    ensures var v := Overlap(p); Find(v + (p + rest), p) == Some(|v|) && !Avoids(v, p[0])
  {
    hide Find;
    var v := Overlap(p);
    var s := v + (p + rest);
    assert s[|v|..|v| + |p|] == p;
    assert v[0] == p[0];
    if |v| == 2 {
      assert s[1] == v[1] != p[0] && p[1] == p[0];
      assert s[0..|p|][1] == s[1] && s[1..1 + |p|][0] == s[1];
    } else {
      assert s[0..|p|] == s[..|p|];
      if s[..|p|] == p { ShiftedIsConstant(s, p); }
    }
    FindIs(s, p, |v|);
  }

  /** A string that occurs at both ends of an overlap by all but one character repeats one character. */
  lemma ShiftedIsConstant(s: string, p: string)
    requires |s| > |p| && s[1..1 + |p|] == p && s[..|p|] == p
    ensures forall i :: 0 <= i < |p| ==> p[i] == p[0]
  {
    forall i | 0 <= i < |p| ensures p[i] == p[0] { ShiftedAt(s, p, i); }
  }

  lemma {:induction false} ShiftedAt(s: string, p: string, i: nat)
    requires |s| > |p| && s[1..1 + |p|] == p && s[..|p|] == p && i < |p|
    ensures p[i] == p[0]
    decreases i
  {
    if i > 0 {
      ShiftedAt(s, p, i - 1);
      assert s[..|p|][i] == s[i] == s[1..1 + |p|][i - 1];
    }
  }

  /** The value in place of placeholder `i`, and nothing in place of the others. */
  function OnlyAt(n: nat, i: nat, v: string): (values: seq<string>)
    ensures |values| == n && forall j :: 0 <= j < n ==> values[j] == if j == i then v else ""
  {
    seq(n, (j: nat) => if j == i then v else "")
  }

  lemma {:induction false} OverlapIsEarliest(holes: seq<Hole>, i: nat)
    requires Separate(holes) && (i < |holes| ==> |holes[i].after| >= 2)
    ensures Earliest(holes, OnlyAt(|holes|, i, if i < |holes| then Overlap(holes[i].after) else ""))
    decreases |holes|
  {
    hide Find, Overlap, Separate, RenderHoles;
    if holes != [] {
      var values := OnlyAt(|holes|, i, if i < |holes| then Overlap(holes[i].after) else "");
      var tail, after, rest := holes[1..], holes[0].after, RenderHoles(holes[1..], values[1..]);
      TailIsSeparate(holes);
      var j := if i == 0 then |tail| else i - 1;
      OverlapIsEarliest(tail, j);
      assert values[1..] == OnlyAt(|tail|, j, if j < |tail| then Overlap(tail[j].after) else "");
      if i == 0 {
        OverlapEndsFirst(after, rest);
      } else if after != "" {
        FindBehindValue("", after, rest);
      }
    }
  }

  /** The two matchers accept the same URIs exactly for the templates in which no literal behind a placeholder is
      longer than one character. */
  lemma MatchersAgreeExactly(t: Template)
    requires Closed(t) && Separate(t.holes) && t.holes != []
    ensures (forall uri :: Matches(uri, Text(t)) <==> Scan(uri, Text(t)).Some?) <==> ShortLiterals(t.holes)
  {
    if ShortLiterals(t.holes) {
      forall uri ensures Matches(uri, Text(t)) <==> Scan(uri, Text(t)).Some? { ShortLiteralsAgree(uri, t); }
    } else {
      var i: nat :| i < |t.holes| && |t.holes[i].after| > 1;
      var uri := LongLiteralDiffers(t, i);
      assert Matches(uri, Text(t)) && Scan(uri, Text(t)).None?;
    }
  }

  lemma {:induction false} ShortLiteralsAgree(uri: string, t: Template)
    requires Closed(t) && Separate(t.holes) && t.holes != [] && ShortLiterals(t.holes)
    ensures Matches(uri, Text(t)) <==> Scan(uri, Text(t)).Some?
  {
    hide Scan, Matches, Text, Render, Earliest, Recoverable;
    if Matches(uri, Text(t)) {
      MatchesMeansEarliest(uri, t);
      var values :| |values| == |t.holes| && Render(t, values) == uri && Earliest(t.holes, values);
      EarliestIsRecoverable(t.holes, values);
      ScanInvertsRender(uri, t, values);
    }
    if Scan(uri, Text(t)).Some? { ScanImpliesMatches(uri, t); }
  }

  /** Behind a longer literal some URI is accepted by the parts and refused by the scan. */
  lemma LongLiteralDiffers(t: Template, i: nat) returns (uri: string)
    requires Closed(t) && Separate(t.holes) && i < |t.holes| && |t.holes[i].after| > 1
    ensures Matches(uri, Text(t)) && Scan(uri, Text(t)).None?
  {
    hide Scan, Matches, Text, RenderHoles, Earliest, Overlap;
    var p, holes := t.holes[i].after, t.holes;
    var values := OnlyAt(|holes|, i, Overlap(p));
    uri := Render(t, values);
    OverlapIsEarliest(holes, i);
    OverlapEndsFirst(p, "");
    assert values[i] == Overlap(p);
    assert !Recoverable(holes, values);
    MatchesMeansEarliest(uri, t);
    if Scan(uri, Text(t)).Some? {
      HitRerenders(uri, t);
      var found :| |found| == |holes| && Render(t, found) == uri && Recoverable(holes, found);
      RecoverableIsEarliest(holes, found);
      Splits(t.head, RenderHoles(holes, values));
      Splits(t.head, RenderHoles(holes, found));
      EarliestIsUnique(RenderHoles(holes, values), holes, values, found);
    }
  }

  // ---- which templates have all their renderings accepted ----

  function Same(p: string, n: nat): (values: seq<string>)
    ensures |values| == n && forall i :: 0 <= i < n ==> values[i] == p
  {
    seq(n, _ => p)
  }

  /** With the final literal in place of every placeholder the leftmost search stops before the end, whatever text
      is in front. */
  lemma {:induction false} FinalLiteralStopsEarly(gap: string, holes: seq<Hole>, p: string)
    requires holes != [] && holes[|holes| - 1].after == p != ""
    ensures var u := gap + RenderHoles(holes, Same(p, |holes|)); MatchAfters(u, Afters(holes)) != Some(|u|)
    decreases |holes|
  {
    hide Find, MatchAfters, RenderHoles, Afters;
    var after, tail, values := holes[0].after, holes[1..], Same(p, |holes|);
    assert values[1..] == Same(p, |tail|);
    var rest := RenderHoles(tail, values[1..]);
    RenderCons(holes, values);
    var u := gap + RenderHoles(holes, values);
    assert u == (gap + p) + (after + rest);
    if tail != [] { assert tail[|tail| - 1] == holes[|holes| - 1]; }
    if after == "" {
      assert u == (gap + p) + rest;
      EmptyAfter(u, holes);
      FinalLiteralStopsEarly(gap + p, tail, p);
    } else {
      var n := |gap + p|;
      var at := if tail == [] then |gap| else n;
      assert OccursAt(u, after, at) by { OccursHere(gap, p, after, rest, at); }
      var k := Find(u, after).value;
      AfterFound(u, holes, k);
      if tail == [] {
        NoAfters(u[k + |after|..]);
      } else {
        var between := u[k + |after|..n + |after|];
        assert u[k + |after|..] == between + rest;
        FinalLiteralStopsEarly(between, tail, p);
      }
    }
  }

  lemma OccursHere(gap: string, p: string, after: string, rest: string, at: nat)
    requires at == |gap + p| || (at == |gap| && after == p)
    ensures OccursAt((gap + p) + (after + rest), after, at)
  {
    var u := (gap + p) + (after + rest);
    assert u[at..at + |after|] == after;
  }

  /** The part matcher accepts every rendering of a template exactly when the template ends with a placeholder. */
  lemma RenderingsAreMatchedExactly(t: Template)
    requires Closed(t) && t.holes != []
    ensures (forall values :: |values| == |t.holes| ==> Matches(Render(t, values), Text(t)))
       <==> t.holes[|t.holes| - 1].after == ""
  {
    hide Matches, Text, RenderHoles, MatchAfters, Afters;
    var holes, p := t.holes, t.holes[|t.holes| - 1].after;
    if p == "" {
      forall values | |values| == |holes| ensures Matches(Render(t, values), Text(t)) {
        MatchesIsRenderable(Render(t, values), t);
      }
    } else {
      var values := Same(p, |holes|);
      var u := RenderHoles(holes, values);
      FinalLiteralStopsEarly("", holes, p);
      assert "" + u == u;
      Splits(t.head, u);
      MatchesMeans(Render(t, values), t);
      assert !Matches(Render(t, values), Text(t));
    }
  }
}
