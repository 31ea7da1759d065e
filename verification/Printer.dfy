/** Which values the client's printer always prints as they are: a condition on the value alone. */
module PrinterLaws {
  import opened Errors
  import opened Strings
  import opened TemplateSpec

  /** Every parameter either has the value `v` or a value without opening braces. */
  predicate OthersPlain(params: seq<Param>, v: string) {
    forall j :: 0 <= j < |params| ==>
      BraceFree(params[j].name) && (params[j].value == v || Avoids(params[j].value, '{'))
  }

  /** However a closed template uses the value and whatever the other parameters are, as long as these have no
      opening brace, printing one name after the other is rendering. */
  ghost predicate AlwaysPrints(v: string) {
    forall t: Template, values: seq<string>, params: seq<Param> ::
      Printable(t, values, params) && OthersPlain(params, v) ==> Substitute(Text(t), params) == Render(t, values)
  }

  predicate Printable(t: Template, values: seq<string>, params: seq<Param>) {
    Closed(t) && NamesOk(t) && |values| == |t.holes| && Gives(params, t.holes, values)
  }

  /** A value is printed as it is in every closed template, beside all other parameters, exactly when it has no
      opening brace. */
  lemma PrintsExactlyWithoutBrace(v: string)
    ensures AlwaysPrints(v) <==> Avoids(v, '{')
  {
    if Avoids(v, '{') {
      forall t: Template, values: seq<string>, params: seq<Param>
        | Printable(t, values, params) && OthersPlain(params, v)
        ensures Substitute(Text(t), params) == Render(t, values)
      {
        SubstituteRenders(t, values, params);
      }
    } else {
      var t, params := BraceIsPrintedOver(v);
      assert Printable(t, [v], params) && OthersPlain(params, v);
    }
  }

  /** For every value with an opening brace there is a template of one placeholder, and one more parameter with an
      empty value, that print something else. */
  lemma BraceIsPrintedOver(v: string) returns (t: Template, params: seq<Param>)
    requires !Avoids(v, '{')
    ensures Printable(t, [v], params) && OthersPlain(params, v)
    ensures Substitute(Text(t), params) != Render(t, [v])
  {
    hide Replace, Substitute, RenderHoles;
    var at, n := LastOpening(v);
    var a := n + "x";
    t, params := Template("", [Hole(a, "}")]), [Param(a, v), Param(n, "")];
    assert |a| == |n| + 1;
    forall i | 0 <= i < |a| ensures a[i] != '{' && a[i] != '}' { if i < |n| { assert a[i] == n[i]; } }
    assert params[0] == Param(a, v) && GivesOne(params, a, v);
    OneHoleText(a, "}");
    OneHoleRenders(a, "}", v);
    SubstituteBoth(Text(t), a, v, n);
    FilledOnce(a, v);
    ReplaceShortens(v + "}", Pattern(n), at);
  }

  /** The last opening brace, and the name that a closing brace behind the value makes of what follows it. */
  lemma LastOpening(v: string) returns (at: nat, n: string)
    requires !Avoids(v, '{')
    ensures BraceFree(n) && OccursAt(v + "}", Pattern(n), at)
  {
    at := LastIndex(v, '{');
    var y := v[at + 1..] + "}";
    var k := Until(y, Some('}'));
    UntilMeans(y, Some('}'));
    assert y[|y| - 1] == '}';
    assert y[..|y|] == y;
    n := y[..k];
    forall i | 0 <= i < |n| ensures n[i] != '{' && n[i] != '}' {
      assert n[i] == y[i] == v[at + 1..][i] == v[at + 1 + i];
    }
    var s := v + "}";
    assert s[at + 1..] == y;
    assert s[at..at + |Pattern(n)|] == Pattern(n);
  }

  lemma {:induction false} LastIndex(v: string, c: char) returns (at: nat)
    requires !Avoids(v, c)
    ensures at < |v| && v[at] == c && forall i :: at < i < |v| ==> v[i] != c
  {
    var last := |v| - 1;
    if v[last] == c {
      at := last;
    } else {
      assert v == v[..last] + [v[last]];
      at := LastIndex(v[..last], c);
    }
  }

  lemma OneHoleText(a: string, after: string)
    ensures Text(Template("", [Hole(a, after)])) == Pattern(a) + after
  {
    assert [Hole(a, after)][1..] == [] && HolesText([]) == "";
    assert after + "" == after;
  }

  lemma OneHoleRenders(a: string, after: string, v: string)
    ensures Render(Template("", [Hole(a, after)]), [v]) == v + after
  {
    RenderOne(a, after, v);
    assert "" + (v + after) == v + after;
  }

  lemma {:induction false} SubstituteBoth(s: string, a: string, v: string, n: string)
    ensures Substitute(s, [Param(a, v), Param(n, "")]) == Replace(Replace(s, Pattern(a), v), Pattern(n), "")
  {
    hide Replace;
    var params := [Param(a, v), Param(n, "")];
    var filled := Replace(s, Pattern(a), v);
    assert params[1..] == [Param(n, "")] && params[1..][1..] == [];
    assert Substitute(filled, params[1..]) == Substitute(Replace(filled, Pattern(n), ""), []);
  }

  lemma {:induction false} FilledOnce(a: string, v: string)
    requires BraceFree(a)
    ensures Replace(Pattern(a) + "}", Pattern(a), v) == v + "}"
  {
    ReplaceHole(a, "}", a, v);
    ReplaceSkips("}", "", Pattern(a), v);
    assert "}" + "" == "}" && Replace("", Pattern(a), v) == "";
  }

  /** Replacing an occurring pattern by nothing shortens the string. */
  lemma {:induction false} ReplaceShortens(s: string, p: string, at: nat)
    requires p != "" && OccursAt(s, p, at)
    ensures |Replace(s, p, "")| < |s|
    decreases |s|
  {
    assert |p| <= |s| && s[0..|p|] == s[..|p|];
    if p <= s {
      ReplaceIsNoLonger(s[|p|..], p);
    } else {
      assert at > 0;
      SliceShift(s, at, at + |p|);
      ReplaceShortens(s[1..], p, at - 1);
    }
  }

  lemma {:induction false} ReplaceIsNoLonger(s: string, p: string)
    requires p != ""
    ensures |Replace(s, p, "")| <= |s|
    decreases |s|
  {
    if s != "" { ReplaceIsNoLonger(if p <= s then s[|p|..] else s[1..], p); }
  }
}
