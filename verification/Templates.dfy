/** URI templates: the character scan of src/compat/mcp2025.rs, the part matcher of src/resource/mod.rs and the
    client-side printer of languages/python/dcp_client/client.py. Strings are sequences of characters. */
module TemplateSpec {
  import opened Bits
  import opened Errors
  import opened Strings

  datatype Param = Param(name: string, value: string)

  /** A value found in front of a result; values of unnamed placeholders are not kept. */
  function Recorded(name: string, value: string, r: Option<seq<Param>>): Option<seq<Param>> {
    match r
    case None => None
    case Some(ps) => Some((if name != "" then [Param(name, value)] else []) + ps)
  }

  /** `extract_params`: one pass over the template, taking a value up to the next literal character. */
  function Scan(uri: string, template: string): Option<seq<Param>>
    decreases |template|
  {
    if template == "" then (if uri == "" then Some([]) else None)
    else if template[0] == '{' then
      var n := Until(template[1..], Some('}'));
      var name := template[1..][..n];
      var rest := if 1 + n < |template| then template[n + 2..] else "";
      var k := Until(uri, First(rest));
      Recorded(name, uri[..k], Scan(uri[k..], rest))
    else if uri != "" && uri[0] == template[0] then Scan(uri[1..], template[1..])
    else None
  }

  // ---- templates by their structure ----

  datatype Hole = Hole(name: string, after: string)

  /** A literal, then placeholders each followed by a literal. */
  datatype Template = Template(head: string, holes: seq<Hole>)

  /** A placeholder as it is written. */
  function Pattern(key: string): (p: string)
    ensures p != ""
  {
    "{" + key + "}"
  }

  function HolesText(holes: seq<Hole>): string {
    if holes == [] then "" else Pattern(holes[0].name) + (holes[0].after + HolesText(holes[1..]))
  }

  function Text(t: Template): string {
    t.head + HolesText(t.holes)
  }

  /** Placeholders are closed: literals have no opening brace and names no closing one. */
  predicate Closed(t: Template) {
    Avoids(t.head, '{') && forall i :: 0 <= i < |t.holes| ==> ClosedHole(t.holes[i])
  }

  predicate ClosedHole(h: Hole) {
    Avoids(h.name, '}') && Avoids(h.after, '{')
  }

  /** Placeholders are named and no two are adjacent. */
  predicate Separate(holes: seq<Hole>) {
    forall i :: 0 <= i < |holes| ==> holes[i].name != "" && (i + 1 < |holes| ==> holes[i].after != "")
  }

  function RenderHoles(holes: seq<Hole>, values: seq<string>): string
    requires |values| == |holes|
  {
    if holes == [] then "" else values[0] + (holes[0].after + RenderHoles(holes[1..], values[1..]))
  }

  /** The URI that results from putting `values` in place of the placeholders, all at once. */
  function Render(t: Template, values: seq<string>): string
    requires |values| == |t.holes|
  {
    t.head + RenderHoles(t.holes, values)
  }

  /** No value contains the character that follows its placeholder. */
  predicate Recoverable(holes: seq<Hole>, values: seq<string>)
    requires |values| == |holes|
  {
    forall i :: 0 <= i < |holes| && holes[i].after != "" ==> Avoids(values[i], holes[i].after[0])
  }

  function Params(holes: seq<Hole>, values: seq<string>): (ps: seq<Param>)
    requires |values| == |holes|
    ensures |ps| == |holes|
    ensures forall i :: 0 <= i < |ps| ==> ps[i] == Param(holes[i].name, values[i])
  {
    seq(|holes|, (i: nat) requires i < |holes| => Param(holes[i].name, values[i]))
  }

  /** The position of the brace that closes the placeholder opened at `n`, or the end. */
  function HoleEnd(s: string, n: nat): (e: nat)
    requires n < |s|
    ensures n < e <= |s|
  {
    n + 1 + Until(s[n + 1..], Some('}'))
  }

  /** Every string whose braces are closed has this structure. */
  predicate ClosedText(s: string)
    decreases |s|
  {
    var n := Until(s, Some('{'));
    n < |s| ==> HoleEnd(s, n) < |s| && ClosedText(s[HoleEnd(s, n) + 1..])
  }

  function Parse(s: string): Template
    requires ClosedText(s)
    decreases |s|
  {
    var n := Until(s, Some('{'));
    if n == |s| then Template(s, [])
    else
      var e := HoleEnd(s, n);
      var rest := Parse(s[e + 1..]);
      Template(s[..n], [Hole(s[n + 1..e], rest.head)] + rest.holes)
  }

  /** The structure found is that of the string. */
  lemma {:induction false} ParseMeans(s: string)
    requires ClosedText(s)
    ensures Closed(Parse(s)) && Text(Parse(s)) == s
    decreases |s|
  {
    hide Until, HoleEnd, Parse, Closed, Text;
    var n := Until(s, Some('{'));
    UntilMeans(s, Some('{'));
    if n == |s| {
      ParseLiteral(s);
    } else {
      var e := HoleEnd(s, n);
      HoleEndMeans(s, n);
      ParseUnfolds(s);
      ParseMeans(s[e + 1..]);
      hide ClosedText;
      ParseStep(s, n, e, Parse(s[e + 1..]));
    }
  }

  lemma HoleEndMeans(s: string, n: nat)
    requires n < |s|
    ensures var e := HoleEnd(s, n); Avoids(s[n + 1..e], '}') && (e < |s| ==> s[e] == '}')
  {
    var rest, k := s[n + 1..], Until(s[n + 1..], Some('}'));
    UntilMeans(rest, Some('}'));
    hide Until;
    assert rest[..k] == s[n + 1..n + 1 + k];
  }

  lemma {:induction false} ParseLiteral(s: string)
    requires Until(s, Some('{')) == |s| && ClosedText(s)
    ensures Closed(Parse(s)) && Text(Parse(s)) == s
  {
    UntilMeans(s, Some('{'));
    hide Until, ClosedText;
    assert s[..|s|] == s && s + "" == s;
  }

  lemma {:induction false} ParseUnfolds(s: string)
    requires ClosedText(s) && Until(s, Some('{')) < |s|
    ensures var n := Until(s, Some('{')); var e := HoleEnd(s, n);
      && e < |s| && ClosedText(s[e + 1..])
      && var rest := Parse(s[e + 1..]);
         Parse(s) == Template(s[..n], [Hole(s[n + 1..e], rest.head)] + rest.holes)
  {
    hide Until, HoleEnd;
  }

  lemma ParseStep(s: string, n: nat, e: nat, rest: Template)
    requires n < e < |s| && s[n] == '{' && s[e] == '}'
    requires Avoids(s[..n], '{') && Avoids(s[n + 1..e], '}')
    requires Closed(rest) && Text(rest) == s[e + 1..]
    ensures var t := Template(s[..n], [Hole(s[n + 1..e], rest.head)] + rest.holes);
      Closed(t) && Text(t) == s
  {
    hide Avoids;
    var holes := [Hole(s[n + 1..e], rest.head)] + rest.holes;
    assert holes[1..] == rest.holes;
    CutAtHole(s, n, e);
  }

  lemma CutAtHole(s: string, n: nat, e: nat)
    requires n < e < |s| && s[n] == '{' && s[e] == '}'
    ensures s[..n] + (Pattern(s[n + 1..e]) + s[e + 1..]) == s
  {
  }

  // ---- the scan ----

  lemma {:induction false} ScanLiteral(uri: string, p: string, rest: string)
    requires Avoids(p, '{')
    ensures Scan(uri, p + rest) == if p <= uri then Scan(uri[|p|..], rest) else None
    decreases |p|
  {
    if p == "" {
      assert p + rest == rest && uri[0..] == uri;
    } else {
      assert (p + rest)[0] == p[0] && (p + rest)[1..] == p[1..] + rest;
      if uri != "" && uri[0] == p[0] {
        ScanLiteral(uri[1..], p[1..], rest);
        if p[1..] <= uri[1..] {
          assert p <= uri by { assert uri == [uri[0]] + uri[1..]; }
          assert uri[1..][|p| - 1..] == uri[|p|..];
        }
        if p <= uri { assert p[1..] <= uri[1..]; }
      }
    }
  }

  /** Where a written placeholder ends. */
  lemma PatternCut(name: string, rest: string)
    requires Avoids(name, '}')
    ensures var s, n := Pattern(name) + rest, |name|;
      && |s| > n + 1 && s[0] == '{' && s[n + 1] == '}'
      && Until(s[1..], Some('}')) == n && s[1..][..n] == name && s[n + 2..] == rest
  {
    var s := Pattern(name) + rest;
    assert s[1..] == name + ("}" + rest);
    UntilBehind(name, '}', "}" + rest);
    Splits(name, "}" + rest);
    Splits(Pattern(name), rest);
  }

  lemma {:induction false} ScanOpen(uri: string, name: string, rest: string)
    requires Avoids(name, '}')
    ensures var k := Until(uri, First(rest));
      Scan(uri, Pattern(name) + rest) == Recorded(name, uri[..k], Scan(uri[k..], rest))
  {
    PatternCut(name, rest);
  }

  /** The values a scan finds, by the structure of the template. */
  function Extract(uri: string, holes: seq<Hole>): (r: Option<seq<string>>)
    ensures r.Some? ==> |r.value| == |holes|
    decreases |holes|
  {
    if holes == [] then (if uri == "" then Some([]) else None)
    else
      var h := holes[0];
      var k := Until(uri, First(h.after));
      if !(h.after <= uri[k..]) then None
      else InFront(uri[..k], Extract(uri[k + |h.after|..], holes[1..]))
  }

  function InFront(v: string, r: Option<seq<string>>): Option<seq<string>> {
    match r case None => None case Some(vs) => Some([v] + vs)
  }

  lemma {:induction false} ScanIsExtract(uri: string, holes: seq<Hole>)
    requires (forall i :: 0 <= i < |holes| ==> ClosedHole(holes[i])) && Separate(holes)
    ensures Scan(uri, HolesText(holes)) == Named(holes, Extract(uri, holes))
    decreases |holes|
  {
    hide Scan, Extract;
    if holes == [] {
      ScanNoHoles(uri);
    } else {
      var h, tail := holes[0], holes[1..];
      TailIsSeparate(holes);
      var k := Until(uri, First(h.after));
      if h.after <= uri[k..] { ScanIsExtract(uri[k + |h.after|..], tail); }
      ScanExtractStep(uri, holes, k, HolesText(tail));
    }
  }

  lemma {:induction false} ScanNoHoles(uri: string)
    ensures Scan(uri, HolesText([])) == Named([], Extract(uri, []))
  {
    assert Params([], []) == [];
  }

  lemma TailIsSeparate(holes: seq<Hole>)
    requires Separate(holes) && holes != []
    ensures Separate(holes[1..]) && (holes[0].after == "" ==> holes[1..] == [])
    ensures (forall i :: 0 <= i < |holes| ==> ClosedHole(holes[i])) ==>
              forall i :: 0 <= i < |holes[1..]| ==> ClosedHole(holes[1..][i])
  {
    var tail := holes[1..];
    assert forall i :: 0 <= i < |tail| ==> tail[i] == holes[i + 1];
  }

  lemma ScanExtractStep(uri: string, holes: seq<Hole>, k: nat, text: string)
    requires holes != [] && ClosedHole(holes[0]) && holes[0].name != ""
    requires text == HolesText(holes[1..]) && (holes[0].after == "" ==> text == "")
    requires k == Until(uri, First(holes[0].after))
    requires holes[0].after <= uri[k..] ==>
      Scan(uri[k + |holes[0].after|..], text) == Named(holes[1..], Extract(uri[k + |holes[0].after|..], holes[1..]))
    ensures Scan(uri, HolesText(holes)) == Named(holes, Extract(uri, holes))
  {
    hide *;
    var h := holes[0];
    HolesCons(holes);
    ExtractCons(uri, holes, k);
    ScanHole(uri, h, text, k);
    NamedNothing(holes);
    if h.after <= uri[k..] {
      NamedInFront(holes, uri[..k], Extract(uri[k + |h.after|..], holes[1..]));
    }
  }

  lemma {:induction false} HolesCons(holes: seq<Hole>)
    requires holes != []
    ensures HolesText(holes) == Pattern(holes[0].name) + (holes[0].after + HolesText(holes[1..]))
  {
  }

  lemma NamedNothing(holes: seq<Hole>)
    ensures Named(holes, None) == None
  {
  }

  lemma NamedInFront(holes: seq<Hole>, v: string, r: Option<seq<string>>)
    requires holes != [] && holes[0].name != "" && (r.Some? ==> |r.value| == |holes| - 1)
    ensures Named(holes, InFront(v, r)) == Recorded(holes[0].name, v, Named(holes[1..], r))
  {
    match r
    case None =>
    case Some(vs) => ParamsCons(holes, v, vs);
  }

  function Named(holes: seq<Hole>, r: Option<seq<string>>): Option<seq<Param>>
    requires r.Some? ==> |r.value| == |holes|
  {
    match r case None => None case Some(vs) => Some(Params(holes, vs))
  }

  lemma {:induction false} ScanHole(uri: string, h: Hole, text: string, k: nat)
    requires ClosedHole(h) && h.name != "" && (h.after == "" ==> text == "")
    requires k == Until(uri, First(h.after))
    ensures Scan(uri, Pattern(h.name) + (h.after + text))
         == if h.after <= uri[k..] then Recorded(h.name, uri[..k], Scan(uri[k + |h.after|..], text)) else None
  {
    assert First(h.after + text) == First(h.after);
    ScanOpen(uri, h.name, h.after + text);
    ScanLiteral(uri[k..], h.after, text);
    if h.after <= uri[k..] { assert uri[k..][|h.after|..] == uri[k + |h.after|..]; }
  }

  lemma ParamsCons(holes: seq<Hole>, v: string, vs: seq<string>)
    requires holes != [] && |vs| == |holes| - 1
    ensures Params(holes, [v] + vs) == [Param(holes[0].name, v)] + Params(holes[1..], vs)
  {
  }

  /** Extraction inverts rendering, as far as each value avoids what follows it. */
  lemma {:induction false} ExtractMeans(uri: string, holes: seq<Hole>, values: seq<string>)
    requires Separate(holes) && |values| == |holes|
    ensures Extract(uri, holes) == Some(values) <==> uri == RenderHoles(holes, values) && Recoverable(holes, values)
    decreases |holes|
  {
    if holes == [] {
      assert RenderHoles([], []) == "";
    } else {
      ExtractMeansBehindHole(uri, holes, values);
    }
  }

  lemma {:induction false} ExtractMeansBehindHole(uri: string, holes: seq<Hole>, values: seq<string>)
    requires Separate(holes) && |values| == |holes| && holes != []
    ensures Extract(uri, holes) == Some(values) <==> uri == RenderHoles(holes, values) && Recoverable(holes, values)
    decreases |holes|, 0
  {
    hide Extract, Recoverable, Separate;
    if holes != [] {
      var h, tail, rest := holes[0], holes[1..], values[1..];
      TailIsSeparate(holes);
      var k := Until(uri, First(h.after));
      if h.after <= uri[k..] { ExtractMeans(uri[k + |h.after|..], tail, rest); }
      ExtractStep(uri, holes, values, k, RenderHoles(tail, rest));
    }
  }

  lemma {:induction false} ExtractCons(uri: string, holes: seq<Hole>, k: nat)
    requires holes != [] && k == Until(uri, First(holes[0].after))
    ensures var after := holes[0].after;
      Extract(uri, holes)
      == if after <= uri[k..] then InFront(uri[..k], Extract(uri[k + |after|..], holes[1..])) else None
  {
    hide Until, First, InFront;
  }

  lemma {:induction false} RenderCons(holes: seq<Hole>, values: seq<string>)
    requires holes != [] && |values| == |holes|
    ensures RenderHoles(holes, values) == values[0] + (holes[0].after + RenderHoles(holes[1..], values[1..]))
  {
  }

  lemma {:induction false} ExtractStep(uri: string, holes: seq<Hole>, values: seq<string>, k: nat, rest: string)
    requires holes != [] && |values| == |holes| && k == Until(uri, First(holes[0].after))
    requires rest == RenderHoles(holes[1..], values[1..]) && (holes[0].after == "" ==> rest == "")
    requires holes[0].after <= uri[k..] ==>
      (Extract(uri[k + |holes[0].after|..], holes[1..]) == Some(values[1..]) <==>
        (uri[k + |holes[0].after|..] == rest && Recoverable(holes[1..], values[1..])))
    ensures Extract(uri, holes) == Some(values) <==> uri == RenderHoles(holes, values) && Recoverable(holes, values)
  {
    hide *;
    var h := holes[0];
    ExtractCons(uri, holes, k);
    RenderCons(holes, values);
    RecoverableCons(holes, values);
    HoleStep(uri, h, values[0], rest);
    if h.after <= uri[k..] { InFrontIs(uri[..k], Extract(uri[k + |h.after|..], holes[1..]), values); }
  }

  lemma InFrontIs(v: string, r: Option<seq<string>>, values: seq<string>)
    requires values != []
    ensures InFront(v, r) == Some(values) <==> v == values[0] && r == Some(values[1..])
  {
    match r
    case None =>
    case Some(vs) => assert ([v] + vs)[1..] == vs && values == [values[0]] + values[1..];
  }

  /** A URI is a value, a literal and a rest, with the value free of the literal's first character, exactly when
      the scan cuts it there. */
  lemma {:induction false} HoleStep(uri: string, h: Hole, v: string, rest: string)
    requires h.after == "" ==> rest == ""
    ensures var k := Until(uri, First(h.after));
      (uri == v + (h.after + rest) && (h.after != "" ==> Avoids(v, h.after[0])))
        <==> (h.after <= uri[k..] && uri[..k] == v && uri[k + |h.after|..] == rest)
  {
    var k := Until(uri, First(h.after));
    UntilMeans(uri, First(h.after));
    hide Until;
    if uri == v + (h.after + rest) && (h.after != "" ==> Avoids(v, h.after[0])) { ValueIsCut(h.after, v, rest); }
    if h.after <= uri[k..] { CutAtLiteral(uri, k, h.after); }
  }

  lemma ValueIsCut(after: string, v: string, rest: string)
    requires (after == "" ==> rest == "") && (after != "" ==> Avoids(v, after[0]))
    ensures var uri, k := v + (after + rest), |v|;
      Until(uri, First(after)) == k && after <= uri[k..] && uri[..k] == v && uri[k + |after|..] == rest
  {
    hide Until;
    var uri := v + (after + rest);
    Splits(v, after + rest);
    Splits(after, rest);
    if after == "" { UntilIs(uri, |v|, None); } else { UntilBehind(v, after[0], after + rest); }
    assert uri[|v|..][|after|..] == uri[|v| + |after|..];
  }

  lemma CutAtLiteral(u: string, k: nat, p: string)
    requires k <= |u| && p <= u[k..]
    ensures u == u[..k] + (p + u[k + |p|..])
  {
    assert u[k..][|p|..] == u[k + |p|..];
  }

  lemma RecoverableCons(holes: seq<Hole>, values: seq<string>)
    requires |values| == |holes| && holes != []
    ensures Recoverable(holes, values) <==>
      (holes[0].after != "" ==> Avoids(values[0], holes[0].after[0])) && Recoverable(holes[1..], values[1..])
  {
    var tail, rest := holes[1..], values[1..];
    assert forall i :: 0 <= i < |tail| ==> tail[i] == holes[i + 1] && rest[i] == values[i + 1];
    if Recoverable(tail, rest) && (holes[0].after != "" ==> Avoids(values[0], holes[0].after[0])) {
      forall i | 0 <= i < |holes| && holes[i].after != "" ensures Avoids(values[i], holes[i].after[0]) {
        if i > 0 { assert tail[i - 1] == holes[i] && rest[i - 1] == values[i]; }
      }
    }
  }

  /** The scan inverts rendering: on closed, named, non-adjacent placeholders it finds `values` exactly when
      the URI is their rendering and each avoids the character behind its placeholder. */
  lemma {:induction false} ScanInvertsRender(uri: string, t: Template, values: seq<string>)
    requires Closed(t) && Separate(t.holes) && |values| == |t.holes|
    ensures Scan(uri, Text(t)) == Some(Params(t.holes, values))
       <==> uri == Render(t, values) && Recoverable(t.holes, values)
  {
    hide Scan, Extract, HolesText, RenderHoles, Recoverable, Params;
    ScanLiteral(uri, t.head, HolesText(t.holes));
    Splits(t.head, RenderHoles(t.holes, values));
    if t.head <= uri {
      var u := uri[|t.head|..];
      assert uri == t.head + u;
      ScanIsExtract(u, t.holes);
      ExtractMeans(u, t.holes, values);
      if Extract(u, t.holes).Some? { ParamsInjective(t.holes, Extract(u, t.holes).value, values); }
    }
  }

  lemma ParamsInjective(holes: seq<Hole>, vs: seq<string>, ws: seq<string>)
    requires |vs| == |ws| == |holes|
    ensures Params(holes, vs) == Params(holes, ws) <==> vs == ws
  {
    if Params(holes, vs) == Params(holes, ws) {
      forall i | 0 <= i < |vs| ensures vs[i] == ws[i] {
        assert Params(holes, vs)[i] == Params(holes, ws)[i];
      }
    }
  }

  /** A hit has one value for each placeholder, in order, and re-renders to the URI it was found in. */
  lemma {:induction false} HitRerenders(uri: string, t: Template)
    requires Closed(t) && Separate(t.holes) && Scan(uri, Text(t)).Some?
    ensures exists values :: |values| == |t.holes|
              && Scan(uri, Text(t)) == Some(Params(t.holes, values))
              && Render(t, values) == uri && Recoverable(t.holes, values)
  {
    ScanLiteral(uri, t.head, HolesText(t.holes));
    ScanIsExtract(uri[|t.head|..], t.holes);
    var values := Extract(uri[|t.head|..], t.holes).value;
    ScanInvertsRender(uri, t, values);
  }

  // ---- the part matcher ----

  predicate OccursAt(s: string, p: string, i: int) {
    0 <= i && i + |p| <= |s| && s[i..i + |p|] == p
  }

  /** The position of the first occurrence of `p` in `s`. */
  function Find(s: string, p: string): (r: Option<nat>)
    ensures r.Some? ==> OccursAt(s, p, r.value) && forall i :: i < r.value ==> !OccursAt(s, p, i)
    ensures r.None? ==> forall i :: !OccursAt(s, p, i)
    decreases |s|
  {
    if |s| < |p| then None
    else if s[..|p|] == p then Some(0)
    else
      OccursShift(s, p);
      match Find(s[1..], p)
      case None => None
      case Some(k) => Some(k + 1)
  }

  lemma OccursShift(s: string, p: string)
    requires s != "" && !OccursAt(s, p, 0)
    ensures forall i :: OccursAt(s, p, i) <==> OccursAt(s[1..], p, i - 1)
  {
    forall i ensures OccursAt(s, p, i) <==> OccursAt(s[1..], p, i - 1) {
      if 1 <= i && i + |p| <= |s| { SliceShift(s, i, i + |p|); }
    }
  }

  lemma SliceShift(s: string, i: nat, j: nat)
    requires 1 <= i <= j <= |s|
    ensures s[i..j] == s[1..][i - 1..j - 1]
  {
    var a, b := s[i..j], s[1..][i - 1..j - 1];
    assert |a| == |b| && forall x :: 0 <= x < |a| ==> a[x] == b[x];
  }

  lemma {:induction false} FindIs(s: string, p: string, k: nat)
    requires OccursAt(s, p, k) && forall i :: i < k ==> !OccursAt(s, p, i)
    ensures Find(s, p) == Some(k)
  {
  }

  /** The literal parts between placeholders; an unclosed placeholder ends the split with its own text. */
  function Parts(template: string): (ps: seq<string>)
    ensures ps != []
    decreases |template|
  {
    var n := Until(template, Some('{'));
    if n == |template| then [template]
    else
      var k := Until(template[n..], Some('}'));
      if n + k == |template| then [template[..n], template]
      else [template[..n]] + Parts(template[n + k + 1..])
  }

  /** The position reached after matching the parts from index `i` on, starting at `pos`. */
  function MatchParts(uri: string, parts: seq<string>, i: nat, pos: nat): (r: Option<nat>)
    requires i <= |parts| && pos <= |uri|
    ensures r.Some? ==> r.value <= |uri|
    decreases |parts| - i
  {
    if i == |parts| then Some(pos)
    else if parts[i] == "" then MatchParts(uri, parts, i + 1, pos)
    else match Find(uri[pos..], parts[i])
      case None => None
      case Some(k) =>
        if i == 0 && k != 0 then None else MatchParts(uri, parts, i + 1, pos + k + |parts[i]|)
  }

  predicate Matches(uri: string, template: string) {
    var parts := Parts(template);
    match MatchParts(uri, parts, 0, 0)
    case None => false
    case Some(pos) => parts[|parts| - 1] != "" ==> pos == |uri|
  }

  function Afters(holes: seq<Hole>): (ps: seq<string>)
    ensures |ps| == |holes| && forall i :: 0 <= i < |ps| ==> ps[i] == holes[i].after
  {
    seq(|holes|, (i: nat) requires i < |holes| => holes[i].after)
  }

  /** Splitting a closed template gives back its literals. */
  lemma {:induction false} PartsOfText(t: Template)
    requires Closed(t)
    ensures Parts(Text(t)) == [t.head] + Afters(t.holes)
    decreases |t.holes|
  {
    if t.holes == [] {
      assert Text(t) == t.head == t.head + "";
      UntilBehind(t.head, '{', "");
      assert [t.head] + Afters(t.holes) == [t.head];
    } else {
      var h, tail := t.holes[0], t.holes[1..];
      assert forall i :: 0 <= i < |tail| ==> tail[i] == t.holes[i + 1];
      PartsStep(t.head, h.name, h.after + HolesText(tail));
      PartsOfText(Template(h.after, tail));
      AftersCons(t.holes);
    }
  }

  lemma AftersCons(holes: seq<Hole>)
    requires holes != []
    ensures Afters(holes) == [holes[0].after] + Afters(holes[1..])
  {
  }

  lemma {:induction false} PartsStep(head: string, name: string, rest: string)
    requires Avoids(head, '{') && Avoids(name, '}')
    ensures Parts(head + (Pattern(name) + rest)) == [head] + Parts(rest)
  {
    hide *;
    var s := head + (Pattern(name) + rest);
    PartsCut(head, name, rest);
    PartsAt(s, |head|, |name| + 1);
  }

  lemma {:induction false} PartsAt(s: string, n: nat, k: nat)
    requires n == Until(s, Some('{')) < |s| && k == Until(s[n..], Some('}')) && n + k < |s|
    ensures Parts(s) == [s[..n]] + Parts(s[n + k + 1..])
  {
    hide Until;
  }

  lemma PartsCut(head: string, name: string, rest: string)
    requires Avoids(head, '{') && Avoids(name, '}')
    ensures var s := head + (Pattern(name) + rest);
      && Until(s, Some('{')) == |head| < |s| && s[..|head|] == head
      && Until(s[|head|..], Some('}')) == |name| + 1 && |head| + |name| + 1 < |s|
      && s[|head| + |name| + 2..] == rest
  {
    var s := head + (Pattern(name) + rest);
    UntilBehind(head, '{', Pattern(name) + rest);
    Splits(head, Pattern(name) + rest);
    UntilBehind("{" + name, '}', "}" + rest);
    assert Pattern(name) + rest == ("{" + name) + ("}" + rest);
    Splits(Pattern(name), rest);
    assert s[|head|..][|name| + 2..] == s[|head| + |name| + 2..];
  }

  /** The parts from index `i` on, matched as literals behind arbitrary text. */
  function MatchAfters(u: string, afters: seq<string>): (r: Option<nat>)
    ensures r.Some? ==> r.value <= |u|
    decreases |afters|
  {
    if afters == [] then Some(0)
    else if afters[0] == "" then MatchAfters(u, afters[1..])
    else match Find(u, afters[0])
      case None => None
      case Some(k) => Plus(k + |afters[0]|, MatchAfters(u[k + |afters[0]|..], afters[1..]))
  }

  function Plus(n: nat, r: Option<nat>): Option<nat> {
    match r case None => None case Some(m) => Some(n + m)
  }

  lemma {:induction false} MatchPartsIsMatchAfters(uri: string, parts: seq<string>, i: nat, pos: nat)
    requires 1 <= i <= |parts| && pos <= |uri|
    ensures MatchParts(uri, parts, i, pos) == Plus(pos, MatchAfters(uri[pos..], parts[i..]))
    decreases |parts| - i
  {
    hide Find, MatchParts, MatchAfters;
    var u, afters := uri[pos..], parts[i..];
    if i == |parts| {
      NoPartsLeft(uri, parts, pos);
    } else {
      assert afters[1..] == parts[i + 1..] && afters[0] == parts[i];
      PartStep(uri, parts, i, pos);
      PartAsAfter(u, afters);
      if parts[i] == "" {
        MatchPartsIsMatchAfters(uri, parts, i + 1, pos);
      } else {
        match Find(u, parts[i])
        case None =>
        case Some(k) =>
          var n := k + |parts[i]|;
          assert u[n..] == uri[pos + n..];
          MatchPartsIsMatchAfters(uri, parts, i + 1, pos + n);
      }
    }
  }

  lemma {:induction false} NoPartsLeft(uri: string, parts: seq<string>, pos: nat)
    requires pos <= |uri|
    ensures MatchParts(uri, parts, |parts|, pos) == Some(pos) && MatchAfters(uri[pos..], parts[|parts|..]) == Some(0)
  {
  }

  lemma PartStep(uri: string, parts: seq<string>, i: nat, pos: nat)
    requires 1 <= i < |parts| && pos <= |uri|
    ensures parts[i] == "" ==> MatchParts(uri, parts, i, pos) == MatchParts(uri, parts, i + 1, pos)
    ensures parts[i] != "" && Find(uri[pos..], parts[i]).None? ==> MatchParts(uri, parts, i, pos) == None
    ensures parts[i] != "" && Find(uri[pos..], parts[i]).Some? ==>
      var n := pos + Find(uri[pos..], parts[i]).value + |parts[i]|;
      n <= |uri| && MatchParts(uri, parts, i, pos) == MatchParts(uri, parts, i + 1, n)
  {
    hide Find;
  }

  lemma {:induction false} PartAsAfter(u: string, afters: seq<string>)
    requires afters != []
    ensures afters[0] == "" ==> MatchAfters(u, afters) == MatchAfters(u, afters[1..])
    ensures afters[0] != "" && Find(u, afters[0]).None? ==> MatchAfters(u, afters) == None
    ensures afters[0] != "" && Find(u, afters[0]).Some? ==>
      var n := Find(u, afters[0]).value + |afters[0]|;
      n <= |u| && MatchAfters(u, afters) == Plus(n, MatchAfters(u[n..], afters[1..]))
  {
    hide Find;
  }

  /** What the matcher does with a template of this structure. */
  lemma MatchesMeans(uri: string, t: Template)
    requires Closed(t) && t.holes != []
    ensures Matches(uri, Text(t)) <==>
      t.head <= uri && AcceptsRest(uri[|t.head|..], t.holes)
  {
    PartsOfText(t);
    var parts := [t.head] + Afters(t.holes);
    assert parts[1..] == Afters(t.holes) && parts[|parts| - 1] == t.holes[|t.holes| - 1].after;
    HeadIsAnchored(uri, parts);
    if t.head <= uri { MatchPartsIsMatchAfters(uri, parts, 1, |t.head|); }
  }

  predicate AcceptsRest(u: string, holes: seq<Hole>)
    requires holes != []
  {
    var r := MatchAfters(u, Afters(holes));
    r.Some? && (holes[|holes| - 1].after != "" ==> r.value == |u|)
  }

  /** The first part must be a prefix of the URI. */
  lemma {:induction false} HeadIsAnchored(uri: string, parts: seq<string>)
    requires parts != []
    ensures MatchParts(uri, parts, 0, 0) == if parts[0] <= uri then MatchParts(uri, parts, 1, |parts[0]|) else None
  {
    var p := parts[0];
    assert uri[0..] == uri;
    assert |p| <= |uri| ==> uri[0..0 + |p|] == uri[..|p|];
    if p <= uri && p != "" {
      assert OccursAt(uri, p, 0) by { assert uri[0..0 + |p|] == uri[..|p|]; }
      FindIs(uri, p, 0);
    }
  }

  // ---- how the two matchers compare ----

  /** Behind a value that avoids its first character, a literal is found at once. */
  lemma {:induction false} FindBehindValue(v: string, p: string, rest: string)
    requires p != "" && Avoids(v, p[0])
    ensures Find(v + (p + rest), p) == Some(|v|)
  {
    var s := v + (p + rest);
    assert s[|v|..|v| + |p|] == p;
    forall i: nat | i < |v| ensures !OccursAt(s, p, i) {
      assert i + |p| <= |s| ==> s[i..i + |p|][0] == s[i];
      assert s[i] == v[i] != p[0];
    }
    FindIs(s, p, |v|);
  }

  lemma {:induction false} RenderedMatches(holes: seq<Hole>, values: seq<string>)
    requires |values| == |holes| && Recoverable(holes, values) && Separate(holes)
    ensures var u := RenderHoles(holes, values); var r := MatchAfters(u, Afters(holes));
      && r.Some?
      && (holes != [] && holes[|holes| - 1].after != "" ==> r.value == |u|)
    decreases |holes|
  {
    if holes != [] {
      var h, tail, rest := holes[0], holes[1..], RenderHoles(holes[1..], values[1..]);
      assert Afters(holes)[1..] == Afters(tail);
      RecoverableCons(holes, values);
      assert forall i :: 0 <= i < |tail| ==> tail[i] == holes[i + 1];
      RenderedMatches(tail, values[1..]);
      if h.after != "" {
        AftersStep(values[0], h.after, rest, Afters(tail));
        assert [h.after] + Afters(tail) == Afters(holes);
        assert tail == [] ==> rest == "";
      } else {
        assert tail == [];
        assert MatchAfters(RenderHoles(holes, values), Afters(tail)) == Some(0);
      }
    }
  }

  lemma {:induction false} AftersStep(v: string, p: string, rest: string, afters: seq<string>)
    requires p != "" && Avoids(v, p[0])
    ensures MatchAfters(v + (p + rest), [p] + afters) == Plus(|v| + |p|, MatchAfters(rest, afters))
  {
    hide Find, Avoids;
    var u := v + (p + rest);
    FindBehindValue(v, p, rest);
    assert u == (v + p) + rest;
    Splits(v + p, rest);
    assert ([p] + afters)[1..] == afters;
  }

  /** Whatever the character scan accepts, the part matcher accepts. */
  lemma {:induction false} ScanImpliesMatches(uri: string, t: Template)
    requires Closed(t) && Separate(t.holes) && Scan(uri, Text(t)).Some?
    ensures Matches(uri, Text(t))
  {
    hide Scan, Separate, RenderHoles, Recoverable, Matches, Text, MatchAfters, Afters, Params;
    HitRerenders(uri, t);
    var values :| |values| == |t.holes| && Scan(uri, Text(t)) == Some(Params(t.holes, values))
      && Render(t, values) == uri && Recoverable(t.holes, values);
    Splits(t.head, RenderHoles(t.holes, values));
    if t.holes == [] {
      assert t.head + RenderHoles([], []) == t.head by { NothingRenders(); }
      HeadMatches(t);
    } else {
      RenderedMatches(t.holes, values);
      MatchesMeans(uri, t);
    }
  }

  lemma NothingRenders()
    ensures RenderHoles([], []) == ""
  {
  }

  lemma HeadMatches(t: Template)
    requires Closed(t) && t.holes == []
    ensures Matches(t.head, Text(t))
  {
    PartsOfText(t);
    assert [t.head] + Afters(t.holes) == [t.head];
    HeadIsAnchored(t.head, [t.head]);
  }

  predicate Renders(u: string, holes: seq<Hole>, values: seq<string>) {
    |values| == |holes| && RenderHoles(holes, values) == u
  }

  /** A rendering of a suffix is one of the whole with a longer first value. */
  lemma RenderLonger(u: string, v: string, holes: seq<Hole>, values: seq<string>)
    requires holes != [] && Renders(u, holes, values)
    ensures Renders(v + u, holes, [v + values[0]] + values[1..])
  {
    var longer := [v + values[0]] + values[1..];
    assert longer[1..] == values[1..];
    ConcatAssoc(v, values[0], holes[0].after + RenderHoles(holes[1..], values[1..]));
  }

  lemma RenderFirst(u: string, k: nat, holes: seq<Hole>, values: seq<string>)
    requires holes != [] && k <= |u| && holes[0].after <= u[k..]
    requires Renders(u[k + |holes[0].after|..], holes[1..], values)
    ensures Renders(u, holes, [u[..k]] + values)
  {
    CutAtLiteral(u, k, holes[0].after);
    assert ([u[..k]] + values)[1..] == values;
  }

  lemma {:induction false} NoAfters(u: string)
    ensures MatchAfters(u, Afters([])) == Some(0)
  {
  }

  lemma {:induction false} EmptyAfter(u: string, holes: seq<Hole>)
    requires holes != [] && holes[0].after == ""
    ensures MatchAfters(u, Afters(holes)) == MatchAfters(u, Afters(holes[1..]))
  {
    hide Find;
    AftersCons(holes);
  }

  lemma {:induction false} AfterMissing(u: string, holes: seq<Hole>)
    requires holes != [] && holes[0].after != "" && Find(u, holes[0].after).None?
    ensures MatchAfters(u, Afters(holes)).None?
  {
    hide Find;
  }

  lemma {:induction false} AfterFound(u: string, holes: seq<Hole>, k: nat)
    requires holes != [] && holes[0].after != "" && Find(u, holes[0].after) == Some(k)
    ensures var n := k + |holes[0].after|;
      MatchAfters(u, Afters(holes)) == Plus(n, MatchAfters(u[n..], Afters(holes[1..])))
  {
    hide Find;
    AftersCons(holes);
    assert Afters(holes)[1..] == Afters(holes[1..]);
  }

  /** Every value ends where the literal behind it first occurs; in front of a placeholder it is empty. */
  predicate Earliest(holes: seq<Hole>, values: seq<string>)
    requires |values| == |holes|
  {
    holes == [] || (EndsFirst(holes, values) && Earliest(holes[1..], values[1..]))
  }

  predicate EndsFirst(holes: seq<Hole>, values: seq<string>)
    requires |values| == |holes| && holes != []
  {
    var v, after, rest := values[0], holes[0].after, RenderHoles(holes[1..], values[1..]);
    if after == "" then |holes| > 1 ==> v == "" else Find(v + (after + rest), after) == Some(|v|)
  }

  lemma {:induction false} EarliestCons(v: string, holes: seq<Hole>, values: seq<string>)
    requires holes != [] && |values| == |holes| - 1 && EndsFirst(holes, [v] + values) && Earliest(holes[1..], values)
    ensures Earliest(holes, [v] + values)
  {
    hide EndsFirst;
    assert ([v] + values)[1..] == values;
  }

  ghost predicate RendersEarliest(u: string, holes: seq<Hole>, values: seq<string>) {
    Renders(u, holes, values) && Earliest(holes, values)
  }

  /** What the matcher finds is a rendering with earliest values. */
  lemma {:induction false} MatchedRenders(u: string, holes: seq<Hole>)
    requires holes != [] && AcceptsRest(u, holes)
    ensures exists values :: RendersEarliest(u, holes, values)
    decreases |holes|
  {
    hide Find, MatchAfters, RenderHoles, Renders, Afters, Earliest, EndsFirst;
    var h, tail := holes[0], holes[1..];
    if tail == [] {
      LastRenders(u, holes);
    } else {
      assert tail[|tail| - 1] == holes[|holes| - 1];
      var k := 0;
      if h.after == "" {
        EmptyAfter(u, holes);
        assert u[0..] == u;
      } else {
        if Find(u, h.after).None? { AfterMissing(u, holes); }
        k := Find(u, h.after).value;
        AfterFound(u, holes, k);
      }
      MatchedRenders(u[k + |h.after|..], tail);
      var values :| RendersEarliest(u[k + |h.after|..], tail, values);
      FirstIsEarliest(u, k, holes, values);
    }
  }

  lemma {:induction false} FirstIsEarliest(u: string, k: nat, holes: seq<Hole>, values: seq<string>)
    requires holes != [] && k + |holes[0].after| <= |u|
    requires if holes[0].after == "" then k == (if |holes| > 1 then 0 else |u|) else Find(u, holes[0].after) == Some(k)
    requires RendersEarliest(u[k + |holes[0].after|..], holes[1..], values)
    ensures RendersEarliest(u, holes, [u[..k]] + values)
  {
    hide Find, Earliest;
    var after, rest, all := holes[0].after, u[k + |holes[0].after|..], [u[..k]] + values;
    assert after <= u[k..] by { if after != "" { assert u[k..][..|after|] == u[k..k + |after|]; } }
    RenderFirst(u, k, holes, values);
    CutAtLiteral(u, k, after);
    assert all[1..] == values;
    EarliestCons(u[..k], holes, values);
  }

  lemma LastRenders(u: string, holes: seq<Hole>)
    requires |holes| == 1 && AcceptsRest(u, holes)
    ensures exists values :: RendersEarliest(u, holes, values)
  {
    hide Find, MatchAfters, Afters;
    var h := holes[0];
    assert holes[1..] == [] && RendersEarliest("", [], []);
    var k := |u|;
    if h.after != "" {
      if Find(u, h.after).None? { AfterMissing(u, holes); }
      k := Find(u, h.after).value;
      AfterFound(u, holes, k);
      NoAfters(u[k + |h.after|..]);
    }
    assert u[k + |h.after|..] == "";
    FirstIsEarliest(u, k, holes, []);
  }

  /** The matcher accepts every rendering with earliest values. */
  lemma {:induction false} EarliestIsMatched(u: string, holes: seq<Hole>, values: seq<string>)
    requires holes != [] && RendersEarliest(u, holes, values)
    ensures AcceptsRest(u, holes)
    decreases |holes|
  {
    hide Find, MatchAfters, RenderHoles, Afters;
    var h, tail, rest := holes[0], holes[1..], RenderHoles(holes[1..], values[1..]);
    RenderCons(holes, values);
    assert RendersEarliest(rest, tail, values[1..]) && EndsFirst(holes, values);
    if tail == [] { NoAfters(rest); NothingRenders(); } else {
      assert tail[|tail| - 1] == holes[|holes| - 1];
      EarliestIsMatched(rest, tail, values[1..]);
    }
    if h.after == "" {
      EmptyAfter(u, holes);
      if tail == [] { NoAfters(u); } else { assert u == "" + ("" + rest) == rest; }
    } else {
      var n := |values[0]| + |h.after|;
      assert u == (values[0] + h.after) + rest;
      Splits(values[0] + h.after, rest);
      AfterFound(u, holes, |values[0]|);
    }
  }

  lemma {:induction false} RenderedIsMatched(u: string, holes: seq<Hole>, values: seq<string>)
    requires holes != [] && holes[|holes| - 1].after == "" && Renders(u, holes, values)
    ensures MatchAfters(u, Afters(holes)).Some?
    decreases |holes|
  {
    hide Find, MatchAfters, RenderHoles, Afters;
    var h, tail := holes[0], holes[1..];
    RenderCons(holes, values);
    if tail == [] {
      EmptyAfter(u, holes);
      NoAfters(u);
    } else {
      assert tail[|tail| - 1] == holes[|holes| - 1];
      var rest := RenderHoles(tail, values[1..]);
      if h.after == "" {
        assert u == values[0] + rest;
        RenderLonger(rest, values[0], tail, values[1..]);
        RenderedIsMatched(u, tail, [values[0] + values[1..][0]] + values[1..][1..]);
        EmptyAfter(u, holes);
      } else {
        var n := |values[0]|;
        assert OccursAt(u, h.after, n) by { assert u[n..n + |h.after|] == h.after; }
        var k := Find(u, h.after).value;
        var gap := u[k + |h.after|..n + |h.after|];
        assert u[k + |h.after|..] == gap + rest;
        RenderLonger(rest, gap, tail, values[1..]);
        RenderedIsMatched(gap + rest, tail, [gap + values[1..][0]] + values[1..][1..]);
        AfterFound(u, holes, k);
      }
    }
  }

  /** Exactly what the part matcher accepts: the renderings in which every value ends at the first occurrence
      of the literal behind it. */
  lemma MatchesMeansEarliest(uri: string, t: Template)
    requires Closed(t) && t.holes != []
    ensures Matches(uri, Text(t)) <==>
      exists values :: |values| == |t.holes| && Render(t, values) == uri && Earliest(t.holes, values)
  {
    hide Earliest, Matches, RenderHoles, AcceptsRest;
    MatchesMeans(uri, t);
    if Matches(uri, Text(t)) {
      var u := uri[|t.head|..];
      MatchedRenders(u, t.holes);
      var values :| RendersEarliest(u, t.holes, values);
      assert Render(t, values) == t.head + u == uri;
    }
    forall values | |values| == |t.holes| && Render(t, values) == uri && Earliest(t.holes, values)
      ensures Matches(uri, Text(t))
    {
      Splits(t.head, RenderHoles(t.holes, values));
      EarliestIsMatched(uri[|t.head|..], t.holes, values);
    }
  }

  /** The part matcher accepts only URIs that some assignment of values renders; if the template ends with a
      placeholder it accepts all of them, adjacent placeholders included. */
  lemma MatchesIsRenderable(uri: string, t: Template)
    requires Closed(t) && t.holes != []
    ensures Matches(uri, Text(t)) ==> exists values :: |values| == |t.holes| && Render(t, values) == uri
    ensures t.holes[|t.holes| - 1].after == "" ==>
      (Matches(uri, Text(t)) <==> exists values :: |values| == |t.holes| && Render(t, values) == uri)
  {
    hide Matches, Text, RenderHoles, Earliest, MatchAfters, Afters;
    MatchesMeans(uri, t);
    MatchesMeansEarliest(uri, t);
    if t.holes[|t.holes| - 1].after == "" {
      forall values | |values| == |t.holes| && Render(t, values) == uri ensures Matches(uri, Text(t)) {
        Splits(t.head, RenderHoles(t.holes, values));
        RenderedIsMatched(uri[|t.head|..], t.holes, values);
      }
    }
  }

  /** Behind a final literal the leftmost search can stop too early: `a{x}b` renders `abb` but does not match
      it, so the equivalence does not extend to templates that end with a literal. */
  lemma FinalLiteralMayBeMissed()
    ensures var t := Template("a", [Hole("x", "b")]);
      Closed(t) && Render(t, ["b"]) == "abb" && !Matches("abb", Text(t))
  {
    var t := Template("a", [Hole("x", "b")]);
    RenderOne("x", "b", "b");
    MatchesMeans("abb", t);
    var u := "abb"[1..];
    assert u == "bb" && OccursAt(u, "b", 0) by { assert u[0..1] == "b"; }
    FindIs(u, "b", 0);
    AftersOne("x", "b", u, 0);
  }

  lemma RenderOne(name: string, after: string, v: string)
    ensures RenderHoles([Hole(name, after)], [v]) == v + after
  {
    assert [Hole(name, after)][1..] == [] && [v][1..] == [];
    assert RenderHoles([], []) == "";
    assert after + "" == after;
  }

  lemma {:induction false} AftersOne(name: string, after: string, u: string, k: nat)
    requires after != "" && Find(u, after) == Some(k)
    ensures MatchAfters(u, Afters([Hole(name, after)])) == Some(k + |after|)
  {
    var afters := Afters([Hole(name, after)]);
    assert afters[1..] == [];
    assert MatchAfters(u[k + |after|..], []) == Some(0);
  }

  /** The converse of ScanImpliesMatches fails: `a{x}bc` matches `abbc` by parts, but the scan ends its value
      at the first `b`. */
  lemma MatchesDoesNotImplyScan()
    ensures var t := Template("a", [Hole("x", "bc")]);
      Closed(t) && Separate(t.holes) && Matches("abbc", Text(t)) && Scan("abbc", Text(t)).None?
  {
    var t, u := Template("a", [Hole("x", "bc")]), "abbc"[1..];
    FirstBc();
    NoBc();
    AftersOne("x", "bc", u, 1);
    MatchesMeans("abbc", t);
    ScanLiteral("abbc", "a", HolesText(t.holes));
    ScanIsExtract(u, t.holes);
  }

  lemma FirstBc()
    ensures Find("abbc"[1..], "bc") == Some(1)
  {
    var u := "abbc"[1..];
    assert u == "bbc" && u[1..3] == "bc" && u[0..2] == "bb";
    hide Find;
    assert OccursAt(u, "bc", 1) && !OccursAt(u, "bc", 0);
    FindIs(u, "bc", 1);
  }

  lemma NoBc()
    ensures Extract("abbc"[1..], [Hole("x", "bc")]).None?
  {
    var u := "abbc"[1..];
    assert u == "bbc";
    hide Until;
    UntilIs(u, 0, Some('b'));
    assert u[0..] == u && u[1] != 'c';
  }

  // ---- the printer ----

  /** `str.replace`: all occurrences, left to right, not overlapping. */
  function Replace(s: string, p: string, v: string): string
    requires p != ""
    decreases |s|
  {
    if s == "" then ""
    else if p <= s then v + Replace(s[|p|..], p, v)
    else [s[0]] + Replace(s[1..], p, v)
  }

  function Substitute(s: string, params: seq<Param>): string
    decreases |params|
  {
    if params == [] then s else Substitute(Replace(s, Pattern(params[0].name), params[0].value), params[1..])
  }

  predicate BraceFree(s: string) {
    Avoids(s, '{') && Avoids(s, '}')
  }

  /** A template in which some placeholders have been filled: text without opening braces, and placeholders. */
  datatype Piece = Plain(s: string) | Open(name: string)

  predicate PieceOk(p: Piece) {
    match p
    case Plain(s) => Avoids(s, '{')
    case Open(name) => BraceFree(name)
  }

  function Flatten(ps: seq<Piece>): string {
    if ps == [] then ""
    else (match ps[0] case Plain(s) => s case Open(name) => Pattern(name)) + Flatten(ps[1..])
  }

  function Fill(ps: seq<Piece>, key: string, v: string): (r: seq<Piece>)
    ensures |r| == |ps|
    ensures forall i :: 0 <= i < |ps| ==> r[i] == if ps[i] == Open(key) then Plain(v) else ps[i]
  {
    seq(|ps|, (i: nat) requires i < |ps| => if ps[i] == Open(key) then Plain(v) else ps[i])
  }

  lemma {:induction false} ReplaceSkips(s: string, rest: string, p: string, v: string)
    requires p != "" && p[0] == '{' && Avoids(s, '{')
    ensures Replace(s + rest, p, v) == s + Replace(rest, p, v)
    decreases |s|
  {
    if s == "" {
      assert s + rest == rest;
    } else {
      assert (s + rest)[0] == s[0] && (s + rest)[1..] == s[1..] + rest;
      ReplaceSkips(s[1..], rest, p, v);
    }
  }

  lemma SamePattern(name: string, rest: string, key: string)
    requires Avoids(name, '}') && Avoids(key, '}') && Pattern(key) <= Pattern(name) + rest
    ensures name == key
  {
    var s, p := Pattern(name) + rest, Pattern(key);
    assert s == p + s[|p|..];
    PatternCut(name, rest);
    PatternCut(key, s[|p|..]);
  }

  lemma {:induction false} ReplaceHole(name: string, rest: string, key: string, v: string)
    requires BraceFree(name) && BraceFree(key)
    ensures Replace(Pattern(name) + rest, Pattern(key), v)
         == (if name == key then v else Pattern(name)) + Replace(rest, Pattern(key), v)
  {
    var s, p := Pattern(name) + rest, Pattern(key);
    if name == key {
      assert s[|p|..] == rest;
    } else {
      if p <= s { SamePattern(name, rest, key); }
      assert s[0] == '{' && s[1..] == (name + "}") + rest;
      ReplaceSkips(name + "}", rest, p, v);
      assert "{" + (name + "}") == Pattern(name);
    }
  }

  lemma {:induction false} ReplaceFills(ps: seq<Piece>, key: string, v: string)
    requires (forall i :: 0 <= i < |ps| ==> PieceOk(ps[i])) && BraceFree(key)
    ensures Replace(Flatten(ps), Pattern(key), v) == Flatten(Fill(ps, key, v))
    decreases |ps|
  {
    if ps != [] {
      ReplaceFills(ps[1..], key, v);
      assert Fill(ps, key, v)[1..] == Fill(ps[1..], key, v);
      assert PieceOk(ps[0]);
      match ps[0]
      case Plain(s) => ReplaceSkips(s, Flatten(ps[1..]), Pattern(key), v);
      case Open(name) => ReplaceHole(name, Flatten(ps[1..]), key, v);
    }
  }

  /** What substitution does to a piece: the value of the first parameter that names it. */
  function FillAll(p: Piece, params: seq<Param>): Piece
    decreases |params|
  {
    if params == [] then p
    else FillAll(if p == Open(params[0].name) then Plain(params[0].value) else p, params[1..])
  }

  predicate ParamsOk(params: seq<Param>) {
    forall i :: 0 <= i < |params| ==> BraceFree(params[i].name) && Avoids(params[i].value, '{')
  }

  lemma {:induction false} SubstituteFills(ps: seq<Piece>, params: seq<Param>)
    requires (forall i :: 0 <= i < |ps| ==> PieceOk(ps[i])) && ParamsOk(params)
    ensures Substitute(Flatten(ps), params) == Flatten(seq(|ps|, (i: nat) requires i < |ps| => FillAll(ps[i], params)))
    decreases |params|
  {
    if params == [] {
      assert seq(|ps|, (i: nat) requires i < |ps| => FillAll(ps[i], params)) == ps;
    } else {
      var key, v := params[0].name, params[0].value;
      ReplaceFills(ps, key, v);
      var next := Fill(ps, key, v);
      assert forall i :: 0 <= i < |next| ==> PieceOk(next[i]);
      SubstituteFills(next, params[1..]);
      assert seq(|ps|, (i: nat) requires i < |ps| => FillAll(ps[i], params))
          == seq(|next|, (i: nat) requires i < |next| => FillAll(next[i], params[1..]));
    }
  }

  function Pieces(holes: seq<Hole>): seq<Piece> {
    if holes == [] then [] else [Open(holes[0].name), Plain(holes[0].after)] + Pieces(holes[1..])
  }

  lemma {:induction false} FlattenPieces(holes: seq<Hole>)
    requires forall i :: 0 <= i < |holes| ==> ClosedHole(holes[i]) && BraceFree(holes[i].name)
    ensures Flatten(Pieces(holes)) == HolesText(holes)
    ensures forall i :: 0 <= i < |Pieces(holes)| ==> PieceOk(Pieces(holes)[i])
    decreases |holes|
  {
    if holes != [] {
      var ps, tail := Pieces(holes), holes[1..];
      FlattenPieces(tail);
      assert ps[1..][1..] == Pieces(tail) && ps[1..][0] == Plain(holes[0].after);
      assert Flatten(ps) == Pattern(holes[0].name) + (holes[0].after + Flatten(Pieces(tail)));
    }
  }

  lemma {:induction false} FillFinds(params: seq<Param>, name: string, value: string)
    requires exists j :: 0 <= j < |params| && params[j] == Param(name, value)
    requires forall j :: 0 <= j < |params| && params[j].name == name ==> params[j].value == value
    ensures FillAll(Open(name), params) == Plain(value)
    decreases |params|
  {
    var j :| 0 <= j < |params| && params[j] == Param(name, value);
    if params[0].name == name {
      PlainStays(value, params[1..]);
    } else {
      assert params[1..][j - 1] == params[j];
      FillFinds(params[1..], name, value);
    }
  }

  lemma {:induction false} PlainStays(s: string, params: seq<Param>)
    ensures FillAll(Plain(s), params) == Plain(s)
    decreases |params|
  {
    if params != [] { PlainStays(s, params[1..]); }
  }

  /** The parameters, in any order and possibly with others, give each placeholder its value. */
  predicate Gives(params: seq<Param>, holes: seq<Hole>, values: seq<string>)
    requires |values| == |holes|
  {
    forall i :: 0 <= i < |holes| ==> GivesOne(params, holes[i].name, values[i])
  }

  predicate GivesOne(params: seq<Param>, name: string, value: string) {
    && (exists j :: 0 <= j < |params| && params[j] == Param(name, value))
    && (forall j :: 0 <= j < |params| && params[j].name == name ==> params[j].value == value)
  }

  lemma {:induction false} FilledPiecesRender(holes: seq<Hole>, values: seq<string>, params: seq<Param>)
    requires |values| == |holes| && Gives(params, holes, values)
    ensures var ps := Pieces(holes);
      Flatten(seq(|ps|, (i: nat) requires i < |ps| => FillAll(ps[i], params))) == RenderHoles(holes, values)
    decreases |holes|
  {
    var ps := Pieces(holes);
    var filled := seq(|ps|, (i: nat) requires i < |ps| => FillAll(ps[i], params));
    if holes != [] {
      var tail := holes[1..];
      GivesTail(params, holes, values);
      FilledPiecesRender(tail, values[1..], params);
      assert GivesOne(params, holes[0].name, values[0]);
      FillFinds(params, holes[0].name, values[0]);
      PlainStays(holes[0].after, params);
      hide FillAll, Gives, GivesOne;
      var ts := Pieces(tail);
      assert filled[2..] == seq(|ts|, (i: nat) requires i < |ts| => FillAll(ts[i], params));
      assert filled[0] == Plain(values[0]) && filled[1] == Plain(holes[0].after);
      assert filled[1..][1..] == filled[2..] && filled[1..][0] == filled[1];
      assert Flatten(filled) == values[0] + (holes[0].after + Flatten(filled[2..]));
    }
  }

  lemma GivesTail(params: seq<Param>, holes: seq<Hole>, values: seq<string>)
    requires holes != [] && |values| == |holes| && Gives(params, holes, values)
    ensures Gives(params, holes[1..], values[1..])
  {
    var tail, rest := holes[1..], values[1..];
    forall i | 0 <= i < |tail| ensures GivesOne(params, tail[i].name, rest[i]) {
      assert tail[i] == holes[i + 1] && rest[i] == values[i + 1] && GivesOne(params, holes[i + 1].name, values[i + 1]);
    }
  }

  predicate NamesOk(t: Template) {
    forall i :: 0 <= i < |t.holes| ==> BraceFree(t.holes[i].name)
  }

  /** Sequential replacement equals rendering when no value contains an opening brace. */
  lemma {:induction false} SubstituteRenders(t: Template, values: seq<string>, params: seq<Param>)
    requires Closed(t) && NamesOk(t) && |values| == |t.holes|
    requires ParamsOk(params) && Gives(params, t.holes, values)
    ensures Substitute(Text(t), params) == Render(t, values)
  {
    var ps := [Plain(t.head)] + Pieces(t.holes);
    TemplatePieces(t);
    SubstituteFills(ps, params);
    FilledTemplate(t, values, params);
  }

  lemma TemplatePieces(t: Template)
    requires Closed(t) && NamesOk(t)
    ensures var ps := [Plain(t.head)] + Pieces(t.holes);
      Flatten(ps) == Text(t) && forall i :: 0 <= i < |ps| ==> PieceOk(ps[i])
  {
    var ps := [Plain(t.head)] + Pieces(t.holes);
    FlattenPieces(t.holes);
    assert ps[1..] == Pieces(t.holes);
  }

  lemma {:induction false} FilledTemplate(t: Template, values: seq<string>, params: seq<Param>)
    requires |values| == |t.holes| && Gives(params, t.holes, values)
    ensures var ps := [Plain(t.head)] + Pieces(t.holes);
      Flatten(seq(|ps|, (i: nat) requires i < |ps| => FillAll(ps[i], params))) == Render(t, values)
  {
    var ps, tail := [Plain(t.head)] + Pieces(t.holes), Pieces(t.holes);
    var filled := seq(|ps|, (i: nat) requires i < |ps| => FillAll(ps[i], params));
    PlainStays(t.head, params);
    assert filled[1..] == seq(|tail|, (i: nat) requires i < |tail| => FillAll(tail[i], params));
    assert filled[0] == Plain(t.head);
    FilledPiecesRender(t.holes, values, params);
  }

  predicate DistinctNames(holes: seq<Hole>) {
    forall i, j :: 0 <= i < j < |holes| ==> holes[i].name != holes[j].name
  }

  /** Extraction, then substitution: a hit in a URI without opening braces prints back the URI. */
  lemma {:induction false} SubstituteInvertsScan(uri: string, t: Template)
    requires Closed(t) && NamesOk(t) && Separate(t.holes) && DistinctNames(t.holes) && Avoids(uri, '{')
    requires Scan(uri, Text(t)).Some?
    ensures Substitute(Text(t), Scan(uri, Text(t)).value) == uri
  {
    hide Scan, Substitute, RenderHoles, Recoverable;
    HitRerenders(uri, t);
    var values :| |values| == |t.holes| && Scan(uri, Text(t)) == Some(Params(t.holes, values))
      && Render(t, values) == uri && Recoverable(t.holes, values);
    var params := Params(t.holes, values);
    var rest := RenderHoles(t.holes, values);
    forall k | 0 <= k < |rest| ensures rest[k] != '{' { assert uri[|t.head| + k] == rest[k]; }
    forall i | 0 <= i < |values| ensures Avoids(values[i], '{') { ValueInRender(t.holes, values, i); }
    forall i | 0 <= i < |t.holes| ensures GivesOne(params, t.holes[i].name, values[i]) {
      assert params[i] == Param(t.holes[i].name, values[i]);
    }
    SubstituteRenders(t, values, params);
  }

  lemma {:induction false} ValueInRender(holes: seq<Hole>, values: seq<string>, i: nat)
    requires |values| == |holes| && i < |values| && Avoids(RenderHoles(holes, values), '{')
    ensures Avoids(values[i], '{')
    decreases |holes|
  {
    var u, rest := RenderHoles(holes, values), RenderHoles(holes[1..], values[1..]);
    if i == 0 {
      forall k | 0 <= k < |values[0]| ensures values[0][k] != '{' { assert u[k] == values[0][k]; }
    } else {
      forall k | 0 <= k < |rest| ensures rest[k] != '{' { assert u[|values[0]| + |holes[0].after| + k] == rest[k]; }
      assert values[1..][i - 1] == values[i];
      ValueInRender(holes[1..], values[1..], i - 1);
    }
  }

  /** Substitution, then extraction: values without opening braces that avoid the next literal's first character
      come back exactly, in template order, whatever the order of the parameters. */
  lemma {:induction false} ScanInvertsSubstitute(t: Template, values: seq<string>, params: seq<Param>)
    requires Closed(t) && NamesOk(t) && Separate(t.holes) && |values| == |t.holes|
    requires ParamsOk(params) && Gives(params, t.holes, values) && Recoverable(t.holes, values)
    ensures Scan(Substitute(Text(t), params), Text(t)) == Some(Params(t.holes, values))
  {
    SubstituteRenders(t, values, params);
    ScanInvertsRender(Render(t, values), t, values);
  }

  /** With an opening brace in a value the printer can substitute into it: `{a}{b}` with a = `{b}` and b = `x`
      prints `xx`, not `{b}x`. */
  lemma BraceInValueIsSubstituted()
    ensures var t := Template("", [Hole("a", ""), Hole("b", "")]);
      Closed(t) && NamesOk(t) && DistinctNames(t.holes) && Render(t, ["{b}", "x"]) == "{b}x"
      && Substitute(Text(t), [Param("a", "{b}"), Param("b", "x")]) == "xx"
  {
    var t := Template("", [Hole("a", ""), Hole("b", "")]);
    RenderOne("b", "", "x");
    SubstituteTwice();
    HolesTwo("a", "b");
    assert Text(t) == Pattern("a") + Pattern("b");
    assert t.holes[1..] == [Hole("b", "")] && ["{b}", "x"][1..] == ["x"];
    assert Closed(t) && NamesOk(t) && DistinctNames(t.holes);
    assert Render(t, ["{b}", "x"]) == "" + ("{b}" + ("" + "x")) == "{b}x";
    hide Substitute, HolesText;
  }

  lemma SubstituteTwice()
    ensures Substitute(Pattern("a") + Pattern("b"), [Param("a", "{b}"), Param("b", "x")]) == "xx"
  {
    var params := [Param("a", "{b}"), Param("b", "x")];
    assert params[1..] == [Param("b", "x")] && params[1..][1..] == [];
    assert Substitute("xx", []) == "xx";
    hide Replace, Flatten, Fill;
    FirstReplacement();
    SecondReplacement();
  }

  lemma FirstReplacement()
    ensures Replace(Pattern("a") + Pattern("b"), Pattern("a"), "{b}") == Pattern("b") + Pattern("b")
  {
    hide Replace, Flatten, Fill;
    var ps := [Open("a"), Open("b")];
    FlattenTwo("a", "b");
    ReplaceFills(ps, "a", "{b}");
    assert Fill(ps, "a", "{b}") == [Plain("{b}"), Open("b")];
    FlattenPlainOpen("{b}", "b");
  }

  lemma SecondReplacement()
    ensures Replace(Pattern("b") + Pattern("b"), Pattern("b"), "x") == "xx"
  {
    hide Replace, Flatten, Fill;
    var again := [Open("b"), Open("b")];
    FlattenTwo("b", "b");
    ReplaceFills(again, "b", "x");
    assert Fill(again, "b", "x") == [Plain("x"), Plain("x")];
    FlattenPlainPlain("x", "x");
  }

  lemma FlattenTwo(a: string, b: string)
    ensures Flatten([Open(a), Open(b)]) == Pattern(a) + Pattern(b)
  {
    assert [Open(a), Open(b)][1..] == [Open(b)] && [Open(b)][1..] == [];
    assert Flatten([Open(b)]) == Pattern(b) + "" == Pattern(b);
  }

  lemma FlattenPlainOpen(a: string, b: string)
    ensures Flatten([Plain(a), Open(b)]) == a + Pattern(b)
  {
    assert [Plain(a), Open(b)][1..] == [Open(b)] && [Open(b)][1..] == [];
    assert Flatten([Open(b)]) == Pattern(b) + "" == Pattern(b);
  }

  lemma FlattenPlainPlain(a: string, b: string)
    ensures Flatten([Plain(a), Plain(b)]) == a + b
  {
    assert [Plain(a), Plain(b)][1..] == [Plain(b)] && [Plain(b)][1..] == [];
    assert Flatten([Plain(b)]) == b + "" == b;
  }

  lemma HolesTwo(a: string, b: string)
    ensures HolesText([Hole(a, ""), Hole(b, "")]) == Pattern(a) + Pattern(b)
  {
    var holes := [Hole(a, ""), Hole(b, "")];
    assert holes[1..] == [Hole(b, "")] && holes[1..][1..] == [];
    assert HolesText([Hole(b, "")]) == Pattern(b);
  }
}

module Templates {
  import opened Bits
  import opened Errors
  import opened Strings
  import opened TemplateSpec

  /** The scan with its two cursors. */
  method ExtractParams(uri: string, template: string) returns (r: Option<seq<Param>>)
    ensures r == Scan(uri, template)
  {
    var params: seq<Param> := [];
    var u, k := 0, 0;
    ghost var left, tail := uri, template;
    InFrontOfNothing(Scan(uri, template));
    hide Scan, Until;
    while k < |template|
      invariant 0 <= k <= |template| && 0 <= u <= |uri| && left == uri[u..] && tail == template[k..]
      invariant Scan(uri, template) == After(params, Scan(left, tail))
      decreases |template| - k
    {
      var tc := template[k];
      k := k + 1;
      if tc == '{' {
        var name, k' := TakeUntil(template, k, Some('}'));
        if k' < |template| { k' := k' + 1; }
        var nextLiteral := if k' < |template| then Some(template[k']) else None;
        var value, u' := TakeUntil(uri, u, nextLiteral);
        ScanAtOpen(uri, u, template, k - 1, |name|, |value|);
        AfterRecorded(params, name, value, Scan(uri[u'..], template[k'..]));
        if name != "" { params := params + [Param(name, value)]; }
        k, u := k', u';
        left, tail := uri[u..], template[k..];
      } else {
        ScanAtLiteral(left, tail);
        if u == |uri| || uri[u] != tc { return None; }
        left, tail := left[1..], tail[1..];
        u := u + 1;
      }
    }
    ScanAtEnd(left);
    if u < |uri| { return None; }
    assert params + [] == params;
    return Some(params);
  }

  /** A result continued behind the parameters found so far. */
  function After(params: seq<Param>, r: Option<seq<Param>>): Option<seq<Param>> {
    match r case None => None case Some(ps) => Some(params + ps)
  }

  lemma InFrontOfNothing(r: Option<seq<Param>>)
    ensures After([], r) == r
  {
    match r case None => case Some(ps) => assert [] + ps == ps;
  }

  lemma AfterRecorded(params: seq<Param>, name: string, value: string, r: Option<seq<Param>>)
    ensures After(params, Recorded(name, value, r))
         == After(if name != "" then params + [Param(name, value)] else params, r)
  {
    match r
    case None =>
    case Some(ps) =>
      ConcatAssoc(params, [Param(name, value)], ps);
      assert [] + ps == ps;
  }

  /** One placeholder of the template, by the positions of the two cursors. */
  lemma ScanAtOpen(uri: string, u: nat, template: string, k: nat, n: nat, m: nat)
    requires u <= |uri| && k < |template| && template[k] == '{'
    requires n == Until(template[k + 1..], Some('}'))
    requires var k' := Min(k + 1 + n + 1, |template|); m == Until(uri[u..], First(template[k'..]))
    ensures var k' := Min(k + 1 + n + 1, |template|);
      Scan(uri[u..], template[k..])
      == Recorded(template[k + 1..][..n], uri[u..][..m], Scan(uri[u + m..], template[k'..]))
  {
    var left, tail, k' := uri[u..], template[k..], Min(k + 1 + n + 1, |template|);
    DropTwice(uri, u, m);
    DropTwice(template, k, 1);
    if 1 + n < |tail| { DropTwice(template, k, n + 2); } else { assert template[k'..] == ""; }
    ScanUnfolds(left, tail, n, m, template[k'..]);
  }

  lemma {:induction false} ScanAtLiteral(uri: string, tail: string)
    requires tail != "" && tail[0] != '{'
    ensures Scan(uri, tail) == if uri != "" && uri[0] == tail[0] then Scan(uri[1..], tail[1..]) else None
  {
  }

  lemma {:induction false} ScanAtEnd(uri: string)
    ensures Scan(uri, "") == if uri == "" then Some([]) else None
  {
  }

  lemma DropTwice(s: string, a: nat, b: nat)
    requires a + b <= |s|
    ensures s[a..][b..] == s[a + b..]
  {
  }

  lemma {:induction false} ScanUnfolds(uri: string, tail: string, n: nat, m: nat, rest: string)
    requires tail != "" && tail[0] == '{' && n == Until(tail[1..], Some('}'))
    requires rest == (if 1 + n < |tail| then tail[n + 2..] else "") && m == Until(uri, First(rest))
    ensures Scan(uri, tail) == Recorded(tail[1..][..n], uri[..m], Scan(uri[m..], rest))
  {
  }

  /** The characters from `from` up to `stop`, and the position of `stop`. */
  method TakeUntil(s: string, from: nat, stop: Option<char>) returns (taken: string, next: nat)
    requires from <= |s|
    ensures |taken| == Until(s[from..], stop) && taken == s[from..][..|taken|]
    ensures next == from + |taken|
  {
    taken, next := "", from;
    while next < |s| && Some(s[next]) != stop
      invariant from <= next <= |s| && taken == s[from..next]
      invariant stop.Some? ==> Avoids(taken, stop.value)
    {
      taken := taken + [s[next]];
      next := next + 1;
    }
    assert s[from..][..|taken|] == taken;
    UntilIs(s[from..], |taken|, stop);
  }

  method UriMatchesTemplate(uri: string, template: string) returns (b: bool)
    ensures b == Matches(uri, template)
  {
    var parts := SplitTemplate(template);
    hide Find, Parts;
    var pos, i := 0, 0;
    while i < |parts|
      invariant 0 <= i <= |parts| && 0 <= pos <= |uri|
      invariant MatchParts(uri, parts, i, pos) == MatchParts(uri, parts, 0, 0)
      decreases |parts| - i
    {
      if parts[i] != "" {
        var found := Find(uri[pos..], parts[i]);
        if found.None? { return false; }
        if i == 0 && found.value != 0 { return false; }
        pos := pos + found.value + |parts[i]|;
      }
      i := i + 1;
    }
    return parts[|parts| - 1] != "" ==> pos == |uri|;
  }

  method SplitTemplate(template: string) returns (parts: seq<string>)
    ensures parts == Parts(template)
  {
    parts := [];
    var current := template;
    while true
      invariant parts + Parts(current) == Parts(template)
      decreases |current|
    {
      var start := Until(current, Some('{'));
      if start == |current| { break; }
      var end := Until(current[start..], Some('}'));
      if start + end == |current| {
        parts := parts + [current[..start]];
        assert parts + [current] == Parts(template);
        return parts + [current];
      }
      ConcatAssoc(parts, [current[..start]], Parts(current[start + end + 1..]));
      parts := parts + [current[..start]];
      current := current[start + end + 1..];
    }
    parts := parts + [current];
  }

  method SubstituteParams(template: string, params: seq<Param>) returns (result: string)
    ensures result == Substitute(template, params)
  {
    result := template;
    var i := 0;
    while i < |params|
      invariant 0 <= i <= |params|
      invariant Substitute(result, params[i..]) == Substitute(template, params)
    {
      assert params[i..][1..] == params[i + 1..];
      result := Replace(result, Pattern(params[i].name), params[i].value);
      i := i + 1;
    }
    assert params[i..] == [];
  }
}
