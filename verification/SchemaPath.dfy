/** An MCP schema on its whole way: converted, written, read and converted back (src/cli/convert.rs:126-356). */
module SchemaPath {
  import opened Bits
  import opened Errors
  import opened Schemas
  import opened SchemaCodec
  import opened SchemaConversion
  import Arguments
  import A = ArgumentLaws

  /** What the binary format keeps of a type name. */
  function Normal(t: string): string {
    ToMcpType(FromMcpType(t))
  }

  /** The room that conversion gives a field of type `t`. */
  function Converted(t: ArgType): Field {
    Field("", t, 0, DefaultSize(t), None)
  }

  /** The room is what every value of a fixed-size type needs, no more and no less, and 8 bytes for any other. */
  lemma SizesServe(t: ArgType, v: Arguments.Json, room: nat)
    ensures var f, ample := Converted(t), Converted(t).(size := 8 + room);
      if t in {Null, Bool, I32, I64, F64}
      then A.Passable(ample, v) ==> A.Passable(f, v) && DefaultSize(t) == A.Width(f, v)
      else DefaultSize(t) == 8
  {
  }

  predicate ShortEnough(mcp: McpSchema) {
    |mcp.name| < 256 && |mcp.description| < U16 && forall n :: n in mcp.properties ==> |n| < 256
  }

  predicate McpReadable(utf8: Text -> bool, mcp: McpSchema) {
    utf8(mcp.name) && utf8(mcp.description) && forall n :: n in mcp.properties ==> utf8(n)
  }

  /** The converted schema comes back from its bytes exactly when name, description and property names fit. */
  lemma BytesKeepExactlyShort(hash: Text -> nat, utf8: Text -> bool, mcp: McpSchema, d: DcpSchema)
    requires IsConversion(hash, mcp, Some(d)) && McpReadable(utf8, mcp)
    ensures FromBytes(utf8, ToBytes(d)) == Ok(d) <==> ShortEnough(mcp)
  {
    hide FromBytes, ToBytes;
    var names := ConvertedNames(hash, mcp, d);
    ConvertedIsTyped(hash, mcp, d);
    assert forall i :: 0 <= i < |names| ==> names[i] in Elements(names);
    assert forall n :: n in mcp.properties ==> n in Elements(names);
    assert Readable(utf8, d);
    SurvivesExactlyWhenItFits(utf8, d);
    assert Fits(d) <==> ShortEnough(mcp) by { FitsIsShort(mcp, d, names); }
  }

  lemma FitsIsShort(mcp: McpSchema, d: DcpSchema, names: seq<Text>)
    requires d.name == mcp.name && d.description == mcp.description && |d.fields| == |names| <= MAX_PROPERTIES
    requires Elements(names) == mcp.properties.Keys && forall i :: 0 <= i < |names| ==> d.fields[i].name == names[i]
    ensures Fits(d) <==> ShortEnough(mcp)
  {
    if Fits(d) {
      forall n | n in mcp.properties ensures |n| < 256 {
        assert n in Elements(names);
        var i :| 0 <= i < |names| && names[i] == n;
        assert |d.fields[i].name| < 256;
      }
    }
    if ShortEnough(mcp) {
      forall i | 0 <= i < |d.fields| ensures |d.fields[i].name| < 256 {
        assert names[i] in Elements(names);
      }
    }
  }

  /** The sorted property names, and the fields and mask made of them. */
  lemma ConvertedNames(hash: Text -> nat, mcp: McpSchema, d: DcpSchema) returns (names: seq<Text>)
    requires IsConversion(hash, mcp, Some(d))
    ensures Ascending(names) && Elements(names) == mcp.properties.Keys && |d.fields| == |names| <= MAX_PROPERTIES
    ensures d.name == mcp.name && d.description == mcp.description
    ensures Names(d.fields) == names && d.requiredMask == MaskFor(names, mcp.required, |names|)
    ensures forall i :: 0 <= i < |names| ==> d.fields[i].name == names[i]
    ensures forall i :: 0 <= i < |names| ==>
      names[i] in mcp.properties && d.fields[i].ty == FromMcpType(mcp.properties[names[i]])
  {
    names :| Ascending(names) && Elements(names) == mcp.properties.Keys && Some(d) == ConvertNamed(hash, mcp, names);
    hide FromMcpType;
    assert forall n :: n in names ==> n in Elements(names);
    forall i | 0 <= i < |names|
      ensures d.fields[i].name == names[i] && names[i] in mcp.properties
      ensures d.fields[i].ty == FromMcpType(mcp.properties[names[i]])
    {
      FieldsForAt(names, Kinds(mcp.properties), 0, 0, i);
      assert names[0 + i] == names[i] && names[i] in mcp.properties;
    }
    assert Names(d.fields) == names;
  }

  lemma ConvertedIsTyped(hash: Text -> nat, mcp: McpSchema, d: DcpSchema)
    requires IsConversion(hash, mcp, Some(d))
    ensures Typed(d)
  {
    var names := ConvertedNames(hash, mcp, d);
    ConversionIsCanonical(hash, mcp, d);
    MaskBound(names, mcp.required, |names|);
    PowMonotone(|names|, 64);
    Pow2Of64();
    forall i | 0 <= i < |d.fields| ensures d.fields[i].offset < U16 && d.fields[i].size < U16 {
      OffsetsAreContiguous(hash, d, i);
    }
  }

  lemma Pow2Of64()
    ensures Pow2(64) == U64
  {
    assert Pow2(8) == 256 && Pow2(16) == 256 * Pow2(8) && Pow2(24) == 256 * Pow2(16) && Pow2(32) == 256 * Pow2(24);
    assert Pow2(40) == 256 * Pow2(32) && Pow2(48) == 256 * Pow2(40) && Pow2(56) == 256 * Pow2(48);
  }

  lemma {:induction false} MaskBound(names: seq<Text>, required: seq<Text>, n: nat)
    requires n <= |names|
    ensures MaskFor(names, required, n) < Pow2(n)
    decreases n
  {
    if n > 0 {
      MaskBound(names, required, n - 1);
      assert Pow2(n) == 2 * Pow2(n - 1);
      OrBound(MaskFor(names, required, n - 1), Pow2(n - 1), n);
    }
  }

  lemma {:induction false} OrBound(a: nat, b: nat, k: nat)
    requires a < Pow2(k) && b < Pow2(k)
    ensures Or(a, b) < Pow2(k)
    decreases k
  {
    if k > 0 && a > 0 && b > 0 { OrBound(a / 2, b / 2, k - 1); }
  }

  // ---- what comes back ----

  lemma {:induction false} RequiredAscends(fields: seq<DcpField>, mask: nat)
    requires Ascending(Names(fields))
    ensures Ascending(RequiredOf(fields, mask))
    decreases |fields|
  {
    if fields != [] {
      hide Less, Selects;
      var last := |fields| - 1;
      var front, ns := fields[..last], Names(fields);
      assert forall k :: 0 <= k < last ==> Names(front)[k] == ns[k];
      RequiredAscends(front, mask);
      var before := RequiredOf(front, mask);
      forall i | 0 <= i < |before| ensures Less(before[i], fields[last].name) {
        RequiredMeans(front, mask, before[i]);
        var j :| 0 <= j < last && Selects(front, mask, j, before[i]);
        assert front[j].name == before[i] by { SelectedName(front, mask, j, before[i]); }
        assert Less(ns[j], ns[last]);
      }
    }
  }

  lemma SelectedName(fields: seq<DcpField>, mask: nat, i: nat, n: Text)
    requires i < |fields| && Selects(fields, mask, i, n)
    ensures fields[i].name == n
  {
  }

  /** Types come back normalized, and the required names cut down to declared ones, in ascending order. */
  lemma BackIsNormal(hash: Text -> nat, mcp: McpSchema, d: DcpSchema)
    requires IsConversion(hash, mcp, Some(d))
    ensures var back := ToMcp(d);
      && back.name == mcp.name && back.description == mcp.description
      && back.properties == (map n | n in mcp.properties :: Normal(mcp.properties[n]))
      && Ascending(back.required) && Elements(back.required) == Elements(mcp.required) * mcp.properties.Keys
  {
    var names := ConvertedNames(hash, mcp, d);
    hide FromMcpType, ToMcpType, Ascending, PropertiesOf, RequiredOf, Normal, MaskFor, Names;
    PropertiesBack(mcp, d, names);
    RequiredAscends(d.fields, d.requiredMask);
    RequiredSetBack(mcp, d, names);
  }

  lemma PropertiesBack(mcp: McpSchema, d: DcpSchema, names: seq<Text>)
    requires Ascending(names) && Elements(names) == mcp.properties.Keys && Names(d.fields) == names
    requires forall i :: 0 <= i < |names| ==>
      names[i] in mcp.properties && d.fields[i].ty == FromMcpType(mcp.properties[names[i]])
    ensures PropertiesOf(d.fields) == map n | n in mcp.properties :: Normal(mcp.properties[n])
  {
    hide FromMcpType, ToMcpType, Ascending, PropertiesOf;
    NamesAreKeys(d.fields);
    forall n | n in mcp.properties ensures PropertiesOf(d.fields)[n] == Normal(mcp.properties[n]) {
      assert n in Elements(names);
      var i :| 0 <= i < |names| && names[i] == n;
      PropertyIs(d.fields, i);
    }
  }

  lemma {:induction false} RequiredSetBack(mcp: McpSchema, d: DcpSchema, names: seq<Text>)
    requires Ascending(names) && Elements(names) == mcp.properties.Keys && |d.fields| == |names| <= MAX_PROPERTIES
    requires Names(d.fields) == names && d.requiredMask == MaskFor(names, mcp.required, |names|)
    ensures Elements(RequiredOf(d.fields, d.requiredMask)) == Elements(mcp.required) * mcp.properties.Keys
  {
    hide Ascending, RequiredOf, MaskFor, Names;
    forall n ensures n in RequiredOf(d.fields, d.requiredMask) <==> n in mcp.required && n in mcp.properties {
      RequiredBack(mcp, d, names, n);
    }
  }

  lemma {:induction false} RequiredBack(mcp: McpSchema, d: DcpSchema, names: seq<Text>, n: Text)
    requires Ascending(names) && Elements(names) == mcp.properties.Keys && |d.fields| == |names| <= MAX_PROPERTIES
    requires Names(d.fields) == names && d.requiredMask == MaskFor(names, mcp.required, |names|)
    ensures n in RequiredOf(d.fields, d.requiredMask) <==> n in mcp.required && n in mcp.properties
  {
    hide Less, MaskFor, RequiredOf, Selects;
    assert n in mcp.properties <==> n in Elements(names);
    assert forall i :: 0 <= i < |names| ==> d.fields[i].name == names[i];
    if n in names {
      var i :| 0 <= i < |names| && names[i] == n;
      assert d.fields[i].name == Names(d.fields)[i] == n;
      BackIsBit(d, i);
      MaskBits(names, mcp.required, |names|, i);
    } else {
      RequiredMeans(d.fields, d.requiredMask, n);
      if i :| 0 <= i < |d.fields| && Selects(d.fields, d.requiredMask, i, n) {
        SelectedName(d.fields, d.requiredMask, i, n);
      }
    }
  }

  /** An MCP schema survives the way there and back exactly when every type is one the format knows and the required
      names are declared ones in ascending order. */
  lemma SurvivesExactlyWhenNormal(hash: Text -> nat, mcp: McpSchema, d: DcpSchema)
    requires IsConversion(hash, mcp, Some(d))
    ensures ToMcp(d) == mcp <==>
      && (forall n :: n in mcp.properties ==> Normal(mcp.properties[n]) == mcp.properties[n])
      && Ascending(mcp.required) && Elements(mcp.required) <= mcp.properties.Keys
  {
    hide ToMcp, Less, Normal;
    var back := ToMcp(d);
    BackIsNormal(hash, mcp, d);
    if back == mcp {
      assert back.properties == mcp.properties;
    }
    if (forall n :: n in mcp.properties ==> Normal(mcp.properties[n]) == mcp.properties[n])
      && Ascending(mcp.required) && Elements(mcp.required) <= mcp.properties.Keys
    {
      AscendingIsUnique(back.required, mcp.required);
      assert back.properties == mcp.properties;
    }
  }

  /** The types the format knows are the seven names it writes. */
  lemma NormalTypes(t: string)
    ensures Normal(t) == t <==> t in {"boolean", "integer", "number", "string", "array", "object", "null"}
  {
  }

  /** The whole way: within the lengths of the format, the schema read and converted back is the normalized one. */
  lemma WholeWay(hash: Text -> nat, utf8: Text -> bool, mcp: McpSchema, d: DcpSchema)
    requires IsConversion(hash, mcp, Some(d)) && McpReadable(utf8, mcp) && ShortEnough(mcp)
    ensures var read := FromBytes(utf8, ToBytes(d));
      read.Ok? && (ToMcp(read.value) == mcp <==>
        && (forall n :: n in mcp.properties ==> Normal(mcp.properties[n]) == mcp.properties[n])
        && Ascending(mcp.required) && Elements(mcp.required) <= mcp.properties.Keys)
  {
    hide FromBytes, ToBytes, ToMcp, Less, Normal;
    BytesKeepExactlyShort(hash, utf8, mcp, d);
    SurvivesExactlyWhenNormal(hash, mcp, d);
  }
}
