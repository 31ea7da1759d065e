/** The binary schema format of src/cli/convert.rs and the conversion between MCP and DCP schemas. Names and
    descriptions are byte strings; whether one is valid UTF-8 is decided by a parameter. Field types are those
    of `Schemas`, whose codes the format shares. */
module SchemaCodec {
  import opened Bits
  import opened Errors
  import opened Schemas

  type Text = seq<byte>

  datatype DcpField = DcpField(name: Text, ty: ArgType, offset: nat, size: nat)

  datatype DcpSchema = DcpSchema(name: Text, toolId: nat, description: Text, fields: seq<DcpField>, requiredMask: nat)

  /** The widths the source's integer fields have. */
  predicate Typed(s: DcpSchema) {
    s.toolId < U16 && s.requiredMask < U64
    && forall i :: 0 <= i < |s.fields| ==> s.fields[i].offset < U16 && s.fields[i].size < U16
  }

  /** The lengths the format can express. */
  predicate Fits(s: DcpSchema) {
    |s.name| < 256 && |s.description| < U16 && |s.fields| < 256
    && forall i :: 0 <= i < |s.fields| ==> |s.fields[i].name| < 256
  }

  predicate Readable(utf8: Text -> bool, s: DcpSchema) {
    utf8(s.name) && utf8(s.description) && forall i :: 0 <= i < |s.fields| ==> utf8(s.fields[i].name)
  }

  const HEADER_SIZE := 17

  datatype Header = Header(toolId: nat, nameLen: nat, descLen: nat, fieldCount: nat, requiredMask: nat)

  /** Lengths are cast to the width of their slot. */
  function HeaderBytes(h: Header): (bs: seq<byte>)
    ensures |bs| == HEADER_SIZE
  {
    [0xDC, 0x53, 1] + Le(h.toolId, 2) + [h.nameLen % 256] + Le(h.descLen, 2) + [h.fieldCount % 256]
    + Le(h.requiredMask, 8)
  }

  function HeaderOf(s: DcpSchema): Header {
    Header(s.toolId, |s.name|, |s.description|, |s.fields|, s.requiredMask)
  }

  function FieldBytes(f: DcpField): (bs: seq<byte>)
    ensures |bs| == 6 + |f.name|
  {
    [|f.name| % 256] + f.name + ([Code(f.ty)] + Le(f.offset, 2) + Le(f.size, 2))
  }

  function FieldsBytes(fields: seq<DcpField>): seq<byte> {
    if fields == [] then [] else FieldBytes(fields[0]) + FieldsBytes(fields[1..])
  }

  function BodyBytes(s: DcpSchema): seq<byte> {
    s.name + (s.description + FieldsBytes(s.fields))
  }

  function ToBytes(s: DcpSchema): seq<byte> {
    HeaderBytes(HeaderOf(s)) + BodyBytes(s)
  }

  datatype ParseError = TooShort | BadMagic | BadVersion(v: byte) | BadEncoding | BadType(code: byte)

  function ParseHeader(bs: seq<byte>): Header
    requires |bs| >= HEADER_SIZE
  {
    Header(FromLe(bs[3..5]), bs[5], FromLe(bs[6..8]), bs[8], FromLe(bs[9..17]))
  }

  /** The first `n` bytes as text, and what follows. */
  function ParseText(utf8: Text -> bool, bs: seq<byte>, n: nat): Result<(Text, seq<byte>), ParseError> {
    if n > |bs| then Err(TooShort)
    else if !utf8(bs[..n]) then Err(BadEncoding)
    else Ok((bs[..n], bs[n..]))
  }

  /** The five bytes behind a field's name. */
  function ParseTail(name: Text, bs: seq<byte>): Result<DcpField, ParseError>
    requires |bs| >= 5
  {
    match FromCode(bs[0])
    case None => Err(BadType(bs[0]))
    case Some(t) => Ok(DcpField(name, t, FromLe(bs[1..3]), FromLe(bs[3..5])))
  }

  function ParseField(utf8: Text -> bool, bs: seq<byte>): (r: Result<(DcpField, seq<byte>), ParseError>)
    ensures r.Ok? ==> |r.value.1| < |bs|
  {
    if bs == [] then Err(TooShort)
    else if 1 + bs[0] + 5 > |bs| then Err(TooShort)
    else match ParseText(utf8, bs[1..], bs[0])
      case Err(e) => Err(e)
      case Ok((name, rest)) =>
        match ParseTail(name, rest)
        case Err(e) => Err(e)
        case Ok(f) => Ok((f, rest[5..]))
  }

  function ParseFields(utf8: Text -> bool, bs: seq<byte>, count: nat): Result<(seq<DcpField>, seq<byte>), ParseError>
    decreases count
  {
    if count == 0 then Ok(([], bs))
    else match ParseField(utf8, bs)
      case Err(e) => Err(e)
      case Ok((f, rest)) =>
        match ParseFields(utf8, rest, count - 1)
        case Err(e) => Err(e)
        case Ok((fs, left)) => Ok(([f] + fs, left))
  }

  function FromBytes(utf8: Text -> bool, bs: seq<byte>): Result<DcpSchema, ParseError> {
    if |bs| < HEADER_SIZE then Err(TooShort)
    else if bs[0] != 0xDC || bs[1] != 0x53 then Err(BadMagic)
    else if bs[2] != 1 then Err(BadVersion(bs[2]))
    else
      var h := ParseHeader(bs);
      ParseBody(utf8, h, bs[HEADER_SIZE..])
  }

  function ParseBody(utf8: Text -> bool, h: Header, bs: seq<byte>): Result<DcpSchema, ParseError> {
    match ParseText(utf8, bs, h.nameLen)
    case Err(e) => Err(e)
    case Ok((name, r1)) =>
      match ParseText(utf8, r1, h.descLen)
      case Err(e) => Err(e)
      case Ok((description, r2)) =>
        match ParseFields(utf8, r2, h.fieldCount)
        case Err(e) => Err(e)
        case Ok((fields, _)) => Ok(DcpSchema(name, h.toolId, description, fields, h.requiredMask))
  }

  // ---- refusals ----

  /** What the first bytes decide: too few of them, another magic and another version are refused in this order. */
  lemma HeaderDecides(utf8: Text -> bool, bs: seq<byte>, v: byte)
    ensures var r, h := FromBytes(utf8, bs), HEADER_SIZE;
      && (|bs| < h ==> r == Err(TooShort))
      && (r == Err(BadMagic) <==> |bs| >= h && bs[..2] != [0xDC, 0x53])
      && (r == Err(BadVersion(v)) <==> |bs| >= h && bs[..2] == [0xDC, 0x53] && bs[2] == v != 1)
  {
    if |bs| >= HEADER_SIZE {
      assert bs[..2] == [bs[0], bs[1]];
      BodyErrors(utf8, ParseHeader(bs), bs[HEADER_SIZE..]);
      hide ParseBody, ParseHeader;
    }
  }

  lemma BodyErrors(utf8: Text -> bool, h: Header, bs: seq<byte>)
    ensures var r := ParseBody(utf8, h, bs); r.Err? ==> !r.error.BadMagic? && !r.error.BadVersion?
  {
    if h.nameLen <= |bs| {
      var r1 := bs[h.nameLen..];
      if h.descLen <= |r1| { FieldsErrors(utf8, r1[h.descLen..], h.fieldCount); }
    }
    hide ParseFields;
  }

  lemma {:induction false} FieldsErrors(utf8: Text -> bool, bs: seq<byte>, count: nat)
    ensures var r := ParseFields(utf8, bs, count); r.Err? ==> !r.error.BadMagic? && !r.error.BadVersion?
    decreases count
  {
    if count > 0 {
      var r := ParseField(utf8, bs);
      FieldDecides(utf8, bs);
      hide ParseField;
      if r.Ok? { FieldsErrors(utf8, r.value.1, count - 1); }
    }
  }

  /** What decides about one field: it is `6 + n` bytes long for a name of `n`, its name must be text, and its type code
      one of the nine. */
  lemma FieldDecides(utf8: Text -> bool, bs: seq<byte>)
    ensures bs == [] ==> ParseField(utf8, bs) == Err(TooShort)
    ensures bs != [] ==>
      var r, n: nat := ParseField(utf8, bs), bs[0];
      var whole := |bs| >= 6 + n;
      && (r == Err(TooShort) <==> !whole)
      && (r == Err(BadEncoding) <==> whole && !utf8(bs[1..1 + n]))
      && (whole && utf8(bs[1..1 + n]) ==>
            if bs[1 + n] > 8 then r == Err(BadType(bs[1 + n]))
            else r.Ok? && r.value.0.name == bs[1..1 + n] && Code(r.value.0.ty) == bs[1 + n] && r.value.1 == bs[6 + n..]
                 && r.value.0.offset == FromLe(bs[2 + n..4 + n]) && r.value.0.size == FromLe(bs[4 + n..6 + n]))
  {
    hide FromLe;
    if bs != [] {
      var n: nat := bs[0];
      if |bs| >= 6 + n {
        var rest := bs[1..][n..];
        assert bs[1..][..n] == bs[1..1 + n] && rest == bs[1 + n..];
        assert rest[1..3] == bs[2 + n..4 + n] && rest[3..5] == bs[4 + n..6 + n] && rest[5..] == bs[6 + n..];
      }
    }
  }

  // ---- header ----

  lemma HeaderCuts(h: Header, rest: seq<byte>)
    ensures var bs := HeaderBytes(h) + rest;
      && bs[0] == 0xDC && bs[1] == 0x53 && bs[2] == 1
      && bs[3..5] == Le(h.toolId, 2) && bs[5] == h.nameLen % 256 && bs[6..8] == Le(h.descLen, 2)
      && bs[8] == h.fieldCount % 256 && bs[9..17] == Le(h.requiredMask, 8) && bs[17..] == rest
  {
  }

  lemma HeaderRoundTrip(h: Header, rest: seq<byte>)
    requires h.toolId < U16 && h.nameLen < 256 && h.descLen < U16 && h.fieldCount < 256 && h.requiredMask < U64
    ensures ParseHeader(HeaderBytes(h) + rest) == h
  {
    HeaderCuts(h, rest);
    Pow256Values();
    LeRoundTrip(h.toolId, 2);
    LeRoundTrip(h.descLen, 2);
    LeRoundTrip(h.requiredMask, 8);
  }

  lemma HeaderIsPrefix(bs: seq<byte>)
    requires |bs| >= HEADER_SIZE && bs[0] == 0xDC && bs[1] == 0x53 && bs[2] == 1
    ensures var h := ParseHeader(bs);
      && HeaderBytes(h) == bs[..HEADER_SIZE]
      && h.toolId < U16 && h.nameLen < 256 && h.descLen < U16 && h.fieldCount < 256 && h.requiredMask < U64
  {
    Pow256Values();
    LeOfFromLe(bs[3..5]);
    LeOfFromLe(bs[6..8]);
    LeOfFromLe(bs[9..17]);
  }

  // ---- fields ----

  lemma TextRoundTrip(utf8: Text -> bool, t: Text, rest: seq<byte>)
    requires utf8(t)
    ensures ParseText(utf8, t + rest, |t|) == Ok((t, rest))
  {
    Splits(t, rest);
  }

  lemma TextIsPrefix(utf8: Text -> bool, bs: seq<byte>, n: nat)
    requires ParseText(utf8, bs, n).Ok?
    ensures var (t, rest) := ParseText(utf8, bs, n).value; bs == t + rest && |t| == n && utf8(t)
  {
  }

  lemma TailRoundTrip(f: DcpField, rest: seq<byte>)
    requires f.offset < U16 && f.size < U16
    ensures var bs := [Code(f.ty)] + Le(f.offset, 2) + Le(f.size, 2) + rest;
      ParseTail(f.name, bs) == Ok(f) && bs[5..] == rest
  {
    Pow256Values();
    LeRoundTrip(f.offset, 2);
    LeRoundTrip(f.size, 2);
    var bs := [Code(f.ty)] + Le(f.offset, 2) + Le(f.size, 2) + rest;
    assert bs[1..3] == Le(f.offset, 2) && bs[3..5] == Le(f.size, 2);
  }

  predicate Encodable(utf8: Text -> bool, f: DcpField) {
    |f.name| < 256 && f.offset < U16 && f.size < U16 && utf8(f.name)
  }

  lemma FieldRoundTrip(utf8: Text -> bool, f: DcpField, rest: seq<byte>)
    requires Encodable(utf8, f)
    ensures ParseField(utf8, FieldBytes(f) + rest) == Ok((f, rest))
  {
    hide ParseTail, ParseText, Le;
    var tail := [Code(f.ty)] + Le(f.offset, 2) + Le(f.size, 2);
    TextRoundTrip(utf8, f.name, tail + rest);
    TailRoundTrip(f, rest);
    NamedField(|f.name|, f.name, tail, rest);
  }

  lemma NamedField(n: byte, name: Text, tail: seq<byte>, rest: seq<byte>)
    requires |name| == n
    ensures var bs := [n] + name + tail + rest;
      bs[0] == n && |bs| == 1 + n + |tail| + |rest| && bs[1..] == name + (tail + rest)
  {
  }

  lemma {:induction false} FieldsRoundTrip(utf8: Text -> bool, fields: seq<DcpField>, rest: seq<byte>)
    requires forall i :: 0 <= i < |fields| ==> Encodable(utf8, fields[i])
    ensures ParseFields(utf8, FieldsBytes(fields) + rest, |fields|) == Ok((fields, rest))
    decreases |fields|
  {
    hide FieldBytes, ParseField, Encodable;
    if fields == [] {
      assert [] + rest == rest;
    } else {
      hide ParseFields;
      FieldsRoundTrip(utf8, fields[1..], rest);
      FieldInFront(utf8, fields[0], fields[1..], FieldsBytes(fields[1..]), rest);
      assert [fields[0]] + fields[1..] == fields;
    }
  }

  lemma {:induction false} FieldInFront(utf8: Text -> bool, f: DcpField, fs: seq<DcpField>, tail: seq<byte>,
                                        rest: seq<byte>)
    requires Encodable(utf8, f) && ParseFields(utf8, tail + rest, |fs|) == Ok((fs, rest))
    ensures ParseFields(utf8, (FieldBytes(f) + tail) + rest, |fs| + 1) == Ok(([f] + fs, rest))
  {
    hide FieldBytes, ParseField, ParseFields;
    var bs := FieldBytes(f) + (tail + rest);
    ConcatAssoc(FieldBytes(f), tail, rest);
    FieldRoundTrip(utf8, f, tail + rest);
    FieldsStep(utf8, bs, |fs| + 1, f, tail + rest);
  }

  lemma FieldsStep(utf8: Text -> bool, bs: seq<byte>, count: nat, f: DcpField, rest: seq<byte>)
    requires count > 0 && ParseField(utf8, bs) == Ok((f, rest))
    ensures ParseFields(utf8, bs, count) == FieldsAfter([f], ParseFields(utf8, rest, count - 1))
  {
  }

  lemma FieldIsPrefix(utf8: Text -> bool, bs: seq<byte>)
    requires ParseField(utf8, bs).Ok?
    ensures var (f, rest) := ParseField(utf8, bs).value;
      && bs == FieldBytes(f) + rest && Encodable(utf8, f)
  {
    ParsedField(utf8, bs);
    hide ParseField, ParseTail, Le, Code, FromCode;
    var (f, rest) := ParseField(utf8, bs).value;
    var n := bs[0];
    TailIsPrefix(bs[1..][..n], bs[1..][n..]);
    FieldCut(bs, n, [Code(f.ty)] + Le(f.offset, 2) + Le(f.size, 2), rest);
  }

  /** The cuts a successful parse of a field makes. */
  lemma ParsedField(utf8: Text -> bool, bs: seq<byte>)
    requires ParseField(utf8, bs).Ok?
    ensures |bs| > 0 && 1 + bs[0] + 5 <= |bs|
    ensures var (f, rest) := ParseField(utf8, bs).value; var name, tail := bs[1..][..bs[0]], bs[1..][bs[0]..];
      utf8(name) && ParseTail(name, tail) == Ok(f) && rest == tail[5..]
  {
    hide ParseTail;
  }

  lemma TailIsPrefix(name: Text, bs: seq<byte>)
    requires |bs| >= 5 && ParseTail(name, bs).Ok?
    ensures var f := ParseTail(name, bs).value;
      && f.name == name && f.offset < U16 && f.size < U16
      && bs == [Code(f.ty)] + Le(f.offset, 2) + Le(f.size, 2) + bs[5..]
  {
    Pow256Values();
    LeOfFromLe(bs[1..3]);
    LeOfFromLe(bs[3..5]);
    hide Le, FromLe;
    assert Code(ParseTail(name, bs).value.ty) == bs[0];
    assert bs == [bs[0]] + bs[1..3] + bs[3..5] + bs[5..];
  }

  lemma FieldCut(bs: seq<byte>, n: byte, tail: seq<byte>, rest: seq<byte>)
    requires |bs| > n && bs[0] == n && bs[1..][n..] == tail + rest
    ensures bs == ([n] + bs[1..][..n] + tail) + rest
  {
    assert bs == [bs[0]] + (bs[1..][..n] + bs[1..][n..]);
  }

  lemma {:induction false} FieldsArePrefix(utf8: Text -> bool, bs: seq<byte>, count: nat)
    requires ParseFields(utf8, bs, count).Ok?
    ensures var (fields, rest) := ParseFields(utf8, bs, count).value;
      && |fields| == count && bs == FieldsBytes(fields) + rest
      && forall i :: 0 <= i < |fields| ==> Encodable(utf8, fields[i])
    decreases count
  {
    hide FieldBytes, ParseField, Encodable;
    if count > 0 {
      FieldIsPrefix(utf8, bs);
      var (f, rest) := ParseField(utf8, bs).value;
      FieldsArePrefix(utf8, rest, count - 1);
      var (fs, left) := ParseFields(utf8, rest, count - 1).value;
      assert ([f] + fs)[1..] == fs;
      ConcatAssoc(FieldBytes(f), FieldsBytes(fs), left);
    } else {
      assert [] + bs == bs;
    }
  }

  // ---- the format ----

  /** Printing and parsing: a schema whose lengths fit comes back, whatever follows it. */
  lemma SchemaRoundTrip(utf8: Text -> bool, s: DcpSchema, rest: seq<byte>)
    requires Typed(s) && Fits(s) && Readable(utf8, s)
    ensures FromBytes(utf8, ToBytes(s) + rest) == Ok(s)
  {
    var fields, tail := FieldsBytes(s.fields), FieldsBytes(s.fields) + rest;
    var body := s.name + (s.description + tail);
    ConcatAssoc(s.description, fields, rest);
    ConcatAssoc(s.name, s.description + fields, rest);
    ConcatAssoc(HeaderBytes(HeaderOf(s)), s.name + (s.description + fields), rest);
    HeaderCuts(HeaderOf(s), body);
    HeaderRoundTrip(HeaderOf(s), body);
    TextRoundTrip(utf8, s.name, s.description + tail);
    TextRoundTrip(utf8, s.description, tail);
    FieldsRoundTrip(utf8, s.fields, rest);
  }

  /** Parsing and printing: what was parsed prints as a prefix of the input, and always fits the format. */
  lemma ParsedIsPrefix(utf8: Text -> bool, bs: seq<byte>)
    requires FromBytes(utf8, bs).Ok?
    ensures var s := FromBytes(utf8, bs).value;
      ToBytes(s) <= bs && Typed(s) && Fits(s) && Readable(utf8, s)
  {
    var h := ParseHeader(bs);
    HeaderIsPrefix(bs);
    BodyIsPrefix(utf8, h, bs[HEADER_SIZE..]);
    PrefixBehindHeader(bs, HEADER_SIZE, BodyBytes(FromBytes(utf8, bs).value));
  }

  lemma PrefixBehindHeader(bs: seq<byte>, n: nat, body: seq<byte>)
    requires n <= |bs| && body <= bs[n..]
    ensures bs[..n] + body <= bs
  {
    assert bs == bs[..n] + bs[n..];
  }

  lemma BodyIsPrefix(utf8: Text -> bool, h: Header, bs: seq<byte>)
    requires ParseBody(utf8, h, bs).Ok?
    ensures var s := ParseBody(utf8, h, bs).value;
      && HeaderOf(s) == h && BodyBytes(s) <= bs && Readable(utf8, s)
      && forall i :: 0 <= i < |s.fields| ==> Encodable(utf8, s.fields[i])
  {
    var (name, r1) := ParseText(utf8, bs, h.nameLen).value;
    TextIsPrefix(utf8, bs, h.nameLen);
    TextIsPrefix(utf8, r1, h.descLen);
    var (description, r2) := ParseText(utf8, r1, h.descLen).value;
    FieldsArePrefix(utf8, r2, h.fieldCount);
    var (fields, rest) := ParseFields(utf8, r2, h.fieldCount).value;
    PrefixOfParts(bs, name, r1, description, r2, FieldsBytes(fields), rest);
  }

  lemma PrefixOfParts(bs: seq<byte>, name: Text, r1: seq<byte>, desc: Text, r2: seq<byte>, fields: seq<byte>,
                      rest: seq<byte>)
    requires bs == name + r1 && r1 == desc + r2 && r2 == fields + rest
    ensures name + (desc + fields) <= bs
  {
    ConcatAssoc(desc, fields, rest);
    ConcatAssoc(name, desc + fields, rest);
  }

  /** A schema survives the format exactly when its lengths fit their slots. */
  lemma SurvivesExactlyWhenItFits(utf8: Text -> bool, s: DcpSchema)
    requires Typed(s) && Readable(utf8, s)
    ensures FromBytes(utf8, ToBytes(s)) == Ok(s) <==> Fits(s)
  {
    if Fits(s) {
      SchemaRoundTrip(utf8, s, []);
      assert ToBytes(s) + [] == ToBytes(s);
    }
    if FromBytes(utf8, ToBytes(s)) == Ok(s) { ParsedIsPrefix(utf8, ToBytes(s)); }
  }

  // ---- in place ----

  method ToBytesLoop(s: DcpSchema) returns (bytes: seq<byte>)
    requires Typed(s)
    ensures bytes == ToBytes(s)
  {
    bytes := HeaderBytes(HeaderOf(s));
    bytes := bytes + s.name;
    bytes := bytes + s.description;
    ghost var start := bytes;
    ConcatAssoc(HeaderBytes(HeaderOf(s)) + s.name, s.description, FieldsBytes(s.fields));
    ConcatAssoc(HeaderBytes(HeaderOf(s)), s.name, s.description + FieldsBytes(s.fields));
    for i := 0 to |s.fields|
      invariant bytes + FieldsBytes(s.fields[i..]) == ToBytes(s)
    {
      var f := s.fields[i];
      ConcatAssoc(bytes, FieldBytes(f), FieldsBytes(s.fields[i + 1..]));
      assert s.fields[i..][1..] == s.fields[i + 1..];
      bytes := bytes + FieldBytes(f);
    }
    assert s.fields[|s.fields|..] == [];
  }

  /** Reads with one moving offset. */
  method FromBytesLoop(utf8: Text -> bool, bytes: seq<byte>) returns (r: Result<DcpSchema, ParseError>)
    ensures r == FromBytes(utf8, bytes)
  {
    if |bytes| < HEADER_SIZE { return Err(TooShort); }
    if bytes[0] != 0xDC || bytes[1] != 0x53 { return Err(BadMagic); }
    if bytes[2] != 1 { return Err(BadVersion(bytes[2])); }
    var h := ParseHeader(bytes);
    var offset := HEADER_SIZE;
    ghost var r0 := bytes[HEADER_SIZE..];
    if offset + h.nameLen > |bytes| { return Err(TooShort); }
    var name := bytes[offset..offset + h.nameLen];
    assert name == r0[..h.nameLen];
    if !utf8(name) { return Err(BadEncoding); }
    offset := offset + h.nameLen;
    ghost var r1 := bytes[offset..];
    assert r1 == r0[h.nameLen..];
    if offset + h.descLen > |bytes| { return Err(TooShort); }
    var description := bytes[offset..offset + h.descLen];
    assert description == r1[..h.descLen];
    if !utf8(description) { return Err(BadEncoding); }
    offset := offset + h.descLen;
    assert bytes[offset..] == r1[h.descLen..];
    var fields := ReadFields(utf8, bytes, offset, h.fieldCount);
    if fields.Err? { return Err(fields.error); }
    return Ok(DcpSchema(name, h.toolId, description, fields.value, h.requiredMask));
  }

  method ReadFields(utf8: Text -> bool, bytes: seq<byte>, start: nat, count: nat)
    returns (r: Result<seq<DcpField>, ParseError>)
    requires start <= |bytes|
    ensures match ParseFields(utf8, bytes[start..], count)
      case Ok((fields, _)) => r == Ok(fields)
      case Err(e) => r == Err(e)
  {
    hide ParseField, FieldsAfter;
    var offset, fields: seq<DcpField> := start, [];
    ghost var whole, left := ParseFields(utf8, bytes[start..], count), bytes[start..];
    FieldsInFrontOfNothing(whole);
    for k := 0 to count
      invariant start <= offset <= |bytes| && left == bytes[offset..]
      invariant whole == FieldsAfter(fields, ParseFields(utf8, left, count - k))
    {
      var one := ReadField(utf8, bytes, offset);
      if one.Err? {
        BadField(utf8, fields, left, count - k, one.error);
        return Err(one.error);
      }
      var (field, next) := one.value;
      OneMoreField(utf8, fields, left, count - k, field, bytes[next..]);
      fields, offset := fields + [field], next;
      left := bytes[offset..];
    }
    NoMoreFields(utf8, fields, left);
    return Ok(fields);
  }

  lemma OneMoreField(utf8: Text -> bool, fields: seq<DcpField>, bs: seq<byte>, count: nat, f: DcpField, rest: seq<byte>)
    requires count > 0 && ParseField(utf8, bs) == Ok((f, rest))
    ensures FieldsAfter(fields, ParseFields(utf8, bs, count))
         == FieldsAfter(fields + [f], ParseFields(utf8, rest, count - 1))
  {
    hide ParseField, ParseFields, FieldsAfter;
    FieldsStep(utf8, bs, count, f, rest);
    FieldsAfterOne(fields, f, ParseFields(utf8, rest, count - 1));
  }

  lemma {:induction false} BadField(utf8: Text -> bool, fields: seq<DcpField>, bs: seq<byte>, count: nat, e: ParseError)
    requires count > 0 && ParseField(utf8, bs) == Err(e)
    ensures FieldsAfter(fields, ParseFields(utf8, bs, count)) == Err(e)
  {
    hide ParseField;
  }

  lemma {:induction false} NoMoreFields(utf8: Text -> bool, fields: seq<DcpField>, bs: seq<byte>)
    ensures FieldsAfter(fields, ParseFields(utf8, bs, 0)) == Ok((fields, bs))
  {
    assert fields + [] == fields;
  }

  /** One field at `offset`, and the offset behind it. */
  method ReadField(utf8: Text -> bool, bytes: seq<byte>, offset: nat) returns (r: Result<(DcpField, nat), ParseError>)
    requires offset <= |bytes|
    ensures match ParseField(utf8, bytes[offset..])
      case Ok((field, rest)) => r.Ok? && r.value.0 == field && r.value.1 <= |bytes| && bytes[r.value.1..] == rest
      case Err(e) => r == Err(e)
  {
    if offset >= |bytes| { return Err(TooShort); }
    var nameLen := bytes[offset];
    if offset + 1 + nameLen + 5 > |bytes| { return Err(TooShort); }
    ghost var left := bytes[offset..];
    var name := bytes[offset + 1..offset + 1 + nameLen];
    assert left[1..][..nameLen] == name;
    if !utf8(name) { return Err(BadEncoding); }
    var at := offset + 1 + nameLen;
    var tail := bytes[at..];
    assert left[1..][nameLen..] == tail;
    var field := ParseTail(name, tail);
    if field.Err? { return Err(field.error); }
    assert bytes[at + 5..] == tail[5..];
    return Ok((field.value, at + 5));
  }

  function FieldsAfter(fields: seq<DcpField>, r: Result<(seq<DcpField>, seq<byte>), ParseError>)
    : Result<(seq<DcpField>, seq<byte>), ParseError>
  {
    match r case Err(e) => Err(e) case Ok((fs, rest)) => Ok((fields + fs, rest))
  }

  lemma FieldsInFrontOfNothing(r: Result<(seq<DcpField>, seq<byte>), ParseError>)
    ensures FieldsAfter([], r) == r
  {
    if r.Ok? { assert [] + r.value.0 == r.value.0; }
  }

  lemma FieldsAfterOne(fields: seq<DcpField>, f: DcpField, r: Result<(seq<DcpField>, seq<byte>), ParseError>)
    ensures FieldsAfter(fields, FieldsAfter([f], r)) == FieldsAfter(fields + [f], r)
  {
    if r.Ok? { ConcatAssoc(fields, [f], r.value.0); }
  }
}

module SchemaConversion {
  import opened Bits
  import opened Errors
  import opened Schemas
  import opened SchemaCodec

  /** A property keeps only its type name; descriptions, enumerations and defaults do not reach the binary schema. */
  datatype McpSchema = McpSchema(name: Text, description: Text, properties: map<Text, string>, required: seq<Text>)

  const MAX_PROPERTIES := 64

  function DefaultSize(t: ArgType): (n: nat)
    ensures n <= 8
  {
    match t
    case Null => 0
    case Bool => 1
    case I32 => 4
    case _ => 8
  }

  function FromMcpType(t: string): ArgType {
    if t == "boolean" then Bool
    else if t == "integer" then I64
    else if t == "number" then F64
    else if t == "string" then String
    else if t == "array" then Array
    else if t == "object" then Object
    else if t == "null" then Null
    else String
  }

  function ToMcpType(t: ArgType): string {
    match t
    case Null => "null"
    case Bool => "boolean"
    case I32 => "integer"
    case I64 => "integer"
    case F64 => "number"
    case String => "string"
    case Bytes => "string"
    case Array => "array"
    case Object => "object"
  }

  /** There and back a known type stays itself and an unknown one becomes a string; the other way a 32-bit integer
      becomes a 64-bit one and bytes become a string. */
  lemma TypesThereAndBack(t: string, a: ArgType)
    ensures ToMcpType(FromMcpType(t)) ==
      if t in ["boolean", "integer", "number", "string", "array", "object", "null"] then t else "string"
    ensures FromMcpType(ToMcpType(a)) == if a == I32 then I64 else if a == Bytes then String else a
  {
  }

  // ---- sorted names ----

  /** Byte-wise lexicographic order. */
  predicate Less(a: Text, b: Text)
    decreases |a|
  {
    b != [] && (a == [] || a[0] < b[0] || (a[0] == b[0] && Less(a[1..], b[1..])))
  }

  lemma {:induction false} LessIsStrictOrder(a: Text, b: Text, c: Text)
    ensures !Less(a, a)
    ensures a != b ==> Less(a, b) || Less(b, a)
    ensures Less(a, b) && Less(b, c) ==> Less(a, c)
    decreases |a|
  {
    if a != [] && b != [] && c != [] {
      LessIsStrictOrder(a[1..], b[1..], c[1..]);
      assert a == [a[0]] + a[1..] && b == [b[0]] + b[1..];
    } else if a != [] && b != [] {
      LessIsStrictOrder(a[1..], b[1..], []);
      assert a == [a[0]] + a[1..] && b == [b[0]] + b[1..];
    } else if a != [] {
      LessIsStrictOrder(a[1..], [], []);
    }
  }

  predicate Ascending(names: seq<Text>) {
    forall i, j :: 0 <= i < j < |names| ==> Less(names[i], names[j])
  }

  function Elements(names: seq<Text>): set<Text> {
    set n | n in names
  }

  /** A set has only one ascending listing. */
  lemma {:induction false} AscendingIsUnique(a: seq<Text>, b: seq<Text>)
    requires Ascending(a) && Ascending(b) && Elements(a) == Elements(b)
    ensures a == b
    decreases |a|
  {
    if a == [] {
      assert forall k :: 0 <= k < |b| ==> b[k] in Elements(b);
    } else {
      assert a[0] in Elements(a) && a[0] in b;
      assert b != [] && b[0] in Elements(b) && b[0] in a;
      HeadIsLeast(a, b[0]);
      HeadIsLeast(b, a[0]);
      LessIsStrictOrder(a[0], b[0], a[0]);
      assert a[0] == b[0];
      TailElements(a);
      TailElements(b);
      AscendingIsUnique(a[1..], b[1..]);
      assert a == [a[0]] + a[1..] && b == [b[0]] + b[1..];
    }
  }

  lemma {:induction false} HeadIsLeast(names: seq<Text>, n: Text)
    requires Ascending(names) && n in names
    ensures n == names[0] || Less(names[0], n)
  {
  }

  lemma TailElements(names: seq<Text>)
    requires names != [] && Ascending(names)
    ensures Elements(names[1..]) == Elements(names) - {names[0]} && Ascending(names[1..])
  {
    LessIsStrictOrder(names[0], names[0], names[0]);
    forall n ensures n in names[1..] <==> n in names && n != names[0] {
      if n in names && n != names[0] {
        var i :| 0 <= i < |names| && names[i] == n;
        assert names[1..][i - 1] == n;
      }
      if n in names[1..] {
        var i :| 0 <= i < |names| - 1 && names[1..][i] == n;
        assert names[i + 1] == n && Less(names[0], names[i + 1]);
      }
    }
  }

  /** Insertion sort of the property names. */
  method SortNames(keys: set<Text>) returns (names: seq<Text>)
    ensures Ascending(names) && Elements(names) == keys
  {
    names := [];
    var todo := keys;
    while todo != {}
      invariant todo <= keys && Ascending(names) && Elements(names) == keys - todo
      decreases |todo|
    {
      var n :| n in todo;
      names := InsertName(names, n);
      todo := todo - {n};
    }
  }

  method InsertName(names: seq<Text>, n: Text) returns (r: seq<Text>)
    requires Ascending(names) && n !in names
    ensures Ascending(r) && Elements(r) == Elements(names) + {n}
  {
    var i := 0;
    while i < |names| && Less(names[i], n)
      invariant 0 <= i <= |names| && forall k :: 0 <= k < i ==> Less(names[k], n)
    {
      i := i + 1;
    }
    forall k | i <= k < |names| ensures Less(n, names[k]) {
      LessIsStrictOrder(n, names[i], names[k]);
    }
    r := names[..i] + [n] + names[i..];
    hide Less;
    forall x ensures x in r <==> x in names || x == n {
      assert names == names[..i] + names[i..];
    }
  }

  // ---- MCP to DCP ----

  function Kinds(properties: map<Text, string>): (kinds: map<Text, ArgType>)
    ensures kinds.Keys == properties.Keys
  {
    map n | n in properties :: FromMcpType(properties[n])
  }

  /** The fields for the names from index `i` on, packed from `offset`. */
  function FieldsFor(names: seq<Text>, kinds: map<Text, ArgType>, i: nat, offset: nat): (fs: seq<DcpField>)
    requires i <= |names| && forall n :: n in names ==> n in kinds
    ensures |fs| == |names| - i
    decreases |names| - i
  {
    if i == |names| then []
    else
      var t := kinds[names[i]];
      [DcpField(names[i], t, offset, DefaultSize(t))] + FieldsFor(names, kinds, i + 1, offset + DefaultSize(t))
  }

  /** The required bits of the first `n` names. */
  function MaskFor(names: seq<Text>, required: seq<Text>, n: nat): nat
    requires n <= |names|
  {
    if n == 0 then 0
    else if names[n - 1] in required then Or(MaskFor(names, required, n - 1), Pow2(n - 1))
    else MaskFor(names, required, n - 1)
  }

  ghost predicate IsConversion(hash: Text -> nat, mcp: McpSchema, r: Option<DcpSchema>) {
    exists names :: Ascending(names) && Elements(names) == mcp.properties.Keys && r == ConvertNamed(hash, mcp, names)
  }

  function ConvertNamed(hash: Text -> nat, mcp: McpSchema, names: seq<Text>): Option<DcpSchema>
    requires Elements(names) == mcp.properties.Keys
  {
    assert forall n :: n in names ==> n in Elements(names);
    if |names| > MAX_PROPERTIES then None
    else Some(DcpSchema(mcp.name, hash(mcp.name) % 0x1_0000, mcp.description,
                        FieldsFor(names, Kinds(mcp.properties), 0, 0), MaskFor(names, mcp.required, |names|)))
  }

  /** `None` stands for the refusal of more than 64 properties. */
  method ConvertMcpToDcp(hash: Text -> nat, mcp: McpSchema) returns (r: Option<DcpSchema>)
    ensures IsConversion(hash, mcp, r)
  {
    var toolId := hash(mcp.name) % 0x1_0000;
    var names := SortNames(mcp.properties.Keys);
    assert forall n :: n in names ==> n in Elements(names);
    var packed := PackFields(mcp, names);
    if packed.None? {
      assert ConvertNamed(hash, mcp, names) == None;
      return None;
    }
    r := Some(DcpSchema(mcp.name, toolId, mcp.description, packed.value.0, packed.value.1));
    assert r == ConvertNamed(hash, mcp, names);
  }

  /** The fields one behind the other, and the required bits. */
  method PackFields(mcp: McpSchema, names: seq<Text>) returns (r: Option<(seq<DcpField>, nat)>)
    requires forall n :: n in names ==> n in mcp.properties
    ensures r == if |names| > MAX_PROPERTIES then None
                 else Some((FieldsFor(names, Kinds(mcp.properties), 0, 0), MaskFor(names, mcp.required, |names|)))
  {
    hide FromMcpType, Or, Pow2, FieldsFor, MaskFor;
    var fields: seq<DcpField>, offset: nat, mask: nat := [], 0, 0;
    ghost var kinds := Kinds(mcp.properties);
    NoMask(names, mcp.required);
    assert [] + FieldsFor(names, kinds, 0, 0) == FieldsFor(names, kinds, 0, 0);
    for idx := 0 to |names|
      invariant idx <= MAX_PROPERTIES
      invariant fields + FieldsFor(names, kinds, idx, offset) == FieldsFor(names, kinds, 0, 0)
      invariant mask == MaskFor(names, mcp.required, idx)
      invariant offset <= 8 * idx
    {
      if idx >= MAX_PROPERTIES { return None; }
      var t := FromMcpType(mcp.properties[names[idx]]);
      var f := DcpField(names[idx], t, offset, DefaultSize(t));
      assert t == kinds[names[idx]];
      FieldsForStep(names, kinds, idx, offset);
      MaskForStep(names, mcp.required, idx);
      ConcatAssoc(fields, [f], FieldsFor(names, kinds, idx + 1, offset + DefaultSize(t)));
      fields := fields + [f];
      if names[idx] in mcp.required { mask := Or(mask, Pow2(idx)); }
      offset := offset + DefaultSize(t);
    }
    assert FieldsFor(names, kinds, |names|, offset) == [] && fields + [] == fields;
    return Some((fields, mask));
  }

  lemma FieldsForStep(names: seq<Text>, kinds: map<Text, ArgType>, i: nat, offset: nat)
    requires i < |names| && forall n :: n in names ==> n in kinds
    ensures var t := kinds[names[i]];
      FieldsFor(names, kinds, i, offset)
      == [DcpField(names[i], t, offset, DefaultSize(t))] + FieldsFor(names, kinds, i + 1, offset + DefaultSize(t))
  {
  }

  lemma MaskForStep(names: seq<Text>, required: seq<Text>, i: nat)
    requires i < |names|
    ensures MaskFor(names, required, i + 1)
         == if names[i] in required then Or(MaskFor(names, required, i), Pow2(i)) else MaskFor(names, required, i)
  {
  }

  lemma {:induction false} NoMask(names: seq<Text>, required: seq<Text>)
    ensures MaskFor(names, required, 0) == 0
  {
  }

  // ---- DCP to MCP ----

  function PropertiesOf(fields: seq<DcpField>): (m: map<Text, string>)
    ensures forall n :: n in m <==> exists i :: 0 <= i < |fields| && fields[i].name == n
  {
    if fields == [] then map[]
    else PropertiesOf(fields[..|fields| - 1])[fields[|fields| - 1].name := ToMcpType(fields[|fields| - 1].ty)]
  }

  /** Field `i` is called `n` and its bit is set. The shift of a u64 wraps at 64. */
  predicate Selects(fields: seq<DcpField>, mask: nat, i: nat, n: Text)
    requires i < |fields|
  {
    fields[i].name == n && And(mask, Pow2(i % 64)) != 0
  }

  /** The names of the fields whose bit is set, in order. */
  function RequiredOf(fields: seq<DcpField>, mask: nat): seq<Text> {
    if fields == [] then []
    else
      var last := |fields| - 1;
      RequiredOf(fields[..last], mask)
      + if Selects(fields, mask, last, fields[last].name) then [fields[last].name] else []
  }

  lemma {:induction false} RequiredMeans(fields: seq<DcpField>, mask: nat, n: Text)
    ensures n in RequiredOf(fields, mask) <==> exists i :: 0 <= i < |fields| && Selects(fields, mask, i, n)
    decreases |fields|
  {
    if fields != [] {
      var last := |fields| - 1;
      var front := fields[..last];
      RequiredMeans(front, mask, n);
      forall i | 0 <= i < last ensures Selects(front, mask, i, n) == Selects(fields, mask, i, n) {
      }
      if i :| 0 <= i < |fields| && Selects(fields, mask, i, n) {
        assert i < last ==> Selects(front, mask, i, n);
      }
    }
  }

  function ToMcp(d: DcpSchema): McpSchema {
    McpSchema(d.name, d.description, PropertiesOf(d.fields), RequiredOf(d.fields, d.requiredMask))
  }

  method ConvertDcpToMcp(d: DcpSchema) returns (m: McpSchema)
    ensures m == ToMcp(d)
  {
    var properties: map<Text, string>, required: seq<Text> := map[], [];
    assert d.fields[..0] == [];
    hide ToMcpType, And;
    for i := 0 to |d.fields|
      invariant properties == PropertiesOf(d.fields[..i]) && required == RequiredOf(d.fields[..i], d.requiredMask)
    {
      NextField(d.fields, d.requiredMask, i);
      properties := properties[d.fields[i].name := ToMcpType(d.fields[i].ty)];
      if And(d.requiredMask, Pow2(i % 64)) != 0 { required := required + [d.fields[i].name]; }
    }
    assert d.fields[..|d.fields|] == d.fields;
    return McpSchema(d.name, d.description, properties, required);
  }

  /** What one more field adds. */
  lemma {:induction false} NextField(fields: seq<DcpField>, mask: nat, i: nat)
    requires i < |fields|
    ensures PropertiesOf(fields[..i + 1]) == PropertiesOf(fields[..i])[fields[i].name := ToMcpType(fields[i].ty)]
    ensures RequiredOf(fields[..i + 1], mask)
         == RequiredOf(fields[..i], mask) + if And(mask, Pow2(i % 64)) != 0 then [fields[i].name] else []
  {
    hide ToMcpType, And;
    assert fields[..i + 1][..i] == fields[..i];
  }

  // ---- what conversion produces, and when it is undone ----

  /** Names ascending, at most 64 fields, types MCP can name, default sizes packed from zero, bits for declared
      fields only, and the identifier derived from the name. */
  ghost predicate Canonical(hash: Text -> nat, d: DcpSchema) {
    && |d.fields| <= MAX_PROPERTIES && d.toolId == hash(d.name) % 0x1_0000
    && Ascending(Names(d.fields))
    && (forall i :: 0 <= i < |d.fields| ==> Placed(d.fields, i))
    && forall b: nat :: Bit(d.requiredMask, b) ==> b < |d.fields|
  }

  /** A type that MCP can name, with its own size. */
  predicate Nameable(f: DcpField) {
    !f.ty.I32? && !f.ty.Bytes? && f.size == DefaultSize(f.ty)
  }

  /** The field starts where the one in front of it ends. */
  predicate Placed(fields: seq<DcpField>, i: nat)
    requires i < |fields|
  {
    Nameable(fields[i])
    && fields[i].offset == if i == 0 then 0 else fields[i - 1].offset + fields[i - 1].size
  }

  function Names(fields: seq<DcpField>): (ns: seq<Text>)
    ensures |ns| == |fields| && forall i :: 0 <= i < |ns| ==> ns[i] == fields[i].name
  {
    seq(|fields|, (i: nat) requires i < |fields| => fields[i].name)
  }

  lemma {:induction false} FieldsForAt(names: seq<Text>, kinds: map<Text, ArgType>, i: nat, offset: nat, k: nat)
    requires i + k < |names| && forall n :: n in names ==> n in kinds
    ensures var fs := FieldsFor(names, kinds, i, offset);
      && fs[0].offset == offset
      && fs[k].name == names[i + k] && fs[k].ty == kinds[names[i + k]]
      && fs[k].size == DefaultSize(fs[k].ty)
      && (k > 0 ==> fs[k].offset == fs[k - 1].offset + fs[k - 1].size)
    decreases k
  {
    FieldsForStep(names, kinds, i, offset);
    hide FieldsFor, DefaultSize;
    if k > 0 {
      var next := offset + DefaultSize(kinds[names[i]]);
      FieldsForAt(names, kinds, i + 1, next, k - 1);
    }
  }

  lemma FromMcpKinds(t: string)
    ensures !FromMcpType(t).I32? && !FromMcpType(t).Bytes?
  {
  }

  lemma {:induction false} FieldIsPlaced(names: seq<Text>, properties: map<Text, string>, k: nat)
    requires k < |names| && forall n :: n in names ==> n in properties
    ensures var fs := FieldsFor(names, Kinds(properties), 0, 0); fs[k].name == names[k] && Placed(fs, k)
  {
    FieldsForAt(names, Kinds(properties), 0, 0, k);
    FromMcpKinds(properties[names[k]]);
  }

  /** Exactly the schemas of at most 64 properties are converted, and keep name and description. */
  lemma {:induction false} ConvertsExactly(hash: Text -> nat, mcp: McpSchema, r: Option<DcpSchema>)
    requires IsConversion(hash, mcp, r)
    ensures r.Some? <==> |mcp.properties| <= 64
    ensures r.Some? ==> r.value.name == mcp.name && r.value.description == mcp.description
                        && |r.value.fields| == |mcp.properties|
  {
    var names :| Ascending(names) && Elements(names) == mcp.properties.Keys && r == ConvertNamed(hash, mcp, names);
    AscendingCounts(names);
    hide FieldsFor, MaskFor, Kinds, Ascending, Elements;
  }

  lemma {:induction false} AscendingCounts(names: seq<Text>)
    requires Ascending(names)
    ensures |Elements(names)| == |names|
    decreases |names|
  {
    if names == [] {
      assert Elements(names) == {};
    } else {
      TailElements(names);
      AscendingCounts(names[1..]);
      assert names[0] in Elements(names);
    }
  }

  /** Every conversion is canonical. */
  lemma ConversionIsCanonical(hash: Text -> nat, mcp: McpSchema, d: DcpSchema)
    requires IsConversion(hash, mcp, Some(d))
    ensures Canonical(hash, d)
  {
    var names :| Ascending(names) && Elements(names) == mcp.properties.Keys
      && Some(d) == ConvertNamed(hash, mcp, names);
    assert forall n :: n in names ==> n in Elements(names);
    hide FieldsFor, MaskFor, Kinds, Ascending, Elements, Placed;
    FieldsArePlaced(names, mcp.properties);
    MaskIsWithin(names, mcp.required);
  }

  lemma {:induction false} FieldsArePlaced(names: seq<Text>, properties: map<Text, string>)
    requires forall n :: n in names ==> n in properties
    ensures var fs := FieldsFor(names, Kinds(properties), 0, 0);
      Names(fs) == names && forall k :: 0 <= k < |fs| ==> Placed(fs, k)
  {
    hide FieldsFor, Kinds, Placed;
    var fs := FieldsFor(names, Kinds(properties), 0, 0);
    forall k | 0 <= k < |fs| ensures Names(fs)[k] == names[k] && Placed(fs, k) {
      FieldIsPlaced(names, properties, k);
    }
  }

  lemma {:induction false} MaskIsWithin(names: seq<Text>, required: seq<Text>)
    ensures forall b: nat :: Bit(MaskFor(names, required, |names|), b) ==> b < |names|
  {
    hide Bit, MaskFor;
    forall b: nat | Bit(MaskFor(names, required, |names|), b) ensures b < |names| {
      MaskBits(names, required, |names|, b);
    }
  }

  /** Fields lie one behind the other and end within 512 bytes, so no u16 offset overflows. */
  lemma {:induction false} OffsetsAreContiguous(hash: Text -> nat, d: DcpSchema, i: nat)
    requires Canonical(hash, d) && i < |d.fields|
    ensures d.fields[i].offset + d.fields[i].size <= 8 * (i + 1) <= 512
    ensures i > 0 ==> d.fields[i].offset == d.fields[i - 1].offset + d.fields[i - 1].size
    decreases i
  {
    assert Placed(d.fields, i);
    if i > 0 { OffsetsAreContiguous(hash, d, i - 1); }
  }

  lemma {:induction false} MaskBits(names: seq<Text>, required: seq<Text>, n: nat, b: nat)
    requires n <= |names|
    ensures Bit(MaskFor(names, required, n), b) <==> b < n && names[b] in required
    decreases n
  {
    if n == 0 {
      BitOfZero(b);
    } else {
      MaskBits(names, required, n - 1, b);
      BitOfOr(MaskFor(names, required, n - 1), Pow2(n - 1), b);
      BitOfPow2(n - 1, b);
    }
  }

  lemma {:induction false} PropertyIs(fields: seq<DcpField>, i: nat)
    requires i < |fields| && Ascending(Names(fields))
    ensures fields[i].name in PropertiesOf(fields)
    ensures PropertiesOf(fields)[fields[i].name] == ToMcpType(fields[i].ty)
    decreases |fields|
  {
    var last := |fields| - 1;
    var ns := Names(fields);
    if i < last {
      assert Less(ns[i], ns[last]);
      LessIsStrictOrder(ns[i], ns[i], ns[i]);
      assert forall k :: 0 <= k < last ==> Names(fields[..last])[k] == ns[k];
      PropertyIs(fields[..last], i);
    }
  }

  lemma TypeRoundTrip(t: ArgType)
    ensures FromMcpType(ToMcpType(t)) == if t == I32 then I64 else if t == Bytes then String else t
  {
  }

  lemma ConsSuffix<T>(s: seq<T>, i: nat)
    requires i < |s|
    ensures s[i..] == [s[i]] + s[i + 1..]
  {
  }

  lemma {:induction false} SameFields(fields: seq<DcpField>, kinds: map<Text, ArgType>, i: nat, offset: nat)
    requires i <= |fields| && forall n :: n in Names(fields) ==> n in kinds
    requires forall k :: 0 <= k < |fields| ==> Placed(fields, k)
    requires forall k :: 0 <= k < |fields| ==> kinds[Names(fields)[k]] == fields[k].ty
    requires offset == if i == 0 then 0 else fields[i - 1].offset + fields[i - 1].size
    ensures FieldsFor(Names(fields), kinds, i, offset) == fields[i..]
    decreases |fields| - i
  {
    if i < |fields| {
      assert Placed(fields, i);
      SameFields(fields, kinds, i + 1, offset + fields[i].size);
      ConsSuffix(fields, i);
    }
  }

  /** Converting to MCP and back gives the same schema exactly for canonical ones. */
  lemma RoundTripIsCanonical(hash: Text -> nat, d: DcpSchema)
    ensures IsConversion(hash, ToMcp(d), Some(d)) <==> Canonical(hash, d)
  {
    if IsConversion(hash, ToMcp(d), Some(d)) { ConversionIsCanonical(hash, ToMcp(d), d); }
    if Canonical(hash, d) {
      var m, names := ToMcp(d), Names(d.fields);
      assert Elements(names) == m.properties.Keys by { NamesAreKeys(d.fields); }
      var kinds := Kinds(m.properties);
      assert forall n :: n in names ==> n in Elements(names);
      forall k | 0 <= k < |d.fields| ensures kinds[names[k]] == d.fields[k].ty {
        assert Placed(d.fields, k);
        PropertyIs(d.fields, k);
        TypeRoundTrip(d.fields[k].ty);
      }
      SameFields(d.fields, kinds, 0, 0);
      assert d.fields[0..] == d.fields;
      SameMask(d);
      assert Some(d) == ConvertNamed(hash, m, names);
    }
  }

  lemma {:induction false} NamesAreKeys(fields: seq<DcpField>)
    ensures Elements(Names(fields)) == PropertiesOf(fields).Keys
  {
    var ns := Names(fields);
    forall n ensures n in Elements(ns) <==> n in PropertiesOf(fields) {
      if n in PropertiesOf(fields) {
        var i :| 0 <= i < |fields| && fields[i].name == n;
        assert ns[i] == n;
      }
    }
  }

  lemma SameMask(d: DcpSchema)
    requires Ascending(Names(d.fields)) && |d.fields| <= MAX_PROPERTIES
    requires forall b: nat :: Bit(d.requiredMask, b) ==> b < |d.fields|
    ensures MaskFor(Names(d.fields), RequiredOf(d.fields, d.requiredMask), |d.fields|) == d.requiredMask
  {
    var names, back := Names(d.fields), RequiredOf(d.fields, d.requiredMask);
    forall b: nat ensures Bit(MaskFor(names, back, |names|), b) == Bit(d.requiredMask, b) {
      MaskBits(names, back, |names|, b);
      if b < |names| { BackIsBit(d, b); }
    }
    SameBits(MaskFor(names, back, |names|), d.requiredMask);
  }

  lemma {:induction false} BackIsBit(d: DcpSchema, b: nat)
    requires Ascending(Names(d.fields)) && b < |d.fields| <= MAX_PROPERTIES
    ensures d.fields[b].name in RequiredOf(d.fields, d.requiredMask) <==> Bit(d.requiredMask, b)
  {
    var names := Names(d.fields);
    AndPow2(d.requiredMask, b);
    RequiredMeans(d.fields, d.requiredMask, names[b]);
    assert Selects(d.fields, d.requiredMask, b, names[b]) == Bit(d.requiredMask, b);
    hide RequiredOf, And, Bit, Less;
    if j :| 0 <= j < |d.fields| && Selects(d.fields, d.requiredMask, j, names[b]) {
      AscendingNamesDiffer(names, b, j);
    }
  }

  lemma AscendingNamesDiffer(names: seq<Text>, i: nat, j: nat)
    requires Ascending(names) && i < |names| && j < |names| && names[i] == names[j]
    ensures i == j
  {
    LessIsStrictOrder(names[i], names[i], names[i]);
  }

  lemma {:induction false} SameBits(x: nat, y: nat)
    requires forall b: nat :: Bit(x, b) == Bit(y, b)
    ensures x == y
    decreases x + y
  {
    assert Bit(x, 0) == Bit(y, 0);
    if x > 0 || y > 0 {
      forall b: nat ensures Bit(x / 2, b) == Bit(y / 2, b) {
        assert Bit(x, b + 1) == Bit(y, b + 1);
      }
      SameBits(x / 2, y / 2);
    }
  }

  /** Conversion has one result, and on its results converting to MCP and back is the identity. */
  lemma ConvertedSchemasAreFixed(hash: Text -> nat, mcp: McpSchema, d: DcpSchema, r: Option<DcpSchema>)
    requires IsConversion(hash, mcp, Some(d))
    ensures IsConversion(hash, mcp, r) ==> r == Some(d)
    ensures IsConversion(hash, ToMcp(d), Some(d))
  {
    ConversionIsCanonical(hash, mcp, d);
    RoundTripIsCanonical(hash, d);
    if IsConversion(hash, mcp, r) {
      var a :| Ascending(a) && Elements(a) == mcp.properties.Keys && Some(d) == ConvertNamed(hash, mcp, a);
      var b :| Ascending(b) && Elements(b) == mcp.properties.Keys && r == ConvertNamed(hash, mcp, b);
      AscendingIsUnique(a, b);
    }
  }
}
