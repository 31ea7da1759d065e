/** Tool arguments on their way from JSON to a handler: the encoder of src/compat/complete_adapter.rs, the
    validator of src/protocol/schema.rs and the bounded reads of src/dispatch/handler.rs. */
module Schemas {
  import opened Bits
  import opened Errors

  datatype ArgType = Null | Bool | I32 | I64 | F64 | String | Bytes | Array | Object

  function Code(t: ArgType): (c: nat)
    ensures c <= 8
  {
    match t
    case Null => 0
    case Bool => 1
    case I32 => 2
    case I64 => 3
    case F64 => 4
    case String => 5
    case Bytes => 6
    case Array => 7
    case Object => 8
  }

  function FromCode(c: nat): (t: Option<ArgType>)
    ensures t.Some? <==> c <= 8
    ensures t.Some? ==> Code(t.value) == c
  {
    match c
    case 0 => Some(Null)
    case 1 => Some(Bool)
    case 2 => Some(I32)
    case 3 => Some(I64)
    case 4 => Some(F64)
    case 5 => Some(String)
    case 6 => Some(Bytes)
    case 7 => Some(Array)
    case 8 => Some(Object)
    case _ => None
  }

  /** `offset` and `size` are u16. */
  datatype Field = Field(name: string, ty: ArgType, offset: nat, size: nat, enumRange: Option<(byte, byte)>)

  /** Bit `i` of `required` says that field `i` must be present. */
  datatype Schema = Schema(required: nat, fields: seq<Field>)

  const MAX_FIELDS := 16

  function End(f: Field): nat {
    f.offset + f.size
  }

  predicate IsRequired(schema: Schema, i: nat) {
    i < 64 && And(schema.required, Pow2(i)) != 0
  }

  // ---- the type layout: one nibble per field ----

  /** The type code of field `i`: `(layout >> 4i) & 0xF`. */
  function Nibble(layout: nat, i: nat): (c: nat)
    ensures c < 16
  {
    if i == 0 then layout % 16 else Nibble(layout / 16, i - 1)
  }

  lemma {:induction false} NibbleIsShiftAndMask(layout: nat, i: nat)
    ensures And(Shr(layout, 4 * i), 15) == Nibble(layout, i)
    decreases i
  {
    if i == 0 {
      MaskIsMod(layout, 4);
      assert Pow2(4) == 16;
    } else {
      assert Shr(layout, 4 * i) == Shr(layout / 2, 4 * i - 1) == Shr(layout / 2 / 2, 4 * i - 2)
          == Shr(layout / 2 / 2 / 2, 4 * i - 3) == Shr(layout / 2 / 2 / 2 / 2, 4 * i - 4);
      NibbleIsShiftAndMask(layout / 16, i - 1);
    }
  }

  lemma {:induction false} OrHalves(a: nat, b: nat)
    ensures Or(a, b) / 2 == Or(a / 2, b / 2)
    ensures Or(a, b) % 2 == (if a % 2 == 1 || b % 2 == 1 then 1 else 0)
  {
  }

  lemma {:induction false} OrQuarters(a: nat, b: nat)
    ensures Or(a, b) / 4 == Or(a / 4, b / 4)
    ensures b % 4 == 0 ==> Or(a, b) % 4 == a % 4
    ensures a % 4 == 0 ==> Or(a, b) % 4 == b % 4
  {
    OrHalves(a, b);
    OrHalves(a / 2, b / 2);
  }

  lemma Sixteenths(a: nat)
    ensures a / 16 == a / 4 / 4 && a % 16 == 4 * (a / 4 % 4) + a % 4
  {
  }

  lemma {:induction false} OrNibbles(a: nat, b: nat)
    ensures Or(a, b) / 16 == Or(a / 16, b / 16)
    ensures b % 16 == 0 ==> Or(a, b) % 16 == a % 16
    ensures a % 16 == 0 ==> Or(a, b) % 16 == b % 16
  {
    OrQuarters(a, b);
    OrQuarters(a / 4, b / 4);
    Sixteenths(a);
    Sixteenths(b);
    Sixteenths(Or(a, b));
  }

  lemma {:induction false} ShlFour(t: nat, i: nat)
    requires i > 0
    ensures Shl(t, 4 * i) == 16 * Shl(t, 4 * (i - 1))
  {
    assert Shl(t, 4 * i) == 2 * Shl(t, 4 * i - 1) == 4 * Shl(t, 4 * i - 2);
    assert 4 * Shl(t, 4 * i - 2) == 8 * Shl(t, 4 * i - 3) == 16 * Shl(t, 4 * i - 4);
  }

  /** Writing a code into an empty nibble sets that nibble and no other. */
  lemma {:induction false} SetNibble(layout: nat, t: nat, i: nat, j: nat)
    requires t < 16 && Nibble(layout, i) == 0
    ensures Nibble(Or(layout, Shl(t, 4 * i)), j) == if j == i then t else Nibble(layout, j)
    decreases i
  {
    var b := Shl(t, 4 * i);
    OrNibbles(layout, b);
    if i == 0 {
      assert b == t && t / 16 == 0;
      if j > 0 { assert Or(layout / 16, 0) == layout / 16 by { OrZero(layout / 16); } }
    } else {
      ShlFour(t, i);
      if j > 0 { SetNibble(layout / 16, t, i - 1, j - 1); }
    }
  }

  lemma {:induction false} OrZero(a: nat)
    ensures Or(a, 0) == a
  {
  }

  // ---- validation ----

  datatype Args = Args(data: seq<byte>, layout: nat)

  function TypeAt(layout: nat, i: nat): Result<ArgType, DcpError> {
    match FromCode(Nibble(layout, i))
    case Some(t) => Ok(t)
    case None => Err(ValidationFailed)
  }

  predicate EnumAllows(f: Field, value: byte) {
    f.enumRange.Some? ==> f.enumRange.value.0 <= value <= f.enumRange.value.1
  }

  /** One field: absent, present (with the end of its region), or refused. */
  datatype FieldCheck = Absent | Present(end: nat) | Refused(error: DcpError)

  function CheckField(f: Field, args: Args, i: nat): FieldCheck {
    match TypeAt(args.layout, i)
    case Err(e) => Refused(e)
    case Ok(t) =>
      if t.Null? then Absent
      else if t != f.ty then Refused(ValidationFailed)
      else if End(f) > |args.data| then Refused(OutOfBounds)
      else if f.enumRange.Some? && f.offset >= |args.data| then Refused(OutOfBounds)
      else if f.enumRange.Some? && !EnumAllows(f, args.data[f.offset]) then Refused(ValidationFailed)
      else Present(End(f))
  }

  /** The fields from index `i` on, given the mask and the length declared so far. */
  function CheckFields(schema: Schema, args: Args, i: nat, mask: nat, len: nat): Result<(nat, nat), DcpError>
    requires i <= |schema.fields|
    decreases |schema.fields| - i
  {
    if i == |schema.fields| then Ok((mask, len))
    else if i >= MAX_FIELDS then Err(ValidationFailed)
    else match CheckField(schema.fields[i], args, i)
      case Refused(e) => Err(e)
      case Absent => CheckFields(schema, args, i + 1, mask, len)
      case Present(end) => CheckFields(schema, args, i + 1, Or(mask, Pow2(i)), Max(len, end))
  }

  /** The nibbles from `i` to 15 must be empty. */
  function CheckUnused(layout: nat, i: nat): Result<(), DcpError>
    decreases MAX_FIELDS - i
  {
    if i >= MAX_FIELDS then Ok(())
    else match TypeAt(layout, i)
      case Err(e) => Err(e)
      case Ok(t) => if !t.Null? then Err(ValidationFailed) else CheckUnused(layout, i + 1)
  }

  function Validate(schema: Schema, args: Args): Result<(), DcpError> {
    match CheckFields(schema, args, 0, 0, 0)
    case Err(e) => Err(e)
    case Ok((mask, len)) =>
      match CheckUnused(args.layout, |schema.fields|)
      case Err(e) => Err(e)
      case Ok(_) =>
        if |args.data| > len then Err(ValidationFailed)
        else if AndNot(schema.required, mask) != 0 then Err(ValidationFailed)
        else Ok(())
  }

  method ValidateSharedArgs(schema: Schema, args: Args) returns (r: Result<(), DcpError>)
    ensures r == Validate(schema, args)
  {
    var presentMask: nat, declaredLen: nat := 0, 0;
    var i := 0;
    while i < |schema.fields|
      invariant 0 <= i <= |schema.fields|
      decreases |schema.fields| - i
      invariant CheckFields(schema, args, i, presentMask, declaredLen) == CheckFields(schema, args, 0, 0, 0)
    {
      if i >= MAX_FIELDS { return Err(ValidationFailed); }
      match CheckField(schema.fields[i], args, i) {
        case Refused(e) => return Err(e);
        case Absent =>
        case Present(end) =>
          declaredLen := Max(declaredLen, end);
          presentMask := Or(presentMask, Pow2(i));
      }
      i := i + 1;
    }
    i := |schema.fields|;
    while i < MAX_FIELDS
      invariant CheckUnused(args.layout, i) == CheckUnused(args.layout, |schema.fields|)
    {
      var t := TypeAt(args.layout, i);
      if t.Err? { return Err(t.error); }
      if !t.value.Null? { return Err(ValidationFailed); }
      i := i + 1;
    }
    if |args.data| > declaredLen { return Err(ValidationFailed); }
    if AndNot(schema.required, presentMask) != 0 { return Err(ValidationFailed); }
    return Ok(());
  }

  // ---- what validation means ----

  predicate FieldOk(f: Field, args: Args, i: nat) {
    Nibble(args.layout, i) == 0 ||
    (&& Nibble(args.layout, i) == Code(f.ty)
     && End(f) <= |args.data|
     && (f.enumRange.Some? ==> f.offset < |args.data| && EnumAllows(f, args.data[f.offset])))
  }

  predicate IsPresent(args: Args, i: nat) {
    Nibble(args.layout, i) != 0
  }

  lemma CheckFieldMeans(f: Field, args: Args, i: nat)
    ensures CheckField(f, args, i) == Absent <==> !IsPresent(args, i)
    ensures CheckField(f, args, i).Present? <==> IsPresent(args, i) && FieldOk(f, args, i)
    ensures CheckField(f, args, i).Present? ==> CheckField(f, args, i).end == End(f)
  {
    var c := Nibble(args.layout, i);
    if FromCode(c).Some? { assert Code(FromCode(c).value) == c; }
  }

  lemma {:induction false} CheckFieldsMeans(schema: Schema, args: Args, i: nat, mask: nat, len: nat)
    requires i <= |schema.fields| <= MAX_FIELDS
    ensures var r := CheckFields(schema, args, i, mask, len);
      && (r.Ok? <==> forall k :: i <= k < |schema.fields| ==> FieldOk(schema.fields[k], args, k))
      && (r.Ok? ==>
        && (forall b: nat :: Bit(r.value.0, b) <==> Bit(mask, b) || (i <= b < |schema.fields| && IsPresent(args, b)))
        && len <= r.value.1
        && (forall k :: i <= k < |schema.fields| && IsPresent(args, k) ==> End(schema.fields[k]) <= r.value.1)
        && (r.value.1 == len ||
            exists k :: i <= k < |schema.fields| && IsPresent(args, k) && End(schema.fields[k]) == r.value.1))
    decreases |schema.fields| - i
  {
    if i < |schema.fields| {
      var f := schema.fields[i];
      CheckFieldMeans(f, args, i);
      match CheckField(f, args, i)
      case Refused(_) => assert !FieldOk(f, args, i);
      case Absent => CheckFieldsMeans(schema, args, i + 1, mask, len);
      case Present(end) =>
        CheckFieldsMeans(schema, args, i + 1, Or(mask, Pow2(i)), Max(len, end));
        forall b: nat ensures Bit(Or(mask, Pow2(i)), b) <==> Bit(mask, b) || b == i {
          BitOfOr(mask, Pow2(i), b);
          BitOfPow2(i, b);
        }
    }
  }

  lemma {:induction false} CheckUnusedMeans(layout: nat, i: nat)
    ensures CheckUnused(layout, i).Ok? <==> forall k: nat :: i <= k < MAX_FIELDS ==> Nibble(layout, k) == 0
    decreases MAX_FIELDS - i
  {
    hide CheckUnused, Nibble;
    CheckUnusedStep(layout, i);
    if i < MAX_FIELDS { CheckUnusedMeans(layout, i + 1); }
  }

  lemma CheckUnusedStep(layout: nat, i: nat)
    ensures CheckUnused(layout, i).Ok? <==>
      i >= MAX_FIELDS || (Nibble(layout, i) == 0 && CheckUnused(layout, i + 1).Ok?)
  {
    hide Nibble;
    var t := FromCode(Nibble(layout, i));
    if t.Some? { assert Code(t.value) == Nibble(layout, i) && (t.value.Null? <==> Code(t.value) == 0); }
  }

  /** Validation accepts exactly the arguments whose present fields are well typed, in bounds and in range,
      whose layout names no other field, whose data ends with a present field, and which have every
      required field, for a schema of at most 16 fields. */
  lemma ValidateMeans(schema: Schema, args: Args)
    ensures Validate(schema, args).Ok? <==>
      && |schema.fields| <= MAX_FIELDS
      && (forall k :: 0 <= k < |schema.fields| ==> FieldOk(schema.fields[k], args, k))
      && (forall k :: |schema.fields| <= k < MAX_FIELDS ==> Nibble(args.layout, k) == 0)
      && (|args.data| == 0 ||
          exists k :: 0 <= k < |schema.fields| && IsPresent(args, k) && End(schema.fields[k]) >= |args.data|)
      && (forall b: nat :: Bit(schema.required, b) ==> b < |schema.fields| && IsPresent(args, b))
  {
    if |schema.fields| > MAX_FIELDS {
      TooManyFieldsFail(schema, args, 0, 0, 0);
    } else {
      ValidateSmallMeans(schema, args);
    }
  }

  lemma {:induction false} TooManyFieldsFail(schema: Schema, args: Args, i: nat, mask: nat, len: nat)
    requires |schema.fields| > MAX_FIELDS && i <= MAX_FIELDS
    ensures CheckFields(schema, args, i, mask, len).Err?
    decreases MAX_FIELDS - i
  {
    hide CheckField, Or;
    if i < MAX_FIELDS {
      match CheckField(schema.fields[i], args, i)
      case Refused(_) =>
      case Absent => TooManyFieldsFail(schema, args, i + 1, mask, len);
      case Present(end) => TooManyFieldsFail(schema, args, i + 1, Or(mask, Pow2(i)), Max(len, end));
    }
  }

  lemma ValidateSmallMeans(schema: Schema, args: Args)
    requires |schema.fields| <= MAX_FIELDS
    ensures Validate(schema, args).Ok? <==>
      && (forall k :: 0 <= k < |schema.fields| ==> FieldOk(schema.fields[k], args, k))
      && (forall k :: |schema.fields| <= k < MAX_FIELDS ==> Nibble(args.layout, k) == 0)
      && (|args.data| == 0 ||
          exists k :: 0 <= k < |schema.fields| && IsPresent(args, k) && End(schema.fields[k]) >= |args.data|)
      && (forall b: nat :: Bit(schema.required, b) ==> b < |schema.fields| && IsPresent(args, b))
  {
    CheckFieldsMeans(schema, args, 0, 0, 0);
    CheckUnusedMeans(args.layout, |schema.fields|);
    var r := CheckFields(schema, args, 0, 0, 0);
    if r.Ok? {
      AndNotIsInclusion(schema.required, r.value.0);
      forall b: nat ensures !Bit(0, b) { BitOfZero(b); }
    }
  }

  // ---- bounded reads ----

  function ReadBytesAt(args: Args, offset: nat, len: nat): Result<seq<byte>, DcpError> {
    if offset + len > |args.data| then Err(OutOfBounds) else Ok(args.data[offset..offset + len])
  }

  function ReadBoolAt(args: Args, offset: nat): Result<bool, DcpError> {
    if offset >= |args.data| then Err(OutOfBounds) else Ok(args.data[offset] != 0)
  }

  /** The two's complement reading of an unsigned value of `2 * half` possibilities. */
  function Signed(v: nat, half: int): int {
    if v < half then v else v - 2 * half
  }

  const HALF32: int := 0x8000_0000
  const HALF64: int := 0x8000_0000_0000_0000

  function ReadI32At(args: Args, offset: nat): Result<int, DcpError> {
    if offset + 4 > |args.data| then Err(OutOfBounds)
    else Ok(Signed(FromLe(args.data[offset..offset + 4]), HALF32))
  }

  function ReadI64At(args: Args, offset: nat): Result<int, DcpError> {
    if offset + 8 > |args.data| then Err(OutOfBounds)
    else Ok(Signed(FromLe(args.data[offset..offset + 8]), HALF64))
  }
}

module Arguments {
  import opened Bits
  import opened Errors
  import opened Schemas

  type Float64 = s: seq<byte> | |s| == 8 witness [0, 0, 0, 0, 0, 0, 0, 0]

  /** JSON values. A number carries its integer value, if it is one, and its 64-bit float image; an array or
      object carries its serialized text. */
  datatype Json =
    | JNull
    | JBool(b: bool)
    | JNumber(integer: Option<int>, float: Float64)
    | JString(utf8: seq<byte>)
    | JArray(text: seq<byte>)
    | JObject(entries: map<string, Json>, text: seq<byte>)

  datatype ArgError =
    | TypeMismatch
    | OutOfRange
    | TooLarge
    | NotAnObject
    | UnknownArgument
    | MissingRequired
    | Dcp(error: DcpError)

  function AsI64(v: Json): Option<int> {
    if v.JNumber? && v.integer.Some? && -HALF64 <= v.integer.value < HALF64 then Some(v.integer.value) else None
  }

  function AsU64(v: Json): Option<nat> {
    if v.JNumber? && v.integer.Some? && 0 <= v.integer.value < 2 * HALF64 then Some(v.integer.value) else None
  }

  /** The bytes of a two's complement integer of `n` bytes and `2 * half` possibilities. */
  function SignedLe(v: int, half: int, n: nat): (bs: seq<byte>)
    requires -half <= v < half
    ensures |bs| == n
  {
    Le(if v >= 0 then v else v + 2 * half, n)
  }

  /** The bytes an argument is encoded to, or why it is refused; a null field is encoded to nothing. */
  function ArgumentBytes(f: Field, v: Json): Result<seq<byte>, ArgError> {
    match f.ty
    case Null => if v.JNull? then Ok([]) else Err(TypeMismatch)
    case Bool =>
      if f.size < 1 then Err(Dcp(ValidationFailed))
      else if !v.JBool? then Err(TypeMismatch)
      else Ok([if v.b then 1 else 0])
    case I32 =>
      if f.enumRange.Some? then
        if f.size < 1 then Err(Dcp(ValidationFailed))
        else (match AsU64(v)
              case None => Err(TypeMismatch)
              case Some(n) =>
                if n < f.enumRange.value.0 || n > f.enumRange.value.1 then Err(OutOfRange) else Ok([n % 256]))
      else if f.size < 4 then Err(Dcp(ValidationFailed))
      else (match AsI64(v)
            case None => Err(TypeMismatch)
            case Some(n) => if n < -HALF32 || n >= HALF32 then Err(OutOfRange) else Ok(SignedLe(n, HALF32, 4)))
    case I64 =>
      if f.size < 8 then Err(Dcp(ValidationFailed))
      else (match AsI64(v)
            case None => Err(TypeMismatch)
            case Some(n) => Ok(SignedLe(n, HALF64, 8)))
    case F64 =>
      if f.size < 8 then Err(Dcp(ValidationFailed))
      else if !v.JNumber? then Err(TypeMismatch)
      else Ok(v.float)
    case String => TextBytes(f, v.JString?, if v.JString? then v.utf8 else [])
    case Bytes => TextBytes(f, v.JString?, if v.JString? then v.utf8 else [])
    case Array => TextBytes(f, v.JArray?, if v.JArray? then v.text else [])
    case Object => TextBytes(f, v.JObject?, if v.JObject? then v.text else [])
  }

  function TextBytes(f: Field, typed: bool, text: seq<byte>): Result<seq<byte>, ArgError> {
    if !typed then Err(TypeMismatch) else if |text| > f.size then Err(TooLarge) else Ok(text)
  }

  /** `write_field`: the bytes at the field's offset, if they fit the field and the buffer. */
  function WriteField(buffer: seq<byte>, f: Field, bytes: seq<byte>): (r: Result<seq<byte>, ArgError>)
    ensures r.Ok? ==> |r.value| == |buffer|
  {
    if |bytes| > f.size || f.offset + |bytes| > |buffer| then Err(Dcp(OutOfBounds))
    else Ok(buffer[..f.offset] + bytes + buffer[f.offset + |bytes|..])
  }

  function EncodeArgument(buffer: seq<byte>, f: Field, v: Json): (r: Result<seq<byte>, ArgError>)
    ensures r.Ok? ==> |r.value| == |buffer|
  {
    match ArgumentBytes(f, v)
    case Err(e) => Err(e)
    case Ok(bytes) => if f.ty.Null? then Ok(buffer) else WriteField(buffer, f, bytes)
  }

  /** The furthest end of the fields from `i` on, at least `len`. */
  function MaxEnd(fields: seq<Field>, i: nat, len: nat): (m: nat)
    requires i <= |fields|
    ensures m >= len && forall k :: i <= k < |fields| ==> End(fields[k]) <= m
    ensures m == len || exists k :: i <= k < |fields| && End(fields[k]) == m
    decreases |fields| - i
  {
    if i == |fields| then len else MaxEnd(fields, i + 1, Max(len, End(fields[i])))
  }

  /** The fields from `i` on, given the buffer and layout so far. */
  function EncodeFields(schema: Schema, args: map<string, Json>, i: nat, buffer: seq<byte>, layout: nat)
    : (r: Result<Args, ArgError>)
    requires i <= |schema.fields|
    ensures r.Ok? ==> |r.value.data| == |buffer|
    decreases |schema.fields| - i
  {
    if i == |schema.fields| then Ok(Args(buffer, layout))
    else if i >= MAX_FIELDS then Err(Dcp(ValidationFailed))
    else
      var f := schema.fields[i];
      if f.name in args then
        match EncodeArgument(buffer, f, args[f.name])
        case Err(e) => Err(e)
        case Ok(next) => EncodeFields(schema, args, i + 1, next, Or(layout, Shl(Code(f.ty), 4 * i)))
      else if IsRequired(schema, i) then Err(MissingRequired)
      else EncodeFields(schema, args, i + 1, buffer, layout)
  }

  predicate Declared(schema: Schema, name: string) {
    exists k :: 0 <= k < |schema.fields| && schema.fields[k].name == name
  }

  function Zeros(n: nat): (s: seq<byte>)
    ensures |s| == n
  {
    seq(n, _ => 0)
  }

  function Encode(schema: Schema, arguments: Option<Json>): Result<Args, ArgError> {
    if arguments.Some? && !arguments.value.JObject? then Err(NotAnObject)
    else
      var args := if arguments.Some? then arguments.value.entries else map[];
      if exists name :: name in args && !Declared(schema, name) then Err(UnknownArgument)
      else EncodeFields(schema, args, 0, Zeros(MaxEnd(schema.fields, 0, 0)), 0)
  }

  // ---- the encoder, in place ----

  method EncodeJsonArgument(buffer: array<byte>, f: Field, v: Json) returns (error: Option<ArgError>)
    modifies buffer
    ensures match EncodeArgument(old(buffer[..]), f, v)
      case Ok(next) => error == None && buffer[..] == next
      case Err(e) => error == Some(e) && buffer[..] == old(buffer[..])
  {
    var bytes := ArgumentBytes(f, v);
    if bytes.Err? { return Some(bytes.error); }
    if f.ty.Null? { return None; }
    var n := |bytes.value|;
    if n > f.size || f.offset + n > buffer.Length { return Some(Dcp(OutOfBounds)); }
    forall i | 0 <= i < n { buffer[f.offset + i] := bytes.value[i]; }
    return None;
  }

  method EncodeJsonArguments(schema: Schema, arguments: Option<Json>) returns (r: Result<Args, ArgError>)
    ensures r == Encode(schema, arguments)
  {
    var args: map<string, Json> := map[];
    if arguments.Some? {
      if !arguments.value.JObject? { return Err(NotAnObject); }
      args := arguments.value.entries;
    }
    var maxLen: nat := 0;
    for k := 0 to |schema.fields|
      invariant MaxEnd(schema.fields, k, maxLen) == MaxEnd(schema.fields, 0, 0)
    {
      maxLen := Max(maxLen, End(schema.fields[k]));
    }
    var buffer := new byte[maxLen](_ => 0);
    assert buffer[..] == Zeros(maxLen);
    var known := AllDeclared(schema, args);
    if !known { return Err(UnknownArgument); }
    var layout: nat, i := 0, 0;
    while i < |schema.fields|
      invariant i <= |schema.fields|
      invariant EncodeFields(schema, args, i, buffer[..], layout)
             == EncodeFields(schema, args, 0, Zeros(MaxEnd(schema.fields, 0, 0)), 0)
    {
      if i >= MAX_FIELDS { return Err(Dcp(ValidationFailed)); }
      var f := schema.fields[i];
      if f.name in args {
        var error := EncodeJsonArgument(buffer, f, args[f.name]);
        if error.Some? { return Err(error.value); }
        layout := Or(layout, Shl(Code(f.ty), 4 * i));
      } else if IsRequired(schema, i) {
        return Err(MissingRequired);
      }
      i := i + 1;
    }
    return Ok(Args(buffer[..], layout));
  }

  method AllDeclared(schema: Schema, args: map<string, Json>) returns (known: bool)
    ensures known <==> forall name :: name in args ==> Declared(schema, name)
  {
    var names := args.Keys;
    while names != {}
      invariant names <= args.Keys
      invariant forall name :: name in args && name !in names ==> Declared(schema, name)
      decreases |names|
    {
      var name :| name in names;
      if !Declared(schema, name) { return false; }
      names := names - {name};
    }
    return true;
  }

  // ---- encoding, then validation, then reading ----

  predicate Disjoint(f: Field, g: Field) {
    End(f) <= g.offset || End(g) <= f.offset
  }

  /** Schemas as the registry builds them: at most 16 fields, none of type null, no two overlapping, ranges on
      I32 fields only, and required bits for declared fields only. */
  predicate Regular(schema: Schema) {
    && |schema.fields| <= MAX_FIELDS
    && (forall k :: 0 <= k < |schema.fields| ==> !schema.fields[k].ty.Null?)
    && (forall k :: 0 <= k < |schema.fields| && schema.fields[k].enumRange.Some? ==> schema.fields[k].ty.I32?)
    && (forall j, k :: 0 <= j < k < |schema.fields| ==> Disjoint(schema.fields[j], schema.fields[k]))
  }

  ghost predicate RequiresDeclared(schema: Schema) {
    forall b: nat :: Bit(schema.required, b) ==> b < |schema.fields|
  }

  /** What the first `i` fields look like in a partial encoding. */
  predicate Encoded(schema: Schema, args: map<string, Json>, i: nat, buffer: seq<byte>, layout: nat)
    requires i <= |schema.fields|
  {
    && (forall k :: 0 <= k < i ==> FieldEncoded(schema.fields[k], args, k, buffer, layout))
    && (forall k :: i <= k < MAX_FIELDS ==> Nibble(layout, k) == 0)
  }

  predicate FieldEncoded(f: Field, args: map<string, Json>, k: nat, buffer: seq<byte>, layout: nat) {
    if f.name in args then
      && Nibble(layout, k) == Code(f.ty)
      && Holds(f, args[f.name], buffer)
    else Nibble(layout, k) == 0
  }

  /** The field's region starts with the bytes of the value. */
  predicate Holds(f: Field, v: Json, buffer: seq<byte>) {
    && ArgumentBytes(f, v).Ok?
    && var bytes := ArgumentBytes(f, v).value;
       |bytes| <= f.size && f.offset + |bytes| <= |buffer| && buffer[f.offset..f.offset + |bytes|] == bytes
  }

  lemma WriteKeepsOthers(buffer: seq<byte>, f: Field, v: Json, g: Field, w: Json)
    requires EncodeArgument(buffer, f, v).Ok? && Holds(g, w, buffer) && Disjoint(f, g)
    ensures Holds(g, w, EncodeArgument(buffer, f, v).value)
  {
    hide ArgumentBytes;
    var bytes := ArgumentBytes(g, w).value;
    if !f.ty.Null? { WriteLeaves(buffer, f.offset, ArgumentBytes(f, v).value, g.offset, |bytes|); }
  }

  /** Overwriting one region leaves a region beside it alone. */
  lemma WriteLeaves(buffer: seq<byte>, at: nat, bytes: seq<byte>, from: nat, n: nat)
    requires at + |bytes| <= |buffer| && from + n <= |buffer| && (at + |bytes| <= from || from + n <= at)
    ensures (buffer[..at] + bytes + buffer[at + |bytes|..])[from..from + n] == buffer[from..from + n]
  {
    var next := buffer[..at] + bytes + buffer[at + |bytes|..];
    forall k | from <= k < from + n ensures next[k] == buffer[k] {
    }
  }

  lemma WriteReads(buffer: seq<byte>, at: nat, bytes: seq<byte>)
    requires at + |bytes| <= |buffer|
    ensures (buffer[..at] + bytes + buffer[at + |bytes|..])[at..at + |bytes|] == bytes
  {
  }

  lemma WriteHolds(buffer: seq<byte>, f: Field, v: Json)
    requires EncodeArgument(buffer, f, v).Ok? && !f.ty.Null?
    ensures Holds(f, v, EncodeArgument(buffer, f, v).value)
  {
    hide ArgumentBytes;
    WriteReads(buffer, f.offset, ArgumentBytes(f, v).value);
  }

  lemma {:induction false} EncodedStep(schema: Schema, args: map<string, Json>, i: nat, buffer: seq<byte>, layout: nat)
    requires Regular(schema) && i < |schema.fields| && Encoded(schema, args, i, buffer, layout)
    requires schema.fields[i].name in args && EncodeArgument(buffer, schema.fields[i], args[schema.fields[i].name]).Ok?
    ensures var f := schema.fields[i];
      Encoded(schema, args, i + 1, EncodeArgument(buffer, f, args[f.name]).value, Or(layout, Shl(Code(f.ty), 4 * i)))
  {
    var f := schema.fields[i];
    var next, layout' := EncodeArgument(buffer, f, args[f.name]).value, Or(layout, Shl(Code(f.ty), 4 * i));
    forall k: nat ensures Nibble(layout', k) == if k == i then Code(f.ty) else Nibble(layout, k) {
      SetNibble(layout, Code(f.ty), i, k);
    }
    WriteHolds(buffer, f, args[f.name]);
    forall k | 0 <= k < i && schema.fields[k].name in args
      ensures Holds(schema.fields[k], args[schema.fields[k].name], next)
    {
      assert FieldEncoded(schema.fields[k], args, k, buffer, layout);
      WriteKeepsOthers(buffer, f, args[f.name], schema.fields[k], args[schema.fields[k].name]);
    }
    forall k | 0 <= k < i + 1 ensures FieldEncoded(schema.fields[k], args, k, next, layout') {
      if k < i { assert FieldEncoded(schema.fields[k], args, k, buffer, layout); }
    }
  }

  lemma {:induction false} EncodeFieldsMeans(schema: Schema, args: map<string, Json>, i: nat, buffer: seq<byte>,
                                             layout: nat)
    requires Regular(schema) && i <= |schema.fields| && Encoded(schema, args, i, buffer, layout)
    ensures var r := EncodeFields(schema, args, i, buffer, layout);
      r.Ok? ==>
        && Encoded(schema, args, |schema.fields|, r.value.data, r.value.layout)
        && forall k :: i <= k < |schema.fields| && IsRequired(schema, k) ==> schema.fields[k].name in args
    decreases |schema.fields| - i
  {
    assert |schema.fields| <= MAX_FIELDS;
    hide Regular, EncodeArgument, Nibble, Holds, Or, Shl;
    if i < |schema.fields| {
      var f := schema.fields[i];
      if f.name in args {
        hide Encoded;
        if EncodeArgument(buffer, f, args[f.name]).Ok? {
          EncodedStep(schema, args, i, buffer, layout);
          EncodeFieldsMeans(schema, args, i + 1, EncodeArgument(buffer, f, args[f.name]).value,
                            Or(layout, Shl(Code(f.ty), 4 * i)));
        }
      } else if !IsRequired(schema, i) {
        assert FieldEncoded(f, args, i, buffer, layout);
        EncodeFieldsMeans(schema, args, i + 1, buffer, layout);
      }
    }
  }

  function Entries(arguments: Option<Json>): map<string, Json>
    requires arguments.Some? ==> arguments.value.JObject?
  {
    if arguments.Some? then arguments.value.entries else map[]
  }

  predicate Supplied(schema: Schema, arguments: Option<Json>, k: nat)
    requires arguments.Some? ==> arguments.value.JObject?
  {
    k < |schema.fields| && schema.fields[k].name in Entries(arguments)
  }

  lemma {:induction false} NibbleOfZero(i: nat)
    ensures Nibble(0, i) == 0
  {
    if i > 0 { NibbleOfZero(i - 1); }
  }

  lemma EncodeMeans(schema: Schema, arguments: Option<Json>)
    requires Regular(schema) && Encode(schema, arguments).Ok?
    ensures arguments.Some? ==> arguments.value.JObject?
    ensures var r := Encode(schema, arguments).value;
      && Encoded(schema, Entries(arguments), |schema.fields|, r.data, r.layout)
      && |r.data| == MaxEnd(schema.fields, 0, 0)
      && forall k :: 0 <= k < |schema.fields| && IsRequired(schema, k) ==> Supplied(schema, arguments, k)
  {
    var zeros := Zeros(MaxEnd(schema.fields, 0, 0));
    forall k: nat ensures Nibble(0, k) == 0 { NibbleOfZero(k); }
    EncodeFieldsMeans(schema, Entries(arguments), 0, zeros, 0);
  }

  lemma EncodedFieldIsOk(f: Field, args: map<string, Json>, k: nat, r: Args)
    requires FieldEncoded(f, args, k, r.data, r.layout) && End(f) <= |r.data|
    requires f.enumRange.Some? ==> f.ty.I32?
    ensures FieldOk(f, r, k)
  {
    if f.name in args && f.enumRange.Some? {
      var bytes := ArgumentBytes(f, args[f.name]).value;
      assert r.data[f.offset..f.offset + |bytes|][0] == r.data[f.offset];
    }
  }

  /** Encoded arguments of a regular schema pass validation exactly when a supplied field reaches as far as any
      declared one: the buffer is sized over all fields, the validator allows only what a present field covers. */
  lemma EncodedArgumentsValidate(schema: Schema, arguments: Option<Json>)
    requires Regular(schema) && RequiresDeclared(schema) && Encode(schema, arguments).Ok?
    ensures arguments.Some? ==> arguments.value.JObject?
    ensures Validate(schema, Encode(schema, arguments).value).Ok? <==>
      || MaxEnd(schema.fields, 0, 0) == 0
      || exists k: nat :: Supplied(schema, arguments, k) && End(schema.fields[k]) == MaxEnd(schema.fields, 0, 0)
  {
    EncodeMeans(schema, arguments);
    var r, args := Encode(schema, arguments).value, Entries(arguments);
    ValidateMeans(schema, r);
    forall k | 0 <= k < |schema.fields|
      ensures FieldOk(schema.fields[k], r, k) && (IsPresent(r, k) <==> Supplied(schema, arguments, k))
    {
      var f := schema.fields[k];
      assert FieldEncoded(f, args, k, r.data, r.layout);
      EncodedFieldIsOk(f, args, k, r);
      assert Code(f.ty) != 0;
    }
    forall b: nat | Bit(schema.required, b) ensures b < |schema.fields| && IsPresent(r, b) {
      AndPow2(schema.required, b);
      assert IsRequired(schema, b);
      assert Supplied(schema, arguments, b);
    }
  }

  lemma SuppliedIsHeld(schema: Schema, arguments: Option<Json>, k: nat)
    requires Regular(schema) && Encode(schema, arguments).Ok? && k < |schema.fields|
    requires arguments.Some? && arguments.value.JObject? && schema.fields[k].name in arguments.value.entries
    ensures var f := schema.fields[k]; Holds(f, arguments.value.entries[f.name], Encode(schema, arguments).value.data)
  {
    EncodeMeans(schema, arguments);
    var r := Encode(schema, arguments).value;
    assert FieldEncoded(schema.fields[k], Entries(arguments), k, r.data, r.layout);
  }

  /** Every supplied value's bytes are found at its field's offset. */
  lemma SuppliedBytesReadBack(schema: Schema, arguments: Option<Json>, k: nat)
    requires Regular(schema) && Encode(schema, arguments).Ok? && k < |schema.fields|
    requires arguments.Some? && arguments.value.JObject? && schema.fields[k].name in arguments.value.entries
    ensures var f, r := schema.fields[k], Encode(schema, arguments).value;
      var bytes := ArgumentBytes(f, arguments.value.entries[f.name]);
      bytes.Ok? && ReadBytesAt(r, f.offset, |bytes.value|) == Ok(bytes.value)
  {
    SuppliedIsHeld(schema, arguments, k);
  }

  /** Supplied booleans and integers are read back unchanged by the handler. */
  lemma SuppliedValuesReadBack(schema: Schema, arguments: Option<Json>, k: nat)
    requires Regular(schema) && Encode(schema, arguments).Ok? && k < |schema.fields|
    requires arguments.Some? && arguments.value.JObject? && schema.fields[k].name in arguments.value.entries
    requires schema.fields[k].enumRange.None?
    ensures var f, r := schema.fields[k], Encode(schema, arguments).value;
      var v := arguments.value.entries[f.name];
      && (f.ty.Bool? ==> v.JBool? && ReadBoolAt(r, f.offset) == Ok(v.b))
      && (f.ty.I32? ==> AsI64(v).Some? && ReadI32At(r, f.offset) == Ok(AsI64(v).value))
      && (f.ty.I64? ==> AsI64(v).Some? && ReadI64At(r, f.offset) == Ok(AsI64(v).value))
  {
    SuppliedBytesReadBack(schema, arguments, k);
    var f, r := schema.fields[k], Encode(schema, arguments).value;
    var v := arguments.value.entries[f.name];
    var bytes := ArgumentBytes(f, v).value;
    assert r.data[f.offset..f.offset + |bytes|] == bytes;
    if f.ty.Bool? {
      assert r.data[f.offset] == bytes[0];
    } else if f.ty.I32? {
      SignedRoundTrip(AsI64(v).value, HALF32, 4);
    } else if f.ty.I64? {
      SignedRoundTrip(AsI64(v).value, HALF64, 8);
    }
  }

  lemma SignedRoundTrip(v: int, half: int, n: nat)
    requires -half <= v < half && (n, half) in {(4, HALF32), (8, HALF64)}
    ensures Signed(FromLe(SignedLe(v, half, n)), half) == v
  {
    Pow256Values();
    LeRoundTrip(if v >= 0 then v else v + 2 * half, n);
  }

  /** A boolean, and an optional 32-bit integer declared after it. */
  const OptionalTail := Schema(1, [Field("a", Bool, 0, 1, None), Field("b", I32, 1, 4, None)])

  lemma OptionalTailIsRegular()
    ensures Regular(OptionalTail) && RequiresDeclared(OptionalTail) && MaxEnd(OptionalTail.fields, 0, 0) == 5
  {
    var fields := OptionalTail.fields;
    forall b: nat | Bit(1, b) ensures b < 2 { if b > 0 { BitOfZero(b - 1); } }
    assert fields[0].name == "a" && fields[1].name == "b" && "b" != "a";
    assert MaxEnd(fields, 2, 5) == MaxEnd(fields, 1, 1) == MaxEnd(fields, 0, 0) == 5;
  }

  lemma BooleanEncodes(data: seq<byte>)
    requires |data| == 5
    ensures EncodeArgument(data, OptionalTail.fields[0], JBool(true)).Ok?
  {
  }

  lemma OptionalTailEncodes(entries: map<string, Json>, text: seq<byte>)
    requires entries == map["a" := JBool(true)]
    ensures Encode(OptionalTail, Some(JObject(entries, text))).Ok?
  {
    OptionalTailIsRegular();
    hide Regular, RequiresDeclared, EncodeArgument, MaxEnd;
    AndPow2(1, 0);
    AndPow2(1, 1);
    assert Bit(1, 1) == Bit(0, 0);
    var zeros, fields := Zeros(5), OptionalTail.fields;
    assert fields[0].name == "a" && fields[1].name == "b" && "b" != "a";
    assert Declared(OptionalTail, "a");
    var next := EncodeArgument(zeros, fields[0], JBool(true));
    assert next.Ok? by { BooleanEncodes(zeros); }
    assert EncodeFields(OptionalTail, entries, 2, next.value, Or(0, Shl(1, 0))).Ok?;
    assert EncodeFields(OptionalTail, entries, 1, next.value, Or(0, Shl(1, 0))).Ok?;
    assert EncodeFields(OptionalTail, entries, 0, zeros, 0).Ok?;
  }

  /** Leaving out an optional field that lies behind all supplied ones is enough to be refused. */
  lemma OptionalTailIsRefused(entries: map<string, Json>, text: seq<byte>)
    requires entries == map["a" := JBool(true)]
    ensures var arguments := Some(JObject(entries, text));
      && Regular(OptionalTail) && RequiresDeclared(OptionalTail)
      && Encode(OptionalTail, arguments).Ok? && Validate(OptionalTail, Encode(OptionalTail, arguments).value).Err?
  {
    var arguments := Some(JObject(entries, text));
    OptionalTailIsRegular();
    OptionalTailEncodes(entries, text);
    hide Encode, Validate, Regular, RequiresDeclared;
    EncodedArgumentsValidate(OptionalTail, arguments);
    assert !Supplied(OptionalTail, arguments, 1);
  }
}
