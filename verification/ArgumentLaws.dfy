/** What encoded arguments are, type by type: which values are refused, which bytes a supplied value becomes, and that
    nothing else is written. */
module ArgumentLaws {
  import opened Bits
  import opened Errors
  import opened Schemas
  import opened Arguments

  /** The values that a field takes. */
  predicate Passable(f: Field, v: Json) {
    match f.ty
    case Null => v.JNull?
    case Bool => f.size >= 1 && v.JBool?
    case I32 =>
      && v.JNumber? && v.integer.Some?
      && (if f.enumRange.Some?
          then f.size >= 1 && f.enumRange.value.0 as int <= v.integer.value <= f.enumRange.value.1 as int
          else f.size >= 4 && -0x8000_0000 <= v.integer.value < 0x8000_0000)
    case I64 =>
      f.size >= 8 && v.JNumber? && v.integer.Some?
      && -0x8000_0000_0000_0000 <= v.integer.value < 0x8000_0000_0000_0000
    case F64 => f.size >= 8 && v.JNumber?
    case String => v.JString? && |v.utf8| <= f.size
    case Bytes => v.JString? && |v.utf8| <= f.size
    case Array => v.JArray? && |v.text| <= f.size
    case Object => v.JObject? && |v.text| <= f.size
  }

  /** The number of bytes that a value takes up in its field. */
  function Width(f: Field, v: Json): nat {
    match f.ty
    case Null => 0
    case Bool => 1
    case I32 => if f.enumRange.Some? then 1 else 4
    case I64 => 8
    case F64 => 8
    case String => if v.JString? then |v.utf8| else 0
    case Bytes => if v.JString? then |v.utf8| else 0
    case Array => if v.JArray? then |v.text| else 0
    case Object => if v.JObject? then |v.text| else 0
  }

  /** The bytes are the value: one byte for a boolean or a ranged integer, two's complement for other integers, the
      float image of a number, the text of everything else. */
  predicate Image(f: Field, v: Json, bs: seq<byte>) {
    |bs| == Width(f, v) &&
    match f.ty
    case Null => true
    case Bool => v.JBool? && bs[0] == if v.b then 1 else 0
    case I32 =>
      v.JNumber? && v.integer.Some?
      && v.integer.value == if f.enumRange.Some? then bs[0] else Signed(FromLe(bs), HALF32)
    case I64 => v.JNumber? && v.integer.Some? && Signed(FromLe(bs), HALF64) == v.integer.value
    case F64 => v.JNumber? && bs == v.float
    case String => v.JString? && bs == v.utf8
    case Bytes => v.JString? && bs == v.utf8
    case Array => v.JArray? && bs == v.text
    case Object => v.JObject? && bs == v.text
  }

  // ---- one value ----

  lemma BytesAreImage(f: Field, v: Json)
    ensures ArgumentBytes(f, v).Ok? <==> Passable(f, v)
    ensures ArgumentBytes(f, v).Ok? ==> Image(f, v, ArgumentBytes(f, v).value) && Width(f, v) <= f.size
  {
    hide FromLe, Le;
    if f.ty.I32? && f.enumRange.None? && Passable(f, v) { SignedRoundTrip(v.integer.value, HALF32, 4); }
    if f.ty.I64? && Passable(f, v) { SignedRoundTrip(v.integer.value, HALF64, 8); }
  }

  /** Why a value is refused. */
  lemma RefusalIsExact(f: Field, v: Json)
    requires !f.ty.Null?
    ensures ArgumentBytes(f, v) == Err(TooLarge) <==>
      || ((f.ty.String? || f.ty.Bytes?) && v.JString? && |v.utf8| > f.size)
      || (f.ty.Array? && v.JArray? && |v.text| > f.size)
      || (f.ty.Object? && v.JObject? && |v.text| > f.size)
    ensures ArgumentBytes(f, v) == Err(Dcp(ValidationFailed)) <==>
      || (f.ty.Bool? && f.size < 1)
      || (f.ty.I32? && f.size < if f.enumRange.Some? then 1 else 4)
      || ((f.ty.I64? || f.ty.F64?) && f.size < 8)
    ensures ArgumentBytes(f, v) == Err(OutOfRange) <==>
      && f.ty.I32? && f.size >= (if f.enumRange.Some? then 1 else 4) && v.JNumber? && v.integer.Some?
      && (if f.enumRange.Some?
          then 0 <= v.integer.value < 0x1_0000_0000_0000_0000
               && !(f.enumRange.value.0 as int <= v.integer.value <= f.enumRange.value.1 as int)
          else -0x8000_0000_0000_0000 <= v.integer.value < 0x8000_0000_0000_0000
               && !(-0x8000_0000 <= v.integer.value < 0x8000_0000))
    ensures ArgumentBytes(f, v).Err? ==>
      ArgumentBytes(f, v).error in [TooLarge, OutOfRange, TypeMismatch, Dcp(ValidationFailed)]
  {
    hide Le;
  }

  // ---- all arguments ----

  /** Writing one value into any buffer: the field must take it, and unless it is null it must fit the buffer. */
  lemma FieldIsWritten(buffer: seq<byte>, f: Field, v: Json)
    ensures var r := EncodeArgument(buffer, f, v);
      var fits := f.ty.Null? || f.offset + Width(f, v) <= |buffer|;
      && (r.Ok? <==> Passable(f, v) && fits)
      && (Passable(f, v) ==> Width(f, v) <= f.size && (!fits ==> r == Err(Dcp(OutOfBounds))))
      && (!Passable(f, v) ==> ArgumentBytes(f, v).Err? && r == Err(ArgumentBytes(f, v).error))
      && (r.Ok? ==> r.value == if f.ty.Null? then buffer
                               else buffer[..f.offset] + ArgumentBytes(f, v).value + buffer[f.offset + Width(f, v)..])
  {
    BytesAreImage(f, v);
    hide ArgumentBytes;
  }

  lemma {:induction false} RequiredIsBit(schema: Schema, k: nat)
    requires k < 64
    ensures IsRequired(schema, k) <==> Bit(schema.required, k)
  {
    AndPow2(schema.required, k);
  }

  /** The schema has a field of that name. */
  predicate HasField(schema: Schema, name: string) {
    exists f :: f in schema.fields && f.name == name
  }

  /** Field `k` of the schema is one of the first 16 and is given a value it takes, or none if it is not required. */
  predicate Served(schema: Schema, args: map<string, Json>, k: nat)
    requires k < |schema.fields|
  {
    k < 16 &&
    var f := schema.fields[k];
    if f.name in args then Passable(f, args[f.name]) else !Bit(schema.required, k)
  }

  /** Exactly which arguments are encoded: an object, or none at all, that names fields of the schema only and serves
      all of them. */
  lemma EncodesExactly(schema: Schema, arguments: Option<Json>)
    ensures Encode(schema, arguments).Ok? <==>
      && (arguments.Some? ==> arguments.value.JObject?)
      && (forall name :: name in Entries(arguments) ==> HasField(schema, name))
      && forall k :: 0 <= k < |schema.fields| ==> Served(schema, Entries(arguments), k)
  {
    hide EncodeFields, Passable, Bit;
    if arguments.Some? ==> arguments.value.JObject? {
      FieldsServedExactly(schema, Entries(arguments), 0, Zeros(MaxEnd(schema.fields, 0, 0)), 0);
      DeclaredIsField(schema, Entries(arguments));
    }
  }

  /** Why the others are refused: they are no object, name another field, or leave a first field unserved. */
  lemma EncodeRefusesExactly(schema: Schema, arguments: Option<Json>)
    ensures Encode(schema, arguments) == Err(NotAnObject) <==> arguments.Some? && !arguments.value.JObject?
    ensures (arguments.Some? ==> arguments.value.JObject?) ==>
      var r, args := Encode(schema, arguments), Entries(arguments);
      var known := forall name :: name in args ==> HasField(schema, name);
      && (r == Err(UnknownArgument) <==> !known)
      && (r.Err? && known ==>
            exists k :: FirstUnserved(schema, args, 0, k) && r.error == Refusal(schema, args, k))
  {
    hide EncodeFields, Served, Refusal;
    if arguments.Some? ==> arguments.value.JObject? {
      var args, data := Entries(arguments), Zeros(MaxEnd(schema.fields, 0, 0));
      FieldsServedExactly(schema, args, 0, data, 0);
      DeclaredIsField(schema, args);
      var r := EncodeFields(schema, args, 0, data, 0);
      if r.Err? {
        var k :| FirstUnserved(schema, args, 0, k) && r.error == Refusal(schema, args, k);
        RefusalIsOther(schema, args, k);
      }
    }
  }

  lemma DeclaredIsField(schema: Schema, args: map<string, Json>)
    ensures forall name :: name in args ==> (Declared(schema, name) <==> HasField(schema, name))
  {
    forall name | name in args ensures Declared(schema, name) <==> HasField(schema, name) {
      if k :| 0 <= k < |schema.fields| && schema.fields[k].name == name { assert schema.fields[k] in schema.fields; }
    }
  }

  /** Field `k` is the first from `i` on that is not served. */
  predicate FirstUnserved(schema: Schema, args: map<string, Json>, i: nat, k: nat) {
    i <= k < |schema.fields| && !Served(schema, args, k) && forall j :: i <= j < k ==> Served(schema, args, j)
  }

  /** Why a field is not served: it is too far back, its value is refused, or it has none. */
  function Refusal(schema: Schema, args: map<string, Json>, k: nat): ArgError
    requires k < |schema.fields| && !Served(schema, args, k)
  {
    var f := schema.fields[k];
    if k >= 16 then Dcp(ValidationFailed)
    else if f.name !in args then MissingRequired
    else
      BytesAreImage(f, args[f.name]);
      ArgumentBytes(f, args[f.name]).error
  }

  lemma StillFirst(schema: Schema, args: map<string, Json>, i: nat, k: nat)
    requires i < |schema.fields| && Served(schema, args, i) && FirstUnserved(schema, args, i + 1, k)
    ensures FirstUnserved(schema, args, i, k)
  {
    hide Served;
  }

  /** The first field that is not served decides the error. */
  lemma {:induction false} FieldsServedExactly(schema: Schema, args: map<string, Json>, i: nat, buffer: seq<byte>,
                                               layout: nat)
    requires i <= |schema.fields| && forall k :: 0 <= k < |schema.fields| ==> End(schema.fields[k]) <= |buffer|
    ensures var r := EncodeFields(schema, args, i, buffer, layout);
      && (r.Ok? ==> forall k :: i <= k < |schema.fields| ==> Served(schema, args, k))
      && (r.Err? ==> exists k :: FirstUnserved(schema, args, i, k) && r.error == Refusal(schema, args, k))
    decreases |schema.fields| - i
  {
    hide ArgumentBytes, Passable, Bit;
    if i < |schema.fields| {
      var f, r := schema.fields[i], EncodeFields(schema, args, i, buffer, layout);
      if i < MAX_FIELDS { RequiredIsBit(schema, i); }
      if i < MAX_FIELDS && f.name in args { FieldIsWritten(buffer, f, args[f.name]); }
      hide IsRequired, EncodeArgument;
      if Served(schema, args, i) {
        var next := if f.name in args then EncodeArgument(buffer, f, args[f.name]).value else buffer;
        var layout' := if f.name in args then Or(layout, Shl(Code(f.ty), 4 * i)) else layout;
        FieldsServedExactly(schema, args, i + 1, next, layout');
        assert r == EncodeFields(schema, args, i + 1, next, layout');
        hide Served, Refusal, FirstUnserved, EncodeFields;
        if r.Err? {
          var k :| FirstUnserved(schema, args, i + 1, k) && r.error == Refusal(schema, args, k);
          StillFirst(schema, args, i, k);
        }
      } else {
        assert FirstUnserved(schema, args, i, i);
        assert r == Err(Refusal(schema, args, i));
      }
    }
  }

  lemma RefusalIsOther(schema: Schema, args: map<string, Json>, k: nat)
    requires FirstUnserved(schema, args, 0, k)
    ensures Refusal(schema, args, k) !in [NotAnObject, UnknownArgument]
  {
    var f := schema.fields[k];
    if f.name in args { BytesAreImage(f, args[f.name]); }
  }

  /** Every supplied value is found in its field, in the bytes of its type. */
  lemma SuppliedImageReadsBack(schema: Schema, arguments: Option<Json>, k: nat)
    requires Regular(schema) && Encode(schema, arguments).Ok? && k < |schema.fields|
    requires arguments.Some? && arguments.value.JObject? && schema.fields[k].name in arguments.value.entries
    ensures var f, r := schema.fields[k], Encode(schema, arguments).value;
      var v := arguments.value.entries[f.name];
      var bs := ReadBytesAt(r, f.offset, Width(f, v));
      bs.Ok? && Image(f, v, bs.value)
  {
    hide Image, Width, ArgumentBytes, Encode, Regular;
    SuppliedBytesReadBack(schema, arguments, k);
    var f := schema.fields[k];
    BytesAreImage(f, arguments.value.entries[f.name]);
    ImageWidth(f, arguments.value.entries[f.name]);
  }

  lemma ImageWidth(f: Field, v: Json)
    ensures forall bs :: Image(f, v, bs) ==> |bs| == Width(f, v)
  {
  }

  // ---- and nothing else ----

  /** Position `p` lies in a value that the fields from `i` on are given. */
  predicate Given(schema: Schema, args: map<string, Json>, i: nat, p: nat) {
    exists k :: i <= k < |schema.fields| && GivenBy(schema, args, k, p)
  }

  predicate GivenBy(schema: Schema, args: map<string, Json>, k: nat, p: nat)
    requires k < |schema.fields|
  {
    var f := schema.fields[k];
    f.name in args && f.offset <= p < f.offset + Width(f, args[f.name])
  }

  lemma {:induction false} OthersStay(schema: Schema, args: map<string, Json>, i: nat, buffer: seq<byte>, layout: nat,
                                      p: nat)
    requires i <= |schema.fields| && forall k :: 0 <= k < |schema.fields| ==> End(schema.fields[k]) <= |buffer|
    requires EncodeFields(schema, args, i, buffer, layout).Ok? && p < |buffer| && !Given(schema, args, i, p)
    ensures EncodeFields(schema, args, i, buffer, layout).value.data[p] == buffer[p]
    decreases |schema.fields| - i
  {
    hide ArgumentBytes, IsRequired, Passable, Width, GivenBy;
    if i < |schema.fields| {
      var f := schema.fields[i];
      assert !Given(schema, args, i + 1, p);
      if f.name in args {
        assert !GivenBy(schema, args, i, p);
        FieldIsWritten(buffer, f, args[f.name]);
        WritingLeaves(schema, args, i, buffer, p);
        hide EncodeArgument;
        var next := EncodeArgument(buffer, f, args[f.name]).value;
        OthersStay(schema, args, i + 1, next, Or(layout, Shl(Code(f.ty), 4 * i)), p);
      } else {
        OthersStay(schema, args, i + 1, buffer, layout, p);
      }
    }
  }

  lemma WritingLeaves(schema: Schema, args: map<string, Json>, i: nat, buffer: seq<byte>, p: nat)
    requires i < |schema.fields| && End(schema.fields[i]) <= |buffer| && p < |buffer|
    requires var f := schema.fields[i]; f.name in args && EncodeArgument(buffer, f, args[f.name]).Ok?
    requires !GivenBy(schema, args, i, p)
    ensures var f := schema.fields[i]; EncodeArgument(buffer, f, args[f.name]).value[p] == buffer[p]
  {
    var f := schema.fields[i];
    BytesAreImage(f, args[f.name]);
    ImageWidth(f, args[f.name]);
    hide ArgumentBytes, Image, Width, Passable;
  }

  /** The data is as long as the fields reach, and zero wherever no supplied value lies. */
  lemma RestIsZero(schema: Schema, arguments: Option<Json>, p: nat)
    requires Encode(schema, arguments).Ok? && (arguments.Some? ==> arguments.value.JObject?)
    ensures var data := Encode(schema, arguments).value.data;
      && |data| == MaxEnd(schema.fields, 0, 0)
      && (p < |data| && !Given(schema, Entries(arguments), 0, p) ==> data[p] == 0)
  {
    hide EncodeFields, Given;
    var size := MaxEnd(schema.fields, 0, 0);
    if p < size && !Given(schema, Entries(arguments), 0, p) {
      OthersStay(schema, Entries(arguments), 0, Zeros(size), 0, p);
    }
  }

  /** The codes of the types are their places in the list of types. */
  lemma CodesAreOrdered()
    ensures [FromCode(0), FromCode(1), FromCode(2), FromCode(3), FromCode(4)]
         == [Some(Null), Some(Bool), Some(I32), Some(I64), Some(F64)]
    ensures [FromCode(5), FromCode(6), FromCode(7), FromCode(8)]
         == [Some(String), Some(Bytes), Some(Array), Some(Object)]
  {
  }
}
