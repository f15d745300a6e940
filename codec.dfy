/** What StructObject.unpack and StructObject.pack of pystructs/models.py compute,
    as functions of the layout, the bytes and the instance's state. The methods of
    Models.StructObject are proved to agree with them. */
module Codec {
  import opened Common
  import opened Bytes
  import opened Numerals
  import PyStruct
  import Fields
  import Utils
  import opened Schema

  /** A field whose value type is bytes (char and char[]): its one-element
      results stay tuples. */
  predicate IsBytesField(f: Field)
  {
    f.Prim? && Fields.IsBytesType(f.desc.kind)
  }

  /** The clean-up after each field: a count of 1, a type other than bytes and a
      tuple result leave the tuple's single element. */
  function Unwrap(f: Field, slot: Slot): (s: Slot)
    ensures s.count == slot.count
    ensures slot.val.Tuple? && |slot.val.items| == 1 && slot.count == 1 && !IsBytesField(f) ==>
      s.val == Scalar(slot.val.items[0])
    ensures !(slot.val.Tuple? && slot.count == 1 && !IsBytesField(f)) ==> s == slot
  {
    if slot.count == 1 && !IsBytesField(f) && slot.val.Tuple? && |slot.val.items| > 0
    then Slot(slot.count, Scalar(slot.val.items[0]))
    else slot
  }

  /** bytes.decode(encoding): an unknown name raises LookupError, bytes the codec
      rejects raise UnicodeError. */
  function DecodeText(env: Env, encoding: string, bs: seq<byte>): (r: Result<string>)
    ensures env.codecs(encoding).None? ==> r == Err(LookupError)
    ensures env.codecs(encoding).Some? ==>
      match env.codecs(encoding).value.decode(bs)
      case None => r == Err(UnicodeError)
      case Some(t) => r == Ok(t)
  {
    match env.codecs(encoding)
    case None => Err(LookupError)
    case Some(c) =>
      match c.decode(bs)
      case None => Err(UnicodeError)
      case Some(t) => Ok(t)
  }

  /** bytes(text, encoding). */
  function EncodeText(env: Env, encoding: string, text: string): (r: Result<seq<byte>>)
    ensures env.codecs(encoding).None? ==> r == Err(LookupError)
    ensures env.codecs(encoding).Some? ==>
      match env.codecs(encoding).value.encode(text)
      case None => r == Err(UnicodeError)
      case Some(bs) => r == Ok(bs)
  {
    match env.codecs(encoding)
    case None => Err(LookupError)
    case Some(c) =>
      match c.encode(text)
      case None => Err(UnicodeError)
      case Some(bs) => Ok(bs)
  }

  /** The first element of an unpacked tuple, as bytes ('s' yields one). */
  function FirstBytes(items: seq<PyStruct.Item>): (r: Result<seq<byte>>)
    ensures r.Ok? <==> |items| > 0 && items[0].Raw?
    ensures r.Ok? ==> r.value == items[0].bytes
  {
    if |items| == 0 then Err(IndexError)
    else if items[0].Raw? then Ok(items[0].bytes)
    else Err(StructError)
  }

  /** field.encoding: the char[] descriptor's encoding; any other descriptor
      class has no such attribute. */
  function Encoding(d: Fields.Descriptor<SizeOf>): (r: Result<Option<string>>)
    ensures r.Ok? <==> d.kind == Fields.CharArray
    ensures r.Ok? ==> r.value == d.encoding
    ensures r.Err? ==> r.error == AttributeError
  {
    if Fields.HasEncoding(d.kind) then Ok(d.encoding) else Err(AttributeError)
  }

  /** Whether _unpack_sizeof decodes the field's bytes to text. */
  predicate DecodesText(d: Fields.Descriptor<SizeOf>)
  {
    Fields.IsBytesType(d.kind) && Fields.HasEncoding(d.kind) && d.encoding.Some?
  }

  /** The plain case of unpack's loop: the window is _size*count bytes, read
      with (field.byte_order or BYTE_ORDER) + field.format. */
  function UnpackFixed(env: Env, order: PyStruct.OrderChar, d: Fields.Descriptor<SizeOf>, data: seq<byte>, off: nat): (r: Result<(Slot, nat)>)
    ensures r.Ok? ==> r.value.0.count == d.count >= 0 && r.value.0.val.Tuple?
    ensures r.Ok? ==> r.value.1 == off + Fields.ElemSize(d) * d.count >= off
    ensures d.count < 0 ==> r == Err(StructError)
  {
    if d.count < 0 then Err(StructError)
    else
      var n: nat := Fields.ElemSize(d) * d.count;
      var slot :- UnpackWindow(env, order, d, Utils.PySlice(data, off, off + n));
      Ok((slot, off + n))
  }

  /** struct.unpack(order + field.format, chunk), kept as the field's tuple: the
      format's one code decoded in the byte order the prefix selects (see
      UnpackWindowIsStructUnpack). */
  function UnpackWindow(env: Env, order: PyStruct.OrderChar, d: Fields.Descriptor<SizeOf>, chunk: seq<byte>): (r: Result<Slot>)
    requires d.count >= 0
    ensures r.Ok? ==> r.value.count == d.count && r.value.val.Tuple?
  {
    var items :- PyStruct.UnpackCodes(Fields.Codes(d), PyStruct.LittleEndian(env.nativeLittle, [order]), chunk);
    Ok(Slot(d.count, Tuple(items)))
  }

  /** The window is read exactly as struct.unpack reads it with the prefixed
      format of the descriptor. */
  lemma UnpackWindowIsStructUnpack(env: Env, order: PyStruct.OrderChar, d: Fields.Descriptor<SizeOf>, chunk: seq<byte>)
    requires d.count >= 0
    ensures UnpackWindow(env, order, d, chunk) ==
      match PyStruct.Unpack(env.nativeLittle, [order] + Fields.Format(d), chunk)
      case Ok(items) => Ok(Slot(d.count, Tuple(items)))
      case Err(e) => Err(e)
  {
    Fields.FormatParses(d);
    PyStruct.UnpackPrefixed(env.nativeLittle, order, Fields.Format(d), chunk);
  }

  /** A negative count makes the prefixed format a bad one for struct.unpack and
      struct.pack alike, which is the error the plain case raises. */
  lemma NegativeCountIsBadFormat(env: Env, order: PyStruct.OrderChar, d: Fields.Descriptor<SizeOf>,
                                 chunk: seq<byte>, args: seq<PyStruct.Arg>)
    requires d.count < 0
    ensures PyStruct.Unpack(env.nativeLittle, [order] + Fields.Format(d), chunk) == Err(StructError)
    ensures PyStruct.Pack(env.nativeLittle, [order] + Fields.Format(d), args) == Err(StructError)
  {
    Fields.FormatParses(d);
    PyStruct.UnpackPrefixed(env.nativeLittle, order, Fields.Format(d), chunk);
    PyStruct.PackPrefixed(env.nativeLittle, order, Fields.Format(d), args);
  }

  /** _unpack_sizeof once the callback, shown the instance as it stands, has
      given the count that replaces the field's: the field is read as in the
      plain case at that count but always with the struct's BYTE_ORDER (never
      the field's own). A bytes-typed field then has its encoding looked up: a
      char[] with an encoding is decoded to text, and a char, which has no
      encoding attribute, raises AttributeError (see SizeofNeedsEncoding). */
  function UnpackSizeof(env: Env, order: PyStruct.OrderChar, d: Fields.Descriptor<SizeOf>, count: int,
                        data: seq<byte>, off: nat): (r: Result<(Slot, nat)>)
    ensures r.Ok? ==> r.value.0.count == count >= 0
    ensures r.Ok? ==> r.value.1 == off + Fields.ElemSize(d) * count >= off
    ensures count < 0 ==> r == Err(StructError)
  {
    assert Fields.ElemSize(d.(count := count)) == Fields.ElemSize(d);
    var res :- UnpackFixed(env, order, d.(count := count), data, off);
    if Fields.IsBytesType(d.kind) then
      var encoding :- Encoding(d);
      if encoding.Some? then
        var raw :- FirstBytes(res.0.val.items);
        var text :- DecodeText(env, encoding.value, raw);
        Ok((Slot(count, Text(text)), res.1))
      else
        Ok(res)
    else
      Ok(res)
  }

  /** A bytes-typed sizeof field that is not a char[] (a char) never unpacks:
      once its window is read, looking up its encoding raises AttributeError. */
  lemma SizeofNeedsEncoding(env: Env, order: PyStruct.OrderChar, d: Fields.Descriptor<SizeOf>, count: int,
                            data: seq<byte>, off: nat)
    requires Fields.IsBytesType(d.kind) && !Fields.HasEncoding(d.kind)
    ensures UnpackSizeof(env, order, d, count, data, off).Err?
    ensures UnpackSizeof(env, order, d, count, data, off) == Err(AttributeError) <==>
      UnpackFixed(env, order, d.(count := count), data, off).Ok?
  {
    var fixed := UnpackFixed(env, order, d.(count := count), data, off);
    if fixed.Ok? {
      assert Encoding(d) == Err(AttributeError);
    } else {
      assert fixed.error != AttributeError;
    }
  }

  /** The nested-struct case of unpack's loop: the nested instance, in state
      init, unpacks a window of size*count bytes as a stream of its own. */
  function UnpackNested(env: Env, sub: Layout, count: nat, init: seq<Slot>, data: seq<byte>, off: nat): (r: Result<(Slot, nat)>)
    requires |init| == |sub.fields|
    ensures r.Ok? ==> r.value.0.count == count && r.value.0.val.Struct?
    ensures r.Ok? ==> r.value.1 == off + Size(sub) * count >= off
    decreases sub, |sub.fields| + 2
  {
    var n: nat := Size(sub) * count;
    var inner :- UnpackLayout(env, sub, init, Utils.PySlice(data, off, off + n), 0);
    Ok((Slot(count, Struct(inner.0)), off + n))
  }

  /** One iteration of unpack's loop, for field i of an instance of L in state
      cur whose stream stands at offset off: the field's new state and the offset
      after it. */
  function UnpackField(env: Env, L: Layout, i: nat, cur: seq<Slot>, data: seq<byte>, off: nat): (r: Result<(Slot, nat)>)
    requires i < |L.fields| && |cur| == |L.fields|
    ensures r.Ok? ==> r.value.1 >= off
    decreases L, i
  {
    var f := L.fields[i];
    match f
    case Nested(sub, count, _) =>
      assert f in L.fields;
      var res :- UnpackNested(env, sub, count, NestedSlots(sub, cur[i].val), data, off);
      Ok((Unwrap(f, res.0), res.1))
    case Prim(d) =>
      if d.sizeof.Some? then
        var res :- UnpackSizeof(env, L.order, d, d.sizeof.value(cur), data, off);
        Ok((Unwrap(f, res.0), res.1))
      else
        var res :- UnpackFixed(env, FieldOrder(f, L), d, data, off);
        Ok((Unwrap(f, res.0), res.1))
  }

  /** The first k iterations of unpack's loop on an instance that was in state
      init, from offset off: the first k fields' new states (the others keep
      theirs) and the offset reached. */
  function UnpackUpTo(env: Env, L: Layout, init: seq<Slot>, data: seq<byte>, off: nat, k: nat): (r: Result<(seq<Slot>, nat)>)
    requires k <= |L.fields| && |init| == |L.fields|
    ensures r.Ok? ==> |r.value.0| == k && r.value.1 >= off
    decreases L, k
  {
    if k == 0 then Ok(([], off))
    else
      var prev :- UnpackUpTo(env, L, init, data, off, k - 1);
      var next :- UnpackField(env, L, k - 1, prev.0 + init[k - 1..], data, prev.1);
      Ok((prev.0 + [next.0], next.1))
  }

  /** unpack(stream) on an instance in state init whose stream stands at off:
      every field's new state and the offset the stream is left at. */
  function UnpackLayout(env: Env, L: Layout, init: seq<Slot>, data: seq<byte>, off: nat): (r: Result<(seq<Slot>, nat)>)
    requires |init| == |L.fields|
    ensures r.Ok? ==> |r.value.0| == |L.fields| && r.value.1 >= off
    decreases L, |L.fields| + 1
  {
    UnpackUpTo(env, L, init, data, off, |L.fields|)
  }

  /** What struct.pack makes of a field value spread out of a nested instance:
      ints, bools and bytes are themselves, anything else only has a truth value. */
  function AsArg(v: Value): (a: PyStruct.Arg)
    ensures v.Scalar? <==> a.Obj?
    ensures v.Scalar? ==> a.item == v.item
  {
    match v
    case Scalar(item) => PyStruct.Obj(item)
    case Unset => PyStruct.Other(false)
    case Tuple(items) => PyStruct.Other(|items| > 0)
    case Text(t) => PyStruct.Other(|t| > 0)
    case Struct(_) => PyStruct.Other(true)
  }

  /** [f.val for f in nested fields]. */
  function ValueArgs(slots: seq<Slot>): (args: seq<PyStruct.Arg>)
    ensures |args| == |slots|
    ensures forall j :: 0 <= j < |slots| ==> args[j] == AsArg(slots[j].val)
  {
    seq(|slots|, j requires 0 <= j < |slots| => AsArg(slots[j].val))
  }

  /** field.encoding or 'utf-8', the encoding pack uses for text: a char[]
      field's encoding unless it is None or empty (both are false), else utf-8.
      A nested struct or a descriptor of another class has no encoding
      attribute. */
  function TextEncoding(f: Field): (r: Result<string>)
    ensures r.Ok? <==> f.Prim? && f.desc.kind == Fields.CharArray
    ensures r.Err? ==> r.error == AttributeError
    ensures r.Ok? && f.desc.encoding.Some? && f.desc.encoding.value != [] ==> r.value == f.desc.encoding.value
    ensures r.Ok? && (f.desc.encoding.None? || f.desc.encoding.value == []) ==> r.value == Utils.DefaultEncoding
  {
    match f
    case Nested(_, _, _) => Err(AttributeError)
    case Prim(d) =>
      var encoding :- Encoding(d);
      if encoding.Some? && encoding.value != [] then Ok(encoding.value) else Ok(Utils.DefaultEncoding)
  }

  /** struct.pack((field.byte_order or BYTE_ORDER) + field.format, *args) for
      field i at the slot's count: a descriptor's format is its one code, packed
      in the byte order the prefix selects, and a nested struct's format is its
      members' formats run together (see PackArgsIsStructPack). */
  function PackArgs(env: Env, L: Layout, i: nat, slot: Slot, args: seq<PyStruct.Arg>): (r: Result<seq<byte>>)
    requires i < |L.fields|
  {
    var f := L.fields[i];
    match f
    case Prim(d) =>
      if slot.count < 0 then Err(StructError)
      else PyStruct.PackCodes(Fields.Codes(d.(count := slot.count)), PyStruct.LittleEndian(env.nativeLittle, [FieldOrder(f, L)]), args)
    case Nested(_, _, _) => PyStruct.Pack(env.nativeLittle, [FieldOrder(f, L)] + FieldFormat(L, i, slot), args)
  }

  /** Field i is packed exactly as struct.pack packs it with the prefixed format. */
  lemma PackArgsIsStructPack(env: Env, L: Layout, i: nat, slot: Slot, args: seq<PyStruct.Arg>)
    requires i < |L.fields|
    ensures PackArgs(env, L, i, slot, args) ==
      PyStruct.Pack(env.nativeLittle, [FieldOrder(L.fields[i], L)] + FieldFormat(L, i, slot), args)
  {
    var f := L.fields[i];
    if f.Prim? {
      var d' := f.desc.(count := slot.count);
      assert FieldFormat(L, i, slot) == Fields.Format(d');
      Fields.FormatParses(d');
      PyStruct.PackPrefixed(env.nativeLittle, FieldOrder(f, L), Fields.Format(d'), args);
    }
  }

  /** The arguments pack hands to struct.pack for a field value: a nested
      instance's member values, text encoded to bytes (with the field's
      encoding or utf-8), a tuple's elements, or the value itself. */
  function FieldArgs(env: Env, f: Field, v: Value): (r: Result<seq<PyStruct.Arg>>)
    ensures v.Struct? ==> r == Ok(ValueArgs(v.slots))
    ensures v.Tuple? ==> r == Ok(PyStruct.Args(v.items))
    ensures v.Scalar? ==> r == Ok([PyStruct.Obj(v.item)])
    ensures v.Unset? ==> r == Ok([PyStruct.Other(false)])
    ensures v.Text? ==> r == (var name :- TextEncoding(f); var bs :- EncodeText(env, name, v.text); Ok([PyStruct.Obj(PyStruct.Raw(bs))]))
  {
    match v
    case Struct(inner) => Ok(ValueArgs(inner))
    case Text(t) =>
      var name :- TextEncoding(f);
      var bs :- EncodeText(env, name, t);
      Ok([PyStruct.Obj(PyStruct.Raw(bs))])
    case Tuple(items) => Ok(PyStruct.Args(items))
    case Scalar(item) => Ok([PyStruct.Obj(item)])
    case Unset => Ok([PyStruct.Other(false)])
  }

  /** One iteration of pack's loop: the bytes field i contributes, packed with
      (field.byte_order or BYTE_ORDER) + field.format and the arguments the
      value's shape selects. */
  function PackField(env: Env, L: Layout, i: nat, slot: Slot): (r: Result<seq<byte>>)
    requires i < |L.fields|
  {
    var args :- FieldArgs(env, L.fields[i], slot.val);
    PackArgs(env, L, i, slot, args)
  }

  /** The output of pack's loop after the fields whose states are done. */
  function PackUpTo(env: Env, L: Layout, done: seq<Slot>): (r: Result<seq<byte>>)
    requires |done| <= |L.fields|
  {
    if done == [] then Ok([])
    else
      var k := |done| - 1;
      var prev :- PackUpTo(env, L, done[..k]);
      var next :- PackField(env, L, k, done[k]);
      Ok(prev + next)
  }

  /** pack(): the fields' bytes concatenated in declaration order. */
  function Pack(env: Env, L: Layout, slots: seq<Slot>): (r: Result<seq<byte>>)
    requires |slots| == |L.fields|
  {
    PackUpTo(env, L, slots)
  }

  // ---------------------------------------------------------------------------
  // Errors end the loops

  /** Once a field fails to unpack, the whole unpack fails with its error. */
  lemma {:induction false} UnpackErrorPersists(env: Env, L: Layout, init: seq<Slot>, data: seq<byte>, off: nat, k: nat, n: nat)
    requires k <= n <= |L.fields| && |init| == |L.fields|
    requires UnpackUpTo(env, L, init, data, off, k).Err?
    ensures UnpackUpTo(env, L, init, data, off, n) == UnpackUpTo(env, L, init, data, off, k)
    decreases n
  {
    if k < n {
      UnpackErrorPersists(env, L, init, data, off, k, n - 1);
    }
  }

  /** A pack loop whose earlier fields failed fails with their error. */
  lemma PackStepErr(env: Env, L: Layout, done: seq<Slot>)
    requires 0 < |done| <= |L.fields|
    requires PackUpTo(env, L, done[..|done| - 1]).Err?
    ensures PackUpTo(env, L, done) == PackUpTo(env, L, done[..|done| - 1])
  {
  }

  /** Once a field fails to pack, the whole pack fails with its error. */
  lemma {:induction false} PackErrorPersists(env: Env, L: Layout, slots: seq<Slot>, k: nat, n: nat)
    requires k <= n <= |slots| == |L.fields|
    requires PackUpTo(env, L, slots[..k]).Err?
    ensures PackUpTo(env, L, slots[..n]) == PackUpTo(env, L, slots[..k])
    decreases n
  {
    if k < n {
      PackErrorPersists(env, L, slots, k, n - 1);
      var done := slots[..n];
      assert done[..n - 1] == slots[..n - 1];
      PackStepErr(env, L, done);
    }
  }
}
