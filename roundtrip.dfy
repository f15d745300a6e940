/** What unpack and pack promise together: on a struct whose fields pack can
    write back faithfully, pack returns exactly the bytes unpack consumed, and
    unpack reads nothing outside the windows it consumed. */
module RoundTrip {
  import opened Common
  import opened Bytes
  import opened Numerals
  import PyStruct
  import Fields
  import Utils
  import opened Schema
  import opened Codec

  // ---------------------------------------------------------------------------
  // Which structs pack writes back faithfully

  /** Two byte-order characters select the same endianness. */
  predicate SameEndianness(env: Env, p: PyStruct.OrderChar, q: PyStruct.OrderChar)
  {
    PyStruct.LittleEndian(env.nativeLittle, [p]) == PyStruct.LittleEndian(env.nativeLittle, [q])
  }

  /** The integer kinds of the catalog (not char, bool or char[]). */
  predicate IsIntKind(k: Fields.Kind)
  {
    k != Fields.Char && k != Fields.Bool && k != Fields.CharArray
  }

  /** A member of a nested struct that pack, which writes the whole nested struct
      with one format and one byte order (outer), puts back as it was read: an
      integer field of count 1 without sizeof whose own byte order agrees with
      outer, unless it is one byte wide. */
  predicate FlatMember(env: Env, sub: Layout, f: Field, outer: PyStruct.OrderChar)
  {
    f.Prim? && IsIntKind(f.desc.kind) && f.desc.count == 1 && f.desc.sizeof.None? &&
    (Fields.Width(f.desc.kind) == 1 || SameEndianness(env, FieldOrder(f, sub), outer))
  }

  /** A field pack writes back as unpack read it: no bool (pack writes every true value as 0x01); a
      sizeof field, which unpack reads in the struct's order and pack writes in
      its own, has a one-byte element or both orders agree; a decoded char[]
      has a registered codec whose encode undoes its decode; a nested struct has
      count 1 and flat members. */
  ghost predicate CanonicalField(env: Env, L: Layout, f: Field)
  {
    match f
    case Prim(d) =>
      d.kind != Fields.Bool &&
      (d.sizeof.Some? ==>
        Fields.Width(d.kind) <= 1 || SameEndianness(env, L.order, FieldOrder(f, L))) &&
      (d.sizeof.Some? && d.encoding.Some? ==>
        d.kind == Fields.CharArray && env.codecs(d.encoding.value).Some? &&
        Utils.Reversible(env.codecs(d.encoding.value).value))
    case Nested(sub, count, _) =>
      count == 1 &&
      forall j :: 0 <= j < |sub.fields| ==> FlatMember(env, sub, sub.fields[j], FieldOrder(f, L))
  }

  ghost predicate Canonical(env: Env, L: Layout)
  {
    forall j :: 0 <= j < |L.fields| ==> CanonicalField(env, L, L.fields[j])
  }

  // ---------------------------------------------------------------------------
  // One descriptor

  /** A window that comes back whole lies inside the data. */
  lemma WholeWindow(data: seq<byte>, off: nat, n: nat)
    requires off <= |data| && |Utils.PySlice(data, off, off + n)| == n
    ensures off + n <= |data| && Utils.PySlice(data, off, off + n) == data[off..off + n]
  {
  }

  /** The size and the argument count of a descriptor's one code. */
  lemma CodeMeasures(d: Fields.Descriptor<SizeOf>)
    requires d.count >= 0
    ensures var c := PyStruct.Code(d.count, Fields.Fmt(d.kind));
      && PyStruct.CalcSize([c]) == (if d.kind == Fields.CharArray then d.count else Fields.Width(d.kind) * d.count)
      && PyStruct.ArgCount([c]) == (if d.kind == Fields.CharArray then 1 else d.count)
  {
    var c := PyStruct.Code(d.count, Fields.Fmt(d.kind));
    Fields.FmtIsStructCode(d.kind);
    assert PyStruct.CalcSize([c]) == PyStruct.CodeSize(c) + PyStruct.CalcSize([]);
    assert PyStruct.ArgCount([c]) == PyStruct.ItemsIn(c) + PyStruct.ArgCount([]);
  }

  /** unpack with a descriptor's code accepts exactly the windows of
      ElemSize*count bytes, as long as none wider is offered. */
  lemma PrimLength(env: Env, p: PyStruct.OrderChar, d: Fields.Descriptor<SizeOf>, chunk: seq<byte>)
    requires d.count >= 0
    requires |chunk| <= Fields.ElemSize(d) * d.count
    requires PyStruct.UnpackCodes(Fields.Codes(d), PyStruct.LittleEndian(env.nativeLittle, [p]), chunk).Ok?
    ensures |chunk| == Fields.ElemSize(d) * d.count
  {
    var c := PyStruct.Code(d.count, Fields.Fmt(d.kind));
    PyStruct.UnpackOneCode(c, PyStruct.LittleEndian(env.nativeLittle, [p]), chunk);
    WindowLength(d, |chunk|);
  }

  /** A window no longer than ElemSize*count that holds the descriptor's code
      exactly is ElemSize*count bytes long (a char[] without sizeof has an
      element size of 0, so its code fits only at count 0). */
  lemma WindowLength(d: Fields.Descriptor<SizeOf>, len: nat)
    requires d.count >= 0 && len <= Fields.ElemSize(d) * d.count
    requires len == PyStruct.CodeSize(PyStruct.Code(d.count, Fields.Fmt(d.kind)))
    ensures len == Fields.ElemSize(d) * d.count
  {
    Fields.FmtIsStructCode(d.kind);
    if d.kind == Fields.CharArray {
      Fields.Widths();
    }
  }

  /** pack with a descriptor's code in order q writes back what unpack read
      with the same code in order p. */
  lemma PrimPack(env: Env, p: PyStruct.OrderChar, q: PyStruct.OrderChar, d: Fields.Descriptor<SizeOf>, chunk: seq<byte>)
    requires d.count >= 0 && d.kind != Fields.Bool
    requires PyStruct.OrderCompatible(Fields.Fmt(d.kind),
      PyStruct.LittleEndian(env.nativeLittle, [p]), PyStruct.LittleEndian(env.nativeLittle, [q]))
    requires PyStruct.UnpackCodes(Fields.Codes(d), PyStruct.LittleEndian(env.nativeLittle, [p]), chunk).Ok?
    ensures var items := PyStruct.UnpackCodes(Fields.Codes(d), PyStruct.LittleEndian(env.nativeLittle, [p]), chunk).value;
      PyStruct.PackCodes(Fields.Codes(d), PyStruct.LittleEndian(env.nativeLittle, [q]), PyStruct.Args(items)) == Ok(chunk)
  {
    Fields.FmtIsStructCode(d.kind);
    PyStruct.CodesUnpackPack(Fields.Codes(d), PyStruct.LittleEndian(env.nativeLittle, [p]),
      PyStruct.LittleEndian(env.nativeLittle, [q]), chunk);
  }

  /** The tuple unpack returns for a descriptor: one bytes object for a char[],
      one element for a count of 1. */
  lemma PrimItems(env: Env, p: PyStruct.OrderChar, d: Fields.Descriptor<SizeOf>, chunk: seq<byte>)
    requires d.count >= 0
    requires PyStruct.UnpackCodes(Fields.Codes(d), PyStruct.LittleEndian(env.nativeLittle, [p]), chunk).Ok?
    ensures var items := PyStruct.UnpackCodes(Fields.Codes(d), PyStruct.LittleEndian(env.nativeLittle, [p]), chunk).value;
      && (d.kind == Fields.CharArray ==> items == [PyStruct.Raw(chunk)])
      && (d.count == 1 ==> |items| == 1)
  {
    var c := PyStruct.Code(d.count, Fields.Fmt(d.kind));
    CodeMeasures(d);
    Fields.FmtIsStructCode(d.kind);
    PyStruct.UnpackOneCode(c, PyStruct.LittleEndian(env.nativeLittle, [p]), chunk);
  }

  /** A descriptor read in order p from a window of at most ElemSize*count
      bytes is written back from the unpacked tuple in order q: the window was
      whole and pack reproduces it. A char[] window comes back as the one bytes
      object it holds. */
  lemma PrimRoundTrip(env: Env, p: PyStruct.OrderChar, q: PyStruct.OrderChar, d: Fields.Descriptor<SizeOf>, chunk: seq<byte>)
    requires d.count >= 0 && d.kind != Fields.Bool
    requires PyStruct.OrderCompatible(Fields.Fmt(d.kind),
      PyStruct.LittleEndian(env.nativeLittle, [p]), PyStruct.LittleEndian(env.nativeLittle, [q]))
    requires |chunk| <= Fields.ElemSize(d) * d.count
    requires PyStruct.UnpackCodes(Fields.Codes(d), PyStruct.LittleEndian(env.nativeLittle, [p]), chunk).Ok?
    ensures |chunk| == Fields.ElemSize(d) * d.count
    ensures var items := PyStruct.UnpackCodes(Fields.Codes(d), PyStruct.LittleEndian(env.nativeLittle, [p]), chunk).value;
      && PyStruct.PackCodes(Fields.Codes(d), PyStruct.LittleEndian(env.nativeLittle, [q]), PyStruct.Args(items)) == Ok(chunk)
      && (d.kind == Fields.CharArray ==> items == [PyStruct.Raw(chunk)])
      && (d.count == 1 ==> |items| == 1)
  {
    PrimLength(env, p, d, chunk);
    PrimPack(env, p, q, d, chunk);
    PrimItems(env, p, d, chunk);
  }

  // ---------------------------------------------------------------------------
  // One field of the struct

  /** What pack's loop does with the state unpack left in a descriptor field
      whose tuple was unwrapped or not: it packs the tuple's elements with the
      field's order and its code at the new count. */
  lemma PackPrim(env: Env, L: Layout, i: nat, count: nat, items: seq<PyStruct.Item>)
    requires i < |L.fields| && L.fields[i].Prim?
    requires count == 1 ==> |items| == 1
    ensures PackField(env, L, i, Unwrap(L.fields[i], Slot(count, Tuple(items)))) ==
      PyStruct.PackCodes(Fields.Codes(L.fields[i].desc.(count := count)),
        PyStruct.LittleEndian(env.nativeLittle, [FieldOrder(L.fields[i], L)]), PyStruct.Args(items))
  {
    var slot := Unwrap(L.fields[i], Slot(count, Tuple(items)));
    if slot.val.Scalar? {
      assert PyStruct.Args(items) == [PyStruct.Obj(items[0])];
    }
  }

  /** The plain case of unpack's loop is UnpackFixed followed by the unwrapping. */
  lemma UnpackFieldFixed(env: Env, L: Layout, i: nat, cur: seq<Slot>, data: seq<byte>, off: nat)
    requires i < |L.fields| && |cur| == |L.fields|
    requires L.fields[i].Prim? && L.fields[i].desc.sizeof.None?
    requires UnpackField(env, L, i, cur, data, off).Ok?
    ensures var r := UnpackFixed(env, FieldOrder(L.fields[i], L), L.fields[i].desc, data, off);
      r.Ok? && UnpackField(env, L, i, cur, data, off).value == (Unwrap(L.fields[i], r.value.0), r.value.1)
  {
  }

  /** The plain case of unpack's loop succeeds only on a whole window. */
  lemma FixedWindow(env: Env, p: PyStruct.OrderChar, d: Fields.Descriptor<SizeOf>, data: seq<byte>, off: nat)
    requires off <= |data|
    requires UnpackFixed(env, p, d, data, off).Ok?
    ensures d.count >= 0 && off + Fields.ElemSize(d) * d.count <= |data|
    ensures var chunk := data[off..off + Fields.ElemSize(d) * d.count];
      var u := PyStruct.UnpackCodes(Fields.Codes(d), PyStruct.LittleEndian(env.nativeLittle, [p]), chunk);
      u.Ok? && UnpackFixed(env, p, d, data, off) == Ok((Slot(d.count, Tuple(u.value)), off + Fields.ElemSize(d) * d.count))
  {
    var n: nat := Fields.ElemSize(d) * d.count;
    var chunk := Utils.PySlice(data, off, off + n);
    PrimLength(env, p, d, chunk);
    WholeWindow(data, off, n);
  }

  /** The plain case of unpack's loop on a descriptor other than bool, read
      with order p: the window was whole, and pack with an order q of the same
      byte order for this code reproduces it from the tuple read. */
  lemma FixedCore(env: Env, p: PyStruct.OrderChar, q: PyStruct.OrderChar, d: Fields.Descriptor<SizeOf>, data: seq<byte>, off: nat)
    requires d.kind != Fields.Bool && off <= |data|
    requires PyStruct.OrderCompatible(Fields.Fmt(d.kind),
      PyStruct.LittleEndian(env.nativeLittle, [p]), PyStruct.LittleEndian(env.nativeLittle, [q]))
    requires UnpackFixed(env, p, d, data, off).Ok?
    ensures d.count >= 0 && off + Fields.ElemSize(d) * d.count <= |data|
    ensures var chunk := data[off..off + Fields.ElemSize(d) * d.count];
      var items := PyStruct.UnpackCodes(Fields.Codes(d), PyStruct.LittleEndian(env.nativeLittle, [p]), chunk).value;
      && UnpackFixed(env, p, d, data, off) == Ok((Slot(d.count, Tuple(items)), off + Fields.ElemSize(d) * d.count))
      && PyStruct.PackCodes(Fields.Codes(d), PyStruct.LittleEndian(env.nativeLittle, [q]), PyStruct.Args(items)) == Ok(chunk)
      && (d.kind == Fields.CharArray ==> items == [PyStruct.Raw(chunk)])
      && (d.count == 1 ==> |items| == 1)
  {
    FixedWindow(env, p, d, data, off);
    PrimRoundTrip(env, p, q, d, data[off..off + Fields.ElemSize(d) * d.count]);
  }

  /** pack of a plain descriptor field whose tuple its own code packs to
      chunk: chunk, whether or not the tuple was unwrapped. */
  lemma PackItems(env: Env, L: Layout, i: nat, count: nat, items: seq<PyStruct.Item>, chunk: seq<byte>)
    requires i < |L.fields| && L.fields[i].Prim?
    requires count == 1 ==> |items| == 1
    requires PyStruct.PackCodes(Fields.Codes(L.fields[i].desc.(count := count)),
      PyStruct.LittleEndian(env.nativeLittle, [FieldOrder(L.fields[i], L)]), PyStruct.Args(items)) == Ok(chunk)
    ensures PackField(env, L, i, Unwrap(L.fields[i], Slot(count, Tuple(items)))) == Ok(chunk)
  {
    PackPrim(env, L, i, count, items);
  }

  /** What pack makes of the state the plain case leaves: the bytes it read. */
  lemma FixedPacksBack(env: Env, L: Layout, i: nat, data: seq<byte>, off: nat)
    requires i < |L.fields| && off <= |data|
    requires L.fields[i].Prim? && L.fields[i].desc.kind != Fields.Bool
    requires UnpackFixed(env, FieldOrder(L.fields[i], L), L.fields[i].desc, data, off).Ok?
    ensures var (slot, end) := UnpackFixed(env, FieldOrder(L.fields[i], L), L.fields[i].desc, data, off).value;
      end <= |data| && PackField(env, L, i, Unwrap(L.fields[i], slot)) == Ok(data[off..end])
  {
    var d := L.fields[i].desc;
    var p := FieldOrder(L.fields[i], L);
    FixedCore(env, p, p, d, data, off);
    var n := Fields.ElemSize(d) * d.count;
    var chunk := data[off..off + n];
    var items := PyStruct.UnpackCodes(Fields.Codes(d), PyStruct.LittleEndian(env.nativeLittle, [p]), chunk).value;
    assert d.(count := d.count) == d;
    PackItems(env, L, i, d.count, items, chunk);
    assert UnpackFixed(env, p, d, data, off).value == (Slot(d.count, Tuple(items)), off + n);
  }

  /** A plain descriptor field: pack writes back the window unpack consumed. */
  lemma FixedRoundTrip(env: Env, L: Layout, i: nat, cur: seq<Slot>, data: seq<byte>, off: nat)
    requires i < |L.fields| && |cur| == |L.fields| && off <= |data|
    requires L.fields[i].Prim? && L.fields[i].desc.sizeof.None?
    requires CanonicalField(env, L, L.fields[i])
    requires UnpackField(env, L, i, cur, data, off).Ok?
    ensures var (slot, end) := UnpackField(env, L, i, cur, data, off).value;
      end <= |data| && PackField(env, L, i, slot) == Ok(data[off..end])
  {
    UnpackFieldFixed(env, L, i, cur, data, off);
    FixedPacksBack(env, L, i, data, off);
  }

  /** A char[] field holding text decoded by a reversible codec from a window:
      pack encodes it back to the window's bytes and packs those. */
  lemma PackText(env: Env, L: Layout, i: nat, count: nat, chunk: seq<byte>, text: string)
    requires i < |L.fields| && L.fields[i].Prim? && L.fields[i].desc.kind == Fields.CharArray
    requires L.fields[i].desc.encoding.Some?
    requires env.codecs(L.fields[i].desc.encoding.value).Some?
    requires Utils.Reversible(env.codecs(L.fields[i].desc.encoding.value).value)
    requires env.codecs(L.fields[i].desc.encoding.value).value.decode(chunk) == Some(text)
    ensures PackField(env, L, i, Slot(count, Text(text))) ==
      PyStruct.PackCodes(Fields.Codes(L.fields[i].desc.(count := count)),
        PyStruct.LittleEndian(env.nativeLittle, [FieldOrder(L.fields[i], L)]), PyStruct.Args([PyStruct.Raw(chunk)]))
  {
    var f := L.fields[i];
    var encoding := f.desc.encoding.value;
    assert encoding != [];
    assert TextEncoding(f) == Ok(encoding);
    assert EncodeText(env, encoding, text) == Ok(chunk);
    assert PyStruct.Args([PyStruct.Raw(chunk)]) == [PyStruct.Obj(PyStruct.Raw(chunk))];
  }

  /** pack of a char[] field holding text decoded by a reversible codec from
      bytes that the field's format packs to chunk: chunk. */
  lemma TextPacksBack(env: Env, L: Layout, i: nat, count: nat, chunk: seq<byte>, text: string)
    requires i < |L.fields| && L.fields[i].Prim? && L.fields[i].desc.kind == Fields.CharArray
    requires L.fields[i].desc.encoding.Some?
    requires env.codecs(L.fields[i].desc.encoding.value).Some?
    requires Utils.Reversible(env.codecs(L.fields[i].desc.encoding.value).value)
    requires env.codecs(L.fields[i].desc.encoding.value).value.decode(chunk) == Some(text)
    requires PyStruct.PackCodes(Fields.Codes(L.fields[i].desc.(count := count)),
      PyStruct.LittleEndian(env.nativeLittle, [FieldOrder(L.fields[i], L)]), PyStruct.Args([PyStruct.Raw(chunk)])) == Ok(chunk)
    ensures PackField(env, L, i, Unwrap(L.fields[i], Slot(count, Text(text)))) == Ok(chunk)
  {
    PackText(env, L, i, count, chunk, text);
  }

  /** _unpack_sizeof reads the field as the plain case would at the count the
      callback returns; without decoding, that is all it does. */
  lemma SizeofFixed(env: Env, order: PyStruct.OrderChar, d: Fields.Descriptor<SizeOf>, count: int, data: seq<byte>, off: nat)
    requires UnpackSizeof(env, order, d, count, data, off).Ok?
    ensures UnpackFixed(env, order, d.(count := count), data, off).Ok?
    ensures Fields.IsBytesType(d.kind) ==> d.kind == Fields.CharArray
    ensures !DecodesText(d) ==>
      UnpackSizeof(env, order, d, count, data, off) == UnpackFixed(env, order, d.(count := count), data, off)
  {
    if Fields.IsBytesType(d.kind) && !Fields.HasEncoding(d.kind) {
      SizeofNeedsEncoding(env, order, d, count, data, off);
      assert false;
    }
  }

  /** _unpack_sizeof on a char[] with an encoding whose read tuple is one bytes
      object: the field's new text is the codec's decoding of those bytes. */
  lemma SizeofText(env: Env, order: PyStruct.OrderChar, d: Fields.Descriptor<SizeOf>, count: int, data: seq<byte>, off: nat,
                   chunk: seq<byte>, end: nat)
    requires DecodesText(d)
    requires UnpackSizeof(env, order, d, count, data, off).Ok?
    requires UnpackFixed(env, order, d.(count := count), data, off) ==
      Ok((Slot(count, Tuple([PyStruct.Raw(chunk)])), end))
    ensures env.codecs(d.encoding.value).Some? && env.codecs(d.encoding.value).value.decode(chunk).Some?
    ensures UnpackSizeof(env, order, d, count, data, off) ==
      Ok((Slot(count, Text(env.codecs(d.encoding.value).value.decode(chunk).value)), end))
  {
  }

  /** The sizeof case of unpack's loop is _unpack_sizeof followed by the
      unwrapping. */
  lemma UnpackFieldSizeof(env: Env, L: Layout, i: nat, cur: seq<Slot>, data: seq<byte>, off: nat)
    requires i < |L.fields| && |cur| == |L.fields|
    requires L.fields[i].Prim? && L.fields[i].desc.sizeof.Some?
    requires UnpackField(env, L, i, cur, data, off).Ok?
    ensures var r := UnpackSizeof(env, L.order, L.fields[i].desc, L.fields[i].desc.sizeof.value(cur), data, off);
      r.Ok? && UnpackField(env, L, i, cur, data, off).value == (Unwrap(L.fields[i], r.value.0), r.value.1)
  {
  }

  /** A canonical sizeof field is read in the struct's order and written in
      its own, and the two agree for its code. */
  lemma SizeofOrders(env: Env, L: Layout, f: Field)
    requires f.Prim? && f.desc.sizeof.Some? && CanonicalField(env, L, f)
    ensures PyStruct.OrderCompatible(Fields.Fmt(f.desc.kind),
      PyStruct.LittleEndian(env.nativeLittle, [L.order]), PyStruct.LittleEndian(env.nativeLittle, [FieldOrder(f, L)]))
  {
    Fields.FmtIsStructCode(f.desc.kind);
    Fields.Widths();
  }

  /** A canonical sizeof field that was not decoded: _unpack_sizeof read a
      whole window, and pack in the field's order at the callback's count
      writes it back from the tuple read. */
  lemma SizeofCore(env: Env, L: Layout, i: nat, count: int, data: seq<byte>, off: nat)
    requires i < |L.fields| && off <= |data|
    requires L.fields[i].Prim? && L.fields[i].desc.sizeof.Some? && CanonicalField(env, L, L.fields[i])
    requires !(DecodesText(L.fields[i].desc))
    requires UnpackSizeof(env, L.order, L.fields[i].desc, count, data, off).Ok?
    ensures var d' := L.fields[i].desc.(count := count);
      var n := Fields.ElemSize(d') * d'.count;
      && d'.count >= 0 && off + n <= |data|
      && var items := PyStruct.UnpackCodes(Fields.Codes(d'), PyStruct.LittleEndian(env.nativeLittle, [L.order]), data[off..off + n]).value;
      && UnpackSizeof(env, L.order, L.fields[i].desc, count, data, off) == Ok((Slot(d'.count, Tuple(items)), off + n))
      && PyStruct.PackCodes(Fields.Codes(d'), PyStruct.LittleEndian(env.nativeLittle, [FieldOrder(L.fields[i], L)]), PyStruct.Args(items))
         == Ok(data[off..off + n])
      && (d'.count == 1 ==> |items| == 1)
  {
    var d := L.fields[i].desc;
    SizeofFixed(env, L.order, d, count, data, off);
    SizeofOrders(env, L, L.fields[i]);
    FixedCore(env, L.order, FieldOrder(L.fields[i], L), d.(count := count), data, off);
  }

  /** What pack makes of the tuple _unpack_sizeof leaves when it does not
      decode: the bytes it read. */
  lemma SizeofTuplePacksBack(env: Env, L: Layout, i: nat, count: int, data: seq<byte>, off: nat)
    requires i < |L.fields| && off <= |data|
    requires L.fields[i].Prim? && L.fields[i].desc.sizeof.Some? && CanonicalField(env, L, L.fields[i])
    requires !(DecodesText(L.fields[i].desc))
    requires UnpackSizeof(env, L.order, L.fields[i].desc, count, data, off).Ok?
    ensures var (slot, end) := UnpackSizeof(env, L.order, L.fields[i].desc, count, data, off).value;
      end <= |data| && PackField(env, L, i, Unwrap(L.fields[i], slot)) == Ok(data[off..end])
  {
    var d := L.fields[i].desc;
    var d' := d.(count := count);
    SizeofCore(env, L, i, count, data, off);
    assert d'.count == count;
    var n := Fields.ElemSize(d') * count;
    var chunk := data[off..off + n];
    var items := PyStruct.UnpackCodes(Fields.Codes(d'), PyStruct.LittleEndian(env.nativeLittle, [L.order]), chunk).value;
    PackItems(env, L, i, count, items, chunk);
    assert UnpackSizeof(env, L.order, d, count, data, off).value == (Slot(count, Tuple(items)), off + n);
  }

  /** What pack makes of the text _unpack_sizeof decodes: the bytes it read. */
  lemma SizeofTextPacksBack(env: Env, L: Layout, i: nat, count: int, data: seq<byte>, off: nat)
    requires i < |L.fields| && off <= |data|
    requires L.fields[i].Prim? && L.fields[i].desc.sizeof.Some? && CanonicalField(env, L, L.fields[i])
    requires DecodesText(L.fields[i].desc)
    requires UnpackSizeof(env, L.order, L.fields[i].desc, count, data, off).Ok?
    ensures var (slot, end) := UnpackSizeof(env, L.order, L.fields[i].desc, count, data, off).value;
      end <= |data| && PackField(env, L, i, Unwrap(L.fields[i], slot)) == Ok(data[off..end])
  {
    var f := L.fields[i];
    var d := f.desc;
    var d' := d.(count := count);
    SizeofFixed(env, L.order, d, count, data, off);
    SizeofOrders(env, L, f);
    FixedCore(env, L.order, FieldOrder(f, L), d', data, off);
    var n: nat := Fields.ElemSize(d') * count;
    var chunk := data[off..off + n];
    assert d.kind == Fields.CharArray;
    SizeofText(env, L.order, d, count, data, off, chunk, off + n);
    TextPacksBack(env, L, i, count, chunk, env.codecs(d.encoding.value).value.decode(chunk).value);
  }

  /** What pack makes of the state _unpack_sizeof leaves: the bytes it read. */
  lemma SizeofPacksBack(env: Env, L: Layout, i: nat, count: int, data: seq<byte>, off: nat)
    requires i < |L.fields| && off <= |data|
    requires L.fields[i].Prim? && L.fields[i].desc.sizeof.Some?
    requires CanonicalField(env, L, L.fields[i])
    requires UnpackSizeof(env, L.order, L.fields[i].desc, count, data, off).Ok?
    ensures var (slot, end) := UnpackSizeof(env, L.order, L.fields[i].desc, count, data, off).value;
      end <= |data| && PackField(env, L, i, Unwrap(L.fields[i], slot)) == Ok(data[off..end])
  {
    if DecodesText(L.fields[i].desc) {
      SizeofTextPacksBack(env, L, i, count, data, off);
    } else {
      SizeofTuplePacksBack(env, L, i, count, data, off);
    }
  }

  /** A sizeof field: unpack reads it in the struct's order with the callback's
      count, pack writes it in the field's order with that count; a decoded
      char[] is encoded back to the same bytes. */
  lemma SizeofRoundTrip(env: Env, L: Layout, i: nat, cur: seq<Slot>, data: seq<byte>, off: nat)
    requires i < |L.fields| && |cur| == |L.fields| && off <= |data|
    requires L.fields[i].Prim? && L.fields[i].desc.sizeof.Some?
    requires CanonicalField(env, L, L.fields[i])
    requires UnpackField(env, L, i, cur, data, off).Ok?
    ensures var (slot, end) := UnpackField(env, L, i, cur, data, off).value;
      end <= |data| && PackField(env, L, i, slot) == Ok(data[off..end])
  {
    UnpackFieldSizeof(env, L, i, cur, data, off);
    SizeofPacksBack(env, L, i, L.fields[i].desc.sizeof.value(cur), data, off);
  }

  // ---------------------------------------------------------------------------
  // A nested struct

  /** The nested case of unpack's loop is UnpackNested on the nested instance's
      current state. */
  lemma UnpackFieldNested(env: Env, L: Layout, i: nat, cur: seq<Slot>, data: seq<byte>, off: nat)
    requires i < |L.fields| && |cur| == |L.fields| && L.fields[i].Nested?
    requires UnpackField(env, L, i, cur, data, off).Ok?
    ensures var f := L.fields[i];
      var r := UnpackNested(env, f.layout, f.count, NestedSlots(f.layout, cur[i].val), data, off);
      r.Ok? && UnpackField(env, L, i, cur, data, off).value == (Unwrap(f, r.value.0), r.value.1)
  {
  }

  /** Every member of a nested struct is flat with respect to the outer order. */
  predicate AllFlat(env: Env, sub: Layout, outer: PyStruct.OrderChar)
  {
    forall j :: 0 <= j < |sub.fields| ==> FlatMember(env, sub, sub.fields[j], outer)
  }

  /** The codes of members m.. of a nested struct of integer fields at count 1:
      "1<c>" each, one argument each. */
  function FlatCodes(sub: Layout, m: nat): (codes: seq<PyStruct.Code>)
    requires m <= |sub.fields|
    requires forall j :: 0 <= j < |sub.fields| ==> sub.fields[j].Prim? && IsIntKind(sub.fields[j].desc.kind)
    ensures |codes| == |sub.fields| - m
    ensures forall j :: 0 <= j < |codes| ==>
      codes[j] == PyStruct.Code(1, Fields.Fmt(sub.fields[m + j].desc.kind)) && PyStruct.Known(codes[j].fmt)
    ensures PyStruct.ArgCount(codes) == |codes|
    decreases |sub.fields| - m
  {
    if m == |sub.fields| then []
    else
      var k := sub.fields[m].desc.kind;
      Fields.FmtIsStructCode(k);
      var codes := [PyStruct.Code(1, Fields.Fmt(k))] + FlatCodes(sub, m + 1);
      assert codes[1..] == FlatCodes(sub, m + 1);
      codes
  }

  lemma {:induction false} SizeUpToMonotone(L: Layout, a: nat, b: nat)
    requires a <= b <= |L.fields|
    ensures SizeUpTo(L, a) <= SizeUpTo(L, b)
    decreases b
  {
    if a < b {
      SizeUpToMonotone(L, a, b - 1);
    }
  }

  /** Member j of a nested struct in state slot, as pack writes it with the
      outer order, is the member's window chunk[SizeUpTo(j)..SizeUpTo(j + 1)]. */
  predicate MemberPacks(env: Env, sub: Layout, j: nat, slot: Slot, chunk: seq<byte>, outer: PyStruct.OrderChar)
    requires j < |sub.fields|
  {
    && sub.fields[j].Prim?
    && slot.count == 1
    && SizeUpTo(sub, j + 1) <= |chunk|
    && var c := PyStruct.Code(1, Fields.Fmt(sub.fields[j].desc.kind));
    && PyStruct.Known(c.fmt) && c.fmt != 's'
    && PyStruct.EncodeCode(c, PyStruct.LittleEndian(env.nativeLittle, [outer]), [AsArg(slot.val)])
       == Ok(chunk[SizeUpTo(sub, j)..SizeUpTo(sub, j + 1)])
  }

  /** Unpacking a flat member at its offset in the nested window: it consumes
      the member's size, and pack with the outer order writes those bytes back. */
  lemma FlatMemberUnpack(env: Env, sub: Layout, j: nat, cur: seq<Slot>, chunk: seq<byte>, outer: PyStruct.OrderChar)
    requires j < |sub.fields| && |cur| == |sub.fields|
    requires FlatMember(env, sub, sub.fields[j], outer)
    requires SizeUpTo(sub, j) <= |chunk|
    requires UnpackField(env, sub, j, cur, chunk, SizeUpTo(sub, j)).Ok?
    ensures var (slot, e) := UnpackField(env, sub, j, cur, chunk, SizeUpTo(sub, j)).value;
      e == SizeUpTo(sub, j + 1) && MemberPacks(env, sub, j, slot, chunk, outer)
  {
    var f := sub.fields[j];
    var d := f.desc;
    var p := FieldOrder(f, sub);
    var e := SizeUpTo(sub, j);
    Fields.FmtIsStructCode(d.kind);
    Fields.ValueTypes(d.kind);
    UnpackFieldFixed(env, sub, j, cur, chunk, e);
    var n: nat := Fields.ElemSize(d);
    assert n * d.count == n;
    var window := Utils.PySlice(chunk, e, e + n);
    var items := PyStruct.UnpackCodes(Fields.Codes(d), PyStruct.LittleEndian(env.nativeLittle, [p]), window).value;
    assert UnpackFixed(env, p, d, chunk, e) == Ok((Slot(1, Tuple(items)), e + n));
    PrimRoundTrip(env, p, outer, d, window);
    WholeWindow(chunk, e, n);
    assert FieldSize(sub, j) == n;
    var c := PyStruct.Code(1, Fields.Fmt(d.kind));
    assert PyStruct.Args(items) == [PyStruct.Obj(items[0])];
    PyStruct.EncodeOneCode(c, PyStruct.LittleEndian(env.nativeLittle, [outer]), [PyStruct.Obj(items[0])]);
  }

  /** Member k - 1 of a flat nested struct, unpacked after the first k - 1: it
      ends at SizeUpTo(k) and packs back to its own bytes. */
  lemma FlatStep(env: Env, sub: Layout, init: seq<Slot>, chunk: seq<byte>, outer: PyStruct.OrderChar, k: nat,
                 prev: seq<Slot>, e: nat)
    requires 0 < k <= |sub.fields| && |init| == |sub.fields|
    requires AllFlat(env, sub, outer)
    requires UnpackUpTo(env, sub, init, chunk, 0, k - 1) == Ok((prev, e))
    requires e == SizeUpTo(sub, k - 1) <= |chunk|
    requires UnpackUpTo(env, sub, init, chunk, 0, k).Ok?
    ensures var (ss, e') := UnpackUpTo(env, sub, init, chunk, 0, k).value;
      && e' == SizeUpTo(sub, k) <= |chunk|
      && ss == prev + [ss[k - 1]]
      && MemberPacks(env, sub, k - 1, ss[k - 1], chunk, outer)
  {
    var cur := prev + init[k - 1..];
    assert FlatMember(env, sub, sub.fields[k - 1], outer);
    FlatMemberUnpack(env, sub, k - 1, cur, chunk, outer);
  }

  /** The first k members of a flat nested struct, unpacked from a window: they
      end at SizeUpTo(k) inside it, and each packs back to its own bytes. */
  lemma {:induction false} FlatUnpack(env: Env, sub: Layout, init: seq<Slot>, chunk: seq<byte>, outer: PyStruct.OrderChar, k: nat)
    requires k <= |sub.fields| && |init| == |sub.fields|
    requires AllFlat(env, sub, outer)
    requires UnpackUpTo(env, sub, init, chunk, 0, k).Ok?
    ensures var (ss, e) := UnpackUpTo(env, sub, init, chunk, 0, k).value;
      && e == SizeUpTo(sub, k) <= |chunk|
      && forall j :: 0 <= j < k ==> MemberPacks(env, sub, j, ss[j], chunk, outer)
    decreases k
  {
    if k > 0 {
      FlatUnpack(env, sub, init, chunk, outer, k - 1);
      var prev := UnpackUpTo(env, sub, init, chunk, 0, k - 1).value;
      FlatStep(env, sub, init, chunk, outer, k, prev.0, prev.1);
      var ss := UnpackUpTo(env, sub, init, chunk, 0, k).value.0;
      forall j | 0 <= j < k
        ensures MemberPacks(env, sub, j, ss[j], chunk, outer)
      {
        if j < k - 1 {
          assert ss[j] == prev.0[j];
        }
      }
    }
  }

  /** The offsets at which the members of a nested struct start, and its end. */
  function MemberBounds(sub: Layout): (bounds: seq<nat>)
    ensures |bounds| == |sub.fields| + 1
    ensures forall j :: 0 <= j <= |sub.fields| ==> bounds[j] == SizeUpTo(sub, j)
  {
    seq(|sub.fields| + 1, j requires 0 <= j <= |sub.fields| => SizeUpTo(sub, j))
  }

  /** Pack's codes for a nested struct whose members all pack back write the
      nested window. */
  lemma EncodeFlat(env: Env, sub: Layout, ss: seq<Slot>, chunk: seq<byte>, outer: PyStruct.OrderChar)
    requires |sub.fields| == |ss|
    requires forall j :: 0 <= j < |sub.fields| ==> sub.fields[j].Prim? && IsIntKind(sub.fields[j].desc.kind)
    requires forall j :: 0 <= j < |sub.fields| ==> MemberPacks(env, sub, j, ss[j], chunk, outer)
    requires Size(sub) <= |chunk|
    ensures PyStruct.EncodeCodes(FlatCodes(sub, 0), PyStruct.LittleEndian(env.nativeLittle, [outer]), ValueArgs(ss))
      == Ok(chunk[..Size(sub)])
  {
    var codes := FlatCodes(sub, 0);
    var args := ValueArgs(ss);
    var bounds := MemberBounds(sub);
    var little := PyStruct.LittleEndian(env.nativeLittle, [outer]);
    forall j | 0 <= j <= |codes|
      ensures bounds[j] <= |chunk|
    {
      SizeUpToMonotone(sub, j, |sub.fields|);
    }
    forall j | 0 <= j < |codes|
      ensures PyStruct.Known(codes[j].fmt) && PyStruct.ItemsIn(codes[j]) == 1
      ensures bounds[j] <= bounds[j + 1]
      ensures PyStruct.EncodeCode(codes[j], little, [args[j]]) == Ok(chunk[bounds[j]..bounds[j + 1]])
    {
      assert MemberPacks(env, sub, j, ss[j], chunk, outer);
    }
    PyStruct.EncodeWindows(codes, little, args, chunk, bounds);
    assert chunk[bounds[0]..bounds[|codes|]] == chunk[..Size(sub)];
  }

  /** The format of a nested struct of integer members at count 1 is "1<c>..."
      over its codes. */
  lemma {:induction false} FlatFormat(sub: Layout, ss: seq<Slot>, k: nat)
    requires k <= |sub.fields| == |ss|
    requires forall j :: 0 <= j < |sub.fields| ==> sub.fields[j].Prim? && IsIntKind(sub.fields[j].desc.kind)
    requires forall j :: 0 <= j < k ==> ss[j].count == 1
    ensures FormatUpTo(sub, ss, k) == PyStruct.FormatOf(FlatCodes(sub, 0)[..k])
    decreases k
  {
    var codes := FlatCodes(sub, 0);
    if k == 0 {
      assert codes[..0] == [];
    } else {
      FlatFormat(sub, ss, k - 1);
      PyStruct.FormatOfSnoc(codes[..k - 1], codes[k - 1]);
      TakeSnoc(codes, k);
    }
  }

  /** pack with a prefixed format written from known codes encodes those codes. */
  lemma PackFormatOf(nativeLittle: bool, p: PyStruct.OrderChar, codes: seq<PyStruct.Code>, args: seq<PyStruct.Arg>)
    requires forall j :: 0 <= j < |codes| ==> PyStruct.Known(codes[j].fmt)
    requires |args| == PyStruct.ArgCount(codes)
    ensures PyStruct.Pack(nativeLittle, [p] + PyStruct.FormatOf(codes), args) ==
      PyStruct.EncodeCodes(codes, PyStruct.LittleEndian(nativeLittle, [p]), args)
  {
    PyStruct.ParseFormatOf(codes);
    PyStruct.Prefixed(nativeLittle, p, PyStruct.FormatOf(codes));
  }

  /** The format pack uses for a nested instance of integer members at count 1. */
  lemma NestedFormat(L: Layout, i: nat, ss: seq<Slot>)
    requires i < |L.fields| && L.fields[i].Nested? && |ss| == |L.fields[i].layout.fields|
    requires forall j :: 0 <= j < |ss| ==>
      L.fields[i].layout.fields[j].Prim? && IsIntKind(L.fields[i].layout.fields[j].desc.kind)
    requires forall j :: 0 <= j < |ss| ==> ss[j].count == 1
    ensures FieldFormat(L, i, Slot(1, Struct(ss))) == PyStruct.FormatOf(FlatCodes(L.fields[i].layout, 0))
  {
    var sub := L.fields[i].layout;
    var codes := FlatCodes(sub, 0);
    assert NestedSlots(sub, Struct(ss)) == ss;
    FlatFormat(sub, ss, |sub.fields|);
    assert codes[..|codes|] == codes;
  }

  /** pack on a nested instance whose members all pack back to their windows
      writes the whole nested window. */
  lemma NestedPacks(env: Env, L: Layout, i: nat, ss: seq<Slot>, chunk: seq<byte>)
    requires i < |L.fields| && L.fields[i].Nested?
    requires |ss| == |L.fields[i].layout.fields| && |chunk| == Size(L.fields[i].layout)
    requires AllFlat(env, L.fields[i].layout, FieldOrder(L.fields[i], L))
    requires forall j :: 0 <= j < |ss| ==> MemberPacks(env, L.fields[i].layout, j, ss[j], chunk, FieldOrder(L.fields[i], L))
    ensures PackField(env, L, i, Slot(1, Struct(ss))) == Ok(chunk)
  {
    var sub := L.fields[i].layout;
    var outer := FieldOrder(L.fields[i], L);
    var codes := FlatCodes(sub, 0);
    NestedFormat(L, i, ss);
    var body := PyStruct.FormatOf(codes);
    assert PackField(env, L, i, Slot(1, Struct(ss))) == PyStruct.Pack(env.nativeLittle, [outer] + body, ValueArgs(ss));
    PackFormatOf(env.nativeLittle, outer, codes, ValueArgs(ss));
    EncodeFlat(env, sub, ss, chunk, outer);
    assert chunk[..|chunk|] == chunk;
  }

  /** A nested struct field: pack writes the nested instance unpack filled with
      one format in the outer order, reproducing the window it was read from. */
  lemma NestedRoundTrip(env: Env, L: Layout, i: nat, cur: seq<Slot>, data: seq<byte>, off: nat)
    requires i < |L.fields| && |cur| == |L.fields| && off <= |data|
    requires L.fields[i].Nested?
    requires CanonicalField(env, L, L.fields[i])
    requires UnpackField(env, L, i, cur, data, off).Ok?
    ensures var (slot, end) := UnpackField(env, L, i, cur, data, off).value;
      end <= |data| && PackField(env, L, i, slot) == Ok(data[off..end])
  {
    var f := L.fields[i];
    var sub := f.layout;
    var outer := FieldOrder(f, L);
    UnpackFieldNested(env, L, i, cur, data, off);
    var init := NestedSlots(sub, cur[i].val);
    var n: nat := Size(sub);
    assert Size(sub) * f.count == n;
    var chunk := Utils.PySlice(data, off, off + n);
    var ss := UnpackLayout(env, sub, init, chunk, 0).value.0;
    assert UnpackNested(env, sub, 1, init, data, off) == Ok((Slot(1, Struct(ss)), off + n));
    assert AllFlat(env, sub, outer);
    FlatUnpack(env, sub, init, chunk, outer, |sub.fields|);
    WholeWindow(data, off, n);
    assert Unwrap(f, Slot(1, Struct(ss))) == Slot(1, Struct(ss));
    NestedPacks(env, L, i, ss, chunk);
  }

  // ---------------------------------------------------------------------------
  // The whole struct

  /** Any field of a canonical struct: pack writes back the bytes unpack consumed. */
  lemma FieldRoundTrip(env: Env, L: Layout, i: nat, cur: seq<Slot>, data: seq<byte>, off: nat)
    requires i < |L.fields| && |cur| == |L.fields| && off <= |data|
    requires CanonicalField(env, L, L.fields[i])
    requires UnpackField(env, L, i, cur, data, off).Ok?
    ensures var (slot, end) := UnpackField(env, L, i, cur, data, off).value;
      end <= |data| && PackField(env, L, i, slot) == Ok(data[off..end])
  {
    if L.fields[i].Nested? {
      NestedRoundTrip(env, L, i, cur, data, off);
    } else if L.fields[i].desc.sizeof.Some? {
      SizeofRoundTrip(env, L, i, cur, data, off);
    } else {
      FixedRoundTrip(env, L, i, cur, data, off);
    }
  }

  /** The first k iterations of unpack and of pack on a canonical struct: pack's
      output for the fields unpack filled is the bytes unpack consumed. */
  lemma {:induction false} UpToRoundTrip(env: Env, L: Layout, init: seq<Slot>, data: seq<byte>, off: nat, k: nat)
    requires Canonical(env, L) && |init| == |L.fields| && k <= |L.fields| && off <= |data|
    requires UnpackUpTo(env, L, init, data, off, k).Ok?
    ensures var (ss, end) := UnpackUpTo(env, L, init, data, off, k).value;
      end <= |data| && PackUpTo(env, L, ss) == Ok(data[off..end])
    decreases k
  {
    if k > 0 {
      UpToRoundTrip(env, L, init, data, off, k - 1);
      var prev := UnpackUpTo(env, L, init, data, off, k - 1).value;
      var cur := prev.0 + init[k - 1..];
      assert CanonicalField(env, L, L.fields[k - 1]);
      FieldRoundTrip(env, L, k - 1, cur, data, prev.1);
      var next := UnpackField(env, L, k - 1, cur, data, prev.1).value;
      var ss := prev.0 + [next.0];
      assert UnpackUpTo(env, L, init, data, off, k).value == (ss, next.1);
      assert ss[..k - 1] == prev.0 && ss[k - 1] == next.0;
      AdjacentWindows(data, off, prev.1, next.1);
    } else {
      assert data[off..off] == [];
    }
  }

  /** unpack followed by pack on a canonical struct: pack returns exactly the
      bytes unpack consumed from the stream, wherever the instance's state
      started. */
  lemma UnpackThenPack(env: Env, L: Layout, init: seq<Slot>, data: seq<byte>, off: nat)
    requires Canonical(env, L) && |init| == |L.fields| && off <= |data|
    requires UnpackLayout(env, L, init, data, off).Ok?
    ensures var (ss, end) := UnpackLayout(env, L, init, data, off).value;
      end <= |data| && Pack(env, L, ss) == Ok(data[off..end])
  {
    UpToRoundTrip(env, L, init, data, off, |L.fields|);
  }

  // ---------------------------------------------------------------------------
  // Unpack reads only the bytes it consumes

  /** Two buffers that agree up to end present the same windows below end. */
  lemma SameWindow(data: seq<byte>, data': seq<byte>, off: nat, n: nat, end: nat)
    requires off + n == end <= |data| && end <= |data'| && data[..end] == data'[..end]
    ensures Utils.PySlice(data, off, off + n) == Utils.PySlice(data', off, off + n)
  {
    assert data[off..end] == data[..end][off..end];
    assert data'[off..end] == data'[..end][off..end];
  }

  /** The plain case reads only its window. */
  lemma FixedReadsWindow(env: Env, order: PyStruct.OrderChar, d: Fields.Descriptor<SizeOf>, data: seq<byte>, data': seq<byte>, off: nat)
    requires d.count >= 0
    requires Utils.PySlice(data, off, off + Fields.ElemSize(d) * d.count) == Utils.PySlice(data', off, off + Fields.ElemSize(d) * d.count)
    ensures UnpackFixed(env, order, d, data', off) == UnpackFixed(env, order, d, data, off)
  {
  }

  /** _unpack_sizeof reads only its window. */
  lemma SizeofReadsWindow(env: Env, order: PyStruct.OrderChar, d: Fields.Descriptor<SizeOf>, count: int, data: seq<byte>, data': seq<byte>, off: nat)
    requires count >= 0
    requires Utils.PySlice(data, off, off + Fields.ElemSize(d) * count) == Utils.PySlice(data', off, off + Fields.ElemSize(d) * count)
    ensures UnpackSizeof(env, order, d, count, data', off) == UnpackSizeof(env, order, d, count, data, off)
  {
    assert Fields.ElemSize(d.(count := count)) == Fields.ElemSize(d);
    FixedReadsWindow(env, order, d.(count := count), data, data', off);
  }

  /** A nested struct reads only its window. */
  lemma NestedReadsWindow(env: Env, sub: Layout, count: nat, init: seq<Slot>, data: seq<byte>, data': seq<byte>, off: nat)
    requires |init| == |sub.fields|
    requires Utils.PySlice(data, off, off + Size(sub) * count) == Utils.PySlice(data', off, off + Size(sub) * count)
    ensures UnpackNested(env, sub, count, init, data', off) == UnpackNested(env, sub, count, init, data, off)
  {
  }

  /** One field reads only the window it consumes: on a buffer that agrees with
      data up to the end of that window it unpacks the same. */
  lemma FieldReadsWindow(env: Env, L: Layout, i: nat, cur: seq<Slot>, data: seq<byte>, data': seq<byte>, off: nat)
    requires i < |L.fields| && |cur| == |L.fields|
    requires UnpackField(env, L, i, cur, data, off).Ok?
    requires var end := UnpackField(env, L, i, cur, data, off).value.1;
      end <= |data| && end <= |data'| && data[..end] == data'[..end]
    ensures UnpackField(env, L, i, cur, data', off) == UnpackField(env, L, i, cur, data, off)
  {
    var f := L.fields[i];
    var end := UnpackField(env, L, i, cur, data, off).value.1;
    if f.Nested? {
      UnpackFieldNested(env, L, i, cur, data, off);
      SameWindow(data, data', off, Size(f.layout) * f.count, end);
      NestedReadsWindow(env, f.layout, f.count, NestedSlots(f.layout, cur[i].val), data, data', off);
    } else if f.desc.sizeof.Some? {
      UnpackFieldSizeof(env, L, i, cur, data, off);
      SameWindow(data, data', off, Fields.ElemSize(f.desc) * f.desc.sizeof.value(cur), end);
      SizeofReadsWindow(env, L.order, f.desc, f.desc.sizeof.value(cur), data, data', off);
    } else {
      UnpackFieldFixed(env, L, i, cur, data, off);
      SameWindow(data, data', off, Fields.ElemSize(f.desc) * f.desc.count, end);
      FixedReadsWindow(env, FieldOrder(f, L), f.desc, data, data', off);
    }
  }

  /** unpack reads only the bytes it consumes: on any buffer that agrees with
      data up to the offset unpack stopped at, it gives the same result. */
  lemma {:induction false} UpToReadsWindow(env: Env, L: Layout, init: seq<Slot>, data: seq<byte>, data': seq<byte>, off: nat, k: nat)
    requires |init| == |L.fields| && k <= |L.fields|
    requires UnpackUpTo(env, L, init, data, off, k).Ok?
    requires var end := UnpackUpTo(env, L, init, data, off, k).value.1;
      end <= |data| && end <= |data'| && data[..end] == data'[..end]
    ensures UnpackUpTo(env, L, init, data', off, k) == UnpackUpTo(env, L, init, data, off, k)
    decreases k
  {
    if k > 0 {
      var prev := UnpackUpTo(env, L, init, data, off, k - 1).value;
      var cur := prev.0 + init[k - 1..];
      var next := UnpackField(env, L, k - 1, cur, data, prev.1).value;
      var end := next.1;
      assert UnpackUpTo(env, L, init, data, off, k).value.1 == end;
      assert data[..prev.1] == data[..end][..prev.1];
      assert data'[..prev.1] == data'[..end][..prev.1];
      UpToReadsWindow(env, L, init, data, data', off, k - 1);
      FieldReadsWindow(env, L, k - 1, cur, data, data', prev.1);
    }
  }

  /** Bytes after the end of what unpack consumed do not change its result. */
  lemma UnpackIgnoresTrailing(env: Env, L: Layout, init: seq<Slot>, data: seq<byte>, extra: seq<byte>, off: nat)
    requires |init| == |L.fields|
    requires UnpackLayout(env, L, init, data, off).Ok?
    requires UnpackLayout(env, L, init, data, off).value.1 <= |data|
    ensures UnpackLayout(env, L, init, data + extra, off) == UnpackLayout(env, L, init, data, off)
  {
    var end := UnpackLayout(env, L, init, data, off).value.1;
    assert (data + extra)[..end] == data[..end];
    UpToReadsWindow(env, L, init, data, data + extra, off, |L.fields|);
  }

  /** unpack, pack, unpack on a canonical struct read from offset 0: pack
      returns the consumed prefix of the buffer, and unpacking that prefix
      from the same starting state gives the same state again. */
  lemma UnpackPackUnpack(env: Env, L: Layout, init: seq<Slot>, data: seq<byte>)
    requires Canonical(env, L) && |init| == |L.fields|
    requires UnpackLayout(env, L, init, data, 0).Ok?
    ensures var (ss, end) := UnpackLayout(env, L, init, data, 0).value;
      && end <= |data|
      && Pack(env, L, ss).Ok?
      && Pack(env, L, ss).value == data[..end]
      && UnpackLayout(env, L, init, Pack(env, L, ss).value, 0) == Ok((ss, end))
  {
    UnpackThenPack(env, L, init, data, 0);
    var end := UnpackLayout(env, L, init, data, 0).value.1;
    assert data[0..end] == data[..end];
    assert data[..end][..end] == data[..end];
    UpToReadsWindow(env, L, init, data, data[..end], 0, |L.fields|);
  }
}
