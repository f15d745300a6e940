/** The struct classes of the repository's test suite as layouts, and what
    unpack and pack do on the byte strings those tests use. */
module Scenarios {
  import opened Common
  import opened Bytes
  import PyStruct
  import Fields
  import Utils
  import opened Schema
  import opened Codec
  import RoundTrip

  // ---------------------------------------------------------------------------
  // Reading integer descriptors

  /** An integer kind's format character is a one-code integer format as wide
      as the kind. */
  lemma IntKindFmt(k: Fields.Kind)
    requires RoundTrip.IsIntKind(k)
    ensures var fmt := Fields.Fmt(k);
      PyStruct.Known(fmt) && fmt != 's' && fmt != 'c' && fmt != '?' && PyStruct.ItemSize(fmt) == Fields.Width(k) > 0
  {
    Fields.FmtIsStructCode(k);
  }

  /** The integer one element of an integer descriptor's window stands for. */
  function IntOf(d: Fields.Descriptor<SizeOf>, little: bool, bs: seq<byte>): PyStruct.Item
  {
    PyStruct.Int(DecodeInt(bs, PyStruct.IsSigned(Fields.Fmt(d.kind)), little))
  }

  lemma DecodeOne(fmt: char, little: bool, chunk: seq<byte>)
    requires PyStruct.Known(fmt) && fmt != 's' && fmt != 'c' && fmt != '?'
    requires |chunk| == PyStruct.ItemSize(fmt)
    ensures PyStruct.DecodeRun(fmt, little, 1, chunk) == [PyStruct.Int(DecodeInt(chunk, PyStruct.IsSigned(fmt), little))]
  {
    var w := PyStruct.ItemSize(fmt);
    assert chunk[..w] == chunk;
  }

  lemma DecodePair(fmt: char, little: bool, chunk: seq<byte>)
    requires PyStruct.Known(fmt) && fmt != 's' && fmt != 'c' && fmt != '?'
    requires |chunk| == 2 * PyStruct.ItemSize(fmt)
    ensures var w := PyStruct.ItemSize(fmt);
      PyStruct.DecodeRun(fmt, little, 2, chunk) ==
        [PyStruct.Int(DecodeInt(chunk[..w], PyStruct.IsSigned(fmt), little)),
         PyStruct.Int(DecodeInt(chunk[w..], PyStruct.IsSigned(fmt), little))]
  {
    var w := PyStruct.ItemSize(fmt);
    PyStruct.DecodeRunUnfold(fmt, little, 2, chunk);
    DecodeOne(fmt, little, chunk[w..]);
  }

  lemma WindowOne(env: Env, order: PyStruct.OrderChar, d: Fields.Descriptor<SizeOf>, chunk: seq<byte>)
    requires d.count == 1 && RoundTrip.IsIntKind(d.kind) && |chunk| == Fields.Width(d.kind)
    ensures UnpackWindow(env, order, d, chunk) ==
      Ok(Slot(1, Tuple([IntOf(d, PyStruct.LittleEndian(env.nativeLittle, [order]), chunk)])))
  {
    var little := PyStruct.LittleEndian(env.nativeLittle, [order]);
    var fmt := Fields.Fmt(d.kind);
    IntKindFmt(d.kind);
    var c := PyStruct.Code(1, fmt);
    assert PyStruct.CalcSize([c]) == PyStruct.CodeSize(c) + PyStruct.CalcSize([]);
    PyStruct.UnpackOneCode(c, little, chunk);
    DecodeOne(fmt, little, chunk);
  }

  lemma WindowPair(env: Env, order: PyStruct.OrderChar, d: Fields.Descriptor<SizeOf>, chunk: seq<byte>)
    requires d.count == 2 && RoundTrip.IsIntKind(d.kind) && |chunk| == 2 * Fields.Width(d.kind)
    ensures var little := PyStruct.LittleEndian(env.nativeLittle, [order]);
      var w := Fields.Width(d.kind);
      UnpackWindow(env, order, d, chunk) == Ok(Slot(2, Tuple([IntOf(d, little, chunk[..w]), IntOf(d, little, chunk[w..])])))
  {
    var little := PyStruct.LittleEndian(env.nativeLittle, [order]);
    var fmt := Fields.Fmt(d.kind);
    IntKindFmt(d.kind);
    var c := PyStruct.Code(2, fmt);
    assert PyStruct.CalcSize([c]) == PyStruct.CodeSize(c) + PyStruct.CalcSize([]);
    PyStruct.UnpackOneCode(c, little, chunk);
    DecodePair(fmt, little, chunk);
  }

  /** A count-1 integer descriptor reads the integer its window stands for, in
      the byte order its prefix selects, and consumes its width. */
  lemma ReadsInt(env: Env, order: PyStruct.OrderChar, d: Fields.Descriptor<SizeOf>, data: seq<byte>, off: nat)
    requires d.count == 1 && RoundTrip.IsIntKind(d.kind)
    requires off + Fields.Width(d.kind) <= |data|
    ensures UnpackFixed(env, order, d, data, off) ==
      Ok((Slot(1, Tuple([IntOf(d, PyStruct.LittleEndian(env.nativeLittle, [order]), data[off..off + Fields.Width(d.kind)])])),
          off + Fields.Width(d.kind)))
  {
    var w := Fields.Width(d.kind);
    IntKindFmt(d.kind);
    assert Fields.ElemSize(d) * d.count == w;
    Utils.PySliceWithin(data, off, off + w);
    WindowOne(env, order, d, data[off..off + w]);
  }

  /** A count-2 integer descriptor reads the two integers of its window. */
  lemma ReadsIntPair(env: Env, order: PyStruct.OrderChar, d: Fields.Descriptor<SizeOf>, data: seq<byte>, off: nat)
    requires d.count == 2 && RoundTrip.IsIntKind(d.kind)
    requires off + 2 * Fields.Width(d.kind) <= |data|
    ensures var little := PyStruct.LittleEndian(env.nativeLittle, [order]);
      var w := Fields.Width(d.kind);
      UnpackFixed(env, order, d, data, off) ==
        Ok((Slot(2, Tuple([IntOf(d, little, data[off..off + w]), IntOf(d, little, data[off + w..off + 2 * w])])), off + 2 * w))
  {
    var w := Fields.Width(d.kind);
    IntKindFmt(d.kind);
    assert Fields.ElemSize(d) * d.count == 2 * w;
    Utils.PySliceWithin(data, off, off + 2 * w);
    WindowPair(env, order, d, data[off..off + 2 * w]);
    WindowHalves(data, off, off + w, off + 2 * w);
  }

  /** The big-endian values of the test suite's byte strings. */
  lemma IntBytes(v: nat)
    requires v < 256
    ensures DecodeInt([0, 0, 0, v as byte], true, false) == v
  {
    assert ToLE(0, 1) == [0];
    assert ToLE(0, 2) == [0, 0];
    assert ToLE(0, 3) == [0, 0, 0];
    assert ToLE(v, 4) == [v as byte, 0, 0, 0];
    assert EncodeInt(v, 4, true, false) == [0, 0, 0, v as byte];
    DecodeEncodeInt(v, 4, true, false);
  }

  lemma ShortBytes(v: nat)
    requires v < 256
    ensures DecodeInt([0, v as byte], true, false) == v
  {
    assert ToLE(0, 1) == [0];
    assert ToLE(v, 2) == [v as byte, 0];
    assert EncodeInt(v, 2, true, false) == [0, v as byte];
    DecodeEncodeInt(v, 2, true, false);
  }

  lemma OneByte(b: byte, little: bool)
    ensures DecodeInt([b], false, little) == b as int
  {
    assert Reverse([b]) == [b];
    assert FromLE([b]) == b as nat + 256 * FromLE([]);
  }

  // ---------------------------------------------------------------------------
  // Stepping through unpack's loop

  /** The first iteration of unpack's loop. */
  lemma FirstField(env: Env, L: Layout, init: seq<Slot>, data: seq<byte>)
    requires |init| == |L.fields| > 0
    ensures UnpackUpTo(env, L, init, data, 0, 1) ==
      match UnpackField(env, L, 0, init, data, 0)
      case Ok(r) => Ok(([r.0], r.1))
      case Err(e) => Err(e)
  {
    assert [] + init[0..] == init;
    if UnpackField(env, L, 0, init, data, 0).Ok? {
      var r := UnpackField(env, L, 0, init, data, 0).value;
      assert [] + [r.0] == [r.0];
    }
  }

  /** A later iteration of unpack's loop, once the earlier ones have succeeded. */
  lemma NextField(env: Env, L: Layout, init: seq<Slot>, data: seq<byte>, k: nat, done: seq<Slot>, off: nat)
    requires |init| == |L.fields| && 0 < k <= |L.fields|
    requires UnpackUpTo(env, L, init, data, 0, k - 1) == Ok((done, off))
    ensures UnpackUpTo(env, L, init, data, 0, k) ==
      match UnpackField(env, L, k - 1, done + init[k - 1..], data, off)
      case Ok(r) => Ok((done + [r.0], r.1))
      case Err(e) => Err(e)
  {
  }

  /** A two-field struct whose fields read a and then b from data, from 0 to
      end, unpacks to [a, b]. */
  lemma TwoFields(env: Env, L: Layout, data: seq<byte>, a: Slot, mid: nat, b: Slot, end: nat)
    requires |L.fields| == 2
    requires UnpackField(env, L, 0, FreshSlots(L), data, 0) == Ok((a, mid))
    requires UnpackField(env, L, 1, [a] + FreshSlots(L)[1..], data, mid) == Ok((b, end))
    ensures UnpackLayout(env, L, FreshSlots(L), data, 0) == Ok(([a, b], end))
  {
    FirstField(env, L, FreshSlots(L), data);
    NextField(env, L, FreshSlots(L), data, 2, [a], mid);
    assert [a] + [b] == [a, b];
  }

  // ---------------------------------------------------------------------------
  // test_simple_object

  /** A struct class with one IntegerField called name. */
  function IntStruct(name: string): Layout
  {
    Declare([Prim(Fields.NewField(Fields.Int, name))])
  }

  /** class Sized(StructObject): size = IntegerField() */
  function Sized(): Layout
  {
    IntStruct("size")
  }

  lemma IntStructReadsOne(env: Env, name: string, data: seq<byte>)
    requires data == [0, 0, 0, 1]
    ensures UnpackLayout(env, IntStruct(name), FreshSlots(IntStruct(name)), data, 0) ==
      Ok(([Slot(1, Scalar(PyStruct.Int(1)))], 4))
  {
    var L := IntStruct(name);
    ReadsInt(env, '!', L.fields[0].desc, data, 0);
    assert data[0..4] == [0, 0, 0, 1];
    IntBytes(1);
    FirstField(env, L, FreshSlots(L), data);
  }

  lemma SimpleObject(env: Env)
    ensures UnpackLayout(env, Sized(), FreshSlots(Sized()), [0, 0, 0, 1], 0) ==
      Ok(([Slot(1, Scalar(PyStruct.Int(1)))], 4))
    ensures Pack(env, Sized(), [Slot(1, Scalar(PyStruct.Int(1)))]) == Ok([0, 0, 0, 1])
  {
    var L := Sized();
    var data: seq<byte> := [0, 0, 0, 1];
    IntStructReadsOne(env, "size", data);
    assert RoundTrip.Canonical(env, L) by {
      assert RoundTrip.CanonicalField(env, L, L.fields[0]);
    }
    RoundTrip.UnpackThenPack(env, L, FreshSlots(L), data, 0);
    assert data[0..4] == data;
  }

  // ---------------------------------------------------------------------------
  // test_count_field

  /** class Example(StructObject): shorts = ShortField(count=2); long_data = LongField() */
  function Example(): Layout
  {
    Declare([Prim(Fields.NewField(Fields.Short, "shorts", count := 2)), Prim(Fields.NewField(Fields.Long, "long_data"))])
  }

  function CountFieldSlots(): seq<Slot>
  {
    [Slot(2, Tuple([PyStruct.Int(1), PyStruct.Int(2)])), Slot(1, Scalar(PyStruct.Int(3)))]
  }

  lemma CountFieldShorts(env: Env, data: seq<byte>)
    requires data == [0, 1, 0, 2, 0, 0, 0, 3]
    ensures UnpackField(env, Example(), 0, FreshSlots(Example()), data, 0) == Ok((CountFieldSlots()[0], 4))
  {
    var L := Example();
    ReadsIntPair(env, '!', L.fields[0].desc, data, 0);
    assert data[0..2] == [0, 1] && data[2..4] == [0, 2];
    ShortBytes(1);
    ShortBytes(2);
  }

  lemma CountFieldLong(env: Env, data: seq<byte>)
    requires data == [0, 1, 0, 2, 0, 0, 0, 3]
    ensures UnpackField(env, Example(), 1, [CountFieldSlots()[0]] + FreshSlots(Example())[1..], data, 4) ==
      Ok((CountFieldSlots()[1], 8))
  {
    var L := Example();
    ReadsInt(env, '!', L.fields[1].desc, data, 4);
    assert data[4..8] == [0, 0, 0, 3];
    IntBytes(3);
  }

  lemma CountField(env: Env)
    ensures UnpackLayout(env, Example(), FreshSlots(Example()), [0, 1, 0, 2, 0, 0, 0, 3], 0) == Ok((CountFieldSlots(), 8))
    ensures Pack(env, Example(), CountFieldSlots()) == Ok([0, 1, 0, 2, 0, 0, 0, 3])
  {
    var L := Example();
    var data: seq<byte> := [0, 1, 0, 2, 0, 0, 0, 3];
    var slots := CountFieldSlots();
    CountFieldShorts(env, data);
    CountFieldLong(env, data);
    TwoFields(env, L, data, slots[0], 4, slots[1], 8);
    assert RoundTrip.Canonical(env, L) by {
      assert RoundTrip.CanonicalField(env, L, L.fields[0]);
      assert RoundTrip.CanonicalField(env, L, L.fields[1]);
    }
    RoundTrip.UnpackThenPack(env, L, FreshSlots(L), data, 0);
    assert data[0..8] == data;
  }

  // ---------------------------------------------------------------------------
  // test_nested

  /** class Sub(StructObject): foo = IntegerField() */
  function Sub(): Layout
  {
    IntStruct("foo")
  }

  /** class Container(StructObject): bar = ShortField(); nested = Sub() */
  function Container(): Layout
  {
    Declare([Prim(Fields.NewField(Fields.Short, "bar")), NestedField(Sub())])
  }

  function ContainerSlots(): seq<Slot>
  {
    [Slot(1, Scalar(PyStruct.Int(1))), Slot(1, Struct([Slot(1, Scalar(PyStruct.Int(1)))]))]
  }

  lemma ContainerBar(env: Env, data: seq<byte>)
    requires data == [0, 1, 0, 0, 0, 1]
    ensures UnpackField(env, Container(), 0, FreshSlots(Container()), data, 0) == Ok((ContainerSlots()[0], 2))
  {
    var L := Container();
    ReadsInt(env, '!', L.fields[0].desc, data, 0);
    assert data[0..2] == [0, 1];
    ShortBytes(1);
  }

  lemma ContainerNested(env: Env, data: seq<byte>)
    requires data == [0, 1, 0, 0, 0, 1]
    ensures UnpackField(env, Container(), 1, [ContainerSlots()[0]] + FreshSlots(Container())[1..], data, 2) ==
      Ok((ContainerSlots()[1], 6))
  {
    var L := Container();
    var cur := [ContainerSlots()[0]] + FreshSlots(L)[1..];
    assert cur[1].val == Unset;
    assert NestedSlots(Sub(), cur[1].val) == FreshSlots(Sub());
    assert Size(Sub()) == 4 by {
      assert SizeUpTo(Sub(), 0) == 0;
      assert FieldSize(Sub(), 0) == 4;
    }
    Utils.PySliceWithin(data, 2, 6);
    IntStructReadsOne(env, "foo", data[2..6]);
  }

  /** Container's nested Sub has one flat integer member, which pack writes
      back in the order unpack read it. */
  lemma ContainerCanonical(env: Env)
    ensures RoundTrip.Canonical(env, Container())
  {
    var L := Container();
    assert RoundTrip.CanonicalField(env, L, L.fields[0]);
    assert RoundTrip.FlatMember(env, Sub(), Sub().fields[0], '!');
    assert RoundTrip.CanonicalField(env, L, L.fields[1]);
  }

  lemma NestedStruct(env: Env)
    ensures UnpackLayout(env, Container(), FreshSlots(Container()), [0, 1, 0, 0, 0, 1], 0) == Ok((ContainerSlots(), 6))
    ensures Pack(env, Container(), ContainerSlots()) == Ok([0, 1, 0, 0, 0, 1])
  {
    var L := Container();
    var data: seq<byte> := [0, 1, 0, 0, 0, 1];
    var slots := ContainerSlots();
    ContainerBar(env, data);
    ContainerNested(env, data);
    TwoFields(env, L, data, slots[0], 2, slots[1], 6);
    ContainerCanonical(env);
    RoundTrip.UnpackThenPack(env, L, FreshSlots(L), data, 0);
    assert data[0..6] == data;
  }

  // ---------------------------------------------------------------------------
  // test_dependant

  /** sizeof=lambda x: x.length, where length is the struct's first field; a
      length that is not an integer yet is a count struct refuses. */
  function LengthOf(slots: seq<Slot>): int
  {
    if |slots| > 0 && slots[0].val.Scalar? && slots[0].val.item.Int? then slots[0].val.item.i else -1
  }

  /** class VariableLengthString(StructObject): length = IntegerField();
      string_data = CharArrayField(encoding='utf-8', sizeof=lambda x: x.length) */
  function VariableLengthString(): Layout
  {
    Declare([Prim(Fields.NewField(Fields.Int, "length")),
             Prim(Fields.NewCharArray("string_data", sizeof := Some(LengthOf), encoding := Some("utf-8")))])
  }

  /** b'foobar' */
  function Foobar(): seq<byte>
  {
    [102, 111, 111, 98, 97, 114]
  }

  function VariableLengthStringSlots(): seq<Slot>
  {
    [Slot(1, Scalar(PyStruct.Int(6))), Slot(6, Text("foobar"))]
  }

  /** A UTF-8 codec that reads b'foobar' as 'foobar' and whose encode undoes its decode. */
  ghost predicate Utf8Reads(env: Env)
  {
    env.codecs("utf-8").Some? && env.codecs("utf-8").value.decode(Foobar()) == Some("foobar") &&
    Utils.Reversible(env.codecs("utf-8").value)
  }

  lemma VariableLengthStringData(env: Env, data: seq<byte>)
    requires Utf8Reads(env)
    requires data == [0, 0, 0, 6] + Foobar()
    ensures UnpackField(env, VariableLengthString(), 1, [VariableLengthStringSlots()[0]] + FreshSlots(VariableLengthString())[1..], data, 4) ==
      Ok((VariableLengthStringSlots()[1], 10))
  {
    var L := VariableLengthString();
    var cur := [VariableLengthStringSlots()[0]] + FreshSlots(L)[1..];
    var d := L.fields[1].desc;
    assert LengthOf(cur) == 6;
    var d' := d.(count := 6);
    assert Fields.ElemSize(d') == 1;
    Utils.PySliceWithin(data, 4, 10);
    var chunk := data[4..10];
    assert chunk == Foobar();
    var c := PyStruct.Code(6, 's');
    assert Fields.Codes(d') == [c];
    assert PyStruct.CalcSize([c]) == PyStruct.CodeSize(c) + PyStruct.CalcSize([]);
    PyStruct.UnpackOneCode(c, false, chunk);
    assert UnpackFixed(env, L.order, d', data, 4) == Ok((Slot(6, Tuple([PyStruct.Raw(chunk)])), 10));
  }

  lemma Dependant(env: Env)
    requires Utf8Reads(env)
    ensures UnpackLayout(env, VariableLengthString(), FreshSlots(VariableLengthString()), [0, 0, 0, 6] + Foobar(), 0) ==
      Ok((VariableLengthStringSlots(), 10))
    ensures Pack(env, VariableLengthString(), VariableLengthStringSlots()) == Ok([0, 0, 0, 6] + Foobar())
  {
    var L := VariableLengthString();
    var data: seq<byte> := [0, 0, 0, 6] + Foobar();
    var slots := VariableLengthStringSlots();
    ReadsInt(env, '!', L.fields[0].desc, data, 0);
    assert data[0..4] == [0, 0, 0, 6];
    IntBytes(6);
    VariableLengthStringData(env, data);
    TwoFields(env, L, data, slots[0], 4, slots[1], 10);
    assert RoundTrip.Canonical(env, L) by {
      assert RoundTrip.CanonicalField(env, L, L.fields[0]);
      assert RoundTrip.CanonicalField(env, L, L.fields[1]);
    }
    RoundTrip.UnpackThenPack(env, L, FreshSlots(L), data, 0);
    assert data[0..10] == data;
  }

  // ---------------------------------------------------------------------------
  // A char with a sizeof callback

  /** class CharRun(StructObject): n = IntegerField();
      chars = CharField(sizeof=lambda x: x.n) */
  function CharRun(): Layout
  {
    Declare([Prim(Fields.NewField(Fields.Int, "n")),
             Prim(Fields.NewField(Fields.Char, "chars", sizeof := Some(LengthOf)))])
  }

  /** The char field reads its two bytes, then asks for its encoding, which a
      char does not have. */
  lemma CharRunChars(env: Env, data: seq<byte>)
    requires data == [0, 0, 0, 2, 97, 98]
    ensures UnpackField(env, CharRun(), 1, [Slot(1, Scalar(PyStruct.Int(2)))] + FreshSlots(CharRun())[1..], data, 4) ==
      Err(AttributeError)
  {
    var L := CharRun();
    var cur := [Slot(1, Scalar(PyStruct.Int(2)))] + FreshSlots(L)[1..];
    var d := L.fields[1].desc;
    assert LengthOf(cur) == 2;
    var d' := d.(count := 2);
    assert Fields.ElemSize(d') == 1;
    Utils.PySliceWithin(data, 4, 6);
    var c := PyStruct.Code(2, 'c');
    assert Fields.Codes(d') == [c];
    assert PyStruct.CalcSize([c]) == PyStruct.CodeSize(c) + PyStruct.CalcSize([]);
    assert UnpackFixed(env, L.order, d', data, 4).Ok?;
    SizeofNeedsEncoding(env, L.order, d, 2, data, 4);
  }

  /** unpack of a struct whose char field has a sizeof callback raises
      AttributeError once the char's window is read: only a char[] has an
      encoding to look up. */
  lemma CharCountRaises(env: Env)
    ensures UnpackLayout(env, CharRun(), FreshSlots(CharRun()), [0, 0, 0, 2, 97, 98], 0) == Err(AttributeError)
  {
    var L := CharRun();
    var data: seq<byte> := [0, 0, 0, 2, 97, 98];
    ReadsInt(env, '!', L.fields[0].desc, data, 0);
    assert data[0..4] == [0, 0, 0, 2];
    IntBytes(2);
    var first := Slot(1, Scalar(PyStruct.Int(2)));
    assert UnpackField(env, L, 0, FreshSlots(L), data, 0) == Ok((first, 4));
    FirstField(env, L, FreshSlots(L), data);
    CharRunChars(env, data);
    NextField(env, L, FreshSlots(L), data, 2, [first], 4);
  }

  // ---------------------------------------------------------------------------
  // test_override_byte_order

  /** class MyData(StructObject): length = IntegerField();
      char = UnsignedCharField(byte_order='@') */
  function MyData(): Layout
  {
    Declare([Prim(Fields.NewField(Fields.Int, "length")),
             Prim(Fields.NewField(Fields.UnsignedChar, "char", byteOrder := Some('@')))])
  }

  function MyDataSlots(): seq<Slot>
  {
    [Slot(1, Scalar(PyStruct.Int(6))), Slot(1, Scalar(PyStruct.Int(12)))]
  }

  lemma MyDataChar(env: Env, data: seq<byte>)
    requires data == [0, 0, 0, 6, 12]
    ensures UnpackField(env, MyData(), 1, [MyDataSlots()[0]] + FreshSlots(MyData())[1..], data, 4) == Ok((MyDataSlots()[1], 5))
  {
    var L := MyData();
    ReadsInt(env, '@', L.fields[1].desc, data, 4);
    assert data[4..5] == [12];
    OneByte(12, PyStruct.LittleEndian(env.nativeLittle, ['@']));
  }

  /** The one-byte field reads the same in the native order as in any other, so
      unpack does not depend on the machine. */
  lemma MyDataUnpacks(env: Env)
    ensures UnpackLayout(env, MyData(), FreshSlots(MyData()), [0, 0, 0, 6, 12], 0) == Ok((MyDataSlots(), 5))
  {
    var L := MyData();
    var data: seq<byte> := [0, 0, 0, 6, 12];
    var slots := MyDataSlots();
    ReadsInt(env, '!', L.fields[0].desc, data, 0);
    assert data[0..4] == [0, 0, 0, 6];
    IntBytes(6);
    MyDataChar(env, data);
    TwoFields(env, L, data, slots[0], 4, slots[1], 5);
  }

  /** Neither field is a bool, a sizeof field or a nested struct. */
  lemma MyDataCanonical(env: Env)
    ensures RoundTrip.Canonical(env, MyData())
  {
    var L := MyData();
    assert RoundTrip.CanonicalField(env, L, L.fields[0]);
    assert RoundTrip.CanonicalField(env, L, L.fields[1]);
  }

  /** test_override_byte_order: the same values on any machine, and pack gives
      the bytes back. */
  lemma OverrideByteOrder(env: Env)
    ensures UnpackLayout(env, MyData(), FreshSlots(MyData()), [0, 0, 0, 6, 12], 0) == Ok((MyDataSlots(), 5))
    ensures Pack(env, MyData(), MyDataSlots()) == Ok([0, 0, 0, 6, 12])
  {
    var data: seq<byte> := [0, 0, 0, 6, 12];
    MyDataUnpacks(env);
    MyDataCanonical(env);
    RoundTrip.UnpackThenPack(env, MyData(), FreshSlots(MyData()), data, 0);
    assert data[0..5] == data;
  }
}
