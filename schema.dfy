/** The data model of pystructs/models.py: byte-order tokens, struct layouts as
    explicit ordered field lists, the per-instance state of each field, and the
    size and format a struct reports. */
module Schema {
  import opened Common
  import opened Numerals
  import PyStruct
  import Fields
  import Utils

  const NativeByteOrder: PyStruct.OrderChar := '@'
  const StandardNativeByteOrder: PyStruct.OrderChar := '='
  const LittleEndianByteOrder: PyStruct.OrderChar := '<'
  const BigEndianByteOrder: PyStruct.OrderChar := '>'
  const NetworkByteOrder: PyStruct.OrderChar := '!'

  /** A field's value as a struct instance holds it. */
  datatype Value =
    | Unset                              // None: nothing decoded yet
    | Scalar(item: PyStruct.Item)        // the single element of a one-element result
    | Tuple(items: seq<PyStruct.Item>)   // the tuple struct.unpack returned
    | Text(text: string)                 // a char[] decoded with its encoding
    | Struct(slots: seq<Slot>)           // a nested struct instance

  /** A field's per-instance state: its count, which a sizeof field replaces on
      every unpack and pack then reads back through the format, and its value. */
  datatype Slot = Slot(count: int, val: Value)

  /** A sizeof callback: computes a count from the fields decoded before it. */
  type SizeOf = seq<Slot> -> int

  /** A field of a struct: a descriptor of the catalog, or an instance of another
      struct class used as a field (it keeps StructFieldDescriptor's count and
      byte_order). */
  datatype Field =
    | Prim(desc: Fields.Descriptor<SizeOf>)
    | Nested(layout: Layout, count: nat, byteOrder: Option<PyStruct.OrderChar>)

  /** A StructObject subclass: its BYTE_ORDER and its descriptor attributes in
      the order the class body declares them. */
  datatype Layout = Layout(order: PyStruct.OrderChar, fields: seq<Field>)

  /** The platform's byte order, and the codec registry text fields use. */
  datatype Env = Env(nativeLittle: bool, codecs: Utils.Codecs)

  /** A struct class that does not override BYTE_ORDER. */
  function Declare(fields: seq<Field>): (L: Layout)
    ensures L.order == NetworkByteOrder && L.fields == fields
  {
    Layout(NetworkByteOrder, fields)
  }

  /** A struct instance used as a field, as Sub() builds it. */
  function NestedField(sub: Layout): (f: Field)
    ensures f.Nested? && f.layout == sub && f.count == 1 && f.byteOrder.None?
  {
    Nested(sub, 1, None)
  }

  function DeclaredCount(f: Field): int
  {
    match f
    case Prim(d) => d.count
    case Nested(_, count, _) => count
  }

  /** The byte-order character a field's own format starts with:
      field.byte_order or self.BYTE_ORDER. */
  function FieldOrder(f: Field, L: Layout): PyStruct.OrderChar
  {
    var o := match f case Prim(d) => d.byteOrder case Nested(_, _, bo) => bo;
    if o.Some? then o.value else L.order
  }

  /** An instance before anything is unpacked: declared counts, no values. */
  function FreshSlots(L: Layout): (slots: seq<Slot>)
    ensures |slots| == |L.fields|
    ensures forall j :: 0 <= j < |L.fields| ==> slots[j] == Slot(DeclaredCount(L.fields[j]), Unset)
  {
    seq(|L.fields|, j requires 0 <= j < |L.fields| => Slot(DeclaredCount(L.fields[j]), Unset))
  }

  /** size: the sum of the fields' sizes, where a descriptor contributes its
      per-element _size (not multiplied by its count) and a nested struct its own
      size. */
  function Size(L: Layout): nat
    decreases L, |L.fields| + 1
  {
    SizeUpTo(L, |L.fields|)
  }

  function SizeUpTo(L: Layout, k: nat): nat
    requires k <= |L.fields|
    decreases L, k
  {
    if k == 0 then 0 else SizeUpTo(L, k - 1) + FieldSize(L, k - 1)
  }

  function FieldSize(L: Layout, i: nat): nat
    requires i < |L.fields|
    decreases L, i
  {
    match L.fields[i]
    case Prim(d) => Fields.ElemSize(d)
    case Nested(sub, _, _) =>
      assert L.fields[i] in L.fields;
      Size(sub)
  }

  /** The nested instance a value stands for, or a fresh one. */
  function NestedSlots(sub: Layout, v: Value): (slots: seq<Slot>)
    ensures |slots| == |sub.fields|
  {
    if v.Struct? && |v.slots| == |sub.fields| then v.slots else FreshSlots(sub)
  }

  /** format: the fields' formats joined in order; a descriptor's is
      '%d%s' % (count, _fmt) with the instance's current count, a nested
      struct's is its own format. */
  function LayoutFormat(L: Layout, slots: seq<Slot>): string
    requires |slots| == |L.fields|
    decreases L, |L.fields| + 1
  {
    FormatUpTo(L, slots, |L.fields|)
  }

  function FormatUpTo(L: Layout, slots: seq<Slot>, k: nat): string
    requires |slots| == |L.fields| && k <= |L.fields|
    decreases L, k
  {
    if k == 0 then "" else FormatUpTo(L, slots, k - 1) + FieldFormat(L, k - 1, slots[k - 1])
  }

  function FieldFormat(L: Layout, i: nat, slot: Slot): string
    requires i < |L.fields|
    decreases L, i
  {
    match L.fields[i]
    case Prim(d) => IntToDecimal(slot.count) + [Fields.Fmt(d.kind)]
    case Nested(sub, _, _) =>
      assert L.fields[i] in L.fields;
      LayoutFormat(sub, NestedSlots(sub, slot.val))
  }

  // ---------------------------------------------------------------------------
  // format and size against struct

  /** A struct whose fields are all descriptors. */
  predicate AllPrim(L: Layout)
  {
    forall j :: 0 <= j < |L.fields| ==> L.fields[j].Prim?
  }

  /** The codes "count, character" of the first k fields at the instance's counts. */
  function SlotCodes(L: Layout, slots: seq<Slot>, k: nat): (codes: seq<PyStruct.Code>)
    requires AllPrim(L) && |slots| == |L.fields| && k <= |L.fields|
    requires forall j :: 0 <= j < k ==> slots[j].count >= 0
    ensures |codes| == k
  {
    seq(k, j requires 0 <= j < k => PyStruct.Code(slots[j].count, Fields.Fmt(L.fields[j].desc.kind)))
  }

  lemma SlotCodesSnoc(L: Layout, slots: seq<Slot>, k: nat)
    requires AllPrim(L) && |slots| == |L.fields| && 0 < k <= |L.fields|
    requires forall j :: 0 <= j < k ==> slots[j].count >= 0
    ensures SlotCodes(L, slots, k) ==
      SlotCodes(L, slots, k - 1) + [PyStruct.Code(slots[k - 1].count, Fields.Fmt(L.fields[k - 1].desc.kind))]
  {
  }

  /** The format of the first k descriptor fields is the text of their codes. */
  lemma {:induction false} FormatUpToIsFormatOf(L: Layout, slots: seq<Slot>, k: nat)
    requires AllPrim(L) && |slots| == |L.fields| && k <= |L.fields|
    requires forall j :: 0 <= j < k ==> slots[j].count >= 0
    ensures FormatUpTo(L, slots, k) == PyStruct.FormatOf(SlotCodes(L, slots, k))
    decreases k
  {
    if k == 0 {
      assert SlotCodes(L, slots, 0) == [];
    } else {
      FormatUpToIsFormatOf(L, slots, k - 1);
      var c := PyStruct.Code(slots[k - 1].count, Fields.Fmt(L.fields[k - 1].desc.kind));
      PyStruct.FormatOfSnoc(SlotCodes(L, slots, k - 1), c);
      SlotCodesSnoc(L, slots, k);
    }
  }

  /** format, handed to struct, parses into one code per field in declaration
      order, each at the instance's count. */
  lemma LayoutFormatParses(L: Layout, slots: seq<Slot>)
    requires AllPrim(L) && |slots| == |L.fields|
    requires forall j :: 0 <= j < |L.fields| ==> slots[j].count >= 0
    ensures PyStruct.ParseCodes(LayoutFormat(L, slots)) == Some(SlotCodes(L, slots, |L.fields|))
  {
    var codes := SlotCodes(L, slots, |L.fields|);
    forall j | 0 <= j < |codes|
      ensures PyStruct.Known(codes[j].fmt)
    {
      Fields.FmtIsStructCode(L.fields[j].desc.kind);
    }
    FormatUpToIsFormatOf(L, slots, |L.fields|);
    PyStruct.ParseFormatOf(codes);
  }

  /** A field whose _size is its code's standard size: every descriptor but a
      char[] without sizeof, whose _size stays 0. */
  predicate SizedLikeCode(f: Field)
  {
    f.Prim? && (f.desc.kind != Fields.CharArray || f.desc.sizeof.Some?)
  }

  /** size is struct.calcsize(format) when every count is 1. */
  lemma {:induction false} SizeUpToIsCalcSize(L: Layout, slots: seq<Slot>, k: nat)
    requires AllPrim(L) && |slots| == |L.fields| && k <= |L.fields|
    requires forall j :: 0 <= j < k ==> slots[j].count == 1 && SizedLikeCode(L.fields[j])
    ensures SizeUpTo(L, k) == PyStruct.CalcSize(SlotCodes(L, slots, k))
    decreases k
  {
    if k == 0 {
      assert SlotCodes(L, slots, 0) == [];
    } else {
      SizeUpToIsCalcSize(L, slots, k - 1);
      var d := L.fields[k - 1].desc;
      var c := PyStruct.Code(1, Fields.Fmt(d.kind));
      Fields.FmtIsStructCode(d.kind);
      Fields.Widths();
      assert FieldSize(L, k - 1) == PyStruct.CodeSize(c);
      PyStruct.CalcSizeSnoc(SlotCodes(L, slots, k - 1), c);
      SlotCodesSnoc(L, slots, k);
    }
  }

  lemma SizeIsCalcSize(L: Layout, slots: seq<Slot>)
    requires AllPrim(L) && |slots| == |L.fields|
    requires forall j :: 0 <= j < |L.fields| ==> slots[j].count == 1 && SizedLikeCode(L.fields[j])
    ensures Size(L) == PyStruct.CalcSize(SlotCodes(L, slots, |L.fields|))
  {
    SizeUpToIsCalcSize(L, slots, |L.fields|);
  }

  /** size counts a descriptor's _size once whatever its count: a struct of one
      short with count 2 has size 2, while its format "2h" needs 4 bytes. */
  lemma SizeIgnoresCount()
    ensures var L := Declare([Prim(Fields.NewField(Fields.Short, count := 2))]);
      && Size(L) == 2
      && LayoutFormat(L, FreshSlots(L)) == "2h"
      && PyStruct.CalcSize([PyStruct.Code(2, 'h')]) == 4
  {
    var L := Declare([Prim(Fields.NewField(Fields.Short, count := 2))]);
    assert FieldSize(L, 0) == 2;
    assert SizeUpTo(L, 1) == SizeUpTo(L, 0) + FieldSize(L, 0);
    var slots := FreshSlots(L);
    assert slots[0].count == 2;
    assert FieldFormat(L, 0, slots[0]) == "2h";
    assert FormatUpTo(L, slots, 1) == FormatUpTo(L, slots, 0) + FieldFormat(L, 0, slots[0]);
    assert PyStruct.CalcSize([PyStruct.Code(2, 'h')]) == PyStruct.CodeSize(PyStruct.Code(2, 'h')) + PyStruct.CalcSize([]);
  }
}
