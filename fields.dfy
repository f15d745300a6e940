/** The field descriptor catalog of pystructs/fields.py: each descriptor class
    fixes a struct format character, a per-element width (_size) and a value type
    (_typ), and may inherit the last two from the class it derives from. */
module Fields {
  import opened Common
  import opened Numerals
  import PyStruct

  /** The descriptor classes covered by the model. */
  datatype Kind =
    | Char | SignedChar | UnsignedChar | Bool
    | Short | UnsignedShort
    | Int | UnsignedInt | Long | UnsignedLong
    | LongLong | UnsignedLongLong
    | CharArray

  /** The Python type a kind decodes to. */
  datatype PyType = IntType | BoolType | BytesType

  /** The class each kind's class derives from; None for a direct subclass of
      StructFieldDescriptor. */
  function Parent(k: Kind): Option<Kind>
  {
    match k
    case UnsignedChar => Some(SignedChar)
    case UnsignedShort => Some(Short)
    case UnsignedInt => Some(Int)
    case Long => Some(Int)
    case UnsignedLong => Some(Long)
    case LongLong => Some(Long)
    case UnsignedLongLong => Some(LongLong)
    case _ => None
  }

  /** How far a kind's class is below StructFieldDescriptor's direct subclasses. */
  function Depth(k: Kind): nat
  {
    match k
    case UnsignedChar => 1
    case UnsignedShort => 1
    case UnsignedInt => 1
    case Long => 1
    case UnsignedLong => 2
    case LongLong => 2
    case UnsignedLongLong => 3
    case _ => 0
  }

  /** _fmt: every class of the catalog sets its own. */
  function Fmt(k: Kind): char
  {
    match k
    case Char => 'c'
    case SignedChar => 'b'
    case UnsignedChar => 'B'
    case Bool => '?'
    case Short => 'h'
    case UnsignedShort => 'H'
    case Int => 'i'
    case UnsignedInt => 'I'
    case Long => 'l'
    case UnsignedLong => 'L'
    case LongLong => 'q'
    case UnsignedLongLong => 'Q'
    case CharArray => 's'
  }

  /** _size where the class body sets it. */
  function OwnSize(k: Kind): Option<nat>
  {
    match k
    case Char => Some(1)
    case SignedChar => Some(1)
    case Bool => Some(1)
    case Short => Some(2)
    case Int => Some(4)
    case LongLong => Some(8)
    case _ => None
  }

  /** _typ where the class body sets it. */
  function OwnType(k: Kind): Option<PyType>
  {
    match k
    case Char => Some(BytesType)
    case SignedChar => Some(IntType)
    case Bool => Some(BoolType)
    case Short => Some(IntType)
    case Int => Some(IntType)
    case CharArray => Some(BytesType)
    case _ => None
  }

  /** The class attribute _size after inheritance; StructFieldDescriptor's is 0. */
  function Width(k: Kind): nat
    decreases Depth(k)
  {
    match OwnSize(k)
    case Some(w) => w
    case None =>
      match Parent(k)
      case None => 0
      case Some(p) => Width(p)
  }

  /** The class attribute _typ after inheritance. */
  function ValueType(k: Kind): Option<PyType>
    decreases Depth(k)
  {
    match OwnType(k)
    case Some(t) => Some(t)
    case None =>
      match Parent(k)
      case None => None
      case Some(p) => ValueType(p)
  }

  /** Whether the class has an _encoding attribute: only CharArrayField.__init__
      sets one, and StructFieldDescriptor declares none. */
  predicate HasEncoding(k: Kind)
  {
    k == CharArray
  }

  predicate IsBytesType(k: Kind)
  {
    ValueType(k) == Some(BytesType)
  }

  /** The per-element widths the catalog ends up with. */
  lemma Widths()
    ensures Width(Char) == 1 && Width(SignedChar) == 1 && Width(UnsignedChar) == 1 && Width(Bool) == 1
    ensures Width(Short) == 2 && Width(UnsignedShort) == 2
    ensures Width(Int) == 4 && Width(UnsignedInt) == 4 && Width(Long) == 4 && Width(UnsignedLong) == 4
    ensures Width(LongLong) == 8 && Width(UnsignedLongLong) == 8
    ensures Width(CharArray) == 0
  {
  }

  /** Every kind has a value type; exactly char and char[] decode to bytes. */
  lemma ValueTypes(k: Kind)
    ensures ValueType(k).Some?
    ensures IsBytesType(k) <==> k == Char || k == CharArray
    ensures ValueType(k) == Some(BoolType) <==> k == Bool
  {
  }

  /** A derived class differs from its parent in the format character only: width
      and value type are inherited. */
  lemma DerivedKindsInherit(k: Kind)
    requires Parent(k).Some? && k != LongLong
    ensures Width(k) == Width(Parent(k).value)
    ensures ValueType(k) == ValueType(Parent(k).value)
    ensures Fmt(k) != Fmt(Parent(k).value)
  {
  }

  /** The one override in the hierarchy: long long keeps long's type but sets
      its own width of 8. */
  lemma LongLongOverridesWidth()
    ensures Parent(LongLong) == Some(Long)
    ensures ValueType(LongLong) == ValueType(Long) && Width(LongLong) == 8 != Width(Long)
  {
  }

  /** Each kind's format character is one the struct model knows, with the
      kind's width as its standard size (char[] uses one byte per repetition). */
  lemma FmtIsStructCode(k: Kind)
    ensures PyStruct.Known(Fmt(k))
    ensures k != CharArray ==> PyStruct.ItemSize(Fmt(k)) == Width(k)
    ensures k == CharArray ==> PyStruct.ItemSize(Fmt(k)) == 1
    ensures PyStruct.IsSigned(Fmt(k)) <==> k in {SignedChar, Short, Int, Long, LongLong}
    ensures Fmt(k) == 's' <==> k == CharArray
  {
  }

  /** One field descriptor as StructFieldDescriptor.__init__ records it. The value
      a descriptor decodes to is not part of it: it lives in each struct instance. */
  datatype Descriptor<S> = Descriptor(
    name: string,
    kind: Kind,
    count: int,
    sizeof: Option<S>,
    byteOrder: Option<PyStruct.OrderChar>,
    encoding: Option<string>)

  /** StructFieldDescriptor(name, count=1, sizeof=None, byte_order=None) for one
      of the catalog's classes. */
  function NewField<S>(k: Kind, name: string := "", count: int := 1, sizeof: Option<S> := None,
                       byteOrder: Option<PyStruct.OrderChar> := None): (d: Descriptor<S>)
    requires k != CharArray
    ensures d.kind == k && d.name == name && d.count == count
    ensures d.sizeof == sizeof && d.byteOrder == byteOrder && d.encoding.None?
  {
    Descriptor(name, k, count, sizeof, byteOrder, None)
  }

  /** CharArrayField(name, count=1, sizeof=None, encoding=None): it passes no
      byte order on, so a char[] never overrides the struct's. */
  function NewCharArray<S>(name: string := "", count: int := 1, sizeof: Option<S> := None,
                           encoding: Option<string> := None): (d: Descriptor<S>)
    ensures d.kind == CharArray && d.name == name && d.count == count
    ensures d.sizeof == sizeof && d.byteOrder.None? && d.encoding == encoding
  {
    Descriptor(name, CharArray, count, sizeof, None, encoding)
  }

  /** The instance's _size: the class width, except that a sizeof callback turns a
      width of 0 into 1 so that the count alone decides how many bytes are read. */
  function ElemSize<S>(d: Descriptor<S>): (n: nat)
    ensures d.sizeof.Some? ==> n >= 1
    ensures Width(d.kind) > 0 ==> n == Width(d.kind)
    ensures d.sizeof.None? ==> n == Width(d.kind)
  {
    if d.sizeof.Some? && Width(d.kind) == 0 then 1 else Width(d.kind)
  }

  /** _format: '%d%s' % (count, _fmt). */
  function Format<S>(d: Descriptor<S>): string
  {
    IntToDecimal(d.count) + [Fmt(d.kind)]
  }

  /** A descriptor's format string is the one struct code "count, character", or
      a bad format when the count is negative. */
  lemma FormatParses<S>(d: Descriptor<S>)
    ensures d.count >= 0 ==> PyStruct.ParseCodes(Format(d)) == Some([PyStruct.Code(d.count, Fmt(d.kind))])
    ensures d.count < 0 ==> PyStruct.ParseCodes(Format(d)) == None
  {
    FmtIsStructCode(d.kind);
    if d.count >= 0 {
      PyStruct.ParseCode(d.count, Fmt(d.kind), "");
      assert PyStruct.ParseCodes("") == Some([]);
      assert Format(d) == NatToDecimal(d.count) + [Fmt(d.kind)] + "";
      assert [PyStruct.Code(d.count, Fmt(d.kind))] + [] == [PyStruct.Code(d.count, Fmt(d.kind))];
    } else {
      PyStruct.NegativeCountRejected(d.count, Fmt(d.kind), "");
      assert Format(d) == IntToDecimal(d.count) + [Fmt(d.kind)] + "";
    }
  }

  /** The codes a descriptor's format parses to, for a non-negative count:
      the one code "count, character" (see FormatParses). */
  function Codes<S>(d: Descriptor<S>): (codes: seq<PyStruct.Code>)
    requires d.count >= 0
    ensures codes == [PyStruct.Code(d.count, Fmt(d.kind))]
    ensures forall j :: 0 <= j < |codes| ==> PyStruct.Known(codes[j].fmt)
  {
    FmtIsStructCode(d.kind);
    [PyStruct.Code(d.count, Fmt(d.kind))]
  }

  lemma FormatOfTwoShorts()
    ensures Format(NewField<int>(Short, count := 2)) == "2h"
  {
  }

  /** ArrayField(base_field, name, count=None, sizeof=None): a run of a base
      field's elements. */
  datatype ArrayDescriptor<S> = ArrayDescriptor(base: Kind, name: string, count: Option<int>, sizeof: Option<S>)

  /** _fmt, aliased to the base field's. */
  function ArrayFmt<S>(a: ArrayDescriptor<S>): (c: char)
    ensures c == Fmt(a.base)
    ensures PyStruct.Known(c) && PyStruct.ItemSize(c) == ArraySize(a)
  {
    FmtIsStructCode(a.base);
    Widths();
    Fmt(a.base)
  }

  /** _size: the base field's width, or 1 when the base has none. */
  function ArraySize<S>(a: ArrayDescriptor<S>): (n: nat)
    ensures n >= 1
    ensures Width(a.base) > 0 ==> n == Width(a.base)
    ensures Width(a.base) == 0 ==> n == 1
  {
    if Width(a.base) == 0 then 1 else Width(a.base)
  }

  /** An ArrayField's _size is the one a descriptor of its base kind gets once
      it has a sizeof callback. */
  lemma ArraySizeIsSizeofWidth<S>(a: ArrayDescriptor<S>, d: Descriptor<S>)
    requires d.kind == a.base && d.sizeof.Some?
    ensures ArraySize(a) == ElemSize(d)
  {
  }

  /** __len__: 0 while no value is held, else the number of elements held. */
  function ArrayLength<T>(val: Option<seq<T>>): (n: nat)
    ensures val.None? ==> n == 0
    ensures val.Some? ==> n == |val.value|
  {
    match val
    case None => 0
    case Some(v) => |v|
  }
}
