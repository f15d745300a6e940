# pystructs in Dafny

pystructs describes binary records as Python classes. A subclass of
`StructObject` lists field descriptors in its class body: `IntegerField`,
`ShortField`, `CharArrayField` and so on. `unpack` reads a byte string field by
field through a cursor, `StatefulByteStream`. Each field's window goes through
Python's `struct` module with a byte-order prefix. `pack` writes the fields'
values back with the same formats.

This project models that core. It consists of:

- **Utils** (`utils.dfy`, from `pystructs/utils.py`): the byte cursor is a
  class `ByteStream` with an immutable `data` and a mutable `offset`. Its `Slice`
  method is specified by `PySlice`, Python's clamped `data[a:b]`. `SafeDecode`
  is over an abstract codec registry.
- **Fields** (`fields.dfy`, from `pystructs/fields.py`): the descriptor catalog.
  Each class's format character, `_size` and `_typ` are defined by class
  inheritance: a `Parent` relation, with each class setting its own attributes
  or inheriting them.
  - A descriptor is a value: name, kind, count, sizeof callback, byte-order
    override and encoding.
  - Also included: `ElemSize` (the instance's `_size`), `Format` (`'%d%s'`) and
    `ArrayField`'s aliases and `__len__`.
- **Schema** (`schema.dfy`, from `pystructs/models.py`): the five byte-order
  tokens and struct layouts. A layout is a `BYTE_ORDER` plus the fields in
  declaration order.
  - Each field's per-instance state (`Slot`) is its current count and its value.
  - Also included: the `size` and `format` properties.
- **Codec** (`codec.dfy`): what `unpack`, `_unpack_sizeof` and `pack` compute,
  written as functions of the layout, the bytes and the instance's state. It
  covers one loop iteration, the first k iterations, and the whole loop.
- **Models** (`models.dfy`): `StructObject` as a class whose `slots` field the
  methods update in place. Each method is proved equal to its Codec function:
  - `UnpackBytes` and `UnpackStream` are loops over the fields that advance a
    shared `ByteStream`;
  - `UnpackFieldAt`, `UnpackFixedAt` and `UnpackSizeof` are the loop body;
  - `Pack` is the output-accumulating loop.
- **PyStruct**, **Bytes**, **Numerals** (`pystruct.dfy`, `bytes.dfy`,
  `numerals.dfy`): the part of Python's `struct` module that the catalog uses.
  - Format parsing: an optional byte-order prefix, then `<count><char>` codes.
  - `calcsize`, `unpack` and `pack` for the codes `c b B ? h H i I l L q Q s`.
    Standard sizes are used, and integers are little- or big-endian,
    unsigned or two's complement.
  - `'%d'` formatting of counts.
- **RoundTrip** (`roundtrip.dfy`): the main theorems.
  - On a *canonical* layout, `pack` after `unpack` returns exactly the bytes
    `unpack` consumed.
  - Unpacking those bytes again gives the same state.
  - `unpack` reads only the bytes it consumes, so trailing bytes are ignored.
- **Scenarios** (`scenarios.dfy`): the layouts of `tests/test_models.py`, each
  with its concrete bytes, the state `unpack` produces, and `pack` returning
  the input.

A layout is canonical when:

- it has no bool field (struct reads any nonzero byte as `True` and writes
  `True` as `0x01`; see `PyStruct.BoolNormalizes`);
- every sizeof field's own byte order agrees with the struct's order wherever
  the width is more than one byte (unpack reads such a field in `BYTE_ORDER`;
  pack writes it in the field's order);
- a nested struct has only integer members of count 1 without a sizeof
  callback, which pack can write back in the outer order;
- every text encoding's codec decodes and re-encodes reversibly.

The platform's endianness (for `'@'` and `'='`) and the codec registry are
parameters: `Schema.Env`.

Where the code and its documentation differ, the model follows the code:

- `slice` past the end of the data returns a shorter window and raises nothing.
- A text field whose bytes fail to decode makes `unpack` fail with the decode
  error. `safe_decode`, which would fall back to the raw bytes, is not called by
  `models.py`.
- A nested struct's window is `size * count` bytes. Here `size` is the nominal
  size: the sum of the members' `_size`, with their counts ignored.
- A sizeof field is always read in the struct's `BYTE_ORDER`, ignoring the
  field's own `byte_order`. `pack` writes it with the field's own order.
- `field.encoding` is an attribute only of `CharArrayField`, the one class
  whose constructor sets it. So a `CharField` with a sizeof callback, whose
  type is `bytes`, makes `_unpack_sizeof` raise AttributeError once its window
  has been read. Likewise, `pack` raises AttributeError for a text value held
  by any field other than a char[]. An encoding of `''` is false, so `pack`
  encodes with `utf-8` in its place.

## Model

| member | source | states |
|---|---|---|
| Utils.PySlice | pystructs/utils.py:35 | The window has at most `b - a` bytes. It has exactly `b - a` when `b` is within the data, and is shortened to the rest of the data past the end. It is empty from the end on. Element k is `data[a + k]`. |
| Utils.PySliceWithin | pystructs/utils.py:35 | Within the data, the clamped window is the plain slice `data[a..b]`. |
| Utils.PySliceTail | pystructs/utils.py:35 | A window reaching past the end is the tail `data[a..]`. |
| Utils.PySliceAdjacent | pystructs/utils.py:35-36 | Two adjacent clamped windows concatenate to the window spanning both, whether clamped or not. |
| Utils.ByteStream.constructor | pystructs/utils.py:20-26 | A new stream holds the given bytes unchanged at offset 0. |
| Utils.ByteStream.Slice | pystructs/utils.py:28-37 | Returns `data[offset+start : offset+size]` (clamped). Then the offset grows by exactly `size`, whatever `start` is; `start` defaults to 0. `data` is immutable. |
| Utils.ByteStream.Length | pystructs/utils.py:42-43 | `len(stream)` is the length of its data. |
| Utils.ByteStream.Equals | pystructs/utils.py:51-52 | Equal exactly when the bytes agree position by position. The offset plays no part. |
| Utils.ByteStream.GetItem | pystructs/utils.py:39-40 | An integer key in `[-len, len)` gives that byte, with negative keys counted from the end. Any other key is an IndexError. |
| Utils.SliceTwice | pystructs/utils.py:28-37 | Two successive slices of sizes a then b advance the offset by a+b. Together they are the window spanning both, which is `data[o..o+a+b]` when in range. |
| Utils.FirstSlice | pystructs/utils.py:20-37 | On a new stream with `size <= len(data)`, the first slice is `data[:size]`. The offset is then `size` and the length is unchanged. |
| Utils.SafeDecode | pystructs/utils.py:5-12 | If decoding succeeds, returns the decoded text. Otherwise returns the input bytes unchanged. Only an unknown encoding name is an error (LookupError). The encoding defaults to `utf-8`. |
| Utils.SafeDecodeReencodes | pystructs/utils.py:5-12 | With a reversible codec, either outcome gives back the input: the text re-encodes to it, or the bytes are it. |
| Fields.Widths | pystructs/fields.py:58-133 | Per-element widths after inheritance: chars and bool 1, shorts 2, int and long kinds 4, long longs 8, char[] 0. |
| Fields.ValueTypes | pystructs/fields.py:58-173 | Every kind has a value type. Exactly char and char[] decode to bytes, and exactly bool to bool. |
| Fields.DerivedKindsInherit | pystructs/fields.py:74-77 | A derived class other than long long inherits its parent's width and value type and has a different format character. Also at fields.py:98-100, 110-112, 120-122 and 131-133. |
| Fields.LongLongOverridesWidth | pystructs/fields.py:125-128 | Long long derives from long and keeps its value type, but sets its own width 8, which differs from long's 4. |
| Fields.FmtIsStructCode | pystructs/fields.py:58-173 | Each kind's format character is a struct code whose standard size is the kind's width (1 for char[]). It is signed exactly for b, h, i, l, q, and is `'s'` exactly for char[]. |
| Fields.NewField | pystructs/fields.py:7-22 | A new descriptor records the given name, count (default 1), sizeof and byte order, with no encoding. |
| Fields.NewCharArray | pystructs/fields.py:167-173 | A new char[] descriptor records its name, count, sizeof and encoding, and passes no byte order on. |
| Fields.ElemSize | pystructs/fields.py:27-28 | `_size` is the class width. A width of 0 becomes 1 when a sizeof callback is given (so it is always at least 1 then), and a nonzero width is kept. |
| Fields.FormatParses | pystructs/fields.py:44-46 | `'%d%s' % (count, _fmt)` parses back to the one code (count, format character). A negative count makes it a bad format. |
| Fields.Codes | pystructs/fields.py:44-46 | A descriptor's codes are the single code (count, format character), and that code is known to struct. |
| Fields.FormatOfTwoShorts | pystructs/fields.py:44-46 | A short of count 2 has the format `"2h"`. |
| Fields.ArrayFmt | pystructs/fields.py:210-213 | An array's format character is its base field's, and it is a struct code whose size is the array's `_size`. |
| Fields.ArraySize | pystructs/fields.py:220-225 | An array's `_size` is the base width, or 1 when the base width is 0. It is never 0. |
| Fields.ArraySizeIsSizeofWidth | pystructs/fields.py:220-225 | An array's `_size` equals the `_size` of a base descriptor that has a sizeof callback. |
| Fields.ArrayLength | pystructs/fields.py:227-230 | `len` is 0 while no value is held, else the number of elements held. |
| Schema.Declare | pystructs/models.py:46 | A class that does not set `BYTE_ORDER` uses network order, with its fields in declaration order. |
| Schema.NestedField | pystructs/models.py:42 | A struct used as a field has count 1 and no byte-order override. |
| Schema.FreshSlots | pystructs/fields.py:20-22 | Before any unpack, each field has its declared count and no value. |
| Schema.NestedSlots | pystructs/models.py:96-97 | The nested instance a value stands for has one state per member field. |
| Schema.SlotCodes | pystructs/models.py:61-63 | A struct of k descriptor fields has one code per field, k in all. |
| Schema.SlotCodesSnoc | pystructs/models.py:61-63 | Adding a field appends its (count, format character) code. |
| Schema.FormatUpToIsFormatOf | pystructs/models.py:61-63 | Joining the fields' formats gives the text of their codes. |
| Schema.LayoutFormatParses | pystructs/models.py:61-63 | `format` of a struct of descriptors parses into one code per field, in declaration order, each at the instance's current count. |
| Schema.SizeUpToIsCalcSize | pystructs/models.py:53-55 | The size of the first k fields equals `calcsize` of their format when every count is 1. |
| Schema.SizeIsCalcSize | pystructs/models.py:53-55 | `size` is `struct.calcsize(format)` when every count is 1 and every field's `_size` is its code's standard size. |
| Schema.SizeIgnoresCount | pystructs/models.py:53-55 | `size` counts `_size` once whatever the count. A short of count 2 has size 2, while its format `"2h"` needs 4 bytes. |
| Codec.Unwrap | pystructs/models.py:105-106 | A count-1, non-bytes field holding a one-element tuple becomes that element. Every other state is left as it is. |
| Codec.DecodeText | pystructs/models.py:79-80 | An unknown encoding is LookupError and undecodable bytes are UnicodeError. Otherwise the result is the decoded text. |
| Codec.EncodeText | pystructs/models.py:129 | `bytes(text, encoding)`, with the same two errors. |
| Codec.FirstBytes | pystructs/models.py:80 | `field.val[0]` is defined exactly when the tuple's first element is a bytes object, and is that object. |
| Codec.UnpackFixed | pystructs/models.py:94-101 | A plain field keeps its count and becomes a tuple. The cursor advances by exactly `_size * count`. A negative count is struct.error. |
| Codec.UnpackWindow | pystructs/models.py:101 | A decoded window gives a tuple at the field's count. |
| Codec.UnpackWindowIsStructUnpack | pystructs/models.py:94-101 | The window is decoded exactly as `struct.unpack((byte_order or BYTE_ORDER) + format, window)` decodes it. |
| Codec.NegativeCountIsBadFormat | pystructs/models.py:94-101 | A negative count makes the prefixed format an error for both struct.unpack and struct.pack. |
| Codec.UnpackSizeof | pystructs/models.py:65-80 | A sizeof field takes the count the callback returned and advances the cursor by `_size * count`. A negative count is struct.error. A bytes-typed field then has its encoding looked up. |
| Codec.Encoding | pystructs/models.py:79 | `field.encoding` exists exactly for a char[] descriptor and is its encoding. For any other class it is AttributeError. |
| Codec.SizeofNeedsEncoding | pystructs/models.py:79 | A bytes-typed sizeof field that is not a char[] (a char) never unpacks. It fails with AttributeError exactly when its window was read, and otherwise with the read's error. |
| Codec.UnpackNested | pystructs/models.py:96-97 | A nested field becomes a nested instance. The cursor advances by `size * count`. |
| Codec.UnpackField | pystructs/models.py:94-106 | One loop iteration never moves the cursor backwards. |
| Codec.UnpackUpTo | pystructs/models.py:93-106 | After k iterations there are k new field states and the cursor is not before where it started. |
| Codec.UnpackLayout | pystructs/models.py:82-110 | unpack gives one new state per field and a cursor not before the start. |
| Codec.AsArg | pystructs/models.py:124 | A scalar value is passed to struct.pack as itself. Any other value is passed as an object with only a truth value. |
| Codec.ValueArgs | pystructs/models.py:124 | `[f.val for f in nested fields]`: one argument per member, in order. |
| Codec.TextEncoding | pystructs/models.py:129 | `field.encoding or 'utf-8'`: a char[]'s encoding unless it is None or empty, in which case `utf-8`. A nested struct or a descriptor of another class has no encoding, which is AttributeError. |
| Codec.PackArgsIsStructPack | pystructs/models.py:122-139 | Each field is packed exactly as `struct.pack((byte_order or BYTE_ORDER) + format, *args)` packs it. |
| Codec.FieldArgs | pystructs/models.py:121-139 | The arguments by value shape: a nested instance gives its members' values, text its bytes encoded with `field.encoding or 'utf-8'` (or the attribute, lookup or encode error), a tuple is spread, a scalar is passed as itself, and no value is passed as `None`. |
| Codec.UnpackErrorPersists | pystructs/models.py:93-101 | A field that fails to unpack makes the whole unpack fail with that error. |
| Codec.PackErrorPersists | pystructs/models.py:120-140 | A field that fails to pack makes the whole pack fail with that error. |
| Models.StructObject.constructor | pystructs/fields.py:20-22 | A new instance has the given layout and fresh field states. |
| Models.StructObject.UnpackBytes | pystructs/models.py:89-90 | unpack on a bytes object wraps it in a stream at offset 0. On success it returns the instance itself, whose new states are unpack's result. On failure it returns unpack's error. |
| Models.StructObject.UnpackStream | pystructs/models.py:82-110 | The loop over the fields succeeds exactly when unpack does. On success it returns the instance itself, with the new states and the offset unpack computes; on failure, unpack's error. |
| Models.StructObject.UnpackFieldAt | pystructs/models.py:94-106 | One loop iteration changes the field state and cursor exactly as UnpackField says, or fails with its error. |
| Models.StructObject.UnpackFixedAt | pystructs/models.py:101 | The plain branch slices `_size * count` bytes and decodes them as UnpackFixed says. |
| Models.StructObject.UnpackSizeof | pystructs/models.py:65-80 | `_unpack_sizeof` asks the callback for the count, given the instance as it stands. It then reads, looks up the encoding and decodes as UnpackSizeof says, with AttributeError for a sizeof char. |
| Models.StructObject.Pack | pystructs/models.py:112-141 | The output-accumulating loop returns exactly Codec.Pack's result: the fields' bytes concatenated in declaration order, or the first field error. |
| Bytes.EncodeInt | pystructs/models.py:122-139 | The n-byte encoding struct.pack writes for an integer in range has exactly n bytes. |
| Bytes.DecodeInt | pystructs/models.py:101 | The integer struct.unpack reads from n bytes is in range for n bytes, signed or unsigned. |
| Bytes.DecodeEncodeInt | pystructs/models.py:101-139 | Decoding an in-range integer's encoding gives the integer back, in either byte order. |
| Bytes.EncodeDecodeInt | pystructs/models.py:101-139 | Encoding the integer any n bytes decode to gives the same n bytes back. |
| Bytes.FromToLE | pystructs/models.py:101-139 | The n low-order little-endian bytes of a value below 256^n read back as that value. |
| Bytes.ToFromLE | pystructs/models.py:101-139 | Any byte string is the little-endian encoding of its own value at its own length. |
| Numerals.NatToDecimal | pystructs/fields.py:46 | `'%d'` of a natural number is a non-empty run of digits with no leading zero. |
| Numerals.IntToDecimal | pystructs/fields.py:46 | `'%d'` of a negative number is a minus sign before the digits of its absolute value. |
| Numerals.DecimalRoundTrip | pystructs/fields.py:46 | Reading the digits `'%d'` writes gives back the count. |
| Numerals.DecimalInjective | pystructs/fields.py:46 | Two counts with the same numeral are equal. |
| PyStruct.Unpack | pystructs/models.py:73-101 | `struct.unpack` succeeds exactly when the format parses and the buffer is `calcsize` long. It then returns one element per argument the format stands for. |
| PyStruct.PackCodes | pystructs/models.py:122-139 | `struct.pack` with the wrong number of arguments is an error. A result is always `calcsize` bytes. |
| PyStruct.Pack | pystructs/models.py:122-139 | A successful `struct.pack` has a parseable format and the right number of arguments, and `calcsize` bytes of output. |
| PyStruct.Prefixed | pystructs/models.py:74-94 | A format that starts with a byte-order token has the rest as its body, and the token selects the endianness. |
| PyStruct.UnpackPrefixed | pystructs/models.py:101 | unpack with a prefixed format decodes the body's codes in the prefix's byte order. A body that does not parse is struct.error. |
| PyStruct.PackPrefixed | pystructs/models.py:122-139 | pack with a prefixed format encodes the body's codes in the prefix's byte order. A body that does not parse is struct.error. |
| PyStruct.ParseCode | pystructs/fields.py:44-46 | A code written as `'%d%s'` parses back to itself in front of whatever follows. |
| PyStruct.ParseFormatOf | pystructs/models.py:61-63 | The joined text of known codes parses back to exactly those codes. |
| PyStruct.FormatOfSnoc | pystructs/models.py:61-63 | Appending a code appends its text to the format. |
| PyStruct.CalcSizeSnoc | pystructs/models.py:53-55 | Appending a code adds its size to calcsize. |
| PyStruct.EncodeWindows | pystructs/models.py:122-125 | Packing one-argument codes that each write their own adjacent window writes the span of all the windows. |
| PyStruct.NegativeCountRejected | pystructs/fields.py:44-46 | A negative count, which `'%d'` writes with a minus sign, never parses. |
| PyStruct.ItemRoundTrip | pystructs/models.py:101-139 | Packing a decoded non-bool item in a compatible byte order restores its bytes. |
| PyStruct.RunRoundTrip | pystructs/models.py:101-135 | Packing a run of n decoded items restores the run's bytes. |
| PyStruct.CodeRoundTrip | pystructs/models.py:101-139 | Packing what one code decoded restores the code's window. |
| PyStruct.CodesRoundTrip | pystructs/models.py:101-139 | Packing what a code sequence decoded restores the whole buffer. |
| PyStruct.CodesUnpackPack | pystructs/models.py:101-139 | Whatever unpacking a code sequence returns, packing it back gives the same buffer. |
| PyStruct.UnpackPackRoundTrip | pystructs/models.py:101-139 | `struct.pack(fmt', *struct.unpack(fmt, buf)) == buf` when the two formats share a body, there is no `'?'`, and multi-byte codes keep their byte order. |
| PyStruct.UnpackOneCode | pystructs/models.py:101 | unpack of a single code needs exactly its size and returns ItemsIn elements, the one bytes object for `'s'`. |
| PyStruct.BoolNormalizes | pystructs/models.py:101-139 | A bool byte b packs back as 0 or 1, not as b. |
| RoundTrip.PrimRoundTrip | pystructs/models.py:101-135 | A descriptor window read in one order and packed in a compatible one is whole and comes back unchanged. A char[] reads as the one bytes object of its window. |
| RoundTrip.FixedWindow | pystructs/models.py:95-101 | The plain case succeeds only on a whole `_size * count` window and is that window's decoding. |
| RoundTrip.FixedRoundTrip | pystructs/models.py:101-139 | For a plain field, pack writes back the window unpack consumed. |
| RoundTrip.TextPacksBack | pystructs/models.py:80-130 | A char[] holding text decoded by a reversible codec packs back to its bytes. |
| RoundTrip.SizeofOrders | pystructs/models.py:74-138 | A canonical sizeof field's read order (BYTE_ORDER) and write order (its own) agree for its code. |
| RoundTrip.SizeofRoundTrip | pystructs/models.py:65-139 | For a sizeof field, pack writes back the window unpack consumed, re-encoding decoded text. |
| RoundTrip.FlatStep | pystructs/models.py:93-106 | Member k-1 of a flat nested struct, unpacked after the first k-1, ends at the sum of the first k sizes and packs back to its own bytes. |
| RoundTrip.FlatUnpack | pystructs/models.py:93-106 | The members of a flat nested struct end at their summed sizes inside the window, and each packs back to its own bytes. |
| RoundTrip.EncodeFlat | pystructs/models.py:122-125 | Packing a nested instance's member values with its format writes the nested window. |
| RoundTrip.NestedFormat | pystructs/models.py:61-125 | The format pack uses for a nested instance is the text of its members' codes. |
| RoundTrip.NestedPacks | pystructs/models.py:121-125 | A nested instance whose members pack back writes the whole nested window. |
| RoundTrip.NestedRoundTrip | pystructs/models.py:96-125 | For a nested field, pack writes back the window unpack consumed. |
| RoundTrip.FieldRoundTrip | pystructs/models.py:94-140 | Any field of a canonical struct packs back to the bytes unpack consumed for it. |
| RoundTrip.UpToRoundTrip | pystructs/models.py:93-140 | After k iterations, pack's output for the filled fields is the bytes unpack consumed. |
| RoundTrip.UnpackThenPack | pystructs/models.py:82-141 | On a canonical struct, `pack()` after `unpack(data)` returns exactly the bytes consumed, from any starting state. |
| RoundTrip.FieldReadsWindow | pystructs/models.py:94-101 | One field reads only the bytes up to the end of its window. |
| RoundTrip.UpToReadsWindow | pystructs/models.py:93-106 | The first k iterations read only the bytes they consume. |
| RoundTrip.UnpackIgnoresTrailing | pystructs/models.py:93-110 | Bytes after what unpack consumed do not change its result: trailing data is ignored. |
| RoundTrip.UnpackPackUnpack | pystructs/models.py:82-141 | On a canonical struct read from offset 0, pack returns the consumed prefix, and unpacking that prefix gives the same state again. |
| Scenarios.IntStructReadsOne | tests/test_models.py:6-14 | A struct of one int reads `[0,0,0,1]` as the scalar 1 and stops at offset 4. |
| Scenarios.SimpleObject | tests/test_models.py:6-16 | test_simple_object: the value 1 at offset 4, and pack gives back `[0,0,0,1]`. |
| Scenarios.CountFieldShorts | tests/test_models.py:19-31 | A short of count 2 reads `[0,1,0,2]` as the tuple (1, 2), not unwrapped. |
| Scenarios.CountFieldLong | tests/test_models.py:19-31 | The following long reads `[0,0,0,3]` as the scalar 3. |
| Scenarios.CountField | tests/test_models.py:19-33 | test_count_field: unpack gives (1, 2) and 3 at offset 8, and pack gives back the 8 bytes. |
| Scenarios.ContainerBar | tests/test_models.py:36-54 | The container's short reads `[0,1]` as 1. |
| Scenarios.ContainerNested | tests/test_models.py:36-54 | The nested struct reads its 4-byte window as an instance holding 1. |
| Scenarios.ContainerCanonical | tests/test_models.py:36-54 | The test's container layout meets the round-trip conditions. |
| Scenarios.NestedStruct | tests/test_models.py:36-54 | test_nested: unpack of `[0,1,0,0,0,1]` gives 1 and a nested instance holding 1, and pack gives back the 6 bytes. |
| Scenarios.VariableLengthStringData | tests/test_models.py:57-73 | The sizeof char[] takes its count 6 from the length field and reads `foobar` as text. |
| Scenarios.Dependant | tests/test_models.py:57-73 | test_dependant: with a utf-8 codec, unpack gives 6 and `"foobar"` at offset 10, and pack gives back the 10 bytes. |
| Scenarios.CharRunChars | pystructs/models.py:65-80 | A char with a sizeof callback reading the count 2 takes its 2-byte window, then raises AttributeError looking up its encoding. |
| Scenarios.CharCountRaises | pystructs/models.py:82-101 | unpack of `[0,0,0,2,97,98]` into an int and a char with `sizeof=lambda x: x.n` raises AttributeError. |
| Scenarios.MyDataChar | tests/test_models.py:76-87 | An unsigned char with the native byte-order override reads 12. |
| Scenarios.OverrideByteOrder | tests/test_models.py:76-87 | test_override_byte_order: 6 and 12 at offset 5 on any platform, and pack gives back the 5 bytes. |

## Left out

- Float and double fields (`f`, `d`): floating point is not modelled.
- Pad bytes (`x`). `PadByteField` declares no width, so unpack cannot consume its byte as written.
- `ssize_t`, `size_t` and `void *` (`n`, `N`, `P`): their sizes depend on the platform.
- The Pascal string `CharArrayField2` (`p`): its behaviour lies inside `struct`.
- Native alignment: in `'@'` mode, sizes are the standard ones and no alignment padding is inserted. Native endianness is the parameter `Env.nativeLittle`.
- Format codes outside the catalog: `PyStruct` knows only `c b B ? h H i I l L q Q s`.
- `__mul__`: it passes the format as the count and the type as the byte order, so it is not a coherent repeat operation.
- The metaclass (`__prepare__`, `__new__`) is replaced by an explicit ordered field list in `Schema.Layout`.
- The descriptor protocol (`__get__`, `__set__`): descriptors are immutable values, and each value lives in the instance's `slots` rather than on a class-level descriptor shared by all instances.
- Dynamic-count unpacking for `ArrayField`: `models.py` has no branch for it, so only its `_fmt`, `_size` and `__len__` are modelled.
- `ArrayField._ctype`, `StructObject.ctype`, `__str__`, `__repr__`, `__bytes__` and `logging`: these are diagnostics only.
- Attribute names: `models.py` reads `field.format`, `field.size`, `field.count`, `field.sizeof`, `field.typ`, `field.byte_order` and `field.val`, but `fields.py` defines only `_format`, `_size`, `_count`, `_sizeof`, `_typ`, `_byte_order` and `_val`, and no `__getattr__`. As written, `unpack`, `pack`, `size` and `format` therefore raise AttributeError at the first descriptor field of any struct. The model reads each `x` as `_x`, which is evidently what was meant; it does not model that AttributeError.
- `StatefulByteStream.__ne__`: only comparison with a bytes object is modelled, where it is the negation of `Equals`. For any other operand `__eq__` returns NotImplemented, and `not NotImplemented` is False; that case is not modelled.
- Schema.Field.Nested: the nested struct's count is a `nat`. Python accepts `Sub(count=-1)`, since `StructObject` inherits the descriptor constructor, and `unpack` would then slice with a negative stop, which counts from the end, and move the cursor backwards. A negative nested count is not modelled. A negative count on a plain field is (`Codec.UnpackFixed` gives the struct error).
- Utils.ByteStream.Equals: models only comparison with a bytes object. Two streams compared with `==` fall back to identity, because `bytes.__eq__` returns NotImplemented for a stream; that case is not modelled.
- `StatefulByteStream.__getitem__` with a slice key: only integer keys are modelled.
- Text codecs: these are foreign calls, so they are the abstract `Utils.Codecs` in `Schema.Env`. Reversibility is a hypothesis of the lemmas that need it.
- Byte-order override values are limited to the five tokens `@ = < > !` (`PyStruct.OrderChar`). Anything else would be part of the struct format.
- Sizeof callbacks are total functions of the instance's current field states: those decoded so far and the later fields' earlier states. A callback that raises, or that inspects anything else, is not modelled.
- The state after a failed unpack is not modelled. The Python code keeps the fields assigned before the error, and its cursor has already moved. `UnpackStream` says only which error is raised.
- RoundTrip.UnpackThenPack: the round trip is proved only for canonical layouts, not for every test-shaped layout. Bool fields normalise (`PyStruct.BoolNormalizes`), and sizeof fields whose two orders disagree do not reproduce their input. Nested structs are limited to integer members of count 1 without a sizeof callback, in the outer order.
- PyStruct.Unpack: models only the codes the catalog produces, with standard sizes.
- Codec.PackArgs, Codec.PackField, Codec.PackUpTo and Codec.Pack have no contracts of their own. They are specified through `PackArgsIsStructPack`, `FieldArgs`, `PackErrorPersists`, `Models.StructObject.Pack` and the RoundTrip lemmas.
