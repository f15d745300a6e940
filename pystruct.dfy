/** The part of Python's struct module that the codec relies on: a format string
    is an optional byte-order character followed by codes "<count><char>"; unpack
    demands a buffer of exactly the format's size, pack demands exactly one
    argument per item, and both use the standard sizes of each code. */
module PyStruct {
  import opened Common
  import opened Bytes
  import opened Numerals

  /** One element of the tuple struct.unpack returns: an int, a bool, or a bytes object. */
  datatype Item = Int(i: int) | Bool(b: bool) | Raw(bytes: seq<byte>)

  /** An argument to struct.pack: an int, bool or bytes object, or any other Python
      object (a tuple, a str, None, a struct instance), of which struct uses only its
      truth value. */
  datatype Arg = Obj(item: Item) | Other(truthy: bool)

  /** A parsed format code: a repeat count and a format character. */
  datatype Code = Code(count: nat, fmt: char)

  predicate IsOrderChar(c: char)
  {
    c == '@' || c == '=' || c == '<' || c == '>' || c == '!'
  }

  /** A byte-order character: native, standard native, little-endian,
      big-endian or network order. */
  type OrderChar = c: char | IsOrderChar(c) witness '!'

  predicate IsSpace(c: char)
  {
    c == ' ' || 9 <= c as int <= 13
  }

  /** Standard size in bytes of one element of a format character ('s' counts one
      byte per repetition); 0 for a character this model does not know. */
  function ItemSize(c: char): nat
  {
    match c
    case 'c' => 1
    case 'b' => 1
    case 'B' => 1
    case '?' => 1
    case 'h' => 2
    case 'H' => 2
    case 'i' => 4
    case 'I' => 4
    case 'l' => 4
    case 'L' => 4
    case 'q' => 8
    case 'Q' => 8
    case 's' => 1
    case _ => 0
  }

  predicate Known(c: char)
  {
    ItemSize(c) > 0
  }

  predicate IsSigned(c: char)
  {
    c == 'b' || c == 'h' || c == 'i' || c == 'l' || c == 'q'
  }

  lemma KnownIsNotDigitOrSpace(c: char)
    requires Known(c)
    ensures !IsDigit(c) && !IsSpace(c) && !IsOrderChar(c) && c != '-'
  {
  }

  /** Whether the byte-order character at the head of fmt selects little-endian
      encoding; '=', '@' and a missing prefix use the platform's order. */
  function LittleEndian(nativeLittle: bool, fmt: string): bool
  {
    if |fmt| > 0 && fmt[0] == '<' then true
    else if |fmt| > 0 && (fmt[0] == '>' || fmt[0] == '!') then false
    else nativeLittle
  }

  /** The format without its byte-order character. */
  function Body(fmt: string): string
  {
    if |fmt| > 0 && IsOrderChar(fmt[0]) then fmt[1..] else fmt
  }

  /** The number of leading decimal digits of s. */
  function DigitRun(s: string): (n: nat)
    ensures n <= |s| && AllDigits(s[..n])
    ensures n < |s| ==> !IsDigit(s[n])
  {
    if s == [] || !IsDigit(s[0]) then 0
    else
      var k := DigitRun(s[1..]);
      assert s[..k + 1] == [s[0]] + s[1..][..k];
      1 + k
  }

  /** Parse the codes of a format body; None is struct's "bad char in struct
      format" or "repeat count given without format specifier". */
  function ParseCodes(s: string): Option<seq<Code>>
    decreases |s|
  {
    if s == [] then Some([])
    else if IsSpace(s[0]) then ParseCodes(s[1..])
    else
      var k := DigitRun(s);
      if k == |s| || !Known(s[k]) then None
      else
        var count := if k == 0 then 1 else DecimalValue(s[..k]);
        match ParseCodes(s[k + 1..])
        case None => None
        case Some(rest) => Some([Code(count, s[k])] + rest)
  }

  /** struct.calcsize, code by code. */
  function CodeSize(c: Code): nat
  {
    c.count * ItemSize(c.fmt)
  }

  function CalcSize(codes: seq<Code>): nat
  {
    if codes == [] then 0 else CodeSize(codes[0]) + CalcSize(codes[1..])
  }

  /** How many tuple elements (equally, pack arguments) a code stands for: a
      "<n>s" code is one bytes object, any other code n objects. */
  function ItemsIn(c: Code): nat
  {
    if c.fmt == 's' then 1 else c.count
  }

  function ArgCount(codes: seq<Code>): nat
  {
    if codes == [] then 0 else ItemsIn(codes[0]) + ArgCount(codes[1..])
  }

  function DecodeItem(fmt: char, little: bool, bs: seq<byte>): Item
    requires Known(fmt) && fmt != 's' && |bs| == ItemSize(fmt)
  {
    if fmt == 'c' then Raw(bs)
    else if fmt == '?' then Bool(bs[0] != 0)
    else Int(DecodeInt(bs, IsSigned(fmt), little))
  }

  function DecodeRun(fmt: char, little: bool, n: nat, chunk: seq<byte>): (items: seq<Item>)
    requires Known(fmt) && fmt != 's' && |chunk| == n * ItemSize(fmt)
    ensures |items| == n
  {
    if n == 0 then []
    else
      var w := ItemSize(fmt);
      assert |chunk[w..]| == (n - 1) * w;
      [DecodeItem(fmt, little, chunk[..w])] + DecodeRun(fmt, little, n - 1, chunk[w..])
  }

  function DecodeCode(c: Code, little: bool, chunk: seq<byte>): (items: seq<Item>)
    requires Known(c.fmt) && |chunk| == CodeSize(c)
    ensures |items| == ItemsIn(c)
  {
    if c.fmt == 's' then [Raw(chunk)] else DecodeRun(c.fmt, little, c.count, chunk)
  }

  function DecodeCodes(codes: seq<Code>, little: bool, buf: seq<byte>): (items: seq<Item>)
    requires forall j :: 0 <= j < |codes| ==> Known(codes[j].fmt)
    requires |buf| == CalcSize(codes)
    ensures |items| == ArgCount(codes)
  {
    if codes == [] then []
    else
      var n := CodeSize(codes[0]);
      DecodeCode(codes[0], little, buf[..n]) + DecodeCodes(codes[1..], little, buf[n..])
  }

  /** struct.unpack once the format is parsed: the buffer must be exactly as
      long as the codes, and is decoded code by code. */
  function UnpackCodes(codes: seq<Code>, little: bool, buf: seq<byte>): (r: Result<seq<Item>>)
    requires forall j :: 0 <= j < |codes| ==> Known(codes[j].fmt)
    ensures r.Ok? <==> |buf| == CalcSize(codes)
    ensures r.Ok? ==> |r.value| == ArgCount(codes)
    ensures r.Err? ==> r.error == StructError
  {
    if |buf| != CalcSize(codes) then Err(StructError)
    else Ok(DecodeCodes(codes, little, buf))
  }

  /** struct.unpack(fmt, buf). */
  function Unpack(nativeLittle: bool, fmt: string, buf: seq<byte>): (r: Result<seq<Item>>)
    ensures r.Ok? <==> (ParseCodes(Body(fmt)).Some? && |buf| == CalcSize(ParseCodes(Body(fmt)).value))
    ensures r.Ok? ==> |r.value| == ArgCount(ParseCodes(Body(fmt)).value)
  {
    match ParseCodes(Body(fmt))
    case None => Err(StructError)
    case Some(codes) =>
      ParsedAreKnown(Body(fmt));
      UnpackCodes(codes, LittleEndian(nativeLittle, fmt), buf)
  }

  lemma {:induction false} ParsedAreKnown(s: string)
    requires ParseCodes(s).Some?
    ensures forall j :: 0 <= j < |ParseCodes(s).value| ==> Known(ParseCodes(s).value[j].fmt)
    decreases |s|
  {
    if s != [] {
      if IsSpace(s[0]) {
        ParsedAreKnown(s[1..]);
      } else {
        var k := DigitRun(s);
        ParsedAreKnown(s[k + 1..]);
      }
    }
  }

  function Truthy(a: Arg): bool
  {
    match a
    case Obj(Int(v)) => v != 0
    case Obj(Bool(b)) => b
    case Obj(Raw(bs)) => |bs| > 0
    case Other(t) => t
  }

  /** The integer struct reads from an argument of an integer code: ints, and
      bools as the ints 0 and 1. */
  function IntOf(a: Arg): Option<int>
  {
    match a
    case Obj(Int(v)) => Some(v)
    case Obj(Bool(b)) => Some(if b then 1 else 0)
    case _ => None
  }

  function EncodeItem(fmt: char, little: bool, a: Arg): (r: Result<seq<byte>>)
    requires Known(fmt) && fmt != 's'
    ensures r.Ok? ==> |r.value| == ItemSize(fmt)
  {
    if fmt == 'c' then
      if a.Obj? && a.item.Raw? && |a.item.bytes| == 1 then Ok(a.item.bytes) else Err(StructError)
    else if fmt == '?' then
      Ok([if Truthy(a) then 1 else 0])
    else
      match IntOf(a)
      case None => Err(StructError)
      case Some(v) =>
        if InRange(v, ItemSize(fmt), IsSigned(fmt)) then Ok(EncodeInt(v, ItemSize(fmt), IsSigned(fmt), little))
        else Err(StructError)
  }

  function EncodeRun(fmt: char, little: bool, args: seq<Arg>): (r: Result<seq<byte>>)
    requires Known(fmt) && fmt != 's'
    ensures r.Ok? ==> |r.value| == |args| * ItemSize(fmt)
  {
    if args == [] then Ok([])
    else
      var head :- EncodeItem(fmt, little, args[0]);
      var tail :- EncodeRun(fmt, little, args[1..]);
      Ok(head + tail)
  }

  /** bs cut or padded with zero bytes to exactly n bytes, as pack does for 's'. */
  function PadTruncate(bs: seq<byte>, n: nat): (r: seq<byte>)
    ensures |r| == n
    ensures n <= |bs| ==> r == bs[..n]
    ensures |bs| < n ==> r[..|bs|] == bs && forall j :: |bs| <= j < n ==> r[j] == 0
  {
    if n <= |bs| then bs[..n] else bs + seq(n - |bs|, _ => 0)
  }

  function EncodeCode(c: Code, little: bool, args: seq<Arg>): (r: Result<seq<byte>>)
    requires Known(c.fmt) && |args| == ItemsIn(c)
    ensures r.Ok? ==> |r.value| == CodeSize(c)
  {
    if c.fmt == 's' then
      if args[0].Obj? && args[0].item.Raw? then Ok(PadTruncate(args[0].item.bytes, c.count))
      else Err(StructError)
    else EncodeRun(c.fmt, little, args)
  }

  function EncodeCodes(codes: seq<Code>, little: bool, args: seq<Arg>): (r: Result<seq<byte>>)
    requires forall j :: 0 <= j < |codes| ==> Known(codes[j].fmt)
    requires |args| == ArgCount(codes)
    ensures r.Ok? ==> |r.value| == CalcSize(codes)
  {
    if codes == [] then Ok([])
    else
      var k := ItemsIn(codes[0]);
      var head :- EncodeCode(codes[0], little, args[..k]);
      var tail :- EncodeCodes(codes[1..], little, args[k..]);
      Ok(head + tail)
  }

  /** struct.pack once the format is parsed: there must be one argument per
      element, and the codes are encoded in turn. */
  function PackCodes(codes: seq<Code>, little: bool, args: seq<Arg>): (r: Result<seq<byte>>)
    requires forall j :: 0 <= j < |codes| ==> Known(codes[j].fmt)
    ensures |args| != ArgCount(codes) ==> r == Err(StructError)
    ensures r.Ok? ==> |r.value| == CalcSize(codes)
  {
    if |args| != ArgCount(codes) then Err(StructError)
    else EncodeCodes(codes, little, args)
  }

  /** struct.pack(fmt, *args). */
  function Pack(nativeLittle: bool, fmt: string, args: seq<Arg>): (r: Result<seq<byte>>)
    ensures r.Ok? ==> ParseCodes(Body(fmt)).Some? && |args| == ArgCount(ParseCodes(Body(fmt)).value)
    ensures r.Ok? ==> |r.value| == CalcSize(ParseCodes(Body(fmt)).value)
  {
    match ParseCodes(Body(fmt))
    case None => Err(StructError)
    case Some(codes) =>
      ParsedAreKnown(Body(fmt));
      PackCodes(codes, LittleEndian(nativeLittle, fmt), args)
  }

  /** A format that starts with a byte-order character: the character selects
      the endianness and the rest is the body. */
  lemma Prefixed(nativeLittle: bool, p: OrderChar, s: string)
    ensures Body([p] + s) == s
    ensures LittleEndian(nativeLittle, [p] + s) == LittleEndian(nativeLittle, [p])
  {
    assert ([p] + s)[1..] == s;
  }

  /** struct.unpack with a prefixed format is the unpacking of the body's codes
      in the prefix's byte order, or struct.error when the body does not parse. */
  lemma UnpackPrefixed(nativeLittle: bool, p: OrderChar, s: string, buf: seq<byte>)
    ensures ParseCodes(s).None? ==> Unpack(nativeLittle, [p] + s, buf) == Err(StructError)
    ensures ParseCodes(s).Some? ==>
      (ParsedAreKnown(s);
       Unpack(nativeLittle, [p] + s, buf) == UnpackCodes(ParseCodes(s).value, LittleEndian(nativeLittle, [p]), buf))
  {
    Prefixed(nativeLittle, p, s);
  }

  /** struct.pack with a prefixed format is the packing of the body's codes in
      the prefix's byte order, or struct.error when the body does not parse. */
  lemma PackPrefixed(nativeLittle: bool, p: OrderChar, s: string, args: seq<Arg>)
    ensures ParseCodes(s).None? ==> Pack(nativeLittle, [p] + s, args) == Err(StructError)
    ensures ParseCodes(s).Some? ==>
      (ParsedAreKnown(s);
       Pack(nativeLittle, [p] + s, args) == PackCodes(ParseCodes(s).value, LittleEndian(nativeLittle, [p]), args))
  {
    Prefixed(nativeLittle, p, s);
  }

  // ---------------------------------------------------------------------------
  // Format strings built from codes

  /** The format body "<count><char>..." that writes the given codes. */
  function FormatOf(codes: seq<Code>): string
  {
    if codes == [] then "" else NatToDecimal(codes[0].count) + [codes[0].fmt] + FormatOf(codes[1..])
  }

  lemma {:induction false} DigitRunAppend(d: string, t: string)
    requires AllDigits(d)
    ensures DigitRun(d + t) == |d| + DigitRun(t)
  {
    if d != [] {
      assert (d + t)[1..] == d[1..] + t;
      assert (d + t)[0] == d[0] && IsDigit(d[0]);
      assert AllDigits(d[1..]) by {
        forall i | 0 <= i < |d[1..]| ensures IsDigit(d[1..][i]) {
          assert d[1..][i] == d[i + 1];
        }
      }
      DigitRunAppend(d[1..], t);
      assert d + t != [] && IsDigit((d + t)[0]);
      assert DigitRun(d + t) == 1 + DigitRun((d + t)[1..]);
    } else {
      assert d + t == t;
    }
  }

  lemma DigitRunOfNumeral(n: nat, c: char, rest: string)
    requires !IsDigit(c)
    ensures DigitRun(NatToDecimal(n) + [c] + rest) == |NatToDecimal(n)|
  {
    var d := NatToDecimal(n);
    assert d + [c] + rest == d + ([c] + rest);
    DigitRunAppend(d, [c] + rest);
  }

  /** A code written with '%d' parses back to itself. */
  lemma {:induction false} ParseCode(n: nat, c: char, rest: string)
    requires Known(c)
    ensures ParseCodes(rest).None? ==> ParseCodes(NatToDecimal(n) + [c] + rest).None?
    ensures ParseCodes(rest).Some? ==>
      ParseCodes(NatToDecimal(n) + [c] + rest) == Some([Code(n, c)] + ParseCodes(rest).value)
  {
    var d := NatToDecimal(n);
    var s := d + [c] + rest;
    KnownIsNotDigitOrSpace(c);
    DigitRunOfNumeral(n, c, rest);
    assert s[0] == d[0];
    assert s[..|d|] == d;
    assert s[|d|] == c;
    assert s[|d| + 1..] == rest;
    DecimalRoundTrip(n);
  }

  lemma {:induction false} ParseFormatOf(codes: seq<Code>)
    requires forall j :: 0 <= j < |codes| ==> Known(codes[j].fmt)
    ensures ParseCodes(FormatOf(codes)) == Some(codes)
  {
    if codes != [] {
      var rest := FormatOf(codes[1..]);
      ParseFormatOf(codes[1..]);
      ParseCode(codes[0].count, codes[0].fmt, rest);
      assert [Code(codes[0].count, codes[0].fmt)] + codes[1..] == codes;
    }
  }

  /** Appending a code appends its text to the format. */
  lemma {:induction false} FormatOfSnoc(codes: seq<Code>, c: Code)
    ensures FormatOf(codes + [c]) == FormatOf(codes) + NatToDecimal(c.count) + [c.fmt]
  {
    if codes == [] {
      assert codes + [c] == [c];
      assert [c][1..] == [];
    } else {
      assert (codes + [c])[1..] == codes[1..] + [c];
      FormatOfSnoc(codes[1..], c);
    }
  }

  /** Appending a code adds its size to calcsize. */
  lemma {:induction false} CalcSizeSnoc(codes: seq<Code>, c: Code)
    ensures CalcSize(codes + [c]) == CalcSize(codes) + CodeSize(c)
  {
    if codes == [] {
      assert codes + [c] == [c];
      assert [c][1..] == [];
    } else {
      assert (codes + [c])[1..] == codes[1..] + [c];
      CalcSizeSnoc(codes[1..], c);
    }
  }

  /** Codes of count 1 take one argument each. */
  lemma {:induction false} SinglesArgCount(codes: seq<Code>)
    requires forall j :: 0 <= j < |codes| ==> codes[j].count == 1
    ensures ArgCount(codes) == |codes|
  {
    if codes != [] {
      SinglesArgCount(codes[1..]);
    }
  }

  /** pack succeeds on a nonempty list of codes exactly when it succeeds on the
      first code and on the rest, and then writes the first code's bytes first. */
  lemma EncodeCodesUnfold(codes: seq<Code>, little: bool, args: seq<Arg>)
    requires codes != []
    requires forall j :: 0 <= j < |codes| ==> Known(codes[j].fmt)
    requires |args| == ArgCount(codes)
    ensures var k := ItemsIn(codes[0]);
      var head := EncodeCode(codes[0], little, args[..k]);
      var tail := EncodeCodes(codes[1..], little, args[k..]);
      && (EncodeCodes(codes, little, args).Ok? <==> head.Ok? && tail.Ok?)
      && (head.Ok? && tail.Ok? ==> EncodeCodes(codes, little, args) == Ok(head.value + tail.value))
  {
  }

  /** pack of a nonempty list of codes writes the first code's bytes, then the rest's. */
  lemma EncodeCodesSplit(codes: seq<Code>, little: bool, args: seq<Arg>, head: seq<byte>, tail: seq<byte>)
    requires codes != []
    requires forall j :: 0 <= j < |codes| ==> Known(codes[j].fmt)
    requires |args| == ArgCount(codes) && ItemsIn(codes[0]) <= |args|
    requires EncodeCode(codes[0], little, args[..ItemsIn(codes[0])]) == Ok(head)
    requires EncodeCodes(codes[1..], little, args[ItemsIn(codes[0])..]) == Ok(tail)
    ensures EncodeCodes(codes, little, args) == Ok(head + tail)
  {
  }

  /** pack of a nonempty list of one-argument codes writing the adjacent windows
      chunk[a..b] and chunk[b..c] writes chunk[a..c]. */
  lemma EncodeCodesCons(codes: seq<Code>, little: bool, args: seq<Arg>, chunk: seq<byte>, a: nat, b: nat, c: nat)
    requires codes != [] && ItemsIn(codes[0]) == 1
    requires forall j :: 0 <= j < |codes| ==> Known(codes[j].fmt)
    requires |args| == ArgCount(codes)
    requires a <= b <= c <= |chunk|
    requires EncodeCode(codes[0], little, [args[0]]) == Ok(chunk[a..b])
    requires EncodeCodes(codes[1..], little, args[1..]) == Ok(chunk[b..c])
    ensures EncodeCodes(codes, little, args) == Ok(chunk[a..c])
  {
    assert args[..1] == [args[0]];
    EncodeCodesSplit(codes, little, args, chunk[a..b], chunk[b..c]);
    AdjacentWindows(chunk, a, b, c);
  }

  /** pack of one-argument codes, each writing its window chunk[bounds[j]..bounds[j + 1]]
      of adjacent windows, writes chunk[bounds[0]..bounds[|codes|]]. */
  lemma {:induction false} EncodeWindows(codes: seq<Code>, little: bool, args: seq<Arg>, chunk: seq<byte>, bounds: seq<nat>)
    requires |args| == |codes| && |bounds| == |codes| + 1
    requires forall j :: 0 <= j < |codes| ==> Known(codes[j].fmt) && ItemsIn(codes[j]) == 1
    requires forall j :: 0 <= j < |codes| ==> bounds[j] <= bounds[j + 1]
    requires forall j :: 0 <= j <= |codes| ==> bounds[j] <= |chunk|
    requires forall j :: 0 <= j < |codes| ==>
      EncodeCode(codes[j], little, [args[j]]) == Ok(chunk[bounds[j]..bounds[j + 1]])
    ensures ArgCount(codes) == |args| && bounds[0] <= bounds[|codes|]
    ensures EncodeCodes(codes, little, args) == Ok(chunk[bounds[0]..bounds[|codes|]])
    decreases |codes|
  {
    if codes == [] {
      assert chunk[bounds[0]..bounds[0]] == [];
    } else {
      var n := |codes|;
      EncodeWindows(codes[1..], little, args[1..], chunk, bounds[1..]);
      assert bounds[1..][n - 1] == bounds[n];
      EncodeCodesCons(codes, little, args, chunk, bounds[0], bounds[1], bounds[n]);
    }
  }

  /** A lone code is packed as that code. */
  lemma EncodeOneCode(c: Code, little: bool, args: seq<Arg>)
    requires Known(c.fmt) && |args| == ItemsIn(c)
    ensures ArgCount([c]) == |args|
    ensures EncodeCodes([c], little, args) == EncodeCode(c, little, args)
  {
    assert ArgCount([c]) == ItemsIn(c) + ArgCount([]);
    assert args[..ItemsIn(c)] == args && args[ItemsIn(c)..] == [];
    assert [c][1..] == [];
    if EncodeCode(c, little, args).Ok? {
      assert EncodeCode(c, little, args).value + [] == EncodeCode(c, little, args).value;
    }
  }

  /** A negative count, which '%d' writes with a minus sign, is a bad format. */
  lemma NegativeCountRejected(n: int, c: char, rest: string)
    requires n < 0
    ensures ParseCodes(IntToDecimal(n) + [c] + rest) == None
  {
    var s := IntToDecimal(n) + [c] + rest;
    assert s[0] == '-';
    assert DigitRun(s) == 0;
  }

  // ---------------------------------------------------------------------------
  // Round trips

  function Args(items: seq<Item>): (args: seq<Arg>)
    ensures |args| == |items|
    ensures forall j :: 0 <= j < |items| ==> args[j] == Obj(items[j])
  {
    seq(|items|, j requires 0 <= j < |items| => Obj(items[j]))
  }

  /** Whether a code encoded with one endianness reads back under another: always
      for one-byte elements, otherwise only under the same order. */
  predicate OrderCompatible(c: char, little: bool, little': bool)
  {
    little == little' || ItemSize(c) == 1
  }

  lemma ItemRoundTrip(fmt: char, little: bool, little': bool, bs: seq<byte>)
    requires Known(fmt) && fmt != 's' && fmt != '?' && |bs| == ItemSize(fmt)
    requires OrderCompatible(fmt, little, little')
    ensures EncodeItem(fmt, little', Obj(DecodeItem(fmt, little, bs))) == Ok(bs)
  {
    if fmt != 'c' {
      var v := DecodeInt(bs, IsSigned(fmt), little);
      EncodeDecodeInt(bs, IsSigned(fmt), little);
      if little != little' {
        // one-byte integers: both orders read the single byte alike
        assert |bs| == 1;
        assert Reverse(bs) == bs;
        assert Reverse(ToLE(if v < 0 then v + Pow256(1) else v, 1)) == ToLE(if v < 0 then v + Pow256(1) else v, 1);
      }
    }
  }

  /** A run of n > 0 elements is its first element followed by the other n - 1. */
  lemma DecodeRunUnfold(fmt: char, little: bool, n: nat, chunk: seq<byte>)
    requires Known(fmt) && fmt != 's' && |chunk| == n * ItemSize(fmt) && n > 0
    ensures ItemSize(fmt) <= |chunk| && |chunk[ItemSize(fmt)..]| == (n - 1) * ItemSize(fmt)
    ensures DecodeRun(fmt, little, n, chunk)[0] == DecodeItem(fmt, little, chunk[..ItemSize(fmt)])
    ensures DecodeRun(fmt, little, n, chunk)[1..] == DecodeRun(fmt, little, n - 1, chunk[ItemSize(fmt)..])
  {
    var w := ItemSize(fmt);
    assert |chunk[w..]| == (n - 1) * w;
  }

  /** pack of a nonempty run writes the first element's bytes, then the rest's. */
  lemma EncodeRunCons(fmt: char, little: bool, items: seq<Item>, chunk: seq<byte>, w: nat)
    requires Known(fmt) && fmt != 's' && items != [] && w <= |chunk|
    requires EncodeItem(fmt, little, Obj(items[0])) == Ok(chunk[..w])
    requires EncodeRun(fmt, little, Args(items[1..])) == Ok(chunk[w..])
    ensures EncodeRun(fmt, little, Args(items)) == Ok(chunk)
  {
    assert Args(items)[1..] == Args(items[1..]);
    assert chunk[..w] + chunk[w..] == chunk;
  }

  lemma {:induction false} RunRoundTrip(fmt: char, little: bool, little': bool, n: nat, chunk: seq<byte>)
    requires Known(fmt) && fmt != 's' && fmt != '?' && |chunk| == n * ItemSize(fmt)
    requires OrderCompatible(fmt, little, little')
    ensures EncodeRun(fmt, little', Args(DecodeRun(fmt, little, n, chunk))) == Ok(chunk)
  {
    if n > 0 {
      var w := ItemSize(fmt);
      DecodeRunUnfold(fmt, little, n, chunk);
      ItemRoundTrip(fmt, little, little', chunk[..w]);
      RunRoundTrip(fmt, little, little', n - 1, chunk[w..]);
      EncodeRunCons(fmt, little', DecodeRun(fmt, little, n, chunk), chunk, w);
    } else {
      assert Args(DecodeRun(fmt, little, n, chunk)) == [];
    }
  }

  lemma CodeRoundTrip(c: Code, little: bool, little': bool, chunk: seq<byte>)
    requires Known(c.fmt) && c.fmt != '?' && |chunk| == CodeSize(c)
    requires OrderCompatible(c.fmt, little, little')
    ensures EncodeCode(c, little', Args(DecodeCode(c, little, chunk))) == Ok(chunk)
  {
    if c.fmt != 's' {
      RunRoundTrip(c.fmt, little, little', c.count, chunk);
    } else {
      assert |chunk| == c.count;
      assert PadTruncate(chunk, c.count) == chunk[..c.count] == chunk;
    }
  }

  /** A nonempty list of codes decodes the first code's window, then the rest. */
  lemma DecodeCodesUnfold(codes: seq<Code>, little: bool, buf: seq<byte>)
    requires codes != []
    requires forall j :: 0 <= j < |codes| ==> Known(codes[j].fmt)
    requires |buf| == CalcSize(codes)
    ensures CodeSize(codes[0]) <= |buf| && |buf[CodeSize(codes[0])..]| == CalcSize(codes[1..])
    ensures ItemsIn(codes[0]) <= |DecodeCodes(codes, little, buf)|
    ensures DecodeCodes(codes, little, buf)[..ItemsIn(codes[0])] == DecodeCode(codes[0], little, buf[..CodeSize(codes[0])])
    ensures DecodeCodes(codes, little, buf)[ItemsIn(codes[0])..] == DecodeCodes(codes[1..], little, buf[CodeSize(codes[0])..])
  {
    var n := CodeSize(codes[0]);
    var head := DecodeCode(codes[0], little, buf[..n]);
    assert DecodeCodes(codes, little, buf) == head + DecodeCodes(codes[1..], little, buf[n..]);
  }

  /** pack of a nonempty list of codes writes the first code's window, then the rest. */
  lemma EncodeCodesStep(codes: seq<Code>, little: bool, items: seq<Item>, buf: seq<byte>, n: nat)
    requires codes != []
    requires forall j :: 0 <= j < |codes| ==> Known(codes[j].fmt)
    requires |items| == ArgCount(codes) && n <= |buf|
    requires EncodeCode(codes[0], little, Args(items[..ItemsIn(codes[0])])) == Ok(buf[..n])
    requires EncodeCodes(codes[1..], little, Args(items[ItemsIn(codes[0])..])) == Ok(buf[n..])
    ensures EncodeCodes(codes, little, Args(items)) == Ok(buf)
  {
    var k := ItemsIn(codes[0]);
    assert Args(items)[..k] == Args(items[..k]);
    assert Args(items)[k..] == Args(items[k..]);
    assert buf[..n] + buf[n..] == buf;
  }

  lemma {:induction false} CodesRoundTrip(codes: seq<Code>, little: bool, little': bool, buf: seq<byte>)
    requires forall j :: 0 <= j < |codes| ==> Known(codes[j].fmt) && codes[j].fmt != '?'
    requires forall j :: 0 <= j < |codes| ==> OrderCompatible(codes[j].fmt, little, little')
    requires |buf| == CalcSize(codes)
    ensures EncodeCodes(codes, little', Args(DecodeCodes(codes, little, buf))) == Ok(buf)
  {
    if codes != [] {
      var n := CodeSize(codes[0]);
      DecodeCodesUnfold(codes, little, buf);
      CodeRoundTrip(codes[0], little, little', buf[..n]);
      CodesRoundTrip(codes[1..], little, little', buf[n..]);
      EncodeCodesStep(codes, little', DecodeCodes(codes, little, buf), buf, n);
    } else {
      assert Args(DecodeCodes(codes, little, buf)) == [];
    }
  }

  /** What the unpacking of parsed codes returns, the packing of the same codes
      turns back into the same buffer, provided there is no '?' code and each
      multi-byte code keeps its byte order. */
  lemma CodesUnpackPack(codes: seq<Code>, little: bool, little': bool, buf: seq<byte>)
    requires forall j :: 0 <= j < |codes| ==> Known(codes[j].fmt) && codes[j].fmt != '?'
    requires forall j :: 0 <= j < |codes| ==> OrderCompatible(codes[j].fmt, little, little')
    requires UnpackCodes(codes, little, buf).Ok?
    ensures PackCodes(codes, little', Args(UnpackCodes(codes, little, buf).value)) == Ok(buf)
  {
    CodesRoundTrip(codes, little, little', buf);
  }

  /** What struct.unpack returns, struct.pack turns back into the same buffer under
      the same codes, provided there is no '?' code (pack writes every true value as
      0x01) and each multi-byte code keeps its byte order. */
  lemma UnpackPackRoundTrip(nativeLittle: bool, fmt: string, fmt': string, buf: seq<byte>)
    requires Unpack(nativeLittle, fmt, buf).Ok?
    requires Body(fmt') == Body(fmt)
    requires forall j :: 0 <= j < |ParseCodes(Body(fmt)).value| ==>
      ParseCodes(Body(fmt)).value[j].fmt != '?' &&
      OrderCompatible(ParseCodes(Body(fmt)).value[j].fmt, LittleEndian(nativeLittle, fmt), LittleEndian(nativeLittle, fmt'))
    ensures Pack(nativeLittle, fmt', Args(Unpack(nativeLittle, fmt, buf).value)) == Ok(buf)
  {
    var codes := ParseCodes(Body(fmt)).value;
    ParsedAreKnown(Body(fmt));
    CodesUnpackPack(codes, LittleEndian(nativeLittle, fmt), LittleEndian(nativeLittle, fmt'), buf);
  }

  /** A single code: unpacking decodes the buffer with that code, and returns
      ItemsIn(c) elements, the one bytes object for an 's' code. */
  lemma UnpackOneCode(c: Code, little: bool, buf: seq<byte>)
    requires Known(c.fmt) && UnpackCodes([c], little, buf).Ok?
    ensures |buf| == CodeSize(c)
    ensures UnpackCodes([c], little, buf).value == DecodeCode(c, little, buf)
    ensures |UnpackCodes([c], little, buf).value| == ItemsIn(c)
    ensures c.fmt == 's' ==> UnpackCodes([c], little, buf).value == [Raw(buf)]
  {
    assert [c][0] == c && [c][1..] == [];
    assert CalcSize([c]) == CodeSize(c) + CalcSize([]);
    assert buf[..CodeSize(c)] == buf;
    assert DecodeCodes([c], little, buf) == DecodeCode(c, little, buf) + [];
  }

  /** A '?' element reads any nonzero byte as true and is packed back as 0x01. */
  lemma BoolNormalizes(little: bool, little': bool, b: byte)
    ensures EncodeItem('?', little', Obj(DecodeItem('?', little, [b]))) == Ok([if b == 0 then 0 else 1])
  {
  }
}
