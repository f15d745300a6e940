/** The byte cursor and the text-decoding helper of pystructs/utils.py. */
module Utils {
  import opened Common
  import opened Bytes

  /** data[a:b] for non-negative bounds: both bounds are clamped to the length of
      data, and the window is empty when the upper bound is not past the lower. */
  function PySlice(data: seq<byte>, a: nat, b: nat): (r: seq<byte>)
    ensures |r| <= if a <= b then b - a else 0
    ensures b <= |data| ==> |r| == if a <= b then b - a else 0
    ensures |data| <= a ==> r == []
    ensures a <= |data| < b ==> |r| == |data| - a
    ensures forall k :: 0 <= k < |r| ==> r[k] == data[a + k]
  {
    var hi := if b <= |data| then b else |data|;
    var n := if hi <= a then 0 else hi - a;
    seq(n, k requires 0 <= k < n => data[a + k])
  }

  /** Within the data, the window is Dafny's own slice. */
  lemma PySliceWithin(data: seq<byte>, a: nat, b: nat)
    requires a <= b <= |data|
    ensures PySlice(data, a, b) == data[a..b]
  {
  }

  /** A window reaching past the end is the tail of the data. */
  lemma PySliceTail(data: seq<byte>, a: nat, b: nat)
    requires a <= |data| <= b
    ensures PySlice(data, a, b) == data[a..]
  {
  }

  /** Two adjacent windows concatenate to the window that spans both, clamped or not. */
  lemma PySliceAdjacent(data: seq<byte>, a: nat, b: nat, c: nat)
    requires a <= b <= c
    ensures PySlice(data, a, b) + PySlice(data, b, c) == PySlice(data, a, c)
  {
    var n := |data|;
    if c <= n {
      assert data[a..b] + data[b..c] == data[a..c];
    } else if b <= n {
      assert data[a..b] + data[b..] == data[a..];
    } else if a <= n {
      assert PySlice(data, b, c) == [];
    }
  }

  /** A bytes object together with how much of it has been read. */
  class ByteStream {
    const data: seq<byte>
    var offset: nat

    constructor (stream: seq<byte>)
      ensures data == stream && offset == 0
    {
      data := stream;
      offset := 0;
    }

    /** slice(size, start): hands out data[offset+start : offset+size] and then
        advances the offset by size, whatever start is. Past the end of the data
        the window is shortened, not refused. */
    method Slice(size: nat, start: nat := 0) returns (chunk: seq<byte>)
      modifies this
      ensures offset == old(offset) + size
      ensures chunk == PySlice(data, old(offset) + start, old(offset) + size)
    {
      chunk := PySlice(data, offset + start, offset + size);
      offset := offset + size;
    }

    /** len(stream). */
    function Length(): (n: nat)
      ensures n == |data|
    {
      |data|
    }

    /** stream == other, for a bytes object other: only the bytes are compared,
        never the offset. */
    predicate Equals(other: seq<byte>)
      ensures Equals(other) <==> |other| == Length() && forall i :: 0 <= i < |other| ==> other[i] == data[i]
    {
      data == other
    }

    /** stream[key] for an integer key: negative keys count from the end. */
    function GetItem(key: int): (r: Result<byte>)
      ensures r.Ok? <==> -|data| <= key < |data|
      ensures r.Ok? ==> r.value == data[if key < 0 then key + |data| else key]
      ensures r.Err? ==> r.error == IndexError
    {
      if 0 <= key < |data| then Ok(data[key])
      else if -|data| <= key < 0 then Ok(data[key + |data|])
      else Err(IndexError)
    }
  }

  /** Two successive slices from offset o hand out adjacent bytes of the data. */
  method SliceTwice(s: ByteStream, a: nat, b: nat) returns (first: seq<byte>, second: seq<byte>)
    modifies s
    ensures s.offset == old(s.offset) + a + b
    ensures first + second == PySlice(s.data, old(s.offset), old(s.offset) + a + b)
    ensures old(s.offset) + a + b <= |s.data| ==>
      first + second == s.data[old(s.offset)..old(s.offset) + a + b]
  {
    ghost var o := s.offset;
    first := s.Slice(a);
    second := s.Slice(b);
    PySliceAdjacent(s.data, o, o + a, o + a + b);
    if o + a + b <= |s.data| {
      PySliceWithin(s.data, o, o + a + b);
    }
  }

  /** A new stream's first slice is the head of its data, and leaves the offset
      at the slice's size. */
  method FirstSlice(data: seq<byte>, size: nat) returns (chunk: seq<byte>, offset: nat, length: nat)
    requires size <= |data|
    ensures chunk == data[..size] && offset == size && length == |data|
  {
    var s := new ByteStream(data);
    chunk := s.Slice(size);
    offset := s.offset;
    length := s.Length();
    PySliceWithin(data, 0, size);
  }

  /** A text codec as bytes.decode and str.encode use it; either direction may
      fail (UnicodeDecodeError, UnicodeEncodeError). */
  datatype Codec = Codec(decode: seq<byte> -> Option<string>, encode: string -> Option<seq<byte>>)

  /** Python's codec registry: a codec name that is not found raises LookupError,
      and no codec is registered under the empty name. */
  type Codecs = c: string -> Option<Codec> | c([]).None? witness (name: string) => None

  const DefaultEncoding: string := "utf-8"

  /** c.encode undoes every successful c.decode. */
  ghost predicate Reversible(c: Codec)
  {
    forall b: seq<byte>, t: string :: c.decode(b) == Some(t) ==> c.encode(t) == Some(b)
  }

  /** What safe_decode returns: text, or the untouched input bytes. */
  datatype Decoded = DecodedText(text: string) | RawBytes(bytes: seq<byte>)

  /** safe_decode(s, encoding): the decoded text when decoding succeeds, otherwise
      the input bytes unchanged. Only the decode error is caught: an unknown
      encoding name still raises. */
  function SafeDecode(codecs: Codecs, s: seq<byte>, encoding: string := DefaultEncoding): (r: Result<Decoded>)
    ensures codecs(encoding).None? <==> r == Err(LookupError)
    ensures codecs(encoding).Some? ==> r.Ok?
    ensures codecs(encoding).Some? ==>
      match codecs(encoding).value.decode(s)
      case Some(t) => r.value == DecodedText(t)
      case None => r.value == RawBytes(s)
  {
    match codecs(encoding)
    case None => Err(LookupError)
    case Some(c) =>
      match c.decode(s)
      case Some(t) => Ok(DecodedText(t))
      case None => Ok(RawBytes(s))
  }

  /** With a reversible codec, whatever safe_decode returns re-encodes to its input. */
  lemma SafeDecodeReencodes(codecs: Codecs, s: seq<byte>, encoding: string)
    requires codecs(encoding).Some? && Reversible(codecs(encoding).value)
    ensures match SafeDecode(codecs, s, encoding).value
      case DecodedText(t) => codecs(encoding).value.encode(t) == Some(s)
      case RawBytes(b) => b == s
  {
  }
}
