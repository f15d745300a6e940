/** StructObject of pystructs/models.py as a class: the layout is fixed when the
    object is made, the fields' states change on every unpack, and unpack and
    pack walk the fields in declaration order. */
module Models {
  import opened Common
  import opened Bytes
  import PyStruct
  import Fields
  import Utils
  import opened Schema
  import Codec

  class StructObject {
    const layout: Layout
    var slots: seq<Slot>

    /** One state per declared field. */
    predicate Valid()
      reads this
    {
      |slots| == |layout.fields|
    }

    constructor (layout: Layout)
      ensures this.layout == layout && slots == FreshSlots(layout)
      ensures Valid()
    {
      this.layout := layout;
      slots := FreshSlots(layout);
    }

    /** unpack(stream) for a bytes object: it is wrapped in a fresh stream. */
    method UnpackBytes(env: Env, data: seq<byte>) returns (r: Result<StructObject>)
      requires Valid()
      modifies this
      decreases layout, |layout.fields| + 2
      ensures Valid()
      ensures r.Ok? <==> Codec.UnpackLayout(env, layout, old(slots), data, 0).Ok?
      ensures r.Ok? ==> r.value == this && slots == Codec.UnpackLayout(env, layout, old(slots), data, 0).value.0
      ensures r.Err? ==> Codec.UnpackLayout(env, layout, old(slots), data, 0) == Err(r.error)
    {
      var stream := new Utils.ByteStream(data);
      r := UnpackStream(env, stream);
    }

    /** unpack(stream): each field in turn takes its state from the stream, which
        is left after the last field's window. */
    method UnpackStream(env: Env, stream: Utils.ByteStream) returns (r: Result<StructObject>)
      requires Valid()
      modifies this, stream
      decreases layout, |layout.fields| + 1
      ensures Valid()
      ensures r.Ok? <==> Codec.UnpackLayout(env, layout, old(slots), stream.data, old(stream.offset)).Ok?
      ensures r.Ok? ==> r.value == this
      ensures r.Ok? ==>
        Codec.UnpackLayout(env, layout, old(slots), stream.data, old(stream.offset)).value == (slots, stream.offset)
      ensures r.Err? ==> Codec.UnpackLayout(env, layout, old(slots), stream.data, old(stream.offset)) == Err(r.error)
    {
      ghost var init := slots;
      ghost var start := stream.offset;
      var i := 0;
      while i < |layout.fields|
        invariant 0 <= i <= |layout.fields| && |slots| == |layout.fields|
        invariant slots[i..] == init[i..]
        invariant Codec.UnpackUpTo(env, layout, init, stream.data, start, i) == Ok((slots[..i], stream.offset))
      {
        assert slots == slots[..i] + init[i..];
        var res := UnpackFieldAt(env, i, stream);
        if res.Err? {
          Codec.UnpackErrorPersists(env, layout, init, stream.data, start, i + 1, |layout.fields|);
          return Err(res.error);
        }
        slots := slots[i := res.value];
        assert slots[..i + 1] == slots[..i] + [res.value];
        i := i + 1;
      }
      assert slots[..i] == slots;
      return Ok(this);
    }

    /** The body of unpack's loop for field i: a nested struct unpacks its own
        window, a sizeof field goes through _unpack_sizeof, any other field is
        read with struct.unpack; then a one-element tuple is unwrapped. */
    method UnpackFieldAt(env: Env, i: nat, stream: Utils.ByteStream) returns (r: Result<Slot>)
      requires Valid() && i < |layout.fields|
      modifies stream
      decreases layout, i
      ensures r.Ok? ==> Codec.UnpackField(env, layout, i, slots, stream.data, old(stream.offset)) == Ok((r.value, stream.offset))
      ensures r.Err? ==> Codec.UnpackField(env, layout, i, slots, stream.data, old(stream.offset)) == Err(r.error)
    {
      var f := layout.fields[i];
      var slot: Slot;
      match f {
        case Nested(sub, count, _) =>
          assert f in layout.fields;
          var n: nat := Schema.Size(sub) * count;
          ghost var off := stream.offset;
          var chunk := stream.Slice(n, 0);
          assert chunk == Utils.PySlice(stream.data, off, off + n);
          var inner := new StructObject(sub);
          inner.slots := NestedSlots(sub, slots[i].val);
          var res := inner.UnpackBytes(env, chunk);
          if res.Err? {
            return Err(res.error);
          }
          slot := Slot(count, Struct(inner.slots));
        case Prim(d) =>
          if d.sizeof.Some? {
            var res := UnpackSizeof(env, d, stream);
            if res.Err? {
              return Err(res.error);
            }
            slot := res.value;
          } else {
            var res := UnpackFixedAt(env, FieldOrder(f, layout), d, stream);
            if res.Err? {
              return Err(res.error);
            }
            slot := res.value;
          }
      }
      return Ok(Codec.Unwrap(f, slot));
    }

    /** field.val = struct.unpack(order + field.format, stream.slice(field.size * field.count)). */
    method UnpackFixedAt(env: Env, order: PyStruct.OrderChar, d: Fields.Descriptor<SizeOf>, stream: Utils.ByteStream) returns (r: Result<Slot>)
      modifies stream
      ensures r.Ok? ==> Codec.UnpackFixed(env, order, d, stream.data, old(stream.offset)) == Ok((r.value, stream.offset))
      ensures r.Err? ==> Codec.UnpackFixed(env, order, d, stream.data, old(stream.offset)) == Err(r.error)
    {
      if d.count < 0 {
        return Err(StructError);
      }
      var n: nat := Fields.ElemSize(d) * d.count;
      ghost var off := stream.offset;
      var chunk := stream.Slice(n, 0);
      assert chunk == Utils.PySlice(stream.data, off, off + n);
      var items := PyStruct.UnpackCodes(Fields.Codes(d), PyStruct.LittleEndian(env.nativeLittle, [order]), chunk);
      if items.Err? {
        return Err(items.error);
      }
      return Ok(Slot(d.count, Tuple(items.value)));
    }

    /** _unpack_sizeof(field, stream). */
    method UnpackSizeof(env: Env, d: Fields.Descriptor<SizeOf>, stream: Utils.ByteStream) returns (r: Result<Slot>)
      requires Valid() && d.sizeof.Some?
      modifies stream
      ensures r.Ok? ==> Codec.UnpackSizeof(env, layout.order, d, d.sizeof.value(slots), stream.data, old(stream.offset)) == Ok((r.value, stream.offset))
      ensures r.Err? ==> Codec.UnpackSizeof(env, layout.order, d, d.sizeof.value(slots), stream.data, old(stream.offset)) == Err(r.error)
    {
      var count := d.sizeof.value(slots);
      var res := UnpackFixedAt(env, layout.order, d.(count := count), stream);
      if res.Err? {
        return Err(res.error);
      }
      if Fields.IsBytesType(d.kind) {
        var encoding := Codec.Encoding(d);
        if encoding.Err? {
          return Err(encoding.error);
        }
        if encoding.value.None? {
          return Ok(res.value);
        }
        var raw := Codec.FirstBytes(res.value.val.items);
        if raw.Err? {
          return Err(raw.error);
        }
        var text := Codec.DecodeText(env, encoding.value.value, raw.value);
        if text.Err? {
          return Err(text.error);
        }
        return Ok(Slot(count, Text(text.value)));
      }
      return Ok(res.value);
    }

    /** pack(): the output grows by each field's packed bytes in turn. */
    method Pack(env: Env) returns (r: Result<seq<byte>>)
      requires Valid()
      ensures r == Codec.Pack(env, layout, slots)
    {
      var output: seq<byte> := [];
      var i := 0;
      while i < |layout.fields|
        invariant 0 <= i <= |layout.fields|
        invariant Codec.PackUpTo(env, layout, slots[..i]) == Ok(output)
      {
        TakeTake(slots, i, i + 1);
        var next := Codec.PackField(env, layout, i, slots[i]);
        if next.Err? {
          Codec.PackErrorPersists(env, layout, slots, i + 1, |layout.fields|);
          assert slots[..|layout.fields|] == slots;
          return Err(next.error);
        }
        output := output + next.value;
        i := i + 1;
      }
      assert slots[..i] == slots;
      return Ok(output);
    }
  }
}
