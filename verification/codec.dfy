/** `NetworkHandler.MessagePayload` and its packet codec: the payload's
    bytes are framed by a VarInt length prefix followed by exactly that many
    bytes. The VarInt's own byte layout belongs to the host buffer and is
    kept abstract: a `Frame` is what the reader sees, the value `readVarInt`
    yields followed by the bytes after it. */
module Codec {
  import opened Base

  /** The payload record: the serialized protobuf message. */
  datatype MessagePayload = MessagePayload(data: seq<Byte>)

  /** A buffer as the decoder reads it. `prefix` is `None` when `readVarInt`
      cannot produce a value (the buffer ends inside the VarInt, or the VarInt
      runs past five bytes); `body` is every readable byte after the prefix. */
  datatype Frame = Frame(prefix: Option<Int32>, body: seq<Byte>)

  /** Why decoding throws: a bad VarInt, a negative array size
      (`new byte[length]`), or fewer readable bytes than declared
      (`readBytes`). */
  datatype CodecError =
    | MalformedVarInt
    | NegativeLength(declared: Int32)
    | Truncated(declared: Int32, available: nat)

  /** A Java array, and hence a payload, has at most `Integer.MAX_VALUE` bytes. */
  predicate Encodable(p: MessagePayload) {
    |p.data| <= IntMax
  }

  /** Bytes written to the same buffer after the frame. */
  function Followed(f: Frame, more: seq<Byte>): Frame {
    f.(body := f.body + more)
  }

  /** The encoder: `writeVarInt(data.length)` then `writeBytes(data)`. */
  function Encode(p: MessagePayload): (f: Frame)
    requires Encodable(p)
    ensures f.prefix.Some? && f.prefix.value as int == |f.body|
    ensures f.body == p.data
  {
    Frame(Some(|p.data| as Int32), p.data)
  }

  /** The decoder: `readVarInt`, allocate an array of that size, fill it with
      `readBytes`. On success it yields the payload and the unread bytes. */
  function Decode(f: Frame): (r: Result<(MessagePayload, seq<Byte>), CodecError>)
    ensures r.Ok? <==>
      f.prefix.Some? && 0 <= f.prefix.value as int <= |f.body|
    ensures r.Ok? ==>
      |r.value.0.data| == f.prefix.value as int && r.value.0.data + r.value.1 == f.body
    ensures r == Err(MalformedVarInt) <==> f.prefix.None?
    ensures r.Err? && r.error.NegativeLength? <==> f.prefix.Some? && f.prefix.value < 0
    ensures r.Err? && r.error.Truncated? <==>
      f.prefix.Some? && f.prefix.value >= 0 && f.prefix.value as int > |f.body|
  {
    match f.prefix
    case None => Err(MalformedVarInt)
    case Some(n) =>
      if n < 0 then Err(NegativeLength(n))
      else if n as int > |f.body| then Err(Truncated(n, |f.body|))
      else Ok((MessagePayload(f.body[..n]), f.body[n..]))
  }

  /** Round trip: decoding what the encoder wrote gives back the payload, and
      leaves whatever followed it unread. */
  lemma EncodeThenDecode(p: MessagePayload, more: seq<Byte>)
    requires Encodable(p)
    ensures Decode(Followed(Encode(p), more)) == Ok((p, more))
  {
  }

  /** The converse: whenever decoding succeeds, the buffer is exactly the
      encoding of the decoded payload followed by the unread bytes. */
  lemma DecodeThenEncode(f: Frame)
    requires Decode(f).Ok?
    ensures Encodable(Decode(f).value.0)
    ensures Followed(Encode(Decode(f).value.0), Decode(f).value.1) == f
  {
  }
}
