/** Value types shared by every part of the event-delivery model. */
module Base {

  /** A value that may be absent (a nil pointer, a missing map key). */
  datatype Option<+T> = None | Some(value: T)

  /** A Go `(T, error)` pair: either a value or the error's text. */
  datatype Result<+T> = Ok(value: T) | Err(error: string)

  /** One byte of a serialized payload. */
  newtype byte = x: int | 0 <= x < 256

  type Bytes = seq<byte>

  /** A UUID; the nil UUID (all zero bits) is 0. */
  type Uuid = nat

  const NilUuid: Uuid := 0

  /** A decoded JSON value: the model of the `any` payloads and of the log detail values. */
  datatype Value =
    | Null
    | Bool(b: bool)
    | Num(n: int)
    | Str(s: string)
    | List(items: seq<Value>)
    | Obj(fields: map<string, Value>)

  /** The JSON library, as two opaque total functions. `marshal` either encodes a value or
      fails with the encoder's error text; `unmarshalObject` decodes bytes into a
      `map[string]any` target, or fails with the decoder's error text. */
  datatype Codec = Codec(marshal: Value -> Result<Bytes>, unmarshalObject: Bytes -> Result<Value>)
}
