/** Serializers of stored objects (`store/serializer.go`). */
module Codecs {
  import opened Basics

  datatype Codec<!T> = Codec(marshal: T -> Bytes, unmarshal: Bytes -> Option<T>)

  /** Decoding inverts encoding. */
  ghost predicate IsFaithful<T(!new)>(codec: Codec<T>) {
    forall v: T :: codec.unmarshal(codec.marshal(v)) == Some(v)
  }

  function Decoded<T>(codec: Codec<T>, data: map<Bytes, Bytes>, key: Bytes): Option<T> {
    if key in data then codec.unmarshal(data[key]) else None
  }
}
