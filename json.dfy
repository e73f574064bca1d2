/**
 * JSON serialisation of the session data map (`json_encode` / `json_decode`),
 * kept abstract: the store is parameterised by a codec, and the laws it relies
 * on are that decoding an encoding gives the map back and that an encoding is
 * never the empty string (`json_encode` of an array is at least `[]`).
 */
module Json {
  import opened Php
  import opened Wrappers

  datatype Codec = Codec(encode: Data -> string, decode: string -> Option<Data>)

  /** `json_decode(json_encode($d), true) == $d` for every data map, and no encoding is empty. */
  ghost predicate RoundTrips(c: Codec) {
    && (forall d: Data {:trigger c.encode(d)} :: c.decode(c.encode(d)) == Some(d))
    && (forall d: Data {:trigger c.encode(d)} :: c.encode(d) != [])
  }
}
